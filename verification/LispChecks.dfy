/** The Lisp verifier's check of upload calls. */
module LispChecks {
  import opened LispCalls

  /** The check of the upload calls: there are some, and each has exactly three arguments. */
  method CheckUploadArityIsThree(source: string, needle: string) returns (ok: bool)
    requires needle != ""
    ensures var calls := CallsIn(source, needle, 0);
            ok <==> calls != [] && forall i :: 0 <= i < |calls| ==> |calls[i]| == 3
  {
    var arities := FindHelperUploadArities(source, needle);
    ghost var calls := CallsIn(source, needle, 0);
    assert |arities| == |calls| && forall i :: 0 <= i < |calls| ==> arities[i] == |calls[i]|;
    if arities == [] {
      return false;
    }
    for n := 0 to |arities|
      invariant forall i :: 0 <= i < n ==> arities[i] == 3
    {
      if arities[n] != 3 {
        assert |calls[n]| != 3;
        return false;
      }
    }
    ok := true;
  }
}
