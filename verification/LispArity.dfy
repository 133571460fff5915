/** What the arity scanner counts on printed calls, and when that is the number of arguments. */
module LispArity {
  import opened Text
  import opened LispCalls
  import opened LispRoundTrip

  /** Where a character of a nested form stands: outside string literals, inside one, or behind a backslash in one. */
  datatype Quote = Out | In | Escaped

  function Turn(q: Quote, c: char): Quote {
    match q
    case Out => if c == '"' then In else Out
    case In => if c == '\\' then Escaped else if c == '"' then Out else In
    case Escaped => In
  }

  /** A blank or a `)`. */
  predicate Breaks(c: char) {
    c == ')' || IsSpace(c)
  }

  /** Atom starts inside a nested form: characters outside strings, other than blanks and `)`, that follow
      a blank or a `)`. `inArg` is false at the start when such a character just went by. */
  function Starts(b: string, inArg: bool, q: Quote): nat {
    if b == "" then 0
    else if q != Out then Starts(b[1..], inArg, Turn(q, b[0]))
    else if Breaks(b[0]) then Starts(b[1..], false, Out)
    else (if inArg then 0 else 1) + Starts(b[1..], true, Turn(Out, b[0]))
  }

  /** Outside strings the parentheses in `b` close each other and `depth` earlier ones, and no string is left open. */
  predicate FormOk(b: string, depth: nat, q: Quote) {
    if b == "" then depth == 0 && q == Out
    else if q != Out then FormOk(b[1..], depth, Turn(q, b[0]))
    else if b[0] == '(' then FormOk(b[1..], depth + 1, Out)
    else if b[0] == ')' then depth > 0 && FormOk(b[1..], depth - 1, Out)
    else FormOk(b[1..], depth, Turn(Out, b[0]))
  }

  /** How much one argument adds to the arity scanner's count. */
  function Weight(a: Arg): nat {
    if a.Nested? then 1 + Starts(a.body, true, Out) else 1
  }

  function Weights(args: seq<SpacedArg>): nat {
    if args == [] then 0 else Weight(args[0].arg) + Weights(args[1..])
  }

  function Counted(d: Document): seq<nat> {
    match d
    case End(_) => []
    case Then(_, c, rest) => [Weights(c.args)] + Counted(rest)
  }

  /** Every nested form is also balanced when string literals are read as such. */
  predicate FormsOk(d: Document) {
    d.Then? ==>
      && (forall k :: 0 <= k < |d.call.args| && d.call.args[k].arg.Nested? ==> FormOk(d.call.args[k].arg.body, 0, Out))
      && FormsOk(d.rest)
  }

  /** A balanced form without quotes is one of them. */
  lemma {:induction false} QuoteFreeOk(b: string, depth: nat)
    requires '"' !in b && Balanced(b, depth)
    ensures FormOk(b, depth, Out)
  {
    if b != "" {
      QuoteFreeOk(b[1..], if b[0] == '(' then depth + 1 else if b[0] == ')' then depth - 1 else depth);
    }
  }

  // ---------- counting printed pieces ----------

  lemma {:induction false} TallyBare(s: string, i: nat, t: string, inArg: bool, count: nat)
    requires OccursAt(s, t, i) && t != ""
    requires forall k :: 0 <= k < |t| ==> IsPlain(t[k])
    ensures TallyArgs(s, i, 1, false, inArg, count)
         == TallyArgs(s, i + |t|, 1, false, true, if inArg then count else count + 1)
    decreases |t|
  {
    HeadAt(s, t, i);
    assert IsPlain(t[0]);
    if |t| > 1 {
      TallyBare(s, i + 1, t[1..], true, if inArg then count else count + 1);
    }
  }

  lemma {:induction false} TallyBlanks(s: string, i: nat, gap: string, inArg: bool, count: nat)
    requires OccursAt(s, gap, i) && Blank(gap) && gap != ""
    ensures TallyArgs(s, i, 1, false, inArg, count) == TallyArgs(s, i + |gap|, 1, false, false, count)
    decreases |gap|
  {
    HeadAt(s, gap, i);
    if |gap| > 1 {
      TallyBlanks(s, i + 1, gap[1..], false, count);
    }
  }

  lemma {:induction false} TallyLiteral(s: string, i: nat, b: string, count: nat)
    requires LiteralOk(b) && OccursAt(s, b + "\"", i)
    ensures TallyArgs(s, i, 1, true, true, count) == TallyArgs(s, i + |b| + 1, 1, false, true, count)
    decreases |b|
  {
    var p := b + "\"";
    HeadAt(s, p, i);
    if b == "" {
    } else if b[0] == '\\' {
      HeadAt(s, p[1..], i + 1);
      assert p[1..][1..] == b[2..] + "\"";
      TallyLiteral(s, i + 2, b[2..], count);
    } else {
      assert p[1..] == b[1..] + "\"";
      TallyLiteral(s, i + 1, b[1..], count);
    }
  }

  lemma {:induction false} TallyForm(s: string, i: nat, b: string, depth: nat, q: Quote, inArg: bool, count: nat)
    requires q != Escaped && FormOk(b, depth, q) && OccursAt(s, b + ")", i)
    ensures TallyArgs(s, i, depth + 2, q == In, inArg, count)
         == TallyArgs(s, i + |b| + 1, 1, false, false, count + Starts(b, inArg, q))
    decreases |b|, 1
  {
    if b == "" {
      HeadAt(s, b + ")", i);
    } else if q == In {
      TallyQuoted(s, i, b, depth, inArg, count);
    } else {
      HeadAt(s, b + ")", i);
      assert (b + ")")[1..] == b[1..] + ")";
      TallyForm(s, i + 1, b[1..],
                if b[0] == '(' then depth + 1 else if b[0] == ')' then depth - 1 else depth,
                Turn(Out, b[0]), !Breaks(b[0]), if Breaks(b[0]) || inArg then count else count + 1);
    }
  }

  /** Inside a string literal of a nested form. */
  lemma {:induction false} TallyQuoted(s: string, i: nat, b: string, depth: nat, inArg: bool, count: nat)
    requires b != "" && FormOk(b, depth, In) && OccursAt(s, b + ")", i)
    ensures TallyArgs(s, i, depth + 2, true, inArg, count)
         == TallyArgs(s, i + |b| + 1, 1, false, false, count + Starts(b, inArg, In))
    decreases |b|, 0
  {
    hide IsSpace;
    hide OccursAt;
    hide Breaks;
    var p := b + ")";
    HeadAt(s, p, i);
    assert p[1..] == b[1..] + ")";
    if b[0] == '\\' {
      assert b[1..] != "";
      HeadAt(s, p[1..], i + 1);
      assert p[1..][1..] == b[2..] + ")" && b[1..][1..] == b[2..];
      TallyForm(s, i + 2, b[2..], depth, In, inArg, count);
    } else {
      TallyForm(s, i + 1, b[1..], depth, Turn(In, b[0]), inArg, count);
    }
  }

  lemma TallyArg(s: string, i: nat, a: Arg, count: nat)
    requires ArgOk(a) && (a.Nested? ==> FormOk(a.body, 0, Out)) && OccursAt(s, PrintArg(a), i)
    ensures TallyArgs(s, i, 1, false, false, count)
         == TallyArgs(s, i + |PrintArg(a)|, 1, false, !a.Nested?, count + Weight(a))
  {
    HeadAt(s, PrintArg(a), i);
    match a
    case Bare(t) =>
      TallyBare(s, i, t, false, count);
    case Literal(b) =>
      assert PrintArg(a)[1..] == b + "\"";
      TallyLiteral(s, i + 1, b, count + 1);
    case Nested(b) =>
      assert PrintArg(a)[1..] == b + ")";
      TallyForm(s, i + 1, b, 0, Out, true, count + 1);
  }

  lemma TallyCallEnd(s: string, i: nat, trail: string, after: string, inArg: bool, count: nat)
    requires Blank(trail) && OccursAt(s, trail + (")" + after), i)
    ensures TallyArgs(s, i, 1, false, inArg, count) == Tally(count, i + |trail| + 1)
    ensures OccursAt(s, after, i + |trail| + 1)
  {
    SplitAt(s, trail, ")" + after, i);
    SplitAt(s, ")", after, i + |trail|);
    HeadAt(s, ")", i + |trail|);
    if trail != "" {
      TallyBlanks(s, i, trail, inArg, count);
    }
  }

  lemma TallyFirstArg(s: string, i: nat, list: seq<SpacedArg>, tail: string, inArg: bool, count: nat)
    requires list != [] && OccursAt(s, PrintArgs(list, tail), i)
    requires list[0].gap != "" && Blank(list[0].gap) && ArgOk(list[0].arg)
    requires list[0].arg.Nested? ==> FormOk(list[0].arg.body, 0, Out)
    ensures var x := list[0];
            && i + |x.gap| + |PrintArg(x.arg)| <= |s|
            && TallyArgs(s, i, 1, false, inArg, count)
            == TallyArgs(s, i + |x.gap| + |PrintArg(x.arg)|, 1, false, !x.arg.Nested?, count + Weight(x.arg))
  {
    ArgsSplit(s, i, list, tail);
    TallyBlanks(s, i, list[0].gap, inArg, count);
    TallyArg(s, i + |list[0].gap|, list[0].arg, count);
  }

  lemma {:induction false} TallyList(s: string, i: nat, list: seq<SpacedArg>, trail: string, after: string,
                                     inArg: bool, count: nat) returns (end: nat)
    requires CallOk(Call(list, trail)) && OccursAt(s, PrintArgs(list, trail + (")" + after)), i)
    requires forall k :: 0 <= k < |list| && list[k].arg.Nested? ==> FormOk(list[k].arg.body, 0, Out)
    ensures end + |after| == i + |PrintArgs(list, trail + (")" + after))| && OccursAt(s, after, end)
    ensures TallyArgs(s, i, 1, false, inArg, count) == Tally(count + Weights(list), end)
    decreases |list|
  {
    hide FormOk;
    hide ArgOk;
    hide TallyArgs;
    hide OccursAt;
    var tail := trail + (")" + after);
    if list == [] {
      end := i + |trail| + 1;
      TallyCallEnd(s, i, trail, after, inArg, count);
    } else {
      var x := list[0];
      var next := i + |x.gap| + |PrintArg(x.arg)|;
      CallOkTail(list, trail);
      assert OccursAt(s, PrintArgs(list[1..], tail), next)
          && next + |PrintArgs(list[1..], tail)| == i + |PrintArgs(list, tail)| by {
        ArgsSplit(s, i, list, tail);
      }
      TallyFirstArg(s, i, list, tail, inArg, count);
      end := TallyList(s, next, list[1..], trail, after, !x.arg.Nested?, count + Weight(x.arg));
    }
  }

  lemma {:induction false} CountDocument(s: string, pos: nat, d: Document, needle: string)
    requires NeedleOk(needle) && DocumentOk(d, needle) && FormsOk(d)
    requires OccursAt(s, Print(d, needle), pos) && pos + |Print(d, needle)| == |s|
    ensures AritiesIn(s, needle, pos) == Counted(d)
    decreases d
  {
    hide FormOk;
    hide ArgOk;
    hide Blank;
    hide TallyArgs;
    match d
    case End(text) =>
      FindNothing(s, pos, text, needle);
    case Then(text, c, rest) =>
      var start := EnterCall(s, pos, d, needle);
      var end := TallyList(s, start, c.args, c.trail, Print(rest, needle), false, 0);
      CountDocument(s, end, rest, needle);
  }

  // ---------- when the count is the number of arguments ----------

  /** How position `k` stands when the first character stands as `q`. */
  function QuoteAt(b: string, q: Quote, k: nat): Quote
    requires k <= |b|
  {
    if k == 0 then q else QuoteAt(b[1..], Turn(q, b[0]), k - 1)
  }

  predicate RunUpTo(b: string, q: Quote, j: nat) {
    && j <= |b|
    && (forall k :: 0 <= k < j ==> QuoteAt(b, q, k) != Out || !Breaks(b[k]))
    && (forall k :: j <= k < |b| ==> QuoteAt(b, q, k) == Out && Breaks(b[k]))
  }

  /** One run of atoms, nested opens and strings included: outside strings no blank and no `)` before the trailing ones. */
  predicate OneRun(b: string, q: Quote) {
    exists j :: 0 <= j <= |b| && RunUpTo(b, q, j)
  }

  predicate AllOneRun(d: Document) {
    d.Then? ==>
      && (forall k :: 0 <= k < |d.call.args| && d.call.args[k].arg.Nested? ==> OneRun(d.call.args[k].arg.body, Out))
      && AllOneRun(d.rest)
  }

  lemma RunOneMore(b: string, q: Quote, j: nat)
    requires b != "" && 0 < j <= |b|
    ensures RunUpTo(b, q, j) <==> (q != Out || !Breaks(b[0])) && RunUpTo(b[1..], Turn(q, b[0]), j - 1)
  {
    var r := Turn(q, b[0]);
    assert forall k :: 1 <= k < |b| ==> b[k] == b[1..][k - 1] && QuoteAt(b, q, k) == QuoteAt(b[1..], r, k - 1);
    assert forall k :: 0 <= k < |b| - 1 ==> b[1..][k] == b[k + 1] && QuoteAt(b[1..], r, k) == QuoteAt(b, q, k + 1);
    assert QuoteAt(b, q, 0) == q;
  }

  lemma RunFromStart(b: string)
    requires b != ""
    ensures RunUpTo(b, Out, 0) <==> Breaks(b[0]) && RunUpTo(b[1..], Out, 0)
  {
    if Breaks(b[0]) {
      assert Turn(Out, b[0]) == Out;
      assert forall k :: 1 <= k < |b| ==> b[k] == b[1..][k - 1] && QuoteAt(b, Out, k) == QuoteAt(b[1..], Out, k - 1);
      assert forall k :: 0 <= k < |b| - 1 ==> b[1..][k] == b[k + 1] && QuoteAt(b[1..], Out, k) == QuoteAt(b, Out, k + 1);
    }
  }

  lemma {:induction false} NoStartsOnlyBreaks(b: string)
    ensures Starts(b, false, Out) == 0 <==> RunUpTo(b, Out, 0)
  {
    if b != "" {
      NoStartsOnlyBreaks(b[1..]);
      RunFromStart(b);
    }
  }

  lemma {:induction false} NoStartsIsOneRun(b: string, q: Quote)
    ensures Starts(b, true, q) == 0 <==> OneRun(b, q)
  {
    if b == "" {
      assert RunUpTo(b, q, 0);
    } else if q == Out && Breaks(b[0]) {
      NoStartsOnlyBreaks(b[1..]);
      RunFromStart(b);
      forall j | 0 < j <= |b| ensures !RunUpTo(b, q, j) {
        RunOneMore(b, q, j);
      }
    } else {
      NoStartsIsOneRun(b[1..], Turn(q, b[0]));
      OneRunOneMore(b, q);
    }
  }

  lemma OneRunOneMore(b: string, q: Quote)
    requires b != "" && (q != Out || !Breaks(b[0]))
    ensures OneRun(b, q) <==> OneRun(b[1..], Turn(q, b[0]))
  {
    assert QuoteAt(b, q, 0) == q;
    forall j | 0 < j <= |b| ensures RunUpTo(b, q, j) <==> RunUpTo(b[1..], Turn(q, b[0]), j - 1) {
      RunOneMore(b, q, j);
    }
    if OneRun(b[1..], Turn(q, b[0])) {
      var j :| 0 <= j <= |b[1..]| && RunUpTo(b[1..], Turn(q, b[0]), j);
      assert RunUpTo(b, q, j + 1);
    }
  }

  lemma {:induction false} WeightsAtLeast(args: seq<SpacedArg>)
    ensures Weights(args) >= |args|
    ensures Weights(args) == |args| <==>
            forall k :: 0 <= k < |args| && args[k].arg.Nested? ==> OneRun(args[k].arg.body, Out)
  {
    if args != [] {
      WeightsAtLeast(args[1..]);
      if args[0].arg.Nested? {
        NoStartsIsOneRun(args[0].arg.body, Out);
      }
      assert forall k :: 1 <= k < |args| ==> args[k] == args[1..][k - 1];
      assert forall k :: 0 <= k < |args| - 1 ==> args[1..][k] == args[k + 1];
    }
  }

  lemma {:induction false} CountedIsLengths(d: Document)
    ensures Counted(d) == Lengths(Arguments(d)) <==> AllOneRun(d)
    ensures |Counted(d)| == |Lengths(Arguments(d))|
  {
    match d
    case End(_) =>
    case Then(_, c, rest) =>
      CountedIsLengths(rest);
      WeightsAtLeast(c.args);
      var counted, lengths := Counted(d), Lengths(Arguments(d));
      assert lengths == [|c.args|] + Lengths(Arguments(rest));
      assert counted[1..] == Counted(rest) && lengths[1..] == Lengths(Arguments(rest));
      assert counted == [counted[0]] + counted[1..] && lengths == [lengths[0]] + lengths[1..];
  }

  /** On printed texts whose nested forms are balanced with their strings read as such, the two scanners agree on every call's
      arity exactly when every nested form is a single run of atoms; in particular on flat calls. */
  lemma ScannersAgreeOnArity(d: Document, needle: string)
    requires NeedleOk(needle) && DocumentOk(d, needle) && FormsOk(d)
    ensures AritiesIn(Print(d, needle), needle, 0) == Counted(d)
    ensures AritiesIn(Print(d, needle), needle, 0) == Lengths(CallsIn(Print(d, needle), needle, 0)) <==> AllOneRun(d)
  {
    CountDocument(Print(d, needle), 0, d, needle);
    ScannerUndoesPrinter(d, needle);
    CountedIsLengths(d);
  }

  /** The one-argument call `(f (a b))`: the argument scanner finds one argument, the arity scanner counts two. */
  lemma NestedAtomsCountTwice(d: Document, needle: string)
    requires needle == "(f" && d == Then("", Call([SpacedArg(" ", Nested("a b"))], ""), End(""))
    ensures CallsIn(Print(d, needle), needle, 0) == [["(...)"]] && AritiesIn(Print(d, needle), needle, 0) == [2]
  {
    var b := "a b";
    assert b[1..] == " b" && b[1..][1..] == "b" && b[1..][1..][1..] == "";
    assert Balanced(b, 0) && Starts(b, true, Out) == 1;
    QuoteFreeOk(b, 0);
    assert d.rest == End("") && DocumentOk(d.rest, needle);
    ScannersAgreeOnArity(d, needle);
    ScannerUndoesPrinter(d, needle);
    assert Arguments(d) == [Tokens(d.call.args)] && Tokens(d.call.args) == ["(...)"];
    assert Weights(d.call.args) == Weight(Nested(b)) == 2;
    assert Counted(d) == [2];
  }
}
