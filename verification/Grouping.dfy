/** Counting the members of a list by key: what grouping loops over ordered dictionaries compute. */
module Grouping {
  import opened Sequences

  /** The keys in the order they are first met. */
  function FirstMet<K(==, !new)>(ks: seq<K>): (r: seq<K>)
    ensures Distinct(r) && forall k :: k in r <==> k in ks
  {
    if ks == [] then []
    else
      var front, last := FirstMet(ks[..|ks| - 1]), ks[|ks| - 1];
      assert ks == ks[..|ks| - 1] + [last];
      if last in front then front else front + [last]
  }

  /** How many positions have key `k` and their flag set. */
  function Count<K(==, !new)>(ks: seq<K>, flags: seq<bool>, k: K): nat
    requires |ks| == |flags|
  {
    if ks == [] then 0
    else
      var n := |ks| - 1;
      Count(ks[..n], flags[..n], k) + if ks[n] == k && flags[n] then 1 else 0
  }

  /** How many flags are set. */
  function CountAll(flags: seq<bool>): nat {
    if flags == [] then 0 else CountAll(flags[..|flags| - 1]) + if flags[|flags| - 1] then 1 else 0
  }

  function Total<K(==, !new)>(keys: seq<K>, ks: seq<K>, flags: seq<bool>): nat
    requires |ks| == |flags|
  {
    if keys == [] then 0 else Count(ks, flags, keys[0]) + Total(keys[1..], ks, flags)
  }

  lemma {:induction false} TotalOneMore<K(!new)>(keys: seq<K>, ks: seq<K>, flags: seq<bool>)
    requires Distinct(keys) && |ks| == |flags| > 0
    ensures var n := |ks| - 1;
            Total(keys, ks, flags) == Total(keys, ks[..n], flags[..n]) + if flags[n] && ks[n] in keys then 1 else 0
  {
    if keys != [] {
      assert keys == [keys[0]] + keys[1..];
      TotalOneMore(keys[1..], ks, flags);
    }
  }

  lemma {:induction false} TotalNone<K(!new)>(keys: seq<K>)
    ensures Total(keys, [], []) == 0
  {
    if keys != [] {
      TotalNone(keys[1..]);
    }
  }

  /** Adding up the groups counts every flagged position once. */
  lemma {:induction false} GroupsAddUp<K(!new)>(keys: seq<K>, ks: seq<K>, flags: seq<bool>)
    requires Distinct(keys) && |ks| == |flags| && forall k :: k in ks ==> k in keys
    ensures Total(keys, ks, flags) == CountAll(flags)
  {
    if ks == [] {
      TotalNone(keys);
    } else {
      var n := |ks| - 1;
      assert forall k :: k in ks[..n] ==> k in ks;
      GroupsAddUp(keys, ks[..n], flags[..n]);
      TotalOneMore(keys, ks, flags);
      assert ks[n] in ks;
    }
  }

  lemma CountOneMore<K(!new)>(ks: seq<K>, flags: seq<bool>, i: nat, k: K)
    requires i < |ks| == |flags|
    ensures Count(ks[..i + 1], flags[..i + 1], k) == Count(ks[..i], flags[..i], k) + if ks[i] == k && flags[i] then 1 else 0
  {
    assert ks[..i + 1][..i] == ks[..i] && flags[..i + 1][..i] == flags[..i];
  }

  lemma FirstMetOneMore<K(!new)>(ks: seq<K>, i: nat)
    requires i < |ks|
    ensures FirstMet(ks[..i + 1]) == if ks[i] in FirstMet(ks[..i]) then FirstMet(ks[..i]) else FirstMet(ks[..i]) + [ks[i]]
  {
    assert ks[..i + 1][..i] == ks[..i];
  }

  lemma {:induction false} CountAbsent<K(!new)>(ks: seq<K>, flags: seq<bool>, k: K)
    requires |ks| == |flags| && k !in ks
    ensures Count(ks, flags, k) == 0
  {
    if ks != [] {
      CountAbsent(ks[..|ks| - 1], flags[..|ks| - 1], k);
    }
  }

  // ---------- counts are sizes ----------

  /** The flagged positions of a key, and all flagged positions. */
  ghost function Flagged<K(!new)>(ks: seq<K>, flags: seq<bool>, k: K): set<int>
    requires |ks| == |flags|
  {
    set i: int | 0 <= i < |ks| && ks[i] == k && flags[i]
  }

  ghost function AllFlagged(flags: seq<bool>): set<int> {
    set i: int | 0 <= i < |flags| && flags[i]
  }

  lemma {:induction false} CountIsSize<K(!new)>(ks: seq<K>, flags: seq<bool>, k: K)
    requires |ks| == |flags|
    ensures Count(ks, flags, k) == |Flagged(ks, flags, k)|
  {
    if ks == [] {
      assert Flagged(ks, flags, k) == {};
    } else {
      var n := |ks| - 1;
      CountIsSize(ks[..n], flags[..n], k);
      assert Flagged(ks, flags, k) == Flagged(ks[..n], flags[..n], k) + if ks[n] == k && flags[n] then {n} else {};
    }
  }

  lemma {:induction false} CountAllIsSize(flags: seq<bool>)
    ensures CountAll(flags) == |AllFlagged(flags)|
  {
    if flags == [] {
      assert AllFlagged(flags) == {};
    } else {
      var n := |flags| - 1;
      CountAllIsSize(flags[..n]);
      assert AllFlagged(flags) == AllFlagged(flags[..n]) + if flags[n] then {n} else {};
    }
  }

  /** Each key stands at its first position, in the order of these positions, and every key is there. */
  ghost predicate FirstAt<K(!new)>(keys: seq<K>, ks: seq<K>, at: seq<nat>) {
    && |at| == |keys|
    && (forall i :: 0 <= i < |at| ==> at[i] < |ks| && keys[i] == ks[at[i]])
    && (forall i, j :: 0 <= i < |at| && 0 <= j < at[i] ==> ks[j] != keys[i])
    && (forall i, j :: 0 <= i < j < |at| ==> at[i] < at[j])
    && (forall n :: 0 <= n < |ks| ==> ks[n] in keys)
  }

  lemma {:induction false} FirstMetAt<K(!new)>(ks: seq<K>) returns (at: seq<nat>)
    ensures FirstAt(FirstMet(ks), ks, at)
  {
    if ks == [] {
      at := [];
    } else {
      var n := |ks| - 1;
      at := FirstMetAt(ks[..n]);
      var front := FirstMet(ks[..n]);
      assert ks == ks[..n] + [ks[n]];
      assert forall i :: 0 <= i < |at| ==> ks[at[i]] == ks[..n][at[i]];
      assert forall i, j :: 0 <= i < |at| && 0 <= j < at[i] ==> ks[j] == ks[..n][j];
      forall m | 0 <= m < n ensures ks[m] in front {
        assert ks[m] == ks[..n][m];
      }
      if ks[n] !in front {
        at := at + [n];
      }
    }
  }
}
