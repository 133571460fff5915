/** What a clean comparison in a finer mode says about the summarized comparison. */
module BomRollUp {
  import opened Sequences
  import opened Options
  import opened BomLines
  import opened BomEntries
  import opened BomLabels
  import opened BomCompare

  /** Nothing added, removed or modified. */
  ghost predicate Clean(c: Comparison) {
    forall k :: k in c.Keys() ==> StatusOf(c, k) == Unchanged
  }

  /** The keys and quantities a grouping has. */
  ghost predicate Totals(e: Entries, lines: seq<Reading>, mode: Mode, show: real -> string) {
    e.Keys == KeysOf(lines, mode, show) && forall k :: k in e ==> e[k].qty == QtyOf(lines, mode, show, k)
  }

  lemma GroupsTotals(e: Entries, lines: seq<Reading>, mode: Mode, show: real -> string)
    requires Groups(e, lines, mode, show) && mode != OnlyProduct
    ensures Totals(e, lines, mode, show)
  {
    forall k | k in e ensures e[k].qty == QtyOf(lines, mode, show, k) {
      assert Sums(e[k], Select(lines, mode, show, k), mode);
    }
  }

  /** A comparison of the quantities of two trees' lines. */
  ghost predicate Compares(c: Comparison, a: seq<Reading>, b: seq<Reading>, show: real -> string) {
    Totals(c.a, a, c.mode, show) && Totals(c.b, b, c.mode, show)
  }

  predicate Within(x: real, y: real, bound: real) {
    -bound <= x - y <= bound
  }

  /** `n` tolerances added up. */
  function Times(n: nat, tolerance: real): real {
    if n == 0 then 0.0 else Times(n - 1, tolerance) + tolerance
  }

  /** The finer keys of one child and unit. */
  function GroupKeys(keys: set<Key>, g: Key): set<Key> {
    set k | k in keys && InGroup(k, Some(g))
  }

  lemma CleanKey(c: Comparison, a: seq<Reading>, b: seq<Reading>, show: real -> string, k: Key)
    requires Compares(c, a, b, show) && c.mode != OnlyProduct && StatusOf(c, k) == Unchanged
    ensures k in c.a && k in c.b
    ensures Within(QtyOf(a, c.mode, show, k), QtyOf(b, c.mode, show, k), c.tolerance)
  {
    assert c.a[k].qty == QtyOf(a, c.mode, show, k) && c.b[k].qty == QtyOf(b, c.mode, show, k);
  }

  /** A clean comparison has the same keys on both sides. */
  lemma CleanKeys(c: Comparison)
    requires Clean(c)
    ensures c.a.Keys == c.b.Keys == c.Keys()
  {
    forall k | k in c.Keys() ensures k in c.a && k in c.b {
      assert StatusOf(c, k) == Unchanged;
    }
  }

  function CountGroup(keys: seq<Key>, g: Key): nat {
    if keys == [] then 0 else (if InGroup(keys[0], Some(g)) then 1 else 0) + CountGroup(keys[1..], g)
  }

  lemma {:induction false} CountGroupIsSize(order: seq<Key>, keys: set<Key>, g: Key)
    requires Enumerates(order, keys)
    ensures CountGroup(order, g) == |GroupKeys(keys, g)|
    decreases |order|
  {
    if keys == {} {
      EnumeratesNothing(order);
      assert GroupKeys(keys, g) == {};
    } else {
      hide InGroup;
      hide Enumerates;
      EnumeratesSomething(order, keys);
      CountGroupIsSize(order[1..], keys - {order[0]}, g);
      assert GroupKeys(keys, g) == GroupKeys(keys - {order[0]}, g) + if InGroup(order[0], Some(g)) then {order[0]} else {};
    }
  }

  lemma {:induction false} SumsDrift(keys: seq<Key>, a: seq<Reading>, b: seq<Reading>, mode: Mode, show: real -> string,
                                     g: Key, tolerance: real)
    requires forall k :: k in keys ==> Within(QtyOf(a, mode, show, k), QtyOf(b, mode, show, k), tolerance)
    ensures Within(SumKeys(keys, a, mode, show, Some(g)), SumKeys(keys, b, mode, show, Some(g)), Times(CountGroup(keys, g), tolerance))
  {
    hide QtyOf;
    hide InGroup;
    if keys != [] {
      assert keys[0] in keys;
      SumsDrift(keys[1..], a, b, mode, show, g, tolerance);
      assert Within(QtyOf(a, mode, show, keys[0]), QtyOf(b, mode, show, keys[0]), tolerance);
    }
  }

  /** The summarized keys are the first two parts of the finer mode's keys. */
  lemma SummarizedKeys(lines: seq<Reading>, mode: Mode, show: real -> string)
    requires mode != OnlyProduct
    ensures KeysOf(lines, Summarized, show) == set k | k in KeysOf(lines, mode, show) :: Prefix(k)
  {
    forall g | g in KeysOf(lines, Summarized, show)
      ensures g in set k | k in KeysOf(lines, mode, show) :: Prefix(k) {
      var r :| r in lines && Counts(r) && KeyOf(Summarized, show, r) == g;
      PrefixOfKey(mode, show, r);
      assert KeyOf(mode, show, r) in KeysOf(lines, mode, show);
    }
    forall k | k in KeysOf(lines, mode, show) ensures Prefix(k) in KeysOf(lines, Summarized, show) {
      var r :| r in lines && Counts(r) && KeyOf(mode, show, r) == k;
      PrefixOfKey(mode, show, r);
    }
  }

  lemma PrefixOfKey(mode: Mode, show: real -> string, r: Reading)
    requires mode != OnlyProduct
    ensures Prefix(KeyOf(mode, show, r)) == KeyOf(Summarized, show, r)
  {
  }

  function Prefix(k: Key): Key {
    if |k| >= 2 then k[..2] else k
  }

  /** How far the summarized quantities of one child and unit can drift apart: one tolerance for each of its finer keys. */
  lemma GroupDrift(c: Comparison, a: seq<Reading>, b: seq<Reading>, show: real -> string, g: Key)
    requires Compares(c, a, b, show) && Clean(c) && c.mode != OnlyProduct
    ensures Within(QtyOf(a, Summarized, show, g), QtyOf(b, Summarized, show, g),
                   Times(|GroupKeys(c.Keys(), g)|, c.tolerance))
  {
    CleanKeys(c);
    var order := SomeOrder(c.Keys());
    CountGroupIsSize(order, c.Keys(), g);
    RollUp(order, a, c.mode, show, g);
    RollUp(order, b, c.mode, show, g);
    forall k | k in order ensures Within(QtyOf(a, c.mode, show, k), QtyOf(b, c.mode, show, k), c.tolerance) {
      CleanKey(c, a, b, show, k);
    }
    SumsDrift(order, a, b, c.mode, show, g, c.tolerance);
  }

  lemma SameSummarizedKeys(c: Comparison, s: Comparison, a: seq<Reading>, b: seq<Reading>, show: real -> string)
    requires Compares(c, a, b, show) && Clean(c) && c.mode != OnlyProduct
    requires Compares(s, a, b, show) && s.mode == Summarized
    ensures s.a.Keys == s.b.Keys
  {
    CleanKeys(c);
    SummarizedKeys(a, c.mode, show);
    SummarizedKeys(b, c.mode, show);
  }

  lemma UnchangedWhenWithin(s: Comparison, a: seq<Reading>, b: seq<Reading>, show: real -> string, g: Key, bound: real)
    requires Compares(s, a, b, show) && s.mode == Summarized && s.tolerance >= bound
    requires g in s.a && g in s.b && Within(QtyOf(a, Summarized, show, g), QtyOf(b, Summarized, show, g), bound)
    ensures StatusOf(s, g) == Unchanged
  {
    assert s.a[g].qty == QtyOf(a, Summarized, show, g) && s.b[g].qty == QtyOf(b, Summarized, show, g);
  }

  /** If a finer comparison is clean at some tolerance, the summarized comparison is clean at that
      tolerance taken as often as a child and unit has finer keys. */
  lemma CleanRollsUp(c: Comparison, s: Comparison, a: seq<Reading>, b: seq<Reading>, show: real -> string)
    requires Compares(c, a, b, show) && Clean(c) && c.mode != OnlyProduct
    requires Compares(s, a, b, show) && s.mode == Summarized
    requires forall g :: g in s.Keys() ==> s.tolerance >= Times(|GroupKeys(c.Keys(), g)|, c.tolerance)
    ensures Clean(s)
  {
    hide Compares;
    hide Clean;
    SameSummarizedKeys(c, s, a, b, show);
    forall g | g in s.Keys() ensures StatusOf(s, g) == Unchanged {
      GroupDrift(c, a, b, show, g);
      UnchangedWhenWithin(s, a, b, show, g, Times(|GroupKeys(c.Keys(), g)|, c.tolerance));
    }
    AllUnchanged(s);
  }

  lemma AllUnchanged(s: Comparison)
    requires forall g :: g in s.Keys() ==> StatusOf(s, g) == Unchanged
    ensures Clean(s)
  {
  }

  // ---------- at the same tolerance ----------

  predicate SameGroup(r: Reading, t: Reading) {
    Counts(r) && Counts(t) && r.childId == t.childId && r.uom == t.uom
  }

  /** No two lines of one child and unit have different keys in the mode. */
  predicate OneKeyPerGroup(lines: seq<Reading>, mode: Mode, show: real -> string) {
    forall i, j :: 0 <= i < |lines| && 0 <= j < |lines| && SameGroup(lines[i], lines[j]) ==>
      KeyOf(mode, show, lines[i]) == KeyOf(mode, show, lines[j])
  }

  lemma {:induction false} TimesAtMostOnce(n: nat, tolerance: real)
    requires n >= 1 && (n == 1 || tolerance <= 0.0)
    ensures Times(n, tolerance) <= tolerance
  {
    if n > 1 {
      TimesAtMostOnce(n - 1, tolerance);
    }
  }

  /** Every summarized key has a finer key, and with one key per group only one. */
  lemma GroupSize(lines: seq<Reading>, mode: Mode, show: real -> string, g: Key)
    requires mode != OnlyProduct && g in KeysOf(lines, Summarized, show)
    ensures |GroupKeys(KeysOf(lines, mode, show), g)| >= 1
    ensures OneKeyPerGroup(lines, mode, show) ==> |GroupKeys(KeysOf(lines, mode, show), g)| == 1
  {
    var r :| r in lines && Counts(r) && KeyOf(Summarized, show, r) == g;
    var keys, k := GroupKeys(KeysOf(lines, mode, show), g), KeyOf(mode, show, r);
    assert k in keys;
    if OneKeyPerGroup(lines, mode, show) {
      forall l | l in keys ensures l == k {
        var t :| t in lines && Counts(t) && KeyOf(mode, show, t) == l;
        assert [t.childId, t.uom] == [r.childId, r.uom];
        SameGroupSameKey(lines, mode, show, r, t);
      }
      assert keys == {k};
    } else {
      assert keys != {};
    }
  }

  lemma SameGroupSameKey(lines: seq<Reading>, mode: Mode, show: real -> string, r: Reading, t: Reading)
    requires OneKeyPerGroup(lines, mode, show) && r in lines && t in lines && Counts(r) && Counts(t)
    requires [t.childId, t.uom] == [r.childId, r.uom]
    ensures KeyOf(mode, show, t) == KeyOf(mode, show, r)
  {
    var i :| 0 <= i < |lines| && lines[i] == r;
    var j :| 0 <= j < |lines| && lines[j] == t;
    assert [t.childId, t.uom][0] == [r.childId, r.uom][0] && [t.childId, t.uom][1] == [r.childId, r.uom][1];
    assert SameGroup(lines[i], lines[j]);
  }

  /** A comparison of two trees in a mode. */
  ghost predicate ComparesTrees(c: Comparison, bomA: Node, bomB: Node, mode: Mode, tolerance: real, show: real -> string) {
    && c.mode == mode && c.tolerance == tolerance
    && Groups(c.a, Flatten(bomA), mode, show) && Groups(c.b, Flatten(bomB), mode, show)
  }

  lemma TreesCompared(c: Comparison, bomA: Node, bomB: Node, mode: Mode, tolerance: real, show: real -> string)
    requires ComparesTrees(c, bomA, bomB, mode, tolerance, show) && mode != OnlyProduct
    ensures Compares(c, Flatten(bomA), Flatten(bomB), show)
    ensures c.a.Keys == KeysOf(Flatten(bomA), mode, show)
  {
    GroupsTotals(c.a, Flatten(bomA), mode, show);
    GroupsTotals(c.b, Flatten(bomB), mode, show);
  }

  /** A clean finer comparison rolls up at the same tolerance if that is not positive, or if one tree has a single finer
      key for each child and unit - in any of the finer modes, and for any two trees. */
  lemma SameToleranceRollsUp(bomA: Node, bomB: Node, c: Comparison, s: Comparison, mode: Mode, tolerance: real,
                             show: real -> string)
    requires ComparesTrees(c, bomA, bomB, mode, tolerance, show) && mode != OnlyProduct && Clean(c)
    requires ComparesTrees(s, bomA, bomB, Summarized, tolerance, show)
    requires tolerance <= 0.0 || OneKeyPerGroup(Flatten(bomA), mode, show)
    ensures Clean(s)
  {
    TreesCompared(c, bomA, bomB, mode, tolerance, show);
    TreesCompared(s, bomA, bomB, Summarized, tolerance, show);
    CleanKeys(c);
    SameSummarizedKeys(c, s, Flatten(bomA), Flatten(bomB), show);
    forall g | g in s.Keys() ensures tolerance >= Times(|GroupKeys(c.Keys(), g)|, tolerance) {
      GroupSize(Flatten(bomA), mode, show, g);
      TimesAtMostOnce(|GroupKeys(c.Keys(), g)|, tolerance);
    }
    CleanRollsUp(c, s, Flatten(bomA), Flatten(bomB), show);
  }

  /** At zero tolerance, a clean finer comparison of two trees implies a clean summarized one. */
  lemma ExactCleanRollsUp(bomA: Node, bomB: Node, c: Comparison, s: Comparison, show: real -> string)
    requires ComparesTrees(c, bomA, bomB, c.mode, 0.0, show) && c.mode != OnlyProduct && Clean(c)
    requires ComparesTrees(s, bomA, bomB, Summarized, 0.0, show)
    ensures Clean(s)
  {
    SameToleranceRollsUp(bomA, bomB, c, s, c.mode, 0.0, show);
  }
}
