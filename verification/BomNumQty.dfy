/** Exactly when a clean comparison by quantity rolls up: the keys hold the quantities themselves. */
module BomNumQty {
  import opened Options
  import opened BomLines
  import opened BomEntries
  import opened BomCompare
  import opened BomRollUp
  import opened BomTolerance
  import opened BomFit

  // ---------- two quantities in one group ----------

  /** The first `lead` lines of a child and unit get `u`, its other lines `v`, and all lines of others zero. */
  function Ranked(lines: seq<Reading>, g: Key, lead: nat, u: real, v: real): seq<real> {
    seq(|lines|, i requires 0 <= i < |lines| =>
      if !LineInGroup(lines[i], Some(g)) then 0.0 else if GroupCount(lines[..i], g) < lead then u else v)
  }

  function Least(m: nat, n: nat): nat {
    if m < n then m else n
  }

  function RankedQty(n: nat, lead: nat, g: Key, u: real, v: real, show: real -> string, k: Key): real {
    if k == NumKey(g, u, show) then Times(Least(n, lead), u)
    else if k == NumKey(g, v, show) then Times(n - Least(n, lead), v)
    else 0.0
  }

  lemma RankedMatch(lines: seq<Reading>, i: nat, g: Key, lead: nat, u: real, v: real, show: real -> string, k: Key)
    requires i < |lines| && |g| == 2 && show(u) != show(v)
    ensures var r := Requantify(lines, Ranked(lines, g, lead, u, v))[i];
            (if Matches(NumQty, show, r, k) then r.qty else 0.0)
            == if !LineInGroup(lines[i], Some(g)) then 0.0
               else if GroupCount(lines[..i], g) < lead then (if k == NumKey(g, u, show) then u else 0.0)
               else if k == NumKey(g, v, show) then v else 0.0
  {
    var r := Requantify(lines, Ranked(lines, g, lead, u, v))[i];
    NumKeyOf(r, show);
    NumKeysDiffer(g, g, u, v, show);
  }

  /** By quantity. */
  lemma {:induction false} RankedByQty(lines: seq<Reading>, n: nat, g: Key, lead: nat, u: real, v: real,
                                       show: real -> string, k: Key)
    requires n <= |lines| && |g| == 2 && show(u) != show(v)
    ensures QtyOf(Requantify(lines, Ranked(lines, g, lead, u, v))[..n], NumQty, show, k)
         == RankedQty(GroupCount(lines[..n], g), lead, g, u, v, show, k)
  {
    hide QtyOf;
    hide Matches;
    var a := Requantify(lines, Ranked(lines, g, lead, u, v));
    if n == 0 {
      NoLines(NumQty, show, k);
      assert a[..0] == [];
    } else {
      RankedByQty(lines, n - 1, g, lead, u, v, show, k);
      QtyStep(a, n - 1, NumQty, show, k);
      CountStep(lines, n - 1, g);
      RankedMatch(lines, n - 1, g, lead, u, v, show, k);
      NumKeysDiffer(g, g, u, v, show);
    }
  }

  /** And summarized. */
  lemma {:induction false} RankedTotal(lines: seq<Reading>, n: nat, g: Key, lead: nat, u: real, v: real,
                                       show: real -> string)
    requires n <= |lines|
    ensures var m := GroupCount(lines[..n], g);
            QtyOf(Requantify(lines, Ranked(lines, g, lead, u, v))[..n], Summarized, show, g)
            == Times(Least(m, lead), u) + Times(m - Least(m, lead), v)
  {
    hide QtyOf;
    var a := Requantify(lines, Ranked(lines, g, lead, u, v));
    if n == 0 {
      NoLines(Summarized, show, g);
      assert a[..0] == [];
    } else {
      RankedTotal(lines, n - 1, g, lead, u, v, show);
      QtyStep(a, n - 1, Summarized, show, g);
      CountStep(lines, n - 1, g);
      assert Matches(Summarized, show, a[n - 1], g) == LineInGroup(lines[n - 1], Some(g));
    }
  }

  lemma {:induction false} LineOfRank(lines: seq<Reading>, g: Key, rank: nat) returns (i: nat)
    requires rank < GroupCount(lines, g)
    ensures i < |lines| && LineInGroup(lines[i], Some(g)) && GroupCount(lines[..i], g) == rank
  {
    var n := |lines| - 1;
    if rank < GroupCount(lines[..n], g) {
      i := LineOfRank(lines[..n], g, rank);
      assert lines[..n][..i] == lines[..i];
    } else {
      i := n;
    }
  }

  /** Every key of one side is found on the other. */
  lemma RankedKeys(a: seq<Reading>, b: seq<Reading>, g: Key, i: nat, j: nat, u: real, v: real, show: real -> string)
    requires KeysOf(a, Summarized, show) <= KeysOf(b, Summarized, show) && 0 < j < GroupCount(b, g)
    ensures KeysOf(Requantify(a, Ranked(a, g, i, u, v)), NumQty, show) <= KeysOf(Requantify(b, Ranked(b, g, j, u, v)), NumQty, show)
  {
    hide KeyOf;
    hide GroupCount;
    var x, y := Requantify(a, Ranked(a, g, i, u, v)), Requantify(b, Ranked(b, g, j, u, v));
    forall r | r in x && Counts(r) ensures KeyOf(NumQty, show, r) in KeysOf(y, NumQty, show) {
      var p :| 0 <= p < |x| && x[p] == r;
      var q := SameKeyLine(a, b, p, g, i, j, u, v, show);
      assert y[q] in y;
    }
  }

  lemma SameKeyLine(a: seq<Reading>, b: seq<Reading>, p: nat, g: Key, i: nat, j: nat, u: real, v: real, show: real -> string)
    returns (q: nat)
    requires KeysOf(a, Summarized, show) <= KeysOf(b, Summarized, show) && 0 < j < GroupCount(b, g)
    requires p < |a| && Counts(a[p])
    ensures var x, y := Requantify(a, Ranked(a, g, i, u, v)), Requantify(b, Ranked(b, g, j, u, v));
            q < |b| && Counts(y[q]) && KeyOf(NumQty, show, y[q]) == KeyOf(NumQty, show, x[p])
  {
    hide GroupCount;
    var x, y := Requantify(a, Ranked(a, g, i, u, v)), Requantify(b, Ranked(b, g, j, u, v));
    if !LineInGroup(a[p], Some(g)) {
      q := LineOfGroup(a, b, p, show);
    } else if GroupCount(a[..p], g) < i {
      q := LineOfRank(b, g, 0);
    } else {
      q := LineOfRank(b, g, j);
    }
    assert GroupOf(b[q]) == GroupOf(a[p]);
    NumKeyOf(x[p], show);
    NumKeyOf(y[q], show);
  }

  lemma LineOfGroup(a: seq<Reading>, b: seq<Reading>, p: nat, show: real -> string) returns (q: nat)
    requires KeysOf(a, Summarized, show) <= KeysOf(b, Summarized, show) && p < |a| && Counts(a[p])
    ensures q < |b| && Counts(b[q]) && GroupOf(b[q]) == GroupOf(a[p])
  {
    assert a[p] in a && KeyOf(Summarized, show, a[p]) == GroupOf(a[p]);
    assert GroupOf(a[p]) in KeysOf(b, Summarized, show);
    var r :| r in b && Counts(r) && KeyOf(Summarized, show, r) == GroupOf(a[p]);
    q :| 0 <= q < |b| && b[q] == r;
  }

  /** `i` of `m` lines against `j` of `n` lines: within the tolerance in each of two quantities, but not in all. */
  predicate Splits(m: nat, n: nat, i: nat, j: nat, u: real, v: real, tolerance: real) {
    && 0 < i < m && 0 < j < n && u != v
    && Within(Times(i, u), Times(j, u), tolerance) && Within(Times(m - i, v), Times(n - j, v), tolerance)
    && !Within(Times(i, u) + Times(m - i, v), Times(j, u) + Times(n - j, v), tolerance)
  }

  lemma RankedTotals(e: Entries, lines: seq<Reading>, g: Key, i: nat, u: real, v: real, show: real -> string)
    requires |g| == 2 && show(u) != show(v) && i <= GroupCount(lines, g)
    requires Totals(e, Requantify(lines, Ranked(lines, g, i, u, v)), NumQty, show)
    ensures forall k :: k in e ==> e[k].qty == RankedQty(GroupCount(lines, g), i, g, u, v, show, k)
  {
    hide QtyOf;
    hide RankedQty;
    var a := Requantify(lines, Ranked(lines, g, i, u, v));
    assert a[..|lines|] == a && lines[..|lines|] == lines;
    forall k | k in e ensures e[k].qty == RankedQty(GroupCount(lines, g), i, g, u, v, show, k) {
      RankedByQty(lines, |lines|, g, i, u, v, show, k);
    }
  }

  lemma SplitClean(a: seq<Reading>, b: seq<Reading>, g: Key, i: nat, j: nat, u: real, v: real, c: Comparison,
                   show: real -> string)
    requires |g| == 2 && show(u) != show(v) && Splits(GroupCount(a, g), GroupCount(b, g), i, j, u, v, c.tolerance)
    requires KeysOf(a, Summarized, show) == KeysOf(b, Summarized, show) && c.mode == NumQty && c.tolerance > 0.0
    requires Totals(c.a, Requantify(a, Ranked(a, g, i, u, v)), NumQty, show)
    requires Totals(c.b, Requantify(b, Ranked(b, g, j, u, v)), NumQty, show)
    ensures Clean(c)
  {
    hide GroupCount;
    hide QtyOf;
    hide KeysOf;
    hide RankedQty;
    hide Requantify;
    hide Ranked;
    var m, n := GroupCount(a, g), GroupCount(b, g);
    RankedKeys(a, b, g, i, j, u, v, show);
    RankedKeys(b, a, g, j, i, u, v, show);
    RankedTotals(c.a, a, g, i, u, v, show);
    RankedTotals(c.b, b, g, j, u, v, show);
    forall k | k in c.Keys() ensures StatusOf(c, k) == Unchanged {
      RankedWithin(m, n, i, j, g, u, v, c.tolerance, show, k);
    }
  }

  lemma RankedWithin(m: nat, n: nat, i: nat, j: nat, g: Key, u: real, v: real, tolerance: real, show: real -> string, k: Key)
    requires Splits(m, n, i, j, u, v, tolerance) && tolerance > 0.0
    ensures Within(RankedQty(m, i, g, u, v, show, k), RankedQty(n, j, g, u, v, show, k), tolerance)
  {
  }

  lemma SplitModified(a: seq<Reading>, b: seq<Reading>, g: Key, i: nat, j: nat, u: real, v: real, s: Comparison,
                      show: real -> string)
    requires Splits(GroupCount(a, g), GroupCount(b, g), i, j, u, v, s.tolerance) && s.mode == Summarized
    requires g in KeysOf(a, Summarized, show) && g in KeysOf(b, Summarized, show)
    requires Totals(s.a, Requantify(a, Ranked(a, g, i, u, v)), Summarized, show)
    requires Totals(s.b, Requantify(b, Ranked(b, g, j, u, v)), Summarized, show)
    ensures !Clean(s)
  {
    hide GroupCount;
    hide Times;
    hide KeysOf;
    hide QtyOf;
    SummarizedTotal(s.a, a, g, i, u, v, show);
    SummarizedTotal(s.b, b, g, j, u, v, show);
    assert g in s.Keys() && StatusOf(s, g) == Modified;
  }

  lemma SummarizedTotal(e: Entries, lines: seq<Reading>, g: Key, i: nat, u: real, v: real, show: real -> string)
    requires g in KeysOf(lines, Summarized, show) && i <= GroupCount(lines, g)
    requires Totals(e, Requantify(lines, Ranked(lines, g, i, u, v)), Summarized, show)
    ensures g in e && e[g].qty == Times(i, u) + Times(GroupCount(lines, g) - i, v)
  {
    hide QtyOf;
    hide KeysOf;
    hide Times;
    var a := Requantify(lines, Ranked(lines, g, i, u, v));
    SameKeys(lines, Ranked(lines, g, i, u, v), Summarized, show);
    RankedTotal(lines, |lines|, g, i, u, v, show);
    assert a[..|lines|] == a && lines[..|lines|] == lines;
  }

  lemma SplitDoesNotRollUp(bomA: Node, bomB: Node, g: Key, i: nat, j: nat, u: real, v: real, tolerance: real,
                           show: real -> string,
                           floats: iset<real>)
    requires |g| == 2 && show(u) != show(v) && tolerance > 0.0 && 0.0 in floats && u in floats && v in floats
    requires Splits(GroupCount(Flatten(bomA), g), GroupCount(Flatten(bomB), g), i, j, u, v, tolerance)
    requires KeysOf(Flatten(bomA), Summarized, show) == KeysOf(Flatten(bomB), Summarized, show)
    requires g in KeysOf(Flatten(bomA), Summarized, show)
    ensures !RollsUp(bomA, bomB, NumQty, tolerance, show, floats)
  {
    var a, b := Flatten(bomA), Flatten(bomB);
    var x, y := Ranked(a, g, i, u, v), Ranked(b, g, j, u, v);
    assert AllIn(x, floats) && AllIn(y, floats);
    hide Ranked;
    hide Totals;
    hide RollsUp;
    hide Requantify;
    hide Grouped;
    hide KeysOf;
    hide GroupCount;
    hide Splits;
    hide AllIn;
    hide ComparesTrees;
    RequantifiedCompared(bomA, bomB, x, y, NumQty, tolerance, show);
    RequantifiedCompared(bomA, bomB, x, y, Summarized, tolerance, show);
    SplitClean(a, b, g, i, j, u, v, CompareRequantified(a, b, x, y, NumQty, tolerance, show), show);
    SplitModified(a, b, g, i, j, u, v, CompareRequantified(a, b, x, y, Summarized, tolerance, show), show);
    QuantitiesFound(bomA, bomB, x, y, NumQty, tolerance, show, floats);
  }

  // ---------- finding the two quantities ----------

  function Halved(t: real, n: nat): real {
    if n == 0 then t else Halved(t, n - 1) / 2.0
  }

  lemma {:induction false} HalvedWithin(t: real, n: nat)
    requires t > 0.0
    ensures 0.0 < Halved(t, n) <= t
  {
    if n > 0 {
      HalvedWithin(t, n - 1);
    }
  }

  lemma {:induction false} TimesAdd(m: nat, n: nat, q: real)
    ensures Times(m + n, q) == Times(m, q) + Times(n, q)
  {
    if n > 0 {
      TimesAdd(m, n - 1, q);
    }
  }

  lemma {:induction false} TimesNegated(n: nat, q: real)
    ensures Times(n, -q) == -Times(n, q)
  {
    if n > 0 {
      TimesNegated(n - 1, q);
    }
  }

  lemma {:induction false} TimesHalf(n: nat, q: real)
    ensures Times(n, q / 2.0) == Times(n, q) / 2.0
  {
    if n > 0 {
      TimesHalf(n - 1, q);
    }
  }

  /** Halved often enough, `d` times the tolerance comes down to between half the tolerance and the tolerance. */
  lemma {:induction false} HalvedOften(t: real, d: nat) returns (n: nat)
    requires t > 0.0 && d > 0
    ensures n < d && t / 2.0 < Times(d, Halved(t, n)) <= t
  {
    if d == 1 {
      n := 0;
      assert Times(1, t) == Times(0, t) + t;
    } else {
      n := HalvedOften(t, d - 1);
      HalvedWithin(t, n);
      if Times(d, Halved(t, n)) > t {
        TimesHalf(d, Halved(t, n));
        n := n + 1;
      }
    }
  }

  /** Zero, and the tolerance halved up to `n` times, with either sign. */
  ghost predicate Graded(floats: iset<real>, tolerance: real, n: nat) {
    0.0 in floats && forall k: nat :: k <= n ==> Halved(tolerance, k) in floats && -Halved(tolerance, k) in floats
  }

  lemma SplitFound(m: nat, n: nat, tolerance: real, floats: iset<real>) returns (i: nat, j: nat, u: real, v: real)
    requires tolerance > 0.0 && !Fits(m, n) && Graded(floats, tolerance, m + n)
    ensures Splits(m, n, i, j, u, v, tolerance) && u in floats && v in floats
  {
    if m == 2 {
      j, i, u, v := SplitAgainstTwo(n, tolerance, floats, m + n);
    } else if n == 2 {
      i, j, u, v := SplitAgainstTwo(m, tolerance, floats, m + n);
    } else {
      i, j, u, v := SplitThrees(m, n, tolerance, floats);
    }
  }

  lemma SplitAgainstTwo(m: nat, tolerance: real, floats: iset<real>, n: nat) returns (i: nat, j: nat, u: real, v: real)
    requires tolerance > 0.0 && 4 <= m <= n && Graded(floats, tolerance, n)
    ensures Splits(m, 2, i, j, u, v, tolerance) && u in floats && v in floats
  {
    var a := HalvedOften(tolerance, m - 3);
    i, j, u := m - 2, 1, Halved(tolerance, a);
    assert Halved(tolerance, 1) == Halved(tolerance, 0) / 2.0 == tolerance / 2.0;
    v := if u == tolerance then Halved(tolerance, 1) else Halved(tolerance, 0);
    TimesAdd(1, m - 3, u);
    TimesAdd(1, 1, v);
    assert Times(1, v) == v;
  }

  lemma SplitThrees(m: nat, n: nat, tolerance: real, floats: iset<real>) returns (i: nat, j: nat, u: real, v: real)
    requires tolerance > 0.0 && m >= 3 && n >= 3 && Graded(floats, tolerance, m + n)
    ensures Splits(m, n, i, j, u, v, tolerance) && u in floats && v in floats
  {
    var a := HalvedOften(tolerance, m - 2);
    var b := HalvedOften(tolerance, n - 2);
    i, j, u, v := m - 1, 1, Halved(tolerance, a), -Halved(tolerance, b);
    HalvedWithin(tolerance, a);
    HalvedWithin(tolerance, b);
    TimesAdd(1, m - 2, u);
    TimesAdd(1, n - 2, v);
    TimesNegated(n - 2, Halved(tolerance, b));
  }

  // ---------- the exact condition ----------

  lemma {:induction false} CountAtMost(lines: seq<Reading>, g: Key)
    ensures GroupCount(lines, g) <= |lines|
  {
    if lines != [] {
      CountAtMost(lines[..|lines| - 1], g);
    }
  }

  lemma CleanSameGroups(bomA: Node, bomB: Node, x: seq<real>, y: seq<real>, c: Comparison, tolerance: real,
                        show: real -> string)
    requires |x| == |Flatten(bomA)| && |y| == |Flatten(bomB)|
    requires ComparesTrees(c, RequantifyNode(bomA, x), RequantifyNode(bomB, y), NumQty, tolerance, show) && Clean(c)
    ensures KeysOf(Flatten(bomA), Summarized, show) == KeysOf(Flatten(bomB), Summarized, show)
  {
    NodeRequantified(bomA, x);
    NodeRequantified(bomB, y);
    SummarizedKeys(Requantify(Flatten(bomA), x), NumQty, show);
    SummarizedKeys(Requantify(Flatten(bomB), y), NumQty, show);
    SameKeys(Flatten(bomA), x, Summarized, show);
    SameKeys(Flatten(bomB), y, Summarized, show);
    CleanKeys(c);
  }

  lemma NumQtySuffices(bomA: Node, bomB: Node, tolerance: real, show: real -> string, floats: iset<real>)
    requires WrittenApart(show, floats)
    requires || tolerance <= 0.0
             || KeysOf(Flatten(bomA), Summarized, show) != KeysOf(Flatten(bomB), Summarized, show)
             || AllFit(Flatten(bomA), Flatten(bomB))
    ensures RollsUp(bomA, bomB, NumQty, tolerance, show, floats)
  {
    hide WrittenApart;
    hide AllFit;
    hide KeysOf;
    hide AllIn;
    forall x: seq<real>, y: seq<real>, c: Comparison, s: Comparison |
      && |x| == |Flatten(bomA)| && |y| == |Flatten(bomB)| && AllIn(x, floats) && AllIn(y, floats)
      && ComparesTrees(c, RequantifyNode(bomA, x), RequantifyNode(bomB, y), NumQty, tolerance, show)
      && ComparesTrees(s, RequantifyNode(bomA, x), RequantifyNode(bomB, y), Summarized, tolerance, show)
      && Clean(c)
      ensures Clean(s)
    {
      hide Clean;
      hide ComparesTrees;
      CleanSameGroups(bomA, bomB, x, y, c, tolerance, show);
      if tolerance <= 0.0 {
        SameToleranceRollsUp(RequantifyNode(bomA, x), RequantifyNode(bomB, y), c, s, NumQty, tolerance, show);
      } else {
        FittingRollsUp(bomA, bomB, x, y, c, s, tolerance, show, floats);
      }
    }
  }

  lemma GroupIsKey(lines: seq<Reading>, r: Reading, show: real -> string)
    requires r in lines && Counts(r)
    ensures GroupOf(r) in KeysOf(lines, Summarized, show)
  {
    assert KeyOf(Summarized, show, r) == GroupOf(r);
  }

  /** Over all quantities, a clean comparison of two trees by quantity rolls up at the same tolerance if and only if the
      tolerance is not positive, some child and unit has lines on one side only, or no child and unit has at least two lines
      on each side and six in all. */
  lemma NumQtyRollsUpIff(bomA: Node, bomB: Node, tolerance: real, show: real -> string, floats: iset<real>)
    requires WrittenApart(show, floats) && Graded(floats, tolerance, |Flatten(bomA)| + |Flatten(bomB)|)
    ensures RollsUp(bomA, bomB, NumQty, tolerance, show, floats)
       <==> || tolerance <= 0.0
            || KeysOf(Flatten(bomA), Summarized, show) != KeysOf(Flatten(bomB), Summarized, show)
            || AllFit(Flatten(bomA), Flatten(bomB))
  {
    hide RollsUp;
    hide KeysOf;
    var a, b := Flatten(bomA), Flatten(bomB);
    if tolerance <= 0.0 || KeysOf(a, Summarized, show) != KeysOf(b, Summarized, show) || AllFit(a, b) {
      NumQtySuffices(bomA, bomB, tolerance, show, floats);
    } else {
      var r :| r in a && Counts(r) && !Fits(GroupCount(a, GroupOf(r)), GroupCount(b, GroupOf(r)));
      var g := GroupOf(r);
      CountAtMost(a, g);
      CountAtMost(b, g);
      var i, j, u, v := SplitFound(GroupCount(a, g), GroupCount(b, g), tolerance, floats);
      GroupIsKey(a, r, show);
      SplitDoesNotRollUp(bomA, bomB, g, i, j, u, v, tolerance, show, floats);
    }
  }

  /** Some child and unit stands on three counted lines. */
  predicate ThreeInAGroup(lines: seq<Reading>) {
    exists r :: r in lines && Counts(r) && GroupCount(lines, GroupOf(r)) >= 3
  }

  /** For one tree with two sets of quantities: if and only if the tolerance is not positive, or no child and unit stands on
      three counted lines. */
  lemma OneTreeRollsUpIff(tree: Node, tolerance: real, show: real -> string, floats: iset<real>)
    requires WrittenApart(show, floats) && 0.0 in floats && tolerance in floats && -tolerance in floats
    ensures RollsUp(tree, tree, NumQty, tolerance, show, floats) <==> tolerance <= 0.0 || !ThreeInAGroup(Flatten(tree))
  {
    hide RollsUp;
    hide KeysOf;
    var lines := Flatten(tree);
    if tolerance <= 0.0 || !ThreeInAGroup(lines) {
      NumQtySuffices(tree, tree, tolerance, show, floats);
    } else {
      var r :| r in lines && Counts(r) && GroupCount(lines, GroupOf(r)) >= 3;
      var g := GroupOf(r);
      SplitTwoOne(GroupCount(lines, g), tolerance);
      GroupIsKey(lines, r, show);
      SplitDoesNotRollUp(tree, tree, g, 2, 1, tolerance, -tolerance, tolerance, show, floats);
    }
  }

  lemma SplitTwoOne(m: nat, tolerance: real)
    requires m >= 3 && tolerance > 0.0
    ensures Splits(m, m, 2, 1, tolerance, -tolerance, tolerance)
  {
    TimesAdd(1, 1, tolerance);
    TimesAdd(m - 2, 1, -tolerance);
    assert Times(1, tolerance) == tolerance && Times(1, -tolerance) == -tolerance;
  }

  // ---------- such quantities and such a writing exist ----------

  predicate IsHalved(x: real, t: real, n: nat) {
    exists k: nat :: k <= n && x == Halved(t, k)
  }

  predicate IsGrade(x: real, t: real, n: nat) {
    x == 0.0 || IsHalved(x, t, n) || IsHalved(-x, t, n)
  }

  /** Zero, and `t` halved up to `n` times, with either sign. */
  ghost function Grades(t: real, n: nat): iset<real> {
    iset x: real | IsGrade(x, t, n)
  }

  /** A sign, and a stroke for every halving. */
  ghost function Strokes(x: real, t: real, n: nat): string {
    if x == 0.0 then "0"
    else if IsHalved(x, t, n) then
      var k: nat :| k <= n && x == Halved(t, k);
      ['+'] + seq(k, _ => 'i')
    else if IsHalved(-x, t, n) then
      var k: nat :| k <= n && -x == Halved(t, k);
      ['-'] + seq(k, _ => 'i')
    else ""
  }

  /** The theorem's hypotheses can be met at every tolerance and for trees of any size. */
  lemma GradesAreWrittenApart(t: real, n: nat)
    ensures Graded(Grades(t, n), t, n) && WrittenApart(x => Strokes(x, t, n), Grades(t, n))
  {
    forall k: nat | k <= n ensures Halved(t, k) in Grades(t, n) && -Halved(t, k) in Grades(t, n) {
      assert IsHalved(Halved(t, k), t, n) && IsHalved(-(-Halved(t, k)), t, n);
    }
    forall x, y | x in Grades(t, n) && y in Grades(t, n) && Strokes(x, t, n) == Strokes(y, t, n) ensures x == y {
      SameStrokes(x, y, t, n);
    }
  }

  lemma SameStrokes(x: real, y: real, t: real, n: nat)
    requires x in Grades(t, n) && y in Grades(t, n) && Strokes(x, t, n) == Strokes(y, t, n)
    ensures x == y
  {
    var s := Strokes(x, t, n);
    assert x != 0.0 ==> if s[0] == '+' then x == Halved(t, |s| - 1) else s[0] == '-' && -x == Halved(t, |s| - 1);
    assert y != 0.0 ==> if s[0] == '+' then y == Halved(t, |s| - 1) else s[0] == '-' && -y == Halved(t, |s| - 1);
  }
}
