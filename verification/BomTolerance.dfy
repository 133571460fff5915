/** Exactly when a clean finer comparison rolls up at the same tolerance, over all quantities. */
module BomTolerance {
  import opened Options
  import opened BomLines
  import opened BomEntries
  import opened BomCompare
  import opened BomRollUp

  // ---------- the same tree with other quantities ----------

  /** The lines with other quantities. */
  function Requantify(lines: seq<Reading>, qs: seq<real>): seq<Reading>
    requires |qs| == |lines|
  {
    seq(|lines|, i requires 0 <= i < |lines| => lines[i].(qty := qs[i]))
  }

  function RequantifyNode(node: Node, qs: seq<real>): Node
    requires |qs| == |Flatten(node)|
    decreases node
  {
    node.(children := RequantifyLines(node.children, qs))
  }

  function RequantifyLine(l: Line, qs: seq<real>): Line
    requires |qs| == |FlattenLine(l)|
    decreases l
  {
    Line(l.rel.(quantity := Number(qs[0])), RequantifyNode(l.child, qs[1..]))
  }

  function RequantifyLines(lines: seq<Line>, qs: seq<real>): seq<Line>
    requires |qs| == |FlattenLines(lines)|
    decreases lines
  {
    if lines == [] then []
    else
      var n := |FlattenLine(lines[0])|;
      [RequantifyLine(lines[0], qs[..n])] + RequantifyLines(lines[1..], qs[n..])
  }

  lemma {:induction false} NodeRequantified(node: Node, qs: seq<real>)
    requires |qs| == |Flatten(node)|
    ensures Flatten(RequantifyNode(node, qs)) == Requantify(Flatten(node), qs)
    decreases node
  {
    LinesRequantified(node.children, qs);
  }

  lemma {:induction false} LineRequantified(l: Line, qs: seq<real>)
    requires |qs| == |FlattenLine(l)|
    ensures FlattenLine(RequantifyLine(l, qs)) == Requantify(FlattenLine(l), qs)
    decreases l
  {
    NodeRequantified(l.child, qs[1..]);
    assert RequantifyNode(l.child, qs[1..]).id == l.child.id;
  }

  lemma {:induction false} LinesRequantified(lines: seq<Line>, qs: seq<real>)
    requires |qs| == |FlattenLines(lines)|
    ensures FlattenLines(RequantifyLines(lines, qs)) == Requantify(FlattenLines(lines), qs)
    decreases lines
  {
    if lines != [] {
      var n := |FlattenLine(lines[0])|;
      var first, rest := RequantifyLine(lines[0], qs[..n]), RequantifyLines(lines[1..], qs[n..]);
      LineRequantified(lines[0], qs[..n]);
      LinesRequantified(lines[1..], qs[n..]);
      assert ([first] + rest)[0] == first && ([first] + rest)[1..] == rest;
      assert FlattenLines([first] + rest) == FlattenLine(first) + FlattenLines(rest);
    }
  }

  // ---------- grouping as a function ----------

  function Grouped(lines: seq<Reading>, mode: Mode, show: real -> string): Entries {
    if lines == [] then map[]
    else Grown(Grouped(lines[..|lines| - 1], mode, show), lines[|lines| - 1], mode, show)
  }

  lemma {:induction false} GroupedGroups(lines: seq<Reading>, mode: Mode, show: real -> string)
    ensures Groups(Grouped(lines, mode, show), lines, mode, show)
  {
    if lines != [] {
      var n := |lines| - 1;
      GroupedGroups(lines[..n], mode, show);
      GroupsOneMore(Grouped(lines[..n], mode, show), lines, n, mode, show);
      assert lines[..n + 1] == lines;
    }
  }

  // ---------- zeros, and two spikes ----------

  function Zeros(n: nat): seq<real> {
    seq(n, _ => 0.0)
  }

  /** Zero everywhere but at two positions. */
  function Spikes(n: nat, i: nat, j: nat, t: real): seq<real> {
    seq(n, k => if k == i || k == j then t else 0.0)
  }

  /** The modes whose key does not hold the quantity. */
  predicate KeyIgnoresQty(mode: Mode) {
    mode != NumQty && mode != OnlyProduct
  }

  lemma SameKeys(lines: seq<Reading>, qs: seq<real>, mode: Mode, show: real -> string)
    requires |qs| == |lines| && mode != NumQty
    ensures KeysOf(Requantify(lines, qs), mode, show) == KeysOf(lines, mode, show)
    ensures forall k :: 0 <= k < |lines| ==>
              KeyOf(mode, show, Requantify(lines, qs)[k]) == KeyOf(mode, show, lines[k]) && Counts(Requantify(lines, qs)[k]) == Counts(lines[k])
  {
    var more := Requantify(lines, qs);
    forall r | r in lines && Counts(r) ensures KeyOf(mode, show, r) in KeysOf(more, mode, show) {
      var k :| 0 <= k < |lines| && lines[k] == r;
      assert more[k] in more && Counts(more[k]) && KeyOf(mode, show, more[k]) == KeyOf(mode, show, r);
    }
    forall r | r in more && Counts(r) ensures KeyOf(mode, show, r) in KeysOf(lines, mode, show) {
      var k :| 0 <= k < |more| && more[k] == r;
      assert lines[k] in lines && Counts(lines[k]) && KeyOf(mode, show, lines[k]) == KeyOf(mode, show, r);
    }
  }

  /** What two lines contribute to a key, if each counts `t`. */
  function Both(r: Reading, u: Reading, t: real, mode: Mode, show: real -> string, k: Key): real {
    (if Matches(mode, show, r, k) then t else 0.0) + if Matches(mode, show, u, k) then t else 0.0
  }

  lemma {:induction false} ZeroQty(lines: seq<Reading>, mode: Mode, show: real -> string, k: Key)
    requires forall x :: 0 <= x < |lines| ==> lines[x].qty == 0.0
    ensures QtyOf(lines, mode, show, k) == 0.0
  {
    if lines != [] {
      ZeroQty(lines[..|lines| - 1], mode, show, k);
      OneMore(lines, mode, show, k);
    }
  }

  /** With all other quantities zero, a key's quantity is that of the two positions. */
  lemma {:induction false} SpikeQty(lines: seq<Reading>, n: nat, i: nat, j: nat, mode: Mode, show: real -> string, k: Key)
    requires n <= |lines| && i < |lines| && j < |lines| && i != j
    requires forall x :: 0 <= x < |lines| && x != i && x != j ==> lines[x].qty == 0.0
    ensures QtyOf(lines[..n], mode, show, k)
         == (if i < n && Matches(mode, show, lines[i], k) then lines[i].qty else 0.0)
            + (if j < n && Matches(mode, show, lines[j], k) then lines[j].qty else 0.0)
  {
    hide QtyOf;
    hide Matches;
    if n == 0 {
      NoLines(mode, show, k);
      assert lines[..0] == [];
    } else {
      SpikeQty(lines, n - 1, i, j, mode, show, k);
      QtyStep(lines, n - 1, mode, show, k);
    }
  }

  lemma NoLines(mode: Mode, show: real -> string, k: Key)
    ensures QtyOf([], mode, show, k) == 0.0
  {
  }

  lemma QtyStep(lines: seq<Reading>, n: nat, mode: Mode, show: real -> string, k: Key)
    requires n < |lines|
    ensures QtyOf(lines[..n + 1], mode, show, k)
         == QtyOf(lines[..n], mode, show, k) + if Matches(mode, show, lines[n], k) then lines[n].qty else 0.0
  {
    OneMore(lines[..n + 1], mode, show, k);
    assert lines[..n + 1][..n] == lines[..n];
  }

  lemma SpikedLines(lines: seq<Reading>, i: nat, j: nat, t: real, mode: Mode, show: real -> string, k: Key)
    requires i < |lines| && j < |lines| && i != j && mode != NumQty
    ensures QtyOf(Requantify(lines, Spikes(|lines|, i, j, t)), mode, show, k)
         == Both(lines[i], lines[j], t, mode, show, k)
  {
    hide QtyOf;
    hide Matches;
    var qs := Spikes(|lines|, i, j, t);
    var more := Requantify(lines, qs);
    SameMatch(lines, qs, i, mode, show, k);
    SameMatch(lines, qs, j, mode, show, k);
    SpikeQty(more, |more|, i, j, mode, show, k);
    assert more[..|more|] == more;
  }

  lemma SameMatch(lines: seq<Reading>, qs: seq<real>, x: nat, mode: Mode, show: real -> string, k: Key)
    requires |qs| == |lines| && x < |lines| && mode != NumQty
    ensures Matches(mode, show, Requantify(lines, qs)[x], k) == Matches(mode, show, lines[x], k)
  {
  }

  // ---------- two trees with all quantities ----------

  ghost predicate AllIn(qs: seq<real>, floats: iset<real>) {
    forall i :: 0 <= i < |qs| ==> qs[i] in floats
  }

  /** Whatever quantities the trees carry, out of those a float can hold, a clean comparison in the mode is clean when
      summarized. */
  ghost predicate RollsUp(bomA: Node, bomB: Node, mode: Mode, tolerance: real, show: real -> string, floats: iset<real>) {
    forall x: seq<real>, y: seq<real>, c: Comparison, s: Comparison ::
      (&& |x| == |Flatten(bomA)| && |y| == |Flatten(bomB)| && AllIn(x, floats) && AllIn(y, floats)
       && ComparesTrees(c, RequantifyNode(bomA, x), RequantifyNode(bomB, y), mode, tolerance, show)
       && ComparesTrees(s, RequantifyNode(bomA, x), RequantifyNode(bomB, y), Summarized, tolerance, show)
       && Clean(c)) ==> Clean(s)
  }

  /** The comparison of both lists of lines with quantities of their own. */
  function CompareRequantified(a: seq<Reading>, b: seq<Reading>, x: seq<real>, y: seq<real>, mode: Mode, tolerance: real,
                               show: real -> string): Comparison
    requires |x| == |a| && |y| == |b|
  {
    Comparison(Grouped(Requantify(a, x), mode, show), Grouped(Requantify(b, y), mode, show), mode, tolerance)
  }

  lemma RequantifiedCompared(bomA: Node, bomB: Node, x: seq<real>, y: seq<real>, mode: Mode, tolerance: real,
                             show: real -> string)
    requires |x| == |Flatten(bomA)| && |y| == |Flatten(bomB)| && mode != OnlyProduct
    ensures var c := CompareRequantified(Flatten(bomA), Flatten(bomB), x, y, mode, tolerance, show);
            && ComparesTrees(c, RequantifyNode(bomA, x), RequantifyNode(bomB, y), mode, tolerance, show)
            && Totals(c.a, Requantify(Flatten(bomA), x), mode, show) && Totals(c.b, Requantify(Flatten(bomB), y), mode, show)
  {
    var a, b := Requantify(Flatten(bomA), x), Requantify(Flatten(bomB), y);
    NodeRequantified(bomA, x);
    NodeRequantified(bomB, y);
    GroupedGroups(a, mode, show);
    GroupedGroups(b, mode, show);
    GroupsTotals(Grouped(a, mode, show), a, mode, show);
    GroupsTotals(Grouped(b, mode, show), b, mode, show);
  }

  /** Quantities for which the finer comparison is clean and the summarized one is not. */
  lemma QuantitiesFound(bomA: Node, bomB: Node, x: seq<real>, y: seq<real>, mode: Mode, tolerance: real,
                        show: real -> string,
                        floats: iset<real>)
    requires |x| == |Flatten(bomA)| && |y| == |Flatten(bomB)| && AllIn(x, floats) && AllIn(y, floats) && mode != OnlyProduct
    requires Clean(CompareRequantified(Flatten(bomA), Flatten(bomB), x, y, mode, tolerance, show))
    requires !Clean(CompareRequantified(Flatten(bomA), Flatten(bomB), x, y, Summarized, tolerance, show))
    ensures !RollsUp(bomA, bomB, mode, tolerance, show, floats)
  {
    hide ComparesTrees;
    hide Clean;
    hide AllIn;
    RequantifiedCompared(bomA, bomB, x, y, mode, tolerance, show);
    RequantifiedCompared(bomA, bomB, x, y, Summarized, tolerance, show);
  }

  // ---------- the exact condition ----------

  lemma OneKeyRequantified(lines: seq<Reading>, qs: seq<real>, mode: Mode, show: real -> string)
    requires |qs| == |lines| && mode != NumQty && OneKeyPerGroup(lines, mode, show)
    ensures OneKeyPerGroup(Requantify(lines, qs), mode, show)
  {
    SameKeys(lines, qs, mode, show);
    var more := Requantify(lines, qs);
    forall i, j | 0 <= i < |more| && 0 <= j < |more| && SameGroup(more[i], more[j])
      ensures KeyOf(mode, show, more[i]) == KeyOf(mode, show, more[j]) {
      assert SameGroup(lines[i], lines[j]);
    }
  }

  /** The totals of the side with two quantities at the tolerance, and of the side with none. */
  lemma SpikeTotals(e: Entries, lines: seq<Reading>, i: nat, j: nat, t: real, mode: Mode, show: real -> string)
    requires i < |lines| && j < |lines| && i != j && KeyIgnoresQty(mode)
    requires Totals(e, Requantify(lines, Spikes(|lines|, i, j, t)), mode, show)
    ensures e.Keys == KeysOf(lines, mode, show)
    ensures forall k :: k in e ==> e[k].qty == Both(lines[i], lines[j], t, mode, show, k)
  {
    hide Both;
    hide QtyOf;
    SameKeys(lines, Spikes(|lines|, i, j, t), mode, show);
    forall k | k in e ensures e[k].qty == Both(lines[i], lines[j], t, mode, show, k) {
      SpikedLines(lines, i, j, t, mode, show, k);
    }
  }

  lemma ZeroTotals(e: Entries, lines: seq<Reading>, mode: Mode, show: real -> string)
    requires KeyIgnoresQty(mode) && Totals(e, Requantify(lines, Zeros(|lines|)), mode, show)
    ensures e.Keys == KeysOf(lines, mode, show) && forall k :: k in e ==> e[k].qty == 0.0
  {
    hide QtyOf;
    SameKeys(lines, Zeros(|lines|), mode, show);
    forall k | k in e ensures e[k].qty == 0.0 {
      ZeroQty(Requantify(lines, Zeros(|lines|)), mode, show, k);
    }
  }

  /** Two lines of one child and unit with different finer keys: clean in the mode, modified when summarized. */
  lemma TwoKeysDoNotRollUp(a: seq<Reading>, b: seq<Reading>, i: nat, j: nat, c: Comparison, s: Comparison,
                           show: real -> string)
    requires i < |a| && j < |a| && SameGroup(a[i], a[j]) && KeyIgnoresQty(c.mode) && s.mode == Summarized
    requires KeyOf(c.mode, show, a[i]) != KeyOf(c.mode, show, a[j]) && KeysOf(a, c.mode, show) == KeysOf(b, c.mode, show)
    requires c.tolerance == s.tolerance > 0.0
    requires Totals(c.a, Requantify(a, Spikes(|a|, i, j, c.tolerance)), c.mode, show)
    requires Totals(c.b, Requantify(b, Zeros(|b|)), c.mode, show)
    requires Totals(s.a, Requantify(a, Spikes(|a|, i, j, c.tolerance)), Summarized, show)
    requires Totals(s.b, Requantify(b, Zeros(|b|)), Summarized, show)
    ensures Clean(c) && !Clean(s)
  {
    hide Totals;
    hide KeysOf;
    SpikeTotals(c.a, a, i, j, c.tolerance, c.mode, show);
    ZeroTotals(c.b, b, c.mode, show);
    SpikeTotals(s.a, a, i, j, s.tolerance, Summarized, show);
    ZeroTotals(s.b, b, Summarized, show);
    assert Clean(c) by {
      hide KeyOf;
      forall k | k in c.Keys() ensures StatusOf(c, k) == Unchanged {
      }
    }
    SummarizedKeys(a, c.mode, show);
    SummarizedKeys(b, c.mode, show);
    SharedSummary(a, i, j, show);
    var g := KeyOf(Summarized, show, a[i]);
    assert g in s.Keys() && StatusOf(s, g) == Modified;
  }

  lemma SharedSummary(lines: seq<Reading>, i: nat, j: nat, show: real -> string)
    requires i < |lines| && j < |lines| && SameGroup(lines[i], lines[j])
    ensures var g := KeyOf(Summarized, show, lines[i]);
            && g in KeysOf(lines, Summarized, show)
            && Matches(Summarized, show, lines[i], g) && Matches(Summarized, show, lines[j], g)
  {
    assert lines[i] in lines;
  }

  lemma PositiveNeedsOneKey(bomA: Node, bomB: Node, mode: Mode, tolerance: real, show: real -> string, floats: iset<real>,
                            i: nat, j: nat)
    requires KeyIgnoresQty(mode) && tolerance > 0.0 && i < |Flatten(bomA)| && j < |Flatten(bomA)|
    requires 0.0 in floats && tolerance in floats
    requires KeysOf(Flatten(bomA), mode, show) == KeysOf(Flatten(bomB), mode, show)
    requires SameGroup(Flatten(bomA)[i], Flatten(bomA)[j])
    requires KeyOf(mode, show, Flatten(bomA)[i]) != KeyOf(mode, show, Flatten(bomA)[j])
    ensures !RollsUp(bomA, bomB, mode, tolerance, show, floats)
  {
    hide Totals;
    hide RollsUp;
    hide Requantify;
    hide Grouped;
    hide KeysOf;
    hide KeyOf;
    var a, b := Flatten(bomA), Flatten(bomB);
    var x, y := Spikes(|a|, i, j, tolerance), Zeros(|b|);
    RequantifiedCompared(bomA, bomB, x, y, mode, tolerance, show);
    RequantifiedCompared(bomA, bomB, x, y, Summarized, tolerance, show);
    TwoKeysDoNotRollUp(a, b, i, j, CompareRequantified(a, b, x, y, mode, tolerance, show),
                       CompareRequantified(a, b, x, y, Summarized, tolerance, show), show);
    QuantitiesFound(bomA, bomB, x, y, mode, tolerance, show, floats);
  }

  lemma CleanSameKeys(bomA: Node, bomB: Node, x: seq<real>, y: seq<real>, c: Comparison, mode: Mode, tolerance: real,
                      show: real -> string)
    requires |x| == |Flatten(bomA)| && |y| == |Flatten(bomB)| && KeyIgnoresQty(mode)
    requires ComparesTrees(c, RequantifyNode(bomA, x), RequantifyNode(bomB, y), mode, tolerance, show) && Clean(c)
    ensures KeysOf(Flatten(bomA), mode, show) == KeysOf(Flatten(bomB), mode, show)
  {
    NodeRequantified(bomA, x);
    NodeRequantified(bomB, y);
    SameKeys(Flatten(bomA), x, mode, show);
    SameKeys(Flatten(bomB), y, mode, show);
    CleanKeys(c);
  }

  /** Over all quantities, a clean comparison of two trees by position or by reference rolls up at the same tolerance if and
      only if the tolerance is not positive, some finer key is on one side only, or no child and unit has two finer keys. */
  lemma RollsUpIff(bomA: Node, bomB: Node, mode: Mode, tolerance: real, show: real -> string, floats: iset<real>)
    requires KeyIgnoresQty(mode) && 0.0 in floats && tolerance in floats
    ensures RollsUp(bomA, bomB, mode, tolerance, show, floats)
       <==> || tolerance <= 0.0
            || KeysOf(Flatten(bomA), mode, show) != KeysOf(Flatten(bomB), mode, show)
            || OneKeyPerGroup(Flatten(bomA), mode, show)
  {
    var a, b := Flatten(bomA), Flatten(bomB);
    if tolerance <= 0.0 || KeysOf(a, mode, show) != KeysOf(b, mode, show) || OneKeyPerGroup(a, mode, show) {
      forall x: seq<real>, y: seq<real>, c: Comparison, s: Comparison |
        && |x| == |a| && |y| == |b| && AllIn(x, floats) && AllIn(y, floats)
        && ComparesTrees(c, RequantifyNode(bomA, x), RequantifyNode(bomB, y), mode, tolerance, show)
        && ComparesTrees(s, RequantifyNode(bomA, x), RequantifyNode(bomB, y), Summarized, tolerance, show)
        && Clean(c)
        ensures Clean(s)
      {
        CleanSameKeys(bomA, bomB, x, y, c, mode, tolerance, show);
        NodeRequantified(bomA, x);
        if OneKeyPerGroup(a, mode, show) {
          OneKeyRequantified(a, x, mode, show);
        }
        SameToleranceRollsUp(RequantifyNode(bomA, x), RequantifyNode(bomB, y), c, s, mode, tolerance, show);
      }
    } else {
      var i, j :| 0 <= i < |a| && 0 <= j < |a| && SameGroup(a[i], a[j]) && KeyOf(mode, show, a[i]) != KeyOf(mode, show, a[j]);
      PositiveNeedsOneKey(bomA, bomB, mode, tolerance, show, floats, i, j);
    }
  }

  // ---------- concrete trees ----------

  /** One child used at two positions and two designators. */
  function UsedTwice(): Node {
    var part := Node("part", "", "", []);
    Node("assembly", "", "", [Line(Relation("r1", "", Missing, Missing, None, "10", "R1"), part),
                              Line(Relation("r2", "", Missing, Missing, None, "20", "R2"), part)])
  }

  lemma LeafLine(l: Line)
    requires l.child.children == []
    ensures FlattenLine(l) == [Read(l.rel, l.child)]
  {
    assert FlattenLines(l.child.children) == [];
    assert Flatten(l.child) == [];
  }

  lemma UsedTwiceLines()
    ensures Flatten(UsedTwice()) == [Reading("r1", "part", "", 1.0, "EA", "10", "R1"), Reading("r2", "part", "", 1.0, "EA", "20", "R2")]
  {
    var lines := UsedTwice().children;
    assert NormalizeUom(None) == "EA";
    LeafLine(lines[0]);
    LeafLine(lines[1]);
    assert lines[1..] == [lines[1]] && lines[1..][1..] == [];
    assert FlattenLines(lines[1..]) == FlattenLine(lines[1]) + FlattenLines([]);
    assert FlattenLines(lines) == FlattenLine(lines[0]) + FlattenLines(lines[1..]);
  }

  /** At every positive tolerance this tree has quantities that compare clean by position, and by reference, and are
      modified when summarized. */
  lemma ToleranceDoesNotRollUp(tolerance: real, show: real -> string, floats: iset<real>)
    requires tolerance > 0.0 && 0.0 in floats && tolerance in floats
    ensures !RollsUp(UsedTwice(), UsedTwice(), ByPosition, tolerance, show, floats)
    ensures !RollsUp(UsedTwice(), UsedTwice(), ByReference, tolerance, show, floats)
  {
    var tree := UsedTwice();
    UsedTwiceLines();
    var r, u := Flatten(tree)[0], Flatten(tree)[1];
    assert "10"[0] != "20"[0] && "R1"[1] != "R2"[1];
    assert KeyOf(ByPosition, show, r)[2] != KeyOf(ByPosition, show, u)[2];
    assert KeyOf(ByReference, show, r)[2] != KeyOf(ByReference, show, u)[2];
    PositiveNeedsOneKey(tree, tree, ByPosition, tolerance, show, floats, 0, 1);
    PositiveNeedsOneKey(tree, tree, ByReference, tolerance, show, floats, 0, 1);
  }

  // ---------- quantities as keys ----------

  /** One child used once for each quantity. */
  function Uses(qs: seq<real>): Node {
    Node("assembly", "", "", UseLines(qs))
  }

  function UseLines(qs: seq<real>): seq<Line> {
    if qs == [] then []
    else [Line(Relation("r", "", Number(qs[0]), Missing, None, "", ""), Node("part", "", "", []))] + UseLines(qs[1..])
  }

  function UseReading(q: real): Reading {
    Reading("r", "part", "", q, "EA", "", "")
  }

  function UseReadings(qs: seq<real>): seq<Reading> {
    seq(|qs|, i requires 0 <= i < |qs| => UseReading(qs[i]))
  }

  lemma {:induction false} UsesLines(qs: seq<real>)
    ensures FlattenLines(UseLines(qs)) == UseReadings(qs)
  {
    if qs != [] {
      var lines := UseLines(qs);
      UsesLines(qs[1..]);
      LeafLine(lines[0]);
      assert NormalizeUom(None) == "EA";
      assert lines[1..] == UseLines(qs[1..]);
      assert FlattenLines(lines) == FlattenLine(lines[0]) + FlattenLines(lines[1..]);
    }
  }

  /** What the uses of one quantity add up to, and of all. */
  function SumShown(qs: seq<real>, show: real -> string, text: string): real {
    if qs == [] then 0.0
    else SumShown(qs[..|qs| - 1], show, text) + if show(qs[|qs| - 1]) == text then qs[|qs| - 1] else 0.0
  }

  function SumAll(qs: seq<real>): real {
    if qs == [] then 0.0 else SumAll(qs[..|qs| - 1]) + qs[|qs| - 1]
  }

  lemma {:induction false} UseQuantities(qs: seq<real>, show: real -> string, text: string)
    ensures QtyOf(UseReadings(qs), NumQty, show, ["part", "EA", text]) == SumShown(qs, show, text)
    ensures QtyOf(UseReadings(qs), Summarized, show, ["part", "EA"]) == SumAll(qs)
  {
    hide QtyOf;
    hide Matches;
    if qs == [] {
      NoLines(NumQty, show, ["part", "EA", text]);
      NoLines(Summarized, show, ["part", "EA"]);
      assert UseReadings(qs) == [];
    } else {
      var n := |qs| - 1;
      UseQuantities(qs[..n], show, text);
      LastUse(UseReadings(qs), UseReadings(qs[..n]), qs[n], NumQty, show, ["part", "EA", text]);
      LastUse(UseReadings(qs), UseReadings(qs[..n]), qs[n], Summarized, show, ["part", "EA"]);
      UseMatches(qs[n], show, text);
    }
  }

  lemma LastUse(lines: seq<Reading>, front: seq<Reading>, q: real, mode: Mode, show: real -> string, k: Key)
    requires lines == front + [UseReading(q)]
    ensures QtyOf(lines, mode, show, k) == QtyOf(front, mode, show, k) + if Matches(mode, show, UseReading(q), k) then q else 0.0
  {
    OneMore(lines, mode, show, k);
    assert lines[..|lines| - 1] == front;
  }

  lemma UseMatches(q: real, show: real -> string, text: string)
    ensures Matches(NumQty, show, UseReading(q), ["part", "EA", text]) <==> show(q) == text
    ensures Matches(Summarized, show, UseReading(q), ["part", "EA"])
  {
    assert ["part", "EA", show(q)][2] == show(q) && ["part", "EA", text][2] == text;
  }

  lemma UsesCompared(c: Comparison, a: seq<real>, b: seq<real>, tolerance: real, show: real -> string)
    requires ComparesTrees(c, Uses(a), Uses(b), NumQty, tolerance, show)
    ensures c.mode == NumQty && c.tolerance == tolerance
    ensures c.a.Keys == KeysOf(UseReadings(a), NumQty, show) && c.b.Keys == KeysOf(UseReadings(b), NumQty, show)
    ensures forall k :: k in c.a ==> |k| == 3 && k == ["part", "EA", k[2]] && c.a[k].qty == SumShown(a, show, k[2])
    ensures forall k :: k in c.b ==> |k| == 3 && k == ["part", "EA", k[2]] && c.b[k].qty == SumShown(b, show, k[2])
  {
    UsesLines(a);
    UsesLines(b);
    GroupsTotals(c.a, UseReadings(a), NumQty, show);
    GroupsTotals(c.b, UseReadings(b), NumQty, show);
    UseTotals(c.a, a, show);
    UseTotals(c.b, b, show);
  }

  lemma UseTotals(e: Entries, qs: seq<real>, show: real -> string)
    requires Totals(e, UseReadings(qs), NumQty, show)
    ensures forall k :: k in e ==> |k| == 3 && k == ["part", "EA", k[2]] && e[k].qty == SumShown(qs, show, k[2])
  {
    forall k | k in e ensures |k| == 3 && k == ["part", "EA", k[2]] && e[k].qty == SumShown(qs, show, k[2]) {
      var r :| r in UseReadings(qs) && Counts(r) && KeyOf(NumQty, show, r) == k;
      UseQuantities(qs, show, k[2]);
    }
  }

  /** Two copies of each of two quantities, against one of each. */
  lemma CopiesDoNotRollUp(bomA: Node, bomB: Node, c: Comparison, s: Comparison, tolerance: real, show: real -> string)
    requires tolerance > 0.0 && show(tolerance) != show(tolerance / 2.0)
    requires bomA == Uses([tolerance, tolerance, tolerance / 2.0, tolerance / 2.0]) && bomB == Uses([tolerance, tolerance / 2.0])
    requires ComparesTrees(c, bomA, bomB, NumQty, tolerance, show)
    requires ComparesTrees(s, bomA, bomB, Summarized, tolerance, show)
    ensures Clean(c) && !Clean(s)
  {
    hide ComparesTrees;
    hide Clean;
    hide SumShown;
    hide SumAll;
    hide KeysOf;
    var t, h := tolerance, tolerance / 2.0;
    var a, b := [t, t, h, h], [t, h];
    UsesCompared(c, a, b, tolerance, show);
    CopySums(t, h, show);
    CopiesClean(c, t, h, show);
    CopiesSummarized(s, a, b, tolerance, show);
    TotalsDiffer(s, ["part", "EA"]);
  }

  lemma TotalsDiffer(s: Comparison, g: Key)
    requires g in s.a && g in s.b && s.mode == Summarized && s.a[g].qty - s.b[g].qty > s.tolerance >= 0.0
    ensures !Clean(s)
  {
    assert g in s.Keys() && StatusOf(s, g) == Modified;
  }

  lemma CopySums(t: real, h: real, show: real -> string)
    requires show(t) != show(h)
    ensures SumShown([t, t, h, h], show, show(t)) == t + t && SumShown([t, t, h, h], show, show(h)) == h + h
    ensures SumShown([t, h], show, show(t)) == t && SumShown([t, h], show, show(h)) == h
    ensures SumAll([t, t, h, h]) == t + t + h + h && SumAll([t, h]) == t + h
  {
    assert [t, t, h, h][..3] == [t, t, h] && [t, t, h][..2] == [t, t] && [t, t][..1] == [t] && [t][..0] == [];
    assert [t, h][..1] == [t];
    assert SumShown([t], show, show(t)) == t && SumShown([t], show, show(h)) == 0.0 && SumAll([t]) == t;
    assert SumShown([t, t], show, show(t)) == t + t && SumShown([t, t], show, show(h)) == 0.0 && SumAll([t, t]) == t + t;
    assert SumShown([t, t, h], show, show(t)) == t + t && SumShown([t, t, h], show, show(h)) == h && SumAll([t, t, h]) == t + t + h;
  }

  lemma CopiesClean(c: Comparison, t: real, h: real, show: real -> string)
    requires c.mode == NumQty && c.tolerance == t > 0.0 && 0.0 < h <= t && show(t) != show(h)
    requires c.a.Keys == KeysOf(UseReadings([t, t, h, h]), NumQty, show) && c.b.Keys == KeysOf(UseReadings([t, h]), NumQty, show)
    requires forall k :: k in c.a ==> |k| == 3 && k == ["part", "EA", k[2]] && c.a[k].qty == SumShown([t, t, h, h], show, k[2])
    requires forall k :: k in c.b ==> |k| == 3 && k == ["part", "EA", k[2]] && c.b[k].qty == SumShown([t, h], show, k[2])
    ensures Clean(c)
  {
    hide SumShown;
    hide KeysOf;
    CopySums(t, h, show);
    UseKeys([t, t, h, h], t, h, show);
    UseKeys([t, h], t, h, show);
    forall k | k in c.Keys() ensures StatusOf(c, k) == Unchanged {
      assert k == ["part", "EA", show(t)] || k == ["part", "EA", show(h)];
      assert k[2] == show(t) || k[2] == show(h);
    }
  }

  lemma UseKeys(qs: seq<real>, t: real, h: real, show: real -> string)
    requires t in qs && h in qs && forall q :: q in qs ==> q == t || q == h
    ensures KeysOf(UseReadings(qs), NumQty, show) == {["part", "EA", show(t)], ["part", "EA", show(h)]}
  {
    var lines := UseReadings(qs);
    var i :| 0 <= i < |qs| && qs[i] == t;
    var j :| 0 <= j < |qs| && qs[j] == h;
    assert lines[i] in lines && lines[j] in lines;
    forall r | r in lines ensures KeyOf(NumQty, show, r) in {["part", "EA", show(t)], ["part", "EA", show(h)]} {
      var x :| 0 <= x < |lines| && lines[x] == r;
      assert qs[x] in qs;
    }
    assert KeyOf(NumQty, show, lines[i]) == ["part", "EA", show(t)] && KeyOf(NumQty, show, lines[j]) == ["part", "EA", show(h)];
  }

  lemma CopiesSummarized(s: Comparison, a: seq<real>, b: seq<real>, tolerance: real, show: real -> string)
    requires a != [] && b != [] && ComparesTrees(s, Uses(a), Uses(b), Summarized, tolerance, show)
    ensures s.mode == Summarized && s.tolerance == tolerance
    ensures ["part", "EA"] in s.a && s.a[["part", "EA"]].qty == SumAll(a)
    ensures ["part", "EA"] in s.b && s.b[["part", "EA"]].qty == SumAll(b)
  {
    UsesLines(a);
    UsesLines(b);
    GroupsTotals(s.a, UseReadings(a), Summarized, show);
    GroupsTotals(s.b, UseReadings(b), Summarized, show);
    UseQuantities(a, show, "");
    UseQuantities(b, show, "");
    assert UseReadings(a)[0] in UseReadings(a) && UseReadings(b)[0] in UseReadings(b);
    assert KeyOf(Summarized, show, UseReadings(a)[0]) == ["part", "EA"] == KeyOf(Summarized, show, UseReadings(b)[0]);
  }
}
