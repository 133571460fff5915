/** Comparing two bills of materials key by key, summarizing and filtering the differences. */
module BomCompare {
  import opened Sequences
  import opened Options
  import opened Text
  import opened BomLines
  import opened BomEntries
  import opened BomLabels

  datatype Status = Added | Removed | Modified | Unchanged

  /** The texts a row shows of one tree's entry; sets stand for their sorted, joined members. */
  datatype Shown = Shown(uoms: set<string>, positions: set<string>, refdes: set<string>, relIds: seq<string>)

  /** One reported row. */
  datatype Diff = Diff(key: string, childId: string, name: string, status: Status,
                       qtyA: Option<real>, qtyB: Option<real>, delta: Option<real>, shownA: Shown, shownB: Shown)

  datatype Summary = Summary(added: nat, removed: nat, modified: nat, same: nat)

  const EMPTY := Summary(0, 0, 0, 0)

  function Bump(s: Summary, status: Status): Summary {
    match status
    case Added => s.(added := s.added + 1)
    case Removed => s.(removed := s.removed + 1)
    case Modified => s.(modified := s.modified + 1)
    case Unchanged => s.(same := s.same + 1)
  }

  function Get(s: Summary, status: Status): nat {
    match status
    case Added => s.added
    case Removed => s.removed
    case Modified => s.modified
    case Unchanged => s.same
  }

  lemma BumpAddsOne(summary: Summary, status: Status, s: Status)
    ensures Get(Bump(summary, status), s) == Get(summary, s) + if s == status then 1 else 0
  {
  }

  predicate FloatEqual(a: real, b: real, tolerance: real) {
    (if a - b < 0.0 then b - a else a - b) <= tolerance
  }

  /** Two grouped trees and how to compare them. */
  datatype Comparison = Comparison(a: Entries, b: Entries, mode: Mode, tolerance: real) {
    function Keys(): set<Key> {
      a.Keys + b.Keys
    }

    function Flipped(): Comparison {
      Comparison(b, a, mode, tolerance)
    }
  }

  function StatusOf(c: Comparison, k: Key): Status {
    if k !in c.a then Added
    else if k !in c.b then Removed
    else if c.mode == OnlyProduct || FloatEqual(c.a[k].qty, c.b[k].qty, c.tolerance) then Unchanged
    else Modified
  }

  /** The relationship ids that are present. */
  function Present(ids: seq<string>): seq<string> {
    if ids == [] then [] else (if ids[0] != "" then [ids[0]] else []) + Present(ids[1..])
  }

  function DiffOf(c: Comparison, k: Key): Diff {
    Diff(Label(k),
         if k in c.a then c.a[k].childId else if k in c.b then c.b[k].childId else "",
         if k in c.a then c.a[k].name else if k in c.b then c.b[k].name else "",
         StatusOf(c, k),
         if k in c.a then Some(c.a[k].qty) else None,
         if k in c.b then Some(c.b[k].qty) else None,
         if k in c.a && k in c.b then Some(c.b[k].qty - c.a[k].qty) else None,
         Show(c.a, k), Show(c.b, k))
  }

  function Show(e: Entries, k: Key): Shown {
    if k in e then Shown(e[k].uoms, e[k].positions, e[k].refdes, Present(e[k].relIds)) else Shown({}, {}, {}, [])
  }

  /** What one key of the walk contributes; unchanged keys may be left out. */
  function RowsFor(c: Comparison, k: Key, includeUnchanged: bool): seq<Diff> {
    if StatusOf(c, k) == Unchanged && !includeUnchanged then [] else [DiffOf(c, k)]
  }

  function DiffsOf(keys: seq<Key>, c: Comparison, includeUnchanged: bool): seq<Diff> {
    if keys == [] then []
    else DiffsOf(keys[..|keys| - 1], c, includeUnchanged) + RowsFor(c, keys[|keys| - 1], includeUnchanged)
  }

  /** The keys of a walk that have a status. */
  function KeysWith(keys: seq<Key>, c: Comparison, status: Status): set<Key> {
    set k | k in keys && StatusOf(c, k) == status
  }

  /** How many keys of a walk have a status. */
  function CountKeys(keys: seq<Key>, c: Comparison, status: Status): nat {
    if keys == [] then 0
    else CountKeys(keys[..|keys| - 1], c, status) + if StatusOf(c, keys[|keys| - 1]) == status then 1 else 0
  }

  ghost predicate Tallies(summary: Summary, keys: seq<Key>, c: Comparison) {
    forall s :: Get(summary, s) == CountKeys(keys, c, s)
  }

  lemma OneMoreKey(walk: seq<Key>, i: nat, c: Comparison, includeUnchanged: bool, summary: Summary)
    requires i < |walk| && Tallies(summary, walk[..i], c)
    ensures DiffsOf(walk[..i + 1], c, includeUnchanged)
         == DiffsOf(walk[..i], c, includeUnchanged) + RowsFor(c, walk[i], includeUnchanged)
    ensures Tallies(Bump(summary, StatusOf(c, walk[i])), walk[..i + 1], c)
  {
    assert walk[..i + 1][..i] == walk[..i];
    forall s ensures Get(Bump(summary, StatusOf(c, walk[i])), s) == CountKeys(walk[..i + 1], c, s) {
      BumpAddsOne(summary, StatusOf(c, walk[i]), s);
      assert Get(summary, s) == CountKeys(walk[..i], c, s);
    }
  }

  // ---------- what a row says of the two lists of lines ----------

  /** The ids that are present, in the order of the lines. */
  ghost predicate IdsAt(ids: seq<string>, lines: seq<Reading>, at: seq<nat>) {
    && |at| == |ids|
    && (forall i :: 0 <= i < |at| ==> at[i] < |lines| && ids[i] == lines[at[i]].relId)
    && (forall i, j :: 0 <= i < j < |at| ==> at[i] < at[j])
    && (forall n :: 0 <= n < |lines| ==> (n in at <==> lines[n].relId != ""))
  }

  /** One side of a row: the quantity and the texts of that side's lines, which are absent if there are none. */
  ghost predicate SideSays(qty: Option<real>, shown: Shown, lines: seq<Reading>, mode: Mode) {
    && (qty.Some? <==> lines != [])
    && (qty.Some? ==> qty.value == if mode == OnlyProduct then 0.0 else SumQty(lines))
    && shown.uoms == (set r | r in lines :: r.uom)
    && shown.positions == (set r | r in lines && r.position != "" :: r.position)
    && shown.refdes == (set r | r in lines && r.refdes != "" :: r.refdes)
    && exists at :: IdsAt(shown.relIds, lines, at)
  }

  /** A row about the lines `x` of the first tree and `y` of the second; what is shown of both is the first one's if it has any. */
  ghost predicate RowSays(d: Diff, x: seq<Reading>, y: seq<Reading>, mode: Mode, tolerance: real) {
    && SideSays(d.qtyA, d.shownA, x, mode) && SideSays(d.qtyB, d.shownB, y, mode)
    && (d.delta.Some? <==> x != [] && y != [])
    && (d.delta.Some? ==> d.qtyA.value + d.delta.value == d.qtyB.value)
    && x + y != [] && d.childId == (x + y)[0].childId && d.name == (x + y)[0].name
    && (d.status == Added <==> x == []) && (d.status == Removed <==> y == [])
    && (d.status == Modified <==> d.delta.Some? && mode != OnlyProduct && !(-tolerance <= d.delta.value <= tolerance))
  }

  /** A key whose row may be left out: on both sides, with quantities that agree. */
  ghost predicate Unmoved(x: seq<Reading>, y: seq<Reading>, mode: Mode, tolerance: real) {
    x != [] && y != [] && (mode == OnlyProduct || -tolerance <= SumQty(y) - SumQty(x) <= tolerance)
  }

  /** The rows of two lists of lines, for the keys reported. */
  ghost predicate RowsSay(diffs: seq<Diff>, reported: seq<Key>, a: seq<Reading>, b: seq<Reading>, c: Comparison, show: real -> string) {
    |diffs| == |reported| && forall i :: 0 <= i < |diffs| ==>
      && diffs[i].key == Label(reported[i])
      && RowSays(diffs[i], Select(a, c.mode, show, reported[i]), Select(b, c.mode, show, reported[i]), c.mode, c.tolerance)
  }

  lemma {:induction false} PresentIdsAt(ids: seq<string>, lines: seq<Reading>) returns (at: seq<nat>)
    requires |ids| == |lines| && forall i :: 0 <= i < |lines| ==> ids[i] == lines[i].relId
    ensures IdsAt(Present(ids), lines, at)
  {
    hide IdsAt;
    if ids == [] {
      at := [];
      NoIds(lines);
    } else {
      at := PresentIdsAt(ids[1..], lines[1..]);
      at := IdInFront(Present(ids[1..]), lines, at);
    }
  }

  lemma NoIds(lines: seq<Reading>)
    requires lines == []
    ensures IdsAt([], lines, [])
  {
  }

  /** The ids of all lines but the first. */
  ghost predicate LaterIds(ids: seq<string>, lines: seq<Reading>, at: seq<nat>) {
    && |at| == |ids|
    && (forall i :: 0 <= i < |at| ==> 0 < at[i] < |lines| && ids[i] == lines[at[i]].relId)
    && (forall i, j :: 0 <= i < j < |at| ==> at[i] < at[j])
    && (forall n :: 0 < n < |lines| ==> (n in at <==> lines[n].relId != ""))
  }

  lemma IdsLater(ids: seq<string>, lines: seq<Reading>, rest: seq<nat>) returns (at: seq<nat>)
    requires lines != [] && IdsAt(ids, lines[1..], rest)
    ensures LaterIds(ids, lines, at)
  {
    at := seq(|rest|, i requires 0 <= i < |rest| => rest[i] + 1);
    forall n | 0 < n < |lines| ensures n in at <==> lines[n].relId != "" {
      LaterHas(rest, at, n);
      assert lines[1..][n - 1] == lines[n];
    }
  }

  lemma IdInFront(ids: seq<string>, lines: seq<Reading>, rest: seq<nat>) returns (at: seq<nat>)
    requires lines != [] && IdsAt(ids, lines[1..], rest)
    ensures IdsAt((if lines[0].relId != "" then [lines[0].relId] else []) + ids, lines, at)
  {
    hide IdsAt;
    hide LaterIds;
    var later := IdsLater(ids, lines, rest);
    if lines[0].relId != "" {
      at := [0] + later;
      FirstIdToo(ids, lines, later);
    } else {
      at := later;
      FirstIdMissing(ids, lines, later);
      assert [] + ids == ids;
    }
  }

  lemma FirstIdToo(ids: seq<string>, lines: seq<Reading>, later: seq<nat>)
    requires lines != [] && lines[0].relId != "" && LaterIds(ids, lines, later)
    ensures IdsAt([lines[0].relId] + ids, lines, [0] + later)
  {
    var at: seq<nat> := [0] + later;
    assert forall n: int :: n in at <==> n == 0 || n in later;
  }

  lemma FirstIdMissing(ids: seq<string>, lines: seq<Reading>, later: seq<nat>)
    requires lines != [] && lines[0].relId == "" && LaterIds(ids, lines, later)
    ensures IdsAt(ids, lines, later)
  {
  }

  lemma LaterHas(rest: seq<nat>, later: seq<nat>, n: nat)
    requires |later| == |rest| && forall i :: 0 <= i < |rest| ==> later[i] == rest[i] + 1
    ensures n in later <==> n > 0 && n - 1 in rest
  {
    if n > 0 && n - 1 in rest {
      var i :| 0 <= i < |rest| && rest[i] == n - 1;
      assert later[i] == n;
    }
  }

  lemma EntrySays(e: Entries, lines: seq<Reading>, mode: Mode, show: real -> string, k: Key)
    requires Groups(e, lines, mode, show)
    ensures var s := Select(lines, mode, show, k);
            && SideSays(if k in e then Some(e[k].qty) else None, Show(e, k), s, mode)
            && (k in e <==> s != []) && (k in e ==> e[k].childId == s[0].childId && e[k].name == s[0].name)
  {
    var s := Select(lines, mode, show, k);
    SelectEmpty(lines, mode, show, k);
    if k in e {
      assert Sums(e[k], s, mode);
      var at := PresentIdsAt(e[k].relIds, s);
    } else {
      assert IdsAt([], s, []);
    }
  }

  lemma DiffSays(c: Comparison, a: seq<Reading>, b: seq<Reading>, show: real -> string, k: Key)
    requires Groups(c.a, a, c.mode, show) && Groups(c.b, b, c.mode, show) && k in c.Keys()
    ensures RowSays(DiffOf(c, k), Select(a, c.mode, show, k), Select(b, c.mode, show, k), c.mode, c.tolerance)
    ensures StatusOf(c, k) == Unchanged ==> Unmoved(Select(a, c.mode, show, k), Select(b, c.mode, show, k), c.mode, c.tolerance)
  {
    hide Groups;
    hide IdsAt;
    hide Show;
    EntrySays(c.a, a, c.mode, show, k);
    EntrySays(c.b, b, c.mode, show, k);
  }

  /** The keys of a walk that have rows. */
  function Reported(walk: seq<Key>, c: Comparison, includeUnchanged: bool): seq<Key> {
    if walk == [] then []
    else
      var last := walk[|walk| - 1];
      Reported(walk[..|walk| - 1], c, includeUnchanged) + if StatusOf(c, last) == Unchanged && !includeUnchanged then [] else [last]
  }

  lemma {:induction false} RowsFromLines(walk: seq<Key>, c: Comparison, a: seq<Reading>, b: seq<Reading>, show: real -> string,
                                         includeUnchanged: bool)
    requires Groups(c.a, a, c.mode, show) && Groups(c.b, b, c.mode, show) && forall k :: k in walk ==> k in c.Keys()
    ensures RowsSay(DiffsOf(walk, c, includeUnchanged), Reported(walk, c, includeUnchanged), a, b, c, show)
    ensures !includeUnchanged ==> forall d :: d in DiffsOf(walk, c, includeUnchanged) ==> d.status != Unchanged
  {
    hide Groups;
    hide RowSays;
    hide Label;
    hide Unmoved;
    if walk != [] {
      var front, last := walk[..|walk| - 1], walk[|walk| - 1];
      assert walk == front + [last];
      RowsFromLines(front, c, a, b, show, includeUnchanged);
      DiffSays(c, a, b, show, last);
      DiffHead(c, last);
      hide DiffOf;
      hide Select;
      hide StatusOf;
    }
  }

  lemma DiffHead(c: Comparison, k: Key)
    ensures DiffOf(c, k).key == Label(k) && DiffOf(c, k).status == StatusOf(c, k)
  {
  }

  /** The keys reported are those of the walk, in its order, but for keys that are left out because nothing moved. */
  lemma {:induction false} ReportedKeys(walk: seq<Key>, c: Comparison, a: seq<Reading>, b: seq<Reading>, show: real -> string,
                                        includeUnchanged: bool)
    requires Groups(c.a, a, c.mode, show) && Groups(c.b, b, c.mode, show) && forall k :: k in walk ==> k in c.Keys()
    requires Distinct(walk) && Ordered(walk)
    ensures var reported := Reported(walk, c, includeUnchanged);
            && Distinct(reported) && Ordered(reported) && (forall k :: k in reported ==> k in walk)
            && (forall k :: k in walk && k !in reported ==>
                  !includeUnchanged && Unmoved(Select(a, c.mode, show, k), Select(b, c.mode, show, k), c.mode, c.tolerance))
  {
    hide Groups;
    hide RowSays;
    hide Unmoved;
    hide Label;
    hide Leq;
    hide Ordered;
    if walk != [] {
      var front, last := walk[..|walk| - 1], walk[|walk| - 1];
      assert walk == front + [last];
      OrderedFront(walk);
      ReportedKeys(front, c, a, b, show, includeUnchanged);
      DiffSays(c, a, b, show, last);
      var reported := Reported(front, c, includeUnchanged);
      OneMoreReported(front, reported, last);
      assert reported + [] == reported;
    }
  }

  lemma OneMoreReported(front: seq<Key>, reported: seq<Key>, last: Key)
    requires Distinct(front + [last]) && Ordered(front + [last]) && Distinct(reported) && Ordered(reported)
    requires forall k :: k in reported ==> k in front
    ensures Distinct(reported + [last]) && Ordered(reported + [last])
  {
    var walk := front + [last];
    forall i | 0 <= i < |reported| ensures reported[i] != last && Leq(Label(reported[i]), Label(last)) {
      assert reported[i] in front;
      var j :| 0 <= j < |front| && front[j] == reported[i];
      assert walk[j] == front[j] && walk[|front|] == last;
    }
  }

  // ---------- the walk ----------

  /** Lists a set in whatever order it is iterated. */
  method ListKeys(keys: set<Key>) returns (order: seq<Key>)
    ensures Enumerates(order, keys)
  {
    order := [];
    var left := keys;
    while left != {}
      invariant left <= keys && Enumerates(order, keys - left)
      decreases left
    {
      var k :| k in left;
      assert k !in order;
      order := order + [k];
      left := left - {k};
    }
  }

  /** `sorted(keys, key=label)` over a set met in any order. */
  method SortKeys(keys: set<Key>) returns (walk: seq<Key>)
    ensures Enumerates(walk, keys) && Ordered(walk)
    ensures DistinctLabels(keys) ==> forall o :: Enumerates(o, keys) ==> walk == SortByLabel(o)
  {
    var order := ListKeys(keys);
    walk := SortByLabel(order);
    SortSpec(order);
    SortEnumerates(order, keys);
    forall o | Enumerates(o, keys) && DistinctLabels(keys) ensures walk == SortByLabel(o) {
      SortedWalkUnique(order, o, keys);
    }
  }

  /** The comparison loop over grouped trees, along a walk through all their keys. */
  method CompareEntries(walk: seq<Key>, c: Comparison, includeUnchanged: bool)
    returns (summary: Summary, diffs: seq<Diff>)
    requires forall k :: k in walk ==> k in c.Keys()
    ensures diffs == DiffsOf(walk, c, includeUnchanged)
    ensures Tallies(summary, walk, c)
  {
    hide StatusOf;
    hide DiffOf;
    hide Label;
    summary, diffs := EMPTY, [];
    var i := 0;
    while i < |walk|
      invariant 0 <= i <= |walk|
      invariant diffs == DiffsOf(walk[..i], c, includeUnchanged)
      invariant Tallies(summary, walk[..i], c)
    {
      var k := walk[i];
      assert k in walk;
      OneMoreKey(walk, i, c, includeUnchanged, summary);
      var status := CompareKey(k, c);
      summary := Bump(summary, status);
      i := i + 1;
      if status == Unchanged && !includeUnchanged {
        continue;
      }
      var diff := MakeDiff(k, c, status);
      diffs := diffs + [diff];
    }
    assert walk[..|walk|] == walk;
  }

  /** The status of one key. */
  method CompareKey(k: Key, c: Comparison) returns (status: Status)
    ensures status == StatusOf(c, k)
  {
    if k !in c.a {
      status := Added;
    } else if k !in c.b {
      status := Removed;
    } else if c.mode == OnlyProduct {
      status := Unchanged;
    } else {
      status := if !FloatEqual(c.a[k].qty, c.b[k].qty, c.tolerance) then Modified else Unchanged;
    }
  }

  /** The row of one key. */
  method MakeDiff(k: Key, c: Comparison, status: Status) returns (diff: Diff)
    requires k in c.Keys() && status == StatusOf(c, k)
    ensures diff == DiffOf(c, k)
  {
    var qtyA := if k in c.a then Some(c.a[k].qty) else None;
    var qtyB := if k in c.b then Some(c.b[k].qty) else None;
    var delta := if qtyA.Some? && qtyB.Some? then Some(qtyB.value - qtyA.value) else None;
    var first := if k in c.a then c.a[k] else c.b[k];
    diff := Diff(Label(k), first.childId, first.name, status, qtyA, qtyB, delta, Show(c.a, k), Show(c.b, k));
  }

  /** The comparison of two trees, before filters. Also returns the walk and the grouped trees. */
  method CompareBomTrees(bomA: Node, bomB: Node, mode: Mode, show: real -> string, tolerance: Option<real>,
                         includeUnchanged: bool)
    returns (walk: seq<Key>, c: Comparison, summary: Summary, diffs: seq<Diff>, ghost reported: seq<Key>)
    ensures c.mode == mode && c.tolerance == if tolerance.Some? then tolerance.value else 0.000000001
    ensures Groups(c.a, Flatten(bomA), mode, show) && Groups(c.b, Flatten(bomB), mode, show)
    ensures Enumerates(walk, c.Keys()) && Ordered(walk)
    ensures DistinctLabels(c.Keys()) ==> forall o :: Enumerates(o, c.Keys()) ==> walk == SortByLabel(o)
    ensures diffs == DiffsOf(walk, c, includeUnchanged) && Tallies(summary, walk, c)
    ensures DistinctLabels(c.Keys()) ==> StrictlyOrdered(diffs)
    ensures RowsSay(diffs, reported, Flatten(bomA), Flatten(bomB), c, show)
    ensures Distinct(reported) && Ordered(reported) && forall k :: k in reported ==> k in c.Keys()
    ensures forall k :: k in c.Keys() && k !in reported ==>
              !includeUnchanged && Unmoved(Select(Flatten(bomA), mode, show, k), Select(Flatten(bomB), mode, show, k), mode, c.tolerance)
    ensures !includeUnchanged ==> forall d :: d in diffs ==> d.status != Unchanged
  {
    var a := ExtractEntries(bomA, mode, show);
    var b := ExtractEntries(bomB, mode, show);
    c := Comparison(a, b, mode, if tolerance.Some? then tolerance.value else 0.000000001);
    walk := SortKeys(a.Keys + b.Keys);
    summary, diffs := CompareEntries(walk, c, includeUnchanged);
    reported := Reported(walk, c, includeUnchanged);
    RowsFromLines(walk, c, Flatten(bomA), Flatten(bomB), show, includeUnchanged);
    ReportedKeys(walk, c, Flatten(bomA), Flatten(bomB), show, includeUnchanged);
    if DistinctLabels(c.Keys()) {
      DiffsStrictlyOrdered(walk, c, includeUnchanged);
    }
  }

  // ---------- the list is ordered ----------

  /** The rows stand in the order of their labels, and no label comes twice. */
  predicate StrictlyOrdered(diffs: seq<Diff>) {
    forall i, j :: 0 <= i < j < |diffs| ==> Leq(diffs[i].key, diffs[j].key) && diffs[i].key != diffs[j].key
  }

  lemma {:induction false} RowsComeFromKeys(walk: seq<Key>, c: Comparison, includeUnchanged: bool)
    ensures forall d :: d in DiffsOf(walk, c, includeUnchanged) ==> exists k :: k in walk && d.key == Label(k)
  {
    if walk != [] {
      var front, last := walk[..|walk| - 1], walk[|walk| - 1];
      RowsComeFromKeys(front, c, includeUnchanged);
      assert walk == front + [last];
      assert last in walk && DiffOf(c, last).key == Label(last);
      forall d | d in DiffsOf(walk, c, includeUnchanged) ensures exists k :: k in walk && d.key == Label(k) {
        if d in DiffsOf(front, c, includeUnchanged) {
          var k :| k in front && d.key == Label(k);
          assert k in walk;
        } else {
          assert d == DiffOf(c, last);
        }
      }
    }
  }

  /** An ordered walk of keys with distinct labels gives a strictly ordered list, whichever rows are left out. */
  lemma {:induction false} DiffsStrictlyOrdered(walk: seq<Key>, c: Comparison, includeUnchanged: bool)
    requires Ordered(walk) && Distinct(walk)
    requires forall k, l :: k in walk && l in walk && Label(k) == Label(l) ==> k == l
    ensures StrictlyOrdered(DiffsOf(walk, c, includeUnchanged))
  {
    if walk != [] {
      hide Leq;
      hide Label;
      hide Ordered;
      hide RowsFor;
      hide StrictlyOrdered;
      var front, last := walk[..|walk| - 1], walk[|walk| - 1];
      assert walk == front + [last];
      OrderedFront(walk);
      DiffsStrictlyOrdered(front, c, includeUnchanged);
      RowsBelow(walk, c, includeUnchanged);
      AddRowsFor(DiffsOf(front, c, includeUnchanged), c, last, includeUnchanged);
    }
  }

  /** The rows of all keys but the last stand below the last one's label. */
  lemma RowsBelow(walk: seq<Key>, c: Comparison, includeUnchanged: bool)
    requires walk != [] && Ordered(walk) && Distinct(walk)
    requires forall k, l :: k in walk && l in walk && Label(k) == Label(l) ==> k == l
    ensures var n := |walk| - 1;
            forall d :: d in DiffsOf(walk[..n], c, includeUnchanged) ==> Leq(d.key, Label(walk[n])) && d.key != Label(walk[n])
  {
    hide Leq;
    hide Label;
    hide DiffsOf;
    var n := |walk| - 1;
    RowsComeFromKeys(walk[..n], c, includeUnchanged);
    forall d | d in DiffsOf(walk[..n], c, includeUnchanged) ensures Leq(d.key, Label(walk[n])) && d.key != Label(walk[n]) {
      var k :| k in walk[..n] && d.key == Label(k);
      var i :| 0 <= i < n && walk[i] == k;
      assert k in walk && walk[n] in walk;
    }
  }

  lemma AddRowsFor(rows: seq<Diff>, c: Comparison, k: Key, includeUnchanged: bool)
    requires StrictlyOrdered(rows) && forall d :: d in rows ==> Leq(d.key, Label(k)) && d.key != Label(k)
    ensures StrictlyOrdered(rows + RowsFor(c, k, includeUnchanged))
  {
    OneMoreRow(rows, DiffOf(c, k));
    assert rows + [] == rows;
  }

  lemma OrderedFront(walk: seq<Key>)
    requires Ordered(walk) && walk != []
    ensures Ordered(walk[..|walk| - 1])
  {
  }

  lemma OneMoreRow(rows: seq<Diff>, d: Diff)
    requires StrictlyOrdered(rows) && forall r :: r in rows ==> Leq(r.key, d.key) && r.key != d.key
    ensures StrictlyOrdered(rows + [d])
  {
    assert forall i :: 0 <= i < |rows| ==> rows[i] in rows;
  }

  // ---------- the summary is exact ----------

  /** Counting a walk's keys with a status counts the set of such keys. */
  lemma {:induction false} CountIsCardinality(keys: seq<Key>, c: Comparison, status: Status)
    requires Distinct(keys)
    ensures CountKeys(keys, c, status) == |KeysWith(keys, c, status)|
  {
    if keys == [] {
      assert KeysWith(keys, c, status) == {};
    } else {
      var front, last := keys[..|keys| - 1], keys[|keys| - 1];
      assert keys == front + [last];
      CountIsCardinality(front, c, status);
      KeysWithOneMore(front, last, c, status);
      assert last !in KeysWith(front, c, status);
    }
  }

  lemma KeysWithOneMore(front: seq<Key>, last: Key, c: Comparison, status: Status)
    ensures KeysWith(front + [last], c, status)
         == KeysWith(front, c, status) + if StatusOf(c, last) == status then {last} else {}
  {
    assert forall k :: k in front + [last] <==> k in front || k == last;
  }

  lemma WalkByStatus(walk: seq<Key>, c: Comparison)
    requires Enumerates(walk, c.Keys())
    ensures KeysWith(walk, c, Added) == c.b.Keys - c.a.Keys
    ensures KeysWith(walk, c, Removed) == c.a.Keys - c.b.Keys
    ensures KeysWith(walk, c, Modified) + KeysWith(walk, c, Unchanged) == c.a.Keys * c.b.Keys
  {
    forall k ensures k in walk <==> k in c.a || k in c.b {
      assert k in c.Keys() <==> k in c.a || k in c.b;
    }
  }

  /** Added, removed, and modified plus unchanged count the keys only in B, only in A, and in both. */
  lemma SummaryIsExact(walk: seq<Key>, c: Comparison, summary: Summary)
    requires Enumerates(walk, c.Keys()) && Tallies(summary, walk, c)
    ensures summary.added == |c.b.Keys - c.a.Keys|
    ensures summary.removed == |c.a.Keys - c.b.Keys|
    ensures summary.modified + summary.same == |c.a.Keys * c.b.Keys|
  {
    WalkByStatus(walk, c);
    forall s ensures Get(summary, s) == |KeysWith(walk, c, s)| {
      assert Get(summary, s) == CountKeys(walk, c, s);
      CountIsCardinality(walk, c, s);
    }
    assert summary.added == Get(summary, Added) && summary.removed == Get(summary, Removed);
    assert summary.modified == Get(summary, Modified) && summary.same == Get(summary, Unchanged);
    DisjointUnion(KeysWith(walk, c, Modified), KeysWith(walk, c, Unchanged));
  }

  lemma DisjointUnion(m: set<Key>, u: set<Key>)
    requires m !! u
    ensures |m + u| == |m| + |u|
  {
  }

  function CountStatus(diffs: seq<Diff>, status: Status): nat {
    if diffs == [] then 0
    else CountStatus(diffs[..|diffs| - 1], status) + if diffs[|diffs| - 1].status == status then 1 else 0
  }

  lemma CountOneMore(diffs: seq<Diff>, d: Diff, status: Status)
    ensures CountStatus(diffs + [d], status) == CountStatus(diffs, status) + if d.status == status then 1 else 0
  {
    assert (diffs + [d])[..|diffs|] == diffs;
  }

  /** The unfiltered rows show every status as often as the summary says, except unchanged rows left out. */
  lemma {:induction false} RowsMatchSummary(keys: seq<Key>, c: Comparison, includeUnchanged: bool, status: Status)
    ensures CountStatus(DiffsOf(keys, c, includeUnchanged), status)
         == if status == Unchanged && !includeUnchanged then 0 else CountKeys(keys, c, status)
  {
    hide RowsFor;
    hide StatusOf;
    hide CountStatus;
    if keys == [] {
      NoRowsCounted(status);
    } else {
      var front, last := keys[..|keys| - 1], keys[|keys| - 1];
      RowsMatchSummary(front, c, includeUnchanged, status);
      LastKey(keys, c, includeUnchanged, status);
      hide DiffsOf;
      hide CountKeys;
      CountRowsFor(DiffsOf(front, c, includeUnchanged), c, last, includeUnchanged, status);
    }
  }

  lemma NoRowsCounted(status: Status)
    ensures CountStatus([], status) == 0
  {
  }

  lemma LastKey(keys: seq<Key>, c: Comparison, includeUnchanged: bool, status: Status)
    requires keys != []
    ensures var front, last := keys[..|keys| - 1], keys[|keys| - 1];
            && DiffsOf(keys, c, includeUnchanged) == DiffsOf(front, c, includeUnchanged) + RowsFor(c, last, includeUnchanged)
            && CountKeys(keys, c, status) == CountKeys(front, c, status) + if StatusOf(c, last) == status then 1 else 0
  {
  }

  lemma CountRowsFor(rows: seq<Diff>, c: Comparison, k: Key, includeUnchanged: bool, status: Status)
    ensures CountStatus(rows + RowsFor(c, k, includeUnchanged), status)
         == CountStatus(rows, status)
            + if StatusOf(c, k) == status && (status != Unchanged || includeUnchanged) then 1 else 0
  {
    CountOneMore(rows, DiffOf(c, k), status);
    assert rows + [] == rows;
  }

  // ---------- comparing the other way round ----------

  function Swapped(s: Status): Status {
    match s
    case Added => Removed
    case Removed => Added
    case _ => s
  }

  /** The same row seen from the other side; only the displayed name may come from the other tree. */
  predicate Mirrors(d: Diff, e: Diff) {
    && d.key == e.key && d.childId == e.childId && e.status == Swapped(d.status)
    && e.qtyA == d.qtyB && e.qtyB == d.qtyA
    && (d.status == Added || d.status == Removed ==> e.name == d.name)
    && (d.delta.None? ==> e.delta.None?)
    && (d.delta.Some? ==> e.delta == Some(-d.delta.value))
    && e.shownA == d.shownB && e.shownB == d.shownA
  }

  predicate AllMirror(d: seq<Diff>, e: seq<Diff>) {
    |d| == |e| && forall i :: 0 <= i < |d| ==> Mirrors(d[i], e[i])
  }

  lemma KeyMirrors(c: Comparison, k: Key)
    requires k in c.Keys() && WellKeyed(c.a) && WellKeyed(c.b)
    ensures Mirrors(DiffOf(c, k), DiffOf(c.Flipped(), k))
    ensures StatusOf(c, k) == Unchanged <==> StatusOf(c.Flipped(), k) == Unchanged
  {
  }

  /** Comparing (B, A) gives the rows of (A, B) in the same order, mirrored, at any tolerance. */
  lemma {:induction false} SwapLaw(keys: seq<Key>, c: Comparison, includeUnchanged: bool)
    requires (forall k :: k in keys ==> k in c.Keys()) && WellKeyed(c.a) && WellKeyed(c.b)
    ensures AllMirror(DiffsOf(keys, c, includeUnchanged), DiffsOf(keys, c.Flipped(), includeUnchanged))
  {
    if keys != [] {
      SwapLaw(keys[..|keys| - 1], c, includeUnchanged);
      KeyMirrors(c, keys[|keys| - 1]);
    }
  }

  /** Two runs, one each way round, over trees whose labels tell keys apart: whatever order either run
      iterates its key set in, their rows mirror each other. */
  lemma SwapRuns(o: seq<Key>, p: seq<Key>, c: Comparison, includeUnchanged: bool)
    requires WellKeyed(c.a) && WellKeyed(c.b) && DistinctLabels(c.Keys())
    requires Enumerates(o, c.Keys()) && Enumerates(p, c.Flipped().Keys())
    ensures AllMirror(DiffsOf(SortByLabel(o), c, includeUnchanged),
                      DiffsOf(SortByLabel(p), c.Flipped(), includeUnchanged))
  {
    assert c.Flipped().Keys() == c.Keys();
    SortedWalkUnique(o, p, c.Keys());
    SortEnumerates(o, c.Keys());
    SwapLaw(SortByLabel(o), c, includeUnchanged);
  }

  /** Two trees compared both ways, each time with keys collected in whatever order: if no child id and no unit
      holds a colon, the two lists mirror each other row by row. */
  lemma SwapTrees(bomA: Node, bomB: Node, c: Comparison, d: Comparison, show: real -> string, o: seq<Key>, p: seq<Key>,
                  includeUnchanged: bool)
    requires Groups(c.a, Flatten(bomA), c.mode, show) && Groups(c.b, Flatten(bomB), c.mode, show)
    requires Groups(d.a, Flatten(bomB), d.mode, show) && Groups(d.b, Flatten(bomA), d.mode, show)
    requires d.mode == c.mode && d.tolerance == c.tolerance
    requires forall r :: (r in Flatten(bomA) || r in Flatten(bomB)) && Counts(r) ==> ':' !in r.childId && ':' !in r.uom
    requires Enumerates(o, c.Keys()) && Enumerates(p, d.Keys())
    ensures AllMirror(DiffsOf(SortByLabel(o), c, includeUnchanged), DiffsOf(SortByLabel(p), d, includeUnchanged))
  {
    GroupsUnique(c.a, d.b, Flatten(bomA), c.mode, show);
    GroupsUnique(c.b, d.a, Flatten(bomB), c.mode, show);
    assert d == c.Flipped();
    GroupsWellKeyed(c.a, Flatten(bomA), c.mode, show);
    GroupsWellKeyed(c.b, Flatten(bomB), c.mode, show);
    LabelsTellKeysApart(Flatten(bomA), Flatten(bomB), c.mode, show);
    SwapRuns(o, p, c, includeUnchanged);
  }

  /** A tree compared with itself shows only unchanged keys, unless the tolerance is negative and
      quantities are compared at all. */
  lemma SelfCompare(keys: seq<Key>, a: Entries, mode: Mode, tolerance: real)
    requires forall k :: k in keys ==> k in a
    ensures (forall k :: k in keys ==> StatusOf(Comparison(a, a, mode, tolerance), k) == Unchanged)
       <==> mode == OnlyProduct || tolerance >= 0.0 || keys == []
  {
    if mode != OnlyProduct && tolerance < 0.0 && keys != [] {
      assert keys[0] in keys && StatusOf(Comparison(a, a, mode, tolerance), keys[0]) == Modified;
    }
  }

  // ---------- filters ----------

  /** A pattern setting: none, one that does not compile, or a search. */
  datatype Pattern = NoPattern | Broken | Search(finds: string -> bool)

  datatype Filters = Filters(includeStatuses: seq<string>, excludeStatuses: seq<string>,
                             includeChildIds: seq<string>, excludeChildIds: seq<string>,
                             childIdPattern: Pattern, namePattern: Pattern, relIdPattern: Pattern,
                             minDelta: Option<real>, maxDelta: Option<real>)

  datatype Filtered = Rejected | Rows(diffs: seq<Diff>)

  function StatusText(s: Status): string {
    match s
    case Added => "added"
    case Removed => "removed"
    case Modified => "modified"
    case Unchanged => "unchanged"
  }

  const STATUSES := {"added", "removed", "modified", "unchanged"}

  /** The status names asked for, trimmed and lower-cased; blank ones are ignored. */
  function StatusNames(values: seq<string>): set<string> {
    set v | v in values && Strip(v) != "" :: Lower(Strip(v))
  }

  predicate Acceptable(f: Filters) {
    && StatusNames(f.includeStatuses) <= STATUSES && StatusNames(f.excludeStatuses) <= STATUSES
    && !f.childIdPattern.Broken? && !f.namePattern.Broken? && !f.relIdPattern.Broken?
    && (f.minDelta.Some? && f.maxDelta.Some? ==> f.minDelta.value <= f.maxDelta.value)
  }

  /** A status as a caller may write it, in any case and with blanks around it. */
  predicate Means(v: string, s: Status) {
    match s
    case Added => Lower(Strip(v)) == "added"
    case Removed => Lower(Strip(v)) == "removed"
    case Modified => Lower(Strip(v)) == "modified"
    case Unchanged => Lower(Strip(v)) == "unchanged"
  }

  lemma StatusTexts(s: Status, t: Status)
    ensures StatusText(s) == StatusText(t) ==> s == t
    ensures StatusText(s) != ""
  {
    assert StatusText(s) == StatusText(t) ==> StatusText(s)[0] == StatusText(t)[0];
  }

  /** A status is asked for if some value means it. */
  lemma AskedFor(values: seq<string>, s: Status)
    ensures StatusText(s) in StatusNames(values) <==> exists v :: v in values && Means(v, s)
  {
    forall v | v in values && Means(v, s) ensures StatusText(s) in StatusNames(values) {
      assert Lower(Strip(v)) == StatusText(s) && Strip(v) != "";
    }
    if StatusText(s) in StatusNames(values) {
      var v :| v in values && Strip(v) != "" && Lower(Strip(v)) == StatusText(s);
      assert Means(v, s);
    }
  }

  /** Status settings are accepted exactly when every value is blank or means a status. */
  lemma StatusesAccepted(values: seq<string>)
    ensures StatusNames(values) <= STATUSES <==> forall v :: v in values ==> Blank(v) || exists s :: Means(v, s)
  {
    forall v: string ensures Lower(Strip(v)) in STATUSES <==> exists s :: Means(v, s) {
      assert Lower(Strip(v)) == "added" ==> Means(v, Added);
      assert Lower(Strip(v)) == "removed" ==> Means(v, Removed);
      assert Lower(Strip(v)) == "modified" ==> Means(v, Modified);
      assert Lower(Strip(v)) == "unchanged" ==> Means(v, Unchanged);
    }
    forall v: string ensures Blank(v) <==> Strip(v) == "" {
      BlankIsStripped(v);
    }
    if StatusNames(values) <= STATUSES {
      forall v | v in values ensures Blank(v) || exists s :: Means(v, s) {
        if !Blank(v) {
          assert Lower(Strip(v)) in StatusNames(values);
        }
      }
    }
  }

  lemma NoneAsked(values: seq<string>)
    ensures StatusNames(values) == {} <==> forall v :: v in values ==> Blank(v)
  {
    forall v: string ensures Blank(v) <==> Strip(v) == "" {
      BlankIsStripped(v);
    }
    if v :| v in values && !Blank(v) {
      assert Lower(Strip(v)) in StatusNames(values);
    }
  }

  predicate Finds(p: Pattern, text: string) {
    p.Search? ==> p.finds(text)
  }

  /** Every condition that is set holds of the row. */
  predicate Meets(d: Diff, f: Filters) {
    && (StatusNames(f.includeStatuses) != {} ==> StatusText(d.status) in StatusNames(f.includeStatuses))
    && StatusText(d.status) !in StatusNames(f.excludeStatuses)
    && (f.includeChildIds != [] ==> d.childId in f.includeChildIds)
    && d.childId !in f.excludeChildIds
    && Finds(f.childIdPattern, d.childId)
    && Finds(f.namePattern, d.name)
    && (f.relIdPattern.Search? ==> exists r :: r in d.shownA.relIds + d.shownB.relIds && r != "" && f.relIdPattern.finds(r))
    && (f.minDelta.Some? ==> d.delta.Some? && d.delta.value >= f.minDelta.value)
    && (f.maxDelta.Some? ==> d.delta.Some? && d.delta.value <= f.maxDelta.value)
  }

  /** A row passes the status settings exactly when it is asked for, if any are, and not ruled out. */
  lemma StatusesMet(d: Diff, f: Filters)
    requires Meets(d, f.(includeStatuses := [], excludeStatuses := []))
    ensures Meets(d, f) <==>
              && ((forall v :: v in f.includeStatuses ==> Blank(v)) || exists v :: v in f.includeStatuses && Means(v, d.status))
              && !(exists v :: v in f.excludeStatuses && Means(v, d.status))
  {
    AskedFor(f.includeStatuses, d.status);
    AskedFor(f.excludeStatuses, d.status);
    NoneAsked(f.includeStatuses);
  }

  /** The rows at strictly increasing positions of `diffs` that are `kept`, and no others, meet the filters. */
  ghost predicate StableSelection(kept: seq<Diff>, diffs: seq<Diff>, f: Filters, at: seq<nat>) {
    && |at| == |kept|
    && (forall i :: 0 <= i < |at| ==> at[i] < |diffs| && kept[i] == diffs[at[i]])
    && (forall i, j :: 0 <= i < j < |at| ==> at[i] < at[j])
    && (forall n :: 0 <= n < |diffs| ==> (n in at <==> Meets(diffs[n], f)))
  }

  method FilterDiffs(diffs: seq<Diff>, f: Filters) returns (r: Filtered, ghost at: seq<nat>)
    ensures r.Rejected? <==> !Acceptable(f)
    ensures r.Rows? ==> StableSelection(r.diffs, diffs, f, at)
  {
    at := [];
    var includeStatuses := StatusNames(f.includeStatuses);
    var excludeStatuses := StatusNames(f.excludeStatuses);
    if !(includeStatuses <= STATUSES) || !(excludeStatuses <= STATUSES) {
      return Rejected, [];
    }
    if f.childIdPattern.Broken? || f.namePattern.Broken? || f.relIdPattern.Broken? {
      return Rejected, [];
    }
    if f.minDelta.Some? && f.maxDelta.Some? && f.minDelta.value > f.maxDelta.value {
      return Rejected, [];
    }
    var filtered: seq<Diff> := [];
    for i := 0 to |diffs|
      invariant StableSelection(filtered, diffs[..i], f, at)
    {
      SelectOneMore(filtered, diffs, i, f, at);
      var keep := Keeps(diffs[i], f, includeStatuses, excludeStatuses);
      if !keep {
        continue;
      }
      filtered := filtered + [diffs[i]];
      at := at + [i];
    }
    assert diffs[..|diffs|] == diffs;
    r := Rows(filtered);
  }

  lemma SelectOneMore(kept: seq<Diff>, diffs: seq<Diff>, i: nat, f: Filters, at: seq<nat>)
    requires i < |diffs| && StableSelection(kept, diffs[..i], f, at)
    ensures if Meets(diffs[i], f) then StableSelection(kept + [diffs[i]], diffs[..i + 1], f, at + [i])
            else StableSelection(kept, diffs[..i + 1], f, at)
  {
    var more := diffs[..i + 1];
    assert forall n :: 0 <= n < i ==> more[n] == diffs[..i][n];
    assert forall n :: n in at + [i] <==> n in at || n == i;
    assert forall n :: n in at ==> n < i;
  }

  /** The filter loop's tests on one row. */
  method Keeps(diff: Diff, f: Filters, includeStatuses: set<string>, excludeStatuses: set<string>) returns (keep: bool)
    requires includeStatuses == StatusNames(f.includeStatuses) && excludeStatuses == StatusNames(f.excludeStatuses)
    ensures keep <==> Meets(diff, f)
  {
    if includeStatuses != {} && StatusText(diff.status) !in includeStatuses {
      return false;
    }
    if StatusText(diff.status) in excludeStatuses {
      return false;
    }
    if f.includeChildIds != [] && diff.childId !in f.includeChildIds {
      return false;
    }
    if diff.childId in f.excludeChildIds {
      return false;
    }
    if f.childIdPattern.Search? && !f.childIdPattern.finds(diff.childId) {
      return false;
    }
    if f.namePattern.Search? && !f.namePattern.finds(diff.name) {
      return false;
    }
    if f.relIdPattern.Search? {
      var relIds := diff.shownA.relIds + diff.shownB.relIds;
      if !(exists r :: r in relIds && r != "" && f.relIdPattern.finds(r)) {
        return false;
      }
    }
    if f.minDelta.Some? {
      if diff.delta.None? || diff.delta.value < f.minDelta.value {
        return false;
      }
    }
    if f.maxDelta.Some? {
      if diff.delta.None? || diff.delta.value > f.maxDelta.value {
        return false;
      }
    }
    keep := true;
  }

  /** Counts the rows of each status. */
  method SummarizeDiffs(diffs: seq<Diff>) returns (summary: Summary)
    ensures forall s :: Get(summary, s) == CountStatus(diffs, s)
    ensures summary.added + summary.removed + summary.modified + summary.same == |diffs|
  {
    summary := EMPTY;
    for i := 0 to |diffs|
      invariant forall s :: Get(summary, s) == CountStatus(diffs[..i], s)
      invariant summary.added + summary.removed + summary.modified + summary.same == i
    {
      assert diffs[..i + 1][..i] == diffs[..i];
      summary := Bump(summary, diffs[i].status);
    }
    assert diffs[..|diffs|] == diffs;
  }

  /** The rows and counts of the response: filters, when given, replace the rows and add their own counts. */
  method Respond(diffs: seq<Diff>, filters: Option<Filters>)
    returns (r: Filtered, summaryFiltered: Option<Summary>, ghost at: seq<nat>)
    ensures r.Rejected? <==> filters.Some? && !Acceptable(filters.value)
    ensures r.Rows? && filters.None? ==> r.diffs == diffs && summaryFiltered == None
    ensures r.Rows? && filters.Some? ==>
              && StableSelection(r.diffs, diffs, filters.value, at)
              && summaryFiltered.Some? && forall s :: Get(summaryFiltered.value, s) == CountStatus(r.diffs, s)
  {
    r, summaryFiltered, at := Rows(diffs), None, [];
    if filters.Some? {
      r, at := FilterDiffs(diffs, filters.value);
      if r.Rows? {
        var summary := SummarizeDiffs(r.diffs);
        summaryFiltered := Some(summary);
      }
    }
  }
}
