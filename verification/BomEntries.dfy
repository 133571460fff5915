/** Grouping the lines of a bill of materials by key. */
module BomEntries {
  import opened BomLines

  datatype Entry = Entry(childId: string, name: string, qty: real, uoms: set<string>,
                         positions: set<string>, refdes: set<string>, relIds: seq<string>)

  type Entries = map<Key, Entry>

  /** What the lines of one key amount to. */
  ghost predicate Sums(e: Entry, lines: seq<Reading>, mode: Mode) {
    && lines != []
    && e.childId == lines[0].childId
    && e.name == lines[0].name
    && e.qty == (if mode == OnlyProduct then 0.0 else SumQty(lines))
    && e.uoms == (set r | r in lines :: r.uom)
    && e.positions == (set r | r in lines && r.position != "" :: r.position)
    && e.refdes == (set r | r in lines && r.refdes != "" :: r.refdes)
    && |e.relIds| == |lines| && forall i :: 0 <= i < |lines| ==> e.relIds[i] == lines[i].relId
  }

  /** One entry for every key that occurs, holding exactly that key's lines. */
  ghost predicate Groups(entries: Entries, lines: seq<Reading>, mode: Mode, show: real -> string) {
    && entries.Keys == KeysOf(lines, mode, show)
    && forall k :: k in entries ==> Sums(entries[k], Select(lines, mode, show, k), mode)
  }

  /** The entry a key starts with, before its first line is added. */
  function Fresh(r: Reading): Entry {
    Entry(r.childId, r.name, 0.0, {}, {}, {}, [])
  }

  /** Adds one line to the entry its key has so far. */
  function AddLine(e: Entry, r: Reading, mode: Mode): Entry {
    Entry(e.childId, e.name, if mode == OnlyProduct then e.qty else e.qty + r.qty, e.uoms + {r.uom},
          if r.position != "" then e.positions + {r.position} else e.positions,
          if r.refdes != "" then e.refdes + {r.refdes} else e.refdes,
          e.relIds + [r.relId])
  }

  lemma AddLineSums(e: Entry, lines: seq<Reading>, r: Reading, mode: Mode)
    requires if lines == [] then e == Fresh(r) else Sums(e, lines, mode)
    ensures Sums(AddLine(e, r, mode), lines + [r], mode)
  {
    TextsOneMore(lines, r);
    SumOneMore(lines, r);
  }

  /** The units, positions and designators with one more line. */
  lemma TextsOneMore(lines: seq<Reading>, r: Reading)
    ensures (set x | x in lines + [r] :: x.uom) == (set x | x in lines :: x.uom) + {r.uom}
    ensures (set x | x in lines + [r] && x.position != "" :: x.position)
         == (set x | x in lines && x.position != "" :: x.position) + if r.position != "" then {r.position} else {}
    ensures (set x | x in lines + [r] && x.refdes != "" :: x.refdes)
         == (set x | x in lines && x.refdes != "" :: x.refdes) + if r.refdes != "" then {r.refdes} else {}
  {
    assert forall x :: x in lines + [r] <==> x in lines || x == r;
  }

  lemma SumOneMore(lines: seq<Reading>, r: Reading)
    ensures SumQty(lines + [r]) == SumQty(lines) + r.qty
  {
    assert (lines + [r])[..|lines|] == lines;
  }

  lemma SelectOneMore(lines: seq<Reading>, i: nat, mode: Mode, show: real -> string, k: Key)
    requires i < |lines|
    ensures Select(lines[..i + 1], mode, show, k)
         == Select(lines[..i], mode, show, k) + if Matches(mode, show, lines[i], k) then [lines[i]] else []
  {
    assert lines[..i + 1][..i] == lines[..i];
  }

  lemma KeysOneMore(lines: seq<Reading>, i: nat, mode: Mode, show: real -> string)
    requires i < |lines|
    ensures KeysOf(lines[..i + 1], mode, show)
         == KeysOf(lines[..i], mode, show) + if Counts(lines[i]) then {KeyOf(mode, show, lines[i])} else {}
  {
    assert lines[..i + 1] == lines[..i] + [lines[i]];
    assert forall r :: r in lines[..i + 1] <==> r in lines[..i] || r == lines[i];
  }

  lemma {:induction false} SelectEmpty(lines: seq<Reading>, mode: Mode, show: real -> string, k: Key)
    ensures Select(lines, mode, show, k) == [] <==> k !in KeysOf(lines, mode, show)
  {
    if lines != [] {
      var i := |lines| - 1;
      SelectEmpty(lines[..i], mode, show, k);
      KeysOneMore(lines, i, mode, show);
      SelectOneMore(lines, i, mode, show, k);
      assert lines[..i + 1] == lines;
    }
  }

  /** The grouping with one more line. */
  function Grown(entries: Entries, r: Reading, mode: Mode, show: real -> string): Entries {
    var key := KeyOf(mode, show, r);
    if Counts(r) then entries[key := AddLine(if key in entries then entries[key] else Fresh(r), r, mode)] else entries
  }

  lemma OwnEntryGrows(entries: Entries, lines: seq<Reading>, i: nat, mode: Mode, show: real -> string)
    requires i < |lines| && Groups(entries, lines[..i], mode, show) && Counts(lines[i])
    ensures var k := KeyOf(mode, show, lines[i]);
            Sums(Grown(entries, lines[i], mode, show)[k], Select(lines[..i + 1], mode, show, k), mode)
  {
    var r := lines[i];
    var k := KeyOf(mode, show, r);
    var s := Select(lines[..i], mode, show, k);
    SelectEmpty(lines[..i], mode, show, k);
    AddLineSums(if k in entries then entries[k] else Fresh(r), s, r, mode);
    SelectOneMore(lines, i, mode, show, k);
  }

  lemma OtherEntriesStay(entries: Entries, lines: seq<Reading>, i: nat, mode: Mode, show: real -> string, k: Key)
    requires i < |lines| && Groups(entries, lines[..i], mode, show) && k in entries
    requires !Matches(mode, show, lines[i], k)
    ensures Sums(entries[k], Select(lines[..i + 1], mode, show, k), mode)
  {
    SelectOneMore(lines, i, mode, show, k);
    assert Select(lines[..i + 1], mode, show, k) == Select(lines[..i], mode, show, k);
  }

  lemma GrownKeys(entries: Entries, lines: seq<Reading>, i: nat, mode: Mode, show: real -> string)
    requires i < |lines| && entries.Keys == KeysOf(lines[..i], mode, show)
    ensures Grown(entries, lines[i], mode, show).Keys == KeysOf(lines[..i + 1], mode, show)
  {
    KeysOneMore(lines, i, mode, show);
  }

  lemma GroupsOneMore(entries: Entries, lines: seq<Reading>, i: nat, mode: Mode, show: real -> string)
    requires i < |lines| && Groups(entries, lines[..i], mode, show)
    ensures Groups(Grown(entries, lines[i], mode, show), lines[..i + 1], mode, show)
  {
    hide Sums;
    hide Select;
    var r := lines[i];
    var next := Grown(entries, r, mode, show);
    GrownKeys(entries, lines, i, mode, show);
    forall k | k in next ensures Sums(next[k], Select(lines[..i + 1], mode, show, k), mode) {
      if Matches(mode, show, r, k) {
        OwnEntryGrows(entries, lines, i, mode, show);
      } else {
        OtherEntriesStay(entries, lines, i, mode, show, k);
      }
    }
  }

  /** The statements that add one line to an entry. */
  method Extend(e: Entry, r: Reading, mode: Mode) returns (entry: Entry)
    ensures entry == AddLine(e, r, mode)
  {
    entry := e.(relIds := e.relIds + [r.relId], uoms := e.uoms + {r.uom});
    if r.position != "" {
      entry := entry.(positions := entry.positions + {r.position});
    }
    if r.refdes != "" {
      entry := entry.(refdes := entry.refdes + {r.refdes});
    }
    if mode == OnlyProduct {
      return;
    }
    entry := entry.(qty := entry.qty + r.qty);
  }

  method ExtractEntries(tree: Node, mode: Mode, show: real -> string) returns (entries: Entries)
    ensures Groups(entries, Flatten(tree), mode, show)
  {
    entries := map[];
    var lines := Flatten(tree);
    var i := 0;
    while i < |lines|
      invariant 0 <= i <= |lines| && Groups(entries, lines[..i], mode, show)
    {
      var r := lines[i];
      GroupsOneMore(entries, lines, i, mode, show);
      i := i + 1;
      if !Counts(r) {
        continue;
      }
      var key := KeyOf(mode, show, r);
      var entry := if key in entries then entries[key] else Fresh(r);
      entry := Extend(entry, r, mode);
      entries := entries[key := entry];
    }
    assert lines[..|lines|] == lines;
  }

  /** Grouping is a function of the lines: there is one way to do it. */
  lemma GroupsUnique(a: Entries, b: Entries, lines: seq<Reading>, mode: Mode, show: real -> string)
    requires Groups(a, lines, mode, show) && Groups(b, lines, mode, show)
    ensures a == b
  {
    forall k | k in a ensures k in b && a[k] == b[k] {
      var s := Select(lines, mode, show, k);
      assert Sums(a[k], s, mode) && Sums(b[k], s, mode);
      assert a[k].relIds == b[k].relIds;
    }
    assert a.Keys == b.Keys;
  }

  /** Everything but the displayed name and the order of the relationship ids. */
  ghost predicate SameContents(a: Entry, b: Entry) {
    && a.childId == b.childId && a.qty == b.qty
    && a.uoms == b.uoms && a.positions == b.positions && a.refdes == b.refdes
    && multiset(a.relIds) == multiset(b.relIds)
  }

  /** Every entry sits under the key that begins with its child. */
  ghost predicate WellKeyed(entries: Entries) {
    forall k :: k in entries ==> k != [] && entries[k].childId == k[0]
  }

  lemma GroupsWellKeyed(entries: Entries, lines: seq<Reading>, mode: Mode, show: real -> string)
    requires Groups(entries, lines, mode, show)
    ensures WellKeyed(entries)
  {
    forall k | k in entries ensures k != [] && entries[k].childId == k[0] {
      var s := Select(lines, mode, show, k);
      assert Sums(entries[k], s, mode);
      assert s[0] in s && Matches(mode, show, s[0], k);
    }
  }

  function RelIds(lines: seq<Reading>): seq<string> {
    seq(|lines|, i requires 0 <= i < |lines| => lines[i].relId)
  }

  /** Selecting commutes with counting: how often a line is selected is how often it is there. */
  lemma {:induction false} SelectMultiplicity(lines: seq<Reading>, mode: Mode, show: real -> string, k: Key, r: Reading)
    ensures multiset(Select(lines, mode, show, k))[r] == if Matches(mode, show, r, k) then multiset(lines)[r] else 0
  {
    if lines != [] {
      var i := |lines| - 1;
      SelectMultiplicity(lines[..i], mode, show, k, r);
      assert lines == lines[..i] + [lines[i]];
    }
  }

  /** The lines of a key are those with a child id that have it, each as often as it is there; and the keys are those of
      such lines. */
  lemma LinesOfKey(lines: seq<Reading>, mode: Mode, show: real -> string, k: Key, r: Reading)
    ensures multiset(Select(lines, mode, show, k))[r]
         == if r.childId != "" && KeyOf(mode, show, r) == k then multiset(lines)[r] else 0
    ensures k in KeysOf(lines, mode, show) <==> exists t :: t in lines && t.childId != "" && KeyOf(mode, show, t) == k
  {
    SelectMultiplicity(lines, mode, show, k, r);
  }

  lemma SelectSameLines(xs: seq<Reading>, ys: seq<Reading>, mode: Mode, show: real -> string, k: Key)
    requires multiset(xs) == multiset(ys)
    ensures multiset(Select(xs, mode, show, k)) == multiset(Select(ys, mode, show, k))
  {
    forall r ensures multiset(Select(xs, mode, show, k))[r] == multiset(Select(ys, mode, show, k))[r] {
      SelectMultiplicity(xs, mode, show, k, r);
      SelectMultiplicity(ys, mode, show, k, r);
    }
  }

  /** Permuted lines have permuted relationship ids. */
  lemma {:induction false} RelIdsPermuted(xs: seq<Reading>, ys: seq<Reading>)
    requires multiset(xs) == multiset(ys)
    ensures multiset(RelIds(xs)) == multiset(RelIds(ys))
    decreases |xs|
  {
    if xs == [] {
      assert |multiset(ys)| == 0;
      assert ys == [];
    } else {
      assert xs[0] in multiset(xs);
      var j :| 0 <= j < |ys| && ys[j] == xs[0];
      TakeOutMultiset(xs, 0);
      TakeOutMultiset(ys, j);
      assert multiset(TakeOut(xs, 0)) == multiset(xs) - multiset{xs[0]};
      assert multiset(TakeOut(ys, j)) == multiset(ys) - multiset{ys[j]};
      RelIdsPermuted(TakeOut(xs, 0), TakeOut(ys, j));
      RelIdsTakeOut(xs, 0);
      RelIdsTakeOut(ys, j);
    }
  }

  lemma RelIdsTakeOut(lines: seq<Reading>, j: nat)
    requires j < |lines|
    ensures multiset(RelIds(lines)) == multiset{lines[j].relId} + multiset(RelIds(TakeOut(lines, j)))
  {
    TakeOutMultiset(RelIds(lines), j);
    assert TakeOut(RelIds(lines), j) == RelIds(TakeOut(lines, j));
  }

  /** Entries that sum up permuted lines agree but for the name. */
  lemma SumsPermuted(a: Entry, b: Entry, s: seq<Reading>, t: seq<Reading>, mode: Mode)
    requires Sums(a, s, mode) && Sums(b, t, mode) && multiset(s) == multiset(t)
    requires SumQty(s) == SumQty(t) && s[0].childId == t[0].childId
    ensures SameContents(a, b)
  {
    forall r ensures r in s <==> r in t {
      assert r in s <==> r in multiset(s);
      assert r in t <==> r in multiset(t);
    }
    RelIdsPermuted(s, t);
    assert a.relIds == RelIds(s) && b.relIds == RelIds(t);
  }

  lemma SelectedChild(lines: seq<Reading>, mode: Mode, show: real -> string, k: Key)
    requires Select(lines, mode, show, k) != []
    ensures k != [] && Select(lines, mode, show, k)[0].childId == k[0]
  {
    var s := Select(lines, mode, show, k);
    assert s[0] in s && Matches(mode, show, s[0], k);
  }

  /** Reordering children changes nothing of an entry but the displayed name and the order of its relationship ids. */
  lemma ReorderKeepsEntries(a: Node, b: Node, ea: Entries, eb: Entries, mode: Mode, show: real -> string)
    requires Reordered(a, b)
    requires Groups(ea, Flatten(a), mode, show) && Groups(eb, Flatten(b), mode, show)
    ensures ea.Keys == eb.Keys
    ensures forall k :: k in ea ==> SameContents(ea[k], eb[k])
  {
    var xs, ys := Flatten(a), Flatten(b);
    ReorderKeepsQuantities(a, b, mode, show);
    ReorderedSameLines(a, b);
    forall k | k in ea ensures SameContents(ea[k], eb[k]) {
      var s, t := Select(xs, mode, show, k), Select(ys, mode, show, k);
      assert Sums(ea[k], s, mode) && Sums(eb[k], t, mode);
      assert QtyOf(xs, mode, show, k) == QtyOf(ys, mode, show, k);
      SelectedChild(xs, mode, show, k);
      SelectedChild(ys, mode, show, k);
      SelectSameLines(xs, ys, mode, show, k);
      SumsPermuted(ea[k], eb[k], s, t, mode);
    }
  }
}
