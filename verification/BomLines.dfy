/** The lines of a bill of materials: flattening the tree, and what identifies a line. */
module BomLines {
  import opened Sequences
  import opened Options
  import opened Text

  /** A quantity as found: absent, a number, or a text together with the number it reads as, if any. */
  datatype Quantity = Missing | Number(value: real) | Written(parsed: Option<real>)

  /** A relationship with the properties the comparison looks up. `""` stands for an absent text. */
  datatype Relation = Relation(id: string, relatedId: string, quantity: Quantity, qty: Quantity,
                               uom: Option<string>, position: string, refdes: string)

  datatype Node = Node(id: string, name: string, itemNumber: string, children: seq<Line>)

  datatype Line = Line(rel: Relation, child: Node)

  /** One line of the flattened tree, as the comparison reads it. */
  datatype Reading = Reading(relId: string, childId: string, name: string, qty: real,
                             uom: string, position: string, refdes: string)

  datatype Mode = OnlyProduct | Summarized | NumQty | ByPosition | ByReference | Other

  type Key = seq<string>

  function ParseQuantity(q: Quantity): real {
    match q
    case Missing => 1.0
    case Number(r) => r
    case Written(p) => if p.Some? then p.value else 1.0
  }

  function NormalizeUom(uom: Option<string>): string {
    var text := if uom.Some? then Strip(uom.value) else "";
    Upper(if text == "" then "EA" else text)
  }

  function Read(rel: Relation, child: Node): Reading {
    Reading(rel.id,
            if child.id != "" then child.id else rel.relatedId,
            if child.name != "" then child.name else child.itemNumber,
            ParseQuantity(if rel.quantity.Missing? then rel.qty else rel.quantity),
            NormalizeUom(rel.uom), rel.position, rel.refdes)
  }

  /** Every relation of the tree, each before the relations below it. */
  function Flatten(node: Node): seq<Reading>
    decreases node
  {
    FlattenLines(node.children)
  }

  function FlattenLine(l: Line): seq<Reading>
    decreases l
  {
    [Read(l.rel, l.child)] + Flatten(l.child)
  }

  function FlattenLines(lines: seq<Line>): seq<Reading>
    decreases lines
  {
    if lines == [] then [] else FlattenLine(lines[0]) + FlattenLines(lines[1..])
  }

  /** What identifies a line in a mode; `show` writes a quantity as text. */
  function KeyOf(mode: Mode, show: real -> string, r: Reading): (k: Key)
    ensures k != [] && k[0] == r.childId
    ensures mode != OnlyProduct ==> |k| >= 2 && k[..2] == [r.childId, r.uom]
  {
    match mode
    case OnlyProduct => [r.childId]
    case Summarized => [r.childId, r.uom]
    case NumQty => [r.childId, r.uom, show(r.qty)]
    case ByPosition => [r.childId, r.uom, r.position]
    case ByReference => [r.childId, r.uom, r.refdes]
    case Other => [r.childId, r.uom]
  }

  /** Lines without a child id are passed over. */
  predicate Counts(r: Reading) {
    r.childId != ""
  }

  predicate Matches(mode: Mode, show: real -> string, r: Reading, k: Key) {
    Counts(r) && KeyOf(mode, show, r) == k
  }

  /** The lines with a given key, in order. */
  function Select(lines: seq<Reading>, mode: Mode, show: real -> string, k: Key): (s: seq<Reading>)
    ensures forall r :: r in s ==> r in lines && Matches(mode, show, r, k)
  {
    if lines == [] then []
    else
      var last := lines[|lines| - 1];
      Select(lines[..|lines| - 1], mode, show, k) + if Matches(mode, show, last, k) then [last] else []
  }

  function SumQty(lines: seq<Reading>): real {
    if lines == [] then 0.0 else SumQty(lines[..|lines| - 1]) + lines[|lines| - 1].qty
  }

  /** The quantity all lines with a key add up to. */
  function QtyOf(lines: seq<Reading>, mode: Mode, show: real -> string, k: Key): real {
    SumQty(Select(lines, mode, show, k))
  }

  function KeysOf(lines: seq<Reading>, mode: Mode, show: real -> string): set<Key> {
    set r | r in lines && Counts(r) :: KeyOf(mode, show, r)
  }

  // ---------- conservation and roll-up ----------

  /** `None` takes every key; `Some` the keys of one child and unit. */
  predicate InGroup(k: Key, group: Option<Key>) {
    group.None? || (|k| >= 2 && k[..2] == group.value)
  }

  predicate LineInGroup(r: Reading, group: Option<Key>) {
    Counts(r) && (group.None? || [r.childId, r.uom] == group.value)
  }

  function SumKeys(keys: seq<Key>, lines: seq<Reading>, mode: Mode, show: real -> string, group: Option<Key>): real {
    if keys == [] then 0.0
    else
      var first := if InGroup(keys[0], group) then QtyOf(lines, mode, show, keys[0]) else 0.0;
      first + SumKeys(keys[1..], lines, mode, show, group)
  }

  function GroupQty(lines: seq<Reading>, group: Option<Key>): real {
    if lines == [] then 0.0
    else
      var last := lines[|lines| - 1];
      GroupQty(lines[..|lines| - 1], group) + if LineInGroup(last, group) then last.qty else 0.0
  }

  /** One more line adds its quantity under its own key and nowhere else. */
  lemma {:induction false} SumKeysOneMore(keys: seq<Key>, lines: seq<Reading>, mode: Mode, show: real -> string, group: Option<Key>)
    requires Distinct(keys) && lines != [] && mode != OnlyProduct
    ensures var last := lines[|lines| - 1];
            SumKeys(keys, lines, mode, show, group) == SumKeys(keys, lines[..|lines| - 1], mode, show, group)
              + if LineInGroup(last, group) && KeyOf(mode, show, last) in keys then last.qty else 0.0
  {
    var last := lines[|lines| - 1];
    if keys != [] {
      var k := keys[0];
      assert Distinct(keys[1..]);
      SumKeysOneMore(keys[1..], lines, mode, show, group);
      assert KeyOf(mode, show, last) in keys <==> KeyOf(mode, show, last) == k || KeyOf(mode, show, last) in keys[1..];
      assert KeyOf(mode, show, last) == k ==> k !in keys[1..];
      OneMore(lines, mode, show, k);
    }
  }

  lemma OneMore(lines: seq<Reading>, mode: Mode, show: real -> string, k: Key)
    requires lines != []
    ensures var last := lines[|lines| - 1];
            QtyOf(lines, mode, show, k) == QtyOf(lines[..|lines| - 1], mode, show, k)
              + if Matches(mode, show, last, k) then last.qty else 0.0
  {
    var last := lines[|lines| - 1];
    var s := Select(lines[..|lines| - 1], mode, show, k);
    if Matches(mode, show, last, k) {
      assert (s + [last])[..|s|] == s;
    } else {
      assert s + [] == s;
    }
  }

  /** Summing a grouping over its keys, all of them or those of one child and unit, gives the sum
      over the lines themselves. */
  lemma {:induction false} KeysAddUp(keys: seq<Key>, lines: seq<Reading>, mode: Mode, show: real -> string, group: Option<Key>)
    requires Distinct(keys) && mode != OnlyProduct
    requires forall r :: r in lines && Counts(r) ==> KeyOf(mode, show, r) in keys
    ensures SumKeys(keys, lines, mode, show, group) == GroupQty(lines, group)
  {
    if lines == [] {
      NoLinesNoQty(keys, mode, show, group);
    } else {
      var front := lines[..|lines| - 1];
      assert forall r :: r in front ==> r in lines;
      KeysAddUp(keys, front, mode, show, group);
      SumKeysOneMore(keys, lines, mode, show, group);
      assert lines[|lines| - 1] in lines;
    }
  }

  lemma {:induction false} NoLinesNoQty(keys: seq<Key>, mode: Mode, show: real -> string, group: Option<Key>)
    ensures SumKeys(keys, [], mode, show, group) == 0.0
  {
    if keys != [] {
      NoLinesNoQty(keys[1..], mode, show, group);
    }
  }

  /** The summarized quantity of a child and unit is the quantity of its lines. */
  lemma {:induction false} SummarizedIsGroup(lines: seq<Reading>, show: real -> string, g: Key)
    ensures QtyOf(lines, Summarized, show, g) == GroupQty(lines, Some(g))
  {
    if lines != [] {
      SummarizedIsGroup(lines[..|lines| - 1], show, g);
      OneMore(lines, Summarized, show, g);
    }
  }

  /** Adding up a finer mode's quantities for one child and unit gives the summarized quantity. */
  lemma RollUp(keys: seq<Key>, lines: seq<Reading>, mode: Mode, show: real -> string, g: Key)
    requires Distinct(keys) && mode != OnlyProduct
    requires forall k :: k in keys <==> k in KeysOf(lines, mode, show)
    ensures SumKeys(keys, lines, mode, show, Some(g)) == QtyOf(lines, Summarized, show, g)
  {
    KeysAddUp(keys, lines, mode, show, Some(g));
    SummarizedIsGroup(lines, show, g);
  }

  /** No quantity is lost or counted twice: all keys together carry the quantity of all counted lines. */
  lemma Conservation(keys: seq<Key>, lines: seq<Reading>, mode: Mode, show: real -> string)
    requires Distinct(keys) && mode != OnlyProduct
    requires forall k :: k in keys <==> k in KeysOf(lines, mode, show)
    ensures SumKeys(keys, lines, mode, show, None) == GroupQty(lines, None)
  {
    KeysAddUp(keys, lines, mode, show, None);
  }

  // ---------- the order of children does not matter ----------

  /** The same tree with children in another order, at any level. */
  ghost predicate Reordered(a: Node, b: Node)
    decreases a
  {
    a.id == b.id && a.name == b.name && a.itemNumber == b.itemNumber && ReorderedLines(a.children, b.children)
  }

  ghost predicate ReorderedLine(x: Line, y: Line)
    decreases x
  {
    x.rel == y.rel && Reordered(x.child, y.child)
  }

  ghost predicate ReorderedLines(xs: seq<Line>, ys: seq<Line>)
    decreases xs
  {
    if xs == [] then ys == []
    else exists j :: 0 <= j < |ys| && ReorderedLine(xs[0], ys[j]) && ReorderedLines(xs[1..], TakeOut(ys, j))
  }

  function TakeOut<T>(s: seq<T>, j: nat): seq<T>
    requires j < |s|
  {
    s[..j] + s[j + 1..]
  }

  lemma TakeOutMultiset<T>(s: seq<T>, j: nat)
    requires j < |s|
    ensures multiset(s) == multiset{s[j]} + multiset(TakeOut(s, j))
  {
    assert s == s[..j] + ([s[j]] + s[j + 1..]);
  }

  lemma {:induction false} FlattenSplit(xs: seq<Line>, ys: seq<Line>)
    ensures multiset(FlattenLines(xs + ys)) == multiset(FlattenLines(xs)) + multiset(FlattenLines(ys))
    decreases |xs|
  {
    if xs == [] {
      assert xs + ys == ys;
    } else {
      assert (xs + ys)[1..] == xs[1..] + ys;
      FlattenSplit(xs[1..], ys);
    }
  }

  lemma FlattenTakeOut(ys: seq<Line>, j: nat)
    requires j < |ys|
    ensures multiset(FlattenLines(ys)) == multiset(FlattenLine(ys[j])) + multiset(FlattenLines(TakeOut(ys, j)))
  {
    assert ys == ys[..j] + ys[j..] && ys[j..][1..] == ys[j + 1..];
    FlattenSplit(ys[..j], ys[j..]);
    FlattenSplit(ys[..j], ys[j + 1..]);
  }

  lemma {:induction false} ReorderedSameLines(a: Node, b: Node)
    requires Reordered(a, b)
    ensures multiset(Flatten(a)) == multiset(Flatten(b))
    decreases a
  {
    ReorderedLinesSameLines(a.children, b.children);
  }

  lemma {:induction false} ReorderedLineSameLines(x: Line, y: Line)
    requires ReorderedLine(x, y)
    ensures multiset(FlattenLine(x)) == multiset(FlattenLine(y))
    decreases x
  {
    ReorderedSameLines(x.child, y.child);
  }

  lemma {:induction false} ReorderedLinesSameLines(xs: seq<Line>, ys: seq<Line>)
    requires ReorderedLines(xs, ys)
    ensures multiset(FlattenLines(xs)) == multiset(FlattenLines(ys))
    decreases xs
  {
    if xs != [] {
      var j :| 0 <= j < |ys| && ReorderedLine(xs[0], ys[j]) && ReorderedLines(xs[1..], TakeOut(ys, j));
      ReorderedLineSameLines(xs[0], ys[j]);
      ReorderedLinesSameLines(xs[1..], TakeOut(ys, j));
      FlattenTakeOut(ys, j);
    }
  }

  lemma {:induction false} QtySplit(xs: seq<Reading>, ys: seq<Reading>, mode: Mode, show: real -> string, k: Key)
    ensures QtyOf(xs + ys, mode, show, k) == QtyOf(xs, mode, show, k) + QtyOf(ys, mode, show, k)
    decreases |ys|
  {
    if ys == [] {
      assert xs + ys == xs;
    } else {
      assert (xs + ys)[..|xs + ys| - 1] == xs + ys[..|ys| - 1];
      QtySplit(xs, ys[..|ys| - 1], mode, show, k);
      OneMore(xs + ys, mode, show, k);
      OneMore(ys, mode, show, k);
    }
  }

  /** Quantities depend on which lines there are, not on their order. */
  lemma {:induction false} SameLinesSameQty(xs: seq<Reading>, ys: seq<Reading>, mode: Mode, show: real -> string, k: Key)
    requires multiset(xs) == multiset(ys)
    ensures QtyOf(xs, mode, show, k) == QtyOf(ys, mode, show, k)
    decreases |xs|
  {
    if xs == [] {
      assert |multiset(ys)| == 0;
    } else {
      var front, last := xs[..|xs| - 1], xs[|xs| - 1];
      assert TakeOut(xs, |xs| - 1) == front;
      TakeOutMultiset(xs, |xs| - 1);
      assert last in multiset(ys);
      var j :| 0 <= j < |ys| && ys[j] == last;
      TakeOutMultiset(ys, j);
      assert multiset(front) == multiset(xs) - multiset{last} == multiset(TakeOut(ys, j));
      SameLinesSameQty(front, TakeOut(ys, j), mode, show, k);
      OneMore(xs, mode, show, k);
      QtyTakeOut(ys, j, mode, show, k);
    }
  }

  lemma QtyTakeOut(ys: seq<Reading>, j: nat, mode: Mode, show: real -> string, k: Key)
    requires j < |ys|
    ensures QtyOf(ys, mode, show, k)
         == QtyOf(TakeOut(ys, j), mode, show, k) + if Matches(mode, show, ys[j], k) then ys[j].qty else 0.0
  {
    assert ys == ys[..j + 1] + ys[j + 1..] && ys[..j + 1][..j] == ys[..j];
    QtySplit(ys[..j + 1], ys[j + 1..], mode, show, k);
    QtySplit(ys[..j], ys[j + 1..], mode, show, k);
    OneMore(ys[..j + 1], mode, show, k);
  }

  /** Putting children in another order, anywhere in the tree, changes neither the keys nor any quantity. */
  lemma ReorderKeepsQuantities(a: Node, b: Node, mode: Mode, show: real -> string)
    requires Reordered(a, b)
    ensures KeysOf(Flatten(a), mode, show) == KeysOf(Flatten(b), mode, show)
    ensures forall k :: QtyOf(Flatten(a), mode, show, k) == QtyOf(Flatten(b), mode, show, k)
  {
    var xs, ys := Flatten(a), Flatten(b);
    ReorderedSameLines(a, b);
    forall k ensures QtyOf(xs, mode, show, k) == QtyOf(ys, mode, show, k) {
      SameLinesSameQty(xs, ys, mode, show, k);
    }
    assert forall r :: r in xs <==> r in multiset(xs);
    assert forall r :: r in ys <==> r in multiset(ys);
  }
}
