/** What flattening makes of a tree: every line at any depth once, in preorder, with what its relation says. */
module BomReadings {
  import opened Options
  import opened Text
  import opened BomLines

  // ---------- one line ----------

  /** What a quantity counts for: an absent or unreadable one counts once. */
  predicate Amounts(q: Quantity, amount: real) {
    && (q.Missing? ==> amount == 1.0) && (q.Number? ==> amount == q.value)
    && (q.Written? && q.parsed.Some? ==> amount == q.parsed.value) && (q.Written? && q.parsed.None? ==> amount == 1.0)
  }

  /** A unit is its text without surrounding blanks, in upper case; without any it is `EA`. */
  ghost predicate IsUnit(text: Option<string>, unit: string) {
    if text.None? || Blank(text.value) then unit == "EA"
    else exists front, core, back :: Pads(text.value, front, core, back) && unit == Upper(core)
  }

  ghost predicate Pads(text: string, front: string, core: string, back: string) {
    text == front + core + back && Blank(front) && Blank(back) && Trimmed(core) && core != ""
  }

  /** A reading says of a line what its relation and its child say. */
  ghost predicate Says(r: Reading, l: Line) {
    && r.relId == l.rel.id && r.position == l.rel.position && r.refdes == l.rel.refdes
    && (l.child.id != "" ==> r.childId == l.child.id) && (l.child.id == "" ==> r.childId == l.rel.relatedId)
    && (l.child.name != "" ==> r.name == l.child.name) && (l.child.name == "" ==> r.name == l.child.itemNumber)
    && (!l.rel.quantity.Missing? ==> Amounts(l.rel.quantity, r.qty)) && (l.rel.quantity.Missing? ==> Amounts(l.rel.qty, r.qty))
    && IsUnit(l.rel.uom, r.uom)
  }

  lemma ReadSays(l: Line)
    ensures Says(Read(l.rel, l.child), l)
  {
    if l.rel.uom.Some? {
      var text := l.rel.uom.value;
      var front, back := StripShape(text);
      BlankIsStripped(text);
      if !Blank(text) {
        assert Pads(text, front, Strip(text), back);
      }
    }
    assert Upper("EA") == "EA";
  }

  // ---------- all lines ----------

  /** The way to a line: which child, which of its children, and so on. */
  type Path = seq<nat>

  function LineAt(lines: seq<Line>, path: Path): Option<Line>
    decreases |path|
  {
    if path == [] || path[0] >= |lines| then None
    else if |path| == 1 then Some(lines[path[0]])
    else LineAt(lines[path[0]].child.children, path[1..])
  }

  /** Preorder: a line stands before the lines below it, and these before its next sibling. */
  predicate Precedes(p: Path, q: Path) {
    q != [] && (p == [] || p[0] < q[0] || (p[0] == q[0] && Precedes(p[1..], q[1..])))
  }

  /** The readings are those of the lines at the paths, which lead to all lines there are, in preorder. */
  ghost predicate Visits(paths: seq<Path>, lines: seq<Line>, readings: seq<Reading>) {
    && |paths| == |readings|
    && (forall i :: 0 <= i < |paths| ==> LineAt(lines, paths[i]).Some? && Says(readings[i], LineAt(lines, paths[i]).value))
    && (forall i, j :: 0 <= i < j < |paths| ==> Precedes(paths[i], paths[j]))
    && (forall p: Path :: LineAt(lines, p).Some? ==> p in paths)
  }

  /** The paths of the first line's children, and of its siblings. */
  function Below(paths: seq<Path>): (r: seq<Path>)
    ensures |r| == |paths|
  {
    seq(|paths|, i requires 0 <= i < |paths| => [0] + paths[i])
  }

  function Behind(paths: seq<Path>): (r: seq<Path>)
    requires forall i :: 0 <= i < |paths| ==> paths[i] != []
    ensures |r| == |paths|
  {
    seq(|paths|, i requires 0 <= i < |paths| => [paths[i][0] + 1] + paths[i][1..])
  }

  /** What the lines below the first one contribute: their paths, with their readings, in order, and all of them. */
  ghost predicate BelowPart(paths: seq<Path>, lines: seq<Line>, readings: seq<Reading>) {
    && |paths| == |readings|
    && (forall i :: 0 <= i < |paths| ==> |paths[i]| > 1 && paths[i][0] == 0)
    && (forall i :: 0 <= i < |paths| ==> LineAt(lines, paths[i]).Some? && Says(readings[i], LineAt(lines, paths[i]).value))
    && (forall i, j :: 0 <= i < j < |paths| ==> Precedes(paths[i], paths[j]))
    && (forall p: Path :: |p| > 1 && p[0] == 0 && LineAt(lines, p).Some? ==> p in paths)
  }

  /** And what the lines behind it contribute. */
  ghost predicate BehindPart(paths: seq<Path>, lines: seq<Line>, readings: seq<Reading>) {
    && |paths| == |readings|
    && (forall i :: 0 <= i < |paths| ==> paths[i] != [] && paths[i][0] > 0)
    && (forall i :: 0 <= i < |paths| ==> LineAt(lines, paths[i]).Some? && Says(readings[i], LineAt(lines, paths[i]).value))
    && (forall i, j :: 0 <= i < j < |paths| ==> Precedes(paths[i], paths[j]))
    && (forall p: Path :: p != [] && p[0] > 0 && LineAt(lines, p).Some? ==> p in paths)
  }

  lemma BelowVisits(below: seq<Path>, l: Line, tail: seq<Line>, inner: seq<Reading>)
    requires Visits(below, l.child.children, inner)
    ensures BelowPart(Below(below), [l] + tail, inner)
  {
    BelowSays(below, l, tail, inner);
    BelowOrdered(below);
    hide LineAt;
    hide Says;
    hide Precedes;
    forall p: Path | |p| > 1 && p[0] == 0 && LineAt([l] + tail, p).Some? ensures p in Below(below) {
      LineBelow(l, tail, p[1..]);
      assert [0] + p[1..] == p;
      var i :| 0 <= i < |below| && below[i] == p[1..];
      assert Below(below)[i] == p;
    }
  }

  lemma BelowSays(below: seq<Path>, l: Line, tail: seq<Line>, inner: seq<Reading>)
    requires Visits(below, l.child.children, inner)
    ensures forall i :: 0 <= i < |below| ==> |Below(below)[i]| > 1 && Below(below)[i][0] == 0
    ensures forall i :: 0 <= i < |below| ==>
              LineAt([l] + tail, Below(below)[i]).Some? && Says(inner[i], LineAt([l] + tail, Below(below)[i]).value)
  {
    hide Says;
    hide Precedes;
    forall i | 0 <= i < |below| ensures below[i] != [] && LineAt([l] + tail, Below(below)[i]) == LineAt(l.child.children, below[i]) {
      assert LineAt(l.child.children, below[i]).Some?;
      LineBelow(l, tail, below[i]);
    }
  }

  lemma BelowOrdered(below: seq<Path>)
    requires forall i, j :: 0 <= i < j < |below| ==> Precedes(below[i], below[j])
    ensures forall i, j :: 0 <= i < j < |below| ==> Precedes(Below(below)[i], Below(below)[j])
  {
    forall i, j | 0 <= i < j < |below| ensures Precedes(Below(below)[i], Below(below)[j]) {
      assert Precedes(below[i], below[j]);
      assert ([0] + below[i])[1..] == below[i] && ([0] + below[j])[1..] == below[j];
    }
  }

  lemma LineBelow(l: Line, tail: seq<Line>, q: Path)
    requires q != []
    ensures LineAt([l] + tail, [0] + q) == LineAt(l.child.children, q)
  {
    var p: Path := [0] + q;
    assert p[1..] == q;
  }

  lemma BehindVisits(rest: seq<Path>, l: Line, tail: seq<Line>, outer: seq<Reading>)
    requires Visits(rest, tail, outer)
    ensures (forall i :: 0 <= i < |rest| ==> rest[i] != []) && BehindPart(Behind(rest), [l] + tail, outer)
  {
    forall i | 0 <= i < |rest| ensures rest[i] != [] {
      assert LineAt(tail, rest[i]).Some?;
    }
    BehindSays(rest, l, tail, outer);
    BehindOrdered(rest);
    hide LineAt;
    hide Says;
    hide Precedes;
    forall p: Path | p != [] && p[0] > 0 && LineAt([l] + tail, p).Some? ensures p in Behind(rest) {
      BehindFound(rest, l, tail, outer, p);
    }
  }

  lemma BehindSays(rest: seq<Path>, l: Line, tail: seq<Line>, outer: seq<Reading>)
    requires Visits(rest, tail, outer) && forall i :: 0 <= i < |rest| ==> rest[i] != []
    ensures forall i :: 0 <= i < |rest| ==> Behind(rest)[i] != [] && Behind(rest)[i][0] > 0
    ensures forall i :: 0 <= i < |rest| ==>
              LineAt([l] + tail, Behind(rest)[i]).Some? && Says(outer[i], LineAt([l] + tail, Behind(rest)[i]).value)
  {
    hide LineAt;
    hide Says;
    hide Precedes;
    forall i | 0 <= i < |rest| ensures LineAt([l] + tail, Behind(rest)[i]) == LineAt(tail, rest[i]) {
      LineBehind(l, tail, rest[i]);
    }
  }

  lemma BehindOrdered(rest: seq<Path>)
    requires forall i :: 0 <= i < |rest| ==> rest[i] != []
    requires forall i, j :: 0 <= i < j < |rest| ==> Precedes(rest[i], rest[j])
    ensures forall i, j :: 0 <= i < j < |rest| ==> Precedes(Behind(rest)[i], Behind(rest)[j])
  {
    forall i, j | 0 <= i < j < |rest| ensures Precedes(Behind(rest)[i], Behind(rest)[j]) {
      assert Precedes(rest[i], rest[j]);
      assert Behind(rest)[i][1..] == rest[i][1..] && Behind(rest)[j][1..] == rest[j][1..];
    }
  }

  lemma BehindFound(rest: seq<Path>, l: Line, tail: seq<Line>, outer: seq<Reading>, p: Path)
    requires Visits(rest, tail, outer) && forall i :: 0 <= i < |rest| ==> rest[i] != []
    requires p != [] && p[0] > 0 && LineAt([l] + tail, p).Some?
    ensures p in Behind(rest)
  {
    hide LineAt;
    hide Says;
    hide Precedes;
    var q: Path := [p[0] - 1] + p[1..];
    assert [q[0] + 1] + q[1..] == p;
    LineBehind(l, tail, q);
    var i :| 0 <= i < |rest| && rest[i] == q;
    assert Behind(rest)[i] == p;
  }

  lemma LineBehind(l: Line, tail: seq<Line>, q: Path)
    requires q != []
    ensures LineAt([l] + tail, [q[0] + 1] + q[1..]) == LineAt(tail, q)
  {
    var p: Path := [q[0] + 1] + q[1..];
    assert p[1..] == q[1..];
    assert q[0] < |tail| ==> ([l] + tail)[p[0]] == tail[q[0]];
  }

  lemma OneMoreLine(below: seq<Path>, rest: seq<Path>, l: Line, tail: seq<Line>, first: Reading, inner: seq<Reading>,
                    outer: seq<Reading>) returns (paths: seq<Path>)
    requires Visits(below, l.child.children, inner) && Visits(rest, tail, outer) && Says(first, l)
    ensures Visits(paths, [l] + tail, [first] + inner + outer)
  {
    hide Says;
    BelowVisits(below, l, tail, inner);
    BehindVisits(rest, l, tail, outer);
    hide Visits;
    hide BelowPart;
    hide BehindPart;
    PartsVisit(Below(below), Behind(rest), [l] + tail, first, inner, outer);
    paths := [[0]] + Below(below) + Behind(rest);
  }

  lemma PartsVisit(a: seq<Path>, b: seq<Path>, lines: seq<Line>, first: Reading, inner: seq<Reading>, outer: seq<Reading>)
    requires lines != [] && Says(first, lines[0]) && BelowPart(a, lines, inner) && BehindPart(b, lines, outer)
    ensures Visits([[0]] + a + b, lines, [first] + inner + outer)
  {
    hide Says;
    hide Precedes;
    var paths, readings := [[0]] + a + b, [first] + inner + outer;
    forall i | 0 <= i < |paths| ensures LineAt(lines, paths[i]).Some? && Says(readings[i], LineAt(lines, paths[i]).value) {
      if 0 < i <= |a| {
        assert paths[i] == a[i - 1] && readings[i] == inner[i - 1];
      } else if i > |a| {
        assert paths[i] == b[i - 1 - |a|] && readings[i] == outer[i - 1 - |a|];
      }
    }
    forall i, j | 0 <= i < j < |paths| ensures Precedes(paths[i], paths[j]) {
      JoinedInOrder(a, b, i, j);
    }
    forall p: Path | LineAt(lines, p).Some? ensures p in paths {
      assert p != [] && (|p| == 1 && p[0] == 0 ==> p == paths[0]);
      assert p == paths[0] || p in a || p in b;
    }
  }

  lemma JoinedInOrder(a: seq<Path>, b: seq<Path>, i: nat, j: nat)
    requires forall n :: 0 <= n < |a| ==> |a[n]| > 1 && a[n][0] == 0
    requires forall n :: 0 <= n < |b| ==> b[n] != [] && b[n][0] > 0
    requires forall m, n :: 0 <= m < n < |a| ==> Precedes(a[m], a[n])
    requires forall m, n :: 0 <= m < n < |b| ==> Precedes(b[m], b[n])
    requires i < j < 1 + |a| + |b|
    ensures var paths := [[0]] + a + b; Precedes(paths[i], paths[j])
  {
    var paths := [[0]] + a + b;
    if j <= |a| {
      assert paths[j] == a[j - 1];
      if i > 0 {
        assert paths[i] == a[i - 1];
      }
    } else {
      assert paths[j] == b[j - 1 - |a|];
      if i > |a| {
        assert paths[i] == b[i - 1 - |a|];
      } else if i > 0 {
        assert paths[i] == a[i - 1];
      }
    }
  }

  lemma {:induction false} LinesVisited(lines: seq<Line>) returns (paths: seq<Path>)
    ensures Visits(paths, lines, FlattenLines(lines))
    decreases lines
  {
    hide Visits;
    if lines == [] {
      paths := [];
      NothingVisited();
    } else {
      var l, tail := lines[0], lines[1..];
      var below := LineVisited(lines[0]);
      var rest := LinesVisited(tail);
      ReadSays(l);
      paths := OneMoreLine(below, rest, l, tail, Read(l.rel, l.child), Flatten(l.child), FlattenLines(tail));
      assert lines == [l] + tail;
    }
  }

  lemma {:induction false} LineVisited(l: Line) returns (paths: seq<Path>)
    ensures Visits(paths, l.child.children, Flatten(l.child))
    decreases l
  {
    paths := FlattenVisitsAll(l.child);
  }

  lemma NothingVisited()
    ensures Visits([], [], [])
  {
  }

  /** The flattened tree holds every line at every depth once, in preorder, each with what its relation says. */
  lemma {:induction false} FlattenVisitsAll(node: Node) returns (paths: seq<Path>)
    ensures Visits(paths, node.children, Flatten(node))
    decreases node
  {
    paths := LinesVisited(node.children);
  }

  lemma {:induction false} PrecedesNotItself(p: Path)
    ensures !Precedes(p, p)
  {
    if p != [] {
      PrecedesNotItself(p[1..]);
    }
  }

  /** No line is visited twice. */
  lemma VisitedOnce(paths: seq<Path>, lines: seq<Line>, readings: seq<Reading>, i: nat, j: nat)
    requires Visits(paths, lines, readings) && i < j < |paths|
    ensures paths[i] != paths[j]
  {
    PrecedesNotItself(paths[i]);
  }

  // ---------- keys ----------

  /** Lines have one key if and only if they agree in all that the mode looks at. */
  lemma SameKeyIff(mode: Mode, show: real -> string, r: Reading, t: Reading)
    ensures KeyOf(mode, show, r) == KeyOf(mode, show, t) <==>
              && r.childId == t.childId && (mode != OnlyProduct ==> r.uom == t.uom)
              && (mode == NumQty ==> show(r.qty) == show(t.qty))
              && (mode == ByPosition ==> r.position == t.position)
              && (mode == ByReference ==> r.refdes == t.refdes)
  {
    var k, l := KeyOf(mode, show, r), KeyOf(mode, show, t);
    assert |k| == |l|;
    assert |k| >= 2 ==> k[1] == r.uom && l[1] == t.uom;
    match mode
    case NumQty => assert k[2] == show(r.qty) && l[2] == show(t.qty);
    case ByPosition => assert k[2] == r.position && l[2] == t.position;
    case ByReference => assert k[2] == r.refdes && l[2] == t.refdes;
    case _ =>
  }
}
