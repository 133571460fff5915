/** Comparing by quantity, where at most one key of a child and unit can differ. */
module BomFit {
  import opened Sequences
  import opened Options
  import opened BomLines
  import opened BomEntries
  import opened BomCompare
  import opened BomRollUp
  import opened BomTolerance

  // ---------- the lines of a child and unit ----------

  function GroupOf(r: Reading): Key {
    [r.childId, r.uom]
  }

  /** On how many counted lines a child and unit stands. */
  function GroupCount(lines: seq<Reading>, g: Key): nat {
    if lines == [] then 0
    else GroupCount(lines[..|lines| - 1], g) + if LineInGroup(lines[|lines| - 1], Some(g)) then 1 else 0
  }

  lemma CountStep(lines: seq<Reading>, n: nat, g: Key)
    requires n < |lines|
    ensures GroupCount(lines[..n + 1], g) == GroupCount(lines[..n], g) + if LineInGroup(lines[n], Some(g)) then 1 else 0
  {
    assert lines[..n + 1][..n] == lines[..n];
  }

  lemma {:induction false} CountRequantified(lines: seq<Reading>, qs: seq<real>, n: nat, g: Key)
    requires |qs| == |lines| && n <= |lines|
    ensures GroupCount(Requantify(lines, qs)[..n], g) == GroupCount(lines[..n], g)
  {
    if n > 0 {
      CountRequantified(lines, qs, n - 1, g);
      CountStep(lines, n - 1, g);
      CountStep(Requantify(lines, qs), n - 1, g);
    }
  }

  function NumKey(g: Key, q: real, show: real -> string): Key {
    g + [show(q)]
  }

  lemma NumKeyOf(r: Reading, show: real -> string)
    ensures KeyOf(NumQty, show, r) == NumKey(GroupOf(r), r.qty, show)
  {
  }

  lemma NumKeysDiffer(g: Key, h: Key, q: real, p: real, show: real -> string)
    requires |g| == |h| == 2 && (g != h || show(q) != show(p))
    ensures NumKey(g, q, show) != NumKey(h, p, show)
  {
    var k, l := NumKey(g, q, show), NumKey(h, p, show);
    assert k[2] == show(q) && l[2] == show(p) && k[..2] == g && l[..2] == h;
  }

  // ---------- one finer key per group may differ ----------

  /** Different quantities, out of those a float can hold, are written differently. */
  ghost predicate WrittenApart(show: real -> string, floats: iset<real>) {
    forall x, y :: x in floats && y in floats && show(x) == show(y) ==> x == y
  }

  ghost predicate Holds(lines: seq<Reading>, floats: iset<real>) {
    forall r :: r in lines ==> r.qty in floats
  }

  /** Lines of one quantity add up to its multiple. */
  lemma {:induction false} SelectedQty(lines: seq<Reading>, show: real -> string, k: Key, q: real)
    requires forall r :: r in lines && Matches(NumQty, show, r, k) ==> r.qty == q
    ensures QtyOf(lines, NumQty, show, k) == Times(|Select(lines, NumQty, show, k)|, q)
  {
    hide Matches;
    if lines != [] {
      var n := |lines| - 1;
      assert forall r :: r in lines[..n] ==> r in lines;
      SelectedQty(lines[..n], show, k, q);
      OneMore(lines, NumQty, show, k);
      assert lines[n] in lines;
    }
  }

  lemma OneQuantity(lines: seq<Reading>, show: real -> string, floats: iset<real>, t: Reading)
    requires WrittenApart(show, floats) && Holds(lines, floats) && t.qty in floats
    ensures forall r :: r in lines && Matches(NumQty, show, r, KeyOf(NumQty, show, t)) ==> r.qty == t.qty
  {
    forall r | r in lines && Matches(NumQty, show, r, KeyOf(NumQty, show, t)) ensures r.qty == t.qty {
      assert KeyOf(NumQty, show, r)[2] == show(r.qty) && KeyOf(NumQty, show, t)[2] == show(t.qty);
    }
  }

  /** If a key's quantity differs, it has at least three lines in all. */
  lemma DifferingKey(a: seq<Reading>, b: seq<Reading>, show: real -> string, floats: iset<real>, k: Key)
    requires WrittenApart(show, floats) && Holds(a, floats) && Holds(b, floats)
    requires k in KeysOf(a, NumQty, show) && k in KeysOf(b, NumQty, show)
    requires QtyOf(a, NumQty, show, k) != QtyOf(b, NumQty, show, k)
    ensures |Select(a, NumQty, show, k)| >= 1 && |Select(b, NumQty, show, k)| >= 1
    ensures |Select(a, NumQty, show, k)| + |Select(b, NumQty, show, k)| >= 3
  {
    hide QtyOf;
    hide Select;
    var t :| t in a && Counts(t) && KeyOf(NumQty, show, t) == k;
    OneQuantity(a, show, floats, t);
    OneQuantity(b, show, floats, t);
    SelectedQty(a, show, k, t.qty);
    SelectedQty(b, show, k, t.qty);
    SelectEmpty(a, NumQty, show, k);
    SelectEmpty(b, NumQty, show, k);
  }

  lemma {:induction false} TwoKeysCounted(lines: seq<Reading>, show: real -> string, g: Key, k: Key, l: Key)
    requires k != l && InGroup(k, Some(g)) && InGroup(l, Some(g))
    ensures |Select(lines, NumQty, show, k)| + |Select(lines, NumQty, show, l)| <= GroupCount(lines, g)
  {
    if lines != [] {
      var n := |lines| - 1;
      TwoKeysCounted(lines[..n], show, g, k, l);
      MatchesInGroup(lines[n], show, g, k);
      MatchesInGroup(lines[n], show, g, l);
    }
  }

  lemma MatchesInGroup(r: Reading, show: real -> string, g: Key, k: Key)
    requires InGroup(k, Some(g))
    ensures Matches(NumQty, show, r, k) ==> LineInGroup(r, Some(g))
  {
  }

  predicate Differs(a: seq<Reading>, b: seq<Reading>, show: real -> string, g: Key, k: Key) {
    InGroup(k, Some(g)) && QtyOf(a, NumQty, show, k) != QtyOf(b, NumQty, show, k)
  }

  /** Whether `m` lines against `n` leave room for two finer keys that differ. */
  predicate Fits(m: nat, n: nat) {
    m <= 1 || n <= 1 || m + n <= 5
  }

  lemma OneKeyDiffers(a: seq<Reading>, b: seq<Reading>, show: real -> string, floats: iset<real>, g: Key, k: Key, l: Key)
    requires WrittenApart(show, floats) && Holds(a, floats) && Holds(b, floats)
    requires KeysOf(a, NumQty, show) == KeysOf(b, NumQty, show) && k in KeysOf(a, NumQty, show) && l in KeysOf(a, NumQty, show)
    requires Differs(a, b, show, g, k) && Differs(a, b, show, g, l) && Fits(GroupCount(a, g), GroupCount(b, g))
    ensures k == l
  {
    hide QtyOf;
    hide KeysOf;
    hide Select;
    hide WrittenApart;
    hide Holds;
    if k != l {
      DifferingKey(a, b, show, floats, k);
      DifferingKey(a, b, show, floats, l);
      TwoKeysCounted(a, show, g, k, l);
      TwoKeysCounted(b, show, g, k, l);
    }
  }

  lemma {:induction false} NoneDiffers(keys: seq<Key>, a: seq<Reading>, b: seq<Reading>, show: real -> string, g: Key)
    requires forall k :: k in keys ==> !Differs(a, b, show, g, k)
    ensures SumKeys(keys, a, NumQty, show, Some(g)) == SumKeys(keys, b, NumQty, show, Some(g))
  {
    hide QtyOf;
    hide InGroup;
    if keys != [] {
      assert !Differs(a, b, show, g, keys[0]);
      NoneDiffers(keys[1..], a, b, show, g);
    }
  }

  /** If at most one finer key differs, the sums over the group differ by no more than that key. */
  lemma {:induction false} OneDrifts(keys: seq<Key>, a: seq<Reading>, b: seq<Reading>, show: real -> string, g: Key,
                                     tolerance: real)
    requires Distinct(keys) && tolerance >= 0.0
    requires forall k :: k in keys ==> Within(QtyOf(a, NumQty, show, k), QtyOf(b, NumQty, show, k), tolerance)
    requires forall k, l :: k in keys && l in keys && Differs(a, b, show, g, k) && Differs(a, b, show, g, l) ==> k == l
    ensures Within(SumKeys(keys, a, NumQty, show, Some(g)), SumKeys(keys, b, NumQty, show, Some(g)), tolerance)
  {
    hide QtyOf;
    hide InGroup;
    if keys != [] {
      assert keys[0] in keys && keys[0] !in keys[1..] && forall k :: k in keys[1..] ==> k in keys;
      if Differs(a, b, show, g, keys[0]) {
        NoneDiffers(keys[1..], a, b, show, g);
      } else {
        OneDrifts(keys[1..], a, b, show, g, tolerance);
      }
    }
  }

  /** With room for one differing key only, the summarized quantities stay within the tolerance. */
  lemma FittingDrift(c: Comparison, a: seq<Reading>, b: seq<Reading>, show: real -> string, floats: iset<real>, g: Key)
    requires Compares(c, a, b, show) && Clean(c) && c.mode == NumQty && c.tolerance >= 0.0
    requires WrittenApart(show, floats) && Holds(a, floats) && Holds(b, floats)
    requires Fits(GroupCount(a, g), GroupCount(b, g))
    ensures Within(QtyOf(a, Summarized, show, g), QtyOf(b, Summarized, show, g), c.tolerance)
  {
    hide WrittenApart;
    hide Holds;
    hide QtyOf;
    hide KeysOf;
    hide GroupCount;
    hide Differs;
    CleanKeys(c);
    var order := SomeOrder(c.Keys());
    RollUp(order, a, NumQty, show, g);
    RollUp(order, b, NumQty, show, g);
    forall k | k in order ensures Within(QtyOf(a, NumQty, show, k), QtyOf(b, NumQty, show, k), c.tolerance) {
      CleanKey(c, a, b, show, k);
    }
    forall k, l | k in order && l in order && Differs(a, b, show, g, k) && Differs(a, b, show, g, l) ensures k == l {
      OneKeyDiffers(a, b, show, floats, g, k, l);
    }
    OneDrifts(order, a, b, show, g, c.tolerance);
  }

  /** Every child and unit leaves room for one differing key only. */
  predicate AllFit(a: seq<Reading>, b: seq<Reading>) {
    forall r :: r in a && Counts(r) ==> Fits(GroupCount(a, GroupOf(r)), GroupCount(b, GroupOf(r)))
  }

  lemma FittingRequantified(a: seq<Reading>, b: seq<Reading>, x: seq<real>, y: seq<real>, g: Key, show: real -> string)
    requires |x| == |a| && |y| == |b| && AllFit(a, b) && g in KeysOf(Requantify(a, x), Summarized, show)
    ensures Fits(GroupCount(Requantify(a, x), g), GroupCount(Requantify(b, y), g))
  {
    SameKeys(a, x, Summarized, show);
    var r :| r in a && Counts(r) && KeyOf(Summarized, show, r) == g;
    assert GroupOf(r) == g;
    CountRequantified(a, x, |a|, g);
    CountRequantified(b, y, |b|, g);
    assert a[..|a|] == a && b[..|b|] == b;
    assert Requantify(a, x)[..|a|] == Requantify(a, x) && Requantify(b, y)[..|b|] == Requantify(b, y);
  }

  lemma HoldsRequantified(lines: seq<Reading>, qs: seq<real>, floats: iset<real>)
    requires |qs| == |lines| && AllIn(qs, floats)
    ensures Holds(Requantify(lines, qs), floats)
  {
  }

  lemma FittingRollsUp(bomA: Node, bomB: Node, x: seq<real>, y: seq<real>, c: Comparison, s: Comparison, tolerance: real,
                       show: real -> string, floats: iset<real>)
    requires |x| == |Flatten(bomA)| && |y| == |Flatten(bomB)| && AllIn(x, floats) && AllIn(y, floats)
    requires WrittenApart(show, floats) && AllFit(Flatten(bomA), Flatten(bomB)) && tolerance >= 0.0
    requires ComparesTrees(c, RequantifyNode(bomA, x), RequantifyNode(bomB, y), NumQty, tolerance, show) && Clean(c)
    requires ComparesTrees(s, RequantifyNode(bomA, x), RequantifyNode(bomB, y), Summarized, tolerance, show)
    ensures Clean(s)
  {
    hide Compares;
    hide Clean;
    hide WrittenApart;
    hide AllFit;
    hide AllIn;
    hide Requantify;
    hide QtyOf;
    var a, b := Requantify(Flatten(bomA), x), Requantify(Flatten(bomB), y);
    NodeRequantified(bomA, x);
    NodeRequantified(bomB, y);
    TreesCompared(c, RequantifyNode(bomA, x), RequantifyNode(bomB, y), NumQty, tolerance, show);
    TreesCompared(s, RequantifyNode(bomA, x), RequantifyNode(bomB, y), Summarized, tolerance, show);
    SameSummarizedKeys(c, s, a, b, show);
    HoldsRequantified(Flatten(bomA), x, floats);
    HoldsRequantified(Flatten(bomB), y, floats);
    forall g | g in s.Keys() ensures StatusOf(s, g) == Unchanged {
      FittingRequantified(Flatten(bomA), Flatten(bomB), x, y, g, show);
      FittingDrift(c, a, b, show, floats, g);
      UnchangedWhenWithin(s, a, b, show, g, tolerance);
    }
    AllUnchanged(s);
  }
}
