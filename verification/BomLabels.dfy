/** Key labels, their order, and the stable sort the comparison visits keys in. */
module BomLabels {
  import opened Sequences
  import opened BomLines
  import opened Text

  /** The key's parts joined with `:`. */
  function Label(k: Key): string {
    if k == [] then "" else if |k| == 1 then k[0] else k[0] + ":" + Label(k[1..])
  }

  // ---------- sorting ----------

  /** Puts `k` in front of the first key whose label is not below its own. */
  function Insert(k: Key, sorted: seq<Key>): seq<Key> {
    if sorted == [] then [k]
    else if Leq(Label(k), Label(sorted[0])) then [k] + sorted
    else [sorted[0]] + Insert(k, sorted[1..])
  }

  function SortByLabel(keys: seq<Key>): seq<Key> {
    if keys == [] then [] else Insert(keys[0], SortByLabel(keys[1..]))
  }

  predicate Ordered(keys: seq<Key>) {
    forall i, j :: 0 <= i < j < |keys| ==> Leq(Label(keys[i]), Label(keys[j]))
  }

  lemma {:induction false} InsertAdds(k: Key, sorted: seq<Key>)
    ensures multiset(Insert(k, sorted)) == multiset(sorted) + multiset{k}
  {
    if sorted != [] && !Leq(Label(k), Label(sorted[0])) {
      InsertAdds(k, sorted[1..]);
      assert sorted == [sorted[0]] + sorted[1..];
    }
  }

  /** `x` is not above any of the keys. */
  predicate Least(x: Key, keys: seq<Key>) {
    forall i :: 0 <= i < |keys| ==> Leq(Label(x), Label(keys[i]))
  }

  lemma OrderedCons(x: Key, keys: seq<Key>)
    ensures Ordered([x] + keys) <==> Least(x, keys) && Ordered(keys)
  {
    var s := [x] + keys;
    if Ordered(s) {
      forall i | 0 <= i < |keys| ensures Leq(Label(x), Label(keys[i])) {
        assert s[0] == x && s[i + 1] == keys[i];
      }
      forall i, j | 0 <= i < j < |keys| ensures Leq(Label(keys[i]), Label(keys[j])) {
        assert s[i + 1] == keys[i] && s[j + 1] == keys[j];
      }
    }
  }

  lemma {:induction false} InsertKeepsLeast(x: Key, k: Key, sorted: seq<Key>)
    requires Leq(Label(x), Label(k)) && Least(x, sorted)
    ensures Least(x, Insert(k, sorted))
  {
    if sorted != [] && !Leq(Label(k), Label(sorted[0])) {
      InsertKeepsLeast(x, k, sorted[1..]);
    }
  }

  lemma {:induction false} InsertKeepsOrder(k: Key, sorted: seq<Key>)
    requires Ordered(sorted)
    ensures Ordered(Insert(k, sorted))
  {
    if sorted == [] {
    } else if Leq(Label(k), Label(sorted[0])) {
      forall i | 0 <= i < |sorted| ensures Leq(Label(k), Label(sorted[i])) {
        if i > 0 {
          LeqTransitive(Label(k), Label(sorted[0]), Label(sorted[i]));
        }
      }
      OrderedCons(k, sorted);
    } else {
      var x, rest := sorted[0], sorted[1..];
      assert sorted == [x] + rest;
      OrderedCons(x, rest);
      LeqTotal(Label(k), Label(x));
      InsertKeepsOrder(k, rest);
      InsertKeepsLeast(x, k, rest);
      OrderedCons(x, Insert(k, rest));
    }
  }

  lemma {:induction false} SortSpec(keys: seq<Key>)
    ensures multiset(SortByLabel(keys)) == multiset(keys)
    ensures Ordered(SortByLabel(keys))
  {
    if keys != [] {
      SortSpec(keys[1..]);
      InsertAdds(keys[0], SortByLabel(keys[1..]));
      InsertKeepsOrder(keys[0], SortByLabel(keys[1..]));
      assert keys == [keys[0]] + keys[1..];
    }
  }

  /** The keys with a given label, in the order they come. */
  function WithLabel(keys: seq<Key>, text: string): seq<Key> {
    if keys == [] then []
    else (if Label(keys[0]) == text then [keys[0]] else []) + WithLabel(keys[1..], text)
  }

  lemma {:induction false} InsertStable(k: Key, sorted: seq<Key>, text: string)
    ensures WithLabel(Insert(k, sorted), text) == WithLabel([k] + sorted, text)
  {
    assert ([k] + sorted)[1..] == sorted;
    if sorted != [] && !Leq(Label(k), Label(sorted[0])) {
      InsertStable(k, sorted[1..], text);
      assert ([k] + sorted[1..])[1..] == sorted[1..];
      assert Insert(k, sorted)[1..] == Insert(k, sorted[1..]);
      LeqTotal(Label(k), Label(k));
      assert Label(k) != Label(sorted[0]);
    }
  }

  /** Keys with equal labels keep the order they came in. */
  lemma {:induction false} SortStable(keys: seq<Key>, text: string)
    ensures WithLabel(SortByLabel(keys), text) == WithLabel(keys, text)
  {
    if keys != [] {
      SortStable(keys[1..], text);
      var s := SortByLabel(keys[1..]);
      InsertStable(keys[0], s, text);
      assert ([keys[0]] + s)[1..] == s;
    }
  }

  // ---------- when the order of visiting is determined ----------

  ghost predicate DistinctLabels(keys: set<Key>) {
    forall a, b :: a in keys && b in keys && Label(a) == Label(b) ==> a == b
  }

  lemma SortEnumerates(order: seq<Key>, keys: set<Key>)
    requires Enumerates(order, keys)
    ensures Enumerates(SortByLabel(order), keys)
  {
    var s := SortByLabel(order);
    SortSpec(order);
    assert forall k :: k in s <==> k in multiset(s);
    assert forall k :: k in order <==> k in multiset(order);
    forall k ensures multiset(order)[k] <= 1 {
      DistinctMultiplicity(order, k);
    }
    forall i, j | 0 <= i < j < |s| ensures s[i] != s[j] {
      if s[i] == s[j] {
        TwiceMultiplicity(s, i, j);
      }
    }
  }

  lemma {:induction false} DistinctMultiplicity<T(!new)>(s: seq<T>, k: T)
    requires Distinct(s)
    ensures multiset(s)[k] <= 1
  {
    if s != [] {
      assert s == [s[0]] + s[1..];
      DistinctMultiplicity(s[1..], k);
      if s[0] == k {
        assert k !in s[1..];
        assert k !in multiset(s[1..]);
      }
    }
  }

  lemma TwiceMultiplicity<T>(s: seq<T>, i: nat, j: nat)
    requires i < j < |s| && s[i] == s[j]
    ensures multiset(s)[s[i]] >= 2
  {
    assert s == s[..j] + s[j..];
    assert s[i] == s[..j][i] && s[i] in s[..j] && s[j] == s[j..][0] && s[j] in s[j..];
    assert multiset(s) == multiset(s[..j]) + multiset(s[j..]);
  }

  lemma EnumeratesNothing(order: seq<Key>)
    requires Enumerates(order, {})
    ensures order == []
  {
    HeadIsMember(order);
  }

  lemma HeadIsMember(order: seq<Key>)
    ensures order != [] ==> order[0] in order
  {
  }

  lemma EnumeratesSomething(order: seq<Key>, keys: set<Key>)
    requires Enumerates(order, keys) && keys != {}
    ensures order != [] && order[0] in keys && Enumerates(order[1..], keys - {order[0]})
  {
    var k :| k in keys;
    assert k in order;
    assert order == [order[0]] + order[1..];
  }

  /** Two ordered walks through the same set are the same walk when labels tell keys apart. */
  lemma {:induction false} OrderedUnique(a: seq<Key>, b: seq<Key>, keys: set<Key>)
    requires Enumerates(a, keys) && Enumerates(b, keys) && Ordered(a) && Ordered(b)
    requires DistinctLabels(keys)
    ensures a == b
    decreases |a|
  {
    if keys == {} {
      EnumeratesNothing(a);
      EnumeratesNothing(b);
    } else {
      EnumeratesSomething(a, keys);
      EnumeratesSomething(b, keys);
      HeadIsLeast(a, b[0]);
      HeadIsLeast(b, a[0]);
      LeqAntisymmetric(Label(a[0]), Label(b[0]));
      assert a == [a[0]] + a[1..] && b == [b[0]] + b[1..];
      OrderedUnique(a[1..], b[1..], keys - {a[0]});
    }
  }

  lemma HeadIsLeast(a: seq<Key>, k: Key)
    requires Ordered(a) && k in a
    ensures Leq(Label(a[0]), Label(k))
  {
    LeqTotal(Label(k), Label(k));
  }

  /** Two keys with one label can be met in either order, and then the sorted walks differ. */
  lemma OrderMatters(keys: set<Key>, a: Key, b: Key) returns (o: seq<Key>, p: seq<Key>)
    requires a in keys && b in keys && Label(a) == Label(b) && a != b
    ensures Enumerates(o, keys) && Enumerates(p, keys) && SortByLabel(o) != SortByLabel(p)
  {
    var rest := SomeOrder(keys - {a, b});
    o, p := [a] + ([b] + rest), [b] + ([a] + rest);
    assert o == [a, b] + rest && p == [b, a] + rest;
    EnumeratesPair(a, b, rest, keys);
    EnumeratesPair(b, a, rest, keys);
    FirstWithLabel(a, [b] + rest);
    FirstWithLabel(b, [a] + rest);
  }

  /** Two enumerations of keys with distinct labels sort to the same walk. */
  lemma SortedWalkUnique(o: seq<Key>, p: seq<Key>, keys: set<Key>)
    requires DistinctLabels(keys) && Enumerates(o, keys) && Enumerates(p, keys)
    ensures SortByLabel(o) == SortByLabel(p)
  {
    SortEnumerates(o, keys);
    SortEnumerates(p, keys);
    SortSpec(o);
    SortSpec(p);
    OrderedUnique(SortByLabel(o), SortByLabel(p), keys);
  }

  ghost predicate OrderIrrelevant(keys: set<Key>) {
    forall o, p :: Enumerates(o, keys) && Enumerates(p, keys) ==> SortByLabel(o) == SortByLabel(p)
  }

  /** The sorted walk is independent of the order the set is iterated in exactly when no two keys share a label. */
  lemma OrderIsDetermined(keys: set<Key>)
    ensures DistinctLabels(keys) <==> OrderIrrelevant(keys)
  {
    if DistinctLabels(keys) {
      forall o, p | Enumerates(o, keys) && Enumerates(p, keys) ensures SortByLabel(o) == SortByLabel(p) {
        SortedWalkUnique(o, p, keys);
      }
    } else {
      var a, b :| a in keys && b in keys && Label(a) == Label(b) && a != b;
      var o, p := OrderMatters(keys, a, b);
    }
  }

  lemma EnumeratesPair(a: Key, b: Key, rest: seq<Key>, keys: set<Key>)
    requires a in keys && b in keys && a != b && Enumerates(rest, keys - {a, b})
    ensures Enumerates([a, b] + rest, keys)
  {
    assert forall i :: 0 <= i < |rest| ==> rest[i] in rest;
  }

  /** Sorting a list leaves its first key in front of the others with the same label. */
  lemma FirstWithLabel(a: Key, rest: seq<Key>)
    ensures WithLabel(SortByLabel([a] + rest), Label(a)) != []
    ensures WithLabel(SortByLabel([a] + rest), Label(a))[0] == a
  {
    SortStable([a] + rest, Label(a));
  }

  // ---------- when labels tell keys apart ----------

  /** No part but the last holds a colon. */
  predicate ColonFree(k: Key) {
    k != [] && forall i :: 0 <= i < |k| - 1 ==> ':' !in k[i]
  }

  lemma {:induction false} LabelInjective(a: Key, b: Key)
    requires ColonFree(a) && ColonFree(b) && |a| == |b| && Label(a) == Label(b)
    ensures a == b
  {
    if |a| > 1 {
      FirstPartInjective(a[0], Label(a[1..]), b[0], Label(b[1..]));
      assert ColonFree(a[1..]) by { assert forall i :: 0 <= i < |a| - 1 ==> a[1..][i] == a[i + 1]; }
      assert ColonFree(b[1..]) by { assert forall i :: 0 <= i < |b| - 1 ==> b[1..][i] == b[i + 1]; }
      LabelInjective(a[1..], b[1..]);
      assert a == [a[0]] + a[1..] && b == [b[0]] + b[1..];
    }
  }

  lemma {:induction false} FirstColon(p: string, x: string)
    requires ':' !in p
    ensures IndexOf(p + ":" + x, ':') == |p|
  {
    if p != "" {
      assert (p + ":" + x)[1..] == p[1..] + ":" + x;
      FirstColon(p[1..], x);
    }
  }

  lemma FirstPartInjective(p: string, x: string, q: string, y: string)
    requires ':' !in p && ':' !in q && p + ":" + x == q + ":" + y
    ensures p == q && x == y
  {
    var s := p + ":" + x;
    FirstColon(p, x);
    FirstColon(q, y);
    assert s[..|p|] == p && (q + ":" + y)[..|q|] == q;
    assert s[|p| + 1..] == x && (q + ":" + y)[|q| + 1..] == y;
  }

  /** Child ids and units without colons are enough; positions, designators and quantities may hold them. */
  lemma LabelsTellKeysApart(lines: seq<Reading>, more: seq<Reading>, mode: Mode, show: real -> string)
    requires forall r :: (r in lines || r in more) && Counts(r) ==> ':' !in r.childId && ':' !in r.uom
    ensures DistinctLabels(KeysOf(lines, mode, show) + KeysOf(more, mode, show))
  {
    var keys := KeysOf(lines, mode, show) + KeysOf(more, mode, show);
    forall a, b | a in keys && b in keys && Label(a) == Label(b) ensures a == b {
      var r :| (r in lines || r in more) && Counts(r) && KeyOf(mode, show, r) == a;
      var s :| (s in lines || s in more) && Counts(s) && KeyOf(mode, show, s) == b;
      assert |a| == |b|;
      assert ColonFree(a) && ColonFree(b);
      LabelInjective(a, b);
    }
  }

  /** Child `a:B` in unit `C` and child `a` in unit `B:C` share the label `a:B:C`, so their order is open. */
  lemma SharedLabel(lines: seq<Reading>, show: real -> string)
    requires |lines| == 2 && lines[0].childId == "a:B" && lines[0].uom == "C" && lines[1].childId == "a" && lines[1].uom == "B:C"
    ensures Label(["a:B", "C"]) == Label(["a", "B:C"]) == "a:B:C"
    ensures !OrderIrrelevant(KeysOf(lines, Summarized, show))
  {
    var k1, k2 := ["a:B", "C"], ["a", "B:C"];
    assert k1[1..] == ["C"] && k2[1..] == ["B:C"];
    assert Label(k1) == "a:B" + ":" + "C" == "a:B:C";
    assert Label(k2) == "a" + ":" + "B:C" == "a:B:C";
    assert |k1[0]| != |k2[0]|;
    assert lines[0] in lines && lines[1] in lines;
    assert k1 in KeysOf(lines, Summarized, show) && k2 in KeysOf(lines, Summarized, show);
    OrderIsDetermined(KeysOf(lines, Summarized, show));
  }
}
