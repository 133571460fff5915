/** The item table as a graph: a current relationship row is an edge from its source to its related item. */
module ItemGraph {

  type Id = string

  datatype Value = Text(text: string) | Number(number: real)

  type Properties = map<string, Value>

  /** A row of the item table. Parts have no source; `""` stands for a missing id. */
  datatype Item = Item(itemType: string, sourceId: Id, relatedId: Id, isCurrent: bool, properties: Properties)

  type Store = map<Id, Item>

  type Edges = set<(Id, Id)>

  predicate IsEdge(item: Item) {
    item.isCurrent && item.sourceId != "" && item.relatedId != ""
  }

  function EdgesOf(store: Store): Edges {
    set id | id in store && IsEdge(store[id]) :: (store[id].sourceId, store[id].relatedId)
  }

  // ---------- walks, reachability, cycles ----------

  predicate IsWalk(e: Edges, w: seq<Id>) {
    |w| > 0 && forall k :: 0 <= k < |w| - 1 ==> (w[k], w[k + 1]) in e
  }

  predicate Leads(e: Edges, w: seq<Id>, a: Id, b: Id) {
    IsWalk(e, w) && w[0] == a && w[|w| - 1] == b
  }

  ghost predicate Reaches(e: Edges, a: Id, b: Id) {
    exists w: seq<Id> :: Leads(e, w, a, b)
  }

  /** No walk of one edge or more returns to where it began. */
  ghost predicate Acyclic(e: Edges) {
    forall w: seq<Id> :: IsWalk(e, w) && |w| > 1 ==> w[0] != w[|w| - 1]
  }

  /** What the cycle check answers for a proposed edge: the parent is the child, or below it. */
  ghost predicate ClosesCycle(e: Edges, parent: Id, child: Id) {
    parent == child || Reaches(e, child, parent)
  }

  lemma StepThenWalk(e: Edges, a: Id, w: seq<Id>, b: Id)
    requires w != [] && (a, w[0]) in e && Leads(e, w, w[0], b)
    ensures Leads(e, [a] + w, a, b)
  {
    var v := [a] + w;
    forall k | 0 <= k < |v| - 1 ensures (v[k], v[k + 1]) in e {
      if k > 0 {
        assert (w[k - 1], w[k]) in e;
      }
    }
  }

  lemma WalkTail(e: Edges, w: seq<Id>)
    requires IsWalk(e, w) && |w| > 1
    ensures IsWalk(e, w[1..]) && w[1..][0] == w[1] && w[1..][|w| - 2] == w[|w| - 1]
  {
    var t := w[1..];
    forall k | 0 <= k < |t| - 1 ensures (t[k], t[k + 1]) in e {
      assert (w[k + 1], w[k + 2]) in e;
    }
  }

  lemma FewerEdges(e: Edges, f: Edges)
    requires e <= f && Acyclic(f)
    ensures Acyclic(e)
  {
    forall w: seq<Id> | IsWalk(e, w) && |w| > 1 ensures w[0] != w[|w| - 1] {
      assert IsWalk(f, w);
    }
  }

  /** A walk that may use one extra edge either avoids it, or splits into old walks up to
      its start and from its end. */
  lemma {:induction false} WalkWithExtraEdge(e: Edges, p: Id, c: Id, w: seq<Id>)
    requires IsWalk(e + {(p, c)}, w)
    ensures IsWalk(e, w) || (Reaches(e, w[0], p) && Reaches(e, c, w[|w| - 1]))
    decreases |w|
  {
    var a, b := w[0], w[|w| - 1];
    if |w| > 1 {
      var t := w[1..];
      WalkTail(e + {(p, c)}, w);
      WalkWithExtraEdge(e, p, c, t);
      assert (w[0], w[1]) in e + {(p, c)};
      if (a, w[1]) in e {
        if IsWalk(e, t) {
          StepThenWalk(e, a, t, b);
          assert [a] + t == w;
        } else {
          var v: seq<Id> :| Leads(e, v, w[1], p);
          StepThenWalk(e, a, v, p);
        }
      } else {
        assert Leads(e, [p], a, p);
        if IsWalk(e, t) {
          assert Leads(e, t, c, b);
        }
      }
    }
  }

  /** In an acyclic graph the check is exact: it refuses an edge if and only if that edge makes a cycle. */
  lemma CycleCheckIsExact(e: Edges, p: Id, c: Id)
    requires Acyclic(e)
    ensures Acyclic(e + {(p, c)}) <==> !ClosesCycle(e, p, c)
  {
    var f := e + {(p, c)};
    if ClosesCycle(e, p, c) {
      if p == c {
        assert IsWalk(f, [p, c]);
      } else {
        var w: seq<Id> :| Leads(e, w, c, p);
        assert Leads(f, w, c, p);
        StepThenWalk(f, p, w, p);
        var cycle := [p] + w;
        assert IsWalk(f, cycle) && |cycle| > 1 && cycle[0] == cycle[|cycle| - 1];
      }
    } else {
      forall w: seq<Id> | IsWalk(f, w) && |w| > 1 ensures w[0] != w[|w| - 1] {
        WalkWithExtraEdge(e, p, c, w);
        if w[0] == w[|w| - 1] && !IsWalk(e, w) {
          ReachesTransitive(e, c, w[0], p);
          assert false;
        }
      }
    }
  }

  lemma ReachesTransitive(e: Edges, a: Id, b: Id, c: Id)
    requires Reaches(e, a, b) && Reaches(e, b, c)
    ensures Reaches(e, a, c)
  {
    var v: seq<Id> :| Leads(e, v, a, b);
    var w: seq<Id> :| Leads(e, w, b, c);
    var u := v + w[1..];
    forall k | 0 <= k < |u| - 1 ensures (u[k], u[k + 1]) in e {
      if k < |v| - 1 {
        assert (v[k], v[k + 1]) in e;
      } else {
        assert u[k] == w[k - (|v| - 1)] && u[k + 1] == w[k + 1 - (|v| - 1)];
        assert (w[k - (|v| - 1)], w[k - (|v| - 1) + 1]) in e;
      }
    }
    assert Leads(e, u, a, c);
  }

  /** A set that holds `a` and every successor of its members holds all that `a` reaches. */
  lemma {:induction false} ClosedSetHoldsWalk(e: Edges, s: set<Id>, w: seq<Id>)
    requires IsWalk(e, w) && w[0] in s
    requires forall x, y :: x in s && (x, y) in e ==> y in s
    ensures w[|w| - 1] in s
    decreases |w|
  {
    if |w| > 1 {
      assert (w[0], w[1]) in e;
      WalkTail(e, w);
      ClosedSetHoldsWalk(e, s, w[1..]);
    }
  }

  // ---------- the breadth-first check ----------

  datatype Visit = Visit(id: Id, path: seq<Id>)

  /** The current rows whose source is `curr`. */
  function RowsBelow(store: Store, curr: Id): set<Id> {
    set id | id in store && store[id].sourceId == curr && store[id].isCurrent
  }

  predicate PathOk(e: Edges, parent: Id, child: Id, v: Visit) {
    && v.id != ""
    && |v.path| > 1 && v.path[0] == parent
    && Leads(e, v.path[1..], child, v.id)
  }

  predicate Pending(queue: seq<Visit>, id: Id) {
    exists k :: 0 <= k < |queue| && queue[k].id == id
  }

  lemma PathGrows(e: Edges, parent: Id, child: Id, v: Visit, next: Id)
    requires PathOk(e, parent, child, v) && (v.id, next) in e && next != ""
    ensures PathOk(e, parent, child, Visit(next, v.path + [next]))
  {
    var w := v.path[1..];
    var u := (v.path + [next])[1..];
    assert u == w + [next];
    forall k | 0 <= k < |u| - 1 ensures (u[k], u[k + 1]) in e {
      if k < |w| - 1 {
        assert (w[k], w[k + 1]) in e;
      }
    }
  }

  ghost predicate QueueOk(store: Store, parent: Id, child: Id, queue: seq<Visit>, universe: set<Id>) {
    forall k :: 0 <= k < |queue| ==> PathOk(EdgesOf(store), parent, child, queue[k]) && queue[k].id in universe
  }

  /** Every successor of a visited id is visited or queued. */
  ghost predicate FrontierOk(e: Edges, visited: set<Id>, queue: seq<Visit>) {
    forall x, y :: x in visited && (x, y) in e ==> y in visited || Pending(queue, y)
  }

  /** Queues every unvisited child of `curr`, in whatever order the rows come. */
  method EnqueueChildren(store: Store, ghost parent: Id, ghost child: Id, v: Visit, visited: set<Id>,
                         queue: seq<Visit>, ghost universe: set<Id>) returns (longer: seq<Visit>)
    requires PathOk(EdgesOf(store), parent, child, v)
    requires QueueOk(store, parent, child, queue, universe)
    requires forall y :: (v.id, y) in EdgesOf(store) ==> y in universe
    ensures QueueOk(store, parent, child, longer, universe)
    ensures queue <= longer
    ensures forall y :: (v.id, y) in EdgesOf(store) ==> y in visited || Pending(longer, y)
  {
    longer := queue;
    var rows := RowsBelow(store, v.id);
    while rows != {}
      invariant rows <= RowsBelow(store, v.id)
      invariant QueueOk(store, parent, child, longer, universe) && queue <= longer
      invariant forall r :: r in RowsBelow(store, v.id) - rows && store[r].relatedId != "" ==>
                  store[r].relatedId in visited || Pending(longer, store[r].relatedId)
      decreases rows
    {
      var r :| r in rows;
      var next := store[r].relatedId;
      if next != "" && next !in visited {
        assert (v.id, next) in EdgesOf(store);
        PathGrows(EdgesOf(store), parent, child, v, next);
        PendingGrows(longer, Visit(next, v.path + [next]));
        longer := longer + [Visit(next, v.path + [next])];
      }
      rows := rows - {r};
    }
    forall y | (v.id, y) in EdgesOf(store) ensures y in visited || Pending(longer, y) {
      var r :| r in store && IsEdge(store[r]) && (store[r].sourceId, store[r].relatedId) == (v.id, y);
      assert r in RowsBelow(store, v.id) - rows;
    }
  }

  lemma PendingGrows(queue: seq<Visit>, v: Visit)
    ensures forall x :: Pending(queue, x) ==> Pending(queue + [v], x)
    ensures Pending(queue + [v], v.id)
  {
    assert (queue + [v])[|queue|] == v;
    forall x | Pending(queue, x) ensures Pending(queue + [v], x) {
      var k :| 0 <= k < |queue| && queue[k].id == x;
      assert (queue + [v])[k].id == x;
    }
  }

  lemma PendingHead(queue: seq<Visit>, longer: seq<Visit>)
    requires queue != [] && queue[1..] <= longer
    ensures forall x :: Pending(queue, x) ==> x == queue[0].id || Pending(longer, x)
  {
    forall x | Pending(queue, x) && x != queue[0].id ensures Pending(longer, x) {
      var k :| 0 <= k < |queue| && queue[k].id == x;
      assert longer[k - 1] == queue[1..][k - 1];
    }
  }

  /** Searches below the child for the parent; on success also returns the cycle the new edge would close. */
  method DetectCycleWithPath(store: Store, parent: Id, child: Id) returns (hasCycle: bool, path: seq<Id>)
    requires parent != "" && child != ""
    ensures hasCycle <==> ClosesCycle(EdgesOf(store), parent, child)
    ensures hasCycle ==> |path| > 1 && path[0] == parent && Leads(EdgesOf(store), path[1..], child, parent)
    ensures !hasCycle ==> path == []
  {
    ghost var e := EdgesOf(store);
    if parent == child {
      assert Leads(e, [child], child, child);
      return true, [parent, child];
    }
    var queue := [Visit(child, [parent, child])];
    var visited: set<Id> := {};
    ghost var universe := {child} + set x | x in e :: x.1;
    assert queue[0].id == child;
    while queue != []
      invariant QueueOk(store, parent, child, queue, universe)
      invariant visited <= universe && parent !in visited
      invariant child in visited || Pending(queue, child)
      invariant FrontierOk(e, visited, queue)
      decreases universe - visited, |queue|
    {
      var curr := queue[0];
      ghost var before := queue;
      queue := queue[1..];
      assert PathOk(e, parent, child, before[0]);
      if curr.id == parent {
        assert Leads(e, curr.path[1..], child, parent);
        return true, curr.path;
      }
      if curr.id in visited {
        PendingHead(before, queue);
        continue;
      }
      forall y | (curr.id, y) in e ensures y in universe {
        assert (curr.id, y).1 == y;
      }
      visited := visited + {curr.id};
      queue := EnqueueChildren(store, parent, child, curr, visited, queue, universe);
      PendingHead(before, queue);
    }
    if Reaches(e, child, parent) {
      var w: seq<Id> :| Leads(e, w, child, parent);
      ClosedSetHoldsWalk(e, visited, w);
      assert false;
    }
    hasCycle, path := false, [];
  }
}
