/** The batch endpoint: add, remove and update changes applied to the item table in one transaction. */
module BomApply {
  import opened Options
  import opened Text
  import opened Transactions
  import opened ItemGraph

  /** One requested change. `""` stands for an absent text. */
  datatype Change = Change(op: string, relationshipId: Id, parentId: Id, childId: Id,
                           relationshipType: string, quantity: Option<real>, properties: Properties)

  datatype Request = Request(relationshipTypes: seq<string>, changes: seq<Change>, dryRun: bool)

  /** What the item engine does with one operation, beyond the table change itself: it may refuse
      with a status, fail outright, or accept and settle the new row's id and properties. */
  datatype Verdict = Refused(status: nat) | Crashed | Accepted(id: Id, properties: Properties)

  /** What the engine is asked for. */
  datatype Message = Delete(id: Id, itemType: string)
                   | Update(id: Id, itemType: string, properties: Properties)
                   | Add(itemType: string, properties: Properties, source: Id)

  datatype Applied = Applied(op: string, id: Id)

  datatype Response = Ok(results: seq<Applied>, dryRun: bool) | HttpError(status: nat)

  datatype Outcome = Done(store: Store, results: seq<Applied>) | Failed(status: nat)

  function NormalOp(op: string): string {
    Lower(Strip(op))
  }

  /** The properties sent with an update: whatever the caller gave, and the quantity. */
  function UpdateProperties(c: Change): Properties {
    if c.quantity.Some? then c.properties["quantity" := Number(c.quantity.value)] else c.properties
  }

  /** The properties sent with a new row: also the child, as the related item. */
  function AddProperties(c: Change): Properties {
    UpdateProperties(c.(properties := c.properties["related_id" := Text(c.childId)]))
  }

  function RelationshipType(types: seq<string>, c: Change): string {
    if c.relationshipType != "" then c.relationshipType else if types != [] then types[0] else "Part BOM"
  }

  // ---------- the item engine, by contract ----------

  function EngineDelete(store: Store, id: Id, v: Verdict): Outcome {
    match v
    case Refused(s) => Failed(s)
    case Crashed => Failed(500)
    case Accepted(_, _) => Done(store - {id}, [Applied("remove", id)])
  }

  /** Replaces the properties of a row and nothing else of it. */
  function EngineUpdate(store: Store, id: Id, v: Verdict): Outcome
    requires id in store
  {
    match v
    case Refused(s) => Failed(s)
    case Crashed => Failed(500)
    case Accepted(_, props) => Done(store[id := store[id].(properties := props)], [Applied("update", id)])
  }

  /** Inserts a current row below `parent`. A type that is no relationship type is an error whatever the
      verdict, and an id already taken a database error. */
  function EngineAdd(store: Store, kinds: set<string>, relType: string, sent: Properties, parent: Id, v: Verdict): Outcome {
    if relType !in kinds then Failed(500)
    else match v
    case Refused(s) => Failed(s)
    case Crashed => Failed(500)
    case Accepted(id, props) =>
      if id in store then Failed(500)
      else
        var related := if "related_id" in sent && sent["related_id"].Text? then sent["related_id"].text else "";
        Done(store[id := Item(relType, parent, related, true, props)], [Applied("add", id)])
  }

  // ---------- one change, and a batch of them ----------

  /** The store after one change, or the status it fails with; `kinds` are the relationship types. */
  ghost function Step(store: Store, kinds: set<string>, types: seq<string>, c: Change, engine: Message -> Verdict): Outcome {
    var op := NormalOp(c.op);
    if op == "remove" || op == "delete" then
      if c.relationshipId == "" then Failed(400)
      else if c.relationshipId !in store then Failed(404)
      else EngineDelete(store, c.relationshipId, engine(Delete(c.relationshipId, store[c.relationshipId].itemType)))
    else if op == "update" then
      if c.relationshipId == "" then Failed(400)
      else if c.relationshipId !in store then Failed(404)
      else
        var message := Update(c.relationshipId, store[c.relationshipId].itemType, UpdateProperties(c));
        EngineUpdate(store, c.relationshipId, engine(message))
    else if op == "add" then
      if c.parentId == "" || c.childId == "" then Failed(400)
      else if ClosesCycle(EdgesOf(store), c.parentId, c.childId) then Failed(409)
      else if c.parentId !in store then Failed(404)
      else
        var relType, sent := RelationshipType(types, c), AddProperties(c);
        EngineAdd(store, kinds, relType, sent, c.parentId, engine(Add(relType, sent, c.parentId)))
    else Failed(400)
  }

  /** The changes from index `k` on, one after the other, up to the first failure. */
  ghost function Batch(store: Store, kinds: set<string>, req: Request, engine: nat -> Message -> Verdict, k: nat,
                       results: seq<Applied>): Outcome
    requires k <= |req.changes|
    decreases |req.changes| - k
  {
    if k == |req.changes| then Done(store, results)
    else
      match Step(store, kinds, req.relationshipTypes, req.changes[k], engine(k))
      case Failed(s) => Failed(s)
      case Done(next, more) => Batch(next, kinds, req, engine, k + 1, results + more)
  }

  // ---------- what a change does to the rows ----------

  /** Case and surrounding blanks aside, the operation asked for. */
  predicate Asks(c: Change, op: string) {
    Lower(Strip(c.op)) == op
  }

  /** Every row but one is as before, and no other was added. */
  ghost predicate OthersStay(before: Store, after: Store, id: Id) {
    forall x :: x != id ==> (x in after <==> x in before) && (x in before ==> after[x] == before[x])
  }

  /** The row is gone. */
  ghost predicate RowRemoved(before: Store, after: Store, id: Id) {
    id in before && id !in after && OthersStay(before, after, id)
  }

  /** The row has new properties; its type, its endpoints and whether it is current are as before. */
  ghost predicate RowUpdated(before: Store, after: Store, id: Id, props: Properties) {
    && id in before && id in after && OthersStay(before, after, id)
    && after[id].properties == props && after[id].itemType == before[id].itemType
    && after[id].sourceId == before[id].sourceId && after[id].relatedId == before[id].relatedId
    && after[id].isCurrent == before[id].isCurrent
  }

  /** The row is new, and a current edge. */
  ghost predicate RowAdded(before: Store, after: Store, id: Id, itemType: string, parent: Id, child: Id, props: Properties) {
    && id !in before && id in after && OthersStay(before, after, id)
    && after[id].itemType == itemType && after[id].sourceId == parent && after[id].relatedId == child
    && after[id].isCurrent && after[id].properties == props
  }

  /** The related item and the quantity, as far as they are given, and otherwise the caller's properties. */
  ghost predicate Sends(sent: Properties, c: Change, related: Option<Id>) {
    && (related.Some? ==> "related_id" in sent && sent["related_id"] == Text(related.value))
    && (c.quantity.Some? ==> "quantity" in sent && sent["quantity"] == Number(c.quantity.value))
    && forall p :: (p != "related_id" || related.None?) && (p != "quantity" || c.quantity.None?) ==>
         (p in sent <==> p in c.properties) && (p in sent ==> sent[p] == c.properties[p])
  }

  ghost predicate RemovalCarried(before: Store, after: Store, c: Change, engine: Message -> Verdict, result: Applied) {
    && (Asks(c, "remove") || Asks(c, "delete"))
    && RowRemoved(before, after, c.relationshipId) && result == Applied("remove", c.relationshipId)
    && engine(Delete(c.relationshipId, before[c.relationshipId].itemType)).Accepted?
  }

  ghost predicate UpdateCarried(before: Store, after: Store, c: Change, engine: Message -> Verdict, result: Applied, sent: Properties) {
    && Asks(c, "update") && Sends(sent, c, None) && c.relationshipId in before
    && var v := engine(Update(c.relationshipId, before[c.relationshipId].itemType, sent));
    && v.Accepted? && RowUpdated(before, after, c.relationshipId, v.properties) && result == Applied("update", c.relationshipId)
  }

  /** The type is the change's, or else the request's first, or else `Part BOM`. */
  ghost predicate AddCarried(before: Store, after: Store, types: seq<string>, c: Change, engine: Message -> Verdict, result: Applied,
                             sent: Properties, itemType: string) {
    && Asks(c, "add") && Sends(sent, c, Some(c.childId)) && c.parentId in before && c.childId != ""
    && (if c.relationshipType != "" then itemType == c.relationshipType else itemType == (types + ["Part BOM"])[0])
    && var v := engine(Add(itemType, sent, c.parentId));
    && v.Accepted? && RowAdded(before, after, v.id, itemType, c.parentId, c.childId, v.properties) && result == Applied("add", v.id)
  }

  /** One change took the table from `before` to `after`. */
  ghost predicate Carried(before: Store, after: Store, types: seq<string>, c: Change, engine: Message -> Verdict, result: Applied) {
    || RemovalCarried(before, after, c, engine, result)
    || (exists sent :: UpdateCarried(before, after, c, engine, result, sent))
    || (exists sent, itemType :: AddCarried(before, after, types, c, engine, result, sent, itemType))
  }

  /** The tables a batch goes through, from the first change on. */
  ghost predicate Unfolds(stores: seq<Store>, req: Request, engine: nat -> Message -> Verdict, results: seq<Applied>) {
    && |stores| == |req.changes| + 1 && |results| == |req.changes|
    && forall k :: 0 <= k < |req.changes| ==>
         Carried(stores[k], stores[k + 1], req.relationshipTypes, req.changes[k], engine(k), results[k])
  }

  lemma StepCarries(store: Store, kinds: set<string>, types: seq<string>, c: Change, engine: Message -> Verdict)
    ensures var o := Step(store, kinds, types, c, engine);
            o.Done? ==> |o.results| == 1 && Carried(store, o.store, types, c, engine, o.results[0])
  {
    var o := Step(store, kinds, types, c, engine);
    if o.Done? {
      if Asks(c, "remove") || Asks(c, "delete") {
        assert RemovalCarried(store, o.store, c, engine, o.results[0]);
      } else if Asks(c, "update") {
        assert UpdateCarried(store, o.store, c, engine, o.results[0], UpdateProperties(c));
      } else {
        AddCarries(store, kinds, types, c, engine);
      }
    }
  }

  lemma AddCarries(store: Store, kinds: set<string>, types: seq<string>, c: Change, engine: Message -> Verdict)
    requires Asks(c, "add") && Step(store, kinds, types, c, engine).Done?
    ensures var o, sent, relType := Step(store, kinds, types, c, engine), AddProperties(c), RelationshipType(types, c);
            |o.results| == 1 && AddCarried(store, o.store, types, c, engine, o.results[0], sent, relType)
  {
    hide ClosesCycle;
  }

  /** What the endpoint asks the engine for, when a change gets that far. */
  ghost predicate Asked(store: Store, kinds: set<string>, types: seq<string>, c: Change, m: Message) {
    match m
    case Delete(id, itemType) =>
      && (Asks(c, "remove") || Asks(c, "delete"))
      && id != "" && id == c.relationshipId && id in store && itemType == store[id].itemType
    case Update(id, itemType, sent) =>
      && Asks(c, "update") && Sends(sent, c, None)
      && id != "" && id == c.relationshipId && id in store && itemType == store[id].itemType
    case Add(itemType, sent, source) =>
      && Asks(c, "add") && Sends(sent, c, Some(c.childId)) && c.childId != ""
      && source != "" && source == c.parentId && source in store && !ClosesCycle(EdgesOf(store), source, c.childId)
      && (if c.relationshipType != "" then itemType == c.relationshipType else itemType == (types + ["Part BOM"])[0])
      && itemType in kinds
  }

  /** A refusal by the engine ends the batch with the engine's own status, and a failure of the engine with 500. */
  lemma EngineFailureEnds(store: Store, kinds: set<string>, types: seq<string>, c: Change, engine: Message -> Verdict, m: Message)
    requires Asked(store, kinds, types, c, m) && !engine(m).Accepted?
    ensures Step(store, kinds, types, c, engine) == Failed(if engine(m).Refused? then engine(m).status else 500)
  {
    hide ClosesCycle;
    match m
    case Delete(_, _) =>
    case Update(_, _, sent) =>
      assert sent == UpdateProperties(c);
    case Add(itemType, sent, _) =>
      assert sent == AddProperties(c);
      assert itemType == RelationshipType(types, c);
  }

  /** A batch that goes through does so change by change. */
  lemma {:induction false} BatchUnfolds(store: Store, kinds: set<string>, req: Request, engine: nat -> Message -> Verdict, k: nat,
                                        results: seq<Applied>) returns (stores: seq<Store>)
    requires k <= |req.changes| && |results| == k && Batch(store, kinds, req, engine, k, results).Done?
    ensures var o, n := Batch(store, kinds, req, engine, k, results), |req.changes|;
            && |stores| == n - k + 1 && stores[0] == store && stores[n - k] == o.store
            && |o.results| == n && o.results[..k] == results
            && forall j :: k <= j < n ==>
                 Carried(stores[j - k], stores[j - k + 1], req.relationshipTypes, req.changes[j], engine(j), o.results[j])
    decreases |req.changes| - k
  {
    hide Step;
    hide Carried;
    if k == |req.changes| {
      stores := [store];
    } else {
      var o := Step(store, kinds, req.relationshipTypes, req.changes[k], engine(k));
      StepCarries(store, kinds, req.relationshipTypes, req.changes[k], engine(k));
      var rest := BatchUnfolds(o.store, kinds, req, engine, k + 1, results + o.results);
      stores := [store] + rest;
      var all := Batch(store, kinds, req, engine, k, results).results;
      assert all[..k + 1] == results + o.results && all[..k] == all[..k + 1][..k] && all[k] == all[..k + 1][k];
      forall j | k <= j < |req.changes|
        ensures Carried(stores[j - k], stores[j - k + 1], req.relationshipTypes, req.changes[j], engine(j), all[j]) {
        if j > k {
          assert stores[j - k] == rest[j - (k + 1)] && stores[j - k + 1] == rest[j - (k + 1) + 1];
        }
      }
    }
  }

  // ---------- the loop ----------

  /** Takes over one engine operation's outcome. */
  method Take(s: Session<Store>, o: Outcome) returns (status: Option<nat>, results: seq<Applied>)
    modifies s`working
    ensures o.Done? ==> s.working == o.store && status == None && results == o.results
    ensures o.Failed? ==> s.working == old(s.working) && status == Some(o.status) && results == []
  {
    match o
    case Done(next, more) =>
      s.working := next;
      status, results := None, more;
    case Failed(code) =>
      status, results := Some(code), [];
  }

  /** One turn of the endpoint's loop. */
  method ApplyChange(s: Session<Store>, kinds: set<string>, types: seq<string>, change: Change, engine: Message -> Verdict)
    returns (status: Option<nat>, results: seq<Applied>)
    modifies s`working
    ensures var o := Step(old(s.working), kinds, types, change, engine);
            && (o.Done? ==> s.working == o.store && status == None && results == o.results)
            && (o.Failed? ==> status == Some(o.status))
    ensures status.None? ==>
              |results| == 1 && Carried(old(s.working), s.working, types, change, engine, results[0])
  {
    StepCarries(s.working, kinds, types, change, engine);
    hide Carried;
    results := [];
    var op := NormalOp(change.op);
    if op == "remove" || op == "delete" {
      if change.relationshipId == "" {
        return Some(400), [];
      }
      if change.relationshipId !in s.working {
        return Some(404), [];
      }
      var rel := s.working[change.relationshipId];
      status, results := Take(s, EngineDelete(s.working, change.relationshipId, engine(Delete(change.relationshipId, rel.itemType))));
      return;
    }
    if op == "update" {
      if change.relationshipId == "" {
        return Some(400), [];
      }
      if change.relationshipId !in s.working {
        return Some(404), [];
      }
      var rel := s.working[change.relationshipId];
      var props := change.properties;
      if change.quantity.Some? {
        props := props["quantity" := Number(change.quantity.value)];
      }
      var message := Update(change.relationshipId, rel.itemType, props);
      status, results := Take(s, EngineUpdate(s.working, change.relationshipId, engine(message)));
      return;
    }
    if op == "add" {
      if change.parentId == "" || change.childId == "" {
        return Some(400), [];
      }
      var hasCycle, _ := DetectCycleWithPath(s.working, change.parentId, change.childId);
      if hasCycle {
        return Some(409), [];
      }
      if change.parentId !in s.working {
        return Some(404), [];
      }
      var relType := RelationshipType(types, change);
      var props := change.properties["related_id" := Text(change.childId)];
      if change.quantity.Some? {
        props := props["quantity" := Number(change.quantity.value)];
      }
      var message := Add(relType, props, change.parentId);
      status, results := Take(s, EngineAdd(s.working, kinds, relType, props, change.parentId, engine(message)));
      return;
    }
    return Some(400), [];
  }

  /** All changes or none: the surviving rows are the whole batch's outcome, or what they were;
      and what they were whenever the batch fails or only rehearses. */
  method ApplyBomChanges(s: Session<Store>, kinds: set<string>, req: Request, engine: nat -> Message -> Verdict)
    returns (response: Response)
    requires s.working == s.committed
    modifies s
    ensures s.working == s.committed
    ensures var o := Batch(old(s.committed), kinds, req, engine, 0, []);
            match o
            case Failed(code) => response == HttpError(code) && s.committed == old(s.committed)
            case Done(store, results) =>
              && response == Ok(results, req.dryRun)
              && s.committed == if req.dryRun then old(s.committed) else store
    ensures response.Ok? ==> exists stores ::
              && Unfolds(stores, req, engine, response.results) && stores[0] == old(s.committed)
              && (req.dryRun || stores[|req.changes|] == s.committed)
    ensures response.Ok? && !req.dryRun && |req.changes| == 1 ==>
              && |response.results| == 1
              && Carried(old(s.committed), s.committed, req.relationshipTypes, req.changes[0], engine(0), response.results[0])
  {
    hide Carried;
    hide Step;
    var results: seq<Applied> := [];
    var k := 0;
    while k < |req.changes|
      invariant 0 <= k <= |req.changes| && s.committed == old(s.committed)
      invariant Batch(old(s.committed), kinds, req, engine, 0, []) == Batch(s.working, kinds, req, engine, k, results)
    {
      var status, more := ApplyChange(s, kinds, req.relationshipTypes, req.changes[k], engine(k));
      if status.Some? {
        s.Rollback();
        return HttpError(status.value);
      }
      results := results + more;
      k := k + 1;
    }
    if req.dryRun {
      s.Rollback();
    } else {
      s.Commit();
    }
    response := Ok(results, req.dryRun);
    ghost var stores := BatchUnfolds(old(s.committed), kinds, req, engine, 0, []);
    assert Unfolds(stores, req, engine, results);
  }

  // ---------- no batch makes a cycle ----------

  ghost predicate AcyclicStore(store: Store) {
    Acyclic(EdgesOf(store))
  }

  lemma UpdateKeepsEdges(store: Store, id: Id, props: Properties)
    requires id in store
    ensures EdgesOf(store[id := store[id].(properties := props)]) == EdgesOf(store)
  {
    var next := store[id := store[id].(properties := props)];
    forall x | x in store ensures (IsEdge(next[x]) <==> IsEdge(store[x]))
        && next[x].sourceId == store[x].sourceId && next[x].relatedId == store[x].relatedId {
    }
    assert forall p :: p in EdgesOf(store) ==> p in EdgesOf(next) by {
      forall p | p in EdgesOf(store) ensures p in EdgesOf(next) {
        var x :| x in store && IsEdge(store[x]) && p == (store[x].sourceId, store[x].relatedId);
        assert x in next;
      }
    }
    assert forall p :: p in EdgesOf(next) ==> p in EdgesOf(store) by {
      forall p | p in EdgesOf(next) ensures p in EdgesOf(store) {
        var x :| x in next && IsEdge(next[x]) && p == (next[x].sourceId, next[x].relatedId);
        assert x in store;
      }
    }
  }

  lemma InsertAddsEdge(store: Store, id: Id, item: Item)
    requires id !in store && IsEdge(item)
    ensures EdgesOf(store[id := item]) == EdgesOf(store) + {(item.sourceId, item.relatedId)}
  {
    var next := store[id := item];
    forall p | p in EdgesOf(store) + {(item.sourceId, item.relatedId)} ensures p in EdgesOf(next) {
      if p in EdgesOf(store) {
        var x :| x in store && IsEdge(store[x]) && p == (store[x].sourceId, store[x].relatedId);
        assert x in next && next[x] == store[x];
      } else {
        assert id in next && next[id] == item;
      }
    }
    forall p | p in EdgesOf(next) ensures p in EdgesOf(store) + {(item.sourceId, item.relatedId)} {
      var x :| x in next && IsEdge(next[x]) && p == (next[x].sourceId, next[x].relatedId);
      if x != id {
        assert x in store && next[x] == store[x];
      }
    }
  }

  lemma RemovalKeepsAcyclic(store: Store, id: Id)
    requires AcyclicStore(store)
    ensures AcyclicStore(store - {id})
  {
    assert EdgesOf(store - {id}) <= EdgesOf(store);
    FewerEdges(EdgesOf(store - {id}), EdgesOf(store));
  }

  /** Every change that goes through keeps an acyclic table acyclic, whatever properties it carries. */
  lemma StepKeepsAcyclic(store: Store, kinds: set<string>, types: seq<string>, c: Change, engine: Message -> Verdict)
    requires AcyclicStore(store)
    ensures var o := Step(store, kinds, types, c, engine); o.Done? ==> AcyclicStore(o.store)
  {
    hide NormalOp;
    hide EdgesOf;
    hide Acyclic;
    hide Reaches;
    var op := NormalOp(c.op);
    var o := Step(store, kinds, types, c, engine);
    if o.Done? {
      if op == "remove" || op == "delete" {
        RemovalKeepsAcyclic(store, c.relationshipId);
      } else if op == "update" {
        var v := engine(Update(c.relationshipId, store[c.relationshipId].itemType, UpdateProperties(c)));
        UpdateKeepsEdges(store, c.relationshipId, v.properties);
      } else {
        var v := engine(Add(RelationshipType(types, c), AddProperties(c), c.parentId));
        var item := Item(RelationshipType(types, c), c.parentId, c.childId, true, v.properties);
        assert o.store == store[v.id := item];
        InsertAddsEdge(store, v.id, item);
        CycleCheckIsExact(EdgesOf(store), c.parentId, c.childId);
      }
    }
  }

  lemma {:induction false} BatchKeepsAcyclic(store: Store, kinds: set<string>, req: Request, engine: nat -> Message -> Verdict,
                                             k: nat, results: seq<Applied>)
    requires AcyclicStore(store) && k <= |req.changes|
    ensures var o := Batch(store, kinds, req, engine, k, results); o.Done? ==> AcyclicStore(o.store)
    decreases |req.changes| - k
  {
    if k < |req.changes| {
      var o := Step(store, kinds, req.relationshipTypes, req.changes[k], engine(k));
      StepKeepsAcyclic(store, kinds, req.relationshipTypes, req.changes[k], engine(k));
      if o.Done? {
        BatchKeepsAcyclic(o.store, kinds, req, engine, k + 1, results + o.results);
      }
    }
  }

  /** An add the engine accepts, whose parent exists: it is refused with 409 exactly when its edge would make a cycle,
      fails with 500 exactly when it would not but the type is no relationship type, and otherwise adds that edge. */
  lemma AddRefusedIffCyclic(store: Store, kinds: set<string>, types: seq<string>, c: Change, engine: Message -> Verdict, v: Verdict)
    requires AcyclicStore(store) && NormalOp(c.op) == "add" && c.parentId != "" && c.childId != ""
    requires v == engine(Add(RelationshipType(types, c), AddProperties(c), c.parentId))
    requires v.Accepted? && v.id !in store && c.parentId in store
    ensures var o, edges := Step(store, kinds, types, c, engine), EdgesOf(store) + {(c.parentId, c.childId)};
            && (o == Failed(409) <==> !Acyclic(edges))
            && (o == Failed(500) <==> Acyclic(edges) && RelationshipType(types, c) !in kinds)
            && (o.Done? <==> Acyclic(edges) && RelationshipType(types, c) in kinds)
            && (o.Done? ==> EdgesOf(o.store) == edges)
  {
    CycleCheckIsExact(EdgesOf(store), c.parentId, c.childId);
    var item := Item(RelationshipType(types, c), c.parentId, c.childId, true, v.properties);
    InsertAddsEdge(store, v.id, item);
  }

  // ---------- whole histories of requests ----------

  /** The surviving rows after one request. */
  ghost function Survives(store: Store, kinds: set<string>, req: Request, engine: nat -> Message -> Verdict): Store {
    match Batch(store, kinds, req, engine, 0, [])
    case Failed(_) => store
    case Done(next, _) => if req.dryRun then store else next
  }

  /** One call of the endpoint. */
  datatype Call = Call(req: Request, engine: nat -> Message -> Verdict)

  ghost function History(store: Store, kinds: set<string>, calls: seq<Call>): Store {
    if calls == [] then store
    else
      var last := calls[|calls| - 1];
      Survives(History(store, kinds, calls[..|calls| - 1]), kinds, last.req, last.engine)
  }

  /** No sequence of batches ever leaves a cycle behind. */
  lemma {:induction false} HistoryKeepsAcyclic(store: Store, kinds: set<string>, calls: seq<Call>)
    requires AcyclicStore(store)
    ensures AcyclicStore(History(store, kinds, calls))
  {
    if calls != [] {
      var front, last := calls[..|calls| - 1], calls[|calls| - 1];
      HistoryKeepsAcyclic(store, kinds, front);
      BatchKeepsAcyclic(History(store, kinds, front), kinds, last.req, last.engine, 0, []);
    }
  }

  /** The calls that can leave something behind: no rehearsals, and none that fails on the store it meets. */
  ghost function Effective(store: Store, kinds: set<string>, calls: seq<Call>): seq<Call> {
    if calls == [] then []
    else
      var front, last := calls[..|calls| - 1], calls[|calls| - 1];
      Effective(store, kinds, front)
      + if last.req.dryRun || Batch(History(store, kinds, front), kinds, last.req, last.engine, 0, []).Failed? then [] else [last]
  }

  /** Rehearsals and failed requests can be struck from any history: what is left of it ends in the same store, goes through
      from the first call to the last, and is the fold of its batches. */
  lemma {:induction false} OnlyEffectiveCallsCount(store: Store, kinds: set<string>, calls: seq<Call>)
    ensures var rest := Effective(store, kinds, calls);
            History(store, kinds, rest) == History(store, kinds, calls) && Effective(store, kinds, rest) == rest
  {
    if calls != [] {
      var front, last := calls[..|calls| - 1], calls[|calls| - 1];
      var kept, rest := Effective(store, kinds, front), Effective(store, kinds, calls);
      OnlyEffectiveCallsCount(store, kinds, front);
      if last.req.dryRun || Batch(History(store, kinds, front), kinds, last.req, last.engine, 0, []).Failed? {
        assert rest == kept + [] == kept;
      } else {
        assert rest == kept + [last] && rest[..|rest| - 1] == kept && rest[|rest| - 1] == last;
      }
    }
  }
}
