/** Moving relationship rows into the item table, in commits of 500, by runs that may die and be repeated. */
module Migration {
  import opened Sequences
  import opened Options
  import opened Transactions

  type Id = string

  datatype Value = Text(text: string) | Integer(number: int)

  type Properties = map<string, Value>

  /** A row of the relationship table; `""` stands for a missing text. */
  datatype Relationship = Relationship(typeId: Id, sourceId: Id, relatedId: Id, sortOrder: Option<int>,
                                       state: string, properties: Properties, createdBy: string)

  datatype Item = Item(itemTypeId: string, configId: Id, generation: nat, isCurrent: bool, state: string,
                       sourceId: Id, relatedId: Id, properties: Properties, createdBy: string, permissionId: string)

  type Rows = map<Id, Relationship>

  type Table = map<Id, Item>

  const BATCH: nat := 500

  predicate TypeKnown(rel: Relationship, mapping: map<Id, string>) {
    rel.typeId in mapping && mapping[rel.typeId] != ""
  }

  predicate EndpointsIn(rel: Relationship, ids: set<Id>) {
    rel.sourceId != "" && rel.sourceId in ids && rel.relatedId != "" && rel.relatedId in ids
  }

  /** The item a relationship becomes; its permission is its source's. */
  function Convert(id: Id, rel: Relationship, mapping: map<Id, string>, table: Table): Item
    requires TypeKnown(rel, mapping) && EndpointsIn(rel, table.Keys)
  {
    var props := if rel.sortOrder.Some? && "sort_order" !in rel.properties
                 then rel.properties["sort_order" := Integer(rel.sortOrder.value)] else rel.properties;
    Item(mapping[rel.typeId], id, 1, true, if rel.state != "" then rel.state else "Active",
         rel.sourceId, rel.relatedId, props, rel.createdBy, table[rel.sourceId].permissionId)
  }

  // ---------- one run ----------

  /** What is fixed over all runs. */
  datatype Job = Job(rows: Rows, mapping: map<Id, string>)

  /** How one run is started, the order its query returns rows in, and after how many rows it dies:
      a number above the rows to handle means it does not. */
  datatype Run = Run(order: seq<Id>, dryRun: bool, allowOrphans: bool, diesAfter: nat)

  datatype State = State(working: Table, committed: Table, migrated: nat, raised: bool)

  /** The query: every relationship row that has no item yet, in some order. */
  ghost predicate QueryResult(order: seq<Id>, job: Job, table: Table) {
    Distinct(order) && forall id :: id in order <==> id in job.rows && id !in table
  }

  predicate Migratable(job: Job, id: Id, table: Table) {
    id in job.rows && TypeKnown(job.rows[id], job.mapping) && EndpointsIn(job.rows[id], table.Keys)
  }

  predicate Known(run: Run, job: Job) {
    forall n :: 0 <= n < |run.order| ==> run.order[n] in job.rows
  }

  /** One turn of the loop. Endpoints are looked up among the committed items: one that was added and is not
      yet committed is not found. */
  function HandleRow(s: State, job: Job, run: Run, id: Id): State
    requires id in job.rows
  {
    if !Migratable(job, id, s.committed) then if run.allowOrphans then s else s.(raised := true)
    else
      var working := s.working[id := Convert(id, job.rows[id], job.mapping, s.committed)];
      State(working,
            if !run.dryRun && (s.migrated + 1) % BATCH == 0 then working else s.committed,
            s.migrated + 1, false)
  }

  /** The state after the first `n` rows, or where an error stopped it. */
  function After(job: Job, run: Run, table: Table, n: nat): State
    requires n <= |run.order| && Known(run, job)
  {
    if n == 0 then State(table, table, 0, false)
    else
      var s := After(job, run, table, n - 1);
      if s.raised then s else HandleRow(s, job, run, run.order[n - 1])
  }

  predicate Completes(job: Job, run: Run, table: Table)
    requires Known(run, job)
  {
    run.diesAfter > |run.order| && !After(job, run, table, |run.order|).raised
  }

  /** The item table a run leaves behind. */
  function Leaves(job: Job, run: Run, table: Table): Table
    requires Known(run, job)
  {
    if Completes(job, run, table) then
      if run.dryRun then table else After(job, run, table, |run.order|).working
    else After(job, run, table, if run.diesAfter <= |run.order| then run.diesAfter else |run.order|).committed
  }

  // ---------- what a run leaves behind ----------

  /** The relationship's own properties, and its sort order where they had none. */
  ghost predicate CarriesProperties(props: Properties, rel: Relationship) {
    && (forall p :: p != "sort_order" || p in rel.properties ==>
          (p in props <==> p in rel.properties) && (p in props ==> props[p] == rel.properties[p]))
    && ("sort_order" !in rel.properties ==>
          if rel.sortOrder.None? then "sort_order" !in props
          else "sort_order" in props && props["sort_order"] == Integer(rel.sortOrder.value))
  }

  /** The item of a relationship, in a table that also holds its source and its related item. */
  ghost predicate StandsFor(item: Item, id: Id, rel: Relationship, mapping: map<Id, string>, table: Table) {
    && rel.typeId in mapping && item.itemTypeId == mapping[rel.typeId] != ""
    && item.sourceId == rel.sourceId != "" && item.relatedId == rel.relatedId != ""
    && rel.sourceId in table && rel.relatedId in table && item.permissionId == table[rel.sourceId].permissionId
    && item.configId == id && item.generation == 1 && item.isCurrent && item.createdBy == rel.createdBy
    && (rel.state != "" ==> item.state == rel.state) && (rel.state == "" ==> item.state == "Active")
    && CarriesProperties(item.properties, rel)
  }

  /** Every item there was is as it was, and every new one stands for its relationship. */
  ghost predicate Migrated(now: Table, table: Table, job: Job) {
    && (forall id :: id in table ==> id in now && now[id] == table[id])
    && (forall id :: id in now && id !in table ==> id in job.rows && StandsFor(now[id], id, job.rows[id], job.mapping, now))
  }

  lemma ConvertStandsFor(id: Id, rel: Relationship, mapping: map<Id, string>, table: Table)
    requires TypeKnown(rel, mapping) && EndpointsIn(rel, table.Keys)
    ensures StandsFor(Convert(id, rel, mapping, table), id, rel, mapping, table)
  {
  }

  lemma OneMoreMigrated(now: Table, table: Table, job: Job, id: Id, found: Table)
    requires Migrated(now, table, job) && id !in now && id in job.rows && Migratable(job, id, found)
    requires forall x :: x in found ==> x in now && now[x] == found[x]
    ensures Migrated(now[id := Convert(id, job.rows[id], job.mapping, found)], table, job)
  {
    hide StandsFor;
    hide Convert;
    var next := now[id := Convert(id, job.rows[id], job.mapping, found)];
    ConvertStandsFor(id, job.rows[id], job.mapping, found);
    StandsInMore(next[id], id, job.rows[id], job.mapping, found, next);
    forall x | x in now && x !in table ensures StandsFor(next[x], x, job.rows[x], job.mapping, next) {
      StandsInMore(now[x], x, job.rows[x], job.mapping, now, next);
    }
  }

  lemma StandsInMore(item: Item, id: Id, rel: Relationship, mapping: map<Id, string>, table: Table, more: Table)
    requires StandsFor(item, id, rel, mapping, table)
    requires forall x :: x in table ==> x in more && more[x] == table[x]
    ensures StandsFor(item, id, rel, mapping, more)
  {
  }

  lemma {:induction false} AfterMigrated(job: Job, run: Run, table: Table, n: nat)
    requires QueryResult(run.order, job, table) && Known(run, job) && n <= |run.order|
    ensures var s := After(job, run, table, n);
            && Migrated(s.working, table, job) && Migrated(s.committed, table, job)
            && (forall x :: x in s.committed ==> x in s.working && s.working[x] == s.committed[x])
            && (forall m :: n <= m < |run.order| ==> run.order[m] !in s.working)
  {
    hide Migrated;
    hide Migratable;
    hide Convert;
    if n == 0 {
      NothingMigrated(job, table);
      QueryKnown(run, job, table);
    } else {
      AfterMigrated(job, run, table, n - 1);
      var s, id := After(job, run, table, n - 1), run.order[n - 1];
      if !s.raised && Migratable(job, id, s.committed) {
        OneMoreMigrated(s.working, table, job, id, s.committed);
      }
    }
  }

  lemma NothingMigrated(job: Job, table: Table)
    ensures Migrated(table, table, job)
  {
  }

  /** Whatever way a run ends, what it leaves behind stands for the relationships. */
  lemma LeavesMigrated(job: Job, run: Run, table: Table)
    requires QueryResult(run.order, job, table) && Known(run, job)
    ensures Migrated(Leaves(job, run, table), table, job)
  {
    hide Migrated;
    NothingMigrated(job, table);
    AfterMigrated(job, run, table, |run.order|);
    AfterMigrated(job, run, table, if run.diesAfter <= |run.order| then run.diesAfter else |run.order|);
  }

  // ---------- the loop ----------

  datatype Outcome = Finished(migrated: nat) | Raised | Died

  lemma QueryKnown(run: Run, job: Job, table: Table)
    requires QueryResult(run.order, job, table)
    ensures Known(run, job) && forall n :: 0 <= n < |run.order| ==> run.order[n] !in table
  {
    forall n | 0 <= n < |run.order| ensures run.order[n] in job.rows && run.order[n] !in table {
      assert run.order[n] in run.order;
    }
  }

  /** One turn of the loop: skip, stop with an error, or add an item and commit every full batch. */
  method MigrateRow(session: Session<Table>, job: Job, run: Run, id: Id, count: nat) returns (raised: bool, migrated: nat)
    requires id in job.rows && id !in session.working
    modifies session
    ensures State(session.working, session.committed, migrated, raised)
         == old(HandleRow(State(session.working, session.committed, count, false), job, run, id))
    ensures migrated != count ==>
              id in session.working && StandsFor(session.working[id], id, job.rows[id], job.mapping, old(session.committed))
  {
    raised, migrated := false, count;
    var rel := job.rows[id];
    if rel.typeId !in job.mapping || job.mapping[rel.typeId] == "" {
      return !run.allowOrphans, count;
    }
    var hasSource := rel.sourceId != "" && rel.sourceId in session.committed;
    var hasRelated := rel.relatedId != "" && rel.relatedId in session.committed;
    if (!hasSource || !hasRelated) && !run.allowOrphans {
      return true, count;
    }
    if !hasSource || !hasRelated {
      return;
    }
    ConvertStandsFor(id, rel, job.mapping, session.committed);
    var props := rel.properties;
    if rel.sortOrder.Some? && "sort_order" !in props {
      props := props["sort_order" := Integer(rel.sortOrder.value)];
    }
    var item := Item(job.mapping[rel.typeId], id, 1, true, if rel.state != "" then rel.state else "Active",
                     rel.sourceId, rel.relatedId, props, rel.createdBy, session.committed[rel.sourceId].permissionId);
    session.working := session.working[id := item];
    migrated := migrated + 1;
    if !run.dryRun && migrated % BATCH == 0 {
      session.Commit();
    }
  }

  /** The migration loop. However it ends, only what was committed is left in the session. */
  method Migrate(session: Session<Table>, job: Job, run: Run) returns (outcome: Outcome)
    requires session.working == session.committed
    requires QueryResult(run.order, job, session.committed)
    modifies session
    ensures Known(run, job)
    ensures session.working == session.committed == Leaves(job, run, old(session.committed))
    ensures outcome.Finished? <==> Completes(job, run, old(session.committed))
    ensures outcome.Finished? ==> outcome.migrated == After(job, run, old(session.committed), |run.order|).migrated
    ensures Migrated(session.committed, old(session.committed), job)
  {
    hide Convert;
    hide Migrated;
    hide StandsFor;
    hide Migratable;
    ghost var table := session.committed;
    QueryKnown(run, job, table);
    LeavesMigrated(job, run, table);
    var migrated := 0;
    var n := 0;
    while n < |run.order|
      invariant 0 <= n <= |run.order| && n <= run.diesAfter
      invariant After(job, run, table, n) == State(session.working, session.committed, migrated, false)
      invariant forall m :: n <= m < |run.order| ==> run.order[m] !in session.working
    {
      if n == run.diesAfter {
        break;
      }
      AfterStep(job, run, table, n);
      var raised;
      raised, migrated := MigrateRow(session, job, run, run.order[n], migrated);
      n := n + 1;
      if raised {
        RaisedLeaves(job, run, table, n);
        session.Rollback();
        return Raised;
      }
    }
    if n == run.diesAfter {
      DeathLeaves(job, run, table);
      session.Rollback();
      return Died;
    }
    if !run.dryRun {
      session.Commit();
    } else {
      DryRunCommitsNothing(job, run, table, n);
      session.Rollback();
    }
    outcome := Finished(migrated);
  }

  lemma AfterStep(job: Job, run: Run, table: Table, n: nat)
    requires n < |run.order| && Known(run, job) && !After(job, run, table, n).raised
    ensures After(job, run, table, n + 1) == HandleRow(After(job, run, table, n), job, run, run.order[n])
  {
  }

  lemma {:induction false} RaisedStays(job: Job, run: Run, table: Table, m: nat, n: nat)
    requires m <= n <= |run.order| && Known(run, job)
    requires After(job, run, table, m).raised
    ensures After(job, run, table, n) == After(job, run, table, m)
  {
    if m < n {
      RaisedStays(job, run, table, m, n - 1);
    }
  }

  /** An error at a row the run lives to see leaves what was committed before it. */
  lemma RaisedLeaves(job: Job, run: Run, table: Table, n: nat)
    requires n <= |run.order| && n <= run.diesAfter && Known(run, job)
    requires After(job, run, table, n).raised
    ensures !Completes(job, run, table) && Leaves(job, run, table) == After(job, run, table, n).committed
  {
    RaisedStays(job, run, table, n, |run.order|);
    RaisedStays(job, run, table, n, if run.diesAfter <= |run.order| then run.diesAfter else |run.order|);
  }

  /** A run that dies leaves what was committed before. */
  lemma DeathLeaves(job: Job, run: Run, table: Table)
    requires Known(run, job) && run.diesAfter <= |run.order|
    ensures !Completes(job, run, table)
    ensures Leaves(job, run, table) == After(job, run, table, run.diesAfter).committed
  {
  }

  lemma {:induction false} DryRunCommitsNothing(job: Job, run: Run, table: Table, n: nat)
    requires run.dryRun && n <= |run.order| && Known(run, job)
    ensures After(job, run, table, n).committed == table
  {
    if n > 0 {
      DryRunCommitsNothing(job, run, table, n - 1);
    }
  }
}
