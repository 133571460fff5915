/** Exactly when a rehearsal reports the count of the run for real. */
module MigrationRehearsal {
  import opened Sequences
  import opened Migration
  import opened MigrationLaws

  /** A rehearsal and a run for real of the same query result, in whatever order, agree on the count if both complete. */
  ghost predicate RehearsalTells(job: Job, table: Table) {
    forall rehearsal: Run, run: Run :: SameQuery(job, table, rehearsal, run) ==>
      After(job, rehearsal, table, |run.order|).migrated == After(job, run, table, |run.order|).migrated
  }

  ghost predicate SameQuery(job: Job, table: Table, rehearsal: Run, run: Run) {
    && rehearsal.dryRun && !run.dryRun && rehearsal.order == run.order && rehearsal.allowOrphans == run.allowOrphans
    && QueryResult(run.order, job, table) && Known(run, job) && Known(rehearsal, job)
    && Completes(job, rehearsal, table) && Completes(job, run, table)
  }

  // ---------- what a rehearsal moves ----------

  /** A rehearsal moves exactly the directly movable rows it passes: nothing is committed under it. */
  lemma {:induction false} RehearsalMoves(job: Job, run: Run, table: Table, n: nat)
    requires run.dryRun && QueryResult(run.order, job, table) && Known(run, job) && n <= |run.order|
    requires !After(job, run, table, n).raised
    ensures After(job, run, table, n).working.Keys == table.Keys + Direct(job, table) * Passed(run.order, n)
  {
    hide After;
    hide Passed;
    hide Direct;
    hide QueryResult;
    if n == 0 {
      NothingPassed(job, run, table, Direct(job, table));
    } else {
      NotRaisedBefore(job, run, table, n - 1);
      RehearsalMoves(job, run, table, n - 1);
      RehearsedRow(job, run, table, n - 1);
      OnePassedMore(run.order, n);
      OneMoreMoved(table.Keys, Direct(job, table), Passed(run.order, n - 1), Passed(run.order, n), run.order[n - 1],
                   After(job, run, table, n - 1).working.Keys, After(job, run, table, n).working.Keys);
    }
  }

  lemma RehearsedRow(job: Job, run: Run, table: Table, m: nat)
    requires run.dryRun && QueryResult(run.order, job, table) && Known(run, job) && m < |run.order|
    requires !After(job, run, table, m).raised
    ensures var s, next := After(job, run, table, m), After(job, run, table, m + 1);
            next.raised || next.working.Keys == s.working.Keys + Direct(job, table) * {run.order[m]}
  {
    hide Convert;
    QueryKnown(run, job, table);
    DryRunCommitsNothing(job, run, table, m);
    AfterStep(job, run, table, m);
  }

  lemma RehearsalCount(job: Job, run: Run, table: Table)
    requires run.dryRun && QueryResult(run.order, job, table) && Known(run, job)
    requires !After(job, run, table, |run.order|).raised
    ensures After(job, run, table, |run.order|).migrated == |Direct(job, table)|
  {
    hide After;
    RehearsalMoves(job, run, table, |run.order|);
    CountIsNewItems(job, run, table, |run.order|);
    AllDirectPassed(job, run.order, table);
    KeysAndMoves(After(job, run, table, |run.order|).working, table, Direct(job, table));
  }

  lemma AllDirectPassed(job: Job, order: seq<Id>, table: Table)
    requires QueryResult(order, job, table)
    ensures Direct(job, table) <= Passed(order, |order|) && Direct(job, table) !! table.Keys
  {
    forall id | id in Direct(job, table) ensures id in Passed(order, |order|) {
      assert id in order;
      var k :| 0 <= k < |order| && order[k] == id;
    }
  }

  lemma KeysAndMoves(working: Table, table: Table, moves: set<Id>)
    requires moves !! table.Keys
    ensures working.Keys == table.Keys + moves ==> |working| == |table| + |moves|
    ensures working.Keys >= table.Keys + moves ==> |working| >= |table| + |moves|
  {
    var rest := working.Keys - (table.Keys + moves);
    assert |working| == |working.Keys| && |table| == |table.Keys|;
    if working.Keys >= table.Keys + moves {
      assert working.Keys == table.Keys + moves + rest;
    }
  }

  // ---------- fewer rows than a batch ----------

  /** With fewer directly movable rows than a batch, nothing is committed before the end, and both runs do the same. */
  lemma {:induction false} SmallRunsAgree(job: Job, table: Table, rehearsal: Run, run: Run, n: nat)
    requires rehearsal.dryRun && rehearsal.order == run.order && rehearsal.allowOrphans == run.allowOrphans
    requires QueryResult(run.order, job, table) && Known(run, job) && Known(rehearsal, job) && n <= |run.order|
    requires |Direct(job, table)| < BATCH
    ensures After(job, run, table, n) == After(job, rehearsal, table, n)
  {
    if n > 0 {
      SmallRunsAgree(job, table, rehearsal, run, n - 1);
      if !After(job, run, table, n - 1).raised {
        SmallRow(job, table, rehearsal, run, n - 1);
      }
    }
  }

  lemma SmallRow(job: Job, table: Table, rehearsal: Run, run: Run, m: nat)
    requires rehearsal.dryRun && rehearsal.order == run.order && rehearsal.allowOrphans == run.allowOrphans
    requires QueryResult(run.order, job, table) && Known(run, job) && Known(rehearsal, job) && m < |run.order|
    requires |Direct(job, table)| < BATCH
    requires !After(job, rehearsal, table, m).raised && After(job, run, table, m) == After(job, rehearsal, table, m)
    ensures After(job, run, table, m + 1) == After(job, rehearsal, table, m + 1)
  {
    hide Convert;
    var s, id := After(job, rehearsal, table, m), run.order[m];
    AfterStep(job, run, table, m);
    AfterStep(job, rehearsal, table, m);
    DryRunCommitsNothing(job, rehearsal, table, m);
    if Migratable(job, id, s.committed) {
      StillSmall(job, table, rehearsal, m);
    }
  }

  /** A directly movable row that is still to be passed leaves the count below the number of such rows. */
  lemma StillSmall(job: Job, table: Table, run: Run, m: nat)
    requires run.dryRun && QueryResult(run.order, job, table) && Known(run, job) && m < |run.order|
    requires !After(job, run, table, m).raised && Migratable(job, run.order[m], table)
    ensures After(job, run, table, m).migrated < |Direct(job, table)|
  {
    var id := run.order[m];
    QueryKnown(run, job, table);
    NotPassedYet(run.order, m);
    CountIsNewItems(job, run, table, m);
    RehearsalMoves(job, run, table, m);
    var moved := Direct(job, table) * Passed(run.order, m);
    KeysAndMoves(After(job, run, table, m).working, table, moved);
    FewerMembers(moved, Direct(job, table), id);
  }

  lemma NotPassedYet(order: seq<Id>, m: nat)
    requires Distinct(order) && m < |order|
    ensures order[m] !in Passed(order, m)
  {
  }

  lemma FewerMembers(few: set<Id>, all: set<Id>, id: Id)
    requires few <= all && id in all && id !in few
    ensures |few| < |all|
  {
    assert all == few + (all - few);
    assert id in all - few;
  }

  // ---------- a full batch, and a row that waits for it ----------

  /** The first `n` rows have all been moved, and committed when they make a full batch. */
  predicate AllMoved(s: State, order: seq<Id>, table: Table, n: nat)
    requires n <= |order|
  {
    && !s.raised && s.migrated == n && s.working.Keys == table.Keys + Passed(order, n)
    && s.committed == if n == BATCH then s.working else table
  }

  /** The first batch: `BATCH` directly movable rows in front. */
  lemma {:induction false} FirstBatch(job: Job, table: Table, run: Run, n: nat)
    requires !run.dryRun && Known(run, job) && n <= BATCH <= |run.order|
    requires forall k :: 0 <= k < BATCH ==> Migratable(job, run.order[k], table)
    ensures AllMoved(After(job, run, table, n), run.order, table, n)
  {
    hide Migratable;
    hide HandleRow;
    if n == 0 {
      assert Passed(run.order, 0) == {};
    } else {
      hide AllMoved;
      hide After;
      FirstBatch(job, table, run, n - 1);
      BatchRow(job, table, run, n - 1);
    }
  }

  lemma BatchRow(job: Job, table: Table, run: Run, m: nat)
    requires !run.dryRun && Known(run, job) && m < BATCH <= |run.order| && Migratable(job, run.order[m], table)
    requires AllMoved(After(job, run, table, m), run.order, table, m)
    ensures AllMoved(After(job, run, table, m + 1), run.order, table, m + 1)
  {
    hide Convert;
    hide Passed;
    AfterStep(job, run, table, m);
    OnePassedMore(run.order, m + 1);
  }

  /** Tables only grow along a run. */
  lemma {:induction false} WorkingGrows(job: Job, run: Run, table: Table, m: nat, n: nat)
    requires Known(run, job) && m <= n <= |run.order|
    ensures After(job, run, table, m).working.Keys <= After(job, run, table, n).working.Keys
  {
    hide Convert;
    if m < n {
      WorkingGrows(job, run, table, m, n - 1);
    }
  }

  /** The row behind the first batch is found to have its endpoints. */
  lemma WaitingRowMoves(job: Job, table: Table, run: Run)
    requires !run.dryRun && QueryResult(run.order, job, table) && Known(run, job) && BATCH < |run.order|
    requires forall k :: 0 <= k < BATCH ==> Migratable(job, run.order[k], table)
    requires TypeKnown(job.rows[run.order[BATCH]], job.mapping)
    requires EndpointsIn(job.rows[run.order[BATCH]], table.Keys + Passed(run.order, BATCH))
    ensures run.order[BATCH] in After(job, run, table, |run.order|).working
  {
    FirstBatch(job, table, run, BATCH);
    BehindBatch(job, table, run);
    WorkingGrows(job, run, table, BATCH + 1, |run.order|);
  }

  lemma BehindBatch(job: Job, table: Table, run: Run)
    requires Known(run, job) && BATCH < |run.order|
    requires var s := After(job, run, table, BATCH);
             !s.raised && s.committed == s.working && Migratable(job, run.order[BATCH], s.working)
    ensures run.order[BATCH] in After(job, run, table, BATCH + 1).working
  {
    hide Convert;
    AfterStep(job, run, table, BATCH);
  }

  lemma {:induction false} SubsetOfSize(base: set<Id>, all: set<Id>, n: nat) returns (s: set<Id>)
    requires base <= all && |base| <= n <= |all|
    ensures base <= s <= all && |s| == n
    decreases n - |base|
  {
    if |base| == n {
      s := base;
    } else {
      assert base != all;
      var x :| x in all && x !in base;
      s := SubsetOfSize(base + {x}, all, n);
    }
  }

  lemma {:induction false} OrderSize(order: seq<Id>, ids: set<Id>)
    requires Enumerates(order, ids)
    ensures |order| == |ids|
  {
    if order == [] {
      assert ids == {};
    } else {
      var n := |order| - 1;
      assert order == order[..n] + [order[n]];
      assert order[n] !in order[..n];
      OrderSize(order[..n], ids - {order[n]});
    }
  }

  /** The endpoints that a waiting row is waiting for: one or two directly movable rows. */
  function Awaited(job: Job, table: Table, id: Id): set<Id>
    requires id in job.rows
  {
    {job.rows[id].sourceId, job.rows[id].relatedId} * Direct(job, table)
  }

  /** A query order with a full batch in front, then the waiting row. */
  lemma WaitingOrder(job: Job, table: Table, id: Id) returns (order: seq<Id>)
    requires id in job.rows && id !in table && !Migratable(job, id, table) && |Direct(job, table)| >= BATCH
    ensures QueryResult(order, job, table) && BATCH < |order| && order[BATCH] == id
    ensures forall k :: 0 <= k < BATCH ==> order[k] in Direct(job, table)
    ensures Awaited(job, table, id) <= Passed(order, BATCH)
  {
    AwaitedAreFew(job, table, id);
    var batch := SubsetOfSize(Awaited(job, table, id), Direct(job, table), BATCH);
    var pending := job.rows.Keys - table.Keys;
    var front := SomeOrder(batch);
    var back := SomeOrder(pending - batch - {id});
    OrderSize(front, batch);
    order := front + [id] + back;
    DirectIsPending(job, table);
    JoinedOrder(front, id, back, batch, pending);
    PassedFront(order, front, batch);
    assert forall k :: 0 <= k < BATCH ==> order[k] == front[k] && front[k] in front;
  }

  lemma AwaitedAreFew(job: Job, table: Table, id: Id)
    requires id in job.rows
    ensures |Awaited(job, table, id)| <= BATCH && Awaited(job, table, id) <= Direct(job, table)
  {
    var a, b := job.rows[id].sourceId, job.rows[id].relatedId;
    var two := {a, b};
    var few := two * Direct(job, table);
    assert two == few + (two - few);
    assert |two| <= 2;
  }

  lemma DirectIsPending(job: Job, table: Table)
    ensures Direct(job, table) <= job.rows.Keys - table.Keys
    ensures forall id :: id in job.rows && !Migratable(job, id, table) ==> id !in Direct(job, table)
  {
  }

  lemma JoinedOrder(front: seq<Id>, id: Id, back: seq<Id>, batch: set<Id>, pending: set<Id>)
    requires Enumerates(front, batch) && Enumerates(back, pending - batch - {id})
    requires batch <= pending && id in pending && id !in batch
    ensures Enumerates(front + [id] + back, pending)
  {
    var order := front + [id] + back;
    assert forall x :: x in order <==> x in front || x == id || x in back;
    assert forall i :: 0 <= i < |front| ==> front[i] in front;
    assert forall i :: 0 <= i < |back| ==> back[i] in back;
  }

  lemma PassedFront(order: seq<Id>, front: seq<Id>, batch: set<Id>)
    requires front <= order && Enumerates(front, batch)
    ensures Passed(order, |front|) == batch
  {
    forall id | id in batch ensures id in Passed(order, |front|) {
      assert id in front;
      var k :| 0 <= k < |front| && front[k] == id;
      assert order[k] == id;
    }
    forall k | 0 <= k < |front| ensures order[k] in batch {
      assert order[k] == front[k] && front[k] in front;
    }
  }

  /** The run for real moves every directly movable row, and the waiting one as well. */
  lemma RealCount(job: Job, table: Table, run: Run, id: Id)
    requires run.allowOrphans && QueryResult(run.order, job, table) && Known(run, job)
    requires id in job.rows && id !in table && !Migratable(job, id, table)
    requires id in After(job, run, table, |run.order|).working
    ensures After(job, run, table, |run.order|).migrated > |Direct(job, table)|
  {
    hide After;
    var n := |run.order|;
    var working, direct := After(job, run, table, n).working, Direct(job, table);
    AllDirectPassed(job, run.order, table);
    AfterGrows(job, run, table, n);
    CountIsNewItems(job, run, table, n);
    forall x | x in direct ensures x in working {
      DirectRowsMove(job, run, table, n, x);
    }
    assert id !in direct;
    KeysAndMoves(working, table, direct + {id});
  }

  /** A row that waits, behind at least a batch of others, is counted by the run for real and not by the rehearsal. */
  lemma WaitingRowMiscounted(job: Job, table: Table, id: Id)
    requires id in job.rows && id !in table && !Migratable(job, id, table) && Migratable(job, id, Goal(job, table))
    requires |Direct(job, table)| >= BATCH
    ensures !RehearsalTells(job, table)
  {
    hide After;
    hide Direct;
    hide Passed;
    var order := WaitingOrder(job, table, id);
    var rehearsal, run := Run(order, true, true, |order| + 1), Run(order, false, true, |order| + 1);
    QueryKnown(run, job, table);
    QueryKnown(rehearsal, job, table);
    NeverRaised(job, rehearsal, table);
    NeverRaised(job, run, table);
    RehearsalCount(job, rehearsal, table);
    EndpointsBehindBatch(job, table, id, order);
    DirectMigratable(job, table);
    WaitingRowMoves(job, table, run);
    RealCount(job, table, run, id);
    assert SameQuery(job, table, rehearsal, run);
  }

  lemma DirectMigratable(job: Job, table: Table)
    ensures forall id :: id in Direct(job, table) ==> Migratable(job, id, table)
  {
  }

  lemma EndpointsBehindBatch(job: Job, table: Table, id: Id, order: seq<Id>)
    requires id in job.rows && Migratable(job, id, Goal(job, table)) && BATCH <= |order|
    requires Awaited(job, table, id) <= Passed(order, BATCH)
    ensures TypeKnown(job.rows[id], job.mapping) && EndpointsIn(job.rows[id], table.Keys + Passed(order, BATCH))
  {
    hide Passed;
    var rel := job.rows[id];
    assert rel.sourceId in table || rel.sourceId in Awaited(job, table, id);
    assert rel.relatedId in table || rel.relatedId in Awaited(job, table, id);
  }

  lemma NeverRaised(job: Job, run: Run, table: Table)
    requires run.allowOrphans && QueryResult(run.order, job, table) && Known(run, job)
    ensures !After(job, run, table, |run.order|).raised
  {
    AfterGrows(job, run, table, |run.order|);
  }

  // ---------- the exact condition ----------

  /** A rehearsal reports the count of the run for real, in every query order in which both complete, if and only if no row
      waits for a row still to be moved or there are fewer directly movable rows than a batch. */
  lemma RehearsalTellsIff(job: Job, table: Table)
    ensures RehearsalTells(job, table) <==> NoChains(job, table) || |Direct(job, table)| < BATCH
  {
    hide After;
    hide Direct;
    if NoChains(job, table) || |Direct(job, table)| < BATCH {
      forall rehearsal: Run, run: Run | SameQuery(job, table, rehearsal, run)
        ensures After(job, rehearsal, table, |run.order|).migrated == After(job, run, table, |run.order|).migrated {
        if NoChains(job, table) {
          RehearsalCounts(job, table, rehearsal, run);
        } else {
          SmallRunsAgree(job, table, rehearsal, run, |run.order|);
        }
      }
    } else {
      var id :| id in job.rows && id !in table && Migratable(job, id, Goal(job, table)) && !Migratable(job, id, table);
      WaitingRowMiscounted(job, table, id);
    }
  }
}
