/** Whatever runs died on the way, one complete run ends where a single uninterrupted run would. */
module MigrationLaws {
  import opened Sequences
  import opened Migration

  /** The rows that can be moved with the items there are at the start. */
  function Direct(job: Job, table: Table): set<Id> {
    set id | id in job.rows && id !in table && Migratable(job, id, table)
  }

  /** The start, plus every directly movable row. */
  function Goal(job: Job, table: Table): Table {
    map id | id in table.Keys + Direct(job, table) ::
      if id in table then table[id] else Convert(id, job.rows[id], job.mapping, table)
  }

  /** Moving rows makes no further row movable: no relationship of a known type hangs from another
      relationship that is itself moved. */
  predicate NoChains(job: Job, table: Table) {
    forall id :: id in job.rows && id !in table && Migratable(job, id, Goal(job, table)) ==> Migratable(job, id, table)
  }

  /** Holds all of `low`, and nothing beyond `high`. */
  predicate Between(low: Table, t: Table, high: Table) {
    && low.Keys <= t.Keys <= high.Keys
    && (forall id :: id in low ==> t[id] == low[id])
    && (forall id :: id in t ==> t[id] == high[id])
  }

  lemma GoalExtends(job: Job, table: Table)
    ensures Between(table, table, Goal(job, table)) && Between(table, Goal(job, table), Goal(job, table))
  {
  }

  // ---------- what a row does to a table on the way ----------

  /** On the way, a row is movable exactly when it was at the start, and becomes the same item. */
  lemma SameMoveAsAtStart(job: Job, start: Table, t: Table, id: Id)
    requires NoChains(job, start) && id in job.rows && id !in start && Between(start, t, Goal(job, start))
    ensures Migratable(job, id, t) <==> id in Direct(job, start)
    ensures Migratable(job, id, t) ==> Convert(id, job.rows[id], job.mapping, t) == Goal(job, start)[id]
  {
    var rel, goal := job.rows[id], Goal(job, start);
    if Migratable(job, id, t) {
      assert Migratable(job, id, goal);
      assert Migratable(job, id, start);
      assert t[rel.sourceId] == start[rel.sourceId];
    }
  }

  lemma MoveStaysBetween(low: Table, t: Table, high: Table, id: Id)
    requires Between(low, t, high) && id !in low && id in high
    ensures Between(low, t[id := high[id]], high)
  {
  }

  lemma HandleRowStaysBetween(job: Job, start: Table, s: State, run: Run, id: Id)
    requires NoChains(job, start) && id in job.rows && id !in start
    requires Between(start, s.working, Goal(job, start)) && Between(start, s.committed, Goal(job, start))
    ensures var t := HandleRow(s, job, run, id);
            Between(start, t.working, Goal(job, start)) && Between(start, t.committed, Goal(job, start))
  {
    SameMoveAsAtStart(job, start, s.committed, id);
    if Migratable(job, id, s.committed) {
      MoveStaysBetween(start, s.working, Goal(job, start), id);
    }
  }

  lemma HandleRowMoves(job: Job, start: Table, s: State, run: Run, id: Id)
    requires NoChains(job, start) && id in job.rows && id !in start && Between(start, s.committed, Goal(job, start))
    ensures var t := HandleRow(s, job, run, id);
            !t.raised ==> t.working.Keys == s.working.Keys + Direct(job, start) * {id}
  {
    SameMoveAsAtStart(job, start, s.committed, id);
  }

  /** On the way from any table between start and goal, a run stays between them. */
  lemma {:induction false} AfterStaysBetween(job: Job, start: Table, run: Run, table: Table, n: nat)
    requires NoChains(job, start) && Between(start, table, Goal(job, start))
    requires QueryResult(run.order, job, table) && Known(run, job) && n <= |run.order|
    ensures var s := After(job, run, table, n);
            Between(start, s.working, Goal(job, start)) && Between(start, s.committed, Goal(job, start))
  {
    if n > 0 {
      AfterStaysBetween(job, start, run, table, n - 1);
      var s := After(job, run, table, n - 1);
      if !s.raised {
        QueryKnown(run, job, table);
        HandleRowStaysBetween(job, start, s, run, run.order[n - 1]);
        AfterStep(job, run, table, n - 1);
      }
    }
  }

  /** And it has moved exactly the movable rows it has passed. */
  lemma {:induction false} AfterMovedPassed(job: Job, start: Table, run: Run, table: Table, n: nat)
    requires NoChains(job, start) && Between(start, table, Goal(job, start))
    requires QueryResult(run.order, job, table) && Known(run, job) && n <= |run.order|
    requires !After(job, run, table, n).raised
    ensures After(job, run, table, n).working.Keys == table.Keys + Direct(job, start) * Passed(run.order, n)
  {
    hide After;
    hide Passed;
    hide Direct;
    hide NoChains;
    hide Between;
    hide QueryResult;
    if n > 0 {
      var m := n - 1;
      NotRaisedBefore(job, run, table, m);
      AfterMovedPassed(job, start, run, table, m);
      RowMoves(job, start, run, table, m);
      OnePassedMore(run.order, n);
      OneMoreMoved(table.Keys, Direct(job, start), Passed(run.order, m), Passed(run.order, n), run.order[m],
                   After(job, run, table, m).working.Keys, After(job, run, table, n).working.Keys);
    } else {
      NothingPassed(job, run, table, Direct(job, start));
    }
  }

  lemma NothingPassed(job: Job, run: Run, table: Table, moves: set<Id>)
    requires Known(run, job)
    ensures After(job, run, table, 0).working.Keys == table.Keys + moves * Passed(run.order, 0)
  {
  }

  lemma OneMoreMoved(keys: set<Id>, moves: set<Id>, passed: set<Id>, next: set<Id>, id: Id, before: set<Id>, after: set<Id>)
    requires before == keys + moves * passed && after == before + moves * {id} && next == passed + {id}
    ensures after == keys + moves * next
  {
  }

  lemma NotRaisedBefore(job: Job, run: Run, table: Table, m: nat)
    requires Known(run, job) && m < |run.order| && !After(job, run, table, m + 1).raised
    ensures !After(job, run, table, m).raised
  {
  }

  lemma RowMoves(job: Job, start: Table, run: Run, table: Table, m: nat)
    requires NoChains(job, start) && Between(start, table, Goal(job, start))
    requires QueryResult(run.order, job, table) && Known(run, job) && m < |run.order|
    requires !After(job, run, table, m).raised
    ensures var s := After(job, run, table, m);
            var next := After(job, run, table, m + 1);
            next.raised || next.working.Keys == s.working.Keys + Direct(job, start) * {run.order[m]}
  {
    QueryKnown(run, job, table);
    AfterStaysBetween(job, start, run, table, m);
    HandleRowMoves(job, start, After(job, run, table, m), run, run.order[m]);
    AfterStep(job, run, table, m);
  }

  lemma OnePassedMore(order: seq<Id>, n: nat)
    requires 0 < n <= |order|
    ensures Passed(order, n) == Passed(order, n - 1) + {order[n - 1]}
  {
  }

  function Passed(order: seq<Id>, n: nat): set<Id>
    requires n <= |order|
  {
    set k | 0 <= k < n :: order[k]
  }

  /** However a run ends, it leaves a table between start and goal. */
  lemma LeavesBetween(job: Job, start: Table, run: Run, table: Table)
    requires NoChains(job, start) && Between(start, table, Goal(job, start))
    requires QueryResult(run.order, job, table) && Known(run, job)
    ensures Between(start, Leaves(job, run, table), Goal(job, start))
  {
    AfterStaysBetween(job, start, run, table, |run.order|);
    AfterStaysBetween(job, start, run, table, if run.diesAfter <= |run.order| then run.diesAfter else |run.order|);
  }

  /** A complete run for real reaches the goal. */
  lemma CompleteRunReachesGoal(job: Job, start: Table, run: Run, table: Table)
    requires NoChains(job, start) && Between(start, table, Goal(job, start))
    requires QueryResult(run.order, job, table) && Known(run, job)
    requires Completes(job, run, table) && !run.dryRun
    ensures Leaves(job, run, table) == Goal(job, start)
  {
    hide After;
    AfterStaysBetween(job, start, run, table, |run.order|);
    AfterMovedPassed(job, start, run, table, |run.order|);
    AllMovedIsGoal(job, start, table, run.order, Leaves(job, run, table));
  }

  /** A table on the way that has every movable row of the query is the goal. */
  lemma AllMovedIsGoal(job: Job, start: Table, table: Table, order: seq<Id>, t: Table)
    requires Between(start, table, Goal(job, start)) && Between(start, t, Goal(job, start))
    requires QueryResult(order, job, table) && t.Keys == table.Keys + Direct(job, start) * Passed(order, |order|)
    ensures t == Goal(job, start)
  {
    hide Convert;
    hide Migratable;
    forall id | id in Goal(job, start) ensures id in t {
      if id !in table {
        assert id in Direct(job, start) && id in order;
        var k :| 0 <= k < |order| && order[k] == id;
        assert id in Passed(order, |order|);
      }
    }
  }

  // ---------- any history of runs ----------

  /** The tables after each of a sequence of runs, each run querying the table it finds. */
  ghost predicate IsHistory(job: Job, runs: seq<Run>, tables: seq<Table>) {
    && |tables| == |runs| + 1
    && forall k :: 0 <= k < |runs| ==>
         && Known(runs[k], job)
         && QueryResult(runs[k].order, job, tables[k])
         && tables[k + 1] == Leaves(job, runs[k], tables[k])
  }

  lemma {:induction false} HistoryStaysBetween(job: Job, runs: seq<Run>, tables: seq<Table>, k: nat)
    requires IsHistory(job, runs, tables) && NoChains(job, tables[0]) && k <= |runs|
    ensures Between(tables[0], tables[k], Goal(job, tables[0]))
  {
    if k == 0 {
      GoalExtends(job, tables[0]);
    } else {
      HistoryStaysBetween(job, runs, tables, k - 1);
      LeavesBetween(job, tables[0], runs[k - 1], tables[k - 1]);
    }
  }

  /** Convergence: after any history of runs, dead, refused, rehearsed or complete, in any query orders,
      one complete run leaves exactly what a single complete run from the start leaves. */
  lemma ResumedRunsConverge(job: Job, runs: seq<Run>, tables: seq<Table>, last: Run, single: Run)
    requires IsHistory(job, runs, tables) && NoChains(job, tables[0])
    requires Known(last, job) && QueryResult(last.order, job, tables[|runs|])
    requires Completes(job, last, tables[|runs|]) && !last.dryRun
    requires Known(single, job) && QueryResult(single.order, job, tables[0])
    requires Completes(job, single, tables[0]) && !single.dryRun
    ensures Leaves(job, last, tables[|runs|]) == Leaves(job, single, tables[0]) == Goal(job, tables[0])
  {
    HistoryStaysBetween(job, runs, tables, |runs|);
    CompleteRunReachesGoal(job, tables[0], last, tables[|runs|]);
    GoalExtends(job, tables[0]);
    CompleteRunReachesGoal(job, tables[0], single, tables[0]);
  }

  /** A run that only rehearses changes nothing, however it ends. */
  lemma RehearsalChangesNothing(job: Job, run: Run, table: Table)
    requires Known(run, job) && run.dryRun
    ensures Leaves(job, run, table) == table
  {
    DryRunCommitsNothing(job, run, table, |run.order|);
    DryRunCommitsNothing(job, run, table, if run.diesAfter <= |run.order| then run.diesAfter else |run.order|);
  }

  /** The count a run reports is the number of items it added: nothing is moved twice. */
  lemma {:induction false} CountIsNewItems(job: Job, run: Run, table: Table, n: nat)
    requires QueryResult(run.order, job, table) && Known(run, job) && n <= |run.order|
    ensures var s := After(job, run, table, n); |s.working| == |table| + s.migrated
  {
    hide HandleRow;
    hide QueryResult;
    hide Known;
    if n > 0 {
      hide After;
      CountIsNewItems(job, run, table, n - 1);
      NotYetMoved(job, run, table, n - 1);
      CountStep(job, run, table, n - 1);
    }
  }

  /** A run for real has committed all but the rows since the last multiple of 500. */
  lemma {:induction false} CommittedByFiveHundreds(job: Job, run: Run, table: Table, n: nat)
    requires !run.dryRun && QueryResult(run.order, job, table) && Known(run, job) && n <= |run.order|
    ensures var s := After(job, run, table, n); |s.committed| == |table| + s.migrated - s.migrated % 500
  {
    hide QueryResult;
    hide HandleRow;
    if n > 0 {
      CommittedByFiveHundreds(job, run, table, n - 1);
      CountIsNewItems(job, run, table, n);
      var s := After(job, run, table, n - 1);
      SameFiveHundred(s.migrated);
      HandleRowCommits(s, job, run, run.order[n - 1]);
    }
  }

  lemma HandleRowCommits(s: State, job: Job, run: Run, id: Id)
    requires !run.dryRun && id in job.rows
    ensures var t := HandleRow(s, job, run, id);
            || (t.migrated == s.migrated && t.committed == s.committed)
            || (t.migrated == s.migrated + 1 && t.committed == if t.migrated % 500 == 0 then t.working else s.committed)
  {
    hide Convert;
    hide Migratable;
  }

  lemma SameFiveHundred(m: nat)
    ensures (m + 1) % 500 != 0 ==> m + 1 - (m + 1) % 500 == m - m % 500
  {
  }

  /** A run that dies or stops with an error loses just those rows. */
  lemma LostTail(job: Job, run: Run, table: Table)
    requires !run.dryRun && QueryResult(run.order, job, table) && Known(run, job) && !Completes(job, run, table)
    ensures var n := if run.diesAfter <= |run.order| then run.diesAfter else |run.order|;
            var moved := After(job, run, table, n).migrated;
            |Leaves(job, run, table)| == |table| + moved - moved % 500
  {
    CommittedByFiveHundreds(job, run, table, if run.diesAfter <= |run.order| then run.diesAfter else |run.order|);
  }

  lemma CountStep(job: Job, run: Run, table: Table, n: nat)
    requires Known(run, job) && n < |run.order| && run.order[n] !in After(job, run, table, n).working
    ensures var s, t := After(job, run, table, n), After(job, run, table, n + 1);
            |t.working| - t.migrated == |s.working| - s.migrated
  {
    hide HandleRow;
    HandleRowCounts(After(job, run, table, n), job, run, run.order[n]);
  }

  lemma NotYetMoved(job: Job, run: Run, table: Table, n: nat)
    requires QueryResult(run.order, job, table) && Known(run, job) && n < |run.order|
    ensures run.order[n] !in After(job, run, table, n).working
  {
    QueryKnown(run, job, table);
    AfterGrows(job, run, table, n);
    assert run.order[n] !in Passed(run.order, n);
  }

  lemma HandleRowCounts(s: State, job: Job, run: Run, id: Id)
    requires id in job.rows && id !in s.working
    ensures var t := HandleRow(s, job, run, id); |t.working| - t.migrated == |s.working| - s.migrated
  {
    hide Convert;
    if Migratable(job, id, s.committed) {
      assert s.working[id := Convert(id, job.rows[id], job.mapping, s.committed)].Keys == s.working.Keys + {id};
    }
  }

  // ---------- without the condition ----------

  /** Tables only grow along a run, whatever the rows look like. */
  lemma {:induction false} AfterGrows(job: Job, run: Run, table: Table, n: nat)
    requires QueryResult(run.order, job, table) && Known(run, job) && n <= |run.order|
    ensures var s := After(job, run, table, n);
            && table.Keys <= s.committed.Keys && table.Keys <= s.working.Keys && (forall id :: id in table ==> s.working[id] == table[id])
            && (forall id :: id in s.working && id !in table ==> id in Passed(run.order, n))
            && (s.raised ==> !run.allowOrphans)
  {
    hide Convert;
    if n > 0 {
      AfterGrows(job, run, table, n - 1);
      assert run.order[n - 1] in run.order;
      assert Passed(run.order, n) == Passed(run.order, n - 1) + {run.order[n - 1]};
    }
  }

  /** With orphans allowed, every row whose endpoints are there when the run starts is moved by it. */
  lemma {:induction false} DirectRowsMove(job: Job, run: Run, table: Table, n: nat, id: Id)
    requires QueryResult(run.order, job, table) && Known(run, job) && run.allowOrphans
    requires n <= |run.order| && id in Passed(run.order, n) && Migratable(job, id, table)
    ensures id in After(job, run, table, n).working
  {
    var s := After(job, run, table, n - 1);
    AfterGrows(job, run, table, n - 1);
    if run.order[n - 1] == id {
      assert Migratable(job, id, s.committed);
    } else {
      assert id in Passed(run.order, n - 1);
      DirectRowsMove(job, run, table, n - 1, id);
    }
  }

  /** The condition is exact. If some row hangs from a movable row, then with orphans allowed a complete
      run that meets the hanging row first passes it over, and the next run moves it after all. */
  lemma ChainsPreventConvergence(job: Job, start: Table, id: Id, rest: seq<Id>, second: Run)
    returns (first: Run)
    requires id in job.rows && id !in start && Migratable(job, id, Goal(job, start)) && !Migratable(job, id, start)
    requires QueryResult([id] + rest, job, start)
    requires second.allowOrphans && !second.dryRun && second.diesAfter > |second.order|
    requires Known(second, job)
    requires QueryResult(second.order, job, AfterFirst(job, start, id, rest))
    ensures first == Run([id] + rest, false, true, |rest| + 2)
    ensures Known(first, job) && Completes(job, first, start) && Completes(job, second, Leaves(job, first, start))
    ensures Leaves(job, second, Leaves(job, first, start)) != Leaves(job, first, start)
  {
    first := Run([id] + rest, false, true, |rest| + 2);
    QueryKnown(first, job, start);
    var once := After(job, first, start, |first.order|).working;
    FirstPassSkips(job, first, start, id, |first.order|);
    AfterGrows(job, first, start, |first.order|);
    forall x | x in Goal(job, start) ensures x in once {
      if x !in start {
        assert x in first.order;
        var k :| 0 <= k < |first.order| && first.order[k] == x;
        assert x in Passed(first.order, |first.order|);
        DirectRowsMove(job, first, start, |first.order|, x);
      }
    }
    assert id in second.order;
    var k :| 0 <= k < |second.order| && second.order[k] == id;
    assert id in Passed(second.order, |second.order|);
    AfterGrows(job, second, once, |second.order|);
    DirectRowsMove(job, second, once, |second.order|, id);
  }

  /** What the first run of `ChainsPreventConvergence` leaves. */
  function AfterFirst(job: Job, start: Table, id: Id, rest: seq<Id>): Table
    requires Known(Run([id] + rest, false, true, |rest| + 2), job)
  {
    Leaves(job, Run([id] + rest, false, true, |rest| + 2), start)
  }

  /** A row met first, and not movable then, is not moved later in the same run. */
  lemma {:induction false} FirstPassSkips(job: Job, run: Run, table: Table, id: Id, n: nat)
    requires QueryResult(run.order, job, table) && Known(run, job) && run.allowOrphans
    requires 0 < n <= |run.order| && run.order[0] == id && !Migratable(job, id, table)
    ensures id !in After(job, run, table, n).working
  {
    assert id in run.order;
    if n == 1 {
      assert After(job, run, table, 0).working == table;
    } else {
      FirstPassSkips(job, run, table, id, n - 1);
    }
  }

  // ---------- the condition is exact ----------

  /** A run that queries the table, finishes and commits. */
  ghost predicate Finishing(job: Job, run: Run, table: Table) {
    Known(run, job) && QueryResult(run.order, job, table) && Completes(job, run, table) && !run.dryRun
  }

  /** Whatever a finished run leaves, the next finished run leaves as it is. */
  ghost predicate OneRunIsEnough(job: Job, start: Table) {
    forall first: Run, second: Run ::
      Finishing(job, first, start) && Finishing(job, second, Leaves(job, first, start)) ==>
        Leaves(job, second, Leaves(job, first, start)) == Leaves(job, first, start)
  }

  /** A row that waits for a row still to be moved lets two finished runs end differently. */
  lemma ChainNeedsTwoRuns(job: Job, start: Table, id: Id)
    requires id in job.rows && id !in start && Migratable(job, id, Goal(job, start)) && !Migratable(job, id, start)
    ensures !OneRunIsEnough(job, start)
  {
    var rest := SomeOrder(job.rows.Keys - start.Keys - {id});
    var run := Run([id] + rest, false, true, |rest| + 2);
    QueryKnown(run, job, start);
    var once := AfterFirst(job, start, id, rest);
    var order := SomeOrder(job.rows.Keys - once.Keys);
    var second := Run(order, false, true, |order| + 1);
    QueryKnown(second, job, once);
    var first := ChainsPreventConvergence(job, start, id, rest, second);
    assert Finishing(job, first, start) && Finishing(job, second, Leaves(job, first, start));
  }

  /** One finished run is enough, in every query order, if and only if no row waits for another. */
  lemma OneRunIsEnoughIff(job: Job, start: Table)
    ensures OneRunIsEnough(job, start) <==> NoChains(job, start)
  {
    if NoChains(job, start) {
      forall first: Run, second: Run | Finishing(job, first, start) && Finishing(job, second, Leaves(job, first, start))
        ensures Leaves(job, second, Leaves(job, first, start)) == Leaves(job, first, start) {
        GoalExtends(job, start);
        CompleteRunReachesGoal(job, start, first, start);
        CompleteRunReachesGoal(job, start, second, Goal(job, start));
      }
    } else {
      var id :| id in job.rows && id !in start && Migratable(job, id, Goal(job, start)) && !Migratable(job, id, start);
      ChainNeedsTwoRuns(job, start, id);
    }
  }

  /** Row `r1` joins `p` and `q`, and row `r2` hangs from `r1`. */
  predicate Chain(job: Job, start: Table) {
    && job.mapping == map["t" := "T"] && start.Keys == {"p", "q"} && job.rows.Keys == {"r1", "r2"}
    && job.rows["r1"].typeId == "t" && job.rows["r1"].sourceId == "p" && job.rows["r1"].relatedId == "q"
    && job.rows["r2"].typeId == "t" && job.rows["r2"].sourceId == "r1" && job.rows["r2"].relatedId == "q"
  }

  lemma ChainMoves(job: Job, start: Table)
    requires Chain(job, start)
    ensures "r1" !in start && "r2" !in start && Migratable(job, "r1", start) && !Migratable(job, "r2", start)
  {
  }

  /** One finished run is not always enough for the chain. */
  lemma ChainExample(job: Job, start: Table)
    requires Chain(job, start)
    ensures !NoChains(job, start) && !OneRunIsEnough(job, start)
  {
    ChainMoves(job, start);
    assert "r1" in Direct(job, start);
    assert Migratable(job, "r2", Goal(job, start));
    OneRunIsEnoughIff(job, start);
  }

  /** Even with `r1` in front, `r2` is not moved in the same batch: the added `r1` is not found before it is committed.
      Without orphans the run raises and leaves nothing; with them it passes `r2` over. */
  lemma PendingIsNotFound(job: Job, start: Table, run: Run)
    requires Chain(job, start) && run.order == ["r1", "r2"] && run.diesAfter > 2
    ensures Known(run, job) && QueryResult(run.order, job, start)
    ensures !run.allowOrphans ==> After(job, run, start, 2).raised && Leaves(job, run, start) == start
    ensures run.allowOrphans ==>
              !After(job, run, start, 2).raised && After(job, run, start, 2).working.Keys == start.Keys + {"r1"}
  {
    ChainMoves(job, start);
    assert "r1"[1] != "r2"[1];
    var first := After(job, run, start, 1);
    assert After(job, run, start, 0) == State(start, start, 0, false);
    assert first == HandleRow(State(start, start, 0, false), job, run, "r1");
    assert first.committed == start && !first.raised && first.working.Keys == start.Keys + {"r1"};
    assert After(job, run, start, 2) == HandleRow(first, job, run, "r2");
  }

  /** Without chains a rehearsal counts what the run for real will move. */
  lemma RehearsalCounts(job: Job, table: Table, rehearsal: Run, run: Run)
    requires NoChains(job, table) && rehearsal.order == run.order
    requires QueryResult(run.order, job, table) && Known(run, job)
    requires !After(job, rehearsal, table, |run.order|).raised && !After(job, run, table, |run.order|).raised
    ensures After(job, rehearsal, table, |run.order|).migrated == After(job, run, table, |run.order|).migrated
  {
    hide After;
    hide NoChains;
    GoalExtends(job, table);
    AfterMovedPassed(job, table, rehearsal, table, |run.order|);
    AfterMovedPassed(job, table, run, table, |run.order|);
    CountIsNewItems(job, rehearsal, table, |run.order|);
    CountIsNewItems(job, run, table, |run.order|);
    SameSize(After(job, rehearsal, table, |run.order|).working, After(job, run, table, |run.order|).working);
  }

  lemma SameSize(a: Table, b: Table)
    requires a.Keys == b.Keys
    ensures |a| == |b|
  {
    assert |a| == |a.Keys| && |b| == |b.Keys|;
  }
}
