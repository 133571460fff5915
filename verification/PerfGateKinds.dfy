/** The verdict and the kinds of databases: a candidate is compared with baselines of its own kind and no others. */
module PerfGateKinds {
  import opened Options
  import opened PerfReport
  import opened PerfDatabases
  import opened PerfGate

  lemma {:induction false} PoolConcat(a: seq<Report>, b: seq<Report>, name: string)
    ensures Pool(a + b, name) == Pool(a, name) + Pool(b, name)
  {
    if b == [] {
      assert a + b == a;
    } else {
      assert (a + b)[..|a + b| - 1] == a + b[..|b| - 1];
      PoolConcat(a, b[..|b| - 1], name);
    }
  }

  lemma {:induction false} PoolOfOthers(runs: seq<Report>, name: string)
    requires forall run :: run in runs ==> DbLabel(run.db) != name
    ensures Pool(runs, name) == []
  {
    if runs != [] {
      var n := |runs| - 1;
      assert runs == runs[..n] + [runs[n]];
      assert runs[n] in runs && forall run :: run in runs[..n] ==> run in runs;
      PoolOfOthers(runs[..n], name);
    }
  }

  lemma {:induction false} PoolOfSame(runs: seq<Report>, name: string)
    requires forall run :: run in runs ==> DbLabel(run.db) == name
    ensures Pool(runs, name) == runs
  {
    if runs != [] {
      var n := |runs| - 1;
      assert runs == runs[..n] + [runs[n]];
      assert runs[n] in runs && forall run :: run in runs[..n] ==> run in runs;
      PoolOfSame(runs[..n], name);
    }
  }

  /** Baselines on other kinds of database, put in anywhere, change nothing about the verdict. */
  lemma OtherKindsIgnored(candidate: Report, front: seq<Report>, others: seq<Report>, back: seq<Report>, limits: Limits, j: Kind)
    requires IsKind(candidate.db, j)
    requires forall run :: run in others ==> exists k :: k != j && IsKind(run.db, k)
    ensures Failures(candidate, front + others + back, limits) == Failures(candidate, front + back, limits)
    ensures Passes(candidate, front + others + back, limits) == Passes(candidate, front + back, limits)
  {
    hide DbLabel;
    hide IsKind;
    var name := DbLabel(candidate.db);
    forall run | run in others ensures DbLabel(run.db) != name {
      var k :| k != j && IsKind(run.db, k);
      KindsApart(candidate.db, run.db, j, k);
    }
    PoolOfOthers(others, name);
    PoolConcat(front + others, back, name);
    PoolConcat(front, others, name);
    PoolConcat(front, back, name);
    assert Pool(front, name) + [] == Pool(front, name);
  }

  /** Baselines all of the candidate's kind are all compared with, up to the window, which counts from the first and is
      at least one. */
  lemma OneKindWindow(candidate: Report, baselines: seq<Report>, limits: Limits, k: Kind)
    requires IsKind(candidate.db, k) && forall run :: run in baselines ==> IsKind(run.db, k)
    ensures var window := WindowOf(candidate, baselines, limits);
            && window <= baselines && (limits.window >= |baselines| || |baselines| == 1 ==> window == baselines)
            && (1 <= limits.window <= |baselines| ==> |window| == limits.window)
            && (limits.window < 1 <= |baselines| ==> |window| == 1)
  {
    hide DbLabel;
    hide IsKind;
    forall run | run in baselines ensures DbLabel(run.db) == DbLabel(candidate.db) {
      KindsApart(run.db, candidate.db, k, k);
    }
    PoolOfSame(baselines, DbLabel(candidate.db));
  }

  /** Slower runs on Postgres do not excuse a regression on SQLite: 40 ms against 10 ms fails, whatever Postgres took. */
  lemma PostgresDoesNotExcuse(candidate: Report, base: Report, postgres: Report)
    requires IsKind(candidate.db, Sqlite) && IsKind(base.db, Sqlite) && IsKind(postgres.db, Postgres)
    requires Seconds(candidate, "search") == Some(0.04) && Seconds(base, "search") == Some(0.01)
    ensures !Passes(candidate, [postgres, base], Limits(5, 0.3, 10.0, Maximum))
  {
    hide DbLabel;
    hide IsKind;
    hide Seconds;
    var limits := Limits(5, 0.3, 10.0, Maximum);
    assert [] + [postgres] + [base] == [postgres, base] && [] + [base] == [base];
    OtherKindsIgnored(candidate, [], [postgres], [base], limits, Sqlite);
    OneKindWindow(candidate, [base], limits, Sqlite);
    assert WindowOf(candidate, [base], limits) == [base];
    OneValue(base, "search", 0.01);
    MeasuredScenario(candidate, "search");
    assert "search" in Failures(candidate, [base], limits);
  }

  lemma OneValue(run: Report, name: string, value: real)
    requires Seconds(run, name) == Some(value)
    ensures Values([run], name) == [value]
  {
    assert [run][..0] == [];
    assert Values([run][..0], name) == [];
  }

  lemma MeasuredScenario(run: Report, name: string)
    requires Seconds(run, name).Some?
    ensures name in run.scenarios
  {
  }
}
