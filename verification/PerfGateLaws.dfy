/** What the gate's verdict does when measurements, tolerances and windows change. */
module PerfGateLaws {
  import opened Options
  import opened Text
  import opened Duration
  import opened PerfReport
  import opened PerfRoundTrip
  import opened PerfDatabases
  import opened PerfGate

  // ---------- values of a window ----------

  lemma {:induction false} ValuesNonNegative(runs: seq<Report>, name: string)
    ensures forall k :: 0 <= k < |Values(runs, name)| ==> Values(runs, name)[k] >= 0.0
  {
    if runs != [] {
      ValuesNonNegative(runs[..|runs| - 1], name);
    }
  }

  lemma {:induction false} ValuesOfPrefix(runs: seq<Report>, n: nat, name: string)
    requires n <= |runs|
    ensures Values(runs[..n], name) <= Values(runs, name)
  {
    if n < |runs| {
      ValuesOfPrefix(runs[..|runs| - 1], n, name);
      assert runs[..|runs| - 1][..n] == runs[..n];
    } else {
      assert runs[..n] == runs;
    }
  }

  /** Every run's value is among the values, and every value is some run's. */
  lemma {:induction false} ValuesAreRuns(runs: seq<Report>, name: string)
    ensures forall run :: run in runs && Seconds(run, name).Some? ==> Seconds(run, name).value in Values(runs, name)
    ensures forall v :: v in Values(runs, name) ==> exists run :: run in runs && Seconds(run, name) == Some(v)
  {
    if runs != [] {
      var front, last := runs[..|runs| - 1], runs[|runs| - 1];
      ValuesAreRuns(front, name);
      assert forall run :: run in runs <==> run in front || run == last;
      forall v | v in Values(runs, name) ensures exists run :: run in runs && Seconds(run, name) == Some(v) {
        if v in Values(front, name) {
          var run :| run in front && Seconds(run, name) == Some(v);
          assert run in runs;
        } else {
          assert last in runs && Seconds(last, name) == Some(v);
        }
      }
    }
  }

  lemma WindowGrows(pool: seq<Report>, w: int, wide: int)
    requires w <= wide
    ensures Window(pool, w) <= Window(pool, wide)
  {
  }

  lemma StatNotNegative(values: seq<real>, stat: Stat)
    requires forall k :: 0 <= k < |values| ==> values[k] >= 0.0
    ensures BaselineStat(values, stat) >= 0.0
  {
    if values != [] {
      MaxOfSpec(values);
      StatBetween(values, stat, 0.0, MaxOf(values));
    }
  }

  lemma StatNonNegative(runs: seq<Report>, name: string, stat: Stat)
    ensures BaselineStat(Values(runs, name), stat) >= 0.0
  {
    ValuesNonNegative(runs, name);
    StatNotNegative(Values(runs, name), stat);
  }

  // ---------- monotonicity ----------

  lemma RegressedIsMonotone(x: real, y: real, base: real, pct: real, pct': real, abs: real, abs': real)
    requires y <= x && base >= 0.0 && pct <= pct' && abs <= abs'
    ensures Regressed(y, base, pct', abs') ==> Regressed(x, base, pct, abs)
  {
    assert base * (1.0 + pct) <= base * (1.0 + pct');
  }

  /** A candidate that is nowhere faster and measured wherever the other is fails on every scenario the other fails on:
      getting slower never turns a failure into a pass. */
  lemma SlowerStillFails(fast: Report, slow: Report, baselines: seq<Report>, limits: Limits)
    requires DbLabel(fast.db) == DbLabel(slow.db)
    requires forall name :: name in fast.scenarios && Seconds(fast, name).Some? ==>
               Seconds(slow, name).Some? && Seconds(slow, name).value >= Seconds(fast, name).value
    ensures Failures(fast, baselines, limits) <= Failures(slow, baselines, limits)
    ensures Passes(slow, baselines, limits) ==> Passes(fast, baselines, limits)
  {
    forall name | name in Failures(fast, baselines, limits) ensures name in Failures(slow, baselines, limits) {
      var window := WindowOf(fast, baselines, limits);
      StatNonNegative(window, name, limits.stat);
      RegressedIsMonotone(Seconds(slow, name).value, Seconds(fast, name).value, BaselineStat(Values(window, name), limits.stat),
                          AtLeastZero(limits.pct), AtLeastZero(limits.pct),
                          AtLeastZero(limits.absMs / 1000.0), AtLeastZero(limits.absMs / 1000.0));
    }
  }

  /** Larger tolerances fail on no further scenario: raising one never turns a pass into a failure. */
  lemma LooserStillPasses(candidate: Report, baselines: seq<Report>, tight: Limits, loose: Limits)
    requires tight.window == loose.window && tight.stat == loose.stat
    requires tight.pct <= loose.pct && tight.absMs <= loose.absMs
    ensures Failures(candidate, baselines, loose) <= Failures(candidate, baselines, tight)
    ensures Passes(candidate, baselines, tight) ==> Passes(candidate, baselines, loose)
  {
    forall name | name in Failures(candidate, baselines, loose) ensures name in Failures(candidate, baselines, tight) {
      var window, x := WindowOf(candidate, baselines, tight), Seconds(candidate, name).value;
      StatNonNegative(window, name, tight.stat);
      RegressedIsMonotone(x, x, BaselineStat(Values(window, name), tight.stat),
                          AtLeastZero(tight.pct), AtLeastZero(loose.pct),
                          AtLeastZero(tight.absMs / 1000.0), AtLeastZero(loose.absMs / 1000.0));
    }
  }

  lemma NotOverBase(x: real, base: real, pct: real, abs: real)
    requires 0.0 <= base && x <= base && pct >= 0.0
    ensures !Regressed(x, base, pct, abs)
  {
    assert base * (1.0 + pct) == base + base * pct;
    assert base * pct >= 0.0;
  }

  /** Under `max`, a candidate that in every scenario it was measured in is no slower than some run of the window passes;
      scenarios no run of the window was measured in do not matter. */
  lemma NoSlowerThanSomePasses(candidate: Report, baselines: seq<Report>, limits: Limits)
    requires limits.stat == Maximum
    requires forall name :: (name in candidate.scenarios && Seconds(candidate, name).Some?
                             && Values(WindowOf(candidate, baselines, limits), name) != []) ==>
               exists v :: v in Values(WindowOf(candidate, baselines, limits), name) && Seconds(candidate, name).value <= v
    ensures Passes(candidate, baselines, limits)
  {
    var window := WindowOf(candidate, baselines, limits);
    forall name | name in candidate.scenarios ensures !Fails(limits, Seconds(candidate, name), Values(window, name)) {
      var values := Values(window, name);
      if Seconds(candidate, name).Some? && values != [] {
        MaxOfSpec(values);
        StatNonNegative(window, name, Maximum);
        NotOverBase(Seconds(candidate, name).value, MaxOf(values), AtLeastZero(limits.pct), AtLeastZero(limits.absMs / 1000.0));
      }
    }
  }

  // ---------- widening the window ----------

  lemma RegressedAtLowerBase(x: real, base: real, lower: real, pct: real, abs: real)
    requires lower <= base && pct >= 0.0
    ensures Regressed(x, base, pct, abs) ==> Regressed(x, lower, pct, abs)
  {
    assert lower * (1.0 + pct) <= base * (1.0 + pct);
  }

  /** Every measurement that fails against `base` also fails against `lower` - in both directions of the order. */
  lemma FailsAtLeastAsOftenIff(base: real, lower: real, pct: real, abs: real)
    requires base >= 0.0 && lower >= 0.0 && pct >= 0.0 && abs >= 0.0
    ensures (forall x: real :: x >= 0.0 && Regressed(x, base, pct, abs) ==> Regressed(x, lower, pct, abs)) <==> lower <= base
  {
    if lower <= base {
      forall x: real | x >= 0.0 && Regressed(x, base, pct, abs) ensures Regressed(x, lower, pct, abs) {
        RegressedAtLowerBase(x, base, lower, pct, abs);
      }
    } else {
      BetweenTwoBases(lower, base, pct, abs);
    }
  }

  lemma SomethingRegresses(base: real, pct: real, abs: real)
    requires base >= 0.0 && pct >= 0.0 && abs >= 0.0
    ensures exists x: real :: x >= 0.0 && Regressed(x, base, pct, abs)
  {
    var x := base * (1.0 + pct) + base + abs + 1.0;
    assert base * (1.0 + pct) == base + base * pct && base * pct >= 0.0;
    assert x >= 0.0 && Regressed(x, base, pct, abs);
  }

  /** Exactly when more baseline values can fail no further measurement: there are none, or there were some before
      and the baseline has not dropped. */
  lemma WideningIsSafeIff(limits: Limits, values: seq<real>, more: seq<real>)
    requires forall k :: 0 <= k < |values| ==> values[k] >= 0.0
    requires forall k :: 0 <= k < |more| ==> more[k] >= 0.0
    ensures (forall x: real :: x >= 0.0 && Fails(limits, Some(x), more) ==> Fails(limits, Some(x), values))
       <==> more == [] || (values != [] && BaselineStat(values, limits.stat) <= BaselineStat(more, limits.stat))
  {
    var pct, abs := AtLeastZero(limits.pct), AtLeastZero(limits.absMs / 1000.0);
    var b, c := BaselineStat(values, limits.stat), BaselineStat(more, limits.stat);
    StatNotNegative(values, limits.stat);
    StatNotNegative(more, limits.stat);
    FailsAtLeastAsOftenIff(c, b, pct, abs);
    SomethingRegresses(c, pct, abs);
    assert forall x: real :: Fails(limits, Some(x), more) <==> more != [] && Regressed(x, c, pct, abs);
    assert forall x: real :: Fails(limits, Some(x), values) <==> values != [] && Regressed(x, b, pct, abs);
  }

  lemma BetweenTwoBases(high: real, low: real, pct: real, abs: real)
    requires 0.0 <= low < high && pct >= 0.0 && abs >= 0.0
    ensures exists x: real :: x >= 0.0 && Regressed(x, low, pct, abs) && !Regressed(x, high, pct, abs)
  {
    var threshold := high * (1.0 + pct);
    assert low * (1.0 + pct) < threshold;
    var x := if low + abs < threshold then threshold else low + abs;
    assert x >= 0.0 && Regressed(x, low, pct, abs) && !Regressed(x, high, pct, abs);
  }

  /** Under `max`, a wider window turns no pass into a failure, if every scenario that gets a baseline value had one. */
  lemma WiderStillPasses(candidate: Report, baselines: seq<Report>, limits: Limits, wide: int)
    requires limits.stat == Maximum && limits.window <= wide
    requires forall name :: name in candidate.scenarios && Values(WindowOf(candidate, baselines, limits.(window := wide)), name) != []
               ==> Values(WindowOf(candidate, baselines, limits), name) != []
    ensures Failures(candidate, baselines, limits.(window := wide)) <= Failures(candidate, baselines, limits)
    ensures Passes(candidate, baselines, limits) ==> Passes(candidate, baselines, limits.(window := wide))
  {
    var pool := Pool(baselines, DbLabel(candidate.db));
    var small, large := Window(pool, limits.window), Window(pool, wide);
    WindowGrows(pool, limits.window, wide);
    forall name | name in FailuresIn(candidate, large, limits) ensures name in FailuresIn(candidate, small, limits) {
      FailsInPart(Seconds(candidate, name), small, large, name, limits);
    }
    SameTolerances(candidate, large, limits, wide);
  }

  /** Over given runs the window size no longer matters. */
  lemma SameTolerances(candidate: Report, runs: seq<Report>, limits: Limits, wide: int)
    ensures FailuresIn(candidate, runs, limits.(window := wide)) == FailuresIn(candidate, runs, limits)
  {
  }

  /** Under `max`, what fails against all the runs also fails against the first of them, once these have a value. */
  lemma FailsInPart(x: Option<real>, few: seq<Report>, all: seq<Report>, name: string, limits: Limits)
    requires few <= all && limits.stat == Maximum && Values(few, name) != []
    requires Fails(limits, x, Values(all, name))
    ensures Fails(limits, x, Values(few, name))
  {
    ValuesOfPrefix(all, |few|, name);
    assert all[..|few|] == few;
    var values, more := Values(few, name), Values(all, name);
    MaxOnlyGrows(values, more);
    RegressedAtLowerBase(x.value, MaxOf(more), MaxOf(values), AtLeastZero(limits.pct), AtLeastZero(limits.absMs / 1000.0));
  }

  lemma MaxOnlyGrows(values: seq<real>, more: seq<real>)
    requires values != [] && values <= more
    ensures MaxOf(values) <= MaxOf(more)
  {
    MaxOfSpec(values);
    MaxOfSpec(more);
    var k :| 0 <= k < |values| && values[k] == MaxOf(values);
    assert more[k] == values[k];
  }

  /** A report of one scenario measured at so many seconds. */
  function OneScenario(seconds: real): Report
    requires seconds >= 0.0
  {
    Report("", "", "", map["search" := ScenarioRow("search", FormatDuration(seconds), "PASS")])
  }

  lemma OneScenarioValue(seconds: nat)
    requires seconds > 0
    ensures Seconds(OneScenario(seconds as real), "search") == Some(seconds as real)
  {
    FormatThenParse(seconds as real);
    PrintedWhole(seconds);
  }

  lemma PrintedWhole(seconds: nat)
    requires seconds > 0
    ensures Printed(seconds as real) == seconds as real
  {
    assert Round(seconds as real * 1000.0) == seconds * 1000;
  }

  lemma MedianOfThree()
    ensures BaselineStat([3.0], Median) == 3.0 && BaselineStat([3.0, 1.0, 1.0], Median) == 1.0
  {
    StatBetween([3.0], Median, 3.0, 3.0);
    assert [3.0, 1.0, 1.0][1..] == [1.0, 1.0] && [1.0, 1.0][1..] == [1.0] && [1.0][1..] == [];
    assert Sorted([1.0]) == [1.0];
    assert Sorted([1.0, 1.0]) == [1.0, 1.0];
    assert Insert(3.0, [1.0]) == [1.0, 3.0];
    assert Insert(3.0, [1.0, 1.0]) == [1.0, 1.0, 3.0];
    assert Sorted([3.0, 1.0, 1.0]) == [1.0, 1.0, 3.0];
  }

  /** Under `median` the law fails: older, faster runs pull the baseline down. */
  lemma MedianWideningFails(slow: Report, fast: Report)
    requires slow == OneScenario(3.0) && fast == OneScenario(1.0)
    ensures Passes(slow, [slow, fast, fast], Limits(1, 0.0, 0.0, Median))
    ensures !Passes(slow, [slow, fast, fast], Limits(3, 0.0, 0.0, Median))
  {
    var tight, wide := Limits(1, 0.0, 0.0, Median), Limits(3, 0.0, 0.0, Median);
    OneScenarioValue(3);
    OneScenarioValue(1);
    ThreeRuns(slow, fast, fast);
    MedianOfThree();
    VerdictByScenario(slow, [slow, fast, fast], tight, "search");
    VerdictByScenario(slow, [slow, fast, fast], wide, "search");
  }

  /** A candidate of one scenario passes unless that scenario fails. */
  lemma VerdictByScenario(candidate: Report, baselines: seq<Report>, limits: Limits, name: string)
    requires candidate.scenarios.Keys == {name}
    ensures Passes(candidate, baselines, limits)
       <==> !Fails(limits, Seconds(candidate, name), Values(WindowOf(candidate, baselines, limits), name))
  {
    if name in Failures(candidate, baselines, limits) {
      assert !Passes(candidate, baselines, limits);
    }
  }

  /** Three runs on one database: the windows of one and of three, and their values. */
  lemma ThreeRuns(a: Report, b: Report, c: Report)
    requires a.db == b.db == c.db == ""
    requires Seconds(a, "search").Some? && Seconds(b, "search").Some? && Seconds(c, "search").Some?
    ensures var pool := Pool([a, b, c], "-");
            && Values(Window(pool, 1), "search") == [Seconds(a, "search").value]
            && Values(Window(pool, 3), "search") == [Seconds(a, "search").value, Seconds(b, "search").value, Seconds(c, "search").value]
  {
    assert DbLabel("") == "-";
    assert [a, b, c][..2] == [a, b] && [a, b][..1] == [a] && [a][..0] == [];
    assert Pool([a], "-") == [a];
    assert Pool([a, b], "-") == [a, b];
    assert Pool([a, b, c], "-") == [a, b, c];
    assert Window([a, b, c], 1) == [a];
    assert Values([a], "search") == [Seconds(a, "search").value];
    assert Values([a, b], "search") == [Seconds(a, "search").value, Seconds(b, "search").value];
  }

  // ---------- from measurement to verdict ----------

  /** Everything a report is written from. */
  datatype Written = Written(results: seq<Result>, started: string, ended: string, duration: nat, git: string, db: string)

  predicate WrittenOk(w: Written) {
    && w.results != [] && AllOk(w.results) && DistinctNames(w.results)
    && TagOk(w.started) && w.started != "" && TagOk(w.git) && TagOk(w.db)
  }

  /** The written report, read back. */
  function ReadBack(w: Written, stem: string): Option<Report>
    requires WrittenOk(w)
  {
    Finish(ReadLines(FRESH, Heading(w.started, w.ended, w.duration, w.git, w.db) + ResultLines(w.results) + Closing(w.results)), stem)
  }

  /** What the gate makes of a measured time, after writing, reading and parsing: the time as printed. */
  lemma MeasuredIsRead(w: Written, stem: string, k: nat)
    requires WrittenOk(w) && k < |w.results|
    ensures ReadBack(w, stem).Some?
    ensures ReadBack(w, stem).value.scenarios.Keys == set i | 0 <= i < |w.results| :: w.results[i].name
    ensures var m := w.results[k].measured;
            Seconds(ReadBack(w, stem).value, w.results[k].name) == if m.Some? then Some(Printed(m.value)) else None
  {
    ReadsBack(w.results, w.started, w.ended, w.duration, w.git, w.db, stem);
    RowPerName(w.results);
    if w.results[k].measured.Some? {
      FormatThenParse(w.results[k].measured.value);
    } else {
      DashIsNone();
    }
  }

  lemma DashIsNone()
    ensures ParseDuration("-") == None
  {
    StripTrimmed("-");
  }

  /** The measurement beats, or equals, one behind some report of the window. */
  ghost predicate Beats(result: Result, window: seq<Report>, stem: string) {
    result.measured.Some? ==>
      exists w: Written, m: nat :: WrittenOk(w) && m < |w.results| && ReadBack(w, stem).Some? && ReadBack(w, stem).value in window
        && w.results[m].name == result.name && w.results[m].measured.Some?
        && result.measured.value <= w.results[m].measured.value
  }

  /** A run whose every measured time is no longer than one behind a report of the window passes under `max`,
      although both were rounded, printed and parsed on the way. */
  lemma NoSlowerRunPasses(w: Written, stem: string, baselines: seq<Report>, limits: Limits)
    requires WrittenOk(w) && ReadBack(w, stem).Some? && limits.stat == Maximum
    requires forall k :: 0 <= k < |w.results| ==> Beats(w.results[k], WindowOf(ReadBack(w, stem).value, baselines, limits), stem)
    ensures Passes(ReadBack(w, stem).value, baselines, limits)
  {
    var candidate := ReadBack(w, stem).value;
    var window := WindowOf(candidate, baselines, limits);
    MeasuredIsRead(w, stem, 0);
    forall name | name in candidate.scenarios && Seconds(candidate, name).Some?
      ensures exists v :: v in Values(window, name) && Seconds(candidate, name).value <= v
    {
      var k :| 0 <= k < |w.results| && w.results[k].name == name;
      MeasuredIsRead(w, stem, k);
      BeatenValue(w.results[k], window, stem);
    }
    NoSlowerThanSomePasses(candidate, baselines, limits);
  }

  lemma BeatenValue(result: Result, window: seq<Report>, stem: string)
    requires Measurable(result) && result.measured.Some? && Beats(result, window, stem)
    ensures exists v :: v in Values(window, result.name) && Printed(result.measured.value) <= v
  {
    var w: Written, m: nat :| WrittenOk(w) && m < |w.results| && ReadBack(w, stem).Some? && ReadBack(w, stem).value in window
        && w.results[m].name == result.name && w.results[m].measured.Some?
        && result.measured.value <= w.results[m].measured.value;
    MeasuredIsRead(w, stem, m);
    ValuesAreRuns(window, result.name);
    PrintedMonotone(result.measured.value, w.results[m].measured.value);
  }

  /** A scenario whose measured time is beyond both tolerances of every value in the window, by more than printing can
      hide, is reported as a failure, under `max` and under `median`. */
  lemma RealRegressionFails(w: Written, stem: string, baselines: seq<Report>, limits: Limits, k: nat, slowest: real)
    requires WrittenOk(w) && ReadBack(w, stem).Some? && k < |w.results| && w.results[k].measured.Some?
    requires Values(WindowOf(ReadBack(w, stem).value, baselines, limits), w.results[k].name) != []
    requires forall v :: v in Values(WindowOf(ReadBack(w, stem).value, baselines, limits), w.results[k].name) ==> v <= slowest
    requires w.results[k].measured.value > slowest * (1.0 + AtLeastZero(limits.pct)) + 0.0005
    requires w.results[k].measured.value >= slowest + AtLeastZero(limits.absMs / 1000.0) + 0.0005
    ensures w.results[k].name in Failures(ReadBack(w, stem).value, baselines, limits)
  {
    var candidate, name := ReadBack(w, stem).value, w.results[k].name;
    MeasuredIsRead(w, stem, k);
    FarOverFails(w.results[k].measured.value, WindowOf(candidate, baselines, limits), name, limits, slowest);
    assert name in candidate.scenarios;
  }

  lemma FarOverFails(x: real, window: seq<Report>, name: string, limits: Limits, slowest: real)
    requires x >= 0.0 && Values(window, name) != []
    requires forall v :: v in Values(window, name) ==> v <= slowest
    requires x > slowest * (1.0 + AtLeastZero(limits.pct)) + 0.0005
    requires x >= slowest + AtLeastZero(limits.absMs / 1000.0) + 0.0005
    ensures Fails(limits, Some(Printed(x)), Values(window, name))
  {
    PrintedError(x);
    ValuesNonNegative(window, name);
    var values := Values(window, name);
    assert forall k :: 0 <= k < |values| ==> values[k] in values;
    StatBetween(values, limits.stat, 0.0, slowest);
    RegressedAtLowerBase(Printed(x), slowest, BaselineStat(Values(window, name), limits.stat),
                         AtLeastZero(limits.pct), AtLeastZero(limits.absMs / 1000.0));
  }
}
