/** The gate: a candidate report against a window of baseline reports. */
module PerfGate {
  import opened Options
  import opened Duration
  import opened PerfReport
  import opened PerfDatabases

  datatype Stat = Median | Maximum

  /** How the gate is set up; the tolerances count as zero when negative, the window as one when smaller. */
  datatype Limits = Limits(window: int, pct: real, absMs: real, stat: Stat)

  function AtLeastZero(x: real): (y: real)
    ensures y >= 0.0 && y >= x && (y == x || y == 0.0)
  {
    if x < 0.0 then 0.0 else x
  }

  // ---------- the baseline value ----------

  predicate Ascending(s: seq<real>) {
    forall i, j :: 0 <= i < j < |s| ==> s[i] <= s[j]
  }

  function Insert(x: real, s: seq<real>): seq<real> {
    if s == [] || x <= s[0] then [x] + s else [s[0]] + Insert(x, s[1..])
  }

  function Sorted(s: seq<real>): seq<real> {
    if s == [] then [] else Insert(s[0], Sorted(s[1..]))
  }

  lemma {:induction false} InsertContents(x: real, s: seq<real>)
    ensures multiset(Insert(x, s)) == multiset(s) + multiset{x}
  {
    if s != [] && x > s[0] {
      InsertContents(x, s[1..]);
      assert s == [s[0]] + s[1..];
    }
  }

  lemma {:induction false} InsertSorts(x: real, s: seq<real>)
    requires Ascending(s)
    ensures Ascending(Insert(x, s))
  {
    if s != [] && x > s[0] {
      InsertSorts(x, s[1..]);
      InsertContents(x, s[1..]);
      var r := Insert(x, s[1..]);
      forall k | 0 <= k < |r| ensures s[0] <= r[k] {
        assert r[k] in multiset(r);
        assert r[k] == x || r[k] in s[1..];
      }
    }
  }

  lemma {:induction false} SortedIsSort(s: seq<real>)
    ensures Ascending(Sorted(s)) && multiset(Sorted(s)) == multiset(s) && |Sorted(s)| == |s|
  {
    if s != [] {
      SortedIsSort(s[1..]);
      InsertSorts(s[0], Sorted(s[1..]));
      InsertContents(s[0], Sorted(s[1..]));
      assert s == [s[0]] + s[1..];
    }
    assert |multiset(Sorted(s))| == |multiset(s)|;
  }

  function MaxOf(s: seq<real>): real
    requires s != []
  {
    if |s| == 1 then s[0]
    else
      var m := MaxOf(s[..|s| - 1]);
      if s[|s| - 1] > m then s[|s| - 1] else m
  }

  lemma {:induction false} MaxOfSpec(s: seq<real>)
    requires s != []
    ensures MaxOf(s) in s && forall k :: 0 <= k < |s| ==> s[k] <= MaxOf(s)
  {
    if |s| > 1 {
      MaxOfSpec(s[..|s| - 1]);
    }
  }

  function BaselineStat(values: seq<real>, stat: Stat): real {
    if values == [] then 0.0
    else if stat == Maximum then MaxOf(values)
    else
      SortedIsSort(values);
      var data, n := Sorted(values), |values|;
      if n % 2 == 1 then data[n / 2] else (data[n / 2 - 1] + data[n / 2]) / 2.0
  }

  /** Two ascending lists of the same values are the same. */
  lemma {:induction false} AscendingUnique(s: seq<real>, t: seq<real>)
    requires Ascending(s) && Ascending(t) && multiset(s) == multiset(t)
    ensures s == t
  {
    hide Ascending;
    SameLength(s, t);
    if s != [] {
      var n := |s| - 1;
      LastIsMost(s, t);
      LastIsMost(t, s);
      WithoutLast(s);
      WithoutLast(t);
      AscendingUnique(s[..n], t[..n]);
      SplitLast(s);
      SplitLast(t);
    }
  }

  lemma SameLength(s: seq<real>, t: seq<real>)
    requires multiset(s) == multiset(t)
    ensures |s| == |t|
  {
    assert |s| == |multiset(s)|;
  }

  lemma SplitLast(s: seq<real>)
    requires s != []
    ensures s == s[..|s| - 1] + [s[|s| - 1]]
  {
  }

  lemma WithoutLast(s: seq<real>)
    requires Ascending(s) && s != []
    ensures var n := |s| - 1; Ascending(s[..n]) && multiset(s[..n]) == multiset(s) - multiset{s[n]}
  {
    assert s == s[..|s| - 1] + [s[|s| - 1]];
  }

  lemma LastIsMost(s: seq<real>, t: seq<real>)
    requires Ascending(s) && s != [] && t != [] && multiset(s) == multiset(t)
    ensures t[|t| - 1] <= s[|s| - 1]
  {
    assert t[|t| - 1] in multiset(t);
    var i :| 0 <= i < |s| && s[i] == t[|t| - 1];
  }

  /** The median is the middle of the values in ascending order, however these were found, or halfway between the middle two;
      the maximum is the last of them. */
  lemma StatOfSorted(values: seq<real>, s: seq<real>)
    requires values != [] && Ascending(s) && multiset(s) == multiset(values)
    ensures |s| == |values|
    ensures |s| % 2 == 1 ==> BaselineStat(values, Median) == s[|s| / 2]
    ensures |s| % 2 == 0 ==> 2.0 * BaselineStat(values, Median) == s[|s| / 2 - 1] + s[|s| / 2]
    ensures BaselineStat(values, Maximum) == s[|s| - 1]
  {
    SortedIsSort(values);
    AscendingUnique(s, Sorted(values));
    MaxOfSpec(values);
    assert MaxOf(values) in multiset(s) && s[|s| - 1] in multiset(values);
    var i :| 0 <= i < |s| && s[i] == MaxOf(values);
    var j :| 0 <= j < |values| && values[j] == s[|s| - 1];
  }

  /** Median and maximum lie between any bounds of the values. */
  lemma StatBetween(values: seq<real>, stat: Stat, low: real, high: real)
    requires values != [] && forall k :: 0 <= k < |values| ==> low <= values[k] <= high
    ensures low <= BaselineStat(values, stat) <= high
  {
    MaxOfSpec(values);
    SortedIsSort(values);
    var data := Sorted(values);
    forall k | 0 <= k < |data| ensures low <= data[k] <= high {
      assert data[k] in multiset(data);
      assert data[k] in values;
    }
  }

  // ---------- one scenario ----------

  predicate Regressed(candidate: real, base: real, pct: real, abs: real) {
    candidate > base * (1.0 + pct) && candidate - base >= abs
  }

  /** A scenario fails only when it was measured, has a baseline value, and is over both tolerances. */
  predicate Fails(limits: Limits, candidate: Option<real>, values: seq<real>) {
    && candidate.Some? && values != []
    && Regressed(candidate.value, BaselineStat(values, limits.stat), AtLeastZero(limits.pct), AtLeastZero(limits.absMs / 1000.0))
  }

  function Seconds(run: Report, name: string): Option<real> {
    if name in run.scenarios then ParseDuration(run.scenarios[name].measured) else None
  }

  /** The values the runs have for a scenario, in the order of the runs. */
  function Values(runs: seq<Report>, name: string): seq<real> {
    if runs == [] then []
    else
      var last := Seconds(runs[|runs| - 1], name);
      Values(runs[..|runs| - 1], name) + if last.Some? then [last.value] else []
  }

  /** The baseline runs on the candidate's kind of database. */
  function Pool(baselines: seq<Report>, name: string): seq<Report> {
    if baselines == [] then []
    else
      var last := baselines[|baselines| - 1];
      Pool(baselines[..|baselines| - 1], name) + if DbLabel(last.db) == name then [last] else []
  }

  /** The baseline runs on databases of a kind. */
  function OfKind(baselines: seq<Report>, k: Kind): seq<Report> {
    if baselines == [] then []
    else
      var last := baselines[|baselines| - 1];
      OfKind(baselines[..|baselines| - 1], k) + if IsKind(last.db, k) then [last] else []
  }

  /** For texts of the four kinds, the pool is the kind. */
  lemma {:induction false} PoolIsKind(baselines: seq<Report>, db: string, k: Kind)
    requires IsKind(db, k) && forall run :: run in baselines ==> HasKind(run.db)
    ensures Pool(baselines, DbLabel(db)) == OfKind(baselines, k)
  {
    hide DbLabel;
    hide IsKind;
    if baselines != [] {
      var n := |baselines| - 1;
      assert baselines == baselines[..n] + [baselines[n]];
      assert baselines[n] in baselines && forall run :: run in baselines[..n] ==> run in baselines;
      PoolIsKind(baselines[..n], db, k);
      var j :| IsKind(baselines[n].db, j);
      KindsApart(baselines[n].db, db, j, k);
      if IsKind(baselines[n].db, k) {
        OneKind(baselines[n].db, j, k);
      }
    }
  }

  function Window(pool: seq<Report>, window: int): seq<Report> {
    var n := if window < 1 then 1 else window;
    if n < |pool| then pool[..n] else pool
  }

  function WindowOf(candidate: Report, baselines: seq<Report>, limits: Limits): seq<Report> {
    Window(Pool(baselines, DbLabel(candidate.db)), limits.window)
  }

  function FailuresIn(candidate: Report, window: seq<Report>, limits: Limits): set<string> {
    set name | name in candidate.scenarios && Fails(limits, Seconds(candidate, name), Values(window, name))
  }

  /** The scenarios a candidate fails on. */
  function Failures(candidate: Report, baselines: seq<Report>, limits: Limits): set<string> {
    FailuresIn(candidate, WindowOf(candidate, baselines, limits), limits)
  }

  predicate Passes(candidate: Report, baselines: seq<Report>, limits: Limits) {
    Failures(candidate, baselines, limits) == {}
  }

  method CollectValues(window: seq<Report>, name: string) returns (values: seq<real>)
    ensures values == Values(window, name)
  {
    values := [];
    for i := 0 to |window|
      invariant values == Values(window[..i], name)
    {
      assert window[..i + 1][..i] == window[..i];
      var run := window[i];
      if name in run.scenarios {
        var v := ParseDuration(run.scenarios[name].measured);
        if v.Some? {
          values := values + [v.value];
        }
      }
    }
    assert window[..|window|] == window;
  }

  method CheckScenario(measured: Option<real>, window: seq<Report>, name: string, limits: Limits) returns (regressed: bool)
    ensures regressed == Fails(limits, measured, Values(window, name))
  {
    if measured.None? {
      return false;
    }
    var values := CollectValues(window, name);
    if values == [] {
      return false;
    }
    var base := BaselineStat(values, limits.stat);
    var threshold := base * (1.0 + AtLeastZero(limits.pct));
    var delta := measured.value - base;
    regressed := measured.value > threshold && delta >= AtLeastZero(limits.absMs / 1000.0);
  }

  method GateOne(candidate: Report, baselines: seq<Report>, limits: Limits) returns (ok: bool, failures: set<string>)
    ensures failures == Failures(candidate, baselines, limits) && ok == Passes(candidate, baselines, limits)
    ensures (forall run :: run in baselines ==> HasKind(run.db)) ==>
              forall k :: IsKind(candidate.db, k) ==> failures == FailuresIn(candidate, Window(OfKind(baselines, k), limits.window), limits)
  {
    if forall run :: run in baselines ==> HasKind(run.db) {
      forall k | IsKind(candidate.db, k) ensures Pool(baselines, DbLabel(candidate.db)) == OfKind(baselines, k) {
        PoolIsKind(baselines, candidate.db, k);
      }
    }
    hide HasKind;
    hide IsKind;
    hide DbLabel;
    hide OfKind;
    failures := {};
    var pool := Pool(baselines, DbLabel(candidate.db));
    if pool == [] {
      assert Window(pool, limits.window) == [];
      return true, {};
    }
    var window := Window(pool, limits.window);
    var remaining := candidate.scenarios.Keys;
    ghost var all := FailuresIn(candidate, window, limits);
    while remaining != {}
      invariant remaining <= candidate.scenarios.Keys
      invariant failures == all - remaining
    {
      var name :| name in remaining;
      var regressed := CheckScenario(ParseDuration(candidate.scenarios[name].measured), window, name, limits);
      assert regressed <==> name in all;
      if regressed {
        failures := failures + {name};
      }
      remaining := remaining - {name};
    }
    assert failures == all;
    ok := failures == {};
  }
}
