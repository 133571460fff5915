/** Classifying the drift between two observations of approval items. */
module Drift {
  import opened Sequences
  import opened DriftRows

  // ---------- the analysis ----------

  datatype Reason = NotApplicable | MetricOutsideEnvelope | NonTimeFieldChanged(id: string) | NotOverdueInTheEnd(id: string)
                  | UnexpectedHours(id: string) | NoneCrossed | Crossed

  datatype Analysis = Analysis(isTimeDrift: bool, newlyOverdue: seq<string>, agedOverdue: seq<string>, reason: Reason)

  const ALLOWED_METRICS := {"pending_count", "overdue_count", "total_anomalies", "overdue_not_escalated"}

  const TIME_FIELDS := {"is_overdue", "hours_overdue"}

  /** A row that time alone explains: only time fields changed, and it ended overdue from a clean start. */
  predicate Explained(row: ChangeRow) {
    && row.changed <= TIME_FIELDS && Truthy(row.currentOverdue)
    && (Truthy(row.baselineOverdue) || row.baselineHours == Null)
  }

  function Newly(rows: seq<ChangeRow>): seq<string> {
    if rows == [] then []
    else
      var last := rows[|rows| - 1];
      Newly(rows[..|rows| - 1]) + if Truthy(last.baselineOverdue) then [] else [last.id]
  }

  function Aged(rows: seq<ChangeRow>): seq<string> {
    if rows == [] then []
    else
      var last := rows[|rows| - 1];
      Aged(rows[..|rows| - 1]) + if Truthy(last.baselineOverdue) then [last.id] else []
  }

  predicate AllExplained(rows: seq<ChangeRow>) {
    forall k :: 0 <= k < |rows| ==> Explained(rows[k])
  }

  /** The analysis gives up at the first row that time alone does not explain, and says why. */
  ghost predicate GivesUpAt(rows: seq<ChangeRow>, k: int, reason: Reason) {
    && 0 <= k < |rows| && AllExplained(rows[..k])
    && match reason
       case NonTimeFieldChanged(id) => id == rows[k].id && !(rows[k].changed <= TIME_FIELDS)
       case NotOverdueInTheEnd(id) => id == rows[k].id && rows[k].changed <= TIME_FIELDS && !Truthy(rows[k].currentOverdue)
       case UnexpectedHours(id) =>
         && id == rows[k].id && rows[k].changed <= TIME_FIELDS && Truthy(rows[k].currentOverdue)
         && !Truthy(rows[k].baselineOverdue) && rows[k].baselineHours != Null
       case _ => false
  }

  /** Time drift is found exactly when membership is unchanged, some approval changed, only envelope
      metrics moved, every changed row is explained, and some approval crossed its deadline. */
  method AnalyzeTimeDrift(metrics: set<string>, addedIds: seq<string>, removedIds: seq<string>, rows: seq<ChangeRow>)
    returns (a: Analysis)
    ensures a.isTimeDrift <==>
              && addedIds == [] && removedIds == [] && rows != [] && metrics <= ALLOWED_METRICS
              && AllExplained(rows) && Newly(rows) != []
    ensures a.isTimeDrift ==> a.newlyOverdue == Newly(rows) && a.agedOverdue == Aged(rows)
    ensures !a.isTimeDrift ==> a.newlyOverdue == []
    ensures a.reason == NotApplicable <==> addedIds != [] || removedIds != [] || rows == []
    ensures a.reason == MetricOutsideEnvelope <==>
              addedIds == [] && removedIds == [] && rows != [] && !(metrics <= ALLOWED_METRICS)
    ensures a.reason == Crossed <==> a.isTimeDrift
    ensures a.reason == NoneCrossed ==> AllExplained(rows) && Newly(rows) == [] && a.agedOverdue == Aged(rows)
    ensures a.reason in {NotApplicable, MetricOutsideEnvelope, NoneCrossed, Crossed} || exists k :: GivesUpAt(rows, k, a.reason)
  {
    if addedIds != [] || removedIds != [] || rows == [] {
      return Analysis(false, [], [], NotApplicable);
    }
    var allowed := {"pending_count", "overdue_count", "total_anomalies", "overdue_not_escalated"};
    if metrics - allowed != {} {
      return Analysis(false, [], [], MetricOutsideEnvelope);
    }
    var newly: seq<string> := [];
    var aged: seq<string> := [];
    for k := 0 to |rows|
      invariant newly == Newly(rows[..k]) && aged == Aged(rows[..k])
      invariant AllExplained(rows[..k])
    {
      assert rows[..k + 1][..k] == rows[..k];
      var row := rows[k];
      if !(row.changed <= {"is_overdue", "hours_overdue"}) {
        assert GivesUpAt(rows, k, NonTimeFieldChanged(row.id));
        return Analysis(false, [], [], NonTimeFieldChanged(row.id));
      }
      if !Truthy(row.currentOverdue) {
        assert GivesUpAt(rows, k, NotOverdueInTheEnd(row.id));
        return Analysis(false, [], [], NotOverdueInTheEnd(row.id));
      }
      if Truthy(row.baselineOverdue) {
        aged := aged + [row.id];
        continue;
      }
      if row.baselineHours != Null {
        assert GivesUpAt(rows, k, UnexpectedHours(row.id));
        return Analysis(false, [], [], UnexpectedHours(row.id));
      }
      newly := newly + [row.id];
    }
    assert rows[..|rows|] == rows;
    if newly == [] {
      return Analysis(false, [], aged, NoneCrossed);
    }
    a := Analysis(true, newly, aged, Crossed);
  }

  datatype Verdict = NoDrift | MixedDrift | MembershipDrift | TimeDrift | StateDrift

  function ClassifyDrift(anyMetric: bool, addedIds: seq<string>, removedIds: seq<string>, isTimeDrift: bool): Verdict {
    var membership := addedIds != [] || removedIds != [];
    if !anyMetric && !membership then NoDrift
    else if anyMetric && membership then MixedDrift
    else if membership then MembershipDrift
    else if isTimeDrift then TimeDrift
    else StateDrift
  }

  // ---------- conservation ----------

  function Ids(items: seq<Fields>): seq<string> {
    seq(|items|, i requires 0 <= i < |items| => IdOf(items[i]))
  }

  function CountOverdue(items: seq<Fields>): nat {
    if items == [] then 0 else CountOverdue(items[..|items| - 1]) + if IsOverdue(items[|items| - 1]) then 1 else 0
  }

  function CountPending(items: seq<Fields>): nat {
    if items == [] then 0 else CountPending(items[..|items| - 1]) + if IsOverdue(items[|items| - 1]) then 0 else 1
  }

  function CountEscalated(items: seq<Fields>): nat {
    if items == [] then 0 else CountEscalated(items[..|items| - 1]) + if IsEscalated(items[|items| - 1]) then 1 else 0
  }

  function OverdueIds(items: seq<Fields>): set<string> {
    set r | r in items && IsOverdue(r) :: IdOf(r)
  }

  function EscalatedIds(items: seq<Fields>): set<string> {
    set r | r in items && IsEscalated(r) :: IdOf(r)
  }

  /** The items have ids, all different. */
  predicate Identified(items: seq<Fields>) {
    Distinct(Ids(items)) && "" !in Ids(items)
  }

  lemma IdentifiedFront(items: seq<Fields>)
    requires Identified(items) && items != []
    ensures var n := |items| - 1;
            Identified(items[..n]) && forall r :: r in items[..n] ==> IdOf(r) != IdOf(items[n])
  {
    var n := |items| - 1;
    assert Ids(items)[..n] == Ids(items[..n]);
    forall r | r in items[..n] ensures IdOf(r) != IdOf(items[n]) {
      var i :| 0 <= i < n && items[i] == r;
      assert Ids(items)[i] != Ids(items)[n];
    }
  }

  lemma OverdueIdsFront(items: seq<Fields>)
    requires items != []
    ensures var n := |items| - 1;
            OverdueIds(items) == OverdueIds(items[..n]) + if IsOverdue(items[n]) then {IdOf(items[n])} else {}
  {
    assert items == items[..|items| - 1] + [items[|items| - 1]];
  }

  lemma EscalatedIdsFront(items: seq<Fields>)
    requires items != []
    ensures var n := |items| - 1;
            EscalatedIds(items) == EscalatedIds(items[..n]) + if IsEscalated(items[n]) then {IdOf(items[n])} else {}
  {
    assert items == items[..|items| - 1] + [items[|items| - 1]];
  }

  lemma {:induction false} OverdueCardinality(items: seq<Fields>)
    requires Identified(items)
    ensures CountOverdue(items) == |OverdueIds(items)|
    ensures CountPending(items) + CountOverdue(items) == |items|
  {
    if items == [] {
      assert OverdueIds(items) == {};
    } else {
      IdentifiedFront(items);
      OverdueCardinality(items[..|items| - 1]);
      OverdueIdsFront(items);
      assert IdOf(items[|items| - 1]) !in OverdueIds(items[..|items| - 1]);
    }
  }

  lemma {:induction false} EscalatedCardinality(items: seq<Fields>)
    requires Identified(items)
    ensures CountEscalated(items) == |EscalatedIds(items)|
  {
    if items == [] {
      assert EscalatedIds(items) == {};
    } else {
      IdentifiedFront(items);
      EscalatedCardinality(items[..|items| - 1]);
      EscalatedIdsFront(items);
      assert IdOf(items[|items| - 1]) !in EscalatedIds(items[..|items| - 1]);
    }
  }

  /** With distinct ids, the item found by an id is the item. */
  lemma ByIdFinds(items: seq<Fields>, r: Fields)
    requires Identified(items) && r in items
    ensures IdOf(r) in ById(items) && ById(items)[IdOf(r)] == r
  {
    var i :| 0 <= i < |items| && items[i] == r;
    assert Ids(items)[i] == IdOf(r);
    var s := ById(items)[IdOf(r)];
    var j :| 0 <= j < |items| && items[j] == s;
    SameIdSameItem(items, i, j);
  }

  lemma SameIdSameItem(items: seq<Fields>, i: nat, j: nat)
    requires Identified(items) && i < |items| && j < |items| && IdOf(items[i]) == IdOf(items[j])
    ensures items[i] == items[j]
  {
    assert Ids(items)[i] == Ids(items)[j];
  }

  lemma {:induction false} NewlyMembers(rows: seq<ChangeRow>, id: string)
    ensures id in Newly(rows) <==> exists k :: 0 <= k < |rows| && rows[k].id == id && !Truthy(rows[k].baselineOverdue)
  {
    if rows != [] {
      var n := |rows| - 1;
      NewlyMembers(rows[..n], id);
      if exists k :: 0 <= k < n && rows[k].id == id && !Truthy(rows[k].baselineOverdue) {
        var k :| 0 <= k < n && rows[k].id == id && !Truthy(rows[k].baselineOverdue);
        assert rows[..n][k].id == id;
      }
    }
  }

  lemma {:induction false} NewlyDistinct(rows: seq<ChangeRow>)
    requires Distinct(RowIds(rows))
    ensures Distinct(Newly(rows)) && forall id :: id in Newly(rows) ==> id in RowIds(rows)
  {
    if rows != [] {
      var n := |rows| - 1;
      assert RowIds(rows) == RowIds(rows[..n]) + [rows[n].id] && RowIds(rows)[..n] == RowIds(rows[..n]);
      NewlyDistinct(rows[..n]);
      LastIsNew(RowIds(rows));
    }
  }

  lemma LastIsNew(ids: seq<string>)
    requires Distinct(ids) && ids != []
    ensures ids[|ids| - 1] !in ids[..|ids| - 1]
  {
  }

  lemma {:induction false} DistinctSize(ids: seq<string>)
    requires Distinct(ids)
    ensures |ids| == |set id | id in ids|
  {
    var all := set id | id in ids;
    if ids == [] {
      assert all == {};
    } else {
      var n := |ids| - 1;
      DistinctSize(ids[..n]);
      assert ids == ids[..n] + [ids[n]];
      assert all == (set id | id in ids[..n]) + {ids[n]};
    }
  }

  /** What an explained, complete set of rows says about one approval. */
  lemma OneApproval(rows: seq<ChangeRow>, baseline: map<string, Fields>, current: map<string, Fields>, id: string)
    requires ChangeRows(rows, baseline, current) && AllExplained(rows)
    requires id in baseline && id in current
    ensures IsEscalated(current[id]) == IsEscalated(baseline[id])
    ensures IsOverdue(current[id]) <==> IsOverdue(baseline[id]) || id in Newly(rows)
    ensures id in Newly(rows) ==> !IsOverdue(baseline[id])
  {
    var b, c := baseline[id], current[id];
    NewlyMembers(rows, id);
    if ChangedFields(b, c) == {} {
      SameField(b, c, "is_overdue");
      SameField(b, c, "is_escalated");
      UnchangedHasNoRow(rows, baseline, current, id);
    } else {
      assert id in RowIds(rows);
      var k :| 0 <= k < |rows| && RowIds(rows)[k] == id;
      assert rows[k] == RowFor(id, b, c) && Explained(rows[k]);
      SameField(b, c, "is_escalated");
    }
  }

  lemma UnchangedHasNoRow(rows: seq<ChangeRow>, baseline: map<string, Fields>, current: map<string, Fields>, id: string)
    requires ChangeRows(rows, baseline, current) && id in baseline && id in current
    requires ChangedFields(baseline[id], current[id]) == {}
    ensures forall k :: 0 <= k < |rows| ==> rows[k].id != id
  {
  }

  lemma SameField(b: Fields, c: Fields, f: string)
    requires f !in ChangedFields(b, c)
    ensures Same(Get(b, f), Get(c, f)) && Truthy(Get(b, f)) == Truthy(Get(c, f))
  {
  }

  /** The two observations cover the same approvals. */
  predicate SameApprovals(b: seq<Fields>, c: seq<Fields>) {
    Identified(b) && Identified(c) && (set id | id in Ids(b)) == (set id | id in Ids(c))
  }

  lemma SameKeys(items: seq<Fields>)
    requires Identified(items)
    ensures ById(items).Keys == (set id | id in Ids(items))
  {
    forall id | id in Ids(items) ensures id in ById(items) {
      var i :| 0 <= i < |items| && Ids(items)[i] == id;
      assert items[i] in items;
    }
    forall id | id in ById(items) ensures id in Ids(items) {
      var r := ById(items)[id];
      var i :| 0 <= i < |items| && items[i] == r;
      assert Ids(items)[i] == id;
    }
  }

  lemma OverdueById(items: seq<Fields>)
    requires Identified(items)
    ensures OverdueIds(items) == (set id | id in ById(items) && IsOverdue(ById(items)[id]))
    ensures EscalatedIds(items) == (set id | id in ById(items) && IsEscalated(ById(items)[id]))
  {
    forall r | r in items ensures IdOf(r) in ById(items) && ById(items)[IdOf(r)] == r {
      ByIdFinds(items, r);
    }
  }

  /** The overdue approvals are the old ones and the newly overdue ones; the escalated ones are the same. */
  lemma OverdueShift(b: seq<Fields>, c: seq<Fields>, rows: seq<ChangeRow>)
    requires SameApprovals(b, c) && ChangeRows(rows, ById(b), ById(c)) && AllExplained(rows)
    ensures var newly := set id | id in Newly(rows);
            OverdueIds(c) == OverdueIds(b) + newly && OverdueIds(b) !! newly && EscalatedIds(c) == EscalatedIds(b)
  {
    hide ById;
    hide ChangeRows;
    hide AllExplained;
    hide IsOverdue;
    hide IsEscalated;
    hide OverdueIds;
    hide EscalatedIds;
    var baseline, current := ById(b), ById(c);
    SameKeys(b);
    SameKeys(c);
    OverdueById(b);
    OverdueById(c);
    NewlyInBaseline(rows, baseline, current);
    forall id | id in baseline
      ensures IsEscalated(current[id]) == IsEscalated(baseline[id])
      ensures IsOverdue(current[id]) <==> IsOverdue(baseline[id]) || id in Newly(rows)
      ensures id in Newly(rows) ==> !IsOverdue(baseline[id]) {
      OneApproval(rows, baseline, current, id);
    }
  }

  lemma NewlyInBaseline(rows: seq<ChangeRow>, baseline: map<string, Fields>, current: map<string, Fields>)
    requires ChangeRows(rows, baseline, current)
    ensures forall id :: id in Newly(rows) ==> id in baseline
  {
    NewlyDistinct(rows);
    forall id | id in Newly(rows) ensures id in baseline {
      assert id in RowIds(rows);
    }
  }

  lemma SameLength(b: seq<Fields>, c: seq<Fields>)
    requires SameApprovals(b, c)
    ensures |b| == |c|
  {
    DistinctSize(Ids(b));
    DistinctSize(Ids(c));
  }

  /** A time-drift verdict over the same approvals means: the overdue count rose and the pending count
      fell by exactly the number of newly overdue approvals, at least one, and no escalation changed. */
  lemma TimeDriftConserves(b: seq<Fields>, c: seq<Fields>, rows: seq<ChangeRow>)
    requires SameApprovals(b, c) && ChangeRows(rows, ById(b), ById(c))
    requires AllExplained(rows) && Newly(rows) != []
    ensures |Newly(rows)| >= 1
    ensures CountOverdue(c) == CountOverdue(b) + |Newly(rows)|
    ensures CountPending(c) == CountPending(b) - |Newly(rows)|
    ensures CountEscalated(c) == CountEscalated(b)
  {
    OverdueShift(b, c, rows);
    SameLength(b, c);
    NewlyDistinct(rows);
    DistinctSize(Newly(rows));
    OverdueCardinality(b);
    OverdueCardinality(c);
    EscalatedCardinality(b);
    EscalatedCardinality(c);
  }

  // ---------- the verdict, by the items alone ----------

  /** Only the clock moved the approval: no other field did, it is overdue now, and it was overdue before or had no hours. */
  ghost predicate ByTheClock(b: Fields, c: Fields) {
    && (forall f :: Moved(b, c, f) ==> f == "is_overdue" || f == "hours_overdue")
    && IsOverdue(c) && (IsOverdue(b) || Holds(b, "hours_overdue", Null))
  }

  /** Only metrics of the clock moved, only the clock moved approvals, and it made some approval overdue. */
  ghost predicate TimeOnly(metrics: set<string>, baselineItems: seq<Fields>, currentItems: seq<Fields>) {
    && metrics <= {"pending_count", "overdue_count", "total_anomalies", "overdue_not_escalated"}
    && (forall id, b, c :: HasMoved(id, b, c, baselineItems, currentItems) ==> ByTheClock(b, c))
    && (exists id, b, c :: HasMoved(id, b, c, baselineItems, currentItems) && !IsOverdue(b))
  }

  lemma RowByTheClock(row: ChangeRow, b: Fields, c: Fields)
    requires RowTells(row, b, c)
    ensures Explained(row) <==> ByTheClock(b, c)
    ensures Truthy(row.baselineOverdue) <==> IsOverdue(b)
  {
    hide Moved;
    if row.changed <= TIME_FIELDS {
      assert forall f :: Moved(b, c, f) ==> f in row.changed;
    } else {
      var f :| f in row.changed && f !in TIME_FIELDS;
      assert Moved(b, c, f);
    }
  }

  lemma OneRecord(id: string, items: seq<Fields>, b: Fields, b': Fields)
    requires LastAbout(items, id, b) && LastAbout(items, id, b')
    ensures b == b'
  {
    ByIdIff(items, id, b);
    ByIdIff(items, id, b');
  }

  /** The row of an approval that has moved. */
  lemma RowOfMoved(rows: seq<ChangeRow>, baselineItems: seq<Fields>, currentItems: seq<Fields>, id: string, b: Fields, c: Fields)
    returns (k: nat)
    requires RowsStand(rows, baselineItems, currentItems) && HasMoved(id, b, c, baselineItems, currentItems)
    ensures k < |rows| && rows[k].id == id && RowTells(rows[k], b, c)
  {
    hide LastAbout;
    hide RowTells;
    hide Moved;
    k :| 0 <= k < |rows| && RowIds(rows)[k] == id;
    var b', c' :| HasMoved(rows[k].id, b', c', baselineItems, currentItems) && RowTells(rows[k], b', c');
    OneRecord(id, baselineItems, b, b');
    OneRecord(id, currentItems, c, c');
  }

  lemma AllByTheClock(rows: seq<ChangeRow>, baselineItems: seq<Fields>, currentItems: seq<Fields>)
    requires RowsStand(rows, baselineItems, currentItems)
    ensures AllExplained(rows) <==> forall id, b, c :: HasMoved(id, b, c, baselineItems, currentItems) ==> ByTheClock(b, c)
  {
    hide HasMoved;
    hide RowTells;
    hide ByTheClock;
    hide Explained;
    if AllExplained(rows) {
      forall id, b, c | HasMoved(id, b, c, baselineItems, currentItems) ensures ByTheClock(b, c) {
        var k := RowOfMoved(rows, baselineItems, currentItems, id, b, c);
        RowByTheClock(rows[k], b, c);
      }
    } else {
      var k :| 0 <= k < |rows| && !Explained(rows[k]);
      assert RowStands(rows[k], baselineItems, currentItems);
      var b, c :| HasMoved(rows[k].id, b, c, baselineItems, currentItems) && RowTells(rows[k], b, c);
      RowByTheClock(rows[k], b, c);
    }
  }

  lemma NewlyIff(rows: seq<ChangeRow>, baselineItems: seq<Fields>, currentItems: seq<Fields>, id: string)
    requires RowsStand(rows, baselineItems, currentItems)
    ensures id in Newly(rows) <==> exists b, c :: HasMoved(id, b, c, baselineItems, currentItems) && !IsOverdue(b)
  {
    hide HasMoved;
    hide RowTells;
    hide IsOverdue;
    hide Newly;
    NewlyMembers(rows, id);
    if id in Newly(rows) {
      var k :| 0 <= k < |rows| && rows[k].id == id && !Truthy(rows[k].baselineOverdue);
      assert RowStands(rows[k], baselineItems, currentItems);
      var b, c :| HasMoved(rows[k].id, b, c, baselineItems, currentItems) && RowTells(rows[k], b, c);
      RowByTheClock(rows[k], b, c);
    }
    if b, c :| HasMoved(id, b, c, baselineItems, currentItems) && !IsOverdue(b) {
      var k := RowOfMoved(rows, baselineItems, currentItems, id, b, c);
      RowByTheClock(rows[k], b, c);
    }
  }

  lemma TimeOnlyIff(rows: seq<ChangeRow>, metrics: set<string>, baselineItems: seq<Fields>, currentItems: seq<Fields>)
    requires RowsStand(rows, baselineItems, currentItems)
    ensures TimeOnly(metrics, baselineItems, currentItems) <==> metrics <= ALLOWED_METRICS && AllExplained(rows) && Newly(rows) != []
    ensures forall id :: id in Newly(rows) <==> exists b, c :: HasMoved(id, b, c, baselineItems, currentItems) && !IsOverdue(b)
  {
    hide HasMoved;
    hide RowsStand;
    hide ByTheClock;
    hide Explained;
    hide IsOverdue;
    hide Newly;
    AllByTheClock(rows, baselineItems, currentItems);
    forall id ensures id in Newly(rows) <==> exists b, c :: HasMoved(id, b, c, baselineItems, currentItems) && !IsOverdue(b) {
      NewlyIff(rows, baselineItems, currentItems, id);
    }
    if Newly(rows) != [] {
      assert Newly(rows)[0] in Newly(rows);
    }
    if id, b, c :| HasMoved(id, b, c, baselineItems, currentItems) && !IsOverdue(b) {
      assert id in Newly(rows);
    }
  }

  /** The investigation end to end. */
  method Investigate(b: seq<Fields>, c: seq<Fields>, metrics: set<string>, addedIds: seq<string>, removedIds: seq<string>)
    returns (verdict: Verdict, a: Analysis)
    ensures verdict == NoDrift <==> metrics == {} && addedIds == [] && removedIds == []
    ensures verdict == MixedDrift <==> metrics != {} && (addedIds != [] || removedIds != [])
    ensures verdict == MembershipDrift <==> metrics == {} && (addedIds != [] || removedIds != [])
    ensures verdict == TimeDrift <==> metrics != {} && addedIds == [] && removedIds == [] && TimeOnly(metrics, b, c)
    ensures verdict == TimeDrift ==>
              forall id :: id in a.newlyOverdue <==> exists x, y :: HasMoved(id, x, y, b, c) && !IsOverdue(x)
    ensures verdict == TimeDrift && SameApprovals(b, c) ==>
              && |a.newlyOverdue| >= 1
              && CountOverdue(c) == CountOverdue(b) + |a.newlyOverdue|
              && CountPending(c) == CountPending(b) - |a.newlyOverdue|
              && CountEscalated(c) == CountEscalated(b)
  {
    var rows := BuildItemChangeRows(b, c);
    a := AnalyzeTimeDrift(metrics, addedIds, removedIds, rows);
    verdict := ClassifyDrift(metrics != {}, addedIds, removedIds, a.isTimeDrift);
    TimeOnlyIff(rows, metrics, b, c);
    hide HasMoved;
    if verdict == TimeDrift && SameApprovals(b, c) {
      TimeDriftConserves(b, c, rows);
    }
  }
}
