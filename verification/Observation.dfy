/** Observation sets: grouping and summarizing approval items. */
module Observation {
  import opened Options
  import opened Grouping

  /** An id as it stands in the JSON files. */
  datatype Id = Missing | Text(text: string) | Number(value: int)

  /** An approval item. */
  datatype Item = Item(approvalId: Id, ecoId: Id, stageId: Option<string>, stageName: Option<string>,
                       assigneeId: Option<string>, assignee: Option<string>, isOverdue: bool, isEscalated: bool)

  /** An export row or anomaly entry: a record with ids, or something that is no record. */
  datatype Entry = Record(approvalId: Id, ecoId: Id, other: string) | Plain(text: string)

  type StageKey = (Option<string>, Option<string>)

  datatype StageRow = StageRow(key: StageKey, pending: nat, overdue: nat)

  datatype AssigneeRow = AssigneeRow(key: StageKey, count: nat)

  datatype Summary = Summary(pendingCount: nat, overdueCount: nat, escalatedCount: nat,
                             byStage: seq<StageRow>, byAssignee: seq<AssigneeRow>)

  datatype Anomalies = Anomalies(noCandidates: seq<Entry>, escalatedUnresolved: seq<Entry>,
                                 overdueNotEscalated: seq<Entry>, total: int)

  // ---------- columns of the item list ----------

  function Stages(items: seq<Item>): seq<StageKey> {
    seq(|items|, i requires 0 <= i < |items| => (items[i].stageId, items[i].stageName))
  }

  function Assignees(items: seq<Item>): seq<StageKey> {
    seq(|items|, i requires 0 <= i < |items| => (items[i].assigneeId, items[i].assignee))
  }

  function Overdue(items: seq<Item>): seq<bool> {
    seq(|items|, i requires 0 <= i < |items| => items[i].isOverdue)
  }

  function Pending(items: seq<Item>): seq<bool> {
    seq(|items|, i requires 0 <= i < |items| => !items[i].isOverdue)
  }

  function Escalated(items: seq<Item>): seq<bool> {
    seq(|items|, i requires 0 <= i < |items| => items[i].isEscalated)
  }

  function Each(items: seq<Item>): seq<bool> {
    seq(|items|, _ => true)
  }

  // ---------- grouping ----------

  /** One row for every stage, in the order stages are first met, with its pending and overdue items. */
  function ByStage(items: seq<Item>): seq<StageRow> {
    var keys := FirstMet(Stages(items));
    seq(|keys|, i requires 0 <= i < |keys| =>
      StageRow(keys[i], Count(Stages(items), Pending(items), keys[i]), Count(Stages(items), Overdue(items), keys[i])))
  }

  function ByAssignee(items: seq<Item>): seq<AssigneeRow> {
    var keys := FirstMet(Assignees(items));
    seq(|keys|, i requires 0 <= i < |keys| => AssigneeRow(keys[i], Count(Assignees(items), Each(items), keys[i])))
  }

  /** The positions of a stage's items, overdue or not; of an assignee's; and of the items that are or are not overdue, and
      of the escalated ones. */
  ghost function InStage(items: seq<Item>, k: StageKey, overdue: bool): set<int> {
    set n: int | 0 <= n < |items| && (items[n].stageId, items[n].stageName) == k && items[n].isOverdue == overdue
  }

  ghost function AssignedTo(items: seq<Item>, k: StageKey): set<int> {
    set n: int | 0 <= n < |items| && (items[n].assigneeId, items[n].assignee) == k
  }

  ghost function WithOverdue(items: seq<Item>, overdue: bool): set<int> {
    set n: int | 0 <= n < |items| && items[n].isOverdue == overdue
  }

  ghost function WithEscalation(items: seq<Item>): set<int> {
    set n: int | 0 <= n < |items| && items[n].isEscalated
  }

  /** The keys stand in the order they are first met, each at its first item. */
  ghost predicate StagesInOrder(list: seq<StageRow>, items: seq<Item>, at: seq<nat>) {
    && |at| == |list|
    && (forall i :: 0 <= i < |at| ==> at[i] < |items| && list[i].key == (items[at[i]].stageId, items[at[i]].stageName))
    && (forall i, n :: 0 <= i < |at| && 0 <= n < at[i] ==> list[i].key != (items[n].stageId, items[n].stageName))
    && (forall i, j :: 0 <= i < j < |at| ==> at[i] < at[j])
  }

  predicate StageListed(list: seq<StageRow>, k: StageKey) {
    exists i :: 0 <= i < |list| && list[i].key == k
  }

  /** A row for every stage, in the order the stages are first met, with the sizes of its two groups of items. */
  ghost predicate StagesCounted(list: seq<StageRow>, items: seq<Item>, at: seq<nat>) {
    && StagesInOrder(list, items, at)
    && (forall n :: 0 <= n < |items| ==> StageListed(list, (items[n].stageId, items[n].stageName)))
    && (forall i :: 0 <= i < |list| ==>
          list[i].pending == |InStage(items, list[i].key, false)| && list[i].overdue == |InStage(items, list[i].key, true)|)
  }

  lemma StageSizes(items: seq<Item>, k: StageKey)
    ensures Count(Stages(items), Pending(items), k) == |InStage(items, k, false)|
    ensures Count(Stages(items), Overdue(items), k) == |InStage(items, k, true)|
  {
    var ks := Stages(items);
    CountIsSize(ks, Pending(items), k);
    CountIsSize(ks, Overdue(items), k);
    assert Flagged(ks, Pending(items), k) == InStage(items, k, false);
    assert Flagged(ks, Overdue(items), k) == InStage(items, k, true);
  }

  lemma ByStageCounts(items: seq<Item>) returns (at: seq<nat>)
    ensures StagesCounted(ByStage(items), items, at)
  {
    hide Count;
    hide FirstMet;
    hide StageListed;
    hide StagesInOrder;
    var ks, list := Stages(items), ByStage(items);
    at := FirstMetAt(ks);
    StageOrder(items, at);
    forall n | 0 <= n < |items| ensures StageListed(list, (items[n].stageId, items[n].stageName)) {
      EveryStageListed(items, n);
    }
    forall i | 0 <= i < |list| ensures
          list[i].pending == |InStage(items, list[i].key, false)| && list[i].overdue == |InStage(items, list[i].key, true)| {
      StageSizes(items, list[i].key);
    }
  }

  lemma EveryStageListed(items: seq<Item>, n: nat)
    requires n < |items|
    ensures StageListed(ByStage(items), (items[n].stageId, items[n].stageName))
  {
    hide Count;
    var ks, list := Stages(items), ByStage(items);
    assert ks[n] in FirstMet(ks);
    var i :| 0 <= i < |list| && FirstMet(ks)[i] == ks[n];
    assert list[i].key == ks[n];
  }

  lemma StageOrder(items: seq<Item>, at: seq<nat>)
    requires FirstAt(FirstMet(Stages(items)), Stages(items), at)
    ensures StagesInOrder(ByStage(items), items, at)
  {
    hide Count;
    hide FirstMet;
    var ks, list := Stages(items), ByStage(items);
    forall i, n | 0 <= i < |at| && 0 <= n < at[i] ensures list[i].key != (items[n].stageId, items[n].stageName) {
      assert ks[n] != FirstMet(ks)[i];
    }
  }

  /** The keys stand in the order they are first met, each at its first item. */
  ghost predicate AssigneesInOrder(list: seq<AssigneeRow>, items: seq<Item>, at: seq<nat>) {
    && |at| == |list|
    && (forall i :: 0 <= i < |at| ==> at[i] < |items| && list[i].key == (items[at[i]].assigneeId, items[at[i]].assignee))
    && (forall i, n :: 0 <= i < |at| && 0 <= n < at[i] ==> list[i].key != (items[n].assigneeId, items[n].assignee))
    && (forall i, j :: 0 <= i < j < |at| ==> at[i] < at[j])
  }

  predicate AssigneeListed(list: seq<AssigneeRow>, k: StageKey) {
    exists i :: 0 <= i < |list| && list[i].key == k
  }

  /** A row for every assignee, in the order they are first met, with the size of its group of items. */
  ghost predicate AssigneesCounted(list: seq<AssigneeRow>, items: seq<Item>, at: seq<nat>) {
    && AssigneesInOrder(list, items, at)
    && (forall n :: 0 <= n < |items| ==> AssigneeListed(list, (items[n].assigneeId, items[n].assignee)))
    && (forall i :: 0 <= i < |list| ==> list[i].count == |AssignedTo(items, list[i].key)|)
  }

  lemma AssigneeSize(items: seq<Item>, k: StageKey)
    ensures Count(Assignees(items), Each(items), k) == |AssignedTo(items, k)|
  {
    CountIsSize(Assignees(items), Each(items), k);
    assert Flagged(Assignees(items), Each(items), k) == AssignedTo(items, k);
  }

  lemma ByAssigneeCounts(items: seq<Item>) returns (at: seq<nat>)
    ensures AssigneesCounted(ByAssignee(items), items, at)
  {
    hide Count;
    hide FirstMet;
    hide AssigneeListed;
    hide AssigneesInOrder;
    var ks, list := Assignees(items), ByAssignee(items);
    at := FirstMetAt(ks);
    AssigneeOrder(items, at);
    forall n | 0 <= n < |items| ensures AssigneeListed(list, (items[n].assigneeId, items[n].assignee)) {
      EveryAssigneeListed(items, n);
    }
    forall i | 0 <= i < |list| ensures list[i].count == |AssignedTo(items, list[i].key)| {
      AssigneeSize(items, list[i].key);
    }
  }

  lemma EveryAssigneeListed(items: seq<Item>, n: nat)
    requires n < |items|
    ensures AssigneeListed(ByAssignee(items), (items[n].assigneeId, items[n].assignee))
  {
    hide Count;
    var ks, list := Assignees(items), ByAssignee(items);
    assert ks[n] in FirstMet(ks);
    var i :| 0 <= i < |list| && FirstMet(ks)[i] == ks[n];
    assert list[i].key == ks[n];
  }

  lemma AssigneeOrder(items: seq<Item>, at: seq<nat>)
    requires FirstAt(FirstMet(Assignees(items)), Assignees(items), at)
    ensures AssigneesInOrder(ByAssignee(items), items, at)
  {
    hide Count;
    hide FirstMet;
    var ks, list := Assignees(items), ByAssignee(items);
    forall i, n | 0 <= i < |at| && 0 <= n < at[i] ensures list[i].key != (items[n].assigneeId, items[n].assignee) {
      assert ks[n] != FirstMet(ks)[i];
    }
  }

  /** The dictionary of rows a grouping loop has built: its keys in insertion order, and a row for each. */
  ghost predicate StageRows(order: seq<StageKey>, rows: map<StageKey, StageRow>, ks: seq<StageKey>, pending: seq<bool>, overdue: seq<bool>)
    requires |ks| == |pending| == |overdue|
  {
    && order == FirstMet(ks)
    && (forall k :: k in rows <==> k in order)
    && forall k :: k in rows ==> rows[k] == StageRow(k, Count(ks, pending, k), Count(ks, overdue, k))
  }

  lemma StageRowsOneMore(order: seq<StageKey>, rows: map<StageKey, StageRow>, ks: seq<StageKey>,
                         pending: seq<bool>, overdue: seq<bool>, i: nat)
    requires i < |ks| == |pending| == |overdue|
    requires StageRows(order, rows, ks[..i], pending[..i], overdue[..i])
    ensures ks[i] in rows ==> rows[ks[i]].key == ks[i]
    ensures var k := ks[i];
            var row := if k in rows then rows[k] else StageRow(k, 0, 0);
            var now := StageRow(k, row.pending + if pending[i] then 1 else 0, row.overdue + if overdue[i] then 1 else 0);
            StageRows(if k in rows then order else order + [k], rows[k := now], ks[..i + 1], pending[..i + 1], overdue[..i + 1])
  {
    var k := ks[i];
    FirstMetOneMore(ks, i);
    CountsOneMore(ks, pending, overdue, i, k);
    if k !in rows {
      CountAbsent(ks[..i], pending[..i], k);
      CountAbsent(ks[..i], overdue[..i], k);
    }
    forall x | x in rows && x != k
      ensures rows[x] == StageRow(x, Count(ks[..i + 1], pending[..i + 1], x), Count(ks[..i + 1], overdue[..i + 1], x)) {
      CountsOneMore(ks, pending, overdue, i, x);
    }
  }

  lemma CountsOneMore(ks: seq<StageKey>, pending: seq<bool>, overdue: seq<bool>, i: nat, x: StageKey)
    requires i < |ks| == |pending| == |overdue|
    ensures Count(ks[..i + 1], pending[..i + 1], x) == Count(ks[..i], pending[..i], x) + if ks[i] == x && pending[i] then 1 else 0
    ensures Count(ks[..i + 1], overdue[..i + 1], x) == Count(ks[..i], overdue[..i], x) + if ks[i] == x && overdue[i] then 1 else 0
  {
    CountOneMore(ks, pending, i, x);
    CountOneMore(ks, overdue, i, x);
  }

  /** A dictionary's values, in insertion order. */
  function Values<R>(order: seq<StageKey>, rows: map<StageKey, R>): (r: seq<R>)
    requires forall i :: 0 <= i < |order| ==> order[i] in rows
    ensures |r| == |order| && forall i :: 0 <= i < |order| ==> r[i] == rows[order[i]]
  {
    if order == [] then [] else Values(order[..|order| - 1], rows) + [rows[order[|order| - 1]]]
  }

  method AggregateByStage(items: seq<Item>) returns (list: seq<StageRow>)
    ensures list == ByStage(items)
    ensures exists at :: StagesCounted(list, items, at)
  {
    ghost var at := ByStageCounts(items);
    hide StagesCounted;
    hide Count;
    hide FirstMet;
    hide StageRows;
    var order: seq<StageKey> := [];
    var rows: map<StageKey, StageRow> := map[];
    NoStageRows();
    ghost var ks, pending, overdue := Stages(items), Pending(items), Overdue(items);
    for i := 0 to |items|
      invariant StageRows(order, rows, ks[..i], pending[..i], overdue[..i])
    {
      StageRowsOneMore(order, rows, ks, pending, overdue, i);
      var item := items[i];
      var key := (item.stageId, item.stageName);
      var row := if key in rows then rows[key] else StageRow(key, 0, 0);
      if key !in rows {
        order := order + [key];
      }
      if item.isOverdue {
        row := row.(overdue := row.overdue + 1);
      } else {
        row := row.(pending := row.pending + 1);
      }
      rows := rows[key := row];
    }
    assert ks[..|items|] == ks && pending[..|items|] == pending && overdue[..|items|] == overdue;
    StageRowsDone(order, rows, items);
    list := Values(order, rows);
  }

  lemma NoStageRows()
    ensures StageRows([], map[], [], [], [])
  {
  }

  lemma StageRowsDone(order: seq<StageKey>, rows: map<StageKey, StageRow>, items: seq<Item>)
    requires StageRows(order, rows, Stages(items), Pending(items), Overdue(items))
    ensures (forall i :: 0 <= i < |order| ==> order[i] in rows) && Values(order, rows) == ByStage(items)
  {
    assert forall i :: 0 <= i < |order| ==> order[i] in order;
  }

  ghost predicate AssigneeRows(order: seq<StageKey>, rows: map<StageKey, AssigneeRow>, ks: seq<StageKey>, each: seq<bool>)
    requires |ks| == |each|
  {
    && order == FirstMet(ks)
    && (forall k :: k in rows <==> k in order)
    && forall k :: k in rows ==> rows[k] == AssigneeRow(k, Count(ks, each, k))
  }

  lemma AssigneeRowsOneMore(order: seq<StageKey>, rows: map<StageKey, AssigneeRow>, ks: seq<StageKey>, each: seq<bool>, i: nat)
    requires i < |ks| == |each| && each[i] && AssigneeRows(order, rows, ks[..i], each[..i])
    ensures var k := ks[i];
            AssigneeRows(if k in rows then order else order + [k],
                         rows[k := AssigneeRow(k, 1 + if k in rows then rows[k].count else 0)], ks[..i + 1], each[..i + 1])
  {
    var k := ks[i];
    FirstMetOneMore(ks, i);
    forall x ensures Count(ks[..i + 1], each[..i + 1], x) == Count(ks[..i], each[..i], x) + if ks[i] == x then 1 else 0 {
      CountOneMore(ks, each, i, x);
    }
    if k !in rows {
      CountAbsent(ks[..i], each[..i], k);
    }
  }

  method AggregateByAssignee(items: seq<Item>) returns (list: seq<AssigneeRow>)
    ensures list == ByAssignee(items)
    ensures exists at :: AssigneesCounted(list, items, at)
  {
    ghost var at := ByAssigneeCounts(items);
    hide AssigneesCounted;
    var order: seq<StageKey> := [];
    var rows: map<StageKey, AssigneeRow> := map[];
    ghost var ks, each := Assignees(items), Each(items);
    for i := 0 to |items|
      invariant AssigneeRows(order, rows, ks[..i], each[..i])
    {
      AssigneeRowsOneMore(order, rows, ks, each, i);
      var item := items[i];
      var key := (item.assigneeId, item.assignee);
      var row := if key in rows then rows[key] else AssigneeRow(key, 0);
      if key !in rows {
        order := order + [key];
      }
      row := row.(count := row.count + 1);
      rows := rows[key := row];
    }
    assert ks[..|items|] == ks && each[..|items|] == each;
    list := Values(order, rows);
  }

  function SummaryOf(items: seq<Item>): Summary {
    Summary(CountAll(Pending(items)), CountAll(Overdue(items)), CountAll(Escalated(items)), ByStage(items), ByAssignee(items))
  }

  /** The counts of a summary are the numbers of items that are not overdue, overdue, and escalated. */
  ghost predicate Summarizes(s: Summary, items: seq<Item>) {
    && s.pendingCount == |WithOverdue(items, false)| && s.overdueCount == |WithOverdue(items, true)|
    && s.escalatedCount == |WithEscalation(items)|
    && (exists at :: StagesCounted(s.byStage, items, at)) && (exists at :: AssigneesCounted(s.byAssignee, items, at))
  }

  lemma ItemCounts(items: seq<Item>)
    ensures CountAll(Pending(items)) == |WithOverdue(items, false)| && CountAll(Overdue(items)) == |WithOverdue(items, true)|
    ensures CountAll(Escalated(items)) == |WithEscalation(items)|
  {
    CountAllIsSize(Pending(items));
    CountAllIsSize(Overdue(items));
    CountAllIsSize(Escalated(items));
    assert AllFlagged(Pending(items)) == WithOverdue(items, false);
    assert AllFlagged(Overdue(items)) == WithOverdue(items, true);
    assert AllFlagged(Escalated(items)) == WithEscalation(items);
  }

  method BuildSummary(items: seq<Item>) returns (s: Summary)
    ensures s == SummaryOf(items) && Summarizes(s, items)
  {
    ItemCounts(items);
    hide StagesCounted;
    hide AssigneesCounted;
    var byStage := AggregateByStage(items);
    var byAssignee := AggregateByAssignee(items);
    s := Summary(CountAll(Pending(items)), CountAll(Overdue(items)), CountAll(Escalated(items)), byStage, byAssignee);
  }

  function SumPending(rows: seq<StageRow>): nat {
    if rows == [] then 0 else rows[0].pending + SumPending(rows[1..])
  }

  function SumOverdue(rows: seq<StageRow>): nat {
    if rows == [] then 0 else rows[0].overdue + SumOverdue(rows[1..])
  }

  function SumCounts(rows: seq<AssigneeRow>): nat {
    if rows == [] then 0 else rows[0].count + SumCounts(rows[1..])
  }

  lemma {:induction false} StageSums(rows: seq<StageRow>, keys: seq<StageKey>, items: seq<Item>)
    requires |rows| == |keys|
    requires forall i :: 0 <= i < |rows| ==>
               && rows[i].pending == Count(Stages(items), Pending(items), keys[i])
               && rows[i].overdue == Count(Stages(items), Overdue(items), keys[i])
    ensures SumPending(rows) == Total(keys, Stages(items), Pending(items))
    ensures SumOverdue(rows) == Total(keys, Stages(items), Overdue(items))
  {
    if rows != [] {
      StageSums(rows[1..], keys[1..], items);
    }
  }

  lemma {:induction false} AssigneeSums(rows: seq<AssigneeRow>, keys: seq<StageKey>, items: seq<Item>)
    requires |rows| == |keys|
    requires forall i :: 0 <= i < |rows| ==> rows[i].count == Count(Assignees(items), Each(items), keys[i])
    ensures SumCounts(rows) == Total(keys, Assignees(items), Each(items))
  {
    if rows != [] {
      AssigneeSums(rows[1..], keys[1..], items);
    }
  }

  lemma {:induction false} PendingPlusOverdue(items: seq<Item>)
    ensures CountAll(Pending(items)) + CountAll(Overdue(items)) == |items| == CountAll(Each(items))
  {
    if items != [] {
      var n := |items| - 1;
      PendingPlusOverdue(items[..n]);
      assert Pending(items)[..n] == Pending(items[..n]) && Overdue(items)[..n] == Overdue(items[..n])
          && Each(items)[..n] == Each(items[..n]);
    }
  }

  /** The stage and assignee tables of a summary account for every item exactly once. */
  lemma SummaryConservesItems(items: seq<Item>)
    ensures var s := SummaryOf(items);
            && SumPending(s.byStage) == s.pendingCount && SumOverdue(s.byStage) == s.overdueCount
            && s.pendingCount + s.overdueCount == |items| && SumCounts(s.byAssignee) == |items|
  {
    var stages, assignees := FirstMet(Stages(items)), FirstMet(Assignees(items));
    StageSums(ByStage(items), stages, items);
    AssigneeSums(ByAssignee(items), assignees, items);
    GroupsAddUp(stages, Stages(items), Pending(items));
    GroupsAddUp(stages, Stages(items), Overdue(items));
    GroupsAddUp(assignees, Assignees(items), Each(items));
    PendingPlusOverdue(items);
  }
}
