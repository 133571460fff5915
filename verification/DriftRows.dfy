/** What changed of each approval between two observations. */
module DriftRows {
  import opened Options
  import opened Sequences
  import opened Text

  /** A JSON value; `Null` also stands for a missing field. */
  datatype Value = Null | Bool(b: bool) | Number(n: real) | Str(s: string)

  type Fields = map<string, Value>

  function Get(r: Fields, f: string): Value {
    if f in r then r[f] else Null
  }

  predicate Truthy(v: Value) {
    match v
    case Null => false
    case Bool(b) => b
    case Number(n) => n != 0.0
    case Str(s) => s != ""
  }

  /** The approval id of an item, `""` if it has none. */
  function IdOf(r: Fields): string {
    var v := Get(r, "approval_id");
    if v.Str? then v.s else ""
  }

  predicate IsOverdue(r: Fields) {
    "is_overdue" in r && Truthy(r["is_overdue"])
  }

  predicate IsEscalated(r: Fields) {
    "is_escalated" in r && Truthy(r["is_escalated"])
  }

  /** Python's truth: false are a missing value, `False`, zero and the empty text. */
  lemma TruthyIff(v: Value)
    ensures !Truthy(v) <==> v == Null || v == Bool(false) || v == Number(0.0) || v == Str("")
  {
  }

  // ---------- approvals and their fields, as they stand in the file ----------

  /** The record is about the approval. */
  predicate About(r: Fields, id: string) {
    id != "" && "approval_id" in r && r["approval_id"] == Str(id)
  }

  /** The record is the last one about the approval. */
  ghost predicate LastAbout(items: seq<Fields>, id: string, r: Fields) {
    exists i :: LastAboutAt(items, id, i) && items[i] == r
  }

  predicate LastAboutAt(items: seq<Fields>, id: string, i: int) {
    0 <= i < |items| && About(items[i], id) && forall j :: i < j < |items| ==> !About(items[j], id)
  }

  /** The value of a field, a missing one being null. */
  predicate Holds(r: Fields, f: string, v: Value) {
    if f in r then v == r[f] else v == Null
  }

  /** Python's `==` on such values: numbers and truth values are compared as numbers. */
  predicate Equal(u: Value, v: Value) {
    || u == v
    || (u.Bool? && v.Number? && v.n == if u.b then 1.0 else 0.0)
    || (u.Number? && v.Bool? && u.n == if v.b then 1.0 else 0.0)
  }

  /** The field has another value in the one record than in the other. */
  ghost predicate Moved(b: Fields, c: Fields, f: string) {
    exists u, v :: Holds(b, f, u) && Holds(c, f, v) && !Equal(u, v)
  }

  // ---------- what changed per approval ----------

  /** Items by id; a later item with the same id replaces an earlier one. */
  function ById(items: seq<Fields>): (m: map<string, Fields>)
    ensures forall id :: id in m ==> id != "" && m[id] in items && IdOf(m[id]) == id
    ensures forall r :: r in items && IdOf(r) != "" ==> IdOf(r) in m
  {
    if items == [] then map[]
    else
      var front, last := items[..|items| - 1], items[|items| - 1];
      assert items == front + [last];
      if IdOf(last) != "" then ById(front)[IdOf(last) := last] else ById(front)
  }

  function Numeric(v: Value): Option<real> {
    match v
    case Bool(b) => Some(if b then 1.0 else 0.0)
    case Number(n) => Some(n)
    case _ => None
  }

  /** Python's `==`: `True` and `1` are equal, and so are `False` and `0`. */
  predicate Same(u: Value, v: Value) {
    u == v || (Numeric(u).Some? && Numeric(u) == Numeric(v))
  }

  function ChangedFields(b: Fields, c: Fields): set<string> {
    set f | f in b.Keys + c.Keys && !Same(Get(b, f), Get(c, f))
  }

  lemma SameIff(u: Value, v: Value)
    ensures Same(u, v) <==> Equal(u, v)
  {
  }

  lemma ChangedIff(b: Fields, c: Fields, f: string)
    ensures f in ChangedFields(b, c) <==> Moved(b, c, f)
  {
    SameIff(Get(b, f), Get(c, f));
    assert Holds(b, f, Get(b, f)) && Holds(c, f, Get(c, f));
  }

  lemma LastAboutStep(items: seq<Fields>, id: string, r: Fields)
    requires items != []
    ensures var n := |items| - 1;
            LastAbout(items, id, r) <==> if About(items[n], id) then items[n] == r else LastAbout(items[..n], id, r)
  {
    hide About;
    var n := |items| - 1;
    if About(items[n], id) {
      assert LastAboutAt(items, id, n);
    } else {
      forall i | 0 <= i < n ensures LastAboutAt(items, id, i) <==> LastAboutAt(items[..n], id, i) {
        assert forall j :: i <= j < n ==> items[..n][j] == items[j];
      }
    }
  }

  lemma ByIdStep(items: seq<Fields>, id: string)
    requires items != []
    ensures var n := |items| - 1;
            && (About(items[n], id) ==> id in ById(items) && ById(items)[id] == items[n])
            && (!About(items[n], id) ==>
                  (id in ById(items) <==> id in ById(items[..n])) && (id in ById(items) ==> ById(items)[id] == ById(items[..n])[id]))
  {
  }

  lemma {:induction false} ByIdIff(items: seq<Fields>, id: string, r: Fields)
    ensures LastAbout(items, id, r) <==> id in ById(items) && ById(items)[id] == r
  {
    if items != [] {
      hide ById;
      hide LastAbout;
      ByIdIff(items[..|items| - 1], id, r);
      LastAboutStep(items, id, r);
      ByIdStep(items, id);
    }
  }

  /** One changed approval; the analysis reads no other columns. */
  datatype ChangeRow = ChangeRow(id: string, changed: set<string>, baselineOverdue: Value, currentOverdue: Value,
                                 baselineHours: Value)

  function RowFor(id: string, b: Fields, c: Fields): ChangeRow {
    ChangeRow(id, ChangedFields(b, c), Get(b, "is_overdue"), Get(c, "is_overdue"), Get(b, "hours_overdue"))
  }

  function RowIds(rows: seq<ChangeRow>): seq<string> {
    seq(|rows|, i requires 0 <= i < |rows| => rows[i].id)
  }

  /** One row for every approval in both observations that changed at all, and no other rows. */
  ghost predicate ChangeRows(rows: seq<ChangeRow>, baseline: map<string, Fields>, current: map<string, Fields>) {
    && Distinct(RowIds(rows))
    && (forall k :: 0 <= k < |rows| ==>
          && rows[k].id in baseline && rows[k].id in current && rows[k].changed != {}
          && rows[k] == RowFor(rows[k].id, baseline[rows[k].id], current[rows[k].id]))
    && (forall id :: id in baseline && id in current && ChangedFields(baseline[id], current[id]) != {} ==> id in RowIds(rows))
  }

  /** A row says which fields moved between the two records, and what they hold of the clock. */
  ghost predicate RowTells(row: ChangeRow, b: Fields, c: Fields) {
    && (forall f :: f in row.changed <==> Moved(b, c, f))
    && Holds(b, "is_overdue", row.baselineOverdue) && Holds(c, "is_overdue", row.currentOverdue)
    && Holds(b, "hours_overdue", row.baselineHours)
  }

  /** Something of an approval that both files know has moved. */
  ghost predicate HasMoved(id: string, b: Fields, c: Fields, baselineItems: seq<Fields>, currentItems: seq<Fields>) {
    LastAbout(baselineItems, id, b) && LastAbout(currentItems, id, c) && exists f :: Moved(b, c, f)
  }

  ghost predicate RowStands(row: ChangeRow, baselineItems: seq<Fields>, currentItems: seq<Fields>) {
    exists b, c :: HasMoved(row.id, b, c, baselineItems, currentItems) && RowTells(row, b, c)
  }

  /** One row for every approval of which something has moved, and no others. */
  ghost predicate RowsStand(rows: seq<ChangeRow>, baselineItems: seq<Fields>, currentItems: seq<Fields>) {
    && Distinct(RowIds(rows))
    && (forall k :: 0 <= k < |rows| ==> RowStands(rows[k], baselineItems, currentItems))
    && (forall id, b, c :: HasMoved(id, b, c, baselineItems, currentItems) ==> id in RowIds(rows))
  }

  lemma RowsAreStanding(rows: seq<ChangeRow>, baselineItems: seq<Fields>, currentItems: seq<Fields>)
    requires ChangeRows(rows, ById(baselineItems), ById(currentItems))
    ensures RowsStand(rows, baselineItems, currentItems)
  {
    hide Moved;
    hide LastAbout;
    hide ChangedFields;
    hide ById;
    var baseline, current := ById(baselineItems), ById(currentItems);
    forall k | 0 <= k < |rows| ensures RowStands(rows[k], baselineItems, currentItems) {
      RowIsStanding(rows[k], baselineItems, currentItems);
    }
    forall id, b, c | HasMoved(id, b, c, baselineItems, currentItems) ensures id in RowIds(rows) {
      ByIdIff(baselineItems, id, b);
      ByIdIff(currentItems, id, c);
      var f :| Moved(b, c, f);
      ChangedIff(b, c, f);
      assert f in ChangedFields(baseline[id], current[id]);
    }
  }

  lemma RowIsStanding(row: ChangeRow, baselineItems: seq<Fields>, currentItems: seq<Fields>)
    requires row.id in ById(baselineItems) && row.id in ById(currentItems) && row.changed != {}
    requires row == RowFor(row.id, ById(baselineItems)[row.id], ById(currentItems)[row.id])
    ensures RowStands(row, baselineItems, currentItems)
  {
    hide Moved;
    hide LastAbout;
    hide ById;
    var b, c := ById(baselineItems)[row.id], ById(currentItems)[row.id];
    ByIdIff(baselineItems, row.id, b);
    ByIdIff(currentItems, row.id, c);
    forall f ensures f in ChangedFields(b, c) <==> Moved(b, c, f) {
      ChangedIff(b, c, f);
    }
    var f :| f in row.changed;
    assert HasMoved(row.id, b, c, baselineItems, currentItems) && RowTells(row, b, c);
  }

  /** The rows for the approvals handled so far. */
  ghost predicate RowsFor(rows: seq<ChangeRow>, baseline: map<string, Fields>, current: map<string, Fields>, handled: set<string>)
    requires handled <= baseline.Keys * current.Keys
  {
    && Distinct(RowIds(rows))
    && (forall k :: 0 <= k < |rows| ==>
          && rows[k].id in handled && rows[k].changed != {}
          && rows[k] == RowFor(rows[k].id, baseline[rows[k].id], current[rows[k].id]))
    && (forall id :: id in handled && ChangedFields(baseline[id], current[id]) != {} ==> id in RowIds(rows))
  }

  lemma RowsForOneMore(rows: seq<ChangeRow>, baseline: map<string, Fields>, current: map<string, Fields>,
                       handled: set<string>, id: string)
    requires handled <= baseline.Keys * current.Keys && id in baseline && id in current && id !in handled
    requires RowsFor(rows, baseline, current, handled)
    ensures var row := RowFor(id, baseline[id], current[id]);
            RowsFor(if row.changed == {} then rows else rows + [row], baseline, current, handled + {id})
  {
    hide ChangedFields;
    var row := RowFor(id, baseline[id], current[id]);
    assert RowIds(rows + [row]) == RowIds(rows) + [id];
    assert forall k :: 0 <= k < |rows| ==> RowIds(rows)[k] in handled;
  }

  lemma {:induction false} LeastExists(ids: set<string>) returns (least: string)
    requires ids != {}
    ensures least in ids && forall id :: id in ids ==> Leq(least, id)
  {
    var some :| some in ids;
    least := some;
    LeqTotal(some, some);
    if ids != {some} {
      var other := LeastExists(ids - {some});
      LeqTotal(some, other);
      least := if Leq(some, other) then some else other;
      forall id | id in ids ensures Leq(least, id) {
        if id != some && least == some {
          LeqTransitive(some, other, id);
        }
      }
    }
  }

  /** The rows stand in the order of their ids. */
  predicate InIdOrder(rows: seq<ChangeRow>) {
    forall i, j :: 0 <= i < j < |rows| ==> Leq(rows[i].id, rows[j].id)
  }

  /** Python's `sorted` over a set of texts. */
  method SortedIds(ids: set<string>) returns (order: seq<string>)
    ensures Enumerates(order, ids) && Ascending(order)
  {
    hide Leq;
    order := [];
    var left := ids;
    while left != {}
      invariant left <= ids && Enumerates(order, ids - left) && Ascending(order)
      invariant forall x, y :: x in order && y in left ==> Leq(x, y)
      decreases left
    {
      ghost var least := LeastExists(left);
      var id :| id in left && forall other :: other in left ==> Leq(id, other);
      order := order + [id];
      left := left - {id};
    }
  }

  predicate Ascending(order: seq<string>) {
    forall i, j :: 0 <= i < j < |order| ==> Leq(order[i], order[j])
  }

  method BuildItemChangeRows(baselineItems: seq<Fields>, currentItems: seq<Fields>) returns (rows: seq<ChangeRow>)
    ensures ChangeRows(rows, ById(baselineItems), ById(currentItems)) && InIdOrder(rows)
    ensures RowsStand(rows, baselineItems, currentItems)
  {
    hide RowsStand;
    hide Leq;
    hide RowFor;
    hide RowsFor;
    hide Members;
    hide InIdOrder;
    hide Ascending;
    hide ChangeRows;
    hide ChangedFields;
    hide Enumerates;
    hide ById;
    var baseline, current := ById(baselineItems), ById(currentItems);
    rows := [];
    var order := SortedIds(baseline.Keys * current.Keys);
    NoRowsYet(baseline, current, order);
    for n := 0 to |order|
      invariant Members(order, n) <= baseline.Keys * current.Keys && RowsFor(rows, baseline, current, Members(order, n))
      invariant InIdOrder(rows) && forall k :: 0 <= k < |rows| ==> rows[k].id in Members(order, n)
    {
      var id := order[n];
      NextMember(order, n, baseline.Keys * current.Keys);
      RowsForOneMore(rows, baseline, current, Members(order, n), id);
      var row := RowFor(id, baseline[id], current[id]);
      RowForId(id, baseline[id], current[id]);
      NextInOrder(rows, order, n, row);
      if row.changed != {} {
        rows := rows + [row];
      }
    }
    AllMembers(order, baseline.Keys * current.Keys);
    RowsForAll(rows, baseline, current);
    RowsAreStanding(rows, baselineItems, currentItems);
  }

  /** The first `n` ids. */
  ghost function Members(order: seq<string>, n: nat): set<string>
    requires n <= |order|
  {
    set k | 0 <= k < n :: order[k]
  }

  lemma NextMember(order: seq<string>, n: nat, ids: set<string>)
    requires Enumerates(order, ids) && n < |order|
    ensures order[n] in ids
    ensures order[n] !in Members(order, n) && Members(order, n + 1) == Members(order, n) + {order[n]}
  {
  }

  lemma AllMembers(order: seq<string>, ids: set<string>)
    requires Enumerates(order, ids)
    ensures Members(order, |order|) == ids
  {
    forall id | id in ids ensures id in Members(order, |order|) {
      var k :| 0 <= k < |order| && order[k] == id;
    }
    forall k | 0 <= k < |order| ensures order[k] in ids {
      assert order[k] in order;
    }
  }

  lemma NoRowsYet(baseline: map<string, Fields>, current: map<string, Fields>, order: seq<string>)
    ensures Members(order, 0) == {} && RowsFor([], baseline, current, {}) && InIdOrder([])
  {
    assert RowIds([]) == [];
  }

  lemma RowForId(id: string, b: Fields, c: Fields)
    ensures RowFor(id, b, c).id == id
  {
  }

  lemma NextInOrder(rows: seq<ChangeRow>, order: seq<string>, n: nat, row: ChangeRow)
    requires Ascending(order) && n < |order| && InIdOrder(rows) && row.id == order[n]
    requires forall k :: 0 <= k < |rows| ==> rows[k].id in Members(order, n)
    ensures InIdOrder(rows + [row])
  {
  }

  lemma RowsForAll(rows: seq<ChangeRow>, baseline: map<string, Fields>, current: map<string, Fields>)
    requires RowsFor(rows, baseline, current, baseline.Keys * current.Keys)
    ensures ChangeRows(rows, baseline, current)
  {
  }
}
