/** Material fields of a CAD drawing: what reading its attributes and tables gives, and what writing makes of them. */
module CadFields {
  import opened Text
  import opened CadKeys

  type Row = seq<string>

  predicate Usable(rawKey: string, value: string, aliases: Aliases) {
    !Blank(rawKey) && !Blank(value) && CanonicalKey(rawKey, aliases) != ""
  }

  /** `add_field`: an unusable pair changes nothing. */
  function AddField(fields: Fields, rawKey: string, value: string, aliases: Aliases): Fields {
    if Usable(rawKey, value, aliases) then fields[CanonicalKey(rawKey, aliases) := Strip(value)] else fields
  }

  /** A cell of the form `key=value`, with something in front of the first `=`. */
  predicate IsPairCell(text: string) {
    IndexOf(text, '=') > 0
  }

  function RawKey(text: string): string
    requires IsPairCell(text)
  {
    text[..IndexOf(text, '=')]
  }

  function PairValue(text: string): string
    requires IsPairCell(text)
  {
    text[IndexOf(text, '=') + 1..]
  }

  /** The first `=` splits a pair cell, and a cell is one if it has an `=` that does not stand in front. */
  lemma PairCellIff(text: string)
    ensures IsPairCell(text) <==> '=' in text && text[0] != '='
    ensures IsPairCell(text) ==> text == RawKey(text) + "=" + PairValue(text) && '=' !in RawKey(text)
  {
  }

  // ---------- reading ----------

  function ReadRow(row: Row, col: nat, fields: Fields, aliases: Aliases): Fields
    decreases |row| - col
  {
    if col >= |row| then fields
    else if Blank(row[col]) then ReadRow(row, col + 1, fields, aliases)
    else if IsPairCell(row[col]) then
      ReadRow(row, col + 1, AddField(fields, RawKey(row[col]), PairValue(row[col]), aliases), aliases)
    else if col + 1 < |row| then
      ReadRow(row, if Usable(row[col], row[col + 1], aliases) then col + 2 else col + 1,
              AddField(fields, row[col], row[col + 1], aliases), aliases)
    else fields
  }

  function ReadRows(rows: seq<Row>, fields: Fields, aliases: Aliases): Fields {
    if rows == [] then fields
    else ReadRow(rows[|rows| - 1], 0, ReadRows(rows[..|rows| - 1], fields, aliases), aliases)
  }

  function ReadTables(tables: seq<seq<Row>>, fields: Fields, aliases: Aliases): Fields {
    if tables == [] then fields
    else ReadRows(tables[|tables| - 1], ReadTables(tables[..|tables| - 1], fields, aliases), aliases)
  }

  function ReadBlock(block: seq<Attribute>, fields: Fields, aliases: Aliases): Fields {
    if block == [] then fields
    else
      var last := block[|block| - 1];
      AddField(ReadBlock(block[..|block| - 1], fields, aliases), last.name, last.value, aliases)
  }

  function ReadBlocks(blocks: seq<seq<Attribute>>, fields: Fields, aliases: Aliases): Fields {
    if blocks == [] then fields
    else ReadBlock(blocks[|blocks| - 1], ReadBlocks(blocks[..|blocks| - 1], fields, aliases), aliases)
  }

  /** All fields of a drawing: the blocks' first, then the tables'; later ones win. */
  function FieldsOf(blocks: seq<seq<Attribute>>, tables: seq<seq<Row>>, aliases: Aliases): Fields {
    ReadTables(tables, ReadBlocks(blocks, map[], aliases), aliases)
  }

  // ---------- what is read ----------

  /** A pair that gives field `k` a value. */
  ghost predicate Gives(p: Attribute, k: string, aliases: Aliases) {
    !Blank(p.name) && !Blank(p.value) && k != "" && Names(p.name, k, aliases)
  }

  ghost predicate IsLast(pairs: seq<Attribute>, i: nat, k: string, aliases: Aliases)
    requires i < |pairs|
  {
    Gives(pairs[i], k, aliases) && forall j :: i < j < |pairs| ==> !Gives(pairs[j], k, aliases)
  }

  /** Exactly the fields that some pair gives, each with the last one's stripped value. */
  ghost predicate LastWins(fields: Fields, pairs: seq<Attribute>, aliases: Aliases) {
    && (forall k :: k in fields <==> exists i :: 0 <= i < |pairs| && Gives(pairs[i], k, aliases))
    && (forall i, k :: 0 <= i < |pairs| && IsLast(pairs, i, k, aliases) ==> k in fields && fields[k] == Strip(pairs[i].value))
  }

  lemma GivesIff(p: Attribute, k: string, aliases: Aliases)
    ensures Gives(p, k, aliases) <==> Usable(p.name, p.value, aliases) && CanonicalKey(p.name, aliases) == k
  {
    NamesIff(p.name, k, aliases);
  }

  lemma {:induction false} BlockLastWins(pairs: seq<Attribute>, aliases: Aliases)
    ensures LastWins(ReadBlock(pairs, map[], aliases), pairs, aliases)
  {
    hide Gives;
    if pairs != [] {
      var n := |pairs| - 1;
      BlockLastWins(pairs[..n], aliases);
      OneMorePair(ReadBlock(pairs[..n], map[], aliases), pairs[..n], pairs[n], aliases);
      assert pairs == pairs[..n] + [pairs[n]];
    }
  }

  lemma OneMorePair(fields: Fields, front: seq<Attribute>, p: Attribute, aliases: Aliases)
    requires LastWins(fields, front, aliases)
    ensures LastWins(AddField(fields, p.name, p.value, aliases), front + [p], aliases)
  {
    hide Gives;
    hide CanonicalKey;
    var now, pairs := AddField(fields, p.name, p.value, aliases), front + [p];
    forall k ensures Gives(p, k, aliases) <==> Usable(p.name, p.value, aliases) && CanonicalKey(p.name, aliases) == k {
      GivesIff(p, k, aliases);
    }
    forall k ensures k in now <==> exists i :: 0 <= i < |pairs| && Gives(pairs[i], k, aliases) {
      if Gives(p, k, aliases) {
        assert pairs[|front|] == p;
      } else if k in fields {
        var i :| 0 <= i < |front| && Gives(front[i], k, aliases);
        assert pairs[i] == front[i];
      }
    }
    forall i, k | 0 <= i < |pairs| && IsLast(pairs, i, k, aliases) ensures k in now && now[k] == Strip(pairs[i].value) {
      if i < |front| {
        assert !Gives(pairs[|front|], k, aliases);
        assert forall j :: i < j < |front| ==> pairs[j] == front[j];
        assert IsLast(front, i, k, aliases);
      }
    }
  }

  /** The pairs a row offers, in order. */
  function RowPairs(row: Row, col: nat, aliases: Aliases): seq<Attribute>
    decreases |row| - col
  {
    if col >= |row| then []
    else if Blank(row[col]) then RowPairs(row, col + 1, aliases)
    else if IsPairCell(row[col]) then [Attribute(RawKey(row[col]), PairValue(row[col]))] + RowPairs(row, col + 1, aliases)
    else if col + 1 < |row| then
      [Attribute(row[col], row[col + 1])]
      + RowPairs(row, if Usable(row[col], row[col + 1], aliases) then col + 2 else col + 1, aliases)
    else []
  }

  function RowsPairs(rows: seq<Row>, aliases: Aliases): seq<Attribute> {
    if rows == [] then [] else RowsPairs(rows[..|rows| - 1], aliases) + RowPairs(rows[|rows| - 1], 0, aliases)
  }

  function TablesPairs(tables: seq<seq<Row>>, aliases: Aliases): seq<Attribute> {
    if tables == [] then [] else TablesPairs(tables[..|tables| - 1], aliases) + RowsPairs(tables[|tables| - 1], aliases)
  }

  function BlocksPairs(blocks: seq<seq<Attribute>>): seq<Attribute> {
    if blocks == [] then [] else BlocksPairs(blocks[..|blocks| - 1]) + blocks[|blocks| - 1]
  }

  /** All pairs a drawing offers: its attributes, then its tables row by row. */
  function Offered(blocks: seq<seq<Attribute>>, tables: seq<seq<Row>>, aliases: Aliases): seq<Attribute> {
    BlocksPairs(blocks) + TablesPairs(tables, aliases)
  }

  lemma {:induction false} ReadBoth(a: seq<Attribute>, b: seq<Attribute>, fields: Fields, aliases: Aliases)
    ensures ReadBlock(a + b, fields, aliases) == ReadBlock(b, ReadBlock(a, fields, aliases), aliases)
  {
    if b == [] {
      assert a + b == a;
    } else {
      assert (a + b)[..|a + b| - 1] == a + b[..|b| - 1];
      ReadBoth(a, b[..|b| - 1], fields, aliases);
    }
  }

  lemma {:induction false} ReadPairs(row: Row, col: nat, fields: Fields, aliases: Aliases)
    ensures ReadRow(row, col, fields, aliases) == ReadBlock(RowPairs(row, col, aliases), fields, aliases)
    decreases |row| - col
  {
    hide IsPairCell;
    hide Usable;
    if col < |row| {
      if Blank(row[col]) {
        ReadPairs(row, col + 1, fields, aliases);
      } else if IsPairCell(row[col]) {
        ReadFirst(Attribute(RawKey(row[col]), PairValue(row[col])), RowPairs(row, col + 1, aliases), fields, aliases);
        ReadPairs(row, col + 1, AddField(fields, RawKey(row[col]), PairValue(row[col]), aliases), aliases);
      } else if col + 1 < |row| {
        var next := if Usable(row[col], row[col + 1], aliases) then col + 2 else col + 1;
        ReadFirst(Attribute(row[col], row[col + 1]), RowPairs(row, next, aliases), fields, aliases);
        ReadPairs(row, next, AddField(fields, row[col], row[col + 1], aliases), aliases);
      }
    }
  }

  lemma ReadFirst(p: Attribute, rest: seq<Attribute>, fields: Fields, aliases: Aliases)
    ensures ReadBlock([p] + rest, fields, aliases) == ReadBlock(rest, AddField(fields, p.name, p.value, aliases), aliases)
  {
    ReadBoth([p], rest, fields, aliases);
    assert [p][..0] == [];
    assert ReadBlock([p], fields, aliases) == AddField(ReadBlock([], fields, aliases), p.name, p.value, aliases);
  }

  lemma {:induction false} ReadRowsPairs(rows: seq<Row>, fields: Fields, aliases: Aliases)
    ensures ReadRows(rows, fields, aliases) == ReadBlock(RowsPairs(rows, aliases), fields, aliases)
  {
    if rows != [] {
      var n := |rows| - 1;
      ReadRowsPairs(rows[..n], fields, aliases);
      ReadPairs(rows[n], 0, ReadRows(rows[..n], fields, aliases), aliases);
      ReadBoth(RowsPairs(rows[..n], aliases), RowPairs(rows[n], 0, aliases), fields, aliases);
    }
  }

  lemma {:induction false} ReadTablesPairs(tables: seq<seq<Row>>, fields: Fields, aliases: Aliases)
    ensures ReadTables(tables, fields, aliases) == ReadBlock(TablesPairs(tables, aliases), fields, aliases)
  {
    if tables != [] {
      var n := |tables| - 1;
      ReadTablesPairs(tables[..n], fields, aliases);
      ReadRowsPairs(tables[n], ReadTables(tables[..n], fields, aliases), aliases);
      ReadBoth(TablesPairs(tables[..n], aliases), RowsPairs(tables[n], aliases), fields, aliases);
    }
  }

  lemma {:induction false} ReadBlocksPairs(blocks: seq<seq<Attribute>>, fields: Fields, aliases: Aliases)
    ensures ReadBlocks(blocks, fields, aliases) == ReadBlock(BlocksPairs(blocks), fields, aliases)
  {
    if blocks != [] {
      var n := |blocks| - 1;
      ReadBlocksPairs(blocks[..n], fields, aliases);
      ReadBoth(BlocksPairs(blocks[..n]), blocks[n], fields, aliases);
    }
  }

  /** A drawing's fields are exactly those its pairs give, and the last pair wins. */
  lemma FieldsLastWin(blocks: seq<seq<Attribute>>, tables: seq<seq<Row>>, aliases: Aliases)
    ensures LastWins(FieldsOf(blocks, tables, aliases), Offered(blocks, tables, aliases), aliases)
  {
    hide LastWins;
    ReadBlocksPairs(blocks, map[], aliases);
    ReadTablesPairs(tables, ReadBlocks(blocks, map[], aliases), aliases);
    ReadBoth(BlocksPairs(blocks), TablesPairs(tables, aliases), map[], aliases);
    BlockLastWins(Offered(blocks, tables, aliases), aliases);
  }

  // ---------- the fields to write ----------

  /** Keys are not empty and values not blank. */
  predicate NormOk(norm: Fields) {
    forall k :: k in norm ==> k != "" && !Blank(norm[k])
  }

  function Normalized(given: seq<Attribute>, aliases: Aliases): (norm: Fields)
    ensures NormOk(norm)
  {
    if given == [] then map[]
    else
      var last := given[|given| - 1];
      var norm := Normalized(given[..|given| - 1], aliases);
      var key := CanonicalKey(last.name, aliases);
      if key != "" && !Blank(last.value) then norm[key := last.value] else norm
  }

  method NormalizeInput(given: seq<Attribute>, aliases: Aliases) returns (norm: Fields)
    ensures norm == Normalized(given, aliases)
  {
    norm := map[];
    for i := 0 to |given|
      invariant norm == Normalized(given[..i], aliases)
    {
      assert given[..i + 1][..i] == given[..i];
      var key := CanonicalKey(given[i].name, aliases);
      if key != "" && !Blank(given[i].value) {
        norm := norm[key := given[i].value];
      }
    }
    assert given[..|given|] == given;
  }

  // ---------- writing ----------

  datatype Rewrite<T> = Rewrite(now: T, updated: nat)

  /** The cell `rawKey=value` that a pair cell becomes. */
  function NewPair(cell: string, norm: Fields, aliases: Aliases): string
    requires IsPairCell(cell) && CanonicalKey(RawKey(cell), aliases) in norm
  {
    RawKey(cell) + "=" + norm[CanonicalKey(RawKey(cell), aliases)]
  }

  predicate WritesPair(cell: string, norm: Fields, aliases: Aliases) {
    !Blank(cell) && IsPairCell(cell) && CanonicalKey(RawKey(cell), aliases) in norm
  }

  /** The cell is taken for a label of a key being written, so the cell behind it is at stake. */
  predicate WritesNext(cell: string, norm: Fields, aliases: Aliases) {
    !Blank(cell) && !WritesPair(cell, norm, aliases) && CanonicalKey(cell, aliases) in norm
  }

  /** One row from column `col` on. A cell that already holds the value is not skipped. */
  function WriteRow(row: Row, col: nat, norm: Fields, aliases: Aliases): (r: Rewrite<Row>)
    ensures |r.now| == |row|
    decreases |row| - col
  {
    if col >= |row| then Rewrite(row, 0)
    else if WritesPair(row[col], norm, aliases) then
      var cell := NewPair(row[col], norm, aliases);
      var r := WriteRow(row[col := cell], col + 1, norm, aliases);
      Rewrite(r.now, r.updated + if row[col] != cell then 1 else 0)
    else if WritesNext(row[col], norm, aliases) && col + 1 < |row|
        && row[col + 1] != norm[CanonicalKey(row[col], aliases)] then
      var r := WriteRow(row[col + 1 := norm[CanonicalKey(row[col], aliases)]], col + 2, norm, aliases);
      Rewrite(r.now, r.updated + 1)
    else WriteRow(row, col + 1, norm, aliases)
  }

  function Sum(ns: seq<nat>): nat {
    if ns == [] then 0 else Sum(ns[..|ns| - 1]) + ns[|ns| - 1]
  }

  lemma SumOneMore(ns: seq<nat>, i: nat)
    requires i < |ns|
    ensures Sum(ns[..i + 1]) == Sum(ns[..i]) + ns[i]
  {
    assert ns[..i + 1][..i] == ns[..i];
  }

  /** The updates of each row. */
  function RowUpdates(rows: seq<Row>, norm: Fields, aliases: Aliases): seq<nat> {
    seq(|rows|, i requires 0 <= i < |rows| => WriteRow(rows[i], 0, norm, aliases).updated)
  }

  function WriteRows(rows: seq<Row>, norm: Fields, aliases: Aliases): Rewrite<seq<Row>> {
    Rewrite(seq(|rows|, i requires 0 <= i < |rows| => WriteRow(rows[i], 0, norm, aliases).now),
            Sum(RowUpdates(rows, norm, aliases)))
  }

  function TableUpdates(tables: seq<seq<Row>>, norm: Fields, aliases: Aliases): seq<nat> {
    seq(|tables|, i requires 0 <= i < |tables| => WriteRows(tables[i], norm, aliases).updated)
  }

  function WriteTables(tables: seq<seq<Row>>, norm: Fields, aliases: Aliases): Rewrite<seq<seq<Row>>> {
    Rewrite(seq(|tables|, i requires 0 <= i < |tables| => WriteRows(tables[i], norm, aliases).now),
            Sum(TableUpdates(tables, norm, aliases)))
  }

  function WriteAttribute(a: Attribute, norm: Fields, aliases: Aliases): Attribute {
    var key := CanonicalKey(a.name, aliases);
    if key in norm then Attribute(a.name, norm[key]) else a
  }

  function AttributeUpdates(block: seq<Attribute>, norm: Fields, aliases: Aliases): seq<nat> {
    seq(|block|, i requires 0 <= i < |block| => if WriteAttribute(block[i], norm, aliases) != block[i] then 1 else 0)
  }

  function WriteBlock(block: seq<Attribute>, norm: Fields, aliases: Aliases): Rewrite<seq<Attribute>> {
    Rewrite(seq(|block|, i requires 0 <= i < |block| => WriteAttribute(block[i], norm, aliases)),
            Sum(AttributeUpdates(block, norm, aliases)))
  }

  function BlockUpdates(blocks: seq<seq<Attribute>>, norm: Fields, aliases: Aliases): seq<nat> {
    seq(|blocks|, i requires 0 <= i < |blocks| => WriteBlock(blocks[i], norm, aliases).updated)
  }

  function WriteBlocks(blocks: seq<seq<Attribute>>, norm: Fields, aliases: Aliases): Rewrite<seq<seq<Attribute>>> {
    Rewrite(seq(|blocks|, i requires 0 <= i < |blocks| => WriteBlock(blocks[i], norm, aliases).now),
            Sum(BlockUpdates(blocks, norm, aliases)))
  }

  // ---------- what is written ----------

  /** A given pair that puts a value into field `k`. */
  ghost predicate Puts(p: Attribute, k: string, aliases: Aliases) {
    k != "" && !Blank(p.value) && Names(p.name, k, aliases)
  }

  ghost predicate IsLastPut(given: seq<Attribute>, i: nat, k: string, aliases: Aliases)
    requires i < |given|
  {
    Puts(given[i], k, aliases) && forall j :: i < j < |given| ==> !Puts(given[j], k, aliases)
  }

  /** The value that is written into field `k`: the last one given for it, under whatever name. */
  ghost predicate WrittenAs(given: seq<Attribute>, k: string, v: string, aliases: Aliases) {
    exists i :: 0 <= i < |given| && IsLastPut(given, i, k, aliases) && given[i].value == v
  }

  lemma {:induction false} NormalizedIff(given: seq<Attribute>, k: string, v: string, aliases: Aliases)
    ensures WrittenAs(given, k, v, aliases) <==> k in Normalized(given, aliases) && Normalized(given, aliases)[k] == v
  {
    hide CanonicalKey;
    hide Names;
    if given != [] {
      var n := |given| - 1;
      var front, last := given[..n], given[n];
      NormalizedIff(front, k, v, aliases);
      NamesIff(last.name, k, aliases);
      WrittenOneMore(given, k, v, aliases);
      hide WrittenAs;
      hide Blank;
    }
  }

  lemma WrittenOneMore(given: seq<Attribute>, k: string, v: string, aliases: Aliases)
    requires given != []
    ensures var n := |given| - 1;
            WrittenAs(given, k, v, aliases) <==>
              if Puts(given[n], k, aliases) then given[n].value == v else WrittenAs(given[..n], k, v, aliases)
  {
    hide Puts;
    var n := |given| - 1;
    var front := given[..n];
    if Puts(given[n], k, aliases) {
      assert given[n].value == v ==> IsLastPut(given, n, k, aliases);
    } else {
      forall i | 0 <= i < n ensures IsLastPut(given, i, k, aliases) <==> IsLastPut(front, i, k, aliases) {
        assert forall j :: i <= j < n ==> given[j] == front[j];
      }
    }
  }

  /** An attribute keeps its name; it holds the value written into the field its name names, and otherwise its own. */
  ghost predicate AttributeWritten(before: Attribute, after: Attribute, given: seq<Attribute>, aliases: Aliases) {
    && after.name == before.name
    && (forall v :: Receives(before.name, v, given, aliases) ==> after.value == v)
    && ((forall v :: !Receives(before.name, v, given, aliases)) ==> after.value == before.value)
  }

  /** The text names a field that `v` is written into. */
  ghost predicate Receives(name: string, v: string, given: seq<Attribute>, aliases: Aliases) {
    exists k :: Names(name, k, aliases) && WrittenAs(given, k, v, aliases)
  }

  predicate IsLabel(cell: string) {
    !Blank(cell) && !IsPairCell(cell)
  }

  /** A label in front of a row has the value written behind it, and a pair cell there holds it. */
  ghost predicate RowWritten(before: Row, after: Row, given: seq<Attribute>, aliases: Aliases) {
    && |after| == |before|
    && (|before| >= 2 && IsLabel(before[0]) ==>
          forall v :: Receives(before[0], v, given, aliases) && before[1] != v ==> after[0] == before[0] && after[1] == v)
    && (before != [] && !Blank(before[0]) && IsPairCell(before[0]) ==>
          forall v :: Receives(RawKey(before[0]), v, given, aliases) ==> after[0] == RawKey(before[0]) + "=" + v)
  }

  ghost predicate BlockWritten(before: seq<Attribute>, after: seq<Attribute>, given: seq<Attribute>, aliases: Aliases) {
    |after| == |before| && forall i :: 0 <= i < |before| ==> AttributeWritten(before[i], after[i], given, aliases)
  }

  ghost predicate TableWritten(before: seq<Row>, after: seq<Row>, given: seq<Attribute>, aliases: Aliases) {
    |after| == |before| && forall r :: 0 <= r < |before| ==> RowWritten(before[r], after[r], given, aliases)
  }

  ghost predicate DrawingWritten(blocks: seq<seq<Attribute>>, blocks': seq<seq<Attribute>>, tables: seq<seq<Row>>, tables': seq<seq<Row>>,
                                 given: seq<Attribute>, aliases: Aliases) {
    && |blocks'| == |blocks| && |tables'| == |tables|
    && (forall b :: 0 <= b < |blocks| ==> BlockWritten(blocks[b], blocks'[b], given, aliases))
    && (forall t :: 0 <= t < |tables| ==> TableWritten(tables[t], tables'[t], given, aliases))
  }

  lemma AttributeIsWritten(a: Attribute, given: seq<Attribute>, aliases: Aliases)
    ensures AttributeWritten(a, WriteAttribute(a, Normalized(given, aliases), aliases), given, aliases)
  {
    hide CanonicalKey;
    hide Names;
    hide WrittenAs;
    var norm, key := Normalized(given, aliases), CanonicalKey(a.name, aliases);
    forall v ensures Receives(a.name, v, given, aliases) <==> key in norm && norm[key] == v {
      ReceivesIff(a.name, v, given, aliases);
    }
    if key in norm {
      assert Receives(a.name, norm[key], given, aliases);
    }
  }

  lemma ReceivesIff(name: string, v: string, given: seq<Attribute>, aliases: Aliases)
    ensures var norm, key := Normalized(given, aliases), CanonicalKey(name, aliases);
            Receives(name, v, given, aliases) <==> key in norm && norm[key] == v
  {
    hide CanonicalKey;
    hide Names;
    hide WrittenAs;
    var key := CanonicalKey(name, aliases);
    NamesIff(name, key, aliases);
    NormalizedIff(given, key, v, aliases);
    forall k | Names(name, k, aliases) ensures k == key {
      NamesIff(name, k, aliases);
    }
  }

  /** The scan never goes back. */
  lemma {:induction false} ScanLeavesFront(row: Row, col: nat, norm: Fields, aliases: Aliases)
    ensures forall i :: 0 <= i < col && i < |row| ==> WriteRow(row, col, norm, aliases).now[i] == row[i]
    decreases |row| - col
  {
    if col < |row| {
      if WritesPair(row[col], norm, aliases) {
        ScanLeavesFront(row[col := NewPair(row[col], norm, aliases)], col + 1, norm, aliases);
      } else if WritesNext(row[col], norm, aliases) && col + 1 < |row|
          && row[col + 1] != norm[CanonicalKey(row[col], aliases)] {
        ScanLeavesFront(row[col + 1 := norm[CanonicalKey(row[col], aliases)]], col + 2, norm, aliases);
      } else {
        ScanLeavesFront(row, col + 1, norm, aliases);
      }
    }
  }

  lemma RowIsWritten(row: Row, given: seq<Attribute>, aliases: Aliases)
    ensures RowWritten(row, WriteRow(row, 0, Normalized(given, aliases), aliases).now, given, aliases)
  {
    hide CanonicalKey;
    hide Names;
    hide WrittenAs;
    hide IsPairCell;
    var norm := Normalized(given, aliases);
    var now := WriteRow(row, 0, norm, aliases).now;
    if row != [] && !Blank(row[0]) {
      var raw := if IsPairCell(row[0]) then RawKey(row[0]) else row[0];
      forall v | Receives(raw, v, given, aliases)
        ensures CanonicalKey(raw, aliases) in norm && norm[CanonicalKey(raw, aliases)] == v {
        ReceivesIff(raw, v, given, aliases);
      }
      if WritesPair(row[0], norm, aliases) {
        ScanLeavesFront(row[0 := NewPair(row[0], norm, aliases)], 1, norm, aliases);
      } else if |row| >= 2 && WritesNext(row[0], norm, aliases) {
        ScanLeavesFront(row[1 := norm[CanonicalKey(row[0], aliases)]], 2, norm, aliases);
      }
    }
  }

  lemma DrawingIsWritten(blocks: seq<seq<Attribute>>, tables: seq<seq<Row>>, given: seq<Attribute>, aliases: Aliases)
    ensures var norm := Normalized(given, aliases);
            DrawingWritten(blocks, WriteBlocks(blocks, norm, aliases).now, tables, WriteTables(tables, norm, aliases).now, given, aliases)
  {
    hide AttributeWritten;
    hide RowWritten;
    hide WriteAttribute;
    hide WriteRow;
    var norm := Normalized(given, aliases);
    forall b | 0 <= b < |blocks| ensures BlockWritten(blocks[b], WriteBlocks(blocks, norm, aliases).now[b], given, aliases) {
      forall i | 0 <= i < |blocks[b]|
        ensures AttributeWritten(blocks[b][i], WriteBlock(blocks[b], norm, aliases).now[i], given, aliases) {
        AttributeIsWritten(blocks[b][i], given, aliases);
      }
    }
    forall t | 0 <= t < |tables| ensures TableWritten(tables[t], WriteTables(tables, norm, aliases).now[t], given, aliases) {
      forall r | 0 <= r < |tables[t]|
        ensures RowWritten(tables[t][r], WriteRows(tables[t], norm, aliases).now[r], given, aliases) {
        RowIsWritten(tables[t][r], given, aliases);
      }
    }
  }
}
