/** The drawing itself: block attributes and tables, read into a field map and rewritten in place from one. */
module CadDrawing {
  import opened Text
  import opened CadKeys
  import opened CadFields

  class Drawing {
    var blocks: seq<seq<Attribute>>
    var tables: seq<seq<Row>>

    constructor (blocks: seq<seq<Attribute>>, tables: seq<seq<Row>>)
      ensures this.blocks == blocks && this.tables == tables
    {
      this.blocks, this.tables := blocks, tables;
    }

    method ExtractFields(aliases: Aliases) returns (fields: Fields)
      ensures fields == FieldsOf(blocks, tables, aliases)
      ensures LastWins(fields, Offered(blocks, tables, aliases), aliases)
    {
      hide LastWins;
      FieldsLastWin(blocks, tables, aliases);
      fields := map[];
      for b := 0 to |blocks|
        invariant fields == ReadBlocks(blocks[..b], map[], aliases)
      {
        var block := blocks[b];
        ghost var before := fields;
        for i := 0 to |block|
          invariant fields == ReadBlock(block[..i], before, aliases)
        {
          assert block[..i + 1][..i] == block[..i];
          fields := AddField(fields, block[i].name, block[i].value, aliases);
        }
        assert block[..|block|] == block;
        assert blocks[..b + 1][..b] == blocks[..b];
      }
      assert blocks[..|blocks|] == blocks;
      ghost var fromBlocks := fields;
      for t := 0 to |tables|
        invariant fields == ReadTables(tables[..t], fromBlocks, aliases)
      {
        fields := ReadTable(tables[t], fields, aliases);
        assert tables[..t + 1][..t] == tables[..t];
      }
      assert tables[..|tables|] == tables;
    }

    /** Writes the given fields into attributes and tables, in place; returns how many places changed. */
    method ApplyFields(given: seq<Attribute>, aliases: Aliases) returns (updated: nat)
      modifies this
      ensures var norm := Normalized(given, aliases);
              && blocks == WriteBlocks(old(blocks), norm, aliases).now
              && tables == WriteTables(old(tables), norm, aliases).now
              && updated == WriteBlocks(old(blocks), norm, aliases).updated + WriteTables(old(tables), norm, aliases).updated
      ensures DrawingWritten(old(blocks), blocks, old(tables), tables, given, aliases)
    {
      hide DrawingWritten;
      DrawingIsWritten(blocks, tables, given, aliases);
      var norm := NormalizeInput(given, aliases);
      updated := ApplyBlocks(norm, aliases);
      var more := ApplyTables(given, norm, aliases);
      updated := updated + more;
    }

    method ApplyBlocks(norm: Fields, aliases: Aliases) returns (updated: nat)
      modifies this`blocks
      ensures blocks == WriteBlocks(old(blocks), norm, aliases).now
      ensures updated == WriteBlocks(old(blocks), norm, aliases).updated
    {
      updated := 0;
      ghost var was := blocks;
      ghost var counts := BlockUpdates(was, norm, aliases);
      for b := 0 to |blocks|
        invariant |blocks| == |was|
        invariant forall j :: 0 <= j < b ==> blocks[j] == WriteBlock(was[j], norm, aliases).now
        invariant forall j :: b <= j < |was| ==> blocks[j] == was[j]
        invariant updated == Sum(counts[..b])
      {
        SumOneMore(counts, b);
        var block, count := RewriteBlock(blocks[b], norm, aliases);
        blocks := blocks[b := block];
        updated := updated + count;
      }
      assert counts[..|was|] == counts;
      assert blocks == WriteBlocks(was, norm, aliases).now;
    }

    method ApplyTables(given: seq<Attribute>, ghost norm: Fields, aliases: Aliases) returns (updated: nat)
      requires norm == Normalized(given, aliases)
      modifies this`tables
      ensures Rewrite(tables, updated) == WriteTables(old(tables), norm, aliases)
    {
      updated := 0;
      ghost var was := tables;
      ghost var counts := TableUpdates(was, norm, aliases);
      for t := 0 to |tables|
        invariant |tables| == |was|
        invariant forall j :: 0 <= j < t ==> tables[j] == WriteRows(was[j], norm, aliases).now
        invariant forall j :: t <= j < |was| ==> tables[j] == was[j]
        invariant updated == Sum(counts[..t])
      {
        SumOneMore(counts, t);
        var table, count := ApplyTable(tables[t], given, aliases);
        tables := tables[t := table];
        updated := updated + count;
      }
      assert counts[..|was|] == counts;
      assert tables == WriteTables(was, norm, aliases).now;
    }
  }

  method ReadTable(table: seq<Row>, given: Fields, aliases: Aliases) returns (fields: Fields)
    ensures fields == ReadRows(table, given, aliases)
  {
    fields := given;
    for r := 0 to |table|
      invariant fields == ReadRows(table[..r], given, aliases)
    {
      assert table[..r + 1][..r] == table[..r];
      fields := ReadCells(table[r], fields, aliases);
    }
    assert table[..|table|] == table;
  }

  method ReadCells(row: Row, given: Fields, aliases: Aliases) returns (fields: Fields)
    ensures fields == ReadRow(row, 0, given, aliases)
  {
    fields := given;
    var col := 0;
    while col < |row|
      invariant ReadRow(row, 0, given, aliases) == ReadRow(row, col, fields, aliases)
      decreases |row| - col
    {
      var text := row[col];
      if Blank(text) {
        col := col + 1;
        continue;
      }
      if IsPairCell(text) {
        fields := AddField(fields, RawKey(text), PairValue(text), aliases);
        col := col + 1;
        continue;
      }
      if col + 1 < |row| {
        fields := AddField(fields, text, row[col + 1], aliases);
        if Usable(text, row[col + 1], aliases) {
          col := col + 1;
        }
      }
      col := col + 1;
    }
  }

  method RewriteBlock(block: seq<Attribute>, norm: Fields, aliases: Aliases) returns (now: seq<Attribute>, updated: nat)
    ensures Rewrite(now, updated) == WriteBlock(block, norm, aliases)
  {
    now, updated := block, 0;
    ghost var counts := AttributeUpdates(block, norm, aliases);
    for i := 0 to |block|
      invariant |now| == |block|
      invariant forall j :: 0 <= j < i ==> now[j] == WriteAttribute(block[j], norm, aliases)
      invariant forall j :: i <= j < |block| ==> now[j] == block[j]
      invariant updated == Sum(counts[..i])
    {
      SumOneMore(counts, i);
      var attribute, count := RewriteAttribute(now[i], norm, aliases);
      now := now[i := attribute];
      updated := updated + count;
    }
    assert counts[..|block|] == counts;
    assert now == WriteBlock(block, norm, aliases).now;
  }

  method RewriteAttribute(a: Attribute, norm: Fields, aliases: Aliases) returns (now: Attribute, updated: nat)
    ensures now == WriteAttribute(a, norm, aliases) && updated == if now != a then 1 else 0
  {
    now, updated := a, 0;
    var key := CanonicalKey(a.name, aliases);
    if key in norm && a.value != norm[key] {
      now := Attribute(a.name, norm[key]);
      updated := 1;
    }
  }

  /** One table: cells are rewritten in place while the scan moves along each row. */
  method ApplyTable(given: seq<Row>, fields: seq<Attribute>, aliases: Aliases) returns (table: seq<Row>, updated: nat)
    ensures Rewrite(table, updated) == WriteRows(given, Normalized(fields, aliases), aliases)
  {
    var norm := NormalizeInput(fields, aliases);
    table, updated := given, 0;
    ghost var counts := RowUpdates(given, norm, aliases);
    for r := 0 to |given|
      invariant |table| == |given|
      invariant forall j :: 0 <= j < r ==> table[j] == WriteRow(given[j], 0, norm, aliases).now
      invariant forall j :: r <= j < |given| ==> table[j] == given[j]
      invariant updated == Sum(counts[..r])
    {
      SumOneMore(counts, r);
      var row, count := ApplyRow(table[r], norm, aliases);
      table := table[r := row];
      updated := updated + count;
    }
    assert counts[..|given|] == counts;
    assert table == WriteRows(given, norm, aliases).now;
  }

  method ApplyRow(given: Row, norm: Fields, aliases: Aliases) returns (row: Row, updated: nat)
    ensures Rewrite(row, updated) == WriteRow(given, 0, norm, aliases)
  {
    row, updated := given, 0;
    var col := 0;
    while col < |row|
      invariant |row| == |given|
      invariant WriteRow(given, 0, norm, aliases)
             == var rest := WriteRow(row, col, norm, aliases); Rewrite(rest.now, updated + rest.updated)
      decreases |row| - col
    {
      var text := row[col];
      if Blank(text) {
        col := col + 1;
        continue;
      }
      if IsPairCell(text) {
        var rawKey := RawKey(text);
        var key := CanonicalKey(rawKey, aliases);
        if key in norm {
          var newValue := rawKey + "=" + norm[key];
          if row[col] != newValue {
            row := row[col := newValue];
            updated := updated + 1;
          } else {
            assert row[col := newValue] == row;
          }
          col := col + 1;
          continue;
        }
      }
      if col + 1 < |row| {
        var key := CanonicalKey(text, aliases);
        if key in norm && row[col + 1] != norm[key] {
          row := row[col + 1 := norm[key]];
          updated := updated + 1;
          col := col + 1;
        }
      }
      col := col + 1;
    }
  }
}
