/** Reading a drawing after writing fields into it. */
module CadPutGet {
  import opened Text
  import opened CadKeys
  import opened CadFields
  import opened CadLaws
  import opened CadPlaces

  /** The keys a row has a place for, whether or not the place holds a value. */
  function KeysIn(row: Row, col: nat, aliases: Aliases): set<string>
    decreases |row| - col
  {
    if col >= |row| then {}
    else if Blank(row[col]) then KeysIn(row, col + 1, aliases)
    else if IsPairCell(row[col]) then {CanonicalKey(RawKey(row[col]), aliases)} + KeysIn(row, col + 1, aliases)
    else if col + 1 == |row| then {}
    else {CanonicalKey(row[col], aliases)} + KeysIn(row, col + 2, aliases)
  }

  /** `fields`, with the stripped written value for every written key that has a place. */
  function Overridden(fields: Fields, norm: Fields, places: set<string>): Fields {
    map k | k in fields.Keys + (places * norm.Keys) :: if k in norm then Strip(norm[k]) else fields[k]
  }

  /** Fields read so far have places. */
  predicate Placed(fields: Fields, norm: Fields, places: set<string>) {
    fields.Keys * norm.Keys <= places
  }

  // ---------- one field ----------

  /** Reading a place whose key is written: before, some value or none; afterwards, the written one. */
  lemma ReadWritten(f: Fields, norm: Fields, places: set<string>, name: string, before: string, aliases: Aliases)
    requires NormOk(norm) && Placed(f, norm, places) && !Blank(name) && CanonicalKey(name, aliases) in norm
    ensures var key := CanonicalKey(name, aliases);
            var g := AddField(f, name, before, aliases);
            && Placed(g, norm, places + {key})
            && AddField(Overridden(f, norm, places), name, norm[key], aliases) == Overridden(g, norm, places + {key})
  {
    var key := CanonicalKey(name, aliases);
    OverriddenPut(f, norm, places, key, Strip(before));
  }

  lemma OverriddenPut(f: Fields, norm: Fields, places: set<string>, key: string, value: string)
    requires key in norm
    ensures Overridden(f, norm, places)[key := Strip(norm[key])]
         == Overridden(f, norm, places + {key}) == Overridden(f[key := value], norm, places + {key})
  {
  }

  /** Reading a place whose key is not written. */
  lemma ReadUnwritten(f: Fields, norm: Fields, places: set<string>, name: string, value: string, aliases: Aliases)
    requires Placed(f, norm, places) && CanonicalKey(name, aliases) !in norm
    ensures var key := CanonicalKey(name, aliases);
            var g := AddField(f, name, value, aliases);
            && Placed(g, norm, places + {key})
            && AddField(Overridden(f, norm, places), name, value, aliases) == Overridden(g, norm, places + {key})
  {
    var key := CanonicalKey(name, aliases);
    OverriddenSkip(f, norm, places, key, Strip(value));
  }

  lemma OverriddenSkip(f: Fields, norm: Fields, places: set<string>, key: string, value: string)
    requires key !in norm
    ensures Overridden(f, norm, places + {key}) == Overridden(f, norm, places)
    ensures Overridden(f, norm, places)[key := value] == Overridden(f[key := value], norm, places + {key})
  {
  }

  // ---------- one row ----------

  lemma {:induction false} RestOfRowRead(a: Row, b: Row, col: nat, fields: Fields, aliases: Aliases)
    requires AgreeFrom(a, b, col)
    ensures ReadRow(a, col, fields, aliases) == ReadRow(b, col, fields, aliases)
    decreases |a| - col
  {
    if col < |a| {
      if Blank(a[col]) {
        RestOfRowRead(a, b, col + 1, fields, aliases);
      } else if IsPairCell(a[col]) {
        RestOfRowRead(a, b, col + 1, AddField(fields, RawKey(a[col]), PairValue(a[col]), aliases), aliases);
      } else if col + 1 < |a| {
        var more := AddField(fields, a[col], a[col + 1], aliases);
        RestOfRowRead(a, b, if Usable(a[col], a[col + 1], aliases) then col + 2 else col + 1, more, aliases);
      }
    }
  }

  lemma {:induction false} RestOfRowKeys(a: Row, b: Row, col: nat, aliases: Aliases)
    requires AgreeFrom(a, b, col)
    ensures KeysIn(a, col, aliases) == KeysIn(b, col, aliases)
    decreases |a| - col
  {
    if col < |a| {
      if Blank(a[col]) || IsPairCell(a[col]) {
        RestOfRowKeys(a, b, col + 1, aliases);
      } else if col + 1 < |a| {
        RestOfRowKeys(a, b, col + 2, aliases);
      }
    }
  }

  lemma RestOfRowOnly(a: Row, b: Row, col: nat, fields: Fields, norm: Fields, aliases: Aliases)
    requires AgreeFrom(a, b, col)
    ensures ReadRow(a, col, fields, aliases) == ReadRow(b, col, fields, aliases)
    ensures Aligned(a, col, aliases) == Aligned(b, col, aliases)
    ensures KeysIn(a, col, aliases) == KeysIn(b, col, aliases)
  {
    RestOfRowRead(a, b, col, fields, aliases);
    RestOfRowShape(a, b, col, norm, aliases);
    RestOfRowKeys(a, b, col, aliases);
  }

  /** Reading a row whose places were filled gives what reading the row gave, overridden. */
  lemma {:induction false} OwnPutGet(row: Row, col: nat, f: Fields, norm: Fields, places: set<string>, aliases: Aliases)
    requires NormOk(norm) && Placed(f, norm, places) && Aligned(row, col, aliases)
    ensures var now := OwnPlaces(row, col, norm, aliases);
            var more := places + KeysIn(row, col, aliases);
            && Placed(ReadRow(row, col, f, aliases), norm, more)
            && ReadRow(now, col, Overridden(f, norm, places), aliases)
            == Overridden(ReadRow(row, col, f, aliases), norm, more)
    decreases |row| - col
  {
    if col >= |row| {
      assert places + {} == places;
    } else if Blank(row[col]) {
      OwnLeavesFront(row, col + 1, norm, aliases);
      OwnPutGet(row, col + 1, f, norm, places, aliases);
    } else if IsPairCell(row[col]) {
      PairPutGet(row, col, f, norm, places, aliases);
    } else if col + 1 == |row| {
      LoneLabel(row, col, f, norm, places, aliases);
    } else {
      LabelPutGet(row, col, f, norm, places, aliases);
    }
  }

  lemma LoneLabel(row: Row, col: nat, f: Fields, norm: Fields, places: set<string>, aliases: Aliases)
    requires Placed(f, norm, places) && col + 1 == |row| && !Blank(row[col]) && !IsPairCell(row[col])
    ensures ReadRow(row, col, Overridden(f, norm, places), aliases) == Overridden(f, norm, places + KeysIn(row, col, aliases))
  {
    assert places + {} == places;
  }

  lemma {:induction false} PairPutGet(row: Row, col: nat, f: Fields, norm: Fields, places: set<string>, aliases: Aliases)
    requires NormOk(norm) && Placed(f, norm, places) && col < |row| && !Blank(row[col]) && IsPairCell(row[col])
    requires Aligned(row, col, aliases)
    ensures var now := OwnPlaces(row, col, norm, aliases);
            var more := places + KeysIn(row, col, aliases);
            && Placed(ReadRow(row, col, f, aliases), norm, more)
            && ReadRow(now, col, Overridden(f, norm, places), aliases)
            == Overridden(ReadRow(row, col, f, aliases), norm, more)
    decreases |row| - col, 0
  {
    var raw := RawKey(row[col]);
    var key := CanonicalKey(raw, aliases);
    var g := AddField(f, raw, PairValue(row[col]), aliases);
    assert places + {key} + KeysIn(row, col + 1, aliases) == places + KeysIn(row, col, aliases);
    if key in norm {
      var cell := NewPair(row[col], norm, aliases);
      var next := row[col := cell];
      PairStaysPair(row[col], norm, aliases);
      RestOfRowOnly(row, next, col + 1, g, norm, aliases);
      ReadWritten(f, norm, places, raw, PairValue(row[col]), aliases);
      OwnPutGet(next, col + 1, g, norm, places + {key}, aliases);
      OwnLeavesFront(next, col + 1, norm, aliases);
    } else {
      ReadUnwritten(f, norm, places, raw, PairValue(row[col]), aliases);
      OwnPutGet(row, col + 1, g, norm, places + {key}, aliases);
      OwnLeavesFront(row, col + 1, norm, aliases);
    }
  }

  lemma {:induction false} LabelPutGet(row: Row, col: nat, f: Fields, norm: Fields, places: set<string>, aliases: Aliases)
    requires NormOk(norm) && Placed(f, norm, places) && col + 1 < |row| && !Blank(row[col]) && !IsPairCell(row[col])
    requires Aligned(row, col, aliases)
    ensures var now := OwnPlaces(row, col, norm, aliases);
            var more := places + KeysIn(row, col, aliases);
            && Placed(ReadRow(row, col, f, aliases), norm, more)
            && ReadRow(now, col, Overridden(f, norm, places), aliases)
            == Overridden(ReadRow(row, col, f, aliases), norm, more)
    decreases |row| - col, 0
  {
    hide IsPairCell;
    hide CanonicalKey;
    var key := CanonicalKey(row[col], aliases);
    var g := AddField(f, row[col], row[col + 1], aliases);
    var value := if key in norm then norm[key] else row[col + 1];
    var next := row[col + 1 := value];
    var now := OwnPlaces(row, col, norm, aliases);
    var given := Overridden(f, norm, places);
    assert now == OwnPlaces(next, col + 2, norm, aliases) by {
      assert row[col + 1 := row[col + 1]] == row;
    }
    assert Placed(g, norm, places + {key})
        && AddField(given, row[col], value, aliases) == Overridden(g, norm, places + {key}) by {
      if key in norm {
        ReadWritten(f, norm, places, row[col], row[col + 1], aliases);
      } else {
        ReadUnwritten(f, norm, places, row[col], row[col + 1], aliases);
      }
    }
    RestOfRowOnly(row, next, col + 2, g, norm, aliases);
    OwnPutGet(next, col + 2, g, norm, places + {key}, aliases);
    assert now[col] == row[col] && now[col + 1] == value by {
      OwnLeavesFront(next, col + 2, norm, aliases);
    }
    assert places + {key} + KeysIn(row, col + 2, aliases) == places + KeysIn(row, col, aliases);
    LabelRead(row, col, f, aliases);
    LabelRead(now, col, given, aliases);
  }

  /** A label and its value cell are read together, even when the value cell is blank. */
  lemma LabelRead(row: Row, col: nat, f: Fields, aliases: Aliases)
    requires col + 1 < |row| && !Blank(row[col]) && !IsPairCell(row[col]) && CanonicalKey(row[col], aliases) != ""
    ensures ReadRow(row, col, f, aliases) == ReadRow(row, col + 2, AddField(f, row[col], row[col + 1], aliases), aliases)
  {
  }

  /** Reading a written row gives what reading the row gave, overridden. */
  lemma RowPutGet(row: Row, col: nat, f: Fields, norm: Fields, places: set<string>, aliases: Aliases)
    requires NormOk(norm) && Placed(f, norm, places)
    requires Aligned(row, col, aliases) && Calm(row, col, norm, aliases)
    ensures var now := WriteRow(row, col, norm, aliases).now;
            var more := places + KeysIn(row, col, aliases);
            && Placed(ReadRow(row, col, f, aliases), norm, more)
            && ReadRow(now, col, Overridden(f, norm, places), aliases)
            == Overridden(ReadRow(row, col, f, aliases), norm, more)
  {
    WritesOwnPlacesIff(row, col, norm, aliases);
    OwnPutGet(row, col, f, norm, places, aliases);
  }

  // ---------- the whole drawing ----------

  predicate RowsOk(rows: seq<Row>, norm: Fields, aliases: Aliases) {
    forall i :: 0 <= i < |rows| ==> Aligned(rows[i], 0, aliases) && Calm(rows[i], 0, norm, aliases)
  }

  predicate DrawingOk(blocks: seq<seq<Attribute>>, tables: seq<seq<Row>>, norm: Fields, aliases: Aliases) {
    && (forall b, i :: 0 <= b < |blocks| && 0 <= i < |blocks[b]| ==> !Blank(blocks[b][i].name))
    && forall t :: 0 <= t < |tables| ==> RowsOk(tables[t], norm, aliases)
  }

  function RowKeys(rows: seq<Row>, aliases: Aliases): set<string> {
    if rows == [] then {} else RowKeys(rows[..|rows| - 1], aliases) + KeysIn(rows[|rows| - 1], 0, aliases)
  }

  function TableKeys(tables: seq<seq<Row>>, aliases: Aliases): set<string> {
    if tables == [] then {} else TableKeys(tables[..|tables| - 1], aliases) + RowKeys(tables[|tables| - 1], aliases)
  }

  function BlockKeys(block: seq<Attribute>, aliases: Aliases): set<string> {
    if block == [] then {}
    else BlockKeys(block[..|block| - 1], aliases) + {CanonicalKey(block[|block| - 1].name, aliases)}
  }

  function BlocksKeys(blocks: seq<seq<Attribute>>, aliases: Aliases): set<string> {
    if blocks == [] then {} else BlocksKeys(blocks[..|blocks| - 1], aliases) + BlockKeys(blocks[|blocks| - 1], aliases)
  }

  /** The keys a drawing has a place for. */
  function Places(blocks: seq<seq<Attribute>>, tables: seq<seq<Row>>, aliases: Aliases): set<string> {
    BlocksKeys(blocks, aliases) + TableKeys(tables, aliases)
  }

  lemma {:induction false} RowsPutGet(rows: seq<Row>, f: Fields, norm: Fields, places: set<string>, aliases: Aliases)
    requires NormOk(norm) && Placed(f, norm, places) && RowsOk(rows, norm, aliases)
    ensures Placed(ReadRows(rows, f, aliases), norm, places + RowKeys(rows, aliases))
    ensures ReadRows(WriteRows(rows, norm, aliases).now, Overridden(f, norm, places), aliases)
         == Overridden(ReadRows(rows, f, aliases), norm, places + RowKeys(rows, aliases))
  {
    hide CanonicalKey;
    hide WriteRow;
    hide ReadRow;
    hide KeysIn;
    hide Overridden;
    if rows == [] {
      assert places + {} == places;
    } else {
      var n := |rows| - 1;
      RowsPutGet(rows[..n], f, norm, places, aliases);
      assert WriteRows(rows, norm, aliases).now[..n] == WriteRows(rows[..n], norm, aliases).now;
      var more := places + RowKeys(rows[..n], aliases);
      RowPutGet(rows[n], 0, ReadRows(rows[..n], f, aliases), norm, more, aliases);
      assert more + KeysIn(rows[n], 0, aliases) == places + RowKeys(rows, aliases);
    }
  }

  lemma {:induction false} TablesPutGet(tables: seq<seq<Row>>, f: Fields, norm: Fields, places: set<string>, aliases: Aliases)
    requires NormOk(norm) && Placed(f, norm, places)
    requires forall t :: 0 <= t < |tables| ==> RowsOk(tables[t], norm, aliases)
    ensures Placed(ReadTables(tables, f, aliases), norm, places + TableKeys(tables, aliases))
    ensures ReadTables(WriteTables(tables, norm, aliases).now, Overridden(f, norm, places), aliases)
         == Overridden(ReadTables(tables, f, aliases), norm, places + TableKeys(tables, aliases))
  {
    if tables == [] {
      assert places + {} == places;
    } else {
      var n := |tables| - 1;
      TablesPutGet(tables[..n], f, norm, places, aliases);
      assert WriteTables(tables, norm, aliases).now[..n] == WriteTables(tables[..n], norm, aliases).now;
      var more := places + TableKeys(tables[..n], aliases);
      RowsPutGet(tables[n], ReadTables(tables[..n], f, aliases), norm, more, aliases);
      assert more + RowKeys(tables[n], aliases) == places + TableKeys(tables, aliases);
    }
  }

  lemma {:induction false} BlockPutGet(block: seq<Attribute>, f: Fields, norm: Fields, places: set<string>, aliases: Aliases)
    requires NormOk(norm) && Placed(f, norm, places)
    requires forall i :: 0 <= i < |block| ==> !Blank(block[i].name)
    ensures Placed(ReadBlock(block, f, aliases), norm, places + BlockKeys(block, aliases))
    ensures ReadBlock(WriteBlock(block, norm, aliases).now, Overridden(f, norm, places), aliases)
         == Overridden(ReadBlock(block, f, aliases), norm, places + BlockKeys(block, aliases))
  {
    if block == [] {
      assert places + {} == places;
    } else {
      var n := |block| - 1;
      var a := block[n];
      BlockPutGet(block[..n], f, norm, places, aliases);
      assert WriteBlock(block, norm, aliases).now[..n] == WriteBlock(block[..n], norm, aliases).now;
      var g, more := ReadBlock(block[..n], f, aliases), places + BlockKeys(block[..n], aliases);
      if CanonicalKey(a.name, aliases) in norm {
        ReadWritten(g, norm, more, a.name, a.value, aliases);
      } else {
        ReadUnwritten(g, norm, more, a.name, a.value, aliases);
      }
      assert more + {CanonicalKey(a.name, aliases)} == places + BlockKeys(block, aliases);
    }
  }

  lemma {:induction false} BlocksPutGet(blocks: seq<seq<Attribute>>, f: Fields, norm: Fields, places: set<string>, aliases: Aliases)
    requires NormOk(norm) && Placed(f, norm, places)
    requires forall b, i :: 0 <= b < |blocks| && 0 <= i < |blocks[b]| ==> !Blank(blocks[b][i].name)
    ensures Placed(ReadBlocks(blocks, f, aliases), norm, places + BlocksKeys(blocks, aliases))
    ensures ReadBlocks(WriteBlocks(blocks, norm, aliases).now, Overridden(f, norm, places), aliases)
         == Overridden(ReadBlocks(blocks, f, aliases), norm, places + BlocksKeys(blocks, aliases))
  {
    if blocks == [] {
      assert places + {} == places;
    } else {
      var n := |blocks| - 1;
      BlocksPutGet(blocks[..n], f, norm, places, aliases);
      assert WriteBlocks(blocks, norm, aliases).now[..n] == WriteBlocks(blocks[..n], norm, aliases).now;
      var more := places + BlocksKeys(blocks[..n], aliases);
      BlockPutGet(blocks[n], ReadBlocks(blocks[..n], f, aliases), norm, more, aliases);
      assert more + BlockKeys(blocks[n], aliases) == places + BlocksKeys(blocks, aliases);
    }
  }

  /** Put, then get: a drawing into which fields were written reads as before, except that every written
      key the drawing has a place for now has its written value, stripped. */
  lemma PutGet(blocks: seq<seq<Attribute>>, tables: seq<seq<Row>>, norm: Fields, aliases: Aliases)
    requires NormOk(norm) && DrawingOk(blocks, tables, norm, aliases)
    ensures FieldsOf(WriteBlocks(blocks, norm, aliases).now, WriteTables(tables, norm, aliases).now, aliases)
         == Overridden(FieldsOf(blocks, tables, aliases), norm, Places(blocks, tables, aliases))
  {
    var places := BlocksKeys(blocks, aliases);
    BlocksPutGet(blocks, map[], norm, {}, aliases);
    assert Overridden(map[], norm, {}) == map[] && {} + places == places;
    TablesPutGet(tables, ReadBlocks(blocks, map[], aliases), norm, places, aliases);
  }

  /** A label and a plain value cell behind it. */
  predicate LabelAndValue(name: string, value: string, aliases: Aliases) {
    !Blank(name) && !IsPairCell(name) && CanonicalKey(name, aliases) != "" && !Blank(value) && !IsPairCell(value)
  }

  /** Alignment alone is not enough. Where a value cell already holds the written value, the writer takes it for a
      label; if it reads as a written key, the name of the next field is overwritten and that field is lost. */
  lemma EqualValueIsReread(a: string, b: string, c: string, d: string, v: string, norm: Fields, aliases: Aliases)
    requires LabelAndValue(a, b, aliases) && LabelAndValue(b, c, aliases) && LabelAndValue(c, d, aliases)
    requires LabelAndValue(v, d, aliases) && v != c
    requires var ka, kb, kc := CanonicalKey(a, aliases), CanonicalKey(b, aliases), CanonicalKey(c, aliases);
             ka != kb && norm == map[ka := b, kb := v] && kc != ka && kc != kb && CanonicalKey(v, aliases) != kc
    ensures Aligned([a, b, c, d], 0, aliases) && NormOk(norm) && !Calm([a, b, c, d], 0, norm, aliases)
    ensures WriteRow([a, b, c, d], 0, norm, aliases).now == [a, b, v, d]
    ensures CanonicalKey(c, aliases) in ReadRow([a, b, c, d], 0, map[], aliases)
    ensures CanonicalKey(c, aliases) !in ReadRow([a, b, v, d], 0, map[], aliases)
  {
    hide CanonicalKey;
    hide IsPairCell;
    hide Blank;
    var row, now := [a, b, c, d], [a, b, v, d];
    RereadWrite(row, now, v, norm, aliases);
    FourCells(row, map[], aliases);
    FourCells(now, map[], aliases);
    FourCellsAligned(row, aliases);
  }

  lemma FourCellsAligned(row: Row, aliases: Aliases)
    requires |row| == 4 && LabelAndValue(row[0], row[1], aliases) && LabelAndValue(row[2], row[3], aliases)
    ensures Aligned(row, 0, aliases)
  {
    assert Aligned(row, 4, aliases);
    assert Aligned(row, 2, aliases);
  }

  lemma RereadWrite(row: Row, now: Row, v: string, norm: Fields, aliases: Aliases)
    requires |row| == 4 && !IsPairCell(row[0]) && !IsPairCell(row[1]) && !IsPairCell(row[3])
    requires WritesNext(row[0], norm, aliases) && norm[CanonicalKey(row[0], aliases)] == row[1]
    requires WritesNext(row[1], norm, aliases) && norm[CanonicalKey(row[1], aliases)] == v && v != row[2]
    requires now == row[2 := v]
    ensures WriteRow(row, 0, norm, aliases).now == now
  {
    assert WriteRow(now, 3, norm, aliases) == WriteRow(now, 4, norm, aliases) == Rewrite(now, 0);
    assert WriteRow(row, 1, norm, aliases).now == now;
  }

  lemma FourCells(row: Row, f: Fields, aliases: Aliases)
    requires |row| == 4 && LabelAndValue(row[0], row[1], aliases) && LabelAndValue(row[2], row[3], aliases)
    ensures ReadRow(row, 0, f, aliases)
         == f[CanonicalKey(row[0], aliases) := Strip(row[1])][CanonicalKey(row[2], aliases) := Strip(row[3])]
  {
    LabelRead(row, 0, f, aliases);
    LabelRead(row, 2, AddField(f, row[0], row[1], aliases), aliases);
  }

  lemma LetterKey(c: char)
    requires 'a' <= c <= 'z'
    ensures CanonicalKey([c], map[]) == [c] && !Blank([c]) && !IsPairCell([c])
  {
    StripTrimmed([c]);
    WithoutNothing([c], ' ');
    WithoutNothing([c], '\t');
    WithoutNothing([c], ':');
    WithoutNothing([c], '\U{FF1A}');
    assert Replace([c], '-', '_') == [c] && Lower([c]) == [c];
    assert [c][0] == c;
  }

  lemma {:induction false} WithoutNothing(s: string, c: char)
    requires c !in s
    ensures Without(s, c) == s
  {
    if s != "" {
      WithoutNothing(s[1..], c);
    }
  }

  /** A drawing on which the law fails although its only row is aligned. */
  lemma AlignmentIsNotEnough(row: Row, norm: Fields)
    requires row == ["a", "b", "c", "d"] && norm == map["a" := "b", "b" := "v"]
    ensures Aligned(row, 0, map[]) && NormOk(norm)
    ensures "c" in ReadRow(row, 0, map[], map[]) && "c" !in ReadRow(WriteRow(row, 0, norm, map[]).now, 0, map[], map[])
  {
    LetterKey('a');
    LetterKey('b');
    LetterKey('c');
    LetterKey('d');
    LetterKey('v');
    assert "a"[0] != "b"[0] && "b"[0] != "c"[0] && "a"[0] != "c"[0] && "v"[0] != "c"[0];
    EqualValueIsReread("a", "b", "c", "d", "v", norm, map[]);
  }

  /** A row that the second apply changes: the value `b` of field `a` is read as a label of field `b`. */
  lemma SecondApplyExample(norm: Fields)
    requires norm == map["a" := "b", "b" := "v"]
    ensures SecondCount([], [[["a", "", ""]]], norm, map[]) > 0 && !SecondApplyAlwaysIdle(norm, map[])
  {
    LetterKey('a');
    LetterKey('b');
    LetterKey('v');
    assert "a"[0] != "b"[0];
    BusyDrawing("a", norm, map[]);
  }
}
