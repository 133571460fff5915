/** Laws of writing fields back into a drawing: counting, and when writing again changes nothing. */
module CadLaws {
  import opened Text
  import opened CadKeys
  import opened CadFields

  // ---------- counting ----------

  /** How many cells from column `col` on differ. */
  function Differing(a: Row, b: Row, col: nat): nat
    requires |a| == |b|
    decreases |a| - col
  {
    if col >= |a| then 0 else (if a[col] != b[col] then 1 else 0) + Differing(a, b, col + 1)
  }

  predicate AgreeFrom(a: Row, b: Row, col: nat) {
    |a| == |b| && forall i :: col <= i < |a| ==> a[i] == b[i]
  }

  lemma {:induction false} DifferingAgree(a: Row, a': Row, b: Row, col: nat)
    requires AgreeFrom(a, a', col) && |a| == |b|
    ensures Differing(a, b, col) == Differing(a', b, col)
    decreases |a| - col
  {
    if col < |a| {
      DifferingAgree(a, a', b, col + 1);
    }
  }

  /** The returned count is the number of cells that differ afterwards: no cell is written twice,
      and none is counted without changing. */
  lemma {:induction false} CountIsDifferingCells(row: Row, col: nat, norm: Fields, aliases: Aliases)
    ensures var r := WriteRow(row, col, norm, aliases); r.updated == Differing(row, r.now, col)
    decreases |row| - col
  {
    var r := WriteRow(row, col, norm, aliases);
    if col < |row| {
      if WritesPair(row[col], norm, aliases) {
        var next := row[col := NewPair(row[col], norm, aliases)];
        CountIsDifferingCells(next, col + 1, norm, aliases);
        ScanLeavesFront(next, col + 1, norm, aliases);
        DifferingAgree(row, next, r.now, col + 1);
      } else if WritesNext(row[col], norm, aliases) && col + 1 < |row|
          && row[col + 1] != norm[CanonicalKey(row[col], aliases)] {
        var next := row[col + 1 := norm[CanonicalKey(row[col], aliases)]];
        CountIsDifferingCells(next, col + 2, norm, aliases);
        ScanLeavesFront(next, col + 2, norm, aliases);
        DifferingAgree(row, next, r.now, col + 2);
      } else {
        CountIsDifferingCells(row, col + 1, norm, aliases);
        ScanLeavesFront(row, col + 1, norm, aliases);
      }
    }
  }

  /** Why a scan from column `col` may change cell `i`: it is `key=value` for a written key, or it
      follows a label of a written key that itself stays as it is. */
  predicate Justified(row: Row, now: Row, col: nat, i: nat, norm: Fields, aliases: Aliases)
    requires i < |row| == |now|
  {
    && i >= col
    && ((WritesPair(row[i], norm, aliases) && now[i] == NewPair(row[i], norm, aliases))
        || (i > col && now[i - 1] == row[i - 1] && WritesNext(row[i - 1], norm, aliases)
            && now[i] == norm[CanonicalKey(row[i - 1], aliases)]))
  }

  lemma {:induction false} OnlyJustifiedChanges(row: Row, col: nat, norm: Fields, aliases: Aliases)
    ensures var now := WriteRow(row, col, norm, aliases).now;
            forall i :: 0 <= i < |row| && now[i] != row[i] ==> Justified(row, now, col, i, norm, aliases)
    decreases |row| - col
  {
    hide CanonicalKey;
    hide Blank;
    hide IsPairCell;
    hide NewPair;
    var now := WriteRow(row, col, norm, aliases).now;
    if col < |row| {
      ScanLeavesFront(row, col, norm, aliases);
      if WritesPair(row[col], norm, aliases) {
        var next := row[col := NewPair(row[col], norm, aliases)];
        OnlyJustifiedChanges(next, col + 1, norm, aliases);
        ScanLeavesFront(next, col + 1, norm, aliases);
        forall i | 0 <= i < |row| && now[i] != row[i] ensures Justified(row, now, col, i, norm, aliases) {
          assert i > col ==> now[i] != next[i] && Justified(next, now, col + 1, i, norm, aliases);
        }
      } else if WritesNext(row[col], norm, aliases) && col + 1 < |row|
          && row[col + 1] != norm[CanonicalKey(row[col], aliases)] {
        var next := row[col + 1 := norm[CanonicalKey(row[col], aliases)]];
        OnlyJustifiedChanges(next, col + 2, norm, aliases);
        ScanLeavesFront(next, col + 2, norm, aliases);
        forall i | 0 <= i < |row| && now[i] != row[i] ensures Justified(row, now, col, i, norm, aliases) {
          assert i > col + 1 ==> now[i] != next[i] && Justified(next, now, col + 2, i, norm, aliases);
        }
      } else {
        OnlyJustifiedChanges(row, col + 1, norm, aliases);
        forall i | 0 <= i < |row| && now[i] != row[i] ensures Justified(row, now, col, i, norm, aliases) {
          assert Justified(row, now, col + 1, i, norm, aliases);
        }
      }
    }
  }

  // ---------- cells that stay what they are ----------

  /** A rewritten pair cell has the same key and the new value. */
  lemma PairStaysPair(cell: string, norm: Fields, aliases: Aliases)
    requires WritesPair(cell, norm, aliases)
    ensures var now := NewPair(cell, norm, aliases);
            && WritesPair(now, norm, aliases) && RawKey(now) == RawKey(cell)
            && PairValue(now) == norm[CanonicalKey(RawKey(cell), aliases)] && NewPair(now, norm, aliases) == now
  {
    var raw := RawKey(cell);
    var now := NewPair(cell, norm, aliases);
    assert now[|raw|] == '=';
    assert IndexOf(now, '=') == |raw| by {
      FirstAt(raw, norm[CanonicalKey(raw, aliases)]);
    }
    assert now[..|raw|] == raw && now[|raw| + 1..] == norm[CanonicalKey(raw, aliases)];
    NotBlank(now, |raw|);
  }

  lemma {:induction false} FirstAt(raw: string, value: string)
    requires '=' !in raw
    ensures IndexOf(raw + "=" + value, '=') == |raw|
  {
    if raw != "" {
      assert (raw + "=" + value)[1..] == raw[1..] + "=" + value;
      FirstAt(raw[1..], value);
    }
  }

  lemma NotBlank(s: string, k: nat)
    requires k < |s| && !IsSpace(s[k])
    ensures !Blank(s)
  {
  }

  /** A cell the writer passes over without effect. */
  predicate Inert(cell: string, norm: Fields, aliases: Aliases) {
    || Blank(cell)
    || if WritesPair(cell, norm, aliases) then cell == NewPair(cell, norm, aliases)
       else CanonicalKey(cell, aliases) !in norm
  }

  lemma InertSkip(row: Row, col: nat, norm: Fields, aliases: Aliases)
    requires col < |row| && Inert(row[col], norm, aliases)
    ensures WriteRow(row, col, norm, aliases) == WriteRow(row, col + 1, norm, aliases)
  {
    assert row[col := row[col]] == row;
  }

  // ---------- writing twice ----------

  /** No value that can be written behind a label is itself read as a written key. */
  ghost predicate ValuesInert(norm: Fields, aliases: Aliases) {
    forall cell: string :: WritesNext(cell, norm, aliases) ==> Inert(norm[CanonicalKey(cell, aliases)], norm, aliases)
  }

  /** Then a second pass over a row changes nothing. */
  lemma {:induction false} SecondPassIdle(row: Row, col: nat, norm: Fields, aliases: Aliases)
    requires ValuesInert(norm, aliases)
    ensures var now := WriteRow(row, col, norm, aliases).now;
            WriteRow(now, col, norm, aliases) == Rewrite(now, 0)
    decreases |row| - col
  {
    if col < |row| {
      var now := WriteRow(row, col, norm, aliases).now;
      if WritesPair(row[col], norm, aliases) {
        var next := row[col := NewPair(row[col], norm, aliases)];
        SecondPassIdle(next, col + 1, norm, aliases);
        ScanLeavesFront(next, col + 1, norm, aliases);
        PairStaysPair(row[col], norm, aliases);
        InertSkip(now, col, norm, aliases);
      } else if WritesNext(row[col], norm, aliases) && col + 1 < |row|
          && row[col + 1] != norm[CanonicalKey(row[col], aliases)] {
        var value := norm[CanonicalKey(row[col], aliases)];
        SecondPassIdle(row[col + 1 := value], col + 2, norm, aliases);
        ScanLeavesFront(row[col + 1 := value], col + 2, norm, aliases);
        assert now[col] == row[col] && now[col + 1] == value;
        InertSkip(now, col + 1, norm, aliases);
      } else {
        SecondPassIdle(row, col + 1, norm, aliases);
        ScanLeavesFront(row, col + 1, norm, aliases);
        assert now[col] == row[col];
        if WritesNext(row[col], norm, aliases) && col + 1 < |row| {
          assert now[col + 1] == row[col + 1] by {
            InertSkip(row, col + 1, norm, aliases);
            ScanLeavesFront(row, col + 2, norm, aliases);
          }
        }
      }
    }
  }

  /** And otherwise there is a row that is changed again: a label whose value is not inert, in front of blanks. */
  lemma SecondPassBusy(name: string, norm: Fields, aliases: Aliases)
    requires NormOk(norm) && WritesNext(name, norm, aliases)
    requires !Inert(norm[CanonicalKey(name, aliases)], norm, aliases)
    ensures var now := WriteRow([name, "", ""], 0, norm, aliases).now;
            WriteRow(now, 0, norm, aliases).updated > 0
  {
    var value := norm[CanonicalKey(name, aliases)];
    var row := [name, "", ""];
    var mid := [name, value, ""];
    assert Blank("");
    assert row[1 := value] == mid;
    assert WriteRow(mid, 2, norm, aliases) == WriteRow(mid, 3, norm, aliases) == Rewrite(mid, 0);
    assert WriteRow(row, 0, norm, aliases).now == mid;
    assert WriteRow(mid, 0, norm, aliases) == WriteRow(mid, 1, norm, aliases);
    if WritesPair(value, norm, aliases) {
      assert WriteRow(mid, 1, norm, aliases).updated >= 1;
    } else {
      assert norm[CanonicalKey(value, aliases)] != "";
      assert WriteRow(mid, 1, norm, aliases).updated >= 1;
    }
  }

  lemma {:induction false} SumZeros(ns: seq<nat>)
    requires forall i :: 0 <= i < |ns| ==> ns[i] == 0
    ensures Sum(ns) == 0
  {
    if ns != [] {
      SumZeros(ns[..|ns| - 1]);
    }
  }

  lemma RowsSecondPass(rows: seq<Row>, norm: Fields, aliases: Aliases)
    requires ValuesInert(norm, aliases)
    ensures var now := WriteRows(rows, norm, aliases).now; WriteRows(now, norm, aliases) == Rewrite(now, 0)
  {
    var now := WriteRows(rows, norm, aliases).now;
    forall i | 0 <= i < |rows| ensures WriteRow(now[i], 0, norm, aliases) == Rewrite(now[i], 0) {
      SecondPassIdle(rows[i], 0, norm, aliases);
    }
    SumZeros(RowUpdates(now, norm, aliases));
    assert WriteRows(now, norm, aliases).now == now;
  }

  lemma BlockSecondPass(block: seq<Attribute>, norm: Fields, aliases: Aliases)
    ensures var now := WriteBlock(block, norm, aliases).now; WriteBlock(now, norm, aliases) == Rewrite(now, 0)
  {
    var now := WriteBlock(block, norm, aliases).now;
    SumZeros(AttributeUpdates(now, norm, aliases));
    assert WriteBlock(now, norm, aliases).now == now;
  }

  /** Applying the same fields to a whole drawing a second time changes nothing and reports 0. */
  lemma SecondApplyIdle(blocks: seq<seq<Attribute>>, tables: seq<seq<Row>>, norm: Fields, aliases: Aliases)
    requires ValuesInert(norm, aliases)
    ensures var b, t := WriteBlocks(blocks, norm, aliases).now, WriteTables(tables, norm, aliases).now;
            WriteBlocks(b, norm, aliases) == Rewrite(b, 0) && WriteTables(t, norm, aliases) == Rewrite(t, 0)
  {
    var b, t := WriteBlocks(blocks, norm, aliases).now, WriteTables(tables, norm, aliases).now;
    forall i | 0 <= i < |b| ensures WriteBlock(b[i], norm, aliases) == Rewrite(b[i], 0) {
      BlockSecondPass(blocks[i], norm, aliases);
    }
    forall i | 0 <= i < |t| ensures WriteRows(t[i], norm, aliases) == Rewrite(t[i], 0) {
      RowsSecondPass(tables[i], norm, aliases);
    }
    SumZeros(BlockUpdates(b, norm, aliases));
    SumZeros(TableUpdates(t, norm, aliases));
    assert WriteBlocks(b, norm, aliases).now == b && WriteTables(t, norm, aliases).now == t;
  }

  // ---------- exactly when the second apply is idle ----------

  /** How many places a second apply of the same fields changes. */
  function SecondCount(blocks: seq<seq<Attribute>>, tables: seq<seq<Row>>, norm: Fields, aliases: Aliases): nat {
    WriteBlocks(WriteBlocks(blocks, norm, aliases).now, norm, aliases).updated
    + WriteTables(WriteTables(tables, norm, aliases).now, norm, aliases).updated
  }

  /** Whatever the drawing, the second apply changes nothing. */
  ghost predicate SecondApplyAlwaysIdle(norm: Fields, aliases: Aliases) {
    forall blocks: seq<seq<Attribute>>, tables: seq<seq<Row>> :: SecondCount(blocks, tables, norm, aliases) == 0
  }

  lemma OneRowTable(row: Row, norm: Fields, aliases: Aliases)
    ensures WriteTables([[row]], norm, aliases) == Rewrite([[WriteRow(row, 0, norm, aliases).now]], WriteRow(row, 0, norm, aliases).updated)
  {
    var u := WriteRow(row, 0, norm, aliases).updated;
    assert [u][..0] == [];
    assert RowUpdates([row], norm, aliases) == [u] && Sum([u]) == u;
    assert WriteRows([row], norm, aliases).now == [WriteRow(row, 0, norm, aliases).now];
    assert TableUpdates([[row]], norm, aliases) == [u];
    assert WriteTables([[row]], norm, aliases).now == [WriteRows([row], norm, aliases).now];
  }

  /** A label whose value is not inert gives a drawing of one row that the second apply changes. */
  lemma BusyDrawing(name: string, norm: Fields, aliases: Aliases)
    requires NormOk(norm) && WritesNext(name, norm, aliases)
    requires !Inert(norm[CanonicalKey(name, aliases)], norm, aliases)
    ensures SecondCount([], [[[name, "", ""]]], norm, aliases) > 0
  {
    var row := [name, "", ""];
    SecondPassBusy(name, norm, aliases);
    OneRowTable(row, norm, aliases);
    OneRowTable(WriteRow(row, 0, norm, aliases).now, norm, aliases);
  }

  /** Applying the same fields twice is always idle the second time if and only if no value that can be written
      behind a label is itself read as a written key. */
  lemma SecondApplyIdleIff(norm: Fields, aliases: Aliases)
    requires NormOk(norm)
    ensures SecondApplyAlwaysIdle(norm, aliases) <==> ValuesInert(norm, aliases)
  {
    hide Inert;
    hide WriteTables;
    hide WriteBlocks;
    if ValuesInert(norm, aliases) {
      forall blocks, tables ensures SecondCount(blocks, tables, norm, aliases) == 0 {
        SecondApplyIdle(blocks, tables, norm, aliases);
      }
    } else {
      var name: string :| WritesNext(name, norm, aliases) && !Inert(norm[CanonicalKey(name, aliases)], norm, aliases);
      BusyDrawing(name, norm, aliases);
      assert SecondCount([], [[[name, "", ""]]], norm, aliases) != 0;
    }
  }

  /** A field name that is itself a label: not blank, and without `=`. */
  predicate PlainName(name: string) {
    !Blank(name) && '=' !in name
  }

  lemma {:induction false} KeysAreGiven(given: seq<Attribute>, aliases: Aliases, k: string)
    requires k in Normalized(given, aliases)
    ensures exists i :: 0 <= i < |given| && CanonicalKey(given[i].name, aliases) == k
  {
    var n := |given| - 1;
    if CanonicalKey(given[n].name, aliases) != k {
      KeysAreGiven(given[..n], aliases, k);
      var i :| 0 <= i < n && CanonicalKey(given[..n][i].name, aliases) == k;
      assert CanonicalKey(given[i].name, aliases) == k;
    }
  }

  /** For plain field names the condition is a test of the values to be written. */
  lemma PlainNamesIdleIff(given: seq<Attribute>, aliases: Aliases)
    requires forall i :: 0 <= i < |given| ==> PlainName(given[i].name)
    ensures var norm := Normalized(given, aliases);
            SecondApplyAlwaysIdle(norm, aliases) <==> forall k :: k in norm ==> Inert(norm[k], norm, aliases)
  {
    hide Inert;
    hide SecondApplyAlwaysIdle;
    var norm := Normalized(given, aliases);
    SecondApplyIdleIff(norm, aliases);
    forall k | k in norm ensures exists cell: string :: WritesNext(cell, norm, aliases) && CanonicalKey(cell, aliases) == k {
      KeysAreGiven(given, aliases, k);
      var i :| 0 <= i < |given| && CanonicalKey(given[i].name, aliases) == k;
      assert WritesNext(given[i].name, norm, aliases);
    }
  }

  /** The count over a table is the number of its cells that differ afterwards. */
  lemma TableCountIsDifferingCells(rows: seq<Row>, norm: Fields, aliases: Aliases)
    ensures var r := WriteRows(rows, norm, aliases);
            r.updated == Sum(seq(|rows|, i requires 0 <= i < |rows| => Differing(rows[i], r.now[i], 0)))
  {
    var r := WriteRows(rows, norm, aliases);
    var cells := seq(|rows|, i requires 0 <= i < |rows| => Differing(rows[i], r.now[i], 0));
    forall i | 0 <= i < |rows| ensures RowUpdates(rows, norm, aliases)[i] == cells[i] {
      CountIsDifferingCells(rows[i], 0, norm, aliases);
    }
    assert RowUpdates(rows, norm, aliases) == cells;
  }
}
