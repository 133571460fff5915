/** The places a table row has for its fields, and when writing a row touches nothing else. */
module CadPlaces {
  import opened Text
  import opened CadKeys
  import opened CadFields
  import opened CadLaws

  /** From column `col` on, the row is made of blanks, `key=value` cells with a key, and labels with
      a value cell behind them; one label may be left over at the end. */
  predicate Aligned(row: Row, col: nat, aliases: Aliases)
    decreases |row| - col
  {
    || col >= |row|
    || if Blank(row[col]) then Aligned(row, col + 1, aliases)
       else if IsPairCell(row[col]) then !Blank(RawKey(row[col])) && Aligned(row, col + 1, aliases)
       else col + 1 == |row| || (CanonicalKey(row[col], aliases) != "" && Aligned(row, col + 2, aliases))
  }

  /** The row with every place of a written key filled, and every other cell as it was. */
  function OwnPlaces(row: Row, col: nat, norm: Fields, aliases: Aliases): (now: Row)
    ensures |now| == |row|
    decreases |row| - col
  {
    if col >= |row| then row
    else if Blank(row[col]) then OwnPlaces(row, col + 1, norm, aliases)
    else if IsPairCell(row[col]) then
      OwnPlaces(if WritesPair(row[col], norm, aliases) then row[col := NewPair(row[col], norm, aliases)] else row,
                col + 1, norm, aliases)
    else if col + 1 == |row| then row
    else
      var key := CanonicalKey(row[col], aliases);
      OwnPlaces(if key in norm then row[col + 1 := norm[key]] else row, col + 2, norm, aliases)
  }

  lemma {:induction false} OwnLeavesFront(row: Row, col: nat, norm: Fields, aliases: Aliases)
    ensures forall i :: 0 <= i < col && i < |row| ==> OwnPlaces(row, col, norm, aliases)[i] == row[i]
    decreases |row| - col
  {
    hide CanonicalKey;
    hide Blank;
    hide IsPairCell;
    hide NewPair;
    if col < |row| {
      if Blank(row[col]) {
        OwnLeavesFront(row, col + 1, norm, aliases);
      } else if IsPairCell(row[col]) {
        OwnLeavesFront(if WritesPair(row[col], norm, aliases) then row[col := NewPair(row[col], norm, aliases)] else row,
                       col + 1, norm, aliases);
      } else if col + 1 < |row| {
        var key := CanonicalKey(row[col], aliases);
        OwnLeavesFront(if key in norm then row[col + 1 := norm[key]] else row, col + 2, norm, aliases);
      }
    }
  }

  /** What becomes of the first cell of the rest of a row. */
  lemma OwnFirst(row: Row, col: nat, norm: Fields, aliases: Aliases)
    requires col < |row|
    ensures OwnPlaces(row, col, norm, aliases)[col]
         == if WritesPair(row[col], norm, aliases) then NewPair(row[col], norm, aliases) else row[col]
  {
    if Blank(row[col]) {
      OwnLeavesFront(row, col + 1, norm, aliases);
    } else if IsPairCell(row[col]) {
      OwnLeavesFront(if WritesPair(row[col], norm, aliases) then row[col := NewPair(row[col], norm, aliases)] else row,
                     col + 1, norm, aliases);
    } else if col + 1 < |row| {
      var key := CanonicalKey(row[col], aliases);
      OwnLeavesFront(if key in norm then row[col + 1 := norm[key]] else row, col + 2, norm, aliases);
    }
  }

  // ---------- when the writer fills the places and nothing else ----------

  /** The value cell behind the label at `col` gets a new text. */
  predicate Overwrites(row: Row, col: nat, norm: Fields, aliases: Aliases)
    requires col + 1 < |row|
  {
    CanonicalKey(row[col], aliases) in norm && row[col + 1] != norm[CanonicalKey(row[col], aliases)]
  }

  /** The cell at `i`, which keeps its text, sets off no write that shows: it is not read as a written key, or
      there is nothing behind it, or what it would write is there already or is put there anyway. */
  predicate Settled(row: Row, i: nat, norm: Fields, aliases: Aliases)
    requires i < |row|
  {
    || Blank(row[i])
    || if WritesPair(row[i], norm, aliases) then row[i] == NewPair(row[i], norm, aliases)
       else
         || CanonicalKey(row[i], aliases) !in norm
         || i + 1 == |row|
         || row[i + 1] == norm[CanonicalKey(row[i], aliases)]
         || (WritesPair(row[i + 1], norm, aliases)
             && NewPair(row[i + 1], norm, aliases) == norm[CanonicalKey(row[i], aliases)])
  }

  /** Every cell that keeps its text is settled. */
  predicate Calm(row: Row, col: nat, norm: Fields, aliases: Aliases)
    decreases |row| - col
  {
    || col >= |row|
    || if Blank(row[col]) then Calm(row, col + 1, norm, aliases)
       else if IsPairCell(row[col]) then
         && (WritesPair(row[col], norm, aliases) || Settled(row, col, norm, aliases))
         && Calm(row, col + 1, norm, aliases)
       else
         || col + 1 == |row|
         || (&& (Overwrites(row, col, norm, aliases) || Settled(row, col + 1, norm, aliases))
             && Calm(row, col + 2, norm, aliases))
  }

  lemma {:induction false} RestOfRowShape(a: Row, b: Row, col: nat, norm: Fields, aliases: Aliases)
    requires AgreeFrom(a, b, col)
    ensures Aligned(a, col, aliases) == Aligned(b, col, aliases)
    ensures Calm(a, col, norm, aliases) == Calm(b, col, norm, aliases)
    decreases |a| - col
  {
    if col < |a| {
      if Blank(a[col]) || IsPairCell(a[col]) {
        RestOfRowShape(a, b, col + 1, norm, aliases);
      } else if col + 1 < |a| {
        RestOfRowShape(a, b, col + 2, norm, aliases);
      }
    }
  }

  predicate WritesOwn(row: Row, col: nat, norm: Fields, aliases: Aliases) {
    WriteRow(row, col, norm, aliases).now == OwnPlaces(row, col, norm, aliases)
  }

  /** On an aligned row the writer fills the places of the written keys and touches no other cell if and only if
      every cell that keeps its text is settled. */
  lemma {:induction false} WritesOwnPlacesIff(row: Row, col: nat, norm: Fields, aliases: Aliases)
    requires Aligned(row, col, aliases)
    ensures WritesOwn(row, col, norm, aliases) <==> Calm(row, col, norm, aliases)
    decreases |row| - col, 1
  {
    hide CanonicalKey;
    hide Blank;
    hide IsPairCell;
    hide NewPair;
    if col < |row| {
      if Blank(row[col]) {
        WritesOwnPlacesIff(row, col + 1, norm, aliases);
      } else if WritesPair(row[col], norm, aliases) {
        var next := row[col := NewPair(row[col], norm, aliases)];
        RestOfRowShape(row, next, col + 1, norm, aliases);
        WritesOwnPlacesIff(next, col + 1, norm, aliases);
      } else if IsPairCell(row[col]) {
        KeptCell(row, col, norm, aliases);
      } else if col + 1 < |row| {
        LabelCell(row, col, norm, aliases);
      }
    }
  }

  lemma {:induction false} LabelCell(row: Row, col: nat, norm: Fields, aliases: Aliases)
    requires Aligned(row, col, aliases) && col + 1 < |row| && !Blank(row[col]) && !IsPairCell(row[col])
    ensures WritesOwn(row, col, norm, aliases) <==> Calm(row, col, norm, aliases)
    decreases |row| - col, 0
  {
    hide CanonicalKey;
    hide Blank;
    hide IsPairCell;
    hide NewPair;
    if Overwrites(row, col, norm, aliases) {
      var next := row[col + 1 := norm[CanonicalKey(row[col], aliases)]];
      RestOfRowShape(row, next, col + 2, norm, aliases);
      WritesOwnPlacesIff(next, col + 2, norm, aliases);
    } else {
      assert row[col + 1 := row[col + 1]] == row;
      KeptCell(row, col + 1, norm, aliases);
    }
  }

  /** A cell that keeps its text, in front of the next place. */
  lemma {:induction false} KeptCell(row: Row, i: nat, norm: Fields, aliases: Aliases)
    requires i < |row| && Aligned(row, i + 1, aliases)
    ensures WriteRow(row, i, norm, aliases).now == OwnPlaces(row, i + 1, norm, aliases)
       <==> Settled(row, i, norm, aliases) && Calm(row, i + 1, norm, aliases)
    decreases |row| - i, 0
  {
    hide CanonicalKey;
    hide Blank;
    hide IsPairCell;
    hide NewPair;
    WritesOwnPlacesIff(row, i + 1, norm, aliases);
    OwnLeavesFront(row, i + 1, norm, aliases);
    if WritesPair(row[i], norm, aliases) {
      var next := row[i := NewPair(row[i], norm, aliases)];
      ScanLeavesFront(next, i + 1, norm, aliases);
      assert row[i := row[i]] == row;
    } else if WritesNext(row[i], norm, aliases) && i + 1 < |row| && row[i + 1] != norm[CanonicalKey(row[i], aliases)] {
      StrayWrite(row, i, norm, aliases);
    }
  }

  /** A cell that keeps its text and writes the cell behind it. */
  lemma {:induction false} StrayWrite(row: Row, i: nat, norm: Fields, aliases: Aliases)
    requires i + 1 < |row| && Aligned(row, i + 1, aliases)
    requires WritesNext(row[i], norm, aliases) && row[i + 1] != norm[CanonicalKey(row[i], aliases)]
    ensures WriteRow(row, i, norm, aliases).now == OwnPlaces(row, i + 1, norm, aliases)
       <==> Settled(row, i, norm, aliases) && Calm(row, i + 1, norm, aliases)
    decreases |row| - i - 1, 2
  {
    hide CanonicalKey;
    hide Blank;
    hide IsPairCell;
    hide NewPair;
    var value := norm[CanonicalKey(row[i], aliases)];
    var next := row[i + 1 := value];
    OwnFirst(row, i + 1, norm, aliases);
    ScanLeavesFront(next, i + 2, norm, aliases);
    if Settled(row, i, norm, aliases) {
      RestOfRowShape(row, next, i + 2, norm, aliases);
      WritesOwnPlacesIff(next, i + 2, norm, aliases);
    }
  }
}
