/** Backfilling breakage incidents: every incident without a code gets the next free `BRK-` number. */
module BreakageCodes {
  import opened Options
  import opened Text
  import opened Digits

  /** The columns the backfill reads or writes; `""` stands for NULL. */
  datatype Incident = Incident(id: string, code: string, versionId: string, productionOrderId: string,
                               mbomId: string, routingId: string)

  const PREFIX := "BRK-"

  /** How codes are compared: trimmed and in upper case. */
  function Plain(code: string): string {
    Upper(Strip(code))
  }

  /** The number in a code of the allocator's form. */
  function Sequence(code: string): Option<nat> {
    var plain := Plain(code);
    if |plain| > |PREFIX| && plain[..|PREFIX|] == PREFIX && AllDigits(plain[|PREFIX|..])
    then Some(Value(plain[|PREFIX|..])) else None
  }

  function Code(n: nat): string {
    PREFIX + Padded(n, 6)
  }

  /** The highest number in use. */
  function MaxSequence(rows: seq<Incident>): nat {
    if rows == [] then 0
    else
      var rest, last := MaxSequence(rows[..|rows| - 1]), Sequence(rows[|rows| - 1].code);
      if last.Some? && last.value > rest then last.value else rest
  }

  function BlankCodes(rows: seq<Incident>): nat {
    if rows == [] then 0
    else BlankCodes(rows[..|rows| - 1]) + if Blank(rows[|rows| - 1].code) then 1 else 0
  }

  /** One row after the backfill, if `n` is the number its code would get. */
  function Filled(r: Incident, n: nat): Incident {
    Incident(r.id, if Blank(r.code) then Code(n) else r.code, r.versionId, r.productionOrderId,
             if Blank(r.mbomId) && !Blank(r.versionId) then Strip(r.versionId) else r.mbomId,
             if Blank(r.routingId) && !Blank(r.productionOrderId) then Strip(r.productionOrderId) else r.routingId)
  }

  /** The number row `i` gets, if its code is blank and numbering starts above `base`. */
  function NumberFrom(base: nat, rows: seq<Incident>, i: nat): nat
    requires i < |rows|
  {
    base + BlankCodes(rows[..i + 1])
  }

  function NumberAt(rows: seq<Incident>, i: nat): nat
    requires i < |rows|
  {
    NumberFrom(MaxSequence(rows), rows, i)
  }

  /** The rows with their blank codes numbered in row order. */
  function FilledFrom(base: nat, rows: seq<Incident>): seq<Incident> {
    seq(|rows|, i requires 0 <= i < |rows| => Filled(rows[i], NumberFrom(base, rows, i)))
  }

  /** All rows after the backfill: numbering starts above the highest number in use. */
  function Backfilled(rows: seq<Incident>): seq<Incident> {
    FilledFrom(MaxSequence(rows), rows)
  }

  /** The incident table, in the order the migration reads it. */
  class IncidentTable {
    var rows: seq<Incident>

    constructor (rows: seq<Incident>)
      ensures this.rows == rows
    {
      this.rows := rows;
    }

    method Backfill()
      modifies this
      ensures rows == Backfilled(old(rows))
      ensures |rows| == |old(rows)| && forall i :: 0 <= i < |rows| ==> ColumnsFilled(old(rows)[i], rows[i])
    {
      var maxSequence := HighestSequence(rows);
      UpdateRows(maxSequence);
    }

    /** The second pass. */
    method UpdateRows(base: nat)
      modifies this
      ensures rows == FilledFrom(base, old(rows))
    {
      hide Filled;
      var read := rows;
      var maxSequence := base;
      for i := 0 to |read|
        invariant |rows| == |read|
        invariant maxSequence == base + BlankCodes(read[..i])
        invariant forall j :: 0 <= j < i ==> rows[j] == Filled(read[j], NumberFrom(base, read, j))
        invariant forall j :: i <= j < |read| ==> rows[j] == read[j]
      {
        BlankCodesOneMore(read, i);
        var now: Incident;
        now, maxSequence := FillRow(read[i], maxSequence);
        if now != read[i] {
          rows := rows[i := now];
        }
      }
    }
  }

  /** The first pass: the highest number in use. */
  method HighestSequence(read: seq<Incident>) returns (maxSequence: nat)
    ensures maxSequence == MaxSequence(read)
  {
    maxSequence := 0;
    for i := 0 to |read|
      invariant maxSequence == MaxSequence(read[..i])
    {
      assert read[..i + 1][..i] == read[..i];
      var number := Sequence(read[i].code);
      if number.Some? {
        maxSequence := if number.value > maxSequence then number.value else maxSequence;
      }
    }
    assert read[..|read|] == read;
  }

  /** The updates of one row, and the highest number in use after them. */
  method FillRow(row: Incident, maxSequence: nat) returns (now: Incident, next: nat)
    ensures next == maxSequence + if Blank(row.code) then 1 else 0
    ensures now == Filled(row, next)
  {
    now, next := row, maxSequence;
    if Blank(row.mbomId) && !Blank(row.versionId) {
      now := now.(mbomId := Strip(row.versionId));
    }
    if Blank(row.routingId) && !Blank(row.productionOrderId) {
      now := now.(routingId := Strip(row.productionOrderId));
    }
    if Blank(row.code) {
      next := next + 1;
      now := now.(code := Code(next));
    }
  }

  lemma BlankCodesOneMore(rows: seq<Incident>, i: nat)
    requires i < |rows|
    ensures BlankCodes(rows[..i + 1]) == BlankCodes(rows[..i]) + if Blank(rows[i].code) then 1 else 0
  {
    assert rows[..i + 1][..i] == rows[..i];
  }

  // ---------- codes never collide ----------

  lemma UpperFixed(s: string)
    requires forall k :: 0 <= k < |s| ==> !('a' <= s[k] <= 'z')
    ensures Upper(s) == s
  {
  }

  lemma CodeShape(n: nat)
    ensures var c := Code(n);
            && |c| > 4 && c[..4] == PREFIX && c[4..] == Padded(n, 6)
            && c[0] == 'B' && IsDigit(c[|c| - 1]) && forall k :: 0 <= k < |c| ==> !('a' <= c[k] <= 'z')
  {
    var c, digits := Code(n), Padded(n, 6);
    assert c[|c| - 1] == digits[|digits| - 1];
    forall k | 0 <= k < |c| ensures !('a' <= c[k] <= 'z') {
      if k >= 4 {
        assert c[k] == digits[k - 4];
      }
    }
  }

  /** A new code is already trimmed and in upper case, and carries its number at any width. */
  lemma CodePlain(n: nat)
    ensures Plain(Code(n)) == Code(n) && Sequence(Code(n)) == Some(n) && !Blank(Code(n))
  {
    CodeShape(n);
    StripTrimmed(Code(n));
    UpperFixed(Code(n));
    ValuePadded(n, 6);
  }

  lemma {:induction false} MaxCovers(rows: seq<Incident>, i: nat)
    requires i < |rows|
    ensures Sequence(rows[i].code).Some? ==> Sequence(rows[i].code).value <= MaxSequence(rows)
  {
    if i < |rows| - 1 {
      MaxCovers(rows[..|rows| - 1], i);
    }
  }

  lemma {:induction false} BlankCodesGrow(rows: seq<Incident>, i: nat, j: nat)
    requires i <= j <= |rows|
    ensures BlankCodes(rows[..i]) <= BlankCodes(rows[..j])
  {
    if i < j {
      BlankCodesGrow(rows, i, j - 1);
      assert rows[..j][..j - 1] == rows[..j - 1];
    }
  }

  /** Later new codes have higher numbers. */
  lemma NumbersAscend(rows: seq<Incident>, i: nat, j: nat)
    requires i < j < |rows| && Blank(rows[j].code)
    ensures NumberAt(rows, i) < NumberAt(rows, j)
  {
    BlankCodesGrow(rows, i + 1, j);
    BlankCodesOneMore(rows, j);
  }

  lemma NumberAboveMax(rows: seq<Incident>, i: nat)
    requires i < |rows| && Blank(rows[i].code)
    ensures NumberAt(rows, i) > MaxSequence(rows)
  {
    BlankCodesOneMore(rows, i);
  }

  lemma NewCodeIsOnlyOne(rows: seq<Incident>, i: nat, j: nat)
    requires i < |rows| && j < |rows| && i != j && Blank(rows[i].code)
    ensures Plain(Code(NumberAt(rows, i))) != Plain(if Blank(rows[j].code) then Code(NumberAt(rows, j)) else rows[j].code)
  {
    var n, m := NumberAt(rows, i), NumberAt(rows, j);
    CodePlain(n);
    if Blank(rows[j].code) {
      CodePlain(m);
      assert n != m by {
        if i < j {
          NumbersAscend(rows, i, j);
        } else {
          NumbersAscend(rows, j, i);
        }
      }
    } else {
      NumberAboveMax(rows, i);
      MaxCovers(rows, j);
      SamePlainSameNumber(Code(n), rows[j].code);
    }
  }

  lemma SamePlainSameNumber(a: string, b: string)
    ensures Plain(a) == Plain(b) ==> Sequence(a) == Sequence(b)
  {
  }

  /** One code written two ways: blanks around it and case aside. */
  predicate SameCode(a: string, b: string) {
    Upper(Strip(a)) == Upper(Strip(b))
  }

  /** Afterwards every incident has a code; old codes are kept; and a new code differs from every other
      code in the table, even trimmed and ignoring case, for any number of rows. */
  lemma CodesNeverCollide(rows: seq<Incident>)
    ensures var now := Backfilled(rows);
            && (forall i :: 0 <= i < |rows| ==> !Blank(now[i].code))
            && (forall i :: 0 <= i < |rows| && !Blank(rows[i].code) ==> now[i].code == rows[i].code)
            && (forall i, j :: 0 <= i < |rows| && 0 <= j < |rows| && i != j && Blank(rows[i].code)
                  ==> !SameCode(now[i].code, now[j].code))
  {
    var now := Backfilled(rows);
    forall i | 0 <= i < |rows| ensures !Blank(now[i].code) {
      CodePlain(NumberAt(rows, i));
    }
    forall i, j | 0 <= i < |rows| && 0 <= j < |rows| && i != j && Blank(rows[i].code)
      ensures !SameCode(now[i].code, now[j].code) {
      NewCodeIsOnlyOne(rows, i, j);
    }
  }

  /** A code with a number: `BRK-` in any case, then digits, with blanks around it all. */
  ghost predicate Numbered(code: string, digits: string) {
    digits != "" && AllDigits(digits) && Upper(Strip(code)) == "BRK-" + digits
  }

  /** The first rows without a code. */
  ghost function BlankUpTo(rows: seq<Incident>, n: nat): set<int>
    requires n <= |rows|
  {
    set j: int | 0 <= j < n && Blank(rows[j].code)
  }

  /** The new codes are `BRK-` and at least six digits; they count up by one in row order from just above the highest
      number that any code has. */
  lemma NewCodesCountUp(rows: seq<Incident>, i: nat)
    requires i < |rows| && Blank(rows[i].code)
    ensures var code := Backfilled(rows)[i].code;
            && code[..4] == "BRK-" && |code| >= 10 && AllDigits(code[4..])
            && Value(code[4..]) == MaxSequence(rows) + |BlankUpTo(rows, i + 1)|
    ensures forall j, digits :: 0 <= j < |rows| && Numbered(rows[j].code, digits) ==> Value(digits) <= MaxSequence(rows)
    ensures MaxSequence(rows) > 0 ==>
              exists j, digits :: 0 <= j < |rows| && Numbered(rows[j].code, digits) && Value(digits) == MaxSequence(rows)
  {
    var n := NumberAt(rows, i);
    CodeShape(n);
    ValuePadded(n, 6);
    BlanksCounted(rows, i + 1);
    forall j, digits | 0 <= j < |rows| && Numbered(rows[j].code, digits) ensures Value(digits) <= MaxSequence(rows) {
      NumberedIff(rows[j].code, digits);
      MaxCovers(rows, j);
    }
    if MaxSequence(rows) > 0 {
      MaxIsUsed(rows);
    }
  }

  lemma NumberedIff(code: string, digits: string)
    requires Numbered(code, digits)
    ensures Sequence(code) == Some(Value(digits))
  {
    var plain := Plain(code);
    assert plain[..|PREFIX|] == PREFIX && plain[|PREFIX|..] == digits;
  }

  lemma {:induction false} MaxIsUsed(rows: seq<Incident>)
    requires MaxSequence(rows) > 0
    ensures exists j, digits :: 0 <= j < |rows| && Numbered(rows[j].code, digits) && Value(digits) == MaxSequence(rows)
  {
    var n := |rows| - 1;
    var last := Sequence(rows[n].code);
    if last.Some? && last.value > MaxSequence(rows[..n]) {
      var plain := Plain(rows[n].code);
      var digits := plain[|PREFIX|..];
      assert plain == "BRK-" + digits;
      assert Numbered(rows[n].code, digits) && Value(digits) == MaxSequence(rows);
    } else {
      MaxIsUsed(rows[..n]);
      var j, digits :| 0 <= j < n && Numbered(rows[..n][j].code, digits) && Value(digits) == MaxSequence(rows[..n]);
      assert Numbered(rows[j].code, digits);
    }
  }

  lemma {:induction false} BlanksCounted(rows: seq<Incident>, n: nat)
    requires n <= |rows|
    ensures BlankCodes(rows[..n]) == |BlankUpTo(rows, n)|
  {
    hide Blank;
    if n == 0 {
      assert BlankUpTo(rows, n) == {};
    } else {
      BlanksCounted(rows, n - 1);
      BlankCodesOneMore(rows, n - 1);
      OneMoreBlank(rows, n - 1);
      hide BlankUpTo;
    }
  }

  lemma OneMoreBlank(rows: seq<Incident>, n: nat)
    requires n < |rows|
    ensures |BlankUpTo(rows, n + 1)| == |BlankUpTo(rows, n)| + if Blank(rows[n].code) then 1 else 0
  {
    hide Blank;
    assert BlankUpTo(rows, n + 1) == BlankUpTo(rows, n) + if Blank(rows[n].code) then {n} else {};
  }

  /** The other columns: blank BOM and routing ids are filled from the version and the production order, trimmed. */
  predicate ColumnsFilled(before: Incident, after: Incident) {
    && after.id == before.id && after.versionId == before.versionId && after.productionOrderId == before.productionOrderId
    && after.mbomId == (if !Blank(before.mbomId) || Blank(before.versionId) then before.mbomId else Strip(before.versionId))
    && after.routingId == (if !Blank(before.routingId) || Blank(before.productionOrderId) then before.routingId
                           else Strip(before.productionOrderId))
  }

  /** Running the backfill again changes nothing. */
  lemma BackfillIdempotent(rows: seq<Incident>)
    ensures Backfilled(Backfilled(rows)) == Backfilled(rows)
  {
    var now := Backfilled(rows);
    CodesNeverCollide(rows);
    forall i | 0 <= i < |rows| ensures Backfilled(now)[i] == now[i] {
      StripTwice(rows[i].versionId);
      StripTwice(rows[i].productionOrderId);
    }
  }

  lemma StripTwice(s: string)
    ensures Strip(Strip(s)) == Strip(s)
  {
    var f, b := StripShape(s);
    StripTrimmed(Strip(s));
  }
}
