/** Durations as text: milliseconds with one decimal below a second, seconds with three from there on. */
module Duration {
  import opened Options
  import opened Text
  import opened Digits

  /** The nearest whole number, ties to even. */
  function Round(x: real): (n: nat)
    requires x >= 0.0
    ensures -0.5 <= n as real - x <= 0.5
    ensures n as real - x == 0.5 || x - n as real == 0.5 ==> n % 2 == 0
  {
    var f := x.Floor;
    var frac := x - f as real;
    if frac < 0.5 then f else if frac > 0.5 then f + 1 else if f % 2 == 0 then f else f + 1
  }

  lemma RoundMonotone(x: real, y: real)
    requires 0.0 <= x <= y
    ensures Round(x) <= Round(y)
  {
  }

  /** `n` tenths or thousandths, with the decimal point put in. */
  function Decimal(n: nat, scale: nat, places: nat): string
    requires scale > 0
  {
    Show(n / scale) + "." + Padded(n % scale, places)
  }

  function FormatDuration(seconds: real): string
    requires seconds >= 0.0
  {
    if seconds < 1.0 then Decimal(Round(seconds * 10000.0), 10, 1) + "ms"
    else Decimal(Round(seconds * 1000.0), 1000, 3) + "s"
  }

  // ---------- reading ----------

  /** The position behind the digits that start at `i`. */
  function DigitRun(s: string, i: nat): (j: nat)
    requires i <= |s|
    ensures i <= j <= |s| && AllDigits(s[i..j]) && (j < |s| ==> !IsDigit(s[j]))
    decreases |s| - i
  {
    if i < |s| && IsDigit(s[i]) then
      var j := DigitRun(s, i + 1);
      assert s[i..j] == [s[i]] + s[i + 1..j];
      j
    else i
  }

  function Pow10(n: nat): nat {
    if n == 0 then 1 else 10 * Pow10(n - 1)
  }

  lemma {:induction false} Pow10Positive(n: nat)
    ensures Pow10(n) > 0
  {
    if n > 0 {
      Pow10Positive(n - 1);
    }
  }

  function Fraction(s: string): real
    requires AllDigits(s)
  {
    Pow10Positive(|s|);
    Value(s) as real / Pow10(|s|) as real
  }

  /** Digits, an optional fraction, and a unit, with blanks around any of them; anything else is no duration. */
  function ParseDuration(text: string): (r: Option<real>)
    ensures r.Some? ==> r.value >= 0.0
  {
    var s := Strip(text);
    var n := DigitRun(s, 0);
    if n == 0 then None
    else
      var m := if n < |s| && s[n] == '.' && DigitRun(s, n + 1) > n + 1 then DigitRun(s, n + 1) else n;
      var fraction := if m > n then Fraction(s[n + 1..m]) else 0.0;
      var value := Value(s[..n]) as real + fraction;
      var unit := Lower(Strip(s[m..]));
      FractionNonNegative(s, n, m);
      if unit == "ms" then Some(value / 1000.0) else if unit == "s" then Some(value) else None
  }

  lemma FractionNonNegative(s: string, n: nat, m: nat)
    requires n <= m <= |s| && (m > n ==> AllDigits(s[n + 1..m]))
    ensures m > n ==> Fraction(s[n + 1..m]) >= 0.0
  {
    if m > n {
      Pow10Positive(m - n - 1);
    }
  }

  // ---------- exactly which texts are read ----------

  /** The pieces of a duration text; `part` is the fraction's digits, if there is a point. */
  datatype Pieces = Pieces(front: string, whole: string, part: Option<string>, gap: string, unit: string, back: string)

  predicate PiecesOk(p: Pieces) {
    && Blank(p.front) && Blank(p.gap) && Blank(p.back) && p.whole != "" && AllDigits(p.whole)
    && (p.part.Some? ==> p.part.value != "" && AllDigits(p.part.value))
    && (Lower(p.unit) == "ms" || Lower(p.unit) == "s")
  }

  function Number(p: Pieces): string {
    p.whole + if p.part.Some? then "." + p.part.value else ""
  }

  function Joined(p: Pieces): string {
    p.front + (Number(p) + p.gap + p.unit) + p.back
  }

  /** What the pieces are worth in seconds. */
  function WorthOf(p: Pieces): real
    requires PiecesOk(p)
  {
    Pow10Positive(if p.part.Some? then |p.part.value| else 0);
    var amount := Value(p.whole) as real
                  + if p.part.Some? then Value(p.part.value) as real / Pow10(|p.part.value|) as real else 0.0;
    if Lower(p.unit) == "ms" then amount / 1000.0 else amount
  }

  lemma UnitShape(unit: string)
    requires Lower(unit) == "ms" || Lower(unit) == "s"
    ensures unit != "" && Trimmed(unit) && !IsDigit(unit[0]) && unit[0] != '.'
  {
    var low := Lower(unit);
    assert |low| == |unit| && LowerChar(unit[0]) == low[0] && LowerChar(unit[|unit| - 1]) == low[|unit| - 1];
  }

  lemma RestShape(p: Pieces)
    requires PiecesOk(p)
    ensures var rest := p.gap + p.unit; rest != "" && !IsDigit(rest[0]) && rest[0] != '.' && Strip(rest) == p.unit
  {
    UnitShape(p.unit);
    assert p.gap + p.unit + "" == p.gap + p.unit;
    StripPad(p.gap, p.unit, "");
    assert p.gap != "" ==> IsSpace(p.gap[0]);
  }

  lemma CoreShape(p: Pieces)
    requires PiecesOk(p)
    ensures Strip(Joined(p)) == Number(p) + p.gap + p.unit
  {
    var core := Number(p) + p.gap + p.unit;
    UnitShape(p.unit);
    assert core[0] == p.whole[0] && core[|core| - 1] == p.unit[|p.unit| - 1];
    StripPad(p.front, core, p.back);
  }

  /** What is read once the ends of the number are found. */
  lemma ParseFrom(text: string, s: string, n: nat, m: nat, low: string)
    requires s == Strip(text) && 0 < n <= m <= |s| && DigitRun(s, 0) == n
    requires m == if n < |s| && s[n] == '.' && DigitRun(s, n + 1) > n + 1 then DigitRun(s, n + 1) else n
    requires low == Lower(Strip(s[m..])) && (low == "ms" || low == "s")
    ensures AllDigits(s[..n]) && (m > n ==> AllDigits(s[n + 1..m]))
    ensures var value := Value(s[..n]) as real + if m > n then Fraction(s[n + 1..m]) else 0.0;
            ParseDuration(text) == Some(if low == "ms" then value / 1000.0 else value)
  {
    hide Strip;
    hide Lower;
    hide Fraction;
    assert s[0..n] == s[..n];
  }

  lemma FractionText(text: string, whole: string, part: string, rest: string)
    requires Strip(text) == whole + "." + part + rest && whole != "" && part != "" && AllDigits(whole) && AllDigits(part)
    requires rest != "" && !IsDigit(rest[0]) && (Lower(Strip(rest)) == "ms" || Lower(Strip(rest)) == "s")
    ensures var value := Value(whole) as real + Fraction(part);
            ParseDuration(text) == Some(if Lower(Strip(rest)) == "ms" then value / 1000.0 else value)
  {
    hide ParseDuration;
    hide Strip;
    hide DigitRun;
    hide Lower;
    hide AllDigits;
    hide Value;
    hide Fraction;
    var s, n := Strip(text), |whole|;
    FractionRead(s, whole, part, rest);
    ParseFrom(text, s, n, n + 1 + |part|, Lower(Strip(rest)));
  }

  lemma WholeText(text: string, whole: string, rest: string)
    requires Strip(text) == whole + rest && whole != "" && AllDigits(whole) && rest != "" && !IsDigit(rest[0]) && rest[0] != '.'
    requires Lower(Strip(rest)) == "ms" || Lower(Strip(rest)) == "s"
    ensures var value := Value(whole) as real;
            ParseDuration(text) == Some(if Lower(Strip(rest)) == "ms" then value / 1000.0 else value)
  {
    hide ParseDuration;
    hide Strip;
    hide DigitRun;
    hide Lower;
    hide AllDigits;
    hide Value;
    var s, n := Strip(text), |whole|;
    WholeRead(s, whole, rest);
    ParseFrom(text, s, n, n, Lower(Strip(rest)));
  }

  /** Such a text is read, as what its pieces are worth. */
  lemma PiecesRead(p: Pieces)
    requires PiecesOk(p)
    ensures ParseDuration(Joined(p)) == Some(WorthOf(p))
  {
    hide PiecesOk;
    hide ParseDuration;
    hide Joined;
    hide Strip;
    hide Lower;
    hide WorthOf;
    hide AllDigits;
    hide Value;
    hide Fraction;
    var rest := p.gap + p.unit;
    CoreShape(p);
    RestShape(p);
    WorthIs(p);
    CoreText(p);
    PiecesSay(p);
    if p.part.Some? {
      FractionText(Joined(p), p.whole, p.part.value, rest);
    } else {
      WholeText(Joined(p), p.whole, rest);
    }
  }

  lemma PiecesSay(p: Pieces)
    requires PiecesOk(p)
    ensures p.whole != "" && AllDigits(p.whole) && (p.part.Some? ==> p.part.value != "" && AllDigits(p.part.value))
    ensures Lower(p.unit) == "ms" || Lower(p.unit) == "s"
  {
  }

  lemma CoreText(p: Pieces)
    ensures Number(p) + p.gap + p.unit
         == if p.part.Some? then p.whole + "." + p.part.value + (p.gap + p.unit) else p.whole + (p.gap + p.unit)
  {
  }

  lemma WorthIs(p: Pieces)
    requires PiecesOk(p)
    ensures var value := Value(p.whole) as real + if p.part.Some? then Fraction(p.part.value) else 0.0;
            WorthOf(p) == if Lower(p.unit) == "ms" then value / 1000.0 else value
  {
  }

  lemma WholeRead(s: string, whole: string, rest: string)
    requires s == whole + rest && whole != "" && AllDigits(whole) && rest != "" && !IsDigit(rest[0]) && rest[0] != '.'
    ensures var i := |whole|; DigitRun(s, 0) == i < |s| && s[..i] == whole && s[i..] == rest && s[i] != '.'
  {
    hide AllDigits;
    hide DigitRun;
    var i := |whole|;
    assert s[0..i] == whole && s[i] == rest[0];
    DigitRunOver(s, 0, whole, i);
  }

  lemma FractionRead(s: string, whole: string, part: string, rest: string)
    requires s == whole + "." + part + rest && whole != "" && part != "" && AllDigits(whole) && AllDigits(part)
    requires rest != "" && !IsDigit(rest[0])
    ensures var i, m := |whole|, |whole| + 1 + |part|;
            && DigitRun(s, 0) == i && i + 1 < m < |s| && s[i] == '.' && DigitRun(s, i + 1) == m
            && s[..i] == whole && s[i + 1..m] == part && s[m..] == rest
  {
    hide AllDigits;
    hide DigitRun;
    var i, m := |whole|, |whole| + 1 + |part|;
    FractionLayout(s, whole, part, rest);
    DigitRunOver(s, 0, whole, i);
    DigitRunOver(s, i + 1, part, m);
  }

  lemma FractionLayout(s: string, whole: string, part: string, rest: string)
    requires s == whole + "." + part + rest && whole != "" && part != "" && rest != ""
    ensures var i, m := |whole|, |whole| + 1 + |part|;
            && i + 1 < m < |s| && s[0..i] == s[..i] == whole && s[i] == '.' && s[i + 1..m] == part && s[m..] == rest && s[m] == rest[0]
  {
  }

  /** And no other text is read. */
  lemma ReadPieces(text: string) returns (p: Pieces)
    requires ParseDuration(text).Some?
    ensures PiecesOk(p) && text == Joined(p)
  {
    hide ParseDuration;
    hide Strip;
    var s := Strip(text);
    var front, back := StripShape(text);
    var n, m := NumberEnds(text);
    var gap, unit := GapAndUnit(s, m);
    p := CorePieces(s, n, m, gap, unit).(front := front, back := back);
    CoreJoins(s, n, m, gap, unit);
  }

  function CorePieces(s: string, n: nat, m: nat, gap: string, unit: string): Pieces
    requires n <= m <= |s|
  {
    Pieces("", s[..n], if m > n then Some(s[n + 1..m]) else None, gap, unit, "")
  }

  lemma CoreJoins(s: string, n: nat, m: nat, gap: string, unit: string)
    requires n <= m <= |s| && (m > n ==> m > n + 1 && s[n] == '.') && s[m..] == gap + unit
    ensures var p := CorePieces(s, n, m, gap, unit); Number(p) + gap + unit == s
  {
    NumberJoins(s, n, m);
    assert Number(CorePieces(s, n, m, gap, unit)) == s[..m];
    assert s[..m] + gap + unit == s[..m] + s[m..] == s;
  }

  lemma NumberJoins(s: string, n: nat, m: nat)
    requires n <= m <= |s| && (m > n ==> m > n + 1 && s[n] == '.')
    ensures s[..m] == s[..n] + if m > n then "." + s[n + 1..m] else ""
  {
  }

  /** Where the digits of the number end, and where all of it does. */
  lemma NumberEnds(text: string) returns (n: nat, m: nat)
    requires ParseDuration(text).Some?
    ensures var s := Strip(text);
            && 0 < n <= m <= |s| && AllDigits(s[..n]) && (m > n ==> m > n + 1 && s[n] == '.' && AllDigits(s[n + 1..m]))
            && (Lower(Strip(s[m..])) == "ms" || Lower(Strip(s[m..])) == "s")
  {
    var s := Strip(text);
    n := DigitRun(s, 0);
    m := if n < |s| && s[n] == '.' && DigitRun(s, n + 1) > n + 1 then DigitRun(s, n + 1) else n;
    assert s[0..n] == s[..n];
  }

  lemma GapAndUnit(s: string, m: nat) returns (gap: string, unit: string)
    requires Trimmed(s) && m <= |s| && (Lower(Strip(s[m..])) == "ms" || Lower(Strip(s[m..])) == "s")
    ensures Blank(gap) && s[m..] == gap + unit && unit == Strip(s[m..])
  {
    unit := Strip(s[m..]);
    UnitShape(unit);
    var behind;
    gap, behind := StripShape(s[m..]);
    assert gap + unit + "" == gap + unit;
  }

  // ---------- round trip ----------

  /** What is left of a duration after printing: rounded to tenths of a millisecond, or to milliseconds. */
  function Printed(seconds: real): real
    requires seconds >= 0.0
  {
    if seconds < 1.0 then Round(seconds * 10000.0) as real / 10000.0 else Round(seconds * 1000.0) as real / 1000.0
  }

  lemma {:induction false} DigitRunOver(s: string, i: nat, digits: string, j: nat)
    requires i + |digits| == j <= |s| && s[i..j] == digits && AllDigits(digits)
    requires j < |s| ==> !IsDigit(s[j])
    ensures DigitRun(s, i) == j
    decreases |digits|
  {
    if digits != "" {
      assert s[i] == digits[0];
      assert s[i + 1..j] == digits[1..];
      DigitRunOver(s, i + 1, digits[1..], j);
    }
  }

  lemma ShowLength(n: nat)
    ensures n < 10 ==> |Show(n)| == 1
    ensures 10 <= n < 100 ==> |Show(n)| == 2
    ensures 100 <= n < 1000 ==> |Show(n)| == 3
  {
    if 10 <= n < 1000 {
      assert Show(n) == Show(n / 10) + [DigitOf(n % 10)];
      if n >= 100 {
        assert Show(n / 10) == Show(n / 10 / 10) + [DigitOf(n / 10 % 10)];
      }
    }
  }

  /** The two digit runs of a printed number of tenths, and what they are worth together. */
  lemma TenthsValue(n: nat)
    ensures |Padded(n % 10, 1)| == 1
    ensures Value(Show(n / 10)) as real + Fraction(Padded(n % 10, 1)) == n as real / 10.0
  {
    ShowLength(n % 10);
    ValueShow(n / 10);
    ValuePadded(n % 10, 1);
    assert Pow10(1) == 10;
  }

  lemma ThousandthsValue(n: nat)
    ensures |Padded(n % 1000, 3)| == 3
    ensures Value(Show(n / 1000)) as real + Fraction(Padded(n % 1000, 3)) == n as real / 1000.0
  {
    ShowLength(n % 1000);
    ValueShow(n / 1000);
    ValuePadded(n % 1000, 3);
    assert Pow10(2) == 100 && Pow10(3) == 1000;
  }

  lemma PiecesLayout(whole: string, part: string, unit: string)
    requires whole != "" && part != "" && AllDigits(whole) && AllDigits(part) && (unit == "ms" || unit == "s")
    ensures var s, i, m := whole + "." + part + unit, |whole|, |whole| + 1 + |part|;
            && Trimmed(s) && m < |s| && s[i] == '.' && !IsDigit(s[m])
            && s[0..i] == s[..i] == whole && s[i + 1..m] == part && s[m..] == unit
  {
    var s, i, m := whole + "." + part + unit, |whole|, |whole| + 1 + |part|;
    assert s[0] == whole[0] && s[|s| - 1] == unit[|unit| - 1] == 's' && s[m] == unit[0];
  }

  /** What a digit run, a point, a second digit run and a unit amount to. */
  function Worth(whole: string, part: string, unit: string): real
    requires AllDigits(whole) && AllDigits(part)
  {
    var value := Value(whole) as real + Fraction(part);
    if unit == "ms" then value / 1000.0 else value
  }

  lemma ParseSplit(s: string, i: nat, m: nat, whole: string, part: string, unit: string)
    requires Trimmed(s) && 0 < i && i + 1 < m < |s| && s[i] == '.' && AllDigits(whole) && AllDigits(part)
    requires s[..i] == whole && s[i + 1..m] == part && s[m..] == unit && (unit == "ms" || unit == "s")
    requires DigitRun(s, 0) == i && DigitRun(s, i + 1) == m
    ensures ParseDuration(s) == Some(Worth(whole, part, unit))
  {
    StripTrimmed(s);
    StripTrimmed(unit);
    assert Lower(unit) == unit;
    assert s[0..i] == s[..i];
  }

  /** A text of digits, a point, digits and a unit reads as what it says. */
  lemma ParsePieces(s: string, whole: string, part: string, unit: string)
    requires whole != "" && part != "" && AllDigits(whole) && AllDigits(part) && (unit == "ms" || unit == "s")
    requires s == whole + "." + part + unit
    ensures ParseDuration(s) == Some(Worth(whole, part, unit))
  {
    var i, m := |whole|, |whole| + 1 + |part|;
    PiecesLayout(whole, part, unit);
    DigitRunOver(s, 0, whole, i);
    DigitRunOver(s, i + 1, part, m);
    ParseSplit(s, i, m, whole, part, unit);
  }

  lemma ParseMillis(s: string, n: nat)
    requires s == Decimal(n, 10, 1) + "ms"
    ensures ParseDuration(s) == Some(n as real / 10000.0)
  {
    var whole, part := Show(n / 10), Padded(n % 10, 1);
    ParsePieces(s, whole, part, "ms");
    assert Worth(whole, part, "ms") == n as real / 10000.0 by {
      TenthsValue(n);
    }
  }

  lemma ParseSeconds(s: string, n: nat)
    requires s == Decimal(n, 1000, 3) + "s"
    ensures ParseDuration(s) == Some(n as real / 1000.0)
  {
    var whole, part := Show(n / 1000), Padded(n % 1000, 3);
    ParsePieces(s, whole, part, "s");
    assert Worth(whole, part, "s") == n as real / 1000.0 by {
      ThousandthsValue(n);
    }
  }

  lemma MillisPieces(seconds: real, n: nat)
    requires 0.0 <= seconds < 1.0 && n == Round(seconds * 10000.0)
    ensures FormatDuration(seconds) == Decimal(n, 10, 1) + "ms" && Printed(seconds) == n as real / 10000.0
  {
  }

  lemma SecondsPieces(seconds: real, n: nat)
    requires seconds >= 1.0 && n == Round(seconds * 1000.0)
    ensures FormatDuration(seconds) == Decimal(n, 1000, 3) + "s" && Printed(seconds) == n as real / 1000.0
  {
  }

  lemma ParseMillisText(s: string, value: real, n: nat)
    requires s == Decimal(n, 10, 1) + "ms" && value == n as real / 10000.0
    ensures ParseDuration(s) == Some(value)
  {
    hide ParseDuration;
    hide Decimal;
    ParseMillis(s, n);
  }

  lemma ParseSecondsText(s: string, value: real, n: nat)
    requires s == Decimal(n, 1000, 3) + "s" && value == n as real / 1000.0
    ensures ParseDuration(s) == Some(value)
  {
    ParseSeconds(s, n);
  }

  /** Parsing a printed duration gives the duration, rounded as printed. */
  lemma FormatThenParse(seconds: real)
    requires seconds >= 0.0
    ensures ParseDuration(FormatDuration(seconds)) == Some(Printed(seconds))
  {
    if seconds < 1.0 {
      var n := Round(seconds * 10000.0);
      MillisPieces(seconds, n);
      ParseMillisText(FormatDuration(seconds), Printed(seconds), n);
    } else {
      var n := Round(seconds * 1000.0);
      SecondsPieces(seconds, n);
      ParseSecondsText(FormatDuration(seconds), Printed(seconds), n);
    }
  }

  /** Rounding errs by at most 0.05 ms below a second and 0.5 ms from there on. */
  lemma PrintedError(seconds: real)
    requires seconds >= 0.0
    ensures var error := Printed(seconds) - seconds;
            if seconds < 1.0 then -0.00005 <= error <= 0.00005 else -0.0005 <= error <= 0.0005
  {
  }

  /** A longer duration never prints as a shorter one, not even across the change of units. */
  lemma PrintedMonotone(x: real, y: real)
    requires 0.0 <= x <= y
    ensures Printed(x) <= Printed(y)
  {
    if y < 1.0 {
      RoundMonotone(x * 10000.0, y * 10000.0);
    } else if x >= 1.0 {
      RoundMonotone(x * 1000.0, y * 1000.0);
    } else {
      RoundMonotone(x * 10000.0, 10000.0);
      RoundMonotone(1000.0, y * 1000.0);
    }
  }
}
