/** Text operations shared by the models: the blanks Python's `str.isspace` knows,
    stripping, substring search, and ASCII case. */
module Text {

  /** Every character for which Python's `str.isspace` is true. */
  predicate IsSpace(c: char) {
    var n := c as int;
    || 0x09 <= n <= 0x0D || 0x1C <= n <= 0x20 || n == 0x85 || n == 0xA0 || n == 0x1680
    || 0x2000 <= n <= 0x200A || n == 0x2028 || n == 0x2029 || n == 0x202F || n == 0x205F || n == 0x3000
  }

  /** Among the ASCII characters the blanks are the space, the tab, the line ends and the separators; letters, digits,
      quotes and parentheses are none. */
  lemma AsciiBlanks(c: char)
    requires c as int < 0x80
    ensures IsSpace(c) <==> c in " \t\n\r\U{000B}\U{000C}\U{001C}\U{001D}\U{001E}\U{001F}"
    ensures 'a' <= c <= 'z' || 'A' <= c <= 'Z' || '0' <= c <= '9' || c in "\"'()" ==> !IsSpace(c)
  {
    var blanks := " \t\n\r\U{000B}\U{000C}\U{001C}\U{001D}\U{001E}\U{001F}";
    assert |blanks| == 10;
    assert c in blanks <==> exists k :: 0 <= k < 10 && blanks[k] == c;
    if IsSpace(c) {
      var n := c as int;
      var k := if n == 32 then 0 else if n == 9 then 1 else if n == 10 then 2 else if n == 13 then 3
               else if n == 11 then 4 else if n == 12 then 5 else n - 28 + 6;
      assert blanks[k] == c;
    }
  }

  /** A text of blanks only: by `BlankIsStripped`, one with nothing left after stripping. */
  predicate Blank(s: string) {
    forall k :: 0 <= k < |s| ==> IsSpace(s[k])
  }

  function LStrip(s: string): string {
    if s != "" && IsSpace(s[0]) then LStrip(s[1..]) else s
  }

  function RStrip(s: string): string {
    if s != "" && IsSpace(s[|s| - 1]) then RStrip(s[..|s| - 1]) else s
  }

  function Strip(s: string): string {
    RStrip(LStrip(s))
  }

  /** Neither end is a blank character, so stripping changes nothing. */
  predicate Trimmed(s: string) {
    s != "" ==> !IsSpace(s[0]) && !IsSpace(s[|s| - 1])
  }

  lemma {:induction false} LStripShape(s: string) returns (front: string)
    ensures Blank(front) && s == front + LStrip(s)
    ensures LStrip(s) != "" ==> !IsSpace(LStrip(s)[0])
  {
    if s != "" && IsSpace(s[0]) {
      var f := LStripShape(s[1..]);
      front := [s[0]] + f;
    } else {
      front := "";
    }
  }

  lemma {:induction false} RStripShape(s: string) returns (back: string)
    ensures Blank(back) && s == RStrip(s) + back
    ensures RStrip(s) != "" ==> !IsSpace(RStrip(s)[|RStrip(s)| - 1])
  {
    if s != "" && IsSpace(s[|s| - 1]) {
      var b := RStripShape(s[..|s| - 1]);
      back := b + [s[|s| - 1]];
    } else {
      back := "";
    }
  }

  /** Stripping removes blanks from both ends and nothing else. */
  lemma StripShape(s: string) returns (front: string, back: string)
    ensures Blank(front) && Blank(back) && s == front + Strip(s) + back
    ensures Trimmed(Strip(s))
  {
    front := LStripShape(s);
    back := RStripShape(LStrip(s));
    assert Strip(s) != "" ==> Strip(s)[0] == LStrip(s)[0];
  }

  lemma StripTrimmed(s: string)
    requires Trimmed(s)
    ensures Strip(s) == s
  {
  }

  lemma {:induction false} LStripPad(front: string, s: string)
    requires Blank(front)
    ensures LStrip(front + s) == LStrip(s)
  {
    if front == "" {
      assert front + s == s;
    } else {
      assert (front + s)[1..] == front[1..] + s;
      LStripPad(front[1..], s);
    }
  }

  lemma {:induction false} RStripPad(s: string, back: string)
    requires Blank(back)
    ensures RStrip(s + back) == RStrip(s)
  {
    if back == "" {
      assert s + back == s;
    } else {
      assert (s + back)[..|s + back| - 1] == s + back[..|back| - 1];
      RStripPad(s, back[..|back| - 1]);
    }
  }

  /** Padding a trimmed, non-empty text with blanks and stripping gives the text back. */
  lemma StripPad(front: string, s: string, back: string)
    requires Blank(front) && Blank(back) && Trimmed(s)
    ensures Strip(front + s + back) == s
  {
    assert front + s + back == front + (s + back);
    LStripPad(front, s + back);
    if s == "" {
      assert s + back == back + "";
      LStripPad(back, "");
    } else {
      RStripPad(s, back);
    }
  }

  lemma BlankIsStripped(s: string)
    ensures Blank(s) <==> Strip(s) == ""
  {
    var f, b := StripShape(s);
    if Blank(s) {
      assert s == s + "" + "";
      StripPad(s, "", "");
    }
  }

  predicate OccursAt(s: string, piece: string, k: nat) {
    k + |piece| <= |s| && forall j :: 0 <= j < |piece| ==> s[k + j] == piece[j]
  }

  /** Position of the first occurrence of `needle` in `s` at or behind `pos`, or -1: Python's `s.find(needle, pos)`. */
  function Find(s: string, needle: string, pos: nat): (r: int)
    ensures r == -1 || pos <= r <= |s| - |needle|
    decreases |s| - pos
  {
    if pos + |needle| > |s| then -1
    else if OccursAt(s, needle, pos) then pos
    else Find(s, needle, pos + 1)
  }

  /** `Find` reports the first occurrence, and -1 only when there is none. */
  lemma {:induction false} FindSpec(s: string, needle: string, pos: nat)
    ensures var r := Find(s, needle, pos);
            && (r >= 0 ==> OccursAt(s, needle, r))
            && (forall k :: pos <= k && (r < 0 || k < r) ==> !OccursAt(s, needle, k))
    decreases |s| - pos
  {
    if pos + |needle| <= |s| && !OccursAt(s, needle, pos) {
      FindSpec(s, needle, pos + 1);
    }
  }

  /** Position of the first `c` in `s`, or -1: Python's `str.find` with one character. */
  function IndexOf(s: string, c: char): (r: int)
    ensures -1 <= r < |s|
    ensures r >= 0 ==> s[r] == c && c !in s[..r]
    ensures r < 0 ==> c !in s
  {
    if s == "" then -1
    else if s[0] == c then 0
    else
      var r := IndexOf(s[1..], c);
      if r < 0 then assert s == [s[0]] + s[1..]; -1 else
        assert s[..r + 1] == [s[0]] + s[1..][..r];
        r + 1
  }

  function LowerChar(c: char): char {
    if 'A' <= c <= 'Z' then c + ('a' - 'A') else c
  }

  function UpperChar(c: char): char {
    if 'a' <= c <= 'z' then c - ('a' - 'A') else c
  }

  const CAPITALS := "ABCDEFGHIJKLMNOPQRSTUVWXYZ"
  const SMALL := "abcdefghijklmnopqrstuvwxyz"

  /** Changing case exchanges each capital with the small letter at its place, and leaves all else alone. */
  lemma CaseChange(c: char, i: nat)
    requires i < 26
    ensures LowerChar(CAPITALS[i]) == SMALL[i] && UpperChar(SMALL[i]) == CAPITALS[i]
    ensures c !in CAPITALS ==> LowerChar(c) == c
    ensures c !in SMALL ==> UpperChar(c) == c
  {
    LetterAt(i);
    if 'A' <= c <= 'Z' {
      LetterAt(c as int - 'A' as int);
      assert CAPITALS[c as int - 'A' as int] == c;
    }
    if 'a' <= c <= 'z' {
      LetterAt(c as int - 'a' as int);
      assert SMALL[c as int - 'a' as int] == c;
    }
  }

  lemma LetterAt(i: nat)
    requires i < 26
    ensures CAPITALS[i] as int == 'A' as int + i && SMALL[i] as int == 'a' as int + i
  {
  }

  function Lower(s: string): string {
    seq(|s|, i requires 0 <= i < |s| => LowerChar(s[i]))
  }

  function Upper(s: string): string {
    seq(|s|, i requires 0 <= i < |s| => UpperChar(s[i]))
  }

  /** `s` without any occurrence of `c`: Python's `s.replace(c, "")`. */
  function Without(s: string, c: char): (r: string)
    ensures c !in r
  {
    if s == "" then ""
    else if s[0] == c then Without(s[1..], c)
    else [s[0]] + Without(s[1..], c)
  }

  /** `s` with every `a` turned into `b`. */
  function Replace(s: string, a: char, b: char): string {
    seq(|s|, i requires 0 <= i < |s| => if s[i] == a then b else s[i])
  }

  /** Text order: by the first differing character, a prefix before its extensions. */
  predicate Leq(a: string, b: string) {
    a == "" || (b != "" && (a[0] < b[0] || (a[0] == b[0] && Leq(a[1..], b[1..]))))
  }

  /** A text stands before another if it is a prefix of it, or has the smaller character where they first differ. */
  lemma {:induction false} LeqIff(a: string, b: string)
    ensures Leq(a, b) <==> a <= b || exists i: nat :: FirstDifference(a, b, i) && a[i] < b[i]
  {
    if a != "" && b != "" && a[0] == b[0] {
      LeqIff(a[1..], b[1..]);
      assert a == [a[0]] + a[1..] && b == [b[0]] + b[1..];
      assert a <= b <==> a[1..] <= b[1..];
      forall i: nat ensures FirstDifference(a, b, i + 1) <==> FirstDifference(a[1..], b[1..], i) {
        DifferenceBehindHead(a, b, i);
      }
      forall i: nat | FirstDifference(a, b, i) ensures i > 0 && FirstDifference(a[1..], b[1..], i - 1) {
        DifferenceBehindHead(a, b, i - 1);
      }
    } else if a != "" && b != "" {
      assert !(a <= b);
      assert FirstDifference(a, b, 0);
      assert forall i: nat :: FirstDifference(a, b, i) ==> i == 0;
      assert Leq(a, b) <==> a[0] < b[0];
    }
  }

  predicate FirstDifference(a: string, b: string, i: nat) {
    i < |a| && i < |b| && a[i] != b[i] && forall j :: 0 <= j < i ==> a[j] == b[j]
  }

  lemma DifferenceBehindHead(a: string, b: string, i: nat)
    requires a != "" && b != "" && a[0] == b[0]
    ensures FirstDifference(a, b, i + 1) <==> FirstDifference(a[1..], b[1..], i)
  {
    if FirstDifference(a[1..], b[1..], i) {
      forall j | 0 <= j < i + 1 ensures a[j] == b[j] {
        assert j > 0 ==> a[j] == a[1..][j - 1] && b[j] == b[1..][j - 1];
      }
    }
  }

  lemma {:induction false} LeqTotal(a: string, b: string)
    ensures Leq(a, b) || Leq(b, a)
  {
    if a != "" && b != "" && a[0] == b[0] {
      LeqTotal(a[1..], b[1..]);
    }
  }

  lemma {:induction false} LeqTransitive(a: string, b: string, c: string)
    requires Leq(a, b) && Leq(b, c)
    ensures Leq(a, c)
  {
    if a != "" && b[0] == a[0] && c[0] == b[0] {
      LeqTransitive(a[1..], b[1..], c[1..]);
    }
  }

  lemma {:induction false} LeqAntisymmetric(a: string, b: string)
    requires Leq(a, b) && Leq(b, a)
    ensures a == b
  {
    if a != "" {
      LeqAntisymmetric(a[1..], b[1..]);
      assert a == [a[0]] + a[1..] && b == [b[0]] + b[1..];
    }
  }

  lemma Regroup<T>(a: seq<T>, x: T, b: seq<T>)
    ensures a + ([x] + b) == (a + [x]) + b
  {
  }
}
