/** Comment stripping and delimiter counting over Lisp text, and the one-pass automaton
    that both are measured against. */
module LispBalance {
  import opened Text

  // ---------- the reference: one character at a time, four states ----------

  datatype Mode = Code | Str | Escaped | Comment

  datatype Counts = Counts(opens: nat, closes: nat, quotesOpen: nat, quotesClose: nat)

  const ZERO := Counts(0, 0, 0, 0)

  function Next(m: Mode, c: char): Mode {
    match m
    case Code => if c == '"' then Str else if c == ';' then Comment else Code
    case Str => if c == '\\' then Escaped else if c == '"' then Code else Str
    case Escaped => Str
    case Comment => if c == '\n' then Code else Comment
  }

  /** A character belongs to a comment from its `;` up to, not including, the newline. */
  predicate InComment(m: Mode, c: char) {
    (m == Code && c == ';') || (m == Comment && c != '\n')
  }

  function Tally(m: Mode, c: char, n: Counts): Counts {
    match m
    case Code =>
      if c == '(' then n.(opens := n.opens + 1)
      else if c == ')' then n.(closes := n.closes + 1)
      else if c == '"' then n.(quotesOpen := n.quotesOpen + 1)
      else n
    case Str => if c == '"' then n.(quotesClose := n.quotesClose + 1) else n
    case _ => n
  }

  function FinalMode(s: string, m: Mode): Mode {
    if s == "" then m else FinalMode(s[1..], Next(m, s[0]))
  }

  function Count(s: string, m: Mode, n: Counts): Counts {
    if s == "" then n else Count(s[1..], Next(m, s[0]), Tally(m, s[0], n))
  }

  /** The text without its comments. */
  function Visible(s: string, m: Mode): string {
    if s == "" then ""
    else (if InComment(m, s[0]) then "" else [s[0]]) + Visible(s[1..], Next(m, s[0]))
  }

  /** `Visible` of what is left from position `i` on. */
  function VisibleFrom(s: string, i: nat, m: Mode): string
    requires i <= |s|
    decreases |s| - i
  {
    if i == |s| then ""
    else (if InComment(m, s[i]) then "" else [s[i]]) + VisibleFrom(s, i + 1, Next(m, s[i]))
  }

  lemma {:induction false} VisibleFromIsVisible(s: string, i: nat, m: Mode)
    requires i <= |s|
    ensures VisibleFrom(s, i, m) == Visible(s[i..], m)
    decreases |s| - i
  {
    if i < |s| {
      assert s[i..][1..] == s[i + 1..];
      VisibleFromIsVisible(s, i + 1, Next(m, s[i]));
    }
  }

  lemma KeepOne(out: string, s: string, i: nat, m: Mode)
    requires i < |s| && !InComment(m, s[i])
    ensures out + VisibleFrom(s, i, m) == (out + [s[i]]) + VisibleFrom(s, i + 1, Next(m, s[i]))
  {
    Regroup(out, s[i], VisibleFrom(s, i + 1, Next(m, s[i])));
  }

  // ---------- the two scanners ----------

  /** Drops every `;` comment outside string literals, keeping its newline. */
  method StripLispLineComments(source: string) returns (out: string)
    ensures out == Visible(source, Code)
  {
    out := "";
    var inString := false;
    var i := 0;
    var n := |source|;
    ghost var all := VisibleFrom(source, 0, Code);
    VisibleFromIsVisible(source, 0, Code);
    assert source[0..] == source;
    while i < n
      invariant 0 <= i <= n
      invariant all == out + VisibleFrom(source, i, if inString then Str else Code)
    {
      var ch := source[i];
      if inString {
        KeepOne(out, source, i, Str);
        out := out + [ch];
        if ch == '\\' && i + 1 < n {
          KeepOne(out, source, i + 1, Escaped);
          out := out + [source[i + 1]];
          i := i + 2;
          continue;
        }
        if ch == '"' {
          inString := false;
        }
        i := i + 1;
        continue;
      }
      if ch == '"' {
        KeepOne(out, source, i, Code);
        inString := true;
        out := out + [ch];
        i := i + 1;
        continue;
      }
      if ch == ';' {
        i := EndOfComment(source, i);
        continue;
      }
      KeepOne(out, source, i, Code);
      out := out + [ch];
      i := i + 1;
    }
  }

  /** The newline, or the end, that a comment runs up to. */
  method EndOfComment(source: string, start: nat) returns (i: nat)
    requires start < |source| && source[start] == ';'
    ensures start < i <= |source|
    ensures VisibleFrom(source, start, Code) == VisibleFrom(source, i, Code)
  {
    i := start;
    while i < |source| && source[i] != '\n'
      invariant start <= i <= |source|
      invariant VisibleFrom(source, start, Code) == VisibleFrom(source, i, if i == start then Code else Comment)
    {
      i := i + 1;
    }
  }

  /** Counts parentheses outside strings, and string delimiters, in comment-free text. */
  method CountBalanced(source: string) returns (opens: nat, closes: nat, quotesOpen: nat, quotesClose: nat)
    ensures Counts(opens, closes, quotesOpen, quotesClose) == CountIgnoringComments(source, false, ZERO)
  {
    opens, closes, quotesOpen, quotesClose := 0, 0, 0, 0;
    var inString := false;
    var i := 0;
    var n := |source|;
    while i < n
      invariant 0 <= i <= n
      invariant CountIgnoringComments(source, false, ZERO)
             == CountIgnoringComments(source[i..], inString, Counts(opens, closes, quotesOpen, quotesClose))
    {
      var ch := source[i];
      assert source[i..][1..] == source[i + 1..];
      if inString {
        if ch == '\\' && i + 1 < n {
          assert source[i..][2..] == source[i + 2..];
          i := i + 2;
          continue;
        }
        if ch == '"' {
          inString := false;
          quotesClose := quotesClose + 1;
        }
        i := i + 1;
        continue;
      }
      if ch == '"' {
        inString := true;
        quotesOpen := quotesOpen + 1;
        i := i + 1;
        continue;
      }
      if ch == '(' {
        opens := opens + 1;
      } else if ch == ')' {
        closes := closes + 1;
      }
      i := i + 1;
    }
  }

  /** What `CountBalanced` computes: it knows strings and escapes but nothing of comments. */
  function CountIgnoringComments(s: string, inString: bool, n: Counts): Counts {
    if s == "" then n
    else if inString then
      if s[0] == '\\' && |s| > 1 then CountIgnoringComments(s[2..], true, n)
      else if s[0] == '"' then CountIgnoringComments(s[1..], false, n.(quotesClose := n.quotesClose + 1))
      else CountIgnoringComments(s[1..], true, n)
    else if s[0] == '"' then CountIgnoringComments(s[1..], true, n.(quotesOpen := n.quotesOpen + 1))
    else if s[0] == '(' then CountIgnoringComments(s[1..], false, n.(opens := n.opens + 1))
    else if s[0] == ')' then CountIgnoringComments(s[1..], false, n.(closes := n.closes + 1))
    else CountIgnoringComments(s[1..], false, n)
  }

  // ---------- what the scanners promise ----------

  /** Stripping comments twice is stripping them once. */
  lemma {:induction false} StripIdempotent(s: string, m: Mode)
    requires m != Comment
    ensures Visible(Visible(s, m), m) == Visible(s, m)
  {
    if s != "" {
      var v := Visible(s, m);
      if InComment(m, s[0]) {
        assert v == Visible(s[1..], Comment);
        StripIdempotentAfterComment(s[1..]);
      } else {
        assert v[1..] == Visible(s[1..], Next(m, s[0]));
        StripIdempotent(s[1..], Next(m, s[0]));
      }
    }
  }

  lemma {:induction false} StripIdempotentAfterComment(s: string)
    ensures Visible(Visible(s, Comment), Code) == Visible(s, Comment)
    ensures Visible(s, Comment) != "" ==> Visible(s, Comment)[0] == '\n'
  {
    if s != "" {
      if s[0] == '\n' {
        assert Visible(s, Comment)[1..] == Visible(s[1..], Code);
        StripIdempotent(s[1..], Code);
      } else {
        assert Visible(s, Comment) == Visible(s[1..], Comment);
        StripIdempotentAfterComment(s[1..]);
      }
    }
  }

  /** Counting the stripped text, without knowledge of comments, agrees with the automaton
      run once over the raw text. */
  lemma {:induction false} StrippedCountIsRawCount(s: string, m: Mode, n: Counts)
    requires m == Code || m == Str
    ensures CountIgnoringComments(Visible(s, m), m == Str, n) == Count(s, m, n)
    decreases |s|
  {
    if s != "" {
      var v := Visible(s, m);
      if InComment(m, s[0]) {
        assert v == Visible(s[1..], Comment);
        CommentCountsNothing(s[1..], n);
      } else if m == Str && s[0] == '\\' {
        if |s| == 1 {
          assert v == [s[0]];
          assert Count(s[1..], Escaped, n) == n;
        } else {
          assert v == [s[0], s[1]] + Visible(s[2..], Str) by {
            assert s[1..][1..] == s[2..];
          }
          assert v[2..] == Visible(s[2..], Str);
          assert Count(s, Str, n) == Count(s[2..], Str, n) by {
            assert s[1..][1..] == s[2..];
          }
          StrippedCountIsRawCount(s[2..], Str, n);
        }
      } else {
        assert v[1..] == Visible(s[1..], Next(m, s[0]));
        StrippedCountIsRawCount(s[1..], Next(m, s[0]), Tally(m, s[0], n));
      }
    }
  }

  lemma {:induction false} CommentCountsNothing(s: string, n: Counts)
    ensures CountIgnoringComments(Visible(s, Comment), false, n) == Count(s, Comment, n)
    decreases |s|
  {
    if s != "" {
      if s[0] == '\n' {
        assert Visible(s, Comment)[1..] == Visible(s[1..], Code);
        StrippedCountIsRawCount(s[1..], Code, n);
      } else {
        assert Visible(s, Comment) == Visible(s[1..], Comment);
        CommentCountsNothing(s[1..], n);
      }
    }
  }

  /** Quotes opened minus quotes closed is 0 or 1, and 1 exactly when the text ends inside a string. */
  lemma {:induction false} QuoteBalance(s: string, m: Mode, n: Counts)
    requires n.quotesOpen - n.quotesClose == if m == Str || m == Escaped then 1 else 0
    ensures var r := Count(s, m, n);
            r.quotesOpen - r.quotesClose == if FinalMode(s, m) == Str || FinalMode(s, m) == Escaped then 1 else 0
  {
    if s != "" {
      QuoteBalance(s[1..], Next(m, s[0]), Tally(m, s[0], n));
    }
  }

  /** The checker's whole pipeline: strip, then count. */
  method StripThenCount(source: string)
    returns (opens: nat, closes: nat, quotesOpen: nat, quotesClose: nat)
    ensures Counts(opens, closes, quotesOpen, quotesClose) == Count(source, Code, ZERO)
    ensures quotesOpen == quotesClose || quotesOpen == quotesClose + 1
    ensures quotesOpen == quotesClose + 1 <==> FinalMode(source, Code) == Str || FinalMode(source, Code) == Escaped
  {
    var stripped := StripLispLineComments(source);
    opens, closes, quotesOpen, quotesClose := CountBalanced(stripped);
    StrippedCountIsRawCount(source, Code, ZERO);
    QuoteBalance(source, Code, ZERO);
  }
}
