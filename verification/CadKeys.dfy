/** The names of fields: how a key may be spelled, and which field a spelling or an alias names. */
module CadKeys {
  import opened Text

  type Aliases = map<string, string>

  type Fields = map<string, string>

  /** A block attribute; the names within a block are distinct. */
  datatype Attribute = Attribute(name: string, value: string)

  /** The chain of replacements a stripped key goes through. */
  function Squeezed(s: string): string {
    Lower(Without(Without(Replace(Without(Without(s, ' '), '\t'), '-', '_'), '\U{FF1A}'), ':'))
  }

  function Compact(raw: string): string {
    Squeezed(Strip(raw))
  }

  function CanonicalKey(raw: string, aliases: Aliases): string {
    var compact := Compact(raw);
    if compact in aliases then aliases[compact] else compact
  }

  // ---------- the same in one pass ----------

  /** Blanks and tabs, and both colons. */
  predicate Ignored(c: char) {
    c == ' ' || c == '\t' || c == ':' || c == '\U{FF1A}'
  }

  function Folded(c: char): char {
    if c == '-' then '_' else LowerChar(c)
  }

  predicate Reads(body: string, key: string) {
    if body == "" then key == ""
    else if Ignored(body[0]) then Reads(body[1..], key)
    else key != "" && key[0] == Folded(body[0]) && Reads(body[1..], key[1..])
  }

  ghost predicate SpellsWithin(raw: string, key: string, front: string, body: string, back: string) {
    raw == front + body + back && Blank(front) && Blank(back) && Trimmed(body) && Reads(body, key)
  }

  /** Surrounding blanks, ignored characters, case, and `-` for `_` aside, the text is the key. */
  ghost predicate Spells(raw: string, key: string) {
    exists front, body, back :: SpellsWithin(raw, key, front, body, back)
  }

  /** The field a text names: the one it is an alias of, or else the one it spells. */
  ghost predicate Names(raw: string, k: string, aliases: Aliases) {
    exists c :: Spells(raw, c) && k == if c in aliases then aliases[c] else c
  }

  lemma WithoutHead(x: string, c: char)
    requires x != ""
    ensures Without(x, c) == (if x[0] == c then "" else [x[0]]) + Without(x[1..], c)
  {
  }

  lemma ReplaceHead(x: string, a: char, b: char)
    requires x != ""
    ensures Replace(x, a, b) == [if x[0] == a then b else x[0]] + Replace(x[1..], a, b)
  {
  }

  lemma LowerHead(x: string)
    requires x != ""
    ensures Lower(x) == [LowerChar(x[0])] + Lower(x[1..])
  {
  }

  lemma SqueezedHead(s: string)
    requires s != ""
    ensures Squeezed(s) == (if Ignored(s[0]) then "" else [Folded(s[0])]) + Squeezed(s[1..])
  {
    var c, rest := s[0], s[1..];
    var t, t' := Without(s, ' '), Without(rest, ' ');
    WithoutHead(s, ' ');
    if c == ' ' {
      assert t == t';
    } else {
      assert t[0] == c && t[1..] == t';
      WithoutHead(t, '\t');
      var u, u' := Without(t, '\t'), Without(t', '\t');
      if c == '\t' {
        assert u == u';
      } else {
        assert u[0] == c && u[1..] == u';
        SqueezedRest(u, u', c);
      }
    }
  }

  lemma SqueezedRest(u: string, u': string, c: char)
    requires u != "" && u[0] == c && u[1..] == u' && c != ' ' && c != '\t'
    ensures Lower(Without(Without(Replace(u, '-', '_'), '\U{FF1A}'), ':'))
         == (if Ignored(c) then "" else [Folded(c)]) + Lower(Without(Without(Replace(u', '-', '_'), '\U{FF1A}'), ':'))
  {
    var d := if c == '-' then '_' else c;
    var v, v' := Replace(u, '-', '_'), Replace(u', '-', '_');
    ReplaceHead(u, '-', '_');
    assert v[0] == d && v[1..] == v';
    WithoutHead(v, '\U{FF1A}');
    var w, w' := Without(v, '\U{FF1A}'), Without(v', '\U{FF1A}');
    if c == '\U{FF1A}' {
      assert w == w';
    } else {
      assert w[0] == d && w[1..] == w';
      WithoutHead(w, ':');
      var x, x' := Without(w, ':'), Without(w', ':');
      if c == ':' {
        assert x == x';
      } else {
        assert x[0] == d && x[1..] == x';
        LowerHead(x);
      }
    }
  }

  lemma NothingSqueezed()
    ensures Squeezed("") == ""
  {
  }

  lemma {:induction false} ReadsIff(body: string, key: string)
    ensures Reads(body, key) <==> Squeezed(body) == key
  {
    hide Squeezed;
    if body == "" {
      NothingSqueezed();
    } else {
      SqueezedHead(body);
      var rest := Squeezed(body[1..]);
      if Ignored(body[0]) {
        assert "" + rest == rest;
        ReadsIff(body[1..], key);
      } else if key != "" {
        ReadsIff(body[1..], key[1..]);
        assert key == [key[0]] + key[1..];
      }
    }
  }

  /** The chain of replacements is the one-pass reading. */
  lemma SpellsIff(raw: string, key: string)
    ensures Spells(raw, key) <==> Compact(raw) == key
  {
    hide Squeezed;
    var front, back := StripShape(raw);
    ReadsIff(Strip(raw), key);
    if Compact(raw) == key {
      assert SpellsWithin(raw, key, front, Strip(raw), back);
    }
    if Spells(raw, key) {
      var f, body, b :| SpellsWithin(raw, key, f, body, b);
      StripPad(f, body, b);
    }
  }

  /** The canonical key is the field named, and no other. */
  lemma NamesIff(raw: string, k: string, aliases: Aliases)
    ensures Names(raw, k, aliases) <==> CanonicalKey(raw, aliases) == k
  {
    SpellsIff(raw, Compact(raw));
    forall c | Spells(raw, c) ensures c == Compact(raw) {
      SpellsIff(raw, c);
    }
  }

  // ---------- spellings of one field ----------

  lemma {:induction false} SqueezedSplit(x: string, y: string)
    ensures Squeezed(x + y) == Squeezed(x) + Squeezed(y)
  {
    hide Squeezed;
    if x == "" {
      NothingSqueezed();
      assert x + y == y && "" + Squeezed(y) == Squeezed(y);
    } else {
      SqueezedHead(x + y);
      SqueezedHead(x);
      SqueezedSplit(x[1..], y);
      assert (x + y)[0] == x[0] && (x + y)[1..] == x[1..] + y;
    }
  }

  lemma SqueezedOne(c: char)
    ensures Squeezed([c]) == if Ignored(c) then "" else [Folded(c)]
  {
    hide Squeezed;
    SqueezedHead([c]);
    NothingSqueezed();
    assert [c][1..] == "";
  }

  /** Blanks around a key do not matter. */
  lemma BlanksAround(front: string, raw: string, back: string, aliases: Aliases)
    requires Blank(front) && Blank(back)
    ensures CanonicalKey(front + raw + back, aliases) == CanonicalKey(raw, aliases)
  {
    var f, b := StripShape(raw);
    var core := Strip(raw);
    assert front + raw + back == (front + f) + core + (b + back);
    StripPad(front + f, core, b + back);
  }

  /** A blank, a tab or either colon within a key, or at its end, does not matter. */
  lemma IgnoredWithin(x: string, c: char, y: string, aliases: Aliases)
    requires Ignored(c) && Trimmed(x + y)
    ensures CanonicalKey(x + [c] + y, aliases) == CanonicalKey(x + y, aliases)
  {
    hide Squeezed;
    StripTrimmed(x + y);
    SqueezedSplit(x, y);
    SqueezedSplit(x + [c], y);
    SqueezedSplit(x, [c]);
    SqueezedOne(c);
    assert Squeezed(x) + "" == Squeezed(x);
    if !IsSpace(c) || (x != "" && y != "") {
      MiddleTrimmed(x, c, y);
      StripTrimmed(x + [c] + y);
    } else if x == "" {
      assert x + y == y && x + [c] + y == [c] + y + "";
      StripPad([c], y, "");
    } else {
      assert x + y == x && x + [c] + y == "" + x + [c];
      StripPad("", x, [c]);
    }
  }

  lemma MiddleTrimmed(x: string, c: char, y: string)
    requires Trimmed(x + y) && (!IsSpace(c) || (x != "" && y != ""))
    ensures Trimmed(x + [c] + y)
  {
    var s := x + [c] + y;
    assert x != "" ==> s[0] == (x + y)[0];
    assert y != "" ==> s[|s| - 1] == (x + y)[|x + y| - 1];
  }

  /** Letters may be in either case, and `-` stand for `_`. */
  lemma FoldedWithin(x: string, c: char, d: char, y: string, aliases: Aliases)
    requires Folded(c) == Folded(d) && !Ignored(c) && !Ignored(d) && !IsSpace(c) && !IsSpace(d)
    ensures CanonicalKey(x + [c] + y, aliases) == CanonicalKey(x + [d] + y, aliases)
  {
    hide Squeezed;
    StripAround(x, c, y);
    StripAround(x, d, y);
    var x', y' := LStrip(x), RStrip(y);
    SqueezedSplit(x' + [c], y');
    SqueezedSplit(x', [c]);
    SqueezedSplit(x' + [d], y');
    SqueezedSplit(x', [d]);
    SqueezedOne(c);
    SqueezedOne(d);
  }

  lemma {:induction false} LStripAround(x: string, c: char, y: string)
    requires !IsSpace(c)
    ensures LStrip(x + [c] + y) == LStrip(x) + [c] + y
  {
    if x != "" && IsSpace(x[0]) {
      assert (x + [c] + y)[1..] == x[1..] + [c] + y;
      LStripAround(x[1..], c, y);
    } else {
      assert (x + [c] + y)[0] == if x == "" then c else x[0];
    }
  }

  lemma {:induction false} RStripAround(x: string, c: char, y: string)
    requires !IsSpace(c)
    ensures RStrip(x + [c] + y) == x + [c] + RStrip(y)
  {
    var s := x + [c] + y;
    if y != "" && IsSpace(y[|y| - 1]) {
      assert s[..|s| - 1] == x + [c] + y[..|y| - 1];
      RStripAround(x, c, y[..|y| - 1]);
    } else {
      assert s[|s| - 1] == if y == "" then c else y[|y| - 1];
    }
  }

  lemma StripAround(x: string, c: char, y: string)
    requires !IsSpace(c)
    ensures Strip(x + [c] + y) == LStrip(x) + [c] + RStrip(y)
  {
    LStripAround(x, c, y);
    RStripAround(LStrip(x), c, y);
  }
}
