/** A printer for texts that hold helper calls, and the proof that the scanners undo it. */
module LispRoundTrip {
  import opened Text
  import opened LispCalls

  // ---------- the printed grammar ----------

  /** A bareword, a string literal given by the text between its quotes, or a nested form
      given by the text between its parentheses. */
  datatype Arg = Bare(text: string) | Literal(body: string) | Nested(body: string)

  /** An argument and the blanks in front of it. */
  datatype SpacedArg = SpacedArg(gap: string, arg: Arg)

  datatype Call = Call(args: seq<SpacedArg>, trail: string)

  /** Calls with other text before, between and behind them. */
  datatype Document = End(text: string) | Then(text: string, call: Call, rest: Document)

  predicate IsPlain(c: char) {
    c != '"' && c != '(' && c != ')' && !IsSpace(c)
  }

  /** Line breaks, tabs and spaces separate arguments, so a call may stand on several lines; and every other ASCII character
      but quotes and parentheses may be part of a bareword. */
  lemma SeparatorsAndBarewords(gap: string, c: char)
    ensures (forall k :: 0 <= k < |gap| ==> gap[k] in " \t\n\r") ==> Blank(gap)
    ensures ' ' < c <= '~' && c !in "\"()" ==> IsPlain(c)
  {
    forall k | 0 <= k < |gap| && gap[k] in " \t\n\r" ensures IsSpace(gap[k]) {
      assert gap[k] as int < 0x80;
      AsciiBlanks(gap[k]);
    }
    if ' ' < c <= '~' {
      AsciiBlanks(c);
    }
  }

  /** Every quote is escaped, and so is whatever a backslash precedes. */
  predicate LiteralOk(b: string)
    decreases |b|
  {
    b == "" || if b[0] == '\\' then |b| > 1 && LiteralOk(b[2..]) else b[0] != '"' && LiteralOk(b[1..])
  }

  /** The parentheses in `b` close each other and `depth` earlier ones. */
  predicate Balanced(b: string, depth: nat) {
    if b == "" then depth == 0
    else if b[0] == '(' then Balanced(b[1..], depth + 1)
    else if b[0] == ')' then depth > 0 && Balanced(b[1..], depth - 1)
    else Balanced(b[1..], depth)
  }

  predicate ArgOk(a: Arg) {
    match a
    case Bare(t) => t != "" && forall k :: 0 <= k < |t| ==> IsPlain(t[k])
    case Literal(b) => LiteralOk(b)
    case Nested(b) => Balanced(b, 0)
  }

  predicate CallOk(c: Call) {
    && Blank(c.trail)
    && forall k :: 0 <= k < |c.args| ==> c.args[k].gap != "" && Blank(c.args[k].gap) && ArgOk(c.args[k].arg)
  }

  predicate NeedleFree(text: string, needle: string) {
    forall k :: 0 <= k <= |text| ==> !OccursAt(text, needle, k)
  }

  predicate DocumentOk(d: Document, needle: string) {
    NeedleFree(d.text, needle) && (d.Then? ==> CallOk(d.call) && DocumentOk(d.rest, needle))
  }

  /** A needle opens a form and holds no second parenthesis, as `(yuantus-helper-upload` does. */
  predicate NeedleOk(needle: string) {
    needle != "" && needle[0] == '(' && '(' !in needle[1..]
  }

  function PrintArg(a: Arg): string {
    match a
    case Bare(t) => t
    case Literal(b) => "\"" + b + "\""
    case Nested(b) => "(" + b + ")"
  }

  /** The arguments, each behind its blanks, and then `tail`. */
  function PrintArgs(args: seq<SpacedArg>, tail: string): string {
    if args == [] then tail else args[0].gap + (PrintArg(args[0].arg) + PrintArgs(args[1..], tail))
  }

  function Print(d: Document, needle: string): string {
    match d
    case End(t) => t
    case Then(t, c, rest) => t + (needle + PrintArgs(c.args, c.trail + (")" + Print(rest, needle))))
  }

  /** The token the scanner reports for an argument. */
  function TokenOf(a: Arg): string {
    match a
    case Bare(t) => t
    case Literal(b) => "\"" + b + "\""
    case Nested(_) => "(...)"
  }

  function Tokens(args: seq<SpacedArg>): seq<string> {
    seq(|args|, k requires 0 <= k < |args| => TokenOf(args[k].arg))
  }

  function Arguments(d: Document): seq<seq<string>> {
    match d
    case End(_) => []
    case Then(_, c, rest) => [Tokens(c.args)] + Arguments(rest)
  }

  // ---------- reading printed pieces ----------

  lemma SplitAt(s: string, a: string, b: string, i: nat)
    requires OccursAt(s, a + b, i)
    ensures OccursAt(s, a, i) && OccursAt(s, b, i + |a|)
  {
    forall j | 0 <= j < |a| ensures s[i + j] == a[j] {
      assert (a + b)[j] == a[j];
    }
    forall j | 0 <= j < |b| ensures s[i + |a| + j] == b[j] {
      assert s[i + (|a| + j)] == (a + b)[|a| + j] == b[j];
    }
  }

  lemma HeadAt(s: string, a: string, i: nat)
    requires a != "" && OccursAt(s, a, i)
    ensures i < |s| && s[i] == a[0] && OccursAt(s, a[1..], i + 1)
  {
    assert s[i + 0] == a[0];
    assert a == a[..1] + a[1..];
    SplitAt(s, a[..1], a[1..], i);
  }

  lemma {:induction false} ScanBare(s: string, i: nat, t: string, token: string, args: seq<string>)
    requires OccursAt(s, t, i)
    requires forall k :: 0 <= k < |t| ==> IsPlain(t[k])
    ensures ScanCode(s, i, token, args) == ScanCode(s, i + |t|, token + t, args)
    decreases |t|
  {
    if t == "" {
      assert token + t == token;
    } else {
      HeadAt(s, t, i);
      assert IsPlain(t[0]);
      ScanBare(s, i + 1, t[1..], token + [t[0]], args);
      assert token + [t[0]] + t[1..] == token + t;
    }
  }

  lemma {:induction false} ScanBlanks(s: string, i: nat, gap: string, token: string, args: seq<string>)
    requires OccursAt(s, gap, i) && Blank(gap) && gap != ""
    ensures ScanCode(s, i, token, args) == ScanCode(s, i + |gap|, "", Flush(token, args))
    decreases |gap|
  {
    HeadAt(s, gap, i);
    if |gap| > 1 {
      ScanBlanks(s, i + 1, gap[1..], "", Flush(token, args));
    }
  }

  lemma {:induction false} ScanLiteral(s: string, i: nat, b: string, token: string, args: seq<string>)
    requires LiteralOk(b) && OccursAt(s, b + "\"", i)
    ensures ScanString(s, i, token, args) == ScanCode(s, i + |b| + 1, "", args + [token + b + "\""])
    decreases |b|
  {
    var p := b + "\"";
    HeadAt(s, p, i);
    if b == "" {
      assert token + b + "\"" == token + [s[i]];
    } else if b[0] == '\\' {
      HeadAt(s, p[1..], i + 1);
      assert p[1..][1..] == b[2..] + "\"";
      ScanLiteral(s, i + 2, b[2..], token + [b[0]] + [b[1]], args);
      assert token + [b[0]] + [b[1]] + b[2..] + "\"" == token + b + "\"";
    } else {
      assert p[1..] == b[1..] + "\"";
      ScanLiteral(s, i + 1, b[1..], token + [b[0]], args);
      assert token + [b[0]] + b[1..] + "\"" == token + b + "\"";
    }
  }

  lemma {:induction false} SkipBalanced(s: string, i: nat, b: string, depth: nat)
    requires Balanced(b, depth) && OccursAt(s, b + ")", i)
    ensures SkipNested(s, i, depth + 1) == i + |b| + 1
    decreases |b|
  {
    var p := b + ")";
    HeadAt(s, p, i);
    if b != "" {
      assert p[1..] == b[1..] + ")";
      SkipBalanced(s, i + 1, b[1..], if b[0] == '(' then depth + 1 else if b[0] == ')' then depth - 1 else depth);
    }
  }

  /** The part of an argument the scanner has read but not yet reported: a bareword. */
  function Pending(a: Arg): string {
    if a.Bare? then a.text else ""
  }

  lemma ScanArg(s: string, i: nat, a: Arg, args: seq<string>)
    requires ArgOk(a) && OccursAt(s, PrintArg(a), i)
    ensures var done := if a.Bare? then args else args + [TokenOf(a)];
            && ScanCode(s, i, "", args) == ScanCode(s, i + |PrintArg(a)|, Pending(a), done)
            && Flush(Pending(a), done) == args + [TokenOf(a)]
  {
    match a
    case Bare(t) =>
      ScanBare(s, i, t, "", args);
      assert "" + t == t;
    case Literal(b) =>
      HeadAt(s, PrintArg(a), i);
      assert PrintArg(a)[1..] == b + "\"";
      ScanLiteral(s, i + 1, b, "\"", args);
    case Nested(b) =>
      HeadAt(s, PrintArg(a), i);
      assert PrintArg(a)[1..] == b + ")";
      SkipBalanced(s, i + 1, b, 0);
  }

  /** Blanks and an argument: what was pending before is reported, and the argument becomes pending
      or is reported. */
  lemma ScanSpacedArg(s: string, i: nat, x: SpacedArg, token: string, args: seq<string>)
    returns (done: seq<string>)
    requires x.gap != "" && Blank(x.gap) && ArgOk(x.arg)
    requires OccursAt(s, x.gap, i) && OccursAt(s, PrintArg(x.arg), i + |x.gap|)
    ensures ScanCode(s, i, token, args) == ScanCode(s, i + |x.gap| + |PrintArg(x.arg)|, Pending(x.arg), done)
    ensures Flush(Pending(x.arg), done) == Flush(token, args) + [TokenOf(x.arg)]
  {
    var before := Flush(token, args);
    ScanBlanks(s, i, x.gap, token, args);
    ScanArg(s, i + |x.gap|, x.arg, before);
    done := if x.arg.Bare? then before else before + [TokenOf(x.arg)];
  }

  lemma ScanCallEnd(s: string, i: nat, trail: string, after: string, token: string, args: seq<string>)
    requires Blank(trail) && OccursAt(s, trail + (")" + after), i)
    ensures ScanCode(s, i, token, args) == Scan(Flush(token, args), i + |trail| + 1)
    ensures OccursAt(s, after, i + |trail| + 1)
  {
    SplitAt(s, trail, ")" + after, i);
    SplitAt(s, ")", after, i + |trail|);
    HeadAt(s, ")", i + |trail|);
    if trail != "" {
      ScanBlanks(s, i, trail, token, args);
    }
  }

  lemma ArgsSplit(s: string, i: nat, list: seq<SpacedArg>, tail: string)
    requires list != [] && OccursAt(s, PrintArgs(list, tail), i)
    ensures var x, rest := list[0], PrintArgs(list[1..], tail);
            && OccursAt(s, x.gap, i) && OccursAt(s, PrintArg(x.arg), i + |x.gap|)
            && OccursAt(s, rest, i + |x.gap| + |PrintArg(x.arg)|)
            && |PrintArgs(list, tail)| == |x.gap| + |PrintArg(x.arg)| + |rest|
  {
    var x, rest := list[0], PrintArgs(list[1..], tail);
    SplitAt(s, x.gap, PrintArg(x.arg) + rest, i);
    SplitAt(s, PrintArg(x.arg), rest, i + |x.gap|);
  }

  /** A whole argument list, up to the text behind the closing parenthesis. */
  lemma {:induction false} ScanArgs(s: string, i: nat, list: seq<SpacedArg>, trail: string, after: string,
                                    token: string, args: seq<string>) returns (end: nat)
    requires CallOk(Call(list, trail)) && OccursAt(s, PrintArgs(list, trail + (")" + after)), i)
    ensures end + |after| == i + |PrintArgs(list, trail + (")" + after))| && OccursAt(s, after, end)
    ensures ScanCode(s, i, token, args) == Scan(Flush(token, args) + Tokens(list), end)
    decreases |list|
  {
    var tail := trail + (")" + after);
    if list == [] {
      end := i + |trail| + 1;
      assert OccursAt(s, after, end) && ScanCode(s, i, token, args) == Scan(Flush(token, args), end) by {
        ScanCallEnd(s, i, trail, after, token, args);
      }
      TokensNil(Flush(token, args));
    } else {
      var x := list[0];
      var next := i + |x.gap| + |PrintArg(x.arg)|;
      CallOkTail(list, trail);
      assert OccursAt(s, PrintArgs(list[1..], tail), next)
          && next + |PrintArgs(list[1..], tail)| == i + |PrintArgs(list, tail)| by {
        ArgsSplit(s, i, list, tail);
      }
      var done := ScanFirstArg(s, i, list, tail, token, args);
      end := ScanArgs(s, next, list[1..], trail, after, Pending(x.arg), done);
      TokensCons(Flush(token, args), list);
    }
  }

  lemma ScanFirstArg(s: string, i: nat, list: seq<SpacedArg>, tail: string, token: string, args: seq<string>)
    returns (done: seq<string>)
    requires list != [] && OccursAt(s, PrintArgs(list, tail), i)
    requires list[0].gap != "" && Blank(list[0].gap) && ArgOk(list[0].arg)
    ensures var x := list[0];
            && i + |x.gap| + |PrintArg(x.arg)| <= |s|
            && ScanCode(s, i, token, args) == ScanCode(s, i + |x.gap| + |PrintArg(x.arg)|, Pending(x.arg), done)
            && Flush(Pending(x.arg), done) == Flush(token, args) + [TokenOf(x.arg)]
  {
    ArgsSplit(s, i, list, tail);
    done := ScanSpacedArg(s, i, list[0], token, args);
  }

  lemma CallOkTail(list: seq<SpacedArg>, trail: string)
    requires list != [] && CallOk(Call(list, trail))
    ensures CallOk(Call(list[1..], trail))
    ensures list[0].gap != "" && Blank(list[0].gap) && ArgOk(list[0].arg)
  {
  }

  lemma TokensNil(done: seq<string>)
    ensures done + Tokens([]) == done
  {
  }

  lemma TokensCons(done: seq<string>, list: seq<SpacedArg>)
    requires list != []
    ensures done + [TokenOf(list[0].arg)] + Tokens(list[1..]) == done + Tokens(list)
  {
  }

  /** In front of a call, the search stops at the call: no occurrence starts in needle-free text,
      not even one that would run into the call itself. */
  lemma FindAtCall(s: string, pos: nat, text: string, needle: string)
    requires NeedleOk(needle) && NeedleFree(text, needle)
    requires OccursAt(s, text, pos) && OccursAt(s, needle, pos + |text|)
    ensures Find(s, needle, pos) == pos + |text|
  {
    FindSpec(s, needle, pos);
    var r := Find(s, needle, pos);
    assert 0 <= r <= pos + |text|;
    if r < pos + |text| {
      if r + |needle| <= pos + |text| {
        OccursInside(s, pos, text, needle, r);
      } else {
        InnerIsNoParen(needle, pos + |text| - r);
      }
      assert false;
    }
  }

  lemma InnerIsNoParen(needle: string, k: nat)
    requires NeedleOk(needle) && 0 < k < |needle|
    ensures needle[k] != '('
  {
    assert needle[k] == needle[1..][k - 1];
  }

  /** An occurrence within a piece of `s` is an occurrence in that piece. */
  lemma OccursInside(s: string, pos: nat, text: string, needle: string, r: nat)
    requires OccursAt(s, text, pos) && OccursAt(s, needle, r) && pos <= r && r + |needle| <= pos + |text|
    ensures OccursAt(text, needle, r - pos)
  {
    forall j | 0 <= j < |needle| ensures text[r - pos + j] == needle[j] {
      assert s[pos + (r - pos + j)] == text[r - pos + j];
      assert s[r + j] == needle[j];
    }
  }

  lemma FindNothing(s: string, pos: nat, text: string, needle: string)
    requires needle != "" && NeedleFree(text, needle) && pos + |text| == |s| && OccursAt(s, text, pos)
    ensures Find(s, needle, pos) < 0
  {
    FindSpec(s, needle, pos);
    var r := Find(s, needle, pos);
    if r >= 0 {
      OccursInside(s, pos, text, needle, r);
    }
  }

  lemma {:induction false} ReadDocument(s: string, pos: nat, d: Document, needle: string)
    requires NeedleOk(needle) && DocumentOk(d, needle)
    requires OccursAt(s, Print(d, needle), pos) && pos + |Print(d, needle)| == |s|
    ensures CallsIn(s, needle, pos) == Arguments(d)
    decreases d
  {
    match d
    case End(text) =>
      FindNothing(s, pos, text, needle);
    case Then(text, c, rest) =>
      var start := EnterCall(s, pos, d, needle);
      var end := ScanArgs(s, start, c.args, c.trail, Print(rest, needle), "", []);
      assert Flush("", []) + Tokens(c.args) == Tokens(c.args);
      ReadDocument(s, end, rest, needle);
  }

  /** The search finds the next printed call, and its arguments lie behind the needle. */
  lemma EnterCall(s: string, pos: nat, d: Document, needle: string) returns (start: nat)
    requires NeedleOk(needle) && d.Then? && NeedleFree(d.text, needle)
    requires OccursAt(s, Print(d, needle), pos)
    ensures Find(s, needle, pos) == pos + |d.text| && start == pos + |d.text| + |needle|
    ensures var body := PrintArgs(d.call.args, d.call.trail + (")" + Print(d.rest, needle)));
            OccursAt(s, body, start) && start + |body| == pos + |Print(d, needle)|
  {
    var body := PrintArgs(d.call.args, d.call.trail + (")" + Print(d.rest, needle)));
    start := pos + |d.text| + |needle|;
    SplitAt(s, d.text, needle + body, pos);
    SplitAt(s, needle, body, pos + |d.text|);
    FindAtCall(s, pos, d.text, needle);
  }

  /** The scanner undoes the printer: every call's arguments come back, in order,
      with nested forms collapsed. */
  lemma ScannerUndoesPrinter(d: Document, needle: string)
    requires NeedleOk(needle) && DocumentOk(d, needle)
    ensures CallsIn(Print(d, needle), needle, 0) == Arguments(d)
  {
    ReadDocument(Print(d, needle), 0, d, needle);
  }

  /** The number of arguments of each printed call. */
  function ArgCounts(d: Document): seq<nat> {
    match d
    case End(_) => []
    case Then(_, c, rest) => [|c.args|] + ArgCounts(rest)
  }

  lemma {:induction false} ArgumentLengths(d: Document)
    ensures Lengths(Arguments(d)) == ArgCounts(d)
  {
    match d
    case End(_) =>
    case Then(_, c, rest) =>
      ArgumentLengths(rest);
      assert Lengths(Arguments(d)) == [|c.args|] + Lengths(Arguments(rest));
  }

  /** The upload arities of a printed text are the numbers of arguments its calls were printed with. */
  lemma UploadAritiesOfPrinted(d: Document, needle: string)
    requires NeedleOk(needle) && DocumentOk(d, needle)
    ensures Lengths(CallsIn(Print(d, needle), needle, 0)) == ArgCounts(d)
  {
    ScannerUndoesPrinter(d, needle);
    ArgumentLengths(d);
  }
}
