/** The call scanners of the CAD helper's Lisp verifier: one recovers the arguments of every
    call that starts with a needle, one counts them. */
module LispCalls {
  import opened Text

  /** The arguments of one call, and the position just behind it. */
  datatype Scan = Scan(args: seq<string>, end: nat)

  // ---------- argument scanner ----------

  /** Outside strings. `token` is the bareword read so far. */
  function ScanCode(s: string, i: nat, token: string, args: seq<string>): (r: Scan)
    requires i <= |s|
    ensures i <= r.end <= |s|
    decreases |s| - i
  {
    if i == |s| then Scan(args, i)
    else if s[i] == '"' then ScanString(s, i + 1, "\"", args)
    else if s[i] == '(' then ScanCode(s, SkipNested(s, i + 1, 1), token, args + ["(...)"])
    else if s[i] == ')' then Scan(Flush(token, args), i + 1)
    else if IsSpace(s[i]) then ScanCode(s, i + 1, "", Flush(token, args))
    else ScanCode(s, i + 1, token + [s[i]], args)
  }

  /** Inside a string literal, whose text so far is `token`. */
  function ScanString(s: string, i: nat, token: string, args: seq<string>): (r: Scan)
    requires i <= |s|
    ensures i <= r.end <= |s|
    decreases |s| - i
  {
    if i == |s| then Scan(args, i)
    else if s[i] == '\\' && i + 1 < |s| then ScanString(s, i + 2, token + [s[i]] + [s[i + 1]], args)
    else if s[i] == '"' then ScanCode(s, i + 1, "", args + [token + [s[i]]])
    else ScanString(s, i + 1, token + [s[i]], args)
  }

  /** The position just behind the `)` that closes `depth` open parentheses; strings are not looked at. */
  function SkipNested(s: string, i: nat, depth: nat): (end: nat)
    requires i <= |s|
    ensures i <= end <= |s|
    decreases |s| - i
  {
    if i == |s| || depth == 0 then i
    else SkipNested(s, i + 1, if s[i] == '(' then depth + 1 else if s[i] == ')' then depth - 1 else depth)
  }

  function Flush(token: string, args: seq<string>): seq<string> {
    if token == "" then args else args + [token]
  }

  function CallsIn(s: string, needle: string, pos: nat): seq<seq<string>>
    requires needle != ""
    decreases |s| - pos
  {
    var idx := Find(s, needle, pos);
    if idx < 0 then []
    else
      var call := ScanCode(s, idx + |needle|, "", []);
      [call.args] + CallsIn(s, needle, call.end)
  }

  /** The index loop over one call, from just behind the needle to just behind the call. */
  method ScanCall(source: string, start: nat) returns (args: seq<string>, i: nat)
    requires start <= |source|
    ensures start <= i <= |source|
    ensures ScanCode(source, start, "", []) == Scan(args, i)
  {
    var n := |source|;
    i := start;
    var depth := 1;
    var inString := false;
    args := [];
    var token := "";
    ghost var scan := ScanCode(source, start, "", []);
    while i < n && depth > 0
      invariant start <= i <= n && 0 <= depth <= 1
      invariant depth == 0 ==> scan == Scan(args, i)
      invariant depth == 1 ==>
        scan == if inString then ScanString(source, i, token, args) else ScanCode(source, i, token, args)
      decreases n - i, depth
    {
      var ch := source[i];
      if inString {
        if ch == '\\' && i + 1 < n {
          token := token + [ch] + [source[i + 1]];
          i := i + 2;
          continue;
        }
        token := token + [ch];
        if ch == '"' {
          inString := false;
          args := args + [token];
          token := "";
        }
        i := i + 1;
        continue;
      }
      if ch == '"' {
        inString := true;
        token := "\"";
        i := i + 1;
        continue;
      }
      if ch == '(' {
        var subDepth := 1;
        i := i + 1;
        ghost var behind := SkipNested(source, i, 1);
        while i < n && subDepth > 0
          invariant start < i <= n && subDepth >= 0
          invariant behind == SkipNested(source, i, subDepth)
          decreases n - i
        {
          var c2 := source[i];
          if c2 == '(' {
            subDepth := subDepth + 1;
          } else if c2 == ')' {
            subDepth := subDepth - 1;
          }
          i := i + 1;
        }
        args := args + ["(...)"];
        continue;
      }
      if ch == ')' {
        depth := depth - 1;
        if token != "" {
          args := args + [token];
          token := "";
        }
        i := i + 1;
        continue;
      }
      if IsSpace(ch) {
        if token != "" {
          args := args + [token];
          token := "";
        }
        i := i + 1;
        continue;
      }
      token := token + [ch];
      i := i + 1;
    }
  }

  method FindHelperUploadCalls(source: string, needle: string) returns (calls: seq<seq<string>>)
    requires needle != ""
    ensures calls == CallsIn(source, needle, 0)
  {
    calls := [];
    var pos := 0;
    while true
      invariant 0 <= pos <= |source|
      invariant CallsIn(source, needle, 0) == calls + CallsIn(source, needle, pos)
      decreases |source| - pos
    {
      var idx := Find(source, needle, pos);
      if idx < 0 {
        break;
      }
      var args, behind := ScanCall(source, idx + |needle|);
      Regroup(calls, args, CallsIn(source, needle, behind));
      calls := calls + [args];
      pos := behind;
    }
  }

  // ---------- arity scanner ----------

  datatype Tally = Tally(count: nat, end: nat)

  function TallyArgs(s: string, i: nat, depth: nat, inString: bool, inArg: bool, count: nat): (r: Tally)
    requires i <= |s|
    ensures i <= r.end <= |s|
    decreases |s| - i
  {
    if i == |s| || depth == 0 then Tally(count, i)
    else if inString then
      if s[i] == '\\' && i + 1 < |s| then TallyArgs(s, i + 2, depth, true, inArg, count)
      else TallyArgs(s, i + 1, depth, s[i] != '"', inArg, count)
    else
      var started := if inArg then count else count + 1;
      if s[i] == '"' then TallyArgs(s, i + 1, depth, true, true, started)
      else if s[i] == '(' then TallyArgs(s, i + 1, depth + 1, false, true, started)
      else if s[i] == ')' then TallyArgs(s, i + 1, depth - 1, false, false, count)
      else if IsSpace(s[i]) then TallyArgs(s, i + 1, depth, false, false, count)
      else TallyArgs(s, i + 1, depth, false, true, started)
  }

  function AritiesIn(s: string, needle: string, pos: nat): seq<nat>
    requires needle != ""
    decreases |s| - pos
  {
    var idx := Find(s, needle, pos);
    if idx < 0 then []
    else
      var call := TallyArgs(s, idx + |needle|, 1, false, false, 0);
      [call.count] + AritiesIn(s, needle, call.end)
  }

  method CountCall(source: string, start: nat) returns (argCount: nat, i: nat)
    requires start <= |source|
    ensures start <= i <= |source|
    ensures TallyArgs(source, start, 1, false, false, 0) == Tally(argCount, i)
  {
    var n := |source|;
    i := start;
    var depth := 1;
    var inString := false;
    argCount := 0;
    var inArg := false;
    while i < n && depth > 0
      invariant start <= i <= n && depth >= 0 && argCount >= 0
      invariant TallyArgs(source, start, 1, false, false, 0)
             == TallyArgs(source, i, depth, inString, inArg, argCount)
      decreases n - i
    {
      var ch := source[i];
      if inString {
        if ch == '\\' && i + 1 < n {
          i := i + 2;
          continue;
        }
        if ch == '"' {
          inString := false;
        }
        i := i + 1;
        continue;
      }
      if ch == '"' {
        inString := true;
        if !inArg {
          argCount := argCount + 1;
          inArg := true;
        }
        i := i + 1;
        continue;
      }
      if ch == '(' {
        depth := depth + 1;
        if !inArg && depth >= 2 {
          argCount := argCount + 1;
          inArg := true;
        }
        i := i + 1;
        continue;
      }
      if ch == ')' {
        depth := depth - 1;
        inArg := false;
        i := i + 1;
        continue;
      }
      if IsSpace(ch) {
        inArg := false;
        i := i + 1;
        continue;
      }
      if !inArg {
        argCount := argCount + 1;
        inArg := true;
      }
      i := i + 1;
    }
  }

  method FindHelperCallArities(source: string, needle: string) returns (arities: seq<nat>)
    requires needle != ""
    ensures arities == AritiesIn(source, needle, 0)
  {
    arities := [];
    var pos := 0;
    while true
      invariant 0 <= pos <= |source|
      invariant AritiesIn(source, needle, 0) == arities + AritiesIn(source, needle, pos)
      decreases |source| - pos
    {
      var idx := Find(source, needle, pos);
      if idx < 0 {
        break;
      }
      var argCount, behind := CountCall(source, idx + |needle|);
      Regroup(arities, argCount, AritiesIn(source, needle, behind));
      arities := arities + [argCount];
      pos := behind;
    }
  }

  /** The upload checker's arities: the lengths of the parsed argument lists. */
  method FindHelperUploadArities(source: string, needle: string) returns (arities: seq<nat>)
    requires needle != ""
    ensures arities == Lengths(CallsIn(source, needle, 0))
  {
    var calls := FindHelperUploadCalls(source, needle);
    arities := Lengths(calls);
  }

  function Lengths(calls: seq<seq<string>>): seq<nat> {
    seq(|calls|, i requires 0 <= i < |calls| => |calls[i]|)
  }
}
