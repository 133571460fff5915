/** Reading a written report back. */
module PerfRoundTrip {
  import opened Options
  import opened Text
  import opened Digits
  import opened Duration
  import opened PerfReport

  // ---------- cells of a table line ----------

  lemma {:induction false} FirstBar(cell: string, rest: string)
    requires '|' !in cell
    ensures IndexOf(cell + "|" + rest, '|') == |cell|
  {
    if cell != "" {
      assert (cell + "|" + rest)[1..] == cell[1..] + "|" + rest;
      FirstBar(cell[1..], rest);
    }
  }

  lemma SplitCell(s: string, cell: string, rest: string)
    requires '|' !in cell && s == cell + "|" + rest
    ensures Split(s) == [cell] + Split(rest)
  {
    FirstBar(cell, rest);
    assert s[..|cell|] == cell && s[|cell| + 1..] == rest;
  }

  /** A cell text with the blanks the writer puts around it. */
  function Spaced(cell: string): string {
    " " + cell + " "
  }

  function Inner(name: string, target: string, measured: string, status: string, notes: string): string {
    Spaced(name) + "|" + (Spaced(target) + "|" + (Spaced(measured) + "|" + (Spaced(status) + "|" + Spaced(notes))))
  }

  lemma RowIsBarredInner(name: string, target: string, measured: string, status: string, notes: string)
    ensures RowText(name, target, measured, status, notes) == "|" + Inner(name, target, measured, status, notes) + "|"
  {
    var tail := " | " + (status + (" | " + (notes + " |")));
    assert tail == " |" + Spaced(status) + "|" + Spaced(notes) + "|";
    var middle := " | " + (target + (" | " + (measured + tail)));
    assert middle == " |" + Spaced(target) + "|" + Spaced(measured) + "|" + (Spaced(status) + "|" + Spaced(notes)) + "|";
  }

  lemma InnerCells(name: string, target: string, measured: string, status: string, notes: string)
    requires '|' !in name && '|' !in target && '|' !in measured && '|' !in status
    ensures var cells := Split(Inner(name, target, measured, status, notes));
            && |cells| >= 5 && cells[0] == Spaced(name) && cells[2] == Spaced(measured) && cells[3] == Spaced(status)
  {
    var s3 := Spaced(status) + "|" + Spaced(notes);
    var s2 := Spaced(measured) + "|" + s3;
    var s1 := Spaced(target) + "|" + s2;
    SplitCell(s3, Spaced(status), Spaced(notes));
    SplitCell(s2, Spaced(measured), s3);
    SplitCell(s1, Spaced(target), s2);
    SplitCell(Inner(name, target, measured, status, notes), Spaced(name), s1);
  }

  lemma StripBars(inner: string)
    requires inner != "" && inner[0] != '|' && inner[|inner| - 1] != '|'
    ensures StripBarsRight(StripBarsLeft("|" + inner + "|")) == inner
  {
    var s := "|" + inner + "|";
    assert s[1..] == inner + "|";
    assert StripBarsLeft(s) == s[1..];
    assert (inner + "|")[..|inner|] == inner;
  }

  lemma RowCells(name: string, target: string, measured: string, status: string, notes: string)
    requires '|' !in name && '|' !in target && '|' !in measured && '|' !in status
    requires Trimmed(name) && Trimmed(measured) && Trimmed(status)
    ensures var line := RowText(name, target, measured, status, notes);
            && Strip(line) == line && line[0] == '|'
            && |Cells(line)| >= 5 && Cells(line)[0] == name && Cells(line)[2] == measured && Cells(line)[3] == status
  {
    var line, inner := RowText(name, target, measured, status, notes), Inner(name, target, measured, status, notes);
    RowIsBarredInner(name, target, measured, status, notes);
    assert line[0] == '|' && line[|line| - 1] == '|';
    StripTrimmed(line);
    InnerEnds(name, target, measured, status, notes);
    StripBars(inner);
    InnerCells(name, target, measured, status, notes);
    StripPad(" ", name, " ");
    StripPad(" ", measured, " ");
    StripPad(" ", status, " ");
  }

  /** The columns the reader takes its values from are headed so. */
  lemma HeaderCells()
    ensures Cells(HEADER)[..1] == ["Scenario"] && |Cells(HEADER)| >= 5
    ensures Cells(HEADER)[2] == "Measured" && Cells(HEADER)[3] == "Status"
  {
    hide Cells;
    hide Strip;
    RowCells("Scenario", "Target", "Measured", "Status", "Notes");
    hide RowText;
  }

  lemma InnerEnds(name: string, target: string, measured: string, status: string, notes: string)
    ensures var inner := Inner(name, target, measured, status, notes);
            inner != "" && inner[0] == ' ' && inner[|inner| - 1] == ' '
  {
    var s3 := Spaced(status) + "|" + Spaced(notes);
    assert s3[|s3| - 1] == ' ';
  }

  // ---------- which results are read back ----------

  /** A result the table can carry: a trimmed name without a bar, which is not taken for the separator
      line, and bar-free target and trimmed status. */
  predicate ResultOk(r: Result) {
    && Measurable(r)
    && r.name != "" && Trimmed(r.name) && '|' !in r.name && !StartsWith(r.name, "---")
    && '|' !in r.target
    && r.status != "" && Trimmed(r.status) && '|' !in r.status
  }

  /** A text that can stand between backquotes and survive stripping. */
  predicate TagOk(s: string) {
    Trimmed(s) && '`' !in s
  }

  lemma MeasuredTextShape(r: Result)
    requires Measurable(r)
    ensures var m := MeasuredText(r);
            m != "" && Trimmed(m) && '|' !in m && (m[0] == '-' || IsDigit(m[0]))
  {
    if r.measured.Some? {
      var x := r.measured.value;
      if x < 1.0 {
        DecimalShape(Round(x * 10000.0), 10, 1);
      } else {
        DecimalShape(Round(x * 1000.0), 1000, 3);
      }
    }
  }

  lemma DecimalShape(n: nat, scale: nat, places: nat)
    requires scale > 0
    ensures var d := Decimal(n, scale, places);
            d != "" && IsDigit(d[0]) && forall k :: 0 <= k < |d| ==> IsDigit(d[k]) || d[k] == '.'
  {
    var whole, part := Show(n / scale), Padded(n % scale, places);
    var d := whole + "." + part;
    forall k | 0 <= k < |d| ensures IsDigit(d[k]) || d[k] == '.' {
      if k > |whole| {
        assert d[k] == part[k - |whole| - 1];
      }
    }
  }

  /** No result line is the header or the separator, and none is taken for a tagged line. */
  lemma ResultLineKind(r: Result)
    requires ResultOk(r)
    ensures var line := ResultLine(r);
            && Strip(line) == line && line != HEADER && StartsWith(line, "|") && !StartsWith(line, "| ---")
            && |Cells(line)| >= 5 && Cells(line)[0] == r.name && Cells(line)[2] == MeasuredText(r) && Cells(line)[3] == r.status
  {
    var line := ResultLine(r);
    MeasuredTextShape(r);
    RowCells(r.name, r.target, MeasuredText(r), r.status, Strip(Replace(r.notes, '\n', ' ')));
    RowCells("Scenario", "Target", "Measured", "Status", "Notes");
    NameNotSeparator(r.name, r.target, MeasuredText(r), r.status, Strip(Replace(r.notes, '\n', ' ')));
  }

  lemma NameNotSeparator(name: string, target: string, measured: string, status: string, notes: string)
    requires !StartsWith(name, "---")
    ensures var line := RowText(name, target, measured, status, notes);
            StartsWith(line, "|") && !StartsWith(line, "| ---")
  {
    var rest := " | " + (target + (" | " + (measured + (" | " + (status + (" | " + (notes + " |")))))));
    var line, mark := RowText(name, target, measured, status, notes), "| ---";
    assert line == "| " + (name + rest);
    if |name| >= 3 {
      assert line[..5][2..] == name[..3];
      assert mark[2..] == "---";
    } else {
      assert line[..5][2 + |name|] == rest[0] == ' ';
      assert mark[2 + |name|] == '-';
    }
  }

  // ---------- the lines around the table ----------

  const STARTED := "- Started: `"
  const GIT := "- Git: `"
  const DB := "- DB: `"

  lemma {:induction false} FirstQuote(x: string)
    requires '`' !in x
    ensures IndexOf(x + "`", '`') == |x|
  {
    if x != "" {
      assert (x + "`")[1..] == x[1..] + "`";
      FirstQuote(x[1..]);
    }
  }

  lemma TaggedText(line: string, prefix: string, x: string)
    requires line == prefix + (x + "`") && '`' !in x
    ensures Tagged(line, prefix) == if x == "" then None else Some(x)
  {
    FirstQuote(x);
    assert line[..|prefix|] == prefix && line[|prefix|..] == x + "`";
    assert (x + "`")[..|x|] == x && (x + "`")[|x| + 1..] == "";
  }

  lemma NotTagged(line: string, prefix: string, k: nat)
    requires k < |prefix| && (k < |line| ==> line[k] != prefix[k])
    ensures Tagged(line, prefix) == None
  {
    if |line| >= |prefix| {
      assert line[..|prefix|][k] == line[k];
    }
  }

  /** A line that is none of the tagged ones. */
  predicate Plain(line: string) {
    Tagged(line, STARTED) == None && Tagged(line, GIT) == None && Tagged(line, DB) == None
  }

  lemma PlainByFirst(line: string)
    requires line == "" || line[0] != '-'
    ensures Plain(line)
  {
    NotTagged(line, STARTED, 0);
    NotTagged(line, GIT, 0);
    NotTagged(line, DB, 0);
  }

  /** A plain line before the table, not starting with a bar, is passed over. */
  lemma Skipped(r: Reader, line: string)
    requires !r.inTable && Plain(line) && Trimmed(line) && (line == "" || line[0] != '|')
    ensures ReadLine(r, line) == r
  {
    StripTrimmed(line);
    assert HEADER[0] == '|';
  }

  lemma {:induction false} ReadLinesConcat(r: Reader, a: seq<string>, b: seq<string>)
    ensures ReadLines(r, a + b) == ReadLines(ReadLines(r, a), b)
  {
    if b == [] {
      assert a + b == a;
    } else {
      assert (a + b)[..|a + b| - 1] == a + b[..|b| - 1];
      ReadLinesConcat(r, a, b[..|b| - 1]);
    }
  }

  lemma ReadOne(r: Reader, line: string)
    ensures ReadLines(r, [line]) == ReadLine(r, line)
  {
    assert [line][..0] == [];
    assert ReadLines(r, []) == r;
  }

  lemma {:induction false} SkippedAll(r: Reader, lines: seq<string>)
    requires forall k :: 0 <= k < |lines| ==> ReadLine(r, lines[k]) == r
    ensures ReadLines(r, lines) == r
  {
    if lines != [] {
      SkippedAll(r, lines[..|lines| - 1]);
    }
  }

  /** The two lines between the start and the git line carry no tag the reader looks for. */
  lemma PlainBetween(ended: string, duration: nat)
    ensures var e, d := "- Ended: `" + (ended + "`"), "- Duration: `" + (Show(duration) + "s`");
            Plain(e) && Trimmed(e) && e[0] == '-' && Plain(d) && Trimmed(d) && d[0] == '-'
  {
    var e, d := "- Ended: `" + (ended + "`"), "- Duration: `" + (Show(duration) + "s`");
    assert e[0] == '-' && e[2] == 'E' && e[|e| - 1] == '`';
    assert d[0] == '-' && d[2] == 'D' && d[3] == 'u' && d[|d| - 1] == '`';
    NotTagged(e, STARTED, 2);
    NotTagged(e, GIT, 2);
    NotTagged(e, DB, 2);
    NotTagged(d, STARTED, 2);
    NotTagged(d, GIT, 2);
    NotTagged(d, DB, 3);
  }

  lemma ReadTitle(title: string)
    requires title != "" && title[0] == '#' && title[|title| - 1] == 't'
    ensures ReadLines(FRESH, [title, ""]) == FRESH
  {
    PlainByFirst(title);
    PlainByFirst("");
    Skipped(FRESH, title);
    Skipped(FRESH, "");
    SkippedAll(FRESH, [title, ""]);
  }

  /** The title and the line with the start. */
  lemma ReadStart(started: string)
    requires TagOk(started) && started != ""
    ensures ReadLines(FRESH, ["# Phase 5 Reports/Search Performance Report", "", STARTED + (started + "`")])
         == FRESH.(started := started)
  {
    var title, line := "# Phase 5 Reports/Search Performance Report", STARTED + (started + "`");
    ReadTitle(title);
    TaggedText(line, STARTED, started);
    StripTrimmed(started);
    ReadOne(FRESH, line);
    ReadLinesConcat(FRESH, [title, ""], [line]);
    assert [title, "", line] == [title, ""] + [line];
  }

  /** A git line sets the git text, a database line the database text; with nothing between the quotes
      they leave the reader as it is. */
  lemma ReadGit(r: Reader, git: string)
    requires !r.ended && !r.inTable && r.started != "" && r.git == "" && r.db == "" && TagOk(git)
    ensures ReadLine(r, GIT + (git + "`")) == r.(git := git)
  {
    var line := GIT + (git + "`");
    assert line[0] == '-' && line[2] == 'G' && line[|line| - 1] == '`';
    TaggedText(line, GIT, git);
    NotTagged(line, DB, 2);
    NotTagged(line, STARTED, 2);
    StripTrimmed(git);
    if git == "" {
      Skipped(r, line);
    }
  }

  lemma ReadDb(r: Reader, db: string)
    requires !r.ended && !r.inTable && r.started != "" && r.db == "" && TagOk(db)
    ensures ReadLine(r, DB + (db + "`")) == r.(db := db)
  {
    var line := DB + (db + "`");
    assert line[0] == '-' && line[2] == 'D' && line[|line| - 1] == '`';
    TaggedText(line, DB, db);
    NotTagged(line, GIT, 2);
    NotTagged(line, STARTED, 2);
    StripTrimmed(db);
    if db == "" {
      Skipped(r, line);
    }
  }

  /** The reader in front of the first result line. */
  function AtTable(started: string, git: string, db: string): Reader {
    Reader(started, git, db, map[], true, false)
  }

  lemma ReadSectionLines(r: Reader)
    requires !r.ended && !r.inTable
    ensures ReadLines(r, ["", "## Results", ""]) == r
  {
    var results := "## Results";
    PlainByFirst("");
    PlainByFirst(results);
    assert results[|results| - 1] == 's';
    Skipped(r, "");
    Skipped(r, results);
    SkippedAll(r, ["", results, ""]);
  }

  lemma ReadHeader(r: Reader)
    requires !r.ended && !r.inTable
    ensures ReadLine(r, HEADER) == r.(inTable := true)
  {
    HeaderEnds();
    PlainByFirst(HEADER);
  }

  lemma ReadTableHead(r: Reader)
    requires !r.ended && !r.inTable
    ensures ReadLines(r, ["", "## Results", ""] + [HEADER] + [SEPARATOR]) == r.(inTable := true)
  {
    var header, separator := HEADER, SEPARATOR;
    ReadSectionLines(r);
    ReadHeader(r);
    ReadOne(r, header);
    SeparatorSkipped(r.(inTable := true));
    ReadOne(r.(inTable := true), separator);
    ReadThree(r, ["", "## Results", ""], [header], [separator]);
  }

  lemma HeaderEnds()
    ensures Strip(HEADER) == HEADER && Strip(SEPARATOR) == SEPARATOR && HEADER != SEPARATOR
    ensures StartsWith(SEPARATOR, "|") && StartsWith(SEPARATOR, "| ---")
  {
    assert HEADER[0] == '|' && HEADER[|HEADER| - 1] == '|' && HEADER[2] == 'S';
    assert SEPARATOR[0] == '|' && SEPARATOR[|SEPARATOR| - 1] == '|' && SEPARATOR[2] == '-';
    StripTrimmed(HEADER);
    StripTrimmed(SEPARATOR);
    assert SEPARATOR[..1] == "|";
    assert SEPARATOR[..5] == "| ---";
  }

  lemma SeparatorSkipped(r: Reader)
    requires r.inTable
    ensures ReadLine(r, SEPARATOR) == r
  {
    HeaderEnds();
    PlainByFirst(SEPARATOR);
  }

  /** The lines up to the duration. */
  lemma ReadTop(started: string, ended: string, duration: nat)
    requires TagOk(started) && started != ""
    ensures ReadLines(FRESH, ["# Phase 5 Reports/Search Performance Report", "", STARTED + (started + "`")]
                             + ["- Ended: `" + (ended + "`"), "- Duration: `" + (Show(duration) + "s`")])
         == FRESH.(started := started)
  {
    var top := ["# Phase 5 Reports/Search Performance Report", "", STARTED + (started + "`")];
    var between := ["- Ended: `" + (ended + "`"), "- Duration: `" + (Show(duration) + "s`")];
    var r := FRESH.(started := started);
    ReadStart(started);
    PlainBetween(ended, duration);
    Skipped(r, between[0]);
    Skipped(r, between[1]);
    SkippedAll(r, between);
    ReadLinesConcat(FRESH, top, between);
  }

  lemma ReadTags(r: Reader, git: string, db: string)
    requires !r.ended && !r.inTable && r.started != "" && r.git == "" && r.db == "" && TagOk(git) && TagOk(db)
    ensures ReadLines(r, [GIT + (git + "`")] + [DB + (db + "`")]) == r.(git := git, db := db)
  {
    ReadGit(r, git);
    ReadOne(r, GIT + (git + "`"));
    ReadDb(r.(git := git), db);
    ReadOne(r.(git := git), DB + (db + "`"));
    ReadLinesConcat(r, [GIT + (git + "`")], [DB + (db + "`")]);
  }

  lemma ReadThree(r: Reader, a: seq<string>, b: seq<string>, c: seq<string>)
    ensures ReadLines(r, a + b + c) == ReadLines(ReadLines(ReadLines(r, a), b), c)
  {
    ReadLinesConcat(r, a, b);
    ReadLinesConcat(r, a + b, c);
  }

  lemma HeadingParts(started: string, ended: string, duration: nat, git: string, db: string)
    ensures Heading(started, ended, duration, git, db)
         == (["# Phase 5 Reports/Search Performance Report", "", STARTED + (started + "`")]
             + ["- Ended: `" + (ended + "`"), "- Duration: `" + (Show(duration) + "s`")])
            + ([GIT + (git + "`")] + [DB + (db + "`")]) + (["", "## Results", ""] + [HEADER] + [SEPARATOR])
  {
  }

  lemma ReadHeading(started: string, ended: string, duration: nat, git: string, db: string)
    requires TagOk(started) && started != "" && TagOk(git) && TagOk(db)
    ensures ReadLines(FRESH, Heading(started, ended, duration, git, db)) == AtTable(started, git, db)
  {
    HeadingParts(started, ended, duration, git, db);
    ReadTop(started, ended, duration);
    var r := FRESH.(started := started);
    ReadTags(r, git, db);
    ReadTableHead(r.(git := git, db := db));
    ReadThree(FRESH, ["# Phase 5 Reports/Search Performance Report", "", STARTED + (started + "`")]
                     + ["- Ended: `" + (ended + "`"), "- Duration: `" + (Show(duration) + "s`")],
              [GIT + (git + "`")] + [DB + (db + "`")], ["", "## Results", ""] + [HEADER] + [SEPARATOR]);
  }

  // ---------- the table ----------

  function Row(r: Result): ScenarioRow
    requires Measurable(r)
  {
    ScenarioRow(r.name, MeasuredText(r), r.status)
  }

  /** The rows by name; of several results with one name the last counts. */
  function ScenarioMap(results: seq<Result>): map<string, ScenarioRow>
    requires forall k :: 0 <= k < |results| ==> Measurable(results[k])
  {
    if results == [] then map[]
    else
      var last := results[|results| - 1];
      ScenarioMap(results[..|results| - 1])[last.name := Row(last)]
  }

  predicate AllOk(results: seq<Result>) {
    forall k :: 0 <= k < |results| ==> ResultOk(results[k])
  }

  lemma ReadResult(r: Reader, result: Result)
    requires ResultOk(result) && r.inTable && !r.ended
    ensures ReadLine(r, ResultLine(result)) == r.(scenarios := r.scenarios[result.name := Row(result)])
  {
    var line := ResultLine(result);
    ResultLineKind(result);
    assert line[0] == line[..1][0] == '|';
    PlainByFirst(line);
    MeasuredTextShape(result);
  }

  lemma {:induction false} ReadResults(started: string, git: string, db: string, results: seq<Result>)
    requires AllOk(results)
    ensures ReadLines(AtTable(started, git, db), ResultLines(results))
         == AtTable(started, git, db).(scenarios := ScenarioMap(results))
  {
    if results != [] {
      var front, last := results[..|results| - 1], results[|results| - 1];
      ReadResults(started, git, db, front);
      assert ResultLines(results)[..|results| - 1] == ResultLines(front);
      ReadResult(AtTable(started, git, db).(scenarios := ScenarioMap(front)), last);
    }
  }

  /** The empty line behind the table ends the reading, whatever follows. */
  lemma ReadClosing(r: Reader, lines: seq<string>)
    requires r.inTable && !r.ended && lines != [] && lines[0] == ""
    ensures ReadLines(r, lines) == r.(ended := true)
  {
    PlainByFirst("");
    assert HEADER[0] == '|';
    assert ReadLine(r, "") == r.(ended := true);
    assert lines[..1] == [""];
    ReadOne(r, "");
    EndedStays(r, lines, 1, |lines|);
    assert lines[..|lines|] == lines;
  }

  lemma ReadBody(r: Reader, heading: seq<string>, started: string, git: string, db: string, results: seq<Result>,
                 closing: seq<string>)
    requires AllOk(results) && ReadLines(r, heading) == AtTable(started, git, db)
    requires closing != [] && closing[0] == ""
    ensures ReadLines(r, heading + ResultLines(results) + closing)
         == Reader(started, git, db, ScenarioMap(results), true, true)
  {
    ReadResults(started, git, db, results);
    ReadClosing(AtTable(started, git, db).(scenarios := ScenarioMap(results)), closing);
    ReadThree(r, heading, ResultLines(results), closing);
  }

  /** Reading a written report recovers its start, git and database texts, and for every scenario the
      measured text and the status; the last of several results with one name counts. */
  lemma ReadsBack(results: seq<Result>, started: string, ended: string, duration: nat, git: string, db: string, stem: string)
    requires results != [] && AllOk(results)
    requires TagOk(started) && started != "" && TagOk(git) && TagOk(db)
    ensures Finish(ReadLines(FRESH, Heading(started, ended, duration, git, db) + ResultLines(results) + Closing(results)), stem)
         == Some(Report(started, git, db, ScenarioMap(results)))
  {
    ReadHeading(started, ended, duration, git, db);
    ReadBody(FRESH, Heading(started, ended, duration, git, db), started, git, db, results, Closing(results));
    assert results[|results| - 1].name in ScenarioMap(results);
  }

  predicate DistinctNames(results: seq<Result>) {
    forall i, j :: 0 <= i < j < |results| ==> results[i].name != results[j].name
  }

  /** With distinct names every result has its own row, and there are no others. */
  lemma {:induction false} RowPerName(results: seq<Result>)
    requires DistinctNames(results) && forall k :: 0 <= k < |results| ==> Measurable(results[k])
    ensures forall k :: 0 <= k < |results| ==>
              results[k].name in ScenarioMap(results) && ScenarioMap(results)[results[k].name] == Row(results[k])
    ensures ScenarioMap(results).Keys == set k | 0 <= k < |results| :: results[k].name
  {
    if results != [] {
      var front, last := results[..|results| - 1], results[|results| - 1];
      RowPerName(front);
      forall name | name in (set k | 0 <= k < |results| :: results[k].name) ensures name in ScenarioMap(results) {
        var k :| 0 <= k < |results| && results[k].name == name;
        assert k < |front| ==> front[k].name == name;
      }
      forall name | name in ScenarioMap(results) ensures name in (set k | 0 <= k < |results| :: results[k].name) {
        if name == last.name {
          assert results[|results| - 1].name == name;
        } else {
          assert name in ScenarioMap(front);
          var k :| 0 <= k < |front| && front[k].name == name;
          assert results[k].name == name;
        }
      }
      forall k | 0 <= k < |results|
        ensures results[k].name in ScenarioMap(results) && ScenarioMap(results)[results[k].name] == Row(results[k])
      {
        if k < |front| {
          assert front[k] == results[k] && results[k].name != last.name;
        }
      }
    }
  }
}
