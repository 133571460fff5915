/** The performance report: its lines as written, and the gate's reader of them. */
module PerfReport {
  import opened Options
  import opened Text
  import opened Digits
  import opened Duration

  /** One measured scenario; durations are seconds, never negative. */
  datatype Result = Result(name: string, target: string, measured: Option<real>, status: string, notes: string)

  datatype ScenarioRow = ScenarioRow(name: string, measured: string, status: string)

  datatype Report = Report(started: string, git: string, db: string, scenarios: map<string, ScenarioRow>)

  predicate Measurable(r: Result) {
    r.measured.Some? ==> r.measured.value >= 0.0
  }

  // ---------- writing ----------

  function MeasuredText(r: Result): string
    requires Measurable(r)
  {
    if r.measured.Some? then FormatDuration(r.measured.value) else "-"
  }

  /** A table line of five cells. */
  function RowText(name: string, target: string, measured: string, status: string, notes: string): string {
    "| " + (name + (" | " + (target + (" | " + (measured + (" | " + (status + (" | " + (notes + " |")))))))))
  }

  const HEADER := RowText("Scenario", "Target", "Measured", "Status", "Notes")
  const SEPARATOR := "| --- | --- | --- | --- | --- |"

  function ResultLine(r: Result): string
    requires Measurable(r)
  {
    RowText(r.name, r.target, MeasuredText(r), r.status, Strip(Replace(r.notes, '\n', ' ')))
  }

  function ResultLines(results: seq<Result>): seq<string>
    requires forall k :: 0 <= k < |results| ==> Measurable(results[k])
  {
    seq(|results|, k requires 0 <= k < |results| => ResultLine(results[k]))
  }

  function CountStatus(results: seq<Result>, status: string): nat {
    if results == [] then 0
    else CountStatus(results[..|results| - 1], status) + if results[|results| - 1].status == status then 1 else 0
  }

  function Heading(started: string, ended: string, duration: nat, git: string, db: string): seq<string> {
    ["# Phase 5 Reports/Search Performance Report", "",
     "- Started: `" + (started + "`"), "- Ended: `" + (ended + "`"), "- Duration: `" + (Show(duration) + "s`"),
     "- Git: `" + (git + "`"), "- DB: `" + (db + "`"), "", "## Results", "", HEADER, SEPARATOR]
  }

  function Closing(results: seq<Result>): seq<string> {
    ["", "## Summary", "", "- PASS: " + Show(CountStatus(results, "PASS")), "- FAIL: " + Show(CountStatus(results, "FAIL")),
     "", "## Notes", "", "- Measurements use p95 across repeated runs to reduce noise.",
     "- This harness runs in-process SQLAlchemy against a local SQLite database by default.", ""]
  }

  method WriteReport(results: seq<Result>, db: string, started: string, ended: string, duration: nat, git: string)
    returns (lines: seq<string>)
    requires forall k :: 0 <= k < |results| ==> Measurable(results[k])
    ensures lines == Heading(started, ended, duration, git, db) + ResultLines(results) + Closing(results)
  {
    lines := HeadingLines(started, ended, duration, git, db);
    ghost var heading := lines;
    for k := 0 to |results|
      invariant lines == heading + ResultLines(results)[..k]
    {
      var r := results[k];
      var measured := if r.measured.Some? then FormatDuration(r.measured.value) else "-";
      var notes := Strip(Replace(r.notes, '\n', ' '));
      assert ResultLines(results)[k] == RowText(r.name, r.target, measured, r.status, notes);
      lines := lines + [RowText(r.name, r.target, measured, r.status, notes)];
    }
    assert ResultLines(results)[..|results|] == ResultLines(results);
    var closing := ClosingLines(results);
    lines := lines + closing;
  }

  /** The lines in front of the results. */
  method HeadingLines(started: string, ended: string, duration: nat, git: string, db: string) returns (lines: seq<string>)
    ensures lines == Heading(started, ended, duration, git, db)
  {
    lines := ["# Phase 5 Reports/Search Performance Report", "",
              "- Started: `" + (started + "`"), "- Ended: `" + (ended + "`"), "- Duration: `" + (Show(duration) + "s`"),
              "- Git: `" + (git + "`"), "- DB: `" + (db + "`"), "", "## Results", "",
              RowText("Scenario", "Target", "Measured", "Status", "Notes"), "| --- | --- | --- | --- | --- |"];
  }

  /** The lines behind the results. */
  method ClosingLines(results: seq<Result>) returns (lines: seq<string>)
    ensures lines == Closing(results)
  {
    var passCount, failCount := CountStatus(results, "PASS"), CountStatus(results, "FAIL");
    lines := ["", "## Summary", "", "- PASS: " + Show(passCount), "- FAIL: " + Show(failCount),
              "", "## Notes", "", "- Measurements use p95 across repeated runs to reduce noise.",
              "- This harness runs in-process SQLAlchemy against a local SQLite database by default.", ""];
  }

  ghost function WithStatus(results: seq<Result>, status: string): set<int> {
    set k: int | 0 <= k < |results| && results[k].status == status
  }

  /** The figures at the end are the numbers of results with the two statuses. */
  lemma {:induction false} StatusCounted(results: seq<Result>, status: string)
    ensures CountStatus(results, status) == |WithStatus(results, status)|
  {
    if results == [] {
      assert WithStatus(results, status) == {};
    } else {
      var n := |results| - 1;
      StatusCounted(results[..n], status);
      assert WithStatus(results, status) == WithStatus(results[..n], status) + if results[n].status == status then {n} else {};
    }
  }

  // ---------- reading ----------

  predicate StartsWith(s: string, prefix: string) {
    |s| >= |prefix| && s[..|prefix|] == prefix
  }

  /** The text between backquotes behind a fixed beginning, if the line holds nothing else but blanks. */
  function Tagged(line: string, prefix: string): Option<string> {
    if !StartsWith(line, prefix) then None
    else
      var rest := line[|prefix|..];
      var j := IndexOf(rest, '`');
      if j > 0 && Blank(rest[j + 1..]) then Some(rest[..j]) else None
  }

  lemma {:induction false} QuoteBehind(x: string, back: string)
    requires '`' !in x
    ensures IndexOf(x + "`" + back, '`') == |x|
  {
    if x != "" {
      assert (x + "`" + back)[1..] == x[1..] + "`" + back;
      QuoteBehind(x[1..], back);
    }
  }

  /** A line is tagged if behind the beginning come one or more other characters, a backquote, and nothing but blanks. */
  lemma TaggedIff(line: string, prefix: string, x: string)
    ensures Tagged(line, prefix) == Some(x) <==>
              x != "" && '`' !in x && exists back :: Blank(back) && line == prefix + x + "`" + back
  {
    if Tagged(line, prefix) == Some(x) {
      var rest := line[|prefix|..];
      var back := rest[|x| + 1..];
      assert line == prefix + rest && rest == x + "`" + back;
      assert line == prefix + x + "`" + back;
    }
    if x != "" && '`' !in x {
      hide Tagged;
      forall back | Blank(back) && line == prefix + x + "`" + back ensures Tagged(line, prefix) == Some(x) {
        TaggedLine(line, prefix, x, back);
      }
    }
  }

  lemma TaggedLine(line: string, prefix: string, x: string, back: string)
    requires Blank(back) && line == prefix + x + "`" + back && x != "" && '`' !in x
    ensures Tagged(line, prefix) == Some(x)
  {
    var rest := line[|prefix|..];
    assert rest == x + "`" + back;
    QuoteBehind(x, back);
    assert rest[..|x|] == x && rest[|x| + 1..] == back;
  }

  function StripBarsLeft(s: string): string {
    if s != "" && s[0] == '|' then StripBarsLeft(s[1..]) else s
  }

  function StripBarsRight(s: string): string {
    if s != "" && s[|s| - 1] == '|' then StripBarsRight(s[..|s| - 1]) else s
  }

  /** Python's `s.split("|")`. */
  function Split(s: string): (cells: seq<string>)
    ensures cells != []
    decreases |s|
  {
    var j := IndexOf(s, '|');
    if j < 0 then [s] else [s[..j]] + Split(s[j + 1..])
  }

  /** The stripped cells of a table line. */
  function Cells(line: string): seq<string> {
    var cells := Split(StripBarsRight(StripBarsLeft(Strip(line))));
    seq(|cells|, k requires 0 <= k < |cells| => Strip(cells[k]))
  }

  datatype Reader = Reader(started: string, git: string, db: string, scenarios: map<string, ScenarioRow>,
                           inTable: bool, ended: bool)

  const FRESH := Reader("", "", "", map[], false, false)

  function ReadCells(r: Reader, cols: seq<string>): Reader {
    if |cols| < 5 || cols[0] == "" then r
    else r.(scenarios := r.scenarios[cols[0] := ScenarioRow(cols[0], if cols[2] != "" then cols[2] else "-",
                                                            if cols[3] != "" then cols[3] else "UNKNOWN")])
  }

  /** The table part of the reader: the header opens the table, the first other line ends it. */
  function ReadTableLine(r: Reader, line: string): Reader {
    if Strip(line) == HEADER then r.(inTable := true)
    else if !r.inTable then r
    else if !StartsWith(Strip(line), "|") then r.(ended := true)
    else if StartsWith(Strip(line), "| ---") then r
    else ReadCells(r, Cells(line))
  }

  function ReadLine(r: Reader, line: string): Reader {
    if r.ended then r
    else if r.started == "" && Tagged(line, "- Started: `").Some? then
      r.(started := Strip(Tagged(line, "- Started: `").value))
    else if r.git == "" && Tagged(line, "- Git: `").Some? then r.(git := Strip(Tagged(line, "- Git: `").value))
    else if r.db == "" && Tagged(line, "- DB: `").Some? then r.(db := Strip(Tagged(line, "- DB: `").value))
    else ReadTableLine(r, line)
  }

  function ReadLines(r: Reader, lines: seq<string>): Reader {
    if lines == [] then r else ReadLine(ReadLines(r, lines[..|lines| - 1]), lines[|lines| - 1])
  }

  /** The report a reader ends with; `stem` is the file's name. */
  function Finish(r: Reader, stem: string): Option<Report> {
    if r.scenarios == map[] then None
    else Some(Report(if r.started != "" then r.started else stem, r.git, r.db, r.scenarios))
  }

  method ParseReport(lines: seq<string>, stem: string) returns (report: Option<Report>)
    ensures report == Finish(ReadLines(FRESH, lines), stem)
  {
    hide Tagged;
    hide Cells;
    hide StartsWith;
    hide Strip;
    hide RowText;
    var started, git, db := "", "", "";
    var scenarios: map<string, ScenarioRow> := map[];
    var inTable := false;
    ghost var ended := false;
    var i := 0;
    while i < |lines|
      invariant 0 <= i <= |lines|
      invariant !ended && ReadLines(FRESH, lines[..i]) == Reader(started, git, db, scenarios, inTable, ended)
    {
      var line := lines[i];
      i := i + 1;
      assert lines[..i][..i - 1] == lines[..i - 1];
      if started == "" {
        var m := Tagged(line, "- Started: `");
        if m.Some? {
          started := Strip(m.value);
          continue;
        }
      }
      if git == "" {
        var m := Tagged(line, "- Git: `");
        if m.Some? {
          git := Strip(m.value);
          continue;
        }
      }
      if db == "" {
        var m := Tagged(line, "- DB: `");
        if m.Some? {
          db := Strip(m.value);
          continue;
        }
      }
      if Strip(line) == HEADER {
        inTable := true;
        continue;
      }
      if !inTable {
        continue;
      }
      if !StartsWith(Strip(line), "|") {
        EndedStays(FRESH, lines, i, |lines|);
        ended := true;
        break;
      }
      if StartsWith(Strip(line), "| ---") {
        continue;
      }
      var cols := Cells(line);
      if |cols| < 5 || cols[0] == "" {
        continue;
      }
      var measured := if cols[2] != "" then cols[2] else "-";
      var status := if cols[3] != "" then cols[3] else "UNKNOWN";
      scenarios := scenarios[cols[0] := ScenarioRow(cols[0], measured, status)];
    }
    assert lines[..|lines|] == lines;
    assert ReadLines(FRESH, lines) == Reader(started, git, db, scenarios, inTable, ended);
    if started == "" {
      started := stem;
    }
    if scenarios == map[] {
      return None;
    }
    report := Some(Report(started, git, db, scenarios));
  }

  lemma {:induction false} EndedStays(r: Reader, lines: seq<string>, i: nat, n: nat)
    requires i <= n <= |lines| && ReadLines(r, lines[..i]).ended
    ensures ReadLines(r, lines[..n]) == ReadLines(r, lines[..i])
  {
    if i < n {
      EndedStays(r, lines, i, n - 1);
      assert lines[..n][..n - 1] == lines[..n - 1];
    }
  }
}
