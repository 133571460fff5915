/** Kinds of databases: which database texts have one label. */
module PerfDatabases {
  import opened Text
  import opened PerfReport

  function DbLabel(db: string): string {
    var raw := Strip(db);
    var s := Lower(raw);
    if raw == "" then "-"
    else if StartsWith(s, "sqlite:") then "sqlite"
    else if StartsWith(s, "postgresql") || StartsWith(s, "postgres:") then "postgres"
    else if StartsWith(s, "mysql") then "mysql"
    else if IndexOf(raw, ':') >= 0 then raw[..IndexOf(raw, ':')]
    else raw
  }

  datatype Kind = Unnamed | Sqlite | Postgres | MySql

  /** Case and surrounding blanks aside, the text begins so. */
  predicate Begins(db: string, word: string) {
    StartsWith(Lower(Strip(db)), word)
  }

  predicate IsKind(db: string, k: Kind) {
    match k
    case Unnamed => Blank(db)
    case Sqlite => Begins(db, "sqlite:")
    case Postgres => Begins(db, "postgresql") || Begins(db, "postgres:")
    case MySql => Begins(db, "mysql")
  }

  predicate HasKind(db: string) {
    exists k :: IsKind(db, k)
  }

  /** A text has one kind at most. */
  lemma OneKind(db: string, j: Kind, k: Kind)
    requires IsKind(db, j) && IsKind(db, k)
    ensures j == k
  {
    BlankIsStripped(db);
    var s := Lower(Strip(db));
    assert Begins(db, "sqlite:") ==> s[..7][0] == 's';
    assert Begins(db, "postgresql") ==> s[..10][0] == 'p';
    assert Begins(db, "postgres:") ==> s[..9][0] == 'p';
    assert Begins(db, "mysql") ==> s[..5][0] == 'm';
  }

  function Word(k: Kind): string {
    match k
    case Unnamed => "-"
    case Sqlite => "sqlite"
    case Postgres => "postgres"
    case MySql => "mysql"
  }

  lemma WordsDiffer(j: Kind, k: Kind)
    requires j != k
    ensures Word(j) != Word(k)
  {
    assert Word(j)[0] != Word(k)[0];
  }

  lemma KindLabel(db: string, k: Kind)
    requires IsKind(db, k)
    ensures DbLabel(db) == Word(k)
  {
    BlankIsStripped(db);
    forall j | IsKind(db, j) ensures j == k {
      OneKind(db, j, k);
    }
    assert IsKind(db, Sqlite) ==> k == Sqlite;
    assert IsKind(db, Postgres) ==> k == Postgres;
    assert IsKind(db, MySql) ==> k == MySql;
  }

  /** Databases are compared with each other if and only if they are of one kind, however the kind is written. */
  lemma KindsApart(a: string, b: string, j: Kind, k: Kind)
    requires IsKind(a, j) && IsKind(b, k)
    ensures DbLabel(a) == DbLabel(b) <==> j == k
  {
    KindLabel(a, j);
    KindLabel(b, k);
    if j != k {
      WordsDiffer(j, k);
    }
  }

  // ---------- any other text ----------

  /** What stands before the first colon. */
  function Scheme(s: string): string {
    if s == "" || s[0] == ':' then "" else [s[0]] + Scheme(s[1..])
  }

  lemma {:induction false} SchemeEnds(s: string)
    ensures Scheme(s) == if IndexOf(s, ':') >= 0 then s[..IndexOf(s, ':')] else s
  {
    if s != "" && s[0] != ':' {
      SchemeEnds(s[1..]);
      assert s == [s[0]] + s[1..];
    }
  }

  predicate IsOther(db: string) {
    !HasKind(db)
  }

  lemma OtherLabel(db: string)
    requires IsOther(db)
    ensures DbLabel(db) == Scheme(Strip(db))
  {
    BlankIsStripped(db);
    SchemeEnds(Strip(db));
    assert !IsKind(db, Unnamed) && !IsKind(db, Sqlite) && !IsKind(db, Postgres) && !IsKind(db, MySql);
  }

  /** Other texts are compared by what stands before their colon, which may also be the word of a kind. */
  lemma OthersByScheme(a: string, b: string, k: Kind)
    requires IsOther(a)
    ensures IsOther(b) ==> (DbLabel(a) == DbLabel(b) <==> Scheme(Strip(a)) == Scheme(Strip(b)))
    ensures IsKind(b, k) ==> (DbLabel(a) == DbLabel(b) <==> Scheme(Strip(a)) == Word(k))
  {
    OtherLabel(a);
    if IsOther(b) {
      OtherLabel(b);
    }
    if IsKind(b, k) {
      KindLabel(b, k);
    }
  }
}
