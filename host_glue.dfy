/**
 * The phpMyAdmin glue at the end of soar.php: how the analyzer is told which
 * database to use (a DSN built from the server settings, or a side file when
 * the password would break the DSN), and get_analyzed_sql(), which glues a
 * parsed statement's tokens back together.
 */
module PmaHost {
  import opened Wrappers
  import opened PhpStrings
  import opened SoarBridge

  /** The phpMyAdmin server settings soar.php reads, all as text. */
  datatype Server = Server(host: string, user: string, password: string, port: string)

  /** `$port ?: '3306'`: the empty string and "0" are falsy, so they fall back to 3306. */
  function EffectivePort(port: string): (p: string)
    ensures p != "" && p != "0"
    ensures port != "" && port != "0" ==> p == port
    ensures port == "" || port == "0" ==> p == "3306"
  {
    if port == "" || port == "0" then "3306" else port
  }

  /** preg_match('/[@:\/]/', $pwd): the password holds a character that delimits a DSN. */
  predicate NeedsSideFile(password: string) {
    '@' in password || ':' in password || '/' in password
  }

  /** "user:pwd@host:port/db" */
  function InlineDsn(user: string, password: string, host: string, port: string, db: string): string {
    user + ":" + password + "@" + host + ":" + port + "/" + db
  }

  /** The soar.yaml text that names the test database. */
  function SideFileContent(host: string, port: string, db: string, user: string, password: string): string {
    "test-dsn:\n  addr: '" + host + ":" + port + "'\n  schema: '" + db + "'\n  user: '" + user
    + "'\n  password: '" + password + "'\n  disable: false"
  }

  /** How the analyzer learns the database: a side file to write, or a DSN option. */
  datatype DsnSetup = SideFile(content: string) | Inline(dsn: string)

  function ChooseDsn(server: Server, db: string): (d: DsnSetup)
    ensures d.SideFile? <==> NeedsSideFile(server.password)
    ensures d.SideFile? ==> d.content == SideFileContent(server.host, EffectivePort(server.port), db, server.user, server.password)
    ensures d.Inline? ==> d.dsn == InlineDsn(server.user, server.password, server.host, EffectivePort(server.port), db)
  {
    var port := EffectivePort(server.port);
    if NeedsSideFile(server.password) then SideFile(SideFileContent(server.host, port, db, server.user, server.password))
    else Inline(InlineDsn(server.user, server.password, server.host, port, db))
  }

  /** The options the analyzer is built with: none for a side file, the DSN otherwise. */
  function SetupOptions(d: DsnSetup): Options {
    match d
    case SideFile(_) => []
    case Inline(dsn) => [("test-dsn", dsn)]
  }

  /**
   * Not part of soar.php, which only builds DSNs: the model's own reader,
   * used to state that a built DSN carries its settings. It reads a DSN the
   * way it is laid out: the user up to the first ':', the
   * password up to the next '@', the host up to the next ':', the port up to
   * the next '/', and the rest is the database.
   */
  function ParseDsn(dsn: string): (string, string, string, string, string) {
    var (user, r1) := SplitAtFirst(dsn, ':');
    var (password, r2) := SplitAtFirst(r1, '@');
    var (host, r3) := SplitAtFirst(r2, ':');
    var (port, db) := SplitAtFirst(r3, '/');
    (user, password, host, port, db)
  }

  /**
   * The inline DSN is only used for passwords without '@', ':' and '/', and
   * for those it reads back as the settings it was built from.
   */
  lemma InlineDsnRoundTrip(user: string, password: string, host: string, port: string, db: string)
    requires ':' !in user && ':' !in host && '/' !in port
    requires !NeedsSideFile(password)
    ensures ParseDsn(InlineDsn(user, password, host, port, db)) == (user, password, host, port, db)
  {
    var r3 := port + "/" + db;
    var r2 := host + ":" + r3;
    var r1 := password + "@" + r2;
    assert InlineDsn(user, password, host, port, db) == user + [':'] + r1;
    SplitAtFirstOf(user, ':', r1);
    assert r1 == password + ['@'] + r2;
    SplitAtFirstOf(password, '@', r2);
    assert r2 == host + [':'] + r3;
    SplitAtFirstOf(host, ':', r3);
    assert r3 == port + ['/'] + db;
    SplitAtFirstOf(port, '/', db);
  }

  /**
   * Whenever the inline form is chosen, and the user, host and port hold no
   * delimiter of their own, the DSN names exactly the server settings, with
   * the port after its 3306 fallback, and the database.
   */
  lemma ChooseDsnReadsBack(server: Server, db: string)
    requires !NeedsSideFile(server.password)
    requires ':' !in server.user && ':' !in server.host && '/' !in EffectivePort(server.port)
    ensures ChooseDsn(server, db).Inline?
    ensures ParseDsn(ChooseDsn(server, db).dsn)
         == (server.user, server.password, server.host, EffectivePort(server.port), db)
  {
    InlineDsnRoundTrip(server.user, server.password, server.host, EffectivePort(server.port), db);
  }

  /**
   * The glue run in a phpMyAdmin request: pick the DSN set-up, then build the
   * analyzer with the matching options. The side file's text is returned for
   * the caller to write.
   */
  method HostSetup(binary: string, server: Server, db: string) returns (soar: Soar, sideFile: Option<string>)
    ensures fresh(soar) && soar.Valid()
    ensures sideFile.Some? <==> NeedsSideFile(server.password)
    ensures sideFile.Some? ==> sideFile.value == SideFileContent(server.host, EffectivePort(server.port), db, server.user, server.password)
    ensures soar.config == Merge(Defaults, SetupOptions(ChooseDsn(server, db)))
    ensures soar.cmd == binary + " " + FlagString(soar.config)
  {
    var setup := ChooseDsn(server, db);
    match setup {
      case SideFile(content) =>
        sideFile := Some(content);
        soar := new Soar(binary, []);
      case Inline(dsn) =>
        sideFile := None;
        soar := new Soar(binary, [("test-dsn", dsn)]);
    }
  }

  // ---------------------------------------------------------------------
  // get_analyzed_sql($sqlParser)
  // ---------------------------------------------------------------------

  /** The texts of the tokens that are not null, in order; null tokens add nothing. */
  function TokensText(tokens: seq<Option<string>>): string {
    if tokens == [] then ""
    else TokensText(tokens[..|tokens| - 1]) + tokens[|tokens| - 1].GetOr("")
  }

  /** foreach token: append its text unless it is null. */
  method AnalyzedSql(tokens: seq<Option<string>>) returns (sql: string)
    ensures sql == TokensText(tokens)
  {
    sql := "";
    for i := 0 to |tokens|
      invariant sql == TokensText(tokens[..i])
    {
      assert tokens[..i + 1][..i] == tokens[..i];
      if tokens[i].Some? {
        sql := sql + tokens[i].value;
      }
    }
    assert tokens[..|tokens|] == tokens;
  }

  /** The text of two token runs is the text of the first followed by that of the second. */
  lemma {:induction false} TokensTextAppend(a: seq<Option<string>>, b: seq<Option<string>>)
    ensures TokensText(a + b) == TokensText(a) + TokensText(b)
    decreases |b|
  {
    if b == [] {
      assert a + b == a;
    } else {
      var b' := b[..|b| - 1];
      assert (a + b)[..|a + b| - 1] == a + b';
      TokensTextAppend(a, b');
      assert TokensText(a + b) == (TokensText(a) + TokensText(b')) + b[|b| - 1].GetOr("");
    }
  }

  /** A null token anywhere leaves the text as if it were not there. */
  lemma NullTokenIgnored(a: seq<Option<string>>, b: seq<Option<string>>)
    ensures TokensText(a + [None] + b) == TokensText(a + b)
  {
    TokensTextAppend(a + [None], b);
    TokensTextAppend(a, [None]);
    TokensTextAppend(a, b);
    var none: seq<Option<string>> := [None];
    assert none[..0] == [];
    assert TokensText(none) == "";
  }
}
