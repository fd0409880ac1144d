// What a client gets for the text it sends: the dispatch read off the text in whatever case
// it is written, and the answers that do not depend on stored rows.
module QueryTexts {
  import opened Common
  import opened Values
  import opened SelectHandler
  import opened TableData
  import opened Store
  import opened Session
  import opened SessionRuns

  // ---------- Letters in any case ----------

  /** The words of the query, one space apart, in the case they were written in. */
  function Spaced(host: Host, query: string): string {
    JoinWith(" ", Fields(host.space, query))
  }

  /** The text begins with the letters of `p`, in any case. */
  predicate Begins(host: Host, text: string, p: string) {
    |p| <= |text| && forall k :: 0 <= k < |p| ==> host.upper(text[k]) == p[k]
  }

  /** The text is `p`, in any case. */
  predicate Spells(host: Host, text: string, p: string) {
    |p| == |text| && Begins(host, text, p)
  }

  /** The text has `p` in it, in any case. */
  predicate Has(host: Host, text: string, p: string) {
    exists i :: 0 <= i <= |text| && Begins(host, text[i..], p)
  }

  lemma UpperBegins(host: Host, text: string, p: string)
    ensures Begins(host, text, p) <==> p <= ToUpper(host, text)
    ensures Spells(host, text, p) <==> p == ToUpper(host, text)
  {
    var upper := ToUpper(host, text);
    assert forall k :: 0 <= k < |text| ==> upper[k] == host.upper(text[k]);
    if Begins(host, text, p) {
      assert p == upper[..|p|];
    }
  }

  lemma UpperHas(host: Host, text: string, p: string)
    ensures Has(host, text, p) <==> Contains(ToUpper(host, text), p)
  {
    hide Begins;
    forall i | 0 <= i <= |text|
      ensures Begins(host, text[i..], p) <==> p <= ToUpper(host, text)[i..]
    {
      UpperBegins(host, text[i..], p);
      assert ToUpper(host, text)[i..] == ToUpper(host, text[i..]);
    }
  }

  /** Queries whose words differ in case only take the same route. */
  lemma CaseIsIrrelevant(host: Host, query: string, other: string)
    requires var a, b := Spaced(host, query), Spaced(host, other);
             |a| == |b| && forall k :: 0 <= k < |a| ==> host.upper(a[k]) == host.upper(b[k])
    ensures RouteOf(Normalize(host, query)) == RouteOf(Normalize(host, other))
  {
    hide RouteOf;
    assert Normalize(host, query) == Normalize(host, other);
  }

  // ---------- The route of a text ----------

  predicate AsksForDatabase(host: Host, text: string) {
    Spells(host, text, "SELECT DATABASE()") || Spells(host, text, "SELECT DATABASE() AS `DATABASE()`")
  }

  /** One of the questions dump tools ask. */
  predicate AsksForSchema(host: Host, text: string) {
    || Begins(host, text, "SHOW CREATE TABLE") || Begins(host, text, "SHOW TABLE STATUS")
    || Begins(host, text, "SHOW FIELDS") || Begins(host, text, "SHOW COLUMNS")
    || Begins(host, text, "SHOW KEYS") || Begins(host, text, "SHOW INDEX") || Begins(host, text, "SHOW VARIABLES")
    || (&& Begins(host, text, "SELECT") && !AsksForDatabase(host, text) && !Has(host, text, "VERSION")
        && (Has(host, text, "INFORMATION_SCHEMA") || Has(host, text, "@@COLLATION_DATABASE")))
  }

  /** A query of this text asks for this route; said of each route by itself, in no order. */
  ghost predicate Asks(host: Host, text: string, route: Route) {
    match route
    case ShowDatabases => Spells(host, text, "SHOW DATABASES") || Spells(host, text, "SHOW SCHEMAS")
    case ShowTables => Begins(host, text, "SHOW TABLES")
    case SelectDatabase => AsksForDatabase(host, text)
    case SelectVersion => Begins(host, text, "SELECT") && Has(host, text, "VERSION") && !AsksForDatabase(host, text)
    case Use => Begins(host, text, "USE ")
    case Describe => Begins(host, text, "DESCRIBE ") || Begins(host, text, "DESC ")
    case Introspection => AsksForSchema(host, text)
    case SelectRows =>
      && Begins(host, text, "SELECT") && !AsksForDatabase(host, text) && !Has(host, text, "VERSION")
      && !Has(host, text, "INFORMATION_SCHEMA") && !Has(host, text, "@@COLLATION_DATABASE")
    case _ => exists p :: p in WritePrefixes(route) && Begins(host, text, p)
  }

  predicate IsSchemaShow(upper: string) {
    || "SHOW CREATE TABLE" <= upper || "SHOW TABLE STATUS" <= upper
    || "SHOW FIELDS" <= upper || "SHOW COLUMNS" <= upper
    || "SHOW KEYS" <= upper || "SHOW INDEX" <= upper || "SHOW VARIABLES" <= upper
  }

  lemma NoShow(upper: string)
    requires !("SHOW" <= upper)
    ensures !IsSchemaShow(upper) && !("SHOW TABLES" <= upper) && upper !in {"SHOW DATABASES", "SHOW SCHEMAS"}
  {
    assert |upper| >= 4 ==> upper[..4] != "SHOW";
  }

  lemma UpperSelect(upper: string)
    requires "SELECT" <= upper
    ensures RouteOf(upper)
         == if upper == "SELECT DATABASE()" || upper == "SELECT DATABASE() AS `DATABASE()`" then SelectDatabase
            else if Contains(upper, "VERSION") then SelectVersion
            else if Contains(upper, "INFORMATION_SCHEMA") || Contains(upper, "@@COLLATION_DATABASE") then Introspection
            else SelectRows
  {
    hide Contains, WriteRouteOf;
    assert upper[0] == 'S' && upper[1] == 'E';
    NoShow(upper);
  }

  lemma WriteRange(upper: string)
    ensures WriteRouteOf(upper) == Ignored || WritePrefixes(WriteRouteOf(upper)) != {}
  {
  }

  lemma NoWriteBeginsWithS(route: Route, p: string)
    requires p in WritePrefixes(route)
    ensures p != "" && p[0] != 'S'
  {
  }

  lemma NoWrite(upper: string)
    requires upper != [] && upper[0] == 'S'
    ensures WriteRouteOf(upper) == Ignored
  {
    hide WriteRouteOf, WritePrefixes;
    WriteRange(upper);
    if WriteRouteOf(upper) != Ignored {
      var p := WriteText(upper);
      NoWriteBeginsWithS(WriteRouteOf(upper), p);
    }
  }

  lemma UpperShow(upper: string)
    requires "SHOW" <= upper
    ensures RouteOf(upper)
         == if upper == "SHOW DATABASES" || upper == "SHOW SCHEMAS" then ShowDatabases
            else if "SHOW TABLES" <= upper then ShowTables
            else if IsSchemaShow(upper) then Introspection
            else Ignored
  {
    hide Contains, WriteRouteOf;
    assert upper[0] == 'S' && upper[1] == 'H';
    NoWrite(upper);
  }

  lemma UpperUse(upper: string)
    requires "USE " <= upper
    ensures RouteOf(upper) == Use
  {
    assert upper[0] == 'U';
    NoShow(upper);
  }

  lemma UpperDescribe(upper: string)
    requires "DESCRIBE " <= upper || "DESC " <= upper
    ensures RouteOf(upper) == Describe
  {
    assert upper[0] == 'D';
    NoShow(upper);
  }

  lemma UpperOther(upper: string)
    requires !("SELECT" <= upper) && !("SHOW" <= upper) && !("USE " <= upper)
    requires !("DESCRIBE " <= upper) && !("DESC " <= upper)
    ensures RouteOf(upper) == WriteRouteOf(upper)
  {
    hide Contains, WriteRouteOf;
    NoShow(upper);
    assert upper !in {"SELECT DATABASE()", "SELECT DATABASE() AS `DATABASE()`"} by {
      assert |upper| >= 6 ==> upper[..6] != "SELECT";
    }
  }

  predicate UpperAsksForDatabase(upper: string) {
    upper == "SELECT DATABASE()" || upper == "SELECT DATABASE() AS `DATABASE()`"
  }

  predicate UpperAsksForSchema(upper: string) {
    || IsSchemaShow(upper)
    || (&& "SELECT" <= upper && !UpperAsksForDatabase(upper) && !Contains(upper, "VERSION")
        && (Contains(upper, "INFORMATION_SCHEMA") || Contains(upper, "@@COLLATION_DATABASE")))
  }

  ghost predicate UpperAsks(upper: string, route: Route) {
    match route
    case ShowDatabases => upper == "SHOW DATABASES" || upper == "SHOW SCHEMAS"
    case ShowTables => "SHOW TABLES" <= upper
    case SelectDatabase => UpperAsksForDatabase(upper)
    case SelectVersion => "SELECT" <= upper && Contains(upper, "VERSION") && !UpperAsksForDatabase(upper)
    case Use => "USE " <= upper
    case Describe => "DESCRIBE " <= upper || "DESC " <= upper
    case Introspection => UpperAsksForSchema(upper)
    case SelectRows =>
      && "SELECT" <= upper && !UpperAsksForDatabase(upper) && !Contains(upper, "VERSION")
      && !Contains(upper, "INFORMATION_SCHEMA") && !Contains(upper, "@@COLLATION_DATABASE")
    case _ => StartsAsWrite(upper, route)
  }

  /** What the first letters rule out. */
  lemma Beginnings(upper: string)
    ensures "SELECT" <= upper ==> upper[..2] == "SE" && !("SHOW" <= upper)
    ensures "SHOW" <= upper ==> upper[..2] == "SH"
    ensures IsSchemaShow(upper) || "SHOW TABLES" <= upper ==> "SHOW" <= upper
    ensures upper in {"SHOW DATABASES", "SHOW SCHEMAS"} ==> "SHOW" <= upper
    ensures UpperAsksForDatabase(upper) ==> "SELECT" <= upper
    ensures "USE " <= upper || "DESCRIBE " <= upper || "DESC " <= upper ==> upper[0] != 'S'
    ensures !("USE " <= upper && ("DESCRIBE " <= upper || "DESC " <= upper))
  {
    if "SELECT" <= upper || "SHOW" <= upper {
      assert upper[..2] == [upper[0], upper[1]];
    }
    if !("SHOW" <= upper) {
      NoShow(upper);
    }
    assert upper == "SELECT DATABASE()" ==> upper[..6] == "SELECT";
    assert upper == "SELECT DATABASE() AS `DATABASE()`" ==> upper[..6] == "SELECT";
  }

  lemma SchemaShowLetters(upper: string)
    requires IsSchemaShow(upper)
    ensures |upper| > 5 && upper[5] in {'C', 'F', 'K', 'I', 'V', 'T'}
    ensures upper[5] == 'T' ==> |upper| > 10 && upper[10] == ' '
  {
  }

  lemma OtherShowLetters(upper: string)
    ensures upper in {"SHOW DATABASES", "SHOW SCHEMAS"} ==> upper[5] in {'D', 'S'}
    ensures "SHOW TABLES" <= upper ==> upper[5] == 'T' && upper[10] == 'S'
  {
  }

  lemma ShowsApart(upper: string)
    ensures upper in {"SHOW DATABASES", "SHOW SCHEMAS"} ==> !("SHOW TABLES" <= upper) && !IsSchemaShow(upper)
    ensures "SHOW TABLES" <= upper ==> !IsSchemaShow(upper)
  {
    OtherShowLetters(upper);
    hide IsSchemaShow;
    if IsSchemaShow(upper) {
      SchemaShowLetters(upper);
    }
  }

  lemma ReadRoutes(upper: string, route: Route)
    requires route != Ignored && WritePrefixes(route) == {}
    ensures RouteOf(upper) == route <==> UpperAsks(upper, route)
  {
    hide RouteOf, IsSchemaShow, Contains, WriteRouteOf;
    Beginnings(upper);
    if "SELECT" <= upper {
      UpperSelect(upper);
    } else if "SHOW" <= upper {
      UpperShow(upper);
      ShowsApart(upper);
    } else if "USE " <= upper {
      UpperUse(upper);
    } else if "DESCRIBE " <= upper || "DESC " <= upper {
      UpperDescribe(upper);
    } else {
      UpperOther(upper);
      WriteRange(upper);
    }
  }

  lemma LettersInUpperCase(host: Host, text: string)
    ensures forall p :: Begins(host, text, p) <==> p <= ToUpper(host, text)
    ensures forall p :: Spells(host, text, p) <==> p == ToUpper(host, text)
    ensures forall p :: Has(host, text, p) <==> Contains(ToUpper(host, text), p)
  {
    hide Begins, Spells, Has, Contains, ToUpper;
    forall p
      ensures Begins(host, text, p) <==> p <= ToUpper(host, text)
      ensures Spells(host, text, p) <==> p == ToUpper(host, text)
      ensures Has(host, text, p) <==> Contains(ToUpper(host, text), p)
    {
      UpperBegins(host, text, p);
      UpperHas(host, text, p);
    }
  }

  lemma DatabaseInUpperCase(host: Host, text: string)
    ensures AsksForDatabase(host, text) <==> UpperAsksForDatabase(ToUpper(host, text))
  {
    hide Begins, Spells, Has, Contains, ToUpper;
    LettersInUpperCase(host, text);
  }

  lemma SchemaInUpperCase(host: Host, text: string)
    ensures AsksForSchema(host, text) <==> UpperAsksForSchema(ToUpper(host, text))
  {
    hide Begins, Spells, Has, Contains, ToUpper, AsksForDatabase, UpperAsksForDatabase;
    LettersInUpperCase(host, text);
    DatabaseInUpperCase(host, text);
  }

  lemma AsksInUpperCase(host: Host, text: string, route: Route)
    ensures Asks(host, text, route) <==> UpperAsks(ToUpper(host, text), route)
  {
    hide Begins, Spells, Has, Contains, ToUpper, WritePrefixes;
    hide AsksForDatabase, UpperAsksForDatabase, AsksForSchema, UpperAsksForSchema;
    LettersInUpperCase(host, text);
    DatabaseInUpperCase(host, text);
    SchemaInUpperCase(host, text);
  }

  lemma UpperAsksWrite(upper: string, route: Route)
    requires WritePrefixes(route) != {}
    ensures UpperAsks(upper, route) <==> StartsAsWrite(upper, route)
  {
  }

  /** Each route is taken by exactly the queries whose text asks for it, in whatever case it
      is written: the order of the cases in the dispatch plays no part. Queries that ask for
      none are ignored. */
  lemma TextDecidesTheRoute(host: Host, query: string, route: Route)
    ensures route != Ignored ==> (RouteOf(Normalize(host, query)) == route <==> Asks(host, Spaced(host, query), route))
    ensures RouteOf(Normalize(host, query)) == Ignored
       <==> forall other :: other != Ignored ==> !Asks(host, Spaced(host, query), other)
  {
    hide RouteOf, Asks, UpperAsks, WritePrefixes;
    var upper := Normalize(host, query);
    forall other | other != Ignored
      ensures RouteOf(upper) == other <==> Asks(host, Spaced(host, query), other)
    {
      AsksInUpperCase(host, Spaced(host, query), other);
      if WritePrefixes(other) != {} {
        WritesReachTheirHandler(upper, other);
        UpperAsksWrite(upper, other);
      } else {
        ReadRoutes(upper, other);
      }
    }
    assert RouteOf(upper) != Ignored ==> Asks(host, Spaced(host, query), RouteOf(upper));
  }

  // ---------- Writes, in any case ----------

  /** The statements the server must refuse. */
  const WRITES: set<string> := {
    "CREATE DATABASE", "CREATE SCHEMA", "CREATE TABLE", "CREATE TEMPORARY TABLE", "DROP DATABASE", "DROP SCHEMA",
    "DROP TABLE", "DROP TEMPORARY TABLE", "TRUNCATE", "DELETE", "INSERT", "REPLACE", "UPDATE", "ALTER",
    "RENAME TABLE", "GRANT", "REVOKE"
  }

  lemma EveryWriteIsListed(p: string) returns (route: Route)
    requires p in WRITES
    ensures p in WritePrefixes(route)
  {
    route :=
      if p in {"CREATE DATABASE", "CREATE SCHEMA"} then CreateDatabase
      else if p in {"CREATE TABLE", "CREATE TEMPORARY TABLE"} then CreateTable
      else if p in {"DROP DATABASE", "DROP SCHEMA"} then DropDatabase
      else if p in {"DROP TABLE", "DROP TEMPORARY TABLE"} then DropTable
      else if p == "TRUNCATE" then Truncate
      else if p == "DELETE" then Delete
      else if p in {"INSERT", "REPLACE"} then Insert
      else if p == "UPDATE" then Update
      else if p == "ALTER" then Alter
      else if p == "RENAME TABLE" then Rename
      else Grant;
  }

  /** A query that begins as a write statement, in any case, is answered with an error and
      moves the session nowhere. */
  lemma WritesInAnyCaseAreRefused(
    host: Host, pre: Sess, query: string, stmt: Stmt, p: string, reply: Reply, post: Sess)
    requires p in WRITES && Begins(host, Spaced(host, query), p)
    requires QueryAnswers(host, pre, query, stmt, reply, post)
    ensures reply.Err? && post == pre
  {
    hide QueryAnswers, WritePrefixes;
    var route := EveryWriteIsListed(p);
    UpperBegins(host, Spaced(host, query), p);
    ListedWritesAreRefused(host, pre, query, stmt, route, reply, post);
  }

  /** The statement, of the kind the route is for, names this table as the one it writes. */
  predicate NamesTable(route: Route, stmt: Stmt, t: TableName) {
    || (route == DropTable && stmt.DropTableStmt? && [t] <= stmt.tables)
    || (route == Truncate && stmt == TruncateStmt(Some(t)))
    || (route == Delete && stmt == DeleteStmt(Some(t)))
    || (route == Insert && stmt == InsertStmt(Some(t)))
    || (route == Update && stmt == UpdateStmt(Some(t)))
    || (route == Alter && stmt == AlterTableStmt(Some(t)))
    || (route == Rename && stmt.RenameTableStmt? && [t] <= stmt.olds)
  }

  lemma NamedTableIsTarget(route: Route, stmt: Stmt, t: TableName)
    requires NamesTable(route, stmt, t)
    ensures Target(route, stmt) == (t.schema, t.name)
    ensures route in {DropTable, Truncate, Delete, Insert, Update, Alter, Rename}
  {
    assert [t] <= [t];
  }

  /** A write is checked against the table its statement names, in the database it names or
      else the selected one: the three errors, and when each is due. */
  lemma WritesAnswerForTheirTable(
    host: Host, pre: Sess, query: string, stmt: Stmt, route: Route, t: TableName, reply: Reply, post: Sess)
    requires Asks(host, Spaced(host, query), route) && NamesTable(route, stmt, t) && t.name != ""
    requires QueryAnswers(host, pre, query, stmt, reply, post) && reply != Err(Backend)
    ensures var db := if t.schema == "" then pre.currentDB else t.schema;
            && post == pre
            && (reply == Err(NoDatabaseSelected) <==> db == "")
            && (reply == Err(AccessDenied(pre.user, db)) <==> db != "" && TableListed(host, pre.data, db, t.name))
            && (reply == Err(UnknownTable(t.name, db)) <==> db != "" && !TableListed(host, pre.data, db, t.name))
  {
    hide Asks, RouteOf, Normalize, TableListed, UseTarget, Target, NamesTable;
    hide UseAnswers, ShowDatabasesAnswers, ShowTablesAnswers, SelectAnswers, DescribeAnswers;
    TextDecidesTheRoute(host, query, route);
    NamedTableIsTarget(route, stmt, t);
  }

  /** The statement names a database, and no table. */
  predicate NamesDatabase(route: Route, stmt: Stmt, db: string) {
    || (route == Alter && stmt == AlterDatabaseStmt(db))
    || (route == Grant && (stmt == GrantStmt(Some(db)) || stmt == RevokeStmt(Some(db))))
  }

  lemma NamedDatabaseIsTarget(route: Route, stmt: Stmt, db: string)
    requires NamesDatabase(route, stmt, db)
    ensures Target(route, stmt) == (db, "") && route in {Alter, Grant}
  {
  }

  lemma CreateAndDropTargets(db: string)
    ensures Target(CreateDatabase, CreateDatabaseStmt(db)) == Target(DropDatabase, DropDatabaseStmt(db)) == (db, "")
  {
  }

  /** What is written about a database is denied for the database named. */
  lemma DatabaseWritesAreDenied(
    host: Host, pre: Sess, query: string, stmt: Stmt, route: Route, db: string, reply: Reply, post: Sess)
    requires Asks(host, Spaced(host, query), route) && QueryAnswers(host, pre, query, stmt, reply, post)
    requires || (db != "" && NamesDatabase(route, stmt, db))
             || (route == CreateDatabase && stmt == CreateDatabaseStmt(db))
             || (route == DropDatabase && stmt == DropDatabaseStmt(db))
    ensures reply == Err(AccessDenied(pre.user, db))
  {
    hide Asks, RouteOf, Normalize, TableListed, UseTarget, Target, NamesDatabase;
    hide UseAnswers, ShowDatabasesAnswers, ShowTablesAnswers, SelectAnswers, DescribeAnswers;
    TextDecidesTheRoute(host, query, route);
    if NamesDatabase(route, stmt, db) {
      NamedDatabaseIsTarget(route, stmt, db);
    } else {
      CreateAndDropTargets(db);
    }
  }

  /** Creating a table is denied for the database named or selected, if one is selected. */
  lemma CreateTableIsDenied(
    host: Host, pre: Sess, query: string, stmt: Stmt, t: TableName, reply: Reply, post: Sess)
    requires Asks(host, Spaced(host, query), CreateTable) && QueryAnswers(host, pre, query, stmt, reply, post)
    requires stmt == CreateTableStmt(Some(t))
    ensures reply == Err(if pre.currentDB == "" then NoDatabaseSelected
                         else AccessDenied(pre.user, if t.schema == "" then pre.currentDB else t.schema))
  {
    hide Asks, RouteOf, Normalize, TableListed, UseTarget;
    hide UseAnswers, ShowDatabasesAnswers, ShowTablesAnswers, SelectAnswers, DescribeAnswers;
    TextDecidesTheRoute(host, query, CreateTable);
  }

  lemma NothingParsed(route: Route)
    ensures Target(route, ParseError) == ("", "")
  {
  }

  /** A write the parser made nothing of is denied for the selected database, if there is one,
      and a statement about a database for none. */
  lemma UnparsedWritesAreDenied(host: Host, pre: Sess, query: string, route: Route, reply: Reply, post: Sess)
    requires Asks(host, Spaced(host, query), route) && QueryAnswers(host, pre, query, ParseError, reply, post)
    requires WritePrefixes(route) != {}
    ensures reply == Err(if route in {CreateDatabase, DropDatabase} then AccessDenied(pre.user, "")
                         else if pre.currentDB == "" then NoDatabaseSelected
                         else AccessDenied(pre.user, pre.currentDB))
  {
    hide Asks, RouteOf, Normalize, TableListed, UseTarget, Target;
    hide UseAnswers, ShowDatabasesAnswers, ShowTablesAnswers, SelectAnswers, DescribeAnswers;
    TextDecidesTheRoute(host, query, route);
    NothingParsed(route);
  }

  // ---------- USE and the session's own questions ----------

  /** The database a USE query asks for is its second word, in the case it was written in and
      without a semicolon at its end; what follows plays no part. */
  lemma UseNamesItsSecondWord(host: Host, words: seq<string>)
    requires host.space(' ')
    requires forall k :: 0 <= k < |words| ==> words[k] != [] && forall c :: c in words[k] ==> !host.space(c)
    ensures var db := UseTarget(host, JoinWith(" ", words));
            && (|words| < 2 ==> db == "")
            && (|words| >= 2 && words[1][|words[1]| - 1] != ';' ==> db == words[1])
            && (|words| >= 2 && words[1][|words[1]| - 1] == ';' ==> db + ";" == words[1])
  {
    WordsSurviveJoining(host.space, words);
  }

  /** A member who asks to use a database is told so, and from then on has it selected. */
  lemma UseSelects(host: Host, pre: Sess, query: string, stmt: Stmt, reply: Reply, post: Sess)
    requires Asks(host, Spaced(host, query), Use) && UseTarget(host, query) != ""
    requires QueryAnswers(host, pre, query, stmt, reply, post) && reply != Err(Backend)
    ensures var db := UseTarget(host, query);
            if pre.user in MembersAt(pre.data, UsersKey(db)) then reply == Ok(Done) && post == pre.(currentDB := db)
            else reply == Err(AccessDenied(pre.user, db)) && post == pre
  {
    hide Asks, RouteOf, Normalize, UseTarget, UsersKey;
    TextDecidesTheRoute(host, query, Use);
  }

  /** What a session answers about itself and its server. */
  lemma SessionAnswers(host: Host, pre: Sess, query: string, stmt: Stmt, route: Route, reply: Reply, post: Sess)
    requires Asks(host, Spaced(host, query), route) && QueryAnswers(host, pre, query, stmt, reply, post)
    ensures route == SelectDatabase && pre.currentDB != "" ==>
      post == pre && reply == Ok(Rows(["DATABASE()"], [[Text(pre.currentDB)]]))
    ensures route == SelectDatabase && pre.currentDB == "" ==>
      post == pre && reply == Ok(Rows(["DATABASE()"], [[Text("NULL")]]))
    ensures route == SelectVersion ==>
      post == pre && reply == Ok(Rows(["version()"], [[Text("26.7.0 MySQL Community Server - GPL")]]))
    ensures route == Introspection ==> post == pre && reply == Err(ShowDenied(pre.user))
    ensures route == Use && UseTarget(host, query) == "" ==> post == pre && reply == Ok(Done)
  {
    hide Asks, RouteOf, Normalize, UseTarget;
    TextDecidesTheRoute(host, query, route);
  }

  /** Queries that ask for nothing the server knows succeed without effect. */
  lemma OthersAreIgnored(host: Host, pre: Sess, query: string, stmt: Stmt, reply: Reply, post: Sess)
    requires forall route :: route != Ignored ==> !Asks(host, Spaced(host, query), route)
    requires QueryAnswers(host, pre, query, stmt, reply, post)
    ensures reply == Ok(Done) && post == pre
  {
    hide Asks, RouteOf, Normalize, UseTarget;
    TextDecidesTheRoute(host, query, Ignored);
  }

  // ---------- Tables ----------

  /** The case-folded runes of a name. */
  function Folded(host: Host, name: string): (r: string)
    ensures |r| == |host.runes(name)| && forall k :: 0 <= k < |r| ==> r[k] == host.fold(host.runes(name)[k])
  {
    var runes := host.runes(name);
    seq(|runes|, k requires 0 <= k < |runes| => host.fold(runes[k]))
  }

  lemma FoldedAlike(host: Host, a: string, b: string)
    ensures EqualFold(host, a, b) <==> Folded(host, a) == Folded(host, b)
  {
    var x, y := Folded(host, a), Folded(host, b);
    if EqualFold(host, a, b) {
      assert x == y;
    }
    if x == y {
      forall k | 0 <= k < |x|
        ensures host.fold(host.runes(a)[k]) == host.fold(host.runes(b)[k])
      {
        assert x[k] == y[k];
      }
    }
  }

  /** A table is listed under any spelling of one of the database's tables that differs in
      case only. */
  lemma ListedInAnyCase(host: Host, data: Data, db: string, table: string)
    ensures TableListed(host, data, db, table)
       <==> exists m :: m in MembersAt(data, TablesKey(db)) && Folded(host, m) == Folded(host, table)
  {
    hide TablesKey;
    forall m
      ensures EqualFold(host, m, table) <==> Folded(host, m) == Folded(host, table)
    {
      FoldedAlike(host, m, table);
    }
  }

  /** SELECT and DESCRIBE answer from a table only if the resolved database lists it: a table
      it does not list is unknown, and without a database, without a single table and without
      stored data the answer is empty. */
  lemma TablesAreGuarded(
    host: Host, pre: Sess, query: string, stmt: Stmt, source: Option<TableName>, reply: Reply, post: Sess)
    requires || (Asks(host, Spaced(host, query), SelectRows) && exists sel :: stmt == SelectStmt(source, sel))
             || (Asks(host, Spaced(host, query), Describe) && stmt == DescribeStmt(source))
    requires QueryAnswers(host, pre, query, stmt, reply, post) && reply != Err(Backend)
    ensures post == pre
    ensures source == None ==> reply == Ok(Rows(["result"], []))
    ensures source.Some? ==>
      var t := source.value;
      var db := if t.schema == "" then pre.currentDB else t.schema;
      && (db == "" ==> reply == Ok(Rows(["result"], [])))
      && (db != "" && t.name != "" && !TableListed(host, pre.data, db, t.name) ==>
            reply == Err(UnknownTable(t.name, db)))
      && (db != "" && (t.name == "" || TableListed(host, pre.data, db, t.name)) && TableDataKey(db, t.name) !in pre.data
          ==> reply == Ok(Rows(["result"], [])))
  {
    hide Asks, RouteOf, Normalize, UseTarget, TableListed, TableDataKey, TablesKey, DecodeTable;
    TextDecidesTheRoute(host, query, SelectRows);
    TextDecidesTheRoute(host, query, Describe);
  }

  /** The resolved database lists the table, and `data` is what is stored for it. */
  ghost predicate Holds(host: Host, s: Sess, t: TableName, data: Table) {
    var db := if t.schema == "" then s.currentDB else t.schema;
    && db != "" && TableListed(host, s.data, db, t.name)
    && TableDataKey(db, t.name) in s.data && s.data[TableDataKey(db, t.name)].Blob?
    && DecodeTable(host, s.data[TableDataKey(db, t.name)].payload) == Some(data)
  }

  /** A SELECT of a listed table answers the rows of its stored data, under their names, if
      the wire protocol can carry them. */
  lemma SelectsAreServed(
    host: Host, pre: Sess, query: string, sel: Select, t: TableName, data: Table, reply: Reply, post: Sess)
    requires Asks(host, Spaced(host, query), SelectRows) && Holds(host, pre, t, data)
    requires QueryAnswers(host, pre, query, SelectStmt(Some(t), sel), reply, post) && reply != Err(Backend)
    ensures var rows := SelectedRows(host, sel, data);
            reply == if host.encodes(rows) then Ok(Rows(SelectedTitles(host, sel, data), rows)) else Err(Unencodable)
  {
    hide Asks, RouteOf, Normalize, UseTarget, TableListed, TableDataKey, TablesKey, DecodeTable, SelectedRows;
    hide UseAnswers, ShowDatabasesAnswers, ShowTablesAnswers, Refused, DescribeAnswers;
    TextDecidesTheRoute(host, query, SelectRows);
  }

  /** The row tells name and type of the column, and that it is a key, never NULL, exactly if
      it is called id, in any case. */
  predicate Describes(host: Host, c: ColumnDef, row: Row) {
    && |row| == 6 && row[0] == Text(c.name) && row[1] == Text(c.kind) && row[4] == Null && row[5] == Text("")
    && row[2] == Text(if EqualFold(host, c.name, "id") then "NO" else "YES")
    && row[3] == Text(if EqualFold(host, c.name, "id") then "PRI" else "")
  }

  /** A DESCRIBE of a listed table answers one row for each stored column. */
  lemma DescribesAreServed(
    host: Host, pre: Sess, query: string, t: TableName, data: Table, reply: Reply, post: Sess)
    requires Asks(host, Spaced(host, query), Describe) && Holds(host, pre, t, data)
    requires QueryAnswers(host, pre, query, DescribeStmt(Some(t)), reply, post) && reply != Err(Backend)
    ensures reply.Ok? && reply.value.Rows?
    ensures reply.value.columns == ["Field", "Type", "Null", "Key", "Default", "Extra"]
    ensures |reply.value.rows| == |data.columns|
    ensures forall k :: 0 <= k < |data.columns| ==> Describes(host, data.columns[k], reply.value.rows[k])
  {
    hide Asks, RouteOf, Normalize, UseTarget, TableListed, TableDataKey, TablesKey, DecodeTable;
    hide UseAnswers, ShowDatabasesAnswers, ShowTablesAnswers, Refused, SelectAnswers;
    TextDecidesTheRoute(host, query, Describe);
  }
}
