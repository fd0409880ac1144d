// Guarantees over single queries and over whole runs of a session.
module SessionRuns {
  import opened Common
  import opened Values
  import opened SelectHandler
  import opened TableData
  import opened Store
  import opened Session

  // ---------- Which queries are refused ----------

  /** The texts a route is reached by, for the statements the server must refuse. */
  function WritePrefixes(route: Route): set<string> {
    match route
    case CreateDatabase => {"CREATE DATABASE", "CREATE SCHEMA"}
    case CreateTable => {"CREATE TABLE", "CREATE TEMPORARY TABLE"}
    case DropDatabase => {"DROP DATABASE", "DROP SCHEMA"}
    case DropTable => {"DROP TABLE", "DROP TEMPORARY TABLE"}
    case Truncate => {"TRUNCATE"}
    case Delete => {"DELETE"}
    case Insert => {"INSERT", "REPLACE"}
    case Update => {"UPDATE"}
    case Alter => {"ALTER"}
    case Rename => {"RENAME TABLE"}
    case Grant => {"GRANT", "REVOKE"}
    case _ => {}
  }

  ghost predicate StartsAsWrite(upper: string, route: Route) {
    exists p :: p in WritePrefixes(route) && p <= upper
  }

  /** Texts that miss the first letters of every read-only case fall through to the writes. */
  lemma NotReadOnly(upper: string)
    requires |upper| >= 3 && upper[0] != 'S' && (upper[0] == 'U' ==> upper[1] != 'S')
    requires upper[0] == 'D' && upper[1] == 'E' ==> upper[2] != 'S'
    ensures upper !in {"SHOW DATABASES", "SHOW SCHEMAS", "SELECT DATABASE()", "SELECT DATABASE() AS `DATABASE()`"}
    ensures !("SHOW TABLES" <= upper) && !("SELECT" <= upper) && !("USE " <= upper)
    ensures !("DESCRIBE " <= upper) && !("DESC " <= upper)
    ensures !IsIntrospection(upper)
    ensures RouteOf(upper) == WriteRouteOf(upper)
  {
    hide WriteRouteOf;
  }

  lemma NotCreate(upper: string)
    requires upper != [] && upper[0] != 'C'
    ensures WriteRouteOf(upper) == AfterCreate(upper)
  {
  }

  lemma NotDrop(upper: string)
    requires |upper| >= 2 && (upper[0] != 'D' || upper[1] != 'R')
    ensures AfterCreate(upper) == AfterDrop(upper)
  {
    hide AfterDrop;
  }

  lemma NotDelete(upper: string)
    requires upper != [] && upper[0] !in {'T', 'D'}
    ensures AfterDrop(upper) == AfterDelete(upper)
  {
  }

  lemma CreateDatabaseReached(upper: string)
    requires "CREATE DATABASE" <= upper || "CREATE SCHEMA" <= upper
    ensures RouteOf(upper) == CreateDatabase
  {
    hide RouteOf;
    assert upper[0] in {'C'} && upper[1] in {'R'};
    NotReadOnly(upper);
  }

  lemma CreateTableLetters(upper: string)
    requires "CREATE TABLE" <= upper || "CREATE TEMPORARY TABLE" <= upper
    ensures |upper| > 7 && upper[0] == 'C' && upper[7] == 'T'
  {
  }

  lemma NotCreateDatabase(upper: string)
    requires |upper| > 7 && upper[7] == 'T'
    ensures !("CREATE DATABASE" <= upper) && !("CREATE SCHEMA" <= upper)
  {
  }

  lemma CreateTableReached(upper: string)
    requires "CREATE TABLE" <= upper || "CREATE TEMPORARY TABLE" <= upper
    ensures RouteOf(upper) == CreateTable
  {
    hide RouteOf;
    CreateTableLetters(upper);
    NotReadOnly(upper);
    NotCreateDatabase(upper);
  }

  lemma DropDatabaseReached(upper: string)
    requires "DROP DATABASE" <= upper || "DROP SCHEMA" <= upper
    ensures RouteOf(upper) == DropDatabase
  {
    hide RouteOf, WriteRouteOf;
    assert upper[0] in {'D'} && upper[1] in {'R'};
    NotReadOnly(upper);
    NotCreate(upper);
  }

  lemma DropTableLetters(upper: string)
    requires "DROP TABLE" <= upper || "DROP TEMPORARY TABLE" <= upper
    ensures |upper| > 5 && upper[0] == 'D' && upper[1] == 'R' && upper[5] == 'T'
  {
  }

  lemma NotDropDatabase(upper: string)
    requires |upper| > 5 && upper[5] == 'T'
    ensures !("DROP DATABASE" <= upper) && !("DROP SCHEMA" <= upper)
  {
  }

  lemma DropTableReached(upper: string)
    requires "DROP TABLE" <= upper || "DROP TEMPORARY TABLE" <= upper
    ensures RouteOf(upper) == DropTable
  {
    hide RouteOf, WriteRouteOf;
    DropTableLetters(upper);
    NotReadOnly(upper);
    NotCreate(upper);
    NotDropDatabase(upper);
  }

  lemma TruncateReached(upper: string)
    requires "TRUNCATE" <= upper
    ensures RouteOf(upper) == Truncate
  {
    hide RouteOf, WriteRouteOf, AfterCreate;
    assert upper[0] == 'T';
    NotReadOnly(upper);
    NotCreate(upper);
    NotDrop(upper);
  }

  lemma DeleteReached(upper: string)
    requires "DELETE" <= upper
    ensures RouteOf(upper) == Delete
  {
    hide RouteOf, WriteRouteOf, AfterCreate;
    assert upper[0] == 'D' && upper[1] == 'E' && upper[2] == 'L';
    NotReadOnly(upper);
    NotCreate(upper);
    NotDrop(upper);
  }

  lemma InsertReached(upper: string)
    requires "INSERT" <= upper || "REPLACE" <= upper
    ensures RouteOf(upper) == Insert
  {
    hide RouteOf, WriteRouteOf, AfterCreate, AfterDrop;
    assert upper[0] in {'I', 'R'};
    NotReadOnly(upper);
    NotCreate(upper);
    NotDrop(upper);
    NotDelete(upper);
  }

  lemma UpdateReached(upper: string)
    requires "UPDATE" <= upper
    ensures RouteOf(upper) == Update
  {
    hide RouteOf, WriteRouteOf, AfterCreate, AfterDrop;
    assert upper[0] == 'U' && upper[1] == 'P';
    NotReadOnly(upper);
    NotCreate(upper);
    NotDrop(upper);
    NotDelete(upper);
  }

  lemma AlterReached(upper: string)
    requires "ALTER" <= upper
    ensures RouteOf(upper) == Alter
  {
    hide RouteOf, WriteRouteOf, AfterCreate, AfterDrop;
    assert upper[0] == 'A';
    NotReadOnly(upper);
    NotCreate(upper);
    NotDrop(upper);
    NotDelete(upper);
  }

  lemma RenameLetters(upper: string)
    requires "RENAME TABLE" <= upper
    ensures |upper| > 2 && upper[0] == 'R' && upper[1] == 'E' && upper[2] == 'N'
  {
  }

  lemma NotInsertOrUpdate(upper: string)
    requires |upper| > 2 && upper[0] == 'R' && upper[2] != 'P'
    ensures !("INSERT" <= upper) && !("REPLACE" <= upper) && !("UPDATE" <= upper) && !("ALTER" <= upper)
  {
  }

  lemma RenameReached(upper: string)
    requires "RENAME TABLE" <= upper
    ensures RouteOf(upper) == Rename
  {
    hide RouteOf, WriteRouteOf, AfterCreate, AfterDrop;
    RenameLetters(upper);
    NotReadOnly(upper);
    NotCreate(upper);
    NotDrop(upper);
    NotDelete(upper);
    NotInsertOrUpdate(upper);
  }

  lemma NotRename(upper: string)
    requires |upper| >= 3 && (upper[0] == 'G' || (upper[0] == 'R' && upper[2] == 'V'))
    ensures !("INSERT" <= upper) && !("REPLACE" <= upper) && !("UPDATE" <= upper) && !("ALTER" <= upper)
    ensures !("RENAME TABLE" <= upper)
  {
  }

  lemma GrantReached(upper: string)
    requires "GRANT" <= upper || "REVOKE" <= upper
    ensures RouteOf(upper) == Grant
  {
    hide RouteOf, WriteRouteOf, AfterCreate, AfterDrop;
    if "GRANT" <= upper {
      assert upper[0] == 'G';
    } else {
      assert upper[0] == 'R' && upper[2] == 'V';
    }
    NotReadOnly(upper);
    NotCreate(upper);
    NotDrop(upper);
    NotDelete(upper);
    NotRename(upper);
  }

  lemma LastText(upper: string) returns (p: string)
    requires WritePrefixes(AfterDelete(upper)) != {}
    ensures p in WritePrefixes(AfterDelete(upper)) && p <= upper
  {
    if "INSERT" <= upper {
      p := "INSERT";
    } else if "REPLACE" <= upper {
      p := "REPLACE";
    } else if "UPDATE" <= upper {
      p := "UPDATE";
    } else if "ALTER" <= upper {
      p := "ALTER";
    } else if "RENAME TABLE" <= upper {
      p := "RENAME TABLE";
    } else if "GRANT" <= upper {
      p := "GRANT";
    } else {
      p := "REVOKE";
    }
  }

  lemma AfterDropText(upper: string) returns (p: string)
    requires WritePrefixes(AfterDrop(upper)) != {}
    ensures p in WritePrefixes(AfterDrop(upper)) && p <= upper
  {
    hide AfterDelete;
    if "TRUNCATE" <= upper {
      p := "TRUNCATE";
    } else if "DELETE" <= upper {
      p := "DELETE";
    } else {
      p := LastText(upper);
    }
  }

  lemma AfterCreateText(upper: string) returns (p: string)
    requires WritePrefixes(AfterCreate(upper)) != {}
    ensures p in WritePrefixes(AfterCreate(upper)) && p <= upper
  {
    hide AfterDrop;
    if "DROP DATABASE" <= upper {
      p := "DROP DATABASE";
    } else if "DROP SCHEMA" <= upper {
      p := "DROP SCHEMA";
    } else if "DROP TEMPORARY TABLE" <= upper {
      p := "DROP TEMPORARY TABLE";
    } else if "DROP TABLE" <= upper {
      p := "DROP TABLE";
    } else {
      p := AfterDropText(upper);
    }
  }

  lemma WriteText(upper: string) returns (p: string)
    requires WritePrefixes(WriteRouteOf(upper)) != {}
    ensures p in WritePrefixes(WriteRouteOf(upper)) && p <= upper
  {
    hide AfterCreate;
    if "CREATE DATABASE" <= upper {
      p := "CREATE DATABASE";
    } else if "CREATE SCHEMA" <= upper {
      p := "CREATE SCHEMA";
    } else if "CREATE TEMPORARY TABLE" <= upper {
      p := "CREATE TEMPORARY TABLE";
    } else if "CREATE TABLE" <= upper {
      p := "CREATE TABLE";
    } else {
      p := AfterCreateText(upper);
    }
  }

  lemma HandlerNeedsItsText(upper: string) returns (p: string)
    requires WritePrefixes(RouteOf(upper)) != {}
    ensures p in WritePrefixes(RouteOf(upper)) && p <= upper
  {
    hide WriteRouteOf;
    p := WriteText(upper);
  }

  /** No earlier case of the dispatch shadows a write statement, and only the listed
      texts reach the handler that refuses it. */
  lemma WritesReachTheirHandler(upper: string, route: Route)
    requires WritePrefixes(route) != {}
    ensures RouteOf(upper) == route <==> StartsAsWrite(upper, route)
  {
    if StartsAsWrite(upper, route) {
      match route {
        case CreateDatabase => CreateDatabaseReached(upper);
        case CreateTable => CreateTableReached(upper);
        case DropDatabase => DropDatabaseReached(upper);
        case DropTable => DropTableReached(upper);
        case Truncate => TruncateReached(upper);
        case Delete => DeleteReached(upper);
        case Insert => InsertReached(upper);
        case Update => UpdateReached(upper);
        case Alter => AlterReached(upper);
        case Rename => RenameReached(upper);
        case Grant => GrantReached(upper);
        case _ =>
      }
    } else if RouteOf(upper) == route {
      var p := HandlerNeedsItsText(upper);
    }
  }

  /** Every listed write statement is answered with an error, whatever the parser made of
      it and whatever the store holds, and leaves the store and the selection as they were. */
  lemma ListedWritesAreRefused(host: Host, pre: Sess, query: string, stmt: Stmt, route: Route, reply: Reply, post: Sess)
    requires StartsAsWrite(Normalize(host, query), route)
    requires QueryAnswers(host, pre, query, stmt, reply, post)
    ensures reply.Err? && post == pre
  {
    hide SelectAnswers, DescribeAnswers, ShowTablesAnswers, ShowDatabasesAnswers, UseAnswers;
    hide Target, UseTarget, TableListed, RouteOf, Normalize;
    WritesReachTheirHandler(Normalize(host, query), route);
  }

  /** The write would be answered `Access denied`: always for databases, for CREATE TABLE
      whenever a database is selected, and otherwise when a database is resolved and lists
      the named table, if any. */
  ghost predicate MeetsDenial(host: Host, s: Sess, route: Route, explicitDB: string, table: string) {
    var db := Resolve(explicitDB, s.currentDB);
    match route
    case CreateDatabase => true
    case DropDatabase => true
    case CreateTable => s.currentDB != ""
    case _ => db != "" && (table == "" || TableListed(host, s.data, db, table))
  }

  /** The database a denial names. */
  function DeniedDB(s: Sess, route: Route, explicitDB: string): string {
    if route in {CreateDatabase, DropDatabase} then explicitDB else Resolve(explicitDB, s.currentDB)
  }

  /** For each of the eleven handlers, exactly when a listed write is answered `Access
      denied`, and for which database; short of a store error. */
  lemma WhenAccessIsDenied(host: Host, pre: Sess, query: string, stmt: Stmt, route: Route, reply: Reply, post: Sess)
    requires StartsAsWrite(Normalize(host, query), route)
    requires QueryAnswers(host, pre, query, stmt, reply, post) && reply != Err(Backend)
    ensures reply.Err?
    ensures var (explicitDB, table) := Target(route, stmt);
            && (reply.error.AccessDenied? <==> MeetsDenial(host, pre, route, explicitDB, table))
            && (reply.error.AccessDenied? ==> reply == Err(AccessDenied(pre.user, DeniedDB(pre, route, explicitDB))))
  {
    hide SelectAnswers, DescribeAnswers, ShowTablesAnswers, ShowDatabasesAnswers, UseAnswers;
    hide Target, UseTarget, TableListed, RouteOf, Normalize;
    WritesReachTheirHandler(Normalize(host, query), route);
  }

  lemma UseIsReliable(pre: Sess, db: string, reply: Reply, post: Sess)
    requires pre.reliable && StoreTyped(pre.data) && UseAnswers(pre, db, reply, post)
    ensures reply != Err(Backend)
  {
    hide UsersKey, TablesKey, MayUse;
    assert SetAt(pre.data, UsersKey(db));
  }

  lemma ShowDatabasesIsReliable(s: Sess, reply: Reply)
    requires s.reliable && StoreTyped(s.data) && ShowDatabasesAnswers(s, reply)
    ensures reply != Err(Backend)
  {
    hide UsersKey, TablesKey, MayUse, DbsKey;
  }

  lemma ShowTablesIsReliable(s: Sess, stmt: Stmt, reply: Reply)
    requires s.reliable && StoreTyped(s.data) && ShowTablesAnswers(s, stmt, reply)
    ensures reply != Err(Backend)
  {
    hide UsersKey, TablesKey, MayUse;
    var db := if stmt.ShowStmt? then Resolve(stmt.dbName, s.currentDB) else s.currentDB;
    assert SetAt(s.data, UsersKey(db)) && SetAt(s.data, TablesKey(db));
  }

  lemma RefusalIsReliable(host: Host, s: Sess, explicitDB: string, table: string, reply: Reply)
    requires s.reliable && StoreTyped(s.data) && Refused(host, s, explicitDB, table, reply)
    ensures reply != Err(Backend)
  {
    hide UsersKey, TablesKey, TableListed;
    assert SetAt(s.data, TablesKey(Resolve(explicitDB, s.currentDB)));
  }

  lemma TableIsReliable(
    host: Host, s: Sess, source: Option<TableName>, serves: (Table, Reply) -> bool, reply: Reply)
    requires s.reliable && StoreTyped(s.data) && TableAnswers(host, s, source, serves, reply)
    requires forall t :: serves(t, reply) ==> reply != Err(Backend)
    ensures reply != Err(Backend)
  {
    hide UsersKey, TablesKey, TableDataKey, TableListed, DecodeTable;
    if source.Some? {
      var db := Resolve(source.value.schema, s.currentDB);
      assert SetAt(s.data, TablesKey(db));
      TableKeysHoldTexts(s.data, db, source.value.name);
    }
  }

  /** Over a reliable store of the right types no query is ever answered with a store error. */
  lemma ReliableStoresAnswer(host: Host, pre: Sess, query: string, stmt: Stmt, reply: Reply, post: Sess)
    requires pre.reliable && StoreTyped(pre.data)
    requires QueryAnswers(host, pre, query, stmt, reply, post)
    ensures reply != Err(Backend)
  {
    hide RouteOf, Normalize, Target, UseTarget, StoreTyped;
    hide UseAnswers, ShowDatabasesAnswers, ShowTablesAnswers, TableAnswers, Refused;
    var route := RouteOf(Normalize(host, query));
    var (explicitDB, table) := Target(route, stmt);
    if route == Use && UseTarget(host, query) != "" {
      UseIsReliable(pre, UseTarget(host, query), reply, post);
    } else {
      match route {
        case ShowDatabases => ShowDatabasesIsReliable(pre, reply);
        case ShowTables => ShowTablesIsReliable(pre, stmt, reply);
        case SelectRows =>
          if stmt.SelectStmt? {
            TableIsReliable(host, pre, stmt.source, ServesRows(host, stmt.sel), reply);
          }
        case Describe =>
          if stmt.DescribeStmt? {
            TableIsReliable(host, pre, stmt.source, ServesDescription(host), reply);
          }
        case DropTable => RefusalIsReliable(host, pre, explicitDB, table, reply);
        case Truncate => RefusalIsReliable(host, pre, explicitDB, table, reply);
        case Delete => RefusalIsReliable(host, pre, explicitDB, table, reply);
        case Insert => RefusalIsReliable(host, pre, explicitDB, table, reply);
        case Update => RefusalIsReliable(host, pre, explicitDB, table, reply);
        case Alter => RefusalIsReliable(host, pre, explicitDB, table, reply);
        case Rename => RefusalIsReliable(host, pre, explicitDB, table, reply);
        case Grant => RefusalIsReliable(host, pre, explicitDB, table, reply);
        case _ =>
      }
    }
  }

  /** The queries that can only ever be answered with an error. */
  ghost predicate AlwaysFails(host: Host, query: string) {
    forall pre, stmt, reply, post :: QueryAnswers(host, pre, query, stmt, reply, post) ==> reply.Err?
  }

  lemma IntrospectionFails(host: Host, query: string)
    requires RouteOf(Normalize(host, query)) == Introspection
    ensures AlwaysFails(host, query)
  {
    hide Normalize, RouteOf;
  }

  /** A session in which queries of every kind succeed. */
  function Welcome(db: string): Sess {
    var data: Data :=
      map[UsersKey("a") := Members({"u"}), TablesKey("a") := Members({"t"}), UsersKey(db) := Members({"u"})];
    Sess(data, true, "a", "u")
  }

  lemma ShowTablesSucceeds(db: string) returns (reply: Reply)
    ensures ShowTablesAnswers(Welcome(db), OtherStmt, reply) && reply.Ok?
  {
    KeysAreApart(db, "a", "");
    KeysAreApart("a", "a", "");
    hide UsersKey, TablesKey;
    reply := Ok(Rows(["Tables_in_" + "a"], SingleColumn(["t"])));
    assert MembersAt(Welcome(db).data, TablesKey("a")) == {"t"};
    assert Distinct(["t"]) && forall v :: v in ["t"] <==> v == "t";
  }

  lemma ShowDatabasesSucceeds(db: string) returns (reply: Reply)
    requires DbsKey() !in Welcome(db).data
    ensures ShowDatabasesAnswers(Welcome(db), reply) && reply.Ok?
  {
    hide UsersKey, TablesKey, DbsKey;
    reply := Ok(Rows(["Database"], SingleColumn([])));
    assert Distinct<string>([]);
  }

  lemma NoDbsKey(db: string)
    ensures DbsKey() !in Welcome(db).data
  {
    ListKeysAreApart("a");
    ListKeysAreApart(db);
  }

  lemma UseSucceeds(db: string)
    ensures UseAnswers(Welcome(db), db, Ok(Done), Welcome(db).(currentDB := db))
  {
    hide UsersKey, TablesKey;
  }

  /** Any other query succeeds in some session. */
  lemma CanSucceed(host: Host, query: string) returns (pre: Sess, reply: Reply, post: Sess)
    requires RouteOf(Normalize(host, query)) != Introspection && WritePrefixes(RouteOf(Normalize(host, query))) == {}
    ensures QueryAnswers(host, pre, query, OtherStmt, reply, post) && reply.Ok?
  {
    hide RouteOf, Normalize, UseTarget, UseAnswers, ShowTablesAnswers, ShowDatabasesAnswers;
    var route, db := RouteOf(Normalize(host, query)), UseTarget(host, query);
    pre := Welcome(db);
    post := pre;
    reply := Ok(Done);
    match route {
      case ShowDatabases =>
        NoDbsKey(db);
        reply := ShowDatabasesSucceeds(db);
      case ShowTables => reply := ShowTablesSucceeds(db);
      case SelectDatabase => reply := Ok(Rows(["DATABASE()"], [[Text("a")]]));
      case SelectVersion => reply := Ok(Rows(["version()"], [[Text(VERSION)]]));
      case SelectRows => reply := Ok(EMPTY_SELECT);
      case Describe => reply := Ok(EMPTY_SELECT);
      case Use =>
        if db != "" {
          UseSucceeds(db);
          post := pre.(currentDB := db);
        }
      case _ =>
    }
  }

  /** Those are the listed write statements and the denied introspection, and no others. */
  lemma AlwaysFailsExactly(host: Host, query: string)
    ensures AlwaysFails(host, query)
       <==> || RouteOf(Normalize(host, query)) == Introspection
            || exists route :: StartsAsWrite(Normalize(host, query), route)
  {
    hide QueryAnswers, Normalize, RouteOf, WritePrefixes;
    var upper := Normalize(host, query);
    var route := RouteOf(upper);
    if route == Introspection {
      IntrospectionFails(host, query);
    } else if WritePrefixes(route) != {} {
      WritesReachTheirHandler(upper, route);
      forall pre, stmt, reply, post | QueryAnswers(host, pre, query, stmt, reply, post)
        ensures reply.Err?
      {
        ListedWritesAreRefused(host, pre, query, stmt, route, reply, post);
      }
    } else {
      var pre, reply, post := CanSucceed(host, query);
      forall other
        ensures !StartsAsWrite(upper, other)
      {
        if WritePrefixes(other) != {} {
          WritesReachTheirHandler(upper, other);
        }
      }
    }
  }

  // ---------- Runs ----------

  /** What can happen next: a query, a COM_INIT_DB packet, a packet no handler supports,
      or a change to the store by someone else. */
  datatype Event = Query(query: string, stmt: Stmt) | InitDB(db: string) | Unsupported | Outside

  datatype Move = Move(pre: Sess, event: Event, reply: Reply, post: Sess)

  ghost predicate IsMove(host: Host, m: Move) {
    match m.event
    case Query(query, stmt) => QueryAnswers(host, m.pre, query, stmt, m.reply, m.post)
    case InitDB(db) => UseAnswers(m.pre, db, m.reply, m.post)
    case Unsupported => m.post == m.pre
    case Outside => m.post.currentDB == m.pre.currentDB && m.post.user == m.pre.user
  }

  ghost predicate IsRun(host: Host, start: Sess, moves: seq<Move>, end: Sess) {
    if moves == [] then
      start == end
    else
      var last := moves[|moves| - 1];
      last.post == end && IsMove(host, last) && IsRun(host, start, moves[..|moves| - 1], last.pre)
  }

  /** The database an event asks to select; None when it asks for none. */
  function Requested(host: Host, e: Event): Option<string> {
    match e
    case InitDB(db) => Some(db)
    case Query(query, _) =>
      if RouteOf(Normalize(host, query)) == Use && UseTarget(host, query) != "" then Some(UseTarget(host, query))
      else None
    case _ => None
  }

  predicate Switches(host: Host, m: Move) {
    Requested(host, m.event).Some? && m.reply == Ok(Done)
  }

  /** Move `k` is the last one of the run that selected a database. */
  ghost predicate LatestSwitch(host: Host, moves: seq<Move>, k: nat)
    requires k < |moves|
  {
    Switches(host, moves[k]) && forall j :: k < j < |moves| ==> !Switches(host, moves[j])
  }

  /** Move `k` is the last to select a database; it selected `db`, and the user was a
      member of it in the store of that moment. */
  ghost predicate EarnedAt(host: Host, user: string, moves: seq<Move>, db: string, k: nat)
    requires k < |moves|
  {
    && LatestSwitch(host, moves, k)
    && Requested(host, moves[k].event) == Some(db)
    && moves[k].pre.user == user
    && MayUse(moves[k].pre.data, user, db)
  }

  lemma UseMoves(pre: Sess, db: string, reply: Reply, post: Sess)
    requires UseAnswers(pre, db, reply, post)
    ensures post.user == pre.user
    ensures if reply == Ok(Done) then MayUse(pre.data, pre.user, db) && post.currentDB == db else post == pre
  {
  }

  lemma SwitchOrStay(host: Host, m: Move)
    requires IsMove(host, m)
    ensures m.post.user == m.pre.user
    ensures if Switches(host, m) then
              Requested(host, m.event) == Some(m.post.currentDB) && MayUse(m.pre.data, m.pre.user, m.post.currentDB)
            else m.post.currentDB == m.pre.currentDB
  {
    hide RouteOf, Normalize, UseTarget, Target, Refused, MayUse;
    hide ShowDatabasesAnswers, ShowTablesAnswers, SelectAnswers, DescribeAnswers;
    if m.event.Query? || m.event.InitDB? {
      if db :| Requested(host, m.event) == Some(db) {
        UseMoves(m.pre, db, m.reply, m.post);
      }
    }
  }

  /** Over every run the selected database is the one of the latest successful request,
      which the user was a member of at that moment, or there was none and it never changed. */
  lemma {:induction false} SelectedDatabaseIsEarned(host: Host, start: Sess, moves: seq<Move>, end: Sess)
    requires IsRun(host, start, moves, end)
    ensures end.user == start.user
    ensures
      || (end.currentDB == start.currentDB && forall k :: 0 <= k < |moves| ==> !Switches(host, moves[k]))
      || exists k :: 0 <= k < |moves| && EarnedAt(host, start.user, moves, end.currentDB, k)
  {
    hide IsMove, Requested, Switches, MayUse;
    if moves != [] {
      var front, last := moves[..|moves| - 1], moves[|moves| - 1];
      SelectedDatabaseIsEarned(host, start, front, last.pre);
      SwitchOrStay(host, last);
      if Switches(host, last) {
        assert EarnedAt(host, start.user, moves, end.currentDB, |moves| - 1);
      } else if k :| 0 <= k < |front| && EarnedAt(host, start.user, front, last.pre.currentDB, k) {
        assert moves[k] == front[k];
        assert EarnedAt(host, start.user, moves, end.currentDB, k);
      }
    }
  }

  /** A session never changes the store, whatever it is sent. */
  lemma {:induction false} SessionsNeverWrite(host: Host, start: Sess, moves: seq<Move>, end: Sess)
    requires IsRun(host, start, moves, end)
    requires forall k :: 0 <= k < |moves| ==> moves[k].event != Outside
    ensures end.data == start.data
  {
    hide Refused, ShowTablesAnswers, ShowDatabasesAnswers, SelectAnswers, DescribeAnswers, RouteOf, Normalize;
    if moves != [] {
      assert moves[|moves| - 1].event != Outside;
      SessionsNeverWrite(host, start, moves[..|moves| - 1], moves[|moves| - 1].pre);
    }
  }

  /** Every listed write in a run is answered with an error and moves the session nowhere. */
  lemma {:induction false} RunsRefuseWrites(host: Host, start: Sess, moves: seq<Move>, end: Sess, k: nat, route: Route)
    requires IsRun(host, start, moves, end) && k < |moves|
    requires moves[k].event.Query? && StartsAsWrite(Normalize(host, moves[k].event.query), route)
    ensures moves[k].reply.Err? && moves[k].post == moves[k].pre
  {
    var last := moves[|moves| - 1];
    if k == |moves| - 1 {
      ListedWritesAreRefused(host, last.pre, last.event.query, last.event.stmt, route, last.reply, last.post);
    } else {
      RunsRefuseWrites(host, start, moves[..|moves| - 1], last.pre, k, route);
    }
  }

  // ---------- White space ----------

  lemma {:induction false} FirstWordLength(space: char -> bool, word: string, rest: string)
    requires forall c :: c in word ==> !space(c)
    requires rest == [] || space(rest[0])
    ensures WordLength(space, word + rest) == |word|
  {
    if word != [] {
      assert (word + rest)[1..] == word[1..] + rest;
      FirstWordLength(space, word[1..], rest);
    } else {
      assert word + rest == rest;
    }
  }

  /** Re-reading the joined words finds the same words: dispatch depends on them alone. */
  lemma FirstField(space: char -> bool, first: string, rest: string)
    requires first != [] && (forall c :: c in first ==> !space(c)) && (rest == [] || space(rest[0]))
    ensures Fields(space, first + rest) == [first] + Fields(space, rest)
  {
    hide WordLength;
    FirstWordLength(space, first, rest);
    assert first[0] in first && (first + rest)[0] == first[0];
    assert (first + rest)[..|first|] == first && (first + rest)[|first|..] == rest;
  }

  lemma {:induction false} WordsSurviveJoining(space: char -> bool, words: seq<string>)
    requires space(' ')
    requires forall k :: 0 <= k < |words| ==> words[k] != [] && forall c :: c in words[k] ==> !space(c)
    ensures Fields(space, JoinWith(" ", words)) == words
  {
    if words != [] {
      var first, rest := words[0], JoinWith(" ", words[1..]);
      WordsSurviveJoining(space, words[1..]);
      if |words| == 1 {
        FirstField(space, first, "");
        assert first + "" == first && words == [first];
      } else {
        FirstField(space, first, " " + rest);
        assert JoinWith(" ", words) == first + (" " + rest);
        assert (" " + rest)[1..] == rest && words == [first] + words[1..];
      }
    }
  }

  lemma {:induction false} FieldsAreWords(space: char -> bool, s: string)
    ensures forall k :: 0 <= k < |Fields(space, s)| ==>
      Fields(space, s)[k] != [] && forall c :: c in Fields(space, s)[k] ==> !space(c)
    decreases |s|
  {
    if s != [] {
      if space(s[0]) {
        FieldsAreWords(space, s[1..]);
      } else {
        FieldsAreWords(space, s[WordLength(space, s)..]);
      }
    }
  }

  /** Rewriting a query with single spaces between its words changes neither its route
      nor the database it asks for. */
  lemma SpacingIsIrrelevant(host: Host, query: string)
    requires host.space(' ')
    ensures var spaced := JoinWith(" ", Fields(host.space, query));
            Normalize(host, spaced) == Normalize(host, query) && UseTarget(host, spaced) == UseTarget(host, query)
  {
    FieldsAreWords(host.space, query);
    WordsSurviveJoining(host.space, Fields(host.space, query));
  }
}
