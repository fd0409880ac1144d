// One client session: the selected database, the dispatch of query text, and the
// handlers, each answering from the store without ever writing to it. A query text is a
// sequence of runes: white space and upper case are decided rune by rune.
module Session {
  import opened Common
  import opened Values
  import opened SelectHandler
  import opened TableData
  import opened Store

  // ---------- Parsed statements ----------

  datatype TableName = TableName(schema: string, name: string)

  /** What the handlers look at in the parser's answer. A table is None where the
      statement does not name exactly one table. */
  datatype Stmt =
    | ParseError
    | ShowStmt(dbName: string)
    | CreateDatabaseStmt(name: string)
    | DropDatabaseStmt(name: string)
    | CreateTableStmt(target: Option<TableName>)
    | DropTableStmt(tables: seq<TableName>)
    | TruncateStmt(target: Option<TableName>)
    | DeleteStmt(target: Option<TableName>)
    | InsertStmt(target: Option<TableName>)
    | UpdateStmt(target: Option<TableName>)
    | AlterTableStmt(target: Option<TableName>)
    | AlterDatabaseStmt(name: string)
    | RenameTableStmt(olds: seq<TableName>)
    | GrantStmt(level: Option<string>)
    | RevokeStmt(level: Option<string>)
    | DescribeStmt(source: Option<TableName>)
    | SelectStmt(source: Option<TableName>, sel: Select)
    | OtherStmt

  datatype Answer = Done | Rows(columns: seq<string>, rows: seq<Row>)

  type Reply = Result<Answer, Error>

  // ---------- Query text ----------

  function WordLength(space: char -> bool, s: string): (n: nat)
    ensures n <= |s| && (s != [] && !space(s[0]) ==> n > 0)
    ensures forall k :: 0 <= k < n ==> !space(s[k])
    ensures n < |s| ==> space(s[n])
  {
    if s == [] || space(s[0]) then 0 else 1 + WordLength(space, s[1..])
  }

  /** The words of a text: strings.Fields. */
  function Fields(space: char -> bool, s: string): seq<string>
    decreases |s|
  {
    if s == [] then []
    else if space(s[0]) then Fields(space, s[1..])
    else [s[..WordLength(space, s)]] + Fields(space, s[WordLength(space, s)..])
  }

  function ToUpper(host: Host, s: string): (r: string)
    ensures |r| == |s|
  {
    seq(|s|, k requires 0 <= k < |s| => host.upper(s[k]))
  }

  /** The dispatch text: words joined by single spaces, in upper case. */
  function Normalize(host: Host, query: string): string {
    ToUpper(host, JoinWith(" ", Fields(host.space, query)))
  }

  // ---------- Dispatch ----------

  datatype Route =
    | ShowDatabases | ShowTables | SelectDatabase | SelectVersion | Use | Describe | Introspection | SelectRows
    | CreateDatabase | CreateTable | DropDatabase | DropTable | Truncate | Delete | Insert | Update
    | Alter | Rename | Grant | Ignored

  predicate IsIntrospection(upper: string) {
    || "SHOW CREATE TABLE" <= upper
    || "SHOW TABLE STATUS" <= upper
    || "SHOW FIELDS" <= upper || "SHOW COLUMNS" <= upper
    || "SHOW KEYS" <= upper || "SHOW INDEX" <= upper
    || "SHOW VARIABLES" <= upper
    || ("SELECT" <= upper && Contains(upper, "INFORMATION_SCHEMA"))
    || ("SELECT" <= upper && Contains(upper, "@@COLLATION_DATABASE"))
  }

  function AfterDelete(upper: string): Route {
    if "INSERT" <= upper || "REPLACE" <= upper then Insert
    else if "UPDATE" <= upper then Update
    else if "ALTER" <= upper then Alter
    else if "RENAME TABLE" <= upper then Rename
    else if "GRANT" <= upper || "REVOKE" <= upper then Grant
    else Ignored
  }

  function AfterDrop(upper: string): Route {
    if "TRUNCATE" <= upper then Truncate
    else if "DELETE" <= upper then Delete
    else AfterDelete(upper)
  }

  function AfterCreate(upper: string): Route {
    if "DROP DATABASE" <= upper || "DROP SCHEMA" <= upper then DropDatabase
    else if "DROP TEMPORARY TABLE" <= upper || "DROP TABLE" <= upper then DropTable
    else AfterDrop(upper)
  }

  /** The cases after the read-only ones. */
  function WriteRouteOf(upper: string): Route {
    if "CREATE DATABASE" <= upper || "CREATE SCHEMA" <= upper then CreateDatabase
    else if "CREATE TEMPORARY TABLE" <= upper || "CREATE TABLE" <= upper then CreateTable
    else AfterCreate(upper)
  }

  /** The ordered case list of the dispatch: the first case that applies wins. */
  function RouteOf(upper: string): Route {
    if upper == "SHOW DATABASES" || upper == "SHOW SCHEMAS" then ShowDatabases
    else if "SHOW TABLES" <= upper then ShowTables
    else if upper == "SELECT DATABASE()" || upper == "SELECT DATABASE() AS `DATABASE()`" then SelectDatabase
    else if "SELECT" <= upper && Contains(upper, "VERSION") then SelectVersion
    else if "USE " <= upper then Use
    else if "DESCRIBE " <= upper || "DESC " <= upper then Describe
    else if IsIntrospection(upper) then Introspection
    else if "SELECT" <= upper then SelectRows
    else WriteRouteOf(upper)
  }

  // ---------- What each handler may answer ----------

  /** A session and the store it reads, as a value. */
  datatype Sess = Sess(data: Data, reliable: bool, currentDB: string, user: string)

  /** A set is read at `key`, and `expected` says whether the reply is the one due then. On a
      key of another type the reply is a store error; otherwise it is one only while the
      store is not reliable. */
  predicate Reads(s: Sess, key: string, reply: Reply, expected: bool) {
    if !SetAt(s.data, key) then reply == Err(Backend)
    else expected || (reply == Err(Backend) && !s.reliable)
  }

  predicate MayUse(data: Data, user: string, db: string) {
    user in MembersAt(data, UsersKey(db))
  }

  predicate EqualFold(host: Host, a: string, b: string) {
    var x, y := host.runes(a), host.runes(b);
    |x| == |y| && forall k :: 0 <= k < |x| ==> host.fold(x[k]) == host.fold(y[k])
  }

  /** The database lists a table of that name, up to case. */
  ghost predicate TableListed(host: Host, data: Data, db: string, table: string) {
    exists m :: m in MembersAt(data, TablesKey(db)) && EqualFold(host, m, table)
  }

  /** The database and table a write statement names, each "" when it names none. */
  function Target(route: Route, stmt: Stmt): (string, string) {
    match (route, stmt)
    case (DropTable, DropTableStmt(tables)) => if tables == [] then ("", "") else (tables[0].schema, tables[0].name)
    case (Truncate, TruncateStmt(Some(t))) => (t.schema, t.name)
    case (Delete, DeleteStmt(Some(t))) => (t.schema, t.name)
    case (Insert, InsertStmt(Some(t))) => (t.schema, t.name)
    case (Update, UpdateStmt(Some(t))) => (t.schema, t.name)
    case (Alter, AlterTableStmt(Some(t))) => (t.schema, t.name)
    case (Alter, AlterDatabaseStmt(name)) => (name, "")
    case (Rename, RenameTableStmt(olds)) => if olds == [] then ("", "") else (olds[0].schema, olds[0].name)
    case (Grant, GrantStmt(Some(db))) => (db, "")
    case (Grant, RevokeStmt(Some(db))) => (db, "")
    case (CreateDatabase, CreateDatabaseStmt(name)) => (name, "")
    case (DropDatabase, DropDatabaseStmt(name)) => (name, "")
    case (CreateTable, CreateTableStmt(Some(t))) => (t.schema, t.name)
    case _ => ("", "")
  }

  function Resolve(explicitDB: string, currentDB: string): string {
    if explicitDB != "" then explicitDB else currentDB
  }

  /** The one answer every write statement on tables gets, however its handler orders its checks. */
  ghost predicate Refused(host: Host, s: Sess, explicitDB: string, table: string, reply: Reply) {
    var db := Resolve(explicitDB, s.currentDB);
    if db == "" then reply == Err(NoDatabaseSelected)
    else if table == "" then reply == Err(AccessDenied(s.user, db))
    else
      Reads(s, TablesKey(db), reply,
            if TableListed(host, s.data, db, table) then reply == Err(AccessDenied(s.user, db))
            else reply == Err(UnknownTable(table, db)))
  }

  const EMPTY_SELECT: Answer := Rows(["result"], [])

  const VERSION: string := "26.7.0 MySQL Community Server - GPL"

  function SingleColumn(values: seq<string>): (rows: seq<Row>)
    ensures |rows| == |values| && forall k :: 0 <= k < |values| ==> rows[k] == [Text(values[k])]
  {
    seq(|values|, k requires 0 <= k < |values| => [Text(values[k])])
  }

  /** `reply` lists, one per row and each once, exactly the names in `names`. */
  ghost predicate Lists(reply: Reply, header: string, names: iset<string>) {
    exists values ::
      && Distinct(values) && (forall v :: v in values <==> v in names)
      && reply == Ok(Rows([header], SingleColumn(values)))
  }

  /** All sets SHOW DATABASES reads are sets. */
  ghost predicate DbListsReadable(data: Data) {
    SetAt(data, DbsKey()) && forall db :: db in MembersAt(data, DbsKey()) ==> SetAt(data, UsersKey(db))
  }

  ghost predicate ShowDatabasesAnswers(s: Sess, reply: Reply) {
    if !DbListsReadable(s.data) then reply == Err(Backend)
    else
      || Lists(reply, "Database", iset db | db in MembersAt(s.data, DbsKey()) && MayUse(s.data, s.user, db))
      || (reply == Err(Backend) && !s.reliable)
  }

  ghost predicate ShowTablesAnswers(s: Sess, stmt: Stmt, reply: Reply) {
    var db := if stmt.ShowStmt? then Resolve(stmt.dbName, s.currentDB) else s.currentDB;
    var tables := MembersAt(s.data, TablesKey(db));
    if db == "" then reply == Err(NoDatabaseSelected)
    else
      Reads(s, UsersKey(db), reply,
            if !MayUse(s.data, s.user, db) then reply == Err(AccessDenied(s.user, db))
            else
              Reads(s, TablesKey(db), reply,
                    if tables == {} then reply == Err(NoTablesFound)
                    else Lists(reply, "Tables_in_" + db, iset t | t in tables)))
  }

  /** The table data of a listed table: an empty answer without any, a store error on a key
      of another type, and what `serves` says for the decoded data. */
  predicate DataAnswers(host: Host, s: Sess, key: string, serves: (Table, Reply) -> bool, reply: Reply) {
    if key !in s.data then reply == Ok(EMPTY_SELECT) || (reply == Err(Backend) && !s.reliable)
    else
      match s.data[key]
      case Blob(payload) =>
        || (reply == Err(Backend) && !s.reliable)
        || (match DecodeTable(host, payload)
            case Some(t) => serves(t, reply)
            case None => reply == Err(Undecodable))
      case _ => reply == Err(Backend)
  }

  /** A statement that shows one table: the guards, and then its data. */
  ghost predicate TableAnswers(
    host: Host, s: Sess, source: Option<TableName>, serves: (Table, Reply) -> bool, reply: Reply) {
    if source.None? then
      reply == Ok(EMPTY_SELECT)
    else
      var db, table := Resolve(source.value.schema, s.currentDB), source.value.name;
      var served := DataAnswers(host, s, TableDataKey(db, table), serves, reply);
      if db == "" then reply == Ok(EMPTY_SELECT)
      else if table == "" then served
      else
        Reads(s, TablesKey(db), reply,
              if TableListed(host, s.data, db, table) then served else reply == Err(UnknownTable(table, db)))
  }

  /** The rows of the pipeline under their names, if the wire protocol can carry them. */
  function SelectReply(host: Host, sel: Select, t: Table): Reply {
    var rows := SelectedRows(host, sel, t);
    if host.encodes(rows) then Ok(Rows(SelectedTitles(host, sel, t), rows)) else Err(Unencodable)
  }

  function ServesRows(host: Host, sel: Select): (Table, Reply) -> bool {
    (t: Table, reply: Reply) => reply == SelectReply(host, sel, t)
  }

  ghost predicate SelectAnswers(host: Host, s: Sess, stmt: Stmt, reply: Reply) {
    if stmt.SelectStmt? then TableAnswers(host, s, stmt.source, ServesRows(host, stmt.sel), reply)
    else reply == Ok(EMPTY_SELECT)
  }

  const DESCRIBE_COLUMNS := ["Field", "Type", "Null", "Key", "Default", "Extra"]

  /** How a column is described: only one named `id`, up to case, is a key. */
  function Description(host: Host, c: ColumnDef): Row {
    var isId := EqualFold(host, c.name, "id");
    [Text(c.name), Text(c.kind), Text(if isId then "NO" else "YES"), Text(if isId then "PRI" else ""), Null, Text("")]
  }

  function Descriptions(host: Host, columns: seq<ColumnDef>): (rows: seq<Row>)
    ensures |rows| == |columns| && forall k :: 0 <= k < |columns| ==> rows[k] == Description(host, columns[k])
  {
    seq(|columns|, k requires 0 <= k < |columns| => Description(host, columns[k]))
  }

  function ServesDescription(host: Host): (Table, Reply) -> bool {
    (t: Table, reply: Reply) => reply == Ok(Rows(DESCRIBE_COLUMNS, Descriptions(host, t.columns)))
  }

  ghost predicate DescribeAnswers(host: Host, s: Sess, stmt: Stmt, reply: Reply) {
    if stmt.DescribeStmt? then TableAnswers(host, s, stmt.source, ServesDescription(host), reply)
    else reply == Ok(EMPTY_SELECT)
  }

  /** UseDB: the database is selected if the user is a member at that moment; on any
      failure the selection stays. */
  ghost predicate UseAnswers(pre: Sess, db: string, reply: Reply, post: Sess) {
    && Reads(pre, UsersKey(db), reply,
             reply == if MayUse(pre.data, pre.user, db) then Ok(Done) else Err(AccessDenied(pre.user, db)))
    && post == if reply == Ok(Done) then pre.(currentDB := db) else pre
  }

  function TrimSemicolon(s: string): string {
    if s != [] && s[|s| - 1] == ';' then s[..|s| - 1] else s
  }

  /** The database a USE query names, "" when it names none. */
  function UseTarget(host: Host, query: string): string {
    var words := Fields(host.space, query);
    if |words| < 2 then "" else TrimSemicolon(words[1])
  }

  /** What HandleQuery may answer, and the session after it. */
  ghost predicate QueryAnswers(host: Host, pre: Sess, query: string, stmt: Stmt, reply: Reply, post: Sess) {
    var route := RouteOf(Normalize(host, query));
    var (explicitDB, table) := Target(route, stmt);
    if route == Use && UseTarget(host, query) != "" then
      UseAnswers(pre, UseTarget(host, query), reply, post)
    else
      && post == pre
      && match route
         case ShowDatabases => ShowDatabasesAnswers(pre, reply)
         case ShowTables => ShowTablesAnswers(pre, stmt, reply)
         case SelectDatabase =>
           reply == Ok(Rows(["DATABASE()"], [[Text(if pre.currentDB == "" then "NULL" else pre.currentDB)]]))
         case SelectVersion => reply == Ok(Rows(["version()"], [[Text(VERSION)]]))
         case Use => reply == Ok(Done)
         case Describe => DescribeAnswers(host, pre, stmt, reply)
         case Introspection => reply == Err(ShowDenied(pre.user))
         case SelectRows => SelectAnswers(host, pre, stmt, reply)
         case CreateDatabase => reply == Err(AccessDenied(pre.user, explicitDB))
         case DropDatabase => reply == Err(AccessDenied(pre.user, explicitDB))
         case CreateTable =>
           reply == Err(if pre.currentDB == "" then NoDatabaseSelected
                        else AccessDenied(pre.user, Resolve(explicitDB, pre.currentDB)))
         case Ignored => reply == Ok(Done)
         case _ => Refused(host, pre, explicitDB, table, reply)
  }

  // ---------- The handler ----------

  class BlackHoleHandler {
    const host: Host
    const redis: Redis
    var currentDB: string
    var username: string

    constructor (host: Host, redis: Redis, username: string)
      ensures this.host == host && this.redis == redis && this.username == username && currentDB == ""
    {
      this.host, this.redis, this.username, this.currentDB := host, redis, username, "";
    }

    function Snapshot(): Sess
      reads this, redis
    {
      Sess(redis.data, redis.reliable, currentDB, username)
    }

    method UseDB(dbName: string) returns (reply: Reply)
      modifies this`currentDB
      ensures UseAnswers(old(Snapshot()), dbName, reply, Snapshot())
    {
      var allowed := redis.SIsMember(UsersKey(dbName), username);
      if allowed.Err? {
        return Err(allowed.error);
      }
      if !allowed.value {
        return Err(AccessDenied(username, dbName));
      }
      currentDB := dbName;
      reply := Ok(Done);
    }

    method HandleUse(query: string) returns (reply: Reply)
      modifies this`currentDB
      ensures if UseTarget(host, query) == "" then reply == Ok(Done) && Snapshot() == old(Snapshot())
              else UseAnswers(old(Snapshot()), UseTarget(host, query), reply, Snapshot())
    {
      var fields := Fields(host.space, query);
      if |fields| < 2 {
        return Ok(Done);
      }
      var db := TrimSemicolon(fields[1]);
      if db == "" {
        return Ok(Done);
      }
      reply := UseDB(db);
    }

    method HandleShowDatabases() returns (reply: Reply)
      ensures ShowDatabasesAnswers(Snapshot(), reply)
    {
      var dbNames := redis.SMembers(DbsKey());
      if dbNames.Err? {
        return Err(dbNames.error);
      }
      var shown: seq<string> := [];
      for i := 0 to |dbNames.value|
        invariant Distinct(shown)
        invariant forall db :: db in dbNames.value[..i] ==> SetAt(redis.data, UsersKey(db))
        invariant forall db :: db in shown <==> db in dbNames.value[..i] && MayUse(redis.data, username, db)
      {
        var db := dbNames.value[i];
        var allowed := redis.SIsMember(UsersKey(db), username);
        if allowed.Err? {
          return Err(allowed.error);
        }
        assert db !in dbNames.value[..i];
        assert dbNames.value[..i + 1] == dbNames.value[..i] + [db];
        if allowed.value {
          shown := shown + [db];
        }
      }
      assert dbNames.value[..|dbNames.value|] == dbNames.value;
      reply := Ok(Rows(["Database"], SingleColumn(shown)));
    }

    method HandleShowTables(stmt: Stmt) returns (reply: Reply)
      ensures ShowTablesAnswers(Snapshot(), stmt, reply)
    {
      var dbName := currentDB;
      if stmt.ShowStmt? && stmt.dbName != "" {
        dbName := stmt.dbName;
      }
      if dbName == "" {
        return Err(NoDatabaseSelected);
      }
      var allowed := redis.SIsMember(UsersKey(dbName), username);
      if allowed.Err? {
        return Err(allowed.error);
      }
      if !allowed.value {
        return Err(AccessDenied(username, dbName));
      }
      var tables := redis.SMembers(TablesKey(dbName));
      if tables.Err? {
        return Err(tables.error);
      }
      if |tables.value| == 0 {
        return Err(NoTablesFound);
      }
      assert tables.value[0] in MembersAt(redis.data, TablesKey(dbName));
      reply := Ok(Rows(["Tables_in_" + dbName], SingleColumn(tables.value)));
    }

    method TableExistsInDB(dbName: string, tableName: string) returns (r: Result<bool, Error>)
      ensures if r == Err(Backend) then !redis.reliable || !SetAt(redis.data, TablesKey(dbName))
              else SetAt(redis.data, TablesKey(dbName)) && r == Ok(TableListed(host, redis.data, dbName, tableName))
    {
      var members := redis.SMembers(TablesKey(dbName));
      if members.Err? {
        return Err(members.error);
      }
      for i := 0 to |members.value|
        invariant forall k :: 0 <= k < i ==> !EqualFold(host, members.value[k], tableName)
      {
        if EqualFold(host, members.value[i], tableName) {
          assert members.value[i] in MembersAt(redis.data, TablesKey(dbName));
          return Ok(true);
        }
      }
      r := Ok(false);
    }

    /** None when the table is listed, or when there is no database or no table to check. */
    method RequireTableInDB(dbName: string, tableName: string) returns (r: Option<Error>)
      ensures dbName == "" || tableName == "" ==> r == None
      ensures dbName != "" && tableName != "" ==>
        if r == Some(Backend) then !redis.reliable || !SetAt(redis.data, TablesKey(dbName))
        else
          && SetAt(redis.data, TablesKey(dbName))
          && r == if TableListed(host, redis.data, dbName, tableName) then None
                  else Some(UnknownTable(tableName, dbName))
    {
      if dbName == "" || tableName == "" {
        return None;
      }
      var listed := TableExistsInDB(dbName, tableName);
      if listed.Err? {
        return Some(listed.error);
      }
      r := if listed.value then None else Some(UnknownTable(tableName, dbName));
    }

    method DenyForDB(explicitDB: string, selectedDB: string) returns (reply: Reply)
      ensures var db := Resolve(explicitDB, selectedDB);
              reply == Err(if db == "" then NoDatabaseSelected else AccessDenied(username, db))
    {
      if explicitDB == "" && selectedDB == "" {
        return Err(NoDatabaseSelected);
      }
      var db := selectedDB;
      if explicitDB != "" {
        db := explicitDB;
      }
      reply := Err(AccessDenied(username, db));
    }

    /** handleDropTable and handleTruncate: the database is checked before the table. */
    method DenyDatabaseFirst(explicitDB: string, tableName: string) returns (reply: Reply)
      ensures Refused(host, Snapshot(), explicitDB, tableName, reply)
    {
      var dbName := currentDB;
      if explicitDB == "" && dbName == "" {
        return Err(NoDatabaseSelected);
      }
      if explicitDB != "" {
        dbName := explicitDB;
      }
      var missing := RequireTableInDB(dbName, tableName);
      if missing.Some? {
        return Err(missing.value);
      }
      reply := Err(AccessDenied(username, dbName));
    }

    /** handleDelete, handleInsert, handleUpdate, handleAlter, handleRename: the table first. */
    method DenyTableFirst(explicitDB: string, tableName: string) returns (reply: Reply)
      ensures Refused(host, Snapshot(), explicitDB, tableName, reply)
    {
      var dbName := currentDB;
      var resolvedDB := dbName;
      if explicitDB != "" {
        resolvedDB := explicitDB;
      }
      var missing := RequireTableInDB(resolvedDB, tableName);
      if missing.Some? {
        return Err(missing.value);
      }
      reply := DenyForDB(explicitDB, dbName);
    }

    method HandleCreateTable(stmt: Stmt) returns (reply: Reply)
      ensures reply == Err(if currentDB == "" then NoDatabaseSelected
                           else AccessDenied(username, Resolve(Target(CreateTable, stmt).0, currentDB)))
    {
      if currentDB == "" {
        return Err(NoDatabaseSelected);
      }
      var dbName := currentDB;
      if stmt.CreateTableStmt? && stmt.target.Some? {
        if stmt.target.value.schema != "" {
          dbName := stmt.target.value.schema;
        }
      }
      reply := Err(AccessDenied(username, dbName));
    }

    method HandleSelect(stmt: Stmt) returns (reply: Reply)
      ensures SelectAnswers(host, Snapshot(), stmt, reply)
    {
      if !stmt.SelectStmt? || stmt.source.None? {
        return Ok(EMPTY_SELECT);
      }
      var table := stmt.source.value;
      var dbName := currentDB;
      if table.schema != "" {
        dbName := table.schema;
      }
      if dbName == "" {
        return Ok(EMPTY_SELECT);
      }
      var missing := RequireTableInDB(dbName, table.name);
      if missing.Some? {
        return Err(missing.value);
      }
      var data := redis.Get(TableDataKey(dbName, table.name));
      if data.Err? {
        return Err(data.error);
      }
      if data.value.None? {
        return Ok(EMPTY_SELECT);
      }
      var t := DecodeTable(host, data.value.value);
      if t.None? {
        return Err(Undecodable);
      }
      var outCols, outRows := RunSelect(host, stmt.sel, t.value);
      if !host.encodes(outRows) {
        return Err(Unencodable);
      }
      reply := Ok(Rows(outCols, outRows));
    }

    method HandleDescribe(stmt: Stmt) returns (reply: Reply)
      ensures DescribeAnswers(host, Snapshot(), stmt, reply)
    {
      if !stmt.DescribeStmt? || stmt.source.None? {
        return Ok(EMPTY_SELECT);
      }
      var table := stmt.source.value;
      var dbName := currentDB;
      if table.schema != "" {
        dbName := table.schema;
      }
      if dbName == "" {
        return Ok(EMPTY_SELECT);
      }
      var missing := RequireTableInDB(dbName, table.name);
      if missing.Some? {
        return Err(missing.value);
      }
      var data := redis.Get(TableDataKey(dbName, table.name));
      if data.Err? {
        return Err(data.error);
      }
      if data.value.None? {
        return Ok(EMPTY_SELECT);
      }
      var t := DecodeTable(host, data.value.value);
      if t.None? {
        return Err(Undecodable);
      }
      var columns := t.value.columns;
      var rows: seq<Row> := [];
      for i := 0 to |columns|
        invariant |rows| == i && forall k :: 0 <= k < i ==> rows[k] == Description(host, columns[k])
      {
        var nullable, key := "YES", "";
        if EqualFold(host, columns[i].name, "id") {
          nullable, key := "NO", "PRI";
        }
        rows := rows + [[Text(columns[i].name), Text(columns[i].kind), Text(nullable), Text(key), Null, Text("")]];
      }
      assert rows == Descriptions(host, columns);
      reply := Ok(Rows(DESCRIBE_COLUMNS, rows));
    }

    method HandleQuery(query: string, stmt: Stmt) returns (reply: Reply)
      modifies this`currentDB
      ensures QueryAnswers(host, old(Snapshot()), query, stmt, reply, Snapshot())
    {
      hide ShowDatabasesAnswers, ShowTablesAnswers, SelectAnswers, DescribeAnswers, UseAnswers, TableListed, Reads;
      hide RouteOf, Normalize, UseTarget;
      var route := RouteOf(Normalize(host, query));
      var (explicitDB, tableName) := Target(route, stmt);
      match route {
        case ShowDatabases => reply := HandleShowDatabases();
        case ShowTables => reply := HandleShowTables(stmt);
        case SelectDatabase =>
          var db := currentDB;
          if db == "" {
            db := "NULL";
          }
          reply := Ok(Rows(["DATABASE()"], [[Text(db)]]));
        case SelectVersion => reply := Ok(Rows(["version()"], [[Text(VERSION)]]));
        case Use => reply := HandleUse(query);
        case Describe => reply := HandleDescribe(stmt);
        case Introspection => reply := Err(ShowDenied(username));
        case SelectRows => reply := HandleSelect(stmt);
        case CreateDatabase => reply := Err(AccessDenied(username, explicitDB));
        case DropDatabase => reply := Err(AccessDenied(username, explicitDB));
        case CreateTable => reply := HandleCreateTable(stmt);
        case DropTable => reply := DenyDatabaseFirst(explicitDB, tableName);
        case Truncate => reply := DenyDatabaseFirst(explicitDB, tableName);
        case Delete => reply := DenyTableFirst(explicitDB, tableName);
        case Insert => reply := DenyTableFirst(explicitDB, tableName);
        case Update => reply := DenyTableFirst(explicitDB, tableName);
        case Alter => reply := DenyTableFirst(explicitDB, tableName);
        case Rename => reply := DenyTableFirst(explicitDB, tableName);
        case Grant => reply := DenyForDB(explicitDB, currentDB);
        case Ignored => reply := Ok(Done);
      }
    }
  }
}
