// The seeder: the one writer of the store, and what a session sees after it has run.
module Seeder {
  import opened Common
  import opened Values
  import opened SelectHandler
  import opened TableData
  import opened Store
  import opened Session

  datatype DbConfig = DbConfig(name: string, users: seq<string>, tables: seq<string>, tableData: map<string, Table>)

  datatype UserConfig = UserConfig(username: string, password: string)

  // ---------- The seeded store ----------

  function SetOf(s: seq<string>): set<string> {
    set x | x in s
  }

  function WithoutMatching(data: Data, pattern: string): Data {
    map key | key in data && !GlobMatches(pattern, key) :: data[key]
  }

  /** What is left once the old databases are deleted. */
  function Cleared(data: Data): Data {
    WithoutMatching(WithoutMatching(data - {DbsKey()}, DbsKey() + ":"), "table_data:" + "*")
  }

  function AddMembers(data: Data, key: string, members: set<string>): Data {
    if members == {} then data else data[key := Members(MembersAt(data, key) + members)]
  }

  predicate IsTableKeyOf(db: string, key: string) {
    TableDataKey(db, "") <= key
  }

  /** The table a table key of `db` belongs to. */
  function TableOf(db: string, key: string): string
    requires IsTableKeyOf(db, key)
  {
    key[|TableDataKey(db, "")|..]
  }

  lemma TableOfKey(db: string, table: string)
    ensures IsTableKeyOf(db, TableDataKey(db, table)) && TableOf(db, TableDataKey(db, table)) == table
    ensures IsTableKey(TableDataKey(db, table))
  {
  }

  lemma KeyOfTable(db: string, key: string)
    requires IsTableKeyOf(db, key)
    ensures TableDataKey(db, TableOf(db, key)) == key
  {
  }

  /** The table keys of one database for the tables in `names` that can be stored. */
  function BlobsOf(host: Host, db: string, tableData: map<string, Table>, names: set<string>): Data
    requires names <= tableData.Keys
  {
    var keys := set t | t in names && EncodeTable(host, tableData[t]).Some? :: TableDataKey(db, t);
    map key | key in keys && IsTableKeyOf(db, key) && TableOf(db, key) in names
              && EncodeTable(host, tableData[TableOf(db, key)]).Some?
            :: Blob(EncodeTable(host, tableData[TableOf(db, key)]).value)
  }

  lemma BlobsOfAt(host: Host, db: string, tableData: map<string, Table>, names: set<string>, key: string)
    requires names <= tableData.Keys
    ensures var blobs := BlobsOf(host, db, tableData, names);
            && (key in blobs <==>
                && IsTableKeyOf(db, key) && TableOf(db, key) in names
                && EncodeTable(host, tableData[TableOf(db, key)]).Some?)
            && (key in blobs ==> blobs[key] == Blob(EncodeTable(host, tableData[TableOf(db, key)]).value))
            && (key in blobs ==> IsTableKey(key))
  {
    hide EncodeTable;
    if IsTableKeyOf(db, key) {
      KeyOfTable(db, key);
      TableOfKey(db, TableOf(db, key));
    }
    forall t | TableDataKey(db, t) == key
      ensures IsTableKeyOf(db, key) && TableOf(db, key) == t
    {
      TableOfKey(db, t);
    }
  }

  function BlobsOfDb(host: Host, db: DbConfig): Data {
    BlobsOf(host, db.name, db.tableData, db.tableData.Keys)
  }

  function SeedDb(host: Host, data: Data, db: DbConfig): Data {
    AddMembers(AddMembers(data, UsersKey(db.name), SetOf(db.users)), TablesKey(db.name), SetOf(db.tables))
    + BlobsOfDb(host, db)
  }

  function SeedDbs(host: Host, data: Data, dbs: seq<DbConfig>): Data {
    if dbs == [] then data else SeedDb(host, SeedDbs(host, data, dbs[..|dbs| - 1]), dbs[|dbs| - 1])
  }

  function NamesIn(dbs: seq<DbConfig>): set<string> {
    set i | 0 <= i < |dbs| :: dbs[i].name
  }

  function SeededDbs(host: Host, data: Data, dbs: seq<DbConfig>): Data {
    SeedDbs(host, Cleared(data)[DbsKey() := Members(NamesIn(dbs))], dbs)
  }

  function Passwords(users: seq<UserConfig>): map<string, string> {
    if users == [] then map[]
    else Passwords(users[..|users| - 1])[users[|users| - 1].username := users[|users| - 1].password]
  }

  function SeededUsers(data: Data, users: seq<UserConfig>): Data {
    if users == [] then data - {MySQLUsersKey()} else data[MySQLUsersKey() := Hash(Passwords(users))]
  }

  function Seeded(host: Host, data: Data, dbs: seq<DbConfig>, users: seq<UserConfig>): Data {
    SeededUsers(SeededDbs(host, data, dbs), users)
  }

  // ---------- When seeding succeeds ----------

  /** Every table with columns can be encoded. */
  predicate Storable(host: Host, tableData: map<string, Table>) {
    forall t :: t in tableData ==> tableData[t].columns == [] || EncodeTable(host, tableData[t]).Some?
  }

  function AddedBy(db: DbConfig, key: string): set<string> {
    if key == UsersKey(db.name) then SetOf(db.users) else if key == TablesKey(db.name) then SetOf(db.tables) else {}
  }

  /** All members a configuration adds to a key. */
  function Added(dbs: seq<DbConfig>, key: string): set<string> {
    if dbs == [] then {} else Added(dbs[..|dbs| - 1], key) + AddedBy(dbs[|dbs| - 1], key)
  }

  /** No key the seeder adds members to holds anything but a set. */
  ghost predicate WellTyped(data: Data, dbs: seq<DbConfig>) {
    forall key :: Added(dbs, key) != {} ==> SetAt(data, key)
  }

  ghost predicate DbSeedable(host: Host, data: Data, db: DbConfig) {
    (forall key :: AddedBy(db, key) != {} ==> SetAt(data, key)) && Storable(host, db.tableData)
  }

  /** What a seeding needs: a database, sets or nothing where it adds members, and tables
      that can be encoded. */
  ghost predicate CanSeed(host: Host, data: Data, dbs: seq<DbConfig>) {
    dbs != [] && WellTyped(data, dbs) && forall i :: 0 <= i < |dbs| ==> Storable(host, dbs[i].tableData)
  }

  /** The keys the seeder deletes first. */
  predicate Erased(key: string) {
    key == DbsKey() || key == DbsKey() + ":" || IsTableKey(key)
  }

  predicate SameAt(was: Data, now: Data, key: string) {
    (key in now <==> key in was) && (key in now ==> now[key] == was[key])
  }

  /** From `was` to `now` the key can only have gained members that are to be added anyway. */
  predicate GrownAt(was: Data, now: Data, key: string, added: set<string>) {
    if added == {} then SameAt(was, now, key) else MembersAt(now, key) + added == MembersAt(was, key) + added
  }

  /** A seeding can start over from `now` as from `was`: apart from what it erases or sets
      anyway, every key is as it was or has gained members the configuration adds. */
  ghost predicate Restartable(was: Data, now: Data, dbs: seq<DbConfig>) {
    forall key :: !Erased(key) && key != MySQLUsersKey() ==> GrownAt(was, now, key, Added(dbs, key))
  }

  // ---------- Key by key ----------

  /** Clearing removes the database list, the table data and the key `supported_dbs:`
      itself. The user and table lists of the databases survive: the pattern meant to
      delete them has no `*`. */
  lemma ClearedKeys(data: Data, key: string)
    ensures key in Cleared(data) <==> key in data && !Erased(key)
    ensures key in Cleared(data) ==> Cleared(data)[key] == data[key]
  {
    GlobOfLiterals(DbsKey() + ":", key);
    GlobOfLiterals("table_data:", key);
  }

  lemma ListKeysStay(db: string)
    ensures !Erased(UsersKey(db)) && !Erased(TablesKey(db))
    ensures UsersKey(db) != MySQLUsersKey() && TablesKey(db) != MySQLUsersKey()
    ensures MySQLUsersKey() != DbsKey() && Erased(DbsKey())
  {
    ListKeysAreApart(db);
    KeysAreApart(db, db, "");
  }

  lemma {:induction false} AddedOnlyToLists(dbs: seq<DbConfig>, key: string)
    ensures Added(dbs, key) != {} ==> !Erased(key) && key != MySQLUsersKey()
  {
    hide UsersKey, TablesKey, DbsKey, MySQLUsersKey, Erased;
    if dbs != [] {
      AddedOnlyToLists(dbs[..|dbs| - 1], key);
      ListKeysStay(dbs[|dbs| - 1].name);
    }
  }

  /** All table data of a configuration, a later database winning over an earlier one. */
  function Blobs(host: Host, dbs: seq<DbConfig>): Data {
    if dbs == [] then map[] else Blobs(host, dbs[..|dbs| - 1]) + BlobsOfDb(host, dbs[|dbs| - 1])
  }

  lemma BlobsOfDbAreErased(host: Host, db: DbConfig, key: string)
    ensures key in BlobsOfDb(host, db) ==>
      BlobsOfDb(host, db)[key].Blob? && Erased(key) && key != DbsKey() && key != MySQLUsersKey()
  {
    BlobsOfAt(host, db.name, db.tableData, db.tableData.Keys, key);
    KeysAreApart("", "", "");
  }

  lemma {:induction false} BlobsAreErased(host: Host, dbs: seq<DbConfig>, key: string)
    ensures key in Blobs(host, dbs) ==>
      Blobs(host, dbs)[key].Blob? && Erased(key) && key != DbsKey() && key != MySQLUsersKey()
  {
    hide BlobsOfDb, DbsKey, MySQLUsersKey, Erased;
    if dbs != [] {
      BlobsAreErased(host, dbs[..|dbs| - 1], key);
      BlobsOfDbAreErased(host, dbs[|dbs| - 1], key);
    }
  }

  lemma SeedDbAt(host: Host, data: Data, db: DbConfig, key: string)
    ensures var seeded := SeedDb(host, data, db);
            && (key in seeded <==> key in data || key in BlobsOfDb(host, db) || AddedBy(db, key) != {})
            && (key in BlobsOfDb(host, db) ==> AddedBy(db, key) == {} && seeded[key] == BlobsOfDb(host, db)[key])
            && (AddedBy(db, key) != {} ==> seeded[key] == Members(MembersAt(data, key) + AddedBy(db, key)))
            && (key in data && key !in BlobsOfDb(host, db) && AddedBy(db, key) == {} ==> seeded[key] == data[key])
  {
    hide UsersKey, TablesKey, BlobsOfDb, Erased, DbsKey, MySQLUsersKey;
    KeysAreApart(db.name, db.name, "");
    BlobsOfDbAreErased(host, db, key);
    ListKeysStay(db.name);
  }

  /** The configured part of the store in closed form, one key at a time. */
  lemma {:induction false} SeedDbsAt(host: Host, data: Data, dbs: seq<DbConfig>, key: string)
    ensures var seeded := SeedDbs(host, data, dbs);
            && (key in seeded <==> key in data || key in Blobs(host, dbs) || Added(dbs, key) != {})
            && (key in Blobs(host, dbs) ==> Added(dbs, key) == {} && seeded[key] == Blobs(host, dbs)[key])
            && (Added(dbs, key) != {} ==> seeded[key] == Members(MembersAt(data, key) + Added(dbs, key)))
            && (key in data && key !in Blobs(host, dbs) && Added(dbs, key) == {} ==> seeded[key] == data[key])
  {
    hide SeedDb, BlobsOfDb, AddedBy, Erased, DbsKey, MySQLUsersKey;
    if dbs != [] {
      var init, last := dbs[..|dbs| - 1], dbs[|dbs| - 1];
      SeedDbsAt(host, data, init, key);
      SeedDbAt(host, SeedDbs(host, data, init), last, key);
      BlobsAreErased(host, dbs, key);
      AddedOnlyToLists(dbs, key);
    }
  }

  lemma SeededDbsAt(host: Host, data: Data, dbs: seq<DbConfig>, key: string)
    ensures var seeded := SeededDbs(host, data, dbs);
            && (key in seeded <==>
                key == DbsKey() || (key in data && !Erased(key)) || key in Blobs(host, dbs) || Added(dbs, key) != {})
            && (key in Blobs(host, dbs) ==> seeded[key] == Blobs(host, dbs)[key])
            && (key == DbsKey() ==> seeded[key] == Members(NamesIn(dbs)))
            && (Added(dbs, key) != {} ==> seeded[key] == Members(MembersAt(data, key) + Added(dbs, key)))
            && (key in data && !Erased(key) && Added(dbs, key) == {} ==> seeded[key] == data[key])
  {
    hide Cleared, SeedDbs, Blobs, Added, Erased, DbsKey, MySQLUsersKey;
    var start := Cleared(data)[DbsKey() := Members(NamesIn(dbs))];
    ClearedKeys(data, key);
    SeedDbsAt(host, start, dbs, key);
    BlobsAreErased(host, dbs, key);
    AddedOnlyToLists(dbs, key);
    ListKeysStay("");
  }

  // ---------- The program ----------

  method DeleteKeysByPattern(redis: Redis, pattern: string) returns (ok: bool)
    modifies redis`data
    ensures ok ==> redis.data == WithoutMatching(old(redis.data), pattern)
    ensures forall key :: !GlobMatches(pattern, key) ==> SameAt(old(redis.data), redis.data, key)
    ensures redis.reliable ==> ok
  {
    ghost var was := redis.data;
    if !redis.reliable {
      if * {
        return false;
      }
    }
    var found := set key | key in redis.data && GlobMatches(pattern, key);
    while found != {}
      invariant found <= redis.data.Keys
      invariant forall key :: key in found ==> GlobMatches(pattern, key)
      invariant forall key :: key in redis.data ==> key in was && redis.data[key] == was[key]
      invariant forall key :: key in was && key !in found && GlobMatches(pattern, key) ==> key !in redis.data
      invariant forall key :: key in was && !GlobMatches(pattern, key) ==> key in redis.data
      decreases found
    {
      var key :| key in found;
      var deleted := redis.Del(key);
      if !deleted {
        return false;
      }
      found := found - {key};
    }
    ok := true;
  }

  lemma NoBlobs(host: Host, db: string, tableData: map<string, Table>)
    ensures BlobsOf(host, db, tableData, {}) == map[]
  {
  }

  lemma NothingToStore(host: Host, t: Table)
    requires t.columns == []
    ensures EncodeTable(host, t) == None
  {
  }

  lemma OneMoreBlob(host: Host, was: Data, db: string, tableData: map<string, Table>, done: set<string>, table: string)
    requires done <= tableData.Keys && table in tableData
    ensures was + BlobsOf(host, db, tableData, done + {table})
         == match EncodeTable(host, tableData[table])
            case None => was + BlobsOf(host, db, tableData, done)
            case Some(payload) => (was + BlobsOf(host, db, tableData, done))[TableDataKey(db, table) := Blob(payload)]
  {
    hide TableDataKey, IsTableKeyOf, TableOf, BlobsOf, IsTableKey, EncodeTable;
    var k, payload := TableDataKey(db, table), EncodeTable(host, tableData[table]);
    var before, after := BlobsOf(host, db, tableData, done), BlobsOf(host, db, tableData, done + {table});
    TableOfKey(db, table);
    forall key
      ensures key in after <==> key in before || (key == k && payload.Some?)
      ensures key in after ==> after[key] == if key == k && payload.Some? then Blob(payload.value) else before[key]
    {
      BlobsOfAt(host, db, tableData, done, key);
      BlobsOfAt(host, db, tableData, done + {table}, key);
      if IsTableKeyOf(db, key) {
        KeyOfTable(db, key);
      }
    }
    BlobsOfAt(host, db, tableData, done, k);
    assert after == match payload case None => before case Some(p) => before[k := Blob(p)];
  }

  method SeedTableData(host: Host, redis: Redis, dbName: string, tableData: map<string, Table>) returns (ok: bool)
    modifies redis`data
    ensures ok ==> Storable(host, tableData)
    ensures ok ==> redis.data == old(redis.data) + BlobsOf(host, dbName, tableData, tableData.Keys)
    ensures forall key :: !IsTableKey(key) ==> SameAt(old(redis.data), redis.data, key)
    ensures redis.reliable && Storable(host, tableData) ==> ok
  {
    hide EncodeTable, BlobsOf, TableDataKey;
    ghost var was := redis.data;
    var rest: set<string>, done: set<string> := tableData.Keys, {};
    NoBlobs(host, dbName, tableData);
    while rest != {}
      invariant rest + done == tableData.Keys
      invariant redis.data == was + BlobsOf(host, dbName, tableData, done)
      invariant forall key :: !IsTableKey(key) ==> SameAt(was, redis.data, key)
      invariant forall t :: t in done ==> tableData[t].columns == [] || EncodeTable(host, tableData[t]).Some?
      decreases rest
    {
      var table :| table in rest;
      OneMoreBlob(host, was, dbName, tableData, done, table);
      if tableData[table].columns != [] {
        var payload := EncodeTable(host, tableData[table]);
        if payload.None? {
          return false;
        }
        TableOfKey(dbName, table);
        var stored := redis.Set(TableDataKey(dbName, table), payload.value);
        if !stored {
          return false;
        }
      } else {
        NothingToStore(host, tableData[table]);
      }
      rest, done := rest - {table}, done + {table};
    }
    assert done == tableData.Keys;
    ok := true;
  }

  lemma ErasedByPatterns()
    ensures forall key :: GlobMatches(DbsKey() + ":", key) || GlobMatches("table_data:" + "*", key) ==> Erased(key)
  {
    forall key | GlobMatches(DbsKey() + ":", key) || GlobMatches("table_data:" + "*", key)
      ensures Erased(key)
    {
      GlobOfLiterals(DbsKey() + ":", key);
      GlobOfLiterals("table_data:", key);
    }
  }

  method ClearDatabases(redis: Redis) returns (ok: bool)
    modifies redis`data
    ensures ok ==> redis.data == Cleared(old(redis.data))
    ensures forall key :: !Erased(key) ==> SameAt(old(redis.data), redis.data, key)
    ensures redis.reliable ==> ok
  {
    ErasedByPatterns();
    ok := redis.Del(DbsKey());
    if !ok {
      return false;
    }
    ok := DeleteKeysByPattern(redis, DbsKey() + ":");
    if !ok {
      return false;
    }
    ok := DeleteKeysByPattern(redis, "table_data:" + "*");
  }

  lemma NothingGrown(was: Data, db: DbConfig)
    ensures forall key :: GrownAt(was, was, key, AddedBy(db, key))
  {
  }

  lemma ListGrown(was: Data, before: Data, db: DbConfig, key: string)
    requires forall k :: GrownAt(was, before, k, AddedBy(db, k))
    ensures var now := before[key := Members(MembersAt(before, key) + AddedBy(db, key))];
            AddedBy(db, key) != {} ==> forall k :: GrownAt(was, now, k, AddedBy(db, k))
  {
    hide AddedBy;
    var now := before[key := Members(MembersAt(before, key) + AddedBy(db, key))];
    if AddedBy(db, key) != {} {
      forall k
        ensures GrownAt(was, now, k, AddedBy(db, k))
      {
        assert GrownAt(was, before, k, AddedBy(db, k));
      }
    }
  }

  lemma StillGrown(was: Data, before: Data, now: Data, db: DbConfig)
    requires forall key :: !Erased(key) ==> GrownAt(was, before, key, AddedBy(db, key))
    requires forall key :: !IsTableKey(key) ==> SameAt(before, now, key)
    ensures forall key :: !Erased(key) ==> GrownAt(was, now, key, AddedBy(db, key))
  {
    hide AddedBy;
    forall key | !Erased(key)
      ensures GrownAt(was, now, key, AddedBy(db, key))
    {
      assert GrownAt(was, before, key, AddedBy(db, key)) && SameAt(before, now, key);
    }
  }

  /** The loop body of the seeding: the users, tables and table data of one database. */
  method SeedOneDb(host: Host, redis: Redis, db: DbConfig) returns (ok: bool)
    modifies redis`data
    ensures ok ==> DbSeedable(host, old(redis.data), db) && redis.data == SeedDb(host, old(redis.data), db)
    ensures forall key :: !Erased(key) ==> GrownAt(old(redis.data), redis.data, key, AddedBy(db, key))
    ensures redis.reliable && DbSeedable(host, old(redis.data), db) ==> ok
  {
    hide UsersKey, TablesKey, BlobsOf, Storable, Erased, GrownAt, SameAt;
    ghost var was := redis.data;
    KeysAreApart(db.name, db.name, "");
    NothingGrown(was, db);
    if |db.users| > 0 {
      assert db.users[0] in SetOf(db.users);
      assert AddedBy(db, UsersKey(db.name)) != {};
      ListGrown(was, redis.data, db, UsersKey(db.name));
      ok := redis.SAdd(UsersKey(db.name), SetOf(db.users));
      if !ok {
        return false;
      }
    }
    if |db.tables| > 0 {
      assert db.tables[0] in SetOf(db.tables);
      assert AddedBy(db, TablesKey(db.name)) != {};
      ListGrown(was, redis.data, db, TablesKey(db.name));
      ok := redis.SAdd(TablesKey(db.name), SetOf(db.tables));
      if !ok {
        return false;
      }
    }
    ghost var before := redis.data;
    ok := SeedTableData(host, redis, db.name, db.tableData);
    StillGrown(was, before, redis.data, db);
  }

  lemma ErasedRestartable(was: Data, now: Data, dbs: seq<DbConfig>)
    requires forall key :: !Erased(key) ==> SameAt(was, now, key)
    ensures Restartable(was, now, dbs)
  {
    hide Added, Erased, MySQLUsersKey;
  }

  lemma OneKeyErased(was: Data, before: Data, key: string, entry: Entry, dbs: seq<DbConfig>)
    requires Restartable(was, before, dbs) && Erased(key)
    ensures Restartable(was, before[key := entry], dbs)
  {
    hide Added, Erased, MySQLUsersKey;
    var now := before[key := entry];
    forall other | !Erased(other) && other != MySQLUsersKey()
      ensures GrownAt(was, now, other, Added(dbs, other))
    {
      assert GrownAt(was, before, other, Added(dbs, other));
    }
  }

  lemma {:induction false} AddedByOne(dbs: seq<DbConfig>, i: nat, key: string)
    requires i < |dbs|
    ensures AddedBy(dbs[i], key) <= Added(dbs, key)
  {
    if i < |dbs| - 1 {
      AddedByOne(dbs[..|dbs| - 1], i, key);
    }
  }

  lemma GrownRestartable(was: Data, before: Data, now: Data, dbs: seq<DbConfig>, i: nat)
    requires Restartable(was, before, dbs) && i < |dbs|
    requires forall key :: !Erased(key) ==> GrownAt(before, now, key, AddedBy(dbs[i], key))
    ensures Restartable(was, now, dbs)
  {
    hide Added, AddedBy, Erased, MySQLUsersKey;
    forall key | !Erased(key) && key != MySQLUsersKey()
      ensures GrownAt(was, now, key, Added(dbs, key))
    {
      AddedByOne(dbs, i, key);
      assert GrownAt(was, before, key, Added(dbs, key)) && GrownAt(before, now, key, AddedBy(dbs[i], key));
      var all, one := Added(dbs, key), AddedBy(dbs[i], key);
      assert MembersAt(now, key) + all == (MembersAt(now, key) + one) + all;
      assert MembersAt(before, key) + all == (MembersAt(before, key) + one) + all;
    }
  }

  lemma NoNames(dbs: seq<DbConfig>)
    ensures NamesIn(dbs) == {} <==> dbs == []
  {
    if dbs != [] {
      assert dbs[0].name in NamesIn(dbs);
    }
  }

  /** Clearing changes no key the seeder adds members to. */
  lemma StartTyped(data: Data, dbs: seq<DbConfig>)
    ensures WellTyped(Cleared(data)[DbsKey() := Members(NamesIn(dbs))], dbs) <==> WellTyped(data, dbs)
  {
    hide Cleared, Added, Erased, DbsKey, MySQLUsersKey;
    var start := Cleared(data)[DbsKey() := Members(NamesIn(dbs))];
    forall key | Added(dbs, key) != {}
      ensures SetAt(start, key) <==> SetAt(data, key)
    {
      ClearedKeys(data, key);
      AddedOnlyToLists(dbs, key);
      ListKeysStay("");
    }
  }

  lemma {:induction false} AddedGrows(dbs: seq<DbConfig>, i: nat, key: string)
    requires i <= |dbs|
    ensures Added(dbs[..i], key) <= Added(dbs, key)
  {
    if i < |dbs| {
      AddedGrows(dbs[..|dbs| - 1], i, key);
      assert dbs[..|dbs| - 1][..i] == dbs[..i];
    } else {
      assert dbs[..i] == dbs;
    }
  }

  /** Database `i` finds the right types exactly when the databases up to it did from the start. */
  lemma StepsTyped(host: Host, start: Data, dbs: seq<DbConfig>, i: nat)
    requires i < |dbs|
    ensures WellTyped(start, dbs[..0]) && SeedDbs(host, start, dbs[..0]) == start
    ensures WellTyped(start, dbs) ==> WellTyped(start, dbs[..i + 1])
    ensures WellTyped(start, dbs[..i]) && Storable(host, dbs[i].tableData) ==>
      (DbSeedable(host, SeedDbs(host, start, dbs[..i]), dbs[i]) <==> WellTyped(start, dbs[..i + 1]))
    ensures DbSeedable(host, SeedDbs(host, start, dbs[..i]), dbs[i]) ==> Storable(host, dbs[i].tableData)
    ensures SeedDbs(host, start, dbs[..i + 1]) == SeedDb(host, SeedDbs(host, start, dbs[..i]), dbs[i])
  {
    hide AddedBy, Erased, DbsKey, MySQLUsersKey, Storable, SeedDb, Blobs;
    var before, next, seeded := dbs[..i], dbs[..i + 1], SeedDbs(host, start, dbs[..i]);
    assert next[..i] == before && next[i] == dbs[i];
    forall key
      ensures Added(next, key) <= Added(dbs, key)
      ensures Added(next, key) == Added(before, key) + AddedBy(dbs[i], key)
      ensures AddedBy(dbs[i], key) != {} && SetAt(start, key) ==> SetAt(seeded, key)
      ensures AddedBy(dbs[i], key) != {} && Added(before, key) == {} && SetAt(seeded, key) ==> SetAt(start, key)
    {
      AddedGrows(dbs, i + 1, key);
      SeedDbsAt(host, start, before, key);
      BlobsAreErased(host, before, key);
      AddedOnlyToLists(next, key);
    }
  }

  method SeedSupportedDBs(host: Host, redis: Redis, dbs: seq<DbConfig>) returns (ok: bool)
    modifies redis`data
    ensures ok ==> CanSeed(host, old(redis.data), dbs) && redis.data == SeededDbs(host, old(redis.data), dbs)
    ensures Restartable(old(redis.data), redis.data, dbs)
    ensures redis.reliable && CanSeed(host, old(redis.data), dbs) ==> ok
  {
    hide DbsKey, Cleared, SeedDb, SeedDbs, Erased, Storable, DbSeedable, WellTyped, Restartable, GrownAt, SameAt;
    ghost var was := redis.data;
    ok := ClearDatabases(redis);
    ErasedRestartable(was, redis.data, dbs);
    if !ok {
      return false;
    }
    ghost var cleared := redis.data;
    ClearedKeys(old(redis.data), DbsKey());
    ListKeysStay("");
    NoNames(dbs);
    ok := redis.SAdd(DbsKey(), NamesIn(dbs));
    if !ok {
      return false;
    }
    ghost var start := cleared[DbsKey() := Members(NamesIn(dbs))];
    assert {} + NamesIn(dbs) == NamesIn(dbs);
    StartTyped(was, dbs);
    OneKeyErased(was, cleared, DbsKey(), Members(NamesIn(dbs)), dbs);
    StepsTyped(host, start, dbs, 0);
    for i := 0 to |dbs|
      invariant redis.data == SeedDbs(host, start, dbs[..i])
      invariant WellTyped(start, dbs[..i]) && Restartable(was, redis.data, dbs)
      invariant forall j :: 0 <= j < i ==> Storable(host, dbs[j].tableData)
    {
      StepsTyped(host, start, dbs, i);
      ghost var before := redis.data;
      ok := SeedOneDb(host, redis, dbs[i]);
      GrownRestartable(was, before, redis.data, dbs, i);
      if !ok {
        return false;
      }
    }
    assert dbs[..|dbs|] == dbs;
    ok := true;
  }

  method SeedMySQLUsers(redis: Redis, users: seq<UserConfig>) returns (ok: bool)
    modifies redis`data
    ensures ok ==> redis.data == SeededUsers(old(redis.data), users)
    ensures forall key :: key != MySQLUsersKey() ==> SameAt(old(redis.data), redis.data, key)
    ensures redis.reliable ==> ok
  {
    ok := redis.Del(MySQLUsersKey());
    if !ok {
      return false;
    }
    if |users| == 0 {
      return true;
    }
    var fields: map<string, string> := map[];
    for i := 0 to |users|
      invariant fields == Passwords(users[..i])
    {
      assert users[..i + 1][..i] == users[..i];
      fields := fields[users[i].username := users[i].password];
    }
    assert users[..|users|] == users;
    assert map[] + fields == fields;
    assert users[|users| - 1].username in fields;
    ok := redis.HSet(MySQLUsersKey(), fields);
    assert ok ==> redis.data == old(redis.data)[MySQLUsersKey() := Hash(fields)];
  }

  lemma RestartableStill(was: Data, before: Data, now: Data, dbs: seq<DbConfig>)
    requires Restartable(was, before, dbs)
    requires forall key :: key != MySQLUsersKey() ==> SameAt(before, now, key)
    ensures Restartable(was, now, dbs)
  {
    hide Added, Erased, MySQLUsersKey;
    forall key | !Erased(key) && key != MySQLUsersKey()
      ensures GrownAt(was, now, key, Added(dbs, key))
    {
      assert GrownAt(was, before, key, Added(dbs, key)) && SameAt(before, now, key);
    }
  }

  /** A seeding that starts over gives what it would have given at first. */
  lemma RestartedSeeding(host: Host, was: Data, now: Data, dbs: seq<DbConfig>, users: seq<UserConfig>)
    requires Restartable(was, now, dbs)
    ensures Seeded(host, now, dbs, users) == Seeded(host, was, dbs, users)
  {
    hide SeededDbs, Blobs, Added, Erased, DbsKey, MySQLUsersKey, Passwords;
    var first, again := Seeded(host, was, dbs, users), Seeded(host, now, dbs, users);
    forall key
      ensures key in again <==> key in first
      ensures key in again ==> again[key] == first[key]
    {
      SeededDbsAt(host, was, dbs, key);
      SeededDbsAt(host, now, dbs, key);
      BlobsAreErased(host, dbs, key);
      AddedOnlyToLists(dbs, key);
      ListKeysStay("");
      assert !Erased(key) && key != MySQLUsersKey() ==> GrownAt(was, now, key, Added(dbs, key));
    }
  }

  /** Seeding succeeds only if it can, and over a reliable store whenever it can. Wherever a
      seeding stops, the next one leaves the store as if this one had not been. */
  method Seed(host: Host, redis: Redis, dbs: seq<DbConfig>, users: seq<UserConfig>) returns (ok: bool)
    modifies redis`data
    ensures ok ==> CanSeed(host, old(redis.data), dbs) && redis.data == Seeded(host, old(redis.data), dbs, users)
    ensures Seeded(host, redis.data, dbs, users) == Seeded(host, old(redis.data), dbs, users)
    ensures redis.reliable && CanSeed(host, old(redis.data), dbs) ==> ok
  {
    hide SeededDbs, SeededUsers, CanSeed, Restartable;
    ghost var was := redis.data;
    ok := SeedSupportedDBs(host, redis, dbs);
    if ok {
      ghost var seeded := redis.data;
      ok := SeedMySQLUsers(redis, users);
      RestartableStill(was, seeded, redis.data, dbs);
    }
    RestartedSeeding(host, was, redis.data, dbs, users);
  }

  // ---------- Results ----------

  /** Seeding again with the same configuration changes nothing, whatever the store held. */
  lemma SeedingIsIdempotent(host: Host, data: Data, dbs: seq<DbConfig>, users: seq<UserConfig>)
    ensures Seeded(host, Seeded(host, data, dbs, users), dbs, users) == Seeded(host, data, dbs, users)
  {
    hide SeededDbs, Blobs, Added, Erased, DbsKey, MySQLUsersKey, Passwords;
    var once := Seeded(host, data, dbs, users);
    var twice := Seeded(host, once, dbs, users);
    forall key
      ensures key in twice <==> key in once
      ensures key in twice ==> twice[key] == once[key]
    {
      SeededDbsAt(host, data, dbs, key);
      SeededDbsAt(host, once, dbs, key);
      BlobsAreErased(host, dbs, key);
      AddedOnlyToLists(dbs, key);
      ListKeysStay("");
    }
  }

  /** Seeding a store leaves one on which seeding succeeds again: all it takes is a database
      and tables that can be encoded. */
  lemma SeedingCanBeRepeated(host: Host, data: Data, dbs: seq<DbConfig>, users: seq<UserConfig>)
    ensures CanSeed(host, Seeded(host, data, dbs, users), dbs)
       <==> dbs != [] && forall i :: 0 <= i < |dbs| ==> Storable(host, dbs[i].tableData)
  {
    hide SeededDbs, Blobs, Added, Erased, DbsKey, MySQLUsersKey, Passwords, Storable;
    forall key | Added(dbs, key) != {}
      ensures SetAt(Seeded(host, data, dbs, users), key)
    {
      SeededDbsAt(host, data, dbs, key);
      AddedOnlyToLists(dbs, key);
    }
  }

  lemma SeededKeyTyped(host: Host, data: Data, dbs: seq<DbConfig>, users: seq<UserConfig>, key: string)
    requires WellTyped(data, dbs)
    ensures var seeded := Seeded(host, data, dbs, users);
            && (!Erased(key) && key != MySQLUsersKey() ==> (SetAt(seeded, key) <==> SetAt(data, key)))
            && (key in seeded && IsTableKey(key) ==> seeded[key].Blob?)
  {
    hide SeededDbs, Blobs, Added, DbsKey, MySQLUsersKey, Passwords;
    SeededDbsAt(host, data, dbs, key);
    BlobsAreErased(host, dbs, key);
    AddedOnlyToLists(dbs, key);
    KeysAreApart("", "", "");
  }

  /** After a seeding the store has the right types for every session exactly when the lists
      of all databases had them before. */
  lemma SeededStoreIsTyped(host: Host, data: Data, dbs: seq<DbConfig>, users: seq<UserConfig>)
    requires CanSeed(host, data, dbs)
    ensures StoreTyped(Seeded(host, data, dbs, users))
       <==> forall db :: SetAt(data, UsersKey(db)) && SetAt(data, TablesKey(db))
  {
    hide SeededDbs, Blobs, Added, Erased, DbsKey, MySQLUsersKey, Passwords, Storable, UsersKey, TablesKey;
    var seeded := Seeded(host, data, dbs, users);
    forall key
      ensures !Erased(key) && key != MySQLUsersKey() ==> (SetAt(seeded, key) <==> SetAt(data, key))
      ensures key in seeded && IsTableKey(key) ==> seeded[key].Blob?
    {
      SeededKeyTyped(host, data, dbs, users, key);
    }
    forall db
      ensures SetAt(seeded, UsersKey(db)) <==> SetAt(data, UsersKey(db))
      ensures SetAt(seeded, TablesKey(db)) <==> SetAt(data, TablesKey(db))
    {
      ListKeysStay(db);
    }
    SeededDbsAt(host, data, dbs, DbsKey());
    ListKeysStay("");
  }

  /** The members of a list key after seeding: those it had, and those configured. */
  lemma MembersAfterSeeding(host: Host, data: Data, dbs: seq<DbConfig>, users: seq<UserConfig>, key: string)
    requires !Erased(key) && key != MySQLUsersKey()
    ensures MembersAt(Seeded(host, data, dbs, users), key) == MembersAt(data, key) + Added(dbs, key)
  {
    hide SeededDbs, Blobs, Added, Erased, DbsKey, MySQLUsersKey, Passwords;
    SeededDbsAt(host, data, dbs, key);
    BlobsAreErased(host, dbs, key);
    ListKeysStay("");
  }

  ghost predicate Configured(dbs: seq<DbConfig>, user: string, db: string) {
    exists i :: 0 <= i < |dbs| && dbs[i].name == db && user in dbs[i].users
  }

  lemma {:induction false} AddedUsers(dbs: seq<DbConfig>, user: string, db: string)
    ensures user in Added(dbs, UsersKey(db)) <==> Configured(dbs, user, db)
  {
    hide UsersKey, TablesKey;
    if dbs != [] {
      var init, last := dbs[..|dbs| - 1], dbs[|dbs| - 1];
      AddedUsers(init, user, db);
      KeysAreApart(db, last.name, "");
      assert forall i :: 0 <= i < |init| ==> dbs[i] == init[i];
    }
  }

  /** Seeding grants the configured memberships and revokes none. */
  lemma MembershipAfterSeeding(
    host: Host, data: Data, dbs: seq<DbConfig>, users: seq<UserConfig>, user: string, db: string)
    ensures MayUse(Seeded(host, data, dbs, users), user, db) <==> Configured(dbs, user, db) || MayUse(data, user, db)
  {
    hide UsersKey, Seeded, Erased, MySQLUsersKey, DbsKey;
    ListKeysStay(db);
    MembersAfterSeeding(host, data, dbs, users, UsersKey(db));
    AddedUsers(dbs, user, db);
  }

  /** The seeded memberships are the configured ones exactly when the store held no others. */
  lemma GrantsAreExact(host: Host, data: Data, dbs: seq<DbConfig>, users: seq<UserConfig>)
    ensures (forall user, db :: MayUse(Seeded(host, data, dbs, users), user, db) <==> Configured(dbs, user, db))
       <==> (forall user, db :: MayUse(data, user, db) ==> Configured(dbs, user, db))
  {
    hide MayUse, Seeded;
    forall user, db
      ensures MayUse(Seeded(host, data, dbs, users), user, db) <==> Configured(dbs, user, db) || MayUse(data, user, db)
    {
      MembershipAfterSeeding(host, data, dbs, users, user, db);
    }
  }

  lemma DbsAfterSeeding(host: Host, data: Data, dbs: seq<DbConfig>, users: seq<UserConfig>)
    ensures MembersAt(Seeded(host, data, dbs, users), DbsKey()) == NamesIn(dbs)
  {
    hide SeededDbs, DbsKey, MySQLUsersKey, Erased;
    SeededDbsAt(host, data, dbs, DbsKey());
    ListKeysStay("");
  }

  /** After seeding a store without stale memberships, SHOW DATABASES lists for a user
      exactly the databases the configuration names the user in, and these are exactly the
      ones the user's USE succeeds on. */
  lemma ShowDatabasesAfterSeeding(
    host: Host, data: Data, dbs: seq<DbConfig>, users: seq<UserConfig>, s: Sess, reply: Reply)
    requires forall user, db :: MayUse(data, user, db) ==> Configured(dbs, user, db)
    requires s.data == Seeded(host, data, dbs, users)
    requires ShowDatabasesAnswers(s, reply) && reply != Err(Backend)
    ensures Lists(reply, "Database", iset db | Configured(dbs, s.user, db))
    ensures forall db :: Configured(dbs, s.user, db) <==> UseAnswers(s, db, Ok(Done), s.(currentDB := db))
  {
    hide Seeded, DbsKey, UsersKey, Lists;
    GrantsAreExact(host, data, dbs, users);
    DbsAfterSeeding(host, data, dbs, users);
    var listed := iset db | db in MembersAt(s.data, DbsKey()) && MayUse(s.data, s.user, db);
    assert listed == iset db | Configured(dbs, s.user, db);
  }

  lemma {:induction false} NamesOfPasswords(users: seq<UserConfig>)
    ensures forall name :: name in Passwords(users) ==> exists j :: 0 <= j < |users| && users[j].username == name
  {
    if users != [] {
      var init := users[..|users| - 1];
      NamesOfPasswords(init);
      forall name | name in Passwords(init)
        ensures exists j :: 0 <= j < |users| && users[j].username == name
      {
        var j :| 0 <= j < |init| && init[j].username == name;
        assert users[j] == init[j];
      }
      assert users[|users| - 1].username == users[|users| - 1].username;
    }
  }

  /** The configuration lists the table for a database of that name. */
  ghost predicate ListsTable(dbs: seq<DbConfig>, db: string, table: string) {
    exists i :: 0 <= i < |dbs| && dbs[i].name == db && table in dbs[i].tables
  }

  lemma {:induction false} AddedTables(dbs: seq<DbConfig>, db: string, table: string)
    ensures table in Added(dbs, TablesKey(db)) <==> ListsTable(dbs, db, table)
  {
    hide UsersKey, TablesKey;
    if dbs != [] {
      var init, last := dbs[..|dbs| - 1], dbs[|dbs| - 1];
      AddedTables(init, db, table);
      KeysAreApart(last.name, db, "");
      assert forall i :: 0 <= i < |init| ==> dbs[i] == init[i];
    }
  }

  /** After seeding a database lists the configured tables and those it listed before. */
  lemma TablesAfterSeeding(
    host: Host, data: Data, dbs: seq<DbConfig>, users: seq<UserConfig>, db: string, table: string)
    ensures table in MembersAt(Seeded(host, data, dbs, users), TablesKey(db))
       <==> ListsTable(dbs, db, table) || table in MembersAt(data, TablesKey(db))
  {
    hide TablesKey, Seeded, Erased, MySQLUsersKey, DbsKey;
    ListKeysStay(db);
    MembersAfterSeeding(host, data, dbs, users, TablesKey(db));
    AddedTables(dbs, db, table);
  }

  /** After seeding a store without stale table lists, SHOW TABLES shows a configured user of
      the database exactly its configured tables, or says there are none, and denies others. */
  lemma ShowTablesAfterSeeding(
    host: Host, data: Data, dbs: seq<DbConfig>, users: seq<UserConfig>, s: Sess, stmt: Stmt, reply: Reply)
    requires s.data == Seeded(host, data, dbs, users)
    requires ShowTablesAnswers(s, stmt, reply) && reply != Err(Backend)
    requires var db := if stmt.ShowStmt? && stmt.dbName != "" then stmt.dbName else s.currentDB;
             && (forall table :: table in MembersAt(data, TablesKey(db)) ==> ListsTable(dbs, db, table))
             && (forall user :: MayUse(data, user, db) ==> Configured(dbs, user, db))
    ensures var db := if stmt.ShowStmt? && stmt.dbName != "" then stmt.dbName else s.currentDB;
            if db == "" then reply == Err(NoDatabaseSelected)
            else if !Configured(dbs, s.user, db) then reply == Err(AccessDenied(s.user, db))
            else if forall table :: !ListsTable(dbs, db, table) then reply == Err(NoTablesFound)
            else Lists(reply, "Tables_in_" + db, iset table | ListsTable(dbs, db, table))
  {
    hide MayUse, Seeded, TablesKey, UsersKey, Lists;
    var db := if stmt.ShowStmt? && stmt.dbName != "" then stmt.dbName else s.currentDB;
    MembershipAfterSeeding(host, data, dbs, users, s.user, db);
    var tables := MembersAt(s.data, TablesKey(db));
    forall table
      ensures table in tables <==> ListsTable(dbs, db, table)
    {
      TablesAfterSeeding(host, data, dbs, users, db, table);
    }
    assert (iset t | t in tables) == iset table | ListsTable(dbs, db, table);
  }

  lemma {:induction false} BlobsAreConfigured(host: Host, dbs: seq<DbConfig>, key: string)
    returns (i: nat, table: string)
    requires key in Blobs(host, dbs)
    ensures i < |dbs| && table in dbs[i].tableData && dbs[i].tableData[table].columns != []
    ensures key == TableDataKey(dbs[i].name, table)
  {
    hide TableDataKey, IsTableKeyOf, TableOf, BlobsOf;
    var init, last := dbs[..|dbs| - 1], dbs[|dbs| - 1];
    if key in BlobsOfDb(host, last) {
      BlobsOfAt(host, last.name, last.tableData, last.tableData.Keys, key);
      KeyOfTable(last.name, key);
      i, table := |init|, TableOf(last.name, key);
    } else {
      i, table := BlobsAreConfigured(host, init, key);
    }
  }

  /** After seeding the store holds no table data but the configured tables': what an earlier
      configuration left is gone. */
  lemma NoStaleTableData(host: Host, data: Data, dbs: seq<DbConfig>, users: seq<UserConfig>, key: string)
    returns (i: nat, table: string)
    requires IsTableKey(key) && key in Seeded(host, data, dbs, users)
    ensures i < |dbs| && table in dbs[i].tableData && dbs[i].tableData[table].columns != []
    ensures key == TableDataKey(dbs[i].name, table)
  {
    hide SeededDbs, Blobs, Added, Passwords, TableDataKey;
    SeededDbsAt(host, data, dbs, key);
    AddedOnlyToLists(dbs, key);
    KeysAreApart("", "", "");
    i, table := BlobsAreConfigured(host, dbs, key);
  }

  /** The hash has exactly the configured users, each with the password of its last entry. */
  lemma {:induction false} LastPasswordWins(users: seq<UserConfig>, i: nat)
    requires i < |users| && forall j :: i < j < |users| ==> users[j].username != users[i].username
    ensures users[i].username in Passwords(users) && Passwords(users)[users[i].username] == users[i].password
    ensures forall name :: name in Passwords(users) ==> exists j :: 0 <= j < |users| && users[j].username == name
  {
    NamesOfPasswords(users);
    if i < |users| - 1 {
      LastPasswordWins(users[..|users| - 1], i);
    }
  }

  lemma NoPasswords()
    ensures Passwords([]) == map[]
  {
  }

  lemma {:induction false} LastEntry(users: seq<UserConfig>, name: string) returns (i: nat)
    requires exists j :: 0 <= j < |users| && users[j].username == name
    ensures i < |users| && users[i].username == name && forall j :: i < j < |users| ==> users[j].username != name
  {
    i := |users| - 1;
    if users[i].username != name {
      var j :| 0 <= j < |users| && users[j].username == name;
      var init := users[..i];
      assert init[j] == users[j];
      i := LastEntry(init, name);
    }
  }

  /** In the seeded store every configured user has the password of the user's last entry, and
      nobody else has one, whoever had one before. */
  lemma PasswordsAfterSeeding(host: Host, data: Data, dbs: seq<DbConfig>, users: seq<UserConfig>, name: string)
    ensures var fields := FieldsAt(Seeded(host, data, dbs, users), MySQLUsersKey());
            && (name in fields <==> exists j :: 0 <= j < |users| && users[j].username == name)
            && forall i :: 0 <= i < |users| && users[i].username == name
                 && (forall j :: i < j < |users| ==> users[j].username != name)
                 ==> name in fields && fields[name] == users[i].password
  {
    hide SeededDbs, Passwords;
    assert FieldsAt(Seeded(host, data, dbs, users), MySQLUsersKey()) == Passwords(users) by {
      if users == [] {
        NoPasswords();
      }
    }
    forall i | 0 <= i < |users| && users[i].username == name
            && (forall j :: i < j < |users| ==> users[j].username != name)
      ensures name in Passwords(users) && Passwords(users)[name] == users[i].password
    {
      LastPasswordWins(users, i);
    }
    if j :| 0 <= j < |users| && users[j].username == name {
      var i := LastEntry(users, name);
      LastPasswordWins(users, i);
    }
    NamesOfPasswords(users);
  }

  /** The configured names are distinct, and none starts another followed by a colon. */
  predicate NamesApart(dbs: seq<DbConfig>) {
    forall i, j :: 0 <= i < j < |dbs| ==> dbs[i].name != dbs[j].name && !ColonPrefixed(dbs[i].name, dbs[j].name)
  }

  lemma NotAnothersKey(host: Host, dbs: seq<DbConfig>, i: nat, table: string, j: nat)
    requires i < |dbs| && j < |dbs| && i != j && NamesApart(dbs)
    ensures TableDataKey(dbs[i].name, table) !in BlobsOfDb(host, dbs[j])
  {
    hide TableDataKey, IsTableKeyOf, TableOf, BlobsOf, ColonPrefixed;
    var key, other := TableDataKey(dbs[i].name, table), dbs[j];
    BlobsOfAt(host, other.name, other.tableData, other.tableData.Keys, key);
    if key in BlobsOfDb(host, other) {
      KeyOfTable(other.name, key);
      KeysSplitAlike(dbs[if i < j then i else j].name, if i < j then table else TableOf(other.name, key),
                     dbs[if i < j then j else i].name, if i < j then TableOf(other.name, key) else table);
    }
  }

  lemma {:induction false} BlobOfEntry(host: Host, dbs: seq<DbConfig>, i: nat, table: string)
    requires i < |dbs| && NamesApart(dbs)
    requires table in dbs[i].tableData && EncodeTable(host, dbs[i].tableData[table]).Some?
    ensures TableDataKey(dbs[i].name, table) in Blobs(host, dbs)
    ensures Blobs(host, dbs)[TableDataKey(dbs[i].name, table)] == Blob(EncodeTable(host, dbs[i].tableData[table]).value)
  {
    hide TableDataKey, IsTableKeyOf, TableOf, BlobsOf, EncodeTable, ColonPrefixed;
    var init, last := dbs[..|dbs| - 1], dbs[|dbs| - 1];
    if i < |init| {
      assert NamesApart(init);
      BlobOfEntry(host, init, i, table);
      NotAnothersKey(host, dbs, i, table, |dbs| - 1);
    } else {
      BlobsOfAt(host, last.name, last.tableData, last.tableData.Keys, TableDataKey(last.name, table));
      TableOfKey(last.name, table);
    }
  }

  /** Entry `i` of the configuration lists the table, up to case, and has data for it. */
  ghost predicate ConfiguredTable(host: Host, dbs: seq<DbConfig>, i: nat, table: string)
    requires i < |dbs|
  {
    && dbs[i].name != ""
    && (exists m :: m in dbs[i].tables && EqualFold(host, m, table))
    && table in dbs[i].tableData
    && dbs[i].tableData[table].columns != []
  }

  lemma ServedTable(host: Host, data: Data, dbs: seq<DbConfig>, users: seq<UserConfig>, i: nat, table: string)
    requires i < |dbs| && CanSeed(host, data, dbs) && NamesApart(dbs) && ConfiguredTable(host, dbs, i, table)
    ensures var seeded, key := Seeded(host, data, dbs, users), TableDataKey(dbs[i].name, table);
            && key in seeded && seeded[key].Blob?
            && DecodeTable(host, seeded[key].payload) == Some(StoredTable(host, dbs[i].tableData[table]))
            && TableListed(host, seeded, dbs[i].name, table)
            && SetAt(seeded, TablesKey(dbs[i].name))
  {
    hide TableDataKey, TablesKey, UsersKey, SeededDbs, Blobs, Added, Erased, DbsKey, MySQLUsersKey, Passwords;
    hide NamesApart, EncodeTable, DecodeTable, StoredTable, EqualFold, WellTyped;
    var key := TableDataKey(dbs[i].name, table);
    assert Storable(host, dbs[i].tableData);
    TableRoundTrip(host, dbs[i].tableData[table]);
    BlobOfEntry(host, dbs, i, table);
    SeededDbsAt(host, data, dbs, key);
    BlobsAreErased(host, dbs, key);
    var m :| m in dbs[i].tables && EqualFold(host, m, table);
    AddedTables(dbs, dbs[i].name, m);
    ListKeysStay(dbs[i].name);
    MembersAfterSeeding(host, data, dbs, users, TablesKey(dbs[i].name));
    assert m in MembersAt(Seeded(host, data, dbs, users), TablesKey(dbs[i].name));
  }

  /** A query that names a configured table, qualified or in the selected database, answers
      from the configured rows as JSON keeps them, whoever asks. */
  lemma SeededRowsAreServed(
    host: Host, data: Data, dbs: seq<DbConfig>, users: seq<UserConfig>, i: nat, table: string,
    s: Sess, schema: string, sel: Select, reply: Reply)
    requires i < |dbs| && CanSeed(host, data, dbs) && NamesApart(dbs) && ConfiguredTable(host, dbs, i, table)
    requires s.data == Seeded(host, data, dbs, users) && Resolve(schema, s.currentDB) == dbs[i].name
    requires SelectAnswers(host, s, SelectStmt(Some(TableName(schema, table)), sel), reply)
    ensures || reply == SelectReply(host, sel, StoredTable(host, dbs[i].tableData[table]))
            || (reply == Err(Backend) && !s.reliable)
  {
    hide TableDataKey, TablesKey, Seeded, NamesApart, CanSeed, SelectReply, StoredTable, TableListed, DecodeTable;
    ServedTable(host, data, dbs, users, i, table);
  }

  /** A DESCRIBE of a configured table shows its configured columns as JSON keeps them. */
  lemma SeededColumnsAreDescribed(
    host: Host, data: Data, dbs: seq<DbConfig>, users: seq<UserConfig>, i: nat, table: string,
    s: Sess, schema: string, reply: Reply)
    requires i < |dbs| && CanSeed(host, data, dbs) && NamesApart(dbs) && ConfiguredTable(host, dbs, i, table)
    requires s.data == Seeded(host, data, dbs, users) && Resolve(schema, s.currentDB) == dbs[i].name
    requires DescribeAnswers(host, s, DescribeStmt(Some(TableName(schema, table))), reply) && reply != Err(Backend)
    ensures var columns := dbs[i].tableData[table].columns;
            && reply.Ok? && reply.value.Rows? && |reply.value.rows| == |columns|
            && forall k :: 0 <= k < |columns| ==>
                 && |reply.value.rows[k]| == 6
                 && reply.value.rows[k][0] == Text(host.utf8(columns[k].name))
                 && reply.value.rows[k][1] == Text(host.utf8(columns[k].kind))
  {
    hide TableDataKey, TablesKey, Seeded, NamesApart, CanSeed, TableListed, DecodeTable;
    ServedTable(host, data, dbs, users, i, table);
    var stored := StoredTable(host, dbs[i].tableData[table]);
    assert ServesDescription(host)(stored, reply);
    assert stored.columns == EncodeColumns(host, dbs[i].tableData[table].columns);
  }

  /** Table names in a query are lower-cased by the parser. */
  function ParsedName(host: Host, schema: string, name: string): TableName {
    TableName(host.lower(schema), host.lower(name))
  }

  /** Which tables a query can name at all: those with a lower-case name, in a database with
      a lower-case name or in the selected one. `prod_backup_Q1_2026` must be selected. */
  lemma ReachableTables(host: Host, currentDB: string, db: string, table: string)
    requires host.lower("") == "" && forall x :: host.lower(host.lower(x)) == host.lower(x)
    requires db != ""
    ensures (exists schema, name ::
               var n := ParsedName(host, schema, name); Resolve(n.schema, currentDB) == db && n.name == table)
       <==> host.lower(table) == table && (host.lower(db) == db || currentDB == db)
  {
    if host.lower(table) == table && host.lower(db) == db {
      assert ParsedName(host, db, table) == TableName(db, table);
    } else if host.lower(table) == table && currentDB == db {
      assert ParsedName(host, "", table) == TableName("", table);
    }
  }
}
