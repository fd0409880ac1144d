// The key-value store behind the server, its key families, and the commands used on it.
module Store {
  import opened Common
  import opened TableData

  /** What a key holds: a set of strings, a hash, or a text, such as encoded table data. */
  datatype Entry = Members(members: set<string>) | Hash(fields: map<string, string>) | Blob(payload: Payload)

  type Data = map<string, Entry>

  /** The errors a client can be answered with. */
  datatype Error =
    | Backend
    | Undecodable
    | Unencodable
    | NoDatabaseSelected
    | NoTablesFound
    | AccessDenied(user: string, db: string)
    | UnknownTable(table: string, db: string)
    | ShowDenied(user: string)

  // ---------- Keys ----------

  function DbsKey(): string { "supported_dbs" }

  function MySQLUsersKey(): string { "mysql_users" }

  function UsersKey(db: string): string { DbsKey() + ":" + db + ":users" }

  function TablesKey(db: string): string { DbsKey() + ":" + db + ":tables" }

  function TableDataKey(db: string, table: string): string { "table_data:" + db + ":" + table }

  predicate IsTableKey(key: string) {
    "table_data:" <= key
  }

  /** The key families are pairwise disjoint, and the first two name their database uniquely. */
  lemma KeysAreApart(db: string, other: string, table: string)
    ensures UsersKey(db) == UsersKey(other) ==> db == other
    ensures TablesKey(db) == TablesKey(other) ==> db == other
    ensures UsersKey(db) != TablesKey(other)
    ensures IsTableKey(TableDataKey(db, table)) && !IsTableKey(DbsKey()) && !IsTableKey(MySQLUsersKey())
    ensures DbsKey() != MySQLUsersKey()
  {
    var u, v, t := UsersKey(db), UsersKey(other), TablesKey(other);
    var prefix := DbsKey() + ":";
    if u == v {
      assert db == u[|prefix|..|u| - 6];
      assert other == v[|prefix|..|v| - 6];
    }
    if TablesKey(db) == t {
      assert db == TablesKey(db)[|prefix|..|t| - 7];
      assert other == t[|prefix|..|t| - 7];
    }
    assert u[|u| - 2] == 'r' && t[|t| - 2] == 'e';
    assert DbsKey()[0] == 's' && MySQLUsersKey()[0] == 'm' && "table_data:"[0] == 't';
  }

  /** A database's lists are neither the list of databases, nor passwords, nor table data. */
  lemma ListKeysAreApart(db: string)
    ensures !IsTableKey(UsersKey(db)) && !IsTableKey(TablesKey(db))
    ensures UsersKey(db) !in {DbsKey(), DbsKey() + ":", MySQLUsersKey()}
    ensures TablesKey(db) !in {DbsKey(), DbsKey() + ":", MySQLUsersKey()}
  {
    assert UsersKey(db)[0] == 's' == TablesKey(db)[0] && MySQLUsersKey()[0] == 'm' && "table_data:"[0] == 't';
  }

  /** One name followed by a colon starts the other. */
  predicate ColonPrefixed(d1: string, d2: string) {
    d1 + ":" <= d2 || d2 + ":" <= d1
  }

  lemma KeysSplitAlike(d1: string, t1: string, d2: string, t2: string)
    ensures TableDataKey(d1, t1) == TableDataKey(d2, t2) ==> d1 == d2 || ColonPrefixed(d1, d2)
  {
    var k1, k2, n := TableDataKey(d1, t1), TableDataKey(d2, t2), |"table_data:"|;
    if k1 == k2 {
      assert d1 + ":" == k1[n..n + |d1| + 1] && d2 + ":" == k2[n..n + |d2| + 1];
      assert d1 == k1[n..n + |d1|] && d2 == k2[n..n + |d2|];
      if |d1| < |d2| {
        assert d2[..|d1| + 1] == d1 + ":";
      } else if |d2| < |d1| {
        assert d1[..|d2| + 1] == d2 + ":";
      }
    }
  }

  /** Two databases can share a table key exactly when one name followed by a colon starts
      the other: then a colon in a table name can cross the separator. */
  lemma TableKeysCollideExactly(d1: string, d2: string)
    requires d1 != d2
    ensures (exists t1, t2 :: TableDataKey(d1, t1) == TableDataKey(d2, t2)) <==> ColonPrefixed(d1, d2)
  {
    if d1 + ":" <= d2 {
      assert TableDataKey(d1, d2[|d1| + 1..] + ":") == TableDataKey(d2, "");
    } else if d2 + ":" <= d1 {
      assert TableDataKey(d1, "") == TableDataKey(d2, d1[|d2| + 1..] + ":");
    } else {
      forall t1, t2
        ensures TableDataKey(d1, t1) != TableDataKey(d2, t2)
      {
        KeysSplitAlike(d1, t1, d2, t2);
      }
    }
  }

  // ---------- Reading ----------

  function MembersAt(data: Data, key: string): set<string> {
    if key in data && data[key].Members? then data[key].members else {}
  }

  function FieldsAt(data: Data, key: string): map<string, string> {
    if key in data && data[key].Hash? then data[key].fields else map[]
  }

  /** Set commands work on the key: it holds a set, or nothing. */
  predicate SetAt(data: Data, key: string) {
    key in data ==> data[key].Members?
  }

  predicate Distinct<T(==)>(s: seq<T>) {
    forall i, j :: 0 <= i < j < |s| ==> s[i] != s[j]
  }

  /** Every key a session reads holds what keys of its family are for. */
  ghost predicate StoreTyped(data: Data) {
    && SetAt(data, DbsKey())
    && (forall db :: SetAt(data, UsersKey(db)) && SetAt(data, TablesKey(db)))
    && (forall key :: key in data && IsTableKey(key) ==> data[key].Blob?)
  }

  lemma TableKeysHoldTexts(data: Data, db: string, table: string)
    requires StoreTyped(data)
    ensures TableDataKey(db, table) in data ==> data[TableDataKey(db, table)].Blob?
  {
    KeysAreApart(db, db, table);
  }

  // ---------- Glob patterns ----------

  /** Key patterns made of literals, `?` and `*`. */
  predicate GlobMatches(pattern: string, key: string)
    decreases |pattern| + |key|
  {
    if pattern == [] then key == []
    else if pattern[0] == '*' then GlobMatches(pattern[1..], key) || (key != [] && GlobMatches(pattern, key[1..]))
    else key != [] && (pattern[0] == '?' || pattern[0] == key[0]) && GlobMatches(pattern[1..], key[1..])
  }

  lemma {:induction false} StarMatchesAll(key: string)
    ensures GlobMatches("*", key)
  {
    if key != [] {
      StarMatchesAll(key[1..]);
    } else {
      assert "*"[1..] == [];
    }
  }

  /** A pattern of literals matches itself only; with a final `*`, every extension of itself. */
  lemma {:induction false} GlobOfLiterals(p: string, key: string)
    requires '*' !in p && '?' !in p
    ensures GlobMatches(p, key) <==> key == p
    ensures GlobMatches(p + "*", key) <==> p <= key
  {
    if p == [] {
      assert p + "*" == "*";
      StarMatchesAll(key);
    } else {
      assert (p + "*")[1..] == p[1..] + "*";
      if key != [] {
        GlobOfLiterals(p[1..], key[1..]);
        assert p == [p[0]] + p[1..] && key == [key[0]] + key[1..];
      }
    }
  }

  // ---------- The store as an object ----------

  /** Unless the store is reliable, any command may fail for reasons of its own; on a key
      of another type it always fails. A failed command changes nothing. */
  class Redis {
    var data: Data
    var reliable: bool

    method SIsMember(key: string, m: string) returns (r: Result<bool, Error>)
      ensures r == Err(Backend) || (SetAt(data, key) && r == Ok(m in MembersAt(data, key)))
      ensures reliable && SetAt(data, key) ==> r.Ok?
    {
      if !reliable {
        if * {
          return Err(Backend);
        }
      }
      if key in data && !data[key].Members? {
        return Err(Backend);
      }
      r := Ok(m in MembersAt(data, key));
    }

    /** All members, each once, in an order of the store's own. */
    method SMembers(key: string) returns (r: Result<seq<string>, Error>)
      ensures r.Err? ==> r.error == Backend
      ensures r.Ok? ==> SetAt(data, key) && Distinct(r.value) && forall m :: m in r.value <==> m in MembersAt(data, key)
      ensures reliable && SetAt(data, key) ==> r.Ok?
    {
      if !reliable {
        if * {
          return Err(Backend);
        }
      }
      if key in data && !data[key].Members? {
        return Err(Backend);
      }
      var rest := MembersAt(data, key);
      var out: seq<string> := [];
      while rest != {}
        invariant Distinct(out)
        invariant forall m :: m in MembersAt(data, key) <==> m in out || m in rest
        invariant forall m :: m in out ==> m !in rest
        decreases rest
      {
        var m :| m in rest;
        rest := rest - {m};
        out := out + [m];
      }
      r := Ok(out);
    }

    method Get(key: string) returns (r: Result<Option<Payload>, Error>)
      ensures || r == Err(Backend)
              || (key !in data && r == Ok(None))
              || (key in data && data[key].Blob? && r == Ok(Some(data[key].payload)))
      ensures reliable && (key in data ==> data[key].Blob?) ==> r.Ok?
    {
      if !reliable {
        if * {
          return Err(Backend);
        }
      }
      if key !in data {
        return Ok(None);
      }
      r := if data[key].Blob? then Ok(Some(data[key].payload)) else Err(Backend);
    }

    method Del(key: string) returns (ok: bool)
      modifies this`data
      ensures data == if ok then old(data) - {key} else old(data)
      ensures reliable ==> ok
    {
      if !reliable {
        if * {
          return false;
        }
      }
      data := data - {key};
      ok := true;
    }

    /** Adds to a set; an empty member list and a key of another type are errors. */
    method SAdd(key: string, members: set<string>) returns (ok: bool)
      modifies this`data
      ensures data == if ok then old(data)[key := Members(MembersAt(old(data), key) + members)] else old(data)
      ensures ok ==> members != {} && SetAt(old(data), key)
      ensures reliable && members != {} && SetAt(old(data), key) ==> ok
    {
      if !reliable {
        if * {
          return false;
        }
      }
      if members == {} || (key in data && !data[key].Members?) {
        return false;
      }
      data := data[key := Members(MembersAt(data, key) + members)];
      ok := true;
    }

    method Set(key: string, payload: Payload) returns (ok: bool)
      modifies this`data
      ensures data == if ok then old(data)[key := Blob(payload)] else old(data)
      ensures reliable ==> ok
    {
      if !reliable {
        if * {
          return false;
        }
      }
      data := data[key := Blob(payload)];
      ok := true;
    }

    /** Adds fields to a hash; no fields at all and a key of another type are errors. */
    method HSet(key: string, fields: map<string, string>) returns (ok: bool)
      modifies this`data
      ensures ok ==> fields != map[] && (key in old(data) ==> old(data)[key].Hash?)
      ensures data == if ok then old(data)[key := Hash(FieldsAt(old(data), key) + fields)] else old(data)
      ensures reliable && fields != map[] && (key in old(data) ==> old(data)[key].Hash?) ==> ok
    {
      if !reliable {
        if * {
          return false;
        }
      }
      if fields == map[] || (key in data && !data[key].Hash?) {
        return false;
      }
      data := data[key := Hash(FieldsAt(data, key) + fields)];
      ok := true;
    }
  }
}
