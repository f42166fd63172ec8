// The tables of connections as the program keeps them: per client and cluster one shared table.

module Connections {
  import opened Entries
  import opened Wrappers

  class Connection {
    const key: TKey
    const hostid: string
    const ctrlLossTMO: Option<int>
    var closed: bool

    constructor (key: TKey, hostid: string, ctrlLossTMO: Option<int>)
      ensures this.key == key && this.hostid == hostid && this.ctrlLossTMO == ctrlLossTMO && !closed
    {
      this.key, this.hostid, this.ctrlLossTMO, closed := key, hostid, ctrlLossTMO, false;
    }

    /** Closing a closed channel panics. */
    method Stop()
      requires !closed
      modifies this
      ensures closed
    {
      closed := true;
    }
  }

  /** The inner table of one client and cluster, shared by everyone who holds it. */
  class ConnTable {
    var m: map<TKey, Connection>

    constructor ()
      ensures m == map[]
    {
      m := map[];
    }
  }

  type Tables = map<Pair, ConnTable>

  /** Connections are filed under their own key and pair, and there are no others. */
  ghost predicate Filed(contents: map<Pair, map<TKey, Connection>>, conns: map<TKey, Connection>)
  {
    && (forall p, k :: p in contents && k in contents[p] ==> KeyPair(k) == p && k in conns)
    && (forall k :: k in conns ==>
          && conns[k].key == k && KeyPair(k) in contents
          && k in contents[KeyPair(k)] && contents[KeyPair(k)][k] == conns[k])
  }

  lemma FiledAdd(contents: map<Pair, map<TKey, Connection>>, conns: map<TKey, Connection>, conn: Connection)
    requires Filed(contents, conns) && KeyPair(conn.key) in contents
    ensures Filed(contents[KeyPair(conn.key) := contents[KeyPair(conn.key)][conn.key := conn]], conns[conn.key := conn])
  {
  }

  lemma FiledEmpty(contents: map<Pair, map<TKey, Connection>>, conns: map<TKey, Connection>, pair: Pair)
    requires Filed(contents, conns) && pair !in contents
    ensures Filed(contents[pair := map[]], conns)
  {
  }

  lemma FiledRemove(contents: map<Pair, map<TKey, Connection>>, conns: map<TKey, Connection>, key: TKey)
    requires Filed(contents, conns) && KeyPair(key) in contents
    ensures Filed(contents[KeyPair(key) := contents[KeyPair(key)] - {key}], conns - {key})
  {
  }

  /** Distinct tables for distinct pairs, all among `repr`. */
  ghost predicate Apart(tables: Tables, repr: set<ConnTable>)
  {
    && (forall p :: p in tables ==> tables[p] in repr)
    && (forall p, q :: p in tables && q in tables && p != q ==> tables[p] != tables[q])
  }

  ghost function Contents(tables: Tables, repr: set<ConnTable>): map<Pair, map<TKey, Connection>>
    requires Apart(tables, repr)
    reads repr
  {
    map p | p in tables :: tables[p].m
  }

  ghost predicate Holds(tables: Tables, repr: set<ConnTable>, conns: map<TKey, Connection>)
    reads repr
  {
    Apart(tables, repr) && Filed(Contents(tables, repr), conns)
  }

  lemma ContentsAt(tables: Tables, repr: set<ConnTable>, pair: Pair)
    requires Apart(tables, repr) && pair in tables
    ensures pair in Contents(tables, repr) && Contents(tables, repr)[pair] == tables[pair].m
  {
  }

  lemma TableAdded(tables: Tables, repr: set<ConnTable>, pair: Pair, t: ConnTable)
    requires Apart(tables, repr) && pair !in tables && t !in repr && t.m == map[]
    ensures Apart(tables[pair := t], repr + {t})
    ensures pair !in Contents(tables, repr)
    ensures Contents(tables[pair := t], repr + {t}) == Contents(tables, repr)[pair := map[]]
  {
  }

  /** Writing one table changes the contents of its pair only. */
  method SetTable(tables: Tables, ghost repr: set<ConnTable>, pair: Pair, m: map<TKey, Connection>)
    requires Apart(tables, repr) && pair in tables
    modifies tables[pair]
    ensures Contents(tables, repr) == old(Contents(tables, repr))[pair := m]
  {
    var table := tables[pair];
    table.m := m;
  }

  class ConnectionMap {
    var tables: Tables

    /** The connections as one map from keys, and the objects used. */
    ghost var conns: map<TKey, Connection>
    ghost var repr: set<ConnTable>

    ghost predicate Valid()
      reads this, repr
    {
      Holds(tables, repr, conns)
    }

    /** Tables once made for a pair stay the same objects, so an old notification shows their new contents. */
    twostate predicate SameTables()
      reads this
    {
      && (forall p :: p in old(tables) ==> p in tables && tables[p] == old(tables[p]))
      && fresh(repr - old(repr))
    }

    constructor ()
      ensures Valid() && tables == map[] && conns == map[] && repr == {}
    {
      tables, conns, repr := map[], map[], {};
    }

    /** The table of a pair has the connections of the pair. */
    lemma FiledUnder(p: Pair)
      requires Valid()
      ensures p in tables ==> tables[p] in repr
      ensures p in tables ==>
                forall k :: k in tables[p].m ==>
                  KeyPair(k) == p && k in conns && tables[p].m[k] == conns[k] && conns[k].key == k
      ensures forall k :: k in conns && KeyPair(k) == p ==> p in tables && k in tables[p].m
    {
      assert p in tables ==> Contents(tables, repr)[p] == tables[p].m;
    }

    method Has(key: TKey) returns (has: bool)
      requires Valid()
      ensures has <==> key in conns
    {
      FiledUnder(KeyPair(key));
      has := KeyPair(key) in tables && key in tables[KeyPair(key)].m;
    }

    /** The pair's table, made on first use. */
    method EnsureTable(pair: Pair)
      requires Valid()
      modifies this`tables, this`repr
      ensures Valid() && SameTables() && tables.Keys == old(tables.Keys) + {pair}
    {
      hide Filed, Contents, Apart;
      if pair !in tables {
        ghost var contents := Contents(tables, repr);
        var t := new ConnTable();
        assert Contents(tables, repr) == contents;
        TableAdded(tables, repr, pair, t);
        FiledEmpty(contents, conns, pair);
        tables := tables[pair := t];
        repr := repr + {t};
      }
    }

    method File(conn: Connection)
      requires Valid() && KeyPair(conn.key) in tables
      modifies this`conns, repr
      ensures Valid() && conns == old(conns)[conn.key := conn]
    {
      hide Filed, Contents;
      ContentsAt(tables, repr, KeyPair(conn.key));
      FiledAdd(Contents(tables, repr), conns, conn);
      SetTable(tables, repr, KeyPair(conn.key), tables[KeyPair(conn.key)].m[conn.key := conn]);
      conns := conns[conn.key := conn];
    }

    /** Files a connection under its key, in a new table when the pair has none. */
    method Add(conn: Connection)
      requires Valid()
      modifies this, repr
      ensures Valid() && SameTables() && tables.Keys == old(tables.Keys) + {KeyPair(conn.key)}
      ensures conns == old(conns)[conn.key := conn]
    {
      hide Holds;
      EnsureTable(KeyPair(conn.key));
      File(conn);
    }

    method Unfile(key: TKey)
      requires Valid() && KeyPair(key) in tables
      modifies this`conns, repr
      ensures Valid() && conns == old(conns) - {key}
    {
      hide Filed, Contents;
      ContentsAt(tables, repr, KeyPair(key));
      FiledRemove(Contents(tables, repr), conns, key);
      SetTable(tables, repr, KeyPair(key), tables[KeyPair(key)].m - {key});
      conns := conns - {key};
    }

    /** Deletes by key; a missing key or pair is no error. */
    method Delete(key: TKey)
      requires Valid()
      modifies this`conns, repr
      ensures Valid() && conns == old(conns) - {key}
    {
      hide Holds;
      FiledUnder(KeyPair(key));
      if KeyPair(key) in tables && key in tables[KeyPair(key)].m {
        Unfile(key);
      }
    }
  }
}
