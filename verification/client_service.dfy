// The service's own tables of connections, kept in step with the cache by its notifications.

module ClientService {
  import opened Entries
  import opened ConnMaps
  import opened Connections

  type Conns = map<TKey, Connection>

  /** The service's connections once the named pairs are rid of what the message does not show. */
  ghost function Pruned(svc: Conns, shown: Conns, pairs: set<Pair>): Conns
  {
    map k | k in svc && (KeyPair(k) in pairs ==> k in shown && shown[k] == svc[k]) :: svc[k]
  }

  /** What is shown of some pairs, laid over what is held. */
  ghost function Overlaid(svc: Conns, shown: Conns, pairs: set<Pair>): Conns
  {
    svc + map k | k in shown && KeyPair(k) in pairs :: shown[k]
  }

  lemma PrunedOverlaid(svc: Conns, shown: Conns, pairs: set<Pair>)
    ensures Overlaid(Pruned(svc, shown, pairs), shown, pairs) == Synced(svc, shown, pairs)
  {
  }

  /** The pairs among `pairs` on which two maps differ. */
  ghost function Changed(a: Conns, b: Conns, pairs: set<Pair>): set<Pair>
  {
    set p | p in pairs && !SamePair(a, b, p)
  }

  /** A change of one pair from `a` to `b`, added to the changes from `svc` to `a`. */
  lemma ChangedMore(a: Conns, b: Conns, svc: Conns, pairs: set<Pair>, p: Pair)
    requires p !in pairs && SamePair(a, svc, p) && forall q :: q != p ==> SamePair(b, a, q)
    ensures Changed(b, svc, pairs + {p}) == Changed(a, svc, pairs) + (if SamePair(b, a, p) then {} else {p})
  {
    forall q | q != p ensures SamePair(b, svc, q) <==> SamePair(a, svc, q) {
      assert SamePair(b, a, q);
    }
  }

  lemma PrunedStart(svc: Conns, shown: Conns)
    ensures Pruned(svc, shown, {}) == svc && Changed(svc, svc, {}) == {}
  {
  }

  /** Pruning one more pair changes that pair only. */
  lemma PrunedMore(svc: Conns, shown: Conns, pairs: set<Pair>, p: Pair)
    requires p !in pairs
    ensures Pruned(Pruned(svc, shown, pairs), shown, {p}) == Pruned(svc, shown, pairs + {p})
    ensures Changed(Pruned(svc, shown, pairs + {p}), svc, pairs + {p})
         == Changed(Pruned(svc, shown, pairs), svc, pairs)
            + (if SamePair(Pruned(svc, shown, pairs + {p}), Pruned(svc, shown, pairs), p) then {} else {p})
  {
    var a, b := Pruned(svc, shown, pairs), Pruned(svc, shown, pairs + {p});
    assert SamePair(a, svc, p);
    assert forall q :: q != p ==> SamePair(b, a, q);
    ChangedMore(a, b, svc, pairs, p);
  }

  lemma PrunedAbsent(svc: Conns, shown: Conns, p: Pair)
    requires forall k :: k in svc ==> KeyPair(k) != p
    ensures Pruned(svc, shown, {p}) == svc && SamePair(svc, svc, p)
  {
  }

  /** A table shows, of a pair, exactly the connections of `shown`. */
  ghost predicate Shows(t: ConnTable, p: Pair, shown: Conns)
    reads t
  {
    && (forall k :: k in t.m ==> KeyPair(k) == p && k in shown && shown[k] == t.m[k] && t.m[k].key == k)
    && (forall k :: k in shown && KeyPair(k) == p ==> k in t.m)
  }

  /** A message shows the connections of its pairs, in tables among `mrepr`. */
  ghost predicate ShowsAll(msg: Tables, shown: Conns, mrepr: set<ConnTable>)
    reads mrepr
  {
    forall p :: p in msg ==> msg[p] in mrepr && Shows(msg[p], p, shown)
  }

  lemma ShowsOne(msg: Tables, shown: Conns, mrepr: set<ConnTable>, p: Pair)
    requires ShowsAll(msg, shown, mrepr) && p in msg
    ensures msg[p] in mrepr && Shows(msg[p], p, shown)
  {
  }

  lemma ShownIff(t: ConnTable, p: Pair, shown: Conns, k: TKey, c: Connection)
    requires Shows(t, p, shown) && KeyPair(k) == p && c.key == k
    ensures c in t.m.Values <==> k in shown && shown[k] == c
  {
    if c in t.m.Values {
      var k' :| k' in t.m && t.m[k'] == c;
    }
  }

  /** Of the connections `svc0`, all among `objs`, those still in `svc` are open and the others stopped. */
  ghost predicate Tracks(svc0: Conns, svc: Conns, objs: set<Connection>)
    reads objs
  {
    && svc.Keys <= svc0.Keys
    && forall k :: k in svc0 ==>
         && svc0[k] in objs && svc0[k].key == k
         && (k in svc ==> svc[k] == svc0[k]) && (svc0[k].closed <==> k !in svc)
  }

  /** The objects are exactly the connections. */
  ghost predicate Exact(conns: Conns, objs: set<Connection>)
  {
    && (forall k :: k in conns ==> conns[k] in objs)
    && (forall c :: c in objs ==> c.key in conns && conns[c.key] == c)
  }

  /** And all of them are open. */
  ghost predicate AllOpen(conns: Conns, objs: set<Connection>)
    reads objs
  {
    Exact(conns, objs) && forall c :: c in objs ==> !c.closed
  }

  /** Nothing of the pair is held that is not shown. */
  ghost predicate Matches(svc: Conns, shown: Conns, p: Pair)
  {
    forall k :: k in svc && KeyPair(k) == p ==> k in shown && shown[k] == svc[k]
  }

  /** Of the pair's shown connections all but `left` are added to what was held. */
  ghost predicate Adding(svc1: Conns, svc: Conns, left: set<TKey>, shown: Conns, p: Pair, modified: bool)
  {
    && svc == svc1 + (map k | k in shown && KeyPair(k) == p && k !in left :: shown[k])
    && (forall k :: k in left ==> k in shown && KeyPair(k) == p)
    && Matches(svc1, shown, p)
    && (modified <==> svc.Keys != svc1.Keys)
  }

  lemma AddingStart(svc: Conns, t: ConnTable, shown: Conns, p: Pair)
    requires Shows(t, p, shown) && Matches(svc, shown, p)
    ensures Adding(svc, svc, t.m.Keys, shown, p, false)
  {
    assert svc == svc + (map k | k in shown && KeyPair(k) == p && k !in t.m.Keys :: shown[k]);
  }

  lemma AddingStep(svc1: Conns, svc: Conns, left: set<TKey>, shown: Conns, p: Pair, modified: bool, k: TKey)
    requires Adding(svc1, svc, left, shown, p, modified) && k in left
    ensures k in shown && KeyPair(k) == p && Matches(svc, shown, p)
    ensures Adding(svc1, svc[k := shown[k]], left - {k}, shown, p, modified || k !in svc)
  {
    assert k !in svc ==> k !in svc1;
    assert k in svc ==> svc[k := shown[k]] == svc;
  }

  lemma AddingDone(svc1: Conns, svc: Conns, shown: Conns, p: Pair, modified: bool)
    requires Adding(svc1, svc, {}, shown, p, modified)
    ensures svc == Overlaid(svc1, shown, {p})
    ensures modified <==> !SamePair(svc, svc1, p)
  {
    SameIffKeys(svc1, svc, p);
  }

  lemma SameIffKeys(svc1: Conns, svc: Conns, p: Pair)
    requires forall k :: k in svc1 ==> k in svc && svc[k] == svc1[k]
    requires forall k :: k in svc && k !in svc1 ==> KeyPair(k) == p
    ensures SamePair(svc, svc1, p) <==> svc.Keys == svc1.Keys
  {
    if svc.Keys != svc1.Keys {
      var k :| k in svc && k !in svc1;
      assert KeyPair(k) == p;
    }
  }

  /** Holding a shown connection is holding something under its key. */
  lemma HeldIff(cm: ConnectionMap, shown: Conns, p: Pair, k: TKey)
    requires cm.Valid() && Matches(cm.conns, shown, p) && k in shown && KeyPair(k) == p && shown[k].key == k
    ensures (p in cm.tables && shown[k] in cm.tables[p].m.Values) <==> k in cm.conns
  {
    cm.FiledUnder(p);
    if p in cm.tables && shown[k] in cm.tables[p].m.Values {
      var k' :| k' in cm.tables[p].m && cm.tables[p].m[k'] == shown[k];
    }
  }

  /** One key of a map with shown pairs laid over it. */
  lemma OverlaidAt(svc: Conns, shown: Conns, pairs: set<Pair>, k: TKey)
    ensures var on := k in shown && KeyPair(k) in pairs;
      && (k in Overlaid(svc, shown, pairs) <==> k in svc || on)
      && (k in svc || on ==> Overlaid(svc, shown, pairs)[k] == if on then shown[k] else svc[k])
  {
  }

  /** Laying one more pair over changes that pair only. */
  lemma OverlaidMore(svc: Conns, shown: Conns, pairs: set<Pair>, p: Pair)
    requires p !in pairs && Matches(svc, shown, p)
    ensures Matches(Overlaid(svc, shown, pairs), shown, p)
    ensures SamePair(Overlaid(svc, shown, pairs), svc, p)
    ensures forall q :: q != p ==> SamePair(Overlaid(svc, shown, pairs + {p}), Overlaid(svc, shown, pairs), q)
  {
    hide Overlaid;
    var o := Overlaid(svc, shown, pairs);
    forall k ensures KeyPair(k) == p ==> (k in o <==> k in svc) && (k in svc ==> o[k] == svc[k]) {
      OverlaidAt(svc, shown, pairs, k);
    }
    forall q | q != p ensures SamePair(Overlaid(svc, shown, pairs + {p}), Overlaid(svc, shown, pairs), q) {
      OverlaidOther(svc, shown, pairs, p, q);
    }
  }

  lemma OverlaidOther(svc: Conns, shown: Conns, pairs: set<Pair>, p: Pair, q: Pair)
    requires q != p
    ensures SamePair(Overlaid(svc, shown, pairs + {p}), Overlaid(svc, shown, pairs), q)
  {
    hide Overlaid;
    var a, b := Overlaid(svc, shown, pairs + {p}), Overlaid(svc, shown, pairs);
    forall k | KeyPair(k) == q ensures (k in a <==> k in b) && (k in a && k in b ==> a[k] == b[k]) {
      OverlaidAt(svc, shown, pairs + {p}, k);
      OverlaidAt(svc, shown, pairs, k);
    }
  }

  lemma OverlaidTwice(svc: Conns, shown: Conns, pairs: set<Pair>, p: Pair)
    ensures Overlaid(Overlaid(svc, shown, pairs), shown, {p}) == Overlaid(svc, shown, pairs + {p})
  {
    hide Overlaid;
    var once := Overlaid(svc, shown, pairs);
    var a, b := Overlaid(once, shown, {p}), Overlaid(svc, shown, pairs + {p});
    forall k ensures (k in a <==> k in b) && (k in a ==> a[k] == b[k]) {
      OverlaidAt(svc, shown, pairs, k);
      OverlaidAt(once, shown, {p}, k);
      OverlaidAt(svc, shown, pairs + {p}, k);
    }
    assert a == b;
  }

  lemma OverlaidChanged(svc: Conns, shown: Conns, pairs: set<Pair>, p: Pair)
    requires p !in pairs && Matches(svc, shown, p)
    ensures Changed(Overlaid(svc, shown, pairs + {p}), svc, pairs + {p})
         == Changed(Overlaid(svc, shown, pairs), svc, pairs)
            + (if SamePair(Overlaid(svc, shown, pairs + {p}), Overlaid(svc, shown, pairs), p) then {} else {p})
  {
    hide Overlaid, Changed, Matches, ConnMaps.SamePair;
    OverlaidMore(svc, shown, pairs, p);
    ChangedMore(Overlaid(svc, shown, pairs), Overlaid(svc, shown, pairs + {p}), svc, pairs, p);
  }

  lemma OverlaidStart(svc: Conns, shown: Conns)
    ensures Overlaid(svc, shown, {}) == svc && Changed(svc, svc, {}) == {}
  {
  }

  lemma PrunedMatches(svc: Conns, shown: Conns, pairs: set<Pair>)
    ensures forall p :: p in pairs ==> Matches(Pruned(svc, shown, pairs), shown, p)
  {
  }

  /** Pruning and adding changed a pair exactly when it ends up different from the start. */
  lemma ChangedBoth(svc: Conns, shown: Conns, pairs: set<Pair>)
    ensures var pruned := Pruned(svc, shown, pairs);
            var after := Synced(svc, shown, pairs);
            Changed(pruned, svc, pairs) + Changed(after, pruned, pairs) == Changed(after, svc, pairs)
  {
    var pruned, after := Pruned(svc, shown, pairs), Synced(svc, shown, pairs);
    forall p | p in pairs
      ensures SamePair(pruned, svc, p) && SamePair(after, pruned, p) <==> SamePair(after, svc, p)
    {
      if SamePair(after, svc, p) {
        forall k | KeyPair(k) == p && k in svc ensures k in shown && shown[k] == svc[k] { assert k in after; }
      }
    }
  }

  /** Of the pair's connections all but `left` are looked at, and the ones not shown are gone. */
  ghost predicate Pruning(svc0: Conns, svc: Conns, gone: set<TKey>, left: set<TKey>, shown: Conns, p: Pair)
  {
    && svc == svc0 - gone && gone <= svc0.Keys && left <= svc.Keys
    && (forall k :: k in left ==> KeyPair(k) == p)
    && (forall k :: k in gone ==> KeyPair(k) == p && !(k in shown && shown[k] == svc0[k]))
    && (forall k :: k in svc && KeyPair(k) == p && k !in left ==> k in shown && shown[k] == svc[k])
  }

  lemma PruningStart(cm: ConnectionMap, shown: Conns, p: Pair)
    requires cm.Valid() && p in cm.tables
    ensures Pruning(cm.conns, cm.conns, {}, cm.tables[p].m.Keys, shown, p)
  {
    cm.FiledUnder(p);
    assert cm.conns == cm.conns - {};
  }

  lemma PruningStep(svc0: Conns, svc: Conns, gone: set<TKey>, left: set<TKey>, shown: Conns, p: Pair, k: TKey)
    requires Pruning(svc0, svc, gone, left, shown, p) && k in left
    ensures k in svc && KeyPair(k) == p
    ensures if k in shown && shown[k] == svc[k] then Pruning(svc0, svc, gone, left - {k}, shown, p)
            else Pruning(svc0, svc - {k}, gone + {k}, left - {k}, shown, p)
  {
  }

  lemma PruningDone(svc0: Conns, svc: Conns, gone: set<TKey>, shown: Conns, p: Pair)
    requires Pruning(svc0, svc, gone, {}, shown, p)
    ensures svc == Pruned(svc0, shown, {p})
    ensures SamePair(svc, svc0, p) <==> gone == {}
  {
  }

  /** The pairs already gone through and those left. */
  ghost predicate Split(all: set<Pair>, done: set<Pair>, left: set<Pair>)
  {
    done + left == all && done !! left
  }

  lemma SplitStart(all: set<Pair>)
    ensures Split(all, {}, all)
  {
  }

  ghost predicate MatchesAll(svc: Conns, shown: Conns, pairs: set<Pair>)
  {
    forall p :: p in pairs ==> Matches(svc, shown, p)
  }

  lemma MatchesOne(svc: Conns, shown: Conns, pairs: set<Pair>, p: Pair)
    requires MatchesAll(svc, shown, pairs) && p in pairs
    ensures Matches(svc, shown, p)
  {
  }

  lemma SplitMore(all: set<Pair>, done: set<Pair>, left: set<Pair>, p: Pair)
    requires Split(all, done, left) && p in left
    ensures Split(all, done + {p}, left - {p}) && p !in done && p in all
  {
  }

  lemma SplitDone(all: set<Pair>, done: set<Pair>)
    requires Split(all, done, {})
    ensures done == all
  {
  }

  class Service {
    const connections: ConnectionMap
    var active: map<Pair, Connection>

    /** Connections that the service may stop. */
    ghost var objs: set<Connection>

    ghost predicate Valid()
      reads this, connections, connections.repr, objs
    {
      connections.Valid() && AllOpen(connections.conns, objs)
    }

    constructor ()
      ensures Valid() && fresh(connections) && connections.conns == map[] && connections.repr == {}
      ensures active == map[] && objs == {}
    {
      connections := new ConnectionMap();
      active, objs := map[], {};
    }

    /** Deletes and stops one connection. */
    method RemoveOne(k: TKey, ghost svc0: Conns)
      requires connections.Valid() && k in connections.conns && Tracks(svc0, connections.conns, objs)
      modifies connections`conns, connections.repr, objs
      ensures connections.Valid() && connections.conns == old(connections.conns) - {k}
      ensures Tracks(svc0, connections.conns, objs)
    {
      hide Connections.Holds;
      var conn := Lookup(k);
      connections.Delete(k);
      conn.Stop();
    }

    method Lookup(k: TKey) returns (conn: Connection)
      requires connections.Valid() && k in connections.conns
      ensures conn == connections.conns[k] && conn.key == k
    {
      connections.FiledUnder(KeyPair(k));
      conn := connections.tables[KeyPair(k)].m[k];
    }

    /** One connection of a pair: removed unless the message shows it. */
    method RemoveUnlessShown(k: TKey, cached: ConnTable, ghost shown: Conns, ghost svc0: Conns) returns (removed: bool)
      requires connections.Valid() && k in connections.conns && Tracks(svc0, connections.conns, objs)
      requires cached !in connections.repr && Shows(cached, KeyPair(k), shown)
      modifies connections`conns, connections.repr, objs
      ensures connections.Valid() && Tracks(svc0, connections.conns, objs)
      ensures removed <==> !(k in shown && shown[k] == old(connections.conns)[k])
      ensures connections.conns == if removed then old(connections.conns) - {k} else old(connections.conns)
    {
      hide Connections.Holds, Tracks;
      var conn := Lookup(k);
      ShownIff(cached, KeyPair(k), shown, k, conn);
      hide Shows;
      removed := conn !in cached.m.Values;
      if removed {
        RemoveOne(k, svc0);
      }
    }

    /** One pair: connections that the message does not show are deleted and stopped. That the active
        connection is among them is noted in a local copy only. */
    method RemovePair(p: Pair, cached: ConnTable, ghost shown: Conns, ghost svc0: Conns) returns (modified: bool)
      requires connections.Valid() && Tracks(svc0, connections.conns, objs) && p in connections.tables
      requires cached !in connections.repr && Shows(cached, p, shown)
      modifies connections`conns, connections.repr, objs
      ensures connections.Valid() && Tracks(svc0, connections.conns, objs)
      ensures connections.conns == Pruned(old(connections.conns), shown, {p})
      ensures modified <==> !SamePair(connections.conns, old(connections.conns), p)
    {
      hide Connections.Holds, Tracks, Pruning, Pruned, Shows, ConnMaps.SamePair;
      var left := connections.tables[p].m.Keys;
      ghost var svc1, gone: set<TKey> := connections.conns, {};
      modified := false;
      PruningStart(connections, shown, p);
      while left != {}
        invariant connections.Valid() && Tracks(svc0, connections.conns, objs)
        invariant Pruning(svc1, connections.conns, gone, left, shown, p) && Shows(cached, p, shown)
        invariant modified <==> gone != {}
        decreases left
      {
        var k :| k in left;
        PruningStep(svc1, connections.conns, gone, left, shown, p, k);
        left := left - {k};
        var removed := RemoveUnlessShown(k, cached, shown, svc0);
        gone := if removed then gone + {k} else gone;
        modified := modified || removed;
      }
      PruningDone(svc1, connections.conns, gone, shown, p);
    }

    /** The pairs `done` are pruned, and `modified` are those of them that changed. */
    ghost predicate PrunedSoFar(svc0: Conns, shown: Conns, done: set<Pair>, modified: set<Pair>)
      reads this, connections, connections.repr, objs
    {
      && connections.Valid() && Tracks(svc0, connections.conns, objs)
      && connections.conns == Pruned(svc0, shown, done) && modified == Changed(connections.conns, svc0, done)
    }

    method RemoveNext(p: Pair, cached: ConnTable, ghost shown: Conns, ghost svc0: Conns, ghost done: set<Pair>,
                      modified: set<Pair>) returns (modified': set<Pair>)
      requires PrunedSoFar(svc0, shown, done, modified) && p !in done
      requires cached !in connections.repr && Shows(cached, p, shown)
      modifies connections`conns, connections.repr, objs
      ensures PrunedSoFar(svc0, shown, done + {p}, modified')
    {
      hide Connections.Holds, Tracks, Pruned, Changed, Shows, ConnMaps.SamePair;
      PrunedMore(svc0, shown, done, p);
      var m := RemoveNamed(p, cached, shown, svc0);
      modified' := if m then modified + {p} else modified;
    }

    /** Every pair of the message. */
    method RemoveConnections(msg: Tables, ghost shown: Conns, ghost mrepr: set<ConnTable>) returns (modified: set<Pair>)
      requires Valid() && ShowsAll(msg, shown, mrepr) && mrepr !! connections.repr
      modifies connections`conns, connections.repr, objs
      ensures PrunedSoFar(old(connections.conns), shown, msg.Keys, modified)
    {
      ghost var svc0, done: set<Pair> := connections.conns, {};
      TracksStart(connections, objs);
      PrunedStart(svc0, shown);
      modified := {};
      var left := msg.Keys;
      assert Split(msg.Keys, done, left) && PrunedSoFar(svc0, shown, done, modified);
      hide Split, PrunedSoFar, Connections.Holds, AllOpen, Shows, ShowsAll;
      while left != {}
        invariant Split(msg.Keys, done, left)
        invariant PrunedSoFar(svc0, shown, done, modified) && ShowsAll(msg, shown, mrepr)
        decreases left
      {
        var p :| p in left;
        SplitMore(msg.Keys, done, left, p);
        ShowsOne(msg, shown, mrepr, p);
        modified := RemoveNext(p, msg[p], shown, svc0, done, modified);
        left, done := left - {p}, done + {p};
      }
      SplitDone(msg.Keys, done);
    }

    /** One shown connection: added unless it is held. */
    method AddUnlessHeld(k: TKey, p: Pair, cached: ConnTable, ghost shown: Conns) returns (added: bool)
      requires connections.Valid() && Matches(connections.conns, shown, p)
      requires k in cached.m && Shows(cached, p, shown) && cached !in connections.repr
      modifies connections, connections.repr
      ensures connections.Valid() && fresh(connections.repr - old(connections.repr))
          && old(connections.tables.Keys) <= connections.tables.Keys
      ensures k in shown && connections.conns == old(connections.conns)[k := shown[k]]
      ensures added <==> k !in old(connections.conns)
    {
      var conn := cached.m[k];
      HeldIff(connections, shown, p, k);
      hide Connections.Holds;
      added := !(p in connections.tables && conn in connections.tables[p].m.Values);
      if added {
        connections.Add(conn);
      } else {
        assert connections.conns == connections.conns[k := shown[k]];
      }
    }

    ghost predicate AddingSoFar(svc1: Conns, left: set<TKey>, cached: ConnTable, shown: Conns, p: Pair, modified: bool)
      reads this, connections, connections.repr, cached
    {
      && connections.Valid() && cached !in connections.repr && Shows(cached, p, shown) && left <= cached.m.Keys
      && Adding(svc1, connections.conns, left, shown, p, modified)
    }

    method AddNext(ghost svc1: Conns, left: set<TKey>, cached: ConnTable, ghost shown: Conns, p: Pair, modified: bool,
                   k: TKey)
      returns (modified': bool)
      requires AddingSoFar(svc1, left, cached, shown, p, modified) && k in left
      modifies connections, connections.repr
      ensures fresh(connections.repr - old(connections.repr)) && old(connections.tables.Keys) <= connections.tables.Keys
      ensures AddingSoFar(svc1, left - {k}, cached, shown, p, modified')
    {
      hide Connections.Holds, Adding, Shows, Matches;
      AddingStep(svc1, connections.conns, left, shown, p, modified, k);
      var added := AddUnlessHeld(k, p, cached, shown);
      modified' := modified || added;
    }

    /** One pair: everything shown is added. */
    method AddPair(p: Pair, cached: ConnTable, ghost shown: Conns) returns (modified: bool)
      requires connections.Valid() && Matches(connections.conns, shown, p)
      requires Shows(cached, p, shown) && cached !in connections.repr
      modifies connections, connections.repr
      ensures connections.Valid() && fresh(connections.repr - old(connections.repr))
          && old(connections.tables.Keys) <= connections.tables.Keys
      ensures connections.conns == Overlaid(old(connections.conns), shown, {p})
      ensures modified <==> !SamePair(connections.conns, old(connections.conns), p)
    {
      hide AddingSoFar, Connections.Holds, Adding, Shows, Matches, Overlaid, ConnMaps.SamePair;
      ghost var svc1 := connections.conns;
      modified := false;
      var left := cached.m.Keys;
      AddingStarted(cached, shown, p);
      while left != {}
        invariant AddingSoFar(svc1, left, cached, shown, p, modified) && fresh(connections.repr - old(connections.repr))
        invariant old(connections.tables.Keys) <= connections.tables.Keys
        decreases left
      {
        var k :| k in left;
        modified := AddNext(svc1, left, cached, shown, p, modified, k);
        left := left - {k};
      }
      AddingFinished(svc1, cached, shown, p, modified);
    }

    lemma AddingStarted(cached: ConnTable, shown: Conns, p: Pair)
      requires connections.Valid() && Matches(connections.conns, shown, p)
      requires Shows(cached, p, shown) && cached !in connections.repr
      ensures AddingSoFar(connections.conns, cached.m.Keys, cached, shown, p, false)
    {
      AddingStart(connections.conns, cached, shown, p);
    }

    lemma AddingFinished(svc1: Conns, cached: ConnTable, shown: Conns, p: Pair, modified: bool)
      requires AddingSoFar(svc1, {}, cached, shown, p, modified)
      ensures connections.Valid() && connections.conns == Overlaid(svc1, shown, {p})
      ensures modified <==> !SamePair(connections.conns, svc1, p)
    {
      AddingDone(svc1, connections.conns, shown, p, modified);
    }

    /** The pairs `done` are added, and `modified` are those of them that changed. */
    ghost predicate AddedSoFar(svc1: Conns, shown: Conns, done: set<Pair>, modified: set<Pair>)
      reads this, connections, connections.repr
    {
      && connections.Valid()
      && connections.conns == Overlaid(svc1, shown, done) && modified == Changed(connections.conns, svc1, done)
    }

    method AddNextPair(p: Pair, cached: ConnTable, ghost shown: Conns, ghost svc1: Conns, ghost done: set<Pair>,
                       modified: set<Pair>) returns (modified': set<Pair>)
      requires AddedSoFar(svc1, shown, done, modified) && p !in done && Matches(svc1, shown, p)
      requires cached !in connections.repr && Shows(cached, p, shown)
      modifies connections, connections.repr
      ensures fresh(connections.repr - old(connections.repr)) && old(connections.tables.Keys) <= connections.tables.Keys
      ensures AddedSoFar(svc1, shown, done + {p}, modified')
    {
      hide Connections.Holds, Matches, Overlaid, Changed, Shows, ConnMaps.SamePair;
      OverlaidTwice(svc1, shown, done, p);
      OverlaidMore(svc1, shown, done, p);
      OverlaidChanged(svc1, shown, done, p);
      var m := AddPair(p, cached, shown);
      modified' := if m then modified + {p} else modified;
    }

    /** Every pair of the message. */
    method AddConnections(msg: Tables, ghost shown: Conns, ghost mrepr: set<ConnTable>) returns (modified: set<Pair>)
      requires connections.Valid() && ShowsAll(msg, shown, mrepr) && mrepr !! connections.repr
      requires MatchesAll(connections.conns, shown, msg.Keys)
      modifies connections, connections.repr
      ensures fresh(connections.repr - old(connections.repr)) && old(connections.tables.Keys) <= connections.tables.Keys
      ensures AddedSoFar(old(connections.conns), shown, msg.Keys, modified)
    {
      hide MatchesAll, Split, AddedSoFar, Connections.Holds, Shows, ShowsAll, Overlaid, Changed;
      ghost var svc1, done: set<Pair> := connections.conns, {};
      var left := msg.Keys;
      modified := {};
      AddedStart(shown);
      SplitStart(msg.Keys);
      while left != {}
        invariant Split(msg.Keys, done, left) && mrepr !! connections.repr
        invariant fresh(connections.repr - old(connections.repr))
            && old(connections.tables.Keys) <= connections.tables.Keys
        invariant AddedSoFar(svc1, shown, done, modified) && ShowsAll(msg, shown, mrepr)
        decreases left
      {
        var p :| p in left;
        SplitMore(msg.Keys, done, left, p);
        ShowsOne(msg, shown, mrepr, p);
        MatchesOne(svc1, shown, msg.Keys, p);
        modified := AddNextPair(p, msg[p], shown, svc1, done, modified);
        left, done := left - {p}, done + {p};
      }
      SplitDone(msg.Keys, done);
    }

    lemma AddedStart(shown: Conns)
      requires connections.Valid()
      ensures AddedSoFar(connections.conns, shown, {}, {})
    {
      OverlaidStart(connections.conns, shown);
    }

    /** Removal stops nothing that is shown. */
    method RemoveKeepingShown(msg: Tables, ghost shown: Conns, ghost mrepr: set<ConnTable>,
                              ghost sobjs: set<Connection>)
      returns (modified: set<Pair>)
      requires Valid() && ShowsAll(msg, shown, mrepr) && mrepr !! connections.repr
      requires OpenShown(shown, sobjs, msg.Keys)
      modifies connections`conns, connections.repr, objs
      ensures PrunedSoFar(old(connections.conns), shown, msg.Keys, modified)
      ensures OpenShown(shown, sobjs, msg.Keys)
    {
      hide Connections.Holds, Shows, ShowsAll, Changed;
      ghost var svc0 := connections.conns;
      modified := RemoveConnections(msg, shown, mrepr);
      forall k | k in shown ensures !shown[k].closed {
        if shown[k] in objs {
          assert svc0[k] == shown[k];
        }
      }
    }

    /** A notification: the named pairs end up with the connections the message shows at this moment.
        Those no longer held are stopped, and changed pairs without active connection connect anew. */
    method HandleNotification(msg: Tables, ghost shown: Conns, ghost mrepr: set<ConnTable>,
                              ghost sobjs: set<Connection>)
      returns (triggers: set<Pair>)
      requires Valid() && ShowsAll(msg, shown, mrepr) && mrepr !! connections.repr
      requires OpenShown(shown, sobjs, msg.Keys)
      modifies this`objs, connections, connections.repr, objs
      ensures Valid() && fresh(connections.repr - old(connections.repr))
          && old(connections.tables.Keys) <= connections.tables.Keys
      ensures connections.conns == Synced(old(connections.conns), shown, msg.Keys)
      ensures StoppedOthers(old(objs), objs)
      ensures triggers == set p | p in connections.tables
                                  && p in Changed(connections.conns, old(connections.conns), msg.Keys) && p !in active
    {
      hide Connections.Holds, Shows, ShowsAll, Changed, Pruned, Overlaid, Tracks, AllOpen, OpenShown, StoppedOthers,
           Exact, MatchesAll, Held, ConnMaps.Synced, ConnMaps.SamePair;
      ghost var svc0, objs0 := connections.conns, objs;
      OpenExact(svc0, objs0);
      var removed := RemoveKeepingShown(msg, shown, mrepr, sobjs);
      AfterRemoval(svc0, connections.conns, shown, objs0, sobjs, msg.Keys);
      ghost var held: set<Connection> := Held(Synced(svc0, shown, msg.Keys));
      assert AllOpen(Synced(svc0, shown, msg.Keys), held);
      var added := AddConnections(msg, shown, mrepr);
      assert AllOpen(connections.conns, held);
      objs := held;
      triggers := set p | p in connections.tables && p in removed + added && p !in active;
    }

    /** Every connection of a pair is deleted and stopped. */
    method StopPair(p: Pair, ghost svc0: Conns)
      requires connections.Valid() && Tracks(svc0, connections.conns, objs) && p in connections.tables
      modifies connections`conns, connections.repr, objs
      ensures connections.Valid() && Tracks(svc0, connections.conns, objs)
      ensures connections.conns == Pruned(old(connections.conns), map[], {p})
    {
      hide Connections.Holds, Tracks, Pruning, Pruned, ConnMaps.SamePair;
      var left := connections.tables[p].m.Keys;
      ghost var svc1, gone: set<TKey> := connections.conns, {};
      PruningStart(connections, map[], p);
      while left != {}
        invariant connections.Valid() && Tracks(svc0, connections.conns, objs)
        invariant Pruning(svc1, connections.conns, gone, left, map[], p)
        decreases left
      {
        var k :| k in left;
        PruningStep(svc1, connections.conns, gone, left, map[], p, k);
        RemoveOne(k, svc0);
        left, gone := left - {k}, gone + {k};
      }
      PruningDone(svc1, connections.conns, gone, map[], p);
    }

    /** The end of the service: every connection it holds is stopped, and none is left. */
    method Stop()
      requires Valid()
      modifies this`objs, connections`conns, connections.repr, objs
      ensures Valid() && connections.conns == map[] && objs == {} && StoppedOthers(old(objs), {})
    {
      hide Connections.Holds, Tracks, Pruned, Split, AllOpen, StoppedOthers, Exact;
      ghost var svc0, done: set<Pair> := connections.conns, {};
      TracksStart(connections, objs);
      PrunedStart(svc0, map[]);
      OpenExact(svc0, objs);
      PairsFiled(connections);
      var left := connections.tables.Keys;
      SplitStart(left);
      while left != {}
        invariant Split(connections.tables.Keys, done, left) && objs == old(objs)
        invariant connections.Valid() && Tracks(svc0, connections.conns, objs)
        invariant connections.conns == Pruned(svc0, map[], done)
        decreases left
      {
        var p :| p in left;
        SplitMore(connections.tables.Keys, done, left, p);
        PrunedMore(svc0, map[], done, p);
        StopPair(p, svc0);
        left, done := left - {p}, done + {p};
      }
      SplitDone(connections.tables.Keys, done);
      PrunedAll(svc0, done, objs);
      objs := {};
    }

    /** A pair of the message that the service may not have yet. */
    method RemoveNamed(p: Pair, cached: ConnTable, ghost shown: Conns, ghost svc0: Conns) returns (modified: bool)
      requires connections.Valid() && Tracks(svc0, connections.conns, objs)
      requires cached !in connections.repr && Shows(cached, p, shown)
      modifies connections`conns, connections.repr, objs
      ensures connections.Valid() && Tracks(svc0, connections.conns, objs)
      ensures connections.conns == Pruned(old(connections.conns), shown, {p})
      ensures modified <==> !SamePair(connections.conns, old(connections.conns), p)
    {
      hide Connections.Holds, Tracks, Pruned, Shows, ConnMaps.SamePair;
      if p in connections.tables {
        modified := RemovePair(p, cached, shown, svc0);
      } else {
        NoneFiled(connections, p);
        PrunedAbsent(connections.conns, shown, p);
        modified := false;
      }
    }
  }

  lemma TracksStart(cm: ConnectionMap, objs: set<Connection>)
    requires cm.Valid() && AllOpen(cm.conns, objs)
    ensures Tracks(cm.conns, cm.conns, objs)
  {
    forall k | k in cm.conns ensures cm.conns[k].key == k {
      cm.FiledUnder(KeyPair(k));
    }
  }

  lemma NoneFiled(cm: ConnectionMap, p: Pair)
    requires cm.Valid() && p !in cm.tables
    ensures forall k :: k in cm.conns ==> KeyPair(k) != p
  {
    cm.FiledUnder(p);
  }

  /** What the message shows is open and of its pairs. */
  ghost predicate OpenShown(shown: Conns, sobjs: set<Connection>, pairs: set<Pair>)
    reads sobjs
  {
    forall k :: k in shown ==> shown[k] in sobjs && !shown[k].closed && shown[k].key == k && KeyPair(k) in pairs
  }

  ghost function Held(conns: Conns): set<Connection>
  {
    set k | k in conns :: conns[k]
  }

  lemma OpenExact(conns: Conns, objs: set<Connection>)
    requires AllOpen(conns, objs)
    ensures Exact(conns, objs)
  {
  }

  /** Of the connections held before, exactly those not held now are stopped. */
  ghost predicate StoppedOthers(before: set<Connection>, now: set<Connection>)
    reads before
  {
    forall c :: c in before ==> (c.closed <==> c !in now)
  }

  /** After removal, what will be held is open, and what was held and will not be is stopped. */
  lemma SyncedOpen(svc0: Conns, svc1: Conns, shown: Conns, objs0: set<Connection>, sobjs: set<Connection>,
                   pairs: set<Pair>)
    requires svc1 == Pruned(svc0, shown, pairs) && Tracks(svc0, svc1, objs0) && OpenShown(shown, sobjs, pairs)
    requires Exact(svc0, objs0)
    ensures AllOpen(Synced(svc0, shown, pairs), Held(Synced(svc0, shown, pairs)))
    ensures StoppedOthers(objs0, Held(Synced(svc0, shown, pairs)))
  {
    var after := Synced(svc0, shown, pairs);
    forall k | k in after ensures after[k].key == k && !after[k].closed {
      if KeyPair(k) in pairs { assert after[k] == shown[k]; } else { assert after[k] == svc0[k] && k in svc1; }
    }
    forall c | c in objs0 ensures c.closed <==> c !in Held(after) {
      var k := c.key;
      assert c in Held(after) <==> k in after && after[k] == c;
      assert k in svc1 <==> k in after && after[k] == c;
    }
  }

  lemma AfterRemoval(svc0: Conns, svc1: Conns, shown: Conns, objs0: set<Connection>, sobjs: set<Connection>,
                     pairs: set<Pair>)
    requires svc1 == Pruned(svc0, shown, pairs) && Tracks(svc0, svc1, objs0) && OpenShown(shown, sobjs, pairs)
    requires Exact(svc0, objs0)
    ensures MatchesAll(svc1, shown, pairs)
    ensures Overlaid(svc1, shown, pairs) == Synced(svc0, shown, pairs)
    ensures AllOpen(Synced(svc0, shown, pairs), Held(Synced(svc0, shown, pairs)))
    ensures StoppedOthers(objs0, Held(Synced(svc0, shown, pairs)))
    ensures Changed(svc1, svc0, pairs) + Changed(Synced(svc0, shown, pairs), svc1, pairs)
         == Changed(Synced(svc0, shown, pairs), svc0, pairs)
  {
    PrunedMatches(svc0, shown, pairs);
    PrunedOverlaid(svc0, shown, pairs);
    ChangedBoth(svc0, shown, pairs);
    SyncedOpen(svc0, svc1, shown, objs0, sobjs, pairs);
  }

  lemma PairsFiled(cm: ConnectionMap)
    requires cm.Valid()
    ensures forall k :: k in cm.conns ==> KeyPair(k) in cm.tables
  {
    forall k | k in cm.conns ensures KeyPair(k) in cm.tables {
      cm.FiledUnder(KeyPair(k));
    }
  }

  lemma PrunedAll(svc0: Conns, pairs: set<Pair>, objs: set<Connection>)
    requires forall k :: k in svc0 ==> KeyPair(k) in pairs
    requires Tracks(svc0, Pruned(svc0, map[], pairs), objs) && Exact(svc0, objs)
    ensures Pruned(svc0, map[], pairs) == map[] && StoppedOthers(objs, {}) && AllOpen(map[], {})
  {
  }
}
