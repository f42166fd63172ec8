// The whole client: cache, service and the messages between them, as the program keeps them. Every event it
// handles is a step of the state machine.

module Clients {
  import opened Entries
  import opened Wrappers
  import opened ConnMaps
  import opened Referrals
  import opened ClientSystem
  import opened Connections
  import opened ClientCache
  import opened ClientService

  ghost function ClosedOf(all: set<Connection>): set<Connection>
    reads all
  {
    set c | c in all && c.closed
  }

  ghost function KeysOf(all: set<Connection>): map<Connection, TKey>
  {
    map c | c in all :: c.key
  }

  ghost function Names(messages: seq<Tables>): (names: seq<set<Pair>>)
    ensures |names| == |messages|
  {
    seq(|messages|, i requires 0 <= i < |messages| => messages[i].Keys)
  }

  /** Messages hold the cache's own tables. */
  ghost predicate Sharing(messages: seq<Tables>, tables: Tables)
  {
    forall i :: 0 <= i < |messages| ==> forall p :: p in messages[i] ==> p in tables && messages[i][p] == tables[p]
  }

  /** Every connection ever made belongs to a client and a cluster. */
  ghost predicate AllNamed(all: set<Connection>)
  {
    forall c :: c in all ==> |c.key.nqn| != 0 && |c.key.hostnqn| != 0
  }

  lemma NoConnections()
    ensures KeysOf({}) == map[] && ClosedOf({}) == {}
  {
  }

  lemma InitInv(s: State<Connection>)
    requires Init(s)
    ensures Inv(s)
  {
    SoundEmpty(s.hosts);
  }

  ghost predicate NamedKeys(keys: set<TKey>)
  {
    forall k :: k in keys ==> |k.nqn| != 0 && |k.hostnqn| != 0
  }

  lemma ConnNamed(all: set<Connection>, conn: Connection)
    requires AllNamed(all) && conn in all
    ensures |conn.key.nqn| != 0 && |conn.key.hostnqn| != 0
  {
  }

  lemma NamedPairs(es: seq<Entry>, n: nat)
    requires NamedKeys(EntryKeys(es))
    ensures forall p :: p in NewPairs(es, n) ==> !p.IsEmpty()
  {
    forall p | p in NewPairs(es, n) ensures !p.IsEmpty() {
      var i :| 0 <= i < |es[n..]| && es[n..][i].PairOf() == p;
      assert es[n + i].Key() in EntryKeys(es);
    }
  }

  /** Keys of parsed entries carry names. */
  lemma FileKeys(es: seq<Entry>, parsed: Option<seq<Entry>>, hosts: map<string, string>)
    requires Sound(es, hosts) && NamedKeys(EntryKeys(es)) && (parsed.Some? ==> Parsed(parsed.value))
    ensures NamedKeys(EntryKeys(AfterFile(es, parsed, hosts)))
  {
    if parsed.Some? {
      var more := MadePersistent(parsed.value);
      InsertAllSound(es, more, hosts);
      forall k | k in EntryKeys(more) ensures |k.nqn| != 0 && |k.hostnqn| != 0 {
        var i :| 0 <= i < |more| && more[i].Key() == k;
        assert parsed.value[i].Verify();
      }
    }
  }

  lemma KeysNamed(conns: Conns, all: set<Connection>)
    requires AllNamed(all) && Placed(conns, KeysOf(all))
    ensures NamedKeys(conns.Keys)
  {
    forall k | k in conns.Keys ensures |k.nqn| != 0 && |k.hostnqn| != 0 {
      assert KeysOf(all)[conns[k]] == k;
    }
  }

  ghost predicate Sendable(pairs: set<Pair>, tables: Tables)
  {
    pairs <= tables.Keys && forall p :: p in pairs ==> !p.IsEmpty()
  }

  lemma NamedSendable(es: seq<Entry>, n: nat, tables: Tables)
    requires NamedKeys(EntryKeys(es)) && NewPairs(es, n) <= tables.Keys
    ensures Sendable(NewPairs(es, n), tables)
  {
    NamedPairs(es, n);
  }

  /** The cache changed: new entries have new connections, and nothing is sent yet. */
  ghost predicate Grown(s: State<Connection>, s': State<Connection>)
  {
    && s' == s.(entries := s'.entries, conns := s'.conns, made := s'.made, stored := s'.stored, active := s'.active,
                total := s'.total)
    && Allocated(s.conns, s.made, EntryKeys(s'.entries), s'.conns, s'.made)
    && s'.total == |s'.entries|
  }

  lemma StillSharing(messages: seq<Tables>, before: Tables, after: Tables)
    requires Sharing(messages, before) && forall p :: p in before ==> p in after && after[p] == before[p]
    ensures Sharing(messages, after)
  {
  }

  /** What one map of connections has beyond another is filed under its key, new and open. */
  ghost predicate Extends(before: Conns, conns: Conns, all: set<Connection>)
    reads conns.Values
  {
    forall k :: k in conns ==>
      && conns[k].key == k
      && if k in before then conns[k] == before[k] else conns[k] !in all && !conns[k].closed
  }

  lemma Grew(before: Conns, conns: Conns, all: set<Connection>)
    requires AllNamed(all) && Placed(before, KeysOf(all)) && Extends(before, conns, all) && NamedKeys(conns.Keys)
    ensures var all' := all + Held(conns);
      && Allocated(before, KeysOf(all), conns.Keys, conns, KeysOf(all'))
      && ClosedOf(all') == ClosedOf(all) && AllNamed(all')
  {
    forall k | k in before && k in conns ensures conns[k] in all {
      assert before[k] in KeysOf(all);
    }
  }

  class Client {
    var cache: Cache
    var service: Service
    var messages: seq<Tables>
    var running: bool
    var watched: set<Connection>
    ghost var all: set<Connection>

    /** The state that the handlers are steps of. */
    ghost function Abs(): State<Connection>
      reads this, cache, cache.connections, service, service.connections, all
    {
      State(cache.hosts, cache.Listed(), cache.connections.conns, cache.stored, service.connections.conns,
            service.active, watched, multiset(ClosedOf(all)), KeysOf(all), Names(messages), running, cache.entriesTotal)
    }

    /** The two maps are apart, and the messages share the cache's tables. */
    ghost predicate Shape()
      reads this, cache, cache.connections, cache.connections.repr
      reads service, service.connections, service.connections.repr, service.objs
    {
      && cache.Valid() && service.Valid() && Carry(cache.Listed(), cache.connections.conns, cache.hosts)
      && cache.connections != service.connections && cache.connections.repr !! service.connections.repr
      && service.objs <= all && watched <= all && AllNamed(all)
      && Sharing(messages, cache.connections.tables)
    }

    ghost predicate Valid()
      reads this, cache, cache.connections, cache.connections.repr
      reads service, service.connections, service.connections.repr, service.objs, all
    {
      Shape() && Inv(Abs())
    }

    constructor (hosts: map<string, string>)
      ensures Valid() && Init(Abs()) && fresh(cache) && fresh(service)
    {
      cache := new Cache(hosts);
      service := new Service();
      messages, running, watched, all := [], true, {}, {};
      new;
      hide Connections.Holds, AllOpen, Inv, ClosedOf, KeysOf;
      NoConnections();
      InitInv(Abs());
    }

    /** After the cache took in new entries: its new connections are new and open. */
    twostate lemma CacheGrew(new all': set<Connection>)
      requires cache == old(cache) && all == old(all)
      requires old(AllNamed(all)) && cache.Valid() && cache.KeptConns()
      requires old(Placed(cache.connections.conns, KeysOf(all)))
      requires NamedKeys(cache.connections.conns.Keys) && all' == all + Held(cache.connections.conns)
      requires forall c :: c in all ==> c.closed == old(c.closed)
      ensures Allocated(old(cache.connections.conns), KeysOf(all), cache.connections.conns.Keys,
                        cache.connections.conns, KeysOf(all'))
      ensures ClosedOf(all') == old(ClosedOf(all)) && AllNamed(all')
    {
      hide Connections.Holds, Distinct, Placed, AllNamed, NamedKeys, KeysOf, Held, Allocated;
      forall k | k in cache.connections.conns ensures cache.connections.conns[k].key == k {
        cache.connections.FiledUnder(KeyPair(k));
      }
      Grew(old(cache.connections.conns), cache.connections.conns, all);
    }

    /** Sends the changed pairs, if there are any. */
    method Send(pairs: set<Pair>)
      requires Sendable(pairs, cache.connections.tables)
      requires Sharing(messages, cache.connections.tables)
      modifies this`messages
      ensures Sharing(messages, cache.connections.tables)
      ensures Names(messages) == Notify(old(Names(messages)), pairs)
    {
      if pairs != {} {
        var msg := cache.NotifyChange(pairs);
        assert msg.Keys == pairs;
        messages := messages + [msg];
      }
    }

    /** What the invariant of the state machine says about the cache. */
    lemma InvAgrees()
      requires Valid()
      ensures cache.Agrees() && NamedKeys(EntryKeys(cache.Listed()))
      ensures Placed(cache.connections.conns, KeysOf(all))
      ensures Abs().total == |Abs().entries| && cache.stored == Stored(cache.Listed())
    {
      KeysNamed(cache.connections.conns, all);
    }

    /** The cache takes in a file and stores its list. */
    method TakeFile(parsed: Option<seq<Entry>>) returns (pairs: set<Pair>)
      requires Valid() && (parsed.Some? ==> Parsed(parsed.value))
      modifies this`all, cache, cache.connections, cache.connections.repr
      ensures Shape() && Grown(old(Abs()), Abs())
      ensures cache.Listed() == AfterFile(old(cache.Listed()), parsed, cache.hosts)
          && cache.stored == Stored(cache.Listed())
      ensures service.active == old(service.active)
      ensures pairs == NewPairs(cache.Listed(), |old(cache.Listed())|) && Sendable(pairs, cache.connections.tables)
    {
      hide Entries.Sound, Entries.EntryKeys, Entries.Stored, Connections.Holds, Inv, AfterFile, NewPairs, Sharing,
           AllNamed, AllOpen;
      hide Allocated, Placed, NamedKeys, ClosedOf, KeysOf, Names, Held, Parsed, Distinct, Values, Sendable;
      InvAgrees();
      FileKeys(cache.Listed(), parsed, cache.hosts);
      ghost var n := |cache.Listed()|;
      pairs := cache.FileStored(parsed);
      NamedSendable(cache.Listed(), n, cache.connections.tables);
      ghost var all' := all + Held(cache.connections.conns);
      CacheGrew(all');
      StillSharing(messages, old(cache.connections.tables), cache.connections.tables);
      all := all';
    }

    /** A user's file appeared. */
    method FileEvent(parsed: Option<seq<Entry>>)
      requires Valid() && running && (parsed.Some? ==> Parsed(parsed.value))
      modifies this`messages, this`all, cache, cache.connections, cache.connections.repr
      ensures Valid() && Next(old(Abs()), File(parsed), Abs())
    {
      hide Entries.Sound, Entries.EntryKeys, Entries.Stored, Connections.Holds, Inv, AfterFile, NewPairs, Sharing,
           AllNamed, AllOpen;
      hide Notify, Allocated, Placed, Next, ClosedOf, KeysOf, Names;
      ghost var s := Abs();
      InvAgrees();
      var pairs := TakeFile(parsed);
      Send(pairs);
      FileNext(s, parsed, Abs());
      InvStep(s, File(parsed), Abs());
    }

    method SetActive(conn: Connection)
      requires Valid() && conn in all
      modifies service`active
      ensures Valid() && Abs() == old(Abs()).(active := old(Abs().active)[KeyPair(conn.key) := conn])
    {
      hide Connections.Holds, AllOpen, Sharing, AllNamed, ClosedOf, Names, KeysOf;
      service.active := service.active[KeyPair(conn.key) := conn];
      hide Entries.Sound, Entries.EntryKeys, Entries.Stored, Placed, Converging, StopsOk, NoneStopped;
    }

    /** A discovery over a connection that the service holds succeeded: its events are listened to from now on. */
    method LiveEvent(conn: Connection)
      requires Valid() && running && conn in service.connections.conns.Values
      modifies this`watched, service`active
      ensures Valid() && Next(old(Abs()), Live(conn), Abs())
    {
      hide Connections.Holds, AllOpen, Inv, Sharing, AllNamed, ClosedOf, Names, Next, Placed;
      ghost var s := Abs();
      InvPlaced();
      PlacedIn(service.connections.conns, all, conn);
      SetActive(conn);
      watched := watched + {conn};
      LiveNext(s, conn, Abs());
      InvStep(s, Live(conn), Abs());
    }

    /** The cache takes in the referrals of a discovery over a connection. */
    method TakeReferrals(conn: Connection, refs: seq<ReferralEntry>)
      returns (changed: set<Pair>, ghost adding: seq<Entry>, ghost removing: seq<Entry>)
      requires Valid() && conn in all
      modifies this`all, cache, cache.connections, cache.connections.repr
      ensures Shape() && Grown(old(Abs()), Abs()) && service.active == old(service.active)
      ensures Took(old(cache.Listed()), cache.hosts, conn.key, refs, adding, removing, cache.Listed(), changed)
      ensures cache.stored == (if changed == {} then old(cache.stored) else Stored(cache.Listed()))
      ensures Sendable(changed, cache.connections.tables)
    {
      hide Entries.Sound, Entries.EntryKeys, Entries.Stored, Connections.Holds, Inv, Sharing, AllNamed, AllOpen;
      hide Allocated, Placed, NamedKeys, ClosedOf, KeysOf, Names, Held, Took, Sendable;
      ConnNamed(all, conn);
      InvAgrees();
      changed, adding, removing := TakeInto(cache, conn.key, refs);
      ghost var all' := all + Held(cache.connections.conns);
      CacheGrew(all');
      StillSharing(messages, old(cache.connections.tables), cache.connections.tables);
      all := all';
    }

    /** A discovery after an event: the connection becomes active and its referrals are handled. */
    method AenEvent(conn: Connection, refs: seq<ReferralEntry>)
      returns (ghost adding: seq<Entry>, ghost removing: seq<Entry>)
      requires Valid() && running && conn in watched
      modifies this`messages, this`all, service`active, cache, cache.connections, cache.connections.repr
      ensures Valid() && Next(old(Abs()), Aen(conn, refs, adding, removing), Abs())
    {
      hide Entries.Sound, Entries.EntryKeys, Entries.Stored, Connections.Holds, Inv, Sharing, AllNamed, AllOpen;
      hide Notify, Allocated, Placed, Next, ClosedOf, Names, Took;
      ghost var s := Abs();
      InvAgrees();
      SetActive(conn);
      var changed;
      changed, adding, removing := TakeReferrals(conn, refs);
      Send(changed);
      AenNext(s, conn, refs, adding, removing, changed, Abs());
      InvStep(s, Aen(conn, refs, adding, removing), Abs());
    }

    /** What message `i` shows now: the cache's connections of its pairs, all of them open. */
    lemma MessageShows(i: nat)
      requires Valid() && running && i < |messages|
      ensures var shown := Shown(cache.connections.conns, messages[i].Keys);
        && ShowsAll(messages[i], shown, cache.connections.repr)
        && OpenShown(shown, Held(shown), messages[i].Keys)
        && Synced(service.connections.conns, shown, messages[i].Keys)
           == Synced(service.connections.conns, cache.connections.conns, messages[i].Keys)
    {
      hide Entries.Sound, Entries.EntryKeys, Entries.Stored, Connections.Holds, AllOpen, AllNamed, Converging, Placed,
           NoneStopped, Held;
      hide ShowsAll, OpenShown, Shown, Synced, KeysOf, ClosedOf;
      SharedOne(messages, cache.connections.tables, i);
      ShowsShared(cache.connections, messages[i]);
      OpenNow(cache.connections.conns, all, messages[i].Keys);
      SyncedShown(service.connections.conns, cache.connections.conns, messages[i].Keys);
    }

    /** The service takes in what message `i` shows. */
    method TakeMessage(i: nat) returns (triggers: set<Pair>)
      requires Valid() && running && i < |messages|
      modifies service, service.connections, service.connections.repr, service.objs
      ensures Shape() && service.active == old(service.active)
      ensures Abs() == Delivered(old(Abs()), i)
      ensures forall p :: p in triggers <==> Reconnects(old(Abs()), i, p)
    {
      hide Entries.Sound, Entries.EntryKeys, Entries.Stored, Connections.Holds, Inv, Sharing, AllNamed, AllOpen,
           ShowsAll, OpenShown;
      hide ClosedOf, KeysOf, Held, Synced, Stale, Changed, StoppedOthers, Exact, Placed, Reconnects;
      ghost var s := Abs();
      MessageShows(i);
      InvPlaced();
      PairsFiled(service.connections);
      OpenExact(service.connections.conns, service.objs);
      ghost var objs0 := service.objs;
      ghost var shown := Shown(cache.connections.conns, messages[i].Keys);
      triggers := service.HandleNotification(messages[i], shown, cache.connections.repr, Held(shown));
      OpenExact(service.connections.conns, service.objs);
      StaleIs(s.svc, s.conns, messages[i].Keys, objs0, service.objs, all);
      ClosedGrows(objs0);
      UnionDisjoint(old(ClosedOf(all)), objs0 - service.objs);
      TriggersIff(s, i, service.connections, triggers);
    }

    /** The service handles message `i`, early or late; `triggers` are the pairs it connects anew. */
    method DeliverEvent(i: nat) returns (triggers: set<Pair>)
      requires Valid() && running && i < |messages|
      modifies this`messages, service, service.connections, service.connections.repr, service.objs
      ensures Valid() && Next(old(Abs()), Deliver(i), Abs())
      ensures forall p :: p in triggers <==> Reconnects(old(Abs()), i, p)
    {
      hide Entries.Sound, Entries.EntryKeys, Entries.Stored, Connections.Holds, Inv, Sharing, AllNamed, AllOpen;
      hide Next, ClosedOf, KeysOf, Names, Synced, Stale, Reconnects;
      ghost var s := Abs();
      triggers := TakeMessage(i);
      NamesWithout(messages, i);
      SharedWithout(messages, cache.connections.tables, i);
      messages := messages[..i] + messages[i + 1..];
      DeliverNext(s, i, Abs());
      InvStep(s, Deliver(i), Abs());
    }

    method StopService()
      requires Valid()
      modifies this`running, service`objs, service.connections`conns, service.connections.repr, service.objs
      ensures Shape()
      ensures Abs() == old(Abs()).(
        svc := map[], stops := multiset(old(ClosedOf(all))) + multiset(old(service.objs)), running := false)
    {
      hide Entries.Sound, Entries.EntryKeys, Entries.Stored, Connections.Holds, Inv, Sharing, AllNamed, AllOpen;
      hide ClosedOf, KeysOf, Names, StoppedOthers, Exact;
      ghost var objs0 := service.objs;
      running := false;
      service.Stop();
      ClosedGrows(objs0);
      assert objs0 - service.objs == objs0;
      UnionDisjoint(old(ClosedOf(all)), objs0);
    }

    /** The service stops; the cache goes with the process. */
    method StopEvent()
      requires Valid() && running
      modifies this`running, service`objs, service.connections`conns, service.connections.repr, service.objs
      ensures Valid() && Next(old(Abs()), ClientSystem.Stop, Abs())
    {
      hide Entries.Sound, Entries.EntryKeys, Entries.Stored, Connections.Holds, Inv, Sharing, AllNamed, AllOpen;
      hide ClosedOf, KeysOf, Names, Next, Exact, Distinct, Values;
      ghost var s, objs := Abs(), service.objs;
      OpenExact(s.svc, objs);
      ValuesHeld(s.svc, objs);
      StopService();
      StopNext(s, objs, Abs());
      InvStep(s, ClientSystem.Stop, Abs());
    }

    /** A new process with the stored list and the user's files; `newer` says that no file is newer than the
        list. It does not come up when it has to use a list that fails verification. */
    method StartEvent(newer: bool, files: seq<Option<seq<Entry>>>, hosts: map<string, string>) returns (ok: bool)
      requires Valid() && forall i :: 0 <= i < |files| ==> files[i].Some? ==> Parsed(files[i].value)
      modifies this
      ensures ok <==> !(newer && old(cache.stored) != []) || VerifiedUpTo(old(cache.stored), |old(cache.stored)|)
      ensures ok ==> Valid() && Next(old(Abs()), Restart(newer && old(cache.stored) != [], files, hosts), Abs())
    {
      hide Entries.Sound, Entries.EntryKeys, Entries.Stored, Entries.Pairs, Connections.Holds, Inv, Sharing, AllNamed,
           AllOpen;
      hide Abs, Next, VerifiedUpTo, Placed, NamedKeys, Sendable, Started, Parsed;
      InvAgrees();
      var c, pairs;
      ok, c, pairs := StartCache(newer, cache.stored, files, hosts, cache.Listed(), cache.hosts);
      if ok {
        Relaunch(c, pairs, newer && cache.stored != [], files, hosts);
      }
    }

    /** The new process takes over from the old one. */
    method Relaunch(c: Cache, pairs: set<Pair>, ghost useStored: bool, ghost files: seq<Option<seq<Entry>>>,
                    ghost hosts: map<string, string>)
      requires Valid() && forall i :: 0 <= i < |files| ==> files[i].Some? ==> Parsed(files[i].value)
      requires c.Agrees() && c.hosts == hosts && NamedKeys(c.connections.conns.Keys)
          && Sendable(pairs, c.connections.tables)
      requires Started(cache.stored, useStored, files, hosts, c.Listed(), c.stored, pairs)
      requires forall k :: k in c.connections.conns ==> c.connections.conns[k] !in all && !c.connections.conns[k].closed
      modifies this
      ensures Valid() && Next(old(Abs()), Restart(useStored, files, hosts), Abs())
    {
      hide Entries.Sound, Entries.EntryKeys, Entries.Stored, Connections.Holds, Inv, Sharing, AllNamed, AllOpen;
      hide ClosedOf, KeysOf, Names, Next, Allocated, Placed, NamedKeys, Held, Notify, Sendable, Started, Parsed;
      ghost var s := Abs();
      ghost var all' := all + Held(c.connections.conns);
      StartGrew(c);
      assert ClosedOf(all') == old(ClosedOf(all));
      Launch(c, all', pairs);
      assert ClosedOf(all') == old(ClosedOf(all));
      StartNext(s, useStored, files, hosts, pairs, Abs());
      InvStep(s, Restart(useStored, files, hosts), Abs());
    }

    /** A new process begins with its cache, an empty service and one message. */
    method Launch(c: Cache, ghost all': set<Connection>, pairs: set<Pair>)
      requires c.Agrees() && AllNamed(all') && Sendable(pairs, c.connections.tables)
      modifies this
      ensures Shape() && all == all'
      ensures Abs() == State(c.hosts, c.Listed(), c.connections.conns, c.stored, map[], map[], {},
                             multiset(ClosedOf(all')), KeysOf(all'), Notify([], pairs), true, |c.Listed()|)
    {
      hide Entries.Sound, Entries.EntryKeys, Connections.Holds, AllNamed, AllOpen, ClosedOf, KeysOf, Names, Notify,
           Sendable, Sharing, Distinct, Values;
      var sent := FirstMessage(c, pairs);
      service := new Service();
      cache, messages, running, watched, all := c, sent, true, {}, all';
    }

    /** What a new process sends first, if it has any connections. */
    method FirstMessage(c: Cache, pairs: set<Pair>) returns (sent: seq<Tables>)
      requires Sendable(pairs, c.connections.tables)
      ensures Sharing(sent, c.connections.tables) && Names(sent) == Notify([], pairs)
    {
      SharingNone(c.connections.tables);
      sent := [];
      if pairs != {} {
        var msg := c.NotifyChange(pairs);
        assert msg.Keys == pairs;
        sent := [msg];
      }
    }

    /** The connections of a new process are new. */
    lemma StartGrew(c: Cache)
      requires c.Valid() && AllNamed(all) && NamedKeys(c.connections.conns.Keys)
      requires forall k :: k in c.connections.conns ==> c.connections.conns[k] !in all && !c.connections.conns[k].closed
      ensures var all' := all + Held(c.connections.conns);
        && Allocated(map[], KeysOf(all), c.connections.conns.Keys, c.connections.conns, KeysOf(all'))
        && ClosedOf(all') == ClosedOf(all) && AllNamed(all')
    {
      hide Connections.Holds, Distinct, AllNamed, NamedKeys, KeysOf, Held, Allocated, ClosedOf;
      forall k | k in c.connections.conns ensures c.connections.conns[k].key == k {
        c.connections.FiledUnder(KeyPair(k));
      }
      Grew(map[], c.connections.conns, all);
    }

    /** Of the connections the service held, those it holds no more are stopped, and no other. */
    twostate lemma ClosedGrows(objs0: set<Connection>)
      requires all == old(all) && old(AllOpen(service.connections.conns, service.objs))
          && objs0 == old(service.objs) <= all
      requires StoppedOthers(objs0, service.objs)
      requires forall c :: c in all - objs0 ==> c.closed == old(c.closed)
      ensures ClosedOf(all) == old(ClosedOf(all)) + (objs0 - service.objs) && old(ClosedOf(all)) !! objs0
    {
    }

    lemma InvPlaced()
      requires Valid()
      ensures Placed(cache.connections.conns, KeysOf(all)) && Placed(service.connections.conns, KeysOf(all))
    {
      hide Entries.Sound, Connections.Holds, AllOpen, Converging;
    }
  }

  /** Entries, pairs and stored list of a start. */
  ghost predicate Started(stored: seq<Entry>, useStored: bool, files: seq<Option<seq<Entry>>>,
                          hosts: map<string, string>, entries: seq<Entry>, stored': seq<Entry>, pairs: set<Pair>)
  {
    && (useStored ==> stored != [] && forall i :: 0 <= i < |stored| ==> stored[i].Verify())
    && entries == (if useStored then InsertAll([], stored, hosts) else AfterFiles([], files, hosts))
    && stored' == (if useStored then stored else Stored(entries))
    && pairs == Pairs(entries)
  }

  /** The cache of a new process. */
  method StartCache(newer: bool, stored: seq<Entry>, files: seq<Option<seq<Entry>>>, hosts: map<string, string>,
                    ghost es: seq<Entry>, ghost before: map<string, string>)
    returns (ok: bool, c: Cache, pairs: set<Pair>)
    requires Sound(es, before) && stored == Stored(es) && NamedKeys(EntryKeys(es))
    requires forall i :: 0 <= i < |files| ==> files[i].Some? ==> Parsed(files[i].value)
    ensures fresh(c) && fresh(c.connections) && fresh(c.connections.repr) && c.hosts == hosts
    ensures ok <==> !(newer && stored != []) || VerifiedUpTo(stored, |stored|)
    ensures ok ==>
      && c.Agrees() && NamedKeys(c.connections.conns.Keys) && Sendable(pairs, c.connections.tables)
      && Started(stored, newer && stored != [], files, hosts, c.Listed(), c.stored, pairs)
      && forall k :: k in c.connections.conns ==> fresh(c.connections.conns[k]) && !c.connections.conns[k].closed
  {
    hide Entries.Sound, Entries.EntryKeys, Entries.Stored, Entries.Pairs, Entries.InsertAll, Connections.Holds,
         AfterFiles, NamedKeys;
    c := new Cache(hosts);
    if newer && stored != [] {
      c.stored := stored;
      RestartExact(es, before, hosts);
      ok, pairs := c.SyncExact(es, before, stored);
    } else {
      ok := true;
      SoundEmpty(hosts);
      NoKeys();
      FilesKeys([], files, hosts);
      pairs := c.SyncFromFiles(files);
    }
    if ok {
      NamedAllPairs(c.Listed());
    }
  }

  lemma NoKeys()
    ensures NamedKeys(EntryKeys([]))
  {
  }

  lemma NamedAllPairs(es: seq<Entry>)
    requires NamedKeys(EntryKeys(es))
    ensures forall p :: p in Pairs(es) ==> !p.IsEmpty()
  {
    assert es[0..] == es;
    NamedPairs(es, 0);
  }

  lemma {:induction false} FilesKeys(es: seq<Entry>, files: seq<Option<seq<Entry>>>, hosts: map<string, string>)
    requires Sound(es, hosts) && NamedKeys(EntryKeys(es))
    requires forall i :: 0 <= i < |files| ==> files[i].Some? ==> Parsed(files[i].value)
    ensures NamedKeys(EntryKeys(AfterFiles(es, files, hosts)))
    decreases |files|
  {
    hide Entries.Sound, Entries.EntryKeys, AfterFile, NamedKeys, Parsed;
    if files == [] {
    } else {
      FileKeys(es, files[0], hosts);
      FileSound(es, files[0], hosts);
      FilesKeys(AfterFile(es, files[0], hosts), files[1..], hosts);
    }
  }

  lemma SharingNone(tables: Tables)
    ensures Sharing([], tables) && Names([]) == []
  {
  }

  lemma StartNext(s: State<Connection>, useStored: bool, files: seq<Option<seq<Entry>>>, hosts: map<string, string>,
                  pairs: set<Pair>, s': State<Connection>)
    requires forall i :: 0 <= i < |files| ==> files[i].Some? ==> Parsed(files[i].value)
    requires Started(s.stored, useStored, files, hosts, s'.entries, s'.stored, pairs)
    requires Allocated(map[], s.made, EntryKeys(s'.entries), s'.conns, s'.made)
    requires s' == State(hosts, s'.entries, s'.conns, s'.stored, map[], map[], {}, s.stops, s'.made,
                         Notify([], pairs), true, |s'.entries|)
    ensures Next(s, Restart(useStored, files, hosts), s')
  {
    hide Entries.InsertAll, AfterFiles, Entries.EntryKeys, Entries.Stored, Entries.Pairs, Allocated, Notify;
  }

  lemma ValuesHeld(conns: Conns, objs: set<Connection>)
    requires Exact(conns, objs)
    ensures conns.Values == objs
  {
    forall c | c in objs ensures c in conns.Values {
      assert conns[c.key] == c;
    }
  }

  lemma StopNext(s: State<Connection>, objs: set<Connection>, s': State<Connection>)
    requires s.running && objs == s.svc.Values
        && s' == s.(svc := map[], stops := s.stops + multiset(objs), running := false)
    ensures Next(s, ClientSystem.Stop, s')
  {
  }

  lemma SharedOne(messages: seq<Tables>, tables: Tables, i: nat)
    requires Sharing(messages, tables) && i < |messages|
    ensures forall p :: p in messages[i] ==> p in tables && messages[i][p] == tables[p]
  {
  }

  lemma ShowsShared(cm: ConnectionMap, msg: Tables)
    requires cm.Valid() && forall p :: p in msg ==> p in cm.tables && msg[p] == cm.tables[p]
    ensures ShowsAll(msg, Shown(cm.conns, msg.Keys), cm.repr)
  {
    hide Connections.Holds;
    forall p | p in msg ensures msg[p] in cm.repr && Shows(msg[p], p, Shown(cm.conns, msg.Keys)) {
      cm.FiledUnder(p);
    }
  }

  lemma OpenNow(conns: Conns, all: set<Connection>, pairs: set<Pair>)
    requires Placed(conns, KeysOf(all)) && NoneStopped(conns, multiset(ClosedOf(all)))
    ensures OpenShown(Shown(conns, pairs), Held(Shown(conns, pairs)), pairs)
  {
    forall k | k in conns ensures !conns[k].closed && conns[k].key == k {
      assert conns[k] !in multiset(ClosedOf(all));
    }
  }

  lemma SyncedShown(svc: Conns, conns: Conns, pairs: set<Pair>)
    ensures Synced(svc, Shown(conns, pairs), pairs) == Synced(svc, conns, pairs)
  {
  }

  /** What the service drops is what is stale; what it holds was made. */
  lemma StaleIs(svc: Conns, conns: Conns, pairs: set<Pair>, objs0: set<Connection>, objs1: set<Connection>,
                all: set<Connection>)
    requires Exact(svc, objs0) && Exact(Synced(svc, conns, pairs), objs1)
    requires Placed(svc, KeysOf(all)) && Placed(conns, KeysOf(all))
    ensures objs0 - objs1 == Stale(svc, conns, pairs) && objs1 <= all
  {
    var after := Synced(svc, conns, pairs);
    forall c | c in objs0 - objs1 ensures c in Stale(svc, conns, pairs) {
      assert svc[c.key] == c;
      assert c.key in after ==> after[c.key] != c;
      forall k' | k' in conns && conns[k'] == c ensures k' == c.key {
        assert KeysOf(all)[conns[k']] == k';
      }
    }
    forall c | c in Stale(svc, conns, pairs) ensures c in objs0 - objs1 {
      var k :| k in svc && KeyPair(k) in pairs && svc[k] == c
               && !(exists k' :: k' in conns && KeyPair(k') == KeyPair(k) && conns[k'] == svc[k]);
      assert KeysOf(all)[svc[k]] == k;
      assert c !in objs1;
    }
    forall c | c in objs1 ensures c in all {
      assert after[c.key] == c;
      assert (c.key in svc && svc[c.key] == c) || (c.key in conns && conns[c.key] == c);
    }
  }

  lemma NamesWithout(messages: seq<Tables>, i: nat)
    requires i < |messages|
    ensures Names(messages[..i] + messages[i + 1..]) == Names(messages)[..i] + Names(messages)[i + 1..]
    ensures Names(messages)[i] == messages[i].Keys
  {
  }

  lemma SharedWithout(messages: seq<Tables>, tables: Tables, i: nat)
    requires i < |messages| && Sharing(messages, tables)
    ensures Sharing(messages[..i] + messages[i + 1..], tables)
  {
    var rest := messages[..i] + messages[i + 1..];
    assert forall j :: 0 <= j < |rest| ==> rest[j] == messages[if j < i then j else j + 1];
  }

  /** The named pairs of message `i` are mirrored and what is stale is stopped; the message is still there. */
  ghost function Delivered(s: State<Connection>, i: nat): State<Connection>
    requires i < |s.pending|
  {
    s.(svc := Synced(s.svc, s.conns, s.pending[i]), stops := s.stops + multiset(Stale(s.svc, s.conns, s.pending[i])))
  }

  lemma DeliverNext(s: State<Connection>, i: nat, s': State<Connection>)
    requires s.running && i < |s.pending|
    requires s' == Delivered(s, i).(pending := s.pending[..i] + s.pending[i + 1..])
    ensures Next(s, Deliver(i), s')
  {
    hide Synced, Stale;
  }

  lemma UnionDisjoint(a: set<Connection>, b: set<Connection>)
    requires a !! b
    ensures multiset(a + b) == multiset(a) + multiset(b)
  {
  }

  /** The triggers of a notification are the pairs that the state machine connects anew. */
  lemma TriggersIff(s: State<Connection>, i: nat, cm: ConnectionMap, triggers: set<Pair>)
    requires i < |s.pending| && cm.Valid() && cm.conns == Synced(s.svc, s.conns, s.pending[i])
    requires forall k :: k in s.svc ==> KeyPair(k) in cm.tables
    requires triggers == set p | p in cm.tables && p in Changed(cm.conns, s.svc, s.pending[i]) && p !in s.active
    ensures forall p :: p in triggers <==> Reconnects(s, i, p)
  {
    hide Connections.Holds, Synced;
    PairsFiled(cm);
    SyncedSame(s.svc, s.conns, s.pending[i]);
    forall p | p in s.pending[i] && !SamePair(cm.conns, s.svc, p) ensures p in cm.tables {
      var k :| KeyPair(k) == p && (k in cm.conns || k in s.svc);
    }
    hide SamePair;
    forall p ensures p in triggers <==> Reconnects(s, i, p) {
      if p in s.pending[i] { assert SamePair(cm.conns, s.conns, p); }
    }
  }

  ghost function Shown(conns: Conns, pairs: set<Pair>): Conns
  {
    map k | k in conns && KeyPair(k) in pairs :: conns[k]
  }

  ghost predicate ReferralsOf(m: map<ReferralKey, ReferralEntry>, refs: seq<ReferralEntry>, k: TKey)
  {
    && (forall r :: r in m <==> IsReferral(r, refs, k))
    && (forall r :: r in m ==> m[r] == ReferralEntry(r.ip, r.port))
  }

  ghost predicate IsReferral(r: ReferralKey, refs: seq<ReferralEntry>, k: TKey)
  {
    && r.subNqn == k.nqn && r.hostnqn == k.hostnqn
    && (ReferralEntry(r.ip, r.port) in refs || ReferralEntry(r.ip, r.port) == ReferralEntry(k.ip, DISC_PORT))
  }

  /** The log page's referrals and the server itself, keyed by address, port and the connection's names. */
  method BuildReferrals(refs: seq<ReferralEntry>, k: TKey) returns (m: map<ReferralKey, ReferralEntry>)
    ensures m != map[] && ReferralsOf(m, refs, k)
  {
    m := map[];
    var list := refs + [ReferralEntry(k.ip, DISC_PORT)];
    for i := 0 to |list|
      invariant forall r ::
        r in m <==> r.subNqn == k.nqn && r.hostnqn == k.hostnqn && ReferralEntry(r.ip, r.port) in list[..i]
      invariant forall r :: r in m ==> m[r] == ReferralEntry(r.ip, r.port)
    {
      var r := list[i];
      assert list[..i + 1] == list[..i] + [r];
      m := m[ReferralKey(r.traddr, r.trsvcid, k.nqn, k.hostnqn) := r];
    }
    assert list[..|list|] == list;
    forall r ensures r in m <==> IsReferral(r, refs, k) {
    }
    assert ReferralKey(k.ip, DISC_PORT, k.nqn, k.hostnqn) in m;
  }

  /** However the referral map is gone through, it lists the referrals of the connection's pair. */
  lemma ListsOfPair(es: seq<Entry>, m: map<ReferralKey, ReferralEntry>, refs: seq<ReferralEntry>, k: TKey)
    requires Lists(es, m) && |k.nqn| != 0 && |k.hostnqn| != 0
    requires ReferralsOf(m, refs, k)
    ensures OfPair(es, KeyPair(k)) && SameKeys(es, WithSelf(refs, k))
  {
    forall i | 0 <= i < |es| ensures es[i].PairOf() == KeyPair(k) {
      assert es[i] in es;
      var r :| r in m && es[i] == RefEntry(r, m[r]);
      assert IsReferral(r, refs, k);
    }
    ListedKeys(es, m, refs, k);
  }

  lemma ListedKeys(es: seq<Entry>, m: map<ReferralKey, ReferralEntry>, refs: seq<ReferralEntry>, k: TKey)
    requires Lists(es, m)
    requires ReferralsOf(m, refs, k)
    ensures EntryKeys(es) == EntryKeys(WithSelf(refs, k))
  {
    var all := WithSelf(refs, k);
    forall x | x in EntryKeys(es) ensures x in EntryKeys(all) {
      var i :| 0 <= i < |es| && es[i].Key() == x;
      assert es[i] in es;
      var r :| r in m && es[i] == RefEntry(r, m[r]);
      assert IsReferral(r, refs, k);
      if m[r] in refs {
        var j :| 0 <= j < |refs| && refs[j] == m[r];
        assert all[j].Key() == x;
      } else {
        assert all[|refs|].Key() == x;
      }
    }
    forall x | x in EntryKeys(all) ensures x in EntryKeys(es) {
      var i :| 0 <= i < |all| && all[i].Key() == x;
      var r := if i < |refs| then refs[i] else ReferralEntry(k.ip, DISC_PORT);
      var key := ReferralKey(r.traddr, r.trsvcid, k.nqn, k.hostnqn);
      assert IsReferral(key, refs, k);
      assert key in m && RefEntry(key, m[key]) == all[i];
      KeyIn(all[i], es);
    }
  }

  /** The referrals of a discovery over a connection with key `k`, and what they made of the entries. */
  ghost predicate Took(es: seq<Entry>, hosts: map<string, string>, k: TKey, refs: seq<ReferralEntry>,
                       adding: seq<Entry>, removing: seq<Entry>, after: seq<Entry>, changed: set<Pair>)
  {
    && OfPair(adding, KeyPair(k)) && OfPair(removing, KeyPair(k)) && removing != []
    && SameKeys(adding, WithSelf(refs, k)) && SameKeys(removing, WithSelf(refs, k))
    && after == Reconcile(es, adding, removing, hosts) && changed == Reported(es, adding, removing, hosts)
  }

  /** What the handled referrals are to the state machine, and that keys and reported pairs carry names. */
  lemma ReferralsHandled(es: seq<Entry>, adding: seq<Entry>, removing: seq<Entry>, m: map<ReferralKey, ReferralEntry>,
                         refs: seq<ReferralEntry>, k: TKey, hosts: map<string, string>, after: seq<Entry>,
                         err: bool, changed: set<Pair>)
    requires Sound(es, hosts) && NamedKeys(EntryKeys(es)) && |k.nqn| != 0 && |k.hostnqn| != 0
    requires ReferralsOf(m, refs, k) && Lists(adding, m) && Lists(removing, m)
    requires Reconciled(es, adding, removing, hosts, after, err, changed)
    ensures Took(es, hosts, k, refs, adding, removing, after, changed)
    ensures NamedKeys(EntryKeys(after)) && forall p :: p in changed ==> !p.IsEmpty()
  {
    hide Entries.Sound, Entries.EntryKeys, Reconcile, Reported, OfPair, Lists, ReferralsOf;
    ListsOfPair(adding, m, refs, k);
    ListsOfPair(removing, m, refs, k);
    ReconcileKeys(es, adding, removing, KeyPair(k), hosts);
    ReportedIffChanged(es, adding, removing, KeyPair(k), hosts);
    forall x | x in EntryKeys(after) ensures |x.nqn| != 0 && |x.hostnqn| != 0 {
      assert KeyPair(x) != KeyPair(k) ==> x in EntryKeys(es);
    }
  }

  /** The referrals of a discovery go into the cache. */
  method TakeInto(cache: Cache, k: TKey, refs: seq<ReferralEntry>)
    returns (changed: set<Pair>, ghost adding: seq<Entry>, ghost removing: seq<Entry>)
    requires cache.Agrees() && NamedKeys(EntryKeys(cache.Listed())) && |k.nqn| != 0 && |k.hostnqn| != 0
    modifies cache, cache.connections, cache.connections.repr
    ensures cache.Agrees() && cache.connections.SameTables() && cache.KeptConns()
        && NamedKeys(EntryKeys(cache.Listed()))
    ensures Took(old(cache.Listed()), cache.hosts, k, refs, adding, removing, cache.Listed(), changed)
    ensures cache.stored == (if changed == {} then old(cache.stored) else Stored(cache.Listed()))
    ensures Sendable(changed, cache.connections.tables)
  {
    hide Entries.Sound, Entries.EntryKeys, Entries.Stored, Connections.Holds, ReferralsOf, Lists, Reconciled, Took,
         NamedKeys, ClientCache.Distinct;
    ghost var es := cache.Listed();
    var refMap := BuildReferrals(refs, k);
    var err;
    err, changed, adding, removing := cache.HandleReferrals(refMap);
    ReferralsHandled(es, adding, removing, refMap, refs, k, cache.hosts, cache.Listed(), err, changed);
  }

  lemma PlacedIn(conns: Conns, all: set<Connection>, conn: Connection)
    requires Placed(conns, KeysOf(all)) && conn in conns.Values
    ensures conn in all
  {
    var k :| k in conns && conns[k] == conn;
  }

  lemma LiveNext(s: State<Connection>, conn: Connection, s': State<Connection>)
    requires s.running && conn in s.svc.Values && conn in s.made && s.made[conn] == conn.key
    requires s' == s.(active := s.active[KeyPair(conn.key) := conn], watched := s.watched + {conn})
    ensures Next(s, Live(conn), s')
  {
  }

  lemma AenNext(s: State<Connection>, conn: Connection, refs: seq<ReferralEntry>, adding: seq<Entry>,
                removing: seq<Entry>, changed: set<Pair>, s': State<Connection>)
    requires s.running && conn in s.watched && conn in s.made && s.made[conn] == conn.key
    requires Took(s.entries, s.hosts, conn.key, refs, adding, removing, s'.entries, changed)
    requires Allocated(s.conns, s.made, EntryKeys(s'.entries), s'.conns, s'.made)
    requires s' == s.(entries := s'.entries, conns := s'.conns, made := s'.made,
                      active := s.active[KeyPair(conn.key) := conn],
                      stored := if changed == {} then s.stored else Stored(s'.entries),
                      pending := Notify(s.pending, changed), total := s'.total)
    requires s.total == |s.entries| && s'.total == |s'.entries|
    ensures Next(s, Aen(conn, refs, adding, removing), s')
  {
    assert SameKeys(adding, removing);
    hide Reconcile, Reported, OfPair, WithSelf, SameKeys, Allocated, Entries.EntryKeys, Entries.Stored, Notify;
  }

  lemma FileNext(s: State<Connection>, parsed: Option<seq<Entry>>, s': State<Connection>)
    requires s.running && (parsed.Some? ==> Parsed(parsed.value))
    requires s'.entries == AfterFile(s.entries, parsed, s.hosts)
    requires Allocated(s.conns, s.made, EntryKeys(s'.entries), s'.conns, s'.made)
    requires s' == s.(entries := s'.entries, conns := s'.conns, made := s'.made, stored := Stored(s'.entries),
                      pending := Notify(s.pending, NewPairs(s'.entries, |s.entries|)), total := s'.total)
    requires s.total == |s.entries| && s'.total == |s'.entries|
    ensures Next(s, File(parsed), s')
  {
    hide AfterFile, Allocated, Entries.EntryKeys, Entries.Stored, Notify, NewPairs;
  }
}
