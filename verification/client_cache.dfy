// The cache as the program keeps it: a list of entry pointers beside the tables of connections.

module ClientCache {
  import opened Entries
  import opened Wrappers
  import opened Referrals
  import opened Connections

  /** An entry in the list, told apart from others by its pointer. */
  class CachedEntry {
    const v: Entry

    constructor (v: Entry)
      ensures this.v == v
    {
      this.v := v;
    }
  }

  function Values(es: seq<CachedEntry>): (vs: seq<Entry>)
    ensures |vs| == |es|
  {
    seq(|es|, i requires 0 <= i < |es| => es[i].v)
  }

  ghost predicate Distinct(es: seq<CachedEntry>)
  {
    forall i, j :: 0 <= i < j < |es| ==> es[i] != es[j]
  }

  method ExistEntry(e: Entry, es: seq<Entry>) returns (found: bool)
    ensures found == Exists(e, es)
  {
    for i := 0 to |es|
      invariant forall j :: 0 <= j < i ==> !e.Same(es[j])
    {
      if e.Same(es[i]) { return true; }
    }
    return false;
  }

  method FindUserTMO(es: seq<Entry>) returns (tmo: Option<int>)
    ensures tmo == UserTMO(es)
  {
    for i := 0 to |es|
      invariant UserTMO(es) == UserTMO(es[i..])
    {
      if es[i].source == User && es[i].ctrlLossTMO.Some? { return es[i].ctrlLossTMO; }
      assert es[i..][1..] == es[i + 1..];
    }
    return None;
  }

  /** What adding an entry comes to: nothing to do, a new connection of the pair, or an error. */
  datatype Added = Present | New(pair: Pair) | Mismatch

  function AddResult(es: seq<Entry>, keys: set<TKey>, e: Entry): Added
  {
    if Exists(e, es) then Present else if e.Key() in keys then Mismatch else New(e.PairOf())
  }

  /** What a connection is made with: the timeout of its entry, and the id under which the host is connected
      already, if that is another one than the entry's own. */
  ghost predicate Carries(conn: Connection, e: Entry, hosts: map<string, string>)
  {
    && conn.key == TKey(e.transport, e.traddr, e.trsvcid, e.subsysnqn, e.hostnqn)
    && conn.ctrlLossTMO == e.ctrlLossTMO
    && conn.hostid == if e.hostnqn in hosts && hosts[e.hostnqn] != "" && hosts[e.hostnqn] != e.hostid
                      then hosts[e.hostnqn] else e.hostid
  }

  /** Every entry has its connection, made with what it should be made with. */
  ghost predicate Carry(es: seq<Entry>, conns: map<TKey, Connection>, hosts: map<string, string>)
  {
    forall i :: 0 <= i < |es| ==> es[i].Key() in conns && Carries(conns[es[i].Key()], es[i], hosts)
  }

  /** The connection as it is made from a listed entry. */
  ghost predicate MadeFor(conn: Connection, e: Entry)
  {
    && conn.key == e.Key() && conn.ctrlLossTMO == e.ctrlLossTMO
    && conn.hostid == if e.effectiveHostid != "" then e.effectiveHostid else e.hostid
  }

  /** In a sound list that is what it should be made with. */
  lemma MadeCarries(es: seq<Entry>, i: nat, conn: Connection, hosts: map<string, string>)
    requires Sound(es, hosts) && i < |es| && MadeFor(conn, es[i])
    ensures Carries(conn, es[i], hosts)
  {
    assert HostIdsFrom(es, hosts);
    hide Entries.UniqueKeys, Entries.AllPersistent, Entries.Settled, Entries.WellSourced;
  }

  lemma CarryMore(es: seq<Entry>, conns: map<TKey, Connection>, e: Entry, conns': map<TKey, Connection>,
                  hosts: map<string, string>)
    requires Carry(es, conns, hosts) && Sound(Insert(es, e, hosts), hosts)
    requires forall k :: k in conns ==> k in conns' && conns'[k] == conns[k]
    requires !Exists(e, es) ==> e.Key() in conns' && MadeFor(conns'[e.Key()], Complete(es, e, hosts))
    ensures Carry(Insert(es, e, hosts), conns', hosts)
  {
    hide Entries.Sound, Entries.Complete, Carries;
    if !Exists(e, es) {
      var es' := Insert(es, e, hosts);
      assert es'[|es|] == Complete(es, e, hosts) && forall i :: 0 <= i < |es| ==> es'[i] == es[i];
      CompleteKey(es, e, hosts);
      MadeCarries(es', |es|, conns'[e.Key()], hosts);
    }
  }

  lemma CompleteKey(es: seq<Entry>, e: Entry, hosts: map<string, string>)
    ensures Complete(es, e, hosts).Key() == e.Key()
  {
  }

  lemma CarryFewer(es: seq<Entry>, conns: map<TKey, Connection>, es': seq<Entry>, conns': map<TKey, Connection>,
                   hosts: map<string, string>)
    requires Carry(es, conns, hosts) && conns'.Keys == EntryKeys(es') && forall e :: e in es' ==> e in es
    requires forall k :: k in conns' ==> k in conns && conns'[k] == conns[k]
    ensures Carry(es', conns', hosts)
  {
    hide Carries;
    forall i | 0 <= i < |es'| ensures es'[i].Key() in conns' && Carries(conns'[es'[i].Key()], es'[i], hosts) {
      assert es'[i] in es && es'[i].Key() in EntryKeys(es');
    }
  }

  lemma FilterFrom(es: seq<Entry>, keep: Entry -> bool)
    ensures forall e :: e in Filter(es, keep) ==> e in es
  {
    FilterKeys(es, keep);
  }

  /** No earlier entry has this one's key. */
  ghost predicate First(es: seq<Entry>, i: nat)
    requires i < |es|
  {
    forall j :: 0 <= j < i ==> es[j].Key() != es[i].Key()
  }

  /** The first entry of each key has a connection made from it. */
  ghost predicate MadeFirst(es: seq<Entry>, conns: map<TKey, Connection>)
  {
    forall i :: 0 <= i < |es| && First(es, i) ==> es[i].Key() in conns && MadeFor(conns[es[i].Key()], es[i])
  }

  lemma MadeFirstMore(es: seq<Entry>, conns: map<TKey, Connection>, e: Entry, conns': map<TKey, Connection>,
                      hosts: map<string, string>)
    requires MadeFirst(es, conns) && conns.Keys == EntryKeys(es)
    requires forall k :: k in conns ==> k in conns' && conns'[k] == conns[k]
    requires AddResult(es, conns.Keys, e).New? ==>
      e.Key() in conns' && MadeFor(conns'[e.Key()], Complete(es, e, hosts))
    ensures MadeFirst(Insert(es, e, hosts), conns')
  {
    hide Entries.Complete, MadeFor;
    CompleteKey(es, e, hosts);
    var es' := Insert(es, e, hosts);
    assert forall i :: 0 <= i < |es| ==> es'[i] == es[i];
    forall i | 0 <= i < |es'| && First(es', i) ensures es'[i].Key() in conns' && MadeFor(conns'[es'[i].Key()], es'[i]) {
      if i < |es| {
        assert First(es, i);
      } else {
        assert forall k :: 0 <= k < |es| ==> es'[k].Key() != es'[i].Key();
      }
    }
  }

  lemma FirstCarry(es: seq<Entry>, conns: map<TKey, Connection>, hosts: map<string, string>)
    requires MadeFirst(es, conns) && Sound(es, hosts)
    ensures Carry(es, conns, hosts)
  {
    assert UniqueKeys(es);
    hide Entries.Sound, MadeFor, Carries;
    forall i | 0 <= i < |es| ensures es[i].Key() in conns && Carries(conns[es[i].Key()], es[i], hosts) {
      assert First(es, i);
      MadeCarries(es, i, conns[es[i].Key()], hosts);
    }
  }

  class Cache {
    const hosts: map<string, string>
    var cacheEntries: seq<CachedEntry>
    const connections: ConnectionMap
    var entriesTotal: int
    var stored: seq<Entry>

    ghost predicate Valid()
      reads this, connections, connections.repr
    {
      connections.Valid() && Distinct(cacheEntries)
    }

    /** The running cache: sound entries whose keys are those of the connections, counted by the metric. */
    ghost predicate Agrees()
      reads this, connections, connections.repr
    {
      && Valid()
      && Sound(Listed(), hosts)
      && connections.conns.Keys == EntryKeys(Listed())
      && entriesTotal == |cacheEntries|
      && Carry(Listed(), connections.conns, hosts)
    }

    ghost function Listed(): seq<Entry>
      reads this
    {
      Values(cacheEntries)
    }

    /** Connections that were there and still are, are the same objects; the others are new and open. */
    twostate predicate KeptConns()
      reads this, connections, set k | k in connections.conns :: connections.conns[k]
    {
      forall k :: k in connections.conns ==>
        if k in old(connections.conns) then connections.conns[k] == old(connections.conns[k])
        else fresh(connections.conns[k]) && !connections.conns[k].closed
    }

    constructor (hosts: map<string, string>)
      ensures this.hosts == hosts && Agrees() && Listed() == [] && stored == []
      ensures fresh(connections) && connections.tables == map[] && connections.conns == map[] && connections.repr == {}
    {
      this.hosts, cacheEntries, entriesTotal, stored := hosts, [], 0, [];
      connections := new ConnectionMap();
      new;
      SoundEmpty(hosts);
      assert Listed() == [];
    }

    method CreateReferralsFile()
      modifies this`stored
      ensures stored == Stored(Listed())
    {
      stored := Stored(Values(cacheEntries));
    }

    /** Looks the entry up and appends it, completed, when it is not there. */
    method ListEntry(e: Entry) returns (found: bool, e': Entry)
      requires Distinct(cacheEntries)
      modifies this`cacheEntries, this`entriesTotal
      ensures Distinct(cacheEntries)
      ensures found == Exists(e, old(Listed()))
      ensures Listed() == Insert(old(Listed()), e, hosts)
      ensures !found ==> e' == Complete(old(Listed()), e, hosts)
      ensures entriesTotal - |cacheEntries| == old(entriesTotal - |cacheEntries|)
    {
      var vals := Values(cacheEntries);
      e' := e;
      found := ExistEntry(e, vals);
      if found {
        return;
      }
      if e.source == Referral && e.ctrlLossTMO.None? {
        var tmo := FindUserTMO(vals);
        e' := e'.(ctrlLossTMO := tmo);
      }
      e' := e'.(effectiveHostid := EffectiveHostid(hosts, e'));
      var obj := new CachedEntry(e');
      cacheEntries := cacheEntries + [obj];
      entriesTotal := entriesTotal + 1;
      assert Listed() == vals + [e'];
    }

    /** Adds an entry unless the same one is there. The entry is listed even when its connection
        turns out to exist already. */
    method AddEntry(e: Entry) returns (r: Added)
      requires Valid()
      modifies this`cacheEntries, this`entriesTotal, connections, connections.repr
      ensures Valid() && connections.SameTables() && KeptConns()
      ensures r == AddResult(old(Listed()), old(connections.conns.Keys), e)
      ensures Listed() == Insert(old(Listed()), e, hosts)
      ensures connections.conns.Keys == old(connections.conns.Keys) + (if r.New? then {e.Key()} else {})
      ensures r.New? ==> r.pair in connections.tables
      ensures r.New? ==>
        e.Key() in connections.conns && MadeFor(connections.conns[e.Key()], Complete(old(Listed()), e, hosts))
      ensures entriesTotal - |cacheEntries| == old(entriesTotal - |cacheEntries|)
    {
      hide Entries.Exists, Entries.Insert, Entries.Complete, MadeFor, Connections.Holds, Distinct;
      var found, e' := ListEntry(e);
      if found {
        return Present;
      }
      CompleteKey(old(Listed()), e, hosts);
      var existed := Connect(e');
      r := if existed then Mismatch else New(e.PairOf());
    }

    /** A connection for a listed entry, unless its key has one. */
    method Connect(e: Entry) returns (existed: bool)
      requires connections.Valid()
      modifies connections, connections.repr
      ensures connections.Valid() && connections.SameTables() && KeptConns()
      ensures existed <==> e.Key() in old(connections.conns)
      ensures connections.conns.Keys == old(connections.conns.Keys) + {e.Key()}
      ensures !existed ==> e.PairOf() in connections.tables && MadeFor(connections.conns[e.Key()], e)
    {
      hide Connections.Holds;
      existed := connections.Has(e.Key());
      if !existed {
        var hostid := if e.effectiveHostid != "" then e.effectiveHostid else e.hostid;
        var conn := new Connection(e.Key(), hostid, e.ctrlLossTMO);
        connections.Add(conn);
      }
    }

    /** In a cache that agrees, adding never meets the mismatch, and agreement stays. */
    method AddSound(e: Entry) returns (r: Added)
      requires Agrees() && Insertable(e)
      modifies this`cacheEntries, this`entriesTotal, connections, connections.repr
      ensures Agrees() && connections.SameTables() && old(connections.conns.Keys) <= connections.conns.Keys
          && KeptConns()
      ensures r == if Exists(e, old(Listed())) then Present else New(e.PairOf())
      ensures Listed() == Insert(old(Listed()), e, hosts)
      ensures r.New? ==> r.pair in connections.tables
    {
      hide Entries.Sound, Entries.Insert, Entries.Exists, Entries.EntryKeys, Entries.Insertable, Connections.Holds,
           Distinct;
      hide Entries.Complete, MadeFor, Carry, AddResult;
      InsertSound(Listed(), e, hosts);
      ghost var es, conns := Listed(), connections.conns;
      AddsIff(es, e, hosts);
      r := AddEntry(e);
      CarryMore(es, conns, e, connections.conns, hosts);
    }

    /** The loop over new entries: all are added, and the pairs that got connections collected. */
    method AddAll(more: seq<Entry>) returns (pairs: set<Pair>, err: bool)
      requires Agrees() && AllInsertable(more)
      modifies this`cacheEntries, this`entriesTotal, connections, connections.repr
      ensures Agrees() && connections.SameTables() && old(connections.conns.Keys) <= connections.conns.Keys
          && KeptConns()
      ensures !err && Listed() == InsertAll(old(Listed()), more, hosts)
      ensures pairs == NewPairs(Listed(), |old(Listed())|) && pairs <= connections.tables.Keys
    {
      pairs, err := {}, false;
      ghost var before := Listed();
      hide Entries.Sound, Entries.Insert, Entries.Exists, Entries.EntryKeys, Connections.Holds, Distinct;
      for i := 0 to |more|
        invariant Agrees() && connections.SameTables() && old(connections.conns.Keys) <= connections.conns.Keys
            && KeptConns()
        invariant before <= Listed()
        invariant InsertAll(before, more, hosts) == InsertAll(Listed(), more[i..], hosts)
        invariant pairs == NewPairs(Listed(), |before|) && pairs <= connections.tables.Keys
      {
        assert more[i..][0] == more[i] && more[i..][1..] == more[i + 1..];
        InsertPairs(Listed(), more[i], hosts, |before|);
        var r := AddSound(more[i]);
        if r.Mismatch? {
          return {}, true;
        }
        if r.New? {
          pairs := pairs + {r.pair};
        }
      }
    }

    /** A user file: its entries are made persistent and added one by one. */
    method FileAdded(parsed: Option<seq<Entry>>) returns (pairs: set<Pair>, err: bool)
      requires Agrees() && (parsed.Some? ==> Parsed(parsed.value))
      modifies this`cacheEntries, this`entriesTotal, connections, connections.repr
      ensures Agrees() && connections.SameTables() && old(connections.conns.Keys) <= connections.conns.Keys
          && KeptConns()
      ensures err == parsed.None?
      ensures Listed() == AfterFile(old(Listed()), parsed, hosts)
      ensures pairs == NewPairs(Listed(), |old(Listed())|) && pairs <= connections.tables.Keys
    {
      if parsed.None? {
        return {}, true;
      }
      pairs, err := AddAll(MadePersistent(parsed.value));
    }

    /** A file appeared: its entries are added and the list is stored. */
    method FileStored(parsed: Option<seq<Entry>>) returns (pairs: set<Pair>)
      requires Agrees() && (parsed.Some? ==> Parsed(parsed.value))
      modifies this, connections, connections.repr
      ensures Agrees() && connections.SameTables() && KeptConns()
      ensures Listed() == AfterFile(old(Listed()), parsed, hosts) && stored == Stored(Listed())
      ensures pairs == NewPairs(Listed(), |old(Listed())|) && pairs <= connections.tables.Keys
    {
      hide Entries.Sound, Entries.EntryKeys, Entries.Stored, Parsed, AfterFile, NewPairs, Connections.Holds, Distinct,
           Values;
      var err;
      pairs, err := FileAdded(parsed);
      CreateReferralsFile();
    }

    method Find(entry: CachedEntry) returns (i: nat)
      requires Distinct(cacheEntries)
      ensures i < |cacheEntries| <==> entry in cacheEntries
      ensures Drop(cacheEntries, {entry}) ==
              if i < |cacheEntries| then cacheEntries[..i] + cacheEntries[i + 1..] else cacheEntries
    {
      i := 0;
      while i < |cacheEntries| && cacheEntries[i] != entry
        invariant i <= |cacheEntries|
        invariant entry !in cacheEntries[..i]
      {
        i := i + 1;
      }
      hide Drop;
      if i < |cacheEntries| {
        assert entry !in cacheEntries[i + 1..];
        DropAt(cacheEntries, i, entry);
      } else {
        DropNone(cacheEntries, {entry});
      }
    }

    /** Deletes the entry with this pointer, and the connection of its key. */
    method DeleteEntry(entry: CachedEntry) returns (found: bool)
      requires Valid()
      modifies this`cacheEntries, this`entriesTotal, connections`conns, connections.repr
      ensures Valid()
      ensures found <==> entry in old(cacheEntries)
      ensures cacheEntries == Drop(old(cacheEntries), {entry})
      ensures connections.conns == if found then old(connections.conns) - {entry.v.Key()} else old(connections.conns)
      ensures entriesTotal - |cacheEntries| == old(entriesTotal - |cacheEntries|)
    {
      hide Drop, Connections.Holds, Distinct;
      DropDistinct(cacheEntries, {entry});
      var i := Find(entry);
      found := i < |cacheEntries|;
      if found {
        cacheEntries := cacheEntries[..i] + cacheEntries[i + 1..];
        entriesTotal := entriesTotal - 1;
        connections.Delete(entry.v.Key());
      }
    }

    /** The entries of the referrals' pair that no referral is the same as. */
    method ToRemove(refs: seq<Entry>, pair: Pair) returns (rem: seq<CachedEntry>)
      requires Distinct(cacheEntries)
      ensures Distinct(rem)
      ensures forall x :: x in rem <==> x in cacheEntries && !Kept(refs, pair)(x.v)
    {
      rem := [];
      for i := 0 to |cacheEntries|
        invariant Distinct(rem)
        invariant forall x :: x in rem <==> x in cacheEntries[..i] && !Kept(refs, pair)(x.v)
      {
        var x := cacheEntries[i];
        var found := ExistEntry(x.v, refs);
        if !found && x.v.hostnqn == pair.hostNqn && x.v.subsysnqn == pair.clusterNqn {
          assert x !in rem;
          rem := rem + [x];
        }
      }
    }

    method DeleteEntries(rem: seq<CachedEntry>) returns (pairs: set<Pair>)
      requires Valid() && Distinct(rem) && PtrSet(rem) <= PtrSet(cacheEntries)
      modifies this`cacheEntries, this`entriesTotal, connections`conns, connections.repr
      ensures Valid()
      ensures Deleted(old(cacheEntries), old(connections.conns), rem, cacheEntries, connections.conns, pairs)
      ensures entriesTotal - |cacheEntries| == old(entriesTotal - |cacheEntries|)
    {
      pairs := {};
      ghost var es0, conns0 := cacheEntries, connections.conns;
      DropNone(es0, {});
      assert PtrSet(rem[..0]) == {} && EntryKeys(Values(rem[..0])) == {};
      assert Deleted(es0, conns0, rem[..0], es0, conns0, pairs);
      hide Drop, Connections.Holds, Distinct, PtrSet, Deleted;
      for i := 0 to |rem|
        invariant Valid()
        invariant Deleted(es0, conns0, rem[..i], cacheEntries, connections.conns, pairs)
        invariant entriesTotal - |cacheEntries| == old(entriesTotal - |cacheEntries|)
      {
        DeletedStep(es0, conns0, rem, i, cacheEntries, connections.conns, pairs);
        var found := DeleteEntry(rem[i]);
        if found {
          pairs := pairs + NonEmpty({rem[i].v.PairOf()});
        }
      }
      assert rem[..|rem|] == rem;
    }

    lemma RemovedFiled(refs: seq<Entry>)
      requires Agrees() && refs != []
      ensures Removed(Listed(), refs) <= connections.tables.Keys
    {
      forall p | p in Removed(Listed(), refs) ensures p in connections.tables {
        RemovedHasKey(Listed(), refs, p);
        hide Entries.Sound, Connections.Holds;
        connections.FiledUnder(p);
      }
    }

    method RemoveNotInReferrals(refs: seq<Entry>) returns (pairs: set<Pair>, err: bool)
      requires Agrees() && refs != []
      modifies this`cacheEntries, this`entriesTotal, connections`conns, connections.repr
      ensures Agrees()
      ensures err <==> Mixed(refs)
      ensures Listed() == if err then old(Listed()) else Filter(old(Listed()), Kept(refs, refs[|refs| - 1].PairOf()))
      ensures pairs == NonEmpty(Removed(old(Listed()), refs)) && pairs <= connections.tables.Keys
      ensures forall k :: k in connections.conns ==>
        k in old(connections.conns) && connections.conns[k] == old(connections.conns[k])
    {
      var pair: Pair;
      err, pair := CheckPairs(refs);
      if err {
        return {}, err;
      }
      var rem := ToRemove(refs, pair);
      DropFilters(cacheEntries, PtrSet(rem), Kept(refs, pair));
      RemainingKeys(cacheEntries, rem, Kept(refs, pair));
      FilterSound(Listed(), Kept(refs, pair), hosts);
      RemovedPairs(cacheEntries, rem, refs);
      RemovedFiled(refs);
      hide Drop, Connections.Holds, Distinct, Referrals.Filter, Referrals.Kept, Referrals.Removed, Entries.Sound,
           Entries.EntryKeys, Carry;
      ghost var es, conns := Listed(), connections.conns;
      FilterFrom(es, Kept(refs, pair));
      pairs := DeleteEntries(rem);
      CarryFewer(es, conns, Listed(), connections.conns, hosts);
    }

    /** Adds the referrals that are new and removes what they leave out, each in its own order. */
    method ApplyReferrals(adding: seq<Entry>, removing: seq<Entry>) returns (err: bool, changed: set<Pair>)
      requires Agrees() && removing != [] && AllInsertable(adding)
      modifies this`cacheEntries, this`entriesTotal, connections, connections.repr
      ensures Agrees() && connections.SameTables() && KeptConns() && changed <= connections.tables.Keys
      ensures Reconciled(old(Listed()), adding, removing, hosts, Listed(), err, changed)
    {
      InsertAllAppends(Listed(), adding, hosts);
      hide Referrals.Mixed, Referrals.Filter, Referrals.Kept, Referrals.Removed, Entries.Pairs;
      hide Entries.Sound, Entries.EntryKeys, Entries.InsertAll, Connections.Holds, Distinct, Values;
      var added, _ := AddAll(adding);
      var removed: set<Pair>;
      removed, err := RemoveNotInReferrals(removing);
      changed := NonEmpty(added) + removed;
    }

    /** The referrals are ranged over twice, in whatever orders. */
    method ReconcileMap(refs: map<ReferralKey, ReferralEntry>)
      returns (err: bool, changed: set<Pair>, ghost adding: seq<Entry>, ghost removing: seq<Entry>)
      requires Agrees() && refs != map[]
      modifies this`cacheEntries, this`entriesTotal, connections, connections.repr
      ensures Agrees() && connections.SameTables() && KeptConns() && changed <= connections.tables.Keys
      ensures Lists(adding, refs) && Lists(removing, refs)
      ensures Reconciled(old(Listed()), adding, removing, hosts, Listed(), err, changed)
    {
      hide AllInsertable, Reconciled, Entries.Sound, Entries.EntryKeys, Connections.Holds, Distinct, Values;
      var order := RefEntries(refs);
      var order' := RefEntries(refs);
      adding, removing := order, order';
      err, changed := ApplyReferrals(order, order');
    }

    /** Referrals of a discovery: reconcile, then store and report what changed. */
    method HandleReferrals(refs: map<ReferralKey, ReferralEntry>)
      returns (err: bool, changed: set<Pair>, ghost adding: seq<Entry>, ghost removing: seq<Entry>)
      requires Agrees()
      modifies this, connections, connections.repr
      ensures Agrees() && connections.SameTables() && KeptConns() && changed <= connections.tables.Keys
      ensures refs == map[] ==> err && changed == {} && unchanged(this)
      ensures refs != map[] ==>
                && Lists(adding, refs) && Lists(removing, refs)
                && Reconciled(old(Listed()), adding, removing, hosts, Listed(), err, changed)
                && stored == (if changed == {} then old(stored) else Stored(Listed()))
    {
      hide Lists, Reconciled;
      hide Entries.Sound, Entries.EntryKeys, Entries.Stored, Connections.Holds, Distinct, Values;
      adding, removing := [], [];
      if refs == map[] {
        return true, {}, adding, removing;
      }
      err, changed, adding, removing := ReconcileMap(refs);
      if changed != {} {
        CreateReferralsFile();
      }
    }

    /** The notification: the tables themselves of the pairs that have one. */
    method NotifyChange(pairs: set<Pair>) returns (msg: Tables)
      ensures msg == map p | p in pairs && !p.IsEmpty() && p in connections.tables :: connections.tables[p]
    {
      msg := map[];
      var left := pairs;
      while left != {}
        invariant left <= pairs
        invariant msg == map p | p in pairs - left && !p.IsEmpty() && p in connections.tables :: connections.tables[p]
      {
        var p :| p in left;
        left := left - {p};
        if !p.IsEmpty() && p in connections.tables {
          msg := msg[p := connections.tables[p]];
        }
      }
    }

    /** One stored entry: refused, or added with its key and its pair. */
    method SyncEntry(js: seq<Entry>, i: nat, before: set<Pair>) returns (ok: bool, pairs: set<Pair>)
      requires Valid() && i < |js| && SyncedTo(js, i, hosts, Listed(), connections.conns.Keys, before)
      requires before <= connections.tables.Keys && MadeFirst(Listed(), connections.conns)
      modifies this`cacheEntries, this`entriesTotal, connections, connections.repr
      ensures Valid() && connections.SameTables() && KeptConns()
      ensures SyncedTo(js, if ok then i + 1 else i, hosts, Listed(), connections.conns.Keys, pairs)
      ensures !ok ==> !VerifiedUpTo(js, |js|)
      ensures entriesTotal - |cacheEntries| == old(entriesTotal - |cacheEntries|)
      ensures pairs <= connections.tables.Keys && MadeFirst(Listed(), connections.conns)
    {
      hide SyncedTo, VerifiedUpTo, AddResult, Connections.Holds, Distinct, Values, MadeFirst, MadeFor;
      hide Entries.Exists, Entries.Insert, Entries.InsertAll, Entries.EntryKeys, Entries.Pairs, Entries.Complete;
      SyncStep(js, i, hosts, Listed(), connections.conns.Keys, before);
      SyncKeys(js, i, hosts, Listed(), connections.conns.Keys, before);
      if !js[i].Verify() {
        return false, before;
      }
      ok := true;
      var r := AddEntry(js[i]);
      AddedPair(old(Listed()), old(connections.conns.Keys), js[i]);
      MadeFirstMore(old(Listed()), old(connections.conns), js[i], connections.conns, hosts);
      pairs := if r.New? then before + {r.pair} else before;
    }

    /** Start from the stored list, whatever is in it: an entry that fails verification ends the start. */
    method SyncFromStored(js: seq<Entry>) returns (ok: bool, pairs: set<Pair>)
      requires Valid() && Listed() == [] && connections.conns == map[]
      modifies this`cacheEntries, this`entriesTotal, connections, connections.repr
      ensures Valid() && connections.SameTables() && KeptConns()
      ensures ok <==> VerifiedUpTo(js, |js|)
      ensures ok ==> Listed() == InsertAll([], js, hosts)
      ensures connections.conns.Keys == EntryKeys(Listed())
      ensures entriesTotal - |cacheEntries| == old(entriesTotal - |cacheEntries|)
      ensures pairs == Pairs(Listed()) && pairs <= connections.tables.Keys && MadeFirst(Listed(), connections.conns)
    {
      hide SyncedTo, VerifiedUpTo, Connections.Holds, Distinct, Values, Entries.InsertAll, Entries.EntryKeys,
           Entries.Pairs, MadeFirst;
      NoneMade(connections.conns);
      pairs, ok := {}, true;
      SyncStart(js, hosts);
      assert connections.conns.Keys == {};
      var i := 0;
      while ok && i < |js|
        invariant i <= |js| && Valid() && connections.SameTables() && KeptConns()
        invariant SyncedTo(js, i, hosts, Listed(), connections.conns.Keys, pairs)
        invariant !ok ==> !VerifiedUpTo(js, |js|)
        invariant entriesTotal - |cacheEntries| == old(entriesTotal - |cacheEntries|)
        invariant pairs <= connections.tables.Keys && MadeFirst(Listed(), connections.conns)
        decreases ok, |js| - i
      {
        ok, pairs := SyncEntry(js, i, pairs);
        if ok {
          i := i + 1;
        }
      }
      SyncEnd(js, i, hosts, Listed(), connections.conns.Keys, pairs);
    }

    /** Start from the user's files, and store what they give. */
    method SyncFromFiles(files: seq<Option<seq<Entry>>>) returns (pairs: set<Pair>)
      requires Agrees() && Listed() == [] && connections.conns == map[]
      requires forall i :: 0 <= i < |files| ==> files[i].Some? ==> Parsed(files[i].value)
      modifies this, connections, connections.repr
      ensures Agrees() && connections.SameTables() && KeptConns()
      ensures Listed() == AfterFiles([], files, hosts) && stored == Stored(Listed())
      ensures pairs == Pairs(Listed()) && pairs <= connections.tables.Keys
    {
      hide Entries.Sound, Entries.EntryKeys, Entries.Stored, Entries.Pairs, NewPairs, AfterFile, AfterFiles, Parsed,
           Connections.Holds, Distinct, Values;
      pairs := {};
      assert files[0..] == files && Pairs([]) == {} by { NoPairs(); }
      for i := 0 to |files|
        invariant Agrees() && connections.SameTables() && KeptConns()
        invariant AfterFiles([], files, hosts) == AfterFiles(Listed(), files[i..], hosts)
        invariant pairs == Pairs(Listed()) && pairs <= connections.tables.Keys
      {
        ghost var es := Listed();
        FilesNext(es, files, i, hosts);
        var more, err := FileAdded(files[i]);
        assert Listed()[..|es|] == es;
        PairsSplit(Listed(), |es|);
        pairs := pairs + more;
      }
      FilesEnd(Listed(), files, hosts);
      CreateReferralsFile();
    }

    /** A start from the list that a sound cache stored regains the agreement. */
    method SyncExact(ghost es: seq<Entry>, ghost before: map<string, string>, js: seq<Entry>)
      returns (ok: bool, pairs: set<Pair>)
      requires Sound(es, before) && js == Stored(es)
      requires Valid() && Listed() == [] && connections.conns == map[] && entriesTotal == 0
      modifies this`cacheEntries, this`entriesTotal, connections, connections.repr
      ensures connections.SameTables() && KeptConns()
      ensures ok <==> VerifiedUpTo(js, |js|)
      ensures ok ==>
        && Agrees() && Listed() == Rehosted(es, hosts)
        && pairs == Pairs(Listed()) && pairs <= connections.tables.Keys
    {
      hide VerifiedUpTo, Connections.Holds, Distinct, Entries.Sound, Entries.EntryKeys, Entries.Pairs,
           Entries.InsertAll, Entries.Stored, Entries.Rehosted;
      hide MadeFirst, Carry;
      RestartExact(es, before, hosts);
      ok, pairs := SyncFromStored(js);
      if ok {
        FirstCarry(Listed(), connections.conns, hosts);
      }
    }
  }

  lemma PairsSplit(es: seq<Entry>, n: nat)
    requires n <= |es|
    ensures Pairs(es) == Pairs(es[..n]) + NewPairs(es, n)
  {
    var (a, b) := (es[..n], es[n..]);
    forall p | p in Pairs(es) ensures p in Pairs(a) + Pairs(b) {
      var i :| 0 <= i < |es| && es[i].PairOf() == p;
      if i < n { assert a[i].PairOf() == p; } else { assert b[i - n].PairOf() == p; }
    }
    forall p | p in Pairs(a) ensures p in Pairs(es) {
      var i :| 0 <= i < |a| && a[i].PairOf() == p;
      assert es[i].PairOf() == p;
    }
    forall p | p in Pairs(b) ensures p in Pairs(es) {
      var i :| 0 <= i < |b| && b[i].PairOf() == p;
      assert es[n + i].PairOf() == p;
    }
  }

  lemma NoPairs()
    ensures Pairs([]) == {}
  {
  }

  lemma FilesEnd(es: seq<Entry>, files: seq<Option<seq<Entry>>>, hosts: map<string, string>)
    ensures AfterFiles(es, files[|files|..], hosts) == es
  {
  }

  lemma FilesNext(es: seq<Entry>, files: seq<Option<seq<Entry>>>, i: nat, hosts: map<string, string>)
    requires i < |files|
    ensures AfterFiles(es, files[i..], hosts) == AfterFiles(AfterFile(es, files[i], hosts), files[i + 1..], hosts)
    ensures es <= AfterFile(es, files[i], hosts)
  {
    assert files[i..][0] == files[i] && files[i..][1..] == files[i + 1..];
    if files[i].Some? { InsertAllAppends(es, MadePersistent(files[i].value), hosts); }
  }

  ghost predicate VerifiedUpTo(js: seq<Entry>, n: nat)
  {
    forall i :: 0 <= i < n && i < |js| ==> js[i].Verify()
  }

  lemma VerifiedMore(js: seq<Entry>, i: nat)
    requires i < |js| && VerifiedUpTo(js, i)
    ensures VerifiedUpTo(js, i + 1) <==> js[i].Verify()
    ensures !js[i].Verify() ==> !VerifiedUpTo(js, |js|)
  {
  }

  /** The first `n` stored entries are verified and added, with their keys and pairs. */
  ghost predicate SyncedTo(js: seq<Entry>, n: nat, hosts: map<string, string>, es: seq<Entry>, keys: set<TKey>,
                           pairs: set<Pair>)
  {
    && n <= |js| && VerifiedUpTo(js, n)
    && InsertAll([], js, hosts) == InsertAll(es, js[n..], hosts)
    && keys == EntryKeys(es) && pairs == Pairs(es)
  }

  lemma SyncStart(js: seq<Entry>, hosts: map<string, string>)
    ensures SyncedTo(js, 0, hosts, [], {}, {})
  {
    assert js[0..] == js;
  }

  lemma SyncStep(js: seq<Entry>, i: nat, hosts: map<string, string>, es: seq<Entry>, keys: set<TKey>, pairs: set<Pair>)
    requires SyncedTo(js, i, hosts, es, keys, pairs) && i < |js|
    ensures !js[i].Verify() ==> !VerifiedUpTo(js, |js|) && keys == EntryKeys(es) && pairs == Pairs(es)
    ensures var (r, e) := (AddResult(es, keys, js[i]), js[i]);
      e.Verify() ==> SyncedTo(js, i + 1, hosts, Insert(es, e, hosts), keys + (if r.New? then {e.Key()} else {}),
                              if r.New? then pairs + {e.PairOf()} else pairs)
  {
    hide Entries.InsertAll, Entries.Insert, AddResult, Entries.EntryKeys, Entries.Pairs;
    VerifiedMore(js, i);
    InsertNext(es, js, i, hosts);
    AddKeys(es, js[i], hosts);
    assert pairs + {} == pairs;
  }

  lemma SyncEnd(js: seq<Entry>, n: nat, hosts: map<string, string>, es: seq<Entry>, keys: set<TKey>, pairs: set<Pair>)
    requires SyncedTo(js, n, hosts, es, keys, pairs)
    ensures keys == EntryKeys(es) && pairs == Pairs(es)
    ensures n == |js| ==> VerifiedUpTo(js, |js|) && InsertAll([], js, hosts) == es
  {
    if n == |js| { assert js[|js|..] == []; }
  }

  lemma SyncKeys(js: seq<Entry>, n: nat, hosts: map<string, string>, es: seq<Entry>, keys: set<TKey>, pairs: set<Pair>)
    requires SyncedTo(js, n, hosts, es, keys, pairs)
    ensures keys == EntryKeys(es)
  {
  }

  lemma NoneMade(conns: map<TKey, Connection>)
    ensures MadeFirst([], conns)
  {
  }

  lemma AddedPair(es: seq<Entry>, keys: set<TKey>, e: Entry)
    ensures AddResult(es, keys, e).New? ==> AddResult(es, keys, e).pair == e.PairOf()
  {
  }

  /** In a sound list, adding makes a connection exactly when the entry is new. */
  lemma AddsIff(es: seq<Entry>, e: Entry, hosts: map<string, string>)
    requires Sound(es, hosts) && Insertable(e)
    ensures AddResult(es, EntryKeys(es), e) == if Exists(e, es) then Present else New(e.PairOf())
  {
    ExistsIffKey(e, es);
  }

  lemma InsertPairs(es: seq<Entry>, e: Entry, hosts: map<string, string>, n: nat)
    requires n <= |es|
    ensures es <= Insert(es, e, hosts)
    ensures NewPairs(Insert(es, e, hosts), n)
         == if Exists(e, es) then NewPairs(es, n) else NewPairs(es, n) + {e.PairOf()}
  {
    if !Exists(e, es) {
      var es' := Insert(es, e, hosts);
      assert es'[n..] == es[n..] + [es'[|es|]];
      var a, b := es[n..], es'[n..];
      forall p | p in Pairs(a) ensures p in Pairs(b) {
        var i :| 0 <= i < |a| && a[i].PairOf() == p;
        assert b[i] == a[i];
      }
      assert b[|a|].PairOf() == e.PairOf();
    }
  }

  /** The list without some of its pointers. */
  function Drop(es: seq<CachedEntry>, gone: set<CachedEntry>): seq<CachedEntry>
  {
    if es == [] then []
    else Drop(es[..|es| - 1], gone) + (if es[|es| - 1] in gone then [] else [es[|es| - 1]])
  }

  lemma {:induction false} DropNone(es: seq<CachedEntry>, gone: set<CachedEntry>)
    requires forall x :: x in es ==> x !in gone
    ensures Drop(es, gone) == es
  {
    if es == [] {
    } else {
      DropNone(es[..|es| - 1], gone);
    }
  }

  lemma {:induction false} DropAppend(a: seq<CachedEntry>, b: seq<CachedEntry>, gone: set<CachedEntry>)
    ensures Drop(a + b, gone) == Drop(a, gone) + Drop(b, gone)
    decreases |b|
  {
    if b == [] {
      assert a + b == a;
    } else {
      DropAppend(a, b[..|b| - 1], gone);
      assert (a + b)[..|a + b| - 1] == a + b[..|b| - 1];
    }
  }

  lemma {:induction false} DropTwice(es: seq<CachedEntry>, a: set<CachedEntry>, b: set<CachedEntry>)
    ensures Drop(Drop(es, a), b) == Drop(es, a + b)
  {
    if es == [] {
    } else {
      var x := es[|es| - 1];
      DropTwice(es[..|es| - 1], a, b);
      DropAppend(Drop(es[..|es| - 1], a), if x in a then [] else [x], b);
      assert Drop([x], b) == if x in b then [] else [x] by { assert [x][..0] == []; }
    }
  }

  lemma {:induction false} DropDistinct(es: seq<CachedEntry>, gone: set<CachedEntry>)
    requires Distinct(es)
    ensures Distinct(Drop(es, gone))
    ensures forall x :: x in Drop(es, gone) <==> x in es && x !in gone
  {
    if es == [] {
    } else {
      DropDistinct(es[..|es| - 1], gone);
      assert es == es[..|es| - 1] + [es[|es| - 1]];
      var rest := Drop(es[..|es| - 1], gone);
      forall i | 0 <= i < |rest| ensures rest[i] != es[|es| - 1] {
        assert rest[i] in rest;
      }
    }
  }

  lemma DropMiddle(a: seq<CachedEntry>, x: CachedEntry, b: seq<CachedEntry>)
    requires x !in a && x !in b
    ensures Drop(a + [x] + b, {x}) == a + b
  {
    hide Drop;
    DropAppend(a + [x], b, {x});
    DropAppend(a, [x], {x});
    DropNone(a, {x});
    DropNone(b, {x});
    DropIt(x);
  }

  /** Cutting out the only occurrence is dropping the pointer. */
  lemma DropAt(es: seq<CachedEntry>, i: nat, x: CachedEntry)
    requires i < |es| && es[i] == x && x !in es[..i] && x !in es[i + 1..]
    ensures Drop(es, {x}) == es[..i] + es[i + 1..]
  {
    hide Drop;
    DropMiddle(es[..i], x, es[i + 1..]);
    assert es == es[..i] + [x] + es[i + 1..];
  }

  lemma DropIt(x: CachedEntry)
    ensures Drop([x], {x}) == []
  {
    assert [x][..0] == [];
  }

  /** Dropping the pointers whose entries fail a test filters the entries. */
  lemma {:induction false} DropFilters(es: seq<CachedEntry>, gone: set<CachedEntry>, keep: Entry -> bool)
    requires forall x :: x in es ==> (x in gone <==> !keep(x.v))
    ensures Values(Drop(es, gone)) == Filter(Values(es), keep)
  {
    if es == [] {
    } else {
      DropFilters(es[..|es| - 1], gone, keep);
      assert Values(es)[..|es| - 1] == Values(es[..|es| - 1]);
    }
  }

  ghost function PtrSet(es: seq<CachedEntry>): set<CachedEntry>
  {
    set x | x in es
  }

  lemma PtrSnoc(es: seq<CachedEntry>, i: nat)
    requires i < |es| && Distinct(es)
    ensures PtrSet(es[..i + 1]) == PtrSet(es[..i]) + {es[i]} && es[i] !in PtrSet(es[..i])
    ensures EntryKeys(Values(es[..i + 1])) == EntryKeys(Values(es[..i])) + {es[i].v.Key()}
    ensures Pairs(Values(es[..i + 1])) == Pairs(Values(es[..i])) + {es[i].v.PairOf()}
  {
    assert es[..i + 1] == es[..i] + [es[i]];
    var vs, vs' := Values(es[..i]), Values(es[..i + 1]);
    assert vs' == vs + [es[i].v];
    KeysAppend(vs, es[i].v);
    assert vs'[i].PairOf() in Pairs(vs');
    forall p | p in Pairs(vs) ensures p in Pairs(vs') {
      var j :| 0 <= j < |vs| && vs[j].PairOf() == p;
      assert vs'[j] == vs[j];
    }
  }

  /** List, connections and reported pairs once the entries `rem` are deleted. */
  ghost predicate Deleted(es0: seq<CachedEntry>, conns0: map<TKey, Connection>, rem: seq<CachedEntry>,
                          es: seq<CachedEntry>, conns: map<TKey, Connection>, pairs: set<Pair>)
  {
    && es == Drop(es0, PtrSet(rem))
    && conns == conns0 - EntryKeys(Values(rem))
    && pairs == NonEmpty(Pairs(Values(rem)))
  }

  lemma DeletedStep(es0: seq<CachedEntry>, conns0: map<TKey, Connection>, rem: seq<CachedEntry>, i: nat,
                    es: seq<CachedEntry>, conns: map<TKey, Connection>, pairs: set<Pair>)
    requires i < |rem| && Distinct(rem) && Distinct(es0) && PtrSet(rem) <= PtrSet(es0)
    requires Deleted(es0, conns0, rem[..i], es, conns, pairs)
    ensures rem[i] in es
    ensures Deleted(es0, conns0, rem[..i + 1], Drop(es, {rem[i]}), conns - {rem[i].v.Key()},
                    pairs + NonEmpty({rem[i].v.PairOf()}))
  {
    hide Drop, Values, Entries.EntryKeys, Entries.Pairs;
    PtrSnoc(rem, i);
    assert rem[i] in PtrSet(rem);
    DropDistinct(es0, PtrSet(rem[..i]));
    DropTwice(es0, PtrSet(rem[..i]), {rem[i]});
  }

  lemma RemovedHasKey(es: seq<Entry>, refs: seq<Entry>, p: Pair)
    requires refs != [] && p in Removed(es, refs)
    ensures exists k :: k in EntryKeys(es) && KeyPair(k) == p
  {
    var i :| 0 <= i < |es| && es[i].PairOf() == p;
    var e := es[i];
    assert e.PairOf() == p;
    assert KeyPair(e.Key()) == e.PairOf();
    assert e.Key() in EntryKeys(es);
  }

  /** The pairs of the referrals must agree; the last one is used. */
  method CheckPairs(refs: seq<Entry>) returns (err: bool, pair: Pair)
    requires refs != []
    ensures err <==> Mixed(refs)
    ensures !err ==> pair == refs[|refs| - 1].PairOf()
  {
    var prev := Pair("", "");
    for i := 0 to |refs|
      invariant prev == if i == 0 then Pair("", "") else refs[i - 1].PairOf()
      invariant forall j :: 0 < j < i ==> refs[j - 1].PairOf().IsEmpty() || refs[j - 1].PairOf() == refs[j].PairOf()
    {
      var current := refs[i].PairOf();
      if !prev.IsEmpty() && prev != current {
        return true, current;
      }
      prev := current;
    }
    return false, prev;
  }

  datatype ReferralKey = ReferralKey(ip: string, port: int, subNqn: string, hostnqn: string)

  function RefEntry(k: ReferralKey, r: ReferralEntry): Entry
  {
    FromReferral(r, Pair(k.subNqn, k.hostnqn))
  }

  /** Entries, error and changed pairs of a reconciliation. */
  ghost predicate Reconciled(before: seq<Entry>, adding: seq<Entry>, removing: seq<Entry>, hosts: map<string, string>,
                             after: seq<Entry>, err: bool, changed: set<Pair>)
  {
    && removing != [] && err == Mixed(removing)
    && after == Reconcile(before, adding, removing, hosts)
    && changed == Reported(before, adding, removing, hosts)
  }

  ghost predicate AllInsertable(es: seq<Entry>)
  {
    forall i :: 0 <= i < |es| ==> Insertable(es[i])
  }

  /** Some order of the referrals as entries. */
  ghost predicate Lists(es: seq<Entry>, refs: map<ReferralKey, ReferralEntry>)
  {
    && es != [] && AllInsertable(es)
    && (forall e :: e in es <==> exists k :: k in refs && e == RefEntry(k, refs[k]))
  }

  /** Ranging over the referral map, in whatever order. */
  method RefEntries(refs: map<ReferralKey, ReferralEntry>) returns (es: seq<Entry>)
    requires refs != map[]
    ensures Lists(es, refs)
  {
    es := [];
    var left := refs.Keys;
    while left != {}
      invariant left <= refs.Keys
      invariant left == refs.Keys ==> es == []
      invariant left != refs.Keys ==> es != []
      invariant forall i :: 0 <= i < |es| ==> Insertable(es[i])
      invariant forall e :: e in es <==> exists k :: k in refs && k !in left && e == RefEntry(k, refs[k])
      decreases left
    {
      var k :| k in left;
      es := es + [RefEntry(k, refs[k])];
      left := left - {k};
    }
  }

  /** With unique keys, the keys that remain are those of the remaining entries. */
  lemma UniqueRemaining(vs: seq<Entry>, rs: seq<Entry>, keep: Entry -> bool)
    requires UniqueKeys(vs) && forall e :: e in rs <==> e in vs && !keep(e)
    ensures EntryKeys(Filter(vs, keep)) == EntryKeys(vs) - EntryKeys(rs)
  {
    FilterKeys(vs, keep);
    hide Referrals.Filter;
    forall k ensures k in EntryKeys(Filter(vs, keep)) <==> k in EntryKeys(vs) && k !in EntryKeys(rs) {
      if i :| 0 <= i < |vs| && vs[i].Key() == k {
        OnlyWithKey(vs, i);
        assert vs[i] in vs;
        if keep(vs[i]) {
          if j :| 0 <= j < |rs| && rs[j].Key() == k { assert rs[j] in rs; }
        } else {
          KeyIn(vs[i], rs);
        }
      } else {
        forall e | e in vs ensures e.Key() != k { KeyIn(e, vs); }
      }
    }
  }

  lemma OnlyWithKey(vs: seq<Entry>, i: nat)
    requires UniqueKeys(vs) && i < |vs|
    ensures forall e :: e in vs && e.Key() == vs[i].Key() ==> e == vs[i]
  {
    forall e | e in vs && e.Key() == vs[i].Key() ensures e == vs[i] {
      var j :| 0 <= j < |vs| && vs[j] == e;
    }
  }

  lemma RemainingKeys(es: seq<CachedEntry>, rem: seq<CachedEntry>, keep: Entry -> bool)
    requires UniqueKeys(Values(es)) && forall x :: x in rem <==> x in es && !keep(x.v)
    ensures EntryKeys(Filter(Values(es), keep)) == EntryKeys(Values(es)) - EntryKeys(Values(rem))
  {
    var vs, rs := Values(es), Values(rem);
    forall e ensures e in rs <==> e in vs && !keep(e) {
      if j :| 0 <= j < |rs| && rs[j] == e {
        assert rem[j] in rem;
        var i :| 0 <= i < |es| && es[i] == rem[j];
        assert vs[i] == e;
      }
      if e in vs && !keep(e) {
        var i :| 0 <= i < |vs| && vs[i] == e;
        assert es[i] in rem;
        var j :| 0 <= j < |rem| && rem[j] == es[i];
        assert rs[j] == e;
      }
    }
    UniqueRemaining(vs, rs, keep);
  }

  lemma RemovedPairs(es: seq<CachedEntry>, rem: seq<CachedEntry>, refs: seq<Entry>)
    requires refs != [] && !Mixed(refs)
    requires forall x :: x in rem <==> x in es && !Kept(refs, refs[|refs| - 1].PairOf())(x.v)
    ensures Pairs(Values(rem)) == Removed(Values(es), refs)
  {
    var keep := Kept(refs, refs[|refs| - 1].PairOf());
    var vs, rs := Values(es), Values(rem);
    forall p | p in Pairs(rs) ensures p in Removed(vs, refs) {
      var j :| 0 <= j < |rs| && rs[j].PairOf() == p;
      assert rem[j] in rem;
      var i :| 0 <= i < |es| && es[i] == rem[j];
      assert !keep(vs[i]);
    }
    forall p | p in Removed(vs, refs) ensures p in Pairs(rs) {
      var i :| 0 <= i < |vs| && !keep(vs[i]) && vs[i].PairOf() == p;
      assert es[i] in rem;
      var j :| 0 <= j < |rem| && rem[j] == es[i];
      assert rs[j].PairOf() == p;
    }
  }

  lemma InsertNext(es: seq<Entry>, js: seq<Entry>, i: nat, hosts: map<string, string>)
    requires i < |js|
    ensures InsertAll(es, js[i..], hosts) == InsertAll(Insert(es, js[i], hosts), js[i + 1..], hosts)
  {
    assert js[i..][0] == js[i] && js[i..][1..] == js[i + 1..];
  }

  /** Where the connections have the keys of the entries, adding keeps it so, even on a mismatch. */
  lemma AddKeys(es: seq<Entry>, e: Entry, hosts: map<string, string>)
    ensures EntryKeys(Insert(es, e, hosts))
         == EntryKeys(es) + (if AddResult(es, EntryKeys(es), e).New? then {e.Key()} else {})
    ensures Pairs(Insert(es, e, hosts))
         == Pairs(es) + (if AddResult(es, EntryKeys(es), e).New? then {e.PairOf()} else {})
  {
    var e' := Complete(es, e, hosts);
    KeysAppend(es, e');
    PairsAppend(es, e');
    if i :| 0 <= i < |es| && e.Same(es[i]) {
      assert es[i].Key() == e.Key();
    }
    if e.Key() in EntryKeys(es) {
      var i :| 0 <= i < |es| && es[i].Key() == e.Key();
      assert es[i].PairOf() == e.PairOf() && es[i].PairOf() in Pairs(es);
    }
  }
}
