// What each step of the client changes: which connections there are, which are stopped, and which pairs are notified.

module ClientChanges {
  import opened Entries
  import opened Wrappers
  import opened ConnMaps
  import opened Referrals
  import opened ClientSystem

  // Which connections there are after each step, by their five fields.

  /** Some entry of a file is for this key. */
  ghost predicate Listed(es: seq<Entry>, k: TKey)
  {
    exists i :: 0 <= i < |es| && k == TKey(es[i].transport, es[i].traddr, es[i].trsvcid, es[i].subsysnqn, es[i].hostnqn)
  }

  /** The discovery over a connection with key `from` refers to this key: over TCP, to an address and port of the log
      page, or to the server itself on port 8009. */
  ghost predicate ReferredTo(refs: seq<ReferralEntry>, from: TKey, k: TKey)
  {
    && k.transport == "tcp" && k.nqn == from.nqn && k.hostnqn == from.hostnqn
    && (|| (k.ip == from.ip && k.port == 8009)
        || exists i :: 0 <= i < |refs| && refs[i].traddr == k.ip && refs[i].trsvcid == k.port)
  }

  ghost predicate KeyAfter<C>(s: State<C>, ev: Event<C>, k: TKey)
  {
    match ev
    case File(parsed) => k in s.conns || (parsed.Some? && Listed(parsed.value, k))
    case Aen(conn, refs, _, _) =>
      && conn in s.made
      && var from := s.made[conn];
      if k.nqn == from.nqn && k.hostnqn == from.hostnqn then ReferredTo(refs, from, k) else k in s.conns
    case Restart(useStored, files, _) =>
      if useStored then k in s.conns else exists i :: 0 <= i < |files| && files[i].Some? && Listed(files[i].value, k)
    case _ => k in s.conns
  }

  lemma ListedIs(es: seq<Entry>, k: TKey)
    ensures k in EntryKeys(MadePersistent(es)) <==> Listed(es, k)
  {
    var ps := MadePersistent(es);
    assert forall i :: 0 <= i < |es| ==>
      ps[i].Key() == TKey(es[i].transport, es[i].traddr, es[i].trsvcid, es[i].subsysnqn, es[i].hostnqn);
    if k in EntryKeys(ps) { var i :| 0 <= i < |ps| && ps[i].Key() == k; }
    if Listed(es, k) {
      var i :| 0 <= i < |es| && k == TKey(es[i].transport, es[i].traddr, es[i].trsvcid, es[i].subsysnqn, es[i].hostnqn);
      assert ps[i].Key() == k;
    }
  }

  lemma FileKeysAre(es: seq<Entry>, parsed: Option<seq<Entry>>, hosts: map<string, string>, k: TKey)
    requires Sound(es, hosts) && (parsed.Some? ==> Parsed(parsed.value))
    ensures k in EntryKeys(AfterFile(es, parsed, hosts))
      <==> k in EntryKeys(es) || (parsed.Some? && Listed(parsed.value, k))
  {
    if parsed.Some? {
      var more := MadePersistent(parsed.value);
      assert forall i :: 0 <= i < |more| ==> Insertable(more[i]);
      InsertAllSound(es, more, hosts);
      ListedIs(parsed.value, k);
    }
  }

  lemma {:induction false} FilesKeysAre(es: seq<Entry>, files: seq<Option<seq<Entry>>>, hosts: map<string, string>,
                                        k: TKey)
    requires Sound(es, hosts)
    requires forall i :: 0 <= i < |files| ==> files[i].Some? ==> Parsed(files[i].value)
    ensures k in EntryKeys(AfterFiles(es, files, hosts)) <==>
      k in EntryKeys(es) || exists i :: 0 <= i < |files| && files[i].Some? && Listed(files[i].value, k)
    decreases |files|
  {
    hide Entries.Sound, Entries.EntryKeys, AfterFile, Parsed, Listed;
    if files == [] {
    } else {
      var (f, rest) := (files[0], files[1..]);
      FileKeysAre(es, f, hosts, k);
      FileSound(es, f, hosts);
      FilesKeysAre(AfterFile(es, f, hosts), rest, hosts, k);
      if i :| 0 <= i < |rest| && rest[i].Some? && Listed(rest[i].value, k) { assert files[i + 1] == rest[i]; }
      if i :| 0 <= i < |files| && files[i].Some? && Listed(files[i].value, k) {
        assert i > 0 ==> rest[i - 1] == files[i];
      }
    }
  }

  lemma ReferredIs(refs: seq<ReferralEntry>, from: TKey, k: TKey)
    ensures k in EntryKeys(WithSelf(refs, from)) <==> ReferredTo(refs, from, k)
  {
    var all := WithSelf(refs, from);
    assert forall i :: 0 <= i < |refs| ==>
      all[i].Key() == TKey("tcp", refs[i].traddr, refs[i].trsvcid, from.nqn, from.hostnqn);
    assert all[|refs|].Key() == TKey("tcp", from.ip, 8009, from.nqn, from.hostnqn);
    if k in EntryKeys(all) { var i :| 0 <= i < |all| && all[i].Key() == k; }
    if ReferredTo(refs, from, k) && !(k.ip == from.ip && k.port == 8009) {
      var i :| 0 <= i < |refs| && refs[i].traddr == k.ip && refs[i].trsvcid == k.port;
      assert all[i].Key() == k;
    }
  }

  lemma AenKeys<C>(s: State<C>, ev: Event<C>, s': State<C>, k: TKey)
    requires Inv(s) && ev.Aen? && Next(s, ev, s')
    ensures k in s'.conns <==> KeyAfter(s, ev, k)
  {
    hide Entries.Sound, Entries.EntryKeys, Entries.Stored, Reconcile, Reported, OfPair, WithSelf, Converging, Placed,
         StopsOk, NoneStopped, ReferredTo;
    ReferredIs(ev.refs, s.made[ev.conn], k);
    ReconcileKeys(s.entries, ev.adding, ev.removing, KeyPair(s.made[ev.conn]), s.hosts);
  }

  /** After every step of every run, whether there is a connection for a key is what the step says about the key's
      fields. */
  lemma KeysOverRuns<C>(states: seq<State<C>>, events: seq<Event<C>>, n: nat, k: TKey)
    requires Run(states, events) && n < |events|
    ensures k in states[n + 1].conns <==> KeyAfter(states[n], events[n], k)
  {
    hide Next, Inv, KeyAfter;
    RunInv(states, events, n);
    KeysStep(states[n], events[n], states[n + 1], k);
  }

  lemma KeysStep<C>(s: State<C>, ev: Event<C>, s': State<C>, k: TKey)
    requires Inv(s) && Next(s, ev, s')
    ensures k in s'.conns <==> KeyAfter(s, ev, k)
  {
    match ev {
      case Aen(_, _, _, _) => AenKeys(s, ev, s', k);
      case File(parsed) => FileKeysStep(s, ev, s', k);
      case Restart(_, _, _) => RestartKeys(s, ev, s', k);
      case _ => OtherKeys(s, ev, s', k);
    }
  }

  lemma FileKeysStep<C>(s: State<C>, ev: Event<C>, s': State<C>, k: TKey)
    requires Inv(s) && ev.File? && Next(s, ev, s')
    ensures k in s'.conns <==> KeyAfter(s, ev, k)
  {
    hide Entries.Sound, Entries.EntryKeys, Entries.Stored, AfterFile, NewPairs, Parsed, Listed, Converging, Placed,
         StopsOk, NoneStopped;
    FileKeysAre(s.entries, ev.parsed, s.hosts, k);
  }

  lemma RestartKeys<C>(s: State<C>, ev: Event<C>, s': State<C>, k: TKey)
    requires Inv(s) && ev.Restart? && Next(s, ev, s')
    ensures k in s'.conns <==> KeyAfter(s, ev, k)
  {
    hide Entries.Sound, Entries.EntryKeys, Entries.Stored, AfterFiles, Entries.InsertAll, Parsed, Listed, Converging,
         Placed, StopsOk, NoneStopped, Entries.Rehosted, Entries.Pairs, AfterFile, Reconcile, Reported, OfPair,
         SameKeys, WithSelf, NewPairs, Notify, Counted, Synced, Stale;
    RestartEntries(s, ev, s');
    if !ev.useStored {
      SoundEmpty(ev.hosts);
      FilesKeysAre([], ev.files, ev.hosts, k);
      NoKeysYet(k);
    }
  }

  lemma NoKeysYet(k: TKey)
    ensures k !in EntryKeys([])
  {
  }

  lemma OtherKeys<C>(s: State<C>, ev: Event<C>, s': State<C>, k: TKey)
    requires Next(s, ev, s') && (ev.Live? || ev.Deliver? || ev.Stop?)
    ensures k in s'.conns <==> KeyAfter(s, ev, k)
  {
    hide Synced, Stale, Reconcile, Reported, OfPair, SameKeys, WithSelf, AfterFile, AfterFiles, Entries.InsertAll,
         Entries.Stored, Parsed, Entries.Pairs, NewPairs, Entries.EntryKeys, Notify, Counted, Allocated, Listed,
         ReferredTo;
  }

  // What is stopped and what is notified, in every run.

  /** In every run a step stops exactly the connections that the service held before it and does not hold after it. */
  lemma StoppedIffDropped<C>(states: seq<State<C>>, events: seq<Event<C>>, n: nat, c: C)
    requires Run(states, events) && n < |events| && !events[n].Restart?
    ensures c in states[n + 1].stops <==>
      c in states[n].stops || (c in states[n].svc.Values && c !in states[n + 1].svc.Values)
  {
    hide Next, Inv;
    RunInv(states, events, n);
    DroppedStep(states[n], events[n], states[n + 1], c);
  }

  lemma DroppedStep<C>(s: State<C>, ev: Event<C>, s': State<C>, c: C)
    requires Inv(s) && Next(s, ev, s') && !ev.Restart?
    ensures c in s'.stops <==> c in s.stops || (c in s.svc.Values && c !in s'.svc.Values)
  {
    hide Reconcile, Reported, OfPair, SameKeys, WithSelf, AfterFile, AfterFiles, InsertAll, Stored, Parsed, Pairs,
         NewPairs, EntryKeys, Notify, Counted, Allocated, Synced, Stale, Converging, StopsOk, NoneStopped,
         Entries.Sound;
    StopsMore(s, ev, s');
    if ev.Deliver? { StaleIsDropped(s.svc, s.conns, s.made, s.pending[ev.i], c); }
  }

  lemma StaleIsDropped<C>(svc: map<TKey, C>, conns: map<TKey, C>, made: map<C, TKey>, pairs: set<Pair>, c: C)
    requires Placed(svc, made) && Placed(conns, made)
    ensures c in Stale(svc, conns, pairs) <==> c in svc.Values && c !in Synced(svc, conns, pairs).Values
  {
    var after := Synced(svc, conns, pairs);
    forall k, k' | k in svc && k' in conns && svc[k] == conns[k'] ensures k == k' {
      assert made[svc[k]] == k && made[conns[k']] == k';
    }
    if c in svc.Values {
      var k :| k in svc && svc[k] == c;
      forall k2 | k2 in svc && svc[k2] == c ensures k2 == k { assert made[svc[k2]] == k2; }
      assert c in after.Values <==> k in after && after[k] == c by {
        if c in after.Values {
          var k3 :| k3 in after && after[k3] == c;
          assert made[c] == k3;
        }
      }
      assert c in Stale(svc, conns, pairs) <==> KeyPair(k) in pairs && !(k in conns && conns[k] == c) by {
        if KeyPair(k) in pairs && !(k in conns && conns[k] == c) {
          assert !(exists k' :: k' in conns && KeyPair(k') == KeyPair(k) && conns[k'] == svc[k]);
        }
      }
    }
  }

  /** The pairs with a connection that was not there before. */
  ghost predicate Gained<C>(before: map<TKey, C>, after: map<TKey, C>, p: Pair)
  {
    exists k :: k in after && k !in before && k.nqn == p.clusterNqn && k.hostnqn == p.hostNqn
  }

  ghost predicate Lost<C>(before: map<TKey, C>, after: map<TKey, C>, p: Pair)
  {
    exists k :: k in before && k !in after && k.nqn == p.clusterNqn && k.hostnqn == p.hostNqn
  }

  /** One notification more, which names exactly these pairs; or none if there are none. */
  ghost predicate Notifies(before: seq<set<Pair>>, after: seq<set<Pair>>, pairs: set<Pair>)
  {
    if pairs == {} then after == before else after == before + [pairs]
  }

  /** What a file notifies: the pairs that gained a connection. */
  lemma FileNotifies<C>(s: State<C>, ev: Event<C>, s': State<C>, p: Pair)
    requires Inv(s) && ev.File? && Next(s, ev, s')
    ensures Notifies(s.pending, s'.pending, Told(s, ev, s'))
    ensures p in Told(s, ev, s') <==> Changes(false, s.conns, s'.conns, p)
  {
    hide AfterFile, Parsed, Entries.Stored, Entries.EntryKeys, Entries.Sound, NewPairs, Converging, Placed, StopsOk,
         NoneStopped, Allocated, Gained;
    FileSound(s.entries, ev.parsed, s.hosts);
    AllocatedKeys(s.conns, s.made, EntryKeys(s'.entries), s'.conns, s'.made);
    NewPairsIff(s.entries, s'.entries, s.hosts, p);
    GainedIff(s.conns, s'.conns, p);
  }

  lemma GainedIff<C>(before: map<TKey, C>, after: map<TKey, C>, p: Pair)
    ensures Gained(before, after, p) <==> exists k :: k in after.Keys && k !in before.Keys && KeyPair(k) == p
  {
    if k :| k in after.Keys && k !in before.Keys && KeyPair(k) == p { assert k in after && k !in before; }
  }

  lemma AllocatedKeys<C>(conns: map<TKey, C>, made: map<C, TKey>, keys: set<TKey>, conns': map<TKey, C>,
                         made': map<C, TKey>)
    requires Allocated(conns, made, keys, conns', made')
    ensures conns'.Keys == keys
  {
  }

  lemma NewPairsIff(es: seq<Entry>, es': seq<Entry>, hosts: map<string, string>, p: Pair)
    requires es <= es' && Sound(es', hosts)
    ensures p in NewPairs(es', |es|) <==> exists k :: k in EntryKeys(es') && k !in EntryKeys(es) && KeyPair(k) == p
  {
    NewKeyPairs(es, es');
    assert UniqueKeys(es');
    hide Entries.AllPersistent, Entries.Settled, Entries.HostIdsFrom, Entries.WellSourced, Entries.Sound;
    if p in NewPairs(es', |es|) {
      var tail := es'[|es|..];
      var i :| 0 <= i < |tail| && tail[i].PairOf() == p;
      var k := es'[|es| + i].Key();
      forall j | 0 <= j < |es| ensures es[j].Key() != k {
        assert es[j] == es'[j];
      }
      assert k in EntryKeys(es') && k !in EntryKeys(es) && KeyPair(k) == p;
    }
  }

  /** In every run a file that appears notifies exactly the pairs that gained a connection, and the referrals of a
      discovery their own pair, exactly if it gained or lost one. */
  lemma NotifiedOverRuns<C>(states: seq<State<C>>, events: seq<Event<C>>, n: nat)
    requires Run(states, events) && n < |events| && (events[n].File? || events[n].Aen?)
    ensures TellsChanged(states[n], events[n], states[n + 1])
  {
    hide Next, Inv, Notifies, Changes;
    RunInv(states, events, n);
    var (s, ev, s') := (states[n], events[n], states[n + 1]);
    var pairs := Told(s, ev, s');
    forall p ensures p in pairs <==> Changes(ev.Aen?, s.conns, s'.conns, p) {
      if ev.File? { FileNotifies(s, ev, s', p); } else { AenNotifies(s, ev, s', p); }
    }
    if ev.File? { FileNotifies(s, ev, s', Pair("", "")); } else { AenNotifies(s, ev, s', Pair("", "")); }
    assert TellsExactly(s, ev, s', pairs);
  }

  /** A step notifies exactly the pairs whose connections it changed. */
  ghost predicate TellsChanged<C>(s: State<C>, ev: Event<C>, s': State<C>)
  {
    exists pairs :: TellsExactly(s, ev, s', pairs)
  }

  /** A step notifies these pairs, and they are exactly those whose connections changed. */
  ghost predicate TellsExactly<C>(s: State<C>, ev: Event<C>, s': State<C>, pairs: set<Pair>)
  {
    && Notifies(s.pending, s'.pending, pairs)
    && forall p :: p in pairs <==> Changes(ev.Aen?, s.conns, s'.conns, p)
  }

  /** A pair gained a connection, or lost one if it can. */
  ghost predicate Changes<C>(losing: bool, before: map<TKey, C>, after: map<TKey, C>, p: Pair)
  {
    Gained(before, after, p) || (losing && Lost(before, after, p))
  }

  ghost function Told<C>(s: State<C>, ev: Event<C>, s': State<C>): set<Pair>
    requires (ev.File? || ev.Aen?) && Next(s, ev, s')
  {
    if ev.File? then NewPairs(s'.entries, |s.entries|)
    else
      NonEmptyReferrals(s, ev, s');
      Reported(s.entries, ev.adding, ev.removing, s.hosts)
  }

  lemma AenNotifies<C>(s: State<C>, ev: Event<C>, s': State<C>, p: Pair)
    requires Inv(s) && ev.Aen? && Next(s, ev, s')
    ensures Notifies(s.pending, s'.pending, Told(s, ev, s'))
    ensures p in Told(s, ev, s') <==> Changes(true, s.conns, s'.conns, p)
  {
    hide Entries.Sound, Entries.EntryKeys, Entries.Stored, Reconcile, Reported, OfPair, WithSelf, Converging, Placed,
         StopsOk, NoneStopped, SameKeys, Gained, Lost, Allocated;
    NonEmptyReferrals(s, ev, s');
    var (pair, es, es') := (KeyPair(s.made[ev.conn]), s.entries, s'.entries);
    assert es' == Reconcile(es, ev.adding, ev.removing, s.hosts);
    AllocatedKeys(s.conns, s.made, EntryKeys(es'), s'.conns, s'.made);
    ReportedIffChanged(es, ev.adding, ev.removing, pair, s.hosts);
    ReconcileKeys(es, ev.adding, ev.removing, pair, s.hosts);
    ChangedIff(s.conns, s'.conns, pair, p);
  }

  lemma NonEmptyReferrals<C>(s: State<C>, ev: Event<C>, s': State<C>)
    requires ev.Aen? && Next(s, ev, s')
    ensures ev.removing != []
  {
    hide Reconcile, Reported, SameKeys, WithSelf, Allocated, Entries.EntryKeys, Entries.Stored, Notify, Counted;
  }

  lemma ChangedIff<C>(before: map<TKey, C>, after: map<TKey, C>, pair: Pair, p: Pair)
    requires forall k :: KeyPair(k) != pair ==> (k in after <==> k in before)
    ensures (Gained(before, after, p) || Lost(before, after, p)) <==> p == pair && before.Keys != after.Keys
  {
    if Gained(before, after, p) {
      var k :| k in after && k !in before && k.nqn == p.clusterNqn && k.hostnqn == p.hostNqn;
      assert KeyPair(k) == p;
    }
    if Lost(before, after, p) {
      var k :| k in before && k !in after && k.nqn == p.clusterNqn && k.hostnqn == p.hostNqn;
      assert KeyPair(k) == p;
    }
    if p == pair && before.Keys != after.Keys {
      var k :| (k in before.Keys) != (k in after.Keys);
      assert KeyPair(k) == pair;
    }
  }
}
