// The running client as a state machine: the cache, its stored list, the service's mirror of the
// connections, and the notifications in between. Every handler is one step.

module ClientSystem {
  import opened Entries
  import opened Wrappers
  import opened ConnMaps
  import opened Referrals

  /** A connection `C` stands for its pointer; `made` remembers for which key it was allocated, `stops` how
      often it was stopped, `watched` those whose events are listened to, and `total` is the entry count that
      the program reports. */
  datatype State<!C> = State(
    hosts: map<string, string>,
    entries: seq<Entry>,
    conns: map<TKey, C>,
    stored: seq<Entry>,
    svc: map<TKey, C>,
    active: map<Pair, C>,
    watched: set<C>,
    stops: multiset<C>,
    made: map<C, TKey>,
    pending: seq<set<Pair>>,
    running: bool,
    total: int)

  datatype Event<!C> =
    | File(parsed: Option<seq<Entry>>)
    | Aen(conn: C, refs: seq<ReferralEntry>, adding: seq<Entry>, removing: seq<Entry>)
    | Live(conn: C)
    | Deliver(i: nat)
    | Stop
    | Restart(useStored: bool, files: seq<Option<seq<Entry>>>, hosts: map<string, string>)

  function Notify(pending: seq<set<Pair>>, pairs: set<Pair>): seq<set<Pair>>
  {
    if pairs == {} then pending else pending + [pairs]
  }

  /** Connections for exactly the keys: kept where there was one, newly allocated otherwise. */
  ghost predicate Allocated<C>(conns: map<TKey, C>, made: map<C, TKey>, keys: set<TKey>,
                            conns': map<TKey, C>, made': map<C, TKey>)
  {
    && conns'.Keys == keys
    && (forall k :: k in conns' && k in conns ==> conns'[k] == conns[k])
    && (forall k :: k in conns' && k !in conns ==> conns'[k] !in made && conns'[k] in made' && made'[conns'[k]] == k)
    && (forall c :: c in made ==> c in made' && made'[c] == made[c])
  }

  /** The count goes up and down with every entry. */
  ghost function Counted<C>(s: State<C>, entries: seq<Entry>): int
  {
    s.total + |entries| - |s.entries|
  }

  /** Named pairs whose connections changed and that have no active connection are connected anew. */
  ghost predicate Reconnects<C>(s: State<C>, i: nat, p: Pair)
    requires i < |s.pending|
  {
    p in s.pending[i] && !SamePair(s.svc, s.conns, p) && p !in s.active
  }

  ghost predicate Next<C>(s: State<C>, ev: Event<C>, s': State<C>)
  {
    match ev
    case File(parsed) =>
      && s.running && (parsed.Some? ==> Parsed(parsed.value))
      && s'.entries == AfterFile(s.entries, parsed, s.hosts)
      && Allocated(s.conns, s.made, EntryKeys(s'.entries), s'.conns, s'.made)
      && s' == s.(entries := s'.entries, conns := s'.conns, made := s'.made, stored := Stored(s'.entries),
                  pending := Notify(s.pending, NewPairs(s'.entries, |s.entries|)), total := Counted(s, s'.entries))
    case Aen(conn, refs, adding, removing) =>
      && s.running && conn in s.watched && conn in s.made
      && var pair := KeyPair(s.made[conn]);
      && OfPair(adding, pair) && OfPair(removing, pair)
      && SameKeys(adding, removing) && SameKeys(adding, WithSelf(refs, s.made[conn]))
      && s'.entries == Reconcile(s.entries, adding, removing, s.hosts)
      && Allocated(s.conns, s.made, EntryKeys(s'.entries), s'.conns, s'.made)
      && var changed := Reported(s.entries, adding, removing, s.hosts);
      && s' == s.(entries := s'.entries, conns := s'.conns, made := s'.made, active := s.active[pair := conn],
                  stored := if changed == {} then s.stored else Stored(s'.entries),
                  pending := Notify(s.pending, changed), total := Counted(s, s'.entries))
    case Live(conn) =>
      && s.running && conn in s.svc.Values && conn in s.made
      && s' == s.(active := s.active[KeyPair(s.made[conn]) := conn], watched := s.watched + {conn})
    case Deliver(i) =>
      && s.running && i < |s.pending|
      && s' == s.(svc := Synced(s.svc, s.conns, s.pending[i]),
                  stops := s.stops + multiset(Stale(s.svc, s.conns, s.pending[i])),
                  pending := s.pending[..i] + s.pending[i + 1..])
    case Stop =>
      && s.running
      && s' == s.(svc := map[], stops := s.stops + multiset(s.svc.Values), running := false)
    case Restart(useStored, files, hosts) =>
      && (forall i :: 0 <= i < |files| ==> files[i].Some? ==> Parsed(files[i].value))
      && (useStored ==> s.stored != [] && forall i :: 0 <= i < |s.stored| ==> s.stored[i].Verify())
      && s'.entries == (if useStored then InsertAll([], s.stored, hosts) else AfterFiles([], files, hosts))
      && Allocated(map[], s.made, EntryKeys(s'.entries), s'.conns, s'.made)
      && s' == State(hosts, s'.entries, s'.conns, if useStored then s.stored else Stored(s'.entries),
                     map[], map[], {}, s.stops, s'.made, Notify([], Pairs(s'.entries)), true, |s'.entries|)
  }

  ghost predicate Init<C>(s: State<C>)
  {
    s == State(s.hosts, [], map[], [], map[], map[], {}, multiset{}, map[], [], true, 0)
  }

  /** Every connection is where its key says, so no connection stands in two places. */
  ghost predicate Placed<C>(conns: map<TKey, C>, made: map<C, TKey>)
  {
    forall k :: k in conns ==> conns[k] in made && made[conns[k]] == k
  }

  ghost predicate Named(pending: seq<set<Pair>>, p: Pair)
  {
    exists i :: 0 <= i < |pending| && p in pending[i]
  }

  /** A pair on which service and cache differ is named by a notification still under way. */
  ghost predicate Converging<C>(svc: map<TKey, C>, conns: map<TKey, C>, pending: seq<set<Pair>>)
  {
    forall p :: SamePair(svc, conns, p) || Named(pending, p)
  }

  /** Stopped connections are stopped once and gone for good. */
  ghost predicate StopsOk<C>(stops: multiset<C>, made: map<C, TKey>)
  {
    forall c :: c in stops ==> stops[c] == 1 && c in made
  }

  ghost predicate NoneStopped<C>(conns: map<TKey, C>, stops: multiset<C>)
  {
    forall k :: k in conns ==> conns[k] !in stops
  }

  ghost predicate Inv<C>(s: State<C>)
  {
    && Sound(s.entries, s.hosts)
    && s.conns.Keys == EntryKeys(s.entries)
    && s.stored == Stored(s.entries) && s.total == |s.entries|
    && Placed(s.conns, s.made) && Placed(s.svc, s.made)
    && StopsOk(s.stops, s.made)
    && (s.running ==>
          Converging(s.svc, s.conns, s.pending) && NoneStopped(s.svc, s.stops) && NoneStopped(s.conns, s.stops))
  }

  // Entries of each step.

  lemma FileSound(es: seq<Entry>, parsed: Option<seq<Entry>>, hosts: map<string, string>)
    requires Sound(es, hosts) && (parsed.Some? ==> Parsed(parsed.value))
    ensures Sound(AfterFile(es, parsed, hosts), hosts) && es <= AfterFile(es, parsed, hosts)
  {
    if parsed.Some? {
      InsertAllSound(es, MadePersistent(parsed.value), hosts);
      InsertAllAppends(es, MadePersistent(parsed.value), hosts);
    }
  }

  lemma {:induction false} FilesSound(es: seq<Entry>, files: seq<Option<seq<Entry>>>, hosts: map<string, string>)
    requires Sound(es, hosts)
    requires forall i :: 0 <= i < |files| ==> files[i].Some? ==> Parsed(files[i].value)
    ensures Sound(AfterFiles(es, files, hosts), hosts)
    decreases |files|
  {
    if files == [] {
    } else {
      FileSound(es, files[0], hosts);
      FilesSound(AfterFile(es, files[0], hosts), files[1..], hosts);
    }
  }

  /** A key that appears brings its pair into the notification. */
  lemma NewKeyPairs(es: seq<Entry>, es': seq<Entry>)
    requires es <= es'
    ensures EntryKeys(es) <= EntryKeys(es')
    ensures forall k :: k in EntryKeys(es') && k !in EntryKeys(es) ==> KeyPair(k) in NewPairs(es', |es|)
  {
    forall k | k in EntryKeys(es) ensures k in EntryKeys(es') {
      var i :| 0 <= i < |es| && es[i].Key() == k;
      assert es'[i] == es[i];
    }
    assert forall j :: 0 <= j < |es| ==> es'[j].Key() in EntryKeys(es);
    forall k | k in EntryKeys(es') && k !in EntryKeys(es) ensures KeyPair(k) in NewPairs(es', |es|) {
      var i :| 0 <= i < |es'| && es'[i].Key() == k;
      assert i >= |es|;
      assert es'[|es|..][i - |es|].PairOf() == KeyPair(k);
    }
  }

  // What each kind of step does to the invariant.

  lemma AllocatedPlaced<C>(conns: map<TKey, C>, made: map<C, TKey>, keys: set<TKey>, conns': map<TKey, C>,
                           made': map<C, TKey>)
    requires Placed(conns, made) && Allocated(conns, made, keys, conns', made')
    ensures Placed(conns', made')
  {
  }

  lemma NotifyNames(pending: seq<set<Pair>>, pairs: set<Pair>)
    ensures forall p :: Named(Notify(pending, pairs), p) <==> Named(pending, p) || p in pairs
  {
    var pending' := Notify(pending, pairs);
    forall p ensures Named(pending', p) <==> Named(pending, p) || p in pairs {
      if p in pairs { assert pending'[|pending|] == pairs; }
      if Named(pending, p) {
        var i :| 0 <= i < |pending| && p in pending[i];
        assert pending'[i] == pending[i];
      }
    }
  }

  lemma StillConverging<C>(svc: map<TKey, C>, conns: map<TKey, C>, conns': map<TKey, C>,
                        pending: seq<set<Pair>>, pairs: set<Pair>)
    requires Converging(svc, conns, pending)
    requires forall p :: p !in pairs ==> SamePair(conns, conns', p)
    ensures Converging(svc, conns', Notify(pending, pairs))
  {
    NotifyNames(pending, pairs);
    hide Notify, Named;
    forall p ensures SamePair(svc, conns', p) || Named(Notify(pending, pairs), p) {
      if p !in pairs && SamePair(svc, conns, p) { assert SamePair(conns, conns', p); }
    }
  }

  /** The cache changed; the pairs it changed are in the new notification. */
  lemma CacheChanged<C>(s: State<C>, s': State<C>, pairs: set<Pair>)
    requires Inv(s) && s.running && s'.running
    requires Sound(s'.entries, s'.hosts) && s'.stored == Stored(s'.entries)
    requires Allocated(s.conns, s.made, EntryKeys(s'.entries), s'.conns, s'.made)
    requires s'.svc == s.svc && s'.stops == s.stops && s'.pending == Notify(s.pending, pairs)
    requires s'.total == Counted(s, s'.entries)
    requires forall k :: KeyPair(k) !in pairs ==> (k in EntryKeys(s'.entries) <==> k in EntryKeys(s.entries))
    ensures Inv(s')
  {
    hide Entries.Sound, Entries.Stored, Notify, Converging;
    AllocatedPlaced(s.conns, s.made, EntryKeys(s'.entries), s'.conns, s'.made);
    forall p | p !in pairs ensures SamePair(s.conns, s'.conns, p) {}
    StillConverging(s.svc, s.conns, s'.conns, s.pending, pairs);
  }

  lemma FileStep<C>(s: State<C>, parsed: Option<seq<Entry>>, s': State<C>)
    requires Inv(s) && Next(s, File(parsed), s')
    ensures Inv(s')
  {
    FileSound(s.entries, parsed, s.hosts);
    NewKeyPairs(s.entries, s'.entries);
    CacheChanged(s, s', NewPairs(s'.entries, |s.entries|));
  }

  /** Referrals that change nothing leave the very same list. */
  lemma UnreportedUnchanged(es: seq<Entry>, adding: seq<Entry>, removing: seq<Entry>, pair: Pair,
                            hosts: map<string, string>)
    requires Sound(es, hosts) && OfPair(adding, pair) && OfPair(removing, pair) && SameKeys(adding, removing)
    requires Reported(es, adding, removing, hosts) == {}
    ensures Reconcile(es, adding, removing, hosts) == es
  {
    ReportedIffChanged(es, adding, removing, pair, hosts);
    ReconcileShape(es, adding, removing, pair, hosts);
    ReconcileKeys(es, adding, removing, pair, hosts);
    RefKeysOfPair(adding, pair);
    TailIffNewKey(es, adding, pair, hosts);
    hide Referrals.Reconcile, Referrals.Filter, Entries.InsertAll;
    forall i | 0 <= i < |es| ensures Kept(removing, pair)(es[i]) {
      KeptIffKey(removing, pair, es[i]);
      KeyIn(es[i], es);
    }
    FilterAll(es, Kept(removing, pair));
  }

  lemma AenStep<C>(s: State<C>, ev: Event<C>, s': State<C>)
    requires Inv(s) && ev.Aen? && Next(s, ev, s')
    ensures Inv(s')
  {
    assert ev.removing != [];
    hide Entries.Sound, Referrals.Reconcile, Referrals.Reported, Referrals.OfPair;
    var pair := KeyPair(s.made[ev.conn]);
    var changed := Reported(s.entries, ev.adding, ev.removing, s.hosts);
    ReconcileShape(s.entries, ev.adding, ev.removing, pair, s.hosts);
    ReconcileKeys(s.entries, ev.adding, ev.removing, pair, s.hosts);
    ReportedIffChanged(s.entries, ev.adding, ev.removing, pair, s.hosts);
    if changed == {} {
      UnreportedUnchanged(s.entries, ev.adding, ev.removing, pair, s.hosts);
    }
    CacheChanged(s, s', changed);
  }

  lemma DeliverConverging<C>(svc: map<TKey, C>, conns: map<TKey, C>, pending: seq<set<Pair>>, i: nat)
    requires i < |pending| && Converging(svc, conns, pending)
    ensures Converging(Synced(svc, conns, pending[i]), conns, pending[..i] + pending[i + 1..])
  {
    var svc', pending' := Synced(svc, conns, pending[i]), pending[..i] + pending[i + 1..];
    SyncedSame(svc, conns, pending[i]);
    hide Synced;
    forall p ensures SamePair(svc', conns, p) || Named(pending', p) {
      if p !in pending[i] {
        if SamePair(svc, conns, p) {
          assert SamePair(svc', svc, p);
        } else {
          var j :| 0 <= j < |pending| && p in pending[j];
          assert pending[j] == pending'[if j < i then j else j - 1];
        }
      }
    }
  }

  lemma DeliverStops<C>(s: State<C>, pairs: set<Pair>)
    requires Inv(s) && s.running
    ensures var (svc', stops') := (Synced(s.svc, s.conns, pairs), s.stops + multiset(Stale(s.svc, s.conns, pairs)));
            Placed(svc', s.made) && StopsOk(stops', s.made) && NoneStopped(svc', stops') && NoneStopped(s.conns, stops')
  {
    hide Entries.Sound, Entries.Stored, Stale, Converging;
    StopsFresh(s, pairs);
  }

  lemma DeliverStep<C>(s: State<C>, i: nat, s': State<C>)
    requires Inv(s) && Next(s, Deliver(i), s')
    ensures Inv(s')
    ensures forall p :: p in s.pending[i] ==> SamePair(s'.svc, s'.conns, p)
  {
    hide Entries.Sound, Entries.Stored, Entries.EntryKeys, Synced, Stale, SamePair, Converging, Placed, StopsOk,
         NoneStopped;
    SyncedSame(s.svc, s.conns, s.pending[i]);
    DeliverConverging(s.svc, s.conns, s.pending, i);
    DeliverStops(s, s.pending[i]);
  }

  /** The stale connections were never stopped before and are nowhere else. */
  lemma StopsFresh<C>(s: State<C>, pairs: set<Pair>)
    requires Inv(s) && s.running
    ensures forall c :: c in Stale(s.svc, s.conns, pairs) ==>
              && c !in s.stops && c in s.made
              && (forall k :: k in s.conns ==> s.conns[k] != c)
              && (forall k :: k in Synced(s.svc, s.conns, pairs) ==> Synced(s.svc, s.conns, pairs)[k] != c)
  {
    forall c | c in Stale(s.svc, s.conns, pairs)
      ensures c !in s.stops && c in s.made
      ensures forall k :: k in s.conns ==> s.conns[k] != c
      ensures forall k :: k in Synced(s.svc, s.conns, pairs) ==> Synced(s.svc, s.conns, pairs)[k] != c
    {
      var k :| k in s.svc && s.svc[k] == c && KeyPair(k) in pairs
               && !(exists k' :: k' in s.conns && KeyPair(k') == KeyPair(k) && s.conns[k'] == s.svc[k]);
      forall k' | k' in s.conns ensures s.conns[k'] != c {
        assert s.made[s.conns[k']] == k';
      }
    }
  }

  lemma StopStep<C>(s: State<C>, s': State<C>)
    requires Inv(s) && Next(s, Stop, s')
    ensures Inv(s')
  {
    forall c | c in s.svc.Values ensures c !in s.stops && c in s.made {
      var k :| k in s.svc && s.svc[k] == c;
    }
  }

  /** The first notification after a start names every pair with connections. */
  lemma StartConverging<C>(es: seq<Entry>, conns: map<TKey, C>)
    requires conns.Keys == EntryKeys(es)
    ensures Converging(map[], conns, Notify([], Pairs(es)))
  {
    NotifyNames([], Pairs(es));
    forall p ensures SamePair(map[], conns, p) || Named(Notify([], Pairs(es)), p) {
      if k :| k in conns && KeyPair(k) == p {
        var i :| 0 <= i < |es| && es[i].Key() == k;
        assert es[i].PairOf() in Pairs(es);
      }
    }
  }

  lemma RestartEntries<C>(s: State<C>, ev: Event<C>, s': State<C>)
    requires Inv(s) && ev.Restart? && Next(s, ev, s')
    ensures Sound(s'.entries, ev.hosts) && s'.stored == Stored(s'.entries)
    ensures ev.useStored ==>
      s'.entries == Rehosted(s.entries, ev.hosts) && EntryKeys(s'.entries) == EntryKeys(s.entries)
  {
    hide Entries.Sound, Entries.InsertAll, Entries.Stored, Entries.Rehosted, Entries.EntryKeys, Entries.Pairs, Parsed,
         AfterFile, AfterFiles, Reconcile, Reported, OfPair, SameKeys, WithSelf, NewPairs, Notify, Counted, Allocated,
         Synced, Stale, Converging, Placed, StopsOk, NoneStopped;
    SoundEmpty(ev.hosts);
    if ev.useStored {
      RestartExact(s.entries, s.hosts, ev.hosts);
    } else {
      FilesSound([], ev.files, ev.hosts);
    }
  }

  /** Connections allocated on a start are new, so none of them was ever stopped. */
  lemma StartFresh<C>(made: map<C, TKey>, stops: multiset<C>, keys: set<TKey>, conns': map<TKey, C>,
                      made': map<C, TKey>)
    requires StopsOk(stops, made) && Allocated(map[], made, keys, conns', made')
    ensures conns'.Keys == keys && Placed(conns', made') && Placed(map[], made')
    ensures StopsOk(stops, made') && NoneStopped(map[], stops) && NoneStopped(conns', stops)
  {
  }

  lemma RestartStep<C>(s: State<C>, ev: Event<C>, s': State<C>)
    requires Inv(s) && ev.Restart? && Next(s, ev, s')
    ensures Inv(s')
    ensures ev.useStored ==> s'.entries == Rehosted(s.entries, ev.hosts) && s'.conns.Keys == s.conns.Keys
  {
    hide Entries.Sound, Entries.InsertAll, Entries.EntryKeys, Entries.Stored, Converging, Notify, Pairs, Allocated,
         Placed, StopsOk, NoneStopped, AfterFiles;
    RestartEntries(s, ev, s');
    StartFresh(s.made, s.stops, EntryKeys(s'.entries), s'.conns, s'.made);
    StartConverging(s'.entries, s'.conns);
  }

  lemma InvStep<C>(s: State<C>, ev: Event<C>, s': State<C>)
    requires Inv(s) && Next(s, ev, s')
    ensures Inv(s')
  {
    match ev
    case File(parsed) => FileStep(s, parsed, s');
    case Aen(_, _, _, _) => AenStep(s, ev, s');
    case Live(_) =>
    case Deliver(i) => DeliverStep(s, i, s');
    case Stop => StopStep(s, s');
    case Restart(_, _, _) => RestartStep(s, ev, s');
  }

  /** A run: states with the events between them. */
  ghost predicate Run<C>(states: seq<State<C>>, events: seq<Event<C>>)
  {
    && |states| == |events| + 1 && Init(states[0])
    && forall i :: 0 <= i < |events| ==> Next(states[i], events[i], states[i + 1])
  }

  lemma {:induction false} RunInv<C>(states: seq<State<C>>, events: seq<Event<C>>, n: nat)
    requires Run(states, events) && n < |states|
    ensures Inv(states[n])
  {
    if n == 0 {
      SoundEmpty(states[0].hosts);
    } else {
      RunInv(states, events, n - 1);
      InvStep(states[n - 1], events[n - 1], states[n]);
    }
  }

  // What every run keeps.

  /** Cache agreement: entries and connections have the same keys, each once, so the branch that
      finds a connection without its entry is never taken. */
  lemma CacheAgreement<C>(states: seq<State<C>>, events: seq<Event<C>>, n: nat, e: Entry)
    requires Run(states, events) && n < |states| && e.persistent
    ensures UniqueKeys(states[n].entries)
    ensures states[n].conns.Keys == EntryKeys(states[n].entries)
    ensures |states[n].conns.Keys| == |states[n].entries| == states[n].total
    ensures Exists(e, states[n].entries) <==> e.Key() in states[n].conns
  {
    RunInv(states, events, n);
    ExistsIffKey(e, states[n].entries);
    KeyCount(states[n].entries);
  }

  lemma {:induction false} KeyCount(es: seq<Entry>)
    requires UniqueKeys(es)
    ensures |EntryKeys(es)| == |es|
  {
    if es == [] {
    } else {
      KeyCount(es[1..]);
      KeysHead(es);
      forall k | k in EntryKeys(es[1..]) ensures k != es[0].Key() {
        var i :| 0 <= i < |es[1..]| && es[1..][i].Key() == k;
        assert es[1..][i] == es[i + 1];
      }
    }
  }

  /** Convergence: every pair is the same in service and cache, or named by a notification under way; with
      none under way, the service has the cache's connections. */
  lemma Convergence<C>(states: seq<State<C>>, events: seq<Event<C>>, n: nat)
    requires Run(states, events) && n < |states| && states[n].running
    ensures forall p :: SamePair(states[n].svc, states[n].conns, p) || Named(states[n].pending, p)
    ensures states[n].pending == [] ==> states[n].svc == states[n].conns
  {
    RunInv(states, events, n);
    if states[n].pending == [] {
      SamePairsEqual(states[n]);
    }
  }

  lemma SamePairsEqual<C>(s: State<C>)
    requires Inv(s) && s.running && s.pending == []
    ensures s.svc == s.conns
  {
    forall k ensures k in s.svc <==> k in s.conns {
      assert SamePair(s.svc, s.conns, KeyPair(k));
    }
    forall k | k in s.svc ensures s.svc[k] == s.conns[k] {
      assert SamePair(s.svc, s.conns, KeyPair(k));
    }
  }

  /** One delivery makes the named pairs equal, and delivering what is under way, in any order, all of them. */
  lemma {:induction false} DrainConverges<C>(s: State<C>, picks: seq<nat>, states: seq<State<C>>)
    requires Inv(s) && s.running
    requires |picks| == |s.pending| && |states| == |picks| + 1 && states[0] == s
    requires forall i :: 0 <= i < |picks| ==> Next(states[i], Deliver(picks[i]), states[i + 1])
    ensures var last := states[|picks|];
            last.svc == s.conns && last.conns == s.conns && last.pending == []
    decreases |picks|
  {
    if picks == [] {
      SamePairsEqual(s);
    } else {
      assert Next(states[0], Deliver(picks[0]), states[1]);
      DeliverStep(s, picks[0], states[1]);
      DrainConverges(states[1], picks[1..], states[1..]);
    }
  }

  /** Stopped at most once: no run closes a connection's channel twice. */
  lemma StoppedAtMostOnce<C>(states: seq<State<C>>, events: seq<Event<C>>, n: nat, c: C)
    requires Run(states, events) && n < |states|
    ensures states[n].stops[c] <= 1
    ensures states[n].running && c in states[n].stops ==>
              (forall k :: k in states[n].svc ==> states[n].svc[k] != c) &&
              (forall k :: k in states[n].conns ==> states[n].conns[k] != c)
  {
    RunInv(states, events, n);
  }

  /** Persistence: the stored list is the cached one after every step, and a restart that uses it
      has the same entries and keys in the same order. */
  lemma Persistence<C>(states: seq<State<C>>, events: seq<Event<C>>, n: nat)
    requires Run(states, events) && n < |events|
    ensures states[n].stored == Stored(states[n].entries)
    ensures events[n].Restart? && events[n].useStored ==>
              && states[n + 1].entries == Rehosted(states[n].entries, events[n].hosts)
              && states[n + 1].conns.Keys == states[n].conns.Keys
  {
    RunInv(states, events, n);
    if events[n].Restart? {
      RestartStep(states[n], events[n], states[n + 1]);
    }
  }

  // The active connection of a pair, over whole runs.

  /** A discovery over a connection of the pair makes that connection the active one. */
  ghost predicate Activates<C>(s: State<C>, ev: Event<C>, p: Pair)
  {
    (ev.Live? || ev.Aen?) && ev.conn in s.made && KeyPair(s.made[ev.conn]) == p
  }

  ghost predicate Stopping<C>(s: State<C>, ev: Event<C>, c: C)
  {
    || (ev.Deliver? && ev.i < |s.pending| && c in Stale(s.svc, s.conns, s.pending[ev.i]))
    || (ev.Stop? && c in s.svc.Values)
  }

  /** Step `m` made the pair's connection active, and there was no start since. */
  ghost predicate ActivatedAt<C>(states: seq<State<C>>, events: seq<Event<C>>, n: nat, p: Pair, m: nat)
    requires |states| == |events| + 1 && n < |states|
  {
    m < n && Activates(states[m], events[m], p) && forall j :: m < j < n ==> !events[j].Restart?
  }

  /** The last such step. */
  ghost predicate ActiveSince<C>(states: seq<State<C>>, events: seq<Event<C>>, n: nat, p: Pair, m: nat)
    requires |states| == |events| + 1 && n < |states|
  {
    ActivatedAt(states, events, n, p, m) && forall j :: m < j < n ==> !Activates(states[j], events[j], p)
  }

  lemma ActiveStep<C>(s: State<C>, ev: Event<C>, s': State<C>, p: Pair)
    requires Next(s, ev, s')
    ensures p in s'.active <==> Activates(s, ev, p) || (p in s.active && !ev.Restart?)
    ensures p in s'.active ==> s'.active[p] == if Activates(s, ev, p) then ev.conn else s.active[p]
  {
    hide Reconcile, Reported, OfPair, SameKeys, AfterFile, AfterFiles, Allocated, Synced, Stale;
  }

  /** A pair has an active connection exactly when some discovery since the last start made one. */
  lemma {:induction false} ActiveIff<C>(states: seq<State<C>>, events: seq<Event<C>>, n: nat, p: Pair)
    requires Run(states, events) && n < |states|
    ensures p in states[n].active <==> exists m: nat :: ActivatedAt(states, events, n, p, m)
  {
    hide Next, Activates;
    if n == 0 {
    } else {
      ActiveIff(states, events, n - 1, p);
      ActiveStep(states[n - 1], events[n - 1], states[n], p);
      if m: nat :| ActivatedAt(states, events, n, p, m) {
        if m < n - 1 { assert ActivatedAt(states, events, n - 1, p, m); }
      }
      if Activates(states[n - 1], events[n - 1], p) {
        assert ActivatedAt(states, events, n, p, n - 1);
      } else if p in states[n].active {
        var m: nat :| ActivatedAt(states, events, n - 1, p, m);
        assert ActivatedAt(states, events, n, p, m);
      }
    }
  }

  /** It is the connection of the last such discovery, whatever became of it. */
  lemma {:induction false} ActiveLast<C>(states: seq<State<C>>, events: seq<Event<C>>, n: nat, p: Pair, m: nat)
    requires Run(states, events) && n < |states| && ActiveSince(states, events, n, p, m)
    ensures p in states[n].active && states[n].active[p] == events[m].conn
  {
    hide Next;
    ActiveStep(states[n - 1], events[n - 1], states[n], p);
    if m < n - 1 {
      ActiveLast(states, events, n - 1, p, m);
    }
  }

  /** A notification connects a pair anew if and only if it names the pair, the pair's connections differ, and
      no discovery over the pair succeeded since the last start. */
  lemma ReconnectsIff<C>(states: seq<State<C>>, events: seq<Event<C>>, n: nat, i: nat, p: Pair)
    requires Run(states, events) && n < |states| && i < |states[n].pending|
    ensures Reconnects(states[n], i, p) <==>
      && p in states[n].pending[i] && !SamePair(states[n].svc, states[n].conns, p)
      && !(exists m: nat :: ActivatedAt(states, events, n, p, m))
  {
    hide Next, Activates;
    ActiveIff(states, events, n, p);
  }

  lemma StopsStep<C>(s: State<C>, ev: Event<C>, s': State<C>, c: C)
    requires Next(s, ev, s')
    ensures c in s'.stops <==> c in s.stops || Stopping(s, ev, c)
  {
    hide Next, Stale;
    StopsMore(s, ev, s');
  }

  /** What a step adds to the stops. */
  lemma StopsMore<C>(s: State<C>, ev: Event<C>, s': State<C>)
    requires Next(s, ev, s')
    ensures ev.Deliver? ==> ev.i < |s.pending|
    ensures s'.stops == match ev
                        case Deliver(i) => s.stops + multiset(Stale(s.svc, s.conns, s.pending[i]))
                        case Stop => s.stops + multiset(s.svc.Values)
                        case _ => s.stops
  {
    hide Reconcile, Reported, OfPair, SameKeys, WithSelf, AfterFile, AfterFiles, InsertAll, Stored, Parsed, Pairs,
         NewPairs, EntryKeys, Notify, Counted, Allocated, Synced, Stale;
  }

  lemma {:induction false} StopsSince<C>(states: seq<State<C>>, events: seq<Event<C>>, m: nat, n: nat, c: C)
    requires Run(states, events) && m <= n < |states|
    ensures c in states[n].stops <==>
      c in states[m].stops || exists j :: m <= j < n && Stopping(states[j], events[j], c)
    decreases n - m
  {
    hide Next, Stopping;
    if m < n {
      StopsSince(states, events, m, n - 1, c);
      StopsStep(states[n - 1], events[n - 1], states[n], c);
      if j :| m <= j < n && Stopping(states[j], events[j], c) {
        assert j < n - 1 ==> c in states[n - 1].stops;
      }
    }
  }

  lemma NotStopping<C>(s: State<C>, ev: Event<C>, p: Pair, c: C)
    requires Activates(s, ev, p)
    ensures !Stopping(s, ev, c)
  {
  }

  /** Step `m` made the connection live, and there was no start since. */
  ghost predicate WatchedAt<C>(states: seq<State<C>>, events: seq<Event<C>>, n: nat, c: C, m: nat)
    requires |states| == |events| + 1 && n < |states|
  {
    m < n && events[m] == Live(c) && c in states[m].svc.Values && forall j :: m < j < n ==> !events[j].Restart?
  }

  lemma WatchedStep<C>(s: State<C>, ev: Event<C>, s': State<C>, c: C)
    requires Next(s, ev, s')
    ensures c in s'.watched <==> ev == Live(c) || (c in s.watched && !ev.Restart?)
    ensures ev == Live(c) ==> c in s.svc.Values
    ensures ev.Aen? && ev.conn == c ==> c in s.watched
  {
    hide Reconcile, Reported, OfPair, SameKeys, WithSelf, AfterFile, AfterFiles, InsertAll, Stored, Parsed, Pairs,
         NewPairs, EntryKeys, Notify, Counted, Allocated, Synced, Stale;
  }

  /** The service listens to a connection exactly when it found it live, while holding it, since the last start;
      and referrals only come over such connections. */
  lemma {:induction false} WatchedIff<C>(states: seq<State<C>>, events: seq<Event<C>>, n: nat, c: C)
    requires Run(states, events) && n < |states|
    ensures c in states[n].watched <==> exists m: nat :: WatchedAt(states, events, n, c, m)
    ensures n < |events| && events[n].Aen? && events[n].conn == c ==>
      exists m: nat :: WatchedAt(states, events, n, c, m)
  {
    hide Next;
    if n < |events| { WatchedStep(states[n], events[n], states[n + 1], c); }
    if n == 0 {
    } else {
      WatchedIff(states, events, n - 1, c);
      WatchedStep(states[n - 1], events[n - 1], states[n], c);
      if m: nat :| WatchedAt(states, events, n, c, m) {
        if m < n - 1 { assert WatchedAt(states, events, n - 1, c, m); }
      }
      if events[n - 1] == Live(c) {
        assert WatchedAt(states, events, n, c, n - 1);
      } else if c in states[n].watched {
        var m: nat :| WatchedAt(states, events, n - 1, c, m);
        assert WatchedAt(states, events, n, c, m);
      }
    }
  }

  /** A connection that is found live is not a stopped one: the service holds it. */
  lemma LiveIsOpen<C>(s: State<C>, c: C, s': State<C>)
    requires Inv(s) && Next(s, Live(c), s')
    ensures c !in s.stops
  {
    var k :| k in s.svc && s.svc[k] == c;
  }

  /** The active connection of a pair is a stopped one if and only if referrals made it active that came over a
      connection stopped already, or a later notification found it gone from the cache, or the service was
      stopped. */
  lemma ActiveIsStopped<C>(states: seq<State<C>>, events: seq<Event<C>>, n: nat, p: Pair, m: nat)
    requires Run(states, events) && n < |states| && ActiveSince(states, events, n, p, m)
    ensures p in states[n].active
    ensures states[n].active[p] in states[n].stops <==>
      || (events[m].Aen? && events[m].conn in states[m].stops)
      || exists j :: m < j < n && Stopping(states[j], events[j], events[m].conn)
  {
    hide Next, Stopping;
    ActiveLast(states, events, n, p, m);
    if events[m].Live? {
      RunInv(states, events, m);
      LiveIsOpen(states[m], events[m].conn, states[m + 1]);
    }
    assert !Stopping(states[m], events[m], events[m].conn) by { NotStopping(states[m], events[m], p, events[m].conn); }
    StopsSince(states, events, m, n, events[m].conn);
  }
}
