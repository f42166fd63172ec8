// Short runs of the client that end where one would not want them to.

module ClientWitness {
  import opened Entries
  import opened Wrappers
  import opened ConnMaps
  import opened Referrals
  import opened ClientSystem

  function Hosts(): map<string, string> { map[] }

  /** A user's entry that its own discovery will not refer to. */
  predicate Elsewhere(e: Entry)
  {
    && e.Verify() && e.source == User && e.effectiveHostid == "" && e.ctrlLossTMO.None?
    && !(e.transport == "tcp" && e.trsvcid == DISC_PORT)
  }

  function Listed(e: Entry): Entry { e.(persistent := true) }

  /** The server itself on the discovery port, and a referral without address and port. */
  function SelfEntry(e: Entry): Entry { FromReferral(ReferralEntry(e.traddr, DISC_PORT), e.PairOf()) }

  function NoAddress(e: Entry): Entry { FromReferral(ReferralEntry("", 0), e.PairOf()) }

  ghost function Start(): State<nat> { State(Hosts(), [], map[], [], map[], map[], {}, multiset{}, map[], [], true, 0) }

  ghost function Filed(e: Entry): State<nat>
  {
    State(Hosts(), [Listed(e)], map[e.Key() := 0], [Listed(e)], map[], map[], {}, multiset{}, map[0 := e.Key()],
          [{e.PairOf()}], true, 1)
  }

  ghost function Mirrored(e: Entry): State<nat> { Filed(e).(svc := map[e.Key() := 0], pending := []) }

  ghost function Connected(e: Entry): State<nat> { Mirrored(e).(active := map[e.PairOf() := 0], watched := {0}) }

  ghost function Referred(e: Entry): State<nat>
  {
    var k1 := SelfEntry(e).Key();
    Connected(e).(entries := [SelfEntry(e)], conns := map[k1 := 1], stored := [SelfEntry(e)],
                  made := map[0 := e.Key(), 1 := k1], pending := [{e.PairOf()}])
  }

  ghost function Stuck(e: Entry): State<nat>
  {
    Referred(e).(svc := map[SelfEntry(e).Key() := 1], stops := multiset{0}, pending := [])
  }

  lemma InsertPlain(es: seq<Entry>, e: Entry)
    requires (forall i :: 0 <= i < |es| ==> es[i].ctrlLossTMO.None? && !e.Same(es[i]))
    requires e.ctrlLossTMO.None? && e.effectiveHostid == ""
    ensures InsertAll(es, [e], Hosts()) == es + [e]
  {
    NoTMO(es);
    assert [e][1..] == [];
    assert Complete(es, e, Hosts()) == e;
    assert InsertAll(es + [e], [], Hosts()) == es + [e];
  }

  lemma {:induction false} NoTMO(es: seq<Entry>)
    requires forall i :: 0 <= i < |es| ==> es[i].ctrlLossTMO.None?
    ensures UserTMO(es) == None
  {
    if es == [] {
    } else {
      NoTMO(es[1..]);
    }
  }

  lemma OneEntry(e: Entry)
    ensures EntryKeys([e]) == {e.Key()} && Pairs([e]) == {e.PairOf()} && Stored([e]) == [e.(effectiveHostid := "")]
  {
    assert [e][0] == e;
  }

  lemma FileHolds(e: Entry)
    requires Elsewhere(e)
    ensures Next(Start(), File(Some([e])), Filed(e))
  {
    hide Entries.InsertAll, Entries.EntryKeys, Entries.Pairs, Entries.Stored;
    assert MadePersistent([e]) == [Listed(e)];
    InsertPlain([], Listed(e));
    assert [] + [Listed(e)] == [Listed(e)];
    OneEntry(Listed(e));
    assert NewPairs([Listed(e)], 0) == {e.PairOf()} by { assert [Listed(e)][0..] == [Listed(e)]; }
    assert AfterFile([], Some([e]), Hosts()) == [Listed(e)];
    assert Parsed([e]);
  }

  /** Delivering the one message. */
  lemma DeliverHolds(s: State<nat>, p: Pair, s': State<nat>)
    requires s.running && s.pending == [{p}]
    requires s' == s.(svc := Synced(s.svc, s.conns, {p}), stops := s.stops + multiset(Stale(s.svc, s.conns, {p})),
                      pending := [])
    ensures Next(s, Deliver(0), s')
  {
    hide Synced, Stale;
    assert s.pending[..0] + s.pending[1..] == [];
  }

  lemma FirstDelivery(e: Entry)
    ensures Next(Filed(e), Deliver(0), Mirrored(e))
  {
    var s := Filed(e);
    assert KeyPair(e.Key()) == e.PairOf();
    assert Synced(s.svc, s.conns, {e.PairOf()}) == Mirrored(e).svc;
    assert Stale(s.svc, s.conns, {e.PairOf()}) == {};
    hide Synced, Stale;
    DeliverHolds(s, e.PairOf(), Mirrored(e));
  }

  /** One connection of a pair in the service, and another one in the cache. */
  lemma SyncedOne(k0: TKey, k1: TKey, p: Pair)
    requires k0 != k1 && KeyPair(k0) == p && KeyPair(k1) == p
    ensures Synced<nat>(map[k0 := 0], map[k1 := 1], {p}) == map[k1 := 1]
    ensures Stale<nat>(map[k0 := 0], map[k1 := 1], {p}) == {0}
  {
    var stale := Stale<nat>(map[k0 := 0], map[k1 := 1], {p});
    assert 0 in stale && forall c :: c in stale ==> c == 0;
  }

  lemma LastDelivery(e: Entry)
    requires Elsewhere(e)
    ensures Next(Referred(e), Deliver(0), Stuck(e))
  {
    hide Synced, Stale, Next;
    KeysApart(e);
    SyncedOne(e.Key(), SelfEntry(e).Key(), e.PairOf());
    DeliverHolds(Referred(e), e.PairOf(), Stuck(e));
  }

  /** Referrals of one pair to other places than its only entry: the entry goes and the referrals stay. */
  lemma Replaced(e: Entry, refs: seq<Entry>)
    requires Elsewhere(e) && OfPair(refs, e.PairOf()) && Listed(e).Key() !in EntryKeys(refs)
    requires InsertAll([Listed(e)], refs, Hosts()) == [Listed(e)] + refs
    ensures Reconcile([Listed(e)], refs, refs, Hosts()) == refs
    ensures Reported([Listed(e)], refs, refs, Hosts()) == {e.PairOf()}
  {
    hide Entries.InsertAll;
    var (es, pair) := ([Listed(e)], e.PairOf());
    var keep := Kept(refs, pair);
    SoundListed(e);
    OneEntry(Listed(e));
    KeptIffKey(refs, pair, Listed(e));
    assert Filter(es, keep) == [] by { assert es[..0] == []; }
    ReconcileShape(es, refs, refs, pair, Hosts());
    assert (es + refs)[1..] == refs;
    ReportedIffChanged(es, refs, refs, pair, Hosts());
    assert refs[0].Key() in EntryKeys(refs);
  }

  lemma SoundListed(e: Entry)
    requires Elsewhere(e)
    ensures Sound([Listed(e)], Hosts())
  {
    assert [Listed(e)][0] == Listed(e);
  }

  lemma SelfReferral(e: Entry)
    requires Elsewhere(e)
    ensures var refs := [SelfEntry(e)];
      && OfPair(refs, e.PairOf()) && SameKeys(refs, WithSelf([], e.Key()))
      && Reconcile([Listed(e)], refs, refs, Hosts()) == refs
      && Reported([Listed(e)], refs, refs, Hosts()) == {e.PairOf()}
  {
    hide Reconcile, Reported, Entries.InsertAll;
    var refs := [SelfEntry(e)];
    assert WithSelf([], e.Key()) == refs;
    assert !SelfEntry(e).Same(Listed(e)) && [Listed(e)][0] == Listed(e);
    InsertPlain([Listed(e)], SelfEntry(e));
    OneEntry(SelfEntry(e));
    assert refs[0] == SelfEntry(e);
    assert OfPair(refs, e.PairOf());
    hide OfPair, Entries.EntryKeys;
    Replaced(e, refs);
  }

  lemma AenHolds(s: State<nat>, e: Entry, refs: seq<ReferralEntry>, all: seq<Entry>, s': State<nat>)
    requires s.running && 0 in s.watched && 0 in s.made && s.made[0] == e.Key() && s.hosts == Hosts() && all != []
    requires OfPair(all, e.PairOf()) && SameKeys(all, WithSelf(refs, e.Key()))
    requires Reconcile(s.entries, all, all, Hosts()) == all && Reported(s.entries, all, all, Hosts()) == {e.PairOf()}
    requires Allocated(s.conns, s.made, EntryKeys(all), s'.conns, s'.made)
    requires s' == s.(entries := all, conns := s'.conns, made := s'.made, active := s.active[e.PairOf() := 0],
                      stored := Stored(all), pending := s.pending + [{e.PairOf()}],
                      total := s.total + |all| - |s.entries|)
    ensures Next(s, Aen(0, refs, all, all), s')
  {
    assert SameKeys(all, all);
    hide Reconcile, Reported, OfPair, SameKeys, WithSelf, Entries.EntryKeys, Entries.Stored, Allocated;
    assert KeyPair(e.Key()) == e.PairOf();
    assert e.PairOf() in {e.PairOf()};
  }

  lemma ReferralStep(e: Entry)
    requires Elsewhere(e)
    ensures Next(Connected(e), Aen(0, [], [SelfEntry(e)], [SelfEntry(e)]), Referred(e))
  {
    hide Reconcile, Reported, OfPair, SameKeys, WithSelf, Entries.EntryKeys, Entries.Stored, Allocated, Next;
    var (s, s', all) := (Connected(e), Referred(e), [SelfEntry(e)]);
    SelfReferral(e);
    OneEntry(SelfEntry(e));
    KeysApart(e);
    assert s.pending + [{e.PairOf()}] == [{e.PairOf()}];
    assert s.active[e.PairOf() := 0] == s.active;
    AenHolds(s, e, [], all, s');
  }

  lemma LiveHolds(e: Entry)
    ensures Next(Mirrored(e), Live(0), Connected(e))
  {
    assert KeyPair(e.Key()) == e.PairOf();
    assert map[][e.PairOf() := 0] == map[e.PairOf() := 0];
    assert Mirrored(e).svc[e.Key()] == 0;
  }

  lemma Unlike(e: Entry)
    requires Elsewhere(e)
    ensures !SamePair(Referred(e).svc, Referred(e).conns, e.PairOf())
  {
    assert SelfEntry(e).Key() != e.Key();
    assert e.Key() in Referred(e).svc && e.Key() !in Referred(e).conns && KeyPair(e.Key()) == e.PairOf();
  }

  /** For every user's entry that is not on the discovery port, a run that ends with a changed cluster whose
      active connection is a stopped one, and that its notification did not connect anew: the file, its
      notification, a live connection, referrals that leave the connection out, and their notification. */
  lemma StuckRun(e: Entry)
    requires Elsewhere(e)
    ensures var states := [Start(), Filed(e), Mirrored(e), Connected(e), Referred(e), Stuck(e)];
      var events := [File(Some([e])), Deliver(0), Live(0), Aen(0, [], [SelfEntry(e)], [SelfEntry(e)]), Deliver(0)];
      Run(states, events)
    ensures e.PairOf() in Stuck(e).active && Stuck(e).active[e.PairOf()] in Stuck(e).stops
    ensures Stuck(e).svc == Stuck(e).conns && Stuck(e).svc != map[] && Stuck(e).pending == []
    ensures Referred(e).pending[0] == {e.PairOf()} && !SamePair(Referred(e).svc, Referred(e).conns, e.PairOf())
    ensures !Reconnects(Referred(e), 0, e.PairOf())
  {
    hide Next, SamePair;
    FileHolds(e);
    FirstDelivery(e);
    LiveHolds(e);
    ReferralStep(e);
    LastDelivery(e);
    Unlike(e);
    assert SelfEntry(e).Key() in Stuck(e).svc;
  }

  /** The same referrals again change nothing but the active connection. */
  lemma ReferralsAgain(s: State<nat>, e: Entry, all: seq<Entry>)
    requires s.running && 0 in s.watched && 0 in s.made && s.made[0] == e.Key() && s.hosts == Hosts()
    requires OfPair(all, e.PairOf()) && SameKeys(all, WithSelf([], e.Key())) && s.entries == all
    requires Reconcile(all, all, all, Hosts()) == all && Reported(all, all, all, Hosts()) == {}
    requires s.conns.Keys == EntryKeys(all) && e.PairOf() in s.active && s.active[e.PairOf()] == 0
    ensures Next(s, Aen(0, [], all, all), s)
  {
    assert SameKeys(all, all);
    assert Allocated(s.conns, s.made, EntryKeys(all), s.conns, s.made);
    hide Reconcile, Reported, OfPair, SameKeys, WithSelf, Entries.EntryKeys, Entries.Stored, Allocated;
    assert KeyPair(e.Key()) == e.PairOf();
    assert s.active[e.PairOf() := 0] == s.active;
  }

  /** An event that was still under way when the connection was stopped makes the stopped connection active. */
  lemma LateReferrals(e: Entry)
    requires Elsewhere(e)
    ensures var late := Aen(0, [], [SelfEntry(e)], [SelfEntry(e)]);
      && Next(Stuck(e), late, Stuck(e))
      && Activates(Stuck(e), late, e.PairOf()) && late.conn in Stuck(e).stops
  {
    hide Reconcile, Reported, OfPair, SameKeys, WithSelf, Entries.EntryKeys, Entries.Stored, Allocated, Next;
    var all := [SelfEntry(e)];
    SelfReferral(e);
    SoundListed(e);
    OneEntry(SelfEntry(e));
    assert SameKeys(all, all) by { KeysOfItself(all); }
    ReconcileIdempotent([Listed(e)], all, all, all, all, e.PairOf(), Hosts());
    ReferralsAgain(Stuck(e), e, all);
  }

  lemma KeysOfItself(all: seq<Entry>)
    requires all != []
    ensures SameKeys(all, all)
  {
  }

  ghost function Addressless(e: Entry): State<nat>
  {
    var (k1, k2, p) := (SelfEntry(e).Key(), NoAddress(e).Key(), e.PairOf());
    Connected(e).(entries := [NoAddress(e), SelfEntry(e)], conns := map[k2 := 1, k1 := 2],
                  stored := [NoAddress(e), SelfEntry(e)], made := map[0 := e.Key(), 1 := k2, 2 := k1],
                  pending := [{p}], total := 2)
  }

  lemma TwoEntries(e: Entry, f: Entry)
    ensures EntryKeys([e, f]) == {e.Key(), f.Key()}
        && Stored([e, f]) == [e.(effectiveHostid := ""), f.(effectiveHostid := "")]
  {
    assert [e, f][0] == e && [e, f][1] == f;
  }

  lemma InsertTwo(e: Entry)
    requires Elsewhere(e)
    ensures InsertAll([Listed(e)], [NoAddress(e), SelfEntry(e)], Hosts()) == [Listed(e)] + [NoAddress(e), SelfEntry(e)]
  {
    var (a, b, c) := (Listed(e), NoAddress(e), SelfEntry(e));
    InsertPlain([a], b);
    InsertPlain([a, b], c);
    assert [b, c][1..] == [c] && [b][1..] == [];
    assert InsertAll([a], [b], Hosts()) == Insert([a], b, Hosts());
    assert [a] + [b] == [a, b];
    assert InsertAll([a], [b, c], Hosts()) == InsertAll([a, b], [c], Hosts());
  }

  lemma ReferralWithoutAddress(e: Entry)
    requires Elsewhere(e)
    ensures var refs := [NoAddress(e), SelfEntry(e)];
      && OfPair(refs, e.PairOf()) && SameKeys(refs, WithSelf([ReferralEntry("", 0)], e.Key()))
      && Reconcile([Listed(e)], refs, refs, Hosts()) == refs
      && Reported([Listed(e)], refs, refs, Hosts()) == {e.PairOf()}
  {
    var refs := [NoAddress(e), SelfEntry(e)];
    assert WithSelf([ReferralEntry("", 0)], e.Key()) == refs;
    InsertTwo(e);
    TwoEntries(NoAddress(e), SelfEntry(e));
    assert OfPair(refs, e.PairOf());
    assert NoAddress(e).Key() != e.Key() && SelfEntry(e).Key() != e.Key();
    hide Reconcile, Reported, Entries.InsertAll, OfPair, Entries.EntryKeys;
    Replaced(e, refs);
  }

  lemma KeysApart(e: Entry)
    requires Elsewhere(e)
    ensures NoAddress(e).Key() != e.Key() && SelfEntry(e).Key() != e.Key() && NoAddress(e).Key() != SelfEntry(e).Key()
    ensures Allocated(Connected(e).conns, Connected(e).made, {NoAddress(e).Key(), SelfEntry(e).Key()},
                      Addressless(e).conns, Addressless(e).made)
    ensures Allocated(Connected(e).conns, Connected(e).made, {SelfEntry(e).Key()}, Referred(e).conns, Referred(e).made)
  {
  }

  lemma AddresslessStep(e: Entry)
    requires Elsewhere(e)
    ensures var refs := [NoAddress(e), SelfEntry(e)];
      Next(Connected(e), Aen(0, [ReferralEntry("", 0)], refs, refs), Addressless(e))
  {
    hide Reconcile, Reported, OfPair, SameKeys, WithSelf, Entries.EntryKeys, Entries.Stored, Allocated, Next;
    var (s, s', refs) := (Connected(e), Addressless(e), [NoAddress(e), SelfEntry(e)]);
    ReferralWithoutAddress(e);
    TwoEntries(NoAddress(e), SelfEntry(e));
    KeysApart(e);
    assert s.pending + [{e.PairOf()}] == [{e.PairOf()}];
    assert s.active[e.PairOf() := 0] == s.active;
    AenHolds(s, e, [ReferralEntry("", 0)], refs, s');
  }

  lemma NoStart(e: Entry, hosts: map<string, string>, files: seq<Option<seq<Entry>>>, s': State<nat>)
    ensures !Next(Addressless(e), Restart(true, files, hosts), s')
  {
    hide Parsed, AfterFiles, Entries.InsertAll, Entries.EntryKeys, Entries.Pairs, Entries.Stored, Allocated, Notify;
    assert !Addressless(e).stored[0].Verify();
  }

  /** A run after which the program cannot start from the list it stored: the file, its notification, a live
      connection, and a referral without address over that connection. */
  lemma RefusedRestart(e: Entry, hosts: map<string, string>, files: seq<Option<seq<Entry>>>, s': State<nat>)
    requires Elsewhere(e)
    ensures var refs := [NoAddress(e), SelfEntry(e)];
      Run([Start(), Filed(e), Mirrored(e), Connected(e), Addressless(e)],
          [File(Some([e])), Deliver(0), Live(0), Aen(0, [ReferralEntry("", 0)], refs, refs)])
    ensures !Next(Addressless(e), Restart(true, files, hosts), s')
  {
    hide Next, Addressless;
    NoStart(e, hosts, files, s');
    FileHolds(e);
    FirstDelivery(e);
    LiveHolds(e);
    AddresslessStep(e);
  }
}
