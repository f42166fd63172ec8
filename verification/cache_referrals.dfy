// Reconciling the cached entries with the referrals of one discovery.

module Referrals {
  import opened Entries
  import opened Wrappers

  datatype ReferralEntry = ReferralEntry(traddr: string, trsvcid: int)

  function FromReferral(r: ReferralEntry, pair: Pair): Entry
  {
    Entry("tcp", r.trsvcid, r.traddr, pair.hostNqn, "", pair.clusterNqn, true, "", Referral, None, "")
  }

  function Filter(es: seq<Entry>, keep: Entry -> bool): seq<Entry>
  {
    if es == [] then []
    else Filter(es[..|es| - 1], keep) + (if keep(es[|es| - 1]) then [es[|es| - 1]] else [])
  }

  /** Two neighbours of different pairs, the first one not empty: the referrals are refused. */
  ghost predicate Mixed(refs: seq<Entry>)
  {
    exists i :: 0 < i < |refs| && !refs[i - 1].PairOf().IsEmpty() && refs[i - 1].PairOf() != refs[i].PairOf()
  }

  function Kept(refs: seq<Entry>, pair: Pair): Entry -> bool
  {
    (e: Entry) => Exists(e, refs) || e.PairOf() != pair
  }

  /** Entries after the referrals are handled; the two loops may go through them in different orders. */
  ghost function Reconcile(es: seq<Entry>, adding: seq<Entry>, removing: seq<Entry>,
                           hosts: map<string, string>): seq<Entry>
    requires removing != []
  {
    var es1 := InsertAll(es, adding, hosts);
    if Mixed(removing) then es1 else Filter(es1, Kept(removing, removing[|removing| - 1].PairOf()))
  }

  /** The pairs that are reported as changed. */
  ghost function Reported(es: seq<Entry>, adding: seq<Entry>, removing: seq<Entry>,
                          hosts: map<string, string>): set<Pair>
    requires removing != []
  {
    var es1 := InsertAll(es, adding, hosts);
    NonEmpty(Pairs(es1[Len(es, adding, hosts)..]) + Removed(es1, removing))
  }

  function NonEmpty(pairs: set<Pair>): set<Pair>
  {
    set p | p in pairs && !p.IsEmpty()
  }

  ghost function Len(es: seq<Entry>, adding: seq<Entry>, hosts: map<string, string>): (n: nat)
    ensures n <= |InsertAll(es, adding, hosts)|
    ensures n == |es|
  {
    InsertAllAppends(es, adding, hosts);
    |es|
  }

  ghost function Removed(es: seq<Entry>, refs: seq<Entry>): set<Pair>
    requires refs != []
  {
    if Mixed(refs) then {}
    else set i | 0 <= i < |es| && !Kept(refs, refs[|refs| - 1].PairOf())(es[i]) :: es[i].PairOf()
  }

  /** Referrals of one discovery: persistent entries of one client and cluster. */
  ghost predicate OfPair(refs: seq<Entry>, pair: Pair)
  {
    && refs != [] && !pair.IsEmpty()
    && forall i :: 0 <= i < |refs| ==> Insertable(refs[i]) && refs[i].PairOf() == pair
  }

  lemma {:induction false} FilterAppend(a: seq<Entry>, b: seq<Entry>, keep: Entry -> bool)
    ensures Filter(a + b, keep) == Filter(a, keep) + Filter(b, keep)
    decreases |b|
  {
    if b == [] {
      assert a + b == a;
    } else {
      var b' := b[..|b| - 1];
      FilterAppend(a, b', keep);
      assert (a + b)[..|a + b| - 1] == a + b';
    }
  }

  lemma {:induction false} FilterAll(es: seq<Entry>, keep: Entry -> bool)
    requires forall i :: 0 <= i < |es| ==> keep(es[i])
    ensures Filter(es, keep) == es
  {
    if es == [] {
    } else {
      var n := |es| - 1;
      assert es == es[..n] + [es[n]];
      FilterAll(es[..n], keep);
      assert keep(es[n]);
    }
  }

  lemma {:induction false} FilterTwice(es: seq<Entry>, a: Entry -> bool, b: Entry -> bool)
    requires forall e: Entry :: b(e) ==> a(e)
    ensures Filter(Filter(es, a), b) == Filter(es, b)
  {
    if es == [] {
    } else {
      var e := es[|es| - 1];
      FilterTwice(es[..|es| - 1], a, b);
      FilterAppend(Filter(es[..|es| - 1], a), if a(e) then [e] else [], b);
      assert Filter([e], b) == if b(e) then [e] else [] by { assert [e][..0] == []; }
    }
  }

  /** Filtering keeps exactly the entries that satisfy the test. */
  lemma {:induction false} FilterKeys(es: seq<Entry>, keep: Entry -> bool)
    ensures forall e :: e in Filter(es, keep) <==> e in es && keep(e)
    ensures forall k :: k in EntryKeys(Filter(es, keep)) <==> exists e :: e in es && keep(e) && e.Key() == k
  {
    if es == [] {
    } else {
      FilterKeys(es[..|es| - 1], keep);
      assert es == es[..|es| - 1] + [es[|es| - 1]];
    }
    var f := Filter(es, keep);
    forall k
      ensures k in EntryKeys(f) <==> exists e :: e in es && keep(e) && e.Key() == k
    {
      if k in EntryKeys(f) {
        var i :| 0 <= i < |f| && f[i].Key() == k;
        assert f[i] in f;
      }
      if e :| e in es && keep(e) && e.Key() == k {
        assert e in f;
        var i :| 0 <= i < |f| && f[i] == e;
      }
    }
  }

  lemma {:induction false} FilterUserTMO(es: seq<Entry>, keep: Entry -> bool)
    requires UserTMO(es) == None
    ensures UserTMO(Filter(es, keep)) == None
  {
    if es == [] {
    } else {
      var a, e := es[..|es| - 1], es[|es| - 1];
      assert es == a + [e];
      UserTMOAppend(a, [e]);
      FilterUserTMO(a, keep);
      UserTMOAppend(Filter(a, keep), if keep(e) then [e] else []);
    }
  }

  lemma {:induction false} FilterSound(es: seq<Entry>, keep: Entry -> bool, hosts: map<string, string>)
    requires Sound(es, hosts)
    ensures Sound(Filter(es, keep), hosts)
  {
    hide Entries.Sound, Entries.HostIdsFrom, Entries.WellSourced;
    if es != [] {
      var a, e := es[..|es| - 1], es[|es| - 1];
      SoundSplit(es, hosts);
      FilterSound(a, keep, hosts);
      if keep(e) {
        FilterKeys(a, keep);
        assert e.Key() !in EntryKeys(Filter(a, keep)) by {
          if x :| x in a && keep(x) && x.Key() == e.Key() { KeyIn(x, a); }
        }
        if UserTMO(a) == None { FilterUserTMO(a, keep); }
        SoundAppend(Filter(a, keep), e, hosts);
      } else {
        assert Filter(es, keep) == Filter(a, keep);
      }
    } else {
      SoundEmpty(hosts);
    }
  }

  /** Existing among the referrals is having one of their keys. */
  lemma KeptIffKey(refs: seq<Entry>, pair: Pair, e: Entry)
    requires OfPair(refs, pair) && e.persistent
    ensures Kept(refs, pair)(e) <==> e.PairOf() != pair || e.Key() in EntryKeys(refs)
  {
    ExistsIffKey(e, refs);
  }

  ghost predicate SameKeys(adding: seq<Entry>, removing: seq<Entry>)
  {
    EntryKeys(adding) == EntryKeys(removing)
  }

  /** What insertion appends is new and of the referrals' pair. */
  lemma InsertedTail(es: seq<Entry>, adding: seq<Entry>, pair: Pair, hosts: map<string, string>)
    requires Sound(es, hosts) && OfPair(adding, pair)
    ensures var es1 := InsertAll(es, adding, hosts);
            && es <= es1
            && Sound(es1, hosts)
            && EntryKeys(es1) == EntryKeys(es) + EntryKeys(adding)
            && (forall e :: e in es1[|es|..] ==>
                  e.persistent && e.Key() in EntryKeys(adding) && e.Key() !in EntryKeys(es) && e.PairOf() == pair)
  {
    var es1 := InsertAll(es, adding, hosts);
    InsertAllSound(es, adding, hosts);
    InsertAllAppends(es, adding, hosts);
    forall e | e in es1[|es|..]
      ensures e.persistent && e.Key() in EntryKeys(adding) && e.Key() !in EntryKeys(es) && e.PairOf() == pair
    {
      var i :| |es| <= i < |es1| && es1[i] == e;
      assert e.Key() in EntryKeys(es1);
      forall j | 0 <= j < |es| ensures es[j].Key() != e.Key() {
        assert es1[j] == es[j];
      }
      var m :| 0 <= m < |adding| && adding[m].Key() == e.Key();
    }
  }

  /** The entries that stay, in their order, and then the new ones. */
  lemma ReconcileShape(es: seq<Entry>, adding: seq<Entry>, removing: seq<Entry>, pair: Pair, hosts: map<string, string>)
    requires Sound(es, hosts) && OfPair(adding, pair) && OfPair(removing, pair) && SameKeys(adding, removing)
    ensures var es1 := InsertAll(es, adding, hosts);
            && es <= es1
            && Reconcile(es, adding, removing, hosts) == Filter(es1, Kept(removing, pair))
            && Reconcile(es, adding, removing, hosts) == Filter(es, Kept(removing, pair)) + es1[|es|..]
            && Sound(Reconcile(es, adding, removing, hosts), hosts)
  {
    hide Entries.Sound, Entries.InsertAll, Filter, Kept;
    var es1 := InsertAll(es, adding, hosts);
    InsertedTail(es, adding, pair, hosts);
    var tail := es1[|es|..];
    assert es1 == es + tail;
    var keep := Kept(removing, pair);
    forall i | 0 <= i < |tail| ensures keep(tail[i]) {
      assert tail[i] in tail;
      KeptIffKey(removing, pair, tail[i]);
    }
    FilterAll(tail, keep);
    FilterAppend(es, tail, keep);
    FilterSound(es1, keep, hosts);
    assert !Mixed(removing);
  }

  /** Filtering a persistent list by the referrals keeps the keys of other pairs and the referred ones. */
  lemma KeptKeys(es: seq<Entry>, refs: seq<Entry>, pair: Pair)
    requires AllPersistent(es) && OfPair(refs, pair)
    ensures forall e ::
      e in Filter(es, Kept(refs, pair)) <==> e in es && (e.PairOf() != pair || e.Key() in EntryKeys(refs))
    ensures forall k :: k in EntryKeys(Filter(es, Kept(refs, pair)))
                   <==> k in EntryKeys(es) && (KeyPair(k) != pair || k in EntryKeys(refs))
  {
    var keep := Kept(refs, pair);
    FilterKeys(es, keep);
    forall e | e in es ensures keep(e) <==> e.PairOf() != pair || e.Key() in EntryKeys(refs) {
      KeptIffKey(refs, pair, e);
    }
    hide Kept, Filter;
    forall k
      ensures k in EntryKeys(Filter(es, keep)) <==> k in EntryKeys(es) && (KeyPair(k) != pair || k in EntryKeys(refs))
    {
      if k in EntryKeys(Filter(es, keep)) {
        var e :| e in es && keep(e) && e.Key() == k;
        var i :| 0 <= i < |es| && es[i] == e;
      }
      if k in EntryKeys(es) && (KeyPair(k) != pair || k in EntryKeys(refs)) {
        var i :| 0 <= i < |es| && es[i].Key() == k;
        assert es[i] in es && keep(es[i]);
      }
    }
  }

  /** Reconciliation leaves the referral keys for the pair, and every other pair alone. */
  lemma ReconcileKeys(es: seq<Entry>, adding: seq<Entry>, removing: seq<Entry>, pair: Pair, hosts: map<string, string>)
    requires Sound(es, hosts) && OfPair(adding, pair) && OfPair(removing, pair) && SameKeys(adding, removing)
    ensures var after := Reconcile(es, adding, removing, hosts);
            && (forall k :: KeyPair(k) == pair ==> (k in EntryKeys(after) <==> k in EntryKeys(adding)))
            && (forall k :: KeyPair(k) != pair ==> (k in EntryKeys(after) <==> k in EntryKeys(es)))
            && (forall e :: e in es && (e.PairOf() != pair || e.Key() in EntryKeys(adding)) ==> e in after)
  {
    hide Entries.InsertAll, Filter, Kept, Reconcile, Entries.HostIdsFrom, Entries.WellSourced;
    var es1 := InsertAll(es, adding, hosts);
    ReconcileShape(es, adding, removing, pair, hosts);
    InsertedTail(es, adding, pair, hosts);
    KeptKeys(es1, removing, pair);
    RefKeysOfPair(adding, pair);
    assert forall e :: e in es ==> e in es1;
  }

  lemma RefKeysOfPair(refs: seq<Entry>, pair: Pair)
    requires OfPair(refs, pair)
    ensures forall k :: k in EntryKeys(refs) ==> KeyPair(k) == pair
  {
    forall k | k in EntryKeys(refs) ensures KeyPair(k) == pair {
      var i :| 0 <= i < |refs| && refs[i].Key() == k;
    }
  }

  /** The entries of the other pairs are the same list as before. */
  lemma ReconcileOthers(es: seq<Entry>, adding: seq<Entry>, removing: seq<Entry>, pair: Pair,
                        hosts: map<string, string>)
    requires Sound(es, hosts) && OfPair(adding, pair) && OfPair(removing, pair) && SameKeys(adding, removing)
    ensures var others := (e: Entry) => e.PairOf() != pair;
            Filter(Reconcile(es, adding, removing, hosts), others) == Filter(es, others)
  {
    hide Entries.InsertAll, Entries.Sound, Entries.EntryKeys, Filter, Reconcile, OfPair, SameKeys;
    var es1, keep, others := InsertAll(es, adding, hosts), Kept(removing, pair), (e: Entry) => e.PairOf() != pair;
    ReconcileShape(es, adding, removing, pair, hosts);
    InsertedTail(es, adding, pair, hosts);
    FilterTwice(es, keep, others);
    FilterAppend(Filter(es, keep), es1[|es|..], others);
    FilterNone(es1[|es|..], others);
  }

  lemma {:induction false} FilterNone(es: seq<Entry>, keep: Entry -> bool)
    requires forall i :: 0 <= i < |es| ==> !keep(es[i])
    ensures Filter(es, keep) == []
  {
    if es == [] {
    } else {
      FilterNone(es[..|es| - 1], keep);
      assert !keep(es[|es| - 1]);
    }
  }

  /** Insertion appended something exactly when a referral key was new. */
  lemma TailIffNewKey(es: seq<Entry>, adding: seq<Entry>, pair: Pair, hosts: map<string, string>)
    requires Sound(es, hosts) && OfPair(adding, pair)
    ensures InsertAll(es, adding, hosts)[Len(es, adding, hosts)..] == [] <==> EntryKeys(adding) <= EntryKeys(es)
    ensures Pairs(InsertAll(es, adding, hosts)[Len(es, adding, hosts)..])
         == if EntryKeys(adding) <= EntryKeys(es) then {} else {pair}
  {
    hide Entries.InsertAll, Entries.Sound, OfPair;
    var es1, n := InsertAll(es, adding, hosts), Len(es, adding, hosts);
    InsertedTail(es, adding, pair, hosts);
    var tail := es1[n..];
    assert forall i :: 0 <= i < |tail| ==> tail[i] in tail;
    if tail == [] {
      assert es1 == es;
    } else {
      assert tail[0].Key() in EntryKeys(adding) && tail[0].Key() !in EntryKeys(es);
    }
  }

  /** Something of the pair was removed exactly when one of its keys was not referred to. */
  lemma RemovedIffUnreferred(es: seq<Entry>, refs: seq<Entry>, pair: Pair)
    requires AllPersistent(es) && OfPair(refs, pair)
    ensures var stale := set k | k in EntryKeys(es) && KeyPair(k) == pair && k !in EntryKeys(refs);
            Removed(es, refs) == if stale == {} then {} else {pair}
  {
    assert !Mixed(refs);
    var stale := set k | k in EntryKeys(es) && KeyPair(k) == pair && k !in EntryKeys(refs);
    var keep := Kept(refs, pair);
    forall i | 0 <= i < |es| ensures !keep(es[i]) <==> es[i].Key() in stale {
      KeptIffKey(refs, pair, es[i]);
      KeyIn(es[i], es);
    }
    hide Kept;
    if k :| k in stale {
      var i :| 0 <= i < |es| && es[i].Key() == k;
      assert es[i].PairOf() in Removed(es, refs);
    }
  }

  /** The pair is reported exactly when its keys changed, and no other pair ever is. */
  lemma ReportedIffChanged(es: seq<Entry>, adding: seq<Entry>, removing: seq<Entry>, pair: Pair,
                           hosts: map<string, string>)
    requires Sound(es, hosts) && OfPair(adding, pair) && OfPair(removing, pair) && SameKeys(adding, removing)
    ensures Reported(es, adding, removing, hosts)
         == if EntryKeys(Reconcile(es, adding, removing, hosts)) == EntryKeys(es) then {} else {pair}
  {
    assert removing != [];
    hide Entries.InsertAll, Reconcile, Pairs, Removed, OfPair, Entries.EntryKeys, Entries.HostIdsFrom,
         Entries.WellSourced, Entries.Settled;
    var es1 := InsertAll(es, adding, hosts);
    ReconcileKeys(es, adding, removing, pair, hosts);
    InsertedTail(es, adding, pair, hosts);
    RefKeysOfPair(adding, pair);
    TailIffNewKey(es, adding, pair, hosts);
    RemovedIffUnreferred(es1, removing, pair);
    KeysChanged(EntryKeys(es), EntryKeys(adding), EntryKeys(Reconcile(es, adding, removing, hosts)), pair);
    PairNotEmpty(adding, pair);
  }

  lemma PairNotEmpty(refs: seq<Entry>, pair: Pair)
    requires OfPair(refs, pair)
    ensures !pair.IsEmpty()
  {
  }

  lemma KeysChanged(keys: set<TKey>, refs: set<TKey>, after: set<TKey>, pair: Pair)
    requires forall k :: k in refs ==> KeyPair(k) == pair
    requires forall k :: KeyPair(k) == pair ==> (k in after <==> k in refs)
    requires forall k :: KeyPair(k) != pair ==> (k in after <==> k in keys)
    ensures after == keys <==> refs <= keys && (set k | k in keys + refs && KeyPair(k) == pair && k !in refs) == {}
  {
    var stale := set k | k in keys + refs && KeyPair(k) == pair && k !in refs;
    if after == keys {
      assert forall k :: k in stale ==> k in keys && k !in after;
    }
    if refs <= keys && stale == {} {
      assert forall k :: k in keys && KeyPair(k) == pair && k !in refs ==> k in stale;
    }
  }

  lemma {:induction false} InsertAllPresent(es: seq<Entry>, more: seq<Entry>, hosts: map<string, string>)
    requires AllPersistent(es) && forall i :: 0 <= i < |more| ==> more[i].persistent && more[i].Key() in EntryKeys(es)
    ensures InsertAll(es, more, hosts) == es
    decreases |more|
  {
    if more == [] {
    } else {
      ExistsIffKey(more[0], es);
      InsertAllPresent(es, more[1..], hosts);
    }
  }

  lemma NothingToInsert(es: seq<Entry>, adding: seq<Entry>, pair: Pair, hosts: map<string, string>)
    requires Sound(es, hosts) && OfPair(adding, pair)
    requires forall k :: KeyPair(k) == pair ==> (k in EntryKeys(es) <==> k in EntryKeys(adding))
    ensures InsertAll(es, adding, hosts) == es
  {
    hide Entries.InsertAll;
    RefKeysOfPair(adding, pair);
    forall i | 0 <= i < |adding| ensures adding[i].Key() in EntryKeys(es) {
      assert adding[i].Key() in EntryKeys(adding);
    }
    InsertAllPresent(es, adding, hosts);
  }

  lemma NothingToRemove(es: seq<Entry>, removing: seq<Entry>, pair: Pair, hosts: map<string, string>)
    requires Sound(es, hosts) && OfPair(removing, pair)
    requires forall k :: KeyPair(k) == pair ==> (k in EntryKeys(es) <==> k in EntryKeys(removing))
    ensures Filter(es, Kept(removing, pair)) == es && !Mixed(removing)
  {
    hide Filter, Kept;
    forall i | 0 <= i < |es| ensures Kept(removing, pair)(es[i]) {
      KeptIffKey(removing, pair, es[i]);
      assert es[i].Key() in EntryKeys(es);
    }
    FilterAll(es, Kept(removing, pair));
  }

  /** Handling the same referrals again, in any order, changes and reports nothing. */
  lemma ReconcileIdempotent(es: seq<Entry>, adding: seq<Entry>, removing: seq<Entry>,
                            adding': seq<Entry>, removing': seq<Entry>, pair: Pair, hosts: map<string, string>)
    requires Sound(es, hosts) && OfPair(adding, pair) && OfPair(removing, pair) && SameKeys(adding, removing)
    requires OfPair(adding', pair) && OfPair(removing', pair)
    requires SameKeys(adding, adding') && SameKeys(adding, removing')
    ensures var after := Reconcile(es, adding, removing, hosts);
            Reconcile(after, adding', removing', hosts) == after && Reported(after, adding', removing', hosts) == {}
  {
    assert removing != [] && removing' != [];
    hide Entries.Sound, Entries.InsertAll, Entries.EntryKeys, OfPair, Filter, Kept, Reported, Reconcile;
    var after := Reconcile(es, adding, removing, hosts);
    ReconcileShape(es, adding, removing, pair, hosts);
    ReconcileKeys(es, adding, removing, pair, hosts);
    ReconcileSettled(after, adding', removing', pair, hosts);
  }

  /** Referrals to exactly the keys that the pair has change and report nothing. */
  lemma ReconcileSettled(es: seq<Entry>, adding: seq<Entry>, removing: seq<Entry>, pair: Pair,
                         hosts: map<string, string>)
    requires Sound(es, hosts) && OfPair(adding, pair) && OfPair(removing, pair) && SameKeys(adding, removing)
    requires forall k :: KeyPair(k) == pair ==> (k in EntryKeys(es) <==> k in EntryKeys(adding))
    ensures Reconcile(es, adding, removing, hosts) == es && Reported(es, adding, removing, hosts) == {}
  {
    hide Entries.Sound, Entries.InsertAll, Entries.EntryKeys, OfPair, Filter, Kept, Reported, Reconcile;
    NothingToInsert(es, adding, pair, hosts);
    NothingToRemove(es, removing, pair, hosts);
    ReportedIffChanged(es, adding, removing, pair, hosts);
    ReconcileShape(es, adding, removing, pair, hosts);
  }

  const DISC_PORT: int := 8009

  /** The referrals a discovery hands over: those of the log page, and the server that sent it. */
  function WithSelf(refs: seq<ReferralEntry>, k: TKey): (es: seq<Entry>)
    ensures |es| == |refs| + 1
  {
    seq(|refs|, i requires 0 <= i < |refs| => FromReferral(refs[i], KeyPair(k)))
      + [FromReferral(ReferralEntry(k.ip, DISC_PORT), KeyPair(k))]
  }

  /** A connection outlives its own discovery exactly when it is on the discovery port over TCP, or listed. */
  lemma SurvivesOwnDiscovery(es: seq<Entry>, k: TKey, refs: seq<ReferralEntry>, adding: seq<Entry>,
                             removing: seq<Entry>, hosts: map<string, string>)
    requires Sound(es, hosts) && k in EntryKeys(es)
    requires OfPair(adding, KeyPair(k)) && OfPair(removing, KeyPair(k))
    requires SameKeys(adding, removing) && SameKeys(adding, WithSelf(refs, k))
    ensures k in EntryKeys(Reconcile(es, adding, removing, hosts))
       <==> k.transport == "tcp" && (k.port == DISC_PORT || ReferralEntry(k.ip, k.port) in refs)
  {
    ReconcileKeys(es, adding, removing, KeyPair(k), hosts);
    var all := WithSelf(refs, k);
    if k in EntryKeys(all) {
      var i :| 0 <= i < |all| && all[i].Key() == k;
      if i < |refs| { assert refs[i] == ReferralEntry(k.ip, k.port); }
    }
    if k.transport == "tcp" {
      assert k.port == DISC_PORT ==> all[|refs|].Key() == k;
      if ReferralEntry(k.ip, k.port) in refs {
        var i :| 0 <= i < |refs| && refs[i] == ReferralEntry(k.ip, k.port);
        assert all[i].Key() == k;
      }
    }
  }

  /** The entry of a referral, field by field. */
  lemma ReferralFields(r: ReferralEntry, pair: Pair)
    ensures var e := FromReferral(r, pair);
      && e.transport == "tcp" && e.traddr == r.traddr && e.trsvcid == r.trsvcid
      && e.subsysnqn == pair.clusterNqn && e.hostnqn == pair.hostNqn
      && e.persistent && e.source == Referral && e.ctrlLossTMO == None
      && e.hostid == "" && e.hostaddr == "" && e.effectiveHostid == ""
  {
  }
}
