// Entries of the cache: comparison, insertion, user files, and the stored list.

module Entries {
  import opened Wrappers

  datatype Source = User | Referral | Internal

  datatype TKey = TKey(transport: string, ip: string, port: int, nqn: string, hostnqn: string)

  datatype Pair = Pair(clusterNqn: string, hostNqn: string) {
    predicate IsEmpty() { clusterNqn == "" && hostNqn == "" }
  }

  datatype Entry = Entry(
    transport: string,
    trsvcid: int,
    traddr: string,
    hostnqn: string,
    hostid: string,
    subsysnqn: string,
    persistent: bool,
    hostaddr: string,
    source: Source,
    ctrlLossTMO: Option<int>,
    effectiveHostid: string)
  {
    function Key(): TKey { TKey(transport, traddr, trsvcid, subsysnqn, hostnqn) }

    function PairOf(): Pair { Pair(subsysnqn, hostnqn) }

    predicate Same(other: Entry)
    {
      && traddr == other.traddr
      && persistent == other.persistent
      && hostnqn == other.hostnqn
      && trsvcid == other.trsvcid
      && transport == other.transport
      && subsysnqn == other.subsysnqn
    }

    predicate Verify()
    {
      && |subsysnqn| != 0 && |traddr| != 0 && trsvcid != 0 && |transport| != 0 && |hostnqn| != 0
      && (ctrlLossTMO.Some? ==> ctrlLossTMO.value >= -1)
    }
  }

  function KeyPair(k: TKey): Pair { Pair(k.nqn, k.hostnqn) }

  predicate Exists(e: Entry, es: seq<Entry>)
  {
    exists i :: 0 <= i < |es| && e.Same(es[i])
  }

  function EntryKeys(es: seq<Entry>): (ks: set<TKey>)
  {
    set i | 0 <= i < |es| :: es[i].Key()
  }

  /** The controller loss timeout of the first user entry that has one. */
  function UserTMO(es: seq<Entry>): Option<int>
  {
    if es == [] then None
    else if es[0].source == User && es[0].ctrlLossTMO.Some? then es[0].ctrlLossTMO
    else UserTMO(es[1..])
  }

  function EffectiveHostid(hosts: map<string, string>, e: Entry): string
  {
    var h := if e.hostnqn in hosts then hosts[e.hostnqn] else "";
    if h != "" && h != e.hostid then h else e.effectiveHostid
  }

  /** An entry as it goes into the cache. */
  function Complete(es: seq<Entry>, e: Entry, hosts: map<string, string>): Entry
  {
    var tmo := if e.source == Referral && e.ctrlLossTMO.None? then UserTMO(es) else e.ctrlLossTMO;
    var e' := e.(ctrlLossTMO := tmo);
    e'.(effectiveHostid := EffectiveHostid(hosts, e'))
  }

  function Insert(es: seq<Entry>, e: Entry, hosts: map<string, string>): seq<Entry>
  {
    if Exists(e, es) then es else es + [Complete(es, e, hosts)]
  }

  function InsertAll(es: seq<Entry>, more: seq<Entry>, hosts: map<string, string>): seq<Entry>
    decreases |more|
  {
    if more == [] then es else InsertAll(Insert(es, more[0], hosts), more[1..], hosts)
  }

  function Pairs(es: seq<Entry>): set<Pair>
  {
    set i | 0 <= i < |es| :: es[i].PairOf()
  }

  /** Entries as the parser makes them: verified, from the user, without effective host id. */
  ghost predicate Parsed(es: seq<Entry>)
  {
    forall i :: 0 <= i < |es| ==> es[i].Verify() && es[i].source == User && es[i].effectiveHostid == ""
  }

  function MadePersistent(es: seq<Entry>): (r: seq<Entry>)
    ensures |r| == |es|
  {
    seq(|es|, i requires 0 <= i < |es| => es[i].(persistent := true))
  }

  /** Entries after a user file, which may fail to parse. */
  function AfterFile(es: seq<Entry>, parsed: Option<seq<Entry>>, hosts: map<string, string>): seq<Entry>
  {
    match parsed
    case None => es
    case Some(more) => InsertAll(es, MadePersistent(more), hosts)
  }

  function AfterFiles(es: seq<Entry>, files: seq<Option<seq<Entry>>>, hosts: map<string, string>): seq<Entry>
    decreases |files|
  {
    if files == [] then es else AfterFiles(AfterFile(es, files[0], hosts), files[1..], hosts)
  }

  /** The pairs with entries at index `n` and later. */
  function NewPairs(es: seq<Entry>, n: nat): set<Pair>
  {
    if n <= |es| then Pairs(es[n..]) else {}
  }

  /** Properties of the entries of a running cache. */
  ghost predicate UniqueKeys(es: seq<Entry>)
  {
    forall i, j :: 0 <= i < j < |es| ==> es[i].Key() != es[j].Key()
  }

  ghost predicate AllPersistent(es: seq<Entry>)
  {
    forall i :: 0 <= i < |es| ==> es[i].persistent
  }

  /** A referral without timeout has no user entry with one before it. */
  ghost predicate Settled(es: seq<Entry>)
  {
    forall j :: 0 <= j < |es| && es[j].source == Referral && es[j].ctrlLossTMO.None? ==> UserTMO(es[..j]) == None
  }

  /** Host ids as the table of connected hosts has them. */
  ghost predicate HostIdsFrom(es: seq<Entry>, hosts: map<string, string>)
  {
    forall i :: 0 <= i < |es| ==> es[i].effectiveHostid == EffectiveHostid(hosts, es[i].(effectiveHostid := ""))
  }

  /** Entries that pass verification, except for referrals without address, port or names. */
  ghost predicate WellSourced(es: seq<Entry>)
  {
    forall i :: 0 <= i < |es| ==>
      && |es[i].transport| != 0
      && (es[i].ctrlLossTMO.Some? ==> es[i].ctrlLossTMO.value >= -1)
      && (es[i].Verify() || es[i].source == Referral)
  }

  ghost predicate Sound(es: seq<Entry>, hosts: map<string, string>)
  {
    UniqueKeys(es) && AllPersistent(es) && Settled(es) && HostIdsFrom(es, hosts) && WellSourced(es)
  }

  /** What may be handed to a sound cache: persistent entries, of users verified. */
  ghost predicate Insertable(e: Entry)
  {
    && e.persistent && e.effectiveHostid == "" && |e.transport| != 0
    && (e.ctrlLossTMO.Some? ==> e.ctrlLossTMO.value >= -1)
    && (e.Verify() || e.source == Referral)
  }

  /** In a sound cache, existing means that the key is taken. */
  lemma ExistsIffKey(e: Entry, es: seq<Entry>)
    requires AllPersistent(es) && e.persistent
    ensures Exists(e, es) <==> e.Key() in EntryKeys(es)
  {
    if e.Key() in EntryKeys(es) {
      var i :| 0 <= i < |es| && es[i].Key() == e.Key();
      assert e.Same(es[i]);
    }
  }

  lemma {:induction false} UserTMOAppend(a: seq<Entry>, b: seq<Entry>)
    ensures UserTMO(a + b) == if UserTMO(a).Some? then UserTMO(a) else UserTMO(b)
  {
    if a == [] {
      assert a + b == b;
    } else {
      UserTMOAppend(a[1..], b);
      assert (a + b)[1..] == a[1..] + b;
    }
  }

  lemma {:induction false} UserTMOVerified(es: seq<Entry>)
    requires WellSourced(es)
    ensures UserTMO(es).Some? ==> UserTMO(es).value >= -1
  {
    if es == [] {
    } else {
      UserTMOVerified(es[1..]);
    }
  }

  /** A sound list is a sound list with one more entry that fits. */
  ghost predicate Fits(es: seq<Entry>, e: Entry, hosts: map<string, string>)
  {
    && e.persistent && e.Key() !in EntryKeys(es)
    && (e.source == Referral && e.ctrlLossTMO.None? ==> UserTMO(es) == None)
    && HostIdsFrom([e], hosts) && WellSourced([e])
  }

  lemma SoundSplit(es: seq<Entry>, hosts: map<string, string>)
    requires Sound(es, hosts) && es != []
    ensures Sound(es[..|es| - 1], hosts)
    ensures Fits(es[..|es| - 1], es[|es| - 1], hosts)
  {
    var n := |es| - 1;
    assert forall j :: 0 <= j < n ==> es[..n][..j] == es[..j];
    assert forall i :: 0 <= i < n ==> es[i].Key() != es[n].Key();
  }

  lemma UniqueAppend(es: seq<Entry>, e: Entry)
    requires UniqueKeys(es) && e.Key() !in EntryKeys(es)
    ensures UniqueKeys(es + [e])
  {
    assert forall i :: 0 <= i < |es| ==> (es + [e])[i] == es[i] && es[i].Key() in EntryKeys(es);
  }

  lemma SettledAppend(es: seq<Entry>, e: Entry)
    requires Settled(es) && (e.source == Referral && e.ctrlLossTMO.None? ==> UserTMO(es) == None)
    ensures Settled(es + [e])
  {
    hide UserTMO;
    assert forall i :: 0 <= i < |es| ==> (es + [e])[i] == es[i] && (es + [e])[..i] == es[..i];
    assert (es + [e])[..|es|] == es;
  }

  lemma SourcedAppend(es: seq<Entry>, e: Entry, hosts: map<string, string>)
    requires AllPersistent(es) && HostIdsFrom(es, hosts) && WellSourced(es)
    requires e.persistent && HostIdsFrom([e], hosts) && WellSourced([e])
    ensures AllPersistent(es + [e]) && HostIdsFrom(es + [e], hosts) && WellSourced(es + [e])
  {
    hide EffectiveHostid;
    assert [e][0] == e;
    assert forall i :: 0 <= i < |es| ==> (es + [e])[i] == es[i];
  }

  lemma SoundAppend(es: seq<Entry>, e: Entry, hosts: map<string, string>)
    requires Sound(es, hosts) && Fits(es, e, hosts)
    ensures Sound(es + [e], hosts)
  {
    hide UniqueKeys, AllPersistent, Settled, HostIdsFrom, WellSourced, EntryKeys, UserTMO;
    UniqueAppend(es, e);
    SettledAppend(es, e);
    SourcedAppend(es, e, hosts);
  }

  lemma KeyIn(e: Entry, es: seq<Entry>)
    requires e in es
    ensures e.Key() in EntryKeys(es)
  {
    var i :| 0 <= i < |es| && es[i] == e;
  }

  lemma SoundEmpty(hosts: map<string, string>)
    ensures Sound([], hosts)
  {
  }

  lemma CompleteFits(es: seq<Entry>, e: Entry, hosts: map<string, string>)
    requires Sound(es, hosts) && Insertable(e) && e.Key() !in EntryKeys(es)
    ensures Fits(es, Complete(es, e, hosts), hosts)
  {
    UserTMOVerified(es);
    var e' := Complete(es, e, hosts);
    assert [e'][0] == e' && e'.Key() == e.Key();
  }

  lemma InsertSound(es: seq<Entry>, e: Entry, hosts: map<string, string>)
    requires Sound(es, hosts) && Insertable(e)
    ensures Sound(Insert(es, e, hosts), hosts)
    ensures EntryKeys(Insert(es, e, hosts)) == EntryKeys(es) + {e.Key()}
    ensures Exists(e, es) <==> e.Key() in EntryKeys(es)
  {
    ExistsIffKey(e, es);
    hide Sound, Fits, EntryKeys, Exists;
    if !Exists(e, es) {
      CompleteFits(es, e, hosts);
      SoundAppend(es, Complete(es, e, hosts), hosts);
      KeysAppend(es, Complete(es, e, hosts));
    }
  }

  lemma KeysAppend(es: seq<Entry>, e: Entry)
    ensures EntryKeys(es + [e]) == EntryKeys(es) + {e.Key()}
  {
    var es' := es + [e];
    assert es'[|es|] == e;
    forall k | k in EntryKeys(es) ensures k in EntryKeys(es') {
      var i :| 0 <= i < |es| && es[i].Key() == k;
      assert es'[i].Key() == k;
    }
  }

  lemma PairsAppend(es: seq<Entry>, e: Entry)
    ensures Pairs(es + [e]) == Pairs(es) + {e.PairOf()}
  {
    var es' := es + [e];
    assert es'[|es|] == e;
    forall p | p in Pairs(es) ensures p in Pairs(es') {
      var i :| 0 <= i < |es| && es[i].PairOf() == p;
      assert es'[i].PairOf() == p;
    }
  }

  lemma {:induction false} InsertAllSound(es: seq<Entry>, more: seq<Entry>, hosts: map<string, string>)
    requires Sound(es, hosts) && forall i :: 0 <= i < |more| ==> Insertable(more[i])
    ensures Sound(InsertAll(es, more, hosts), hosts)
    ensures EntryKeys(InsertAll(es, more, hosts)) == EntryKeys(es) + EntryKeys(more)
    decreases |more|
  {
    if more == [] {
    } else {
      InsertSound(es, more[0], hosts);
      InsertAllSound(Insert(es, more[0], hosts), more[1..], hosts);
      KeysHead(more);
    }
  }

  lemma KeysHead(es: seq<Entry>)
    requires es != []
    ensures EntryKeys(es) == {es[0].Key()} + EntryKeys(es[1..])
  {
    forall k | k in EntryKeys(es) ensures k in {es[0].Key()} + EntryKeys(es[1..]) {
      var i :| 0 <= i < |es| && es[i].Key() == k;
      if i > 0 { assert es[1..][i - 1].Key() == k; }
    }
    forall k | k in EntryKeys(es[1..]) ensures k in EntryKeys(es) {
      var i :| 0 <= i < |es[1..]| && es[1..][i].Key() == k;
      assert es[i + 1].Key() == k;
    }
  }

  /** Insertion only appends. */
  lemma {:induction false} InsertAllAppends(es: seq<Entry>, more: seq<Entry>, hosts: map<string, string>)
    ensures es <= InsertAll(es, more, hosts)
    decreases |more|
  {
    if more == [] {
    } else {
      InsertAllAppends(Insert(es, more[0], hosts), more[1..], hosts);
    }
  }

  // Starting from a stored list.

  ghost predicate FlagsAgree(es: seq<Entry>)
  {
    forall i, j :: 0 <= i < |es| && 0 <= j < |es| && es[i].Key() == es[j].Key() ==> es[i].persistent == es[j].persistent
  }

  lemma FlagsAgreeSkip(es: seq<Entry>, e: Entry, rest: seq<Entry>)
    requires Exists(e, es)
    ensures FlagsAgree(es + [e] + rest) <==> FlagsAgree(es + rest)
  {
    var m :| 0 <= m < |es| && e.Same(es[m]);
    var a, b := es + [e] + rest, es + rest;
    if FlagsAgree(b) {
      forall i, j | 0 <= i < |a| && 0 <= j < |a| && a[i].Key() == a[j].Key()
        ensures a[i].persistent == a[j].persistent
      {
        var i' := if i < |es| then i else if i == |es| then m else i - 1;
        var j' := if j < |es| then j else if j == |es| then m else j - 1;
        assert b[i'].Key() == a[i].Key() && b[j'].Key() == a[j].Key();
        assert b[i'].persistent == a[i].persistent && b[j'].persistent == a[j].persistent;
      }
    }
    if FlagsAgree(a) {
      forall i, j | 0 <= i < |b| && 0 <= j < |b| && b[i].Key() == b[j].Key()
        ensures b[i].persistent == b[j].persistent
      {
        var i' := if i < |es| then i else i + 1;
        var j' := if j < |es| then j else j + 1;
        assert a[i'] == b[i] && a[j'] == b[j];
      }
    }
  }

  lemma FlagsAgreeSwap(es: seq<Entry>, e: Entry, e': Entry, rest: seq<Entry>)
    requires e.Key() == e'.Key() && e.persistent == e'.persistent
    ensures FlagsAgree(es + [e] + rest) ==> FlagsAgree(es + [e'] + rest)
  {
    var a, b := es + [e] + rest, es + [e'] + rest;
    assert forall i :: 0 <= i < |a| ==> a[i].Key() == b[i].Key() && a[i].persistent == b[i].persistent;
  }

  /** Keys stay unique exactly when the list never gives one key two different persistence flags. */
  lemma {:induction false} UniqueIffFlagsAgree(es: seq<Entry>, more: seq<Entry>, hosts: map<string, string>)
    requires UniqueKeys(es)
    ensures UniqueKeys(InsertAll(es, more, hosts)) <==> FlagsAgree(es + more)
    decreases |more|
  {
    if more == [] {
      assert es + more == es;
    } else {
      var e, rest := more[0], more[1..];
      assert es + more == es + [e] + rest;
      if Exists(e, es) {
        FlagsAgreeSkip(es, e, rest);
        UniqueIffFlagsAgree(es, rest, hosts);
      } else {
        var e' := Complete(es, e, hosts);
        var es' := es + [e'];
        if i :| 0 <= i < |es| && es[i].Key() == e.Key() {
          InsertAllAppends(es', rest, hosts);
          var all := InsertAll(es', rest, hosts);
          assert all[i] == es'[i] && all[|es|] == es'[|es|];
          assert !UniqueKeys(all);
          var joined := es + [e] + rest;
          assert joined[i].Key() == joined[|es|].Key();
          assert !e.Same(es[i]);
        } else {
          UniqueIffFlagsAgree(es', rest, hosts);
          FlagsAgreeSwap(es, e, e', rest);
          FlagsAgreeSwap(es, e', e, rest);
        }
      }
    }
  }

  /** The stored form of the entries: the effective host id is not written. */
  function Stored(es: seq<Entry>): (r: seq<Entry>)
    ensures |r| == |es|
  {
    seq(|es|, i requires 0 <= i < |es| => es[i].(effectiveHostid := ""))
  }

  function Rehosted(es: seq<Entry>, hosts: map<string, string>): (r: seq<Entry>)
    ensures |r| == |es|
  {
    seq(|es|, i requires 0 <= i < |es| =>
      es[i].(effectiveHostid := EffectiveHostid(hosts, es[i].(effectiveHostid := ""))))
  }

  lemma {:induction false} UserTMORehosted(es: seq<Entry>, hosts: map<string, string>)
    ensures UserTMO(Rehosted(es, hosts)) == UserTMO(es)
  {
    if es == [] {
    } else {
      UserTMORehosted(es[1..], hosts);
      assert Rehosted(es, hosts)[1..] == Rehosted(es[1..], hosts);
    }
  }

  lemma {:induction false} InsertStored(es: seq<Entry>, k: nat, before: map<string, string>, hosts: map<string, string>)
    requires Sound(es, before) && k <= |es|
    ensures InsertAll(Rehosted(es[..k], hosts), Stored(es)[k..], hosts) == Rehosted(es, hosts)
    decreases |es| - k
  {
    if k == |es| {
      assert es[..k] == es;
    } else {
      var done, e := Rehosted(es[..k], hosts), Stored(es)[k];
      forall i | 0 <= i < |done| ensures !e.Same(done[i]) {
        assert es[i].Key() != es[k].Key();
      }
      UserTMORehosted(es[..k], hosts);
      assert Rehosted(es[..k + 1], hosts) == done + [Complete(done, e, hosts)];
      assert Stored(es)[k..][1..] == Stored(es)[k + 1..];
      InsertStored(es, k + 1, before, hosts);
    }
  }

  /** A restart from the stored list rebuilds the same entries in the same order; with the same hosts,
      to the letter. */
  lemma RestartExact(es: seq<Entry>, before: map<string, string>, hosts: map<string, string>)
    requires Sound(es, before)
    ensures InsertAll([], Stored(es), hosts) == Rehosted(es, hosts)
    ensures hosts == before ==> InsertAll([], Stored(es), hosts) == es
    ensures Stored(Rehosted(es, hosts)) == Stored(es)
    ensures Sound(Rehosted(es, hosts), hosts)
    ensures EntryKeys(Rehosted(es, hosts)) == EntryKeys(es)
  {
    InsertStored(es, 0, before, hosts);
    assert Rehosted(es[..0], hosts) == [];
    assert Stored(es)[0..] == Stored(es);
    var es' := Rehosted(es, hosts);
    forall j | 0 <= j < |es| && es'[j].source == Referral && es'[j].ctrlLossTMO.None?
      ensures UserTMO(es'[..j]) == None
    {
      UserTMORehosted(es[..j], hosts);
      assert es'[..j] == Rehosted(es[..j], hosts);
    }
    assert forall i :: 0 <= i < |es| ==> es'[i].Key() == es[i].Key();
  }

  /** The stored list is accepted at start exactly when every referral had an address, a port and names. */
  lemma RestartAccepted(es: seq<Entry>, hosts: map<string, string>)
    requires Sound(es, hosts)
    ensures (forall i :: 0 <= i < |es| ==> Stored(es)[i].Verify())
       <==> (forall i :: 0 <= i < |es| && es[i].source == Referral ==>
               es[i].traddr != "" && es[i].trsvcid != 0 && es[i].subsysnqn != "" && es[i].hostnqn != "")
  {
    assert forall i :: 0 <= i < |es| ==> Stored(es)[i].Verify() == es[i].Verify();
  }

  /** The timeout of users, without recursion: that of the first user entry that has one. */
  lemma {:induction false} UserTMOIs(es: seq<Entry>)
    ensures UserTMO(es).None? <==> forall i :: 0 <= i < |es| ==> es[i].source != User || es[i].ctrlLossTMO == None
    ensures forall i :: 0 <= i < |es| && FirstTMO(es, i) ==> UserTMO(es) == es[i].ctrlLossTMO
  {
    if es == [] {
    } else {
      UserTMOIs(es[1..]);
      assert forall i :: 0 < i < |es| ==> es[i] == es[1..][i - 1];
      forall i | 0 < i < |es| && FirstTMO(es, i) ensures FirstTMO(es[1..], i - 1) {
        assert forall j :: 0 <= j < i - 1 ==> es[1..][j] == es[j + 1];
      }
    }
  }

  /** Entry `i` is the first of a user with a timeout. */
  ghost predicate FirstTMO(es: seq<Entry>, i: nat)
    requires i < |es|
  {
    && es[i].source == User && es[i].ctrlLossTMO.Some?
    && forall j :: 0 <= j < i ==> es[j].source != User || es[j].ctrlLossTMO == None
  }

  /** An entry as it is added, field by field: a referral without timeout takes the users', and the host id is that of
      the connected host if it has another one. */
  lemma AddedFields(es: seq<Entry>, e: Entry, hosts: map<string, string>)
    requires !Exists(e, es) && e.effectiveHostid == ""
    ensures var host := if e.hostnqn in hosts && hosts[e.hostnqn] != e.hostid then hosts[e.hostnqn] else "";
      Insert(es, e, hosts) == es + [e.(
        ctrlLossTMO := if e.source == Referral && e.ctrlLossTMO == None then UserTMO(es) else e.ctrlLossTMO,
        effectiveHostid := host)]
  {
  }
}
