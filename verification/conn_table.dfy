// The table of persistent discovery clients behind the host API.

module ConnTables {
  import opened Decimals
  import opened DiscoverCourses
  import opened Wrappers

  datatype Request = Request(transport: string, traddr: string, trsvcid: int, hostnqn: string, hostaddr: string,
                             kato: int)

  /** Clients are numbered as they are made. */
  datatype ConnInfo = ConnInfo(request: Request, client: nat)

  /** The table, its counter, the outcome for each client made so far, and the clients stopped, in order. */
  datatype State = State(tbl: map<string, ConnInfo>, i: nat, outcomes: seq<Outcome>, stops: seq<nat>)

  function Init(): State { State(map[], 1, [], []) }

  ghost predicate Serves(tbl: map<string, ConnInfo>, id: string, r: Request)
  {
    id in tbl && tbl[id].request == r
  }

  ghost function Find(tbl: map<string, ConnInfo>, r: Request): Option<string>
  {
    if exists id :: Serves(tbl, id, r) then var id :| Serves(tbl, id, r); Some(id) else None
  }

  function Disconnect(s: State, id: string): State
  {
    if id !in s.tbl then s else s.(tbl := s.tbl - {id}, stops := s.stops + [s.tbl[id].client])
  }

  /** A discover over a new client. */
  ghost function Discover(s: State, r: Request, outcome: Outcome): State
  {
    var client := |s.outcomes|;
    var s1 := s.(outcomes := s.outcomes + [outcome]);
    match outcome
    case NoConnection => s1
    case FailedEarly => s1
    case TimedOut => s1.(stops := s.stops + [client])
    case Connected =>
      if r.kato == 0 then s1.(stops := s.stops + [client])
      else
        var found := Find(s.tbl, r);
        var id := if found.Some? then found.value else Print(s.i);
        var t := Disconnect(s1, id);
        t.(tbl := t.tbl[id := ConnInfo(r, client)], i := if found.Some? then s.i else s.i + 1)
  }

  /** Ids are the decimals of 1 to i-1, each request is there once and asks to stay connected. */
  ghost predicate TableOk(s: State)
  {
    && s.i >= 1
    && (forall id :: id in s.tbl ==> Issued(s, id) && s.tbl[id].request.kato != 0)
    && (forall id, id' :: id in s.tbl && id' in s.tbl && s.tbl[id].request == s.tbl[id'].request ==> id == id')
  }

  ghost predicate IsNumber(id: string, k: nat) { id == Print(k) }

  ghost predicate Issued(s: State, id: string)
  {
    exists k: nat :: 1 <= k < s.i && IsNumber(id, k)
  }

  lemma NeverIssued(s: State, k: nat)
    requires TableOk(s) && (k == 0 || k >= s.i)
    ensures Print(k) !in s.tbl
  {
    if Print(k) in s.tbl {
      var j: nat :| 1 <= j < s.i && IsNumber(Print(k), j);
      PrintInjective(j, k);
    }
  }

  class HostApi {
    var connTbl: map<string, ConnInfo>
    var i: nat
    var stops: seq<nat>
    var outcomes: seq<Outcome>

    ghost function Value(): State
      reads this
    {
      State(connTbl, i, outcomes, stops)
    }

    constructor ()
      ensures Value() == Init() && TableOk(Value())
    {
      connTbl, i, stops, outcomes := map[], 1, [], [];
    }

    /** Looks through the table, whose order is not known. */
    method FindClient(r: Request) returns (id: string, found: bool)
      requires TableOk(Value())
      ensures found <==> Find(connTbl, r).Some?
      ensures id == if found then Find(connTbl, r).value else Print(i)
    {
      var rest := connTbl.Keys;
      while rest != {}
        invariant rest <= connTbl.Keys
        invariant forall id :: id in connTbl && id !in rest ==> connTbl[id].request != r
        decreases |rest|
      {
        var cid :| cid in rest;
        if connTbl[cid].request == r {
          assert Serves(connTbl, cid, r);
          return cid, true;
        }
        rest := rest - {cid};
      }
      assert forall id :: !Serves(connTbl, id, r);
      return Print(i), false;
    }

    method DisconnectId(id: string) returns (ok: bool)
      modifies this`connTbl, this`stops
      ensures ok <==> id in old(connTbl)
      ensures Value() == Disconnect(old(Value()), id)
    {
      if id !in connTbl {
        return false;
      }
      var info := connTbl[id];
      connTbl := connTbl - {id};
      stops := stops + [info.client];
      return true;
    }

    /** The new client's own discover: the timer stops a client that is still waiting when it fires. */
    method RunClient(course: Course) returns (client: nat, ok: bool)
      modifies this`outcomes, this`stops
      ensures client == |old(outcomes)| && ok == OutcomeOf(course).Connected?
      ensures outcomes == old(outcomes) + [OutcomeOf(course)]
      ensures stops == old(stops) + if OutcomeOf(course).TimedOut? then [client] else []
    {
      client := |outcomes|;
      var outcome := OutcomeOf(course);
      outcomes := outcomes + [outcome];
      if outcome.TimedOut? {
        stops := stops + [client];
      }
      ok := outcome.Connected?;
    }

    method DiscoverRequest(r: Request, course: Course) returns (id: string)
      requires TableOk(Value())
      modifies this
      ensures Value() == Discover(old(Value()), r, OutcomeOf(course))
      ensures OutcomeOf(course).Connected? && r.kato != 0 ==>
        id in connTbl && connTbl[id] == ConnInfo(r, |old(outcomes)|)
      ensures !(OutcomeOf(course).Connected? && r.kato != 0) ==> id == "0"
    {
      hide OutcomeOf;
      var client, ok := RunClient(course);
      if !ok {
        return "0";
      }
      if r.kato == 0 {
        stops := stops + [client];
        return "0";
      }
      var found;
      id, found := FindClient(r);
      var _ := DisconnectId(id);
      if !found {
        i := i + 1;
      }
      connTbl := connTbl[id := ConnInfo(r, client)];
    }
  }

  ghost predicate HeldBy(s: State, id: string, k: nat) { id in s.tbl && s.tbl[id].client == k }

  ghost predicate InTable(s: State, k: nat)
  {
    exists id :: HeldBy(s, id, k)
  }

  /** Somebody stops the client sooner or later, or the timer already did. */
  predicate Ends(outcome: Outcome) { outcome == Connected || outcome == TimedOut }

  /** Client `k` is in the table or was stopped once, if its discover connected or ran into the timer, and
      neither if not. */
  ghost predicate Fated(s: State, k: nat)
  {
    && multiset(s.stops)[k] + (if InTable(s, k) then 1 else 0)
         == (if k < |s.outcomes| && Ends(s.outcomes[k]) then 1 else 0)
    && (InTable(s, k) ==> s.outcomes[k] == Connected)
  }

  ghost predicate ClientsOk(s: State)
  {
    && (forall k: nat :: Fated(s, k))
    && (forall id, id', k :: HeldBy(s, id, k) && HeldBy(s, id', k) ==> id == id')
  }

  lemma DisconnectClients(s: State, id: string)
    requires ClientsOk(s)
    ensures ClientsOk(Disconnect(s, id))
  {
    var t := Disconnect(s, id);
    if id in s.tbl {
      forall id', k ensures HeldBy(t, id', k) <==> id' != id && HeldBy(s, id', k) {
      }
      assert HeldBy(s, id, s.tbl[id].client);
      forall k: nat ensures Fated(t, k) {
        assert Fated(s, k);
        OthersHeld(s, t, id, k);
      }
    }
  }

  lemma OthersHeld(s: State, t: State, id: string, k: nat)
    requires forall id' :: HeldBy(t, id', k) <==> id' != id && HeldBy(s, id', k)
    requires forall id, id' :: HeldBy(s, id, k) && HeldBy(s, id', k) ==> id == id'
    ensures InTable(t, k) <==> InTable(s, k) && !HeldBy(s, id, k)
  {
    if InTable(s, k) && !HeldBy(s, id, k) {
      var id' :| HeldBy(s, id', k);
      assert HeldBy(t, id', k);
    }
  }

  /** The new client goes into the table under an id that is not there. */
  lemma InsertClients(s: State, t: State, id: string, r: Request)
    requires ClientsOk(s) && id !in s.tbl && t.outcomes == s.outcomes + [Connected] && t.stops == s.stops
    requires t.tbl == s.tbl[id := ConnInfo(r, |s.outcomes|)]
    ensures ClientsOk(t)
  {
    var n := |s.outcomes|;
    forall id' ensures !HeldBy(s, id', n) {
      assert Fated(s, n);
      assert HeldBy(s, id', n) ==> InTable(s, n);
    }
    forall id', k ensures HeldBy(t, id', k) <==> HeldBy(s, id', k) || (id' == id && k == n) {
    }
    forall k: nat ensures Fated(t, k) {
      assert Fated(s, k);
      assert HeldBy(t, id, n);
      if k != n {
        assert InTable(t, k) <==> InTable(s, k) by { assert forall id' :: HeldBy(t, id', k) <==> HeldBy(s, id', k); }
      }
    }
  }

  /** The new client stays out of the table: stopped if somebody ends it, and left alone if not. */
  lemma DropClient(s: State, t: State, outcome: Outcome)
    requires ClientsOk(s) && t.tbl == s.tbl && t.outcomes == s.outcomes + [outcome]
    requires t.stops == s.stops + if Ends(outcome) then [|s.outcomes|] else []
    ensures ClientsOk(t)
  {
    forall id, k ensures HeldBy(t, id, k) <==> HeldBy(s, id, k) {
    }
    forall k: nat ensures Fated(t, k) {
      assert Fated(s, k);
      assert InTable(t, k) <==> InTable(s, k);
    }
  }

  lemma NoneServes(tbl: map<string, ConnInfo>, r: Request)
    requires Find(tbl, r).None?
    ensures forall id :: id in tbl ==> tbl[id].request != r
  {
    forall id | id in tbl ensures tbl[id].request != r {
      assert !Serves(tbl, id, r);
    }
  }

  lemma InsertTable(s: State, t: State, id: string, info: ConnInfo)
    requires TableOk(s) && info.request.kato != 0 && t.tbl == s.tbl[id := info] && s.i <= t.i && Issued(t, id)
    requires forall id' :: id' in s.tbl && id' != id ==> s.tbl[id'].request != info.request
    ensures TableOk(t)
  {
    forall id' | id' in s.tbl ensures Issued(t, id') {
      var k: nat :| 1 <= k < s.i && IsNumber(id', k);
    }
  }

  lemma DiscoverTable(s: State, r: Request, outcome: Outcome)
    requires TableOk(s)
    ensures TableOk(Discover(s, r, outcome))
    ensures outcome.Connected? && r.kato != 0 && Find(s.tbl, r).None? ==> Print(s.i) !in s.tbl
  {
    hide Issued, IsNumber;
    NeverIssued(s, s.i);
    if outcome.Connected? && r.kato != 0 {
      var t := Discover(s, r, outcome);
      var found := Find(s.tbl, r);
      var id := if found.Some? then found.value else Print(s.i);
      if found.None? {
        NoneServes(s.tbl, r);
        NowIssued(t, s.i);
      } else {
        assert Issued(s, id);
        StillIssued(s, t, id);
      }
      hide Find;
      DisconnectTable(s, id);
      InsertTable(Disconnect(s, id), t, id, ConnInfo(r, |s.outcomes|));
    } else {
      SameTable(s, Discover(s, r, outcome));
    }
  }

  lemma NowIssued(t: State, k: nat)
    requires 1 <= k < t.i
    ensures Issued(t, Print(k))
  {
    assert IsNumber(Print(k), k);
  }

  lemma StillIssued(s: State, t: State, id: string)
    requires Issued(s, id) && s.i <= t.i
    ensures Issued(t, id)
  {
    var k: nat :| 1 <= k < s.i && IsNumber(id, k);
  }

  lemma SameTable(s: State, t: State)
    requires TableOk(s) && t.tbl == s.tbl && t.i == s.i
    ensures TableOk(t)
  {
    forall id | id in s.tbl ensures Issued(t, id) { StillIssued(s, t, id); }
  }

  lemma DiscoverClients(s: State, r: Request, outcome: Outcome)
    requires TableOk(s) && ClientsOk(s)
    ensures ClientsOk(Discover(s, r, outcome))
  {
    hide ClientsOk, TableOk;
    var t := Discover(s, r, outcome);
    if outcome.Connected? && r.kato != 0 {
      var found := Find(s.tbl, r);
      var id := if found.Some? then found.value else Print(s.i);
      DisconnectClients(s, id);
      InsertClients(Disconnect(s, id), t, id, r);
    } else {
      DropClient(s, t, outcome);
    }
  }

  lemma DisconnectTable(s: State, id: string)
    requires TableOk(s)
    ensures TableOk(Disconnect(s, id))
  {
    var t := Disconnect(s, id);
    forall id' | id' in t.tbl ensures Issued(t, id') {
      var k: nat :| 1 <= k < s.i && IsNumber(id', k);
    }
  }

  datatype Event = Discovered(r: Request, course: Course) | Disconnected(id: string)

  ghost function Run(evs: seq<Event>): State
  {
    if evs == [] then Init()
    else
      var s := Run(evs[..|evs| - 1]);
      match evs[|evs| - 1]
      case Discovered(r, course) => Discover(s, r, OutcomeOf(course))
      case Disconnected(id) => Disconnect(s, id)
  }

  lemma {:induction false} RunOk(evs: seq<Event>)
    ensures TableOk(Run(evs)) && ClientsOk(Run(evs))
  {
    if evs == [] {
      assert forall k: nat :: Fated(Init(), k);
    } else {
      var s := Run(evs[..|evs| - 1]);
      RunOk(evs[..|evs| - 1]);
      hide TableOk, ClientsOk, Discover, Disconnect, OutcomeOf;
      match evs[|evs| - 1] {
        case Discovered(r, course) =>
          DiscoverTable(s, r, OutcomeOf(course));
          DiscoverClients(s, r, OutcomeOf(course));
        case Disconnected(id) =>
          DisconnectTable(s, id);
          DisconnectClients(s, id);
      }
    }
  }

  /** The outcomes of the discovers of a run, in order. */
  function OutcomesOf(evs: seq<Event>): seq<Outcome>
  {
    if evs == [] then []
    else OutcomesOf(evs[..|evs| - 1]) + if evs[|evs| - 1].Discovered? then [OutcomeOf(evs[|evs| - 1].course)] else []
  }

  lemma {:induction false} OutcomesRecorded(evs: seq<Event>)
    ensures Run(evs).outcomes == OutcomesOf(evs)
  {
    if evs == [] {
    } else {
      OutcomesRecorded(evs[..|evs| - 1]);
    }
  }

  /** A persistent discover of a request that has a client: the new client takes the old one's id, and the old one is
      stopped; nothing else changes. */
  lemma DiscoverReplaces(s: State, id: string, r: Request)
    requires TableOk(s) && id in s.tbl && s.tbl[id].request == r
    ensures Discover(s, r, Connected) ==
      State(s.tbl[id := ConnInfo(r, |s.outcomes|)], s.i, s.outcomes + [Connected], s.stops + [s.tbl[id].client])
  {
    hide Issued;
    assert Serves(s.tbl, id, r);
    assert Find(s.tbl, r) == Some(id);
    assert (s.tbl - {id})[id := ConnInfo(r, |s.outcomes|)] == s.tbl[id := ConnInfo(r, |s.outcomes|)];
  }

  /** A discover of a request that has none: a persistent one gets the next number, and one that is not is stopped
      at once. */
  lemma DiscoverFiles(s: State, r: Request)
    requires TableOk(s) && forall id :: id in s.tbl ==> s.tbl[id].request != r
    ensures Discover(s, r, Connected) ==
      if r.kato == 0 then s.(outcomes := s.outcomes + [Connected], stops := s.stops + [|s.outcomes|])
      else State(s.tbl[Print(s.i) := ConnInfo(r, |s.outcomes|)], s.i + 1, s.outcomes + [Connected], s.stops)
  {
    NeverIssued(s, s.i);
    hide TableOk, Decimals.Print;
    assert forall id :: !Serves(s.tbl, id, r);
  }

  /** In every run the ids in use are decimals below the counter, so the next one is new and "0" is never
      one of them; and a request has at most one client. */
  lemma TableOverRuns(evs: seq<Event>)
    ensures var s := Run(evs);
      && "0" !in s.tbl && Print(s.i) !in s.tbl
      && (forall id :: id in s.tbl ==> exists k: nat :: 1 <= k < s.i && IsNumber(id, k))
      && (forall id, id' :: id in s.tbl && id' in s.tbl && s.tbl[id].request == s.tbl[id'].request ==> id == id')
  {
    RunOk(evs);
    hide Run;
    var s := Run(evs);
    NeverIssued(s, 0);
    assert Print(0) == "0";
    NeverIssued(s, s.i);
  }

  /** In every run the client of the k-th discover was stopped exactly once if it is not in the table and its
      discover connected or ran into the timer, and never otherwise; only connected clients are in the table. */
  lemma ClientsOverRuns(evs: seq<Event>, k: nat)
    requires k < |OutcomesOf(evs)|
    ensures var s := Run(evs);
      && multiset(s.stops)[k] == (if !InTable(s, k) && Ends(OutcomesOf(evs)[k]) then 1 else 0)
      && (InTable(s, k) ==> OutcomesOf(evs)[k] == Connected)
  {
    RunOk(evs);
    OutcomesRecorded(evs);
    hide Run;
    assert Fated(Run(evs), k);
  }

  lemma {:induction false} OutcomesAppend(a: seq<Event>, b: seq<Event>)
    ensures OutcomesOf(a + b) == OutcomesOf(a) + OutcomesOf(b)
    decreases |b|
  {
    if b == [] {
      assert a + b == a;
    } else {
      OutcomesAppend(a, b[..|b| - 1]);
      assert (a + b)[..|a + b| - 1] == a + b[..|b| - 1];
    }
  }

  /** Whatever happened before and whatever follows, a client that has a connection is left running, out of the
      table and never stopped, if and only if its discover leaks at some reply. */
  lemma LeaksIff(before: seq<Event>, r: Request, course: Course, after: seq<Event>)
    requires course.Dialled?
    ensures var evs := before + [Discovered(r, course)] + after;
      var (k, s) := (|OutcomesOf(before)|, Run(evs));
      && k < |OutcomesOf(evs)|
      && (!InTable(s, k) && k !in s.stops <==>
            exists j: nat :: j < |course.commands| + |course.pages| && LeaksAt(course, j))
  {
    hide Run, OutcomesOf, LeaksAt, Prompt, Spent, OutcomeOf;
    var one := [Discovered(r, course)];
    var (evs, k) := (before + one + after, |OutcomesOf(before)|);
    OutcomesAppend(before + one, after);
    OutcomesAppend(before, one);
    OneOutcome(r, course);
    assert OutcomesOf(evs)[k] == OutcomeOf(course);
    ClientsOverRuns(evs, k);
    OutcomeExact(course);
    assert k in Run(evs).stops <==> multiset(Run(evs).stops)[k] > 0;
  }

  lemma OneOutcome(r: Request, course: Course)
    ensures OutcomesOf([Discovered(r, course)]) == [OutcomeOf(course)]
  {
    var one := [Discovered(r, course)];
    assert one[..0] == [];
  }
}
