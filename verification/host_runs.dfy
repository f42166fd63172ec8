// Matching of requests and responses over every run of the host's queue.

module HostRuns {
  import opened Bytes
  import opened HostQueues
  import opened Wrappers

  predicate Answers(p: Pdu, id: u16) { p.Rsp? && p.cqe.id == id }

  /** No response for `id` among the PDUs. */
  predicate Quiet(pdus: seq<Pdu>, id: u16)
  {
    forall j :: 0 <= j < |pdus| ==> !Answers(pdus[j], id)
  }

  /** The data of the last data PDU for `id`. */
  function LastData(pdus: seq<Pdu>, id: u16): Option<seq<byte>>
  {
    if pdus == [] then None
    else
      var p := pdus[|pdus| - 1];
      if p.Data? && p.id == id then Some(Stored(p.payload, p.len)) else LastData(pdus[..|pdus| - 1], id)
  }

  /** Still waiting: no response since it was sent, and the data that came since. */
  ghost predicate Waits(pdus: seq<Pdu>, id: u16, r: Request)
  {
    && r.id == id && r.completion == None && r.sentAt <= |pdus|
    && Quiet(pdus[r.sentAt..], id)
    && r.data == LastData(pdus[r.sentAt..], id)
  }

  /** Answered: by the first response with its id since it was sent, with the data that came before. */
  ghost predicate AnsweredAt(pdus: seq<Pdu>, r: Request, k: nat)
  {
    && r.sentAt <= k < |pdus| && r.completion.Some?
    && pdus[k] == Rsp(r.completion.value) && r.completion.value.id == r.id
    && Quiet(pdus[r.sentAt..k], r.id)
    && r.data == LastData(pdus[r.sentAt..k], r.id)
  }

  ghost predicate Answered(pdus: seq<Pdu>, r: Request)
  {
    exists k: nat :: AnsweredAt(pdus, r, k)
  }

  ghost predicate Matched(s: State)
  {
    && (forall id :: id in s.outstanding ==> Waits(s.pdus, id, s.outstanding[id]))
    && (forall i :: 0 <= i < |s.completed| ==> Answered(s.pdus, s.completed[i]) && s.completed[i].kind != Async)
    && (forall i :: 0 <= i < |s.aens| ==> Answered(s.pdus, s.aens[i]) && s.aens[i].kind == Async)
  }

  lemma WaitsMore(pdus: seq<Pdu>, id: u16, r: Request, p: Pdu)
    requires Waits(pdus, id, r) && !Answers(p, id)
    ensures Waits(pdus + [p], id,
                  if p.Data? && p.id == id then r.(data := Some(Stored(p.payload, p.len))) else r)
  {
    hide Stored;
    assert (pdus + [p])[r.sentAt..] == pdus[r.sentAt..] + [p];
    assert (pdus[r.sentAt..] + [p])[..|pdus| - r.sentAt] == pdus[r.sentAt..];
  }

  lemma NowAnswered(pdus: seq<Pdu>, id: u16, r: Request, c: Cqe)
    requires Waits(pdus, id, r) && c.id == id
    ensures Answered(pdus + [Rsp(c)], r.(completion := Some(c)))
  {
    assert (pdus + [Rsp(c)])[r.sentAt..|pdus|] == pdus[r.sentAt..];
    assert AnsweredAt(pdus + [Rsp(c)], r.(completion := Some(c)), |pdus|);
  }

  lemma StillAnswered(pdus: seq<Pdu>, r: Request, p: Pdu)
    requires Answered(pdus, r)
    ensures Answered(pdus + [p], r)
  {
    var k: nat :| AnsweredAt(pdus, r, k);
    assert (pdus + [p])[r.sentAt..k] == pdus[r.sentAt..k];
    assert AnsweredAt(pdus + [p], r, k);
  }

  lemma ReceiveMatched(s: State, p: Pdu)
    requires Matched(s)
    ensures Matched(Receive(s, p))
  {
    hide Waits, Answered, Stored;
    if s.live {
      var t := Receive(s, p);
      forall id | id in s.outstanding && !Answers(p, id)
        ensures id in t.outstanding && Waits(t.pdus, id, t.outstanding[id])
      {
        WaitsMore(s.pdus, id, s.outstanding[id], p);
      }
      if p.Rsp? && p.cqe.id in s.outstanding {
        NowAnswered(s.pdus, p.cqe.id, s.outstanding[p.cqe.id], p.cqe);
      }
      forall i | 0 <= i < |s.completed| ensures Answered(t.pdus, s.completed[i]) {
        StillAnswered(s.pdus, s.completed[i], p);
      }
      forall i | 0 <= i < |s.aens| ensures Answered(t.pdus, s.aens[i]) {
        StillAnswered(s.pdus, s.aens[i], p);
      }
    }
  }

  lemma SendMatched(s: State, kind: Kind, flushed: bool)
    requires Matched(s)
    ensures Matched(SendRequest(s, kind, flushed))
  {
    var t := SendRequest(s, kind, flushed);
    var id := if kind == KeepAlive then 0 else s.commandId;
    if !s.broken {
      assert Waits(t.pdus, id, t.outstanding[id]) by { assert t.pdus[|s.pdus|..] == []; }
    }
    hide Waits, Answered;
    forall id' | id' in t.outstanding ensures Waits(t.pdus, id', t.outstanding[id']) {
      if s.broken || id' != id { assert t.outstanding[id'] == s.outstanding[id']; }
    }
  }

  function Serials(rs: seq<Request>): multiset<nat>
  {
    if rs == [] then multiset{} else Serials(rs[..|rs| - 1]) + multiset{rs[|rs| - 1].serial}
  }

  lemma SerialsSnoc(rs: seq<Request>, r: Request)
    ensures Serials(rs + [r]) == Serials(rs) + multiset{r.serial}
  {
    assert (rs + [r])[..|rs|] == rs;
  }

  ghost predicate HeldAs(s: State, id: u16, k: nat) { id in s.outstanding && s.outstanding[id].serial == k }

  ghost predicate IsOutstanding(s: State, k: nat)
  {
    exists id :: HeldAs(s, id, k)
  }

  /** How often request `k` has left the table. */
  function Departures(s: State, k: nat): nat
  {
    Serials(s.completed)[k] + Serials(s.aens)[k] + Serials(s.lost)[k]
  }

  /** Request `k` is in exactly one place once it was sent. */
  ghost predicate Placed(s: State, k: nat)
  {
    Departures(s, k) + (if IsOutstanding(s, k) then 1 else 0) == if k < s.sent then 1 else 0
  }

  ghost predicate Conserved(s: State)
  {
    && (forall k: nat :: Placed(s, k))
    && (forall id, id', k :: HeldAs(s, id, k) && HeldAs(s, id', k) ==> id == id')
  }

  lemma SendConserved(s: State, id: u16, kind: Kind)
    requires Conserved(s)
    ensures Conserved(Send(s, id, kind))
  {
    var t := Send(s, id, kind);
    forall id' ensures HeldAs(t, id', s.sent) <==> id' == id {
      assert Placed(s, s.sent);
      assert HeldAs(s, id', s.sent) ==> IsOutstanding(s, s.sent);
    }
    forall id', k | k != s.sent ensures HeldAs(t, id', k) <==> id' != id && HeldAs(s, id', k) {
    }
    forall k: nat ensures Placed(t, k) {
      assert Placed(s, k);
      if id in s.outstanding {
        SerialsSnoc(s.lost, s.outstanding[id]);
        assert HeldAs(s, id, s.outstanding[id].serial);
      } else {
        assert t.lost == s.lost;
      }
      assert HeldAs(t, id, s.sent);
      if k != s.sent { OthersStay(s, t, id, k); }
    }
  }

  lemma OthersStay(s: State, t: State, id: u16, k: nat)
    requires forall id' :: HeldAs(t, id', k) <==> id' != id && HeldAs(s, id', k)
    requires forall id, id' :: HeldAs(s, id, k) && HeldAs(s, id', k) ==> id == id'
    ensures IsOutstanding(t, k) <==> IsOutstanding(s, k) && !HeldAs(s, id, k)
  {
    if IsOutstanding(s, k) && !HeldAs(s, id, k) {
      var id' :| HeldAs(s, id', k);
      assert HeldAs(t, id', k);
    }
  }

  lemma DeliverConserved(s: State, t: State, id: u16, r: Request)
    requires Conserved(s) && HeldAs(s, id, r.serial)
    requires t.outstanding == s.outstanding - {id} && t.sent == s.sent && t.lost == s.lost
    requires (t.completed == s.completed + [r] && t.aens == s.aens)
        || (t.completed == s.completed && t.aens == s.aens + [r])
    ensures Conserved(t)
  {
    SerialsSnoc(s.completed, r);
    SerialsSnoc(s.aens, r);
    hide Serials;
    forall id', k ensures HeldAs(t, id', k) <==> id' != id && HeldAs(s, id', k) {
    }
    forall k: nat ensures Placed(t, k) {
      assert Placed(s, k);
      OthersStay(s, t, id, k);
    }
  }

  lemma SameConserved(s: State, t: State)
    requires Conserved(s) && t.sent == s.sent && t.completed == s.completed && t.aens == s.aens && t.lost == s.lost
    requires forall id, k :: HeldAs(t, id, k) <==> HeldAs(s, id, k)
    ensures Conserved(t)
  {
    forall k: nat ensures Placed(t, k) {
      assert Placed(s, k);
      assert IsOutstanding(t, k) <==> IsOutstanding(s, k);
    }
  }

  lemma ReceiveConserved(s: State, p: Pdu)
    requires Conserved(s)
    ensures Conserved(Receive(s, p))
  {
    hide Stored, Conserved;
    var t := Receive(s, p);
    if s.live && p.Rsp? && p.cqe.id in s.outstanding {
      DeliverConserved(s, t, p.cqe.id, s.outstanding[p.cqe.id].(completion := Some(p.cqe)));
    } else {
      SameConserved(s, t);
    }
  }

  /** As long as the ids have not come round: they are given out in order and 0 is left to keep-alive. */
  ghost predicate Fresh(s: State)
  {
    s.taken < U16 ==>
      && (forall id :: id in s.outstanding ==> id <= s.taken && (id == 0 <==> s.outstanding[id].kind == KeepAlive))
      && (forall i :: 0 <= i < |s.lost| ==> s.lost[i].kind == KeepAlive)
  }

  ghost predicate Inv(s: State)
  {
    Matched(s) && Conserved(s) && Fresh(s) && s.commandId == (1 + s.taken) % U16
  }

  lemma SendFresh(s: State, kind: Kind, flushed: bool)
    requires Fresh(s) && s.commandId == (1 + s.taken) % U16
    ensures Fresh(SendRequest(s, kind, flushed))
  {
    var t := SendRequest(s, kind, flushed);
    var id := if kind == KeepAlive then 0 else s.commandId;
    if t.taken < U16 {
      assert kind != KeepAlive ==> id == t.taken && id !in s.outstanding;
      assert id in s.outstanding ==> s.outstanding[id].kind == KeepAlive;
    }
  }

  lemma ReceiveFresh(s: State, p: Pdu)
    requires Fresh(s)
    ensures Fresh(Receive(s, p))
  {
    hide Stored;
    var t := Receive(s, p);
    assert t.lost == s.lost && t.taken == s.taken;
    forall id | id in t.outstanding ensures id in s.outstanding && t.outstanding[id].kind == s.outstanding[id].kind {
    }
  }

  lemma SendInv(s: State, kind: Kind, flushed: bool)
    requires Inv(s)
    ensures Inv(SendRequest(s, kind, flushed))
  {
    hide Matched, Conserved, Fresh, Send;
    SendMatched(s, kind, flushed);
    SendFresh(s, kind, flushed);
    AllocateInv(s);
    var (id, t) := if kind == KeepAlive then (0, s) else (s.commandId, Allocate(s));
    SendConserved(t, id, kind);
    BrokenConserved(Send(t, id, kind), !flushed);
    SendKeepsIds(s, kind, flushed);
  }

  lemma BrokenConserved(s: State, broken: bool)
    requires Conserved(s)
    ensures Conserved(s.(broken := broken))
  {
    SameConserved(s, s.(broken := broken));
  }

  lemma SendKeepsIds(s: State, kind: Kind, flushed: bool)
    requires s.commandId == (1 + s.taken) % U16
    ensures var t := SendRequest(s, kind, flushed); t.commandId == (1 + t.taken) % U16
  {
  }

  lemma AllocateInv(s: State)
    requires Inv(s)
    ensures Inv(Allocate(s))
  {
    SameConserved(s, Allocate(s));
    hide Conserved, Waits, Answered;
  }

  lemma ReceiveInv(s: State, p: Pdu)
    requires Inv(s)
    ensures Inv(Receive(s, p))
  {
    hide Matched, Conserved, Fresh, Stored;
    ReceiveMatched(s, p);
    ReceiveConserved(s, p);
    ReceiveFresh(s, p);
  }

  lemma {:induction false} RunInv(evs: seq<Event>)
    ensures Inv(Run(evs))
  {
    if evs == [] {
      assert forall k: nat :: Placed(Init(), k);
    } else {
      var s := Run(evs[..|evs| - 1]);
      RunInv(evs[..|evs| - 1]);
      hide Inv, SendRequest, Receive;
      match evs[|evs| - 1] {
        case Sent(kind, flushed) => SendInv(s, kind, flushed);
        case Received(p) => ReceiveInv(s, p);
      }
    }
  }

  /** In every run each sent request is in the table, in one of the channels or overwritten, and in one
      place only; what a channel got carries its own completion and data, and Async Events have their
      own channel. */
  lemma Matching(evs: seq<Event>)
    ensures var s := Run(evs);
      && (forall k: nat :: k < s.sent ==> Departures(s, k) == if IsOutstanding(s, k) then 0 else 1)
      && (forall k: nat :: k >= s.sent ==> Departures(s, k) == 0 && !IsOutstanding(s, k))
    ensures var s := Run(evs);
      && (forall i :: 0 <= i < |s.completed| ==> Answered(s.pdus, s.completed[i]) && s.completed[i].kind != Async)
      && (forall i :: 0 <= i < |s.aens| ==> Answered(s.pdus, s.aens[i]) && s.aens[i].kind == Async)
      && (forall id :: id in s.outstanding ==> Waits(s.pdus, id, s.outstanding[id]))
  {
    RunInv(evs);
    hide Run, Departures, IsOutstanding, Waits, Answered;
    var s := Run(evs);
    forall k: nat ensures Departures(s, k) + (if IsOutstanding(s, k) then 1 else 0) == if k < s.sent then 1 else 0 {
      assert Placed(s, k);
    }
  }

  /** Up to 65535 ids, no request but a keep-alive is ever overwritten, and 0 is only keep-alive's. */
  lemma IdsStayApart(evs: seq<Event>)
    requires Run(evs).taken < U16
    ensures var s := Run(evs);
      && (forall i :: 0 <= i < |s.lost| ==> s.lost[i].kind == KeepAlive)
      && (forall id :: id in s.outstanding ==> (id == 0 <==> s.outstanding[id].kind == KeepAlive))
      && (forall k: nat :: k < s.sent && !IsOutstanding(s, k) && Serials(s.lost)[k] == 0 ==>
            Serials(s.completed)[k] + Serials(s.aens)[k] == 1)
  {
    RunInv(evs);
    Matching(evs);
  }

  /** Sending in any reachable state loses a request exactly when the writer is intact and the next id is
      still in the table. */
  lemma OverwrittenIff(evs: seq<Event>, kind: Kind, flushed: bool)
    ensures var (s, t) := (Run(evs), Run(evs + [Sent(kind, flushed)]));
      t.lost != s.lost <==> !s.broken && (if kind == KeepAlive then 0 else (1 + s.taken) % U16) in s.outstanding
  {
    RunInv(evs);
    RunSnoc(evs, Sent(kind, flushed));
    hide Run, Matched, Conserved;
  }

  /** A PDU for an id that is not in the table changes nothing, but an error status ends the receive loop. */
  lemma UnknownIds(s: State, p: Pdu)
    requires s.live && !p.IcResp? && (if p.Rsp? then p.cqe.id else p.id) !in s.outstanding
    ensures Receive(s, p).(live := true, pdus := s.pdus) == s
    ensures Receive(s, p).live <==> p.Data? || p.cqe.status == 0
  {
  }

  lemma RunSnoc(evs: seq<Event>, e: Event)
    ensures Run(evs + [e]) == Step(Run(evs), e)
  {
    assert (evs + [e])[..|evs|] == evs;
  }

  lemma NoEvents()
    ensures Run([]) == Init()
  {
  }

  /** A PDU that ends the receive loop: a bad initialisation, an error for an id that nobody waits for, or more
      data than announced. */
  predicate Ends(s: State, p: Pdu)
  {
    match p
    case IcResp(pfv, cpda) => pfv != 0 || cpda != 0
    case Rsp(cqe) => cqe.id !in s.outstanding && cqe.status != 0
    case Data(id, len, payload) => id in s.outstanding && |payload| > len
  }

  /** Event `n` of the run ended the loop. */
  ghost predicate EndedAt(evs: seq<Event>, n: nat)
  {
    n < |evs| && evs[n].Received? && Run(evs[..n]).live && Ends(Run(evs[..n]), evs[n].p)
  }

  lemma LiveStep(s: State, e: Event)
    ensures Step(s, e).live <==> s.live && !(e.Received? && Ends(s, e.p))
  {
    hide Stored;
  }

  /** The receive loop has ended exactly when some PDU of the run ended it. */
  lemma {:induction false} EndedIff(evs: seq<Event>)
    ensures !Run(evs).live <==> exists n: nat :: EndedAt(evs, n)
  {
    hide Step, Ends;
    if evs == [] {
    } else {
      var (n, rest) := (|evs| - 1, evs[..|evs| - 1]);
      EndedIff(rest);
      LiveStep(Run(rest), evs[n]);
      if k: nat :| EndedAt(rest, k) {
        assert rest[..k] == evs[..k];
        assert EndedAt(evs, k);
      }
      if k: nat :| EndedAt(evs, k) {
        assert k < n ==> rest[..k] == evs[..k];
        assert k < n ==> EndedAt(rest, k);
      }
      if Run(rest).live && evs[n].Received? && Ends(Run(rest), evs[n].p) { assert EndedAt(evs, n); }
    }
  }

  /** Nothing was read or delivered in between, and what waited still waits or was overwritten. */
  ghost predicate OnlySent(s: State, t: State)
  {
    && !t.live && t.pdus == s.pdus && t.completed == s.completed && t.aens == s.aens && s.lost <= t.lost
    && forall id :: id in s.outstanding ==>
         (id in t.outstanding && t.outstanding[id] == s.outstanding[id]) || s.outstanding[id] in t.lost
  }

  lemma OnlySentStep(s: State, t: State, e: Event)
    requires OnlySent(s, t)
    ensures OnlySent(s, Step(t, e))
  {
    var u := Step(t, e);
    assert t.lost <= u.lost;
    forall r | r in t.lost ensures r in u.lost {
      var i :| 0 <= i < |t.lost| && t.lost[i] == r;
      assert u.lost[i] == r;
    }
    forall id | id in t.outstanding && !(id in u.outstanding && u.outstanding[id] == t.outstanding[id])
      ensures t.outstanding[id] in u.lost
    {
      assert u.lost[|t.lost|] == t.outstanding[id];
    }
  }

  /** Once the loop has ended, whatever follows, nothing is delivered, and a request that waits goes on waiting
      until it is overwritten. */
  lemma {:induction false} EndedForGood(evs: seq<Event>, after: seq<Event>)
    requires !Run(evs).live
    ensures OnlySent(Run(evs), Run(evs + after))
    decreases |after|
  {
    if after == [] {
      assert evs + after == evs;
    } else {
      hide Run, OnlySent, Step;
      var (rest, e) := (after[..|after| - 1], after[|after| - 1]);
      EndedForGood(evs, rest);
      assert evs + after == evs + rest + [e];
      RunSnoc(evs + rest, e);
      OnlySentStep(Run(evs), Run(evs + rest), e);
    }
  }

  /** An Async Event that stays unanswered, and `n` requests after it, each answered before the next. */
  function Rounds(n: nat): seq<Event>
  {
    if n == 0 then [Sent(Async, true)]
    else Rounds(n - 1) + [Sent(Normal, true), Received(Rsp(Cqe((1 + n) % U16, 0)))]
  }

  /** What such a run comes to: the Async Event alone in the table, under id 1. */
  ghost predicate OnlyAsync(s: State, n: nat)
  {
    && s.outstanding == map[1 := Request(0, 0, 1, Async, None, None)]
    && s.taken == n + 1 && s.sent == n + 1 && s.commandId == (n + 2) % U16
    && s.live && !s.broken && s.lost == [] && s.aens == [] && |s.completed| == n
  }

  lemma OneRound(s: State, n: nat)
    requires OnlyAsync(s, n) && n + 1 < U16
    ensures var t := SendRequest(s, Normal, true);
      && t.lost == [] && (n + 2) % U16 in t.outstanding && t.outstanding[(n + 2) % U16].kind == Normal
      && OnlyAsync(Receive(t, Rsp(Cqe((n + 2) % U16, 0))), n + 1)
  {
    var id: u16 := (n + 2) % U16;
    assert id != 1 && id == s.commandId;
    var t := SendRequest(s, Normal, true);
    assert t.outstanding - {id} == s.outstanding;
  }

  lemma {:induction false} RoundsRun(n: nat)
    requires n < U16
    ensures OnlyAsync(Run(Rounds(n)), n)
  {
    hide Run, OnlyAsync, SendRequest, Receive;
    NoEvents();
    if n == 0 {
      RunSnoc([], Sent(Async, true));
      assert [] + Rounds(0) == Rounds(0);
      FirstAsync();
    } else {
      RoundsRun(n - 1);
      var evs := Rounds(n - 1);
      var answer := Received(Rsp(Cqe((1 + n) % U16, 0)));
      RunSnoc(evs, Sent(Normal, true));
      RunSnoc(evs + [Sent(Normal, true)], answer);
      assert Rounds(n) == evs + [Sent(Normal, true)] + [answer];
      OneRound(Run(evs), n - 1);
    }
  }

  lemma FirstAsync()
    ensures OnlyAsync(SendRequest(Init(), Async, true), 0)
  {
  }

  /** The bound is the exact one. With one Async Event waiting and every other request answered at once, the
      65536th id is 0 and goes to a request that is no keep-alive; the one after it is the Async Event's
      own, and the Async Event is overwritten. */
  lemma WrapOverwrites()
    ensures var s := Run(Rounds(U16 - 2) + [Sent(Normal, true)]);
      s.taken == U16 && 0 in s.outstanding && s.outstanding[0].kind == Normal
    ensures var s := Run(Rounds(U16 - 1) + [Sent(Normal, true)]);
      s.taken == U16 + 1 && |s.lost| == 1 && s.lost[0].kind == Async
  {
    hide Run, Rounds, OnlyAsync, Receive;
    RoundsRun(U16 - 2);
    RunSnoc(Rounds(U16 - 2), Sent(Normal, true));
    OneRound(Run(Rounds(U16 - 2)), U16 - 2);
    RoundsRun(U16 - 1);
    RunSnoc(Rounds(U16 - 1), Sent(Normal, true));
    NextLost(Run(Rounds(U16 - 1)));
    OnlyTaken(Run(Rounds(U16 - 2)), U16 - 2);
  }

  lemma NextLost(s: State)
    requires OnlyAsync(s, U16 - 1)
    ensures var t := SendRequest(s, Normal, true); t.taken == U16 + 1 && |t.lost| == 1 && t.lost[0].kind == Async
  {
  }

  lemma OnlyTaken(s: State, n: nat)
    requires OnlyAsync(s, n)
    ensures SendRequest(s, Normal, true).taken == n + 2
  {
  }
}
