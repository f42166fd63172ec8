// Safety of the target's queue over every run of commands, discovery changes, timeouts and hang-ups.

module TargetRuns {
  import opened Bytes
  import opened Controllers
  import opened TargetQueues
  import DiscoveryLog
  import DiscoveryTarget
  import LogPageWire

  ghost predicate Completed(s: State, k: nat)
  {
    exists i :: 0 <= i < |s.done| && s.done[i].cmd == k
  }

  ghost predicate IsPending(s: State, k: nat)
  {
    exists i :: 0 <= i < |s.Pending()| && s.Pending()[i].cmd == k
  }

  predicate Increasing(ks: seq<nat>)
  {
    forall i, j :: 0 <= i < j < |ks| ==> ks[i] < ks[j]
  }

  function Cmds(p: seq<AsyncRequest>): seq<nat>
  {
    seq(|p|, i requires 0 <= i < |p| => p[i].cmd)
  }

  /** The commands of this opcode that were completed with this status, in order of completion. */
  function WithStatus(received: seq<Command>, done: seq<Completion>, opcode: byte, status: u16): seq<nat>
  {
    if done == [] then []
    else
      var (rest, x) := (done[..|done| - 1], done[|done| - 1]);
      WithStatus(received, rest, opcode, status)
        + if x.cmd < |received| && received[x.cmd].opcode == opcode && x.status == Wire(status) then [x.cmd] else []
  }

  function Signalled(s: State): seq<nat> { WithStatus(s.received, s.done, ASYNC_EVENT, SUCCESS) }

  function Refused(s: State): seq<nat> { WithStatus(s.received, s.done, ASYNC_EVENT, ASYNC_LIMIT + DNR) }

  /** The CC values among the commands, in order. */
  function CcValues(cs: seq<Command>): seq<bv32>
  {
    if cs == [] then []
    else
      var c := cs[|cs| - 1];
      CcValues(cs[..|cs| - 1]) + if IsCcWrite(c) then [CcValue(c.property.value)] else []
  }

  ghost predicate Own(s: State)
  {
    forall i :: 0 <= i < |s.done| ==>
      s.done[i].cmd < |s.received| && s.done[i].id == s.received[s.done[i].cmd].id
  }

  ghost predicate Once(s: State)
  {
    forall i, j :: 0 <= i < j < |s.done| ==> s.done[i].cmd != s.done[j].cmd
  }

  ghost predicate WaitsOk(s: State, r: AsyncRequest)
  {
    r.cmd < |s.received| && r.id == s.received[r.cmd].id && s.received[r.cmd].opcode == ASYNC_EVENT
  }

  ghost predicate Waiting(s: State)
  {
    var p := s.Pending();
    && |p| <= MAX_PENDING
    && (forall i :: 0 <= i < |p| ==> WaitsOk(s, p[i]))
    && (forall i :: 0 <= i < |p| ==> !Completed(s, p[i].cmd))
  }

  ghost predicate Accounted(s: State)
  {
    forall k: nat :: k < |s.received| ==> Completed(s, k) || IsPending(s, k) || (k == |s.received| - 1 && !Alive(s))
  }

  /** First come, first signalled: the signalled ones and then the waiting ones, in order of arrival. */
  ghost predicate Fifo(s: State)
  {
    && Increasing(Signalled(s) + Cmds(s.Pending()))
    && multiset(s.registered) == multiset(Signalled(s) + Cmds(s.Pending())) + multiset(Refused(s))
  }

  ghost predicate Tracked(s: State)
  {
    s.ctrl.Ctrl? ==>
      && 0 < s.since <= |s.received|
      && (var c := s.received[s.since - 1];
          c.opcode == FABRICS && c.fcType == FABRICS_CONNECT && ConnectStatus(c.connect) == SUCCESS)
      && s.ctrl.regs == Run(s.history)
      && Writes(s.history) == CcValues(s.received[s.since..])
  }

  ghost predicate Inv(s: State)
  {
    Own(s) && Once(s) && Waiting(s) && Accounted(s) && Fifo(s) && Tracked(s)
  }

  /** What every decision keeps to, whatever the command. */
  ghost predicate Settles(ctrl: Ctrl, c: Command, d: Decision)
  {
    match d.effect
    case Silent => d.phase == Closed || d.phase == Crashed
    case Wait => ctrl.Ctrl? && c.opcode == ASYNC_EVENT && |ctrl.pending| < MAX_PENDING
    case Refuse => ctrl.Ctrl? && c.opcode == ASYNC_EVENT && |ctrl.pending| >= MAX_PENDING
    case Answer(status) =>
      c.opcode == ASYNC_EVENT ==> Wire(status) != Wire(SUCCESS) && Wire(status) != Wire(ASYNC_LIMIT + DNR)
  }

  ghost predicate Controls(ctrl: Ctrl, c: Command, d: Decision)
  {
    if ctrl.Ctrl? then
      && d.ctrl.Ctrl? && d.ctrl.pending == ctrl.pending
      && d.ctrl.regs == if IsCcWrite(c) then WriteCc(ctrl.regs, CcValue(c.property.value)) else ctrl.regs
    else
      d.ctrl.Ctrl? ==>
        && d.ctrl == Ctrl(Regs(0, 0), false, []) && d.effect == Answer(SUCCESS)
        && c.opcode == FABRICS && c.fcType == FABRICS_CONNECT && ConnectStatus(c.connect) == SUCCESS
  }

  lemma DecideFacts(ctrl: Ctrl, c: Command, log: DiscoveryLog.Log)
    ensures Settles(ctrl, c, Decide(ctrl, c, log))
    ensures Controls(ctrl, c, Decide(ctrl, c, log))
  {
    hide WriteCc, CcValue, Ready, DiscoveryTarget.Handler;
  }

  /** A later command does not change how the earlier ones were answered. */
  lemma {:induction false} WithStatusMore(received: seq<Command>, c: Command, done: seq<Completion>, opcode: byte,
                                          status: u16)
    requires forall i :: 0 <= i < |done| ==> done[i].cmd < |received|
    ensures WithStatus(received + [c], done, opcode, status) == WithStatus(received, done, opcode, status)
  {
    if done == [] {
    } else {
      WithStatusMore(received, c, done[..|done| - 1], opcode, status);
    }
  }

  lemma {:induction false} WithStatusFrom(received: seq<Command>, done: seq<Completion>, opcode: byte, status: u16)
    ensures forall k :: k in WithStatus(received, done, opcode, status) ==> k < |received|
  {
    if done == [] {
    } else {
      WithStatusFrom(received, done[..|done| - 1], opcode, status);
    }
  }

  lemma WithStatusSnoc(received: seq<Command>, done: seq<Completion>, x: Completion, opcode: byte, status: u16)
    ensures WithStatus(received, done + [x], opcode, status) == WithStatus(received, done, opcode, status)
              + if x.cmd < |received| && received[x.cmd].opcode == opcode && x.status == Wire(status) then [x.cmd]
                else []
  {
    assert (done + [x])[..|done|] == done;
  }

  lemma CompletedMore(s: State, t: State, x: Completion)
    requires t.done == s.done + [x]
    ensures forall k :: Completed(t, k) <==> Completed(s, k) || k == x.cmd
  {
    assert t.done[|s.done|] == x;
    forall k ensures Completed(t, k) <==> Completed(s, k) || k == x.cmd {
      if Completed(s, k) {
        var i :| 0 <= i < |s.done| && s.done[i].cmd == k;
        assert t.done[i].cmd == k;
      }
    }
  }

  lemma AnswersStep(s: State, c: Command, d: Decision)
    requires Own(s) && Once(s) && Waiting(s) && Settles(s.ctrl, c, d) && Controls(s.ctrl, c, d)
    ensures Own(Apply(s, c, d)) && Once(Apply(s, c, d)) && Waiting(Apply(s, c, d))
  {
    hide WriteCc, CcValue, IsCcWrite;
    var t := Apply(s, c, d);
    var n := |s.received|;
    assert t.received == s.received + [c];
    assert !Completed(s, n);
    if d.effect.Answer? || d.effect.Refuse? {
      CompletedMore(s, t, t.done[|s.done|]);
    } else {
      assert t.done == s.done;
    }
    forall i | 0 <= i < |t.Pending()|
      ensures WaitsOk(t, t.Pending()[i]) && !Completed(t, t.Pending()[i].cmd)
    {
      if i < |s.Pending()| {
        assert t.Pending()[i] == s.Pending()[i];
        assert WaitsOk(s, s.Pending()[i]) && !Completed(s, s.Pending()[i].cmd);
      }
    }
  }

  lemma AccountedStep(s: State, c: Command, d: Decision)
    requires s.phase == Open && Own(s) && Accounted(s) && Settles(s.ctrl, c, d) && Controls(s.ctrl, c, d)
    ensures Accounted(Apply(s, c, d))
  {
    hide WriteCc, CcValue, IsCcWrite;
    var t := Apply(s, c, d);
    var n := |s.received|;
    if d.effect.Answer? || d.effect.Refuse? {
      CompletedMore(s, t, t.done[|s.done|]);
    } else {
      assert t.done == s.done;
      if d.effect.Wait? { assert t.Pending()[|s.Pending()|].cmd == n; }
    }
    forall k: nat | k < |t.received|
      ensures Completed(t, k) || IsPending(t, k) || (k == |t.received| - 1 && !Alive(t))
    {
      if k < n && !Completed(s, k) {
        assert IsPending(s, k);
        var i :| 0 <= i < |s.Pending()| && s.Pending()[i].cmd == k;
        assert t.Pending()[i] == s.Pending()[i];
      }
    }
  }

  lemma FifoAnswered(s: State, t: State, c: Command, status: u16)
    requires Own(s) && Fifo(s) && t.Pending() == s.Pending() && t.received == s.received + [c]
    requires t.done == s.done + [Completion(|s.received|, c.id, Wire(status))]
    requires c.opcode == ASYNC_EVENT ==> Wire(status) != Wire(SUCCESS)
    requires t.registered == s.registered
               + if c.opcode == ASYNC_EVENT && Wire(status) == Wire(ASYNC_LIMIT + DNR) then [|s.received|] else []
    ensures Fifo(t)
  {
    hide Wire, WithStatus, Cmds;
    var n := |s.received|;
    assert t.received[n] == c;
    WithStatusMore(s.received, c, s.done, ASYNC_EVENT, SUCCESS);
    WithStatusMore(s.received, c, s.done, ASYNC_EVENT, ASYNC_LIMIT + DNR);
    WithStatusSnoc(t.received, s.done, Completion(n, c.id, Wire(status)), ASYNC_EVENT, SUCCESS);
    WithStatusSnoc(t.received, s.done, Completion(n, c.id, Wire(status)), ASYNC_EVENT, ASYNC_LIMIT + DNR);
    assert Signalled(t) == Signalled(s);
    assert multiset(t.registered) - multiset(Refused(t)) == multiset(s.registered) - multiset(Refused(s));
  }

  lemma IncreasingSnoc(ks: seq<nat>, n: nat)
    requires Increasing(ks) && forall i :: 0 <= i < |ks| ==> ks[i] < n
    ensures Increasing(ks + [n])
  {
  }

  /** Signalled and waiting commands were received before. */
  lemma OrderBelow(s: State)
    requires Waiting(s)
    ensures var order := Signalled(s) + Cmds(s.Pending()); forall i :: 0 <= i < |order| ==> order[i] < |s.received|
  {
    hide WithStatus, Completed;
    var sig := Signalled(s);
    WithStatusFrom(s.received, s.done, ASYNC_EVENT, SUCCESS);
    assert forall i :: 0 <= i < |sig| ==> sig[i] in sig;
    assert forall i :: 0 <= i < |s.Pending()| ==> WaitsOk(s, s.Pending()[i]);
  }

  lemma CmdsMore(p: seq<AsyncRequest>, r: AsyncRequest)
    ensures Cmds(p + [r]) == Cmds(p) + [r.cmd]
  {
  }

  lemma OrderMore(registered: seq<nat>, order: seq<nat>, refused: seq<nat>, n: nat)
    requires Increasing(order) && forall i :: 0 <= i < |order| ==> order[i] < n
    requires multiset(registered) == multiset(order) + multiset(refused)
    ensures Increasing(order + [n]) && multiset(registered + [n]) == multiset(order + [n]) + multiset(refused)
  {
    IncreasingSnoc(order, n);
  }

  lemma SameStatuses(s: State, t: State, c: Command)
    requires Own(s) && t.received == s.received + [c] && t.done == s.done
    ensures Signalled(t) == Signalled(s) && Refused(t) == Refused(s)
  {
    hide WithStatus;
    WithStatusMore(s.received, c, s.done, ASYNC_EVENT, SUCCESS);
    WithStatusMore(s.received, c, s.done, ASYNC_EVENT, ASYNC_LIMIT + DNR);
  }

  lemma FifoWaiting(s: State, t: State, c: Command)
    requires Own(s) && Waiting(s) && Fifo(s) && t.received == s.received + [c] && t.done == s.done
    requires t.Pending() == s.Pending() + [AsyncRequest(|s.received|, c.id)]
    requires t.registered == s.registered + [|s.received|]
    ensures Fifo(t)
  {
    hide Signalled, Refused, Cmds, Increasing, Own, Waiting;
    var (n, order) := (|s.received|, Signalled(s) + Cmds(s.Pending()));
    OrderBelow(s);
    SameStatuses(s, t, c);
    CmdsMore(s.Pending(), AsyncRequest(n, c.id));
    OrderMore(s.registered, order, Refused(s), n);
    assert Signalled(t) + Cmds(t.Pending()) == order + [n];
  }

  lemma FifoStep(s: State, c: Command, d: Decision)
    requires Own(s) && Waiting(s) && Fifo(s) && Settles(s.ctrl, c, d) && Controls(s.ctrl, c, d)
    ensures Fifo(Apply(s, c, d))
  {
    hide WriteCc, CcValue, IsCcWrite, Wire, Fifo, Own, Waiting;
    var t := Apply(s, c, d);
    match d.effect {
      case Answer(status) => FifoAnswered(s, t, c, status);
      case Refuse =>
        StatusesDiffer();
        FifoAnswered(s, t, c, ASYNC_LIMIT + DNR);
      case Wait => FifoWaiting(s, t, c);
      case Silent => FifoSilent(s, t, c);
    }
  }

  lemma FifoSilent(s: State, t: State, c: Command)
    requires Own(s) && Fifo(s) && t.received == s.received + [c] && t.done == s.done
    requires t.Pending() == s.Pending() && t.registered == s.registered
    ensures Fifo(t)
  {
    SameStatuses(s, t, c);
  }

  lemma StatusesDiffer()
    ensures Wire(ASYNC_LIMIT + DNR) != Wire(SUCCESS)
  {
  }

  lemma CcValuesSnoc(cs: seq<Command>, c: Command)
    ensures CcValues(cs + [c]) == CcValues(cs) + if IsCcWrite(c) then [CcValue(c.property.value)] else []
  {
    assert (cs + [c])[..|cs|] == cs;
  }

  lemma RunSnoc(evs: seq<Controllers.Event>, e: Controllers.Event)
    ensures Run(evs + [e]) == if e.Cc? then WriteCc(Run(evs), e.value) else Expire(Run(evs))
    ensures Writes(evs + [e]) == Writes(evs) + if e.Cc? then [e.value] else []
  {
    assert (evs + [e])[..|evs|] == evs;
  }

  lemma TrackedStep(s: State, c: Command, d: Decision)
    requires Tracked(s) && Settles(s.ctrl, c, d) && Controls(s.ctrl, c, d)
    ensures Tracked(Apply(s, c, d))
  {
    hide WriteCc, CcValue, IsCcWrite, ConnectStatus, Run, Writes;
    var t := Apply(s, c, d);
    if s.ctrl.Ctrl? {
      assert t.received[s.since..] == s.received[s.since..] + [c];
      CcValuesSnoc(s.received[s.since..], c);
      RunSnoc(s.history, Cc(CcValue(c.property.value)));
    } else if d.ctrl.Ctrl? {
      assert t.received[t.since..] == [];
      RunEmpty();
    }
  }

  lemma RunEmpty()
    ensures Run([]) == Regs(0, 0) && Writes([]) == []
  {
  }

  lemma ReceiveInv(s: State, c: Command, log: DiscoveryLog.Log)
    requires Inv(s)
    ensures Inv(Receive(s, c, log))
  {
    hide Own, Once, Waiting, Accounted, Fifo, Tracked, Decide, Apply;
    if s.phase == Open {
      var d := Decide(s.ctrl, c, log);
      DecideFacts(s.ctrl, c, log);
      AnswersStep(s, c, d);
      AccountedStep(s, c, d);
      FifoStep(s, c, d);
      TrackedStep(s, c, d);
    }
  }

  lemma PoppedFifo(s: State)
    requires Own(s) && Waiting(s) && Fifo(s)
    ensures Fifo(Notify(s))
  {
    hide WithStatus, Wire, Completed;
    var t := Notify(s);
    if t != s {
      var x := t.done[|s.done|];
      assert WaitsOk(s, s.Pending()[0]);
      WithStatusSnoc(s.received, s.done, x, ASYNC_EVENT, SUCCESS);
      WithStatusSnoc(s.received, s.done, x, ASYNC_EVENT, ASYNC_LIMIT + DNR);
      StatusesDiffer();
      assert Signalled(t) + Cmds(t.Pending()) == Signalled(s) + Cmds(s.Pending());
    }
  }

  lemma PoppedAnswers(s: State)
    requires Own(s) && Once(s) && Waiting(s) && Fifo(s)
    ensures Own(Notify(s)) && Once(Notify(s)) && Waiting(Notify(s))
  {
    var t := Notify(s);
    if t != s {
      PoppedLater(s);
      hide Fifo, Wire;
      CompletedMore(s, t, t.done[|s.done|]);
      assert WaitsOk(s, s.Pending()[0]) && !Completed(s, s.Pending()[0].cmd);
      forall i | 0 <= i < |t.Pending()|
        ensures WaitsOk(t, t.Pending()[i]) && !Completed(t, t.Pending()[i].cmd)
      {
        assert t.Pending()[i] == s.Pending()[i + 1];
        assert WaitsOk(s, s.Pending()[i + 1]) && !Completed(s, s.Pending()[i + 1].cmd);
      }
    }
  }

  lemma NotifyInv(s: State)
    requires Inv(s)
    ensures Inv(Notify(s))
  {
    hide Own, Once, Waiting, Accounted, Fifo, CcValues, Run, Writes, ConnectStatus, Wire;
    PoppedAnswers(s);
    PoppedAccounted(s);
    PoppedFifo(s);
  }

  lemma PoppedLater(s: State)
    requires Fifo(s) && s.Pending() != []
    ensures forall i :: 0 < i < |s.Pending()| ==> s.Pending()[i].cmd != s.Pending()[0].cmd
  {
    var order := Signalled(s) + Cmds(s.Pending());
    forall i | 0 < i < |s.Pending()| ensures s.Pending()[i].cmd != s.Pending()[0].cmd {
      assert order[|Signalled(s)|] < order[|Signalled(s)| + i];
    }
  }

  lemma PoppedAccounted(s: State)
    requires Accounted(s)
    ensures Accounted(Notify(s))
  {
    var t := Notify(s);
    if t != s {
      CompletedMore(s, t, t.done[|s.done|]);
      forall k: nat | k < |t.received|
        ensures Completed(t, k) || IsPending(t, k) || (k == |t.received| - 1 && !Alive(t))
      {
        if !Completed(t, k) && IsPending(s, k) {
          var i :| 0 <= i < |s.Pending()| && s.Pending()[i].cmd == k;
          assert t.Pending()[i - 1].cmd == k;
        }
      }
    }
  }

  lemma StillAccounted(s: State, t: State)
    requires Accounted(s) && Waiting(s) && t.received == s.received && t.done == s.done && t.Pending() == s.Pending()
    requires Alive(t) ==> Alive(s)
    ensures Accounted(t) && Waiting(t)
  {
    forall k: nat ensures Completed(t, k) == Completed(s, k) && IsPending(t, k) == IsPending(s, k) {
    }
    forall i | 0 <= i < |t.Pending()| ensures WaitsOk(t, t.Pending()[i]) {
      assert WaitsOk(s, s.Pending()[i]);
    }
  }

  lemma TimeoutInv(s: State)
    requires Inv(s)
    ensures Inv(KeepAliveExpired(s))
  {
    hide Accounted, Waiting, WithStatus, CcValues, Run, Writes, ConnectStatus, Fatal;
    var t := KeepAliveExpired(s);
    RunSnoc(s.history, Expired);
    StillAccounted(s, t);
  }

  lemma HangupInv(s: State)
    requires Inv(s)
    ensures Inv(Hangup(s))
  {
    hide Accounted, Waiting, WithStatus, CcValues, Run, Writes, ConnectStatus;
    var t := Hangup(s);
    StillAccounted(s, t);
  }

  lemma StepInv(s: State, e: TargetQueues.Event)
    requires Inv(s)
    ensures Inv(Step(s, e))
  {
    hide Inv, Receive, Notify, KeepAliveExpired, Hangup;
    match e {
      case Recv(c, log) => ReceiveInv(s, c, log);
      case Changed => NotifyInv(s);
      case Timeout => TimeoutInv(s);
      case Eof => HangupInv(s);
    }
  }

  lemma {:induction false} RunInv(evs: seq<TargetQueues.Event>)
    ensures Inv(RunOf(evs))
  {
    if evs == [] {
    } else {
      RunInv(evs[..|evs| - 1]);
      hide Inv, Step;
      StepInv(RunOf(evs[..|evs| - 1]), evs[|evs| - 1]);
    }
  }

  /** In every run a command is completed at most once and under its own id. While the queue lives,
      it is completed exactly when it is not a waiting Async Event; once the queue is gone, only the
      command that ended it may be left out as well. */
  lemma OneCompletion(evs: seq<TargetQueues.Event>)
    ensures var s := RunOf(evs);
      && (forall i :: 0 <= i < |s.done| ==>
            s.done[i].cmd < |s.received| && s.done[i].id == s.received[s.done[i].cmd].id)
      && (forall i, j :: 0 <= i < j < |s.done| ==> s.done[i].cmd != s.done[j].cmd)
    ensures var s := RunOf(evs);
      forall k: nat :: k < |s.received| && (Alive(s) || k < |s.received| - 1) ==>
        (Completed(s, k) <==> !IsPending(s, k))
  {
    RunInv(evs);
    var s := RunOf(evs);
    forall k: nat | IsPending(s, k) ensures !Completed(s, k) {
      var i :| 0 <= i < |s.Pending()| && s.Pending()[i].cmd == k;
      assert !Completed(s, s.Pending()[i].cmd);
    }
  }

  /** In every run at most four Async Events wait, signalling follows the order of arrival, and every
      registered one is waiting, signalled or refused. */
  lemma AsyncEvents(evs: seq<TargetQueues.Event>)
    ensures var s := RunOf(evs);
      && |s.Pending()| <= MAX_PENDING
      && Increasing(Signalled(s) + Cmds(s.Pending()))
      && multiset(s.registered) == multiset(Signalled(s)) + multiset(Cmds(s.Pending())) + multiset(Refused(s))
      && |s.registered| == |Signalled(s)| + |s.Pending()| + |Refused(s)|
  {
    RunInv(evs);
    var s := RunOf(evs);
    assert |multiset(s.registered)| == |s.registered|;
    assert |multiset(Signalled(s) + Cmds(s.Pending())) + multiset(Refused(s))|
        == |Signalled(s) + Cmds(s.Pending())| + |Refused(s)|;
  }

  predicate DiscoveryOpcode(c: Command)
  {
    c.opcode == IDENTIFY || (c.opcode == GET_LOG_PAGE && c.lid == LOG_DISC) || c.opcode == KEEP_ALIVE
    || c.opcode == SET_FEATURES || c.opcode == GET_FEATURES || c.opcode == ASYNC_EVENT
  }

  /** In every run a well-formed discovery command is accepted exactly when a controller was connected
      and, among the CC writes since that connect, one enabled it with valid sizes and none later
      disabled it or shut it down. */
  lemma AcceptedIffEnabled(evs: seq<TargetQueues.Event>, c: Command)
    requires FlagsOk(c) && DiscoveryOpcode(c)
    ensures var s := RunOf(evs);
      s.ctrl.Ctrl? ==> 0 < s.since <= |s.received| && s.received[s.since - 1].fcType == FABRICS_CONNECT
                       && ConnectStatus(s.received[s.since - 1].connect) == SUCCESS
    ensures var s := RunOf(evs);
      Parse(s.ctrl.Ctrl?, IsReady(s.ctrl), c).Request?
      <==> s.ctrl.Ctrl? && exists k: nat :: EnabledSince(CcValues(s.received[s.since..]), k)
  {
    RunInv(evs);
    hide EnabledSince, ConnectStatus, Run, Writes, CcValues, Own, Once, Waiting, Accounted, Fifo, Ready, RunOf;
    var s := RunOf(evs);
    if s.ctrl.Ctrl? {
      StatusOfHistory(s.history);
      assert Parse(true, IsReady(s.ctrl), c).Request? <==> IsReady(s.ctrl);
      assert Writes(s.history) == CcValues(s.received[s.since..]);
      assert IsReady(s.ctrl) <==> exists k: nat :: EnabledSince(CcValues(s.received[s.since..]), k);
    }
  }

  predicate Maps(c: Command, k: Kind) { DataLen(k, c) > 0 && c.sglType == SGL_INLINE }

  /** A refused command is completed with its status, and closes the queue unless it asked a ready controller for
      another log page. */
  lemma RefusedEnds(ctrl: Ctrl, c: Command, log: DiscoveryLog.Log)
    requires Parse(ctrl.Ctrl?, IsReady(ctrl), c).Rejected?
    ensures var (p, d) := (Parse(ctrl.Ctrl?, IsReady(ctrl), c), Decide(ctrl, c, log));
      && d.effect == Answer(p.status) && (d.phase == Open || d.phase == Closed)
      && (d.phase == Open <==> IsReady(ctrl) && FlagsOk(c) && c.opcode == GET_LOG_PAGE && c.lid != LOG_DISC)
  {
    hide Ready, Execute;
  }

  /** What executing a command can end in. */
  lemma ExecuteEnds(ctrl: Ctrl, k: Kind, c: Command, log: DiscoveryLog.Log)
    requires ctrl.Ctrl? || k == Connect
    ensures var d := Execute(ctrl, k, c, log);
      && (d.phase == Open || d.phase == Crashed)
      && (d.effect.Silent? <==> d.phase == Crashed)
      && (d.phase == Crashed <==>
            k == LogPage && LogPageWire.Length(c.page) == 0
            && DiscoveryTarget.Handler(log, 0, LogPageWire.Offset(c.page)).Panic?)
  {
    hide WriteCc, CcValue, LogPageWire.Length, LogPageWire.Offset, DiscoveryTarget.Written, ConnectStatus;
  }

  /** How a command ends the reading loop: a refused one closes the queue unless it asked a ready
      controller for another log page; a read that points to inline data is answered and leaves a queue
      that reads no more; a connect without inline data closes the queue unanswered. */
  lemma LoopEnds(ctrl: Ctrl, c: Command, log: DiscoveryLog.Log)
    ensures var (p, d) := (Parse(ctrl.Ctrl?, IsReady(ctrl), c), Decide(ctrl, c, log));
      && (p.Rejected? ==> d.effect == Answer(p.status))
      && (p.Rejected? ==>
            (d.phase == Open <==> IsReady(ctrl) && FlagsOk(c) && c.opcode == GET_LOG_PAGE && c.lid != LOG_DISC))
      && (d.phase == Stalled <==> p.Request? && p.kind != Connect && Maps(c, p.kind))
      && (d.effect.Silent? <==>
            (p == Request(Connect) && c.sglType != SGL_INLINE) || d.phase == Crashed)
      && (d.phase == Crashed <==>
            p == Request(LogPage) && LogPageWire.Length(c.page) == 0
            && DiscoveryTarget.Handler(log, 0, LogPageWire.Offset(c.page)).Panic?)
  {
    hide Ready, Execute, DiscoveryTarget.Handler, LogPageWire.Length, LogPageWire.Offset, HasLogPageBits, Wire;
    var p := Parse(ctrl.Ctrl?, IsReady(ctrl), c);
    match p {
      case Rejected(_) => RefusedEnds(ctrl, c, log);
      case Request(k) => ExecuteEnds(ctrl, k, c, log);
    }
  }

  /** A stalled queue has a controller: only a connected queue gets as far as mapping data to the host. */
  lemma {:induction false} StalledConnected(evs: seq<TargetQueues.Event>)
    ensures RunOf(evs).phase == Stalled ==> RunOf(evs).ctrl.Ctrl?
  {
    if evs == [] {
    } else {
      hide Step;
      StalledConnected(evs[..|evs| - 1]);
      StepConnected(RunOf(evs[..|evs| - 1]), evs[|evs| - 1]);
    }
  }

  lemma StepConnected(s: State, e: TargetQueues.Event)
    requires s.phase == Stalled ==> s.ctrl.Ctrl?
    ensures Step(s, e).phase == Stalled ==> Step(s, e).ctrl.Ctrl?
  {
    hide Decide, Track, Fatal, Expire, Wire;
    if e.Recv? { StallsConnected(s.ctrl, e.c, e.log); }
  }

  lemma StallsConnected(ctrl: Ctrl, c: Command, log: DiscoveryLog.Log)
    ensures Decide(ctrl, c, log).phase == Stalled ==> ctrl.Ctrl? && Decide(ctrl, c, log).ctrl.Ctrl?
  {
    LoopEnds(ctrl, c, log);
    DecideFacts(ctrl, c, log);
    hide Decide;
  }

  /** From `s` to `t` nothing was read, and the Async Events that waited longest were signalled, in order. */
  ghost predicate OnlySignalled(s: State, t: State)
  {
    var n := |s.Pending()| - |t.Pending()|;
    && n >= 0 && t.received == s.received && t.Pending() == s.Pending()[n..]
    && t.done == s.done
         + seq(n, i requires 0 <= i < n => Completion(s.Pending()[i].cmd, s.Pending()[i].id, Wire(SUCCESS)))
  }

  lemma NothingSignalled(s: State)
    ensures OnlySignalled(s, s)
  {
  }

  lemma RunOfSnoc(evs: seq<TargetQueues.Event>, e: TargetQueues.Event)
    ensures RunOf(evs + [e]) == Step(RunOf(evs), e)
  {
    assert (evs + [e])[..|evs|] == evs;
  }

  lemma NotifySignals(s: State, t: State)
    requires OnlySignalled(s, t)
    ensures OnlySignalled(s, Notify(t))
  {
    hide Wire;
    var u := Notify(t);
    if u != t {
      assert u.Pending() == s.Pending()[|s.Pending()| - |u.Pending()|..];
    }
  }

  /** Whatever follows once a queue has stalled, it reads nothing more and completes nothing but waiting Async
      Events; hanging up does not end it, and it is closed exactly by a keep-alive timeout, if the
      controller was not failed already. */
  lemma {:induction false} StalledForGood(evs: seq<TargetQueues.Event>, after: seq<TargetQueues.Event>)
    requires RunOf(evs).phase == Stalled
    ensures var (s, t) := (RunOf(evs), RunOf(evs + after));
      && OnlySignalled(s, t) && s.ctrl.Ctrl? && (t.phase == Stalled || t.phase == Closed)
      && (t.phase == Closed <==> Timeout in after && !Fatal(s.ctrl.regs.csts))
      && t.ctrl.Ctrl? && (t.phase == Stalled ==> t.ctrl.regs == s.ctrl.regs)
    decreases |after|
  {
    hide RunOf, Step, Fatal, Expire, OnlySignalled;
    StalledConnected(evs);
    if after == [] {
      assert evs + after == evs;
      NothingSignalled(RunOf(evs));
    } else {
      var (rest, e) := (after[..|after| - 1], after[|after| - 1]);
      StalledForGood(evs, rest);
      assert evs + after == evs + rest + [e];
      assert after == rest + [e];
      RunOfSnoc(evs + rest, e);
      StalledStep(RunOf(evs), RunOf(evs + rest), e);
    }
  }

  lemma StalledStep(s: State, t: State, e: TargetQueues.Event)
    requires OnlySignalled(s, t) && s.ctrl.Ctrl? && (t.phase == Stalled || t.phase == Closed) && t.ctrl.Ctrl?
    requires t.phase == Stalled ==> t.ctrl.regs == s.ctrl.regs
    ensures var u := Step(t, e);
      && OnlySignalled(s, u) && (u.phase == Stalled || u.phase == Closed) && u.ctrl.Ctrl?
      && (u.phase == Stalled ==> u.ctrl.regs == s.ctrl.regs)
      && (u.phase == Closed <==> t.phase == Closed || (e == Timeout && !Fatal(s.ctrl.regs.csts)))
  {
    hide Fatal, Expire, Wire;
    NotifySignals(s, t);
  }

  const EMPTY_LOG := DiscoveryLog.Log(0, [])

  function Plain(opcode: byte, fcType: byte, sglType: byte, property: Property): Command
  {
    Command(opcode, 0x40, 0, fcType, sglType, property, 0, LogPageWire.GetLogPage(0, 0, 0, 0), 0, 0,
            ConnectCommand(0, 31, DISCOVERY_NQN, true, 0xffff))
  }

  /** Any ready controller can be stalled: by an Identify whose descriptor points to inline data. It is
      completed, with Invalid Field. */
  lemma InlineIdentifyStalls(evs: seq<TargetQueues.Event>, c: Command, log: DiscoveryLog.Log)
    requires RunOf(evs).phase == Open && IsReady(RunOf(evs).ctrl)
    requires FlagsOk(c) && c.opcode == IDENTIFY && c.sglType == SGL_INLINE
    ensures var (s, t) := (RunOf(evs), RunOf(evs + [Recv(c, log)]));
      t.phase == Stalled && t.done == s.done + [Completion(|s.received|, c.id, Wire(INVALID_FIELD + DNR))]
  {
    assert (evs + [Recv(c, log)])[..|evs|] == evs;
    hide Ready, Wire, Track;
  }

  /** Connect and enable: there are ready controllers to be stalled. */
  lemma SomeRunStalls()
    ensures exists evs :: RunOf(evs).phase == Stalled
  {
    CcValueBack(ENABLE);
    var p := Property(0, REG_CC, ENABLE as int);
    var connect := Recv(Plain(FABRICS, FABRICS_CONNECT, SGL_INLINE, p), EMPTY_LOG);
    var enable := Recv(Plain(FABRICS, PROPERTY_SET, 0, p), EMPTY_LOG);
    var identify := Plain(IDENTIFY, 0, SGL_INLINE, p);
    EnableReady();
    hide WriteCc, CcValue, Ready;
    assert [connect][..0] == [] && [connect, enable][..1] == [connect];
    assert RunOf([]) == Init();
    assert RunOf([connect]) == Receive(Init(), connect.c, EMPTY_LOG);
    assert RunOf([connect, enable]) == Receive(RunOf([connect]), enable.c, EMPTY_LOG);
    InlineIdentifyStalls([connect, enable], identify, EMPTY_LOG);
  }

  /** Enable, with entries of 64 and 16 bytes. */
  const ENABLE: bv32 := 0x46_0001

  lemma CcValueBack(v: bv32)
    ensures (v as int) < U32 && CcValue(v as int) == v
  {
    var n := v as int;
    assert n % U32 == n;
  }

  lemma EnableReady()
    ensures Ready(WriteCc(Regs(0, 0), ENABLE).csts)
  {
    assert CcEn(ENABLE) && !CcEn(0) && !CcShn(ENABLE) && !CcShn(0) && ValidSizes(ENABLE) && Ready(RDY);
    hide CcEn, CcShn, ValidSizes, Ready;
  }
}
