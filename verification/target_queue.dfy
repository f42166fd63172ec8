// The target's queue: every command that is read, checked, executed and completed.

module TargetQueues {
  import opened Bytes
  import opened LogPageWire
  import opened Controllers
  import DiscoveryLog
  import DiscoveryTarget

  const SUCCESS: u16 := 0x0
  const INVALID_OPCODE: u16 := 0x1
  const INVALID_FIELD: u16 := 0x2
  const INTERNAL: u16 := 0x6
  const SGL_INVALID_OFFSET: u16 := 0x16
  const ASYNC_LIMIT: u16 := 0x105
  const INVALID_LOG_PAGE: u16 := 0x109
  const CONNECT_FORMAT: u16 := 0x180
  const CONNECT_INVALID_PARAM: u16 := 0x182
  const DNR: u16 := 0x4000

  const FABRICS: byte := 0x7f
  const PROPERTY_SET: byte := 0x00
  const FABRICS_CONNECT: byte := 0x01
  const PROPERTY_GET: byte := 0x04

  const GET_LOG_PAGE: byte := 0x02
  const IDENTIFY: byte := 0x06
  const SET_FEATURES: byte := 0x09
  const GET_FEATURES: byte := 0x0a
  const ASYNC_EVENT: byte := 0x0c
  const KEEP_ALIVE: byte := 0x18

  const LOG_DISC: byte := 0x70
  const FEAT_ASYNC_EVENT: u32 := 0x0b
  const FEAT_KATO: u32 := 0x0f
  const REG_CAP: u32 := 0x0
  const REG_VS: u32 := 0x8
  const REG_CC: u32 := 0x14
  const REG_CSTS: u32 := 0x1c
  const SGL_INLINE: byte := 0x01
  const INLINE_SIZE: u32 := 16 * 4096
  const MAX_PENDING: nat := 4
  const DISCOVERY_NQN: string := "nqn.2014-08.org.nvmexpress.discovery"

  datatype Property = Property(attrib: byte, offset: u32, value: u64)

  datatype ConnectCommand = ConnectCommand(recFmt: u16, sqSize: u16, subsysNqn: string, hostIdValid: bool, cntlId: u16)

  /** Every field that some reading of the 64 bytes of a command looks at. */
  datatype Command = Command(
    opcode: byte, flags: byte, id: u16, fcType: byte, sglType: byte, property: Property,
    lid: byte, page: GetLogPage, cdw10: u32, cdw11: u32, connect: ConnectCommand)

  datatype Kind =
    | Connect | PropertySet | PropertyGet | Identify | LogPage | KeepAlive | SetFeatures | GetFeatures | AsyncEvent

  datatype Parsed = Request(kind: Kind) | Rejected(status: u16)

  /** The status field of a completion is one bit up. */
  function Wire(status: u16): u16 { status * 2 % U16 }

  /** The three bits of INVALID_LOG_PAGE. */
  predicate HasLogPageBits(status: u16)
  {
    status % 2 == 1 && status / 8 % 2 == 1 && status / 256 % 2 == 1
  }

  function ParseFabrics(c: Command): Parsed
  {
    if c.fcType == PROPERTY_SET then Request(PropertySet)
    else if c.fcType == PROPERTY_GET then Request(PropertyGet)
    else Rejected(INVALID_OPCODE + DNR)
  }

  function ParseDiscovery(ready: bool, c: Command): Parsed
  {
    if !ready then Rejected(INVALID_OPCODE + DNR)
    else if c.opcode == IDENTIFY then Request(Identify)
    else if c.opcode == GET_LOG_PAGE then
      if c.lid == LOG_DISC then Request(LogPage) else Rejected(INVALID_LOG_PAGE + DNR)
    else if c.opcode == KEEP_ALIVE then Request(KeepAlive)
    else if c.opcode == SET_FEATURES then Request(SetFeatures)
    else if c.opcode == GET_FEATURES then Request(GetFeatures)
    else if c.opcode == ASYNC_EVENT then Request(AsyncEvent)
    else Rejected(INVALID_OPCODE)
  }

  /** Not fused, and a metadata buffer in the PSDT bits. */
  predicate FlagsOk(c: Command) { c.flags % 4 == 0 && c.flags / 64 == 1 }

  function Parse(connected: bool, ready: bool, c: Command): Parsed
  {
    if !FlagsOk(c) then Rejected(INVALID_FIELD + DNR)
    else if !connected then
      if c.opcode == FABRICS && c.fcType == FABRICS_CONNECT then Request(Connect) else Rejected(INVALID_OPCODE + DNR)
    else if c.opcode == FABRICS then ParseFabrics(c)
    else ParseDiscovery(ready, c)
  }

  function DataLen(k: Kind, c: Command): u32
  {
    match k
    case Connect => 1024
    case Identify => 4096
    case LogPage => Length(c.page)
    case _ => 0
  }

  /** The status of making room for a command's data. Only Connect sends data to the target. */
  function MapData(k: Kind, c: Command): u16
  {
    if DataLen(k, c) == 0 || c.sglType != SGL_INLINE then SUCCESS
    else if k != Connect then INVALID_FIELD + DNR
    else if DataLen(k, c) > INLINE_SIZE then SGL_INVALID_OFFSET + DNR
    else SUCCESS
  }

  function ConnectStatus(c: ConnectCommand): u16
  {
    if c.subsysNqn != DISCOVERY_NQN || !c.hostIdValid then CONNECT_INVALID_PARAM + DNR
    else if c.recFmt != 0 then CONNECT_FORMAT + DNR
    else if c.cntlId != 0xffff || c.sqSize == 0 then CONNECT_INVALID_PARAM + DNR
    else SUCCESS
  }

  predicate WritesCc(p: Property) { p.attrib % 2 == 0 && p.offset == REG_CC }

  predicate Readable(p: Property)
  {
    if p.attrib % 2 == 1 then p.offset == REG_CAP
    else p.offset == REG_VS || p.offset == REG_CC || p.offset == REG_CSTS
  }

  function CcValue(value: u64): bv32 { (value % U32) as bv32 }

  /** What one command leads to. `Silent` is a command that is never completed. */
  datatype Effect = Answer(status: u16) | Refuse | Wait | Silent

  datatype Phase = Open | Stalled | Closed | Crashed

  datatype Ctrl = NoCtrl | Ctrl(regs: Regs, aen: bool, pending: seq<AsyncRequest>)

  datatype Decision = Decision(effect: Effect, phase: Phase, ctrl: Ctrl)

  function SetFeature(ctrl: Ctrl, c: Command): Decision
    requires ctrl.Ctrl?
  {
    if c.cdw10 % 0x100 == FEAT_KATO then Decision(Answer(SUCCESS), Open, ctrl)
    else if c.cdw10 % 0x100 == FEAT_ASYNC_EVENT && c.cdw11 % 0x8000_0000 == 0 then
      Decision(Answer(SUCCESS), Open, ctrl.(aen := c.cdw11 != 0))
    else Decision(Answer(INVALID_FIELD + DNR), Open, ctrl)
  }

  function Execute(ctrl: Ctrl, k: Kind, c: Command, log: DiscoveryLog.Log): Decision
    requires ctrl.Ctrl? || k == Connect
  {
    match k
    case Connect =>
      var status := ConnectStatus(c.connect);
      Decision(Answer(status), Open, if status == SUCCESS then Ctrl(Regs(0, 0), false, []) else ctrl)
    case PropertySet =>
      if WritesCc(c.property)
      then Decision(Answer(SUCCESS), Open, ctrl.(regs := WriteCc(ctrl.regs, CcValue(c.property.value))))
      else Decision(Answer(INVALID_FIELD), Open, ctrl)
    case PropertyGet => Decision(Answer(if Readable(c.property) then SUCCESS else INVALID_FIELD), Open, ctrl)
    case LogPage =>
      (match DiscoveryTarget.Handler(log, Length(c.page), Offset(c.page))
       case Data(_) => Decision(Answer(SUCCESS), Open, ctrl)
       case Internal => Decision(Answer(INTERNAL + DNR), Open, ctrl)
       case Panic => Decision(Silent, Crashed, ctrl))
    case SetFeatures => SetFeature(ctrl, c)
    case GetFeatures =>
      var known := c.cdw10 % 0x100 == FEAT_KATO || c.cdw10 % 0x100 == FEAT_ASYNC_EVENT;
      Decision(Answer(if known then SUCCESS else INVALID_FIELD + DNR), Open, ctrl)
    case AsyncEvent => Decision(if |ctrl.pending| >= MAX_PENDING then Refuse else Wait, Open, ctrl)
    case Identify => Decision(Answer(SUCCESS), Open, ctrl)
    case KeepAlive => Decision(Answer(SUCCESS), Open, ctrl)
  }

  predicate IsReady(ctrl: Ctrl) { ctrl.Ctrl? && Ready(ctrl.regs.csts) }

  /** From the bytes of a command to its effect. A command whose data cannot be mapped is completed,
      and then the reading loop ends without closing the queue. */
  function Decide(ctrl: Ctrl, c: Command, log: DiscoveryLog.Log): Decision
  {
    match Parse(ctrl.Ctrl?, IsReady(ctrl), c)
    case Rejected(status) =>
      Decision(Answer(status), if HasLogPageBits(Wire(status) / 2) then Open else Closed, ctrl)
    case Request(k) =>
      if MapData(k, c) != SUCCESS then Decision(Answer(MapData(k, c)), Stalled, ctrl)
      else if k == Connect && c.sglType != SGL_INLINE then Decision(Silent, Closed, ctrl)
      else Execute(ctrl, k, c, log)
  }

  datatype Completion = Completion(cmd: nat, id: u16, status: u16)

  /** The queue, with the commands it read, the completions it sent and the Async Events it registered.
      `since` and `history` start anew when a controller is made. */
  datatype State = State(
    phase: Phase, ctrl: Ctrl, received: seq<Command>, done: seq<Completion>,
    registered: seq<nat>, since: nat, history: seq<Controllers.Event>)
  {
    function Pending(): seq<AsyncRequest> { if ctrl.Ctrl? then ctrl.pending else [] }
  }

  function Init(): State { State(Open, NoCtrl, [], [], [], 0, []) }

  predicate IsCcWrite(c: Command)
  {
    FlagsOk(c) && c.opcode == FABRICS && c.fcType == PROPERTY_SET && WritesCc(c.property)
  }

  function Track(s: State, c: Command, d: Decision): State
  {
    if d.ctrl.Ctrl? && !s.ctrl.Ctrl? then s.(since := |s.received|, history := [])
    else if d.ctrl.Ctrl? && IsCcWrite(c) then s.(history := s.history + [Cc(CcValue(c.property.value))])
    else s
  }

  function Apply(s: State, c: Command, d: Decision): State
  {
    var n := |s.received|;
    var s1 := Track(s.(received := s.received + [c]), c, d).(phase := d.phase, ctrl := d.ctrl);
    match d.effect
    case Answer(status) => s1.(done := s.done + [Completion(n, c.id, Wire(status))])
    case Refuse =>
      s1.(done := s.done + [Completion(n, c.id, Wire(ASYNC_LIMIT + DNR))], registered := s.registered + [n])
    case Wait =>
      if d.ctrl.Ctrl?
      then s1.(ctrl := d.ctrl.(pending := d.ctrl.pending + [AsyncRequest(n, c.id)]), registered := s.registered + [n])
      else s1
    case Silent => s1
  }

  function Receive(s: State, c: Command, log: DiscoveryLog.Log): State
  {
    if s.phase != Open then s else Apply(s, c, Decide(s.ctrl, c, log))
  }

  predicate Alive(s: State) { s.phase == Open || s.phase == Stalled }

  /** A discovery change: the longest waiting Async Event is completed. */
  function Notify(s: State): State
  {
    if !Alive(s) || !s.ctrl.Ctrl? || !s.ctrl.aen || s.ctrl.pending == [] then s
    else
      var r := s.ctrl.pending[0];
      s.(ctrl := s.ctrl.(pending := s.ctrl.pending[1..]), done := s.done + [Completion(r.cmd, r.id, Wire(SUCCESS))])
  }

  function KeepAliveExpired(s: State): State
  {
    if !Alive(s) || !s.ctrl.Ctrl? || Fatal(s.ctrl.regs.csts) then s
    else s.(ctrl := s.ctrl.(regs := Expire(s.ctrl.regs)), history := s.history + [Expired], phase := Closed)
  }

  function Hangup(s: State): State
  {
    if s.phase == Open then s.(phase := Closed) else s
  }

  datatype Event = Recv(c: Command, log: DiscoveryLog.Log) | Changed | Timeout | Eof

  function Step(s: State, e: Event): State
  {
    match e
    case Recv(c, log) => Receive(s, c, log)
    case Changed => Notify(s)
    case Timeout => KeepAliveExpired(s)
    case Eof => Hangup(s)
  }

  function RunOf(evs: seq<Event>): State
  {
    if evs == [] then Init() else Step(RunOf(evs[..|evs| - 1]), evs[|evs| - 1])
  }

  class TargetQueue {
    var phase: Phase
    var ctrl: Controller?
    var received: seq<Command>
    var responses: seq<Completion>
    ghost var registered: seq<nat>
    ghost var since: nat
    ghost var history: seq<Controllers.Event>

    ghost function CtrlValue(): Ctrl
      reads this, ctrl
    {
      if ctrl == null then NoCtrl
      else Ctrl(ctrl.Registers(), ctrl.aenBitEnabled, ctrl.asyncEventPendingRequests)
    }

    ghost function Value(): State
      reads this, ctrl
    {
      State(phase, CtrlValue(), received, responses, registered, since, history)
    }

    constructor ()
      ensures Value() == Init()
    {
      phase, ctrl, received, responses := Open, null, [], [];
      registered, since, history := [], 0, [];
    }

    /** Checks a command; what it refuses it completes on the spot. */
    method RequestInit(c: Command) returns (parsed: Parsed)
      modifies this`responses
      ensures parsed == Parse(ctrl != null, IsReady(CtrlValue()), c)
      ensures responses == old(responses)
                + if parsed.Rejected? then [Completion(|received|, c.id, Wire(parsed.status))] else []
    {
      if c.flags % 4 != 0 {
        parsed := Rejected(INVALID_FIELD + DNR);
      } else if c.flags / 64 != 1 {
        parsed := Rejected(INVALID_FIELD + DNR);
      } else if ctrl == null {
        parsed := if c.opcode == FABRICS && c.fcType == FABRICS_CONNECT then Request(Connect)
                  else Rejected(INVALID_OPCODE + DNR);
      } else if c.opcode == FABRICS {
        parsed := ParseFabrics(c);
      } else {
        parsed := ParseDiscovery(Ready(ctrl.csts), c);
      }
      if parsed.Rejected? {
        Complete(c.id, parsed.status);
      }
    }

    method Complete(id: u16, status: u16)
      modifies this`responses
      ensures responses == old(responses) + [Completion(|received|, id, Wire(status))]
    {
      responses := responses + [Completion(|received|, id, Wire(status))];
    }

    method ConnectRequest(c: Command)
      requires ctrl == null
      modifies this`ctrl, this`responses
      ensures ctrl != null ==> fresh(ctrl)
      ensures CtrlValue() == Execute(NoCtrl, Connect, c, DiscoveryLog.Log(0, [])).ctrl
      ensures responses == old(responses) + [Completion(|received|, c.id, Wire(ConnectStatus(c.connect)))]
    {
      var status := ConnectStatus(c.connect);
      if status == SUCCESS {
        ctrl := new Controller();
      }
      Complete(c.id, status);
    }

    method PropertySetRequest(c: Command)
      requires ctrl != null
      modifies this`responses, ctrl`cc, ctrl`csts
      ensures CtrlValue() == Execute(old(CtrlValue()), PropertySet, c, DiscoveryLog.Log(0, [])).ctrl
      ensures responses == old(responses)
                + [Completion(|received|, c.id, Wire(if WritesCc(c.property) then SUCCESS else INVALID_FIELD))]
    {
      if WritesCc(c.property) {
        ctrl.UpdateControllerConfiguration(CcValue(c.property.value));
        Complete(c.id, SUCCESS);
      } else {
        Complete(c.id, INVALID_FIELD);
      }
    }

    method SetFeaturesRequest(c: Command)
      requires ctrl != null
      modifies this`responses, ctrl`aenBitEnabled
      ensures CtrlValue() == SetFeature(old(CtrlValue()), c).ctrl
      ensures responses == old(responses)
                + [Completion(|received|, c.id, Wire(SetFeature(old(CtrlValue()), c).effect.status))]
    {
      var feature := c.cdw10 % 0x100;
      if feature == FEAT_KATO {
        Complete(c.id, SUCCESS);
      } else if feature == FEAT_ASYNC_EVENT {
        if c.cdw11 % 0x8000_0000 != 0 {
          Complete(c.id, INVALID_FIELD + DNR);
          return;
        }
        ctrl.aenBitEnabled := c.cdw11 / 0x8000_0000 != 0;
        Complete(c.id, SUCCESS);
      } else {
        Complete(c.id, INVALID_FIELD + DNR);
      }
    }

    method RegisterAsyncEventRequest(c: Command)
      requires ctrl != null
      modifies this`responses, this`registered, ctrl`asyncEventPendingRequests
      ensures registered == old(registered) + [|received|]
      ensures if |old(ctrl.asyncEventPendingRequests)| >= MAX_PENDING
              then responses == old(responses) + [Completion(|received|, c.id, Wire(ASYNC_LIMIT + DNR))]
                   && ctrl.asyncEventPendingRequests == old(ctrl.asyncEventPendingRequests)
              else responses == old(responses)
                   && ctrl.asyncEventPendingRequests
                      == old(ctrl.asyncEventPendingRequests) + [AsyncRequest(|received|, c.id)]
    {
      registered := registered + [|received|];
      if |ctrl.asyncEventPendingRequests| >= MAX_PENDING {
        Complete(c.id, ASYNC_LIMIT + DNR);
        return;
      }
      ctrl.asyncEventPendingRequests := ctrl.asyncEventPendingRequests + [AsyncRequest(|received|, c.id)];
    }

    method ExecuteRequest(k: Kind, c: Command, log: DiscoveryLog.Log) returns (next: Phase)
      requires ctrl != null || k == Connect
      requires ctrl == null || k != Connect
      modifies this`ctrl, this`responses, this`registered, ctrl
      ensures ctrl == old(ctrl) || (ctrl != null && fresh(ctrl))
      ensures Carried(Execute(old(CtrlValue()), k, c, log), next, c)
    {
      next := Open;
      match k {
        case Connect => ConnectRequest(c);
        case PropertySet => PropertySetRequest(c);
        case PropertyGet => Complete(c.id, if Readable(c.property) then SUCCESS else INVALID_FIELD);
        case LogPage =>
          var reply := DiscoveryTarget.Execute(log, c.page);
          match reply {
            case Data(_) => Complete(c.id, SUCCESS);
            case Internal => Complete(c.id, INTERNAL + DNR);
            case Panic => next := Crashed;
          }
        case SetFeatures => SetFeaturesRequest(c);
        case GetFeatures =>
          var feature := c.cdw10 % 0x100;
          Complete(c.id, if feature == FEAT_KATO || feature == FEAT_ASYNC_EVENT then SUCCESS else INVALID_FIELD + DNR);
        case AsyncEvent => RegisterAsyncEventRequest(c);
        case Identify => Complete(c.id, SUCCESS);
        case KeepAlive => Complete(c.id, SUCCESS);
      }
    }

    /** The decision has been carried out, and the command is about to be counted as received. */
    twostate predicate Carried(d: Decision, next: Phase, c: Command)
      reads this, ctrl
    {
      && next == d.phase
      && received == old(received)
      && match d.effect
         case Answer(status) =>
           && responses == old(responses) + [Completion(|received|, c.id, Wire(status))]
           && registered == old(registered) && CtrlValue() == d.ctrl
         case Refuse =>
           && responses == old(responses) + [Completion(|received|, c.id, Wire(ASYNC_LIMIT + DNR))]
           && registered == old(registered) + [|received|] && CtrlValue() == d.ctrl
         case Wait =>
           && responses == old(responses) && registered == old(registered) + [|received|]
           && d.ctrl.Ctrl? && CtrlValue() == d.ctrl.(pending := d.ctrl.pending + [AsyncRequest(|received|, c.id)])
         case Silent => responses == old(responses) && registered == old(registered) && CtrlValue() == d.ctrl
    }

    method Process(c: Command, log: DiscoveryLog.Log) returns (next: Phase)
      modifies this`ctrl, this`responses, this`registered, ctrl
      ensures ctrl == old(ctrl) || (ctrl != null && fresh(ctrl))
      ensures Carried(Decide(old(CtrlValue()), c, log), next, c)
    {
      var parsed := RequestInit(c);
      if parsed.Rejected? {
        return if HasLogPageBits(Wire(parsed.status) / 2) then Open else Closed;
      }
      var status := MapData(parsed.kind, c);
      if status != SUCCESS {
        Complete(c.id, status);
        return Stalled;
      }
      if parsed.kind == Connect && c.sglType != SGL_INLINE {
        return Closed;
      }
      next := ExecuteRequest(parsed.kind, c, log);
    }

    /** One round of the reading loop. */
    method HandlePdu(c: Command, log: DiscoveryLog.Log)
      requires phase == Open
      modifies this, ctrl
      ensures ctrl == old(ctrl) || (ctrl != null && fresh(ctrl))
      ensures Value() == Receive(old(Value()), c, log)
    {
      hide Decide;
      ghost var before := Value();
      ghost var d := Decide(CtrlValue(), c, log);
      phase := Process(c, log);
      ghost var tracked := Track(before.(received := received + [c]), c, d);
      since, history := tracked.since, tracked.history;
      received := received + [c];
    }

    /** The reading loop over the commands that arrive. */
    method HandleReceivePdu(input: seq<(Command, DiscoveryLog.Log)>)
      modifies this, ctrl
      ensures ctrl == old(ctrl) || (ctrl != null && fresh(ctrl))
      ensures Value() == ReceiveAll(old(Value()), input)
    {
      hide Receive;
      var i := 0;
      while i < |input| && phase == Open
        invariant i <= |input|
        invariant ctrl == old(ctrl) || (ctrl != null && fresh(ctrl))
        invariant Value() == ReceiveAll(old(Value()), input[..i])
      {
        HandlePdu(input[i].0, input[i].1);
        assert input[..i + 1][..i] == input[..i];
        i := i + 1;
      }
      StoppedIgnores(old(Value()), input, i);
      assert input[..|input|] == input;
    }

    /** The controller's event handler takes one event. */
    method HandleAenEvent()
      modifies this`responses, ctrl
      ensures Value() == Notify(old(Value()))
    {
      if (phase == Open || phase == Stalled) && ctrl != null && ctrl.aenBitEnabled
        && |ctrl.asyncEventPendingRequests| > 0
      {
        var request := ctrl.asyncEventPendingRequests[0];
        ctrl.asyncEventPendingRequests := ctrl.asyncEventPendingRequests[1..];
        responses := responses + [Completion(request.cmd, request.id, Wire(SUCCESS))];
      }
    }

    method WatchKeepAlive()
      modifies this`phase, this`history, ctrl
      ensures Value() == KeepAliveExpired(old(Value()))
    {
      if (phase == Open || phase == Stalled) && ctrl != null {
        var signalled := ctrl.KeepAliveExpired();
        if signalled {
          phase, history := Closed, history + [Expired];
        }
      }
    }
  }

  function ReceiveAll(s: State, input: seq<(Command, DiscoveryLog.Log)>): State
  {
    if input == [] then s
    else
      var (c, log) := input[|input| - 1];
      Receive(ReceiveAll(s, input[..|input| - 1]), c, log)
  }

  /** Once the loop has ended, what still arrives changes nothing. */
  lemma {:induction false} StoppedIgnores(s: State, input: seq<(Command, DiscoveryLog.Log)>, i: nat)
    requires i <= |input|
    requires i == |input| || ReceiveAll(s, input[..i]).phase != Open
    ensures ReceiveAll(s, input) == ReceiveAll(s, input[..i])
    decreases |input|
  {
    if i < |input| {
      var rest := input[..|input| - 1];
      assert rest[..i] == input[..i];
      StoppedIgnores(s, rest, i);
    } else {
      assert input[..i] == input;
    }
  }
}
