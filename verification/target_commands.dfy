// What the target makes of each command, said about the bytes it received and the completion it sends.

module TargetCommands {
  import opened Bytes
  import opened Framing
  import opened Layouts
  import opened Sessions
  import opened TargetQueues
  import Controllers
  import DiscoveryLog
  import DiscoveryTarget
  import LogPageWire
  import TargetRuns

  /** The queue after one more command. */
  function After(evs: seq<TargetQueues.Event>, c: Capsule, log: DiscoveryLog.Log): State
    requires |c.sqe| == 64
  {
    RunOf(evs + [Recv(Decode(c), log)])
  }

  predicate Connected(s: State) { s.phase == Open && s.ctrl.Ctrl? }

  /** A connected queue whose controller has bit 0 of its status set. */
  predicate Ready(s: State) { Connected(s) && s.ctrl.regs.csts & 1 != 0 }

  /** Not fused, and a metadata buffer in the two highest bits. */
  predicate GoodFlags(c: Capsule)
    requires |c.sqe| == 64
  {
    c.sqe[1] % 4 == 0 && c.sqe[1] / 64 == 1
  }

  /** The command was read and completed with this status field and nothing else; the queue is in this phase. */
  ghost predicate Completes(s: State, t: State, c: Capsule, status: u16, phase: Phase)
    requires |c.sqe| == 64
  {
    && t.received == s.received + [Decode(c)] && t.phase == phase && t.registered == s.registered
    && t.done == s.done + [Completion(|s.received|, (Le16(c.sqe, 2)) % U16, status)]
  }

  lemma Le16Fits(s: seq<byte>, i: nat)
    requires i + 2 <= |s|
    ensures Le16(s, i) < U16
  {
  }

  /** The fields of a command as the target reads them, by the arithmetic of their bytes. */
  lemma DecodeIs(c: Capsule)
    requires |c.sqe| == 64
    ensures var (d, s) := (Decode(c), c.sqe);
      && d.opcode == s[0] && d.flags == s[1] && d.id == Le16(s, 2) % U16 && d.fcType == s[4] && d.sglType == s[39]
      && d.property == Property(s[40], Le32(s, 44) % U32, Le64(s, 48) % U64) && d.lid == s[40]
      && d.page == LogPageWire.GetLogPage(Le16(s, 42) % U16, Le16(s, 44) % U16, Le32(s, 48) % U32, Le32(s, 52) % U32)
      && d.cdw10 == Le32(s, 40) % U32 && d.cdw11 == Le32(s, 44) % U32
  {
    hide Bytes.FromLE, DecodeConnect;
    var s := c.sqe;
    ReadField(s, 2, 2);
    ReadField(s, 44, 4);
    ReadField(s, 48, 8);
    ReadField(s, 42, 2);
    ReadField(s, 44, 2);
    ReadField(s, 48, 4);
    ReadField(s, 52, 4);
    ReadField(s, 40, 4);
  }

  lemma ReadField(s: seq<byte>, i: nat, width: nat)
    requires width in {2, 4, 8} && i + width <= |s|
    ensures width == 2 ==> FromLE(s[i..i + width]) == Le16(s, i)
    ensures width == 4 ==> FromLE(s[i..i + width]) == Le32(s, i)
    ensures width == 8 ==> FromLE(s[i..i + width]) == Le64(s, i)
  {
    hide Bytes.FromLE;
    var f := s[i..i + width];
    ReadLe(f);
    assert forall j :: 0 <= j < width ==> f[j] == s[i + j];
  }

  lemma OneMore(evs: seq<TargetQueues.Event>, c: Capsule, log: DiscoveryLog.Log)
    requires |c.sqe| == 64 && RunOf(evs).phase == Open
    ensures After(evs, c, log) == Apply(RunOf(evs), Decode(c), Decide(RunOf(evs).ctrl, Decode(c), log))
  {
    hide RunOf, Decode, Apply, Decide;
    TargetRuns.RunOfSnoc(evs, Recv(Decode(c), log));
  }

  /** A command that is decided on with an answer is completed with it. */
  lemma Answered(evs: seq<TargetQueues.Event>, c: Capsule, log: DiscoveryLog.Log, status: u16, phase: Phase, ctrl: Ctrl)
    requires |c.sqe| == 64 && RunOf(evs).phase == Open && Decode(c).id == Le16(c.sqe, 2) % U16
    requires Decide(RunOf(evs).ctrl, Decode(c), log) == Decision(Answer(status), phase, ctrl)
    ensures Completes(RunOf(evs), After(evs, c, log), c, status * 2 % 0x1_0000, phase)
        && After(evs, c, log).ctrl == ctrl
  {
    hide RunOf, Decode, After, Decide, Track, Le16;
    OneMore(evs, c, log);
    ghost var (s, d) := (RunOf(evs), Decide(RunOf(evs).ctrl, Decode(c), log));
    TrackOnly(s.(received := s.received + [Decode(c)]), Decode(c), d);
  }

  lemma TrackOnly(s: State, c: Command, d: Decision)
    ensures var t := Track(s, c, d);
      t.received == s.received && t.done == s.done && t.registered == s.registered
  {
  }

  predicate FlagsGood(d: Command) { d.flags % 4 == 0 && d.flags / 64 == 1 }

  predicate CtrlReady(ctrl: Ctrl) { ctrl.Ctrl? && ctrl.regs.csts & 1 != 0 }

  /** What a ready controller decides, command by command. */
  lemma ReadyDecides(ctrl: Ctrl, d: Command, log: DiscoveryLog.Log)
    requires CtrlReady(ctrl) && FlagsGood(d)
    ensures var r := Decide(ctrl, d, log);
      && (d.opcode == 0x18 ==> r == Decision(Answer(0), Open, ctrl))
      && (d.opcode == 0x0a ==>
            r == Decision(Answer(if d.cdw10 % 0x100 in {0x0b, 0x0f} then 0 else 0x4002), Open, ctrl))
      && (d.opcode == 0x06 ==> r == if d.sglType == 1 then Decision(Answer(0x4002), Stalled, ctrl)
                                    else Decision(Answer(0), Open, ctrl))
      && (d.opcode == 0x0c ==> r == Decision(if |ctrl.pending| >= 4 then Refuse else Wait, Open, ctrl))
  {
    hide Controllers.WriteCc, DiscoveryTarget.Handler, LogPageWire.Length, LogPageWire.Offset, ConnectStatus, CcValue;
  }

  lemma SetFeaturesDecides(ctrl: Ctrl, d: Command, log: DiscoveryLog.Log)
    requires CtrlReady(ctrl) && FlagsGood(d) && d.opcode == 0x09
    ensures Decide(ctrl, d, log) ==
      if d.cdw10 % 0x100 == 0x0f then Decision(Answer(0), Open, ctrl)
      else if d.cdw10 % 0x100 == 0x0b && d.cdw11 % 0x8000_0000 == 0 then
        Decision(Answer(0), Open, ctrl.(aen := d.cdw11 != 0))
      else Decision(Answer(0x4002), Open, ctrl)
  {
    hide Controllers.WriteCc, DiscoveryTarget.Handler, LogPageWire.Length, LogPageWire.Offset, ConnectStatus, CcValue;
  }

  lemma LogPageDecides(ctrl: Ctrl, d: Command, log: DiscoveryLog.Log)
    requires CtrlReady(ctrl) && FlagsGood(d) && d.opcode == 0x02
    ensures Decide(ctrl, d, log) ==
      if d.lid != 0x70 then Decision(Answer(0x4109), Open, ctrl)
      else if LogPageWire.Length(d.page) > 0 && d.sglType == 1 then Decision(Answer(0x4002), Stalled, ctrl)
      else match DiscoveryTarget.Handler(log, LogPageWire.Length(d.page), LogPageWire.Offset(d.page))
           case Data(_) => Decision(Answer(0), Open, ctrl)
           case Internal => Decision(Answer(0x4006), Open, ctrl)
           case Panic => Decision(Silent, Crashed, ctrl)
  {
    hide Controllers.WriteCc, DiscoveryTarget.Handler, LogPageWire.Length, LogPageWire.Offset, ConnectStatus, CcValue;
  }

  lemma RefusedDecides(ctrl: Ctrl, d: Command, log: DiscoveryLog.Log)
    requires ctrl.Ctrl?
    ensures !FlagsGood(d) ==> Decide(ctrl, d, log) == Decision(Answer(0x4002), Closed, ctrl)
    ensures FlagsGood(d) && d.opcode != 0x7f && !CtrlReady(ctrl) ==>
      Decide(ctrl, d, log) == Decision(Answer(0x4001), Closed, ctrl)
    ensures CtrlReady(ctrl) && FlagsGood(d) && !KnownOpcode(d.opcode) ==>
      Decide(ctrl, d, log) == Decision(Answer(0x0001), Closed, ctrl)
  {
    hide Execute;
  }

  lemma FabricsDecides(ctrl: Ctrl, d: Command, log: DiscoveryLog.Log)
    requires ctrl.Ctrl? && FlagsGood(d) && d.opcode == 0x7f
    ensures var (r, p) := (Decide(ctrl, d, log), d.property);
      var readable := if p.attrib % 2 == 1 then p.offset == 0 else p.offset in {8, 0x14, 0x1c};
      && (d.fcType == 0 && p.attrib % 2 == 0 && p.offset == 0x14 ==>
            r == Decision(Answer(0), Open, ctrl.(regs := Controllers.WriteCc(ctrl.regs, CcValue(p.value)))))
      && (d.fcType == 0 && !(p.attrib % 2 == 0 && p.offset == 0x14) ==> r == Decision(Answer(0x0002), Open, ctrl))
      && (d.fcType == 4 ==> r == Decision(Answer(if readable then 0 else 2), Open, ctrl))
      && (d.fcType !in {0, 4} ==> r == Decision(Answer(0x4001), Closed, ctrl))
  {
    hide Controllers.WriteCc, DiscoveryTarget.Handler, LogPageWire.Length, LogPageWire.Offset, ConnectStatus, CcValue;
  }

  /** Keep Alive: success, and the controller as it was. */
  lemma KeepAliveServed(evs: seq<TargetQueues.Event>, c: Capsule, log: DiscoveryLog.Log)
    requires |c.sqe| == 64 && GoodFlags(c) && Ready(RunOf(evs)) && c.sqe[0] == 0x18
    ensures Completes(RunOf(evs), After(evs, c, log), c, 0, Open) && After(evs, c, log).ctrl == RunOf(evs).ctrl
  {
    hide RunOf, Decode, After, Decide, Completes, Le16, Le32, Le64;
    DecodeIs(c);
    ReadyDecides(RunOf(evs).ctrl, Decode(c), log);
    Answered(evs, c, log, 0, Open, RunOf(evs).ctrl);
  }

  /** Get Features: the controller as it was, and success exactly for features 0x0b and 0x0f. */
  lemma GetFeaturesServed(evs: seq<TargetQueues.Event>, c: Capsule, log: DiscoveryLog.Log)
    requires |c.sqe| == 64 && GoodFlags(c) && Ready(RunOf(evs)) && c.sqe[0] == 0x0a
    ensures Completes(RunOf(evs), After(evs, c, log), c, if c.sqe[40] in {0x0b, 0x0f} then 0 else 0x8004, Open)
    ensures After(evs, c, log).ctrl == RunOf(evs).ctrl
  {
    hide RunOf, Decode, After, Decide, Completes, Le16, Le32, Le64;
    DecodeIs(c);
    LowByte(c.sqe, 40);
    ReadyDecides(RunOf(evs).ctrl, Decode(c), log);
    Answered(evs, c, log, if c.sqe[40] in {0x0b, 0x0f} then 0 else 0x4002, Open, RunOf(evs).ctrl);
  }

  lemma LowByte(s: seq<byte>, i: nat)
    requires i + 4 <= |s|
    ensures Le32(s, i) % U32 % 0x100 == s[i] && Le32(s, i) < U32
  {
    var a: int := s[i];
    var b: int := s[i + 1] as int + 0x100 * s[i + 2] as int + 0x1_0000 * s[i + 3] as int;
    assert Le32(s, i) == a + 0x100 * b;
    assert (a + 0x100 * b) % 0x100 == a;
  }

  lemma HighBit(s: seq<byte>, i: nat)
    requires i + 4 <= |s|
    ensures Le32(s, i) % 0x8000_0000 == 0 <==> s[i] == 0 && s[i + 1] == 0 && s[i + 2] == 0 && s[i + 3] in {0, 0x80}
    ensures Le32(s, i) < U32 && (Le32(s, i) == 0 <==> s[i] == 0 && s[i + 1] == 0 && s[i + 2] == 0 && s[i + 3] == 0)
  {
    var low := s[i] as int + 0x100 * s[i + 1] as int + 0x1_0000 * s[i + 2] as int;
    var high := s[i + 3] as int;
    assert Le32(s, i) == low + 0x100_0000 * high;
    assert (low + 0x100_0000 * high) % 0x8000_0000 == low + 0x100_0000 * (high % 0x80);
  }

  /** Bit 31 of the value of an event feature, and no other. */
  predicate SwitchesEvents(f: seq<byte>)
    requires |f| == 64
  {
    f[40] == 0x0b && f[44] == 0 && f[45] == 0 && f[46] == 0 && f[47] in {0, 0x80}
  }

  /** Set Features: at most the event switch changes, to bit 31 of the value when no other bit is set. */
  lemma SetFeaturesServed(evs: seq<TargetQueues.Event>, c: Capsule, log: DiscoveryLog.Log)
    requires |c.sqe| == 64 && GoodFlags(c) && Ready(RunOf(evs)) && c.sqe[0] == 0x09
    ensures var status := if SwitchesEvents(c.sqe) || c.sqe[40] == 0x0f then 0 else 0x8004;
      Completes(RunOf(evs), After(evs, c, log), c, status, Open)
    ensures After(evs, c, log).ctrl
         == if SwitchesEvents(c.sqe) then RunOf(evs).ctrl.(aen := c.sqe[47] == 0x80) else RunOf(evs).ctrl
  {
    hide RunOf, Decode, After, Decide, Completes, Le16, Le32, Le64;
    DecodeIs(c);
    LowByte(c.sqe, 40);
    LowByte(c.sqe, 44);
    HighBit(c.sqe, 44);
    SetFeaturesDecides(RunOf(evs).ctrl, Decode(c), log);
    var d := Decide(RunOf(evs).ctrl, Decode(c), log);
    Answered(evs, c, log, d.effect.status, Open, d.ctrl);
  }

  /** Async Event: the fifth one waiting is refused, and any other waits behind the rest. */
  ghost predicate Registers(s: State, t: State, c: Capsule)
    requires |c.sqe| == 64 && s.ctrl.Ctrl?
  {
    var (n, id) := (|s.received|, Le16(c.sqe, 2) % U16);
    && t.received == s.received + [Decode(c)] && t.phase == Open && t.registered == s.registered + [n]
    && if |s.ctrl.pending| >= 4 then t.ctrl == s.ctrl && t.done == s.done + [Completion(n, id, 0x820a)]
       else t.done == s.done && t.ctrl == s.ctrl.(pending := s.ctrl.pending + [Controllers.AsyncRequest(n, id)])
  }

  lemma AsyncEventServed(evs: seq<TargetQueues.Event>, c: Capsule, log: DiscoveryLog.Log)
    requires |c.sqe| == 64 && GoodFlags(c) && Ready(RunOf(evs)) && c.sqe[0] == 0x0c
    ensures Registers(RunOf(evs), After(evs, c, log), c)
  {
    hide RunOf, Decode, After, Decide, Track, Le16, Le32, Le64;
    DecodeIs(c);
    OneMore(evs, c, log);
    ReadyDecides(RunOf(evs).ctrl, Decode(c), log);
    var s := RunOf(evs);
    TrackOnly(s.(received := s.received + [Decode(c)]), Decode(c), Decide(s.ctrl, Decode(c), log));
  }

  /** Identify: success, unless it points to inline data; then Invalid Field, and the queue stalls. */
  lemma IdentifyServed(evs: seq<TargetQueues.Event>, c: Capsule, log: DiscoveryLog.Log)
    requires |c.sqe| == 64 && GoodFlags(c) && Ready(RunOf(evs)) && c.sqe[0] == 0x06
    ensures After(evs, c, log).ctrl == RunOf(evs).ctrl
    ensures var inline := c.sqe[39] == 1;
      Completes(RunOf(evs), After(evs, c, log), c, if inline then 0x8004 else 0, if inline then Stalled else Open)
  {
    hide RunOf, Decode, After, Decide, Completes, Le16, Le32, Le64;
    DecodeIs(c);
    ReadyDecides(RunOf(evs).ctrl, Decode(c), log);
    var inline := c.sqe[39] == 1;
    Answered(evs, c, log, if inline then 0x4002 else 0, if inline then Stalled else Open, RunOf(evs).ctrl);
  }

  /** The length that a log page command asks for: four times one more than its 32-bit count, in 32 bits. */
  function AskedLength(s: seq<byte>): nat
    requires |s| == 64
  {
    (Le32(s, 42) + 1) * 4 % 0x1_0000_0000
  }

  lemma AskedIs(c: Capsule)
    requires |c.sqe| == 64
    ensures LogPageWire.Length(Decode(c).page) == AskedLength(c.sqe)
    ensures LogPageWire.Offset(Decode(c).page) == Le64(c.sqe, 48)
  {
    hide Decode, AskedLength;
    DecodeIs(c);
    AskedFields(c.sqe);
  }

  lemma AskedFields(s: seq<byte>)
    requires |s| == 64
    ensures var page :=
              LogPageWire.GetLogPage(Le16(s, 42) % U16, Le16(s, 44) % U16, Le32(s, 48) % U32, Le32(s, 52) % U32);
      LogPageWire.Length(page) == AskedLength(s) && LogPageWire.Offset(page) == Le64(s, 48)
  {
    hide Le32, Le16, LogPageWire.Length, LogPageWire.Offset;
    HalfWords(s, 42);
    Le16Fits(s, 42);
    Le16Fits(s, 44);
    LowByte(s, 48);
    LowByte(s, 52);
    PageAsks(Le16(s, 42), Le16(s, 44), Le32(s, 48), Le32(s, 52));
  }

  lemma PageAsks(low: nat, high: nat, lower: nat, upper: nat)
    requires low < U16 && high < U16 && lower < U32 && upper < U32
    ensures var page := LogPageWire.GetLogPage(low % U16, high % U16, lower % U32, upper % U32);
      && LogPageWire.Length(page) == (high * U16 + low + 1) * 4 % U32
      && LogPageWire.Offset(page) == lower + U32 * upper
  {
    SmallMod(low, U16);
    SmallMod(high, U16);
    SmallMod(lower, U32);
    SmallMod(upper, U32);
    Twice(high * U16 + low + 1);
  }

  lemma SmallMod(n: nat, m: nat)
    requires n < m
    ensures n % m == n
  {
  }

  lemma HalfWords(s: seq<byte>, i: nat)
    requires i + 4 <= |s|
    ensures Le16(s, i + 2) * 0x1_0000 + Le16(s, i) == Le32(s, i)
  {
  }

  lemma Twice(n: nat)
    ensures n % U32 * 4 % U32 == n * 4 % U32
  {
    var (q, r) := (n / U32, n % U32);
    assert n * 4 == q * 4 * U32 + r * 4;
    Modulo(q * 4, r * 4);
  }

  lemma {:induction false} Modulo(q: nat, r: nat)
    ensures (q * U32 + r) % U32 == r % U32
  {
    if q == 0 {
    } else {
      Modulo(q - 1, r);
      assert q * U32 + r == (q - 1) * U32 + r + U32;
    }
  }

  lemma AskedFits(s: seq<byte>)
    requires |s| == 64
    ensures AskedLength(s) < U32 && Le64(s, 48) < U64
  {
    Le64Fits(s, 48);
    hide Le64;
  }

  /** What is to come of a Get Log Page. */
  ghost predicate PageServed(s: State, t: State, c: Capsule, log: DiscoveryLog.Log)
    requires |c.sqe| == 64
  {
    AskedFits(c.sqe);
    var len: u32 := AskedLength(c.sqe);
    if c.sqe[40] != 0x70 then Completes(s, t, c, 0x8212, Open)
    else if len > 0 && c.sqe[39] == 1 then Completes(s, t, c, 0x8004, Stalled)
    else match DiscoveryTarget.Handler(log, len, Le64(c.sqe, 48))
         case Data(_) => Completes(s, t, c, 0, Open)
         case Internal => Completes(s, t, c, 0x800c, Open)
         case Panic => t.phase == Crashed && t.done == s.done && t.received == s.received + [Decode(c)]
  }

  /** Get Log Page: another page than 0x70 is refused and leaves the queue open; one with inline data and a length is
      refused and stalls it; any other is what the handler says for its length and offset. */
  lemma LogPageServed(evs: seq<TargetQueues.Event>, c: Capsule, log: DiscoveryLog.Log)
    requires |c.sqe| == 64 && GoodFlags(c) && Ready(RunOf(evs)) && c.sqe[0] == 0x02
    ensures PageServed(RunOf(evs), After(evs, c, log), c, log) && After(evs, c, log).ctrl == RunOf(evs).ctrl
  {
    hide RunOf, Decode, After, Decide, Completes, Le16, Le32, Le64, AskedLength, LogPageWire.Length,
         LogPageWire.Offset, Track;
    hide DiscoveryTarget.Handler;
    DecodeIs(c);
    AskedIs(c);
    AskedFits(c.sqe);
    LogPageDecides(RunOf(evs).ctrl, Decode(c), log);
    var (s, d) := (RunOf(evs), Decide(RunOf(evs).ctrl, Decode(c), log));
    if d.effect.Answer? {
      Answered(evs, c, log, d.effect.status, d.phase, d.ctrl);
    } else {
      OneMore(evs, c, log);
      TrackOnly(s.(received := s.received + [Decode(c)]), Decode(c), d);
    }
  }

  predicate KnownOpcode(opcode: byte) { opcode in {0x02, 0x06, 0x09, 0x0a, 0x0c, 0x18, 0x7f} }

  /** Flags that are not right, anything but Fabrics on a controller that is not ready, and any other opcode: refused,
      and the queue is closed. */
  lemma RefusedCommands(evs: seq<TargetQueues.Event>, c: Capsule, log: DiscoveryLog.Log)
    requires |c.sqe| == 64 && Connected(RunOf(evs))
    requires !GoodFlags(c) || (c.sqe[0] != 0x7f && !Ready(RunOf(evs))) || !KnownOpcode(c.sqe[0])
    ensures var status := if !GoodFlags(c) then 0x8004 else if !Ready(RunOf(evs)) then 0x8002 else 0x0002;
      Completes(RunOf(evs), After(evs, c, log), c, status, Closed)
    ensures After(evs, c, log).ctrl == RunOf(evs).ctrl
  {
    hide RunOf, Decode, After, Decide, Completes, Le16, Le32, Le64;
    DecodeIs(c);
    RefusedDecides(RunOf(evs).ctrl, Decode(c), log);
    var status := if !GoodFlags(c) then 0x4002 else if !Ready(RunOf(evs)) then 0x4001 else 0x0001;
    Answered(evs, c, log, status, Closed, RunOf(evs).ctrl);
  }

  function LowWord(n: nat): bv32 { (n % 0x1_0000_0000) as bv32 }

  lemma CcIs(n: u64)
    ensures CcValue(n) == LowWord(n)
  {
  }

  /** Property Set: a 4-byte write of CC reaches the registers with its low 32 bits, and anything else nothing. */
  lemma PropertySetServed(evs: seq<TargetQueues.Event>, c: Capsule, log: DiscoveryLog.Log)
    requires |c.sqe| == 64 && GoodFlags(c) && Connected(RunOf(evs)) && c.sqe[0] == 0x7f && c.sqe[4] == 0
    ensures var (s, t, f) := (RunOf(evs), After(evs, c, log), c.sqe);
      if f[40] % 2 == 0 && Le32(f, 44) == 0x14
      then && Completes(s, t, c, 0, Open)
           && t.ctrl == s.ctrl.(regs := Controllers.WriteCc(s.ctrl.regs, LowWord(Le64(f, 48))))
      else Completes(s, t, c, 0x0004, Open) && t.ctrl == s.ctrl
  {
    hide RunOf, Decode, After, Decide, Completes, Le16, Le32, Le64, Controllers.WriteCc, CcValue, LowWord;
    DecodeIs(c);
    LowByte(c.sqe, 44);
    Le64Fits(c.sqe, 48);
    CcIs(Le64(c.sqe, 48));
    FabricsDecides(RunOf(evs).ctrl, Decode(c), log);
    var d := Decide(RunOf(evs).ctrl, Decode(c), log);
    Answered(evs, c, log, d.effect.status, d.phase, d.ctrl);
  }

  /** Property Get: CAP with 8 bytes, and VS, CC and CSTS with 4; and no other type but these two. */
  lemma PropertyGetServed(evs: seq<TargetQueues.Event>, c: Capsule, log: DiscoveryLog.Log)
    requires |c.sqe| == 64 && GoodFlags(c) && Connected(RunOf(evs)) && c.sqe[0] == 0x7f && c.sqe[4] != 0
    ensures var (s, t, offset) := (RunOf(evs), After(evs, c, log), Le32(c.sqe, 44));
      var readable := if c.sqe[40] % 2 == 1 then offset == 0 else offset in {8, 0x14, 0x1c};
      && t.ctrl == s.ctrl
      && if c.sqe[4] == 4 then Completes(s, t, c, if readable then 0 else 4, Open)
         else Completes(s, t, c, 0x8002, Closed)
  {
    hide RunOf, Decode, After, Decide, Completes, Le16, Le32, Le64;
    DecodeIs(c);
    LowByte(c.sqe, 44);
    FabricsDecides(RunOf(evs).ctrl, Decode(c), log);
    var d := Decide(RunOf(evs).ctrl, Decode(c), log);
    Answered(evs, c, log, d.effect.status, d.phase, d.ctrl);
  }

  lemma Le64Fits(s: seq<byte>, i: nat)
    requires i + 8 <= |s|
    ensures Le64(s, i) < U64
  {
    LowByte(s, i);
    LowByte(s, i + 4);
    hide Le32;
  }

  // Connecting.

  /** The bytes of a name field are this name and zeros behind it. */
  ghost predicate Names(f: seq<byte>, name: string)
  {
    |name| <= |f| && (forall i :: 0 <= i < |name| ==> f[i] == name[i] as int) && Zero(f, |name|, |f|)
  }

  lemma {:induction false} NamesIff(f: seq<byte>, name: string)
    requires forall i :: 0 <= i < |name| ==> 0 < name[i] as int < 0x100
    ensures TextOf(f) == name <==> Names(f, name)
  {
    if f == [] {
    } else if f[|f| - 1] == 0 {
      var g := f[..|f| - 1];
      NamesIff(g, name);
      assert forall i :: 0 <= i < |g| ==> g[i] == f[i];
      assert Names(f, name) ==> |name| <= |g|;
    } else {
      var t := seq(|f|, i requires 0 <= i < |f| => f[i] as char);
      assert TextOf(f) == t;
      assert Names(f, name) ==> |name| == |f|;
      if Names(f, name) { assert t == name; }
      assert t == name ==> forall i :: 0 <= i < |f| ==> f[i] == t[i] as int;
    }
  }

  /** A connect that is acceptable: the discovery subsystem by its name, record format 0, any controller, and a queue.
      */
  ghost predicate Acceptable(c: Capsule)
    requires |c.sqe| == 64 && |c.inline| == 1024
  {
    && Names(c.inline[256..512], "nqn.2014-08.org.nvmexpress.discovery")
    && Le16(c.sqe, 40) == 0 && Le16(c.inline, 16) == 0xffff && Le16(c.sqe, 44) != 0
  }

  lemma ConnectFields(c: Capsule)
    requires |c.sqe| == 64 && |c.inline| == 1024
    ensures var d := Decode(c).connect;
      && (ConnectStatus(d) == 0 <==> Acceptable(c))
      && (ConnectStatus(d) != 0 ==>
            ConnectStatus(d) ==
            if Names(c.inline[256..512], "nqn.2014-08.org.nvmexpress.discovery") && Le16(c.sqe, 40) != 0
            then 0x4180 else 0x4182)
  {
    hide Bytes.FromLE, TextOf, Names;
    NqnFits();
    NamesIff(c.inline[256..512], DISCOVERY_NQN);
    ReadField(c.sqe, 40, 2);
    ReadField(c.sqe, 44, 2);
    ReadField(c.inline, 16, 2);
    Le16Fits(c.sqe, 40);
    Le16Fits(c.sqe, 44);
    Le16Fits(c.inline, 16);
    hide Le16;
  }

  /** A connect makes a controller, in its reset state, if and only if it is acceptable; whatever is wrong with
      another one is in its status, and there is no controller. Anything but a connect closes a queue without
      controller. */
  lemma ConnectServed(evs: seq<TargetQueues.Event>, c: Capsule, log: DiscoveryLog.Log)
    requires |c.sqe| == 64 && |c.inline| == 1024 && GoodFlags(c) && RunOf(evs).phase == Open
        && RunOf(evs).ctrl == NoCtrl
    requires c.sqe[0] == 0x7f && c.sqe[4] == 1 && c.sqe[39] == 1
    ensures var (s, t) := (RunOf(evs), After(evs, c, log));
      var badFormat := Names(c.inline[256..512], "nqn.2014-08.org.nvmexpress.discovery") && Le16(c.sqe, 40) != 0;
      && t.ctrl == (if Acceptable(c) then Ctrl(Controllers.Regs(0, 0), false, []) else NoCtrl)
      && Completes(s, t, c, if Acceptable(c) then 0 else if badFormat then 0x8300 else 0x8304, Open)
  {
    hide RunOf, Decode, After, Decide, Completes, Le16, Le32, Le64, Acceptable, Names, ConnectStatus;
    DecodeIs(c);
    ConnectFields(c);
    ConnectDecides(Decode(c), log);
    var d := Decide(NoCtrl, Decode(c), log);
    Answered(evs, c, log, d.effect.status, d.phase, d.ctrl);
  }

  lemma ConnectDecides(d: Command, log: DiscoveryLog.Log)
    requires FlagsGood(d) && d.opcode == 0x7f && d.fcType == 1 && d.sglType == 1
    ensures var status := ConnectStatus(d.connect);
      Decide(NoCtrl, d, log)
        == Decision(Answer(status), Open, if status == 0 then Ctrl(Controllers.Regs(0, 0), false, []) else NoCtrl)
  {
    hide ConnectStatus;
  }

  lemma OthersDecide(d: Command, log: DiscoveryLog.Log)
    ensures !FlagsGood(d) ==> Decide(NoCtrl, d, log) == Decision(Answer(0x4002), Closed, NoCtrl)
    ensures FlagsGood(d) && !(d.opcode == 0x7f && d.fcType == 1) ==>
      Decide(NoCtrl, d, log) == Decision(Answer(0x4001), Closed, NoCtrl)
    ensures FlagsGood(d) && d.opcode == 0x7f && d.fcType == 1 && d.sglType != 1 ==>
      Decide(NoCtrl, d, log) == Decision(Silent, Closed, NoCtrl)
  {
    hide Execute;
  }

  /** On a queue without controller, anything but a connect with inline data closes it: answered, unless it is a
      connect. */
  lemma NotConnected(evs: seq<TargetQueues.Event>, c: Capsule, log: DiscoveryLog.Log)
    requires |c.sqe| == 64 && RunOf(evs).phase == Open && RunOf(evs).ctrl == NoCtrl
    requires !GoodFlags(c) || c.sqe[0] != 0x7f || c.sqe[4] != 1 || c.sqe[39] != 1
    ensures var (s, t) := (RunOf(evs), After(evs, c, log));
      && t.ctrl == NoCtrl
      && if !GoodFlags(c) then Completes(s, t, c, 0x8004, Closed)
         else if c.sqe[0] != 0x7f || c.sqe[4] != 1 then Completes(s, t, c, 0x8002, Closed)
         else t.phase == Closed && t.done == s.done && t.received == s.received + [Decode(c)]
  {
    hide RunOf, Decode, After, Decide, Completes, Le16, Le32, Le64, Track;
    DecodeIs(c);
    OthersDecide(Decode(c), log);
    var (s, d) := (RunOf(evs), Decide(NoCtrl, Decode(c), log));
    if d.effect.Answer? {
      Answered(evs, c, log, d.effect.status, d.phase, d.ctrl);
    } else {
      OneMore(evs, c, log);
      TrackOnly(s.(received := s.received + [Decode(c)]), Decode(c), d);
    }
  }

  // What is not a command.

  /** A keep-alive timeout: a queue that lives and whose controller has not failed is closed, with bit 1 of the status
      set; no command is completed by it. */
  lemma TimeoutServed(evs: seq<TargetQueues.Event>)
    ensures var (s, t) := (RunOf(evs), RunOf(evs + [Timeout]));
      if s.phase in {Open, Stalled} && s.ctrl.Ctrl? && s.ctrl.regs.csts & 0x2 == 0
      then && t.phase == Closed && t.done == s.done && t.received == s.received
           && t.ctrl == s.ctrl.(regs := Controllers.Regs(s.ctrl.regs.cc, s.ctrl.regs.csts | 0x2))
      else t == s
  {
    hide RunOf;
    TargetRuns.RunOfSnoc(evs, Timeout);
  }

  /** A discovery change: one waiting Async Event is completed with success, the longest waiting one, exactly when the
      queue lives, events are on and one waits. */
  lemma ChangeServed(evs: seq<TargetQueues.Event>)
    ensures var (s, t) := (RunOf(evs), RunOf(evs + [Changed]));
      if s.phase in {Open, Stalled} && s.ctrl.Ctrl? && s.ctrl.aen && s.ctrl.pending != []
      then var r := s.ctrl.pending[0];
           t == s.(done := s.done + [Completion(r.cmd, r.id, 0)], ctrl := s.ctrl.(pending := s.ctrl.pending[1..]))
      else t == s
  {
    hide RunOf;
    TargetRuns.RunOfSnoc(evs, Changed);
  }

  /** Hanging up closes an open queue, and nothing else happens. */
  lemma HangupServed(evs: seq<TargetQueues.Event>)
    ensures var (s, t) := (RunOf(evs), RunOf(evs + [Eof])); t == if s.phase == Open then s.(phase := Closed) else s
  {
    hide RunOf;
    TargetRuns.RunOfSnoc(evs, Eof);
  }
}
