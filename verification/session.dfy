// A whole discovery session: the host's commands as bytes, the target's queue that reads and executes them, and
// the bytes of its responses back in the host's queue.

module Sessions {
  import opened Bytes
  import opened Framing
  import opened Wrappers
  import Controllers
  import DiscoveryHost
  import DiscoveryLog
  import DiscoveryTarget
  import Exchange
  import HostQueues
  import LogPageFetch
  import LogPageWire
  import TargetQueues
  import TargetRuns

  // The host's commands.

  const NQN_FIELD: nat := 256
  const SQ_SIZE: u16 := 31

  /** A text as a field of bytes, filled up with zeros. */
  function TextField(s: string, width: nat): (f: seq<byte>)
    requires |s| <= width && forall i :: 0 <= i < |s| ==> s[i] as int < 0x100
    ensures |f| == width
  {
    seq(|s|, i requires 0 <= i < |s| => s[i] as int) + Zeros(width - |s|)
  }

  function ConnectTail(): (s: seq<byte>)
    ensures |s| == 24
  {
    ToLE(0, 2) + ToLE(0, 2) + ToLE(SQ_SIZE, 2) + Zeros(2) + ToLE(0, 4) + Zeros(12)
  }

  lemma NqnFits()
    ensures |TargetQueues.DISCOVERY_NQN| <= NQN_FIELD
    ensures forall i :: 0 <= i < |TargetQueues.DISCOVERY_NQN| ==> 0 < TargetQueues.DISCOVERY_NQN[i] as int < 0x100
  {
  }

  function ConnectData(hostId: seq<byte>, hostNqn: seq<byte>): (s: seq<byte>)
    requires |hostId| == 16 && |hostNqn| == NQN_FIELD
    ensures |s| == CONNECT_DATA
  {
    NqnFits();
    hostId + ToLE(0xffff, 2) + Zeros(238) + TextField(TargetQueues.DISCOVERY_NQN, NQN_FIELD) + hostNqn + Zeros(256)
  }

  function PropertyGetSqe(id: u16, offset: u32): (s: seq<byte>)
    ensures |s| == 64
  {
    ([TargetQueues.FABRICS, 0x40] + ToLE(id, 2) + [TargetQueues.PROPERTY_GET] + Zeros(34) + [90])
      + ([if offset == TargetQueues.REG_CAP then 1 else 0] + Zeros(3) + ToLE(offset, 4) + Zeros(16))
  }

  function PropertySetSqe(id: u16, offset: u32, value: u64): (s: seq<byte>)
    ensures |s| == 64
  {
    ([TargetQueues.FABRICS, 0x40] + ToLE(id, 2) + [TargetQueues.PROPERTY_SET] + Zeros(34) + [90])
      + ([0] + Zeros(3) + ToLE(offset, 4) + ToLE(value, 8) + Zeros(8))
  }

  function IdentifySqe(id: u16): (s: seq<byte>)
    ensures |s| == 64
  {
    [TargetQueues.IDENTIFY, 0x40] + ToLE(id, 2) + Zeros(36) + [1] + Zeros(23)
  }

  function EventsOnSqe(id: u16): (s: seq<byte>)
    ensures |s| == 64
  {
    [TargetQueues.SET_FEATURES, 0x40] + ToLE(id, 2) + Zeros(36)
      + ToLE(TargetQueues.FEAT_ASYNC_EVENT, 4) + ToLE(0x8000_0000, 4) + Zeros(16)
  }

  function PageFields(page: LogPageWire.GetLogPage): (s: seq<byte>)
    ensures |s| == 24
  {
    [TargetQueues.LOG_DISC, 0] + ToLE(page.numDl, 2) + ToLE(page.numDu, 2) + Zeros(2)
      + ToLE(page.lpol, 4) + ToLE(page.lpou, 4) + Zeros(8)
  }

  function LogPageSqe(id: u16, nsid: u32, page: LogPageWire.GetLogPage): (s: seq<byte>)
    ensures |s| == 64
  {
    ([TargetQueues.GET_LOG_PAGE, 0x40] + ToLE(id, 2) + ToLE(nsid, 4) + Zeros(24) + [16] + Zeros(6) + [90])
      + PageFields(page)
  }

  // The target's reading of them.

  /** A field of bytes as text, without the zeros at its end. */
  function TextOf(f: seq<byte>): string
  {
    if f == [] then ""
    else if f[|f| - 1] == 0 then TextOf(f[..|f| - 1])
    else seq(|f|, i requires 0 <= i < |f| => f[i] as char)
  }

  function DecodeConnect(c: Capsule): TargetQueues.ConnectCommand
    requires |c.sqe| == 64
  {
    var has := |c.inline| == CONNECT_DATA;
    TargetQueues.ConnectCommand(
      FromLE(c.sqe[40..42]) % U16, FromLE(c.sqe[44..46]) % U16,
      if has then TextOf(c.inline[256..512]) else "", has,
      if has then FromLE(c.inline[16..18]) % U16 else 0)
  }

  /** Every reading of the 64 bytes at once; which of them matters is up to the opcode. */
  function Decode(c: Capsule): TargetQueues.Command
    requires |c.sqe| == 64
  {
    var s := c.sqe;
    TargetQueues.Command(
      s[0], s[1], FromLE(s[2..4]) % U16, s[4], s[39],
      TargetQueues.Property(s[40], FromLE(s[44..48]) % U32, FromLE(s[48..56]) % U64),
      s[40],
      LogPageWire.GetLogPage(FromLE(s[42..44]) % U16, FromLE(s[44..46]) % U16,
                             FromLE(s[48..52]) % U32, FromLE(s[52..56]) % U32),
      FromLE(s[40..44]) % U32, FromLE(s[44..48]) % U32, DecodeConnect(c))
  }

  lemma {:induction false} TextBack(s: string, zeros: nat)
    requires forall i :: 0 <= i < |s| ==> 0 < s[i] as int < 0x100
    ensures TextOf(TextField(s, |s| + zeros)) == s
    decreases zeros
  {
    var f := TextField(s, |s| + zeros);
    if zeros == 0 {
      assert seq(|f|, i requires 0 <= i < |f| => f[i] as char) == s;
    } else {
      assert f[|f| - 1] == 0;
      assert f[..|f| - 1] == TextField(s, |s| + zeros - 1);
      TextBack(s, zeros - 1);
    }
  }

  /** A command without data behind it, as it comes out of the target's reading. */
  ghost predicate Reads(sqe: seq<byte>, id: u16, opcode: byte)
  {
    |sqe| == 64 && sqe[0] == opcode && sqe[1] == 0x40 && sqe[39] != TargetQueues.SGL_INLINE
        && FromLE(sqe[2..4]) % U16 == id
  }

  lemma PropertyGetBack(id: u16, offset: u32)
    ensures var (s, c) := (PropertyGetSqe(id, offset), Decode(Capsule(PropertyGetSqe(id, offset), [])));
      && Reads(s, id, TargetQueues.FABRICS) && c.fcType == TargetQueues.PROPERTY_GET
      && c.property.attrib == (if offset == TargetQueues.REG_CAP then 1 else 0) && c.property.offset == offset
  {
    hide Bytes.ToLE, Bytes.FromLE, Bytes.Zeros;
    var s := PropertyGetSqe(id, offset);
    WordRoundTrip(id);
    WordRoundTrip(offset);
    assert s[2..4] == ToLE(id, 2) && s[44..48] == ToLE(offset, 4);
    assert s[4] == TargetQueues.PROPERTY_GET && s[39] == 90;
  }

  lemma PropertySetBack(id: u16, offset: u32, value: u64)
    ensures var (s, c) := (PropertySetSqe(id, offset, value), Decode(Capsule(PropertySetSqe(id, offset, value), [])));
      && Reads(s, id, TargetQueues.FABRICS) && c.fcType == TargetQueues.PROPERTY_SET
      && c.property == TargetQueues.Property(0, offset, value)
  {
    hide Bytes.ToLE, Bytes.FromLE, Bytes.Zeros;
    var s := PropertySetSqe(id, offset, value);
    WordRoundTrip(id);
    WordRoundTrip(offset);
    WordRoundTrip(value);
    assert s[2..4] == ToLE(id, 2) && s[44..48] == ToLE(offset, 4) && s[48..56] == ToLE(value, 8);
    assert s[4] == TargetQueues.PROPERTY_SET && s[39] == 90 && s[40] == 0;
  }

  lemma IdentifyBack(id: u16)
    ensures Reads(IdentifySqe(id), id, TargetQueues.IDENTIFY)
  {
    hide Bytes.ToLE, Bytes.FromLE, Bytes.Zeros;
    var s := IdentifySqe(id);
    WordRoundTrip(id);
    assert s[2..4] == ToLE(id, 2);
    assert s[39] == Zeros(36)[35];
  }

  lemma EventsOnBack(id: u16)
    ensures var c := Decode(Capsule(EventsOnSqe(id), []));
      && Reads(EventsOnSqe(id), id, TargetQueues.SET_FEATURES)
      && c.cdw10 == TargetQueues.FEAT_ASYNC_EVENT && c.cdw11 == 0x8000_0000
  {
    hide Bytes.ToLE, Bytes.FromLE, Bytes.Zeros;
    var s := EventsOnSqe(id);
    WordRoundTrip(id);
    WordRoundTrip(TargetQueues.FEAT_ASYNC_EVENT);
    WordRoundTrip(0x8000_0000);
    assert s[2..4] == ToLE(id, 2) && s[40..44] == ToLE(TargetQueues.FEAT_ASYNC_EVENT, 4)
        && s[44..48] == ToLE(0x8000_0000, 4);
    assert s[39] == Zeros(36)[35];
  }

  lemma PageFieldsBack(page: LogPageWire.GetLogPage)
    ensures var s := PageFields(page);
      && s[0] == TargetQueues.LOG_DISC && FromLE(s[2..4]) == page.numDl && FromLE(s[4..6]) == page.numDu
      && FromLE(s[8..12]) == page.lpol && FromLE(s[12..16]) == page.lpou
  {
    hide Bytes.ToLE, Bytes.FromLE, Bytes.Zeros;
    var s := PageFields(page);
    WordRoundTrip(page.numDl);
    WordRoundTrip(page.numDu);
    WordRoundTrip(page.lpol);
    WordRoundTrip(page.lpou);
    assert s[2..4] == ToLE(page.numDl, 2) && s[4..6] == ToLE(page.numDu, 2);
    assert s[8..12] == ToLE(page.lpol, 4) && s[12..16] == ToLE(page.lpou, 4);
  }

  lemma LogPageBack(id: u16, nsid: u32, page: LogPageWire.GetLogPage)
    ensures var c := Decode(Capsule(LogPageSqe(id, nsid, page), []));
      && Reads(LogPageSqe(id, nsid, page), id, TargetQueues.GET_LOG_PAGE)
      && c.lid == TargetQueues.LOG_DISC && c.page == page
  {
    hide Bytes.ToLE, Bytes.FromLE, Bytes.Zeros, PageFields;
    var (s, f) := (LogPageSqe(id, nsid, page), PageFields(page));
    WordRoundTrip(id);
    PageFieldsBack(page);
    assert s[2..4] == ToLE(id, 2) && s[39] == 90 && s[40] == f[0];
    assert s[42..44] == f[2..4] && s[44..46] == f[4..6] && s[48..52] == f[8..12] && s[52..56] == f[12..16];
  }

  lemma ConnectBack(id: u16, hostId: seq<byte>, hostNqn: seq<byte>)
    requires |hostId| == 16 && |hostNqn| == NQN_FIELD
    ensures var c := Capsule(ConnectSqe(id, ConnectTail()), ConnectData(hostId, hostNqn));
      && c.Valid() && TakesInline(false, c.sqe) && Decode(c).id == id && TargetQueues.FlagsOk(Decode(c))
      && Decode(c).connect == TargetQueues.ConnectCommand(0, SQ_SIZE, TargetQueues.DISCOVERY_NQN, true, 0xffff)
  {
    hide Bytes.ToLE, Bytes.FromLE, Bytes.Zeros, TextField, TextOf;
    var (s, d) := (ConnectSqe(id, ConnectTail()), ConnectData(hostId, hostNqn));
    WordRoundTrip(id);
    WordRoundTrip(0);
    WordRoundTrip(SQ_SIZE);
    WordRoundTrip(0xffff);
    assert s[2..4] == ToLE(id, 2) && s[40..42] == ToLE(0, 2) && s[44..46] == ToLE(SQ_SIZE, 2);
    assert s[4] == TargetQueues.FABRICS_CONNECT && s[39] == TargetQueues.SGL_INLINE;
    NqnFits();
    assert d[16..18] == ToLE(0xffff, 2) && d[256..512] == TextField(TargetQueues.DISCOVERY_NQN, NQN_FIELD);
    TextBack(TargetQueues.DISCOVERY_NQN, NQN_FIELD - |TargetQueues.DISCOVERY_NQN|);
  }

  // One command there and back.

  datatype HostCommand =
    | Connect(hostId: seq<byte>, hostNqn: seq<byte>)
    | GetProperty(offset: u32)
    | SetProperty(offset: u32, value: u64)
    | Identify
    | EventsOn
    | GetLogPage(nsid: u32, size: u32, from: u64)
  {
    predicate Valid() { Connect? ==> |hostId| == 16 && |hostNqn| == NQN_FIELD }
  }

  function Packed(cmd: HostCommand, id: u16): (c: Capsule)
    requires cmd.Valid()
    ensures c.Valid()
  {
    match cmd
    case Connect(hostId, hostNqn) => Capsule(ConnectSqe(id, ConnectTail()), ConnectData(hostId, hostNqn))
    case GetProperty(offset) => Capsule(PropertyGetSqe(id, offset), [])
    case SetProperty(offset, value) => Capsule(PropertySetSqe(id, offset, value), [])
    case Identify => Capsule(IdentifySqe(id), [])
    case EventsOn => Capsule(EventsOnSqe(id), [])
    case GetLogPage(nsid, size, from) => Capsule(LogPageSqe(id, nsid, LogPageWire.Request(size, from)), [])
  }

  /** What the target sends with a successful completion; `identity` stands for the Identify data. */
  function DataOf(identity: seq<byte>, ctrl: TargetQueues.Ctrl, c: TargetQueues.Command,
                  log: DiscoveryLog.Log): seq<byte>
  {
    match TargetQueues.Parse(ctrl.Ctrl?, TargetQueues.IsReady(ctrl), c)
    case Request(kind) =>
      if kind == TargetQueues.Identify then identity
      else if kind == TargetQueues.LogPage then
        LogPageFetch.Payload(DiscoveryTarget.Handler(log, LogPageWire.Length(c.page), LogPageWire.Offset(c.page)))
      else []
    case Rejected(_) => []
  }

  /** The two ends of a connection. */
  datatype Ends = Ends(host: HostQueues.State, target: TargetQueues.State)

  /** The host writes a command under its next id; the target reads the bytes and executes what they say; the
      bytes of its completion, if it sends one, go through the host's queue. */
  ghost function RoundTrip(e: Ends, cmd: HostCommand, log: DiscoveryLog.Log, identity: seq<byte>): Ends
    requires cmd.Valid()
  {
    var h := HostQueues.SendRequest(e.host, HostQueues.Normal, true);
    var read := TargetRead(EncodeCapsule(Packed(cmd, e.host.commandId)), e.target.ctrl.Ctrl?);
    if !read.Done? || |read.value.sqe| != 64 then Ends(h, e.target)
    else
      var c := Decode(read.value);
      var t := TargetQueues.Receive(e.target, c, log);
      if |t.done| <= |e.target.done| then Ends(h, t)
      else
        var x := t.done[|e.target.done|];
        var reply := Exchange.Response(x.id, x.status, Zeros(8), DataOf(identity, e.target.ctrl, c, log));
        Ends(HostQueues.ReceiveAll(h, HostReads(EncodeReplies(reply))), t)
  }

  /** A command that the target takes off the stream whole, executes and completes with success. */
  ghost predicate Accepts(ctrl: TargetQueues.Ctrl, cmd: HostCommand, id: u16, log: DiscoveryLog.Log,
                          identity: seq<byte>, ctrl': TargetQueues.Ctrl, data: seq<byte>)
    requires cmd.Valid()
  {
    var capsule := Packed(cmd, id);
    && Agrees(capsule, ctrl.Ctrl?)
    && var c := Decode(capsule);
    && c.id == id
    && TargetQueues.Decide(ctrl, c, log)
         == TargetQueues.Decision(TargetQueues.Answer(TargetQueues.SUCCESS), TargetQueues.Open, ctrl')
    && DataOf(identity, ctrl, c, log) == data
  }

  /** After `|data|` commands: all of them delivered in order, under ids that count up, with success and this data. */
  ghost predicate HostInStep(h: HostQueues.State, data: seq<seq<byte>>)
  {
    && h.live && !h.broken && h.outstanding == map[] && h.commandId == (1 + |data|) % U16
    && |h.completed| == |data|
    && forall i :: 0 <= i < |data| ==>
         && h.completed[i].id == (1 + i) % U16 && h.completed[i].completion == Some(HostQueues.Cqe((1 + i) % U16, 0))
         && h.completed[i].data == if data[i] == [] then None else Some(data[i])
  }

  /** And after `n` of them on the target: all completed in order, with success. */
  ghost predicate TargetInStep(t: TargetQueues.State, ctrl: TargetQueues.Ctrl, n: nat)
  {
    && t.phase == TargetQueues.Open && t.ctrl == ctrl && |t.received| == n
    && t.done == seq(n, i requires 0 <= i < n => TargetQueues.Completion(i, (1 + i) % U16, 0))
  }

  ghost predicate InStep(e: Ends, ctrl: TargetQueues.Ctrl, data: seq<seq<byte>>)
  {
    HostInStep(e.host, data) && TargetInStep(e.target, ctrl, |data|)
  }

  /** The target's half of an accepted command. */
  lemma TargetHalf(t: TargetQueues.State, cmd: HostCommand, id: u16, log: DiscoveryLog.Log, identity: seq<byte>,
                   ctrl': TargetQueues.Ctrl, data: seq<byte>)
    requires cmd.Valid() && t.phase == TargetQueues.Open && Accepts(t.ctrl, cmd, id, log, identity, ctrl', data)
    ensures var read := TargetRead(EncodeCapsule(Packed(cmd, id)), t.ctrl.Ctrl?);
      && read == Done(Packed(cmd, id), [])
      && var t' := TargetQueues.Receive(t, Decode(read.value), log);
      && t'.phase == TargetQueues.Open && t'.ctrl == ctrl' && |t'.received| == |t.received| + 1
      && t'.done == t.done + [TargetQueues.Completion(|t.received|, id, 0)]
  {
    hide Packed, Decode, EncodeCapsule, TargetRead, Agrees, DataOf, TargetQueues.Decide, TargetQueues.Track;
    var c := Packed(cmd, id);
    CapsuleFramed(c, t.ctrl.Ctrl?, []);
    assert EncodeCapsule(c) + [] == EncodeCapsule(c);
    TrackKeeps(t.(received := t.received + [Decode(c)]), Decode(c), TargetQueues.Decide(t.ctrl, Decode(c), log));
  }

  lemma TrackKeeps(s: TargetQueues.State, c: TargetQueues.Command, d: TargetQueues.Decision)
    ensures var t := TargetQueues.Track(s, c, d); t.received == s.received && t.done == s.done
  {
  }

  /** The host's half: the request that was just sent is delivered, and nothing is outstanding again. */
  lemma HostHalf(h: HostQueues.State, data: seq<byte>)
    requires h.live && !h.broken && h.outstanding == map[] && |data| < U32 - DATA_SIZE
    ensures var id := h.commandId;
      var sent := HostQueues.SendRequest(h, HostQueues.Normal, true);
      var h' := HostQueues.ReceiveAll(sent, HostReads(EncodeReplies(Exchange.Response(id, 0, Zeros(8), data))));
      && h'.live && !h'.broken && h'.outstanding == map[] && h'.commandId == (id + 1) % U16
      && |h'.completed| == |h.completed| + 1 && h'.completed[..|h.completed|] == h.completed
      && var r := h'.completed[|h.completed|];
      r.id == id && r.completion == Some(HostQueues.Cqe(id, 0)) && r.data == if data == [] then None else Some(data)
  {
    hide EncodeReplies, HostReads, Exchange.Response, HostQueues.ReceiveAll;
    var sent := HostQueues.SendRequest(h, HostQueues.Normal, true);
    Exchange.ResponseDelivered(sent, h.commandId, 0, Zeros(8), data);
    ReceivesKeep(sent, HostReads(EncodeReplies(Exchange.Response(h.commandId, 0, Zeros(8), data))));
    assert sent.outstanding - {h.commandId} == map[];
  }

  /** Reading does not touch the writing side. */
  lemma {:induction false} ReceivesKeep(s: HostQueues.State, pdus: seq<HostQueues.Pdu>)
    ensures var t := HostQueues.ReceiveAll(s, pdus); t.broken == s.broken && t.commandId == s.commandId
  {
    if pdus == [] {
    } else {
      ReceivesKeep(s, pdus[..|pdus| - 1]);
      ReceiveKeeps(HostQueues.ReceiveAll(s, pdus[..|pdus| - 1]), pdus[|pdus| - 1]);
    }
  }

  lemma ReceiveKeeps(s: HostQueues.State, p: HostQueues.Pdu)
    ensures var t := HostQueues.Receive(s, p); t.broken == s.broken && t.commandId == s.commandId
  {
    hide HostQueues.Stored;
  }

  lemma HostOn(h: HostQueues.State, h': HostQueues.State, data: seq<seq<byte>>, more: seq<byte>)
    requires HostInStep(h, data) && h'.live && !h'.broken && h'.outstanding == map[]
        && h'.commandId == (h.commandId + 1) % U16
    requires |h'.completed| == |data| + 1 && h'.completed[..|data|] == h.completed
    requires var (r, id) := (h'.completed[|data|], h.commandId);
      r.id == id && r.completion == Some(HostQueues.Cqe(id, 0)) && r.data == if more == [] then None else Some(more)
    ensures HostInStep(h', data + [more])
  {
    forall i | 0 <= i < |data| ensures h'.completed[i] == h.completed[i] {
      assert h'.completed[i] == h'.completed[..|data|][i];
    }
  }

  lemma TargetOn(t: TargetQueues.State, t': TargetQueues.State, ctrl: TargetQueues.Ctrl, ctrl': TargetQueues.Ctrl,
                 n: nat)
    requires TargetInStep(t, ctrl, n) && t'.phase == TargetQueues.Open && t'.ctrl == ctrl' && |t'.received| == n + 1
    requires t'.done == t.done + [TargetQueues.Completion(n, (1 + n) % U16, 0)]
    ensures TargetInStep(t', ctrl', n + 1)
  {
  }

  /** An accepted command takes both ends one step on. */
  lemma RoundInStep(e: Ends, ctrl: TargetQueues.Ctrl, data: seq<seq<byte>>, cmd: HostCommand, log: DiscoveryLog.Log,
                    identity: seq<byte>, ctrl': TargetQueues.Ctrl, more: seq<byte>)
    requires InStep(e, ctrl, data) && cmd.Valid() && |more| < U32 - DATA_SIZE
    requires Accepts(ctrl, cmd, (1 + |data|) % U16, log, identity, ctrl', more)
    ensures InStep(RoundTrip(e, cmd, log, identity), ctrl', data + [more])
  {
    hide TargetRead, EncodeCapsule, Packed, Decode, DataOf, TargetQueues.Receive, HostQueues.SendRequest,
         HostQueues.ReceiveAll, HostReads, EncodeReplies, Exchange.Response, Accepts;
    TargetHalf(e.target, cmd, e.host.commandId, log, identity, ctrl', more);
    HostHalf(e.host, more);
    AcceptedData(ctrl, cmd, e.host.commandId, log, identity, ctrl', more);
    var e' := RoundTrip(e, cmd, log, identity);
    HostOn(e.host, e'.host, data, more);
    TargetOn(e.target, e'.target, ctrl, ctrl', |data|);
  }

  lemma AcceptedData(ctrl: TargetQueues.Ctrl, cmd: HostCommand, id: u16, log: DiscoveryLog.Log, identity: seq<byte>,
                     ctrl': TargetQueues.Ctrl, data: seq<byte>)
    requires cmd.Valid() && Accepts(ctrl, cmd, id, log, identity, ctrl', data)
    ensures DataOf(identity, ctrl, Decode(Packed(cmd, id)), log) == data
  {
  }

  // The host's session.

  const FRESH: TargetQueues.Ctrl := TargetQueues.Ctrl(Controllers.Regs(0, 0), false, [])

  /** The controller that the host's write of CC leaves, and the same with events switched on. */
  function Enabled(aen: bool): TargetQueues.Ctrl
  {
    TargetQueues.Ctrl(Controllers.WriteCc(Controllers.Regs(0, 0), TargetRuns.ENABLE), aen, [])
  }

  lemma ConnectAccepted(hostId: seq<byte>, hostNqn: seq<byte>, id: u16, log: DiscoveryLog.Log, identity: seq<byte>)
    requires |hostId| == 16 && |hostNqn| == NQN_FIELD
    ensures Accepts(TargetQueues.NoCtrl, Connect(hostId, hostNqn), id, log, identity, FRESH, [])
  {
    hide Decode, ConnectSqe, ConnectTail, ConnectData;
    ConnectBack(id, hostId, hostNqn);
    ConnectKind(Packed(Connect(hostId, hostNqn), id));
  }

  /** The bytes that say connect are the fields that say connect. */
  lemma ConnectKind(c: Capsule)
    requires c.Valid() && TakesInline(false, c.sqe)
    ensures var d := Decode(c);
      d.opcode == TargetQueues.FABRICS && d.fcType == TargetQueues.FABRICS_CONNECT
          && d.sglType == TargetQueues.SGL_INLINE
  {
    hide Bytes.FromLE, TextOf;
  }

  lemma PlainKind(sqe: seq<byte>, id: u16, opcode: byte, ctrl: TargetQueues.Ctrl)
    requires Reads(sqe, id, opcode)
    ensures var c := Decode(Capsule(sqe, []));
      && c.opcode == opcode && c.id == id && c.sglType != TargetQueues.SGL_INLINE && TargetQueues.FlagsOk(c)
      && Agrees(Capsule(sqe, []), ctrl.Ctrl?)
  {
    hide Bytes.FromLE, TextOf;
  }

  lemma GetAccepted(ctrl: TargetQueues.Ctrl, offset: u32, id: u16, log: DiscoveryLog.Log, identity: seq<byte>)
    requires ctrl.Ctrl?
    requires offset in {TargetQueues.REG_CAP, TargetQueues.REG_VS, TargetQueues.REG_CC, TargetQueues.REG_CSTS}
    ensures Accepts(ctrl, GetProperty(offset), id, log, identity, ctrl, [])
  {
    hide Decode, PropertyGetSqe, Agrees, Controllers.Ready;
    PropertyGetBack(id, offset);
    PlainKind(PropertyGetSqe(id, offset), id, TargetQueues.FABRICS, ctrl);
  }

  lemma EnableAccepted(id: u16, log: DiscoveryLog.Log, identity: seq<byte>)
    ensures Accepts(FRESH, SetProperty(TargetQueues.REG_CC, TargetRuns.ENABLE as int), id, log, identity,
                    Enabled(false), [])
  {
    hide Decode, PropertySetSqe, Agrees, Controllers.Ready, Controllers.WriteCc, TargetQueues.CcValue;
    TargetRuns.CcValueBack(TargetRuns.ENABLE);
    var value := TargetRuns.ENABLE as int;
    PropertySetBack(id, TargetQueues.REG_CC, value);
    PlainKind(PropertySetSqe(id, TargetQueues.REG_CC, value), id, TargetQueues.FABRICS, FRESH);
  }

  lemma IdentifyAccepted(ctrl: TargetQueues.Ctrl, id: u16, log: DiscoveryLog.Log, identity: seq<byte>)
    requires TargetQueues.IsReady(ctrl)
    ensures Accepts(ctrl, Identify, id, log, identity, ctrl, identity)
  {
    hide Decode, IdentifySqe, Agrees, Controllers.Ready;
    IdentifyBack(id);
    PlainKind(IdentifySqe(id), id, TargetQueues.IDENTIFY, ctrl);
  }

  lemma EventsOnAccepted(ctrl: TargetQueues.Ctrl, id: u16, log: DiscoveryLog.Log, identity: seq<byte>)
    requires TargetQueues.IsReady(ctrl)
    ensures Accepts(ctrl, EventsOn, id, log, identity, ctrl.(aen := true), [])
  {
    hide Decode, EventsOnSqe, Agrees, Controllers.Ready;
    EventsOnBack(id);
    PlainKind(EventsOnSqe(id), id, TargetQueues.SET_FEATURES, ctrl);
  }

  /** A log page request is accepted with exactly what the handler has for the size and offset that were asked. */
  lemma PageAccepted(ctrl: TargetQueues.Ctrl, nsid: u32, size: u32, from: u64, id: u16, log: DiscoveryLog.Log,
                     identity: seq<byte>)
    requires TargetQueues.IsReady(ctrl) && DiscoveryTarget.Handler(log, size - size % 4, from).Data?
    ensures Accepts(ctrl, GetLogPage(nsid, size, from), id, log, identity, ctrl,
                    DiscoveryTarget.Handler(log, size - size % 4, from).bytes)
  {
    hide Decode, LogPageSqe, Agrees, Controllers.Ready, DiscoveryTarget.Handler, LogPageWire.Request,
         LogPageWire.Length, LogPageWire.Offset;
    var page := LogPageWire.Request(size, from);
    LogPageBack(id, nsid, page);
    PlainKind(LogPageSqe(id, nsid, page), id, TargetQueues.GET_LOG_PAGE, ctrl);
    LogPageWire.RequestRoundTrip(size, from);
  }

  ghost function Talk(e: Ends, cmds: seq<HostCommand>, logs: seq<DiscoveryLog.Log>, identity: seq<byte>): Ends
    requires |cmds| == |logs| && forall i :: 0 <= i < |cmds| ==> cmds[i].Valid()
  {
    if cmds == [] then e
    else
      var n := |cmds| - 1;
      RoundTrip(Talk(e, cmds[..n], logs[..n], identity), cmds[n], logs[n], identity)
  }

  /** Who talks, what the target says to Identify, and what its log is during the opening. */
  datatype Setting = Setting(hostId: seq<byte>, hostNqn: seq<byte>, identity: seq<byte>, logs: seq<DiscoveryLog.Log>)
  {
    predicate Valid()
    {
      |hostId| == 16 && |hostNqn| == NQN_FIELD && |identity| < U32 - DATA_SIZE && |logs| == 8
    }

    /** What the host sends before it reads the log page. */
    function Opening(): (cmds: seq<HostCommand>)
      requires Valid()
      ensures |cmds| == 8 && forall i :: 0 <= i < |cmds| ==> cmds[i].Valid()
    {
      [Connect(hostId, hostNqn), GetProperty(TargetQueues.REG_CAP),
       SetProperty(TargetQueues.REG_CC, TargetRuns.ENABLE as int), GetProperty(TargetQueues.REG_CSTS),
       GetProperty(TargetQueues.REG_VS), GetProperty(TargetQueues.REG_CAP), Identify, EventsOn]
    }

    /** What comes back with those: data for Identify only. */
    function OpeningData(): (data: seq<seq<byte>>)
      ensures |data| == 8
    {
      [[], [], [], [], [], [], identity, []]
    }
  }

  /** The controller before command `i` of the opening. */
  function CtrlBefore(i: nat): TargetQueues.Ctrl
  {
    if i == 0 then TargetQueues.NoCtrl else if i < 3 then FRESH else Enabled(i >= 8)
  }

  lemma EnabledReady(aen: bool)
    ensures TargetQueues.IsReady(Enabled(aen))
  {
    TargetRuns.EnableReady();
  }

  lemma EnabledIs(aen: bool)
    ensures Enabled(aen).Ctrl? && Enabled(false).Ctrl? && Enabled(false).(aen := aen) == Enabled(aen)
  {
  }

  lemma OpeningAccepted(w: Setting, i: nat)
    requires w.Valid() && i < 8
    ensures Accepts(CtrlBefore(i), w.Opening()[i], (1 + i) % U16, w.logs[i], w.identity, CtrlBefore(i + 1),
                    w.OpeningData()[i])
  {
    hide Accepts, Enabled, TargetQueues.IsReady;
    var (id: u16, log, identity) := ((1 + i) % U16, w.logs[i], w.identity);
    EnabledReady(false);
    ConnectAccepted(w.hostId, w.hostNqn, id, log, identity);
    EnableAccepted(id, log, identity);
    GetAccepted(FRESH, TargetQueues.REG_CAP, id, log, identity);
    EnabledIs(true);
    GetAccepted(Enabled(false), TargetQueues.REG_CSTS, id, log, identity);
    GetAccepted(Enabled(false), TargetQueues.REG_VS, id, log, identity);
    GetAccepted(Enabled(false), TargetQueues.REG_CAP, id, log, identity);
    IdentifyAccepted(Enabled(false), id, log, identity);
    EventsOnAccepted(Enabled(false), id, log, identity);
  }

  ghost function Start(): Ends { Ends(HostQueues.Init(), TargetQueues.Init()) }

  /** Whatever the host is called and whatever the log does meanwhile, every command of the opening is accepted,
      and it leaves a ready controller with events on. */
  lemma {:induction false} OpeningServed(w: Setting, n: nat)
    requires w.Valid() && n <= 8
    ensures InStep(Talk(Start(), w.Opening()[..n], w.logs[..n], w.identity), CtrlBefore(n), w.OpeningData()[..n])
  {
    hide RoundTrip, Accepts, Enabled;
    var (cmds, logs, data) := (w.Opening()[..n], w.logs[..n], w.OpeningData());
    if n == 0 {
      assert cmds == [] && data[..0] == [];
    } else {
      hide InStep;
      var k := n - 1;
      OpeningServed(w, k);
      assert cmds[..k] == w.Opening()[..k] && logs[..k] == w.logs[..k] && data[..k] + [data[k]] == data[..n];
      OpeningAccepted(w, k);
      RoundInStep(Talk(Start(), cmds[..k], logs[..k], w.identity), CtrlBefore(k), data[..k], cmds[k], logs[k],
                  w.identity, CtrlBefore(n), data[k]);
    }
  }

  /** One read of the log page, and the log as it finds it. */
  datatype Page = Page(nsid: u32, size: u32, from: u64, log: DiscoveryLog.Log)
  {
    function Reply(): DiscoveryTarget.Reply { DiscoveryTarget.Handler(log, size - size % 4, from) }

    function Data(): seq<byte> { LogPageFetch.Payload(Reply()) }

    /** The target has the data and the length of its PDU does not wrap. */
    predicate Served() { Reply().Data? && |Data()| < U32 - DATA_SIZE }
  }

  function Commands(pages: seq<Page>): seq<HostCommand>
  {
    seq(|pages|, i requires 0 <= i < |pages| => GetLogPage(pages[i].nsid, pages[i].size, pages[i].from))
  }

  function Logs(pages: seq<Page>): seq<DiscoveryLog.Log>
  {
    seq(|pages|, i requires 0 <= i < |pages| => pages[i].log)
  }

  function PageData(pages: seq<Page>): seq<seq<byte>>
  {
    seq(|pages|, i requires 0 <= i < |pages| => pages[i].Data())
  }

  ghost function Session(w: Setting, pages: seq<Page>): Ends
    requires w.Valid()
  {
    Talk(Start(), w.Opening() + Commands(pages), w.logs + Logs(pages), w.identity)
  }

  lemma SessionMore(w: Setting, pages: seq<Page>)
    requires w.Valid() && pages != []
    ensures var (rest, p) := (pages[..|pages| - 1], pages[|pages| - 1]);
      Session(w, pages) == RoundTrip(Session(w, rest), GetLogPage(p.nsid, p.size, p.from), p.log, w.identity)
  {
    hide RoundTrip;
    var rest := pages[..|pages| - 1];
    var (cmds, logs) := (w.Opening() + Commands(pages), w.logs + Logs(pages));
    assert cmds[..|cmds| - 1] == w.Opening() + Commands(rest);
    assert logs[..|logs| - 1] == w.logs + Logs(rest);
  }

  lemma SessionOpening(w: Setting)
    requires w.Valid()
    ensures InStep(Session(w, []), Enabled(true), w.OpeningData())
  {
    hide InStep, Talk, Enabled;
    OpeningServed(w, 8);
    var (cmds, data) := (w.Opening(), w.OpeningData());
    assert cmds[..8] == cmds + Commands([]) && w.logs[..8] == w.logs + Logs([]) && data[..8] == data;
  }

  lemma ServedPage(p: Page, id: u16, identity: seq<byte>)
    requires p.Served()
    ensures Accepts(Enabled(true), GetLogPage(p.nsid, p.size, p.from), id, p.log, identity, Enabled(true), p.Data())
  {
    hide Accepts, Enabled, TargetQueues.IsReady, DiscoveryTarget.Handler;
    EnabledReady(true);
    PageAccepted(Enabled(true), p.nsid, p.size, p.from, id, p.log, identity);
  }

  /** The whole session, for every host and every list of reads that the target can serve: each command is read
      off the stream, accepted and completed once and with success, in order, and each read hands the host
      exactly the handler's data. */
  lemma {:induction false} SessionServed(w: Setting, pages: seq<Page>)
    requires w.Valid() && forall i :: 0 <= i < |pages| ==> pages[i].Served()
    ensures InStep(Session(w, pages), Enabled(true), w.OpeningData() + PageData(pages))
    decreases |pages|
  {
    hide RoundTrip, Accepts, Enabled, InStep, Talk, Page.Data, Session;
    if pages == [] {
      SessionOpening(w);
      assert w.OpeningData() + PageData(pages) == w.OpeningData();
    } else {
      var (rest, p) := (pages[..|pages| - 1], pages[|pages| - 1]);
      SessionServed(w, rest);
      SessionMore(w, pages);
      var data := w.OpeningData() + PageData(rest);
      assert data + [p.Data()] == w.OpeningData() + PageData(pages);
      ServedPage(p, (1 + |data|) % U16, w.identity);
      RoundInStep(Session(w, rest), Enabled(true), data, GetLogPage(p.nsid, p.size, p.from), p.log, w.identity,
                  Enabled(true), p.Data());
    }
  }

  // What the host makes of it.

  /** Read `i` of a session gives the host what one fetch from the handler gives it. */
  ghost predicate Fetches(e: Ends, i: nat, p: Page, num: u64)
  {
    && 8 + i < |e.host.completed| && e.host.completed[8 + i].data.Some?
    && LogPageFetch.ReadSpec(e.host.completed[8 + i].data.value, p.from, num)
       == LogPageFetch.FetchSpec(p.log, p.size, p.from, num)
  }

  lemma SessionFetch(w: Setting, pages: seq<Page>, i: nat, num: u64)
    requires w.Valid() && forall j :: 0 <= j < |pages| ==> pages[j].Served()
    requires i < |pages| && pages[i].Data() != []
    ensures |Session(w, pages).host.completed| == 8 + |pages| && Fetches(Session(w, pages), i, pages[i], num)
  {
    hide Session, LogPageFetch.ReadSpec, DiscoveryTarget.Handler, TargetInStep;
    SessionServed(w, pages);
    var data := w.OpeningData() + PageData(pages);
    assert data[8 + i] == pages[i].Data();
  }

  /** The reads of the paging loop for `n` records, between the two of the header. */
  function PagedReads(log: DiscoveryLog.Log, n: u32): (pages: seq<Page>)
    ensures |pages| == 2 + (n + 2) / 3
  {
    var m := (n + 2) / 3;
    [Page(0xffff_ffff, 1024, 0, log)]
      + seq(m, i requires 0 <= i < m => Page(0, 4096, i * 3 * DiscoveryLog.UNIT, log))
      + [Page(0, 1024, 0, log)]
  }

  lemma AlignedServed(p: Page)
    requires p.log.Valid() && p.size in {1024, 4096} && p.from % DiscoveryLog.UNIT == 0 && p.from != DiscoveryLog.UNIT
    ensures p.Served() && p.Data() != []
  {
    hide DiscoveryTarget.Handler, DiscoveryLog.Window, DiscoveryLog.Page;
    DiscoveryTarget.WindowExact(p.log, p.size, p.from);
  }

  lemma PagedServed(log: DiscoveryLog.Log, n: u32, i: nat)
    requires log.Valid() && i < |PagedReads(log, n)|
    ensures PagedReads(log, n)[i].Served() && PagedReads(log, n)[i].Data() != []
  {
    hide Page.Data, Page.Served;
    var p := PagedReads(log, n)[i];
    if 0 < i <= (n + 2) / 3 { DiscoveryHost.UnitIndex((i - 1) * 3); }
    assert p.from % DiscoveryLog.UNIT == 0 && p.from != DiscoveryLog.UNIT;
    AlignedServed(p);
  }

  lemma PagedFetch(w: Setting, log: DiscoveryLog.Log, i: nat, num: u64)
    requires w.Valid() && log.Valid() && i < |PagedReads(log, |log.recs|)|
    ensures var pages := PagedReads(log, |log.recs|);
      |Session(w, pages).host.completed| == 8 + |pages| && Fetches(Session(w, pages), i, pages[i], num)
  {
    hide Session, Page.Served, Page.Data, Fetches, PagedReads;
    var pages := PagedReads(log, |log.recs|);
    forall j | 0 <= j < |pages| ensures pages[j].Served() && pages[j].Data() != [] {
      PagedServed(log, |log.recs|, j);
    }
    SessionFetch(w, pages, i, num);
  }

  /** Record `i` is entry `i % 3` of the page that begins with record `i / 3 * 3`. */
  lemma PageEntry(log: DiscoveryLog.Log, i: nat)
    requires log.Valid() && i < |log.recs|
    ensures var f := LogPageFetch.FetchSpec(log, 4096, i / 3 * 3 * DiscoveryLog.UNIT, |log.recs|);
      f.Fetched? && i % 3 < |f.entries| && f.entries[i % 3] == log.recs[i]
  {
    hide LogPageFetch.FetchSpec, DiscoveryHost.PageUnit;
    DiscoveryHost.FetchUnits(log, 4, i / 3 * 3, |log.recs|);
    DiscoveryHost.RecordUnit(log, i);
  }

  /** Where the reads are among the delivered requests. */
  lemma PagedAt(log: DiscoveryLog.Log, n: u32, k: nat)
    ensures var (m, pages) := ((n + 2) / 3, PagedReads(log, n));
      && pages[0].log == log && pages[0].size == 1024 && pages[0].from == 0
      && (k < m ==> k * 3 * DiscoveryLog.UNIT < U64 && pages[1 + k] == Page(0, 4096, k * 3 * DiscoveryLog.UNIT, log))
      && pages[1 + m] == Page(0, 1024, 0, log)
  {
  }

  /** The reads before and after the records say how many there are, and the same generation. */
  ghost predicate Counts(done: seq<HostQueues.Request>, n: nat, gen: nat)
  {
    && |done| == 10 + (n + 2) / 3 && done[8].data.Some? && done[|done| - 1].data.Some?
    && var first := LogPageFetch.ReadSpec(done[8].data.value, 0, 0);
    && var last := LogPageFetch.ReadSpec(done[|done| - 1].data.value, 0, 0);
    && first.Fetched? && last.Fetched? && first.numRec == n && first.genCtr == gen == last.genCtr
  }

  /** Read `k` of the pages, which begins with record `3 * k`, has this record as its entry `j`. */
  ghost predicate HasRecord(done: seq<HostQueues.Request>, n: u64, k: nat, j: nat, record: DiscoveryLog.Record)
  {
    && 9 + k < |done| && done[9 + k].data.Some? && k * 3 * DiscoveryLog.UNIT < U64
    && var page := LogPageFetch.ReadSpec(done[9 + k].data.value, k * 3 * DiscoveryLog.UNIT, n);
    && page.Fetched? && j < |page.entries| && page.entries[j] == record
  }

  lemma CountsRead(w: Setting, log: DiscoveryLog.Log)
    requires w.Valid() && log.Valid()
    ensures Counts(Session(w, PagedReads(log, |log.recs|)).host.completed, |log.recs|, log.gen)
  {
    hide Session, LogPageFetch.ReadSpec, LogPageFetch.FetchSpec, DiscoveryHost.PageUnit, PagedReads;
    var m := (|log.recs| + 2) / 3;
    PagedAt(log, |log.recs|, 0);
    PagedFetch(w, log, 0, 0);
    PagedFetch(w, log, 1 + m, 0);
    DiscoveryHost.FetchAligned(log, 1024, 0, 0);
  }

  lemma RecordRead(w: Setting, log: DiscoveryLog.Log, i: nat)
    requires w.Valid() && log.Valid() && i < |log.recs|
    ensures HasRecord(Session(w, PagedReads(log, |log.recs|)).host.completed, |log.recs|, i / 3, i % 3, log.recs[i])
  {
    hide Session, LogPageFetch.ReadSpec, LogPageFetch.FetchSpec, PagedReads;
    PagedAt(log, |log.recs|, i / 3);
    PagedFetch(w, log, 1 + i / 3, |log.recs|);
    PageEntry(log, i);
  }

  /** A session with a log that stands still ends with its records: the count and the generation, and every record
      where the host looks for it. */
  lemma SessionRecords(w: Setting, log: DiscoveryLog.Log)
    requires w.Valid() && log.Valid()
    ensures Counts(Session(w, PagedReads(log, |log.recs|)).host.completed, |log.recs|, log.gen)
    ensures forall i :: 0 <= i < |log.recs| ==>
      HasRecord(Session(w, PagedReads(log, |log.recs|)).host.completed, |log.recs|, i / 3, i % 3, log.recs[i])
  {
    hide Session, PagedReads, Counts, HasRecord;
    CountsRead(w, log);
    forall i | 0 <= i < |log.recs|
      ensures HasRecord(Session(w, PagedReads(log, |log.recs|)).host.completed, |log.recs|, i / 3, i % 3, log.recs[i])
    {
      RecordRead(w, log, i);
    }
  }
}
