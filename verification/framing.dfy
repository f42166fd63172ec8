// PDU framing on the TCP stream, in both directions.

module Framing {
  import opened Bytes
  import opened ScatterLists
  import HostQueues
  import TargetQueues

  const ICREQ: byte := 0x0
  const ICRESP: byte := 0x1
  const CMD: byte := 0x4
  const RSP: byte := 0x5
  const C2H_DATA: byte := 0x7

  const HDR: nat := 8
  const IC_SIZE: byte := 128
  const CMD_SIZE: byte := 72
  const RSP_SIZE: byte := 24
  const DATA_SIZE: byte := 24
  const CONNECT_DATA: nat := 1024
  const DATA_LAST: byte := 0x4

  datatype Header = Header(kind: byte, flags: byte, hlen: byte, pdo: byte, plen: nat)

  function PutHeader(h: Header): (s: seq<byte>)
    ensures |s| == HDR
  {
    [h.kind, h.flags, h.hlen, h.pdo] + ToLE(h.plen, 4)
  }

  function GetHeader(s: seq<byte>): Header
    requires |s| >= HDR
  {
    Header(s[0], s[1], s[2], s[3], FromLE(s[4..8]))
  }

  lemma HeaderBack(h: Header, rest: seq<byte>)
    requires h.plen < U32
    ensures GetHeader(PutHeader(h) + rest) == h
  {
    WordRoundTrip(h.plen);
    assert (PutHeader(h) + rest)[4..8] == ToLE(h.plen, 4);
  }

  /** One PDU taken off the stream, not enough bytes, a malformed one, or a negative length. */
  datatype Read<T> = Done(value: T, rest: seq<byte>) | Short | Bad | Crash

  // Target to host.

  datatype Reply =
    | IcResp
    | Rsp(result: seq<byte>, sqHead: u16, sqId: u16, id: u16, status: u16)
    | Data(id: u16, data: seq<byte>)
  {
    predicate Valid()
    {
      match this
      case IcResp => true
      case Rsp(result, _, _, _, _) => |result| == 8
      case Data(_, data) => |data| < U32
    }
  }

  /** The length field is computed in 32 bits. */
  function ReplyHeader(r: Reply): (h: Header)
    ensures h.plen < U32
  {
    match r
    case IcResp => Header(ICRESP, 0, IC_SIZE, 0, IC_SIZE)
    case Rsp(_, _, _, _, _) => Header(RSP, 0, RSP_SIZE, 0, RSP_SIZE)
    case Data(_, data) =>
      Header(C2H_DATA, DATA_LAST, DATA_SIZE, if data != [] then DATA_SIZE else 0, (DATA_SIZE + |data|) % U32)
  }

  function ReplyBody(r: Reply): seq<byte>
  {
    match r
    case IcResp => ToLE(0, 2) + [0, 0] + ToLE(0x1_0000, 4) + Zeros(112)
    case Rsp(result, sqHead, sqId, id, status) =>
      result + ToLE(sqHead, 2) + ToLE(sqId, 2) + ToLE(id, 2) + ToLE(status, 2)
    case Data(id, data) => ToLE(id, 2) + ToLE(0, 2) + ToLE(0, 4) + ToLE(|data|, 4) + Zeros(4) + data
  }

  function EncodeReply(r: Reply): seq<byte> { PutHeader(ReplyHeader(r)) + ReplyBody(r) }

  function EncodeReplies(rs: seq<Reply>): seq<byte>
  {
    if rs == [] then [] else EncodeReply(rs[0]) + EncodeReplies(rs[1..])
  }

  /** The data PDU of a filled list, as the target writes it. */
  method SendDataPdu(sgl: ScatterList, id: u16) returns (out: seq<byte>)
    requires sgl.Valid() && sgl.capacity < U32
    ensures out == EncodeReply(Data(id, sgl.Flat()))
  {
    hide Bytes.ToLE, Bytes.Zeros, PutHeader, Chunks.Concat;
    var dataLen := sgl.capacity;
    var pdo := if dataLen > 0 then DATA_SIZE else 0;
    var hdr := Header(C2H_DATA, DATA_LAST, DATA_SIZE, pdo, (DATA_SIZE + dataLen) % U32);
    var pdu := ToLE(id, 2) + ToLE(0, 2) + ToLE(0, 4) + ToLE(dataLen, 4) + Zeros(4);
    var bytes := ReadAll(sgl);
    out := PutHeader(hdr) + (pdu + bytes);
  }

  predicate HostKind(kind: byte) { kind == ICRESP || kind == RSP || kind == C2H_DATA }

  function HostSize(kind: byte): byte
    requires HostKind(kind)
  {
    if kind == ICRESP then IC_SIZE else RSP_SIZE
  }

  /** The body of a PDU as the host reads it; what follows the fixed fields of a data PDU is its payload. */
  function HostBody(kind: byte, body: seq<byte>): Read<HostQueues.Pdu>
    requires HostKind(kind)
  {
    if |body| < (if kind == ICRESP then 120 else 16) then Bad
    else if kind == ICRESP then Done(HostQueues.IcResp(FromLE(body[..2]) % U16, body[2]), body[120..])
    else if kind == RSP then
      Done(HostQueues.Rsp(HostQueues.Cqe(FromLE(body[12..14]) % U16, FromLE(body[14..16]) % U16)), body[16..])
    else Done(HostQueues.Data(FromLE(body[..2]) % U16, FromLE(body[8..12]) % U32, body[16..]), [])
  }

  function HostRead(s: seq<byte>): Read<HostQueues.Pdu>
  {
    if |s| < HDR then Short
    else
      var h := GetHeader(s);
      if !HostKind(h.kind) || h.hlen != HostSize(h.kind) then Bad
      else if h.plen < HDR then Crash
      else if |s| < h.plen then Short
      else
        match HostBody(h.kind, s[HDR..h.plen])
        case Done(pdu, _) => Done(pdu, s[h.plen..])
        case _ => Bad
  }

  /** What a reply should look like to the host. */
  function Seen(r: Reply): HostQueues.Pdu
  {
    match r
    case IcResp => HostQueues.IcResp(0, 0)
    case Rsp(_, _, _, id, status) => HostQueues.Rsp(HostQueues.Cqe(id, status))
    case Data(id, data) => HostQueues.Data(id, |data| % U32, data)
  }

  predicate Fits(r: Reply) { r.Data? ==> |r.data| < U32 - DATA_SIZE }

  lemma RspBack(result: seq<byte>, sqHead: u16, sqId: u16, id: u16, status: u16)
    requires |result| == 8
    ensures var r := Rsp(result, sqHead, sqId, id, status);
            |ReplyBody(r)| == 16 && HostBody(RSP, ReplyBody(r)).Done? && HostBody(RSP, ReplyBody(r)).value == Seen(r)
  {
    hide Bytes.ToLE, Bytes.FromLE;
    WordRoundTrip(id);
    WordRoundTrip(status);
    var b := ReplyBody(Rsp(result, sqHead, sqId, id, status));
    assert b[12..14] == ToLE(id, 2) && b[14..16] == ToLE(status, 2);
  }

  lemma DataBack(id: u16, data: seq<byte>)
    requires |data| < U32
    ensures var r := Data(id, data);
            |ReplyBody(r)| == 16 + |data| && HostBody(C2H_DATA, ReplyBody(r)).Done?
            && HostBody(C2H_DATA, ReplyBody(r)).value == Seen(r)
  {
    hide Bytes.ToLE, Bytes.FromLE, Bytes.Zeros;
    WordRoundTrip(id);
    WordRoundTrip(|data|);
    var b := ReplyBody(Data(id, data));
    assert b[..2] == ToLE(id, 2) && b[8..12] == ToLE(|data|, 4) && b[16..] == data;
  }

  lemma IcRespBack()
    ensures |ReplyBody(IcResp)| == 120 && HostBody(ICRESP, ReplyBody(IcResp)).Done?
    ensures HostBody(ICRESP, ReplyBody(IcResp)).value == Seen(IcResp)
  {
    WordRoundTrip(0);
    var b := ReplyBody(IcResp);
    assert b[..2] == ToLE(0, 2) && b[2] == 0;
  }

  lemma BodyBack(r: Reply)
    requires r.Valid()
    ensures var b := ReplyBody(r);
            HostBody(ReplyHeader(r).kind, b).Done? && HostBody(ReplyHeader(r).kind, b).value == Seen(r)
    ensures (HDR + |ReplyBody(r)|) % U32 == ReplyHeader(r).plen
    ensures Fits(r) <==> HDR + |ReplyBody(r)| == ReplyHeader(r).plen
  {
    hide ReplyBody, HostBody;
    match r
    case IcResp => IcRespBack();
    case Rsp(result, sqHead, sqId, id, status) => RspBack(result, sqHead, sqId, id, status);
    case Data(id, data) => DataBack(id, data);
  }

  /** The host takes exactly the bytes of one reply, and reads it as it was sent, if and only if the
      length field did not wrap. */
  lemma ReplyFramed(r: Reply, rest: seq<byte>)
    requires r.Valid()
    ensures HostRead(EncodeReply(r) + rest) == Done(Seen(r), rest) <==> Fits(r)
    ensures !Fits(r) ==> HostRead(EncodeReply(r) + rest) == if ReplyHeader(r).plen < HDR then Crash else Bad
  {
    hide ReplyBody, HostBody, PutHeader, GetHeader;
    BodyBack(r);
    var (h, b) := (ReplyHeader(r), ReplyBody(r));
    var s := EncodeReply(r) + rest;
    assert s == PutHeader(h) + (b + rest);
    HeaderBack(h, b + rest);
    if Fits(r) {
      assert s[HDR..h.plen] == b && s[h.plen..] == rest;
    } else {
      ShortBody(h.kind, if HDR <= h.plen <= |s| then s[HDR..h.plen] else []);
    }
  }

  lemma ShortBody(kind: byte, body: seq<byte>)
    requires kind == C2H_DATA && |body| < 16
    ensures !HostBody(kind, body).Done?
  {
  }

  lemma ReadShrinks(s: seq<byte>)
    ensures var r := HostRead(s); r.Done? ==> |r.rest| < |s|
  {
    hide HostBody;
  }

  /** The PDUs that the host's loop gets out of a stream before it ends. */
  function HostReads(s: seq<byte>): seq<HostQueues.Pdu>
    decreases |s|
  {
    var r := HostRead(s);
    ReadShrinks(s);
    if r.Done? then [r.value] + HostReads(r.rest) else []
  }

  /** What stops the host's loop on a stream. */
  function HostEnd(s: seq<byte>): (r: Read<HostQueues.Pdu>)
    ensures !r.Done?
    decreases |s|
  {
    var r := HostRead(s);
    ReadShrinks(s);
    if r.Done? then HostEnd(r.rest) else r
  }

  function AllSeen(rs: seq<Reply>): seq<HostQueues.Pdu>
  {
    if rs == [] then [] else [Seen(rs[0])] + AllSeen(rs[1..])
  }

  ghost predicate AllValid(rs: seq<Reply>) { forall i :: 0 <= i < |rs| ==> rs[i].Valid() }

  ghost predicate AllFit(rs: seq<Reply>) { forall i :: 0 <= i < |rs| ==> Fits(rs[i]) }

  lemma {:induction false} SeenCount(rs: seq<Reply>)
    ensures |AllSeen(rs)| == |rs|
  {
    if rs == [] {
    } else {
      SeenCount(rs[1..]);
    }
  }

  /** Any run of replies is split back into the same replies exactly when no data length wraps. */
  lemma {:induction false} RepliesFramed(rs: seq<Reply>)
    requires AllValid(rs)
    ensures HostReads(EncodeReplies(rs)) == AllSeen(rs) <==> AllFit(rs)
  {
    if rs == [] {
      assert HostRead([]).Short?;
    } else {
      hide EncodeReply, HostRead, Seen, Fits;
      var rest := EncodeReplies(rs[1..]);
      assert rs[0].Valid();
      RepliesFramed(rs[1..]);
      ReplyFramed(rs[0], rest);
      SeenCount(rs);
      if Fits(rs[0]) {
        assert HostReads(EncodeReplies(rs)) == [Seen(rs[0])] + HostReads(rest);
        assert AllSeen(rs) == [Seen(rs[0])] + AllSeen(rs[1..]);
        SameTail(Seen(rs[0]), HostReads(rest), AllSeen(rs[1..]));
        FitTail(rs);
      } else {
        assert HostReads(EncodeReplies(rs)) == [];
      }
    }
  }

  /** How reading a run of replies ends: with the stream, or at the first length that wrapped. */
  lemma {:induction false} RepliesEnd(rs: seq<Reply>)
    requires AllValid(rs)
    ensures AllFit(rs) ==> HostEnd(EncodeReplies(rs)) == Short
    ensures rs != [] && !Fits(rs[0]) ==>
      HostReads(EncodeReplies(rs)) == []
          && HostEnd(EncodeReplies(rs)) == if ReplyHeader(rs[0]).plen < HDR then Crash else Bad
  {
    if rs == [] {
    } else {
      hide EncodeReply, HostRead, Seen, Fits, ReplyHeader;
      assert rs[0].Valid();
      RepliesEnd(rs[1..]);
      ReplyFramed(rs[0], EncodeReplies(rs[1..]));
      FitTail(rs);
    }
  }

  lemma FitTail(rs: seq<Reply>)
    requires rs != []
    ensures AllFit(rs) <==> Fits(rs[0]) && AllFit(rs[1..])
  {
    hide Fits;
    if Fits(rs[0]) && AllFit(rs[1..]) {
      forall i | 0 <= i < |rs| ensures Fits(rs[i]) {
        if i > 0 { assert rs[i] == rs[1..][i - 1]; }
      }
    }
  }

  lemma SameTail<T>(x: T, a: seq<T>, b: seq<T>)
    ensures [x] + a == [x] + b <==> a == b
  {
    assert ([x] + a)[1..] == a && ([x] + b)[1..] == b;
  }

  /** The buffered reader of a connection. */
  class Stream {
    var unread: seq<byte>

    constructor (bytes: seq<byte>)
      ensures unread == bytes
    {
      unread := bytes;
    }

    /** All `n` bytes or an error. */
    method ReadFull(n: nat) returns (ok: bool, bytes: seq<byte>)
      modifies this
      ensures ok <==> n <= |old(unread)|
      ensures ok ==> bytes == old(unread)[..n] && unread == old(unread)[n..]
    {
      ok := n <= |unread|;
      if ok {
        bytes := unread[..n];
        unread := unread[n..];
      } else {
        bytes := unread;
        unread := [];
      }
    }
  }

  /** One PDU from the stream: the header, then as many bytes as it announces. */
  method HandleRecv(stream: Stream) returns (r: Read<HostQueues.Pdu>)
    modifies stream
    ensures r == HostRead(old(stream.unread))
    ensures r.Done? ==> stream.unread == r.rest
  {
    hide HostBody;
    var ok, head := stream.ReadFull(HDR);
    if !ok {
      return Short;
    }
    assert head + [] == head && head[4..8] == old(stream.unread)[4..8];
    var h := GetHeader(head);
    if !HostKind(h.kind) || h.hlen != HostSize(h.kind) {
      return Bad;
    }
    if h.plen < HDR {
      return Crash;
    }
    var body;
    ok, body := stream.ReadFull(h.plen - HDR);
    if !ok {
      return Short;
    }
    assert body == old(stream.unread)[HDR..h.plen];
    var parsed := HostBody(h.kind, body);
    if !parsed.Done? {
      return Bad;
    }
    return Done(parsed.value, stream.unread);
  }

  /** The receive loop, until the stream ends or a PDU is malformed. */
  method RecvLoop(stream: Stream) returns (pdus: seq<HostQueues.Pdu>, end: Read<HostQueues.Pdu>)
    modifies stream
    ensures pdus == HostReads(old(stream.unread)) && end == HostEnd(old(stream.unread))
  {
    hide HostRead;
    pdus, end := [], Short;
    var more := true;
    while more
      invariant more ==> HostReads(old(stream.unread)) == pdus + HostReads(stream.unread)
      invariant more ==> HostEnd(old(stream.unread)) == HostEnd(stream.unread)
      invariant !more ==> HostReads(old(stream.unread)) == pdus && HostEnd(old(stream.unread)) == end
      decreases more, |stream.unread|
    {
      ReadShrinks(stream.unread);
      var r := HandleRecv(stream);
      if r.Done? {
        assert pdus + ([r.value] + HostReads(r.rest)) == pdus + [r.value] + HostReads(r.rest);
        pdus := pdus + [r.value];
      } else {
        assert pdus + [] == pdus;
        more, end := false, r;
      }
    }
  }

  // Host to target.

  /** A command capsule: 64 bytes, with the connect data right behind it or nothing. */
  datatype Capsule = Capsule(sqe: seq<byte>, inline: seq<byte>)
  {
    predicate Valid() { |sqe| == 64 && (|inline| == 0 || |inline| == CONNECT_DATA) }
  }

  function EncodeCapsule(c: Capsule): seq<byte>
  {
    PutHeader(Header(CMD, 0, CMD_SIZE, 0, CMD_SIZE + |c.inline|)) + c.sqe + c.inline
  }

  function EncodeCapsules(cs: seq<Capsule>): seq<byte>
  {
    if cs == [] then [] else EncodeCapsule(cs[0]) + EncodeCapsules(cs[1..])
  }

  /** An accepted connect that points to inline data; nothing else has data behind it. */
  predicate TakesInline(connected: bool, sqe: seq<byte>)
    requires |sqe| >= 64
  {
    && !connected && sqe[1] % 4 == 0 && sqe[1] / 64 == 1 && sqe[0] == TargetQueues.FABRICS
    && sqe[4] == TargetQueues.FABRICS_CONNECT && sqe[39] == TargetQueues.SGL_INLINE
  }

  /** The reading side and the checking side look at the same bytes. */
  lemma InlineIsConnect(connected: bool, ready: bool, sqe: seq<byte>, c: TargetQueues.Command)
    requires |sqe| == 64 && c.opcode == sqe[0] && c.flags == sqe[1] && c.fcType == sqe[4] && c.sglType == sqe[39]
    ensures TakesInline(connected, sqe) <==>
      TargetQueues.Parse(connected, ready, c) == TargetQueues.Request(TargetQueues.Connect)
          && c.sglType == TargetQueues.SGL_INLINE
  {
  }

  predicate TargetKind(kind: byte) { kind == ICREQ || kind == CMD }

  function TargetSize(kind: byte): byte { if kind == ICREQ then IC_SIZE else CMD_SIZE }

  /** The target's reading of one command: it goes by the header length and by the command, not by PLEN.
      It would take an initialisation request for a command as well. */
  function TargetRead(s: seq<byte>, connected: bool): Read<Capsule>
  {
    if |s| < HDR then Short
    else
      var h := GetHeader(s);
      if !TargetKind(h.kind) || h.hlen != TargetSize(h.kind) then Bad
      else if |s| < h.hlen then Short
      else
        var end := h.hlen + if TakesInline(connected, s[HDR..h.hlen]) then CONNECT_DATA else 0;
        if |s| < end then Short else Done(Capsule(s[HDR..h.hlen], s[h.hlen..end]), s[end..])
  }

  lemma SliceAgain(s: seq<byte>, a: nat, n: nat)
    requires a + n <= |s|
    ensures s[a..][..n] == s[a..a + n] && s[a..][n..] == s[a + n..]
    ensures n == 0 ==> s[a..a + n] == []
  {
  }

  method ReceiveCommand(stream: Stream, connected: bool) returns (r: Read<Capsule>)
    modifies stream
    ensures r == TargetRead(old(stream.unread), connected)
    ensures r.Done? ==> stream.unread == r.rest
  {
    hide TakesInline;
    var ok, head := stream.ReadFull(HDR);
    if !ok {
      return Short;
    }
    assert head[4..8] == old(stream.unread)[4..8];
    var h := GetHeader(head);
    if !TargetKind(h.kind) || h.hlen != TargetSize(h.kind) {
      return Bad;
    }
    var sqe;
    ok, sqe := stream.ReadFull(h.hlen - HDR);
    if !ok {
      return Short;
    }
    assert sqe == old(stream.unread)[HDR..h.hlen];
    var data: seq<byte> := [];
    ghost var all := old(stream.unread);
    assert stream.unread == all[h.hlen..];
    if TakesInline(connected, sqe) {
      ok, data := stream.ReadFull(CONNECT_DATA);
      if !ok {
        return Short;
      }
      SliceAgain(all, h.hlen, CONNECT_DATA);
    } else {
      SliceAgain(all, h.hlen, 0);
    }
    return Done(Capsule(sqe, data), stream.unread);
  }

  predicate Agrees(c: Capsule, connected: bool)
    requires c.Valid()
  {
    TakesInline(connected, c.sqe) <==> c.inline != []
  }

  /** The target takes exactly the bytes of one command if and only if it expects the data that is there. */
  lemma CapsuleFramed(c: Capsule, connected: bool, rest: seq<byte>)
    requires c.Valid()
    ensures TargetRead(EncodeCapsule(c) + rest, connected) == Done(c, rest) <==> Agrees(c, connected)
    ensures !Agrees(c, connected) ==> var r := TargetRead(EncodeCapsule(c) + rest, connected); r.Done? ==> r.value != c
  {
    hide PutHeader, GetHeader, TakesInline;
    var h := Header(CMD, 0, CMD_SIZE, 0, CMD_SIZE + |c.inline|);
    var s := EncodeCapsule(c) + rest;
    assert s == PutHeader(h) + (c.sqe + c.inline + rest);
    HeaderBack(h, c.sqe + c.inline + rest);
    assert s[8..72] == c.sqe;
    if Agrees(c, connected) {
      assert s[72..72 + |c.inline|] == c.inline && s[72 + |c.inline|..] == rest;
    }
  }

  /** The commands that the target gets, where `connected` says for each one whether there is a controller. */
  function TargetReads(s: seq<byte>, connected: seq<bool>): seq<Capsule>
  {
    if connected == [] then []
    else
      match TargetRead(s, connected[0])
      case Done(c, rest) => [c] + TargetReads(rest, connected[1..])
      case _ => []
  }

  ghost predicate AllAgree(cs: seq<Capsule>, connected: seq<bool>)
    requires |cs| == |connected|
  {
    forall i :: 0 <= i < |cs| ==> cs[i].Valid() && Agrees(cs[i], connected[i])
  }

  lemma FirstCapsule(cs: seq<Capsule>, connected: seq<bool>)
    requires |cs| == |connected| > 0 && cs[0].Valid()
    ensures var (got, rest) := (TargetReads(EncodeCapsules(cs), connected), EncodeCapsules(cs[1..]));
            if Agrees(cs[0], connected[0]) then got == [cs[0]] + TargetReads(rest, connected[1..])
            else got == [] || got[0] != cs[0]
  {
    hide EncodeCapsule, TargetRead, Agrees;
    CapsuleFramed(cs[0], connected[0], EncodeCapsules(cs[1..]));
  }

  /** Any run of commands is split back into the same commands exactly when each has the data that the
      target expects of it. */
  lemma {:induction false} CapsulesFramed(cs: seq<Capsule>, connected: seq<bool>)
    requires |cs| == |connected| && forall i :: 0 <= i < |cs| ==> cs[i].Valid()
    ensures TargetReads(EncodeCapsules(cs), connected) == cs <==> AllAgree(cs, connected)
  {
    if cs == [] {
    } else {
      hide EncodeCapsules, TargetReads, Agrees, AllAgree;
      FirstCapsule(cs, connected);
      CapsulesFramed(cs[1..], connected[1..]);
      AgreeTail(cs, connected);
      var rest := TargetReads(EncodeCapsules(cs[1..]), connected[1..]);
      SplitFirst(cs, TargetReads(EncodeCapsules(cs), connected), rest, Agrees(cs[0], connected[0]));
    }
  }

  lemma SplitFirst<T>(s: seq<T>, got: seq<T>, rest: seq<T>, first: bool)
    requires s != [] && if first then got == [s[0]] + rest else got == [] || got[0] != s[0]
    ensures got == s <==> first && rest == s[1..]
  {
    if first { SameTail(s[0], rest, s[1..]); }
    assert s == [s[0]] + s[1..];
  }

  lemma AgreeTail(cs: seq<Capsule>, connected: seq<bool>)
    requires |cs| == |connected| > 0 && cs[0].Valid()
    ensures AllAgree(cs, connected) <==> Agrees(cs[0], connected[0]) && AllAgree(cs[1..], connected[1..])
  {
    hide Agrees;
    if Agrees(cs[0], connected[0]) && AllAgree(cs[1..], connected[1..]) {
      forall i | 0 <= i < |cs| ensures cs[i].Valid() && Agrees(cs[i], connected[i]) {
        if i > 0 { assert cs[i] == cs[1..][i - 1] && connected[i] == connected[1..][i - 1]; }
      }
    }
    if AllAgree(cs, connected) {
      forall i | 0 <= i < |cs[1..]| ensures cs[1..][i].Valid() && Agrees(cs[1..][i], connected[1..][i]) {
        assert cs[1..][i] == cs[i + 1] && connected[1..][i] == connected[i + 1];
      }
    }
  }

  /** The host's connect command; `tail` are the bytes behind the data pointer. */
  function ConnectSqe(id: u16, tail: seq<byte>): (s: seq<byte>)
    requires |tail| == 24
    ensures |s| == 64
  {
    [TargetQueues.FABRICS, 0x40] + ToLE(id, 2) + [TargetQueues.FABRICS_CONNECT] + Zeros(19)
      + (Zeros(8) + ToLE(CONNECT_DATA, 4) + Zeros(3) + [TargetQueues.SGL_INLINE]) + tail
  }

  /** The host's stream: a connect with its data and then commands that are not connects. Whatever
      becomes of the connect, the target splits it back. */
  lemma {:induction false} HostStreamFramed(id: u16, tail: seq<byte>, data: seq<byte>, others: seq<Capsule>,
                                            connected: seq<bool>)
    requires |tail| == 24 && |data| == CONNECT_DATA && |connected| == 1 + |others| && !connected[0]
    requires forall i :: 0 <= i < |others| ==>
      && |others[i].sqe| == 64 && others[i].inline == []
      && (others[i].sqe[0] != TargetQueues.FABRICS || others[i].sqe[4] != TargetQueues.FABRICS_CONNECT)
    ensures var cs := [Capsule(ConnectSqe(id, tail), data)] + others;
            TargetReads(EncodeCapsules(cs), connected) == cs
  {
    var sqe := ConnectSqe(id, tail);
    assert sqe[0] == TargetQueues.FABRICS && sqe[1] == 0x40 && sqe[4] == TargetQueues.FABRICS_CONNECT;
    assert sqe[39] == TargetQueues.SGL_INLINE;
    var cs := [Capsule(sqe, data)] + others;
    forall i | 0 <= i < |cs| ensures cs[i].Valid() && Agrees(cs[i], connected[i]) {
      if i > 0 { assert cs[i] == others[i - 1]; }
    }
    CapsulesFramed(cs, connected);
  }

  /** The host's initialisation request. */
  function EncodeIcReq(): seq<byte>
  {
    PutHeader(Header(ICREQ, 0, IC_SIZE, 0, IC_SIZE)) + ToLE(0, 2) + ToLE(0, 4) + [0, 0] + Zeros(112)
  }

  /** What the target makes of the first PDU on a connection. */
  function Handshake(s: seq<byte>): Read<Header>
  {
    if |s| < HDR then Short
    else
      var h := GetHeader(s);
      if h.kind != ICREQ || h.hlen != IC_SIZE then Bad
      else if |s| < IC_SIZE then Short
      else if h.plen != IC_SIZE || FromLE(s[8..10]) != 0 || s[14] != 0 then Bad
      else Done(h, s[IC_SIZE..])
  }

  /** Both sides take exactly the other's 128 bytes, whatever follows. */
  lemma HandshakeFramed(rest: seq<byte>, back: seq<byte>)
    ensures Handshake(EncodeIcReq() + rest) == Done(Header(ICREQ, 0, IC_SIZE, 0, IC_SIZE), rest)
    ensures HostRead(EncodeReply(IcResp) + back) == Done(HostQueues.IcResp(0, 0), back)
  {
    hide PutHeader, GetHeader, Bytes.ToLE, Bytes.FromLE, Bytes.Zeros, HostRead, EncodeReply;
    ReplyFramed(IcResp, back);
    WordRoundTrip(0);
    var h := Header(ICREQ, 0, IC_SIZE, 0, IC_SIZE);
    var body := ToLE(0, 2) + ToLE(0, 4) + [0, 0] + Zeros(112);
    var s := EncodeIcReq() + rest;
    assert s == PutHeader(h) + (body + rest);
    HeaderBack(h, body + rest);
    assert s[8..10] == ToLE(0, 2) && s[14] == 0 && s[128..] == rest;
  }
}
