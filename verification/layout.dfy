// Where every field is on the wire, byte by byte: the PDUs of both directions, the host's commands and the header
// of the log page (sections 3 and 5.3 of NVMe over Fabrics 1.1, and the NVMe/TCP transport).

module Layouts {
  import opened Bytes
  import opened Framing
  import opened Sessions
  import DiscoveryLog
  import Exchange
  import HostQueues
  import LogPageWire
  import TargetQueues

  function Le16(s: seq<byte>, i: nat): nat
    requires i + 2 <= |s|
  {
    s[i] as int + 0x100 * s[i + 1] as int
  }

  function Le32(s: seq<byte>, i: nat): nat
    requires i + 4 <= |s|
  {
    s[i] as int + 0x100 * s[i + 1] as int + 0x1_0000 * s[i + 2] as int + 0x100_0000 * s[i + 3] as int
  }

  function Le64(s: seq<byte>, i: nat): nat
    requires i + 8 <= |s|
  {
    Le32(s, i) + 0x1_0000_0000 * Le32(s, i + 4)
  }

  ghost predicate Zero(s: seq<byte>, from: nat, to: nat)
    requires to <= |s|
  {
    forall i :: from <= i < to ==> s[i] == 0
  }

  lemma ReadLe(s: seq<byte>)
    ensures |s| == 2 ==> FromLE(s) == Le16(s, 0)
    ensures |s| == 4 ==> FromLE(s) == Le32(s, 0)
    ensures |s| == 8 ==> FromLE(s) == Le64(s, 0)
  {
    if |s| == 2 {
      ReadTwo(s);
    } else if |s| == 4 {
      ReadFour(s);
    } else if |s| == 8 {
      ReadFour(s[..4]);
      ReadFour(s[4..]);
      SplitLE(s, 4);
      assert Pow256(4) == 0x1_0000_0000 by { assert Pow256(4) == 0x100 * Pow256(3) && Pow256(3) == 0x100 * Pow256(2); }
    }
  }

  lemma ReadTwo(s: seq<byte>)
    requires |s| == 2
    ensures FromLE(s) == Le16(s, 0)
  {
    assert s[1..][1..] == [];
    assert FromLE(s[1..]) == s[1];
  }

  lemma ReadFour(s: seq<byte>)
    requires |s| == 4
    ensures FromLE(s) == Le32(s, 0)
  {
    ReadTwo(s[2..]);
    assert s[1..][1..] == s[2..] && s[1..][0] == s[1];
    assert FromLE(s[1..]) == s[1] + 0x100 * FromLE(s[2..]);
  }

  lemma {:induction false} SplitLE(s: seq<byte>, k: nat)
    requires k <= |s|
    ensures FromLE(s) == FromLE(s[..k]) + Pow256(k) * FromLE(s[k..])
  {
    if k == 0 {
      assert s[0..] == s && s[..0] == [];
    } else {
      SplitLE(s[1..], k - 1);
      assert s[..k][1..] == s[1..][..k - 1] && s[k..] == s[1..][k - 1..] && s[..k][0] == s[0];
      PowerMore(k - 1, FromLE(s[k..]));
    }
  }

  lemma PowerMore(k: nat, x: nat)
    ensures 0x100 * (Pow256(k) * x) == Pow256(k + 1) * x
  {
  }

  /** A field of a message, by the arithmetic of its bytes. */
  lemma FieldOf(s: seq<byte>, i: nat, value: nat, width: nat)
    requires width in {2, 4, 8} && i + width <= |s| && s[i..i + width] == ToLE(value, width)
    ensures width == 2 && value < U16 ==> Le16(s, i) == value
    ensures width == 4 && value < U32 ==> Le32(s, i) == value
    ensures width == 8 && value < U64 ==> Le64(s, i) == value
  {
    hide Bytes.ToLE, Bytes.FromLE;
    WordRoundTrip(value);
    var f := s[i..i + width];
    ReadLe(f);
    assert forall j :: 0 <= j < width ==> f[j] == s[i + j];
  }

  // Target to host.

  lemma HeaderLayout(h: Header, rest: seq<byte>)
    requires h.plen < U32
    ensures var s := PutHeader(h) + rest;
      |s| == 8 + |rest| && s[0] == h.kind && s[1] == h.flags && s[2] == h.hlen && s[3] == h.pdo && Le32(s, 4) == h.plen
      && s[8..] == rest
  {
    hide Bytes.ToLE;
    var s := PutHeader(h) + rest;
    assert s[4..8] == ToLE(h.plen, 4);
    FieldOf(s, 4, h.plen, 4);
  }

  /** A data PDU: type 7, the flag of the last one, the data behind 24 bytes of header and fields. */
  ghost predicate IsDataPdu(s: seq<byte>, id: u16, data: seq<byte>)
  {
    && |s| == 24 + |data|
    && s[0] == 7 && s[1] == 4 && s[2] == 24 && s[3] == (if data == [] then 0 else 24)
    && Le32(s, 4) == (24 + |data|) % 0x1_0000_0000
    && Le16(s, 8) == id && Le16(s, 10) == 0 && Le32(s, 12) == 0 && Le32(s, 16) == |data| && Le32(s, 20) == 0
    && s[24..] == data
  }

  lemma DataLayout(id: u16, data: seq<byte>)
    requires |data| < U32
    ensures IsDataPdu(EncodeReply(Data(id, data)), id, data)
  {
    hide Bytes.ToLE, Bytes.Zeros, PutHeader, ReplyBody;
    var r := Data(id, data);
    var (s, b) := (EncodeReply(r), ReplyBody(r));
    DataFields(id, data);
    HeaderLayout(ReplyHeader(r), b);
    Shifted(s, b);
    assert s[24..] == b[16..];
  }

  /** The fields of a message that has a header in front. */
  lemma Shifted(s: seq<byte>, b: seq<byte>)
    requires |s| == 8 + |b| && s[8..] == b && |b| >= 16
    ensures Le16(s, 8) == Le16(b, 0) && Le16(s, 10) == Le16(b, 2) && Le32(s, 12) == Le32(b, 4)
    ensures Le32(s, 16) == Le32(b, 8) && Le32(s, 20) == Le32(b, 12)
    ensures Le16(s, 16) == Le16(b, 8) && Le16(s, 18) == Le16(b, 10) && Le16(s, 20) == Le16(b, 12)
        && Le16(s, 22) == Le16(b, 14)
  {
    assert forall i :: 0 <= i < 16 ==> s[8 + i] == b[i];
  }

  lemma DataFields(id: u16, data: seq<byte>)
    requires |data| < U32
    ensures var b := ReplyBody(Data(id, data));
      && |b| == 16 + |data| && Le16(b, 0) == id && Le16(b, 2) == 0 && Le32(b, 4) == 0 && Le32(b, 8) == |data|
      && Le32(b, 12) == 0 && b[16..] == data
  {
    hide Bytes.ToLE, Le16, Le32;
    var b := ReplyBody(Data(id, data));
    assert b[..2] == ToLE(id, 2) && b[2..4] == ToLE(0, 2) && b[4..8] == ToLE(0, 4) && b[8..12] == ToLE(|data|, 4);
    FieldOf(b, 0, id, 2);
    FieldOf(b, 2, 0, 2);
    FieldOf(b, 4, 0, 4);
    FieldOf(b, 8, |data|, 4);
    ZeroWord(b, 12);
  }

  lemma ZeroWord(b: seq<byte>, i: nat)
    requires i + 4 <= |b| && b[i..i + 4] == Zeros(4)
    ensures Le32(b, i) == 0
  {
    var w := b[i..i + 4];
    assert w[0] == b[i] && w[1] == b[i + 1] && w[2] == b[i + 2] && w[3] == b[i + 3];
  }

  /** A response PDU: type 5, and the completion behind 8 bytes of header. */
  ghost predicate IsRspPdu(s: seq<byte>, result: seq<byte>, sqHead: u16, sqId: u16, id: u16, status: u16)
  {
    && |s| == 24
    && s[0] == 5 && s[1] == 0 && s[2] == 24 && s[3] == 0 && Le32(s, 4) == 24
    && s[8..16] == result && Le16(s, 16) == sqHead && Le16(s, 18) == sqId && Le16(s, 20) == id && Le16(s, 22) == status
  }

  lemma RspLayout(result: seq<byte>, sqHead: u16, sqId: u16, id: u16, status: u16)
    requires |result| == 8
    ensures IsRspPdu(EncodeReply(Rsp(result, sqHead, sqId, id, status)), result, sqHead, sqId, id, status)
  {
    hide Bytes.ToLE, PutHeader;
    var r := Rsp(result, sqHead, sqId, id, status);
    var s := EncodeReply(r);
    var b := ReplyBody(r);
    HeaderLayout(ReplyHeader(r), b);
    assert b[..8] == result && b[8..10] == ToLE(sqHead, 2) && b[10..12] == ToLE(sqId, 2);
    assert b[12..14] == ToLE(id, 2) && b[14..16] == ToLE(status, 2);
    FieldOf(b, 8, sqHead, 2);
    FieldOf(b, 10, sqId, 2);
    FieldOf(b, 12, id, 2);
    FieldOf(b, 14, status, 2);
    Shifted(s, b);
    assert s[8..16] == b[..8];
  }

  /** The initialisation PDUs: 128 bytes, types 0 and 1; the target announces 64 KiB. */
  lemma HandshakeLayout()
    ensures var s := EncodeIcReq();
      |s| == 128 && s[0] == 0 && s[1] == 0 && s[2] == 128 && s[3] == 0 && Le32(s, 4) == 128 && Zero(s, 8, 128)
    ensures var s := EncodeReply(IcResp);
      |s| == 128 && s[0] == 1 && s[1] == 0 && s[2] == 128 && s[3] == 0 && Le32(s, 4) == 128
      && Zero(s, 8, 12) && Le32(s, 12) == 0x1_0000 && Zero(s, 16, 128)
  {
    ZeroLE();
    hide Bytes.ToLE, PutHeader;
    var req := ToLE(0, 2) + ToLE(0, 4) + [0, 0] + Zeros(112);
    HeaderLayout(Header(ICREQ, 0, IC_SIZE, 0, IC_SIZE), req);
    assert EncodeIcReq() == PutHeader(Header(ICREQ, 0, IC_SIZE, 0, IC_SIZE)) + req;
    assert forall i :: 0 <= i < 120 ==> req[i] == EncodeIcReq()[8 + i];
    var resp := ReplyBody(IcResp);
    HeaderLayout(ReplyHeader(IcResp), resp);
    assert resp[4..8] == ToLE(0x1_0000, 4);
    FieldOf(resp, 4, 0x1_0000, 4);
    assert forall i :: 0 <= i < 120 ==> resp[i] == EncodeReply(IcResp)[8 + i];
  }

  lemma ZeroLE()
    ensures ToLE(0, 2) == [0, 0] && ToLE(0, 4) == [0, 0, 0, 0]
  {
    assert ToLE(0, 1) == [0] + ToLE(0, 0);
    assert ToLE(0, 3) == [0] + ToLE(0, 2);
  }

  // Host to target.

  /** A command capsule: type 4, 64 bytes of command, and the data behind it in the length. */
  lemma CapsuleLayout(c: Capsule)
    requires c.Valid()
    ensures var s := EncodeCapsule(c);
      && |s| == 72 + |c.inline| && s[0] == 4 && s[1] == 0 && s[2] == 72 && s[3] == 0 && Le32(s, 4) == 72 + |c.inline|
      && s[8..72] == c.sqe && s[72..] == c.inline
  {
    hide PutHeader;
    var h := Header(CMD, 0, CMD_SIZE, 0, CMD_SIZE + |c.inline|);
    HeaderLayout(h, c.sqe + c.inline);
    assert EncodeCapsule(c) == PutHeader(h) + (c.sqe + c.inline);
  }

  /** What all commands of the host begin with. */
  ghost predicate Begins(s: seq<byte>, opcode: byte, id: u16)
  {
    |s| == 64 && s[0] == opcode && s[1] == 0x40 && Le16(s, 2) == id
  }

  lemma PropertyGetLayout(id: u16, offset: u32)
    ensures var s := PropertyGetSqe(id, offset);
      && Begins(s, 0x7f, id) && s[4] == 4 && Zero(s, 5, 39) && s[39] == 90
      && s[40] == (if offset == 0 then 1 else 0) && Zero(s, 41, 44) && Le32(s, 44) == offset && Zero(s, 48, 64)
  {
    hide Bytes.ToLE;
    var s := PropertyGetSqe(id, offset);
    assert s[2..4] == ToLE(id, 2) && s[44..48] == ToLE(offset, 4);
    FieldOf(s, 2, id, 2);
    FieldOf(s, 44, offset, 4);
  }

  lemma PropertySetLayout(id: u16, offset: u32, value: u64)
    ensures var s := PropertySetSqe(id, offset, value);
      && Begins(s, 0x7f, id) && s[4] == 0 && Zero(s, 5, 39) && s[39] == 90
      && Zero(s, 40, 44) && Le32(s, 44) == offset && Le64(s, 48) == value && Zero(s, 56, 64)
  {
    hide Bytes.ToLE, Le64;
    var s := PropertySetSqe(id, offset, value);
    assert s[2..4] == ToLE(id, 2) && s[44..48] == ToLE(offset, 4) && s[48..56] == ToLE(value, 8);
    FieldOf(s, 2, id, 2);
    FieldOf(s, 44, offset, 4);
    FieldOf(s, 48, value, 8);
  }

  lemma IdentifyLayout(id: u16)
    ensures var s := IdentifySqe(id); Begins(s, 6, id) && Zero(s, 4, 40) && s[40] == 1 && Zero(s, 41, 64)
  {
    hide Bytes.ToLE;
    var s := IdentifySqe(id);
    assert s[2..4] == ToLE(id, 2);
    FieldOf(s, 2, id, 2);
  }

  lemma EventsOnLayout(id: u16)
    ensures var s := EventsOnSqe(id);
      Begins(s, 9, id) && Zero(s, 4, 40) && Le32(s, 40) == 11 && Le32(s, 44) == 0x8000_0000 && Zero(s, 48, 64)
  {
    hide Bytes.ToLE;
    var s := EventsOnSqe(id);
    assert s[2..4] == ToLE(id, 2) && s[40..44] == ToLE(11, 4) && s[44..48] == ToLE(0x8000_0000, 4);
    FieldOf(s, 2, id, 2);
    FieldOf(s, 40, 11, 4);
    FieldOf(s, 44, 0x8000_0000, 4);
  }

  /** The length fields hold one less than the number of dwords, modulo 2^32; the offset is in two halves. */
  lemma PageRequestFields(size: u32, offset: u64)
    ensures var r := LogPageWire.Request(size, offset);
      && r.numDl + 0x1_0000 * r.numDu == (if size < 4 then 0xffff_ffff else size / 4 - 1)
      && r.lpol + 0x1_0000_0000 * r.lpou == offset
  {
    assert LogPageWire.BytesToNumd(size) == if size < 4 then 0xffff_ffff else size / 4 - 1;
  }

  lemma PageFieldsLayout(page: LogPageWire.GetLogPage)
    ensures var f := PageFields(page);
      && f[0] == 0x70 && f[1] == 0 && Le16(f, 2) == page.numDl && Le16(f, 4) == page.numDu && Le16(f, 6) == 0
      && Le32(f, 8) == page.lpol && Le32(f, 12) == page.lpou && Zero(f, 16, 24)
  {
    hide Bytes.ToLE;
    var f := PageFields(page);
    assert f[2..4] == ToLE(page.numDl, 2) && f[4..6] == ToLE(page.numDu, 2);
    assert f[8..12] == ToLE(page.lpol, 4) && f[12..16] == ToLE(page.lpou, 4);
    FieldOf(f, 2, page.numDl, 2);
    FieldOf(f, 4, page.numDu, 2);
    FieldOf(f, 8, page.lpol, 4);
    FieldOf(f, 12, page.lpou, 4);
  }

  lemma LogPageLayout(id: u16, nsid: u32, page: LogPageWire.GetLogPage)
    ensures var s := LogPageSqe(id, nsid, page);
      && Begins(s, 2, id) && Le32(s, 4) == nsid && Zero(s, 8, 32) && s[32] == 16 && Zero(s, 33, 39) && s[39] == 90
      && s[40] == 0x70 && s[41] == 0 && Le16(s, 42) == page.numDl && Le16(s, 44) == page.numDu && Le16(s, 46) == 0
      && Le32(s, 48) == page.lpol && Le32(s, 52) == page.lpou && Zero(s, 56, 64)
  {
    hide Bytes.ToLE, PageFields, Le16, Le32;
    var (s, f) := (LogPageSqe(id, nsid, page), PageFields(page));
    assert s[2..4] == ToLE(id, 2) && s[4..8] == ToLE(nsid, 4) && s[40..] == f;
    FieldOf(s, 2, id, 2);
    FieldOf(s, 4, nsid, 4);
    PageFieldsLayout(page);
    Behind(s, f);
  }

  /** The fields behind the data pointer. */
  lemma Behind(s: seq<byte>, f: seq<byte>)
    requires |s| == 64 && s[40..] == f
    ensures s[40] == f[0] && s[41] == f[1] && Le16(s, 42) == Le16(f, 2) && Le16(s, 44) == Le16(f, 4)
        && Le16(s, 46) == Le16(f, 6)
    ensures Le32(s, 48) == Le32(f, 8) && Le32(s, 52) == Le32(f, 12)
    ensures Zero(f, 16, 24) ==> Zero(s, 56, 64)
  {
    assert forall i :: 0 <= i < 24 ==> s[40 + i] == f[i];
    assert Zero(f, 16, 24) ==> forall i :: 56 <= i < 64 ==> s[i] == f[i - 40];
  }

  lemma ConnectLayout(id: u16)
    ensures var s := ConnectSqe(id, ConnectTail());
      && Begins(s, 0x7f, id) && s[4] == 1 && Zero(s, 5, 32) && Le32(s, 32) == 1024 && Zero(s, 36, 39) && s[39] == 1
      && Zero(s, 40, 44) && Le16(s, 44) == 31 && Zero(s, 46, 64)
  {
    ZeroLE();
    hide Bytes.ToLE;
    var (s, t) := (ConnectSqe(id, ConnectTail()), ConnectTail());
    assert s[2..4] == ToLE(id, 2) && s[32..36] == ToLE(1024, 4) && s[40..] == t;
    FieldOf(s, 2, id, 2);
    FieldOf(s, 32, 1024, 4);
    assert t[4..6] == ToLE(31, 2);
    FieldOf(t, 4, 31, 2);
    assert Zero(t, 0, 4) && Zero(t, 6, 24);
    assert forall i :: 0 <= i < 24 ==> t[i] == s[40 + i];
  }

  /** The data of a connect: host id, the controller id that asks for any, the name of the discovery subsystem, and the
      host's name. */
  lemma ConnectDataLayout(hostId: seq<byte>, hostNqn: seq<byte>)
    requires |hostId| == 16 && |hostNqn| == 256
    ensures var (s, nqn) := (ConnectData(hostId, hostNqn), "nqn.2014-08.org.nvmexpress.discovery");
      && |s| == 1024 && s[..16] == hostId && Le16(s, 16) == 0xffff && Zero(s, 18, 256)
      && (forall i :: 0 <= i < |nqn| ==> s[256 + i] == nqn[i] as int) && Zero(s, 256 + |nqn|, 512)
      && s[512..768] == hostNqn && Zero(s, 768, 1024)
  {
    NqnFits();
    hide Bytes.ToLE, TextField;
    var f := TextField(TargetQueues.DISCOVERY_NQN, NQN_FIELD);
    var s := ConnectData(hostId, hostNqn);
    assert s[16..18] == ToLE(0xffff, 2) && s[256..512] == f && s[512..768] == hostNqn && s[..16] == hostId;
    FieldOf(s, 16, 0xffff, 2);
    TextFieldIs(TargetQueues.DISCOVERY_NQN, NQN_FIELD);
    assert forall i :: 0 <= i < 256 ==> f[i] == s[256 + i];
  }

  lemma TextFieldIs(s: string, width: nat)
    requires |s| <= width && forall i :: 0 <= i < |s| ==> s[i] as int < 0x100
    ensures var f := TextField(s, width);
      (forall i :: 0 <= i < |s| ==> f[i] == s[i] as int) && Zero(f, |s|, width)
  {
  }

  // The log page.

  /** The header of the log: generation, number of records, record format 0, and zeros. */
  lemma LogHeaderLayout(log: DiscoveryLog.Log)
    requires log.Valid()
    ensures var s := DiscoveryLog.Header(log);
      |s| == 1024 && Le64(s, 0) == log.gen && Le64(s, 8) == |log.recs| && Zero(s, 16, 1024)
  {
    ZeroLE();
    hide Bytes.ToLE, Le64;
    var s := DiscoveryLog.Header(log);
    assert s[0..8] == ToLE(log.gen, 8) && s[8..16] == ToLE(|log.recs|, 8);
    FieldOf(s, 0, log.gen, 8);
    FieldOf(s, 8, |log.recs|, 8);
  }

  // What the readers accept.

  /** The host's reading of any bytes: types 1, 5 and 7 with their own header length; a length of less than the header
      takes it down, and one of less than the fixed fields is an error. */
  lemma HostReadExact(s: seq<byte>)
    ensures |s| < 8 ==> HostRead(s) == Short
    ensures |s| >= 8 ==>
      var (kind, plen, fixed) := (s[0], Le32(s, 4), if s[0] == 1 then 128 else 24);
      HostRead(s) ==
        if kind !in {1, 5, 7} || s[2] != fixed then Bad
        else if plen < 8 then Crash
        else if |s| < plen then Short
        else if plen < fixed then Bad
        else Done(if kind == 1 then HostQueues.IcResp(Le16(s, 8), s[10])
                  else if kind == 5 then HostQueues.Rsp(HostQueues.Cqe(Le16(s, 20), Le16(s, 22)))
                  else HostQueues.Data(Le16(s, 8), Le32(s, 16), s[24..plen]), s[plen..])
  {
    if |s| >= 8 {
      HeaderRead(s);
      hide Bytes.FromLE, GetHeader, HostBody;
      var h := GetHeader(s);
      if HostKind(h.kind) && h.hlen == HostSize(h.kind) && 8 <= h.plen <= |s| {
        BodyRead(h.kind, s[8..h.plen]);
        BodyFields(s, h.plen);
      }
    }
  }

  lemma HeaderRead(s: seq<byte>)
    requires |s| >= 8
    ensures GetHeader(s) == Header(s[0], s[1], s[2], s[3], Le32(s, 4))
  {
    ReadLe(s[4..8]);
  }

  lemma BodyFields(s: seq<byte>, plen: nat)
    requires 8 <= plen <= |s|
    ensures var b := s[8..plen];
      |b| >= 16 ==>
        && Le16(b, 0) == Le16(s, 8) && b[2] == s[10] && Le16(b, 12) == Le16(s, 20) && Le16(b, 14) == Le16(s, 22)
        && Le32(b, 8) == Le32(s, 16) && b[16..] == s[24..plen]
  {
    var b := s[8..plen];
    assert forall i :: 0 <= i < |b| ==> b[i] == s[8 + i];
  }

  lemma BodyRead(kind: byte, b: seq<byte>)
    requires HostKind(kind)
    ensures |b| < (if kind == 1 then 120 else 16) ==> HostBody(kind, b) == Bad
    ensures |b| >= (if kind == 1 then 120 else 16) ==>
      && HostBody(kind, b).Done?
      && HostBody(kind, b).value == if kind == 1 then HostQueues.IcResp(Le16(b, 0), b[2])
                                    else if kind == 5 then HostQueues.Rsp(HostQueues.Cqe(Le16(b, 12), Le16(b, 14)))
                                    else HostQueues.Data(Le16(b, 0), Le32(b, 8), b[16..])
  {
    hide Bytes.FromLE;
    if |b| >= 16 {
      ReadLe(b[..2]);
      ReadLe(b[12..14]);
      ReadLe(b[14..16]);
      ReadLe(b[8..12]);
    }
  }

  /** The target's reading of any bytes: types 0 and 4 with their own header length, whatever the length field says, and
      1024 bytes more exactly behind a connect that points to inline data on a queue without controller. */
  lemma TargetReadExact(s: seq<byte>, connected: bool)
    ensures |s| < 8 ==> TargetRead(s, connected) == Short
    ensures |s| >= 8 ==>
      var hlen := if s[0] == 0 then 128 else 72;
      TargetRead(s, connected) ==
        if s[0] !in {0, 4} || s[2] != hlen then Bad
        else if |s| < hlen then Short
        else
          var inline := !connected && s[8] == 0x7f && s[9] % 4 == 0 && s[9] / 64 == 1 && s[12] == 1 && s[47] == 1;
          var end := if inline then hlen + 1024 else hlen;
          if |s| < end then Short else Done(Capsule(s[8..hlen], s[hlen..end]), s[end..])
  {
    if |s| >= 8 { HeaderRead(s); }
  }

  /** The target's initialisation: type 0, 128 bytes by both lengths, version 0 and no alignment asked for. */
  lemma HandshakeExact(s: seq<byte>)
    ensures |s| < 8 ==> Handshake(s) == Short
    ensures |s| >= 8 ==>
      Handshake(s) ==
        if s[0] != 0 || s[2] != 128 then Bad
        else if |s| < 128 then Short
        else if Le32(s, 4) != 128 || s[8] != 0 || s[9] != 0 || s[14] != 0 then Bad
        else Done(Header(0, s[1], 128, s[3], 128), s[128..])
  {
    if |s| >= 8 {
      HeaderRead(s);
      if |s| >= 10 { ReadLe(s[8..10]); }
    }
  }

  /** A whole response: the data PDU first, exactly for a success with data, and then the completion. */
  lemma ResponseLayout(id: u16, status: u16, result: seq<byte>, data: seq<byte>)
    requires |result| == 8 && |data| < U32
    ensures var s := EncodeReplies(Exchange.Response(id, status, result, data));
      var n := if status == 0 && data != [] then 24 + |data| else 0;
      && |s| == n + 24 && IsRspPdu(s[n..], result, 0, 0, id, status)
      && (n > 0 ==> IsDataPdu(s[..n], id, data))
  {
    hide EncodeReply, IsDataPdu, IsRspPdu;
    var (a, b) := (EncodeReply(Data(id, data)), EncodeReply(Rsp(result, 0, 0, id, status)));
    DataLayout(id, data);
    RspLayout(result, 0, 0, id, status);
    DataLength(a, id, data);
    RspLength(b, result, 0, 0, id, status);
    var rs := Exchange.Response(id, status, result, data);
    TwoReplies(Data(id, data), Rsp(result, 0, 0, id, status));
    var s := EncodeReplies(rs);
    if status == 0 && data != [] {
      assert rs == [Data(id, data), Rsp(result, 0, 0, id, status)];
      assert s[..|a|] == a && s[|a|..] == b;
    } else {
      assert rs == [Rsp(result, 0, 0, id, status)];
      assert s[0..] == b;
    }
  }

  lemma DataLength(s: seq<byte>, id: u16, data: seq<byte>)
    requires IsDataPdu(s, id, data)
    ensures |s| == 24 + |data|
  {
  }

  lemma RspLength(s: seq<byte>, result: seq<byte>, sqHead: u16, sqId: u16, id: u16, status: u16)
    requires IsRspPdu(s, result, sqHead, sqId, id, status)
    ensures |s| == 24
  {
  }

  lemma TwoReplies(a: Reply, b: Reply)
    ensures EncodeReplies([b]) == EncodeReply(b) && EncodeReplies([a, b]) == EncodeReply(a) + EncodeReply(b)
  {
    hide EncodeReply;
    assert [a, b][1..] == [b] && [b][1..] == [];
    assert EncodeReplies([]) == [];
  }
}
