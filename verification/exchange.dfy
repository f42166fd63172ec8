// From a completed command on the target to the delivered request on the host, through the stream.

module Exchange {
  import opened Bytes
  import opened Framing
  import opened Wrappers
  import HostQueues

  /** What the target writes for a completed command: its data first, if it succeeded and has any. */
  function Response(id: u16, status: u16, result: seq<byte>, data: seq<byte>): seq<Reply>
  {
    (if status == 0 && data != [] then [Data(id, data)] else []) + [Rsp(result, 0, 0, id, status)]
  }

  function Delivered(r: HostQueues.Request, id: u16, status: u16, data: seq<byte>): HostQueues.Request
  {
    r.(completion := Some(HostQueues.Cqe(id, status)),
       data := if status == 0 && data != [] then Some(data) else r.data)
  }

  lemma WholeData(data: seq<byte>)
    ensures HostQueues.Stored(data, |data|) == data
  {
  }

  lemma ReceiveTwo(s: HostQueues.State, p: HostQueues.Pdu, q: HostQueues.Pdu)
    ensures HostQueues.ReceiveAll(s, [q]) == HostQueues.Receive(s, q)
    ensures HostQueues.ReceiveAll(s, [p, q]) == HostQueues.Receive(HostQueues.Receive(s, p), q)
  {
    hide HostQueues.Receive;
    assert [p, q][..1] == [p] && [p][..0] == [] && [q][..0] == [];
  }

  lemma SeenOne(a: Reply, b: Reply)
    ensures AllSeen([b]) == [Seen(b)] && AllSeen([a, b]) == [Seen(a), Seen(b)]
  {
    hide Seen;
    assert [b][1..] == [] && [a, b][1..] == [b];
  }

  function SeenAs(id: u16, status: u16, data: seq<byte>): seq<HostQueues.Pdu>
    requires |data| < U32
  {
    if status == 0 && data != []
    then [HostQueues.Data(id, |data|, data), HostQueues.Rsp(HostQueues.Cqe(id, status))]
    else [HostQueues.Rsp(HostQueues.Cqe(id, status))]
  }

  lemma ResponseRead(id: u16, status: u16, result: seq<byte>, data: seq<byte>)
    requires |result| == 8 && |data| < U32 - DATA_SIZE
    ensures HostReads(EncodeReplies(Response(id, status, result, data))) == SeenAs(id, status, data)
  {
    hide EncodeReplies, HostReads, AllSeen;
    var rs := Response(id, status, result, data);
    RepliesFramed(rs);
    var (a, b) := (Data(id, data), Rsp(result, 0, 0, id, status));
    SeenOne(a, b);
    assert rs == if status == 0 && data != [] then [a, b] else [b];
    assert AllFit(rs);
  }

  lemma AfterResponse(s: HostQueues.State, id: u16, status: u16, data: seq<byte>)
    requires s.live && id in s.outstanding && |data| < U32
    ensures var t := HostQueues.ReceiveAll(s, SeenAs(id, status, data));
      var r := Delivered(s.outstanding[id], id, status, data);
      && t.live && t.outstanding == s.outstanding - {id}
      && t.aens == s.aens + (if r.kind == HostQueues.Async then [r] else [])
      && t.completed == s.completed + (if r.kind == HostQueues.Async then [] else [r])
  {
    hide HostQueues.ReceiveAll, HostQueues.Stored;
    WholeData(data);
    ReceiveTwo(s, HostQueues.Data(id, |data|, data), HostQueues.Rsp(HostQueues.Cqe(id, status)));
    if status == 0 && data != [] {
      var t := HostQueues.Receive(s, HostQueues.Data(id, |data|, data));
      assert t.outstanding - {id} == s.outstanding - {id};
    }
  }

  /** The bytes of a response hand the request that waits under the id, and no other, to its channel,
      with the status and the data that the target sent. */
  lemma ResponseDelivered(s: HostQueues.State, id: u16, status: u16, result: seq<byte>, data: seq<byte>)
    requires s.live && id in s.outstanding && |result| == 8 && |data| < U32 - DATA_SIZE
    ensures var t := HostQueues.ReceiveAll(s, HostReads(EncodeReplies(Response(id, status, result, data))));
      var r := Delivered(s.outstanding[id], id, status, data);
      && t.live && t.outstanding == s.outstanding - {id}
      && t.aens == s.aens + (if r.kind == HostQueues.Async then [r] else [])
      && t.completed == s.completed + (if r.kind == HostQueues.Async then [] else [r])
  {
    hide EncodeReplies, HostReads, Response, HostQueues.ReceiveAll, SeenAs;
    ResponseRead(id, status, result, data);
    AfterResponse(s, id, status, data);
  }

  /** A response ends where the stream does. If its data length wrapped, the host gets nothing of it: the
      length it reads is too short for the PDU, or even for the header that it just read. */
  lemma ResponseEnds(id: u16, status: u16, result: seq<byte>, data: seq<byte>)
    requires |result| == 8 && |data| < U32
    ensures var bytes := EncodeReplies(Response(id, status, result, data));
      if status == 0 && |data| >= U32 - DATA_SIZE
      then HostReads(bytes) == [] && HostEnd(bytes) == if |data| < U32 - DATA_SIZE + HDR then Crash else Bad
      else HostEnd(bytes) == Short
  {
    hide EncodeReplies, HostReads, HostEnd;
    var rs := Response(id, status, result, data);
    var (a, b) := (Data(id, data), Rsp(result, 0, 0, id, status));
    assert rs == if status == 0 && data != [] then [a, b] else [b];
    assert AllValid(rs);
    RepliesEnd(rs);
    if status != 0 || |data| < U32 - DATA_SIZE { assert AllFit(rs); }
  }
}
