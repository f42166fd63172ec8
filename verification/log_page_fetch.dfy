// One Get Log Page: the command, the target's handler, the bytes of its response and the host's queue.

module LogPageFetch {
  import opened Bytes
  import opened Chunks
  import opened DiscoveryLog
  import opened DiscoveryTarget
  import opened Framing
  import opened HostQueues
  import opened LogPageWire
  import opened Wrappers
  import Exchange
  import TargetQueues

  /** What one Get Log Page gives the host. A reply without data leaves a nil list to be read. */
  datatype Fetch = Fetched(numRec: nat, genCtr: nat, entries: seq<Record>) | BadHeader | NoAnswer | HostPanic

  /** How many records are taken out of `have` units when the first one has index `first`. */
  function TakeCount(have: nat, first: nat, num: nat): (n: nat)
    ensures n <= have
  {
    if first < num then Min(have, num - first) else 0
  }

  /** The record loop: the units that follow the header, up to index `num`. */
  method RecvRecords(data: seq<byte>, offset: u64, num: u64) returns (entries: seq<Record>)
    ensures entries == Units(data)[..TakeCount(|data| / UNIT, offset / UNIT, num)]
  {
    entries := [];
    var left := data;
    var i := offset / UNIT;
    while i < num && |left| >= UNIT
      invariant i == offset / UNIT + |entries|
      invariant |data| == |entries| * UNIT + |left|
      invariant |entries| > 0 ==> i <= num
      invariant Units(data) == entries + Units(left)
      decreases |left|
    {
      entries := entries + [left[..UNIT]];
      left := left[UNIT..];
      i := i + 1;
    }
  }

  /** The bytes that came with the response: the first unit is taken for a header whatever the offset. */
  function ReadSpec(bytes: seq<byte>, offset: u64, num: u64): Fetch
  {
    if bytes == [] then Fetched(0, 0, [])
    else if |bytes| < UNIT then BadHeader
    else
      var units := Units(bytes[UNIT..]);
      Fetched(HeaderNumRec(bytes[..UNIT]), HeaderGen(bytes[..UNIT]), units[..TakeCount(|units|, offset / UNIT, num)])
  }

  /** A target without data to send leaves a nil list; data whose PDU length wraps takes the host down with
      a negative length, or ends its receive loop. */
  function FetchSpec(log: Log, size: u32, offset: u64, num: u64): Fetch
  {
    match Handler(log, size - size % 4, offset)
    case Panic => NoAnswer
    case Internal => HostPanic
    case Data(bytes) =>
      if bytes == [] then HostPanic
      else if |bytes| < U32 - DATA_SIZE then ReadSpec(bytes, offset, num)
      else if |bytes| < U32 - DATA_SIZE + HDR then HostPanic
      else NoAnswer
  }

  method ReadReply(bytes: seq<byte>, offset: u64, num: u64) returns (f: Fetch)
    ensures f == ReadSpec(bytes, offset, num)
  {
    if bytes == [] { return Fetched(0, 0, []); }
    if |bytes| < UNIT { return BadHeader; }
    var entries := RecvRecords(bytes[UNIT..], offset, num);
    f := Fetched(HeaderNumRec(bytes[..UNIT]), HeaderGen(bytes[..UNIT]), entries);
  }

  /** The target's status and data for a Get Log Page. */
  function Status(reply: DiscoveryTarget.Reply): u16
  {
    if reply.Data? then 0 else TargetQueues.Wire(TargetQueues.INTERNAL + TargetQueues.DNR)
  }

  function Payload(reply: DiscoveryTarget.Reply): seq<byte> { if reply.Data? then reply.bytes else [] }

  function Wire(reply: DiscoveryTarget.Reply, id: u16): seq<byte>
  {
    EncodeReplies(Exchange.Response(id, Status(reply), Zeros(8), Payload(reply)))
  }

  /** The queue after the bytes of a stream: a PDU that cannot be read ends the receive loop. */
  ghost function AfterBytes(s: State, bytes: seq<byte>): State
  {
    var t := ReceiveAll(s, HostReads(bytes));
    t.(live := t.live && !HostEnd(bytes).Bad?)
  }

  /** Reads what the target wrote, and takes the request that it completed, if any. */
  method TakeReply(queue: HostQueue, bytes: seq<byte>) returns (reply: Option<HostQueues.Request>, crashed: bool)
    requires queue.Valid()
    modifies queue
    ensures queue.Valid() && queue.Value() == AfterBytes(old(queue.Value()), bytes) && queue.broken == old(queue.broken)
    ensures crashed <==> HostEnd(bytes).Crash?
    ensures var (n, after) := (|old(queue.completedRequests)|, queue.completedRequests);
      reply == if |after| > n then Some(after[n]) else None
  {
    hide HostReads, HostEnd, ReceiveAll;
    var n := |queue.completedRequests|;
    var stream := new Stream(bytes);
    var pdus, end := RecvLoop(stream);
    queue.RecvPdu(pdus);
    if end.Bad? {
      queue.receiving := false;
    }
    crashed := end.Crash?;
    reply := if |queue.completedRequests| > n then Some(queue.completedRequests[n]) else None;
  }

  /** A request that was just sent gets the target's data and nothing else, or nothing if a length wrapped. */
  lemma ReplyTaken(s: State, id: u16, reply: DiscoveryTarget.Reply)
    requires s.live && id in s.outstanding && s.outstanding[id].kind == Normal && s.outstanding[id].data == None
    requires |Payload(reply)| < U32
    ensures var (n, t, bytes) := (|s.completed|, AfterBytes(s, Wire(reply, id)), Payload(reply));
      if |bytes| < U32 - DATA_SIZE
      then && t.live && |t.completed| == n + 1 && !HostEnd(Wire(reply, id)).Crash?
           && t.completed[n].data == if bytes == [] then None else Some(bytes)
      else |t.completed| == n && (HostEnd(Wire(reply, id)).Crash? <==> |bytes| < U32 - DATA_SIZE + HDR)
  {
    hide EncodeReplies, HostReads, HostEnd, ReceiveAll, Exchange.Response;
    Exchange.ResponseEnds(id, Status(reply), Zeros(8), Payload(reply));
    if |Payload(reply)| < U32 - DATA_SIZE {
      Exchange.ResponseDelivered(s, id, Status(reply), Zeros(8), Payload(reply));
    } else {
      assert ReceiveAll(s, []) == s by { NothingRead(s); }
    }
  }

  lemma NothingRead(s: State)
    ensures ReceiveAll(s, []) == s
  {
  }

  lemma WholeReply(log: Log, len: u32, offset: u64)
    ensures |Payload(Handler(log, len, offset))| < U32
  {
  }

  /** One round trip: the command, the target's handler, the bytes of its response, the host's queue and the
      reading of the data. */
  method SendDiscLogPageRequest(queue: HostQueue, log: Log, size: u32, offset: u64, num: u64) returns (f: Fetch)
    requires queue.Valid()
    modifies queue
    ensures queue.Valid()
    ensures f == if old(queue.Up()) then FetchSpec(log, size, offset, num) else NoAnswer
    ensures f.Fetched? ==> queue.Up()
  {
    hide Handler, AfterBytes, Wire, ReadSpec, Length, Offset;
    var id := queue.commandID;
    var ok := queue.SendKind(Normal, true);
    if !ok {
      return NoAnswer;
    }
    var reply := Execute(log, LogPageWire.Request(size, offset));
    RequestRoundTrip(size, offset);
    if reply.Panic? || !queue.receiving {
      return NoAnswer;
    }
    WholeReply(log, size - size % 4, offset);
    ReplyTaken(queue.Value(), id, reply);
    var request, crashed := TakeReply(queue, Wire(reply, id));
    if crashed {
      return HostPanic;
    }
    if request.None? {
      return NoAnswer;
    }
    if request.value.data.None? {
      return HostPanic;
    }
    f := ReadReply(request.value.data.value, offset, num);
  }

  /** What goes over the wire for each reply: success, or internal error and do not retry, one bit up. */
  lemma StatusIs(reply: DiscoveryTarget.Reply)
    ensures Status(reply) == if reply.Data? then 0 else 0x800c
  {
  }
}
