// The host's queue: requests keyed by a 16-bit id, matched with what the target sends back.

module HostQueues {
  import opened Bytes
  import opened Chunks
  import opened ScatterLists
  import opened Wrappers

  datatype Cqe = Cqe(id: u16, status: u16)

  /** What the receive loop reads: the body of each kind of PDU. */
  datatype Pdu = IcResp(pfv: u16, cpda: byte) | Rsp(cqe: Cqe) | Data(id: u16, len: u32, payload: seq<byte>)

  datatype Kind = Normal | Async | KeepAlive

  /** A request that was sent. `serial` counts the requests, `sentAt` the PDUs read before it. */
  datatype Request = Request(serial: nat, sentAt: nat, id: u16, kind: Kind, data: Option<seq<byte>>,
                             completion: Option<Cqe>)

  /** The data of a request: as many bytes as the PDU announces, cut or filled up with zeros. */
  function Stored(payload: seq<byte>, len: nat): seq<byte>
  {
    if |payload| > len then payload[..len] else payload + Zeros(len - |payload|)
  }

  /** The queue with its two channels, the requests it overwrote and the PDUs it read. `broken` is a writer
      that failed once: it keeps its error. */
  datatype State = State(
    outstanding: map<u16, Request>, commandId: u16, sent: nat, taken: nat, live: bool, broken: bool,
    completed: seq<Request>, aens: seq<Request>, lost: seq<Request>, pdus: seq<Pdu>)

  function Init(): State { State(map[], 1, 0, 0, true, false, [], [], [], []) }

  function Send(s: State, id: u16, kind: Kind): State
  {
    var r := Request(s.sent, |s.pdus|, id, kind, None, None);
    s.(outstanding := s.outstanding[id := r], sent := s.sent + 1,
       lost := s.lost + if id in s.outstanding then [s.outstanding[id]] else [])
  }

  function Allocate(s: State): State { s.(commandId := (s.commandId + 1) % U16, taken := s.taken + 1) }

  /** A request is in the table before it is flushed out; over a broken writer it only takes its id. */
  function SendRequest(s: State, kind: Kind, flushed: bool): State
  {
    var (id, t) := if kind == KeepAlive then (0, s) else (s.commandId, Allocate(s));
    if s.broken then t else Send(t, id, kind).(broken := !flushed)
  }

  function Deliver(s: State, r: Request): State
  {
    if r.kind == Async then s.(aens := s.aens + [r]) else s.(completed := s.completed + [r])
  }

  /** Reading one PDU. An error ends the receive loop. */
  function Receive(s: State, p: Pdu): State
  {
    if !s.live then s
    else
      var t := s.(pdus := s.pdus + [p]);
      match p
      case IcResp(pfv, cpda) => t.(live := pfv == 0 && cpda == 0)
      case Rsp(cqe) =>
        if cqe.id !in s.outstanding then t.(live := cqe.status == 0)
        else Deliver(t.(outstanding := s.outstanding - {cqe.id}), s.outstanding[cqe.id].(completion := Some(cqe)))
      case Data(id, len, payload) =>
        if id !in s.outstanding then t
        else t.(outstanding := s.outstanding[id := s.outstanding[id].(data := Some(Stored(payload, len)))],
                live := |payload| <= len)
  }

  function ReceiveAll(s: State, pdus: seq<Pdu>): State
  {
    if pdus == [] then s else Receive(ReceiveAll(s, pdus[..|pdus| - 1]), pdus[|pdus| - 1])
  }

  /** `flushed` is whether an intact writer still gets the request out. */
  datatype Event = Sent(kind: Kind, flushed: bool) | Received(p: Pdu)

  function Step(s: State, e: Event): State
  {
    match e
    case Sent(kind, flushed) => SendRequest(s, kind, flushed)
    case Received(p) => Receive(s, p)
  }

  function Run(evs: seq<Event>): State
  {
    if evs == [] then Init() else Step(Run(evs[..|evs| - 1]), evs[|evs| - 1])
  }

  lemma StoredIs(payload: seq<byte>, len: nat)
    ensures Overwrite(Zeros(len), 0, payload[..Min(|payload|, len)]) == Stored(payload, len)
  {
  }

  /** Copies the payload into a new list of the announced length. */
  method FillList(payload: seq<byte>, len: u32) returns (sgl: ScatterList, short: bool)
    ensures fresh(sgl) && sgl.Valid() && sgl.Flat() == Stored(payload, len)
    ensures short <==> |payload| > len
  {
    hide Stored, Overwrite;
    sgl := new ScatterList(len, Min(1024, len));
    var writer := new ScatterListWriter(sgl);
    var n;
    n, short := writer.Write(payload);
    StoredIs(payload, len);
  }

  method StoreData(payload: seq<byte>, len: u32) returns (data: seq<byte>, short: bool)
    ensures data == Stored(payload, len)
    ensures short <==> |payload| > len
  {
    var sgl;
    sgl, short := FillList(payload, len);
    data := ReadAll(sgl);
  }

  class HostQueue {
    var outstandingRequests: map<u16, Request>
    var commandID: u16
    var receiving: bool
    var broken: bool
    var completedRequests: seq<Request>
    var completedAens: seq<Request>
    var sent: nat
    var read: nat
    ghost var taken: nat
    ghost var lost: seq<Request>
    ghost var pdus: seq<Pdu>

    ghost predicate Valid()
      reads this
    {
      read == |pdus|
    }

    ghost function Value(): State
      reads this
    {
      State(outstandingRequests, commandID, sent, taken, receiving, broken, completedRequests, completedAens, lost,
            pdus)
    }

    /** Requests can still be written and their responses read. */
    predicate Up()
      reads this
    {
      receiving && !broken
    }

    constructor ()
      ensures Valid() && Value() == Init()
    {
      outstandingRequests, commandID, receiving, completedRequests, completedAens := map[], 1, true, [], [];
      broken, sent, read, taken, lost, pdus := false, 0, 0, 0, [], [];
    }

    method NextCmdID() returns (id: u16)
      requires Valid()
      modifies this`commandID, this`taken
      ensures Valid() && id == old(commandID) && Value() == Allocate(old(Value()))
    {
      id := commandID;
      commandID := (commandID + 1) % U16;
      taken := taken + 1;
    }

    method Post(id: u16, kind: Kind)
      requires Valid()
      modifies this`outstandingRequests, this`sent, this`lost
      ensures Valid() && Value() == Send(old(Value()), id, kind)
    {
      lost := lost + if id in outstandingRequests then [outstandingRequests[id]] else [];
      outstandingRequests := outstandingRequests[id := Request(sent, read, id, kind, None, None)];
      sent := sent + 1;
    }

    method SendKind(kind: Kind, flushed: bool) returns (ok: bool)
      requires Valid()
      modifies this`commandID, this`taken, this`outstandingRequests, this`sent, this`lost, this`broken
      ensures Valid() && Value() == SendRequest(old(Value()), kind, flushed)
      ensures ok == !broken
    {
      var id := 0;
      if kind != KeepAlive {
        id := NextCmdID();
      }
      if broken {
        return false;
      }
      Post(id, kind);
      broken := !flushed;
      ok := flushed;
    }

    /** Parses one PDU and hands a completed request to its channel. */
    method HandleRecv(p: Pdu)
      requires Valid() && receiving
      modifies this
      ensures Valid() && Value() == Receive(old(Value()), p) && broken == old(broken)
    {
      hide Stored;
      read, pdus := read + 1, pdus + [p];
      match p {
        case IcResp(pfv, cpda) =>
          receiving := pfv == 0 && cpda == 0;
        case Rsp(cqe) =>
          if cqe.id !in outstandingRequests {
            receiving := cqe.status == 0;
            return;
          }
          var request := outstandingRequests[cqe.id].(completion := Some(cqe));
          outstandingRequests := outstandingRequests - {cqe.id};
          if request.kind == Async {
            completedAens := completedAens + [request];
          } else {
            completedRequests := completedRequests + [request];
          }
        case Data(id, len, payload) =>
          if id !in outstandingRequests {
            return;
          }
          var data, short := StoreData(payload, len);
          outstandingRequests := outstandingRequests[id := outstandingRequests[id].(data := Some(data))];
          receiving := !short;
      }
    }

    method RecvPdu(input: seq<Pdu>)
      requires Valid()
      modifies this
      ensures Valid() && Value() == ReceiveAll(old(Value()), input) && broken == old(broken)
    {
      hide Receive;
      var i := 0;
      while i < |input| && receiving
        invariant i <= |input| && Valid() && broken == old(broken)
        invariant Value() == ReceiveAll(old(Value()), input[..i])
      {
        HandleRecv(input[i]);
        assert input[..i + 1][..i] == input[..i];
        i := i + 1;
      }
      EndedIgnores(old(Value()), input, i);
      assert input[..|input|] == input;
    }
  }

  lemma {:induction false} EndedIgnores(s: State, input: seq<Pdu>, i: nat)
    requires i <= |input|
    requires i == |input| || !ReceiveAll(s, input[..i]).live
    ensures ReceiveAll(s, input) == ReceiveAll(s, input[..i])
    decreases |input|
  {
    if i < |input| {
      var rest := input[..|input| - 1];
      assert rest[..i] == input[..i];
      EndedIgnores(s, rest, i);
    } else {
      assert input[..i] == input;
    }
  }

  /** The data of a request, byte by byte: as many as announced, the payload first and then zeros. */
  lemma StoredBytes(payload: seq<byte>, len: nat)
    ensures |Stored(payload, len)| == len
    ensures forall i :: 0 <= i < len ==> Stored(payload, len)[i] == if i < |payload| then payload[i] else 0
  {
  }
}
