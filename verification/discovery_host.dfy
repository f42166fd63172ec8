// The host's reading of the discovery log page, against the target's handler.

module DiscoveryHost {
  import opened Bytes
  import opened Chunks
  import opened DiscoveryLog
  import opened DiscoveryTarget
  import opened LogPageFetch
  import Framing
  import HostQueues

  /** Unit `k` of the log page: the header, a record, or padding. */
  ghost function PageUnit(log: Log, k: nat): Record
  {
    if k == 0 then Header(log) else if k <= |log.recs| then log.recs[k - 1] else Zeros(UNIT)
  }

  lemma PageBytes(log: Log, k: nat)
    ensures Window(Page(log), k * UNIT, UNIT) == PageUnit(log, k)
  {
    hide Header, Window;
    if k == 0 {
      assert Header(log) + [] + Concat(log.recs) == Page(log);
      WindowHead(Header(log), Concat(log.recs));
    } else {
      RecordWindow(log, k - 1, 1);
      if k <= |log.recs| {
        assert Avail(log, k - 1, 1) == [log.recs[k - 1]];
        assert Concat([log.recs[k - 1]]) == log.recs[k - 1] + Concat([]);
      } else {
        assert Concat(Avail(log, k - 1, 1)) == [];
      }
    }
  }

  lemma WindowHead(a: seq<byte>, b: seq<byte>)
    ensures Window(a + b, 0, |a|) == a
  {
  }

  lemma WindowPart(s: seq<byte>, from: nat, n: nat, i: nat, m: nat)
    requires i + m <= n
    ensures Window(s, from, n)[i..i + m] == Window(s, from + i, m)
  {
  }

  /** Unit `i` behind the first one of a window. */
  lemma WindowUnit(log: Log, size: nat, first: nat, i: nat)
    requires (i + 2) * UNIT <= size
    ensures var rest := Window(Page(log), first * UNIT, size)[UNIT..];
      |rest| == size - UNIT && rest[i * UNIT..(i + 1) * UNIT] == PageUnit(log, first + 1 + i)
  {
    hide Window, PageUnit, Page;
    var bytes := Window(Page(log), first * UNIT, size);
    assert bytes[UNIT..][i * UNIT..(i + 1) * UNIT] == bytes[(i + 1) * UNIT..(i + 1) * UNIT + UNIT];
    WindowPart(Page(log), first * UNIT, size, (i + 1) * UNIT, UNIT);
    PageBytes(log, first + 1 + i);
    assert first * UNIT + (i + 1) * UNIT == (first + 1 + i) * UNIT;
  }

  lemma WindowUnits(log: Log, units: nat, first: nat)
    requires units >= 1
    ensures var us := Units(Window(Page(log), first * UNIT, units * UNIT)[UNIT..]);
      |us| == units - 1 && forall i :: 0 <= i < |us| ==> us[i] == PageUnit(log, first + 1 + i)
  {
    hide Window, PageUnit, Units, Page;
    var rest := Window(Page(log), first * UNIT, units * UNIT)[UNIT..];
    forall i | 0 <= i < |Units(rest)|
      ensures Units(rest)[i] == PageUnit(log, first + 1 + i)
    {
      UnitAt(rest, i);
      WindowUnit(log, units * UNIT, first, i);
    }
  }

  lemma WindowHeader(log: Log, size: nat)
    requires size >= UNIT && log.Valid()
    ensures var h := Window(Page(log), 0, size)[..UNIT]; HeaderNumRec(h) == |log.recs| && HeaderGen(h) == log.gen
  {
    hide Window, Header, PageUnit, HeaderGen, HeaderNumRec;
    WindowPart(Page(log), 0, size, 0, UNIT);
    PageBytes(log, 0);
    FirstUnit(log);
    HeaderRoundTrip(log);
  }

  /** A request at a unit boundary: the host gets the units after the first one of the window. */
  lemma FetchAligned(log: Log, size: u32, offset: u64, num: u64)
    requires log.Valid()
    requires size % UNIT == 0 && size >= UNIT && offset % UNIT == 0 && offset != UNIT
    ensures var f := FetchSpec(log, size, offset, num);
            && f.Fetched?
            && |f.entries| == (if offset / UNIT >= num then 0 else Min(size / UNIT - 1, num - offset / UNIT))
            && (forall i :: 0 <= i < |f.entries| ==> f.entries[i] == PageUnit(log, offset / UNIT + 1 + i))
            && (offset == 0 ==> f.numRec == |log.recs| && f.genCtr == log.gen)
  {
    hide FetchSpec, PageUnit;
    FetchUnits(log, size / UNIT, offset / UNIT, num);
  }

  lemma Dwords(n: nat)
    ensures n * 4 % 4 == 0
  {
  }

  lemma WholeUnits(k: nat)
    ensures k * 1024 / 1024 == k && k * 1024 % 1024 == 0
  {
  }

  lemma UnitIndex(k: nat)
    ensures k * UNIT / UNIT == k && k * UNIT % UNIT == 0 && k * UNIT % 4 == 0
  {
    WholeUnits(k);
    Dwords(k * 256);
    assert k * UNIT == k * 1024 == k * 256 * 4;
  }

  lemma HandlerUnits(log: Log, n: nat, k: nat)
    requires log.Valid() && n >= 1 && n * UNIT < U32 && k != 1 && k * UNIT < U64
    ensures Handler(log, n * UNIT - n * UNIT % 4, k * UNIT) == Data(Window(Page(log), k * UNIT, n * UNIT))
  {
    hide Handler, Window, Page;
    UnitIndex(n);
    UnitIndex(k);
    WindowExact(log, n * UNIT, k * UNIT);
  }

  lemma FetchUnits(log: Log, n: nat, k: nat, num: u64)
    requires log.Valid() && n >= 1 && n * UNIT < U32 && k != 1 && k * UNIT < U64
    ensures var f := FetchSpec(log, n * UNIT, k * UNIT, num);
            && f.Fetched?
            && |f.entries| == (if k >= num then 0 else Min(n - 1, num - k))
            && (forall i :: 0 <= i < |f.entries| ==> f.entries[i] == PageUnit(log, k + 1 + i))
            && (k == 0 ==> f.numRec == |log.recs| && f.genCtr == log.gen)
  {
    hide Handler, Window, HeaderGen, HeaderNumRec, Units, PageUnit, Page;
    HandlerUnits(log, n, k);
    UnitIndex(k);
    WindowUnits(log, n, k);
    if k == 0 { WindowHeader(log, n * UNIT); }
  }

  lemma FirstUnit(log: Log)
    ensures PageUnit(log, 0) == Header(log)
  {
  }

  datatype Outcome = Success(recs: seq<Record>) | Failed | Crashed

  /** The log as each request finds it: changes strictly raise the generation counter. */
  ghost predicate Versioned(history: nat -> Log)
  {
    && (forall k: nat :: history(k).Valid())
    && (forall i: nat, j: nat :: i <= j ==> history(i).gen <= history(j).gen)
    && (forall i: nat, j: nat :: i <= j && history(i).gen == history(j).gen ==> history(i) == history(j))
  }

  /** The size of the one-shot request, in 32-bit arithmetic. */
  function OneShotSize(numRec: u64): u32
  {
    (UNIT + numRec % U32 * UNIT % U32) % U32
  }

  lemma WrapUnits(m: nat)
    ensures m * UNIT % U32 == m % 0x40_0000 * UNIT
  {
    var (q, r) := (m / 0x40_0000, m % 0x40_0000);
    assert m * UNIT == q * U32 + r * UNIT;
    assert (q * U32 + r * UNIT) % U32 == r * UNIT;
  }

  lemma WrapSum(a: nat)
    ensures (UNIT + a % U32) % U32 == (UNIT + a) % U32
  {
    assert a == a / U32 * U32 + a % U32;
  }

  lemma OneShotUnits(n: u32)
    ensures OneShotSize(n) == (n + 1) % 0x40_0000 * UNIT
  {
    WrapSum(n * UNIT);
    WrapUnits(n + 1);
  }

  /** Nothing changed between two requests that saw the same generation. */
  lemma Unchanged(history: nat -> Log, last: nat)
    requires Versioned(history) && history(0).gen == history(last).gen
    ensures forall k: nat :: k <= last ==> history(k) == history(0)
  {
    forall k: nat | k <= last
      ensures history(k) == history(0)
    {
      assert history(0).gen <= history(k).gen <= history(last).gen;
    }
  }

  ghost function CeilDiv3(n: nat): nat { (n + 2) / 3 }

  /** The paging loop. Each page but the first loses its first record as a supposed header, and the
      next offset counts records only: both are off by one unit, and page k + 1 goes on where page k ended. */
  method ReadPaged(queue: HostQueues.HostQueue, history: nat -> Log, numRec: u32)
    returns (res: seq<Record>, requests: nat, crashed: bool)
    requires queue.Valid() && queue.Up()
    requires forall k: nat :: history(k).Valid()
    modifies queue
    ensures queue.Valid() && queue.Up()
    ensures !crashed && requests == 1 + CeilDiv3(numRec)
    ensures |res| == numRec
    ensures forall i :: 0 <= i < numRec ==> res[i] == PageUnit(history(1 + i / 3), i + 1)
  {
    hide FetchSpec, PageUnit;
    res, requests, crashed := [], 1, false;
    var offset: u64 := 0;
    while |res| < numRec
      invariant requests >= 1 && |res| == Min(3 * (requests - 1), numRec)
      invariant requests <= 1 + CeilDiv3(numRec)
      invariant offset == |res| * UNIT && queue.Valid() && queue.Up()
      invariant forall i :: 0 <= i < |res| ==> res[i] == PageUnit(history(1 + i / 3), i + 1)
      decreases numRec - |res|
    {
      FetchAligned(history(requests), 4096, offset, numRec);
      var f := SendDiscLogPageRequest(queue, history(requests), 4096, offset, numRec);
      if !f.Fetched? {
        return res, requests, true;
      }
      res := res + f.entries;
      offset := |res| * UNIT;
      requests := requests + 1;
    }
  }

  /** Snapshot: a successful read is the record list of one version, which stood still for the whole
      read. Paging succeeds exactly when the log stood still; one request exactly when, besides, its
      size does not wrap in 32 bits. */
  method GetLogPageEntries(queue: HostQueues.HostQueue, history: nat -> Log, paged: bool)
    returns (r: Outcome, requests: nat)
    requires queue.Valid() && Versioned(history)
    modifies queue
    ensures queue.Valid() && !r.Crashed? && requests >= 1
    ensures r.Success? ==> r.recs == history(0).recs && forall k: nat :: k < requests ==> history(k) == history(0)
    ensures !old(queue.Up()) ==> r.Failed?
    ensures old(queue.Up()) && paged ==>
              requests == 2 + CeilDiv3(|history(0).recs|) && (r.Success? <==> history(requests - 1) == history(0))
    ensures old(queue.Up()) && !paged && |history(0).recs| <= 0x40_0000 - 2 ==>
              requests == 3 && (r.Success? <==> history(2) == history(0))
    ensures !paged && |history(0).recs| > 0x40_0000 - 2 ==> r.Failed?
  {
    hide FetchSpec, Handler, PageUnit;
    requests := 1;
    FetchAligned(history(0), 1024, 0, 0);
    var first := SendDiscLogPageRequest(queue, history(0), 1024, 0, 0);
    if !first.Fetched? {
      return if first.HostPanic? then Crashed else Failed, requests;
    }
    var numRec: u32 := first.numRec;
    var res: seq<Record>;
    if paged {
      var crashed: bool;
      res, requests, crashed := ReadPaged(queue, history, numRec);
      if crashed {
        return Crashed, requests;
      }
    } else {
      requests := 2;
      var f := ReadOnce(queue, history(1), numRec);
      if !f.Fetched? {
        return if f.HostPanic? then Crashed else Failed, requests;
      }
      res := f.entries;
    }
    if |res| != numRec {
      return Failed, requests;
    }
    FetchAligned(history(requests), 1024, 0, 0);
    var last := SendDiscLogPageRequest(queue, history(requests), 1024, 0, 0);
    requests := requests + 1;
    if !last.Fetched? {
      return if last.HostPanic? then Crashed else Failed, requests;
    }
    if first.genCtr != last.genCtr {
      return Failed, requests;
    }
    Unchanged(history, requests - 1);
    forall i | 0 <= i < numRec
      ensures res[i] == history(0).recs[i]
    {
      RecordUnit(history(0), i);
    }
    return Success(res), requests;
  }

  lemma RecordUnit(log: Log, i: nat)
    requires i < |log.recs|
    ensures PageUnit(log, i + 1) == log.recs[i]
  {
  }

  /** The one-shot read: enough units for all records, or fewer after a wrap, or a request of no bytes. */
  method ReadOnce(queue: HostQueues.HostQueue, log: Log, numRec: u32) returns (f: Fetch)
    requires queue.Valid() && queue.Up() && log.Valid()
    modifies queue
    ensures queue.Valid() && (f.Fetched? ==> queue.Up())
    ensures !f.HostPanic?
    ensures numRec <= 0x40_0000 - 2 ==> f.Fetched? && |f.entries| == numRec
    ensures f.Fetched? ==> forall i :: 0 <= i < |f.entries| ==> f.entries[i] == PageUnit(log, i + 1)
    ensures numRec > 0x40_0000 - 2 ==> f.Fetched? ==> |f.entries| < numRec
  {
    hide FetchSpec, PageUnit;
    var size := OneShotSize(numRec);
    OneShotUnits(numRec);
    if size == 0 {
      EmptyRequest(log, numRec);
    } else {
      FetchAligned(log, size, 0, numRec);
    }
    f := SendDiscLogPageRequest(queue, log, size, 0, numRec);
  }

  lemma EmptyRequest(log: Log, num: u64)
    ensures FetchSpec(log, 0, 0, num) == NoAnswer
  {
  }

  /** On a log that stands still, paging gives what one request for everything would, and goes on
      doing so where that request's size no longer fits in 32 bits. */
  method ReadBothWays(log: Log) returns (paged: Outcome, whole: Outcome)
    requires log.Valid()
    ensures paged == Success(log.recs)
    ensures whole == paged <==> |log.recs| <= 0x40_0000 - 2
  {
    var requests: nat;
    var queue := new HostQueues.HostQueue();
    paged, requests := GetLogPageEntries(queue, _ => log, true);
    queue := new HostQueues.HostQueue();
    whole, requests := GetLogPageEntries(queue, _ => log, false);
  }
}
