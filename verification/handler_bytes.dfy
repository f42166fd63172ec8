// The log page byte by byte, for every length and every offset: what the handler sends and what the host makes of it.

module HandlerBytes {
  import opened Bytes
  import opened Chunks
  import opened DiscoveryLog
  import opened DiscoveryTarget
  import opened Layouts
  import opened LogPageFetch

  /** The first record that a request past the header asks for; an offset inside the header wraps to far beyond. */
  function FirstRecord(offset: nat): nat
    requires offset > 0
  {
    if offset < 1024 then 0x40_0000_0000_0000 - 1 else (offset - 1024) / 1024
  }

  /** Does the reply begin with the header? */
  predicate WithHeader(offset: nat) { offset == 0 || offset == 1024 }

  /** Are there records at all from where the request begins? */
  predicate HasRecords(log: Log, offset: nat)
  {
    if WithHeader(offset) then log.recs != [] else FirstRecord(offset) < |log.recs|
  }

  /** Byte `i` of a reply of `len` bytes: the header if the offset is 0 or 1024, then whole records, and zeros. */
  function ByteAt(log: Log, len: nat, offset: nat, i: nat): byte
  {
    var unit := i / 1024;
    var whole := (unit + 1) * 1024 <= len;
    if WithHeader(offset) then
      if unit == 0 then Header(log)[i % 1024]
      else if whole && unit - 1 < |log.recs| then log.recs[unit - 1][i % 1024]
      else 0
    else if whole && FirstRecord(offset) + unit < |log.recs| then log.recs[FirstRecord(offset) + unit][i % 1024]
    else 0
  }

  /** A request for no bytes takes the target down if there is anything to write. */
  predicate Panics(log: Log, len: nat, offset: nat)
  {
    len == 0 && (WithHeader(offset) || HasRecords(log, offset))
  }

  /** A record that does not fit is an error: behind a header sent again, or in less than a record. */
  predicate Overflows(log: Log, len: nat, offset: nat)
  {
    len > 0 && offset > 0 &&
      if offset == 1024 then |log.recs| >= (if len < 1024 then 1 else len / 1024)
      else len < 1024 && HasRecords(log, offset)
  }

  lemma {:induction false} ConcatAt(rs: seq<Record>, i: nat)
    requires i < |rs| * UNIT
    ensures |Concat(rs)| == |rs| * UNIT && Concat(rs)[i] == rs[i / UNIT][i % UNIT]
  {
    ConcatLength(rs);
    if rs == [] {
    } else if i < UNIT {
      assert i / UNIT == 0 && i % UNIT == i;
    } else {
      ConcatAt(rs[1..], i - UNIT);
      OneUnitLess(i);
      assert rs[1..][(i - UNIT) / UNIT] == rs[i / UNIT];
    }
  }

  lemma OneUnitLess(i: nat)
    requires i >= UNIT
    ensures (i - UNIT) / UNIT == i / UNIT - 1 && (i - UNIT) % UNIT == i % UNIT
  {
  }

  /** Where the handler starts filling: an offset inside the header wraps. */
  lemma FillIs(offset: u64)
    ensures FillOffset(offset) == 0 <==> WithHeader(offset)
    ensures !WithHeader(offset) ==> FillOffset(offset) / UNIT == FirstRecord(offset)
  {
    if 0 < offset < 1024 {
      assert FillOffset(offset) == U64 - 1024 + offset;
    } else if offset >= 1024 {
      assert FillOffset(offset) == offset - 1024;
    }
  }

  /** What the request has room for. */
  lemma RoomIs(len: u32, offset: u64)
    ensures NumEntries(len, offset)
         == if offset == 0 then (if len < 1024 then 0 else len / 1024 - 1) else if len < 1024 then 1 else len / 1024
  {
    if len >= 1024 { assert (len - 1024) / 1024 == len / 1024 - 1; }
  }

  /** The records that go out. */
  lemma EntriesAre(log: Log, len: u32, offset: u64)
    requires log.Valid()
    ensures var from := if WithHeader(offset) then 0 else FirstRecord(offset);
      var es := Entries(log, len, offset);
      && |es| == (if from < |log.recs| then Min(NumEntries(len, offset), |log.recs| - from) else 0)
      && forall k :: 0 <= k < |es| ==> es[k] == log.recs[from + k]
  {
    hide NumEntries;
    FillIs(offset);
    hide FillOffset;
  }

  lemma WrittenAre(log: Log, len: u32, offset: u64)
    requires log.Valid()
    ensures var (w, es) := (Written(log, len, offset), Entries(log, len, offset));
      var head := if WithHeader(offset) then Min(1024, len) else 0;
      && |w| == head + |es| * 1024
      && (forall i :: 0 <= i < head ==> w[i] == Header(log)[i])
      && (forall i :: head <= i < |w| ==> w[i] == es[(i - head) / 1024][(i - head) % 1024])
  {
    FillIs(offset);
    hide FillOffset, Header, Entries, Chunks.Concat;
    var (w, es) := (Written(log, len, offset), Entries(log, len, offset));
    var head := if WithHeader(offset) then Min(1024, len) else 0;
    ConcatLength(es);
    forall i | head <= i < |w| ensures w[i] == es[(i - head) / 1024][(i - head) % 1024] {
      ConcatAt(es, i - head);
    }
  }

  /** When a reply does not fit, and when there is nothing to write it to. */
  lemma OutcomeIs(log: Log, len: u32, offset: u64)
    requires log.Valid()
    ensures Handler(log, len, offset).Panic? <==> Panics(log, len, offset)
    ensures Handler(log, len, offset).Internal? <==> Overflows(log, len, offset)
  {
    FillIs(offset);
    RoomIs(len, offset);
    EntriesAre(log, len, offset);
    WrittenAre(log, len, offset);
    hide FillOffset, NumEntries, Entries, Written;
  }

  lemma WholeIs(unit: nat, len: nat)
    ensures (unit + 1) * 1024 <= len <==> unit < len / 1024
  {
  }

  /** Which record byte `i` belongs to, if any goes out there. */
  lemma RecordIs(log: Log, len: u32, offset: u64, i: nat)
    requires log.Valid() && Handler(log, len, offset).Data? && i < len
    requires WithHeader(offset) ==> i >= 1024
    ensures var (es, head, unit) := (Entries(log, len, offset), if WithHeader(offset) then 1 else 0, i / 1024);
      var k := unit - head + if WithHeader(offset) then 0 else FirstRecord(offset);
      && unit >= head
      && (unit - head < |es| <==> (unit + 1) * 1024 <= len && k < |log.recs|)
      && (unit - head < |es| ==> es[unit - head] == log.recs[k])
  {
    OutcomeIs(log, len, offset);
    RoomIs(len, offset);
    EntriesAre(log, len, offset);
    hide Handler, NumEntries, Entries;
    WholeIs(i / 1024, len);
  }

  lemma InsideIs(i: nat, head: nat, n: nat)
    requires head == 0 || head == 1024
    requires i >= head
    ensures (i - head) / 1024 == i / 1024 - (if head == 0 then 0 else 1) && (i - head) % 1024 == i % 1024
    ensures i < head + n * 1024 <==> (i - head) / 1024 < n
  {
    if head == 1024 { OneUnitLess(i); }
    WholeIs(n, i - head);
  }

  /** The bytes of a reply. */
  lemma DataIs(log: Log, len: u32, offset: u64, i: nat)
    requires log.Valid() && Handler(log, len, offset).Data? && i < len
    ensures |Handler(log, len, offset).bytes| == len
         && Handler(log, len, offset).bytes[i] == ByteAt(log, len, offset, i)
  {
    hide Entries, Written, Header, Overflows, Panics;
    WrittenAre(log, len, offset);
    var (w, es) := (Written(log, len, offset), Entries(log, len, offset));
    if WithHeader(offset) && i < 1024 {
      assert i / 1024 == 0 && i % 1024 == i;
    } else {
      RecordIs(log, len, offset, i);
      InsideIs(i, if WithHeader(offset) then 1024 else 0, |es|);
    }
  }

  /** The handler for every length and every offset: what fails and how, and every byte of what does not. */
  lemma HandlerExact(log: Log, len: u32, offset: u64)
    requires log.Valid()
    ensures var r := Handler(log, len, offset);
      && (r.Panic? <==> Panics(log, len, offset))
      && (r.Internal? <==> Overflows(log, len, offset))
      && (r.Data? ==> |r.bytes| == len && forall i :: 0 <= i < len ==> r.bytes[i] == ByteAt(log, len, offset, i))
  {
    hide Handler, ByteAt, Panics, Overflows;
    OutcomeIs(log, len, offset);
    var r := Handler(log, len, offset);
    if r.Data? {
      DataLength(log, len, offset);
      forall i | 0 <= i < len ensures r.bytes[i] == ByteAt(log, len, offset, i) {
        DataIs(log, len, offset, i);
      }
    }
  }

  lemma DataLength(log: Log, len: u32, offset: u64)
    requires Handler(log, len, offset).Data?
    ensures |Handler(log, len, offset).bytes| == len
  {
    hide Written;
  }

  /** What the host reads out of `len` bytes that came: the first unit as a header, and the whole units behind it as
      records, as many as there are up to index `num`. */
  ghost predicate ReadOut(f: Fetch, bytes: seq<byte>, offset: nat, num: nat)
    requires |bytes| >= 1024
  {
    && f.Fetched? && f.genCtr == Le64(bytes, 0) && f.numRec == Le64(bytes, 8)
    && |f.entries| == (if offset / 1024 >= num then 0 else Min(|bytes| / 1024 - 1, num - offset / 1024))
    && forall j, b :: 0 <= j < |f.entries| && 0 <= b < 1024 ==> f.entries[j][b] == bytes[1024 * (j + 1) + b]
  }

  lemma ReadIs(bytes: seq<byte>, offset: u64, num: u64)
    requires |bytes| >= 1024
    ensures ReadOut(ReadSpec(bytes, offset, num), bytes, offset, num)
  {
    hide Bytes.FromLE, Units, Le64;
    var (f, rest) := (ReadSpec(bytes, offset, num), bytes[1024..]);
    HeaderFields(bytes);
    assert |bytes| / 1024 - 1 == |rest| / 1024;
    forall j, b | 0 <= j < |f.entries| && 0 <= b < 1024 ensures f.entries[j][b] == bytes[1024 * (j + 1) + b] {
      UnitAt(rest, j);
      assert f.entries[j] == rest[j * 1024..(j + 1) * 1024];
    }
  }

  lemma HeaderFields(bytes: seq<byte>)
    requires |bytes| >= 1024
    ensures HeaderGen(bytes[..UNIT]) == Le64(bytes, 0) && HeaderNumRec(bytes[..UNIT]) == Le64(bytes, 8)
  {
    hide Bytes.FromLE;
    var h := bytes[..1024];
    ReadLe(h[..8]);
    ReadLe(h[8..16]);
    assert forall i :: 0 <= i < 16 ==> h[i] == bytes[i];
    assert forall i :: 0 <= i < 8 ==> h[..8][i] == bytes[i] && h[8..16][i] == bytes[8 + i];
  }

  /** One Get Log Page for every size and offset. The host fails on a reply without data, and on a length that wraps
      to less than a header; it gets no answer if the target fails or the length wraps to less than the fields; it
      cannot make sense of less than a header; and otherwise it reads out what the handler sent. */
  lemma FetchExact(log: Log, size: u32, offset: u64, num: u64)
    requires log.Valid()
    ensures var (f, len) := (FetchSpec(log, size, offset, num), size - size % 4);
      && (f.NoAnswer? <==> Panics(log, len, offset) || (len >= 0xffff_fff0 && !Overflows(log, len, offset)))
      && (f.HostPanic? <==>
            || Overflows(log, len, offset) || (len == 0 && !Panics(log, len, offset))
            || 0xffff_ffe8 <= len < 0xffff_fff0)
      && (f.BadHeader? <==> 0 < len < 1024 && !Overflows(log, len, offset))
    ensures var (f, len) := (FetchSpec(log, size, offset, num), size - size % 4);
      f.Fetched? ==> exists bytes ::
        && |bytes| == len >= 1024 && (forall i :: 0 <= i < len ==> bytes[i] == ByteAt(log, len, offset, i))
        && ReadOut(f, bytes, offset, num)
  {
    var len: u32 := size - size % 4;
    HandlerExact(log, len, offset);
    hide Handler, Panics, Overflows, ByteAt, ReadOut;
    var r := Handler(log, len, offset);
    if r.Data? {
      if |r.bytes| >= 1024 { ReadIs(r.bytes, offset, num); }
      ReadKinds(r.bytes, offset, num);
      hide ReadSpec;
    }
    OutcomesApart(log, len, offset);
  }

  lemma ReadKinds(bytes: seq<byte>, offset: u64, num: u64)
    ensures bytes != [] && |bytes| < 1024 ==> ReadSpec(bytes, offset, num) == BadHeader
    ensures |bytes| >= 1024 ==> ReadSpec(bytes, offset, num).Fetched?
  {
  }

  lemma OutcomesApart(log: Log, len: nat, offset: nat)
    ensures !(Panics(log, len, offset) && len > 0) && !(Overflows(log, len, offset) && len == 0)
  {
  }
}
