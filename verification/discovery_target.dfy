// The target's Get Log Page handler, writing the log through a scatter list.

module DiscoveryTarget {
  import opened Bytes
  import opened Chunks
  import opened DiscoveryLog
  import opened LogPageWire
  import opened ScatterLists

  /** What the command comes back with: the data of a success, an internal error status, or a
      nil scatter list being written to. */
  datatype Reply = Data(bytes: seq<byte>) | Internal | Panic

  function NumEntries(len: u32, offset: u64): u32
  {
    var dataLen := Max(len, UNIT);
    if offset != 0 then dataLen / UNIT
    else if dataLen > UNIT then (dataLen - UNIT) / UNIT else 0
  }

  /** The offset without the header, in 64-bit arithmetic: offsets below the header's size wrap. */
  function FillOffset(offset: u64): u64
  {
    if offset > 0 then (offset + U64 - UNIT) % U64 else 0
  }

  function Entries(log: Log, len: u32, offset: u64): seq<Record>
  {
    Avail(log, FillOffset(offset) / UNIT, NumEntries(len, offset))
  }

  /** The bytes that go into the list when the records fit; a header may be cut short. */
  function Written(log: Log, len: u32, offset: u64): seq<byte>
  {
    (if FillOffset(offset) == 0 then Header(log)[..Min(UNIT, len)] else []) + Concat(Entries(log, len, offset))
  }

  function Handler(log: Log, len: u32, offset: u64): Reply
  {
    var w := Written(log, len, offset);
    if len == 0 && (FillOffset(offset) == 0 || Entries(log, len, offset) != []) then Panic
    else if |w| > len then Internal
    else Data(w + Zeros(len - |w|))
  }

  /** One round of filling the list behind what is already there. */
  lemma FillMore(len: nat, a: seq<byte>, b: seq<byte>)
    requires |a| + |b| <= len
    ensures Overwrite(a + Zeros(len - |a|), |a|, b) == a + b + Zeros(len - |a| - |b|)
  {
  }

  /** The list holds `done`, zeros after it, and the cursor is in between. */
  ghost predicate Filled(writer: ScatterListWriter, done: seq<byte>)
    reads writer, writer.sgl.buffers
  {
    && writer.Valid() && |done| <= writer.sgl.capacity
    && writer.Pos() == |done|
    && writer.sgl.Flat() == done + Zeros(writer.sgl.capacity - |done|)
  }

  method WriteUnit(writer: ScatterListWriter, r: Record, ghost done: seq<byte>) returns (n: nat, short: bool)
    requires Filled(writer, done)
    modifies writer, writer.sgl, writer.sgl.buffers
    ensures short <==> |done| + UNIT > writer.sgl.capacity
    ensures n == Min(UNIT, writer.sgl.capacity - |done|)
    ensures Filled(writer, done + r[..n])
  {
    n, short := writer.Write(r);
    FillMore(writer.sgl.capacity, done, r[..n]);
  }

  lemma FilledFits(writer: ScatterListWriter, done: seq<byte>)
    requires Filled(writer, done)
    ensures |done| <= writer.sgl.capacity
  {
  }

  /** `done` is what of all the records precedes those from `i` on. */
  ghost predicate Precedes(all: seq<byte>, done: seq<byte>, rs: seq<Record>, i: nat)
  {
    i <= |rs| && all == done + Concat(rs[i..]) && |all| == |done| + (|rs| - i) * UNIT
  }

  lemma FirstPrecedes(pre: seq<byte>, rs: seq<Record>)
    ensures Precedes(pre + Concat(rs), pre, rs, 0)
  {
    ConcatLength(rs);
    assert rs[0..] == rs;
  }

  lemma NextPrecedes(all: seq<byte>, done: seq<byte>, rs: seq<Record>, i: nat)
    requires Precedes(all, done, rs, i) && i < |rs|
    ensures Precedes(all, done + rs[i], rs, i + 1) && rs[i][..UNIT] == rs[i]
  {
    assert rs[i..][1..] == rs[i + 1..];
    assert done + (rs[i] + Concat(rs[i + 1..])) == done + rs[i] + Concat(rs[i + 1..]);
  }

  lemma LastPrecedes(all: seq<byte>, done: seq<byte>, rs: seq<Record>)
    requires Precedes(all, done, rs, |rs|)
    ensures done == all
  {
    assert Concat(rs[|rs|..]) == [];
  }

  lemma NoRoom(all: seq<byte>, done: seq<byte>, rs: seq<Record>, i: nat)
    requires Precedes(all, done, rs, i) && i < |rs|
    ensures |all| >= |done| + UNIT
  {
    assert (|rs| - i) * UNIT >= UNIT;
  }

  method WriteRecords(writer: ScatterListWriter, rs: seq<Record>, ghost pre: seq<byte>) returns (ok: bool)
    requires Filled(writer, pre)
    modifies writer, writer.sgl, writer.sgl.buffers
    ensures ok <==> |pre + Concat(rs)| <= writer.sgl.capacity
    ensures ok ==> Filled(writer, pre + Concat(rs))
  {
    hide Filled, Precedes, Chunks.Concat;
    ghost var done, all := pre, pre + Concat(rs);
    FirstPrecedes(pre, rs);
    for i := 0 to |rs|
      invariant Filled(writer, done) && Precedes(all, done, rs, i)
    {
      NoRoom(all, done, rs, i);
      NextPrecedes(all, done, rs, i);
      var n, short := WriteUnit(writer, rs[i], done);
      if short {
        return false;
      }
      done := done + rs[i];
    }
    LastPrecedes(all, done, rs);
    FilledFits(writer, done);
    return true;
  }

  /** A new list with a header that may be cut, or nothing yet. */
  method Start(len: u32, header: Record, withHeader: bool) returns (writer: ScatterListWriter)
    requires len > 0
    ensures fresh(writer) && fresh(writer.sgl) && fresh(writer.sgl.buffers) && writer.sgl.capacity == len
    ensures Filled(writer, if withHeader then header[..Min(UNIT, len)] else [])
  {
    var sgl := new ScatterList(len, 8192);
    writer := new ScatterListWriter(sgl);
    assert Filled(writer, []) by { assert [] + Zeros(len) == Zeros(len); }
    if withHeader {
      var n, _ := WriteUnit(writer, header, []);
      assert [] + header[..n] == header[..n];
    }
  }

  /** Fills a list of `len` bytes and sends it: a header that may be cut, then whole records. */
  method Serve(len: u32, header: Record, withHeader: bool, rs: seq<Record>) returns (reply: Reply)
    requires len > 0
    ensures var w := (if withHeader then header[..Min(UNIT, len)] else []) + Concat(rs);
            reply == if |w| > len then Internal else Data(w + Zeros(len - |w|))
  {
    hide Chunks.Concat;
    var writer := Start(len, header, withHeader);
    var ok := WriteRecords(writer, rs, if withHeader then header[..Min(UNIT, len)] else []);
    if !ok {
      return Internal;
    }
    var bytes := ReadAll(writer.sgl);
    return Data(bytes);
  }

  /** The handler refines its specification through the chunked list, whatever the lengths. */
  method Execute(log: Log, cmd: GetLogPage) returns (reply: Reply)
    ensures reply == Handler(log, Length(cmd), Offset(cmd))
  {
    hide Length, Offset, Header, Entries;
    var len, offset := Length(cmd), Offset(cmd);
    var entries := Entries(log, len, offset);
    var withHeader := FillOffset(offset) == 0;
    if len == 0 {
      return if withHeader || entries != [] then Panic else Data([]);
    }
    reply := Serve(len, Header(log), withHeader, entries);
  }

  /** Past the header the reply is the window, byte for byte. */
  lemma RecordsWindow(log: Log, len: u32, offset: u64)
    requires len >= UNIT && len % UNIT == 0 && offset % UNIT == 0 && offset >= 2 * UNIT
    ensures Handler(log, len, offset) == Data(Window(Page(log), offset, len))
  {
    hide Window, Header, Page, Bytes.Zeros, Chunks.Concat;
    var from, units := offset / UNIT - 1, len / UNIT;
    assert offset == (from + 1) * UNIT && len == units * UNIT;
    RecordWindow(log, from, units);
    ConcatLength(Avail(log, from, units));
    assert FillOffset(offset) == from * UNIT;
    assert [] + Concat(Avail(log, from, units)) == Concat(Avail(log, from, units));
  }

  lemma WindowFromStart(a: seq<byte>, b: seq<byte>, n: nat)
    ensures Window(a + b, 0, |a| + n) == a + Window(a + b, |a|, n)
  {
  }

  lemma StartWindow(log: Log, len: u32)
    requires len >= UNIT && len % UNIT == 0
    ensures Handler(log, len, 0) == Data(Window(Page(log), 0, len))
  {
    hide Window, Header, Bytes.Zeros, Chunks.Concat;
    var units := len / UNIT - 1;
    WindowFromStart(Header(log), Concat(log.recs), units * UNIT);
    RecordWindow(log, 0, units);
    ConcatLength(Avail(log, 0, units));
    assert Header(log)[..UNIT] == Header(log);
    assert NumEntries(len, 0) == units;
  }

  /** At offset 1024 the header goes out a second time, so a log with enough records overflows the list. */
  lemma HeaderAgain(log: Log, len: u32)
    requires len >= UNIT && len % UNIT == 0
    ensures Handler(log, len, UNIT) ==
            if |log.recs| >= len / UNIT then Internal
            else Data(Page(log) + Zeros(len - UNIT - |log.recs| * UNIT))
  {
    hide Header, Bytes.Zeros, Chunks.Concat;
    var units := len / UNIT;
    ConcatLength(Avail(log, 0, units));
    assert Header(log)[..UNIT] == Header(log);
    assert Avail(log, 0, units) == if |log.recs| >= units then log.recs[..units] else log.recs;
  }

  lemma {:induction false} ZeroField(width: nat)
    ensures ToLE(0, width) == Zeros(width)
    decreases width
  {
    if width == 0 {
    } else {
      ZeroField(width - 1);
    }
  }

  /** Only the empty log of generation 0 has an all-zero header. */
  lemma ZeroHeader(log: Log)
    requires log.Valid()
    ensures Header(log) == Zeros(UNIT) <==> log.gen == 0 && log.recs == []
  {
    HeaderRoundTrip(log);
    HeaderRoundTrip(Log(0, []));
    assert Header(Log(0, [])) == Zeros(UNIT) by {
      ZeroField(8);
      ZeroField(2);
      hide Bytes.ToLE;
      assert Zeros(8) + Zeros(8) + Zeros(2) + Zeros(1006) == Zeros(UNIT);
    }
    hide Header, HeaderGen, HeaderNumRec;
    if Header(log) == Zeros(UNIT) {
      assert Header(log) == Header(Log(0, []));
    }
  }

  /** A shifted copy of records over zeros: equal to the original only when all is zero. */
  lemma {:induction false} ShiftedZeros(header: Record, rs: seq<Record>, k: nat, shifted: seq<Record>,
                                        plain: seq<Record>)
    requires shifted == plain && |rs| < |plain| && k <= |rs|
    requires shifted[..|rs| + 1] == [header] + rs
    requires plain[..|rs| + 1] == rs + [Zeros(UNIT)]
    ensures shifted[k] == Zeros(UNIT)
    decreases |rs| - k
  {
    assert plain[k] == (rs + [Zeros(UNIT)])[k];
    if k < |rs| {
      ShiftedZeros(header, rs, k + 1, shifted, plain);
      assert shifted[k + 1] == ([header] + rs)[k + 1] == rs[k];
    }
  }

  /** The reply and the window at offset 1024 differ unless the header is zero. */
  lemma ReplyAndWindow(header: Record, rs: seq<Record>, len: nat)
    requires len % UNIT == 0 && |rs| < len / UNIT
    ensures var reply := header + Concat(rs) + Zeros(len - UNIT - |rs| * UNIT);
      var window := Concat(rs) + Zeros(len - |rs| * UNIT);
      && (reply == window ==> header == Zeros(UNIT))
      && (rs == [] && header == Zeros(UNIT) ==> reply == window)
  {
    hide Bytes.Zeros, Chunks.Concat, Units;
    var reply := header + Concat(rs) + Zeros(len - UNIT - |rs| * UNIT);
    var window := Concat(rs) + Zeros(len - |rs| * UNIT);
    if reply == window {
      UnitsBoth(header, rs, len);
      ShiftedZeros(header, rs, 0, Units(reply), Units(window));
    }
    if rs == [] && header == Zeros(UNIT) {
      ZerosJoin(UNIT, len - UNIT);
      EmptyConcat(rs);
    }
  }

  /** What the window at offset 1024 holds when all records fit. */
  lemma WindowOfAll(log: Log, len: u32)
    requires len % UNIT == 0 && |log.recs| < len / UNIT
    ensures Window(Page(log), UNIT, len) == Concat(log.recs) + Zeros(len - |log.recs| * UNIT)
  {
    hide Window, Page, Bytes.Zeros, Chunks.Concat;
    var units := len / UNIT;
    RecordWindow(log, 0, units);
    assert Avail(log, 0, units) == log.recs;
    assert units * UNIT == len;
  }

  lemma AtHeaderOffset(log: Log, len: u32)
    requires log.Valid() && len >= UNIT && len % UNIT == 0
    ensures Handler(log, len, UNIT) == Data(Window(Page(log), UNIT, len)) <==> log.gen == 0 && log.recs == []
  {
    hide Handler, Window, Header, Bytes.Zeros, Chunks.Concat;
    HeaderAgain(log, len);
    ZeroHeader(log);
    if |log.recs| < len / UNIT {
      WindowOfAll(log, len);
      ReplyAndWindow(Header(log), log.recs, len);
    }
  }

  lemma EmptyConcat(rs: seq<Record>)
    ensures rs == [] ==> Concat(rs) == []
  {
  }

  lemma ZerosJoin(a: nat, b: nat)
    ensures Zeros(a) + Zeros(b) == Zeros(a + b)
  {
  }

  /** The units of the reply and of the window at offset 1024. */
  lemma UnitsBoth(header: Record, rs: seq<Record>, len: nat)
    requires len % UNIT == 0 && |rs| < len / UNIT
    ensures var shifted := Units(header + Concat(rs) + Zeros(len - UNIT - |rs| * UNIT));
            |shifted| > |rs| && shifted[..|rs| + 1] == [header] + rs && shifted[0] == header
    ensures var plain := Units(Concat(rs) + Zeros(len - |rs| * UNIT));
            |plain| > |rs| && plain[..|rs| + 1] == rs + [Zeros(UNIT)]
  {
    hide Units, Bytes.Zeros;
    var rest, rest' := Zeros(len - UNIT - |rs| * UNIT), Zeros(len - |rs| * UNIT);
    UnitsOfRecords([header] + rs, rest);
    assert ([header] + rs)[1..] == rs;
    assert Concat([header] + rs) == header + Concat(rs);
    UnitsOfRecords(rs, rest');
    UnitsOfZeros(len - |rs| * UNIT, 0);
  }

  /** The handler serves the window of the log at every unit boundary but one. */
  lemma WindowExact(log: Log, len: u32, offset: u64)
    requires log.Valid() && len >= UNIT && len % UNIT == 0 && offset % UNIT == 0
    ensures Handler(log, len, offset) == Data(Window(Page(log), offset, len))
       <==> offset != UNIT || (log.gen == 0 && log.recs == [])
  {
    hide Handler, Window, Page;
    if offset == 0 {
      StartWindow(log, len);
    } else if offset == UNIT {
      AtHeaderOffset(log, len);
    } else {
      RecordsWindow(log, len, offset);
    }
  }
}
