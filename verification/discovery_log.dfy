// The discovery log page (section 5.3 of NVMe over Fabrics 1.1) as bytes, units and windows.

module DiscoveryLog {
  import opened Bytes
  import opened Chunks

  /** Header and records have the same size on the wire. */
  const UNIT: nat := 1024

  type Record = r: seq<byte> | |r| == UNIT witness Zeros(UNIT)

  datatype Log = Log(gen: u64, recs: seq<Record>) {
    /** The number of records is reported in 32 bits. */
    ghost predicate Valid() { |recs| < U32 }
  }

  function Header(log: Log): Record
  {
    ToLE(log.gen, 8) + ToLE(|log.recs|, 8) + ToLE(0, 2) + Zeros(1006)
  }

  function HeaderGen(unit: Record): nat { FromLE(unit[..8]) }

  function HeaderNumRec(unit: Record): nat { FromLE(unit[8..16]) }

  /** The log as the flat sequence of bytes that offsets count in. */
  ghost function Page(log: Log): seq<byte>
  {
    Header(log) + Concat(log.recs)
  }

  /** Bytes [from, from + n) of `s`, zero padded past its end. */
  ghost function Window(s: seq<byte>, from: nat, n: nat): (w: seq<byte>)
    ensures |w| == n
  {
    seq(n, i requires i >= 0 => if from + i < |s| then s[from + i] else 0)
  }

  /** The records in a buffer: its whole units. */
  function Units(data: seq<byte>): (us: seq<Record>)
    ensures |us| == |data| / UNIT
    decreases |data|
  {
    if |data| < UNIT then [] else [data[..UNIT]] + Units(data[UNIT..])
  }

  lemma HeaderRoundTrip(log: Log)
    requires log.Valid()
    ensures HeaderGen(Header(log)) == log.gen
    ensures HeaderNumRec(Header(log)) == |log.recs|
  {
    WordRoundTrip(log.gen);
    WordRoundTrip(|log.recs|);
    hide Bytes.ToLE, Bytes.FromLE;
    TwoFields(ToLE(log.gen, 8), ToLE(|log.recs|, 8), ToLE(0, 2) + Zeros(1006));
    assert Header(log) == ToLE(log.gen, 8) + ToLE(|log.recs|, 8) + (ToLE(0, 2) + Zeros(1006));
  }

  lemma TwoFields(a: seq<byte>, b: seq<byte>, rest: seq<byte>)
    ensures (a + b + rest)[..|a|] == a
    ensures (a + b + rest)[|a|..|a| + |b|] == b
  {
  }

  lemma {:induction false} ConcatLength(rs: seq<Record>)
    ensures |Concat(rs)| == |rs| * UNIT
  {
    if rs == [] {
    } else {
      ConcatLength(rs[1..]);
    }
  }

  lemma UnitsCons(r: Record, rest: seq<byte>)
    ensures Units(r + rest) == [r] + Units(rest)
  {
    assert (r + rest)[..UNIT] == r && (r + rest)[UNIT..] == rest;
  }

  lemma {:induction false} UnitsOfRecords(rs: seq<Record>, rest: seq<byte>)
    ensures Units(Concat(rs) + rest) == rs + Units(rest)
  {
    hide Units;
    if rs == [] {
      assert Concat(rs) + rest == rest;
    } else {
      UnitsOfRecords(rs[1..], rest);
      assert Concat(rs) + rest == rs[0] + (Concat(rs[1..]) + rest);
      UnitsCons(rs[0], Concat(rs[1..]) + rest);
      assert rs == [rs[0]] + rs[1..];
    }
  }

  lemma {:induction false} UnitAt(data: seq<byte>, i: nat)
    requires i < |data| / UNIT
    ensures Units(data)[i] == data[i * UNIT..(i + 1) * UNIT]
  {
    if i == 0 {
    } else {
      UnitAt(data[UNIT..], i - 1);
    }
  }

  lemma {:induction false} UnitsOfZeros(n: nat, i: nat)
    requires i < n / UNIT
    ensures Units(Zeros(n))[i] == Zeros(UNIT)
  {
    UnitAt(Zeros(n), i);
    assert Zeros(n)[i * UNIT..(i + 1) * UNIT] == Zeros(UNIT);
  }

  /** The records from index `from` on, at most `units` of them. */
  function Avail(log: Log, from: nat, units: nat): (rs: seq<Record>)
    ensures |rs| <= units
  {
    if from < |log.recs| then log.recs[from..Min(from + units, |log.recs|)] else []
  }

  /** A window on the log at a unit boundary past the header holds the records from there on. */
  lemma RecordWindow(log: Log, from: nat, units: nat)
    ensures Window(Page(log), (from + 1) * UNIT, units * UNIT)
         == Concat(Avail(log, from, units)) + Zeros((units - |Avail(log, from, units)|) * UNIT)
  {
    hide Window, Header, Bytes.Zeros;
    var avail := Avail(log, from, units);
    ConcatLength(log.recs);
    ConcatLength(avail);
    if from < |log.recs| {
      var mid := from + |avail|;
      PageSplit(log, from, mid);
      var a := Header(log) + Concat(log.recs[..from]);
      ConcatLength(log.recs[..from]);
      ConcatLength(log.recs[mid..]);
      WindowMiddle(a, Concat(avail), Concat(log.recs[mid..]), units * UNIT);
    } else {
      WindowPast(Page(log), (from + 1) * UNIT, units * UNIT);
      assert Concat(avail) == [];
    }
  }

  lemma PageSplit(log: Log, from: nat, mid: nat)
    requires from <= mid <= |log.recs|
    ensures Page(log) == Header(log) + Concat(log.recs[..from]) + Concat(log.recs[from..mid]) + Concat(log.recs[mid..])
  {
    assert log.recs == log.recs[..from] + (log.recs[from..mid] + log.recs[mid..]);
    ConcatAppend(log.recs[..from], log.recs[from..mid] + log.recs[mid..]);
    ConcatAppend(log.recs[from..mid], log.recs[mid..]);
  }

  lemma WindowPast(s: seq<byte>, from: nat, n: nat)
    requires from >= |s|
    ensures Window(s, from, n) == Zeros(n)
  {
  }

  lemma WindowMiddle(a: seq<byte>, b: seq<byte>, c: seq<byte>, n: nat)
    requires |b| <= n && (|b| == n || c == [])
    ensures Window(a + b + c, |a|, n) == b + Zeros(n - |b|)
  {
  }
}
