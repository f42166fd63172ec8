// Scatter lists: a byte buffer kept in chunks, with a cursor for writing and one for reading.

/** Concatenation of chunks and overwriting in place, on values. */
module Chunks {
  import opened Bytes

  function Concat(cs: seq<seq<byte>>): (s: seq<byte>)
  {
    if cs == [] then [] else cs[0] + Concat(cs[1..])
  }

  /** `s` with the bytes from `pos` on replaced by `d`. */
  function Overwrite(s: seq<byte>, pos: nat, d: seq<byte>): (r: seq<byte>)
    requires pos + |d| <= |s|
    ensures |r| == |s|
    ensures r[pos..pos + |d|] == d
    ensures r[pos + |d|..] == s[pos + |d|..]
  {
    s[..pos] + d + s[pos + |d|..]
  }

  lemma {:induction false} ConcatAppend(a: seq<seq<byte>>, b: seq<seq<byte>>)
    ensures Concat(a + b) == Concat(a) + Concat(b)
  {
    if a == [] {
      assert a + b == b;
    } else {
      ConcatAppend(a[1..], b);
      assert (a + b)[1..] == a[1..] + b;
      assert Concat(a + b) == a[0] + Concat(a[1..] + b);
    }
  }

  lemma {:induction false} ConcatSnoc(cs: seq<seq<byte>>, c: seq<byte>)
    ensures Concat(cs + [c]) == Concat(cs) + c
  {
    ConcatAppend(cs, [c]);
    assert [c][1..] == [];
  }

  lemma {:induction false} ConcatAround(a: seq<seq<byte>>, c: seq<byte>, b: seq<seq<byte>>)
    ensures Concat(a + [c] + b) == Concat(a) + c + Concat(b)
    ensures Concat(a + [c]) == Concat(a) + c
  {
    hide Concat;
    ConcatSnoc(a, c);
    ConcatAppend(a + [c], b);
  }

  /** Chunk `i` sits in the concatenation right after the chunks before it. */
  lemma {:induction false} ConcatSplit(cs: seq<seq<byte>>, i: nat)
    requires i < |cs|
    ensures Concat(cs) == Concat(cs[..i]) + cs[i] + Concat(cs[i + 1..])
    ensures Concat(cs[..i + 1]) == Concat(cs[..i]) + cs[i]
  {
    hide Concat;
    var (a, c, b) := (cs[..i], cs[i], cs[i + 1..]);
    ConcatAround(a, c, b);
    assert cs[..i + 1] == a + [c];
    assert cs == a + [c] + b;
  }

  /** The chunks with bytes `d` put into chunk `i` at `offset`. */
  function Patched(cs: seq<seq<byte>>, i: nat, offset: nat, d: seq<byte>): (r: seq<seq<byte>>)
    requires i < |cs| && offset + |d| <= |cs[i]|
    ensures |r| == |cs| && forall j :: 0 <= j < |cs| ==> |r[j]| == |cs[j]|
  {
    cs[i := Overwrite(cs[i], offset, d)]
  }

  lemma OverwriteMiddle(a: seq<byte>, b: seq<byte>, c: seq<byte>, offset: nat, d: seq<byte>)
    requires offset + |d| <= |b|
    ensures Overwrite(a + b + c, |a| + offset, d) == a + Overwrite(b, offset, d) + c
  {
    assert (a + b + c)[..|a| + offset] == a + b[..offset];
    assert (a + b + c)[|a| + offset + |d|..] == b[offset + |d|..] + c;
  }

  /** Overwriting inside one chunk overwrites the same bytes of the concatenation. */
  lemma {:induction false} ConcatOverwrite(cs: seq<seq<byte>>, i: nat, offset: nat, d: seq<byte>)
    requires i < |cs| && offset + |d| <= |cs[i]|
    ensures |Concat(cs[..i])| + offset + |d| <= |Concat(cs)|
    ensures Concat(Patched(cs, i, offset, d)) == Overwrite(Concat(cs), |Concat(cs[..i])| + offset, d)
  {
    var cs' := Patched(cs, i, offset, d);
    ConcatSplit(cs, i);
    ConcatSplit(cs', i);
    assert cs'[..i] == cs[..i];
    assert cs'[i + 1..] == cs[i + 1..];
    OverwriteMiddle(Concat(cs[..i]), cs[i], Concat(cs[i + 1..]), offset, d);
  }

  lemma OverwriteNothing(s: seq<byte>, pos: nat)
    requires pos <= |s|
    ensures Overwrite(s, pos, []) == s
  {
  }

  lemma OverwriteSlices(s: seq<byte>, d: seq<byte>)
    requires |d| <= |s|
    ensures Overwrite(s, 0, d)[..|d|] == d && Overwrite(s, 0, d)[|d|..] == s[|d|..]
  {
  }

  lemma OverwriteTwice(s: seq<byte>, pos: nat, a: seq<byte>, b: seq<byte>)
    requires pos + |a| + |b| <= |s|
    ensures Overwrite(Overwrite(s, pos, a), pos + |a|, b) == Overwrite(s, pos, a + b)
  {
  }

  ghost predicate NoneEmpty(cs: seq<seq<byte>>)
  {
    forall i :: 0 <= i < |cs| ==> |cs[i]| > 0
  }

  /** Where chunk `index`, offset `offset` lies in the concatenation. */
  ghost function FlatPos(cs: seq<seq<byte>>, index: nat, offset: nat): (pos: nat)
    requires index <= |cs|
  {
    |Concat(cs[..index])| + offset
  }

  ghost predicate CursorOk(cs: seq<seq<byte>>, index: nat, offset: nat)
  {
    && NoneEmpty(cs)
    && index <= |cs|
    && (if index < |cs| then offset < |cs[index]| else offset == 0)
  }

  /** A cursor is inside the concatenation, and at its end exactly when no chunk is left. */
  lemma {:induction false} CursorInside(cs: seq<seq<byte>>, index: nat, offset: nat)
    requires CursorOk(cs, index, offset)
    ensures FlatPos(cs, index, offset) <= |Concat(cs)|
    ensures index == |cs| <==> FlatPos(cs, index, offset) == |Concat(cs)|
  {
    if index < |cs| {
      ConcatSplit(cs, index);
    } else {
      assert cs[..index] == cs;
    }
  }

  /** The cursor `n` bytes on: in the same chunk, or at the next one when that uses it up. */
  ghost function Advance(cs: seq<seq<byte>>, index: nat, offset: nat, n: nat): (r: (nat, nat))
    requires index < |cs| && offset + n <= |cs[index]|
  {
    if offset + n < |cs[index]| then (index, offset + n) else (index + 1, 0)
  }

  lemma {:induction false} CursorStep(cs: seq<seq<byte>>, index: nat, offset: nat, n: nat)
    requires CursorOk(cs, index, offset) && index < |cs| && offset + n <= |cs[index]|
    ensures FlatPos(cs, index, offset) + n <= |Concat(cs)|
    ensures var (i, o) := Advance(cs, index, offset, n);
            CursorOk(cs, i, o) && FlatPos(cs, i, o) == FlatPos(cs, index, offset) + n
  {
    ConcatSplit(cs, index);
  }

  /** The bytes of a chunk are the bytes of the concatenation at the chunk's place. */
  lemma {:induction false} ChunkBytes(cs: seq<seq<byte>>, index: nat, offset: nat, n: nat)
    requires index < |cs| && offset + n <= |cs[index]|
    ensures FlatPos(cs, index, offset) + n <= |Concat(cs)|
    ensures cs[index][offset..offset + n]
         == Concat(cs)[FlatPos(cs, index, offset)..FlatPos(cs, index, offset) + n]
  {
    var a, b, c := Concat(cs[..index]), cs[index], Concat(cs[index + 1..]);
    ConcatSplit(cs, index);
    assert (a + b + c)[|a| + offset..|a| + offset + n] == b[offset..offset + n];
  }

  /** One round of writing, seen on the concatenation. */
  lemma {:induction false} WriteStep(cs: seq<seq<byte>>, cs': seq<seq<byte>>, index: nat, offset: nat, d: seq<byte>)
    requires CursorOk(cs, index, offset) && index < |cs| && offset + |d| <= |cs[index]|
    requires cs' == Patched(cs, index, offset, d)
    ensures FlatPos(cs, index, offset) + |d| <= |Concat(cs)|
    ensures Concat(cs') == Overwrite(Concat(cs), FlatPos(cs, index, offset), d)
    ensures var (i, o) := Advance(cs', index, offset, |d|);
            CursorOk(cs', i, o) && FlatPos(cs', i, o) == FlatPos(cs, index, offset) + |d|
  {
    hide Overwrite, Concat;
    ConcatOverwrite(cs, index, offset, d);
    assert cs'[..index] == cs[..index];
    CursorStep(cs', index, offset, |d|);
  }

  /** A copy of `n` bytes of `src` followed by a copy of the next `m`. */
  lemma OverwriteMore(s: seq<byte>, at: nat, src: seq<byte>, pos: nat, n: nat, m: nat)
    requires at + n + m <= |s| && pos + n + m <= |src|
    ensures Overwrite(Overwrite(s, at, src[pos..pos + n]), at + n, src[pos + n..pos + n + m])
         == Overwrite(s, at, src[pos..pos + n + m])
  {
    assert src[pos..pos + n] + src[pos + n..pos + n + m] == src[pos..pos + n + m];
    OverwriteTwice(s, at, src[pos..pos + n], src[pos + n..pos + n + m]);
  }

  lemma {:induction false} ConcatZeros(cs: seq<seq<byte>>)
    requires forall i :: 0 <= i < |cs| ==> cs[i] == Zeros(|cs[i]|)
    ensures Concat(cs) == Zeros(|Concat(cs)|)
  {
    if cs == [] {
    } else {
      assert cs[0] == Zeros(|cs[0]|);
      ConcatZeros(cs[1..]);
    }
  }
}

module ScatterLists {
  import opened Bytes
  import opened Chunks

  ghost predicate Distinct(buffers: seq<array<byte>>)
  {
    forall i, j :: 0 <= i < j < |buffers| ==> buffers[i] != buffers[j]
  }

  /** Separate chunks of zeros, none of them empty. */
  ghost predicate ZeroChunks(bs: seq<array<byte>>, cs: seq<seq<byte>>)
    reads bs
  {
    && |cs| == |bs| && Distinct(bs)
    && forall i :: 0 <= i < |bs| ==> bs[i].Length > 0 && bs[i][..] == cs[i] && cs[i] == Zeros(bs[i].Length)
  }

  lemma ZeroChunksNone()
    ensures Concat([]) == [] && ZeroChunks([], [])
  {
  }

  lemma ZeroChunksMore(bs: seq<array<byte>>, cs: seq<seq<byte>>, buffer: array<byte>)
    requires ZeroChunks(bs, cs) && buffer !in bs && buffer.Length > 0 && buffer[..] == Zeros(buffer.Length)
    ensures ZeroChunks(bs + [buffer], cs + [buffer[..]])
  {
  }

  lemma ZeroChunksValid(bs: seq<array<byte>>, cs: seq<seq<byte>>)
    requires ZeroChunks(bs, cs)
    ensures |cs| == |bs| && Distinct(bs) && NoneEmpty(cs) && Concat(cs) == Zeros(|Concat(cs)|)
    ensures forall i :: 0 <= i < |bs| ==> cs[i] == bs[i][..]
  {
    ConcatZeros(cs);
  }

  class ScatterList {
    const buffers: seq<array<byte>>
    var len: int
    const capacity: nat

    ghost predicate Valid()
      reads buffers
    {
      && NoneEmpty(Contents())
      && Distinct(buffers)
      && |Flat()| == capacity
    }

    /** The chunks as values. */
    ghost function Contents(): (cs: seq<seq<byte>>)
      reads buffers
      ensures |cs| == |buffers|
      ensures forall i :: 0 <= i < |cs| ==> cs[i] == buffers[i][..]
    {
      seq(|buffers|, i requires 0 <= i < |buffers| reads buffers => buffers[i][..])
    }

    /** The flat buffer that the list stands for. */
    ghost function Flat(): (s: seq<byte>)
      reads buffers
    {
      Concat(Contents())
    }

    /** A chunk size of zero is only usable for an empty list: the loop would not end. */
    constructor (datalen: nat, bufferLen: nat)
      requires bufferLen > 0 || datalen == 0
      ensures Valid() && fresh(buffers)
      ensures len == 0 && capacity == datalen
      ensures Flat() == Zeros(datalen)
      ensures forall i :: 0 <= i < |buffers| - 1 ==> buffers[i].Length == bufferLen
    {
      hide Chunks.Concat, ZeroChunks, Distinct, NoneEmpty;
      var bs: seq<array<byte>> := [];
      var left := datalen;
      ghost var cs: seq<seq<byte>> := [];
      ZeroChunksNone();
      while left > 0
        invariant 0 <= left <= datalen && |Concat(cs)| == datalen - left
        invariant ZeroChunks(bs, cs)
        invariant forall i :: 0 <= i < |bs| ==> fresh(bs[i])
        invariant forall i :: 0 <= i < |bs| - 1 ==> bs[i].Length == bufferLen
        invariant left > 0 && |bs| > 0 ==> bs[|bs| - 1].Length == bufferLen
      {
        var bufferSize := Min(left, bufferLen);
        var buffer := new byte[bufferSize](_ => 0);
        assert buffer[..] == Zeros(bufferSize);
        ConcatSnoc(cs, buffer[..]);
        ZeroChunksMore(bs, cs, buffer);
        bs := bs + [buffer];
        cs := cs + [buffer[..]];
        left := left - bufferSize;
      }
      ZeroChunksValid(bs, cs);
      buffers, len, capacity := bs, 0, datalen;
      new;
      assert Contents() == cs;
    }

    method Len() returns (n: int)
      ensures n == capacity - len
    {
      n := capacity - len;
    }
  }

  /** Go's copy: the bytes `src` go to `dst` at `at`. */
  method CopyBytes(dst: array<byte>, at: nat, src: seq<byte>)
    requires at + |src| <= dst.Length
    modifies dst
    ensures dst[..] == Overwrite(old(dst[..]), at, src)
  {
    forall k | 0 <= k < |src| {
      dst[at + k] := src[k];
    }
  }

  /** The sum that Len computes, over the chunks before `index`. */
  method SumBefore(sgl: ScatterList, index: nat) returns (sum: nat)
    requires sgl.Valid() && index <= |sgl.buffers|
    ensures sum == FlatPos(sgl.Contents(), index, 0)
  {
    sum := 0;
    for i := 0 to index
      invariant sum == FlatPos(sgl.Contents(), i, 0)
    {
      ConcatSplit(sgl.Contents(), i);
      sum := sum + sgl.buffers[i].Length;
    }
  }

  class ScatterListWriter {
    const sgl: ScatterList
    var offset: nat
    var index: nat

    ghost predicate Valid()
      reads this, sgl.buffers
    {
      sgl.Valid() && CursorOk(sgl.Contents(), index, offset)
    }

    ghost function Pos(): (pos: nat)
      requires Valid()
      reads this, sgl.buffers
    {
      FlatPos(sgl.Contents(), index, offset)
    }

    constructor (sgl: ScatterList)
      requires sgl.Valid()
      ensures this.sgl == sgl && Valid() && Pos() == 0
    {
      this.sgl, offset, index := sgl, 0, 0;
    }

    method Len() returns (n: int)
      requires Valid()
      ensures n == sgl.capacity - Pos()
    {
      var sum := SumBefore(sgl, index);
      n := sgl.capacity - (sum + offset);
    }

    /** The first `n` bytes of `p` have been stored from `pos0` on. */
    ghost predicate Wrote(flat0: seq<byte>, pos0: nat, p: seq<byte>, n: nat)
      reads this, sgl.buffers
    {
      && Distinct(sgl.buffers) && CursorOk(sgl.Contents(), index, offset)
      && n <= |p| && pos0 + n <= |flat0| && FlatPos(sgl.Contents(), index, offset) == pos0 + n
      && sgl.Flat() == Overwrite(flat0, pos0, p[0..n])
    }

    method Round(p: seq<byte>, n: nat, ghost flat0: seq<byte>, ghost pos0: nat) returns (m: nat)
      requires Wrote(flat0, pos0, p, n) && n < |p| && index < |sgl.buffers|
      modifies this, sgl, sgl.buffers
      ensures m > 0 && Wrote(flat0, pos0, p, n + m)
      ensures sgl.len == old(sgl.len) + m
    {
      hide Chunks.Overwrite, Chunks.Concat, Chunks.FlatPos, Chunks.Advance;
      ghost var cs, i, o := sgl.Contents(), index, offset;
      m := Copy(p, n);
      WriteStep(cs, sgl.Contents(), i, o, p[n..n + m]);
      OverwriteMore(flat0, pos0, p, 0, n, m);
    }

    /** Stores as much of `p` as there is room for; short exactly when `p` does not fit. */
    method Write(p: seq<byte>) returns (n: nat, short: bool)
      requires Valid()
      modifies this, sgl, sgl.buffers
      ensures Valid()
      ensures n == Min(|p|, sgl.capacity - old(Pos()))
      ensures short <==> |p| > sgl.capacity - old(Pos())
      ensures Pos() == old(Pos()) + n
      ensures sgl.len == old(sgl.len) + n
      ensures sgl.Flat() == Overwrite(old(sgl.Flat()), old(Pos()), p[..n])
    {
      hide Chunks.Overwrite, Chunks.Concat, Chunks.FlatPos;
      n := 0;
      ghost var pos0, flat0 := Pos(), sgl.Flat();
      CursorInside(sgl.Contents(), index, offset);
      OverwriteNothing(flat0, pos0);
      while |p| - n > 0 && index < |sgl.buffers|
        invariant Wrote(flat0, pos0, p, n)
        invariant sgl.len == old(sgl.len) + n
        decreases |p| - n
      {
        var m := Round(p, n, flat0, pos0);
        n := n + m;
      }
      CursorInside(sgl.Contents(), index, offset);
      assert p[0..n] == p[..n];
      short := |p| - n > 0;
    }

    /** One round of the write loop: fill the current chunk as far as `p` reaches. */
    method Copy(p: seq<byte>, from: nat) returns (m: nat)
      requires Distinct(sgl.buffers) && index < |sgl.buffers| && offset < sgl.buffers[index].Length
      requires from < |p|
      modifies this, sgl, sgl.buffers
      ensures 0 < m == Min(|p| - from, sgl.buffers[old(index)].Length - old(offset))
      ensures (index, offset) == Advance(sgl.Contents(), old(index), old(offset), m)
      ensures sgl.len == old(sgl.len) + m
      ensures sgl.Contents() == Patched(old(sgl.Contents()), old(index), old(offset), p[from..from + m])
    {
      var buffer := sgl.buffers[index];
      m := Min(buffer.Length - offset, |p| - from);
      ghost var cs := sgl.Contents();
      CopyBytes(buffer, offset, p[from..from + m]);
      assert forall j :: 0 <= j < |cs| && j != index ==> sgl.buffers[j] != buffer;
      assert sgl.Contents() == Patched(cs, index, offset, p[from..from + m]);
      sgl.len := sgl.len + m;
      offset := offset + m;
      if offset >= buffer.Length {
        offset := 0;
        index := index + 1;
      }
    }
  }

  class ScatterListReader {
    const sgl: ScatterList
    var offset: nat
    var index: nat

    ghost predicate Valid()
      reads this, sgl.buffers
    {
      sgl.Valid() && CursorOk(sgl.Contents(), index, offset)
    }

    ghost function Pos(): (pos: nat)
      requires Valid()
      reads this, sgl.buffers
    {
      FlatPos(sgl.Contents(), index, offset)
    }

    constructor (sgl: ScatterList)
      requires sgl.Valid()
      ensures this.sgl == sgl && Valid() && Pos() == 0
    {
      this.sgl, offset, index := sgl, 0, 0;
    }

    /** The first `n` bytes of `p` have been filled from `pos0` on. */
    ghost predicate Filled(cs: seq<seq<byte>>, pos0: nat, p: array<byte>, p0: seq<byte>, n: nat)
      reads this, sgl.buffers, p
    {
      && sgl.Contents() == cs && CursorOk(cs, index, offset) && n <= p.Length == |p0|
      && FlatPos(cs, index, offset) == pos0 + n <= |Concat(cs)|
      && p[..] == Overwrite(p0, 0, Concat(cs)[pos0..pos0 + n])
    }

    method Round(p: array<byte>, n: nat, ghost cs: seq<seq<byte>>, ghost pos0: nat, ghost p0: seq<byte>)
      returns (m: nat)
      requires p !in sgl.buffers && Filled(cs, pos0, p, p0, n) && n < p.Length && index < |sgl.buffers|
      modifies this, p
      ensures m > 0 && Filled(cs, pos0, p, p0, n + m)
    {
      hide Chunks.Overwrite, Chunks.Concat, Chunks.FlatPos, Chunks.Advance;
      ghost var i, o := index, offset;
      m := Copy(p, n);
      CursorStep(cs, i, o, m);
      ChunkBytes(cs, i, o, m);
      OverwriteMore(p0, 0, Concat(cs), pos0, n, m);
    }

    /** Fills `p` from the flat buffer; at the end of the buffer as far as it reaches. */
    method Read(p: array<byte>) returns (n: nat, eof: bool)
      requires Valid() && p !in sgl.buffers
      modifies this, p
      ensures Valid()
      ensures n == Min(p.Length, sgl.capacity - old(Pos()))
      ensures eof <==> p.Length > sgl.capacity - old(Pos())
      ensures Pos() == old(Pos()) + n
      ensures p[..n] == sgl.Flat()[old(Pos())..old(Pos()) + n]
      ensures p[n..] == old(p[n..])
    {
      hide Chunks.Overwrite, Chunks.Concat, Chunks.FlatPos;
      n := 0;
      ghost var cs, pos0, p0 := sgl.Contents(), Pos(), p[..];
      CursorInside(cs, index, offset);
      OverwriteNothing(p0, 0);
      while p.Length - n > 0 && index < |sgl.buffers|
        invariant Filled(cs, pos0, p, p0, n)
        decreases p.Length - n
      {
        var m := Round(p, n, cs, pos0, p0);
        n := n + m;
      }
      CursorInside(cs, index, offset);
      OverwriteSlices(p0, sgl.Flat()[pos0..pos0 + n]);
      eof := p.Length - n > 0;
    }

    /** One round of the read loop: empty the current chunk as far as `p` has room. */
    method Copy(p: array<byte>, at: nat) returns (m: nat)
      requires index < |sgl.buffers| && offset < sgl.buffers[index].Length
      requires p !in sgl.buffers && at < p.Length
      modifies this, p
      ensures sgl.Contents() == old(sgl.Contents())
      ensures 0 < m == Min(p.Length - at, sgl.buffers[old(index)].Length - old(offset))
      ensures (index, offset) == Advance(sgl.Contents(), old(index), old(offset), m)
      ensures p[..] == Overwrite(old(p[..]), at, sgl.buffers[old(index)][old(offset)..old(offset) + m])
    {
      var buffer := sgl.buffers[index];
      m := Min(buffer.Length - offset, p.Length - at);
      CopyBytes(p, at, buffer[offset..offset + m]);
      offset := offset + m;
      if offset >= buffer.Length {
        offset := 0;
        index := index + 1;
      }
    }
  }

  /** What was copied is the buffer from `pos` on, as far as it goes. */
  ghost predicate Drained(flat: seq<byte>, pos: nat, out: seq<byte>)
  {
    pos + |out| <= |flat| && out == flat[pos..pos + |out|]
  }

  lemma DrainedNone(flat: seq<byte>, pos: nat)
    requires pos <= |flat|
    ensures Drained(flat, pos, [])
  {
  }

  lemma DrainedMore(flat: seq<byte>, pos: nat, out: seq<byte>, n: nat)
    requires Drained(flat, pos, out) && pos + |out| + n <= |flat|
    ensures Drained(flat, pos, out + flat[pos + |out|..pos + |out| + n])
  {
    assert out + flat[pos + |out|..pos + |out| + n] == flat[pos..pos + |out| + n];
  }

  lemma DrainedAll(flat: seq<byte>, pos: nat, out: seq<byte>)
    requires Drained(flat, pos, out) && pos + |out| == |flat|
    ensures out == flat[pos..]
  {
  }

  /** One buffer full, or what is left. */
  method DrainSome(reader: ScatterListReader, p: array<byte>) returns (bytes: seq<byte>, eof: bool)
    requires reader.Valid() && p !in reader.sgl.buffers && p.Length > 0
    modifies reader, p
    ensures reader.Valid() && reader.sgl.Flat() == old(reader.sgl.Flat())
    ensures reader.Pos() == old(reader.Pos()) + |bytes| <= |reader.sgl.Flat()|
    ensures bytes == reader.sgl.Flat()[old(reader.Pos())..old(reader.Pos()) + |bytes|]
    ensures if eof then reader.Pos() == |reader.sgl.Flat()| else bytes != []
  {
    hide Chunks.Concat, Chunks.FlatPos, Chunks.CursorOk;
    CursorInside(reader.sgl.Contents(), reader.index, reader.offset);
    ghost var cs := reader.sgl.Contents();
    var n;
    n, eof := reader.Read(p);
    assert reader.sgl.Contents() == cs;
    bytes := p[..n];
  }

  /** io.Copy out of a scatter list, `bufLen` bytes at a time: everything from the cursor on. */
  method Drain(reader: ScatterListReader, bufLen: nat) returns (out: seq<byte>)
    requires reader.Valid() && bufLen > 0
    modifies reader
    ensures reader.Valid() && reader.Pos() == reader.sgl.capacity
    ensures old(reader.Pos()) <= reader.sgl.capacity
    ensures out == reader.sgl.Flat()[old(reader.Pos())..]
  {
    hide Drained, Chunks.Concat, Chunks.FlatPos, Chunks.CursorOk;
    ghost var pos0, flat := reader.Pos(), reader.sgl.Flat();
    CursorInside(reader.sgl.Contents(), reader.index, reader.offset);
    var p := new byte[bufLen](_ => 0);
    out := [];
    var eof := false;
    DrainedNone(flat, pos0);
    while !eof
      invariant reader.Valid() && reader.sgl.Flat() == flat && p !in reader.sgl.buffers
      invariant pos0 + |out| == reader.Pos() <= |flat| && Drained(flat, pos0, out)
      invariant eof ==> reader.Pos() == |flat|
      decreases !eof, |flat| - reader.Pos()
    {
      var bytes;
      bytes, eof := DrainSome(reader, p);
      DrainedMore(flat, pos0, out, |bytes|);
      out := out + bytes;
    }
    DrainedAll(flat, pos0, out);
  }

  /** The whole list, copied out. */
  method ReadAll(sgl: ScatterList) returns (bytes: seq<byte>)
    requires sgl.Valid()
    ensures bytes == sgl.Flat()
  {
    var reader := new ScatterListReader(sgl);
    bytes := Drain(reader, 32 * 1024);
  }
}
