// Bytes, fixed-width integers and little-endian fields.

module Bytes {
  const U16: int := 0x1_0000
  const U32: int := 0x1_0000_0000
  const U64: int := 0x1_0000_0000_0000_0000

  type byte = x: int | 0 <= x < 0x100
  type u16 = x: int | 0 <= x < U16
  type u32 = x: int | 0 <= x < U32
  type u64 = x: int | 0 <= x < U64

  function Min(x: int, y: int): (r: int)
    ensures r <= x && r <= y && (r == x || r == y)
  {
    if x < y then x else y
  }

  function Max(x: int, y: int): (r: int)
    ensures r >= x && r >= y && (r == x || r == y)
  {
    if x > y then x else y
  }

  function Zeros(n: nat): (z: seq<byte>)
    ensures |z| == n
    ensures forall i :: 0 <= i < n ==> z[i] == 0
  {
    seq(n, _ => 0)
  }

  /** Little-endian field of `width` bytes; higher digits of `value` are dropped. */
  function ToLE(value: nat, width: nat): (s: seq<byte>)
    ensures |s| == width
    decreases width
  {
    if width == 0 then [] else [value % 0x100] + ToLE(value / 0x100, width - 1)
  }

  function FromLE(s: seq<byte>): (value: nat)
  {
    if s == [] then 0 else s[0] + 0x100 * FromLE(s[1..])
  }

  function Pow256(n: nat): (p: nat)
    ensures p > 0
  {
    if n == 0 then 1 else 0x100 * Pow256(n - 1)
  }

  /** A field that is wide enough gives its value back. */
  lemma {:induction false} FieldRoundTrip(value: nat, width: nat)
    requires value < Pow256(width)
    ensures FromLE(ToLE(value, width)) == value
    decreases width
  {
    if width == 0 {
    } else {
      FieldRoundTrip(value / 0x100, width - 1);
      assert ToLE(value, width)[1..] == ToLE(value / 0x100, width - 1);
    }
  }

  /** The widths used by the wire structures. */
  lemma WordRoundTrip(value: nat)
    ensures value < U16 ==> FromLE(ToLE(value, 2)) == value
    ensures value < U32 ==> FromLE(ToLE(value, 4)) == value
    ensures value < U64 ==> FromLE(ToLE(value, 8)) == value
  {
    assert Pow256(2) == U16;
    assert Pow256(4) == U32 by { assert Pow256(4) == 0x1_0000 * Pow256(2); }
    assert Pow256(8) == U64 by { assert Pow256(6) == 0x1_0000 * Pow256(4); assert Pow256(8) == 0x1_0000 * Pow256(6); }
    if value < U16 { FieldRoundTrip(value, 2); }
    if value < U32 { FieldRoundTrip(value, 4); }
    if value < U64 { FieldRoundTrip(value, 8); }
  }
}
