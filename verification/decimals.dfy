// Decimal numbers as text.

module Decimals {
  import opened Wrappers

  predicate IsDigit(c: char) { '0' <= c <= '9' }

  predicate IsNumeral(s: string) { s != [] && forall i :: 0 <= i < |s| ==> IsDigit(s[i]) }

  function Digit(d: nat): (c: char)
    requires d < 10
    ensures IsDigit(c) && DigitValue(c) == d
  {
    '0' + d as char
  }

  function DigitValue(c: char): (d: nat)
    requires IsDigit(c)
    ensures d < 10
  {
    c as int - '0' as int
  }

  function Print(n: nat): (s: string)
    ensures IsNumeral(s)
  {
    if n < 10 then [Digit(n)] else Print(n / 10) + [Digit(n % 10)]
  }

  function Value(s: string): nat
    requires IsNumeral(s)
  {
    if |s| == 1 then DigitValue(s[0]) else Value(s[..|s| - 1]) * 10 + DigitValue(s[|s| - 1])
  }

  lemma {:induction false} PrintValue(n: nat)
    ensures Value(Print(n)) == n
  {
    if n >= 10 { PrintValue(n / 10); }
  }

  lemma PrintInjective(m: nat, n: nat)
    requires Print(m) == Print(n)
    ensures m == n
  {
    PrintValue(m);
    PrintValue(n);
  }

  /** Base 10 with an optional sign, within 32 bits. */
  function ParseInt(s: string): Option<int>
  {
    var signed := s != [] && (s[0] == '+' || s[0] == '-');
    var digits := if signed then s[1..] else s;
    if !IsNumeral(digits) then None
    else
      var v: int := if signed && s[0] == '-' then 0 - Value(digits) else Value(digits);
      if -0x8000_0000 <= v < 0x8000_0000 then Some(v) else None
  }

  lemma ParsePrint(n: nat)
    ensures ParseInt(Print(n)) == if n < 0x8000_0000 then Some(n) else None
  {
    hide Print, Value;
    PrintValue(n);
    assert IsDigit(Print(n)[0]);
  }

  function Pow10(n: nat): nat { if n == 0 then 1 else 10 * Pow10(n - 1) }

  /** The sum of the digits by their places, from the left. */
  function PlaceSum(s: string): nat
    requires forall i :: 0 <= i < |s| ==> '0' <= s[i] <= '9'
  {
    if s == [] then 0 else (s[0] as int - 48) * Pow10(|s| - 1) + PlaceSum(s[1..])
  }

  lemma {:induction false} PlaceSumMore(s: string, c: char)
    requires (forall i :: 0 <= i < |s| ==> '0' <= s[i] <= '9') && '0' <= c <= '9'
    ensures PlaceSum(s + [c]) == 10 * PlaceSum(s) + (c as int - 48)
  {
    if s == [] {
      assert [] + [c] == [c] && [c][1..] == [];
      assert Pow10(0) == 1;
    } else {
      PlaceSumMore(s[1..], c);
      assert (s + [c])[1..] == s[1..] + [c];
      var d := s[0] as int - 48;
      assert Pow10(|s|) == 10 * Pow10(|s| - 1);
      assert d * (10 * Pow10(|s| - 1)) == 10 * (d * Pow10(|s| - 1));
    }
  }

  lemma {:induction false} ValueIsPlaceSum(s: string)
    requires IsNumeral(s)
    ensures Value(s) == PlaceSum(s)
  {
    if |s| == 1 {
      assert s[1..] == [] && Pow10(0) == 1;
    } else {
      var t := s[..|s| - 1];
      assert s == t + [s[|s| - 1]];
      assert IsNumeral(t);
      ValueIsPlaceSum(t);
      PlaceSumMore(t, s[|s| - 1]);
    }
  }

  /** A text is a number exactly when it is digits behind at most one sign and fits in 32 bits, and then it is the sum
      of its digits by their places. */
  lemma ParseIntExact(s: string)
    ensures var digits := if s != [] && (s[0] == '+' || s[0] == '-') then s[1..] else s;
      if digits == [] || exists i :: 0 <= i < |digits| && !('0' <= digits[i] <= '9') then ParseInt(s) == None
      else
        var n: int := if s[0] == '-' then 0 - PlaceSum(digits) else PlaceSum(digits);
        ParseInt(s) == if -2147483648 <= n <= 2147483647 then Some(n) else None
  {
    hide Value, PlaceSum;
    var digits := if s != [] && (s[0] == '+' || s[0] == '-') then s[1..] else s;
    if digits != [] && forall i :: 0 <= i < |digits| ==> '0' <= digits[i] <= '9' {
      assert IsNumeral(digits);
      ValueIsPlaceSum(digits);
    } else {
      assert !IsNumeral(digits);
    }
  }
}
