/** Decimal numbers on the wire: the guest's bounded parser and the host's formatter. */
module Decimal {
  import opened Bytes

  predicate IsDigit(b: Byte) {
    48 <= b <= 57
  }

  predicate AllDigits(s: seq<Byte>) {
    forall i :: 0 <= i < |s| ==> IsDigit(s[i])
  }

  function Value(s: seq<Byte>): nat
    requires AllDigits(s)
  {
    if s == [] then 0 else 10 * Value(s[..|s| - 1]) + (s[|s| - 1] - 48)
  }

  /** The number written in `s`, when it is one that fits in 32 bits. */
  function Parse(s: seq<Byte>): (r: Option<U32>) {
    if s != [] && AllDigits(s) && Value(s) < 0x1_0000_0000 then Some(Value(s)) else None
  }

  lemma {:induction false} ValuePrefix(s: seq<Byte>, n: nat)
    requires AllDigits(s) && n <= |s|
    ensures Value(s[..n]) <= Value(s)
  {
    if n == |s| {
      assert s[..n] == s;
    } else {
      ValuePrefix(s[..|s| - 1], n);
      assert s[..|s| - 1][..n] == s[..n];
    }
  }

  /** The guest's `parse_decimal`: no intermediate value leaves 32 bits, and a number is refused exactly
      when it is no number or does not fit. */
  method ParseDecimal(argument: seq<Byte>) returns (r: Option<U32>)
    ensures r == Parse(argument)
  {
    if |argument| == 0 {
      return None;
    }
    var parsed: U32 := 0;
    var index := 0;
    while index < |argument|
      invariant index <= |argument| && AllDigits(argument[..index])
      invariant parsed == Value(argument[..index])
    {
      var byte := argument[index];
      if !IsDigit(byte) {
        return None;
      }
      var digit: nat := byte - 48;
      assert argument[..index + 1][..index] == argument[..index];
      if parsed > (0xFFFF_FFFF - digit) / 10 {
        if AllDigits(argument) { ValuePrefix(argument, index + 1); }
        return None;
      }
      parsed := parsed * 10 + digit;
      index := index + 1;
    }
    assert argument[..index] == argument;
    return Some(parsed);
  }

  /** The host's `strconv.Itoa` on naturals. */
  function Itoa(n: nat): (s: seq<Byte>)
    ensures s != [] && AllDigits(s)
  {
    if n < 10 then [48 + n] else Itoa(n / 10) + [48 + n % 10]
  }

  lemma {:induction false} ParseItoa(n: nat)
    requires n < 0x1_0000_0000
    ensures Parse(Itoa(n)) == Some(n) && |Itoa(n)| <= 10
  {
    ValueItoa(n);
    ItoaLength(n, 10);
  }

  lemma {:induction false} ValueItoa(n: nat)
    ensures Value(Itoa(n)) == n
  {
    if n < 10 {
      assert [48 + n][..0] == [];
    } else {
      ValueItoa(n / 10);
      assert Itoa(n)[..|Itoa(n)| - 1] == Itoa(n / 10);
    }
  }

  lemma {:induction false} ItoaLength(n: nat, digits: nat)
    requires digits > 0 && n < Pow10(digits)
    ensures |Itoa(n)| <= digits
  {
    if n >= 10 {
      ItoaLength(n / 10, digits - 1);
    }
  }

  function Pow10(k: nat): nat {
    if k == 0 then 1 else 10 * Pow10(k - 1)
  }
}
