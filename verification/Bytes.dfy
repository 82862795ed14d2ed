/** Bytes, little-endian integers and the few sequence facts that every other module needs. */
module Bytes {

  type Byte = x: int | 0 <= x < 0x100
  type U16 = x: int | 0 <= x < 0x1_0000
  type U32 = x: int | 0 <= x < 0x1_0000_0000

  datatype Option<+T> = None | Some(value: T)

  /** The two low bytes of `v`, least significant first; higher bits are dropped, as a C or Go cast drops them. */
  function U16LE(v: nat): (b: seq<Byte>)
    ensures |b| == 2
  {
    [v % 0x100, v / 0x100 % 0x100]
  }

  /** The four low bytes of `v`, least significant first. */
  function U32LE(v: nat): (b: seq<Byte>)
    ensures |b| == 4
  {
    [v % 0x100, v / 0x100 % 0x100, v / 0x1_0000 % 0x100, v / 0x100_0000 % 0x100]
  }

  function ReadU16(b: seq<Byte>): (v: U16)
    requires |b| >= 2
  {
    b[0] as int + 0x100 * b[1] as int
  }

  function ReadU32(b: seq<Byte>): (v: U32)
    requires |b| >= 4
  {
    b[0] as int + 0x100 * b[1] as int + 0x1_0000 * b[2] as int + 0x100_0000 * b[3] as int
  }

  lemma U16RoundTrip(v: U16, rest: seq<Byte>)
    ensures ReadU16(U16LE(v) + rest) == v
  {
    assert v / 0x100 % 0x100 == v / 0x100;
  }

  lemma U32RoundTrip(v: U32, rest: seq<Byte>)
    ensures ReadU32(U32LE(v) + rest) == v
  {
    var a, b, c := v / 0x100, v / 0x1_0000, v / 0x100_0000;
    assert a / 0x100 == b && b / 0x100 == c;
    assert v == v % 0x100 + 0x100 * a && a == a % 0x100 + 0x100 * b && b == b % 0x100 + 0x100 * c && c % 0x100 == c;
  }

  lemma U16Reread(b: seq<Byte>)
    requires |b| >= 2
    ensures U16LE(ReadU16(b)) == b[..2]
  {
  }

  lemma U32Reread(b: seq<Byte>)
    requires |b| >= 4
    ensures U32LE(ReadU32(b)) == b[..4]
  {
    var v := ReadU32(b);
    assert v / 0x100 == b[1] as int + 0x100 * b[2] as int + 0x1_0000 * b[3] as int;
    assert v / 0x1_0000 == b[2] as int + 0x100 * b[3] as int;
    assert v / 0x100_0000 == b[3];
  }

  function Min(a: nat, b: nat): nat {
    if a < b then a else b
  }

  /** All parts one after the other. */
  function Concat(parts: seq<seq<Byte>>): (all: seq<Byte>) {
    if parts == [] then [] else parts[0] + Concat(parts[1..])
  }

  lemma {:induction false} ConcatAppend(a: seq<seq<Byte>>, b: seq<seq<Byte>>)
    ensures Concat(a + b) == Concat(a) + Concat(b)
  {
    if a == [] {
      assert a + b == b;
    } else {
      ConcatAppend(a[1..], b);
      assert Concat(a + b) == a[0] + (Concat(a[1..]) + Concat(b)) by {
        assert (a + b)[0] == a[0] && (a + b)[1..] == a[1..] + b;
      }
      hide Concat;
    }
  }
}
