/** UTF-8 as section 3 of RFC 3629 defines it, and the guest's one-pass scanner. */
module Utf8 {
  import opened Bytes

  type Scalar = c: int | 0 <= c < 0xD800 || 0xE000 <= c < 0x11_0000

  function EncodeScalar(c: Scalar): (b: seq<Byte>)
    ensures 1 <= |b| <= 4
  {
    if c < 0x80 then [c]
    else if c < 0x800 then [0xC0 + c / 0x40, 0x80 + c % 0x40]
    else if c < 0x1_0000 then [0xE0 + c / 0x1000, 0x80 + c / 0x40 % 0x40, 0x80 + c % 0x40]
    else [0xF0 + c / 0x4_0000, 0x80 + c / 0x1000 % 0x40, 0x80 + c / 0x40 % 0x40, 0x80 + c % 0x40]
  }

  function Encode(cs: seq<Scalar>): (b: seq<Byte>) {
    if cs == [] then [] else EncodeScalar(cs[0]) + Encode(cs[1..])
  }

  /** Continuation bytes promised by a lead byte, with the payload bits of the lead byte and the least
      scalar that needs that many bytes; None for a byte that cannot lead. */
  datatype Lead = Lead(bits: nat, minimum: nat, remaining: nat)

  function ReadLead(first: Byte): Option<Lead> {
    if first <= 0x7F then Some(Lead(first, 0, 0))
    else if 0xC2 <= first <= 0xDF then Some(Lead(first % 0x20, 0x80, 1))
    else if 0xE0 <= first <= 0xEF then Some(Lead(first % 0x10, 0x800, 2))
    else if 0xF0 <= first <= 0xF4 then Some(Lead(first % 0x08, 0x1_0000, 3))
    else None
  }

  predicate Continuation(b: Byte) {
    b / 0x40 == 2
  }

  /** `bits` shifted left by six for every byte of `tail`, with the low six bits of that byte added. */
  function Accumulate(bits: nat, tail: seq<Byte>): nat {
    if tail == [] then bits
    else Accumulate(bits, tail[..|tail| - 1]) * 0x40 + Low6(tail[|tail| - 1])
  }

  predicate Acceptable(codepoint: nat, minimum: nat) {
    minimum <= codepoint <= 0x10_FFFF && !(0xD800 <= codepoint <= 0xDFFF)
  }

  /** The first scalar of `s`, when `s` starts with a well-formed one. */
  function DecodeScalar(s: seq<Byte>): (r: Option<Scalar>)
    requires s != []
  {
    match ReadLead(s[0])
    case None => None
    case Some(lead) =>
      if lead.remaining > |s| - 1 then None
      else if exists k :: 1 <= k <= lead.remaining && !Continuation(s[k]) then None
      else
        var codepoint := Accumulate(lead.bits, s[1..1 + lead.remaining]);
        if Acceptable(codepoint, lead.minimum) then Some(codepoint) else None
  }

  function Low6(b: Byte): (v: int)
    ensures 0 <= v < 0x40
  {
    b as int % 0x40
  }

  lemma Accumulate1(bits: nat, a: Byte)
    ensures Accumulate(bits, [a]) == bits * 0x40 + Low6(a)
  {
    assert [a][..0] == [];
  }

  lemma Accumulate2(bits: nat, a: Byte, b: Byte)
    ensures Accumulate(bits, [a, b]) == (bits * 0x40 + Low6(a)) * 0x40 + Low6(b)
  {
    assert [a, b][..1] == [a];
    Accumulate1(bits, a);
  }

  lemma Accumulate3(bits: nat, a: Byte, b: Byte, c: Byte)
    ensures Accumulate(bits, [a, b, c]) == ((bits * 0x40 + Low6(a)) * 0x40 + Low6(b)) * 0x40 + Low6(c)
  {
    assert [a, b, c][..2] == [a, b];
    Accumulate2(bits, a, b);
  }

  /** The sixbit digits of a number, and the number of its digits. */
  lemma Digits(c: nat)
    ensures c == c / 0x40 * 0x40 + c % 0x40
    ensures c / 0x40 == c / 0x1000 * 0x40 + c / 0x40 % 0x40
    ensures c / 0x1000 == c / 0x4_0000 * 0x40 + c / 0x1000 % 0x40
  {
    assert c / 0x40 / 0x40 == c / 0x1000 && c / 0x1000 / 0x40 == c / 0x4_0000;
  }

  lemma Undigits(c: nat, w: nat, z: nat, y: nat, x: nat)
    requires c == ((w * 0x40 + z) * 0x40 + y) * 0x40 + x && x < 0x40 && y < 0x40 && z < 0x40
    ensures c % 0x40 == x && c / 0x40 % 0x40 == y && c / 0x1000 % 0x40 == z && c / 0x4_0000 == w
  {
    Digits(c);
    assert c / 0x40 == (w * 0x40 + z) * 0x40 + y;
    assert c / 0x1000 == w * 0x40 + z;
  }

  lemma ContinuationLow(b: Byte)
    ensures Continuation(b) <==> b as int == 0x80 + Low6(b)
  {
  }

  lemma LowOf(v: nat)
    requires v < 0x40
    ensures Continuation(0x80 + v) && Low6(0x80 + v) == v
  {
  }

  /** Decoding of a two, three and four byte form, digit by digit. */
  lemma Decode2(s: seq<Byte>)
    requires |s| >= 2 && 0xC2 <= s[0] <= 0xDF && Continuation(s[1])
    ensures var c := (s[0] as int - 0xC0) * 0x40 + Low6(s[1]);
            Acceptable(c, 0x80) && DecodeScalar(s) == Some(c)
  {
    assert s[1..2] == [s[1]];
    Accumulate1(s[0] % 0x20, s[1]);
    assert s[0] as int % 0x20 == s[0] as int - 0xC0;
  }

  lemma Decode3(s: seq<Byte>)
    requires |s| >= 3 && 0xE0 <= s[0] <= 0xEF && Continuation(s[1]) && Continuation(s[2])
    ensures var c := ((s[0] as int - 0xE0) * 0x40 + Low6(s[1])) * 0x40 + Low6(s[2]);
            DecodeScalar(s) == if Acceptable(c, 0x800) then Some(c) else None
  {
    assert s[1..3] == [s[1], s[2]];
    Accumulate2(s[0] % 0x10, s[1], s[2]);
    assert s[0] as int % 0x10 == s[0] as int - 0xE0;
  }

  lemma Decode4(s: seq<Byte>)
    requires |s| >= 4 && 0xF0 <= s[0] <= 0xF4 && Continuation(s[1]) && Continuation(s[2]) && Continuation(s[3])
    ensures var c := (((s[0] as int - 0xF0) * 0x40 + Low6(s[1])) * 0x40 + Low6(s[2])) * 0x40 + Low6(s[3]);
            DecodeScalar(s) == if Acceptable(c, 0x1_0000) then Some(c) else None
  {
    assert s[1..4] == [s[1], s[2], s[3]];
    Accumulate3(s[0] % 0x08, s[1], s[2], s[3]);
    assert s[0] as int % 0x08 == s[0] as int - 0xF0;
  }

  /** Every encoding decodes to its scalar, whatever follows it. */
  lemma DecodeEncoded(c: Scalar, s: seq<Byte>)
    requires EncodeScalar(c) <= s
    ensures DecodeScalar(s) == Some(c)
  {
    var e := EncodeScalar(c);
    assert forall k :: 0 <= k < |e| ==> s[k] == e[k];
    Digits(c);
    LowOf(c % 0x40);
    if c < 0x80 {
      assert s[1..1] == [];
    } else if c < 0x800 {
      Decode2(s);
    } else if c < 0x1_0000 {
      LowOf(c / 0x40 % 0x40);
      Decode3(s);
    } else {
      LowOf(c / 0x40 % 0x40);
      LowOf(c / 0x1000 % 0x40);
      Decode4(s);
    }
  }

  /** Whatever decodes is the shortest encoding of what it decodes to: no overlong form, no surrogate and
      nothing above U+10FFFF gets through. */
  lemma DecodedIsEncoding(s: seq<Byte>)
    requires s != [] && DecodeScalar(s).Some?
    ensures EncodeScalar(DecodeScalar(s).value) <= s
  {
    var lead := ReadLead(s[0]).value;
    if lead.remaining == 0 {
      assert s[1..1] == [];
    } else {
      assert forall k :: 1 <= k <= lead.remaining ==> Continuation(s[k]);
      if lead.remaining == 1 {
        Decoded2(s);
      } else if lead.remaining == 2 {
        Decoded3(s);
      } else {
        Decoded4(s);
      }
    }
  }

  lemma Decoded2(s: seq<Byte>)
    requires |s| >= 2 && 0xC2 <= s[0] <= 0xDF && Continuation(s[1])
    ensures DecodeScalar(s).Some? && EncodeScalar(DecodeScalar(s).value) <= s
  {
    Decode2(s);
    ContinuationLow(s[1]);
    hide DecodeScalar, Continuation, Low6;
    var c := DecodeScalar(s).value;
    Undigits(c, 0, 0, s[0] - 0xC0, Low6(s[1]));
    assert EncodeScalar(c) == [s[0], s[1]];
  }

  lemma Decoded3(s: seq<Byte>)
    requires |s| >= 3 && 0xE0 <= s[0] <= 0xEF && Continuation(s[1]) && Continuation(s[2]) && DecodeScalar(s).Some?
    ensures EncodeScalar(DecodeScalar(s).value) <= s
  {
    Decode3(s);
    ContinuationLow(s[1]);
    ContinuationLow(s[2]);
    hide DecodeScalar, Continuation, Low6;
    var c := DecodeScalar(s).value;
    Undigits(c, 0, s[0] - 0xE0, Low6(s[1]), Low6(s[2]));
    assert EncodeScalar(c) == [s[0], s[1], s[2]];
  }

  lemma Decoded4(s: seq<Byte>)
    requires |s| >= 4 && 0xF0 <= s[0] <= 0xF4 && Continuation(s[1]) && Continuation(s[2]) && Continuation(s[3])
    requires DecodeScalar(s).Some?
    ensures EncodeScalar(DecodeScalar(s).value) <= s
  {
    Decode4(s);
    ContinuationLow(s[1]);
    ContinuationLow(s[2]);
    ContinuationLow(s[3]);
    hide DecodeScalar, Continuation, Low6;
    var c := DecodeScalar(s).value;
    Undigits(c, s[0] - 0xF0, Low6(s[1]), Low6(s[2]), Low6(s[3]));
    assert EncodeScalar(c) == [s[0], s[1], s[2], s[3]];
  }

  /** Bytes taken by the first scalar of `s`. */
  function Width(s: seq<Byte>): nat
    requires s != [] && DecodeScalar(s).Some?
    ensures 1 <= Width(s) <= |s|
  {
    1 + ReadLead(s[0]).value.remaining
  }

  lemma WidthIsEncodedLength(s: seq<Byte>)
    requires s != [] && DecodeScalar(s).Some?
    ensures Width(s) == |EncodeScalar(DecodeScalar(s).value)|
  {
    DecodedIsEncoding(s);
  }

  predicate Valid(s: seq<Byte>) {
    s == [] || (DecodeScalar(s).Some? && Valid(s[Width(s)..]))
  }

  function Decode(s: seq<Byte>): (cs: seq<Scalar>)
    requires Valid(s)
  {
    if s == [] then [] else [DecodeScalar(s).value] + Decode(s[Width(s)..])
  }

  lemma {:induction false} EncodeDecode(s: seq<Byte>)
    requires Valid(s)
    ensures Encode(Decode(s)) == s
  {
    if s != [] {
      DecodedIsEncoding(s);
      WidthIsEncodedLength(s);
      EncodeDecode(s[Width(s)..]);
    }
  }

  lemma {:induction false} DecodeEncode(cs: seq<Scalar>)
    ensures Valid(Encode(cs)) && Decode(Encode(cs)) == cs
  {
    if cs != [] {
      var s := Encode(cs);
      DecodeEncoded(cs[0], s);
      WidthIsEncodedLength(s);
      assert s[Width(s)..] == Encode(cs[1..]);
      DecodeEncode(cs[1..]);
    }
  }

  /** A byte string is valid exactly when it is the encoding of some sequence of scalar values. */
  lemma ValidIsEncoding(s: seq<Byte>)
    ensures Valid(s) <==> exists cs: seq<Scalar> :: Encode(cs) == s
  {
    if Valid(s) {
      EncodeDecode(s);
    }
    forall cs: seq<Scalar> | Encode(cs) == s ensures Valid(s) {
      DecodeEncode(cs);
    }
  }

  lemma SameFirst(a: seq<Byte>, b: seq<Byte>)
    requires a != [] && DecodeScalar(a).Some?
    ensures DecodeScalar(a + b) == DecodeScalar(a) && Width(a + b) == Width(a)
  {
    DecodedIsEncoding(a);
    assert a <= a + b;
    DecodeEncoded(DecodeScalar(a).value, a + b);
  }

  lemma {:induction false} ValidConcat(a: seq<Byte>, b: seq<Byte>)
    requires Valid(a) && Valid(b)
    ensures Valid(a + b)
  {
    if a == [] {
      assert a + b == b;
    } else {
      ValidConcat(a[Width(a)..], b);
      SameFirst(a, b);
      assert (a + b)[Width(a)..] == a[Width(a)..] + b;
    }
  }

  /** An ASCII byte stands for itself and never occurs inside a longer form. */
  lemma ValidAscii(b: Byte)
    requires b < 0x80
    ensures Valid([b])
  {
    assert [b][1..1] == [];
    assert DecodeScalar([b]).Some?;
    assert [b][Width([b])..] == [];
  }

  predicate AllContinuations(tail: seq<Byte>) {
    forall k :: 0 <= k < |tail| ==> Continuation(tail[k])
  }

  /** The scalar at a position, in terms of the bytes that the scanner looks at. */
  lemma ScalarAt(data: seq<Byte>, at: nat)
    requires at < |data|
    ensures DecodeScalar(data[at..]) ==
            match ReadLead(data[at])
            case None => None
            case Some(lead) =>
              if lead.remaining > |data| - at - 1 then None
              else
                var tail := data[at + 1..at + 1 + lead.remaining];
                if !AllContinuations(tail) || !Acceptable(Accumulate(lead.bits, tail), lead.minimum) then None
                else Some(Accumulate(lead.bits, tail))
  {
    hide Continuation, Accumulate;
    var s := data[at..];
    if ReadLead(s[0]).Some? && ReadLead(s[0]).value.remaining <= |s| - 1 {
      var n := ReadLead(s[0]).value.remaining;
      assert s[1..1 + n] == data[at + 1..at + 1 + n];
      var tail := s[1..1 + n];
      assert forall k :: 0 <= k < n ==> tail[k] == s[k + 1];
      forall k | 1 <= k <= n && !Continuation(s[k])
        ensures !AllContinuations(tail)
      {
        assert tail[k - 1] == s[k];
      }
    }
  }

  lemma NextScalar(data: seq<Byte>, at: nat)
    requires at < |data| && DecodeScalar(data[at..]).Some?
    ensures var next := at + 1 + ReadLead(data[at]).value.remaining;
            next <= |data| && Valid(data[at..]) == Valid(data[next..])
  {
    hide DecodeScalar, ReadLead;
    var next := at + Width(data[at..]);
    assert data[at..][Width(data[at..])..] == data[next..];
  }

  /** The guest's `valid_utf8`: one pass over the bytes, never past the end. */
  method Scan(data: seq<Byte>) returns (ok: bool)
    ensures ok <==> Valid(data)
    ensures ok <==> exists cs: seq<Scalar> :: Encode(cs) == data
  {
    hide DecodeScalar, Continuation, AllContinuations, Accumulate, Encode, ReadLead;
    ValidIsEncoding(data);
    var index := 0;
    while index < |data|
      invariant index <= |data|
      invariant Valid(data) <==> Valid(data[index..])
    {
      ScalarAt(data, index);
      var lead := ReadLead(data[index]);
      if lead.None? {
        return false;
      }
      var Lead(bits, minimum, remaining) := lead.value;
      if remaining > |data| - index - 1 {
        return false;
      }
      var codepoint;
      ok, codepoint := ScanTail(data, index + 1, remaining, bits);
      if !ok || !Acceptable(codepoint, minimum) {
        return false;
      }
      NextScalar(data, index);
      index := index + 1 + remaining;
    }
    return true;
  }

  /** The loop over the continuation bytes. */
  method ScanTail(data: seq<Byte>, start: nat, remaining: nat, bits: nat) returns (ok: bool, codepoint: nat)
    requires start + remaining <= |data|
    ensures ok <==> AllContinuations(data[start..start + remaining])
    ensures ok ==> codepoint == Accumulate(bits, data[start..start + remaining])
  {
    hide Continuation, Low6;
    var index := start;
    codepoint := bits;
    while index < start + remaining
      invariant start <= index <= start + remaining
      invariant AllContinuations(data[start..index])
      invariant codepoint == Accumulate(bits, data[start..index])
    {
      if !Continuation(data[index]) {
        assert !Continuation(data[start..start + remaining][index - start]);
        return false, codepoint;
      }
      codepoint := codepoint * 0x40 + Low6(data[index]);
      assert data[start..index + 1] == data[start..index] + [data[index]];
      assert data[start..index + 1][..index - start] == data[start..index];
      index := index + 1;
    }
    return true, codepoint;
  }
}
