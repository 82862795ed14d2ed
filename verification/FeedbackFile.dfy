/** The file that holds one operator feedback record: its JSON text, and the limit up to which it is read back. */
module FeedbackFile {
  import opened Bytes
  import opened AsciiText
  import opened History
  import Decimal
  import Utf8

  datatype Record = Record(target: nat, source: nat, reason: Text, schema: nat)

  const FEEDBACK_LIMIT := MAX_ABORT_REASON_BYTES + 1024

  /** `validateOperatorFeedback`. */
  predicate WellFormed(r: Record) {
    r.schema == 1 && r.target > r.source && ValidReason(r.reason)
  }

  // ---------------------------------------------------------------- the JSON text

  const QUOTE: Byte := 0x22
  const BACKSLASH: Byte := 0x5C

  function Hex(digit: nat): Byte
    requires digit < 16
  {
    if digit < 10 then 0x30 + digit else 0x57 + digit
  }

  /** The letter of a short escape. */
  function Short(c: Utf8.Scalar): Option<Byte> {
    if c == 0x22 then Some(QUOTE)
    else if c == 0x5C then Some(BACKSLASH)
    else if c == 0x08 then Some(0x62)
    else if c == 0x0C then Some(0x66)
    else if c == 0x0A then Some(0x6E)
    else if c == 0x0D then Some(0x72)
    else if c == 0x09 then Some(0x74)
    else None
  }

  /** The other scalars that are escaped: control characters and the two line separators. */
  predicate Long(c: Utf8.Scalar) {
    c < 0x20 || c == 0x2028 || c == 0x2029
  }

  /** One scalar inside a JSON string, as the encoder writes it with HTML escaping off. */
  function Escape(c: Utf8.Scalar): (b: seq<Byte>)
    ensures 1 <= |b| <= 6 && b[0] != QUOTE
  {
    if Short(c).Some? then [BACKSLASH, Short(c).value]
    else if Long(c) then
      [BACKSLASH, 0x75, Hex(c / 0x1000), Hex(c / 0x100 % 0x10), Hex(c / 0x10 % 0x10), Hex(c % 0x10)]
    else Utf8.EncodeScalar(c)
  }

  function EscapeAll(cs: seq<Utf8.Scalar>): seq<Byte> {
    if cs == [] then [] else Escape(cs[0]) + EscapeAll(cs[1..])
  }

  function Escaped(reason: Text): seq<Byte>
    requires Utf8.Valid(reason)
  {
    EscapeAll(Utf8.Decode(reason))
  }

  /** `encodeOperatorFeedback`. */
  function Encoded(r: Record): seq<Byte>
    requires Utf8.Valid(r.reason)
  {
    Opening() + Decimal.Itoa(r.target) + Between() + Decimal.Itoa(r.source) + Middle() + Escaped(r.reason) + Closing() +
    Decimal.Itoa(r.schema) + End()
  }

  function Opening(): (b: seq<Byte>)
    ensures |b| == 25
  {
    Ascii("{\n  \"target_generation\": ")
  }

  function Between(): (b: seq<Byte>)
    ensures |b| == 31 && b[0] == 0x2C
  {
    Ascii(",\n  \"source_abort_generation\": ")
  }

  function Middle(): (b: seq<Byte>)
    ensures |b| == 15 && b[0] == 0x2C
  {
    Ascii(",\n  \"reason\": \"")
  }

  function Closing(): (b: seq<Byte>)
    ensures |b| == 23 && b[0] == QUOTE
  {
    Ascii("\",\n  \"schema_version\": ")
  }

  function End(): (b: seq<Byte>)
    ensures |b| == 3 && b[0] == 0x0A
  {
    Ascii("\n}\n")
  }

  /** The file is read back: `readRegularLimited` and `decodeOperatorFeedback`. */
  predicate Loadable(r: Record) {
    WellFormed(r) && |Encoded(r)| <= FEEDBACK_LIMIT
  }

  /** `loadOperatorFeedbackRecords` goes ahead. */
  predicate Loads(records: seq<Record>) {
    forall i :: 0 <= i < |records| ==> Loadable(records[i])
  }

  method LoadRecords(records: seq<Record>) returns (ok: bool)
    ensures ok == Loads(records)
  {
    hide ValidReason, Encoded;
    for i := 0 to |records|
      invariant forall k :: 0 <= k < i ==> Loadable(records[k])
    {
      var r := records[i];
      ok := r.schema == 1 && r.target > r.source;
      if ok {
        ok := ValidateAbortReason(r.reason);
      }
      if !ok {
        return false;
      }
      ValidIsText(r.reason);
      if |Encoded(r)| > FEEDBACK_LIMIT {
        return false;
      }
    }
    return true;
  }

  lemma ValidIsText(reason: Text)
    requires ValidReason(reason)
    ensures Utf8.Valid(reason)
  {
  }

  // ---------------------------------------------------------------- the text determines the record

  /** What precedes the first byte that cannot occur in it is determined by the whole. */
  lemma SplitAtStop(x: seq<Byte>, y: seq<Byte>, x': seq<Byte>, y': seq<Byte>)
    requires x + y == x' + y' && Decimal.AllDigits(x) && Decimal.AllDigits(x')
    requires y != [] && y' != [] && !Decimal.IsDigit(y[0]) && !Decimal.IsDigit(y'[0])
    ensures x == x' && y == y'
  {
    var s := x + y;
    assert s[|x|] == y[0] && s[|x'|] == y'[0];
    assert forall i :: 0 <= i < |x| ==> s[i] == x[i];
    assert forall i :: 0 <= i < |x'| ==> s[i] == x'[i];
    assert |x| == |x'|;
    assert x == s[..|x|] && x' == s[..|x'|] && y == s[|x|..] && y' == s[|x'|..];
  }

  lemma {:induction false} SameNumber(m: nat, y: seq<Byte>, n: nat, y': seq<Byte>)
    requires Decimal.Itoa(m) + y == Decimal.Itoa(n) + y'
    requires y != [] && y' != [] && !Decimal.IsDigit(y[0]) && !Decimal.IsDigit(y'[0])
    ensures m == n && y == y'
  {
    hide Decimal.Itoa;
    SplitAtStop(Decimal.Itoa(m), y, Decimal.Itoa(n), y');
    Decimal.ValueItoa(m);
    Decimal.ValueItoa(n);
  }

  lemma HexDistinct(m: nat, n: nat)
    requires m < 16 && n < 16 && Hex(m) == Hex(n)
    ensures m == n
  {
  }

  /** The four digits of a long escape tell which scalar it is. */
  lemma LongDistinct(c: Utf8.Scalar, d: Utf8.Scalar)
    requires Long(c) && Long(d) && Escape(c) == Escape(d) && Short(c).None? && Short(d).None?
    ensures c == d
  {
    var e, f := Escape(c), Escape(d);
    assert e[2] == f[2] && e[4] == f[4] && e[5] == f[5];
    HexDistinct(c / 0x1000, d / 0x1000);
    HexDistinct(c / 0x10 % 0x10, d / 0x10 % 0x10);
    HexDistinct(c % 0x10, d % 0x10);
  }

  /** No scalar's text begins another's. */
  lemma EscapeDistinct(c: Utf8.Scalar, d: Utf8.Scalar, s: seq<Byte>)
    requires Escape(c) <= s && Escape(d) <= s
    ensures c == d
  {
    var e, f := Escape(c), Escape(d);
    assert s[0] == e[0] == f[0];
    if Plain(c) || Plain(d) {
      PlainFirst(c);
      PlainFirst(d);
      Utf8.DecodeEncoded(c, s);
      Utf8.DecodeEncoded(d, s);
    } else {
      assert s[1] == e[1] == f[1];
      if Short(c).None? && Short(d).None? {
        assert e == s[..6] && f == s[..6];
        LongDistinct(c, d);
      }
    }
  }

  predicate Plain(c: Utf8.Scalar) {
    Short(c).None? && !Long(c)
  }

  lemma PlainFirst(c: Utf8.Scalar)
    ensures Escape(c)[0] == BACKSLASH <==> !Plain(c)
    ensures Plain(c) ==> Escape(c) == Utf8.EncodeScalar(c)
  {
  }

  /** A string goes on exactly as long as no bare quote comes next. */
  lemma FirstText(cs: seq<Utf8.Scalar>, y: seq<Byte>)
    requires y != [] && y[0] == QUOTE
    ensures (EscapeAll(cs) + y)[0] == QUOTE <==> cs == []
    ensures cs != [] ==> EscapeAll(cs) + y == Escape(cs[0]) + (EscapeAll(cs[1..]) + y)
  {
  }

  lemma {:induction false} SameScalars(cs: seq<Utf8.Scalar>, y: seq<Byte>, ds: seq<Utf8.Scalar>, y': seq<Byte>)
    requires EscapeAll(cs) + y == EscapeAll(ds) + y' && y != [] && y' != [] && y[0] == y'[0] == QUOTE
    ensures cs == ds && y == y'
  {
    FirstText(cs, y);
    FirstText(ds, y');
    if cs == [] {
      assert [] + y == y && [] + y' == y';
    } else {
      hide EscapeAll, Escape;
      EscapeDistinct(cs[0], ds[0], EscapeAll(cs) + y);
      After(Escape(cs[0]), EscapeAll(cs[1..]) + y, EscapeAll(ds[1..]) + y');
      SameScalars(cs[1..], y, ds[1..], y');
    }
  }

  /** Equal files hold equal records, so comparing files is comparing records. */
  lemma EncodedDistinct(a: Record, b: Record)
    requires Utf8.Valid(a.reason) && Utf8.Valid(b.reason) && Encoded(a) == Encoded(b)
    ensures a == b
  {
    hide Decimal.Itoa, EscapeAll, Opening, Between, Middle, Closing, End;
    var a4, b4 := Decimal.Itoa(a.schema) + End(), Decimal.Itoa(b.schema) + End();
    var a3, b3 := Closing() + a4, Closing() + b4;
    var a2, b2 := Middle() + (Escaped(a.reason) + a3), Middle() + (Escaped(b.reason) + b3);
    var a1, b1 := Between() + (Decimal.Itoa(a.source) + a2), Between() + (Decimal.Itoa(b.source) + b2);
    assert Encoded(a) == Opening() + (Decimal.Itoa(a.target) + a1);
    assert Encoded(b) == Opening() + (Decimal.Itoa(b.target) + b1);
    hide Encoded;
    After(Opening(), Decimal.Itoa(a.target) + a1, Decimal.Itoa(b.target) + b1);
    SameNumber(a.target, a1, b.target, b1);
    After(Between(), Decimal.Itoa(a.source) + a2, Decimal.Itoa(b.source) + b2);
    SameNumber(a.source, a2, b.source, b2);
    After(Middle(), Escaped(a.reason) + a3, Escaped(b.reason) + b3);
    SameScalars(Utf8.Decode(a.reason), a3, Utf8.Decode(b.reason), b3);
    After(Closing(), a4, b4);
    SameNumber(a.schema, End(), b.schema, End());
    Utf8.EncodeDecode(a.reason);
    Utf8.EncodeDecode(b.reason);
  }

  lemma After(x: seq<Byte>, y: seq<Byte>, y': seq<Byte>)
    requires x + y == x + y'
    ensures y == y'
  {
    assert y == (x + y)[|x|..] && y' == (x + y')[|x|..];
  }

  // ---------------------------------------------------------------- which reasons are safe

  /** The text around a reason when both numbers have all twenty digits. */
  const MAX_OVERHEAD := 138

  /** A reason whose record is read back whatever generations it is about; the operator's side can test this. */
  predicate SafeReason(reason: Text) {
    ValidReason(reason) && |Escaped(reason)| + MAX_OVERHEAD <= FEEDBACK_LIMIT
  }

  lemma EncodedSize(r: Record)
    requires Utf8.Valid(r.reason) && r.schema == 1
    ensures |Encoded(r)| == 98 + |Decimal.Itoa(r.target)| + |Decimal.Itoa(r.source)| + |Escaped(r.reason)|
  {
    hide Escaped, Opening, Between, Middle, Closing, End;
    assert |Decimal.Itoa(1)| == 1;
  }

  lemma TwentyDigits(n: nat)
    requires n <= LAST_GENERATION
    ensures |Decimal.Itoa(n)| <= 20
  {
    assert Decimal.Pow10(20) == 100_000_000_000_000_000_000 by { Powers(); }
    Decimal.ItoaLength(n, 20);
  }

  lemma Powers()
    ensures Decimal.Pow10(19) == 10_000_000_000_000_000_000 && Decimal.Pow10(20) == 100_000_000_000_000_000_000
  {
    assert Decimal.Pow10(4) == 10_000;
    assert Decimal.Pow10(8) == 100_000_000;
    assert Decimal.Pow10(12) == 1_000_000_000_000;
    assert Decimal.Pow10(16) == 10_000_000_000_000_000;
  }

  lemma {:induction false} ManyDigits(n: nat, k: nat)
    requires n >= Decimal.Pow10(k)
    ensures |Decimal.Itoa(n)| > k
  {
    if k > 0 {
      ManyDigits(n / 10, k - 1);
    }
  }

  /** A reason is safe if and only if every record that can be made of it is read back. */
  lemma SafeExactly(reason: Text)
    requires ValidReason(reason)
    ensures SafeReason(reason) <==>
            forall target: nat, source: nat | source < target <= LAST_GENERATION ::
              Loadable(Record(target, source, reason, 1))
  {
    hide ValidReason, Encoded, Escaped, Decimal.Itoa;
    ValidIsText(reason);
    forall target: nat, source: nat | source < target <= LAST_GENERATION && SafeReason(reason)
      ensures Loadable(Record(target, source, reason, 1))
    {
      TwentyDigits(target);
      TwentyDigits(source);
      EncodedSize(Record(target, source, reason, 1));
    }
    var r := Record(LAST_GENERATION, LAST_GENERATION - 1, reason, 1);
    Powers();
    ManyDigits(LAST_GENERATION, 19);
    ManyDigits(LAST_GENERATION - 1, 19);
    EncodedSize(r);
    assert !SafeReason(reason) ==> !Loadable(r);
  }

  lemma {:induction false} EscapeGrows(cs: seq<Utf8.Scalar>)
    ensures |Utf8.Encode(cs)| <= |EscapeAll(cs)| <= 6 * |Utf8.Encode(cs)|
    ensures (forall i :: 0 <= i < |cs| ==> Plain(cs[i])) ==> EscapeAll(cs) == Utf8.Encode(cs)
  {
    if cs != [] {
      EscapeGrows(cs[1..]);
      PlainFirst(cs[0]);
      WiderThanPlain(cs[0]);
      hide Escape, Utf8.EncodeScalar, Plain;
      assert (forall i :: 0 <= i < |cs| ==> Plain(cs[i])) ==> forall i :: 0 <= i < |cs[1..]| ==> Plain(cs[1..][i]);
    }
  }

  lemma WiderThanPlain(c: Utf8.Scalar)
    ensures |Utf8.EncodeScalar(c)| <= |Escape(c)| <= 6 * |Utf8.EncodeScalar(c)|
  {
  }

  /** Every reason without a quote, backslash, control character or line separator is safe, and so is every short one. */
  lemma OrdinaryIsSafe(reason: Text)
    requires ValidReason(reason)
    requires (forall i :: 0 <= i < |Utf8.Decode(reason)| ==> Plain(Utf8.Decode(reason)[i])) || |reason| <= 1513
    ensures SafeReason(reason)
  {
    Utf8.EncodeDecode(reason);
    EscapeGrows(Utf8.Decode(reason));
    hide Plain, EscapeAll, Utf8.Decode, Utf8.Encode, Utf8.Valid;
  }

  // ---------------------------------------------------------------- a reason that is not

  function Quotes(n: nat): (reason: Text)
    ensures |reason| == n
  {
    if n == 0 then [] else [QUOTE] + Quotes(n - 1)
  }

  lemma {:induction false} QuotesDouble(n: nat)
    ensures Utf8.Valid(Quotes(n)) && |Escaped(Quotes(n))| == 2 * n && |Utf8.Decode(Quotes(n))| == n
    ensures n > 0 ==> Utf8.Decode(Quotes(n))[0] == 0x22
  {
    if n > 0 {
      QuotesDouble(n - 1);
      var s := Quotes(n);
      assert s[1..1] == [];
      assert Utf8.DecodeScalar(s) == Some(0x22) && Utf8.Width(s) == 1;
      assert s[1..] == Quotes(n - 1);
      var cs := Utf8.Decode(s);
      assert cs[0] == 0x22 && cs[1..] == Utf8.Decode(Quotes(n - 1));
      assert EscapeAll(cs) == Escape(cs[0]) + EscapeAll(cs[1..]);
    }
  }

  /** That many quotes, five thousand for one, are an acceptable reason of which no record is ever read back. */
  lemma QuotesNeverLoad(n: nat, target: nat, source: nat)
    requires 4559 <= n <= MAX_ABORT_REASON_BYTES
    ensures ValidReason(Quotes(n)) && !Loadable(Record(target, source, Quotes(n), 1))
  {
    QuotesDouble(n);
    assert !IsSpace(Utf8.Decode(Quotes(n))[0]);
    hide Encoded, Escaped, Utf8.Decode, Utf8.Valid;
    EncodedSize(Record(target, source, Quotes(n), 1));
  }
}
