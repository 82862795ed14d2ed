/** Version 1 frames of the CXOS serial protocol, as the host encodes and extracts them. */
module Framing {
  import opened Bytes

  const HEADER_SIZE := 16
  const MAX_PAYLOAD := 16 * 1024 * 1024
  const VERSION := 1
  const MAGIC: seq<Byte> := [0x43, 0x58, 0x4F, 0x53] // "CXOS"

  /** "CODEXOS-SEED-READY" and a line feed: what the guest writes before its first frame. */
  const READY: seq<Byte> := [67, 79, 68, 69, 88, 79, 83, 45, 83, 69, 69, 68, 45, 82, 69, 65, 68, 89, 10]

  const LIST_TOOLS_REQUEST: U16 := 0x0001
  const LIST_TOOLS_RESPONSE: U16 := 0x8001
  const INVOKE_TOOL_REQUEST: U16 := 0x0002
  const INVOKE_TOOL_RESPONSE: U16 := 0x8002
  const HOST_SERVICE_REQUEST: U16 := 0x0003
  const HOST_SERVICE_RESPONSE: U16 := 0x8003

  datatype Frame = Frame(messageType: U16, requestID: U32, payload: seq<Byte>)

  /** The sixteen header bytes for a message announcing `length` payload bytes. */
  function Header(messageType: U16, requestID: U32, length: nat): (h: seq<Byte>)
    ensures |h| == HEADER_SIZE
  {
    MAGIC + U16LE(VERSION) + U16LE(messageType) + U32LE(requestID) + U32LE(length)
  }

  /** The raw fields of sixteen header bytes, before any check. */
  datatype RawHeader = RawHeader(magicOk: bool, version: U16, messageType: U16, requestID: U32, length: U32)

  function ReadHeader(h: seq<Byte>): RawHeader
    requires |h| >= HEADER_SIZE
  {
    RawHeader(h[..4] == MAGIC, ReadU16(h[4..]), ReadU16(h[6..]), ReadU32(h[8..]), ReadU32(h[12..]))
  }

  lemma ReadWrittenHeader(messageType: U16, requestID: U32, length: U32, rest: seq<Byte>)
    ensures ReadHeader(Header(messageType, requestID, length) + rest)
         == RawHeader(true, VERSION, messageType, requestID, length)
  {
    hide U16LE, U32LE, ReadU16, ReadU32;
    var h := Header(messageType, requestID, length) + rest;
    var t4 := U32LE(length) + rest;
    var t3 := U32LE(requestID) + t4;
    var t2 := U16LE(messageType) + t3;
    var t1 := U16LE(VERSION) + t2;
    assert h == MAGIC + t1;
    assert h[4..] == t1 && h[6..] == t2 && h[8..] == t3 && h[12..] == t4;
    U16RoundTrip(VERSION, t2);
    U16RoundTrip(messageType, t3);
    U32RoundTrip(requestID, t4);
    U32RoundTrip(length, rest);
  }

  /** Only the header that was written reads back as those fields. */
  lemma HeaderReread(b: seq<Byte>)
    requires |b| >= HEADER_SIZE && ReadHeader(b).magicOk && ReadHeader(b).version == VERSION
    ensures var h := ReadHeader(b); b[..HEADER_SIZE] == Header(h.messageType, h.requestID, h.length)
  {
    U16Reread(b[4..]);
    U16Reread(b[6..]);
    U32Reread(b[8..]);
    U32Reread(b[12..]);
    var h := ReadHeader(b);
    assert U16LE(h.version) == b[4..6] && U16LE(h.messageType) == b[6..8];
    assert U32LE(h.requestID) == b[8..12] && U32LE(h.length) == b[12..16];
  }

  /** The wire form of a frame, whatever its payload length; `EncodeFrame` refuses the oversized ones. */
  function Wire(f: Frame): (b: seq<Byte>)
    ensures |b| == HEADER_SIZE + |f.payload|
  {
    Header(f.messageType, f.requestID, |f.payload|) + f.payload
  }

  predicate Sendable(f: Frame) {
    |f.payload| <= MAX_PAYLOAD
  }

  /** Frames one after the other. */
  function WireAll(fs: seq<Frame>): seq<Byte> {
    if fs == [] then [] else Wire(fs[0]) + WireAll(fs[1..])
  }

  ghost predicate AllSendable(fs: seq<Frame>) {
    forall i :: 0 <= i < |fs| ==> Sendable(fs[i])
  }

  function EncodeFrame(f: Frame): (r: Option<seq<Byte>>) {
    if Sendable(f) then Some(Wire(f)) else None
  }

  datatype HeaderError = BadMagic | BadVersion | TooLong

  function DecodeHeader(h: seq<Byte>): (r: Option<HeaderError>)
    requires |h| >= HEADER_SIZE
  {
    var raw := ReadHeader(h);
    if !raw.magicOk then Some(BadMagic)
    else if raw.version != VERSION then Some(BadVersion)
    else if raw.length > MAX_PAYLOAD then Some(TooLong)
    else None
  }

  datatype Extraction = Malformed(error: HeaderError) | Incomplete | Complete(frame: Frame, rest: seq<Byte>)

  predicate MagicPrefix(data: seq<Byte>) {
    data[..Min(|data|, |MAGIC|)] <= MAGIC
  }

  /** `ExtractFrame` on the bytes buffered so far; the caller keeps `rest`. */
  function ExtractFrame(data: seq<Byte>): (r: Extraction)
    ensures r.Complete? ==> |r.rest| < |data|
  {
    if !MagicPrefix(data) then Malformed(BadMagic)
    else if |data| < HEADER_SIZE then Incomplete
    else match DecodeHeader(data)
      case Some(error) => Malformed(error)
      case None =>
        var raw := ReadHeader(data);
        var end := HEADER_SIZE + raw.length;
        if |data| < end then Incomplete
        else Complete(Frame(raw.messageType, raw.requestID, data[HEADER_SIZE..end]), data[end..])
  }

  /** The fields that `Wire` writes, as the receiving side reads them. */
  lemma WireHeader(f: Frame, rest: seq<Byte>)
    requires Sendable(f)
    ensures ReadHeader(Wire(f) + rest) == RawHeader(true, VERSION, f.messageType, f.requestID, |f.payload|)
    ensures DecodeHeader(Wire(f) + rest) == None
    ensures MagicPrefix(Wire(f) + rest)
  {
    assert Wire(f) + rest == Header(f.messageType, f.requestID, |f.payload|) + (f.payload + rest);
    ReadWrittenHeader(f.messageType, f.requestID, |f.payload|, f.payload + rest);
  }

  lemma ExtractWire(f: Frame, rest: seq<Byte>)
    requires Sendable(f)
    ensures ExtractFrame(Wire(f) + rest) == Complete(f, rest)
  {
    WireHeader(f, rest);
    assert (Wire(f) + rest)[HEADER_SIZE..HEADER_SIZE + |f.payload|] == f.payload;
  }

  /** Extraction takes exactly one frame's wire form off the front. */
  lemma ExtractedIsWire(data: seq<Byte>)
    requires ExtractFrame(data).Complete?
    ensures var r := ExtractFrame(data); Sendable(r.frame) && data == Wire(r.frame) + r.rest
  {
    HeaderReread(data);
    var r := ExtractFrame(data);
    assert data == data[..HEADER_SIZE] + data[HEADER_SIZE..HEADER_SIZE + |r.frame.payload|] + r.rest;
  }

  /** More bytes never change a verdict: a complete frame stays that frame, an error stays that error. */
  lemma ExtractExtended(data: seq<Byte>, more: seq<Byte>)
    requires !ExtractFrame(data).Incomplete?
    ensures match ExtractFrame(data)
            case Malformed(error) => ExtractFrame(data + more) == Malformed(error)
            case Complete(frame, rest) => ExtractFrame(data + more) == Complete(frame, rest + more)
            case Incomplete => true
  {
    if ExtractFrame(data).Complete? {
      ExtractedIsWire(data);
      var r := ExtractFrame(data);
      assert data + more == Wire(r.frame) + (r.rest + more);
      ExtractWire(r.frame, r.rest + more);
    } else if MagicPrefix(data) {
      SameHeader(data, more);
    } else {
      BadMagicExtended(data, more);
    }
  }

  lemma BadMagicExtended(data: seq<Byte>, more: seq<Byte>)
    requires !MagicPrefix(data)
    ensures !MagicPrefix(data + more)
    ensures |data + more| >= HEADER_SIZE ==> DecodeHeader(data + more) == Some(BadMagic)
  {
    var n := Min(|data|, |MAGIC|);
    var k :| 0 <= k < n && data[k] != MAGIC[k];
    assert (data + more)[k] != MAGIC[k];
    assert (data + more)[..Min(|data + more|, |MAGIC|)][k] != MAGIC[k];
    if |data + more| >= HEADER_SIZE {
      assert (data + more)[..4][k] != MAGIC[k];
    }
  }

  lemma SameHeader(data: seq<Byte>, more: seq<Byte>)
    requires |data| >= HEADER_SIZE
    ensures ReadHeader(data + more) == ReadHeader(data)
    ensures MagicPrefix(data + more) == MagicPrefix(data)
  {
    assert (data + more)[..4] == data[..4];
  }

  /** The frame boundary test in general: `data` can still become a frame. */
  ghost predicate StartsSomeFrame(data: seq<Byte>) {
    exists f: Frame :: Sendable(f) && data <= Wire(f)
  }

  /** The version bytes seen so far are those of version 1. */
  predicate VersionFits(data: seq<Byte>) {
    (|data| > 4 ==> data[4] == VERSION) && (|data| > 5 ==> data[5] == 0)
  }

  /** "Incomplete" is promised to mean that the bytes are a valid frame prefix. The version is only looked
      at once the header is whole, so the promise holds exactly when the version bytes already seen fit. */
  lemma IncompleteMeansPrefix(data: seq<Byte>)
    requires ExtractFrame(data).Incomplete?
    ensures StartsSomeFrame(data) <==> VersionFits(data)
  {
    if StartsSomeFrame(data) {
      FrameVersion(data);
    }
    if VersionFits(data) {
      if |data| < HEADER_SIZE {
        PrefixExtends(data);
      } else {
        HeaderStarts(data);
      }
    }
  }

  lemma FrameVersion(data: seq<Byte>)
    requires StartsSomeFrame(data)
    ensures VersionFits(data)
  {
    hide U32LE;
    var f: Frame :| Sendable(f) && data <= Wire(f);
    assert Wire(f)[4] == U16LE(VERSION)[0] == VERSION && Wire(f)[5] == U16LE(VERSION)[1] == 0;
  }

  /** A whole acceptable header starts the frame whose missing payload is zeros. */
  lemma HeaderStarts(data: seq<Byte>)
    requires |data| >= HEADER_SIZE && DecodeHeader(data).None? && |data| < HEADER_SIZE + ReadHeader(data).length
    ensures StartsSomeFrame(data)
  {
    HeaderReread(data);
    var raw := ReadHeader(data);
    var missing := Zeros(HEADER_SIZE + raw.length - |data|);
    assert raw.length <= MAX_PAYLOAD;
    hide ReadHeader, Header, Zeros;
    var f := Frame(raw.messageType, raw.requestID, data[HEADER_SIZE..] + missing);
    assert data == data[..HEADER_SIZE] + data[HEADER_SIZE..];
    assert Wire(f) == data + missing;
  }

  /** "CXOS" followed by a byte that no version 1 header has there is still reported as incomplete. */
  lemma IncompleteIsNotAlwaysPrefix()
    ensures var data := MAGIC + [2]; ExtractFrame(data).Incomplete? && !StartsSomeFrame(data)
  {
    var data := MAGIC + [2];
    assert data[..4] == MAGIC;
    IncompleteMeansPrefix(data);
  }

  function Zeros(n: nat): (z: seq<Byte>)
    ensures |z| == n
  {
    seq(n, _ => 0)
  }

  lemma PrefixExtends(data: seq<Byte>)
    requires |data| < HEADER_SIZE && MagicPrefix(data) && VersionFits(data)
    ensures StartsSomeFrame(data)
  {
    var template: seq<Byte> := MAGIC + [VERSION, 0] + Zeros(10);
    var full: seq<Byte> := data + template[|data|..];
    forall k | 0 <= k < 4
      ensures full[k] == MAGIC[k]
    {
      if k < |data| {
        assert data[k] == data[..Min(|data|, 4)][k];
      } else {
        assert full[k] == template[k];
      }
    }
    assert |data| <= 4 ==> full[4] == template[4];
    assert |data| <= 5 ==> full[5] == template[5];
    assert full[15] == template[15] == 0;
    FieldsStart(full);
    assert data <= full;
  }

  /** Sixteen bytes with the magic, the version and a small length start a frame. */
  lemma FieldsStart(full: seq<Byte>)
    requires |full| == HEADER_SIZE && (forall k :: 0 <= k < 4 ==> full[k] == MAGIC[k])
    requires full[4] == VERSION && full[5] == 0 && full[15] == 0
    ensures StartsSomeFrame(full)
  {
    assert full[..4] == MAGIC;
    assert ReadU16(full[4..]) == VERSION && ReadU32(full[12..]) < MAX_PAYLOAD;
    HeaderReread(full);
    var raw := ReadHeader(full);
    var length := raw.length;
    hide ReadHeader, Header, Zeros;
    var f := Frame(raw.messageType, raw.requestID, Zeros(length));
    assert full == full[..HEADER_SIZE];
    assert full <= Wire(f);
  }
}
