/** The payload of tool invocations and host-service requests: a name and a list of byte arguments.
    The host encodes tool invocations that the guest parses, and decodes host-service requests that the
    guest writes; both directions share one grammar. */
module Calls {
  import opened Bytes
  import Utf8
  import Framing

  const MAX_NAME := 255
  const MAX_TOOL_ARGUMENTS := 3
  const MAX_HOST_ARGUMENTS := 64
  /** The guest's REQUEST_BUFFER_SIZE and the host's V1GuestInvocationPayloadCapacity. */
  const REQUEST_BUFFER_SIZE := 16 * 1024 + 256 + 27

  datatype Call = Call(name: seq<Byte>, arguments: seq<seq<Byte>>)

  function ArgumentsWire(arguments: seq<seq<Byte>>): (b: seq<Byte>) {
    if arguments == [] then []
    else U32LE(|arguments[0]|) + arguments[0] + ArgumentsWire(arguments[1..])
  }

  function Wire(c: Call): (b: seq<Byte>)
    ensures |b| >= 4
  {
    U16LE(|c.name|) + c.name + U16LE(|c.arguments|) + ArgumentsWire(c.arguments)
  }

  predicate ValidName(name: seq<Byte>) {
    1 <= |name| <= MAX_NAME && Utf8.Valid(name)
  }

  /** Calls that have a wire form with at most `limit` arguments. */
  predicate WellFormed(c: Call, limit: nat) {
    ValidName(c.name) && |c.arguments| <= limit &&
    forall i :: 0 <= i < |c.arguments| ==> |c.arguments[i]| < 0x1_0000_0000
  }

  /** One length-prefixed argument and what follows it. */
  function TakeArgument(s: seq<Byte>): (r: Option<(seq<Byte>, seq<Byte>)>)
    ensures r.Some? ==> |r.value.1| < |s|
  {
    if |s| < 4 || ReadU32(s) > |s| - 4 then None
    else Some((s[4..4 + ReadU32(s)], s[4 + ReadU32(s)..]))
  }

  /** Exactly `count` length-prefixed arguments filling all of `s`. */
  function ParseArguments(count: nat, s: seq<Byte>): (r: Option<seq<seq<Byte>>>)
    decreases count
  {
    if count == 0 then (if s == [] then Some([]) else None)
    else match TakeArgument(s)
      case None => None
      case Some((argument, rest)) => Prepend([argument], ParseArguments(count - 1, rest))
  }

  function Prepend(done: seq<seq<Byte>>, r: Option<seq<seq<Byte>>>): (all: Option<seq<seq<Byte>>>)
    ensures done == [] ==> all == r
  {
    match r
    case None => None
    case Some(rest) => assert done == [] ==> done + rest == rest; Some(done + rest)
  }

  lemma PrependPrepend(a: seq<seq<Byte>>, b: seq<seq<Byte>>, r: Option<seq<seq<Byte>>>)
    ensures Prepend(a, Prepend(b, r)) == Prepend(a + b, r)
  {
    if r.Some? {
      assert a + (b + r.value) == a + b + r.value;
    }
  }

  /** A length-prefixed, non-empty, bounded UTF-8 name and what follows it. */
  function ParseName(payload: seq<Byte>): (r: Option<(seq<Byte>, seq<Byte>)>) {
    if |payload| < 2 then None
    else
      var end := 2 + ReadU16(payload);
      if end > |payload| || !ValidName(payload[2..end]) then None
      else Some((payload[2..end], payload[end..]))
  }

  function ParseCounted(limit: nat, s: seq<Byte>): (r: Option<seq<seq<Byte>>>) {
    if |s| < 2 || ReadU16(s) > limit then None else ParseArguments(ReadU16(s), s[2..])
  }

  function Parse(limit: nat, payload: seq<Byte>): (r: Option<Call>) {
    match ParseName(payload)
    case None => None
    case Some((name, s)) =>
      match ParseCounted(limit, s)
      case None => None
      case Some(arguments) => Some(Call(name, arguments))
  }

  lemma TakeArgumentWire(argument: seq<Byte>, rest: seq<Byte>)
    requires |argument| < 0x1_0000_0000
    ensures TakeArgument(U32LE(|argument|) + argument + rest) == Some((argument, rest))
  {
    var s := U32LE(|argument|) + argument + rest;
    assert s == U32LE(|argument|) + (argument + rest);
    U32RoundTrip(|argument|, argument + rest);
    assert s[4..4 + |argument|] == argument && s[4 + |argument|..] == rest;
  }

  lemma TakenArgumentWire(s: seq<Byte>)
    requires TakeArgument(s).Some?
    ensures var (argument, rest) := TakeArgument(s).value;
            |argument| < 0x1_0000_0000 && U32LE(|argument|) + argument + rest == s
  {
    U32Reread(s);
    var end := 4 + ReadU32(s);
    assert s == s[..4] + s[4..end] + s[end..];
  }

  lemma {:induction false} ParseArgumentsWire(arguments: seq<seq<Byte>>)
    requires forall i :: 0 <= i < |arguments| ==> |arguments[i]| < 0x1_0000_0000
    ensures ParseArguments(|arguments|, ArgumentsWire(arguments)) == Some(arguments)
  {
    if arguments != [] {
      TakeArgumentWire(arguments[0], ArgumentsWire(arguments[1..]));
      ParseArgumentsWire(arguments[1..]);
      assert arguments == [arguments[0]] + arguments[1..];
    }
  }

  lemma {:induction false} ParsedArgumentsWire(count: nat, s: seq<Byte>)
    requires ParseArguments(count, s).Some?
    ensures var arguments := ParseArguments(count, s).value;
            |arguments| == count && ArgumentsWire(arguments) == s &&
            forall i :: 0 <= i < count ==> |arguments[i]| < 0x1_0000_0000
    decreases count
  {
    if count > 0 {
      TakenArgumentWire(s);
      var (argument, rest) := TakeArgument(s).value;
      ParsedArgumentsWire(count - 1, rest);
      assert ParseArguments(count, s).value[1..] == ParseArguments(count - 1, rest).value;
    }
  }

  lemma ParseNameWire(name: seq<Byte>, rest: seq<Byte>)
    requires ValidName(name)
    ensures ParseName(U16LE(|name|) + name + rest) == Some((name, rest))
  {
    var payload := U16LE(|name|) + name + rest;
    assert payload == U16LE(|name|) + (name + rest);
    U16RoundTrip(|name|, name + rest);
    assert payload[2..2 + |name|] == name && payload[2 + |name|..] == rest;
  }

  lemma ParsedNameWire(payload: seq<Byte>)
    requires ParseName(payload).Some?
    ensures var (name, rest) := ParseName(payload).value; U16LE(|name|) + name + rest == payload
  {
    U16Reread(payload);
    var end := 2 + ReadU16(payload);
    assert payload == payload[..2] + payload[2..end] + payload[end..];
  }

  /** Parsing inverts encoding. */
  lemma ParseWire(limit: nat, c: Call)
    requires WellFormed(c, limit) && limit < 0x1_0000
    ensures Parse(limit, Wire(c)) == Some(c)
  {
    var tail := U16LE(|c.arguments|) + ArgumentsWire(c.arguments);
    assert Wire(c) == U16LE(|c.name|) + c.name + tail;
    ParseNameWire(c.name, tail);
    U16RoundTrip(|c.arguments|, ArgumentsWire(c.arguments));
    assert tail[2..] == ArgumentsWire(c.arguments);
    ParseArgumentsWire(c.arguments);
  }

  /** Whatever parses is the encoding of a well-formed call, and of no other. */
  lemma ParsedIsWire(limit: nat, payload: seq<Byte>)
    requires Parse(limit, payload).Some?
    ensures WellFormed(Parse(limit, payload).value, limit) && Wire(Parse(limit, payload).value) == payload
  {
    ParsedNameWire(payload);
    var (_, s) := ParseName(payload).value;
    U16Reread(s);
    ParsedArgumentsWire(ReadU16(s), s[2..]);
    assert s == s[..2] + s[2..];
  }

  /** The accepted payloads are exactly the image of the encoder. */
  lemma ParseAcceptsImage(limit: nat, payload: seq<Byte>, c: Call)
    requires limit < 0x1_0000
    ensures Parse(limit, payload) == Some(c) <==> WellFormed(c, limit) && payload == Wire(c)
  {
    if Parse(limit, payload) == Some(c) {
      ParsedIsWire(limit, payload);
    }
    if WellFormed(c, limit) && payload == Wire(c) {
      ParseWire(limit, c);
    }
  }

  // ---------------------------------------------------------------- guest side

  /** The guest's `parse_invocation`: a cursor over the payload, at most three arguments. */
  method ParseInvocation(payload: seq<Byte>) returns (r: Option<Call>)
    ensures r == Parse(MAX_TOOL_ARGUMENTS, payload)
  {
    if |payload| < 2 {
      return None;
    }
    var nameLength := ReadU16(payload);
    var offset := 2;
    if nameLength == 0 || nameLength > MAX_NAME || nameLength > |payload| - offset {
      return None;
    }
    var name := payload[offset..offset + nameLength];
    var utf8 := Utf8.Scan(name);
    if !utf8 {
      return None;
    }
    offset := offset + nameLength;
    assert ParseName(payload) == Some((name, payload[offset..]));
    var arguments := ParseInvocationArguments(payload, offset);
    match arguments
    case None => return None;
    case Some(values) => return Some(Call(name, values));
  }

  /** The argument part of `parse_invocation`, from the argument count on. */
  method ParseInvocationArguments(payload: seq<Byte>, start: nat) returns (r: Option<seq<seq<Byte>>>)
    requires start <= |payload|
    ensures r == ParseCounted(MAX_TOOL_ARGUMENTS, payload[start..])
  {
    if |payload| - start < 2 {
      return None;
    }
    var count := ReadU16(payload[start..]);
    if count > MAX_TOOL_ARGUMENTS {
      return None;
    }
    assert payload[start..][2..] == payload[start + 2..];
    r := ParseArgumentsAt(payload, start + 2, count);
  }

  /** The argument loop of `parse_invocation` with its trailing-data check. */
  method ParseArgumentsAt(payload: seq<Byte>, start: nat, count: nat) returns (r: Option<seq<seq<Byte>>>)
    requires start <= |payload|
    ensures r == ParseArguments(count, payload[start..])
  {
    var offset: nat := start;
    var arguments: seq<seq<Byte>> := [];
    var index := 0;
    while index < count
      invariant index <= count && offset <= |payload|
      invariant ParseArguments(count, payload[start..])
             == Prepend(arguments, ParseArguments(count - index, payload[offset..]))
    {
      var argument := TakeArgumentAt(payload, offset);
      if argument.None? {
        return None;
      }
      offset := offset + 4 + |argument.value|;
      PrependPrepend(arguments, [argument.value], ParseArguments(count - index - 1, payload[offset..]));
      arguments := arguments + [argument.value];
      index := index + 1;
    }
    if offset != |payload| {
      return None;
    }
    assert arguments + [] == arguments;
    return Some(arguments);
  }

  /** One round of the loop of `parse_invocation`. */
  method TakeArgumentAt(payload: seq<Byte>, offset: nat) returns (r: Option<seq<Byte>>)
    requires offset <= |payload|
    ensures match TakeArgument(payload[offset..])
            case None => r == None
            case Some((argument, rest)) =>
              r == Some(argument) && offset + 4 + |argument| <= |payload| && rest == payload[offset + 4 + |argument|..]
  {
    if |payload| - offset < 4 {
      return None;
    }
    var length := ReadU32(payload[offset..]);
    if length > |payload| - offset - 4 {
      return None;
    }
    var end := offset + 4 + length;
    assert payload[offset..][4..4 + length] == payload[offset + 4..end] && payload[offset..][4 + length..] == payload[end..];
    return Some(payload[offset + 4..end]);
  }

  // ---------------------------------------------------------------- host side

  /** Copies `data` into the buffer at `offset`, behind what is there already. */
  method Store(buffer: array<Byte>, offset: nat, data: seq<Byte>)
    requires offset + |data| <= buffer.Length
    modifies buffer
    ensures buffer[..offset + |data|] == old(buffer[..offset]) + data
  {
    var i := 0;
    while i < |data|
      invariant i <= |data|
      invariant buffer[..offset + i] == old(buffer[..offset]) + data[..i]
    {
      ghost var before := buffer[..offset + i];
      buffer[offset + i] := data[i];
      assert buffer[..offset + i + 1] == before + [data[i]];
      i := i + 1;
    }
  }

  predicate Encodable(name: seq<Byte>, arguments: seq<seq<Byte>>) {
    ValidName(name) && |arguments| <= MAX_HOST_ARGUMENTS
  }

  /** `InvokeRequestPayloadSize`: the encoded size without building the payload. */
  method InvokeRequestPayloadSize(name: seq<Byte>, arguments: seq<seq<Byte>>) returns (r: Option<nat>)
    ensures r == if Encodable(name, arguments) then Some(|Wire(Call(name, arguments))|) else None
  {
    if !Utf8.Valid(name) || |name| == 0 || |name| > MAX_NAME || |arguments| > MAX_HOST_ARGUMENTS {
      return None;
    }
    var size := 2 + |name| + 2;
    var i := 0;
    while i < |arguments|
      invariant i <= |arguments|
      invariant size + |ArgumentsWire(arguments[i..])| == |Wire(Call(name, arguments))|
    {
      size := size + 4 + |arguments[i]|;
      assert arguments[i..][1..] == arguments[i + 1..];
      i := i + 1;
    }
    return Some(size);
  }

  /** `EncodeInvokeRequest`: the buffer is allocated at the computed size and filled left to right. */
  method EncodeInvokeRequest(name: seq<Byte>, arguments: seq<seq<Byte>>) returns (r: Option<seq<Byte>>)
    ensures r.Some? <==> Encodable(name, arguments) && |Wire(Call(name, arguments))| <= Framing.MAX_PAYLOAD
    ensures r.Some? ==> r.value == Wire(Call(name, arguments))
  {
    hide U16LE, ArgumentsWire, ValidName;
    var size := InvokeRequestPayloadSize(name, arguments);
    if size.None? || size.value > Framing.MAX_PAYLOAD {
      return None;
    }
    var payload := new Byte[size.value];
    Store(payload, 0, U16LE(|name|));
    assert payload[..2] == U16LE(|name|);
    Store(payload, 2, name);
    var offset := 2 + |name|;
    Store(payload, offset, U16LE(|arguments|));
    offset := offset + 2;
    assert payload[..offset] == U16LE(|name|) + name + U16LE(|arguments|);
    StoreArguments(payload, offset, arguments);
    return Some(payload[..]);
  }

  /** The argument loop of `EncodeInvokeRequest`. */
  method StoreArguments(payload: array<Byte>, start: nat, arguments: seq<seq<Byte>>)
    requires start + |ArgumentsWire(arguments)| == payload.Length
    modifies payload
    ensures payload[..] == old(payload[..start]) + ArgumentsWire(arguments)
  {
    ghost var wire := payload[..start] + ArgumentsWire(arguments);
    var offset: nat := start;
    var i := 0;
    assert arguments[0..] == arguments;
    while i < |arguments|
      invariant i <= |arguments| && offset <= payload.Length == |wire|
      invariant wire == payload[..offset] + ArgumentsWire(arguments[i..])
    {
      ghost var done := payload[..offset];
      var argument := arguments[i];
      assert arguments[i..][1..] == arguments[i + 1..];
      ghost var rest := ArgumentsWire(arguments[i + 1..]);
      assert wire == done + U32LE(|argument|) + argument + rest;
      Store(payload, offset, U32LE(|argument|));
      Store(payload, offset + 4, argument);
      offset := offset + 4 + |argument|;
      i := i + 1;
    }
    assert payload[..] == payload[..offset];
  }

  /** `protocolDecoder`: a cursor that refuses to run past the end of its data. */
  class Decoder {
    const data: seq<Byte>
    var offset: nat

    ghost predicate Valid()
      reads this
    {
      offset <= |data|
    }

    ghost function Rest(): seq<Byte>
      reads this
      requires Valid()
    {
      data[offset..]
    }

    constructor (data: seq<Byte>)
      ensures Valid() && Rest() == data && this.data == data
    {
      this.data := data;
      this.offset := 0;
    }

    method Bytes(length: nat) returns (r: Option<seq<Byte>>)
      requires Valid()
      modifies this
      ensures Valid()
      ensures r.Some? <==> length <= |old(Rest())|
      ensures r.Some? ==> |r.value| == length && old(Rest()) == r.value + Rest()
      ensures r.None? ==> Rest() == old(Rest())
    {
      if length > |data| - offset {
        return None;
      }
      var end := offset + length;
      r := Some(data[offset..end]);
      offset := end;
    }
  }

  datatype HostRequest = HostRequest(requestID: U32, call: Call)

  /** `DecodeHostServiceRequest`. */
  method DecodeHostServiceRequest(frame: Framing.Frame) returns (r: Option<HostRequest>)
    ensures r.Some? <==> frame.messageType == Framing.HOST_SERVICE_REQUEST && frame.requestID != 0 &&
                         Framing.Sendable(frame) && Parse(MAX_HOST_ARGUMENTS, frame.payload).Some?
    ensures r.Some? ==> r.value == HostRequest(frame.requestID, Parse(MAX_HOST_ARGUMENTS, frame.payload).value)
  {
    if frame.messageType != Framing.HOST_SERVICE_REQUEST || frame.requestID == 0 || !Framing.Sendable(frame) {
      return None;
    }
    var decoder := new Decoder(frame.payload);
    var name := DecodeName(decoder);
    if name.None? {
      return None;
    }
    var arguments := DecodeCounted(decoder);
    if arguments.None? {
      return None;
    }
    return Some(HostRequest(frame.requestID, Call(name.value, arguments.value)));
  }

  /** The service-name part of `DecodeHostServiceRequest`. */
  method DecodeName(decoder: Decoder) returns (r: Option<seq<Byte>>)
    requires decoder.Valid()
    modifies decoder
    ensures decoder.Valid()
    ensures match ParseName(old(decoder.Rest()))
            case None => r == None
            case Some((name, rest)) => r == Some(name) && decoder.Rest() == rest
  {
    ghost var all := decoder.Rest();
    var lengthBytes := decoder.Bytes(2);
    if lengthBytes.None? {
      return None;
    }
    var nameLength := ReadU16(lengthBytes.value);
    assert nameLength == ReadU16(all) && decoder.Rest() == all[2..];
    if nameLength == 0 || nameLength > MAX_NAME {
      return None;
    }
    r := decoder.Bytes(nameLength);
    if r.None? {
      return None;
    }
    assert r.value == all[2..2 + nameLength] && decoder.Rest() == all[2 + nameLength..];
    if !Utf8.Valid(r.value) {
      return None;
    }
  }

  /** The argument part of `DecodeHostServiceRequest`, from the argument count on. */
  method DecodeCounted(decoder: Decoder) returns (r: Option<seq<seq<Byte>>>)
    requires decoder.Valid()
    modifies decoder
    ensures r == ParseCounted(MAX_HOST_ARGUMENTS, old(decoder.Rest()))
  {
    ghost var s := decoder.Rest();
    var countBytes := decoder.Bytes(2);
    if countBytes.None? {
      return None;
    }
    var count := ReadU16(countBytes.value);
    assert count == ReadU16(s) && decoder.Rest() == s[2..];
    if count > MAX_HOST_ARGUMENTS {
      return None;
    }
    r := DecodeArguments(decoder, count);
  }

  /** The argument loop of `DecodeHostServiceRequest` with its trailing-data check. */
  method DecodeArguments(decoder: Decoder, count: nat) returns (r: Option<seq<seq<Byte>>>)
    requires decoder.Valid()
    modifies decoder
    ensures r == ParseArguments(count, old(decoder.Rest()))
  {
    ghost var goal := ParseArguments(count, decoder.Rest());
    var arguments: seq<seq<Byte>> := [];
    var i := 0;
    while i < count
      invariant i <= count && decoder.Valid()
      invariant goal == Prepend(arguments, ParseArguments(count - i, decoder.Rest()))
    {
      var argument := DecodeArgument(decoder);
      if argument.None? {
        return None;
      }
      PrependPrepend(arguments, [argument.value], ParseArguments(count - i - 1, decoder.Rest()));
      arguments := arguments + [argument.value];
      i := i + 1;
    }
    if decoder.offset != |decoder.data| {
      return None;
    }
    assert decoder.Rest() == [] && arguments + [] == arguments;
    return Some(arguments);
  }

  method DecodeArgument(decoder: Decoder) returns (r: Option<seq<Byte>>)
    requires decoder.Valid()
    modifies decoder
    ensures decoder.Valid()
    ensures match TakeArgument(old(decoder.Rest()))
            case None => r == None
            case Some((argument, rest)) => r == Some(argument) && decoder.Rest() == rest
  {
    ghost var here := decoder.Rest();
    var lengthBytes := decoder.Bytes(4);
    if lengthBytes.None? {
      return None;
    }
    var length := ReadU32(lengthBytes.value);
    assert length == ReadU32(here) && decoder.Rest() == here[4..];
    r := decoder.Bytes(length);
    if r.Some? {
      assert r.value == here[4..4 + length] && decoder.Rest() == here[4 + length..];
    }
  }
}
