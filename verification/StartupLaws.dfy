/** Startup with services: early host calls are served and the noise between them kept, whatever the chunks. */
module StartupLaws {
  import opened Bytes
  import opened Framing
  import opened Reception
  import S = Startup

  /** What a guest sends before it is ready: noise, byte by byte, and host requests. */
  datatype Piece = Noise(byte: Byte) | Early(frame: Frame)

  function Text(pieces: seq<Piece>): seq<Byte> {
    if pieces == [] then []
    else (match pieces[0] case Noise(b) => [b] case Early(f) => Wire(f)) + Text(pieces[1..])
  }

  function NoiseOf(pieces: seq<Piece>): seq<Byte> {
    if pieces == [] then [] else (if pieces[0].Noise? then [pieces[0].byte] else []) + NoiseOf(pieces[1..])
  }

  function CallsOf(pieces: seq<Piece>): seq<HostCall> {
    if pieces == [] then []
    else (if pieces[0].Early? then [HostCall(pieces[0].frame, Reception.Startup)] else []) + CallsOf(pieces[1..])
  }

  /** Read from the left with `tail` behind them, the pieces are what they are meant to be: no noise begins a marker or a
      frame, and every frame is a host request with an ID that the host serves. */
  ghost predicate Plain(pieces: seq<Piece>, tail: seq<Byte>, earlier: seq<HostCall>, host: Host)
    decreases |pieces|
  {
    pieces == [] ||
    match pieces[0]
    case Noise(b) =>
      !(READY <= Text(pieces) + tail) && !(MAGIC <= Text(pieces) + tail) && Plain(pieces[1..], tail, earlier, host)
    case Early(f) =>
      var call := HostCall(f, Reception.Startup);
      Sendable(f) && f.messageType == HOST_SERVICE_REQUEST && f.requestID != 0 && host(earlier, call) == None &&
      Plain(pieces[1..], tail, earlier + [call], host)
  }

  /** As much of the bytes as the diagnostic holds. */
  function Clip(bytes: seq<Byte>): seq<Byte> {
    bytes[..Min(|bytes|, 4096)]
  }

  lemma OneByte(s: S.Inbound, host: Host)
    requires !S.Failed(s) && !s.ready && s.services && |s.buffer| > |READY| && |s.diagnostic| <= 4096
    requires !(READY <= s.buffer) && !(MAGIC <= s.buffer)
    ensures S.Scan(s, host) == S.Scan(s.(buffer := s.buffer[1..], diagnostic := Clip(s.diagnostic + [s.buffer[0]])), host)
  {
    hide Consume, ExtractFrame;
    var d := s.diagnostic + [s.buffer[0]];
    if |s.diagnostic| < 4096 {
      assert Clip(d) == d;
    } else {
      assert Clip(d) == s.diagnostic;
    }
    assert S.Drop(s) == s.(buffer := s.buffer[1..], diagnostic := Clip(d));
  }

  lemma OneCall(s: S.Inbound, f: Frame, rest: seq<Byte>, host: Host)
    requires !S.Failed(s) && !s.ready && s.services && s.buffer == Wire(f) + rest
    requires Sendable(f) && f.messageType == HOST_SERVICE_REQUEST && f.requestID != 0
    requires host(s.receiver.dispatched, HostCall(f, Reception.Startup)) == None
    ensures S.Scan(s, host) ==
            S.Scan(s.(buffer := rest,
                    receiver := s.receiver.(dispatched := s.receiver.dispatched + [HostCall(f, Reception.Startup)])), host)
  {
    hide Consume;
    ExtractWire(f, rest);
    assert s.buffer[..4] == MAGIC by { WireHeader(f, rest); }
    assert s.buffer[0] == MAGIC[0] && s.buffer[1] == MAGIC[1];
    assert !(READY <= s.buffer) by { assert READY[1] != MAGIC[1]; }
    assert MAGIC <= s.buffer;
    var next := S.TakeEarly(s, f, rest, host);
    assert next.receiver.failure == None;
  }

  lemma Clipped(d: seq<Byte>, b: Byte, rest: seq<Byte>)
    requires |d| <= 4096
    ensures Clip(Clip(d + [b]) + rest) == Clip(d + ([b] + rest)) && |Clip(d + [b])| <= 4096
  {
    assert d + ([b] + rest) == d + [b] + rest;
  }

  /** The whole of startup at once. */
  lemma {:induction false} ScanServes(s: S.Inbound, pieces: seq<Piece>, rest: seq<Byte>, host: Host)
    requires !S.Failed(s) && !s.ready && s.services && |s.diagnostic| <= 4096 && s.buffer == Text(pieces) + (READY + rest)
    requires Plain(pieces, READY + rest, s.receiver.dispatched, host)
    ensures S.Scan(s, host) ==
            s.(ready := true, buffer := [], diagnostic := Clip(s.diagnostic + NoiseOf(pieces)),
               receiver := Consume(s.receiver.(buffer := s.receiver.buffer + rest,
                                               dispatched := s.receiver.dispatched + CallsOf(pieces)), host))
    decreases |pieces|
  {
    hide Consume, Wire, S.Scan, Clip;
    var tail := READY + rest;
    if pieces == [] {
      LastPiece(s, rest, host);
    } else {
      var more := Text(pieces[1..]) + tail;
      match pieces[0] {
        case Noise(b) =>
          assert s.buffer == [b] + more && s.buffer[1..] == more;
          OneByte(s, host);
          Clipped(s.diagnostic, b, NoiseOf(pieces[1..]));
          assert CallsOf(pieces) == CallsOf(pieces[1..]);
          ScanServes(s.(buffer := more, diagnostic := Clip(s.diagnostic + [b])), pieces[1..], rest, host);
        case Early(f) =>
          assert s.buffer == Wire(f) + more;
          OneCall(s, f, more, host);
          var call := HostCall(f, Reception.Startup);
          var d := s.receiver.dispatched;
          assert NoiseOf(pieces) == NoiseOf(pieces[1..]);
          assert d + [call] + CallsOf(pieces[1..]) == d + CallsOf(pieces);
          ScanServes(s.(buffer := more, receiver := s.receiver.(dispatched := d + [call])), pieces[1..], rest, host);
      }
    }
  }

  lemma LastPiece(s: S.Inbound, rest: seq<Byte>, host: Host)
    requires !S.Failed(s) && !s.ready && |s.diagnostic| <= 4096 && s.buffer == [] + (READY + rest)
    ensures S.Scan(s, host) ==
            s.(ready := true, buffer := [], diagnostic := Clip(s.diagnostic + []),
               receiver := Consume(s.receiver.(buffer := s.receiver.buffer + rest,
                                               dispatched := s.receiver.dispatched + []), host))
  {
    hide Consume;
    assert s.buffer == READY + rest && s.buffer[|READY|..] == rest;
    assert s.diagnostic + [] == s.diagnostic && s.receiver.dispatched + [] == s.receiver.dispatched;
  }

  /** Under any chunking: a new dispatcher with startup services serves every early host call, in order and with the scope
      of startup, keeps the first 4096 bytes of the noise between them as its diagnostic, becomes ready at the marker, and
      hands every byte after it to the frame receiver. */
  lemma EarlyCallsServed(s: S.Inbound, pieces: seq<Piece>, rest: seq<Byte>, first: seq<Byte>, chunks: seq<seq<Byte>>, host: Host)
    requires !S.Failed(s) && !s.ready && s.services && s.buffer == [] && s.diagnostic == [] && s.receiver.dispatched == []
    requires first + Concat(chunks) == Text(pieces) + (READY + rest) && Plain(pieces, READY + rest, [], host)
    ensures var end := S.FeedAll(S.Feed(s, first, host), chunks, host);
            end.ready && end.diagnostic == Clip(NoiseOf(pieces)) &&
            Reception.Same(end.receiver,
                           Consume(s.receiver.(buffer := s.receiver.buffer + rest, dispatched := CallsOf(pieces)), host),
                           S.AllUnread(s, S.Feed(s, first, host), chunks, host))
  {
    hide Consume, S.Scan, Text, NoiseOf, CallsOf, Plain, Clip;
    S.AnyChunking(s, first, chunks, host);
    var stream := first + Concat(chunks);
    assert s.buffer + stream == stream;
    ScanServes(s.(buffer := stream), pieces, rest, host);
    assert [] + NoiseOf(pieces) == NoiseOf(pieces) && [] + CallsOf(pieces) == CallsOf(pieces);
  }
}
