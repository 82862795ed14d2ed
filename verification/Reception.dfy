/** The receiving half of the host's dispatcher: what it makes of the guest's bytes, however they are cut up. */
module Reception {
  import opened Bytes
  import opened Framing

  /** A host-service request taken off the line, and whether a tool exchange was waiting at the time. */
  datatype Scope = Startup | Background | Exchange
  datatype HostCall = HostCall(frame: Frame, scope: Scope)

  datatype Failure =
    | BadHeader(error: HeaderError)
    | ZeroHostID
    | UnexpectedResponse
    | WrongRequestID
    | WrongResponseType
    | NotHostService
    | HostServiceFailed
    | QueueFull
    | WriteTimedOut
    | ResponseTimedOut
    | Cancelled
    | Closed
    | TransportFailed

  /** Why dispatching the next host call fails, if it does, given the calls dispatched before it. */
  type Host = (seq<HostCall>, HostCall) -> Option<Failure>

  datatype Receiver = Receiver(
    pending: bool,
    pendingID: U32,
    pendingType: U16,
    response: Option<Frame>,
    buffer: seq<Byte>,
    counted: nat,
    dispatched: seq<HostCall>,
    failure: Option<Failure>)

  // ---------------------------------------------------------------- frames after readiness

  /** The header test of `trackReceiveLocked`. */
  function Reject(r: Receiver): Option<Failure> {
    if |r.buffer| < HEADER_SIZE then
      if MagicPrefix(r.buffer) then None else Some(BadHeader(BadMagic))
    else match DecodeHeader(r.buffer)
      case Some(error) => Some(BadHeader(error))
      case None =>
        var raw := ReadHeader(r.buffer);
        if raw.messageType == HOST_SERVICE_REQUEST then
          if raw.requestID == 0 then Some(ZeroHostID) else None
        else if !r.pending || r.response.Some? then Some(UnexpectedResponse)
        else if raw.requestID != r.pendingID then Some(WrongRequestID)
        else if raw.messageType != r.pendingType then Some(WrongResponseType)
        else None
  }

  /** Bytes of the frame at the front that have arrived. */
  function Arrived(buffer: seq<Byte>): nat {
    if |buffer| < HEADER_SIZE then |buffer| else Min(|buffer|, HEADER_SIZE + ReadHeader(buffer).length)
  }

  function Counted(r: Receiver): Receiver {
    if Arrived(r.buffer) <= r.counted then r else r.(counted := Arrived(r.buffer))
  }

  /** A complete frame leaves the buffer: to the host services, or as the awaited response. */
  function Take(r: Receiver, f: Frame, rest: seq<Byte>, host: Host): Receiver {
    var r := r.(buffer := rest, counted := 0);
    if f.messageType == HOST_SERVICE_REQUEST then
      var call := HostCall(f, if r.pending then Exchange else Background);
      var next := r.(dispatched := r.dispatched + [call]);
      next.(failure := host(r.dispatched, call))
    else if !r.pending || r.response.Some? then r.(failure := Some(UnexpectedResponse))
    else r.(pending := false, response := Some(f))
  }

  /** `consumeFrames`. */
  function Consume(r: Receiver, host: Host): Receiver
    decreases |r.buffer|
  {
    if r.failure.Some? then r
    else match Reject(r)
      case Some(failure) => r.(failure := Some(failure))
      case None =>
        match ExtractFrame(r.buffer)
        case Malformed(error) => Counted(r).(failure := Some(BadHeader(error)))
        case Incomplete => Counted(r)
        case Complete(f, rest) => Consume(Take(Counted(r), f, rest, host), host)
  }

  /** One chunk from the transport; a failed reader has stopped and takes no more. */
  function Feed(r: Receiver, chunk: seq<Byte>, host: Host): Receiver {
    if r.failure.Some? then r else Consume(r.(buffer := r.buffer + chunk), host)
  }

  /** The same calls, response and failure, and the same bytes left behind, except that `a` stopped before it was given
      `unread`; nothing is unread while nothing has failed. */
  predicate Same(a: Receiver, b: Receiver, unread: seq<Byte>) {
    b == a.(buffer := a.buffer + unread, counted := b.counted) &&
    (a.failure.None? ==> unread == [] && b.counted == a.counted)
  }

  /** What a receiver does not take of a chunk that comes after it has failed; `before` is where it started. */
  function Unread(before: Receiver, r: Receiver, chunk: seq<Byte>): seq<Byte> {
    if before.failure.None? && r.failure.Some? then chunk else []
  }

  /** A header that is rejected stays rejected for the same reason; a complete one is judged once and for all. */
  lemma RejectExtended(r: Receiver, more: seq<Byte>)
    ensures var r' := r.(buffer := r.buffer + more);
            (Reject(r).Some? ==> Reject(r') == Reject(r)) &&
            (|r.buffer| >= HEADER_SIZE ==> Reject(r') == Reject(r))
  {
    hide ReadHeader, MagicPrefix;
    if |r.buffer| >= HEADER_SIZE {
      SameHeader(r.buffer, more);
    } else if !MagicPrefix(r.buffer) {
      BadMagicExtended(r.buffer, more);
    }
  }

  lemma AcceptedNotMalformed(r: Receiver)
    requires Reject(r).None?
    ensures !ExtractFrame(r.buffer).Malformed?
  {
    hide ReadHeader;
    if |r.buffer| >= HEADER_SIZE { WholeMagic(r.buffer); }
  }

  lemma WholeMagic(data: seq<Byte>)
    requires |data| >= HEADER_SIZE && DecodeHeader(data).None?
    ensures MagicPrefix(data)
  {
  }

  lemma ArrivedGrows(a: seq<Byte>, b: seq<Byte>)
    requires ExtractFrame(a).Incomplete?
    ensures Arrived(a) <= Arrived(a + b)
  {
    if |a| >= HEADER_SIZE { SameHeader(a, b); }
  }

  lemma TakeExtended(r: Receiver, f: Frame, rest: seq<Byte>, b: seq<Byte>, host: Host)
    ensures Take(r, f, rest + b, host) == Take(r, f, rest, host).(buffer := rest + b)
  {
  }

  /** Consuming some bytes and then more is consuming them together. */
  lemma {:induction false} ConsumeExtended(r: Receiver, b: seq<Byte>, host: Host)
    ensures Same(Feed(Consume(r, host), b, host), Feed(r, b, host), Unread(r, Consume(r, host), b))
    decreases |r.buffer|
  {
    hide Reject, ExtractFrame, Take, Arrived;
    if r.failure.None? {
      var together := r.(buffer := r.buffer + b);
      RejectExtended(r, b);
      if Reject(r).None? {
        AcceptedNotMalformed(r);
        match ExtractFrame(r.buffer)
        case Incomplete =>
          ArrivedGrows(r.buffer, b);
          CountingLast(r, b, host);
        case Complete(f, rest) =>
          ExtractExtended(r.buffer, b);
          CompleteWhole(r.buffer);
          ArrivedWhole(r.buffer, b);
          var next := Take(Counted(r), f, rest, host);
          TakeShrinks(Counted(r), f, rest, host);
          TakeExtended(Counted(r), f, rest, b, host);
          TakeIgnoresCount(r, together, f, rest + b, host);
          var whole := next.(buffer := rest + b);
          assert Consume(r, host) == Consume(next, host);
          assert Consume(together, host) == Consume(whole, host);
          if next.failure.None? {
            ConsumeExtended(next, b, host);
          }
      }
    }
  }

  lemma CompleteWhole(data: seq<Byte>)
    requires ExtractFrame(data).Complete?
    ensures |data| >= HEADER_SIZE
  {
  }

  lemma ArrivedWhole(data: seq<Byte>, b: seq<Byte>)
    requires ExtractFrame(data).Complete?
    ensures Arrived(data) == Arrived(data + b)
  {
    SameHeader(data, b);
  }

  lemma TakeShrinks(r: Receiver, f: Frame, rest: seq<Byte>, host: Host)
    ensures Take(r, f, rest, host).buffer == rest
  {
  }

  /** Only the buffer and the counter differ, and both are replaced. */
  lemma TakeIgnoresCount(r: Receiver, together: Receiver, f: Frame, rest: seq<Byte>, host: Host)
    requires together == r.(buffer := together.buffer)
    ensures Take(Counted(r), f, rest, host) == Take(Counted(together), f, rest, host)
  {
  }

  /** Counting the bytes of a part first makes no difference to counting them all. */
  lemma CountingLast(r: Receiver, b: seq<Byte>, host: Host)
    requires r.failure.None? && Arrived(r.buffer) <= Arrived(r.buffer + b)
    ensures Same(Feed(Counted(r), b, host), Feed(r, b, host), [])
  {
    hide Arrived, ExtractFrame;
    var x, y := Counted(r).(buffer := r.buffer + b), r.(buffer := r.buffer + b);
    assert Counted(x) == Counted(y);
    assert Reject(x) == Reject(y);
  }

  /** Reception does not depend on where the transport cuts the bytes: feeding `a` and then `b` dispatches the same host
      calls, delivers the same response and fails the same way as feeding them at once, and leaves the same bytes behind,
      those of `b` included if `a` already failed. */
  lemma ChunkIndependent(r: Receiver, a: seq<Byte>, b: seq<Byte>, host: Host)
    ensures Same(Feed(Feed(r, a, host), b, host), Feed(r, a + b, host), Unread(r, Feed(r, a, host), b))
  {
    hide Consume;
    if r.failure.None? {
      var r' := r.(buffer := r.buffer + a);
      ConsumeExtended(r', b, host);
      assert r'.buffer + b == r.buffer + (a + b);
      assert r'.(buffer := r'.buffer + b) == r.(buffer := r.buffer + (a + b));
    }
  }

  function FeedAll(r: Receiver, chunks: seq<seq<Byte>>, host: Host): Receiver
    decreases |chunks|
  {
    if chunks == [] then r else FeedAll(Feed(r, chunks[0], host), chunks[1..], host)
  }

  /** The bytes of the chunks that come after the receiver has failed. */
  function AllUnread(before: Receiver, r: Receiver, chunks: seq<seq<Byte>>, host: Host): seq<Byte>
    decreases |chunks|
  {
    if chunks == [] then []
    else Unread(before, r, chunks[0]) + AllUnread(before, Feed(r, chunks[0], host), chunks[1..], host)
  }

  lemma {:induction false} FailedReadsNothing(before: Receiver, r: Receiver, chunks: seq<seq<Byte>>, host: Host)
    requires r.failure.Some?
    ensures FeedAll(r, chunks, host) == r
    ensures AllUnread(before, r, chunks, host) == if before.failure.None? then Concat(chunks) else []
    decreases |chunks|
  {
    hide Consume;
    if chunks != [] { FailedReadsNothing(before, r, chunks[1..], host); }
  }

  /** Any number of chunks is one chunk. */
  lemma {:induction false} AnyChunking(r: Receiver, first: seq<Byte>, chunks: seq<seq<Byte>>, host: Host)
    ensures Same(FeedAll(Feed(r, first, host), chunks, host), Feed(r, first + Concat(chunks), host),
                 AllUnread(r, Feed(r, first, host), chunks, host))
    decreases |chunks|
  {
    hide Consume, Feed;
    var x := Feed(r, first, host);
    if chunks == [] {
      assert first + Concat(chunks) == first;
    } else if x.failure.Some? {
      FailedReadsNothing(r, x, chunks, host);
      ChunkIndependent(r, first, Concat(chunks), host);
      FailedFeeds(x, Concat(chunks), host);
    } else {
      ChunkIndependent(r, first, chunks[0], host);
      StillGoing(r, first, host);
      AnyChunking(r, first + chunks[0], chunks[1..], host);
      SameLater(r, Feed(x, chunks[0], host), Feed(r, first + chunks[0], host), chunks[1..], host);
      assert first + chunks[0] + Concat(chunks[1..]) == first + Concat(chunks);
      assert AllUnread(r, x, chunks, host) == AllUnread(r, Feed(x, chunks[0], host), chunks[1..], host);
    }
  }

  lemma FailedFeeds(r: Receiver, chunk: seq<Byte>, host: Host)
    requires r.failure.Some?
    ensures Feed(r, chunk, host) == r
  {
  }

  lemma StillGoing(r: Receiver, first: seq<Byte>, host: Host)
    requires Feed(r, first, host).failure.None?
    ensures r.failure.None?
  {
    hide Consume;
  }

  /** Receivers that differ in a count that no longer matters stay alike. */
  lemma SameLater(before: Receiver, a: Receiver, b: Receiver, chunks: seq<seq<Byte>>, host: Host)
    requires Same(a, b, [])
    ensures AllUnread(before, a, chunks, host) == AllUnread(before, b, chunks, host)
    ensures FeedAll(b, chunks, host) == FeedAll(a, chunks, host).(counted := FeedAll(b, chunks, host).counted)
    ensures FeedAll(a, chunks, host).failure.None? ==> FeedAll(b, chunks, host) == FeedAll(a, chunks, host)
  {
    hide Consume, Feed;
    assert a.buffer + [] == a.buffer;
    if a.failure.None? {
      assert a == b;
    } else {
      FailedReadsNothing(before, a, chunks, host);
      FailedReadsNothing(before, b, chunks, host);
    }
  }

  // ---------------------------------------------------------------- whole frames in, whole frames out

  /** The frame is one this receiver is waiting for: an answer to the pending request, or a host call that succeeds. */
  predicate Welcome(r: Receiver, f: Frame, host: Host) {
    r.failure.None? && Sendable(f) &&
    if f.messageType == HOST_SERVICE_REQUEST then
      f.requestID != 0 && host(r.dispatched, HostCall(f, if r.pending then Exchange else Background)).None?
    else r.pending && r.response.None? && f.requestID == r.pendingID && f.messageType == r.pendingType
  }

  /** What one whole frame does to a receiver with nothing buffered. */
  function Deliver(r: Receiver, f: Frame): Receiver {
    if f.messageType == HOST_SERVICE_REQUEST then
      r.(counted := 0, dispatched := r.dispatched + [HostCall(f, if r.pending then Exchange else Background)])
    else r.(counted := 0, pending := false, response := Some(f))
  }

  function DeliverAll(r: Receiver, fs: seq<Frame>): Receiver
    decreases |fs|
  {
    if fs == [] then r else DeliverAll(Deliver(r, fs[0]), fs[1..])
  }

  predicate AllWelcome(r: Receiver, fs: seq<Frame>, host: Host)
    decreases |fs|
  {
    fs == [] || (Welcome(r, fs[0], host) && AllWelcome(Deliver(r, fs[0]), fs[1..], host))
  }

  lemma ConsumeWelcome(r: Receiver, f: Frame, rest: seq<Byte>, host: Host)
    requires Welcome(r, f, host)
    ensures Consume(r.(buffer := Wire(f) + rest), host) == Consume(Deliver(r, f).(buffer := rest), host)
  {
    hide ReadHeader, MagicPrefix;
    WireHeader(f, rest);
    ExtractWire(f, rest);
    var r' := r.(buffer := Wire(f) + rest);
    assert Reject(r').None?;
    TakeWelcome(Counted(r'), f, rest, host);
  }

  lemma TakeWelcome(r: Receiver, f: Frame, rest: seq<Byte>, host: Host)
    requires Welcome(r, f, host)
    ensures Take(r, f, rest, host) == Deliver(r, f).(buffer := rest)
  {
  }

  /** Frames sent whole arrive whole and in order. */
  lemma {:induction false} ConsumeFrames(r: Receiver, fs: seq<Frame>, host: Host)
    requires AllWelcome(r, fs, host) && r.failure.None?
    ensures Consume(r.(buffer := WireAll(fs)), host) == Counted(DeliverAll(r, fs).(buffer := []))
    decreases |fs|
  {
    hide ReadHeader, Take, Wire;
    if fs == [] {
      assert ExtractFrame([]).Incomplete? by { assert [] <= MAGIC; }
    } else {
      hide Consume;
      ConsumeWelcome(r, fs[0], WireAll(fs[1..]), host);
      ConsumeFrames(Deliver(r, fs[0]), fs[1..], host);
    }
  }

  /** Whatever way concatenated frames are cut into chunks, exactly those frames come out, and nothing is left. */
  lemma FramesSurviveChunking(r: Receiver, first: seq<Byte>, chunks: seq<seq<Byte>>, fs: seq<Frame>, host: Host)
    requires r.failure.None? && r.buffer == [] && r.counted == 0 && AllWelcome(r, fs, host)
    requires first + Concat(chunks) == WireAll(fs)
    ensures FeedAll(Feed(r, first, host), chunks, host) == DeliverAll(r, fs)
  {
    hide Consume, Feed, FeedAll;
    AnyChunking(r, first, chunks, host);
    ConsumeFrames(r, fs, host);
    DeliveredClean(r, fs, host);
    FeedIsConsume(r, WireAll(fs), host);
  }

  lemma FeedIsConsume(r: Receiver, chunk: seq<Byte>, host: Host)
    requires r.failure.None? && r.buffer == []
    ensures Feed(r, chunk, host) == Consume(r.(buffer := chunk), host)
  {
    assert r.buffer + chunk == chunk;
  }

  lemma {:induction false} DeliveredClean(r: Receiver, fs: seq<Frame>, host: Host)
    requires r.failure.None? && r.buffer == [] && r.counted == 0
    ensures var d := DeliverAll(r, fs); d.failure.None? && d.buffer == [] && d.counted == 0
    decreases |fs|
  {
    if fs != [] { DeliveredClean(Deliver(r, fs[0]), fs[1..], host); }
  }
}
