/** The dispatcher before the guest is ready: it looks for the readiness marker, and for host requests if allowed. */
module Startup {
  import opened Bytes
  import opened Framing
  import opened Reception

  const MAX_DIAGNOSTIC := 4 * 1024

  /** The incoming half: the startup buffer and diagnostic, then the frame receiver. */
  datatype Inbound = Inbound(services: bool, ready: bool, buffer: seq<Byte>, diagnostic: seq<Byte>, receiver: Receiver)

  predicate Failed(s: Inbound) {
    s.receiver.failure.Some?
  }

  function Fail(s: Inbound, failure: Reception.Failure): Inbound {
    s.(receiver := s.receiver.(failure := Some(failure)))
  }

  /** A complete frame before readiness. */
  function TakeEarly(s: Inbound, f: Frame, rest: seq<Byte>, host: Host): Inbound {
    var s := s.(buffer := rest);
    if f.messageType != HOST_SERVICE_REQUEST then Fail(s, NotHostService)
    else
      var call := HostCall(f, Reception.Startup);
      var next := s.(receiver := s.receiver.(dispatched := s.receiver.dispatched + [call]));
      if f.requestID == 0 then Fail(next, ZeroHostID)
      else next.(receiver := next.receiver.(failure := host(s.receiver.dispatched, call)))
  }

  function Drop(s: Inbound): Inbound
    requires s.buffer != []
  {
    s.(buffer := s.buffer[1..],
       diagnostic := if |s.diagnostic| < MAX_DIAGNOSTIC then s.diagnostic + [s.buffer[0]] else s.diagnostic)
  }

  function BecomeReady(s: Inbound): Inbound
    requires READY <= s.buffer
  {
    s.(ready := true, buffer := [], receiver := s.receiver.(buffer := s.receiver.buffer + s.buffer[|READY|..]))
  }

  /** `consumeStartup`. */
  function Scan(s: Inbound, host: Host): Inbound
    decreases |s.buffer|
  {
    if Failed(s) || s.buffer == [] then s
    else if READY <= s.buffer then
      var s := BecomeReady(s);
      s.(receiver := Consume(s.receiver, host))
    else if MAGIC <= s.buffer && s.services then
      match ExtractFrame(s.buffer)
      case Malformed(error) => Fail(s, BadHeader(error))
      case Incomplete => s
      case Complete(f, rest) => Scan(TakeEarly(s, f, rest, host), host)
    else if s.buffer <= READY || (s.services && s.buffer <= MAGIC) then s
    else Scan(Drop(s), host)
  }

  /** `consumeIncoming`. */
  function Feed(s: Inbound, chunk: seq<Byte>, host: Host): Inbound {
    if Failed(s) then s
    else if s.ready then s.(receiver := Reception.Feed(s.receiver, chunk, host))
    else Scan(s.(buffer := s.buffer + chunk), host)
  }

  /** The same in every respect, except that `a` failed before it was given `unread`. */
  ghost predicate Same(a: Inbound, b: Inbound, unread: seq<Byte>) {
    if a.ready then b == a.(receiver := b.receiver) && Reception.Same(a.receiver, b.receiver, unread)
    else b == a.(buffer := a.buffer + unread) && (!Failed(a) ==> unread == [])
  }

  /** What a dispatcher does not take of a chunk that comes after it has failed; `before` is where it started. */
  function Unread(before: Inbound, s: Inbound, chunk: seq<Byte>): seq<Byte> {
    if !Failed(before) && Failed(s) then chunk else []
  }

  // ---------------------------------------------------------------- chunk boundaries

  /** A byte that is dropped would be dropped whatever follows. */
  lemma DropExtended(data: seq<Byte>, more: seq<Byte>, marker: seq<Byte>)
    requires !(marker <= data) && !(data <= marker)
    ensures !(marker <= data + more) && !(data + more <= marker)
  {
    var k :| 0 <= k < |data| && k < |marker| && data[k] != marker[k];
    assert (data + more)[k] != marker[k];
  }

  lemma {:induction false} ScanExtended(s: Inbound, b: seq<Byte>, host: Host)
    requires !s.ready
    ensures Same(Feed(Scan(s, host), b, host), Feed(s, b, host), Unread(s, Scan(s, host), b))
    decreases |s.buffer|
  {
    hide Consume, ExtractFrame, TakeEarly;
    if !Failed(s) && s.buffer != [] {
      if READY <= s.buffer {
        ReadyExtended(s, b, host);
      } else if MAGIC <= s.buffer && s.services {
        EarlyFrameExtended(s, b, host);
      } else if !(s.buffer <= READY || (s.services && s.buffer <= MAGIC)) {
        DropExtended(s.buffer, b, READY);
        if s.services { DropExtended(s.buffer, b, MAGIC); }
        var together := s.(buffer := s.buffer + b);
        assert Drop(together) == Drop(s).(buffer := Drop(s).buffer + b);
        assert Scan(together, host) == Scan(Drop(together), host);
        ScanExtended(Drop(s), b, host);
      }
    }
  }

  lemma ReadyExtended(s: Inbound, b: seq<Byte>, host: Host)
    requires !s.ready && !Failed(s) && READY <= s.buffer
    ensures Same(Feed(Scan(s, host), b, host), Feed(s, b, host), Unread(s, Scan(s, host), b))
  {
    hide Consume, Scan, Reception.Feed;
    var together := s.(buffer := s.buffer + b);
    var r := BecomeReady(s).receiver;
    BecomeReadyExtended(s, b);
    ScanReady(s, host);
    ScanReady(together, host);
    ConsumeExtended(r, b, host);
    var x, y := Scan(s, host), Scan(together, host);
    FeedReady(x, b, host);
    FeedWhole(r, b, host);
    assert Reception.Same(Reception.Feed(x.receiver, b, host), y.receiver, Unread(s, x, b));
  }

  lemma FeedReady(s: Inbound, b: seq<Byte>, host: Host)
    requires s.ready
    ensures Feed(s, b, host) == s.(receiver := Reception.Feed(s.receiver, b, host))
  {
    hide Consume;
  }

  lemma FeedWhole(r: Receiver, b: seq<Byte>, host: Host)
    requires r.failure.None?
    ensures Reception.Feed(r, b, host) == Consume(r.(buffer := r.buffer + b), host)
  {
    hide Consume;
  }

  lemma ScanReady(s: Inbound, host: Host)
    requires !Failed(s) && READY <= s.buffer
    ensures Scan(s, host) == BecomeReady(s).(receiver := Consume(BecomeReady(s).receiver, host))
  {
    hide Consume, ExtractFrame;
  }

  lemma BecomeReadyExtended(s: Inbound, b: seq<Byte>)
    requires READY <= s.buffer
    ensures var together, r := s.(buffer := s.buffer + b), BecomeReady(s).receiver;
            READY <= together.buffer && BecomeReady(together).receiver == r.(buffer := r.buffer + b)
  {
    var tail := s.buffer[|READY|..];
    assert (s.buffer + b)[|READY|..] == tail + b;
    assert s.receiver.buffer + (tail + b) == s.receiver.buffer + tail + b;
  }

  lemma {:induction false} EarlyFrameExtended(s: Inbound, b: seq<Byte>, host: Host)
    requires !s.ready && !Failed(s) && s.services && MAGIC <= s.buffer && !(READY <= s.buffer)
    ensures Same(Feed(Scan(s, host), b, host), Feed(s, b, host), Unread(s, Scan(s, host), b))
    decreases |s.buffer|, 0
  {
    hide Consume, ExtractFrame;
    var together := s.(buffer := s.buffer + b);
    assert together.buffer[1] == MAGIC[1];
    assert MAGIC <= together.buffer && !(READY <= together.buffer);
    match ExtractFrame(s.buffer)
    case Malformed(error) => ExtractExtended(s.buffer, b);
    case Incomplete =>
    case Complete(f, rest) =>
      ExtractExtended(s.buffer, b);
      var next := TakeEarly(s, f, rest, host);
      assert TakeEarly(together, f, rest + b, host) == next.(buffer := rest + b);
      assert Scan(together, host) == Scan(next.(buffer := rest + b), host);
      if !Failed(next) {
        ScanExtended(next, b, host);
      }
  }

  /** From power-on, through readiness, to any later frame: chunk boundaries make no difference. */
  lemma ChunkIndependent(s: Inbound, a: seq<Byte>, b: seq<Byte>, host: Host)
    ensures Same(Feed(Feed(s, a, host), b, host), Feed(s, a + b, host), Unread(s, Feed(s, a, host), b))
  {
    hide Scan, Consume;
    if !Failed(s) {
      if s.ready {
        Reception.ChunkIndependent(s.receiver, a, b, host);
      } else {
        var s' := s.(buffer := s.buffer + a);
        ScanExtended(s', b, host);
        assert s'.(buffer := s'.buffer + b) == s.(buffer := s.buffer + (a + b)) by {
          assert s'.buffer + b == s.buffer + (a + b);
        }
      }
    }
  }

  // ---------------------------------------------------------------- the readiness marker

  ghost predicate MarkerAt(stream: seq<Byte>, k: nat) {
    k <= |stream| && READY <= stream[k..]
  }

  /** `k` is the first place where the marker occurs. */
  ghost predicate FirstMarker(stream: seq<Byte>, k: nat) {
    MarkerAt(stream, k) && forall i: nat :: i < k ==> !MarkerAt(stream, i)
  }

  ghost predicate NoMarker(stream: seq<Byte>) {
    forall i: nat :: !MarkerAt(stream, i)
  }

  function Head(stream: seq<Byte>, k: nat): seq<Byte>
    requires k <= |stream|
  {
    stream[..Min(k, MAX_DIAGNOSTIC)]
  }

  /** The state of a scan that has dropped the first `k` bytes of the stream and still holds the rest. */
  ghost predicate ScannedTo(s: Inbound, stream: seq<Byte>, k: nat) {
    !Failed(s) && !s.ready && !s.services && k <= |stream| && s.buffer == stream[k..] && s.diagnostic == Head(stream, k) &&
    forall i: nat :: i < k ==> !MarkerAt(stream, i)
  }

  /** Where a scan without startup services ends. */
  ghost predicate ScanResult(s0: Inbound, s: Inbound, stream: seq<Byte>, host: Host) {
    if s.ready then
      exists k: nat :: FirstMarker(stream, k) && s.diagnostic == Head(stream, k) && s.buffer == [] &&
        s.receiver == Consume(s0.receiver.(buffer := s0.receiver.buffer + stream[k + |READY|..]), host)
    else
      NoMarker(stream) && s.receiver == s0.receiver &&
      exists k: nat :: k <= |stream| && s.buffer == stream[k..] && s.buffer <= READY && s.diagnostic == Head(stream, k)
  }

  lemma {:induction false} ScanFindsMarker(s: Inbound, stream: seq<Byte>, k: nat, host: Host)
    requires ScannedTo(s, stream, k)
    ensures ScanResult(s, Scan(s, host), stream, host)
    decreases |s.buffer|
  {
    hide Consume, Min;
    if s.buffer == [] {
      NoMarkerLeft(stream, k);
    } else if READY <= s.buffer {
      assert FirstMarker(stream, k);
      assert s.buffer[|READY|..] == stream[k + |READY|..];
    } else if s.buffer <= READY {
      NoMarkerLeft(stream, k);
    } else {
      DropOne(s, stream, k);
      ScanFindsMarker(Drop(s), stream, k + 1, host);
    }
  }

  lemma NoMarkerLeft(stream: seq<Byte>, k: nat)
    requires k <= |stream| && stream[k..] <= READY && !(READY <= stream[k..])
    requires forall i: nat :: i < k ==> !MarkerAt(stream, i)
    ensures NoMarker(stream)
  {
    forall i: nat ensures !MarkerAt(stream, i) {
      if k <= i <= |stream| {
        assert |stream[i..]| <= |stream[k..]| < |READY|;
      }
    }
  }

  lemma DropOne(s: Inbound, stream: seq<Byte>, k: nat)
    requires ScannedTo(s, stream, k) && s.buffer != [] && !(READY <= s.buffer)
    ensures ScannedTo(Drop(s), stream, k + 1)
  {
    assert stream[k..][1..] == stream[k + 1..];
    assert s.buffer[0] == stream[k];
    assert Head(stream, k + 1) == if k < MAX_DIAGNOSTIC then stream[..k] + [stream[k]] else Head(stream, k);
    assert forall i: nat :: i < k + 1 ==> !MarkerAt(stream, i);
  }

  function FeedAll(s: Inbound, chunks: seq<seq<Byte>>, host: Host): Inbound
    decreases |chunks|
  {
    if chunks == [] then s else FeedAll(Feed(s, chunks[0], host), chunks[1..], host)
  }

  /** The bytes of the chunks that come after the dispatcher has failed. */
  function AllUnread(before: Inbound, s: Inbound, chunks: seq<seq<Byte>>, host: Host): seq<Byte>
    decreases |chunks|
  {
    if chunks == [] then []
    else Unread(before, s, chunks[0]) + AllUnread(before, Feed(s, chunks[0], host), chunks[1..], host)
  }

  lemma {:induction false} FailedReadsNothing(before: Inbound, s: Inbound, chunks: seq<seq<Byte>>, host: Host)
    requires Failed(s)
    ensures FeedAll(s, chunks, host) == s
    ensures AllUnread(before, s, chunks, host) == if !Failed(before) then Concat(chunks) else []
    decreases |chunks|
  {
    hide Scan, Consume;
    if chunks != [] { FailedReadsNothing(before, s, chunks[1..], host); }
  }

  /** Any number of chunks is one chunk. */
  lemma {:induction false} AnyChunking(s: Inbound, first: seq<Byte>, chunks: seq<seq<Byte>>, host: Host)
    ensures Same(FeedAll(Feed(s, first, host), chunks, host), Feed(s, first + Concat(chunks), host),
                 AllUnread(s, Feed(s, first, host), chunks, host))
    decreases |chunks|
  {
    hide Feed, Same;
    var x := Feed(s, first, host);
    if chunks == [] {
      assert first + Concat(chunks) == first;
      SameAsItself(x);
    } else if Failed(x) {
      FailedReadsNothing(s, x, chunks, host);
      ChunkIndependent(s, first, Concat(chunks), host);
      FailedFeeds(x, Concat(chunks), host);
    } else {
      ChunkIndependent(s, first, chunks[0], host);
      StillGoing(s, first, host);
      AnyChunking(s, first + chunks[0], chunks[1..], host);
      assert first + chunks[0] + Concat(chunks[1..]) == first + Concat(chunks);
      SameLater(s, Feed(x, chunks[0], host), Feed(s, first + chunks[0], host), Feed(s, first + Concat(chunks), host),
                chunks[1..], host);
      assert AllUnread(s, x, chunks, host) == AllUnread(s, Feed(x, chunks[0], host), chunks[1..], host);
    }
  }

  lemma FailedFeeds(s: Inbound, chunk: seq<Byte>, host: Host)
    requires Failed(s)
    ensures Feed(s, chunk, host) == s
  {
  }

  lemma StillGoing(s: Inbound, first: seq<Byte>, host: Host)
    requires !Failed(Feed(s, first, host))
    ensures !Failed(s)
  {
    hide Scan, Consume;
  }

  lemma SameAsItself(s: Inbound)
    ensures Same(s, s, [])
  {
    assert s.buffer + [] == s.buffer && s.receiver.buffer + [] == s.receiver.buffer;
  }

  /** Dispatchers that differ in a count that no longer matters stay alike. */
  lemma SameLater(before: Inbound, a: Inbound, b: Inbound, end: Inbound, chunks: seq<seq<Byte>>, host: Host)
    requires Same(a, b, [])
    requires Same(FeedAll(b, chunks, host), end, AllUnread(before, b, chunks, host))
    ensures Same(FeedAll(a, chunks, host), end, AllUnread(before, a, chunks, host))
  {
    hide Feed;
    assert a.buffer + [] == a.buffer && a.receiver.buffer + [] == a.receiver.buffer;
    if Failed(a) {
      FailedReadsNothing(before, a, chunks, host);
      FailedReadsNothing(before, b, chunks, host);
    } else {
      assert a == b;
    }
  }

  /** A dispatcher that has received nothing, with no startup services. */
  ghost predicate Fresh(s: Inbound) {
    !Failed(s) && !s.ready && !s.services && s.buffer == [] && s.diagnostic == []
  }

  /** Under any chunking, a dispatcher without startup services becomes ready exactly when the marker has occurred; its
      diagnostic is the first 4096 of the bytes before the first marker, and every byte after it goes to the frame
      receiver, in order. */
  lemma ReadyAtFirstMarker(s: Inbound, first: seq<Byte>, chunks: seq<seq<Byte>>, host: Host)
    requires Fresh(s)
    ensures var stream, end := first + Concat(chunks), FeedAll(Feed(s, first, host), chunks, host);
            (!end.ready <==> NoMarker(stream)) &&
            (forall k: nat :: FirstMarker(stream, k) ==>
              end.diagnostic == Head(stream, k) &&
              Reception.Same(end.receiver, Consume(s.receiver.(buffer := s.receiver.buffer + stream[k + |READY|..]), host),
                             AllUnread(s, Feed(s, first, host), chunks, host)))
  {
    hide Scan, Consume, Min, Concat;
    var stream := first + Concat(chunks);
    AnyChunking(s, first, chunks, host);
    var s' := s.(buffer := stream);
    assert s.buffer + stream == stream;
    assert stream[0..] == stream;
    NothingDropped(s', stream);
    ScanFindsMarker(s', stream, 0, host);
    forall k: nat, j: nat | FirstMarker(stream, k) && FirstMarker(stream, j) ensures k == j {
    }
  }

  lemma NothingDropped(s: Inbound, stream: seq<Byte>)
    requires !Failed(s) && !s.ready && !s.services && s.diagnostic == [] && s.buffer == stream
    ensures ScannedTo(s, stream, 0)
  {
    assert stream[0..] == stream && stream[..0] == [];
  }
}
