/** What a receiver makes of whole frames, without the functions that say how it takes one. */
module ReceptionLaws {
  import opened Bytes
  import opened Framing
  import opened Reception

  /** Host requests that are served. */
  predicate HostRequests(fs: seq<Frame>) {
    forall i :: 0 <= i < |fs| ==> Sendable(fs[i]) && fs[i].messageType == 0x0003 && fs[i].requestID != 0
  }

  function Scoped(fs: seq<Frame>, scope: Scope): (calls: seq<HostCall>)
    ensures |calls| == |fs| && forall i :: 0 <= i < |fs| ==> calls[i] == HostCall(fs[i], scope)
  {
    seq(|fs|, i requires 0 <= i < |fs| => HostCall(fs[i], scope))
  }

  ghost predicate ServesAll(host: Host) {
    forall earlier, call :: host(earlier, call) == None
  }

  lemma {:induction false} DeliverHosts(r: Receiver, fs: seq<Frame>, rest: seq<Frame>, host: Host)
    requires HostRequests(fs) && ServesAll(host) && r.failure.None? && r.counted == 0
    ensures var scope := if r.pending then Reception.Exchange else Background;
            var t := r.(dispatched := r.dispatched + Scoped(fs, scope));
            DeliverAll(r, fs + rest) == DeliverAll(t, rest) && (AllWelcome(t, rest, host) ==> AllWelcome(r, fs + rest, host))
    decreases |fs|
  {
    var scope := if r.pending then Reception.Exchange else Background;
    if fs == [] {
      assert fs + rest == rest && r.dispatched + Scoped(fs, scope) == r.dispatched;
    } else {
      var next := r.(dispatched := r.dispatched + [HostCall(fs[0], scope)]);
      OneHost(r, fs[0], fs[1..] + rest, host);
      assert [fs[0]] + (fs[1..] + rest) == fs + rest;
      hide DeliverAll, AllWelcome;
      assert HostRequests(fs[1..]);
      DeliverHosts(next, fs[1..], rest, host);
      assert next.dispatched + Scoped(fs[1..], scope) == r.dispatched + Scoped(fs, scope);
    }
  }

  lemma OneHost(r: Receiver, f: Frame, rest: seq<Frame>, host: Host)
    requires HostRequests([f]) && ServesAll(host) && r.failure.None? && r.counted == 0
    ensures var next := r.(dispatched := r.dispatched + [HostCall(f, if r.pending then Reception.Exchange else Background)]);
            DeliverAll(r, [f] + rest) == DeliverAll(next, rest) &&
            (AllWelcome(next, rest, host) ==> AllWelcome(r, [f] + rest, host))
  {
    assert [f][0] == f;
    assert ([f] + rest)[0] == f && ([f] + rest)[1..] == rest;
  }

  /** However the bytes are cut: host requests, the awaited response and more host requests arrive in that order. The requests
      before the response are calls of the exchange, those after it are not; the response is delivered; nothing fails and
      nothing is left over. */
  lemma ResponseAmongCalls(r: Receiver, calls: seq<Frame>, f: Frame, more: seq<Frame>, first: seq<Byte>,
                           chunks: seq<seq<Byte>>, host: Host)
    requires r.failure.None? && r.buffer == [] && r.counted == 0 && r.pending && r.response.None?
    requires HostRequests(calls) && HostRequests(more) && ServesAll(host) && Sendable(f) && f.messageType != 0x0003
    requires f.requestID == r.pendingID && f.messageType == r.pendingType
    requires first + Concat(chunks) == WireAll(calls + ([f] + more))
    ensures FeedAll(Feed(r, first, host), chunks, host) ==
            r.(pending := false, response := Some(f),
               dispatched := r.dispatched + Scoped(calls, Reception.Exchange) + Scoped(more, Background))
  {
    hide FeedAll, Feed, WireAll, Concat, Scoped;
    var fs := calls + ([f] + more);
    var before := r.(dispatched := r.dispatched + Scoped(calls, Reception.Exchange));
    var after := before.(pending := false, response := Some(f));
    DeliverHosts(r, calls, [f] + more, host);
    assert ([f] + more)[0] == f && ([f] + more)[1..] == more;
    DeliverHosts(after, more, [], host);
    assert more + [] == more;
    FramesSurviveChunking(r, first, chunks, fs, host);
  }

  /** A whole frame that is not wanted fails the receiver for the reason that applies and does nothing else; what follows it
      is not looked at. */
  lemma UnwantedFrame(r: Receiver, f: Frame, rest: seq<Byte>, host: Host)
    requires r.failure.None? && Sendable(f)
    requires if f.messageType == 0x0003 then f.requestID == 0
             else !r.pending || r.response.Some? || f.requestID != r.pendingID || f.messageType != r.pendingType
    ensures var cause := if f.messageType == 0x0003 then ZeroHostID
                         else if !r.pending || r.response.Some? then UnexpectedResponse
                         else if f.requestID != r.pendingID then WrongRequestID
                         else WrongResponseType;
            Consume(r.(buffer := Wire(f) + rest), host) == r.(buffer := Wire(f) + rest, failure := Some(cause))
  {
    hide ReadHeader, Header;
    WireHeader(f, rest);
    assert |Wire(f) + rest| >= HEADER_SIZE;
  }
}
