/** That things get done: a dispatcher at rest can always carry out an exchange and answer a host call, and what then goes
    out and comes back is exactly what it should be. */
module ExchangeLaws {
  import opened Bytes
  import opened Framing
  import opened Reception
  import opened Dispatcher

  ghost predicate Leads(s: State, actions: seq<Action>, t: State) {
    Legal(s, actions) && Execute(s, actions) == t
  }

  lemma Nothing(s: State)
    ensures Leads(s, [], s)
  {
  }

  lemma {:induction false} Next(s: State, actions: seq<Action>, t: State, a: Action)
    requires Leads(s, actions, t) && Enabled(t, a)
    ensures Leads(s, actions + [a], Apply(t, a))
    decreases |actions|
  {
    hide Enabled, Apply;
    var more := actions + [a];
    if actions == [] {
      assert more[0] == a && more[1..] == [];
      assert Legal(Apply(t, a), []) && Execute(Apply(t, a), []) == Apply(t, a);
    } else {
      Next(Apply(s, actions[0]), actions[1..], t, a);
      assert more[0] == actions[0] && more[1..] == actions[1..] + [a];
    }
  }

  /** Nothing is queued, under way or half received. */
  ghost predicate AtRest(s: State) {
    s.reader.Idle? && s.inbox.ready && !s.closing && s.inbox.receiver.failure.None? && s.inbox.receiver.buffer == [] &&
    s.inbox.receiver.counted == 0 && s.out.writes == [] && s.out.queuedBytes == 0 && s.out.ahead == 0
  }

  /** One write is queued, none of its bytes still unaccounted for. */
  ghost predicate Sending(s: State, w: Write) {
    s.reader.Idle? && !s.closing && s.out.writes == [w] && s.out.queuedBytes == |w.data| && s.out.ahead == 0 &&
    w.offset < |w.data| && w.terminal.None?
  }

  /** The queue after that write has gone out whole. */
  function SentOut(o: Outgoing, w: Write): Outgoing
    requires w.offset <= |w.data|
  {
    Outgoing([], 0, o.finished + [w.(offset := |w.data|, terminal := Some(WriteCompleted))], o.wire + w.data[w.offset..], 0,
             o.terminals + [(|o.finished|, WriteCompleted)])
  }

  /** One chunk more is out; the last one ends the write, and with it the host call it answers. */
  lemma SendChunk(s: State, w: Write, before: State, actions: seq<Action>) returns (more: seq<Action>, t: State)
    requires Sending(s, w) && Leads(before, actions, s) && (w.hostResponse ==> s.hostActive > 0)
    ensures Leads(before, more, t)
    ensures var n := Min(WRITE_CHUNK, |w.data| - w.offset);
            if w.offset + n < |w.data| then
              t == s.(out := s.out.(wire := s.out.wire + w.data[w.offset..w.offset + n],
                                    writes := [w.(offset := w.offset + n)]))
            else
              t == s.(out := SentOut(s.out, w), hostActive := s.hostActive - (if w.hostResponse then 1 else 0),
                      hostWindow := s.hostWindow + if w.hostResponse then 1 else 0)
  {
    hide Leads;
    var n := Min(WRITE_CHUNK, |w.data| - w.offset);
    var chunk := w.data[w.offset..w.offset + n];
    var s1 := s.(reader := Pumping(chunk, true));
    assert Apply(s, PumpStart) == s1;
    Next(before, actions, s, PumpStart);
    var s2 := s.(out := s.out.(wire := s.out.wire + chunk, ahead := n), reader := Advancing(true, n));
    assert chunk[..n] == chunk;
    assert Apply(s1, PumpQuiet(n)) == s2;
    Next(before, actions + [PumpStart], s1, PumpQuiet(n));
    Next(before, actions + [PumpStart] + [PumpQuiet(n)], s2, Advance);
    more := actions + [PumpStart] + [PumpQuiet(n)] + [Advance];
    t := Apply(s2, Advance);
    assert [w][1..] == [];
    if w.offset + n == |w.data| { assert chunk == w.data[w.offset..]; }
  }

  /** A queued write goes out whole, in as many chunks as it takes. */
  lemma {:induction false} SendAll(s: State, w: Write, before: State, actions: seq<Action>)
    returns (more: seq<Action>, t: State)
    requires Sending(s, w) && Leads(before, actions, s) && (w.hostResponse ==> s.hostActive > 0)
    ensures Leads(before, more, t)
    ensures t == s.(out := SentOut(s.out, w), hostActive := s.hostActive - (if w.hostResponse then 1 else 0),
                    hostWindow := s.hostWindow + if w.hostResponse then 1 else 0)
    decreases |w.data| - w.offset
  {
    hide Leads;
    more, t := SendChunk(s, w, before, actions);
    var n := Min(WRITE_CHUNK, |w.data| - w.offset);
    if w.offset + n < |w.data| {
      var w' := w.(offset := w.offset + n);
      assert w.data[w.offset..] == w.data[w.offset..w.offset + n] + w'.data[w'.offset..];
      more, t := SendAll(t, w', before, more);
    }
  }

  lemma WholeFrame(r: Receiver, f: Frame)
    requires Sendable(f) && r.buffer == Wire(f) && r.counted == 0
    ensures ExtractFrame(r.buffer) == Complete(f, []) && |r.buffer| >= HEADER_SIZE
    ensures Reject(r) == if f.messageType == HOST_SERVICE_REQUEST then (if f.requestID == 0 then Some(ZeroHostID) else None)
                         else if !r.pending || r.response.Some? then Some(UnexpectedResponse)
                         else if f.requestID != r.pendingID then Some(WrongRequestID)
                         else if f.messageType != r.pendingType then Some(WrongResponseType)
                         else None
  {
    hide ReadHeader, Header;
    assert Wire(f) + [] == Wire(f);
    ExtractWire(f, []);
    WireHeader(f, []);
  }

  lemma EmptyBuffer(r: Receiver)
    requires r.buffer == [] && r.counted == 0
    ensures Reject(r) == None && ExtractFrame(r.buffer) == Incomplete && Counted(r) == r
  {
  }

  /** The response that is awaited arrives whole. */
  lemma Receive(s: State, f: Frame, before: State, actions: seq<Action>) returns (more: seq<Action>, t: State)
    requires AtRest(s) && Leads(before, actions, s) && Sendable(f) && f.messageType != HOST_SERVICE_REQUEST
    requires var r := s.inbox.receiver;
             r.pending && r.response.None? && r.pendingID == f.requestID && r.pendingType == f.messageType
    ensures Leads(before, more, t)
    ensures t == WithReceiver(s, s.inbox.receiver.(pending := false, response := Some(f)))
  {
    hide Leads, Reject, ExtractFrame, Counted, Wire;
    var r := s.inbox.receiver;
    var s1 := s.(reader := Pumping([], false));
    Next(before, actions, s, PumpStart);
    var full := r.(buffer := Wire(f));
    assert s.out.wire + [] == s.out.wire && [] + Wire(f) == Wire(f);
    var s2 := WithReceiver(s, full).(reader := Consuming(false, 0));
    assert Apply(s1, PumpDone(Wire(f), 0)) == s2;
    Next(before, actions + [PumpStart], s1, PumpDone(Wire(f), 0));
    more := actions + [PumpStart] + [PumpDone(Wire(f), 0)];
    WholeFrame(full, f);
    var taken := r.(pending := false, response := Some(f));
    var s3 := WithReceiver(s, taken).(reader := Consuming(false, 0));
    assert Apply(s2, Extract) == s3;
    Next(before, more, s2, Extract);
    EmptyBuffer(taken);
    var s4 := WithReceiver(s, taken).(reader := Advancing(false, 0));
    assert Apply(s3, Extract) == s4;
    Next(before, more + [Extract], s3, Extract);
    Next(before, more + [Extract] + [Extract], s4, Advance);
    more := more + [Extract] + [Extract] + [Advance];
    t := Apply(s4, Advance);
  }

  /** From rest, an exchange is made, its request goes out byte for byte, the response to it comes in, and that response is
      what it returns; the dispatcher is at rest again, and has failed in nothing. */
  lemma ExchangeLaw(s: State, request: Frame, f: Frame) returns (actions: seq<Action>, t: State)
    requires AtRest(s) && s.talk.None? && Sendable(request) && Sendable(f)
    requires f.requestID == request.requestID && f.messageType == ResponseType(request.messageType)
    ensures Leads(s, actions, t) && AtRest(t) && t.talk.None?
    ensures t.out.wire == s.out.wire + Wire(request) && t.returned == s.returned + [(request, f)]
    ensures t.abandoned == s.abandoned && t.hostActive == s.hostActive && t.hostWindow == s.hostWindow
    ensures t.inbox.receiver.dispatched == s.inbox.receiver.dispatched
  {
    hide Leads, Wire;
    var w := Write(Wire(request), false, request.requestID, 0, None);
    actions, t := Queued(s, request, w);
    actions, t := SendAll(t, w, s, actions);
    assert w.data[0..] == Wire(request);
    actions, t := Receive(t, f, s, actions);
    actions, t := Returned(t, request, f, s, actions);
  }

  /** What is expected while the exchange is under way. */
  function Expecting(r: Receiver, request: Frame): Receiver {
    r.(pending := true, pendingID := request.requestID, pendingType := ResponseType(request.messageType), response := None)
  }

  lemma Queued(s: State, request: Frame, w: Write) returns (actions: seq<Action>, t: State)
    requires AtRest(s) && s.talk.None? && Sendable(request) && w == Write(Wire(request), false, request.requestID, 0, None)
    ensures Leads(s, actions, t)
    ensures t == WithReceiver(s, Expecting(s.inbox.receiver, request)).(
                   out := s.out.(writes := [w], queuedBytes := |w.data|),
                   talk := Some(Talk(request, Waiting(|s.out.finished|))))
  {
    hide Leads, Wire, ResponseType;
    Nothing(s);
    var s1 := WithReceiver(s, Expecting(s.inbox.receiver, request)).(talk := Some(Talk(request, Begun)));
    assert Apply(s, ExchangeBegin(request)) == s1;
    Next(s, [], s, ExchangeBegin(request));
    assert [] + [w] == [w];
    Next(s, [] + [ExchangeBegin(request)], s1, ExchangeQueue);
    actions := [] + [ExchangeBegin(request)] + [ExchangeQueue];
    t := Apply(s1, ExchangeQueue);
  }

  lemma Returned(s: State, request: Frame, f: Frame, before: State, actions: seq<Action>)
    returns (more: seq<Action>, t: State)
    requires Leads(before, actions, s) && s.inbox.receiver.failure.None? && s.inbox.receiver.response == Some(f)
    requires WriteDone(s) && s.talk.value.request == request
    ensures Leads(before, more, t)
    ensures t == WithReceiver(s, s.inbox.receiver.(pending := false, response := None)).(
                   talk := None, returned := s.returned + [(request, f)])
  {
    hide Leads;
    Next(before, actions, s, ExchangeReturn);
    var s1 := AtStage(s, Ending(true, Some(f)));
    assert Apply(s, ExchangeReturn) == s1;
    Next(before, actions + [ExchangeReturn], s1, ExchangeEnd);
    more := actions + [ExchangeReturn] + [ExchangeEnd];
    t := Apply(s1, ExchangeEnd);
  }

  /** From rest, a host call that arrives is counted with its scope, its answer goes out byte for byte, and the dispatcher is
      at rest again with one host call more behind it. */
  lemma HostCallLaw(s: State, f: Frame, answer: Frame) returns (actions: seq<Action>, t: State)
    requires AtRest(s) && s.hostActive == 0 && Sendable(f) && f.messageType == HOST_SERVICE_REQUEST && f.requestID != 0
    requires Sendable(answer)
    ensures Leads(s, actions, t) && AtRest(t) && t.talk == s.talk && t.returned == s.returned
    ensures t.out.wire == s.out.wire + Wire(answer) && t.hostActive == 0 && t.hostWindow == s.hostWindow + 1
    ensures t.inbox.receiver.dispatched ==
            s.inbox.receiver.dispatched + [HostCall(f, if s.inbox.receiver.pending then Exchange else Background)]
  {
    hide Leads, Reject, ExtractFrame, Counted, Wire;
    var r := s.inbox.receiver;
    var call := HostCall(f, if r.pending then Exchange else Background);
    Nothing(s);
    var s1 := s.(reader := Pumping([], false));
    Next(s, [], s, PumpStart);
    var full := r.(buffer := Wire(f));
    assert s.out.wire + [] == s.out.wire && [] + Wire(f) == Wire(f);
    var s2 := WithReceiver(s, full).(reader := Consuming(false, 0));
    assert Apply(s1, PumpDone(Wire(f), 0)) == s2;
    Next(s, [] + [PumpStart], s1, PumpDone(Wire(f), 0));
    actions := [] + [PumpStart] + [PumpDone(Wire(f), 0)];
    WholeFrame(full, f);
    var s3 := s.(reader := Serving(call, false, 0));
    assert Apply(s2, Extract) == s3;
    Next(s, actions, s2, Extract);
    actions := actions + [Extract];
    actions, t := Answered(s, call, answer, s3, s, actions);
  }

  lemma Answered(s: State, call: HostCall, answer: Frame, serving: State, before: State, actions: seq<Action>)
    returns (more: seq<Action>, t: State)
    requires AtRest(s) && s.hostActive == 0 && serving == s.(reader := Serving(call, false, 0))
    requires call.frame.requestID != 0 && call.scope != Reception.Startup && Sendable(answer) && Leads(before, actions, serving)
    ensures Leads(before, more, t) && AtRest(t) && t.talk == s.talk && t.returned == s.returned
    ensures t.out.wire == s.out.wire + Wire(answer) && t.hostActive == 0 && t.hostWindow == s.hostWindow + 1
    ensures t.inbox.receiver.dispatched == s.inbox.receiver.dispatched + [call]
  {
    hide Leads, Reject, ExtractFrame, Counted, Wire;
    var r := s.inbox.receiver;
    var after := r.(dispatched := r.dispatched + [call]);
    var s1 := WithReceiver(s, after).(hostActive := 1, reader := Hosting(call, false, 0));
    assert Apply(serving, HostBegin) == s1;
    Next(before, actions, serving, HostBegin);
    var w := Write(Wire(answer), true, answer.requestID, 0, None);
    assert [] + [w] == [w];
    var s2 := s1.(out := s1.out.(writes := [w], queuedBytes := |w.data|), reader := Consuming(false, 0));
    assert Apply(s1, HostReply(answer)) == s2;
    Next(before, actions + [HostBegin], s1, HostReply(answer));
    EmptyBuffer(after);
    var s3 := s2.(reader := Advancing(false, 0));
    assert Apply(s2, Extract) == s3;
    more := actions + [HostBegin] + [HostReply(answer)];
    Next(before, more, s2, Extract);
    Next(before, more + [Extract], s3, Advance);
    var s4 := s2.(reader := Idle);
    assert Apply(s3, Advance) == s4;
    more := more + [Extract] + [Advance];
    more, t := SendAll(s4, w, before, more);
    assert w.data[0..] == Wire(answer);
  }

  /** Closing is final: the dispatcher has failed, takes no more writes and begins no more exchanges, and a reader that comes
      round stops. */
  lemma CloseLaw(s: State, data: seq<Byte>, request: Frame)
    requires Inv(s)
    ensures var t := Apply(s, Close);
            t.closing && (!s.closing ==> t.inbox.receiver.failure.Some?) && QueueRefuses(t, data).Some? &&
            !Enabled(t, ExchangeBegin(request)) &&
            (t.reader.Idle? ==> Enabled(t, PumpStart) && Apply(t, PumpStart).reader.Dead?)
  {
    hide Inv, EndFront;
    CloseKeeps(s);
    if s.reader.Idle? { PumpStartKeeps(Apply(s, Close)); }
  }
}
