/** The reader's steps with no other thread between them are the whole calls `consumeIncoming` makes: what is proved of
    those calls under any chunking holds of the machine, and what is proved of the machine holds of them. */
module Reading {
  import opened Bytes
  import opened Framing
  import opened Reception
  import opened Dispatcher
  import S = Startup

  /** The reader's own steps between reading bytes and being done with them. */
  predicate ReaderStep(a: Action) {
    a.ScanStartup? || a.Extract? || a.HostBegin? || a.HostReply? || a.HostFailed? || a.HostRelease?
  }

  ghost predicate AllReaderSteps(actions: seq<Action>) {
    forall i :: 0 <= i < |actions| ==> ReaderStep(actions[i])
  }

  /** The reader is done with the bytes: it goes on to its write, or stops. */
  predicate Resting(r: Reader) {
    r.Advancing? || r.Stopping?
  }

  /** The incoming half as it is once an error that stops the reader is recorded. */
  function Settled(s: State): S.Inbound {
    if s.reader.Stopping? then S.Fail(s.inbox, s.reader.cause) else s.inbox
  }

  /** What a step says of the call being served, if it settles it. */
  function Verdict(s: State, a: Action): Option<Option<Failure>> {
    match a
    case HostReply(response) => Some(QueueRefuses(s, Wire(response)))
    case HostFailed(cause) => Some(Some(cause))
    case _ => None
  }

  /** The calls dispatched before the one being served. */
  function Earlier(s: State): seq<HostCall> {
    var d := s.inbox.receiver.dispatched;
    if s.reader.Hosting? && d != [] then d[..|d| - 1] else d
  }

  /** `host` answers every call of the run as the run does. */
  ghost predicate Agrees(s: State, actions: seq<Action>, host: Host)
    requires Legal(s, actions)
    decreases |actions|
  {
    actions == [] ||
    ((Verdict(s, actions[0]).Some? && s.reader.Hosting? ==>
       host(Earlier(s), s.reader.call) == Verdict(s, actions[0]).value) &&
     Agrees(Apply(s, actions[0]), actions[1..], host))
  }

  /** A call that has been counted, and how it is served. */
  function Served(inbox: S.Inbound, earlier: seq<HostCall>, call: HostCall, host: Host): S.Inbound {
    var outcome := if call.frame.requestID == 0 then Some(ZeroHostID) else host(earlier, call);
    if outcome.Some? then S.Fail(inbox, outcome.value)
    else if call.scope == Reception.Startup then S.Scan(inbox, host)
    else inbox.(receiver := Consume(inbox.receiver, host))
  }

  function Counting(inbox: S.Inbound, call: HostCall): S.Inbound {
    inbox.(receiver := inbox.receiver.(dispatched := inbox.receiver.dispatched + [call]))
  }

  /** Where the reader will leave the incoming half if no other thread comes between. */
  function Goal(s: State, host: Host): S.Inbound {
    match s.reader
    case Scanning(_, _) => S.Scan(s.inbox, host)
    case Consuming(_, _) => s.inbox.(receiver := Consume(s.inbox.receiver, host))
    case Serving(call, _, _) => Served(Counting(s.inbox, call), s.inbox.receiver.dispatched, call, host)
    case Hosting(call, _, _) => Served(s.inbox, Earlier(s), call, host)
    case Releasing(cause) => S.Fail(s.inbox, cause)
    case Stopping(cause) => S.Fail(s.inbox, cause)
    case _ => s.inbox
  }

  /** Nobody has failed the dispatcher, and a call being served is the last one counted. */
  ghost predicate Undisturbed(s: State) {
    s.inbox.receiver.failure.None? &&
    (s.reader.Serving? && s.reader.call.scope != Reception.Startup ==> s.reader.call.frame.requestID != 0) &&
    (s.reader.Hosting? ==>
      s.inbox.receiver.dispatched != [] && (s.reader.call.scope != Reception.Startup ==> s.reader.call.frame.requestID != 0))
  }

  lemma ScanStep(s: State, host: Host)
    requires Undisturbed(s) && s.reader.Scanning?
    ensures Undisturbed(ScanOne(s)) && Goal(ScanOne(s), host) == Goal(s, host)
  {
    hide Consume, ExtractFrame;
    var b := s.inbox.buffer;
    if b != [] && !(READY <= b) && MAGIC <= b && s.inbox.services && ExtractFrame(b).Complete? {
      EarlyIsServed(s.inbox, ExtractFrame(b).frame, ExtractFrame(b).rest, host);
      assert S.Scan(s.inbox, host) == S.Scan(S.TakeEarly(s.inbox, ExtractFrame(b).frame, ExtractFrame(b).rest, host), host);
      hide S.Scan, S.TakeEarly;
    }
  }

  /** A complete frame before readiness is refused or is served like any call. */
  lemma EarlyIsServed(inbox: S.Inbound, f: Frame, rest: seq<Byte>, host: Host)
    requires inbox.receiver.failure.None?
    ensures var call, left := HostCall(f, Reception.Startup), inbox.(buffer := rest);
            S.Scan(S.TakeEarly(inbox, f, rest, host), host) ==
            if f.messageType != HOST_SERVICE_REQUEST then S.Fail(left, NotHostService)
            else Served(Counting(left, call), inbox.receiver.dispatched, call, host)
  {
    hide Consume, ExtractFrame;
    var call, left := HostCall(f, Reception.Startup), inbox.(buffer := rest);
    var taken := S.TakeEarly(inbox, f, rest, host);
    if S.Failed(taken) {
      assert S.Scan(taken, host) == taken;
    } else {
      assert taken == Counting(left, call);
    }
    hide S.Scan;
  }

  lemma ExtractStep(s: State, host: Host)
    requires Undisturbed(s) && s.reader.Consuming?
    ensures Undisturbed(ExtractOne(s)) && Goal(ExtractOne(s), host) == Goal(s, host)
  {
    hide ExtractFrame, Reject, Counted, S.Scan;
    var r := s.inbox.receiver;
    CountedQuiet(r);
    if Reject(r).None? && ExtractFrame(r.buffer).Complete? {
      var f, rest := ExtractFrame(r.buffer).frame, ExtractFrame(r.buffer).rest;
      HostIDs(r);
      TakenIsServed(r, f, rest, host);
      assert Consume(r, host) == Consume(Take(Counted(r), f, rest, host), host);
      hide Consume, Take;
    }
  }

  /** A complete frame after readiness is the awaited response, is refused, or is served. */
  lemma TakenIsServed(r: Receiver, f: Frame, rest: seq<Byte>, host: Host)
    requires r.failure.None? && (f.messageType == HOST_SERVICE_REQUEST ==> f.requestID != 0)
    ensures var left, call := r.(buffer := rest, counted := 0), HostCall(f, if r.pending then Exchange else Background);
            Consume(Take(Counted(r), f, rest, host), host) ==
            if f.messageType == HOST_SERVICE_REQUEST then
              var counted := left.(dispatched := r.dispatched + [call]);
              (if host(r.dispatched, call).Some? then counted.(failure := host(r.dispatched, call)) else Consume(counted, host))
            else if !r.pending || r.response.Some? then left.(failure := Some(UnexpectedResponse))
            else Consume(left.(pending := false, response := Some(f)), host)
  {
    hide ExtractFrame, Reject, Counted;
    CountedQuiet(r);
    var taken := Take(Counted(r), f, rest, host);
    if taken.failure.Some? {
      assert Consume(taken, host) == taken;
    }
    hide Consume;
  }

  /** A host request that the header test lets through has an ID. */
  lemma HostIDs(r: Receiver)
    requires Reject(r).None? && ExtractFrame(r.buffer).Complete?
    ensures var f := ExtractFrame(r.buffer).frame;
            f.messageType == HOST_SERVICE_REQUEST ==> f.requestID != 0
  {
    hide ReadHeader;
    ExtractedHeader(r.buffer);
  }

  lemma ServeStep(s: State, host: Host)
    requires Undisturbed(s) && s.reader.Serving?
    ensures Undisturbed(BeginHost(s)) && Goal(BeginHost(s), host) == Goal(s, host)
  {
    hide Consume, S.Scan;
    var d := s.inbox.receiver.dispatched;
    assert (d + [s.reader.call])[..|d|] == d;
  }

  lemma ReplyStep(s: State, response: Frame, host: Host)
    requires Undisturbed(s) && s.reader.Hosting? && s.reader.call.frame.requestID != 0
    requires host(Earlier(s), s.reader.call) == QueueRefuses(s, Wire(response))
    ensures Undisturbed(ReplyHost(s, response)) && Goal(ReplyHost(s, response), host) == Goal(s, host)
  {
    hide Consume, S.Scan, Enqueue;
  }

  lemma FailStep(s: State, cause: Failure, host: Host)
    requires Undisturbed(s) && s.reader.Hosting?
    requires host(Earlier(s), s.reader.call) == Some(cause) && (s.reader.call.frame.requestID == 0 ==> cause == ZeroHostID)
    ensures var t := FinishHost(s).(reader := Stopping(cause));
            Undisturbed(t) && Goal(t, host) == Goal(s, host)
  {
    hide Consume, S.Scan;
  }

  lemma AnyStep(s: State, a: Action, host: Host)
    requires Undisturbed(s) && Enabled(s, a) && ReaderStep(a)
    requires Verdict(s, a).Some? && s.reader.Hosting? ==> host(Earlier(s), s.reader.call) == Verdict(s, a).value
    ensures Undisturbed(Apply(s, a)) && Goal(Apply(s, a), host) == Goal(s, host)
  {
    hide Goal, Undisturbed, ScanOne, ExtractOne, BeginHost, ReplyHost, FinishHost, QueueRefuses;
    match a
    case ScanStartup => ScanStep(s, host);
    case Extract => ExtractStep(s, host);
    case HostBegin => ServeStep(s, host);
    case HostReply(response) => ReplyStep(s, response, host);
    case HostFailed(cause) => FailStep(s, cause, host);
    case HostRelease => ReleaseStep(s, host);
  }

  lemma ReleaseStep(s: State, host: Host)
    requires Undisturbed(s) && s.reader.Releasing?
    ensures var t := FinishHost(s).(reader := Stopping(s.reader.cause));
            Undisturbed(t) && Goal(t, host) == Goal(s, host)
  {
    hide Consume, S.Scan;
  }

  lemma {:induction false} ReaderAlone(s: State, actions: seq<Action>, host: Host)
    requires Undisturbed(s) && Legal(s, actions) && AllReaderSteps(actions) && Agrees(s, actions, host)
    requires Resting(Execute(s, actions).reader)
    ensures Settled(Execute(s, actions)) == Goal(s, host)
    decreases |actions|
  {
    hide Undisturbed, Apply, Enabled, Goal;
    if actions == [] {
      AtRest(s, host);
    } else {
      AnyStep(s, actions[0], host);
      ReaderAlone(Apply(s, actions[0]), actions[1..], host);
    }
  }

  lemma AtRest(s: State, host: Host)
    requires Resting(s.reader)
    ensures Settled(s) == Goal(s, host)
  {
    hide Consume, S.Scan;
  }

  // ---------------------------------------------------------------- the host of a run

  /** How the calls of a run were answered, in order. */
  ghost function Verdicts(s: State, actions: seq<Action>): seq<Option<Failure>>
    requires Legal(s, actions)
    decreases |actions|
  {
    if actions == [] then []
    else
      (if Verdict(s, actions[0]).Some? then [Verdict(s, actions[0]).value] else []) +
      Verdicts(Apply(s, actions[0]), actions[1..])
  }

  /** Answers the call after `base` others with the first verdict, and so on. */
  function Answering(base: nat, verdicts: seq<Option<Failure>>): Host {
    (earlier, call) => if base <= |earlier| < base + |verdicts| then verdicts[|earlier| - base] else None
  }

  ghost predicate AnswersFrom(host: Host, base: nat, verdicts: seq<Option<Failure>>) {
    forall earlier, call :: base <= |earlier| < base + |verdicts| ==> host(earlier, call) == verdicts[|earlier| - base]
  }

  /** The calls counted before the next verdict. */
  function Next(s: State): nat {
    |Earlier(s)|
  }

  lemma {:induction false} HostOfRun(s: State, actions: seq<Action>, host: Host)
    requires Legal(s, actions) && AllReaderSteps(actions) && (s.reader.Hosting? ==> s.inbox.receiver.dispatched != [])
    requires AnswersFrom(host, Next(s), Verdicts(s, actions))
    ensures Agrees(s, actions, host)
    decreases |actions|
  {
    hide Apply, Enabled, Verdict, Earlier, AnswersFrom;
    if actions != [] {
      var a, t := actions[0], Apply(s, actions[0]);
      NextCounts(s, a);
      AnswersNext(host, Next(s), Verdict(s, a), Verdicts(t, actions[1..]));
      HostOfRun(t, actions[1..], host);
      if Verdict(s, a).Some? {
        AnswersFirst(host, Earlier(s), s.reader.call, Verdicts(s, actions));
      }
    }
  }

  lemma AnswersFirst(host: Host, earlier: seq<HostCall>, call: HostCall, verdicts: seq<Option<Failure>>)
    requires AnswersFrom(host, |earlier|, verdicts) && verdicts != []
    ensures host(earlier, call) == verdicts[0]
  {
  }

  lemma AnswersNext(host: Host, base: nat, verdict: Option<Option<Failure>>, rest: seq<Option<Failure>>)
    requires AnswersFrom(host, base, (if verdict.Some? then [verdict.value] else []) + rest)
    ensures AnswersFrom(host, base + (if verdict.Some? then 1 else 0), rest)
  {
    if verdict.None? {
      assert [] + rest == rest;
    }
  }

  lemma NextCounts(s: State, a: Action)
    requires Enabled(s, a) && ReaderStep(a) && (s.reader.Hosting? ==> s.inbox.receiver.dispatched != [])
    ensures var t := Apply(s, a);
            Next(t) == Next(s) + (if Verdict(s, a).Some? then 1 else 0) &&
            (t.reader.Hosting? ==> t.inbox.receiver.dispatched != []) && (Verdict(s, a).Some? ==> s.reader.Hosting?)
  {
    hide ScanOne, ExtractOne, Enqueue;
    if a.Extract? { ExtractMoves(s); }
    if a.ScanStartup? { ScanMoves(s); }
  }

  lemma ScanMoves(s: State)
    requires s.reader.Scanning?
    ensures ScanOne(s).inbox.receiver.dispatched == s.inbox.receiver.dispatched && !ScanOne(s).reader.Hosting?
  {
    hide ExtractFrame;
  }

  /** From the moment bytes are read until the reader is done with them, with no other thread between its steps, the
      incoming half becomes exactly what feeding it those bytes gives, for a host that answers as this one did. */
  lemma ReaderRunIsFeed(s: State, incoming: seq<Byte>, count: nat, actions: seq<Action>)
    requires s.reader.Pumping? && count <= |s.reader.outgoing| && s.inbox.receiver.failure.None?
    requires Legal(TakeIn(s, incoming, count), actions) && AllReaderSteps(actions)
    requires Resting(Execute(TakeIn(s, incoming, count), actions).reader)
    ensures var begun := TakeIn(s, incoming, count);
            var host := Answering(|s.inbox.receiver.dispatched|, Verdicts(begun, actions));
            Settled(Execute(begun, actions)) == S.Feed(s.inbox, incoming, host)
  {
    hide Legal, Execute, Consume, S.Scan, Verdicts, AllReaderSteps;
    var begun := TakeIn(s, incoming, count);
    var host := Answering(|s.inbox.receiver.dispatched|, Verdicts(begun, actions));
    HostOfRun(begun, actions, host);
    ReaderAlone(begun, actions, host);
  }

  /** Chunk boundaries make no difference to the machine either: reading `a` and later `b` leaves the incoming half as
      reading both at once does, whatever the write queue and the pump were doing meanwhile. */
  lemma ChunkedRuns(s: State, a: seq<Byte>, m: nat, first: seq<Action>, later: State, b: seq<Byte>, n: nat,
                    second: seq<Action>, once: State, k: nat, whole: seq<Action>, host: Host)
    requires Sends(s, m) && Sends(later, n) && Sends(once, k) && once.inbox == s.inbox
    requires s.inbox.receiver.failure.None?
    requires Handles(TakeIn(s, a, m), first, host) && Execute(TakeIn(s, a, m), first).reader.Advancing?
    requires later.inbox == Execute(TakeIn(s, a, m), first).inbox && later.inbox.receiver.failure.None?
    requires Handles(TakeIn(later, b, n), second, host) && Handles(TakeIn(once, a + b, k), whole, host)
    ensures S.Same(Settled(Execute(TakeIn(later, b, n), second)), Settled(Execute(TakeIn(once, a + b, k), whole)), [])
  {
    hide Legal, Execute, Consume, S.Scan, AllReaderSteps, S.Feed, S.Same, Agrees;
    TakenInIsFed(s, a, m, first, host);
    TakenInIsFed(later, b, n, second, host);
    TakenInIsFed(once, a + b, k, whole, host);
    S.ChunkIndependent(s.inbox, a, b, host);
  }

  /** A run of the reader alone that `host` answers and that comes to rest. */
  ghost predicate Handles(s: State, actions: seq<Action>, host: Host) {
    Legal(s, actions) && AllReaderSteps(actions) && Agrees(s, actions, host) && Resting(Execute(s, actions).reader)
  }

  /** The pump is out, and may send this many bytes. */
  predicate Sends(s: State, count: nat) {
    s.reader.Pumping? && count <= |s.reader.outgoing|
  }

  lemma TakenInIsFed(s: State, incoming: seq<Byte>, count: nat, actions: seq<Action>, host: Host)
    requires Sends(s, count) && s.inbox.receiver.failure.None? && Handles(TakeIn(s, incoming, count), actions, host)
    ensures Settled(Execute(TakeIn(s, incoming, count), actions)) == S.Feed(s.inbox, incoming, host)
  {
    hide Legal, Execute, Consume, S.Scan, AllReaderSteps, Agrees;
    ReaderAlone(TakeIn(s, incoming, count), actions, host);
  }
}
