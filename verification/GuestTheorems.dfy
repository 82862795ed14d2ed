/** What the guest kernel keeps on the serial line, over every input it can be sent. */
module GuestTheorems {
  import opened Bytes
  import opened Listing
  import opened Framing
  import opened GuestSpec
  import Utf8
  import Snapshot
  import Calls
  import Decimal

  // ---------------------------------------------------------------- what a tool may answer

  lemma {:induction false} LinesLength(l: seq<File>, prefix: seq<Byte>)
    requires forall i :: 0 <= i < |l| ==> |l[i].path| <= Listing.MAX_PATH
    ensures |Lines(l, prefix)| <= |l| * (Listing.MAX_PATH + 1)
  {
    if l != [] { LinesLength(l[..|l| - 1], prefix); }
  }

  lemma {:induction false} AsciiValid(s: seq<Byte>)
    requires forall i :: 0 <= i < |s| ==> s[i] < 0x80
    ensures Utf8.Valid(s)
  {
    if s != [] {
      Utf8.ValidAscii(s[0]);
      AsciiValid(s[1..]);
      Utf8.ValidConcat([s[0]], s[1..]);
      assert s == [s[0]] + s[1..];
    }
  }

  lemma ServiceNamesValid()
    ensures Calls.ValidName(BUILD) && Calls.ValidName(FINISH) && Calls.ValidName(FEATURE)
  {
    hide Utf8.Valid;
    AsciiValid(BUILD);
    AsciiValid(FINISH);
    AsciiValid(FEATURE);
  }

  /** Everything a tool answers fits a frame, keeps the store valid, and asks the host only well-formed questions. */
  ghost predicate Proper(r: Reaction) {
    match r
    case Reply(status, output, files) => |output| <= MAX_PAYLOAD - 4 && Listing.Valid(files)
    case AskHost(service) => Calls.WellFormed(service, Calls.MAX_HOST_ARGUMENTS) && |Calls.Wire(service)| <= MAX_PAYLOAD
  }

  lemma ListProper(l: seq<File>, arguments: seq<seq<Byte>>)
    requires Listing.Valid(l)
    ensures Proper(ListTool(l, arguments))
  {
    hide Utf8.Valid, Less, TotalSize;
    var prefix := if |arguments| == 1 then arguments[0] else [];
    LinesLength(l, prefix);
    assert |l| * 256 <= 128 * 256;
  }

  lemma ReadProper(l: seq<File>, arguments: seq<seq<Byte>>)
    requires Listing.Valid(l)
    ensures Proper(ReadTool(l, arguments))
  {
    hide Utf8.Valid, Less, Decimal.Parse;
    forall i | 0 <= i < |l| ensures |l[i].content| <= CAPACITY {
      TotalSizeAround(l, i);
    }
  }

  lemma ChangeProper(l: seq<File>, op: Op)
    requires Listing.Valid(l)
    ensures Proper(Done(l, Attempt(l, op)))
  {
    hide Less, TotalSize;
    AttemptRefinesMap(l, op);
  }

  lemma SnapshotArgument(l: seq<File>)
    requires Listing.Valid(l)
    ensures |SourceSnapshot(l)| < 0x1_0000_0000
  {
    Snapshot.GuestSnapshotFits(l);
  }

  lemma InvokeProper(l: seq<File>, call: Calls.Call)
    requires Listing.Valid(l)
    ensures Proper(Invoke(l, call))
  {
    hide Utf8.Valid, Less, TotalSize, Decimal.Parse, ListTool, ReadTool, Listing.Valid, SourceSnapshot;
    ServiceNamesValid();
    SnapshotArgument(l);
    var a := call.arguments;
    ListProper(l, a);
    ReadProper(l, a);
    if |a| >= 1 { ChangeProper(l, RemoveOp(a[0])); }
    if |a| >= 2 && Decimal.Parse(a[1]).Some? {
      ChangeProper(l, TruncateOp(a[0], Decimal.Parse(a[1]).value));
      if |a| >= 3 { ChangeProper(l, WriteOp(a[0], Decimal.Parse(a[1]).value, a[2])); }
    }
  }

  // ---------------------------------------------------------------- one message

  /** The properties of whatever one message makes the kernel do. */
  lemma ServeProper(st: State, raw: RawHeader, payload: seq<Byte>)
    requires Good(st)
    ensures match Serve(st, raw, payload)
            case Silent => true
            case Answer(reply, next) => Sendable(reply) && Good(next) && next.nextID == st.nextID
            case Call(request, next) =>
              Sendable(request) && Good(next) && next.files == st.files && request.messageType == HOST_SERVICE_REQUEST &&
              request.requestID == st.nextID && Calls.Parse(Calls.MAX_HOST_ARGUMENTS, request.payload).Some?
  {
    hide Listing.Valid, Invoke, ToolListResponse, Calls.Wire;
    var call := Calls.Parse(Calls.MAX_TOOL_ARGUMENTS, payload);
    if call.Some? {
      InvokeProper(st.files, call.value);
      var r := Invoke(st.files, call.value);
      if r.AskHost? { Calls.ParseWire(Calls.MAX_HOST_ARGUMENTS, r.service); }
    }
  }

  lemma RelayedFits(hostID: U32, toolID: U32, answer: Frame)
    requires Sendable(answer)
    ensures var reply := RelayedReply(hostID, toolID, answer);
            Sendable(reply) && reply.messageType == INVOKE_TOOL_RESPONSE && reply.requestID == toolID &&
            |reply.payload| >= 4
  {
  }

  // ---------------------------------------------------------------- framing of the output

  /** An unfinished frame: part of the wire form of a frame, but not all of it. */
  ghost predicate Unfinished(b: seq<Byte>) {
    exists f: Frame :: Sendable(f) && b <= Wire(f) && |b| < |Wire(f)|
  }

  /** A relay that still waits has written nothing or the start of a tool response. */
  lemma WaitingIsUnfinished(hostID: U32, toolID: U32, input: seq<Byte>)
    requires RelayBytes(hostID, toolID, input).Waiting?
    ensures Unfinished(RelayBytes(hostID, toolID, input).written)
  {
    var written := RelayBytes(hostID, toolID, input).written;
    if written == [] {
      assert [] <= Wire(FailureResponse(toolID));
    } else {
      var raw := ReadHeader(input);
      var payload := input[HEADER_SIZE..] + Zeros(HEADER_SIZE + raw.length - |input|);
      var f := Frame(INVOKE_TOOL_RESPONSE, toolID, payload);
      assert |payload| == raw.length;
      assert Wire(f) == written + Zeros(HEADER_SIZE + raw.length - |input|);
    }
  }

  /** For every input at all, well-formed or not, the output is whole frames with the announced payload
      lengths, followed by at most one unfinished frame. */
  lemma {:induction false} OutputIsFramed(st: State, input: seq<Byte>) returns (frames: seq<Frame>, tail: seq<Byte>)
    requires Good(st)
    ensures AllSendable(frames) && KernelRun(st, input).output == WireAll(frames) + tail
    ensures Unfinished(tail)
    ensures Good(KernelRun(st, input).state)
    decreases |input|
  {
    hide Serve, Good, RelayBytes, Wire, WireAll, AllSendable, Unfinished, ReadHeader;
    NothingIsUnfinished();
    NoFrames();
    frames, tail := [], [];
    if |input| >= HEADER_SIZE {
      var raw := ReadHeader(input);
      var end := HEADER_SIZE + raw.length;
      if raw.length <= MAX_PAYLOAD && |input| >= end {
        ServeProper(st, raw, input[HEADER_SIZE..end]);
        match Serve(st, raw, input[HEADER_SIZE..end])
        case Silent =>
          frames, tail := OutputIsFramed(st, input[end..]);
        case Answer(reply, next) =>
          var fs, t := OutputIsFramed(next, input[end..]);
          frames, tail := [reply] + fs, t;
          FramesCons(reply, fs, t);
        case Call(request, next) =>
          frames, tail := CallIsFramed(request, next, raw.requestID, input[end..]);
      }
    }
  }

  lemma {:induction false} CallIsFramed(request: Frame, next: State, toolID: U32, input: seq<Byte>)
    returns (frames: seq<Frame>, tail: seq<Byte>)
    requires Good(next) && Sendable(request)
    ensures AllSendable(frames) && Unfinished(tail)
    ensures match RelayBytes(request.requestID, toolID, input)
            case Waiting(written) => Wire(request) + written == WireAll(frames) + tail
            case Fatal => Wire(request) == WireAll(frames) + tail
            case Relayed(reply, rest) =>
              Wire(request) + Wire(reply) + KernelRun(next, rest).output == WireAll(frames) + tail &&
              Good(KernelRun(next, rest).state)
    decreases |input|
  {
    hide Serve, Good, RelayBytes, Wire, WireAll, AllSendable, Unfinished;
    NothingIsUnfinished();
    NoFrames();
    assert [request] + [] == [request];
    match RelayBytes(request.requestID, toolID, input)
    case Waiting(written) =>
      WaitingIsUnfinished(request.requestID, toolID, input);
      FramesCons(request, [], written);
      assert [] + written == written;
      frames, tail := [request], written;
    case Fatal =>
      FramesCons(request, [], []);
      frames, tail := [request], [];
    case Relayed(reply, rest) =>
      RelayedSendable(request.requestID, toolID, input);
      var fs, t := OutputIsFramed(next, rest);
      FramesCons(reply, fs, t);
      FramesCons(request, [reply] + fs, t);
      frames, tail := [request] + ([reply] + fs), t;
  }

  lemma RelayedSendable(hostID: U32, toolID: U32, input: seq<Byte>)
    requires RelayBytes(hostID, toolID, input).Relayed?
    ensures var r := RelayBytes(hostID, toolID, input);
            Sendable(r.reply) && r.reply.messageType == INVOKE_TOOL_RESPONSE && r.reply.requestID == toolID
    ensures |RelayBytes(hostID, toolID, input).rest| < |input|
  {
  }

  lemma NothingIsUnfinished()
    ensures Unfinished([])
  {
    assert [] <= Wire(FailureResponse(1));
  }

  lemma NoFrames()
    ensures WireAll([]) == [] && AllSendable([])
  {
  }

  lemma FramesCons(f: Frame, fs: seq<Frame>, tail: seq<Byte>)
    ensures WireAll([f] + fs) + tail == Wire(f) + (WireAll(fs) + tail)
    ensures Sendable(f) && AllSendable(fs) ==> AllSendable([f] + fs)
  {
    assert ([f] + fs)[1..] == fs;
  }

  // ---------------------------------------------------------------- the loop on whole frames

  /** One round of the loop: the frame read, the host call nested in it, and the reply. */
  datatype Exchange = Exchange(request: Frame, nested: Option<Nested>, reply: Option<Frame>)
  datatype Nested = Nested(asked: Frame, answer: Frame)

  /** Rounds completed, the round that waits for the host if any, and the state. */
  datatype Progress = Progress(rounds: seq<Exchange>, waiting: Option<(Frame, Frame)>, state: State)

  function Received(f: Frame): RawHeader
    requires Sendable(f)
  {
    RawHeader(true, VERSION, f.messageType, f.requestID, |f.payload|)
  }

  function Then(x: Exchange, p: Progress): Progress {
    p.(rounds := [x] + p.rounds)
  }

  /** The kernel frame by frame: every frame is either read by the loop or is the host's answer. */
  ghost function Play(st: State, fs: seq<Frame>): Progress
    requires AllSendable(fs)
    decreases |fs|
  {
    if fs == [] then Progress([], None, st)
    else match Serve(st, Received(fs[0]), fs[0].payload)
      case Silent => Then(Exchange(fs[0], None, None), Play(st, fs[1..]))
      case Answer(reply, next) => Then(Exchange(fs[0], None, Some(reply)), Play(next, fs[1..]))
      case Call(asked, next) =>
        if |fs| == 1 then Progress([], Some((fs[0], asked)), next)
        else
          var reply := RelayedReply(asked.requestID, fs[0].requestID, fs[1]);
          Then(Exchange(fs[0], Some(Nested(asked, fs[1])), Some(reply)), Play(next, fs[2..]))
  }

  function FramesIn(rounds: seq<Exchange>): seq<Frame> {
    if rounds == [] then []
    else
      var x := rounds[0];
      [x.request] + (if x.nested.Some? then [x.nested.value.answer] else []) + FramesIn(rounds[1..])
  }

  function FramesOut(rounds: seq<Exchange>): seq<Frame> {
    if rounds == [] then []
    else
      var x := rounds[0];
      (if x.nested.Some? then [x.nested.value.asked] else []) + (if x.reply.Some? then [x.reply.value] else []) +
      FramesOut(rounds[1..])
  }

  function AskedSoFar(p: Progress): seq<Frame> {
    FramesOut(p.rounds) + if p.waiting.Some? then [p.waiting.value.1] else []
  }

  function ReadSoFar(p: Progress): seq<Frame> {
    FramesIn(p.rounds) + if p.waiting.Some? then [p.waiting.value.0] else []
  }

  lemma ServeWire(st: State, f: Frame, rest: seq<Byte>)
    requires Sendable(f)
    ensures KernelRun(st, Wire(f) + rest) == Resume(Serve(st, Received(f), f.payload), st, f.requestID, rest)
  {
    hide Serve, RelayBytes, KernelRun;
    var input := Wire(f) + rest;
    WireHeader(f, rest);
    var end := HEADER_SIZE + |f.payload|;
    assert input[HEADER_SIZE..end] == f.payload && input[end..] == rest;
    RunStep(st, input);
  }

  lemma RelayWire(hostID: U32, toolID: U32, answer: Frame, rest: seq<Byte>)
    requires Sendable(answer)
    ensures RelayBytes(hostID, toolID, Wire(answer) + rest) == Relayed(RelayedReply(hostID, toolID, answer), rest)
  {
    hide RelayedReply;
    var input := Wire(answer) + rest;
    WireHeader(answer, rest);
    var end := HEADER_SIZE + |answer.payload|;
    assert input[HEADER_SIZE..end] == answer.payload && input[end..] == rest;
  }

  /** What follows the last whole frame, on either reader. */
  lemma PartialWaits(st: State, hostID: U32, toolID: U32, partial: seq<Byte>)
    requires ExtractFrame(partial).Incomplete?
    ensures KernelRun(st, partial) == Outcome([], st, false) && RelayBytes(hostID, toolID, partial).Waiting?
  {
  }

  /** What a waiting relay has already written of its reply. */
  function Pending(p: Progress, partial: seq<Byte>): seq<Byte> {
    if p.waiting.None? then []
    else
      var (request, asked) := p.waiting.value;
      match RelayBytes(asked.requestID, request.requestID, partial)
      case Waiting(written) => written
      case _ => []
  }

  /** The bytes of the run are those of the rounds, and the frames of the rounds are those sent. */
  ghost predicate AlignedWith(p: Progress, o: Outcome, fs: seq<Frame>, partial: seq<Byte>) {
    !o.halted && o.state == p.state && ReadSoFar(p) == fs &&
    o.output == WireAll(AskedSoFar(p)) + Pending(p, partial) && Unfinished(Pending(p, partial))
  }

  lemma RoundSilent(f: Frame, q: Progress, o: Outcome, fs: seq<Frame>, partial: seq<Byte>)
    requires AlignedWith(q, o, fs, partial)
    ensures AlignedWith(Then(Exchange(f, None, None), q), o, [f] + fs, partial)
  {
    hide Wire, WireAll, Unfinished, RelayBytes;
    var p := Then(Exchange(f, None, None), q);
    assert p.rounds[1..] == q.rounds;
    assert AskedSoFar(p) == AskedSoFar(q) && ReadSoFar(p) == [f] + ReadSoFar(q);
  }

  lemma RoundAnswer(f: Frame, reply: Frame, q: Progress, o: Outcome, fs: seq<Frame>, partial: seq<Byte>)
    requires AlignedWith(q, o, fs, partial)
    ensures AlignedWith(Then(Exchange(f, None, Some(reply)), q), After(Wire(reply), o), [f] + fs, partial)
  {
    hide Wire, WireAll, Unfinished, RelayBytes, AllSendable;
    var p := Then(Exchange(f, None, Some(reply)), q);
    assert p.rounds[1..] == q.rounds;
    assert AskedSoFar(p) == [reply] + AskedSoFar(q) && ReadSoFar(p) == [f] + ReadSoFar(q);
    FramesCons(reply, AskedSoFar(q), Pending(q, partial));
  }

  lemma RoundCall(f: Frame, asked: Frame, answer: Frame, reply: Frame, q: Progress, o: Outcome, fs: seq<Frame>,
                  partial: seq<Byte>)
    requires AlignedWith(q, o, fs, partial)
    ensures AlignedWith(Then(Exchange(f, Some(Nested(asked, answer)), Some(reply)), q),
                        After(Wire(asked) + Wire(reply), o), [f, answer] + fs, partial)
  {
    hide Wire, WireAll, Unfinished, RelayBytes, AllSendable;
    var p := Then(Exchange(f, Some(Nested(asked, answer)), Some(reply)), q);
    assert p.rounds[1..] == q.rounds;
    assert AskedSoFar(p) == [asked] + ([reply] + AskedSoFar(q)) && ReadSoFar(p) == [f, answer] + ReadSoFar(q);
    FramesCons(asked, [reply] + AskedSoFar(q), Pending(q, partial));
    FramesCons(reply, AskedSoFar(q), Pending(q, partial));
  }

  /** A call whose answer has not arrived in full. */
  lemma RoundWaits(f: Frame, asked: Frame, next: State, partial: seq<Byte>)
    requires ExtractFrame(partial).Incomplete?
    ensures AlignedWith(Progress([], Some((f, asked)), next),
                        ResumeCall(asked, next, RelayBytes(asked.requestID, f.requestID, partial)), [f], partial)
  {
    hide ExtractFrame, RelayBytes, Wire, Unfinished;
    PartialWaits(next, asked.requestID, f.requestID, partial);
    WaitingIsUnfinished(asked.requestID, f.requestID, partial);
    var p := Progress([], Some((f, asked)), next);
    assert AskedSoFar(p) == [asked] && ReadSoFar(p) == [f];
    assert WireAll([asked]) == Wire(asked) by { assert [asked][1..] == []; }
  }

  /** Input stays frame-aligned through nested host calls: on any well-formed host frames, with any part of a
      next one behind them, the bytes written are those of the frame-level rounds and at most the start of one
      more reply, the frames read are exactly the frames sent, in order, and the kernel has not halted. */
  lemma {:induction false} Aligned(st: State, fs: seq<Frame>, partial: seq<Byte>)
    requires AllSendable(fs) && ExtractFrame(partial).Incomplete?
    ensures AlignedWith(Play(st, fs), KernelRun(st, WireAll(fs) + partial), fs, partial)
    decreases |fs|
  {
    hide Serve, RelayBytes, RelayedReply, Wire, ExtractFrame, Unfinished, AlignedWith, KernelRun;
    if fs == [] {
      AlignedNothing(st, partial);
    } else {
      var f, rest := fs[0], WireAll(fs[1..]) + partial;
      assert WireAll(fs) + partial == Wire(f) + rest;
      ServeWire(st, f, rest);
      assert fs == [f] + fs[1..];
      match Serve(st, Received(f), f.payload)
      case Silent =>
        Aligned(st, fs[1..], partial);
        RoundSilent(f, Play(st, fs[1..]), KernelRun(st, rest), fs[1..], partial);
      case Answer(reply, next) =>
        Aligned(next, fs[1..], partial);
        RoundAnswer(f, reply, Play(next, fs[1..]), KernelRun(next, rest), fs[1..], partial);
      case Call(asked, next) =>
        if |fs| == 1 {
          assert rest == partial && fs == [f];
          RoundWaits(f, asked, next, partial);
        } else {
          AlignedCall(f, asked, next, fs[1..], partial);
          assert fs[1..][1..] == fs[2..] && [f, fs[1]] + fs[2..] == fs;
        }
    }
  }

  lemma AlignedNothing(st: State, partial: seq<Byte>)
    requires ExtractFrame(partial).Incomplete?
    ensures AlignedWith(Play(st, []), KernelRun(st, WireAll([]) + partial), [], partial)
  {
    NothingIsUnfinished();
    assert WireAll([]) + partial == partial;
    PartialWaits(st, 0, 0, partial);
  }

  lemma {:induction false} AlignedCall(f: Frame, asked: Frame, next: State, fs: seq<Frame>, partial: seq<Byte>)
    requires AllSendable(fs) && fs != [] && ExtractFrame(partial).Incomplete?
    ensures var reply := RelayedReply(asked.requestID, f.requestID, fs[0]);
            AlignedWith(Then(Exchange(f, Some(Nested(asked, fs[0])), Some(reply)), Play(next, fs[1..])),
                        ResumeCall(asked, next, RelayBytes(asked.requestID, f.requestID, WireAll(fs) + partial)),
                        [f, fs[0]] + fs[1..], partial)
    decreases |fs|
  {
    hide Serve, RelayBytes, RelayedReply, Wire, ExtractFrame, Unfinished, AlignedWith, KernelRun;
    var tail := WireAll(fs[1..]) + partial;
    assert WireAll(fs) + partial == Wire(fs[0]) + tail;
    RelayWire(asked.requestID, f.requestID, fs[0], tail);
    Aligned(next, fs[1..], partial);
    var reply := RelayedReply(asked.requestID, f.requestID, fs[0]);
    RoundCall(f, asked, fs[0], reply, Play(next, fs[1..]), KernelRun(next, tail), fs[1..], partial);
  }

  // ---------------------------------------------------------------- one response per invocation

  /** A valid invocation gets exactly one response with its ID, after at most one host request, whose ID is not
      zero and which the host can decode; a listing request gets the tool list; nothing else gets an answer. */
  ghost predicate WellServed(x: Exchange) {
    if x.request.messageType == INVOKE_TOOL_REQUEST && x.request.requestID != 0 then
      x.reply.Some? && x.reply.value.messageType == INVOKE_TOOL_RESPONSE &&
      x.reply.value.requestID == x.request.requestID && Sendable(x.reply.value) && |x.reply.value.payload| >= 4 &&
      (x.nested.Some? ==> GoodQuestion(x.nested.value.asked))
    else if x.request.messageType == LIST_TOOLS_REQUEST && x.request.requestID != 0 && x.request.payload == [] then
      x.nested.None? && x.reply == Some(ToolListResponse(x.request.requestID))
    else x.nested.None? && x.reply.None?
  }

  ghost predicate GoodQuestion(asked: Frame) {
    asked.messageType == HOST_SERVICE_REQUEST && asked.requestID != 0 && Sendable(asked) &&
    Calls.Parse(Calls.MAX_HOST_ARGUMENTS, asked.payload).Some?
  }

  lemma ServeAnswers(st: State, f: Frame)
    requires Good(st) && Sendable(f)
    ensures match Serve(st, Received(f), f.payload)
            case Silent => WellServed(Exchange(f, None, None))
            case Answer(reply, _) => WellServed(Exchange(f, None, Some(reply)))
            case Call(asked, _) => f.messageType == INVOKE_TOOL_REQUEST && f.requestID != 0 && GoodQuestion(asked)
  {
    hide React, ToolListResponse, Listing.Valid;
    ServeProper(st, Received(f), f.payload);
  }

  lemma {:induction false} EveryRoundWellServed(st: State, fs: seq<Frame>)
    requires Good(st) && AllSendable(fs)
    ensures var p := Play(st, fs);
            Good(p.state) && (forall i :: 0 <= i < |p.rounds| ==> WellServed(p.rounds[i])) &&
            (p.waiting.Some? ==> GoodQuestion(p.waiting.value.1))
    decreases |fs|
  {
    hide Serve, RelayedReply, GoodQuestion, ToolListResponse;
    if fs != [] {
      ServeAnswers(st, fs[0]);
      ServeProper(st, Received(fs[0]), fs[0].payload);
      match Serve(st, Received(fs[0]), fs[0].payload)
      case Silent => EveryRoundWellServed(st, fs[1..]);
      case Answer(reply, next) => EveryRoundWellServed(next, fs[1..]);
      case Call(asked, next) =>
        if |fs| > 1 {
          EveryRoundWellServed(next, fs[2..]);
          RelayedFits(asked.requestID, fs[0].requestID, fs[1]);
        }
    }
  }
}
