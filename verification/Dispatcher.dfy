/** The host's dispatcher as a machine of its lock-held steps, from power-on: one reader, one exchange at a time, a
    write queue, and any interleaving of them. */
module Dispatcher {
  import opened Bytes
  import opened Framing
  import opened Reception
  import S = Startup

  const MAX_QUEUED_WRITES := 8
  const MAX_QUEUED_BYTES := 32 * 1024 * 1024 + 8 * HEADER_SIZE
  const WRITE_CHUNK := 16 * 1024

  datatype Phase = WriteCompleted | WriteFailed | WriteCancelled | WriteStalled

  datatype Write = Write(data: seq<Byte>, hostResponse: bool, requestID: U32, offset: nat, terminal: Option<Phase>)

  /** The write queue and its count, and what has become of earlier writes: those finished, the bytes on the wire, how
      many of them the write at the front does not count yet, and the terminal phases recorded. */
  datatype Outgoing = Outgoing(
    writes: seq<Write>,
    queuedBytes: nat,
    finished: seq<Write>,
    wire: seq<Byte>,
    ahead: nat,
    terminals: seq<(nat, Phase)>)

  /** Where the reader is in its loop; `head` says that a write was being pumped, `sent` how much of it went out. */
  datatype Reader =
    | Idle
    | Pumping(outgoing: seq<Byte>, head: bool)
    | Scanning(head: bool, sent: nat)
    | Consuming(head: bool, sent: nat)
    | Serving(call: HostCall, head: bool, sent: nat)
    | Hosting(call: HostCall, head: bool, sent: nat)
    | Releasing(cause: Failure)
    | Advancing(head: bool, sent: nat)
    | Stopping(cause: Failure)
    | Dead

  /** Where the one active exchange is: not queued yet, waiting on its write and response, about to abort after it has
      timed out, or about to let go. */
  datatype Stage = Begun | Waiting(write: nat) | Aborting(cause: Failure) | Ending(queued: bool, result: Option<Frame>)
  datatype Talk = Talk(request: Frame, stage: Stage)

  datatype State = State(
    inbox: S.Inbound,
    closing: bool,
    out: Outgoing,
    hostActive: nat,
    hostWindow: nat,
    reader: Reader,
    talk: Option<Talk>,
    returned: seq<(Frame, Frame)>,
    abandoned: seq<Frame>)

  datatype Action =
    | PumpStart
    | PumpDone(incoming: seq<Byte>, count: nat)
    | PumpQuiet(count: nat)
    | PumpFailed(count: nat)
    | ScanStartup
    | Extract
    | HostBegin
    | HostReply(response: Frame)
    | HostFailed(cause: Failure)
    | HostRelease
    | Advance
    | AdvanceRefused
    | WriteStall
    | ReaderFail
    | ExchangeBegin(request: Frame)
    | ExchangeQueue
    | ExchangeReturn
    | ExchangeFailed
    | ExchangeCancel
    | ExchangeTimeout
    | ExchangeAbort
    | ExchangeEnd
    | Close

  /** `request.MessageType | 0x8000`. */
  function ResponseType(messageType: U16): U16 {
    if messageType < 0x8000 then messageType + 0x8000 else messageType
  }

  // ---------------------------------------------------------------- the write queue

  /** `recordWriteTerminalLocked` on the write at the front, if there is one. */
  function EndFront(o: Outgoing, phase: Phase): Outgoing {
    if o.writes == [] || o.writes[0].terminal.Some? then o
    else o.(writes := [o.writes[0].(terminal := Some(phase))] + o.writes[1..],
            terminals := o.terminals + [(|o.finished|, phase)])
  }

  function Enqueue(o: Outgoing, data: seq<Byte>, hostResponse: bool, requestID: U32): Outgoing {
    o.(writes := o.writes + [Write(data, hostResponse, requestID, 0, None)], queuedBytes := o.queuedBytes + |data|)
  }

  /** The next chunk of the write at the front. */
  function Chunk(o: Outgoing): seq<Byte>
    requires o.writes != [] ==> o.writes[0].offset <= |o.writes[0].data|
  {
    if o.writes == [] then []
    else o.writes[0].data[o.writes[0].offset..Min(|o.writes[0].data|, o.writes[0].offset + WRITE_CHUNK)]
  }

  function Sent(o: Outgoing, chunk: seq<Byte>): Outgoing {
    o.(wire := o.wire + chunk, ahead := |chunk|)
  }

  function MoveFront(o: Outgoing, sent: nat): Outgoing
    requires o.writes != []
  {
    o.(writes := [o.writes[0].(offset := o.writes[0].offset + sent)] + o.writes[1..], ahead := 0)
  }

  /** The write at the front is out: it ends and leaves the queue. */
  function PopFront(o: Outgoing): Outgoing
    requires o.writes != []
  {
    var ended := EndFront(o, WriteCompleted);
    ended.(writes := ended.writes[1..], queuedBytes := Monus(o.queuedBytes, |o.writes[0].data|),
           finished := o.finished + [ended.writes[0]])
  }

  predicate FrontOut(o: Outgoing, sent: nat)
    requires o.writes != []
  {
    o.writes[0].offset + sent == |o.writes[0].data|
  }

  function Monus(a: nat, b: nat): nat {
    if b <= a then a - b else 0
  }

  // ---------------------------------------------------------------- parts of steps

  function WithReceiver(s: State, r: Receiver): State {
    s.(inbox := s.inbox.(receiver := r))
  }

  function SetFailure(s: State, failure: Failure): State {
    if s.inbox.receiver.failure.Some? then s else WithReceiver(s, s.inbox.receiver.(failure := Some(failure)))
  }

  /** `finishHostServiceLocked`. */
  function FinishHost(s: State): State {
    if s.hostActive > 0 then s.(hostActive := s.hostActive - 1, hostWindow := s.hostWindow + 1) else s
  }

  /** Why `queueWrite` refuses. */
  function QueueRefuses(s: State, data: seq<Byte>): Option<Failure> {
    if s.inbox.receiver.failure.Some? then s.inbox.receiver.failure
    else if s.closing then Some(Closed)
    else if |s.out.writes| >= MAX_QUEUED_WRITES || |data| > MAX_QUEUED_BYTES - s.out.queuedBytes then Some(QueueFull)
    else None
  }

  /** `advanceWrite` on the write at the front. */
  function AdvanceHead(s: State, sent: nat): State
    requires s.out.writes != []
  {
    var moved := s.(out := MoveFront(s.out, sent));
    if !FrontOut(s.out, sent) then moved
    else
      var popped := s.(out := PopFront(MoveFront(s.out, sent)));
      if s.out.writes[0].hostResponse then FinishHost(popped) else popped
  }

  /** `fail`. */
  function ReaderFailed(s: State, cause: Failure): State {
    if s.closing then s.(reader := Dead)
    else
      SetFailure(s.(out := EndFront(s.out, WriteFailed), hostWindow := s.hostWindow + s.hostActive, hostActive := 0,
                    reader := Dead), cause)
  }

  /** One round of `consumeStartup`. */
  function ScanOne(s: State): State
    requires s.reader.Scanning?
  {
    var head, sent, buffer := s.reader.head, s.reader.sent, s.inbox.buffer;
    if buffer == [] then s.(reader := Advancing(head, sent))
    else if READY <= buffer then s.(inbox := S.BecomeReady(s.inbox), reader := Consuming(head, sent))
    else if MAGIC <= buffer && s.inbox.services then
      match ExtractFrame(buffer)
      case Malformed(error) => s.(reader := Stopping(BadHeader(error)))
      case Incomplete => s.(reader := Advancing(head, sent))
      case Complete(f, rest) =>
        s.(inbox := s.inbox.(buffer := rest),
           reader := if f.messageType != HOST_SERVICE_REQUEST then Stopping(NotHostService)
                     else Serving(HostCall(f, Reception.Startup), head, sent))
    else if buffer <= READY || (s.inbox.services && buffer <= MAGIC) then s.(reader := Advancing(head, sent))
    else s.(inbox := S.Drop(s.inbox))
  }

  /** One round of `consumeFrames`. */
  function ExtractOne(s: State): State
    requires s.reader.Consuming?
  {
    var head, sent, r := s.reader.head, s.reader.sent, s.inbox.receiver;
    if r.failure.Some? then s.(reader := Stopping(r.failure.value))
    else match Reject(r)
      case Some(failure) => s.(reader := Stopping(failure))
      case None =>
        match ExtractFrame(r.buffer)
        case Malformed(error) => WithReceiver(s, Counted(r)).(reader := Stopping(BadHeader(error)))
        case Incomplete => WithReceiver(s, Counted(r)).(reader := Advancing(head, sent))
        case Complete(f, rest) =>
          var r := r.(buffer := rest, counted := 0);
          if f.messageType == HOST_SERVICE_REQUEST then
            WithReceiver(s, r).(reader := Serving(HostCall(f, if r.pending then Exchange else Background), head, sent))
          else if !r.pending || r.response.Some? then WithReceiver(s, r).(reader := Stopping(UnexpectedResponse))
          else WithReceiver(s, r.(pending := false, response := Some(f)))
  }

  /** Where the reader goes on after it has queued the answer to a call. */
  function Resume(call: HostCall, head: bool, sent: nat): Reader {
    if call.scope == Reception.Startup then Scanning(head, sent) else Consuming(head, sent)
  }

  /** `dispatchHostService` counts the call. */
  function BeginHost(s: State): State
    requires s.reader.Serving?
  {
    var r := s.inbox.receiver;
    WithReceiver(s, r.(dispatched := r.dispatched + [s.reader.call]))
      .(hostActive := s.hostActive + 1, reader := Hosting(s.reader.call, s.reader.head, s.reader.sent))
  }

  /** `dispatchHostService` queues the answer, or is refused and has yet to let go of the call. */
  function ReplyHost(s: State, response: Frame): State
    requires s.reader.Hosting?
  {
    var refused := QueueRefuses(s, Wire(response));
    if refused.Some? then s.(reader := Releasing(refused.value))
    else s.(out := Enqueue(s.out, Wire(response), true, response.requestID),
            reader := Resume(s.reader.call, s.reader.head, s.reader.sent))
  }

  /** The pump has sent `count` bytes and read some, which `consumeIncoming` appends. */
  function TakeIn(s: State, incoming: seq<Byte>, count: nat): State
    requires s.reader.Pumping? && count <= |s.reader.outgoing|
  {
    var r := s.inbox.receiver;
    var inbox := if s.inbox.ready then s.inbox.(receiver := r.(buffer := r.buffer + incoming))
                 else s.inbox.(buffer := s.inbox.buffer + incoming);
    s.(out := Sent(s.out, s.reader.outgoing[..count]), inbox := inbox,
       reader := if s.inbox.ready then Consuming(s.reader.head, count) else Scanning(s.reader.head, count))
  }

  function BeginTalk(s: State, request: Frame): State {
    var r := s.inbox.receiver;
    WithReceiver(s, r.(pending := true, pendingID := request.requestID, pendingType := ResponseType(request.messageType),
                       response := None))
      .(talk := Some(Talk(request, Begun)))
  }

  function AtStage(s: State, stage: Stage): State
    requires s.talk.Some?
  {
    s.(talk := Some(s.talk.value.(stage := stage)))
  }

  /** `queueWrite` for the request of the exchange. */
  function QueueTalk(s: State): State
    requires s.talk.Some?
  {
    var request := s.talk.value.request;
    if !Sendable(request) || QueueRefuses(s, Wire(request)).Some? then AtStage(s, Ending(false, None))
    else
      AtStage(s.(out := Enqueue(s.out, Wire(request), false, request.requestID)),
              Waiting(|s.out.finished| + |s.out.writes|))
  }

  /** `abortExchange`. */
  function Abort(s: State, cause: Failure): State {
    SetFailure(s.(out := EndFront(s.out, WriteCancelled)), cause)
  }

  function EndTalk(s: State): State
    requires s.talk.Some? && s.talk.value.stage.Ending?
  {
    var Talk(request, stage) := s.talk.value;
    var ended := WithReceiver(s, s.inbox.receiver.(pending := false, response := None)).(talk := None);
    if stage.result.Some? then ended.(returned := s.returned + [(request, stage.result.value)])
    else if stage.queued then ended.(abandoned := s.abandoned + [request])
    else ended
  }

  function CloseNow(s: State): State {
    if s.closing then s
    else SetFailure(s.(closing := true, out := EndFront(s.out, WriteCancelled)), Closed)
  }

  // ---------------------------------------------------------------- steps

  predicate Waits(talk: Option<Talk>) {
    talk.Some? && talk.value.stage.Waiting?
  }

  predicate WriteDone(s: State) {
    Waits(s.talk) && s.talk.value.stage.write < |s.out.finished|
  }

  predicate Enabled(s: State, a: Action) {
    match a
    case PumpStart => s.reader.Idle? && (s.out.writes != [] ==> s.out.writes[0].offset <= |s.out.writes[0].data|)
    case PumpDone(_, count) => s.reader.Pumping? && count <= |s.reader.outgoing|
    case PumpQuiet(count) => s.reader.Pumping? && count <= |s.reader.outgoing|
    case PumpFailed(count) => s.reader.Pumping? && count <= |s.reader.outgoing|
    case ScanStartup => s.reader.Scanning?
    case Extract => s.reader.Consuming?
    case HostBegin => s.reader.Serving?
    case HostReply(response) => s.reader.Hosting? && s.reader.call.frame.requestID != 0 && Sendable(response)
    case HostFailed(cause) => s.reader.Hosting? && (s.reader.call.frame.requestID == 0 ==> cause == ZeroHostID)
    case HostRelease => s.reader.Releasing?
    case Advance => s.reader.Advancing? && (s.reader.head ==> s.out.writes != [])
    case AdvanceRefused => s.reader.Advancing?
    case WriteStall => s.reader.Advancing? && s.reader.head && s.reader.sent == 0
    case ReaderFail => s.reader.Stopping?
    case ExchangeBegin(_) => s.talk.None? && s.inbox.ready && s.inbox.receiver.failure.None? && !s.closing
    case ExchangeQueue => s.talk.Some? && s.talk.value.stage.Begun?
    case ExchangeReturn => WriteDone(s) && s.inbox.receiver.failure.None? && s.inbox.receiver.response.Some?
    case ExchangeFailed => Waits(s.talk) && s.inbox.receiver.failure.Some?
    case ExchangeCancel => Waits(s.talk)
    case ExchangeTimeout =>
      WriteDone(s) && s.inbox.receiver.failure.None? && s.inbox.receiver.response.None? && s.hostActive == 0
    case ExchangeAbort => s.talk.Some? && s.talk.value.stage.Aborting?
    case ExchangeEnd => s.talk.Some? && s.talk.value.stage.Ending?
    case Close => true
  }

  function Apply(s: State, a: Action): State
    requires Enabled(s, a)
  {
    match a
    case PumpStart => s.(reader := if s.closing then Dead else Pumping(Chunk(s.out), s.out.writes != []))
    case PumpDone(incoming, count) => TakeIn(s, incoming, count)
    case PumpQuiet(count) =>
      s.(out := Sent(s.out, s.reader.outgoing[..count]), reader := Advancing(s.reader.head, count))
    case PumpFailed(count) =>
      s.(out := Sent(s.out, s.reader.outgoing[..count]), reader := Stopping(TransportFailed))
    case ScanStartup => ScanOne(s)
    case Extract => ExtractOne(s)
    case HostBegin => BeginHost(s)
    case HostReply(response) => ReplyHost(s, response)
    case HostFailed(cause) => FinishHost(s).(reader := Stopping(cause))
    case HostRelease => FinishHost(s).(reader := Stopping(s.reader.cause))
    case Advance => (if s.reader.head then AdvanceHead(s, s.reader.sent) else s).(reader := Idle)
    case AdvanceRefused => s.(reader := Stopping(TransportFailed))
    case WriteStall => s.(out := EndFront(s.out, WriteStalled), reader := Stopping(WriteTimedOut))
    case ReaderFail => ReaderFailed(s, s.reader.cause)
    case ExchangeBegin(request) => BeginTalk(s, request)
    case ExchangeQueue => QueueTalk(s)
    case ExchangeReturn => AtStage(s, Ending(true, s.inbox.receiver.response))
    case ExchangeFailed => AtStage(s, Ending(true, None))
    case ExchangeCancel => AtStage(Abort(s, Cancelled), Ending(true, None))
    case ExchangeTimeout => AtStage(SetFailure(s, ResponseTimedOut), Aborting(ResponseTimedOut))
    case ExchangeAbort => AtStage(Abort(s, s.talk.value.stage.cause), Ending(true, None))
    case ExchangeEnd => EndTalk(s)
    case Close => CloseNow(s)
  }

  // ---------------------------------------------------------------- what every step keeps

  function DataOf(ws: seq<Write>): seq<Byte> {
    if ws == [] then [] else DataOf(ws[..|ws| - 1]) + ws[|ws| - 1].data
  }

  function BytesOf(ws: seq<Write>): nat {
    if ws == [] then 0 else BytesOf(ws[..|ws| - 1]) + |ws[|ws| - 1].data|
  }

  function HostWrites(ws: seq<Write>): nat {
    if ws == [] then 0 else HostWrites(ws[..|ws| - 1]) + if ws[|ws| - 1].hostResponse then 1 else 0
  }

  /** The count agrees with the queue, which stays within both limits. */
  ghost predicate QueueInv(o: Outgoing) {
    |o.writes| <= MAX_QUEUED_WRITES && o.queuedBytes == BytesOf(o.writes) <= MAX_QUEUED_BYTES
  }

  /** What has gone out: every finished write and the start of the one at the front. */
  ghost predicate WireInv(o: Outgoing) {
    (o.writes == [] ==> o.ahead == 0) &&
    (o.writes != [] ==> o.writes[0].offset + o.ahead <= |o.writes[0].data|) &&
    (forall k :: 1 <= k < |o.writes| ==> o.writes[k].offset == 0) &&
    o.wire == DataOf(o.finished) + if o.writes == [] then [] else o.writes[0].data[..o.writes[0].offset + o.ahead]
  }

  /** A write has at most one terminal phase, a finished one exactly one. */
  ghost predicate TerminalInv(o: Outgoing) {
    (forall i, j :: 0 <= i < j < |o.terminals| ==> o.terminals[i].0 != o.terminals[j].0) &&
    (forall i :: 0 <= i < |o.terminals| ==>
      o.terminals[i].0 < |o.finished| || (o.terminals[i].0 == |o.finished| && o.writes != [] && o.writes[0].terminal.Some?)) &&
    (forall k :: 0 <= k < |o.finished| ==>
      o.finished[k].terminal.Some? && (k, o.finished[k].terminal.value) in o.terminals) &&
    (o.writes != [] && o.writes[0].terminal.Some? ==> (|o.finished|, o.writes[0].terminal.value) in o.terminals) &&
    (forall k :: 1 <= k < |o.writes| ==> o.writes[k].terminal.None?)
  }

  ghost predicate OutInv(o: Outgoing) {
    QueueInv(o) && WireInv(o) && TerminalInv(o)
  }

  function InFlight(r: Reader): nat {
    match r
    case Scanning(_, sent) => sent
    case Consuming(_, sent) => sent
    case Serving(_, _, sent) => sent
    case Hosting(_, _, sent) => sent
    case Advancing(_, sent) => sent
    case _ => 0
  }

  function HasHead(r: Reader): bool {
    match r
    case Pumping(_, head) => head
    case Scanning(head, _) => head
    case Consuming(head, _) => head
    case Serving(_, head, _) => head
    case Hosting(_, head, _) => head
    case Advancing(head, _) => head
    case _ => false
  }

  predicate Lost(r: Reader) {
    r.Releasing? || r.Stopping? || r.Dead?
  }

  /** The reader pumps the write at the front and no other, and knows how much of it is out. */
  ghost predicate ReaderInv(o: Outgoing, r: Reader) {
    (HasHead(r) ==> o.writes != []) &&
    (r.Pumping? ==>
      o.ahead == 0 &&
      (if r.head then o.writes[0].offset <= |o.writes[0].data| && r.outgoing <= o.writes[0].data[o.writes[0].offset..]
       else r.outgoing == [])) &&
    (!Lost(r) ==> o.ahead == InFlight(r)) && (!HasHead(r) ==> InFlight(r) == 0)
  }

  /** Every host request is either being served or has been, and the guard on finishing one never bites. */
  ghost predicate HostInv(active: nat, window: nat, dispatched: nat, queued: nat, r: Reader) {
    active + window == dispatched && (!r.Dead? ==> active == queued + if r.Hosting? || r.Releasing? then 1 else 0)
  }

  predicate Answers(request: Frame, response: Frame) {
    response.requestID == request.requestID && response.messageType == ResponseType(request.messageType)
  }

  /** The slot: what is pending or has arrived belongs to the exchange that is active, and there is none before
      readiness. */
  ghost predicate SlotInv(ready: bool, pending: bool, id: U32, kind: U16, response: Option<Frame>, failed: bool,
                          talk: Option<Talk>) {
    (talk.Some? ==> ready) && (pending || response.Some? ==> talk.Some?) &&
    (pending ==> response.None? && id == talk.value.request.requestID && kind == ResponseType(talk.value.request.messageType)) &&
    (response.Some? ==> Answers(talk.value.request, response.value)) &&
    (talk.Some? && talk.value.stage.Aborting? ==> failed) &&
    (talk.Some? && talk.value.stage.Ending? ==>
      (talk.value.stage.result.Some? ==> Answers(talk.value.request, talk.value.stage.result.value)) &&
      (talk.value.stage.result.None? && talk.value.stage.queued ==> failed))
  }

  /** The write numbered `k` since the start. */
  function NthWrite(o: Outgoing, k: nat): Write
    requires k < |o.finished| + |o.writes|
  {
    if k < |o.finished| then o.finished[k] else o.writes[k - |o.finished|]
  }

  /** A waiting exchange waits for the write of its own request. */
  ghost predicate RequestInv(o: Outgoing, talk: Option<Talk>) {
    Waits(talk) ==>
      talk.value.stage.write < |o.finished| + |o.writes| &&
      NthWrite(o, talk.value.stage.write).data == Wire(talk.value.request)
  }

  /** What exchanges were given answers them, and an abandoned one leaves the dispatcher failed. */
  ghost predicate PastInv(returned: seq<(Frame, Frame)>, abandoned: seq<Frame>, failed: bool) {
    (forall i :: 0 <= i < |returned| ==> Answers(returned[i].0, returned[i].1)) && (abandoned != [] ==> failed)
  }

  ghost predicate TalkInv(inbox: S.Inbound, talk: Option<Talk>, returned: seq<(Frame, Frame)>, abandoned: seq<Frame>) {
    var r := inbox.receiver;
    SlotInv(inbox.ready, r.pending, r.pendingID, r.pendingType, r.response, r.failure.Some?, talk) &&
    PastInv(returned, abandoned, r.failure.Some?)
  }

  ghost predicate Inv(s: State) {
    OutInv(s.out) && ReaderInv(s.out, s.reader) && RequestInv(s.out, s.talk) &&
    TalkInv(s.inbox, s.talk, s.returned, s.abandoned) &&
    HostInv(s.hostActive, s.hostWindow, |s.inbox.receiver.dispatched|, HostWrites(s.out.writes), s.reader)
  }

  // ---------------------------------------------------------------- queue arithmetic

  lemma Appended(ws: seq<Write>, w: Write)
    ensures DataOf(ws + [w]) == DataOf(ws) + w.data && BytesOf(ws + [w]) == BytesOf(ws) + |w.data|
    ensures HostWrites(ws + [w]) == HostWrites(ws) + if w.hostResponse then 1 else 0
  {
    assert (ws + [w])[..|ws|] == ws;
  }

  lemma {:induction false} Joined(a: seq<Write>, b: seq<Write>)
    ensures DataOf(a + b) == DataOf(a) + DataOf(b) && BytesOf(a + b) == BytesOf(a) + BytesOf(b)
    ensures HostWrites(a + b) == HostWrites(a) + HostWrites(b)
  {
    hide DataOf, BytesOf, HostWrites;
    if b == [] {
      assert a + b == a;
      NoWrites();
    } else {
      var front, last := b[..|b| - 1], b[|b| - 1];
      Joined(a, front);
      Appended(front, last);
      Appended(a + front, last);
      assert b == front + [last];
      assert a + b == a + front + [last];
    }
  }

  lemma FrontFirst(ws: seq<Write>)
    requires ws != []
    ensures DataOf(ws) == ws[0].data + DataOf(ws[1..])
    ensures BytesOf(ws) == |ws[0].data| + BytesOf(ws[1..])
    ensures HostWrites(ws) == (if ws[0].hostResponse then 1 else 0) + HostWrites(ws[1..])
  {
    hide DataOf, BytesOf, HostWrites;
    assert ws == [ws[0]] + ws[1..];
    Joined([ws[0]], ws[1..]);
    Appended([], ws[0]);
    NoWrites();
    assert [] + [ws[0]] == [ws[0]];
  }

  lemma NoWrites()
    ensures DataOf([]) == [] && BytesOf([]) == 0 && HostWrites([]) == 0
  {
  }

  /** Changing the progress or the phase of the first write changes nothing that is counted. */
  lemma FrontChanged(ws: seq<Write>, head: Write)
    requires ws != [] && head.data == ws[0].data && head.hostResponse == ws[0].hostResponse
    ensures BytesOf([head] + ws[1..]) == BytesOf(ws) && HostWrites([head] + ws[1..]) == HostWrites(ws)
    ensures DataOf([head] + ws[1..]) == DataOf(ws)
  {
    hide DataOf, BytesOf, HostWrites;
    FrontFirst(ws);
    FrontFirst([head] + ws[1..]);
    assert ([head] + ws[1..])[1..] == ws[1..];
  }

  // ---------------------------------------------------------------- the queue keeps it

  /** The first write may have changed its progress or phase; the others are as they were. */
  ghost predicate SameWrites(o: Outgoing, p: Outgoing) {
    |p.writes| == |o.writes| && p.finished == o.finished &&
    (forall k :: 0 <= k < |o.writes| ==>
      p.writes[k].data == o.writes[k].data && p.writes[k].hostResponse == o.writes[k].hostResponse) &&
    HostWrites(p.writes) == HostWrites(o.writes)
  }

  lemma EndFrontKeeps(o: Outgoing, phase: Phase)
    requires OutInv(o)
    ensures var p := EndFront(o, phase);
            OutInv(p) && SameWrites(o, p) && p.ahead == o.ahead &&
            (p.writes != [] ==> p.writes[0].offset == o.writes[0].offset && p.writes[0].terminal.Some?)
  {
    hide DataOf, BytesOf, HostWrites;
    if o.writes != [] && o.writes[0].terminal.None? {
      FrontChanged(o.writes, o.writes[0].(terminal := Some(phase)));
      EndedOnce(o, phase);
      hide TerminalInv;
    }
  }

  lemma EndedOnce(o: Outgoing, phase: Phase)
    requires TerminalInv(o) && o.writes != [] && o.writes[0].terminal.None?
    ensures TerminalInv(EndFront(o, phase))
  {
    var p := EndFront(o, phase);
    assert p.terminals[|o.terminals|] == (|o.finished|, phase);
    forall k | 0 <= k < |o.finished|
      ensures (k, p.finished[k].terminal.value) in p.terminals
    {
      assert (k, o.finished[k].terminal.value) in o.terminals;
    }
  }

  lemma EnqueueKeeps(o: Outgoing, data: seq<Byte>, hostResponse: bool, requestID: U32)
    requires OutInv(o) && |o.writes| < MAX_QUEUED_WRITES && |data| <= MAX_QUEUED_BYTES - o.queuedBytes
    ensures var p := Enqueue(o, data, hostResponse, requestID);
            OutInv(p) && HostWrites(p.writes) == HostWrites(o.writes) + if hostResponse then 1 else 0
  {
    hide DataOf, BytesOf, HostWrites;
    Appended(o.writes, Write(data, hostResponse, requestID, 0, None));
  }

  lemma SentKeeps(o: Outgoing, r: Reader, count: nat)
    requires OutInv(o) && ReaderInv(o, r) && r.Pumping? && count <= |r.outgoing|
    ensures OutInv(Sent(o, r.outgoing[..count]))
  {
    hide DataOf, BytesOf, TerminalInv;
    var p := Sent(o, r.outgoing[..count]);
    SameTerminals(o, p);
    if r.head {
      var head := o.writes[0];
      assert r.outgoing[..count] == head.data[head.offset..][..count];
      assert head.data[..head.offset] + r.outgoing[..count] == head.data[..head.offset + count];
      assert o.wire == DataOf(o.finished) + head.data[..head.offset];
    }
  }

  lemma SameTerminals(o: Outgoing, p: Outgoing)
    requires p.writes == o.writes && p.finished == o.finished && p.terminals == o.terminals
    ensures TerminalInv(o) ==> TerminalInv(p)
  {
  }

  lemma MoveKeeps(o: Outgoing, sent: nat)
    requires OutInv(o) && o.writes != [] && o.ahead == sent
    ensures var p := MoveFront(o, sent);
            OutInv(p) && SameWrites(o, p) && p.ahead == 0 && p.writes[0].offset <= |p.writes[0].data| &&
            p.writes[0].offset == o.writes[0].offset + sent
  {
    hide DataOf, BytesOf, HostWrites;
    FrontChanged(o.writes, o.writes[0].(offset := o.writes[0].offset + sent));
    MovedTerminals(o, sent);
    hide TerminalInv;
  }

  lemma MovedTerminals(o: Outgoing, sent: nat)
    requires TerminalInv(o) && o.writes != []
    ensures TerminalInv(MoveFront(o, sent))
  {
  }

  /** A write that has gone out whole leaves the queue. */
  lemma PopKeeps(o: Outgoing)
    requires OutInv(o) && o.writes != [] && o.writes[0].offset == |o.writes[0].data| && o.ahead == 0
    ensures var p := PopFront(o);
            OutInv(p) && p.ahead == 0 && |p.finished| == |o.finished| + 1 && |p.writes| == |o.writes| - 1 &&
            HostWrites(o.writes) == HostWrites(p.writes) + if o.writes[0].hostResponse then 1 else 0
  {
    hide DataOf, BytesOf, HostWrites, OutInv, SameWrites;
    EndFrontKeeps(o, WriteCompleted);
    var e := EndFront(o, WriteCompleted);
    EndedPops(e);
    hide TerminalInv;
    assert e.queuedBytes == o.queuedBytes && e.writes[0].hostResponse == o.writes[0].hostResponse &&
           e.writes[0].data == o.writes[0].data && HostWrites(e.writes) == HostWrites(o.writes) by { EndedSame(o); }
  }

  lemma EndedSame(o: Outgoing)
    requires OutInv(o) && o.writes != []
    ensures var e := EndFront(o, WriteCompleted);
            e.queuedBytes == o.queuedBytes && e.writes[0].hostResponse == o.writes[0].hostResponse &&
            e.writes[0].data == o.writes[0].data && e.finished == o.finished && HostWrites(e.writes) == HostWrites(o.writes)
  {
    EndFrontKeeps(o, WriteCompleted);
  }

  function Popped(e: Outgoing): Outgoing
    requires e.writes != []
  {
    e.(writes := e.writes[1..], queuedBytes := Monus(e.queuedBytes, |e.writes[0].data|), finished := e.finished + [e.writes[0]])
  }

  lemma EndedPops(e: Outgoing)
    requires OutInv(e) && e.writes != [] && e.writes[0].offset == |e.writes[0].data| && e.ahead == 0
    requires e.writes[0].terminal.Some?
    ensures OutInv(Popped(e)) && Popped(e).ahead == 0
    ensures HostWrites(e.writes) == HostWrites(e.writes[1..]) + if e.writes[0].hostResponse then 1 else 0
  {
    hide DataOf, BytesOf, HostWrites;
    FrontFirst(e.writes);
    Appended(e.finished, e.writes[0]);
    assert e.writes[0].data[..|e.writes[0].data|] == e.writes[0].data;
    PoppedTerminals(e);
    hide TerminalInv;
  }

  lemma PoppedTerminals(e: Outgoing)
    requires TerminalInv(e) && e.writes != [] && e.writes[0].terminal.Some?
    ensures TerminalInv(Popped(e))
  {
  }

  lemma QueuedAtLeastHead(o: Outgoing)
    requires QueueInv(o) && o.writes != []
    ensures o.queuedBytes >= |o.writes[0].data|
  {
    FrontFirst(o.writes);
  }

  // ---------------------------------------------------------------- the reader keeps it

  lemma PumpStartKeeps(s: State)
    requires Inv(s) && s.reader.Idle?
    ensures Enabled(s, PumpStart) && Inv(Apply(s, PumpStart))
  {
    hide DataOf, HostWrites, TerminalInv, QueueInv, TalkInv, RequestInv;
  }

  lemma PumpedKeeps(s: State, t: State, count: nat)
    requires Inv(s) && s.reader.Pumping? && count <= |s.reader.outgoing|
    requires t == s.(out := Sent(s.out, s.reader.outgoing[..count]), inbox := t.inbox, reader := t.reader)
    requires t.inbox == s.inbox.(buffer := t.inbox.buffer, receiver := s.inbox.receiver.(buffer := t.inbox.receiver.buffer))
    requires t.reader.Consuming? || t.reader.Scanning? || t.reader.Advancing?
    requires t.reader.head == s.reader.head && t.reader.sent == count
    ensures Inv(t)
  {
    hide OutInv, HostWrites;
    SentKeeps(s.out, s.reader, count);
    assert RequestInv(t.out, t.talk) by { hide Wire; }
    hide RequestInv, SlotInv, PastInv;
  }

  /** Steps that move the reader and look at nothing it shares. */
  lemma MovedKeeps(s: State, r: Reader)
    requires Inv(s) && ReaderInv(s.out, r)
    requires (r.Hosting? || r.Releasing?) == (s.reader.Hosting? || s.reader.Releasing?) && !s.reader.Dead?
    ensures Inv(s.(reader := r))
  {
    hide OutInv, RequestInv, TalkInv, HostWrites, ReaderInv;
  }

  lemma LostReader(o: Outgoing, s: Reader, r: Reader)
    requires ReaderInv(o, s)
    ensures Lost(r) ==> ReaderInv(o, r)
    ensures HasHead(r) == HasHead(s) && InFlight(r) == InFlight(s) && !Lost(s) && !s.Pumping? && !r.Pumping? ==> ReaderInv(o, r)
  {
  }

  lemma ScanKeeps(s: State)
    requires Inv(s) && s.reader.Scanning?
    ensures Inv(ScanOne(s))
  {
    hide OutInv, RequestInv, HostWrites, ReaderInv, ExtractFrame;
    var t := ScanOne(s);
    LostReader(s.out, s.reader, t.reader);
    ScanTalk(s);
    hide TalkInv;
  }

  lemma ScanTalk(s: State)
    requires TalkInv(s.inbox, s.talk, s.returned, s.abandoned) && s.reader.Scanning?
    ensures var t := ScanOne(s);
            TalkInv(t.inbox, t.talk, t.returned, t.abandoned)
  {
    hide ExtractFrame, PastInv;
  }

  lemma ExtractKeeps(s: State)
    requires Inv(s) && s.reader.Consuming?
    ensures Inv(ExtractOne(s))
  {
    hide OutInv, RequestInv, TalkInv, HostWrites, ReaderInv, ExtractOne;
    var t := ExtractOne(s);
    ExtractTalk(s);
    ExtractMoves(s);
    LostReader(s.out, s.reader, t.reader);
  }

  lemma ExtractMoves(s: State)
    requires s.reader.Consuming?
    ensures var t := ExtractOne(s);
            t == WithReceiver(s, t.inbox.receiver).(reader := t.reader) &&
            t.inbox.receiver.dispatched == s.inbox.receiver.dispatched && !t.reader.Hosting? && !t.reader.Releasing? &&
            (Lost(t.reader) || (HasHead(t.reader) == s.reader.head && InFlight(t.reader) == s.reader.sent && !t.reader.Pumping?))
  {
    hide Reject, ExtractFrame, Counted;
    CountedQuiet(s.inbox.receiver);
  }

  lemma CountedQuiet(r: Receiver)
    ensures Counted(r) == r.(counted := Counted(r).counted)
  {
  }

  /** Only a frame that answers the pending request can become its response. */
  lemma ExtractTalk(s: State)
    requires TalkInv(s.inbox, s.talk, s.returned, s.abandoned) && s.reader.Consuming?
    ensures var t := ExtractOne(s);
            TalkInv(t.inbox, t.talk, t.returned, t.abandoned)
  {
    hide ReadHeader, MagicPrefix, PastInv, Counted;
    CountedQuiet(s.inbox.receiver);
    var r := s.inbox.receiver;
    if r.failure.None? && Reject(r).None? && ExtractFrame(r.buffer).Complete? {
      ExtractedHeader(r.buffer);
    }
    hide ExtractFrame;
  }

  lemma ExtractedHeader(data: seq<Byte>)
    requires ExtractFrame(data).Complete?
    ensures |data| >= HEADER_SIZE && DecodeHeader(data).None?
    ensures var f, raw := ExtractFrame(data).frame, ReadHeader(data);
            f.messageType == raw.messageType && f.requestID == raw.requestID
  {
    hide ReadHeader;
  }

  lemma BeginHostKeeps(s: State)
    requires Inv(s) && s.reader.Serving?
    ensures Inv(BeginHost(s))
  {
    hide OutInv, RequestInv, SlotInv, PastInv, HostWrites, ReaderInv;
    LostReader(s.out, s.reader, BeginHost(s).reader);
  }

  lemma ReplyKeeps(s: State, response: Frame)
    requires Inv(s) && s.reader.Hosting?
    ensures Inv(ReplyHost(s, response))
  {
    hide OutInv, HostWrites, TalkInv;
    if QueueRefuses(s, Wire(response)).Some? {
      hide RequestInv;
    } else {
      var t := ReplyHost(s, response);
      EnqueueKeeps(s.out, Wire(response), true, response.requestID);
      EnqueueRequest(s.out, s.talk, Wire(response), true, response.requestID);
      hide RequestInv;
    }
  }

  lemma EnqueueRequest(o: Outgoing, talk: Option<Talk>, data: seq<Byte>, hostResponse: bool, requestID: U32)
    requires RequestInv(o, talk)
    ensures RequestInv(Enqueue(o, data, hostResponse, requestID), talk)
  {
    hide Wire;
  }

  lemma FinishHostKeeps(s: State, cause: Failure)
    requires Inv(s) && (s.reader.Hosting? || s.reader.Releasing?)
    ensures Inv(FinishHost(s).(reader := Stopping(cause)))
  {
    hide OutInv, RequestInv, HostWrites;
    var t := FinishHost(s).(reader := Stopping(cause));
    hide TalkInv;
  }

  lemma AdvanceKeeps(s: State)
    requires Inv(s) && s.reader.Advancing?
    ensures Enabled(s, Advance) && Inv(Apply(s, Advance))
  {
    hide OutInv, HostWrites, TalkInv, RequestInv, SameWrites;
    if !s.reader.head {
      MovedKeeps(s, Idle);
    } else {
      var sent := s.reader.sent;
      MoveKeeps(s.out, sent);
      var p := MoveFront(s.out, sent);
      SameRequest(s.out, p, s.talk);
      var t := Apply(s, Advance);
      CountedAlike(s.out, p);
      if FrontOut(s.out, sent) {
        PopKeeps(p);
        PopRequest(p, s.talk);
        AdvancedOut(s, t);
      }
    }
  }

  /** The counts after the write at the front has left. */
  lemma AdvancedOut(s: State, t: State)
    requires s.reader.Advancing? && s.reader.head && s.out.writes != [] && FrontOut(s.out, s.reader.sent)
    requires t == AdvanceHead(s, s.reader.sent).(reader := Idle)
    ensures t.out == PopFront(MoveFront(s.out, s.reader.sent)) && t.inbox == s.inbox
    ensures t.hostActive + t.hostWindow == s.hostActive + s.hostWindow
    ensures t.hostActive == Monus(s.hostActive, if s.out.writes[0].hostResponse then 1 else 0)
  {
    hide PopFront, MoveFront;
  }

  lemma CountedAlike(o: Outgoing, p: Outgoing)
    requires SameWrites(o, p)
    ensures HostWrites(p.writes) == HostWrites(o.writes) && |p.writes| == |o.writes| && p.finished == o.finished
    ensures o.writes != [] ==> p.writes[0].hostResponse == o.writes[0].hostResponse && p.writes[0].data == o.writes[0].data
  {
    hide HostWrites;
  }

  lemma SameRequest(o: Outgoing, p: Outgoing, talk: Option<Talk>)
    requires SameWrites(o, p) && RequestInv(o, talk)
    ensures RequestInv(p, talk)
  {
    hide HostWrites, Wire;
  }

  lemma PopRequest(o: Outgoing, talk: Option<Talk>)
    requires o.writes != [] && RequestInv(o, talk)
    ensures RequestInv(PopFront(o), talk)
  {
    hide Wire;
    var e := EndFront(o, WriteCompleted);
    assert forall k :: 0 <= k < |o.writes| ==> e.writes[k].data == o.writes[k].data;
  }

  /** Ending the write at the front, whatever happens to the reader. */
  lemma EndedKeeps(s: State, phase: Phase)
    requires Inv(s)
    ensures Inv(s.(out := EndFront(s.out, phase)))
    ensures HostWrites(EndFront(s.out, phase).writes) == HostWrites(s.out.writes)
  {
    hide OutInv, HostWrites, TalkInv, RequestInv, SameWrites;
    var p := EndFront(s.out, phase);
    EndFrontKeeps(s.out, phase);
    SameRequest(s.out, p, s.talk);
    CountedAlike(s.out, p);
  }

  lemma StallKeeps(s: State)
    requires Inv(s) && Enabled(s, WriteStall)
    ensures Inv(Apply(s, WriteStall))
  {
    hide OutInv, HostWrites, TalkInv, RequestInv, ReaderInv, EndFront;
    EndedKeeps(s, WriteStalled);
    var t := s.(out := EndFront(s.out, WriteStalled));
    LostReader(t.out, t.reader, Stopping(WriteTimedOut));
    MovedKeeps(t, Stopping(WriteTimedOut));
  }

  lemma ReaderFailedKeeps(s: State)
    requires Inv(s) && s.reader.Stopping?
    ensures Inv(ReaderFailed(s, s.reader.cause))
  {
    hide OutInv, HostWrites, TalkInv, RequestInv, ReaderInv, EndFront;
    LostReader(s.out, s.reader, Dead);
    if s.closing {
    } else {
      EndedKeeps(s, WriteFailed);
      var t := s.(out := EndFront(s.out, WriteFailed));
      LostReader(t.out, t.reader, Dead);
      var u := t.(hostWindow := s.hostWindow + s.hostActive, hostActive := 0, reader := Dead);
      SetFailureKeeps(u, s.reader.cause);
    }
  }

  lemma SetFailureKeeps(s: State, failure: Failure)
    requires Inv(s)
    ensures Inv(SetFailure(s, failure)) && SetFailure(s, failure).inbox.receiver.failure.Some?
  {
    hide OutInv, RequestInv, ReaderInv, HostWrites;
  }

  // ---------------------------------------------------------------- exchanges and closing keep it

  lemma ExchangeKeeps(s: State, a: Action)
    requires Inv(s) && Enabled(s, a)
    requires a.ExchangeBegin? || a.ExchangeReturn? || a.ExchangeFailed?
    ensures Inv(Apply(s, a))
  {
    hide OutInv, ReaderInv, HostWrites, PastInv;
  }

  lemma TimeoutKeeps(s: State)
    requires Inv(s) && Enabled(s, ExchangeTimeout)
    ensures Inv(Apply(s, ExchangeTimeout))
  {
    hide OutInv, ReaderInv, HostWrites;
  }

  lemma EndTalkKeeps(s: State)
    requires Inv(s) && Enabled(s, ExchangeEnd)
    ensures Inv(EndTalk(s))
  {
    hide OutInv, ReaderInv, HostWrites;
  }

  lemma QueueTalkKeeps(s: State)
    requires Inv(s) && s.talk.Some? && s.talk.value.stage.Begun?
    ensures Inv(QueueTalk(s))
  {
    hide OutInv, HostWrites, Wire, PastInv;
    var request := s.talk.value.request;
    if Sendable(request) && QueueRefuses(s, Wire(request)).None? {
      EnqueueKeeps(s.out, Wire(request), false, request.requestID);
    }
  }

  lemma AbortKeeps(s: State, cause: Failure)
    requires Inv(s) && s.talk.Some?
    ensures Inv(AtStage(Abort(s, cause), Ending(true, None)))
  {
    hide OutInv, HostWrites, TalkInv, RequestInv, ReaderInv, EndFront;
    EndedKeeps(s, WriteCancelled);
    var t := s.(out := EndFront(s.out, WriteCancelled));
    SetFailureKeeps(t, cause);
    LetGo(SetFailure(t, cause));
  }

  lemma LetGo(s: State)
    requires Inv(s) && s.talk.Some? && s.inbox.receiver.failure.Some?
    ensures Inv(AtStage(s, Ending(true, None)))
  {
    hide OutInv, ReaderInv, HostWrites, PastInv;
  }

  lemma CloseKeeps(s: State)
    requires Inv(s)
    ensures Inv(CloseNow(s))
  {
    hide OutInv, HostWrites, TalkInv, RequestInv, ReaderInv, EndFront;
    if !s.closing {
      EndedKeeps(s, WriteCancelled);
      var t := s.(out := EndFront(s.out, WriteCancelled));
      var u := t.(closing := true);
      SetFailureKeeps(u, Closed);
    }
  }

  /** Every lock-held step of every thread keeps the invariant. */
  lemma StepKeeps(s: State, a: Action)
    requires Inv(s) && Enabled(s, a)
    ensures Inv(Apply(s, a))
  {
    hide Inv, ScanOne, ExtractOne, BeginHost, ReplyHost, QueueTalk;
    hide EndTalk, CloseNow, ReaderFailed, Abort, AtStage, AdvanceHead;
    match a
    case PumpStart => PumpStartKeeps(s);
    case PumpDone(incoming, count) => PumpedKeeps(s, Apply(s, a), count);
    case PumpQuiet(count) => PumpedKeeps(s, Apply(s, a), count);
    case PumpFailed(count) =>
      PumpedKeeps(s, Apply(s, PumpQuiet(count)), count);
      StopKeeps(Apply(s, PumpQuiet(count)), TransportFailed);
    case ScanStartup => ScanKeeps(s);
    case Extract => ExtractKeeps(s);
    case HostBegin => BeginHostKeeps(s);
    case HostReply(response) => ReplyKeeps(s, response);
    case HostFailed(cause) => FinishHostKeeps(s, cause);
    case HostRelease => FinishHostKeeps(s, s.reader.cause);
    case Advance => AdvanceKeeps(s);
    case AdvanceRefused => StopKeeps(s, TransportFailed);
    case WriteStall => StallKeeps(s);
    case ReaderFail => ReaderFailedKeeps(s);
    case ExchangeBegin(_) => ExchangeKeeps(s, a);
    case ExchangeQueue => QueueTalkKeeps(s);
    case ExchangeReturn => ExchangeKeeps(s, a);
    case ExchangeFailed => ExchangeKeeps(s, a);
    case ExchangeCancel => AbortKeeps(s, Cancelled);
    case ExchangeTimeout => TimeoutKeeps(s);
    case ExchangeAbort => AbortKeeps(s, s.talk.value.stage.cause);
    case ExchangeEnd => EndTalkKeeps(s);
    case Close => CloseKeeps(s);
  }

  lemma StopKeeps(s: State, cause: Failure)
    requires Inv(s) && (s.reader.Pumping? || s.reader.Advancing?)
    ensures Inv(s.(reader := Stopping(cause)))
  {
    hide OutInv, RequestInv, TalkInv, HostWrites, ReaderInv;
    LostReader(s.out, s.reader, Stopping(cause));
    MovedKeeps(s, Stopping(cause));
  }

  // ---------------------------------------------------------------- whole runs

  /** A dispatcher whose reader has just started: at power-on, with or without startup services, or on a guest known to
      be ready. */
  ghost predicate Initial(s: State) {
    var r := s.inbox.receiver;
    s.inbox.buffer == [] && s.inbox.diagnostic == [] && r.buffer == [] && r.counted == 0 && r.failure.None? && !r.pending &&
    r.response.None? && r.dispatched == [] && !s.closing && s.out == Outgoing([], 0, [], [], 0, []) && s.hostActive == 0 &&
    s.hostWindow == 0 && s.reader.Idle? && s.talk.None? && s.returned == [] && s.abandoned == []
  }

  ghost predicate Legal(s: State, actions: seq<Action>)
    decreases |actions|
  {
    actions == [] || (Enabled(s, actions[0]) && Legal(Apply(s, actions[0]), actions[1..]))
  }

  ghost function Execute(s: State, actions: seq<Action>): State
    requires Legal(s, actions)
    decreases |actions|
  {
    if actions == [] then s else Execute(Apply(s, actions[0]), actions[1..])
  }

  lemma {:induction false} RunKeeps(s: State, actions: seq<Action>)
    requires Inv(s) && Legal(s, actions)
    ensures Inv(Execute(s, actions))
    decreases |actions|
  {
    hide Inv, Enabled, Apply;
    if actions != [] {
      StepKeeps(s, actions[0]);
      RunKeeps(Apply(s, actions[0]), actions[1..]);
    }
  }

  /** In every interleaving from power-on, the bytes sent are a prefix of the queued frames in the order they were
      queued, the counters agree with the queue and the host calls, no write ends twice, nothing but its own response is
      ever returned to an exchange, no exchange runs before readiness, and an abandoned one leaves the dispatcher
      failed. */
  lemma EveryRunSafe(s: State, actions: seq<Action>)
    requires Initial(s) && Legal(s, actions)
    ensures var t := Execute(s, actions);
            t.out.wire <= DataOf(t.out.finished + t.out.writes) &&
            t.out.queuedBytes == BytesOf(t.out.writes) <= MAX_QUEUED_BYTES && |t.out.writes| <= MAX_QUEUED_WRITES &&
            t.hostActive + t.hostWindow == |t.inbox.receiver.dispatched| &&
            (forall i, j :: 0 <= i < j < |t.out.terminals| ==> t.out.terminals[i].0 != t.out.terminals[j].0) &&
            (forall i :: 0 <= i < |t.returned| ==> Answers(t.returned[i].0, t.returned[i].1)) &&
            (t.talk.Some? ==> t.inbox.ready) && (t.abandoned != [] ==> t.inbox.receiver.failure.Some?)
  {
    hide DataOf, BytesOf, HostWrites, Legal, Execute, ReaderInv, RequestInv;
    InitialInv(s);
    RunKeeps(s, actions);
    SentIsPrefix(Execute(s, actions).out);
  }

  lemma InitialInv(s: State)
    requires Initial(s)
    ensures Inv(s)
  {
    NoWrites();
  }

  lemma SentIsPrefix(o: Outgoing)
    requires WireInv(o)
    ensures o.wire <= DataOf(o.finished + o.writes)
  {
    hide DataOf;
    Joined(o.finished, o.writes);
    if o.writes != [] { FrontFirst(o.writes); }
  }

  /** A failure is for good: no step of any thread clears or replaces it. */
  lemma FailureStays(s: State, a: Action)
    requires Enabled(s, a) && s.inbox.receiver.failure.Some?
    ensures Apply(s, a).inbox.receiver.failure == s.inbox.receiver.failure
  {
    hide Reject, ExtractFrame, Wire, EndFront, MoveFront, PopFront, Enqueue, Chunk, Counted;
    CountedQuiet(s.inbox.receiver);
  }

  /** A second response never replaces the first; only the end of the exchange takes it away. */
  lemma ResponseStays(s: State, a: Action)
    requires Inv(s) && Enabled(s, a) && s.inbox.receiver.response.Some? && !a.ExchangeEnd?
    ensures Apply(s, a).inbox.receiver.response == s.inbox.receiver.response
  {
    hide Inv, ExtractOne, ScanOne, Wire, EndFront, MoveFront, PopFront, Enqueue, Chunk;
    ResponseTaken(s);
    if a.Extract? { ExtractLeaves(s); }
    if a.ScanStartup? { ScanLeaves(s); }
  }

  lemma ExtractLeaves(s: State)
    requires s.reader.Consuming? && s.inbox.receiver.response.Some? && !s.inbox.receiver.pending
    ensures ExtractOne(s).inbox.receiver.response == s.inbox.receiver.response
  {
    hide Reject, ExtractFrame, Counted;
    CountedQuiet(s.inbox.receiver);
  }

  lemma ScanLeaves(s: State)
    requires s.reader.Scanning?
    ensures ScanOne(s).inbox.receiver == s.inbox.receiver.(buffer := ScanOne(s).inbox.receiver.buffer)
  {
    hide ExtractFrame;
  }

  lemma ResponseTaken(s: State)
    requires Inv(s) && s.inbox.receiver.response.Some?
    ensures !s.inbox.receiver.pending && s.talk.Some?
  {
    hide OutInv, ReaderInv, RequestInv, HostInv, PastInv;
  }

  lemma {:induction false} FailureStaysForGood(s: State, actions: seq<Action>)
    requires Legal(s, actions) && s.inbox.receiver.failure.Some?
    ensures Execute(s, actions).inbox.receiver.failure == s.inbox.receiver.failure
    ensures |Execute(s, actions).returned| <= |s.returned| + Owed(s)
    decreases |actions|
  {
    hide Apply, Enabled;
    if actions != [] {
      FailureStays(s, actions[0]);
      NothingReturnedAfterFailure(s, actions[0]);
      FailureStaysForGood(Apply(s, actions[0]), actions[1..]);
    }
  }

  /** Once failed, only an exchange that had its response already still returns it, and none begins. */
  lemma NothingReturnedAfterFailure(s: State, a: Action)
    requires Enabled(s, a) && s.inbox.receiver.failure.Some?
    ensures var t := Apply(s, a);
            |t.returned| + Owed(t) <= |s.returned| + Owed(s)
  {
    hide Reject, ExtractFrame, Wire, EndFront, MoveFront, PopFront, Enqueue, Chunk, Counted, Sent, FinishHost;
    if a.HostFailed? || a.HostRelease? || a.Advance? {
      assert FinishHost(s).returned == s.returned && FinishHost(s).talk == s.talk by { FinishQuiet(s); }
      if a.Advance? && s.reader.head { AdvanceQuiet(s); }
    }
  }

  lemma FinishQuiet(s: State)
    ensures FinishHost(s).returned == s.returned && FinishHost(s).talk == s.talk
  {
  }

  lemma AdvanceQuiet(s: State)
    requires s.reader.Advancing? && s.out.writes != []
    ensures AdvanceHead(s, s.reader.sent).returned == s.returned && AdvanceHead(s, s.reader.sent).talk == s.talk
  {
    hide MoveFront, PopFront;
  }

  /** Exchanges that hold a response they have not handed over yet. */
  function Owed(s: State): nat {
    if s.talk.Some? && s.talk.value.stage.Ending? && s.talk.value.stage.result.Some? then 1 else 0
  }
}
