/** The dispatcher object: its fields, and the methods that change them under its lock. Each method that is one lock-held
    region is a step of the machine; a method that loops is a run of the reader's steps. */
module SerialDispatcher {
  import opened Bytes
  import opened Framing
  import opened Reception
  import S = Startup
  import D = Dispatcher
  import Reading

  /** What serving a host call comes to before its answer is queued. */
  datatype Handled = Responded(response: Frame) | Refused(cause: Failure)

  /** What one round over a buffer decides. */
  datatype Round = More | Done | Serve(call: HostCall) | Stop(cause: Failure)

  /** What a round of the transport came to: an error, or what was read and how much was sent. `reported` says that the
      count it gave is one it can have sent. */
  datatype Pumped = Failed(sent: nat) | Returned(incoming: Option<seq<Byte>>, sent: nat, reported: bool)

  /** What happens while an exchange waits: a round of the reader, whether the write at the front has stalled, and whether
      the exchange was cancelled or its time has run out. */
  datatype Turn = Turn(pump: Pumped, stalled: bool, cancelled: bool, expired: bool)

  /** The run `actions` leads from one state to the other. */
  ghost predicate Went(s: D.State, actions: seq<D.Action>, t: D.State) {
    D.Legal(s, actions) && D.Execute(s, actions) == t
  }

  /** The same, by the reader's steps over bytes it has read. */
  ghost predicate Ran(s: D.State, actions: seq<D.Action>, t: D.State) {
    Went(s, actions, t) && Reading.AllReaderSteps(actions)
  }

  lemma {:induction false} WentMore(s: D.State, actions: seq<D.Action>, t: D.State, a: D.Action)
    requires Went(s, actions, t) && D.Enabled(t, a)
    ensures Went(s, actions + [a], D.Apply(t, a))
    decreases |actions|
  {
    hide D.Enabled, D.Apply;
    var all := actions + [a];
    if actions == [] {
      assert all == [a] && all[1..] == [];
      assert D.Legal(D.Apply(s, a), []) && D.Execute(D.Apply(s, a), []) == D.Apply(s, a);
    } else {
      WentMore(D.Apply(s, actions[0]), actions[1..], t, a);
      assert all[0] == actions[0] && all[1..] == actions[1..] + [a];
    }
  }

  lemma {:induction false} WentOn(s: D.State, first: seq<D.Action>, t: D.State, second: seq<D.Action>, u: D.State)
    requires Went(s, first, t) && Went(t, second, u)
    ensures Went(s, first + second, u)
    decreases |second|
  {
    hide D.Enabled, D.Apply;
    if second == [] {
      assert first + second == first;
    } else {
      WentMore(s, first, t, second[0]);
      WentOn(s, first + [second[0]], D.Apply(t, second[0]), second[1..], u);
      assert first + second == first + [second[0]] + second[1..];
    }
  }

  lemma RanMore(s: D.State, actions: seq<D.Action>, t: D.State, a: D.Action)
    requires Ran(s, actions, t) && D.Enabled(t, a) && Reading.ReaderStep(a)
    ensures Ran(s, actions + [a], D.Apply(t, a))
  {
    hide Went, D.Enabled, D.Apply;
    WentMore(s, actions, t, a);
  }

  lemma RanOn(s: D.State, first: seq<D.Action>, t: D.State, second: seq<D.Action>, u: D.State)
    requires Ran(s, first, t) && Ran(t, second, u)
    ensures Ran(s, first + second, u)
  {
    hide Went;
    WentOn(s, first, t, second, u);
  }

  lemma QuietStep(s: D.State, a: D.Action)
    requires D.Enabled(s, a) && Reading.ReaderStep(a)
    ensures var t := D.Apply(s, a);
            t.out.finished == s.out.finished && t.talk == s.talk && t.returned == s.returned
  {
    hide Reject, ExtractFrame, Counted, Wire;
  }

  /** The reader's steps over bytes finish no write and leave the exchange alone. */
  lemma {:induction false} RanQuietly(s: D.State, actions: seq<D.Action>, t: D.State)
    requires Ran(s, actions, t)
    ensures t.out.finished == s.out.finished && t.talk == s.talk && t.returned == s.returned
    decreases |actions|
  {
    hide D.Enabled, D.Apply;
    if actions != [] {
      QuietStep(s, actions[0]);
      assert forall i :: 0 <= i < |actions[1..]| ==> actions[1..][i] == actions[i + 1];
      RanQuietly(D.Apply(s, actions[0]), actions[1..], t);
    }
  }

  class SerialProtocolDispatcher {
    const services: bool
    const handler: HostCall -> Handled
    var ready: bool
    var startupBuffer: seq<Byte>
    var diagnostic: seq<Byte>
    var frameBuffer: seq<Byte>
    var pendingResponse: bool
    var pendingRequestID: U32
    var pendingResponseType: U16
    var response: Option<Frame>
    var receiveBytes: nat
    var failure: Option<Failure>
    var closing: bool
    var writes: seq<D.Write>
    var queuedBytes: nat
    var hostActive: nat
    var hostWindow: nat
    // How many writes have left the queue, which tells one queued write from another.
    var written: nat
    // What the object's threads have done, in the terms of the machine.
    ghost var rest: D.State

    ghost function Receiving(): Receiver
      reads this
    {
      Receiver(pendingResponse, pendingRequestID, pendingResponseType, response, frameBuffer, receiveBytes,
               rest.inbox.receiver.dispatched, failure)
    }

    ghost function Inbox(): S.Inbound
      reads this
    {
      S.Inbound(services, ready, startupBuffer, diagnostic, Receiving())
    }

    ghost function View(): D.State
      reads this
    {
      rest.(inbox := Inbox(), closing := closing, out := rest.out.(writes := writes, queuedBytes := queuedBytes),
            hostActive := hostActive, hostWindow := hostWindow)
    }

    /** The count of finished writes is that of the machine. */
    ghost predicate Valid()
      reads this
    {
      written == |rest.out.finished|
    }

    constructor (services: bool, handler: HostCall -> Handled, ready: bool)
      ensures D.Initial(View()) && this.services == services && this.handler == handler && this.ready == ready
      ensures Valid() && D.Inv(View()) && rest.reader.Idle? && rest.talk.None?
    {
      hide D.Inv;
      this.services, this.handler, this.ready := services, handler, ready;
      startupBuffer, diagnostic, frameBuffer := [], [], [];
      pendingResponse, pendingRequestID, pendingResponseType, response := false, 0, 0, None;
      receiveBytes, failure, closing, writes, queuedBytes, hostActive, hostWindow := 0, None, false, [], 0, 0, 0;
      written := 0;
      var receiver := Receiver(false, 0, 0, None, [], 0, [], None);
      rest := D.State(S.Inbound(services, ready, [], [], receiver), false, D.Outgoing([], 0, [], [], 0, []), 0, 0, D.Idle,
                      None, [], []);
      new;
      D.InitialInv(View());
    }

    // -------------------------------------------------------------- writes

    /** `recordWriteTerminalLocked` on the write at the front: the first phase wins. */
    method EndFront(phase: D.Phase)
      modifies this`writes, this`rest
      ensures View() == old(View()).(out := D.EndFront(old(View()).out, phase)) && |writes| == |old(writes)|
      ensures rest == old(rest).(out := old(rest).out.(terminals := rest.out.terminals))
    {
      if writes != [] && writes[0].terminal.None? {
        rest := rest.(out := rest.out.(terminals := rest.out.terminals + [(|rest.out.finished|, phase)]));
        writes := [writes[0].(terminal := Some(phase))] + writes[1..];
      }
    }

    /** The first failure is the one that stays. */
    method SetFailure(cause: Failure)
      modifies this`failure
      ensures View() == D.SetFailure(old(View()), cause)
    {
      if failure.None? {
        failure := Some(cause);
      }
    }

    /** `queueWrite`. */
    method QueueWrite(data: seq<Byte>, hostResponse: bool, requestID: U32) returns (refused: Option<Failure>)
      modifies this`writes, this`queuedBytes
      ensures refused == D.QueueRefuses(old(View()), data)
      ensures View() == if refused.Some? then old(View())
                        else old(View()).(out := D.Enqueue(old(View()).out, data, hostResponse, requestID))
    {
      if failure.Some? {
        return failure;
      }
      if closing {
        return Some(Closed);
      }
      if |writes| >= D.MAX_QUEUED_WRITES || |data| > D.MAX_QUEUED_BYTES - queuedBytes {
        return Some(QueueFull);
      }
      writes := writes + [D.Write(data, hostResponse, requestID, 0, None)];
      queuedBytes := queuedBytes + |data|;
      return None;
    }

    /** `finishHostServiceLocked`. */
    method FinishHostService()
      modifies this`hostActive, this`hostWindow
      ensures View() == D.FinishHost(old(View()))
    {
      if hostActive > 0 {
        hostActive, hostWindow := hostActive - 1, hostWindow + 1;
      }
    }

    /** `advanceWrite` for the write that was the `queued`-th since the start; `expired` says that its stall deadline has
        passed. Another write at the front is left alone, a stalled one ends, and one that is out leaves the queue. */
    method AdvanceWrite(queued: nat, sent: nat, expired: bool) returns (timedOut: bool)
      requires Valid() && (writes != [] ==> |writes[0].data| <= queuedBytes)
      modifies this`writes, this`queuedBytes, this`hostActive, this`hostWindow, this`written, this`rest
      ensures Valid() && rest.talk == old(rest).talk && rest.returned == old(rest).returned
      ensures var mine := old(writes) != [] && queued == old(written);
              timedOut == (mine && sent == 0 && expired) &&
              View() == if !mine then old(View())
                        else if timedOut then old(View()).(out := D.EndFront(old(View()).out, D.WriteStalled))
                        else D.AdvanceHead(old(View()), sent)
    {
      hide D.EndFront, D.PopFront, D.FinishHost;
      if writes == [] || queued != written {
        return false;
      }
      if sent == 0 && expired {
        EndFront(D.WriteStalled);
        return true;
      }
      var head := MoveFront(sent);
      if head.offset == |head.data| {
        PopFront();
        if head.hostResponse {
          FinishHostService();
        }
      }
      return false;
    }

    /** That much more of the write at the front is out. */
    method MoveFront(sent: nat) returns (head: D.Write)
      requires writes != []
      modifies this`writes, this`rest
      ensures View() == old(View()).(out := D.MoveFront(old(View()).out, sent)) && writes != [] && writes[0] == head
      ensures head == old(writes)[0].(offset := old(writes)[0].offset + sent)
      ensures rest == old(rest).(out := old(rest).out.(ahead := 0))
    {
      head := writes[0].(offset := writes[0].offset + sent);
      writes := [head] + writes[1..];
      rest := rest.(out := rest.out.(ahead := 0));
    }

    /** The write at the front is out: it ends and leaves the queue. */
    method PopFront()
      requires writes != [] && |writes[0].data| <= queuedBytes && Valid()
      modifies this`writes, this`queuedBytes, this`written, this`rest
      ensures View() == old(View()).(out := D.PopFront(old(View()).out)) && Valid()
    {
      ghost var o := View().out;
      EndFront(D.WriteCompleted);
      EndedFront(o);
      hide D.EndFront;
      DropFront();
    }

    method DropFront()
      requires writes != [] && |writes[0].data| <= queuedBytes && Valid()
      modifies this`writes, this`queuedBytes, this`written, this`rest
      ensures View() == old(View()).(out := Dropped(old(View()).out)) && Valid()
    {
      rest := rest.(out := rest.out.(finished := rest.out.finished + [writes[0]]));
      writes, queuedBytes, written := writes[1..], queuedBytes - |writes[0].data|, written + 1;
    }

    /** No host call is active once the reader is gone. */
    method ReleaseAll()
      modifies this`hostActive, this`hostWindow, this`rest
      ensures View() == old(View()).(hostWindow := old(hostWindow) + old(hostActive), hostActive := 0, reader := D.Dead)
    {
      hostWindow, hostActive := hostWindow + hostActive, 0;
      rest := rest.(reader := D.Dead);
    }

    /** `fail`: the reader is gone. */
    method Fail(cause: Failure)
      modifies this`writes, this`hostActive, this`hostWindow, this`failure, this`rest
      ensures View() == D.ReaderFailed(old(View()), cause)
    {
      hide D.EndFront, D.SetFailure;
      if closing {
        rest := rest.(reader := D.Dead);
        return;
      }
      EndFront(D.WriteFailed);
      ReleaseAll();
      SetFailure(cause);
    }

    // -------------------------------------------------------------- exchanges and closing

    /** The first region of `Exchange`. */
    method BeginExchange(request: Frame) returns (begun: bool)
      requires rest.talk.None?
      modifies this`pendingResponse, this`pendingRequestID, this`pendingResponseType, this`response, this`rest
      ensures begun == old(ready && failure.None? && !closing)
      ensures View() == if begun then D.BeginTalk(old(View()), request) else old(View())
      ensures rest == if begun then old(rest).(talk := Some(D.Talk(request, D.Begun))) else old(rest)
    {
      if !ready || failure.Some? || closing {
        return false;
      }
      ExpectResponse(request);
      rest := rest.(talk := Some(D.Talk(request, D.Begun)));
      return true;
    }

    /** The slot is for this request. */
    method ExpectResponse(request: Frame)
      modifies this`pendingResponse, this`pendingRequestID, this`pendingResponseType, this`response
      ensures Receiving() == old(Receiving()).(pending := true, pendingID := request.requestID,
                                               pendingType := D.ResponseType(request.messageType), response := None)
    {
      hide D.ResponseType;
      pendingResponse := true;
      pendingRequestID := request.requestID;
      pendingResponseType := D.ResponseType(request.messageType);
      response := None;
    }

    /** The deciding region of a waiting `Exchange`: its response, the failure, or, when `expired` and no host call is
        active, its own timeout, which fails the dispatcher at once. */
    method PollExchange(expired: bool) returns (result: Option<Frame>, waiting: bool)
      requires D.WriteDone(View())
      modifies this`failure, this`rest
      ensures result == if old(failure).None? then response else None
      ensures waiting == (old(failure).None? && response.None? && !(expired && hostActive == 0))
      ensures View() == if old(failure).Some? then D.AtStage(old(View()), D.Ending(true, None))
                        else if response.Some? then D.AtStage(old(View()), D.Ending(true, response))
                        else if waiting then old(View())
                        else D.AtStage(D.SetFailure(old(View()), ResponseTimedOut), D.Aborting(ResponseTimedOut))
      ensures rest == if waiting then old(rest)
                      else D.AtStage(old(rest), if old(failure).None? && response.None? then D.Aborting(ResponseTimedOut)
                                                else D.Ending(true, result))
    {
      if failure.Some? {
        rest := D.AtStage(rest, D.Ending(true, None));
        return None, false;
      }
      if response.Some? {
        rest := D.AtStage(rest, D.Ending(true, response));
        return response, false;
      }
      if expired && hostActive == 0 {
        failure := Some(ResponseTimedOut);
        rest := D.AtStage(rest, D.Aborting(ResponseTimedOut));
        return None, false;
      }
      return None, true;
    }

    /** The second region: the request is queued, as the `mine`-th write since the start, or the exchange ends. */
    method QueueExchange(request: Frame) returns (queued: bool, mine: nat)
      requires Valid() && rest.talk == Some(D.Talk(request, D.Begun))
      modifies this`writes, this`queuedBytes, this`rest
      ensures Valid() && View() == D.QueueTalk(old(View()))
      ensures rest == old(rest).(talk := Some(D.Talk(request, if queued then D.Waiting(mine) else D.Ending(false, None))))
      ensures queued ==> mine == written + |old(writes)|
    {
      hide D.QueueRefuses, D.Enqueue, Wire;
      mine := written + |writes|;
      queued := Sendable(request);
      if queued {
        var refused := QueueWrite(Wire(request), false, request.requestID);
        queued := refused.None?;
      }
      rest := rest.(talk := Some(D.Talk(request, if queued then D.Waiting(mine) else D.Ending(false, None))));
    }

    /** `abortExchange`, after which the exchange has only to let go. */
    method AbortExchange(cause: Failure)
      requires rest.talk.Some?
      modifies this`failure, this`writes, this`rest
      ensures View() == D.AtStage(D.Abort(old(View()), cause), D.Ending(true, None))
      ensures rest == D.AtStage(old(rest), D.Ending(true, None)).(out := old(rest).out.(terminals := rest.out.terminals))
    {
      hide D.EndFront, D.SetFailure;
      EndFront(D.WriteCancelled);
      SetFailure(cause);
      rest := D.AtStage(rest, D.Ending(true, None));
    }

    /** The last region of `Exchange`, after any outcome: the slot is free again. */
    method EndExchange()
      requires rest.talk.Some? && rest.talk.value.stage.Ending?
      modifies this`pendingResponse, this`response, this`rest
      ensures View() == D.EndTalk(old(View())) && rest.out == old(rest).out
    {
      pendingResponse := false;
      response := None;
      rest := D.EndTalk(rest);
    }

    /** `close`. */
    method Close()
      modifies this`closing, this`writes, this`failure, this`rest
      ensures View() == D.CloseNow(old(View()))
    {
      hide D.EndFront, D.SetFailure;
      if closing {
        return;
      }
      closing := true;
      EndFront(D.WriteCancelled);
      SetFailure(Closed);
    }

    // -------------------------------------------------------------- reception

    /** `trackReceiveLocked`: why the header at the front is refused, or its bytes counted. */
    method TrackReceive() returns (refused: Option<Failure>)
      modifies this`receiveBytes
      ensures refused == Reject(old(Receiving()))
      ensures Receiving() == if refused.None? then Counted(old(Receiving())) else old(Receiving())
    {
      hide ReadHeader, MagicPrefix;
      var total := HEADER_SIZE;
      if |frameBuffer| >= HEADER_SIZE {
        var headerError := DecodeHeader(frameBuffer);
        if headerError.Some? {
          return Some(BadHeader(headerError.value));
        }
        var raw := ReadHeader(frameBuffer);
        total := total + raw.length;
        if raw.messageType == HOST_SERVICE_REQUEST {
          if raw.requestID == 0 {
            return Some(ZeroHostID);
          }
        } else if !pendingResponse || response.Some? {
          return Some(UnexpectedResponse);
        } else if raw.requestID != pendingRequestID {
          return Some(WrongRequestID);
        } else if raw.messageType != pendingResponseType {
          return Some(WrongResponseType);
        }
      } else if !MagicPrefix(frameBuffer) {
        return Some(BadHeader(BadMagic));
      }
      var count := Min(|frameBuffer|, total);
      if count > receiveBytes {
        receiveBytes := count;
      }
      return None;
    }

    /** One round of `consumeFrames`. */
    method FrameRound() returns (round: Round)
      requires rest.reader.Consuming?
      modifies this`frameBuffer, this`receiveBytes, this`pendingResponse, this`response, this`rest
      ensures View() == D.ExtractOne(old(View())) && rest.reader == After(round, old(rest.reader))
      ensures round.More? || round.Serve? ==> |frameBuffer| < |old(frameBuffer)|
      ensures round.Serve? ==> round.call.scope != Reception.Startup
    {
      hide D.ExtractOne;
      D.ExtractMoves(View());
      round := JudgeFrame();
      rest := rest.(reader := After(round, rest.reader));
    }

    method JudgeFrame() returns (round: Round)
      requires rest.reader.Consuming?
      modifies this`frameBuffer, this`receiveBytes, this`pendingResponse, this`response
      ensures Receiving() == D.ExtractOne(old(View())).inbox.receiver
      ensures After(round, rest.reader) == D.ExtractOne(old(View())).reader
      ensures round.More? || round.Serve? ==> |frameBuffer| < |old(frameBuffer)|
      ensures round.Serve? ==> round.call.scope != Reception.Startup
    {
      hide Reject, ExtractFrame, Counted;
      if failure.Some? {
        return Stop(failure.value);
      }
      var refused := TrackReceive();
      if refused.Some? {
        return Stop(refused.value);
      }
      match ExtractFrame(frameBuffer)
      case Malformed(error) => return Stop(BadHeader(error));
      case Incomplete => return Done;
      case Complete(frame, left) => round := TakeFrame(frame, left);
    }

    /** What a whole frame is: a host request, the awaited response, or an error. */
    method TakeFrame(frame: Frame, left: seq<Byte>) returns (round: Round)
      modifies this`frameBuffer, this`receiveBytes, this`pendingResponse, this`response
      ensures frameBuffer == left && receiveBytes == 0
      ensures round == if frame.messageType == HOST_SERVICE_REQUEST then
                         Serve(HostCall(frame, if old(pendingResponse) then Reception.Exchange else Background))
                       else if !old(pendingResponse) || old(response).Some? then Stop(UnexpectedResponse)
                       else More
      ensures if round.More? then !pendingResponse && response == Some(frame)
              else pendingResponse == old(pendingResponse) && response == old(response)
    {
      frameBuffer, receiveBytes := left, 0;
      if frame.messageType == HOST_SERVICE_REQUEST {
        return Serve(HostCall(frame, if pendingResponse then Reception.Exchange else Background));
      }
      if !pendingResponse || response.Some? {
        return Stop(UnexpectedResponse);
      }
      pendingResponse := false;
      response := Some(frame);
      return More;
    }

    /** One round of `consumeStartup`; becoming ready moves the reader on to frames. */
    method StartupRound() returns (round: Round)
      requires rest.reader.Scanning?
      modifies this`startupBuffer, this`diagnostic, this`ready, this`frameBuffer, this`rest
      ensures View() == D.ScanOne(old(View()))
      ensures if READY <= old(startupBuffer) then rest.reader == D.Consuming(old(rest.reader).head, old(rest.reader).sent)
              else rest.reader == After(round, old(rest.reader)) &&
                   (round.More? || round.Serve? ==> |startupBuffer| < |old(startupBuffer)|)
      ensures round.Serve? ==> round.call.scope == Reception.Startup
    {
      if READY <= startupBuffer {
        BecomeReady();
        rest := rest.(reader := D.Consuming(rest.reader.head, rest.reader.sent));
        return More;
      }
      hide D.ScanOne;
      round := JudgeStartup();
      rest := rest.(reader := After(round, rest.reader));
    }

    method BecomeReady()
      requires READY <= startupBuffer
      modifies this`startupBuffer, this`ready, this`frameBuffer
      ensures View() == old(View()).(inbox := S.BecomeReady(old(Inbox())))
    {
      frameBuffer := frameBuffer + startupBuffer[|READY|..];
      ready, startupBuffer := true, [];
    }

    method JudgeStartup() returns (round: Round)
      requires rest.reader.Scanning? && !(READY <= startupBuffer)
      modifies this`startupBuffer, this`diagnostic
      ensures View().(reader := After(round, rest.reader)) == D.ScanOne(old(View()))
      ensures round.More? || round.Serve? ==> |startupBuffer| < |old(startupBuffer)|
      ensures round.Serve? ==> round.call.scope == Reception.Startup
    {
      hide ExtractFrame;
      if startupBuffer == [] {
        return Done;
      }
      if MAGIC <= startupBuffer && services {
        match ExtractFrame(startupBuffer)
        case Malformed(error) => return Stop(BadHeader(error));
        case Incomplete => return Done;
        case Complete(frame, left) =>
          startupBuffer := left;
          if frame.messageType != HOST_SERVICE_REQUEST {
            return Stop(NotHostService);
          }
          return Serve(HostCall(frame, Reception.Startup));
      }
      if startupBuffer <= READY || (services && startupBuffer <= MAGIC) {
        return Done;
      }
      if |diagnostic| < S.MAX_DIAGNOSTIC {
        diagnostic := diagnostic + [startupBuffer[0]];
      }
      startupBuffer := startupBuffer[1..];
      return More;
    }

    // -------------------------------------------------------------- host calls

    /** `dispatchHostService` counts the call. */
    method CountCall(call: HostCall)
      requires rest.reader.Serving? && rest.reader.call == call
      modifies this`hostActive, this`rest
      ensures View() == D.BeginHost(old(View()))
    {
      hostActive := hostActive + 1;
      var r := rest.inbox.receiver;
      rest := rest.(inbox := rest.inbox.(receiver := r.(dispatched := r.dispatched + [call])),
                    reader := D.Hosting(call, rest.reader.head, rest.reader.sent));
    }

    /** The answer is queued, or refused with the call still counted. */
    method QueueAnswer(call: HostCall, answer: Frame) returns (refused: Option<Failure>)
      requires rest.reader.Hosting? && rest.reader.call == call
      modifies this`writes, this`queuedBytes, this`rest
      ensures refused == D.QueueRefuses(old(View()), Wire(answer)) && View() == D.ReplyHost(old(View()), answer)
      ensures rest.out.finished == old(rest).out.finished
    {
      hide D.QueueRefuses, D.Enqueue, Wire;
      refused := QueueWrite(Wire(answer), true, answer.requestID);
      rest := rest.(reader := if refused.Some? then D.Releasing(refused.value)
                              else D.Resume(call, rest.reader.head, rest.reader.sent));
    }

    /** `finishHostService`, on the way out with an error. */
    method GiveUp(cause: Failure)
      modifies this`hostActive, this`hostWindow, this`rest
      ensures View() == D.FinishHost(old(View())).(reader := D.Stopping(cause))
    {
      hide D.FinishHost;
      FinishHostService();
      rest := rest.(reader := D.Stopping(cause));
    }

    /** `dispatchHostService`. */
    method DispatchHostService(call: HostCall) returns (cause: Option<Failure>, ghost actions: seq<D.Action>)
      requires rest.reader.Serving? && rest.reader.call == call
      modifies this`hostActive, this`hostWindow, this`writes, this`queuedBytes, this`rest
      ensures Ran(old(View()), actions, View())
      ensures rest.reader == if cause.Some? then D.Stopping(cause.value)
                             else D.Resume(call, old(rest.reader).head, old(rest.reader).sent)
    {
      hide Ran, D.BeginHost, D.ReplyHost, D.FinishHost, D.QueueRefuses;
      ghost var start := View();
      RanNothing(start);
      CountCall(call);
      CountedCall(start);
      RanMore(start, [], start, D.HostBegin);
      actions := [] + [D.HostBegin];
      var handled := handler(call);
      if call.frame.requestID == 0 || handled.Refused? || !Sendable(handled.response) {
        var why := if call.frame.requestID == 0 then ZeroHostID
                   else if handled.Refused? then handled.cause else HostServiceFailed;
        RanMore(start, actions, View(), D.HostFailed(why));
        GiveUp(why);
        return Some(why), actions + [D.HostFailed(why)];
      }
      RanMore(start, actions, View(), D.HostReply(handled.response));
      actions := actions + [D.HostReply(handled.response)];
      RepliedHost(View(), handled.response);
      var refused := QueueAnswer(call, handled.response);
      if refused.Some? {
        RanMore(start, actions, View(), D.HostRelease);
        GiveUp(refused.value);
        return refused, actions + [D.HostRelease];
      }
      return None, actions;
    }

    // -------------------------------------------------------------- the loops

    /** `consumeFrames`: as many whole frames as there are. */
    method ConsumeFrames() returns (cause: Option<Failure>, ghost actions: seq<D.Action>)
      requires rest.reader.Consuming?
      modifies this
      ensures Ran(old(View()), actions, View()) && Ended(cause, old(rest.reader), rest.reader)
      ensures written == old(written)
    {
      hide Ran, D.ExtractOne;
      ghost var start, reader := View(), rest.reader;
      RanNothing(start);
      actions := [];
      while true
        invariant Ran(start, actions, View()) && rest.reader == reader && written == old(written)
        decreases |frameBuffer|
      {
        RanMore(start, actions, View(), D.Extract);
        actions := actions + [D.Extract];
        var round := FrameRound();
        match round
        case More =>
        case Done => return None, actions;
        case Stop(why) => return Some(why), actions;
        case Serve(call) =>
          ghost var before := View();
          var why, steps := DispatchHostService(call);
          RanOn(start, actions, before, steps, View());
          actions := actions + steps;
          if why.Some? {
            return why, actions;
          }
      }
    }

    /** `consumeStartup`: drops bytes until the readiness marker, serving early host requests if there are services. */
    method ConsumeStartup() returns (cause: Option<Failure>, ghost actions: seq<D.Action>)
      requires rest.reader.Scanning?
      modifies this
      ensures Ran(old(View()), actions, View()) && Ended(cause, old(rest.reader), rest.reader)
      ensures written == old(written)
    {
      hide Ran, D.ScanOne;
      ghost var start, reader := View(), rest.reader;
      RanNothing(start);
      actions := [];
      while true
        invariant Ran(start, actions, View()) && rest.reader == reader && written == old(written)
        decreases |startupBuffer|
      {
        RanMore(start, actions, View(), D.ScanStartup);
        actions := actions + [D.ScanStartup];
        var marked := READY <= startupBuffer;
        var round := StartupRound();
        ghost var before := View();
        if marked {
          var why, steps := ConsumeFrames();
          RanOn(start, actions, before, steps, View());
          return why, actions + steps;
        }
        match round
        case More =>
        case Done => return None, actions;
        case Stop(why) => return Some(why), actions;
        case Serve(call) =>
          var why, steps := DispatchHostService(call);
          RanOn(start, actions, before, steps, View());
          actions := actions + steps;
          if why.Some? {
            return why, actions;
          }
      }
    }

    /** `consumeIncoming` on bytes just read: a run of the reader alone, so that the incoming half is as if fed them, with
        the error returned recorded and a host that answers as the handlers did. */
    method ConsumeIncoming(incoming: seq<Byte>, ghost count: nat)
      returns (cause: Option<Failure>, ghost actions: seq<D.Action>)
      requires Valid() && rest.reader.Pumping? && count <= |rest.reader.outgoing|
      modifies this
      ensures Valid() && written == old(written) && rest.talk == old(rest).talk && rest.returned == old(rest).returned
      ensures Ran(D.TakeIn(old(View()), incoming, count), actions, View())
      ensures rest.reader == if cause.Some? then D.Stopping(cause.value) else D.Advancing(old(rest.reader).head, count)
      ensures old(failure).None? ==>
        Reading.Settled(View()) ==
        S.Feed(old(Inbox()), incoming,
               Reading.Answering(|old(rest).inbox.receiver.dispatched|,
                                 Reading.Verdicts(D.TakeIn(old(View()), incoming, count), actions)))
    {
      hide Ran, Reading.Verdicts, S.Feed;
      ghost var start := View();
      AppendIncoming(incoming, count);
      if ready {
        cause, actions := ConsumeFrames();
      } else {
        cause, actions := ConsumeStartup();
      }
      if start.inbox.receiver.failure.None? {
        RanIsFeed(start, incoming, count, actions, View());
      }
      RanQuietly(D.TakeIn(start, incoming, count), actions, View());
    }

    /** The first region of `consumeIncoming`. */
    method AppendIncoming(incoming: seq<Byte>, ghost count: nat)
      requires rest.reader.Pumping? && count <= |rest.reader.outgoing|
      modifies this`frameBuffer, this`startupBuffer, this`rest
      ensures View() == D.TakeIn(old(View()), incoming, count)
      ensures rest.reader ==
              if ready then D.Consuming(old(rest.reader).head, count) else D.Scanning(old(rest.reader).head, count)
    {
      if ready {
        frameBuffer := frameBuffer + incoming;
      } else {
        startupBuffer := startupBuffer + incoming;
      }
      rest := rest.(out := D.Sent(rest.out, rest.reader.outgoing[..count]),
                    reader := if ready then D.Consuming(rest.reader.head, count) else D.Scanning(rest.reader.head, count));
    }

    // -------------------------------------------------------------- the read loop

    /** The first region of a round of `readLoop`: the chunk to send. */
    method StartPump() returns (outgoing: seq<Byte>)
      requires D.Enabled(View(), D.PumpStart)
      modifies this`rest
      ensures View() == D.Apply(old(View()), D.PumpStart) && rest == old(rest).(reader := rest.reader)
      ensures rest.reader == if closing then D.Dead else D.Pumping(outgoing, writes != [])
    {
      outgoing := [];
      if writes != [] {
        var front := writes[0];
        outgoing := front.data[front.offset..Min(|front.data|, front.offset + D.WRITE_CHUNK)];
      }
      rest := rest.(reader := if closing then D.Dead else D.Pumping(outgoing, writes != []));
    }

    /** The transport has sent this much. */
    ghost method NoteSent(count: nat, reader: D.Reader)
      requires rest.reader.Pumping? && count <= |rest.reader.outgoing|
      modifies this`rest
      ensures View() == old(View()).(out := D.Sent(old(View()).out, old(rest.reader).outgoing[..count]), reader := reader)
      ensures rest.reader == reader && rest.talk == old(rest).talk && rest.returned == old(rest).returned
      ensures rest.out.finished == old(rest).out.finished
    {
      rest := rest.(out := D.Sent(rest.out, rest.reader.outgoing[..count]), reader := reader);
    }

    /** The reader stops with an error. */
    method FailRead(cause: Failure, ghost start: D.State, ghost actions: seq<D.Action>)
      requires Valid() && Went(start, actions, View()) && rest.reader == D.Stopping(cause)
      modifies this`writes, this`hostActive, this`hostWindow, this`failure, this`rest
      ensures Valid() && Went(start, actions + [D.ReaderFail], View()) && rest.reader.Dead?
      ensures rest.talk == old(rest).talk && rest.returned == old(rest).returned
    {
      hide Went;
      WentMore(start, actions, View(), D.ReaderFail);
      Fail(cause);
    }

    /** The last region of a round, after the bytes that were read have been handled. */
    method FinishRound(head: bool, queued: nat, count: nat, reported: bool, stalled: bool, ghost start: D.State,
                       ghost before: seq<D.Action>)
      returns (running: bool, ghost actions: seq<D.Action>)
      requires Valid() && D.Inv(View()) && Went(start, before, View())
      requires rest.reader == D.Advancing(head, count) && queued == written
      modifies this
      ensures Valid() && Went(start, actions, View()) && rest.reader == if running then D.Idle else D.Dead
      ensures rest.talk == old(rest).talk && rest.returned == old(rest).returned
    {
      hide Went, D.Inv, D.AdvanceHead, D.EndFront;
      if !reported {
        WentMore(start, before, View(), D.AdvanceRefused);
        rest := rest.(reader := D.Stopping(TransportFailed));
        FailRead(TransportFailed, start, before + [D.AdvanceRefused]);
        return false, before + [D.AdvanceRefused] + [D.ReaderFail];
      }
      ghost var was := View();
      var timedOut := AdvanceRound(head, queued, count, stalled);
      if timedOut {
        WentMore(start, before, was, D.WriteStall);
        FailRead(WriteTimedOut, start, before + [D.WriteStall]);
        return false, before + [D.WriteStall] + [D.ReaderFail];
      }
      WentMore(start, before, was, D.Advance);
      return true, before + [D.Advance];
    }

    /** `advanceWrite`, if a write was being pumped. */
    method AdvanceRound(head: bool, queued: nat, count: nat, stalled: bool) returns (timedOut: bool)
      requires Valid() && D.Inv(View()) && rest.reader == D.Advancing(head, count) && queued == written
      modifies this`writes, this`queuedBytes, this`hostActive, this`hostWindow, this`written, this`rest
      ensures Valid() && rest.talk == old(rest).talk && rest.returned == old(rest).returned
      ensures D.Enabled(old(View()), if timedOut then D.WriteStall else D.Advance)
      ensures View() == D.Apply(old(View()), if timedOut then D.WriteStall else D.Advance)
      ensures rest.reader == if timedOut then D.Stopping(WriteTimedOut) else D.Idle
    {
      hide D.Inv, D.AdvanceHead, D.EndFront;
      FrontIsThere(View());
      timedOut := false;
      if head {
        timedOut := AdvanceWrite(queued, count, stalled);
      }
      rest := rest.(reader := if timedOut then D.Stopping(WriteTimedOut) else D.Idle);
    }

    /** One round of `readLoop`: a run of the machine, after which the reader is back at the start or gone for good. */
    method ReadRound(pump: Pumped, stalled: bool) returns (running: bool, ghost actions: seq<D.Action>)
      requires Valid() && D.Inv(View()) && rest.reader.Idle?
      modifies this
      ensures Valid() && D.Inv(View()) && Went(old(View()), actions, View())
      ensures rest.reader == if running then D.Idle else D.Dead
      ensures rest.talk == old(rest).talk && rest.returned == old(rest).returned
    {
      hide Went, D.Inv, D.TakeIn;
      ghost var start := View();
      WentNowhere(start);
      D.PumpStartKeeps(start);
      WentMore(start, [], start, D.PumpStart);
      var outgoing := StartPump();
      actions := [] + [D.PumpStart];
      if closing {
        GoneKeeps(start, actions, View());
        return false, actions;
      }
      var head, queued, count := writes != [], written, Min(pump.sent, |outgoing|);
      if pump.Failed? {
        WentMore(start, actions, View(), D.PumpFailed(count));
        NoteSent(count, D.Stopping(TransportFailed));
        actions := actions + [D.PumpFailed(count)];
        FailRead(TransportFailed, start, actions);
        actions := actions + [D.ReaderFail];
        GoneKeeps(start, actions, View());
        return false, actions;
      }
      if pump.incoming.Some? {
        WentMore(start, actions, View(), D.PumpDone(pump.incoming.value, count));
        ghost var taken := D.TakeIn(View(), pump.incoming.value, count);
        actions := actions + [D.PumpDone(pump.incoming.value, count)];
        var cause, steps := ConsumeIncoming(pump.incoming.value, count);
        RanIsWent(taken, steps, View());
        WentOn(start, actions, taken, steps, View());
        actions := actions + steps;
        if cause.Some? {
          FailRead(cause.value, start, actions);
          actions := actions + [D.ReaderFail];
          GoneKeeps(start, actions, View());
          return false, actions;
        }
      } else {
        WentMore(start, actions, View(), D.PumpQuiet(count));
        NoteSent(count, D.Advancing(head, count));
        actions := actions + [D.PumpQuiet(count)];
      }
      GoneKeeps(start, actions, View());
      running, actions := FinishRound(head, queued, count, pump.reported, stalled, start, actions);
      GoneKeeps(start, actions, View());
    }

    /** `readLoop`, for as long as the transport goes on. */
    method ReadLoop(pumps: seq<Pumped>, stalled: nat -> bool) returns (running: bool, ghost actions: seq<D.Action>)
      requires Valid() && D.Inv(View()) && rest.reader.Idle?
      modifies this
      ensures Valid() && D.Inv(View()) && Went(old(View()), actions, View())
      ensures rest.reader == if running then D.Idle else D.Dead
      ensures rest.talk == old(rest).talk && rest.returned == old(rest).returned
    {
      hide Went, D.Inv;
      ghost var start := View();
      WentNowhere(start);
      actions := [];
      running := true;
      var i := 0;
      while running && i < |pumps|
        invariant Valid() && D.Inv(View()) && Went(start, actions, View())
        invariant rest.reader == if running then D.Idle else D.Dead
        invariant rest.talk == old(rest).talk && rest.returned == old(rest).returned
        decreases |pumps| - i
      {
        ghost var before := View();
        ghost var steps;
        running, steps := ReadRound(pumps[i], stalled(i));
        WentOn(start, actions, before, steps, View());
        actions := actions + steps;
        i := i + 1;
      }
    }

    // -------------------------------------------------------------- whole exchanges

    /** What a waiting exchange sees when it looks: `waitForWrite` until its write is out, and then the loop behind it. */
    method LookExchange(mine: nat, expired: bool)
      returns (waiting: bool, timedOut: bool, result: Option<Frame>, ghost action: D.Action)
      requires Valid() && rest.talk.Some? && rest.talk.value.stage == D.Waiting(mine)
      modifies this`failure, this`rest
      ensures waiting ==> View() == old(View()) && result.None? && rest == old(rest)
      ensures !waiting ==> D.Enabled(old(View()), action) && View() == D.Apply(old(View()), action)
      ensures !waiting ==> rest == D.AtStage(old(rest), if timedOut then D.Aborting(ResponseTimedOut)
                                                        else D.Ending(true, result))
      ensures timedOut ==> result.None?
    {
      hide D.SetFailure;
      timedOut, result, action := false, None, D.ExchangeFailed;
      if mine >= written {
        waiting := failure.None?;
        if !waiting {
          rest := D.AtStage(rest, D.Ending(true, None));
        }
        return;
      }
      timedOut := failure.None? && response.None?;
      action := if failure.Some? then D.ExchangeFailed else if response.Some? then D.ExchangeReturn else D.ExchangeTimeout;
      result, waiting := PollExchange(expired);
    }

    /** What it does: a cancelled or timed out exchange aborts. */
    method DecideExchange(mine: nat, cancelled: bool, expired: bool, ghost start: D.State, ghost before: seq<D.Action>)
      returns (waiting: bool, result: Option<Frame>, ghost actions: seq<D.Action>)
      requires Valid() && Went(start, before, View()) && rest.talk.Some? && rest.talk.value.stage == D.Waiting(mine)
      modifies this`failure, this`writes, this`rest
      ensures Valid() && Went(start, actions, View()) && rest.reader == old(rest).reader
      ensures rest.returned == old(rest).returned
      ensures rest.talk == if waiting then old(rest).talk else D.AtStage(old(rest), D.Ending(true, result)).talk
      ensures waiting ==> result.None?
    {
      hide Went, D.Abort, D.SetFailure;
      ghost var was := View();
      if cancelled {
        WentMore(start, before, was, D.ExchangeCancel);
        AbortExchange(Cancelled);
        return false, None, before + [D.ExchangeCancel];
      }
      actions := before;
      var timedOut;
      ghost var action;
      waiting, timedOut, result, action := LookExchange(mine, expired);
      if !waiting {
        WentMore(start, actions, was, action);
        actions := actions + [action];
        if timedOut {
          WentMore(start, actions, View(), D.ExchangeAbort);
          AbortExchange(ResponseTimedOut);
          actions := actions + [D.ExchangeAbort];
        }
      }
    }

    /** The exchange waits, turn by turn, until it has something to return or gives up. */
    method AwaitExchange(request: Frame, mine: nat, turns: seq<Turn>, reading: bool, ghost start: D.State,
                         ghost before: seq<D.Action>)
      returns (waiting: bool, result: Option<Frame>, ghost actions: seq<D.Action>)
      requires Valid() && D.Inv(start) && Went(start, before, View())
      requires rest.reader == if reading then D.Idle else D.Dead
      requires rest.talk == Some(D.Talk(request, D.Waiting(mine)))
      modifies this
      ensures Valid() && Went(start, actions, View()) && rest.returned == old(rest).returned
      ensures rest.talk == Some(D.Talk(request, if waiting then D.Waiting(mine) else D.Ending(true, result)))
      ensures waiting ==> result.None?
    {
      hide Went, D.Inv;
      var running, i := reading, 0;
      waiting, result, actions := true, None, before;
      while waiting && i < |turns|
        invariant Valid() && Went(start, actions, View()) && rest.reader == if running then D.Idle else D.Dead
        invariant rest.talk == Some(D.Talk(request, if waiting then D.Waiting(mine) else D.Ending(true, result)))
        invariant rest.returned == old(rest).returned && (waiting ==> result.None?)
        decreases |turns| - i
      {
        if running {
          GoneKeeps(start, actions, View());
          ghost var was, steps := View(), [];
          running, steps := ReadRound(turns[i].pump, turns[i].stalled);
          WentOn(start, actions, was, steps, View());
          actions := actions + steps;
        }
        waiting, result, actions := DecideExchange(mine, turns[i].cancelled, turns[i].expired, start, actions);
        i := i + 1;
      }
    }

    /** The last region of an exchange as a step. */
    method LeaveExchange(ghost start: D.State, ghost before: seq<D.Action>)
      requires Valid() && D.Inv(start) && Went(start, before, View()) && rest.talk.Some? && rest.talk.value.stage.Ending?
      modifies this`pendingResponse, this`response, this`rest
      ensures Valid() && D.Inv(View()) && Went(start, before + [D.ExchangeEnd], View()) && rest.talk.None?
      ensures var Talk(request, stage) := old(rest).talk.value;
              (stage.result.Some? ==> D.Answers(request, stage.result.value)) &&
              rest.returned == old(rest).returned + if stage.result.Some? then [(request, stage.result.value)] else []
    {
      hide Went, D.Inv, D.EndTalk;
      GoneKeeps(start, before, View());
      LastAnswers(View());
      WentMore(start, before, View(), D.ExchangeEnd);
      EndExchange();
      GoneKeeps(start, before + [D.ExchangeEnd], View());
    }

    /** `Exchange`, with the rounds of the reader and the events that come while it waits: a run of the machine. What it
        returns answers its own request, and unless it still waits its slot is free. */
    method Exchange(request: Frame, turns: seq<Turn>, reading: bool)
      returns (done: bool, result: Option<Frame>, ghost actions: seq<D.Action>)
      requires Valid() && D.Inv(View()) && rest.talk.None? && rest.reader == if reading then D.Idle else D.Dead
      modifies this
      ensures Valid() && D.Inv(View()) && Went(old(View()), actions, View())
      ensures done <==> rest.talk.None?
      ensures result.Some? ==> done && D.Answers(request, result.value)
      ensures rest.returned == old(rest).returned + if result.Some? then [(request, result.value)] else []
    {
      hide Went, D.Inv, D.BeginTalk, D.QueueTalk;
      ghost var start := View();
      WentNowhere(start);
      result, actions := None, [];
      var begun := BeginExchange(request);
      if !begun {
        return true, None, [];
      }
      WentMore(start, [], start, D.ExchangeBegin(request));
      actions := [] + [D.ExchangeBegin(request)];
      WentMore(start, actions, View(), D.ExchangeQueue);
      var waiting, mine := QueueExchange(request);
      actions := actions + [D.ExchangeQueue];
      if waiting {
        waiting, result, actions := AwaitExchange(request, mine, turns, reading, start, actions);
      }
      if waiting {
        GoneKeeps(start, actions, View());
        return false, None, actions;
      }
      LeaveExchange(start, actions);
      return true, result, actions + [D.ExchangeEnd];
    }
  }

  // ---------------------------------------------------------------- whole rounds and exchanges

  lemma RanIsFeed(s: D.State, incoming: seq<Byte>, count: nat, actions: seq<D.Action>, t: D.State)
    requires s.reader.Pumping? && count <= |s.reader.outgoing| && s.inbox.receiver.failure.None?
    requires Ran(D.TakeIn(s, incoming, count), actions, t) && Reading.Resting(t.reader)
    ensures Reading.Settled(t) ==
            S.Feed(s.inbox, incoming,
                   Reading.Answering(|s.inbox.receiver.dispatched|,
                                     Reading.Verdicts(D.TakeIn(s, incoming, count), actions)))
  {
    hide D.Legal, D.Execute, Reading.Verdicts, S.Feed, D.TakeIn;
    Reading.ReaderRunIsFeed(s, incoming, count, actions);
  }

  /** `ToolClient.exchange`: request IDs count up from 1 and skip zero when they wrap. */
  class ToolClient {
    var nextID: U32

    constructor ()
      ensures nextID == 1
    {
      nextID := 1;
    }

    method TakeRequestID() returns (id: U32)
      requires nextID != 0
      modifies this
      ensures id == old(nextID) && id != 0 && nextID != 0
      ensures nextID == if id == 0xFFFF_FFFF then 1 else id + 1
    {
      id := nextID;
      nextID := if id == 0xFFFF_FFFF then 1 else id + 1;
    }
  }

  /** The mismatch checks of the tool client cannot fire on what an exchange returns. */
  lemma ClientChecksPass(s: D.State, actions: seq<D.Action>, i: nat)
    requires D.Initial(s) && D.Legal(s, actions) && i < |D.Execute(s, actions).returned|
    ensures var (request, response) := D.Execute(s, actions).returned[i];
            response.requestID == request.requestID &&
            (request.messageType == LIST_TOOLS_REQUEST ==> response.messageType == LIST_TOOLS_RESPONSE) &&
            (request.messageType == INVOKE_TOOL_REQUEST ==> response.messageType == INVOKE_TOOL_RESPONSE)
  {
    D.EveryRunSafe(s, actions);
  }

  /** Where a call that consumes bytes leaves the reader. */
  ghost predicate Ended(cause: Option<Failure>, before: D.Reader, after: D.Reader)
    requires before.Consuming? || before.Scanning?
  {
    after == if cause.Some? then D.Stopping(cause.value) else D.Advancing(before.head, before.sent)
  }

  /** The queue without the write at its front. */
  function Dropped(o: D.Outgoing): D.Outgoing
    requires o.writes != []
  {
    o.(writes := o.writes[1..], queuedBytes := D.Monus(o.queuedBytes, |o.writes[0].data|),
       finished := o.finished + [o.writes[0]])
  }

  lemma EndedFront(o: D.Outgoing)
    requires o.writes != []
    ensures var ended := D.EndFront(o, D.WriteCompleted);
            |ended.writes| == |o.writes| && ended.writes[0].data == o.writes[0].data && ended.queuedBytes == o.queuedBytes &&
            ended.finished == o.finished && Dropped(ended) == D.PopFront(o)
  {
  }

  /** An exchange about to let go has the answer to its own request, or none. */
  lemma LastAnswers(s: D.State)
    requires D.Inv(s) && s.talk.Some? && s.talk.value.stage.Ending?
    ensures var Talk(request, stage) := s.talk.value;
            (stage.result.Some? ==> D.Answers(request, stage.result.value)) && D.EndTalk(s).talk == None &&
            D.EndTalk(s).returned == s.returned + if stage.result.Some? then [(request, stage.result.value)] else []
  {
    hide D.OutInv, D.ReaderInv, D.RequestInv, D.HostInv, D.HostWrites;
  }

  lemma WentNowhere(s: D.State)
    ensures Went(s, [], s)
  {
  }

  lemma RanIsWent(s: D.State, actions: seq<D.Action>, t: D.State)
    requires Ran(s, actions, t)
    ensures Went(s, actions, t)
  {
  }

  lemma GoneKeeps(s: D.State, actions: seq<D.Action>, t: D.State)
    requires D.Inv(s) && Went(s, actions, t)
    ensures D.Inv(t)
  {
    hide D.Inv;
    D.RunKeeps(s, actions);
  }

  /** A reader about to advance a write has it at the front of the queue, and it is counted. */
  lemma FrontIsThere(s: D.State)
    requires D.Inv(s)
    ensures s.reader.Advancing? && s.reader.head ==> s.out.writes != []
    ensures s.out.writes != [] ==> |s.out.writes[0].data| <= s.out.queuedBytes
  {
    hide D.BytesOf, D.DataOf, D.HostWrites, D.WireInv, D.TerminalInv;
    if s.out.writes != [] { D.QueuedAtLeastHead(s.out); }
  }

  lemma RanNothing(s: D.State)
    ensures Ran(s, [], s)
  {
  }

  lemma CountedCall(s: D.State)
    requires s.reader.Serving?
    ensures D.Enabled(s, D.HostBegin) && D.Apply(s, D.HostBegin) == D.BeginHost(s)
    ensures D.BeginHost(s).reader == D.Hosting(s.reader.call, s.reader.head, s.reader.sent)
  {
  }

  lemma RepliedHost(s: D.State, response: Frame)
    requires s.reader.Hosting?
    ensures var refused := D.QueueRefuses(s, Wire(response));
            D.ReplyHost(s, response).reader ==
            if refused.Some? then D.Releasing(refused.value) else D.Resume(s.reader.call, s.reader.head, s.reader.sent)
  {
  }

  /** Where a round leaves the reader. */
  ghost function After(round: Round, r: D.Reader): D.Reader
    requires r.Consuming? || r.Scanning?
  {
    match round
    case More => r
    case Done => D.Advancing(r.head, r.sent)
    case Serve(call) => D.Serving(call, r.head, r.sent)
    case Stop(cause) => D.Stopping(cause)
  }
}
