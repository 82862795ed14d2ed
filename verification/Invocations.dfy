/** One tool invocation from the host's admission check to the decoded result, through the guest. */
module Invocations {
  import opened Bytes
  import opened Framing
  import opened GuestSpec
  import opened GuestTheorems
  import Calls
  import opened Listing

  const INVOCATION_CAPACITY := 16 * 1024 + 256 + 27

  /** What `InvokeTool` does before it talks to the guest. */
  datatype Admission = Refused | TooLarge(size: nat) | Send(payload: seq<Byte>)

  method Admit(name: seq<Byte>, arguments: seq<seq<Byte>>) returns (a: Admission)
    ensures var size := |Calls.Wire(Calls.Call(name, arguments))|;
            a == if !Calls.Encodable(name, arguments) then Refused
                 else if size > INVOCATION_CAPACITY then TooLarge(size)
                 else Send(Calls.Wire(Calls.Call(name, arguments)))
  {
    var size := Calls.InvokeRequestPayloadSize(name, arguments);
    if size.None? {
      return Refused;
    }
    if size.value > INVOCATION_CAPACITY {
      return TooLarge(size.value);
    }
    var payload := Calls.EncodeInvokeRequest(name, arguments);
    return Send(payload.value);
  }

  function RequestFrame(id: U32, call: Calls.Call): Frame {
    Frame(INVOKE_TOOL_REQUEST, id, Calls.Wire(call))
  }

  ghost predicate Admitted(call: Calls.Call) {
    Calls.Encodable(call.name, call.arguments) && |Calls.Wire(call)| <= INVOCATION_CAPACITY
  }

  /** The guest's part: what it does with a call it has parsed. */
  ghost function Handled(st: State, id: U32, call: Calls.Call): Service {
    match Invoke(st.files, call)
    case Reply(status, output, files) => Answer(ToolResponse(id, status, output), st.(files := files))
    case AskHost(service) =>
      Call(Frame(HOST_SERVICE_REQUEST, st.nextID, Calls.Wire(service)), st.(nextID := NextID(st.nextID)))
  }

  /** A request the host admits is never discarded for its size: the guest handles that very call, or, when it has more
      arguments than any tool takes, answers that it failed. */
  lemma AdmittedIsHandled(st: State, id: U32, call: Calls.Call)
    requires Admitted(call) && id != 0
    ensures Sendable(RequestFrame(id, call))
    ensures Serve(st, Received(RequestFrame(id, call)), Calls.Wire(call)) ==
            if |call.arguments| <= Calls.MAX_TOOL_ARGUMENTS then Handled(st, id, call) else Answer(FailureResponse(id), st)
  {
    hide Invoke, Calls.Wire, Calls.Parse;
    ParsedOrNot(call);
  }

  lemma ParsedOrNot(call: Calls.Call)
    requires Admitted(call)
    ensures Calls.Parse(Calls.MAX_TOOL_ARGUMENTS, Calls.Wire(call)) ==
            if |call.arguments| <= Calls.MAX_TOOL_ARGUMENTS then Some(call) else None
  {
    forall i | 0 <= i < |call.arguments|
      ensures |call.arguments[i]| < 0x1_0000_0000
    {
      ArgumentFits(call.arguments, i);
    }
    hide Calls.Wire, Calls.Parse, Calls.ValidName;
    var payload := Calls.Wire(call);
    Calls.ParseWire(Calls.MAX_HOST_ARGUMENTS, call);
    var parsed := Calls.Parse(Calls.MAX_TOOL_ARGUMENTS, payload);
    if parsed.Some? {
      Calls.ParsedIsWire(Calls.MAX_TOOL_ARGUMENTS, payload);
      Calls.ParseWire(Calls.MAX_HOST_ARGUMENTS, parsed.value);
    } else if |call.arguments| <= Calls.MAX_TOOL_ARGUMENTS {
      Calls.ParseWire(Calls.MAX_TOOL_ARGUMENTS, call);
    }
  }

  lemma {:induction false} ArgumentFits(arguments: seq<seq<Byte>>, i: nat)
    requires i < |arguments|
    ensures |arguments[i]| <= |Calls.ArgumentsWire(arguments)|
  {
    if i > 0 {
      ArgumentFits(arguments[1..], i - 1);
    }
  }

  /** `DecodeToolResult`. */
  function DecodeToolResult(payload: seq<Byte>): Option<(U32, seq<Byte>)> {
    if |payload| < 4 then None else Some((ReadU32(payload), payload[4..]))
  }

  /** What the guest makes of an admitted call: that of the named tool, or failure when it has too many arguments. */
  ghost function Reacted(l: seq<File>, call: Calls.Call): Reaction {
    if |call.arguments| <= Calls.MAX_TOOL_ARGUMENTS then Invoke(l, call) else Failure(l)
  }

  /** The service a tool asks the host for: the tool's own name, with the source snapshot of this very store where the
      tool sends one. */
  ghost predicate AsksFor(l: seq<File>, call: Calls.Call, service: Calls.Call) {
    (call.name == BUILD && service == Calls.Call(BUILD, [SourceSnapshot(l)])) ||
    (call.name == FINISH && |call.arguments| == 1 && service == Calls.Call(FINISH, [call.arguments[0], SourceSnapshot(l)])) ||
    (call.name == FEATURE && service == call)
  }

  /** A host answer that the guest relays: to the request it sent, with a status and an output that fits. */
  predicate Relayable(answer: Frame, hostID: U32) {
    answer.messageType == HOST_SERVICE_RESPONSE && answer.requestID == hostID && |answer.payload| >= 4 &&
    ReadU32(answer.payload) <= 2 && |answer.payload| - 4 <= HOST_OUTPUT_MAX
  }

  /** Every admitted call that needs no host comes back as one frame, from which the host decodes exactly the status and
      output of the tool; with more arguments than any tool takes, those of failure. */
  lemma AnswerComesBack(st: State, id: U32, call: Calls.Call)
    requires Good(st) && Admitted(call) && id != 0 && Reacted(st.files, call).Reply?
    ensures Sendable(RequestFrame(id, call))
    ensures var o := KernelRun(st, Wire(RequestFrame(id, call)));
            var answer := Reacted(st.files, call);
            var reply := ToolResponse(id, answer.status, answer.output);
            o.state.files == answer.files && !o.halted && ExtractFrame(o.output) == Complete(reply, []) &&
            DecodeToolResult(reply.payload) == Some((answer.status, answer.output))
  {
    hide Invoke, Serve, Listing.Valid;
    var f := RequestFrame(id, call);
    AdmittedIsHandled(st, id, call);
    ServeProper(st, Received(f), f.payload);
    var answer := Reacted(st.files, call);
    var reply := ToolResponse(id, answer.status, answer.output);
    ServeWire(st, f, []);
    assert Wire(f) + [] == Wire(f);
    assert Wire(reply) + [] == Wire(reply);
    ExtractWire(reply, []);
    U32RoundTrip(answer.status, answer.output);
  }

  /** Every admitted call that needs the host: whatever frame the host answers with, the guest sends one request that the
      host parses as the service call for this store, then one reply, from which the host decodes its own status and
      output when its answer can be relayed, and failure otherwise. */
  lemma HostAnswerComesBack(st: State, id: U32, call: Calls.Call, answer: Frame)
    requires Good(st) && Admitted(call) && id != 0 && Reacted(st.files, call).AskHost? && Sendable(answer)
    ensures Sendable(RequestFrame(id, call)) && AsksFor(st.files, call, Reacted(st.files, call).service)
    ensures var service := Reacted(st.files, call).service;
            var asked := Frame(HOST_SERVICE_REQUEST, st.nextID, Calls.Wire(service));
            var reply := RelayedReply(st.nextID, id, answer);
            var o := KernelRun(st, Wire(RequestFrame(id, call)) + Wire(answer));
            o == Outcome(Wire(asked) + Wire(reply), State(st.files, NextID(st.nextID)), false) &&
            ExtractFrame(o.output) == Complete(asked, Wire(reply)) && ExtractFrame(Wire(reply)) == Complete(reply, []) &&
            Calls.Parse(Calls.MAX_HOST_ARGUMENTS, asked.payload) == Some(service) && reply.requestID == id &&
            DecodeToolResult(reply.payload) ==
            Some(if Relayable(answer, st.nextID) then (ReadU32(answer.payload), answer.payload[4..]) else (1, []))
  {
    hide Invoke, Serve, Listing.Valid, KernelRun, Calls.Wire, Calls.Parse, Wire, ExtractFrame, SourceSnapshot, RelayedReply;
    var f, service := RequestFrame(id, call), Reacted(st.files, call).service;
    var asked := Frame(HOST_SERVICE_REQUEST, st.nextID, Calls.Wire(service));
    var reply := RelayedReply(st.nextID, id, answer);
    AdmittedIsHandled(st, id, call);
    ServeProper(st, Received(f), f.payload);
    ServiceAsked(st.files, call);
    HostCanParse(st.files, call);
    ServeWire(st, f, Wire(answer));
    Relays(st, asked, id, answer);
    ExtractWire(asked, Wire(reply));
    RelayedFits(st.nextID, id, answer);
    ExtractWire(reply, []);
    assert Wire(reply) + [] == Wire(reply);
    Relayed(st.nextID, id, answer);
  }

  lemma ServiceAsked(l: seq<File>, call: Calls.Call)
    requires Invoke(l, call).AskHost?
    ensures AsksFor(l, call, Invoke(l, call).service)
  {
    hide Calls.Wire, SourceSnapshot;
  }

  /** What the guest sends the host parses to what the guest meant. */
  lemma HostCanParse(l: seq<File>, call: Calls.Call)
    requires Listing.Valid(l) && Invoke(l, call).AskHost?
    ensures var service := Invoke(l, call).service;
            Calls.Parse(Calls.MAX_HOST_ARGUMENTS, Calls.Wire(service)) == Some(service)
  {
    hide Calls.Wire, Calls.Parse, Invoke;
    InvokeProper(l, call);
    Calls.ParseWire(Calls.MAX_HOST_ARGUMENTS, Invoke(l, call).service);
  }

  /** The rest of the run after the request to the host: its answer is relayed, and then the guest waits. */
  lemma Relays(st: State, asked: Frame, id: U32, answer: Frame)
    requires Sendable(answer) && asked.requestID == st.nextID
    ensures var next, reply := State(st.files, NextID(st.nextID)), RelayedReply(asked.requestID, id, answer);
            ResumeCall(asked, next, RelayBytes(asked.requestID, id, Wire(answer))) ==
            Outcome(Wire(asked) + Wire(reply), next, false)
  {
    hide RelayedReply, Wire, RelayBytes;
    RelayWire(asked.requestID, id, answer, []);
    assert Wire(answer) + [] == Wire(answer);
    var reply := RelayedReply(asked.requestID, id, answer);
    assert Wire(asked) + Wire(reply) + [] == Wire(asked) + Wire(reply);
  }

  lemma Relayed(hostID: U32, id: U32, answer: Frame)
    ensures var reply := RelayedReply(hostID, id, answer);
            reply.requestID == id &&
            DecodeToolResult(reply.payload) ==
            Some(if Relayable(answer, hostID) then (ReadU32(answer.payload), answer.payload[4..]) else (1, []))
  {
    U32RoundTrip(1, []);
    assert U32LE(1) + [] == U32LE(1);
    assert (U32LE(1) + [])[4..] == [];
  }
}
