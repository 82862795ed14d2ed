/** The guest kernel as a function of the bytes it reads: its tools, its frame loop and its calls to the host. */
module GuestSpec {
  import opened Bytes
  import opened Listing
  import opened Framing
  import Utf8
  import SourcePaths
  import Snapshot
  import Calls
  import Decimal

  const LIST: seq<Byte> := [108, 105, 115, 116]
  const READ: seq<Byte> := [114, 101, 97, 100]
  const WRITE: seq<Byte> := [119, 114, 105, 116, 101]
  const TRUNCATE: seq<Byte> := [116, 114, 117, 110, 99, 97, 116, 101]
  const REMOVE: seq<Byte> := [114, 101, 109, 111, 118, 101]
  const BUILD: seq<Byte> := [98, 117, 105, 108, 100]
  const FINISH: seq<Byte> := [102, 105, 110, 105, 115, 104, 95, 103, 101, 110, 101, 114, 97, 116, 105, 111, 110]
  const FEATURE: seq<Byte> := [114, 101, 113, 117, 101, 115, 116, 95, 102, 101, 97, 116, 117, 114, 101]

  const HANDOFF_MAX := 16 * 1024
  const TITLE_MAX := 256
  const DESCRIPTION_MAX := 16 * 1024
  const HOST_OUTPUT_MAX := 64 * 1024

  /** The mutable part of the kernel: its files and the next host request ID. */
  datatype State = State(files: seq<File>, nextID: U32)

  ghost predicate Good(st: State) {
    Listing.Valid(st.files) && st.nextID != 0
  }

  // ---------------------------------------------------------------- tools

  /** A tool either answers at once or needs the host first. */
  datatype Reaction = Reply(status: U32, output: seq<Byte>, files: seq<File>) | AskHost(service: Calls.Call)

  function Failure(l: seq<File>): (r: Reaction)
    ensures r.Reply?
  {
    Reply(1, [], l)
  }

  /** The paths below `prefix`, each with a line feed. */
  function Lines(l: seq<File>, prefix: seq<Byte>): seq<Byte> {
    if l == [] then []
    else
      var last := l[|l| - 1].path;
      Lines(l[..|l| - 1], prefix) + if prefix <= last then last + [SourcePaths.LF] else []
  }

  predicate Listable(l: seq<File>, prefix: seq<Byte>) {
    forall i :: 0 <= i < |l| && prefix <= l[i].path ==> SourcePaths.NoLineBreak(l[i].path)
  }

  function ListTool(l: seq<File>, arguments: seq<seq<Byte>>): (r: Reaction)
    ensures r.Reply?
  {
    if |arguments| > 1 then Failure(l)
    else
      var prefix := if |arguments| == 1 then arguments[0] else [];
      if !Utf8.Valid(prefix) || !Listable(l, prefix) then Failure(l) else Reply(0, Lines(l, prefix), l)
  }

  predicate ValidPath(path: seq<Byte>) {
    1 <= |path| <= Listing.MAX_PATH && Utf8.Valid(path)
  }

  ghost function ReadTool(l: seq<File>, arguments: seq<seq<Byte>>): (r: Reaction)
    ensures r.Reply?
  {
    if |arguments| != 3 || !ValidPath(arguments[0]) then Failure(l)
    else
      match (Decimal.Parse(arguments[1]), Decimal.Parse(arguments[2]), IndexOf(l, arguments[0]))
      case (Some(offset), Some(length), Some(i)) =>
        var content := l[i].content;
        if length > MAX_PAYLOAD - 4 || offset > |content| then Failure(l)
        else Reply(0, content[offset..offset + Min(length, |content| - offset)], l)
      case _ => Failure(l)
  }

  function Done(l: seq<File>, attempt: Option<seq<File>>): (r: Reaction)
    ensures r.Reply?
  {
    match attempt
    case None => Failure(l)
    case Some(l') => Reply(0, [], l')
  }

  ghost function WriteTool(l: seq<File>, arguments: seq<seq<Byte>>): (r: Reaction)
    ensures r.Reply?
  {
    if |arguments| != 3 || !ValidPath(arguments[0]) then Failure(l)
    else match Decimal.Parse(arguments[1])
      case None => Failure(l)
      case Some(offset) => Done(l, Listing.Write(l, arguments[0], offset, arguments[2]))
  }

  ghost function TruncateTool(l: seq<File>, arguments: seq<seq<Byte>>): (r: Reaction)
    ensures r.Reply?
  {
    if |arguments| != 2 || !ValidPath(arguments[0]) then Failure(l)
    else match Decimal.Parse(arguments[1])
      case None => Failure(l)
      case Some(size) => Done(l, Listing.Truncate(l, arguments[0], size))
  }

  ghost function RemoveTool(l: seq<File>, arguments: seq<seq<Byte>>): (r: Reaction)
    ensures r.Reply?
  {
    if |arguments| != 1 || !ValidPath(arguments[0]) then Failure(l)
    else Done(l, Listing.Remove(l, arguments[0]))
  }

  /** A host call, unless its request would not fit a frame. */
  function Ask(l: seq<File>, service: Calls.Call): Reaction {
    if |Calls.Wire(service)| > MAX_PAYLOAD then Failure(l) else AskHost(service)
  }

  function SourceSnapshot(l: seq<File>): seq<Byte> {
    Snapshot.Wire(Snapshot.Selected(l))
  }

  function BuildTool(l: seq<File>, arguments: seq<seq<Byte>>): Reaction {
    if |arguments| != 0 then Failure(l) else Ask(l, Calls.Call(BUILD, [SourceSnapshot(l)]))
  }

  function FinishTool(l: seq<File>, arguments: seq<seq<Byte>>): Reaction {
    if |arguments| != 1 || |arguments[0]| > HANDOFF_MAX || !Utf8.Valid(arguments[0]) then Failure(l)
    else Ask(l, Calls.Call(FINISH, [arguments[0], SourceSnapshot(l)]))
  }

  function FeatureTool(l: seq<File>, arguments: seq<seq<Byte>>): Reaction {
    if |arguments| != 2 || |arguments[0]| == 0 || |arguments[0]| > TITLE_MAX || |arguments[1]| > DESCRIPTION_MAX ||
       !Utf8.Valid(arguments[0]) || !Utf8.Valid(arguments[1]) then Failure(l)
    else Ask(l, Calls.Call(FEATURE, arguments))
  }

  /** `tools_handle_invocation` after parsing. */
  ghost function Invoke(l: seq<File>, call: Calls.Call): Reaction {
    if call.name == LIST then ListTool(l, call.arguments)
    else if call.name == READ then ReadTool(l, call.arguments)
    else if call.name == WRITE then WriteTool(l, call.arguments)
    else if call.name == TRUNCATE then TruncateTool(l, call.arguments)
    else if call.name == REMOVE then RemoveTool(l, call.arguments)
    else if call.name == BUILD then BuildTool(l, call.arguments)
    else if call.name == FINISH then FinishTool(l, call.arguments)
    else if call.name == FEATURE then FeatureTool(l, call.arguments)
    else Failure(l)
  }

  ghost function React(l: seq<File>, payload: seq<Byte>): Reaction {
    match Calls.Parse(Calls.MAX_TOOL_ARGUMENTS, payload)
    case None => Failure(l)
    case Some(call) => Invoke(l, call)
  }

  // ---------------------------------------------------------------- frames

  function ToolResponse(id: U32, status: U32, output: seq<Byte>): Frame {
    Frame(INVOKE_TOOL_RESPONSE, id, U32LE(status) + output)
  }

  function FailureResponse(id: U32): Frame {
    ToolResponse(id, 1, [])
  }

  function NameWire(name: seq<Byte>): seq<Byte> {
    U16LE(|name|) + name
  }

  function ToolListResponse(id: U32): (f: Frame)
    ensures |f.payload| == 82
  {
    Frame(LIST_TOOLS_RESPONSE, id,
          U16LE(8) + NameWire(LIST) + NameWire(READ) + NameWire(WRITE) + NameWire(TRUNCATE) + NameWire(REMOVE) +
          NameWire(BUILD) + NameWire(FINISH) + NameWire(FEATURE))
  }

  function NextID(id: U32): (next: U32)
    ensures next != 0
  {
    if id == 0xFFFF_FFFF then 1 else id + 1
  }

  /** What one message read by the loop makes the kernel do. */
  datatype Service = Silent | Answer(reply: Frame, next: State) | Call(request: Frame, next: State)

  ghost function Serve(st: State, raw: RawHeader, payload: seq<Byte>): Service {
    var wellFormed := raw.magicOk && raw.version == VERSION && raw.requestID != 0;
    if |payload| > Calls.REQUEST_BUFFER_SIZE then
      if wellFormed && raw.messageType == INVOKE_TOOL_REQUEST
      then Answer(FailureResponse(raw.requestID), st) else Silent
    else if !wellFormed then Silent
    else if raw.messageType == LIST_TOOLS_REQUEST && payload == [] then Answer(ToolListResponse(raw.requestID), st)
    else if raw.messageType == INVOKE_TOOL_REQUEST then
      match React(st.files, payload)
      case Reply(status, output, files) => Answer(ToolResponse(raw.requestID, status, output), st.(files := files))
      case AskHost(service) =>
        Call(Frame(HOST_SERVICE_REQUEST, st.nextID, Calls.Wire(service)), st.(nextID := NextID(st.nextID)))
    else Silent
  }

  /** The reply that `relay_host_response` makes of a complete host message. */
  function RelayedReply(hostID: U32, toolID: U32, answer: Frame): Frame {
    if answer.messageType != HOST_SERVICE_RESPONSE || answer.requestID != hostID || |answer.payload| < 4 then
      FailureResponse(toolID)
    else if ReadU32(answer.payload) > 2 || |answer.payload| - 4 > HOST_OUTPUT_MAX then FailureResponse(toolID)
    else Frame(INVOKE_TOOL_RESPONSE, toolID, answer.payload)
  }

  /** `relay_host_response` on the bytes received so far: `Waiting` holds what is already written. */
  datatype Relay = Waiting(written: seq<Byte>) | Fatal | Relayed(reply: Frame, rest: seq<Byte>)

  function RelayBytes(hostID: U32, toolID: U32, input: seq<Byte>): Relay {
    if |input| < HEADER_SIZE then Waiting([])
    else
      var raw := ReadHeader(input);
      if raw.length > MAX_PAYLOAD || !raw.magicOk || raw.version != VERSION then Fatal
      else
        var end := HEADER_SIZE + raw.length;
        if |input| >= end then
          var answer := Frame(raw.messageType, raw.requestID, input[HEADER_SIZE..end]);
          Relayed(RelayedReply(hostID, toolID, answer), input[end..])
        else if raw.messageType != HOST_SERVICE_RESPONSE || raw.requestID != hostID || raw.length < 4 then Waiting([])
        else if |input| < HEADER_SIZE + 4 || ReadU32(input[HEADER_SIZE..]) > 2 || raw.length - 4 > HOST_OUTPUT_MAX then
          Waiting([])
        else Waiting(Header(INVOKE_TOOL_RESPONSE, toolID, raw.length) + input[HEADER_SIZE..])
  }

  /** Everything written, the state reached, and whether the kernel halted rather than waits for more input. */
  datatype Outcome = Outcome(output: seq<Byte>, state: State, halted: bool)

  function After(written: seq<Byte>, o: Outcome): Outcome {
    o.(output := written + o.output)
  }

  /** `protocol_loop` on all the bytes that ever arrive. */
  ghost function KernelRun(st: State, input: seq<Byte>): Outcome
    decreases |input|
  {
    if |input| < HEADER_SIZE then Outcome([], st, false)
    else
      var raw := ReadHeader(input);
      var end := HEADER_SIZE + raw.length;
      if raw.length > MAX_PAYLOAD then Outcome([], st, true)
      else if |input| < end then Outcome([], st, false)
      else match Serve(st, raw, input[HEADER_SIZE..end])
        case Silent => KernelRun(st, input[end..])
        case Answer(reply, next) => After(Wire(reply), KernelRun(next, input[end..]))
        case Call(request, next) =>
          match RelayBytes(request.requestID, raw.requestID, input[end..])
          case Waiting(written) => Outcome(Wire(request) + written, next, false)
          case Fatal => Outcome(Wire(request), next, true)
          case Relayed(reply, rest) =>
            assert |rest| < |input|;
            After(Wire(request) + Wire(reply), KernelRun(next, rest))
  }

  /** The rest of a run after one message has been served. */
  ghost function Resume(service: Service, st: State, toolID: U32, rest: seq<Byte>): Outcome {
    match service
    case Silent => KernelRun(st, rest)
    case Answer(reply, next) => After(Wire(reply), KernelRun(next, rest))
    case Call(asked, next) => ResumeCall(asked, next, RelayBytes(asked.requestID, toolID, rest))
  }

  ghost function ResumeCall(asked: Frame, next: State, relay: Relay): Outcome {
    match relay
    case Waiting(written) => Outcome(Wire(asked) + written, next, false)
    case Fatal => Outcome(Wire(asked), next, true)
    case Relayed(reply, rest) => After(Wire(asked) + Wire(reply), KernelRun(next, rest))
  }

  /** One whole message at the front of the input is served, and the run goes on from there. */
  lemma RunStep(st: State, input: seq<Byte>)
    requires |input| >= HEADER_SIZE && ReadHeader(input).length <= MAX_PAYLOAD
    requires |input| >= HEADER_SIZE + ReadHeader(input).length
    ensures var raw := ReadHeader(input); var end := HEADER_SIZE + raw.length;
            KernelRun(st, input) == Resume(Serve(st, raw, input[HEADER_SIZE..end]), st, raw.requestID, input[end..])
  {
    hide Serve, RelayBytes, ReadHeader;
  }
}
