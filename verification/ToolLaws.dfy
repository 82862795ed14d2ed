/** What each tool does, from the bytes of its call to the map of files and the result the host decodes, without the
    functions that specify the tools. */
module ToolLaws {
  import opened Bytes
  import opened AsciiText
  import opened Framing
  import opened Listing
  import opened GuestSpec
  import opened GuestTheorems
  import opened Invocations
  import Calls
  import Decimal
  import Snapshot
  import SourcePaths
  import Utf8

  /** The files a kernel is left with after one request. */
  ghost function FilesAfter(st: State, id: U32, call: Calls.Call): seq<File> {
    KernelRun(st, Wire(RequestFrame(id, call))).state.files
  }

  /** The kernel answers the request with one frame of the right type and ID, from which the host decodes this result, asks
      the host nothing, and goes on. */
  ghost predicate Responds(st: State, id: U32, call: Calls.Call, status: U32, output: seq<Byte>) {
    var o := KernelRun(st, Wire(RequestFrame(id, call)));
    o.state.nextID == st.nextID && !o.halted &&
    exists f: Frame :: ExtractFrame(o.output) == Complete(f, []) && f.messageType == 0x8002 && f.requestID == id &&
                       DecodeToolResult(f.payload) == Some((status, output))
  }

  ghost predicate Asked(st: State, id: U32, call: Calls.Call) {
    Good(st) && id != 0 && Admitted(call)
  }

  lemma Reacts(st: State, id: U32, call: Calls.Call)
    requires Asked(st, id, call) && Reacted(st.files, call).Reply?
    ensures var answer := Reacted(st.files, call);
            Responds(st, id, call, answer.status, answer.output) && FilesAfter(st, id, call) == answer.files
  {
    hide Invoke, KernelRun, ExtractFrame, Good, Admitted, DecodeToolResult;
    AnswerComesBack(st, id, call);
    KeepsCounter(st, id, call);
    var answer := Reacted(st.files, call);
    assert ToolResponse(id, answer.status, answer.output).messageType == 0x8002;
  }

  lemma KeepsCounter(st: State, id: U32, call: Calls.Call)
    requires Asked(st, id, call) && Reacted(st.files, call).Reply?
    ensures KernelRun(st, Wire(RequestFrame(id, call))).state.nextID == st.nextID
  {
    hide Invoke, Serve, Listing.Valid;
    var f := RequestFrame(id, call);
    AdmittedIsHandled(st, id, call);
    ServeWire(st, f, []);
    assert Wire(f) + [] == Wire(f);
  }

  /** The names of the tools. */
  lemma Names()
    ensures LIST == Ascii("list") && READ == Ascii("read") && WRITE == Ascii("write") && TRUNCATE == Ascii("truncate")
    ensures REMOVE == Ascii("remove") && BUILD == Ascii("build") && FINISH == Ascii("finish_generation")
    ensures FEATURE == Ascii("request_feature")
  {
  }

  lemma Distinct()
    ensures LIST != READ && LIST != WRITE && LIST != TRUNCATE && LIST != REMOVE && READ != WRITE && READ != TRUNCATE &&
            READ != REMOVE && WRITE != TRUNCATE && WRITE != REMOVE && TRUNCATE != REMOVE
    ensures BUILD !in [LIST, READ, WRITE, TRUNCATE, REMOVE] && FINISH !in [LIST, READ, WRITE, TRUNCATE, REMOVE, BUILD] &&
            FEATURE !in [LIST, READ, WRITE, TRUNCATE, REMOVE, BUILD, FINISH]
  {
    assert |BUILD| == 5 && |WRITE| == 5 && BUILD[0] != WRITE[0];
    assert LIST[0] != READ[0];
  }

  predicate PathAccepted(path: seq<Byte>) {
    1 <= |path| <= 255 && Utf8.Valid(path)
  }

  /** A change of the files by a tool: done and reported, or refused with nothing changed. */
  ghost predicate Does(st: State, id: U32, call: Calls.Call, accepted: bool, op: Op) {
    var m, files := AsMap(st.files), FilesAfter(st, id, call);
    var done := accepted && MapAttempt(m, op).Some?;
    Responds(st, id, call, if done then 0 else 1, []) && Listing.Valid(files) &&
    AsMap(files) == if done then MapStep(m, op) else m
  }

  lemma DoneDoes(st: State, id: U32, call: Calls.Call, accepted: bool, op: Op)
    requires Asked(st, id, call)
    requires Reacted(st.files, call) == if accepted then Done(st.files, Attempt(st.files, op)) else Failure(st.files)
    ensures Does(st, id, call, accepted, op)
  {
    hide Reacted, Responds, FilesAfter, Attempt, MapAttempt, AsMap, Listing.Valid, Admitted;
    Reacts(st, id, call);
    AttemptRefinesMap(st.files, op);
  }

  /** `write`: its three arguments are a path, an offset in decimal and the data. */
  lemma WriteCall(st: State, id: U32, path: seq<Byte>, number: seq<Byte>, data: seq<Byte>)
    requires Asked(st, id, Calls.Call(Ascii("write"), [path, number, data]))
    ensures var offset := Decimal.Parse(number);
            Does(st, id, Calls.Call(Ascii("write"), [path, number, data]), PathAccepted(path) && offset.Some?,
                 WriteOp(path, if offset.Some? then offset.value else 0, data))
  {
    hide Asked, Does, Decimal.Parse, Utf8.Valid, Listing.Write, Ascii;
    Names();
    Distinct();
    var offset := Decimal.Parse(number);
    DoneDoes(st, id, Calls.Call(Ascii("write"), [path, number, data]), PathAccepted(path) && offset.Some?,
             WriteOp(path, if offset.Some? then offset.value else 0, data));
  }

  /** `truncate`: a path and a size in decimal. */
  lemma TruncateCall(st: State, id: U32, path: seq<Byte>, number: seq<Byte>)
    requires Asked(st, id, Calls.Call(Ascii("truncate"), [path, number]))
    ensures var size := Decimal.Parse(number);
            Does(st, id, Calls.Call(Ascii("truncate"), [path, number]), PathAccepted(path) && size.Some?,
                 TruncateOp(path, if size.Some? then size.value else 0))
  {
    hide Asked, Does, Decimal.Parse, Utf8.Valid, Listing.Truncate, Ascii;
    Names();
    Distinct();
    var size := Decimal.Parse(number);
    DoneDoes(st, id, Calls.Call(Ascii("truncate"), [path, number]), PathAccepted(path) && size.Some?,
             TruncateOp(path, if size.Some? then size.value else 0));
  }

  /** `remove`: a path. */
  lemma RemoveCall(st: State, id: U32, path: seq<Byte>)
    requires Asked(st, id, Calls.Call(Ascii("remove"), [path]))
    ensures Does(st, id, Calls.Call(Ascii("remove"), [path]), PathAccepted(path), RemoveOp(path))
  {
    hide Asked, Does, Utf8.Valid, Listing.Remove, Ascii;
    Names();
    Distinct();
    DoneDoes(st, id, Calls.Call(Ascii("remove"), [path]), PathAccepted(path), RemoveOp(path));
  }

  // ---------------------------------------------------------------- reading and listing

  /** As much of `content` from `offset` on as there is, up to `length` bytes. */
  function Part(content: seq<Byte>, offset: nat, length: nat): seq<Byte>
    requires offset <= |content|
  {
    content[offset..Min(|content|, offset + length)]
  }

  /** `read`: a path, an offset and a length in decimal. The answer is that part of the file, cut at its end. */
  lemma ReadCall(st: State, id: U32, path: seq<Byte>, from: seq<Byte>, count: seq<Byte>)
    requires Asked(st, id, Calls.Call(Ascii("read"), [path, from, count]))
    ensures var m, offset, length := AsMap(st.files), Decimal.Parse(from), Decimal.Parse(count);
            var call := Calls.Call(Ascii("read"), [path, from, count]);
            FilesAfter(st, id, call) == st.files &&
            if PathAccepted(path) && offset.Some? && length.Some? && length.value <= 0xFF_FFFC && path in m &&
               offset.value <= |m[path]|
            then Responds(st, id, call, 0, Part(m[path], offset.value, length.value))
            else Responds(st, id, call, 1, [])
  {
    hide Decimal.Parse, Utf8.Valid, Ascii, AsMap, IndexOf, Responds, FilesAfter, Admitted;
    Names();
    Distinct();
    AsMapAt(st.files);
    Reacts(st, id, Calls.Call(Ascii("read"), [path, from, count]));
  }

  /** Each path with a line feed after it. */
  function Terminated(ps: seq<Path>): seq<Byte> {
    if ps == [] then [] else Terminated(ps[..|ps| - 1]) + ps[|ps| - 1] + [10]
  }

  /** The paths of the store that begin with `prefix`, in their order. */
  ghost predicate Lists(m: Listing.Store, prefix: seq<Byte>, ps: seq<Path>) {
    (forall p :: p in ps <==> p in m && prefix <= p) && (forall i, j :: 0 <= i < j < |ps| ==> Less(ps[i], ps[j]))
  }

  predicate OneLine(path: Path) {
    10 !in path && 13 !in path
  }

  function Below(l: seq<File>, prefix: seq<Byte>): (ps: seq<Path>)
    ensures forall p :: p in ps <==> exists i :: 0 <= i < |l| && l[i].path == p && prefix <= p
  {
    if l == [] then []
    else
      var front, last := Below(l[..|l| - 1], prefix), l[|l| - 1].path;
      if prefix <= last then front + [last] else front
  }

  lemma {:induction false} BelowLines(l: seq<File>, prefix: seq<Byte>)
    ensures Lines(l, prefix) == Terminated(Below(l, prefix))
  {
    if l != [] {
      BelowLines(l[..|l| - 1], prefix);
      var front := Below(l[..|l| - 1], prefix);
      assert (front + [l[|l| - 1].path])[..|front|] == front;
    }
  }

  lemma {:induction false} BelowSorted(l: seq<File>, prefix: seq<Byte>)
    requires Sorted(l)
    ensures forall i, j :: 0 <= i < j < |Below(l, prefix)| ==> Less(Below(l, prefix)[i], Below(l, prefix)[j])
  {
    hide Less;
    if l != [] {
      var front, ps := l[..|l| - 1], Below(l[..|l| - 1], prefix);
      BelowSorted(front, prefix);
      forall i | 0 <= i < |ps|
        ensures Less(ps[i], l[|l| - 1].path)
      {
        assert ps[i] in ps;
        var k :| 0 <= k < |front| && front[k].path == ps[i];
        assert front[k] == l[k];
      }
    }
  }

  lemma BelowLists(l: seq<File>, prefix: seq<Byte>)
    requires Sorted(l)
    ensures Lists(AsMap(l), prefix, Below(l, prefix))
    ensures Listable(l, prefix) <==> forall p :: p in AsMap(l) && prefix <= p ==> OneLine(p)
  {
    hide Less, AsMap, IndexOf;
    AsMapAt(l);
    BelowSorted(l, prefix);
    hide Sorted;
  }

  /** `list`: at most one argument, a prefix. The answer is the paths that begin with it, one to a line; it fails exactly
      when the prefix is not text or one of these paths would take more than a line. */
  lemma ListCall(st: State, id: U32, arguments: seq<seq<Byte>>)
    requires |arguments| <= 1 && Asked(st, id, Calls.Call(Ascii("list"), arguments))
    ensures var m, call := AsMap(st.files), Calls.Call(Ascii("list"), arguments);
            var prefix := if arguments == [] then [] else arguments[0];
            FilesAfter(st, id, call) == st.files &&
            if Utf8.Valid(prefix) && forall p :: p in m && prefix <= p ==> OneLine(p)
            then exists ps :: Lists(m, prefix, ps) && Responds(st, id, call, 0, Terminated(ps))
            else Responds(st, id, call, 1, [])
  {
    hide Utf8.Valid, Ascii, AsMap, Responds, FilesAfter, Admitted, Lists, Listable, Lines, Below, Terminated, Less;
    var prefix := if arguments == [] then [] else arguments[0];
    Names();
    BelowLists(st.files, prefix);
    BelowLines(st.files, prefix);
    Reacts(st, id, Calls.Call(Ascii("list"), arguments));
  }

  // ---------------------------------------------------------------- calls to the host, and all others

  /** The service a call asks the host for, if it asks. */
  function ServiceOf(l: seq<File>, call: Calls.Call): Option<Calls.Call> {
    if call.name == Ascii("build") && call.arguments == [] then Some(Calls.Call(Ascii("build"), [SourceSnapshot(l)]))
    else if call.name == Ascii("finish_generation") && |call.arguments| == 1 &&
            |call.arguments[0]| <= 0x4000 && Utf8.Valid(call.arguments[0]) then
      Some(Calls.Call(Ascii("finish_generation"), [call.arguments[0], SourceSnapshot(l)]))
    else if call.name == Ascii("request_feature") && |call.arguments| == 2 &&
            1 <= |call.arguments[0]| <= 256 && |call.arguments[1]| <= 0x4000 && Utf8.Valid(call.arguments[0]) &&
            Utf8.Valid(call.arguments[1]) then Some(call)
    else None
  }

  lemma ServiceFits(l: seq<File>, call: Calls.Call)
    requires Listing.Valid(l) && ServiceOf(l, call).Some?
    ensures |Calls.Wire(ServiceOf(l, call).value)| <= MAX_PAYLOAD
  {
    hide Listing.Valid, Utf8.Valid;
    Snapshot.GuestSnapshotFits(l);
    var service := ServiceOf(l, call).value;
    var a: seq<seq<Byte>> := service.arguments;
    if |a| == 1 {
      assert a[1..] == [] && a == [a[0]];
    } else {
      var last: seq<seq<Byte>> := a[1..];
      assert last == [a[1]] && last[1..] == [];
      assert Calls.ArgumentsWire(a[1..]) == U32LE(|a[1]|) + a[1] + [];
    }
    assert |Calls.ArgumentsWire(a)| <= 8 + 0x4000 + 98946;
  }

  lemma HostAsked(l: seq<File>, call: Calls.Call)
    requires Listing.Valid(l)
    ensures Reacted(l, call).AskHost? <==> ServiceOf(l, call).Some?
    ensures ServiceOf(l, call).Some? ==> Reacted(l, call).service == ServiceOf(l, call).value
  {
    hide Listing.Valid, Utf8.Valid, Calls.Wire, Ascii, SourceSnapshot, ListTool, ReadTool, WriteTool, TruncateTool, RemoveTool;
    Names();
    Distinct();
    if ServiceOf(l, call).Some? { ServiceFits(l, call); }
  }

  /** `build`, `finish_generation` and `request_feature`: whatever frame the host answers with, the kernel sends one request
      that the host parses as that service, then one reply, from which the host decodes its own status and output when the
      kernel can relay them, and failure otherwise. */
  lemma HostCall(st: State, id: U32, call: Calls.Call, answer: Frame)
    requires Asked(st, id, call) && Sendable(answer) && ServiceOf(st.files, call).Some?
    ensures var o := KernelRun(st, Wire(RequestFrame(id, call)) + Wire(answer));
            o.state.files == st.files && !o.halted &&
            exists asked: Frame, reply: Frame ::
              ExtractFrame(o.output) == Complete(asked, Wire(reply)) && ExtractFrame(Wire(reply)) == Complete(reply, []) &&
              asked.messageType == 0x0003 && asked.requestID == st.nextID &&
              Calls.Parse(64, asked.payload) == ServiceOf(st.files, call) && reply.requestID == id &&
              DecodeToolResult(reply.payload) ==
              Some(if Relayable(answer, st.nextID) then (ReadU32(answer.payload), answer.payload[4..]) else (1, []))
  {
    hide ServiceOf, Reacted, KernelRun, ExtractFrame, Wire, Calls.Wire, Calls.Parse, Relayable, DecodeToolResult, RelayedReply;
    HostAsked(st.files, call);
    HostAnswerComesBack(st, id, call, answer);
    var asked := Frame(HOST_SERVICE_REQUEST, st.nextID, Calls.Wire(ServiceOf(st.files, call).value));
    assert asked.messageType == 0x0003;
  }

  /** The number of arguments a tool takes. */
  predicate Shaped(call: Calls.Call) {
    (call.name == Ascii("list") && |call.arguments| <= 1) || (call.name == Ascii("read") && |call.arguments| == 3) ||
    (call.name == Ascii("write") && |call.arguments| == 3) || (call.name == Ascii("truncate") && |call.arguments| == 2) ||
    (call.name == Ascii("remove") && |call.arguments| == 1)
  }

  /** Every other call fails and changes nothing. */
  lemma OtherCalls(st: State, id: U32, call: Calls.Call)
    requires Asked(st, id, call) && !Shaped(call) && ServiceOf(st.files, call).None?
    ensures Responds(st, id, call, 1, []) && FilesAfter(st, id, call) == st.files
  {
    hide ServiceOf, Ascii, SourceSnapshot, Responds, FilesAfter, Admitted, Calls.Wire, Utf8.Valid, Listing.Valid;
    Names();
    HostAsked(st.files, call);
    Reacts(st, id, call);
  }
}
