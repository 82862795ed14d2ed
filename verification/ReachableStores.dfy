/** Stores a running kernel can have: their paths stay well-formed text, so the host takes their snapshots. */
module ReachableStores {
  import opened Bytes
  import opened Listing
  import opened FileStore
  import opened Embedding
  import opened Framing
  import opened GuestSpec
  import opened GuestTheorems
  import Utf8
  import SourcePaths
  import Snapshot
  import Calls
  import Decimal

  ghost predicate Utf8Paths(l: seq<File>) {
    forall i :: 0 <= i < |l| ==> Utf8.Valid(l[i].path)
  }

  /** Every path of `m` is one of `l` or the given one. */
  ghost predicate NoNewPaths(l: seq<File>, m: seq<File>, path: Path) {
    forall i :: 0 <= i < |m| ==> m[i].path == path || exists k :: 0 <= k < |l| && l[k].path == m[i].path
  }

  lemma AttemptAddsPath(l: seq<File>, op: Op)
    requires Attempt(l, op).Some?
    ensures NoNewPaths(l, Attempt(l, op).value, op.path)
  {
    hide Less, TotalSize, InsertionPoint, Splice, Resize;
    var m := Attempt(l, op).value;
    forall i | 0 <= i < |m| && m[i].path != op.path
      ensures exists k :: 0 <= k < |l| && l[k].path == m[i].path
    {
      if IndexOf(l, op.path).None? {
        var k := InsertionPoint(l, op.path);
        assert m[i] == if i < k then l[i] else l[i - 1];
      } else if op.RemoveOp? {
        var k := IndexOf(l, op.path).value;
        assert m[i] == if i < k then l[i] else l[i + 1];
      } else {
        assert m[i] == l[i];
      }
    }
  }

  lemma PathsKept(l: seq<File>, m: seq<File>, path: Path)
    requires Utf8Paths(l) && NoNewPaths(l, m, path) && Utf8.Valid(path)
    ensures Utf8Paths(m)
  {
    hide Utf8.Valid;
  }

  lemma DoneKeepsPaths(l: seq<File>, op: Op)
    requires Utf8Paths(l) && Utf8.Valid(op.path)
    ensures Utf8Paths(Done(l, Attempt(l, op)).files)
  {
    hide Utf8Paths, Utf8.Valid, Attempt, NoNewPaths;
    if Attempt(l, op).Some? {
      AttemptAddsPath(l, op);
      PathsKept(l, Attempt(l, op).value, op.path);
    }
  }

  lemma WriteKeepsPaths(l: seq<File>, arguments: seq<seq<Byte>>)
    requires Utf8Paths(l)
    ensures Utf8Paths(WriteTool(l, arguments).files)
  {
    hide Utf8Paths, Utf8.Valid, Listing.Write, Done;
    if |arguments| == 3 && ValidPath(arguments[0]) && Decimal.Parse(arguments[1]).Some? {
      DoneKeepsPaths(l, WriteOp(arguments[0], Decimal.Parse(arguments[1]).value, arguments[2]));
    }
  }

  lemma TruncateKeepsPaths(l: seq<File>, arguments: seq<seq<Byte>>)
    requires Utf8Paths(l)
    ensures Utf8Paths(TruncateTool(l, arguments).files)
  {
    hide Utf8Paths, Utf8.Valid, Listing.Truncate, Done;
    if |arguments| == 2 && ValidPath(arguments[0]) && Decimal.Parse(arguments[1]).Some? {
      DoneKeepsPaths(l, TruncateOp(arguments[0], Decimal.Parse(arguments[1]).value));
    }
  }

  lemma RemoveKeepsPaths(l: seq<File>, arguments: seq<seq<Byte>>)
    requires Utf8Paths(l)
    ensures Utf8Paths(RemoveTool(l, arguments).files)
  {
    hide Utf8Paths, Utf8.Valid, Listing.Remove, Done;
    if |arguments| == 1 && ValidPath(arguments[0]) {
      DoneKeepsPaths(l, RemoveOp(arguments[0]));
    }
  }

  /** No tool makes a path that is not text. */
  lemma InvokeKeepsPaths(l: seq<File>, call: Calls.Call)
    requires Utf8Paths(l) && Invoke(l, call).Reply?
    ensures Utf8Paths(Invoke(l, call).files)
  {
    hide Utf8Paths, Utf8.Valid, Lines, Calls.Wire, SourceSnapshot, WriteTool, TruncateTool, RemoveTool, IndexOf, Listable;
    WriteKeepsPaths(l, call.arguments);
    TruncateKeepsPaths(l, call.arguments);
    RemoveKeepsPaths(l, call.arguments);
  }

  lemma ServeKeepsPaths(st: State, raw: RawHeader, payload: seq<Byte>)
    requires Utf8Paths(st.files)
    ensures var served := Serve(st, raw, payload);
            served.Answer? || served.Call? ==> Utf8Paths(served.next.files)
  {
    hide Utf8Paths, Invoke, Calls.Wire, Calls.Parse, ToolListResponse;
    var parsed := Calls.Parse(Calls.MAX_TOOL_ARGUMENTS, payload);
    if parsed.Some? && Invoke(st.files, parsed.value).Reply? {
      InvokeKeepsPaths(st.files, parsed.value);
    }
  }

  /** Whatever arrives on the line, the store stays valid and its paths stay text. */
  lemma {:induction false} RunKeepsPaths(st: State, input: seq<Byte>)
    requires Good(st) && Utf8Paths(st.files)
    ensures Good(KernelRun(st, input).state) && Utf8Paths(KernelRun(st, input).state.files)
    decreases |input|
  {
    hide Utf8Paths, Good, Serve, ReadHeader, RelayBytes, Wire;
    if |input| >= HEADER_SIZE {
      var raw := ReadHeader(input);
      var end := HEADER_SIZE + raw.length;
      if raw.length <= MAX_PAYLOAD && end <= |input| {
        var payload := input[HEADER_SIZE..end];
        ServeProper(st, raw, payload);
        ServeKeepsPaths(st, raw, payload);
        match Serve(st, raw, payload)
        case Silent => RunKeepsPaths(st, input[end..]);
        case Answer(reply, next) => RunKeepsPaths(next, input[end..]);
        case Call(request, next) =>
          var relay := RelayBytes(request.requestID, raw.requestID, input[end..]);
          if relay.Relayed? {
            RelayTakes(request.requestID, raw.requestID, input[end..]);
            RunKeepsPaths(next, relay.rest);
          }
      }
    }
  }

  lemma RelayTakes(hostID: U32, toolID: U32, input: seq<Byte>)
    requires RelayBytes(hostID, toolID, input).Relayed?
    ensures |RelayBytes(hostID, toolID, input).rest| <= |input|
  {
    hide ReadHeader;
  }

  lemma {:induction false} EmbedKeepsPaths(initial: seq<File>)
    requires Utf8Paths(initial) && Embed(initial).Some?
    ensures Listing.Valid(Embed(initial).value) && Utf8Paths(Embed(initial).value)
  {
    hide Utf8.Valid;
    EmbedExactly(initial);
    var l := Embed(initial).value;
    forall i | 0 <= i < |l|
      ensures Utf8.Valid(l[i].path)
    {
      assert l[i] in multiset(l);
      assert l[i] in initial;
    }
  }

  /** A kernel built with textual paths, whatever it has been sent since it booted. */
  ghost predicate Reachable(l: seq<File>, initial: seq<File>, input: seq<Byte>) {
    Utf8Paths(initial) && Embed(initial).Some? && l == KernelRun(State(Embed(initial).value, 1), input).state.files
  }

  /** The host takes a running kernel's snapshot if and only if no selected path holds a carriage return or line feed, and
      then reads back the very files selected. */
  lemma RunningSnapshotAccepted(l: seq<File>, initial: seq<File>, input: seq<Byte>, budget: nat)
    requires Reachable(l, initial, input) && Snapshot.BudgetValid(budget)
    ensures Snapshot.Decode(SourceSnapshot(l), budget).Some? <==>
            forall i :: 0 <= i < |Snapshot.Selected(l)| ==> SourcePaths.NoLineBreak(Snapshot.Selected(l)[i].path)
    ensures Snapshot.Decode(SourceSnapshot(l), budget).Some? ==>
            Snapshot.Decode(SourceSnapshot(l), budget) == Some(Snapshot.Selected(l))
  {
    hide Embed, KernelRun, Snapshot.Decode, Snapshot.Wire, Utf8.Valid, SourcePaths.NoLineBreak;
    EmbedKeepsPaths(initial);
    RunKeepsPaths(State(Embed(initial).value, 1), input);
    Snapshot.GuestSnapshotAccepted(l, budget);
    var fs := Snapshot.Selected(l);
    forall i | 0 <= i < |fs|
      ensures Utf8.Valid(fs[i].path)
    {
      assert fs[i] in l;
    }
  }
}
