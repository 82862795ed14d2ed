/** The guest kernel itself: it reads and writes the serial line byte by byte and changes its store in place. */
module GuestKernel {
  import opened Bytes
  import opened Listing
  import opened Framing
  import opened GuestSpec
  import FileStore
  import Utf8
  import SourcePaths
  import Snapshot
  import Calls
  import Decimal

  /** The serial line: the bytes still to arrive and the bytes sent. A read with nothing left blocks for good. */
  class Line {
    var input: seq<Byte>
    var output: seq<Byte>

    method Read() returns (r: Option<Byte>)
      modifies this`input
      ensures old(input) == [] ==> r == None && input == []
      ensures old(input) != [] ==> r == Some(old(input)[0]) && input == old(input)[1..]
    {
      if input == [] {
        return None;
      }
      r := Some(input[0]);
      input := input[1..];
    }

    /** Reads `count` bytes, or blocks after reading all there is. */
    method ReadExactly(count: nat) returns (r: Option<seq<Byte>>)
      modifies this`input
      ensures |old(input)| >= count ==> r == Some(old(input)[..count]) && input == old(input)[count..]
      ensures |old(input)| < count ==> r == None
    {
      var bytes: seq<Byte> := [];
      while |bytes| < count
        invariant |bytes| <= count && old(input) == bytes + input
      {
        var b := Read();
        if b.None? {
          return None;
        }
        bytes := bytes + [b.value];
      }
      return Some(bytes);
    }

    method Write(b: Byte)
      modifies this`output
      ensures output == old(output) + [b]
    {
      output := output + [b];
    }

    /** `serial_write_bytes`. */
    method WriteBytes(data: seq<Byte>)
      modifies this`output
      ensures output == old(output) + data
    {
      var index := 0;
      while index < |data|
        invariant index <= |data| && output == old(output) + data[..index]
      {
        Write(data[index]);
        assert data[..index + 1] == data[..index] + [data[index]];
        index := index + 1;
      }
      assert data[..index] == data;
    }

    /** `frame_send_header`. */
    method SendHeader(messageType: U16, requestID: U32, length: nat)
      modifies this`output
      ensures output == old(output) + Header(messageType, requestID, length)
    {
      WriteBytes(MAGIC + U16LE(VERSION) + U16LE(messageType) + U32LE(requestID) + U32LE(length));
    }

    /** `send_invoke_header`: the header and the status of a tool response. */
    method SendInvokeHeader(requestID: U32, status: U32, outputLength: nat)
      modifies this`output
      ensures output == old(output) + (Header(INVOKE_TOOL_RESPONSE, requestID, 4 + outputLength) + U32LE(status))
    {
      SendHeader(INVOKE_TOOL_RESPONSE, requestID, 4 + outputLength);
      WriteBytes(U32LE(status));
    }

    /** A tool response without output: `tools_send_failure` and `send_tool_success`. */
    method SendStatus(requestID: U32, status: U32)
      modifies this`output
      ensures output == old(output) + Framing.Wire(ToolResponse(requestID, status, []))
    {
      SendInvokeHeader(requestID, status, 0);
      assert U32LE(status) + [] == U32LE(status);
    }

    /** A successful tool response. */
    method SendOutput(requestID: U32, result: seq<Byte>)
      modifies this`output
      ensures output == old(output) + Framing.Wire(ToolResponse(requestID, 0, result))
    {
      hide Header;
      SendInvokeHeader(requestID, 0, |result|);
      WriteBytes(result);
    }

    /** `tools_send_list`. */
    method SendToolList(requestID: U32)
      modifies this`output
      ensures output == old(output) + Framing.Wire(ToolListResponse(requestID))
    {
      hide NameWire, U16LE, Header;
      SendHeader(LIST_TOOLS_RESPONSE, requestID, 82);
      ghost var before, payload := output, U16LE(8);
      WriteBytes(U16LE(8));
      SendName(LIST);
      payload := payload + NameWire(LIST);
      assert output == before + payload;
      SendName(READ);
      payload := payload + NameWire(READ);
      assert output == before + payload;
      SendName(WRITE);
      payload := payload + NameWire(WRITE);
      assert output == before + payload;
      SendName(TRUNCATE);
      payload := payload + NameWire(TRUNCATE);
      assert output == before + payload;
      SendName(REMOVE);
      payload := payload + NameWire(REMOVE);
      assert output == before + payload;
      SendName(BUILD);
      payload := payload + NameWire(BUILD);
      assert output == before + payload;
      SendName(FINISH);
      payload := payload + NameWire(FINISH);
      assert output == before + payload;
      SendName(FEATURE);
      payload := payload + NameWire(FEATURE);
      assert output == before + payload;
    }

    method SendName(name: seq<Byte>)
      modifies this`output
      ensures output == old(output) + NameWire(name)
    {
      WriteBytes(U16LE(|name|));
      WriteBytes(name);
    }

    /** `relay_host_response`: the host's answer becomes the tool's reply; nothing is buffered. */
    method RelayHostResponse(hostID: U32, toolID: U32) returns (s: Status)
      modifies this
      ensures Carried(RelayBytes(hostID, toolID, old(input)), old(output), input, output, s)
    {
      ghost var in0, out0 := input, output;
      var header := ReadExactly(HEADER_SIZE);
      if header.None? {
        return Blocked;
      }
      var raw := ReadHeader(header.value);
      assert raw == ReadHeader(in0) by { SameHeader(header.value, input); assert in0 == header.value + input; }
      if raw.length > MAX_PAYLOAD || !raw.magicOk || raw.version != VERSION {
        return Halted;
      }
      if raw.messageType != HOST_SERVICE_RESPONSE || raw.requestID != hostID || raw.length < 4 {
        s := DiscardAndFail(raw.length, toolID);
        return;
      }
      s := RelayMatched(in0, raw.length, hostID, toolID);
    }

    /** `relay_host_response` once the header is known to answer this call. */
    method RelayMatched(ghost in0: seq<Byte>, length: nat, hostID: U32, toolID: U32) returns (s: Status)
      requires |in0| >= HEADER_SIZE && input == in0[HEADER_SIZE..] && 4 <= length <= MAX_PAYLOAD
      requires ReadHeader(in0) == RawHeader(true, VERSION, HOST_SERVICE_RESPONSE, hostID, length)
      modifies this
      ensures Carried(RelayBytes(hostID, toolID, in0), old(output), input, output, s)
    {
      hide ReadHeader, Header, U32LE, ReadU32;
      var statusBytes := ReadExactly(4);
      if statusBytes.None? {
        return Blocked;
      }
      var status := ReadU32(statusBytes.value);
      RelayedPayload(in0, length, statusBytes.value);
      var outputLength := length - 4;
      if status > 2 || outputLength > HOST_OUTPUT_MAX {
        s := DiscardAndFail(outputLength, toolID);
        return;
      }
      U32Reread(statusBytes.value);
      SendInvokeHeader(toolID, status, outputLength);
      s := CopyThrough(outputLength);
    }

    method DiscardAndFail(count: nat, toolID: U32) returns (s: Status)
      modifies this
      ensures |old(input)| >= count ==>
              s == Live && input == old(input)[count..] && output == old(output) + Framing.Wire(FailureResponse(toolID))
      ensures |old(input)| < count ==> s == Blocked && output == old(output)
    {
      var discarded := ReadExactly(count);
      if discarded.None? {
        return Blocked;
      }
      SendStatus(toolID, 1);
      return Live;
    }

    /** The copy loop: every byte read is written at once. */
    method CopyThrough(count: nat) returns (s: Status)
      modifies this
      ensures |old(input)| >= count ==>
              s == Live && input == old(input)[count..] && output == old(output) + old(input)[..count]
      ensures |old(input)| < count ==> s == Blocked && output == old(output) + old(input)
    {
      var index := 0;
      while index < count
        invariant index <= count && index <= |old(input)|
        invariant input == old(input)[index..] && output == old(output) + old(input)[..index]
      {
        var b := Read();
        if b.None? {
          assert old(input)[..index] == old(input);
          return Blocked;
        }
        Write(b.value);
        assert old(input)[..index + 1] == old(input)[..index] + [b.value];
        index := index + 1;
      }
      return Live;
    }
  }

  datatype Status = Live | Blocked | Halted

  /** The line after a relay. */
  ghost predicate Carried(relay: Relay, out0: seq<Byte>, in1: seq<Byte>, out1: seq<Byte>, s: Status) {
    match relay
    case Waiting(written) => s == Blocked && out1 == out0 + written
    case Fatal => s == Halted && out1 == out0
    case Relayed(reply, rest) => s == Live && out1 == out0 + Framing.Wire(reply) && in1 == rest
  }

  lemma RelayedPayload(in0: seq<Byte>, length: nat, status: seq<Byte>)
    requires |in0| >= HEADER_SIZE + 4 && length >= 4 && status == in0[HEADER_SIZE..][..4]
    ensures in0[HEADER_SIZE..][4..] == in0[HEADER_SIZE + 4..]
    ensures ReadU32(status) == ReadU32(in0[HEADER_SIZE..])
    ensures |in0| >= HEADER_SIZE + length ==> ReadU32(status) == ReadU32(in0[HEADER_SIZE..HEADER_SIZE + length])
    ensures |in0| >= HEADER_SIZE + length ==>
            status + in0[HEADER_SIZE + 4..][..length - 4] == in0[HEADER_SIZE..HEADER_SIZE + length] &&
            in0[HEADER_SIZE + 4..][length - 4..] == in0[HEADER_SIZE + length..]
    ensures status + in0[HEADER_SIZE + 4..] == in0[HEADER_SIZE..]
  {
  }

  // ---------------------------------------------------------------- the kernel

  const STORE_ERROR: seq<Byte> :=
    [67, 79, 68, 69, 88, 79, 83, 45, 83, 69, 69, 68, 45, 83, 84, 79, 82, 69, 45, 69, 82, 82, 79, 82, 10]

  class Kernel {
    const line: Line
    const store: FileStore.Store
    var nextHostRequestID: U32

    ghost predicate Valid()
      reads this, store, store.contents, store.files
    {
      store.Valid() && nextHostRequestID != 0
    }

    ghost function Files(): seq<File>
      reads this, store, store.contents, store.files
      requires Valid()
    {
      store.Contents()
    }

    /** The kernel as linked: an empty store and host request IDs from 1. */
    constructor (line: Line)
      ensures Valid() && this.line == line && Files() == [] && nextHostRequestID == 1
      ensures fresh(store) && fresh(store.contents) && fresh(store.files)
    {
      this.line := line;
      this.store := new FileStore.Store();
      this.nextHostRequestID := 1;
    }

    /** `invoke_list`: one pass to check and measure, one to write. */
    method InvokeList(requestID: U32, arguments: seq<seq<Byte>>)
      requires Valid()
      modifies line`output
      ensures Replied(ListTool(Files(), arguments), requestID, old(line.output), line.output)
    {
      hide Utf8.Valid, FileStore.Packed, Lines, Listable, Header;
      if |arguments| > 1 {
        line.SendStatus(requestID, 1);
        return;
      }
      var prefix: seq<Byte> := [];
      if |arguments| == 1 {
        prefix := arguments[0];
      }
      var utf8 := Utf8.Scan(prefix);
      if !utf8 {
        line.SendStatus(requestID, 1);
        return;
      }
      var length := MeasureLines(prefix);
      if length.None? {
        line.SendStatus(requestID, 1);
        return;
      }
      line.SendInvokeHeader(requestID, 0, length.value);
      WriteLines(prefix);
    }

    method MeasureLines(prefix: seq<Byte>) returns (r: Option<nat>)
      requires Valid()
      ensures r == if Listable(Files(), prefix) then Some(|Lines(Files(), prefix)|) else None
    {
      hide FileStore.Packed, FileStore.Files, Lines;
      NoLines(prefix);
      ghost var l := Files();
      var length := 0;
      var index := 0;
      while index < store.fileCount
        invariant index <= store.fileCount == |l|
        invariant Listable(l[..index], prefix) && length == |Lines(l[..index], prefix)|
      {
        var path := store.PathAt(index);
        LinesStep(l, index, prefix);
        if prefix <= path {
          if SourcePaths.CR in path || SourcePaths.LF in path {
            assert prefix <= l[index].path;
            return None;
          }
          length := length + |path| + 1;
        }
        index := index + 1;
      }
      assert l[..index] == l;
      return Some(length);
    }

    method WriteLines(prefix: seq<Byte>)
      requires Valid()
      modifies line`output
      ensures line.output == old(line.output) + Lines(Files(), prefix)
    {
      hide FileStore.Packed, FileStore.Files, Lines;
      NoLines(prefix);
      ghost var l, before := Files(), line.output;
      var index := 0;
      while index < store.fileCount
        invariant index <= store.fileCount == |l|
        invariant line.output == before + Lines(l[..index], prefix)
      {
        var path := store.PathAt(index);
        LinesStep(l, index, prefix);
        if prefix <= path {
          line.WriteBytes(path);
          line.Write(SourcePaths.LF);
        }
        index := index + 1;
      }
      assert l[..index] == l;
    }

    /** `valid_path`. */
    method ValidatePath(path: seq<Byte>) returns (ok: bool)
      ensures ok <==> ValidPath(path)
    {
      if |path| == 0 || |path| > Listing.MAX_PATH {
        return false;
      }
      ok := Utf8.Scan(path);
    }

    /** `invoke_read`. */
    method InvokeRead(requestID: U32, arguments: seq<seq<Byte>>)
      requires Valid()
      modifies line`output
      ensures Replied(ReadTool(Files(), arguments), requestID, old(line.output), line.output)
    {
      hide ValidPath, Decimal.Parse, FileStore.Packed, IndexOf, Framing.Wire;
      if |arguments| != 3 {
        line.SendStatus(requestID, 1);
        return;
      }
      var pathOk := ValidatePath(arguments[0]);
      var offset := Decimal.ParseDecimal(arguments[1]);
      var length := Decimal.ParseDecimal(arguments[2]);
      if !pathOk || offset.None? || length.None? || length.value > MAX_PAYLOAD - 4 {
        line.SendStatus(requestID, 1);
        return;
      }
      var found := store.Find(arguments[0]);
      if found.None? {
        line.SendStatus(requestID, 1);
        return;
      }
      var content := store.ContentAt(found.value);
      if offset.value > |content| {
        line.SendStatus(requestID, 1);
        return;
      }
      var outputLength := Min(length.value, |content| - offset.value);
      line.SendOutput(requestID, content[offset.value..offset.value + outputLength]);
    }

    /** `invoke_write`. */
    method InvokeWrite(requestID: U32, arguments: seq<seq<Byte>>)
      requires Valid()
      modifies line`output, store, store.contents, store.files
      ensures Valid()
      ensures Replied(WriteTool(old(Files()), arguments), requestID, old(line.output), line.output)
      ensures Files() == WriteTool(old(Files()), arguments).files
    {
      hide ValidPath, Decimal.Parse, FileStore.Packed, Listing.Write;
      var ok := |arguments| == 3;
      if ok {
        ok := ValidatePath(arguments[0]);
        var offset := Decimal.ParseDecimal(arguments[1]);
        ok := ok && offset.Some?;
        if ok {
          ok := store.WriteFile(arguments[0], offset.value, arguments[2]);
        }
      }
      line.SendStatus(requestID, if ok then 0 else 1);
    }

    /** `invoke_truncate`. */
    method InvokeTruncate(requestID: U32, arguments: seq<seq<Byte>>)
      requires Valid()
      modifies line`output, store, store.contents, store.files
      ensures Valid()
      ensures Replied(TruncateTool(old(Files()), arguments), requestID, old(line.output), line.output)
      ensures Files() == TruncateTool(old(Files()), arguments).files
    {
      hide ValidPath, Decimal.Parse, FileStore.Packed, Listing.Truncate;
      var ok := |arguments| == 2;
      if ok {
        ok := ValidatePath(arguments[0]);
        var size := Decimal.ParseDecimal(arguments[1]);
        ok := ok && size.Some?;
        if ok {
          ok := store.TruncateFile(arguments[0], size.value);
        }
      }
      line.SendStatus(requestID, if ok then 0 else 1);
    }

    /** `invoke_remove`. */
    method InvokeRemove(requestID: U32, arguments: seq<seq<Byte>>)
      requires Valid()
      modifies line`output, store, store.contents, store.files
      ensures Valid()
      ensures Replied(RemoveTool(old(Files()), arguments), requestID, old(line.output), line.output)
      ensures Files() == RemoveTool(old(Files()), arguments).files
    {
      hide ValidPath, FileStore.Packed, Listing.Remove;
      var ok := |arguments| == 1;
      if ok {
        ok := ValidatePath(arguments[0]);
        if ok {
          ok := store.RemoveFile(arguments[0]);
        }
      }
      line.SendStatus(requestID, if ok then 0 else 1);
    }

    // -------------------------------------------------------------- calls to the host

    /** `source_snapshot_measure`: the number of files selected and the length of their snapshot. It gives up on a
        snapshot that does not fit a frame, which no store has. */
    method MeasureSnapshot() returns (ok: bool, count: nat, length: nat)
      requires Valid()
      ensures ok && count == |Snapshot.Selected(Files())| && length == |SourceSnapshot(Files())|
    {
      hide FileStore.Packed, FileStore.Files, Snapshot.EntriesWire, Snapshot.Selected, SourcePaths.SafeSeedPath;
      ghost var l := Files();
      ok, count, length := true, 0, 2;
      SelectedNothing();
      var index := 0;
      while ok && index < store.fileCount
        invariant index <= store.fileCount == |l|
        invariant ok ==> count == |Snapshot.Selected(l[..index])| && length == |SourceSnapshot(l[..index])| <= MAX_PAYLOAD
        invariant !ok ==> |SourceSnapshot(l)| > MAX_PAYLOAD
      {
        var path := store.PathAt(index);
        var content := store.ContentAt(index);
        SelectedStep(l, index);
        assert path == l[index].path && content == l[index].content;
        var selected := SourcePaths.BuildPathValid(path);
        if selected {
          var entryLength := 2 + |path| + 4 + |content|;
          if entryLength > MAX_PAYLOAD - length {
            SnapshotGrows(l, index + 1);
            ok := false;
          } else {
            length := length + entryLength;
            count := count + 1;
          }
        }
        index := index + 1;
      }
      assert index == |l| ==> l[..index] == l;
      HoldsFiles(store);
      AlwaysFits(l);
    }

    /** `source_snapshot_write`. */
    method WriteSnapshot(count: nat)
      requires Valid() && count == |Snapshot.Selected(Files())|
      modifies line`output
      ensures line.output == old(line.output) + SourceSnapshot(Files())
    {
      hide FileStore.Packed, FileStore.Files, Snapshot.EntriesWire, Snapshot.Selected, SourcePaths.SafeSeedPath;
      ghost var l, before := Files(), line.output;
      line.WriteBytes(U16LE(count));
      SelectedNothing();
      var index := 0;
      while index < store.fileCount
        invariant index <= store.fileCount == |l|
        invariant line.output == before + (U16LE(count) + Snapshot.EntriesWire(Snapshot.Selected(l[..index])))
      {
        var path := store.PathAt(index);
        SelectedStep(l, index);
        var selected := SourcePaths.BuildPathValid(path);
        if selected {
          WriteEntry(index);
        }
        index := index + 1;
      }
      assert l[..index] == l;
    }

    method WriteEntry(index: nat)
      requires Valid() && index < store.fileCount
      modifies line`output
      ensures line.output == old(line.output) + Snapshot.EntryWire(Files()[index])
    {
      hide FileStore.Packed;
      var path := store.PathAt(index);
      var content := store.ContentAt(index);
      line.WriteBytes(U16LE(|path|));
      line.WriteBytes(path);
      line.WriteBytes(U32LE(|content|));
      line.WriteBytes(content);
    }

    /** `allocate_host_request_id`. */
    method AllocateHostRequestID() returns (id: U32)
      modifies this`nextHostRequestID
      ensures id == old(nextHostRequestID) && nextHostRequestID == NextID(old(nextHostRequestID))
    {
      id := nextHostRequestID;
      nextHostRequestID := if id == 0xFFFF_FFFF then 1 else id + 1;
    }

    /** The header of a host request and its service name. */
    method BeginRequest(id: U32, name: seq<Byte>, count: nat, length: nat)
      modifies line`output
      ensures line.output ==
              old(line.output) + Header(HOST_SERVICE_REQUEST, id, length) + (U16LE(|name|) + name + U16LE(count))
    {
      line.SendHeader(HOST_SERVICE_REQUEST, id, length);
      line.WriteBytes(U16LE(|name|));
      line.WriteBytes(name);
      line.WriteBytes(U16LE(count));
    }

    method SendArgument(argument: seq<Byte>)
      modifies line`output
      ensures line.output == old(line.output) + (U32LE(|argument|) + argument)
    {
      line.WriteBytes(U32LE(|argument|));
      line.WriteBytes(argument);
    }

    /** `send_build_request`. */
    method SendBuildRequest(hostID: U32, count: nat, length: nat)
      requires Valid() && count == |Snapshot.Selected(Files())| && length == |SourceSnapshot(Files())|
      modifies line`output
      ensures line.output == old(line.output) + RequestWire(hostID, Calls.Call(BUILD, [SourceSnapshot(Files())]))
    {
      hide FileStore.Packed, Header, SourceSnapshot;
      OneArgument(BUILD, SourceSnapshot(Files()));
      BeginRequest(hostID, BUILD, 1, 2 + |BUILD| + 2 + 4 + length);
      line.WriteBytes(U32LE(length));
      WriteSnapshot(count);
    }

    /** `send_finish_request`. */
    method SendFinishRequest(hostID: U32, handoff: seq<Byte>, count: nat, length: nat)
      requires Valid() && count == |Snapshot.Selected(Files())| && length == |SourceSnapshot(Files())|
      modifies line`output
      ensures line.output == old(line.output) + RequestWire(hostID, Calls.Call(FINISH, [handoff, SourceSnapshot(Files())]))
    {
      hide FileStore.Packed, Header, SourceSnapshot;
      hide Calls.Wire, U16LE, U32LE;
      ghost var before, snapshot := line.output, SourceSnapshot(Files());
      BeginRequest(hostID, FINISH, 2, 2 + |FINISH| + 2 + 4 + |handoff| + 4 + length);
      SendArgument(handoff);
      line.WriteBytes(U32LE(length));
      WriteSnapshot(count);
      TwoArgumentRequest(before, hostID, FINISH, handoff, snapshot);
    }

    /** `send_feature_request`. */
    method SendFeatureRequest(hostID: U32, title: seq<Byte>, description: seq<Byte>)
      modifies line`output
      ensures line.output == old(line.output) + RequestWire(hostID, Calls.Call(FEATURE, [title, description]))
    {
      hide Header;
      TwoArguments(FEATURE, title, description);
      BeginRequest(hostID, FEATURE, 2, 2 + |FEATURE| + 2 + 4 + |title| + 4 + |description|);
      SendArgument(title);
      SendArgument(description);
    }

    /** `build_tool_invoke`. */
    method InvokeBuild(requestID: U32, arguments: seq<seq<Byte>>) returns (s: Status)
      requires Valid()
      modifies this`nextHostRequestID, line
      ensures Valid() && Files() == old(Files())
      ensures Reacted(BuildTool(Files(), arguments), requestID, old(nextHostRequestID), old(line.input),
                      old(line.output), nextHostRequestID, line.input, line.output, s)
    {
      hide FileStore.Packed, RelayBytes, SourceSnapshot, Calls.Wire, RequestWire;
      if |arguments| != 0 {
        line.SendStatus(requestID, 1);
        return Live;
      }
      var ok, count, length := MeasureSnapshot();
      OneArgument(BUILD, SourceSnapshot(Files()));
      if !ok || length > MAX_PAYLOAD - (2 + |BUILD| + 2 + 4) {
        line.SendStatus(requestID, 1);
        return Live;
      }
      var hostID := AllocateHostRequestID();
      SendBuildRequest(hostID, count, length);
      s := line.RelayHostResponse(hostID, requestID);
    }

    /** `finish_generation_tool_invoke`. */
    method InvokeFinish(requestID: U32, arguments: seq<seq<Byte>>) returns (s: Status)
      requires Valid()
      modifies this`nextHostRequestID, line
      ensures Valid() && Files() == old(Files())
      ensures Reacted(FinishTool(Files(), arguments), requestID, old(nextHostRequestID), old(line.input),
                      old(line.output), nextHostRequestID, line.input, line.output, s)
    {
      hide FileStore.Packed, RelayBytes, SourceSnapshot, Utf8.Valid, Calls.Wire, RequestWire;
      var accepted := |arguments| == 1 && |arguments[0]| <= HANDOFF_MAX;
      if accepted {
        accepted := Utf8.Scan(arguments[0]);
      }
      if !accepted {
        line.SendStatus(requestID, 1);
        return Live;
      }
      var handoff := arguments[0];
      var ok, count, length := MeasureSnapshot();
      var fixed := 2 + |FINISH| + 2 + 4 + 4;
      TwoArguments(FINISH, handoff, SourceSnapshot(Files()));
      if !ok || fixed + |handoff| > MAX_PAYLOAD || length > MAX_PAYLOAD - fixed - |handoff| {
        line.SendStatus(requestID, 1);
        return Live;
      }
      var hostID := AllocateHostRequestID();
      SendFinishRequest(hostID, handoff, count, length);
      s := line.RelayHostResponse(hostID, requestID);
    }

    /** `request_feature_tool_invoke`. */
    method InvokeFeature(requestID: U32, arguments: seq<seq<Byte>>) returns (s: Status)
      requires Valid()
      modifies this`nextHostRequestID, line
      ensures Valid() && Files() == old(Files())
      ensures Reacted(FeatureTool(Files(), arguments), requestID, old(nextHostRequestID), old(line.input),
                      old(line.output), nextHostRequestID, line.input, line.output, s)
    {
      hide FileStore.Packed, RelayBytes, Utf8.Valid, Calls.Wire, RequestWire;
      var accepted := |arguments| == 2 && 0 < |arguments[0]| <= TITLE_MAX && |arguments[1]| <= DESCRIPTION_MAX;
      if accepted {
        var titleOk := Utf8.Scan(arguments[0]);
        var descriptionOk := Utf8.Scan(arguments[1]);
        accepted := titleOk && descriptionOk;
      }
      if !accepted {
        line.SendStatus(requestID, 1);
        return Live;
      }
      assert arguments == [arguments[0], arguments[1]];
      TwoArguments(FEATURE, arguments[0], arguments[1]);
      var hostID := AllocateHostRequestID();
      SendFeatureRequest(hostID, arguments[0], arguments[1]);
      s := line.RelayHostResponse(hostID, requestID);
    }

    // -------------------------------------------------------------- the loop

    /** `tools_handle_invocation`. */
    method HandleInvocation(requestID: U32, payload: seq<Byte>) returns (s: Status)
      requires Valid()
      modifies this`nextHostRequestID, line, store, store.contents, store.files
      ensures Valid()
      ensures Reacted(React(old(Files()), payload), requestID, old(nextHostRequestID), old(line.input),
                      old(line.output), nextHostRequestID, line.input, line.output, s)
      ensures Files() == FilesAfter(React(old(Files()), payload), old(Files()))
    {
      hide FileStore.Packed, Invoke, RelayBytes, Calls.Parse;
      var call := Calls.ParseInvocation(payload);
      if call.None? {
        line.SendStatus(requestID, 1);
        return Live;
      }
      s := Dispatch(requestID, call.value);
    }

    method Dispatch(requestID: U32, call: Calls.Call) returns (s: Status)
      requires Valid()
      modifies this`nextHostRequestID, line, store, store.contents, store.files
      ensures Valid()
      ensures Reacted(Invoke(old(Files()), call), requestID, old(nextHostRequestID), old(line.input),
                      old(line.output), nextHostRequestID, line.input, line.output, s)
      ensures Files() == FilesAfter(Invoke(old(Files()), call), old(Files()))
    {
      hide FileStore.Packed, RelayBytes, Carried, Replied;
      hide ListTool, ReadTool, WriteTool, TruncateTool, RemoveTool, BuildTool, FinishTool, FeatureTool;
      s := Live;
      if call.name == LIST {
        ListKeeps(Files(), call.arguments);
        InvokeList(requestID, call.arguments);
      } else if call.name == READ {
        ListKeeps(Files(), call.arguments);
        InvokeRead(requestID, call.arguments);
      } else if call.name == WRITE {
        InvokeWrite(requestID, call.arguments);
      } else if call.name == TRUNCATE {
        InvokeTruncate(requestID, call.arguments);
      } else if call.name == REMOVE {
        InvokeRemove(requestID, call.arguments);
      } else {
        s := DispatchHostTool(requestID, call);
      }
    }

    method DispatchHostTool(requestID: U32, call: Calls.Call) returns (s: Status)
      requires Valid() && call.name !in {LIST, READ, WRITE, TRUNCATE, REMOVE}
      modifies this`nextHostRequestID, line
      ensures Valid() && Files() == old(Files()) == FilesAfter(Invoke(Files(), call), Files())
      ensures Reacted(Invoke(Files(), call), requestID, old(nextHostRequestID), old(line.input),
                      old(line.output), nextHostRequestID, line.input, line.output, s)
    {
      hide FileStore.Packed, RelayBytes, BuildTool, FinishTool, FeatureTool, Carried;
      HostToolsKeep(Files(), call.arguments);
      if call.name == BUILD {
        s := InvokeBuild(requestID, call.arguments);
      } else if call.name == FINISH {
        s := InvokeFinish(requestID, call.arguments);
      } else if call.name == FEATURE {
        s := InvokeFeature(requestID, call.arguments);
      } else {
        line.SendStatus(requestID, 1);
        s := Live;
      }
    }

    ghost function State(): State
      reads this, store, store.contents, store.files
      requires Valid()
    {
      GuestSpec.State(Files(), nextHostRequestID)
    }

    /** One round of `protocol_loop`. */
    method Round() returns (s: Status)
      requires Valid()
      modifies this`nextHostRequestID, line, store, store.contents, store.files
      ensures Valid()
      ensures Advanced(old(State()), old(line.input), old(line.output), State(), line.input, line.output, s)
    {
      hide FileStore.Packed, KernelRun, Serve, ReadHeader, Listing.Valid;
      ghost var in0 := line.input;
      RunWaits(State(), in0);
      var header := line.ReadExactly(HEADER_SIZE);
      if header.None? {
        return Blocked;
      }
      var raw := ReadHeader(header.value);
      assert in0 == header.value + line.input;
      SameHeader(header.value, line.input);
      if raw.length > MAX_PAYLOAD {
        return Halted;
      }
      s := ServeMessage(in0, raw);
    }

    /** The body of `protocol_loop` after a header that is not fatal. */
    method ServeMessage(ghost in0: seq<Byte>, raw: RawHeader) returns (s: Status)
      requires Valid() && |in0| >= HEADER_SIZE && line.input == in0[HEADER_SIZE..]
      requires raw == ReadHeader(in0) && raw.length <= MAX_PAYLOAD
      modifies this`nextHostRequestID, line, store, store.contents, store.files
      ensures Valid()
      ensures Advanced(old(State()), in0, old(line.output), State(), line.input, line.output, s)
    {
      hide FileStore.Packed, KernelRun, ReadHeader, React, Listing.Valid;
      RunWaits(State(), in0);
      ghost var end := HEADER_SIZE + raw.length;
      var validHeader := raw.magicOk && raw.version == VERSION;
      var payload := line.ReadExactly(raw.length);
      if payload.None? {
        return Blocked;
      }
      assert payload.value == in0[HEADER_SIZE..end] && line.input == in0[end..];
      RunStep(State(), in0);
      if raw.length > Calls.REQUEST_BUFFER_SIZE {
        if validHeader && raw.messageType == INVOKE_TOOL_REQUEST && raw.requestID != 0 {
          line.SendStatus(raw.requestID, 1);
        }
        return Live;
      }
      if !validHeader || raw.requestID == 0 {
        return Live;
      }
      if raw.messageType == LIST_TOOLS_REQUEST && raw.length == 0 {
        line.SendToolList(raw.requestID);
        return Live;
      }
      if raw.messageType != INVOKE_TOOL_REQUEST {
        return Live;
      }
      ghost var st0, out0, rest := State(), line.output, line.input;
      s := HandleInvocation(raw.requestID, payload.value);
      Invoked(st0, raw, payload.value, in0, rest, out0, State(), line.input, line.output, s);
    }

    /** `protocol_loop`: for every input, the bytes written and the files left are those of the specification. */
    method ProtocolLoop() returns (halted: bool)
      requires Valid()
      modifies this`nextHostRequestID, line, store, store.contents, store.files
      ensures Valid()
      ensures var o := KernelRun(old(State()), old(line.input));
              line.output == old(line.output) + o.output && State() == o.state && halted == o.halted
    {
      hide FileStore.Packed, FileStore.Files, KernelRun, Listing.Valid;
      ghost var st0, in0, out0 := State(), line.input, line.output;
      ghost var written: seq<Byte> := [];
      assert After([], KernelRun(st0, in0)) == KernelRun(st0, in0);
      while true
        invariant Valid() && line.output == out0 + written
        invariant KernelRun(st0, in0) == After(written, KernelRun(State(), line.input))
        decreases |line.input|
      {
        ghost var st1, in1, out1 := State(), line.input, line.output;
        var s := Round();
        ghost var w := line.output[|out1|..];
        assert line.output == out0 + (written + w);
        AfterAfter(written, w, KernelRun(State(), line.input));
        written := written + w;
        if s != Live {
          return s == Halted;
        }
      }
    }

    /** `kmain`: embeds the initial files, announces readiness and serves the line for good. */
    method KMain(initial: seq<File>) returns (halted: bool)
      requires Valid() && nextHostRequestID == 1
      modifies this`nextHostRequestID, line, store, store.contents, store.files
      ensures FileStore.Embed(initial).None? ==> halted && line.output == old(line.output) + STORE_ERROR
      ensures FileStore.Embed(initial).Some? ==>
              Valid() &&
              var o := KernelRun(GuestSpec.State(FileStore.Embed(initial).value, 1), old(line.input));
              line.output == old(line.output) + READY + o.output && State() == o.state && halted == o.halted
    {
      hide FileStore.Packed, KernelRun, Listing.Valid, FileStore.Embed;
      var ok := store.FilesInit(initial);
      if !ok {
        line.WriteBytes(STORE_ERROR);
        return true;
      }
      line.WriteBytes(READY);
      halted := ProtocolLoop();
    }
  }

  /** What one round of the loop did, in terms of the whole run: with `w` the bytes it wrote, either the run goes
      on from the state and the input left, or it ends here. */
  ghost predicate Advanced(st0: State, in0: seq<Byte>, out0: seq<Byte>, st1: State, in1: seq<Byte>, out1: seq<Byte>,
                           s: Status)
  {
    out0 <= out1 &&
    var w := out1[|out0|..];
    if s == Live then |in1| < |in0| && KernelRun(st0, in0) == After(w, KernelRun(st1, in1))
    else KernelRun(st0, in0) == Outcome(w, st1, s == Halted)
  }

  lemma RunWaits(st: State, input: seq<Byte>)
    ensures |input| < HEADER_SIZE ==> KernelRun(st, input) == Outcome([], st, false)
    ensures |input| >= HEADER_SIZE && ReadHeader(input).length > MAX_PAYLOAD ==>
            KernelRun(st, input) == Outcome([], st, true)
    ensures (|input| >= HEADER_SIZE && ReadHeader(input).length <= MAX_PAYLOAD &&
             |input| < HEADER_SIZE + ReadHeader(input).length) ==> KernelRun(st, input) == Outcome([], st, false)
  {
    hide Serve, ReadHeader;
  }

  lemma AfterAfter(a: seq<Byte>, b: seq<Byte>, o: Outcome)
    ensures After(a, After(b, o)) == After(a + b, o)
    ensures After(a, Outcome(b, o.state, o.halted)).output == a + b
  {
    assert a + (b + o.output) == a + b + o.output;
  }

  /** A handled invocation is one round. */
  lemma Invoked(st0: State, raw: RawHeader, payload: seq<Byte>, in0: seq<Byte>, rest: seq<Byte>, out0: seq<Byte>,
                st1: State, in1: seq<Byte>, out1: seq<Byte>, s: Status)
    requires |rest| < |in0| && |payload| <= Calls.REQUEST_BUFFER_SIZE
    requires raw.magicOk && raw.version == VERSION && raw.requestID != 0 && raw.messageType == INVOKE_TOOL_REQUEST
    requires KernelRun(st0, in0) == Resume(Serve(st0, raw, payload), st0, raw.requestID, rest)
    requires Reacted(React(st0.files, payload), raw.requestID, st0.nextID, rest, out0, st1.nextID, in1, out1, s)
    requires st1.files == FilesAfter(React(st0.files, payload), st0.files)
    ensures Advanced(st0, in0, out0, st1, in1, out1, s)
  {
    hide KernelRun, React, RelayBytes, Framing.Wire, Calls.Wire, ResumeCall, Carried;
    var r := React(st0.files, payload);
    if r.AskHost? {
      RelayShrinks(st0.nextID, raw.requestID, rest);
      var asked := Frame(HOST_SERVICE_REQUEST, st0.nextID, Calls.Wire(r.service));
      CalledOut(st0, asked, RelayBytes(st0.nextID, raw.requestID, rest), in0, out0, st1, in1, out1, s);
    } else {
      assert out1[|out0|..] == Framing.Wire(ToolResponse(raw.requestID, r.status, r.output));
    }
  }

  lemma CalledOut(st0: State, asked: Frame, relay: Relay, in0: seq<Byte>, out0: seq<Byte>, st1: State, in1: seq<Byte>,
                  out1: seq<Byte>, s: Status)
    requires relay.Relayed? ==> |relay.rest| < |in0|
    requires KernelRun(st0, in0) == ResumeCall(asked, st1, relay)
    requires Carried(relay, out0 + Framing.Wire(asked), in1, out1, s)
    ensures Advanced(st0, in0, out0, st1, in1, out1, s)
  {
    hide KernelRun, Framing.Wire;
    var w := Framing.Wire(asked);
    match relay
    case Waiting(written) => assert out1 == out0 + (w + written);
    case Fatal =>
    case Relayed(reply, _) => assert out1 == out0 + (w + Framing.Wire(reply));
  }

  lemma RelayShrinks(hostID: U32, toolID: U32, input: seq<Byte>)
    ensures RelayBytes(hostID, toolID, input).Relayed? ==> |RelayBytes(hostID, toolID, input).rest| < |input|
  {
  }

  ghost function FilesAfter(r: Reaction, files: seq<File>): seq<File> {
    if r.Reply? then r.files else files
  }

  lemma ListKeeps(l: seq<File>, arguments: seq<seq<Byte>>)
    ensures ListTool(l, arguments).files == l && ReadTool(l, arguments).files == l
  {
    hide Utf8.Valid, ValidPath, Decimal.Parse, Listable, Lines;
  }

  lemma HostToolsKeep(l: seq<File>, arguments: seq<seq<Byte>>)
    ensures FilesAfter(BuildTool(l, arguments), l) == l && FilesAfter(FinishTool(l, arguments), l) == l
    ensures FilesAfter(FeatureTool(l, arguments), l) == l
  {
    hide Utf8.Valid, Calls.Wire;
  }

  /** The wire form of a host request. */
  ghost function RequestWire(hostID: U32, service: Calls.Call): seq<Byte> {
    Framing.Wire(Frame(HOST_SERVICE_REQUEST, hostID, Calls.Wire(service)))
  }

  /** What a reaction did to the line and to the host request counter. */
  ghost predicate Reacted(r: Reaction, requestID: U32, id0: U32, in0: seq<Byte>, out0: seq<Byte>,
                          id1: U32, in1: seq<Byte>, out1: seq<Byte>, s: Status)
  {
    match r
    case Reply(_, _, _) => s == Live && id1 == id0 && in1 == in0 && Replied(r, requestID, out0, out1)
    case AskHost(service) =>
      id1 == NextID(id0) &&
      Carried(RelayBytes(id0, requestID, in0),
              out0 + RequestWire(id0, service), in1, out1, s)
  }

  lemma OneArgument(name: seq<Byte>, a: seq<Byte>)
    ensures Calls.Wire(Calls.Call(name, [a])) == U16LE(|name|) + name + U16LE(1) + (U32LE(|a|) + a)
    ensures |Calls.Wire(Calls.Call(name, [a]))| == 2 + |name| + 2 + 4 + |a|
  {
    LastArgument(a);
  }

  lemma LastArgument(a: seq<Byte>)
    ensures Calls.ArgumentsWire([a]) == U32LE(|a|) + a
  {
    assert [a][1..] == [];
    assert Calls.ArgumentsWire([a]) == U32LE(|a|) + a + Calls.ArgumentsWire([]);
  }

  lemma TwoArguments(name: seq<Byte>, a: seq<Byte>, b: seq<Byte>)
    ensures Calls.Wire(Calls.Call(name, [a, b])) ==
            U16LE(|name|) + name + U16LE(2) + (U32LE(|a|) + a + (U32LE(|b|) + b))
    ensures |Calls.Wire(Calls.Call(name, [a, b]))| == 2 + |name| + 2 + 4 + |a| + 4 + |b|
  {
    assert [a, b][1..] == [b];
    assert Calls.ArgumentsWire([a, b]) == U32LE(|a|) + a + Calls.ArgumentsWire([b]);
    LastArgument(b);
  }

  /** The pieces in the order in which they are sent. */
  lemma TwoArgumentRequest(before: seq<Byte>, hostID: U32, name: seq<Byte>, a: seq<Byte>, b: seq<Byte>)
    ensures before + Header(HOST_SERVICE_REQUEST, hostID, 2 + |name| + 2 + 4 + |a| + 4 + |b|) +
            (U16LE(|name|) + name + U16LE(2)) + (U32LE(|a|) + a) + U32LE(|b|) + b ==
            before + RequestWire(hostID, Calls.Call(name, [a, b]))
  {
    hide Header, Calls.Wire, U16LE, U32LE;
    TwoArguments(name, a, b);
  }

  lemma NoLines(prefix: seq<Byte>)
    ensures Lines([], prefix) == []
  {
  }

  lemma LinesStep(l: seq<File>, i: nat, prefix: seq<Byte>)
    requires i < |l|
    ensures Lines(l[..i + 1], prefix) ==
            Lines(l[..i], prefix) + if prefix <= l[i].path then l[i].path + [SourcePaths.LF] else []
  {
    assert l[..i + 1][..i] == l[..i];
  }

  lemma HoldsFiles(store: FileStore.Store)
    requires store.Valid()
    ensures Listing.Valid(store.Contents())
  {
    hide FileStore.Files, Listing.Valid;
  }

  lemma AlwaysFits(l: seq<File>)
    requires Listing.Valid(l)
    ensures |SourceSnapshot(l)| <= MAX_PAYLOAD
  {
    hide Snapshot.Wire, Snapshot.Selected, Listing.Valid;
    Snapshot.GuestSnapshotFits(l);
  }

  lemma SelectedNothing()
    ensures Snapshot.Selected([]) == [] && Snapshot.EntriesWire([]) == []
  {
  }

  /** One more file of the table, selected or not. */
  lemma SelectedStep(l: seq<File>, i: nat)
    requires i < |l|
    ensures var before, after := Snapshot.Selected(l[..i]), Snapshot.Selected(l[..i + 1]);
            if SourcePaths.SafeSeedPath(l[i].path)
            then |after| == |before| + 1 &&
                 Snapshot.EntriesWire(after) == Snapshot.EntriesWire(before) + Snapshot.EntryWire(l[i])
            else after == before
  {
    hide SourcePaths.SafeSeedPath;
    assert l[..i + 1][..i] == l[..i];
    Snapshot.EntriesAppend(Snapshot.Selected(l[..i]), l[i]);
  }

  lemma {:induction false} SnapshotGrows(l: seq<File>, n: nat)
    requires n <= |l|
    ensures |SourceSnapshot(l[..n])| <= |SourceSnapshot(l)|
    decreases |l| - n
  {
    hide Snapshot.EntriesWire, SourcePaths.SafeSeedPath, Snapshot.EntryWire;
    if n == |l| {
      assert l[..n] == l;
    } else {
      SelectedStep(l, n);
      SnapshotGrows(l, n + 1);
    }
  }

  /** A tool's reply went out, whole. */
  ghost predicate Replied(r: Reaction, requestID: U32, out0: seq<Byte>, out1: seq<Byte>) {
    r.Reply? && out1 == out0 + Framing.Wire(ToolResponse(requestID, r.status, r.output))
  }
}
