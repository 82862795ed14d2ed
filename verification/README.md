# Verification of the guest protocol, file store and harness state machines

A Dafny model of the hard core of the CodexOS experiment: a small kernel that serves tools over a serial line to a host,
and the host harness that drives it through archived generations. The model follows the code branch by branch, and the
theorems are for every input, every run or every interleaving.

- **Guest file store** (`Listing`, `StoreLaws`, `FileStore`, `Embedding`). A packed 64 KiB array with a sorted table of
  extents, changed in place by shifting loops, is proved to be a map from paths to bytes under every sequence of
  operations.
- **Serial protocol, guest end** (`Calls`, `Utf8`, `Decimal`, `SourcePaths`, `Snapshot`, `GuestSpec`, `GuestTheorems`,
  `GuestKernel`, `ReachableStores`, `ToolLaws`, `ToolNames`, `SourceLaws`). The kernel as a class over a serial line
  equals a function of all bytes that ever arrive; about that function, framing, alignment through nested host calls,
  one response per invocation, and what each tool does to the files and answers are proved.
- **Serial protocol, host end** (`Framing`, `Reception`, `ReceptionLaws`, `Startup`, `StartupLaws`, `Dispatcher`,
  `ExchangeLaws`, `Reading`, `SerialDispatcher`, `Capture`, `Invocations`). Reception does not depend on chunk
  boundaries; the dispatcher is a machine of its lock-held regions, safe in every interleaving from power-on, whose
  reader refines that reception; the two ways the host obtains the guest's source agree byte for byte; and a call the
  host admits comes back decoded as what the tool answered, or as what the host itself answered when the tool asks it.
- **Dynamic-call router** (`Router`, `RouterLaws`, `DynamicCalls`). Lock-held steps of any number of threads, with
  events recorded after the lock is released and the gap between a delivery check and its effect.
- **Generation lineage and operator feedback** (`History`, `FeedbackFile`, `Feedback`, `Generations`, `FeedbackLimits`,
  `GateLaws`, `GateRun`). What is on disk, the run object, the operation in progress, and a crash at any point; and
  exactly when a gate can be reopened and left again.
- **Bootstrap artifact store** (`Artifacts`, `ArtifactLaws`, `ArtifactStore`). Stage, rename and index commit, freezing,
  garbage collection and recovery, with a crash between any two steps.

Each machine is a `State`, `World` or `Store` value with `Enabled` and `Apply`; its `StepKeeps` lemma carries the
invariant, and its whole-run theorems follow from an induction over `Legal` action sequences. Each class method is
proved equal to a step or a run of the machine it belongs to, or to the specification function named in its contract,
or, for a whole operation without a guest or a crash, to a result that a lemma named `...IsSteps` shows to be that of a
run.

The modules named `...Laws` state what the specification functions and the machines' steps mean, by bytes, by index or
by case, without using those functions: what a write leaves in a file, what a call gets back, what a route, a generation
or a service starts with, and that an exchange and a delivery can always be carried through.

`dafny verify dfyconfig.toml` checks the project.

Where the code and its documentation disagree the model follows the code. The comment on frame extraction
(internal/guest/framing.go:66-68) promises that an incomplete buffer is the prefix of a valid frame. That is false: the
version is not looked at before the header is whole. `Framing.IncompleteIsNotAlwaysPrefix` gives such a buffer and
`Framing.IncompleteMeansPrefix` the exact condition.

A run is meant to be reopened at any archived gate (docs/agent-contract.md:238-247), and an abort reason of up to 8 KiB
to reach the next generation. Both fail for some accepted reasons. The reason is bounded by its own length, the feedback
file made of it by the length of its JSON text, and a file beyond that bound is written but never read back.
`FeedbackLimits.QuotedReasonSticks` gives such a run, `Generations.ReopenRestoresGate` and `Generations.AttachStepKeeps`
the exact condition, and `FeedbackFile.SafeExactly` the test on the reason that rules it out.

Modelling decisions:

- Bytes are integers from 0 to 255; request IDs and lengths keep their 16 and 32 bit widths, and generation numbers stop
  at the largest 64-bit value. C bit operations are written as arithmetic.
- The serial line is a finite input and an output sequence; a read with nothing left is where the guest blocks for good.
- A lock-held region is one step. Timeouts, cancellation, input and output errors and crashes are steps that may happen
  at any point at which the code allows them.
- A digest has no collisions: a digest is the content it is of. `atomicJSON` and renames are atomic.
- A route of the router is named by its place in the table of all routes ever admitted, where the code holds a reference
  to it.
- One run object works on a run directory at a time. An archive written before the artifact store was provisioned counts
  as one that names no jobs.

## Model

| member | source | states |
|---|---|---|
| Bytes.U16RoundTrip | seed/protocol.c:13-25 | a 16-bit value written least significant byte first reads back as itself, whatever follows |
| Bytes.U32RoundTrip | seed/protocol.c:17-32 | the same for 32 bits |
| Bytes.U32Reread | seed/protocol.c:17-32 | four bytes are exactly the writing of the value they read as |
| Utf8.Scan | seed/tools.c:49-93 | `valid_utf8` in one pass, with every index within the given length, accepts exactly the valid byte strings |
| Utf8.ValidIsEncoding | seed/tools.c:49-93 | a byte string is accepted if and only if it is the encoding (section 4 of RFC 3629) of some sequence of Unicode scalar values |
| Utf8.DecodedIsEncoding | seed/tools.c:49-93 | whatever the scanner takes as one scalar is that scalar's only encoding: no overlong form, no surrogate, nothing above U+10FFFF |
| Utf8.DecodeEncoded | seed/tools.c:49-93 | every encoding of a scalar is taken as that scalar, whatever follows it |
| Framing.ReadWrittenHeader | seed/protocol.c:40-56 | the header the guest writes reads back as the type, request ID and length it was written for |
| Framing.HeaderReread | internal/guest/framing.go:94-107 | sixteen bytes with the right magic and version are exactly the header of the fields they read as |
| Framing.ExtractWire | internal/guest/framing.go:32-92 | extraction inverts encoding: an encoded frame at the front is returned whole and exactly the bytes after it remain |
| Framing.ExtractedIsWire | internal/guest/framing.go:69-92 | whatever is extracted was the encoding of the frame returned, followed by the bytes kept |
| Framing.ExtractExtended | internal/guest/framing.go:69-92 | more bytes never change a verdict: a complete frame stays that frame and an error stays that error |
| Framing.IncompleteMeansPrefix | internal/guest/framing.go:66-92 | an incomplete buffer can still become a valid frame if and only if the version bytes seen so far are those of version 1 |
| Framing.IncompleteIsNotAlwaysPrefix | internal/guest/framing.go:66-68 | a buffer that is reported incomplete although no frame starts with it |
| Calls.ParseWire | internal/guest/protocol.go:183-205 | the call parser returns exactly the name and arguments that were encoded |
| Calls.ParsedIsWire | seed/tools.c:191-237 | whatever parses is the encoding of a well-formed call within the argument limit |
| Calls.ParseAcceptsImage | seed/tools.c:191-237 | the accepted payloads are exactly the image of the encoder on well-formed calls, both directions |
| Calls.ParseInvocation | seed/tools.c:191-237 | the guest's cursor parser computes that parse with at most three arguments and never reads past the payload |
| Calls.InvokeRequestPayloadSize | internal/guest/protocol.go:160-181 | refuses bad names and more than 64 arguments, otherwise returns the length of the encoding without building it |
| Calls.EncodeInvokeRequest | internal/guest/protocol.go:183-205 | the buffer filled left to right is the encoding; refused exactly when the call is not encodable or exceeds a frame |
| Calls.Decoder.Bytes | internal/guest/protocol.go:235-247 | the cursor hands out the next bytes or refuses, and never passes the end of its data |
| Calls.DecodeHostServiceRequest | internal/guest/protocol.go:38-96 | the host's decoder accepts exactly the host requests that parse with at most 64 arguments, and returns that call with the frame's ID |
| Listing.ComparePaths | seed/files.c:39-58 | the comparison is the bytewise lexicographic order with a proper prefix first; zero only for equal paths |
| Listing.AttemptRefinesMap | seed/files.c:160-258 | write, truncate and remove on the ordered files do to the map of path to bytes exactly what they do to a map, succeed for the same requests, and keep order, unique paths and both bounds |
| Listing.RunRefinesMap | seed/files.c:160-258 | over every sequence of operations, failing ones included, the store is the map that the same operations make of the starting map |
| Listing.ListingUnique | seed/files.c:60-102 | the ordered files are determined by the map, so nothing listed depends on how the files came about |
| Listing.AsMapMeasures | seed/files.c:60-102 | the map has as many files and as many bytes as the table counts |
| StoreLaws.WriteLaw | seed/files.c:202-224 | a write leaves all of its data at its offset, every other byte of the file and every other file as it was, and the file no longer than it must be; it fails exactly when it would leave a hole, outgrow the store, or make a file that may not be made |
| StoreLaws.TruncateLaw | seed/files.c:226-229 | a truncation keeps the bytes that fit and zero-fills the rest; it fails exactly for a missing path or when the store would be outgrown |
| StoreLaws.RemoveLaw | seed/files.c:231-258 | a removal takes one file away and nothing else, and fails exactly for a missing path |
| FileStore.ResizedPacked | seed/files.c:160-200 | shifting the tail and patching every later offset gives disjoint extents in bounds whose lengths again add up to the used part, and changes one file only |
| FileStore.ResizedExtents | seed/files.c:160-200 | after a resize every other file has its old bytes, empty files sharing an offset included |
| FileStore.OverwriteExtents | seed/files.c:202-224 | writing inside one extent changes no other file |
| FileStore.CreatedPacked | seed/files.c:60-102 | a new extent behind everything used keeps the table packed and sorted and every file's bytes |
| FileStore.DroppedPacked | seed/files.c:231-258 | dropping an emptied extent keeps the table packed and every other file's bytes |
| FileStore.Store.constructor | seed/files.c:3-7 | an empty store satisfies the packing invariant |
| FileStore.Store.Find | seed/files.c:135-147 | finds the one entry with the path, or none |
| FileStore.Store.ContentAt | seed/files.c:127-133 | the size and content of an entry are those of the file it stands for |
| FileStore.Store.ShiftUp | seed/files.c:160-200 | the growing loop moves the tail up by the growth without overwriting what it has yet to read |
| FileStore.Store.ShiftDown | seed/files.c:160-200 | the shrinking loop moves the tail down by the shrinkage |
| FileStore.Store.PatchOffsets | seed/files.c:160-200 | every other entry at or past the old end moves by the change in length |
| FileStore.Store.ResizeFile | seed/files.c:160-200 | refused exactly when the growth exceeds all free space; otherwise only this file changes, keeps its common prefix and is zero-filled on demand |
| FileStore.Store.CreateFile | seed/files.c:60-102 | refused exactly for a taken, empty or overlong path, a full table or too little space; otherwise the file is inserted in order |
| FileStore.Store.WriteFile | seed/files.c:202-224 | in place, the store becomes what the specification's write gives, and is unchanged when it fails |
| FileStore.Store.TruncateFile | seed/files.c:226-229 | cuts or zero-extends one file; unchanged when it fails |
| FileStore.Store.RemoveFile | seed/files.c:231-258 | removes one file and leaves all others; unchanged when it fails |
| FileStore.Store.FilesInit | seed/files.c:104-125 | the embedded files are created in order, and it fails exactly when one of them is refused |
| Embedding.EmbedExactly | seed/files.c:104-125 | embedding succeeds if and only if the paths are distinct and of a proper length and the files fit the table and the content array, and leaves exactly those files |
| SourcePaths.SplitJoin | internal/guest/snapshot.go:246-260 | splitting at separators inverts joining components that hold none |
| SourcePaths.JoinSplit | internal/guest/snapshot.go:246-260 | joining what was split gives the path back |
| SourcePaths.BuildPathValid | seed/source_snapshot.c:7-39 | the one-pass component scanner accepts exactly the paths whose components are all proper |
| SourcePaths.HostAndGuestPathsAgree | internal/guest/snapshot.go:236-260 | the host accepts a path if and only if the guest does and it holds no carriage return or line feed |
| SourceLaws.SafePathLaw | seed/source_snapshot.c:7-39 | a path is accepted if and only if it begins with seed/, holds no NUL byte, and nothing between two slashes is empty, a dot or two dots, stated on its bytes |
| SourceLaws.SelectedLaw | seed/source_snapshot.c:41-77 | a snapshot holds exactly the files of the store whose path is accepted, in the order of the store |
| SourceLaws.HeaderLayout | seed/protocol.c:40-56 | what each of the sixteen header bytes is |
| SourceLaws.CallLayout | internal/guest/protocol.go:183-205 | an encoded call written out byte by byte |
| SourceLaws.SnapshotLayout | internal/guest/snapshot.go:102-121 | a snapshot written out byte by byte |
| SourceLaws.Greetings | seed/kernel.c:7-20 | the readiness and error lines as text |
| Snapshot.ValidateFiles | internal/guest/snapshot.go:211-234 | one pass with a seen-set and a running total accepts exactly the valid file lists within the budget |
| Snapshot.EncodeFiles | internal/guest/snapshot.go:102-121 | the buffer filled left to right is the wire form of the files |
| Snapshot.DecodeFiles | internal/guest/snapshot.go:135-196 | the decoding loop and its validation accept exactly the snapshots that have valid files, and return them |
| Snapshot.DecodeEncoded | internal/guest/snapshot.go:102-196 | decoding inverts encoding on every accepted file list |
| Snapshot.EncodeDecoded | internal/guest/snapshot.go:102-196 | re-encoding whatever was decoded gives the same bytes, so the framing is a bijection on accepted data |
| Snapshot.GuestSnapshotFits | seed/source_snapshot.c:41-63 | a snapshot of any store is at most 98946 bytes, so measuring one never fails and it always fits a frame |
| Snapshot.GuestSnapshotAccepted | seed/source_snapshot.c:41-77 | the host accepts the snapshot of any valid store if and only if every selected path is UTF-8 without a carriage return or line feed, and then reads back the selected files |
| ReachableStores.RunKeepsPaths | seed/protocol.c:70-113 | whatever arrives on the line, a kernel whose paths are all UTF-8 keeps them so |
| ReachableStores.RunningSnapshotAccepted | seed/source_snapshot.c:41-77 | for every store a kernel can reach from boot on any input, the host accepts its snapshot if and only if no selected path holds a carriage return or line feed, and then reads back the selected files |
| Decimal.ParseDecimal | seed/tools.c:95-114 | the digit loop accepts exactly the decimal numbers that fit 32 bits, without overflowing on the way |
| Decimal.ParseItoa | internal/guest/source_capture.go:31-86 | what the host writes as a decimal argument the guest reads back as the same number |
| GuestTheorems.ServeProper | seed/protocol.c:70-113 | every answer and every host request fits a frame, and serving keeps the store valid and host request IDs nonzero |
| GuestTheorems.OutputIsFramed | seed/protocol.c:70-113 | for every input whatever, the output after readiness is a sequence of frames with exactly the announced payload lengths and at most one unfinished frame at the end |
| GuestTheorems.Aligned | seed/protocol.c:70-113 | for well-formed host frames the guest never halts, reads frame by frame through nested host calls, and its output is exactly the frames of its rounds |
| GuestTheorems.EveryRoundWellServed | seed/tools.c:417-495 | each valid invocation gets exactly one response with its ID after at most one host request, whose ID is not zero; a list request gets the tool list; nothing else is answered |
| GuestTheorems.RelayWire | seed/build.c:127-157 | a whole host answer becomes one reply and the input stays aligned behind it |
| GuestKernel.Line.ReadExactly | seed/protocol.c:74-76 | reads the next bytes in order or blocks having consumed all there are |
| GuestKernel.Line.SendHeader | seed/protocol.c:40-56 | writes the header of the given fields |
| GuestKernel.Line.SendToolList | seed/tools.c:147-189 | writes the one frame that lists the eight tools |
| GuestKernel.Line.RelayHostResponse | seed/build.c:127-157 | copies the host's answer through as the tool's reply byte by byte, discards and fails on any other message, halts on a fatal header |
| GuestKernel.Kernel.constructor | seed/build.c:20-20 | host request IDs start at one and the store is empty |
| GuestKernel.Kernel.InvokeList | seed/tools.c:239-272 | measuring and writing passes agree: the announced length is that of the lines written |
| GuestKernel.Kernel.InvokeRead | seed/tools.c:274-307 | answers the requested slice of the file, cut at its end |
| GuestKernel.Kernel.InvokeWrite | seed/tools.c:309-326 | the reply and the store are those of the specification's write tool |
| GuestKernel.Kernel.InvokeTruncate | seed/tools.c:328-346 | the reply and the store are those of the specification's truncate tool |
| GuestKernel.Kernel.InvokeRemove | seed/tools.c:348-359 | the reply and the store are those of the specification's remove tool |
| GuestKernel.Kernel.MeasureSnapshot | seed/source_snapshot.c:41-63 | counts the selected files and the exact length of their snapshot, and never fails |
| GuestKernel.Kernel.WriteSnapshot | seed/source_snapshot.c:65-77 | writes exactly the measured snapshot of the selected files |
| GuestKernel.Kernel.AllocateHostRequestID | seed/build.c:121-125 | hands out the current ID and skips zero when the counter wraps |
| GuestKernel.Kernel.SendBuildRequest | seed/build.c:43-57 | writes the one frame of a build call with the snapshot as its argument |
| GuestKernel.Kernel.SendFinishRequest | seed/build.c:59-77 | writes the one frame of a finish call with handoff and snapshot |
| GuestKernel.Kernel.SendFeatureRequest | seed/build.c:79-97 | writes the one frame of a feature call with title and description |
| GuestKernel.Kernel.InvokeBuild | seed/build.c:159-174 | one host request with a fresh ID, then the relayed answer, or a failure when arguments are given |
| GuestKernel.Kernel.InvokeFinish | seed/build.c:176-204 | the same for finishing a generation, refusing a handoff that is too long or not text |
| GuestKernel.Kernel.InvokeFeature | seed/build.c:206-232 | the same for a feature request, refusing bad titles and descriptions |
| GuestKernel.Kernel.HandleInvocation | seed/tools.c:417-495 | an invocation is answered as the specification says for the parsed call, or with failure when it does not parse |
| GuestKernel.Kernel.ServeMessage | seed/protocol.c:82-111 | one message after a header that is not fatal: oversized, malformed, list and invoke cases |
| GuestKernel.Kernel.ProtocolLoop | seed/protocol.c:70-113 | for every input the bytes written, the files left and halting are those of the specification |
| GuestKernel.Kernel.KMain | seed/kernel.c:7-20 | embeds the files, announces readiness and then serves the line as the specification says; a failed embedding writes only the error line and halts |
| Invocations.Admit | internal/guest/tool_client.go:44-55 | refuses what cannot be encoded, answers oversized calls itself, and otherwise sends exactly the encoding |
| Invocations.AdmittedIsHandled | seed/protocol.c:6-11 | a request the host admits is never discarded by the guest for its size: the guest handles that very call |
| Invocations.AnswerComesBack | internal/guest/tool_client.go:44-61 | for every admitted call that needs no host, with any number of arguments, the bytes the guest returns are one frame with its ID, and the host decodes from it exactly the status and output the tool gave, or failure when no tool takes so many arguments |
| Invocations.HostAnswerComesBack | seed/build.c:127-204 | for every admitted call that needs the host and every frame the host may answer with: one request that the host parses as the service call with this store's snapshot, then one reply from which the host decodes its own status and output when the answer can be relayed, and failure otherwise |
| ToolLaws.WriteCall | seed/tools.c:309-326 | for every good state and every admitted write call, from its bytes: status 0 if and only if the path is text of 1 to 255 bytes, the offset a 32-bit decimal and the write of the data at that offset succeeds on the map of files, which is then what the write makes of it; otherwise status 1 and the same map |
| ToolLaws.TruncateCall | seed/tools.c:328-346 | the same for truncate and its decimal size |
| ToolLaws.RemoveCall | seed/tools.c:348-359 | the same for remove |
| ToolLaws.ReadCall | seed/tools.c:274-307 | status 0 and the part of the file from the offset on, up to the length and the end of the file, if and only if path and numbers are accepted, the file is there and the offset within it; nothing changes |
| ToolLaws.ListCall | seed/tools.c:239-272 | the paths of the map that begin with the prefix, ascending, one to a line, if and only if the prefix is text and none of them holds a line break; nothing changes |
| ToolLaws.HostCall | seed/build.c:159-232 | exactly which build, finish_generation and request_feature calls go to the host, as what service call, and that the host decodes its own answer from the reply, whatever it answered |
| ToolLaws.OtherCalls | seed/tools.c:417-495 | every other name or number of arguments gets status 1 and changes nothing |
| ToolNames.ParseToolList | internal/guest/protocol.go:122-158 | the one-pass parser computes the parse of a tool list and never leaves the payload |
| ToolNames.ParseListLaw | internal/guest/protocol.go:122-158 | the lists it accepts are exactly the texts of at most 256 valid names, and it returns those |
| ToolNames.ListRequest | seed/tools.c:147-189 | a list request is answered with one frame from which the host parses the eight tool names, given as text |
| Capture.NewCanonicalSnapshot | internal/guest/snapshot.go:59-65 | sorts, validates and encodes: the canonical snapshot of the files |
| Capture.CanonicalIgnoresOrder | internal/guest/snapshot.go:59-65 | the canonical snapshot does not depend on the order the files were given in |
| Capture.ListingReadBack | internal/guest/source_capture.go:31-60 | splitting a listing gives back exactly the paths the guest listed, none for an empty one |
| Capture.CaptureSnapshot | internal/guest/source_capture.go:31-86 | the list-then-read loop over a guest with the given files returns exactly the captured snapshot, or nothing |
| Capture.CaptureAgreesWithGuest | internal/guest/source_capture.go:31-86 | whenever capture succeeds its bytes are those the guest itself puts into a build request, and it succeeds if and only if every listed path is a valid source path within the budget |
| Reception.ChunkIndependent | internal/guest/dispatcher.go:441-606 | feeding bytes in two pieces gives the same dispatched calls, response, failure and buffer as feeding them together; after a failure the second piece is appended to the buffer unread |
| Reception.AnyChunking | internal/guest/dispatcher.go:441-606 | the same for any number of pieces |
| Reception.FramesSurviveChunking | internal/guest/dispatcher.go:504-557 | any chunking of concatenated frames yields exactly those frames in order and leaves nothing |
| ReceptionLaws.ResponseAmongCalls | internal/guest/dispatcher.go:504-557 | under any chunking, host requests before the awaited response are dispatched as calls of the exchange and those after it as others, all in order, the response is delivered, and nothing fails or is left |
| ReceptionLaws.UnwantedFrame | internal/guest/dispatcher.go:559-606 | a frame that is not wanted fails the receiver for exactly the reason that applies and does nothing else |
| Startup.ChunkIndependent | internal/guest/dispatcher.go:441-502 | from power-on through readiness to later frames, with or without startup services, chunk boundaries make no difference, buffers left after a failure included |
| Startup.AnyChunking | internal/guest/dispatcher.go:441-502 | the same for any number of pieces |
| Startup.ReadyAtFirstMarker | internal/guest/dispatcher.go:456-502 | without startup services, ready exactly at the first readiness marker; the diagnostic is the first 4096 of the bytes before it, and every byte after it reaches the frame buffer |
| StartupLaws.EarlyCallsServed | internal/guest/dispatcher.go:456-502 | with startup services and under any chunking, every host request before the marker is dispatched in order with the scope of startup, the diagnostic is the first 4096 bytes of the noise between them, and every byte after the marker goes to the frame receiver |
| SerialDispatcher.SerialProtocolDispatcher.constructor | internal/guest/dispatcher.go:125-132 | a new dispatcher, with or without startup services, is an initial state of the machine |
| SerialDispatcher.SerialProtocolDispatcher.ConsumeIncoming | internal/guest/dispatcher.go:441-454 | handling a chunk is a run of the machine's reader steps, and leaves the incoming half as the chunk-independent specification does for a host that answers as the handlers did |
| SerialDispatcher.SerialProtocolDispatcher.ConsumeStartup | internal/guest/dispatcher.go:456-502 | the startup loop is a run of the machine, through readiness into the frame loop, and stops with the error it returns |
| SerialDispatcher.SerialProtocolDispatcher.ConsumeFrames | internal/guest/dispatcher.go:504-557 | the frame loop is a run of the machine that stops for more bytes or with the error it returns |
| SerialDispatcher.SerialProtocolDispatcher.DispatchHostService | internal/guest/dispatcher.go:608-649 | counting the call, its handler, queueing the encoded answer under its own request ID and every failure of these are a run of the machine |
| SerialDispatcher.SerialProtocolDispatcher.TrackReceive | internal/guest/dispatcher.go:559-606 | refuses exactly the headers that are malformed or cannot answer what is pending |
| SerialDispatcher.SerialProtocolDispatcher.QueueWrite | internal/guest/dispatcher.go:651-673 | refused exactly after a failure, when closing, or beyond either queue limit; otherwise appended and counted |
| SerialDispatcher.SerialProtocolDispatcher.AdvanceWrite | internal/guest/dispatcher.go:697-729 | only the write that was being pumped advances; when it is out it ends, leaves the queue and ends its host call, and a stalled one ends and is reported |
| SerialDispatcher.SerialProtocolDispatcher.Fail | internal/guest/dispatcher.go:731-748 | ends the reader, the write at the front and every host call, and keeps the first failure |
| SerialDispatcher.SerialProtocolDispatcher.AbortExchange | internal/guest/dispatcher.go:750-765 | leaves the dispatcher failed, the write at the front ended and the exchange about to let go |
| SerialDispatcher.SerialProtocolDispatcher.FinishHostService | internal/guest/dispatcher.go:772-777 | one host call fewer is active and one more is finished, never below zero |
| SerialDispatcher.SerialProtocolDispatcher.EndFront | internal/guest/dispatcher.go:805-809 | a write gets a terminal phase once; later phases are ignored |
| SerialDispatcher.SerialProtocolDispatcher.BeginExchange | internal/guest/dispatcher.go:196-225 | takes the slot for this request unless not ready, failed or closing |
| SerialDispatcher.SerialProtocolDispatcher.PollExchange | internal/guest/dispatcher.go:246-296 | a failure comes before a response, a response before the timeout, and the timeout waits while a host call is active and then fails the dispatcher |
| SerialDispatcher.SerialProtocolDispatcher.QueueExchange | internal/guest/dispatcher.go:226-238 | the encoded request is queued and the exchange waits for that very write, or it ends at once |
| SerialDispatcher.SerialProtocolDispatcher.EndExchange | internal/guest/dispatcher.go:196-319 | frees the slot, whatever the outcome |
| SerialDispatcher.SerialProtocolDispatcher.LookExchange | internal/guest/dispatcher.go:675-695 | until its write is out only a failure ends the wait; then failure, response and timeout in that order, each a step of the machine |
| SerialDispatcher.SerialProtocolDispatcher.Exchange | internal/guest/dispatcher.go:196-319 | a whole exchange, whatever the transport, the timers and a cancellation do, is a run of the machine; a response it returns answers its own request and is the one recorded, and unless it still waits its slot is free |
| SerialDispatcher.SerialProtocolDispatcher.ReadRound | internal/guest/dispatcher.go:399-438 | a round of the read loop is a run of the machine that keeps every invariant and ends at the start of the next or with the reader gone |
| SerialDispatcher.SerialProtocolDispatcher.ReadLoop | internal/guest/dispatcher.go:393-439 | the same for any number of rounds, until the reader is gone |
| SerialDispatcher.SerialProtocolDispatcher.Close | internal/guest/dispatcher.go:354-391 | closing ends the write at the front and fails the dispatcher, once |
| Reading.ReaderRunIsFeed | internal/guest/dispatcher.go:441-606 | any run of the machine's reader over a chunk, in whatever steps, leaves the incoming half as feeding the chunk to the receiver does |
| Reading.ChunkedRuns | internal/guest/dispatcher.go:441-606 | in the machine too, reading bytes in two chunks or in one ends with the same calls, response, failure and buffers, however much was sent meanwhile |
| SerialDispatcher.ToolClient.TakeRequestID | internal/guest/tool_client.go:63-71 | request IDs count up, wrap past the largest to one, and are never zero |
| SerialDispatcher.ClientChecksPass | internal/guest/tool_client.go:72-83 | in every run, what an exchange returns passes the client's ID and type checks, so they never fire |
| Dispatcher.StepKeeps | internal/guest/dispatcher.go:196-810 | every lock-held step of the reader, the exchange and close keeps the queue, wire, host-call, terminal-phase and exchange invariants |
| Dispatcher.EveryRunSafe | internal/guest/dispatcher.go:196-810 | from power-on, in every interleaving the bytes sent are a prefix of the queued frames in order, queuedBytes is their sum within both limits, hostActive plus hostWindow counts the dispatched requests, early ones included, no write ends twice, only answers to its own request are returned, no exchange runs before readiness, and an abandoned exchange leaves the dispatcher failed |
| Dispatcher.FailureStaysForGood | internal/guest/dispatcher.go:731-765 | a failure is never cleared or replaced, and after it at most the one response already taken is returned |
| Dispatcher.ResponseStays | internal/guest/dispatcher.go:504-557 | no step replaces a delivered response; only the end of its exchange takes it away |
| Dispatcher.QueuedAtLeastHead | internal/guest/dispatcher.go:697-729 | the count subtracted when a write leaves the queue never exceeds what is counted |
| ExchangeLaws.ExchangeLaw | internal/guest/dispatcher.go:196-319 | from rest there is a run in which an exchange sends its request byte for byte in chunks, receives the answer to it and returns that answer, and the dispatcher is at rest again without a failure |
| ExchangeLaws.HostCallLaw | internal/guest/dispatcher.go:608-649 | from rest there is a run in which a host call is counted with its scope, answered byte for byte and finished |
| ExchangeLaws.CloseLaw | internal/guest/dispatcher.go:354-391 | after closing no write is queued, no exchange begins and the reader stops when it comes round |
| DynamicCalls.IsInteger | internal/agent/dynamic_call.go:446-462 | accepts exactly an optional minus sign and at least one digit |
| DynamicCalls.AcceptsRequestID | internal/agent/dynamic_call.go:414-444 | accepts strings, integers and integral numbers, nothing else |
| DynamicCalls.DynamicCallRouter.constructor | internal/agent/dynamic_call.go:58-64 | a new router is the initial state of the machine |
| DynamicCalls.DynamicCallRouter.Ensure | internal/agent/dynamic_call.go:70-114 | returns the known route, or admits a new one exactly for the current turn and phase when the turn is not remembered as over; what the new route holds is stated by RouterLaws.AdmitLaw |
| DynamicCalls.DynamicCallRouter.MarkResultReady | internal/agent/dynamic_call.go:140-153 | raises the flag and owes its event once |
| DynamicCalls.DynamicCallRouter.MarkResponseWriteAttempted | internal/agent/dynamic_call.go:158-171 | raises the flag and owes its event once |
| DynamicCalls.DynamicCallRouter.Finish | internal/agent/dynamic_call.go:175-197 | the first valid outcome wins and owes its event; false otherwise |
| DynamicCalls.DynamicCallRouter.MayWrite | internal/agent/dynamic_call.go:199-209 | true exactly for an unresolved call that is interrupted or of the given turn and phase |
| DynamicCalls.DynamicCallRouter.ReserveHandler | internal/agent/dynamic_call.go:214-225 | true exactly once per route |
| DynamicCalls.DynamicCallRouter.StartHandler | internal/agent/dynamic_call.go:227-238 | true exactly for a reserved handler neither started nor finished |
| DynamicCalls.DynamicCallRouter.ReleaseUnstarted | internal/agent/dynamic_call.go:242-266 | finishes and rejects exactly the reserved, unstarted calls of the turn, and counts them |
| DynamicCalls.DynamicCallRouter.CheckDelivery | internal/agent/dynamic_call.go:273-311 | records the exact list of failed checks, or carries evidence on to finish |
| DynamicCalls.DynamicCallRouter.FinishDelivery | internal/agent/dynamic_call.go:312-313 | delivers unless the call ended since the check |
| DynamicCalls.DynamicCallRouter.FinishHandler | internal/agent/dynamic_call.go:318-326 | the handler has returned |
| DynamicCalls.DynamicCallRouter.OrphanUnresolved | internal/agent/dynamic_call.go:332-383 | remembers the turn, orphans its unresolved calls unless interrupted, marks all its calls, and returns the unresolved ones |
| DynamicCalls.DynamicCallRouter.Remember | internal/agent/dynamic_call.go:336-345 | appends a new ended turn and drops the oldest beyond 256 |
| DynamicCalls.DynamicCallRouter.Prune | internal/agent/dynamic_call.go:385-404 | finished routes leave the map and the list, which is compacted in place in its order |
| Router.StepKeeps | internal/agent/dynamic_call.go:70-404 | every lock-held step of every thread keeps the index, event, delivery, handler, memory and age invariants, and every route's identity and outcome |
| Router.OneResultPerCall | internal/agent/dynamic_call.go:175-383 | once all owed events are recorded, each call has exactly one result event, for its outcome, if it ended, and none otherwise |
| Router.AtMostOneResult | internal/agent/dynamic_call.go:175-383 | at no point of any interleaving has a call two result events |
| Router.OutcomesStay | internal/agent/dynamic_call.go:175-404 | an outcome given at one point of a run is the outcome at every later point |
| Router.EveryRunSafe | internal/agent/dynamic_call.go:175-404 | in every interleaving: delivered only with result ready, write attempted and checked evidence; both indexes hold the same routes and a route in neither is finished; a remembered turn that ended uninterrupted has no unresolved call; a handler starts at most once and never after release |
| Router.ReadmittedOnlyAfterDrop | internal/agent/dynamic_call.go:70-114 | two routes for the same call exist only if their turn was dropped from memory between the two admissions |
| Router.LiveMembers | internal/agent/dynamic_call.go:385-404 | pruning keeps exactly the unfinished routes, each once |
| RouterLaws.AdmitLaw | internal/agent/dynamic_call.go:70-114 | an admitted route has the ID, thread, turn, call and tool of its request and the phase of the session, nothing has happened to it, and both indexes lead to it; a known call or an ended turn changes nothing |
| RouterLaws.RefuseLaw | internal/agent/dynamic_call.go:70-114 | a malformed request, or one for another turn, changes nothing |
| RouterLaws.CheckLaw | internal/agent/dynamic_call.go:273-311 | a notification is evidence if and only if result and write came first, its status is completed or failed and its tool that of the call; otherwise exactly the failed checks are recorded, in order |
| RouterLaws.IgnoreLaw | internal/agent/dynamic_call.go:273-296 | a notification for another turn or an unknown call changes nothing |
| RouterLaws.DeliveredRun | internal/agent/dynamic_call.go:70-313 | in every reachable state a call that is admitted, made ready, written and reported under its own thread, turn, ID and tool ends delivered, with one result event, which says so |
| RouterLaws.EndTurnLaw | internal/agent/dynamic_call.go:332-383 | exactly the indexed calls of the turn are marked, those without an outcome are orphaned unless the turn was interrupted, and the turn is remembered |
| RouterLaws.ReleaseLaw | internal/agent/dynamic_call.go:242-266 | exactly the reserved, unstarted handlers of the turn are finished, and their calls rejected unless they had an outcome |
| RouterLaws.PruneLaw | internal/agent/dynamic_call.go:385-404 | exactly the routes that are over in every respect leave both indexes |
| History.ValidateAbortReason | internal/experiment/abort_reason.go:38-49 | accepts exactly valid text of at most 8 KiB that is not all space |
| History.LoadArchives | internal/experiment/runtime.go:895-948 | goes ahead exactly when every archived handoff is text of at most 16 KiB and every archived reason is valid |
| History.ValidateArchivedHistory | internal/experiment/runtime.go:765-794 | accepts exactly the contiguous histories whose later generations have a completed parent with successor or rollback ancestry |
| History.GrownIsValid | internal/experiment/runtime.go:765-794 | a history grown one archive at a time is accepted, and its metadata is well formed with every parent earlier |
| History.GrowOne | internal/experiment/archive.go:359-415 | publishing an archive that extends the history appends it and keeps the history grown |
| History.HistoryExactly | internal/experiment/runtime.go:765-794 | of archives with well-formed metadata the validator accepts exactly those numbered from zero without a gap, each later one with a completed earlier parent that is its predecessor if and only if it is a successor |
| History.DescendsFromZero | internal/experiment/runtime.go:765-794 | in every accepted history with well-formed metadata, every generation descends from generation zero through completed generations only |
| Feedback.ValidateOperatorFeedbackRecords | internal/experiment/abort_reason.go:250-294 | accepts exactly the records that tell the reason of an aborted generation, target a later one up to the next, and repeat no source and no target |
| Feedback.FeedbackForGeneration | internal/experiment/abort_reason.go:65-97 | returns the record made for the generation as it is; without one, the reason of an abort that no record has used while every later one is used, and none only when all are used; refused exactly when a record cannot be read back or the records are invalid |
| Feedback.ChosenLaw | internal/experiment/abort_reason.go:65-97 | the same of the choice that the gate and every continuation make |
| Feedback.Persist | internal/experiment/abort_reason.go:117-186 | a record for a generation may be repeated, never replaced, and repeating it needs its file to be read back; the comparison of files is one of records |
| Feedback.NewestIsNewest | internal/experiment/abort_reason.go:83-96 | the abort chosen is unused and no later one is; none is chosen only when all are used |
| Feedback.AttachKeeps | internal/experiment/abort_reason.go:99-115 | attaching feedback to the next generation cannot conflict and leaves valid records; the same record is chosen again, and all are read back if and only if they were before and the new one is |
| Feedback.GrowKeeps | internal/experiment/abort_reason.go:250-287 | valid records stay valid as archives are added |
| FeedbackFile.LoadRecords | internal/experiment/abort_reason.go:217-248 | goes ahead exactly when every record is well formed and its file at most 9216 bytes long |
| FeedbackFile.EncodedDistinct | internal/experiment/abort_reason.go:296-308 | the JSON text, escapes included, determines the record, so that equal files hold equal records |
| FeedbackFile.SafeExactly | internal/experiment/abort_reason.go:20-27 | a reason can be tested before the abort: its escaped length leaves 138 bytes of the limit if and only if every record of it, for any two generations, is read back |
| FeedbackFile.OrdinaryIsSafe | internal/experiment/abort_reason.go:38-49 | a reason without quotes, backslashes, control characters and line separators, or of at most 1513 bytes, passes that test |
| FeedbackFile.QuotesNeverLoad | internal/experiment/abort_reason.go:38-49 | 4559 or more quotes are an accepted reason of which no record is ever read back |
| FeedbackLimits.SafeRunsReopen | internal/experiment/runtime.go:371-499 | in every run whose abort reasons pass the test, every gate can be reopened and feedback can always be attached |
| FeedbackLimits.StuckForGood | internal/experiment/abort_reason.go:217-248 | once a record is not read back, no run attaches feedback, reopens a gate or begins a generation ever again, but for one whose feedback was already attached |
| FeedbackLimits.AbortedGateReopens | internal/experiment/abort_reason.go:99-115 | for every accepted reason a run that aborts with it, attaches it and is lost ends at a gate that can be reopened and left if and only if the record is read back |
| FeedbackLimits.QuotedReasonSticks | internal/experiment/abort_reason.go:38-49 | such a run with five thousand quotes as its reason, after which nothing ever reopens or leaves the gate |
| Generations.StepKeeps | internal/experiment/live_lifecycle.go:28-386 | every step, crash included, keeps the disk, gate, running, operation and lease invariants |
| Generations.EveryHistoryValid | internal/experiment/live_lifecycle.go:28-351 | every history and record set any run can leave on disk passes both validators |
| Generations.OnlyGrows | internal/experiment/archive.go:359-402 | no step changes or removes an archive or a feedback record |
| Generations.ReopenRestoresGate | internal/experiment/runtime.go:371-499 | at every reachable gate, losing the object and reopening is refused if and only if a feedback record is too long to be read back, and otherwise restores the same generation, selected successor and handoff |
| Generations.GateHasArchive | internal/experiment/abort_reason.go:99-106 | at a gate and during a transition there is an archive, so the history check never slices an empty list |
| Generations.RetainedGateFrozen | internal/experiment/runtime.go:313-349 | while a finish is retained no step of any thread but its release, stop or loss of the object changes the gate, the archives or the records |
| Generations.RunningKnowsItsOrigin | internal/experiment/live_lifecycle.go:98-271 | a running generation has its parent's handoff and the only feedback record made for it |
| Generations.AttachStepKeeps | internal/experiment/abort_reason.go:99-115 | in every reachable state, attaching feedback is refused if and only if a record is too long to be read back, and otherwise keeps every invariant |
| Generations.RetryKeepsFeedback | internal/experiment/live_lifecycle.go:151-159 | a start that is lost after its feedback was attached chooses the same feedback when made again, and is accepted if and only if that feedback is read back |
| GateRun.CodexOSRun.constructor | internal/experiment/runtime.go:150-179 | a new object is stopped and leaves the directory as it is; on a new directory it is the initial state of the machine |
| GateRun.CodexOSRun.RetainGenerationFinish | internal/experiment/runtime.go:316-328 | granted exactly for the frozen completed gate of that generation that is not leased |
| GateRun.CodexOSRun.ReleaseGenerationFinish | internal/experiment/runtime.go:340-349 | only the holder's lease is released |
| GateRun.CodexOSRun.ReopenAtGate | internal/experiment/runtime.go:371-499 | refused exactly for a used object, partial state, no archive, or a history or feedback that cannot be read or fails its check; otherwise the gate of the newest archive |
| GateRun.CodexOSRun.AttachOperatorFeedback | internal/experiment/abort_reason.go:99-115 | at a gate it fails exactly when a record cannot be read back, changing nothing, and otherwise attaches what the specification chooses |
| GateRun.CodexOSRun.ContinueGeneration | internal/experiment/runtime.go:521-569 | refused exactly while retained, away from the gate, without a usable successor, past the last number, or when a feedback record cannot be read back; otherwise begins the successor, keeping every invariant |
| GateRun.CodexOSRun.ForkFromGeneration | internal/experiment/runtime.go:574-636 | refused exactly in those cases and for a parent that is not earlier and completed; otherwise begins the rollback, keeping every invariant |
| GateRun.CodexOSRun.AbortGeneration | internal/experiment/runtime.go:643-684 | archives the running generation with a valid reason and returns to the gate, keeping every invariant; refused exactly for a bad reason, away from a running generation, without its hardware or boot image, or when its archive cannot be published |
| GateRun.CodexOSRun.Stop | internal/experiment/runtime.go:689-714 | clears everything but the number, so the object cannot be reopened |
| GateLaws.ContinueLaw | internal/experiment/runtime.go:521-569 | from a gate whose newest archive completed, continuing begins the next number as its successor with its handoff and the chosen feedback, which is put on record; the archives do not change |
| GateLaws.ForkLaw | internal/experiment/runtime.go:574-636 | rolling back begins the next number from exactly the archive asked for, with its handoff and the chosen feedback |
| GateLaws.AbortLaw | internal/experiment/runtime.go:643-684 | aborting appends one archive with the number, parent and transition the generation began with and the given reason, and leaves a gate without a successor |
| GateLaws.CompleteLaw | internal/experiment/live_lifecycle.go:28-97 | completing appends one archive with the given handoff and snapshot, which are then selected at the gate |
| GateRun.ContinuedIsSteps | internal/experiment/runtime.go:521-569 | continuing without a guest, when the feedback is read back, is three steps of the machine |
| GateRun.RolledBackIsSteps | internal/experiment/runtime.go:574-636 | rolling back without a guest, when the feedback is read back, is four steps of the machine |
| GateRun.AbortedIsSteps | internal/experiment/runtime.go:643-684 | aborting without a guest is three steps of the machine up to the fields it leaves behind at the gate |
| Artifacts.StepKeeps | internal/bootstrap/storage.go:520-935 | every step of publication, freezing, collection and recovery, and a crash between any two, keeps all store invariants |
| Artifacts.EveryRunSound | internal/bootstrap/storage.go:520-935 | after any run with crashes anywhere, every job named by the index, an archive or the inherited file is complete on disk, at most 64 jobs and 256 artifacts are retained, and an archived generation is authorised for exactly the archived jobs of its parent followed by those it published, without a parent for the inherited ones if it is the first and otherwise none |
| Artifacts.ServingSound | internal/bootstrap/service.go:138-176 | a running generation is authorised for exactly its parent's archived jobs, or as the first one those inherited, followed by those it has published, and all of them validate |
| Artifacts.NeverRefused | internal/bootstrap/storage.go:421-448 | on any reachable store, freezing a finished generation, starting from an archived parent and collecting garbage always pass their validation, up to the final byte reservation, which is not modelled |
| Artifacts.RenameKeeps | internal/bootstrap/storage.go:604-613 | the rename puts a complete job in place and leaves every named job complete |
| Artifacts.RemoveKeeps | internal/bootstrap/storage.go:922-934 | removing, or half removing, a job that nothing keeps leaves every named job complete |
| Artifacts.FreezeLineage | internal/bootstrap/storage.go:676-696 | a new archive changes no older generation's authorisation |
| ArtifactLaws.StartLaw | internal/bootstrap/service.go:138-176 | a new service is for the generation and parent it was made for, has published nothing, and starts from exactly the parent's archived jobs, or the inherited ones |
| ArtifactLaws.ServingLaw | internal/bootstrap/storage.go:604-642 | while a generation serves its authorisation only grows, by the one complete job it is publishing |
| ArtifactLaws.UnderwayLaw | internal/bootstrap/storage.go:520-642 | a publication is of the job it was begun for from the first step to the last |
| ArtifactLaws.AdmissionLaw | internal/bootstrap/storage.go:520-560 | a job may be published exactly for declared, distinct outputs within 16 MiB each and 32 MiB in all, with fewer than 64 jobs retained and referred to and room within 256 artifacts |
| ArtifactLaws.FreezeLaw | internal/bootstrap/storage.go:676-696 | freezing adds one archive, which names the parent's jobs and those published, and changes no other |
| ArtifactLaws.CollectLaw | internal/bootstrap/storage.go:860-935 | collecting leaves exactly the jobs that an archive or the inherited file names, each as it was, and of the index the references to these in their order |
| ArtifactStore.CheckManifest | internal/bootstrap/storage.go:404-419 | accepts exactly manifests whose artifacts are the distinct declared outputs within the size limits |
| ArtifactStore.Storage.Validate | internal/bootstrap/storage.go:421-449 | accepts exactly at most 64 complete jobs with at most 256 artifacts |
| ArtifactStore.Storage.Read | internal/bootstrap/storage.go:471-498 | on any disk, bytes returned are authorised, within the artifact and exactly those the digest is of; they are returned if and only if the first job that cannot be read or names the artifact can be read and has it whole and in range |
| ArtifactStore.CompleteDelivers | internal/bootstrap/storage.go:471-498 | on complete jobs, which every reachable store has, a read succeeds if and only if the references authorise the artifact and the range lies within it |
| ArtifactStore.Storage.Admit | internal/bootstrap/storage.go:827-855 | accepts exactly when every retained job has a valid manifest and another one fits both quotas |
| ArtifactStore.Storage.Publish | internal/bootstrap/storage.go:520-642 | commits exactly when every check passes; the job is then the staged outputs and manifest, complete and last in the index, and otherwise the index and every other job are as they were |
| ArtifactStore.PublishIsSteps | internal/bootstrap/storage.go:520-642 | what publishing leaves, committed or cancelled after the rename, is what a run of the machine leaves, so every store invariant is kept |
| ArtifactStore.Storage.GarbageCollect | internal/bootstrap/storage.go:860-935 | refused if an archive does not validate; otherwise exactly the jobs an archive or the inherited file names remain, and the index is filtered to them |
| ArtifactStore.CollectIsSteps | internal/bootstrap/storage.go:860-935 | what collecting leaves at a gate is what a run of the machine leaves, which is always enabled there, so every store invariant is kept |

## Left out

- Wall-clock time: deadlines, timers and poll intervals appear only as steps that may happen.
- Device and socket input and output, QEMU control, and the kernel's boot code before its main loop.
- Event recording and callback self-close in the dispatcher, beyond the once-only terminal phase of a write.
- Session orchestration, prompts and JSON plumbing around the router; only their calls on it are steps, and a nil router is not modelled.
- SHA-256, JSON decoding, JSON encodings other than that of operator feedback, file permissions, symbolic links and disk quotas in bytes.
- Copying artifacts into another run, and provisioning the store: a run starts with whatever complete jobs it inherited.
- Worker containers, provenance records, the operator console and the command line.
- Capture.CaptureSnapshot: does not model transport errors and cancellation of the tool calls it makes; each call returns a result.
- SerialDispatcher.SerialProtocolDispatcher.DispatchHostService: the handler is a function of the call; other threads take their steps while it works in the machine, not in the method.
- SerialDispatcher.SerialProtocolDispatcher.ConsumeIncoming: is about the reader with no other thread between its steps; the machine has every interleaving.
- Reading.ChunkedRuns: is about the incoming half; a step of another thread between two steps of the reader is in the machine's safety theorems only.
- Generations.StepKeeps: does not model the hardware manifest, the boot image, and the harness identity checks except as failures that may happen.
- GateRun.CodexOSRun.ReopenAtGate: does not model reading an archive's hardware manifest, snapshot and images, nor the provided assets; only its texts and lineage.
- GateRun.CodexOSRun.ContinueGeneration: whether the image exists and the snapshot parses is a parameter.
- GateRun.CodexOSRun.AbortGeneration: whether the hardware is known and the boot image can be read is a parameter.
- GateRun.CodexOSRun.ForkFromGeneration: whether the image exists and the inherited source fits the budget is a parameter.
- Artifacts.NeverRefused: does not model the byte reservation that ends the validation (internal/bootstrap/storage.go:448).
- ArtifactStore.Storage.Validate: does not model the check of the run, version and limits of the references, and the byte reservation.
- ArtifactStore.Storage.Read: does not model the check of the run and of the form of the digest; an offset near the largest 64-bit value is refused as out of range.
- ArtifactStore.Storage.Publish: does not model provenance fields that are constants of the service, byte quotas, and an error after the index rename.
- ArtifactStore.Storage.GarbageCollect: does not model an error between two removals; the machine does.
- DynamicCalls.DynamicCallRouter.Prune: the reuse of the list's storage is modelled on a sequence, not on aliased slices.
