/** A run's generation gate as a machine: what is on disk, the run object in memory, the operation that holds the
    object's operation lock, and every step any of them may take, a crash included. */
module Generations {
  import opened Bytes
  import opened History
  import opened FeedbackFile
  import opened Feedback

  datatype Phase = Stopped | Running | Paused | Awaiting

  /** A selected successor; its kernel and image are those of the archive it was completed in. */
  datatype Finish = Finish(generation: nat, handoff: Text, snapshot: seq<Byte>)

  datatype Run = Run(
    phase: Phase,
    number: Option<nat>,
    pending: Option<Finish>,
    previous: Option<Text>,
    retained: Option<nat>,
    transitioning: bool,
    parent: Option<nat>,
    transition: Option<Transition>,
    feedback: Option<Record>)

  datatype Plan = Plan(next: nat, parent: nat, transition: Transition, handoff: Text)

  /** The operation that holds the operation lock, and how far it is. */
  datatype Operation =
    | Free
    | Forking(origin: nat, next: nat)
    | Advancing(plan: Plan)
    | Attached(plan: Plan, feedback: Option<Record>)
    | Publishing(archive: Archive)
    | Published(archive: Archive)

  /** `leftover` says that the run directory holds partial generation state. */
  datatype World = World(archives: seq<Archive>, records: seq<Record>, leftover: bool, run: Run, op: Operation)

  datatype Action =
    | Start(bootstrap: Option<Text>)
    | BeginComplete(handoff: Text, snapshot: seq<Byte>)
    | BeginAbort(reason: Text)
    | Publish
    | FinishPublish
    | BeginContinue
    | BeginFork(origin: nat)
    | Inspect
    | AttachFeedback
    | Commit
    | OperationFailed
    | OperationFatal
    | Retain(generation: nat)
    | Release(generation: nat)
    | Pause
    | Resume
    | Stop
    | Drop(leftover: bool)
    | Clean
    | Reopen

  const FRESH := Run(Stopped, None, None, None, None, false, None, None, None)

  // ---------------------------------------------------------------- parts of steps

  /** What `clearStoppedState` and `failLiveGeneration` leave of the object: its number, so that it cannot be reused. */
  function Cleared(r: Run): Run {
    FRESH.(number := r.number)
  }

  /** The gate after an archive has been published. */
  function AtGate(r: Run, a: Archive): Run {
    match a.outcome
    case Completed(handoff, snapshot) =>
      r.(phase := Awaiting, pending := Some(Finish(a.generation, handoff, snapshot)), previous := Some(handoff),
         feedback := None, parent := None, transition := None)
    case Aborted(_) =>
      r.(phase := Awaiting, pending := None, retained := None, previous := None, feedback := None, parent := None,
         transition := None)
  }

  /** What `ReopenAtGate` restores from the newest archive. */
  function Reopened(r: Run, latest: Archive): Run {
    var completed := latest.outcome.Completed?;
    r.(phase := Awaiting, number := Some(latest.generation),
       pending := if completed then Some(Finish(latest.generation, latest.outcome.handoff, latest.outcome.snapshot)) else None,
       previous := if completed then Some(latest.outcome.handoff) else None,
       feedback := None, parent := None, transition := None)
  }

  function Begun(r: Run, plan: Plan, feedback: Option<Record>): Run {
    r.(phase := Running, number := Some(plan.next), parent := Some(plan.parent), transition := Some(plan.transition),
       previous := Some(plan.handoff), feedback := feedback, pending := None, transitioning := false)
  }

  predicate Open(r: Run) {
    r.phase == Awaiting && !r.transitioning && r.retained.None? && r.number.Some? && r.number.value != LAST_GENERATION
  }

  /** The running generation can be archived: its number and how it began are known. */
  predicate Current(r: Run) {
    r.number.Some? && r.transition.Some?
  }

  function ArchiveOf(r: Run, outcome: Outcome): Archive
    requires Current(r)
  {
    Archive(r.number.value, r.parent, r.transition.value, outcome)
  }

  /** `publishArchive` goes ahead: the metadata is well formed and no archive has that number. */
  predicate Publishable(archives: seq<Archive>, a: Archive) {
    ValidMetadata(a.generation, a.parent, a.transition) && !Present(archives, a.generation)
  }

  // ---------------------------------------------------------------- steps

  predicate Enabled(w: World, a: Action) {
    match a
    case Start(_) => w.op.Free? && w.run.phase == Stopped && w.run.number.None?
    case BeginComplete(handoff, _) =>
      w.op.Free? && w.run.phase == Running && Current(w.run) && ValidHandoff(handoff)
    case BeginAbort(reason) =>
      w.op.Free? && (w.run.phase == Running || w.run.phase == Paused) && Current(w.run) && ValidReason(reason)
    case Publish => w.op.Publishing? && Publishable(w.archives, w.op.archive)
    case FinishPublish => w.op.Published?
    case BeginContinue => w.op.Free? && Open(w.run) && w.run.pending.Some?
    case BeginFork(origin) => w.op.Free? && Open(w.run) && origin < w.run.number.value
    case Inspect =>
      w.op.Forking? && w.op.origin < |w.archives| && w.archives[w.op.origin].outcome.Completed? &&
      Readable(w.archives[w.op.origin].outcome)
    case AttachFeedback => w.op.Advancing? && w.archives != [] && DiskReads(w.archives, w.records)
    case Commit => w.op.Attached?
    case OperationFailed => !w.op.Free? && !w.op.Published?
    case OperationFatal => w.op.Publishing? || w.op.Published?
    case Retain(g) =>
      !w.run.transitioning && w.run.retained.None? && w.run.phase == Awaiting && w.run.pending.Some? && w.run.number == Some(g)
    case Release(_) => true
    case Pause => w.op.Free? && w.run.phase == Running
    case Resume => w.op.Free? && w.run.phase == Paused
    case Stop => true
    case Drop(_) => true
    case Clean => true
    case Reopen => CanReopen(w)
  }

  /** `ReopenAtGate` goes ahead. */
  predicate CanReopen(w: World) {
    w.op.Free? && w.run.phase == Stopped && w.run.number.None? && !w.leftover && w.archives != [] &&
    DiskReads(w.archives, w.records)
  }

  /** The archives and the feedback are read and pass their checks. */
  predicate DiskReads(archives: seq<Archive>, records: seq<Record>) {
    AllReadable(archives) && ValidHistory(archives) && Loads(records) && ValidRecords(records, archives)
  }

  function ReopenStep(w: World): World
    requires w.archives != []
  {
    w.(run := Reopened(w.run, w.archives[|w.archives| - 1]))
  }

  /** The process ends, or the object is closed and replaced by a new one for the same directory. */
  function DropStep(w: World, leftover: bool): World {
    w.(run := FRESH, op := Free, leftover := leftover)
  }

  function Apply(w: World, a: Action): World
    requires Enabled(w, a)
  {
    match a
    case Start(handoff) =>
      w.(run := w.run.(phase := Running, number := Some(0), transition := Some(Initial), feedback := None,
                       previous := if handoff.Some? then handoff else w.run.previous))
    case BeginComplete(handoff, snapshot) => w.(op := Publishing(ArchiveOf(w.run, Completed(handoff, snapshot))))
    case BeginAbort(reason) => w.(op := Publishing(ArchiveOf(w.run, Aborted(Some(reason)))))
    case Publish => w.(archives := Insert(w.archives, w.op.archive), op := Published(w.op.archive))
    case FinishPublish => w.(run := AtGate(w.run, w.op.archive), op := Free)
    case BeginContinue =>
      var g, finish := w.run.number.value, w.run.pending.value;
      w.(run := w.run.(transitioning := true), op := Advancing(Plan(g + 1, g, Successor, finish.handoff)))
    case BeginFork(origin) =>
      w.(run := w.run.(transitioning := true), op := Forking(origin, w.run.number.value + 1))
    case Inspect =>
      w.(op := Advancing(Plan(w.op.next, w.op.origin, Rollback, w.archives[w.op.origin].outcome.handoff)))
    case AttachFeedback =>
      var f := For(w.records, w.archives, w.op.plan.next);
      w.(records := Attach(w.records, f), op := Attached(w.op.plan, f))
    case Commit => w.(run := Begun(w.run, w.op.plan, w.op.feedback), op := Free)
    case OperationFailed =>
      if w.op.Publishing? then w.(op := Free) else w.(run := w.run.(transitioning := false), op := Free)
    case OperationFatal => w.(run := Cleared(w.run), op := Free)
    case Retain(g) => w.(run := w.run.(retained := Some(g)))
    case Release(g) => if w.run.retained == Some(g) then w.(run := w.run.(retained := None)) else w
    case Pause => w.(run := w.run.(phase := Paused))
    case Resume => w.(run := w.run.(phase := Running))
    case Stop => w.(run := Cleared(w.run))
    case Drop(leftover) => DropStep(w, leftover)
    case Clean => w.(leftover := false)
    case Reopen => ReopenStep(w)
  }

  // ---------------------------------------------------------------- what every step keeps

  ghost predicate DiskInv(archives: seq<Archive>, records: seq<Record>) {
    Grown(archives) && ValidRecords(records, archives)
  }

  /** The gate says what the newest archive says. */
  ghost predicate GateInv(archives: seq<Archive>, r: Run) {
    r.phase == Awaiting ==>
      archives != [] && r.number == Some(|archives| - 1) &&
      (var latest := archives[|archives| - 1];
       if latest.outcome.Completed? then
         r.pending == Some(Finish(latest.generation, latest.outcome.handoff, latest.outcome.snapshot)) &&
         r.previous == Some(latest.outcome.handoff)
       else r.pending == None && r.previous == None)
  }

  /** A first generation, which an older run directory may refuse to archive, or one that extends the history. */
  predicate Continues(archives: seq<Archive>, g: nat, parent: Option<nat>, transition: Transition) {
    (g == 0 && parent.None? && transition == Initial) || (archives != [] && Extends(archives, g, parent, transition))
  }

  predicate Inherits(archives: seq<Archive>, parent: nat, handoff: Text) {
    CompletedAt(archives, parent) && archives[parent].outcome.handoff == handoff
  }

  /** A running generation knows how it began, and its handoff and feedback are those recorded for it. */
  ghost predicate RunningInv(w: World) {
    (w.run.phase == Running || w.run.phase == Paused) && !w.op.Published? ==>
      Current(w.run) && Continues(w.archives, w.run.number.value, w.run.parent, w.run.transition.value) &&
      (w.run.parent.Some? ==> w.run.previous.Some? && Inherits(w.archives, w.run.parent.value, w.run.previous.value)) &&
      (w.run.feedback.Some? ==> w.run.feedback.value in w.records && w.run.feedback.value.target == w.run.number.value)
  }

  ghost predicate PlanInv(archives: seq<Archive>, plan: Plan) {
    archives != [] && Extends(archives, plan.next, Some(plan.parent), plan.transition) &&
    Inherits(archives, plan.parent, plan.handoff)
  }

  predicate Moving(op: Operation) {
    op.Forking? || op.Advancing? || op.Attached?
  }

  ghost predicate OperationInv(w: World) {
    match w.op
    case Free => true
    case Forking(origin, next) => w.archives != [] && next == |w.archives| <= LAST_GENERATION && origin + 1 < next
    case Advancing(plan) => PlanInv(w.archives, plan)
    case Attached(plan, f) =>
      PlanInv(w.archives, plan) && (f.Some? ==> f.value in w.records && f.value.target == plan.next)
    case Publishing(a) =>
      Continues(w.archives, a.generation, a.parent, a.transition) && Readable(a.outcome) &&
      w.run.number == Some(a.generation)
    case Published(a) =>
      w.archives != [] && w.archives[|w.archives| - 1] == a && w.run.number == Some(a.generation)
  }

  /** Whoever moves the gate has it to themselves: a retained finish and a transition exclude each other. */
  ghost predicate LeaseInv(w: World) {
    (w.run.retained.Some? ==>
      w.run.phase == Awaiting && w.run.pending.Some? && w.run.retained == w.run.number && !Moving(w.op) &&
      !w.run.transitioning) &&
    (Moving(w.op) ==> w.run.phase == Stopped || (w.run.phase == Awaiting && w.run.transitioning)) &&
    (w.op.Publishing? || w.op.Published? ==> w.run.phase != Awaiting) &&
    (w.run.transitioning ==> Moving(w.op)) &&
    (w.run.phase == Stopped ==> w.run.parent.None?)
  }

  ghost predicate Inv(w: World) {
    DiskInv(w.archives, w.records) && GateInv(w.archives, w.run) && RunningInv(w) && OperationInv(w) && LeaseInv(w)
  }

  lemma NumberedByPlace(archives: seq<Archive>)
    requires Grown(archives) && archives != []
    ensures archives[|archives| - 1].generation == |archives| - 1 <= LAST_GENERATION
  {
    hide ValidReason;
  }

  lemma ObjectKeeps(w: World, a: Action)
    requires Inv(w) && Enabled(w, a) && (a.Start? || a.Pause? || a.Resume? || a.Clean?)
    ensures Inv(Apply(w, a))
  {
    hide DiskInv, Extends, Follows, ValidHistory, ValidRecords, For, Insert, ValidReason, ValidHandoff, Loads;
  }

  lemma EndKeeps(w: World, a: Action)
    requires Inv(w) && Enabled(w, a) && (a.Stop? || a.Drop? || a.OperationFatal?)
    ensures Inv(Apply(w, a))
  {
    hide DiskInv, Extends, Follows, ValidHistory, ValidRecords, For, Insert, ValidReason, ValidHandoff, Loads;
  }

  lemma LeaseKeeps(w: World, a: Action)
    requires Inv(w) && Enabled(w, a) && (a.Retain? || a.Release?)
    ensures Inv(Apply(w, a))
  {
    hide DiskInv, Extends, Follows, ValidHistory, ValidRecords, For, Insert, ValidReason, ValidHandoff, Loads;
  }

  lemma BeginPublishKeeps(w: World, a: Action)
    requires Inv(w) && Enabled(w, a) && (a.BeginComplete? || a.BeginAbort?)
    ensures Inv(Apply(w, a))
  {
    hide DiskInv, Extends, Follows, ValidHistory, ValidRecords, For, Insert, ValidReason, ValidHandoff, Loads;
  }

  lemma FinishPublishKeeps(w: World)
    requires Inv(w) && Enabled(w, FinishPublish)
    ensures Inv(Apply(w, FinishPublish))
  {
    hide ValidRecords, ValidReason, AtGate, GateInv, LeaseInv, RunningInv;
    NumberedByPlace(w.archives);
    hide DiskInv;
    GateReached(w, w.(run := AtGate(w.run, w.op.archive), op := Free));
  }

  lemma GateReached(w: World, t: World)
    requires w.op.Published? && LeaseInv(w) && w.archives != [] && w.archives[|w.archives| - 1] == w.op.archive
    requires w.run.number == Some(w.op.archive.generation) && w.op.archive.generation == |w.archives| - 1
    requires t == w.(run := AtGate(w.run, w.op.archive), op := Free)
    ensures GateInv(t.archives, t.run) && LeaseInv(t) && RunningInv(t)
  {
  }

  lemma ContinueKeeps(w: World)
    requires Inv(w) && Enabled(w, BeginContinue)
    ensures Inv(Apply(w, BeginContinue))
  {
    hide ValidHistory, ValidRecords, For, Insert, ValidReason, ValidHandoff, Loads, RunningInv;
    NumberedByPlace(w.archives);
    hide DiskInv;
    var t := Apply(w, BeginContinue);
    SuccessorPlan(w.archives, w.run);
    assert LeaseInv(t) && GateInv(t.archives, t.run);
    hide LeaseInv, GateInv;
    Unmoved(w, t);
  }

  lemma SuccessorPlan(archives: seq<Archive>, r: Run)
    requires GateInv(archives, r) && r.phase == Awaiting && r.pending.Some? && r.number.Some? && |archives| <= LAST_GENERATION
    ensures PlanInv(archives, Plan(r.number.value + 1, r.number.value, Successor, r.pending.value.handoff))
  {
  }

  lemma Unmoved(w: World, t: World)
    requires t.archives == w.archives && t.records == w.records && t.run == w.run.(transitioning := true) && w.op.Free?
    requires RunningInv(w) && !t.op.Published?
    ensures RunningInv(t)
  {
  }

  lemma ForkKeeps(w: World, a: Action)
    requires Inv(w) && Enabled(w, a) && (a.BeginFork? || a.Inspect?)
    ensures Inv(Apply(w, a))
  {
    hide DiskInv, RunningInv, LeaseInv, ValidHistory, ValidRecords, For, Insert, ValidReason, ValidHandoff, Loads;
    if a.BeginFork? {
      NumberedHere(w);
    }
    var t := Apply(w, a);
    ForkMoves(w, t, a);
  }

  lemma NumberedHere(w: World)
    requires DiskInv(w.archives, w.records) && w.archives != []
    ensures |w.archives| - 1 <= LAST_GENERATION
  {
    NumberedByPlace(w.archives);
  }

  lemma ForkMoves(w: World, t: World, a: Action)
    requires RunningInv(w) && LeaseInv(w) && Enabled(w, a) && (a.BeginFork? || a.Inspect?) && t == Apply(w, a)
    ensures RunningInv(t) && LeaseInv(t)
  {
    hide ValidHandoff, ValidReason, Extends;
  }

  lemma CommitKeeps(w: World)
    requires Inv(w) && Enabled(w, Commit)
    ensures Inv(Apply(w, Commit))
  {
    hide DiskInv, Extends, Follows, ValidHistory, ValidRecords, For, Insert, ValidReason, ValidHandoff, Loads;
  }

  lemma FailureKeeps(w: World)
    requires Inv(w) && Enabled(w, OperationFailed)
    ensures Inv(Apply(w, OperationFailed))
  {
    hide DiskInv, Extends, Follows, ValidHistory, ValidRecords, For, Insert, ValidReason, ValidHandoff, Loads;
  }

  lemma ReopenKeeps(w: World)
    requires Inv(w) && Enabled(w, Reopen)
    ensures Inv(Apply(w, Reopen))
  {
    NumberedByPlace(w.archives);
    hide DiskInv, Extends, Follows, ValidHistory, ValidRecords, For, Insert, ValidReason, ValidHandoff, Loads;
  }

  lemma PublishKeeps(w: World)
    requires Inv(w) && Enabled(w, Publish)
    ensures Inv(Apply(w, Publish))
  {
    hide GateInv, RunningInv, LeaseInv;
    Grows(w);
    var t := Apply(w, Publish);
    assert t.archives[|t.archives| - 1] == w.op.archive;
    hide DiskInv, Insert;
    PublishMoves(w, t);
  }

  lemma Grows(w: World)
    requires DiskInv(w.archives, w.records) && OperationInv(w) && Enabled(w, Publish)
    ensures var next := Insert(w.archives, w.op.archive);
            next == w.archives + [w.op.archive] && DiskInv(next, w.records)
  {
    hide ValidRecords, ValidReason, ValidHandoff, For;
    var a := w.op.archive;
    assert w.archives != [] ==> w.archives[0].generation == 0;
    assert Extends(w.archives, a.generation, a.parent, a.transition);
    GrowOne(w.archives, a);
    GrownContiguous(w.archives + [a]);
    GrowKeeps(w.records, w.archives, a);
  }

  lemma PublishMoves(w: World, t: World)
    requires GateInv(w.archives, w.run) && LeaseInv(w) && w.op.Publishing? && t.op.Published? && t.run == w.run
    ensures GateInv(t.archives, t.run) && RunningInv(t) && LeaseInv(t)
  {
  }

  /** Attaching feedback on a reachable run directory fails if and only if a record there is too long to be read back, and
      leaves valid records. */
  lemma AttachStepKeeps(w: World)
    requires Inv(w) && w.op.Advancing?
    ensures Enabled(w, AttachFeedback) <==> Loads(w.records)
    ensures Loads(w.records) ==> Inv(Apply(w, AttachFeedback))
  {
    hide ValidRecords, ValidReason, For, ValidHistory, LeaseInv, GateInv, RunningInv, Loads;
    Checks(w.archives, w.records);
    if Loads(w.records) {
      AttachKeeps(w.records, w.archives);
      hide Grown, DiskReads;
      var f := For(w.records, w.archives, w.op.plan.next);
      var t := Apply(w, AttachFeedback);
      Attaching(w, t, f);
    }
  }

  lemma Attaching(w: World, t: World, f: Option<Record>)
    requires w.op.Advancing? && t == w.(records := Attach(w.records, f), op := Attached(w.op.plan, f))
    ensures LeaseInv(w) ==> LeaseInv(t)
    ensures RunningInv(w) ==> RunningInv(t)
    ensures f.Some? ==> f.value in t.records
  {
    assert f.Some? && f.value !in w.records ==> t.records[|w.records|] == f.value;
    assert forall r :: r in w.records ==> r in t.records;
  }

  /** Every step keeps the invariant. */
  lemma StepKeeps(w: World, a: Action)
    requires Inv(w) && Enabled(w, a)
    ensures Inv(Apply(w, a))
  {
    hide Inv, Apply;
    match a
    case Start(_) => ObjectKeeps(w, a);
    case BeginComplete(_, _) => BeginPublishKeeps(w, a);
    case BeginAbort(_) => BeginPublishKeeps(w, a);
    case Publish => PublishKeeps(w);
    case FinishPublish => FinishPublishKeeps(w);
    case BeginContinue => ContinueKeeps(w);
    case BeginFork(_) => ForkKeeps(w, a);
    case Inspect => ForkKeeps(w, a);
    case AttachFeedback => AttachStepKeeps(w);
    case Commit => CommitKeeps(w);
    case OperationFailed => FailureKeeps(w);
    case OperationFatal => EndKeeps(w, a);
    case Retain(_) => LeaseKeeps(w, a);
    case Release(_) => LeaseKeeps(w, a);
    case Pause => ObjectKeeps(w, a);
    case Resume => ObjectKeeps(w, a);
    case Stop => EndKeeps(w, a);
    case Drop(_) => EndKeeps(w, a);
    case Clean => ObjectKeeps(w, a);
    case Reopen => ReopenKeeps(w);
  }

  // ---------------------------------------------------------------- whole runs

  /** An empty run directory and a new run object. */
  ghost predicate Initially(w: World) {
    w == World([], [], false, FRESH, Free)
  }

  ghost predicate Legal(w: World, actions: seq<Action>)
    decreases |actions|
  {
    actions == [] || (Enabled(w, actions[0]) && Legal(Apply(w, actions[0]), actions[1..]))
  }

  ghost function Execute(w: World, actions: seq<Action>): World
    requires Legal(w, actions)
    decreases |actions|
  {
    if actions == [] then w else Execute(Apply(w, actions[0]), actions[1..])
  }

  lemma {:induction false} RunKeeps(w: World, actions: seq<Action>)
    requires Inv(w) && Legal(w, actions)
    ensures Inv(Execute(w, actions))
    ensures w.archives <= Execute(w, actions).archives && w.records <= Execute(w, actions).records
    decreases |actions|
  {
    hide Inv, Enabled, Apply;
    if actions != [] {
      StepKeeps(w, actions[0]);
      OnlyGrows(w, actions[0]);
      RunKeeps(Apply(w, actions[0]), actions[1..]);
    }
  }

  /** Archives and feedback records are immutable: a step can only add one at the end. */
  lemma OnlyGrows(w: World, a: Action)
    requires Inv(w) && Enabled(w, a)
    ensures w.archives <= Apply(w, a).archives && w.records <= Apply(w, a).records
  {
    hide ValidRecords, ValidReason, For, ValidHistory, LeaseInv, GateInv, RunningInv;
    if a.Publish? {
      assert w.archives != [] ==> w.archives[0].generation == 0;
      GrowOne(w.archives, w.op.archive);
    }
  }

  /** Every history any run can leave on disk is accepted, descends from generation zero through completed generations,
      and carries valid feedback: no abort reason is attached twice and no generation gets two. */
  lemma EveryHistoryValid(w: World, actions: seq<Action>)
    requires Initially(w) && Legal(w, actions)
    ensures var t := Execute(w, actions);
            ValidHistory(t.archives) && ValidRecords(t.records, t.archives) && Grown(t.archives)
  {
    RunKeeps(w, actions);
    GrownIsValid(Execute(w, actions).archives);
  }

  /** Losing the object at a gate and reopening the run, whatever was pending, restores the same generation, selected
      successor and handoff; with no partial state left over, reopening is refused if and only if a feedback record is too
      long to be read back. */
  lemma ReopenRestoresGate(w: World, actions: seq<Action>)
    requires Initially(w) && Legal(w, actions) && Execute(w, actions).run.phase == Awaiting
    ensures var live := Execute(w, actions);
            var lost := DropStep(live, false);
            (CanReopen(lost) <==> Loads(live.records)) && lost.archives != [] &&
            ReopenStep(lost) == lost.(run := FRESH.(phase := live.run.phase, number := live.run.number,
                                                    pending := live.run.pending, previous := live.run.previous))
  {
    RunKeeps(w, actions);
    LostAndReopened(Execute(w, actions));
  }

  lemma LostAndReopened(live: World)
    requires Inv(live) && live.run.phase == Awaiting
    ensures var lost := DropStep(live, false);
            (CanReopen(lost) <==> Loads(live.records)) && lost.archives != [] &&
            ReopenStep(lost) == lost.(run := FRESH.(phase := live.run.phase, number := live.run.number,
                                                    pending := live.run.pending, previous := live.run.previous))
  {
    hide ValidRecords, ValidReason, ValidHistory, RunningInv, OperationInv, LeaseInv, Reopened, Grown, Loads, DiskReads;
    Checks(live.archives, live.records);
    NumberedByPlace(live.archives);
    SameGate(live.archives, live.run);
    hide Inv, GateInv, DiskInv;
  }

  lemma Checks(archives: seq<Archive>, records: seq<Record>)
    requires DiskInv(archives, records)
    ensures DiskReads(archives, records) <==> Loads(records)
  {
    hide ValidRecords, Loads;
    GrownIsValid(archives);
  }

  lemma SameGate(archives: seq<Archive>, live: Run)
    requires GateInv(archives, live) && live.phase == Awaiting
    requires archives != [] && archives[|archives| - 1].generation == |archives| - 1
    ensures Reopened(FRESH, archives[|archives| - 1]) ==
            FRESH.(phase := Awaiting, number := live.number, pending := live.pending, previous := live.previous)
  {
  }

  /** At a gate there is an archive, so the history check never slices an empty list. */
  lemma GateHasArchive(w: World, actions: seq<Action>)
    requires Initially(w) && Legal(w, actions)
    requires Execute(w, actions).run.phase == Awaiting || Moving(Execute(w, actions).op)
    ensures Execute(w, actions).archives != []
  {
    RunKeeps(w, actions);
  }

  /** Steps that end a lease or the object that holds it. */
  predicate Lets(a: Action, g: nat) {
    a == Release(g) || a.Stop? || a.Drop?
  }

  lemma RetainedStep(w: World, a: Action, g: nat)
    requires Inv(w) && Enabled(w, a) && w.run.retained == Some(g) && !Lets(a, g)
    ensures var t := Apply(w, a);
            t.run == w.run && t.archives == w.archives && t.records == w.records
  {
    hide DiskInv, ValidRecords, ValidReason, ValidHistory, RunningInv, GateInv;
  }

  /** While a finish is retained nothing any thread does continues, rolls back or changes the gate. */
  lemma {:induction false} RetainedGateFrozen(w: World, actions: seq<Action>, g: nat)
    requires Inv(w) && Legal(w, actions) && w.run.retained == Some(g)
    requires forall i :: 0 <= i < |actions| ==> !Lets(actions[i], g)
    ensures var t := Execute(w, actions);
            t.run == w.run && t.archives == w.archives && t.records == w.records
    decreases |actions|
  {
    hide Inv, Enabled, Apply;
    if actions != [] {
      StepKeeps(w, actions[0]);
      RetainedStep(w, actions[0], g);
      RetainedGateFrozen(Apply(w, actions[0]), actions[1..], g);
    }
  }

  /** A running generation was begun with its parent's handoff and the one feedback record made for it. */
  lemma RunningKnowsItsOrigin(w: World, actions: seq<Action>)
    requires Initially(w) && Legal(w, actions)
    requires Execute(w, actions).run.phase == Running && !Execute(w, actions).op.Published?
    ensures var t := Execute(w, actions);
            Current(t.run) &&
            (t.run.parent.Some? ==> t.run.previous.Some? && Inherits(t.archives, t.run.parent.value, t.run.previous.value)) &&
            (t.run.feedback.Some? ==>
              t.run.feedback.value in t.records && t.run.feedback.value.target == t.run.number.value &&
              forall r :: r in t.records && r.target == t.run.number.value ==> r == t.run.feedback.value)
  {
    RunKeeps(w, actions);
    var t := Execute(w, actions);
    if t.run.feedback.Some? {
      OneForTarget(t.records, t.archives, t.run.feedback.value);
    }
    hide ValidRecords, Legal, Execute, Grown;
  }

  /** An attempt to start the next generation that is lost after its feedback was attached finds the same feedback when
      it is made again, by continuing or by rolling back, if and only if that feedback is read back. */
  lemma RetryKeepsFeedback(w: World)
    requires Inv(w) && Enabled(w, AttachFeedback)
    ensures var t := Apply(w, AttachFeedback);
            For(t.records, t.archives, t.op.plan.next) == t.op.feedback && Attach(t.records, t.op.feedback) == t.records &&
            (DiskReads(t.archives, t.records) <==> (t.op.feedback.Some? ==> Loadable(t.op.feedback.value)))
  {
    hide ValidRecords, ValidReason, For, Grown, ValidHistory, LeaseInv, GateInv, Loads, Loadable, AllReadable;
    AttachKeeps(w.records, w.archives);
  }
}
