/** When a gate can always be left and reopened, and when it never can again. A reason is checked by its own length, its
    feedback file by the length of its JSON text, so that an accepted abort may leave a file that is never read back. */
module FeedbackLimits {
  import opened Bytes
  import opened History
  import opened FeedbackFile
  import opened Feedback
  import opened Generations

  // ---------------------------------------------------------------- safe reasons

  predicate SafeOutcome(outcome: Outcome) {
    outcome.Aborted? && outcome.reason.Some? ==> SafeReason(outcome.reason.value)
  }

  ghost predicate AllSafe(archives: seq<Archive>) {
    forall i :: 0 <= i < |archives| ==> SafeOutcome(archives[i].outcome)
  }

  ghost predicate SafeWorld(w: World) {
    AllSafe(w.archives) && (w.op.Publishing? ==> SafeOutcome(w.op.archive.outcome))
  }

  predicate SafeAction(a: Action) {
    a.BeginAbort? ==> SafeReason(a.reason)
  }

  lemma SafeStep(w: World, a: Action)
    requires Inv(w) && Enabled(w, a) && SafeWorld(w) && SafeAction(a)
    ensures SafeWorld(Apply(w, a))
  {
    hide SafeReason, ValidReason, ValidHandoff, ValidRecords, ValidHistory, For, Loads, GateInv, RunningInv, LeaseInv;
    if a.Publish? {
      assert w.archives != [] ==> w.archives[0].generation == 0;
      GrowOne(w.archives, w.op.archive);
    }
  }

  lemma {:induction false} SafeRun(w: World, actions: seq<Action>)
    requires Inv(w) && Legal(w, actions) && SafeWorld(w) && forall i :: 0 <= i < |actions| ==> SafeAction(actions[i])
    ensures SafeWorld(Execute(w, actions)) && Inv(Execute(w, actions))
    decreases |actions|
  {
    hide Inv, Enabled, Apply, SafeAction, SafeWorld;
    if actions != [] {
      StepKeeps(w, actions[0]);
      SafeStep(w, actions[0]);
      SafeRun(Apply(w, actions[0]), actions[1..]);
    }
  }

  lemma SafeLoads(archives: seq<Archive>, records: seq<Record>)
    requires DiskInv(archives, records) && AllSafe(archives)
    ensures Loads(records)
  {
    hide SafeReason, ValidReason, Loadable;
    GrownContiguous(archives);
    forall i | 0 <= i < |records|
      ensures Loadable(records[i])
    {
      var r := records[i];
      assert Consistent(r, archives);
      ReasonsByNumber(archives, r.source);
      assert SafeOutcome(archives[r.source].outcome);
      assert archives[|archives| - 1].generation <= LAST_GENERATION;
      assert r.target <= LAST_GENERATION;
      SafeExactly(r.reason);
    }
  }

  /** If every reason given to an abort was safe, every record is always read back: a gate can be reopened, and feedback
      can be attached, after every run. */
  lemma SafeRunsReopen(w: World, actions: seq<Action>)
    requires Initially(w) && Legal(w, actions) && forall i :: 0 <= i < |actions| ==> SafeAction(actions[i])
    ensures var t := Execute(w, actions);
            Loads(t.records) &&
            (t.run.phase == Awaiting ==> CanReopen(DropStep(t, false))) &&
            (t.op.Advancing? ==> Enabled(t, AttachFeedback))
  {
    assert SafeWorld(w) && Inv(w);
    hide SafeAction, Enabled, CanReopen, Legal, Execute, Loads, AllSafe;
    SafeRun(w, actions);
    var t := Execute(w, actions);
    SafeLoads(t.archives, t.records);
    if t.run.phase == Awaiting { LostAndReopened(t); }
    if t.op.Advancing? { AttachStepKeeps(t); }
  }

  // ---------------------------------------------------------------- and others

  lemma StuckStep(w: World, a: Action)
    requires Inv(w) && Enabled(w, a) && !Loads(w.records)
    ensures !Loads(Apply(w, a).records) && !a.AttachFeedback? && !a.Reopen?
    ensures !w.op.Attached? ==> !a.Commit? && !Apply(w, a).op.Attached?
  {
    hide Loadable, ValidRecords, ValidHistory, AllReadable, Inv;
    OnlyGrows(w, a);
    var t := Apply(w, a);
    assert forall i :: 0 <= i < |w.records| ==> t.records[i] == w.records[i];
  }

  /** Once a record is not read back, no run ever attaches feedback or reopens a gate again, and but for a generation whose
      feedback was already attached none begins. */
  lemma {:induction false} StuckForGood(w: World, actions: seq<Action>)
    requires Inv(w) && Legal(w, actions) && !Loads(w.records)
    ensures !Loads(Execute(w, actions).records)
    ensures forall i :: 0 <= i < |actions| ==> !actions[i].AttachFeedback? && !actions[i].Reopen?
    ensures !w.op.Attached? ==> forall i :: 0 <= i < |actions| ==> !actions[i].Commit?
    decreases |actions|
  {
    hide Inv, Enabled, Apply, Loads;
    if actions != [] {
      StepKeeps(w, actions[0]);
      StuckStep(w, actions[0]);
      StuckForGood(Apply(w, actions[0]), actions[1..]);
      assert actions == [actions[0]] + actions[1..];
    }
  }

  // ---------------------------------------------------------------- a run that gets there

  const FIRST := Archive(0, None, Initial, Completed([], []))

  /** The second generation, aborted with `reason`. */
  function Second(reason: Text): Archive {
    Archive(1, Some(0), Successor, Aborted(Some(reason)))
  }

  const FIRST_RUNNING := FRESH.(phase := Running, number := Some(0), transition := Some(Initial))
  const FIRST_GATE := FRESH.(phase := Awaiting, number := Some(0), pending := Some(Finish(0, [], [])), previous := Some([]))
  const SECOND_RUNNING :=
    FRESH.(phase := Running, number := Some(1), parent := Some(0), transition := Some(Successor), previous := Some([]))
  const SECOND_GATE := FRESH.(phase := Awaiting, number := Some(1))

  /** The second generation's gate, with these records on disk. */
  function GateAfter(reason: Text, records: seq<Record>): World {
    World([FIRST, Second(reason)], records, false, SECOND_GATE, Free)
  }

  /** A run from one state to the other in which whatever is aborted is aborted with `reason`. */
  ghost predicate Leads(w: World, actions: seq<Action>, t: World, reason: Text) {
    Legal(w, actions) && Execute(w, actions) == t &&
    forall i :: 0 <= i < |actions| && actions[i].BeginAbort? ==> actions[i].reason == reason
  }

  lemma Nothing(w: World, reason: Text)
    ensures Leads(w, [], w, reason)
  {
  }

  lemma {:induction false} Next(w: World, actions: seq<Action>, t: World, a: Action, u: World, reason: Text)
    requires Leads(w, actions, t, reason) && Enabled(t, a) && Apply(t, a) == u && (a.BeginAbort? ==> a.reason == reason)
    ensures Leads(w, actions + [a], u, reason)
    decreases |actions|
  {
    hide Enabled, Apply;
    var more := actions + [a];
    if actions == [] {
      assert more[0] == a && more[1..] == [] && w == t;
      assert Legal(u, more[1..]) && Execute(u, more[1..]) == u;
    } else {
      assert more[1..] == actions[1..] + [a];
      Next(Apply(w, actions[0]), actions[1..], t, a, u, reason);
      assert forall i :: 1 <= i < |more| ==> more[i] == more[1..][i - 1];
    }
  }

  lemma EmptyText()
    ensures ValidHandoff([])
  {
  }

  lemma Sizes(reason: Text)
    requires ValidReason(reason)
    ensures DiskReads([FIRST], []) && For([], [FIRST], 1) == None && Insert([], FIRST) == [FIRST]
    ensures DiskReads([FIRST, Second(reason)], []) && Insert([FIRST], Second(reason)) == [FIRST, Second(reason)]
    ensures For([], [FIRST, Second(reason)], 2) == Some(Record(2, 1, reason, 1))
  {
    EmptyText();
    hide ValidHandoff, ValidReason;
    assert [FIRST][..0] == [];
    assert Newest([FIRST][..0], Sources([])) == None;
    assert [FIRST] + [Second(reason)] == [FIRST, Second(reason)];
  }

  /** The first generation completes. */
  lemma ToFirstGate(reason: Text) returns (actions: seq<Action>)
    requires ValidReason(reason)
    ensures Leads(World([], [], false, FRESH, Free), actions, World([FIRST], [], false, FIRST_GATE, Free), reason)
  {
    Sizes(reason);
    EmptyText();
    hide Leads, ValidReason, ValidHandoff, DiskReads, For, Insert;
    var w0 := World([], [], false, FRESH, Free);
    var w1 := World([], [], false, FIRST_RUNNING, Free);
    Nothing(w0, reason);
    Next(w0, [], w0, Start(None), w1, reason);
    actions := [] + [Start(None)];
    var w2 := w1.(op := Publishing(FIRST));
    Next(w0, actions, w1, BeginComplete([], []), w2, reason);
    actions := actions + [BeginComplete([], [])];
    var w3 := World([FIRST], [], false, FIRST_RUNNING, Published(FIRST));
    Next(w0, actions, w2, Publish, w3, reason);
    actions := actions + [Publish];
    Next(w0, actions, w3, FinishPublish, World([FIRST], [], false, FIRST_GATE, Free), reason);
    actions := actions + [FinishPublish];
  }

  /** The second begins, and there is nothing to attach to it. */
  lemma ToSecond(w0: World, before: seq<Action>, reason: Text) returns (actions: seq<Action>)
    requires ValidReason(reason) && Leads(w0, before, World([FIRST], [], false, FIRST_GATE, Free), reason)
    ensures Leads(w0, actions, World([FIRST], [], false, SECOND_RUNNING, Free), reason)
  {
    Sizes(reason);
    hide Leads, ValidReason, ValidHandoff, DiskReads, For, Insert;
    var w1 := World([FIRST], [], false, FIRST_GATE, Free);
    var plan := Plan(1, 0, Successor, []);
    var w2 := w1.(run := FIRST_GATE.(transitioning := true), op := Advancing(plan));
    Next(w0, before, w1, BeginContinue, w2, reason);
    actions := before + [BeginContinue];
    var w3 := w2.(op := Attached(plan, None));
    Next(w0, actions, w2, AttachFeedback, w3, reason);
    actions := actions + [AttachFeedback];
    Next(w0, actions, w3, Commit, World([FIRST], [], false, SECOND_RUNNING, Free), reason);
    actions := actions + [Commit];
  }

  /** It is aborted. */
  lemma ToSecondGate(w0: World, before: seq<Action>, reason: Text) returns (actions: seq<Action>)
    requires ValidReason(reason) && Leads(w0, before, World([FIRST], [], false, SECOND_RUNNING, Free), reason)
    ensures Leads(w0, actions, GateAfter(reason, []), reason)
  {
    Sizes(reason);
    hide Leads, ValidReason, ValidHandoff, DiskReads, For, Insert;
    var w1 := World([FIRST], [], false, SECOND_RUNNING, Free);
    var w2 := w1.(op := Publishing(Second(reason)));
    Next(w0, before, w1, BeginAbort(reason), w2, reason);
    actions := before + [BeginAbort(reason)];
    var w3 := World([FIRST, Second(reason)], [], false, SECOND_RUNNING, Published(Second(reason)));
    Next(w0, actions, w2, Publish, w3, reason);
    actions := actions + [Publish];
    Next(w0, actions, w3, FinishPublish, GateAfter(reason, []), reason);
    actions := actions + [FinishPublish];
  }

  /** A roll back to the first generation is lost after the reason has been attached. */
  lemma ToRetry(w0: World, before: seq<Action>, reason: Text) returns (actions: seq<Action>)
    requires ValidReason(reason) && Leads(w0, before, GateAfter(reason, []), reason)
    ensures Leads(w0, actions, GateAfter(reason, [Record(2, 1, reason, 1)]), reason)
  {
    Sizes(reason);
    EmptyText();
    hide Leads, ValidReason, ValidHandoff, DiskReads, For, Insert;
    var w1 := GateAfter(reason, []);
    var w2 := w1.(run := SECOND_GATE.(transitioning := true), op := Forking(0, 2));
    Next(w0, before, w1, BeginFork(0), w2, reason);
    actions := before + [BeginFork(0)];
    var plan, f := Plan(2, 0, Rollback, []), Record(2, 1, reason, 1);
    var w3 := w2.(op := Advancing(plan));
    Next(w0, actions, w2, Inspect, w3, reason);
    actions := actions + [Inspect];
    var w4 := w3.(records := [f], op := Attached(plan, Some(f)));
    assert Attach([], Some(f)) == [f];
    Next(w0, actions, w3, AttachFeedback, w4, reason);
    actions := actions + [AttachFeedback];
    Next(w0, actions, w4, OperationFailed, GateAfter(reason, [f]), reason);
    actions := actions + [OperationFailed];
  }

  /** For every acceptable reason there is a run that aborts with it and ends at a gate with the reason on file. That gate
      can be reopened, and a generation begun from it, if and only if the record is read back. */
  lemma AbortedGateReopens(reason: Text) returns (actions: seq<Action>)
    requires ValidReason(reason)
    ensures var empty := World([], [], false, FRESH, Free);
            var gate := GateAfter(reason, [Record(2, 1, reason, 1)]);
            Initially(empty) && Leads(empty, actions, gate, reason) &&
            (CanReopen(DropStep(gate, false)) <==> Loadable(Record(2, 1, reason, 1))) &&
            Enabled(gate, BeginFork(0)) && Enabled(Apply(gate, BeginFork(0)), Inspect) &&
            (Enabled(Apply(Apply(gate, BeginFork(0)), Inspect), AttachFeedback) <==> Loadable(Record(2, 1, reason, 1)))
  {
    var empty := World([], [], false, FRESH, Free);
    assert Inv(empty);
    actions := ToFirstGate(reason);
    actions := ToSecond(empty, actions, reason);
    actions := ToSecondGate(empty, actions, reason);
    actions := ToRetry(empty, actions, reason);
    RunKeeps(empty, actions);
    GateFates(reason);
  }

  lemma GateFates(reason: Text)
    requires ValidReason(reason) && Inv(GateAfter(reason, [Record(2, 1, reason, 1)]))
    ensures var gate := GateAfter(reason, [Record(2, 1, reason, 1)]);
            (CanReopen(DropStep(gate, false)) <==> Loadable(Record(2, 1, reason, 1))) &&
            Enabled(gate, BeginFork(0)) && Enabled(Apply(gate, BeginFork(0)), Inspect) &&
            (Enabled(Apply(Apply(gate, BeginFork(0)), Inspect), AttachFeedback) <==> Loadable(Record(2, 1, reason, 1)))
  {
    hide Inv, ValidReason, ValidHandoff, Loadable, DiskReads;
    var gate := GateAfter(reason, [Record(2, 1, reason, 1)]);
    EmptyText();
    LostAndReopened(gate);
    StepKeeps(gate, BeginFork(0));
    var forked := Apply(gate, BeginFork(0));
    StepKeeps(forked, Inspect);
    AttachStepKeeps(Apply(forked, Inspect));
    assert Loads(gate.records) <==> Loadable(Record(2, 1, reason, 1)) by {
      assert gate.records[0] == Record(2, 1, reason, 1);
    }
  }

  /** So reopening a gate can fail for good: after an abort with five thousand quotes as its reason, no run ever reopens the
      gate or begins a generation again. */
  lemma QuotedReasonSticks(later: seq<Action>) returns (actions: seq<Action>)
    requires Legal(GateAfter(Quotes(5000), [Record(2, 1, Quotes(5000), 1)]), later)
    ensures Leads(World([], [], false, FRESH, Free), actions, GateAfter(Quotes(5000), [Record(2, 1, Quotes(5000), 1)]),
                  Quotes(5000))
    ensures !CanReopen(DropStep(GateAfter(Quotes(5000), [Record(2, 1, Quotes(5000), 1)]), false))
    ensures forall i :: 0 <= i < |later| ==> !later[i].AttachFeedback? && !later[i].Reopen? && !later[i].Commit?
  {
    hide Quotes, CanReopen, Enabled, Apply, Loadable, ValidReason, Legal;
    QuotesNeverLoad(5000, 2, 1);
    actions := AbortedGateReopens(Quotes(5000));
    StuckAfter(Quotes(5000), actions, later);
  }

  lemma StuckAfter(reason: Text, actions: seq<Action>, later: seq<Action>)
    requires Leads(World([], [], false, FRESH, Free), actions, GateAfter(reason, [Record(2, 1, reason, 1)]), reason)
    requires Legal(GateAfter(reason, [Record(2, 1, reason, 1)]), later) && !Loadable(Record(2, 1, reason, 1))
    ensures forall i :: 0 <= i < |later| ==> !later[i].AttachFeedback? && !later[i].Reopen? && !later[i].Commit?
  {
    assert Inv(World([], [], false, FRESH, Free));
    hide Inv, Loadable;
    RunKeeps(World([], [], false, FRESH, Free), actions);
    var gate := GateAfter(reason, [Record(2, 1, reason, 1)]);
    assert !Loads(gate.records) by {
      assert gate.records[0] == Record(2, 1, reason, 1);
    }
    StuckForGood(gate, later);
  }
}
