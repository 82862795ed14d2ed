/** The run object without a live guest: its gate methods, each proved to be a run of the machine. The object's fields
    include what its run directory holds. */
module GateRun {
  import opened Bytes
  import opened History
  import opened FeedbackFile
  import opened Feedback
  import G = Generations

  /** Continuing, as one piece: plan, attach feedback, begin. */
  function Continued(w: G.World): G.World
    requires w.run.number.Some? && w.run.pending.Some?
  {
    var g := w.run.number.value;
    Advanced(w, G.Plan(g + 1, g, Successor, w.run.pending.value.handoff))
  }

  /** Rolling back to `origin`, as one piece. */
  function RolledBack(w: G.World, origin: nat): G.World
    requires w.run.number.Some? && CompletedAt(w.archives, origin)
  {
    Advanced(w, G.Plan(w.run.number.value + 1, origin, Rollback, w.archives[origin].outcome.handoff))
  }

  function Advanced(w: G.World, plan: G.Plan): G.World {
    var f := For(w.records, w.archives, plan.next);
    w.(records := Attach(w.records, f), run := G.Begun(w.run, plan, f))
  }

  lemma AdvanceIsSteps(w: G.World, plan: G.Plan)
    requires G.Inv(w) && w.op.Advancing? && w.op.plan == plan && w.run.transitioning && Loads(w.records)
    ensures G.Inv(Advanced(w.(op := G.Free, run := w.run.(transitioning := false)), plan))
    ensures G.Enabled(w, G.AttachFeedback) && G.Enabled(G.Apply(w, G.AttachFeedback), G.Commit)
    ensures G.Apply(G.Apply(w, G.AttachFeedback), G.Commit) ==
            Advanced(w.(op := G.Free, run := w.run.(transitioning := false)), plan)
  {
    hide G.Inv, G.DiskReads, Loads, For, Attach;
    G.AttachStepKeeps(w);
    G.CommitKeeps(G.Apply(w, G.AttachFeedback));
  }

  /** Continuing is three steps of the machine, so what every step keeps it keeps. */
  lemma ContinuedIsSteps(w: G.World)
    requires G.Inv(w) && G.Enabled(w, G.BeginContinue) && Loads(w.records)
    ensures G.Inv(Continued(w))
    ensures G.Enabled(G.Apply(w, G.BeginContinue), G.AttachFeedback)
    ensures var attached := G.Apply(G.Apply(w, G.BeginContinue), G.AttachFeedback);
            G.Enabled(attached, G.Commit) && G.Apply(attached, G.Commit) == Continued(w)
  {
    hide G.Inv, G.DiskReads, Loads, For, Attach;
    G.StepKeeps(w, G.BeginContinue);
    var t := G.Apply(w, G.BeginContinue);
    AdvanceIsSteps(t, t.op.plan);
    assert t.(op := G.Free, run := t.run.(transitioning := false)) == w;
  }

  lemma RolledBackIsSteps(w: G.World, origin: nat)
    requires G.Inv(w) && G.Enabled(w, G.BeginFork(origin)) && CompletedAt(w.archives, origin) && Loads(w.records)
    ensures G.Inv(RolledBack(w, origin))
    ensures var t := G.Apply(w, G.BeginFork(origin));
            G.Enabled(t, G.Inspect) && G.Enabled(G.Apply(t, G.Inspect), G.AttachFeedback) &&
            (var attached := G.Apply(G.Apply(t, G.Inspect), G.AttachFeedback);
             G.Enabled(attached, G.Commit) && G.Apply(attached, G.Commit) == RolledBack(w, origin))
  {
    hide G.Inv, G.DiskReads, Loads, For, Attach;
    G.StepKeeps(w, G.BeginFork(origin));
    var t := G.Apply(w, G.BeginFork(origin));
    ArchiveReads(w, origin);
    G.StepKeeps(t, G.Inspect);
    var u := G.Apply(t, G.Inspect);
    AdvanceIsSteps(u, u.op.plan);
    assert u.(op := G.Free, run := u.run.(transitioning := false)) == w;
  }

  lemma ArchiveReads(w: G.World, g: nat)
    requires G.Inv(w) && g < |w.archives|
    ensures Readable(w.archives[g].outcome)
  {
    hide ValidRecords;
  }

  /** Aborting without a live guest, as one piece; how the generation began is left in the object. */
  function AbortedGate(w: G.World, reason: Text): G.World
    requires G.Current(w.run)
  {
    w.(archives := Insert(w.archives, G.ArchiveOf(w.run, Aborted(Some(reason)))),
       run := w.run.(phase := G.Awaiting, pending := None, retained := None, previous := None, feedback := None))
  }

  function Forgotten(w: G.World): G.World {
    w.(run := w.run.(parent := None, transition := None))
  }

  lemma AbortedIsSteps(w: G.World, reason: Text)
    requires G.Inv(w) && w.run.phase == G.Running && G.Enabled(w, G.BeginAbort(reason))
    requires G.Publishable(w.archives, G.ArchiveOf(w.run, Aborted(Some(reason))))
    ensures G.Inv(AbortedGate(w, reason))
    ensures var t := G.Apply(w, G.BeginAbort(reason));
            G.Enabled(t, G.Publish) && G.Enabled(G.Apply(t, G.Publish), G.FinishPublish) &&
            G.Apply(G.Apply(t, G.Publish), G.FinishPublish) == Forgotten(AbortedGate(w, reason))
  {
    hide G.Inv, Insert, ValidReason;
    G.StepKeeps(w, G.BeginAbort(reason));
    var t := G.Apply(w, G.BeginAbort(reason));
    G.StepKeeps(t, G.Publish);
    var u := G.Apply(t, G.Publish);
    G.StepKeeps(u, G.FinishPublish);
    Remembering(AbortedGate(w, reason));
  }

  /** At a gate nothing depends on how the last generation began. */
  lemma Remembering(w: G.World)
    requires w.run.phase == G.Awaiting && G.Inv(Forgotten(w))
    ensures G.Inv(w)
  {
    hide G.DiskInv;
  }

  /** Facts the gate methods need of a sound object: what it slices is not empty, and nothing is under way. */
  lemma Sound(w: G.World)
    requires G.Inv(w) && w.op.Free?
    ensures !w.run.transitioning
    ensures w.run.phase == G.Awaiting ==>
      w.archives != [] && AllReadable(w.archives) && ValidHistory(w.archives) && ValidRecords(w.records, w.archives)
    ensures w.run.phase == G.Awaiting ==> w.run.number == Some(|w.archives| - 1) && |w.archives| - 1 <= LAST_GENERATION
  {
    GrownIsValid(w.archives);
    if w.archives != [] { G.NumberedByPlace(w.archives); }
    hide ValidHistory, ValidRecords;
  }

  class CodexOSRun {
    var archives: seq<Archive>
    var records: seq<Record>
    var leftover: bool
    var phase: G.Phase
    var number: Option<nat>
    var pending: Option<G.Finish>
    var previous: Option<Text>
    var retained: Option<nat>
    var parent: Option<nat>
    var transition: Option<Transition>
    var feedback: Option<Record>

    ghost function View(): G.World
      reads this
    {
      G.World(archives, records, leftover,
              G.Run(phase, number, pending, previous, retained, false, parent, transition, feedback), G.Free)
    }

    /** `NewCodexOSRun`: a stopped object that leaves the run directory as it is. On a new directory it is where every
        history of the machine begins. */
    constructor (archives: seq<Archive>, records: seq<Record>, leftover: bool)
      ensures View() == G.World(archives, records, leftover, G.FRESH, G.Free)
      ensures archives == [] && records == [] && !leftover ==> G.Initially(View()) && G.Inv(View())
    {
      this.archives, this.records, this.leftover := archives, records, leftover;
      phase, number, pending, previous, retained := G.Stopped, None, None, None, None;
      parent, transition, feedback := None, None, None;
    }

    /** `RetainGenerationFinish`. */
    method RetainGenerationFinish(generation: nat) returns (ok: bool)
      modifies this`retained
      ensures ok == G.Enabled(old(View()), G.Retain(generation))
      ensures View() == if ok then G.Apply(old(View()), G.Retain(generation)) else old(View())
    {
      if retained.Some? || phase != G.Awaiting || pending.None? || number != Some(generation) {
        return false;
      }
      retained := Some(generation);
      return true;
    }

    /** `ReleaseGenerationFinish`. */
    method ReleaseGenerationFinish(generation: nat)
      modifies this`retained
      ensures View() == G.Apply(old(View()), G.Release(generation))
    {
      if retained == Some(generation) {
        retained := None;
      }
    }

    /** `ReopenAtGate`: refused exactly when the object has been used, the directory holds partial state, no archive, or
        a history or feedback that cannot be read or does not check. */
    method ReopenAtGate() returns (ok: bool)
      modifies this`phase, this`number, this`pending, this`previous, this`feedback, this`parent, this`transition
      ensures ok == G.CanReopen(old(View()))
      ensures ok ==> Forgotten(View()) == G.ReopenStep(old(View())) && parent == archives[|archives| - 1].parent &&
                     transition == Some(archives[|archives| - 1].transition)
      ensures !ok ==> View() == old(View())
    {
      hide AllReadable, ValidHistory, Loads, ValidRecords;
      if phase != G.Stopped || number.Some? || leftover {
        return false;
      }
      var sound := LoadArchives(archives);
      if !sound || archives == [] {
        return false;
      }
      sound := ValidateArchivedHistory(archives);
      if !sound {
        return false;
      }
      sound := LoadRecords(records);
      if !sound {
        return false;
      }
      sound := ValidateOperatorFeedbackRecords(records, archives);
      if !sound {
        return false;
      }
      var latest := archives[|archives| - 1];
      match latest.outcome {
        case Completed(handoff, snapshot) =>
          pending, previous := Some(G.Finish(latest.generation, handoff, snapshot)), Some(handoff);
        case Aborted(_) =>
          pending, previous := None, None;
      }
      number, feedback, phase := Some(latest.generation), None, G.Awaiting;
      parent, transition := latest.parent, Some(latest.transition);
      return true;
    }

    /** `attachOperatorFeedback`: at a gate it fails exactly when a record cannot be read back. */
    method AttachOperatorFeedback(generation: nat) returns (ok: bool, attached: Option<Record>)
      requires G.Inv(View()) && phase == G.Awaiting && generation == |archives| <= LAST_GENERATION
      modifies this`records
      ensures ok == Loads(old(records))
      ensures ok ==> attached == For(old(records), archives, generation) && records == Attach(old(records), attached)
      ensures !ok ==> attached == None && records == old(records)
    {
      hide AllReadable, ValidHistory, ValidRecords, Loads, For, Attach, G.Inv;
      Sound(View());
      AttachHere(View());
      ok := LoadArchives(archives);
      assert ok;
      ok := ValidateArchivedHistory(archives);
      assert ok;
      ok, attached := FeedbackForGeneration(records, archives, generation);
      if ok && attached.Some? {
        var now;
        ok, now := Persist(records, attached.value);
        assert ok;
        records := now;
      } else if ok {
        assert Attach(records, None) == records by { NothingAttached(records); }
      }
    }

    /** The common end of continuing and rolling back. */
    method Begin(plan: G.Plan) returns (ok: bool)
      requires G.Inv(View()) && phase == G.Awaiting && plan.next == |archives| <= LAST_GENERATION
      modifies this`records, this`number, this`parent, this`transition
      modifies this`previous, this`feedback, this`pending, this`phase
      ensures ok == Loads(old(records))
      ensures View() == if ok then Advanced(old(View()), plan) else old(View())
    {
      hide G.Inv, For, Attach, Loads;
      var attached;
      ok, attached := AttachOperatorFeedback(plan.next);
      if !ok {
        return;
      }
      number, parent, transition := Some(plan.next), Some(plan.parent), Some(plan.transition);
      previous, feedback, pending, phase := Some(plan.handoff), attached, None, G.Running;
    }

    /** `ContinueGeneration`; `usable` says that the selected image is there and its snapshot parses. */
    method ContinueGeneration(usable: bool) returns (ok: bool)
      requires G.Inv(View())
      modifies this`records, this`number, this`parent, this`transition
      modifies this`previous, this`feedback, this`pending, this`phase
      ensures G.Inv(View())
      ensures ok == (usable && old(G.Open(View().run) && pending.Some?) && Loads(old(records)))
      ensures View() == if ok then Continued(old(View())) else old(View())
    {
      hide G.Inv, G.DiskReads, Loads, For, Attach;
      Sound(View());
      if retained.Some? || phase != G.Awaiting || pending.None? || number.None? || !usable ||
         number.value == LAST_GENERATION {
        return false;
      }
      if Loads(records) { ContinuedIsSteps(View()); }
      ok := Begin(G.Plan(number.value + 1, number.value, Successor, pending.value.handoff));
    }

    /** `ForkFromGeneration`. */
    method ForkFromGeneration(generation: nat, usable: bool) returns (ok: bool)
      requires G.Inv(View())
      modifies this`records, this`number, this`parent, this`transition
      modifies this`previous, this`feedback, this`pending, this`phase
      ensures G.Inv(View())
      ensures ok == (usable && old(G.Open(View().run)) && generation < old(number).value &&
                     CompletedAt(archives, generation) && Loads(old(records)))
      ensures View() == if ok then RolledBack(old(View()), generation) else old(View())
    {
      hide G.Inv, G.DiskReads, Loads, For, Attach;
      Sound(View());
      if retained.Some? || phase != G.Awaiting || number.None? || generation >= number.value ||
         number.value == LAST_GENERATION {
        return false;
      }
      var archived := archives[generation];
      if !archived.outcome.Completed? || !usable {
        return false;
      }
      if Loads(records) { RolledBackIsSteps(View(), generation); }
      ok := Begin(G.Plan(number.value + 1, generation, Rollback, archived.outcome.handoff));
    }

    /** `AbortGeneration`: the generation is archived as aborted with the operator's reason; `usable` says that its hardware
        is known and its boot image can be read. */
    method AbortGeneration(reason: Text, usable: bool) returns (ok: bool)
      requires G.Inv(View())
      modifies this`archives, this`pending, this`retained, this`previous, this`feedback, this`phase
      ensures G.Inv(View())
      ensures ok == (ValidReason(reason) && old(phase) == G.Running && old(G.Current(View().run)) && usable &&
                     G.Publishable(old(archives),
                                   Archive(number.value, parent, transition.value, Aborted(Some(reason)))))
      ensures View() == if ok then AbortedGate(old(View()), reason) else old(View())
    {
      hide G.Inv, ValidReason, Insert;
      ok := ValidateAbortReason(reason);
      if !ok || phase != G.Running || number.None? || transition.None? || !usable {
        return false;
      }
      var archive := Archive(number.value, parent, transition.value, Aborted(Some(reason)));
      if !G.Publishable(archives, archive) {
        return false;
      }
      AbortedIsSteps(View(), reason);
      archives := Insert(archives, archive);
      pending, retained, previous, feedback, phase := None, None, None, None, G.Awaiting;
      return true;
    }

    /** `Stop`. */
    method Stop()
      modifies this`phase, this`pending, this`previous, this`retained, this`parent, this`transition, this`feedback
      ensures View() == G.Apply(old(View()), G.Stop)
    {
      pending, retained, previous, feedback, parent, transition := None, None, None, None, None, None;
      phase := G.Stopped;
    }
  }

  lemma NothingAttached(records: seq<Record>)
    ensures Attach(records, None) == records
  {
  }

  lemma AttachHere(w: G.World)
    requires G.Inv(w) && w.archives != [] && |w.archives| <= LAST_GENERATION
    ensures var f := For(w.records, w.archives, |w.archives|);
            f.Some? ==> WellFormed(f.value) && forall r :: r in w.records && r.target == f.value.target ==>
              r == f.value && (Loads(w.records) ==> Loadable(r))
  {
    hide ValidRecords, For, Loadable;
    AttachKeeps(w.records, w.archives);
  }
}
