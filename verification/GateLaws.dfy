/** What the operations at a gate come to, in terms of the archives and the object alone. */
module GateLaws {
  import opened Bytes
  import opened History
  import opened FeedbackFile
  import opened Feedback
  import opened Generations

  ghost predicate Leads(w: World, actions: seq<Action>, t: World) {
    Legal(w, actions) && Execute(w, actions) == t
  }

  lemma ThreeSteps(w: World, a: Action, b: Action, c: Action)
    requires Enabled(w, a) && Enabled(Apply(w, a), b) && Enabled(Apply(Apply(w, a), b), c)
    ensures Leads(w, [a, b, c], Apply(Apply(Apply(w, a), b), c))
  {
    hide Enabled, Apply;
    var t1 := Apply(w, a);
    var t2 := Apply(t1, b);
    var t3 := Apply(t2, c);
    assert Legal(t3, []) && Execute(t3, []) == t3;
    assert [a, b, c][1..] == [b, c] && [b, c][1..] == [c] && [c][1..] == [];
    assert Legal(t2, [c]) && Execute(t2, [c]) == t3;
    assert Legal(t1, [b, c]) && Execute(t1, [b, c]) == t3;
  }

  /** The generation that runs after a start: its number, its parent and how it came from it, the handoff it was given, and
      the feedback chosen for it, which is on record. The history is as it was. */
  ghost predicate Began(w: World, t: World, parent: nat, transition: Transition) {
    t.run.phase == Running && t.op.Free? && !t.run.transitioning && t.archives == w.archives &&
    t.run.number == Some(|w.archives|) && t.run.parent == Some(parent) && t.run.transition == Some(transition) &&
    parent < |w.archives| && w.archives[parent].outcome.Completed? &&
    t.run.previous == Some(w.archives[parent].outcome.handoff) && t.run.pending == None &&
    Chosen(w.records, w.archives, |w.archives|, t.run.feedback) &&
    (if t.run.feedback.None? || t.run.feedback.value in w.records then t.records == w.records
     else t.records == w.records + [t.run.feedback.value])
  }

  /** Continuing begins the next generation from the newest archive as its successor. */
  lemma ContinueLaw(w: World) returns (t: World)
    requires Inv(w) && w.op.Free? && Loads(w.records)
    requires w.run.phase == Awaiting && !w.run.transitioning && w.run.retained.None? && |w.archives| <= LAST_GENERATION
    requires w.archives != [] && w.archives[|w.archives| - 1].outcome.Completed?
    ensures Leads(w, [BeginContinue, AttachFeedback, Commit], t) && Began(w, t, |w.archives| - 1, Successor)
  {
    hide Inv, Loads, For, Attach, Chosen, DiskReads, Leads;
    GateNumber(w);
    var w1 := Apply(w, BeginContinue);
    StepKeeps(w, BeginContinue);
    t := Attached(w, w1, BeginContinue);
  }

  /** Rolling back begins the next generation from the archive it was asked to roll back to. */
  lemma ForkLaw(w: World, origin: nat) returns (t: World)
    requires Inv(w) && w.op.Free? && Loads(w.records)
    requires w.run.phase == Awaiting && !w.run.transitioning && w.run.retained.None? && |w.archives| <= LAST_GENERATION
    requires origin + 1 < |w.archives| && w.archives[origin].outcome.Completed?
    ensures Leads(w, [BeginFork(origin)] + [Inspect, AttachFeedback, Commit], t) && Began(w, t, origin, Rollback)
  {
    hide Inv, Loads, For, Attach, Chosen, DiskReads, ValidHandoff;
    GateNumber(w);
    ArchiveReadable(w, origin);
    var w1 := Apply(w, BeginFork(origin));
    StepKeeps(w, BeginFork(origin));
    var w2 := Apply(w1, Inspect);
    StepKeeps(w1, Inspect);
    t := Attached(w1, w2, Inspect);
    assert ([BeginFork(origin)] + [Inspect, AttachFeedback, Commit])[1..] == [Inspect, AttachFeedback, Commit];
  }

  lemma ArchiveReadable(w: World, g: nat)
    requires Inv(w) && g < |w.archives|
    ensures Readable(w.archives[g].outcome)
  {
    hide ValidRecords;
  }

  lemma GateNumber(w: World)
    requires Inv(w) && w.run.phase == Awaiting
    ensures w.archives != [] && w.run.number == Some(|w.archives| - 1)
    ensures var latest := w.archives[|w.archives| - 1];
            latest.outcome.Completed? ==> w.run.pending.Some? && w.run.pending.value.handoff == latest.outcome.handoff
  {
    hide DiskInv, OperationInv, RunningInv, LeaseInv;
  }

  /** The common end: feedback is attached and the generation begins as planned. */
  lemma Attached(w: World, w1: World, first: Action) returns (t: World)
    requires Enabled(w, first) && w1 == Apply(w, first) && Inv(w1) && w1.op.Advancing? && Loads(w1.records)
    requires w1.run.transitioning
    ensures Leads(w, [first, AttachFeedback, Commit], t)
    ensures t.run.phase == Running && t.op.Free? && !t.run.transitioning && t.archives == w1.archives && t.run.pending == None
    ensures t.run.number == Some(w1.op.plan.next) && t.run.parent == Some(w1.op.plan.parent)
    ensures t.run.transition == Some(w1.op.plan.transition) && t.run.previous == Some(w1.op.plan.handoff)
    ensures Chosen(w1.records, w1.archives, w1.op.plan.next, t.run.feedback)
    ensures if t.run.feedback.None? || t.run.feedback.value in w1.records then t.records == w1.records
            else t.records == w1.records + [t.run.feedback.value]
  {
    hide ValidReason, ValidRecords, ValidHistory, Loads, For, Chosen, Inv, Leads;
    AttachStepKeeps(w1);
    ChosenHere(w1);
    var w2 := Apply(w1, AttachFeedback);
    t := Apply(w2, Commit);
    ThreeSteps(w, first, AttachFeedback, Commit);
  }

  lemma ChosenHere(w: World)
    requires Inv(w)
    ensures forall g :: Chosen(w.records, w.archives, g, For(w.records, w.archives, g))
  {
    hide Chosen, For, ValidRecords;
    forall g: nat
      ensures Chosen(w.records, w.archives, g, For(w.records, w.archives, g))
    {
      ChosenLaw(w.records, w.archives, g);
    }
  }

  /** Ending a running generation that is next in the history archives it under its number, with the parent and transition
      it began with and the outcome it was given, and nothing else changes on disk. */
  ghost predicate Ended(w: World, t: World, outcome: Outcome) {
    t.op.Free? && t.run.phase == Awaiting && t.run.number == w.run.number && t.records == w.records &&
    w.run.transition.Some? && t.archives == w.archives + [Archive(|w.archives|, w.run.parent, w.run.transition.value, outcome)] &&
    t.run.feedback == None
  }

  /** An abort leaves a gate without a successor. */
  lemma AbortLaw(w: World, reason: Text)
    requires Inv(w) && w.op.Free? && (w.run.phase == Running || w.run.phase == Paused) && w.run.number == Some(|w.archives|)
    requires ValidReason(reason)
    ensures var t := Apply(Apply(Apply(w, BeginAbort(reason)), Publish), FinishPublish);
            Leads(w, [BeginAbort(reason), Publish, FinishPublish], t) && Ended(w, t, Aborted(Some(reason))) &&
            t.run.pending == None && t.run.previous == None
  {
    hide ValidReason, ValidRecords, ValidHistory, Insert, Leads;
    Publishes(w, BeginAbort(reason), Aborted(Some(reason)));
    ThreeSteps(w, BeginAbort(reason), Publish, FinishPublish);
  }

  /** A completion leaves a gate with the generation's own handoff and snapshot selected. */
  lemma CompleteLaw(w: World, handoff: Text, snapshot: seq<Byte>)
    requires Inv(w) && w.op.Free? && w.run.phase == Running && w.run.number == Some(|w.archives|) && ValidHandoff(handoff)
    ensures var t := Apply(Apply(Apply(w, BeginComplete(handoff, snapshot)), Publish), FinishPublish);
            Leads(w, [BeginComplete(handoff, snapshot), Publish, FinishPublish], t) &&
            Ended(w, t, Completed(handoff, snapshot)) && t.run.pending == Some(Finish(|w.archives|, handoff, snapshot)) &&
            t.run.previous == Some(handoff)
  {
    hide ValidReason, ValidRecords, ValidHistory, Insert, Leads;
    Publishes(w, BeginComplete(handoff, snapshot), Completed(handoff, snapshot));
    ThreeSteps(w, BeginComplete(handoff, snapshot), Publish, FinishPublish);
  }

  lemma Publishes(w: World, a: Action, outcome: Outcome)
    requires Inv(w) && Enabled(w, a) && w.run.number == Some(|w.archives|)
    requires (a.BeginAbort? && outcome == Aborted(Some(a.reason))) ||
             (a.BeginComplete? && outcome == Completed(a.handoff, a.snapshot))
    ensures w.run.transition.Some?
    ensures var archive := Archive(|w.archives|, w.run.parent, w.run.transition.value, outcome);
            Apply(w, a) == w.(op := Publishing(archive)) && Insert(w.archives, archive) == w.archives + [archive] &&
            Publishable(w.archives, archive)
  {
    hide ValidReason, ValidRecords, ValidHistory, GateInv, LeaseInv;
    var archive := Archive(|w.archives|, w.run.parent, w.run.transition.value, outcome);
    assert Extends(w.archives, archive.generation, archive.parent, archive.transition);
    GrowOne(w.archives, archive);
  }
}
