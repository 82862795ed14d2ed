/** Operator feedback: the reason of an abort, attached once to a later generation. */
module Feedback {
  import opened Bytes
  import opened History
  import opened FeedbackFile
  import Utf8

  predicate HasReason(a: Archive) {
    a.outcome.Aborted? && a.outcome.reason.Some?
  }

  /** The reasons of the aborted generations, by number. */
  function AbortReasons(archives: seq<Archive>): map<nat, Text> {
    if archives == [] then map[]
    else
      var last := archives[|archives| - 1];
      var earlier := AbortReasons(archives[..|archives| - 1]);
      if HasReason(last) then earlier[last.generation := last.outcome.reason.value] else earlier
  }

  /** The latest generation feedback may be for: the one after the newest archive. */
  function MaximumTarget(archives: seq<Archive>): nat {
    if archives == [] then 0
    else
      var last := archives[|archives| - 1].generation;
      if last != LAST_GENERATION then last + 1 else last
  }

  predicate Consistent(r: Record, archives: seq<Archive>) {
    WellFormed(r) && archives != [] && r.target <= MaximumTarget(archives) &&
    r.source in AbortReasons(archives) && AbortReasons(archives)[r.source] == r.reason
  }

  /** What `validateOperatorFeedbackRecords` accepts: every record tells the reason of an aborted generation, and no
      generation is twice a source or twice a target. */
  predicate ValidRecords(records: seq<Record>, archives: seq<Archive>) {
    (forall i :: 0 <= i < |records| ==> Consistent(records[i], archives)) &&
    (forall i, j :: 0 <= i < j < |records| ==> records[i].source != records[j].source) &&
    (forall i, j :: 0 <= i < j < |records| ==> records[i].target != records[j].target)
  }

  method CollectReasons(archives: seq<Archive>) returns (reasons: map<nat, Text>)
    ensures reasons == AbortReasons(archives)
  {
    reasons := map[];
    for i := 0 to |archives|
      invariant reasons == AbortReasons(archives[..i])
    {
      assert archives[..i + 1][..i] == archives[..i];
      if HasReason(archives[i]) {
        reasons := reasons[archives[i].generation := archives[i].outcome.reason.value];
      }
    }
    assert archives[..|archives|] == archives;
  }

  method ValidateOperatorFeedbackRecords(records: seq<Record>, archives: seq<Archive>) returns (ok: bool)
    ensures ok == ValidRecords(records, archives)
  {
    hide AbortReasons, ValidReason;
    var reasons := CollectReasons(archives);
    var seenSources: set<nat>, seenTargets: set<nat> := {}, {};
    var maximum := MaximumTarget(archives);
    for i := 0 to |records|
      invariant ValidRecords(records[..i], archives)
      invariant forall g :: g in seenSources <==> exists k :: 0 <= k < i && records[k].source == g
      invariant forall g :: g in seenTargets <==> exists k :: 0 <= k < i && records[k].target == g
    {
      var record := records[i];
      ok := record.schema == 1 && record.target > record.source;
      if ok {
        ok := ValidateAbortReason(record.reason);
      }
      if !ok || record.source !in reasons || reasons[record.source] != record.reason || archives == [] ||
         record.target > maximum {
        assert !Consistent(records[i], archives);
        return false;
      }
      if record.source in seenSources || record.target in seenTargets {
        return false;
      }
      OneMoreRecord(records, i, archives);
      seenSources, seenTargets := seenSources + {record.source}, seenTargets + {record.target};
    }
    assert records[..|records|] == records;
    return true;
  }

  lemma OneMoreRecord(records: seq<Record>, i: nat, archives: seq<Archive>)
    requires i < |records| && ValidRecords(records[..i], archives) && Consistent(records[i], archives)
    requires forall k :: 0 <= k < i ==> records[k].source != records[i].source && records[k].target != records[i].target
    ensures ValidRecords(records[..i + 1], archives)
  {
    hide Consistent;
    assert records[..i + 1] == records[..i] + [records[i]];
    assert forall k :: 0 <= k < i ==> records[..i][k] == records[k];
  }

  // ---------------------------------------------------------------- choosing feedback

  /** The first record for `g`. */
  function Existing(records: seq<Record>, g: nat): Option<Record> {
    if records == [] then None
    else if records[0].target == g then Some(records[0])
    else Existing(records[1..], g)
  }

  function Sources(records: seq<Record>): set<nat> {
    set r | r in records :: r.source
  }

  predicate Unconsumed(a: Archive, consumed: set<nat>) {
    HasReason(a) && a.generation !in consumed
  }

  /** The last archive whose reason has not been used. */
  function Newest(archives: seq<Archive>, consumed: set<nat>): Option<Archive> {
    if archives == [] then None
    else if Unconsumed(archives[|archives| - 1], consumed) then Some(archives[|archives| - 1])
    else Newest(archives[..|archives| - 1], consumed)
  }

  /** What `feedbackForGeneration` answers on valid records. */
  function For(records: seq<Record>, archives: seq<Archive>, g: nat): Option<Record> {
    var existing := Existing(records, g);
    if existing.Some? then existing
    else
      var newest := Newest(archives, Sources(records));
      if newest.None? || !HasReason(newest.value) then None
      else Some(Record(g, newest.value.generation, newest.value.outcome.reason.value, 1))
  }

  predicate Used(records: seq<Record>, source: nat) {
    exists k :: 0 <= k < |records| && records[k].source == source
  }

  /** Archive `i` was aborted with the record's reason, which no record has used, and every later abort is used. */
  predicate TellsOf(records: seq<Record>, archives: seq<Archive>, i: nat, r: Record) {
    i < |archives| && archives[i].generation == r.source && archives[i].outcome == Aborted(Some(r.reason)) &&
    !Used(records, r.source) &&
    forall j :: i < j < |archives| && archives[j].outcome.Aborted? && archives[j].outcome.reason.Some? ==>
      Used(records, archives[j].generation)
  }

  /** The feedback a generation is to get: the record made for it; without one, the newest abort not used; and none only
      when every abort that has a reason is used. */
  ghost predicate Chosen(records: seq<Record>, archives: seq<Archive>, g: nat, feedback: Option<Record>) {
    (forall k :: 0 <= k < |records| && records[k].target == g ==> feedback == Some(records[k])) &&
    ((forall k :: 0 <= k < |records| ==> records[k].target != g) ==>
      if feedback.Some? then
        feedback.value.target == g && feedback.value.schema == 1 &&
        exists i: nat :: TellsOf(records, archives, i, feedback.value)
      else
        forall i :: 0 <= i < |archives| && archives[i].outcome.Aborted? && archives[i].outcome.reason.Some? ==>
          Used(records, archives[i].generation))
  }

  lemma ChosenLaw(records: seq<Record>, archives: seq<Archive>, g: nat)
    ensures ValidRecords(records, archives) ==> Chosen(records, archives, g, For(records, archives, g))
  {
    if ValidRecords(records, archives) {
      hide Consistent, TellsOf;
      ExistingIsRecord(records, g);
      forall k | 0 <= k < |records| && records[k].target == g
        ensures Existing(records, g) == Some(records[k])
      {
        assert records[k] in records;
        OneForTarget(records, archives, records[k]);
      }
      NewestTells(records, archives, g);
    }
  }

  lemma {:induction false} NewestTells(records: seq<Record>, archives: seq<Archive>, g: nat)
    ensures var n := Newest(archives, Sources(records));
            if n.Some? then
              HasReason(n.value) &&
              exists i: nat :: TellsOf(records, archives, i, Record(g, n.value.generation, n.value.outcome.reason.value, 1))
            else
              forall i :: 0 <= i < |archives| && archives[i].outcome.Aborted? && archives[i].outcome.reason.Some? ==>
                Used(records, archives[i].generation)
  {
    UsedSources(records);
    hide Sources, Used;
    if archives != [] {
      var front, last := archives[..|archives| - 1], archives[|archives| - 1];
      if Unconsumed(last, Sources(records)) {
        assert TellsOf(records, archives, |archives| - 1, Record(g, last.generation, last.outcome.reason.value, 1));
      } else {
        NewestTells(records, front, g);
        var n := Newest(front, Sources(records));
        if n.Some? {
          var r := Record(g, n.value.generation, n.value.outcome.reason.value, 1);
          var i: nat :| TellsOf(records, front, i, r);
          assert TellsOf(records, archives, i, r);
        }
      }
    }
  }

  lemma UsedSources(records: seq<Record>)
    ensures forall source :: source in Sources(records) <==> Used(records, source)
  {
    forall source: nat | Used(records, source)
      ensures source in Sources(records)
    {
      var k :| 0 <= k < |records| && records[k].source == source;
      assert records[k] in records;
    }
  }

  method FeedbackForGeneration(records: seq<Record>, archives: seq<Archive>, g: nat)
    returns (valid: bool, feedback: Option<Record>)
    ensures valid == (Loads(records) && ValidRecords(records, archives))
    ensures valid ==> feedback == For(records, archives, g) && Chosen(records, archives, g, feedback)
    ensures !valid ==> feedback == None
  {
    ChosenLaw(records, archives, g);
    hide Chosen;
    hide Loads, ValidRecords, AbortReasons;
    valid := LoadRecords(records);
    if !valid {
      return false, None;
    }
    valid := ValidateOperatorFeedbackRecords(records, archives);
    if !valid {
      return false, None;
    }
    for i := 0 to |records|
      invariant Existing(records, g) == Existing(records[i..], g)
    {
      assert records[i..][1..] == records[i + 1..];
      if records[i].target == g {
        return true, Some(records[i]);
      }
    }
    var consumed: set<nat> := {};
    for i := 0 to |records|
      invariant consumed == Sources(records[..i])
    {
      assert records[..i + 1] == records[..i] + [records[i]];
      consumed := consumed + {records[i].source};
    }
    assert records[..|records|] == records;
    assert archives[..|archives|] == archives;
    var index: nat := |archives|;
    while index > 0
      invariant 0 <= index <= |archives| && Newest(archives, consumed) == Newest(archives[..index], consumed)
    {
      index := index - 1;
      var archive := archives[index];
      assert archives[..index + 1][..index] == archives[..index];
      if Unconsumed(archive, consumed) {
        return true, Some(Record(g, archive.generation, archive.outcome.reason.value, 1));
      }
    }
    return true, None;
  }

  /** `persistOperatorFeedback`: a record for the same generation may only be repeated, never replaced. Its own size is not
      looked at, but a file that is there already has to be read for the comparison. */
  method Persist(records: seq<Record>, feedback: Record) returns (ok: bool, now: seq<Record>)
    ensures ok <==> WellFormed(feedback) && forall r :: r in records && r.target == feedback.target ==>
                      r == feedback && Loadable(r)
    ensures now == if ok then Attach(records, Some(feedback)) else records
  {
    hide ValidReason, Encoded;
    ok := feedback.schema == 1 && feedback.target > feedback.source;
    if ok {
      ok := ValidateAbortReason(feedback.reason);
    }
    if !ok {
      return false, records;
    }
    ValidIsText(feedback.reason);
    var encoded := Encoded(feedback);
    var found := false;
    for i := 0 to |records|
      invariant forall k :: 0 <= k < i && records[k].target == feedback.target ==>
        records[k] == feedback && Loadable(records[k])
      invariant found <==> exists k :: 0 <= k < i && records[k] == feedback
    {
      if records[i].target == feedback.target {
        if !Utf8.Valid(records[i].reason) || |Encoded(records[i])| > FEEDBACK_LIMIT || Encoded(records[i]) != encoded {
          return false, records;
        }
        EncodedDistinct(records[i], feedback);
        found := true;
      }
    }
    now := if found then records else records + [feedback];
  }

  function Attach(records: seq<Record>, feedback: Option<Record>): seq<Record> {
    if feedback.None? || feedback.value in records then records else records + [feedback.value]
  }

  // ---------------------------------------------------------------- what it means

  lemma {:induction false} ReasonsByNumber(archives: seq<Archive>, g: nat)
    requires Contiguous(archives)
    ensures g in AbortReasons(archives) <==> g < |archives| && HasReason(archives[g])
    ensures g in AbortReasons(archives) ==> AbortReasons(archives)[g] == archives[g].outcome.reason.value
  {
    if archives != [] {
      ReasonsByNumber(archives[..|archives| - 1], g);
    }
  }

  lemma {:induction false} ExistingIsRecord(records: seq<Record>, g: nat)
    ensures var e := Existing(records, g);
            if e.Some? then e.value in records && e.value.target == g
            else forall r :: r in records ==> r.target != g
  {
    if records != [] {
      ExistingIsRecord(records[1..], g);
      assert records == [records[0]] + records[1..];
    }
  }

  /** The newest unused abort is chosen: none after it is unused, and none is chosen only when all are used. */
  lemma {:induction false} NewestIsNewest(archives: seq<Archive>, consumed: set<nat>)
    requires Contiguous(archives)
    ensures var n := Newest(archives, consumed);
            if n.Some? then
              n.value.generation < |archives| && archives[n.value.generation] == n.value && Unconsumed(n.value, consumed) &&
              (forall i :: n.value.generation < i < |archives| ==> !Unconsumed(archives[i], consumed))
            else forall i :: 0 <= i < |archives| ==> !Unconsumed(archives[i], consumed)
  {
    if archives != [] && !Unconsumed(archives[|archives| - 1], consumed) {
      NewestIsNewest(archives[..|archives| - 1], consumed);
    }
  }

  /** Feedback for the next generation leaves the records valid, is for that generation, and stays the answer as long as
      the records are read back: they are if and only if they were before and the new one is. */
  lemma AttachKeeps(records: seq<Record>, archives: seq<Archive>)
    requires Grown(archives) && archives != [] && |archives| <= LAST_GENERATION && ValidRecords(records, archives)
    ensures var f := For(records, archives, |archives|);
            ValidRecords(Attach(records, f), archives) && For(Attach(records, f), archives, |archives|) == f &&
            (f.Some? ==> f.value.target == |archives| && WellFormed(f.value) &&
                         forall r :: r in records && r.target == |archives| ==> r == f.value) &&
            (Loads(Attach(records, f)) <==> Loads(records) && (f.Some? ==> Loadable(f.value)))
  {
    AttachLoads(records, For(records, archives, |archives|));
    hide Loads;
    var g := |archives|;
    ExistingIsRecord(records, g);
    if Existing(records, g).None? {
      GrownContiguous(archives);
      NewestIsNewest(archives, Sources(records));
      var newest := Newest(archives, Sources(records));
      if newest.Some? {
        NewRecordFits(records, archives, newest.value);
      }
    } else {
      OneForTarget(records, archives, Existing(records, g).value);
    }
  }

  lemma AttachLoads(records: seq<Record>, f: Option<Record>)
    ensures Loads(Attach(records, f)) <==> Loads(records) && (f.Some? ==> Loadable(f.value))
  {
    hide Loadable;
    var more := Attach(records, f);
    assert forall i :: 0 <= i < |records| ==> more[i] == records[i];
    if f.Some? && f.value !in records {
      assert more[|records|] == f.value;
    } else if f.Some? {
      var k :| 0 <= k < |records| && records[k] == f.value;
    }
  }

  lemma OneForTarget(records: seq<Record>, archives: seq<Archive>, r: Record)
    requires ValidRecords(records, archives) && r in records
    ensures WellFormed(r) && forall q :: q in records && q.target == r.target ==> q == r
  {
    hide AbortReasons, ValidReason;
    var i :| 0 <= i < |records| && records[i] == r;
    assert Consistent(records[i], archives);
  }

  lemma NewRecordFits(records: seq<Record>, archives: seq<Archive>, a: Archive)
    requires Grown(archives) && archives != [] && |archives| <= LAST_GENERATION && ValidRecords(records, archives)
    requires Contiguous(archives) && Existing(records, |archives|).None? && Unconsumed(a, Sources(records))
    requires a.generation < |archives| && archives[a.generation] == a
    ensures var f := Record(|archives|, a.generation, a.outcome.reason.value, 1);
            WellFormed(f) && f !in records && ValidRecords(records + [f], archives) &&
            Existing(records + [f], |archives|) == Some(f)
  {
    var f := Record(|archives|, a.generation, a.outcome.reason.value, 1);
    ExistingIsRecord(records, |archives|);
    ReasonsByNumber(archives, a.generation);
    assert Readable(archives[a.generation].outcome);
    hide ValidReason, AbortReasons, Grown;
    assert Consistent(f, archives);
    var more := records + [f];
    assert more[..|records|] == records;
    forall k | 0 <= k < |records|
      ensures records[k].source != f.source && records[k].target != f.target
    {
      assert records[k] in records && records[k].source in Sources(records);
    }
    OneMoreRecord(more, |records|, archives);
    assert more[..|records| + 1] == more;
    ExistingAppended(records, f);
  }

  lemma {:induction false} ExistingAppended(records: seq<Record>, f: Record)
    requires Existing(records, f.target).None?
    ensures Existing(records + [f], f.target) == Some(f)
  {
    if records != [] {
      assert (records + [f])[1..] == records[1..] + [f];
      ExistingAppended(records[1..], f);
    }
  }

  /** Records stay valid as archives are added. */
  lemma GrowKeeps(records: seq<Record>, archives: seq<Archive>, a: Archive)
    requires Contiguous(archives + [a]) && |archives| <= LAST_GENERATION && ValidRecords(records, archives)
    ensures ValidRecords(records, archives + [a])
  {
    var more := archives + [a];
    assert Contiguous(archives) by {
      assert forall i :: 0 <= i < |archives| ==> more[i] == archives[i];
    }
    forall i | 0 <= i < |records|
      ensures Consistent(records[i], more)
    {
      var r := records[i];
      assert Consistent(r, archives);
      ReasonsByNumber(archives, r.source);
      ReasonsByNumber(more, r.source);
      hide AbortReasons, ValidReason;
      assert archives[|archives| - 1].generation == |archives| - 1;
      assert more[|more| - 1].generation == |more| - 1;
    }
  }
}
