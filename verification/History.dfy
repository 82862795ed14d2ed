/** Archived generations of a run and the ancestry rules they must satisfy. */
module History {
  import opened Bytes
  import Utf8

  const LAST_GENERATION: nat := 0xFFFF_FFFF_FFFF_FFFF
  const MAX_ABORT_REASON_BYTES := 8 * 1024
  const MAX_HANDOFF_BYTES := 16 * 1024

  type Text = seq<Byte>

  datatype Transition = Initial | Successor | Rollback

  datatype Outcome = Completed(handoff: Text, snapshot: seq<Byte>) | Aborted(reason: Option<Text>)

  datatype Archive = Archive(generation: nat, parent: Option<nat>, transition: Transition, outcome: Outcome)

  /** The scalars Go's `unicode.IsSpace` accepts. */
  predicate IsSpace(c: Utf8.Scalar) {
    0x09 <= c <= 0x0D || c == 0x20 || c == 0x85 || c == 0xA0 || c == 0x1680 || 0x2000 <= c <= 0x200A || c == 0x2028 ||
    c == 0x2029 || c == 0x202F || c == 0x205F || c == 0x3000
  }

  /** `ValidateAbortReason`: well-formed text that is not all space and not too long. */
  predicate ValidReason(reason: Text) {
    Utf8.Valid(reason) && (exists i :: 0 <= i < |Utf8.Decode(reason)| && !IsSpace(Utf8.Decode(reason)[i])) &&
    |reason| <= MAX_ABORT_REASON_BYTES
  }

  method ValidateAbortReason(reason: Text) returns (ok: bool)
    ensures ok == ValidReason(reason)
  {
    var valid := Utf8.Scan(reason);
    if !valid {
      return false;
    }
    var scalars := Utf8.Decode(reason);
    var kept := false;
    for i := 0 to |scalars|
      invariant kept <==> exists k :: 0 <= k < i && !IsSpace(scalars[k])
    {
      if !IsSpace(scalars[i]) {
        kept := true;
      }
    }
    return kept && |reason| <= MAX_ABORT_REASON_BYTES;
  }

  /** The texts of an archive that `readArchivedGeneration` takes; an accepted handoff is such a text. */
  predicate Readable(outcome: Outcome) {
    match outcome
    case Completed(handoff, _) => ValidHandoff(handoff)
    case Aborted(reason) => reason.Some? ==> ValidReason(reason.value)
  }

  predicate ValidHandoff(handoff: Text) {
    |handoff| <= MAX_HANDOFF_BYTES && Utf8.Valid(handoff)
  }

  /** `LoadArchivedGenerations` goes ahead. */
  predicate AllReadable(archives: seq<Archive>) {
    forall i :: 0 <= i < |archives| ==> Readable(archives[i].outcome)
  }

  method LoadArchives(archives: seq<Archive>) returns (ok: bool)
    ensures ok == AllReadable(archives)
  {
    hide ValidReason;
    for i := 0 to |archives|
      invariant forall k :: 0 <= k < i ==> Readable(archives[k].outcome)
    {
      match archives[i].outcome {
        case Completed(handoff, _) =>
          ok := |handoff| <= MAX_HANDOFF_BYTES;
          if ok {
            ok := Utf8.Scan(handoff);
          }
        case Aborted(reason) =>
          ok := true;
          if reason.Some? {
            ok := ValidateAbortReason(reason.value);
          }
      }
      if !ok {
        return false;
      }
    }
    return true;
  }

  // ---------------------------------------------------------------- ancestry

  predicate CompletedAt(archives: seq<Archive>, g: nat) {
    g < |archives| && archives[g].outcome.Completed?
  }

  /** `archives` are numbered from zero without a gap. */
  predicate Contiguous(archives: seq<Archive>) {
    forall i :: 0 <= i < |archives| ==> archives[i].generation == i
  }

  predicate SoundParent(archives: seq<Archive>, i: nat)
    requires i < |archives|
  {
    var a := archives[i];
    a.parent.Some? && CompletedAt(archives, a.parent.value) &&
    (a.transition == Successor ==> a.parent.value + 1 == i) &&
    (a.transition == Rollback ==> a.parent.value + 1 != i)
  }

  /** What `ValidateArchivedHistory` accepts. */
  predicate ValidHistory(archives: seq<Archive>) {
    Contiguous(archives) && forall i :: 1 <= i < |archives| ==> SoundParent(archives, i)
  }

  /** What `validateArchiveMetadataInput` accepts. */
  predicate ValidMetadata(generation: nat, parent: Option<nat>, transition: Transition) {
    if generation == 0 then parent.None? && transition == Initial
    else parent.Some? && parent.value < generation && transition != Initial
  }

  /** `ValidateArchivedHistory`. The list has a first element: the code drops it with a slice. */
  method ValidateArchivedHistory(archives: seq<Archive>) returns (ok: bool)
    requires archives != []
    ensures ok == ValidHistory(archives)
  {
    var byGeneration: map<nat, Archive> := map[];
    for i := 0 to |archives|
      invariant forall k :: 0 <= k < i ==> archives[k].generation in byGeneration
      invariant forall g :: g in byGeneration ==> byGeneration[g].generation == g && byGeneration[g] in archives[..i]
    {
      if archives[i].generation in byGeneration {
        assert byGeneration[archives[i].generation] in archives[..i];
        return false;
      }
      byGeneration := byGeneration[archives[i].generation := archives[i]];
    }
    for i := 0 to |archives|
      invariant forall k :: 0 <= k < i ==> archives[k].generation == k
    {
      if archives[i].generation != i {
        return false;
      }
    }
    ByNumber(archives, byGeneration);
    ok := CheckParents(archives, byGeneration);
  }

  lemma ByNumber(archives: seq<Archive>, byGeneration: map<nat, Archive>)
    requires Contiguous(archives)
    requires forall k :: 0 <= k < |archives| ==> archives[k].generation in byGeneration
    requires forall g :: g in byGeneration ==> byGeneration[g].generation == g && byGeneration[g] in archives[..|archives|]
    ensures forall g :: g in byGeneration <==> 0 <= g < |archives|
    ensures forall g :: g in byGeneration ==> byGeneration[g] == archives[g]
  {
    forall g | g in byGeneration
      ensures g < |archives| && byGeneration[g] == archives[g]
    {
      var k :| 0 <= k < |archives| && archives[..|archives|][k] == byGeneration[g];
    }
    forall g | 0 <= g < |archives|
      ensures g in byGeneration
    {
      assert archives[g].generation in byGeneration;
    }
  }

  method CheckParents(archives: seq<Archive>, byGeneration: map<nat, Archive>) returns (ok: bool)
    requires archives != [] && Contiguous(archives)
    requires forall g :: g in byGeneration <==> 0 <= g < |archives|
    requires forall g :: g in byGeneration ==> byGeneration[g] == archives[g]
    ensures ok == ValidHistory(archives)
  {
    var rest := archives[1..];
    for k := 0 to |rest|
      invariant forall i :: 1 <= i <= k ==> SoundParent(archives, i)
    {
      var a := rest[k];
      assert a == archives[k + 1];
      if a.parent.None? {
        assert !SoundParent(archives, k + 1);
        return false;
      }
      if a.parent.value !in byGeneration || !byGeneration[a.parent.value].outcome.Completed? {
        assert !SoundParent(archives, k + 1);
        return false;
      }
      if a.transition == Successor && a.parent.value != a.generation - 1 {
        assert !SoundParent(archives, k + 1);
        return false;
      }
      if a.transition == Rollback && a.parent.value == a.generation - 1 {
        assert !SoundParent(archives, k + 1);
        return false;
      }
    }
    return true;
  }

  // ---------------------------------------------------------------- what a run produces

  /** A generation that may follow the first `n` archives: the first one, or one whose parent completed. */
  predicate Follows(archives: seq<Archive>, n: nat, g: nat, parent: Option<nat>, transition: Transition)
    requires n <= |archives|
  {
    g == n <= LAST_GENERATION &&
    if g == 0 then parent.None? && transition == Initial
    else
      parent.Some? && parent.value < n && archives[parent.value].outcome.Completed? &&
      ((transition == Successor && parent.value + 1 == g) || (transition == Rollback && parent.value + 1 < g))
  }

  predicate Extends(archives: seq<Archive>, g: nat, parent: Option<nat>, transition: Transition) {
    Follows(archives, |archives|, g, parent, transition)
  }


  /** A history grown one archive at a time. */
  ghost predicate Grown(archives: seq<Archive>) {
    forall i :: 0 <= i < |archives| ==>
      Follows(archives, i, archives[i].generation, archives[i].parent, archives[i].transition) &&
      Readable(archives[i].outcome)
  }

  /** The listing with one more archive, kept sorted by number. */
  function Insert(archives: seq<Archive>, a: Archive): seq<Archive> {
    if archives == [] || archives[|archives| - 1].generation < a.generation then archives + [a]
    else Insert(archives[..|archives| - 1], a) + [archives[|archives| - 1]]
  }

  predicate Present(archives: seq<Archive>, g: nat) {
    exists i :: 0 <= i < |archives| && archives[i].generation == g
  }

  lemma GrownContiguous(archives: seq<Archive>)
    requires Grown(archives)
    ensures Contiguous(archives)
  {
  }

  /** A grown history is one the validator accepts, and every parent is earlier. */
  lemma GrownIsValid(archives: seq<Archive>)
    requires Grown(archives)
    ensures ValidHistory(archives) && AllReadable(archives) && AllMetadata(archives)
  {
  }

  lemma GrowOne(archives: seq<Archive>, a: Archive)
    requires Grown(archives) && Extends(archives, a.generation, a.parent, a.transition) && Readable(a.outcome)
    ensures Grown(archives + [a]) && Insert(archives, a) == archives + [a] && !Present(archives, a.generation)
  {
    hide ValidReason;
    var next := archives + [a];
    GrownContiguous(archives);
    forall i | 0 <= i < |next|
      ensures Follows(next, i, next[i].generation, next[i].parent, next[i].transition) && Readable(next[i].outcome)
    {
      if i < |archives| {
        assert Follows(archives, i, archives[i].generation, archives[i].parent, archives[i].transition);
      }
    }
  }

  /** From a generation up through its parents. */
  function Lineage(archives: seq<Archive>, g: nat): seq<nat> {
    if g < |archives| && archives[g].parent.Some? && archives[g].parent.value < g
    then [g] + Lineage(archives, archives[g].parent.value)
    else [g]
  }

  ghost predicate AllMetadata(archives: seq<Archive>) {
    forall i :: 0 <= i < |archives| ==>
      ValidMetadata(archives[i].generation, archives[i].parent, archives[i].transition)
  }

  /** What the validator accepts of archives with well-formed metadata: numbered from zero without a gap, each but the first
      with a completed earlier parent, which is the one before it exactly for a successor. */
  lemma HistoryExactly(archives: seq<Archive>)
    requires AllMetadata(archives)
    ensures ValidHistory(archives) <==>
            forall i :: 0 <= i < |archives| ==>
              archives[i].generation == i &&
              (i > 0 ==>
                archives[i].parent.Some? && archives[i].parent.value < i &&
                archives[archives[i].parent.value].outcome.Completed? &&
                (archives[i].transition == Successor <==> archives[i].parent.value == i - 1))
  {
    if ValidHistory(archives) {
      forall i | 0 <= i < |archives|
        ensures archives[i].generation == i
        ensures i > 0 ==> SoundParent(archives, i) && ValidMetadata(i, archives[i].parent, archives[i].transition)
      {
      }
    }
  }

  /** In every history the validator accepts, a generation descends from generation zero through completed generations
      only. */
  lemma {:induction false} DescendsFromZero(archives: seq<Archive>, g: nat)
    requires ValidHistory(archives) && AllMetadata(archives) && g < |archives|
    ensures var line := Lineage(archives, g);
            line[0] == g && line[|line| - 1] == 0 &&
            (forall i :: 0 < i < |line| ==> CompletedAt(archives, line[i]) && line[i] < line[i - 1])
  {
    assert ValidMetadata(archives[g].generation, archives[g].parent, archives[g].transition);
    if g > 0 {
      assert SoundParent(archives, g);
      var p := archives[g].parent.value;
      DescendsFromZero(archives, p);
      assert Lineage(archives, g) == [g] + Lineage(archives, p);
    }
  }
}
