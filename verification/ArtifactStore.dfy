/** The storage object: its checks and its publication and collection methods, on the files of one run's store. */
module ArtifactStore {
  import opened Bytes
  import opened Artifacts

  /** The checks `manifest` makes on a file it has read. */
  method CheckManifest(m: Manifest, id: JobID) returns (ok: bool)
    ensures ok == WellFormed(m, id)
  {
    if m.id != id || |m.artifacts| != |m.outputs| {
      return false;
    }
    var total, seen: set<string> := 0, {};
    for i := 0 to |m.artifacts|
      invariant total == TotalSize(m.artifacts[..i])
      invariant forall k :: 0 <= k < i ==> m.artifacts[k].name == m.outputs[k] && m.artifacts[k].size <= MAX_OUTPUT
      invariant forall name :: name in seen <==> exists k :: 0 <= k < i && m.outputs[k] == name
      invariant forall j, k :: 0 <= j < k < i ==> m.outputs[j] != m.outputs[k]
    {
      assert m.artifacts[..i + 1][..i] == m.artifacts[..i];
      var a := m.artifacts[i];
      if a.name != m.outputs[i] || a.name in seen || a.size > MAX_OUTPUT {
        return false;
      }
      seen := seen + {a.name};
      total := total + a.size;
    }
    assert m.artifacts[..|m.artifacts|] == m.artifacts;
    return total <= MAX_OUTPUTS;
  }

  /** The generation's references name an artifact with this digest. */
  predicate Authorised(refs: seq<JobRef>, id: Digest) {
    exists i :: 0 <= i < |refs| && Named(refs[i].manifest.artifacts, id).Some?
  }

  /** The first artifact with this digest. */
  function Named(artifacts: seq<Artifact>, id: Digest): (r: Option<Artifact>)
    ensures r.Some? ==> r.value in artifacts && r.value.id == id
    ensures r.None? ==> forall k :: 0 <= k < |artifacts| ==> artifacts[k].id != id
  {
    if artifacts == [] then None
    else if artifacts[0].id == id then Some(artifacts[0])
    else Named(artifacts[1..], id)
  }

  predicate InRange(a: Artifact, offset: nat, length: nat) {
    offset + length <= a.size
  }

  /** The reference at which the search for an artifact ends: the first whose manifest cannot be read or names it. */
  predicate StopsAt(jobs: map<JobID, JobDir>, refs: seq<JobRef>, id: Digest, i: nat) {
    i < |refs| && (!Readable(jobs, refs[i]) || Named(refs[i].manifest.artifacts, id).Some?) &&
    forall j :: 0 <= j < i ==> Readable(jobs, refs[j]) && Named(refs[j].manifest.artifacts, id).None?
  }

  lemma StopsOnce(jobs: map<JobID, JobDir>, refs: seq<JobRef>, id: Digest, i: nat)
    requires StopsAt(jobs, refs, id, i)
    ensures forall k: nat :: StopsAt(jobs, refs, id, k) ==> k == i
  {
    hide Readable;
    forall k: nat | StopsAt(jobs, refs, id, k)
      ensures k == i
    {
      assert !(k < i) && !(i < k);
    }
  }

  /** The job there has the artifact, whole and as its digest says, and the range lies within it. */
  predicate Delivers(jobs: map<JobID, JobDir>, ref: JobRef, id: Digest, offset: nat, length: nat) {
    Readable(jobs, ref) && Named(ref.manifest.artifacts, id).Some? &&
    InRange(Named(ref.manifest.artifacts, id).value, offset, length) &&
    HasContent(jobs[ref.id].files, Named(ref.manifest.artifacts, id).value)
  }

  /** On complete jobs a read succeeds exactly for an authorised artifact and a range within it. */
  lemma CompleteDelivers(jobs: map<JobID, JobDir>, refs: seq<JobRef>, id: Digest, offset: nat, length: nat)
    requires AllComplete(jobs, refs)
    ensures (exists i: nat :: StopsAt(jobs, refs, id, i) && Delivers(jobs, refs[i], id, offset, length)) <==>
            Authorised(refs, id) && offset + length <= |id.content|
  {
    hide WellFormed;
    if Authorised(refs, id) {
      var i := FirstNaming(refs, id);
      assert Complete(jobs, refs[i]);
      assert HasContent(jobs[refs[i].id].files, Named(refs[i].manifest.artifacts, id).value);
      forall j | 0 <= j < i
        ensures Readable(jobs, refs[j])
      {
        assert Complete(jobs, refs[j]);
      }
      assert StopsAt(jobs, refs, id, i);
    }
    forall i: nat | StopsAt(jobs, refs, id, i) && Delivers(jobs, refs[i], id, offset, length)
      ensures Authorised(refs, id) && offset + length <= |id.content|
    {
    }
  }

  ghost function FirstNaming(refs: seq<JobRef>, id: Digest): (i: nat)
    requires Authorised(refs, id)
    ensures i < |refs| && Named(refs[i].manifest.artifacts, id).Some?
    ensures forall j :: 0 <= j < i ==> Named(refs[j].manifest.artifacts, id).None?
  {
    if Named(refs[0].manifest.artifacts, id).Some? then 0
    else
      assert Authorised(refs[1..], id) by {
        var i :| 0 <= i < |refs| && Named(refs[i].manifest.artifacts, id).Some?;
        assert refs[1..][i - 1] == refs[i];
      }
      1 + FirstNaming(refs[1..], id)
  }

  class Storage {
    var jobs: map<JobID, JobDir>
    var index: Option<References>

    constructor (jobs: map<JobID, JobDir>, index: Option<References>)
      ensures this.jobs == jobs && this.index == index
    {
      this.jobs, this.index := jobs, index;
    }

    /** `manifest`: the job's manifest, if it is there, is the one referred to, and checks. */
    method ReadManifest(ref: JobRef) returns (found: bool)
      ensures found == Readable(jobs, ref)
    {
      if ref.id !in jobs || jobs[ref.id].manifest != Some(ref.manifest) {
        return false;
      }
      found := CheckManifest(ref.manifest, ref.id);
    }

    /** `Validate`. */
    method Validate(refs: seq<JobRef>) returns (ok: bool)
      ensures ok == Valid(jobs, refs)
    {
      hide WellFormed, HasContent;
      if |refs| > MAX_JOBS {
        return false;
      }
      var count := 0;
      for i := 0 to |refs|
        invariant count == ArtifactCount(refs[..i])
        invariant forall k :: 0 <= k < i ==> Complete(jobs, refs[k])
      {
        assert refs[..i + 1][..i] == refs[..i];
        var found := ReadManifest(refs[i]);
        if !found {
          assert !Complete(jobs, refs[i]);
          return false;
        }
        var present := ContentsPresent(refs[i]);
        if !present {
          assert !Complete(jobs, refs[i]);
          return false;
        }
        count := count + |refs[i].manifest.artifacts|;
      }
      assert refs[..|refs|] == refs;
      return count <= MAX_ARTIFACTS;
    }

    method ContentsPresent(ref: JobRef) returns (ok: bool)
      requires ref.id in jobs
      ensures ok <==> forall a :: a in ref.manifest.artifacts ==> HasContent(jobs[ref.id].files, a)
    {
      var artifacts := ref.manifest.artifacts;
      for k := 0 to |artifacts|
        invariant forall j :: 0 <= j < k ==> HasContent(jobs[ref.id].files, artifacts[j])
      {
        if !HasContent(jobs[ref.id].files, artifacts[k]) {
          assert artifacts[k] in ref.manifest.artifacts;
          return false;
        }
      }
      return true;
    }

    /** `Read`: on any disk, whatever is returned is authorised, lies within the artifact and is the bytes the digest is
        of; nothing is returned exactly when the range is too long or the job where the search ends does not deliver. */
    method Read(refs: seq<JobRef>, id: Digest, offset: nat, length: nat) returns (bytes: Option<seq<Byte>>)
      ensures bytes.Some? ==>
        Authorised(refs, id) && offset + length <= |id.content| && bytes.value == id.content[offset..offset + length]
      ensures bytes.Some? <==>
        length <= MAX_READ && exists i: nat :: StopsAt(jobs, refs, id, i) && Delivers(jobs, refs[i], id, offset, length)
    {
      hide WellFormed;
      if length > MAX_READ {
        return None;
      }
      for i := 0 to |refs|
        invariant forall j :: 0 <= j < i ==> Readable(jobs, refs[j]) && Named(refs[j].manifest.artifacts, id).None?
      {
        var found := ReadManifest(refs[i]);
        if !found {
          StopsOnce(jobs, refs, id, i);
          return None;
        }
        var artifact := FindArtifact(refs[i].manifest.artifacts, id);
        if artifact.Some? {
          StopsOnce(jobs, refs, id, i);
          var a, files := artifact.value, jobs[refs[i].id].files;
          if offset > a.size || length > a.size - offset || !HasContent(files, a) {
            assert !Delivers(jobs, refs[i], id, offset, length);
            return None;
          }
          return Some(files[id][offset..offset + length]);
        }
      }
      return None;
    }

    /** `Admit`: another job with this many outputs fits among those retained. */
    method Admit(outputs: nat) returns (ok: bool)
      ensures ok == Admits(jobs, outputs)
    {
      hide WellFormed, Slots, Only;
      var keys, count, artifacts := jobs.Keys, 0, outputs;
      ghost var done: set<JobID> := {};
      NoJobs(jobs);
      while keys != {}
        invariant keys == jobs.Keys - done && done <= jobs.Keys
        invariant count == |done| && artifacts == outputs + |Slots(Only(jobs, done))|
        invariant forall id :: id in done ==> HasManifest(jobs, id)
        decreases keys
      {
        var id :| id in keys;
        var found := jobs[id].manifest.Some?;
        if found {
          found := CheckManifest(jobs[id].manifest.value, id);
        }
        if !found {
          assert !HasManifest(jobs, id);
          return false;
        }
        OneMoreJob(jobs, done, id);
        count, artifacts := count + 1, artifacts + |jobs[id].manifest.value.artifacts|;
        keys, done := keys - {id}, done + {id};
      }
      assert done == jobs.Keys;
      return count < MAX_JOBS && artifacts <= MAX_ARTIFACTS;
    }

    /** `Publish`, with the two points at which its caller may have cancelled it. Either the job is complete on disk and
        committed to the index, or the index and every other job are as they were. */
    method Publish(m: Manifest, outputs: seq<Output>, refs: References, cancelledEarly: bool, cancelledLate: bool)
      returns (ok: bool, next: References)
      modifies this
      ensures ok == (Declared(m, outputs) && HasRoom(old(jobs), refs.jobs, |outputs|) && AllMatch(outputs, m.artifacts) &&
                     m.id !in old(jobs) && !cancelledEarly && !cancelledLate)
      ensures ok ==> next == References(refs.generation, refs.jobs + [JobRef(m.id, m)]) && index == Some(next)
      ensures !ok ==> next == refs && index == old(index)
      ensures if Declared(m, outputs) && HasRoom(old(jobs), refs.jobs, |outputs|) && AllMatch(outputs, m.artifacts) &&
                 m.id !in old(jobs) && !cancelledEarly
              then jobs == old(jobs)[m.id := StageOf(m, outputs)] && Complete(jobs, JobRef(m.id, m))
              else jobs == old(jobs)
    {
      hide Admits, ArtifactCount, TotalData, WellFormed, HasContent;
      if !Declared(m, outputs) {
        return false, refs;
      }
      var room := RoomFor(refs.jobs, |outputs|);
      if !room {
        return false, refs;
      }
      var matched, stage := Stage(m, outputs);
      if !matched || m.id in jobs || cancelledEarly {
        return false, refs;
      }
      jobs := jobs[m.id := stage];
      if cancelledLate {
        return false, refs;
      }
      next := References(refs.generation, refs.jobs + [JobRef(m.id, m)]);
      index := Some(next);
      return true, next;
    }

    method RoomFor(refs: seq<JobRef>, outputs: nat) returns (ok: bool)
      ensures ok == HasRoom(jobs, refs, outputs)
    {
      hide Admits, WellFormed;
      ok := Admit(outputs);
      if !ok || |refs| >= MAX_JOBS {
        return false;
      }
      var count := outputs;
      for i := 0 to |refs|
        invariant count == outputs + ArtifactCount(refs[..i])
        invariant forall k :: 0 <= k < i ==> Readable(jobs, refs[k])
      {
        assert refs[..i + 1][..i] == refs[..i];
        var found := ReadManifest(refs[i]);
        if !found {
          return false;
        }
        count := count + |refs[i].manifest.artifacts|;
      }
      assert refs[..|refs|] == refs;
      return count <= MAX_ARTIFACTS;
    }

    /** The stage: each distinct output once, then the manifest. */
    method Stage(m: Manifest, outputs: seq<Output>) returns (ok: bool, stage: JobDir)
      requires Declared(m, outputs)
      ensures ok == AllMatch(outputs, m.artifacts)
      ensures ok ==> stage == StageOf(m, outputs) && stage.manifest == Some(m) && WellFormed(m, m.id) &&
                     forall a :: a in m.artifacts ==> HasContent(stage.files, a)
    {
      hide TotalData, TotalSize;
      stage := JobDir(None, map[]);
      ghost var op := Staging(m, outputs, 0, stage);
      for i := 0 to |outputs|
        invariant op == Staging(m, outputs, i, stage) && StageInv(op) && stage == Stages(outputs, i)
      {
        if !Matches(outputs[i], m.artifacts[i]) {
          return false, stage;
        }
        OutputStaged(op);
        stage := Staged1(stage, outputs[i]);
        op := Staging(m, outputs, i + 1, stage);
      }
      ManifestStaged(op);
      return true, stage.(manifest := Some(m));
    }

    /** `GarbageCollect`: refused if an archive does not check; otherwise what remains is exactly what the archives and the
        inherited file name. */
    method GarbageCollect(archives: map<nat, References>, inherited: seq<JobRef>) returns (ok: bool, removed: nat)
      modifies this
      ensures ok == forall g :: g in archives ==> Valid(old(jobs), archives[g].jobs)
      ensures !ok ==> jobs == old(jobs) && index == old(index)
      ensures ok ==> jobs == Only(old(jobs), Kept(archives, inherited)) && removed == |old(jobs)| - |jobs|
      ensures ok ==> index == if old(index).Some?
                              then Some(old(index).value.(jobs := Filtered(old(index).value.jobs, Kept(archives, inherited))))
                              else None
    {
      hide Valid, Filtered, Kept;
      var keep: set<JobID>;
      ok, keep := KeepArchived(archives);
      if !ok {
        return false, 0;
      }
      for i := 0 to |inherited|
        invariant jobs == old(jobs) && index == old(index) && keep == Kept(archives, inherited[..i])
      {
        KeptMore(archives, inherited, i);
        keep := keep + {inherited[i].id};
      }
      assert inherited[..|inherited|] == inherited;
      if index.Some? {
        var filtered := FilterReferences(index.value.jobs, keep);
        index := Some(index.value.(jobs := filtered));
      }
      removed := DeleteOthers(keep);
    }

    method KeepArchived(archives: map<nat, References>) returns (ok: bool, keep: set<JobID>)
      ensures ok == forall g :: g in archives ==> Valid(jobs, archives[g].jobs)
      ensures ok ==> keep == Kept(archives, [])
    {
      hide Valid;
      keep := {};
      var keys, done: set<nat> := archives.Keys, {};
      while keys != {}
        invariant done + keys == archives.Keys && done !! keys
        invariant forall g :: g in done ==> Valid(jobs, archives[g].jobs)
        invariant keep == set g, r | g in done && r in archives[g].jobs :: r.id
        decreases keys
      {
        var g :| g in keys;
        var valid := Validate(archives[g].jobs);
        if !valid {
          return false, {};
        }
        keep := keep + set r | r in archives[g].jobs :: r.id;
        keys, done := keys - {g}, done + {g};
      }
      assert done == archives.Keys;
      return true, keep;
    }

    /** The removal loop over the directory. */
    method DeleteOthers(keep: set<JobID>) returns (removed: nat)
      modifies this`jobs
      ensures jobs == Only(old(jobs), keep) && removed == |old(jobs)| - |jobs|
    {
      ghost var before := jobs;
      var keys := jobs.Keys;
      removed := 0;
      while keys != {}
        invariant keys <= before.Keys && jobs.Keys <= before.Keys
        invariant forall id :: id in jobs <==> id in before && (id in keys || id in keep)
        invariant forall id :: id in jobs ==> jobs[id] == before[id]
        invariant removed + |jobs| == |before|
        decreases keys
      {
        var id :| id in keys;
        if id !in keep {
          JobDeleted(jobs, id);
          jobs := jobs - {id};
          removed := removed + 1;
        }
        keys := keys - {id};
      }
    }
  }

  method FindArtifact(artifacts: seq<Artifact>, id: Digest) returns (r: Option<Artifact>)
    ensures r == Named(artifacts, id)
  {
    for k := 0 to |artifacts|
      invariant Named(artifacts, id) == Named(artifacts[k..], id)
    {
      assert artifacts[k..][1..] == artifacts[k + 1..];
      if artifacts[k].id == id {
        return Some(artifacts[k]);
      }
    }
    return None;
  }

  /** The stage after the first `n` outputs have been written. */
  function Stages(outputs: seq<Output>, n: nat): JobDir
    requires n <= |outputs|
  {
    if n == 0 then JobDir(None, map[]) else Staged1(Stages(outputs, n - 1), outputs[n - 1])
  }

  /** The whole stage. */
  function StageOf(m: Manifest, outputs: seq<Output>): JobDir {
    Stages(outputs, |outputs|).(manifest := Some(m))
  }

  method FilterReferences(refs: seq<JobRef>, keep: set<JobID>) returns (filtered: seq<JobRef>)
    ensures filtered == Filtered(refs, keep)
  {
    filtered := [];
    for i := 0 to |refs|
      invariant filtered == Filtered(refs[..i], keep)
    {
      assert refs[..i + 1][..i] == refs[..i];
      if refs[i].id in keep {
        filtered := filtered + [refs[i]];
      }
    }
    assert refs[..|refs|] == refs;
  }

  predicate AllMatch(outputs: seq<Output>, artifacts: seq<Artifact>) {
    |outputs| == |artifacts| && forall i :: 0 <= i < |outputs| ==> Matches(outputs[i], artifacts[i])
  }

  lemma KeptMore(archives: map<nat, References>, inherited: seq<JobRef>, i: nat)
    requires i < |inherited|
    ensures Kept(archives, inherited[..i + 1]) == Kept(archives, inherited[..i]) + {inherited[i].id}
  {
    assert inherited[..i + 1] == inherited[..i] + [inherited[i]];
  }

  lemma NoJobs(jobs: map<JobID, JobDir>)
    ensures Slots(Only(jobs, {})) == {} && Only(jobs, jobs.Keys) == jobs
  {
  }

  function Only(jobs: map<JobID, JobDir>, ids: set<JobID>): map<JobID, JobDir> {
    map id | id in jobs && id in ids :: jobs[id]
  }

  lemma OneMoreJob(jobs: map<JobID, JobDir>, done: set<JobID>, id: JobID)
    requires id in jobs && id !in done && jobs[id].manifest.Some?
    ensures |Slots(Only(jobs, done + {id}))| == |Slots(Only(jobs, done))| + |jobs[id].manifest.value.artifacts|
  {
    assert Only(jobs, done + {id}) == Only(jobs, done)[id := jobs[id]];
    JobAdded(Only(jobs, done), id, jobs[id]);
  }

  // ---------------------------------------------------------------- the methods are runs of the machine

  /** `actions` leads from one state of the machine to the other. */
  ghost predicate Leads(s: Store, actions: seq<Action>, t: Store) {
    Legal(s, actions) && Execute(s, actions) == t
  }

  lemma Nothing(s: Store)
    ensures Leads(s, [], s)
  {
  }

  lemma StepFirst(s: Store, a: Action, actions: seq<Action>, t: Store)
    requires Enabled(s, a) && Leads(Apply(s, a), actions, t)
    ensures Leads(s, [a] + actions, t)
  {
    hide Enabled, Apply;
    assert ([a] + actions)[1..] == actions;
  }

  /** The state once a job has been staged and renamed, and, if it was not cancelled, committed. */
  ghost function Published(s: Store, m: Manifest, outputs: seq<Output>, committed: bool): Store
    requires s.life.Serving?
  {
    var renamed := s.(jobs := s.jobs[m.id := StageOf(m, outputs)]);
    if !committed then renamed
    else
      var next := References(s.life.refs.generation, s.life.refs.jobs + [JobRef(m.id, m)]);
      renamed.(index := Some(next), life := s.life.(refs := next, published := s.life.published + [JobRef(m.id, m)]))
  }

  /** Publishing a job is a run of the machine, whether it is committed or cancelled after the rename, so it keeps what
      every step keeps. */
  lemma PublishIsSteps(s: Store, m: Manifest, outputs: seq<Output>, committed: bool) returns (actions: seq<Action>)
    requires Inv(s) && s.op.Idle? && Publishable(s, m, outputs) && AllMatch(outputs, m.artifacts) && m.id !in s.jobs
    ensures Leads(s, actions, Published(s, m, outputs, committed)) && Inv(Published(s, m, outputs, committed))
  {
    assert s.life.Serving?;
    hide Inv, Publishable, StageOf, Leads, Stages, AllMatch;
    var end := Published(s, m, outputs, committed);
    actions := Finishing(s, m, outputs, committed);
    var staged := s.(op := Staged(m, StageOf(m, outputs)));
    var filled := s.(op := Staging(m, outputs, |outputs|, Stages(outputs, |outputs|)));
    assert Apply(filled, WriteManifest) == staged by { ManifestLast(s, m, outputs); }
    StepFirst(filled, WriteManifest, actions, end);
    actions := [WriteManifest] + actions;
    actions := Filling(s, m, outputs, 0, actions, end);
    EmptyStage(outputs);
    StepFirst(s, BeginPublish(m, outputs), actions, end);
    actions := [BeginPublish(m, outputs)] + actions;
    LeadsKeeps(s, actions, end);
  }

  lemma LeadsKeeps(s: Store, actions: seq<Action>, t: Store)
    requires Inv(s) && Leads(s, actions, t)
    ensures Inv(t)
  {
    hide Inv;
    RunKeeps(s, actions);
  }

  lemma EmptyStage(outputs: seq<Output>)
    ensures Stages(outputs, 0) == JobDir(None, map[])
  {
  }

  lemma ManifestLast(s: Store, m: Manifest, outputs: seq<Output>)
    ensures Apply(s.(op := Staging(m, outputs, |outputs|, Stages(outputs, |outputs|))), WriteManifest) ==
            s.(op := Staged(m, StageOf(m, outputs)))
  {
    hide Stages;
  }

  /** From the stage with `n` outputs written, the rest are written one by one. */
  lemma Filling(s: Store, m: Manifest, outputs: seq<Output>, n: nat, rest: seq<Action>, end: Store)
    returns (actions: seq<Action>)
    requires n <= |outputs| && AllMatch(outputs, m.artifacts)
    requires Leads(s.(op := Staging(m, outputs, |outputs|, Stages(outputs, |outputs|))), rest, end)
    ensures Leads(s.(op := Staging(m, outputs, n, Stages(outputs, n))), actions, end)
    decreases |outputs| - n
  {
    hide Leads;
    if n == |outputs| {
      return rest;
    }
    actions := Filling(s, m, outputs, n + 1, rest, end);
    var now := s.(op := Staging(m, outputs, n, Stages(outputs, n)));
    StepFirst(now, WriteOutput, actions, end);
    actions := [WriteOutput] + actions;
  }

  /** From the whole stage: rename, and then commit and update the service, or give up. */
  lemma Finishing(s: Store, m: Manifest, outputs: seq<Output>, committed: bool) returns (actions: seq<Action>)
    requires s.op.Idle? && s.life.Serving? && m.id !in s.jobs
    ensures Leads(s.(op := Staged(m, StageOf(m, outputs))), actions, Published(s, m, outputs, committed))
  {
    hide Leads, StageOf;
    var end := Published(s, m, outputs, committed);
    var staged := s.(op := Staged(m, StageOf(m, outputs)));
    var renamed := Apply(staged, Rename);
    Nothing(end);
    if committed {
      var indexed := Apply(renamed, CommitIndex);
      assert indexed.op.next.jobs[|s.life.refs.jobs|] == JobRef(m.id, m);
      StepFirst(indexed, UpdateMemory, [], end);
      StepFirst(renamed, CommitIndex, [UpdateMemory] + [], end);
      actions := [CommitIndex] + ([UpdateMemory] + []);
    } else {
      StepFirst(renamed, PublishFailed, [], end);
      actions := [PublishFailed] + [];
    }
    StepFirst(staged, Rename, actions, end);
    actions := [Rename] + actions;
  }

  /** The state after garbage has been collected. */
  ghost function Collected(s: Store): Store {
    var keep := Kept(s.archives, s.inherited);
    s.(stages := [], jobs := Only(s.jobs, keep),
       index := if s.index.Some? then Some(s.index.value.(jobs := Filtered(s.index.value.jobs, keep))) else None)
  }

  /** Collecting garbage at a gate is a run of the machine, so it keeps what every step keeps. */
  lemma CollectIsSteps(s: Store) returns (actions: seq<Action>)
    requires Inv(s) && s.life.Gate? && s.op.Idle?
    ensures Leads(s, actions, Collected(s)) && Inv(Collected(s))
  {
    Collectable(s);
    hide Inv, Kept, Filtered, Leads, Only, Valid;
    var begun := Apply(s, BeginCollect);
    var filtered := Apply(begun, FilterIndex);
    var end := Collected(s);
    actions := Deletions(filtered, end);
    StepFirst(begun, FilterIndex, actions, end);
    actions := [FilterIndex] + actions;
    StepFirst(s, BeginCollect, actions, end);
    actions := [BeginCollect] + actions;
    LeadsKeeps(s, actions, end);
  }

  lemma Collectable(s: Store)
    requires Inv(s) && s.life.Gate? && s.op.Idle?
    ensures Enabled(s, BeginCollect)
  {
    hide AllComplete, Slots, ArtifactCount, Kept;
  }

  /** The jobs that are not kept are removed one by one. */
  lemma {:induction false} Deletions(s: Store, end: Store) returns (actions: seq<Action>)
    requires s.op.Deleting? && end == s.(jobs := Only(s.jobs, s.op.keep), op := Idle)
    ensures Leads(s, actions, end)
    decreases |s.jobs|
  {
    hide Leads;
    if id :| id in s.jobs && id !in s.op.keep {
      var next := Apply(s, Delete(id));
      JobDeleted(s.jobs, id);
      assert Only(next.jobs, s.op.keep) == Only(s.jobs, s.op.keep);
      actions := Deletions(next, end);
      StepFirst(s, Delete(id), actions, end);
      actions := [Delete(id)] + actions;
    } else {
      assert Only(s.jobs, s.op.keep) == s.jobs;
      Nothing(end);
      StepFirst(s, FinishCollect, [], end);
      actions := [FinishCollect] + [];
    }
  }
}
