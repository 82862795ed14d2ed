/** The store of bootstrap artifacts as a machine: publication by stage, rename and index commit, freezing at the end of a
    generation, garbage collection at the gate, recovery, and a crash between any two steps. */
module Artifacts {
  import opened Bytes

  const MAX_JOBS := 64
  const MAX_ARTIFACTS := 256
  const MAX_OUTPUT := 0x100_0000
  const MAX_OUTPUTS := 0x200_0000
  const MAX_READ := 0x10_0000

  type JobID = nat

  /** A digest without collisions. */
  datatype Digest = Digest(content: seq<Byte>)

  datatype Artifact = Artifact(id: Digest, name: string, size: nat)

  /** A job's manifest; `outputs` are the names its request declared. */
  datatype Manifest = Manifest(id: JobID, outputs: seq<string>, artifacts: seq<Artifact>)

  /** A reference holds the digest of the manifest; without collisions that is the manifest. */
  datatype JobRef = JobRef(id: JobID, manifest: Manifest)

  datatype References = References(generation: nat, jobs: seq<JobRef>)

  /** A job directory: its manifest file and its content files, named by digest. */
  datatype JobDir = JobDir(manifest: Option<Manifest>, files: map<Digest, seq<Byte>>)

  datatype Output = Output(path: string, data: seq<Byte>)

  // ---------------------------------------------------------------- what is on disk

  function TotalSize(artifacts: seq<Artifact>): nat {
    if artifacts == [] then 0 else TotalSize(artifacts[..|artifacts| - 1]) + artifacts[|artifacts| - 1].size
  }

  function TotalData(outputs: seq<Output>): nat {
    if outputs == [] then 0 else TotalData(outputs[..|outputs| - 1]) + |outputs[|outputs| - 1].data|
  }

  predicate DistinctNames(names: seq<string>) {
    forall i, j :: 0 <= i < j < |names| ==> names[i] != names[j]
  }

  /** What `manifest` checks of the file it has read. */
  predicate WellFormed(m: Manifest, id: JobID) {
    m.id == id && |m.artifacts| == |m.outputs| && DistinctNames(m.outputs) && TotalSize(m.artifacts) <= MAX_OUTPUTS &&
    forall i :: 0 <= i < |m.artifacts| ==> m.artifacts[i].name == m.outputs[i] && m.artifacts[i].size <= MAX_OUTPUT
  }

  predicate HasContent(files: map<Digest, seq<Byte>>, a: Artifact) {
    a.id in files && Digest(files[a.id]) == a.id && |files[a.id]| == a.size
  }

  /** The job is on disk with its manifest and every artifact. */
  predicate Complete(jobs: map<JobID, JobDir>, ref: JobRef) {
    ref.id in jobs && jobs[ref.id].manifest == Some(ref.manifest) && WellFormed(ref.manifest, ref.id) &&
    forall a :: a in ref.manifest.artifacts ==> HasContent(jobs[ref.id].files, a)
  }

  predicate AllComplete(jobs: map<JobID, JobDir>, refs: seq<JobRef>) {
    forall i :: 0 <= i < |refs| ==> Complete(jobs, refs[i])
  }

  function ArtifactCount(refs: seq<JobRef>): nat {
    if refs == [] then 0
    else ArtifactCount(refs[..|refs| - 1]) + |refs[|refs| - 1].manifest.artifacts|
  }

  /** One slot per retained artifact. */
  function Slots(jobs: map<JobID, JobDir>): set<(JobID, nat)> {
    set id, k | id in jobs && jobs[id].manifest.Some? && 0 <= k < |jobs[id].manifest.value.artifacts| :: (id, k)
  }

  predicate HasManifest(jobs: map<JobID, JobDir>, id: JobID) {
    id in jobs && jobs[id].manifest.Some? && WellFormed(jobs[id].manifest.value, id)
  }

  /** What `Admit` requires of the retained jobs before another may be made. */
  predicate Admits(jobs: map<JobID, JobDir>, outputs: nat) {
    (forall id :: id in jobs ==> HasManifest(jobs, id)) &&
    |jobs| < MAX_JOBS && |Slots(jobs)| + outputs <= MAX_ARTIFACTS
  }

  /** What `Validate` accepts. */
  predicate Valid(jobs: map<JobID, JobDir>, refs: seq<JobRef>) {
    |refs| <= MAX_JOBS && AllComplete(jobs, refs) && ArtifactCount(refs) <= MAX_ARTIFACTS
  }

  // ---------------------------------------------------------------- the machine

  datatype Life =
    | Gate
    | Serving(refs: References, parent: Option<nat>, published: seq<JobRef>)
    | Closing(generation: nat, parent: Option<nat>, published: seq<JobRef>)

  datatype Operation =
    | Idle
    | Staging(manifest: Manifest, outputs: seq<Output>, written: nat, stage: JobDir)
    | Staged(manifest: Manifest, stage: JobDir)
    | Renamed(manifest: Manifest)
    | Committed(next: References)
    | Collecting(keep: set<JobID>)
    | Deleting(keep: set<JobID>)

  /** How a generation came by its references. */
  datatype Origin = Origin(parent: Option<nat>, published: seq<JobRef>)

  datatype Store = Store(
    jobs: map<JobID, JobDir>,
    stages: seq<JobDir>,
    index: Option<References>,
    archives: map<nat, References>,
    inherited: seq<JobRef>,
    life: Life,
    op: Operation,
    origins: map<nat, Origin>)

  datatype Action =
    | NewService(generation: nat, parent: Option<nat>)
    | BeginPublish(manifest: Manifest, outputs: seq<Output>)
    | WriteOutput
    | WriteManifest
    | Rename
    | CommitIndex
    | UpdateMemory
    | PublishFailed
    | EndService
    | Freeze
    | Abandon
    | BeginCollect
    | FilterIndex
    | Erode(id: JobID, left: JobDir)
    | Delete(id: JobID)
    | FinishCollect
    | Recover
    | Crash

  /** The jobs a generation starts from: its parent's, or for the first one those the run inherited. */
  function Base(archives: map<nat, References>, inherited: seq<JobRef>, generation: nat, parent: Option<nat>): seq<JobRef> {
    if parent.Some? then if parent.value in archives then archives[parent.value].jobs else []
    else if generation == 0 then inherited
    else []
  }

  /** The manifest is on disk, is the one referred to, and checks. */
  predicate Readable(jobs: map<JobID, JobDir>, ref: JobRef) {
    ref.id in jobs && jobs[ref.id].manifest == Some(ref.manifest) && WellFormed(ref.manifest, ref.id)
  }

  /** The outputs are those the request declared, within the limits. */
  predicate Declared(m: Manifest, outputs: seq<Output>) {
    DistinctNames(m.outputs) && |outputs| == |m.outputs| == |m.artifacts| &&
    (forall i :: 0 <= i < |outputs| ==> outputs[i].path == m.outputs[i] && |outputs[i].data| <= MAX_OUTPUT) &&
    TotalData(outputs) <= MAX_OUTPUTS
  }

  /** There is room for the job among those retained and those referred to. */
  predicate HasRoom(jobs: map<JobID, JobDir>, refs: seq<JobRef>, outputs: nat) {
    Admits(jobs, outputs) && |refs| < MAX_JOBS && (forall i :: 0 <= i < |refs| ==> Readable(jobs, refs[i])) &&
    outputs + ArtifactCount(refs) <= MAX_ARTIFACTS
  }

  /** The checks `Publish` makes before it stages anything. */
  predicate Publishable(s: Store, m: Manifest, outputs: seq<Output>) {
    s.life.Serving? && Declared(m, outputs) && HasRoom(s.jobs, s.life.refs.jobs, |outputs|)
  }

  predicate Matches(o: Output, a: Artifact) {
    o.path == a.name && Digest(o.data) == a.id && |o.data| == a.size
  }

  function Staged1(stage: JobDir, o: Output): JobDir {
    if Digest(o.data) in stage.files then stage else stage.(files := stage.files[Digest(o.data) := o.data])
  }

  /** Every job an archive or the inherited file names. */
  function Kept(archives: map<nat, References>, inherited: seq<JobRef>): set<JobID> {
    (set g, r | g in archives && r in archives[g].jobs :: r.id) + (set r | r in inherited :: r.id)
  }

  function Filtered(refs: seq<JobRef>, keep: set<JobID>): seq<JobRef> {
    if refs == [] then []
    else
      var rest := Filtered(refs[..|refs| - 1], keep);
      if refs[|refs| - 1].id in keep then rest + [refs[|refs| - 1]] else rest
  }

  /** `left` is what an unfinished removal may leave of `dir`. */
  predicate Erodes(dir: JobDir, left: JobDir) {
    (left.manifest == dir.manifest || left.manifest.None?) &&
    forall d :: d in left.files ==> d in dir.files && left.files[d] == dir.files[d]
  }

  predicate Enabled(s: Store, a: Action) {
    match a
    case NewService(g, parent) =>
      s.life.Gate? && s.op.Idle? && (parent.Some? ==> parent.value in s.archives) &&
      Valid(s.jobs, Base(s.archives, s.inherited, g, parent))
    case BeginPublish(m, outputs) => s.op.Idle? && Publishable(s, m, outputs)
    case WriteOutput => s.op.Staging? && s.op.written < |s.op.outputs| && s.op.written < |s.op.manifest.artifacts| &&
                        Matches(s.op.outputs[s.op.written], s.op.manifest.artifacts[s.op.written])
    case WriteManifest => s.op.Staging? && s.op.written == |s.op.outputs|
    case Rename => s.op.Staged? && s.op.manifest.id !in s.jobs
    case CommitIndex => s.op.Renamed? && s.life.Serving?
    case UpdateMemory => s.op.Committed? && s.life.Serving? && s.op.next.jobs != []
    case PublishFailed => s.op.Staging? || s.op.Staged? || s.op.Renamed?
    case EndService => s.life.Serving? && s.op.Idle?
    case Freeze =>
      s.life.Closing? && s.op.Idle? && s.life.generation !in s.archives &&
      (s.index.Some? ==> s.index.value.generation == s.life.generation && Valid(s.jobs, s.index.value.jobs))
    case Abandon => s.life.Closing? && s.op.Idle?
    case BeginCollect => s.life.Gate? && s.op.Idle? && forall g :: g in s.archives ==> Valid(s.jobs, s.archives[g].jobs)
    case FilterIndex => s.op.Collecting?
    case Erode(id, left) => s.op.Deleting? && id in s.jobs && id !in s.op.keep && Erodes(s.jobs[id], left)
    case Delete(id) => s.op.Deleting? && id in s.jobs && id !in s.op.keep
    case FinishCollect => s.op.Deleting?
    case Recover => s.op.Idle?
    case Crash => true
  }

  function NextReferences(s: Store): References
    requires s.life.Serving? && s.op.Renamed?
  {
    References(s.life.refs.generation, s.life.refs.jobs + [JobRef(s.op.manifest.id, s.op.manifest)])
  }

  function StartStep(s: Store, g: nat, parent: Option<nat>): Store {
    var refs := References(g, Base(s.archives, s.inherited, g, parent));
    s.(index := Some(refs), life := Serving(refs, parent, []))
  }

  function FreezeStep(s: Store): Store
    requires s.life.Closing?
  {
    var Closing(g, parent, published) := s.life;
    var refs := if s.index.Some? then s.index.value else References(g, []);
    s.(archives := s.archives[g := refs], origins := s.origins[g := Origin(parent, published)], life := Gate)
  }

  /** Stages that an operation in progress leaves behind. */
  function Abandoned(op: Operation): seq<JobDir> {
    match op
    case Staging(_, _, _, stage) => [stage]
    case Staged(_, stage) => [stage]
    case _ => []
  }

  function Apply(s: Store, a: Action): Store
    requires Enabled(s, a)
  {
    match a
    case NewService(g, parent) => StartStep(s, g, parent)
    case BeginPublish(m, outputs) => s.(op := Staging(m, outputs, 0, JobDir(None, map[])))
    case WriteOutput =>
      s.(op := s.op.(written := s.op.written + 1, stage := Staged1(s.op.stage, s.op.outputs[s.op.written])))
    case WriteManifest => s.(op := Staged(s.op.manifest, s.op.stage.(manifest := Some(s.op.manifest))))
    case Rename => s.(jobs := s.jobs[s.op.manifest.id := s.op.stage], op := Renamed(s.op.manifest))
    case CommitIndex => s.(index := Some(NextReferences(s)), op := Committed(NextReferences(s)))
    case UpdateMemory =>
      s.(life := s.life.(refs := s.op.next, published := s.life.published + [s.op.next.jobs[|s.op.next.jobs| - 1]]),
         op := Idle)
    case PublishFailed => s.(op := Idle)
    case EndService => s.(life := Closing(s.life.refs.generation, s.life.parent, s.life.published))
    case Freeze => FreezeStep(s)
    case Abandon => s.(life := Gate)
    case BeginCollect => s.(stages := [], op := Collecting(Kept(s.archives, s.inherited)))
    case FilterIndex =>
      s.(index := if s.index.Some? then Some(s.index.value.(jobs := Filtered(s.index.value.jobs, s.op.keep))) else None,
         op := Deleting(s.op.keep))
    case Erode(id, left) => s.(jobs := s.jobs[id := left])
    case Delete(id) => s.(jobs := s.jobs - {id})
    case FinishCollect => s.(op := Idle)
    case Recover => s.(stages := [])
    case Crash => s.(stages := s.stages + Abandoned(s.op), op := Idle, life := Gate)
  }

  // ---------------------------------------------------------------- what every step keeps

  /** Everything that names jobs, on disk or in the running service, names complete ones. */
  ghost predicate NamedInv(s: Store) {
    (s.index.Some? ==> AllComplete(s.jobs, s.index.value.jobs)) &&
    (forall g :: g in s.archives ==> AllComplete(s.jobs, s.archives[g].jobs)) &&
    AllComplete(s.jobs, s.inherited) &&
    (s.life.Serving? ==> AllComplete(s.jobs, s.life.refs.jobs)) &&
    (s.op.Committed? ==> AllComplete(s.jobs, s.op.next.jobs)) &&
    (s.op.Renamed? ==> Complete(s.jobs, JobRef(s.op.manifest.id, s.op.manifest)))
  }

  /** Space for what is being published was there when it was admitted, and still is. */
  ghost predicate QuotaInv(s: Store) {
    |s.jobs| <= MAX_JOBS && |Slots(s.jobs)| <= MAX_ARTIFACTS &&
    (s.op.Staging? || s.op.Staged? ==> |s.jobs| < MAX_JOBS && |Slots(s.jobs)| + |s.op.manifest.artifacts| <= MAX_ARTIFACTS)
  }

  /** What has been staged so far is what the manifest will say. */
  ghost predicate StageInv(op: Operation) {
    match op
    case Staging(m, outputs, written, stage) =>
      DistinctNames(m.outputs) && |outputs| == |m.outputs| == |m.artifacts| && written <= |outputs| && stage.manifest.None? &&
      TotalData(outputs) <= MAX_OUTPUTS &&
      (forall i :: 0 <= i < |outputs| ==> outputs[i].path == m.outputs[i] && |outputs[i].data| <= MAX_OUTPUT) &&
      (forall i :: 0 <= i < written ==> Matches(outputs[i], m.artifacts[i]) && HasContent(stage.files, m.artifacts[i])) &&
      (forall d :: d in stage.files ==> stage.files[d] == d.content)
    case Staged(m, stage) =>
      stage.manifest == Some(m) && WellFormed(m, m.id) &&
      forall a :: a in m.artifacts ==> HasContent(stage.files, a)
    case _ => true
  }

  /** A generation is authorised for exactly the jobs it started from and those it published. */
  ghost predicate LineageInv(s: Store) {
    s.origins.Keys == s.archives.Keys &&
    (forall g :: g in s.archives ==>
      s.archives[g].generation == g &&
      (var o := s.origins[g];
       (o.parent.Some? ==> o.parent.value in s.archives) &&
       s.archives[g].jobs == Base(s.archives, s.inherited, g, o.parent) + o.published)) &&
    (s.life.Serving? ==>
      (s.life.parent.Some? ==> s.life.parent.value in s.archives) &&
      s.life.refs.jobs == Base(s.archives, s.inherited, s.life.refs.generation, s.life.parent) + s.life.published &&
      s.index == Some(if s.op.Committed? then s.op.next else s.life.refs)) &&
    (s.life.Closing? ==>
      (s.life.parent.Some? ==> s.life.parent.value in s.archives) &&
      s.index == Some(References(s.life.generation,
                                 Base(s.archives, s.inherited, s.life.generation, s.life.parent) + s.life.published)))
  }

  /** Which operations go with which part of a generation's life. */
  ghost predicate PhaseInv(s: Store) {
    (s.op.Staging? || s.op.Staged? || s.op.Renamed? || s.op.Committed? ==> s.life.Serving?) &&
    (s.op.Collecting? || s.op.Deleting? ==> s.life.Gate? && s.op.keep == Kept(s.archives, s.inherited)) &&
    (s.op.Deleting? && s.index.Some? ==> forall r :: r in s.index.value.jobs ==> r.id in s.op.keep) &&
    (s.op.Committed? ==>
      s.op.next.generation == s.life.refs.generation && s.op.next.jobs != [] &&
      s.op.next.jobs[..|s.op.next.jobs| - 1] == s.life.refs.jobs)
  }

  predicate Counted(refs: seq<JobRef>) {
    |refs| <= MAX_JOBS && ArtifactCount(refs) <= MAX_ARTIFACTS
  }

  /** No list of references ever outgrows what `Validate` accepts. */
  ghost predicate RoomInv(s: Store) {
    Counted(s.inherited) && (forall g :: g in s.archives ==> Counted(s.archives[g].jobs)) &&
    (s.life.Serving? ==> Counted(s.life.refs.jobs)) &&
    (s.life.Closing? && s.index.Some? ==> Counted(s.index.value.jobs)) &&
    (s.life.Serving? && (s.op.Staging? || s.op.Staged? || s.op.Renamed?) ==>
      |s.life.refs.jobs| < MAX_JOBS && ArtifactCount(s.life.refs.jobs) + |s.op.manifest.artifacts| <= MAX_ARTIFACTS) &&
    (s.op.Committed? ==> Counted(s.op.next.jobs))
  }

  ghost predicate Inv(s: Store) {
    NamedInv(s) && QuotaInv(s) && StageInv(s.op) && LineageInv(s) && PhaseInv(s) && RoomInv(s)
  }

  // ---------------------------------------------------------------- jobs on disk

  /** Jobs with the given numbers are as they were. */
  predicate SameJobs(a: map<JobID, JobDir>, b: map<JobID, JobDir>, refs: seq<JobRef>) {
    forall i :: 0 <= i < |refs| ==> refs[i].id in a ==> refs[i].id in b && b[refs[i].id] == a[refs[i].id]
  }

  lemma StillComplete(a: map<JobID, JobDir>, b: map<JobID, JobDir>, refs: seq<JobRef>)
    requires AllComplete(a, refs) && SameJobs(a, b, refs)
    ensures AllComplete(b, refs)
  {
    hide WellFormed, HasContent;
    forall i | 0 <= i < |refs|
      ensures Complete(b, refs[i])
    {
      assert Complete(a, refs[i]);
    }
  }

  function Row(id: JobID, n: nat): set<(JobID, nat)> {
    set k | 0 <= k < n :: (id, k)
  }

  lemma {:induction false} RowSize(id: JobID, n: nat)
    ensures |Row(id, n)| == n
  {
    if n > 0 {
      RowSize(id, n - 1);
      assert Row(id, n) == Row(id, n - 1) + {(id, n - 1)};
    } else {
      assert Row(id, 0) == {};
    }
  }

  lemma SubsetSize<T>(a: set<T>, b: set<T>)
    requires a <= b
    ensures |a| <= |b|
  {
    assert b == a + (b - a);
  }

  /** A new job takes one slot per artifact. */
  lemma JobAdded(jobs: map<JobID, JobDir>, id: JobID, dir: JobDir)
    requires id !in jobs && dir.manifest.Some?
    ensures |jobs[id := dir]| == |jobs| + 1
    ensures |Slots(jobs[id := dir])| == |Slots(jobs)| + |dir.manifest.value.artifacts|
  {
    var more, n := jobs[id := dir], |dir.manifest.value.artifacts|;
    assert more.Keys == jobs.Keys + {id};
    RowSize(id, n);
    SlotsAdded(jobs, id, dir);
    hide Slots, Row;
  }

  lemma SlotsAdded(jobs: map<JobID, JobDir>, id: JobID, dir: JobDir)
    requires id !in jobs && dir.manifest.Some?
    ensures var row := Row(id, |dir.manifest.value.artifacts|);
            Slots(jobs[id := dir]) == Slots(jobs) + row && Slots(jobs) !! row
  {
  }

  lemma JobEroded(jobs: map<JobID, JobDir>, id: JobID, left: JobDir)
    requires id in jobs && Erodes(jobs[id], left)
    ensures |jobs[id := left]| == |jobs| && |Slots(jobs[id := left])| <= |Slots(jobs)|
  {
    assert jobs[id := left].Keys == jobs.Keys;
    SubsetSize(Slots(jobs[id := left]), Slots(jobs));
  }

  lemma JobDeleted(jobs: map<JobID, JobDir>, id: JobID)
    requires id in jobs
    ensures |jobs - {id}| == |jobs| - 1 && |Slots(jobs - {id})| <= |Slots(jobs)|
  {
    assert (jobs - {id}).Keys == jobs.Keys - {id};
    SubsetSize(Slots(jobs - {id}), Slots(jobs));
  }

  lemma {:induction false} SizesAgree(outputs: seq<Output>, artifacts: seq<Artifact>)
    requires |outputs| == |artifacts| && forall i :: 0 <= i < |outputs| ==> Matches(outputs[i], artifacts[i])
    ensures TotalSize(artifacts) == TotalData(outputs)
  {
    if outputs != [] {
      SizesAgree(outputs[..|outputs| - 1], artifacts[..|artifacts| - 1]);
    }
  }

  lemma CountAppended(refs: seq<JobRef>, ref: JobRef)
    ensures ArtifactCount(refs + [ref]) == ArtifactCount(refs) + |ref.manifest.artifacts|
  {
    assert (refs + [ref])[..|refs|] == refs;
  }

  lemma {:induction false} FilteredKeeps(refs: seq<JobRef>, keep: set<JobID>)
    ensures forall r :: r in Filtered(refs, keep) <==> r in refs && r.id in keep
  {
    if refs != [] {
      FilteredKeeps(refs[..|refs| - 1], keep);
      assert refs == refs[..|refs| - 1] + [refs[|refs| - 1]];
    }
  }

  // ---------------------------------------------------------------- publication

  lemma StartKeeps(s: Store, g: nat, parent: Option<nat>)
    requires Inv(s) && Enabled(s, NewService(g, parent))
    ensures Inv(StartStep(s, g, parent))
  {
    hide Complete, Slots, ArtifactCount, Kept;
  }

  lemma BeginPublishKeeps(s: Store, m: Manifest, outputs: seq<Output>)
    requires Inv(s) && s.op.Idle? && Publishable(s, m, outputs)
    ensures Inv(s.(op := Staging(m, outputs, 0, JobDir(None, map[]))))
  {
    hide AllComplete, Slots, ArtifactCount, Kept, Base, TotalData, Readable;
  }

  lemma WriteOutputKeeps(s: Store)
    requires Inv(s) && Enabled(s, WriteOutput)
    ensures Inv(Apply(s, WriteOutput))
  {
    hide AllComplete, Slots, ArtifactCount, Kept, Base, TotalData, WellFormed;
    var t := Apply(s, WriteOutput);
    OutputStaged(s.op);
    hide StageInv, Matches, DistinctNames;
  }

  lemma OutputStaged(op: Operation)
    requires op.Staging? && StageInv(op) && op.written < |op.outputs|
    requires Matches(op.outputs[op.written], op.manifest.artifacts[op.written])
    ensures StageInv(op.(written := op.written + 1, stage := Staged1(op.stage, op.outputs[op.written])))
  {
    hide TotalData, DistinctNames;
    var stage := Staged1(op.stage, op.outputs[op.written]);
    forall i | 0 <= i <= op.written
      ensures HasContent(stage.files, op.manifest.artifacts[i])
    {
      assert i < op.written ==> HasContent(op.stage.files, op.manifest.artifacts[i]);
    }
  }

  lemma WriteManifestKeeps(s: Store)
    requires Inv(s) && Enabled(s, WriteManifest)
    ensures Inv(Apply(s, WriteManifest))
  {
    hide AllComplete, Slots, ArtifactCount, Kept, Base, TotalData;
    ManifestStaged(s.op);
    hide StageInv, WellFormed, Matches, DistinctNames;
  }

  lemma ManifestStaged(op: Operation)
    requires op.Staging? && StageInv(op) && op.written == |op.outputs|
    ensures StageInv(Staged(op.manifest, op.stage.(manifest := Some(op.manifest))))
  {
    SizesAgree(op.outputs, op.manifest.artifacts);
    hide TotalData, TotalSize, DistinctNames;
  }

  /** The rename puts a complete job in place, or none. */
  lemma RenameKeeps(s: Store)
    requires Inv(s) && Enabled(s, Rename)
    ensures Inv(Apply(s, Rename))
  {
    hide NamedInv, LineageInv, Slots, ArtifactCount, Kept, Base, WellFormed, HasContent;
    var t := s.(jobs := s.jobs[s.op.manifest.id := s.op.stage], op := Renamed(s.op.manifest));
    assert Complete(t.jobs, JobRef(s.op.manifest.id, s.op.manifest));
    hide Complete;
    RenamedNamed(s, t);
    SameLineage(s, t);
    hide StageInv;
    JobAdded(s.jobs, s.op.manifest.id, s.op.stage);
  }

  lemma SameLineage(s: Store, t: Store)
    requires t == s.(jobs := t.jobs, op := t.op) && !s.op.Committed? && !t.op.Committed?
    ensures LineageInv(s) ==> LineageInv(t)
  {
    hide Base;
  }

  lemma RenamedNamed(s: Store, t: Store)
    requires NamedInv(s) && s.op.Staged? && s.op.manifest.id !in s.jobs
    requires t == s.(jobs := s.jobs[s.op.manifest.id := s.op.stage], op := Renamed(s.op.manifest))
    requires Complete(t.jobs, JobRef(s.op.manifest.id, s.op.manifest))
    ensures NamedInv(t)
  {
    hide Complete;
    UntouchedNamed(s, t);
  }

  /** When every named job is left alone, every named job stays complete. */
  lemma UntouchedNamed(s: Store, t: Store)
    requires NamedInv(s) && t.index == s.index && t.archives == s.archives && t.inherited == s.inherited && t.life == s.life
    requires s.index.Some? ==> SameJobs(s.jobs, t.jobs, s.index.value.jobs)
    requires forall g :: g in s.archives ==> SameJobs(s.jobs, t.jobs, s.archives[g].jobs)
    requires SameJobs(s.jobs, t.jobs, s.inherited)
    requires s.life.Serving? ==> SameJobs(s.jobs, t.jobs, s.life.refs.jobs)
    requires !t.op.Committed?
    requires t.op.Renamed? ==> Complete(t.jobs, JobRef(t.op.manifest.id, t.op.manifest))
    ensures NamedInv(t)
  {
    hide AllComplete, SameJobs, Complete;
    if s.index.Some? { StillComplete(s.jobs, t.jobs, s.index.value.jobs); }
    forall g | g in s.archives
      ensures AllComplete(t.jobs, s.archives[g].jobs)
    {
      StillComplete(s.jobs, t.jobs, s.archives[g].jobs);
    }
    StillComplete(s.jobs, t.jobs, s.inherited);
    if s.life.Serving? { StillComplete(s.jobs, t.jobs, s.life.refs.jobs); }
  }

  lemma CommitKeeps(s: Store)
    requires Inv(s) && Enabled(s, CommitIndex)
    ensures Inv(Apply(s, CommitIndex))
  {
    hide Complete, Slots, ArtifactCount, Kept, Base;
    CountAppended(s.life.refs.jobs, JobRef(s.op.manifest.id, s.op.manifest));
    assert NextReferences(s).jobs[..|s.life.refs.jobs|] == s.life.refs.jobs;
  }

  lemma UpdateKeeps(s: Store)
    requires Inv(s) && Enabled(s, UpdateMemory)
    ensures Inv(Apply(s, UpdateMemory))
  {
    hide Complete, Slots, ArtifactCount, Kept, Base;
    var jobs := s.op.next.jobs;
    assert jobs == jobs[..|jobs| - 1] + [jobs[|jobs| - 1]];
    assert Base(s.archives, s.inherited, s.life.refs.generation, s.life.parent) + s.life.published + [jobs[|jobs| - 1]] ==
           Base(s.archives, s.inherited, s.life.refs.generation, s.life.parent) + (s.life.published + [jobs[|jobs| - 1]]);
  }

  lemma QuietKeeps(s: Store, a: Action)
    requires Inv(s) && Enabled(s, a)
    requires a.PublishFailed? || a.EndService? || a.Abandon? || a.FinishCollect? || a.Recover? || a.Crash? || a.BeginCollect?
    ensures Inv(Apply(s, a))
  {
    hide AllComplete, Complete, Slots, ArtifactCount, Kept, Base, Valid;
  }

  // ---------------------------------------------------------------- freezing and collecting

  lemma FreezeKeeps(s: Store)
    requires Inv(s) && Enabled(s, Freeze)
    ensures Inv(FreezeStep(s))
  {
    hide NamedInv, RoomInv, AllComplete, Slots, Kept;
    FreezeLineage(s);
    hide LineageInv;
    FrozenNamed(s, FreezeStep(s));
  }

  lemma FrozenNamed(s: Store, t: Store)
    requires NamedInv(s) && RoomInv(s) && s.life.Closing? && s.op.Idle? && s.index.Some? && t.life.Gate?
    requires t == s.(archives := s.archives[s.life.generation := s.index.value], origins := t.origins, life := t.life)
    ensures NamedInv(t) && RoomInv(t)
  {
    hide AllComplete, ArtifactCount;
  }

  /** The new archive is no older generation's parent, so no older authorisation changes. */
  lemma FreezeLineage(s: Store)
    requires LineageInv(s) && s.life.Closing? && s.life.generation !in s.archives
    ensures LineageInv(FreezeStep(s)) && FreezeStep(s).index == s.index && s.index.Some?
  {
    var t := FreezeStep(s);
    forall g | g in t.archives
      ensures t.origins[g].parent.Some? ==> t.origins[g].parent.value in t.archives
      ensures Base(t.archives, t.inherited, g, t.origins[g].parent) == Base(s.archives, s.inherited, g, t.origins[g].parent)
    {
    }
    hide Base;
  }

  lemma FilterKeeps(s: Store)
    requires Inv(s) && Enabled(s, FilterIndex)
    ensures Inv(Apply(s, FilterIndex))
  {
    hide Complete, Slots, ArtifactCount, Kept, Base;
    if s.index.Some? {
      FilteredKeeps(s.index.value.jobs, s.op.keep);
      hide Filtered;
      forall i | 0 <= i < |Filtered(s.index.value.jobs, s.op.keep)|
        ensures Complete(s.jobs, Filtered(s.index.value.jobs, s.op.keep)[i])
      {
        assert Filtered(s.index.value.jobs, s.op.keep)[i] in s.index.value.jobs;
      }
    }
  }

  lemma KeepsNamed(s: Store)
    requires PhaseInv(s) && s.op.Deleting?
    ensures s.index.Some? ==> forall r :: r in s.index.value.jobs ==> r.id in s.op.keep
    ensures forall g, r :: g in s.archives && r in s.archives[g].jobs ==> r.id in s.op.keep
    ensures forall r :: r in s.inherited ==> r.id in s.op.keep
  {
  }

  /** Removing a job that nothing names, or part of one, leaves every named job complete. */
  lemma RemoveKeeps(s: Store, id: JobID, jobs: map<JobID, JobDir>)
    requires Inv(s) && s.op.Deleting? && id !in s.op.keep
    requires forall k :: k in s.jobs && k != id ==> k in jobs && jobs[k] == s.jobs[k]
    requires |jobs| <= |s.jobs| && |Slots(jobs)| <= |Slots(s.jobs)|
    ensures Inv(s.(jobs := jobs))
  {
    hide NamedInv, LineageInv, RoomInv, Slots, Kept;
    var t := s.(jobs := jobs);
    KeepsNamed(s);
    RemovedNamed(s, id, t);
    SameLineage(s, t);
    SameRoom(s, t);
  }

  lemma SameRoom(s: Store, t: Store)
    requires t == s.(jobs := t.jobs)
    ensures RoomInv(s) ==> RoomInv(t)
  {
    hide ArtifactCount;
  }

  lemma RemovedNamed(s: Store, id: JobID, t: Store)
    requires NamedInv(s) && PhaseInv(s) && s.op.Deleting? && id !in s.op.keep && t == s.(jobs := t.jobs)
    requires forall k :: k in s.jobs && k != id ==> k in t.jobs && t.jobs[k] == s.jobs[k]
    ensures NamedInv(t)
  {
    hide NamedInv;
    KeepsNamed(s);
    hide Kept;
    assert s.index.Some? ==> SameJobs(s.jobs, t.jobs, s.index.value.jobs);
    forall g | g in s.archives
      ensures SameJobs(s.jobs, t.jobs, s.archives[g].jobs)
    {
    }
    assert SameJobs(s.jobs, t.jobs, s.inherited);
    hide SameJobs;
    UntouchedNamed(s, t);
  }

  lemma ErodeKeeps(s: Store, id: JobID, left: JobDir)
    requires Inv(s) && Enabled(s, Erode(id, left))
    ensures Inv(s.(jobs := s.jobs[id := left]))
  {
    hide Inv, Slots;
    JobEroded(s.jobs, id, left);
    RemoveKeeps(s, id, s.jobs[id := left]);
  }

  lemma DeleteKeeps(s: Store, id: JobID)
    requires Inv(s) && Enabled(s, Delete(id))
    ensures Inv(s.(jobs := s.jobs - {id}))
  {
    hide Inv, Slots;
    JobDeleted(s.jobs, id);
    RemoveKeeps(s, id, s.jobs - {id});
  }

  // ---------------------------------------------------------------- whole runs

  /** Every step keeps the invariant. */
  lemma StepKeeps(s: Store, a: Action)
    requires Inv(s) && Enabled(s, a)
    ensures Inv(Apply(s, a))
  {
    hide Inv, StartStep, FreezeStep, Publishable;
    match a
    case NewService(g, parent) => StartKeeps(s, g, parent);
    case BeginPublish(m, outputs) => BeginPublishKeeps(s, m, outputs);
    case WriteOutput => WriteOutputKeeps(s);
    case WriteManifest => WriteManifestKeeps(s);
    case Rename => RenameKeeps(s);
    case CommitIndex => CommitKeeps(s);
    case UpdateMemory => UpdateKeeps(s);
    case PublishFailed => QuietKeeps(s, a);
    case EndService => QuietKeeps(s, a);
    case Freeze => FreezeKeeps(s);
    case Abandon => QuietKeeps(s, a);
    case BeginCollect => QuietKeeps(s, a);
    case FilterIndex => FilterKeeps(s);
    case Erode(id, left) => ErodeKeeps(s, id, left);
    case Delete(id) => DeleteKeeps(s, id);
    case FinishCollect => QuietKeeps(s, a);
    case Recover => QuietKeeps(s, a);
    case Crash => QuietKeeps(s, a);
  }

  /** A new store, or one that begins with a private copy of jobs inherited from another run. */
  ghost predicate Initially(s: Store) {
    s.stages == [] && (s.index.Some? ==> s.index.value.jobs == s.inherited) &&
    s.archives == map[] && s.life.Gate? && s.op.Idle? && s.origins == map[] &&
    AllComplete(s.jobs, s.inherited) && Counted(s.inherited) && |s.jobs| <= MAX_JOBS && |Slots(s.jobs)| <= MAX_ARTIFACTS
  }

  ghost predicate Legal(s: Store, actions: seq<Action>)
    decreases |actions|
  {
    actions == [] || (Enabled(s, actions[0]) && Legal(Apply(s, actions[0]), actions[1..]))
  }

  ghost function Execute(s: Store, actions: seq<Action>): Store
    requires Legal(s, actions)
    decreases |actions|
  {
    if actions == [] then s else Execute(Apply(s, actions[0]), actions[1..])
  }

  lemma {:induction false} RunKeeps(s: Store, actions: seq<Action>)
    requires Inv(s) && Legal(s, actions)
    ensures Inv(Execute(s, actions))
    decreases |actions|
  {
    hide Inv, Enabled, Apply;
    if actions != [] {
      StepKeeps(s, actions[0]);
      RunKeeps(Apply(s, actions[0]), actions[1..]);
    }
  }

  /** After any run with crashes anywhere: every job named by the index, an archive or the inherited file is complete on
      disk, the retained jobs and artifacts are within their quotas, and an archived generation is authorised for exactly
      the jobs of its parent and those it published. */
  lemma EveryRunSound(s: Store, actions: seq<Action>)
    requires Initially(s) && Legal(s, actions)
    ensures var t := Execute(s, actions);
            (t.index.Some? ==> AllComplete(t.jobs, t.index.value.jobs)) &&
            (forall g :: g in t.archives ==> AllComplete(t.jobs, t.archives[g].jobs)) &&
            AllComplete(t.jobs, t.inherited) &&
            |t.jobs| <= MAX_JOBS && |Slots(t.jobs)| <= MAX_ARTIFACTS &&
            (forall g :: g in t.archives ==> g in t.origins) &&
            (forall g, p :: g in t.archives && t.origins[g].parent == Some(p) ==>
              p in t.archives && t.archives[g].jobs == t.archives[p].jobs + t.origins[g].published) &&
            (forall g :: g in t.archives && t.origins[g].parent == None ==>
              t.archives[g].jobs == (if g == 0 then t.inherited else []) + t.origins[g].published)
  {
    hide AllComplete, Slots, ArtifactCount, Kept;
    RunKeeps(s, actions);
    hide Legal, Execute;
  }

  /** What the running generation is authorised for: its parent's jobs and those it has published. */
  lemma ServingSound(s: Store, actions: seq<Action>)
    requires Initially(s) && Legal(s, actions) && Execute(s, actions).life.Serving?
    ensures var t := Execute(s, actions);
            (forall p :: t.life.parent == Some(p) ==>
              p in t.archives && t.life.refs.jobs == t.archives[p].jobs + t.life.published) &&
            (t.life.parent == None ==>
              t.life.refs.jobs == (if t.life.refs.generation == 0 then t.inherited else []) + t.life.published) &&
            Valid(t.jobs, t.life.refs.jobs)
  {
    hide AllComplete, Slots, ArtifactCount, Kept;
    RunKeeps(s, actions);
    hide Legal, Execute;
  }

  /** The checks that guard a gate never refuse what a run has left: a finished generation can always be frozen, an
      archived one can always be a parent, and the store can always be collected. */
  lemma NeverRefused(s: Store, actions: seq<Action>)
    requires Initially(s) && Legal(s, actions)
    ensures var t := Execute(s, actions);
            (t.life.Closing? && t.op.Idle? && t.life.generation !in t.archives ==> Enabled(t, Freeze)) &&
            (t.life.Gate? && t.op.Idle? ==> Enabled(t, BeginCollect)) &&
            (forall g, parent :: t.life.Gate? && t.op.Idle? && parent in t.archives ==>
              Enabled(t, NewService(g, Some(parent))))
  {
    hide AllComplete, Slots, ArtifactCount, Kept;
    RunKeeps(s, actions);
    hide Legal, Execute;
  }
}
