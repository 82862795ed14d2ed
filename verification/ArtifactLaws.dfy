/** What a service is authorised for, step by step, and what collecting garbage takes away. */
module ArtifactLaws {
  import opened Bytes
  import opened Artifacts
  import ArtifactStore

  /** A new service is for the generation and parent it was made for, has published nothing, and is authorised for exactly
      its parent's archived jobs, or for the first generation those the run inherited. */
  lemma StartLaw(s: Store, g: nat, parent: Option<nat>)
    requires Enabled(s, NewService(g, parent))
    ensures var t := Apply(s, NewService(g, parent));
            t.life.Serving? && t.life.refs.generation == g && t.life.parent == parent && t.life.published == [] &&
            t.index == Some(t.life.refs) && t.archives == s.archives && t.jobs == s.jobs &&
            (forall p :: parent == Some(p) ==> p in s.archives && t.life.refs.jobs == s.archives[p].jobs) &&
            (parent == None ==> t.life.refs.jobs == if g == 0 then s.inherited else [])
  {
    hide Artifacts.Valid;
  }

  /** A running generation may publish a job exactly when its outputs are the declared ones, with distinct names, none above
      16 MiB and all together within 32 MiB, when fewer than 64 jobs are retained and fewer than 64 referred to, all with
      their manifests, and when neither the retained artifacts nor those referred to would outnumber 256. */
  lemma AdmissionLaw(s: Store, m: Manifest, outputs: seq<Output>)
    requires s.life.Serving? && s.op.Idle?
    ensures var n, refs := |outputs|, s.life.refs.jobs;
            Enabled(s, BeginPublish(m, outputs)) <==>
            n == |m.outputs| && n == |m.artifacts| && TotalData(outputs) <= 32 * 1024 * 1024 &&
            (forall i :: 0 <= i < n ==> outputs[i].path == m.outputs[i] && |outputs[i].data| <= 16 * 1024 * 1024) &&
            (forall i, j :: 0 <= i < j < n ==> m.outputs[i] != m.outputs[j]) &&
            |s.jobs| <= 63 && |Slots(s.jobs)| + n <= 256 && |refs| <= 63 && ArtifactCount(refs) + n <= 256 &&
            (forall id :: id in s.jobs ==> HasManifest(s.jobs, id)) &&
            (forall i :: 0 <= i < |refs| ==>
              refs[i].id in s.jobs && s.jobs[refs[i].id].manifest == Some(refs[i].manifest) &&
              WellFormed(refs[i].manifest, refs[i].id))
  {
    hide TotalData, Slots, ArtifactCount, WellFormed;
  }

  /** The job whose publication is under way. */
  function Underway(s: Store): Option<JobRef> {
    match s.op
    case Staging(m, _, _, _) => Some(JobRef(m.id, m))
    case Staged(m, _) => Some(JobRef(m.id, m))
    case Renamed(m) => Some(JobRef(m.id, m))
    case Committed(next) => if next.jobs == [] then None else Some(next.jobs[|next.jobs| - 1])
    case _ => None
  }

  /** While it serves, a generation's authorisation only ever grows, by the one job it is publishing, which is complete by
      then; its number and parent never change. */
  lemma ServingLaw(s: Store, a: Action)
    requires Inv(s) && Enabled(s, a) && s.life.Serving? && Apply(s, a).life.Serving?
    ensures var t := Apply(s, a);
            t.life.refs.generation == s.life.refs.generation && t.life.parent == s.life.parent &&
            if a.UpdateMemory? then
              Underway(s).Some? && Complete(s.jobs, Underway(s).value) &&
              t.life.refs.jobs == s.life.refs.jobs + [Underway(s).value] &&
              t.life.published == s.life.published + [Underway(s).value]
            else t.life.refs == s.life.refs && t.life.published == s.life.published
  {
    hide Complete, Artifacts.Valid, Slots, ArtifactCount, Kept, Base, StageInv, LineageInv, QuotaInv, RoomInv;
    if a.UpdateMemory? {
      var jobs := s.op.next.jobs;
      assert jobs == jobs[..|jobs| - 1] + [jobs[|jobs| - 1]];
    }
  }

  /** A publication is of the job it was begun for, from the first step to the last. */
  lemma UnderwayLaw(s: Store, a: Action)
    requires Inv(s) && Enabled(s, a) && Underway(s).Some?
    ensures var t := Apply(s, a);
            Underway(t) == Underway(s) || (t.op.Idle? && (a.UpdateMemory? || a.PublishFailed? || a.Crash?))
  {
    hide Complete, Artifacts.Valid, Slots, ArtifactCount, Kept, Base, StageInv, LineageInv, QuotaInv, RoomInv, NamedInv;
  }

  /** Freezing archives exactly what the index holds for the generation that ended, under its number, and no other archive
      changes. */
  lemma FreezeLaw(s: Store)
    requires Inv(s) && Enabled(s, Freeze)
    ensures var t := Apply(s, Freeze);
            t.archives.Keys == s.archives.Keys + {s.life.generation} &&
            (forall g :: g in s.archives ==> t.archives[g] == s.archives[g]) &&
            (forall p :: s.life.parent == Some(p) ==>
              p in s.archives && t.archives[s.life.generation].jobs == s.archives[p].jobs + s.life.published) &&
            (s.life.parent == None ==>
              t.archives[s.life.generation].jobs ==
              (if s.life.generation == 0 then s.inherited else []) + s.life.published)
  {
    hide Complete, Artifacts.Valid, Slots, ArtifactCount, Kept, StageInv, QuotaInv, RoomInv, NamedInv;
  }

  ghost predicate NamedSomewhere(s: Store, id: JobID) {
    (exists g, i :: g in s.archives && 0 <= i < |s.archives[g].jobs| && s.archives[g].jobs[i].id == id) ||
    (exists i :: 0 <= i < |s.inherited| && s.inherited[i].id == id)
  }

  /** What is left after garbage has been collected: every job that an archive or the inherited file names, as it was, and
      no other; and of the index the references to these, in their order. */
  lemma CollectLaw(s: Store)
    ensures var t := ArtifactStore.Collected(s);
            (forall id :: id in t.jobs <==> id in s.jobs && NamedSomewhere(s, id)) &&
            (forall id :: id in t.jobs ==> t.jobs[id] == s.jobs[id]) && t.archives == s.archives &&
            (s.index.Some? ==> t.index.Some? && Keeps(s, s.index.value.jobs, t.index.value.jobs))
  {
    hide Filtered;
    KeptLaw(s);
    if s.index.Some? { FilteredLaw(s, s.index.value.jobs); }
  }

  lemma KeptLaw(s: Store)
    ensures forall id :: id in Kept(s.archives, s.inherited) <==> NamedSomewhere(s, id)
  {
    forall id | id in Kept(s.archives, s.inherited)
      ensures NamedSomewhere(s, id)
    {
      if g, r :| g in s.archives && r in s.archives[g].jobs && r.id == id {
        var i :| 0 <= i < |s.archives[g].jobs| && s.archives[g].jobs[i] == r;
      }
    }
  }

  /** `left` is what remains of `refs` when those not named anywhere are struck out. */
  ghost predicate Keeps(s: Store, refs: seq<JobRef>, left: seq<JobRef>)
    decreases |refs|
  {
    if refs == [] then left == []
    else if NamedSomewhere(s, refs[0].id) then left != [] && left[0] == refs[0] && Keeps(s, refs[1..], left[1..])
    else Keeps(s, refs[1..], left)
  }

  lemma {:induction false} FilteredFront(refs: seq<JobRef>, keep: set<JobID>)
    requires refs != []
    ensures Filtered(refs, keep) == (if refs[0].id in keep then [refs[0]] else []) + Filtered(refs[1..], keep)
  {
    if |refs| > 1 {
      FilteredFront(refs[..|refs| - 1], keep);
      assert refs[..|refs| - 1][1..] == refs[1..][..|refs| - 2];
    } else {
      assert refs[..0] == [] && refs[1..] == [];
    }
  }

  lemma {:induction false} FilteredLaw(s: Store, refs: seq<JobRef>)
    ensures Keeps(s, refs, Filtered(refs, Kept(s.archives, s.inherited)))
    decreases |refs|
  {
    hide Kept, NamedSomewhere;
    KeptLaw(s);
    if refs != [] {
      FilteredFront(refs, Kept(s.archives, s.inherited));
      FilteredLaw(s, refs[1..]);
      var rest := Filtered(refs[1..], Kept(s.archives, s.inherited));
      assert ([refs[0]] + rest)[1..] == rest;
      assert [] + rest == rest;
    }
  }
}
