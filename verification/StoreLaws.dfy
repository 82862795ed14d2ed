/** What the operations of the store do to a file, byte by byte, and exactly when they fail. */
module StoreLaws {
  import opened Bytes
  import opened Listing

  /** The content a path stands for; none is as good as empty. */
  function Content(m: Store, path: Path): seq<Byte> {
    if path in m then m[path] else []
  }

  function Max(a: nat, b: nat): nat {
    if a < b then b else a
  }

  /** `m'` is `m` but for the content of `path`. */
  ghost predicate OnlyAt(m: Store, m': Store, path: Path) {
    m'.Keys == m.Keys + {path} && forall q :: q in m && q != path ==> m'[q] == m[q]
  }

  lemma ContentCounted(m: Store, path: Path)
    ensures |Content(m, path)| <= MapSize(m)
  {
    if path in m { MapSizeWithout(m, path); }
  }

  /** `now` has all of `data` at `offset`, every other byte of `was`, and is no longer than it must be. */
  predicate Written(was: seq<Byte>, offset: nat, data: seq<Byte>, now: seq<Byte>) {
    |now| == Max(|was|, offset + |data|) && offset <= |was| &&
    forall k :: 0 <= k < |now| ==> now[k] == if offset <= k < offset + |data| then data[k - offset] else was[k]
  }

  /** A write puts its data into the file. It fails exactly when it would leave a hole, when the files would outgrow the
      store, or when it would have to make a file that may not be made. */
  lemma WriteLaw(m: Store, path: Path, offset: nat, data: seq<Byte>)
    ensures var was, r := Content(m, path), MapAttempt(m, WriteOp(path, offset, data));
            (r.Some? <==>
              offset <= |was| && MapSize(m) - |was| + Max(|was|, offset + |data|) <= CAPACITY &&
              (path !in m ==> 1 <= |path| <= MAX_PATH && |m| < MAX_FILES)) &&
            (r.Some? ==> OnlyAt(m, r.value, path) && Written(was, offset, data, r.value[path]))
  {
    hide MapSize;
    ContentCounted(m, path);
    if offset <= |Content(m, path)| { SpliceLaw(Content(m, path), offset, data); }
    assert path !in m ==> Written([], 0, data, data);
    hide Splice, Written;
  }

  lemma SpliceLaw(content: seq<Byte>, offset: nat, data: seq<Byte>)
    requires offset <= |content|
    ensures Written(content, offset, data, Splice(content, offset, data))
    ensures |Splice(content, offset, data)| == Max(|content|, offset + |data|)
  {
  }

  /** A truncation keeps as much of the file as fits its new size and fills the rest with zeros. It fails exactly for a
      path that is not there and when the files would outgrow the store. */
  lemma TruncateLaw(m: Store, path: Path, size: nat)
    ensures var r := MapAttempt(m, TruncateOp(path, size));
            (r.Some? <==> path in m && MapSize(m) - |m[path]| + size <= CAPACITY) &&
            (r.Some? ==>
              OnlyAt(m, r.value, path) && |r.value[path]| == size &&
              forall k :: 0 <= k < size ==> r.value[path][k] == if k < |m[path]| then m[path][k] else 0)
  {
    hide MapSize;
  }

  /** A removal takes the file away and nothing else, and fails exactly for a path that is not there. */
  lemma RemoveLaw(m: Store, path: Path)
    ensures var r := MapAttempt(m, RemoveOp(path));
            (r.Some? <==> path in m) &&
            (r.Some? ==> r.value.Keys == m.Keys - {path} && forall q :: q in r.value ==> r.value[q] == m[q])
  {
  }

  /** The same of the ordered files: what the table holds after an operation. */
  lemma AttemptLaw(l: seq<File>, op: Op)
    requires Valid(l)
    ensures Attempt(l, op).Some? <==> MapAttempt(AsMap(l), op).Some?
    ensures Attempt(l, op).Some? ==>
              Valid(Attempt(l, op).value) && AsMap(Attempt(l, op).value) == MapStep(AsMap(l), op)
  {
    hide Attempt, MapAttempt, AsMap, Valid;
    AttemptRefinesMap(l, op);
  }
}
