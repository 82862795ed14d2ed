/** Which files the kernel image can carry, and what the store holds after it has taken them. */
module Embedding {
  import opened Bytes
  import opened Listing
  import opened FileStore

  /** Files that can be embedded together. */
  ghost predicate Embeddable(initial: seq<File>) {
    |initial| <= MAX_FILES && TotalSize(initial) <= CAPACITY &&
    (forall i :: 0 <= i < |initial| ==> 1 <= |initial[i].path| <= MAX_PATH) &&
    (forall i, j :: 0 <= i < j < |initial| ==> initial[i].path != initial[j].path)
  }

  /** Embedding succeeds exactly for files with distinct paths of a proper length that fit the table and the content
      array, and leaves exactly those files, in order of their paths. */
  lemma {:induction false} EmbedExactly(initial: seq<File>)
    ensures Embed(initial).Some? <==> Embeddable(initial)
    ensures Embed(initial).Some? ==>
      Listing.Valid(Embed(initial).value) && multiset(Embed(initial).value) == multiset(initial) &&
      TotalSize(Embed(initial).value) == TotalSize(initial)
  {
    hide Less, TotalSize, Create, Embeddable, Listing.Valid;
    if initial == [] {
      NothingEmbedded();
    } else {
      var front, last := initial[..|initial| - 1], initial[|initial| - 1];
      EmbedExactly(front);
      assert initial == front + [last];
      EmbeddablePrefix(initial);
      if Embed(front).Some? {
        var l := Embed(front).value;
        EmbeddableNext(front, l, last);
        if Create(l, last.path, last.content).Some? { CreatedNext(front, l, last); }
      }
    }
  }

  lemma NothingEmbedded()
    ensures Embeddable([]) && Listing.Valid([]) && TotalSize([]) == 0
  {
  }

  lemma EmbeddablePrefix(initial: seq<File>)
    requires initial != []
    ensures Embeddable(initial) ==> Embeddable(initial[..|initial| - 1])
  {
  }

  lemma EmbeddableNext(front: seq<File>, l: seq<File>, last: File)
    requires multiset(l) == multiset(front) && TotalSize(l) == TotalSize(front) && Embeddable(front)
    ensures Create(l, last.path, last.content).Some? <==> Embeddable(front + [last])
  {
    hide Less, IndexOf, InsertionPoint, InsertAt;
    SameLength(l, front);
    SamePaths(l, front, last.path);
    var more := front + [last];
    assert more[..|front|] == front;
    assert TotalSize(more) == TotalSize(front) + |last.content|;
    hide TotalSize;
    if IndexOf(l, last.path).None? {
      assert forall i, j :: 0 <= i < j < |more| ==> more[i].path != more[j].path;
    } else {
      var i :| 0 <= i < |front| && front[i].path == last.path;
      assert more[i].path == more[|front|].path;
    }
  }

  lemma CreatedNext(front: seq<File>, l: seq<File>, last: File)
    requires Listing.Valid(l) && multiset(l) == multiset(front) && TotalSize(l) == TotalSize(front)
    requires Create(l, last.path, last.content).Some?
    ensures var made := Create(l, last.path, last.content).value;
            Listing.Valid(made) && multiset(made) == multiset(front + [last]) &&
            TotalSize(made) == TotalSize(front + [last])
  {
    hide Less, IndexOf, InsertionPoint, Listing.Valid, InsertAt;
    assert (front + [last])[..|front|] == front;
    assert TotalSize(front + [last]) == TotalSize(front) + |last.content|;
    hide TotalSize;
    var k := InsertionPoint(l, last.path);
    CreatedValid(l, last);
    TotalSizeInsert(l, k, last);
    InsertedOnce(l, k, last);
  }

  lemma CreatedValid(l: seq<File>, last: File)
    requires Listing.Valid(l) && IndexOf(l, last.path).None? && CanCreate(l, last.path, last.content)
    ensures Listing.Valid(InsertAt(l, InsertionPoint(l, last.path), last))
  {
    hide Less, IndexOf, InsertionPoint, TotalSize;
    var k := InsertionPoint(l, last.path);
    InsertionPointSplits(l, last.path);
    InsertSorted(l, k, last);
    TotalSizeInsert(l, k, last);
    hide Sorted;
  }

  lemma InsertedOnce(l: seq<File>, k: nat, f: File)
    requires k <= |l|
    ensures multiset(InsertAt(l, k, f)) == multiset(l) + multiset{f}
  {
    assert l == l[..k] + l[k..];
  }

  lemma SameLength(l: seq<File>, front: seq<File>)
    requires multiset(l) == multiset(front)
    ensures |l| == |front|
  {
    assert |multiset(l)| == |l| && |multiset(front)| == |front|;
  }

  lemma SamePaths(l: seq<File>, front: seq<File>, path: Path)
    requires multiset(l) == multiset(front)
    ensures IndexOf(l, path).None? <==> forall i :: 0 <= i < |front| ==> front[i].path != path
  {
    forall i | 0 <= i < |front|
      ensures front[i] in l
    {
      assert front[i] in multiset(front);
    }
    forall i | 0 <= i < |l|
      ensures l[i] in front
    {
      assert l[i] in multiset(l);
    }
  }
}
