/** The two ways the host obtains the guest's source: asked for by tool calls, or sent with a build request. */
module Capture {
  import opened Bytes
  import opened Listing
  import opened GuestSpec
  import SourcePaths
  import Snapshot
  import Calls
  import Decimal
  import Utf8

  datatype ToolResult = ToolResult(status: U32, output: seq<Byte>)

  // ---------------------------------------------------------------- sorting by path

  /** The host's `sort.Slice` and `sort.Strings`; equal keys never survive validation, so their order is open. */
  function Sort<T>(s: seq<T>, key: T -> Path): (r: seq<T>)
    ensures |r| == |s| && multiset(r) == multiset(s)
  {
    if s == [] then []
    else
      assert s == s[..|s| - 1] + [s[|s| - 1]];
      Place(s[|s| - 1], Sort(s[..|s| - 1], key), key)
  }

  function Place<T>(x: T, s: seq<T>, key: T -> Path): (r: seq<T>)
    ensures |r| == |s| + 1 && multiset(r) == multiset(s) + multiset{x}
  {
    if s == [] then [x]
    else if Less(key(x), key(s[|s| - 1])) then
      assert s == s[..|s| - 1] + [s[|s| - 1]];
      Place(x, s[..|s| - 1], key) + [s[|s| - 1]]
    else s + [x]
  }

  ghost predicate Ascending<T>(s: seq<T>, key: T -> Path) {
    forall i, j :: 0 <= i < j < |s| ==> Less(key(s[i]), key(s[j]))
  }

  ghost predicate DistinctKeys<T>(s: seq<T>, key: T -> Path) {
    forall i, j :: 0 <= i < j < |s| ==> key(s[i]) != key(s[j])
  }

  /** What is in order already stays as it is. */
  lemma {:induction false} SortAscending<T>(s: seq<T>, key: T -> Path)
    requires Ascending(s, key)
    ensures Sort(s, key) == s
  {
    hide Less;
    if s != [] {
      var front, last := s[..|s| - 1], s[|s| - 1];
      SortAscending(front, key);
      if front != [] { LessAsymmetric(key(front[|front| - 1]), key(last)); }
      assert s == front + [last];
    }
  }

  lemma {:induction false} PlaceAscends<T>(x: T, s: seq<T>, key: T -> Path)
    requires Ascending(s, key) && forall i :: 0 <= i < |s| ==> key(s[i]) != key(x)
    ensures Ascending(Place(x, s, key), key)
  {
    hide Less;
    if s != [] {
      var front, last := s[..|s| - 1], s[|s| - 1];
      if Less(key(x), key(last)) {
        PlaceAscends(x, front, key);
        var r := Place(x, front, key);
        forall i | 0 <= i < |r| ensures Less(key(r[i]), key(last)) {
          assert r[i] in multiset(r);
          if r[i] != x { var k :| 0 <= k < |front| && front[k] == r[i]; }
        }
      } else {
        LessTotal(key(x), key(last));
        forall i | 0 <= i < |s| ensures Less(key(s[i]), key(x)) {
          if i < |s| - 1 { LessTransitive(key(s[i]), key(last), key(x)); }
        }
      }
    }
  }

  /** Distinct keys come out in strictly ascending order. */
  lemma {:induction false} SortAscends<T>(s: seq<T>, key: T -> Path)
    requires DistinctKeys(s, key)
    ensures Ascending(Sort(s, key), key)
  {
    hide Less, Place;
    if s != [] {
      var front, last := s[..|s| - 1], s[|s| - 1];
      SortAscends(front, key);
      var sorted := Sort(front, key);
      forall i | 0 <= i < |sorted| ensures key(sorted[i]) != key(last) {
        assert sorted[i] in multiset(front);
        var k :| 0 <= k < |front| && front[k] == sorted[i];
      }
      PlaceAscends(last, sorted, key);
    }
  }

  lemma {:induction false} AscendingUnique<T>(a: seq<T>, b: seq<T>, key: T -> Path)
    requires Ascending(a, key) && Ascending(b, key) && multiset(a) == multiset(b)
    ensures a == b
  {
    hide Less;
    assert |a| == |multiset(a)| == |multiset(b)| == |b|;
    if a != [] {
      var n := |a| - 1;
      SameLast(a, b, key);
      WithoutLast(a);
      WithoutLast(b);
      AscendingUnique(a[..n], b[..n], key);
      assert a == a[..n] + [a[n]] && b == b[..n] + [b[n]];
    }
  }

  lemma WithoutLast<T>(a: seq<T>)
    requires a != []
    ensures multiset(a[..|a| - 1]) == multiset(a) - multiset{a[|a| - 1]}
  {
    assert a == a[..|a| - 1] + [a[|a| - 1]];
  }

  lemma SameLast<T>(a: seq<T>, b: seq<T>, key: T -> Path)
    requires Ascending(a, key) && Ascending(b, key) && multiset(a) == multiset(b) && a != [] && |a| == |b|
    ensures a[|a| - 1] == b[|b| - 1]
  {
    hide Less;
    LastBound(a, b, key);
    LastBound(b, a, key);
    if a[|a| - 1] != b[|b| - 1] {
      LessAsymmetric(key(a[|a| - 1]), key(b[|b| - 1]));
      assert false;
    }
  }

  lemma LastBound<T>(a: seq<T>, b: seq<T>, key: T -> Path)
    requires Ascending(b, key) && multiset(a) == multiset(b) && a != [] && |a| == |b|
    ensures a[|a| - 1] == b[|b| - 1] || Less(key(a[|a| - 1]), key(b[|b| - 1]))
  {
    var last := a[|a| - 1];
    assert last in multiset(b);
    var k :| 0 <= k < |b| && b[k] == last;
  }

  // ---------------------------------------------------------------- canonical snapshots

  function PathOf(f: File): Path {
    f.path
  }

  function Self(path: Path): Path {
    path
  }

  /** `NewCanonicalSourceSnapshotWithBudget`: sort, validate, encode. */
  method NewCanonicalSnapshot(files: seq<File>, budget: nat) returns (r: Option<seq<Byte>>)
    ensures r == Canonical(files, budget)
  {
    var sorted := Sort(files, PathOf);
    var ok := Snapshot.ValidateFiles(sorted, budget);
    if !ok {
      return None;
    }
    var encoded := Snapshot.EncodeFiles(sorted);
    return Some(encoded);
  }

  ghost function Canonical(files: seq<File>, budget: nat): Option<seq<Byte>> {
    var sorted := Sort(files, PathOf);
    if Snapshot.ValidFiles(sorted, budget) then Some(Snapshot.Wire(sorted)) else None
  }

  /** The canonical snapshot does not depend on the order in which the files were supplied. */
  lemma CanonicalIgnoresOrder(fs: seq<File>, gs: seq<File>, budget: nat)
    requires multiset(fs) == multiset(gs) && Snapshot.DistinctPaths(fs)
    ensures Canonical(fs, budget) == Canonical(gs, budget)
  {
    hide Less, Snapshot.ValidFiles, Sort;
    PermutedDistinct(fs, gs);
    SortAscends(fs, PathOf);
    SortAscends(gs, PathOf);
    AscendingUnique(Sort(fs, PathOf), Sort(gs, PathOf), PathOf);
  }

  lemma PermutedDistinct(fs: seq<File>, gs: seq<File>)
    requires multiset(fs) == multiset(gs) && Snapshot.DistinctPaths(fs)
    ensures Snapshot.DistinctPaths(gs)
  {
    forall i, j | 0 <= i < j < |gs| ensures gs[i].path != gs[j].path {
      if gs[i].path == gs[j].path {
        assert gs[i] in multiset(fs) && gs[j] in multiset(fs);
        var a :| 0 <= a < |fs| && fs[a] == gs[i];
        var b :| 0 <= b < |fs| && fs[b] == gs[j];
        TwiceInMultiset(gs, i, j);
        OnceInMultiset(fs, a);
        assert false;
      }
    }
  }

  lemma TwiceInMultiset(gs: seq<File>, i: nat, j: nat)
    requires i < j < |gs| && gs[i] == gs[j]
    ensures multiset(gs)[gs[i]] >= 2
  {
    assert gs == gs[..i] + [gs[i]] + gs[i + 1..j] + [gs[j]] + gs[j + 1..];
  }

  lemma OnceInMultiset(fs: seq<File>, a: nat)
    requires a < |fs| && Snapshot.DistinctPaths(fs)
    ensures multiset(fs)[fs[a]] == 1
  {
    assert fs == fs[..a] + [fs[a]] + fs[a + 1..];
    assert fs[a] !in fs[..a] && fs[a] !in fs[a + 1..];
  }

  // ---------------------------------------------------------------- what the guest lists

  /** The files below "seed/", in table order. */
  function Prefixed(l: seq<File>): (fs: seq<File>)
    ensures forall f :: f in fs ==> f in l && SourcePaths.PREFIX <= f.path
  {
    if l == [] then []
    else
      var front, last := Prefixed(l[..|l| - 1]), l[|l| - 1];
      if SourcePaths.PREFIX <= last.path then front + [last] else front
  }

  function Paths(fs: seq<File>): (ps: seq<Path>)
    ensures |ps| == |fs| && forall i :: 0 <= i < |fs| ==> ps[i] == fs[i].path
  {
    seq(|fs|, i requires 0 <= i < |fs| => fs[i].path)
  }

  lemma {:induction false} PrefixedSorted(l: seq<File>)
    requires Sorted(l)
    ensures Sorted(Prefixed(l)) && TotalSize(Prefixed(l)) <= TotalSize(l) && |Prefixed(l)| <= |l|
  {
    hide Less, TotalSize;
    PrefixedMeasures(l);
    if l != [] {
      var front, last := l[..|l| - 1], l[|l| - 1];
      PrefixedSorted(front);
      var fs := Prefixed(front);
      assert Prefixed(l) == fs || Prefixed(l) == fs + [last];
      forall i | 0 <= i < |fs| ensures Less(fs[i].path, last.path) {
        assert fs[i] in front;
        var k :| 0 <= k < |front| && front[k] == fs[i];
        assert front[k] == l[k];
      }
    }
  }

  lemma {:induction false} PrefixedMeasures(l: seq<File>)
    ensures TotalSize(Prefixed(l)) <= TotalSize(l) && |Prefixed(l)| <= |l|
  {
    if l != [] {
      var fs := Prefixed(l[..|l| - 1]);
      PrefixedMeasures(l[..|l| - 1]);
      assert (fs + [l[|l| - 1]])[..|fs|] == fs;
    }
  }

  lemma {:induction false} JoinAppend(ps: seq<Path>, p: Path, sep: Byte)
    requires ps != []
    ensures SourcePaths.Join(ps + [p], sep) == SourcePaths.Join(ps, sep) + [sep] + p
  {
    if |ps| == 1 {
      assert (ps + [p])[1..] == [p];
    } else {
      JoinAppend(ps[1..], p, sep);
      assert (ps + [p])[1..] == ps[1..] + [p];
    }
  }

  /** The listing is the paths joined by line feeds, with one at the end. */
  lemma {:induction false} LinesAreJoined(l: seq<File>)
    ensures var ps := Paths(Prefixed(l));
            Lines(l, SourcePaths.PREFIX) == if ps == [] then [] else SourcePaths.Join(ps, SourcePaths.LF) + [SourcePaths.LF]
  {
    if l != [] {
      var front, last := l[..|l| - 1], l[|l| - 1];
      LinesAreJoined(front);
      if SourcePaths.PREFIX <= last.path {
        assert Paths(Prefixed(l)) == Paths(Prefixed(front)) + [last.path];
        if Prefixed(front) != [] { JoinAppend(Paths(Prefixed(front)), last.path, SourcePaths.LF); }
      }
    }
  }

  /** `strings.TrimSuffix(s, "\n")`. */
  function TrimLF(s: seq<Byte>): seq<Byte> {
    if s != [] && s[|s| - 1] == SourcePaths.LF then s[..|s| - 1] else s
  }

  function ListedPaths(output: seq<Byte>): seq<Path> {
    var text := TrimLF(output);
    if text == [] then [] else SourcePaths.Split(text, SourcePaths.LF)
  }

  /** The host reads back from a listing exactly the paths the guest put into it. */
  lemma ListingReadBack(l: seq<File>)
    requires Listable(l, SourcePaths.PREFIX)
    ensures ListedPaths(Lines(l, SourcePaths.PREFIX)) == Paths(Prefixed(l))
  {
    var fs := Prefixed(l);
    var ps := Paths(fs);
    LinesAreJoined(l);
    if ps != [] {
      var text := SourcePaths.Join(ps, SourcePaths.LF);
      assert (text + [SourcePaths.LF])[..|text|] == text;
      forall i | 0 <= i < |ps| ensures SourcePaths.LF !in ps[i] && ps[i] != [] {
        assert fs[i] in l && SourcePaths.PREFIX <= fs[i].path;
      }
      JoinNotEmpty(ps);
      SourcePaths.SplitJoin(ps, SourcePaths.LF);
    }
  }

  lemma JoinNotEmpty(ps: seq<Path>)
    requires ps != [] && ps[0] != []
    ensures SourcePaths.Join(ps, SourcePaths.LF) != []
  {
  }

  // ---------------------------------------------------------------- capture

  /** The guest's answer to a call that needs no host, as the host decodes it. */
  ghost function GuestResult(l: seq<File>, name: seq<Byte>, arguments: seq<seq<Byte>>): ToolResult {
    match Invoke(l, Calls.Call(name, arguments))
    case Reply(status, output, _) => ToolResult(status, output)
    case AskHost(_) => ToolResult(1, [])
  }

  /** `invoke` answers list and read calls as a guest holding the files `l` does. */
  ghost predicate Serves(invoke: (seq<Byte>, seq<seq<Byte>>) -> ToolResult, l: seq<File>) {
    forall name, arguments :: name == LIST || name == READ ==>
      invoke(name, arguments) == GuestResult(l, name, arguments)
  }

  ghost predicate AllSourcePaths(fs: seq<File>) {
    forall i :: 0 <= i < |fs| ==> SourcePaths.ValidSourcePath(fs[i].path)
  }

  /** The snapshot a capture makes of the files `l`, and when it makes one. */
  ghost function Captured(l: seq<File>, budget: nat): Option<seq<Byte>> {
    var fs := Prefixed(l);
    if Snapshot.BudgetValid(budget) && |fs| <= Snapshot.MAX_SNAPSHOT_FILES && AllSourcePaths(fs) &&
       TotalSize(fs) <= Snapshot.BudgetBytes(budget)
    then Some(Snapshot.Wire(fs)) else None
  }

  lemma ListAnswer(invoke: (seq<Byte>, seq<seq<Byte>>) -> ToolResult, l: seq<File>)
    requires Serves(invoke, l)
    ensures invoke(LIST, [SourcePaths.PREFIX]) ==
            if Listable(l, SourcePaths.PREFIX) then ToolResult(0, Lines(l, SourcePaths.PREFIX)) else ToolResult(1, [])
  {
    hide Utf8.Valid, Listable, Lines;
    PrefixValid();
    assert invoke(LIST, [SourcePaths.PREFIX]) == GuestResult(l, LIST, [SourcePaths.PREFIX]);
  }

  lemma PrefixValid()
    ensures Utf8.Valid(SourcePaths.PREFIX)
  {
    hide Utf8.Valid;
    forall b: Byte | b < 0x80 ensures Utf8.Valid([b]) { Utf8.ValidAscii(b); }
    var p := SourcePaths.PREFIX;
    Utf8.ValidConcat([115], [101]);
    Utf8.ValidConcat([115] + [101], [101]);
    Utf8.ValidConcat([115] + [101] + [101], [100]);
    Utf8.ValidConcat([115] + [101] + [101] + [100], [47]);
    assert p == [115] + [101] + [101] + [100] + [47];
  }

  const ZERO: seq<Byte> := [48] // "0"

  /** A read of a listed file from offset zero returns its first bytes, all of them if the request is long enough. */
  lemma ReadAnswer(invoke: (seq<Byte>, seq<seq<Byte>>) -> ToolResult, l: seq<File>, i: nat, length: nat)
    requires Serves(invoke, l) && Sorted(l) && i < |l| && ValidPath(l[i].path) && length <= 0x10_0001
    ensures invoke(READ, [l[i].path, ZERO, Decimal.Itoa(length)]) ==
            ToolResult(0, l[i].content[..Min(length, |l[i].content|)])
  {
    hide ValidPath, Decimal.Parse, Decimal.Itoa, Less, IndexOf;
    var arguments := [l[i].path, ZERO, Decimal.Itoa(length)];
    Decimal.ParseItoa(length);
    ZeroParses();
    IndexUnique(l, i);
    assert invoke(READ, arguments) == GuestResult(l, READ, arguments);
  }

  lemma ZeroParses()
    ensures Decimal.Parse(ZERO) == Some(0)
  {
    assert ZERO[..0] == [];
  }

  /** When every path below "seed/" is a source path, the listing is UTF-8 text without stray line breaks. */
  lemma {:induction false} SourceListing(l: seq<File>)
    requires AllSourcePaths(Prefixed(l))
    ensures Listable(l, SourcePaths.PREFIX) && Utf8.Valid(Lines(l, SourcePaths.PREFIX))
  {
    hide Utf8.Valid, SourcePaths.Split, SourcePaths.AllProper;
    if l == [] {
      EmptyValid();
    } else {
      var front, last := l[..|l| - 1], l[|l| - 1];
      if SourcePaths.PREFIX <= last.path {
        assert Prefixed(l)[|Prefixed(l)| - 1] == last;
        assert forall i :: 0 <= i < |Prefixed(front)| ==> Prefixed(l)[i] == Prefixed(front)[i];
        SourceListing(front);
        Utf8.ValidAscii(SourcePaths.LF);
        Utf8.ValidConcat(last.path, [SourcePaths.LF]);
        Utf8.ValidConcat(Lines(front, SourcePaths.PREFIX), last.path + [SourcePaths.LF]);
      } else {
        SourceListing(front);
        assert Lines(l, SourcePaths.PREFIX) == Lines(front, SourcePaths.PREFIX);
      }
    }
  }

  lemma EmptyValid()
    ensures Utf8.Valid([])
  {
  }

  /** A path that does not break the listing test yet breaks a line fails validation. */
  lemma UnlistableNotSource(l: seq<File>)
    requires !Listable(l, SourcePaths.PREFIX)
    ensures !AllSourcePaths(Prefixed(l))
  {
    hide Utf8.Valid, SourcePaths.Split, SourcePaths.AllProper;
    var i :| 0 <= i < |l| && SourcePaths.PREFIX <= l[i].path && !SourcePaths.NoLineBreak(l[i].path);
    PrefixedHas(l, i);
  }

  lemma {:induction false} PrefixedHas(l: seq<File>, i: nat)
    requires i < |l| && SourcePaths.PREFIX <= l[i].path
    ensures l[i] in Prefixed(l)
  {
    if i < |l| - 1 {
      PrefixedHas(l[..|l| - 1], i);
    }
  }

  /** `CaptureCanonicalSourceSnapshotWithBudget`: list, then read every path, counting the bytes. */
  method CaptureSnapshot(invoke: (seq<Byte>, seq<seq<Byte>>) -> ToolResult, budget: nat, ghost l: seq<File>)
    returns (r: Option<seq<Byte>>)
    requires Serves(invoke, l) && Sorted(l)
    ensures r == Captured(l, budget)
  {
    hide Less, Utf8.Valid, Serves, Snapshot.Wire, TotalSize, SourcePaths.ValidSourcePath, Sort, Lines, Listable;
    if !Snapshot.BudgetValid(budget) {
      return None;
    }
    var listed := invoke(LIST, [SourcePaths.PREFIX]);
    ListAnswer(invoke, l);
    if listed.status != 0 {
      UnlistableNotSource(l);
      return None;
    }
    if !Utf8.Valid(listed.output) {
      if AllSourcePaths(Prefixed(l)) { SourceListing(l); }
      return None;
    }
    ListingReadBack(l);
    var paths := ListedPaths(listed.output);
    if |paths| > Snapshot.MAX_SNAPSHOT_FILES {
      return None;
    }
    PathsAscend(l);
    paths := Sort(paths, Self);
    var files := ReadFiles(invoke, paths, Snapshot.BudgetBytes(budget), l);
    if files.None? {
      return None;
    }
    CanonicalOfPrefixed(l, budget);
    r := NewCanonicalSnapshot(files.value, budget);
  }

  lemma PathsAscend(l: seq<File>)
    requires Sorted(l)
    ensures Sort(Paths(Prefixed(l)), Self) == Paths(Prefixed(l))
  {
    hide Less, Sort;
    PrefixedSorted(l);
    SortAscending(Paths(Prefixed(l)), Self);
  }

  lemma CanonicalOfPrefixed(l: seq<File>, budget: nat)
    requires Sorted(l)
    ensures var fs := Prefixed(l);
            Snapshot.BudgetValid(budget) && |fs| <= Snapshot.MAX_SNAPSHOT_FILES && AllSourcePaths(fs) &&
            TotalSize(fs) <= Snapshot.BudgetBytes(budget) ==>
            Canonical(fs, budget) == Some(Snapshot.Wire(fs))
  {
    hide Less, Sort, Snapshot.Wire, TotalSize, SourcePaths.ValidSourcePath;
    PrefixedSorted(l);
    SortAscending(Prefixed(l), PathOf);
    Snapshot.SortedDistinct(Prefixed(l));
  }

  /** The reading loop. */
  method ReadFiles(invoke: (seq<Byte>, seq<seq<Byte>>) -> ToolResult, paths: seq<Path>, budget: nat, ghost l: seq<File>)
    returns (r: Option<seq<File>>)
    requires Serves(invoke, l) && Sorted(l) && paths == Paths(Prefixed(l)) && budget <= 0x10_0000
    ensures var fs := Prefixed(l); r == if AllSourcePaths(fs) && TotalSize(fs) <= budget then Some(fs) else None
  {
    hide Less, Utf8.Valid, Serves, SourcePaths.HostBuildPath, TotalSize, Prefixed;
    NoBytes();
    ghost var fs := Prefixed(l);
    var files: seq<File> := [];
    var total := 0;
    var index := 0;
    while index < |paths|
      invariant index <= |paths| && files == fs[..index] && total == TotalSize(files) <= budget
      invariant AllSourcePaths(fs[..index])
    {
      var path := paths[index];
      if path == [] || !(SourcePaths.PREFIX <= path) || !SourcePaths.ValidSourcePath(path) {
        return None;
      }
      var requested := budget - total + 1;
      var result := invoke(READ, [path, ZERO, Decimal.Itoa(requested)]);
      ghost var content := fs[index].content;
      ReadOfPrefixed(invoke, l, index, requested);
      assert result.status == 0 && result.output == content[..Min(requested, |content|)];
      NextFile(fs, index);
      if |result.output| > budget - total {
        return None;
      }
      assert result.output == content;
      total := total + |result.output|;
      files := files + [File(path, result.output)];
      index := index + 1;
    }
    assert fs[..index] == fs;
    return Some(files);
  }

  lemma NextFile(fs: seq<File>, index: nat)
    requires index < |fs|
    ensures fs[..index + 1] == fs[..index] + [fs[index]]
    ensures TotalSize(fs[..index + 1]) == TotalSize(fs[..index]) + |fs[index].content| <= TotalSize(fs)
  {
    assert fs[..index + 1][..index] == fs[..index];
    Snapshot.TotalSizePrefix(fs, index + 1);
  }

  lemma NoBytes()
    ensures TotalSize([]) == 0
  {
  }

  lemma ReadOfPrefixed(invoke: (seq<Byte>, seq<seq<Byte>>) -> ToolResult, l: seq<File>, index: nat, length: nat)
    requires Serves(invoke, l) && Sorted(l) && index < |Prefixed(l)| && length <= 0x10_0001
    requires SourcePaths.ValidSourcePath(Prefixed(l)[index].path)
    ensures var f := Prefixed(l)[index];
            invoke(READ, [f.path, ZERO, Decimal.Itoa(length)]) == ToolResult(0, f.content[..Min(length, |f.content|)])
  {
    hide Less, Utf8.Valid, Serves, SourcePaths.HostBuildPath;
    var f := Prefixed(l)[index];
    assert f in l;
    var i :| 0 <= i < |l| && l[i] == f;
    ReadAnswer(invoke, l, i, length);
  }

  /** Whenever a capture succeeds it is byte for byte the snapshot the guest itself sends with a build request from
      the same store; it succeeds exactly when every path below "seed/" is a valid source path. */
  lemma CaptureAgreesWithGuest(l: seq<File>, budget: nat)
    requires Listing.Valid(l) && Snapshot.BudgetValid(budget)
    ensures Captured(l, budget).Some? <==> AllSourcePaths(Prefixed(l))
    ensures Captured(l, budget).Some? ==> Captured(l, budget).value == SourceSnapshot(l)
  {
    hide Less, SourcePaths.ValidSourcePath, Snapshot.Wire, TotalSize;
    PrefixedSorted(l);
    if AllSourcePaths(Prefixed(l)) { SelectedIsPrefixed(l); }
  }

  lemma {:induction false} SelectedIsPrefixed(l: seq<File>)
    requires AllSourcePaths(Prefixed(l))
    ensures Snapshot.Selected(l) == Prefixed(l)
  {
    hide Utf8.Valid, SourcePaths.SafeSeedPath, SourcePaths.HostBuildPath;
    if l != [] {
      var front, last := l[..|l| - 1], l[|l| - 1];
      SourcePaths.SafePathParts(last.path);
      SourcePaths.HostAndGuestPathsAgree(last.path);
      if SourcePaths.PREFIX <= last.path {
        assert Prefixed(l)[|Prefixed(l)| - 1] == last;
        assert forall i :: 0 <= i < |Prefixed(front)| ==> Prefixed(l)[i] == Prefixed(front)[i];
      }
      SelectedIsPrefixed(front);
    }
  }
}
