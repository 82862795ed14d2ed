/** Which paths may enter a source snapshot: the host splits a path into components, the guest scans it once. */
module SourcePaths {
  import opened Bytes
  import Utf8

  const NUL: Byte := 0
  const LF: Byte := 10
  const CR: Byte := 13
  const DOT: Byte := 46
  const SLASH: Byte := 47
  const SEED: seq<Byte> := [115, 101, 101, 100] // "seed"
  const PREFIX: seq<Byte> := [115, 101, 101, 100, 47] // "seed/"
  const MAX_PATH := 255

  // ---------------------------------------------------------------- splitting

  /** `strings.Split(s, sep)` for a one-byte separator. */
  function Split(s: seq<Byte>, sep: Byte): (parts: seq<seq<Byte>>)
    ensures parts != []
  {
    if s == [] then [[]]
    else
      var rest := Split(s[1..], sep);
      if s[0] == sep then [[]] + rest else [[s[0]] + rest[0]] + rest[1..]
  }

  function Join(parts: seq<seq<Byte>>, sep: Byte): seq<Byte>
    requires parts != []
  {
    if |parts| == 1 then parts[0] else parts[0] + [sep] + Join(parts[1..], sep)
  }

  lemma {:induction false} SplitPart(part: seq<Byte>, sep: Byte)
    requires sep !in part
    ensures Split(part, sep) == [part]
  {
    if part != [] {
      SplitPart(part[1..], sep);
      assert part == [part[0]] + part[1..];
    }
  }

  /** The first component ends at the first separator. */
  lemma {:induction false} SplitFirst(part: seq<Byte>, rest: seq<Byte>, sep: Byte)
    requires sep !in part
    ensures Split(part + [sep] + rest, sep) == [part] + Split(rest, sep)
  {
    var s := part + [sep] + rest;
    if part == [] {
      assert s[1..] == rest;
    } else {
      assert s[1..] == part[1..] + [sep] + rest;
      SplitFirst(part[1..], rest, sep);
      assert part == [part[0]] + part[1..];
    }
  }

  /** Splitting inverts joining for components without the separator. */
  lemma {:induction false} SplitJoin(parts: seq<seq<Byte>>, sep: Byte)
    requires parts != [] && forall i :: 0 <= i < |parts| ==> sep !in parts[i]
    ensures Split(Join(parts, sep), sep) == parts
  {
    if |parts| == 1 {
      SplitPart(parts[0], sep);
    } else {
      SplitJoin(parts[1..], sep);
      SplitFirst(parts[0], Join(parts[1..], sep), sep);
      assert parts == [parts[0]] + parts[1..];
    }
  }

  lemma {:induction false} JoinSplit(s: seq<Byte>, sep: Byte)
    ensures Join(Split(s, sep), sep) == s
    ensures forall i :: 0 <= i < |Split(s, sep)| ==> sep !in Split(s, sep)[i]
  {
    if s != [] {
      JoinSplit(s[1..], sep);
      var rest := Split(s[1..], sep);
      var parts := Split(s, sep);
      if s[0] == sep {
        assert parts[1..] == rest;
      } else {
        assert parts[0] == [s[0]] + rest[0] && parts[1..] == rest[1..];
        assert forall i :: 1 <= i < |parts| ==> parts[i] == rest[i];
      }
    }
  }

  // ---------------------------------------------------------------- accepted paths

  predicate ProperComponent(c: seq<Byte>) {
    c != [] && c != [DOT] && c != [DOT, DOT]
  }

  predicate AllProper(parts: seq<seq<Byte>>) {
    forall i :: 0 <= i < |parts| ==> ProperComponent(parts[i])
  }

  lemma AllProperCons(c: seq<Byte>, rest: seq<seq<Byte>>)
    ensures AllProper([c] + rest) <==> ProperComponent(c) && AllProper(rest)
  {
    var parts := [c] + rest;
    assert parts[0] == c && forall i :: 0 <= i < |rest| ==> parts[i + 1] == rest[i];
  }

  /** Two or more components, the first one "seed", none empty, "." or "..", and no NUL byte. */
  predicate SafeSeedPath(path: seq<Byte>) {
    var parts := Split(path, SLASH);
    NUL !in path && |parts| >= 2 && parts[0] == SEED && AllProper(parts)
  }

  /** The host's `validateBuildPath`. */
  predicate HostBuildPath(path: seq<Byte>) {
    var parts := Split(path, SLASH);
    NUL !in path && CR !in path && LF !in path && !(path != [] && path[0] == SLASH) &&
    |parts| >= 2 && parts[0] == SEED && AllProper(parts)
  }

  /** The host's `ValidateSourcePath`. */
  predicate ValidSourcePath(path: seq<Byte>) {
    Utf8.Valid(path) && 1 <= |path| <= MAX_PATH && HostBuildPath(path)
  }

  predicate NoLineBreak(path: seq<Byte>) {
    CR !in path && LF !in path
  }

  /** The host refuses carriage returns and line feeds; otherwise both ends accept the same paths. */
  lemma HostAndGuestPathsAgree(path: seq<Byte>)
    ensures HostBuildPath(path) <==> SafeSeedPath(path) && NoLineBreak(path)
  {
    if path != [] && path[0] == SLASH {
      SplitFirst([], path[1..], SLASH);
      assert path == [] + [SLASH] + path[1..];
    }
  }

  lemma SafePathParts(path: seq<Byte>)
    ensures PREFIX <= path ==> Split(path, SLASH) == [SEED] + Split(path[|PREFIX|..], SLASH)
    ensures SafeSeedPath(path) ==> PREFIX <= path
  {
    if PREFIX <= path {
      assert path == SEED + [SLASH] + path[|PREFIX|..];
      SplitFirst(SEED, path[|PREFIX|..], SLASH);
    }
    if SafeSeedPath(path) {
      JoinSplit(path, SLASH);
      var parts := Split(path, SLASH);
      assert path == SEED + [SLASH] + Join(parts[1..], SLASH);
    }
  }

  /** The guest's `build_path_valid`: one pass over the bytes with the start of the current component. */
  method BuildPathValid(path: seq<Byte>) returns (ok: bool)
    ensures ok <==> SafeSeedPath(path)
  {
    SafePathParts(path);
    if |path| <= |PREFIX| {
      if PREFIX <= path {
        assert path[|PREFIX|..] == [] && Split(path, SLASH)[1] == [];
      }
      return false;
    }
    var prefixed := HasPrefix(path);
    if !prefixed {
      return false;
    }
    var index := 0;
    while index < |path|
      invariant index <= |path|
      invariant forall k :: 0 <= k < index ==> path[k] != NUL
    {
      if path[index] == NUL {
        return false;
      }
      index := index + 1;
    }
    assert SafeSeedPath(path) <==> AllProper(Split(path[|PREFIX|..], SLASH)) by {
      AllProperCons(SEED, Split(path[|PREFIX|..], SLASH));
    }
    ok := ScanComponents(path);
  }

  method HasPrefix(path: seq<Byte>) returns (ok: bool)
    requires |path| >= |PREFIX|
    ensures ok <==> PREFIX <= path
  {
    var index := 0;
    while index < |PREFIX|
      invariant index <= |PREFIX|
      invariant forall k :: 0 <= k < index ==> path[k] == PREFIX[k]
    {
      if path[index] != PREFIX[index] {
        return false;
      }
      index := index + 1;
    }
    return true;
  }

  /** The component loop of `build_path_valid`. */
  method ScanComponents(path: seq<Byte>) returns (ok: bool)
    requires |path| > |PREFIX|
    ensures ok <==> AllProper(Split(path[|PREFIX|..], SLASH))
  {
    var start := |PREFIX|;
    var index := start;
    ghost var goal := AllProper(Split(path[start..], SLASH));
    while index <= |path|
      invariant |PREFIX| <= start <= index <= |path| + 1
      invariant index <= |path| ==> SLASH !in path[start..index]
      invariant index <= |path| ==> (goal <==> AllProper(Split(path[start..], SLASH)))
      invariant index > |path| ==> goal
    {
      if index != |path| && path[index] != SLASH {
        assert path[start..index + 1] == path[start..index] + [path[index]];
        index := index + 1;
        continue;
      }
      var component := path[start..index];
      ComponentStep(path, start, index);
      var length := index - start;
      if length == 0 || (length == 1 && path[start] == DOT) ||
         (length == 2 && path[start] == DOT && path[start + 1] == DOT) {
        assert !ProperComponent(component);
        return false;
      }
      assert ProperComponent(component);
      start := index + 1;
      index := index + 1;
    }
    return true;
  }

  lemma ComponentStep(path: seq<Byte>, start: nat, index: nat)
    requires start <= index <= |path| && SLASH !in path[start..index]
    requires index < |path| ==> path[index] == SLASH
    ensures var c := path[start..index];
            AllProper(Split(path[start..], SLASH)) <==>
            ProperComponent(c) && (index < |path| ==> AllProper(Split(path[index + 1..], SLASH)))
  {
    var c := path[start..index];
    if index == |path| {
      assert path[start..] == c;
      SplitPart(c, SLASH);
      AllProperCons(c, []);
      assert [c] + [] == [c];
    } else {
      assert path[start..] == c + [SLASH] + path[index + 1..];
      SplitFirst(c, path[index + 1..], SLASH);
      AllProperCons(c, Split(path[index + 1..], SLASH));
    }
  }
}
