/** Which files a snapshot holds, and how everything on the line is laid out, byte by byte. */
module SourceLaws {
  import opened Bytes
  import opened AsciiText
  import opened Listing
  import opened SourcePaths
  import Framing
  import Calls
  import Snapshot
  import GuestKernel

  // ---------------------------------------------------------------- accepted paths

  /** Bytes `i` to `j` lie between two slashes or an end of the path. */
  predicate Component(path: seq<Byte>, i: nat, j: nat) {
    i <= j <= |path| && (i == 0 || path[i - 1] == SLASH) && (j == |path| || path[j] == SLASH) &&
    forall k :: i <= k < j ==> path[k] != SLASH
  }

  /** Nothing between two slashes is empty, "." or "..". */
  ghost predicate NoDots(path: seq<Byte>) {
    forall i: nat, j: nat :: Component(path, i, j) ==> j - i >= 1 && path[i..j] != Ascii(".") && path[i..j] != Ascii("..")
  }

  lemma ProperMeans(c: seq<Byte>)
    ensures ProperComponent(c) <==> |c| >= 1 && c != Ascii(".") && c != Ascii("..")
  {
    assert Ascii(".") == [DOT] && Ascii("..") == [DOT, DOT];
  }

  /** A component after the first slash is one of the rest, shifted. */
  lemma ShiftedComponent(path: seq<Byte>, k: nat, i: nat, j: nat)
    requires k < |path| && path[k] == SLASH
    ensures Component(path[k + 1..], i, j) <==> Component(path, i + k + 1, j + k + 1)
    ensures Component(path[k + 1..], i, j) ==> path[k + 1..][i..j] == path[i + k + 1..j + k + 1]
  {
    var rest := path[k + 1..];
    assert forall m :: 0 <= m < |rest| ==> rest[m] == path[m + k + 1];
    assert 0 < i <= |rest| ==> rest[i - 1] == path[i + k];
    assert j < |rest| ==> rest[j] == path[j + k + 1];
    if Component(path, i + k + 1, j + k + 1) {
      assert forall m :: i <= m < j ==> rest[m] == path[m + k + 1] && path[m + k + 1] != SLASH;
    }
    if Component(rest, i, j) {
      forall m | i + k + 1 <= m < j + k + 1
        ensures path[m] != SLASH
      {
        assert path[m] == rest[m - k - 1];
      }
      assert rest[i..j] == path[i + k + 1..j + k + 1];
    }
  }

  /** The components of a path are what precedes its first slash and those of the rest. */
  lemma RestComponents(path: seq<Byte>, k: nat)
    requires k < |path| && path[k] == SLASH && forall m :: 0 <= m < k ==> path[m] != SLASH
    ensures NoDots(path) <==> ProperComponent(path[..k]) && NoDots(path[k + 1..])
  {
    hide Ascii;
    ProperMeans(path[..k]);
    var rest := path[k + 1..];
    if NoDots(path) {
      assert Component(path, 0, k) && path[0..k] == path[..k];
      forall i: nat, j: nat | Component(rest, i, j)
        ensures j - i >= 1 && rest[i..j] != Ascii(".") && rest[i..j] != Ascii("..")
      {
        ShiftedComponent(path, k, i, j);
      }
    }
    if ProperComponent(path[..k]) && NoDots(rest) {
      forall i: nat, j: nat | Component(path, i, j)
        ensures j - i >= 1 && path[i..j] != Ascii(".") && path[i..j] != Ascii("..")
      {
        if i <= k {
          assert i == 0 && j == k && path[i..j] == path[..k];
        } else {
          ShiftedComponent(path, k, i - k - 1, j - k - 1);
        }
      }
    }
  }

  lemma WholePath(path: seq<Byte>)
    requires SLASH !in path
    ensures NoDots(path) <==> ProperComponent(path)
  {
    hide Ascii;
    ProperMeans(path);
    assert Component(path, 0, |path|) && path[0..|path|] == path;
    assert forall m :: 0 <= m < |path| ==> path[m] != SLASH;
    assert forall i: nat, j: nat :: Component(path, i, j) ==> i == 0 && j == |path|;
  }

  lemma {:induction false} SplitNoDots(path: seq<Byte>)
    ensures AllProper(Split(path, SLASH)) <==> NoDots(path)
    decreases |path|
  {
    hide ProperComponent, NoDots, Split;
    if SLASH in path {
      var k := FirstSlash(path);
      var part, rest := path[..k], path[k + 1..];
      assert path == part + [SLASH] + rest;
      SplitFirst(part, rest, SLASH);
      AllProperCons(part, Split(rest, SLASH));
      RestComponents(path, k);
      SplitNoDots(rest);
    } else {
      SplitPart(path, SLASH);
      WholePath(path);
      assert AllProper([path]) <==> ProperComponent(path) by {
        AllProperCons(path, []);
        assert [path] + [] == [path];
      }
    }
  }

  function FirstSlash(path: seq<Byte>): (k: nat)
    requires SLASH in path
    ensures k < |path| && path[k] == SLASH && forall m :: 0 <= m < k ==> path[m] != SLASH
  {
    if path[0] == SLASH then 0 else 1 + FirstSlash(path[1..])
  }

  /** The paths a snapshot may hold: those below "seed/" with no empty, "." or ".." component and no NUL byte. */
  lemma SafePathLaw(path: seq<Byte>)
    ensures SafeSeedPath(path) <==> Ascii("seed/") <= path && 0 !in path && NoDots(path)
  {
    hide NoDots, AllProper;
    SplitNoDots(path);
    assert Ascii("seed/") == SEED + [SLASH];
    if SLASH in path {
      var k := FirstSlash(path);
      var part, rest := path[..k], path[k + 1..];
      assert path == part + [SLASH] + rest;
      SplitFirst(part, rest, SLASH);
      if part == SEED {
        assert SEED + [SLASH] <= path;
      }
      if SEED + [SLASH] <= path {
        assert path[4] == SLASH && forall m :: 0 <= m < 4 ==> path[m] == SEED[m] && SEED[m] != SLASH;
        assert k == 4 && part == SEED;
      }
    } else {
      SplitPart(path, SLASH);
      assert !(SEED + [SLASH] <= path) by {
        assert forall m :: 0 <= m < |path| ==> path[m] != SLASH;
        assert (SEED + [SLASH])[4] == SLASH;
      }
    }
  }

  /** A snapshot holds exactly the files of the store whose path is accepted, in the order of the store. */
  lemma {:induction false} SelectedLaw(l: seq<File>)
    requires Sorted(l)
    ensures Sorted(Snapshot.Selected(l))
    ensures forall f :: f in Snapshot.Selected(l) <==> f in l && SafeSeedPath(f.path)
  {
    hide Less, SafeSeedPath;
    Snapshot.SelectedSorted(l);
    if l != [] {
      var front, last := l[..|l| - 1], l[|l| - 1];
      SelectedLaw(front);
      assert l == front + [last];
    }
  }

  // ---------------------------------------------------------------- layouts

  /** The sixteen bytes of a header. */
  lemma HeaderLayout(messageType: U16, requestID: U32, length: U32)
    ensures var h := Framing.Header(messageType, requestID, length);
            |h| == 16 && h[..4] == Ascii("CXOS") && h[4] == 1 && h[5] == 0 &&
            h[6] as int + 0x100 * h[7] as int == messageType &&
            h[8] as int + 0x100 * h[9] as int + 0x1_0000 * h[10] as int + 0x100_0000 * h[11] as int == requestID &&
            h[12] as int + 0x100 * h[13] as int + 0x1_0000 * h[14] as int + 0x100_0000 * h[15] as int == length
  {
    var h := Framing.Header(messageType, requestID, length);
    assert h[..4] == Framing.MAGIC && Ascii("CXOS") == Framing.MAGIC;
    Framing.ReadWrittenHeader(messageType, requestID, length, []);
    assert h + [] == h;
  }

  /** A call: the length of its name in two bytes, the name, the number of arguments in two, and each argument with its
      length in four. */
  lemma CallLayout()
    ensures Calls.Wire(Calls.Call(Ascii("read"), [Ascii("a")])) ==
            [4, 0] + Ascii("read") + [1, 0] + [1, 0, 0, 0] + Ascii("a")
  {
    var a: seq<seq<Byte>> := [Ascii("a")];
    assert a[1..] == [];
    assert Calls.ArgumentsWire(a) == U32LE(1) + Ascii("a") + [];
  }

  /** A snapshot: the number of files in two bytes, and of each the length of its path in two, the path, the length of its
      content in four, and the content. */
  lemma SnapshotLayout()
    ensures Snapshot.Wire([File(Ascii("seed/a"), Ascii("xyz"))]) ==
            [1, 0] + [6, 0] + Ascii("seed/a") + [3, 0, 0, 0] + Ascii("xyz")
  {
    var fs := [File(Ascii("seed/a"), Ascii("xyz"))];
    assert fs[1..] == [];
    assert Snapshot.EntriesWire(fs) == Snapshot.EntryWire(fs[0]) + [];
  }

  /** What the kernel writes before anything else. */
  lemma Greetings()
    ensures Framing.READY == Ascii("CODEXOS-SEED-READY\n") && GuestKernel.STORE_ERROR == Ascii("CODEXOS-SEED-STORE-ERROR\n")
  {
  }
}
