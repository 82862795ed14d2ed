/** The guest's RAM file store: one packed byte array and a sorted table of extents, both changed in place. */
module FileStore {
  import opened Bytes
  import opened Listing

  datatype Entry = Entry(path: Path, offset: nat, length: nat)

  // ---------------------------------------------------------------- tables of extents

  ghost function End(e: Entry): nat {
    e.offset + e.length
  }

  ghost predicate InBounds(t: seq<Entry>, used: nat) {
    forall i :: 0 <= i < |t| ==> End(t[i]) <= used
  }

  /** One extent ends before the other begins. An empty extent may sit at either end of another, never inside. */
  ghost predicate Apart(a: Entry, b: Entry) {
    End(a) <= b.offset || End(b) <= a.offset
  }

  ghost predicate AllApart(t: seq<Entry>) {
    forall i, j :: 0 <= i < |t| && 0 <= j < |t| && i != j ==> Apart(t[i], t[j])
  }

  ghost function Extent(e: Entry, bytes: seq<Byte>): seq<Byte>
    requires End(e) <= |bytes|
  {
    bytes[e.offset..End(e)]
  }

  /** The files that a table and a byte array stand for. */
  ghost function Files(t: seq<Entry>, bytes: seq<Byte>): (l: seq<File>)
    requires InBounds(t, |bytes|)
    ensures |l| == |t|
    ensures forall i :: 0 <= i < |t| ==> l[i] == File(t[i].path, Extent(t[i], bytes))
  {
    seq(|t|, i requires 0 <= i < |t| => File(t[i].path, Extent(t[i], bytes)))
  }

  /** The representation invariant: disjoint extents inside the used part whose lengths add up to it, in a
      strictly sorted table. */
  ghost predicate Packed(t: seq<Entry>, bytes: seq<Byte>, used: nat) {
    |bytes| == CAPACITY && used <= CAPACITY && InBounds(t, used) && AllApart(t) &&
    Listing.Valid(Files(t, bytes)) && TotalSize(Files(t, bytes)) == used
  }

  /** The table after entry `i` takes length `length` and every entry at or past its old end moves along. */
  ghost function Resized(t: seq<Entry>, i: nat, length: nat): (t': seq<Entry>)
    requires i < |t| && AllApart(t)
    ensures |t'| == |t|
    ensures t'[i] == t[i].(length := length)
    ensures forall j :: 0 <= j < |t| && j != i ==> t'[j] == Moved(t[j], End(t[i]), length - t[i].length)
  {
    seq(|t|, j requires 0 <= j < |t| =>
      if j == i then t[i].(length := length) else Moved(t[j], End(t[i]), length - t[i].length))
  }

  ghost function Moved(e: Entry, end: nat, delta: int): Entry
    requires end + delta >= 0
  {
    if e.offset >= end then e.(offset := e.offset + delta) else e
  }

  /** The bytes below the end of the resized extent stay, those above it move by `delta`. */
  ghost predicate Shifted(before: seq<Byte>, after: seq<Byte>, used: nat, end: nat, delta: int) {
    |before| == |after| && end <= used <= |before| && 0 <= end + delta && used + delta <= |after| &&
    (forall k :: 0 <= k < end && k < end + delta ==> after[k] == before[k]) &&
    (forall k :: end <= k < used ==> after[k + delta] == before[k])
  }

  /** Whatever is written into the gap that growth opens leaves the shift intact. */
  lemma ShiftedGap(before: seq<Byte>, mid: seq<Byte>, after: seq<Byte>, used: nat, end: nat, growth: nat)
    requires Shifted(before, mid, used, end, growth) && |after| == |mid|
    requires forall k :: 0 <= k < end || end + growth <= k < |mid| ==> after[k] == mid[k]
    ensures Shifted(before, after, used, end, growth)
  {
  }

  lemma ResizedApart(t: seq<Entry>, used: nat, i: nat, length: nat)
    requires i < |t| && AllApart(t) && InBounds(t, used)
    ensures AllApart(Resized(t, i, length)) && InBounds(Resized(t, i, length), used + length - t[i].length)
  {
    var t' := Resized(t, i, length);
    forall j | 0 <= j < |t| && j != i ensures End(t'[j]) <= used + length - t[i].length && Apart(t'[j], t'[i]) {
      assert Apart(t[j], t[i]);
    }
  }

  /** Every other file keeps its bytes, and the resized one keeps as many as both lengths allow. */
  lemma ResizedExtents(t: seq<Entry>, before: seq<Byte>, after: seq<Byte>, used: nat, i: nat, length: nat)
    requires i < |t| && AllApart(t) && InBounds(t, used)
    requires Shifted(before, after, used, End(t[i]), length - t[i].length)
    ensures var t' := Resized(t, i, length);
            InBounds(t', |after|) &&
            (forall j :: 0 <= j < |t| && j != i ==> Extent(t'[j], after) == Extent(t[j], before)) &&
            (forall k :: 0 <= k < t[i].length && k < length ==> Extent(t'[i], after)[k] == Extent(t[i], before)[k])
  {
    ResizedApart(t, used, i, length);
    var t' := Resized(t, i, length);
    forall j | 0 <= j < |t| && j != i ensures Extent(t'[j], after) == Extent(t[j], before) {
      assert Apart(t[j], t[i]);
      MovedExtent(t[j], before, after, used, End(t[i]), length - t[i].length, t[i].length);
    }
  }

  lemma MovedExtent(e: Entry, before: seq<Byte>, after: seq<Byte>, used: nat, end: nat, delta: int, size: nat)
    requires Shifted(before, after, used, end, delta) && size <= end && size + delta >= 0
    requires End(e) <= used && (e.offset >= end || End(e) <= end - size)
    ensures var e' := Moved(e, end, delta); End(e') <= |after| && Extent(e', after) == Extent(e, before)
  {
    var e' := Moved(e, end, delta);
    forall k | 0 <= k < e.length ensures Extent(e', after)[k] == Extent(e, before)[k] {
      assert Extent(e, before)[k] == before[e.offset + k] && Extent(e', after)[k] == after[e'.offset + k];
      if e.offset >= end {
        assert after[(e.offset + k) + delta] == before[e.offset + k];
      } else {
        assert e.offset + k < end && e.offset + k < end + delta;
      }
    }
  }

  /** Writing inside one extent leaves every other file alone. */
  lemma OverwriteExtents(t: seq<Entry>, before: seq<Byte>, after: seq<Byte>, i: nat, offset: nat, data: seq<Byte>)
    requires i < |t| && AllApart(t) && InBounds(t, |before|) && offset + |data| <= t[i].length
    requires var at := t[i].offset + offset; after == before[..at] + data + before[at + |data|..]
    ensures forall j :: 0 <= j < |t| && j != i ==> Extent(t[j], after) == Extent(t[j], before)
    ensures Extent(t[i], after) == Splice(Extent(t[i], before), offset, data)
  {
    forall j | 0 <= j < |t| && j != i ensures Extent(t[j], after) == Extent(t[j], before) {
      assert Apart(t[j], t[i]);
      UntouchedSlice(before, after, t[j].offset, End(t[j]), t[i].offset + offset, data);
    }
    OverwrittenSlice(before, after, t[i].offset, End(t[i]), offset, data);
  }

  lemma UntouchedSlice(before: seq<Byte>, after: seq<Byte>, from: nat, to: nat, at: nat, data: seq<Byte>)
    requires from <= to <= |before| && at + |data| <= |before| && (from == to || to <= at || at + |data| <= from)
    requires after == before[..at] + data + before[at + |data|..]
    ensures after[from..to] == before[from..to]
  {
    forall k | from <= k < to ensures after[k] == before[k] {
      if k >= at + |data| {
        assert after[k] == before[at + |data|..][k - (at + |data|)];
      }
    }
  }

  lemma OverwrittenSlice(before: seq<Byte>, after: seq<Byte>, from: nat, to: nat, offset: nat, data: seq<Byte>)
    requires from + offset + |data| <= to <= |before|
    requires var at := from + offset; after == before[..at] + data + before[at + |data|..]
    ensures after[from..to] == Splice(before[from..to], offset, data)
  {
    var r := Splice(before[from..to], offset, data);
    assert |r| == to - from;
    forall k | 0 <= k < |r| ensures after[from..to][k] == r[k] {
      assert after[from..to][k] == after[from + k] && before[from..to][k] == before[from + k];
    }
  }

  /** A resized table over shifted bytes is packed again, and changes the one file only. */
  lemma ResizedPacked(t: seq<Entry>, before: seq<Byte>, after: seq<Byte>, used: nat, i: nat, length: nat)
    requires Packed(t, before, used) && i < |t|
    requires Shifted(before, after, used, End(t[i]), length - t[i].length)
    ensures var t' := Resized(t, i, length);
            Packed(t', after, used + length - t[i].length) &&
            ChangesOnly(Files(t, before), Files(t', after), i)
  {
    hide Less, AsMap, TotalSize, IndexOf;
    ResizedApart(t, used, i, length);
    ResizedExtents(t, before, after, used, i, length);
    var t' := Resized(t, i, length);
    var l := Files(t, before);
    assert Files(t', after) == l[i := File(t[i].path, Extent(t'[i], after))];
    UpdateRefines(l, i, Extent(t'[i], after));
    TotalSizeUpdate(l, i, File(t[i].path, Extent(t'[i], after)));
  }

  lemma ResizedOne(t: seq<Entry>, before: seq<Byte>, after: seq<Byte>, used: nat, i: nat, length: nat, zeroed: bool)
    requires Packed(t, before, used) && i < |t|
    requires Shifted(before, after, used, End(t[i]), length - t[i].length)
    requires zeroed ==> forall k :: End(t[i]) <= k < t[i].offset + length ==> after[k] == 0
    ensures InBounds(Resized(t, i, length), |after|)
    ensures ResizedContent(Extent(t[i], before), Extent(Resized(t, i, length)[i], after), length, zeroed)
  {
    hide Listing.Valid, TotalSize;
    ResizedExtents(t, before, after, used, i, length);
  }

  /** Only file `i` differs, and only in its content. */
  ghost predicate ChangesOnly(l: seq<File>, l': seq<File>, i: nat) {
    i < |l| == |l'| && l' == l[i := File(l[i].path, l'[i].content)]
  }

  /** As much of the old content as fits; `zeroed` says that growth, if any, is zero bytes. */
  ghost predicate ResizedContent(content: seq<Byte>, content': seq<Byte>, size: nat, zeroed: bool) {
    |content'| == size &&
    (forall k :: 0 <= k < |content| && k < size ==> content'[k] == content[k]) &&
    (zeroed ==> content' == Listing.Resize(content, size))
  }

  ghost function InsertEntry(t: seq<Entry>, k: nat, e: Entry): (r: seq<Entry>)
    requires k <= |t|
    ensures |r| == |t| + 1
    ensures forall j :: 0 <= j < |r| ==> r[j] == if j < k then t[j] else if j == k then e else t[j - 1]
  {
    t[..k] + [e] + t[k..]
  }

  ghost function RemoveEntry(t: seq<Entry>, k: nat): (r: seq<Entry>)
    requires k < |t|
    ensures |r| == |t| - 1
    ensures forall j :: 0 <= j < |r| ==> r[j] == if j < k then t[j] else t[j + 1]
  {
    t[..k] + t[k + 1..]
  }

  lemma CreatedExtents(t: seq<Entry>, before: seq<Byte>, after: seq<Byte>, used: nat, k: nat, path: Path, data: seq<Byte>)
    requires used + |data| <= |before| && InBounds(t, used) && AllApart(t) && k <= |t|
    requires after == before[..used] + data + before[used + |data|..]
    ensures var t' := InsertEntry(t, k, Entry(path, used, |data|));
            InBounds(t', used + |data|) && AllApart(t') && Extent(t'[k], after) == data &&
            forall j :: 0 <= j < |t| ==> Extent(t[j], after) == Extent(t[j], before)
  {
    forall j | 0 <= j < |t| ensures Extent(t[j], after) == Extent(t[j], before) {
      assert End(t[j]) <= used;
      UntouchedSlice(before, after, t[j].offset, End(t[j]), used, data);
    }
    InsertedApart(t, used, k, Entry(path, used, |data|));
    hide AllApart, InsertEntry;
  }

  lemma InsertedApart(t: seq<Entry>, used: nat, k: nat, e: Entry)
    requires InBounds(t, used) && AllApart(t) && k <= |t| && e.offset == used
    ensures InBounds(InsertEntry(t, k, e), End(e)) && AllApart(InsertEntry(t, k, e))
  {
    var t' := InsertEntry(t, k, e);
    forall i | 0 <= i < |t'| && i != k ensures End(t'[i]) <= used {
      assert t'[i] == t[if i < k then i else i - 1];
    }
  }

  /** A new extent after everything used so far. */
  lemma CreatedPacked(t: seq<Entry>, before: seq<Byte>, after: seq<Byte>, used: nat, k: nat, path: Path, data: seq<Byte>)
    requires Packed(t, before, used) && k == InsertionPoint(Files(t, before), path)
    requires IndexOf(Files(t, before), path).None? && CanCreate(Files(t, before), path, data)
    requires after == before[..used] + data + before[used + |data|..]
    ensures var t' := InsertEntry(t, k, Entry(path, used, |data|));
            Packed(t', after, used + |data|) && Files(t', after) == InsertAt(Files(t, before), k, File(path, data))
  {
    hide Less, AsMap, TotalSize, IndexOf, InsertionPoint, AllApart;
    var l := Files(t, before);
    var t' := InsertEntry(t, k, Entry(path, used, |data|));
    CreatedExtents(t, before, after, used, k, path, data);
    assert Files(t', after) == InsertAt(l, k, File(path, data));
    InsertionPointSplits(l, path);
    InsertRefines(l, k, File(path, data));
    TotalSizeInsert(l, k, File(path, data));
  }

  /** An empty extent may be dropped from the table without touching a byte. */
  lemma DroppedPacked(t: seq<Entry>, bytes: seq<Byte>, used: nat, i: nat)
    requires Packed(t, bytes, used) && i < |t| && t[i].length == 0
    ensures Packed(RemoveEntry(t, i), bytes, used)
    ensures Files(RemoveEntry(t, i), bytes) == RemoveAt(Files(t, bytes), i)
  {
    hide Less, AsMap, TotalSize, IndexOf;
    var l := Files(t, bytes);
    assert Files(RemoveEntry(t, i), bytes) == RemoveAt(l, i);
    RemoveRefines(l, i);
    TotalSizeRemove(l, i);
  }

  /** Taking nothing away shifts nothing. */
  lemma NothingShifted(t: seq<Entry>, bytes: seq<Byte>, used: nat, i: nat)
    requires i < |t| && AllApart(t) && InBounds(t, used) && used <= |bytes|
    ensures t[i].length == 0 ==> Shifted(bytes, bytes, used, End(t[i]), 0) && t[i := t[i].(length := 0)] == Resized(t, i, 0)
  {
    hide AllApart;
  }

  lemma SameWithout(t: seq<Entry>, i: nat, e: Entry)
    requires i < |t|
    ensures RemoveEntry(t[i := e], i) == RemoveEntry(t, i)
  {
  }

  /** Removing a file from the listing does not depend on its content. */
  lemma RemovedFiles(t: seq<Entry>, before: seq<Byte>, after: seq<Byte>, i: nat)
    requires i < |t| && AllApart(t) && InBounds(t, |before|) && InBounds(Resized(t, i, 0), |after|)
    requires ChangesOnly(Files(t, before), Files(Resized(t, i, 0), after), i)
    ensures RemoveAt(Files(Resized(t, i, 0), after), i) == RemoveAt(Files(t, before), i)
  {
    hide AllApart, Files, Resized;
  }

  lemma InsertionPointUnique(l: seq<File>, path: Path, k: nat)
    requires k <= |l| && (forall i :: 0 <= i < k ==> Less(l[i].path, path))
    requires k < |l| ==> !Less(l[k].path, path)
    ensures k == InsertionPoint(l, path)
  {
    hide Less, InsertionPoint;
    var ip := InsertionPoint(l, path);
  }

  // ---------------------------------------------------------------- the store

  class Store {
    const contents: array<Byte>
    const files: array<Entry>
    var contentUsed: nat
    var fileCount: nat

    ghost predicate Valid()
      reads this, contents, files
    {
      files.Length == MAX_FILES && fileCount <= MAX_FILES && contents.Length == CAPACITY &&
      Packed(files[..fileCount], contents[..], contentUsed)
    }

    /** The files this store holds, in table order. */
    ghost function Contents(): seq<File>
      reads this, contents, files
      requires Valid()
    {
      Files(files[..fileCount], contents[..])
    }

    constructor ()
      ensures Valid() && Contents() == [] && fresh(contents) && fresh(files)
    {
      contents := new Byte[CAPACITY](_ => 0);
      files := new Entry[MAX_FILES](_ => Entry([], 0, 0));
      contentUsed := 0;
      fileCount := 0;
      new;
      assert Files(files[..fileCount], contents[..]) == [];
    }

    method PathAt(i: nat) returns (path: Path)
      requires Valid() && i < fileCount
      ensures path == Contents()[i].path
    {
      hide Less, TotalSize, AllApart, Listing.Valid;
      return files[i].path;
    }

    /** `file_content` and `file_size`. */
    method ContentAt(i: nat) returns (content: seq<Byte>)
      requires Valid() && i < fileCount
      ensures content == Contents()[i].content
    {
      hide Less, TotalSize, AllApart, Listing.Valid;
      return contents[files[i].offset..files[i].offset + files[i].length];
    }

    /** `file_find`. */
    method Find(path: Path) returns (r: Option<nat>)
      requires Valid()
      ensures r == IndexOf(Contents(), path)
    {
      ghost var l := Contents();
      assert Sorted(l) && |l| == fileCount;
      hide Less, TotalSize, AllApart, Packed, Sorted, IndexOf;
      var index := 0;
      while index < fileCount
        invariant index <= fileCount
        invariant forall i :: 0 <= i < index ==> l[i].path != path
      {
        assert l[index].path == files[index].path;
        if files[index].path == path {
          IndexUnique(l, index);
          return Some(index);
        }
        index := index + 1;
      }
      return None;
    }

    /** The growing loop of `resize_file`: the tail moves up, last byte first. */
    method ShiftUp(end: nat, growth: nat)
      requires end <= contentUsed && contentUsed + growth <= contents.Length
      modifies contents
      ensures Shifted(old(contents[..]), contents[..], contentUsed, end, growth)
    {
      ghost var before := contents[..];
      var index := contentUsed;
      while index > end
        invariant end <= index <= contentUsed
        invariant forall k :: 0 <= k < index ==> contents[k] == before[k]
        invariant forall k :: index <= k < contentUsed ==> contents[k + growth] == before[k]
      {
        contents[index + growth - 1] := contents[index - 1];
        index := index - 1;
      }
    }

    /** The shrinking loop of `resize_file` and `file_remove`: the tail moves down, first byte first. */
    method ShiftDown(end: nat, shrinkage: nat)
      requires shrinkage <= end <= contentUsed <= contents.Length
      modifies contents
      ensures Shifted(old(contents[..]), contents[..], contentUsed, end, -(shrinkage as int))
    {
      ghost var before := contents[..];
      var index := end;
      while index < contentUsed
        invariant end <= index <= contentUsed
        invariant forall k :: 0 <= k < end - shrinkage ==> contents[k] == before[k]
        invariant forall k :: end <= k < index ==> contents[k - shrinkage] == before[k]
        invariant forall k :: index <= k < contentUsed ==> contents[k] == before[k]
      {
        contents[index - shrinkage] := contents[index];
        index := index + 1;
      }
    }

    /** The offset loops: every other entry at or past `end` moves by `delta`. */
    method PatchOffsets(skip: nat, end: nat, delta: int)
      requires fileCount <= files.Length && skip < fileCount && end + delta >= 0
      modifies files
      ensures files[skip] == old(files[skip])
      ensures forall j :: 0 <= j < fileCount && j != skip ==> files[j] == Moved(old(files[j]), end, delta)
    {
      var index := 0;
      while index < fileCount
        invariant index <= fileCount && files[skip] == old(files[skip])
        invariant forall j :: 0 <= j < index && j != skip ==> files[j] == Moved(old(files[j]), end, delta)
        invariant forall j :: index <= j < fileCount ==> files[j] == old(files[j])
      {
        if index != skip && files[index].offset >= end {
          files[index] := files[index].(offset := files[index].offset + delta);
        }
        index := index + 1;
      }
    }

    /** All but the entry itself is then as after a resize. */
    method MoveOthers(i: nat, length: nat)
      requires fileCount <= files.Length && i < fileCount && AllApart(files[..fileCount])
      modifies files
      ensures files[i] == old(files[i])
      ensures files[..fileCount][i := files[i].(length := length)] == Resized(old(files[..fileCount]), i, length)
    {
      hide AllApart, Moved;
      ghost var t := files[..fileCount];
      PatchOffsets(i, files[i].offset + files[i].length, length - files[i].length);
      assert forall j :: 0 <= j < fileCount && j != i ==> files[j] == Moved(t[j], End(t[i]), length - t[i].length);
    }

    /** The table part of a resize. */
    method ResizeEntry(i: nat, length: nat)
      requires fileCount <= files.Length && i < fileCount && AllApart(files[..fileCount])
      modifies files
      ensures files[..fileCount] == Resized(old(files[..fileCount]), i, length)
    {
      hide AllApart, Resized;
      MoveOthers(i, length);
      ghost var t := files[..fileCount];
      files[i] := files[i].(length := length);
      assert files[..fileCount] == t[i := files[i]];
    }

    /** The content part of `file_remove`: what lies past the extent moves down over it. */
    method CloseExtent(i: nat)
      requires fileCount <= files.Length && i < fileCount && AllApart(files[..fileCount])
      requires InBounds(files[..fileCount], contentUsed) && contentUsed <= contents.Length
      modifies this`contentUsed, contents, files
      ensures var t := old(files[..fileCount]);
              Shifted(old(contents[..]), contents[..], old(contentUsed), End(t[i]), -(t[i].length as int)) &&
              files[..fileCount][i := files[i].(length := 0)] == Resized(t, i, 0)
      ensures contentUsed == old(contentUsed) - old(files[i].length)
    {
      hide AllApart, Resized, Shifted;
      var size, end := files[i].length, files[i].offset + files[i].length;
      assert End(files[..fileCount][i]) <= contentUsed;
      NothingShifted(files[..fileCount], contents[..], contentUsed, i);
      if size != 0 {
        ShiftDown(end, size);
        MoveOthers(i, 0);
        contentUsed := contentUsed - size;
      }
    }

    /** The two content loops of the growing branch: the tail moves up and the gap is zeroed on demand. */
    method OpenGap(end: nat, growth: nat, zeroGrowth: bool)
      requires end <= contentUsed && contentUsed + growth <= contents.Length
      modifies contents
      ensures Shifted(old(contents[..]), contents[..], contentUsed, end, growth)
      ensures zeroGrowth ==> forall k :: end <= k < end + growth ==> contents[k] == 0
    {
      ghost var before := contents[..];
      ShiftUp(end, growth);
      ghost var shifted := contents[..];
      if zeroGrowth {
        var index := end;
        while index < end + growth
          invariant end <= index <= end + growth
          invariant forall k :: end <= k < index ==> contents[k] == 0
          invariant forall k :: 0 <= k < end || index <= k < contents.Length ==> contents[k] == shifted[k]
        {
          contents[index] := 0;
          index := index + 1;
        }
      }
      ShiftedGap(before, shifted, contents[..], contentUsed, end, growth);
    }

    /** The growing branch of `resize_file`. */
    method Grow(i: nat, newSize: nat, zeroGrowth: bool)
      requires Valid() && i < fileCount && newSize > files[i].length
      requires newSize - files[i].length <= CAPACITY - contentUsed
      modifies this, contents, files
      ensures Valid() && ChangesOnly(old(Contents()), Contents(), i)
      ensures ResizedContent(old(Contents()[i].content), Contents()[i].content, newSize, zeroGrowth)
      ensures fileCount == old(fileCount)
    {
      hide Less, TotalSize, Listing.Valid, AllApart, Files;
      ghost var t, before, used := files[..fileCount], contents[..], contentUsed;
      var end, growth := files[i].offset + files[i].length, newSize - files[i].length;
      assert Packed(t, before, used) && AllApart(t) && end == End(t[i]) <= used;
      hide Packed, Resized, Shifted, ChangesOnly, ResizedContent;
      OpenGap(end, growth, zeroGrowth);
      ResizeEntry(i, newSize);
      contentUsed := contentUsed + growth;
      ResizedPacked(t, before, contents[..], used, i, newSize);
      ResizedOne(t, before, contents[..], used, i, newSize, zeroGrowth);
    }

    /** The shrinking branch of `resize_file`. */
    method Shrink(i: nat, newSize: nat)
      requires Valid() && i < fileCount && newSize < files[i].length
      modifies this, contents, files
      ensures Valid() && ChangesOnly(old(Contents()), Contents(), i)
      ensures ResizedContent(old(Contents()[i].content), Contents()[i].content, newSize, true)
      ensures fileCount == old(fileCount)
    {
      hide Less, TotalSize, Listing.Valid, AllApart, Files;
      ghost var t, before, used := files[..fileCount], contents[..], contentUsed;
      var end, shrinkage := files[i].offset + files[i].length, files[i].length - newSize;
      assert Packed(t, before, used) && AllApart(t) && end == End(t[i]) <= used <= CAPACITY;
      hide Packed, Resized, Shifted, ChangesOnly, ResizedContent;
      ShiftDown(end, shrinkage);
      ResizeEntry(i, newSize);
      contentUsed := contentUsed - shrinkage;
      ResizedPacked(t, before, contents[..], used, i, newSize);
      ResizedOne(t, before, contents[..], used, i, newSize, true);
    }

    /** `copy_bytes` into the packed array. */
    method CopyIn(at: nat, data: seq<Byte>)
      requires at + |data| <= contents.Length
      modifies contents
      ensures contents[..] == old(contents[..at]) + data + old(contents[at + |data|..])
    {
      var index := 0;
      while index < |data|
        invariant index <= |data|
        invariant forall k :: 0 <= k < index ==> contents[at + k] == data[k]
        invariant forall k :: 0 <= k < at || at + index <= k < contents.Length ==> contents[k] == old(contents[k])
      {
        contents[at + index] := data[index];
        index := index + 1;
      }
      ghost var goal := old(contents[..at]) + data + old(contents[at + |data|..]);
      forall k | 0 <= k < contents.Length ensures contents[..][k] == goal[k] {
        if at <= k < at + |data| { assert contents[at + (k - at)] == data[k - at]; }
      }
    }

    /** The search loop of `create_file`: the place for `path`, or None when it is taken. */
    method FindInsertion(path: Path) returns (r: Option<nat>)
      requires Valid()
      ensures r.None? <==> IndexOf(Contents(), path).Some?
      ensures r.Some? ==> r.value == InsertionPoint(Contents(), path)
    {
      hide Less, InsertionPoint;
      var insertion := 0;
      ghost var l := Contents();
      while insertion < fileCount
        invariant insertion <= fileCount
        invariant forall i :: 0 <= i < insertion ==> Less(l[i].path, path)
      {
        assert l[insertion].path == files[insertion].path;
        var order := ComparePaths(files[insertion].path, path);
        if order == 0 {
          return None;
        }
        if order > 0 {
          break;
        }
        insertion := insertion + 1;
      }
      AbsentAt(l, path, insertion);
      return Some(insertion);
    }

    /** The table loop of `create_file`: entries from `k` on move up by one. */
    method OpenSlot(k: nat)
      requires k <= fileCount < files.Length
      modifies files
      ensures forall j :: 0 <= j < k ==> files[j] == old(files[j])
      ensures forall j :: k <= j < fileCount ==> files[j + 1] == old(files[j])
    {
      var index := fileCount;
      while index > k
        invariant k <= index <= fileCount
        invariant forall j :: 0 <= j < index ==> files[j] == old(files[j])
        invariant forall j :: index <= j < fileCount ==> files[j + 1] == old(files[j])
      {
        files[index] := files[index - 1];
        index := index - 1;
      }
    }

    /** The table loop of `file_remove`: entries past `k` move down by one. */
    method CloseSlot(k: nat)
      requires k < fileCount <= files.Length
      modifies files
      ensures files[..fileCount - 1] == RemoveEntry(old(files[..fileCount]), k)
    {
      var index := k;
      while index + 1 < fileCount
        invariant k <= index < fileCount
        invariant forall j :: 0 <= j < k ==> files[j] == old(files[j])
        invariant forall j :: k < j <= index ==> files[j - 1] == old(files[j])
        invariant forall j :: index < j < fileCount ==> files[j] == old(files[j])
      {
        files[index] := files[index + 1];
        index := index + 1;
      }
      ghost var t := old(files[..fileCount]);
      assert forall j :: k <= j < fileCount - 1 ==> files[j] == t[j + 1];
    }

    /** The table part of a creation. */
    method InsertSlot(k: nat, e: Entry)
      requires k <= fileCount < files.Length
      modifies files
      ensures files[..fileCount + 1] == InsertEntry(old(files[..fileCount]), k, e)
    {
      ghost var t := files[..fileCount];
      OpenSlot(k);
      files[k] := e;
      assert forall j :: k < j < fileCount + 1 ==> files[j] == t[j - 1];
    }

    /** The tail of `create_file`, once the request is known to fit. */
    method InsertFile(k: nat, path: Path, data: seq<Byte>)
      requires Valid() && IndexOf(Contents(), path).None? && CanCreate(Contents(), path, data)
      requires k == InsertionPoint(Contents(), path)
      modifies this, contents, files
      ensures Valid() && Contents() == InsertAt(old(Contents()), k, File(path, data))
    {
      hide Less, TotalSize, Listing.Valid, InsertionPoint, IndexOf, AllApart, Files;
      ghost var t, before, used := files[..fileCount], contents[..], contentUsed;
      assert Packed(t, before, used) && used == TotalSize(Contents()) && |Contents()| == fileCount;
      assert fileCount < MAX_FILES && used + |data| <= CAPACITY;
      hide Packed, InsertEntry, InsertAt;
      InsertSlot(k, Entry(path, contentUsed, |data|));
      CopyIn(contentUsed, data);
      contentUsed := contentUsed + |data|;
      fileCount := fileCount + 1;
      CreatedPacked(t, before, contents[..], used, k, path, data);
    }

    /** `create_file`. */
    method CreateFile(path: Path, data: seq<Byte>) returns (ok: bool)
      requires Valid()
      modifies this, contents, files
      ensures Valid()
      ensures ok <==> Create(old(Contents()), path, data).Some?
      ensures Contents() == if ok then Create(old(Contents()), path, data).value else old(Contents())
    {
      hide Less, TotalSize, Listing.Valid, InsertionPoint, IndexOf;
      if |path| == 0 || |path| > MAX_PATH || fileCount >= MAX_FILES || |data| > CAPACITY - contentUsed {
        return false;
      }
      var slot := FindInsertion(path);
      if slot.None? {
        return false;
      }
      InsertFile(slot.value, path, data);
      return true;
    }

    /** `resize_file`. Growth is refused only when the free space, all of it at the end, is too short. */
    method ResizeFile(i: nat, newSize: nat, zeroGrowth: bool) returns (ok: bool)
      requires Valid() && i < fileCount
      modifies this, contents, files
      ensures Valid() && fileCount == old(fileCount)
      ensures ok <==> newSize - |old(Contents())[i].content| <= CAPACITY - TotalSize(old(Contents()))
      ensures ok ==> ChangesOnly(old(Contents()), Contents(), i)
      ensures ok ==> ResizedContent(old(Contents()[i].content), Contents()[i].content, newSize, zeroGrowth)
      ensures !ok ==> Contents() == old(Contents())
    {
      hide Less, TotalSize, Listing.Valid;
      if newSize == files[i].length {
        return true;
      }
      if newSize > files[i].length {
        if newSize - files[i].length > CAPACITY - contentUsed {
          return false;
        }
        Grow(i, newSize, zeroGrowth);
      } else {
        Shrink(i, newSize);
      }
      return true;
    }

    /** The copy at the end of `file_write`, inside an extent that is large enough. */
    method Overwrite(i: nat, offset: nat, data: seq<Byte>)
      requires Valid() && i < fileCount && offset + |data| <= files[i].length
      modifies contents
      ensures Valid()
      ensures var l := old(Contents()); Contents() == l[i := File(l[i].path, Splice(l[i].content, offset, data))]
    {
      hide Less, TotalSize, Listing.Valid;
      ghost var t, before, l := files[..fileCount], contents[..], Contents();
      CopyIn(files[i].offset + offset, data);
      OverwriteExtents(t, before, contents[..], i, offset, data);
      ghost var file := File(l[i].path, Splice(l[i].content, offset, data));
      assert Files(t, contents[..]) == l[i := file];
      TotalSizeUpdate(l, i, file);
      UpdateRefines(l, i, file.content);
    }

    /** `file_write`. */
    method WriteFile(path: Path, offset: nat, data: seq<Byte>) returns (ok: bool)
      requires Valid()
      modifies this, contents, files
      ensures Valid()
      ensures ok <==> Write(old(Contents()), path, offset, data).Some?
      ensures Contents() == if ok then Write(old(Contents()), path, offset, data).value else old(Contents())
    {
      hide Less, TotalSize, Listing.Valid, InsertionPoint, IndexOf;
      var found := Find(path);
      if found.None? {
        if offset != 0 {
          return false;
        }
        ok := CreateFile(path, data);
        return;
      }
      var i := found.value;
      ok := WriteExisting(i, offset, data);
    }

    /** `file_write` on a file that exists. */
    method WriteExisting(i: nat, offset: nat, data: seq<Byte>) returns (ok: bool)
      requires Valid() && i < fileCount
      modifies this, contents, files
      ensures Valid()
      ensures var content := old(Contents())[i].content;
              ok <==> offset <= |content| && offset + |data| <= CAPACITY &&
                      offset + |data| - |content| <= CAPACITY - TotalSize(old(Contents()))
      ensures var l := old(Contents());
              Contents() == if ok then l[i := File(l[i].path, Splice(l[i].content, offset, data))] else l
    {
      hide Less, TotalSize, Listing.Valid;
      ghost var l := Contents();
      if offset > files[i].length || |data| > CAPACITY - offset {
        return false;
      }
      var newSize := offset + |data|;
      if newSize > files[i].length {
        var resized := ResizeFile(i, newSize, false);
        if !resized {
          return false;
        }
      }
      ghost var grown := Contents()[i].content;
      Overwrite(i, offset, data);
      assert Splice(grown, offset, data) == Splice(l[i].content, offset, data);
      return true;
    }

    /** `file_truncate`. */
    method TruncateFile(path: Path, size: nat) returns (ok: bool)
      requires Valid()
      modifies this, contents, files
      ensures Valid()
      ensures ok <==> Truncate(old(Contents()), path, size).Some?
      ensures Contents() == if ok then Truncate(old(Contents()), path, size).value else old(Contents())
    {
      hide Less, TotalSize, Listing.Valid, IndexOf;
      var found := Find(path);
      if found.None? {
        return false;
      }
      ok := ResizeFile(found.value, size, true);
    }

    /** `file_remove`. */
    method RemoveFile(path: Path) returns (ok: bool)
      requires Valid()
      modifies this, contents, files
      ensures Valid()
      ensures ok <==> Remove(old(Contents()), path).Some?
      ensures Contents() == if ok then Remove(old(Contents()), path).value else old(Contents())
    {
      hide Less, TotalSize, Listing.Valid, IndexOf;
      var found := Find(path);
      if found.None? {
        return false;
      }
      RemoveEntryAt(found.value);
      return true;
    }

    /** `file_remove` on a file that exists. */
    method RemoveEntryAt(i: nat)
      requires Valid() && i < fileCount
      modifies this, contents, files
      ensures Valid() && Contents() == RemoveAt(old(Contents()), i)
    {
      hide Less, TotalSize, Listing.Valid, AllApart, Files;
      ghost var t, before, used := files[..fileCount], contents[..], contentUsed;
      assert Packed(t, before, used) && AllApart(t) && InBounds(t, used) && used <= CAPACITY;
      hide Packed, Resized, Shifted, RemoveEntry, RemoveAt, ChangesOnly, InBounds;
      CloseExtent(i);
      SameWithout(files[..fileCount], i, files[i].(length := 0));
      CloseSlot(i);
      fileCount := fileCount - 1;
      ResizedPacked(t, before, contents[..], used, i, 0);
      DroppedPacked(Resized(t, i, 0), contents[..], contentUsed, i);
      RemovedFiles(t, before, contents[..], i);
    }

    /** `files_init`: the embedded files, in order; false leaves the guest halted. */
    method FilesInit(initial: seq<File>) returns (ok: bool)
      requires Valid()
      modifies this, contents, files
      ensures Valid()
      ensures ok <==> Embed(initial).Some?
      ensures ok ==> Contents() == Embed(initial).value
    {
      hide Less, TotalSize, Listing.Valid, IndexOf;
      fileCount := 0;
      contentUsed := 0;
      EmptyPacked(contents[..]);
      assert files[..fileCount] == [];
      if |initial| > MAX_FILES {
        EmbedBound(initial);
        return false;
      }
      var index := 0;
      while index < |initial|
        invariant index <= |initial| && Valid()
        invariant Embed(initial[..index]) == Some(Contents())
      {
        assert initial[..index + 1][..index] == initial[..index];
        var created := CreateFile(initial[index].path, initial[index].content);
        if !created {
          EmbedFails(initial, index + 1);
          return false;
        }
        index := index + 1;
      }
      assert initial[..index] == initial;
      return true;
    }
  }

  // ---------------------------------------------------------------- the embedded files

  /** All files created in order from an empty store; None when one of them is refused. */
  ghost function Embed(initial: seq<File>): Option<seq<File>> {
    if initial == [] then Some([])
    else match Embed(initial[..|initial| - 1])
      case None => None
      case Some(l) => Create(l, initial[|initial| - 1].path, initial[|initial| - 1].content)
  }

  lemma EmptyPacked(bytes: seq<Byte>)
    requires |bytes| == CAPACITY
    ensures Packed([], bytes, 0) && Files([], bytes) == []
  {
  }

  lemma {:induction false} EmbedBound(initial: seq<File>)
    ensures Embed(initial).Some? ==> |Embed(initial).value| == |initial| <= MAX_FILES
  {
    hide Less, TotalSize, IndexOf;
    if initial != [] { EmbedBound(initial[..|initial| - 1]); }
  }

  lemma {:induction false} EmbedFails(initial: seq<File>, n: nat)
    requires n <= |initial| && Embed(initial[..n]).None?
    ensures Embed(initial).None?
  {
    hide Create;
    if n == |initial| {
      assert initial[..n] == initial;
    } else {
      assert initial[..|initial| - 1][..n] == initial[..n];
      EmbedFails(initial[..|initial| - 1], n);
    }
  }

  lemma AbsentAt(l: seq<File>, path: Path, k: nat)
    requires Sorted(l) && k <= |l| && (forall i :: 0 <= i < k ==> Less(l[i].path, path))
    requires k < |l| ==> Less(path, l[k].path)
    ensures IndexOf(l, path).None? && k == InsertionPoint(l, path)
  {
    hide Less, InsertionPoint;
    if k < |l| { LessAsymmetric(path, l[k].path); }
    InsertionPointUnique(l, path, k);
    forall i | 0 <= i < |l| ensures l[i].path != path {
      if i < k {
        LessAsymmetric(l[i].path, path);
      } else {
        if k < i { LessTransitive(path, l[k].path, l[i].path); }
        LessAsymmetric(path, l[i].path);
      }
    }
  }
}
