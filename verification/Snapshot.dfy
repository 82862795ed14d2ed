/** Source snapshots: their wire form, the host's decoder and validator, and the guest's writer. */
module Snapshot {
  import opened Bytes
  import opened Listing
  import Utf8
  import SourcePaths
  import Calls

  const MAX_SNAPSHOT_FILES := 128
  const DEFAULT_BUDGET := 64 * 1024
  const EXPANDED_BUDGET := 1024 * 1024
  /** Two bytes of count and at most 128 entries of framing and path, plus a full store. */
  const MAX_GUEST_SNAPSHOT := 2 + 128 * (2 + 255 + 4) + 64 * 1024

  /** A source budget in bytes as configured; zero stands for the default. */
  function BudgetBytes(budget: nat): nat {
    if budget == 0 then DEFAULT_BUDGET else budget
  }

  predicate BudgetValid(budget: nat) {
    BudgetBytes(budget) == DEFAULT_BUDGET || BudgetBytes(budget) == EXPANDED_BUDGET
  }

  // ---------------------------------------------------------------- wire form

  function EntryWire(f: File): (b: seq<Byte>)
    ensures |b| == 6 + |f.path| + |f.content|
  {
    U16LE(|f.path|) + f.path + U32LE(|f.content|) + f.content
  }

  function EntriesWire(fs: seq<File>): (b: seq<Byte>) {
    if fs == [] then [] else EntryWire(fs[0]) + EntriesWire(fs[1..])
  }

  function Wire(fs: seq<File>): (b: seq<Byte>) {
    U16LE(|fs|) + EntriesWire(fs)
  }

  lemma {:induction false} EntriesAppend(fs: seq<File>, f: File)
    ensures EntriesWire(fs + [f]) == EntriesWire(fs) + EntryWire(f)
  {
    if fs == [] {
      assert [f][1..] == [];
    } else {
      EntriesAppend(fs[1..], f);
      assert (fs + [f])[1..] == fs[1..] + [f];
    }
  }

  // ---------------------------------------------------------------- validation

  ghost predicate DistinctPaths(fs: seq<File>) {
    forall i, j :: 0 <= i < j < |fs| ==> fs[i].path != fs[j].path
  }

  /** What `validateSnapshotFiles` promises about the files it lets through. */
  ghost predicate ValidFiles(fs: seq<File>, budget: nat) {
    BudgetValid(budget) && |fs| <= MAX_SNAPSHOT_FILES && DistinctPaths(fs) && TotalSize(fs) <= BudgetBytes(budget) &&
    forall i :: 0 <= i < |fs| ==> SourcePaths.ValidSourcePath(fs[i].path)
  }

  /** `validateSnapshotFiles`: one pass with the set of paths seen and the bytes counted so far. */
  method ValidateFiles(fs: seq<File>, budget: nat) returns (ok: bool)
    ensures ok <==> ValidFiles(fs, budget)
  {
    hide SourcePaths.ValidSourcePath;
    if !BudgetValid(budget) || |fs| > MAX_SNAPSHOT_FILES {
      return false;
    }
    var seen: set<Path> := {};
    var total := 0;
    var index := 0;
    while index < |fs|
      invariant index <= |fs| && seen == set i | 0 <= i < index :: fs[i].path
      invariant total == TotalSize(fs[..index]) <= BudgetBytes(budget)
      invariant DistinctPaths(fs[..index])
      invariant forall i :: 0 <= i < index ==> SourcePaths.ValidSourcePath(fs[i].path)
    {
      var file := fs[index];
      if !SourcePaths.ValidSourcePath(file.path) || file.path in seen {
        return false;
      }
      seen := seen + {file.path};
      assert fs[..index + 1][..index] == fs[..index];
      if |file.content| > BudgetBytes(budget) - total {
        TotalSizePrefix(fs, index + 1);
        return false;
      }
      total := total + |file.content|;
      index := index + 1;
    }
    assert fs[..index] == fs;
    return true;
  }

  lemma TotalSizePrefix(fs: seq<File>, n: nat)
    requires n <= |fs|
    ensures TotalSize(fs[..n]) <= TotalSize(fs)
  {
    assert fs == fs[..n] + fs[n..];
    TotalSizeConcat(fs[..n], fs[n..]);
  }

  // ---------------------------------------------------------------- decoding

  /** One entry off the front, within `left` bytes of remaining content budget. */
  function TakeEntry(s: seq<Byte>, left: nat): (r: Option<(File, seq<Byte>)>)
    ensures r.Some? ==> |r.value.0.content| <= left
  {
    if |s| < 2 then None
    else
      var pathEnd := 2 + ReadU16(s);
      if pathEnd == 2 || pathEnd > 2 + SourcePaths.MAX_PATH || pathEnd > |s| || !Utf8.Valid(s[2..pathEnd]) then None
      else match TakeContent(s[pathEnd..], left)
        case None => None
        case Some((content, rest)) => Some((File(s[2..pathEnd], content), rest))
  }

  function TakeContent(s: seq<Byte>, left: nat): (r: Option<(seq<Byte>, seq<Byte>)>)
    ensures r.Some? ==> |r.value.0| <= left
  {
    if |s| < 4 || ReadU32(s) > left then None else Calls.TakeArgument(s)
  }

  function Prepend(done: seq<File>, r: Option<seq<File>>): (all: Option<seq<File>>)
    ensures done == [] ==> all == r
  {
    match r
    case None => None
    case Some(rest) => assert done == [] ==> done + rest == rest; Some(done + rest)
  }

  lemma PrependPrepend(a: seq<File>, b: seq<File>, r: Option<seq<File>>)
    ensures Prepend(a, Prepend(b, r)) == Prepend(a + b, r)
  {
    if r.Some? {
      assert a + (b + r.value) == a + b + r.value;
    }
  }

  function TakeEntries(count: nat, s: seq<Byte>, left: nat): (r: Option<seq<File>>)
    decreases count
  {
    if count == 0 then (if s == [] then Some([]) else None)
    else match TakeEntry(s, left)
      case None => None
      case Some((f, rest)) => Prepend([f], TakeEntries(count - 1, rest, left - |f.content|))
  }

  function Parse(data: seq<Byte>, budget: nat): (r: Option<seq<File>>) {
    if !BudgetValid(budget) || |data| < 2 || ReadU16(data) > MAX_SNAPSHOT_FILES then None
    else TakeEntries(ReadU16(data), data[2..], BudgetBytes(budget))
  }

  /** What `ParseSourceSnapshotWithBudget` accepts, and the files it returns. */
  ghost function Decode(data: seq<Byte>, budget: nat): (r: Option<seq<File>>) {
    var parsed := Parse(data, budget);
    if parsed.Some? && ValidFiles(parsed.value, budget) then parsed else None
  }

  lemma TakeEntryWire(f: File, rest: seq<Byte>, left: nat)
    requires 1 <= |f.path| <= SourcePaths.MAX_PATH && Utf8.Valid(f.path)
    requires |f.content| <= left && |f.content| < 0x1_0000_0000
    ensures TakeEntry(EntryWire(f) + rest, left) == Some((f, rest))
  {
    hide Utf8.Valid;
    var tail := U32LE(|f.content|) + f.content + rest;
    var s := EntryWire(f) + rest;
    assert s == U16LE(|f.path|) + (f.path + tail);
    U16RoundTrip(|f.path|, f.path + tail);
    assert s[2..2 + |f.path|] == f.path && s[2 + |f.path|..] == tail;
    assert tail == U32LE(|f.content|) + (f.content + rest);
    U32RoundTrip(|f.content|, f.content + rest);
    Calls.TakeArgumentWire(f.content, rest);
  }

  lemma TakenEntryWire(s: seq<Byte>, left: nat)
    requires TakeEntry(s, left).Some?
    ensures var (f, rest) := TakeEntry(s, left).value; EntryWire(f) + rest == s
  {
    hide Utf8.Valid, Calls.TakeArgument;
    U16Reread(s);
    var pathEnd := 2 + ReadU16(s);
    var tail := s[pathEnd..];
    Calls.TakenArgumentWire(tail);
    assert s == s[..2] + s[2..pathEnd] + tail;
    var (f, rest) := TakeEntry(s, left).value;
    assert EntryWire(f) + rest == U16LE(|f.path|) + f.path + (U32LE(|f.content|) + f.content + rest);
  }

  lemma {:induction false} TakeEntriesWire(fs: seq<File>, left: nat)
    requires forall i :: 0 <= i < |fs| ==> 1 <= |fs[i].path| <= SourcePaths.MAX_PATH && Utf8.Valid(fs[i].path)
    requires TotalSize(fs) <= left < 0x1_0000_0000
    ensures TakeEntries(|fs|, EntriesWire(fs), left) == Some(fs)
  {
    hide Utf8.Valid, TakeEntry, EntryWire;
    if fs != [] {
      assert fs == [fs[0]] + fs[1..];
      TotalSizeConcat([fs[0]], fs[1..]);
      assert [fs[0]][..0] == [];
      TakeEntryWire(fs[0], EntriesWire(fs[1..]), left);
      TakeEntriesWire(fs[1..], left - |fs[0].content|);
    }
  }

  lemma {:induction false} TakenEntriesWire(count: nat, s: seq<Byte>, left: nat)
    requires TakeEntries(count, s, left).Some?
    ensures var fs := TakeEntries(count, s, left).value; |fs| == count && EntriesWire(fs) == s
    decreases count
  {
    hide TakeEntry, EntryWire;
    if count > 0 {
      TakenEntryWire(s, left);
      var (f, rest) := TakeEntry(s, left).value;
      TakenEntriesWire(count - 1, rest, left - |f.content|);
      assert TakeEntries(count, s, left).value[1..] == TakeEntries(count - 1, rest, left - |f.content|).value;
    }
  }

  /** Decoding inverts encoding on every file list the host accepts. */
  lemma DecodeEncoded(fs: seq<File>, budget: nat)
    requires ValidFiles(fs, budget)
    ensures Decode(Wire(fs), budget) == Some(fs)
  {
    hide TakeEntries, EntriesWire;
    U16RoundTrip(|fs|, EntriesWire(fs));
    assert Wire(fs)[2..] == EntriesWire(fs);
    TakeEntriesWire(fs, BudgetBytes(budget));
  }

  /** Whatever decodes is the encoding of the accepted files it decodes to, so the framing is a bijection. */
  lemma EncodeDecoded(data: seq<Byte>, budget: nat)
    requires Decode(data, budget).Some?
    ensures ValidFiles(Decode(data, budget).value, budget) && Wire(Decode(data, budget).value) == data
  {
    hide TakeEntries, EntriesWire;
    U16Reread(data);
    TakenEntriesWire(ReadU16(data), data[2..], BudgetBytes(budget));
    assert data == data[..2] + data[2..];
  }

  // ---------------------------------------------------------------- the host's loops

  /** `encodeSnapshotFiles`: a buffer of the computed size, filled left to right. */
  method EncodeFiles(fs: seq<File>) returns (encoded: seq<Byte>)
    ensures encoded == Wire(fs)
  {
    hide EntryWire;
    var size := 2;
    var index := 0;
    while index < |fs|
      invariant index <= |fs|
      invariant size + |EntriesWire(fs[index..])| == |Wire(fs)|
    {
      size := size + 2 + |fs[index].path| + 4 + |fs[index].content|;
      assert fs[index..][1..] == fs[index + 1..];
      index := index + 1;
    }
    var buffer := new Byte[size];
    Calls.Store(buffer, 0, U16LE(|fs|));
    var offset: nat := 2;
    index := 0;
    assert fs[0..] == fs;
    while index < |fs|
      invariant index <= |fs| && offset <= buffer.Length == |Wire(fs)|
      invariant Wire(fs) == buffer[..offset] + EntriesWire(fs[index..])
    {
      assert fs[index..][1..] == fs[index + 1..];
      StoreEntry(buffer, offset, fs[index]);
      offset := offset + |EntryWire(fs[index])|;
      index := index + 1;
    }
    assert buffer[..] == buffer[..offset];
    return buffer[..];
  }

  /** One round of the filling loop. */
  method StoreEntry(buffer: array<Byte>, offset: nat, f: File)
    requires offset + |EntryWire(f)| <= buffer.Length
    modifies buffer
    ensures buffer[..offset + |EntryWire(f)|] == old(buffer[..offset]) + EntryWire(f)
  {
    Calls.Store(buffer, offset, U16LE(|f.path|));
    Calls.Store(buffer, offset + 2, f.path);
    Calls.Store(buffer, offset + 2 + |f.path|, U32LE(|f.content|));
    Calls.Store(buffer, offset + 6 + |f.path|, f.content);
  }

  /** `decodeSnapshotFiles`: a moving offset and a running content total, then validation of the result. */
  method DecodeFiles(data: seq<Byte>, budget: nat) returns (r: Option<seq<File>>)
    ensures r == Decode(data, budget)
  {
    hide Parse, ValidFiles;
    var files := ParseFiles(data, budget);
    if files.None? {
      return None;
    }
    var ok := ValidateFiles(files.value, budget);
    return if ok then files else None;
  }

  method ParseFiles(data: seq<Byte>, budget: nat) returns (r: Option<seq<File>>)
    ensures r == Parse(data, budget)
  {
    hide TakeEntries;
    if !BudgetValid(budget) {
      return None;
    }
    var decoder := new Calls.Decoder(data);
    var countBytes := decoder.Bytes(2);
    if countBytes.None? {
      return None;
    }
    var count := ReadU16(countBytes.value);
    assert count == ReadU16(data) && decoder.Rest() == data[2..];
    if count > MAX_SNAPSHOT_FILES {
      return None;
    }
    r := DecodeEntries(decoder, count, BudgetBytes(budget));
  }

  method DecodeEntries(decoder: Calls.Decoder, count: nat, budget: nat) returns (r: Option<seq<File>>)
    requires decoder.Valid()
    modifies decoder
    ensures r == TakeEntries(count, old(decoder.Rest()), budget)
  {
    hide TakeEntry;
    ghost var goal := TakeEntries(count, decoder.Rest(), budget);
    var files: seq<File> := [];
    var total := 0;
    var index := 0;
    while index < count
      invariant index <= count && 0 <= total <= budget && decoder.Valid()
      invariant goal == Prepend(files, TakeEntries(count - index, decoder.Rest(), budget - total))
    {
      var file := DecodeEntry(decoder, budget - total);
      if file.None? {
        return None;
      }
      var left := budget - total - |file.value.content|;
      PrependPrepend(files, [file.value], TakeEntries(count - index - 1, decoder.Rest(), left));
      total := total + |file.value.content|;
      files := files + [file.value];
      index := index + 1;
    }
    if decoder.offset != |decoder.data| {
      return None;
    }
    assert decoder.Rest() == [] && files + [] == files;
    return Some(files);
  }

  /** One round of the entry loop of `decodeSnapshotFiles`. */
  method DecodeEntry(decoder: Calls.Decoder, left: nat) returns (r: Option<File>)
    requires decoder.Valid()
    modifies decoder
    ensures decoder.Valid()
    ensures match TakeEntry(old(decoder.Rest()), left)
            case None => r == None
            case Some((file, rest)) => r == Some(file) && decoder.Rest() == rest
  {
    hide Utf8.Valid, TakeContent;
    ghost var s := decoder.Rest();
    var lengthBytes := decoder.Bytes(2);
    if lengthBytes.None? {
      return None;
    }
    var pathLength := ReadU16(lengthBytes.value);
    assert pathLength == ReadU16(s) && decoder.Rest() == s[2..];
    if pathLength == 0 || pathLength > SourcePaths.MAX_PATH {
      return None;
    }
    var path := decoder.Bytes(pathLength);
    if path.None? {
      return None;
    }
    assert path.value == s[2..2 + pathLength] && decoder.Rest() == s[2 + pathLength..];
    if !Utf8.Valid(path.value) {
      return None;
    }
    var content := DecodeContent(decoder, left);
    match content
    case None => return None;
    case Some(value) => return Some(File(path.value, value));
  }

  method DecodeContent(decoder: Calls.Decoder, left: nat) returns (r: Option<seq<Byte>>)
    requires decoder.Valid()
    modifies decoder
    ensures decoder.Valid()
    ensures match TakeContent(old(decoder.Rest()), left)
            case None => r == None
            case Some((content, rest)) => r == Some(content) && decoder.Rest() == rest
  {
    ghost var s := decoder.Rest();
    var lengthBytes := decoder.Bytes(4);
    if lengthBytes.None? {
      return None;
    }
    var length := ReadU32(lengthBytes.value);
    assert length == ReadU32(s) && decoder.Rest() == s[4..];
    if length > left {
      return None;
    }
    r := decoder.Bytes(length);
    if r.Some? {
      assert r.value == s[4..4 + length] && decoder.Rest() == s[4 + length..];
    }
  }

  // ---------------------------------------------------------------- the guest's snapshot

  /** The files that the guest puts into a snapshot, in table order. */
  function Selected(l: seq<File>): (fs: seq<File>)
    ensures |fs| <= |l|
    ensures forall i :: 0 <= i < |fs| ==> fs[i] in l && SourcePaths.SafeSeedPath(fs[i].path)
  {
    if l == [] then []
    else
      var front, last := Selected(l[..|l| - 1]), l[|l| - 1];
      if SourcePaths.SafeSeedPath(last.path) then front + [last] else front
  }

  lemma {:induction false} SelectedSorted(l: seq<File>)
    requires Sorted(l)
    ensures Sorted(Selected(l)) && TotalSize(Selected(l)) <= TotalSize(l)
  {
    hide Less, SourcePaths.SafeSeedPath;
    if l != [] {
      var front, last := l[..|l| - 1], l[|l| - 1];
      SelectedSorted(front);
      SortedWith(front, Selected(front), last);
      hide Sorted;
    }
  }

  /** A selection from sorted files stays sorted when the next one is added. */
  lemma SortedWith(front: seq<File>, fs: seq<File>, last: File)
    requires Sorted(front + [last]) && Sorted(fs) && forall f :: f in fs ==> f in front
    ensures Sorted(fs + [last]) && TotalSize(fs + [last]) == TotalSize(fs) + |last.content|
  {
    hide Less;
    forall i | 0 <= i < |fs|
      ensures Less(fs[i].path, last.path)
    {
      assert fs[i] in front;
      var k :| 0 <= k < |front| && front[k] == fs[i];
      assert (front + [last])[k] == front[k] && (front + [last])[|front|] == last;
    }
    assert (fs + [last])[..|fs|] == fs;
  }

  lemma {:induction false} EntriesWireLength(fs: seq<File>)
    requires forall i :: 0 <= i < |fs| ==> |fs[i].path| <= Listing.MAX_PATH
    ensures |EntriesWire(fs)| <= |fs| * (2 + Listing.MAX_PATH + 4) + TotalSize(fs)
  {
    if fs != [] {
      EntriesWireLength(fs[1..]);
      assert fs == [fs[0]] + fs[1..];
      TotalSizeConcat([fs[0]], fs[1..]);
      assert [fs[0]][..0] == [];
    }
  }

  /** A guest snapshot always fits the bound, so measuring one never fails and it always fits a frame. */
  lemma GuestSnapshotFits(l: seq<File>)
    requires Listing.Valid(l)
    ensures |Wire(Selected(l))| <= MAX_GUEST_SNAPSHOT && |Selected(l)| <= MAX_SNAPSHOT_FILES
  {
    SelectedSorted(l);
    var fs := Selected(l);
    assert forall i :: 0 <= i < |fs| ==> fs[i] in l;
    EntriesWireLength(fs);
    assert |fs| * 261 <= 128 * 261;
  }

  ghost predicate WithinFields(fs: seq<File>) {
    forall i :: 0 <= i < |fs| ==> |fs[i].path| <= SourcePaths.MAX_PATH && |fs[i].content| < 0x1_0000_0000
  }

  lemma SelectedWithinFields(l: seq<File>)
    requires Listing.Valid(l)
    ensures WithinFields(Selected(l)) && forall i :: 0 <= i < |Selected(l)| ==> |Selected(l)[i].path| >= 1
  {
    hide Less, SourcePaths.SafeSeedPath;
    var fs := Selected(l);
    SelectedSorted(l);
    forall i | 0 <= i < |fs| ensures 1 <= |fs[i].path| <= SourcePaths.MAX_PATH && |fs[i].content| < 0x1_0000_0000 {
      assert fs[i] in l;
      TotalSizeAround(fs, i);
    }
  }

  /** The host takes the guest's snapshot exactly when every selected path is UTF-8 and free of line breaks,
      and then reads back the very files selected. */
  lemma GuestSnapshotAccepted(l: seq<File>, budget: nat)
    requires Listing.Valid(l) && BudgetValid(budget)
    ensures Decode(Wire(Selected(l)), budget).Some? <==>
            forall i :: 0 <= i < |Selected(l)| ==>
              Utf8.Valid(Selected(l)[i].path) && SourcePaths.NoLineBreak(Selected(l)[i].path)
    ensures Decode(Wire(Selected(l)), budget).Some? ==> Decode(Wire(Selected(l)), budget) == Some(Selected(l))
  {
    hide Less, Utf8.Valid, SourcePaths.HostBuildPath, SourcePaths.SafeSeedPath, SourcePaths.NoLineBreak;
    hide Decode, Wire, TotalSize, DistinctPaths, Selected;
    var fs := Selected(l);
    SelectedSorted(l);
    SelectedWithinFields(l);
    SortedDistinct(fs);
    forall i | 0 <= i < |fs|
      ensures SourcePaths.ValidSourcePath(fs[i].path) <==>
              Utf8.Valid(fs[i].path) && SourcePaths.NoLineBreak(fs[i].path)
    {
      SourcePaths.HostAndGuestPathsAgree(fs[i].path);
    }
    WireAccepted(fs, budget);
  }

  /** The wire form of any files whose sizes fit their fields is accepted exactly when the files are valid. */
  lemma WireAccepted(fs: seq<File>, budget: nat)
    requires WithinFields(fs) && |fs| <= MAX_SNAPSHOT_FILES
    ensures Decode(Wire(fs), budget) == if ValidFiles(fs, budget) then Some(fs) else None
  {
    hide Parse, Wire;
    if ValidFiles(fs, budget) {
      DecodeEncoded(fs, budget);
    } else if Decode(Wire(fs), budget).Some? {
      WireInjective(fs, budget);
    }
  }

  lemma SortedDistinct(fs: seq<File>)
    requires Sorted(fs)
    ensures DistinctPaths(fs)
  {
    hide Less;
    forall i, j | 0 <= i < j < |fs| ensures fs[i].path != fs[j].path {
      LessAsymmetric(fs[i].path, fs[j].path);
    }
  }

  lemma WireInjective(fs: seq<File>, budget: nat)
    requires Decode(Wire(fs), budget).Some? && |fs| <= MAX_SNAPSHOT_FILES && WithinFields(fs)
    ensures Decode(Wire(fs), budget) == Some(fs)
  {
    hide EntriesWire;
    EncodeDecoded(Wire(fs), budget);
    var gs := Decode(Wire(fs), budget).value;
    U16RoundTrip(|fs|, EntriesWire(fs));
    U16RoundTrip(|gs|, EntriesWire(gs));
    assert Wire(fs)[2..] == EntriesWire(fs) && Wire(gs)[2..] == EntriesWire(gs);
    ValidSizes(gs, budget);
    EntriesInjective(fs, gs);
  }

  lemma ValidSizes(gs: seq<File>, budget: nat)
    requires ValidFiles(gs, budget)
    ensures WithinFields(gs)
  {
    hide SourcePaths.HostBuildPath, Utf8.Valid;
    forall i | 0 <= i < |gs| ensures |gs[i].content| <= TotalSize(gs) {
      TotalSizeAround(gs, i);
    }
  }

  lemma {:induction false} EntriesInjective(fs: seq<File>, gs: seq<File>)
    requires |fs| == |gs| && EntriesWire(fs) == EntriesWire(gs) && WithinFields(fs) && WithinFields(gs)
    ensures fs == gs
  {
    if fs != [] {
      EntryInjective(fs[0], EntriesWire(fs[1..]), gs[0], EntriesWire(gs[1..]));
      EntriesInjective(fs[1..], gs[1..]);
      assert fs == [fs[0]] + fs[1..] && gs == [gs[0]] + gs[1..];
    }
  }

  lemma EntryInjective(f: File, a: seq<Byte>, g: File, b: seq<Byte>)
    requires EntryWire(f) + a == EntryWire(g) + b
    requires |f.path| <= SourcePaths.MAX_PATH && |f.content| < 0x1_0000_0000
    requires |g.path| <= SourcePaths.MAX_PATH && |g.content| < 0x1_0000_0000
    ensures f == g && a == b
  {
    EntryParts(f, a);
    EntryParts(g, b);
  }

  /** Where the parts of an entry are in its wire form. */
  lemma EntryParts(f: File, rest: seq<Byte>)
    requires |f.path| <= SourcePaths.MAX_PATH && |f.content| < 0x1_0000_0000
    ensures var s := EntryWire(f) + rest;
            ReadU16(s) == |f.path| && s[2..2 + |f.path|] == f.path &&
            Calls.TakeArgument(s[2 + |f.path|..]) == Some((f.content, rest))
  {
    var tail := U32LE(|f.content|) + f.content + rest;
    var s := EntryWire(f) + rest;
    assert s == U16LE(|f.path|) + (f.path + tail);
    U16RoundTrip(|f.path|, f.path + tail);
    assert s[2..2 + |f.path|] == f.path && s[2 + |f.path|..] == tail;
    Calls.TakeArgumentWire(f.content, rest);
  }
}
