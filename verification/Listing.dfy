/** What the guest's file store means: an ordered list of files, which in turn is a map from path to bytes. */
module Listing {
  import opened Bytes

  const CAPACITY := 64 * 1024
  const MAX_FILES := 128
  const MAX_PATH := 255

  type Path = seq<Byte>
  datatype File = File(path: Path, content: seq<Byte>)

  // ---------------------------------------------------------------- path order

  /** Bytewise lexicographic order, a proper prefix first. */
  predicate Less(a: Path, b: Path) {
    b != [] && (a == [] || a[0] < b[0] || (a[0] == b[0] && Less(a[1..], b[1..])))
  }

  lemma {:induction false} LessIrreflexive(a: Path)
    ensures !Less(a, a)
  {
    if a != [] { LessIrreflexive(a[1..]); }
  }

  lemma {:induction false} LessTransitive(a: Path, b: Path, c: Path)
    requires Less(a, b) && Less(b, c)
    ensures Less(a, c)
  {
    if a != [] && a[0] == b[0] == c[0] { LessTransitive(a[1..], b[1..], c[1..]); }
  }

  lemma {:induction false} LessTotal(a: Path, b: Path)
    ensures Less(a, b) || a == b || Less(b, a)
  {
    if a != [] && b != [] && a[0] == b[0] {
      LessTotal(a[1..], b[1..]);
      if a[1..] == b[1..] {
        assert a == [a[0]] + a[1..] && b == [b[0]] + b[1..];
      }
    }
  }

  lemma LessAsymmetric(a: Path, b: Path)
    requires Less(a, b)
    ensures !Less(b, a) && a != b
  {
    LessIrreflexive(a);
    if Less(b, a) { LessTransitive(a, b, a); }
  }

  /** The guest's `compare_paths`: negative, zero or positive. */
  method ComparePaths(left: Path, right: Path) returns (order: int)
    ensures order < 0 <==> Less(left, right)
    ensures order == 0 <==> left == right
    ensures order > 0 <==> Less(right, left)
  {
    var shared := Min(|left|, |right|);
    var index := 0;
    while index < shared
      invariant index <= shared && left[..index] == right[..index]
      invariant Less(left, right) == Less(left[index..], right[index..])
      invariant Less(right, left) == Less(right[index..], left[index..])
    {
      LessIrreflexive([]);
      if left[index] < right[index] {
        return -1;
      }
      if left[index] > right[index] {
        return 1;
      }
      assert left[index..][1..] == left[index + 1..] && right[index..][1..] == right[index + 1..];
      index := index + 1;
    }
    assert |left| == |right| ==> left == left[..index] && right == right[..index];
    if |left| < |right| {
      return -1;
    }
    return if |left| > |right| then 1 else 0;
  }

  // ---------------------------------------------------------------- ordered files

  ghost predicate Sorted(l: seq<File>) {
    forall i, j :: 0 <= i < j < |l| ==> Less(l[i].path, l[j].path)
  }

  function TotalSize(l: seq<File>): nat {
    if l == [] then 0 else TotalSize(l[..|l| - 1]) + |l[|l| - 1].content|
  }

  ghost predicate Valid(l: seq<File>) {
    Sorted(l) && |l| <= MAX_FILES && TotalSize(l) <= CAPACITY &&
    forall i :: 0 <= i < |l| ==> 1 <= |l[i].path| <= MAX_PATH
  }

  /** Where `path` is in the list; there is one such place in a sorted list. */
  ghost function IndexOf(l: seq<File>, path: Path): (r: Option<nat>)
    ensures r.Some? ==> r.value < |l| && l[r.value].path == path
    ensures r.None? ==> forall i :: 0 <= i < |l| ==> l[i].path != path
  {
    if i: nat :| i < |l| && l[i].path == path then Some(i) else None
  }

  lemma IndexUnique(l: seq<File>, i: nat)
    requires Sorted(l) && i < |l|
    ensures IndexOf(l, l[i].path) == Some(i)
  {
    var k := IndexOf(l, l[i].path).value;
    LessIrreflexive(l[i].path);
  }

  /** The first position whose path is not below `path`. */
  function InsertionPoint(l: seq<File>, path: Path): (k: nat)
    ensures k <= |l|
    ensures forall i :: 0 <= i < k ==> Less(l[i].path, path)
    ensures k < |l| ==> !Less(l[k].path, path)
  {
    if l == [] || !Less(l[0].path, path) then 0 else 1 + InsertionPoint(l[1..], path)
  }

  function InsertAt(l: seq<File>, k: nat, file: File): (r: seq<File>)
    requires k <= |l|
    ensures |r| == |l| + 1
    ensures forall j :: 0 <= j < |r| ==> r[j] == if j < k then l[j] else if j == k then file else l[j - 1]
  {
    l[..k] + [file] + l[k..]
  }

  function RemoveAt(l: seq<File>, k: nat): (r: seq<File>)
    requires k < |l|
    ensures |r| == |l| - 1
    ensures forall j :: 0 <= j < |r| ==> r[j] == if j < k then l[j] else l[j + 1]
  {
    l[..k] + l[k + 1..]
  }

  function Splice(content: seq<Byte>, offset: nat, data: seq<Byte>): seq<Byte>
    requires offset <= |content|
  {
    var end := offset + |data|;
    content[..offset] + data + (if end < |content| then content[end..] else [])
  }

  function Resize(content: seq<Byte>, size: nat): (r: seq<Byte>)
    ensures |r| == size
  {
    if size <= |content| then content[..size] else content + seq(size - |content|, _ => 0)
  }

  predicate CanCreate(l: seq<File>, path: Path, data: seq<Byte>) {
    1 <= |path| <= MAX_PATH && |l| < MAX_FILES && |data| <= CAPACITY - TotalSize(l)
  }

  /** `create_file`. */
  ghost function Create(l: seq<File>, path: Path, data: seq<Byte>): Option<seq<File>> {
    if IndexOf(l, path).None? && CanCreate(l, path, data)
    then Some(InsertAt(l, InsertionPoint(l, path), File(path, data)))
    else None
  }

  /** `file_write`: None is failure. */
  ghost function Write(l: seq<File>, path: Path, offset: nat, data: seq<Byte>): Option<seq<File>> {
    match IndexOf(l, path)
    case None => if offset == 0 then Create(l, path, data) else None
    case Some(i) =>
      var content := l[i].content;
      if offset > |content| || offset + |data| > CAPACITY then None
      else if offset + |data| - |content| > CAPACITY - TotalSize(l) then None
      else Some(l[i := File(path, Splice(content, offset, data))])
  }

  /** `file_truncate`. */
  ghost function Truncate(l: seq<File>, path: Path, size: nat): Option<seq<File>> {
    match IndexOf(l, path)
    case None => None
    case Some(i) =>
      if size - |l[i].content| > CAPACITY - TotalSize(l) then None
      else Some(l[i := File(path, Resize(l[i].content, size))])
  }

  /** `file_remove`. */
  ghost function Remove(l: seq<File>, path: Path): Option<seq<File>> {
    match IndexOf(l, path)
    case None => None
    case Some(i) => Some(RemoveAt(l, i))
  }

  // ---------------------------------------------------------------- sizes and order under the operations

  lemma {:induction false} TotalSizeConcat(a: seq<File>, b: seq<File>)
    ensures TotalSize(a + b) == TotalSize(a) + TotalSize(b)
  {
    if b == [] {
      assert a + b == a;
    } else {
      TotalSizeConcat(a, b[..|b| - 1]);
      assert (a + b)[..|a + b| - 1] == a + b[..|b| - 1];
    }
  }

  lemma TotalSizeAround(l: seq<File>, i: nat)
    requires i < |l|
    ensures TotalSize(l) == TotalSize(l[..i]) + |l[i].content| + TotalSize(l[i + 1..])
  {
    assert l == l[..i] + ([l[i]] + l[i + 1..]);
    TotalSizeConcat(l[..i], [l[i]] + l[i + 1..]);
    TotalSizeConcat([l[i]], l[i + 1..]);
    assert [l[i]][..0] == [];
  }

  lemma TotalSizeUpdate(l: seq<File>, i: nat, file: File)
    requires i < |l|
    ensures TotalSize(l[i := file]) == TotalSize(l) - |l[i].content| + |file.content|
  {
    TotalSizeAround(l, i);
    TotalSizeAround(l[i := file], i);
    assert l[i := file][..i] == l[..i] && l[i := file][i + 1..] == l[i + 1..];
  }

  lemma TotalSizeInsert(l: seq<File>, k: nat, file: File)
    requires k <= |l|
    ensures TotalSize(InsertAt(l, k, file)) == TotalSize(l) + |file.content|
  {
    hide Less, AsMap, IndexOf, TotalSize;
    var m := InsertAt(l, k, file);
    InsertParts(l, k, file);
    hide InsertAt;
    TotalSizeAround(m, k);
    TotalSizeConcat(l[..k], l[k..]);
  }

  lemma InsertParts(l: seq<File>, k: nat, file: File)
    requires k <= |l|
    ensures var m := InsertAt(l, k, file); m[..k] == l[..k] && m[k] == file && m[k + 1..] == l[k..]
    ensures l == l[..k] + l[k..]
  {
  }

  lemma TotalSizeRemove(l: seq<File>, i: nat)
    requires i < |l|
    ensures TotalSize(RemoveAt(l, i)) == TotalSize(l) - |l[i].content|
  {
    TotalSizeAround(l, i);
    TotalSizeConcat(l[..i], l[i + 1..]);
  }

  lemma InsertSorted(l: seq<File>, k: nat, file: File)
    requires Sorted(l) && k <= |l|
    requires forall i :: 0 <= i < k ==> Less(l[i].path, file.path)
    requires k < |l| ==> Less(file.path, l[k].path)
    ensures Sorted(InsertAt(l, k, file))
  {
    hide Less, AsMap, IndexOf, TotalSize;
    forall j | k <= j < |l| ensures Less(file.path, l[j].path) {
      if k < j { LessTransitive(file.path, l[k].path, l[j].path); }
    }
  }

  lemma InsertionPointSplits(l: seq<File>, path: Path)
    requires IndexOf(l, path).None?
    ensures var k := InsertionPoint(l, path); k < |l| ==> Less(path, l[k].path)
  {
    var k := InsertionPoint(l, path);
    if k < |l| { LessTotal(l[k].path, path); }
  }

  // ---------------------------------------------------------------- the map

  type Store = map<Path, seq<Byte>>

  ghost function AsMap(l: seq<File>): Store {
    map path | path in (set i | 0 <= i < |l| :: l[i].path) :: l[IndexOf(l, path).value].content
  }

  ghost function MapSize(m: Store): nat {
    if m == map[] then 0 else var path :| path in m; |m[path]| + MapSize(m - {path})
  }

  lemma {:induction false} MapSizeWithout(m: Store, path: Path)
    requires path in m
    ensures MapSize(m) == |m[path]| + MapSize(m - {path})
    decreases |m|
  {
    var first :| first in m && MapSize(m) == |m[first]| + MapSize(m - {first});
    if first != path {
      MapSizeWithout(m - {first}, path);
      MapSizeWithout(m - {path}, first);
      assert m - {first} - {path} == m - {path} - {first};
    }
  }

  lemma MapGrows(m: Store, path: Path)
    requires path in m
    ensures MapSize(m) == |m[path]| + MapSize(m - {path}) && |m| == 1 + |m - {path}|
  {
    MapSizeWithout(m, path);
    assert m.Keys == (m - {path}).Keys + {path};
  }

  lemma AsMapAt(l: seq<File>)
    requires Sorted(l)
    ensures forall i :: 0 <= i < |l| ==> l[i].path in AsMap(l) && AsMap(l)[l[i].path] == l[i].content
    ensures forall path :: path in AsMap(l) <==> IndexOf(l, path).Some?
  {
    forall i | 0 <= i < |l| ensures l[i].path in AsMap(l) && AsMap(l)[l[i].path] == l[i].content {
      IndexUnique(l, i);
    }
    forall path ensures path in AsMap(l) <==> IndexOf(l, path).Some? {
      if IndexOf(l, path).Some? {
        assert l[IndexOf(l, path).value].path == path;
      }
    }
  }

  /** The list read as a map is `m`. */
  ghost predicate Represents(l: seq<File>, m: Store) {
    (forall i :: 0 <= i < |l| ==> l[i].path in m && m[l[i].path] == l[i].content) &&
    (forall path :: path in m ==> IndexOf(l, path).Some?)
  }

  lemma RepresentsIsAsMap(l: seq<File>, m: Store)
    requires Sorted(l)
    ensures Represents(l, m) <==> m == AsMap(l)
  {
    hide Less, AsMap, IndexOf, TotalSize;
    AsMapAt(l);
    if Represents(l, m) {
      forall path ensures path in m <==> path in AsMap(l) {
      }
      forall path | path in m ensures m[path] == AsMap(l)[path] {
        var i := IndexOf(l, path).value;
        assert l[i].path == path;
      }
      assert m == AsMap(l);
    }
  }

  lemma FrontRepresents(l: seq<File>)
    requires Sorted(l) && l != []
    ensures Sorted(l[..|l| - 1]) && l[|l| - 1].path in AsMap(l)
    ensures AsMap(l[..|l| - 1]) == AsMap(l) - {l[|l| - 1].path}
  {
    hide Less, AsMap, IndexOf, TotalSize;
    var front, last := l[..|l| - 1], l[|l| - 1];
    AsMapAt(l);
    var m := AsMap(l) - {last.path};
    forall i | 0 <= i < |front| ensures front[i].path in m && m[front[i].path] == front[i].content {
      assert front[i] == l[i];
      LessAsymmetric(l[i].path, last.path);
    }
    RepresentsIsAsMap(front, m);
  }

  /** The map has as many entries and as many bytes as the list. */
  lemma {:induction false} AsMapMeasures(l: seq<File>)
    requires Sorted(l)
    ensures |AsMap(l)| == |l| && MapSize(AsMap(l)) == TotalSize(l)
  {
    hide Less, IndexOf;
    if l != [] {
      var front, last := l[..|l| - 1], l[|l| - 1];
      FrontRepresents(l);
      AsMapMeasures(front);
      AsMapAt(l);
      MapGrows(AsMap(l), last.path);
    }
  }

  // ---------------------------------------------------------------- operations on the map

  function MapWrite(m: Store, size: nat, path: Path, offset: nat, data: seq<Byte>): Option<Store> {
    if path !in m then
      if offset == 0 && 1 <= |path| <= MAX_PATH && |m| < MAX_FILES && size + |data| <= CAPACITY
      then Some(m[path := data]) else None
    else if offset > |m[path]| || offset + |data| > CAPACITY then None
    else
      var content := Splice(m[path], offset, data);
      if size - |m[path]| + |content| > CAPACITY then None else Some(m[path := content])
  }

  function MapTruncate(m: Store, size: nat, path: Path, newSize: nat): Option<Store> {
    if path !in m || size - |m[path]| + newSize > CAPACITY then None
    else Some(m[path := Resize(m[path], newSize)])
  }

  function MapRemove(m: Store, path: Path): Option<Store> {
    if path !in m then None else Some(m - {path})
  }

  datatype Op =
    | WriteOp(path: Path, offset: nat, data: seq<Byte>)
    | TruncateOp(path: Path, size: nat)
    | RemoveOp(path: Path)

  ghost function Attempt(l: seq<File>, op: Op): Option<seq<File>> {
    match op
    case WriteOp(path, offset, data) => Write(l, path, offset, data)
    case TruncateOp(path, size) => Truncate(l, path, size)
    case RemoveOp(path) => Remove(l, path)
  }

  ghost function MapAttempt(m: Store, op: Op): Option<Store> {
    match op
    case WriteOp(path, offset, data) => MapWrite(m, MapSize(m), path, offset, data)
    case TruncateOp(path, size) => MapTruncate(m, MapSize(m), path, size)
    case RemoveOp(path) => MapRemove(m, path)
  }

  lemma UpdateRefines(l: seq<File>, i: nat, content: seq<Byte>)
    requires Valid(l) && i < |l| && TotalSize(l) - |l[i].content| + |content| <= CAPACITY
    ensures var l' := l[i := File(l[i].path, content)];
            Valid(l') && AsMap(l') == AsMap(l)[l[i].path := content]
  {
    hide Less, AsMap, IndexOf, TotalSize;
    var path := l[i].path;
    var l' := l[i := File(path, content)];
    TotalSizeUpdate(l, i, File(path, content));
    AsMapAt(l);
    var m := AsMap(l)[path := content];
    forall j | 0 <= j < |l'| ensures l'[j].path in m && m[l'[j].path] == l'[j].content {
      if j < i { LessAsymmetric(l[j].path, path); } else if i < j { LessAsymmetric(path, l[j].path); }
    }
    forall p | p in m ensures IndexOf(l', p).Some? {
      assert l'[if p == path then i else IndexOf(l, p).value].path == p;
    }
    RepresentsIsAsMap(l', m);
  }

  lemma InsertRefines(l: seq<File>, k: nat, file: File)
    requires Valid(l) && IndexOf(l, file.path).None? && CanCreate(l, file.path, file.content)
    requires k <= |l| && forall i :: 0 <= i < k ==> Less(l[i].path, file.path)
    requires k < |l| ==> Less(file.path, l[k].path)
    ensures Valid(InsertAt(l, k, file)) && AsMap(InsertAt(l, k, file)) == AsMap(l)[file.path := file.content]
  {
    hide Less, AsMap, IndexOf, TotalSize;
    var l' := InsertAt(l, k, file);
    InsertSorted(l, k, file);
    TotalSizeInsert(l, k, file);
    InsertRepresents(l, k, file);
    RepresentsIsAsMap(l', AsMap(l)[file.path := file.content]);
  }

  lemma InsertRepresents(l: seq<File>, k: nat, file: File)
    requires Sorted(l) && IndexOf(l, file.path).None? && k <= |l|
    ensures Represents(InsertAt(l, k, file), AsMap(l)[file.path := file.content])
  {
    hide Sorted, AsMap, IndexOf, InsertAt;
    var l', m := InsertAt(l, k, file), AsMap(l)[file.path := file.content];
    forall i | 0 <= i < |l'| ensures l'[i].path in m && m[l'[i].path] == l'[i].content {
      InsertedFile(l, k, file, i);
    }
    forall p | p in m ensures IndexOf(l', p).Some? {
      InsertedPath(l, k, file, p);
    }
  }

  lemma InsertedFile(l: seq<File>, k: nat, file: File, i: nat)
    requires Sorted(l) && IndexOf(l, file.path).None? && k <= |l| && i <= |l|
    ensures var f, m := InsertAt(l, k, file)[i], AsMap(l)[file.path := file.content];
            f.path in m && m[f.path] == f.content
  {
    hide Sorted, AsMap, IndexOf;
    AsMapAt(l);
    var f := InsertAt(l, k, file)[i];
    if f != file {
      var j := if i < k then i else i - 1;
      assert f == l[j] && l[j].path != file.path;
    }
  }

  lemma InsertedPath(l: seq<File>, k: nat, file: File, p: Path)
    requires Sorted(l) && k <= |l| && p in AsMap(l)[file.path := file.content]
    ensures IndexOf(InsertAt(l, k, file), p).Some?
  {
    hide Sorted, AsMap, IndexOf;
    AsMapAt(l);
    var l' := InsertAt(l, k, file);
    if p == file.path {
      assert l'[k].path == p;
    } else {
      var j := IndexOf(l, p).value;
      assert l'[if j < k then j else j + 1] == l[j];
    }
  }

  lemma RemoveRefines(l: seq<File>, i: nat)
    requires Valid(l) && i < |l|
    ensures Valid(RemoveAt(l, i)) && AsMap(RemoveAt(l, i)) == AsMap(l) - {l[i].path}
  {
    hide Less, AsMap, IndexOf, TotalSize;
    var l' := RemoveAt(l, i);
    TotalSizeRemove(l, i);
    RemoveRepresents(l, i);
    RepresentsIsAsMap(l', AsMap(l) - {l[i].path});
  }

  lemma RemoveRepresents(l: seq<File>, i: nat)
    requires Sorted(l) && i < |l|
    ensures Represents(RemoveAt(l, i), AsMap(l) - {l[i].path})
  {
    hide Less, AsMap, IndexOf;
    var l' := RemoveAt(l, i);
    AsMapAt(l);
    var m := AsMap(l) - {l[i].path};
    forall j | 0 <= j < |l'| ensures l'[j].path in m && m[l'[j].path] == l'[j].content {
      if j < i { LessAsymmetric(l[j].path, l[i].path); } else { LessAsymmetric(l[i].path, l[j + 1].path); }
    }
    forall p | p in m ensures IndexOf(l', p).Some? {
      var j := IndexOf(l, p).value;
      assert l'[if j < i then j else j - 1].path == p;
    }
  }

  /** Every operation on a valid listing fails exactly when it fails on the map, and otherwise does to the
      listing what it does to the map: it keeps the order, the uniqueness of paths and the size bounds. */
  lemma AttemptRefinesMap(l: seq<File>, op: Op)
    requires Valid(l)
    ensures match Attempt(l, op)
            case None => MapAttempt(AsMap(l), op) == None
            case Some(l') => Valid(l') && MapAttempt(AsMap(l), op) == Some(AsMap(l'))
  {
    hide Less, AsMap, IndexOf, TotalSize;
    AsMapAt(l);
    AsMapMeasures(l);
    match op
    case WriteOp(path, offset, data) =>
      match IndexOf(l, path) {
        case None =>
          if Write(l, path, offset, data).Some? {
            InsertionPointSplits(l, path);
            InsertRefines(l, InsertionPoint(l, path), File(path, data));
          }
        case Some(i) =>
          if Write(l, path, offset, data).Some? { UpdateRefines(l, i, Splice(l[i].content, offset, data)); }
      }
    case TruncateOp(path, size) =>
      if Truncate(l, path, size).Some? {
        var i := IndexOf(l, path).value;
        UpdateRefines(l, i, Resize(l[i].content, size));
      }
    case RemoveOp(path) =>
      if Remove(l, path).Some? { RemoveRefines(l, IndexOf(l, path).value); }
  }

  /** A failing operation leaves the store as it was. */
  ghost function Step(l: seq<File>, op: Op): seq<File> {
    match Attempt(l, op)
    case None => l
    case Some(l') => l'
  }

  ghost function Run(l: seq<File>, ops: seq<Op>): seq<File>
    decreases |ops|
  {
    if ops == [] then l else Run(Step(l, ops[0]), ops[1..])
  }

  ghost function MapStep(m: Store, op: Op): Store {
    match MapAttempt(m, op)
    case None => m
    case Some(m') => m'
  }

  ghost function MapRun(m: Store, ops: seq<Op>): Store
    decreases |ops|
  {
    if ops == [] then m else MapRun(MapStep(m, ops[0]), ops[1..])
  }

  /** Over every run of operations the listing is the map, ordered, and stays within its bounds. */
  lemma {:induction false} RunRefinesMap(l: seq<File>, ops: seq<Op>)
    requires Valid(l)
    ensures Valid(Run(l, ops)) && AsMap(Run(l, ops)) == MapRun(AsMap(l), ops)
    decreases |ops|
  {
    if ops != [] {
      AttemptRefinesMap(l, ops[0]);
      RunRefinesMap(Step(l, ops[0]), ops[1..]);
    }
  }

  /** The ordered list is determined by the map, so nothing the guest lists depends on how the map came about. */
  lemma {:induction false} ListingUnique(a: seq<File>, b: seq<File>)
    requires Sorted(a) && Sorted(b) && AsMap(a) == AsMap(b)
    ensures a == b
  {
    hide *;
    SameLength(a, b);
    if a != [] {
      SameLast(a, b);
      SameFronts(a, b);
      ListingUnique(a[..|a| - 1], b[..|b| - 1]);
      FrontAndLast(a);
      FrontAndLast(b);
    }
  }

  lemma SameLength(a: seq<File>, b: seq<File>)
    requires Sorted(a) && Sorted(b) && AsMap(a) == AsMap(b)
    ensures |a| == |b|
  {
    hide Sorted, AsMap, TotalSize;
    AsMapMeasures(a);
    AsMapMeasures(b);
  }

  lemma SameFronts(a: seq<File>, b: seq<File>)
    requires Sorted(a) && Sorted(b) && AsMap(a) == AsMap(b) && a != [] && b != [] && a[|a| - 1] == b[|b| - 1]
    ensures Sorted(a[..|a| - 1]) && Sorted(b[..|b| - 1]) && AsMap(a[..|a| - 1]) == AsMap(b[..|b| - 1])
  {
    hide Sorted, AsMap;
    FrontRepresents(a);
    FrontRepresents(b);
  }

  lemma FrontAndLast(l: seq<File>)
    requires l != []
    ensures l == l[..|l| - 1] + [l[|l| - 1]]
  {
  }

  lemma SameLast(a: seq<File>, b: seq<File>)
    requires Sorted(a) && Sorted(b) && AsMap(a) == AsMap(b) && a != [] && b != []
    ensures a[|a| - 1] == b[|b| - 1]
  {
    hide Less, AsMap, IndexOf;
    AsMapAt(a);
    AsMapAt(b);
    LastIsGreatest(a, b);
    LastIsGreatest(b, a);
    if a[|a| - 1].path != b[|b| - 1].path {
      LessAsymmetric(a[|a| - 1].path, b[|b| - 1].path);
    }
  }

  lemma LastIsGreatest(a: seq<File>, b: seq<File>)
    requires Sorted(a) && Sorted(b) && AsMap(a) == AsMap(b) && a != [] && b != []
    ensures a[|a| - 1].path == b[|b| - 1].path || Less(a[|a| - 1].path, b[|b| - 1].path)
  {
    AsMapAt(a);
    AsMapAt(b);
    var i := IndexOf(b, a[|a| - 1].path).value;
  }
}
