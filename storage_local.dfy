/**
 * backend/src/services/storage-local.ts: `LocalStorageAdapter` over the
 * file system of the storage root. `mime.lookup` is the parameter
 * `mimeLookup` (None for its `false`); the clock that stamps modification
 * times is a parameter `now`.
 */
module StorageLocal {
  import opened Base
  import opened Paths
  import opened Types
  import opened Disk

  const OctetStream := "application/octet-stream"

  /** The extensions whose files get an ETag in a listing. */
  const ListedETagExtensions: seq<string> := [".jpg", ".jpeg", ".png", ".svg"]

  // ---------------------------------------------------------------------
  // getAbsolutePath
  // ---------------------------------------------------------------------

  /** The segments `join` keeps: empty and `.` segments vanish. */
  function Segments(parts: seq<string>): (r: seq<string>)
    ensures forall k :: 0 <= k < |r| ==> r[k] != "" && r[k] != "." && r[k] in parts
    decreases |parts|
  {
    if parts == [] then []
    else if parts[0] == "" || parts[0] == "." then Segments(parts[1..])
    else [parts[0]] + Segments(parts[1..])
  }

  /** Where `join(rootPath, normalized)` points, for a normalized path (which holds no `..`). */
  function KeyOf(normalized: string): Key {
    Segments(Split(normalized, '/'))
  }

  /** `getAbsolutePath(path)`; Err is the traversal error of `normalizePath`. */
  function AbsoluteKey(path: string): Result<Key, string> {
    match NormalizePath(path)
    case Err(e) => Err(e)
    case Ok(n) => Ok(KeyOf(n))
  }

  /** Every segment of an accepted path is a plain name: no `..` can climb out of the root. */
  lemma AbsoluteKeyIsPlain(path: string)
    requires AbsoluteKey(path).Ok?
    ensures forall k :: 0 <= k < |AbsoluteKey(path).value| ==> Plain(AbsoluteKey(path).value[k])
  {
    var n := NormalizePath(path).value;
    NormalizePathHasNoDotDot(path);
    var parts := Split(n, '/');
    SplitPartsHaveNoSeparator(n, '/');
    JoinSplit(n, '/');
    forall i | 0 <= i < |parts| ensures parts[i] != ".." {
      JoinContainsPart(parts, "/", i);
    }
  }

  /** Segments that are all plain are kept as they are. */
  lemma {:induction false} SegmentsOfPlain(parts: seq<string>)
    requires forall k :: 0 <= k < |parts| ==> Plain(parts[k])
    ensures Segments(parts) == parts
    decreases |parts|
  {
    if parts != [] {
      SegmentsOfPlain(parts[1..]);
    }
  }

  /** A canonical path points at its own segments; `.` is the root. */
  lemma KeyOfCanonical(n: string)
    requires IsCanonical(n)
    ensures KeyOf(n) == if n == "." then [] else Split(n, '/')
  {
    if n == "." {
      SplitNoSeparator(".", '/');
    } else {
      SegmentsOfPlain(Split(n, '/'));
    }
  }

  /**
   * Re-normalising an already normalised path (as every handler hands the
   * adapter a normalised path, which the adapter normalises again) points
   * at the same place.
   */
  lemma AbsoluteKeyOfNormalized(path: string)
    requires '\\' !in path && NormalizePath(path).Ok?
    ensures AbsoluteKey(NormalizePath(path).value) == AbsoluteKey(path)
  {
    NormalizePathIdempotent(path);
  }

  // ---------------------------------------------------------------------
  // The order of list
  // ---------------------------------------------------------------------

  /** Code-unit lexicographic order, standing for `localeCompare`. */
  predicate NameLess(a: string, b: string)
    decreases |a|
  {
    if a == [] then b != []
    else b != [] && (a[0] < b[0] || (a[0] == b[0] && NameLess(a[1..], b[1..])))
  }

  lemma {:induction false} NameLessIrreflexive(a: string)
    ensures !NameLess(a, a)
    decreases |a|
  {
    if a != [] {
      NameLessIrreflexive(a[1..]);
    }
  }

  lemma {:induction false} NameLessTotal(a: string, b: string)
    ensures a == b || NameLess(a, b) || NameLess(b, a)
    decreases |a|
  {
    if a != [] && b != [] && a[0] == b[0] {
      NameLessTotal(a[1..], b[1..]);
      if a[1..] == b[1..] {
        assert a == [a[0]] + a[1..] && b == [b[0]] + b[1..];
      }
    }
  }

  lemma {:induction false} NameLessTransitive(a: string, b: string, c: string)
    requires NameLess(a, b) && NameLess(b, c)
    ensures NameLess(a, c)
    decreases |a|
  {
    if a != [] && a[0] == b[0] && b[0] == c[0] {
      NameLessTransitive(a[1..], b[1..], c[1..]);
    }
  }

  lemma NameLessAsymmetric(a: string, b: string)
    requires NameLess(a, b)
    ensures !NameLess(b, a)
  {
    if NameLess(b, a) {
      NameLessTransitive(a, b, a);
      NameLessIrreflexive(a);
    }
  }

  /** The comparator of `list`: directories first, then by name. */
  predicate Before(x: FileInfo, y: FileInfo) {
    if x.kind != y.kind then x.kind == Directory else NameLess(x.name, y.name)
  }

  /** No element is placed after one that should come later. */
  predicate Sorted(s: seq<FileInfo>) {
    forall i, j :: 0 <= i < j < |s| ==> !Before(s[j], s[i])
  }

  lemma BeforeTotal(x: FileInfo, y: FileInfo)
    ensures Before(x, y) || Before(y, x) || (x.kind == y.kind && x.name == y.name)
  {
    NameLessTotal(x.name, y.name);
  }

  lemma BeforeTransitive(x: FileInfo, y: FileInfo, z: FileInfo)
    requires Before(x, y) && Before(y, z)
    ensures Before(x, z)
  {
    if x.kind == y.kind == z.kind {
      NameLessTransitive(x.name, y.name, z.name);
    }
  }

  /** `!Before` is transitive too: the comparator is a total preorder. */
  lemma NotBeforeTransitive(x: FileInfo, y: FileInfo, z: FileInfo)
    requires !Before(y, x) && !Before(z, y)
    ensures !Before(z, x)
  {
    BeforeTotal(x, y);
    BeforeTotal(y, z);
    if Before(z, x) {
      if Before(x, y) {
        BeforeTransitive(z, x, y);
      }
    }
  }

  predicate NoDuplicates(s: seq<FileInfo>) {
    forall i, j :: 0 <= i < j < |s| ==> s[i] != s[j]
  }

  /** Insertion of `x` before the first element that does not come before it. */
  function Insert(x: FileInfo, s: seq<FileInfo>): (r: seq<FileInfo>)
    ensures multiset(r) == multiset(s) + multiset{x}
    ensures forall y :: y in r <==> y == x || y in s
    decreases |s|
  {
    if s == [] then [x]
    else if !Before(s[0], x) then [x] + s
    else
      assert s == [s[0]] + s[1..];
      [s[0]] + Insert(x, s[1..])
  }

  lemma {:induction false} InsertSorted(x: FileInfo, s: seq<FileInfo>)
    requires Sorted(s)
    ensures Sorted(Insert(x, s))
    decreases |s|
  {
    if s != [] {
      if !Before(s[0], x) {
        forall j | 0 <= j < |s| ensures !Before(s[j], x) {
          if j > 0 {
            NotBeforeTransitive(x, s[0], s[j]);
          }
        }
      } else {
        InsertSorted(x, s[1..]);
        var rest := Insert(x, s[1..]);
        forall j | 0 <= j < |rest| ensures !Before(rest[j], s[0]) {
          if rest[j] == x {
            BeforeTotal(x, s[0]);
            if Before(x, s[0]) && x.kind == s[0].kind {
              NameLessAsymmetric(s[0].name, x.name);
            }
          } else {
            assert rest[j] in rest;
          }
        }
      }
    }
  }

  lemma HeadNotInTail(s: seq<FileInfo>)
    requires s != []
    ensures NoDuplicates(s) ==> s[0] !in s[1..] && NoDuplicates(s[1..])
  {
    if NoDuplicates(s) {
      forall j | 0 <= j < |s[1..]| ensures s[1..][j] != s[0] {
        assert s[1..][j] == s[j + 1];
      }
    }
  }

  lemma {:induction false} InsertNoDuplicates(x: FileInfo, s: seq<FileInfo>)
    ensures NoDuplicates(s) && x !in s ==> NoDuplicates(Insert(x, s))
    decreases |s|
  {
    if s != [] && Before(s[0], x) {
      InsertNoDuplicates(x, s[1..]);
      HeadNotInTail(s);
    }
  }

  /** `files.sort(...)`, as an insertion sort (JavaScript's sort is stable; here no two entries tie). */
  function Sort(s: seq<FileInfo>): (r: seq<FileInfo>)
    ensures Sorted(r) && multiset(r) == multiset(s)
    ensures forall y :: y in r <==> y in s
    ensures NoDuplicates(s) ==> NoDuplicates(r)
    decreases |s|
  {
    if s == [] then []
    else
      assert s == [s[0]] + s[1..];
      var t := Sort(s[1..]);
      InsertSorted(s[0], t);
      InsertNoDuplicates(s[0], t);
      HeadNotInTail(s);
      Insert(s[0], t)
  }

  // ---------------------------------------------------------------------
  // FileInfo records
  // ---------------------------------------------------------------------

  /** `mime.lookup(name) || 'application/octet-stream'`. */
  function MimeOf(mimeLookup: string -> Option<string>, name: string): string {
    match mimeLookup(name)
    case Some(m) => m
    case None => OctetStream
  }

  /** `"<mtimeMs>-<size>"`, the ETag the adapter gives a regular file. */
  function FileETag(mtime: nat, size: nat): string {
    "\"" + NatToString(mtime) + "-" + NatToString(size) + "\""
  }

  /** The record for an entry; the ETag is attached to regular files when `withETag` holds. */
  function Info(name: string, path: string, node: Node, mimeLookup: string -> Option<string>, withETag: bool): FileInfo {
    match node
    case DirNode(mtime) =>
      FileInfo(name, path, Directory, None, None, None, None, Some(mtime), None)
    case FileNode(data, mtime) =>
      FileInfo(name, path, File, Some(|data|), Some(MimeOf(mimeLookup, name)), None, None, Some(mtime),
               if withETag then Some(FileETag(mtime, |data|)) else None)
  }

  function NotFound(path: string): string {
    "File not found: " + path
  }

  function SourceNotFound(src: string): string {
    "Source not found: " + src
  }

  // ---------------------------------------------------------------------
  // exists, read, stat
  // ---------------------------------------------------------------------

  /** `exists(path)`: a rejected path is reported as absent rather than thrown. */
  predicate ExistsIn(fs: Fs, path: string) {
    match AbsoluteKey(path)
    case Err(_) => false
    case Ok(k) => k in fs
  }

  /** `read(path)`: the content of a regular file. */
  function ReadIn(fs: Fs, path: string): Result<seq<byte>, string> {
    match AbsoluteKey(path)
    case Err(e) => Err(e)
    case Ok(k) =>
      if k !in fs then Err(NotFound(path))
      else if fs[k].DirNode? then Err(IsADirectory)
      else Ok(fs[k].data)
  }

  /** `basename` of the absolute path: the last segment, or the root directory's own name. */
  function StatName(rootName: string, k: Key): string {
    if k == [] then rootName else k[|k| - 1]
  }

  /** `stat(path)`; `rootName` is the base name of the storage root. */
  function StatIn(fs: Fs, rootName: string, mimeLookup: string -> Option<string>, path: string): Result<FileInfo, string> {
    match AbsoluteKey(path)
    case Err(e) => Err(e)
    case Ok(k) =>
      if k !in fs then Err(NotFound(path))
      else Ok(Info(StatName(rootName, k), path, fs[k], mimeLookup, true))
  }

  // ---------------------------------------------------------------------
  // list
  // ---------------------------------------------------------------------

  /** `path ? getAbsolutePath(path) : rootPath`. */
  function ListKey(path: string): Result<Key, string> {
    if path == "" then Ok([]) else AbsoluteKey(path)
  }

  /** Names starting with `.`, `.thumbnails` among them, are skipped. */
  predicate Hidden(name: string) {
    StartsWith(name, ".")
  }

  /** The record `list` builds for the entry `name` of `dir`. */
  function ListItem(fs: Fs, dir: Key, path: string, name: string, mimeLookup: string -> Option<string>): FileInfo
    requires dir + [name] in fs
  {
    Info(name, JoinPaths([path, name]), fs[dir + [name]], mimeLookup, GetExtension(name) in ListedETagExtensions)
  }

  lemma ChildEntry(fs: Fs, dir: Key, name: string)
    ensures name in Children(fs, dir) <==> dir + [name] in fs
  {
    var k := dir + [name];
    assert |k| == |dir| + 1 && k[..|dir|] == dir && k[|dir|] == name;
    if name in Children(fs, dir) {
      var j :| j in fs && |j| == |dir| + 1 && j[..|dir|] == dir && j[|dir|] == name;
      assert j == j[..|dir|] + [j[|dir|]];
    }
  }

  /** The records a listing of `dir` must hold: one per visible entry. */
  ghost predicate Listed(fs: Fs, dir: Key, path: string, mimeLookup: string -> Option<string>, x: FileInfo) {
    exists name :: dir + [name] in fs && !Hidden(name) && x == ListItem(fs, dir, path, name, mimeLookup)
  }

  /**
   * The records `item(n)` of the visible names `n` among `names`, in order
   * (the `for` loop of `list`, with `item` building the record of an entry).
   */
  function Items(names: seq<string>, item: string --> FileInfo): (r: seq<FileInfo>)
    requires forall n :: n in names ==> item.requires(n)
    decreases |names|
  {
    if names == [] then []
    else
      var last := names[|names| - 1];
      Items(names[..|names| - 1], item) + (if Hidden(last) then [] else [item(last)])
  }

  /** What `list(path)` returns, or the error it throws. */
  ghost predicate IsListing(fs: Fs, mimeLookup: string -> Option<string>, path: string, r: Result<seq<FileInfo>, string>) {
    match ListKey(path)
    case Err(e) => r == Err(e)
    case Ok(dir) =>
      if dir !in fs then r == Ok([])
      else if fs[dir].FileNode? then r == Err(NotADirectory)
      else
        r.Ok? && Sorted(r.value) && NoDuplicates(r.value)
        && forall x :: x in r.value <==> Listed(fs, dir, path, mimeLookup, x)
  }

  /** The records of `Items` are exactly those of the visible names among `names`. */
  lemma {:induction false} ItemsMember(names: seq<string>, item: string --> FileInfo, x: FileInfo)
    requires forall n :: n in names ==> item.requires(n)
    ensures x in Items(names, item) <==> exists n :: n in names && !Hidden(n) && x == item(n)
    decreases |names|
  {
    if names != [] {
      var init := names[..|names| - 1];
      var last := names[|names| - 1];
      assert names == init + [last];
      ItemsMember(init, item, x);
    }
  }

  predicate Distinct(names: seq<string>) {
    forall i, j :: 0 <= i < j < |names| ==> names[i] != names[j]
  }

  /** Distinct names give distinct records when each record carries its name. */
  lemma {:induction false} ItemsNoDuplicates(names: seq<string>, item: string --> FileInfo)
    requires forall n :: n in names ==> item.requires(n) && item(n).name == n
    requires Distinct(names)
    ensures NoDuplicates(Items(names, item))
    ensures forall x :: x in Items(names, item) ==> x.name in names
    decreases |names|
  {
    if names != [] {
      var init := names[..|names| - 1];
      var last := names[|names| - 1];
      assert names == init + [last];
      ItemsNoDuplicates(init, item);
      assert last !in init by {
        forall k | 0 <= k < |init| ensures init[k] != last {
          assert init[k] == names[k];
        }
      }
    }
  }

  /** Sorting the records of distinct names gives each visible name's record once, in order. */
  lemma SortedItems(entries: seq<string>, item: string --> FileInfo)
    requires Distinct(entries)
    requires forall n :: n in entries ==> item.requires(n) && item(n).name == n
    ensures var r := Sort(Items(entries, item));
      Sorted(r) && NoDuplicates(r)
      && forall x :: x in r <==> exists n :: n in entries && !Hidden(n) && x == item(n)
  {
    ItemsNoDuplicates(entries, item);
    forall x ensures x in Items(entries, item) <==> exists n :: n in entries && !Hidden(n) && x == item(n) {
      ItemsMember(entries, item, x);
    }
  }

  /** The records `item` builds for the names `readdir` gives are the records a listing must hold. */
  lemma ItemsAreListed(fs: Fs, dir: Key, path: string, mimeLookup: string -> Option<string>,
                       entries: seq<string>, item: string --> FileInfo, x: FileInfo)
    requires forall n :: n in entries <==> n in Children(fs, dir)
    requires forall n :: n in entries ==> dir + [n] in fs
    requires forall n :: n in entries ==> item.requires(n) && item(n) == ListItem(fs, dir, path, n, mimeLookup)
    ensures (exists n :: n in entries && !Hidden(n) && x == item(n)) <==> Listed(fs, dir, path, mimeLookup, x)
  {
    if Listed(fs, dir, path, mimeLookup, x) {
      var name :| dir + [name] in fs && !Hidden(name) && x == ListItem(fs, dir, path, name, mimeLookup);
      ChildEntry(fs, dir, name);
      assert name in entries && x == item(name);
    }
  }

  /** Sorting the records of the names `readdir` gives yields exactly a listing of `dir`. */
  lemma ListedEntries(fs: Fs, dir: Key, path: string, mimeLookup: string -> Option<string>,
                      entries: seq<string>, item: string --> FileInfo)
    requires Distinct(entries)
    requires forall n :: n in entries <==> n in Children(fs, dir)
    requires forall n :: n in entries ==> dir + [n] in fs
    requires forall n :: n in entries ==> item.requires(n) && item(n) == ListItem(fs, dir, path, n, mimeLookup)
    ensures var r := Sort(Items(entries, item));
      Sorted(r) && NoDuplicates(r) && forall x :: x in r <==> Listed(fs, dir, path, mimeLookup, x)
  {
    forall n | n in entries ensures item(n).name == n {
    }
    SortedItems(entries, item);
    forall x ensures x in Sort(Items(entries, item)) <==> Listed(fs, dir, path, mimeLookup, x) {
      ItemsAreListed(fs, dir, path, mimeLookup, entries, item, x);
    }
  }

  // ---------------------------------------------------------------------
  // The changes delete, mkdir, move and write make
  // ---------------------------------------------------------------------

  /** `delete(path)`: a directory goes with everything inside it, a file is unlinked. */
  function DeleteStep(fs: Fs, path: string): (Result<(), string>, Fs) {
    match AbsoluteKey(path)
    case Err(e) => (Err(e), fs)
    case Ok(k) =>
      if k !in fs then (Err(NotFound(path)), fs)
      else if fs[k].DirNode? then (Ok(()), RemoveTree(fs, k))
      else (Ok(()), Unlink(fs, k))
  }

  /** `mkdir(path)`, recursive. */
  function MkdirStep(fs: Fs, path: string, now: nat): (Result<(), string>, Fs) {
    match AbsoluteKey(path)
    case Err(e) => (Err(e), fs)
    case Ok(k) =>
      match MkdirP(fs, k, now)
      case Err(e) => (Err(e), fs)
      case Ok(fs') => (Ok(()), fs')
  }

  /** `write(path, data)`: the parent directories are created, then the whole buffer is written. */
  function WriteStep(fs: Fs, path: string, data: seq<byte>, now: nat): (Result<(), string>, Fs) {
    match AbsoluteKey(path)
    case Err(e) => (Err(e), fs)
    case Ok(k) => WriteAt(fs, k, data, now)
  }

  /** `write` once the path is resolved to `k`. */
  function WriteAt(fs: Fs, k: Key, data: seq<byte>, now: nat): (Result<(), string>, Fs) {
    match MkdirParent(fs, k, now)
    case Err(e) => (Err(e), fs)
    case Ok(fs1) =>
      match WriteFile(fs1, k, data, now)
      case Err(e) => (Err(e), fs1)
      case Ok(fs2) => (Ok(()), fs2)
  }

  /**
   * `move(src, dst)`: both paths are resolved first; the parent directories
   * of `dst` are created before `rename`, and stay when `rename` fails.
   */
  function MoveStep(fs: Fs, src: string, dst: string, now: nat): (Result<(), string>, Fs) {
    match AbsoluteKey(src)
    case Err(e) => (Err(e), fs)
    case Ok(s) =>
      match AbsoluteKey(dst)
      case Err(e) => (Err(e), fs)
      case Ok(d) =>
        if s !in fs then (Err(SourceNotFound(src)), fs)
        else
          match MkdirParent(fs, d, now)
          case Err(e) => (Err(e), fs)
          case Ok(fs1) =>
            match Rename(fs1, s, d)
            case Err(e) => (Err(e), fs1)
            case Ok(fs2) => (Ok(()), fs2)
  }

  /** `ensureRootExists()`. */
  function EnsureRoot(fs: Fs, now: nat): Fs {
    if [] in fs then fs else fs[[] := DirNode(now)]
  }

  // ---------------------------------------------------------------------
  // The adapter
  // ---------------------------------------------------------------------

  class LocalStorageAdapter {
    /** The file system under `rootPath`. */
    const fsys: FileSystem
    /** `basename(rootPath)`, the name `stat('')` reports. */
    const rootName: string
    const mimeLookup: string -> Option<string>

    ghost predicate Valid()
      reads this, fsys
    {
      fsys.Valid()
    }

    constructor(fsys: FileSystem, rootName: string, mimeLookup: string -> Option<string>, now: nat)
      requires fsys.Valid()
      modifies fsys
      ensures this.fsys == fsys && this.rootName == rootName && this.mimeLookup == mimeLookup
      ensures fsys.fs == EnsureRoot(old(fsys.fs), now)
      ensures Valid()
    {
      this.fsys := fsys;
      this.rootName := rootName;
      this.mimeLookup := mimeLookup;
      new;
      if [] !in fsys.fs {
        RootHoldsEverything(fsys.fs);
        assert fsys.fs == map[];
        fsys.fs := fsys.fs[[] := DirNode(now)];
      }
    }

    method Exists(path: string) returns (b: bool)
      ensures b == ExistsIn(fsys.fs, path)
    {
      var key := AbsoluteKey(path);
      b := key.Ok? && key.value in fsys.fs;
    }

    method Read(path: string) returns (r: Result<seq<byte>, string>)
      ensures r == ReadIn(fsys.fs, path)
    {
      r := ReadIn(fsys.fs, path);
    }

    method Stat(path: string) returns (r: Result<FileInfo, string>)
      ensures r == StatIn(fsys.fs, rootName, mimeLookup, path)
    {
      r := StatIn(fsys.fs, rootName, mimeLookup, path);
    }

    /** `readdir(dir)`: the names in `dir`, each once, in an order the file system chooses. */
    method Readdir(dir: Key) returns (names: seq<string>)
      ensures Distinct(names)
      ensures forall n :: n in names <==> n in Children(fsys.fs, dir)
    {
      var left := Children(fsys.fs, dir);
      names := [];
      while left != {}
        invariant forall n :: n in Children(fsys.fs, dir) <==> n in names || n in left
        invariant forall n :: n in names ==> n !in left
        invariant Distinct(names)
        decreases left
      {
        var n :| n in left;
        names := names + [n];
        left := left - {n};
      }
    }

    /** The `for` loop of `list`: the record of every visible entry, in `readdir` order. */
    static method Collect(entries: seq<string>, item: string --> FileInfo) returns (files: seq<FileInfo>)
      requires forall n :: n in entries ==> item.requires(n)
      ensures files == Items(entries, item)
    {
      files := [];
      for i := 0 to |entries|
        invariant files == Items(entries[..i], item)
      {
        assert entries[..i + 1] == entries[..i] + [entries[i]];
        var name := entries[i];
        if !Hidden(name) {
          files := files + [item(name)];
        }
      }
      assert entries[..|entries|] == entries;
    }

    /** `list(path)`: the visible entries of the directory, directories first, then by name. */
    method List(path: string) returns (r: Result<seq<FileInfo>, string>)
      ensures IsListing(fsys.fs, mimeLookup, path, r)
    {
      var key := ListKey(path);
      if key.Err? {
        return Err(key.error);
      }
      var dir := key.value;
      if dir !in fsys.fs {
        return Ok([]);
      }
      if fsys.fs[dir].FileNode? {
        return Err(NotADirectory);
      }
      var entries := Readdir(dir);
      var fs := fsys.fs;
      var item := n requires dir + [n] in fs => ListItem(fs, dir, path, n, mimeLookup);
      forall n | n in entries ensures dir + [n] in fs {
        ChildEntry(fs, dir, n);
      }
      var files := Collect(entries, item);
      var sorted := Sort(files);
      ListedEntries(fs, dir, path, mimeLookup, entries, item);
      r := Ok(sorted);
    }

    method Write(path: string, data: seq<byte>, now: nat) returns (r: Result<(), string>)
      requires Valid()
      modifies fsys
      ensures (r, fsys.fs) == WriteStep(old(fsys.fs), path, data, now)
      ensures Valid()
    {
      var key := AbsoluteKey(path);
      if key.Err? {
        return Err(key.error);
      }
      var k := key.value;
      var made := MkdirParent(fsys.fs, k, now);
      if made.Err? {
        return Err(made.error);
      }
      MkdirParentKeepsWellFormed(fsys.fs, k, now);
      fsys.fs := made.value;
      var written := WriteFile(fsys.fs, k, data, now);
      if written.Err? {
        return Err(written.error);
      }
      WriteFileKeepsWellFormed(fsys.fs, k, data, now);
      fsys.fs := written.value;
      r := Ok(());
    }

    method Delete(path: string) returns (r: Result<(), string>)
      requires Valid()
      modifies fsys
      ensures (r, fsys.fs) == DeleteStep(old(fsys.fs), path)
      ensures Valid()
    {
      var key := AbsoluteKey(path);
      if key.Err? {
        return Err(key.error);
      }
      var k := key.value;
      if k !in fsys.fs {
        return Err(NotFound(path));
      }
      if fsys.fs[k].DirNode? {
        RemoveTreeKeepsWellFormed(fsys.fs, k);
        fsys.fs := RemoveTree(fsys.fs, k);
      } else {
        UnlinkKeepsWellFormed(fsys.fs, k);
        fsys.fs := Unlink(fsys.fs, k);
      }
      r := Ok(());
    }

    method Mkdir(path: string, now: nat) returns (r: Result<(), string>)
      requires Valid()
      modifies fsys
      ensures (r, fsys.fs) == MkdirStep(old(fsys.fs), path, now)
      ensures Valid()
    {
      var key := AbsoluteKey(path);
      if key.Err? {
        return Err(key.error);
      }
      var made := MkdirP(fsys.fs, key.value, now);
      if made.Err? {
        return Err(made.error);
      }
      MkdirPKeepsWellFormed(fsys.fs, key.value, now);
      fsys.fs := made.value;
      r := Ok(());
    }

    method Move(src: string, dst: string, now: nat) returns (r: Result<(), string>)
      requires Valid()
      modifies fsys
      ensures (r, fsys.fs) == MoveStep(old(fsys.fs), src, dst, now)
      ensures Valid()
    {
      var srcKey := AbsoluteKey(src);
      if srcKey.Err? {
        return Err(srcKey.error);
      }
      var dstKey := AbsoluteKey(dst);
      if dstKey.Err? {
        return Err(dstKey.error);
      }
      var s, d := srcKey.value, dstKey.value;
      if s !in fsys.fs {
        return Err(SourceNotFound(src));
      }
      var made := MkdirParent(fsys.fs, d, now);
      if made.Err? {
        return Err(made.error);
      }
      MkdirParentKeepsWellFormed(fsys.fs, d, now);
      fsys.fs := made.value;
      var renamed := Rename(fsys.fs, s, d);
      if renamed.Err? {
        return Err(renamed.error);
      }
      RenameKeepsWellFormed(fsys.fs, s, d);
      fsys.fs := renamed.value;
      r := Ok(());
    }
  }

  lemma MkdirParentKeepsWellFormed(fs: Fs, k: Key, now: nat)
    requires WellFormed(fs) && MkdirParent(fs, k, now).Ok?
    ensures WellFormed(MkdirParent(fs, k, now).value)
  {
    if k != [] {
      MkdirPKeepsWellFormed(fs, Parent(k), now);
    }
  }

  lemma RenameKeepsWellFormed(fs: Fs, src: Key, dst: Key)
    requires WellFormed(fs) && src in fs && Rename(fs, src, dst).Ok?
    ensures WellFormed(Rename(fs, src, dst).value)
  {
    if src != dst {
      RenameGoesAhead(fs, src, dst);
      MovedKeepsWellFormed(fs, src, dst);
    }
  }

  // ---------------------------------------------------------------------
  // Properties of exists, read and stat
  // ---------------------------------------------------------------------

  /** `exists` never throws: a path that `normalizePath` rejects does not exist. */
  lemma RejectedPathDoesNotExist(fs: Fs, path: string)
    requires NormalizePath(path).Err?
    ensures !ExistsIn(fs, path)
    ensures ReadIn(fs, path).Err? && StatIn(fs, "", x => None, path).Err?
  {
  }

  /** `stat` succeeds exactly on the paths that exist; otherwise it throws "File not found". */
  lemma StatIffExists(fs: Fs, rootName: string, mimeLookup: string -> Option<string>, path: string)
    ensures StatIn(fs, rootName, mimeLookup, path).Ok? <==> ExistsIn(fs, path)
    ensures AbsoluteKey(path).Ok? && !ExistsIn(fs, path) ==>
      StatIn(fs, rootName, mimeLookup, path) == Err(NotFound(path)) && ReadIn(fs, path) == Err(NotFound(path))
  {
  }

  /**
   * `stat` of a regular file: every file gets the ETag `"<mtime>-<size>"`
   * whatever its extension, its name is the last path component and its
   * path is the argument as given.
   */
  lemma StatOfFile(fs: Fs, rootName: string, mimeLookup: string -> Option<string>, path: string)
    requires AbsoluteKey(path).Ok?
    requires var k := AbsoluteKey(path).value; k != [] && k in fs && fs[k].FileNode?
    ensures var k := AbsoluteKey(path).value;
      var info := StatIn(fs, rootName, mimeLookup, path);
      info.Ok? && info.value.kind == File && info.value.path == path && info.value.name == k[|k| - 1]
      && info.value.size == Some(|fs[k].data|) && info.value.lastModified == Some(fs[k].mtime)
      && info.value.etag == Some(FileETag(fs[k].mtime, |fs[k].data|))
      && info.value.mimeType == Some(MimeOf(mimeLookup, k[|k| - 1]))
      && ReadIn(fs, path) == Ok(fs[k].data)
  {
  }

  /** A directory has no size, MIME type or ETag, and cannot be read. */
  lemma StatOfDirectory(fs: Fs, rootName: string, mimeLookup: string -> Option<string>, path: string)
    requires AbsoluteKey(path).Ok?
    requires var k := AbsoluteKey(path).value; k in fs && fs[k].DirNode?
    ensures var info := StatIn(fs, rootName, mimeLookup, path).value;
      info.kind == Directory && info.size.None? && info.mimeType.None? && info.etag.None?
      && info.name == StatName(rootName, AbsoluteKey(path).value)
      && ReadIn(fs, path) == Err(IsADirectory)
  {
  }

  /** The file ETag tells modification time and size apart. */
  lemma {:induction false} FileETagInjective(mtime1: nat, size1: nat, mtime2: nat, size2: nat)
    requires FileETag(mtime1, size1) == FileETag(mtime2, size2)
    ensures mtime1 == mtime2 && size1 == size2
  {
    var m1, s1 := NatToString(mtime1), NatToString(size1);
    var m2, s2 := NatToString(mtime2), NatToString(size2);
    var e1, e2 := FileETag(mtime1, size1), FileETag(mtime2, size2);
    assert e1[1..|e1| - 1] == m1 + "-" + s1;
    assert e2[1..|e2| - 1] == m2 + "-" + s2;
    assert '-' !in m1 && '-' !in s1 && '-' !in m2 && '-' !in s2;
    SplitConcat(m1, s1, '-');
    SplitConcat(m2, s2, '-');
    SplitNoSeparator(s1, '-');
    SplitNoSeparator(s2, '-');
    var mid := e1[1..|e1| - 1];
    assert Split(mid, '-') == [m1, s1];
    assert Split(mid, '-') == [m2, s2];
    NatToBaseInjective(mtime1, mtime2, 10);
    NatToBaseInjective(size1, size2, 10);
  }

  // ---------------------------------------------------------------------
  // Properties of list
  // ---------------------------------------------------------------------

  /** `list()` and `list('')` list the root; a missing directory lists as empty. */
  lemma ListOfRootAndMissing(fs: Fs, mimeLookup: string -> Option<string>, path: string, r: Result<seq<FileInfo>, string>)
    requires IsListing(fs, mimeLookup, path, r)
    ensures path == "" && [] !in fs ==> r == Ok([])
    ensures ListKey(path).Ok? && ListKey(path).value !in fs ==> r == Ok([])
    ensures ListKey(path).Err? ==> r.Err?
  {
  }

  /** A successful listing is one of an existing directory, holding exactly its listed records. */
  lemma ListingMembers(fs: Fs, mimeLookup: string -> Option<string>, path: string, r: Result<seq<FileInfo>, string>)
    requires IsListing(fs, mimeLookup, path, r) && r.Ok?
    ensures ListKey(path).Ok?
    ensures forall x :: x in r.value ==> Listed(fs, ListKey(path).value, path, mimeLookup, x)
    ensures ListKey(path).value in fs ==> forall x :: Listed(fs, ListKey(path).value, path, mimeLookup, x) ==> x in r.value
  {
  }

  /** What the record of one entry holds. */
  predicate RecordOf(fs: Fs, dir: Key, path: string, mimeLookup: string -> Option<string>, x: FileInfo)
    requires dir + [x.name] in fs
  {
    var node := fs[dir + [x.name]];
    x.path == JoinPaths([path, x.name])
    && x.lastModified == Some(node.mtime)
    && (x.kind == Directory <==> node.DirNode?)
    && (x.kind == Directory ==> x.size.None? && x.etag.None? && x.mimeType.None?)
    && (x.kind == File ==>
          x.size == Some(|node.data|) && x.mimeType == Some(MimeOf(mimeLookup, x.name))
          && (x.etag.Some? <==> GetExtension(x.name) in ListedETagExtensions)
          && (x.etag.Some? ==> x.etag == Some(FileETag(node.mtime, |node.data|))))
  }

  lemma ListItemFields(fs: Fs, dir: Key, path: string, name: string, mimeLookup: string -> Option<string>)
    requires dir + [name] in fs
    ensures ListItem(fs, dir, path, name, mimeLookup).name == name
    ensures RecordOf(fs, dir, path, mimeLookup, ListItem(fs, dir, path, name, mimeLookup))
  {
  }

  /**
   * Every listed record is a visible entry of the directory (so `.thumbnails`
   * never appears), its path is `join(path, name)`, and a directory carries
   * neither size nor ETag; a file carries its size and MIME type, and an
   * ETag exactly when its extension is one of the image extensions.
   */
  lemma ListedRecord(fs: Fs, mimeLookup: string -> Option<string>, path: string, r: Result<seq<FileInfo>, string>, x: FileInfo)
    requires IsListing(fs, mimeLookup, path, r) && r.Ok? && x in r.value
    ensures ListKey(path).Ok?
    ensures var dir := ListKey(path).value;
      !Hidden(x.name) && dir + [x.name] in fs
      && RecordOf(fs, dir, path, mimeLookup, x)
  {
    var dir := ListKey(path).value;
    ListingMembers(fs, mimeLookup, path, r);
    var name :| dir + [name] in fs && !Hidden(name) && x == ListItem(fs, dir, path, name, mimeLookup);
    ListItemFields(fs, dir, path, name, mimeLookup);
  }

  /** The thumbnail directory is hidden, so `list` never shows it. */
  lemma ThumbnailDirHidden()
    ensures Hidden(".thumbnails")
  {
  }

  /** Every visible entry is listed. */
  lemma EntryIsListed(fs: Fs, mimeLookup: string -> Option<string>, path: string, r: Result<seq<FileInfo>, string>, name: string)
    requires WellFormed(fs)
    requires IsListing(fs, mimeLookup, path, r) && r.Ok? && ListKey(path).Ok?
    requires ListKey(path).value + [name] in fs && !Hidden(name)
    ensures ListItem(fs, ListKey(path).value, path, name, mimeLookup) in r.value
  {
    var dir := ListKey(path).value;
    assert Parent(dir + [name]) == dir;
    ListingMembers(fs, mimeLookup, path, r);
    assert Listed(fs, dir, path, mimeLookup, ListItem(fs, dir, path, name, mimeLookup));
  }

  /** In a listing all directories come before all files, and each kind is in ascending name order. */
  lemma ListingOrder(s: seq<FileInfo>, i: int, j: int)
    requires Sorted(s) && NoDuplicates(s) && 0 <= i < j < |s|
    requires forall k :: 0 <= k < |s| ==> s[k].kind == Directory || s[k].kind == File
    ensures s[i].kind == File ==> s[j].kind == File
    ensures s[i].kind == s[j].kind && s[i].name != s[j].name ==> NameLess(s[i].name, s[j].name)
  {
    if s[i].kind == s[j].kind && s[i].name != s[j].name {
      NameLessTotal(s[i].name, s[j].name);
    }
  }

  // ---------------------------------------------------------------------
  // Properties of delete, mkdir, write and move
  // ---------------------------------------------------------------------

  /**
   * `delete` succeeds exactly on existing paths; it then removes the entry
   * and, for a directory, everything inside it, and nothing else.
   */
  lemma DeleteRemovesSubtree(fs: Fs, path: string)
    requires WellFormed(fs)
    ensures DeleteStep(fs, path).0.Ok? <==> ExistsIn(fs, path)
    ensures DeleteStep(fs, path).0.Ok? ==> DeleteStep(fs, path).1 == RemoveTree(fs, AbsoluteKey(path).value)
    ensures DeleteStep(fs, path).0.Err? ==> DeleteStep(fs, path).1 == fs
    ensures WellFormed(DeleteStep(fs, path).1)
  {
    if DeleteStep(fs, path).0.Ok? {
      var k := AbsoluteKey(path).value;
      if fs[k].FileNode? {
        UnlinkIsRemoveTreeOfFile(fs, k);
      }
      RemoveTreeKeepsWellFormed(fs, k);
    }
  }

  /** `delete('.')` removes the storage root itself, and with it every file. */
  lemma DeleteRootRemovesEverything(fs: Fs)
    requires [] in fs && fs[[]].DirNode?
    ensures DeleteStep(fs, ".") == (Ok(()), map[])
  {
    NormalizeDot();
    assert Split(".", '/') == ["."] by {
      SplitNoSeparator(".", '/');
    }
    assert AbsoluteKey(".") == Ok([]);
    var r := RemoveTree(fs, []);
    assert r == map[] by {
      forall j ensures j !in r {
        assert IsPrefix([], j);
      }
    }
  }

  /** `mkdir` creates the directory and all its ancestors, and keeps everything there was. */
  lemma MkdirMakesDirectory(fs: Fs, path: string, now: nat)
    requires WellFormed(fs) && MkdirStep(fs, path, now).0.Ok?
    ensures var k := AbsoluteKey(path).value; var after := MkdirStep(fs, path, now).1;
      (forall i :: 0 <= i <= |k| ==> k[..i] in after && after[k[..i]].DirNode?)
      && (forall j :: j in fs ==> j in after && after[j] == fs[j])
      && WellFormed(after)
  {
    var k := AbsoluteKey(path).value;
    MkdirPMakesAncestors(fs, k, now);
    MkdirPKeepsWellFormed(fs, k, now);
  }

  /** A second `mkdir` of the same path changes nothing. */
  lemma MkdirIdempotent(fs: Fs, path: string, now: nat, later: nat)
    requires MkdirStep(fs, path, now).0.Ok?
    ensures MkdirStep(MkdirStep(fs, path, now).1, path, later) == (Ok(()), MkdirStep(fs, path, now).1)
  {
  }

  /**
   * `write` succeeds exactly when the path is accepted, no existing proper
   * ancestor of the target is a file and the target is not a directory.
   */
  lemma WriteSucceeds(fs: Fs, path: string, data: seq<byte>, now: nat)
    requires WellFormed(fs) && AbsoluteKey(path).Ok?
    ensures var k := AbsoluteKey(path).value;
      WriteStep(fs, path, data, now).0.Ok? <==>
        (forall i :: 0 <= i < |k| && k[..i] in fs ==> fs[k[..i]].DirNode?) && !(k in fs && fs[k].DirNode?)
  {
    WriteAtSucceeds(fs, AbsoluteKey(path).value, data, now);
  }

  lemma WriteAtSucceeds(fs: Fs, k: Key, data: seq<byte>, now: nat)
    requires WellFormed(fs)
    ensures WriteAt(fs, k, data, now).0.Ok? <==>
      (forall i :: 0 <= i < |k| && k[..i] in fs ==> fs[k[..i]].DirNode?) && !(k in fs && fs[k].DirNode?)
  {
    MkdirParentSucceeds(fs, k, now);
    if MkdirParent(fs, k, now).Ok? {
      MkdirParentKeepsTarget(fs, k, now);
    }
  }

  /** Creating the parent directories succeeds exactly when no existing proper ancestor is a file. */
  lemma MkdirParentSucceeds(fs: Fs, k: Key, now: nat)
    requires WellFormed(fs)
    ensures MkdirParent(fs, k, now).Ok? <==> forall i :: 0 <= i < |k| && k[..i] in fs ==> fs[k[..i]].DirNode?
  {
    if k != [] {
      var p := Parent(k);
      MkdirPSucceeds(fs, p, now);
      forall i | 0 <= i <= |p| ensures p[..i] == k[..i] {
      }
    }
  }

  /** Creating the parent directories does not create or change the target itself. */
  lemma MkdirParentKeepsTarget(fs: Fs, k: Key, now: nat)
    requires MkdirParent(fs, k, now).Ok?
    ensures k in MkdirParent(fs, k, now).value <==> k in fs
    ensures k in fs ==> MkdirParent(fs, k, now).value[k] == fs[k]
  {
    if k != [] {
      assert |Parent(k)| < |k|;
    }
  }

  /**
   * After a successful `write`, reading the path gives the data written, the
   * modification time is `now`, and every other entry there was is unchanged.
   */
  lemma WriteThenRead(fs: Fs, path: string, data: seq<byte>, now: nat)
    requires WellFormed(fs) && WriteStep(fs, path, data, now).0.Ok?
    ensures var after := WriteStep(fs, path, data, now).1; var k := AbsoluteKey(path).value;
      ReadIn(after, path) == Ok(data) && ExistsIn(after, path) && after[k] == FileNode(data, now)
      && (forall j :: j in fs && j != k ==> j in after && after[j] == fs[j])
      && WellFormed(after)
  {
    var k := AbsoluteKey(path).value;
    var fs1 := MkdirParent(fs, k, now).value;
    MkdirParentKeepsWellFormed(fs, k, now);
    WriteFileKeepsWellFormed(fs1, k, data, now);
  }

  /** `move` of an absent source throws "Source not found" and creates nothing. */
  lemma MoveMissingSource(fs: Fs, src: string, dst: string, now: nat)
    requires AbsoluteKey(src).Ok? && AbsoluteKey(dst).Ok? && AbsoluteKey(src).value !in fs
    ensures MoveStep(fs, src, dst, now) == (Err(SourceNotFound(src)), fs)
  {
  }

  /**
   * After a successful `move` of an existing source to another place, the
   * source is gone and the destination holds what the source held; a
   * file reads the same at its new path.
   */
  lemma MoveRelocates(fs: Fs, src: string, dst: string, now: nat)
    requires WellFormed(fs) && MoveStep(fs, src, dst, now).0.Ok?
    requires AbsoluteKey(src).value != AbsoluteKey(dst).value
    ensures var s, d := AbsoluteKey(src).value, AbsoluteKey(dst).value;
      var after := MoveStep(fs, src, dst, now).1;
      s in fs && s !in after && !ExistsIn(after, src) && d in after && after[d] == fs[s]
      && (fs[s].FileNode? ==> ReadIn(after, dst) == ReadIn(fs, src))
  {
    var s, d := AbsoluteKey(src).value, AbsoluteKey(dst).value;
    var fs1 := MkdirParent(fs, d, now).value;
    MkdirParentKeepsWellFormed(fs, d, now);
    RenameGoesAhead(fs1, s, d);
    MovedContents(fs1, s, d);
  }

  /** `move` keeps the file system well formed, whether `rename` succeeds or not. */
  lemma MoveKeepsWellFormed(fs: Fs, src: string, dst: string, now: nat)
    requires WellFormed(fs)
    ensures WellFormed(MoveStep(fs, src, dst, now).1)
  {
    if AbsoluteKey(src).Ok? && AbsoluteKey(dst).Ok? && AbsoluteKey(src).value in fs {
      var s, d := AbsoluteKey(src).value, AbsoluteKey(dst).value;
      var made := MkdirParent(fs, d, now);
      if made.Ok? {
        MkdirParentKeepsWellFormed(fs, d, now);
        if Rename(made.value, s, d).Ok? {
          RenameKeepsWellFormed(made.value, s, d);
        }
      }
    }
  }
}
