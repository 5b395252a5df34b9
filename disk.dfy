/**
 * The file system under the storage root, as the Node `fs` calls the
 * storage adapter and the thumbnail service make see it: a map from paths
 * relative to the root (a sequence of segments; the root itself is `[]`) to
 * regular files and directories.
 *
 * The operations are those of `mkdir(…, {recursive: true})`, `unlink`,
 * `rm(…, {recursive: true, force: true})`, `rename` and a whole-buffer
 * write, with the POSIX error cases that can arise between them.
 */
module Disk {
  import opened Base

  type Key = seq<string>

  /** A file's content and modification time, or a directory's modification time (milliseconds). */
  datatype Node = FileNode(data: seq<byte>, mtime: nat) | DirNode(mtime: nat)

  type Fs = map<Key, Node>

  const NoEntry := "ENOENT"
  const AlreadyExists := "EEXIST"
  const NotADirectory := "ENOTDIR"
  const IsADirectory := "EISDIR"
  const NotEmpty := "ENOTEMPTY"
  const InvalidArgument := "EINVAL"

  /** `p` is `k` or one of its ancestors. */
  predicate IsPrefix(p: Key, k: Key) {
    |p| <= |k| && k[..|p|] == p
  }

  /** `k` lies strictly inside the directory `p`. */
  predicate IsUnder(p: Key, k: Key) {
    |p| < |k| && k[..|p|] == p
  }

  function Parent(k: Key): Key
    requires k != []
  {
    k[..|k| - 1]
  }

  /** Every entry other than the root sits in a directory; the root itself may be missing. */
  predicate WellFormed(fs: Fs) {
    forall k {:trigger Parent(k), k in fs} :: k in fs && k != [] ==> Parent(k) in fs && fs[Parent(k)].DirNode?
  }

  /** `readdir(dir)`: the names in the directory. */
  function Children(fs: Fs, dir: Key): set<string> {
    set k | k in fs && |k| == |dir| + 1 && k[..|dir|] == dir :: k[|dir|]
  }

  predicate HasDescendants(fs: Fs, k: Key) {
    exists j :: j in fs && IsUnder(k, j)
  }

  // ---------------------------------------------------------------------
  // Operations
  // ---------------------------------------------------------------------

  /** `mkdir(k, {recursive: true})` at time `now`. */
  function MkdirP(fs: Fs, k: Key, now: nat): (r: Result<Fs, string>)
    ensures r.Ok? ==> k in r.value && r.value[k].DirNode?
    ensures r.Ok? ==> forall j :: j in fs ==> j in r.value && r.value[j] == fs[j]
    ensures r.Ok? ==> forall j :: j in r.value && j !in fs ==> IsPrefix(j, k) && r.value[j] == DirNode(now)
    decreases |k|
  {
    if k in fs then
      if fs[k].DirNode? then Ok(fs) else Err(AlreadyExists)
    else if k == [] then
      Ok(fs[k := DirNode(now)])
    else
      match MkdirP(fs, Parent(k), now)
      case Err(_) => Err(NotADirectory)
      case Ok(fs') => Ok(fs'[k := DirNode(now)])
  }

  /** `mkdir(dirname(k), {recursive: true})`; the root's parent lies outside the model and always exists. */
  function MkdirParent(fs: Fs, k: Key, now: nat): (r: Result<Fs, string>)
    ensures r.Ok? && k != [] ==> Parent(k) in r.value && r.value[Parent(k)].DirNode?
    ensures r.Ok? ==> forall j :: j in fs ==> j in r.value && r.value[j] == fs[j]
    ensures r.Ok? ==> forall j :: j in r.value && j !in fs ==> k != [] && IsPrefix(j, Parent(k)) && r.value[j] == DirNode(now)
  {
    if k == [] then Ok(fs) else MkdirP(fs, Parent(k), now)
  }

  /** Writing a whole buffer to `k` at time `now`: creates or truncates a regular file. */
  function WriteFile(fs: Fs, k: Key, data: seq<byte>, now: nat): (r: Result<Fs, string>)
    ensures r.Ok? <==> !(k in fs && fs[k].DirNode?) && (k == [] || (Parent(k) in fs && fs[Parent(k)].DirNode?))
    ensures r.Ok? ==> r.value == fs[k := FileNode(data, now)]
  {
    if k in fs && fs[k].DirNode? then Err(IsADirectory)
    else if k != [] && !(Parent(k) in fs && fs[Parent(k)].DirNode?) then Err(NoEntry)
    else Ok(fs[k := FileNode(data, now)])
  }

  /** `unlink(k)`. */
  function Unlink(fs: Fs, k: Key): (r: Fs)
    ensures k !in r && forall j :: j != k ==> (j in r <==> j in fs) && (j in r ==> r[j] == fs[j])
  {
    fs - {k}
  }

  /** `rm(k, {recursive: true, force: true})`: the entry and everything inside it. */
  function RemoveTree(fs: Fs, k: Key): (r: Fs)
    ensures forall j :: j in r <==> j in fs && !IsPrefix(k, j)
    ensures forall j :: j in r ==> r[j] == fs[j]
  {
    map j | j in fs && !IsPrefix(k, j) :: fs[j]
  }

  /** The entries outside both `src` and `dst`, as `rename(src, dst)` leaves them. */
  function Kept(fs: Fs, src: Key, dst: Key): (r: Fs) {
    map j | j in fs && !IsPrefix(src, j) && !IsPrefix(dst, j) :: fs[j]
  }

  /** `k` inside `src` moved to the same place inside `dst`. */
  function Rebase(k: Key, src: Key, dst: Key): Key
    requires IsPrefix(src, k)
  {
    dst + k[|src|..]
  }

  /**
   * The subtree of `src`, re-rooted at `dst`. (The last conjunct, true of
   * every `j` inside `src`, shows that rebasing is injective.)
   */
  function Image(fs: Fs, src: Key, dst: Key): (r: Fs) {
    map j | j in fs && IsPrefix(src, j) && j == src + Rebase(j, src, dst)[|dst|..] :: Rebase(j, src, dst) := fs[j]
  }

  /** The file system after a successful `rename(src, dst)`. */
  function Moved(fs: Fs, src: Key, dst: Key): Fs {
    Kept(fs, src, dst) + Image(fs, src, dst)
  }

  /**
   * `rename(src, dst)` on Linux: renaming onto itself succeeds and changes
   * nothing; a directory cannot move inside itself; a file replaces a file
   * and a directory an empty directory; the parent of `dst` must be a
   * directory.
   */
  function Rename(fs: Fs, src: Key, dst: Key): (r: Result<Fs, string>)
    requires src in fs
  {
    if src == dst then Ok(fs)
    else if IsUnder(src, dst) then Err(InvalidArgument)
    else if dst in fs && fs[src].FileNode? && fs[dst].DirNode? then Err(IsADirectory)
    else if dst in fs && fs[src].DirNode? && fs[dst].FileNode? then Err(NotADirectory)
    else if HasDescendants(fs, dst) then Err(NotEmpty)
    else if dst != [] && !(Parent(dst) in fs && fs[Parent(dst)].DirNode?) then Err(NoEntry)
    else Ok(Moved(fs, src, dst))
  }

  /**
   * The file system under the storage root; the storage adapter and the
   * thumbnail service share one.
   */
  class FileSystem {
    var fs: Fs

    ghost predicate Valid()
      reads this
    {
      WellFormed(fs)
    }

    constructor(initial: Fs)
      requires WellFormed(initial)
      ensures fs == initial && Valid()
    {
      fs := initial;
    }
  }

  // ---------------------------------------------------------------------
  // Properties
  // ---------------------------------------------------------------------

  /** In a well-formed tree every ancestor of an entry is a directory. */
  lemma {:induction false} AncestorsAreDirs(fs: Fs, k: Key)
    requires WellFormed(fs) && k in fs
    ensures forall i :: 0 <= i < |k| ==> k[..i] in fs && fs[k[..i]].DirNode?
    decreases |k|
  {
    if k != [] {
      var p := Parent(k);
      AncestorsAreDirs(fs, p);
      forall i | 0 <= i < |k| ensures k[..i] in fs && fs[k[..i]].DirNode? {
        if i < |p| {
          assert k[..i] == p[..i];
        }
      }
    }
  }

  /** `mkdir -p` succeeds exactly when no prefix of the path is a regular file. */
  lemma {:induction false} MkdirPSucceeds(fs: Fs, k: Key, now: nat)
    requires WellFormed(fs)
    ensures MkdirP(fs, k, now).Ok? <==> forall i :: 0 <= i <= |k| && k[..i] in fs ==> fs[k[..i]].DirNode?
    decreases |k|
  {
    assert k[..|k|] == k;
    if k in fs {
      AncestorsAreDirs(fs, k);
    } else if k != [] {
      var p := Parent(k);
      MkdirPSucceeds(fs, p, now);
      forall i | 0 <= i <= |p| ensures k[..i] == p[..i] {
      }
    }
  }

  /** Adding a directory inside a directory keeps the tree well formed. */
  lemma AddDirKeepsWellFormed(m: Fs, k: Key, now: nat)
    requires WellFormed(m)
    requires k != [] && Parent(k) in m && m[Parent(k)].DirNode?
    ensures WellFormed(m[k := DirNode(now)])
  {
    var r := m[k := DirNode(now)];
    forall j | j in r && j != [] ensures Parent(j) in r && r[Parent(j)].DirNode? {
      if j != k {
        assert j in m;
      }
    }
  }

  /** After `mkdir -p` the tree is still well formed. */
  lemma {:induction false} MkdirPKeepsWellFormed(fs: Fs, k: Key, now: nat)
    requires WellFormed(fs)
    requires MkdirP(fs, k, now).Ok?
    ensures WellFormed(MkdirP(fs, k, now).value)
    decreases |k|
  {
    if k in fs {
    } else if k == [] {
      RootHoldsEverything(fs);
      assert fs == map[];
    } else {
      var p := Parent(k);
      MkdirPKeepsWellFormed(fs, p, now);
      AddDirKeepsWellFormed(MkdirP(fs, p, now).value, k, now);
    }
  }

  /** After `mkdir -p` the path and all its ancestors are directories. */
  lemma {:induction false} MkdirPMakesAncestors(fs: Fs, k: Key, now: nat)
    requires WellFormed(fs)
    requires MkdirP(fs, k, now).Ok?
    ensures forall i :: 0 <= i <= |k| ==> k[..i] in MkdirP(fs, k, now).value && MkdirP(fs, k, now).value[k[..i]].DirNode?
    decreases |k|
  {
    var r := MkdirP(fs, k, now).value;
    assert k[..|k|] == k;
    if k in fs {
      AncestorsAreDirs(fs, k);
    } else if k != [] {
      var p := Parent(k);
      MkdirPMakesAncestors(fs, p, now);
      assert p[..|p|] == p;
      forall i | 0 <= i < |k| ensures k[..i] in r && r[k[..i]].DirNode? {
        assert k[..i] == p[..i];
      }
    }
  }

  /** Without the root a well-formed tree is empty. */
  lemma RootHoldsEverything(fs: Fs)
    requires WellFormed(fs)
    ensures forall j :: j in fs ==> [] in fs
  {
    forall j | j in fs ensures [] in fs {
      if j != [] {
        AncestorsAreDirs(fs, j);
        assert j[..0] == [];
      }
    }
  }

  /** `k` rebased from `src` to `dst` and back. */
  lemma RebaseInverse(k: Key, src: Key, dst: Key)
    requires IsPrefix(src, k)
    ensures IsPrefix(dst, Rebase(k, src, dst))
    ensures k == src + Rebase(k, src, dst)[|dst|..]
  {
    var r := Rebase(k, src, dst);
    assert r[|dst|..] == k[|src|..];
    assert k == k[..|src|] + k[|src|..];
  }

  /** The image holds the `src` subtree at `dst`, and nothing else. */
  lemma ImageSpec(fs: Fs, src: Key, dst: Key)
    ensures forall j :: j in fs && IsPrefix(src, j) ==>
              Rebase(j, src, dst) in Image(fs, src, dst) && Image(fs, src, dst)[Rebase(j, src, dst)] == fs[j]
    ensures forall k :: k in Image(fs, src, dst) ==>
              IsPrefix(dst, k) && src + k[|dst|..] in fs && IsPrefix(src, src + k[|dst|..])
              && Image(fs, src, dst)[k] == fs[src + k[|dst|..]] && k == Rebase(src + k[|dst|..], src, dst)
  {
    var im := Image(fs, src, dst);
    forall j | j in fs && IsPrefix(src, j) ensures Rebase(j, src, dst) in im && im[Rebase(j, src, dst)] == fs[j] {
      RebaseInverse(j, src, dst);
    }
    forall k | k in im
      ensures IsPrefix(dst, k) && src + k[|dst|..] in fs && IsPrefix(src, src + k[|dst|..])
              && im[k] == fs[src + k[|dst|..]] && k == Rebase(src + k[|dst|..], src, dst)
    {
      var j :| j in fs && IsPrefix(src, j) && j == src + Rebase(j, src, dst)[|dst|..] && k == Rebase(j, src, dst);
      RebaseInverse(j, src, dst);
    }
  }

  /** Only a directory has entries inside it. */
  lemma NothingInsideNonDir(fs: Fs, k: Key)
    requires WellFormed(fs) && !(k in fs && fs[k].DirNode?)
    ensures !HasDescendants(fs, k)
  {
    forall j | j in fs ensures !IsUnder(k, j) {
      AncestorsAreDirs(fs, j);
    }
  }

  /** Unlinking a regular file removes exactly what removing its tree would. */
  lemma UnlinkIsRemoveTreeOfFile(fs: Fs, k: Key)
    requires WellFormed(fs) && k in fs && fs[k].FileNode?
    ensures Unlink(fs, k) == RemoveTree(fs, k)
  {
    NothingInsideNonDir(fs, k);
    forall j | j in fs && IsPrefix(k, j) ensures j == k {
      assert !IsUnder(k, j);
      assert j[..|j|] == j;
    }
  }

  lemma RemoveTreeKeepsWellFormed(fs: Fs, k: Key)
    requires WellFormed(fs)
    ensures WellFormed(RemoveTree(fs, k))
  {
    var r := RemoveTree(fs, k);
    forall j | j in r && j != [] ensures Parent(j) in r && r[Parent(j)].DirNode? {
      assert !IsPrefix(k, j);
    }
  }

  lemma UnlinkKeepsWellFormed(fs: Fs, k: Key)
    requires WellFormed(fs) && k in fs && fs[k].FileNode?
    ensures WellFormed(Unlink(fs, k))
  {
    UnlinkIsRemoveTreeOfFile(fs, k);
    RemoveTreeKeepsWellFormed(fs, k);
  }

  lemma WriteFileKeepsWellFormed(fs: Fs, k: Key, data: seq<byte>, now: nat)
    requires WellFormed(fs)
    requires WriteFile(fs, k, data, now).Ok?
    ensures WellFormed(WriteFile(fs, k, data, now).value)
  {
    var r := fs[k := FileNode(data, now)];
    NothingInsideNonDir(fs, k);
    forall j | j in r && j != [] ensures Parent(j) in r && r[Parent(j)].DirNode? {
      if j != k {
        assert j in fs && !IsUnder(k, j);
      }
    }
  }

  /** The conditions under which `rename(src, dst)` goes ahead. */
  predicate CanMove(fs: Fs, src: Key, dst: Key) {
    src in fs && src != dst && !IsUnder(src, dst) && !HasDescendants(fs, dst)
    && (dst == [] || (Parent(dst) in fs && fs[Parent(dst)].DirNode?))
  }

  lemma RenameGoesAhead(fs: Fs, src: Key, dst: Key)
    requires src in fs && src != dst && Rename(fs, src, dst).Ok?
    ensures CanMove(fs, src, dst) && Rename(fs, src, dst).value == Moved(fs, src, dst)
  {
  }

  /** Rebasing commutes with taking the parent. */
  lemma RebaseParent(i: Key, src: Key, dst: Key)
    requires IsUnder(src, i)
    ensures IsPrefix(src, Parent(i))
    ensures Rebase(i, src, dst) != [] && Rebase(Parent(i), src, dst) == Parent(Rebase(i, src, dst))
  {
    assert Parent(i)[..|src|] == i[..|src|];
    assert Parent(i)[|src|..] == i[|src|..][..|i| - |src| - 1];
  }

  /**
   * After a rename the `src` subtree sits at `dst`, everything outside both
   * is untouched, and there is nothing else.
   */
  lemma MovedContents(fs: Fs, src: Key, dst: Key)
    requires WellFormed(fs) && CanMove(fs, src, dst)
    ensures src !in Moved(fs, src, dst)
    ensures dst in Moved(fs, src, dst) && Moved(fs, src, dst)[dst] == fs[src]
    ensures forall j :: j in fs && IsPrefix(src, j) ==>
              Rebase(j, src, dst) in Moved(fs, src, dst) && Moved(fs, src, dst)[Rebase(j, src, dst)] == fs[j]
    ensures forall j :: j in fs && !IsPrefix(src, j) && j != dst ==>
              j in Moved(fs, src, dst) && Moved(fs, src, dst)[j] == fs[j]
    ensures forall j :: j in Moved(fs, src, dst) ==>
              if IsPrefix(dst, j) then src + j[|dst|..] in fs && Moved(fs, src, dst)[j] == fs[src + j[|dst|..]]
              else j in fs && !IsPrefix(src, j) && Moved(fs, src, dst)[j] == fs[j]
  {
    ImageSpec(fs, src, dst);
    var r := Moved(fs, src, dst);
    RebaseInverse(src, src, dst);
    assert src[|src|..] == [] && dst + [] == dst;
    forall j | j in fs && !IsPrefix(src, j) && j != dst ensures !IsPrefix(dst, j) {
      assert !IsUnder(dst, j);
    }
  }

  /** The parent of an entry of the moved subtree is a directory. */
  lemma MovedParentInside(fs: Fs, src: Key, dst: Key, j: Key)
    requires WellFormed(fs) && CanMove(fs, src, dst)
    requires j in Moved(fs, src, dst) && j != [] && IsPrefix(dst, j)
    ensures Parent(j) in Moved(fs, src, dst) && Moved(fs, src, dst)[Parent(j)].DirNode?
  {
    MovedContents(fs, src, dst);
    var i := src + j[|dst|..];
    RebaseInverse(i, src, dst);
    assert i[|src|..] == j[|dst|..];
    assert j == Rebase(i, src, dst);
    if i == src {
      assert j == dst;
      assert !IsPrefix(src, Parent(dst));
    } else {
      RebaseParent(i, src, dst);
    }
  }

  /** The parent of an entry outside the moved subtree is a directory. */
  lemma MovedParentOutside(fs: Fs, src: Key, dst: Key, j: Key)
    requires WellFormed(fs) && CanMove(fs, src, dst)
    requires j in Moved(fs, src, dst) && j != [] && !IsPrefix(dst, j)
    ensures Parent(j) in Moved(fs, src, dst) && Moved(fs, src, dst)[Parent(j)].DirNode?
  {
    MovedContents(fs, src, dst);
    PrefixOfParent(dst, j);
    PrefixOfParent(src, j);
  }

  /** What lies under a directory's child's parent lies under the child too. */
  lemma PrefixOfParent(p: Key, j: Key)
    requires j != []
    ensures IsPrefix(p, Parent(j)) ==> IsPrefix(p, j)
  {
    if IsPrefix(p, Parent(j)) {
      assert j[..|p|] == Parent(j)[..|p|];
    }
  }

  lemma MovedKeepsWellFormed(fs: Fs, src: Key, dst: Key)
    requires WellFormed(fs) && CanMove(fs, src, dst)
    ensures WellFormed(Moved(fs, src, dst))
  {
    var r := Moved(fs, src, dst);
    forall j | j in r && j != [] ensures Parent(j) in r && r[Parent(j)].DirNode? {
      if IsPrefix(dst, j) {
        MovedParentInside(fs, src, dst, j);
      } else {
        MovedParentOutside(fs, src, dst, j);
      }
    }
  }
}
