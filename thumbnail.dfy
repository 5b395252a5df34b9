/**
 * backend/src/services/thumbnail.ts: `ThumbnailService`, which keeps one
 * thumbnail per file name in the `.thumbnails` directory of the storage
 * root. The `sharp` pipeline (decode, resize to fit inside a square,
 * JPEG-encode) is the parameter `resize`; None stands for a pipeline that
 * throws. The clock that stamps new files is a parameter `now`.
 */
module Thumbnail {
  import opened Base
  import opened Paths
  import opened Disk
  import opened StorageLocal

  const ThumbnailDirName := ".thumbnails"

  /** `join(storageRoot, '.thumbnails')`. */
  const ThumbnailDir: Key := [ThumbnailDirName]

  /** The extensions `generate` accepts; SVG is not among them. */
  const ThumbnailExtensions: seq<string> := [".jpg", ".jpeg", ".png"]

  predicate Eligible(fileName: string) {
    GetExtension(fileName) in ThumbnailExtensions
  }

  /** `${fileName}.thumb${ext}`, which `generate` returns. */
  function ThumbnailFileName(fileName: string): string {
    fileName + ".thumb" + GetExtension(fileName)
  }

  // ---------------------------------------------------------------------
  // Where the thumbnail goes
  // ---------------------------------------------------------------------

  /** A place relative to the storage root: inside it, or above it. */
  datatype Place = InStorage(key: Key) | AboveStorage(relative: string)

  /**
   * `join(thumbnailDir, thumbnailFileName)` as written: the file name is
   * joined unchecked, so its `..` segments climb out of `.thumbnails`.
   */
  function JoinedThumbnailPlace(fileName: string): Place {
    PlaceInThumbnailDir(ThumbnailFileName(fileName))
  }

  /** Where `join(thumbnailDir, name)` points, relative to the storage root. */
  function PlaceInThumbnailDir(name: string): Place {
    var p := JoinPaths([ThumbnailDirName, name]);
    var segs := Split(p, '/');
    if segs[0] == ".." then AboveStorage(p) else InStorage(Segments(segs))
  }

  /**
   * Where the thumbnail of `fileName` is kept: in `.thumbnails`, named after
   * the base name of `fileName` (the name `stat` reports, which
   * `deleteThumbnail` is called with).
   */
  function ThumbnailKey(fileName: string): (k: Key)
    ensures |k| == 2 && k[0] == ThumbnailDirName && Plain(k[1])
  {
    var n := BaseName(fileName) + ".thumb" + GetExtension(fileName);
    ThumbnailNamePlain(fileName);
    ThumbnailDir + [n]
  }

  lemma ThumbnailNamePlain(fileName: string)
    ensures Plain(BaseName(fileName) + ".thumb" + GetExtension(fileName))
  {
    ExtensionShape(fileName);
    MarkedNamePlain(BaseName(fileName), GetExtension(fileName));
  }

  /** A name with `.thumb` inside and no `/` on either side is a plain segment. */
  lemma MarkedNamePlain(b: string, e: string)
    requires '/' !in b && '/' !in e
    ensures Plain(b + ".thumb" + e)
  {
    var n := b + ".thumb" + e;
    assert n[|b|..|b| + 6] == ".thumb";
    assert |n| >= 6;
    forall j | 0 <= j < |n| ensures n[j] != '/' {
      if j < |b| {
        assert n[j] == b[j] && b[j] in b;
      } else if j >= |b| + 6 {
        assert n[j] == e[j - |b| - 6] && e[j - |b| - 6] in e;
      }
    }
  }

  lemma NonEmptyOfTwo(a: string, n: string)
    requires a != "" && n != ""
    ensures NonEmpty([a, n]) == [a, n]
  {
    assert [n][1..] == [];
    assert NonEmpty([n]) == [n];
    assert [a, n][1..] == [n];
  }

  /** Joining two plain segments just puts a `/` between them. */
  lemma JoinTwoPlain(a: string, n: string)
    requires Plain(a) && Plain(n)
    ensures JoinPaths([a, n]) == a + "/" + n
    ensures Split(a + "/" + n, '/') == [a, n]
  {
    NonEmptyOfTwo(a, n);
    var joined := a + "/" + n;
    assert [a, n][1..] == [n];
    assert Join([a, n], "/") == joined;
    SplitConcat(a, n, '/');
    SplitNoSeparator(n, '/');
    assert Collapse([a], true) == [a];
    assert [a, n][..1] == [a];
    assert Collapse([a, n], true) == [a, n];
    assert a[0] in a && n[|n| - 1] in n;
    assert joined[0] == a[0] && joined[|joined| - 1] == n[|n| - 1];
  }

  /** A plain name is kept in `.thumbnails`, under its own name. */
  lemma PlainNameInThumbnailDir(n: string)
    requires Plain(n)
    ensures PlaceInThumbnailDir(n) == InStorage(ThumbnailDir + [n])
  {
    JoinTwoPlain(ThumbnailDirName, n);
    SegmentsOfPlain([ThumbnailDirName, n]);
  }

  /** For a name without `/`, the corrected place is the place the code computes. */
  lemma PlacesAgreeOnPlainNames(fileName: string)
    requires '/' !in fileName
    ensures JoinedThumbnailPlace(fileName) == InStorage(ThumbnailKey(fileName))
  {
    if fileName != [] {
      BaseNameOfPlainName(fileName);
    } else {
      assert BaseName(fileName) == "";
    }
    ThumbnailNamePlain(fileName);
    PlainNameInThumbnailDir(ThumbnailFileName(fileName));
  }

  lemma CollapseThreePlain(t: string, a: string, n: string)
    requires Plain(t) && Plain(a) && Plain(n)
    ensures Collapse([t, a, n], true) == [t, a, n]
  {
    var segs := [t, a, n];
    assert segs[..1] == [t] && segs[..2] == [t, a];
    assert segs[..1][..0] == [] && segs[..2][..1] == segs[..1];
    assert Collapse(segs[..1], true) == [t];
    assert Collapse(segs[..2], true) == [t, a];
  }

  /** A name `a/n` joined onto `.thumbnails` points into the sub-folder `.thumbnails/a`. */
  lemma SubfolderNameInThumbnailDir(a: string, n: string)
    requires Plain(a) && Plain(n)
    ensures PlaceInThumbnailDir(a + "/" + n) == InStorage([ThumbnailDirName, a, n])
  {
    var t := ThumbnailDirName;
    JoinSubfolderName(a, n);
    SplitThreeParts(t, a, n, '/');
    SegmentsOfPlain([t, a, n]);
  }

  /** `join(thumbnailDir, 'a/n')` is the path `.thumbnails/a/n` itself. */
  lemma JoinSubfolderName(a: string, n: string)
    requires Plain(a) && Plain(n)
    ensures JoinPaths([ThumbnailDirName, a + "/" + n]) == ThumbnailDirName + "/" + a + "/" + n
  {
    var t := ThumbnailDirName;
    var m := a + "/" + n;
    assert m[|a|] == '/' && |m| > 0;
    NonEmptyOfTwo(t, m);
    var joined := t + "/" + a + "/" + n;
    assert [t, m][1..] == [m];
    assert Join([t, m], "/") == joined;
    SplitThreeParts(t, a, n, '/');
    CollapseThreePlain(t, a, n);
    assert [t, a, n][1..] == [a, n] && [a, n][1..] == [n];
    assert Join([a, n], "/") == m;
    assert Join([t, a, n], "/") == t + "/" + m == joined;
    assert n[|n| - 1] in n;
    assert joined[0] == t[0] && joined[|joined| - 1] == n[|n| - 1];
    assert JoinPaths([t, m]) == joined;
  }

  /** `a/x` has the base name, hence the extension, of `x`. */
  lemma SubfolderNameParts(a: string, x: string)
    requires Plain(a) && Plain(x)
    ensures GetExtension(a + "/" + x) == GetExtension(x)
  {
    BaseNameAfterSlash(a, x);
    BaseNameOfPlainName(x);
    ExtensionFollowsBaseName(a + "/" + x, x);
  }

  lemma ExtensionFollowsBaseName(p: string, q: string)
    requires BaseName(p) == BaseName(q)
    ensures GetExtension(p) == GetExtension(q)
  {
  }

  lemma SubfolderThumbnailName(a: string, x: string)
    requires GetExtension(a + "/" + x) == GetExtension(x)
    ensures ThumbnailFileName(a + "/" + x) == a + "/" + ThumbnailFileName(x)
  {
  }

  /** Where the code and the corrected key put the thumbnail of `a/x`. */
  lemma SubfolderPlace(a: string, x: string)
    requires Plain(a) && Plain(x)
    ensures GetExtension(a + "/" + x) == GetExtension(x)
    ensures JoinedThumbnailPlace(a + "/" + x) == InStorage([ThumbnailDirName, a, ThumbnailFileName(x)])
    ensures ThumbnailKey(a + "/" + x) == ThumbnailKey(x)
  {
    SubfolderNameParts(a, x);
    SubfolderThumbnailName(a, x);
    ThumbnailNamePlain(x);
    BaseNameOfPlainName(x);
    BaseNameAfterSlash(a, x);
    SubfolderNameInThumbnailDir(a, ThumbnailFileName(x));
  }

  /**
   * An image named `a/x` (a name that reaches `generate` unchecked from an
   * upload) has its thumbnail placed by the code in `.thumbnails/a`, a
   * folder nobody creates: while that folder is missing, `generate` makes
   * nothing and reports no thumbnail. The corrected key is that of `x`.
   */
  lemma SubfolderNameNeedsFolder(fs: Fs, source: Key, a: string, x: string, size: nat, quality: nat,
                                 resize: (seq<byte>, nat, nat) -> Option<seq<byte>>, now: nat)
    requires WellFormed(fs) && Plain(a) && Plain(x) && [ThumbnailDirName, a] !in fs
    ensures JoinedThumbnailPlace(a + "/" + x) == InStorage([ThumbnailDirName, a, ThumbnailFileName(x)])
    ensures GenerateStep(fs, source, a + "/" + x, size, quality, resize, now) == (None, fs)
    ensures ThumbnailKey(a + "/" + x) == ThumbnailKey(x)
  {
    SubfolderPlace(a, x);
    var k := [ThumbnailDirName, a, ThumbnailFileName(x)];
    assert Parent(k) == [ThumbnailDirName, a];
    assert k !in fs;
    GenerateMissingFolder(fs, source, a + "/" + x, k, size, quality, resize, now);
  }

  /** A thumbnail whose folder is missing is not made, and nothing changes. */
  lemma GenerateMissingFolder(fs: Fs, source: Key, fileName: string, k: Key, size: nat, quality: nat,
                              resize: (seq<byte>, nat, nat) -> Option<seq<byte>>, now: nat)
    requires JoinedThumbnailPlace(fileName) == InStorage(k) && k != [] && k !in fs && Parent(k) !in fs
    ensures GenerateStep(fs, source, fileName, size, quality, resize, now) == (None, fs)
  {
  }

  lemma CollapseClimbingTwice(a: string, t: string)
    requires Plain(a) && Plain(t)
    ensures Collapse([a, "..", "..", t], true) == ["..", t]
  {
    var segs := [a, "..", "..", t];
    assert segs[..1] == [a];
    assert segs[..2] == [a, ".."];
    assert segs[..3] == [a, "..", ".."];
    assert segs[..1][..0] == [] && segs[..2][..1] == segs[..1] && segs[..3][..2] == segs[..2];
    assert Collapse(segs[..1], true) == [a];
    assert Collapse(segs[..2], true) == [];
    assert Collapse(segs[..3], true) == [".."];
  }

  /** Two `..` segments after a plain segment climb one level above where it started. */
  lemma JoinClimbingTwice(a: string, t: string)
    requires Plain(a) && Plain(t)
    ensures JoinPaths([a, "../../" + t]) == "../" + t
  {
    var n := "../../" + t;
    NonEmptyOfTwo(a, n);
    var joined := a + "/" + ".." + "/" + ".." + "/" + t;
    assert [a, n][1..] == [n];
    assert Join([a, n], "/") == joined;
    SplitFourParts(a, "..", "..", t, '/');
    CollapseClimbingTwice(a, t);
    assert ["..", t][1..] == [t];
    assert Join(["..", t], "/") == "../" + t;
    assert a[0] in a && t[|t| - 1] in t;
    assert joined[0] == a[0] && joined[|joined| - 1] == t[|t| - 1];
  }

  /** `../../t` joined onto `.thumbnails` lands above the storage root. */
  lemma ClimbingNameLeavesStorage(t: string)
    requires Plain(t)
    ensures PlaceInThumbnailDir("../../" + t) == AboveStorage("../" + t)
  {
    JoinClimbingTwice(ThumbnailDirName, t);
    assert "../" + t == ".." + ['/'] + t;
    SplitConcat("..", t, '/');
  }

  /** The base name of `pre/b` is `b`. */
  lemma BaseNameAfterSlash(pre: string, b: string)
    requires b != "" && '/' !in b
    ensures BaseName(pre + "/" + b) == b
  {
    var s := pre + "/" + b;
    assert b[|b| - 1] in b;
    assert DropTrailingSlashes(s) == s;
    forall j | |pre| < j < |s| ensures s[j] != '/' {
      assert s[j] == b[j - |pre| - 1] && b[j - |pre| - 1] in b;
    }
    LastIndexOfAt(s, '/', |pre|);
    assert s[|pre| + 1..] == b;
  }

  /**
   * An uploaded file named `../../x` (which `normalizePath` resolves into
   * the parent of the target folder) has its thumbnail written by the code
   * one level above the storage root; the corrected key keeps it in
   * `.thumbnails`, under the name the plain file `x` would get.
   */
  lemma ClimbingUploadEscapes(x: string)
    requires Plain(x)
    ensures JoinedThumbnailPlace("../../" + x) == AboveStorage("../" + ThumbnailFileName(x))
    ensures ThumbnailKey("../../" + x) == ThumbnailKey(x) == ThumbnailDir + [ThumbnailFileName(x)]
  {
    ClimbingNameParts(x);
    ThumbnailNamePlain(x);
    ClimbingThumbnailName(x);
    ClimbingNameLeavesStorage(ThumbnailFileName(x));
  }

  /**
   * `generate` for the upload `../../x` leaves the storage tree as it was
   * and reports a thumbnail that lands above the root; the corrected
   * `generate` treats it as the plain file `x`.
   */
  lemma ClimbingUploadLeavesTree(fs: Fs, source: Key, x: string, size: nat, quality: nat,
                                 resize: (seq<byte>, nat, nat) -> Option<seq<byte>>, now: nat)
    requires Plain(x) && Eligible(x)
    requires source in fs && fs[source].FileNode? && resize(fs[source].data, size, quality).Some?
    ensures GenerateStep(fs, source, "../../" + x, size, quality, resize, now) == (Some(ThumbnailFileName("../../" + x)), fs)
    ensures CorrectedGenerateStep(fs, source, "../../" + x, size, quality, resize, now).1
         == CorrectedGenerateStep(fs, source, x, size, quality, resize, now).1
  {
    ClimbingUploadEscapes(x);
    ClimbingNameParts(x);
    ExtensionFollowsBaseName("../../" + x, x);
    GenerateAboveStorage(fs, source, "../../" + x, size, quality, resize, now);
    CorrectedSameKey(fs, source, "../../" + x, x, size, quality, resize, now);
  }

  /** `../../x` has the base name and extension of `x`. */
  lemma ClimbingNameParts(x: string)
    requires Plain(x)
    ensures BaseName("../../" + x) == BaseName(x) == x
    ensures GetExtension("../../" + x) == GetExtension(x)
  {
    assert "../../" + x == "../.." + "/" + x;
    BaseNameAfterSlash("../..", x);
    BaseNameOfPlainName(x);
  }

  lemma ClimbingThumbnailName(x: string)
    requires GetExtension("../../" + x) == GetExtension(x)
    ensures ThumbnailFileName("../../" + x) == "../../" + ThumbnailFileName(x)
  {
  }

  lemma PngExtension()
    ensures BaseName("x.png") == "x.png" && GetExtension("x.png") == ".png"
  {
    ExampleNames();
    BaseNameOfPlainName("x.png");
    ExtensionOfSuffix("x", ".png");
  }

  /** The literal names of the examples, taken apart. */
  lemma ExampleNames()
    ensures "x.png" == "x" + ".png" && '/' !in "x.png" && ToLower(".png") == ".png"
    ensures '/' !in ".JPG" && ToLower(".JPG") == ".jpg"
    ensures "logo.svg" == "logo" + ".svg" && '/' !in "logo.svg" && ToLower(".svg") == ".svg"
    ensures ".svg" !in ThumbnailExtensions
    ensures '.' !in ".png"[1..] && '.' !in ".JPG"[1..] && ".JPG" + ".thumb" + ".jpg" == ".JPG.thumb.jpg" && '.' !in ".svg"[1..]
  {
  }

  /** With `x.png` for `x`: the upload `../../x.png` has its thumbnail written at `../x.png.thumb.png`. */
  lemma PngThumbnailName()
    ensures Plain("x.png") && ThumbnailFileName("x.png") == "x.png.thumb.png"
  {
    PngExtension();
    PngNameFacts();
  }

  lemma PngNameFacts()
    ensures Plain("x.png") && "x.png" + ".thumb" + ".png" == "x.png.thumb.png"
  {
  }

  // ---------------------------------------------------------------------
  // generate, hasThumbnail, deleteThumbnail
  // ---------------------------------------------------------------------

  /** `ensureThumbnailDir()`: a failing `mkdir` is an unhandled rejection that changes nothing. */
  function EnsureThumbnailDir(fs: Fs, now: nat): Fs {
    if ThumbnailDir in fs then fs
    else match MkdirP(fs, ThumbnailDir, now)
      case Err(_) => fs
      case Ok(fs') => fs'
  }

  /**
   * `generate(sourcePath, fileName)` with the thumbnail put at `place`: the
   * result and the new storage tree. `source` is where `sourcePath` points;
   * `size` and `quality` are the configured thumbnail size and JPEG quality.
   * Above the storage root nothing inside the tree changes: the file system
   * there is not modelled, so no thumbnail is found there and the write
   * there succeeds.
   */
  function GenerateAt(fs: Fs, source: Key, fileName: string, place: Place, size: nat, quality: nat,
                      resize: (seq<byte>, nat, nat) -> Option<seq<byte>>, now: nat): (Option<string>, Fs)
  {
    if !Eligible(fileName) then (None, fs)
    else if place.AboveStorage? then
      if source in fs && fs[source].FileNode? && resize(fs[source].data, size, quality).Some?
      then (Some(ThumbnailFileName(fileName)), fs)
      else (None, fs)
    else
      var k := place.key;
      if k in fs then (Some(ThumbnailFileName(fileName)), fs)
      else if !(source in fs && fs[source].FileNode?) then (None, fs)
      else
        match resize(fs[source].data, size, quality)
        case None => (None, fs)
        case Some(bytes) =>
          match WriteFile(fs, k, bytes, now)
          case Err(_) => (None, fs)
          case Ok(fs') => (Some(ThumbnailFileName(fileName)), fs')
  }

  /** `generate` as written: the thumbnail goes to `join(thumbnailDir, thumbnailFileName)`. */
  function GenerateStep(fs: Fs, source: Key, fileName: string, size: nat, quality: nat,
                        resize: (seq<byte>, nat, nat) -> Option<seq<byte>>, now: nat): (Option<string>, Fs)
  {
    GenerateAt(fs, source, fileName, JoinedThumbnailPlace(fileName), size, quality, resize, now)
  }

  /** `generate` with the thumbnail kept in `.thumbnails` under the base name (see Findings). */
  function CorrectedGenerateStep(fs: Fs, source: Key, fileName: string, size: nat, quality: nat,
                                 resize: (seq<byte>, nat, nat) -> Option<seq<byte>>, now: nat): (Option<string>, Fs)
  {
    GenerateAt(fs, source, fileName, InStorage(ThumbnailKey(fileName)), size, quality, resize, now)
  }

  /**
   * `existsSync(getThumbnailPath(fileName))`, at the place the code joins;
   * a place above the storage root is taken to hold nothing.
   */
  predicate ThumbnailPresent(fs: Fs, fileName: string) {
    match JoinedThumbnailPlace(fileName)
    case InStorage(k) => k in fs
    case AboveStorage(_) => false
  }

  /**
   * `deleteThumbnail(fileName)` at `getThumbnailPath(fileName)`: nothing to
   * do when nothing is there; removing a directory that sits there fails.
   */
  function DeleteThumbnailStep(fs: Fs, fileName: string): (Result<(), string>, Fs) {
    match JoinedThumbnailPlace(fileName)
    case AboveStorage(_) => (Ok(()), fs)
    case InStorage(k) =>
      if k !in fs then (Ok(()), fs)
      else if fs[k].DirNode? then (Err(IsADirectory), fs)
      else (Ok(()), Unlink(fs, k))
  }

  class ThumbnailService {
    const fsys: FileSystem
    const thumbnailSize: nat
    const thumbnailQuality: nat
    const resize: (seq<byte>, nat, nat) -> Option<seq<byte>>

    ghost predicate Valid()
      reads this, fsys
    {
      fsys.Valid()
    }

    constructor(fsys: FileSystem, thumbnailSize: nat, thumbnailQuality: nat,
                resize: (seq<byte>, nat, nat) -> Option<seq<byte>>, now: nat)
      requires fsys.Valid()
      modifies fsys
      ensures this.fsys == fsys && this.thumbnailSize == thumbnailSize
      ensures this.thumbnailQuality == thumbnailQuality && this.resize == resize
      ensures fsys.fs == EnsureThumbnailDir(old(fsys.fs), now)
      ensures Valid()
    {
      this.fsys := fsys;
      this.thumbnailSize := thumbnailSize;
      this.thumbnailQuality := thumbnailQuality;
      this.resize := resize;
      new;
      if ThumbnailDir !in fsys.fs {
        var made := MkdirP(fsys.fs, ThumbnailDir, now);
        if made.Ok? {
          MkdirPKeepsWellFormed(fsys.fs, ThumbnailDir, now);
          fsys.fs := made.value;
        }
      }
    }

    method Generate(source: Key, fileName: string, now: nat) returns (r: Option<string>)
      requires Valid()
      modifies fsys
      ensures (r, fsys.fs) == GenerateStep(old(fsys.fs), source, fileName, thumbnailSize, thumbnailQuality, resize, now)
      ensures Valid()
    {
      GenerateKeepsWellFormed(fsys.fs, source, fileName, thumbnailSize, thumbnailQuality, resize, now);
      var ext := GetExtension(fileName);
      if ext !in ThumbnailExtensions {
        return None;
      }
      var thumbnailFileName := fileName + ".thumb" + ext;
      var place := PlaceInThumbnailDir(thumbnailFileName);
      if place.InStorage? && place.key in fsys.fs {
        return Some(thumbnailFileName);
      }
      if !(source in fsys.fs && fsys.fs[source].FileNode?) {
        return None;
      }
      var encoded := resize(fsys.fs[source].data, thumbnailSize, thumbnailQuality);
      if encoded.None? {
        return None;
      }
      if place.AboveStorage? {
        return Some(thumbnailFileName);
      }
      var written := WriteFile(fsys.fs, place.key, encoded.value, now);
      if written.Err? {
        return None;
      }
      fsys.fs := written.value;
      r := Some(thumbnailFileName);
    }

    method HasThumbnail(fileName: string) returns (b: bool)
      ensures b == ThumbnailPresent(fsys.fs, fileName)
    {
      var place := PlaceInThumbnailDir(fileName + ".thumb" + GetExtension(fileName));
      b := place.InStorage? && place.key in fsys.fs;
    }

    method DeleteThumbnail(fileName: string) returns (r: Result<(), string>)
      requires Valid()
      modifies fsys
      ensures (r, fsys.fs) == DeleteThumbnailStep(old(fsys.fs), fileName)
      ensures Valid()
    {
      var place := PlaceInThumbnailDir(fileName + ".thumb" + GetExtension(fileName));
      if place.AboveStorage? || place.key !in fsys.fs {
        return Ok(());
      }
      var k := place.key;
      if fsys.fs[k].DirNode? {
        return Err(IsADirectory);
      }
      UnlinkKeepsWellFormed(fsys.fs, k);
      fsys.fs := Unlink(fsys.fs, k);
      r := Ok(());
    }
  }

  // ---------------------------------------------------------------------
  // Properties
  // ---------------------------------------------------------------------

  /** Files other than JPEG and PNG, SVG among them, get no thumbnail and nothing is created. */
  lemma IneligibleSkipped(fs: Fs, source: Key, fileName: string, size: nat, quality: nat,
                          resize: (seq<byte>, nat, nat) -> Option<seq<byte>>, now: nat)
    requires !Eligible(fileName)
    ensures GenerateStep(fs, source, fileName, size, quality, resize, now) == (None, fs)
  {
  }

  lemma SvgNotEligible()
    ensures !Eligible("logo.svg")
  {
    ExampleNames();
    ExtensionOfSuffix("logo", ".svg");
  }

  /** `A.JPG` gets the thumbnail name `A.JPG.thumb.jpg`: the extension is lower-cased. */
  lemma ThumbnailNameExample(stem: string)
    requires stem != [] && '/' !in stem
    ensures ThumbnailFileName(stem + ".JPG") == stem + ".JPG.thumb.jpg"
    ensures ThumbnailKey(stem + ".JPG") == [ThumbnailDirName, stem + ".JPG.thumb.jpg"]
  {
    ExampleNames();
    assert stem + ".JPG" + ".thumb" + ".jpg" == stem + ".JPG.thumb.jpg";
    UpperJpgExtension(stem);
  }

  lemma UpperJpgExtension(stem: string)
    requires stem != [] && '/' !in stem
    ensures BaseName(stem + ".JPG") == stem + ".JPG" && GetExtension(stem + ".JPG") == ".jpg"
  {
    ExampleNames();
    BaseNameOfPlainName(stem + ".JPG");
    ExtensionOfSuffix(stem, ".JPG");
  }

  /** An existing thumbnail is reported without regenerating it: nothing is read or written. */
  lemma ExistingThumbnailReused(fs: Fs, source: Key, fileName: string, size: nat, quality: nat,
                                resize: (seq<byte>, nat, nat) -> Option<seq<byte>>, now: nat)
    requires Eligible(fileName)
    requires JoinedThumbnailPlace(fileName).InStorage? && JoinedThumbnailPlace(fileName).key in fs
    ensures GenerateStep(fs, source, fileName, size, quality, resize, now) == (Some(ThumbnailFileName(fileName)), fs)
  {
  }

  /**
   * A successful `generate` leaves the thumbnail where `getThumbnailPath`
   * points (so `existsSync` holds there) and touches nothing else in the
   * tree; a failing one, or one whose thumbnail lands above the storage
   * root, changes nothing. A second call gives the same answer and changes
   * nothing.
   */
  lemma GenerateWritesThumbnailOnly(fs: Fs, source: Key, fileName: string, size: nat, quality: nat,
                                    resize: (seq<byte>, nat, nat) -> Option<seq<byte>>, now: nat, later: nat)
    ensures var (r, after) := GenerateStep(fs, source, fileName, size, quality, resize, now);
      var place := JoinedThumbnailPlace(fileName);
      (r.Some? ==> r == Some(ThumbnailFileName(fileName)) && Eligible(fileName) && (place.InStorage? ==> place.key in after))
      && (r.None? || place.AboveStorage? ==> after == fs)
      && (forall j :: place != InStorage(j) ==> (j in after <==> j in fs) && (j in fs ==> after[j] == fs[j]))
      && (r.Some? ==> GenerateStep(after, source, fileName, size, quality, resize, later) == (r, after))
  {
  }

  /**
   * When the source is an image the pipeline can encode and the thumbnail's
   * place in the tree is free, a thumbnail is made exactly if the directory
   * it goes into exists.
   */
  lemma GenerateSucceeds(fs: Fs, source: Key, fileName: string, size: nat, quality: nat,
                         resize: (seq<byte>, nat, nat) -> Option<seq<byte>>, now: nat)
    requires Eligible(fileName) && JoinedThumbnailPlace(fileName).InStorage?
    requires JoinedThumbnailPlace(fileName).key !in fs && JoinedThumbnailPlace(fileName).key != []
    requires source in fs && fs[source].FileNode? && resize(fs[source].data, size, quality).Some?
    ensures var k := JoinedThumbnailPlace(fileName).key;
      var (r, after) := GenerateStep(fs, source, fileName, size, quality, resize, now);
      (Parent(k) in fs && fs[Parent(k)].DirNode? ==>
         r == Some(ThumbnailFileName(fileName))
         && after == fs[k := FileNode(resize(fs[source].data, size, quality).value, now)])
      && (!(Parent(k) in fs && fs[Parent(k)].DirNode?) ==> r == None && after == fs)
  {
    GenerateAtKey(fs, source, fileName, JoinedThumbnailPlace(fileName).key, size, quality, resize, now);
  }

  /**
   * A thumbnail that lands above the storage root leaves the tree alone;
   * `generate` still reports it whenever the pipeline encodes the source.
   */
  lemma GenerateAboveStorage(fs: Fs, source: Key, fileName: string, size: nat, quality: nat,
                             resize: (seq<byte>, nat, nat) -> Option<seq<byte>>, now: nat)
    requires Eligible(fileName) && JoinedThumbnailPlace(fileName).AboveStorage?
    ensures var (r, after) := GenerateStep(fs, source, fileName, size, quality, resize, now);
      after == fs
      && (r.Some? <==> source in fs && fs[source].FileNode? && resize(fs[source].data, size, quality).Some?)
      && (r.Some? ==> r == Some(ThumbnailFileName(fileName)))
  {
  }

  /** The corrected `generate` changes the tree alike for two names with one thumbnail key. */
  lemma CorrectedSameKey(fs: Fs, source: Key, n1: string, n2: string, size: nat, quality: nat,
                         resize: (seq<byte>, nat, nat) -> Option<seq<byte>>, now: nat)
    requires ThumbnailKey(n1) == ThumbnailKey(n2) && (Eligible(n1) <==> Eligible(n2))
    ensures CorrectedGenerateStep(fs, source, n1, size, quality, resize, now).1
         == CorrectedGenerateStep(fs, source, n2, size, quality, resize, now).1
  {
    GenerateAtKey(fs, source, n1, ThumbnailKey(n1), size, quality, resize, now);
    GenerateAtKey(fs, source, n2, ThumbnailKey(n2), size, quality, resize, now);
  }

  /** `generate` with its thumbnail at `k` in the tree: when it answers with a name, and what it writes. */
  lemma GenerateAtKey(fs: Fs, source: Key, fileName: string, k: Key, size: nat, quality: nat,
                      resize: (seq<byte>, nat, nat) -> Option<seq<byte>>, now: nat)
    ensures var (r, after) := GenerateAt(fs, source, fileName, InStorage(k), size, quality, resize, now);
      var made := Eligible(fileName) && k !in fs && source in fs && fs[source].FileNode?
                  && resize(fs[source].data, size, quality).Some?
                  && (k == [] || (Parent(k) in fs && fs[Parent(k)].DirNode?));
      (r.Some? <==> Eligible(fileName) && (k in fs || made))
      && (r.Some? ==> r == Some(ThumbnailFileName(fileName)))
      && after == (if made then fs[k := FileNode(resize(fs[source].data, size, quality).value, now)] else fs)
  {
  }

  lemma GenerateKeepsWellFormed(fs: Fs, source: Key, fileName: string, size: nat, quality: nat,
                                resize: (seq<byte>, nat, nat) -> Option<seq<byte>>, now: nat)
    requires WellFormed(fs)
    ensures WellFormed(GenerateStep(fs, source, fileName, size, quality, resize, now).1)
  {
    GenerateWrites(fs, source, fileName, size, quality, resize, now);
    if GenerateStep(fs, source, fileName, size, quality, resize, now).1 != fs {
      WriteFileKeepsWellFormed(fs, JoinedThumbnailPlace(fileName).key, resize(fs[source].data, size, quality).value, now);
    }
  }

  /** `generate` changes the tree only by writing the encoded thumbnail at its place in the tree. */
  lemma GenerateWrites(fs: Fs, source: Key, fileName: string, size: nat, quality: nat,
                       resize: (seq<byte>, nat, nat) -> Option<seq<byte>>, now: nat)
    ensures var after := GenerateStep(fs, source, fileName, size, quality, resize, now).1;
      after == fs
      || (JoinedThumbnailPlace(fileName).InStorage?
          && source in fs && fs[source].FileNode? && resize(fs[source].data, size, quality).Some?
          && var w := WriteFile(fs, JoinedThumbnailPlace(fileName).key, resize(fs[source].data, size, quality).value, now);
             w.Ok? && after == w.value)
  {
  }

  /** For a name without `/`, `generate` as written and the corrected one do the same. */
  lemma GenerateAgreesOnPlainNames(fs: Fs, source: Key, fileName: string, size: nat, quality: nat,
                                   resize: (seq<byte>, nat, nat) -> Option<seq<byte>>, now: nat)
    requires '/' !in fileName
    ensures GenerateStep(fs, source, fileName, size, quality, resize, now)
         == CorrectedGenerateStep(fs, source, fileName, size, quality, resize, now)
  {
    PlacesAgreeOnPlainNames(fileName);
  }

  /**
   * The corrected `generate` writes, if at all, one file directly inside
   * `.thumbnails`, and only when that directory exists.
   */
  lemma CorrectedGenerateStaysInThumbnailDir(fs: Fs, source: Key, fileName: string, size: nat, quality: nat,
                                             resize: (seq<byte>, nat, nat) -> Option<seq<byte>>, now: nat)
    ensures var (r, after) := CorrectedGenerateStep(fs, source, fileName, size, quality, resize, now);
      var k := ThumbnailKey(fileName);
      (after != fs ==> r.Some? && ThumbnailDir in fs && fs[ThumbnailDir].DirNode? && k in after && k !in fs)
      && (forall j :: j != k ==> (j in after <==> j in fs) && (j in fs ==> after[j] == fs[j]))
      && (r.Some? <==> Eligible(fileName) && (k in fs || CorrectedWriteOk(fs, source, fileName, size, quality, resize)))
  {
    var k := ThumbnailKey(fileName);
    assert Parent(k) == ThumbnailDir;
    GenerateAtKey(fs, source, fileName, k, size, quality, resize, now);
  }

  /** The corrected `generate` can make the thumbnail: a readable, encodable source and `.thumbnails` in place. */
  predicate CorrectedWriteOk(fs: Fs, source: Key, fileName: string, size: nat, quality: nat,
                             resize: (seq<byte>, nat, nat) -> Option<seq<byte>>)
  {
    source in fs && fs[source].FileNode? && resize(fs[source].data, size, quality).Some?
    && ThumbnailDir in fs && fs[ThumbnailDir].DirNode?
  }

  /** The thumbnail depends on the file name alone: same-named files in two folders share one. */
  lemma SharedAcrossFolders(rootName: string, dir1: Key, dir2: Key, name: string)
    ensures ThumbnailKey(StatName(rootName, dir1 + [name])) == ThumbnailKey(StatName(rootName, dir2 + [name]))
  {
  }

  /**
   * `deleteThumbnail` of an absent thumbnail changes nothing; otherwise the
   * thumbnail file is gone, and it fails exactly on a directory. Nothing
   * but the place `getThumbnailPath` points to is touched.
   */
  lemma DeleteThumbnailRemoves(fs: Fs, fileName: string)
    ensures var (r, after) := DeleteThumbnailStep(fs, fileName);
      var place := JoinedThumbnailPlace(fileName);
      (!ThumbnailPresent(fs, fileName) ==> r.Ok? && after == fs)
      && (r.Ok? ==> !ThumbnailPresent(after, fileName))
      && (r.Err? <==> place.InStorage? && place.key in fs && fs[place.key].DirNode?)
      && (forall j :: place != InStorage(j) ==> (j in after <==> j in fs) && (j in after ==> after[j] == fs[j]))
  {
  }

  /**
   * `hasThumbnail` after `generate`: a thumbnail reported at a place in the
   * tree is there, and one absent before is there afterwards exactly when
   * `generate` made it.
   */
  lemma GeneratedThumbnailPresent(fs: Fs, source: Key, fileName: string, size: nat, quality: nat,
                                  resize: (seq<byte>, nat, nat) -> Option<seq<byte>>, now: nat)
    requires JoinedThumbnailPlace(fileName).InStorage?
    ensures var (r, after) := GenerateStep(fs, source, fileName, size, quality, resize, now);
      (r.Some? <==> Eligible(fileName) && ThumbnailPresent(after, fileName))
      && (ThumbnailPresent(fs, fileName) ==> after == fs)
  {
    GenerateAtKey(fs, source, fileName, JoinedThumbnailPlace(fileName).key, size, quality, resize, now);
  }

  /** `deleteThumbnail` undoes `hasThumbnail`: after a successful delete nothing is there. */
  lemma DeleteThenHasThumbnail(fs: Fs, fileName: string, other: string)
    requires DeleteThumbnailStep(fs, fileName).0.Ok?
    requires JoinedThumbnailPlace(other) != JoinedThumbnailPlace(fileName)
    ensures !ThumbnailPresent(DeleteThumbnailStep(fs, fileName).1, fileName)
    ensures ThumbnailPresent(DeleteThumbnailStep(fs, fileName).1, other) == ThumbnailPresent(fs, other)
  {
    DeleteThumbnailRemoves(fs, fileName);
  }

  /** For a name without `/`, the thumbnail is looked for, and deleted, at the corrected key. */
  lemma PresentAtKeyOfPlainName(fs: Fs, fileName: string)
    requires '/' !in fileName
    ensures ThumbnailPresent(fs, fileName) <==> ThumbnailKey(fileName) in fs
    ensures var k := ThumbnailKey(fileName);
      DeleteThumbnailStep(fs, fileName)
        == if k !in fs then (Ok(()), fs) else if fs[k].DirNode? then (Err(IsADirectory), fs) else (Ok(()), Unlink(fs, k))
  {
    PlacesAgreeOnPlainNames(fileName);
  }
}
