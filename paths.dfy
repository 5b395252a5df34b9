/**
 * backend/src/utils/path.ts: path normalisation with the traversal check,
 * and the extension helpers, over a model of Node's POSIX `path` module
 * (`normalize`, `join`, `basename`, `extname`).
 */
module Paths {
  import opened Base

  const TraversalError := "Invalid path: directory traversal not allowed"

  /** The allow-list of `isAllowedExtension`. */
  const AllowedExtensions: seq<string> := [".jpg", ".jpeg", ".png", ".svg"]

  // ---------------------------------------------------------------------
  // Node's path.posix
  // ---------------------------------------------------------------------

  function DropLeadingSlashes(s: string): (r: string)
    ensures r == [] || r[0] != '/'
    decreases |s|
  {
    if s != [] && s[0] == '/' then DropLeadingSlashes(s[1..]) else s
  }

  function DropTrailingSlashes(s: string): (r: string)
    ensures |r| <= |s| && r == s[..|r|]
    ensures r == [] || r[|r| - 1] != '/'
    decreases |s|
  {
    if s != [] && s[|s| - 1] == '/' then DropTrailingSlashes(s[..|s| - 1]) else s
  }

  /** `s.replace(/^\/+|\/+$/g, '')`. */
  function StripSlashes(s: string): string {
    DropTrailingSlashes(DropLeadingSlashes(s))
  }

  /** One step of the segment walk of `normalizeString`. */
  function PushSegment(stack: seq<string>, seg: string, allowAboveRoot: bool): seq<string> {
    if seg == "" || seg == "." then stack
    else if seg == ".." then
      if stack != [] && stack[|stack| - 1] != ".." then stack[..|stack| - 1]
      else if allowAboveRoot then stack + [".."]
      else stack
    else stack + [seg]
  }

  /** `normalizeString`: drops empty and `.` segments and lets `..` pop. */
  function Collapse(segs: seq<string>, allowAboveRoot: bool): seq<string>
    decreases |segs|
  {
    if segs == [] then []
    else PushSegment(Collapse(segs[..|segs| - 1], allowAboveRoot), segs[|segs| - 1], allowAboveRoot)
  }

  /** `path.posix.normalize`. */
  function PosixNormalize(p: string): string {
    if p == "" then "."
    else
      var absolute := p[0] == '/';
      var trailing := p[|p| - 1] == '/';
      var body := Join(Collapse(Split(p, '/'), !absolute), "/");
      if body == "" then
        (if absolute then "/" else if trailing then "./" else ".")
      else
        var b := if trailing then body + "/" else body;
        if absolute then "/" + b else b
  }

  function NonEmpty(parts: seq<string>): (r: seq<string>)
    ensures forall k :: 0 <= k < |r| ==> r[k] != ""
    decreases |parts|
  {
    if parts == [] then []
    else if parts[0] == "" then NonEmpty(parts[1..])
    else [parts[0]] + NonEmpty(parts[1..])
  }

  /** `path.posix.join(...parts)`: joins the non-empty arguments and normalises. */
  function JoinPaths(parts: seq<string>): string {
    var used := NonEmpty(parts);
    if used == [] then "." else PosixNormalize(Join(used, "/"))
  }

  /** `path.posix.basename(p)`: the last component, trailing slashes ignored. */
  function BaseName(p: string): (r: string)
    ensures '/' !in r
    ensures EndsWith(DropTrailingSlashes(p), r)
  {
    var t := DropTrailingSlashes(p);
    var i := LastIndexOf(t, '/');
    NotInSuffix(t, i + 1, '/');
    t[i + 1..]
  }

  /**
   * `path.posix.extname(p)`: from the last `.` of the base name to its end,
   * or "" when there is no such dot, the dot is the first character of the
   * base name, or the base name is `..`.
   */
  function ExtName(p: string): (r: string)
    ensures r == "" || (r[0] == '.' && |r| < |BaseName(p)| && EndsWith(BaseName(p), r)
                        && '.' !in r[1..] && '/' !in r)
  {
    ExtOfBase(BaseName(p))
  }

  /** The extension part of a base name `b` (which contains no `/`). */
  function ExtOfBase(b: string): (r: string)
    requires '/' !in b
    ensures r == "" || (r[0] == '.' && |r| < |b| && EndsWith(b, r) && '.' !in r[1..] && '/' !in r)
  {
    var d := LastIndexOf(b, '.');
    if d <= 0 || b == ".." then ""
    else
      NotInSuffix(b, d + 1, '.');
      assert b[d..][1..] == b[d + 1..];
      assert forall j :: d <= j < |b| ==> b[j] != '/' by {
        forall j | d <= j < |b| ensures b[j] != '/' {
          assert b[j] in b;
        }
      }
      NotInSuffix(b, d, '/');
      b[d..]
  }

  // ---------------------------------------------------------------------
  // path.ts
  // ---------------------------------------------------------------------

  /** `normalizePath`: Err is the thrown "directory traversal" error. */
  function NormalizePath(input: string): Result<string, string> {
    var normalized := PosixNormalize(StripSlashes(input));
    if Contains(normalized, "..") then Err(TraversalError)
    else Ok(ReplaceChar(normalized, '\\', '/'))
  }

  /** `getExtension`. */
  function GetExtension(fileName: string): string {
    ToLower(ExtName(fileName))
  }

  /** `isAllowedExtension`. */
  predicate IsAllowedExtension(fileName: string) {
    GetExtension(fileName) in AllowedExtensions
  }

  /** `getBasename`: the base name without its extension. */
  function GetBasename(fileName: string): string {
    var b := BaseName(fileName);
    var e := ExtName(fileName);
    if |e| <= |b| then b[..|b| - |e|] else b
  }

  // ---------------------------------------------------------------------
  // Properties of normalizePath
  // ---------------------------------------------------------------------

  /** A segment that survives lexical normalisation of an accepted path. */
  predicate Plain(seg: string) {
    seg != "" && seg != "." && seg != ".." && '/' !in seg
  }

  /** `.`, or `/`-separated plain segments: no empty, `.` or `..` segment. */
  predicate IsCanonical(r: string) {
    r == "." || forall k :: 0 <= k < |Split(r, '/')| ==> Plain(Split(r, '/')[k])
  }

  /** `normalizePath` never returns a string containing `..`. */
  lemma NormalizePathHasNoDotDot(input: string)
    requires NormalizePath(input).Ok?
    ensures !Contains(NormalizePath(input).value, "..")
  {
    var n := PosixNormalize(StripSlashes(input));
    var r := ReplaceChar(n, '\\', '/');
    if Contains(r, "..") {
      var i := ContainsWitness(r, "..");
      assert r[i] == r[i..][0] == '.' && r[i + 1] == r[i..][1] == '.';
      assert n[i..][..2] == "..";
      ContainsAt(n, "..", i);
    }
  }

  /**
   * For input without backslashes an accepted path is canonical: `.` or
   * plain segments, hence no leading, trailing or doubled `/`.
   */
  lemma {:induction false} NormalizePathIsCanonical(input: string)
    requires '\\' !in input
    requires NormalizePath(input).Ok?
    ensures IsCanonical(NormalizePath(input).value)
    ensures '\\' !in NormalizePath(input).value
    ensures NormalizePath(input).value == PosixNormalize(StripSlashes(input))
  {
    var t := StripSlashes(input);
    var n := PosixNormalize(t);
    StripSlashesChars(input);
    if t != "" {
      var parts := Split(t, '/');
      var c := Collapse(parts, true);
      SplitPartsChars(t, '/');
      CollapseElements(parts, true);
      var b := Join(c, "/");
      assert n == if b == "" then "." else b;
      forall k | 0 <= k < |c| ensures Plain(c[k]) && '\\' !in c[k] {
        if c[k] == ".." {
          JoinContainsPart(c, "/", k);
        } else {
          assert c[k] in c;
          var j :| 0 <= j < |parts| && parts[j] == c[k];
          forall ch | ch in c[k] ensures ch != '/' && ch != '\\' {
            assert ch in parts[j];
            assert ch in t;
          }
        }
      }
      JoinChars(c, "/");
      if c != [] {
        JoinOfNonEmptyIsNonEmpty(c, "/");
        SplitJoin(c, '/');
      } else {
        assert n == ".";
      }
    }
    ReplaceAbsent(n, '\\', '/');
  }

  /** For input without backslashes, `normalizePath` is idempotent. */
  lemma {:induction false} NormalizePathIdempotent(input: string)
    requires '\\' !in input
    requires NormalizePath(input).Ok?
    ensures NormalizePath(NormalizePath(input).value) == NormalizePath(input)
  {
    NormalizePathIsCanonical(input);
    NormalizePathHasNoDotDot(input);
    var r := NormalizePath(input).value;
    if r == "." {
      NormalizeDot();
    } else {
      var segs := Split(r, '/');
      if r == [] || r[0] == '/' || r[|r| - 1] == '/' {
        OuterSlashNotCanonical(r);
      }
      assert StripSlashes(r) == r;
      CollapsePlain(segs, true);
      JoinSplit(r, '/');
      assert PosixNormalize(r) == r;
      ReplaceAbsent(r, '\\', '/');
    }
  }

  /** The root `.` is accepted as it is. */
  lemma NormalizeDot()
    ensures NormalizePath(".") == Ok(".")
  {
    SplitNoSeparator(".", '/');
    assert Collapse(["."], true) == [];
    assert !Contains(".", "..");
    assert ReplaceChar(".", '\\', '/') == ".";
  }

  /** Empty or all-slash input denotes the root, `.`. */
  lemma NormalizeAllSlashes(input: string)
    requires forall k :: 0 <= k < |input| ==> input[k] == '/'
    ensures NormalizePath(input) == Ok(".")
  {
    DropAllSlashes(input);
    assert StripSlashes(input) == "";
    assert !Contains(".", "..");
    assert ReplaceChar(".", '\\', '/') == ".";
  }

  lemma {:induction false} DropAllSlashes(s: string)
    requires forall k :: 0 <= k < |s| ==> s[k] == '/'
    ensures DropLeadingSlashes(s) == ""
    decreases |s|
  {
    if s != [] {
      DropAllSlashes(s[1..]);
    }
  }

  // ---------------------------------------------------------------------
  // Helper facts about the pipeline
  // ---------------------------------------------------------------------

  lemma {:induction false} StripSlashesChars(s: string)
    ensures forall ch :: ch in StripSlashes(s) ==> ch in s
    ensures StripSlashes(s) == [] || (StripSlashes(s)[0] != '/' && StripSlashes(s)[|StripSlashes(s)| - 1] != '/')
  {
    var a := DropLeadingSlashes(s);
    DropLeadingIsSuffix(s);
    var r := DropTrailingSlashes(a);
    forall ch | ch in r ensures ch in s {
      var k :| 0 <= k < |r| && r[k] == ch;
      assert r[k] == a[k];
      assert a[k] == s[|s| - |a| + k];
    }
    if r != [] {
      assert r[0] == a[0];
    }
  }

  lemma {:induction false} DropLeadingIsSuffix(s: string)
    ensures |DropLeadingSlashes(s)| <= |s|
    ensures DropLeadingSlashes(s) == s[|s| - |DropLeadingSlashes(s)|..]
    decreases |s|
  {
    if s != [] && s[0] == '/' {
      DropLeadingIsSuffix(s[1..]);
    }
  }

  lemma {:induction false} SplitPartsChars(s: string, c: char)
    ensures forall k, ch :: 0 <= k < |Split(s, c)| && ch in Split(s, c)[k] ==> ch in s && ch != c
    decreases |s|
  {
    if s != [] {
      SplitPartsChars(s[1..], c);
      var rest := Split(s[1..], c);
      var r := Split(s, c);
      forall k, ch | 0 <= k < |r| && ch in r[k]
        ensures ch in s && ch != c
      {
        if s[0] == c {
          assert r == [""] + rest;
          assert k > 0 && r[k] == rest[k - 1];
          assert ch in s[1..];
        } else if k == 0 {
          assert r[0] == [s[0]] + rest[0];
          if ch != s[0] {
            assert ch in rest[0];
            assert ch in s[1..];
          }
        } else {
          assert r[k] == rest[k];
          assert ch in s[1..];
        }
      }
    }
  }

  lemma {:induction false} CollapseElements(segs: seq<string>, allowAboveRoot: bool)
    ensures forall x :: x in Collapse(segs, allowAboveRoot) ==>
      x == ".." || (x in segs && x != "" && x != ".")
    decreases |segs|
  {
    if segs != [] {
      var front := segs[..|segs| - 1];
      CollapseElements(front, allowAboveRoot);
      var st := Collapse(front, allowAboveRoot);
      forall x | x in Collapse(segs, allowAboveRoot)
        ensures x == ".." || (x in segs && x != "" && x != ".")
      {
        if x in st && x != ".." {
          assert x in front;
        }
      }
    }
  }

  lemma {:induction false} CollapsePlain(segs: seq<string>, allowAboveRoot: bool)
    requires forall k :: 0 <= k < |segs| ==> Plain(segs[k])
    ensures Collapse(segs, allowAboveRoot) == segs
    decreases |segs|
  {
    if segs != [] {
      CollapsePlain(segs[..|segs| - 1], allowAboveRoot);
      assert segs[..|segs| - 1] + [segs[|segs| - 1]] == segs;
    }
  }

  lemma {:induction false} JoinChars(parts: seq<string>, sep: string)
    ensures forall ch :: ch in Join(parts, sep) ==> ch in sep || exists k :: 0 <= k < |parts| && ch in parts[k]
    decreases |parts|
  {
    if |parts| > 1 {
      JoinChars(parts[1..], sep);
      forall ch | ch in Join(parts, sep)
        ensures ch in sep || exists k :: 0 <= k < |parts| && ch in parts[k]
      {
        if ch !in parts[0] && ch !in sep {
          assert ch in Join(parts[1..], sep);
          if ch !in sep {
            var k :| 0 <= k < |parts[1..]| && ch in parts[1..][k];
            assert ch in parts[k + 1];
          }
        }
      }
    }
  }

  lemma {:induction false} JoinContainsPart(parts: seq<string>, sep: string, k: nat)
    requires k < |parts|
    ensures Contains(Join(parts, sep), parts[k])
    decreases k
  {
    var j := Join(parts, sep);
    if k == 0 {
      if |parts| == 1 {
        assert j[0..][..|parts[0]|] == parts[0];
      } else {
        assert j[0..][..|parts[0]|] == parts[0];
      }
      ContainsAt(j, parts[0], 0);
    } else {
      JoinContainsPart(parts[1..], sep, k - 1);
      var rest := Join(parts[1..], sep);
      var i := ContainsWitness(rest, parts[k]);
      var off := |parts[0] + sep|;
      assert j == parts[0] + sep + rest;
      assert j[off + i..] == rest[i..];
      ContainsAt(j, parts[k], off + i);
    }
  }

  lemma {:induction false} JoinOfNonEmptyIsNonEmpty(parts: seq<string>, sep: string)
    requires parts != [] && parts[0] != ""
    ensures Join(parts, sep) != ""
  {
  }

  lemma ReplaceAbsent(s: string, a: char, b: char)
    requires a !in s
    ensures ReplaceChar(s, a, b) == s
  {
  }

  lemma {:induction false} SplitFirstEmpty(s: string, c: char)
    requires s != [] && s[0] == c
    ensures Split(s, c)[0] == ""
  {
  }

  lemma {:induction false} SplitLastEmpty(s: string, c: char)
    requires s != [] && s[|s| - 1] == c
    ensures |Split(s, c)| >= 2
    ensures Split(s, c)[|Split(s, c)| - 1] == ""
    decreases |s|
  {
    if |s| > 1 {
      assert s[1..][|s[1..]| - 1] == c;
      SplitLastEmpty(s[1..], c);
    }
  }

  /** A canonical path other than `.` has no leading or trailing `/`. */
  lemma {:induction false} OuterSlashNotCanonical(r: string)
    requires r != "."
    requires r == [] || r[0] == '/' || r[|r| - 1] == '/'
    ensures !IsCanonical(r)
  {
    if r == [] {
      assert !Plain(Split(r, '/')[0]);
    } else if r[0] == '/' {
      SplitFirstEmpty(r, '/');
      assert !Plain(Split(r, '/')[0]);
    } else {
      SplitLastEmpty(r, '/');
      assert !Plain(Split(r, '/')[|Split(r, '/')| - 1]);
    }
  }

  // ---------------------------------------------------------------------
  // Examples of normalizePath
  // ---------------------------------------------------------------------

  lemma {:induction false} NoDotNoDotDot(s: string)
    requires '.' !in s
    ensures !Contains(s, "..")
  {
    if s != [] {
      NoDotNoDotDot(s[1..]);
      if |s| >= 2 {
        assert s[..2][0] == s[0];
      }
    }
  }

  lemma SplitFooBar()
    ensures Split("foo/bar", '/') == ["foo", "bar"]
  {
    assert "foo/bar" == "foo" + "/" + "bar";
    SplitConcat("foo", "bar", '/');
    SplitNoSeparator("bar", '/');
  }

  lemma PosixNormalizeFooBar()
    ensures PosixNormalize("foo/bar") == "foo/bar"
  {
    SplitFooBar();
    assert Collapse(["foo", "bar"], true) == ["foo", "bar"];
    assert Join(["foo", "bar"], "/") == "foo/bar";
  }

  lemma NormalizeFooBar()
    ensures NormalizePath("foo/bar") == Ok("foo/bar")
  {
    FooBarFacts();
    PosixNormalizeFooBar();
    AcceptedWithoutDots("foo/bar", "foo/bar");
  }

  lemma FooBarFacts()
    ensures StripSlashes("foo/bar") == "foo/bar"
    ensures '.' !in "foo/bar" && ReplaceChar("foo/bar", '\\', '/') == "foo/bar"
  {
    ReplaceAbsent("foo/bar", '\\', '/');
  }

  /** Leading and trailing slashes are stripped. */
  lemma NormalizeOuterSlashes()
    ensures NormalizePath("/foo/bar/") == Ok("foo/bar")
  {
    assert StripSlashes("/foo/bar/") == "foo/bar";
    FooBarFacts();
    PosixNormalizeFooBar();
    AcceptedWithoutDots("/foo/bar/", "foo/bar");
  }

  /** Backslashes become forward slashes after normalisation. */
  lemma NormalizeBackslash()
    ensures NormalizePath("foo\\bar") == Ok("foo/bar")
  {
    BackslashSegment();
    SinglePlainSegment("foo\\bar");
    AcceptedWithoutDots("foo\\bar", "foo\\bar");
  }

  lemma BackslashSegment()
    ensures Plain("foo\\bar") && '.' !in "foo\\bar"
    ensures ReplaceChar("foo\\bar", '\\', '/') == "foo/bar"
  {
  }

  /** A path that normalises to a string without `.` is accepted, its backslashes turned into slashes. */
  lemma AcceptedWithoutDots(input: string, normalized: string)
    requires PosixNormalize(StripSlashes(input)) == normalized && '.' !in normalized
    ensures NormalizePath(input) == Ok(ReplaceChar(normalized, '\\', '/'))
  {
    NoDotNoDotDot(normalized);
  }

  /** A single segment without `/` and not `.`/`..` normalises to itself. */
  lemma SinglePlainSegment(s: string)
    requires Plain(s)
    ensures StripSlashes(s) == s
    ensures PosixNormalize(s) == s
  {
    assert s[0] in s && s[|s| - 1] in s;
    SplitNoSeparator(s, '/');
    assert Collapse([s], true) == [s];
  }

  lemma FooParentBarParts()
    ensures "foo/../bar" == "foo" + "/" + ".." + "/" + "bar"
  {
  }

  lemma CollapseFooParentBar()
    ensures Collapse(["foo", "..", "bar"], true) == ["bar"]
  {
    assert ["foo", "..", "bar"][..2] == ["foo", ".."];
    assert ["foo", ".."][..1] == ["foo"];
  }

  lemma PosixNormalizeFooParentBar()
    ensures PosixNormalize("foo/../bar") == "bar"
  {
    FooParentBarParts();
    SplitThreeParts("foo", "..", "bar", '/');
    CollapseFooParentBar();
  }

  /** `..` that stays inside the root is resolved. */
  lemma NormalizeInnerParent()
    ensures NormalizePath("foo/../bar") == Ok("bar")
  {
    InnerParentFacts();
    PosixNormalizeFooParentBar();
    AcceptedWithoutDots("foo/../bar", "bar");
  }

  lemma InnerParentFacts()
    ensures StripSlashes("foo/../bar") == "foo/../bar"
    ensures '.' !in "bar" && ReplaceChar("bar", '\\', '/') == "bar"
  {
    ReplaceAbsent("bar", '\\', '/');
  }

  lemma LeadingParentParts()
    ensures "../etc/passwd" == ".." + "/" + "etc" + "/" + "passwd"
  {
  }

  lemma CollapseLeadingParent()
    ensures Collapse(["..", "etc", "passwd"], true) == ["..", "etc", "passwd"]
  {
    assert ["..", "etc", "passwd"][..2] == ["..", "etc"];
    assert ["..", "etc"][..1] == [".."];
  }

  lemma PosixNormalizeLeadingParent()
    ensures PosixNormalize("../etc/passwd") == "../etc/passwd"
  {
    LeadingParentParts();
    SplitThreeParts("..", "etc", "passwd", '/');
    CollapseLeadingParent();
    JoinLeadingParent();
  }

  lemma JoinLeadingParent()
    ensures Join(["..", "etc", "passwd"], "/") == "../etc/passwd"
  {
    assert Join(["etc", "passwd"], "/") == "etc/passwd";
  }

  /** A leading `..` is rejected. */
  lemma NormalizeLeadingParent()
    ensures NormalizePath("../etc/passwd") == Err(TraversalError)
  {
    assert StripSlashes("../etc/passwd") == "../etc/passwd";
    PosixNormalizeLeadingParent();
    RejectedWithDots("../etc/passwd", "../etc/passwd", 0);
  }

  lemma EscapingParentParts()
    ensures "foo/../../bar" == "foo" + "/" + ".." + "/" + ".." + "/" + "bar"
  {
  }

  lemma CollapseEscapingParent()
    ensures Collapse(["foo", "..", "..", "bar"], true) == ["..", "bar"]
  {
    EscapingParentSegments();
    CollapseSnoc(["foo"], "..", true);
    CollapseSnoc(["foo", ".."], "..", true);
    CollapseSnoc(["foo", "..", ".."], "bar", true);
  }

  lemma EscapingParentSegments()
    ensures ["foo"] + [".."] == ["foo", ".."] && ["foo", ".."] + [".."] == ["foo", "..", ".."]
    ensures ["foo", "..", ".."] + ["bar"] == ["foo", "..", "..", "bar"]
    ensures Collapse(["foo"], true) == ["foo"]
  {
    assert ["foo"][..0] == [];
  }

  /** `normalizeString` takes the segments one at a time, left to right. */
  lemma CollapseSnoc(segs: seq<string>, seg: string, allowAboveRoot: bool)
    ensures Collapse(segs + [seg], allowAboveRoot) == PushSegment(Collapse(segs, allowAboveRoot), seg, allowAboveRoot)
  {
    assert (segs + [seg])[..|segs|] == segs;
  }

  lemma PosixNormalizeEscapingParent()
    ensures PosixNormalize("foo/../../bar") == "../bar"
  {
    EscapingParentParts();
    SplitFourParts("foo", "..", "..", "bar", '/');
    CollapseEscapingParent();
    assert Join(["..", "bar"], "/") == "../bar";
  }

  /** A `..` that climbs above the root is rejected. */
  lemma NormalizeEscapingParent()
    ensures NormalizePath("foo/../../bar") == Err(TraversalError)
  {
    EscapingParentFacts();
    PosixNormalizeEscapingParent();
    RejectedWithDots("foo/../../bar", "../bar", 0);
  }

  lemma EscapingParentFacts()
    ensures StripSlashes("foo/../../bar") == "foo/../../bar"
    ensures |"../bar"| == 6 && "../bar"[0..2] == ".."
  {
  }

  /** The check is on the substring, so `..` inside a file name is rejected too. */
  lemma NormalizeDotsInName()
    ensures NormalizePath("a..b.png") == Err(TraversalError)
  {
    DotsInNameFacts();
    SinglePlainSegment("a..b.png");
    RejectedWithDots("a..b.png", "a..b.png", 1);
  }

  lemma DotsInNameFacts()
    ensures Plain("a..b.png") && "a..b.png"[1..3] == ".."
  {
  }

  /** A path that normalises to a string with `..` in it is rejected. */
  lemma RejectedWithDots(input: string, normalized: string, i: nat)
    requires PosixNormalize(StripSlashes(input)) == normalized
    requires i + 2 <= |normalized| && normalized[i..i + 2] == ".."
    ensures NormalizePath(input) == Err(TraversalError)
  {
    assert normalized[i..][..2] == "..";
    ContainsAt(normalized, "..", i);
  }

  // ---------------------------------------------------------------------
  // Properties of the extension helpers
  // ---------------------------------------------------------------------

  /**
   * `getExtension` is empty, or the lower-cased `.`-suffix of the base name
   * that contains no further `.` and is not the whole base name.
   */
  lemma ExtensionShape(fileName: string)
    ensures var e := GetExtension(fileName);
      var b := BaseName(fileName);
      e == "" || (e[0] == '.' && |e| < |b| && '.' !in e[1..] && '/' !in e
                  && e == ToLower(b[|b| - |e|..]))
  {
    LoweredExtension(ExtName(fileName), BaseName(fileName));
  }

  lemma LoweredExtension(x: string, b: string)
    requires x == "" || (x[0] == '.' && |x| < |b| && EndsWith(b, x) && '.' !in x[1..] && '/' !in x)
    ensures var e := ToLower(x);
      e == "" || (e[0] == '.' && |e| < |b| && '.' !in e[1..] && '/' !in e
                  && e == ToLower(b[|b| - |e|..]))
  {
    if x != "" {
      LowerKeepsAbsent(x[1..], '.');
      LowerKeepsAbsent(x, '/');
      assert ToLower(x)[1..] == ToLower(x[1..]);
    }
  }

  /** Lower-casing introduces no `.` and no `/`. */
  lemma LowerKeepsAbsent(s: string, c: char)
    requires c == '.' || c == '/'
    requires c !in s
    ensures c !in ToLower(s)
  {
    forall ch | ch in ToLower(s) ensures ch != c {
      var j :| 0 <= j < |s| && ToLower(s)[j] == ch;
      assert s[j] != c;
    }
  }

  /** No extension exactly when the base name has no `.` past its first character, or is `..`. */
  lemma NoExtension(fileName: string)
    ensures var b := BaseName(fileName);
      GetExtension(fileName) == "" <==>
        (b == ".." || forall j :: 0 < j < |b| ==> b[j] != '.')
  {
    var b := BaseName(fileName);
    var d := LastIndexOf(b, '.');
    if d > 0 && b != ".." {
      assert b[d..][0] == '.';
    }
  }

  lemma LowerIdempotent(s: string)
    ensures ToLower(ToLower(s)) == ToLower(s)
  {
  }

  lemma {:induction false} LowerDropTrailingSlashes(s: string)
    ensures DropTrailingSlashes(ToLower(s)) == ToLower(DropTrailingSlashes(s))
    decreases |s|
  {
    if s != [] {
      assert ToLower(s)[..|s| - 1] == ToLower(s[..|s| - 1]);
      LowerDropTrailingSlashes(s[..|s| - 1]);
    }
  }

  /** Lower-casing moves no `.` and no `/`. */
  lemma {:induction false} LowerLastIndexOf(s: string, c: char)
    requires c == '.' || c == '/'
    ensures LastIndexOf(ToLower(s), c) == LastIndexOf(s, c)
    decreases |s|
  {
    if s != [] {
      assert ToLower(s)[..|s| - 1] == ToLower(s[..|s| - 1]);
      LowerLastIndexOf(s[..|s| - 1], c);
    }
  }

  lemma LowerBaseName(fileName: string)
    ensures BaseName(ToLower(fileName)) == ToLower(BaseName(fileName))
  {
    var t := DropTrailingSlashes(fileName);
    LowerDropTrailingSlashes(fileName);
    LowerLastIndexOf(t, '/');
    LowerSuffix(t, LastIndexOf(t, '/') + 1);
  }

  lemma LowerSuffix(t: string, k: nat)
    requires k <= |t|
    ensures ToLower(t)[k..] == ToLower(t[k..])
  {
  }

  lemma LowerExtName(fileName: string)
    ensures ExtName(ToLower(fileName)) == ToLower(ExtName(fileName))
  {
    LowerBaseName(fileName);
    LowerExtOfBase(BaseName(fileName));
  }

  lemma LowerExtOfBase(b: string)
    requires '/' !in b
    ensures '/' !in ToLower(b)
    ensures ExtOfBase(ToLower(b)) == ToLower(ExtOfBase(b))
  {
    var lb := ToLower(b);
    LowerLastIndexOf(b, '.');
    var d := LastIndexOf(b, '.');
    assert LastIndexOf(lb, '.') == d;
    assert (lb == "..") == (b == "..") by {
      if lb == ".." {
        assert |b| == 2 && LowerChar(b[0]) == '.' && LowerChar(b[1]) == '.';
        assert b == "..";
      }
    }
    if d > 0 && b != ".." {
      assert lb[d..] == ToLower(b[d..]);
    }
  }

  /** `isAllowedExtension` (and `getExtension`) ignore letter case. */
  lemma AllowedExtensionIgnoresCase(fileName: string)
    ensures GetExtension(ToLower(fileName)) == GetExtension(fileName)
    ensures IsAllowedExtension(ToLower(fileName)) == IsAllowedExtension(fileName)
  {
    LowerExtName(fileName);
    LowerIdempotent(ExtName(fileName));
  }

  lemma {:induction false} LastIndexOfAt(s: string, c: char, i: nat)
    requires i < |s| && s[i] == c
    requires forall j :: i < j < |s| ==> s[j] != c
    ensures LastIndexOf(s, c) == i
    decreases |s|
  {
    if i < |s| - 1 {
      LastIndexOfAt(s[..|s| - 1], c, i);
    }
  }

  lemma {:induction false} LastIndexOfAbsent(s: string, c: char)
    requires c !in s
    ensures LastIndexOf(s, c) == -1
    decreases |s|
  {
    if s != [] {
      LastIndexOfAbsent(s[..|s| - 1], c);
    }
  }

  /** The base name of a name without `/` is the name itself. */
  lemma BaseNameOfPlainName(s: string)
    requires s != [] && '/' !in s
    ensures BaseName(s) == s
  {
    assert s[|s| - 1] in s;
    LastIndexOfAbsent(s, '/');
  }

  /** The extension of a name without `/` whose last `.` is at `d > 0`. */
  lemma ExtensionAt(s: string, d: nat)
    requires '/' !in s && s != ".." && 0 < d < |s| && s[d] == '.'
    requires forall j :: d < j < |s| ==> s[j] != '.'
    ensures GetExtension(s) == ToLower(s[d..])
  {
    BaseNameOfPlainName(s);
    LastIndexOfAt(s, '.', d);
  }

  /** A name `stem + ext`, `ext` a `.` and at least one character other than `.` and `/`, has extension `ext`. */
  lemma ExtensionOfSuffix(stem: string, ext: string)
    requires stem != [] && '/' !in stem
    requires |ext| >= 2 && ext[0] == '.' && '.' !in ext[1..] && '/' !in ext
    ensures GetExtension(stem + ext) == ToLower(ext)
  {
    var s := stem + ext;
    var d := |stem|;
    forall j | d < j < |s| ensures s[j] != '.' {
      assert s[j] == ext[1..][j - d - 1];
    }
    assert s[d..] == ext;
    ExtensionAt(s, d);
  }

  lemma AllowedOfSuffix(stem: string, ext: string)
    requires stem != [] && '/' !in stem
    requires |ext| >= 2 && ext[0] == '.' && '.' !in ext[1..] && '/' !in ext
    ensures IsAllowedExtension(stem + ext) <==> ToLower(ext) in AllowedExtensions
  {
    ExtensionOfSuffix(stem, ext);
  }

  /** The lower-case forms of the extensions below, and whether they are allowed. */
  lemma ExampleExtensions()
    ensures ToLower(".gz") == ".gz" && ToLower(".JPG") == ".jpg" && ".jpg" in AllowedExtensions
    ensures ToLower(".txt") == ".txt" && ".txt" !in AllowedExtensions
    ensures ToLower(".pdf") == ".pdf" && ".pdf" !in AllowedExtensions
    ensures ToLower(".exe") == ".exe" && ".exe" !in AllowedExtensions
  {
  }

  /** Only the text after the last `.` counts: `name.tar.gz` has extension `.gz`. */
  lemma ExtensionOfTarGz(stem: string)
    requires stem != [] && '/' !in stem
    ensures GetExtension(stem + ".tar.gz") == ".gz"
  {
    ExampleExtensions();
    assert stem + ".tar.gz" == (stem + ".tar") + ".gz";
    ExtensionOfSuffix(stem + ".tar", ".gz");
  }

  /** `NAME.JPG` has extension `.jpg`, which is allowed. */
  lemma ExtensionOfUpperCase(stem: string)
    requires stem != [] && '/' !in stem
    ensures GetExtension(stem + ".JPG") == ".jpg"
    ensures IsAllowedExtension(stem + ".JPG")
  {
    ExampleExtensions();
    ExtensionOfSuffix(stem, ".JPG");
    AllowedOfSuffix(stem, ".JPG");
  }

  lemma RejectsTxt(stem: string)
    requires stem != [] && '/' !in stem
    ensures !IsAllowedExtension(stem + ".txt")
  {
    ExampleExtensions();
    AllowedOfSuffix(stem, ".txt");
  }

  lemma RejectsPdf(stem: string)
    requires stem != [] && '/' !in stem
    ensures !IsAllowedExtension(stem + ".pdf")
  {
    ExampleExtensions();
    AllowedOfSuffix(stem, ".pdf");
  }

  lemma RejectsExe(stem: string)
    requires stem != [] && '/' !in stem
    ensures !IsAllowedExtension(stem + ".exe")
  {
    ExampleExtensions();
    AllowedOfSuffix(stem, ".exe");
  }

  /** `getBasename` and `getExtension` split the base name in two (before lower-casing). */
  lemma BasenameAndExtension(fileName: string)
    ensures GetBasename(fileName) + ExtName(fileName) == BaseName(fileName)
  {
  }
}
