/**
 * frontend/src/components/UploadZone.tsx: the client-side filter of the
 * upload zone. Every dropped or selected file is kept when its MIME type
 * or its extension is one of the image kinds; each other file raises one
 * alert, and `onUpload` is called only when at least one file is kept.
 */
module UploadZone {
  import opened Base
  import Paths

  const AllowedTypes: seq<string> := ["image/jpeg", "image/png", "image/svg+xml"]
  const ClientExtensions: seq<string> := [".jpg", ".jpeg", ".png", ".svg"]

  /** A browser `File`: its `name` and its MIME `type` (`""` when the browser has none). */
  datatype File = File(name: string, mime: string)

  /**
   * `'.' + file.name.split('.').pop()?.toLowerCase()`. `split` never yields
   * an empty array, so `pop` always returns its last piece.
   */
  function Extension(name: string): string {
    var pieces := Split(name, '.');
    "." + ToLower(pieces[|pieces| - 1])
  }

  /** The test of `validateFiles`: an allowed MIME type or an allowed extension. */
  predicate Accepted(f: File) {
    f.mime in AllowedTypes || Extension(f.name) in ClientExtensions
  }

  /** The text of the alert a rejected file raises. */
  function AlertText(name: string): string {
    "File \"" + name + "\" is not a supported image type (JPG, PNG, SVG)"
  }

  // ---------------------------------------------------------------------
  // The filter, as a function of the file list
  // ---------------------------------------------------------------------

  /** The files whose verdict is `accepted`, in their order. */
  function Select(files: seq<File>, accepted: bool): (r: seq<File>)
    ensures |r| <= |files|
    decreases |files|
  {
    if files == [] then []
    else
      var last := files[|files| - 1];
      Select(files[..|files| - 1], accepted) + (if Accepted(last) == accepted then [last] else [])
  }

  /** The positions of those files. */
  function SelectedIndices(files: seq<File>, accepted: bool): (r: seq<nat>)
    decreases |files|
  {
    if files == [] then []
    else
      SelectedIndices(files[..|files| - 1], accepted)
        + (if Accepted(files[|files| - 1]) == accepted then [|files| - 1] else [])
  }

  function AlertTexts(rejected: seq<File>): (r: seq<string>)
    ensures |r| == |rejected|
  {
    seq(|rejected|, k requires 0 <= k < |rejected| => AlertText(rejected[k].name))
  }

  /** `validateFiles`: what is returned and the alerts raised, in order. */
  function Validated(files: Option<seq<File>>): (seq<File>, seq<string>) {
    if files.None? then ([], [])
    else (Select(files.value, true), AlertTexts(Select(files.value, false)))
  }

  /** The files `onUpload` receives, or None when it is not called. */
  function UploadOf(files: Option<seq<File>>): Option<seq<File>> {
    var valid := Validated(files).0;
    if |valid| == 0 then None else Some(valid)
  }

  // ---------------------------------------------------------------------
  // The loop
  // ---------------------------------------------------------------------

  /** `validateFiles`: the indexed loop that pushes the kept files and alerts about the others. */
  method ValidateFiles(files: Option<seq<File>>) returns (valid: seq<File>, alerts: seq<string>)
    ensures (valid, alerts) == Validated(files)
  {
    if files.None? {
      return [], [];
    }
    var list := files.value;
    valid, alerts := [], [];
    var i := 0;
    while i < |list|
      invariant 0 <= i <= |list|
      invariant valid == Select(list[..i], true)
      invariant alerts == AlertTexts(Select(list[..i], false))
    {
      var file := list[i];
      SelectStep(list, i);
      if file.mime in AllowedTypes || Extension(file.name) in ClientExtensions {
        valid := valid + [file];
      } else {
        AlertTextsSnoc(Select(list[..i], false), file);
        alerts := alerts + [AlertText(file.name)];
      }
      i := i + 1;
    }
    assert list[..i] == list;
  }

  /**
   * The component's record of what its handlers did: the `uploading` flag
   * and, as observations, every call of `onUpload` and every alert.
   */
  class Zone {
    var uploading: bool
    var uploads: seq<seq<File>>
    var alerts: seq<string>

    constructor ()
      ensures !uploading && uploads == [] && alerts == []
    {
      uploading := false;
      uploads := [];
      alerts := [];
    }

    /**
     * `handleDrop` and `handleFileSelect`: validate, return early when
     * nothing is left, otherwise call `onUpload` with `uploading` set and
     * clear the flag in `finally`.
     */
    method HandleFiles(files: Option<seq<File>>)
      modifies this
      ensures alerts == old(alerts) + Validated(files).1
      ensures uploads == old(uploads) + (if UploadOf(files).Some? then [UploadOf(files).value] else [])
      ensures UploadOf(files).Some? ==> !uploading
      ensures UploadOf(files).None? ==> uploading == old(uploading)
    {
      var valid, raised := ValidateFiles(files);
      alerts := alerts + raised;
      if |valid| == 0 {
        return;
      }
      uploading := true;
      uploads := uploads + [valid];
      uploading := false;
    }
  }

  // ---------------------------------------------------------------------
  // Properties
  // ---------------------------------------------------------------------

  lemma AlertTextsSnoc(rejected: seq<File>, f: File)
    ensures AlertTexts(rejected + [f]) == AlertTexts(rejected) + [AlertText(f.name)]
  {
    assert forall k :: 0 <= k < |rejected| ==> (rejected + [f])[k] == rejected[k];
  }

  /** `validateFiles(null)` keeps nothing and alerts about nothing; `onUpload` is not called. */
  lemma NullFileList()
    ensures Validated(None) == ([], []) && UploadOf(None) == None
  {
  }

  /** Splitting `a + [c] + b` where `b` holds no `c` ends with the piece `b`. */
  lemma {:induction false} SplitLastConcat(a: string, b: string, c: char)
    requires c !in b
    ensures |Split(a + [c] + b, c)| >= 2
    ensures Split(a + [c] + b, c)[|Split(a + [c] + b, c)| - 1] == b
    decreases |a|
  {
    var s := a + [c] + b;
    if a == [] {
      assert s == [c] + b && s[1..] == b;
      SplitNoSeparator(b, c);
    } else {
      assert s[0] == a[0] && s[1..] == a[1..] + [c] + b;
      SplitLastConcat(a[1..], b, c);
    }
  }

  /** The last piece of a split is the text after the last separator, or all of it. */
  lemma SplitLastPiece(s: string, c: char)
    ensures var pieces := Split(s, c);
      pieces[|pieces| - 1] == s[LastIndexOf(s, c) + 1..]
  {
    var i := LastIndexOf(s, c);
    if i < 0 {
      SplitNoSeparator(s, c);
    } else {
      NotInSuffix(s, i + 1, c);
      assert s == s[..i] + [c] + s[i + 1..];
      SplitLastConcat(s[..i], s[i + 1..], c);
    }
  }

  /** The extension is `.` and the lower-cased text after the last `.`, or the whole name without one. */
  lemma ExtensionAfterLastDot(name: string)
    ensures Extension(name) == "." + ToLower(name[LastIndexOf(name, '.') + 1..])
  {
    SplitLastPiece(name, '.');
  }

  /** Without a `.`, the whole name, lower-cased, is the extension. */
  lemma DotlessExtension(name: string)
    requires '.' !in name
    ensures Extension(name) == "." + ToLower(name)
  {
    ExtensionAfterLastDot(name);
    assert name[0..] == name;
  }

  lemma DotPrefix(x: string)
    ensures "." + x in ClientExtensions <==> x in ["jpg", "jpeg", "png", "svg"]
  {
    assert "." + "jpg" == ".jpg" && "." + "jpeg" == ".jpeg";
    assert "." + "png" == ".png" && "." + "svg" == ".svg";
    DotEq(x, "jpg");
    DotEq(x, "jpeg");
    DotEq(x, "png");
    DotEq(x, "svg");
  }

  lemma DotEq(x: string, e: string)
    ensures "." + x == "." + e <==> x == e
  {
    assert ("." + x)[1..] == x && ("." + e)[1..] == e;
  }

  /** Lower-casing leaves the `.` in front of an extension in place. */
  lemma LowerDotSuffix(s: string, d: nat)
    requires d < |s| && s[d] == '.'
    ensures ToLower(s[d..]) == "." + ToLower(s[d + 1..])
  {
    assert s[d..] == "." + s[d + 1..];
  }

  /**
   * A file is kept exactly when its MIME type is JPEG, PNG or SVG, or the
   * lower-cased text after its last `.` (its whole name without one) is
   * `jpg`, `jpeg`, `png` or `svg`.
   */
  lemma AcceptedIff(f: File)
    ensures Accepted(f) <==>
      f.mime in {"image/jpeg", "image/png", "image/svg+xml"}
      || ToLower(f.name[LastIndexOf(f.name, '.') + 1..]) in {"jpg", "jpeg", "png", "svg"}
  {
    ExtensionAfterLastDot(f.name);
    DotPrefix(ToLower(f.name[LastIndexOf(f.name, '.') + 1..]));
  }

  /** The MIME type alone suffices: an image type keeps a file whatever its name. */
  lemma ImageTypeKeepsAnyName(name: string, mime: string)
    requires mime in AllowedTypes
    ensures Accepted(File(name, mime))
  {
  }

  /** A name without a dot counts as its own extension: a file called `PNG` is kept. */
  lemma DotlessNameIsItsExtension(name: string, mime: string)
    requires '.' !in name && ToLower(name) in ["jpg", "jpeg", "png", "svg"]
    ensures Accepted(File(name, mime))
  {
    DotlessExtension(name);
    DotPrefix(ToLower(name));
  }

  /** One more file of the list: it joins the files of its own verdict. */
  lemma SelectStep(files: seq<File>, i: nat)
    requires i < |files|
    ensures Select(files[..i + 1], true) == Select(files[..i], true) + (if Accepted(files[i]) then [files[i]] else [])
    ensures Select(files[..i + 1], false) == Select(files[..i], false) + (if Accepted(files[i]) then [] else [files[i]])
  {
    assert files[..i + 1][..i] == files[..i];
  }

  /**
   * `r` lists the files of `files` with verdict `accepted` and `idx` their
   * positions: strictly increasing, and holding every position with that
   * verdict.
   */
  predicate Filters(idx: seq<nat>, r: seq<File>, files: seq<File>, accepted: bool) {
    |idx| == |r|
    && (forall k :: 0 <= k < |idx| ==> idx[k] < |files| && r[k] == files[idx[k]])
    && (forall k, l :: 0 <= k < l < |idx| ==> idx[k] < idx[l])
    && (forall j :: 0 <= j < |files| ==> (j in idx <==> Accepted(files[j]) == accepted))
  }

  /** `Select` is a filter, and `SelectedIndices` says where its files come from. */
  lemma {:induction false} SelectIsFilter(files: seq<File>, accepted: bool)
    ensures Filters(SelectedIndices(files, accepted), Select(files, accepted), files, accepted)
    decreases |files|
  {
    if files != [] {
      SelectIsFilter(files[..|files| - 1], accepted);
      FiltersSnoc(files, accepted);
    }
  }

  lemma FiltersSnoc(files: seq<File>, accepted: bool)
    requires files != []
    requires var init := files[..|files| - 1];
      Filters(SelectedIndices(init, accepted), Select(init, accepted), init, accepted)
    ensures Filters(SelectedIndices(files, accepted), Select(files, accepted), files, accepted)
  {
    var n := |files| - 1;
    var init := files[..n];
    if Accepted(files[n]) == accepted {
      FiltersAppend(SelectedIndices(init, accepted), Select(init, accepted), files, accepted);
    } else {
      FiltersSkip(SelectedIndices(init, accepted), Select(init, accepted), files, accepted);
    }
  }

  lemma FiltersAppend(idx: seq<nat>, r: seq<File>, files: seq<File>, accepted: bool)
    requires files != [] && Accepted(files[|files| - 1]) == accepted
    requires Filters(idx, r, files[..|files| - 1], accepted)
    ensures Filters(idx + [|files| - 1], r + [files[|files| - 1]], files, accepted)
  {
    var n := |files| - 1;
    var idx', r' := idx + [n], r + [files[n]];
    assert forall j :: 0 <= j < n ==> files[..n][j] == files[j];
    assert forall k :: 0 <= k < |idx| ==> idx'[k] == idx[k] && r'[k] == r[k];
    forall k, l | 0 <= k < l < |idx'|
      ensures idx'[k] < idx'[l]
    {
      if l == |idx| {
        assert idx'[k] == idx[k] < n == idx'[l];
      }
    }
    forall j | 0 <= j < |files|
      ensures j in idx' <==> Accepted(files[j]) == accepted
    {
      if j < n {
        assert j in idx' <==> j in idx;
      }
    }
  }

  lemma FiltersSkip(idx: seq<nat>, r: seq<File>, files: seq<File>, accepted: bool)
    requires files != [] && Accepted(files[|files| - 1]) != accepted
    requires Filters(idx, r, files[..|files| - 1], accepted)
    ensures Filters(idx, r, files, accepted)
  {
    var n := |files| - 1;
    assert forall j :: 0 <= j < n ==> files[..n][j] == files[j];
    assert n !in idx;
  }

  /** A file is returned exactly when it is in the list and passes the test. */
  lemma KeptFiles(files: seq<File>, f: File)
    ensures f in Validated(Some(files)).0 <==> f in files && Accepted(f)
  {
    SelectIsFilter(files, true);
    var idx := SelectedIndices(files, true);
    var kept := Select(files, true);
    if f in kept {
      var k :| 0 <= k < |kept| && kept[k] == f;
      assert files[idx[k]] == f;
    }
    if f in files && Accepted(f) {
      var j :| 0 <= j < |files| && files[j] == f;
      assert j in idx;
      var k :| 0 <= k < |idx| && idx[k] == j;
      assert kept[k] == f;
    }
  }

  /**
   * Every file is either returned or alerted about, never both: together
   * the kept and the rejected files are a permutation of the list.
   */
  lemma {:induction false} KeptPlusRejected(files: seq<File>)
    ensures multiset(Select(files, true)) + multiset(Select(files, false)) == multiset(files)
    ensures |Select(files, true)| + |Select(files, false)| == |files|
    decreases |files|
  {
    if files != [] {
      var init, last := files[..|files| - 1], files[|files| - 1];
      KeptPlusRejected(init);
      assert files == init + [last];
      assert multiset(files) == multiset(init) + multiset{last};
      if Accepted(last) {
        assert Select(files, true) == Select(init, true) + [last];
        assert Select(files, false) == Select(init, false);
      } else {
        assert Select(files, true) == Select(init, true);
        assert Select(files, false) == Select(init, false) + [last];
      }
    }
  }

  /**
   * One alert per rejected file, in the order of the list, and as many
   * alerts as files not returned.
   */
  lemma OneAlertPerRejectedFile(files: seq<File>)
    ensures var (valid, alerts) := Validated(Some(files));
      |valid| + |alerts| == |files|
      && forall k :: 0 <= k < |alerts| ==>
           exists j :: 0 <= j < |files| && !Accepted(files[j]) && alerts[k] == AlertText(files[j].name)
  {
    KeptPlusRejected(files);
    SelectIsFilter(files, false);
    var idx := SelectedIndices(files, false);
    var rejected := Select(files, false);
    forall k | 0 <= k < |AlertTexts(rejected)|
      ensures exists j :: 0 <= j < |files| && !Accepted(files[j]) && AlertTexts(rejected)[k] == AlertText(files[j].name)
    {
      var j := idx[k];
      assert rejected[k] == files[j] && j in idx;
    }
  }

  /** `onUpload` is called exactly when some file passes, and then with every such file. */
  lemma NoUploadWhenNothingPasses(files: Option<seq<File>>)
    ensures UploadOf(files).None? <==> files.None? || forall f :: f in files.value ==> !Accepted(f)
    ensures UploadOf(files).Some? ==> UploadOf(files).value != [] && forall f :: f in UploadOf(files).value ==> Accepted(f)
  {
    if files.Some? {
      forall f | true
        ensures f in Validated(files).0 <==> f in files.value && Accepted(f)
      {
        KeptFiles(files.value, f);
      }
      var valid := Validated(files).0;
      if valid != [] {
        assert valid[0] in valid;
      }
    }
  }

  // ---------------------------------------------------------------------
  // Against the server's extension check
  // ---------------------------------------------------------------------

  /** The upload zone lists the extensions the server allows. */
  lemma SameExtensionList()
    ensures ClientExtensions == Paths.AllowedExtensions
  {
  }

  /**
   * For a plain file name whose last `.` is not its first character, the
   * client's extension is the server's `getExtension`, so without an image
   * MIME type the client keeps exactly what `isAllowedExtension` accepts.
   */
  lemma AgreesWithServer(name: string, mime: string)
    requires '/' !in name && name != ".." && LastIndexOf(name, '.') > 0
    requires mime !in AllowedTypes
    ensures Extension(name) == Paths.GetExtension(name)
    ensures Accepted(File(name, mime)) <==> Paths.IsAllowedExtension(name)
  {
    var d := LastIndexOf(name, '.');
    ExtensionAfterLastDot(name);
    Paths.ExtensionAt(name, d);
    LowerDotSuffix(name, d);
    SameExtensionList();
  }

  /** The client lets a text file through when the browser reports an image type; the server refuses it. */
  lemma ImageTypedTextFile(stem: string)
    requires stem != [] && '/' !in stem
    ensures Accepted(File(stem + ".txt", "image/png"))
    ensures !Paths.IsAllowedExtension(stem + ".txt")
  {
    Paths.RejectsTxt(stem);
  }
}
