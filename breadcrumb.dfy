/**
 * frontend/src/components/Breadcrumb.tsx: the breadcrumb over the folder
 * being browsed. The path is cut into its non-empty segments; the Home
 * button navigates to the root `""`, and the button of segment `i`
 * navigates to the first `i + 1` segments joined by `/`.
 */
module Breadcrumb {
  import opened Base

  /** `filter(Boolean)` on strings: drops the empty ones, keeps the order. */
  function DropEmpty(segs: seq<string>): (r: seq<string>)
    ensures |r| <= |segs|
    ensures forall k :: 0 <= k < |r| ==> r[k] != ""
    ensures forall x :: x in r <==> x in segs && x != ""
    decreases |segs|
  {
    if segs == [] then []
    else (if segs[0] == "" then [] else [segs[0]]) + DropEmpty(segs[1..])
  }

  /** `parts`: `path.split('/').filter(Boolean)`, or none when `path` is empty. */
  function Parts(path: string): (r: seq<string>)
    ensures forall k :: 0 <= k < |r| ==> r[k] != "" && '/' !in r[k]
  {
    if path == "" then []
    else
      var segs := Split(path, '/');
      SplitPartsHaveNoSeparator(path, '/');
      var r := DropEmpty(segs);
      assert forall k :: 0 <= k < |r| ==> r[k] in segs;
      r
  }

  /** `buildPath(index)`: `parts.slice(0, index + 1).join('/')` (`slice` clamps at the end). */
  function BuildPath(parts: seq<string>, index: nat): string {
    Join(parts[..if index + 1 <= |parts| then index + 1 else |parts|], "/")
  }

  /** A button of the breadcrumb: its text and the folder `onNavigate` receives. */
  datatype Crumb = Crumb(text: string, target: string)

  const HomeCrumb := Crumb("Home", "")

  /** The buttons in the order they are rendered: Home, then one per part. */
  function CrumbsOf(parts: seq<string>): (r: seq<Crumb>)
    ensures |r| == |parts| + 1
    ensures r[0] == HomeCrumb
    ensures forall i :: 1 <= i < |r| ==> r[i] == Crumb(parts[i - 1], BuildPath(parts, i - 1))
  {
    [HomeCrumb] + seq(|parts|, i requires 0 <= i < |parts| => Crumb(parts[i], BuildPath(parts, i)))
  }

  function Crumbs(path: string): seq<Crumb> {
    CrumbsOf(Parts(path))
  }

  // ---------------------------------------------------------------------
  // A reference definition: the path with its empty segments squeezed out
  // ---------------------------------------------------------------------

  /**
   * The path read character by character, dropping every `/` that is
   * leading, trailing or repeated: `started` says a segment character was
   * seen, `pending` that a separator is owed before the next one.
   */
  function SqueezeFrom(s: string, started: bool, pending: bool): string
    decreases |s|
  {
    if s == [] then ""
    else if s[0] == '/' then SqueezeFrom(s[1..], started, started)
    else (if pending then "/" else "") + [s[0]] + SqueezeFrom(s[1..], true, false)
  }

  function Squeeze(path: string): string {
    SqueezeFrom(path, false, false)
  }

  // ---------------------------------------------------------------------
  // Properties
  // ---------------------------------------------------------------------

  /** The `path ?` guard changes nothing: `"".split('/')` is `[""]`, which the filter empties. */
  lemma EmptyPathHasNoParts()
    ensures Parts("") == [] && DropEmpty(Split("", '/')) == []
    ensures Crumbs("") == [HomeCrumb]
  {
  }

  /** The Home button navigates to the root, whatever the path. */
  lemma HomeNavigatesToRoot(path: string)
    ensures Crumbs(path)[0].target == ""
  {
  }

  /** Joining non-empty segments that hold no `/` and splitting again gives them back. */
  lemma JoinedSegments(ps: seq<string>)
    requires forall k :: 0 <= k < |ps| ==> ps[k] != "" && '/' !in ps[k]
    ensures ps != [] ==> Split(Join(ps, "/"), '/') == ps
    ensures Join(ps, "/") == "" <==> ps == []
  {
    if ps != [] {
      SplitJoin(ps, '/');
      JoinHead(ps[0], ps[1..]);
      assert [ps[0]] + ps[1..] == ps;
    }
  }

  lemma JoinHead(a: string, t: seq<string>)
    ensures Join([a] + t, "/") == a + (if t == [] then "" else "/" + Join(t, "/"))
  {
    assert ([a] + t)[1..] == t;
  }

  lemma DropEmptyOfNonEmpty(ps: seq<string>)
    requires forall k :: 0 <= k < |ps| ==> ps[k] != ""
    ensures DropEmpty(ps) == ps
  {
  }

  /**
   * Navigating to the folder of segment `i` shows its parts again: the
   * parts of `buildPath(i)` are the first `i + 1` parts.
   */
  lemma PartsOfBuildPath(path: string, i: nat)
    requires i < |Parts(path)|
    ensures Parts(BuildPath(Parts(path), i)) == Parts(path)[..i + 1]
  {
    var ps := Parts(path)[..i + 1];
    JoinedSegments(ps);
    DropEmptyOfNonEmpty(ps);
  }

  /** Joining the concatenation of two non-empty runs puts one `/` between them. */
  lemma {:induction false} JoinConcat(a: seq<string>, b: seq<string>)
    requires a != [] && b != []
    ensures Join(a + b, "/") == Join(a, "/") + "/" + Join(b, "/")
    decreases |a|
  {
    JoinHead(a[0], a[1..] + b);
    assert a + b == [a[0]] + (a[1..] + b);
    if |a| == 1 {
      assert a[1..] + b == b;
    } else {
      JoinConcat(a[1..], b);
      JoinHead(a[0], a[1..]);
      assert [a[0]] + a[1..] == a;
    }
  }

  /**
   * For `i < j` the target of button `i` is a leading run of segments of
   * the target of button `j`: `buildPath(j)` is `buildPath(i)`, a `/`, and
   * the segments `i + 1 .. j`.
   */
  lemma BuildPathPrefix(parts: seq<string>, i: nat, j: nat)
    requires i < j < |parts|
    ensures BuildPath(parts, j) == BuildPath(parts, i) + "/" + Join(parts[i + 1..j + 1], "/")
    ensures StartsWith(BuildPath(parts, j), BuildPath(parts, i) + "/")
  {
    assert parts[..j + 1] == parts[..i + 1] + parts[i + 1..j + 1];
    JoinConcat(parts[..i + 1], parts[i + 1..j + 1]);
    var p := BuildPath(parts, i) + "/";
    assert BuildPath(parts, j) == p + Join(parts[i + 1..j + 1], "/");
    assert BuildPath(parts, j)[..|p|] == p;
  }

  /** The same, segment by segment: the parts of `buildPath(i)` lead those of `buildPath(j)`. */
  lemma SegmentPrefix(path: string, i: nat, j: nat)
    requires i <= j < |Parts(path)|
    ensures Parts(BuildPath(Parts(path), i)) <= Parts(BuildPath(Parts(path), j))
  {
    PartsOfBuildPath(path, i);
    PartsOfBuildPath(path, j);
  }

  /** The buttons for the first `k` parts are the first `k + 1` buttons. */
  lemma CrumbsOfPrefix(parts: seq<string>, k: nat)
    requires k <= |parts|
    ensures CrumbsOf(parts[..k]) == CrumbsOf(parts)[..k + 1]
  {
    var d, c := CrumbsOf(parts[..k]), CrumbsOf(parts);
    forall m | 1 <= m <= k
      ensures d[m] == c[m]
    {
      assert parts[..k][..m] == parts[..m];
    }
    assert forall m :: 0 <= m <= k ==> d[m] == c[..k + 1][m];
  }

  /**
   * Following any button gives a breadcrumb that is the first buttons of
   * the current one: Home stays first and the parts up to the one clicked
   * keep their texts and targets.
   */
  lemma NavigateKeepsLeadingCrumbs(path: string, k: nat)
    requires k < |Crumbs(path)|
    ensures Crumbs(Crumbs(path)[k].target) == Crumbs(path)[..k + 1]
  {
    var parts := Parts(path);
    if k == 0 {
      assert Crumbs(path)[..1] == [HomeCrumb];
      assert Crumbs("") == [HomeCrumb];
    } else {
      PartsOfBuildPath(path, k - 1);
      CrumbsOfPrefix(parts, k);
    }
  }

  /** The separator `SqueezeFrom` writes before its first segment, if any. */
  predicate LeadingSeparator(s: string, started: bool, pending: bool) {
    if s != [] && s[0] == '/' then started else pending
  }

  lemma DropEmptyCons(x: string, t: seq<string>)
    ensures DropEmpty([x] + t) == (if x == "" then [] else [x]) + DropEmpty(t)
  {
    assert ([x] + t)[1..] == t;
  }

  /** The first piece of a split is empty exactly when the string is empty or starts with `/`. */
  lemma SplitStep(s: string)
    requires s != []
    ensures s[0] == '/' ==> Split(s, '/') == [""] + Split(s[1..], '/')
    ensures s[0] != '/' ==> var rest := Split(s[1..], '/');
      Split(s, '/') == [[s[0]] + rest[0]] + rest[1..]
    ensures Split(s[1..], '/')[0] == "" <==> (s[1..] == [] || s[1] == '/')
  {
  }

  /** What `SqueezeFrom` writes, in terms of the non-empty segments of `s`. */
  predicate SqueezesTo(s: string, started: bool, pending: bool) {
    var ps := DropEmpty(Split(s, '/'));
    SqueezeFrom(s, started, pending)
      == if ps == [] then ""
         else (if LeadingSeparator(s, started, pending) then "/" else "") + Join(ps, "/")
  }

  /** `SqueezeFrom` against split-and-filter, for any state it is started in. */
  lemma {:induction false} SqueezeSegments(s: string, started: bool, pending: bool)
    ensures SqueezesTo(s, started, pending)
    decreases |s|
  {
    if s != [] {
      if s[0] == '/' {
        SqueezeSegments(s[1..], started, started);
        SqueezeSlash(s, started, pending);
      } else {
        SqueezeSegments(s[1..], true, false);
        SqueezeChar(s, started, pending);
      }
    }
  }

  lemma SqueezeSlash(s: string, started: bool, pending: bool)
    requires s != [] && s[0] == '/'
    requires SqueezesTo(s[1..], started, started)
    ensures SqueezesTo(s, started, pending)
  {
    SplitStep(s);
    DropEmptyCons("", Split(s[1..], '/'));
    assert DropEmpty(Split(s, '/')) == DropEmpty(Split(s[1..], '/'));
    assert SqueezeFrom(s, started, pending) == SqueezeFrom(s[1..], started, started);
    assert LeadingSeparator(s, started, pending) == started == LeadingSeparator(s[1..], started, started);
  }

  lemma SqueezeChar(s: string, started: bool, pending: bool)
    requires s != [] && s[0] != '/'
    requires SqueezesTo(s[1..], true, false)
    ensures SqueezesTo(s, started, pending)
  {
    SplitStep(s);
    var rest := Split(s[1..], '/');
    var head := [s[0]] + rest[0];
    var tail := DropEmpty(rest[1..]);
    DropEmptyCons(head, rest[1..]);
    assert DropEmpty(Split(s, '/')) == [head] + tail;
    JoinHead(head, tail);
    var more := if tail == [] then "" else "/" + Join(tail, "/");
    var x := SqueezeFrom(s[1..], true, false);
    assert SqueezeFrom(s, started, pending) == (if pending then "/" else "") + [s[0]] + x;
    assert rest == [rest[0]] + rest[1..];
    DropEmptyCons(rest[0], rest[1..]);
    var sep := if pending then "/" else "";
    if rest[0] != "" {
      SqueezeRest(s[1..], rest, tail, x);
      Regroup(sep, s[0], rest[0], more);
    } else {
      SqueezeEmptyRest(s[1..], rest, tail, x);
      Regroup(sep, s[0], rest[0], more);
    }
    assert SqueezeFrom(s, started, pending) == sep + Join(DropEmpty(Split(s, '/')), "/");
    assert LeadingSeparator(s, started, pending) == pending;
  }

  lemma Regroup(sep: string, c: char, a: string, more: string)
    ensures sep + [c] + (a + more) == sep + (([c] + a) + more)
    ensures a == "" ==> sep + [c] + more == sep + (([c] + a) + more)
  {
    if a == "" {
      assert [c] + a == [c];
    }
  }

  lemma SqueezeRest(t: string, rest: seq<string>, tail: seq<string>, x: string)
    requires rest == Split(t, '/') && rest[0] != "" && tail == DropEmpty(rest[1..])
    requires DropEmpty(rest) == [rest[0]] + tail
    requires SqueezesTo(t, true, false) && x == SqueezeFrom(t, true, false)
    ensures x == rest[0] + (if tail == [] then "" else "/" + Join(tail, "/"))
  {
    JoinHead(rest[0], tail);
    assert !LeadingSeparator(t, true, false);
  }

  lemma SqueezeEmptyRest(t: string, rest: seq<string>, tail: seq<string>, x: string)
    requires rest == Split(t, '/') && rest[0] == "" && tail == DropEmpty(rest[1..])
    requires (t == [] || t[0] == '/') && DropEmpty(rest) == tail
    requires SqueezesTo(t, true, false) && x == SqueezeFrom(t, true, false)
    ensures x == (if tail == [] then "" else "/" + Join(tail, "/"))
  {
    if t == [] {
      assert rest == [""];
    }
  }

  /**
   * The target of the last button is the path with its empty segments
   * removed: no leading, trailing or doubled `/`; a path of slashes only
   * has no parts at all.
   */
  lemma LastCrumbIsSqueezedPath(path: string)
    ensures Parts(path) == [] <==> Squeeze(path) == ""
    ensures Parts(path) != [] ==> BuildPath(Parts(path), |Parts(path)| - 1) == Squeeze(path)
  {
    SqueezeSegments(path, false, false);
    var ps := Parts(path);
    JoinedSegments(ps);
    if ps != [] {
      assert ps[..|ps|] == ps;
    }
  }

  /** The last target has exactly the parts of the path, so no empty segment. */
  lemma LastCrumbHasNoEmptySegment(path: string)
    requires Parts(path) != []
    ensures var last := BuildPath(Parts(path), |Parts(path)| - 1);
      Split(last, '/') == Parts(path) &&
      forall k :: 0 <= k < |Split(last, '/')| ==> Split(last, '/')[k] != ""
  {
    var ps := Parts(path);
    JoinedSegments(ps);
    assert ps[..|ps|] == ps;
  }
}
