/**
 * backend/src/routes/cdn-routes.ts: `serveFile`, the public file handler.
 * It picks 404, 400 or 304 by a chain of early returns (the conditional
 * requests of sections 13.1.2 and 13.1.3 of RFC 9110, in the simplified
 * form of the source), builds the header set, and answers a `Range`
 * request (section 14.2 of RFC 9110) with 206 and a `Content-Range` header
 * (section 14.4) while still sending the whole file.
 *
 * `Date` parsing of `If-Modified-Since` is the parameter `parseDate` (None
 * for an unparsable date, whose `getTime()` is NaN); `toUTCString` is the
 * parameter `formatDate`.
 */
module CdnRoutes {
  import opened Base
  import opened Paths
  import opened Types
  import opened Disk
  import opened ETag
  import opened StorageLocal
  import opened Http

  const ImmutableCache := "public, max-age=31536000, immutable"
  const SvgType := "image/svg+xml"
  const SvgPolicy := "default-src 'none'; style-src 'unsafe-inline'; img-src data:;"
  const CdnMethods := "GET, HEAD, OPTIONS"

  // ---------------------------------------------------------------------
  // The Range header
  // ---------------------------------------------------------------------

  predicate AllDigits(t: string) {
    forall k :: 0 <= k < |t| ==> IsDigit(t[k])
  }

  /** The length of the run of decimal digits of `s` that starts at `i`. */
  function DigitRun(s: string, i: nat): (n: nat)
    requires i <= |s|
    ensures i + n <= |s|
    ensures forall k :: i <= k < i + n ==> IsDigit(s[k])
    ensures i + n == |s| || !IsDigit(s[i + n])
    decreases |s| - i
  {
    if i < |s| && IsDigit(s[i]) then 1 + DigitRun(s, i + 1) else 0
  }

  /**
   * `/bytes=(\d+)-(\d*)/` matches `s` at `i` with the groups `a` and `b`.
   * The `-` after `\d+` leaves it no choice, and the greedy `\d*` takes
   * every digit that follows.
   */
  predicate RangeMatchAt(s: string, i: int, a: string, b: string) {
    0 <= i && i + 7 + |a| + |b| <= |s|
    && s[i..i + 6] == "bytes="
    && a != [] && AllDigits(a) && s[i + 6..i + 6 + |a|] == a
    && s[i + 6 + |a|] == '-'
    && AllDigits(b) && s[i + 7 + |a|..i + 7 + |a| + |b|] == b
    && (i + 7 + |a| + |b| == |s| || !IsDigit(s[i + 7 + |a| + |b|]))
  }

  /** The groups of a match at exactly `i`, if the pattern matches there. */
  function GroupsAt(s: string, i: nat): Option<(string, string)>
    requires i <= |s|
  {
    if i + 6 <= |s| && s[i..i + 6] == "bytes=" then
      var n := DigitRun(s, i + 6);
      if n > 0 && i + 6 + n < |s| && s[i + 6 + n] == '-' then
        var m := DigitRun(s, i + 7 + n);
        Some((s[i + 6..i + 6 + n], s[i + 7 + n..i + 7 + n + m]))
      else None
    else None
  }

  /** The leftmost match at or after `i`. */
  function FirstMatch(s: string, i: nat): Option<(string, string)>
    requires i <= |s|
    decreases |s| - i
  {
    match GroupsAt(s, i)
    case Some(g) => Some(g)
    case None => if i == |s| then None else FirstMatch(s, i + 1)
  }

  /** `range.match(/bytes=(\d+)-(\d*)/)`, with its two groups. */
  function RangeGroups(range: string): Option<(string, string)> {
    FirstMatch(range, 0)
  }

  /** `parseInt(t, 10)` for a string of decimal digits. */
  function DecimalValue(t: string): nat
    decreases |t|
  {
    if t == [] then 0
    else
      var d := t[|t| - 1] as int - '0' as int;
      DecimalValue(t[..|t| - 1]) * 10 + (if 0 <= d then d else 0)
  }

  /** The first and last byte a `Range` header asks for. */
  datatype ByteRange = ByteRange(start: nat, end: int)

  /** `start`, and `end` (`size - 1` when the second group is empty). */
  function RangeOf(range: string, size: nat): Option<ByteRange> {
    match RangeGroups(range)
    case None => None
    case Some((a, b)) => Some(ByteRange(DecimalValue(a), if b != "" then DecimalValue(b) else size - 1))
  }

  /** `bytes ${start}-${end}/${size}`. */
  function ContentRange(r: ByteRange, size: nat): string {
    "bytes " + NatToString(r.start) + "-" + IntToString(r.end) + "/" + NatToString(size)
  }

  // ---------------------------------------------------------------------
  // The response
  // ---------------------------------------------------------------------

  predicate IsSvg(info: FileInfo) {
    GetExtension(info.name) == ".svg"
  }

  /** `fileInfo.mimeType || 'application/octet-stream'`, overridden for `.svg` (`svg`). */
  function ContentType(info: FileInfo, svg: bool): string {
    if svg then SvgType else OrElse(info.mimeType, OctetStream)
  }

  /** The headers of a served file before the `Range` header is looked at; `svg` is `IsSvg(info)`. */
  function FileHeaders(info: FileInfo, svg: bool, formatDate: nat -> string): map<string, string> {
    var h0 := map["Content-Type" := ContentType(info, svg), "Cache-Control" := ImmutableCache, "Accept-Ranges" := "bytes"];
    var h1 := if Truthy(info.etag) then h0["ETag" := info.etag.value] else h0;
    var h2 := if info.lastModified.Some? then h1["Last-Modified" := formatDate(info.lastModified.value)] else h1;
    var h3 := if info.size.Some? then h2["Content-Length" := NatToString(info.size.value)] else h2;
    var h4 := if svg then h3["Content-Security-Policy" := SvgPolicy]["X-Content-Type-Options" := "nosniff"] else h3;
    h4["Access-Control-Allow-Origin" := "*"]["Access-Control-Allow-Methods" := CdnMethods]
  }

  /** `fileInfo.etag && matchesETag(fileInfo.etag, ifNoneMatch)`. */
  predicate ETagMatches(info: FileInfo, req: Request) {
    Truthy(info.etag) && MatchesETag(info.etag.value, Header(req, "if-none-match"))
  }

  /** `ifModifiedSince && fileInfo.lastModified` and `modifiedTime <= sinceTime`. */
  predicate NotModifiedSince(info: FileInfo, req: Request, parseDate: string -> Option<int>) {
    var since := Header(req, "if-modified-since");
    Truthy(since) && info.lastModified.Some?
    && var t := parseDate(since.value); t.Some? && info.lastModified.value <= t.value
  }

  /** The response to a regular file that is sent; `svg` is `IsSvg(info)`. */
  function Served(info: FileInfo, svg: bool, content: seq<byte>, req: Request, formatDate: nat -> string): Response {
    var headers := FileHeaders(info, svg, formatDate);
    var range := Header(req, "range");
    var size := if info.size.Some? then info.size.value else 0;
    if Truthy(range) && size != 0 && RangeOf(range.value, size).Some? then
      var r := RangeOf(range.value, size).value;
      Response(206, headers["Content-Range" := ContentRange(r, size)]["Content-Length" := IntToString(r.end - r.start + 1)],
               Bytes(content))
    else
      Response(200, headers, Bytes(content))
  }

  /**
   * `serveFile(path, req)` against the file system `fs`. `exists` and
   * `stat` agree on where `path` points, and a file that exists can be
   * read, so the server error of the `catch` is unreachable.
   */
  function ServeFileResponse(fs: Fs, rootName: string, mimeLookup: string -> Option<string>, path: string,
                             req: Request, parseDate: string -> Option<int>, formatDate: nat -> string): Response
  {
    match AbsoluteKey(path)
    case Err(_) => TextResponse(404, "Not Found")
    case Ok(k) =>
      if k !in fs then TextResponse(404, "Not Found")
      else if fs[k].DirNode? then TextResponse(400, "Cannot serve directory")
      else
        Answer(FileRecord(rootName, mimeLookup, path, k, fs[k]), fs[k].data, req, parseDate, formatDate)
  }

  /** What `stat` reports for the file at `k`, which `serveFile` decides on. */
  function FileRecord(rootName: string, mimeLookup: string -> Option<string>, path: string, k: Key, node: Node): FileInfo {
    Info(StatName(rootName, k), path, node, mimeLookup, true)
  }

  /** The answer for a regular file with record `info` and bytes `content`: 304 or sent. */
  function Answer(info: FileInfo, content: seq<byte>, req: Request, parseDate: string -> Option<int>,
                  formatDate: nat -> string): Response
  {
    if ETagMatches(info, req) then Response(304, map[], NoBody)
    else if NotModifiedSince(info, req, parseDate) then Response(304, map[], NoBody)
    else Served(info, IsSvg(info), content, req, formatDate)
  }

  class CdnRoutes {
    const storage: LocalStorageAdapter
    const parseDate: string -> Option<int>
    const formatDate: nat -> string

    constructor(storage: LocalStorageAdapter, parseDate: string -> Option<int>, formatDate: nat -> string)
      ensures this.storage == storage && this.parseDate == parseDate && this.formatDate == formatDate
    {
      this.storage := storage;
      this.parseDate := parseDate;
      this.formatDate := formatDate;
    }

    /** `serveFile(path, req)`: reads the storage and changes nothing. */
    method ServeFile(path: string, req: Request) returns (r: Response)
      ensures r == ServeFileResponse(storage.fsys.fs, storage.rootName, storage.mimeLookup, path, req, parseDate, formatDate)
    {
      var found := storage.Exists(path);
      if !found {
        assert ServeFileResponse(storage.fsys.fs, storage.rootName, storage.mimeLookup, path, req, parseDate, formatDate) == TextResponse(404, "Not Found");
        return TextResponse(404, "Not Found");
      }
      var stat := storage.Stat(path);
      var k := AbsoluteKey(path).value;
      ExistingServed(storage.fsys.fs, storage.rootName, storage.mimeLookup, path, req, parseDate, formatDate);
      assert stat == Ok(Info(StatName(storage.rootName, k), path, storage.fsys.fs[k], storage.mimeLookup, true));
      var info := stat.value;
      if info.kind == Directory {
        assert ServeFileResponse(storage.fsys.fs, storage.rootName, storage.mimeLookup, path, req, parseDate, formatDate) == TextResponse(400, "Cannot serve directory");
        return TextResponse(400, "Cannot serve directory");
      }
      var ifNoneMatch := Header(req, "if-none-match");
      assert info == FileRecord(storage.rootName, storage.mimeLookup, path, k, storage.fsys.fs[k]);
      if Truthy(info.etag) && MatchesETag(info.etag.value, ifNoneMatch) {
        assert Answer(info, storage.fsys.fs[k].data, req, parseDate, formatDate) == Response(304, map[], NoBody);
        return Response(304, map[], NoBody);
      }
      var ifModifiedSince := Header(req, "if-modified-since");
      if Truthy(ifModifiedSince) && info.lastModified.Some? {
        var sinceTime := parseDate(ifModifiedSince.value);
        if sinceTime.Some? && info.lastModified.value <= sinceTime.value {
          assert Answer(info, storage.fsys.fs[k].data, req, parseDate, formatDate) == Response(304, map[], NoBody);
          return Response(304, map[], NoBody);
        }
      }
      var stream := storage.Read(path);
      assert stream == Ok(storage.fsys.fs[k].data);
      assert Answer(info, stream.value, req, parseDate, formatDate) == Served(info, IsSvg(info), stream.value, req, formatDate);
      r := Send(info, IsSvg(info), stream.value, req);
    }

    /**
     * The part of `serveFile` after the conditional checks: the headers and
     * the `Range` answer; `svg` is whether the name ends in `.svg`.
     */
    method Send(info: FileInfo, svg: bool, content: seq<byte>, req: Request) returns (r: Response)
      ensures r == Served(info, svg, content, req, formatDate)
    {
      var headers := map["Content-Type" := ContentType(info, svg), "Cache-Control" := ImmutableCache, "Accept-Ranges" := "bytes"];
      if Truthy(info.etag) {
        headers := headers["ETag" := info.etag.value];
      }
      if info.lastModified.Some? {
        headers := headers["Last-Modified" := formatDate(info.lastModified.value)];
      }
      if info.size.Some? {
        headers := headers["Content-Length" := NatToString(info.size.value)];
      }
      if svg {
        headers := headers["Content-Security-Policy" := SvgPolicy];
        headers := headers["X-Content-Type-Options" := "nosniff"];
      }
      headers := headers["Access-Control-Allow-Origin" := "*"];
      headers := headers["Access-Control-Allow-Methods" := CdnMethods];
      assert headers == FileHeaders(info, svg, formatDate);
      ServedCases(info, svg, content, req, formatDate);
      var range := Header(req, "range");
      var size := if info.size.Some? then info.size.value else 0;
      if Truthy(range) && size != 0 {
        var matched := RangeOf(range.value, size);
        if matched.Some? {
          var start, end := matched.value.start, matched.value.end;
          headers := headers["Content-Range" := ContentRange(matched.value, size)];
          headers := headers["Content-Length" := IntToString(end - start + 1)];
          return Response(206, headers, Bytes(content));
        }
      }
      r := Response(200, headers, Bytes(content));
    }
  }

  // ---------------------------------------------------------------------
  // Properties of the Range parser
  // ---------------------------------------------------------------------

  /** A digit run is determined by where it stops. */
  lemma {:induction false} DigitRunIs(s: string, i: nat, n: nat)
    requires i + n <= |s|
    requires forall k :: i <= k < i + n ==> IsDigit(s[k])
    requires i + n == |s| || !IsDigit(s[i + n])
    ensures DigitRun(s, i) == n
    decreases n
  {
    if n > 0 {
      DigitRunIs(s, i + 1, n - 1);
    }
  }

  /** `GroupsAt` reports exactly the match of the pattern at `i`. */
  lemma GroupsAtIsMatch(s: string, i: nat, a: string, b: string)
    requires i <= |s|
    ensures GroupsAt(s, i) == Some((a, b)) <==> RangeMatchAt(s, i, a, b)
  {
    if RangeMatchAt(s, i, a, b) {
      forall k | i + 6 <= k < i + 6 + |a| ensures IsDigit(s[k]) {
        assert s[k] == a[k - i - 6];
      }
      DigitRunIs(s, i + 6, |a|);
      forall k | i + 7 + |a| <= k < i + 7 + |a| + |b| ensures IsDigit(s[k]) {
        assert s[k] == b[k - i - 7 - |a|];
      }
      DigitRunIs(s, i + 7 + |a|, |b|);
    }
    if GroupsAt(s, i) == Some((a, b)) {
      var n := DigitRun(s, i + 6);
      assert |a| == n;
      forall k | 0 <= k < |a| ensures IsDigit(a[k]) {
        assert a[k] == s[i + 6 + k];
      }
      forall k | 0 <= k < |b| ensures IsDigit(b[k]) {
        assert b[k] == s[i + 7 + n + k];
      }
    }
  }

  /** Some match at `i` exists exactly when `GroupsAt` finds one there. */
  lemma GroupsAtNone(s: string, i: nat)
    requires i <= |s| && GroupsAt(s, i).None?
    ensures forall a, b :: !RangeMatchAt(s, i, a, b)
  {
    forall a, b ensures !RangeMatchAt(s, i, a, b) {
      GroupsAtIsMatch(s, i, a, b);
    }
  }

  /**
   * `FirstMatch` is the leftmost match at or after `i`: its groups are
   * those of a match, and no earlier position matches; None means no
   * position matches.
   */
  lemma {:induction false} FirstMatchIsLeftmost(s: string, i: nat)
    requires i <= |s|
    ensures FirstMatch(s, i).None? ==> forall j, a, b :: i <= j ==> !RangeMatchAt(s, j, a, b)
    ensures FirstMatch(s, i).Some? ==>
      exists j :: i <= j <= |s| && RangeMatchAt(s, j, FirstMatch(s, i).value.0, FirstMatch(s, i).value.1)
        && forall j', a, b :: i <= j' < j ==> !RangeMatchAt(s, j', a, b)
    decreases |s| - i
  {
    match GroupsAt(s, i)
    case Some(g) =>
      GroupsAtIsMatch(s, i, g.0, g.1);
    case None =>
      GroupsAtNone(s, i);
      if i < |s| {
        FirstMatchIsLeftmost(s, i + 1);
        if FirstMatch(s, i + 1).Some? {
          var g := FirstMatch(s, i + 1).value;
          var j :| i + 1 <= j <= |s| && RangeMatchAt(s, j, g.0, g.1)
                   && forall j', a, b :: i + 1 <= j' < j ==> !RangeMatchAt(s, j', a, b);
          assert forall j', a, b :: i <= j' < j ==> !RangeMatchAt(s, j', a, b);
        }
      } else {
        forall j, a, b | i <= j ensures !RangeMatchAt(s, j, a, b) {
        }
      }
  }

  /** `range.match` yields the groups of the leftmost match, or null when nothing matches. */
  lemma RangeGroupsLeftmost(range: string)
    ensures RangeGroups(range).None? <==> forall j, a, b :: !RangeMatchAt(range, j, a, b)
    ensures RangeGroups(range).Some? ==>
      exists j :: RangeMatchAt(range, j, RangeGroups(range).value.0, RangeGroups(range).value.1)
        && forall j', a, b :: 0 <= j' < j ==> !RangeMatchAt(range, j', a, b)
  {
    FirstMatchIsLeftmost(range, 0);
  }

  lemma {:induction false} DecimalValueAppend(t: string, d: nat)
    requires d < 10
    ensures DecimalValue(t + [DigitChar(d)]) == DecimalValue(t) * 10 + d
  {
    assert (t + [DigitChar(d)])[..|t|] == t;
  }

  /** `parseInt` reads back what `toString` prints. */
  lemma {:induction false} DecimalValueOfNatToString(n: nat)
    ensures DecimalValue(NatToString(n)) == n
    decreases n
  {
    if n < 10 {
      assert NatToString(n) == [] + [DigitChar(n)];
      DecimalValueAppend([], n);
    } else {
      DivisionShrinks(n, 10);
      DecimalValueOfNatToString(n / 10);
      assert NatToString(n) == NatToString(n / 10) + [DigitChar(n % 10)];
      DecimalValueAppend(NatToString(n / 10), n % 10);
    }
  }

  // ---------------------------------------------------------------------
  // Properties of serveFile
  // ---------------------------------------------------------------------

  /**
   * The answer is 404 exactly when the path does not exist, which includes
   * every path `normalizePath` rejects: the traversal error is swallowed by
   * `exists`.
   */
  lemma MissingIsNotFound(fs: Fs, rootName: string, mimeLookup: string -> Option<string>, path: string,
                          req: Request, parseDate: string -> Option<int>, formatDate: nat -> string)
    ensures var r := ServeFileResponse(fs, rootName, mimeLookup, path, req, parseDate, formatDate);
      (r.status == 404 <==> !ExistsIn(fs, path))
      && (!ExistsIn(fs, path) ==> r == TextResponse(404, "Not Found"))
      && (NormalizePath(path).Err? ==> r == TextResponse(404, "Not Found"))
  {
  }

  /** An existing directory gives 400; an existing file is answered 304, 200 or 206. */
  lemma ExistingPathAnswered(fs: Fs, rootName: string, mimeLookup: string -> Option<string>, path: string,
                             req: Request, parseDate: string -> Option<int>, formatDate: nat -> string)
    requires ExistsIn(fs, path)
    ensures var r := ServeFileResponse(fs, rootName, mimeLookup, path, req, parseDate, formatDate);
      var k := AbsoluteKey(path).value;
      (fs[k].DirNode? <==> r == TextResponse(400, "Cannot serve directory"))
      && (fs[k].FileNode? ==> r.status in {200, 206, 304})
  {
  }

  /** For a path that exists, the answer is decided on the node it names. */
  lemma ExistingServed(fs: Fs, rootName: string, mimeLookup: string -> Option<string>, path: string,
                       req: Request, parseDate: string -> Option<int>, formatDate: nat -> string)
    requires AbsoluteKey(path).Ok? && AbsoluteKey(path).value in fs
    ensures var k := AbsoluteKey(path).value;
      ServeFileResponse(fs, rootName, mimeLookup, path, req, parseDate, formatDate)
      == if fs[k].DirNode? then TextResponse(400, "Cannot serve directory")
         else Answer(FileRecord(rootName, mimeLookup, path, k, fs[k]), fs[k].data, req, parseDate, formatDate)
  {
  }

  /** `Served` answers 206 with the two range headers on top of `FileHeaders`, or 200 with `FileHeaders`. */
  lemma ServedCases(info: FileInfo, svg: bool, content: seq<byte>, req: Request, formatDate: nat -> string)
    ensures var range := Header(req, "range");
      var size := if info.size.Some? then info.size.value else 0;
      var headers := FileHeaders(info, svg, formatDate);
      if Truthy(range) && size != 0 && RangeOf(range.value, size).Some? then
        var r := RangeOf(range.value, size).value;
        Served(info, svg, content, req, formatDate)
        == Response(206, headers["Content-Range" := ContentRange(r, size)]["Content-Length" := IntToString(r.end - r.start + 1)],
                    Bytes(content))
      else Served(info, svg, content, req, formatDate) == Response(200, headers, Bytes(content))
  {
  }

  /** The record the handler decides on is the one `stat` returns. */
  lemma StatRecord(fs: Fs, rootName: string, mimeLookup: string -> Option<string>, path: string)
    requires AbsoluteKey(path).Ok? && AbsoluteKey(path).value in fs
    ensures var k := AbsoluteKey(path).value;
      StatIn(fs, rootName, mimeLookup, path) == Ok(FileRecord(rootName, mimeLookup, path, k, fs[k]))
  {
  }

  /**
   * A matching `If-None-Match` gives 304 with no body whatever
   * `If-Modified-Since` says: the ETag `"<mtime>-<size>"` is consulted first.
   */
  lemma ETagMatchIsNotModified(fs: Fs, rootName: string, mimeLookup: string -> Option<string>, path: string,
                               req: Request, parseDate: string -> Option<int>, formatDate: nat -> string)
    requires AbsoluteKey(path).Ok?
    requires var k := AbsoluteKey(path).value; k in fs && fs[k].FileNode?
    requires var node := fs[AbsoluteKey(path).value];
      MatchesETag(FileETag(node.mtime, |node.data|), Header(req, "if-none-match"))
    ensures ServeFileResponse(fs, rootName, mimeLookup, path, req, parseDate, formatDate) == Response(304, map[], NoBody)
  {
    var k := AbsoluteKey(path).value;
    var info := FileRecord(rootName, mimeLookup, path, k, fs[k]);
    assert info.etag == Some(FileETag(fs[k].mtime, |fs[k].data|));
    assert FileETag(fs[k].mtime, |fs[k].data|)[0] == '"';
    assert ETagMatches(info, req);
  }

  /** `Answer` gives 304 exactly on a matching ETag or a modification time not after a parsable date. */
  lemma AnswerNotModified(info: FileInfo, content: seq<byte>, req: Request, parseDate: string -> Option<int>,
                          formatDate: nat -> string, tag: string, mtime: nat)
    requires info.etag == Some(tag) && tag != "" && info.lastModified == Some(mtime)
    ensures var r := Answer(info, content, req, parseDate, formatDate);
      var since := Header(req, "if-modified-since");
      var tagged := MatchesETag(tag, Header(req, "if-none-match"));
      (r.status == 304 <==> tagged || (Truthy(since) && parseDate(since.value).Some? && mtime <= parseDate(since.value).value))
      && (r.status == 304 ==> r == Response(304, map[], NoBody))
  {
    ServedCases(info, IsSvg(info), content, req, formatDate);
  }

  /**
   * A regular file is answered 304 exactly when its ETag matches or it was
   * not modified after a parsable `If-Modified-Since`; an unparsable date
   * never gives 304 by itself.
   */
  lemma NotModifiedExactly(fs: Fs, rootName: string, mimeLookup: string -> Option<string>, path: string,
                           req: Request, parseDate: string -> Option<int>, formatDate: nat -> string)
    requires AbsoluteKey(path).Ok?
    requires var k := AbsoluteKey(path).value; k in fs && fs[k].FileNode?
    ensures var r := ServeFileResponse(fs, rootName, mimeLookup, path, req, parseDate, formatDate);
      var node := fs[AbsoluteKey(path).value];
      var since := Header(req, "if-modified-since");
      var tagged := MatchesETag(FileETag(node.mtime, |node.data|), Header(req, "if-none-match"));
      (r.status == 304 <==> tagged || (Truthy(since) && parseDate(since.value).Some?
                                       && node.mtime <= parseDate(since.value).value))
      && (!tagged && Truthy(since) && parseDate(since.value).None? ==> r.status != 304)
      && (r.status == 304 ==> r == Response(304, map[], NoBody))
  {
    var k := AbsoluteKey(path).value;
    var info := FileRecord(rootName, mimeLookup, path, k, fs[k]);
    ExistingServed(fs, rootName, mimeLookup, path, req, parseDate, formatDate);
    var tag := FileETag(fs[k].mtime, |fs[k].data|);
    assert info.etag == Some(tag) && info.lastModified == Some(fs[k].mtime);
    assert tag[0] == '"';
    AnswerNotModified(info, fs[k].data, req, parseDate, formatDate, tag, fs[k].mtime);
  }

  /**
   * Every sent file carries its content type (forced to `image/svg+xml`
   * for `.svg`), the immutable cache policy, `Accept-Ranges`, open CORS,
   * its ETag and modification date; the whole content is the body; and
   * only an SVG gets the content security policy and `nosniff`.
   */
  lemma SentHeaders(info: FileInfo, svg: bool, content: seq<byte>, req: Request, formatDate: nat -> string, mtime: nat)
    requires info.kind == File && info.size == Some(|content|) && info.lastModified == Some(mtime)
    requires info.etag.Some? && info.etag.value != "" && info.mimeType.Some?
    ensures var r := Served(info, svg, content, req, formatDate);
      r.status in {200, 206}
      && r.body == Bytes(content)
      && r.headers["Content-Type"] == (if svg then SvgType else OrElse(info.mimeType, OctetStream))
      && r.headers["Cache-Control"] == ImmutableCache
      && r.headers["Accept-Ranges"] == "bytes"
      && r.headers["Access-Control-Allow-Origin"] == "*"
      && r.headers["Access-Control-Allow-Methods"] == CdnMethods
      && r.headers["ETag"] == info.etag.value
      && r.headers["Last-Modified"] == formatDate(mtime)
      && ("Content-Security-Policy" in r.headers <==> svg)
      && ("X-Content-Type-Options" in r.headers <==> svg)
      && (svg ==> r.headers["Content-Security-Policy"] == SvgPolicy
                           && r.headers["X-Content-Type-Options"] == "nosniff")
  {
  }

  /**
   * A `Range` header matching `bytes=(\d+)-(\d*)` on a non-empty file gives
   * 206 with `Content-Range: bytes start-end/size` and `Content-Length:
   * end-start+1` (no bounds check); any other sent file gets 200 with
   * `Content-Length` the file size.
   */
  lemma RangeAnswered(info: FileInfo, svg: bool, content: seq<byte>, req: Request, formatDate: nat -> string)
    requires info.size == Some(|content|)
    ensures var r := Served(info, svg, content, req, formatDate);
      var size := |content|;
      var range := Header(req, "range");
      var partial := Truthy(range) && size != 0 && RangeGroups(range.value).Some?;
      (r.status == 206 <==> partial)
      && (r.status == 200 <==> !partial)
      && (partial ==>
            var (a, b) := RangeGroups(range.value).value;
            var end := if b != "" then DecimalValue(b) else size - 1;
            r.headers["Content-Range"] == "bytes " + NatToString(DecimalValue(a)) + "-" + IntToString(end) + "/" + NatToString(size)
            && r.headers["Content-Length"] == IntToString(end - DecimalValue(a) + 1))
      && (!partial ==> r.headers["Content-Length"] == NatToString(size))
  {
    var range := Header(req, "range");
    if Truthy(range) && |content| != 0 && RangeGroups(range.value).Some? {
      RangePartial(info, svg, content, req, formatDate);
    } else {
      KnownLength(info, svg, formatDate);
      assert Served(info, svg, content, req, formatDate)
          == Response(200, FileHeaders(info, svg, formatDate), Bytes(content));
    }
  }

  lemma RangePartial(info: FileInfo, svg: bool, content: seq<byte>, req: Request, formatDate: nat -> string)
    requires info.size == Some(|content|)
    requires Truthy(Header(req, "range")) && |content| != 0 && RangeGroups(Header(req, "range").value).Some?
    ensures var r := Served(info, svg, content, req, formatDate);
      var size := |content|;
      var (a, b) := RangeGroups(Header(req, "range").value).value;
      var end := if b != "" then DecimalValue(b) else size - 1;
      r.status == 206
      && r.headers["Content-Range"] == "bytes " + NatToString(DecimalValue(a)) + "-" + IntToString(end) + "/" + NatToString(size)
      && r.headers["Content-Length"] == IntToString(end - DecimalValue(a) + 1)
  {
    var size := |content|;
    var g := RangeOf(Header(req, "range").value, size).value;
    var headers := FileHeaders(info, svg, formatDate);
    assert Served(info, svg, content, req, formatDate)
        == Response(206, headers["Content-Range" := ContentRange(g, size)]["Content-Length" := IntToString(g.end - g.start + 1)],
                    Bytes(content));
    RangeHeaders(headers, ContentRange(g, size), IntToString(g.end - g.start + 1));
  }

  /** The two headers a partial answer adds. */
  lemma RangeHeaders(headers: map<string, string>, contentRange: string, contentLength: string)
    ensures var h := headers["Content-Range" := contentRange]["Content-Length" := contentLength];
      h["Content-Range"] == contentRange && h["Content-Length"] == contentLength
  {
    assert "Content-Range"[8] != "Content-Length"[8];
  }

  /** A file of known size is announced with that size. */
  lemma KnownLength(info: FileInfo, svg: bool, formatDate: nat -> string)
    requires info.size.Some?
    ensures FileHeaders(info, svg, formatDate)["Content-Length"] == NatToString(info.size.value)
  {
  }

  /** A sent file is answered by `Served` on its `stat` record and its content. */
  lemma SentFile(fs: Fs, rootName: string, mimeLookup: string -> Option<string>, path: string,
                 req: Request, parseDate: string -> Option<int>, formatDate: nat -> string)
    requires AbsoluteKey(path).Ok?
    requires var k := AbsoluteKey(path).value; k in fs && fs[k].FileNode?
    ensures var r := ServeFileResponse(fs, rootName, mimeLookup, path, req, parseDate, formatDate);
      var k := AbsoluteKey(path).value;
      var info := FileRecord(rootName, mimeLookup, path, k, fs[k]);
      r.status != 304 ==>
        r == Served(info, IsSvg(info), fs[k].data, req, formatDate)
        && info.size == Some(|fs[k].data|) && info.lastModified == Some(fs[k].mtime)
        && info.etag == Some(FileETag(fs[k].mtime, |fs[k].data|)) && info.mimeType.Some?
  {
  }
}
