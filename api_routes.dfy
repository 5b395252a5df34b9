/**
 * backend/src/routes/api-routes.ts: the handlers behind `/api/list`,
 * `/api/thumbnail`, `/api/upload`, `/api/mkdir`, `/api/move`,
 * `/api/rename` and `/api/delete`.
 *
 * Each handler validates its input in a fixed order, normalises the path
 * it is given and calls the storage adapter and the thumbnail service;
 * everything either of them throws is caught and answered with 500. The
 * state-changing handlers are specified by `...Answer` functions from the
 * file system before the request to the response and the file system
 * after it; the class methods perform the same calls, in the same order,
 * on the shared `FileSystem` object.
 */
module ApiRoutes {
  import opened Base
  import opened Paths
  import opened Types
  import opened Disk
  import opened SvgSanitizer
  import opened StorageLocal
  import opened Thumbnail
  import opened Http

  /**
   * What the handlers depend on besides the file system: the configuration,
   * the storage adapter's and the thumbnail service's settings, and the
   * foreign calls `encodeURIComponent`, `file.text()` (UTF-8 decoding),
   * `Buffer.from(string)` (UTF-8 encoding) and `sanitizeSvg`.
   */
  datatype Context = Context(
    config: Config,
    rootName: string,
    mimeLookup: string -> Option<string>,
    thumbnailSize: nat,
    thumbnailQuality: nat,
    resize: (seq<byte>, nat, nat) -> Option<seq<byte>>,
    encodeUri: string -> string,
    decodeText: seq<byte> -> string,
    encodeText: string -> seq<byte>,
    sanitize: string -> Option<string>)

  function ServerError(message: string): Response {
    JsonResponse(500, ErrorJson("Internal Server Error", message))
  }

  function BadRequest(message: string): Response {
    JsonResponse(400, ErrorJson("Bad Request", message))
  }

  /** `{ success: true, path }` with the given status. */
  function SuccessPath(status: nat, path: string): Response {
    JsonResponse(status, JObj([("success", JBool(true)), ("path", JStr(path))]))
  }

  // ---------------------------------------------------------------------
  // list
  // ---------------------------------------------------------------------

  const ListFailed := ServerError("Failed to list files")

  /** `path ? normalizePath(path) : ''`: an absent or empty `path` is not normalised. */
  function ListPath(req: Request): Result<string, string> {
    var path := OrElse(Query(req, "path"), "");
    if path != "" then NormalizePath(path) else Ok("")
  }

  /** The record of one listed item with its `url` and, for an image, its `thumbnailUrl`. */
  function Enrich(item: FileInfo, baseUrl: string, encodeUri: string -> string): FileInfo {
    if item.kind == File then
      item.(url := Some(baseUrl + "/cdn/" + item.path),
            thumbnailUrl := if GetExtension(item.name) in ThumbnailExtensions
                            then Some(baseUrl + "/api/thumbnail?path=" + encodeUri(item.path))
                            else item.thumbnailUrl)
    else item
  }

  /** `items.map(...)`. */
  function EnrichAll(items: seq<FileInfo>, baseUrl: string, encodeUri: string -> string): (r: seq<FileInfo>)
    ensures |r| == |items|
  {
    seq(|items|, i requires 0 <= i < |items| => Enrich(items[i], baseUrl, encodeUri))
  }

  /** The bytes an item adds to `totalSize`: a file's size (0 when unknown), nothing for a directory. */
  function FileBytes(x: FileInfo): nat {
    if x.kind == File && x.size.Some? then x.size.value else 0
  }

  /** `filter(file).reduce((sum, item) => sum + (item.size || 0), 0)`, left to right. */
  function TotalSize(items: seq<FileInfo>): nat
    decreases |items|
  {
    if items == [] then 0 else TotalSize(items[..|items| - 1]) + FileBytes(items[|items| - 1])
  }

  /** The response of `list` for the normalised path and what `storage.list` returned or threw. */
  function ListAnswer(path: string, listed: Result<seq<FileInfo>, string>, baseUrl: string,
                      encodeUri: string -> string): Response
  {
    match listed
    case Err(_) => ListFailed
    case Ok(items) =>
      var enriched := EnrichAll(items, baseUrl, encodeUri);
      Response(200, JsonType, ListBody(ListResponse(path, enriched, TotalSize(enriched), |enriched|)))
  }

  // ---------------------------------------------------------------------
  // thumbnail
  // ---------------------------------------------------------------------

  const ThumbnailHeaders := map["Content-Type" := "image/jpeg", "Cache-Control" := "public, max-age=31536000"]

  /**
   * `Bun.file(getThumbnailPath(name))`: the bytes of the thumbnail, if a
   * file sits there. `name` is a `stat` name, which holds no `/`, so the
   * place the code joins is `ThumbnailKey(name)` (`PlacesAgreeOnPlainNames`).
   */
  function ThumbnailBody(fs: Fs, name: string): Body {
    var k := ThumbnailKey(name);
    if k in fs && fs[k].FileNode? then Bytes(fs[k].data) else NoBody
  }

  /**
   * `thumbnail(req)`. The source of the thumbnail is `join(storageRoot,
   * normalizedPath)` and its name the one `stat` reports.
   */
  function ThumbnailAnswer(fs: Fs, c: Context, req: Request, now: nat): (Response, Fs) {
    var path := Query(req, "path");
    if !Truthy(path) then (TextResponse(400, "Path required"), fs)
    else
      match NormalizePath(path.value)
      case Err(_) => (TextResponse(500, "Internal Server Error"), fs)
      case Ok(np) => ThumbnailOf(fs, c, np, now)
  }

  /** `thumbnail` once the path is normalised to `np`. */
  function ThumbnailOf(fs: Fs, c: Context, np: string, now: nat): (Response, Fs) {
    if !ExistsIn(fs, np) then (TextResponse(404, "Not Found"), fs)
    else GeneratedThumbnail(fs, c, KeyOf(np), StatName(c.rootName, AbsoluteKey(np).value), now)
  }

  /** The thumbnail of the file at `source` whose `stat` name is `name`: generated or reused, then served. */
  function GeneratedThumbnail(fs: Fs, c: Context, source: Key, name: string, now: nat): (Response, Fs) {
    var (made, fs') := GenerateStep(fs, source, name, c.thumbnailSize, c.thumbnailQuality, c.resize, now);
    if made.None? then (TextResponse(404, "Thumbnail not available"), fs')
    else (Response(200, ThumbnailHeaders, ThumbnailBody(fs', name)), fs')
  }

  // ---------------------------------------------------------------------
  // upload
  // ---------------------------------------------------------------------

  const UploadFailed := ServerError("Upload failed")
  const NoFile := BadRequest("No file provided")
  const BadExtension := BadRequest("Only JPG, PNG, and SVG files are allowed")
  const Conflict := JsonResponse(409, ErrorJson("Conflict", "File already exists. Use overwrite=true to replace."))

  function TooLarge(limit: int): Response {
    JsonResponse(413, ErrorJson("Payload Too Large", "File size exceeds limit of " + IntToString(limit) + " bytes"))
  }

  /** `{ success: true, path, url }` with 201. */
  function Uploaded(baseUrl: string, path: string): Response {
    JsonResponse(201, JObj([("success", JBool(true)), ("path", JStr(path)), ("url", JStr(baseUrl + "/cdn/" + path))]))
  }

  /** `url.searchParams.get('overwrite') === 'true'`. */
  predicate Overwrite(req: Request) {
    Query(req, "overwrite") == Some("true")
  }

  /** `normalizePath(join(pathParam, file.name))`. */
  function UploadTarget(req: Request, file: Upload): Result<string, string> {
    NormalizePath(JoinPaths([OrElse(Query(req, "path"), ""), file.name]))
  }

  /** The SVG branch once the checks have passed: validate, then write the sanitised text. */
  function UploadSvg(fs: Fs, c: Context, file: Upload, np: string, now: nat): (Response, Fs) {
    SvgOutcome(fs, c, np, ValidateAndSanitizeSvg(c.decodeText(file.data), c.sanitize), now)
  }

  /** The SVG branch once the validator has answered `validation`. */
  function SvgOutcome(fs: Fs, c: Context, np: string, validation: SvgResult, now: nat): (Response, Fs)
    requires validation.valid ==> validation.sanitized.Some?
  {
    if !validation.valid then (BadRequest(OrElse(validation.error, "Invalid SVG file")), fs)
    else
      var (written, fs1) := WriteStep(fs, np, c.encodeText(validation.sanitized.value), now);
      if written.Err? then (UploadFailed, fs1) else (Uploaded(c.config.baseUrl, np), fs1)
  }

  /** The image branch: write the bytes, then attempt a thumbnail whose outcome is ignored. */
  function UploadImage(fs: Fs, c: Context, file: Upload, np: string, now: nat): (Response, Fs) {
    var (written, fs1) := WriteStep(fs, np, file.data, now);
    if written.Err? then (UploadFailed, fs1)
    else (Uploaded(c.config.baseUrl, np),
          GenerateStep(fs1, KeyOf(np), file.name, c.thumbnailSize, c.thumbnailQuality, c.resize, now).1)
  }

  /**
   * `upload(req)`: the first failing check decides the answer. An empty
   * text value is falsy like a missing entry; a non-empty one passes
   * `!file`, has no `size` (`undefined > n` is false), and makes
   * `isAllowedExtension(file.name)` throw in `extname(undefined)`, which
   * the catch answers with 500.
   */
  function UploadAnswer(fs: Fs, c: Context, req: Request, now: nat): (Response, Fs) {
    match req.form
    case None => (UploadFailed, fs)
    case Some(NoEntry) => (NoFile, fs)
    case Some(TextField(text)) => if text == "" then (NoFile, fs) else (UploadFailed, fs)
    case Some(FilePart(file)) => UploadFile(fs, c, req, file, now)
  }

  /** The size limit (equal is allowed), then the extension. */
  function UploadFile(fs: Fs, c: Context, req: Request, file: Upload, now: nat): (Response, Fs) {
    if |file.data| > c.config.maxUploadSize then (TooLarge(c.config.maxUploadSize), fs)
    else if !IsAllowedExtension(file.name) then (BadExtension, fs)
    else UploadAllowed(fs, c, req, file, now)
  }

  /** An allowed file: its target is normalised, a traversal is a server error. */
  function UploadAllowed(fs: Fs, c: Context, req: Request, file: Upload, now: nat): (Response, Fs) {
    match UploadTarget(req, file)
    case Err(_) => (UploadFailed, fs)
    case Ok(np) => UploadTo(fs, c, Overwrite(req), GetExtension(file.name) == ".svg", file, np, now)
  }

  /**
   * `upload` once the file has passed the checks and its target `np` is
   * normalised; `svg` is whether its extension is `.svg`.
   */
  function UploadTo(fs: Fs, c: Context, overwrite: bool, svg: bool, file: Upload, np: string, now: nat): (Response, Fs) {
    if !overwrite && ExistsIn(fs, np) then (Conflict, fs)
    else if svg then UploadSvg(fs, c, file, np, now)
    else UploadImage(fs, c, file, np, now)
  }

  // ---------------------------------------------------------------------
  // mkdir, move, rename
  // ---------------------------------------------------------------------

  /** `mkdir(req)`: `{ path }` from the JSON body. */
  function MkdirAnswer(fs: Fs, req: Request, now: nat): (Response, Fs) {
    var failed := ServerError("Failed to create directory");
    match req.json
    case None => (failed, fs)
    case Some(body) =>
      match ArgOf(body, "path")
      case Missing => (BadRequest("Path required"), fs)
      case NonString(_) => (failed, fs)
      case Str(p) =>
        match NormalizePath(p)
        case Err(_) => (failed, fs)
        case Ok(np) =>
          var (made, fs1) := MkdirStep(fs, np, now);
          if made.Err? then (failed, fs1) else (SuccessPath(201, np), fs1)
  }

  function MovedBody(src: string, dst: string): Response {
    JsonResponse(200, JObj([("success", JBool(true)), ("src", JStr(src)), ("dst", JStr(dst))]))
  }

  /** `move(req)`: `{ src, dst }` from the JSON body. */
  function MoveAnswer(fs: Fs, req: Request, now: nat): (Response, Fs) {
    var failed := ServerError("Failed to move file");
    match req.json
    case None => (failed, fs)
    case Some(body) =>
      var src, dst := ArgOf(body, "src"), ArgOf(body, "dst");
      if src.Missing? || dst.Missing? then (BadRequest("Source and destination required"), fs)
      else if src.NonString? || dst.NonString? then (failed, fs)
      else
        match NormalizePath(src.s)
        case Err(_) => (failed, fs)
        case Ok(ns) =>
          match NormalizePath(dst.s)
          case Err(_) => (failed, fs)
          case Ok(nd) => MoveBetween(fs, ns, nd, now)
  }

  /** `move` once both paths are normalised. */
  function MoveBetween(fs: Fs, ns: string, nd: string, now: nat): (Response, Fs) {
    var (moved, fs1) := MoveStep(fs, ns, nd, now);
    if moved.Err? then (ServerError("Failed to move file"), fs1) else (MovedBody(ns, nd), fs1)
  }

  /** The part of a normalised path before its last `/`, or `''` when it has none. */
  function ParentOf(np: string): string {
    if '/' in np then np[..LastIndexOf(np, '/')] else ""
  }

  /**
   * `dir ? `${dir}/${newName}` : newName`; None when a non-string
   * `newName` reaches `normalizePath`, which then throws.
   */
  function RenameTarget(dir: string, newName: Arg): Option<string>
    requires !newName.Missing?
  {
    if dir != "" then Some(dir + "/" + Rendered(newName))
    else if newName.Str? then Some(newName.s)
    else None
  }

  /** `rename(req)`: `{ path, newName }` from the JSON body; the entry is moved next to itself. */
  function RenameAnswer(fs: Fs, req: Request, now: nat): (Response, Fs) {
    var failed := ServerError("Failed to rename file");
    match req.json
    case None => (failed, fs)
    case Some(body) =>
      var path, newName := ArgOf(body, "path"), ArgOf(body, "newName");
      if path.Missing? || newName.Missing? then (BadRequest("Path and newName required"), fs)
      else if path.NonString? then (failed, fs)
      else
        match NormalizePath(path.s)
        case Err(_) => (failed, fs)
        case Ok(np) => RenameAt(fs, np, newName, now)
  }

  /** `rename` once the path is normalised to `np`: the entry moves to `RenameTarget`, normalised. */
  function RenameAt(fs: Fs, np: string, newName: Arg, now: nat): (Response, Fs)
    requires !newName.Missing?
  {
    match RenameTarget(ParentOf(np), newName)
    case None => (ServerError("Failed to rename file"), fs)
    case Some(target) => RenameMove(fs, np, target, now)
  }

  /** The move `rename` makes: `np` goes to the normalised `target`. */
  function RenameMove(fs: Fs, np: string, target: string, now: nat): (Response, Fs) {
    var failed := ServerError("Failed to rename file");
    match NormalizePath(target)
    case Err(_) => (failed, fs)
    case Ok(nt) =>
      var (moved, fs1) := MoveStep(fs, np, nt, now);
      if moved.Err? then (failed, fs1) else (SuccessPath(200, nt), fs1)
  }

  // ---------------------------------------------------------------------
  // deleteFile
  // ---------------------------------------------------------------------

  /** `deleteFile(req)`: a file's thumbnail goes first, then the entry itself. */
  function DeleteAnswer(fs: Fs, c: Context, req: Request): (Response, Fs) {
    var failed := ServerError("Failed to delete file");
    var path := Query(req, "path");
    if !Truthy(path) then (BadRequest("Path required"), fs)
    else
      match NormalizePath(path.value)
      case Err(_) => (failed, fs)
      case Ok(np) => DeleteAt(fs, c, np)
  }

  /** `deleteFile` once the path is normalised to `np`. */
  function DeleteAt(fs: Fs, c: Context, np: string): (Response, Fs) {
    match StatIn(fs, c.rootName, c.mimeLookup, np)
    case Err(_) => (ServerError("Failed to delete file"), fs)
    case Ok(info) => DeleteEntry(fs, np, info.kind == File, info.name)
  }

  /** `deleteFile` of an entry `stat` found: `isFile` and `name` are what `stat` reported. */
  function DeleteEntry(fs: Fs, np: string, isFile: bool, name: string): (Response, Fs) {
    var failed := ServerError("Failed to delete file");
    var (cleared, fs1) := if isFile then DeleteThumbnailStep(fs, name) else (Ok(()), fs);
    if cleared.Err? then (failed, fs1)
    else
      var (deleted, fs2) := DeleteStep(fs1, np);
      if deleted.Err? then (failed, fs2) else (SuccessPath(200, np), fs2)
  }

  // ---------------------------------------------------------------------
  // The handlers
  // ---------------------------------------------------------------------

  class ApiRoutes {
    const storage: LocalStorageAdapter
    const thumbnails: ThumbnailService
    const config: Config
    const encodeUri: string -> string
    const decodeText: seq<byte> -> string
    const encodeText: string -> seq<byte>
    const sanitize: string -> Option<string>

    /** The storage adapter and the thumbnail service work on the same file system. */
    ghost predicate Valid()
      reads this, storage, thumbnails, storage.fsys
    {
      thumbnails.fsys == storage.fsys && storage.Valid()
    }

    function Ctx(): Context {
      Context(config, storage.rootName, storage.mimeLookup, thumbnails.thumbnailSize, thumbnails.thumbnailQuality,
              thumbnails.resize, encodeUri, decodeText, encodeText, sanitize)
    }

    constructor(storage: LocalStorageAdapter, thumbnails: ThumbnailService, config: Config, encodeUri: string -> string,
                decodeText: seq<byte> -> string, encodeText: string -> seq<byte>, sanitize: string -> Option<string>)
      requires thumbnails.fsys == storage.fsys && storage.Valid()
      ensures this.storage == storage && this.thumbnails == thumbnails && this.config == config
      ensures this.encodeUri == encodeUri && this.decodeText == decodeText
      ensures this.encodeText == encodeText && this.sanitize == sanitize
      ensures Valid()
    {
      this.storage := storage;
      this.thumbnails := thumbnails;
      this.config := config;
      this.encodeUri := encodeUri;
      this.decodeText := decodeText;
      this.encodeText := encodeText;
      this.sanitize := sanitize;
    }

    /** `GET /api/list`: reads the storage and changes nothing. */
    method List(req: Request) returns (r: Response)
      ensures ListPath(req).Err? ==> r == ListFailed
      ensures ListPath(req).Ok? ==>
        exists listed :: IsListing(storage.fsys.fs, storage.mimeLookup, ListPath(req).value, listed)
                         && r == ListAnswer(ListPath(req).value, listed, config.baseUrl, encodeUri)
    {
      var path := OrElse(Query(req, "path"), "");
      var normalizedPath := "";
      if path != "" {
        var normalized := NormalizePath(path);
        if normalized.Err? {
          return ListFailed;
        }
        normalizedPath := normalized.value;
      }
      var items := storage.List(normalizedPath);
      if items.Err? {
        return ListFailed;
      }
      var enriched := EnrichAll(items.value, config.baseUrl, encodeUri);
      var totalSize := TotalSize(enriched);
      r := Response(200, JsonType, ListBody(ListResponse(normalizedPath, enriched, totalSize, |enriched|)));
    }

    /** `GET /api/thumbnail`: may write the thumbnail it serves. */
    method Thumbnail(req: Request, now: nat) returns (r: Response)
      requires Valid()
      modifies storage.fsys
      ensures (r, storage.fsys.fs) == ThumbnailAnswer(old(storage.fsys.fs), Ctx(), req, now)
      ensures Valid()
    {
      var path := Query(req, "path");
      if !Truthy(path) {
        return TextResponse(400, "Path required");
      }
      var normalized := NormalizePath(path.value);
      if normalized.Err? {
        return TextResponse(500, "Internal Server Error");
      }
      r := ThumbnailFor(normalized.value, now);
    }

    /** The part of `thumbnail` after normalisation: look the entry up, generate, serve. */
    method ThumbnailFor(np: string, now: nat) returns (r: Response)
      requires Valid()
      modifies storage.fsys
      ensures (r, storage.fsys.fs) == ThumbnailOf(old(storage.fsys.fs), Ctx(), np, now)
      ensures Valid()
    {
      var found := storage.Exists(np);
      if !found {
        return TextResponse(404, "Not Found");
      }
      r := ThumbnailOfExisting(np, now);
    }

    /** `stat` of an existing entry, then its thumbnail. */
    method ThumbnailOfExisting(np: string, now: nat) returns (r: Response)
      requires Valid() && ExistsIn(storage.fsys.fs, np)
      modifies storage.fsys
      ensures (r, storage.fsys.fs) == ThumbnailOf(old(storage.fsys.fs), Ctx(), np, now)
      ensures Valid()
    {
      var stat := storage.Stat(np);
      var k := AbsoluteKey(np).value;
      assert stat.Ok? && stat.value.name == StatName(storage.rootName, k);
      r := ServeThumbnail(KeyOf(np), stat.value.name, now);
    }

    /** `generate(fullPath, fileInfo.name)`, then the thumbnail file as the body. */
    method ServeThumbnail(source: Key, name: string, now: nat) returns (r: Response)
      requires Valid()
      modifies storage.fsys
      ensures (r, storage.fsys.fs) == GeneratedThumbnail(old(storage.fsys.fs), Ctx(), source, name, now)
      ensures Valid()
    {
      var thumbnailFileName := thumbnails.Generate(source, name, now);
      if thumbnailFileName.None? {
        return TextResponse(404, "Thumbnail not available");
      }
      var thumbnailPath := ThumbnailKey(name);
      var body := NoBody;
      if thumbnailPath in storage.fsys.fs && storage.fsys.fs[thumbnailPath].FileNode? {
        body := Bytes(storage.fsys.fs[thumbnailPath].data);
      }
      r := Response(200, ThumbnailHeaders, body);
    }

    /** `POST /api/upload`. */
    method Upload(req: Request, now: nat) returns (r: Response)
      requires Valid()
      modifies storage.fsys
      ensures (r, storage.fsys.fs) == UploadAnswer(old(storage.fsys.fs), Ctx(), req, now)
      ensures Valid()
    {
      if req.form.None? {
        return UploadFailed;
      }
      var entry := req.form.value;
      if entry.NoEntry? || (entry.TextField? && entry.text == "") {
        return NoFile;
      }
      if entry.TextField? {
        return UploadFailed;
      }
      r := CheckFile(req, entry.file, now);
    }

    /** The size and extension checks of `upload`. */
    method CheckFile(req: Request, file: Upload, now: nat) returns (r: Response)
      requires Valid()
      modifies storage.fsys
      ensures (r, storage.fsys.fs) == UploadFile(old(storage.fsys.fs), Ctx(), req, file, now)
      ensures Valid()
    {
      if |file.data| > config.maxUploadSize {
        return TooLarge(config.maxUploadSize);
      }
      if !IsAllowedExtension(file.name) {
        return BadExtension;
      }
      r := Place(req, file, now);
    }

    /** `upload` of an allowed file: normalise `join(pathParam, file.name)`. */
    method Place(req: Request, file: Upload, now: nat) returns (r: Response)
      requires Valid()
      modifies storage.fsys
      ensures (r, storage.fsys.fs) == UploadAllowed(old(storage.fsys.fs), Ctx(), req, file, now)
      ensures Valid()
    {
      var pathParam := OrElse(Query(req, "path"), "");
      var filePath := JoinPaths([pathParam, file.name]);
      var normalized := NormalizePath(filePath);
      if normalized.Err? {
        return UploadFailed;
      }
      var overwrite := Query(req, "overwrite") == Some("true");
      var svg := GetExtension(file.name) == ".svg";
      r := Store(overwrite, svg, file, normalized.value, now);
    }

    /**
     * The part of `upload` after the checks: the overwrite guard, then the
     * SVG or the image branch.
     */
    method Store(overwrite: bool, svg: bool, file: Upload, np: string, now: nat) returns (r: Response)
      requires Valid()
      modifies storage.fsys
      ensures (r, storage.fsys.fs) == UploadTo(old(storage.fsys.fs), Ctx(), overwrite, svg, file, np, now)
      ensures Valid()
    {
      if !overwrite {
        var found := storage.Exists(np);
        if found {
          return Conflict;
        }
      }
      if svg {
        r := StoreSvg(file, np, now);
      } else {
        r := StoreImage(file, np, now);
      }
    }

    /** The SVG branch of `upload`: validate, and write only the sanitised text. */
    method StoreSvg(file: Upload, np: string, now: nat) returns (r: Response)
      requires Valid()
      modifies storage.fsys
      ensures (r, storage.fsys.fs) == UploadSvg(old(storage.fsys.fs), Ctx(), file, np, now)
      ensures Valid()
    {
      var content := decodeText(file.data);
      var validation := ValidateAndSanitizeSvg(content, sanitize);
      if !validation.valid {
        return BadRequest(OrElse(validation.error, "Invalid SVG file"));
      }
      var written := storage.Write(np, encodeText(validation.sanitized.value), now);
      if written.Err? {
        return UploadFailed;
      }
      r := Uploaded(config.baseUrl, np);
    }

    /** The image branch of `upload`: write the bytes, then attempt the thumbnail. */
    method StoreImage(file: Upload, np: string, now: nat) returns (r: Response)
      requires Valid()
      modifies storage.fsys
      ensures (r, storage.fsys.fs) == UploadImage(old(storage.fsys.fs), Ctx(), file, np, now)
      ensures Valid()
    {
      var written := storage.Write(np, file.data, now);
      if written.Err? {
        return UploadFailed;
      }
      var _ := thumbnails.Generate(KeyOf(np), file.name, now);
      r := Uploaded(config.baseUrl, np);
    }

    /** `POST /api/mkdir`. */
    method Mkdir(req: Request, now: nat) returns (r: Response)
      requires Valid()
      modifies storage.fsys
      ensures (r, storage.fsys.fs) == MkdirAnswer(old(storage.fsys.fs), req, now)
      ensures Valid()
    {
      var failed := ServerError("Failed to create directory");
      if req.json.None? {
        return failed;
      }
      var path := ArgOf(req.json.value, "path");
      if path.Missing? {
        return BadRequest("Path required");
      }
      if path.NonString? {
        return failed;
      }
      var normalized := NormalizePath(path.s);
      if normalized.Err? {
        return failed;
      }
      var made := storage.Mkdir(normalized.value, now);
      if made.Err? {
        return failed;
      }
      r := SuccessPath(201, normalized.value);
    }

    /** `POST /api/move`. */
    method Move(req: Request, now: nat) returns (r: Response)
      requires Valid()
      modifies storage.fsys
      ensures (r, storage.fsys.fs) == MoveAnswer(old(storage.fsys.fs), req, now)
      ensures Valid()
    {
      var failed := ServerError("Failed to move file");
      if req.json.None? {
        return failed;
      }
      var src, dst := ArgOf(req.json.value, "src"), ArgOf(req.json.value, "dst");
      if src.Missing? || dst.Missing? {
        return BadRequest("Source and destination required");
      }
      if src.NonString? {
        return failed;
      }
      var normalizedSrc := NormalizePath(src.s);
      if normalizedSrc.Err? || dst.NonString? {
        return failed;
      }
      var normalizedDst := NormalizePath(dst.s);
      if normalizedDst.Err? {
        return failed;
      }
      var moved := storage.Move(normalizedSrc.value, normalizedDst.value, now);
      if moved.Err? {
        return failed;
      }
      r := MovedBody(normalizedSrc.value, normalizedDst.value);
    }

    /** `POST /api/rename`. */
    method Rename(req: Request, now: nat) returns (r: Response)
      requires Valid()
      modifies storage.fsys
      ensures (r, storage.fsys.fs) == RenameAnswer(old(storage.fsys.fs), req, now)
      ensures Valid()
    {
      var failed := ServerError("Failed to rename file");
      if req.json.None? {
        return failed;
      }
      var path, newName := ArgOf(req.json.value, "path"), ArgOf(req.json.value, "newName");
      if path.Missing? || newName.Missing? {
        return BadRequest("Path and newName required");
      }
      if path.NonString? {
        return failed;
      }
      var normalized := NormalizePath(path.s);
      if normalized.Err? {
        return failed;
      }
      r := RenameEntry(normalized.value, newName, now);
    }

    /** The part of `rename` after normalisation: compute the new path and move. */
    method RenameEntry(np: string, newName: Arg, now: nat) returns (r: Response)
      requires Valid() && !newName.Missing?
      modifies storage.fsys
      ensures (r, storage.fsys.fs) == RenameAt(old(storage.fsys.fs), np, newName, now)
      ensures Valid()
    {
      var failed := ServerError("Failed to rename file");
      var dir := if '/' in np then np[..LastIndexOf(np, '/')] else "";
      var newPath: string;
      if dir != "" {
        newPath := dir + "/" + Rendered(newName);
      } else if newName.Str? {
        newPath := newName.s;
      } else {
        return failed;
      }
      var normalizedNew := NormalizePath(newPath);
      if normalizedNew.Err? {
        return failed;
      }
      var moved := storage.Move(np, normalizedNew.value, now);
      if moved.Err? {
        return failed;
      }
      r := SuccessPath(200, normalizedNew.value);
    }

    /** `DELETE /api/delete`. */
    method Delete(req: Request) returns (r: Response)
      requires Valid()
      modifies storage.fsys
      ensures (r, storage.fsys.fs) == DeleteAnswer(old(storage.fsys.fs), Ctx(), req)
      ensures Valid()
    {
      var failed := ServerError("Failed to delete file");
      var path := Query(req, "path");
      if !Truthy(path) {
        return BadRequest("Path required");
      }
      var normalized := NormalizePath(path.value);
      if normalized.Err? {
        return failed;
      }
      var np := normalized.value;
      var stat := storage.Stat(np);
      if stat.Err? {
        return failed;
      }
      if stat.value.kind == File {
        var cleared := thumbnails.DeleteThumbnail(stat.value.name);
        if cleared.Err? {
          return failed;
        }
      }
      var deleted := storage.Delete(np);
      if deleted.Err? {
        return failed;
      }
      r := SuccessPath(200, np);
    }
  }

  // ---------------------------------------------------------------------
  // Properties of list
  // ---------------------------------------------------------------------

  /** An absent or empty `path` lists the root as `''` without normalising; any other is normalised. */
  lemma ListPathOfQuery(req: Request)
    ensures !Truthy(Query(req, "path")) ==> ListPath(req) == Ok("")
    ensures Truthy(Query(req, "path")) ==> ListPath(req) == NormalizePath(Query(req, "path").value)
  {
  }

  /**
   * A record as the storage lists it, enriched: a file gets its download URL
   * and, exactly when it is a JPEG or PNG, a thumbnail URL; a directory gets
   * neither; every other field is kept.
   */
  lemma EnrichListed(item: FileInfo, baseUrl: string, encodeUri: string -> string)
    requires item.url.None? && item.thumbnailUrl.None?
    ensures var e := Enrich(item, baseUrl, encodeUri);
      e.(url := None, thumbnailUrl := None) == item
      && (e.url.Some? <==> item.kind == File)
      && (item.kind == File ==> e.url == Some(baseUrl + "/cdn/" + item.path))
      && (e.thumbnailUrl.Some? <==> item.kind == File && Eligible(item.name))
      && (e.thumbnailUrl.Some? ==> e.thumbnailUrl == Some(baseUrl + "/api/thumbnail?path=" + encodeUri(item.path)))
  {
  }

  /** The storage's records carry no URLs, so `EnrichListed` applies to each of them. */
  lemma ListedHasNoUrls(fs: Fs, mimeLookup: string -> Option<string>, path: string,
                        r: Result<seq<FileInfo>, string>, x: FileInfo)
    requires IsListing(fs, mimeLookup, path, r) && r.Ok? && x in r.value
    ensures x.url.None? && x.thumbnailUrl.None?
  {
    ListingMembers(fs, mimeLookup, path, r);
    var dir := ListKey(path).value;
    assert Listed(fs, dir, path, mimeLookup, x);
    var name :| dir + [name] in fs && !Hidden(name) && x == ListItem(fs, dir, path, name, mimeLookup);
    InfoHasNoUrls(name, JoinPaths([path, name]), fs[dir + [name]], mimeLookup, GetExtension(name) in ListedETagExtensions);
  }

  lemma InfoHasNoUrls(name: string, path: string, node: Node, mimeLookup: string -> Option<string>, withETag: bool)
    ensures var x := Info(name, path, node, mimeLookup, withETag);
      x.url.None? && x.thumbnailUrl.None?
  {
  }

  /** The files among `items`, in order. */
  function Files(items: seq<FileInfo>): (r: seq<FileInfo>)
    ensures forall x :: x in r <==> x in items && x.kind == File
    decreases |items|
  {
    if items == [] then []
    else (if items[0].kind == File then [items[0]] else []) + Files(items[1..])
  }

  /** `reduce((sum, item) => sum + (item.size || 0), 0)`, summed from the front. */
  function SizeSum(items: seq<FileInfo>): nat
    decreases |items|
  {
    if items == [] then 0
    else (if items[0].size.Some? then items[0].size.value else 0) + SizeSum(items[1..])
  }

  lemma {:induction false} TotalSizeAppend(a: seq<FileInfo>, b: seq<FileInfo>)
    ensures TotalSize(a + b) == TotalSize(a) + TotalSize(b)
    decreases |b|
  {
    if b != [] {
      var init := b[..|b| - 1];
      assert (a + b)[..|a + b| - 1] == a + init;
      TotalSizeAppend(a, init);
    } else {
      assert a + b == a;
    }
  }

  /** `totalSize` is the sum of the sizes of the files only, a missing size counting 0. */
  lemma {:induction false} TotalSizeIsSumOfFiles(items: seq<FileInfo>)
    ensures TotalSize(items) == SizeSum(Files(items))
    decreases |items|
  {
    if items != [] {
      var x, rest := items[0], items[1..];
      assert items == [x] + rest;
      TotalSizeAppend([x], rest);
      assert TotalSize([x]) == FileBytes(x) by {
        assert [x][..0] == [];
      }
      TotalSizeIsSumOfFiles(rest);
      if x.kind == File {
        var f := [x] + Files(rest);
        assert Files(items) == f;
        assert f[0] == x && f[1..] == Files(rest);
      } else {
        assert Files(items) == [] + Files(rest) == Files(rest);
      }
    }
  }

  /** Enrichment adds URLs only, so the total is the total of the storage's records. */
  lemma {:induction false} EnrichKeepsTotal(items: seq<FileInfo>, baseUrl: string, encodeUri: string -> string)
    ensures TotalSize(EnrichAll(items, baseUrl, encodeUri)) == TotalSize(items)
    decreases |items|
  {
    if items != [] {
      var init := items[..|items| - 1];
      var e := EnrichAll(items, baseUrl, encodeUri);
      assert e[..|e| - 1] == EnrichAll(init, baseUrl, encodeUri);
      EnrichKeepsTotal(init, baseUrl, encodeUri);
    }
  }

  /**
   * `list` answers 500 on a storage error; otherwise 200 with the records
   * in the storage's order, each enriched, `totalCount` counting every item
   * (directories included) and `totalSize` the sizes of the files.
   */
  lemma ListAnswerShape(path: string, listed: Result<seq<FileInfo>, string>, baseUrl: string,
                        encodeUri: string -> string)
    ensures listed.Err? ==> ListAnswer(path, listed, baseUrl, encodeUri).status == 500
    ensures listed.Ok? ==>
      var r := ListAnswer(path, listed, baseUrl, encodeUri);
      r.status == 200 && r.headers == JsonType && r.body.ListBody?
      && r.body.listing.path == path
      && |r.body.listing.items| == |listed.value| == r.body.listing.totalCount
      && (forall i :: 0 <= i < |listed.value| ==> r.body.listing.items[i] == Enrich(listed.value[i], baseUrl, encodeUri))
      && r.body.listing.totalSize == SizeSum(Files(listed.value))
  {
    if listed.Ok? {
      EnrichKeepsTotal(listed.value, baseUrl, encodeUri);
      TotalSizeIsSumOfFiles(listed.value);
    }
  }

  // ---------------------------------------------------------------------
  // Properties of thumbnail
  // ---------------------------------------------------------------------

  /** The checks of `thumbnail` before any generation: each failure changes nothing. */
  lemma ThumbnailRejections(fs: Fs, c: Context, req: Request, now: nat)
    ensures var (r, after) := ThumbnailAnswer(fs, c, req, now); var path := Query(req, "path");
      (!Truthy(path) ==> r == TextResponse(400, "Path required") && after == fs)
      && (Truthy(path) && NormalizePath(path.value).Err? ==> r.status == 500 && after == fs)
      && (Truthy(path) && NormalizePath(path.value).Ok? && !ExistsIn(fs, NormalizePath(path.value).value) ==>
            r == TextResponse(404, "Not Found") && after == fs)
  {
  }

  /**
   * A served thumbnail: 200 with the JPEG headers exactly when `generate`
   * gave a name, which only a JPEG or PNG gets; the body is the thumbnail
   * file. Otherwise 404 and nothing changes. `name` is the name `stat`
   * reports, a base name, so `generate` and `getThumbnailPath` agree on
   * where the thumbnail is.
   */
  lemma GeneratedThumbnailServed(fs: Fs, c: Context, source: Key, name: string, now: nat)
    requires '/' !in name
    ensures var (r, after) := GeneratedThumbnail(fs, c, source, name, now);
      var made := GenerateStep(fs, source, name, c.thumbnailSize, c.thumbnailQuality, c.resize, now);
      var k := ThumbnailKey(name);
      (r.status == 200 <==> made.0.Some?)
      && (r.status == 200 ==>
            r.headers == ThumbnailHeaders && Eligible(name) && k in after
            && (after[k].FileNode? ==> r.body == Bytes(after[k].data)))
      && (r.status != 200 ==> r == TextResponse(404, "Thumbnail not available") && after == fs)
  {
    PlacesAgreeOnPlainNames(name);
    GenerateWritesThumbnailOnly(fs, source, name, c.thumbnailSize, c.thumbnailQuality, c.resize, now, now);
  }

  // ---------------------------------------------------------------------
  // Properties of upload
  // ---------------------------------------------------------------------

  /**
   * The checks of `upload` in order, the first failure deciding and none
   * changing anything: a missing or empty `file` entry (400), a non-empty
   * text value in its place (500), a size above the limit (413;
   * equal passes), an extension other than JPG, PNG and SVG (400), a
   * traversal (500), an existing target without `overwrite=true` (409).
   */
  lemma UploadChecksInOrder(fs: Fs, c: Context, req: Request, now: nat)
    ensures req.form.None? ==> UploadAnswer(fs, c, req, now) == (UploadFailed, fs)
    ensures req.form == Some(NoEntry) || req.form == Some(TextField("")) ==>
      UploadAnswer(fs, c, req, now) == (NoFile, fs) && NoFile.status == 400
    ensures req.form.Some? && req.form.value.TextField? && req.form.value.text != "" ==>
      UploadAnswer(fs, c, req, now) == (UploadFailed, fs) && UploadFailed.status == 500
    ensures req.form.Some? && req.form.value.FilePart? ==>
      var file := req.form.value.file;
      var (r, after) := UploadAnswer(fs, c, req, now);
      (|file.data| > c.config.maxUploadSize ==> r.status == 413 && after == fs)
      && (|file.data| <= c.config.maxUploadSize ==>
            (!IsAllowedExtension(file.name) ==> r == BadExtension && r.status == 400 && after == fs)
            && (IsAllowedExtension(file.name) ==> (r, after) == UploadAllowed(fs, c, req, file, now)))
  {
  }

  /** An allowed file: a traversal is 500, an existing target without overwrite is 409; neither writes. */
  lemma UploadTargetChecks(fs: Fs, c: Context, req: Request, file: Upload, now: nat)
    ensures UploadTarget(req, file).Err? ==> UploadAllowed(fs, c, req, file, now) == (UploadFailed, fs)
    ensures UploadTarget(req, file).Ok? ==>
      var np := UploadTarget(req, file).value;
      UploadAllowed(fs, c, req, file, now) == UploadTo(fs, c, Overwrite(req), GetExtension(file.name) == ".svg", file, np, now)
    ensures forall overwrite: bool, svg: bool, np: string :: !overwrite && ExistsIn(fs, np) ==>
      UploadTo(fs, c, overwrite, svg, file, np, now) == (Conflict, fs) && Conflict.status == 409
  {
  }

  /**
   * An SVG the validator rejects gives 400 with the validator's error and
   * writes nothing; an accepted one is written as its sanitised text and
   * nothing else (no thumbnail is attempted), and reads back as that text.
   * `v` is any answer of the validator, which reports an error exactly
   * when it gives no sanitised text.
   */
  lemma SvgOutcomeWritesSanitized(fs: Fs, c: Context, np: string, v: SvgResult, now: nat)
    requires WellFormed(fs)
    requires (v.valid <==> v.sanitized.Some?) && (v.valid <==> v.error.None?) && (!v.valid ==> v.error.value != "")
    ensures var (r, after) := SvgOutcome(fs, c, np, v, now);
      (!v.valid ==> r == BadRequest(v.error.value) && r.status == 400 && after == fs)
      && (v.valid ==> after == WriteStep(fs, np, c.encodeText(v.sanitized.value), now).1)
      && (v.valid ==> (r.status == 201 <==> WriteStep(fs, np, c.encodeText(v.sanitized.value), now).0.Ok?))
      && (r.status == 201 ==> r == Uploaded(c.config.baseUrl, np) && ReadIn(after, np) == Ok(c.encodeText(v.sanitized.value)))
  {
    if !v.valid {
      assert OrElse(v.error, "Invalid SVG file") == v.error.value;
    } else {
      var data := c.encodeText(v.sanitized.value);
      var (written, fs1) := WriteStep(fs, np, data, now);
      if written.Ok? {
        WriteThenRead(fs, np, data, now);
        assert SvgOutcome(fs, c, np, v, now) == (Uploaded(c.config.baseUrl, np), fs1);
      } else {
        assert SvgOutcome(fs, c, np, v, now) == (UploadFailed, fs1);
      }
    }
  }

  /**
   * A JPEG or PNG upload writes the bytes, then attempts a thumbnail whose
   * outcome the 201 answer does not depend on; the file reads back as the
   * uploaded bytes, since `generate` never replaces an existing entry.
   */
  lemma ImageUploadWritesThenThumbnails(fs: Fs, c: Context, file: Upload, np: string, now: nat)
    requires WellFormed(fs)
    ensures var (written, fs1) := WriteStep(fs, np, file.data, now);
      var (r, after) := UploadImage(fs, c, file, np, now);
      (written.Err? ==> r == UploadFailed && after == fs1)
      && (written.Ok? ==>
            r == Uploaded(c.config.baseUrl, np)
            && after == GenerateStep(fs1, KeyOf(np), file.name, c.thumbnailSize, c.thumbnailQuality, c.resize, now).1
            && ReadIn(after, np) == Ok(file.data))
  {
    var (written, fs1) := WriteStep(fs, np, file.data, now);
    if written.Ok? {
      WriteThenRead(fs, np, file.data, now);
      GenerateWritesThumbnailOnly(fs1, KeyOf(np), file.name, c.thumbnailSize, c.thumbnailQuality, c.resize, now, now);
    }
  }

  /** The answer to an image upload is the same whatever the image pipeline does. */
  lemma ImageAnswerIgnoresThumbnail(fs: Fs, c: Context, file: Upload, np: string, now: nat,
                                    resize: (seq<byte>, nat, nat) -> Option<seq<byte>>)
    ensures UploadImage(fs, c, file, np, now).0 == UploadImage(fs, c.(resize := resize), file, np, now).0
  {
  }

  // ---------------------------------------------------------------------
  // Properties of mkdir, move and rename
  // ---------------------------------------------------------------------

  /**
   * `mkdir`: no usable `path` is 400, a non-string or a traversal is 500,
   * and none of them changes anything; on 201 the directory exists and
   * every entry there was is kept.
   */
  lemma MkdirOutcomes(fs: Fs, req: Request, now: nat)
    requires WellFormed(fs)
    ensures var (r, after) := MkdirAnswer(fs, req, now);
      (r.status == 400 <==> req.json.Some? && ArgOf(req.json.value, "path").Missing?)
      && (r.status == 400 ==> r == BadRequest("Path required") && after == fs)
      && (r.status == 201 || r.status == 400 || r.status == 500)
      && (req.json.None? || ArgOf(req.json.value, "path").NonString? ==> r.status == 500 && after == fs)
      && (req.json.Some? && ArgOf(req.json.value, "path").Str? && NormalizePath(ArgOf(req.json.value, "path").s).Err? ==>
            r.status == 500 && after == fs)
  {
    match req.json
    case None =>
    case Some(body) =>
      match ArgOf(body, "path")
      case Missing =>
      case NonString(_) =>
      case Str(p) =>
        match NormalizePath(p)
        case Err(_) =>
        case Ok(np) =>
          var (made, fs1) := MkdirStep(fs, np, now);
          assert MkdirAnswer(fs, req, now) == if made.Err? then (ServerError("Failed to create directory"), fs1)
                                              else (SuccessPath(201, np), fs1);
  }

  /** `mkdir` of a string path that normalises. */
  lemma MkdirCreates(fs: Fs, req: Request, now: nat, p: string)
    requires WellFormed(fs)
    requires req.json.Some? && ArgOf(req.json.value, "path") == Str(p) && NormalizePath(p).Ok?
    ensures var (r, after) := MkdirAnswer(fs, req, now); var np := NormalizePath(p).value;
      (r.status == 201 <==> MkdirStep(fs, np, now).0.Ok?)
      && (r.status == 201 ==>
            r == SuccessPath(201, np) && AbsoluteKey(np).value in after && after[AbsoluteKey(np).value].DirNode?
            && (forall j :: j in fs ==> j in after && after[j] == fs[j]))
  {
    var np := NormalizePath(p).value;
    var (made, fs1) := MkdirStep(fs, np, now);
    assert MkdirAnswer(fs, req, now) == if made.Err? then (ServerError("Failed to create directory"), fs1)
                                        else (SuccessPath(201, np), fs1);
    if made.Ok? {
      MkdirMakesDirectory(fs, np, now);
      var k := AbsoluteKey(np).value;
      assert k[..|k|] == k;
    }
  }

  /** `move` of two string paths: a traversal in either is 500 and changes nothing. */
  lemma MoveOf(fs: Fs, req: Request, now: nat, src: string, dst: string)
    requires req.json.Some? && ArgOf(req.json.value, "src") == Str(src) && ArgOf(req.json.value, "dst") == Str(dst)
    ensures NormalizePath(src).Err? || NormalizePath(dst).Err? ==>
      MoveAnswer(fs, req, now) == (ServerError("Failed to move file"), fs)
    ensures NormalizePath(src).Ok? && NormalizePath(dst).Ok? ==>
      MoveAnswer(fs, req, now) == MoveBetween(fs, NormalizePath(src).value, NormalizePath(dst).value, now)
  {
  }

  /**
   * The move itself: a source that does not exist is 500 (not 404) and
   * changes nothing; on 200 the answer names both paths and the entry has
   * moved to its new place.
   */
  lemma MoveBetweenOutcomes(fs: Fs, ns: string, nd: string, now: nat)
    requires WellFormed(fs)
    ensures var (r, after) := MoveBetween(fs, ns, nd, now);
      (!ExistsIn(fs, ns) ==> r == ServerError("Failed to move file") && after == fs)
      && (r.status == 200 <==> MoveStep(fs, ns, nd, now).0.Ok?)
      && (r.status == 200 ==> r == MovedBody(ns, nd))
      && (r.status == 200 && AbsoluteKey(ns).value != AbsoluteKey(nd).value ==>
            !ExistsIn(after, ns) && ExistsIn(after, nd)
            && after[AbsoluteKey(nd).value] == fs[AbsoluteKey(ns).value])
  {
    if AbsoluteKey(ns).Ok? && AbsoluteKey(nd).Ok? && !ExistsIn(fs, ns) {
      MoveMissingSource(fs, ns, nd, now);
    }
    if MoveStep(fs, ns, nd, now).0.Ok? && AbsoluteKey(ns).value != AbsoluteKey(nd).value {
      MoveRelocates(fs, ns, nd, now);
    }
  }

  /** The parent of `dir/base` is `dir`; a path without `/` has the parent `''`. */
  lemma ParentOfChild(dir: string, base: string)
    requires '/' !in base
    ensures ParentOf(dir + "/" + base) == dir
    ensures ParentOf(base) == ""
  {
    var p := dir + "/" + base;
    assert p[|dir|] == '/';
    forall j | |dir| < j < |p| ensures p[j] != '/' {
      assert p[j] == base[j - |dir| - 1];
    }
    LastIndexOfAt(p, '/', |dir|);
    assert p[..|dir|] == dir;
  }

  /**
   * `rename` of `dir/base` to `newName` moves the entry to the
   * normalisation of `dir/newName`. That target is in `dir` only when
   * `newName` is a plain name: one holding `/` or `..` can move the entry
   * elsewhere (`a/b/f.png` renamed to `../f.png` becomes `a/f.png`). At the
   * top level the target is `newName` itself, and a non-string `newName`
   * fails there with 500.
   */
  lemma RenameTargetIsParentJoin(fs: Fs, dir: string, base: string, newName: Arg, now: nat)
    requires '/' !in base && dir != "" && !newName.Missing?
    ensures RenameAt(fs, dir + "/" + base, newName, now) == RenameMove(fs, dir + "/" + base, dir + "/" + Rendered(newName), now)
    ensures newName.Str? ==> RenameAt(fs, base, newName, now) == RenameMove(fs, base, newName.s, now)
    ensures newName.NonString? ==> RenameAt(fs, base, newName, now) == (ServerError("Failed to rename file"), fs)
  {
    ParentOfChild(dir, base);
  }

  /**
   * The move `rename` makes: a traversal or a source that does not exist is
   * 500 and changes nothing; otherwise the answer is 200 with the new path
   * exactly when the move succeeds.
   */
  lemma RenameMoveOutcomes(fs: Fs, np: string, target: string, now: nat)
    ensures var (r, after) := RenameMove(fs, np, target, now);
      (NormalizePath(target).Err? ==> r.status == 500 && after == fs)
      && (!ExistsIn(fs, np) ==> r == ServerError("Failed to rename file") && after == fs)
      && (NormalizePath(target).Ok? ==>
            var nt := NormalizePath(target).value;
            (r.status == 200 <==> MoveStep(fs, np, nt, now).0.Ok?)
            && after == MoveStep(fs, np, nt, now).1
            && (r.status == 200 ==> r == SuccessPath(200, nt)))
  {
    if NormalizePath(target).Ok? {
      var nt := NormalizePath(target).value;
      if AbsoluteKey(np).Ok? && AbsoluteKey(nt).Ok? && !ExistsIn(fs, np) {
        MoveMissingSource(fs, np, nt, now);
      }
    }
  }

  // ---------------------------------------------------------------------
  // Properties of deleteFile
  // ---------------------------------------------------------------------

  /** The checks of `deleteFile` before the entry is looked up. */
  lemma DeleteChecks(fs: Fs, c: Context, req: Request)
    ensures var (r, after) := DeleteAnswer(fs, c, req); var path := Query(req, "path");
      (!Truthy(path) ==> r == BadRequest("Path required") && after == fs)
      && (Truthy(path) && NormalizePath(path.value).Err? ==> r.status == 500 && after == fs)
      && (Truthy(path) && NormalizePath(path.value).Ok? ==> (r, after) == DeleteAt(fs, c, NormalizePath(path.value).value))
  {
  }

  /**
   * A thumbnail's name is longer than the name it is made for, so it never
   * is the file itself; `rootName`, a base name, holds no `/`, so the code's
   * place for the thumbnail of any `stat` name is the corrected key.
   */
  lemma ThumbnailIsNotTheFile(k: Key, rootName: string)
    requires forall i :: 0 <= i < |k| ==> Plain(k[i])
    ensures ThumbnailKey(StatName(rootName, k)) != k
    ensures k != [] || '/' !in rootName ==>
      JoinedThumbnailPlace(StatName(rootName, k)) == InStorage(ThumbnailKey(StatName(rootName, k)))
  {
    if k != [] {
      assert Plain(k[|k| - 1]);
      PlacesAgreeOnPlainNames(k[|k| - 1]);
    } else if '/' !in rootName {
      PlacesAgreeOnPlainNames(rootName);
    }
    if |k| == 2 {
      var name := k[1];
      assert Plain(name);
      BaseNameOfPlainName(name);
      assert |ThumbnailKey(name)[1]| > |name|;
    }
  }

  /** `deleteFile` of an entry that does not exist is 500 and changes nothing. */
  lemma DeleteMissing(fs: Fs, c: Context, np: string)
    requires !ExistsIn(fs, np)
    ensures DeleteAt(fs, c, np) == (ServerError("Failed to delete file"), fs)
  {
    StatIffExists(fs, c.rootName, c.mimeLookup, np);
  }

  /** `stat` of an existing entry reports its kind and its name. */
  lemma DeleteExisting(fs: Fs, c: Context, np: string)
    requires ExistsIn(fs, np)
    ensures var k := AbsoluteKey(np).value;
      DeleteAt(fs, c, np) == DeleteEntry(fs, np, fs[k].FileNode?, StatName(c.rootName, k))
  {
  }

  /** A directory is removed with everything inside it; no thumbnail is looked at. */
  lemma DeleteDirectory(fs: Fs, np: string, name: string)
    requires WellFormed(fs) && ExistsIn(fs, np)
    ensures DeleteEntry(fs, np, false, name) == (SuccessPath(200, np), DeleteStep(fs, np).1)
    ensures DeleteStep(fs, np).1 == RemoveTree(fs, AbsoluteKey(np).value)
  {
    DeleteRemovesSubtree(fs, np);
  }

  /** A file's thumbnail is deleted first: when that fails, the file stays and the answer is 500. */
  lemma DeleteBlockedByThumbnail(fs: Fs, np: string, name: string)
    requires DeleteThumbnailStep(fs, name).0.Err?
    ensures DeleteEntry(fs, np, true, name) == (ServerError("Failed to delete file"), fs)
  {
  }

  /**
   * Once the thumbnail is cleared the file is deleted: the answer is 200
   * and neither the file nor its thumbnail is left. `rootName` is the base
   * name of the storage root, which `stat` reports for the root; being a
   * base name it holds no `/`.
   */
  lemma DeleteFileAndThumbnail(fs: Fs, rootName: string, np: string)
    requires WellFormed(fs) && ExistsIn(fs, np) && '/' !in rootName
    requires DeleteThumbnailStep(fs, StatName(rootName, AbsoluteKey(np).value)).0.Ok?
    ensures var name := StatName(rootName, AbsoluteKey(np).value);
      var fs1 := DeleteThumbnailStep(fs, name).1;
      var after := DeleteStep(fs1, np).1;
      DeleteEntry(fs, np, true, name) == (SuccessPath(200, np), after)
      && !ExistsIn(after, np) && ThumbnailKey(name) !in after && !ThumbnailPresent(after, name)
  {
    var k := AbsoluteKey(np).value;
    var name := StatName(rootName, k);
    var fs1 := DeleteThumbnailStep(fs, name).1;
    ThumbnailClearedKeepsFile(fs, rootName, np);
    DeleteClearedEntry(fs, np, name);
    DeleteLeavesNeither(fs1, np, ThumbnailKey(name));
    NoThumbnailAtKey(DeleteStep(fs1, np).1, name);
  }

  lemma NoThumbnailAtKey(fs: Fs, name: string)
    requires '/' !in name && ThumbnailKey(name) !in fs
    ensures !ThumbnailPresent(fs, name)
  {
    PlacesAgreeOnPlainNames(name);
  }

  /** After `delete(np)` neither `np` nor an entry that was already absent is there. */
  lemma DeleteLeavesNeither(fs: Fs, np: string, gone: Key)
    requires WellFormed(fs) && gone !in fs
    ensures !ExistsIn(DeleteStep(fs, np).1, np) && gone !in DeleteStep(fs, np).1
  {
    DeleteRemovesSubtree(fs, np);
    if AbsoluteKey(np).Ok? {
      var k := AbsoluteKey(np).value;
      assert IsPrefix(k, k);
    }
  }

  lemma DeleteClearedEntry(fs: Fs, np: string, name: string)
    requires DeleteThumbnailStep(fs, name).0.Ok? && ExistsIn(DeleteThumbnailStep(fs, name).1, np)
    ensures DeleteEntry(fs, np, true, name) == (SuccessPath(200, np), DeleteStep(DeleteThumbnailStep(fs, name).1, np).1)
  {
  }

  /** Clearing a file's thumbnail keeps the file system well formed and leaves the file. */
  lemma ThumbnailClearedKeepsFile(fs: Fs, rootName: string, np: string)
    requires WellFormed(fs) && ExistsIn(fs, np) && '/' !in rootName
    requires DeleteThumbnailStep(fs, StatName(rootName, AbsoluteKey(np).value)).0.Ok?
    ensures var k := AbsoluteKey(np).value;
      var fs1 := DeleteThumbnailStep(fs, StatName(rootName, k)).1;
      WellFormed(fs1) && ExistsIn(fs1, np) && ThumbnailKey(StatName(rootName, k)) !in fs1
      && '/' !in StatName(rootName, k)
  {
    var k := AbsoluteKey(np).value;
    var name := StatName(rootName, k);
    AbsoluteKeyIsPlain(np);
    ThumbnailIsNotTheFile(k, rootName);
    assert '/' !in name;
    PresentAtKeyOfPlainName(fs, name);
    var tk := ThumbnailKey(name);
    if tk in fs {
      UnlinkKeepsWellFormed(fs, tk);
    }
  }
}
