# simple-cdn, modelled in Dafny

simple-cdn is a small self-hosted CDN for images. One Bun server does three things:

- It serves the files under a storage root at `/cdn/<path>`, with cache headers, ETags, `If-None-Match` and `If-Modified-Since` revalidation, and a simplified `Range` answer.
- It gives an admin a JSON API: list, thumbnail, upload, mkdir, move, rename and delete.
- It guards the write operations with a session cookie, a read-only switch and a per-client rate limiter.

A React front end shows the folders with a breadcrumb trail and uploads images through a drop zone.

This project models the server's request-handling core and two front-end helpers, one Dafny module per source file:

| module | source file |
|---|---|
| `Paths` | `backend/src/utils/path.ts` |
| `ETag` | `backend/src/utils/etag.ts` |
| `RateLimit` | `backend/src/middleware/rate-limit.ts` |
| `Auth` | `backend/src/services/auth.ts` |
| `SvgSanitizer` | `backend/src/services/svg-sanitizer.ts` |
| `StorageLocal` | `backend/src/services/storage-local.ts` |
| `Thumbnail` | `backend/src/services/thumbnail.ts` |
| `ApiRoutes` | `backend/src/routes/api-routes.ts` |
| `AuthRoutes` | `backend/src/routes/auth-routes.ts` |
| `CdnRoutes` | `backend/src/routes/cdn-routes.ts` |
| `Server` | `backend/src/server.ts` |
| `Breadcrumb` | `frontend/src/components/Breadcrumb.tsx` |
| `UploadZone` | `frontend/src/components/UploadZone.tsx` |

Four support modules sit underneath:

- `Base`: Option and Result, bytes, and the string functions of JavaScript the code calls (`split`, `join`, `trim`, ASCII `toLowerCase`, `lastIndexOf`, radix `toString`).
- `Http`: requests, responses and JSON bodies.
- `Types`: `Config`, `FileInfo` and `Session`, from `backend/src/types.ts`.
- `Disk`: the file system under the storage root. It is a map from segment sequences (the root is `[]`) to files (bytes and a modification time) and directories, with `mkdir -p`, whole-buffer writes, `unlink`, `rm -rf` and `rename`.

The form follows the code:

- **Pure helpers** are functions, with lemmas about them: path normalisation, extensions, ETags, the SVG checks, the breadcrumb segments and the client-side file check.
- **Objects that update state in place** are classes:
  - the rate limiter's map;
  - the session store;
  - the file system that the storage adapter and the thumbnail service share;
  - the server's metrics counters;
  - the upload zone's alert and upload log.

  Each method is specified against a function from the old state to the new one, such as `Step`, `Lookup`, `WriteStep`, `UploadAnswer` or `Handle`. The lemmas about those functions state what the code promises.
- **Loops the code has** stay loops:
  - the rate limiter's and the session store's sweeps;
  - the loop in `list`;
  - the loop in `validateFiles`.

Some behaviour is modelled exactly as the code has it, because the model follows the code:

- **Paths are rejected by substring.** `normalizePath` refuses any result that contains `..`, so a file name such as `a..b.png` is refused too.
- **`delete` of `.` or `/` removes the whole storage root.**
- **`move` of an absent source is a 500, not a 404.**
- **The size limit is inclusive.** An upload of exactly `maxUploadSize` bytes passes.
- **Sessions keep a sliding window of 24 hours.** The comparison is strict: a session exactly 24 hours idle is still valid.
- **The cookie pattern is unanchored.** `/session_id=([^;]+)/` also matches inside another cookie's name, and takes the first such match.
- **The event-handler check is not anchored to an attribute name.** `/on\w+\s*=/` also flags a harmless `font=`.
- **A `Range` request gets status 206 with the range headers, but the whole file as the body.**
- **Refusals skip the request id.** The 403, 401 and 429 refusals, the preflight, `/healthz` and `/metrics` return before `X-Request-ID` is set. Only answers that reach the end of `handleRequest` carry it.
- **The client's file check differs from the server's:**
  - The client takes a file whose MIME type is an image type, whatever its name. The server then refuses a `.txt` file sent as `image/png`.
  - The client takes the text after the last `.`, so a name without a dot, such as `PNG`, counts as having the extension `.png`.

## Model

| member | source | states |
|---|---|---|
| Paths.NormalizePathHasNoDotDot | backend/src/utils/path.ts:13-16 | a path `normalizePath` accepts never contains `..` |
| Paths.NormalizePathIsCanonical | backend/src/utils/path.ts:6-22 | for input without backslashes, an accepted result is `.` or plain segments joined by single `/` (no empty, `.` or `..` segment, no outer slash), and equals `path.normalize` of the input with its outer slashes stripped |
| Paths.NormalizePathIdempotent | backend/src/utils/path.ts:6-22 | normalising an accepted, backslash-free path again gives the same path back |
| Paths.NormalizeDot | backend/src/utils/path.ts:11 | the root `.` is accepted unchanged |
| Paths.NormalizeAllSlashes | backend/src/utils/path.ts:8-11 | an empty or all-slash path denotes the root `.` |
| Paths.AcceptedWithoutDots | backend/src/utils/path.ts:14-19 | a path that normalises to a string without `.` is accepted, with its backslashes turned into `/` |
| Paths.RejectedWithDots | backend/src/utils/path.ts:14-16 | a path whose normalisation has `..` anywhere is rejected with the traversal error |
| Paths.SinglePlainSegment | backend/src/utils/path.ts:8-11 | a single segment without `/` that is not `.` or `..` survives stripping and normalisation unchanged |
| Paths.CollapseSnoc | backend/src/utils/path.ts:11 | normalisation consumes segments left to right: `..` pops, `.` and empty segments vanish |
| Paths.NormalizeOuterSlashes | backend/tests/path.test.ts:7 | `/foo/bar/` becomes `foo/bar` |
| Paths.NormalizeFooBar | backend/tests/path.test.ts:8 | `foo/bar` stays `foo/bar` |
| Paths.NormalizeLeadingParent | backend/tests/path.test.ts:12 | `../etc/passwd` is rejected |
| Paths.NormalizeEscapingParent | backend/tests/path.test.ts:13 | `foo/../../bar` is rejected |
| Paths.NormalizeBackslash | backend/tests/path.test.ts:17 | `foo\bar` becomes `foo/bar` |
| Paths.NormalizeInnerParent | backend/src/utils/path.ts:11-14 | a `..` that stays inside the root is resolved: `foo/../bar` becomes `bar` |
| Paths.NormalizeDotsInName | backend/src/utils/path.ts:14-16 | the check is on the substring, so `a..b.png` is rejected too |
| Paths.BaseName | backend/src/utils/path.ts:43-45 | `path.basename` has no `/` and ends the path with its trailing slashes removed |
| Paths.ExtName | backend/src/utils/path.ts:36-38 | `path.extname` is empty or a `.`-led proper suffix of the base name |
| Paths.ExtensionShape | backend/src/utils/path.ts:36-38 | `getExtension` is empty, or a lower-case `.`-led suffix of the base name with no further `.` and no `/` |
| Paths.NoExtension | backend/src/utils/path.ts:36-38 | the extension is empty exactly when the base name has no `.` after its first character, or is `..` |
| Paths.ExtensionAt | backend/src/utils/path.ts:36-38 | for a name without `/` whose last `.` is at position d > 0, the extension is the lower-cased text from d |
| Paths.ExtensionOfSuffix | backend/src/utils/path.ts:36-38 | `stem + ext`, with `ext` a dot and one or more other characters, has extension `ext` lower-cased |
| Paths.AllowedOfSuffix | backend/src/utils/path.ts:27-31 | `stem + ext` is allowed exactly when `ext` lower-cased is `.jpg`, `.jpeg`, `.png` or `.svg` |
| Paths.AllowedExtensionIgnoresCase | backend/src/utils/path.ts:27-38 | `getExtension` and `isAllowedExtension` give the same answer for a name and its lower-cased form |
| Paths.BasenameAndExtension | backend/src/utils/path.ts:43-45 | `getBasename` followed by the raw extension is the base name |
| Paths.ExtensionOfTarGz | backend/tests/path.test.ts:44 | only the last dot counts: `x.tar.gz` has extension `.gz` |
| Paths.ExtensionOfUpperCase | backend/tests/path.test.ts:48 | `x.JPG` has extension `.jpg` and is allowed |
| Paths.RejectsTxt | backend/tests/path.test.ts:30 | `x.txt` is not allowed |
| Paths.RejectsPdf | backend/tests/path.test.ts:31 | `x.pdf` is not allowed |
| Paths.RejectsExe | backend/tests/path.test.ts:32 | `x.exe` is not allowed |
| Base.BaseRoundTrip | backend/src/utils/etag.ts:15 | reading back the digits of `n.toString(16)` gives n |
| Base.NatToBaseInjective | backend/src/utils/etag.ts:15 | different numbers have different hexadecimal text |
| Base.JoinSplit | frontend/src/components/Breadcrumb.tsx:12 | splitting a `join` on its separator gives the parts back when they hold no separator |
| ETag.GenerateETag | backend/src/utils/etag.ts:6-9 | the strong ETag is the digest in double quotes |
| ETag.GenerateETagSameIffSameDigest | backend/src/utils/etag.ts:6-9 | two contents get the same strong ETag exactly when their digests agree |
| ETag.GenerateWeakETag | backend/src/utils/etag.ts:14-16 | the weak ETag starts with `W/"` and ends with `"` |
| ETag.GenerateWeakETagInjective | backend/src/utils/etag.ts:14-16 | equal weak ETags imply equal size and equal modification time |
| ETag.AbsentHeaderNeverMatches | backend/src/utils/etag.ts:22 | an absent or empty `If-None-Match` never matches |
| ETag.TokensOfList | backend/src/utils/etag.ts:24 | a header made of padded, comma-free members splits and trims back into exactly those members |
| ETag.MatchesList | backend/src/utils/etag.ts:21-26 | such a header matches exactly when `*` or the tag is one of its members |
| ETag.MatchesSingle | backend/src/utils/etag.ts:21-26 | a one-member header matches exactly when it is `*` or the tag |
| ETag.WeakDoesNotMatchStrong | backend/src/utils/etag.ts:25 | the comparison is exact: `W/"x"` and `"x"` do not match each other |
| ETag.WildcardMatchesEverything | backend/tests/etag.test.ts:43-46 | `*` matches every tag |
| ETag.ExactTagMatches | backend/tests/etag.test.ts:38-41 | `"abc123"` matches itself |
| ETag.DifferentTagDoesNotMatch | backend/tests/etag.test.ts:48-51 | `"abc123"` does not match `"xyz789"` |
| ETag.MultipleTagsExample | backend/tests/etag.test.ts:53-56 | `"abc123"` matches the list `"xyz", "abc123", "def"` |
| RateLimit.Step | backend/src/middleware/rate-limit.ts:22-54 | `check` stores an entry for the identifier, touches no other entry, and reports the stored window end |
| RateLimit.Sweep | backend/src/middleware/rate-limit.ts:56-70 | `cleanup` keeps exactly the entries whose window is still open, unchanged |
| RateLimit.RateLimiter.constructor | backend/src/middleware/rate-limit.ts:14-20 | the limit and the window come from the configuration; the map starts empty |
| RateLimit.RateLimiter.Check | backend/src/middleware/rate-limit.ts:22-54 | the decision and the new map are `Step` of the old map |
| RateLimit.RateLimiter.Cleanup | backend/src/middleware/rate-limit.ts:60-65 | the loop that deletes while iterating leaves `Sweep` of the old map |
| RateLimit.ExpiredWindowRestarts | backend/src/middleware/rate-limit.ts:27-33 | an absent or expired window (`now >= resetAt`) restarts at count 0 and ends at `now + windowMs` |
| RateLimit.DeniedAtLimit | backend/src/middleware/rate-limit.ts:36-43 | at or above the limit the request is denied, nothing remains, and the count is kept |
| RateLimit.AllowedBelowLimit | backend/src/middleware/rate-limit.ts:46-53 | below the limit the count goes up by one and `remaining` is the limit minus the new count |
| RateLimit.OpenWindowKeepsReset | backend/src/middleware/rate-limit.ts:27 | inside an open window the window end does not move |
| RateLimit.StepKeepsCountsBounded | backend/src/middleware/rate-limit.ts:36-53 | `check` keeps every stored count between 0 and the limit |
| RateLimit.RunInsideWindow | backend/src/middleware/rate-limit.ts:22-54 | calls inside one open window are allowed until the limit, then denied, with `remaining` counting down |
| RateLimit.BurstFromFreshWindow | backend/src/middleware/rate-limit.ts:22-54 | from a fresh window, the first `maxRequests` calls are allowed and the rest denied, all with the same window end |
| RateLimit.SweepKeepsCountsBounded | backend/src/middleware/rate-limit.ts:56-70 | `cleanup` keeps every count within bounds |
| RateLimit.SweepIsUnobservable | backend/src/middleware/rate-limit.ts:56-70 | a `check` after a `cleanup` decides as it would have without the cleanup |
| Auth.HexOfBytes | backend/src/services/auth.ts:28 | the session id has two lower-case hex digits per random byte |
| Auth.Purge | backend/src/services/auth.ts:82-96 | `cleanupExpiredSessions` keeps exactly the sessions that have not expired, unchanged |
| Auth.SessionStore.constructor | backend/src/services/auth.ts:7 | the session map starts empty |
| Auth.SessionStore.CreateSession | backend/src/services/auth.ts:27-42 | the id is the 64-digit hex of 32 random bytes; the new session is stored under it, created and active now |
| Auth.SessionStore.GetSession | backend/src/services/auth.ts:47-66 | the result and the new map are `Lookup` of the old map |
| Auth.SessionStore.DestroySession | backend/src/services/auth.ts:71-77 | the session is removed and nothing else changes |
| Auth.SessionStore.CleanupExpiredSessions | backend/src/services/auth.ts:86-91 | the loop that deletes while iterating leaves `Purge` of the old map |
| Auth.LookupUnknown | backend/src/services/auth.ts:50-52 | an unknown id gives null and leaves the store alone |
| Auth.LookupStored | backend/src/services/auth.ts:55-65 | an expired session is dropped and null is returned; a live one is refreshed to `now` and returned |
| Auth.ExpiryBoundary | backend/src/services/auth.ts:55 | exactly 24 hours after the last activity a session is still valid; one millisecond later it is not |
| Auth.SlidingWindow | backend/src/services/auth.ts:55-63 | lookups that each follow the previous activity within 24 hours all succeed |
| Auth.CreatedSessionRetrievable | backend/src/services/auth.ts:27-66 | a new session can be looked up for 24 hours after its creation, up to and including the last millisecond |
| Auth.DestroyIdempotent | backend/src/services/auth.ts:71-77 | destroying twice is destroying once, and no other session is touched |
| Auth.DestroyedNotFound | backend/src/services/auth.ts:71-77 | a destroyed session can no longer be looked up |
| Auth.PurgeIsUnobservable | backend/src/services/auth.ts:82-96 | a lookup after a sweep finds what it would have found without the sweep |
| Auth.LookupKeepsKeyedById | backend/src/services/auth.ts:62-63 | looking up keeps every session stored under its own id |
| Auth.PurgeKeepsKeyedById | backend/src/services/auth.ts:82-96 | the sweep keeps every session stored under its own id |
| SvgSanitizer.ValidateAndSanitizeSvg | backend/src/services/svg-sanitizer.ts:67-86 | the result is valid exactly when it has sanitised text and no error; an invalid result has a non-empty error; a valid one began with `<` and passed `isSvgSafe` |
| SvgSanitizer.NonXmlRejectedFirst | backend/src/services/svg-sanitizer.ts:69-71 | content that does not start with `<` after trimming is rejected with the XML error, before the safety check |
| SvgSanitizer.UnsafeNeverSanitized | backend/src/services/svg-sanitizer.ts:74-76 | unsafe content is rejected with the danger error, and the sanitiser is never consulted |
| SvgSanitizer.SafeContentSanitized | backend/src/services/svg-sanitizer.ts:79-85 | safe, tag-shaped content is valid exactly when the sanitiser succeeds, and then carries the sanitiser's output |
| SvgSanitizer.EventHandlerFound | backend/src/services/svg-sanitizer.ts:44 | `on` + a name of word characters + `=` anywhere, in any case, is an event handler |
| SvgSanitizer.SafeWithoutSignatureLetters | backend/src/services/svg-sanitizer.ts:36-62 | a text with none of the letters `o`, `p`, `j`, `a` (in either case) passes every check |
| SvgSanitizer.FontAttributeFlagged | backend/src/services/svg-sanitizer.ts:44 | `<text font="x">` is flagged as an event handler |
| SvgSanitizer.SafeExample | backend/tests/svg-sanitizer.test.ts:6-9 | the rectangle sample is safe |
| SvgSanitizer.ScriptExample | backend/tests/svg-sanitizer.test.ts:11-14 | the `<script>` sample is unsafe |
| SvgSanitizer.OnClickExample | backend/tests/svg-sanitizer.test.ts:16-19 | the `onclick=` sample is unsafe |
| SvgSanitizer.JavascriptExample | backend/tests/svg-sanitizer.test.ts:21-24 | the `javascript:` sample is unsafe |
| SvgSanitizer.SafeExampleValid | backend/tests/svg-sanitizer.test.ts:28-34 | the rectangle sample is valid, with the sanitiser's output, whenever the sanitiser succeeds |
| SvgSanitizer.NotXmlExample | backend/tests/svg-sanitizer.test.ts:44-49 | `not an svg` is rejected |
| Disk.MkdirP | backend/src/services/storage-local.ts:171 | `mkdir -p` keeps every entry and adds only directories on the way to the target, which is then a directory |
| Disk.WriteFile | backend/src/services/storage-local.ts:77 | a write succeeds exactly when the target is not a directory and its parent is one; it then stores the whole buffer |
| Disk.RemoveTree | backend/src/services/storage-local.ts:114 | `rm -rf` removes the entry and everything under it, and nothing else |
| Disk.Unlink | backend/src/services/storage-local.ts:116 | `unlink` removes exactly the entry |
| Disk.MkdirPSucceeds | backend/src/services/storage-local.ts:171 | `mkdir -p` succeeds exactly when no existing prefix of the path is a regular file |
| Disk.MkdirPMakesAncestors | backend/src/services/storage-local.ts:171 | afterwards the path and all its ancestors are directories |
| Disk.MkdirPKeepsWellFormed | backend/src/services/storage-local.ts:171 | afterwards every entry still sits in a directory |
| Disk.RemoveTreeKeepsWellFormed | backend/src/services/storage-local.ts:114 | removing a tree keeps every remaining entry in a directory |
| Disk.WriteFileKeepsWellFormed | backend/src/services/storage-local.ts:77 | a write keeps every entry in a directory |
| Disk.RenameGoesAhead | backend/src/services/storage-local.ts:187 | a `rename` that passes its checks yields the moved tree |
| Disk.MovedContents | backend/src/services/storage-local.ts:187 | after `rename`, the source is gone, the destination holds the source's node and subtree, and every other entry outside both is kept |
| Disk.MovedKeepsWellFormed | backend/src/services/storage-local.ts:187 | a move keeps every entry in a directory |
| Disk.FileSystem.constructor | backend/src/services/storage-local.ts:12-15 | the shared file system starts as the given tree |
| StorageLocal.AbsoluteKeyIsPlain | backend/src/services/storage-local.ts:24-27 | every segment of an absolute path is a plain name, so no path leaves the storage root |
| StorageLocal.AbsoluteKeyOfNormalized | backend/src/services/storage-local.ts:24-27 | the adapter normalises again: a normalised path points where the original does |
| StorageLocal.KeyOfCanonical | backend/src/services/storage-local.ts:26 | `join(root, p)` of a canonical path is its segments; `.` is the root |
| StorageLocal.LocalStorageAdapter.constructor | backend/src/services/storage-local.ts:12-22 | the adapter works on the shared file system, whose root is created when missing |
| StorageLocal.LocalStorageAdapter.Exists | backend/src/services/storage-local.ts:29-36 | `exists` is `ExistsIn` of the current tree |
| StorageLocal.LocalStorageAdapter.Read | backend/src/services/storage-local.ts:38-66 | `read` is `ReadIn` of the current tree |
| StorageLocal.LocalStorageAdapter.Stat | backend/src/services/storage-local.ts:191-215 | `stat` is `StatIn` of the current tree |
| StorageLocal.LocalStorageAdapter.Readdir | backend/src/services/storage-local.ts:129 | `readdir` gives each name in the directory once |
| StorageLocal.LocalStorageAdapter.List | backend/src/services/storage-local.ts:122-167 | the result is a listing of the directory: each visible entry once, directories first, then by name |
| StorageLocal.LocalStorageAdapter.Write | backend/src/services/storage-local.ts:68-102 | the result and the new tree are `WriteStep` |
| StorageLocal.LocalStorageAdapter.Delete | backend/src/services/storage-local.ts:104-120 | the result and the new tree are `DeleteStep` |
| StorageLocal.LocalStorageAdapter.Mkdir | backend/src/services/storage-local.ts:169-173 | the result and the new tree are `MkdirStep` |
| StorageLocal.LocalStorageAdapter.Move | backend/src/services/storage-local.ts:175-189 | the result and the new tree are `MoveStep` |
| StorageLocal.RejectedPathDoesNotExist | backend/src/services/storage-local.ts:29-36 | `exists` swallows the traversal error: a rejected path does not exist, and `read` and `stat` of it fail |
| StorageLocal.StatIffExists | backend/src/services/storage-local.ts:194-196 | `stat` succeeds exactly on the paths that exist; otherwise it fails with "File not found" |
| StorageLocal.StatOfFile | backend/src/services/storage-local.ts:199-212 | a file's record has the base name, the path, its size, its MIME type (or `application/octet-stream`) and the ETag `"<mtime>-<size>"` |
| StorageLocal.StatOfDirectory | backend/src/services/storage-local.ts:201-206 | a directory's record has no size, MIME type or ETag, and a directory cannot be read |
| StorageLocal.FileETagInjective | backend/src/services/storage-local.ts:211 | the adapter's ETag tells modification time and size apart |
| StorageLocal.Insert | backend/src/services/storage-local.ts:160-166 | insertion adds exactly one element to the multiset |
| StorageLocal.Sort | backend/src/services/storage-local.ts:160-166 | the sort is sorted by the comparator, is a permutation, and keeps distinct elements distinct |
| StorageLocal.InsertSorted | backend/src/services/storage-local.ts:160-166 | inserting into a sorted list keeps it sorted |
| StorageLocal.BeforeTransitive | backend/src/services/storage-local.ts:162-165 | the comparator is transitive |
| StorageLocal.BeforeTotal | backend/src/services/storage-local.ts:162-165 | any two records are ordered one way or the other, unless they have the same kind and name |
| StorageLocal.ItemsMember | backend/src/services/storage-local.ts:132-158 | the loop's records are exactly those of the visible names |
| StorageLocal.SortedItems | backend/src/services/storage-local.ts:132-166 | sorting the records of distinct names gives each visible name's record once, in order |
| StorageLocal.ListedEntries | backend/src/services/storage-local.ts:129-166 | the sorted records of the names `readdir` gives form a listing of the directory |
| StorageLocal.ListOfRootAndMissing | backend/src/services/storage-local.ts:123-127 | `list('')` lists the root; a missing directory lists as empty; a rejected path fails |
| StorageLocal.ListingMembers | backend/src/services/storage-local.ts:132-158 | a listing holds exactly the records of the directory's visible entries |
| StorageLocal.ListedRecord | backend/src/services/storage-local.ts:140-155 | a listed record carries the entry's name and path, kind, time, size and MIME type, and an ETag exactly for JPEG, PNG and SVG files |
| StorageLocal.ThumbnailDirHidden | backend/src/services/storage-local.ts:134 | the thumbnail directory is hidden from listings |
| StorageLocal.EntryIsListed | backend/src/services/storage-local.ts:134-157 | every visible entry of the directory is listed |
| StorageLocal.ListingOrder | backend/src/services/storage-local.ts:160-166 | every directory comes before every file, and each kind is in ascending name order |
| StorageLocal.DeleteRemovesSubtree | backend/src/services/storage-local.ts:104-120 | `delete` succeeds exactly on an existing path and removes it with everything inside it; a failure changes nothing |
| StorageLocal.DeleteRootRemovesEverything | backend/src/services/storage-local.ts:105-114 | `delete('.')` removes the storage root itself and every file in it |
| StorageLocal.MkdirMakesDirectory | backend/src/services/storage-local.ts:169-173 | `mkdir` creates the directory and its ancestors unless a file is in the way, and keeps every entry there was |
| StorageLocal.MkdirIdempotent | backend/src/services/storage-local.ts:169-173 | a second `mkdir` of the same path changes nothing |
| StorageLocal.WriteSucceeds | backend/src/services/storage-local.ts:68-77 | `write` succeeds exactly when the path is accepted, no ancestor is a file and the target is not a directory |
| StorageLocal.MkdirParentSucceeds | backend/src/services/storage-local.ts:73 | creating the parent succeeds exactly when no existing proper ancestor is a file |
| StorageLocal.MkdirParentKeepsTarget | backend/src/services/storage-local.ts:73 | creating the parent neither creates nor changes the target |
| StorageLocal.WriteThenRead | backend/src/services/storage-local.ts:68-77 | after a successful `write`, `read` gives the written bytes back |
| StorageLocal.MoveMissingSource | backend/src/services/storage-local.ts:179-181 | `move` of an absent source fails with "Source not found" and changes nothing |
| StorageLocal.MoveRelocates | backend/src/services/storage-local.ts:175-189 | a successful `move` puts the source's node and subtree at the destination |
| StorageLocal.MoveKeepsWellFormed | backend/src/services/storage-local.ts:175-189 | `move` keeps the tree well formed, whether `rename` succeeds or not |
| Thumbnail.ThumbnailKey | backend/src/services/thumbnail.ts:73-77 | the thumbnail of a file lives directly in `.thumbnails`, under a plain name (the corrected place; see Findings) |
| Thumbnail.PlacesAgreeOnPlainNames | backend/src/services/thumbnail.ts:73-77 | for a name without `/`, the corrected place is the place the code computes |
| Thumbnail.ClimbingUploadEscapes | backend/src/services/thumbnail.ts:38-39 | the thumbnail of an upload named `../../x` is written one level above the storage root |
| Thumbnail.ClimbingNameLeavesStorage | backend/src/services/thumbnail.ts:39 | `join(thumbnailDir, '../../t')` lands above the storage root |
| Thumbnail.ThumbnailService.constructor | backend/src/services/thumbnail.ts:13-24 | the service keeps its size and quality, and creates `.thumbnails` when missing |
| Thumbnail.ThumbnailService.Generate | backend/src/services/thumbnail.ts:29-68 | the result and the new tree are `GenerateStep`: the extension test, then existence, resize and write at `join(thumbnailDir, fileName + '.thumb' + ext)` as written, in or above the storage tree |
| Thumbnail.ThumbnailService.HasThumbnail | backend/src/services/thumbnail.ts:73-85 | true exactly when something is at `join(thumbnailDir, fileName + '.thumb' + ext)` as the code joins it, with the raw `fileName` (`ThumbnailPresent`) |
| Thumbnail.ThumbnailService.DeleteThumbnail | backend/src/services/thumbnail.ts:73-97 | the result and the new tree are `DeleteThumbnailStep`, which unlinks at the place `getThumbnailPath` joins from the raw `fileName` |
| Thumbnail.IneligibleSkipped | backend/src/services/thumbnail.ts:33-35 | files other than JPEG and PNG, SVG among them, get no thumbnail and nothing is created |
| Thumbnail.SvgNotEligible | backend/src/services/thumbnail.ts:33 | `logo.svg` gets no thumbnail |
| Thumbnail.ThumbnailNameExample | backend/src/services/thumbnail.ts:38 | `x.JPG` gets the thumbnail name `x.JPG.thumb.jpg` |
| Thumbnail.ExistingThumbnailReused | backend/src/services/thumbnail.ts:42-44 | an entry already at the joined thumbnail place is reported by name without reading or writing anything |
| Thumbnail.GenerateWritesThumbnailOnly | backend/src/services/thumbnail.ts:29-68 | a successful `generate` leaves an entry at the joined place when that place is in the tree, and touches nothing else; a failure, or a place above the root, changes nothing; a second call gives the same answer and changes nothing |
| Thumbnail.GenerateSucceeds | backend/src/services/thumbnail.ts:47-67 | with the joined place in the tree and free and a source the pipeline can encode, the thumbnail is made exactly when the folder it goes into exists; otherwise `toFile` fails, the answer is null and nothing changes |
| Thumbnail.GenerateMissingFolder | backend/src/services/thumbnail.ts:47-67 | a thumbnail whose folder is missing is not made and nothing changes |
| Thumbnail.GenerateAtKey | backend/src/services/thumbnail.ts:29-67 | with the thumbnail's place in the tree: a name is answered exactly when an entry is there or the thumbnail can be written, and the only change is that write |
| Thumbnail.GenerateAboveStorage | backend/src/services/thumbnail.ts:38-60 | a thumbnail placed above the storage root leaves the tree alone and is reported exactly when the pipeline encodes the source |
| Thumbnail.GenerateWrites | backend/src/services/thumbnail.ts:47-53 | `generate` changes the tree only by writing the encoded thumbnail at the joined place |
| Thumbnail.GenerateAgreesOnPlainNames | backend/src/services/thumbnail.ts:38-39 | for a name without `/`, `generate` as written and the corrected `generate` give the same answer and tree |
| Thumbnail.CorrectedGenerateStaysInThumbnailDir | backend/src/services/thumbnail.ts:38-53 | the corrected `generate` writes at most one new file directly inside an existing `.thumbnails`, answers with a name exactly when the thumbnail exists or can be made, and keeps the rest of the tree |
| Thumbnail.SubfolderNameInThumbnailDir | backend/src/services/thumbnail.ts:39 | `join(thumbnailDir, 'a/n')` points into the sub-folder `.thumbnails/a` |
| Thumbnail.SubfolderPlace | backend/src/services/thumbnail.ts:38-39 | the code places the thumbnail of `a/x` at `.thumbnails/a/<x's thumbnail name>`; the corrected key is that of `x` |
| Thumbnail.SubfolderNameNeedsFolder | backend/src/services/thumbnail.ts:38-53 | while `.thumbnails/a` is missing, `generate` for `a/x` makes nothing and answers null |
| Thumbnail.ClimbingUploadLeavesTree | backend/src/services/thumbnail.ts:38-60 | `generate` for `../../x` reports a thumbnail and leaves the storage tree unchanged; the corrected `generate` treats it as `x` |
| Thumbnail.GenerateKeepsWellFormed | backend/src/services/thumbnail.ts:29-68 | `generate` keeps the tree well formed |
| Thumbnail.SharedAcrossFolders | backend/src/services/thumbnail.ts:73-77 | the thumbnail depends on the file name alone, so same-named files in two folders share one |
| Thumbnail.DeleteThumbnailRemoves | backend/src/services/thumbnail.ts:90-97 | deleting an absent thumbnail changes nothing; otherwise the thumbnail is gone, the delete fails exactly on a directory, and nothing but that place is touched |
| Thumbnail.GeneratedThumbnailPresent | backend/src/services/thumbnail.ts:38-85 | at a place in the tree, `generate` reports a name exactly when `hasThumbnail` then holds, and an existing thumbnail is left as it is |
| Thumbnail.DeleteThenHasThumbnail | backend/src/services/thumbnail.ts:82-97 | after a successful `deleteThumbnail`, `hasThumbnail` is false for that name and unchanged for every name with another place |
| Thumbnail.PresentAtKeyOfPlainName | backend/src/services/thumbnail.ts:73-97 | for a name without `/` (every `stat` name), `hasThumbnail` and `deleteThumbnail` act at the corrected key |
| ApiRoutes.EnrichAll | backend/src/routes/api-routes.ts:23-37 | enrichment keeps one record per listed item |
| ApiRoutes.ApiRoutes.constructor | backend/src/routes/api-routes.ts:8 | the handlers share one storage adapter and one thumbnail service over the same file system |
| ApiRoutes.ApiRoutes.List | backend/src/routes/api-routes.ts:14-61 | a bad path is 500; otherwise the answer is `ListAnswer` of a listing of the directory, and nothing changes |
| ApiRoutes.ApiRoutes.Thumbnail | backend/src/routes/api-routes.ts:67-108 | the response and the new tree are `ThumbnailAnswer` |
| ApiRoutes.ApiRoutes.Upload | backend/src/routes/api-routes.ts:114-210 | the response and the new tree are `UploadAnswer`, whose image branch runs `generate` as written on the raw `file.name` |
| ApiRoutes.ApiRoutes.Mkdir | backend/src/routes/api-routes.ts:216-244 | the response and the new tree are `MkdirAnswer` |
| ApiRoutes.ApiRoutes.Move | backend/src/routes/api-routes.ts:250-280 | the response and the new tree are `MoveAnswer` |
| ApiRoutes.ApiRoutes.Rename | backend/src/routes/api-routes.ts:286-318 | the response and the new tree are `RenameAnswer` |
| ApiRoutes.ApiRoutes.Delete | backend/src/routes/api-routes.ts:324-359 | the response and the new tree are `DeleteAnswer` |
| ApiRoutes.ListPathOfQuery | backend/src/routes/api-routes.ts:17-19 | an absent or empty `path` lists the root as `''` without normalising; any other is normalised |
| ApiRoutes.EnrichListed | backend/src/routes/api-routes.ts:23-37 | a file gets its download URL and, exactly when it is a JPEG or PNG, a thumbnail URL; a directory gets neither; every other field is kept |
| ApiRoutes.Files | backend/src/routes/api-routes.ts:40 | the files among the items, in order |
| ApiRoutes.TotalSizeIsSumOfFiles | backend/src/routes/api-routes.ts:39-41 | `totalSize` is the sum of the files' sizes only, a missing size counting 0 |
| ApiRoutes.EnrichKeepsTotal | backend/src/routes/api-routes.ts:23-41 | enrichment leaves the total size unchanged |
| ApiRoutes.ListAnswerShape | backend/src/routes/api-routes.ts:43-59 | a storage error is 500; otherwise 200 with the items in storage order, enriched, `totalCount` counting directories too |
| ApiRoutes.ThumbnailRejections | backend/src/routes/api-routes.ts:72-81 | no path is 400, a traversal is 500, a missing file is 404; none of them changes anything |
| ApiRoutes.GeneratedThumbnailServed | backend/src/routes/api-routes.ts:87-103 | 200 with the JPEG headers and the thumbnail's bytes exactly when `generate` gave a name; otherwise 404 with nothing changed |
| ApiRoutes.UploadChecksInOrder | backend/src/routes/api-routes.ts:120-150 | a missing or empty `file` entry is 400, a non-empty text value there is 500 (`extname(undefined)` throws), a size above the limit is 413 (equal passes), a disallowed extension is 400; the first failure decides and none writes |
| ApiRoutes.UploadTargetChecks | backend/src/routes/api-routes.ts:152-164 | a traversal in `join(path, name)` is 500; an existing target without `overwrite=true` is 409; neither writes |
| ApiRoutes.SvgOutcomeWritesSanitized | backend/src/routes/api-routes.ts:167-182 | a rejected SVG is 400 with the validator's error and writes nothing; an accepted one writes only its sanitised text, which reads back as that text |
| ApiRoutes.ImageUploadWritesThenThumbnails | backend/src/routes/api-routes.ts:184-190 | a JPEG or PNG upload writes the bytes, then runs `generate` on the raw `file.name`, and answers 201; the file reads back as the uploaded bytes |
| ApiRoutes.ImageAnswerIgnoresThumbnail | backend/src/routes/api-routes.ts:190-202 | the answer to an image upload does not depend on what the image pipeline does |
| ApiRoutes.MkdirOutcomes | backend/src/routes/api-routes.ts:216-243 | no usable path is 400, a non-string or a traversal is 500, and neither changes anything; on 201 the directory exists and every entry is kept |
| ApiRoutes.MkdirCreates | backend/src/routes/api-routes.ts:228-236 | `mkdir` of a path that normalises answers as `mkdir` of the storage does |
| ApiRoutes.MoveOf | backend/src/routes/api-routes.ts:262-265 | a traversal in either path is 500 and changes nothing; otherwise the normalised paths are moved |
| ApiRoutes.MoveBetweenOutcomes | backend/src/routes/api-routes.ts:265-279 | an absent source is 500 (not 404) and changes nothing; on 200 the answer names both paths and the entry has moved |
| ApiRoutes.ParentOfChild | backend/src/routes/api-routes.ts:299 | the parent of `dir/base` is `dir`; a path without `/` has the parent `''` |
| ApiRoutes.RenameTargetIsParentJoin | backend/src/routes/api-routes.ts:299-303 | `rename` moves the entry to the normalisation of `dir/newName` (outside `dir` when `newName` holds `/` or `..`), or to `newName` at the top level; a non-string name is 500 |
| ApiRoutes.RenameMoveOutcomes | backend/src/routes/api-routes.ts:301-317 | a traversal or an absent source is 500 and changes nothing; otherwise 200 with the new path exactly when the move succeeds |
| ApiRoutes.DeleteChecks | backend/src/routes/api-routes.ts:329-336 | no path is 400, a traversal is 500; neither changes anything |
| ApiRoutes.DeleteMissing | backend/src/routes/api-routes.ts:339 | deleting an absent entry is 500 and changes nothing |
| ApiRoutes.DeleteDirectory | backend/src/routes/api-routes.ts:340-344 | a directory is removed with everything in it, and no thumbnail is looked at |
| ApiRoutes.DeleteBlockedByThumbnail | backend/src/routes/api-routes.ts:340-342 | when deleting a file's thumbnail fails, the file stays and the answer is 500 |
| ApiRoutes.DeleteFileAndThumbnail | backend/src/routes/api-routes.ts:339-350 | once the thumbnail is cleared the file is deleted, the answer is 200, and neither file nor thumbnail is left (`hasThumbnail` is false) |
| ApiRoutes.ThumbnailIsNotTheFile | backend/src/services/thumbnail.ts:73-77 | a thumbnail's place is never the file it is made for, and for a `stat` name it is the place `getThumbnailPath` joins |
| AuthRoutes.RunEnd | backend/src/routes/auth-routes.ts:60 | `[^;]+` runs up to the first `;` or the end |
| AuthRoutes.MatchFromLeftmost | backend/src/routes/auth-routes.ts:60 | the cookie id is the group of the leftmost `session_id=` match, and absent when nothing matches |
| AuthRoutes.CookieRoundTrip | backend/src/routes/auth-routes.ts:38-60 | the cookie set at login, alone or followed by other cookies, yields the session id again |
| AuthRoutes.HexIdIsCookieValue | backend/src/services/auth.ts:28 | a new session id is non-empty and holds no `;` |
| AuthRoutes.MatchInsideAnotherName | backend/src/routes/auth-routes.ts:60 | in `x_session_id=evil; session_id=real`, the id taken is `evil` |
| AuthRoutes.AuthRoutes.constructor | backend/src/routes/auth-routes.ts:5 | the handlers share the session store and the configuration |
| AuthRoutes.AuthRoutes.Login | backend/src/routes/auth-routes.ts:10-52 | the response and the new sessions are `LoginAnswer` |
| AuthRoutes.AuthRoutes.Logout | backend/src/routes/auth-routes.ts:57-83 | always 200 with an expiring cookie; the cookie's session, if it names one, is destroyed |
| AuthRoutes.AuthRoutes.Me | backend/src/routes/auth-routes.ts:88-120 | the response and the new sessions are `MeAnswer` |
| AuthRoutes.LoginRejections | backend/src/routes/auth-routes.ts:12-29 | an unreadable body is 500, a missing username or password is 400, a wrong username, a non-string password (argon2's `verify` throws and `verifyPassword` answers false) or a rejected password is 401; none creates a session |
| AuthRoutes.LoginSucceeds | backend/src/routes/auth-routes.ts:32-44 | the admin's name with a string password `verify` accepts adds exactly one session for the admin, under the id set in the cookie, and answers 200 |
| AuthRoutes.LoginThenMe | backend/src/routes/auth-routes.ts:32-112 | after a login with a string password `verify` accepts, the cookie sent back within 24 hours makes `me` answer 200 with the admin's name |
| AuthRoutes.LogoutThenMe | backend/src/routes/auth-routes.ts:62-107 | after logging out with a cookie, `me` with that cookie answers "Invalid session" |
| AuthRoutes.LogoutWithoutId | backend/src/routes/auth-routes.ts:62-64 | a logout without a session id leaves every session as it was |
| AuthRoutes.MeOutcomes | backend/src/routes/auth-routes.ts:93-112 | no id is "No session"; an unknown or expired id is "Invalid session"; a live one answers its user name and is refreshed |
| AuthRoutes.CookieLifetimeIsExpiry | backend/src/routes/auth-routes.ts:38 | the cookie's `Max-Age` of 86400 seconds equals the session expiry |
| CdnRoutes.DigitRun | backend/src/routes/cdn-routes.ts:89 | `\d+` runs to the first non-digit |
| CdnRoutes.GroupsAtIsMatch | backend/src/routes/cdn-routes.ts:89 | the groups found at a position are exactly a match of `bytes=(\d+)-(\d*)` there |
| CdnRoutes.FirstMatchIsLeftmost | backend/src/routes/cdn-routes.ts:89 | the search returns the leftmost match, or none when there is none |
| CdnRoutes.RangeGroupsLeftmost | backend/src/routes/cdn-routes.ts:89 | `range.match` yields the leftmost match's groups, or null when nothing matches |
| CdnRoutes.DecimalValueOfNatToString | backend/src/routes/cdn-routes.ts:91-92 | `parseInt` reads back what `toString` prints |
| CdnRoutes.CdnRoutes.constructor | backend/src/routes/cdn-routes.ts:7 | the handler reads the shared storage |
| CdnRoutes.CdnRoutes.ServeFile | backend/src/routes/cdn-routes.ts:13-108 | the response is `ServeFileResponse` of the current tree, and nothing changes |
| CdnRoutes.CdnRoutes.Send | backend/src/routes/cdn-routes.ts:44-103 | the response of a sent file is `Served` |
| CdnRoutes.MissingIsNotFound | backend/src/routes/cdn-routes.ts:16-18 | a path that does not exist (or is a traversal) is 404 |
| CdnRoutes.ExistingPathAnswered | backend/src/routes/cdn-routes.ts:21-103 | an existing directory is 400; an existing file is 304, 200 or 206 |
| CdnRoutes.StatRecord | backend/src/routes/cdn-routes.ts:21 | the record the handler decides on is what `stat` returns |
| CdnRoutes.ETagMatchIsNotModified | backend/src/routes/cdn-routes.ts:28-31 | a file whose ETag matches `If-None-Match` is 304 with no body |
| CdnRoutes.AnswerNotModified | backend/src/routes/cdn-routes.ts:28-42 | 304 exactly on a matching ETag or a modification time not after a parsable `If-Modified-Since` |
| CdnRoutes.NotModifiedExactly | backend/src/routes/cdn-routes.ts:28-42 | for a file in storage, 304 exactly under those two conditions |
| CdnRoutes.ServedCases | backend/src/routes/cdn-routes.ts:86-103 | 206 with the two range headers on top of the file headers, or 200 with the file headers |
| CdnRoutes.SentHeaders | backend/src/routes/cdn-routes.ts:48-83 | the content type (SVG forced to `image/svg+xml`), cache, ETag, time, length, SVG security and CORS headers of a sent file |
| CdnRoutes.RangeAnswered | backend/src/routes/cdn-routes.ts:86-103 | without a usable range, or for an empty file, the answer is 200 with the whole content |
| CdnRoutes.RangePartial | backend/src/routes/cdn-routes.ts:89-99 | a matching range is 206 with `Content-Range` and the range's length, yet the whole content as the body |
| CdnRoutes.KnownLength | backend/src/routes/cdn-routes.ts:71-73 | a file of known size is announced with that size |
| CdnRoutes.SentFile | backend/src/routes/cdn-routes.ts:45-103 | a file that is sent is answered by `Served` on its `stat` record and its content |
| Server.KeysOf | backend/src/server.ts:113 | the metrics keys, in insertion order |
| Server.BumpCount | backend/src/server.ts:66-67 | bumping a key adds one to its count and leaves every other count as it was |
| Server.BumpKeys | backend/src/server.ts:66-67 | a key seen before keeps its place; a new key goes last |
| Server.BumpDistinct | backend/src/server.ts:66-67 | bumping never makes a key appear twice |
| Server.MethodLineListed | backend/src/server.ts:113 | every counted method has its line on the metrics page |
| Server.MetricsListsEveryMethod | backend/src/server.ts:101-114 | the metrics page has a line for every method counted so far |
| Server.Metrics.constructor | backend/src/server.ts:27-32 | every counter starts at zero |
| Server.Metrics.Record | backend/src/server.ts:65-67 | the total goes up by one, and so do the counts for the method and for the path |
| Server.Server.constructor | backend/src/server.ts:14-24 | one configuration, storage, session store, limiter and metrics behind every handler |
| Server.Server.HandleRequest | backend/src/server.ts:57-255 | the counters are recorded, errors stay unchanged, and the response and the new state are `Handle` |
| Server.Server.Route | backend/src/server.ts:76-230 | the response and the new state are `Handle`, for the listing the storage gives |
| Server.Server.AuthRoute | backend/src/server.ts:123-129 | the response and the new state are `AuthAnswer` |
| Server.Server.FileRoute | backend/src/server.ts:132-145 | the response and the new state are `FileAnswer` |
| Server.Server.RequireAuth | backend/src/server.ts:37-52 | authenticated exactly when the cookie names a live session, which the lookup refreshes or drops |
| Server.Server.Protected | backend/src/server.ts:148-205 | the response and the new state are `Protect` |
| Server.Server.Checks | backend/src/server.ts:150-189 | the refusal, if any, and the new state are `Guard` |
| Server.Server.Dispatch | backend/src/server.ts:192-204 | the protected handler's response and new tree are `ActionAnswer` |
| Server.RouteTable | backend/src/server.ts:80-210 | OPTIONS is the preflight; then `/healthz`, `/metrics` when enabled, the auth routes, `/cdn/<file>` for any method, list and thumbnail; any other `/api/` path is protected |
| Server.UnroutedIsNotFound | backend/src/server.ts:208-210 | a request no branch takes is a tagged 404 and changes nothing |
| Server.PublicRoutesKeepFiles | backend/src/server.ts:80-145 | outside the protected branch only the thumbnail route writes files |
| Server.ProtectedFiles | backend/src/server.ts:148-205 | a protected request changes files only when it names a handler, passes every check and is authenticated |
| Server.ReadOnlyKeepsFiles | backend/src/server.ts:150-155 | in read-only mode the files change only through thumbnails made on demand |
| Server.PublicRoutesKeepLimits | backend/src/server.ts:168-170 | only the protected branch consults the rate limiter |
| Server.ProtectedLimits | backend/src/server.ts:168-170 | the limiter is charged exactly for authenticated non-GET requests outside read-only mode |
| Server.ProtectKeepsGuardLimits | backend/src/server.ts:148-205 | the handler reached after the checks leaves the rate-limit windows as the checks left them |
| Server.ProtectedOrder | backend/src/server.ts:150-189 | read-only (403) comes before authentication (401), which comes before the rate limit (429); each refusal changes only what its check touched |
| Server.ServerPagesUntagged | backend/src/server.ts:80-120 | the preflight, health and metrics answers carry no `X-Request-ID` |
| Server.GuardRefusalsUntagged | backend/src/server.ts:150-189 | the 403, 401 and 429 refusals carry no `X-Request-ID` |
| Server.RefusalsUntagged | backend/src/server.ts:150-189 | so the protected branch's refusals reach the client without it |
| Server.RoutedAnswersTagged | backend/src/server.ts:223-230 | every answer that reaches the end of `handleRequest` carries the request's id |
| Server.RetryAfterAtLeastOneSecond | backend/src/server.ts:177 | with a positive window, the advertised wait is at least one second |
| Server.LoginThenAuthenticated | backend/src/server.ts:123-165 | after a login with a string password `verify` accepts, the cookie it sets passes `requireAuth` for 24 hours |
| Breadcrumb.DropEmpty | frontend/src/components/Breadcrumb.tsx:9 | `filter(Boolean)` keeps exactly the non-empty segments |
| Breadcrumb.Parts | frontend/src/components/Breadcrumb.tsx:9 | every part is non-empty and has no `/` |
| Breadcrumb.CrumbsOf | frontend/src/components/Breadcrumb.tsx:17-35 | Home first, then one crumb per part, labelled with the part and navigating to `buildPath` of its index |
| Breadcrumb.EmptyPathHasNoParts | frontend/src/components/Breadcrumb.tsx:9 | an empty path has no parts and shows Home alone |
| Breadcrumb.HomeNavigatesToRoot | frontend/src/components/Breadcrumb.tsx:19 | Home navigates to `''` |
| Breadcrumb.JoinedSegments | frontend/src/components/Breadcrumb.tsx:12 | splitting the join of non-empty, slash-free parts gives the parts back, and the join is empty only for no parts |
| Breadcrumb.PartsOfBuildPath | frontend/src/components/Breadcrumb.tsx:11-13 | the parts of `buildPath(i)` are the first i + 1 parts |
| Breadcrumb.BuildPathPrefix | frontend/src/components/Breadcrumb.tsx:11-13 | a later crumb's target extends an earlier one's by `/` and the parts in between |
| Breadcrumb.SegmentPrefix | frontend/src/components/Breadcrumb.tsx:11-13 | the targets' parts grow by prefix along the trail |
| Breadcrumb.CrumbsOfPrefix | frontend/src/components/Breadcrumb.tsx:25-35 | the crumbs of the first k parts are the first k + 1 crumbs |
| Breadcrumb.NavigateKeepsLeadingCrumbs | frontend/src/components/Breadcrumb.tsx:30 | clicking crumb k shows exactly the first k + 1 crumbs again |
| Breadcrumb.SqueezeSegments | frontend/src/components/Breadcrumb.tsx:9-12 | splitting, filtering and joining drops leading, trailing and repeated `/` |
| Breadcrumb.LastCrumbIsSqueezedPath | frontend/src/components/Breadcrumb.tsx:9-13 | there are no parts exactly when the path is only slashes; otherwise the last crumb targets the path with outer and repeated slashes removed |
| Breadcrumb.LastCrumbHasNoEmptySegment | frontend/src/components/Breadcrumb.tsx:9-13 | the last crumb's target splits back into exactly the parts, none of them empty |
| UploadZone.Select | frontend/src/components/UploadZone.tsx:21-30 | the files kept or rejected, in order, with the same verdict for each |
| UploadZone.AlertTexts | frontend/src/components/UploadZone.tsx:28 | one alert per rejected file, in order |
| UploadZone.ValidateFiles | frontend/src/components/UploadZone.tsx:16-33 | the loop returns the accepted files in order and raises one alert per rejected file in order; a null list gives neither |
| UploadZone.Zone.constructor | frontend/src/components/UploadZone.tsx:11-14 | no upload in progress, no alerts, no uploads |
| UploadZone.Zone.HandleFiles | frontend/src/components/UploadZone.tsx:35-73 | the alerts of validation are appended; the accepted files are handed to `onUpload` exactly when there is at least one |
| UploadZone.NullFileList | frontend/src/components/UploadZone.tsx:17 | a null file list gives no files and no alerts |
| UploadZone.SplitLastPiece | frontend/src/components/UploadZone.tsx:23 | `split('.').pop()` is the text after the last `.`, or the whole name |
| UploadZone.ExtensionAfterLastDot | frontend/src/components/UploadZone.tsx:23 | the client's extension is `.` plus the lower-cased text after the last `.` |
| UploadZone.DotlessExtension | frontend/src/components/UploadZone.tsx:23 | a name without `.` has the extension `.` plus the whole name lower-cased |
| UploadZone.AcceptedIff | frontend/src/components/UploadZone.tsx:25 | a file is accepted exactly when its MIME type is JPEG, PNG or SVG, or its text after the last dot, lower-cased, is jpg, jpeg, png or svg |
| UploadZone.ImageTypeKeepsAnyName | frontend/src/components/UploadZone.tsx:25 | an image MIME type lets any name through |
| UploadZone.DotlessNameIsItsExtension | frontend/src/components/UploadZone.tsx:23-25 | a file named `PNG`, with no dot, is accepted |
| UploadZone.SelectIsFilter | frontend/src/components/UploadZone.tsx:21-30 | the kept files are the accepted ones in their order, each at its original index |
| UploadZone.KeptFiles | frontend/src/components/UploadZone.tsx:21-32 | a file is returned exactly when it is in the list and accepted |
| UploadZone.KeptPlusRejected | frontend/src/components/UploadZone.tsx:21-30 | kept and rejected files together are a permutation of the list |
| UploadZone.OneAlertPerRejectedFile | frontend/src/components/UploadZone.tsx:28 | every rejected file gets its alert text with its name, and there are no other alerts |
| UploadZone.NoUploadWhenNothingPasses | frontend/src/components/UploadZone.tsx:39-40 | nothing is uploaded exactly when no file passes; an upload is non-empty and every file in it passed |
| UploadZone.SameExtensionList | frontend/src/components/UploadZone.tsx:9 | the client's extension list is the server's allow-list |
| UploadZone.AgreesWithServer | frontend/src/components/UploadZone.tsx:23-25 | for a name with a dot after its first character and a non-image MIME type, the client's extension and verdict are the server's |
| UploadZone.ImageTypedTextFile | frontend/src/components/UploadZone.tsx:25 | a `.txt` file sent as `image/png` passes the client but is refused by the server |

## Left out

- I/O is left out. Request bodies are values, a file read is the file's bytes, and writes are whole buffers. The stream branch of `write` (storage-local.ts:78-99) is not modelled, because every caller passes a `Buffer`.
- Logging is left out: `logger` calls, and the request and completion log lines.
- The clock is a parameter `now`. Each handler reads `Date.now()`, `new Date()` and `stats.mtime` once, where the source may read the clock several times within one request.
- `setInterval` (rate-limit.ts:19, auth.ts:99) is left out. `Cleanup` and `CleanupExpiredSessions` are the sweeps it would run, proved not to change any later answer.
- These foreign calls are parameters of the model:
  - argon2 `verify`;
  - `randomBytes(32)`;
  - the request-id generator;
  - md5;
  - `mime.lookup`;
  - `sanitize-html`;
  - sharp's resize and JPEG pipeline, where None stands for a pipeline that throws;
  - `encodeURIComponent`;
  - UTF-8 `file.text()` and `Buffer.from(string)`;
  - `Date` parsing and `toUTCString`.

  Their behaviour is not modelled.
- `localeCompare` becomes code-unit lexicographic order. It is a total order, and it stands for the locale's collation, which the model does not capture.
- The outer `catch` of `handleRequest` (server.ts:232-254) is left out. Every handler catches its own errors, and routing cannot throw in the model, so `metrics.totalErrors` never moves.
- `config.ts`, `logger.ts`, `request-id.ts` and `Bun.serve` are not part of this model. The configuration is a value that is handed in.
- Headers are looked up by lower-cased name, as `Headers.get` does. Only the lookup is case-insensitive; header values are not normalised.
- `serveFile` reads the file into memory. This is equivalent to the stream it opens in the source.
- The async interleaving of concurrent requests is left out. Each request runs to completion before the next one starts.
- The React rendering, the drag-state handlers (`isDragging`) and the file-input reset (UploadZone.tsx:69-71) are left out. `alert` is an append to a log of alert texts; `onUpload` is an append to a log of uploads.
- UploadZone.Zone.HandleFiles: does not model `uploading` being true while `onUpload` runs, because the model has no await point. It states that the flag is false after `onUpload`, and unchanged when no file passes and the handler returns early.
- Thumbnail.ThumbnailService.Generate: the file system above the storage root is not modelled. A thumbnail that `join` places there is taken to be absent, and its write to succeed; the storage tree is unchanged. `HasThumbnail` answers false for such a place and `DeleteThumbnail` does nothing there, for the same reason.
- CdnRoutes.DecimalValue: reads the digits of a `Range` bound exactly. `parseInt` returns a double, so the source rounds bounds above 2^53, and the `Content-Range` and `Content-Length` it prints for them differ from the model's.
- Base.ToLower: lowers the ASCII letters `A`-`Z` only, where JavaScript's `toLowerCase` lowers every cased letter. Every extension verdict is unaffected, because each list it is compared against is ASCII: the allow-list, the thumbnail list, the ETag list, the `.svg` tests, and `UploadZone.Extension` (UploadZone.tsx:23). The name `getThumbnailPath` builds (thumbnail.ts:73-77) does differ for a name with a non-ASCII capital in its extension: `a.ÉX` gets `a.ÉX.thumb.Éx` in the model and `a.ÉX.thumb.éx` in the source. `HasThumbnail`, `DeleteThumbnail`, `generate` and `delete` then look at a different file than the source does.
- Disk.WriteFile: does not update the modification time of the parent directory, and neither do `MkdirP`, `RemoveTree`, `Unlink` and `Rename`. On POSIX these change it, and `list` reports it as a directory's `lastModified` (storage-local.ts:144), so a listed directory keeps its older time in the model.
- ApiRoutes.ApiRoutes.List: states the answer for any listing of the directory, not for one particular order of `readdir`, because the order of entries within the file system is not fixed by the source.
- Server.Server.HandleRequest: is stated for the listing the storage gives for this request, for the same reason.

## Findings

| source | as written | input that shows it | evidently intended | confidence | as-written member | corrected member |
|---|---|---|---|---|---|---|
| backend/src/services/thumbnail.ts:38-39 | `generate` joins the uploaded file's name, unchecked, onto `.thumbnails`. `upload` passes the raw `file.name` (api-routes.ts:190), while the stored file's place is `normalizePath(join(path, file.name))` | uploading a file named `../../x.png` with `path=a/b`: the file is stored as `x.png`, and its thumbnail is written to `<storageRoot>/../x.png.thumb.png`, outside the storage root | each thumbnail lives in `.thumbnails`, named after the stored file's base name | not executed | Thumbnail.ClimbingUploadLeavesTree | Thumbnail.CorrectedGenerateStaysInThumbnailDir |

The model runs `generate` as written (`GenerateStep`), in the service and in `upload`. `CorrectedGenerateStep` is the corrected operation; `GenerateAgreesOnPlainNames` proves that the two agree on every name without `/`, which covers the names the thumbnail and delete routes pass. `hasThumbnail` and `deleteThumbnail` likewise act at the place the code joins, and `PresentAtKeyOfPlainName` shows that for such names this is the corrected key.
