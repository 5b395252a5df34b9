/**
 * backend/src/types.ts: the records the handlers exchange.
 */
module Types {
  import opened Base

  /** The subset of the configuration the core reads. */
  datatype Config = Config(
    adminUsername: string,
    adminPasswordHash: string,
    storageRoot: string,
    baseUrl: string,
    readonly: bool,
    enableMetrics: bool,
    maxUploadSize: int,
    rateLimitRequests: int,
    rateLimitWindow: int,
    thumbnailSize: int,
    thumbnailQuality: int)

  datatype Kind = File | Directory

  /**
   * `FileInfo`. `lastModified` is the modification time in milliseconds;
   * the source carries it as its ISO-8601 rendering.
   */
  datatype FileInfo = FileInfo(
    name: string,
    path: string,
    kind: Kind,
    size: Option<nat>,
    mimeType: Option<string>,
    url: Option<string>,
    thumbnailUrl: Option<string>,
    lastModified: Option<nat>,
    etag: Option<string>)

  datatype ListResponse = ListResponse(
    path: string,
    items: seq<FileInfo>,
    totalSize: nat,
    totalCount: nat)

  /** `Session`; times are milliseconds since the epoch. */
  datatype Session = Session(id: string, username: string, createdAt: int, lastActivity: int)
}
