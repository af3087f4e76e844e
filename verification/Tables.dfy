/**
 The database tables and storage backends as values
 (crates/depot-db/migrations, crates/depot-store/src/catalog.rs).

 A project is identified by its slug. A row of `path_infos` is kept together with its reference and
 signature rows. Times are milliseconds on one clock.
 */
module Tables {
  import opened Wrappers
  import opened Bytes
  import opened Text
  import opened NixHash
  import opened NarInfo

  datatype Project = Project(storageId: string, isPublic: bool)

  datatype BuildStatus = Pending | Finalized

  datatype Build = Build(project: string, refName: string, status: BuildStatus, createdAt: int, finalizedAt: Option<int>)

  datatype RefRow = RefRow(buildId: string, updatedAt: int)

  datatype PinScope = GlobalScope | ProjectScope(project: string)

  datatype Pin = Pin(storePathHash: string, storePath: string)

  datatype Rule = Rule(priority: nat, refPattern: string, ttlSeconds: Option<nat>, keepBuilds: Option<nat>)

  datatype Policy = Policy(keepLatest: nat, graceSeconds: nat, rules: seq<Rule>)

  datatype Metadata = Metadata(contentType: string, contentLength: Option<nat>, etag: Option<string>)

  datatype ObjectRow = ObjectRow(metadata: Metadata, deletedAt: Option<int>, firstDeletedAt: Option<int>)

  datatype ObjectKind = NarObject | ListingObject | LogObject | RealisationObject

  datatype ObjectKey = ObjectKey(storageId: string, path: string)

  datatype PathObject = PathObject(storePathHash: string, path: string, kind: ObjectKind)

  datatype BuildPath = BuildPath(buildId: string, storePathHash: string)

  datatype RefKey = RefKey(project: string, refName: string)

  datatype PinKey = PinKey(scope: PinScope, name: string)

  datatype Db = Db(
    projects: map<string, Project>,
    policies: map<string, Policy>,
    paths: map<string, NarInfo>,
    builds: map<string, Build>,
    buildPaths: set<BuildPath>,
    refs: map<RefKey, RefRow>,
    pathObjects: set<PathObject>,
    objects: map<ObjectKey, ObjectRow>,
    pins: map<PinKey, Pin>)

  /** The bytes of one stored object; no object reaches 2^63 bytes. */
  type Blob = s: seq<Byte> | |s| <= I64_MAX

  /** The contents of all backends; an object is addressed by its backend and its path there. */
  type Blobs = map<ObjectKey, Blob>

  datatype World = World(db: Db, blobs: Blobs)

  /**
   What does not change during a run: the store directory, the pattern matcher, the configured
   backends, those of them that take multipart uploads, the default backend, and which objects each
   enabled upstream of a project serves.
   */
  datatype Config = Config(
    storeDir: StoreDir,
    glob: (string, string) -> bool,
    backends: set<string>,
    multipart: set<string>,
    defaultStorage: string,
    upstreams: map<string, seq<set<string>>>)

  function UpstreamsOf(cfg: Config, project: string): (r: seq<set<string>>) {
    if project in cfg.upstreams then cfg.upstreams[project] else []
  }

  predicate ServedUpstream(upstreams: seq<set<string>>, path: string) {
    exists i :: 0 <= i < |upstreams| && path in upstreams[i]
  }

  /** What a backend reports about an object it holds. */
  function HeadMetadata(bytes: Blob): (m: Metadata) {
    Metadata("application/octet-stream", Some(|bytes|), None)
  }

  /** Whole seconds since the epoch at a time. */
  function UnixSeconds(t: int): (s: int) {
    t / 1000
  }

  /** The whole seconds of a duration, rounded toward zero. */
  function WholeSeconds(d: int): (s: int) {
    if d >= 0 then d / 1000 else -(-d / 1000)
  }

  predicate KeyLeq(a: ObjectKey, b: ObjectKey) {
    if a.storageId == b.storageId then Leq(a.path, b.path) else Leq(a.storageId, b.storageId)
  }
}
