/**
 Registering, uploading and finalizing builds, and pins, as functions of the world
 (crates/depot-ingest/src/service.rs, crates/depot-ingest/src/planner.rs, crates/depot-db/src/builds.rs,
 crates/depot-db/src/paths.rs, crates/depot-db/src/objects.rs, crates/depot-db/src/pins.rs).
 A request that stops with an error keeps the rows it wrote before.
 */
module Ingest {
  import opened Wrappers
  import opened Ordering
  import opened Text
  import opened NixHash
  import opened DepotPath
  import opened NarInfo
  import opened Validation
  import opened Tables

  datatype IngestError =
    | UnknownProject(project: string)
    | DuplicateBuild(id: string)
    | UnknownBuild(id: string)
    | BuildNotPending(id: string)
    | InvalidPayload(publishError: PublishError)
    | InvalidPath(pathError: StorePathHashError)
    | InvalidNarHash(hashError: HashError)
    | NumberTooLarge
    | PathInfoDisappeared
    | ConflictingMetadata(storePath: string)
    | UnknownStorage(storageId: string)
    | NarInfoUpload
    | InvalidUploadPath(path: string)
    | PathNotInBuild(storePathHash: string)
    | UploadPathMismatch(path: string, registered: string)
    | MultipartUnsupported(storageId: string)
    | NoRegisteredPaths(id: string)
    | ObjectUnavailable(storePathHash: string, path: string)
    | UploadNotOpened(path: string)
    | StreamFailed(path: string)
    | CompletionRefused(path: string)
    | UnknownPinnedPath(storePathHash: string)
    | PinMismatch(storePath: string, registered: string)

  // ---- Rows ----

  /** `begin_build`; the id is fresh or the insert fails. */
  function BeginBuild(db: Db, project: string, refName: string, id: string, now: int): (r: Result<Db, IngestError>) {
    if project !in db.projects then Err(UnknownProject(project))
    else if id in db.builds then Err(DuplicateBuild(id))
    else Ok(db.(builds := db.builds[id := Build(project, refName, Pending, now, None)]))
  }

  /** The metadata row as it is read back: hash and content address are text. */
  function StoredForm(n: NarInfo): (r: NarInfo)
    requires n.narHash.Normalize().Ok?
  {
    n.(narHash := Raw(n.narHash.Normalize().value.Render()),
       ca := if n.ca.Some? then Some(RawAddress(n.ca.value.Format())) else None)
  }

  function AddressText(n: NarInfo): (r: Option<string>) {
    if n.ca.Some? then Some(n.ca.value.Format()) else None
  }

  /** `ensure_compatible_path_info`. */
  function EnsureCompatible(existing: NarInfo, incoming: NarInfo): (r: Result<(), IngestError>) {
    if existing.storePath != incoming.storePath || existing.url != incoming.url
       || existing.compression != incoming.compression then
      Err(ConflictingMetadata(incoming.storePath))
    else match (existing.narHash.Normalize(), incoming.narHash.Normalize())
      case (Err(e), _) => Err(InvalidNarHash(e))
      case (_, Err(e)) => Err(InvalidNarHash(e))
      case (Ok(a), Ok(b)) =>
        if a == b && existing.narSize == incoming.narSize
           && SortText(existing.references) == SortText(incoming.references)
           && existing.deriver == incoming.deriver && AddressText(existing) == AddressText(incoming)
        then Ok(()) else Err(ConflictingMetadata(incoming.storePath))
  }

  /** `upsert_path_info`: inserts a new row or checks the document against the row that is there. */
  function UpsertPathInfo(db: Db, n: NarInfo): (r: Result<Db, IngestError>) {
    match HashFromStorePath(n.storePath)
    case Err(e) => Err(InvalidPath(e))
    case Ok(h) =>
      match n.narHash.Normalize()
      case Err(e) => Err(InvalidNarHash(e))
      case Ok(_) =>
        if n.narSize > I64_MAX then Err(NumberTooLarge)
        else if h in db.paths then
          var _ :- EnsureCompatible(db.paths[h], n);
          Ok(db)
        else if StorePathTaken(db, n.storePath) then Err(PathInfoDisappeared)
        else Ok(db.(paths := db.paths[h := StoredForm(n)]))
  }

  predicate StorePathTaken(db: Db, storePath: string) {
    exists k :: k in db.paths && db.paths[k].storePath == storePath
  }

  /** `attach_build_path`. */
  function AttachBuildPath(db: Db, id: string, h: string): (r: Db) {
    db.(buildPaths := db.buildPaths + {BuildPath(id, h)})
  }

  /** `upsert_storage_object`: a new or refreshed row has no tombstone. */
  function UpsertObject(db: Db, key: ObjectKey, metadata: Metadata): (r: Db) {
    db.(objects := db.objects[key := ObjectRow(metadata, None, None)])
  }

  /** `link_path_object`. */
  function LinkPath(db: Db, h: string, path: string, kind: ObjectKind): (r: Db) {
    db.(pathObjects := db.pathObjects + {PathObject(h, path, kind)})
  }

  /** The only kind of link that the ingest service makes. */
  function LinkObject(db: Db, h: string, path: string): (r: Db) {
    LinkPath(db, h, path, NarObject)
  }

  /** `publish_build_to_ref`: one transaction, one reading of the clock. */
  function PublishBuild(db: Db, key: RefKey, id: string, now: int): (r: Db)
    requires id in db.builds
  {
    db.(refs := db.refs[key := RefRow(id, now)],
        builds := db.builds[id := db.builds[id].(status := Finalized, finalizedAt := Some(now))])
  }

  /** `upsert_pin`. */
  function UpsertPin(db: Db, key: PinKey, h: string, storePath: string): (r: Result<Db, IngestError>) {
    if key.scope.ProjectScope? && key.scope.project !in db.projects then Err(UnknownProject(key.scope.project))
    else if h !in db.paths then Err(UnknownPinnedPath(h))
    else if db.paths[h].storePath != storePath then Err(PinMismatch(storePath, db.paths[h].storePath))
    else Ok(db.(pins := db.pins[key := Pin(h, storePath)]))
  }

  /** `delete_pin`. */
  function DeletePin(db: Db, key: PinKey): (r: Result<Db, IngestError>) {
    if key.scope.ProjectScope? && key.scope.project !in db.projects then Err(UnknownProject(key.scope.project))
    else Ok(db.(pins := db.pins - {key}))
  }

  // ---- Registration ----

  /** `get_build_context`, and the check that the build is still pending. */
  function PendingBuild(db: Db, id: string): (r: Result<Build, IngestError>)
    ensures r.Ok? ==> id in db.builds && db.builds[id] == r.value
                      && r.value.status == Pending && r.value.project in db.projects
  {
    if id !in db.builds || db.builds[id].project !in db.projects then Err(UnknownBuild(id))
    else if db.builds[id].status != Pending then Err(BuildNotPending(id))
    else Ok(db.builds[id])
  }

  /** Validates, records and attaches the documents one after another, up to the first that fails. */
  function RegisterAll(cfg: Config, db: Db, id: string, narinfos: seq<NarInfo>): (r: (Db, Result<(), IngestError>))
    ensures r.0 == db.(paths := r.0.paths, buildPaths := r.0.buildPaths)
    decreases |narinfos|
  {
    if narinfos == [] then (db, Ok(()))
    else match ValidatePublish(cfg.storeDir, narinfos[0])
      case Err(e) => (db, Err(InvalidPayload(e)))
      case Ok(h) =>
        match UpsertPathInfo(db, narinfos[0])
        case Err(e) => (db, Err(e))
        case Ok(db') => RegisterAll(cfg, AttachBuildPath(db', id, h), id, narinfos[1..])
  }

  datatype PlannedUpload = PlannedUpload(storePathHash: string, path: string)

  predicate IsNarPath(path: string) {
    ParseObjectPath(path).Some? && ParseObjectPath(path).value.NarPath?
  }

  lemma AddressedIsNarPath(doc: NarInfo)
    requires ContentAddressed(doc)
    ensures IsNarPath(doc.url)
  {
    var digest, c :| States(doc, digest, c) && IsSha256Digest(digest) && doc.url == PrintNar(digest, c);
    ParsePrinted(digest, c);
  }

  /** `plan_required_uploads`: what neither the backend nor an upstream has. */
  function PlanUploads(blobs: Blobs, storageId: string, upstreams: seq<set<string>>, narinfos: seq<NarInfo>)
    : (r: Result<seq<PlannedUpload>, IngestError>)
    decreases |narinfos|
  {
    if narinfos == [] then Ok([])
    else match HashFromStorePath(narinfos[0].storePath)
      case Err(e) => Err(InvalidPath(e))
      case Ok(h) =>
        var url := narinfos[0].url;
        var rest :- PlanUploads(blobs, storageId, upstreams, narinfos[1..]);
        if !IsNarPath(url) || ObjectKey(storageId, url) in blobs || ServedUpstream(upstreams, url) then Ok(rest)
        else Ok([PlannedUpload(h, url)] + rest)
  }

  /** Records and links one object, if it is a NAR that the backend holds. */
  function LinkIfLocal(db: Db, blobs: Blobs, key: ObjectKey, h: string): (r: Db) {
    if IsNarPath(key.path) && key in blobs then LinkObject(UpsertObject(db, key, HeadMetadata(blobs[key])), h, key.path)
    else db
  }

  /** Records and links the objects that the backend already holds. */
  function LinkLocal(db: Db, blobs: Blobs, storageId: string, narinfos: seq<NarInfo>): (r: (Db, Result<(), IngestError>))
    decreases |narinfos|
  {
    if narinfos == [] then (db, Ok(()))
    else match HashFromStorePath(narinfos[0].storePath)
      case Err(e) => (db, Err(InvalidPath(e)))
      case Ok(h) =>
        LinkLocal(LinkIfLocal(db, blobs, ObjectKey(storageId, narinfos[0].url), h), blobs, storageId, narinfos[1..])
  }

  /** What follows the registration of the documents: plans the uploads and records what is there already. */
  function PlanAndLink(cfg: Config, db: Db, blobs: Blobs, project: string, narinfos: seq<NarInfo>)
    : (r: (Db, Result<seq<PlannedUpload>, IngestError>))
    requires project in db.projects
    ensures r.0 == db || r.0 == LinkLocal(db, blobs, db.projects[project].storageId, narinfos).0
  {
    var storageId := db.projects[project].storageId;
    if storageId !in cfg.backends then (db, Err(UnknownStorage(storageId)))
    else match PlanUploads(blobs, storageId, UpstreamsOf(cfg, project), narinfos)
      case Err(e) => (db, Err(e))
      case Ok(planned) =>
        var (linked, done) := LinkLocal(db, blobs, storageId, narinfos);
        (linked, match done case Err(e) => Err(e) case Ok(_) => Ok(planned))
  }

  /** `register_paths`. */
  function RegisterPaths(cfg: Config, w: World, id: string, narinfos: seq<NarInfo>)
    : (r: (World, Result<seq<PlannedUpload>, IngestError>))
  {
    match PendingBuild(w.db, id)
    case Err(e) => (w, Err(e))
    case Ok(build) =>
      var (db1, registered) := RegisterAll(cfg, w.db, id, narinfos);
      if registered.Err? then (w.(db := db1), Err(registered.error))
      else
        var (db2, planned) := PlanAndLink(cfg, db1, w.blobs, build.project, narinfos);
        (w.(db := db2), planned)
  }

  /** The first planned upload whose path the backend does not open. */
  function FirstUnopened(planned: seq<PlannedUpload>, unopened: set<string>): (r: Option<string>)
    ensures r.None? <==> forall p :: p in planned ==> p.path !in unopened
  {
    if planned == [] then None
    else if planned[0].path in unopened then Some(planned[0].path)
    else FirstUnopened(planned[1..], unopened)
  }

  /** The answer: the plan, unless a backend that takes multipart uploads does not open one of them. */
  function RegisterAnswer(cfg: Config, w: World, id: string, narinfos: seq<NarInfo>, unopened: set<string>)
    : (r: Result<seq<PlannedUpload>, IngestError>)
    ensures r.Ok? ==> RegisterPaths(cfg, w, id, narinfos).1 == r
  {
    var build :- PendingBuild(w.db, id);
    var planned :- RegisterPaths(cfg, w, id, narinfos).1;
    if w.db.projects[build.project].storageId in cfg.multipart && FirstUnopened(planned, unopened).Some? then
      Err(UploadNotOpened(FirstUnopened(planned, unopened).value))
    else Ok(planned)
  }

  lemma AllOpened(cfg: Config, w: World, id: string, narinfos: seq<NarInfo>)
    ensures RegisterAnswer(cfg, w, id, narinfos, {}) == RegisterPaths(cfg, w, id, narinfos).1
  {
    hide RegisterAll, PlanAndLink;
  }

  // ---- Uploads ----

  /** `validate_upload_target`: the object key, when the path is the registered one of a pending build. */
  function UploadTarget(cfg: Config, db: Db, id: string, h: string, path: string): (r: Result<ObjectKey, IngestError>)
    ensures r.Ok? ==>
              && id in db.builds && db.builds[id].status == Pending && db.builds[id].project in db.projects
              && BuildPath(id, h) in db.buildPaths && h in db.paths && db.paths[h].url == path
              && r.value == ObjectKey(db.projects[db.builds[id].project].storageId, path)
              && r.value.storageId in cfg.backends
  {
    var build :- PendingBuild(db, id);
    match ParseObjectPath(path)
    case Some(NarPath(_, _)) =>
      if BuildPath(id, h) !in db.buildPaths || h !in db.paths then Err(PathNotInBuild(h))
      else if path != db.paths[h].url then Err(UploadPathMismatch(path, db.paths[h].url))
      else
        var storageId := db.projects[build.project].storageId;
        if storageId !in cfg.backends then Err(UnknownStorage(storageId)) else Ok(ObjectKey(storageId, path))
    case Some(NarInfoPath(_)) => Err(NarInfoUpload)
    case _ => Err(InvalidUploadPath(path))
  }

  /** `upload_object`: the bytes, then the row, then the link. */
  function UploadObject(cfg: Config, w: World, id: string, h: string, path: string, bytes: Blob)
    : (r: (World, Result<(), IngestError>))
  {
    match UploadTarget(cfg, w.db, id, h, path)
    case Err(e) => (w, Err(e))
    case Ok(key) =>
      (World(LinkObject(UpsertObject(w.db, key, HeadMetadata(bytes)), h, path), w.blobs[key := bytes]), Ok(()))
  }

  /**
   `complete_multipart_upload`, with the object the backend assembled and the length the client
   reports. A length the row cannot hold makes recording fail, and the object is deleted again.
   */
  function CompleteMultipart(cfg: Config, w: World, id: string, h: string, path: string, bytes: Blob, reported: U64,
                             etag: Option<string>)
    : (r: (World, Result<(), IngestError>))
  {
    match UploadTarget(cfg, w.db, id, h, path)
    case Err(e) => (w, Err(e))
    case Ok(key) =>
      if key.storageId !in cfg.multipart then (w, Err(MultipartUnsupported(key.storageId)))
      else if reported > I64_MAX then (w.(blobs := w.blobs - {key}), Err(NumberTooLarge))
      else
        var metadata := Metadata("application/octet-stream", Some(reported), etag);
        (World(LinkObject(UpsertObject(w.db, key, metadata), h, path), w.blobs[key := bytes]), Ok(()))
  }

  // ---- Finalizing ----

  /** `list_build_path_nar_objects`, in the order of the hashes. */
  ghost function BuildHashes(db: Db, id: string): (r: seq<string>)
    ensures forall h :: h in r <==> BuildPath(id, h) in db.buildPaths && h in db.paths
  {
    LeqIsTotalOrder();
    var s := set bp | bp in db.buildPaths && bp.buildId == id && bp.storePathHash in db.paths :: bp.storePathHash;
    AscendingMembers(s, Leq);
    assert forall h :: h in s <==> BuildPath(id, h) in db.buildPaths && h in db.paths;
    Ascending(s, Leq)
  }

  /** Checks the objects one after another, recording the local ones, up to the first that is nowhere. */
  function CheckObjects(db: Db, paths: map<string, NarInfo>, blobs: Blobs, storageId: string,
                        upstreams: seq<set<string>>, hashes: seq<string>)
    : (r: (Db, Result<(), IngestError>))
    requires forall h :: h in hashes ==> h in paths
    ensures r.0 == db.(objects := r.0.objects, pathObjects := r.0.pathObjects)
    decreases |hashes|
  {
    if hashes == [] then (db, Ok(()))
    else
      assert hashes[0] in hashes;
      var key := ObjectKey(storageId, paths[hashes[0]].url);
      if key in blobs then
        var db' := LinkObject(UpsertObject(db, key, HeadMetadata(blobs[key])), hashes[0], key.path);
        CheckObjects(db', paths, blobs, storageId, upstreams, hashes[1..])
      else if ServedUpstream(upstreams, key.path) then
        CheckObjects(db, paths, blobs, storageId, upstreams, hashes[1..])
      else (db, Err(ObjectUnavailable(hashes[0], key.path)))
  }

  /** Checks that every path of the build has its object in the backend or upstream. */
  ghost function CheckBuild(cfg: Config, w: World, id: string, project: string): (r: (Db, Result<(), IngestError>))
    requires project in w.db.projects
  {
    var hashes := BuildHashes(w.db, id);
    var storageId := w.db.projects[project].storageId;
    if hashes == [] then (w.db, Err(NoRegisteredPaths(id)))
    else if storageId !in cfg.backends then (w.db, Err(UnknownStorage(storageId)))
    else CheckObjects(w.db, w.db.paths, w.blobs, storageId, UpstreamsOf(cfg, project), hashes)
  }

  /** `finalize_build`. */
  ghost function FinalizeBuild(cfg: Config, w: World, id: string, now: int): (r: (World, Result<(), IngestError>)) {
    match PendingBuild(w.db, id)
    case Err(e) => (w, Err(e))
    case Ok(build) =>
      var (db1, checked) := CheckBuild(cfg, w, id, build.project);
      if checked.Err? then (w.(db := db1), checked)
      else
        assert db1.builds == w.db.builds;
        (w.(db := PublishBuild(db1, RefKey(build.project, build.refName), id, now)), Ok(()))
  }
}
