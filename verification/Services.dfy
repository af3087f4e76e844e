/** The collector and the ingest service as objects that work on one database and one set of backends
    (crates/depot-ingest/src, crates/depot-read/src/local_objects.rs, crates/depot-store/src/catalog.rs). */
module Services {
  import opened Wrappers
  import opened Ordering
  import opened Text
  import opened NixHash
  import opened NarInfo
  import opened Validation
  import opened Tables
  import opened Liveness
  import opened Collection
  import opened Ingest
  import opened ReadStore
  import opened Database
  import opened Multipart

  /** The configured backends and what they hold. */
  class StorageCatalog {
    const cfg: Config
    var blobs: Blobs

    constructor (cfg: Config)
      ensures this.cfg == cfg && blobs == map[]
    {
      this.cfg := cfg;
      blobs := map[];
    }

    predicate IsConfigured(storageId: string) {
      storageId in cfg.backends
    }

    method Head(key: ObjectKey) returns (r: Option<Metadata>)
      ensures r == if key in blobs then Some(HeadMetadata(blobs[key])) else None
    {
      r := if key in blobs then Some(HeadMetadata(blobs[key])) else None;
    }

    method GetBytes(key: ObjectKey) returns (r: Option<Blob>)
      ensures r == if key in blobs then Some(blobs[key]) else None
    {
      r := if key in blobs then Some(blobs[key]) else None;
    }

    method PutBytes(key: ObjectKey, bytes: Blob)
      modifies `blobs
      ensures blobs == old(blobs)[key := bytes]
    {
      blobs := blobs[key := bytes];
    }

    method Delete(key: ObjectKey)
      modifies `blobs
      ensures blobs == old(blobs) - {key}
    {
      blobs := blobs - {key};
    }
  }

  const DEFAULT_GC_GRACE_PERIOD_SECONDS: int := 6 * 60 * 60

  class GcService {
    const db: SqliteDatabase
    const catalog: StorageCatalog

    constructor (db: SqliteDatabase, catalog: StorageCatalog)
      ensures this.db == db && this.catalog == catalog
    {
      this.db, this.catalog := db, catalog;
    }

    function State(): (w: World)
      reads db, catalog
    {
      World(db.Snapshot(), catalog.blobs)
    }

    /** Deletes from the backends; what was deleted, unless a backend fails. */
    method DeleteReadyObjects(ready: seq<ObjectKey>, failing: set<ObjectKey>) returns (r: Result<seq<ObjectKey>, ObjectKey>)
      modifies catalog`blobs
      ensures (catalog.blobs, r) == DeleteBlobs(catalog.cfg, old(catalog.blobs), ready, failing)
    {
      var deleted: seq<ObjectKey> := [];
      NothingDone(DeleteBlobs(catalog.cfg, catalog.blobs, ready, failing));
      for i := 0 to |ready|
        invariant DeleteBlobs(catalog.cfg, old(catalog.blobs), ready, failing)
                  == Continued(DeleteBlobs(catalog.cfg, catalog.blobs, ready[i..], failing), deleted)
      {
        var key := ready[i];
        assert ready[i..][0] == key && ready[i..][1..] == ready[i + 1..];
        if !catalog.IsConfigured(key.storageId) {
          continue;
        }
        if key in failing {
          return Err(key);
        }
        catalog.Delete(key);
        OneMoreDone(DeleteBlobs(catalog.cfg, catalog.blobs, ready[i + 1..], failing), deleted, key);
        deleted := deleted + [key];
      }
      assert deleted + [] == deleted;
      r := Ok(deleted);
    }

    method RunLocalGcWithGracePeriod(dryRun: bool, grace: int, failing: set<ObjectKey>, now: int)
      returns (r: Result<seq<string>, ObjectKey>)
      modifies db`storageObjects, catalog`blobs
      ensures (State(), r) == GcPass(catalog.cfg, old(State()), dryRun, grace, failing, now)
    {
      var cfg := catalog.cfg;
      if dryRun {
        var stale := db.ListStaleStorageObjects(cfg, now);
        return Ok(PathsOf(stale));
      }
      ObjectsDoNotMatter(cfg, db.Snapshot(), Cleared(db.storageObjects, LiveObjects(cfg, db.Snapshot(), now)), now);
      db.ClearDeletedStateForLiveStorageObjects(cfg, now);
      db.MarkStaleStorageObjects(cfg, now);
      var ready := db.ListStorageObjectsReadyForDeletion(grace, now);
      var deleted := DeleteReadyObjects(ready, failing);
      if deleted.Err? {
        return Err(deleted.error);
      }
      db.DeleteStorageObjects(deleted.value);
      return Ok(PathsOf(deleted.value));
    }

    /** `run_local_gc`: with a grace period of six hours. */
    method RunLocalGc(dryRun: bool, failing: set<ObjectKey>, now: int) returns (r: Result<seq<string>, ObjectKey>)
      modifies db`storageObjects, catalog`blobs
      ensures (State(), r) == GcPass(catalog.cfg, old(State()), dryRun, 21600, failing, now)
    {
      r := RunLocalGcWithGracePeriod(dryRun, DEFAULT_GC_GRACE_PERIOD_SECONDS, failing, now);
    }
  }

  /** The outcome of deleting the rest, after these were deleted. */
  function Continued(rest: (Blobs, Result<seq<ObjectKey>, ObjectKey>), deleted: seq<ObjectKey>)
    : (r: (Blobs, Result<seq<ObjectKey>, ObjectKey>))
  {
    (rest.0, match rest.1 case Ok(ks) => Ok(deleted + ks) case Err(e) => Err(e))
  }

  lemma NothingDone(rest: (Blobs, Result<seq<ObjectKey>, ObjectKey>))
    ensures Continued(rest, []) == rest
  {
    if rest.1.Ok? { assert [] + rest.1.value == rest.1.value; }
  }

  lemma OneMoreDone(rest: (Blobs, Result<seq<ObjectKey>, ObjectKey>), deleted: seq<ObjectKey>, key: ObjectKey)
    ensures Continued(Continued(rest, [key]), deleted) == Continued(rest, deleted + [key])
  {
    if rest.1.Ok? { assert deleted + ([key] + rest.1.value) == deleted + [key] + rest.1.value; }
  }

  /** `DEFAULT_MULTIPART_PART_SIZE`. */
  const MULTIPART_PART_SIZE: nat := 16 * 1024 * 1024

  datatype UploadMethod = Proxy | S3Multipart(uploadId: string, partSize: nat)

  datatype RequiredUpload = RequiredUpload(planned: PlannedUpload, uploadMethod: UploadMethod)

  /** Each planned upload in order, with an opened upload where the backend takes multipart uploads. */
  predicate WithMethods(multipart: bool, planned: seq<PlannedUpload>, uploadIds: nat -> string, uploads: seq<RequiredUpload>) {
    && |uploads| == |planned|
    && forall i :: 0 <= i < |planned| ==>
         && uploads[i].planned == planned[i]
         && uploads[i].uploadMethod == if multipart then S3Multipart(uploadIds(i), 16_777_216) else Proxy
  }

  /** What the backend assembles from the parts of an upload: nothing without parts or with a bad part number. */
  function Assembled(assembles: (string, seq<CompletedPart>) -> Option<Blob>, uploadId: string, parts: seq<CompletedPart>)
    : (r: Option<Blob>)
  {
    if parts == [] || exists part :: part in parts && !ValidPartNumber(part.number) then None
    else assembles(uploadId, parts)
  }

  lemma AssembledExactly(assembles: (string, seq<CompletedPart>) -> Option<Blob>, uploadId: string, parts: seq<CompletedPart>)
    ensures Assembled(assembles, uploadId, parts)
            == if |parts| > 0 && forall i :: 0 <= i < |parts| ==> 1 <= parts[i].number <= 10_000 then
                 assembles(uploadId, parts)
               else None
  {
    if part :| part in parts && !ValidPartNumber(part.number) {
      var i: nat :| i < |parts| && parts[i] == part;
    }
  }

  class IngestService {
    const db: SqliteDatabase
    const catalog: StorageCatalog

    constructor (db: SqliteDatabase, catalog: StorageCatalog)
      ensures this.db == db && this.catalog == catalog
    {
      this.db, this.catalog := db, catalog;
    }

    function State(): (w: World)
      reads db, catalog
    {
      World(db.Snapshot(), catalog.blobs)
    }

    // ---- Registering ----

    /** Validates, records and attaches one document after another. */
    method RegisterDocuments(id: string, narinfos: seq<NarInfo>) returns (r: Result<(), IngestError>)
      modifies db`pathInfos, db`buildPaths
      ensures (db.Snapshot(), r) == RegisterAll(catalog.cfg, old(db.Snapshot()), id, narinfos)
    {
      for i := 0 to |narinfos|
        invariant RegisterAll(catalog.cfg, old(db.Snapshot()), id, narinfos)
                  == RegisterAll(catalog.cfg, db.Snapshot(), id, narinfos[i..])
      {
        var n := narinfos[i];
        assert narinfos[i..][0] == n && narinfos[i..][1..] == narinfos[i + 1..];
        var hash := ValidatePublish(catalog.cfg.storeDir, n);
        if hash.Err? {
          return Err(InvalidPayload(hash.error));
        }
        var recorded := db.UpsertPathInfo(n);
        if recorded.Err? {
          return recorded;
        }
        db.AttachBuildPath(id, hash.value);
      }
      r := Ok(());
    }

    method ObjectExistsUpstream(upstreams: seq<set<string>>, path: string) returns (found: bool)
      ensures found <==> ServedUpstream(upstreams, path)
    {
      for i := 0 to |upstreams|
        invariant forall j :: 0 <= j < i ==> path !in upstreams[j]
      {
        if path in upstreams[i] {
          return true;
        }
      }
      return false;
    }

    /** `plan_required_uploads`. */
    method PlanRequiredUploads(storageId: string, upstreams: seq<set<string>>, narinfos: seq<NarInfo>)
      returns (r: Result<seq<PlannedUpload>, IngestError>)
      ensures r == PlanUploads(catalog.blobs, storageId, upstreams, narinfos)
    {
      var planned: seq<PlannedUpload> := [];
      NothingPlanned(PlanUploads(catalog.blobs, storageId, upstreams, narinfos));
      for i := 0 to |narinfos|
        invariant PlanUploads(catalog.blobs, storageId, upstreams, narinfos)
                  == PlannedFirst(planned, PlanUploads(catalog.blobs, storageId, upstreams, narinfos[i..]))
      {
        var n := narinfos[i];
        assert narinfos[i..][0] == n && narinfos[i..][1..] == narinfos[i + 1..];
        var hash := HashFromStorePath(n.storePath);
        if hash.Err? {
          return Err(InvalidPath(hash.error));
        }
        if !IsNarPath(n.url) {
          continue;
        }
        var local := catalog.Head(ObjectKey(storageId, n.url));
        if local.Some? {
          continue;
        }
        var upstream := ObjectExistsUpstream(upstreams, n.url);
        if upstream {
          continue;
        }
        OneMorePlanned(planned, PlannedUpload(hash.value, n.url),
                       PlanUploads(catalog.blobs, storageId, upstreams, narinfos[i + 1..]));
        planned := planned + [PlannedUpload(hash.value, n.url)];
      }
      assert planned + [] == planned;
      r := Ok(planned);
    }

    /** Records and links what the backend already holds. */
    method LinkLocalObjects(storageId: string, narinfos: seq<NarInfo>) returns (r: Result<(), IngestError>)
      modifies db`storageObjects, db`pathObjects
      ensures (db.Snapshot(), r) == LinkLocal(old(db.Snapshot()), catalog.blobs, storageId, narinfos)
    {
      for i := 0 to |narinfos|
        invariant LinkLocal(old(db.Snapshot()), catalog.blobs, storageId, narinfos)
                  == LinkLocal(db.Snapshot(), catalog.blobs, storageId, narinfos[i..])
      {
        var n := narinfos[i];
        assert narinfos[i..][0] == n && narinfos[i..][1..] == narinfos[i + 1..];
        var hash := HashFromStorePath(n.storePath);
        if hash.Err? {
          return Err(InvalidPath(hash.error));
        }
        if !IsNarPath(n.url) {
          continue;
        }
        var metadata := catalog.Head(ObjectKey(storageId, n.url));
        if metadata.Some? {
          var recorded := db.UpsertStorageObject(ObjectKey(storageId, n.url), metadata.value);
          if recorded.Err? {
            return recorded;
          }
          db.LinkPathObject(hash.value, n.url, NarObject);
        }
      }
      r := Ok(());
    }

    /** Opens an upload for each planned one, where the backend takes multipart uploads. */
    method OpenUploads(storageId: string, planned: seq<PlannedUpload>, unopened: set<string>, uploadIds: nat -> string)
      returns (r: Result<seq<RequiredUpload>, IngestError>)
      ensures storageId in catalog.cfg.multipart && FirstUnopened(planned, unopened).Some? ==>
                r == Err(UploadNotOpened(FirstUnopened(planned, unopened).value))
      ensures storageId !in catalog.cfg.multipart || FirstUnopened(planned, unopened).None? ==>
                r.Ok? && WithMethods(storageId in catalog.cfg.multipart, planned, uploadIds, r.value)
    {
      var uploads: seq<RequiredUpload> := [];
      for i := 0 to |planned|
        invariant WithMethods(storageId in catalog.cfg.multipart, planned[..i], uploadIds, uploads)
        invariant storageId in catalog.cfg.multipart ==>
                    FirstUnopened(planned, unopened) == FirstUnopened(planned[i..], unopened)
      {
        assert planned[i..][0] == planned[i] && planned[i..][1..] == planned[i + 1..];
        var uploadMethod := Proxy;
        if storageId in catalog.cfg.multipart {
          if planned[i].path in unopened {
            return Err(UploadNotOpened(planned[i].path));
          }
          uploadMethod := S3Multipart(uploadIds(i), MULTIPART_PART_SIZE);
        }
        uploads := uploads + [RequiredUpload(planned[i], uploadMethod)];
      }
      assert planned[..|planned|] == planned;
      r := Ok(uploads);
    }

    /** `register_paths`, with the paths whose upload the backend does not open and the ids of those it opens. */
    method RegisterPaths(id: string, narinfos: seq<NarInfo>, unopened: set<string>, uploadIds: nat -> string)
      returns (r: Result<seq<RequiredUpload>, IngestError>)
      modifies db`pathInfos, db`buildPaths, db`storageObjects, db`pathObjects
      ensures State() == Ingest.RegisterPaths(catalog.cfg, old(State()), id, narinfos).0
      ensures match RegisterAnswer(catalog.cfg, old(State()), id, narinfos, unopened)
              case Err(error) => r == Err(error)
              case Ok(planned) =>
                var storageId := old(db.projects[db.builds[id].project].storageId);
                r.Ok? && WithMethods(storageId in catalog.cfg.multipart, planned, uploadIds, r.value)
    {
      var build := PendingBuild(db.Snapshot(), id);
      if build.Err? {
        return Err(build.error);
      }
      var registered := RegisterDocuments(id, narinfos);
      if registered.Err? {
        return Err(registered.error);
      }
      var storageId := db.projects[build.value.project].storageId;
      if !catalog.IsConfigured(storageId) {
        return Err(UnknownStorage(storageId));
      }
      var planned := PlanRequiredUploads(storageId, UpstreamsOf(catalog.cfg, build.value.project), narinfos);
      if planned.Err? {
        return Err(planned.error);
      }
      var linked := LinkLocalObjects(storageId, narinfos);
      if linked.Err? {
        return Err(linked.error);
      }
      r := OpenUploads(storageId, planned.value, unopened, uploadIds);
    }

    // ---- Uploading ----

    /** `upload_object`; the bytes are `taken` unless the stream fails, and deleted again when there can be no row. */
    method UploadObject(id: string, h: string, path: string, bytes: Blob, taken: bool) returns (r: Result<(), IngestError>)
      modifies db`storageObjects, db`pathObjects, catalog`blobs
      ensures taken ==> (State(), r) == Ingest.UploadObject(catalog.cfg, old(State()), id, h, path, bytes)
      ensures !taken ==>
                State() == old(State())
                && r == match UploadTarget(catalog.cfg, old(db.Snapshot()), id, h, path)
                        case Err(error) => Err(error)
                        case Ok(_) => Err(StreamFailed(path))
    {
      var target := UploadTarget(catalog.cfg, db.Snapshot(), id, h, path);
      if target.Err? {
        return Err(target.error);
      }
      if !taken {
        return Err(StreamFailed(path));
      }
      catalog.PutBytes(target.value, bytes);
      r := Persist(target.value, h, HeadMetadata(bytes));
    }

    /** Writes row and link of an object that is in its backend, or deletes it there. */
    method Persist(key: ObjectKey, h: string, metadata: Metadata) returns (r: Result<(), IngestError>)
      modifies db`storageObjects, db`pathObjects, catalog`blobs
      ensures metadata.contentLength.GetOr(0) <= I64_MAX ==>
                r == Ok(())
                && State() == World(LinkObject(UpsertObject(old(db.Snapshot()), key, metadata), h, key.path), old(catalog.blobs))
      ensures metadata.contentLength.GetOr(0) > I64_MAX ==>
                r == Err(IngestError.NumberTooLarge) && State() == World(old(db.Snapshot()), old(catalog.blobs) - {key})
    {
      r := db.UpsertStorageObject(key, metadata);
      if r.Err? {
        catalog.Delete(key);
      } else {
        db.LinkPathObject(h, key.path, NarObject);
      }
    }

    /** `complete_multipart_upload`, with what the backend would assemble from the parts of each upload. */
    method CompleteMultipartUpload(id: string, h: string, path: string, uploadId: string, parts: seq<CompletedPart>,
                                   assembles: (string, seq<CompletedPart>) -> Option<Blob>, reported: U64,
                                   etag: Option<string>)
      returns (r: Result<(), IngestError>)
      modifies db`storageObjects, db`pathObjects, catalog`blobs
      ensures match Assembled(assembles, uploadId, parts)
              case Some(bytes) =>
                (State(), r) == CompleteMultipart(catalog.cfg, old(State()), id, h, path, bytes, reported, etag)
              case None =>
                State() == old(State())
                && r == match UploadTarget(catalog.cfg, old(db.Snapshot()), id, h, path)
                        case Err(error) => Err(error)
                        case Ok(key) => Err(if key.storageId in catalog.cfg.multipart then IngestError.CompletionRefused(path)
                                            else MultipartUnsupported(key.storageId))
    {
      var target := UploadTarget(catalog.cfg, db.Snapshot(), id, h, path);
      if target.Err? {
        return Err(target.error);
      }
      if target.value.storageId !in catalog.cfg.multipart {
        return Err(MultipartUnsupported(target.value.storageId));
      }
      for i := 0 to |parts|
        invariant forall j :: 0 <= j < i ==> ValidPartNumber(parts[j].number)
      {
        if !ValidPartNumber(parts[i].number) {
          assert parts[i] in parts;
          return Err(IngestError.CompletionRefused(path));
        }
      }
      if parts == [] || assembles(uploadId, parts).None? {
        return Err(IngestError.CompletionRefused(path));
      }
      catalog.PutBytes(target.value, assembles(uploadId, parts).value);
      assert catalog.blobs - {target.value} == old(catalog.blobs) - {target.value};
      r := Persist(target.value, h, Metadata("application/octet-stream", Some(reported), etag));
    }

    // ---- Finalizing ----

    /** Checks one path after another, recording the objects that are local. */
    method CheckBuildObjects(storageId: string, upstreams: seq<set<string>>, hashes: seq<string>)
      returns (r: Result<(), IngestError>)
      requires forall h :: h in hashes ==> h in db.pathInfos
      modifies db`storageObjects, db`pathObjects
      ensures (db.Snapshot(), r)
              == CheckObjects(old(db.Snapshot()), old(db.pathInfos), catalog.blobs, storageId, upstreams, hashes)
    {
      for i := 0 to |hashes|
        invariant CheckObjects(old(db.Snapshot()), old(db.pathInfos), catalog.blobs, storageId, upstreams, hashes)
                  == CheckObjects(db.Snapshot(), old(db.pathInfos), catalog.blobs, storageId, upstreams, hashes[i..])
      {
        var h := hashes[i];
        assert hashes[i..][0] == h && hashes[i..][1..] == hashes[i + 1..];
        var key := ObjectKey(storageId, db.pathInfos[h].url);
        var metadata := catalog.Head(key);
        if metadata.Some? {
          var recorded := db.UpsertStorageObject(key, metadata.value);
          if recorded.Err? {
            return recorded;
          }
          db.LinkPathObject(h, key.path, NarObject);
          continue;
        }
        var upstream := ObjectExistsUpstream(upstreams, key.path);
        if !upstream {
          return Err(ObjectUnavailable(h, key.path));
        }
      }
      r := Ok(());
    }

    method FinalizeBuild(id: string, now: int) returns (r: Result<(), IngestError>)
      modifies db`storageObjects, db`pathObjects, db`projectRefs, db`builds
      ensures (State(), r) == Ingest.FinalizeBuild(catalog.cfg, old(State()), id, now)
    {
      var build := PendingBuild(db.Snapshot(), id);
      if build.Err? {
        return Err(build.error);
      }
      var hashes := db.ListBuildPathHashes(id);
      if hashes == [] {
        return Err(NoRegisteredPaths(id));
      }
      var storageId := db.projects[build.value.project].storageId;
      if !catalog.IsConfigured(storageId) {
        return Err(UnknownStorage(storageId));
      }
      var checked := CheckBuildObjects(storageId, UpstreamsOf(catalog.cfg, build.value.project), hashes);
      if checked.Err? {
        return checked;
      }
      db.PublishBuildToRef(RefKey(build.value.project, build.value.refName), id, now);
      return Ok(());
    }
  }

  /** The plan that starts with these uploads. */
  function PlannedFirst(planned: seq<PlannedUpload>, rest: Result<seq<PlannedUpload>, IngestError>)
    : (r: Result<seq<PlannedUpload>, IngestError>)
  {
    match rest case Ok(more) => Ok(planned + more) case Err(e) => Err(e)
  }

  lemma NothingPlanned(rest: Result<seq<PlannedUpload>, IngestError>)
    ensures PlannedFirst([], rest) == rest
  {
    if rest.Ok? { assert [] + rest.value == rest.value; }
  }

  lemma OneMorePlanned(planned: seq<PlannedUpload>, p: PlannedUpload, rest: Result<seq<PlannedUpload>, IngestError>)
    ensures PlannedFirst(planned, PlannedFirst([p], rest)) == PlannedFirst(planned + [p], rest)
  {
    if rest.Ok? { assert planned + ([p] + rest.value) == planned + [p] + rest.value; }
  }

  // ---- Reading ----

  lemma AvailableRow(cfg: Config, w: World, path: string, id: string)
    ensures id in RowsOf(w.db, path) ==> ObjectKey(id, path) in w.db.objects
    ensures id in Available(cfg, w, path)
            <==> id in RowsOf(w.db, path) && id in cfg.backends && ObjectKey(id, path) in w.blobs
  {
    if id in RowsOf(w.db, path) {
      var k :| k in w.db.objects && k.path == path && k.storageId == id && w.db.objects[k].deletedAt.None?;
      assert k == ObjectKey(id, path);
    }
    if id in Available(cfg, w, path) {
      var k :| k in w.db.objects && k.path == path && k.storageId == id && k in w.blobs && k.storageId in cfg.backends;
      assert k == ObjectKey(id, path);
    }
  }

  /** The first copy that can be served, in the order of trying, is the choice. */
  lemma FirstIsChoice(cfg: Config, w: World, preferred: Option<string>, path: string, ids: seq<string>, i: nat)
    requires Sorted(ids, Tried(preferred)) && (forall id :: id in ids <==> id in RowsOf(w.db, path))
    requires i < |ids| && ids[i] in Available(cfg, w, path)
    requires forall j :: 0 <= j < i ==> ids[j] !in Available(cfg, w, path)
    ensures IsChoice(Available(cfg, w, path), preferred, ids[i])
  {
    forall other | other in Available(cfg, w, path) ensures TriedBefore(preferred, ids[i], other) {
      AvailableRow(cfg, w, path, other);
      var j :| 0 <= j < |ids| && ids[j] == other;
      LeqIsTotalOrder();
      assert j > i ==> Tried(preferred)(ids[i], ids[j]);
    }
  }

  lemma NoneAvailable(cfg: Config, w: World, path: string, ids: seq<string>)
    requires forall id :: id in ids <==> id in RowsOf(w.db, path)
    requires forall j :: 0 <= j < |ids| ==> ids[j] !in Available(cfg, w, path)
    ensures Available(cfg, w, path) == {}
  {
    forall id ensures id !in Available(cfg, w, path) {
      AvailableRow(cfg, w, path, id);
    }
  }

  class DbBackedObjectStore {
    const db: SqliteDatabase
    const catalog: StorageCatalog

    constructor (db: SqliteDatabase, catalog: StorageCatalog)
      ensures this.db == db && this.catalog == catalog
    {
      this.db, this.catalog := db, catalog;
    }

    function State(): (w: World)
      reads db, catalog
    {
      World(db.Snapshot(), catalog.blobs)
    }

    /** The backends with a row for the object, in the order in which they are tried. */
    method ListInOrder(preferred: Option<string>, path: string) returns (ids: seq<string>)
      ensures Sorted(ids, Tried(preferred)) && forall id :: id in ids <==> id in RowsOf(db.Snapshot(), path)
    {
      LeqIsTotalOrder();
      var records := SortSet(RowsOf(db.Snapshot(), path), Leq);
      AscendingMembers(RowsOf(db.Snapshot(), path), Leq);
      TriedIsTotalOrder(preferred);
      SortSorted(records, Tried(preferred));
      SortMembers(records, Tried(preferred));
      ids := Sort(records, Tried(preferred));
    }

    /** Goes through the rows until a configured backend has the bytes. */
    method GetUnscoped(preferred: Option<string>, path: string) returns (r: Option<(Metadata, Blob)>)
      ensures r == Fetched(catalog.cfg, State(), preferred, path)
    {
      var ids := ListInOrder(preferred, path);
      for i := 0 to |ids|
        invariant forall j :: 0 <= j < i ==> ids[j] !in Available(catalog.cfg, State(), path)
      {
        AvailableRow(catalog.cfg, State(), path, ids[i]);
        if !catalog.IsConfigured(ids[i]) {
          continue;
        }
        var key := ObjectKey(ids[i], path);
        var bytes := catalog.GetBytes(key);
        if bytes.Some? {
          FirstIsChoice(catalog.cfg, State(), preferred, path, ids, i);
          FetchedChoice(catalog.cfg, State(), preferred, path, ids[i]);
          return Some((db.storageObjects[key].metadata, bytes.value));
        }
      }
      NoneAvailable(catalog.cfg, State(), path, ids);
      return None;
    }

    /** The same for the metadata alone. */
    method HeadUnscoped(preferred: Option<string>, path: string) returns (r: Option<Metadata>)
      ensures r == match Fetched(catalog.cfg, State(), preferred, path)
                   case Some((metadata, _)) => Some(metadata)
                   case None => None
    {
      var ids := ListInOrder(preferred, path);
      for i := 0 to |ids|
        invariant forall j :: 0 <= j < i ==> ids[j] !in Available(catalog.cfg, State(), path)
      {
        AvailableRow(catalog.cfg, State(), path, ids[i]);
        if !catalog.IsConfigured(ids[i]) {
          continue;
        }
        var key := ObjectKey(ids[i], path);
        var found := catalog.Head(key);
        if found.Some? {
          FirstIsChoice(catalog.cfg, State(), preferred, path, ids, i);
          FetchedChoice(catalog.cfg, State(), preferred, path, ids[i]);
          return Some(db.storageObjects[key].metadata);
        }
      }
      NoneAvailable(catalog.cfg, State(), path, ids);
      return None;
    }

    method GetVisible(view: View, path: string) returns (r: Option<(Metadata, Blob)>)
      ensures r == ReadStore.GetVisible(catalog.cfg, State(), view, path)
    {
      if !ObjectVisible(db.Snapshot(), view, path) {
        return None;
      }
      VisibleHasPreference(catalog.cfg, db.Snapshot(), view, path);
      r := GetUnscoped(PreferredStorage(catalog.cfg, db.Snapshot(), view), path);
    }
  }
}
