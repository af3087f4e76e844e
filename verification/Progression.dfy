/** What single steps leave in place: rows, links, attachments, builds, and the bytes of objects. */
module Progression {
  import opened Wrappers
  import opened Text
  import opened NarInfo
  import opened Tables
  import opened Collection
  import opened Ingest
  import opened Runs

  /** A build keeps its project and ref, and nothing of it changes once it is finalized. */
  predicate BuildKept(a: Build, b: Build) {
    && a.project == b.project && a.refName == b.refName && a.createdAt == b.createdAt
    && (a.status == Finalized ==> a == b)
  }

  predicate BuildsKept(a: map<string, Build>, b: map<string, Build>) {
    forall id :: id in a ==> id in b && BuildKept(a[id], b[id])
  }

  /** Projects stay; paths, attachments, links and builds are only added. */
  predicate Grows(a: Db, b: Db) {
    && b.projects == a.projects && RowsKept(a.paths, b.paths)
    && a.buildPaths <= b.buildPaths && a.pathObjects <= b.pathObjects && BuildsKept(a.builds, b.builds)
  }

  lemma ExtendedGrows(a: Db, b: Db)
    requires Extended(a, b)
    ensures Grows(a, b)
  {}

  lemma RecordedGrows(a: Db, b: Db)
    requires Recorded(a, b)
    ensures Grows(a, b)
  {}

  lemma GrowsTwice(a: Db, b: Db, c: Db)
    requires Grows(a, b) && Grows(b, c)
    ensures Grows(a, c)
  {}

  lemma RegisterGrows(cfg: Config, w: World, id: string, narinfos: seq<NarInfo>)
    requires Attached(w.db)
    ensures Grows(w.db, RegisterPaths(cfg, w, id, narinfos).0.db)
  {
    RegistrationStages(cfg, w, id, narinfos);
    if PendingBuild(w.db, id).Ok? {
      var db1 := RegisterAll(cfg, w.db, id, narinfos).0;
      RegisterAllExtends(cfg, w.db, id, narinfos);
      ExtendedGrows(w.db, db1);
      if RegisterAll(cfg, w.db, id, narinfos).1.Ok? {
        var storageId := w.db.projects[w.db.builds[id].project].storageId;
        LinkedRecords(cfg, w, id, narinfos, storageId);
        RecordedGrows(db1, LinkLocal(db1, w.blobs, storageId, narinfos).0);
        GrowsTwice(w.db, db1, LinkLocal(db1, w.blobs, storageId, narinfos).0);
      }
    }
  }

  lemma UploadGrows(cfg: Config, w: World, id: string, h: string, path: string, bytes: Blob)
    ensures Grows(w.db, UploadObject(cfg, w, id, h, path, bytes).0.db)
  {
    var db' := UploadObject(cfg, w, id, h, path, bytes).0.db;
    UploadRecords(cfg, w, id, h, path, bytes);
    if db' != w.db { RecordedGrows(w.db, db'); }
  }

  lemma CompleteGrows(cfg: Config, w: World, id: string, h: string, path: string, bytes: Blob, reported: U64,
                      etag: Option<string>)
    ensures Grows(w.db, CompleteMultipart(cfg, w, id, h, path, bytes, reported, etag).0.db)
  {
    var db' := CompleteMultipart(cfg, w, id, h, path, bytes, reported, etag).0.db;
    CompleteRecords(cfg, w, id, h, path, bytes, reported, etag);
    if db' != w.db { RecordedGrows(w.db, db'); }
  }

  lemma PublishGrows(db: Db, key: RefKey, id: string, now: int)
    requires id in db.builds && db.builds[id].status == Pending
    ensures Grows(db, PublishBuild(db, key, id, now))
  {}

  lemma FinalizeGrows(cfg: Config, w: World, id: string, now: int)
    ensures Grows(w.db, FinalizeBuild(cfg, w, id, now).0.db)
  {
    if PendingBuild(w.db, id).Ok? {
      var build := PendingBuild(w.db, id).value;
      var db1 := CheckBuild(cfg, w, id, build.project).0;
      CheckBuildRecords(cfg, w, id, build.project);
      RecordedGrows(w.db, db1);
      PublishGrows(db1, RefKey(build.project, build.refName), id, now);
    }
  }

  lemma CollectGrows(cfg: Config, w: World, dryRun: bool, grace: int, failing: set<ObjectKey>, now: int)
    ensures Grows(w.db, GcPass(cfg, w, dryRun, grace, failing, now).0.db)
  {
    PassChangesOnlyObjects(cfg, w, dryRun, grace, failing, now);
  }

  lemma AdministrationGrows(db: Db, db': Db)
    requires db' == db.(builds := db'.builds, pins := db'.pins, policies := db'.policies)
    requires forall id :: id in db.builds ==> id in db'.builds && db'.builds[id] == db.builds[id]
    ensures Grows(db, db')
  {}

  /** Whatever the event. */
  lemma StepGrows(cfg: Config, w: World, e: Event, now: int)
    requires Attached(w.db)
    ensures Grows(w.db, Step(cfg, w, e, now).db)
  {
    hide GcPass, RegisterPaths, FinalizeBuild, Grows;
    match e {
      case Register(id, narinfos, _) => RegisterGrows(cfg, w, id, narinfos);
      case Upload(id, h, path, bytes) => UploadGrows(cfg, w, id, h, path, bytes);
      case Complete(id, h, path, bytes, reported, etag) => CompleteGrows(cfg, w, id, h, path, bytes, reported, etag);
      case Finalize(id) => FinalizeGrows(cfg, w, id, now);
      case Collect(dryRun, grace, failing) =>
        StepCollects(cfg, w, dryRun, grace, failing, now);
        CollectGrows(cfg, w, dryRun, grace, failing, now);
      case _ => AdministrationGrows(w.db, Step(cfg, w, e, now).db);
    }
  }

  /** Every event of a run. */
  lemma EventGrows(cfg: Config, run: Run, n: nat)
    requires IsRun(cfg, run) && n < |run.events|
    ensures Grows(run.worlds[n].db, run.worlds[n + 1].db)
  {
    ReachableInvariant(cfg, run, n, run.events[n].at);
    assert StepAt(cfg, run, n);
    StepGrows(cfg, run.worlds[n], run.events[n].event, run.events[n].at);
  }

  /** Over every run, projects stay and paths, attachments, links and builds are only added. */
  lemma {:induction false} RunGrows(cfg: Config, run: Run, m: nat, n: nat)
    requires IsRun(cfg, run) && m <= n <= |run.events|
    ensures Grows(run.worlds[m].db, run.worlds[n].db)
    decreases n
  {
    if m < n {
      RunGrows(cfg, run, m, n - 1);
      EventGrows(cfg, run, n - 1);
      GrowsTwice(run.worlds[m].db, run.worlds[n - 1].db, run.worlds[n].db);
    }
  }
}
