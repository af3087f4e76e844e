/** Pushing one document to an empty depot goes through from begin to publication and serving. */
module FirstPush {
  import opened Wrappers
  import opened Text
  import opened NixHash
  import opened NarInfo
  import opened Validation
  import opened Tables
  import opened Ingest
  import opened ReadStore
  import opened Runs
  import opened ServedRefs
  import opened PushProgress

  lemma AcceptedFirstUpsert(cfg: Config, db: Db, doc: NarInfo, h: string)
    requires db.paths == map[] && ValidatePublish(cfg.storeDir, doc) == Ok(h) && doc.narSize <= I64_MAX
    ensures doc.narHash.Normalize().Ok? && UpsertPathInfo(db, doc) == Ok(db.(paths := map[h := StoredForm(doc)]))
  {
    AcceptedIsAddressed(cfg.storeDir, doc);
    assert !StorePathTaken(db, doc.storePath);
  }

  lemma RegisterSingle(cfg: Config, db: Db, id: string, doc: NarInfo, h: string, db1: Db)
    requires ValidatePublish(cfg.storeDir, doc) == Ok(h) && UpsertPathInfo(db, doc) == Ok(db1)
    ensures RegisterAll(cfg, db, id, [doc]) == (AttachBuildPath(db1, id, h), Ok(()))
  {
    assert [doc][1..] == [];
    assert RegisterAll(cfg, AttachBuildPath(db1, id, h), id, []) == (AttachBuildPath(db1, id, h), Ok(()));
  }

  lemma PlanSingle(cfg: Config, db: Db, blobs: Blobs, project: string, doc: NarInfo, h: string)
    requires project in db.projects && db.projects[project].storageId in cfg.backends
    requires HashFromStorePath(doc.storePath) == Ok(h)
    ensures PlanAndLink(cfg, db, blobs, project, [doc]).1.Ok?
  {
    var storageId := db.projects[project].storageId;
    PlanOne(blobs, storageId, UpstreamsOf(cfg, project), doc);
    LinkOne(db, blobs, storageId, doc);
  }

  lemma PlanOne(blobs: Blobs, storageId: string, upstreams: seq<set<string>>, doc: NarInfo)
    requires HashFromStorePath(doc.storePath).Ok?
    ensures PlanUploads(blobs, storageId, upstreams, [doc]).Ok?
  {
    assert [doc][1..] == [] && PlanUploads(blobs, storageId, upstreams, []) == Ok([]);
  }

  lemma LinkOne(db: Db, blobs: Blobs, storageId: string, doc: NarInfo)
    requires HashFromStorePath(doc.storePath).Ok?
    ensures LinkLocal(db, blobs, storageId, [doc]).1.Ok?
  {
    assert [doc][1..] == [];
    LinkHead(db, blobs, storageId, [doc], HashFromStorePath(doc.storePath).value);
  }

  /** What an empty depot holds of a build after its only document is registered. */
  predicate HasOnlyPath(db: Db, before: Db, id: string, doc: NarInfo, h: string) {
    && db.projects == before.projects && db.builds == before.builds && db.buildPaths == before.buildPaths + {BuildPath(id, h)}
    && db.paths.Keys == {h} && db.paths[h].url == doc.url
  }

  lemma FirstRegister(cfg: Config, w: World, id: string, doc: NarInfo, h: string)
    requires PendingBuild(w.db, id).Ok? && w.db.paths == map[] && w.db.buildPaths == {}
    requires w.db.projects[w.db.builds[id].project].storageId in cfg.backends
    requires ValidatePublish(cfg.storeDir, doc) == Ok(h) && doc.narSize <= I64_MAX
    ensures RegisterPaths(cfg, w, id, [doc]).1.Ok?
    ensures HasOnlyPath(RegisterPaths(cfg, w, id, [doc]).0.db, w.db, id, doc, h)
  {
    AcceptedFirstUpsert(cfg, w.db, doc, h);
    RegisterSingle(cfg, w.db, id, doc, h, UpsertPathInfo(w.db, doc).value);
    SingleHash(cfg, doc, h);
    FinishRegister(cfg, w, id, doc, h);
  }

  lemma SingleHash(cfg: Config, doc: NarInfo, h: string)
    requires ValidatePublish(cfg.storeDir, doc) == Ok(h)
    ensures HashFromStorePath(doc.storePath) == Ok(h)
  {
    AcceptedIsAddressed(cfg.storeDir, doc);
  }

  lemma FinishRegister(cfg: Config, w: World, id: string, doc: NarInfo, h: string)
    requires PendingBuild(w.db, id).Ok? && Attached(w.db) && HashFromStorePath(doc.storePath) == Ok(h)
    requires w.db.projects[w.db.builds[id].project].storageId in cfg.backends
    requires RegisterAll(cfg, w.db, id, [doc]).1.Ok?
    requires HasOnlyPath(RegisterAll(cfg, w.db, id, [doc]).0, w.db, id, doc, h)
    ensures RegisterPaths(cfg, w, id, [doc]).1.Ok?
    ensures HasOnlyPath(RegisterPaths(cfg, w, id, [doc]).0.db, w.db, id, doc, h)
  {
    var db1 := RegisterAll(cfg, w.db, id, [doc]).0;
    var storageId := w.db.projects[w.db.builds[id].project].storageId;
    PlanSingle(cfg, db1, w.blobs, w.db.builds[id].project, doc, h);
    LinkedRecords(cfg, w, id, [doc], storageId);
  }

  lemma FirstUpload(cfg: Config, w: World, before: Db, id: string, doc: NarInfo, h: string, bytes: Blob)
    requires PendingBuild(w.db, id).Ok? && HasOnlyPath(w.db, before, id, doc, h) && IsNarPath(doc.url)
    requires w.db.projects[w.db.builds[id].project].storageId in cfg.backends
    ensures var k := ObjectKey(w.db.projects[w.db.builds[id].project].storageId, doc.url);
            var (w', r) := UploadObject(cfg, w, id, h, doc.url, bytes);
            r.Ok? && w' == World(LinkObject(UpsertObject(w.db, k, HeadMetadata(bytes)), h, doc.url), w.blobs[k := bytes])
  {}

  lemma FirstFinalize(cfg: Config, w: World, before: Db, id: string, doc: NarInfo, h: string, now: int)
    requires PendingBuild(w.db, id).Ok? && HasOnlyPath(w.db, before, id, doc, h)
    requires w.db.projects[w.db.builds[id].project].storageId in cfg.backends
    requires ObjectKey(w.db.projects[w.db.builds[id].project].storageId, doc.url) in w.blobs
    ensures FinalizeBuild(cfg, w, id, now).1.Ok?
  {
    FinalizeSucceedsExactly(cfg, w, id, now);
    assert BuildPath(id, h) in w.db.buildPaths;
  }

  const FIRST := RefKey("p", "r")

  /** The four requests of a push. */
  function PushOf(doc: NarInfo, h: string, bytes: Blob): (events: seq<Timed>) {
    [ Timed(1, Begin("p", "r", "b")), Timed(2, Register("b", [doc], {})), Timed(3, Upload("b", h, doc.url, bytes)),
      Timed(4, Finalize("b")) ]
  }

  lemma Begun(cfg: Config, run: Run, doc: NarInfo, h: string, bytes: Blob)
    requires IsRun(cfg, run) && run.events == PushOf(doc, h, bytes) && "p" in run.worlds[0].db.projects
    ensures var db := run.worlds[1].db;
            && PendingBuild(db, "b") == Ok(Build("p", "r", Pending, 1, None)) && db.paths == map[] && db.buildPaths == {}
            && db.projects == run.worlds[0].db.projects
  {
    assert StepAt(cfg, run, 0);
  }

  lemma RegisteredThen(cfg: Config, run: Run, doc: NarInfo, h: string, bytes: Blob)
    requires IsRun(cfg, run) && run.events == PushOf(doc, h, bytes) && "p" in run.worlds[0].db.projects
    requires run.worlds[0].db.projects["p"].storageId in cfg.backends
    requires ValidatePublish(cfg.storeDir, doc) == Ok(h) && doc.narSize <= I64_MAX
    ensures HasOnlyPath(run.worlds[2].db, run.worlds[1].db, "b", doc, h)
    ensures PendingBuild(run.worlds[2].db, "b") == Ok(Build("p", "r", Pending, 1, None))
    ensures run.worlds[2].db.projects == run.worlds[0].db.projects
  {
    Begun(cfg, run, doc, h, bytes);
    FirstRegister(cfg, run.worlds[1], "b", doc, h);
    assert StepAt(cfg, run, 1);
  }

  lemma UploadedThen(cfg: Config, run: Run, doc: NarInfo, h: string, bytes: Blob)
    requires IsRun(cfg, run) && run.events == PushOf(doc, h, bytes) && "p" in run.worlds[2].db.projects
    requires run.worlds[2].db.projects["p"].storageId in cfg.backends && IsNarPath(doc.url)
    requires HasOnlyPath(run.worlds[2].db, run.worlds[1].db, "b", doc, h)
    requires PendingBuild(run.worlds[2].db, "b") == Ok(Build("p", "r", Pending, 1, None))
    ensures HasOnlyPath(run.worlds[3].db, run.worlds[1].db, "b", doc, h)
    ensures PendingBuild(run.worlds[3].db, "b") == Ok(Build("p", "r", Pending, 1, None))
    ensures run.worlds[3].db.projects == run.worlds[2].db.projects
    ensures var k := ObjectKey(run.worlds[2].db.projects["p"].storageId, doc.url);
            k in run.worlds[3].blobs && run.worlds[3].blobs[k] == bytes
  {
    FirstUpload(cfg, run.worlds[2], run.worlds[1].db, "b", doc, h, bytes);
    assert StepAt(cfg, run, 2);
  }

  lemma Published(cfg: Config, run: Run, doc: NarInfo, h: string, bytes: Blob)
    requires IsRun(cfg, run) && run.events == PushOf(doc, h, bytes) && "p" in run.worlds[0].db.projects
    requires run.worlds[0].db.projects["p"].storageId in cfg.backends
    requires ValidatePublish(cfg.storeDir, doc) == Ok(h) && doc.narSize <= I64_MAX
    ensures Publishes(cfg, run, 3, FIRST, "b") && BuildPath("b", h) in run.worlds[3].db.buildPaths
    ensures "p" in run.worlds[3].db.projects && h in run.worlds[3].db.paths && run.worlds[3].db.paths[h].url == doc.url
    ensures var k := ProjectObject(run.worlds[3].db, "p", h); k in run.worlds[3].blobs && run.worlds[3].blobs[k] == bytes
  {
    AcceptedIsAddressed(cfg.storeDir, doc);
    AddressedIsNarPath(doc);
    RegisteredThen(cfg, run, doc, h, bytes);
    UploadedThen(cfg, run, doc, h, bytes);
    FirstFinalize(cfg, run.worlds[3], run.worlds[1].db, "b", doc, h, 4);
    assert BuildPath("b", h) in run.worlds[3].db.buildPaths;
  }

  /** A reader in the project's view gets these bytes. */
  ghost predicate ServesBytes(cfg: Config, w: World, path: string, bytes: Blob) {
    var r := GetVisible(cfg, w, ProjectView("p"), path);
    r.Some? && r.value.1 == bytes
  }

  /**
   Every acceptable document can be pushed to a depot without rows that has a project with a configured
   backend: the four requests make up a run, the last one publishes, and then the uploaded bytes are
   served in the project's view.
   */
  lemma FirstPushIsServed(cfg: Config, start: World, doc: NarInfo, h: string, bytes: Blob) returns (run: Run)
    requires Initial(start) && "p" in start.db.projects && start.db.projects["p"].storageId in cfg.backends
    requires ValidatePublish(cfg.storeDir, doc) == Ok(h) && doc.narSize <= I64_MAX
    ensures IsRun(cfg, run) && run.worlds[0] == start && run.events == PushOf(doc, h, bytes)
    ensures Publishes(cfg, run, 3, FIRST, "b")
    ensures ServesBytes(cfg, run.worlds[4], doc.url, bytes)
  {
    PushIsOrdered(doc, h, bytes);
    run := EveryScheduleRuns(cfg, start, PushOf(doc, h, bytes));
    PushIsServed(cfg, run, doc, h, bytes);
  }

  lemma PushIsOrdered(doc: NarInfo, h: string, bytes: Blob)
    ensures ClockAdvances(PushOf(doc, h, bytes))
  {}

  lemma PushIsServed(cfg: Config, run: Run, doc: NarInfo, h: string, bytes: Blob)
    requires IsRun(cfg, run) && run.events == PushOf(doc, h, bytes) && "p" in run.worlds[0].db.projects
    requires run.worlds[0].db.projects["p"].storageId in cfg.backends
    requires ValidatePublish(cfg.storeDir, doc) == Ok(h) && doc.narSize <= I64_MAX
    ensures Publishes(cfg, run, 3, FIRST, "b") && ServesBytes(cfg, run.worlds[4], doc.url, bytes)
  {
    Published(cfg, run, doc, h, bytes);
    NamedAtOnce(cfg, run, h, ProjectObject(run.worlds[3].db, "p", h));
  }

  lemma NamedAtOnce(cfg: Config, run: Run, h: string, k: ObjectKey)
    requires IsRun(cfg, run) && |run.events| == 4 && Publishes(cfg, run, 3, FIRST, "b")
    requires BuildPath("b", h) in run.worlds[3].db.buildPaths && h in run.worlds[3].db.paths
    requires "p" in run.worlds[3].db.projects && k == ProjectObject(run.worlds[3].db, "p", h) && k in run.worlds[3].blobs
    ensures ServesBytes(cfg, run.worlds[4], k.path, run.worlds[3].blobs[k])
  {
    PublishedIsHeld(cfg, run, 3, FIRST, "b", h);
    ServedRefsAreProtected(cfg, run, 3, 4, FIRST, "b", h);
  }
}
