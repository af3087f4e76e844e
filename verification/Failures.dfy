/** Runs from an empty depot that show where serving and pushing fail, one for each condition of their theorems. */
module Failures {
  import opened Wrappers
  import opened Text
  import opened NixHash
  import opened DepotPath
  import opened NarInfo
  import opened Validation
  import opened Tables
  import opened Ingest
  import opened ReadStore
  import opened Runs
  import opened Metadata
  import opened Progression
  import opened ObjectLife
  import opened ServedRefs
  import opened PushProgress
  import opened FirstPush

  /** No rows, nothing stored, and a project whose backend takes multipart uploads. */
  predicate IsEmptyDepot(cfg: Config, w: World) {
    && Initial(w) && w.blobs == map[] && "p" in w.db.projects
    && w.db.projects["p"].storageId in cfg.backends && w.db.projects["p"].storageId in cfg.multipart
  }

  /** A document that may be published and whose NAR no upstream of the project serves. */
  predicate IsUnserved(cfg: Config, doc: NarInfo, h: string) {
    && ValidatePublish(cfg.storeDir, doc) == Ok(h) && doc.narSize <= I64_MAX
    && !ServedUpstream(UpstreamsOf(cfg, "p"), doc.url)
  }

  lemma UnservedFacts(cfg: Config, doc: NarInfo, h: string)
    requires IsUnserved(cfg, doc, h)
    ensures HashFromStorePath(doc.storePath) == Ok(h) && doc.narHash.Normalize().Ok? && IsNarPath(doc.url)
  {
    AcceptedIsAddressed(cfg.storeDir, doc);
    AddressedIsNarPath(doc);
  }

  // ---- Registering one document that has to be uploaded ----

  lemma PlanMissing(blobs: Blobs, storageId: string, upstreams: seq<set<string>>, doc: NarInfo, h: string)
    requires HashFromStorePath(doc.storePath) == Ok(h) && IsNarPath(doc.url)
    requires ObjectKey(storageId, doc.url) !in blobs && !ServedUpstream(upstreams, doc.url)
    ensures PlanUploads(blobs, storageId, upstreams, [doc]) == Ok([PlannedUpload(h, doc.url)])
  {
    assert [doc][1..] == [] && PlanUploads(blobs, storageId, upstreams, []) == Ok([]);
    assert [PlannedUpload(h, doc.url)] + [] == [PlannedUpload(h, doc.url)];
  }

  lemma LinkMissing(db: Db, blobs: Blobs, storageId: string, doc: NarInfo, h: string)
    requires HashFromStorePath(doc.storePath) == Ok(h) && ObjectKey(storageId, doc.url) !in blobs
    ensures LinkLocal(db, blobs, storageId, [doc]) == (db, Ok(()))
  {
    assert [doc][1..] == [] && LinkLocal(db, blobs, storageId, []) == (db, Ok(()));
  }

  lemma PlanAndLinkMissing(cfg: Config, db: Db, blobs: Blobs, doc: NarInfo, h: string)
    requires "p" in db.projects && db.projects["p"].storageId in cfg.backends && IsUnserved(cfg, doc, h)
    requires ObjectKey(db.projects["p"].storageId, doc.url) !in blobs
    ensures PlanAndLink(cfg, db, blobs, "p", [doc]) == (db, Ok([PlannedUpload(h, doc.url)]))
  {
    UnservedFacts(cfg, doc, h);
    PlanMissing(blobs, db.projects["p"].storageId, UpstreamsOf(cfg, "p"), doc, h);
    LinkMissing(db, blobs, db.projects["p"].storageId, doc, h);
  }

  lemma RegisterMissing(cfg: Config, w: World, id: string, doc: NarInfo, h: string, db1: Db)
    requires PendingBuild(w.db, id).Ok? && w.db.builds[id].project == "p"
    requires w.db.projects["p"].storageId in cfg.backends && IsUnserved(cfg, doc, h)
    requires ObjectKey(w.db.projects["p"].storageId, doc.url) !in w.blobs
    requires UpsertPathInfo(w.db, doc) == Ok(db1) && db1.projects == w.db.projects
    ensures RegisterPaths(cfg, w, id, [doc])
            == (World(AttachBuildPath(db1, id, h), w.blobs), Ok([PlannedUpload(h, doc.url)]))
  {
    RegisterSingle(cfg, w.db, id, doc, h, db1);
    PlanAndLinkMissing(cfg, AttachBuildPath(db1, id, h), w.blobs, doc, h);
  }

  // ---- Two builds that push the same path ----

  function TwoBuilds(): (builds: map<string, Build>) {
    map["b1" := Build("p", "r", Pending, 1, None), "b2" := Build("p", "s", Pending, 2, None)]
  }

  function Begun2(projects: map<string, Project>): (db: Db) {
    Db(projects, map[], map[], TwoBuilds(), {}, map[], {}, map[], map[])
  }

  function Listed1(projects: map<string, Project>, row: NarInfo, h: string): (db: Db) {
    Db(projects, map[], map[h := row], TwoBuilds(), {BuildPath("b1", h)}, map[], {}, map[], map[])
  }

  function Listed2(projects: map<string, Project>, row: NarInfo, h: string): (db: Db) {
    Db(projects, map[], map[h := row], TwoBuilds(), {BuildPath("b1", h), BuildPath("b2", h)}, map[], {}, map[], map[])
  }

  /** The first build's upload is done. */
  function Delivered(projects: map<string, Project>, row: NarInfo, h: string, k: ObjectKey, bytes: Blob): (w: World) {
    var metadata := Metadata("application/octet-stream", Some(|bytes|), None);
    World(LinkObject(UpsertObject(Listed2(projects, row, h), k, metadata), h, k.path), map[k := bytes])
  }

  /** Both builds register the path and are asked for its NAR, and the first one delivers it. */
  function Contest(doc: NarInfo, h: string, bytes: Blob): (events: seq<Timed>) {
    [ Timed(1, Begin("p", "r", "b1")), Timed(2, Begin("p", "s", "b2")),
      Timed(3, Register("b1", [doc], {})), Timed(4, Register("b2", [doc], {})),
      Timed(5, Complete("b1", h, doc.url, bytes, |bytes|, None)) ]
  }

  /** The second build completes its own upload, and reports 2^63 bytes. */
  function Overlong(doc: NarInfo, h: string, bytes: Blob): (e: Event) {
    Complete("b2", h, doc.url, bytes, I64_MAX + 1, None)
  }

  ghost predicate Contested(cfg: Config, run: Run, doc: NarInfo, h: string, bytes: Blob) {
    && IsRun(cfg, run) && IsEmptyDepot(cfg, run.worlds[0]) && IsUnserved(cfg, doc, h)
    && Contest(doc, h, bytes) <= run.events
  }

  lemma ContestEvents(events: seq<Timed>, doc: NarInfo, h: string, bytes: Blob)
    requires Contest(doc, h, bytes) <= events
    ensures |events| >= 5 && forall i :: 0 <= i < 5 ==> events[i] == Contest(doc, h, bytes)[i]
  {}

  lemma BeginStep(cfg: Config, w: World, project: string, refName: string, id: string, now: int)
    requires project in w.db.projects && id !in w.db.builds
    ensures Step(cfg, w, Begin(project, refName, id), now)
            == World(w.db.(builds := w.db.builds[id := Build(project, refName, Pending, now, None)]), w.blobs)
  {}

  lemma After2(cfg: Config, run: Run, doc: NarInfo, h: string, bytes: Blob)
    requires Contested(cfg, run, doc, h, bytes)
    ensures run.worlds[2] == World(Begun2(run.worlds[0].db.projects), map[])
  {
    ContestEvents(run.events, doc, h, bytes);
    assert StepAt(cfg, run, 0) && StepAt(cfg, run, 1);
    hide Step;
    BeginStep(cfg, run.worlds[0], "p", "r", "b1", 1);
    BeginStep(cfg, run.worlds[1], "p", "s", "b2", 2);
  }

  lemma UpsertTwice(cfg: Config, projects: map<string, Project>, doc: NarInfo, h: string)
    requires IsUnserved(cfg, doc, h)
    ensures doc.narHash.Normalize().Ok?
    ensures UpsertPathInfo(Begun2(projects), doc) == Ok(Begun2(projects).(paths := map[h := StoredForm(doc)]))
    ensures UpsertPathInfo(Listed1(projects, StoredForm(doc), h), doc) == Ok(Listed1(projects, StoredForm(doc), h))
  {
    AcceptedFirstUpsert(cfg, Begun2(projects), doc, h);
    StoredFormRevalidates(cfg, doc, h);
    StoredContent(cfg, doc, h);
    RegisteredAgain(cfg, Listed1(projects, StoredForm(doc), h), doc, h);
  }

  lemma FirstListing(cfg: Config, projects: map<string, Project>, doc: NarInfo, h: string)
    requires "p" in projects && projects["p"].storageId in cfg.backends && IsUnserved(cfg, doc, h)
    ensures doc.narHash.Normalize().Ok?
    ensures RegisterPaths(cfg, World(Begun2(projects), map[]), "b1", [doc])
            == (World(Listed1(projects, StoredForm(doc), h), map[]), Ok([PlannedUpload(h, doc.url)]))
  {
    UpsertTwice(cfg, projects, doc, h);
    var db1 := Begun2(projects).(paths := map[h := StoredForm(doc)]);
    RegisterMissing(cfg, World(Begun2(projects), map[]), "b1", doc, h, db1);
    assert AttachBuildPath(db1, "b1", h) == Listed1(projects, StoredForm(doc), h);
  }

  lemma SecondListing(cfg: Config, projects: map<string, Project>, doc: NarInfo, h: string)
    requires "p" in projects && projects["p"].storageId in cfg.backends && IsUnserved(cfg, doc, h)
    ensures doc.narHash.Normalize().Ok?
    ensures RegisterPaths(cfg, World(Listed1(projects, StoredForm(doc), h), map[]), "b2", [doc])
            == (World(Listed2(projects, StoredForm(doc), h), map[]), Ok([PlannedUpload(h, doc.url)]))
  {
    UpsertTwice(cfg, projects, doc, h);
    var db1 := Listed1(projects, StoredForm(doc), h);
    RegisterMissing(cfg, World(db1, map[]), "b2", doc, h, db1);
    assert AttachBuildPath(db1, "b2", h) == Listed2(projects, StoredForm(doc), h);
  }

  lemma AskedFor(cfg: Config, w: World, w': World, e: Event, id: string, doc: NarInfo, now: int, planned: seq<PlannedUpload>)
    requires e == Register(id, [doc], {}) && RegisterPaths(cfg, w, id, [doc]) == (w', Ok(planned))
    ensures Step(cfg, w, e, now) == w' && Requested(cfg, w, e, id) == planned
    ensures RegisterAnswer(cfg, w, id, e.narinfos, e.unopened).Ok?
  {
    hide RegisterPaths, RegisterAnswer;
    AllOpened(cfg, w, id, [doc]);
  }

  lemma After3(cfg: Config, run: Run, doc: NarInfo, h: string, bytes: Blob)
    requires Contested(cfg, run, doc, h, bytes)
    ensures doc.narHash.Normalize().Ok?
    ensures run.worlds[3] == World(Listed1(run.worlds[0].db.projects, StoredForm(doc), h), map[])
    ensures Requested(cfg, run.worlds[2], run.events[2].event, "b1") == [PlannedUpload(h, doc.url)]
  {
    ContestEvents(run.events, doc, h, bytes);
    After2(cfg, run, doc, h, bytes);
    FirstListing(cfg, run.worlds[0].db.projects, doc, h);
    assert StepAt(cfg, run, 2);
    hide RegisterPaths, Requested, Step;
    AskedFor(cfg, run.worlds[2], World(Listed1(run.worlds[0].db.projects, StoredForm(doc), h), map[]), run.events[2].event,
             "b1", doc, 3, [PlannedUpload(h, doc.url)]);
  }

  lemma After4(cfg: Config, run: Run, doc: NarInfo, h: string, bytes: Blob)
    requires Contested(cfg, run, doc, h, bytes)
    ensures doc.narHash.Normalize().Ok?
    ensures run.worlds[4] == World(Listed2(run.worlds[0].db.projects, StoredForm(doc), h), map[])
    ensures Requested(cfg, run.worlds[3], run.events[3].event, "b2") == [PlannedUpload(h, doc.url)]
  {
    ContestEvents(run.events, doc, h, bytes);
    After3(cfg, run, doc, h, bytes);
    SecondListing(cfg, run.worlds[0].db.projects, doc, h);
    assert StepAt(cfg, run, 3);
    hide RegisterPaths, Requested, Step;
    AskedFor(cfg, run.worlds[3], World(Listed2(run.worlds[0].db.projects, StoredForm(doc), h), map[]), run.events[3].event,
             "b2", doc, 4, [PlannedUpload(h, doc.url)]);
  }

  // ---- Delivering and losing the NAR ----

  /** The world in which both builds have listed the path, with any rows added that leave both pending builds' claims. */
  lemma TargetOf(cfg: Config, db: Db, id: string, doc: NarInfo, h: string)
    requires PendingBuild(db, id).Ok? && db.builds[id].project == "p" && db.projects["p"].storageId in cfg.backends
    requires BuildPath(id, h) in db.buildPaths && h in db.paths && db.paths[h].url == doc.url && IsNarPath(doc.url)
    ensures UploadTarget(cfg, db, id, h, doc.url) == Ok(ObjectKey(db.projects["p"].storageId, doc.url))
  {}

  lemma DeliverStep(cfg: Config, w: World, id: string, h: string, k: ObjectKey, bytes: Blob)
    requires UploadTarget(cfg, w.db, id, h, k.path) == Ok(k) && k.storageId in cfg.multipart
    ensures CompleteMultipart(cfg, w, id, h, k.path, bytes, |bytes|, None)
            == (World(LinkObject(UpsertObject(w.db, k, Metadata("application/octet-stream", Some(|bytes|), None)), h, k.path),
                      w.blobs[k := bytes]), Ok(()))
  {}

  lemma OverlongStep(cfg: Config, w: World, doc: NarInfo, h: string, k: ObjectKey, more: Blob, now: int)
    requires UploadTarget(cfg, w.db, "b2", h, doc.url) == Ok(k) && k.storageId in cfg.multipart
    ensures Step(cfg, w, Overlong(doc, h, more), now) == World(w.db, w.blobs - {k})
    ensures Loses(cfg, w, Overlong(doc, h, more), k)
  {}

  lemma FirstDelivery(cfg: Config, projects: map<string, Project>, doc: NarInfo, h: string, bytes: Blob)
    requires "p" in projects && projects["p"].storageId in cfg.backends && projects["p"].storageId in cfg.multipart
    requires IsUnserved(cfg, doc, h)
    ensures doc.narHash.Normalize().Ok?
    ensures var k := ObjectKey(projects["p"].storageId, doc.url);
            CompleteMultipart(cfg, World(Listed2(projects, StoredForm(doc), h), map[]), "b1", h, doc.url, bytes, |bytes|, None)
            == (Delivered(projects, StoredForm(doc), h, k, bytes), Ok(()))
  {
    UnservedFacts(cfg, doc, h);
    var db := Listed2(projects, StoredForm(doc), h);
    TargetOf(cfg, db, "b1", doc, h);
    DeliverStep(cfg, World(db, map[]), "b1", h, ObjectKey(projects["p"].storageId, doc.url), bytes);
  }

  lemma After5(cfg: Config, run: Run, doc: NarInfo, h: string, bytes: Blob)
    requires Contested(cfg, run, doc, h, bytes)
    ensures doc.narHash.Normalize().Ok?
    ensures var projects := run.worlds[0].db.projects;
            run.worlds[5] == Delivered(projects, StoredForm(doc), h, ObjectKey(projects["p"].storageId, doc.url), bytes)
    ensures DeliveredAt(cfg, run, "b1", 4, PlannedUpload(h, doc.url))
  {
    ContestEvents(run.events, doc, h, bytes);
    After4(cfg, run, doc, h, bytes);
    FirstDelivery(cfg, run.worlds[0].db.projects, doc, h, bytes);
    assert StepAt(cfg, run, 4);
  }

  /** A world in which a build with this one path has its NAR, or has it nowhere. */
  lemma FinalizeOnePath(cfg: Config, w: World, id: string, doc: NarInfo, h: string, now: int)
    requires PendingBuild(w.db, id).Ok? && w.db.builds[id].project == "p" && w.db.projects["p"].storageId in cfg.backends
    requires !ServedUpstream(UpstreamsOf(cfg, "p"), doc.url)
    requires w.db.paths.Keys == {h} && w.db.paths[h].url == doc.url && BuildPath(id, h) in w.db.buildPaths
    ensures HasPath(w.db, id)
    ensures FinalizeBuild(cfg, w, id, now).1.Ok? <==> ObjectKey(w.db.projects["p"].storageId, doc.url) in w.blobs
  {
    FinalizeSucceedsExactly(cfg, w, id, now);
    assert BuildPath(id, h) in w.db.buildPaths;
  }

  // ---- A push that is blocked ----

  function BlockedPush(doc: NarInfo, h: string, bytes: Blob, more: Blob): (events: seq<Timed>) {
    Contest(doc, h, bytes) + [Timed(6, Overlong(doc, h, more))]
  }

  lemma DeliveredFacts(cfg: Config, projects: map<string, Project>, doc: NarInfo, h: string, k: ObjectKey, bytes: Blob)
    requires "p" in projects && doc.narHash.Normalize().Ok?
    ensures var db := Delivered(projects, StoredForm(doc), h, k, bytes).db;
            && PendingBuild(db, "b1") == Ok(TwoBuilds()["b1"]) && PendingBuild(db, "b2") == Ok(TwoBuilds()["b2"])
            && db.projects == projects && db.paths == map[h := StoredForm(doc)]
            && BuildPath("b1", h) in db.buildPaths && BuildPath("b2", h) in db.buildPaths
  {}

  lemma LostAt6(cfg: Config, run: Run, doc: NarInfo, h: string, bytes: Blob, more: Blob)
    requires Contested(cfg, run, doc, h, bytes) && run.events == BlockedPush(doc, h, bytes, more)
    ensures run.worlds[6] == World(run.worlds[5].db, map[])
  {
    var projects := run.worlds[0].db.projects;
    var k := ObjectKey(projects["p"].storageId, doc.url);
    UnservedFacts(cfg, doc, h);
    After5(cfg, run, doc, h, bytes);
    DeliveredFacts(cfg, projects, doc, h, k, bytes);
    TargetOf(cfg, run.worlds[5].db, "b2", doc, h);
    OverlongStep(cfg, run.worlds[5], doc, h, k, more, 6);
    assert StepAt(cfg, run, 5);
    assert map[k := bytes] - {k} == map[];
  }

  lemma AskedByRegistering(cfg: Config, w: World, e: Event, b: string)
    requires !e.Register? || e.id != b
    ensures Requested(cfg, w, e, b) == []
  {}

  lemma OneRegistration(doc: NarInfo, h: string, bytes: Blob, more: Blob, i: nat)
    requires i < 6 && i != 2
    ensures var e := BlockedPush(doc, h, bytes, more)[i].event; !e.Register? || e.id != "b1"
  {}

  lemma DeliveredSince(cfg: Config, run: Run, b: string, i: nat, j: nat, n: nat, p: PlannedUpload)
    requires |run.worlds| == |run.events| + 1 && i < j < n <= |run.events| && DeliveredAt(cfg, run, b, j, p)
    ensures !OwesSince(cfg, run, b, i, n, p)
  {
    assert !Undelivered(cfg, run, b, i, n, p);
  }

  lemma AskedAtThird(cfg: Config, run: Run, doc: NarInfo, h: string, bytes: Blob, more: Blob, p: PlannedUpload)
    requires Contested(cfg, run, doc, h, bytes) && run.events == BlockedPush(doc, h, bytes, more)
    ensures !OwesSince(cfg, run, "b1", 2, 6, p)
  {
    After3(cfg, run, doc, h, bytes);
    if p == PlannedUpload(h, doc.url) {
      After5(cfg, run, doc, h, bytes);
      DeliveredSince(cfg, run, "b1", 2, 4, 6, p);
    }
  }

  lemma NoMoreOwed(cfg: Config, run: Run, doc: NarInfo, h: string, bytes: Blob, more: Blob, p: PlannedUpload)
    requires Contested(cfg, run, doc, h, bytes) && run.events == BlockedPush(doc, h, bytes, more)
    ensures !Owes(cfg, run, "b1", 6, p)
  {
    forall i | 0 <= i < 6 ensures !OwesSince(cfg, run, "b1", i, 6, p) {
      if i == 2 {
        AskedAtThird(cfg, run, doc, h, bytes, more, p);
      } else {
        OneRegistration(doc, h, bytes, more, i);
        AskedByRegistering(cfg, run.worlds[i], run.events[i].event, "b1");
      }
    }
  }

  lemma AnnouncedByThird(cfg: Config, run: Run, doc: NarInfo, h: string, bytes: Blob)
    requires Contested(cfg, run, doc, h, bytes)
    ensures AnnouncedAt(cfg, run, "b1", h, 2)
  {
    ContestEvents(run.events, doc, h, bytes);
    UnservedFacts(cfg, doc, h);
    After2(cfg, run, doc, h, bytes);
    FirstListing(cfg, run.worlds[0].db.projects, doc, h);
    hide RegisterPaths, RegisterAnswer, Step, Requested;
    AskedFor(cfg, run.worlds[2], World(Listed1(run.worlds[0].db.projects, StoredForm(doc), h), map[]), run.events[2].event,
             "b1", doc, 3, [PlannedUpload(h, doc.url)]);
    assert [doc][0] == doc;
  }

  /**
   For every document that has to be uploaded there is a run from an empty depot in which a build whose path was
   announced and whose only upload is done could be finalized, and cannot any more after another build completed
   its own requested upload of the path and reported 2^63 bytes.
   */
  lemma OverlongCompletionBlocksPush(cfg: Config, start: World, doc: NarInfo, h: string, bytes: Blob, more: Blob)
    returns (run: Run)
    requires IsEmptyDepot(cfg, start) && IsUnserved(cfg, doc, h)
    ensures IsRun(cfg, run) && run.worlds[0] == start && run.events == BlockedPush(doc, h, bytes, more)
    ensures Requested(cfg, run.worlds[3], run.events[3].event, "b2") == [PlannedUpload(h, doc.url)]
    ensures Announced(cfg, run, "b1", h, 6) && forall p :: !Owes(cfg, run, "b1", 6, p)
    ensures PendingBuild(run.worlds[6].db, "b1").Ok? && HasPath(run.worlds[6].db, "b1")
    ensures FinalizeBuild(cfg, run.worlds[5], "b1", 6).1.Ok? && !FinalizeBuild(cfg, run.worlds[6], "b1", 7).1.Ok?
  {
    BlockedIsOrdered(doc, h, bytes, more);
    run := EveryScheduleRuns(cfg, start, BlockedPush(doc, h, bytes, more));
    BlockedRun(cfg, run, doc, h, bytes, more);
    forall p ensures !Owes(cfg, run, "b1", 6, p) {
      NoMoreOwed(cfg, run, doc, h, bytes, more, p);
    }
  }

  lemma BlockedIsOrdered(doc: NarInfo, h: string, bytes: Blob, more: Blob)
    ensures ClockAdvances(BlockedPush(doc, h, bytes, more)) && Contest(doc, h, bytes) <= BlockedPush(doc, h, bytes, more)
  {}

  lemma BlockedRun(cfg: Config, run: Run, doc: NarInfo, h: string, bytes: Blob, more: Blob)
    requires Contested(cfg, run, doc, h, bytes) && run.events == BlockedPush(doc, h, bytes, more)
    ensures Requested(cfg, run.worlds[3], run.events[3].event, "b2") == [PlannedUpload(h, doc.url)]
    ensures Announced(cfg, run, "b1", h, 6)
    ensures PendingBuild(run.worlds[6].db, "b1").Ok? && HasPath(run.worlds[6].db, "b1")
    ensures FinalizeBuild(cfg, run.worlds[5], "b1", 6).1.Ok? && !FinalizeBuild(cfg, run.worlds[6], "b1", 7).1.Ok?
  {
    After4(cfg, run, doc, h, bytes);
    AnnouncedByThird(cfg, run, doc, h, bytes);
    BlockedOutcome(cfg, run, doc, h, bytes, more);
  }

  lemma BlockedOutcome(cfg: Config, run: Run, doc: NarInfo, h: string, bytes: Blob, more: Blob)
    requires Contested(cfg, run, doc, h, bytes) && run.events == BlockedPush(doc, h, bytes, more)
    ensures PendingBuild(run.worlds[6].db, "b1").Ok? && HasPath(run.worlds[6].db, "b1")
    ensures FinalizeBuild(cfg, run.worlds[5], "b1", 6).1.Ok? && !FinalizeBuild(cfg, run.worlds[6], "b1", 7).1.Ok?
  {
    var projects := run.worlds[0].db.projects;
    After5(cfg, run, doc, h, bytes);
    LostAt6(cfg, run, doc, h, bytes, more);
    DeliveredFacts(cfg, projects, doc, h, ObjectKey(projects["p"].storageId, doc.url), bytes);
    FinalizeOnePath(cfg, run.worlds[5], "b1", doc, h, 6);
    FinalizeOnePath(cfg, run.worlds[6], "b1", doc, h, 7);
  }

  // ---- A published object that is not served any more ----

  function UnservedPush(doc: NarInfo, h: string, bytes: Blob, more: Blob): (events: seq<Timed>) {
    Contest(doc, h, bytes) + [Timed(6, Finalize("b1")), Timed(7, Overlong(doc, h, more))]
  }

  lemma UnservedIsOrdered(doc: NarInfo, h: string, bytes: Blob, more: Blob)
    ensures ClockAdvances(UnservedPush(doc, h, bytes, more)) && Contest(doc, h, bytes) <= UnservedPush(doc, h, bytes, more)
  {}

  const NAMED := RefKey("p", "r")

  lemma PublishedAt6(cfg: Config, run: Run, doc: NarInfo, h: string, bytes: Blob, more: Blob)
    requires Contested(cfg, run, doc, h, bytes) && run.events == UnservedPush(doc, h, bytes, more)
    ensures Publishes(cfg, run, 5, NAMED, "b1")
    ensures BuildPath("b1", h) in run.worlds[5].db.buildPaths && h in run.worlds[5].db.paths && "p" in run.worlds[5].db.projects
    ensures var k := ProjectObject(run.worlds[5].db, "p", h);
            && k == ObjectKey(run.worlds[0].db.projects["p"].storageId, doc.url)
            && run.worlds[5].blobs == map[k := bytes]
  {
    var projects := run.worlds[0].db.projects;
    After5(cfg, run, doc, h, bytes);
    DeliveredFacts(cfg, projects, doc, h, ObjectKey(projects["p"].storageId, doc.url), bytes);
    FinalizeOnePath(cfg, run.worlds[5], "b1", doc, h, 6);
  }

  lemma SecondStillPending(cfg: Config, run: Run, doc: NarInfo, h: string, bytes: Blob, more: Blob)
    requires Contested(cfg, run, doc, h, bytes) && run.events == UnservedPush(doc, h, bytes, more)
    ensures var db := run.worlds[6].db;
            && PendingBuild(db, "b2").Ok? && db.builds["b2"].project == "p" && db.projects == run.worlds[0].db.projects
            && BuildPath("b2", h) in db.buildPaths && h in db.paths && db.paths[h].url == doc.url
  {
    var projects := run.worlds[0].db.projects;
    After5(cfg, run, doc, h, bytes);
    DeliveredFacts(cfg, projects, doc, h, ObjectKey(projects["p"].storageId, doc.url), bytes);
    hide Delivered, StepAt;
    EventGrows(cfg, run, 5);
    EventKeepsPending(cfg, run, 5, "b2");
  }

  lemma LostIsUnserved(cfg: Config, w: World, view: View, path: string)
    requires forall k :: k in w.blobs ==> k.path != path
    ensures GetVisible(cfg, w, view, path).None?
  {
    if ObjectVisible(w.db, view, path) {
      assert Available(cfg, w, path) == {};
    }
  }

  lemma ServedAt6(cfg: Config, run: Run, doc: NarInfo, h: string, bytes: Blob, more: Blob)
    requires Contested(cfg, run, doc, h, bytes) && run.events == UnservedPush(doc, h, bytes, more)
    ensures Names(run.worlds[6].db, NAMED, "b1") && ServesBytes(cfg, run.worlds[6], doc.url, bytes)
    ensures run.worlds[6].blobs == map[ObjectKey(run.worlds[0].db.projects["p"].storageId, doc.url) := bytes]
  {
    PublishedAt6(cfg, run, doc, h, bytes, more);
    PublishedIsHeld(cfg, run, 5, NAMED, "b1", h);
    ServedRefsAreProtected(cfg, run, 5, 6, NAMED, "b1", h);
  }

  lemma LostAt7(cfg: Config, run: Run, doc: NarInfo, h: string, bytes: Blob, more: Blob)
    requires Contested(cfg, run, doc, h, bytes) && run.events == UnservedPush(doc, h, bytes, more)
    ensures run.worlds[7] == World(run.worlds[6].db, map[])
  {
    var k := ObjectKey(run.worlds[0].db.projects["p"].storageId, doc.url);
    UnservedFacts(cfg, doc, h);
    ServedAt6(cfg, run, doc, h, bytes, more);
    SecondStillPending(cfg, run, doc, h, bytes, more);
    TargetOf(cfg, run.worlds[6].db, "b2", doc, h);
    OverlongStep(cfg, run.worlds[6], doc, h, k, more, 7);
    assert StepAt(cfg, run, 6);
    assert map[k := bytes] - {k} == map[];
  }

  /**
   For every document that has to be uploaded there is a run from an empty depot, without any pass, in which a
   published build's NAR is served and, after another build completed its own requested upload of the path and
   reported 2^63 bytes, no longer is, though the ref still names the build.
   */
  lemma OverlongCompletionUnserves(cfg: Config, start: World, doc: NarInfo, h: string, bytes: Blob, more: Blob)
    returns (run: Run)
    requires IsEmptyDepot(cfg, start) && IsUnserved(cfg, doc, h)
    ensures IsRun(cfg, run) && run.worlds[0] == start && run.events == UnservedPush(doc, h, bytes, more)
    ensures Requested(cfg, run.worlds[3], run.events[3].event, "b2") == [PlannedUpload(h, doc.url)]
    ensures Publishes(cfg, run, 5, NAMED, "b1") && ServesBytes(cfg, run.worlds[6], doc.url, bytes)
    ensures Names(run.worlds[7].db, NAMED, "b1") && GetVisible(cfg, run.worlds[7], ProjectView("p"), doc.url).None?
  {
    UnservedIsOrdered(doc, h, bytes, more);
    run := EveryScheduleRuns(cfg, start, UnservedPush(doc, h, bytes, more));
    UnservedRun(cfg, run, doc, h, bytes, more);
  }

  lemma UnservedRun(cfg: Config, run: Run, doc: NarInfo, h: string, bytes: Blob, more: Blob)
    requires Contested(cfg, run, doc, h, bytes) && run.events == UnservedPush(doc, h, bytes, more)
    ensures Requested(cfg, run.worlds[3], run.events[3].event, "b2") == [PlannedUpload(h, doc.url)]
    ensures Publishes(cfg, run, 5, NAMED, "b1") && ServesBytes(cfg, run.worlds[6], doc.url, bytes)
    ensures Names(run.worlds[7].db, NAMED, "b1") && GetVisible(cfg, run.worlds[7], ProjectView("p"), doc.url).None?
  {
    After4(cfg, run, doc, h, bytes);
    PublishedAt6(cfg, run, doc, h, bytes, more);
    ServedAt6(cfg, run, doc, h, bytes, more);
    LostAt7(cfg, run, doc, h, bytes, more);
    LostIsUnserved(cfg, run.worlds[7], ProjectView("p"), doc.url);
  }

  // ---- A push that a half-finished registration leaves stuck ----

  /** The same document with a compression that is not supported. */
  function Refused(doc: NarInfo): (bad: NarInfo) {
    doc.(compression := "lzma")
  }

  lemma RefusedIsRefused(cfg: Config, doc: NarInfo)
    ensures ValidatePublish(cfg.storeDir, Refused(doc)).Err?
  {
    assert ParseCompression(Refused(doc).compression) == None;
  }

  function HalfPush(doc: NarInfo): (events: seq<Timed>) {
    [Timed(1, Begin("p", "r", "b")), Timed(2, Register("b", [doc, Refused(doc)], {}))]
  }

  lemma RegisterHalf(cfg: Config, w: World, doc: NarInfo, h: string, db1: Db)
    requires PendingBuild(w.db, "b").Ok? && ValidatePublish(cfg.storeDir, doc) == Ok(h) && UpsertPathInfo(w.db, doc) == Ok(db1)
    ensures RegisterAll(cfg, w.db, "b", [doc, Refused(doc)]).0 == AttachBuildPath(db1, "b", h)
    ensures RegisterPaths(cfg, w, "b", [doc, Refused(doc)]).0 == World(AttachBuildPath(db1, "b", h), w.blobs)
    ensures RegisterPaths(cfg, w, "b", [doc, Refused(doc)]).1.Err?
  {
    RefusedIsRefused(cfg, doc);
    assert [doc, Refused(doc)][1..] == [Refused(doc)];
  }

  function HalfBegun(projects: map<string, Project>): (db: Db) {
    Db(projects, map[], map[], map["b" := Build("p", "r", Pending, 1, None)], {}, map[], {}, map[], map[])
  }

  lemma HalfWorlds(cfg: Config, run: Run, doc: NarInfo, h: string)
    requires IsRun(cfg, run) && IsEmptyDepot(cfg, run.worlds[0]) && IsUnserved(cfg, doc, h) && run.events == HalfPush(doc)
    ensures run.worlds[1] == World(HalfBegun(run.worlds[0].db.projects), map[])
    ensures doc.narHash.Normalize().Ok?
    ensures run.worlds[2] == World(AttachBuildPath(HalfBegun(run.worlds[0].db.projects).(paths := map[h := StoredForm(doc)]),
                                                   "b", h), map[])
    ensures Requested(cfg, run.worlds[1], run.events[1].event, "b") == []
  {
    var begun := HalfBegun(run.worlds[0].db.projects);
    BeginStep(cfg, run.worlds[0], "p", "r", "b", 1);
    AcceptedFirstUpsert(cfg, begun, doc, h);
    RegisterHalf(cfg, World(begun, map[]), doc, h, begun.(paths := map[h := StoredForm(doc)]));
    assert StepAt(cfg, run, 0) && StepAt(cfg, run, 1);
  }

  lemma HalfLosesNothing(cfg: Config, run: Run, doc: NarInfo)
    requires |run.worlds| == |run.events| + 1 && run.events == HalfPush(doc)
    ensures NothingLost(cfg, run, "b", 2)
  {
    forall g ensures KeptSince(cfg, run, "b", g, 0, 2) {
      forall j | 0 <= j < 2 ensures !PathLostAt(cfg, run, j, "b", g) {
        assert !run.events[j].event.Complete?;
      }
    }
  }

  lemma HalfOwesNothing(cfg: Config, run: Run, doc: NarInfo, h: string, p: PlannedUpload)
    requires IsRun(cfg, run) && IsEmptyDepot(cfg, run.worlds[0]) && IsUnserved(cfg, doc, h) && run.events == HalfPush(doc)
    ensures !Owes(cfg, run, "b", 2, p)
  {
    HalfWorlds(cfg, run, doc, h);
    forall i | 0 <= i < 2 ensures !OwesSince(cfg, run, "b", i, 2, p) {
      if i == 0 { AskedByRegistering(cfg, run.worlds[0], run.events[0].event, "b"); }
    }
  }

  lemma HalfIsStuck(cfg: Config, run: Run, doc: NarInfo, h: string)
    requires IsRun(cfg, run) && IsEmptyDepot(cfg, run.worlds[0]) && IsUnserved(cfg, doc, h) && run.events == HalfPush(doc)
    ensures PendingBuild(run.worlds[2].db, "b").Ok? && HasPath(run.worlds[2].db, "b")
    ensures !FinalizeBuild(cfg, run.worlds[2], "b", 3).1.Ok?
  {
    HalfWorlds(cfg, run, doc, h);
    FinalizeOnePath(cfg, run.worlds[2], "b", doc, h, 3);
  }

  /**
   For every document that has to be uploaded there is a run from an empty depot in which a registration stops at
   its second document: the first one is attached, nothing was asked for, lost or is owed, and the pending build
   cannot be finalized.
   */
  lemma HalfRegistrationStrands(cfg: Config, start: World, doc: NarInfo, h: string) returns (run: Run)
    requires IsEmptyDepot(cfg, start) && IsUnserved(cfg, doc, h)
    ensures IsRun(cfg, run) && run.worlds[0] == start && run.events == HalfPush(doc)
    ensures NothingLost(cfg, run, "b", 2) && forall p :: !Owes(cfg, run, "b", 2, p)
    ensures PendingBuild(run.worlds[2].db, "b").Ok? && HasPath(run.worlds[2].db, "b")
    ensures !FinalizeBuild(cfg, run.worlds[2], "b", 3).1.Ok?
  {
    run := EveryScheduleRuns(cfg, start, HalfPush(doc));
    HalfLosesNothing(cfg, run, doc);
    HalfIsStuck(cfg, run, doc, h);
    forall p ensures !Owes(cfg, run, "b", 2, p) {
      HalfOwesNothing(cfg, run, doc, h, p);
    }
  }
}
