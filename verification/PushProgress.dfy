/** A build whose required uploads are done can be finalized, whatever else happens in the meantime. */
module PushProgress {
  import opened Wrappers
  import opened Text
  import opened NixHash
  import opened NarInfo
  import opened Validation
  import opened Tables
  import opened Liveness
  import opened Collection
  import opened Ingest
  import opened Runs
  import opened Progression
  import opened ObjectLife
  import opened ServedRefs

  // ---- When finalizing succeeds ----

  predicate IsAvailable(blobs: Blobs, storageId: string, upstreams: seq<set<string>>, url: string) {
    ObjectKey(storageId, url) in blobs || exists i :: 0 <= i < |upstreams| && url in upstreams[i]
  }

  lemma {:induction false} CheckSucceedsExactly(db: Db, paths: map<string, NarInfo>, blobs: Blobs, storageId: string,
                                                upstreams: seq<set<string>>, hashes: seq<string>)
    requires forall h :: h in hashes ==> h in paths
    ensures CheckObjects(db, paths, blobs, storageId, upstreams, hashes).1.Ok?
            <==> forall h :: h in hashes ==> IsAvailable(blobs, storageId, upstreams, paths[h].url)
    decreases |hashes|
  {
    if hashes != [] {
      assert hashes == [hashes[0]] + hashes[1..];
      var k := ObjectKey(storageId, paths[hashes[0]].url);
      var db1 := if k in blobs then LinkObject(UpsertObject(db, k, HeadMetadata(blobs[k])), hashes[0], k.path) else db;
      CheckSucceedsExactly(db1, paths, blobs, storageId, upstreams, hashes[1..]);
      if !IsAvailable(blobs, storageId, upstreams, paths[hashes[0]].url) { assert hashes[0] in hashes; }
    }
  }

  predicate HasPath(db: Db, b: string) {
    exists h :: h in db.paths && BuildPath(b, h) in db.buildPaths
  }

  /** Every NAR of the build is in the project's storage or upstream. */
  predicate AllAvailable(cfg: Config, w: World, b: string, project: string)
    requires project in w.db.projects
  {
    forall h :: h in w.db.paths && BuildPath(b, h) in w.db.buildPaths ==>
      IsAvailable(w.blobs, w.db.projects[project].storageId, UpstreamsOf(cfg, project), w.db.paths[h].url)
  }

  lemma CheckBuildExactly(cfg: Config, w: World, b: string, project: string)
    requires project in w.db.projects
    ensures CheckBuild(cfg, w, b, project).1.Ok?
            <==> HasPath(w.db, b) && w.db.projects[project].storageId in cfg.backends && AllAvailable(cfg, w, b, project)
  {
    var hashes := BuildHashes(w.db, b);
    CheckSucceedsExactly(w.db, w.db.paths, w.blobs, w.db.projects[project].storageId, UpstreamsOf(cfg, project), hashes);
    if hashes != [] { assert hashes[0] in hashes; }
  }

  /**
   Finalizing succeeds exactly for a pending build with at least one path, whose project's backend
   is configured and whose NARs are each in that backend or upstream.
   */
  lemma FinalizeSucceedsExactly(cfg: Config, w: World, b: string, now: int)
    ensures FinalizeBuild(cfg, w, b, now).1.Ok?
            <==> && PendingBuild(w.db, b).Ok? && HasPath(w.db, b)
                 && w.db.projects[w.db.builds[b].project].storageId in cfg.backends
                 && AllAvailable(cfg, w, b, w.db.builds[b].project)
  {
    if PendingBuild(w.db, b).Ok? { CheckBuildExactly(cfg, w, b, w.db.builds[b].project); }
  }

  // ---- What a registration announces ----

  predicate PlanNames(blobs: Blobs, storageId: string, upstreams: seq<set<string>>, n: NarInfo, p: PlannedUpload) {
    && HashFromStorePath(n.storePath) == Ok(p.storePathHash) && n.url == p.path
    && IsNarPath(n.url) && !IsAvailable(blobs, storageId, upstreams, n.url)
  }

  lemma PlanHead(blobs: Blobs, storageId: string, upstreams: seq<set<string>>, narinfos: seq<NarInfo>, p: PlannedUpload)
    requires narinfos != [] && PlanUploads(blobs, storageId, upstreams, narinfos).Ok?
    ensures PlanUploads(blobs, storageId, upstreams, narinfos[1..]).Ok?
    ensures p in PlanUploads(blobs, storageId, upstreams, narinfos).value
            <==> || PlanNames(blobs, storageId, upstreams, narinfos[0], p)
                 || p in PlanUploads(blobs, storageId, upstreams, narinfos[1..]).value
  {}

  /** The planned uploads are exactly the NARs of the documents that are neither in the backend nor upstream. */
  lemma {:induction false} PlannedExactly(blobs: Blobs, storageId: string, upstreams: seq<set<string>>,
                                          narinfos: seq<NarInfo>, p: PlannedUpload)
    requires PlanUploads(blobs, storageId, upstreams, narinfos).Ok?
    ensures p in PlanUploads(blobs, storageId, upstreams, narinfos).value
            <==> exists n :: n in narinfos && PlanNames(blobs, storageId, upstreams, n, p)
    decreases |narinfos|
  {
    if narinfos != [] {
      assert narinfos == [narinfos[0]] + narinfos[1..];
      PlanHead(blobs, storageId, upstreams, narinfos, p);
      PlannedExactly(blobs, storageId, upstreams, narinfos[1..], p);
    }
  }

  lemma LinkHead(db: Db, blobs: Blobs, storageId: string, narinfos: seq<NarInfo>, h: string)
    requires narinfos != [] && HashFromStorePath(narinfos[0].storePath) == Ok(h)
    ensures LinkLocal(db, blobs, storageId, narinfos).0
            == LinkLocal(LinkIfLocal(db, blobs, ObjectKey(storageId, narinfos[0].url), h), blobs, storageId, narinfos[1..]).0
  {}

  lemma LinkOneIsRecorded(db: Db, blobs: Blobs, k: ObjectKey, h: string)
    requires IsNarPath(k.path) && k in blobs
    ensures LinkedFresh(LinkIfLocal(db, blobs, k, h), h, k)
  {}

  lemma LaterLinksKeep(db1: Db, blobs: Blobs, storageId: string, narinfos: seq<NarInfo>, id: string,
                       hashes: seq<string>, h: string, k: ObjectKey)
    requires AllRegistered(db1, id, narinfos, hashes) && LinkedFresh(db1, h, k)
    ensures LinkedFresh(LinkLocal(db1, blobs, storageId, narinfos).0, h, k)
  {
    LinkLocalRecords(db1, blobs, storageId, narinfos, id, hashes);
    RecordedStays(db1, LinkLocal(db1, blobs, storageId, narinfos).0, h, k);
  }

  lemma LinkedTail(db: Db, blobs: Blobs, storageId: string, narinfos: seq<NarInfo>, id: string, hashes: seq<string>)
    requires narinfos != [] && AllRegistered(db, id, narinfos, hashes)
    ensures var db1 := LinkIfLocal(db, blobs, ObjectKey(storageId, narinfos[0].url), hashes[0]);
            && AllRegistered(db1, id, narinfos[1..], hashes[1..])
            && LinkLocal(db, blobs, storageId, narinfos).0 == LinkLocal(db1, blobs, storageId, narinfos[1..]).0
  {
    assert Registered(db, id, narinfos[0], hashes[0]);
    LinkHead(db, blobs, storageId, narinfos, hashes[0]);
    RegisteredTail(db, LinkIfLocal(db, blobs, ObjectKey(storageId, narinfos[0].url), hashes[0]), id, narinfos, hashes);
  }

  lemma FirstIsRecorded(db: Db, blobs: Blobs, storageId: string, narinfos: seq<NarInfo>, id: string, hashes: seq<string>,
                        k: ObjectKey)
    requires narinfos != [] && AllRegistered(db, id, narinfos, hashes)
    requires k == ObjectKey(storageId, narinfos[0].url) && IsNarPath(k.path) && k in blobs
    ensures LinkedFresh(LinkLocal(db, blobs, storageId, narinfos).0, hashes[0], k)
  {
    LinkedTail(db, blobs, storageId, narinfos, id, hashes);
    LinkOneIsRecorded(db, blobs, k, hashes[0]);
    LaterLinksKeep(LinkIfLocal(db, blobs, k, hashes[0]), blobs, storageId, narinfos[1..], id, hashes[1..], hashes[0], k);
  }

  lemma {:induction false} LinkedIsRecorded(db: Db, blobs: Blobs, storageId: string, narinfos: seq<NarInfo>, id: string,
                                            hashes: seq<string>, j: nat, k: ObjectKey)
    requires AllRegistered(db, id, narinfos, hashes) && j < |narinfos|
    requires k == ObjectKey(storageId, narinfos[j].url) && IsNarPath(k.path) && k in blobs
    ensures LinkedFresh(LinkLocal(db, blobs, storageId, narinfos).0, hashes[j], k)
    decreases |narinfos|
  {
    hide LinkLocal, LinkIfLocal, LinkedFresh, IsNarPath, Registered;
    if j == 0 {
      FirstIsRecorded(db, blobs, storageId, narinfos, id, hashes, k);
    } else {
      var db1 := LinkIfLocal(db, blobs, ObjectKey(storageId, narinfos[0].url), hashes[0]);
      LinkedTail(db, blobs, storageId, narinfos, id, hashes);
      assert narinfos[1..][j - 1] == narinfos[j] && hashes[1..][j - 1] == hashes[j];
      LinkedIsRecorded(db1, blobs, storageId, narinfos[1..], id, hashes[1..], j - 1, k);
    }
  }

  /** The NAR of a build's path is upstream, or held in the project's storage. */
  predicate Covered(cfg: Config, w: World, b: string, h: string) {
    && b in w.db.builds && w.db.builds[b].project in w.db.projects && h in w.db.paths
    && BuildPath(b, h) in w.db.buildPaths
    && w.db.projects[w.db.builds[b].project].storageId in cfg.backends
    && (ServedUpstream(UpstreamsOf(cfg, w.db.builds[b].project), w.db.paths[h].url)
        || Held(w, b, h, ProjectObject(w.db, w.db.builds[b].project, h)))
  }

  lemma RegisterSucceeds(cfg: Config, w: World, b: string, narinfos: seq<NarInfo>)
    requires RegisterPaths(cfg, w, b, narinfos).1.Ok?
    ensures PendingBuild(w.db, b).Ok?
    ensures var project := w.db.builds[b].project;
            var storageId := w.db.projects[project].storageId;
            var db1 := RegisterAll(cfg, w.db, b, narinfos).0;
            && RegisterAll(cfg, w.db, b, narinfos).1.Ok? && storageId in cfg.backends
            && PlanUploads(w.blobs, storageId, UpstreamsOf(cfg, project), narinfos) == RegisterPaths(cfg, w, b, narinfos).1
            && RegisterPaths(cfg, w, b, narinfos).0 == World(LinkLocal(db1, w.blobs, storageId, narinfos).0, w.blobs)
  {}

  lemma RowIsNarPath(cfg: Config, db: Db, h: string)
    requires RowsRevalidate(cfg, db) && h in db.paths
    ensures IsNarPath(db.paths[h].url)
  {
    AcceptedIsAddressed(cfg.storeDir, db.paths[h]);
    AddressedIsNarPath(db.paths[h]);
  }

  /** A successful registration leaves the NAR of each document covered, or asks for it. */
  lemma RegisteredIsCoveredOrPlanned(cfg: Config, w: World, b: string, narinfos: seq<NarInfo>, j: nat, h: string)
    requires Attached(w.db) && RowsRevalidate(cfg, w.db)
    requires RegisterPaths(cfg, w, b, narinfos).1.Ok? && j < |narinfos|
    requires HashFromStorePath(narinfos[j].storePath) == Ok(h)
    ensures var (w', planned) := RegisterPaths(cfg, w, b, narinfos);
            && BuildPath(b, h) in w'.db.buildPaths && h in w'.db.paths
            && (Covered(cfg, w', b, h) || PlannedUpload(h, w'.db.paths[h].url) in planned.value)
  {
    RegisterSucceeds(cfg, w, b, narinfos);
    var project := w.db.builds[b].project;
    var k := ObjectKey(w.db.projects[project].storageId, narinfos[j].url);
    RegisteredRow(cfg, w.db, b, narinfos, j, h);
    RegisteredObject(cfg, w, b, narinfos, j, h, k);
    LinkedRecords(cfg, w, b, narinfos, k.storageId);
    RegisterAllExtends(cfg, w.db, b, narinfos);
    if !IsAvailable(w.blobs, k.storageId, UpstreamsOf(cfg, project), k.path) {
      PlannedOne(w.blobs, k.storageId, UpstreamsOf(cfg, project), narinfos, j, h);
    }
  }

  lemma PlannedOne(blobs: Blobs, storageId: string, upstreams: seq<set<string>>, narinfos: seq<NarInfo>, j: nat, h: string)
    requires PlanUploads(blobs, storageId, upstreams, narinfos).Ok? && j < |narinfos|
    requires PlanNames(blobs, storageId, upstreams, narinfos[j], PlannedUpload(h, narinfos[j].url))
    ensures PlannedUpload(h, narinfos[j].url) in PlanUploads(blobs, storageId, upstreams, narinfos).value
  {
    PlannedExactly(blobs, storageId, upstreams, narinfos, PlannedUpload(h, narinfos[j].url));
    assert narinfos[j] in narinfos;
  }

  lemma RegisteredRow(cfg: Config, db: Db, b: string, narinfos: seq<NarInfo>, j: nat, h: string)
    requires Attached(db) && RowsRevalidate(cfg, db) && b in db.builds && RegisterAll(cfg, db, b, narinfos).1.Ok?
    requires j < |narinfos| && HashFromStorePath(narinfos[j].storePath) == Ok(h)
    ensures var db1 := RegisterAll(cfg, db, b, narinfos).0;
            && BuildPath(b, h) in db1.buildPaths && h in db1.paths && db1.paths[h].url == narinfos[j].url
            && IsNarPath(narinfos[j].url)
  {
    var db1 := RegisterAll(cfg, db, b, narinfos).0;
    RegisterAllRegisters(cfg, db, b, narinfos);
    assert Registered(db1, b, narinfos[j], HashesOf(narinfos)[j]);
    RegisterAllKeepsRows(cfg, db, b, narinfos);
    RowIsNarPath(cfg, db1, h);
  }

  lemma RegisteredObject(cfg: Config, w: World, b: string, narinfos: seq<NarInfo>, j: nat, h: string, k: ObjectKey)
    requires Attached(w.db) && b in w.db.builds && RegisterAll(cfg, w.db, b, narinfos).1.Ok?
    requires j < |narinfos| && HashFromStorePath(narinfos[j].storePath) == Ok(h)
    requires k.path == narinfos[j].url && IsNarPath(k.path)
    ensures k in w.blobs ==>
              LinkedFresh(LinkLocal(RegisterAll(cfg, w.db, b, narinfos).0, w.blobs, k.storageId, narinfos).0, h, k)
  {
    if k in w.blobs {
      RegisterAllRegisters(cfg, w.db, b, narinfos);
      LinkedIsRecorded(RegisterAll(cfg, w.db, b, narinfos).0, w.blobs, k.storageId, narinfos, b, HashesOf(narinfos), j, k);
    }
  }

  // ---- Uploads ----

  lemma UploadCovers(cfg: Config, w: World, b: string, h: string, path: string, bytes: Blob)
    requires UploadObject(cfg, w, b, h, path, bytes).1.Ok?
    ensures Covered(cfg, UploadObject(cfg, w, b, h, path, bytes).0, b, h)
  {}

  lemma CompletionCovers(cfg: Config, w: World, b: string, h: string, path: string, bytes: Blob, reported: U64,
                         etag: Option<string>)
    requires CompleteMultipart(cfg, w, b, h, path, bytes, reported, etag).1.Ok?
    ensures Covered(cfg, CompleteMultipart(cfg, w, b, h, path, bytes, reported, etag).0, b, h)
  {}

  // ---- Coverage lasts ----

  predicate UpstreamServes(cfg: Config, w: World, b: string, h: string)
    requires b in w.db.builds && h in w.db.paths
  {
    ServedUpstream(UpstreamsOf(cfg, w.db.builds[b].project), w.db.paths[h].url)
  }

  lemma StepKeepsSupply(cfg: Config, w: World, e: Event, now: int, b: string, h: string)
    requires Attached(w.db) && Covered(cfg, w, b, h)
    ensures var db' := Step(cfg, w, e, now).db;
            && b in db'.builds && db'.builds[b].project == w.db.builds[b].project && h in db'.paths
            && db'.paths[h] == w.db.paths[h] && db'.projects == w.db.projects && w.db.buildPaths <= db'.buildPaths
  {
    StepGrows(cfg, w, e, now);
  }

  /**
   While a build is pending, the NAR of a covered path stays covered over an event exactly when upstream
   serves it or the event is not a completion that loses this one object.
   */
  lemma StepKeepsCovered(cfg: Config, w: World, e: Event, now: int, b: string, h: string)
    requires Attached(w.db) && IsPending(w.db, b) && Covered(cfg, w, b, h)
    ensures Covered(cfg, Step(cfg, w, e, now), b, h)
            <==> UpstreamServes(cfg, w, b, h) || !Loses(cfg, w, e, ProjectObject(w.db, w.db.builds[b].project, h))
  {
    var k := ProjectObject(w.db, w.db.builds[b].project, h);
    StepKeepsSupply(cfg, w, e, now, b, h);
    if !UpstreamServes(cfg, w, b, h) {
      HeldIsLive(cfg, w, now, b, h, k);
      StepKeepsHeldExactly(cfg, w, e, now, b, h, k);
    }
  }

  // ---- Over runs ----

  /** The event finishes the upload of a path's NAR for the build. */
  predicate Delivers(cfg: Config, w: World, e: Event, b: string, p: PlannedUpload) {
    match e
    case Upload(id, h, path, bytes) =>
      id == b && p == PlannedUpload(h, path) && UploadObject(cfg, w, id, h, path, bytes).1.Ok?
    case Complete(id, h, path, bytes, reported, etag) =>
      id == b && p == PlannedUpload(h, path) && CompleteMultipart(cfg, w, id, h, path, bytes, reported, etag).1.Ok?
    case _ => false
  }

  /** The uploads that an event's answer asks the pusher of the build for. */
  function Requested(cfg: Config, w: World, e: Event, b: string): (r: seq<PlannedUpload>) {
    if e.Register? && e.id == b then RegisterAnswer(cfg, w, b, e.narinfos, e.unopened).GetOr([]) else []
  }

  /** What the pusher of the build still has to upload after the first `n` events: what was asked for and not done since. */
  ghost predicate Owes(cfg: Config, run: Run, b: string, n: nat, p: PlannedUpload)
    requires |run.worlds| == |run.events| + 1 && n <= |run.events|
  {
    exists i :: 0 <= i < n && OwesSince(cfg, run, b, i, n, p)
  }

  ghost predicate OwesSince(cfg: Config, run: Run, b: string, i: nat, n: nat, p: PlannedUpload)
    requires |run.worlds| == |run.events| + 1 && i < n <= |run.events|
  {
    p in Requested(cfg, run.worlds[i], run.events[i].event, b) && Undelivered(cfg, run, b, i, n, p)
  }

  ghost predicate Undelivered(cfg: Config, run: Run, b: string, i: nat, n: nat, p: PlannedUpload)
    requires |run.worlds| == |run.events| + 1 && n <= |run.events|
  {
    forall j :: i < j < n ==> !DeliveredAt(cfg, run, b, j, p)
  }

  ghost predicate DeliveredAt(cfg: Config, run: Run, b: string, j: nat, p: PlannedUpload)
    requires |run.worlds| == |run.events| + 1 && j < |run.events|
  {
    Delivers(cfg, run.worlds[j], run.events[j].event, b, p)
  }

  /** The `i`-th event is a successful registration of the path for the build. */
  ghost predicate AnnouncedAt(cfg: Config, run: Run, b: string, h: string, i: nat)
    requires |run.worlds| == |run.events| + 1 && i < |run.events|
  {
    var e := run.events[i].event;
    && e.Register? && e.id == b && RegisterAnswer(cfg, run.worlds[i], b, e.narinfos, e.unopened).Ok?
    && exists j :: 0 <= j < |e.narinfos| && HashFromStorePath(e.narinfos[j].storePath) == Ok(h)
  }

  /** The `i`-th event loses the NAR of a covered path of the build that upstream does not serve. */
  ghost predicate PathLostAt(cfg: Config, run: Run, i: nat, b: string, h: string)
    requires |run.worlds| == |run.events| + 1 && i < |run.events|
  {
    var w := run.worlds[i];
    && Covered(cfg, w, b, h) && !UpstreamServes(cfg, w, b, h)
    && Loses(cfg, w, run.events[i].event, ProjectObject(w.db, w.db.builds[b].project, h))
  }

  ghost predicate KeptSince(cfg: Config, run: Run, b: string, h: string, i: nat, n: nat)
    requires |run.worlds| == |run.events| + 1 && n <= |run.events|
  {
    forall j :: i <= j < n ==> !PathLostAt(cfg, run, j, b, h)
  }

  /** None of the first `n` events loses the NAR of a path of this build; what they lose of others does not matter. */
  ghost predicate NothingLost(cfg: Config, run: Run, b: string, n: nat)
    requires |run.worlds| == |run.events| + 1 && n <= |run.events|
  {
    forall h :: KeptSince(cfg, run, b, h, 0, n)
  }

  lemma KeptShortly(cfg: Config, run: Run, b: string, h: string, i: nat, n: nat)
    requires |run.worlds| == |run.events| + 1 && i < n <= |run.events| && KeptSince(cfg, run, b, h, i, n)
    ensures KeptSince(cfg, run, b, h, i, n - 1) && !PathLostAt(cfg, run, n - 1, b, h)
  {
    forall j | i <= j < n - 1 ensures !PathLostAt(cfg, run, j, b, h) {
      assert i <= j < n;
    }
  }

  lemma KeptLately(cfg: Config, run: Run, b: string, h: string, i: nat, n: nat)
    requires |run.worlds| == |run.events| + 1 && n <= |run.events| && KeptSince(cfg, run, b, h, 0, n)
    ensures KeptSince(cfg, run, b, h, i, n)
  {
    forall j | i <= j < n ensures !PathLostAt(cfg, run, j, b, h) {
      assert 0 <= j < n;
    }
  }

  lemma AnnouncementCoversOrAsks(cfg: Config, run: Run, b: string, h: string, i: nat)
    requires IsRun(cfg, run) && i < |run.events| && AnnouncedAt(cfg, run, b, h, i)
    ensures h in run.worlds[i + 1].db.paths
    ensures Covered(cfg, run.worlds[i + 1], b, h)
            || PlannedUpload(h, run.worlds[i + 1].db.paths[h].url) in Requested(cfg, run.worlds[i], run.events[i].event, b)
  {
    var w, e := run.worlds[i], run.events[i].event;
    var j: nat :| j < |e.narinfos| && HashFromStorePath(e.narinfos[j].storePath) == Ok(h);
    ReachableInvariant(cfg, run, i, run.events[i].at);
    ReachableRows(cfg, run, i);
    RegisteredIsCoveredOrPlanned(cfg, w, b, e.narinfos, j, h);
    assert StepAt(cfg, run, i);
  }

  lemma DeliveryCovers(cfg: Config, w: World, e: Event, now: int, b: string, p: PlannedUpload)
    requires Delivers(cfg, w, e, b, p)
    ensures Covered(cfg, Step(cfg, w, e, now), b, p.storePathHash)
  {
    if e.Upload? {
      UploadCovers(cfg, w, b, e.h, e.path, e.bytes);
    } else {
      CompletionCovers(cfg, w, b, e.h, e.path, e.bytes, e.reported, e.etag);
    }
  }

  lemma EventKeepsCovered(cfg: Config, run: Run, n: nat, b: string, h: string)
    requires IsRun(cfg, run) && n < |run.events| && !PathLostAt(cfg, run, n, b, h)
    requires IsPending(run.worlds[n].db, b) && Covered(cfg, run.worlds[n], b, h)
    ensures Covered(cfg, run.worlds[n + 1], b, h)
  {
    ReachableInvariant(cfg, run, n, run.events[n].at);
    assert StepAt(cfg, run, n);
    StepKeepsCovered(cfg, run.worlds[n], run.events[n].event, run.events[n].at, b, h);
  }

  /** A build that is pending at some point was pending before, ever since it was there. */
  lemma PendingBefore(cfg: Config, run: Run, m: nat, n: nat, b: string)
    requires IsRun(cfg, run) && m <= n <= |run.events|
    requires b in run.worlds[m].db.builds && IsPending(run.worlds[n].db, b)
    ensures IsPending(run.worlds[m].db, b)
  {
    if run.worlds[m].db.builds[b].status == Finalized { FinalizedStays(cfg, run, m, n, b); }
  }

  lemma AnnouncedBuild(cfg: Config, run: Run, b: string, h: string, i: nat)
    requires IsRun(cfg, run) && i < |run.events| && AnnouncedAt(cfg, run, b, h, i)
    ensures b in run.worlds[i].db.builds
  {
    RegisterSucceeds(cfg, run.worlds[i], b, run.events[i].event.narinfos);
  }

  lemma EventSettles(cfg: Config, run: Run, b: string, i: nat, n: nat, p: PlannedUpload)
    requires IsRun(cfg, run) && i < n < |run.events| && OwesSince(cfg, run, b, i, n, p)
    ensures Covered(cfg, run.worlds[n + 1], b, p.storePathHash) || OwesSince(cfg, run, b, i, n + 1, p)
  {
    if DeliveredAt(cfg, run, b, n, p) {
      assert StepAt(cfg, run, n);
      DeliveryCovers(cfg, run.worlds[n], run.events[n].event, run.events[n].at, b, p);
    } else {
      UndeliveredLonger(cfg, run, b, i, n, p);
    }
  }

  lemma UndeliveredLonger(cfg: Config, run: Run, b: string, i: nat, n: nat, p: PlannedUpload)
    requires |run.worlds| == |run.events| + 1 && i < n < |run.events|
    requires Undelivered(cfg, run, b, i, n, p) && !DeliveredAt(cfg, run, b, n, p)
    ensures Undelivered(cfg, run, b, i, n + 1, p)
  {
    forall j | i < j < n + 1 ensures !DeliveredAt(cfg, run, b, j, p) {
      if j == n { assert !DeliveredAt(cfg, run, b, n, p); } else { assert i < j < n; }
    }
  }

  lemma OwedFromTheStart(cfg: Config, run: Run, b: string, i: nat, p: PlannedUpload)
    requires |run.worlds| == |run.events| + 1 && i < |run.events|
    requires p in Requested(cfg, run.worlds[i], run.events[i].event, b)
    ensures OwesSince(cfg, run, b, i, i + 1, p)
  {}

  ghost predicate CoveredOrOwed(cfg: Config, run: Run, b: string, i: nat, n: nat, p: PlannedUpload)
    requires |run.worlds| == |run.events| + 1 && i < n <= |run.events|
  {
    Covered(cfg, run.worlds[n], b, p.storePathHash) || OwesSince(cfg, run, b, i, n, p)
  }

  lemma EventKeepsCoveredOrOwed(cfg: Config, run: Run, b: string, i: nat, n: nat, p: PlannedUpload)
    requires IsRun(cfg, run) && i < n < |run.events| && !PathLostAt(cfg, run, n, b, p.storePathHash)
    requires IsPending(run.worlds[n].db, b) && CoveredOrOwed(cfg, run, b, i, n, p)
    ensures CoveredOrOwed(cfg, run, b, i, n + 1, p)
  {
    if OwesSince(cfg, run, b, i, n, p) {
      EventSettles(cfg, run, b, i, n, p);
    } else {
      EventKeepsCovered(cfg, run, n, b, p.storePathHash);
    }
  }

  lemma AnnouncedAtFirst(cfg: Config, run: Run, b: string, i: nat, p: PlannedUpload)
    requires IsRun(cfg, run) && i < |run.events| && AnnouncedAt(cfg, run, b, p.storePathHash, i)
    requires p.storePathHash in run.worlds[i + 1].db.paths ==> p.path == run.worlds[i + 1].db.paths[p.storePathHash].url
    ensures CoveredOrOwed(cfg, run, b, i, i + 1, p)
  {
    AnnouncementCoversOrAsks(cfg, run, b, p.storePathHash, i);
    if p in Requested(cfg, run.worlds[i], run.events[i].event, b) { OwedFromTheStart(cfg, run, b, i, p); }
  }

  /** After its announcement, the NAR of a path of a pending build is covered or still owed. */
  lemma {:induction false} AnnouncedIsCoveredOrOwed(cfg: Config, run: Run, b: string, i: nat, n: nat, p: PlannedUpload)
    requires IsRun(cfg, run) && i < n <= |run.events| && KeptSince(cfg, run, b, p.storePathHash, i + 1, n)
    requires IsPending(run.worlds[n].db, b) && b in run.worlds[i].db.builds
    requires CoveredOrOwed(cfg, run, b, i, i + 1, p)
    ensures CoveredOrOwed(cfg, run, b, i, n, p)
    decreases n
  {
    if i + 1 < n {
      RunGrows(cfg, run, i, n - 1);
      PendingBefore(cfg, run, n - 1, n, b);
      KeptShortly(cfg, run, b, p.storePathHash, i + 1, n);
      AnnouncedIsCoveredOrOwed(cfg, run, b, i, n - 1, p);
      EventKeepsCoveredOrOwed(cfg, run, b, i, n - 1, p);
    }
  }

  ghost predicate Announced(cfg: Config, run: Run, b: string, h: string, n: nat)
    requires |run.worlds| == |run.events| + 1 && n <= |run.events|
  {
    exists i :: 0 <= i < n && AnnouncedAt(cfg, run, b, h, i)
  }

  /** A successful registration announced the path, and no event since lost its NAR. */
  ghost predicate Supplied(cfg: Config, run: Run, b: string, h: string, n: nat)
    requires |run.worlds| == |run.events| + 1 && n <= |run.events|
  {
    exists i :: 0 <= i < n && AnnouncedAt(cfg, run, b, h, i) && KeptSince(cfg, run, b, h, i + 1, n)
  }

  lemma AnnouncedIsSupplied(cfg: Config, run: Run, b: string, h: string, n: nat)
    requires |run.worlds| == |run.events| + 1 && n <= |run.events|
    requires Announced(cfg, run, b, h, n) && NothingLost(cfg, run, b, n)
    ensures Supplied(cfg, run, b, h, n)
  {
    var i: nat :| i < n && AnnouncedAt(cfg, run, b, h, i);
    KeptLately(cfg, run, b, h, i + 1, n);
  }

  lemma SuppliedIsCovered(cfg: Config, run: Run, b: string, h: string, n: nat)
    requires IsRun(cfg, run) && n <= |run.events|
    requires IsPending(run.worlds[n].db, b) && Supplied(cfg, run, b, h, n) && forall p :: !Owes(cfg, run, b, n, p)
    ensures Covered(cfg, run.worlds[n], b, h)
  {
    var i: nat :| i < n && AnnouncedAt(cfg, run, b, h, i) && KeptSince(cfg, run, b, h, i + 1, n);
    AnnouncementCoversOrAsks(cfg, run, b, h, i);
    var p := PlannedUpload(h, run.worlds[i + 1].db.paths[h].url);
    AnnouncedAtFirst(cfg, run, b, i, p);
    AnnouncedBuild(cfg, run, b, h, i);
    AnnouncedIsCoveredOrOwed(cfg, run, b, i, n, p);
    assert !Owes(cfg, run, b, n, p);
  }

  lemma CoveredFinalizes(cfg: Config, w: World, b: string, now: int)
    requires PendingBuild(w.db, b).Ok? && HasPath(w.db, b)
    requires forall h :: BuildPath(b, h) in w.db.buildPaths ==> Covered(cfg, w, b, h)
    ensures FinalizeBuild(cfg, w, b, now).1.Ok?
  {
    FinalizeSucceedsExactly(cfg, w, b, now);
    var some :| some in w.db.paths && BuildPath(b, some) in w.db.buildPaths;
    assert Covered(cfg, w, b, some);
  }

  /**
   Over every run: a pending build with at least one path can be finalized as soon as no requested upload is owed,
   when each of its paths was announced by a successful registration and no completion has lost its NAR since;
   whatever passes and requests of other builds happened in between.
   */
  lemma UploadedBuildsFinalize(cfg: Config, run: Run, b: string, n: nat, now: int)
    requires IsRun(cfg, run) && n <= |run.events|
    requires PendingBuild(run.worlds[n].db, b).Ok? && HasPath(run.worlds[n].db, b)
    requires forall h :: BuildPath(b, h) in run.worlds[n].db.buildPaths ==> Supplied(cfg, run, b, h, n)
    requires forall p :: !Owes(cfg, run, b, n, p)
    ensures FinalizeBuild(cfg, run.worlds[n], b, now).1.Ok?
  {
    forall h | BuildPath(b, h) in run.worlds[n].db.buildPaths ensures Covered(cfg, run.worlds[n], b, h) {
      SuppliedIsCovered(cfg, run, b, h, n);
    }
    CoveredFinalizes(cfg, run.worlds[n], b, now);
  }

  /**
   Over every run: a pending build with at least one path and no owed upload can be finalized exactly when its
   backend is configured and the NAR of each other path, never announced or lost since, is there or upstream.
   */
  lemma PushedBuildsFinalizeExactly(cfg: Config, run: Run, b: string, n: nat, now: int)
    requires IsRun(cfg, run) && n <= |run.events|
    requires PendingBuild(run.worlds[n].db, b).Ok? && HasPath(run.worlds[n].db, b)
    requires forall p :: !Owes(cfg, run, b, n, p)
    ensures var w := run.worlds[n];
            var project := w.db.builds[b].project;
            FinalizeBuild(cfg, w, b, now).1.Ok?
            <==> && w.db.projects[project].storageId in cfg.backends
                 && forall h :: h in w.db.paths && BuildPath(b, h) in w.db.buildPaths && !Supplied(cfg, run, b, h, n) ==>
                      IsAvailable(w.blobs, w.db.projects[project].storageId, UpstreamsOf(cfg, project), w.db.paths[h].url)
  {
    var w := run.worlds[n];
    hide StepAt, Step, FinalizeBuild, Covered, IsAvailable, Owes;
    FinalizeSucceedsExactly(cfg, w, b, now);
    forall h | h in w.db.paths && BuildPath(b, h) in w.db.buildPaths && Supplied(cfg, run, b, h, n)
      ensures Covered(cfg, w, b, h)
    {
      SuppliedIsCovered(cfg, run, b, h, n);
    }
    hide Supplied, IsRun;
    forall h | Covered(cfg, w, b, h)
      ensures h in w.db.paths
      ensures IsAvailable(w.blobs, w.db.projects[w.db.builds[b].project].storageId,
                          UpstreamsOf(cfg, w.db.builds[b].project), w.db.paths[h].url)
    {
      CoveredIsAvailable(cfg, w, b, h);
    }
  }

  lemma CoveredIsAvailable(cfg: Config, w: World, b: string, h: string)
    requires PendingBuild(w.db, b).Ok? && Covered(cfg, w, b, h)
    ensures h in w.db.paths
    ensures IsAvailable(w.blobs, w.db.projects[w.db.builds[b].project].storageId,
                        UpstreamsOf(cfg, w.db.builds[b].project), w.db.paths[h].url)
  {}

  lemma RegisterAttaches(cfg: Config, w: World, id: string, narinfos: seq<NarInfo>, bp: BuildPath)
    requires Attached(w.db)
    requires bp in RegisterPaths(cfg, w, id, narinfos).0.db.buildPaths && bp !in w.db.buildPaths
    ensures bp.buildId == id && PendingBuild(w.db, id).Ok?
    ensures RegisterPaths(cfg, w, id, narinfos).1.Ok? ==> bp.storePathHash in HashesOf(narinfos)
  {
    RegistrationStages(cfg, w, id, narinfos);
    if PendingBuild(w.db, id).Ok? {
      RegisterAllExtends(cfg, w.db, id, narinfos);
      if RegisterAll(cfg, w.db, id, narinfos).1.Ok? {
        LinkedRecords(cfg, w, id, narinfos, w.db.projects[w.db.builds[id].project].storageId);
        RegisterAllRegisters(cfg, w.db, id, narinfos);
      }
    }
  }

  lemma HashOfRegistered(db: Db, id: string, narinfos: seq<NarInfo>, hashes: seq<string>, h: string)
    requires AllRegistered(db, id, narinfos, hashes) && h in hashes
    ensures exists j :: 0 <= j < |narinfos| && HashFromStorePath(narinfos[j].storePath) == Ok(h)
  {
    var j :| 0 <= j < |hashes| && hashes[j] == h;
    assert Registered(db, id, narinfos[j], hashes[j]);
  }

  lemma RegisteredHash(cfg: Config, w: World, id: string, narinfos: seq<NarInfo>, h: string)
    requires Attached(w.db) && RegisterPaths(cfg, w, id, narinfos).1.Ok? && h in HashesOf(narinfos)
    ensures exists j :: 0 <= j < |narinfos| && HashFromStorePath(narinfos[j].storePath) == Ok(h)
  {
    RegisterSucceeds(cfg, w, id, narinfos);
    RegisterAllRegisters(cfg, w.db, id, narinfos);
    HashOfRegistered(RegisterAll(cfg, w.db, id, narinfos).0, id, narinfos, HashesOf(narinfos), h);
  }

  /** Only a registration for the build attaches paths to it. */
  lemma StepAttaches(cfg: Config, w: World, e: Event, now: int)
    requires Attached(w.db) && !e.Register?
    ensures Step(cfg, w, e, now).db.buildPaths == w.db.buildPaths
  {
    hide GcPass;
    match e {
      case Upload(id, h, path, bytes) => UploadRecords(cfg, w, id, h, path, bytes);
      case Complete(id, h, path, bytes, reported, etag) => CompleteRecords(cfg, w, id, h, path, bytes, reported, etag);
      case Finalize(id) =>
        if PendingBuild(w.db, id).Ok? { CheckBuildRecords(cfg, w, id, PendingBuild(w.db, id).value.project); }
      case Collect(dryRun, grace, failing) =>
        StepCollects(cfg, w, dryRun, grace, failing, now);
        PassChangesOnlyObjects(cfg, w, dryRun, grace, failing, now);
      case _ =>
    }
  }

  /** Each registration for the build among the first `n` events that finds it pending succeeds. */
  ghost predicate RegistersCleanly(cfg: Config, run: Run, b: string, n: nat)
    requires |run.worlds| == |run.events| + 1 && n <= |run.events|
  {
    forall i :: 0 <= i < n ==> RegistersCleanlyAt(cfg, run, b, i)
  }

  ghost predicate RegistersCleanlyAt(cfg: Config, run: Run, b: string, i: nat)
    requires |run.worlds| == |run.events| + 1 && i < |run.events|
  {
    var e := run.events[i].event;
    e.Register? && e.id == b && PendingBuild(run.worlds[i].db, b).Ok? ==>
      RegisterAnswer(cfg, run.worlds[i], b, e.narinfos, e.unopened).Ok?
  }

  lemma EventAttaches(cfg: Config, run: Run, b: string, i: nat, h: string)
    requires IsRun(cfg, run) && i < |run.events| && RegistersCleanlyAt(cfg, run, b, i)
    requires BuildPath(b, h) in run.worlds[i + 1].db.buildPaths && BuildPath(b, h) !in run.worlds[i].db.buildPaths
    ensures AnnouncedAt(cfg, run, b, h, i)
  {
    var w, e, now := run.worlds[i], run.events[i].event, run.events[i].at;
    ReachableInvariant(cfg, run, i, now);
    assert StepAt(cfg, run, i);
    if e.Register? {
      RegisterAttaches(cfg, w, e.id, e.narinfos, BuildPath(b, h));
      RegisteredHash(cfg, w, b, e.narinfos, h);
    } else {
      StepAttaches(cfg, w, e, now);
    }
  }

  lemma {:induction false} AttachedIsAnnounced(cfg: Config, run: Run, b: string, h: string, n: nat)
    requires IsRun(cfg, run) && n <= |run.events| && RegistersCleanly(cfg, run, b, n)
    requires BuildPath(b, h) in run.worlds[n].db.buildPaths
    ensures Announced(cfg, run, b, h, n)
  {
    if n > 0 {
      if BuildPath(b, h) in run.worlds[n - 1].db.buildPaths {
        AttachedIsAnnounced(cfg, run, b, h, n - 1);
        var i: nat :| i < n - 1 && AnnouncedAt(cfg, run, b, h, i);
        assert i < n;
      } else {
        assert RegistersCleanlyAt(cfg, run, b, n - 1);
        EventAttaches(cfg, run, b, n - 1, h);
      }
    }
  }

  /** The same for a pusher whose registrations all succeeded, when no event lost a NAR of the build. */
  lemma CleanPushesFinalize(cfg: Config, run: Run, b: string, n: nat, now: int)
    requires IsRun(cfg, run) && n <= |run.events| && NothingLost(cfg, run, b, n) && RegistersCleanly(cfg, run, b, n)
    requires PendingBuild(run.worlds[n].db, b).Ok? && HasPath(run.worlds[n].db, b)
    requires forall p :: !Owes(cfg, run, b, n, p)
    ensures FinalizeBuild(cfg, run.worlds[n], b, now).1.Ok?
  {
    forall h | BuildPath(b, h) in run.worlds[n].db.buildPaths ensures Supplied(cfg, run, b, h, n) {
      AttachedIsAnnounced(cfg, run, b, h, n);
      AnnouncedIsSupplied(cfg, run, b, h, n);
    }
    UploadedBuildsFinalize(cfg, run, b, n, now);
  }

  // ---- The converse ----

  lemma StepPublishes(cfg: Config, w: World, e: Event, now: int, b: string)
    requires Attached(w.db) && b in Step(cfg, w, e, now).db.builds
    requires Step(cfg, w, e, now).db.builds[b].status == Finalized
    ensures (b in w.db.builds && w.db.builds[b].status == Finalized)
            || (e == Finalize(b) && FinalizeBuild(cfg, w, b, now).1.Ok?)
  {
    hide GcPass, FinalizeBuild, RegisterPaths;
    match e {
      case Register(id, narinfos, _) => RegisterBuilds(cfg, w, id, narinfos);
      case Finalize(id) => FinalizePublishes(cfg, w, id, now, b);
      case Upload(id, h, path, bytes) => UploadRecords(cfg, w, id, h, path, bytes);
      case Complete(id, h, path, bytes, reported, etag) => CompleteRecords(cfg, w, id, h, path, bytes, reported, etag);
      case Collect(dryRun, grace, failing) =>
        StepCollects(cfg, w, dryRun, grace, failing, now);
        PassChangesOnlyObjects(cfg, w, dryRun, grace, failing, now);
      case _ =>
    }
  }

  lemma FinalizePublishes(cfg: Config, w: World, id: string, now: int, b: string)
    requires var builds := FinalizeBuild(cfg, w, id, now).0.db.builds; b in builds && builds[b].status == Finalized
    ensures (b in w.db.builds && w.db.builds[b].status == Finalized) || (b == id && FinalizeBuild(cfg, w, id, now).1.Ok?)
  {
    if PendingBuild(w.db, id).Ok? { CheckBuildRecords(cfg, w, id, PendingBuild(w.db, id).value.project); }
  }

  lemma RegisterBuilds(cfg: Config, w: World, id: string, narinfos: seq<NarInfo>)
    requires Attached(w.db)
    ensures RegisterPaths(cfg, w, id, narinfos).0.db.builds == w.db.builds
  {
    RegistrationStages(cfg, w, id, narinfos);
    if PendingBuild(w.db, id).Ok? && RegisterAll(cfg, w.db, id, narinfos).1.Ok? {
      LinkedRecords(cfg, w, id, narinfos, w.db.projects[w.db.builds[id].project].storageId);
    }
  }

  lemma EventPublishes(cfg: Config, run: Run, n: nat, b: string)
    requires IsRun(cfg, run) && 0 < n <= |run.events|
    requires b in run.worlds[n].db.builds && run.worlds[n].db.builds[b].status == Finalized
    ensures (b in run.worlds[n - 1].db.builds && run.worlds[n - 1].db.builds[b].status == Finalized)
            || (run.events[n - 1].event == Finalize(b)
                && FinalizeBuild(cfg, run.worlds[n - 1], b, run.events[n - 1].at).1.Ok?)
  {
    ReachableAttached(cfg, run, n - 1);
    assert StepAt(cfg, run, n - 1);
    hide Step, FinalizeBuild, Attached;
    StepPublishes(cfg, run.worlds[n - 1], run.events[n - 1].event, run.events[n - 1].at, b);
  }

  lemma NothingAtStart(cfg: Config, run: Run)
    requires IsRun(cfg, run)
    ensures |run.worlds| == |run.events| + 1 && run.worlds[0].db.builds == map[] && run.worlds[0].db.refs == map[]
  {}

  lemma EventKeepsPending(cfg: Config, run: Run, n: nat, b: string)
    requires IsRun(cfg, run) && n < |run.events| && IsPending(run.worlds[n].db, b) && run.events[n].event != Finalize(b)
    ensures b in run.worlds[n + 1].db.builds ==> IsPending(run.worlds[n + 1].db, b)
  {
    hide FinalizeBuild, StepAt;
    if b in run.worlds[n + 1].db.builds && run.worlds[n + 1].db.builds[b].status == Finalized {
      EventPublishes(cfg, run, n + 1, b);
    }
  }

  /** Over every run: a finalized build was finalized by an event at which each of its NARs was local or upstream. */
  lemma {:induction false} FinalizedWasAvailable(cfg: Config, run: Run, n: nat, b: string) returns (m: nat)
    requires IsRun(cfg, run) && n <= |run.events|
    requires b in run.worlds[n].db.builds && run.worlds[n].db.builds[b].status == Finalized
    ensures m < n && run.events[m].event == Finalize(b) && PendingBuild(run.worlds[m].db, b).Ok?
    ensures HasPath(run.worlds[m].db, b)
    ensures AllAvailable(cfg, run.worlds[m], b, run.worlds[m].db.builds[b].project)
  {
    NothingAtStart(cfg, run);
    hide IsRun, FinalizeBuild, PendingBuild, HasPath, AllAvailable;
    if n == 0 {
      assert false;
    } else {
      EventPublishes(cfg, run, n, b);
      if b in run.worlds[n - 1].db.builds && run.worlds[n - 1].db.builds[b].status == Finalized {
        m := FinalizedWasAvailable(cfg, run, n - 1, b);
      } else {
        m := n - 1;
        FinalizeSucceedsExactly(cfg, run.worlds[m], b, run.events[m].at);
      }
    }
  }
}
