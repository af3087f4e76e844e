/** A published build stays readable as long as its ref names it and the collector's policy keeps it. */
module ServedRefs {
  import opened Wrappers
  import opened NarInfo
  import opened Tables
  import opened Retention
  import opened KeptBuilds
  import opened Liveness
  import opened Collection
  import opened Ingest
  import opened ReadStore
  import opened Runs
  import opened Progression
  import opened ObjectLife

  // ---- A build's object that is in place ----

  /** The path is in the build, its object is linked, and the object has an unmarked row and bytes. */
  predicate Held(w: World, b: string, h: string, k: ObjectKey) {
    && BuildPath(b, h) in w.db.buildPaths && h in w.db.paths && w.db.paths[h].url == k.path
    && LinkedFresh(w.db, h, k) && k in w.blobs
  }

  /** The object is linked to the path and has an unmarked row. */
  predicate LinkedFresh(db: Db, h: string, k: ObjectKey) {
    PathObject(h, k.path, NarObject) in db.pathObjects && k in db.objects && Fresh(db.objects[k])
  }

  lemma StepKeepsHeld(cfg: Config, w: World, e: Event, now: int, b: string, h: string, k: ObjectKey)
    requires Attached(w.db) && Held(w, b, h, k) && !Loses(cfg, w, e, k)
    requires Sweeps(e) ==> k.path in LiveObjects(cfg, w.db, now)
    ensures Held(Step(cfg, w, e, now), b, h, k)
  {
    StepGrows(cfg, w, e, now);
    StepKeepsBlob(cfg, w, e, now, k);
    StepKeepsRow(cfg, w, e, now, k);
  }

  lemma DeadRowIsMarked(cfg: Config, w: World, dryRun: bool, grace: int, failing: set<ObjectKey>, now: int, k: ObjectKey)
    requires !dryRun && k.path !in LiveObjects(cfg, w.db, now)
    ensures var objects := GcPass(cfg, w, dryRun, grace, failing, now).0.db.objects; k !in objects || !Fresh(objects[k])
  {
    PassObjects(cfg, w, dryRun, grace, failing, now);
  }

  /**
   Whatever the event, a held object stays held exactly when the event is not a pass that finds it
   dead and not a completion for it that reports more than a row can hold.
   */
  lemma StepKeepsHeldExactly(cfg: Config, w: World, e: Event, now: int, b: string, h: string, k: ObjectKey)
    requires Attached(w.db) && Held(w, b, h, k)
    ensures Held(Step(cfg, w, e, now), b, h, k)
            <==> !Loses(cfg, w, e, k) && (Sweeps(e) ==> k.path in LiveObjects(cfg, w.db, now))
  {
    hide GcPass;
    if Sweeps(e) && k.path !in LiveObjects(cfg, w.db, now) {
      StepCollects(cfg, w, e.dryRun, e.grace, e.failing, now);
      DeadRowIsMarked(cfg, w, e.dryRun, e.grace, e.failing, now, k);
    } else if Loses(cfg, w, e, k) {
      StepKeepsBlob(cfg, w, e, now, k);
    } else {
      StepKeepsHeld(cfg, w, e, now, b, h, k);
    }
  }

  lemma LinkedToRootIsLive(cfg: Config, db: Db, now: int, h: string, path: string)
    requires h in Roots(cfg, db, now) && h in db.paths && PathObject(h, path, NarObject) in db.pathObjects
    ensures path in LiveObjects(cfg, db, now)
  {
    RootsAreLive(db.paths, Roots(cfg, db, now));
    assert PathObject(h, path, NarObject).path == path;
  }

  /** The objects of a retained or pending build are live. */
  lemma HeldIsLive(cfg: Config, w: World, now: int, b: string, h: string, k: ObjectKey)
    requires Held(w, b, h, k)
    requires b in RetainedBuilds(cfg, w.db, now) || IsPending(w.db, b)
    ensures k.path in LiveObjects(cfg, w.db, now)
  {
    assert BuildPath(b, h).storePathHash == h;
    LinkedToRootIsLive(cfg, w.db, now, h, k.path);
  }

  // ---- The build that a ref names ----

  predicate Names(db: Db, key: RefKey, b: string) {
    key in db.refs && db.refs[key].buildId == b
  }

  /** A rule applies to the ref, has not expired since the ref was updated, and keeps at least one build. */
  ghost predicate KeptAt(cfg: Config, db: Db, key: RefKey, now: int) {
    key in db.refs && KeepsSome(cfg, db, key, db.refs[key].updatedAt, now)
  }

  lemma NewestOfRef(cfg: Config, db: Db, key: RefKey, now: int)
    requires key in db.refs && RefNamesNewest(db, key, now)
    ensures db.refs[key].buildId in RetainedOfRef(cfg, db, key, now) <==> KeptAt(cfg, db, key, now)
  {
    var b := db.refs[key].buildId;
    var s := Candidates(db, key);
    var c := CandidateOf(db, b);
    KeepsSomeExactly(cfg, db, key, db.refs[key].updatedAt, now);
    hide KeepsSome, KeepCount;
    NewestIsKept(s, KeepCount(cfg, db, key, db.refs[key].updatedAt, now), c);
    RetainedOfRefExact(cfg, db, key, now, b);
    TopCandidatesExact(s, KeepCount(cfg, db, key, db.refs[key].updatedAt, now), c);
  }

  /** The build that a ref names is retained exactly when a rule applies to the ref, lasts and keeps some build. */
  lemma CurrentBuildIsRetained(cfg: Config, db: Db, key: RefKey, now: int)
    requires RefsAreCurrent(db, now) && key in db.refs
    ensures db.refs[key].buildId in RetainedBuilds(cfg, db, now) <==> KeptAt(cfg, db, key, now)
  {
    var b := db.refs[key].buildId;
    assert RefNamesNewest(db, key, now);
    NewestOfRef(cfg, db, key, now);
    if b in RetainedBuilds(cfg, db, now) {
      RetainedExactly(cfg, db, now, b);
      var other :| other in db.refs && KeptByRef(cfg, db, now, other, b);
      assert other == key;
      RetainedOfRefExact(cfg, db, key, now, b);
    }
  }

  /** The registered paths reachable from the paths of a build. */
  ghost function ClosureOf(db: Db, b: string): (r: set<string>) {
    Live(db.paths, set bp | bp in db.buildPaths && bp.buildId == b :: bp.storePathHash)
  }

  /** Then everything reachable from the build's paths is live, and so are the objects linked to it. */
  lemma CurrentClosureIsLive(cfg: Config, db: Db, key: RefKey, now: int)
    requires RefsAreCurrent(db, now) && KeptAt(cfg, db, key, now)
    ensures ClosureOf(db, db.refs[key].buildId) <= LivePaths(cfg, db, now)
    ensures forall o :: o in db.pathObjects && o.storePathHash in ClosureOf(db, db.refs[key].buildId) ==>
              o.path in LiveObjects(cfg, db, now)
  {
    var b := db.refs[key].buildId;
    CurrentBuildIsRetained(cfg, db, key, now);
    LiveIsMonotone(db.paths, db.paths, set bp | bp in db.buildPaths && bp.buildId == b :: bp.storePathHash,
                   Roots(cfg, db, now));
  }

  lemma PublishNames(db: Db, key: RefKey, id: string, now: int, other: RefKey, b: string)
    requires id in db.builds && b != id && Names(PublishBuild(db, key, id, now), other, b)
    ensures Names(db, other, b)
  {}

  lemma FinalizeNames(cfg: Config, w: World, id: string, now: int, key: RefKey, b: string)
    requires b in w.db.builds && w.db.builds[b].status == Finalized
    requires Names(FinalizeBuild(cfg, w, id, now).0.db, key, b)
    ensures Names(w.db, key, b)
  {
    if PendingBuild(w.db, id).Ok? {
      var build := PendingBuild(w.db, id).value;
      var db1 := CheckBuild(cfg, w, id, build.project).0;
      CheckBuildRecords(cfg, w, id, build.project);
      if CheckBuild(cfg, w, id, build.project).1.Ok? {
        PublishNames(db1, RefKey(build.project, build.refName), id, now, key, b);
      }
    }
  }

  lemma RegisterRefs(cfg: Config, w: World, id: string, narinfos: seq<NarInfo>)
    requires Attached(w.db)
    ensures RegisterPaths(cfg, w, id, narinfos).0.db.refs == w.db.refs
  {
    RegistrationStages(cfg, w, id, narinfos);
    if PendingBuild(w.db, id).Ok? && RegisterAll(cfg, w.db, id, narinfos).1.Ok? {
      LinkedRecords(cfg, w, id, narinfos, w.db.projects[w.db.builds[id].project].storageId);
    }
  }

  /** A finalized build is never published a second time. */
  lemma StepNames(cfg: Config, w: World, e: Event, now: int, w': World, key: RefKey, b: string)
    requires Attached(w.db) && b in w.db.builds && w.db.builds[b].status == Finalized
    requires w' == Step(cfg, w, e, now) && Names(w'.db, key, b)
    ensures Names(w.db, key, b)
  {
    match e {
      case Register(id, narinfos, _) => RegisterRefs(cfg, w, id, narinfos);
      case Upload(id, h, path, bytes) => UploadRecords(cfg, w, id, h, path, bytes);
      case Complete(id, h, path, bytes, reported, etag) => CompleteRecords(cfg, w, id, h, path, bytes, reported, etag);
      case Finalize(id) => FinalizeNames(cfg, w, id, now, key, b);
      case Collect(dryRun, grace, failing) => PassChangesOnlyObjects(cfg, w, dryRun, grace, failing, now);
      case _ => assert w'.db.refs == w.db.refs;
    }
  }

  lemma FinalizedStays(cfg: Config, run: Run, m: nat, n: nat, b: string)
    requires IsRun(cfg, run) && m <= n <= |run.events|
    requires b in run.worlds[m].db.builds && run.worlds[m].db.builds[b].status == Finalized
    ensures b in run.worlds[n].db.builds && run.worlds[n].db.builds[b] == run.worlds[m].db.builds[b]
  {
    RunGrows(cfg, run, m, n);
  }

  lemma EventNames(cfg: Config, run: Run, n: nat, key: RefKey, b: string)
    requires IsRun(cfg, run) && n < |run.events|
    requires b in run.worlds[n].db.builds && run.worlds[n].db.builds[b].status == Finalized
    requires Names(run.worlds[n + 1].db, key, b)
    ensures Names(run.worlds[n].db, key, b)
  {
    ReachableInvariant(cfg, run, n, run.events[n].at);
    assert StepAt(cfg, run, n);
    StepNames(cfg, run.worlds[n], run.events[n].event, run.events[n].at, run.worlds[n + 1], key, b);
  }

  /** A ref that names a finalized build at the end of a stretch named it all along. */
  lemma {:induction false} NamedAllAlong(cfg: Config, run: Run, m: nat, i: nat, n: nat, key: RefKey, b: string)
    requires IsRun(cfg, run) && m <= i <= n <= |run.events|
    requires b in run.worlds[m].db.builds && run.worlds[m].db.builds[b].status == Finalized
    requires Names(run.worlds[n].db, key, b)
    ensures Names(run.worlds[i].db, key, b)
    decreases n
  {
    if i < n {
      FinalizedStays(cfg, run, m, n - 1, b);
      EventNames(cfg, run, n - 1, key, b);
      NamedAllAlong(cfg, run, m, i, n - 1, key, b);
    }
  }

  // ---- What finalizing puts in place ----

  lemma RecordedStays(a: Db, b: Db, h: string, k: ObjectKey)
    requires Recorded(a, b) && LinkedFresh(a, h, k)
    ensures LinkedFresh(b, h, k)
  {}

  lemma {:induction false} CheckedIsRecorded(db: Db, blobs: Blobs, storageId: string, upstreams: seq<set<string>>,
                                             hashes: seq<string>, h: string)
    requires forall g :: g in hashes ==> g in db.paths
    requires h in hashes && CheckObjects(db, db.paths, blobs, storageId, upstreams, hashes).1.Ok?
    requires ObjectKey(storageId, db.paths[h].url) in blobs
    ensures LinkedFresh(CheckObjects(db, db.paths, blobs, storageId, upstreams, hashes).0, h,
                        ObjectKey(storageId, db.paths[h].url))
    decreases |hashes|
  {
    var k := ObjectKey(storageId, db.paths[hashes[0]].url);
    var db1 := if k in blobs then LinkObject(UpsertObject(db, k, HeadMetadata(blobs[k])), hashes[0], k.path) else db;
    CheckObjectsRecords(db1, blobs, storageId, upstreams, hashes[1..]);
    if h == hashes[0] {
      RecordedStays(db1, CheckObjects(db1, db1.paths, blobs, storageId, upstreams, hashes[1..]).0, h, k);
    } else {
      CheckedIsRecorded(db1, blobs, storageId, upstreams, hashes[1..], h);
    }
  }

  /** The object of a path in the storage of a project. */
  function ProjectObject(db: Db, project: string, h: string): (k: ObjectKey)
    requires project in db.projects && h in db.paths
  {
    ObjectKey(db.projects[project].storageId, db.paths[h].url)
  }

  lemma CheckedBuildIsRecorded(cfg: Config, w: World, b: string, project: string, h: string)
    requires project in w.db.projects && CheckBuild(cfg, w, b, project).1.Ok?
    requires BuildPath(b, h) in w.db.buildPaths && h in w.db.paths && ProjectObject(w.db, project, h) in w.blobs
    ensures var (r, k) := (CheckBuild(cfg, w, b, project).0, ProjectObject(w.db, project, h));
            k.storageId in cfg.backends && LinkedFresh(r, h, k)
  {
    CheckedIsRecorded(w.db, w.blobs, w.db.projects[project].storageId, UpstreamsOf(cfg, project), BuildHashes(w.db, b), h);
  }

  lemma FinalizedIsHeld(cfg: Config, w: World, b: string, now: int, h: string)
    requires FinalizeBuild(cfg, w, b, now).1.Ok? && BuildPath(b, h) in w.db.buildPaths && h in w.db.paths
    requires ProjectObject(w.db, w.db.builds[b].project, h) in w.blobs
    ensures var (w', k) := (FinalizeBuild(cfg, w, b, now).0, ProjectObject(w.db, w.db.builds[b].project, h));
            && Held(w', b, h, k) && k.storageId in cfg.backends && w'.blobs == w.blobs
            && Names(w'.db, RefKey(w.db.builds[b].project, w.db.builds[b].refName), b)
            && b in w'.db.builds && w'.db.builds[b].status == Finalized
  {
    CheckBuildRecords(cfg, w, b, w.db.builds[b].project);
    CheckedBuildIsRecorded(cfg, w, b, w.db.builds[b].project, h);
  }

  // ---- Serving it ----

  lemma HeldIsAvailable(cfg: Config, w: World, b: string, h: string, k: ObjectKey)
    requires Held(w, b, h, k) && k.storageId in cfg.backends
    ensures k.storageId in Available(cfg, w, k.path)
  {
    assert k == ObjectKey(k.storageId, k.path);
  }

  lemma HeldIsVisible(w: World, b: string, h: string, k: ObjectKey, key: RefKey)
    requires Held(w, b, h, k) && Names(w.db, key, b) && key.project in w.db.projects
    ensures ObjectVisible(w.db, ProjectView(key.project), k.path)
  {
    assert RefVisible(w.db, ProjectView(key.project), key);
    assert BuildPath(b, h).storePathHash == h;
    assert PathObject(h, k.path, NarObject).path == k.path;
  }

  /** A held object of the build that a ref names is served from the project's own storage. */
  lemma HeldIsServed(cfg: Config, w: World, b: string, h: string, k: ObjectKey, key: RefKey)
    requires Held(w, b, h, k) && Names(w.db, key, b) && k.storageId in cfg.backends
    requires key.project in w.db.projects && w.db.projects[key.project].storageId == k.storageId
    ensures GetVisible(cfg, w, ProjectView(key.project), k.path) == Some((w.db.objects[k].metadata, w.blobs[k]))
  {
    HeldIsVisible(w, b, h, k, key);
    HeldIsAvailable(cfg, w, b, h, k);
    FetchedChoice(cfg, w, Some(k.storageId), k.path, k.storageId);
    assert k == ObjectKey(k.storageId, k.path);
  }

  lemma HeldIsPubliclyVisible(w: World, b: string, h: string, k: ObjectKey, key: RefKey)
    requires Held(w, b, h, k) && Names(w.db, key, b)
    requires key.project in w.db.projects && w.db.projects[key.project].isPublic
    ensures ObjectVisible(w.db, AggregateView, k.path)
  {
    assert RefVisible(w.db, AggregateView, key);
    assert BuildPath(b, h).storePathHash == h;
    assert PathObject(h, k.path, NarObject).path == k.path;
  }

  ghost predicate ServedFrom(cfg: Config, w: World, view: View, path: string, id: string) {
    var key := ObjectKey(id, path);
    && key in w.db.objects && key in w.blobs
    && GetVisible(cfg, w, view, path) == Some((w.db.objects[key].metadata, w.blobs[key]))
  }

  /**
   There is a copy in the view; the one served is the view's preferred backend's when it has one, else the first,
   and it is this one when its backend is the preferred one.
   */
  ghost predicate ServedIn(cfg: Config, w: World, view: View, k: ObjectKey) {
    var preferred := PreferredStorage(cfg, w.db, view);
    && GetVisible(cfg, w, view, k.path).Some?
    && (forall id :: IsChoice(Available(cfg, w, k.path), preferred, id) ==> ServedFrom(cfg, w, view, k.path, id))
    && (preferred == Some(k.storageId) ==> ServedFrom(cfg, w, view, k.path, k.storageId))
  }

  lemma VisibleIsServed(cfg: Config, w: World, view: View, k: ObjectKey)
    requires ObjectVisible(w.db, view, k.path) && k.storageId in Available(cfg, w, k.path)
    ensures ServedIn(cfg, w, view, k)
  {
    var preferred := PreferredStorage(cfg, w.db, view);
    forall id | IsChoice(Available(cfg, w, k.path), preferred, id) ensures ServedFrom(cfg, w, view, k.path, id) {
      FetchedChoice(cfg, w, preferred, k.path, id);
    }
    if preferred == Some(k.storageId) {
      assert IsChoice(Available(cfg, w, k.path), preferred, k.storageId);
    }
  }

  // ---- Over runs ----

  lemma EventKeepsHeld(cfg: Config, run: Run, n: nat, b: string, h: string, k: ObjectKey, key: RefKey)
    requires IsRun(cfg, run) && n < |run.events| && Held(run.worlds[n], b, h, k)
    requires Names(run.worlds[n].db, key, b) && !Loses(cfg, run.worlds[n], run.events[n].event, k)
    requires Sweeps(run.events[n].event) ==> KeptAt(cfg, run.worlds[n].db, key, run.events[n].at)
    ensures Held(run.worlds[n + 1], b, h, k)
    ensures run.worlds[n + 1].blobs[k] == BytesAfter(cfg, run.worlds[n], run.events[n].event, k, run.worlds[n].blobs[k])
  {
    var w, e, now := run.worlds[n], run.events[n].event, run.events[n].at;
    ReachableInvariant(cfg, run, n, now);
    if Sweeps(e) {
      CurrentBuildIsRetained(cfg, w.db, key, now);
      HeldIsLive(cfg, w, now, b, h, k);
    }
    assert StepAt(cfg, run, n);
    StepKeepsHeld(cfg, w, e, now, b, h, k);
    StepKeepsBlob(cfg, w, e, now, k);
  }

  /** Between events `m` and `n` every pass found the ref kept, and no completion lost the object. */
  ghost predicate KeptThrough(cfg: Config, run: Run, m: nat, n: nat, key: RefKey, k: ObjectKey)
    requires |run.worlds| == |run.events| + 1 && n <= |run.events|
  {
    && (forall i :: m <= i < n && Sweeps(run.events[i].event) ==> KeptAt(cfg, run.worlds[i].db, key, run.events[i].at))
    && (forall i :: m <= i < n ==> !Loses(cfg, run.worlds[i], run.events[i].event, k))
  }

  lemma KeptShorter(cfg: Config, run: Run, m: nat, n: nat, key: RefKey, k: ObjectKey)
    requires |run.worlds| == |run.events| + 1 && m < n <= |run.events| && KeptThrough(cfg, run, m, n, key, k)
    ensures KeptThrough(cfg, run, m, n - 1, key, k)
    ensures !Loses(cfg, run.worlds[n - 1], run.events[n - 1].event, k)
    ensures Sweeps(run.events[n - 1].event) ==> KeptAt(cfg, run.worlds[n - 1].db, key, run.events[n - 1].at)
  {
    forall i | m <= i < n - 1 && Sweeps(run.events[i].event)
      ensures KeptAt(cfg, run.worlds[i].db, key, run.events[i].at)
    {
      assert m <= i < n;
    }
  }

  lemma HeldOnceMore(cfg: Config, run: Run, m: nat, n: nat, b: string, h: string, k: ObjectKey, key: RefKey, before: Blob)
    requires IsRun(cfg, run) && m <= n < |run.events| && Held(run.worlds[n], b, h, k)
    requires Names(run.worlds[n].db, key, b) && !Loses(cfg, run.worlds[n], run.events[n].event, k)
    requires Sweeps(run.events[n].event) ==> KeptAt(cfg, run.worlds[n].db, key, run.events[n].at)
    requires LatestBytes(cfg, run, m, n, k, before, run.worlds[n].blobs[k])
    ensures Held(run.worlds[n + 1], b, h, k)
    ensures LatestBytes(cfg, run, m, n + 1, k, before, run.worlds[n + 1].blobs[k])
  {
    EventKeepsHeld(cfg, run, n, b, h, k, key);
    LatestBytesAfter(cfg, run, m, n, k, before, run.worlds[n].blobs[k], run.worlds[n + 1].blobs[k]);
  }

  lemma {:induction false} HeldAllAlong(cfg: Config, run: Run, m: nat, n: nat, b: string, h: string, k: ObjectKey, key: RefKey)
    requires IsRun(cfg, run) && m <= n <= |run.events| && Held(run.worlds[m], b, h, k)
    requires b in run.worlds[m].db.builds && run.worlds[m].db.builds[b].status == Finalized
    requires Names(run.worlds[n].db, key, b) && KeptThrough(cfg, run, m, n, key, k)
    ensures Held(run.worlds[n], b, h, k)
    ensures LatestBytes(cfg, run, m, n, k, run.worlds[m].blobs[k], run.worlds[n].blobs[k])
    decreases n
  {
    if m < n {
      KeptShorter(cfg, run, m, n, key, k);
      NamedAllAlong(cfg, run, m, n - 1, n, key, b);
      HeldAllAlong(cfg, run, m, n - 1, b, h, k, key);
      HeldOnceMore(cfg, run, m, n - 1, b, h, k, key, run.worlds[m].blobs[k]);
    }
  }

  /** The `m`-th event publishes a build to a ref. */
  ghost predicate Publishes(cfg: Config, run: Run, m: nat, key: RefKey, b: string)
    requires |run.worlds| == |run.events| + 1 && m < |run.events|
  {
    && run.events[m].event == Finalize(b) && FinalizeBuild(cfg, run.worlds[m], b, run.events[m].at).1.Ok?
    && key == RefKey(run.worlds[m].db.builds[b].project, run.worlds[m].db.builds[b].refName)
  }

  lemma PublishedProject(cfg: Config, run: Run, m: nat, key: RefKey, b: string)
    requires |run.worlds| == |run.events| + 1 && m < |run.events| && Publishes(cfg, run, m, key, b)
    ensures key.project in run.worlds[m].db.projects
  {}

  lemma PublishedIsHeld(cfg: Config, run: Run, m: nat, key: RefKey, b: string, h: string)
    requires IsRun(cfg, run) && m < |run.events| && Publishes(cfg, run, m, key, b)
    requires BuildPath(b, h) in run.worlds[m].db.buildPaths && h in run.worlds[m].db.paths
    requires ProjectObject(run.worlds[m].db, key.project, h) in run.worlds[m].blobs
    ensures var (w', k) := (run.worlds[m + 1], ProjectObject(run.worlds[m].db, key.project, h));
            && Held(w', b, h, k) && k.storageId in cfg.backends && w'.blobs == run.worlds[m].blobs
            && Names(w'.db, key, b) && b in w'.db.builds && w'.db.builds[b].status == Finalized
  {
    assert StepAt(cfg, run, m);
    FinalizedIsHeld(cfg, run.worlds[m], b, run.events[m].at, h);
  }

  lemma PublishedStaysHeld(cfg: Config, run: Run, m: nat, n: nat, key: RefKey, b: string, h: string)
    requires IsRun(cfg, run) && m < n <= |run.events| && Publishes(cfg, run, m, key, b)
    requires BuildPath(b, h) in run.worlds[m].db.buildPaths && h in run.worlds[m].db.paths
    requires ProjectObject(run.worlds[m].db, key.project, h) in run.worlds[m].blobs
    requires Names(run.worlds[n].db, key, b)
    requires KeptThrough(cfg, run, m + 1, n, key, ProjectObject(run.worlds[m].db, key.project, h))
    ensures run.worlds[n].db.projects == run.worlds[m].db.projects
    ensures var (w, k) := (run.worlds[n], ProjectObject(run.worlds[m].db, key.project, h));
            && Held(w, b, h, k) && k.storageId in cfg.backends
            && LatestBytes(cfg, run, m + 1, n, k, run.worlds[m].blobs[k], w.blobs[k])
  {
    PublishedProject(cfg, run, m, key, b);
    hide Publishes, StepAt, LatestBytes, KeptThrough, LinkedFresh;
    PublishedIsHeld(cfg, run, m, key, b, h);
    HeldAllAlong(cfg, run, m + 1, n, b, h, ProjectObject(run.worlds[m].db, key.project, h), key);
    RunGrows(cfg, run, m, n);
  }

  /**
   Over every run: a NAR that was in the project's storage when its build was published is served in
   the view of the project as long as the ref names the build, every pass since found the ref kept,
   and no completion lost it. What is served are the bytes of the last write of that object that was
   accepted since, or those from then.
   */
  lemma ServedRefsAreProtected(cfg: Config, run: Run, m: nat, n: nat, key: RefKey, b: string, h: string)
    requires IsRun(cfg, run) && m < n <= |run.events| && Publishes(cfg, run, m, key, b)
    requires BuildPath(b, h) in run.worlds[m].db.buildPaths && h in run.worlds[m].db.paths
    requires ProjectObject(run.worlds[m].db, key.project, h) in run.worlds[m].blobs
    requires Names(run.worlds[n].db, key, b)
    requires KeptThrough(cfg, run, m + 1, n, key, ProjectObject(run.worlds[m].db, key.project, h))
    ensures var (w, k) := (run.worlds[n], ProjectObject(run.worlds[m].db, key.project, h));
            && k in w.db.objects && k in w.blobs
            && GetVisible(cfg, w, ProjectView(key.project), k.path) == Some((w.db.objects[k].metadata, w.blobs[k]))
            && LatestBytes(cfg, run, m + 1, n, k, run.worlds[m].blobs[k], w.blobs[k])
  {
    PublishedStaysHeld(cfg, run, m, n, key, b, h);
    HeldIsServed(cfg, run.worlds[n], b, h, ProjectObject(run.worlds[m].db, key.project, h), key);
  }

  /** The same for the view of all public projects: the NAR stays served there, from the preferred copy. */
  lemma PublicRefsAreProtected(cfg: Config, run: Run, m: nat, n: nat, key: RefKey, b: string, h: string)
    requires IsRun(cfg, run) && m < n <= |run.events| && Publishes(cfg, run, m, key, b)
    requires BuildPath(b, h) in run.worlds[m].db.buildPaths && h in run.worlds[m].db.paths
    requires ProjectObject(run.worlds[m].db, key.project, h) in run.worlds[m].blobs
    requires Names(run.worlds[n].db, key, b) && run.worlds[m].db.projects[key.project].isPublic
    requires KeptThrough(cfg, run, m + 1, n, key, ProjectObject(run.worlds[m].db, key.project, h))
    ensures var (w, k) := (run.worlds[n], ProjectObject(run.worlds[m].db, key.project, h));
            && ServedIn(cfg, w, AggregateView, k)
            && k in w.blobs
            && LatestBytes(cfg, run, m + 1, n, k, run.worlds[m].blobs[k], w.blobs[k])
  {
    var w, k := run.worlds[n], ProjectObject(run.worlds[m].db, key.project, h);
    PublishedStaysHeld(cfg, run, m, n, key, b, h);
    HeldIsPubliclyVisible(w, b, h, k, key);
    HeldIsAvailable(cfg, w, b, h, k);
    VisibleIsServed(cfg, w, AggregateView, k);
  }

  /** At any moment of a run when a ref is kept: its build is retained and its closure is live. */
  lemma KeptRefsAreLive(cfg: Config, run: Run, n: nat, key: RefKey, now: int)
    requires IsRun(cfg, run) && n <= |run.events| && Since(run.events, n, now)
    requires KeptAt(cfg, run.worlds[n].db, key, now)
    ensures var db := run.worlds[n].db;
            && db.refs[key].buildId in RetainedBuilds(cfg, db, now)
            && ClosureOf(db, db.refs[key].buildId) <= LivePaths(cfg, db, now)
            && forall o :: o in db.pathObjects && o.storePathHash in ClosureOf(db, db.refs[key].buildId) ==>
                 o.path in LiveObjects(cfg, db, now)
  {
    ReachableInvariant(cfg, run, n, now);
    CurrentBuildIsRetained(cfg, run.worlds[n].db, key, now);
    CurrentClosureIsLive(cfg, run.worlds[n].db, key, now);
  }
}
