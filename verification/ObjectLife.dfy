/** What happens to the rows and bytes of objects over a run, and why an object may disappear. */
module ObjectLife {
  import opened Wrappers
  import opened Text
  import opened NarInfo
  import opened Tables
  import opened Retention
  import opened Liveness
  import opened Collection
  import opened Ingest
  import opened Runs

  predicate Sweeps(e: Event) {
    e.Collect? && !e.dryRun
  }

  /** A completion of the object that is accepted but reports a length no row can hold: it deletes the object. */
  predicate Loses(cfg: Config, w: World, e: Event, k: ObjectKey) {
    && e.Complete? && e.reported > I64_MAX
    && UploadTarget(cfg, w.db, e.id, e.h, e.path) == Ok(k) && k.storageId in cfg.multipart
  }

  /** An upload or completion of the object that is accepted and recorded: its bytes are the object's from then on. */
  predicate Stores(cfg: Config, w: World, e: Event, k: ObjectKey) {
    match e
    case Upload(id, h, path, _) => UploadTarget(cfg, w.db, id, h, path) == Ok(k)
    case Complete(id, h, path, _, reported, _) =>
      UploadTarget(cfg, w.db, id, h, path) == Ok(k) && k.storageId in cfg.multipart && reported <= I64_MAX
    case _ => false
  }

  /** The bytes of an object after an event that neither loses it nor finds it dead. */
  function BytesAfter(cfg: Config, w: World, e: Event, k: ObjectKey, bytes: Blob): (r: Blob) {
    if Stores(cfg, w, e, k) then e.bytes else bytes
  }

  predicate Fresh(row: ObjectRow) {
    row.deletedAt.None? && row.firstDeletedAt.None?
  }

  /** No row goes away, and a row that is new or different has no tombstone. */
  predicate Rewritten(a: Objects, b: Objects) {
    && (forall k :: k in a ==> k in b)
    && forall k :: k in b && (k !in a || b[k] != a[k]) ==> Fresh(b[k])
  }

  lemma RegisterRewrites(cfg: Config, w: World, id: string, narinfos: seq<NarInfo>)
    requires Attached(w.db)
    ensures Rewritten(w.db.objects, RegisterPaths(cfg, w, id, narinfos).0.db.objects)
  {
    RegistrationStages(cfg, w, id, narinfos);
    if PendingBuild(w.db, id).Ok? && RegisterAll(cfg, w.db, id, narinfos).1.Ok? {
      LinkedRecords(cfg, w, id, narinfos, w.db.projects[w.db.builds[id].project].storageId);
    }
  }

  lemma UploadRewrites(cfg: Config, w: World, e: Event, now: int)
    requires e.Upload? || e.Complete?
    ensures Rewritten(w.db.objects, Step(cfg, w, e, now).db.objects)
  {
    if e.Upload? {
      UploadRecords(cfg, w, e.id, e.h, e.path, e.bytes);
    } else {
      CompleteRecords(cfg, w, e.id, e.h, e.path, e.bytes, e.reported, e.etag);
    }
  }

  lemma FinalizeRewrites(cfg: Config, w: World, id: string, now: int)
    ensures Rewritten(w.db.objects, FinalizeBuild(cfg, w, id, now).0.db.objects)
  {
    if PendingBuild(w.db, id).Ok? {
      CheckBuildRecords(cfg, w, id, PendingBuild(w.db, id).value.project);
    }
  }

  lemma OtherRows(cfg: Config, w: World, e: Event, now: int)
    requires !e.Register? && !e.Upload? && !e.Complete? && !e.Finalize? && !Sweeps(e)
    ensures Step(cfg, w, e, now).db.objects == w.db.objects
  {
    if e.Collect? {
      hide GcPass;
      StepCollects(cfg, w, e.dryRun, e.grace, e.failing, now);
      DryPass(cfg, w, e.grace, e.failing, now);
    }
  }

  lemma DryPass(cfg: Config, w: World, grace: int, failing: set<ObjectKey>, now: int)
    ensures GcPass(cfg, w, true, grace, failing, now).0 == w
  {}

  /** Every step but a collector pass keeps the rows and gives no row a tombstone. */
  lemma StepRewrites(cfg: Config, w: World, e: Event, now: int)
    requires Attached(w.db) && !Sweeps(e)
    ensures Rewritten(w.db.objects, Step(cfg, w, e, now).db.objects)
  {
    hide GcPass;
    if e.Register? {
      RegisterRewrites(cfg, w, e.id, e.narinfos);
    } else if e.Upload? || e.Complete? {
      UploadRewrites(cfg, w, e, now);
    } else if e.Finalize? {
      FinalizeRewrites(cfg, w, e.id, now);
    } else {
      OtherRows(cfg, w, e, now);
    }
  }

  lemma PassKeepsBlob(cfg: Config, w: World, dryRun: bool, grace: int, failing: set<ObjectKey>, now: int, k: ObjectKey)
    requires k in w.blobs
    ensures var blobs := GcPass(cfg, w, dryRun, grace, failing, now).0.blobs;
            && (k in blobs ==> blobs[k] == w.blobs[k])
            && (dryRun || k.path in LiveObjects(cfg, w.db, now) ==> k in blobs)
  {
    if !dryRun {
      var live := LiveObjects(cfg, w.db, now);
      var refreshed := Refreshed(w.db.objects, live, now);
      DeleteBlobsEffect(cfg, w.blobs, InOrder(Ready(refreshed, grace, now)), failing);
      if k.path in live && k in w.db.objects { LiveRowsAreNotReady(w.db.objects, live, grace, now, k); }
    }
  }

  lemma UploadBlobs(cfg: Config, w: World, e: Event, now: int, k: ObjectKey)
    requires (e.Upload? || e.Complete?) && k in w.blobs
    ensures k in Step(cfg, w, e, now).blobs <==> !Loses(cfg, w, e, k)
    ensures !Loses(cfg, w, e, k) ==> Step(cfg, w, e, now).blobs[k] == BytesAfter(cfg, w, e, k, w.blobs[k])
  {}

  lemma RegisterBlobs(cfg: Config, w: World, id: string, narinfos: seq<NarInfo>)
    ensures RegisterPaths(cfg, w, id, narinfos).0.blobs == w.blobs
  {
    RegistrationStages(cfg, w, id, narinfos);
  }

  lemma SweepKeepsBlob(cfg: Config, w: World, e: Event, now: int, k: ObjectKey)
    requires e.Collect? && k in w.blobs
    requires Sweeps(e) ==> k.path in LiveObjects(cfg, w.db, now)
    ensures k in Step(cfg, w, e, now).blobs && Step(cfg, w, e, now).blobs[k] == w.blobs[k]
  {
    hide GcPass;
    StepCollects(cfg, w, e.dryRun, e.grace, e.failing, now);
    PassKeepsBlob(cfg, w, e.dryRun, e.grace, e.failing, now, k);
  }

  lemma OtherBlobs(cfg: Config, w: World, e: Event, now: int)
    requires !e.Upload? && !e.Complete? && !e.Collect?
    ensures Step(cfg, w, e, now).blobs == w.blobs
  {
    hide GcPass;
    if e.Register? { RegisterBlobs(cfg, w, e.id, e.narinfos); }
  }

  /**
   An object's bytes go in no other way than in a pass that finds it dead or in a completion that loses it, and
   they change only when a write of the object is accepted.
   */
  lemma StepKeepsBlob(cfg: Config, w: World, e: Event, now: int, k: ObjectKey)
    requires k in w.blobs
    requires Sweeps(e) ==> k.path in LiveObjects(cfg, w.db, now)
    ensures k in Step(cfg, w, e, now).blobs <==> !Loses(cfg, w, e, k)
    ensures !Loses(cfg, w, e, k) ==> Step(cfg, w, e, now).blobs[k] == BytesAfter(cfg, w, e, k, w.blobs[k])
  {
    hide GcPass;
    if e.Upload? || e.Complete? {
      UploadBlobs(cfg, w, e, now, k);
    } else if e.Collect? {
      SweepKeepsBlob(cfg, w, e, now, k);
    } else {
      OtherBlobs(cfg, w, e, now);
    }
  }

  /** A row that is not refreshed keeps its tombstone or has none; a row goes only in a pass that finds it dead. */
  lemma StepKeepsRow(cfg: Config, w: World, e: Event, now: int, k: ObjectKey)
    requires Attached(w.db) && k in w.db.objects
    requires Sweeps(e) ==> k.path in LiveObjects(cfg, w.db, now)
    ensures k in Step(cfg, w, e, now).db.objects
    ensures Fresh(w.db.objects[k]) || Sweeps(e) ==> Fresh(Step(cfg, w, e, now).db.objects[k])
  {
    hide GcPass;
    if Sweeps(e) {
      StepCollects(cfg, w, e.dryRun, e.grace, e.failing, now);
      PassKeepsLiveObjects(cfg, w, e.dryRun, e.grace, e.failing, now, k);
    } else {
      StepRewrites(cfg, w, e, now);
    }
  }

  // ---- Over runs ----

  /** The `i`-th event is a pass that finds no live path linked to the object. */
  ghost predicate FoundDead(cfg: Config, run: Run, i: nat, path: string)
    requires |run.worlds| == |run.events| + 1 && i < |run.events|
  {
    Sweeps(run.events[i].event) && path !in LiveObjects(cfg, run.worlds[i].db, run.events[i].at)
  }

  /** Over every run, the row of an object is there as long as every pass finds the object live. */
  lemma {:induction false} RowStaysWhileLive(cfg: Config, run: Run, m: nat, n: nat, k: ObjectKey)
    requires IsRun(cfg, run) && m <= n <= |run.events| && k in run.worlds[m].db.objects
    requires forall i :: m <= i < n ==> !FoundDead(cfg, run, i, k.path)
    ensures k in run.worlds[n].db.objects
    decreases n
  {
    if m < n {
      RowStaysWhileLive(cfg, run, m, n - 1, k);
      ReachableInvariant(cfg, run, n - 1, run.events[n - 1].at);
      assert StepAt(cfg, run, n - 1) && !FoundDead(cfg, run, n - 1, k.path);
      StepKeepsRow(cfg, run.worlds[n - 1], run.events[n - 1].event, run.events[n - 1].at, k);
    }
  }

  ghost predicate StoredAt(cfg: Config, run: Run, i: nat, k: ObjectKey)
    requires |run.worlds| == |run.events| + 1 && i < |run.events|
  {
    Stores(cfg, run.worlds[i], run.events[i].event, k)
  }

  ghost predicate NotStored(cfg: Config, run: Run, m: nat, n: nat, k: ObjectKey)
    requires |run.worlds| == |run.events| + 1 && n <= |run.events|
  {
    forall i :: m <= i < n ==> !StoredAt(cfg, run, i, k)
  }

  /** Event `i` is the last accepted write of the object before event `n`, and stored these bytes. */
  ghost predicate StoredLast(cfg: Config, run: Run, i: nat, n: nat, k: ObjectKey, bytes: Blob)
    requires |run.worlds| == |run.events| + 1 && i < n <= |run.events|
  {
    StoredAt(cfg, run, i, k) && bytes == run.events[i].event.bytes && NotStored(cfg, run, i + 1, n, k)
  }

  /** The bytes that the last accepted write of an object from event `m` to before event `n` stored, or those before it. */
  ghost predicate LatestBytes(cfg: Config, run: Run, m: nat, n: nat, k: ObjectKey, before: Blob, bytes: Blob)
    requires |run.worlds| == |run.events| + 1 && m <= n <= |run.events|
  {
    || (bytes == before && NotStored(cfg, run, m, n, k))
    || exists i :: m <= i < n && StoredLast(cfg, run, i, n, k, bytes)
  }

  lemma NotStoredLonger(cfg: Config, run: Run, m: nat, n: nat, k: ObjectKey)
    requires |run.worlds| == |run.events| + 1 && n < |run.events|
    requires NotStored(cfg, run, m, n, k) && !StoredAt(cfg, run, n, k)
    ensures NotStored(cfg, run, m, n + 1, k)
  {}

  lemma LatestBytesAfter(cfg: Config, run: Run, m: nat, n: nat, k: ObjectKey, before: Blob, bytes: Blob, after: Blob)
    requires |run.worlds| == |run.events| + 1 && m <= n < |run.events|
    requires LatestBytes(cfg, run, m, n, k, before, bytes)
    requires after == if StoredAt(cfg, run, n, k) then run.events[n].event.bytes else bytes
    ensures LatestBytes(cfg, run, m, n + 1, k, before, after)
  {
    if StoredAt(cfg, run, n, k) {
      assert StoredLast(cfg, run, n, n + 1, k, after);
    } else if bytes == before && NotStored(cfg, run, m, n, k) {
      NotStoredLonger(cfg, run, m, n, k);
    } else {
      var i :| m <= i < n && StoredLast(cfg, run, i, n, k, bytes);
      NotStoredLonger(cfg, run, i + 1, n, k);
      assert StoredLast(cfg, run, i, n + 1, k, after);
    }
  }

  /** Only one value is the latest, so that predicate says exactly what the bytes are. */
  lemma LatestBytesAreOne(cfg: Config, run: Run, m: nat, n: nat, k: ObjectKey, before: Blob, a: Blob, b: Blob)
    requires |run.worlds| == |run.events| + 1 && m <= n <= |run.events|
    requires LatestBytes(cfg, run, m, n, k, before, a) && LatestBytes(cfg, run, m, n, k, before, b)
    ensures a == b
  {
    if i :| m <= i < n && StoredLast(cfg, run, i, n, k, a) {
      var j :| m <= j < n && StoredLast(cfg, run, j, n, k, b);
      assert i == j;
    }
  }

  lemma BytesOnceMore(cfg: Config, run: Run, m: nat, n: nat, k: ObjectKey, before: Blob)
    requires IsRun(cfg, run) && m <= n < |run.events| && k in run.worlds[n].blobs
    requires !FoundDead(cfg, run, n, k.path) && !Loses(cfg, run.worlds[n], run.events[n].event, k)
    requires LatestBytes(cfg, run, m, n, k, before, run.worlds[n].blobs[k])
    ensures k in run.worlds[n + 1].blobs
    ensures LatestBytes(cfg, run, m, n + 1, k, before, run.worlds[n + 1].blobs[k])
  {
    assert StepAt(cfg, run, n);
    StepKeepsBlob(cfg, run.worlds[n], run.events[n].event, run.events[n].at, k);
    LatestBytesAfter(cfg, run, m, n, k, before, run.worlds[n].blobs[k], run.worlds[n + 1].blobs[k]);
  }

  /**
   Over every run, the bytes of an object are there as long as every pass finds the object live and no completion
   loses it; they are those of its last accepted write.
   */
  lemma {:induction false} BytesStayWhileLive(cfg: Config, run: Run, m: nat, n: nat, k: ObjectKey)
    requires IsRun(cfg, run) && m <= n <= |run.events| && k in run.worlds[m].blobs
    requires forall i :: m <= i < n ==> !FoundDead(cfg, run, i, k.path)
    requires forall i :: m <= i < n ==> !Loses(cfg, run.worlds[i], run.events[i].event, k)
    ensures k in run.worlds[n].blobs
    ensures LatestBytes(cfg, run, m, n, k, run.worlds[m].blobs[k], run.worlds[n].blobs[k])
    decreases n
  {
    if m < n {
      BytesStayWhileLive(cfg, run, m, n - 1, k);
      BytesOnceMore(cfg, run, m, n - 1, k, run.worlds[m].blobs[k]);
    }
  }

  /** Pinned, or a path of a pending or of a retained build. */
  ghost predicate NeedsKeeping(cfg: Config, db: Db, now: int, h: string) {
    || (exists p :: p in db.pins && db.pins[p].storePathHash == h)
    || (exists b :: IsPending(db, b) && BuildPath(b, h) in db.buildPaths)
    || (exists b :: b in RetainedBuilds(cfg, db, now) && BuildPath(b, h) in db.buildPaths)
  }

  lemma NeededIsRoot(cfg: Config, db: Db, now: int, h: string)
    ensures NeedsKeeping(cfg, db, now, h) <==> h in Roots(cfg, db, now)
  {
    if b :| IsPending(db, b) && BuildPath(b, h) in db.buildPaths {
      assert BuildPath(b, h).buildId == b && BuildPath(b, h).storePathHash == h;
    } else if b :| b in RetainedBuilds(cfg, db, now) && BuildPath(b, h) in db.buildPaths {
      assert BuildPath(b, h).buildId == b && BuildPath(b, h).storePathHash == h;
    }
  }

  lemma ReachedIsLive(cfg: Config, db: Db, now: int, root: string, trace: seq<string>, o: PathObject)
    requires root in Roots(cfg, db, now) && Chain(db.paths, trace) && trace[0] == root
    requires o in db.pathObjects && o.storePathHash == trace[|trace| - 1]
    ensures o.path in LiveObjects(cfg, db, now)
  {
    assert ReachedBy(db.paths, Roots(cfg, db, now), o.storePathHash, trace);
  }

  /**
   In no run does a pass, whatever its grace period and however it ends, remove or change the row's
   metadata or the bytes of an object linked to a path that is reachable by references from a pin,
   from a path of a pending build or from a path of a retained build.
   */
  lemma CollectorIsSafe(cfg: Config, run: Run, i: nat, root: string, trace: seq<string>, o: PathObject, k: ObjectKey)
    requires IsRun(cfg, run) && i < |run.events| && run.events[i].event.Collect?
    requires NeedsKeeping(cfg, run.worlds[i].db, run.events[i].at, root)
    requires Chain(run.worlds[i].db.paths, trace) && trace[0] == root
    requires o in run.worlds[i].db.pathObjects && o.storePathHash == trace[|trace| - 1] && k.path == o.path
    ensures Untouched(run.worlds[i], run.worlds[i + 1], k)
  {
    var w, e, now := run.worlds[i], run.events[i].event, run.events[i].at;
    NeededIsRoot(cfg, w.db, now, root);
    ReachedIsLive(cfg, w.db, now, root, trace, o);
    EventIsPass(cfg, run, i);
    PassKeepsLiveObjects(cfg, w, e.dryRun, e.grace, e.failing, now, k);
  }

  lemma PassOf(cfg: Config, w: World, e: Event, now: int, w': World)
    requires e.Collect? && w' == Step(cfg, w, e, now)
    ensures w' == GcPass(cfg, w, e.dryRun, e.grace, e.failing, now).0
  {
    hide GcPass;
    StepCollects(cfg, w, e.dryRun, e.grace, e.failing, now);
  }

  lemma EventIsPass(cfg: Config, run: Run, i: nat)
    requires IsRun(cfg, run) && i < |run.events| && run.events[i].event.Collect?
    ensures var e := run.events[i].event;
            run.worlds[i + 1] == GcPass(cfg, run.worlds[i], e.dryRun, e.grace, e.failing, run.events[i].at).0
  {
    assert StepAt(cfg, run, i);
    PassOf(cfg, run.worlds[i], run.events[i].event, run.events[i].at, run.worlds[i + 1]);
  }

  /**
   In every reachable world a dry run reports, in order, exactly the rows that a wet pass at the same
   time would leave tombstoned or delete, and one without grace and without failures deletes, of these,
   exactly the ones whose backend is configured.
   */
  lemma DryRunPredicts(cfg: Config, run: Run, n: nat, now: int)
    requires IsRun(cfg, run) && n <= |run.events| && Since(run.events, n, now)
    ensures var w := run.worlds[n];
            var stale := Stale(w.db.objects, LiveObjects(cfg, w.db, now));
            var refreshed := Refreshed(w.db.objects, LiveObjects(cfg, w.db, now), now);
            var doomed := set k | k in stale && k.storageId in cfg.backends;
            var (w', report) := GcPass(cfg, w, false, 0, {}, now);
            && (set k | k in refreshed && Tombstoned(refreshed[k])) == stale
            && GcPass(cfg, w, true, 0, {}, now) == (w, Ok(PathsOf(InOrder(stale))))
            && report.Ok? && w'.db.objects.Keys == w.db.objects.Keys - doomed && w'.blobs.Keys == w.blobs.Keys - doomed
  {
    ReachableInvariant(cfg, run, n, now);
    DryRunReportsTombstones(cfg, run.worlds[n], 0, {}, now);
    ZeroGraceDeletesStale(cfg, run.worlds[n], now);
  }
}
