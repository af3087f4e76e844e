/** The grace period is about the whole history of an object: what a run did before it deletes one. */
module GraceHistory {
  import opened Wrappers
  import opened Text
  import opened NixHash
  import opened NarInfo
  import opened Tables
  import opened Liveness
  import opened Collection
  import opened Ingest
  import opened Runs
  import opened ObjectLife
  import opened PushProgress

  ghost predicate Condemned(cfg: Config, run: Run, i: nat, k: ObjectKey)
    requires |run.worlds| == |run.events| + 1 && i < |run.events|
  {
    Sweeps(run.events[i].event) ==> FoundDead(cfg, run, i, k.path)
  }

  predicate StampedAt(w: World, k: ObjectKey, t: int) {
    k in w.db.objects && w.db.objects[k].firstDeletedAt == Some(t)
  }

  /**
   The `m`-th event is a pass that marked the object; every later pass before event `n` found it
   dead too, and it carried that mark all along.
   */
  ghost predicate MarkedSince(cfg: Config, run: Run, m: nat, n: nat, k: ObjectKey)
    requires |run.worlds| == |run.events| + 1 && m < n <= |run.events|
  {
    && FoundDead(cfg, run, m, k.path)
    && (forall i :: m <= i < n ==> Condemned(cfg, run, i, k))
    && (forall i :: m < i <= n ==> StampedAt(run.worlds[i], k, run.events[m].at))
  }

  lemma RefreshedStamp(objects: Objects, live: set<string>, now: int, k: ObjectKey)
    requires k in objects && Refreshed(objects, live, now)[k].firstDeletedAt.Some?
    ensures k.path !in live
    ensures Refreshed(objects, live, now)[k].firstDeletedAt == Coalesce(objects[k].firstDeletedAt, now)
  {}

  /** A mark that is there after a pass was there before it or was set by it, and the object was dead. */
  lemma SweepStamp(cfg: Config, w: World, e: Event, now: int, k: ObjectKey, t: int)
    requires Sweeps(e) && StampedAt(Step(cfg, w, e, now), k, t)
    ensures k.path !in LiveObjects(cfg, w.db, now) && k in w.db.objects
    ensures StampedAt(w, k, t) || (w.db.objects[k].firstDeletedAt.None? && t == now)
  {
    hide GcPass;
    StepCollects(cfg, w, e.dryRun, e.grace, e.failing, now);
    PassObjects(cfg, w, e.dryRun, e.grace, e.failing, now);
    RefreshedStamp(w.db.objects, LiveObjects(cfg, w.db, now), now, k);
  }

  lemma OtherStamp(cfg: Config, w: World, e: Event, now: int, k: ObjectKey, t: int)
    requires Attached(w.db) && !Sweeps(e) && StampedAt(Step(cfg, w, e, now), k, t)
    ensures StampedAt(w, k, t)
  {
    StepRewrites(cfg, w, e, now);
  }

  lemma MarkedLonger(cfg: Config, run: Run, m: nat, n: nat, k: ObjectKey)
    requires |run.worlds| == |run.events| + 1 && m < n < |run.events| && MarkedSince(cfg, run, m, n, k)
    requires Condemned(cfg, run, n, k) && StampedAt(run.worlds[n + 1], k, run.events[m].at)
    ensures MarkedSince(cfg, run, m, n + 1, k)
  {
    hide FoundDead, Condemned, StampedAt;
    forall i | m <= i < n + 1 ensures Condemned(cfg, run, i, k) {
      if i == n { assert Condemned(cfg, run, n, k); } else { assert m <= i < n; }
    }
  }

  lemma JustMarked(cfg: Config, run: Run, n: nat, k: ObjectKey)
    requires |run.worlds| == |run.events| + 1 && n < |run.events|
    requires FoundDead(cfg, run, n, k.path) && StampedAt(run.worlds[n + 1], k, run.events[n].at)
    ensures MarkedSince(cfg, run, n, n + 1, k)
  {
    hide FoundDead, StampedAt;
    forall i | n <= i < n + 1 ensures Condemned(cfg, run, i, k) {
      assert i == n && FoundDead(cfg, run, n, k.path);
    }
  }

  lemma EventStamp(cfg: Config, run: Run, n: nat, k: ObjectKey, t: int)
    requires IsRun(cfg, run) && n < |run.events| && StampedAt(run.worlds[n + 1], k, t)
    ensures Condemned(cfg, run, n, k)
    ensures StampedAt(run.worlds[n], k, t) || (FoundDead(cfg, run, n, k.path) && t == run.events[n].at)
  {
    ReachableInvariant(cfg, run, n, run.events[n].at);
    assert StepAt(cfg, run, n);
    var e, now := run.events[n].event, run.events[n].at;
    if Sweeps(e) {
      SweepStamp(cfg, run.worlds[n], e, now, k, t);
    } else {
      OtherStamp(cfg, run.worlds[n], e, now, k, t);
    }
  }

  /** In every reachable world a mark was set by a pass of the run and kept since. */
  lemma {:induction false} MarksHaveHistory(cfg: Config, run: Run, n: nat, k: ObjectKey, t: int) returns (m: nat)
    requires IsRun(cfg, run) && n <= |run.events| && StampedAt(run.worlds[n], k, t)
    ensures m < n && run.events[m].at == t && MarkedSince(cfg, run, m, n, k)
    decreases n
  {
    if n == 0 {
      assert false;
    } else {
      EventStamp(cfg, run, n - 1, k, t);
      if StampedAt(run.worlds[n - 1], k, t) {
        m := MarksHaveHistory(cfg, run, n - 1, k, t);
        MarkedLonger(cfg, run, m, n - 1, k);
      } else {
        m := n - 1;
        JustMarked(cfg, run, m, k);
      }
    }
  }

  lemma PassDeletes(cfg: Config, w: World, dryRun: bool, grace: int, failing: set<ObjectKey>, now: int, k: ObjectKey)
    requires k in w.db.objects && k !in GcPass(cfg, w, dryRun, grace, failing, now).0.db.objects
    ensures !dryRun && k.path !in LiveObjects(cfg, w.db, now) && k.storageId in cfg.backends
    ensures w.db.objects[k].firstDeletedAt.GetOr(now) / 1000 <= now / 1000 - grace
  {
    PassObjects(cfg, w, dryRun, grace, failing, now);
    RefreshedStamp(w.db.objects, LiveObjects(cfg, w.db, now), now, k);
  }

  lemma OnlyPassesDelete(cfg: Config, w: World, e: Event, now: int, k: ObjectKey)
    requires Attached(w.db) && k in w.db.objects && k !in Step(cfg, w, e, now).db.objects
    ensures Sweeps(e) && k.path !in LiveObjects(cfg, w.db, now) && k.storageId in cfg.backends
    ensures w.db.objects[k].firstDeletedAt.GetOr(now) / 1000 <= now / 1000 - e.grace
  {
    hide GcPass;
    if e.Collect? {
      StepCollects(cfg, w, e.dryRun, e.grace, e.failing, now);
      PassDeletes(cfg, w, e.dryRun, e.grace, e.failing, now, k);
    } else {
      StepRewrites(cfg, w, e, now);
    }
  }

  lemma EventDeletes(cfg: Config, run: Run, n: nat, k: ObjectKey)
    requires IsRun(cfg, run) && n < |run.events|
    requires k in run.worlds[n].db.objects && k !in run.worlds[n + 1].db.objects
    ensures FoundDead(cfg, run, n, k.path)
    ensures var t := run.worlds[n].db.objects[k].firstDeletedAt.GetOr(run.events[n].at);
            t / 1000 <= run.events[n].at / 1000 - run.events[n].event.grace
  {
    ReachableInvariant(cfg, run, n, run.events[n].at);
    assert StepAt(cfg, run, n);
    OnlyPassesDelete(cfg, run.worlds[n], run.events[n].event, run.events[n].at, k);
  }

  /** From event `m` to event `n` every pass found the object dead, and it carried the mark of `m` in between. */
  ghost predicate DeadThrough(cfg: Config, run: Run, m: nat, n: nat, k: ObjectKey)
    requires |run.worlds| == |run.events| + 1 && m <= n < |run.events|
  {
    && FoundDead(cfg, run, m, k.path) && FoundDead(cfg, run, n, k.path)
    && (forall i :: m <= i <= n ==> Condemned(cfg, run, i, k))
    && (forall i :: m < i <= n ==> StampedAt(run.worlds[i], k, run.events[m].at))
  }

  lemma MarkedThrough(cfg: Config, run: Run, m: nat, n: nat, k: ObjectKey)
    requires |run.worlds| == |run.events| + 1 && m < n < |run.events|
    requires MarkedSince(cfg, run, m, n, k) && FoundDead(cfg, run, n, k.path)
    ensures DeadThrough(cfg, run, m, n, k)
  {
    hide FoundDead, StampedAt;
    forall i | m <= i <= n ensures Condemned(cfg, run, i, k) {
      if i == n { assert FoundDead(cfg, run, n, k.path); } else { assert m <= i < n; }
    }
  }

  // ---- Which events record an object ----

  /** Among the paths of a build, taken in order, one with this NAR is reached before one that is nowhere. */
  predicate ReachedInOrder(paths: map<string, NarInfo>, blobs: Blobs, upstreams: seq<set<string>>, hashes: seq<string>,
                           k: ObjectKey)
    requires forall h :: h in hashes ==> h in paths
  {
    exists j :: 0 <= j < |hashes| && ReachedAt(paths, blobs, upstreams, hashes, k, j)
  }

  predicate ReachedAt(paths: map<string, NarInfo>, blobs: Blobs, upstreams: seq<set<string>>, hashes: seq<string>,
                      k: ObjectKey, j: nat)
    requires j < |hashes| && forall h :: h in hashes ==> h in paths
  {
    && paths[hashes[j]].url == k.path
    && forall i :: 0 <= i < j ==> IsAvailable(blobs, k.storageId, upstreams, paths[hashes[i]].url)
  }

  /** The object is a NAR in the backend that one of the documents names. */
  predicate NamesLocal(blobs: Blobs, storageId: string, narinfos: seq<NarInfo>, k: ObjectKey) {
    && k.storageId == storageId && k in blobs && IsNarPath(k.path)
    && exists j :: 0 <= j < |narinfos| && narinfos[j].url == k.path
  }

  /** The event is a request that writes the row of the object. */
  ghost predicate Records(cfg: Config, w: World, e: Event, k: ObjectKey) {
    match e
    case Upload(id, h, path, bytes) => UploadTarget(cfg, w.db, id, h, path) == Ok(k)
    case Complete(id, h, path, bytes, reported, etag) =>
      UploadTarget(cfg, w.db, id, h, path) == Ok(k) && k.storageId in cfg.multipart && reported <= I64_MAX
    case Register(id, narinfos, _) =>
      && RegisterPaths(cfg, w, id, narinfos).1.Ok? && PendingBuild(w.db, id).Ok?
      && NamesLocal(w.blobs, w.db.projects[w.db.builds[id].project].storageId, narinfos, k)
    case Finalize(id) =>
      && PendingBuild(w.db, id).Ok? && k.storageId == w.db.projects[w.db.builds[id].project].storageId
      && k.storageId in cfg.backends && k in w.blobs
      && ReachedInOrder(w.db.paths, w.blobs, UpstreamsOf(cfg, w.db.builds[id].project), BuildHashes(w.db, id), k)
    case _ => false
  }

  lemma RegisterRecordsRow(cfg: Config, w: World, id: string, narinfos: seq<NarInfo>, unopened: set<string>, k: ObjectKey)
    requires Attached(w.db) && Records(cfg, w, Register(id, narinfos, unopened), k)
    ensures var objects := RegisterPaths(cfg, w, id, narinfos).0.db.objects; k in objects && Fresh(objects[k])
  {
    var j: nat :| j < |narinfos| && narinfos[j].url == k.path;
    RegisterSucceeds(cfg, w, id, narinfos);
    RegisterAllRegisters(cfg, w.db, id, narinfos);
    var h := HashesOf(narinfos)[j];
    assert Registered(RegisterAll(cfg, w.db, id, narinfos).0, id, narinfos[j], h);
    RegisteredObject(cfg, w, id, narinfos, j, h, k);
  }

  lemma {:induction false} CheckedRow(db: Db, blobs: Blobs, upstreams: seq<set<string>>, hashes: seq<string>,
                                      k: ObjectKey, j: nat)
    requires (forall h :: h in hashes ==> h in db.paths) && k in blobs
    requires j < |hashes| && ReachedAt(db.paths, blobs, upstreams, hashes, k, j)
    ensures var objects := CheckObjects(db, db.paths, blobs, k.storageId, upstreams, hashes).0.objects;
            k in objects && Fresh(objects[k])
    decreases |hashes|
  {
    var first := ObjectKey(k.storageId, db.paths[hashes[0]].url);
    var db1 := if first in blobs then LinkObject(UpsertObject(db, first, HeadMetadata(blobs[first])), hashes[0], first.path)
               else db;
    if j > 0 {
      assert IsAvailable(blobs, k.storageId, upstreams, db.paths[hashes[0]].url);
      ReachedLater(db.paths, blobs, upstreams, hashes, k, j);
      CheckedRow(db1, blobs, upstreams, hashes[1..], k, j - 1);
    } else {
      CheckObjectsRecords(db1, blobs, k.storageId, upstreams, hashes[1..]);
    }
  }

  lemma ReachedLater(paths: map<string, NarInfo>, blobs: Blobs, upstreams: seq<set<string>>, hashes: seq<string>,
                     k: ObjectKey, j: nat)
    requires 0 < j < |hashes| && (forall h :: h in hashes ==> h in paths)
    requires ReachedAt(paths, blobs, upstreams, hashes, k, j)
    ensures ReachedAt(paths, blobs, upstreams, hashes[1..], k, j - 1)
  {
    forall i | 0 <= i < j - 1 ensures IsAvailable(blobs, k.storageId, upstreams, paths[hashes[1..][i]].url) {
      assert hashes[1..][i] == hashes[i + 1];
    }
  }

  lemma FinalizeRecordsRow(cfg: Config, w: World, id: string, now: int, k: ObjectKey)
    requires Records(cfg, w, Finalize(id), k)
    ensures var objects := FinalizeBuild(cfg, w, id, now).0.db.objects; k in objects && Fresh(objects[k])
  {
    var project := w.db.builds[id].project;
    var hashes := BuildHashes(w.db, id);
    var j: nat :| j < |hashes| && ReachedAt(w.db.paths, w.blobs, UpstreamsOf(cfg, project), hashes, k, j);
    CheckedRow(w.db, w.blobs, UpstreamsOf(cfg, project), hashes, k, j);
  }

  predicate SameRow(a: Objects, b: Objects, k: ObjectKey) {
    (k in a <==> k in b) && (k in a ==> a[k] == b[k])
  }

  lemma {:induction false} PlannedAreLinked(db: Db, blobs: Blobs, storageId: string, upstreams: seq<set<string>>,
                                            narinfos: seq<NarInfo>)
    requires PlanUploads(blobs, storageId, upstreams, narinfos).Ok?
    ensures LinkLocal(db, blobs, storageId, narinfos).1.Ok?
    decreases |narinfos|
  {
    if narinfos != [] {
      var h := HashFromStorePath(narinfos[0].storePath).value;
      var db1 := LinkIfLocal(db, blobs, ObjectKey(storageId, narinfos[0].url), h);
      PlannedAreLinked(db1, blobs, storageId, upstreams, narinfos[1..]);
    }
  }

  lemma NotNamedLater(blobs: Blobs, storageId: string, narinfos: seq<NarInfo>, k: ObjectKey)
    requires narinfos != [] && !NamesLocal(blobs, storageId, narinfos, k)
    ensures !NamesLocal(blobs, storageId, narinfos[1..], k)
    ensures k == ObjectKey(storageId, narinfos[0].url) ==> k !in blobs || !IsNarPath(k.path)
  {
    forall j | 0 <= j < |narinfos[1..]| ensures narinfos[1..][j] == narinfos[j + 1] {}
  }

  lemma LinkingOneKeepsOthers(db: Db, blobs: Blobs, key: ObjectKey, h: string, k: ObjectKey)
    requires k == key ==> k !in blobs || !IsNarPath(k.path)
    ensures SameRow(db.objects, LinkIfLocal(db, blobs, key, h).objects, k)
  {}

  lemma {:induction false} LinkingKeepsOthers(db: Db, blobs: Blobs, storageId: string, narinfos: seq<NarInfo>, k: ObjectKey)
    requires !NamesLocal(blobs, storageId, narinfos, k)
    ensures SameRow(db.objects, LinkLocal(db, blobs, storageId, narinfos).0.objects, k)
    decreases |narinfos|
  {
    if narinfos != [] && HashFromStorePath(narinfos[0].storePath).Ok? {
      var h := HashFromStorePath(narinfos[0].storePath).value;
      var db1 := LinkIfLocal(db, blobs, ObjectKey(storageId, narinfos[0].url), h);
      NotNamedLater(blobs, storageId, narinfos, k);
      LinkingOneKeepsOthers(db, blobs, ObjectKey(storageId, narinfos[0].url), h, k);
      LinkHead(db, blobs, storageId, narinfos, h);
      LinkingKeepsOthers(db1, blobs, storageId, narinfos[1..], k);
    }
  }

  lemma RegisterKeepsOthers(cfg: Config, w: World, id: string, narinfos: seq<NarInfo>, unopened: set<string>, k: ObjectKey)
    requires !Records(cfg, w, Register(id, narinfos, unopened), k)
    ensures SameRow(w.db.objects, RegisterPaths(cfg, w, id, narinfos).0.db.objects, k)
  {
    var pending := PendingBuild(w.db, id);
    if pending.Ok? && RegisterAll(cfg, w.db, id, narinfos).1.Ok? {
      var project := pending.value.project;
      var storageId := w.db.projects[project].storageId;
      var db1 := RegisterAll(cfg, w.db, id, narinfos).0;
      if storageId in cfg.backends && PlanUploads(w.blobs, storageId, UpstreamsOf(cfg, project), narinfos).Ok? {
        PlannedAreLinked(db1, w.blobs, storageId, UpstreamsOf(cfg, project), narinfos);
        LinkingKeepsOthers(db1, w.blobs, storageId, narinfos, k);
      }
    }
  }

  lemma {:induction false} CheckingKeepsOthers(db: Db, blobs: Blobs, storageId: string, upstreams: seq<set<string>>,
                                               hashes: seq<string>, k: ObjectKey)
    requires forall h :: h in hashes ==> h in db.paths
    requires k.storageId == storageId && k in blobs ==> !ReachedInOrder(db.paths, blobs, upstreams, hashes, k)
    ensures SameRow(db.objects, CheckObjects(db, db.paths, blobs, storageId, upstreams, hashes).0.objects, k)
    decreases |hashes|
  {
    if hashes != [] && IsAvailable(blobs, storageId, upstreams, db.paths[hashes[0]].url) {
      var first := ObjectKey(storageId, db.paths[hashes[0]].url);
      var db1 := if first in blobs then LinkObject(UpsertObject(db, first, HeadMetadata(blobs[first])), hashes[0], first.path)
                 else db;
      if k == first && k in blobs {
        assert ReachedAt(db.paths, blobs, upstreams, hashes, k, 0);
      }
      if k.storageId == storageId && k in blobs {
        NotReachedLater(db.paths, blobs, upstreams, hashes, k);
      }
      CheckingKeepsOthers(db1, blobs, storageId, upstreams, hashes[1..], k);
    }
  }

  lemma NotReachedLater(paths: map<string, NarInfo>, blobs: Blobs, upstreams: seq<set<string>>, hashes: seq<string>,
                        k: ObjectKey)
    requires hashes != [] && (forall h :: h in hashes ==> h in paths)
    requires IsAvailable(blobs, k.storageId, upstreams, paths[hashes[0]].url)
    requires !ReachedInOrder(paths, blobs, upstreams, hashes, k)
    ensures !ReachedInOrder(paths, blobs, upstreams, hashes[1..], k)
  {
    forall j | 0 <= j < |hashes[1..]| ensures !ReachedAt(paths, blobs, upstreams, hashes[1..], k, j) {
      if ReachedAt(paths, blobs, upstreams, hashes[1..], k, j) {
        forall i | 0 <= i < j + 1 ensures IsAvailable(blobs, k.storageId, upstreams, paths[hashes[i]].url) {
          assert i > 0 ==> hashes[i] == hashes[1..][i - 1];
        }
        assert ReachedAt(paths, blobs, upstreams, hashes, k, j + 1);
      }
    }
  }

  lemma CheckBuildKeepsOthers(cfg: Config, w: World, id: string, project: string, k: ObjectKey)
    requires project in w.db.projects
    requires k.storageId == w.db.projects[project].storageId && k.storageId in cfg.backends && k in w.blobs ==>
               !ReachedInOrder(w.db.paths, w.blobs, UpstreamsOf(cfg, project), BuildHashes(w.db, id), k)
    ensures SameRow(w.db.objects, CheckBuild(cfg, w, id, project).0.objects, k)
  {
    var storageId := w.db.projects[project].storageId;
    if storageId in cfg.backends {
      CheckingKeepsOthers(w.db, w.blobs, storageId, UpstreamsOf(cfg, project), BuildHashes(w.db, id), k);
    }
  }

  lemma FinalizeRows(cfg: Config, w: World, id: string, now: int)
    ensures FinalizeBuild(cfg, w, id, now).0.db.objects
            == if PendingBuild(w.db, id).Ok? then CheckBuild(cfg, w, id, w.db.builds[id].project).0.objects else w.db.objects
  {}

  lemma FinalizeKeepsOthers(cfg: Config, w: World, id: string, now: int, k: ObjectKey)
    requires !Records(cfg, w, Finalize(id), k)
    ensures SameRow(w.db.objects, FinalizeBuild(cfg, w, id, now).0.db.objects, k)
  {
    FinalizeRows(cfg, w, id, now);
    if PendingBuild(w.db, id).Ok? {
      CheckBuildKeepsOthers(cfg, w, id, w.db.builds[id].project, k);
    }
  }

  /** A request changes the row of an object only when it records that object. */
  lemma OnlyRecordingRewrites(cfg: Config, w: World, e: Event, now: int, k: ObjectKey)
    requires !Sweeps(e) && !Records(cfg, w, e, k)
    ensures SameRow(w.db.objects, Step(cfg, w, e, now).db.objects, k)
  {
    hide GcPass, RegisterPaths, FinalizeBuild;
    if e.Collect? {
      StepCollects(cfg, w, e.dryRun, e.grace, e.failing, now);
      DryPass(cfg, w, e.grace, e.failing, now);
    }
    match e {
      case Register(id, narinfos, unopened) => RegisterKeepsOthers(cfg, w, id, narinfos, unopened, k);
      case Finalize(id) => FinalizeKeepsOthers(cfg, w, id, now, k);
      case _ =>
    }
  }

  /** An event that records an object leaves its row without a mark. */
  lemma RecordingUnmarks(cfg: Config, w: World, e: Event, now: int, k: ObjectKey)
    requires Attached(w.db) && Records(cfg, w, e, k)
    ensures var objects := Step(cfg, w, e, now).db.objects; k in objects && Fresh(objects[k])
  {
    match e {
      case Register(id, narinfos, unopened) => RegisterRecordsRow(cfg, w, id, narinfos, unopened, k);
      case Finalize(id) => FinalizeRecordsRow(cfg, w, id, now, k);
      case Upload(_, _, _, _) =>
      case Complete(_, _, _, _, _, _) =>
    }
  }

  ghost predicate RecordedAt(cfg: Config, run: Run, i: nat, k: ObjectKey)
    requires |run.worlds| == |run.events| + 1 && i < |run.events|
  {
    Records(cfg, run.worlds[i], run.events[i].event, k)
  }

  lemma MarkedIsNotRecorded(cfg: Config, run: Run, i: nat, k: ObjectKey, t: int)
    requires IsRun(cfg, run) && i < |run.events| && StampedAt(run.worlds[i + 1], k, t)
    ensures !RecordedAt(cfg, run, i, k)
  {
    if RecordedAt(cfg, run, i, k) {
      ReachableInvariant(cfg, run, i, run.events[i].at);
      assert StepAt(cfg, run, i);
      RecordingUnmarks(cfg, run.worlds[i], run.events[i].event, run.events[i].at, k);
    }
  }

  // ---- What was known before an object goes ----

  ghost predicate NobodyRecorded(cfg: Config, run: Run, m: nat, n: nat, k: ObjectKey)
    requires |run.worlds| == |run.events| + 1 && m <= n < |run.events|
  {
    forall i :: m <= i <= n ==> !RecordedAt(cfg, run, i, k)
  }

  lemma PassRecordsNothing(cfg: Config, run: Run, n: nat, k: ObjectKey)
    requires |run.worlds| == |run.events| + 1 && n < |run.events| && FoundDead(cfg, run, n, k.path)
    ensures !RecordedAt(cfg, run, n, k)
  {}

  lemma DeadIsNotRecorded(cfg: Config, run: Run, m: nat, n: nat, k: ObjectKey)
    requires IsRun(cfg, run) && m <= n < |run.events| && FoundDead(cfg, run, n, k.path)
    requires forall i :: m < i <= n ==> StampedAt(run.worlds[i], k, run.events[m].at)
    ensures NobodyRecorded(cfg, run, m, n, k)
  {
    hide RecordedAt, StampedAt, FoundDead;
    forall i | m <= i < n ensures !RecordedAt(cfg, run, i, k) {
      MarkedIsNotRecorded(cfg, run, i, k, run.events[m].at);
    }
    PassRecordsNothing(cfg, run, n, k);
  }

  /** Event `m` is a pass at least the grace period of pass `n` earlier, in whole seconds, and all is as it should be since. */
  ghost predicate GraceKept(cfg: Config, run: Run, m: nat, n: nat, k: ObjectKey)
    requires |run.worlds| == |run.events| + 1 && m <= n < |run.events|
  {
    && Sweeps(run.events[n].event)
    && run.events[m].at / 1000 <= run.events[n].at / 1000 - run.events[n].event.grace
    && DeadThrough(cfg, run, m, n, k) && NobodyRecorded(cfg, run, m, n, k)
  }

  /** A row that a pass finds dead and past its grace has that history. */
  lemma GraceHasHistory(cfg: Config, run: Run, n: nat, k: ObjectKey) returns (m: nat)
    requires IsRun(cfg, run) && n < |run.events| && k in run.worlds[n].db.objects && FoundDead(cfg, run, n, k.path)
    requires var t := run.worlds[n].db.objects[k].firstDeletedAt.GetOr(run.events[n].at);
             t / 1000 <= run.events[n].at / 1000 - run.events[n].event.grace
    ensures m <= n && GraceKept(cfg, run, m, n, k)
  {
    var stamp := run.worlds[n].db.objects[k].firstDeletedAt;
    if stamp.Some? {
      m := MarksHaveHistory(cfg, run, n, k, stamp.value);
      MarkedThrough(cfg, run, m, n, k);
    } else {
      m := n;
      assert DeadThrough(cfg, run, m, n, k);
    }
    DeadIsNotRecorded(cfg, run, m, n, k);
  }

  /**
   Over every run: when an event deletes the row of an object, it is a pass, and a pass of the run (that one or
   an earlier one) whose whole-second time is at least the grace period earlier had found the object dead; every
   pass since found it dead, it carried the mark of that first pass without a break, and no request recorded it.
   */
  lemma DeletedAfterGrace(cfg: Config, run: Run, n: nat, k: ObjectKey) returns (m: nat)
    requires IsRun(cfg, run) && n < |run.events|
    requires k in run.worlds[n].db.objects && k !in run.worlds[n + 1].db.objects
    ensures m <= n && GraceKept(cfg, run, m, n, k)
  {
    EventDeletes(cfg, run, n, k);
    m := GraceHasHistory(cfg, run, n, k);
  }

  lemma PassDeletesReady(cfg: Config, w: World, dryRun: bool, grace: int, failing: set<ObjectKey>, now: int, k: ObjectKey)
    requires k in w.blobs && k !in GcPass(cfg, w, dryRun, grace, failing, now).0.blobs
    ensures !dryRun && k in Ready(Refreshed(w.db.objects, LiveObjects(cfg, w.db, now), now), grace, now)
  {
    if !dryRun {
      var refreshed := Refreshed(w.db.objects, LiveObjects(cfg, w.db, now), now);
      DeleteBlobsEffect(cfg, w.blobs, InOrder(Ready(refreshed, grace, now)), failing);
    }
  }

  lemma ReadyWasDead(objects: Objects, live: set<string>, grace: int, now: int, k: ObjectKey)
    requires k in Ready(Refreshed(objects, live, now), grace, now)
    ensures k in objects && k.path !in live
    ensures objects[k].firstDeletedAt.GetOr(now) / 1000 <= now / 1000 - grace
  {
    RefreshedStamp(objects, live, now, k);
  }

  lemma EventDeletesBytes(cfg: Config, run: Run, n: nat, k: ObjectKey)
    requires IsRun(cfg, run) && n < |run.events| && k in run.worlds[n].blobs && k !in run.worlds[n + 1].blobs
    requires run.events[n].event.Collect?
    ensures FoundDead(cfg, run, n, k.path) && k in run.worlds[n].db.objects
    ensures var t := run.worlds[n].db.objects[k].firstDeletedAt.GetOr(run.events[n].at);
            t / 1000 <= run.events[n].at / 1000 - run.events[n].event.grace
  {
    var w, e, now := run.worlds[n], run.events[n].event, run.events[n].at;
    EventIsPass(cfg, run, n);
    PassDeletesReady(cfg, w, e.dryRun, e.grace, e.failing, now, k);
    ReadyWasDead(w.db.objects, LiveObjects(cfg, w.db, now), e.grace, now, k);
  }

  lemma EventLosesBytes(cfg: Config, run: Run, n: nat, k: ObjectKey)
    requires IsRun(cfg, run) && n < |run.events| && k in run.worlds[n].blobs && k !in run.worlds[n + 1].blobs
    requires !run.events[n].event.Collect?
    ensures Loses(cfg, run.worlds[n], run.events[n].event, k)
  {
    assert StepAt(cfg, run, n);
    StepKeepsBlob(cfg, run.worlds[n], run.events[n].event, run.events[n].at, k);
  }

  /**
   Over every run: when an event removes the bytes of an object, it is a completion that loses them, or a pass,
   complete or aborted, with the same history behind it as for the row.
   */
  lemma BytesDeletedAfterGrace(cfg: Config, run: Run, n: nat, k: ObjectKey) returns (m: nat)
    requires IsRun(cfg, run) && n < |run.events| && k in run.worlds[n].blobs && k !in run.worlds[n + 1].blobs
    ensures Loses(cfg, run.worlds[n], run.events[n].event, k) || (m <= n && GraceKept(cfg, run, m, n, k))
  {
    if run.events[n].event.Collect? {
      EventDeletesBytes(cfg, run, n, k);
      m := GraceHasHistory(cfg, run, n, k);
    } else {
      EventLosesBytes(cfg, run, n, k);
      m := 0;
    }
  }

  // ---- In milliseconds ----

  /** In milliseconds: that is more than the grace period less one second, and a second more than it is enough. */
  lemma GraceInMilliseconds(t: int, grace: int, now: int)
    ensures t / 1000 <= now / 1000 - grace ==> now - t > 1000 * grace - 1000
    ensures now - t >= 1000 * grace + 999 ==> t / 1000 <= now / 1000 - grace
  {}

  /** So no row and no bytes go earlier: that long before, a pass had found the object dead already. */
  lemma NothingGoesEarly(cfg: Config, run: Run, n: nat, k: ObjectKey) returns (m: nat)
    requires IsRun(cfg, run) && n < |run.events| && run.events[n].event.Collect?
    requires || (k in run.worlds[n].db.objects && k !in run.worlds[n + 1].db.objects)
             || (k in run.worlds[n].blobs && k !in run.worlds[n + 1].blobs)
    ensures m <= n && DeadThrough(cfg, run, m, n, k)
    ensures run.events[n].at - run.events[m].at > 1000 * run.events[n].event.grace - 1000
  {
    if k in run.worlds[n].db.objects && k !in run.worlds[n + 1].db.objects {
      m := DeletedAfterGrace(cfg, run, n, k);
    } else {
      m := BytesDeletedAfterGrace(cfg, run, n, k);
    }
    GraceInMilliseconds(run.events[m].at, run.events[n].event.grace, run.events[n].at);
  }

  /** With the default grace period, not within six hours less a second. */
  lemma NothingGoesWithinSixHours(cfg: Config, run: Run, n: nat, k: ObjectKey) returns (m: nat)
    requires IsRun(cfg, run) && n < |run.events|
    requires run.events[n].event.Collect? && run.events[n].event.grace == 21600
    requires || (k in run.worlds[n].db.objects && k !in run.worlds[n + 1].db.objects)
             || (k in run.worlds[n].blobs && k !in run.worlds[n + 1].blobs)
    ensures m <= n && DeadThrough(cfg, run, m, n, k) && run.events[n].at - run.events[m].at > 21599000
  {
    m := NothingGoesEarly(cfg, run, n, k);
  }
}
