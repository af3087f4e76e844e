/** Requests and collector passes as steps of one state machine, and what every run keeps. */
module Runs {
  import opened Wrappers
  import opened Text
  import opened NixHash
  import opened NarInfo
  import opened DepotPath
  import opened Validation
  import opened Tables
  import opened Retention
  import opened Liveness
  import opened Collection
  import opened Ingest

  datatype Event =
    | Begin(project: string, refName: string, id: string)
    | Register(id: string, narinfos: seq<NarInfo>, unopened: set<string>)
    | Upload(id: string, h: string, path: string, bytes: Blob)
    | Complete(id: string, h: string, path: string, bytes: Blob, reported: U64, etag: Option<string>)
    | Finalize(id: string)
    | SetPin(key: PinKey, h: string, storePath: string)
    | RemovePin(key: PinKey)
    | SetPolicy(project: string, keepLatest: nat, graceSeconds: nat, rules: seq<Rule>)
    | RemovePolicy(project: string)
    | Collect(dryRun: bool, grace: int, failing: set<ObjectKey>)

  function OrElse<E>(r: Result<Db, E>, db: Db): (d: Db) {
    match r case Ok(d) => d case Err(_) => db
  }

  /** The world after one event at time `now`. */
  ghost function Step(cfg: Config, w: World, e: Event, now: int): (w': World) {
    match e
    case Begin(project, refName, id) => w.(db := OrElse(BeginBuild(w.db, project, refName, id, now), w.db))
    case Register(id, narinfos, _) => RegisterPaths(cfg, w, id, narinfos).0
    case Upload(id, h, path, bytes) => UploadObject(cfg, w, id, h, path, bytes).0
    case Complete(id, h, path, bytes, reported, etag) => CompleteMultipart(cfg, w, id, h, path, bytes, reported, etag).0
    case Finalize(id) => FinalizeBuild(cfg, w, id, now).0
    case SetPin(key, h, storePath) => w.(db := OrElse(UpsertPin(w.db, key, h, storePath), w.db))
    case RemovePin(key) => w.(db := OrElse(DeletePin(w.db, key), w.db))
    case SetPolicy(project, keepLatest, graceSeconds, rules) =>
      w.(db := OrElse(ReplacePolicy(w.db, project, keepLatest, graceSeconds, rules), w.db))
    case RemovePolicy(project) => if project in w.db.projects then w.(db := DeletePolicy(w.db, project)) else w
    case Collect(dryRun, grace, failing) => GcPass(cfg, w, dryRun, grace, failing, now).0
  }

  /** A pass is a step; what it does is not looked into. */
  lemma StepCollects(cfg: Config, w: World, dryRun: bool, grace: int, failing: set<ObjectKey>, now: int)
    ensures Step(cfg, w, Collect(dryRun, grace, failing), now) == GcPass(cfg, w, dryRun, grace, failing, now).0
  {
    hide GcPass;
  }

  datatype Timed = Timed(at: int, event: Event)

  /** Projects, and perhaps stored objects, but no rows that the modelled requests write. */
  predicate Initial(w: World) {
    w.db == Db(w.db.projects, map[], map[], map[], {}, map[], {}, map[], map[])
  }

  /** The worlds before the first event and after each event. */
  datatype Run = Run(worlds: seq<World>, events: seq<Timed>)

  ghost predicate StepAt(cfg: Config, run: Run, i: nat)
    requires |run.worlds| == |run.events| + 1 && i < |run.events|
  {
    run.worlds[i + 1] == Step(cfg, run.worlds[i], run.events[i].event, run.events[i].at)
  }

  /** No two events happen at the same time. */
  ghost predicate ClockAdvances(events: seq<Timed>) {
    forall i, j :: 0 <= i < j < |events| ==> events[i].at < events[j].at
  }

  ghost predicate IsRun(cfg: Config, run: Run) {
    && |run.worlds| == |run.events| + 1
    && Initial(run.worlds[0]) && ClockAdvances(run.events)
    && forall i :: 0 <= i < |run.events| ==> StepAt(cfg, run, i)
  }

  /** One more event after a run. */
  ghost function Extend(cfg: Config, run: Run, next: Timed): (r: Run)
    requires |run.worlds| == |run.events| + 1
    ensures |r.worlds| == |r.events| + 1
  {
    Run(run.worlds + [Step(cfg, run.worlds[|run.events|], next.event, next.at)], run.events + [next])
  }

  lemma ExtendedStep(cfg: Config, run: Run, next: Timed, i: nat)
    requires |run.worlds| == |run.events| + 1 && i <= |run.events|
    requires i < |run.events| ==> StepAt(cfg, run, i)
    ensures StepAt(cfg, Extend(cfg, run, next), i)
  {}

  lemma ExtendedRun(cfg: Config, run: Run, next: Timed)
    requires IsRun(cfg, run) && ClockAdvances(run.events + [next])
    ensures IsRun(cfg, Extend(cfg, run, next))
  {
    forall i | 0 <= i <= |run.events| ensures StepAt(cfg, Extend(cfg, run, next), i) {
      if i < |run.events| { assert StepAt(cfg, run, i); }
      ExtendedStep(cfg, run, next, i);
    }
  }

  /** Every schedule of events from every initial world is a run. */
  lemma {:induction false} EveryScheduleRuns(cfg: Config, start: World, events: seq<Timed>) returns (run: Run)
    requires Initial(start) && ClockAdvances(events)
    ensures IsRun(cfg, run) && run.worlds[0] == start && run.events == events
    decreases |events|
  {
    if events == [] {
      run := Run([start], []);
    } else {
      var next := events[|events| - 1];
      var before := EveryScheduleRuns(cfg, start, events[..|events| - 1]);
      run := Extend(cfg, before, next);
      assert before.events + [next] == events;
      ExtendedRun(cfg, before, next);
    }
  }

  // ---- What every reachable world satisfies ----

  /** Only what is registered is built, linked, attached or pinned; links carry the registered URL. */
  predicate LinksMatch(db: Db) {
    && (forall o :: o in db.pathObjects ==>
          o.kind == NarObject && o.storePathHash in db.paths && o.path == db.paths[o.storePathHash].url)
    && (forall bp :: bp in db.buildPaths ==> bp.buildId in db.builds && bp.storePathHash in db.paths)
    && (forall k :: k in db.pins ==> db.pins[k].storePathHash in db.paths)
  }

  /** A row that is keyed by its own hash, passes validation again, and is in stored form. */
  predicate GoodRow(cfg: Config, h: string, n: NarInfo) {
    && ValidatePublish(cfg.storeDir, n) == Ok(h)
    && n.narHash.Normalize().Ok? && StoredForm(n) == n && n.narSize <= I64_MAX
  }

  predicate RowsRevalidate(cfg: Config, db: Db) {
    forall h :: h in db.paths ==> GoodRow(cfg, h, db.paths[h])
  }

  /** The build a ref names is finalized, belongs to the ref, and was finalized last. */
  predicate RefNamesNewest(db: Db, key: RefKey, now: int) {
    && key in db.refs && db.refs[key].buildId in db.builds
    && IsCandidate(db.builds[db.refs[key].buildId], key)
    && db.builds[db.refs[key].buildId].finalizedAt.value == db.refs[key].updatedAt < now
    && forall id :: id in db.builds && id != db.refs[key].buildId && IsCandidate(db.builds[id], key) ==>
         db.builds[id].finalizedAt.value < db.refs[key].updatedAt
  }

  predicate RefsAreCurrent(db: Db, now: int) {
    && (forall key :: key in db.refs ==> RefNamesNewest(db, key, now))
    && (forall id :: id in db.builds ==> (db.builds[id].status == Finalized <==> db.builds[id].finalizedAt.Some?))
    && (forall id :: id in db.builds && db.builds[id].status == Finalized ==>
          RefKey(db.builds[id].project, db.builds[id].refName) in db.refs)
  }

  /** Both tombstone columns are set together, in the past. */
  predicate TombstonesSound(db: Db, now: int) {
    PairedTombstones(db.objects) && TombstonesPast(db.objects, now)
  }

  predicate PoliciesGood(db: Db) {
    forall p :: p in db.policies ==> GoodPolicy(db.policies[p])
  }

  /** All of it but the rows of path metadata, at a time after every event so far. */
  predicate Invariant(db: Db, now: int) {
    LinksMatch(db) && RefsAreCurrent(db, now) && TombstonesSound(db, now) && PoliciesGood(db)
  }

  lemma InitialInvariant(w: World, now: int)
    requires Initial(w)
    ensures Invariant(w.db, now)
  {}

  lemma LaterInvariant(db: Db, now: int, later: int)
    requires Invariant(db, now) && now <= later
    ensures Invariant(db, later)
  {}

  // ---- Registration keeps the invariant ----

  lemma StoredFormRevalidates(cfg: Config, n: NarInfo, h: string)
    requires ValidatePublish(cfg.storeDir, n) == Ok(h) && n.narSize <= I64_MAX
    ensures n.narHash.Normalize().Ok? && GoodRow(cfg, h, StoredForm(n))
    ensures StoredForm(n).narHash.Normalize() == n.narHash.Normalize()
  {
    AcceptedIsAddressed(cfg.storeDir, n);
    var digest, c :| States(n, digest, c) && IsSha256Digest(digest) && n.url == PrintNar(digest, c);
    var s := StoredForm(n);
    NormalizeRendered(NormalizedHash(Sha256, digest));
    assert States(s, digest, c);
    AddressedIsAccepted(cfg.storeDir, s);
    AcceptedIsAddressed(cfg.storeDir, s);
  }

  /** What an accepted registration leaves in the row: the same content, under the document's own hash. */
  predicate SameContent(stored: NarInfo, n: NarInfo) {
    && stored.storePath == n.storePath && stored.url == n.url && stored.compression == n.compression
    && stored.narHash.Normalize() == n.narHash.Normalize() && stored.narSize == n.narSize
    && multiset(stored.references) == multiset(n.references)
    && stored.deriver == n.deriver && AddressText(stored) == AddressText(n)
  }

  lemma SortedEqual(a: seq<string>, b: seq<string>)
    requires SortText(a) == SortText(b)
    ensures multiset(a) == multiset(b)
  {
    SortTextProperties(a);
    SortTextProperties(b);
  }

  /** A successful upsert changes the metadata rows only, keeps every row, and has a row for the document. */
  lemma UpsertFrame(cfg: Config, db: Db, n: NarInfo, h: string)
    requires ValidatePublish(cfg.storeDir, n) == Ok(h) && UpsertPathInfo(db, n).Ok?
    ensures var db' := UpsertPathInfo(db, n).value;
            && db' == db.(paths := db'.paths) && h in db'.paths
            && (forall k :: k in db.paths ==> k in db'.paths && db'.paths[k] == db.paths[k])
            && (forall k :: k in db'.paths ==> k in db.paths || (k == h && db'.paths[k] == StoredForm(n)))
            && (h in db.paths ==> EnsureCompatible(db.paths[h], n).Ok?)
            && n.narSize <= I64_MAX
  {
    AcceptedIsAddressed(cfg.storeDir, n);
    UpsertFrameOf(db, n, h);
  }

  lemma UpsertFrameOf(db: Db, n: NarInfo, h: string)
    requires HashFromStorePath(n.storePath) == Ok(h) && UpsertPathInfo(db, n).Ok?
    ensures var db' := UpsertPathInfo(db, n).value;
            && db' == db.(paths := db'.paths) && h in db'.paths
            && (forall k :: k in db.paths ==> k in db'.paths && db'.paths[k] == db.paths[k])
            && (forall k :: k in db'.paths ==> k in db.paths || (k == h && db'.paths[k] == StoredForm(n)))
            && (h in db.paths ==> EnsureCompatible(db.paths[h], n).Ok?)
            && n.narSize <= I64_MAX
  {}

  lemma CompatibleContent(existing: NarInfo, n: NarInfo)
    requires EnsureCompatible(existing, n).Ok?
    ensures SameContent(existing, n)
  {
    SortedEqual(existing.references, n.references);
  }

  lemma StoredContent(cfg: Config, n: NarInfo, h: string)
    requires ValidatePublish(cfg.storeDir, n) == Ok(h) && n.narSize <= I64_MAX
    ensures n.narHash.Normalize().Ok? && SameContent(StoredForm(n), n)
  {
    StoredFormRevalidates(cfg, n, h);
  }

  lemma UpsertContent(cfg: Config, db: Db, n: NarInfo, h: string)
    requires ValidatePublish(cfg.storeDir, n) == Ok(h) && UpsertPathInfo(db, n).Ok?
    ensures var db' := UpsertPathInfo(db, n).value; h in db'.paths && SameContent(db'.paths[h], n)
  {
    UpsertFrame(cfg, db, n, h);
    if h in db.paths {
      CompatibleContent(db.paths[h], n);
    } else {
      StoredContent(cfg, n, h);
    }
  }

  lemma UpsertKeepsRows(cfg: Config, db: Db, n: NarInfo, h: string)
    requires RowsRevalidate(cfg, db) && ValidatePublish(cfg.storeDir, n) == Ok(h) && UpsertPathInfo(db, n).Ok?
    ensures RowsRevalidate(cfg, UpsertPathInfo(db, n).value)
  {
    UpsertFrame(cfg, db, n, h);
    StoredFormRevalidates(cfg, n, h);
  }

  lemma {:induction false} RegisterAllKeepsRows(cfg: Config, db: Db, id: string, narinfos: seq<NarInfo>)
    requires RowsRevalidate(cfg, db)
    ensures RowsRevalidate(cfg, RegisterAll(cfg, db, id, narinfos).0)
    decreases |narinfos|
  {
    if narinfos != [] && ValidatePublish(cfg.storeDir, narinfos[0]).Ok? && UpsertPathInfo(db, narinfos[0]).Ok? {
      var h := ValidatePublish(cfg.storeDir, narinfos[0]).value;
      var db1 := UpsertPathInfo(db, narinfos[0]).value;
      UpsertKeepsRows(cfg, db, narinfos[0], h);
      assert RowsRevalidate(cfg, AttachBuildPath(db1, id, h));
      RegisterAllKeepsRows(cfg, AttachBuildPath(db1, id, h), id, narinfos[1..]);
    }
  }

  /** What a registration keeps and adds. */
  predicate Extended(db: Db, db': Db) {
    && db' == db.(paths := db'.paths, buildPaths := db'.buildPaths)
    && (forall k :: k in db.paths ==> k in db'.paths && db'.paths[k] == db.paths[k])
    && db.buildPaths <= db'.buildPaths
  }

  predicate Attached(db: Db) {
    forall bp :: bp in db.buildPaths ==> bp.buildId in db.builds && bp.storePathHash in db.paths
  }

  lemma ExtendedTwice(a: Db, b: Db, c: Db)
    requires Extended(a, b) && Extended(b, c)
    ensures Extended(a, c)
  {}

  lemma RegisterOneExtends(cfg: Config, db: Db, id: string, n: NarInfo, h: string)
    requires id in db.builds && Attached(db)
    requires ValidatePublish(cfg.storeDir, n) == Ok(h) && UpsertPathInfo(db, n).Ok?
    ensures var db' := AttachBuildPath(UpsertPathInfo(db, n).value, id, h);
            Extended(db, db') && Attached(db') && db'.buildPaths == db.buildPaths + {BuildPath(id, h)}
  {
    UpsertFrame(cfg, db, n, h);
  }

  lemma {:induction false} RegisterAllExtends(cfg: Config, db: Db, id: string, narinfos: seq<NarInfo>)
    requires id in db.builds && Attached(db)
    ensures var db' := RegisterAll(cfg, db, id, narinfos).0;
            && Extended(db, db') && Attached(db')
            && forall bp :: bp in db'.buildPaths && bp !in db.buildPaths ==> bp.buildId == id
    decreases |narinfos|
  {
    if narinfos != [] && ValidatePublish(cfg.storeDir, narinfos[0]).Ok? && UpsertPathInfo(db, narinfos[0]).Ok? {
      var h := ValidatePublish(cfg.storeDir, narinfos[0]).value;
      var db1 := AttachBuildPath(UpsertPathInfo(db, narinfos[0]).value, id, h);
      RegisterOneExtends(cfg, db, id, narinfos[0], h);
      RegisterAllExtends(cfg, db1, id, narinfos[1..]);
      ExtendedTwice(db, db1, RegisterAll(cfg, db1, id, narinfos[1..]).0);
      hide Extended, Attached, ValidatePublish, UpsertPathInfo;
    }
  }

  /** A document that was registered: its path is attached to the build and its row has its content. */
  predicate Registered(db: Db, id: string, n: NarInfo, h: string) {
    && HashFromStorePath(n.storePath) == Ok(h)
    && BuildPath(id, h) in db.buildPaths && h in db.paths && SameContent(db.paths[h], n)
  }

  predicate AllRegistered(db: Db, id: string, narinfos: seq<NarInfo>, hashes: seq<string>) {
    |hashes| == |narinfos| && forall i :: 0 <= i < |narinfos| ==> Registered(db, id, narinfos[i], hashes[i])
  }

  lemma RegisteredStays(db: Db, db': Db, id: string, n: NarInfo, h: string)
    requires Registered(db, id, n, h)
    requires h in db'.paths && db'.paths[h] == db.paths[h] && db.buildPaths <= db'.buildPaths
    ensures Registered(db', id, n, h)
  {}

  /** The store path hashes of documents, in order. */
  function HashesOf(narinfos: seq<NarInfo>): (r: seq<string>)
    ensures |r| == |narinfos|
    ensures forall i :: 0 <= i < |r| ==> r[i] == HashFromStorePath(narinfos[i].storePath).GetOr("")
  {
    if narinfos == [] then []
    else [HashFromStorePath(narinfos[0].storePath).GetOr("")] + HashesOf(narinfos[1..])
  }

  lemma RegisterOne(cfg: Config, db: Db, id: string, n: NarInfo, h: string)
    requires ValidatePublish(cfg.storeDir, n) == Ok(h) && UpsertPathInfo(db, n).Ok?
    ensures HashFromStorePath(n.storePath) == Ok(h)
    ensures Registered(AttachBuildPath(UpsertPathInfo(db, n).value, id, h), id, n, h)
  {
    AcceptedIsAddressed(cfg.storeDir, n);
    UpsertContent(cfg, db, n, h);
  }

  /** After a successful registration every document is registered, and nothing else was attached. */
  lemma {:induction false} RegisterAllRegisters(cfg: Config, db: Db, id: string, narinfos: seq<NarInfo>)
    requires id in db.builds && Attached(db) && RegisterAll(cfg, db, id, narinfos).1.Ok?
    ensures AllRegistered(RegisterAll(cfg, db, id, narinfos).0, id, narinfos, HashesOf(narinfos))
    ensures forall bp :: bp in RegisterAll(cfg, db, id, narinfos).0.buildPaths && bp !in db.buildPaths ==>
              bp.storePathHash in HashesOf(narinfos)
    decreases |narinfos|
  {
    if narinfos != [] {
      var n, h := narinfos[0], ValidatePublish(cfg.storeDir, narinfos[0]).value;
      var db1 := AttachBuildPath(UpsertPathInfo(db, n).value, id, h);
      var db2 := RegisterAll(cfg, db1, id, narinfos[1..]).0;
      RegisterOne(cfg, db, id, n, h);
      RegisterOneExtends(cfg, db, id, n, h);
      RegisterAllExtends(cfg, db1, id, narinfos[1..]);
      RegisterAllRegisters(cfg, db1, id, narinfos[1..]);
      RegisteredStays(db1, db2, id, n, h);
      AllRegisteredCons(db2, id, narinfos, HashesOf(narinfos));
    }
  }

  lemma AllRegisteredCons(db: Db, id: string, narinfos: seq<NarInfo>, hashes: seq<string>)
    requires narinfos != [] && |hashes| == |narinfos|
    requires Registered(db, id, narinfos[0], hashes[0]) && AllRegistered(db, id, narinfos[1..], hashes[1..])
    ensures AllRegistered(db, id, narinfos, hashes)
  {
    forall i | 0 <= i < |narinfos| ensures Registered(db, id, narinfos[i], hashes[i]) {
      if i > 0 { assert narinfos[i] == narinfos[1..][i - 1] && hashes[i] == hashes[1..][i - 1]; }
    }
  }

  // ---- Recording objects keeps the invariant ----

  /** New or refreshed object rows without tombstones, and new links that carry registered URLs. */
  predicate Recorded(db: Db, db': Db) {
    && db' == db.(objects := db'.objects, pathObjects := db'.pathObjects)
    && (forall k :: k in db.objects ==> k in db'.objects)
    && (forall k :: k in db'.objects && (k !in db.objects || db'.objects[k] != db.objects[k]) ==>
          db'.objects[k].deletedAt.None? && db'.objects[k].firstDeletedAt.None?)
    && db.pathObjects <= db'.pathObjects
    && (forall o :: o in db'.pathObjects && o !in db.pathObjects ==>
          o.kind == NarObject && o.storePathHash in db.paths && o.path == db.paths[o.storePathHash].url)
  }

  lemma RecordOne(db: Db, key: ObjectKey, metadata: Metadata, h: string)
    requires h in db.paths && db.paths[h].url == key.path
    ensures Recorded(db, LinkObject(UpsertObject(db, key, metadata), h, key.path))
  {}

  lemma RecordedTwice(a: Db, b: Db, c: Db)
    requires Recorded(a, b) && Recorded(b, c)
    ensures Recorded(a, c)
  {}

  lemma LinkOneRecords(db: Db, blobs: Blobs, key: ObjectKey, h: string)
    requires h in db.paths && db.paths[h].url == key.path
    ensures Recorded(db, LinkIfLocal(db, blobs, key, h))
  {
    if key in blobs { RecordOne(db, key, HeadMetadata(blobs[key]), h); }
  }

  lemma {:induction false} LinkLocalRecords(db: Db, blobs: Blobs, storageId: string, narinfos: seq<NarInfo>, id: string,
                                            hashes: seq<string>)
    requires AllRegistered(db, id, narinfos, hashes)
    ensures Recorded(db, LinkLocal(db, blobs, storageId, narinfos).0)
    ensures LinkLocal(db, blobs, storageId, narinfos).1.Ok?
    decreases |narinfos|
  {
    if narinfos != [] {
      assert Registered(db, id, narinfos[0], hashes[0]);
      var key := ObjectKey(storageId, narinfos[0].url);
      var db1 := LinkIfLocal(db, blobs, key, hashes[0]);
      LinkOneRecords(db, blobs, key, hashes[0]);
      RegisteredTail(db, db1, id, narinfos, hashes);
      LinkLocalRecords(db1, blobs, storageId, narinfos[1..], id, hashes[1..]);
      RecordedTwice(db, db1, LinkLocal(db1, blobs, storageId, narinfos[1..]).0);
    }
  }

  lemma RegisteredTail(db: Db, db1: Db, id: string, narinfos: seq<NarInfo>, hashes: seq<string>)
    requires narinfos != [] && AllRegistered(db, id, narinfos, hashes)
    requires db1.paths == db.paths && db1.buildPaths == db.buildPaths
    ensures AllRegistered(db1, id, narinfos[1..], hashes[1..])
  {
    forall i | 0 <= i < |narinfos[1..]| ensures Registered(db1, id, narinfos[1..][i], hashes[1..][i]) {
      assert Registered(db, id, narinfos[i + 1], hashes[i + 1]);
    }
  }

  lemma {:induction false} CheckObjectsRecords(db: Db, blobs: Blobs, storageId: string,
                                               upstreams: seq<set<string>>, hashes: seq<string>)
    requires forall h :: h in hashes ==> h in db.paths
    ensures Recorded(db, CheckObjects(db, db.paths, blobs, storageId, upstreams, hashes).0)
    decreases |hashes|
  {
    if hashes != [] {
      assert hashes[0] in hashes;
      var key := ObjectKey(storageId, db.paths[hashes[0]].url);
      if key in blobs {
        var db1 := LinkObject(UpsertObject(db, key, HeadMetadata(blobs[key])), hashes[0], key.path);
        RecordOne(db, key, HeadMetadata(blobs[key]), hashes[0]);
        CheckObjectsRecords(db1, blobs, storageId, upstreams, hashes[1..]);
        RecordedTwice(db, db1, CheckObjects(db1, db1.paths, blobs, storageId, upstreams, hashes[1..]).0);
      } else if ServedUpstream(upstreams, key.path) {
        CheckObjectsRecords(db, blobs, storageId, upstreams, hashes[1..]);
      }
    }
  }

  lemma CheckBuildRecords(cfg: Config, w: World, id: string, project: string)
    requires project in w.db.projects
    ensures Recorded(w.db, CheckBuild(cfg, w, id, project).0)
  {
    var storageId := w.db.projects[project].storageId;
    CheckObjectsRecords(w.db, w.blobs, storageId, UpstreamsOf(cfg, project), BuildHashes(w.db, id));
  }

  lemma RecordedKeepsInvariant(db: Db, db': Db, now: int)
    requires Invariant(db, now) && Recorded(db, db')
    ensures Invariant(db', now)
  {
    SameRefs(db, db', now);
  }

  lemma ExtendedKeepsInvariant(db: Db, db': Db, now: int)
    requires Invariant(db, now) && Extended(db, db') && Attached(db')
    ensures Invariant(db', now)
  {
    SameRefs(db, db', now);
  }

  lemma SameRefs(db: Db, db': Db, now: int)
    requires RefsAreCurrent(db, now) && db'.refs == db.refs && db'.builds == db.builds
    ensures RefsAreCurrent(db', now)
  {
    forall key | key in db'.refs ensures RefNamesNewest(db', key, now) {
      assert RefNamesNewest(db, key, now);
    }
  }

  // ---- Every step keeps the invariant ----

  /** A registration stops before, after or in the middle of recording what the backend holds. */
  lemma RegistrationStages(cfg: Config, w: World, id: string, narinfos: seq<NarInfo>)
    ensures var db' := RegisterPaths(cfg, w, id, narinfos).0.db;
            if PendingBuild(w.db, id).Err? then db' == w.db
            else
              var (db1, registered) := RegisterAll(cfg, w.db, id, narinfos);
              var storageId := w.db.projects[w.db.builds[id].project].storageId;
              db' == db1 || (registered.Ok? && db' == LinkLocal(db1, w.blobs, storageId, narinfos).0)
    ensures RegisterPaths(cfg, w, id, narinfos).0.blobs == w.blobs
  {}

  lemma LinkedRecords(cfg: Config, w: World, id: string, narinfos: seq<NarInfo>, storageId: string)
    requires id in w.db.builds && Attached(w.db) && RegisterAll(cfg, w.db, id, narinfos).1.Ok?
    ensures var db1 := RegisterAll(cfg, w.db, id, narinfos).0; Recorded(db1, LinkLocal(db1, w.blobs, storageId, narinfos).0)
  {
    var db1 := RegisterAll(cfg, w.db, id, narinfos).0;
    RegisterAllRegisters(cfg, w.db, id, narinfos);
    LinkLocalRecords(db1, w.blobs, storageId, narinfos, id, HashesOf(narinfos));
  }

  lemma RegisterAllKeepsInvariant(cfg: Config, db: Db, id: string, narinfos: seq<NarInfo>, now: int)
    requires Invariant(db, now) && id in db.builds
    ensures Invariant(RegisterAll(cfg, db, id, narinfos).0, now)
  {
    RegisterAllExtends(cfg, db, id, narinfos);
    ExtendedKeepsInvariant(db, RegisterAll(cfg, db, id, narinfos).0, now);
  }

  lemma RegisterKeepsInvariant(cfg: Config, w: World, id: string, narinfos: seq<NarInfo>, now: int)
    requires Invariant(w.db, now)
    ensures Invariant(RegisterPaths(cfg, w, id, narinfos).0.db, now)
  {
    RegistrationStages(cfg, w, id, narinfos);
    if PendingBuild(w.db, id).Ok? {
      RegisterAllKeepsInvariant(cfg, w.db, id, narinfos, now);
      if RegisterAll(cfg, w.db, id, narinfos).1.Ok? {
        var db1 := RegisterAll(cfg, w.db, id, narinfos).0;
        var storageId := w.db.projects[w.db.builds[id].project].storageId;
        LinkedRecords(cfg, w, id, narinfos, storageId);
        RecordedKeepsInvariant(db1, LinkLocal(db1, w.blobs, storageId, narinfos).0, now);
      }
    }
  }

  lemma PublishedIsNewest(db: Db, key: RefKey, id: string, now: int, later: int)
    requires RefsAreCurrent(db, now) && now < later
    requires id in db.builds && db.builds[id].status == Pending
    requires key == RefKey(db.builds[id].project, db.builds[id].refName)
    ensures RefNamesNewest(PublishBuild(db, key, id, now), key, later)
  {
    var db' := PublishBuild(db, key, id, now);
    forall other | other in db'.builds && other != id && IsCandidate(db'.builds[other], key)
      ensures db'.builds[other].finalizedAt.value < now
    {
      assert key in db.refs && RefNamesNewest(db, key, now);
    }
  }

  lemma OtherRefsStayNewest(db: Db, key: RefKey, id: string, now: int, later: int, k: RefKey)
    requires RefNamesNewest(db, k, now) && now < later && k != key
    requires id in db.builds && db.builds[id].status == Pending
    requires key == RefKey(db.builds[id].project, db.builds[id].refName)
    ensures RefNamesNewest(PublishBuild(db, key, id, now), k, later)
  {
    assert !IsCandidate(PublishBuild(db, key, id, now).builds[id], k);
  }

  lemma PublishKeepsRefs(db: Db, key: RefKey, id: string, now: int, later: int)
    requires RefsAreCurrent(db, now) && now < later
    requires id in db.builds && db.builds[id].status == Pending
    requires key == RefKey(db.builds[id].project, db.builds[id].refName)
    ensures RefsAreCurrent(PublishBuild(db, key, id, now), later)
  {
    var db' := PublishBuild(db, key, id, now);
    forall k | k in db'.refs ensures RefNamesNewest(db', k, later) {
      if k == key {
        PublishedIsNewest(db, key, id, now, later);
      } else {
        assert RefNamesNewest(db, k, now);
        OtherRefsStayNewest(db, key, id, now, later, k);
      }
    }
  }

  lemma PublishKeepsInvariant(db: Db, key: RefKey, id: string, now: int, later: int)
    requires Invariant(db, now) && now < later
    requires id in db.builds && db.builds[id].status == Pending
    requires key == RefKey(db.builds[id].project, db.builds[id].refName)
    ensures Invariant(PublishBuild(db, key, id, now), later)
  {
    PublishKeepsRefs(db, key, id, now, later);
  }

  lemma FinalizeKeepsInvariant(cfg: Config, w: World, id: string, now: int, later: int)
    requires Invariant(w.db, now) && now < later
    ensures Invariant(FinalizeBuild(cfg, w, id, now).0.db, later)
  {
    LaterInvariant(w.db, now, later);
    if PendingBuild(w.db, id).Ok? {
      var build := PendingBuild(w.db, id).value;
      var db1 := CheckBuild(cfg, w, id, build.project).0;
      CheckBuildRecords(cfg, w, id, build.project);
      RecordedKeepsInvariant(w.db, db1, now);
      LaterInvariant(db1, now, later);
      PublishKeepsInvariant(db1, RefKey(build.project, build.refName), id, now, later);
    }
  }

  lemma BeginKeepsInvariant(db: Db, project: string, refName: string, id: string, now: int)
    requires Invariant(db, now)
    ensures Invariant(OrElse(BeginBuild(db, project, refName, id, now), db), now)
  {
    var db' := OrElse(BeginBuild(db, project, refName, id, now), db);
    forall key | key in db'.refs ensures RefNamesNewest(db', key, now) {
      assert RefNamesNewest(db, key, now);
    }
  }

  lemma CollectKeepsInvariant(cfg: Config, w: World, dryRun: bool, grace: int, failing: set<ObjectKey>, now: int, later: int)
    requires Invariant(w.db, now) && now < later
    ensures Invariant(GcPass(cfg, w, dryRun, grace, failing, now).0.db, later)
  {
    var db' := GcPass(cfg, w, dryRun, grace, failing, now).0.db;
    LaterInvariant(w.db, now, later);
    PassChangesOnlyObjects(cfg, w, dryRun, grace, failing, now);
    PassKeepsTombstones(cfg, w, dryRun, grace, failing, now, later);
    SameRefs(w.db, db', later);
  }

  lemma RefreshKeepsTombstones(objects: Objects, live: set<string>, now: int, later: int)
    requires PairedTombstones(objects) && TombstonesPast(objects, now) && now < later
    ensures PairedTombstones(Refreshed(objects, live, now)) && TombstonesPast(Refreshed(objects, live, now), later)
  {}

  lemma PassKeepsTombstones(cfg: Config, w: World, dryRun: bool, grace: int, failing: set<ObjectKey>, now: int, later: int)
    requires TombstonesSound(w.db, now) && now < later
    ensures TombstonesSound(GcPass(cfg, w, dryRun, grace, failing, now).0.db, later)
  {
    var objects := GcPass(cfg, w, dryRun, grace, failing, now).0.db.objects;
    PassObjects(cfg, w, dryRun, grace, failing, now);
    RefreshKeepsTombstones(w.db.objects, LiveObjects(cfg, w.db, now), now, later);
    SomeRowsSound(if dryRun then w.db.objects else Refreshed(w.db.objects, LiveObjects(cfg, w.db, now), now), objects, later);
  }

  lemma SomeRowsSound(a: Objects, b: Objects, now: int)
    requires PairedTombstones(a) && TombstonesPast(a, now) && forall k :: k in b ==> k in a && b[k] == a[k]
    ensures PairedTombstones(b) && TombstonesPast(b, now)
  {}

  lemma PolicyKeepsInvariant(db: Db, project: string, keepLatest: nat, graceSeconds: nat, rules: seq<Rule>, now: int)
    requires Invariant(db, now)
    ensures Invariant(OrElse(ReplacePolicy(db, project, keepLatest, graceSeconds, rules), db), now)
  {
    var r := ReplacePolicy(db, project, keepLatest, graceSeconds, rules);
    if r.Ok? {
      ReplacedPolicyIsGood(db, project, keepLatest, graceSeconds, rules);
      SameRefs(db, r.value, now);
    }
  }

  lemma UploadRecords(cfg: Config, w: World, id: string, h: string, path: string, bytes: Blob)
    ensures var db' := UploadObject(cfg, w, id, h, path, bytes).0.db; db' == w.db || Recorded(w.db, db')
  {
    var target := UploadTarget(cfg, w.db, id, h, path);
    if target.Ok? { RecordOne(w.db, target.value, HeadMetadata(bytes), h); }
  }

  lemma CompleteRecords(cfg: Config, w: World, id: string, h: string, path: string, bytes: Blob, reported: U64,
                        etag: Option<string>)
    ensures var db' := CompleteMultipart(cfg, w, id, h, path, bytes, reported, etag).0.db;
            db' == w.db || Recorded(w.db, db')
  {
    var target := UploadTarget(cfg, w.db, id, h, path);
    if target.Ok? {
      RecordOne(w.db, target.value, Metadata("application/octet-stream", Some(reported), etag), h);
    }
  }

  lemma UploadKeepsInvariant(cfg: Config, w: World, e: Event, now: int)
    requires Invariant(w.db, now) && (e.Upload? || e.Complete?)
    ensures Invariant(Step(cfg, w, e, now).db, now)
  {
    var db' := Step(cfg, w, e, now).db;
    if e.Upload? {
      UploadRecords(cfg, w, e.id, e.h, e.path, e.bytes);
    } else {
      CompleteRecords(cfg, w, e.id, e.h, e.path, e.bytes, e.reported, e.etag);
    }
    if db' != w.db { RecordedKeepsInvariant(w.db, db', now); }
  }

  lemma SetPinKeepsInvariant(db: Db, key: PinKey, h: string, storePath: string, now: int)
    requires Invariant(db, now)
    ensures Invariant(OrElse(UpsertPin(db, key, h, storePath), db), now)
  {
    SameRefs(db, OrElse(UpsertPin(db, key, h, storePath), db), now);
  }

  lemma RemovePinKeepsInvariant(db: Db, key: PinKey, now: int)
    requires Invariant(db, now)
    ensures Invariant(OrElse(DeletePin(db, key), db), now)
  {
    SameRefs(db, OrElse(DeletePin(db, key), db), now);
  }

  lemma RemovePolicyKeepsInvariant(db: Db, project: string, now: int)
    requires Invariant(db, now)
    ensures Invariant(DeletePolicy(db, project), now)
  {
    SameRefs(db, DeletePolicy(db, project), now);
  }

  /** Whatever the event, the invariant that held at its time holds after it. */
  lemma StepKeepsInvariant(cfg: Config, w: World, e: Event, now: int, later: int)
    requires Invariant(w.db, now) && now < later
    ensures Invariant(Step(cfg, w, e, now).db, later)
  {
    hide GcPass, Invariant;
    match e {
      case Begin(project, refName, id) => BeginKeepsInvariant(w.db, project, refName, id, now);
      case Register(id, narinfos, _) => RegisterKeepsInvariant(cfg, w, id, narinfos, now);
      case Upload(_, _, _, _) => UploadKeepsInvariant(cfg, w, e, now);
      case Complete(_, _, _, _, _, _) => UploadKeepsInvariant(cfg, w, e, now);
      case Finalize(id) => FinalizeKeepsInvariant(cfg, w, id, now, later);
      case SetPin(key, h, storePath) => SetPinKeepsInvariant(w.db, key, h, storePath, now);
      case RemovePin(key) => RemovePinKeepsInvariant(w.db, key, now);
      case SetPolicy(project, keepLatest, graceSeconds, rules) =>
        PolicyKeepsInvariant(w.db, project, keepLatest, graceSeconds, rules, now);
      case RemovePolicy(project) => RemovePolicyKeepsInvariant(w.db, project, now);
      case Collect(dryRun, grace, failing) =>
        StepCollects(cfg, w, dryRun, grace, failing, now);
        CollectKeepsInvariant(cfg, w, dryRun, grace, failing, now, later);
    }
    if !e.Finalize? && !e.Collect? {
      LaterInvariant(Step(cfg, w, e, now).db, now, later);
    }
  }

  /** A time after the first `n` events. */
  predicate Since(events: seq<Timed>, n: nat, now: int)
    requires n <= |events|
  {
    n == 0 || events[n - 1].at < now
  }

  /** Every world that a run reaches satisfies the invariant. */
  lemma {:induction false} ReachableInvariant(cfg: Config, run: Run, n: nat, now: int)
    requires IsRun(cfg, run) && n <= |run.events| && Since(run.events, n, now)
    ensures Invariant(run.worlds[n].db, now)
  {
    if n == 0 {
      InitialInvariant(run.worlds[0], now);
    } else {
      ReachableInvariant(cfg, run, n - 1, run.events[n - 1].at);
      assert StepAt(cfg, run, n - 1);
      StepKeepsInvariant(cfg, run.worlds[n - 1], run.events[n - 1].event, run.events[n - 1].at, now);
    }
  }

  lemma ReachableAttached(cfg: Config, run: Run, n: nat)
    requires IsRun(cfg, run) && n <= |run.events|
    ensures Attached(run.worlds[n].db)
  {
    ReachableInvariant(cfg, run, n, if n == 0 then 0 else run.events[n - 1].at + 1);
  }

  // ---- Path metadata is write-once and stays valid ----

  lemma {:induction false} LinkedPaths(db: Db, blobs: Blobs, storageId: string, narinfos: seq<NarInfo>)
    ensures LinkLocal(db, blobs, storageId, narinfos).0.paths == db.paths
    decreases |narinfos|
  {
    if narinfos != [] && HashFromStorePath(narinfos[0].storePath).Ok? {
      var h := HashFromStorePath(narinfos[0].storePath).value;
      var db1 := LinkIfLocal(db, blobs, ObjectKey(storageId, narinfos[0].url), h);
      LinkedPaths(db1, blobs, storageId, narinfos[1..]);
    }
  }

  lemma FinalizedPaths(cfg: Config, w: World, id: string, now: int)
    ensures FinalizeBuild(cfg, w, id, now).0.db.paths == w.db.paths
  {
    if PendingBuild(w.db, id).Ok? {
      CheckBuildRecords(cfg, w, id, PendingBuild(w.db, id).value.project);
    }
  }

  lemma RegisteredPaths(cfg: Config, w: World, id: string, narinfos: seq<NarInfo>)
    ensures RegisterPaths(cfg, w, id, narinfos).0.db.paths
            == if PendingBuild(w.db, id).Ok? then RegisterAll(cfg, w.db, id, narinfos).0.paths else w.db.paths
  {
    RegistrationStages(cfg, w, id, narinfos);
    if PendingBuild(w.db, id).Ok? {
      var storageId := w.db.projects[w.db.builds[id].project].storageId;
      LinkedPaths(RegisterAll(cfg, w.db, id, narinfos).0, w.blobs, storageId, narinfos);
    }
  }

  /** Only registrations change metadata rows, to what the validated documents leave. */
  lemma StepPaths(cfg: Config, w: World, e: Event, now: int)
    requires !e.Register?
    ensures Step(cfg, w, e, now).db.paths == w.db.paths
  {
    match e {
      case Finalize(id) => FinalizedPaths(cfg, w, id, now);
      case Collect(dryRun, grace, failing) => PassChangesOnlyObjects(cfg, w, dryRun, grace, failing, now);
      case Upload(id, h, path, bytes) => UploadRecords(cfg, w, id, h, path, bytes);
      case Complete(id, h, path, bytes, reported, etag) => CompleteRecords(cfg, w, id, h, path, bytes, reported, etag);
      case _ =>
    }
  }

  predicate RowsKept(before: map<string, NarInfo>, after: map<string, NarInfo>) {
    forall h :: h in before ==> h in after && after[h] == before[h]
  }

  lemma RegisterKeepsRows(cfg: Config, w: World, id: string, narinfos: seq<NarInfo>)
    requires Attached(w.db) && RowsRevalidate(cfg, w.db)
    ensures var db' := RegisterPaths(cfg, w, id, narinfos).0.db;
            RowsRevalidate(cfg, db') && RowsKept(w.db.paths, db'.paths)
  {
    RegisteredPaths(cfg, w, id, narinfos);
    if PendingBuild(w.db, id).Ok? {
      RegisterAllKeepsRows(cfg, w.db, id, narinfos);
      RegisterAllExtends(cfg, w.db, id, narinfos);
    }
  }

  /** One step never removes or changes a metadata row, and every row it adds is valid. */
  lemma StepKeepsRows(cfg: Config, w: World, e: Event, now: int)
    requires Attached(w.db) && RowsRevalidate(cfg, w.db)
    ensures var db' := Step(cfg, w, e, now).db;
            RowsRevalidate(cfg, db') && RowsKept(w.db.paths, db'.paths)
  {
    if e.Register? {
      RegisterKeepsRows(cfg, w, e.id, e.narinfos);
    } else {
      StepPaths(cfg, w, e, now);
    }
  }

  lemma NoRowsRevalidate(cfg: Config, db: Db)
    requires db.paths == map[]
    ensures RowsRevalidate(cfg, db)
  {}

  lemma EventKeepsRows(cfg: Config, run: Run, n: nat)
    requires IsRun(cfg, run) && 0 < n <= |run.events| && RowsRevalidate(cfg, run.worlds[n - 1].db)
    ensures RowsRevalidate(cfg, run.worlds[n].db)
    ensures RowsKept(run.worlds[n - 1].db.paths, run.worlds[n].db.paths)
  {
    ReachableInvariant(cfg, run, n - 1, run.events[n - 1].at);
    assert StepAt(cfg, run, n - 1);
    StepKeepsRows(cfg, run.worlds[n - 1], run.events[n - 1].event, run.events[n - 1].at);
  }

  /** In every reachable world each metadata row passes validation again, under its own key. */
  lemma {:induction false} ReachableRows(cfg: Config, run: Run, n: nat)
    requires IsRun(cfg, run) && n <= |run.events|
    ensures RowsRevalidate(cfg, run.worlds[n].db)
  {
    hide RowsRevalidate, RowsKept, StepAt;
    if n == 0 {
      NoRowsRevalidate(cfg, run.worlds[0].db);
    } else {
      ReachableRows(cfg, run, n - 1);
      EventKeepsRows(cfg, run, n);
    }
  }

  lemma EventKeepsRowsOf(cfg: Config, run: Run, n: nat)
    requires IsRun(cfg, run) && 0 < n <= |run.events|
    ensures RowsKept(run.worlds[n - 1].db.paths, run.worlds[n].db.paths)
  {
    hide RowsRevalidate, RowsKept, StepAt;
    ReachableRows(cfg, run, n - 1);
    EventKeepsRows(cfg, run, n);
  }

  lemma KeptTwice(a: map<string, NarInfo>, b: map<string, NarInfo>, c: map<string, NarInfo>)
    requires RowsKept(a, b) && RowsKept(b, c)
    ensures RowsKept(a, c)
  {}

  /** Over every run, a row that is there at one point is there unchanged at every later point. */
  lemma {:induction false} RowsAreWriteOnce(cfg: Config, run: Run, m: nat, n: nat)
    requires IsRun(cfg, run) && m <= n <= |run.events|
    ensures RowsKept(run.worlds[m].db.paths, run.worlds[n].db.paths)
    decreases n
  {
    hide StepAt;
    if m < n {
      RowsAreWriteOnce(cfg, run, m, n - 1);
      EventKeepsRowsOf(cfg, run, n);
      KeptTwice(run.worlds[m].db.paths, run.worlds[n - 1].db.paths, run.worlds[n].db.paths);
    }
  }
}
