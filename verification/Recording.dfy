/** What uploads, completions, registrations and finalizing record, table by table (crates/depot-ingest/src/service.rs). */
module Recording {
  import opened Wrappers
  import opened Ordering
  import opened Text
  import opened NixHash
  import opened DepotPath
  import opened NarInfo
  import opened Validation
  import opened Tables
  import opened Collection
  import opened Ingest
  import opened Runs
  import opened PushProgress
  import opened Requests

  // ---- Recorded objects ----

  /** A row of a stored object that was just recorded: the length of its bytes, and no tombstone. */
  predicate RowOf(row: ObjectRow, blobs: Blobs, key: ObjectKey) {
    key in blobs && row == ObjectRow(Metadata("application/octet-stream", Some(|blobs[key]|), None), None, None)
  }

  /** The links made to objects of one backend. */
  predicate Names(links: set<PathObject>, storageId: string, key: ObjectKey) {
    key.storageId == storageId && exists o :: o in links && o.path == key.path
  }

  /** `db'` is `db` with these links made, and a fresh row for the object of each; nothing else differs. */
  ghost predicate Records(db: Db, db': Db, blobs: Blobs, storageId: string, links: set<PathObject>) {
    && db' == db.(objects := db'.objects, pathObjects := db.pathObjects + links)
    && (forall k :: k in db'.objects <==> k in db.objects || Names(links, storageId, k))
    && (forall k :: k in db'.objects && Names(links, storageId, k) ==> RowOf(db'.objects[k], blobs, k))
    && (forall k :: k in db'.objects && !Names(links, storageId, k) ==> k in db.objects && db'.objects[k] == db.objects[k])
  }

  lemma RecordsNothing(db: Db, blobs: Blobs, storageId: string)
    ensures Records(db, db, blobs, storageId, {})
  {}

  lemma RecordsOne(db: Db, blobs: Blobs, key: ObjectKey, h: string)
    requires key in blobs
    ensures Records(db, LinkObject(UpsertObject(db, key, HeadMetadata(blobs[key])), h, key.path), blobs, key.storageId,
                    {PathObject(h, key.path, NarObject)})
  {}

  lemma RecordsTwice(db: Db, db1: Db, db2: Db, blobs: Blobs, storageId: string, a: set<PathObject>, b: set<PathObject>)
    requires Records(db, db1, blobs, storageId, a) && Records(db1, db2, blobs, storageId, b)
    ensures Records(db, db2, blobs, storageId, a + b)
  {
    hide RowOf;
    assert forall k :: Names(a + b, storageId, k) <==> Names(a, storageId, k) || Names(b, storageId, k);
  }

  // ---- Upload targets ----

  /** The build can still be changed. */
  predicate IsOpen(db: Db, id: string) {
    id in db.builds && db.builds[id].project in db.projects && db.builds[id].status == Pending
  }

  /** The path is the registered one of a path of the build. */
  predicate IsAnnounced(db: Db, id: string, h: string, path: string) {
    BuildPath(id, h) in db.buildPaths && h in db.paths && db.paths[h].url == path
  }

  ghost predicate IsNar(path: string) {
    exists digest, c :: IsNarOf(path, digest, c)
  }

  predicate IsNarOf(path: string, digest: string, c: Compression) {
    ParseObjectPath(path) == Some(NarPath(digest, c))
  }

  /** Which uploads are accepted, and under which key. */
  lemma AcceptedUploads(cfg: Config, db: Db, id: string, h: string, path: string)
    ensures UploadTarget(cfg, db, id, h, path).Ok?
            <==> && IsOpen(db, id) && IsNar(path) && IsAnnounced(db, id, h, path)
                 && db.projects[db.builds[id].project].storageId in cfg.backends
    ensures UploadTarget(cfg, db, id, h, path).Ok? ==>
              UploadTarget(cfg, db, id, h, path).value == ObjectKey(db.projects[db.builds[id].project].storageId, path)
  {
    if UploadTarget(cfg, db, id, h, path).Ok? {
      var p := ParseObjectPath(path).value;
      assert IsNarOf(path, p.digest, p.compression);
    }
  }

  /** What a refused upload is told. */
  lemma RefusedUploads(cfg: Config, db: Db, id: string, h: string, path: string)
    ensures var r := UploadTarget(cfg, db, id, h, path);
            && (id !in db.builds || db.builds[id].project !in db.projects ==> r == Err(UnknownBuild(id)))
            && (id in db.builds && db.builds[id].project in db.projects && db.builds[id].status == Finalized ==>
                  r == Err(BuildNotPending(id)))
            && (IsOpen(db, id) && !IsNar(path) ==>
                  r == if exists hash :: ParseObjectPath(path) == Some(NarInfoPath(hash)) then Err(NarInfoUpload)
                       else Err(InvalidUploadPath(path)))
            && (IsOpen(db, id) && IsNar(path) && !(BuildPath(id, h) in db.buildPaths && h in db.paths) ==>
                  r == Err(PathNotInBuild(h)))
            && (IsOpen(db, id) && IsNar(path) && BuildPath(id, h) in db.buildPaths && h in db.paths
                && path != db.paths[h].url ==>
                  r == Err(UploadPathMismatch(path, db.paths[h].url)))
            && (IsOpen(db, id) && IsNar(path) && IsAnnounced(db, id, h, path)
                && db.projects[db.builds[id].project].storageId !in cfg.backends ==>
                  r == Err(UnknownStorage(db.projects[db.builds[id].project].storageId)))
  {
    match ParseObjectPath(path)
    case Some(NarPath(digest, c)) => assert IsNarOf(path, digest, c);
    case _ =>
  }

  /** An accepted upload stores the bytes, and records and links the object. */
  lemma UploadExactly(cfg: Config, w: World, id: string, h: string, path: string, bytes: Blob, now: int)
    ensures var (w', target) := (Step(cfg, w, Upload(id, h, path, bytes), now), UploadTarget(cfg, w.db, id, h, path));
            if target.Err? then w' == w
            else
              && w'.blobs == w.blobs[target.value := bytes]
              && Records(w.db, w'.db, w'.blobs, target.value.storageId, {PathObject(h, path, NarObject)})
  {
    hide UploadTarget, RegisterPaths, CompleteMultipart, FinalizeBuild, GcPass;
    var target := UploadTarget(cfg, w.db, id, h, path);
    if target.Ok? {
      AcceptedUploads(cfg, w.db, id, h, path);
      RecordsOne(w.db, w.blobs[target.value := bytes], target.value, h);
    }
  }

  /**
   A completion is refused by a backend without multipart uploads. One that reports 2^63 bytes or more
   loses the object; any other stores it with the reported length.
   */
  lemma CompletionExactly(cfg: Config, w: World, id: string, h: string, path: string, bytes: Blob, reported: U64,
                          etag: Option<string>, now: int)
    ensures var w' := Step(cfg, w, Complete(id, h, path, bytes, reported, etag), now);
            var target := UploadTarget(cfg, w.db, id, h, path);
            if target.Err? || target.value.storageId !in cfg.multipart then w' == w
            else if reported >= 0x8000_0000_0000_0000 then
              && w'.db == w.db && w'.blobs.Keys == w.blobs.Keys - {target.value}
              && forall k :: k in w'.blobs ==> w'.blobs[k] == w.blobs[k]
            else
              && w'.blobs == w.blobs[target.value := bytes]
              && w'.db == w.db.(objects := w'.db.objects, pathObjects := w.db.pathObjects + {PathObject(h, path, NarObject)})
              && w'.db.objects.Keys == w.db.objects.Keys + {target.value}
              && w'.db.objects[target.value]
                 == ObjectRow(Metadata("application/octet-stream", Some(reported), etag), None, None)
              && forall k :: k in w.db.objects && k != target.value ==> w'.db.objects[k] == w.db.objects[k]
    ensures var r := CompleteMultipart(cfg, w, id, h, path, bytes, reported, etag).1;
            var target := UploadTarget(cfg, w.db, id, h, path);
            && (target.Err? ==> r == Err(target.error))
            && (target.Ok? && target.value.storageId !in cfg.multipart ==>
                  r == Err(MultipartUnsupported(target.value.storageId)))
            && (target.Ok? && target.value.storageId in cfg.multipart ==>
                  r == if reported >= 0x8000_0000_0000_0000 then Err(IngestError.NumberTooLarge) else Ok(()))
  {
    hide UploadTarget, RegisterPaths, UploadObject, FinalizeBuild, GcPass;
    if UploadTarget(cfg, w.db, id, h, path).Ok? { AcceptedUploads(cfg, w.db, id, h, path); }
  }

  // ---- Registration ----

  /** The links to the NARs that the backend holds already. */
  function LocalLinks(blobs: Blobs, storageId: string, narinfos: seq<NarInfo>): (s: set<PathObject>) {
    set n | n in narinfos && ObjectKey(storageId, n.url) in blobs && IsNarPath(n.url)
            && HashFromStorePath(n.storePath).Ok? :: PathObject(HashFromStorePath(n.storePath).value, n.url, NarObject)
  }

  lemma LocalLinksFirst(blobs: Blobs, storageId: string, narinfos: seq<NarInfo>)
    requires narinfos != []
    ensures LocalLinks(blobs, storageId, narinfos)
            == LocalLinks(blobs, storageId, [narinfos[0]]) + LocalLinks(blobs, storageId, narinfos[1..])
  {
    hide IsNarPath, HashFromStorePath;
    assert narinfos == [narinfos[0]] + narinfos[1..];
  }

  lemma LinksOne(db: Db, blobs: Blobs, storageId: string, n: NarInfo, h: string)
    requires HashFromStorePath(n.storePath) == Ok(h)
    ensures Records(db, LinkIfLocal(db, blobs, ObjectKey(storageId, n.url), h), blobs, storageId,
                    LocalLinks(blobs, storageId, [n]))
  {
    hide IsNarPath, HashFromStorePath;
    var key := ObjectKey(storageId, n.url);
    if IsNarPath(n.url) && key in blobs {
      RecordsOne(db, blobs, key, h);
      assert LocalLinks(blobs, storageId, [n]) == {PathObject(h, n.url, NarObject)};
    } else {
      RecordsNothing(db, blobs, storageId);
      assert LocalLinks(blobs, storageId, [n]) == {};
    }
  }

  lemma {:induction false} LinksExactly(db: Db, blobs: Blobs, storageId: string, narinfos: seq<NarInfo>)
    requires forall n :: n in narinfos ==> HashFromStorePath(n.storePath).Ok?
    ensures LinkLocal(db, blobs, storageId, narinfos).1 == Ok(())
    ensures Records(db, LinkLocal(db, blobs, storageId, narinfos).0, blobs, storageId,
                    LocalLinks(blobs, storageId, narinfos))
    decreases |narinfos|
  {
    hide Records, LocalLinks, LinkIfLocal, HashFromStorePath;
    if narinfos == [] {
      LinksNothing(db, blobs, storageId);
    } else {
      var h := HashFromStorePath(narinfos[0].storePath).value;
      var db1 := LinkIfLocal(db, blobs, ObjectKey(storageId, narinfos[0].url), h);
      LinksOne(db, blobs, storageId, narinfos[0], h);
      LinksExactly(db1, blobs, storageId, narinfos[1..]);
      LocalLinksFirst(blobs, storageId, narinfos);
      RecordsTwice(db, db1, LinkLocal(db1, blobs, storageId, narinfos[1..]).0, blobs, storageId,
                   LocalLinks(blobs, storageId, [narinfos[0]]), LocalLinks(blobs, storageId, narinfos[1..]));
    }
  }

  lemma LinksNothing(db: Db, blobs: Blobs, storageId: string)
    ensures Records(db, db, blobs, storageId, LocalLinks(blobs, storageId, []))
  {
    assert LocalLinks(blobs, storageId, []) == {};
  }

  lemma RegistersFirst(cfg: Config, db: Db, id: string, narinfos: seq<NarInfo>) returns (db1: Db)
    requires narinfos != [] && RegisterAll(cfg, db, id, narinfos).1.Ok?
    ensures HashFromStorePath(narinfos[0].storePath).Ok? && RegisterAll(cfg, db1, id, narinfos[1..]).1.Ok?
  {
    hide ValidatePublish, UpsertPathInfo;
    AcceptedIsAddressed(cfg.storeDir, narinfos[0]);
    db1 := AttachBuildPath(UpsertPathInfo(db, narinfos[0]).value, id, ValidatePublish(cfg.storeDir, narinfos[0]).value);
  }

  lemma {:induction false} RegisteredHaveHashes(cfg: Config, db: Db, id: string, narinfos: seq<NarInfo>)
    requires RegisterAll(cfg, db, id, narinfos).1.Ok?
    ensures forall n :: n in narinfos ==> HashFromStorePath(n.storePath).Ok?
    decreases |narinfos|
  {
    hide RegisterAll, HashFromStorePath;
    if narinfos != [] {
      assert narinfos == [narinfos[0]] + narinfos[1..];
      var db1 := RegistersFirst(cfg, db, id, narinfos);
      RegisteredHaveHashes(cfg, db1, id, narinfos[1..]);
    }
  }

  /**
   A registration records the documents; if all are recorded and the backend is configured, it links
   what is there and answers with what is asked for.
   */
  lemma RegistrationExactly(cfg: Config, w: World, id: string, narinfos: seq<NarInfo>, unopened: set<string>, now: int)
    ensures var (w', r) := (Step(cfg, w, Register(id, narinfos, unopened), now), RegisterPaths(cfg, w, id, narinfos).1);
            if !IsOpen(w.db, id) then w' == w && r.Err?
            else
              var (db1, registered) := RegisterAll(cfg, w.db, id, narinfos);
              var project := w.db.builds[id].project;
              var storageId := w.db.projects[project].storageId;
              && w'.blobs == w.blobs
              && (registered.Err? ==> w'.db == db1 && r == Err(registered.error))
              && (registered.Ok? && storageId !in cfg.backends ==> w'.db == db1 && r == Err(UnknownStorage(storageId)))
              && (registered.Ok? && storageId in cfg.backends ==>
                    && r == Ok(Asked(cfg, w.blobs, storageId, project, narinfos))
                    && Records(db1, w'.db, w.blobs, storageId, LocalLinks(w.blobs, storageId, narinfos)))
  {
    hide RegisterAll, UploadObject, CompleteMultipart, FinalizeBuild, GcPass, Records, LocalLinks, LinkLocal, PlanUploads,
      Asked;
    if IsOpen(w.db, id) && RegisterAll(cfg, w.db, id, narinfos).1.Ok? {
      var project := w.db.builds[id].project;
      RegisteredHaveHashes(cfg, w.db, id, narinfos);
      LinksExactly(RegisterAll(cfg, w.db, id, narinfos).0, w.blobs, w.db.projects[project].storageId, narinfos);
      PlanExactly(cfg, w.blobs, w.db.projects[project].storageId, project, narinfos);
    }
  }

  lemma {:induction false} FirstUnopenedExactly(planned: seq<PlannedUpload>, unopened: set<string>, j: nat)
    requires j < |planned| && planned[j].path in unopened && forall i :: 0 <= i < j ==> planned[i].path !in unopened
    ensures FirstUnopened(planned, unopened) == Some(planned[j].path)
    decreases j
  {
    if j > 0 { FirstUnopenedExactly(planned[1..], unopened, j - 1); }
  }

  /** The answer to a registration: the first upload that a multipart backend does not open is the error. */
  lemma AnswerExactly(cfg: Config, w: World, id: string, narinfos: seq<NarInfo>, unopened: set<string>, j: nat)
    requires IsOpen(w.db, id) && RegisterPaths(cfg, w, id, narinfos).1.Ok?
    ensures var planned := RegisterPaths(cfg, w, id, narinfos).1.value;
            var multipart := w.db.projects[w.db.builds[id].project].storageId in cfg.multipart;
            && (multipart && j < |planned| && planned[j].path in unopened
                && (forall i :: 0 <= i < j ==> planned[i].path !in unopened) ==>
                  RegisterAnswer(cfg, w, id, narinfos, unopened) == Err(UploadNotOpened(planned[j].path)))
            && (!multipart || (forall i :: 0 <= i < |planned| ==> planned[i].path !in unopened) ==>
                  RegisterAnswer(cfg, w, id, narinfos, unopened) == Ok(planned))
  {
    hide RegisterPaths;
    var planned := RegisterPaths(cfg, w, id, narinfos).1.value;
    if j < |planned| && planned[j].path in unopened && (forall i :: 0 <= i < j ==> planned[i].path !in unopened) {
      FirstUnopenedExactly(planned, unopened, j);
    }
  }

  // ---- Finalizing ----

  /** The NAR of the path is in the project's storage or with one of its upstreams. */
  predicate IsSomewhere(cfg: Config, w: World, id: string, h: string)
    requires IsOpen(w.db, id) && h in w.db.paths
  {
    var project := w.db.builds[id].project;
    ObjectKey(w.db.projects[project].storageId, w.db.paths[h].url) in w.blobs || HasUpstream(cfg, project, w.db.paths[h].url)
  }

  /** A registered path of the build. */
  predicate IsPathOf(db: Db, id: string, h: string) {
    BuildPath(id, h) in db.buildPaths && h in db.paths
  }

  /** The first path of the build, in the order of the hashes, whose NAR is nowhere. */
  ghost predicate IsFirstMissing(cfg: Config, w: World, id: string, h: string)
    requires IsOpen(w.db, id)
  {
    && IsPathOf(w.db, id, h) && !IsSomewhere(cfg, w, id, h)
    && forall k :: IsPathOf(w.db, id, k) && !IsSomewhere(cfg, w, id, k) ==> Leq(h, k)
  }

  /** The links to the NARs of these paths that the backend holds. */
  function FoundLinks(db: Db, blobs: Blobs, storageId: string, hashes: seq<string>): (s: set<PathObject>) {
    set h | h in hashes && h in db.paths && ObjectKey(storageId, db.paths[h].url) in blobs
      :: PathObject(h, db.paths[h].url, NarObject)
  }

  lemma FoundLinksFirst(db: Db, blobs: Blobs, storageId: string, hashes: seq<string>)
    requires hashes != []
    ensures FoundLinks(db, blobs, storageId, hashes)
            == FoundLinks(db, blobs, storageId, [hashes[0]]) + FoundLinks(db, blobs, storageId, hashes[1..])
  {
    assert hashes == [hashes[0]] + hashes[1..];
  }

  /** The check stops at the first path whose NAR is nowhere, after recording what is local of those before it. */
  lemma {:induction false} ChecksUntil(start: Db, db: Db, blobs: Blobs, storageId: string, upstreams: seq<set<string>>,
                                       hashes: seq<string>, n: nat)
    requires n <= |hashes| && forall h :: h in hashes ==> h in start.paths
    requires forall i :: 0 <= i < n ==> IsAvailable(blobs, storageId, upstreams, start.paths[hashes[i]].url)
    requires n < |hashes| ==> !IsAvailable(blobs, storageId, upstreams, start.paths[hashes[n]].url)
    ensures var (db', r) := CheckObjects(db, start.paths, blobs, storageId, upstreams, hashes);
            && r == (if n == |hashes| then Ok(()) else Err(ObjectUnavailable(hashes[n], start.paths[hashes[n]].url)))
            && Records(db, db', blobs, storageId, FoundLinks(start, blobs, storageId, hashes[..n]))
    decreases |hashes|
  {
    hide Records, FoundLinks;
    if n == 0 {
      assert FoundLinks(start, blobs, storageId, hashes[..n]) == {} by { FoundNothing(start, blobs, storageId); }
      RecordsNothing(db, blobs, storageId);
    } else {
      var h := hashes[0];
      var key := ObjectKey(storageId, start.paths[h].url);
      var db1 := if key in blobs then LinkObject(UpsertObject(db, key, HeadMetadata(blobs[key])), h, key.path) else db;
      ChecksOne(start, db, blobs, storageId, h);
      assert hashes[1..][..n - 1] == hashes[..n][1..];
      ChecksUntil(start, db1, blobs, storageId, upstreams, hashes[1..], n - 1);
      FoundLinksFirst(start, blobs, storageId, hashes[..n]);
      RecordsTwice(db, db1, CheckObjects(db1, start.paths, blobs, storageId, upstreams, hashes[1..]).0, blobs, storageId,
                   FoundLinks(start, blobs, storageId, [h]), FoundLinks(start, blobs, storageId, hashes[..n][1..]));
    }
  }

  lemma FoundNothing(db: Db, blobs: Blobs, storageId: string)
    ensures FoundLinks(db, blobs, storageId, []) == {}
  {}

  lemma ChecksOne(start: Db, db: Db, blobs: Blobs, storageId: string, h: string)
    requires h in start.paths
    ensures var key := ObjectKey(storageId, start.paths[h].url);
            Records(db,
                    if key in blobs then LinkObject(UpsertObject(db, key, HeadMetadata(blobs[key])), h, key.path) else db,
                    blobs, storageId, FoundLinks(start, blobs, storageId, [h]))
  {
    hide Records;
    var key := ObjectKey(storageId, start.paths[h].url);
    if key in blobs {
      RecordsOne(db, blobs, key, h);
      assert FoundLinks(start, blobs, storageId, [h]) == {PathObject(h, key.path, NarObject)};
    } else {
      RecordsNothing(db, blobs, storageId);
      assert FoundLinks(start, blobs, storageId, [h]) == {};
    }
  }

  lemma PathsInOrder(db: Db, id: string)
    ensures var hashes := BuildHashes(db, id);
            && (forall h :: h in hashes <==> IsPathOf(db, id, h))
            && forall i, j :: 0 <= i < j < |hashes| ==> Leq(hashes[i], hashes[j]) && hashes[i] != hashes[j]
  {
    LeqIsTotalOrder();
    var s := set bp | bp in db.buildPaths && bp.buildId == id && bp.storePathHash in db.paths :: bp.storePathHash;
    AscendingMembers(s, Leq);
    var hashes := Ascending(s, Leq);
    forall i, j | 0 <= i < j < |hashes| ensures Leq(hashes[i], hashes[j]) && hashes[i] != hashes[j] {
      DistinctElements(hashes, s, i, j);
    }
  }

  /** A path of the build before all whose NAR is nowhere. */
  ghost predicate ComesBeforeMissing(cfg: Config, w: World, id: string, h: string)
    requires IsOpen(w.db, id)
  {
    && IsPathOf(w.db, id, h)
    && forall k :: IsPathOf(w.db, id, k) && !IsSomewhere(cfg, w, id, k) ==> Leq(h, k) && h != k
  }

  /** The links that finalizing makes: to what is local, up to the first path whose NAR is nowhere. */
  ghost function LinksToMake(cfg: Config, w: World, id: string): (s: set<PathObject>)
    requires IsOpen(w.db, id)
  {
    set h | h in w.db.paths && ComesBeforeMissing(cfg, w, id, h)
            && ObjectKey(w.db.projects[w.db.builds[id].project].storageId, w.db.paths[h].url) in w.blobs
      :: PathObject(h, w.db.paths[h].url, NarObject)
  }

  /** The length of the part of the listing before the first path whose NAR is nowhere. */
  lemma FirstMissingIn(cfg: Config, w: World, id: string, hashes: seq<string>) returns (n: nat)
    requires IsOpen(w.db, id) && forall h :: h in hashes ==> h in w.db.paths
    ensures n <= |hashes|
    ensures forall i :: 0 <= i < n ==> IsSomewhere(cfg, w, id, hashes[i])
    ensures n < |hashes| ==> !IsSomewhere(cfg, w, id, hashes[n])
    decreases |hashes|
  {
    if hashes == [] || !IsSomewhere(cfg, w, id, hashes[0]) {
      n := 0;
    } else {
      var m := FirstMissingIn(cfg, w, id, hashes[1..]);
      n := m + 1;
    }
  }

  lemma FoundAre(cfg: Config, w: World, id: string, hashes: seq<string>, n: nat)
    requires IsOpen(w.db, id) && n <= |hashes| && forall h :: h in hashes ==> h in w.db.paths
    requires forall h :: h in hashes <==> IsPathOf(w.db, id, h)
    requires forall i, j :: 0 <= i < j < |hashes| ==> Leq(hashes[i], hashes[j]) && hashes[i] != hashes[j]
    requires forall i :: 0 <= i < n ==> IsSomewhere(cfg, w, id, hashes[i])
    requires n < |hashes| ==> !IsSomewhere(cfg, w, id, hashes[n])
    ensures forall h :: h in hashes[..n] <==> ComesBeforeMissing(cfg, w, id, h)
    ensures n < |hashes| ==> IsFirstMissing(cfg, w, id, hashes[n])
  {
    hide IsSomewhere;
    LeqIsTotalOrder();
    forall h ensures h in hashes[..n] <==> ComesBeforeMissing(cfg, w, id, h) {
      if IsPathOf(w.db, id, h) {
        var j: nat :| j < |hashes| && hashes[j] == h;
        assert n <= j ==> IsPathOf(w.db, id, hashes[n]) && Leq(hashes[n], h);
        if n <= j && ComesBeforeMissing(cfg, w, id, h) { LeqAntisymmetric(h, hashes[n]); }
      }
    }
  }

  lemma FoundLinksAre(cfg: Config, w: World, id: string, found: seq<string>)
    requires IsOpen(w.db, id) && forall h :: h in found <==> ComesBeforeMissing(cfg, w, id, h)
    ensures FoundLinks(w.db, w.blobs, w.db.projects[w.db.builds[id].project].storageId, found) == LinksToMake(cfg, w, id)
  {
    hide IsSomewhere;
    forall h ensures h in found && h in w.db.paths <==> h in w.db.paths && ComesBeforeMissing(cfg, w, id, h) {}
  }

  /** The ref names the build, and the build is finalized, both at this time; no other row of either table differs. */
  predicate NamesNow(db: Db, db': Db, id: string, now: int)
    requires id in db.builds
  {
    var key := RefKey(db.builds[id].project, db.builds[id].refName);
    && db'.refs.Keys == db.refs.Keys + {key} && db'.refs[key] == RefRow(id, now)
    && (forall k :: k in db.refs && k != key ==> db'.refs[k] == db.refs[k])
    && db'.builds.Keys == db.builds.Keys
    && db'.builds[id] == Build(key.project, key.refName, Finalized, db.builds[id].createdAt, Some(now))
    && forall b :: b in db.builds && b != id ==> db'.builds[b] == db.builds[b]
  }

  lemma ChecksExactly(cfg: Config, w: World, id: string)
    requires IsOpen(w.db, id) && HasPath(w.db, id)
    requires w.db.projects[w.db.builds[id].project].storageId in cfg.backends
    ensures var project := w.db.builds[id].project;
            var (db', r) := CheckBuild(cfg, w, id, project);
            && Records(w.db, db', w.blobs, w.db.projects[project].storageId, LinksToMake(cfg, w, id))
            && ((r.Err? && exists h :: IsFirstMissing(cfg, w, id, h) && r == Err(ObjectUnavailable(h, w.db.paths[h].url)))
                || (r.Ok? && forall h :: IsPathOf(w.db, id, h) ==> IsSomewhere(cfg, w, id, h)))
  {
    hide Records, LinksToMake, FoundLinks, CheckObjects, BuildHashes, ComesBeforeMissing;
    var project := w.db.builds[id].project;
    var storageId := w.db.projects[project].storageId;
    var hashes := BuildHashes(w.db, id);
    PathsInOrder(w.db, id);
    assert hashes != [] by {
      var h :| h in w.db.paths && BuildPath(id, h) in w.db.buildPaths;
      assert IsPathOf(w.db, id, h);
    }
    var n := FirstMissingIn(cfg, w, id, hashes);
    FoundAre(cfg, w, id, hashes, n);
    FoundLinksAre(cfg, w, id, hashes[..n]);
    SomewhereIsAvailable(cfg, w, id);
    ChecksUntil(w.db, w.db, w.blobs, storageId, UpstreamsOf(cfg, project), hashes, n);
  }

  lemma SomewhereIsAvailable(cfg: Config, w: World, id: string)
    requires IsOpen(w.db, id)
    ensures var project := w.db.builds[id].project;
            forall h :: h in w.db.paths ==>
              (IsSomewhere(cfg, w, id, h)
               <==> IsAvailable(w.blobs, w.db.projects[project].storageId, UpstreamsOf(cfg, project), w.db.paths[h].url))
  {}

  lemma OneFirstMissing(cfg: Config, w: World, id: string, a: string, b: string)
    requires IsOpen(w.db, id) && IsFirstMissing(cfg, w, id, a) && IsFirstMissing(cfg, w, id, b)
    ensures a == b
  {
    hide IsSomewhere;
    LeqAntisymmetric(a, b);
  }

  /**
   What finalizing does to a pending build that has paths: it records what is local up to the first path
   whose NAR is nowhere, which is the error; if there is none, the ref names the build from now on.
   */
  lemma FinalizesExactly(cfg: Config, w: World, id: string, now: int)
    requires IsOpen(w.db, id) && HasPath(w.db, id)
    requires w.db.projects[w.db.builds[id].project].storageId in cfg.backends
    ensures var (w', r) := FinalizeBuild(cfg, w, id, now);
            var storageId := w.db.projects[w.db.builds[id].project].storageId;
            && w' == Step(cfg, w, Finalize(id), now) && w'.blobs == w.blobs
            && Records(w.db, w'.db.(refs := w.db.refs, builds := w.db.builds), w.blobs, storageId, LinksToMake(cfg, w, id))
            && (r.Ok? <==> forall h :: IsPathOf(w.db, id, h) ==> IsSomewhere(cfg, w, id, h))
            && (r.Ok? ==> NamesNow(w.db, w'.db, id, now))
            && (r.Err? ==> w'.db.refs == w.db.refs && w'.db.builds == w.db.builds)
            && forall h :: IsFirstMissing(cfg, w, id, h) ==> r == Err(ObjectUnavailable(h, w.db.paths[h].url))
  {
    hide Records, LinksToMake, CheckBuild, RegisterPaths, UploadObject, CompleteMultipart, GcPass, IsSomewhere;
    ChecksExactly(cfg, w, id);
    var checked := CheckBuild(cfg, w, id, w.db.builds[id].project);
    assert Records(w.db, checked.0, w.blobs, w.db.projects[w.db.builds[id].project].storageId, LinksToMake(cfg, w, id));
    RecordsKeeps(w.db, checked.0, w.blobs, w.db.projects[w.db.builds[id].project].storageId, LinksToMake(cfg, w, id));
    forall a, b | IsFirstMissing(cfg, w, id, a) && IsFirstMissing(cfg, w, id, b) ensures a == b {
      OneFirstMissing(cfg, w, id, a, b);
    }
  }

  lemma RecordsKeeps(db: Db, db': Db, blobs: Blobs, storageId: string, links: set<PathObject>)
    requires Records(db, db', blobs, storageId, links)
    ensures db'.refs == db.refs && db'.builds == db.builds && db'.projects == db.projects
  {}

  /** And a build that cannot be finalized before any NAR is looked for: nothing changes. */
  lemma FinalizeRefused(cfg: Config, w: World, id: string, now: int)
    ensures var r := FinalizeBuild(cfg, w, id, now);
            && (id !in w.db.builds || w.db.builds[id].project !in w.db.projects ==> r == (w, Err(UnknownBuild(id))))
            && (id in w.db.builds && w.db.builds[id].project in w.db.projects && w.db.builds[id].status == Finalized ==>
                  r == (w, Err(BuildNotPending(id))))
            && (IsOpen(w.db, id) && !HasPath(w.db, id) ==> r == (w, Err(NoRegisteredPaths(id))))
            && (IsOpen(w.db, id) && HasPath(w.db, id)
                && w.db.projects[w.db.builds[id].project].storageId !in cfg.backends ==>
                  r == (w, Err(UnknownStorage(w.db.projects[w.db.builds[id].project].storageId))))
  {
    hide BuildHashes;
    if IsOpen(w.db, id) {
      PathsInOrder(w.db, id);
      var hashes := BuildHashes(w.db, id);
      if hashes != [] { assert IsPathOf(w.db, id, hashes[0]); }
      if HasPath(w.db, id) {
        var h :| h in w.db.paths && BuildPath(id, h) in w.db.buildPaths;
        assert IsPathOf(w.db, id, h);
      }
    }
  }
}
