/** What each request answers and changes, table by table (crates/depot-ingest/src/service.rs, crates/depot-db/src). */
module Requests {
  import opened Wrappers
  import opened Ordering
  import opened Text
  import opened NixHash
  import opened DepotPath
  import opened NarInfo
  import opened Validation
  import opened Tables
  import opened Retention
  import opened Collection
  import opened Ingest
  import opened Runs

  // ---- Pending builds ----

  /** What a request for a build answers unless the build is pending in an existing project. */
  lemma PendingExactly(db: Db, id: string)
    ensures PendingBuild(db, id)
            == if id !in db.builds || db.builds[id].project !in db.projects then Err(UnknownBuild(id))
               else if db.builds[id].status == Finalized then Err(BuildNotPending(id))
               else Ok(db.builds[id])
  {}

  /** Beginning a build: a new one of a known project, pending from now on, and nothing else. */
  lemma BeginExactly(cfg: Config, w: World, project: string, refName: string, id: string, now: int)
    ensures var w' := Step(cfg, w, Begin(project, refName, id), now);
            if project in w.db.projects && id !in w.db.builds then
              && w' == World(w.db.(builds := w'.db.builds), w.blobs)
              && w'.db.builds.Keys == w.db.builds.Keys + {id}
              && (forall b :: b in w.db.builds ==> w'.db.builds[b] == w.db.builds[b])
              && w'.db.builds[id] == Build(project, refName, Pending, now, None)
            else w' == w
    ensures project !in w.db.projects ==>
              BeginBuild(w.db, project, refName, id, now) == Err(IngestError.UnknownProject(project))
    ensures project in w.db.projects && id in w.db.builds ==>
              BeginBuild(w.db, project, refName, id, now) == Err(DuplicateBuild(id))
  {
    hide RegisterPaths, UploadObject, CompleteMultipart, FinalizeBuild, GcPass, UpsertPin, DeletePin;
  }

  // ---- Pins ----

  predicate HasScope(db: Db, scope: PinScope) {
    scope == GlobalScope || scope.project in db.projects
  }

  /** Pinning a registered path under its own store path; any other request for a pin changes nothing. */
  lemma PinExactly(cfg: Config, w: World, key: PinKey, h: string, storePath: string, now: int)
    ensures var w' := Step(cfg, w, SetPin(key, h, storePath), now);
            if HasScope(w.db, key.scope) && h in w.db.paths && w.db.paths[h].storePath == storePath then
              && w' == World(w.db.(pins := w'.db.pins), w.blobs)
              && w'.db.pins.Keys == w.db.pins.Keys + {key} && w'.db.pins[key] == Pin(h, storePath)
              && forall k :: k in w.db.pins && k != key ==> w'.db.pins[k] == w.db.pins[k]
            else w' == w
    ensures !HasScope(w.db, key.scope) ==>
              UpsertPin(w.db, key, h, storePath) == Err(IngestError.UnknownProject(key.scope.project))
    ensures HasScope(w.db, key.scope) && h !in w.db.paths ==>
              UpsertPin(w.db, key, h, storePath) == Err(UnknownPinnedPath(h))
    ensures HasScope(w.db, key.scope) && h in w.db.paths && w.db.paths[h].storePath != storePath ==>
              UpsertPin(w.db, key, h, storePath) == Err(PinMismatch(storePath, w.db.paths[h].storePath))
  {
    hide RegisterPaths, UploadObject, CompleteMultipart, FinalizeBuild, GcPass, BeginBuild, ReplacePolicy;
  }

  /** Removing a pin removes that one alone; a pin that is not there is no error. */
  lemma UnpinExactly(cfg: Config, w: World, key: PinKey, now: int)
    ensures var w' := Step(cfg, w, RemovePin(key), now);
            if HasScope(w.db, key.scope) then
              && w' == World(w.db.(pins := w'.db.pins), w.blobs) && w'.db.pins.Keys == w.db.pins.Keys - {key}
              && forall k :: k in w'.db.pins ==> w'.db.pins[k] == w.db.pins[k]
            else w' == w && DeletePin(w.db, key) == Err(IngestError.UnknownProject(key.scope.project))
  {
    hide RegisterPaths, UploadObject, CompleteMultipart, FinalizeBuild, GcPass, BeginBuild, ReplacePolicy;
  }

  // ---- Policies ----

  /** A policy that is not refused replaces the project's; one that is refused changes nothing. */
  lemma PolicySet(cfg: Config, w: World, project: string, keepLatest: nat, graceSeconds: nat, rules: seq<Rule>, now: int)
    ensures var w' := Step(cfg, w, SetPolicy(project, keepLatest, graceSeconds, rules), now);
            var r := ReplacePolicy(w.db, project, keepLatest, graceSeconds, rules);
            w' == if r.Ok? then World(r.value, w.blobs) else w
  {
    hide RegisterPaths, UploadObject, CompleteMultipart, FinalizeBuild, GcPass, BeginBuild, ReplacePolicy, UpsertPin;
  }

  /** Without its policy a project falls back to the default; no other project is touched. */
  lemma PolicyRemoved(cfg: Config, w: World, project: string, now: int)
    ensures var w' := Step(cfg, w, RemovePolicy(project), now);
            if project in w.db.projects then
              && w' == World(w.db.(policies := w'.db.policies), w.blobs)
              && w'.db.policies.Keys == w.db.policies.Keys - {project}
              && forall p :: p in w'.db.policies ==> w'.db.policies[p] == w.db.policies[p]
            else w' == w
  {
    hide RegisterPaths, UploadObject, CompleteMultipart, FinalizeBuild, GcPass, BeginBuild, ReplacePolicy, UpsertPin;
  }

  // ---- Upstreams ----

  /** One of the project's upstreams has the object. */
  predicate HasUpstream(cfg: Config, project: string, path: string) {
    project in cfg.upstreams && exists i :: 0 <= i < |cfg.upstreams[project]| && path in cfg.upstreams[project][i]
  }

  lemma UpstreamExactly(cfg: Config, project: string, path: string)
    ensures ServedUpstream(UpstreamsOf(cfg, project), path) <==> HasUpstream(cfg, project, path)
  {}

  // ---- Metadata ----

  /** When a second document for a path is compatible, field by field. */
  lemma CompatibleInFields(existing: NarInfo, n: NarInfo)
    requires existing.narHash.Normalize().Ok? && n.narHash.Normalize().Ok?
    ensures EnsureCompatible(existing, n).Ok?
            <==> && existing.storePath == n.storePath && existing.url == n.url && existing.compression == n.compression
                 && existing.narHash.Normalize() == n.narHash.Normalize() && existing.narSize == n.narSize
                 && multiset(existing.references) == multiset(n.references) && existing.deriver == n.deriver
                 && (existing.ca.Some? <==> n.ca.Some?)
                 && (n.ca.Some? ==> existing.ca.value.Format() == n.ca.value.Format())
    ensures EnsureCompatible(existing, n).Err? ==> EnsureCompatible(existing, n) == Err(ConflictingMetadata(n.storePath))
  {
    if multiset(existing.references) == multiset(n.references) {
      LeqIsTotalOrder();
      SortPermutation(existing.references, n.references, Leq);
    } else if SortText(existing.references) == SortText(n.references) {
      SortedEqual(existing.references, n.references);
    }
  }

  /** Recording a document, when its path has no row. */
  lemma FirstRowExactly(db: Db, n: NarInfo, h: string, hash: NormalizedHash)
    requires HashFromStorePath(n.storePath) == Ok(h) && n.narHash.Normalize() == Ok(hash) && h !in db.paths
    ensures n.narSize > 9223372036854775807 ==> UpsertPathInfo(db, n) == Err(IngestError.NumberTooLarge)
    ensures n.narSize <= 9223372036854775807 ==>
              if exists k :: k in db.paths && db.paths[k].storePath == n.storePath then
                UpsertPathInfo(db, n) == Err(PathInfoDisappeared)
              else
                && UpsertPathInfo(db, n).Ok?
                && var db' := UpsertPathInfo(db, n).value;
                   && db' == db.(paths := db.paths[h := db'.paths[h]])
                   && db'.paths[h] == n.(narHash := Raw(hash.algorithm.Name() + ":" + hash.digest),
                                         ca := if n.ca.Some? then Some(RawAddress(n.ca.value.Format())) else None)
  {}

  /** And when it has one: nothing is written. */
  lemma SecondRowExactly(db: Db, n: NarInfo, h: string)
    requires HashFromStorePath(n.storePath) == Ok(h) && n.narHash.Normalize().Ok? && h in db.paths
    ensures UpsertPathInfo(db, n)
            == if n.narSize > 9223372036854775807 then Err(IngestError.NumberTooLarge)
               else if EnsureCompatible(db.paths[h], n).Ok? then Ok(db) else Err(EnsureCompatible(db.paths[h], n).error)
  {}

  /** Documents are registered one after another. */
  lemma {:induction false} RegistersInTurn(cfg: Config, db: Db, id: string, a: seq<NarInfo>, b: seq<NarInfo>)
    ensures var (db1, r) := RegisterAll(cfg, db, id, a);
            RegisterAll(cfg, db, id, a + b) == if r.Ok? then RegisterAll(cfg, db1, id, b) else (db1, r)
    decreases |a|
  {
    if a == [] {
      assert a + b == b;
    } else {
      assert (a + b)[0] == a[0] && (a + b)[1..] == a[1..] + b;
      if ValidatePublish(cfg.storeDir, a[0]).Ok? && UpsertPathInfo(db, a[0]).Ok? {
        var db1 := AttachBuildPath(UpsertPathInfo(db, a[0]).value, id, ValidatePublish(cfg.storeDir, a[0]).value);
        RegistersInTurn(cfg, db1, id, a[1..], b);
      }
    }
  }

  /** One document: refused with the objection to it or to its row, or recorded and attached to the build. */
  lemma RegistersOne(cfg: Config, db: Db, id: string, n: NarInfo)
    ensures var checked := ValidatePublish(cfg.storeDir, n);
            var (db', r) := RegisterAll(cfg, db, id, [n]);
            && (checked.Err? ==> db' == db && r == Err(InvalidPayload(checked.error)))
            && (checked.Ok? && UpsertPathInfo(db, n).Err? ==> db' == db && r == Err(UpsertPathInfo(db, n).error))
            && (checked.Ok? && UpsertPathInfo(db, n).Ok? ==>
                  && r == Ok(())
                  && db' == db.(paths := UpsertPathInfo(db, n).value.paths,
                                buildPaths := db.buildPaths + {BuildPath(id, checked.value)}))
  {
    hide ValidatePublish;
    assert [n][1..] == [];
    if ValidatePublish(cfg.storeDir, n).Ok? && UpsertPathInfo(db, n).Ok? {
      assert UpsertPathInfo(db, n).value == db.(paths := UpsertPathInfo(db, n).value.paths);
    }
  }

  // ---- Planning ----

  /** The document asks for an upload: its URL is a NAR path, and the NAR is neither stored nor upstream. */
  predicate AsksFor(cfg: Config, blobs: Blobs, storageId: string, project: string, n: NarInfo) {
    && ParseObjectPath(n.url).Some? && ParseObjectPath(n.url).value.NarPath?
    && ObjectKey(storageId, n.url) !in blobs && !HasUpstream(cfg, project, n.url)
  }

  /** What one document asks for. */
  function AskOf(cfg: Config, blobs: Blobs, storageId: string, project: string, n: NarInfo): (r: seq<PlannedUpload>) {
    match HashFromStorePath(n.storePath)
    case Err(_) => []
    case Ok(h) => if AsksFor(cfg, blobs, storageId, project, n) then [PlannedUpload(h, n.url)] else []
  }

  /** The uploads that these documents ask for, in their order. */
  function Asked(cfg: Config, blobs: Blobs, storageId: string, project: string, narinfos: seq<NarInfo>)
    : (r: seq<PlannedUpload>)
  {
    if narinfos == [] then []
    else
      Asked(cfg, blobs, storageId, project, narinfos[..|narinfos| - 1])
      + AskOf(cfg, blobs, storageId, project, narinfos[|narinfos| - 1])
  }

  lemma {:induction false} AskedFirst(cfg: Config, blobs: Blobs, storageId: string, project: string, narinfos: seq<NarInfo>)
    requires narinfos != []
    ensures Asked(cfg, blobs, storageId, project, narinfos)
            == AskOf(cfg, blobs, storageId, project, narinfos[0]) + Asked(cfg, blobs, storageId, project, narinfos[1..])
    decreases |narinfos|
  {
    hide AskOf;
    if |narinfos| == 1 {
      assert narinfos[..0] == [] && narinfos[1..] == [];
    } else {
      var front := narinfos[..|narinfos| - 1];
      AskedFirst(cfg, blobs, storageId, project, front);
      assert front[1..] == narinfos[1..][..|narinfos| - 2];
    }
  }

  lemma PlanFirst(cfg: Config, blobs: Blobs, storageId: string, project: string, narinfos: seq<NarInfo>)
    requires narinfos != []
    ensures var r := PlanUploads(blobs, storageId, UpstreamsOf(cfg, project), narinfos);
            var rest := PlanUploads(blobs, storageId, UpstreamsOf(cfg, project), narinfos[1..]);
            && (r.Ok? <==> HashFromStorePath(narinfos[0].storePath).Ok? && rest.Ok?)
            && (r.Ok? ==> r.value == AskOf(cfg, blobs, storageId, project, narinfos[0]) + rest.value)
  {
    hide HashFromStorePath, ParseObjectPath;
    UpstreamExactly(cfg, project, narinfos[0].url);
  }

  /** The plan is what the documents ask for, in order; without a store path hash there is an error instead. */
  lemma {:induction false} PlanExactly(cfg: Config, blobs: Blobs, storageId: string, project: string, narinfos: seq<NarInfo>)
    ensures var r := PlanUploads(blobs, storageId, UpstreamsOf(cfg, project), narinfos);
            && (r.Ok? <==> forall n :: n in narinfos ==> HashFromStorePath(n.storePath).Ok?)
            && (r.Ok? ==> r.value == Asked(cfg, blobs, storageId, project, narinfos))
    decreases |narinfos|
  {
    hide HashFromStorePath;
    if narinfos != [] {
      hide Asked, AskOf, PlanUploads;
      assert narinfos == [narinfos[0]] + narinfos[1..];
      PlanFirst(cfg, blobs, storageId, project, narinfos);
      PlanExactly(cfg, blobs, storageId, project, narinfos[1..]);
      AskedFirst(cfg, blobs, storageId, project, narinfos);
    }
  }
}
