/** The database as an object whose methods update its tables in place (crates/depot-db/src). */
module Database {
  import opened Wrappers
  import opened Ordering
  import opened Text
  import opened NixHash
  import opened NarInfo
  import opened Tables
  import opened Retention
  import opened Liveness
  import opened Collection
  import opened Ingest

  /** A statement that either changes the tables as specified or reports an error and changes nothing. */
  ghost predicate Applied<E>(r: Result<(), E>, before: Db, after: Db, spec: Result<Db, E>) {
    match spec
    case Ok(db) => r == Ok(()) && after == db
    case Err(e) => r == Err(e) && after == before
  }

  predicate RefKeyLeq(a: RefKey, b: RefKey) {
    if a.project == b.project then Leq(a.refName, b.refName) else Leq(a.project, b.project)
  }

  lemma RefKeyLeqIsTotalOrder()
    ensures TotalOrder(RefKeyLeq)
  {
    LeqIsTotalOrder();
  }

  function IdsOf(rows: seq<Candidate>): (r: seq<string>)
    ensures |r| == |rows| && forall i :: 0 <= i < |r| ==> r[i] == rows[i].id
  {
    if rows == [] then [] else [rows[0].id] + IdsOf(rows[1..])
  }

  function SetOf(s: seq<string>): (r: set<string>)
    ensures forall x :: x in r <==> x in s
  {
    set x | x in s
  }

  lemma ElementsOfBoth(a: seq<string>, b: seq<string>)
    ensures SetOf(a + b) == SetOf(a) + SetOf(b)
  {}

  lemma AscendingElements(s: set<string>)
    ensures TotalOrder(Leq) && SetOf(Ascending(s, Leq)) == s
  {
    LeqIsTotalOrder();
    AscendingMembers(s, Leq);
  }

  /** What the first `i` keys contribute together. */
  function UnionOver<A(!new)>(part: A -> set<string>, keys: seq<A>, i: nat): (r: set<string>)
    requires i <= |keys|
  {
    if i == 0 then {} else UnionOver(part, keys, i - 1) + part(keys[i - 1])
  }

  lemma {:induction false} UnionOverExactly<A(!new)>(part: A -> set<string>, keys: seq<A>, i: nat, x: string)
    requires i <= |keys|
    ensures x in UnionOver(part, keys, i) <==> exists j :: 0 <= j < i && x in part(keys[j])
  {
    if i > 0 { UnionOverExactly(part, keys, i - 1, x); }
  }

  lemma UnionOverSet<A(!new)>(part: A -> set<string>, keys: seq<A>, x: string)
    ensures x in UnionOver(part, keys, |keys|) <==> exists key :: key in keys && x in part(key)
  {
    UnionOverExactly(part, keys, |keys|, x);
    if key :| key in keys && x in part(key) {
      var j :| 0 <= j < |keys| && keys[j] == key;
    }
  }

  ghost function RetainedByRef(cfg: Config, db: Db, now: int): (part: RefKey -> set<string>)
    ensures forall key :: part(key) == if key in db.refs then RetainedOfRef(cfg, db, key, now) else {}
  {
    key => if key in db.refs then RetainedOfRef(cfg, db, key, now) else {}
  }

  lemma RetainedOfAll(cfg: Config, db: Db, refs: seq<RefKey>, now: int)
    requires forall key :: key in refs <==> key in db.refs
    ensures UnionOver(RetainedByRef(cfg, db, now), refs, |refs|) == RetainedBuilds(cfg, db, now)
  {
    var part := RetainedByRef(cfg, db, now);
    forall id ensures id in UnionOver(part, refs, |refs|) <==> id in RetainedBuilds(cfg, db, now) {
      UnionOverSet(part, refs, id);
      if id in RetainedBuilds(cfg, db, now) {
        var key :| key in db.refs && id in RetainedOfRef(cfg, db, key, now);
        assert key in refs && id in part(key);
      }
    }
  }

  function PathsOfBuild(buildPaths: set<BuildPath>): (part: string -> set<string>) {
    id => set bp | bp in buildPaths && bp.buildId == id :: bp.storePathHash
  }

  lemma PathsOfBuilds(buildPaths: set<BuildPath>, ids: seq<string>, retained: set<string>)
    requires forall id :: id in ids <==> id in retained
    ensures UnionOver(PathsOfBuild(buildPaths), ids, |ids|)
            == set bp | bp in buildPaths && bp.buildId in retained :: bp.storePathHash
  {
    var part := PathsOfBuild(buildPaths);
    forall h
      ensures h in UnionOver(part, ids, |ids|)
              <==> exists bp :: bp in buildPaths && bp.buildId in retained && bp.storePathHash == h
    {
      UnionOverSet(part, ids, h);
      if bp :| bp in buildPaths && bp.buildId in retained && bp.storePathHash == h {
        assert bp.buildId in ids && h in part(bp.buildId);
      }
    }
  }

  lemma RootsInOrder(cfg: Config, db: Db, now: int)
    ensures TotalOrder(Leq)
    ensures var ids := Ascending(RetainedBuilds(cfg, db, now), Leq);
            Roots(cfg, db, now) == UnionOver(PathsOfBuild(db.buildPaths), ids, |ids|) + PendingPaths(db) + PinnedPaths(db)
  {
    LeqIsTotalOrder();
    var retained := RetainedBuilds(cfg, db, now);
    AscendingMembers(retained, Leq);
    PathsOfBuilds(db.buildPaths, Ascending(retained, Leq), retained);
  }

  class SqliteDatabase {
    var projects: map<string, Project>
    var policies: map<string, Policy>
    var pathInfos: map<string, NarInfo>
    var builds: map<string, Build>
    var buildPaths: set<BuildPath>
    var projectRefs: map<RefKey, RefRow>
    var pathObjects: set<PathObject>
    var storageObjects: map<ObjectKey, ObjectRow>
    var pins: map<PinKey, Pin>

    function Snapshot(): (db: Db)
      reads this
    {
      Db(projects, policies, pathInfos, builds, buildPaths, projectRefs, pathObjects, storageObjects, pins)
    }

    constructor (projects: map<string, Project>)
      ensures Snapshot() == Db(projects, map[], map[], map[], {}, map[], {}, map[], map[])
    {
      this.projects := projects;
      policies, pathInfos, builds, buildPaths := map[], map[], map[], {};
      projectRefs, pathObjects, storageObjects, pins := map[], {}, map[], map[];
    }

    // ---- Builds ----

    method BeginBuild(project: string, refName: string, id: string, now: int) returns (r: Result<(), IngestError>)
      modifies `builds
      ensures Applied(r, old(Snapshot()), Snapshot(), Ingest.BeginBuild(old(Snapshot()), project, refName, id, now))
    {
      if project !in projects {
        return Err(IngestError.UnknownProject(project));
      }
      if id in builds {
        return Err(DuplicateBuild(id));
      }
      builds := builds[id := Build(project, refName, Pending, now, None)];
      return Ok(());
    }

    method AttachBuildPath(id: string, h: string)
      modifies `buildPaths
      ensures Snapshot() == Ingest.AttachBuildPath(old(Snapshot()), id, h)
    {
      buildPaths := buildPaths + {BuildPath(id, h)};
    }

    /** The registered paths of a build, in order. */
    method ListBuildPathHashes(id: string) returns (r: seq<string>)
      ensures r == BuildHashes(Snapshot(), id)
    {
      LeqIsTotalOrder();
      r := SortSet((set bp | bp in buildPaths && bp.buildId == id && bp.storePathHash in pathInfos :: bp.storePathHash), Leq);
    }

    method PublishBuildToRef(key: RefKey, id: string, now: int)
      requires id in builds
      modifies `projectRefs, `builds
      ensures Snapshot() == PublishBuild(old(Snapshot()), key, id, now)
    {
      projectRefs := projectRefs[key := RefRow(id, now)];
      builds := builds[id := builds[id].(status := Finalized, finalizedAt := Some(now))];
    }

    // ---- Path metadata ----

    /** Inserts the row, then its references and signatures one by one; or checks the row that is there. */
    method UpsertPathInfo(n: NarInfo) returns (r: Result<(), IngestError>)
      modifies `pathInfos
      ensures Applied(r, old(Snapshot()), Snapshot(), Ingest.UpsertPathInfo(old(Snapshot()), n))
    {
      var hash := HashFromStorePath(n.storePath);
      if hash.Err? {
        return Err(InvalidPath(hash.error));
      }
      var narHash := n.narHash.Normalize();
      if narHash.Err? {
        return Err(InvalidNarHash(narHash.error));
      }
      if n.narSize > I64_MAX {
        return Err(IngestError.NumberTooLarge);
      }
      var h := hash.value;
      if h in pathInfos {
        var compatible := EnsureCompatible(pathInfos[h], n);
        return compatible;
      }
      if StorePathTaken(Snapshot(), n.storePath) {
        return Err(PathInfoDisappeared);
      }
      InsertPathInfo(h, StoredForm(n));
      return Ok(());
    }

    method InsertPathInfo(h: string, row: NarInfo)
      modifies `pathInfos
      ensures pathInfos == old(pathInfos)[h := row]
    {
      pathInfos := pathInfos[h := row.(references := [], signatures := [])];
      for i := 0 to |row.references|
        invariant pathInfos == old(pathInfos)[h := row.(references := row.references[..i], signatures := [])]
      {
        pathInfos := pathInfos[h := pathInfos[h].(references := pathInfos[h].references + [row.references[i]])];
        assert row.references[..i] + [row.references[i]] == row.references[..i + 1];
      }
      assert row.references[..|row.references|] == row.references;
      for i := 0 to |row.signatures|
        invariant pathInfos == old(pathInfos)[h := row.(signatures := row.signatures[..i])]
      {
        pathInfos := pathInfos[h := pathInfos[h].(signatures := pathInfos[h].signatures + [row.signatures[i]])];
        assert row.signatures[..i] + [row.signatures[i]] == row.signatures[..i + 1];
      }
      assert row.signatures[..|row.signatures|] == row.signatures;
    }

    // ---- Objects ----

    /** A length that does not fit the column is refused before the row is written. */
    method UpsertStorageObject(key: ObjectKey, metadata: Metadata) returns (r: Result<(), IngestError>)
      modifies `storageObjects
      ensures Applied(r, old(Snapshot()), Snapshot(),
                      if metadata.contentLength.GetOr(0) > I64_MAX then Err(IngestError.NumberTooLarge)
                      else Ok(UpsertObject(old(Snapshot()), key, metadata)))
    {
      if metadata.contentLength.GetOr(0) > I64_MAX {
        return Err(IngestError.NumberTooLarge);
      }
      storageObjects := storageObjects[key := ObjectRow(metadata, None, None)];
      return Ok(());
    }

    method LinkPathObject(h: string, path: string, kind: ObjectKind)
      modifies `pathObjects
      ensures Snapshot() == LinkPath(old(Snapshot()), h, path, kind)
    {
      pathObjects := pathObjects + {PathObject(h, path, kind)};
    }

    // ---- Pins and retention ----

    method UpsertPin(key: PinKey, h: string, storePath: string) returns (r: Result<(), IngestError>)
      modifies `pins
      ensures Applied(r, old(Snapshot()), Snapshot(), Ingest.UpsertPin(old(Snapshot()), key, h, storePath))
    {
      if key.scope.ProjectScope? && key.scope.project !in projects {
        return Err(IngestError.UnknownProject(key.scope.project));
      }
      if h !in pathInfos {
        return Err(UnknownPinnedPath(h));
      }
      if pathInfos[h].storePath != storePath {
        return Err(PinMismatch(storePath, pathInfos[h].storePath));
      }
      pins := pins[key := Pin(h, storePath)];
      return Ok(());
    }

    method DeletePin(key: PinKey) returns (r: Result<(), IngestError>)
      modifies `pins
      ensures Applied(r, old(Snapshot()), Snapshot(), Ingest.DeletePin(old(Snapshot()), key))
    {
      if key.scope.ProjectScope? && key.scope.project !in projects {
        return Err(IngestError.UnknownProject(key.scope.project));
      }
      pins := pins - {key};
      return Ok(());
    }

    /** One transaction: the rules are inserted one by one, and nothing is kept when one is refused. */
    method ReplaceProjectRetentionPolicy(project: string, keepLatest: nat, graceSeconds: nat, rules: seq<Rule>)
      returns (r: Result<(), PolicyError>)
      modifies `policies
      ensures Applied(r, old(Snapshot()), Snapshot(),
                      ReplacePolicy(old(Snapshot()), project, keepLatest, graceSeconds, rules))
    {
      if keepLatest == 0 {
        return Err(ZeroKeepLatest);
      }
      if rules == [] {
        return Err(NoRules);
      }
      if project !in projects {
        return Err(PolicyError.UnknownProject);
      }
      if graceSeconds > I64_MAX {
        return Err(PolicyError.NumberTooLarge);
      }
      var stored: seq<Rule> := [];
      for i := 0 to |rules|
        invariant InsertRules(rules, []) == InsertRules(rules[i..], stored)
      {
        var rule := rules[i];
        assert rules[i..][0] == rule && rules[i..][1..] == rules[i + 1..];
        if rule.priority == 0 {
          return Err(ZeroPriority);
        }
        if Trim(rule.refPattern) == [] {
          return Err(EmptyPattern);
        }
        if rule.ttlSeconds.Some? && rule.ttlSeconds.value > I64_MAX {
          return Err(PolicyError.NumberTooLarge);
        }
        if exists j :: 0 <= j < |stored| && stored[j].priority == rule.priority {
          return Err(DuplicatePriority);
        }
        stored := stored + [rule.(refPattern := Trim(rule.refPattern))];
      }
      policies := policies[project := Policy(keepLatest, graceSeconds, Sort(stored, PriorityLeq))];
      return Ok(());
    }

    method DeleteProjectRetentionPolicy(project: string)
      modifies `policies
      ensures Snapshot() == DeletePolicy(old(Snapshot()), project)
    {
      policies := policies - {project};
    }

    /** The retained builds of one ref, newest first. */
    method ListRetainedBuildsOfRef(cfg: Config, key: RefKey, now: int) returns (ids: seq<string>)
      requires key in projectRefs
      ensures SetOf(ids) == RetainedOfRef(cfg, Snapshot(), key, now)
    {
      var policy := PolicyOf(Snapshot(), key.project);
      var rule := MatchingRule(cfg.glob, policy.rules, key.refName);
      NewestFirstIsTotalOrder();
      var rows := SortSet(Candidates(Snapshot(), key), NewestFirst);
      ghost var keep := KeepCount(cfg, Snapshot(), key, projectRefs[key].updatedAt, now);
      if rule.None? || !RefIsActive(projectRefs[key].updatedAt, rule.value.ttlSeconds, now) {
        NoneRetained(cfg, Snapshot(), key, now);
        return [];
      }
      var limit := rule.value.keepBuilds.GetOr(policy.keepLatest);
      ids := IdsOf(Take(rows, limit));
      TakenIds(cfg, Snapshot(), key, now, Take(rows, limit));
    }

    /** Goes through the refs in order, collects, then sorts and drops repetitions. */
    method ListRetainedBuildIdsForGc(cfg: Config, now: int) returns (ids: seq<string>)
      ensures TotalOrder(Leq) && ids == Ascending(RetainedBuilds(cfg, Snapshot(), now), Leq)
    {
      LeqIsTotalOrder();
      RefKeyLeqIsTotalOrder();
      var refs := SortSet(projectRefs.Keys, RefKeyLeq);
      AscendingMembers(projectRefs.Keys, RefKeyLeq);
      var retained: seq<string> := [];
      for i := 0 to |refs|
        invariant SetOf(retained) == UnionOver(RetainedByRef(cfg, Snapshot(), now), refs, i)
      {
        assert refs[i] in refs;
        var ids := ListRetainedBuildsOfRef(cfg, refs[i], now);
        ElementsOfBoth(retained, ids);
        retained := retained + ids;
      }
      RetainedOfAll(cfg, Snapshot(), refs, now);
      ids := SortSet(SetOf(retained), Leq);
    }

    // ---- What the collector asks and does ----

    method ListRootStorePathHashes(cfg: Config, now: int) returns (r: seq<string>)
      ensures TotalOrder(Leq) && r == Ascending(Roots(cfg, Snapshot(), now), Leq)
    {
      LeqIsTotalOrder();
      var retained := ListRetainedBuildIdsForGc(cfg, now);
      var hashes: set<string> := {};
      for i := 0 to |retained|
        invariant hashes == UnionOver(PathsOfBuild(buildPaths), retained, i)
      {
        hashes := hashes + PathsOfBuild(buildPaths)(retained[i]);
      }
      hashes := hashes + PendingPaths(Snapshot()) + PinnedPaths(Snapshot());
      RootsInOrder(cfg, Snapshot(), now);
      r := SortSet(hashes, Leq);
    }

    method ListLiveStorageObjectPaths(cfg: Config, now: int) returns (r: seq<string>)
      ensures TotalOrder(Leq) && r == Ascending(LiveObjects(cfg, Snapshot(), now), Leq)
    {
      LeqIsTotalOrder();
      var live := LiveObjectPaths(cfg, now);
      r := SortSet(live, Leq);
    }

    /** The common table expression that this listing and the statements below share. */
    method LiveObjectPaths(cfg: Config, now: int) returns (r: set<string>)
      ensures r == LiveObjects(cfg, Snapshot(), now)
    {
      var roots := ListRootStorePathHashes(cfg, now);
      AscendingElements(Roots(cfg, Snapshot(), now));
      var live := LivePathHashes(pathInfos, SetOf(roots));
      assert live == LivePaths(cfg, Snapshot(), now);
      r := ObjectsOf(Snapshot(), live);
    }

    method ListStaleStorageObjects(cfg: Config, now: int) returns (r: seq<ObjectKey>)
      ensures r == InOrder(Stale(storageObjects, LiveObjects(cfg, Snapshot(), now)))
    {
      var live := LiveObjectPaths(cfg, now);
      KeyLeqIsTotalOrder();
      r := SortSet(Stale(storageObjects, live), KeyLeq);
    }

    method ClearDeletedStateForLiveStorageObjects(cfg: Config, now: int)
      modifies `storageObjects
      ensures storageObjects == Cleared(old(storageObjects), LiveObjects(cfg, old(Snapshot()), now))
    {
      var live := LiveObjectPaths(cfg, now);
      storageObjects := map k | k in storageObjects ::
        if (storageObjects[k].deletedAt.Some? || storageObjects[k].firstDeletedAt.Some?) && k.path in live
        then storageObjects[k].(deletedAt := None, firstDeletedAt := None) else storageObjects[k];
    }

    method MarkStaleStorageObjects(cfg: Config, now: int)
      modifies `storageObjects
      ensures storageObjects == Marked(old(storageObjects), LiveObjects(cfg, old(Snapshot()), now), now)
    {
      var live := LiveObjectPaths(cfg, now);
      storageObjects := map k | k in storageObjects ::
        if k.path !in live
        then storageObjects[k].(deletedAt := Coalesce(storageObjects[k].deletedAt, now),
                                firstDeletedAt := Coalesce(storageObjects[k].firstDeletedAt, now))
        else storageObjects[k];
    }

    method ListStorageObjectsReadyForDeletion(grace: int, now: int) returns (r: seq<ObjectKey>)
      ensures r == InOrder(Ready(storageObjects, grace, now))
    {
      KeyLeqIsTotalOrder();
      r := SortSet(Ready(storageObjects, grace, now), KeyLeq);
    }

    method DeleteStorageObjects(keys: seq<ObjectKey>)
      modifies `storageObjects
      ensures storageObjects == old(storageObjects) - ElementsOf(keys)
    {
      for i := 0 to |keys|
        invariant storageObjects == old(storageObjects) - ElementsOf(keys[..i])
      {
        storageObjects := storageObjects - {keys[i]};
        assert ElementsOf(keys[..i + 1]) == ElementsOf(keys[..i]) + {keys[i]};
      }
      assert keys[..|keys|] == keys;
    }
  }

  lemma NoneRetained(cfg: Config, db: Db, key: RefKey, now: int)
    requires key in db.refs && KeepCount(cfg, db, key, db.refs[key].updatedAt, now) == 0
    ensures RetainedOfRef(cfg, db, key, now) == {}
  {
    NewestFirstIsTotalOrder();
    assert Take(Ascending(Candidates(db, key), NewestFirst), 0) == [];
  }

  lemma TakenIds(cfg: Config, db: Db, key: RefKey, now: int, rows: seq<Candidate>)
    requires key in db.refs && TotalOrder(NewestFirst)
    requires rows == Take(Ascending(Candidates(db, key), NewestFirst), KeepCount(cfg, db, key, db.refs[key].updatedAt, now))
    ensures SetOf(IdsOf(rows)) == RetainedOfRef(cfg, db, key, now)
  {
    forall id ensures id in IdsOf(rows) <==> id in RetainedOfRef(cfg, db, key, now) {
      if id in IdsOf(rows) {
        var i :| 0 <= i < |rows| && IdsOf(rows)[i] == id;
        assert rows[i] in TopCandidates(Candidates(db, key), KeepCount(cfg, db, key, db.refs[key].updatedAt, now));
      }
      if id in RetainedOfRef(cfg, db, key, now) {
        var c :| c in rows && c.id == id;
        var i :| 0 <= i < |rows| && rows[i] == c;
        assert IdsOf(rows)[i] == id;
      }
    }
  }
}
