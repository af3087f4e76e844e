/** What a view shows and, just as much, what it does not (crates/depot-db/src/objects.rs, crates/depot-db/src/paths.rs). */
module Visibility {
  import opened Wrappers
  import opened Text
  import opened Tables
  import opened Liveness
  import opened Collection
  import opened Ingest
  import opened ReadStore
  import opened Runs
  import opened ServedRefs
  import opened PushProgress
  import opened ServedNarInfos
  import opened PinnedPaths

  // ---- In one world ----

  /** A ref of this very project names a build with the path, or a pin of the project is on it. */
  predicate OfProject(db: Db, project: string, h: string) {
    && project in db.projects
    && ((exists key :: key in db.refs && key.project == project && BuildPath(db.refs[key].buildId, h) in db.buildPaths)
        || exists key :: key in db.pins && key.scope == PinScope.ProjectScope(project) && db.pins[key].storePathHash == h)
  }

  /** A ref of a public project names a build with the path, or a pin of no project is on it. */
  predicate OfPublic(db: Db, h: string) {
    || (exists key :: key in db.refs && key.project in db.projects && db.projects[key.project].isPublic
                      && BuildPath(db.refs[key].buildId, h) in db.buildPaths)
    || (exists key :: key in db.pins && key.scope == PinScope.GlobalScope && db.pins[key].storePathHash == h)
  }

  predicate Shown(db: Db, view: View, h: string) {
    match view
    case ProjectView(project) => OfProject(db, project, h)
    case AggregateView => OfPublic(db, h)
  }

  lemma ShownExactly(db: Db, view: View, h: string)
    ensures h in VisiblePaths(db, view) <==> Shown(db, view, h)
  {
    if h in VisiblePaths(db, view) {
      if key, bp :| key in db.refs && RefVisible(db, view, key) && bp in db.buildPaths
                    && bp.buildId == db.refs[key].buildId && bp.storePathHash == h {
        assert bp == BuildPath(db.refs[key].buildId, h);
      } else {
        var key :| key in db.pins && PinVisible(db, view, key) && db.pins[key].storePathHash == h;
      }
    }
    if Shown(db, view, h) { ShownIsVisible(db, view, h); }
  }

  lemma ShownIsVisible(db: Db, view: View, h: string)
    requires Shown(db, view, h)
    ensures h in VisiblePaths(db, view)
  {
    if key :| key in db.refs && RefVisible(db, view, key) && BuildPath(db.refs[key].buildId, h) in db.buildPaths {
      assert BuildPath(db.refs[key].buildId, h).storePathHash == h;
    } else {
      var key :| key in db.pins && PinVisible(db, view, key) && db.pins[key].storePathHash == h;
    }
  }

  /** An object is visible exactly when it is linked to a path that is the view's own. */
  lemma ObjectShownExactly(db: Db, view: View, path: string)
    ensures ObjectVisible(db, view, path) <==> exists o :: o in db.pathObjects && o.path == path && Shown(db, view, o.storePathHash)
  {
    forall o | o in db.pathObjects ensures o.storePathHash in VisiblePaths(db, view) <==> Shown(db, view, o.storePathHash) {
      ShownExactly(db, view, o.storePathHash);
    }
  }

  /** A document resolves exactly when its path is the view's own and registered, and then to its row. */
  lemma DocumentShownExactly(db: Db, view: View, h: string)
    ensures ResolveNarInfo(db, view, h) == if Shown(db, view, h) && h in db.paths then Some(db.paths[h]) else None
  {
    ShownExactly(db, view, h);
  }

  /** A backend can serve the object: it is configured, it has the bytes, and its row is unmarked. */
  predicate Serves(cfg: Config, w: World, id: string, path: string) {
    && id in cfg.backends && ObjectKey(id, path) in w.blobs
    && ObjectKey(id, path) in w.db.objects && w.db.objects[ObjectKey(id, path)].deletedAt.None?
  }

  lemma ServesExactly(cfg: Config, w: World, id: string, path: string)
    ensures id in Available(cfg, w, path) <==> Serves(cfg, w, id, path)
  {
    if id in Available(cfg, w, path) {
      var k :| k in w.db.objects && k.path == path && k.storageId == id && k in w.blobs && k.storageId in cfg.backends
               && w.db.objects[k].deletedAt.None?;
      assert k == ObjectKey(id, path);
    }
    if Serves(cfg, w, id, path) { assert ObjectKey(id, path).storageId == id; }
  }

  /** The backend whose copy is preferred in a view: the project's own, or the default one. */
  predicate PrefersIn(cfg: Config, db: Db, view: View, id: string) {
    match view
    case ProjectView(project) => project in db.projects && id == db.projects[project].storageId
    case AggregateView => id == cfg.defaultStorage
  }

  /** The backend that serves: the preferred one if it can, else the first that can. */
  ghost predicate ServedBy(cfg: Config, w: World, view: View, path: string, id: string) {
    && Serves(cfg, w, id, path)
    && (PrefersIn(cfg, w.db, view, id)
        || forall other :: Serves(cfg, w, other, path) ==> !PrefersIn(cfg, w.db, view, other) && Leq(id, other))
  }

  lemma ServedByIsChoice(cfg: Config, w: World, view: View, path: string, id: string)
    ensures ServedBy(cfg, w, view, path, id) && PreferredStorage(cfg, w.db, view).Some? ==>
              IsChoice(Available(cfg, w, path), PreferredStorage(cfg, w.db, view), id)
    ensures IsChoice(Available(cfg, w, path), PreferredStorage(cfg, w.db, view), id) && PreferredStorage(cfg, w.db, view).Some? ==>
              ServedBy(cfg, w, view, path, id)
  {
    forall other ensures other in Available(cfg, w, path) <==> Serves(cfg, w, other, path) { ServesExactly(cfg, w, other, path); }
  }

  /** What is served: nothing unless the object is the view's own and some backend can serve it, else row and bytes there. */
  lemma ServedExactly(cfg: Config, w: World, view: View, path: string)
    ensures var shown := exists o :: o in w.db.pathObjects && o.path == path && Shown(w.db, view, o.storePathHash);
            GetVisible(cfg, w, view, path).Some? <==> shown && exists id :: Serves(cfg, w, id, path)
    ensures forall id :: GetVisible(cfg, w, view, path).Some? && ServedBy(cfg, w, view, path, id) ==>
              GetVisible(cfg, w, view, path) == Some((w.db.objects[ObjectKey(id, path)].metadata, w.blobs[ObjectKey(id, path)]))
  {
    ObjectShownExactly(w.db, view, path);
    forall id ensures id in Available(cfg, w, path) <==> Serves(cfg, w, id, path) { ServesExactly(cfg, w, id, path); }
    if ObjectVisible(w.db, view, path) {
      VisibleHasPreference(cfg, w.db, view, path);
      forall id | ServedBy(cfg, w, view, path, id)
        ensures GetVisible(cfg, w, view, path)
                == Some((w.db.objects[ObjectKey(id, path)].metadata, w.blobs[ObjectKey(id, path)]))
      {
        ServedByIsChoice(cfg, w, view, path, id);
        FetchedChoice(cfg, w, PreferredStorage(cfg, w.db, view), path, id);
      }
    }
  }

  /** There is just one such backend when any can serve. */
  lemma OneServes(cfg: Config, w: World, view: View, path: string, id: string) returns (chosen: string)
    requires Serves(cfg, w, id, path) && PreferredStorage(cfg, w.db, view).Some?
    ensures ServedBy(cfg, w, view, path, chosen)
    ensures forall other :: ServedBy(cfg, w, view, path, other) ==> other == chosen
  {
    ServesExactly(cfg, w, id, path);
    ChoiceExists(Available(cfg, w, path), PreferredStorage(cfg, w.db, view));
    chosen :| IsChoice(Available(cfg, w, path), PreferredStorage(cfg, w.db, view), chosen);
    ServedByIsChoice(cfg, w, view, path, chosen);
    forall other | ServedBy(cfg, w, view, path, other) ensures other == chosen {
      ServedByIsChoice(cfg, w, view, path, other);
      ChoiceIsUnique(Available(cfg, w, path), PreferredStorage(cfg, w.db, view), chosen, other);
    }
  }

  // ---- Over runs ----

  /** Among the first `n` events is one that publishes the build to the ref. */
  ghost predicate PublishedBefore(cfg: Config, run: Run, n: nat, key: RefKey, b: string)
    requires |run.worlds| == |run.events| + 1 && n <= |run.events|
  {
    exists m :: 0 <= m < n && Publishes(cfg, run, m, key, b)
  }

  lemma FinalizeRefs(cfg: Config, w: World, id: string, now: int, key: RefKey)
    requires key in FinalizeBuild(cfg, w, id, now).0.db.refs
    ensures var refs := FinalizeBuild(cfg, w, id, now).0.db.refs;
            || (key in w.db.refs && refs[key] == w.db.refs[key])
            || (FinalizeBuild(cfg, w, id, now).1.Ok? && refs[key].buildId == id
                && key == RefKey(w.db.builds[id].project, w.db.builds[id].refName))
  {
    if PendingBuild(w.db, id).Ok? {
      CheckBuildRecords(cfg, w, id, w.db.builds[id].project);
    }
  }

  lemma OthersKeepRefs(cfg: Config, w: World, e: Event, now: int)
    requires Attached(w.db) && !e.Finalize?
    ensures Step(cfg, w, e, now).db.refs == w.db.refs
  {
    hide GcPass, RegisterPaths;
    if e.Register? {
      RegisterRefs(cfg, w, e.id, e.narinfos);
    } else if e.Collect? {
      StepCollects(cfg, w, e.dryRun, e.grace, e.failing, now);
      PassChangesOnlyObjects(cfg, w, e.dryRun, e.grace, e.failing, now);
    }
  }

  lemma EventRefs(cfg: Config, run: Run, n: nat, key: RefKey)
    requires IsRun(cfg, run) && n < |run.events| && key in run.worlds[n + 1].db.refs
    ensures var b := run.worlds[n + 1].db.refs[key].buildId;
            (key in run.worlds[n].db.refs && run.worlds[n].db.refs[key].buildId == b) || Publishes(cfg, run, n, key, b)
  {
    var w, e, now := run.worlds[n], run.events[n].event, run.events[n].at;
    ReachableAttached(cfg, run, n);
    assert StepAt(cfg, run, n);
    if e.Finalize? {
      FinalizeRefs(cfg, w, e.id, now, key);
    } else {
      hide FinalizeBuild, Publishes;
      OthersKeepRefs(cfg, w, e, now);
    }
  }

  /** What a ref names was published to it. */
  lemma {:induction false} NamedWasPublished(cfg: Config, run: Run, n: nat, key: RefKey)
    requires IsRun(cfg, run) && n <= |run.events| && key in run.worlds[n].db.refs
    ensures PublishedBefore(cfg, run, n, key, run.worlds[n].db.refs[key].buildId)
  {
    NothingAtStart(cfg, run);
    if n > 0 {
      hide IsRun, Publishes;
      var b := run.worlds[n].db.refs[key].buildId;
      EventRefs(cfg, run, n - 1, key);
      if !Publishes(cfg, run, n - 1, key, b) {
        NamedWasPublished(cfg, run, n - 1, key);
        var m :| 0 <= m < n - 1 && Publishes(cfg, run, m, key, b);
        assert m < n;
      }
    }
  }

  lemma AttachesToPending(cfg: Config, run: Run, n: nat, b: string, h: string)
    requires IsRun(cfg, run) && n < |run.events|
    requires BuildPath(b, h) in run.worlds[n + 1].db.buildPaths && BuildPath(b, h) !in run.worlds[n].db.buildPaths
    ensures IsPending(run.worlds[n].db, b)
  {
    var w, e, now := run.worlds[n], run.events[n].event, run.events[n].at;
    ReachableAttached(cfg, run, n);
    assert StepAt(cfg, run, n);
    if e.Register? {
      RegisterAttaches(cfg, w, e.id, e.narinfos, BuildPath(b, h));
    } else {
      StepAttaches(cfg, w, e, now);
    }
  }

  /** Nothing is attached to a finalized build. */
  lemma {:induction false} FinalizedIsComplete(cfg: Config, run: Run, m: nat, n: nat, b: string, h: string)
    requires IsRun(cfg, run) && m <= n <= |run.events|
    requires b in run.worlds[m].db.builds && run.worlds[m].db.builds[b].status == Finalized
    requires BuildPath(b, h) in run.worlds[n].db.buildPaths
    ensures BuildPath(b, h) in run.worlds[m].db.buildPaths
    decreases n
  {
    if m < n {
      hide StepAt;
      FinalizedStays(cfg, run, m, n - 1, b);
      if BuildPath(b, h) !in run.worlds[n - 1].db.buildPaths { AttachesToPending(cfg, run, n - 1, b, h); }
      FinalizedIsComplete(cfg, run, m, n - 1, b, h);
    }
  }

  lemma PublishedIsFinalized(cfg: Config, run: Run, m: nat, key: RefKey, b: string)
    requires IsRun(cfg, run) && m < |run.events| && Publishes(cfg, run, m, key, b)
    ensures b in run.worlds[m + 1].db.builds && run.worlds[m + 1].db.builds[b].status == Finalized
    ensures run.worlds[m + 1].db.buildPaths == run.worlds[m].db.buildPaths
  {
    assert StepAt(cfg, run, m);
    CheckBuildRecords(cfg, run.worlds[m], b, run.worlds[m].db.builds[b].project);
  }

  /** A path of the build a ref names was attached to it before it was published there. */
  lemma AttachedWhenPublished(cfg: Config, run: Run, m: nat, n: nat, key: RefKey, b: string, h: string)
    requires IsRun(cfg, run) && m < n <= |run.events| && Publishes(cfg, run, m, key, b)
    requires BuildPath(b, h) in run.worlds[n].db.buildPaths
    ensures BuildPath(b, h) in run.worlds[m].db.buildPaths
  {
    hide Step, StepAt, FinalizeBuild;
    PublishedIsFinalized(cfg, run, m, key, b);
    FinalizedIsComplete(cfg, run, m + 1, n, b, h);
  }

  lemma StepSetsPin(cfg: Config, w: World, e: Event, now: int, key: PinKey)
    requires Attached(w.db) && key in Step(cfg, w, e, now).db.pins
    ensures var pin := Step(cfg, w, e, now).db.pins[key];
            (key in w.db.pins && w.db.pins[key] == pin) || e == SetPin(key, pin.storePathHash, pin.storePath)
  {
    hide GcPass;
    if !e.SetPin? && !e.RemovePin? { OthersKeepPins(cfg, w, e, now); }
  }

  /** The `m`-th event pins the path. */
  predicate PinsAt(run: Run, m: nat, key: PinKey, pin: Pin)
    requires m < |run.events|
  {
    run.events[m].event == SetPin(key, pin.storePathHash, pin.storePath)
  }

  /** A pin that is there was set. */
  lemma {:induction false} PinWasSet(cfg: Config, run: Run, n: nat, key: PinKey)
    requires IsRun(cfg, run) && n <= |run.events| && key in run.worlds[n].db.pins
    ensures exists m :: 0 <= m < n && PinsAt(run, m, key, run.worlds[n].db.pins[key])
  {
    if n > 0 {
      var pin := run.worlds[n].db.pins[key];
      EventSetsPin(cfg, run, n - 1, key);
      if !PinsAt(run, n - 1, key, pin) {
        PinWasSet(cfg, run, n - 1, key);
        var m :| 0 <= m < n - 1 && PinsAt(run, m, key, pin);
        assert m < n;
      }
    }
  }

  lemma EventSetsPin(cfg: Config, run: Run, n: nat, key: PinKey)
    requires IsRun(cfg, run) && n < |run.events| && key in run.worlds[n + 1].db.pins
    ensures var pin := run.worlds[n + 1].db.pins[key];
            (key in run.worlds[n].db.pins && run.worlds[n].db.pins[key] == pin) || PinsAt(run, n, key, pin)
  {
    ReachableAttached(cfg, run, n);
    assert StepAt(cfg, run, n);
    hide Step, Attached;
    StepSetsPin(cfg, run.worlds[n], run.events[n].event, run.events[n].at, key);
  }

  /** Among the first `n` events one published a build of such a project with the path. */
  ghost predicate PublishedFor(cfg: Config, run: Run, n: nat, such: string -> bool, h: string)
    requires |run.worlds| == |run.events| + 1 && n <= |run.events|
  {
    exists m, key: RefKey, b :: 0 <= m < n && such(key.project) && Publishes(cfg, run, m, key, b)
                        && BuildPath(b, h) in run.worlds[m].db.buildPaths
  }

  /** Among the first `n` events one pinned the path in the scope. */
  ghost predicate PinnedFor(run: Run, n: nat, scope: PinScope, h: string)
    requires n <= |run.events|
  {
    exists m, key: PinKey, storePath :: 0 <= m < n && key.scope == scope && PinsAt(run, m, key, Pin(h, storePath))
  }

  lemma NamedPathWasPublished(cfg: Config, run: Run, n: nat, key: RefKey, such: string -> bool, h: string)
    requires IsRun(cfg, run) && n <= |run.events| && key in run.worlds[n].db.refs && such(key.project)
    requires BuildPath(run.worlds[n].db.refs[key].buildId, h) in run.worlds[n].db.buildPaths
    ensures PublishedFor(cfg, run, n, such, h)
  {
    hide Publishes, StepAt;
    var b := run.worlds[n].db.refs[key].buildId;
    NamedWasPublished(cfg, run, n, key);
    var m: nat :| m < n && Publishes(cfg, run, m, key, b);
    AttachedWhenPublished(cfg, run, m, n, key, b, h);
  }

  lemma PinnedPathWasSet(cfg: Config, run: Run, n: nat, key: PinKey, h: string)
    requires IsRun(cfg, run) && n <= |run.events| && key in run.worlds[n].db.pins && run.worlds[n].db.pins[key].storePathHash == h
    ensures PinnedFor(run, n, key.scope, h)
  {
    PinWasSet(cfg, run, n, key);
    var m :| 0 <= m < n && PinsAt(run, m, key, run.worlds[n].db.pins[key]);
    assert run.worlds[n].db.pins[key] == Pin(h, run.worlds[n].db.pins[key].storePath);
  }

  /** Over every run a project's view shows only paths that were published in a build of that project or pinned for it. */
  lemma ProjectShowsItsOwn(cfg: Config, run: Run, n: nat, project: string, h: string)
    requires IsRun(cfg, run) && n <= |run.events|
    requires !PublishedFor(cfg, run, n, p => p == project, h) && !PinnedFor(run, n, PinScope.ProjectScope(project), h)
    ensures !Shown(run.worlds[n].db, ProjectView(project), h)
    ensures ResolveNarInfo(run.worlds[n].db, ProjectView(project), h).None?
  {
    hide PublishedFor, PinnedFor, StepAt;
    var db := run.worlds[n].db;
    DocumentShownExactly(db, ProjectView(project), h);
    if key :| key in db.refs && key.project == project && BuildPath(db.refs[key].buildId, h) in db.buildPaths {
      NamedPathWasPublished(cfg, run, n, key, p => p == project, h);
    }
    if key :| key in db.pins && key.scope == PinScope.ProjectScope(project) && db.pins[key].storePathHash == h {
      PinnedPathWasSet(cfg, run, n, key, h);
    }
  }

  predicate Public(db: Db, project: string) {
    project in db.projects && db.projects[project].isPublic
  }

  /** The view of all public projects shows only what was published in a public project or pinned for no project. */
  lemma PublicShowsPublic(cfg: Config, run: Run, n: nat, h: string)
    requires IsRun(cfg, run) && n <= |run.events|
    requires !PublishedFor(cfg, run, n, p => Public(run.worlds[n].db, p), h) && !PinnedFor(run, n, PinScope.GlobalScope, h)
    ensures !Shown(run.worlds[n].db, AggregateView, h)
    ensures ResolveNarInfo(run.worlds[n].db, AggregateView, h).None?
  {
    hide PublishedFor, PinnedFor, StepAt;
    var db := run.worlds[n].db;
    DocumentShownExactly(db, AggregateView, h);
    if key :| key in db.refs && key.project in db.projects && db.projects[key.project].isPublic
              && BuildPath(db.refs[key].buildId, h) in db.buildPaths {
      NamedPathWasPublished(cfg, run, n, key, p => Public(db, p), h);
    }
    if key :| key in db.pins && key.scope == PinScope.GlobalScope && db.pins[key].storePathHash == h {
      PinnedPathWasSet(cfg, run, n, key, h);
    }
  }

  /** And an object is served in a view only when it is linked to a path that the view shows. */
  lemma NothingElseIsServed(cfg: Config, w: World, view: View, path: string)
    requires forall o :: o in w.db.pathObjects && o.path == path ==> !Shown(w.db, view, o.storePathHash)
    ensures GetVisible(cfg, w, view, path).None?
  {
    ServedExactly(cfg, w, view, path);
  }
}
