/** A pinned path stays readable in the view of the pin's scope, document and NAR, while the pin is there. */
module PinnedPaths {
  import opened Wrappers
  import opened NarInfo
  import opened Tables
  import opened Liveness
  import opened Collection
  import opened Ingest
  import opened ReadStore
  import opened Runs
  import opened Progression
  import opened ObjectLife
  import opened ServedRefs
  import opened ServedNarInfos

  /** The view in which a pin shows its path. */
  function ViewOf(scope: PinScope): (view: View) {
    match scope case GlobalScope => AggregateView case ProjectScope(project) => ProjectView(project)
  }

  // ---- Every pin is in order ----

  /** The pin's project exists, and its path is registered under the pin's store path. */
  predicate PinInOrder(db: Db, key: PinKey)
    requires key in db.pins
  {
    && PinVisible(db, ViewOf(key.scope), key)
    && db.pins[key].storePathHash in db.paths && db.paths[db.pins[key].storePathHash].storePath == db.pins[key].storePath
  }

  lemma RegisterPins(cfg: Config, w: World, id: string, narinfos: seq<NarInfo>)
    requires Attached(w.db)
    ensures RegisterPaths(cfg, w, id, narinfos).0.db.pins == w.db.pins
  {
    RegistrationStages(cfg, w, id, narinfos);
    if PendingBuild(w.db, id).Ok? && RegisterAll(cfg, w.db, id, narinfos).1.Ok? {
      LinkedRecords(cfg, w, id, narinfos, w.db.projects[w.db.builds[id].project].storageId);
    }
  }

  lemma FinalizePins(cfg: Config, w: World, id: string, now: int)
    ensures FinalizeBuild(cfg, w, id, now).0.db.pins == w.db.pins
  {
    if PendingBuild(w.db, id).Ok? { CheckBuildRecords(cfg, w, id, w.db.builds[id].project); }
  }

  lemma OthersKeepPins(cfg: Config, w: World, e: Event, now: int)
    requires Attached(w.db) && !e.SetPin? && !e.RemovePin?
    ensures Step(cfg, w, e, now).db.pins == w.db.pins
  {
    hide GcPass;
    if e.Register? {
      RegisterPins(cfg, w, e.id, e.narinfos);
    } else if e.Finalize? {
      FinalizePins(cfg, w, e.id, now);
    } else if e.Collect? {
      StepCollects(cfg, w, e.dryRun, e.grace, e.failing, now);
      PassChangesOnlyObjects(cfg, w, e.dryRun, e.grace, e.failing, now);
    }
  }

  lemma StepPins(cfg: Config, w: World, e: Event, now: int, key: PinKey)
    requires Attached(w.db) && key in Step(cfg, w, e, now).db.pins
    requires key in w.db.pins ==> PinInOrder(w.db, key)
    ensures PinInOrder(Step(cfg, w, e, now).db, key)
  {
    hide GcPass;
    StepGrows(cfg, w, e, now);
    if !e.SetPin? && !e.RemovePin? { OthersKeepPins(cfg, w, e, now); }
  }

  lemma EventPins(cfg: Config, run: Run, n: nat, key: PinKey)
    requires IsRun(cfg, run) && n < |run.events| && key in run.worlds[n + 1].db.pins
    requires key in run.worlds[n].db.pins ==> PinInOrder(run.worlds[n].db, key)
    ensures PinInOrder(run.worlds[n + 1].db, key)
  {
    ReachableInvariant(cfg, run, n, run.events[n].at);
    assert StepAt(cfg, run, n);
    StepPins(cfg, run.worlds[n], run.events[n].event, run.events[n].at, key);
  }

  /** In every reachable world. */
  lemma {:induction false} PinsAreInOrder(cfg: Config, run: Run, n: nat, key: PinKey)
    requires IsRun(cfg, run) && n <= |run.events| && key in run.worlds[n].db.pins
    ensures PinInOrder(run.worlds[n].db, key)
  {
    hide PinInOrder, StepAt;
    if n > 0 {
      if key in run.worlds[n - 1].db.pins { PinsAreInOrder(cfg, run, n - 1, key); }
      EventPins(cfg, run, n - 1, key);
    }
  }

  // ---- While a pin is there ----

  predicate Pins(db: Db, key: PinKey, h: string) {
    key in db.pins && db.pins[key].storePathHash == h
  }

  /** The path's object is linked, has an unmarked row and is stored. */
  predicate InPlace(w: World, h: string, k: ObjectKey) {
    h in w.db.paths && LinkedFresh(w.db, h, k) && k in w.blobs
  }

  lemma PinnedIsLive(cfg: Config, db: Db, now: int, key: PinKey, h: string, k: ObjectKey)
    requires Pins(db, key, h) && h in db.paths && LinkedFresh(db, h, k)
    ensures k.path in LiveObjects(cfg, db, now)
  {
    NeededIsRoot(cfg, db, now, h);
    LinkedToRootIsLive(cfg, db, now, h, k.path);
  }

  lemma EventKeepsInPlace(cfg: Config, run: Run, n: nat, key: PinKey, h: string, k: ObjectKey)
    requires IsRun(cfg, run) && n < |run.events| && Pins(run.worlds[n].db, key, h) && InPlace(run.worlds[n], h, k)
    requires !Loses(cfg, run.worlds[n], run.events[n].event, k)
    ensures InPlace(run.worlds[n + 1], h, k)
    ensures run.worlds[n + 1].blobs[k] == BytesAfter(cfg, run.worlds[n], run.events[n].event, k, run.worlds[n].blobs[k])
  {
    var w, e, now := run.worlds[n], run.events[n].event, run.events[n].at;
    ReachableInvariant(cfg, run, n, now);
    PinnedIsLive(cfg, w.db, now, key, h, k);
    EventGrows(cfg, run, n);
    assert StepAt(cfg, run, n);
    StepKeepsBlob(cfg, w, e, now, k);
    StepKeepsRow(cfg, w, e, now, k);
  }

  /** From event `m` to event `n` the pin was there for this path, and no completion lost the object. */
  ghost predicate PinnedThrough(cfg: Config, run: Run, m: nat, n: nat, key: PinKey, h: string, k: ObjectKey)
    requires |run.worlds| == |run.events| + 1 && n <= |run.events|
  {
    && (forall i :: m <= i <= n ==> Pins(run.worlds[i].db, key, h))
    && (forall i :: m <= i < n ==> !Loses(cfg, run.worlds[i], run.events[i].event, k))
  }

  lemma InPlaceOnceMore(cfg: Config, run: Run, m: nat, n: nat, key: PinKey, h: string, k: ObjectKey, before: Blob)
    requires IsRun(cfg, run) && m <= n < |run.events| && Pins(run.worlds[n].db, key, h) && InPlace(run.worlds[n], h, k)
    requires !Loses(cfg, run.worlds[n], run.events[n].event, k)
    requires LatestBytes(cfg, run, m, n, k, before, run.worlds[n].blobs[k])
    ensures InPlace(run.worlds[n + 1], h, k)
    ensures LatestBytes(cfg, run, m, n + 1, k, before, run.worlds[n + 1].blobs[k])
  {
    EventKeepsInPlace(cfg, run, n, key, h, k);
    LatestBytesAfter(cfg, run, m, n, k, before, run.worlds[n].blobs[k], run.worlds[n + 1].blobs[k]);
  }

  lemma {:induction false} StaysInPlace(cfg: Config, run: Run, m: nat, n: nat, key: PinKey, h: string, k: ObjectKey)
    requires IsRun(cfg, run) && m <= n <= |run.events| && InPlace(run.worlds[m], h, k)
    requires PinnedThrough(cfg, run, m, n, key, h, k)
    ensures InPlace(run.worlds[n], h, k)
    ensures LatestBytes(cfg, run, m, n, k, run.worlds[m].blobs[k], run.worlds[n].blobs[k])
    decreases n
  {
    if m < n {
      hide LinkedFresh, Loses, LatestBytes, Pins, StepAt;
      StaysInPlace(cfg, run, m, n - 1, key, h, k);
      InPlaceOnceMore(cfg, run, m, n - 1, key, h, k, run.worlds[m].blobs[k]);
    }
  }

  lemma PinnedIsVisible(db: Db, key: PinKey, h: string, k: ObjectKey)
    requires Pins(db, key, h) && PinInOrder(db, key) && LinkedFresh(db, h, k)
    ensures h in VisiblePaths(db, ViewOf(key.scope)) && ObjectVisible(db, ViewOf(key.scope), k.path)
  {
    assert db.pins[key].storePathHash == h;
    assert PathObject(h, k.path, NarObject).path == k.path;
  }

  /**
   Over every run: an object that is linked to a pinned path, recorded and stored in a configured backend stays served
   in the view of the pin's scope as long as the pin is there and no completion loses it, with the bytes of its last
   accepted write.
   */
  lemma PinnedObjectsAreServed(cfg: Config, run: Run, m: nat, n: nat, key: PinKey, h: string, k: ObjectKey)
    requires IsRun(cfg, run) && m <= n <= |run.events| && k.storageId in cfg.backends
    requires InPlace(run.worlds[m], h, k) && PinnedThrough(cfg, run, m, n, key, h, k)
    ensures ServedIn(cfg, run.worlds[n], ViewOf(key.scope), k) && k in run.worlds[n].blobs
    ensures LatestBytes(cfg, run, m, n, k, run.worlds[m].blobs[k], run.worlds[n].blobs[k])
  {
    var w := run.worlds[n];
    StaysInPlace(cfg, run, m, n, key, h, k);
    PinsAreInOrder(cfg, run, n, key);
    PinnedIsVisible(w.db, key, h, k);
    assert k == ObjectKey(k.storageId, k.path);
    VisibleIsServed(cfg, w, ViewOf(key.scope), k);
  }

  /**
   Over every run: while a pin is there its path resolves in the view of its scope to the row it has had since it was
   registered, and that row has the pin's store path.
   */
  lemma PinnedPathsResolve(cfg: Config, run: Run, m: nat, n: nat, key: PinKey, h: string)
    requires IsRun(cfg, run) && m <= n <= |run.events| && h in run.worlds[m].db.paths && Pins(run.worlds[n].db, key, h)
    ensures ResolveNarInfo(run.worlds[n].db, ViewOf(key.scope), h) == Some(run.worlds[m].db.paths[h])
    ensures run.worlds[m].db.paths[h].storePath == run.worlds[n].db.pins[key].storePath
  {
    RunGrows(cfg, run, m, n);
    PinsAreInOrder(cfg, run, n, key);
  }
}
