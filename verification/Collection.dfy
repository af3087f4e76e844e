/** One pass of the garbage collector (crates/depot-ingest/src/gc.rs, crates/depot-db/src/gc.rs). */
module Collection {
  import opened Wrappers
  import opened Ordering
  import opened Text
  import opened Tables
  import opened Liveness

  type Objects = map<ObjectKey, ObjectRow>

  lemma KeyLeqIsTotalOrder()
    ensures TotalOrder(KeyLeq)
  {
    LeqIsTotalOrder();
  }

  /** The rows whose path no live path is linked to. */
  function Stale(objects: Objects, live: set<string>): (r: set<ObjectKey>) {
    set k | k in objects && k.path !in live
  }

  /** `clear_deleted_state_for_live_storage_objects`. */
  function Cleared(objects: Objects, live: set<string>): (r: Objects)
    ensures r.Keys == objects.Keys
  {
    map k | k in objects ::
      if (objects[k].deletedAt.Some? || objects[k].firstDeletedAt.Some?) && k.path in live
      then objects[k].(deletedAt := None, firstDeletedAt := None) else objects[k]
  }

  /** The value, or `now` when there is none. */
  function Coalesce(t: Option<int>, now: int): (r: Option<int>) {
    if t.Some? then t else Some(now)
  }

  /** `mark_stale_storage_objects`. */
  function Marked(objects: Objects, live: set<string>, now: int): (r: Objects)
    ensures r.Keys == objects.Keys
  {
    map k | k in objects ::
      if k.path !in live
      then objects[k].(deletedAt := Coalesce(objects[k].deletedAt, now),
                       firstDeletedAt := Coalesce(objects[k].firstDeletedAt, now))
      else objects[k]
  }

  function Refreshed(objects: Objects, live: set<string>, now: int): (r: Objects)
    ensures r.Keys == objects.Keys
  {
    Marked(Cleared(objects, live), live, now)
  }

  /** `list_storage_objects_ready_for_deletion`. */
  predicate IsReady(row: ObjectRow, grace: int, now: int) {
    row.deletedAt.Some? && row.firstDeletedAt.Some? && UnixSeconds(row.firstDeletedAt.value) <= UnixSeconds(now) - grace
  }

  function Ready(objects: Objects, grace: int, now: int): (r: set<ObjectKey>) {
    set k | k in objects && IsReady(objects[k], grace, now)
  }

  ghost function InOrder(s: set<ObjectKey>): (r: seq<ObjectKey>)
    ensures forall k :: k in r <==> k in s
  {
    KeyLeqIsTotalOrder();
    AscendingMembers(s, KeyLeq);
    Ascending(s, KeyLeq)
  }

  /**
   Deletes one object after another from its backend, passing over unconfigured backends and
   stopping at the first backend that fails.
   */
  function DeleteBlobs(cfg: Config, blobs: Blobs, keys: seq<ObjectKey>, failing: set<ObjectKey>)
    : (r: (Blobs, Result<seq<ObjectKey>, ObjectKey>))
  {
    if keys == [] then (blobs, Ok([]))
    else
      var k := keys[0];
      if k.storageId !in cfg.backends then DeleteBlobs(cfg, blobs, keys[1..], failing)
      else if k in failing then (blobs, Err(k))
      else
        var (rest, done) := DeleteBlobs(cfg, blobs - {k}, keys[1..], failing);
        (rest, match done case Ok(ks) => Ok([k] + ks) case Err(e) => Err(e))
  }

  function PathsOf(keys: seq<ObjectKey>): (r: seq<string>)
    ensures |r| == |keys| && forall i :: 0 <= i < |r| ==> r[i] == keys[i].path
  {
    if keys == [] then [] else [keys[0].path] + PathsOf(keys[1..])
  }

  function ElementsOf(keys: seq<ObjectKey>): (r: set<ObjectKey>) {
    set k | k in keys
  }

  /** `run_local_gc_with_grace_period`: the new world and the reported paths, or the key whose backend failed. */
  ghost function GcPass(cfg: Config, w: World, dryRun: bool, grace: int, failing: set<ObjectKey>, now: int)
    : (r: (World, Result<seq<string>, ObjectKey>))
  {
    var live := LiveObjects(cfg, w.db, now);
    if dryRun then (w, Ok(PathsOf(InOrder(Stale(w.db.objects, live)))))
    else
      var refreshed := Refreshed(w.db.objects, live, now);
      var (blobs, done) := DeleteBlobs(cfg, w.blobs, InOrder(Ready(refreshed, grace, now)), failing);
      match done
      case Err(k) => (World(w.db.(objects := refreshed), blobs), Err(k))
      case Ok(keys) => (World(w.db.(objects := refreshed - ElementsOf(keys)), blobs), Ok(PathsOf(keys)))
  }

  // ---- What a deletion run touches ----

  function Configured(cfg: Config, keys: seq<ObjectKey>): (r: set<ObjectKey>) {
    set k | k in keys && k.storageId in cfg.backends
  }

  /** A deletion run that no failing backend stops deletes everything in configured backends. */
  lemma {:induction false} DeletesConfigured(cfg: Config, blobs: Blobs, keys: seq<ObjectKey>, failing: set<ObjectKey>)
    ensures DeleteBlobs(cfg, blobs, keys, failing).1.Ok? <==> Configured(cfg, keys) !! failing
    ensures var (rest, done) := DeleteBlobs(cfg, blobs, keys, failing);
            done.Ok? ==> rest == blobs - Configured(cfg, keys) && ElementsOf(done.value) == Configured(cfg, keys)
  {
    if keys != [] {
      assert keys == [keys[0]] + keys[1..];
      if keys[0].storageId !in cfg.backends {
        assert Configured(cfg, keys) == Configured(cfg, keys[1..]);
        DeletesConfigured(cfg, blobs, keys[1..], failing);
      } else {
        assert Configured(cfg, keys) == {keys[0]} + Configured(cfg, keys[1..]);
        if keys[0] !in failing {
          DeletesConfigured(cfg, blobs - {keys[0]}, keys[1..], failing);
          DeletedFirst(keys[0], DeleteBlobs(cfg, blobs - {keys[0]}, keys[1..], failing).1);
        }
      }
    }
  }

  lemma DeletedFirst(key: ObjectKey, rest: Result<seq<ObjectKey>, ObjectKey>)
    ensures rest.Ok? ==> ElementsOf([key] + rest.value) == {key} + ElementsOf(rest.value)
  {}

  /** One that is stopped deletes what comes before the first failure. */
  lemma {:induction false} DeletesUpTo(cfg: Config, blobs: Blobs, keys: seq<ObjectKey>, failing: set<ObjectKey>) returns (i: nat)
    requires DeleteBlobs(cfg, blobs, keys, failing).1.Err?
    ensures StoppedAt(cfg, keys, failing, i) && DeleteBlobs(cfg, blobs, keys, failing).1 == Err(keys[i])
    ensures DeleteBlobs(cfg, blobs, keys, failing).0 == blobs - Configured(cfg, keys[..i])
  {
    if keys[0].storageId !in cfg.backends {
      i := DeletesUpTo(cfg, blobs, keys[1..], failing);
      ConfiguredPrefix(cfg, keys, i);
      i := i + 1;
    } else if keys[0] in failing {
      i := 0;
    } else {
      i := DeletesUpTo(cfg, blobs - {keys[0]}, keys[1..], failing);
      ConfiguredPrefix(cfg, keys, i);
      i := i + 1;
    }
  }

  /** The first key whose backend fails. */
  predicate StoppedAt(cfg: Config, keys: seq<ObjectKey>, failing: set<ObjectKey>, i: nat) {
    i < |keys| && keys[i].storageId in cfg.backends && keys[i] in failing && Configured(cfg, keys[..i]) !! failing
  }

  lemma ConfiguredPrefix(cfg: Config, keys: seq<ObjectKey>, i: nat)
    requires i < |keys|
    ensures Configured(cfg, keys[..i + 1]) == Configured(cfg, [keys[0]]) + Configured(cfg, keys[1..][..i])
  {
    assert keys[..i + 1] == [keys[0]] + keys[1..][..i];
  }

  lemma {:induction false} DeleteBlobsEffect(cfg: Config, blobs: Blobs, keys: seq<ObjectKey>, failing: set<ObjectKey>)
    ensures var (rest, done) := DeleteBlobs(cfg, blobs, keys, failing);
            && rest.Keys <= blobs.Keys
            && (forall k :: k in blobs && (k !in keys || k.storageId !in cfg.backends) ==> k in rest)
            && (forall k :: k in rest ==> rest[k] == blobs[k])
            && (done.Ok? ==> forall k :: k in done.value <==> k in keys && k.storageId in cfg.backends)
            && (done.Ok? ==> forall k :: k in done.value ==> k !in rest)
  {
    if keys != [] {
      assert keys == [keys[0]] + keys[1..];
      if keys[0].storageId !in cfg.backends {
        DeleteBlobsEffect(cfg, blobs, keys[1..], failing);
      } else if keys[0] !in failing {
        DeleteBlobsEffect(cfg, blobs - {keys[0]}, keys[1..], failing);
      }
    }
  }

  lemma LiveRowsAreNotReady(objects: Objects, live: set<string>, grace: int, now: int, k: ObjectKey)
    requires k in objects && k.path in live
    ensures Refreshed(objects, live, now)[k] == objects[k].(deletedAt := None, firstDeletedAt := None)
    ensures k !in Ready(Refreshed(objects, live, now), grace, now)
  {}

  /** A row or blob that a pass left alone, apart from clearing its tombstone. */
  predicate Untouched(w: World, w': World, k: ObjectKey) {
    && (k in w.db.objects <==> k in w'.db.objects)
    && (k in w.db.objects ==> w'.db.objects[k].metadata == w.db.objects[k].metadata)
    && (k in w.blobs <==> k in w'.blobs)
    && (k in w.blobs ==> w'.blobs[k] == w.blobs[k])
  }

  /**
   No pass, dry or not, complete or aborted, whatever its grace period, removes the row or the
   bytes of an object linked to a path that is reachable from a root.
   */
  lemma PassKeepsLiveObjects(cfg: Config, w: World, dryRun: bool, grace: int, failing: set<ObjectKey>, now: int, k: ObjectKey)
    requires k.path in LiveObjects(cfg, w.db, now)
    ensures Untouched(w, GcPass(cfg, w, dryRun, grace, failing, now).0, k)
    ensures !dryRun && k in w.db.objects ==>
              GcPass(cfg, w, dryRun, grace, failing, now).0.db.objects[k]
              == w.db.objects[k].(deletedAt := None, firstDeletedAt := None)
  {
    if !dryRun {
      var live := LiveObjects(cfg, w.db, now);
      var refreshed := Refreshed(w.db.objects, live, now);
      var keys := InOrder(Ready(refreshed, grace, now));
      DeleteBlobsEffect(cfg, w.blobs, keys, failing);
      if k in w.db.objects {
        LiveRowsAreNotReady(w.db.objects, live, grace, now, k);
      }
    }
  }

  /** Only object rows change; everything that decides liveness stays. */
  lemma PassChangesOnlyObjects(cfg: Config, w: World, dryRun: bool, grace: int, failing: set<ObjectKey>, now: int)
    ensures var w' := GcPass(cfg, w, dryRun, grace, failing, now).0;
            w'.db == w.db.(objects := w'.db.objects) && w'.db.objects.Keys <= w.db.objects.Keys
  {}

  /** The rows that a pass keeps: the refreshed ones, except some that were ready in a configured backend. */
  predicate KeepsUnready(cfg: Config, refreshed: Objects, objects: Objects, grace: int, now: int) {
    && (forall k :: k in objects ==> k in refreshed && objects[k] == refreshed[k])
    && (forall k :: k in refreshed && k !in objects ==> IsReady(refreshed[k], grace, now) && k.storageId in cfg.backends)
  }

  lemma DeletionKeepsUnready(cfg: Config, blobs: Blobs, refreshed: Objects, grace: int, failing: set<ObjectKey>, now: int)
    ensures KeepsUnready(cfg, refreshed, refreshed, grace, now)
    ensures var done := DeleteBlobs(cfg, blobs, InOrder(Ready(refreshed, grace, now)), failing).1;
            done.Ok? ==> KeepsUnready(cfg, refreshed, refreshed - ElementsOf(done.value), grace, now)
  {
    DeletedWereReady(cfg, blobs, refreshed, grace, failing, now);
  }

  /** A dry pass leaves the rows alone; any other keeps the refreshed rows but for some that were ready. */
  lemma PassObjects(cfg: Config, w: World, dryRun: bool, grace: int, failing: set<ObjectKey>, now: int)
    ensures var objects := GcPass(cfg, w, dryRun, grace, failing, now).0.db.objects;
            if dryRun then objects == w.db.objects
            else KeepsUnready(cfg, Refreshed(w.db.objects, LiveObjects(cfg, w.db, now), now), objects, grace, now)
  {
    if !dryRun {
      var refreshed := Refreshed(w.db.objects, LiveObjects(cfg, w.db, now), now);
      DeletionKeepsUnready(cfg, w.blobs, refreshed, grace, failing, now);
    }
  }

  lemma DeletedWereReady(cfg: Config, blobs: Blobs, refreshed: Objects, grace: int, failing: set<ObjectKey>, now: int)
    ensures var done := DeleteBlobs(cfg, blobs, InOrder(Ready(refreshed, grace, now)), failing).1;
            done.Ok? ==> forall k :: k in done.value ==>
              k in refreshed && IsReady(refreshed[k], grace, now) && k.storageId in cfg.backends
  {
    DeleteBlobsEffect(cfg, blobs, InOrder(Ready(refreshed, grace, now)), failing);
  }

  /** What a wet pass is to delete: what is past its grace in a configured backend. */
  ghost function Doomed(cfg: Config, w: World, grace: int, now: int): (r: set<ObjectKey>) {
    set k | k in Ready(Refreshed(w.db.objects, LiveObjects(cfg, w.db, now), now), grace, now) && k.storageId in cfg.backends
  }

  /** Everything doomed is deleted, or what comes before the first failure and no row. */
  predicate Deletes(cfg: Config, w: World, refreshed: Objects, keys: seq<ObjectKey>, doomed: set<ObjectKey>,
                    failing: set<ObjectKey>, w': World)
  {
    if doomed !! failing then w' == World(w.db.(objects := refreshed - doomed), w.blobs - doomed)
    else
      && w'.db == w.db.(objects := refreshed)
      && exists i :: 0 <= i < |keys| && StoppedAt(cfg, keys, failing, i) && w'.blobs == w.blobs - Configured(cfg, keys[..i])
  }

  /**
   A wet pass succeeds exactly when no backend fails for what it is to delete; then exactly those rows and bytes
   are gone. Otherwise all refreshed rows stay, and the bytes that are gone are those before the first failure.
   */
  lemma PassDeletesDoomed(cfg: Config, w: World, grace: int, failing: set<ObjectKey>, now: int)
    ensures GcPass(cfg, w, false, grace, failing, now).1.Ok? <==> Doomed(cfg, w, grace, now) !! failing
    ensures var refreshed := Refreshed(w.db.objects, LiveObjects(cfg, w.db, now), now);
            Deletes(cfg, w, refreshed, InOrder(Ready(refreshed, grace, now)), Doomed(cfg, w, grace, now), failing,
                    GcPass(cfg, w, false, grace, failing, now).0)
  {
    var refreshed := Refreshed(w.db.objects, LiveObjects(cfg, w.db, now), now);
    var keys := InOrder(Ready(refreshed, grace, now));
    DeletesConfigured(cfg, w.blobs, keys, failing);
    assert Configured(cfg, keys) == Doomed(cfg, w, grace, now);
    if DeleteBlobs(cfg, w.blobs, keys, failing).1.Err? {
      var i := DeletesUpTo(cfg, w.blobs, keys, failing);
    }
  }

  // ---- Dry run and zero grace ----

  predicate Tombstoned(row: ObjectRow) {
    row.deletedAt.Some? && row.firstDeletedAt.Some?
  }

  predicate PairedTombstones(objects: Objects) {
    forall k :: k in objects ==> (objects[k].deletedAt.Some? <==> objects[k].firstDeletedAt.Some?)
  }

  /** After clearing and marking, the tombstoned rows are exactly the stale ones, which a dry run reports in order. */
  lemma DryRunReportsTombstones(cfg: Config, w: World, grace: int, failing: set<ObjectKey>, now: int)
    requires PairedTombstones(w.db.objects)
    ensures var live := LiveObjects(cfg, w.db, now);
            var refreshed := Refreshed(w.db.objects, live, now);
            var tombstoned := set k | k in refreshed && Tombstoned(refreshed[k]);
            && tombstoned == Stale(w.db.objects, live)
            && GcPass(cfg, w, true, grace, failing, now) == (w, Ok(PathsOf(InOrder(tombstoned))))
  {
    var live := LiveObjects(cfg, w.db, now);
    var refreshed := Refreshed(w.db.objects, live, now);
    assert (set k | k in refreshed && Tombstoned(refreshed[k])) == Stale(w.db.objects, live);
  }

  predicate TombstonesPast(objects: Objects, now: int) {
    forall k :: k in objects && objects[k].firstDeletedAt.Some? ==> objects[k].firstDeletedAt.value <= now
  }

  /** With no grace period a pass deletes exactly the stale rows whose backend is configured, rows and bytes. */
  lemma ZeroGraceDeletesStale(cfg: Config, w: World, now: int)
    requires PairedTombstones(w.db.objects) && TombstonesPast(w.db.objects, now)
    ensures var live := LiveObjects(cfg, w.db, now);
            var doomed := set k | k in Stale(w.db.objects, live) && k.storageId in cfg.backends;
            var (w', report) := GcPass(cfg, w, false, 0, {}, now);
            && report.Ok?
            && w'.db.objects.Keys == w.db.objects.Keys - doomed
            && w'.blobs.Keys == w.blobs.Keys - doomed
  {
    var live := LiveObjects(cfg, w.db, now);
    var refreshed := Refreshed(w.db.objects, live, now);
    ReadyWithoutGrace(w.db.objects, live, now);
    var keys := InOrder(Ready(refreshed, 0, now));
    DeletesConfigured(cfg, w.blobs, keys, {});
    assert Configured(cfg, keys) == set k | k in Stale(w.db.objects, live) && k.storageId in cfg.backends;
  }

  lemma ReadyWithoutGrace(objects: Objects, live: set<string>, now: int)
    requires PairedTombstones(objects) && TombstonesPast(objects, now)
    ensures Ready(Refreshed(objects, live, now), 0, now) == Stale(objects, live)
  {
    var refreshed := Refreshed(objects, live, now);
    forall k | k in refreshed ensures IsReady(refreshed[k], 0, now) <==> k.path !in live {
      if k.path !in live && objects[k].firstDeletedAt.Some? {
        assert objects[k].firstDeletedAt.value <= now;
      }
    }
  }

  // ---- Recovering from an aborted pass ----

  lemma {:induction false} AbortedDeletes(cfg: Config, blobs: Blobs, keys: seq<ObjectKey>, failing: set<ObjectKey>)
    ensures DeleteBlobs(cfg, blobs, keys, failing).0 - Configured(cfg, keys) == blobs - Configured(cfg, keys)
  {
    DeleteBlobsEffect(cfg, blobs, keys, failing);
    var rest := DeleteBlobs(cfg, blobs, keys, failing).0;
    forall k | k in blobs && k !in Configured(cfg, keys) ensures k in rest {
      assert k !in keys || k.storageId !in cfg.backends;
    }
  }

  lemma RefreshIsIdempotent(objects: Objects, live: set<string>, now: int)
    ensures Refreshed(Refreshed(objects, live, now), live, now) == Refreshed(objects, live, now)
  {}

  /**
   A pass that a failing backend stopped at any point, followed by a pass at the same time in which
   no backend fails, ends in the same world as the second pass alone.
   */
  lemma AbortedPassRecovers(cfg: Config, w: World, grace: int, failing: set<ObjectKey>, now: int)
    requires GcPass(cfg, w, false, grace, failing, now).1.Err?
    ensures GcPass(cfg, GcPass(cfg, w, false, grace, failing, now).0, false, grace, {}, now).0
            == GcPass(cfg, w, false, grace, {}, now).0
  {
    var live := LiveObjects(cfg, w.db, now);
    var refreshed := Refreshed(w.db.objects, live, now);
    var keys := InOrder(Ready(refreshed, grace, now));
    var mid := GcPass(cfg, w, false, grace, failing, now).0;
    ObjectsDoNotMatter(cfg, w.db, refreshed, now);
    RefreshIsIdempotent(w.db.objects, live, now);
    AbortedDeletes(cfg, w.blobs, keys, failing);
    DeletesConfigured(cfg, w.blobs, keys, {});
    DeletesConfigured(cfg, mid.blobs, keys, {});
  }
}
