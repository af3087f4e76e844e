/** What one collector pass does to each row, to each object's bytes, and what it reports (crates/depot-ingest/src/gc.rs). */
module Passes {
  import opened Wrappers
  import opened Ordering
  import opened Text
  import opened Tables
  import opened Liveness
  import opened Collection

  // ---- The order of the keys ----

  /** By backend and then by path. */
  predicate Before(a: ObjectKey, b: ObjectKey) {
    if a.storageId == b.storageId then a.path != b.path && Leq(a.path, b.path) else Leq(a.storageId, b.storageId)
  }

  lemma BeforeExactly(a: ObjectKey, b: ObjectKey)
    ensures Before(a, b) <==> a != b && KeyLeq(a, b)
  {}

  /** A listing in order has no key twice and each before the next. */
  lemma InOrderExactly(s: set<ObjectKey>)
    ensures var r := InOrder(s);
            && (forall k :: k in r <==> k in s)
            && forall i, j :: 0 <= i < j < |r| ==> Before(r[i], r[j])
  {
    KeyLeqIsTotalOrder();
    var r := InOrder(s);
    forall i, j | 0 <= i < j < |r| ensures Before(r[i], r[j]) {
      DistinctElements(r, s, i, j);
      BeforeExactly(r[i], r[j]);
    }
  }

  lemma NotBoth(a: ObjectKey, b: ObjectKey)
    ensures !(Before(a, b) && Before(b, a))
  {
    LeqIsTotalOrder();
  }

  lemma PrefixInOrder(s: set<ObjectKey>, i: nat, k: ObjectKey)
    requires i < |InOrder(s)|
    ensures k in InOrder(s)[..i] <==> k in s && Before(k, InOrder(s)[i])
  {
    var r := InOrder(s);
    InOrderExactly(s);
    if k in r[..i] {
      var j :| 0 <= j < i && r[j] == k;
    }
    if k in s && Before(k, r[i]) {
      var j :| 0 <= j < |r| && r[j] == k;
      NotBoth(k, r[i]);
      assert j < i;
      assert r[..i][j] == k;
    }
  }

  // ---- Rows and bytes ----

  /** No live path is linked to it, and it has been marked for the grace period, in whole seconds. */
  ghost predicate Due(cfg: Config, w: World, grace: int, now: int, k: ObjectKey) {
    && k in w.db.objects && k.path !in LiveObjects(cfg, w.db, now)
    && (if w.db.objects[k].firstDeletedAt.Some? then w.db.objects[k].firstDeletedAt.value else now) / 1000 <= now / 1000 - grace
  }

  lemma ReadyIsDue(cfg: Config, w: World, grace: int, now: int, k: ObjectKey)
    ensures k in Ready(Refreshed(w.db.objects, LiveObjects(cfg, w.db, now), now), grace, now) <==> Due(cfg, w, grace, now, k)
  {}

  /** The row that a wet pass leaves when it does not delete it. */
  function RowAfter(row: ObjectRow, alive: bool, now: int): (r: ObjectRow) {
    if alive then ObjectRow(row.metadata, None, None)
    else
      ObjectRow(row.metadata,
                if row.deletedAt.Some? then row.deletedAt else Some(now),
                if row.firstDeletedAt.Some? then row.firstDeletedAt else Some(now))
  }

  lemma RefreshedExactly(objects: Objects, live: set<string>, now: int, k: ObjectKey)
    requires k in objects
    ensures Refreshed(objects, live, now)[k] == RowAfter(objects[k], k.path in live, now)
  {}

  /** A dry pass changes nothing and reports the paths of all rows without a live link, in order. */
  lemma DryPassExactly(cfg: Config, w: World, grace: int, failing: set<ObjectKey>, now: int)
    ensures var (w', report) := GcPass(cfg, w, true, grace, failing, now);
            && w' == w && report.Ok?
            && exists keys: seq<ObjectKey> ::
                 && report.value == PathsOf(keys)
                 && (forall k :: k in keys <==> k in w.db.objects && k.path !in LiveObjects(cfg, w.db, now))
                 && forall i, j :: 0 <= i < j < |keys| ==> Before(keys[i], keys[j])
  {
    hide LiveObjects, Refreshed, Ready, DeleteBlobs, InOrder, PathsOf, Before;
    var stale := Stale(w.db.objects, LiveObjects(cfg, w.db, now));
    InOrderExactly(stale);
    assert GcPass(cfg, w, true, grace, failing, now) == (w, Ok(PathsOf(InOrder(stale))));
    hide GcPass;
  }

  /** What a wet pass deletes: what is due in a configured backend. */
  ghost predicate ToDelete(cfg: Config, w: World, grace: int, now: int, k: ObjectKey) {
    Due(cfg, w, grace, now, k) && k.storageId in cfg.backends
  }

  lemma DoomedExactly(cfg: Config, w: World, grace: int, now: int)
    ensures forall k :: k in Doomed(cfg, w, grace, now) <==> ToDelete(cfg, w, grace, now, k)
  {
    forall k ensures k in Doomed(cfg, w, grace, now) <==> ToDelete(cfg, w, grace, now, k) { ReadyIsDue(cfg, w, grace, now, k); }
  }

  lemma RowsRefreshed(cfg: Config, w: World, now: int, objects: Objects)
    requires forall k :: k in objects ==>
               k in w.db.objects && objects[k] == Refreshed(w.db.objects, LiveObjects(cfg, w.db, now), now)[k]
    ensures forall k :: k in objects ==>
              k in w.db.objects && objects[k] == RowAfter(w.db.objects[k], k.path in LiveObjects(cfg, w.db, now), now)
  {
    forall k | k in objects
      ensures k in w.db.objects && objects[k] == RowAfter(w.db.objects[k], k.path in LiveObjects(cfg, w.db, now), now)
    {
      RefreshedExactly(w.db.objects, LiveObjects(cfg, w.db, now), now, k);
    }
  }

  /** A wet pass in which no backend fails for what it is to delete deletes exactly that, rows and bytes, and refreshes the rest. */
  lemma WetPassExactly(cfg: Config, w: World, grace: int, failing: set<ObjectKey>, now: int)
    requires forall k :: ToDelete(cfg, w, grace, now, k) ==> k !in failing
    ensures var (w', report) := GcPass(cfg, w, false, grace, failing, now);
            && report.Ok? && w'.db == w.db.(objects := w'.db.objects)
            && (forall k :: k in w'.db.objects <==> k in w.db.objects && !ToDelete(cfg, w, grace, now, k))
            && (forall k :: k in w'.db.objects ==>
                  w'.db.objects[k] == RowAfter(w.db.objects[k], k.path in LiveObjects(cfg, w.db, now), now))
            && (forall k :: k in w'.blobs <==> k in w.blobs && !ToDelete(cfg, w, grace, now, k))
            && (forall k :: k in w'.blobs ==> w'.blobs[k] == w.blobs[k])
  {
    hide GcPass, ToDelete;
    var refreshed := Refreshed(w.db.objects, LiveObjects(cfg, w.db, now), now);
    PassDeletesDoomed(cfg, w, grace, failing, now);
    DoomedExactly(cfg, w, grace, now);
    RowsRefreshed(cfg, w, now, refreshed - Doomed(cfg, w, grace, now));
  }

  /** The first that a backend fails to delete. */
  ghost predicate FirstFailure(cfg: Config, w: World, grace: int, failing: set<ObjectKey>, now: int, e: ObjectKey) {
    && ToDelete(cfg, w, grace, now, e) && e in failing
    && forall k :: ToDelete(cfg, w, grace, now, k) && k in failing ==> k == e || Before(e, k)
  }

  lemma StoppedAtFirst(cfg: Config, w: World, grace: int, failing: set<ObjectKey>, now: int, i: nat)
    requires var keys := InOrder(Ready(Refreshed(w.db.objects, LiveObjects(cfg, w.db, now), now), grace, now));
             StoppedAt(cfg, keys, failing, i)
    ensures var keys := InOrder(Ready(Refreshed(w.db.objects, LiveObjects(cfg, w.db, now), now), grace, now));
            && FirstFailure(cfg, w, grace, failing, now, keys[i])
            && forall k :: k in Configured(cfg, keys[..i]) <==> ToDelete(cfg, w, grace, now, k) && Before(k, keys[i])
  {
    var ready := Ready(Refreshed(w.db.objects, LiveObjects(cfg, w.db, now), now), grace, now);
    var keys := InOrder(ready);
    forall k ensures k in ready <==> Due(cfg, w, grace, now, k) { ReadyIsDue(cfg, w, grace, now, k); }
    hide Due, Ready, Refreshed, InOrder, Before;
    forall k ensures k in Configured(cfg, keys[..i]) <==> ToDelete(cfg, w, grace, now, k) && Before(k, keys[i]) {
      PrefixInOrder(ready, i, k);
    }
    InOrderExactly(ready);
    assert keys[i] in keys;
    forall k | ToDelete(cfg, w, grace, now, k) && k in failing ensures k == keys[i] || Before(keys[i], k) {
      assert k in keys;
      NotBeforeStop(cfg, keys, failing, i, k);
    }
  }

  lemma NotBeforeStop(cfg: Config, keys: seq<ObjectKey>, failing: set<ObjectKey>, i: nat, k: ObjectKey)
    requires StoppedAt(cfg, keys, failing, i) && k in keys && k.storageId in cfg.backends && k in failing
    requires forall a, b :: 0 <= a < b < |keys| ==> Before(keys[a], keys[b])
    ensures k == keys[i] || Before(keys[i], k)
  {
    hide Before;
    var j :| 0 <= j < |keys| && keys[j] == k;
    assert forall a :: 0 <= a < i ==> keys[a] == keys[..i][a];
    assert k !in Configured(cfg, keys[..i]);
  }

  /** The bytes that are to be deleted before this key are gone, and no others. */
  ghost predicate GoneUpTo(cfg: Config, w: World, grace: int, now: int, e: ObjectKey, blobs: Blobs) {
    && (forall k :: k in blobs <==> k in w.blobs && !(ToDelete(cfg, w, grace, now, k) && Before(k, e)))
    && (forall k :: k in blobs ==> blobs[k] == w.blobs[k])
  }

  lemma StoppedBytes(cfg: Config, w: World, grace: int, failing: set<ObjectKey>, now: int, keys: seq<ObjectKey>, blobs: Blobs)
    requires keys == InOrder(Ready(Refreshed(w.db.objects, LiveObjects(cfg, w.db, now), now), grace, now))
    requires exists i :: 0 <= i < |keys| && StoppedAt(cfg, keys, failing, i) && blobs == w.blobs - Configured(cfg, keys[..i])
    ensures exists e :: FirstFailure(cfg, w, grace, failing, now, e) && GoneUpTo(cfg, w, grace, now, e, blobs)
  {
    var i: nat :| i < |keys| && StoppedAt(cfg, keys, failing, i) && blobs == w.blobs - Configured(cfg, keys[..i]);
    StoppedAtFirst(cfg, w, grace, failing, now, i);
    hide ToDelete, FirstFailure, Before, InOrder, Configured, StoppedAt;
    assert GoneUpTo(cfg, w, grace, now, keys[i], blobs);
  }

  /** Otherwise it stops at the first such failure: no row goes, and the bytes that are to be deleted before it are gone. */
  lemma FailedPassExactly(cfg: Config, w: World, grace: int, failing: set<ObjectKey>, now: int)
    requires exists k :: ToDelete(cfg, w, grace, now, k) && k in failing
    ensures var (w', report) := GcPass(cfg, w, false, grace, failing, now);
            && report.Err? && w'.db == w.db.(objects := w'.db.objects)
            && (forall k :: k in w'.db.objects <==> k in w.db.objects)
            && (forall k :: k in w'.db.objects ==>
                  w'.db.objects[k] == RowAfter(w.db.objects[k], k.path in LiveObjects(cfg, w.db, now), now))
            && exists e :: FirstFailure(cfg, w, grace, failing, now, e) && GoneUpTo(cfg, w, grace, now, e, w'.blobs)
  {
    hide GcPass, ToDelete, FirstFailure, GoneUpTo;
    var refreshed := Refreshed(w.db.objects, LiveObjects(cfg, w.db, now), now);
    var keys := InOrder(Ready(refreshed, grace, now));
    var w' := GcPass(cfg, w, false, grace, failing, now).0;
    PassDeletesDoomed(cfg, w, grace, failing, now);
    DoomedExactly(cfg, w, grace, now);
    var some :| ToDelete(cfg, w, grace, now, some) && some in failing;
    assert some in Doomed(cfg, w, grace, now);
    StoppedBytes(cfg, w, grace, failing, now, keys, w'.blobs);
    RowsRefreshed(cfg, w, now, refreshed);
  }

  /** The error names it. */
  lemma FailureReported(cfg: Config, w: World, grace: int, failing: set<ObjectKey>, now: int)
    requires GcPass(cfg, w, false, grace, failing, now).1.Err?
    ensures FirstFailure(cfg, w, grace, failing, now, GcPass(cfg, w, false, grace, failing, now).1.error)
  {
    hide Refreshed, Ready, LiveObjects, DeleteBlobs, InOrder, FirstFailure;
    var keys := InOrder(Ready(Refreshed(w.db.objects, LiveObjects(cfg, w.db, now), now), grace, now));
    var i := DeletesUpTo(cfg, w.blobs, keys, failing);
    StoppedAtFirst(cfg, w, grace, failing, now, i);
  }

  // ---- The report ----

  predicate Rising(keys: seq<ObjectKey>) {
    forall i, j :: 0 <= i < j < |keys| ==> Before(keys[i], keys[j])
  }

  lemma {:induction false} DeletesInOrder(cfg: Config, blobs: Blobs, keys: seq<ObjectKey>, failing: set<ObjectKey>)
    requires Rising(keys) && DeleteBlobs(cfg, blobs, keys, failing).1.Ok?
    ensures Rising(DeleteBlobs(cfg, blobs, keys, failing).1.value)
  {
    if keys != [] {
      assert Rising(keys[1..]);
      if keys[0].storageId !in cfg.backends {
        DeletesInOrder(cfg, blobs, keys[1..], failing);
      } else {
        var rest := DeleteBlobs(cfg, blobs - {keys[0]}, keys[1..], failing).1.value;
        DeletesInOrder(cfg, blobs - {keys[0]}, keys[1..], failing);
        DeleteBlobsEffect(cfg, blobs - {keys[0]}, keys[1..], failing);
        forall j | 0 <= j < |rest| ensures Before(keys[0], rest[j]) {
          assert rest[j] in keys[1..];
        }
      }
    }
  }

  /** A pass that succeeds reports the paths of what it deletes, in order. */
  lemma ReportExactly(cfg: Config, w: World, grace: int, failing: set<ObjectKey>, now: int)
    requires GcPass(cfg, w, false, grace, failing, now).1.Ok?
    ensures exists keys: seq<ObjectKey> ::
              && GcPass(cfg, w, false, grace, failing, now).1.value == PathsOf(keys)
              && Rising(keys) && forall k :: k in keys <==> ToDelete(cfg, w, grace, now, k)
  {
    hide LiveObjects, Refreshed, InOrder, DeleteBlobs, PathsOf;
    var ready := Ready(Refreshed(w.db.objects, LiveObjects(cfg, w.db, now), now), grace, now);
    InOrderExactly(ready);
    DeletesInOrder(cfg, w.blobs, InOrder(ready), failing);
    DeleteBlobsEffect(cfg, w.blobs, InOrder(ready), failing);
    var keys := DeleteBlobs(cfg, w.blobs, InOrder(ready), failing).1.value;
    forall k ensures k in keys <==> ToDelete(cfg, w, grace, now, k) { ReadyIsDue(cfg, w, grace, now, k); }
  }
}
