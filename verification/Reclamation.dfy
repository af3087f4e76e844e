/** What is dead is deleted, in the end: the converse of the grace period's history. */
module Reclamation {
  import opened Tables
  import opened Liveness
  import opened Collection
  import opened Runs
  import opened ObjectLife
  import opened GraceHistory

  /** The object has a row marked at `t` or earlier, or neither row nor bytes. */
  predicate MarkedOrGone(w: World, k: ObjectKey, t: int) {
    if k in w.db.objects then
      w.db.objects[k].deletedAt.Some? && w.db.objects[k].firstDeletedAt.Some? && w.db.objects[k].firstDeletedAt.value <= t
    else k !in w.blobs
  }

  lemma RefreshedIsMarked(objects: Objects, live: set<string>, now: int, k: ObjectKey, t: int)
    requires k in objects && k.path !in live && objects[k].firstDeletedAt.GetOr(now) <= t
    ensures var row := Refreshed(objects, live, now)[k];
            row.deletedAt.Some? && row.firstDeletedAt.Some? && row.firstDeletedAt.value <= t
  {}

  lemma DeletionKeepsMarked(cfg: Config, w: World, refreshed: Objects, keys: seq<ObjectKey>, doomed: set<ObjectKey>,
                            failing: set<ObjectKey>, w': World, k: ObjectKey, t: int)
    requires Deletes(cfg, w, refreshed, keys, doomed, failing, w')
    requires MarkedOrGone(w.(db := w.db.(objects := refreshed)), k, t)
    ensures MarkedOrGone(w', k, t)
  {
    if !(doomed !! failing) {
      var i :| 0 <= i < |keys| && StoppedAt(cfg, keys, failing, i) && w'.blobs == w.blobs - Configured(cfg, keys[..i]);
    }
  }

  /** A pass that finds an object dead leaves it marked, or deletes row and bytes. */
  lemma PassKeepsMarked(cfg: Config, w: World, grace: int, failing: set<ObjectKey>, now: int, k: ObjectKey, t: int)
    requires k.path !in LiveObjects(cfg, w.db, now)
    requires if k in w.db.objects then w.db.objects[k].firstDeletedAt.GetOr(now) <= t else k !in w.blobs
    ensures MarkedOrGone(GcPass(cfg, w, false, grace, failing, now).0, k, t)
  {
    hide GcPass;
    var live := LiveObjects(cfg, w.db, now);
    var refreshed := Refreshed(w.db.objects, live, now);
    if k in w.db.objects { RefreshedIsMarked(w.db.objects, live, now, k, t); }
    PassDeletesDoomed(cfg, w, grace, failing, now);
    DeletionKeepsMarked(cfg, w, refreshed, InOrder(Ready(refreshed, grace, now)), Doomed(cfg, w, grace, now), failing,
                        GcPass(cfg, w, false, grace, failing, now).0, k, t);
  }

  /** A pass that succeeds and finds it past its grace in a configured backend deletes it. */
  lemma PassCollects(cfg: Config, w: World, grace: int, failing: set<ObjectKey>, now: int, k: ObjectKey)
    requires k.path !in LiveObjects(cfg, w.db, now) && k.storageId in cfg.backends
    requires if k in w.db.objects then w.db.objects[k].firstDeletedAt.GetOr(now) / 1000 <= now / 1000 - grace
             else k !in w.blobs
    requires GcPass(cfg, w, false, grace, failing, now).1.Ok?
    ensures var w' := GcPass(cfg, w, false, grace, failing, now).0; k !in w'.db.objects && k !in w'.blobs
  {
    hide GcPass;
    PassDeletesDoomed(cfg, w, grace, failing, now);
    var refreshed := Refreshed(w.db.objects, LiveObjects(cfg, w.db, now), now);
    assert k in w.db.objects ==> k in Ready(refreshed, grace, now);
  }

  lemma OtherKeepsMarked(cfg: Config, w: World, e: Event, now: int, k: ObjectKey, t: int)
    requires !Sweeps(e) && !Records(cfg, w, e, k) && MarkedOrGone(w, k, t)
    ensures MarkedOrGone(Step(cfg, w, e, now), k, t)
  {
    hide GcPass;
    OnlyRecordingRewrites(cfg, w, e, now, k);
    if k !in w.db.objects { OtherAddsNothing(cfg, w, e, now, k); }
  }

  lemma OtherAddsNothing(cfg: Config, w: World, e: Event, now: int, k: ObjectKey)
    requires !Sweeps(e) && !Records(cfg, w, e, k) && k !in w.blobs
    ensures k !in Step(cfg, w, e, now).blobs
  {
    hide GcPass;
    if e.Collect? {
      StepCollects(cfg, w, e.dryRun, e.grace, e.failing, now);
      DryPass(cfg, w, e.grace, e.failing, now);
    } else if !e.Upload? && !e.Complete? {
      OtherBlobs(cfg, w, e, now);
    }
  }

  /** The `n`-th event is a pass that no backend stops. */
  ghost predicate PassSucceeds(cfg: Config, run: Run, n: nat)
    requires |run.worlds| == |run.events| + 1 && n < |run.events|
  {
    var e := run.events[n].event;
    Sweeps(e) && GcPass(cfg, run.worlds[n], e.dryRun, e.grace, e.failing, run.events[n].at).1.Ok?
  }

  lemma MarksArePast(cfg: Config, run: Run, n: nat, k: ObjectKey)
    requires IsRun(cfg, run) && n < |run.events| && k in run.worlds[n].db.objects
    ensures run.worlds[n].db.objects[k].firstDeletedAt.GetOr(run.events[n].at) <= run.events[n].at
  {
    ReachableInvariant(cfg, run, n, run.events[n].at);
  }

  lemma SweepKeepsMarked(cfg: Config, run: Run, n: nat, k: ObjectKey, t: int)
    requires IsRun(cfg, run) && n < |run.events| && FoundDead(cfg, run, n, k.path)
    requires var w := run.worlds[n];
             if k in w.db.objects then w.db.objects[k].firstDeletedAt.GetOr(run.events[n].at) <= t else k !in w.blobs
    ensures MarkedOrGone(run.worlds[n + 1], k, t)
  {
    hide GcPass;
    var e := run.events[n].event;
    EventIsPass(cfg, run, n);
    PassKeepsMarked(cfg, run.worlds[n], e.grace, e.failing, run.events[n].at, k, t);
  }

  lemma EventKeepsMarked(cfg: Config, run: Run, n: nat, k: ObjectKey, t: int)
    requires IsRun(cfg, run) && n < |run.events| && MarkedOrGone(run.worlds[n], k, t)
    requires Condemned(cfg, run, n, k) && !RecordedAt(cfg, run, n, k)
    ensures MarkedOrGone(run.worlds[n + 1], k, t)
  {
    if Sweeps(run.events[n].event) {
      SweepKeepsMarked(cfg, run, n, k, t);
    } else {
      assert StepAt(cfg, run, n);
      OtherKeepsMarked(cfg, run.worlds[n], run.events[n].event, run.events[n].at, k, t);
    }
  }

  /** From pass `m`, which found the object dead, to event `n` every pass found it dead and no request recorded it. */
  ghost predicate Abandoned(cfg: Config, run: Run, m: nat, n: nat, k: ObjectKey)
    requires |run.worlds| == |run.events| + 1 && m <= n <= |run.events|
  {
    && m < |run.events| && FoundDead(cfg, run, m, k.path)
    && forall i :: m <= i < n ==> Condemned(cfg, run, i, k) && !RecordedAt(cfg, run, i, k)
  }

  lemma {:induction false} AbandonedStaysMarked(cfg: Config, run: Run, m: nat, n: nat, k: ObjectKey)
    requires IsRun(cfg, run) && m < n <= |run.events| && k in run.worlds[m].db.objects && Abandoned(cfg, run, m, n, k)
    ensures MarkedOrGone(run.worlds[n], k, run.events[m].at)
    decreases n
  {
    hide FoundDead, RecordedAt, MarkedOrGone;
    if n == m + 1 {
      MarksArePast(cfg, run, m, k);
      SweepKeepsMarked(cfg, run, m, k, run.events[m].at);
    } else {
      assert Condemned(cfg, run, n - 1, k) && !RecordedAt(cfg, run, n - 1, k);
      AbandonedStaysMarked(cfg, run, m, n - 1, k);
      EventKeepsMarked(cfg, run, n - 1, k, run.events[m].at);
    }
  }

  lemma SweepCollects(cfg: Config, run: Run, n: nat, k: ObjectKey)
    requires IsRun(cfg, run) && n < |run.events| && FoundDead(cfg, run, n, k.path) && PassSucceeds(cfg, run, n)
    requires k.storageId in cfg.backends
    requires var w := run.worlds[n];
             if k in w.db.objects then
               w.db.objects[k].firstDeletedAt.GetOr(run.events[n].at) / 1000
               <= run.events[n].at / 1000 - run.events[n].event.grace
             else k !in w.blobs
    ensures k !in run.worlds[n + 1].db.objects && k !in run.worlds[n + 1].blobs
  {
    hide GcPass;
    var e := run.events[n].event;
    EventIsPass(cfg, run, n);
    PassCollects(cfg, run.worlds[n], e.grace, e.failing, run.events[n].at, k);
  }

  /**
   The converse: over every run, an object in a configured backend that a pass found dead, that every pass since found
   dead too and that no request recorded, is gone, row and bytes, after a pass at least its grace period later, in
   whole seconds, that no backend stops.
   */
  lemma DeadIsCollected(cfg: Config, run: Run, m: nat, n: nat, k: ObjectKey)
    requires IsRun(cfg, run) && m <= n < |run.events| && k in run.worlds[m].db.objects && k.storageId in cfg.backends
    requires Abandoned(cfg, run, m, n, k) && FoundDead(cfg, run, n, k.path) && PassSucceeds(cfg, run, n)
    requires run.events[m].at / 1000 <= run.events[n].at / 1000 - run.events[n].event.grace
    ensures k !in run.worlds[n + 1].db.objects && k !in run.worlds[n + 1].blobs
  {
    if m == n {
      MarksArePast(cfg, run, n, k);
    } else {
      AbandonedStaysMarked(cfg, run, m, n, k);
    }
    SweepCollects(cfg, run, n, k);
  }

  /** In milliseconds, one second more than the grace period is enough. */
  lemma DeadIsCollectedInTime(cfg: Config, run: Run, m: nat, n: nat, k: ObjectKey)
    requires IsRun(cfg, run) && m <= n < |run.events| && k in run.worlds[m].db.objects && k.storageId in cfg.backends
    requires Abandoned(cfg, run, m, n, k) && FoundDead(cfg, run, n, k.path) && PassSucceeds(cfg, run, n)
    requires run.events[n].at - run.events[m].at >= 1000 * (run.events[n].event.grace + 1)
    ensures k !in run.worlds[n + 1].db.objects && k !in run.worlds[n + 1].blobs
  {
    GraceInMilliseconds(run.events[m].at, run.events[n].event.grace, run.events[n].at);
    DeadIsCollected(cfg, run, m, n, k);
  }

  /** With the default grace period, six hours and a second are enough. */
  lemma DeadIsCollectedAfterSixHours(cfg: Config, run: Run, m: nat, n: nat, k: ObjectKey)
    requires IsRun(cfg, run) && m <= n < |run.events| && k in run.worlds[m].db.objects && k.storageId in cfg.backends
    requires Abandoned(cfg, run, m, n, k) && FoundDead(cfg, run, n, k.path) && PassSucceeds(cfg, run, n)
    requires run.events[n].event.grace == 21600
    requires run.events[n].at - run.events[m].at >= 21601000
    ensures k !in run.worlds[n + 1].db.objects && k !in run.worlds[n + 1].blobs
  {
    DeadIsCollectedInTime(cfg, run, m, n, k);
  }

  /**
   So over every run a pass that no backend stops deletes a row exactly when its backend is configured and its grace
   is kept.
   */
  lemma RowGoesExactly(cfg: Config, run: Run, n: nat, k: ObjectKey)
    requires IsRun(cfg, run) && n < |run.events| && PassSucceeds(cfg, run, n) && k in run.worlds[n].db.objects
    ensures k !in run.worlds[n + 1].db.objects
            <==> k.storageId in cfg.backends && exists m :: 0 <= m <= n && GraceKept(cfg, run, m, n, k)
  {
    hide GraceKept, GcPass;
    if k !in run.worlds[n + 1].db.objects {
      ReachableInvariant(cfg, run, n, run.events[n].at);
      assert StepAt(cfg, run, n);
      OnlyPassesDelete(cfg, run.worlds[n], run.events[n].event, run.events[n].at, k);
      var m := DeletedAfterGrace(cfg, run, n, k);
    } else if k.storageId in cfg.backends {
      forall m | 0 <= m <= n ensures !GraceKept(cfg, run, m, n, k) {
        if GraceKept(cfg, run, m, n, k) { GraceKeptGoes(cfg, run, m, n, k); }
      }
    }
  }

  lemma GraceKeptGoes(cfg: Config, run: Run, m: nat, n: nat, k: ObjectKey)
    requires IsRun(cfg, run) && m <= n < |run.events| && PassSucceeds(cfg, run, n) && k in run.worlds[n].db.objects
    requires k.storageId in cfg.backends && GraceKept(cfg, run, m, n, k)
    ensures k !in run.worlds[n + 1].db.objects
  {
    if m == n { MarksArePast(cfg, run, n, k); } else { assert StampedAt(run.worlds[n], k, run.events[m].at); }
    SweepCollects(cfg, run, n, k);
  }
}
