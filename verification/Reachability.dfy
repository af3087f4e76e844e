/** Which paths and objects are live, link by link (crates/depot-db/src/gc.rs). */
module Reachability {
  import opened Tables
  import opened NarInfo
  import opened Retention
  import opened KeptBuilds
  import opened Liveness

  /** Pinned, or attached to a pending build or to a build that its ref keeps. */
  ghost predicate IsNeeded(cfg: Config, db: Db, now: int, h: string) {
    || (exists p :: p in db.pins && db.pins[p].storePathHash == h)
    || (exists b :: b in db.builds && BuildPath(b, h) in db.buildPaths
                    && (db.builds[b].status == Pending || KeptByItsRef(cfg, db, now, b)))
  }

  lemma NeededExactly(cfg: Config, db: Db, now: int, h: string)
    ensures h in Roots(cfg, db, now) <==> IsNeeded(cfg, db, now, h)
  {
    forall b ensures b in RetainedBuilds(cfg, db, now) <==> KeptByItsRef(cfg, db, now, b) { RetainedInNumbers(cfg, db, now, b); }
    hide RetainedBuilds;
    if h in Roots(cfg, db, now) {
      if bp :| bp in db.buildPaths && bp.storePathHash == h
               && (bp.buildId in RetainedBuilds(cfg, db, now) || IsPending(db, bp.buildId)) {
        assert bp == BuildPath(bp.buildId, h);
        if bp.buildId in RetainedBuilds(cfg, db, now) { KeptHasKey(cfg, db, now, bp.buildId); }
      }
    }
    if b :| b in db.builds && BuildPath(b, h) in db.buildPaths
            && (db.builds[b].status == Pending || KeptByItsRef(cfg, db, now, b)) {
      assert BuildPath(b, h).buildId == b && BuildPath(b, h).storePathHash == h;
    }
  }

  /** Registered paths, each of which has the store path of the next among its references. */
  ghost predicate IsTrail(paths: map<string, NarInfo>, trail: seq<string>) {
    && |trail| > 0 && (forall i :: 0 <= i < |trail| ==> trail[i] in paths)
    && forall i :: 0 < i < |trail| ==> paths[trail[i]].storePath in paths[trail[i - 1]].references
  }

  lemma TrailIsChain(paths: map<string, NarInfo>, trail: seq<string>)
    ensures IsTrail(paths, trail) <==> Chain(paths, trail)
  {
    if Chain(paths, trail) {
      forall i | 0 < i < |trail| ensures paths[trail[i]].storePath in paths[trail[i - 1]].references {
        assert Refers(paths, trail[i - 1], trail[i]);
      }
    }
  }

  /** Live are exactly the paths at the end of a trail from a needed path. */
  lemma LiveExactly(cfg: Config, db: Db, now: int, h: string)
    ensures h in LivePaths(cfg, db, now)
            <==> exists trail :: IsTrail(db.paths, trail) && IsNeeded(cfg, db, now, trail[0]) && trail[|trail| - 1] == h
  {
    if h in LivePaths(cfg, db, now) {
      var trail :| ReachedBy(db.paths, Roots(cfg, db, now), h, trail);
      TrailIsChain(db.paths, trail);
      NeededExactly(cfg, db, now, trail[0]);
    }
    if trail :| IsTrail(db.paths, trail) && IsNeeded(cfg, db, now, trail[0]) && trail[|trail| - 1] == h {
      TrailIsChain(db.paths, trail);
      NeededExactly(cfg, db, now, trail[0]);
      assert ReachedBy(db.paths, Roots(cfg, db, now), h, trail);
    }
  }

  /** And an object is live exactly when it is linked to such a path. */
  lemma LiveObjectExactly(cfg: Config, db: Db, now: int, path: string)
    ensures path in LiveObjects(cfg, db, now)
            <==> exists o, trail ::
                   && o in db.pathObjects && o.path == path && IsTrail(db.paths, trail)
                   && IsNeeded(cfg, db, now, trail[0]) && trail[|trail| - 1] == o.storePathHash
  {
    if path in LiveObjects(cfg, db, now) {
      var o :| o in db.pathObjects && o.path == path && o.storePathHash in LivePaths(cfg, db, now);
      LiveExactly(cfg, db, now, o.storePathHash);
    }
    if o, trail :| o in db.pathObjects && o.path == path && IsTrail(db.paths, trail)
                   && IsNeeded(cfg, db, now, trail[0]) && trail[|trail| - 1] == o.storePathHash {
      LiveExactly(cfg, db, now, o.storePathHash);
    }
  }
}
