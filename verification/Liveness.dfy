/** Roots, the closure of the roots over references, and the objects of live paths (crates/depot-db/src/gc.rs). */
module Liveness {
  import opened Tables
  import opened NarInfo
  import opened Retention

  type Paths = map<string, NarInfo>

  /** Path `a` lists the store path of the registered path `b` among its references. */
  predicate Refers(paths: Paths, a: string, b: string) {
    a in paths && b in paths && paths[b].storePath in paths[a].references
  }

  ghost predicate Chain(paths: Paths, trace: seq<string>) {
    && trace != []
    && (forall i :: 0 <= i < |trace| ==> trace[i] in paths)
    && forall i :: 0 < i < |trace| ==> Refers(paths, trace[i - 1], trace[i])
  }

  ghost predicate Reached(paths: Paths, roots: set<string>, h: string) {
    exists trace :: ReachedBy(paths, roots, h, trace)
  }

  ghost predicate ReachedBy(paths: Paths, roots: set<string>, h: string, trace: seq<string>) {
    Chain(paths, trace) && trace[0] in roots && trace[|trace| - 1] == h
  }

  /** The registered paths reachable by references from registered roots. */
  ghost function Live(paths: Paths, roots: set<string>): (r: set<string>) {
    set h | h in paths && Reached(paths, roots, h)
  }

  ghost predicate Closed(paths: Paths, s: set<string>) {
    forall a, b :: a in s && Refers(paths, a, b) ==> b in s
  }

  lemma RootsAreLive(paths: Paths, roots: set<string>)
    ensures roots * paths.Keys <= Live(paths, roots)
  {
    forall h | h in roots && h in paths ensures h in Live(paths, roots) {
      assert ReachedBy(paths, roots, h, [h]);
    }
  }

  lemma LiveIsClosed(paths: Paths, roots: set<string>)
    ensures Closed(paths, Live(paths, roots))
  {
    forall a, b | a in Live(paths, roots) && Refers(paths, a, b) ensures b in Live(paths, roots) {
      var trace :| ReachedBy(paths, roots, a, trace);
      assert ReachedBy(paths, roots, b, trace + [b]);
    }
  }

  lemma {:induction false} ClosedContainsTrace(paths: Paths, s: set<string>, trace: seq<string>, i: nat)
    requires Closed(paths, s) && Chain(paths, trace) && trace[0] in s && i < |trace|
    ensures trace[i] in s
  {
    if i > 0 {
      ClosedContainsTrace(paths, s, trace, i - 1);
      assert Refers(paths, trace[i - 1], trace[i]);
    }
  }

  /** The live set is the least set that holds the registered roots and is closed under references. */
  lemma LiveIsLeast(paths: Paths, roots: set<string>, s: set<string>)
    requires roots * paths.Keys <= s && Closed(paths, s)
    ensures Live(paths, roots) <= s
  {
    forall h | h in Live(paths, roots) ensures h in s {
      var trace :| ReachedBy(paths, roots, h, trace);
      ClosedContainsTrace(paths, s, trace, |trace| - 1);
    }
  }

  /** More roots, more paths or more references never make a path dead. */
  lemma LiveIsMonotone(p: Paths, q: Paths, roots: set<string>, more: set<string>)
    requires roots <= more && p.Keys <= q.Keys
    requires forall a, b :: Refers(p, a, b) ==> Refers(q, a, b)
    ensures Live(p, roots) <= Live(q, more)
  {
    RootsAreLive(q, more);
    LiveIsClosed(q, more);
    LiveIsLeast(p, roots, Live(q, more));
  }

  /** The recursive query: takes paths off a queue and adds the registered paths they refer to. */
  method LivePathHashes(paths: Paths, roots: set<string>) returns (live: set<string>)
    ensures live == Live(paths, roots)
  {
    live := roots * paths.Keys;
    var queue := live;
    RootsAreLive(paths, roots);
    LiveIsClosed(paths, roots);
    while queue != {}
      invariant queue <= live <= paths.Keys
      invariant roots * paths.Keys <= live <= Live(paths, roots)
      invariant forall a, b :: a in live - queue && Refers(paths, a, b) ==> b in live
      decreases paths.Keys - live, queue
    {
      var h :| h in queue;
      var found := set b | b in paths && b !in live && Refers(paths, h, b);
      ghost var before := live;
      live := live + found;
      queue := queue - {h} + found;
      if found != {} {
        var b :| b in found;
        assert b in paths.Keys - before;
        assert paths.Keys - live < paths.Keys - before;
      } else {
        assert live == before;
      }
    }
    LiveIsLeast(paths, roots, live);
  }

  predicate IsPending(db: Db, id: string) {
    id in db.builds && db.builds[id].status == Pending
  }

  /** `list_root_store_path_hashes`: the paths of retained builds, of pending builds, and pinned paths. */
  ghost function Roots(cfg: Config, db: Db, now: int): (r: set<string>) {
    (set bp | bp in db.buildPaths && bp.buildId in RetainedBuilds(cfg, db, now) :: bp.storePathHash)
    + PendingPaths(db) + PinnedPaths(db)
  }

  function PendingPaths(db: Db): (r: set<string>) {
    set bp | bp in db.buildPaths && IsPending(db, bp.buildId) :: bp.storePathHash
  }

  function PinnedPaths(db: Db): (r: set<string>) {
    set k | k in db.pins :: db.pins[k].storePathHash
  }

  ghost function LivePaths(cfg: Config, db: Db, now: int): (r: set<string>) {
    Live(db.paths, Roots(cfg, db, now))
  }

  /** The paths of the objects linked to live paths. */
  ghost function LiveObjects(cfg: Config, db: Db, now: int): (r: set<string>) {
    ObjectsOf(db, LivePaths(cfg, db, now))
  }

  function ObjectsOf(db: Db, paths: set<string>): (r: set<string>) {
    set o | o in db.pathObjects && o.storePathHash in paths :: o.path
  }

  /** Roots and live sets do not depend on the object rows. */
  lemma ObjectsDoNotMatter(cfg: Config, db: Db, objects: map<ObjectKey, ObjectRow>, now: int)
    ensures LiveObjects(cfg, db.(objects := objects), now) == LiveObjects(cfg, db, now)
  {
    var other := db.(objects := objects);
    SameRetention(cfg, db, other, now);
    assert Roots(cfg, other, now) == Roots(cfg, db, now) by {
      assert forall id :: IsPending(other, id) == IsPending(db, id);
    }
    assert LivePaths(cfg, other, now) == LivePaths(cfg, db, now);
  }
}
