/** Registering a path again, and what links and rows say in every reachable world. */
module Metadata {
  import opened Wrappers
  import opened Ordering
  import opened Text
  import opened NixHash
  import opened DepotPath
  import opened NarInfo
  import opened Signing
  import opened Validation
  import opened Tables
  import opened Ingest
  import opened Runs

  lemma SameElementsSortEqually(a: seq<string>, b: seq<string>)
    requires multiset(a) == multiset(b)
    ensures SortText(a) == SortText(b)
  {
    LeqIsTotalOrder();
    SortPermutation(a, b, Leq);
  }

  /** A document is compatible with a row exactly when it has the row's content up to spelling and order. */
  lemma CompatibleExactly(existing: NarInfo, n: NarInfo)
    requires existing.narHash.Normalize().Ok? && n.narHash.Normalize().Ok?
    ensures EnsureCompatible(existing, n).Ok? <==> SameContent(existing, n)
  {
    if SameContent(existing, n) {
      SameElementsSortEqually(existing.references, n.references);
    } else if EnsureCompatible(existing, n).Ok? {
      CompatibleContent(existing, n);
    }
  }

  lemma {:induction false} NoneOutside(dir: StoreDir, refs: seq<string>)
    requires forall p :: p in refs ==> StorePathInside(dir, p)
    ensures FirstOutside(dir, refs).None?
  {}

  lemma AcceptedHasFingerprint(dir: StoreDir, n: NarInfo)
    requires ValidatePublish(dir, n).Ok?
    ensures Fingerprint(n, dir).Ok?
  {
    AcceptedIsAddressed(dir, n);
    NoneOutside(dir, n.references);
  }

  // ---- What a fingerprint does not tell apart ----

  lemma {:induction false} AfterLastSkips(front: string, back: string, c: char)
    requires c in back
    ensures AfterLast(front + back, c) == AfterLast(back, c)
  {
    var s := front + back;
    assert s[|s| - 1] == back[|back| - 1];
    if back[|back| - 1] != c {
      assert s[..|s| - 1] == front + back[..|back| - 1];
      AfterLastSkips(front, back[..|back| - 1], c);
    }
  }

  lemma Regrouped(a: string, b: string, c: string)
    ensures a + (b + c) == a + b + c
  {}

  lemma {:induction false} JoinEndsWithLast(parts: seq<string>, sep: char) returns (front: string)
    requires parts != []
    ensures Join(parts, sep) == front + parts[|parts| - 1]
  {
    if |parts| == 1 {
      front := [];
    } else {
      var rest := JoinEndsWithLast(parts[1..], sep);
      front := parts[0] + [sep] + rest;
      Regrouped(parts[0] + [sep], rest, parts[|parts| - 1]);
    }
  }

  lemma ExtendedInside(dir: StoreDir, path: string, rest: string)
    requires ContainsPath(dir, path)
    ensures ContainsPath(dir, path + [','] + rest) <==> path != dir
  {
    if path == dir {
      assert path + [','] + rest == dir + ([','] + rest);
      StripPrefixOf(dir, [','] + rest);
    } else {
      var inner := StripPrefix(path, dir).value;
      assert path + [','] + rest == dir + (inner + [','] + rest);
      StripPrefixOf(dir, inner + [','] + rest);
    }
  }

  lemma JoinedIsStorePath(dir: StoreDir, paths: seq<string>)
    requires |paths| >= 2 && forall p :: p in paths ==> StorePathInside(dir, p)
    ensures StorePathInside(dir, Join(paths, ',')) <==> paths[0] != dir
  {
    var last := paths[|paths| - 1];
    var front := JoinEndsWithLast(paths, ',');
    assert last in paths && paths[0] in paths;
    assert '/' in last by { assert ContainsPath(dir, last); }
    AfterLastSkips(front, last, '/');
    ExtendedInside(dir, paths[0], Join(paths[1..], ','));
  }

  /**
   Joining the references of an accepted document with two or more of them gives another document with the same
   fingerprint and other references, and that one is accepted too unless the store directory itself is among them.
   */
  lemma JoinedReferencesCollide(dir: StoreDir, n: NarInfo)
    requires ValidatePublish(dir, n).Ok? && |n.references| >= 2
    ensures var joined := n.(references := [Join(SortText(n.references), ',')]);
            && multiset(joined.references) != multiset(n.references)
            && (ValidatePublish(dir, joined).Ok? <==> SortText(n.references)[0] != dir)
            && (ValidatePublish(dir, joined).Ok? ==>
                  Fingerprint(n, dir).Ok? && Fingerprint(joined, dir) == Fingerprint(n, dir))
  {
    var paths := SortText(n.references);
    var joined := n.(references := [Join(paths, ',')]);
    SortTextProperties(n.references);
    SortTextProperties(joined.references);
    AcceptedIsAddressed(dir, n);
    JoinedIsStorePath(dir, paths);
    assert |multiset(joined.references)| == 1 && |multiset(n.references)| >= 2;
    JoinedIsAccepted(dir, n, joined);
    if ValidatePublish(dir, joined).Ok? {
      AcceptedHasFingerprint(dir, n);
      AcceptedHasFingerprint(dir, joined);
      assert SortText(joined.references) == joined.references;
    }
  }

  lemma JoinedIsAccepted(dir: StoreDir, n: NarInfo, joined: NarInfo)
    requires ValidatePublish(dir, n).Ok? && |joined.references| == 1 && joined == n.(references := joined.references)
    ensures ValidatePublish(dir, joined).Ok? <==> StorePathInside(dir, joined.references[0])
  {
    hide ValidatePublish, StorePathInside, States;
    AcceptedExactly(dir, n);
    AcceptedExactly(dir, joined);
    var digest, c :| States(n, digest, c) && IsSha256Digest(digest) && n.url == PrintNar(digest, c);
    SameStatement(n, joined, digest, c);
  }

  lemma SameStatement(a: NarInfo, b: NarInfo, digest: string, c: Compression)
    requires a.narHash == b.narHash && a.compression == b.compression
    ensures States(a, digest, c) <==> States(b, digest, c)
  {}

  lemma SameContentSameFingerprint(dir: StoreDir, a: NarInfo, b: NarInfo)
    requires SameContent(a, b) && ValidatePublish(dir, b).Ok?
    ensures Fingerprint(b, dir).Ok? && Fingerprint(a, dir) == Fingerprint(b, dir)
  {
    AcceptedHasFingerprint(dir, b);
    FingerprintIgnoresOrder(b, a, dir);
  }

  /**
   Registering a path that has a row succeeds exactly for a document of the same content, writes
   nothing, and then the document and the row have the same signed text.
   */
  lemma RegisteredAgain(cfg: Config, db: Db, n: NarInfo, h: string)
    requires h in db.paths && GoodRow(cfg, h, db.paths[h]) && ValidatePublish(cfg.storeDir, n) == Ok(h)
    ensures UpsertPathInfo(db, n).Ok? <==> SameContent(db.paths[h], n)
    ensures UpsertPathInfo(db, n).Ok? ==>
              && UpsertPathInfo(db, n).value == db
              && Fingerprint(n, cfg.storeDir).Ok?
              && Fingerprint(n, cfg.storeDir) == Fingerprint(db.paths[h], cfg.storeDir)
  {
    AcceptedIsAddressed(cfg.storeDir, n);
    CompatibleExactly(db.paths[h], n);
    if SameContent(db.paths[h], n) { SameContentSameFingerprint(cfg.storeDir, db.paths[h], n); }
  }

  /** The row that a first registration leaves has the signed text of its document. */
  lemma RegisteredFirst(cfg: Config, db: Db, n: NarInfo, h: string)
    requires h !in db.paths && ValidatePublish(cfg.storeDir, n) == Ok(h) && UpsertPathInfo(db, n).Ok?
    ensures var row := UpsertPathInfo(db, n).value.paths;
            && h in row && Fingerprint(n, cfg.storeDir).Ok?
            && Fingerprint(row[h], cfg.storeDir) == Fingerprint(n, cfg.storeDir)
            && row[h].signatures == n.signatures && row[h].references == n.references
  {
    UpsertFrame(cfg, db, n, h);
    UpsertContent(cfg, db, n, h);
    SameContentSameFingerprint(cfg.storeDir, UpsertPathInfo(db, n).value.paths[h], n);
  }

  /**
   Over every run: once a path has a row, a later registration of the path succeeds exactly for the
   content of that first row, changes nothing, and has the first row's signed text.
   */
  lemma RowDecidesForever(cfg: Config, run: Run, m: nat, n: nat, doc: NarInfo, h: string)
    requires IsRun(cfg, run) && m <= n <= |run.events|
    requires h in run.worlds[m].db.paths && ValidatePublish(cfg.storeDir, doc) == Ok(h)
    ensures var row, db := run.worlds[m].db.paths[h], run.worlds[n].db;
            && (UpsertPathInfo(db, doc).Ok? <==> SameContent(row, doc))
            && (UpsertPathInfo(db, doc).Ok? ==>
                  && UpsertPathInfo(db, doc).value == db
                  && Fingerprint(doc, cfg.storeDir).Ok?
                  && Fingerprint(doc, cfg.storeDir) == Fingerprint(row, cfg.storeDir))
  {
    RowsAreWriteOnce(cfg, run, m, n);
    ReachableRows(cfg, run, n);
    RegisteredAgain(cfg, run.worlds[n].db, doc, h);
  }

  /**
   In every reachable world a link is a NAR link, carries the URL of its path's row, and that row
   validates again under its own hash; so the URL is the printed digest and compression of the row.
   */
  lemma LinksCarryRegisteredUrls(cfg: Config, run: Run, n: nat, o: PathObject)
    requires IsRun(cfg, run) && n <= |run.events| && o in run.worlds[n].db.pathObjects
    ensures var paths := run.worlds[n].db.paths;
            && o.kind == NarObject && o.storePathHash in paths && o.path == paths[o.storePathHash].url
            && ValidatePublish(cfg.storeDir, paths[o.storePathHash]) == Ok(o.storePathHash)
            && ContentAddressed(paths[o.storePathHash])
  {
    ReachableInvariant(cfg, run, n, if n == 0 then 0 else run.events[n - 1].at + 1);
    ReachableRows(cfg, run, n);
    AcceptedIsAddressed(cfg.storeDir, run.worlds[n].db.paths[o.storePathHash]);
  }
}
