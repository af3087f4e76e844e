/** The documents a reader gets, for published paths and for paths passed on from upstream
    (crates/depot-read/src/service.rs, crates/depot-db/src/paths.rs). */
module ServedNarInfos {
  import opened Wrappers
  import opened Text
  import opened NixHash
  import opened NarInfo
  import opened NarInfoRoundTrip
  import opened Signing
  import opened Validation
  import opened Tables
  import opened ReadStore
  import opened Runs
  import opened Progression
  import opened Metadata
  import opened ServedRefs

  /** `get_project_narinfo` and `get_aggregate_narinfo`. */
  function ResolveNarInfo(db: Db, view: View, h: string): (r: Option<NarInfo>) {
    if h in VisiblePaths(db, view) && h in db.paths then Some(db.paths[h]) else None
  }

  /** `signing_keys_for_view`: a project's own key, if it has one, and then the aggregate key. */
  function SigningKeysFor(view: View, projectKey: Option<SigningKey>, aggregateKey: Option<SigningKey>)
    : (r: seq<SigningKey>)
  {
    (if view.ProjectView? && projectKey.Some? then [projectKey.value] else [])
    + (if aggregateKey.Some? then [aggregateKey.value] else [])
  }

  /** `render_signed_narinfo`. */
  function Signed(n: NarInfo, keys: seq<SigningKey>, dir: StoreDir): (r: Result<Option<string>, ServeError>) {
    if Fingerprint(n, dir).Err? then Err(Unsigned(Fingerprint(n, dir).error)) else Ok(Some(Served(n, keys, dir)))
  }

  /** The first upstream that answers decides, even when its answer cannot be read. */
  function FromUpstreams(texts: seq<Option<string>>, keys: seq<SigningKey>, dir: StoreDir)
    : (r: Result<Option<string>, ServeError>)
  {
    if texts == [] then Ok(None)
    else match texts[0]
      case None => FromUpstreams(texts[1..], keys, dir)
      case Some(text) =>
        match Parse(text, dir)
        case Err(e) => Err(Unreadable(e))
        case Ok(n) => Signed(n, keys, dir)
  }

  /** `render_narinfo`, with what the resolver and the upstreams answer. */
  method RenderNarInfo(view: View, local: Option<NarInfo>, texts: seq<Option<string>>, projectKey: Option<SigningKey>,
                       aggregateKey: Option<SigningKey>, dir: StoreDir)
    returns (r: Result<Option<string>, ServeError>)
    ensures var keys := SigningKeysFor(view, projectKey, aggregateKey);
            r == if local.Some? then Signed(local.value, keys, dir) else FromUpstreams(texts, keys, dir)
  {
    var keys := SigningKeysFor(view, projectKey, aggregateKey);
    if local.Some? {
      r := SignedText(local.value, keys, dir);
      return;
    }
    for i := 0 to |texts|
      invariant FromUpstreams(texts, keys, dir) == FromUpstreams(texts[i..], keys, dir)
    {
      assert texts[i..][0] == texts[i] && texts[i..][1..] == texts[i + 1..];
      if texts[i].Some? {
        var parsed := ParseNarInfo(texts[i].value, dir);
        if parsed.Err? {
          return Err(Unreadable(parsed.error));
        }
        r := SignedText(parsed.value, keys, dir);
        return;
      }
    }
    return Ok(None);
  }

  method SignedText(n: NarInfo, keys: seq<SigningKey>, dir: StoreDir) returns (r: Result<Option<string>, ServeError>)
    ensures r == Signed(n, keys, dir)
  {
    var text := RenderSigned(n, keys, dir);
    match text {
      case Err(e) => return Err(e);
      case Ok(t) => return Ok(Some(t));
    }
  }

  // ---- Passing upstream documents on ----

  /** The depot's own signatures fit on one line. */
  predicate PlainSignatures(keys: seq<SigningKey>, message: string) {
    forall i :: 0 <= i < |keys| ==> OneLine(keys[i].SignMessage(message))
  }

  lemma CanonicalIsClean(n: NarInfo, signatures: seq<string>, more: seq<string>, dir: StoreDir)
    requires n.narHash.Normalize().Ok? && Clean(n, signatures, dir) && forall s :: s in more ==> OneLine(s)
    ensures Clean(Canonical(n, signatures), SortText(signatures) + more, dir)
  {
    SortTextProperties(n.references);
    SortTextProperties(signatures);
  }

  /**
   A document that upstream rendered and signed, passed on by the depot and parsed by the reader, has
   the signed text that upstream signed, all of upstream's signatures, one by each key of the depot
   over that same text, and no others.
   */
  lemma RelayedSignaturesStayValid(n: NarInfo, signatures: seq<string>, keys: seq<SigningKey>, dir: StoreDir)
    requires Fingerprint(n, dir).Ok? && IsSha256Digest(n.narHash.Normalize().value.digest)
    requires Clean(n, signatures, dir) && PlainSignatures(keys, Fingerprint(n, dir).value)
    ensures var r := FromUpstreams([Some(Render(n, signatures, dir).value)], keys, dir);
            && r.Ok? && r.value.Some? && Parse(r.value.value, dir).Ok?
            && var m := Parse(r.value.value, dir).value;
               && Fingerprint(m, dir) == Fingerprint(n, dir)
               && multiset(m.signatures) == multiset(signatures) + multiset(SignWith(keys, Fingerprint(n, dir).value))
  {
    var c, message := Canonical(n, signatures), Fingerprint(n, dir).value;
    var local := SignWith(keys, message);
    ParseRendered(n, signatures, dir);
    FingerprintOfCanonical(n, signatures, dir);
    SortTextProperties(signatures);
    CanonicalIsClean(n, signatures, local, dir);
    CanonicalDigest(n, signatures);
    RelayedDocument(c, keys, dir);
    assert multiset(SortText(signatures) + local) == multiset(signatures) + multiset(local);
  }

  lemma CanonicalDigest(n: NarInfo, signatures: seq<string>)
    requires n.narHash.Normalize().Ok? && IsSha256Digest(n.narHash.Normalize().value.digest)
    ensures Canonical(n, signatures).narHash.Normalize() == n.narHash.Normalize()
  {
    NormalizeRendered(n.narHash.Normalize().value);
  }

  lemma RelayedDocument(c: NarInfo, keys: seq<SigningKey>, dir: StoreDir)
    requires Fingerprint(c, dir).Ok? && IsSha256Digest(c.narHash.Normalize().value.digest)
    requires Clean(c, AllSignatures(c, keys, dir), dir)
    ensures Signed(c, keys, dir) == Ok(Some(Served(c, keys, dir))) && Parse(Served(c, keys, dir), dir).Ok?
    ensures var m := Parse(Served(c, keys, dir), dir).value;
            Fingerprint(m, dir) == Fingerprint(c, dir) && multiset(m.signatures) == multiset(AllSignatures(c, keys, dir))
  {
    ServedSignaturesStayValid(c, keys, dir);
  }

  // ---- Published documents ----

  lemma NamedIsVisible(db: Db, view: View, key: RefKey, b: string, h: string)
    requires Names(db, key, b) && BuildPath(b, h) in db.buildPaths && RefVisible(db, view, key)
    ensures h in VisiblePaths(db, view)
  {
    assert BuildPath(b, h).storePathHash == h;
  }

  /** What a project publishes is visible in its own view, and in the view of all public projects exactly when it is public. */
  lemma PublishedIsVisible(cfg: Config, run: Run, m: nat, key: RefKey, b: string)
    requires IsRun(cfg, run) && m < |run.events| && Publishes(cfg, run, m, key, b)
    ensures RefVisible(run.worlds[m].db, ProjectView(key.project), key)
    ensures RefVisible(run.worlds[m].db, AggregateView, key) <==> run.worlds[m].db.projects[key.project].isPublic
  {}

  /**
   Over every run: as long as a ref names a build, each path of the build resolves in every view that shows the
   ref to the row that it had when the build was published, whatever was collected or registered since.
   */
  lemma PublishedPathsResolve(cfg: Config, run: Run, m: nat, n: nat, view: View, key: RefKey, b: string, h: string)
    requires IsRun(cfg, run) && m < n <= |run.events| && Publishes(cfg, run, m, key, b)
    requires BuildPath(b, h) in run.worlds[m].db.buildPaths && h in run.worlds[m].db.paths
    requires Names(run.worlds[n].db, key, b) && RefVisible(run.worlds[m].db, view, key)
    ensures ResolveNarInfo(run.worlds[n].db, view, h) == Some(run.worlds[m].db.paths[h])
  {
    RunGrows(cfg, run, m, n);
    NamedIsVisible(run.worlds[n].db, view, key, b, h);
  }

  lemma RowIsSigned(cfg: Config, run: Run, n: nat, h: string)
    requires IsRun(cfg, run) && n <= |run.events| && h in run.worlds[n].db.paths
    ensures var row := run.worlds[n].db.paths[h];
            Fingerprint(row, cfg.storeDir).Ok? && IsSha256Digest(row.narHash.Normalize().value.digest)
  {
    ReachableRows(cfg, run, n);
    AcceptedHasFingerprint(cfg.storeDir, run.worlds[n].db.paths[h]);
    AcceptedDigest(cfg.storeDir, run.worlds[n].db.paths[h]);
  }

  lemma AcceptedDigest(dir: StoreDir, n: NarInfo)
    requires ValidatePublish(dir, n).Ok?
    ensures n.narHash.Normalize().Ok? && IsSha256Digest(n.narHash.Normalize().value.digest)
  {
    AcceptedIsAddressed(dir, n);
  }

  /**
   Over every run: what a reader parses for such a path has the signed text of the published row,
   all of the row's signatures and the depot's.
   */
  lemma PublishedSignaturesStayValid(cfg: Config, run: Run, m: nat, n: nat, view: View, key: RefKey, b: string, h: string,
                                     keys: seq<SigningKey>)
    requires IsRun(cfg, run) && m < n <= |run.events| && Publishes(cfg, run, m, key, b)
    requires BuildPath(b, h) in run.worlds[m].db.buildPaths && h in run.worlds[m].db.paths
    requires Names(run.worlds[n].db, key, b) && RefVisible(run.worlds[m].db, view, key)
    requires var row := run.worlds[m].db.paths[h];
             Fingerprint(row, cfg.storeDir).Ok? ==> Clean(row, AllSignatures(row, keys, cfg.storeDir), cfg.storeDir)
    ensures var local, row := ResolveNarInfo(run.worlds[n].db, view, h), run.worlds[m].db.paths[h];
            && local.Some? && Fingerprint(row, cfg.storeDir).Ok?
            && var r := Signed(local.value, keys, cfg.storeDir);
               && r.Ok? && r.value.Some? && Parse(r.value.value, cfg.storeDir).Ok?
               && var d := Parse(r.value.value, cfg.storeDir).value;
                  && Fingerprint(d, cfg.storeDir) == Fingerprint(row, cfg.storeDir)
                  && multiset(d.signatures)
                     == multiset(row.signatures + SignWith(keys, Fingerprint(row, cfg.storeDir).value))
  {
    PublishedPathsResolve(cfg, run, m, n, view, key, b, h);
    RowIsSigned(cfg, run, m, h);
    RelayedDocument(run.worlds[m].db.paths[h], keys, cfg.storeDir);
  }
}
