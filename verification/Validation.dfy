/** Which documents may be published, and which ones the pusher makes
    (crates/depot-core/src/validation.rs, crates/depot-push/src/nix.rs, crates/depot-api/src/builds.rs). */
module Validation {
  import opened Wrappers
  import opened Text
  import opened NixHash
  import opened DepotPath
  import opened NarInfo

  datatype PublishError =
    | StorePathOutsideStoreDir(path: string)
    | InvalidStorePathHash(path: string, pathError: StorePathHashError)
    | InvalidDepotObjectPath(url: string)
    | UrlIsNotNarObject(url: string)
    | UnsupportedCompression(compression: string)
    | CompressionMismatch(narinfoCompression: string, urlCompression: string)
    | InvalidHash(path: string, hashError: HashError)
    | UrlDoesNotMatchNarHash(actual: string, expected: string)
    | ReferenceOutsideStoreDir(path: string)
    | InvalidReferenceStorePath(path: string, pathError: StorePathHashError)
    | DeriverOutsideStoreDir(path: string)
    | InvalidDeriverStorePath(path: string, pathError: StorePathHashError)

  function ParseNarUrl(url: string): (r: Result<(string, Compression), PublishError>) {
    match ParseObjectPath(url)
    case Some(NarPath(digest, c)) => Ok((digest, c))
    case Some(_) => Err(UrlIsNotNarObject(url))
    case None => Err(InvalidDepotObjectPath(url))
  }

  predicate StorePathInside(dir: StoreDir, path: string) {
    ContainsPath(dir, path) && HashFromStorePath(path).Ok?
  }

  function CheckReferences(dir: StoreDir, refs: seq<string>): (r: Result<(), PublishError>)
    ensures r.Ok? <==> forall p :: p in refs ==> StorePathInside(dir, p)
  {
    if refs == [] then Ok(())
    else
      assert refs[0] in refs && refs == [refs[0]] + refs[1..];
      if !ContainsPath(dir, refs[0]) then Err(ReferenceOutsideStoreDir(refs[0]))
      else match HashFromStorePath(refs[0])
        case Err(e) => Err(InvalidReferenceStorePath(refs[0], e))
        case Ok(_) => CheckReferences(dir, refs[1..])
  }

  function CheckDeriver(dir: StoreDir, deriver: Option<string>): (r: Result<(), PublishError>)
    ensures r.Ok? <==> (deriver.Some? ==> StorePathInside(dir, deriver.value))
  {
    match deriver
    case None => Ok(())
    case Some(path) =>
      if !ContainsPath(dir, path) then Err(DeriverOutsideStoreDir(path))
      else match HashFromStorePath(path)
        case Err(e) => Err(InvalidDeriverStorePath(path, e))
        case Ok(_) => Ok(())
  }

  /** `validate_publish_narinfo`: the store path hash of an acceptable document, or the first objection. */
  function ValidatePublish(dir: StoreDir, n: NarInfo): (r: Result<string, PublishError>) {
    if !ContainsPath(dir, n.storePath) then Err(StorePathOutsideStoreDir(n.storePath))
    else match HashFromStorePath(n.storePath)
      case Err(e) => Err(InvalidStorePathHash(n.storePath, e))
      case Ok(storePathHash) =>
        var (urlDigest, urlCompression) :- ParseNarUrl(n.url);
        match ParseCompression(n.compression)
        case None => Err(UnsupportedCompression(n.compression))
        case Some(compression) =>
          if compression != urlCompression then Err(CompressionMismatch(n.compression, urlCompression.Name()))
          else match n.narHash.Normalize()
            case Err(e) => Err(InvalidHash(n.storePath, e))
            case Ok(hash) =>
              var expected := "nar/" + hash.digest + compression.Suffix();
              if n.url != expected || urlDigest != hash.digest then Err(UrlDoesNotMatchNarHash(n.url, expected))
              else
                var _ :- CheckReferences(dir, n.references);
                var _ :- CheckDeriver(dir, n.deriver);
                Ok(storePathHash)
  }

  /** The paths a document names are store paths of this store directory. */
  predicate PathsInside(dir: StoreDir, n: NarInfo) {
    && StorePathInside(dir, n.storePath)
    && (forall p :: p in n.references ==> StorePathInside(dir, p))
    && (n.deriver.Some? ==> StorePathInside(dir, n.deriver.value))
  }

  /** The hash and compression a document states, when it states both properly. */
  predicate States(n: NarInfo, digest: string, c: Compression) {
    n.narHash.Normalize() == Ok(NormalizedHash(Sha256, digest)) && ParseCompression(n.compression) == Some(c)
  }

  ghost predicate ContentAddressed(n: NarInfo) {
    exists digest, c :: States(n, digest, c) && IsSha256Digest(digest) && n.url == PrintNar(digest, c)
  }

  lemma AcceptedIsAddressed(dir: StoreDir, n: NarInfo)
    requires ValidatePublish(dir, n).Ok?
    ensures PathsInside(dir, n) && ContentAddressed(n)
    ensures HashFromStorePath(n.storePath) == Ok(ValidatePublish(dir, n).value)
  {
    PrintParsed(n.url);
    var digest, c := n.narHash.Normalize().value.digest, ParseCompression(n.compression).value;
    assert States(n, digest, c) && IsSha256Digest(digest) && n.url == PrintNar(digest, c);
  }

  lemma NarUrlOfPrinted(digest: string, c: Compression)
    requires IsSha256Digest(digest)
    ensures ParseNarUrl(PrintNar(digest, c)) == Ok((digest, c))
  {
    ParsePrinted(digest, c);
  }

  lemma NoObjection(dir: StoreDir, n: NarInfo, digest: string, c: Compression)
    requires PathsInside(dir, n) && States(n, digest, c)
    requires ParseNarUrl(n.url) == Ok((digest, c)) && n.url == "nar/" + digest + c.Suffix()
    ensures ValidatePublish(dir, n).Ok?
  {}

  lemma AddressedIsAccepted(dir: StoreDir, n: NarInfo)
    requires PathsInside(dir, n) && ContentAddressed(n)
    ensures ValidatePublish(dir, n).Ok?
  {
    var digest, c :| States(n, digest, c) && IsSha256Digest(digest) && n.url == PrintNar(digest, c);
    NarUrlOfPrinted(digest, c);
    NoObjection(dir, n, digest, c);
  }

  /**
   Exactly the documents whose paths lie in the store directory and whose URL is the content
   address of the stated sha256 digest and compression are accepted.
   */
  lemma AcceptedExactly(dir: StoreDir, n: NarInfo)
    ensures ValidatePublish(dir, n).Ok? <==> PathsInside(dir, n) && ContentAddressed(n)
  {
    if ValidatePublish(dir, n).Ok? {
      AcceptedIsAddressed(dir, n);
    } else if PathsInside(dir, n) && ContentAddressed(n) {
      AddressedIsAccepted(dir, n);
    }
  }

  lemma PrintInjective(d: string, c: Compression, e: string, k: Compression)
    requires |d| == |e| == 52 && PrintNar(d, c) == PrintNar(e, k)
    ensures d == e && c == k
  {
    assert PrintNar(d, c)[4..56] == d && PrintNar(d, c)[56..] == c.Suffix();
    assert PrintNar(e, k)[4..56] == e && PrintNar(e, k)[56..] == k.Suffix();
    SuffixHasNoDotDot(c);
    SuffixHasNoDotDot(k);
  }

  /** Two accepted documents name the same object exactly when digest and compression agree. */
  lemma UrlsAreContentAddresses(dir: StoreDir, a: NarInfo, b: NarInfo)
    requires ValidatePublish(dir, a).Ok? && ValidatePublish(dir, b).Ok?
    ensures a.url == b.url <==>
              a.narHash.Normalize() == b.narHash.Normalize() && ParseCompression(a.compression) == ParseCompression(b.compression)
  {
    AcceptedExactly(dir, a);
    AcceptedExactly(dir, b);
    var d, c :| States(a, d, c) && IsSha256Digest(d) && a.url == PrintNar(d, c);
    var e, k :| States(b, e, k) && IsSha256Digest(e) && b.url == PrintNar(e, k);
    if a.url == b.url { PrintInjective(d, c, e, k); }
  }

  // ---- The pusher and the wire ----

  datatype PathInfo = PathInfo(
    path: string, narHash: Hash, narSize: U64, references: seq<string>,
    deriver: Option<string>, signatures: seq<string>, ca: Option<ContentAddress>)

  /** `narinfo_from_path_info`. */
  function FromPathInfo(p: PathInfo): (r: Result<NarInfo, HashError>) {
    var hash :- p.narHash.Normalize();
    Ok(NarInfo(p.path, "nar/" + hash.digest + ".nar.zst", "zstd", p.narHash, p.narSize,
               p.references, p.deriver, p.signatures, p.ca))
  }

  /** The document as the request carries it: hash and content address as text. */
  function OnTheWire(n: NarInfo): (w: NarInfo) {
    n.(narHash := Raw(n.narHash.RenderText()),
       ca := if n.ca.Some? then Some(RawAddress(n.ca.value.Format())) else None)
  }

  predicate PathInfoInside(dir: StoreDir, p: PathInfo) {
    && StorePathInside(dir, p.path)
    && (forall r :: r in p.references ==> StorePathInside(dir, r))
    && (p.deriver.Some? ==> StorePathInside(dir, p.deriver.value))
  }

  /** What the pusher builds is accepted after transport exactly when its paths are inside and its digest is 32 bytes. */
  lemma PushedIsAccepted(dir: StoreDir, p: PathInfo)
    requires FromPathInfo(p).Ok?
    ensures ValidatePublish(dir, OnTheWire(FromPathInfo(p).value)).Ok? <==>
              PathInfoInside(dir, p) && IsSha256Digest(p.narHash.Normalize().value.digest)
  {
    var n := FromPathInfo(p).value;
    var w := OnTheWire(n);
    var digest := p.narHash.Normalize().value.digest;
    NormalizeWireText(p.narHash);
    AcceptedExactly(dir, w);
    assert ParseCompression("zstd") == Some(Zstd);
    assert States(w, digest, Zstd) && w.url == PrintNar(digest, Zstd);
  }
}
