/** Why a document is not accepted, and what the pusher makes of a path (crates/depot-core/src/validation.rs,
    crates/depot-push/src/nix.rs). */
module PublishLaws {
  import opened Wrappers
  import opened NixHash
  import opened HashLaws
  import opened DepotPath
  import opened ObjectPathLaws
  import opened NarInfo
  import opened Validation

  predicate IsStorePath(dir: StoreDir, path: string) {
    Inside(dir, path) && HashFromStorePath(path).Ok?
  }

  /** The objection to the path alone. */
  lemma StorePathObjection(dir: StoreDir, n: NarInfo)
    ensures !Inside(dir, n.storePath) ==> ValidatePublish(dir, n) == Err(StorePathOutsideStoreDir(n.storePath))
    ensures Inside(dir, n.storePath) && HashFromStorePath(n.storePath).Err? ==>
              ValidatePublish(dir, n) == Err(InvalidStorePathHash(n.storePath, HashFromStorePath(n.storePath).error))
  {
    hide HashFromStorePath, ParseObjectPath, ParseCompression;
    ContainsExactly(dir, n.storePath);
  }

  /** The next objection is to the URL: it must be the path of an archive. */
  lemma UrlObjection(dir: StoreDir, n: NarInfo)
    requires IsStorePath(dir, n.storePath)
    ensures ParseObjectPath(n.url).None? ==> ValidatePublish(dir, n) == Err(InvalidDepotObjectPath(n.url))
    ensures ParseObjectPath(n.url).Some? && !ParseObjectPath(n.url).value.NarPath? ==>
              ValidatePublish(dir, n) == Err(UrlIsNotNarObject(n.url))
  {
    hide HashFromStorePath, ParseObjectPath, ParseCompression;
    ContainsExactly(dir, n.storePath);
  }

  /** Then to what the document states: a known compression, that of the URL, a hash, and the digest of the URL. */
  lemma StatedObjection(dir: StoreDir, n: NarInfo, digest: string, c: Compression)
    requires IsStorePath(dir, n.storePath) && ParseObjectPath(n.url) == Some(NarPath(digest, c))
    ensures ParseCompression(n.compression).None? ==> ValidatePublish(dir, n) == Err(UnsupportedCompression(n.compression))
    ensures ParseCompression(n.compression).Some? && ParseCompression(n.compression).value != c ==>
              ValidatePublish(dir, n) == Err(CompressionMismatch(n.compression, c.Name()))
    ensures ParseCompression(n.compression) == Some(c) && n.narHash.Normalize().Err? ==>
              ValidatePublish(dir, n) == Err(InvalidHash(n.storePath, n.narHash.Normalize().error))
    ensures ParseCompression(n.compression) == Some(c) && n.narHash.Normalize().Ok?
            && n.narHash.Normalize().value.digest != digest ==>
              ValidatePublish(dir, n)
              == Err(UrlDoesNotMatchNarHash(n.url, "nar/" + n.narHash.Normalize().value.digest + c.Suffix()))
  {
    ContainsExactly(dir, n.storePath);
    NarOf(n.url, digest, c);
    hide HashFromStorePath, ParseObjectPath, ParseCompression;
    if n.narHash.Normalize().Ok? && n.url == "nar/" + n.narHash.Normalize().value.digest + c.Suffix() {
      SameDigest(digest, n.narHash.Normalize().value.digest, c.Suffix());
    }
  }

  lemma SameDigest(a: string, b: string, suffix: string)
    requires "nar/" + a + suffix == "nar/" + b + suffix
    ensures a == b
  {
    assert a == ("nar/" + a + suffix)[4..4 + |a|];
    assert b == ("nar/" + b + suffix)[4..4 + |b|];
  }

  /** The document is in order but for its references and its deriver. */
  predicate StatesItsUrl(dir: StoreDir, n: NarInfo, digest: string, c: Compression) {
    && IsStorePath(dir, n.storePath) && ParseObjectPath(n.url) == Some(NarPath(digest, c))
    && ParseCompression(n.compression) == Some(c)
    && n.narHash.Normalize() == Ok(NormalizedHash(Sha256, digest))
  }

  lemma RestOfValidation(dir: StoreDir, n: NarInfo, digest: string, c: Compression)
    requires StatesItsUrl(dir, n, digest, c)
    ensures var refs, deriver := CheckReferences(dir, n.references), CheckDeriver(dir, n.deriver);
            ValidatePublish(dir, n) == if refs.Err? then Err(refs.error)
                                       else if deriver.Err? then Err(deriver.error) else HashOf(n)
  {
    ContainsExactly(dir, n.storePath);
    NarOf(n.url, digest, c);
    hide HashFromStorePath, ParseObjectPath, ParseCompression, CheckReferences, CheckDeriver;
  }

  /** The store path hash, of a store path. */
  function HashOf(n: NarInfo): (r: Result<string, PublishError>) {
    match HashFromStorePath(n.storePath) case Ok(h) => Ok(h) case Err(e) => Err(InvalidStorePathHash(n.storePath, e))
  }

  lemma {:induction false} FirstBadReference(dir: StoreDir, refs: seq<string>, i: nat)
    requires i < |refs| && !IsStorePath(dir, refs[i]) && forall j :: 0 <= j < i ==> IsStorePath(dir, refs[j])
    ensures !Inside(dir, refs[i]) ==> CheckReferences(dir, refs) == Err(ReferenceOutsideStoreDir(refs[i]))
    ensures Inside(dir, refs[i]) ==>
              && HashFromStorePath(refs[i]).Err?
              && CheckReferences(dir, refs) == Err(InvalidReferenceStorePath(refs[i], HashFromStorePath(refs[i]).error))
    decreases i
  {
    hide HashFromStorePath, ContainsPath;
    ContainsExactly(dir, refs[0]);
    if i > 0 {
      assert IsStorePath(dir, refs[0]);
      FirstBadReference(dir, refs[1..], i - 1);
    }
  }

  /** The last objections are to the first bad reference and to the deriver; without any the answer is the hash. */
  lemma ReferenceObjection(dir: StoreDir, n: NarInfo, digest: string, c: Compression, i: nat)
    requires StatesItsUrl(dir, n, digest, c)
    requires i < |n.references| && !IsStorePath(dir, n.references[i])
    requires forall j :: 0 <= j < i ==> IsStorePath(dir, n.references[j])
    ensures ValidatePublish(dir, n)
            == Err(if Inside(dir, n.references[i]) then
                     InvalidReferenceStorePath(n.references[i], HashFromStorePath(n.references[i]).error)
                   else ReferenceOutsideStoreDir(n.references[i]))
  {
    hide HashFromStorePath, CheckReferences, CheckDeriver, ValidatePublish, Inside;
    RestOfValidation(dir, n, digest, c);
    FirstBadReference(dir, n.references, i);
  }

  lemma DeriverObjection(dir: StoreDir, n: NarInfo, digest: string, c: Compression)
    requires StatesItsUrl(dir, n, digest, c)
    requires forall p :: p in n.references ==> IsStorePath(dir, p)
    ensures n.deriver.Some? && !Inside(dir, n.deriver.value) ==>
              ValidatePublish(dir, n) == Err(DeriverOutsideStoreDir(n.deriver.value))
    ensures n.deriver.Some? && Inside(dir, n.deriver.value) && HashFromStorePath(n.deriver.value).Err? ==>
              ValidatePublish(dir, n)
              == Err(InvalidDeriverStorePath(n.deriver.value, HashFromStorePath(n.deriver.value).error))
    ensures (n.deriver.Some? ==> IsStorePath(dir, n.deriver.value)) ==>
              ValidatePublish(dir, n) == Ok(HashFromStorePath(n.storePath).value)
  {
    hide HashFromStorePath, CheckReferences, ValidatePublish;
    RestOfValidation(dir, n, digest, c);
    forall p | p in n.references ensures StorePathInside(dir, p) {
      assert IsStorePath(dir, p);
      ContainsExactly(dir, p);
    }
    if n.deriver.Some? { ContainsExactly(dir, n.deriver.value); }
  }

  // ---- The pusher and the wire ----

  /** The pusher names the archive after the digest, compressed with zstd, and takes everything else over. */
  lemma PushedDocument(p: PathInfo)
    ensures p.narHash.Normalize().Err? ==> FromPathInfo(p) == Err(p.narHash.Normalize().error)
    ensures p.narHash.Normalize().Ok? ==>
              && FromPathInfo(p).Ok?
              && var n := FromPathInfo(p).value;
                 && n.url == "nar/" + p.narHash.Normalize().value.digest + ".nar.zst" && n.compression == "zstd"
                 && n.storePath == p.path && n.narHash == p.narHash && n.narSize == p.narSize
                 && n.references == p.references && n.deriver == p.deriver && n.signatures == p.signatures && n.ca == p.ca
  {}

  /** Only the hash and the content address change on the wire: they are text. */
  lemma WireDocument(n: NarInfo)
    ensures OnTheWire(n) == n.(narHash := OnTheWire(n).narHash, ca := OnTheWire(n).ca)
    ensures OnTheWire(n).narHash == Raw(n.narHash.RenderText())
    ensures n.ca.None? ==> OnTheWire(n).ca == None
    ensures n.ca.Some? ==> OnTheWire(n).ca == Some(RawAddress(n.ca.value.Format()))
  {}
}
