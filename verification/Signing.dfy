/** The text a signature covers, and serving signed documents
    (crates/depot-core/src/signing.rs, crates/depot-read/src/service.rs). */
module Signing {
  import opened Wrappers
  import opened Ordering
  import opened Text
  import opened NixHash
  import opened NarInfo
  import opened NarInfoRoundTrip

  datatype FingerprintError =
    | InvalidStorePath(path: string)
    | InvalidNarHash(error: HashError)
    | InvalidReferencePath(path: string)

  function FirstOutside(dir: StoreDir, refs: seq<string>): (r: Option<string>)
    ensures r.None? <==> forall p :: p in refs ==> ContainsPath(dir, p)
  {
    if refs == [] then None
    else if !ContainsPath(dir, refs[0]) then
      assert refs[0] in refs;
      Some(refs[0])
    else
      assert refs == [refs[0]] + refs[1..];
      FirstOutside(dir, refs[1..])
  }

  function FingerprintText(storePath: string, hash: string, size: nat, sortedRefs: seq<string>): (s: string) {
    "1;" + (storePath + [';'] + (hash + [';'] + (Decimal(size) + [';'] + Join(sortedRefs, ','))))
  }

  function Fingerprint(n: NarInfo, dir: StoreDir): (r: Result<string, FingerprintError>) {
    if !ContainsPath(dir, n.storePath) then Err(InvalidStorePath(n.storePath))
    else match n.narHash.Normalize()
      case Err(e) => Err(InvalidNarHash(e))
      case Ok(hash) =>
        match FirstOutside(dir, n.references)
        case Some(path) => Err(InvalidReferencePath(path))
        case None => Ok(FingerprintText(n.storePath, hash.Render(), n.narSize, SortText(n.references)))
  }

  lemma Flattened(p: string, h: string, d: string, j: string)
    ensures "1;" + (p + [';'] + (h + [';'] + (d + [';'] + j))) == "1;" + p + ";" + h + ";" + d + ";" + j
  {}

  method FindOutside(dir: StoreDir, refs: seq<string>) returns (r: Option<string>)
    ensures r == FirstOutside(dir, refs)
  {
    for i := 0 to |refs|
      invariant FirstOutside(dir, refs) == FirstOutside(dir, refs[i..])
    {
      if !ContainsPath(dir, refs[i]) {
        return Some(refs[i]);
      }
      assert refs[i..][1..] == refs[i + 1..];
    }
    return None;
  }

  method AppendReferences(head: string, sorted: seq<string>) returns (out: string)
    ensures out == head + Join(sorted, ',')
  {
    out := head;
    for i := 0 to |sorted|
      invariant out == head + Join(sorted[..i], ',')
    {
      JoinAppend(sorted[..i], sorted[i], ',');
      assert sorted[..i] + [sorted[i]] == sorted[..i + 1];
      if i > 0 {
        out := out + [','];
      }
      out := out + sorted[i];
    }
    assert sorted[..|sorted|] == sorted;
  }

  /** `NarInfoSigner::fingerprint`: checks, then appends to one buffer. */
  method ComputeFingerprint(n: NarInfo, dir: StoreDir) returns (r: Result<string, FingerprintError>)
    ensures r == Fingerprint(n, dir)
  {
    if !ContainsPath(dir, n.storePath) {
      return Err(InvalidStorePath(n.storePath));
    }
    match n.narHash.Normalize() {
      case Err(e) => return Err(InvalidNarHash(e));
      case Ok(hash) =>
        var outside := FindOutside(dir, n.references);
        if outside.Some? {
          return Err(InvalidReferencePath(outside.value));
        }
        var sorted := SortText(n.references);
        var out := "1;" + n.storePath + ";" + hash.Render() + ";" + Decimal(n.narSize) + ";";
        Flattened(n.storePath, hash.Render(), Decimal(n.narSize), Join(sorted, ','));
        out := AppendReferences(out, sorted);
        return Ok(out);
    }
  }

  /** The order of the references does not matter. */
  lemma FingerprintIgnoresOrder(a: NarInfo, b: NarInfo, dir: StoreDir)
    requires a.storePath == b.storePath && a.narHash.Normalize() == b.narHash.Normalize() && a.narSize == b.narSize
    requires multiset(a.references) == multiset(b.references)
    ensures Fingerprint(a, dir).Ok? <==> Fingerprint(b, dir).Ok?
    ensures Fingerprint(a, dir).Ok? ==> Fingerprint(a, dir) == Fingerprint(b, dir)
  {
    LeqIsTotalOrder();
    SortPermutation(a.references, b.references, Leq);
    forall p ensures p in a.references <==> p in b.references {
      InSeqIffInMultiset(a.references, p);
      InSeqIffInMultiset(b.references, p);
    }
  }

  lemma HeadsEqual(a: string, b: string, x: string, y: string)
    requires ';' !in a && ';' !in b && a + [';'] + x == b + [';'] + y
    ensures a == b && x == y
  {
    SplitOnceUnique(a, ';', x);
    SplitOnceUnique(b, ';', y);
  }

  lemma TextDetermines(p: string, h: string, m: nat, a: seq<string>, q: string, k: string, n: nat, b: seq<string>)
    requires ';' !in p && ';' !in h && ';' !in q && ';' !in k
    requires FingerprintText(p, h, m, a) == FingerprintText(q, k, n, b)
    ensures p == q && h == k && m == n && Join(a, ',') == Join(b, ',')
  {
    var x1, y1 := Decimal(m) + [';'] + Join(a, ','), Decimal(n) + [';'] + Join(b, ',');
    var x2, y2 := h + [';'] + x1, k + [';'] + y1;
    var x3, y3 := p + [';'] + x2, q + [';'] + y2;
    assert ("1;" + x3)[2..] == x3 && ("1;" + y3)[2..] == y3;
    HeadsEqual(p, q, x2, y2);
    HeadsEqual(h, k, x1, y1);
    assert ';' !in Decimal(m) && ';' !in Decimal(n);
    HeadsEqual(Decimal(m), Decimal(n), Join(a, ','), Join(b, ','));
    DecimalInjective(m, n);
  }

  lemma RenderInjective(a: NormalizedHash, b: NormalizedHash)
    requires a.algorithm == b.algorithm == Sha256 && a.Render() == b.Render()
    ensures a == b
  {
    assert a.Render()[7..] == a.digest && b.Render()[7..] == b.digest;
  }

  lemma SortedParts(refs: seq<string>, dir: StoreDir)
    requires forall r :: r in refs ==> ContainsPath(dir, r) && ',' !in r
    ensures forall r :: r in SortText(refs) ==> r != [] && ',' !in r
  {
    SortTextProperties(refs);
  }

  /**
   Fingerprints of documents whose store paths have no semicolon are equal exactly when store path, normalised hash,
   size and the sorted references joined by commas are.
   */
  lemma FingerprintsAgreeExactly(a: NarInfo, b: NarInfo, dir: StoreDir)
    requires Fingerprint(a, dir).Ok? && Fingerprint(b, dir).Ok? && ';' !in a.storePath && ';' !in b.storePath
    ensures Fingerprint(a, dir) == Fingerprint(b, dir)
            <==> && a.storePath == b.storePath && a.narHash.Normalize() == b.narHash.Normalize() && a.narSize == b.narSize
                 && Join(SortText(a.references), ',') == Join(SortText(b.references), ',')
  {
    if Fingerprint(a, dir) == Fingerprint(b, dir) {
      var g, h := a.narHash.Normalize().value, b.narHash.Normalize().value;
      HashTextIsPlain(a.narHash);
      HashTextIsPlain(b.narHash);
      TextDetermines(a.storePath, g.Render(), a.narSize, SortText(a.references),
                     b.storePath, h.Render(), b.narSize, SortText(b.references));
      RenderInjective(g, h);
    }
  }

  /** Equal fingerprints cover equal content, when separators do not occur inside the paths. */
  lemma FingerprintDetermines(a: NarInfo, b: NarInfo, dir: StoreDir)
    requires Fingerprint(a, dir).Ok? && Fingerprint(a, dir) == Fingerprint(b, dir)
    requires ';' !in a.storePath && ';' !in b.storePath
    requires forall r :: r in a.references ==> ',' !in r
    requires forall r :: r in b.references ==> ',' !in r
    ensures a.storePath == b.storePath && a.narHash.Normalize() == b.narHash.Normalize() && a.narSize == b.narSize
    ensures multiset(a.references) == multiset(b.references)
  {
    FingerprintsAgreeExactly(a, b, dir);
    SortedParts(a.references, dir);
    SortedParts(b.references, dir);
    JoinInjective(SortText(a.references), SortText(b.references), ',');
    SortTextProperties(a.references);
    SortTextProperties(b.references);
  }

  /** The canonical form keeps the fingerprint exactly when the digest has the length of a sha256 digest. */
  lemma FingerprintOfCanonical(n: NarInfo, signatures: seq<string>, dir: StoreDir)
    requires Fingerprint(n, dir).Ok?
    ensures Fingerprint(Canonical(n, signatures), dir) == Fingerprint(n, dir)
            <==> IsSha256Digest(n.narHash.Normalize().value.digest)
  {
    var c := Canonical(n, signatures);
    NormalizeRendered(n.narHash.Normalize().value);
    SortTextProperties(n.references);
    if c.narHash.Normalize().Ok? { FingerprintIgnoresOrder(n, c, dir); }
  }

  // ---- Serving ----

  /** A named key; how it signs a message is not part of this model. */
  datatype SigningKey = SigningKey(name: string, sign: string -> string) {
    function SignMessage(message: string): (s: string) {
      name + ":" + sign(message)
    }
  }

  function SignWith(keys: seq<SigningKey>, message: string): (r: seq<string>)
    ensures |r| == |keys| && forall i :: 0 <= i < |r| ==> r[i] == keys[i].SignMessage(message)
  {
    if keys == [] then [] else [keys[0].SignMessage(message)] + SignWith(keys[1..], message)
  }

  datatype ServeError =
    | Unsigned(fingerprintError: FingerprintError)
    | Unrendered(hashError: HashError)
    | Unreadable(parseError: ParseError)

  /** `render_signed_narinfo`: the document's own signatures, then one for each key. */
  method RenderSigned(n: NarInfo, keys: seq<SigningKey>, dir: StoreDir) returns (r: Result<string, ServeError>)
    ensures Fingerprint(n, dir).Err? ==> r == Err(Unsigned(Fingerprint(n, dir).error))
    ensures Fingerprint(n, dir).Ok? ==>
              r == Ok(Served(n, keys, dir))
  {
    var fingerprint := ComputeFingerprint(n, dir);
    match fingerprint {
      case Err(e) => return Err(Unsigned(e));
      case Ok(message) =>
        var text := RenderWithSignatures(n, AllSignatures(n, keys, dir), dir);
        match text {
          case Err(e) => return Err(Unrendered(e));
          case Ok(t) => return Ok(t);
        }
    }
  }

  /** The text served for a document with its own and the depot's signatures. */
  function Served(n: NarInfo, keys: seq<SigningKey>, dir: StoreDir): (text: string)
    requires Fingerprint(n, dir).Ok?
  {
    Render(n, AllSignatures(n, keys, dir), dir).value
  }

  function AllSignatures(n: NarInfo, keys: seq<SigningKey>, dir: StoreDir): (r: seq<string>)
    requires Fingerprint(n, dir).Ok?
    ensures forall s :: s in n.signatures ==> s in r
    ensures forall i :: 0 <= i < |keys| ==> keys[i].SignMessage(Fingerprint(n, dir).value) in r
  {
    var local := SignWith(keys, Fingerprint(n, dir).value);
    assert forall i :: 0 <= i < |keys| ==> local[i] in local;
    n.signatures + local
  }

  /**
   What a reader of the served text checks: the signed content is the content that upstream and
   the depot signed, all old and new signatures are there, and no others.
   */
  lemma ServedSignaturesStayValid(n: NarInfo, keys: seq<SigningKey>, dir: StoreDir)
    requires Fingerprint(n, dir).Ok? && IsSha256Digest(n.narHash.Normalize().value.digest)
    requires Clean(n, AllSignatures(n, keys, dir), dir)
    ensures Parse(Served(n, keys, dir), dir).Ok?
    ensures var m := Parse(Served(n, keys, dir), dir).value;
            && Fingerprint(m, dir) == Fingerprint(n, dir)
            && multiset(m.signatures) == multiset(AllSignatures(n, keys, dir))
            && (forall i :: 0 <= i < |keys| ==> keys[i].SignMessage(Fingerprint(m, dir).value) in m.signatures)
  {
    var signatures := AllSignatures(n, keys, dir);
    ParseRendered(n, signatures, dir);
    FingerprintOfCanonical(n, signatures, dir);
    SortTextProperties(signatures);
    assert Canonical(n, signatures).signatures == SortText(signatures);
  }
}
