/** Documents that may be published whatever the store directory, and pairs that a fingerprint does not tell apart. */
module Samples {
  import opened Wrappers
  import opened Text
  import opened NixHash
  import opened DepotPath
  import opened NarInfo
  import opened Signing
  import opened Validation
  import opened Metadata

  function Zeros(n: nat): (s: string)
    ensures |s| == n && forall i :: 0 <= i < n ==> s[i] == '0'
  {
    seq(n, _ => '0')
  }

  function SampleName(): (s: string) {
    Zeros(32) + ['-'] + "a"
  }

  function SampleDocument(dir: StoreDir): (doc: NarInfo) {
    NarInfo(dir + ['/'] + SampleName(), PrintNar(Zeros(52), Zstd), "zstd", Raw("sha256:" + Zeros(52)), 0, [], None, [], None)
  }

  lemma {:induction false} AfterLastOf(a: string, c: char, b: string)
    requires c !in b
    ensures AfterLast(a + [c] + b, c) == b
  {
    var s := a + [c] + b;
    if b != [] {
      assert s[..|s| - 1] == a + [c] + b[..|b| - 1] && s[|s| - 1] == b[|b| - 1];
      AfterLastOf(a, c, b[..|b| - 1]);
    }
  }

  lemma ZerosAreSymbols(n: nat)
    ensures NixBase32.AlphabetText(Zeros(n)) && Ascii(Zeros(n))
  {
    assert NixBase32.ALPHABET[0] == '0';
  }

  lemma SampleHash(dir: StoreDir)
    ensures HashFromStorePath(dir + ['/'] + SampleName()) == Ok(Zeros(32))
  {
    AfterLastOf(dir, '/', SampleName());
    SplitOnceUnique(Zeros(32), '-', "a");
    ZerosAreSymbols(32);
    AsciiHashText(Zeros(32));
  }

  lemma SampleInside(dir: StoreDir)
    ensures ContainsPath(dir, dir + ['/'] + SampleName())
  {
    assert dir + ['/'] + SampleName() == dir + (['/'] + SampleName());
    StripPrefixOf(dir, ['/'] + SampleName());
  }

  lemma SampleStorePath(dir: StoreDir)
    ensures StorePathInside(dir, dir + ['/'] + SampleName())
  {
    SampleHash(dir);
    SampleInside(dir);
  }

  lemma SampleStates(dir: StoreDir)
    ensures States(SampleDocument(dir), Zeros(52), Zstd) && IsSha256Digest(Zeros(52))
  {
    ZerosAreSymbols(52);
    NormalizeRendered(NormalizedHash(Sha256, Zeros(52)));
    assert NormalizedHash(Sha256, Zeros(52)).Render() == "sha256:" + Zeros(52);
  }

  /** A document that differs from the sample in its paths alone. */
  lemma LikeSample(dir: StoreDir, doc: NarInfo)
    requires doc == SampleDocument(dir).(storePath := doc.storePath, references := doc.references) && PathsInside(dir, doc)
    ensures ValidatePublish(dir, doc).Ok?
  {
    hide ValidatePublish, PathsInside;
    SampleStates(dir);
    assert States(doc, Zeros(52), Zstd);
    AddressedIsAccepted(dir, doc);
  }

  /** Whatever the store directory, there is a document that may be published. */
  lemma SampleIsAccepted(dir: StoreDir)
    ensures ValidatePublish(dir, SampleDocument(dir)) == Ok(Zeros(32))
  {
    hide ValidatePublish, StorePathInside;
    SampleHash(dir);
    SampleStorePath(dir);
    LikeSample(dir, SampleDocument(dir));
    AcceptedIsAddressed(dir, SampleDocument(dir));
  }

  lemma SampleReferences(dir: StoreDir, refs: seq<string>)
    requires forall p :: p in refs ==> p == dir + ['/'] + SampleName()
    ensures ValidatePublish(dir, SampleDocument(dir).(references := refs)).Ok?
  {
    hide ValidatePublish, StorePathInside;
    SampleStorePath(dir);
    LikeSample(dir, SampleDocument(dir).(references := refs));
  }

  lemma TwiceSorted(p: string)
    ensures SortText([p, p]) == [p, p] && Join([p, p], ',') == p + [','] + p
  {
    SortTextProperties([p, p]);
    var s := SortText([p, p]);
    assert s[0] in s && s[1] in s && Join([p, p][1..], ',') == p;
  }

  /** Whatever the store directory, there are two such documents with one fingerprint and different references. */
  lemma SampleFingerprintsCollide(dir: StoreDir)
    ensures var p := dir + ['/'] + SampleName();
            var a, b := SampleDocument(dir).(references := [p, p]), SampleDocument(dir).(references := [p + [','] + p]);
            && ValidatePublish(dir, a).Ok? && ValidatePublish(dir, b).Ok?
            && Fingerprint(a, dir).Ok? && Fingerprint(b, dir) == Fingerprint(a, dir)
            && multiset(a.references) != multiset(b.references)
  {
    var p := dir + ['/'] + SampleName();
    var a := SampleDocument(dir).(references := [p, p]);
    SampleReferences(dir, [p, p]);
    TwiceSorted(p);
    JoinedReferencesCollide(dir, a);
  }

  /** What follows the store path in the fingerprint of the sample, as the tail of a file name. */
  function Tail(): (s: string) {
    [';'] + ("sha256:" + Zeros(52) + [';'] + ("0" + [';']))
  }

  lemma NamedInside(dir: StoreDir, front: string, rest: string, path: string)
    requires dir <= front && (|front| == |dir| || front[|dir|] == '/') && '/' !in rest
    requires path == front + ['/'] + (Zeros(32) + ['-'] + rest)
    ensures StorePathInside(dir, path)
  {
    hide AfterLast;
    assert path[|dir|] == '/';
    AfterLastOf(front, '/', Zeros(32) + ['-'] + rest);
    SplitOnceUnique(Zeros(32), '-', rest);
    ZerosAreSymbols(32);
    AsciiHashText(Zeros(32));
  }

  lemma TailedInside(dir: StoreDir, p: string, tail: string)
    requires p == dir + ['/'] + SampleName() && '/' !in tail
    ensures StorePathInside(dir, p + tail)
  {
    assert p + tail == dir + ['/'] + (Zeros(32) + ['-'] + ("a" + tail));
    NamedInside(dir, dir, "a" + tail, p + tail);
  }

  lemma TailedTwiceInside(dir: StoreDir, p: string, tail: string)
    requires p == dir + ['/'] + SampleName()
    ensures StorePathInside(dir, p + tail + p)
  {
    assert p + tail + p == p + tail + dir + ['/'] + (Zeros(32) + ['-'] + "a");
    NamedInside(dir, p + tail + dir, "a", p + tail + p);
  }

  lemma TailsAreAccepted(dir: StoreDir, p: string, tail: string, doc: NarInfo)
    requires p == dir + ['/'] + SampleName() && '/' !in tail && doc == SampleDocument(dir)
    ensures ValidatePublish(dir, doc.(references := [p + tail])).Ok?
    ensures ValidatePublish(dir, doc.(storePath := p + tail + p)).Ok?
  {
    hide ValidatePublish, SampleName, Zeros, StorePathInside;
    SampleStorePath(dir);
    TailedInside(dir, p, tail);
    TailedTwiceInside(dir, p, tail);
    LikeSample(dir, doc.(references := [p + tail]));
    LikeSample(dir, doc.(storePath := p + tail + p));
  }

  lemma FingerprintOfAccepted(dir: StoreDir, n: NarInfo, hash: NormalizedHash)
    requires ValidatePublish(dir, n).Ok? && n.narHash.Normalize() == Ok(hash)
    ensures Fingerprint(n, dir) == Ok(FingerprintText(n.storePath, hash.Render(), n.narSize, SortText(n.references)))
  {
    AcceptedHasFingerprint(dir, n);
  }

  /** And two with one fingerprint and different store paths. */
  lemma SampleStorePathsCollide(dir: StoreDir)
    ensures var p, doc := dir + ['/'] + SampleName(), SampleDocument(dir);
            var a, b := doc.(references := [p + Tail()]), doc.(storePath := p + Tail() + p);
            && ValidatePublish(dir, a).Ok? && ValidatePublish(dir, b).Ok? && a.storePath != b.storePath
            && Fingerprint(a, dir).Ok? && Fingerprint(b, dir) == Fingerprint(a, dir)
  {
    hide ValidatePublish, SampleName, FingerprintText, Fingerprint;
    var p, doc, hash := dir + ['/'] + SampleName(), SampleDocument(dir), NormalizedHash(Sha256, Zeros(52));
    var a, b := doc.(references := [p + Tail()]), doc.(storePath := p + Tail() + p);
    TailsAreAccepted(dir, p, Tail(), doc);
    SampleStates(dir);
    FingerprintOfAccepted(dir, a, hash);
    FingerprintOfAccepted(dir, b, hash);
    SortTextProperties(a.references);
    assert SortText(a.references) == a.references && SortText(b.references) == [];
    SameText(p);
  }

  lemma SameText(p: string)
    ensures FingerprintText(p, "sha256:" + Zeros(52), 0, [p + Tail()])
            == FingerprintText(p + Tail() + p, "sha256:" + Zeros(52), 0, [])
  {
    var h := "sha256:" + Zeros(52);
    assert Decimal(0) == "0";
    assert p + [';'] + (h + [';'] + ("0" + [';'] + (p + Tail()))) == p + Tail() + p + Tail();
    assert p + Tail() + p + [';'] + (h + [';'] + ("0" + [';'] + [])) == p + Tail() + p + Tail();
  }
}
