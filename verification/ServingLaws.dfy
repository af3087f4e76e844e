/** What a served document says, line by line, and where it comes from (crates/depot-core/src/narinfo.rs,
    crates/depot-core/src/signing.rs, crates/depot-read/src/service.rs). */
module ServingLaws {
  import opened Wrappers
  import opened Text
  import opened NixHash
  import opened HashLaws
  import opened NarInfo
  import opened Signing
  import opened ReadStore
  import opened ServedNarInfos

  // ---- The text that is signed ----

  lemma SignedText(path: string, digest: string, size: nat, refs: seq<string>)
    ensures FingerprintText(path, "sha256:" + digest, size, refs)
            == "1;" + path + ";sha256:" + digest + ";" + Decimal(size) + ";" + Join(refs, ',')
  {
    hide Decimal, Join;
    Flattened(path, "sha256:" + digest, Decimal(size), Join(refs, ','));
    assert "1;" + path + ";" + ("sha256:" + digest) == "1;" + path + ";sha256:" + digest;
  }

  /** Version, store path, hash, size and references, separated by semicolons; the references in order, by commas. */
  lemma FingerprintExactly(n: NarInfo, dir: StoreDir)
    requires Inside(dir, n.storePath) && n.narHash.Normalize().Ok? && forall p :: p in n.references ==> Inside(dir, p)
    ensures Fingerprint(n, dir)
            == Ok("1;" + n.storePath + ";sha256:" + n.narHash.Normalize().value.digest + ";" + Decimal(n.narSize) + ";"
                  + Join(SortText(n.references), ','))
  {
    hide ContainsPath, Inside, FingerprintText, SortText, Join, Decimal;
    var digest := n.narHash.Normalize().value.digest;
    ContainsExactly(dir, n.storePath);
    forall p | p in n.references ensures ContainsPath(dir, p) {
      ContainsExactly(dir, p);
    }
    assert n.narHash.Normalize().value.Render() == "sha256:" + digest;
    SignedText(n.storePath, digest, n.narSize, SortText(n.references));
  }

  /** What keeps a document from being signed: its path, then its hash, then its first reference outside. */
  lemma FingerprintObjection(n: NarInfo, dir: StoreDir, i: nat)
    ensures !Inside(dir, n.storePath) ==> Fingerprint(n, dir) == Err(InvalidStorePath(n.storePath))
    ensures Inside(dir, n.storePath) && n.narHash.Normalize().Err? ==>
              Fingerprint(n, dir) == Err(FingerprintError.InvalidNarHash(n.narHash.Normalize().error))
    ensures Inside(dir, n.storePath) && n.narHash.Normalize().Ok? && i < |n.references| && !Inside(dir, n.references[i])
            && (forall j :: 0 <= j < i ==> Inside(dir, n.references[j])) ==>
              Fingerprint(n, dir) == Err(InvalidReferencePath(n.references[i]))
  {
    ContainsExactly(dir, n.storePath);
    if i < |n.references| && !Inside(dir, n.references[i]) && (forall j :: 0 <= j < i ==> Inside(dir, n.references[j])) {
      FirstOutsideExactly(dir, n.references, i);
    }
  }

  lemma {:induction false} FirstOutsideExactly(dir: StoreDir, refs: seq<string>, i: nat)
    requires i < |refs| && !Inside(dir, refs[i]) && forall j :: 0 <= j < i ==> Inside(dir, refs[j])
    ensures FirstOutside(dir, refs) == Some(refs[i])
    decreases i
  {
    ContainsExactly(dir, refs[0]);
    if i > 0 {
      assert Inside(dir, refs[0]);
      FirstOutsideExactly(dir, refs[1..], i - 1);
    }
  }

  // ---- The lines of a document ----

  lemma {:induction false} LabelledExactly(heading: string, values: seq<string>)
    ensures |Labelled(heading, values)| == |values|
    ensures forall i :: 0 <= i < |values| ==> Labelled(heading, values)[i] == heading + values[i]
  {
    if values != [] { LabelledExactly(heading, values[1..]); }
  }

  /** The heading and, for each reference, a space and the reference; a space alone if there is none. */
  lemma {:induction false} ReferencesExactly(dir: StoreDir, refs: seq<string>, last: string)
    ensures ReferencesLine(dir, []) == "References: "
    ensures ReferencesLine(dir, refs + [last])
            == (if refs == [] then "References:" else ReferencesLine(dir, refs)) + " " + DisplayPath(dir, last)
  {
    DisplayAppend(dir, refs, last);
    SpacedAppend(DisplayAll(dir, refs), DisplayPath(dir, last));
  }

  lemma {:induction false} DisplayAppend(dir: StoreDir, refs: seq<string>, last: string)
    ensures DisplayAll(dir, refs + [last]) == DisplayAll(dir, refs) + [DisplayPath(dir, last)]
  {
    if refs != [] {
      assert (refs + [last])[1..] == refs[1..] + [last];
      DisplayAppend(dir, refs[1..], last);
    }
  }

  lemma {:induction false} SpacedAppend(words: seq<string>, last: string)
    ensures SpaceSeparated(words + [last]) == SpaceSeparated(words) + " " + last
  {
    if words == [] {
      assert words + [last] == [last];
    } else {
      assert (words + [last])[1..] == words[1..] + [last];
      SpacedAppend(words[1..], last);
    }
  }

  function SigLines(sorted: seq<string>): (lines: seq<string>) {
    seq(|sorted|, i requires 0 <= i < |sorted| => "Sig: " + sorted[i])
  }

  /**
   The document: five fields, the references in order, the deriver if there is one, the signatures in order,
   and the content address if there is one.
   */
  lemma DocumentExactly(n: NarInfo, signatures: seq<string>, dir: StoreDir)
    ensures n.narHash.Normalize().Err? ==> Render(n, signatures, dir) == Err(n.narHash.Normalize().error)
    ensures n.narHash.Normalize().Ok? ==>
              && Render(n, signatures, dir).Ok?
              && Render(n, signatures, dir).value == Unlines(
                   [ "StorePath: " + n.storePath,
                     "URL: " + n.url,
                     "Compression: " + n.compression,
                     "NarHash: sha256:" + n.narHash.Normalize().value.digest,
                     "NarSize: " + Decimal(n.narSize) ]
                   + [ReferencesLine(dir, SortText(n.references))]
                   + (if n.deriver.Some? then ["Deriver: " + DisplayPath(dir, n.deriver.value)] else [])
                   + SigLines(SortText(signatures))
                   + (if n.ca.Some? then ["CA: " + n.ca.value.Format()] else []))
  {
    hide SortText, Unlines, Labelled, SigLines, ReferencesLine, DisplayPath, Decimal;
    SigLinesExactly(SortText(signatures));
    if n.narHash.Normalize().Ok? { HeaderExactly(n, n.narHash.Normalize().value); }
  }

  lemma SigLinesExactly(sorted: seq<string>)
    ensures Labelled("Sig: ", sorted) == SigLines(sorted)
  {
    LabelledExactly("Sig: ", sorted);
  }

  lemma HeaderExactly(n: NarInfo, hash: NormalizedHash)
    requires hash.algorithm == Sha256
    ensures HeaderLines(n, hash.Render())
            == [ "StorePath: " + n.storePath,
                 "URL: " + n.url,
                 "Compression: " + n.compression,
                 "NarHash: sha256:" + hash.digest,
                 "NarSize: " + Decimal(n.narSize) ]
  {
    assert hash.Render() == "sha256:" + hash.digest;
    assert "NarHash: " + ("sha256:" + hash.digest) == "NarHash: sha256:" + hash.digest;
  }

  // ---- Signatures ----

  /** A project's own key signs first, in its own view only, and then the aggregate key, in every view. */
  lemma KeysExactly(project: string, own: SigningKey, aggregate: SigningKey)
    ensures SigningKeysFor(ProjectView(project), Some(own), Some(aggregate)) == [own, aggregate]
    ensures SigningKeysFor(ProjectView(project), Some(own), None) == [own]
    ensures SigningKeysFor(ProjectView(project), None, Some(aggregate)) == [aggregate]
    ensures SigningKeysFor(ProjectView(project), None, None) == []
    ensures SigningKeysFor(AggregateView, Some(own), Some(aggregate)) == [aggregate]
    ensures SigningKeysFor(AggregateView, None, Some(aggregate)) == [aggregate]
    ensures SigningKeysFor(AggregateView, Some(own), None) == []
    ensures SigningKeysFor(AggregateView, None, None) == []
  {}

  /** The document's own signatures, and then each key's name, a colon and what it makes of the signed text. */
  lemma SignaturesExactly(n: NarInfo, keys: seq<SigningKey>, dir: StoreDir)
    requires Fingerprint(n, dir).Ok?
    ensures AllSignatures(n, keys, dir)
            == n.signatures
               + seq(|keys|, i requires 0 <= i < |keys| => keys[i].name + ":" + keys[i].sign(Fingerprint(n, dir).value))
  {
    var message := Fingerprint(n, dir).value;
    assert SignWith(keys, message) == seq(|keys|, i requires 0 <= i < |keys| => keys[i].name + ":" + keys[i].sign(message));
  }

  /** What is served: the rendered document with these signatures, unless there is no text to sign. */
  lemma SignedExactly(n: NarInfo, keys: seq<SigningKey>, dir: StoreDir)
    ensures Fingerprint(n, dir).Err? ==> Signed(n, keys, dir) == Err(Unsigned(Fingerprint(n, dir).error))
    ensures Fingerprint(n, dir).Ok? ==>
              && Render(n, AllSignatures(n, keys, dir), dir).Ok?
              && Signed(n, keys, dir) == Ok(Some(Render(n, AllSignatures(n, keys, dir), dir).value))
  {
    hide ContainsPath;
  }

  // ---- Upstreams ----

  /** The first upstream that answers decides: those before it that do not are passed over, those after it are not asked. */
  lemma {:induction false} FirstAnswerDecides(texts: seq<Option<string>>, i: nat, keys: seq<SigningKey>, dir: StoreDir)
    requires i < |texts| && texts[i].Some? && forall j :: 0 <= j < i ==> texts[j].None?
    ensures Parse(texts[i].value, dir).Err? ==>
              FromUpstreams(texts, keys, dir) == Err(ServeError.Unreadable(Parse(texts[i].value, dir).error))
    ensures Parse(texts[i].value, dir).Ok? ==>
              FromUpstreams(texts, keys, dir) == Signed(Parse(texts[i].value, dir).value, keys, dir)
    decreases i
  {
    hide Parse, Signed;
    if i > 0 { FirstAnswerDecides(texts[1..], i - 1, keys, dir); }
  }

  /** Without any answer there is no document. */
  lemma {:induction false} NoAnswer(texts: seq<Option<string>>, keys: seq<SigningKey>, dir: StoreDir)
    requires forall i :: 0 <= i < |texts| ==> texts[i].None?
    ensures FromUpstreams(texts, keys, dir) == Ok(None)
  {
    if texts != [] { NoAnswer(texts[1..], keys, dir); }
  }
}
