/** What is read back from a rendered narinfo document. */
module NarInfoRoundTrip {
  import opened Wrappers
  import opened Text
  import opened NixHash
  import opened NarInfo

  /** A path below the store directory whose relative part is one word. */
  predicate CleanReference(dir: StoreDir, path: string) {
    DisplayRoundTrips(dir, path) && DisplayPath(dir, path) != [] && NoWhitespace(DisplayPath(dir, path))
  }

  predicate CleanDeriver(dir: StoreDir, path: string) {
    DisplayRoundTrips(dir, path) && OneLine(DisplayPath(dir, path))
  }

  /** No field value would be cut, merged or dropped by the line format. */
  ghost predicate Clean(n: NarInfo, signatures: seq<string>, dir: StoreDir) {
    && OneLine(n.storePath) && OneLine(n.url) && OneLine(n.compression)
    && (forall r :: r in n.references ==> CleanReference(dir, r))
    && (n.deriver.Some? ==> CleanDeriver(dir, n.deriver.value))
    && (forall s :: s in signatures ==> OneLine(s))
    && (n.ca.Some? ==> OneLine(n.ca.value.Format()))
  }

  /** The document as the parser returns it: lists sorted, hash and content address as text. */
  function Canonical(n: NarInfo, signatures: seq<string>): (c: NarInfo)
    requires n.narHash.Normalize().Ok?
  {
    n.(narHash := Raw(n.narHash.Normalize().value.Render()),
       references := SortText(n.references),
       signatures := SortText(signatures),
       ca := if n.ca.Some? then Some(RawAddress(n.ca.value.Format())) else None)
  }

  // ---- Reading single lines ----

  lemma Prefixed(p: string, v: string)
    ensures p <= p + v && (p + v)[|p|..] == v
    ensures p != [] ==> (p + v)[0] == p[0]
  {}

  lemma ReadStorePath(st: Slots, v: string, dir: StoreDir)
    requires st.storePath.None?
    ensures ReadLine(st, "StorePath: " + v, dir) == Ok(st.(storePath := Some(v)))
  {
    Prefixed("StorePath: ", v);
  }

  lemma ReadUrl(st: Slots, v: string, dir: StoreDir)
    requires st.url.None?
    ensures ReadLine(st, "URL: " + v, dir) == Ok(st.(url := Some(v)))
  {
    Prefixed("URL: ", v);
  }

  lemma ReadCompression(st: Slots, v: string, dir: StoreDir)
    requires st.compression.None?
    ensures ReadLine(st, "Compression: " + v, dir) == Ok(st.(compression := Some(v)))
  {
    Prefixed("Compression: ", v);
  }

  lemma ReadNarHash(st: Slots, v: string, dir: StoreDir)
    requires st.narHash.None?
    ensures ReadLine(st, "NarHash: " + v, dir) == Ok(st.(narHash := Some(Raw(v))))
  {
    Prefixed("NarHash: ", v);
  }

  lemma ReadNarSize(st: Slots, n: U64, dir: StoreDir)
    requires st.narSize.None?
    ensures ReadLine(st, "NarSize: " + Decimal(n), dir) == Ok(st.(narSize := Some(n)))
  {
    ParseU64OfDecimal(n);
    ReadNarSizeText(st, Decimal(n), n, dir);
  }

  lemma ReadNarSizeText(st: Slots, v: string, n: U64, dir: StoreDir)
    requires st.narSize.None? && ParseU64(v) == Some(n)
    ensures ReadLine(st, "NarSize: " + v, dir) == Ok(st.(narSize := Some(n)))
  {
    hide ParseU64, ExpandDisplayPath, SplitWhitespace, ExpandAll;
    var line := "NarSize: " + v;
    Prefixed("NarSize: ", v);
    assert line[3] == 'S' && "NarHash: "[3] == 'H';
  }

  lemma ReadDeriver(st: Slots, v: string, dir: StoreDir)
    requires st.deriver.None?
    ensures ReadLine(st, "Deriver: " + v, dir) == Ok(st.(deriver := Some(ExpandDisplayPath(dir, v))))
  {
    Prefixed("Deriver: ", v);
  }

  lemma ReadSignature(st: Slots, v: string, dir: StoreDir)
    ensures ReadLine(st, "Sig: " + v, dir) == Ok(st.(signatures := st.signatures + [v]))
  {
    Prefixed("Sig: ", v);
    assert ("Sig: " + v)[1] == 'i' && "StorePath: "[1] == 't';
  }

  lemma ReadAddress(st: Slots, v: string, dir: StoreDir)
    requires st.ca.None?
    ensures ReadLine(st, "CA: " + v, dir) == Ok(st.(ca := Some(RawAddress(v))))
  {
    Prefixed("CA: ", v);
    assert ("CA: " + v)[1] == 'A' && "Compression: "[1] == 'o';
  }

  // ---- The values of a document ----

  /** The texts after the field names. */
  datatype Values = Values(
    storePath: string, url: string, compression: string, hash: string, size: U64,
    references: string, deriver: Option<string>, signatures: seq<string>, ca: Option<string>)

  function ValuesOf(n: NarInfo, signatures: seq<string>, hash: string, dir: StoreDir): (v: Values) {
    var refs := SortText(n.references);
    Values(n.storePath, n.url, n.compression, hash, n.narSize,
           if refs == [] then " " else SpaceSeparated(DisplayAll(dir, refs)),
           if n.deriver.Some? then Some(DisplayPath(dir, n.deriver.value)) else None,
           SortText(signatures),
           if n.ca.Some? then Some(n.ca.value.Format()) else None)
  }

  function OptionalLine(heading: string, v: Option<string>): (lines: seq<string>) {
    if v.Some? then [heading + v.value] else []
  }

  function ValueHeader(v: Values): (lines: seq<string>) {
    [ "StorePath: " + v.storePath, "URL: " + v.url, "Compression: " + v.compression,
      "NarHash: " + v.hash, "NarSize: " + Decimal(v.size) ]
  }

  function ValueLines(v: Values): (lines: seq<string>) {
    ValueHeader(v) + ["References:" + v.references] + OptionalLine("Deriver: ", v.deriver)
    + Labelled("Sig: ", v.signatures) + OptionalLine("CA: ", v.ca)
  }

  lemma DocumentValues(n: NarInfo, signatures: seq<string>, hash: string, dir: StoreDir)
    ensures DocumentLines(n, signatures, hash, dir) == ValueLines(ValuesOf(n, signatures, hash, dir))
  {}

  /** The document that values make up when they are read. */
  function ReadValues(v: Values, dir: StoreDir): (n: NarInfo) {
    NarInfo(v.storePath, v.url, v.compression, Raw(v.hash), v.size,
            ExpandAll(dir, SplitWhitespace(v.references)),
            if v.deriver.Some? then Some(ExpandDisplayPath(dir, v.deriver.value)) else None,
            v.signatures,
            if v.ca.Some? then Some(RawAddress(v.ca.value)) else None)
  }

  lemma ReadReferences(st: Slots, v: string, dir: StoreDir)
    requires st.references.None?
    ensures ReadLine(st, "References:" + v, dir) == Ok(st.(references := Some(ExpandAll(dir, SplitWhitespace(v)))))
  {
    Prefixed("References:", v);
  }

  lemma ReadOne(st: Slots, line: string, dir: StoreDir)
    ensures ReadLines(st, [line], dir) == ReadLine(st, line, dir)
  {
    assert [line][1..] == [];
    if ReadLine(st, line, dir).Ok? { assert ReadLines(ReadLine(st, line, dir).value, [], dir) == ReadLine(st, line, dir); }
  }

  lemma ReadNext(st: Slots, lines: seq<string>, dir: StoreDir, mid: Slots)
    requires lines != [] && ReadLine(st, lines[0], dir) == Ok(mid)
    ensures ReadLines(st, lines, dir) == ReadLines(mid, lines[1..], dir)
  {}

  function HeaderSlots(v: Values): (st: Slots) {
    Slots(Some(v.storePath), Some(v.url), Some(v.compression), Some(Raw(v.hash)), Some(v.size), None, None, [], None)
  }

  lemma ReadHeader(v: Values, dir: StoreDir)
    ensures ReadLines(EMPTY_SLOTS, ValueHeader(v), dir) == Ok(HeaderSlots(v))
  {
    var lines := ValueHeader(v);
    var s1 := EMPTY_SLOTS.(storePath := Some(v.storePath));
    var s2 := s1.(url := Some(v.url));
    var s3 := s2.(compression := Some(v.compression));
    var s4 := s3.(narHash := Some(Raw(v.hash)));
    ReadStorePath(EMPTY_SLOTS, v.storePath, dir);
    ReadNext(EMPTY_SLOTS, lines, dir, s1);
    ReadUrl(s1, v.url, dir);
    ReadNext(s1, lines[1..], dir, s2);
    ReadCompression(s2, v.compression, dir);
    ReadNext(s2, lines[2..], dir, s3);
    ReadNarHash(s3, v.hash, dir);
    ReadNext(s3, lines[3..], dir, s4);
    ReadNarSize(s4, v.size, dir);
    assert lines[1..][1..] == lines[2..] && lines[2..][1..] == lines[3..] && lines[3..][1..] == [lines[4]];
    ReadOne(s4, lines[4], dir);
  }

  lemma {:induction false} ReadSignatures(st: Slots, sigs: seq<string>, dir: StoreDir)
    ensures ReadLines(st, Labelled("Sig: ", sigs), dir) == Ok(st.(signatures := st.signatures + sigs))
    decreases |sigs|
  {
    if sigs == [] {
      assert st.signatures + sigs == st.signatures;
    } else {
      var mid := st.(signatures := st.signatures + [sigs[0]]);
      var lines := Labelled("Sig: ", sigs);
      ReadSignature(st, sigs[0], dir);
      ReadNext(st, lines, dir, mid);
      assert lines[1..] == Labelled("Sig: ", sigs[1..]);
      ReadSignatures(mid, sigs[1..], dir);
      assert mid.signatures + sigs[1..] == st.signatures + sigs;
    }
  }

  lemma ReadDeriverLine(st: Slots, v: Option<string>, dir: StoreDir)
    requires st.deriver.None?
    ensures ReadLines(st, OptionalLine("Deriver: ", v), dir)
            == Ok(st.(deriver := if v.Some? then Some(ExpandDisplayPath(dir, v.value)) else None))
  {
    if v.Some? {
      ReadDeriver(st, v.value, dir);
      ReadOne(st, "Deriver: " + v.value, dir);
    }
  }

  lemma ReadAddressLine(st: Slots, v: Option<string>, dir: StoreDir)
    requires st.ca.None?
    ensures ReadLines(st, OptionalLine("CA: ", v), dir)
            == Ok(st.(ca := if v.Some? then Some(RawAddress(v.value)) else None))
  {
    if v.Some? {
      ReadAddress(st, v.value, dir);
      ReadOne(st, "CA: " + v.value, dir);
    }
  }

  /** Whatever the values are, the parser reads their lines into the document they make up. */
  lemma ReadValueLines(v: Values, dir: StoreDir)
    ensures ReadLines(EMPTY_SLOTS, ValueLines(v), dir).Ok?
    ensures FromSlots(ReadLines(EMPTY_SLOTS, ValueLines(v), dir).value) == Ok(ReadValues(v, dir))
  {
    var a := ValueHeader(v);
    var b := a + ["References:" + v.references];
    var c := b + OptionalLine("Deriver: ", v.deriver);
    var d := c + Labelled("Sig: ", v.signatures);
    var s1 := HeaderSlots(v);
    var s2 := s1.(references := Some(ExpandAll(dir, SplitWhitespace(v.references))));
    var s3 := s2.(deriver := if v.deriver.Some? then Some(ExpandDisplayPath(dir, v.deriver.value)) else None);
    var s4 := s3.(signatures := [] + v.signatures);
    ReadHeader(v, dir);
    ReadLinesAppend(EMPTY_SLOTS, a, ["References:" + v.references], dir);
    ReadReferences(s1, v.references, dir);
    ReadOne(s1, "References:" + v.references, dir);
    ReadLinesAppend(EMPTY_SLOTS, b, OptionalLine("Deriver: ", v.deriver), dir);
    ReadDeriverLine(s2, v.deriver, dir);
    ReadLinesAppend(EMPTY_SLOTS, c, Labelled("Sig: ", v.signatures), dir);
    ReadSignatures(s3, v.signatures, dir);
    ReadLinesAppend(EMPTY_SLOTS, d, OptionalLine("CA: ", v.ca), dir);
    ReadAddressLine(s4, v.ca, dir);
    assert [] + v.signatures == v.signatures;
  }

  // ---- Line feeds and carriage returns ----

  predicate FeedFree(v: Values) {
    && '\n' !in v.storePath && '\n' !in v.url && '\n' !in v.compression && '\n' !in v.hash && '\n' !in v.references
    && (v.deriver.Some? ==> '\n' !in v.deriver.value)
    && NoLineFeeds(v.signatures)
    && (v.ca.Some? ==> '\n' !in v.ca.value)
  }

  function StripOption(v: Option<string>): (r: Option<string>) {
    if v.Some? then Some(StripCr(v.value)) else None
  }

  /** The values after each line lost a trailing carriage return. */
  function StripValues(v: Values): (r: Values) {
    Values(StripCr(v.storePath), StripCr(v.url), StripCr(v.compression), StripCr(v.hash), v.size,
           StripCr(v.references), StripOption(v.deriver), StripAll(v.signatures), StripOption(v.ca))
  }

  lemma StripHeaded(heading: string, v: string)
    requires heading != [] && heading[|heading| - 1] != '\r'
    ensures StripCr(heading + v) == heading + StripCr(v)
    ensures '\n' !in heading && '\n' !in v ==> '\n' !in heading + v
  {}

  lemma StripDigits(n: U64)
    ensures '\n' !in "NarSize: " + Decimal(n) && StripCr("NarSize: " + Decimal(n)) == "NarSize: " + Decimal(n)
  {
    var d := Decimal(n);
    assert d[|d| - 1] in d;
  }

  lemma StripHeader(v: Values)
    requires FeedFree(v)
    ensures NoLineFeeds(ValueHeader(v)) && StripAll(ValueHeader(v)) == ValueHeader(StripValues(v))
  {
    var a, b := ValueHeader(v), ValueHeader(StripValues(v));
    forall i | 0 <= i < |a| ensures '\n' !in a[i] && StripCr(a[i]) == b[i] {
      if i == 0 { StripHeaded("StorePath: ", v.storePath); }
      else if i == 1 { StripHeaded("URL: ", v.url); }
      else if i == 2 { StripHeaded("Compression: ", v.compression); }
      else if i == 3 { StripHeaded("NarHash: ", v.hash); }
      else { StripDigits(v.size); }
    }
    PointwiseStrip(a, b);
  }

  lemma PointwiseStrip(a: seq<string>, b: seq<string>)
    requires |a| == |b| && forall i :: 0 <= i < |a| ==> StripCr(a[i]) == b[i]
    ensures StripAll(a) == b
  {}

  lemma StripSignatures(sigs: seq<string>)
    requires NoLineFeeds(sigs)
    ensures NoLineFeeds(Labelled("Sig: ", sigs))
    ensures StripAll(Labelled("Sig: ", sigs)) == Labelled("Sig: ", StripAll(sigs))
  {
    LabelledLines("Sig: ", sigs);
    LabelledLines("Sig: ", StripAll(sigs));
    forall i | 0 <= i < |sigs|
      ensures '\n' !in Labelled("Sig: ", sigs)[i]
      ensures StripCr(Labelled("Sig: ", sigs)[i]) == Labelled("Sig: ", StripAll(sigs))[i]
    {
      StripHeaded("Sig: ", sigs[i]);
    }
  }

  lemma StripOptional(heading: string, v: Option<string>)
    requires heading != [] && heading[|heading| - 1] != '\r' && '\n' !in heading
    requires v.Some? ==> '\n' !in v.value
    ensures NoLineFeeds(OptionalLine(heading, v))
    ensures StripAll(OptionalLine(heading, v)) == OptionalLine(heading, StripOption(v))
  {
    if v.Some? { StripHeaded(heading, v.value); }
  }

  lemma StripBlocks(a: seq<string>, b: seq<string>)
    requires NoLineFeeds(a) && NoLineFeeds(b)
    ensures NoLineFeeds(a + b) && StripAll(a + b) == StripAll(a) + StripAll(b)
  {}

  lemma StripFiveBlocks(a: seq<string>, b: seq<string>, c: seq<string>, d: seq<string>, e: seq<string>)
    requires NoLineFeeds(a) && NoLineFeeds(b) && NoLineFeeds(c) && NoLineFeeds(d) && NoLineFeeds(e)
    ensures NoLineFeeds(a + b + c + d + e)
    ensures StripAll(a + b + c + d + e) == StripAll(a) + StripAll(b) + StripAll(c) + StripAll(d) + StripAll(e)
  {
    StripBlocks(a, b);
    StripBlocks(a + b, c);
    StripBlocks(a + b + c, d);
    StripBlocks(a + b + c + d, e);
  }

  lemma StripReferences(v: string)
    requires '\n' !in v
    ensures NoLineFeeds(["References:" + v]) && StripAll(["References:" + v]) == ["References:" + StripCr(v)]
  {
    StripHeaded("References:", v);
  }

  lemma StripValueLines(v: Values)
    requires FeedFree(v)
    ensures NoLineFeeds(ValueLines(v)) && StripAll(ValueLines(v)) == ValueLines(StripValues(v))
  {
    StripHeader(v);
    StripReferences(v.references);
    StripOptional("Deriver: ", v.deriver);
    StripSignatures(v.signatures);
    StripOptional("CA: ", v.ca);
    StripFiveBlocks(ValueHeader(v), ["References:" + v.references], OptionalLine("Deriver: ", v.deriver),
                    Labelled("Sig: ", v.signatures), OptionalLine("CA: ", v.ca));
  }

  /** Without line feeds in the values, parsing loses at most trailing carriage returns. */
  lemma ParseValues(v: Values, dir: StoreDir)
    requires FeedFree(v)
    ensures Parse(Unlines(ValueLines(v)), dir) == Ok(ReadValues(StripValues(v), dir))
  {
    StripValueLines(v);
    LinesOfUnlines(ValueLines(v));
    ReadValueLines(StripValues(v), dir);
  }

  // ---- What parsing can return ----

  predicate ExpandedWord(dir: StoreDir, r: string) {
    '\r' !in DisplayPath(dir, r) && '\n' !in DisplayPath(dir, r) && NoWhitespace(DisplayPath(dir, r))
  }

  predicate ExpandedWords(dir: StoreDir, refs: seq<string>) {
    forall i :: 0 <= i < |refs| ==> ExpandedWord(dir, refs[i])
  }

  predicate FeedFreeSlots(st: Slots, dir: StoreDir) {
    && (st.storePath.Some? ==> '\n' !in st.storePath.value)
    && (st.url.Some? ==> '\n' !in st.url.value)
    && (st.compression.Some? ==> '\n' !in st.compression.value)
    && (st.references.Some? ==> ExpandedWords(dir, st.references.value))
    && (st.deriver.Some? ==> '\n' !in DisplayPath(dir, st.deriver.value))
    && NoLineFeeds(st.signatures)
    && (st.ca.Some? ==> st.ca.value.RawAddress? && '\n' !in st.ca.value.text)
  }

  /** Displaying an expanded text leaves a part of that text. */
  lemma DisplayExpanded(dir: StoreDir, value: string)
    ensures forall c :: c in DisplayPath(dir, ExpandDisplayPath(dir, value)) ==> c in value
  {
    var path := ExpandDisplayPath(dir, value);
    if ContainsPath(dir, value) {
      assert value != dir ==> value == dir + "/" + RelativePath(dir, value).value;
    } else {
      var rest := TrimLeadingSlashes(value);
      TrimmedIsPart(value);
      assert path == dir + ("/" + rest);
      StripPrefixOf(dir, "/" + rest);
      assert path != dir;
      assert RelativePath(dir, path) == Some(rest);
    }
  }

  lemma {:induction false} TrimmedIsPart(s: string)
    ensures forall c :: c in TrimLeadingSlashes(s) ==> c in s
  {
    if s != [] && s[0] == '/' {
      TrimmedIsPart(s[1..]);
    }
  }

  lemma WordExpands(dir: StoreDir, w: string)
    requires NoWhitespace(w)
    ensures ExpandedWord(dir, ExpandDisplayPath(dir, w))
  {
    DisplayExpanded(dir, w);
  }

  lemma WordsExpand(dir: StoreDir, value: string)
    ensures ExpandedWords(dir, ExpandAll(dir, SplitWhitespace(value)))
  {
    var words := SplitWhitespace(value);
    SplitWords(value);
    forall i | 0 <= i < |words| ensures ExpandedWord(dir, ExpandAll(dir, words)[i]) {
      assert words[i] in words;
      WordExpands(dir, words[i]);
    }
  }

  /** A line changes at most one slot, to a text or words taken from the line. */
  lemma ReadLineChanges(st: Slots, line: string, dir: StoreDir)
    requires ReadLine(st, line, dir).Ok?
    ensures Changed(st, ReadLine(st, line, dir).value, line, dir)
  {}

  /** What one line can make of the slots. */
  predicate Changed(st: Slots, r: Slots, line: string, dir: StoreDir) {
    || (r == st.(storePath := r.storePath) && |line| >= 11 && r.storePath == Some(line[11..]))
    || (r == st.(url := r.url) && |line| >= 5 && r.url == Some(line[5..]))
    || (r == st.(compression := r.compression) && |line| >= 13 && r.compression == Some(line[13..]))
    || r == st.(narHash := r.narHash, narSize := r.narSize)
    || (r == st.(references := r.references) && |line| >= 11
        && r.references == Some(ExpandAll(dir, SplitWhitespace(line[11..]))))
    || (r == st.(deriver := r.deriver) && |line| >= 9 && r.deriver == Some(ExpandDisplayPath(dir, line[9..])))
    || (r == st.(signatures := r.signatures) && |line| >= 5 && r.signatures == st.signatures + [line[5..]])
    || (r == st.(ca := r.ca) && |line| >= 4 && r.ca == Some(RawAddress(line[4..])))
  }

  lemma ChangedFeedFree(st: Slots, r: Slots, line: string, dir: StoreDir)
    requires FeedFreeSlots(st, dir) && '\n' !in line && Changed(st, r, line, dir)
    ensures FeedFreeSlots(r, dir)
  {
    if |line| >= 11 { WordsExpand(dir, line[11..]); }
    if |line| >= 9 { ExpandedFeedFree(dir, line[9..]); }
    if |line| >= 5 { SignatureFeedFree(st.signatures, line[5..]); }
  }

  lemma ExpandedFeedFree(dir: StoreDir, value: string)
    requires '\n' !in value
    ensures '\n' !in DisplayPath(dir, ExpandDisplayPath(dir, value))
  {
    DisplayExpanded(dir, value);
  }

  lemma SignatureFeedFree(signatures: seq<string>, s: string)
    requires NoLineFeeds(signatures) && '\n' !in s
    ensures NoLineFeeds(signatures + [s])
  {}

  lemma ReadLineFeedFree(st: Slots, line: string, dir: StoreDir)
    requires FeedFreeSlots(st, dir) && '\n' !in line && ReadLine(st, line, dir).Ok?
    ensures FeedFreeSlots(ReadLine(st, line, dir).value, dir)
  {
    ReadLineChanges(st, line, dir);
    ChangedFeedFree(st, ReadLine(st, line, dir).value, line, dir);
  }

  lemma {:induction false} ReadLinesFeedFree(st: Slots, lines: seq<string>, dir: StoreDir)
    requires FeedFreeSlots(st, dir) && NoLineFeeds(lines) && ReadLines(st, lines, dir).Ok?
    ensures FeedFreeSlots(ReadLines(st, lines, dir).value, dir)
    decreases |lines|
  {
    if lines != [] {
      ReadLineFeedFree(st, lines[0], dir);
      ReadLinesFeedFree(ReadLine(st, lines[0], dir).value, lines[1..], dir);
    }
  }

  function SlotsOf(n: NarInfo): (st: Slots) {
    Slots(Some(n.storePath), Some(n.url), Some(n.compression), Some(n.narHash), Some(n.narSize),
          Some(n.references), n.deriver, n.signatures, n.ca)
  }

  /** No value the parser returns holds a line feed, and references display as single words. */
  lemma ParsedFeedFree(text: string, dir: StoreDir)
    requires Parse(text, dir).Ok?
    ensures FeedFreeSlots(SlotsOf(Parse(text, dir).value), dir)
  {
    LinesHaveNoLineFeeds(text);
    ReadLinesFeedFree(EMPTY_SLOTS, Lines(text), dir);
  }

  // ---- The round trip ----

  lemma PlainDigest(d: string)
    requires NixBase32.PlainText(d)
    ensures OneLine("sha256:" + d)
    ensures ';' !in "sha256:" + d
  {
    var s := "sha256:" + d;
    forall i | 0 <= i < |s| ensures s[i] != '\n' && s[i] != '\r' && s[i] != ';' {
      if i >= 7 { assert s[i] == d[i - 7]; }
    }
  }

  lemma HashTextIsPlain(h: Hash)
    requires h.Normalize().Ok?
    ensures OneLine(h.Normalize().value.Render()) && ';' !in h.Normalize().value.Render()
  {
    RenderIsPlain(h.Normalize().value);
  }

  lemma RenderIsPlain(n: NormalizedHash)
    requires n.algorithm == Sha256 && NixBase32.AlphabetText(n.digest)
    ensures OneLine(n.Render()) && ';' !in n.Render()
  {
    NixBase32.AlphabetTextIsPlain(n.digest);
    PlainDigest(n.digest);
    assert n.Render() == "sha256:" + n.digest;
  }

  lemma CutInside(dir: StoreDir, d: string)
    requires ContainsPath(dir, d)
    requires DisplayPath(dir, d) != [] && DisplayPath(dir, d)[|DisplayPath(dir, d)| - 1] == '\r'
    ensures |ExpandDisplayPath(dir, StripCr(DisplayPath(dir, d)))| < |d|
  {
    var x := DisplayPath(dir, d);
    assert d != dir ==> d == dir + "/" + x;
  }

  lemma CutOutside(dir: StoreDir, d: string)
    requires !ContainsPath(dir, d)
    ensures ExpandDisplayPath(dir, StripCr(d)) != d
  {
    var y := StripCr(d);
    if !ContainsPath(dir, y) {
      var rest := TrimLeadingSlashes(y);
      assert dir + "/" + rest == dir + ("/" + rest);
      StripPrefixOf(dir, "/" + rest);
    }
  }

  /** A deriver survives being displayed, cut at its line end and expanded exactly when it is clean. */
  lemma DeriverSurvives(dir: StoreDir, d: string)
    requires '\n' !in DisplayPath(dir, d)
    ensures ExpandDisplayPath(dir, StripCr(DisplayPath(dir, d))) == d <==> CleanDeriver(dir, d)
  {
    var x := DisplayPath(dir, d);
    if x != [] && x[|x| - 1] == '\r' {
      if ContainsPath(dir, d) { CutInside(dir, d); } else { CutOutside(dir, d); }
    } else {
      ExpandDisplayed(dir, d);
    }
  }

  lemma SpacedText(words: seq<string>)
    requires words != [] && forall w :: w in words ==> NoWhitespace(w)
    ensures StripCr(SpaceSeparated(words)) == SpaceSeparated(words) && '\n' !in SpaceSeparated(words)
  {
    SpacedSymbols(words);
    var s := SpaceSeparated(words);
    assert s[|s| - 1] in s;
  }

  lemma {:induction false} SpacedSymbols(words: seq<string>)
    requires forall w :: w in words ==> NoWhitespace(w)
    ensures forall c :: c in SpaceSeparated(words) ==> c == ' ' || !IsWhitespace(c)
  {
    if words != [] {
      assert words[0] in words && forall w :: w in words[1..] ==> w in words;
      SpacedSymbols(words[1..]);
    }
  }

  function ReferencesValue(dir: StoreDir, refs: seq<string>): (v: string) {
    if refs == [] then " " else SpaceSeparated(DisplayAll(dir, refs))
  }

  lemma ReferencesValueText(dir: StoreDir, refs: seq<string>)
    requires ExpandedWords(dir, refs)
    ensures '\n' !in ReferencesValue(dir, refs) && StripCr(ReferencesValue(dir, refs)) == ReferencesValue(dir, refs)
    ensures SplitWhitespace(ReferencesValue(dir, refs)) == NonEmpty(DisplayAll(dir, refs))
  {
    var words := DisplayAll(dir, refs);
    if refs == [] {
      assert " "[1..] == [];
      assert SplitWhitespace(" ") == [];
    } else {
      SpacedText(words);
      SplitSpaceSeparated(words);
    }
  }

  lemma CleanReferencesSurvive(dir: StoreDir, refs: seq<string>)
    requires forall r :: r in refs ==> CleanReference(dir, r)
    ensures ExpandAll(dir, DisplayAll(dir, refs)) == refs
    ensures forall w :: w in DisplayAll(dir, refs) ==> w != []
  {
    var words := DisplayAll(dir, refs);
    forall i | 0 <= i < |refs| ensures words[i] != [] && ExpandAll(dir, words)[i] == refs[i] {
      assert refs[i] in refs;
      ExpandDisplayed(dir, refs[i]);
    }
  }

  lemma SurvivingReferencesAreClean(dir: StoreDir, refs: seq<string>)
    requires ExpandedWords(dir, refs)
    requires forall w :: w in DisplayAll(dir, refs) ==> w != []
    requires ExpandAll(dir, DisplayAll(dir, refs)) == refs
    ensures forall r :: r in refs ==> CleanReference(dir, r)
  {
    var words := DisplayAll(dir, refs);
    forall i | 0 <= i < |refs| ensures CleanReference(dir, refs[i]) {
      assert words[i] in words && ExpandAll(dir, words)[i] == refs[i];
      ExpandDisplayed(dir, refs[i]);
    }
  }

  /** References displayed as words are read back exactly when every one of them is clean. */
  lemma ReferencesSurvive(dir: StoreDir, refs: seq<string>)
    requires ExpandedWords(dir, refs)
    ensures ExpandAll(dir, SplitWhitespace(ReferencesValue(dir, refs))) == refs
            <==> forall r :: r in refs ==> CleanReference(dir, r)
  {
    var words := DisplayAll(dir, refs);
    ReferencesValueText(dir, refs);
    if ExpandAll(dir, NonEmpty(words)) == refs {
      assert NonEmpty(words) == words;
      SplitWords(ReferencesValue(dir, refs));
      SurvivingReferencesAreClean(dir, refs);
    } else if forall r :: r in refs ==> CleanReference(dir, r) {
      CleanReferencesSurvive(dir, refs);
    }
  }

  lemma OneLineIff(s: string)
    ensures OneLine(s) <==> '\n' !in s && StripCr(s) == s
  {}

  lemma SignaturesSurvive(signatures: seq<string>)
    ensures (NoLineFeeds(SortText(signatures)) && StripAll(SortText(signatures)) == SortText(signatures))
            <==> forall s :: s in signatures ==> OneLine(s)
  {
    var sorted := SortText(signatures);
    SortTextProperties(signatures);
    if NoLineFeeds(sorted) && StripAll(sorted) == sorted {
      forall s | s in signatures ensures OneLine(s) {
        var i :| 0 <= i < |sorted| && sorted[i] == s;
        OneLineIff(s);
      }
    } else if forall s :: s in signatures ==> OneLine(s) {
      forall i | 0 <= i < |sorted| ensures '\n' !in sorted[i] && StripCr(sorted[i]) == sorted[i] {
        assert sorted[i] in signatures;
      }
    }
  }

  /** The conditions under which nothing is lost, field by field. */
  lemma ValuesSurvive(n: NarInfo, signatures: seq<string>, dir: StoreDir)
    requires n.narHash.Normalize().Ok?
    requires FeedFree(ValuesOf(n, signatures, n.narHash.Normalize().value.Render(), dir))
    requires ExpandedWords(dir, SortText(n.references))
    ensures (ReadValues(StripValues(ValuesOf(n, signatures, n.narHash.Normalize().value.Render(), dir)), dir)
             == Canonical(n, signatures)) <==> Clean(n, signatures, dir)
  {
    var hash := n.narHash.Normalize().value.Render();
    var v := ValuesOf(n, signatures, hash, dir);
    var w := StripValues(v);
    var refs := SortText(n.references);
    HashTextIsPlain(n.narHash);
    SortTextProperties(n.references);
    ReferencesValueText(dir, refs);
    ReferencesSurvive(dir, refs);
    SignaturesSurvive(signatures);
    OneLineIff(n.storePath);
    OneLineIff(n.url);
    OneLineIff(n.compression);
    if n.deriver.Some? { DeriverSurvives(dir, n.deriver.value); }
    if n.ca.Some? { OneLineIff(n.ca.value.Format()); }
    assert v.references == ReferencesValue(dir, refs);
    assert w.hash == hash;
  }

  lemma CleanIsFeedFree(n: NarInfo, signatures: seq<string>, dir: StoreDir)
    requires n.narHash.Normalize().Ok? && Clean(n, signatures, dir)
    ensures FeedFree(ValuesOf(n, signatures, n.narHash.Normalize().value.Render(), dir))
    ensures ExpandedWords(dir, SortText(n.references))
  {
    var refs := SortText(n.references);
    HashTextIsPlain(n.narHash);
    SortTextProperties(n.references);
    SignaturesSurvive(signatures);
    forall i | 0 <= i < |refs| ensures ExpandedWord(dir, refs[i]) {
      assert refs[i] in n.references;
    }
    ReferencesValueText(dir, refs);
  }

  lemma CanonicalIsFeedFree(n: NarInfo, signatures: seq<string>, dir: StoreDir)
    requires n.narHash.Normalize().Ok? && FeedFreeSlots(SlotsOf(Canonical(n, signatures)), dir)
    ensures FeedFree(ValuesOf(n, signatures, n.narHash.Normalize().value.Render(), dir))
    ensures ExpandedWords(dir, SortText(n.references))
  {
    HashTextIsPlain(n.narHash);
    ReferencesValueText(dir, SortText(n.references));
  }

  /** Parsing a rendered document gives it back in canonical form exactly when its fields are clean. */
  lemma ParseRendered(n: NarInfo, signatures: seq<string>, dir: StoreDir)
    requires n.narHash.Normalize().Ok?
    ensures Parse(Render(n, signatures, dir).value, dir) == Ok(Canonical(n, signatures)) <==> Clean(n, signatures, dir)
  {
    var hash := n.narHash.Normalize().value.Render();
    var v := ValuesOf(n, signatures, hash, dir);
    var text := Render(n, signatures, dir).value;
    DocumentValues(n, signatures, hash, dir);
    assert text == Unlines(ValueLines(v));
    if Clean(n, signatures, dir) {
      CleanIsFeedFree(n, signatures, dir);
      ParseValues(v, dir);
      ValuesSurvive(n, signatures, dir);
    } else if Parse(text, dir) == Ok(Canonical(n, signatures)) {
      ParsedFeedFree(text, dir);
      CanonicalIsFeedFree(n, signatures, dir);
      ParseValues(v, dir);
      ValuesSurvive(n, signatures, dir);
    }
  }

  /** Rendering what was read gives the same text exactly when the digest has the length of a sha256 digest. */
  lemma RenderCanonical(n: NarInfo, signatures: seq<string>, dir: StoreDir)
    requires n.narHash.Normalize().Ok?
    ensures Render(Canonical(n, signatures), Canonical(n, signatures).signatures, dir) == Render(n, signatures, dir)
            <==> IsSha256Digest(n.narHash.Normalize().value.digest)
  {
    var h := n.narHash.Normalize().value;
    var c := Canonical(n, signatures);
    NormalizeRendered(h);
    SortTextProperties(n.references);
    SortTextProperties(signatures);
    assert c.narHash == Raw(h.Render());
    assert HeaderLines(c, h.Render()) == HeaderLines(n, h.Render());
    assert AddressLines(c) == AddressLines(n);
  }
}
