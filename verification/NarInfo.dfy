/** Narinfo documents: reading and writing them (crates/depot-core/src/narinfo.rs). */
module NarInfo {
  import opened Wrappers
  import opened Text
  import opened NixHash

  datatype NarInfo = NarInfo(
    storePath: string,
    url: string,
    compression: string,
    narHash: Hash,
    narSize: U64,
    references: seq<string>,
    deriver: Option<string>,
    signatures: seq<string>,
    ca: Option<ContentAddress>)

  datatype ParseError =
    | InvalidLine(line: string)
    | DuplicateField(name: string)
    | MissingField(name: string)
    | InvalidNarSize(text: string)

  /** The slots the parser fills. */
  datatype Slots = Slots(
    storePath: Option<string>,
    url: Option<string>,
    compression: Option<string>,
    narHash: Option<Hash>,
    narSize: Option<U64>,
    references: Option<seq<string>>,
    deriver: Option<string>,
    signatures: seq<string>,
    ca: Option<ContentAddress>)

  const EMPTY_SLOTS: Slots := Slots(None, None, None, None, None, None, None, [], None)

  /** `set_once`. */
  function SetOnce<T>(slot: Option<T>, value: T, name: string): (r: Result<Option<T>, ParseError>) {
    if slot.Some? then Err(DuplicateField(name)) else Ok(Some(value))
  }

  function ExpandAll(dir: StoreDir, words: seq<string>): (r: seq<string>)
    ensures |r| == |words|
    ensures forall i :: 0 <= i < |r| ==> r[i] == ExpandDisplayPath(dir, words[i])
  {
    if words == [] then [] else [ExpandDisplayPath(dir, words[0])] + ExpandAll(dir, words[1..])
  }

  /** The effect of one line on the slots. */
  function ReadLine(st: Slots, line: string, dir: StoreDir): (r: Result<Slots, ParseError>) {
    if line == [] then Ok(st)
    else if "StorePath: " <= line then
      var v :- SetOnce(st.storePath, line[11..], "StorePath");
      Ok(st.(storePath := v))
    else if "URL: " <= line then
      var v :- SetOnce(st.url, line[5..], "URL");
      Ok(st.(url := v))
    else if "Compression: " <= line then
      var v :- SetOnce(st.compression, line[13..], "Compression");
      Ok(st.(compression := v))
    else if "NarHash: " <= line then
      var v :- SetOnce(st.narHash, Raw(line[9..]), "NarHash");
      Ok(st.(narHash := v))
    else if "NarSize: " <= line then
      match ParseU64(line[9..])
      case None => Err(InvalidNarSize(line[9..]))
      case Some(n) =>
        var v :- SetOnce(st.narSize, n, "NarSize");
        Ok(st.(narSize := v))
    else if "References:" <= line then
      if st.references.Some? then Err(DuplicateField("References"))
      else Ok(st.(references := Some(ExpandAll(dir, SplitWhitespace(line[11..])))))
    else if "Deriver: " <= line then
      if st.deriver.Some? then Err(DuplicateField("Deriver"))
      else Ok(st.(deriver := Some(ExpandDisplayPath(dir, line[9..]))))
    else if "Sig: " <= line then
      Ok(st.(signatures := st.signatures + [line[5..]]))
    else if "CA: " <= line then
      var v :- SetOnce(st.ca, RawAddress(line[4..]), "CA");
      Ok(st.(ca := v))
    else if ':' in line then Ok(st)
    else Err(InvalidLine(line))
  }

  function ReadLines(st: Slots, lines: seq<string>, dir: StoreDir): (r: Result<Slots, ParseError>)
    decreases |lines|
  {
    if lines == [] then Ok(st)
    else
      var st' :- ReadLine(st, lines[0], dir);
      ReadLines(st', lines[1..], dir)
  }

  function Required<T>(slot: Option<T>, name: string): (r: Result<T, ParseError>) {
    match slot case Some(v) => Ok(v) case None => Err(MissingField(name))
  }

  /** The document the filled slots make up; the first missing field is the error. */
  function FromSlots(st: Slots): (r: Result<NarInfo, ParseError>) {
    var storePath :- Required(st.storePath, "StorePath");
    var url :- Required(st.url, "URL");
    var compression :- Required(st.compression, "Compression");
    var narHash :- Required(st.narHash, "NarHash");
    var narSize :- Required(st.narSize, "NarSize");
    var references :- Required(st.references, "References");
    Ok(NarInfo(storePath, url, compression, narHash, narSize, references, st.deriver, st.signatures, st.ca))
  }

  function Parse(input: string, dir: StoreDir): (r: Result<NarInfo, ParseError>) {
    var st :- ReadLines(EMPTY_SLOTS, Lines(input), dir);
    FromSlots(st)
  }

  lemma {:induction false} ReadLinesAppend(st: Slots, a: seq<string>, b: seq<string>, dir: StoreDir)
    ensures ReadLines(st, a + b, dir) ==
            match ReadLines(st, a, dir) case Ok(st') => ReadLines(st', b, dir) case Err(e) => Err(e)
    decreases |a|
  {
    if a == [] {
      assert a + b == b;
    } else {
      assert (a + b)[1..] == a[1..] + b;
      match ReadLine(st, a[0], dir)
      case Ok(st') => ReadLinesAppend(st', a[1..], b, dir);
      case Err(_) =>
    }
  }

  /** `parse_narinfo`: one pass over the lines, filling mutable slots. */
  method ParseNarInfo(input: string, dir: StoreDir) returns (r: Result<NarInfo, ParseError>)
    ensures r == Parse(input, dir)
  {
    var storePath: Option<string> := None;
    var url: Option<string> := None;
    var compression: Option<string> := None;
    var narHash: Option<Hash> := None;
    var narSize: Option<U64> := None;
    var references: Option<seq<string>> := None;
    var deriver: Option<string> := None;
    var signatures: seq<string> := [];
    var ca: Option<ContentAddress> := None;

    var lines := Lines(input);
    var index := 0;
    ghost var start := EMPTY_SLOTS;
    while index < |lines|
      invariant index <= |lines|
      invariant start == Slots(storePath, url, compression, narHash, narSize, references, deriver, signatures, ca)
      invariant ReadLines(EMPTY_SLOTS, lines, dir) == ReadLines(start, lines[index..], dir)
    {
      var line := lines[index];
      assert lines[index..][1..] == lines[index + 1..];
      index := index + 1;
      if line == [] {
        continue;
      }
      if "StorePath: " <= line {
        storePath :- SetOnce(storePath, line[11..], "StorePath");
      } else if "URL: " <= line {
        url :- SetOnce(url, line[5..], "URL");
      } else if "Compression: " <= line {
        compression :- SetOnce(compression, line[13..], "Compression");
      } else if "NarHash: " <= line {
        narHash :- SetOnce(narHash, Raw(line[9..]), "NarHash");
      } else if "NarSize: " <= line {
        match ParseU64(line[9..]) {
          case None => return Err(InvalidNarSize(line[9..]));
          case Some(n) => narSize :- SetOnce(narSize, n, "NarSize");
        }
      } else if "References:" <= line {
        if references.Some? {
          return Err(DuplicateField("References"));
        }
        var value := line[11..];
        SplitAllWhitespace(value);
        references := Some(if AllWhitespace(value) then [] else ExpandAll(dir, SplitWhitespace(value)));
      } else if "Deriver: " <= line {
        if deriver.Some? {
          return Err(DuplicateField("Deriver"));
        }
        deriver := Some(ExpandDisplayPath(dir, line[9..]));
      } else if "Sig: " <= line {
        signatures := signatures + [line[5..]];
      } else if "CA: " <= line {
        ca :- SetOnce(ca, RawAddress(line[4..]), "CA");
      } else if ':' !in line {
        return Err(InvalidLine(line));
      }
      start := Slots(storePath, url, compression, narHash, narSize, references, deriver, signatures, ca);
    }
    assert lines[index..] == [];
    return FromSlots(Slots(storePath, url, compression, narHash, narSize, references, deriver, signatures, ca));
  }

  // ---- Rendering ----

  function DisplayAll(dir: StoreDir, paths: seq<string>): (r: seq<string>)
    ensures |r| == |paths|
    ensures forall i :: 0 <= i < |r| ==> r[i] == DisplayPath(dir, paths[i])
  {
    if paths == [] then [] else [DisplayPath(dir, paths[0])] + DisplayAll(dir, paths[1..])
  }

  function ReferencesLine(dir: StoreDir, references: seq<string>): (line: string) {
    "References:" + if references == [] then " " else SpaceSeparated(DisplayAll(dir, references))
  }

  function Labelled(heading: string, values: seq<string>): (lines: seq<string>) {
    if values == [] then [] else [heading + values[0]] + Labelled(heading, values[1..])
  }

  function HeaderLines(n: NarInfo, hash: string): (lines: seq<string>) {
    [ "StorePath: " + n.storePath,
      "URL: " + n.url,
      "Compression: " + n.compression,
      "NarHash: " + hash,
      "NarSize: " + Decimal(n.narSize) ]
  }

  function DeriverLines(n: NarInfo, dir: StoreDir): (lines: seq<string>) {
    match n.deriver case Some(d) => ["Deriver: " + DisplayPath(dir, d)] case None => []
  }

  function AddressLines(n: NarInfo): (lines: seq<string>) {
    match n.ca case Some(a) => ["CA: " + a.Format()] case None => []
  }

  /** The lines of a rendered document whose hash text is `hash`. */
  function DocumentLines(n: NarInfo, signatures: seq<string>, hash: string, dir: StoreDir): (lines: seq<string>) {
    HeaderLines(n, hash)
    + [ReferencesLine(dir, SortText(n.references))]
    + DeriverLines(n, dir)
    + Labelled("Sig: ", SortText(signatures))
    + AddressLines(n)
  }

  function Render(n: NarInfo, signatures: seq<string>, dir: StoreDir): (r: Result<string, HashError>) {
    var hash :- n.narHash.Normalize();
    Ok(Unlines(DocumentLines(n, signatures, hash.Render(), dir)))
  }

  /** Appends one line to the buffer; `done` names the lines written so far. */
  method WriteLine(out: string, line: string, ghost done: seq<string>) returns (r: string)
    requires out == Unlines(done)
    ensures r == Unlines(done + [line])
  {
    UnlinesAppend(done, [line]);
    r := out + line + "\n";
  }

  lemma NextWord(line: string, words: seq<string>)
    requires words != []
    ensures line + SpaceSeparated(words) == line + " " + words[0] + SpaceSeparated(words[1..])
  {}

  method WriteReferences(dir: StoreDir, refs: seq<string>) returns (line: string)
    ensures line == ReferencesLine(dir, refs)
  {
    line := "References:";
    if |refs| == 0 {
      line := line + " ";
      return;
    }
    ghost var whole := ReferencesLine(dir, refs);
    assert refs[0..] == refs;
    for i := 0 to |refs|
      invariant line + SpaceSeparated(DisplayAll(dir, refs[i..])) == whole
    {
      NextWord(line, DisplayAll(dir, refs[i..]));
      assert refs[i..][1..] == refs[i + 1..];
      line := line + " ";
      line := line + DisplayPath(dir, refs[i]);
    }
    assert refs[|refs|..] == [];
  }

  method WriteHeader(n: NarInfo, hash: string) returns (out: string)
    ensures out == Unlines(HeaderLines(n, hash))
  {
    ghost var lines := HeaderLines(n, hash);
    out := "";
    out := WriteLine(out, "StorePath: " + n.storePath, []);
    assert [] + [lines[0]] == [lines[0]];
    out := WriteLine(out, "URL: " + n.url, [lines[0]]);
    out := WriteLine(out, "Compression: " + n.compression, [lines[0]] + [lines[1]]);
    out := WriteLine(out, "NarHash: " + hash, [lines[0]] + [lines[1]] + [lines[2]]);
    out := WriteLine(out, "NarSize: " + Decimal(n.narSize), [lines[0]] + [lines[1]] + [lines[2]] + [lines[3]]);
    assert [lines[0]] + [lines[1]] + [lines[2]] + [lines[3]] + [lines[4]] == lines;
  }

  method WriteSignatures(out: string, signatures: seq<string>, ghost done: seq<string>) returns (r: string)
    requires out == Unlines(done)
    ensures r == Unlines(done + Labelled("Sig: ", SortText(signatures)))
  {
    r := out;
    var sorted := SortText(signatures);
    ghost var lines := Labelled("Sig: ", sorted);
    LabelledLines("Sig: ", sorted);
    assert done + lines[..0] == done;
    if |signatures| != 0 {
      for i := 0 to |sorted|
        invariant r == Unlines(done + lines[..i])
      {
        r := WriteLine(r, "Sig: " + sorted[i], done + lines[..i]);
        assert done + lines[..i] + [lines[i]] == done + lines[..i + 1];
      }
    } else {
      SortTextProperties(signatures);
    }
    assert lines[..|sorted|] == lines;
  }

  /** `render_with_signatures`: appends line by line to one buffer. */
  method RenderWithSignatures(n: NarInfo, signatures: seq<string>, dir: StoreDir)
    returns (r: Result<string, HashError>)
    ensures r == Render(n, signatures, dir)
  {
    var narHash :- n.narHash.Normalize();
    ghost var lines := DocumentLines(n, signatures, narHash.Render(), dir);
    var out := WriteHeader(n, narHash.Render());
    ghost var done := HeaderLines(n, narHash.Render());
    var refs := WriteReferences(dir, SortText(n.references));
    out := WriteLine(out, refs, done);
    done := done + [refs];
    if n.deriver.Some? {
      out := WriteLine(out, "Deriver: " + DisplayPath(dir, n.deriver.value), done);
    } else {
      assert done + DeriverLines(n, dir) == done;
    }
    done := done + DeriverLines(n, dir);
    out := WriteSignatures(out, signatures, done);
    done := done + Labelled("Sig: ", SortText(signatures));
    if n.ca.Some? {
      out := WriteLine(out, "CA: " + n.ca.value.Format(), done);
    } else {
      assert done + AddressLines(n) == done;
    }
    return Ok(out);
  }

  lemma {:induction false} LabelledLines(heading: string, values: seq<string>)
    ensures |Labelled(heading, values)| == |values|
    ensures forall i :: 0 <= i < |values| ==> Labelled(heading, values)[i] == heading + values[i]
  {
    if values != [] { LabelledLines(heading, values[1..]); }
  }
}
