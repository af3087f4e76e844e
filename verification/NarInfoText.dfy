/** What reading a narinfo does to any text, line by line (crates/depot-core/src/narinfo.rs). */
module NarInfoText {
  import opened Wrappers
  import opened Text
  import opened TextLaws
  import opened NixHash
  import opened NarInfo

  // ---- Fields ----

  /** The beginnings of the lines that are read. */
  const FIELDS: seq<string> :=
    ["StorePath: ", "URL: ", "Compression: ", "NarHash: ", "NarSize: ", "References:", "Deriver: ", "Sig: ", "CA: "]

  predicate Known(line: string) {
    exists i :: 0 <= i < 9 && FIELDS[i] <= line
  }

  /** A line begins with at most one of them. */
  lemma FieldsDiffer(line: string, i: nat, j: nat)
    requires i < 9 && j < 9 && FIELDS[i] <= line && FIELDS[j] <= line
    ensures i == j
  {
    assert FIELDS[i][0] == line[0] == FIELDS[j][0];
    assert FIELDS[i][1] == line[1] == FIELDS[j][1];
    assert FIELDS[i][3] == line[3] == FIELDS[j][3];
  }

  /** What follows this beginning on the first of the first `n` lines that has it. */
  function FirstValue(lines: seq<string>, n: nat, field: string): (v: Option<string>)
    requires n <= |lines|
  {
    if n == 0 then None
    else
      var earlier := FirstValue(lines, n - 1, field);
      if earlier.None? && field <= lines[n - 1] then Some(lines[n - 1][|field|..]) else earlier
  }

  /** What follows `Sig: ` on each of the first `n` lines that has it, in order. */
  function AllSigs(lines: seq<string>, n: nat): (r: seq<string>)
    requires n <= |lines|
  {
    if n == 0 then []
    else AllSigs(lines, n - 1) + if "Sig: " <= lines[n - 1] then [lines[n - 1][5..]] else []
  }

  lemma {:induction false} FirstValueExactly(lines: seq<string>, n: nat, field: string)
    requires n <= |lines|
    ensures FirstValue(lines, n, field).Some? <==> exists k :: 0 <= k < n && field <= lines[k]
    ensures FirstValue(lines, n, field).Some? ==>
              exists k :: 0 <= k < n && field <= lines[k] && FirstValue(lines, n, field) == Some(lines[k][|field|..])
  {
    if n > 0 { FirstValueExactly(lines, n - 1, field); }
  }

  // ---- Lines that stop the reading ----

  predicate Unreadable(line: string) {
    line != [] && ':' !in line && !Known(line)
  }

  predicate BadSize(line: string) {
    "NarSize: " <= line && ParseU64(line[9..]).None?
  }

  /** A field that may be there only once, as all may but `Sig: `, was there before. */
  predicate Repeats(lines: seq<string>, i: nat, f: nat)
    requires i < |lines| && f < 9
  {
    f != 7 && FIELDS[f] <= lines[i] && exists k :: 0 <= k < i && FIELDS[f] <= lines[k]
  }

  predicate Bad(lines: seq<string>, i: nat)
    requires i < |lines|
  {
    Unreadable(lines[i]) || BadSize(lines[i]) || exists f :: 0 <= f < 9 && Repeats(lines, i, f)
  }

  predicate NoneBad(lines: seq<string>) {
    forall i :: 0 <= i < |lines| ==> !Bad(lines, i)
  }

  /** The field name without its colon. */
  const NAMES: seq<string> :=
    ["StorePath", "URL", "Compression", "NarHash", "NarSize", "References", "Deriver", "Sig", "CA"]

  /** The error that a bad line is. */
  ghost predicate IsErrorOf(lines: seq<string>, i: nat, e: ParseError)
    requires i < |lines|
  {
    if Unreadable(lines[i]) then e == InvalidLine(lines[i])
    else if BadSize(lines[i]) then e == InvalidNarSize(lines[i][9..])
    else exists f :: 0 <= f < 9 && Repeats(lines, i, f) && e == DuplicateField(NAMES[f])
  }

  // ---- What the lines before say ----

  /** The slots after the first `n` lines, in terms of these lines. */
  function Said(lines: seq<string>, n: nat, dir: StoreDir): (st: Slots)
    requires n <= |lines|
  {
    Slots(FirstValue(lines, n, "StorePath: "),
          FirstValue(lines, n, "URL: "),
          FirstValue(lines, n, "Compression: "),
          match FirstValue(lines, n, "NarHash: ") case Some(v) => Some(Raw(v)) case None => None,
          match FirstValue(lines, n, "NarSize: ") case Some(v) => ParseU64(v) case None => None,
          match FirstValue(lines, n, "References:") case Some(v) => Some(ExpandAll(dir, SplitWhitespace(v))) case None => None,
          match FirstValue(lines, n, "Deriver: ") case Some(v) => Some(ExpandDisplayPath(dir, v)) case None => None,
          AllSigs(lines, n),
          match FirstValue(lines, n, "CA: ") case Some(v) => Some(RawAddress(v)) case None => None)
  }

  /** A line leaves the values of all fields but its own. */
  lemma OthersStay(lines: seq<string>, n: nat, f: nat, g: nat)
    requires n < |lines| && f < 9 && g < 9 && FIELDS[f] <= lines[n] && g != f
    ensures FirstValue(lines, n + 1, FIELDS[g]) == FirstValue(lines, n, FIELDS[g])
    ensures !(FIELDS[g] <= lines[n])
  {
    if FIELDS[g] <= lines[n] { FieldsDiffer(lines[n], f, g); }
  }

  lemma NotThereYet(lines: seq<string>, n: nat, f: nat)
    requires n < |lines| && f < 9 && f != 7 && FIELDS[f] <= lines[n] && !Repeats(lines, n, f)
    ensures FirstValue(lines, n, FIELDS[f]).None?
    ensures FirstValue(lines, n + 1, FIELDS[f]) == Some(lines[n][|FIELDS[f]|..])
  {
    FirstValueExactly(lines, n, FIELDS[f]);
  }

  lemma ThereAlready(lines: seq<string>, n: nat, f: nat)
    requires n < |lines| && f < 9 && Repeats(lines, n, f)
    ensures FirstValue(lines, n, FIELDS[f]).Some?
  {
    FirstValueExactly(lines, n, FIELDS[f]);
  }

  /** The line begins with field `f` and, if that may be there only once, is the first to do so. */
  predicate Opens(lines: seq<string>, n: nat, f: nat)
    requires n < |lines| && f < 9
  {
    FIELDS[f] <= lines[n] && !Repeats(lines, n, f)
  }

  lemma OthersAsBefore(lines: seq<string>, n: nat, f: nat)
    requires n < |lines| && f < 9 && FIELDS[f] <= lines[n]
    ensures forall g :: 0 <= g < 9 && g != f ==>
              !(FIELDS[g] <= lines[n]) && FirstValue(lines, n + 1, FIELDS[g]) == FirstValue(lines, n, FIELDS[g])
  {
    forall g | 0 <= g < 9 && g != f
      ensures !(FIELDS[g] <= lines[n]) && FirstValue(lines, n + 1, FIELDS[g]) == FirstValue(lines, n, FIELDS[g])
    {
      OthersStay(lines, n, f, g);
    }
  }

  lemma FieldTexts()
    ensures FIELDS[0] == "StorePath: " && FIELDS[1] == "URL: " && FIELDS[2] == "Compression: " && FIELDS[3] == "NarHash: "
    ensures FIELDS[4] == "NarSize: " && FIELDS[5] == "References:" && FIELDS[6] == "Deriver: " && FIELDS[8] == "CA: "
    ensures FIELDS[7] == "Sig: "
  {}

  predicate OnlyField(line: string, f: nat)
    requires f < 9
  {
    FIELDS[f] <= line && forall g :: 0 <= g < 9 && g != f ==> !(FIELDS[g] <= line)
  }

  /** What a line of a field does to the slots. */
  lemma ReadPathFields(st: Slots, line: string, f: nat, dir: StoreDir)
    requires f < 9 && OnlyField(line, f)
    ensures f == 0 && st.storePath.None? ==> ReadLine(st, line, dir) == Ok(st.(storePath := Some(line[11..])))
    ensures f == 1 && st.url.None? ==> ReadLine(st, line, dir) == Ok(st.(url := Some(line[5..])))
    ensures f == 2 && st.compression.None? ==> ReadLine(st, line, dir) == Ok(st.(compression := Some(line[13..])))
    ensures f == 3 && st.narHash.None? ==> ReadLine(st, line, dir) == Ok(st.(narHash := Some(Raw(line[9..]))))
  {
    FieldTexts();
  }

  lemma ReadOtherFields(st: Slots, line: string, f: nat, dir: StoreDir)
    requires f < 9 && OnlyField(line, f)
    ensures f == 4 && !BadSize(line) && st.narSize.None? ==>
              ReadLine(st, line, dir) == Ok(st.(narSize := ParseU64(line[9..])))
    ensures f == 5 && st.references.None? ==>
              ReadLine(st, line, dir) == Ok(st.(references := Some(ExpandAll(dir, SplitWhitespace(line[11..])))))
    ensures f == 6 && st.deriver.None? ==>
              ReadLine(st, line, dir) == Ok(st.(deriver := Some(ExpandDisplayPath(dir, line[9..]))))
    ensures f == 7 ==> ReadLine(st, line, dir) == Ok(st.(signatures := st.signatures + [line[5..]]))
    ensures f == 8 && st.ca.None? ==> ReadLine(st, line, dir) == Ok(st.(ca := Some(RawAddress(line[4..]))))
  {
    hide ParseU64, ExpandDisplayPath, SplitWhitespace;
    FieldTexts();
  }

  lemma FieldSays(lines: seq<string>, n: nat, f: nat, dir: StoreDir)
    requires n < |lines| && f < 9 && Opens(lines, n, f) && !BadSize(lines[n])
    ensures var st, v := Said(lines, n, dir), lines[n][|FIELDS[f]|..];
            Said(lines, n + 1, dir) ==
            match f
            case 0 => st.(storePath := Some(v))
            case 1 => st.(url := Some(v))
            case 2 => st.(compression := Some(v))
            case 3 => st.(narHash := Some(Raw(v)))
            case 4 => st.(narSize := ParseU64(v))
            case 5 => st.(references := Some(ExpandAll(dir, SplitWhitespace(v))))
            case 6 => st.(deriver := Some(ExpandDisplayPath(dir, v)))
            case 7 => st.(signatures := st.signatures + [v])
            case _ => st.(ca := Some(RawAddress(v)))
  {
    hide FirstValue, ParseU64, ExpandDisplayPath, SplitWhitespace;
    FieldTexts();
    OthersAsBefore(lines, n, f);
    if f != 7 {
      NotThereYet(lines, n, f);
      assert !(FIELDS[7] <= lines[n]);
    }
    forall g | 0 <= g < 9 && g != f ensures FirstValue(lines, n + 1, FIELDS[g]) == FirstValue(lines, n, FIELDS[g]) {}
  }

  /** What a line of field `f` does. */
  lemma ReadField(lines: seq<string>, n: nat, f: nat, dir: StoreDir)
    requires n < |lines| && f < 9 && Opens(lines, n, f) && !BadSize(lines[n])
    ensures ReadLine(Said(lines, n, dir), lines[n], dir) == Ok(Said(lines, n + 1, dir))
  {
    hide FirstValue, ParseU64, ExpandDisplayPath, SplitWhitespace, ReadLine;
    FieldTexts();
    OthersAsBefore(lines, n, f);
    assert OnlyField(lines[n], f);
    FieldSays(lines, n, f, dir);
    if f != 7 { NotThereYet(lines, n, f); }
    ReadPathFields(Said(lines, n, dir), lines[n], f, dir);
    ReadOtherFields(Said(lines, n, dir), lines[n], f, dir);
  }

  lemma FieldlessSays(lines: seq<string>, n: nat, dir: StoreDir)
    requires n < |lines| && !Known(lines[n])
    ensures Said(lines, n + 1, dir) == Said(lines, n, dir)
  {
    forall f | 0 <= f < 9 ensures FirstValue(lines, n + 1, FIELDS[f]) == FirstValue(lines, n, FIELDS[f]) {
      assert !(FIELDS[f] <= lines[n]);
    }
    FieldTexts();
    assert !(FIELDS[7] <= lines[n]);
  }

  /** A line without a field changes nothing when it is empty or has a colon, whatever it is about. */
  lemma ReadFieldless(st: Slots, line: string, dir: StoreDir)
    requires !Known(line)
    ensures ReadLine(st, line, dir) == if line == [] || ':' in line then Ok(st) else Err(InvalidLine(line))
  {
    assert !(FIELDS[0] <= line) && !(FIELDS[1] <= line) && !(FIELDS[2] <= line) && !(FIELDS[3] <= line);
    assert !(FIELDS[4] <= line) && !(FIELDS[5] <= line) && !(FIELDS[6] <= line) && !(FIELDS[7] <= line);
    assert !(FIELDS[8] <= line);
  }

  lemma ReadGood(lines: seq<string>, n: nat, dir: StoreDir)
    requires n < |lines| && !Bad(lines, n)
    ensures ReadLine(Said(lines, n, dir), lines[n], dir) == Ok(Said(lines, n + 1, dir))
  {
    if f :| 0 <= f < 9 && FIELDS[f] <= lines[n] {
      assert !Repeats(lines, n, f);
      ReadField(lines, n, f, dir);
    } else {
      FieldlessSays(lines, n, dir);
      ReadFieldless(Said(lines, n, dir), lines[n], dir);
    }
  }

  lemma {:induction false} ReadsGood(lines: seq<string>, n: nat, dir: StoreDir)
    requires n <= |lines| && forall i :: 0 <= i < n ==> !Bad(lines, i)
    ensures ReadLines(EMPTY_SLOTS, lines[..n], dir) == Ok(Said(lines, n, dir))
  {
    hide Bad, Said, ReadLine;
    if n == 0 {
      SaidNothing(lines, dir);
    } else {
      ReadsGood(lines, n - 1, dir);
      ReadGood(lines, n - 1, dir);
      assert lines[..n] == lines[..n - 1] + [lines[n - 1]];
      ReadLinesAppend(EMPTY_SLOTS, lines[..n - 1], [lines[n - 1]], dir);
      ReadSingle(Said(lines, n - 1, dir), lines[n - 1], dir);
    }
  }

  lemma SaidNothing(lines: seq<string>, dir: StoreDir)
    ensures Said(lines, 0, dir) == EMPTY_SLOTS
  {}

  lemma ReadSingle(st: Slots, line: string, dir: StoreDir)
    ensures ReadLines(st, [line], dir) == ReadLine(st, line, dir)
  {
    assert [line][1..] == [];
  }

  // ---- The first bad line ----

  /** A field that is there already, and may be only once, is refused by its name. */
  lemma RefusePathFields(st: Slots, line: string, f: nat, dir: StoreDir)
    requires f < 9 && OnlyField(line, f)
    ensures f == 0 && st.storePath.Some? ==> ReadLine(st, line, dir) == Err(DuplicateField("StorePath"))
    ensures f == 1 && st.url.Some? ==> ReadLine(st, line, dir) == Err(DuplicateField("URL"))
    ensures f == 2 && st.compression.Some? ==> ReadLine(st, line, dir) == Err(DuplicateField("Compression"))
    ensures f == 3 && st.narHash.Some? ==> ReadLine(st, line, dir) == Err(DuplicateField("NarHash"))
  {
    FieldTexts();
  }

  lemma RefuseOtherFields(st: Slots, line: string, f: nat, dir: StoreDir)
    requires f < 9 && OnlyField(line, f)
    ensures f == 4 && BadSize(line) ==> ReadLine(st, line, dir) == Err(InvalidNarSize(line[9..]))
    ensures f == 4 && !BadSize(line) && st.narSize.Some? ==> ReadLine(st, line, dir) == Err(DuplicateField("NarSize"))
    ensures f == 5 && st.references.Some? ==> ReadLine(st, line, dir) == Err(DuplicateField("References"))
    ensures f == 6 && st.deriver.Some? ==> ReadLine(st, line, dir) == Err(DuplicateField("Deriver"))
    ensures f == 8 && st.ca.Some? ==> ReadLine(st, line, dir) == Err(DuplicateField("CA"))
  {
    hide ParseU64, ExpandDisplayPath, SplitWhitespace;
    FieldTexts();
  }

  lemma SizeWasRead(lines: seq<string>, n: nat)
    requires n <= |lines| && forall i :: 0 <= i < n ==> !Bad(lines, i)
    ensures FirstValue(lines, n, "NarSize: ").Some? ==> ParseU64(FirstValue(lines, n, "NarSize: ").value).Some?
  {
    FirstValueExactly(lines, n, "NarSize: ");
    if FirstValue(lines, n, "NarSize: ").Some? {
      var k :| 0 <= k < n && "NarSize: " <= lines[k] && FirstValue(lines, n, "NarSize: ") == Some(lines[k][9..]);
      assert !Bad(lines, k) && !BadSize(lines[k]);
    }
  }

  lemma ReadRepeated(lines: seq<string>, n: nat, f: nat, dir: StoreDir)
    requires n < |lines| && (forall i :: 0 <= i < n ==> !Bad(lines, i))
    requires f < 9 && Repeats(lines, n, f) && !BadSize(lines[n])
    ensures ReadLine(Said(lines, n, dir), lines[n], dir) == Err(DuplicateField(NAMES[f]))
  {
    hide FirstValue, ParseU64, ExpandDisplayPath, SplitWhitespace, ReadLine;
    FieldTexts();
    OthersAsBefore(lines, n, f);
    assert OnlyField(lines[n], f);
    ThereAlready(lines, n, f);
    SizeWasRead(lines, n);
    RefusePathFields(Said(lines, n, dir), lines[n], f, dir);
    RefuseOtherFields(Said(lines, n, dir), lines[n], f, dir);
  }

  lemma ReadBad(lines: seq<string>, n: nat, dir: StoreDir)
    requires n < |lines| && (forall i :: 0 <= i < n ==> !Bad(lines, i)) && Bad(lines, n)
    ensures var r := ReadLine(Said(lines, n, dir), lines[n], dir); r.Err? && IsErrorOf(lines, n, r.error)
  {
    hide ReadLine, Said;
    if Unreadable(lines[n]) {
      ReadFieldless(Said(lines, n, dir), lines[n], dir);
    } else if BadSize(lines[n]) {
      FieldTexts();
      OthersAsBefore(lines, n, 4);
      assert OnlyField(lines[n], 4);
      RefuseOtherFields(Said(lines, n, dir), lines[n], 4, dir);
    } else {
      var f: nat :| f < 9 && Repeats(lines, n, f);
      ReadRepeated(lines, n, f, dir);
    }
  }

  // ---- Whole texts ----

  /** The document that lines without a bad one make up, or the first required field that none of them has. */
  function DocumentOf(lines: seq<string>, dir: StoreDir): (r: Result<NarInfo, ParseError>) {
    var storePath, url := FirstValue(lines, |lines|, "StorePath: "), FirstValue(lines, |lines|, "URL: ");
    var compression, narHash := FirstValue(lines, |lines|, "Compression: "), FirstValue(lines, |lines|, "NarHash: ");
    var narSize, references := FirstValue(lines, |lines|, "NarSize: "), FirstValue(lines, |lines|, "References:");
    var deriver, ca := FirstValue(lines, |lines|, "Deriver: "), FirstValue(lines, |lines|, "CA: ");
    if storePath.None? then Err(MissingField("StorePath"))
    else if url.None? then Err(MissingField("URL"))
    else if compression.None? then Err(MissingField("Compression"))
    else if narHash.None? then Err(MissingField("NarHash"))
    else if narSize.None? then Err(MissingField("NarSize"))
    else if references.None? then Err(MissingField("References"))
    else
      Ok(NarInfo(storePath.value, url.value, compression.value, Raw(narHash.value), ParseU64(narSize.value).GetOr(0),
                 ExpandAll(dir, SplitWhitespace(references.value)),
                 if deriver.Some? then Some(ExpandDisplayPath(dir, deriver.value)) else None,
                 AllSigs(lines, |lines|),
                 if ca.Some? then Some(RawAddress(ca.value)) else None))
  }

  /** Lines without a bad one are read to the document they make up. */
  lemma GoodLinesParse(input: string, dir: StoreDir)
    requires NoneBad(Lines(input))
    ensures Parse(input, dir) == DocumentOf(Lines(input), dir)
  {
    hide FirstValue, ParseU64, ExpandDisplayPath, SplitWhitespace, ReadLines;
    var lines := Lines(input);
    ReadsGood(lines, |lines|, dir);
    assert lines[..|lines|] == lines;
    SizeWasRead(lines, |lines|);
  }

  /** Otherwise the first bad line is the error. */
  lemma BadLineFails(input: string, i: nat, dir: StoreDir)
    requires var lines := Lines(input); i < |lines| && Bad(lines, i) && forall k :: 0 <= k < i ==> !Bad(lines, k)
    ensures Parse(input, dir).Err? && IsErrorOf(Lines(input), i, Parse(input, dir).error)
  {
    hide Lines, Bad, Said, ReadLine, IsErrorOf;
    var lines := Lines(input);
    ReadsGood(lines, i, dir);
    ReadBad(lines, i, dir);
    assert lines == lines[..i] + lines[i..];
    ReadLinesAppend(EMPTY_SLOTS, lines[..i], lines[i..], dir);
  }

  /** A field that may be there only once is there on one line, and that line has its value. */
  lemma OnlyLineOf(lines: seq<string>, f: nat, v: string) returns (k: nat)
    requires f < 9 && f != 7 && NoneBad(lines)
    requires FirstValue(lines, |lines|, FIELDS[f]) == Some(v)
    ensures k < |lines| && lines[k] == FIELDS[f] + v && forall j :: 0 <= j < |lines| && FIELDS[f] <= lines[j] ==> j == k
  {
    FirstValueExactly(lines, |lines|, FIELDS[f]);
    k :| 0 <= k < |lines| && FIELDS[f] <= lines[k] && FirstValue(lines, |lines|, FIELDS[f]) == Some(lines[k][|FIELDS[f]|..]);
    forall j | 0 <= j < |lines| && FIELDS[f] <= lines[j] ensures j == k {
      assert !Repeats(lines, j, f) by { assert !Bad(lines, j); }
      assert !Repeats(lines, k, f) by { assert !Bad(lines, k); }
    }
  }

  /** A line about anything else, like `FileHash: ` and `FileSize: `, may stand anywhere and changes nothing. */
  lemma OtherLinesIgnored(before: string, line: string, after: string, dir: StoreDir)
    requires before == [] || before[|before| - 1] == '\n'
    requires '\n' !in line && ':' in line && !Known(line)
    ensures Parse(before + line + ['\n'] + after, dir) == Parse(before + after, dir)
  {
    hide Lines, ReadLine, Known;
    var text := StripCr(line);
    OtherStripped(line);
    LinesAppend(before, line + ['\n'] + after);
    LinesAppend(before, after);
    LinesOfLine(line, after);
    assert before + line + ['\n'] + after == before + (line + ['\n'] + after);
    ReadLinesAppend(EMPTY_SLOTS, Lines(before), [text] + Lines(after), dir);
    ReadLinesAppend(EMPTY_SLOTS, Lines(before), Lines(after), dir);
    if ReadLines(EMPTY_SLOTS, Lines(before), dir).Ok? {
      var st := ReadLines(EMPTY_SLOTS, Lines(before), dir).value;
      ReadLinesAppend(st, [text], Lines(after), dir);
      ReadSingle(st, text, dir);
      ReadFieldless(st, text, dir);
    }
  }

  lemma OtherStripped(line: string)
    requires ':' in line && !Known(line)
    ensures ':' in StripCr(line) && !Known(StripCr(line))
  {
    var text := StripCr(line);
    var i :| 0 <= i < |line| && line[i] == ':';
    assert text[i] == ':';
    assert text <= line;
    forall f | 0 <= f < 9 ensures FIELDS[f] <= text ==> FIELDS[f] <= line {}
  }

  /** For one: the size of the compressed archive. */
  lemma FileSizeIgnored(before: string, size: string, after: string, dir: StoreDir)
    requires before == [] || before[|before| - 1] == '\n'
    requires '\n' !in size
    ensures Parse(before + ("FileSize: " + size) + ['\n'] + after, dir) == Parse(before + after, dir)
  {
    var line := "FileSize: " + size;
    assert line[8] == ':';
    forall f | 0 <= f < 9 ensures !(FIELDS[f] <= line) {
      FieldTexts();
      assert line[0] == 'F';
    }
    OtherLinesIgnored(before, line, after, dir);
  }
}
