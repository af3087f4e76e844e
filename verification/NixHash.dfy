/** Hash spellings, content addresses, store directories and store path hashes (crates/depot-core/src/nix.rs). */
module NixHash {
  import opened Wrappers
  import opened Bytes
  import opened Text
  import NixBase32
  import Base64

  // ---- Hash algorithms and normalised hashes ----

  datatype HashAlgorithm = Sha256 | Sha512 | OtherAlgorithm(name: string) {
    function Name(): (s: string) {
      match this
      case Sha256 => "sha256"
      case Sha512 => "sha512"
      case OtherAlgorithm(name) => name
    }
  }

  function ParseAlgorithm(s: string): (a: HashAlgorithm) {
    if s == "sha256" then Sha256 else if s == "sha512" then Sha512 else OtherAlgorithm(s)
  }

  datatype HashError =
    | UnsupportedTextFormat(text: string)
    | UnsupportedAlgorithm(algorithm: string)
    | UnsupportedEncoding(name: string)
    | InvalidNixBase32Digest(algorithm: string, digest: string)
    | InvalidBase64(digest: string)

  datatype NormalizedHash = NormalizedHash(algorithm: HashAlgorithm, digest: string) {
    function Render(): (s: string) {
      algorithm.Name() + ":" + digest
    }
  }

  predicate IsNixBase32Text(s: string) {
    s != [] && NixBase32.AlphabetText(s)
  }

  predicate IsSha256Digest(s: string) {
    IsNixBase32Text(s) && |s| == 52
  }

  /** `NormalizedNarHash::new`: only sha256 digests of 52 base-32 characters pass. */
  function NewNormalizedHash(algorithm: HashAlgorithm, digest: string): (r: Result<NormalizedHash, HashError>)
    ensures r.Ok? <==> algorithm == Sha256 && IsSha256Digest(digest)
    ensures r.Ok? ==> r.value == NormalizedHash(algorithm, digest)
  {
    if algorithm != Sha256 then Err(UnsupportedAlgorithm(algorithm.Name()))
    else if !IsNixBase32Text(digest) then Err(InvalidNixBase32Digest(algorithm.Name(), digest))
    else if |digest| != 52 then Err(InvalidNixBase32Digest(algorithm.Name(), digest))
    else Ok(NormalizedHash(algorithm, digest))
  }

  /** `from_base64_digest`: re-spells the decoded bytes, however many they are. */
  function FromBase64Digest(algorithm: HashAlgorithm, digest: string): (r: Result<NormalizedHash, HashError>)
    ensures r.Ok? ==> r.value.algorithm == Sha256 && NixBase32.AlphabetText(r.value.digest)
  {
    if algorithm != Sha256 then Err(UnsupportedAlgorithm(algorithm.Name()))
    else match Base64.Decode(digest)
      case None => Err(InvalidBase64(digest))
      case Some(bytes) =>
        NixBase32.Sha256DigestText(bytes);
        Ok(NormalizedHash(algorithm, NixBase32.Encode(bytes)))
  }

  datatype HashSyntax = Sri | ColonSeparated
  datatype ParsedHash = ParsedHash(algorithm: HashAlgorithm, syntax: HashSyntax, digest: string)

  /** A colon takes precedence over a hyphen. */
  function ParseHashText(s: string): (r: Option<ParsedHash>) {
    match SplitOnce(s, ':')
    case Some((algorithm, digest)) => Some(ParsedHash(ParseAlgorithm(algorithm), ColonSeparated, digest))
    case None =>
      match SplitOnce(s, '-')
      case Some((algorithm, digest)) => Some(ParsedHash(ParseAlgorithm(algorithm), Sri, digest))
      case None => None
  }

  function NormalizeText(s: string): (r: Result<NormalizedHash, HashError>)
    ensures r.Ok? ==> r.value.algorithm == Sha256 && NixBase32.AlphabetText(r.value.digest)
  {
    match ParseHashText(s)
    case None => Err(UnsupportedTextFormat(s))
    case Some(ParsedHash(algorithm, Sri, digest)) => FromBase64Digest(algorithm, digest)
    case Some(ParsedHash(algorithm, ColonSeparated, digest)) => NewNormalizedHash(algorithm, digest)
  }

  datatype HashEncoding = Base64Encoding | NixBase32Encoding | OtherEncoding(name: string)

  datatype Hash =
    | Raw(text: string)
    | Structured(algorithm: HashAlgorithm, encoding: Option<HashEncoding>, digest: string)
  {
    function Normalize(): (r: Result<NormalizedHash, HashError>)
      ensures r.Ok? ==> r.value.algorithm == Sha256 && NixBase32.AlphabetText(r.value.digest)
    {
      match this
      case Raw(text) => NormalizeText(text)
      case Structured(algorithm, Some(NixBase32Encoding), digest) => NewNormalizedHash(algorithm, digest)
      case Structured(algorithm, Some(Base64Encoding), digest) => FromBase64Digest(algorithm, digest)
      case Structured(algorithm, None, digest) => FromBase64Digest(algorithm, digest)
      case Structured(_, Some(OtherEncoding(name)), _) => Err(UnsupportedEncoding(name))
    }

    /** `render_text`: the text a client sends. */
    function RenderText(): (s: string) {
      match this
      case Raw(text) => text
      case Structured(algorithm, Some(NixBase32Encoding), digest) => algorithm.Name() + ":" + digest
      case Structured(algorithm, _, digest) => algorithm.Name() + "-" + digest
    }
  }

  /** A normalised hash that its own text form denotes. */
  predicate WellFormed(h: NormalizedHash) {
    h.algorithm == Sha256 && IsSha256Digest(h.digest)
  }

  /** A text is read as colon-separated exactly at its first colon, whatever the algorithm. */
  lemma ParseColonText(algorithm: string, digest: string)
    requires ':' !in algorithm
    ensures ParseHashText(algorithm + [':'] + digest) == Some(ParsedHash(ParseAlgorithm(algorithm), ColonSeparated, digest))
  {
    SplitOnceUnique(algorithm, ':', digest);
  }

  /** A text without a colon is read as SRI at its first hyphen, whatever the algorithm. */
  lemma ParseSriText(algorithm: string, digest: string)
    requires ':' !in algorithm && '-' !in algorithm && ':' !in digest
    ensures ParseHashText(algorithm + ['-'] + digest) == Some(ParsedHash(ParseAlgorithm(algorithm), Sri, digest))
  {
    SplitOnceUnique(algorithm, '-', digest);
  }

  lemma ParseSha256Colon(digest: string)
    ensures ParseHashText("sha256:" + digest) == Some(ParsedHash(Sha256, ColonSeparated, digest))
  {
    ParseColonText("sha256", digest);
    assert "sha256:" + digest == "sha256" + [':'] + digest;
  }

  lemma ParseSha256Sri(digest: string)
    requires ':' !in digest
    ensures ParseHashText("sha256-" + digest) == Some(ParsedHash(Sha256, Sri, digest))
  {
    ParseSriText("sha256", digest);
    assert "sha256-" + digest == "sha256" + ['-'] + digest;
  }

  /** Reading the text of a well-formed normalised hash gives the hash back. */
  lemma NormalizeRendered(h: NormalizedHash)
    requires h.algorithm == Sha256
    ensures IsSha256Digest(h.digest) ==> Raw(h.Render()).Normalize() == Ok(h)
    ensures !IsSha256Digest(h.digest) ==> Raw(h.Render()).Normalize().Err?
  {
    ParseSha256Colon(h.digest);
    assert h.Render() == "sha256:" + h.digest;
  }

  /** The five spellings of one 32-byte digest. */
  function Spellings(bytes: seq<Byte>): (r: seq<Hash>) {
    [ Raw("sha256-" + Base64.Encode(bytes)),
      Raw("sha256:" + NixBase32.Encode(bytes)),
      Structured(Sha256, Some(Base64Encoding), Base64.Encode(bytes)),
      Structured(Sha256, None, Base64.Encode(bytes)),
      Structured(Sha256, Some(NixBase32Encoding), NixBase32.Encode(bytes)) ]
  }

  lemma SpellingNormalizes(bytes: seq<Byte>, i: nat)
    requires |bytes| == 32 && i < 5
    ensures Spellings(bytes)[i].Normalize() == Ok(NormalizedHash(Sha256, NixBase32.Encode(bytes)))
    ensures WellFormed(NormalizedHash(Sha256, NixBase32.Encode(bytes)))
  {
    Base64.DecodeEncode(bytes);
    NixBase32.Sha256DigestText(bytes);
    if i == 0 {
      Base64.EncodedSymbols(bytes);
      ParseSha256Sri(Base64.Encode(bytes));
    } else if i == 1 {
      ParseSha256Colon(NixBase32.Encode(bytes));
    }
  }

  /** All spellings of the same 32 bytes normalise to one value. */
  lemma SpellingsAgree(bytes: seq<Byte>, i: nat, j: nat)
    requires |bytes| == 32 && i < 5 && j < 5
    ensures Spellings(bytes)[i].Normalize() == Spellings(bytes)[j].Normalize()
  {
    SpellingNormalizes(bytes, i);
    SpellingNormalizes(bytes, j);
  }

  /** Spellings of different bytes never normalise to the same value. */
  lemma SpellingsDistinguish(a: seq<Byte>, b: seq<Byte>, i: nat, j: nat)
    requires |a| == |b| == 32 && i < 5 && j < 5
    requires Spellings(a)[i].Normalize() == Spellings(b)[j].Normalize()
    ensures a == b
  {
    SpellingNormalizes(a, i);
    SpellingNormalizes(b, j);
    NixBase32.EncodeInjective(a, b);
  }

  /** Sending a hash as text does not change what it denotes. */
  lemma NormalizeWireText(h: Hash)
    requires h.Normalize().Ok?
    ensures Raw(h.RenderText()).Normalize() == h.Normalize()
  {
    if h.Structured? {
      if h.encoding == Some(NixBase32Encoding) {
        WireBase32(h.algorithm, h.digest);
      } else {
        WireBase64(h.algorithm, h.digest);
      }
    }
  }

  lemma WireBase32(algorithm: HashAlgorithm, digest: string)
    requires NewNormalizedHash(algorithm, digest).Ok?
    ensures Raw(algorithm.Name() + ":" + digest).Normalize() == NewNormalizedHash(algorithm, digest)
  {
    ParseSha256Colon(digest);
  }

  lemma WireBase64(algorithm: HashAlgorithm, digest: string)
    requires FromBase64Digest(algorithm, digest).Ok?
    ensures Raw(algorithm.Name() + "-" + digest).Normalize() == FromBase64Digest(algorithm, digest)
  {
    hide Base64.Decode, NixBase32.Encode;
    DecodableHasNoColon(digest);
    ParseSha256Sri(digest);
  }

  lemma DecodableHasNoColon(digest: string)
    requires Base64.Decode(digest).Some?
    ensures ':' !in digest
  {
    Base64.EncodeDecode(digest);
    Base64.EncodedSymbols(Base64.Decode(digest).value);
  }

  // ---- Content addresses ----

  datatype AddressMethod = TextMethod | FlatMethod | NarMethod | GitMethod | OtherMethod(name: string)

  datatype ContentAddress =
    | RawAddress(text: string)
    | StructuredAddress(addressing: AddressMethod, hash: Hash)
  {
    /** `format_for_narinfo`: the hash is normalised when it can be and rendered as it is when not. */
    function Format(): (s: string) {
      match this
      case RawAddress(text) => text
      case StructuredAddress(addressing, hash) =>
        var h := match hash.Normalize() case Ok(n) => n.Render() case Err(_) => hash.RenderText();
        match addressing
        case TextMethod => "text:" + h
        case FlatMethod => "fixed:" + h
        case NarMethod => "fixed:r:" + h
        case GitMethod => "fixed:git:" + h
        case OtherMethod(name) => name + ":" + h
    }
  }

  // ---- Store directories ----

  datatype StoreDirError = EmptyDir | NotAbsolute(path: string)

  /** A directory as `StoreDir::new` leaves it: absolute, without trailing slashes unless it is the root. */
  type StoreDir = d: string | d != [] && d[0] == '/' && (|d| > 1 ==> d[|d| - 1] != '/') witness "/"

  /** The text without the slashes it ends in, except that the first character stays. */
  function TrimTrailingSlashes(path: string): (r: string)
    ensures path != [] ==> r != [] && r[0] == path[0]
    ensures |r| > 1 ==> r[|r| - 1] != '/'
  {
    if |path| > 1 && path[|path| - 1] == '/' then TrimTrailingSlashes(path[..|path| - 1]) else path
  }

  method NewStoreDir(input: string) returns (r: Result<StoreDir, StoreDirError>)
    ensures r.Err? <==> input == [] || input[0] != '/'
    ensures r.Ok? ==> r.value == TrimTrailingSlashes(input)
    ensures r.Err? ==> r.error == if input == [] then EmptyDir else NotAbsolute(input)
  {
    var path := input;
    if path == [] {
      return Err(EmptyDir);
    }
    if path[0] != '/' {
      return Err(NotAbsolute(path));
    }
    while |path| > 1 && path[|path| - 1] == '/'
      invariant path != [] && path[0] == '/'
      invariant TrimTrailingSlashes(path) == TrimTrailingSlashes(input)
    {
      path := path[..|path| - 1];
    }
    return Ok(path);
  }

  predicate ContainsPath(dir: StoreDir, path: string) {
    path == dir || match StripPrefix(path, dir) case None => false case Some(rest) => rest != [] && rest[0] == '/'
  }

  function RelativePath(dir: StoreDir, path: string): (r: Option<string>)
    ensures r.Some? <==> ContainsPath(dir, path)
    ensures r.Some? && path != dir ==> path == dir + "/" + r.value
  {
    if path == dir then Some([])
    else match StripPrefix(path, dir)
      case None => None
      case Some(rest) => StripPrefix(rest, "/")
  }

  function DisplayPath(dir: StoreDir, path: string): (s: string) {
    RelativePath(dir, path).GetOr(path)
  }

  function TrimLeadingSlashes(s: string): (r: string)
    ensures |r| <= |s| && (s != [] && s[0] == '/' ==> |r| < |s|)
    ensures r == [] || r[0] != '/'
    ensures s == [] || s[0] != '/' ==> r == s
  {
    if s != [] && s[0] == '/' then TrimLeadingSlashes(s[1..]) else s
  }

  function ExpandDisplayPath(dir: StoreDir, value: string): (s: string) {
    if ContainsPath(dir, value) then value else dir + "/" + TrimLeadingSlashes(value)
  }

  /** Strictly inside the directory, with a relative part that does not begin with a slash. */
  predicate DisplayRoundTrips(dir: StoreDir, path: string) {
    path != dir && ContainsPath(dir, path) &&
    var rest := RelativePath(dir, path).value; rest == [] || rest[0] != '/'
  }

  /** A displayed path expands to itself exactly when it lies strictly inside and has no doubled slash. */
  lemma ExpandDisplayed(dir: StoreDir, path: string)
    ensures ExpandDisplayPath(dir, DisplayPath(dir, path)) == path <==> DisplayRoundTrips(dir, path)
  {
    if ContainsPath(dir, path) {
      var rest := RelativePath(dir, path).value;
      if path != dir {
        assert path == dir + "/" + rest;
        if rest == [] || rest[0] != '/' {
          assert !ContainsPath(dir, rest);
        } else {
          assert |ExpandDisplayPath(dir, rest)| < |path|;
        }
      } else {
        assert !ContainsPath(dir, []);
      }
    } else {
      var rest := TrimLeadingSlashes(path);
      assert dir + "/" + rest == dir + ("/" + rest);
      StripPrefixOf(dir, "/" + rest);
    }
  }

  /** The root as store directory contains, besides itself, only what begins with two slashes. */
  lemma RootContains(path: string)
    ensures ContainsPath("/", path) <==> path == "/" || (|path| >= 2 && path[0] == path[1] == '/')
  {
    if |path| >= 1 && path[0] == '/' { assert path[..1] == "/"; }
  }

  // ---- Store path hashes ----

  datatype StorePathHashError =
    | MissingHyphen(path: string)
    | InvalidLength(text: string, actual: nat)
    | InvalidCharacter(text: string, character: char, position: nat)

  /** The low byte of a scalar value, which is what the character test looks at. */
  function LowByte(c: char): (b: char) {
    (c as int % 256) as char
  }

  function FirstInvalid(s: string, from: nat): (i: nat)
    requires from <= |s|
    ensures from <= i <= |s|
    ensures i < |s| ==> !NixBase32.InAlphabet(LowByte(s[i]))
    ensures forall j :: from <= j < i ==> NixBase32.InAlphabet(LowByte(s[j]))
    decreases |s| - from
  {
    if from < |s| && NixBase32.InAlphabet(LowByte(s[from])) then FirstInvalid(s, from + 1) else from
  }

  /** `StorePathHash::from_hash`: 32 bytes long, every scalar value's low byte in the alphabet. */
  function HashFromText(s: string): (r: Result<string, StorePathHashError>)
    ensures r.Ok? ==> r.value == s
  {
    if ByteLen(s) != 32 then Err(InvalidLength(s, ByteLen(s)))
    else
      var i := FirstInvalid(s, 0);
      if i < |s| then Err(InvalidCharacter(s, s[i], i)) else Ok(s)
  }

  /** `parse_from_store_path`: the part of the last component before its first hyphen. */
  function HashFromStorePath(path: string): (r: Result<string, StorePathHashError>) {
    match SplitOnce(AfterLast(path, '/'), '-')
    case None => Err(MissingHyphen(path))
    case Some((hash, _)) => HashFromText(hash)
  }

  predicate Ascii(s: string) {
    forall i :: 0 <= i < |s| ==> s[i] as int < 128
  }

  lemma {:induction false} AsciiBytes(s: string)
    requires Ascii(s)
    ensures ByteLen(s) == |s|
  {
    if s != [] { AsciiBytes(s[1..]); }
  }

  /** An ASCII text is a store path hash exactly when it is 32 symbols of the alphabet. */
  lemma AsciiHashText(s: string)
    requires Ascii(s)
    ensures HashFromText(s) == Ok(s) <==> |s| == 32 && NixBase32.AlphabetText(s)
  {
    hide NixBase32.InAlphabet;
    AsciiBytes(s);
    forall i | 0 <= i < |s| ensures LowByte(s[i]) == s[i] && s[i] in s {}
  }

  lemma {:induction false} WideBytes(n: nat)
    ensures ByteLen(seq(n, _ => 0x130 as char)) == 2 * n
  {
    if n > 0 {
      assert seq(n, _ => 0x130 as char)[1..] == seq(n - 1, _ => 0x130 as char);
      WideBytes(n - 1);
    }
  }

  /** Beyond ASCII it is not so: 16 times U+0130, whose low byte is the digit 0, passes both tests. */
  lemma WideHashText()
    ensures var s := seq(16, _ => 0x130 as char); HashFromText(s) == Ok(s) && !NixBase32.AlphabetText(s)
  {
    var s := seq(16, _ => 0x130 as char);
    WideBytes(16);
    assert LowByte(0x130 as char) == '0' && NixBase32.ALPHABET[0] == '0';
    assert s[0] in s && forall i :: 0 <= i < 32 ==> NixBase32.ALPHABET[i] != 0x130 as char;
  }
}
