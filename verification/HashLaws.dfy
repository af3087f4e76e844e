/** Spellings of digests, hashes, content addresses and store paths, letter by letter (crates/depot-core/src/nix.rs). */
module HashLaws {
  import opened Wrappers
  import opened Bytes
  import opened Text
  import opened NixHash
  import NixBase32
  import Base64

  // ---- Base64 ----

  /** Table 1 of RFC 4648: the capital letters, the small letters, the digits, and then `+` and `/`. */
  lemma SymbolsInOrder(v: nat)
    requires v < 64
    ensures Base64.Symbol(v) as int
            == if v < 26 then 65 + v else if v < 52 then 97 + (v - 26) else if v < 62 then 48 + (v - 52)
               else if v == 62 then 43 else 47
  {}

  lemma SixthsOf(a: Byte, b: Byte, c: Byte, s: Base64.Sextets)
    requires s.p < 64 && s.q < 64 && s.r < 64 && s.t < 64
    requires 65536 * a + 256 * b + c == 262144 * s.p + 4096 * s.q + 64 * s.r + s.t
    ensures Base64.Split(Base64.Octets(a, b, c)) == s
  {
    var o := Base64.Octets(a, b, c);
    var d := Base64.Split(o);
    assert 262144 * d.p + 4096 * d.q + 64 * d.r + d.t == 65536 * a + 256 * b + c;
    assert d.p == s.p;
    assert d.q == s.q;
    assert d.r == s.r;
  }

  /** Three bytes are a number of 24 bits, whose four digits in base 64 are spelled, highest first. */
  lemma GroupExactly(a: Byte, b: Byte, c: Byte, s: Base64.Sextets, rest: seq<Byte>)
    requires s.p < 64 && s.q < 64 && s.r < 64 && s.t < 64
    requires 65536 * a + 256 * b + c == 262144 * s.p + 4096 * s.q + 64 * s.r + s.t
    ensures Base64.Encode([a, b, c] + rest)
            == [Base64.Symbol(s.p), Base64.Symbol(s.q), Base64.Symbol(s.r), Base64.Symbol(s.t)] + Base64.Encode(rest)
  {
    hide Base64.Split;
    SixthsOf(a, b, c, s);
    assert ([a, b, c] + rest)[3..] == rest;
  }

  /** Two bytes at the end make three symbols, filled up with padding. */
  lemma TwoExactly(a: Byte, b: Byte, s: Base64.Sextets)
    requires s.p < 64 && s.q < 64 && s.r < 64 && s.t == 0
    requires 65536 * a + 256 * b == 262144 * s.p + 4096 * s.q + 64 * s.r
    ensures Base64.Encode([a, b]) == [Base64.Symbol(s.p), Base64.Symbol(s.q), Base64.Symbol(s.r), '=']
  {
    hide Base64.Split;
    SixthsOf(a, b, 0, s);
  }

  /** And one byte two. */
  lemma OneExactly(a: Byte, s: Base64.Sextets)
    requires s.p < 64 && s.q < 64 && s.r == s.t == 0 && 65536 * a == 262144 * s.p + 4096 * s.q
    ensures Base64.Encode([a]) == [Base64.Symbol(s.p), Base64.Symbol(s.q), '=', '='] && Base64.Encode([]) == ""
  {
    hide Base64.Split;
    SixthsOf(a, 0, 0, s);
  }

  /** A text is decoded exactly when it is the spelling of some bytes, and to these. */
  lemma DecodeExactly(s: string, bytes: seq<Byte>)
    ensures Base64.Decode(s) == Some(bytes) <==> s == Base64.Encode(bytes)
  {
    Base64.DecodeEncode(bytes);
    if Base64.Decode(s) == Some(bytes) { Base64.EncodeDecode(s); }
  }

  // ---- Nix base-32 ----

  /** The digits, and the letters without `e`, `o`, `t` and `u`, in ascending order. */
  lemma AlphabetExactly(i: nat)
    requires i < 32
    ensures |NixBase32.ALPHABET| == 32
    ensures NixBase32.ALPHABET[i] as int
            == if i < 10 then 48 + i else if i < 14 then 97 + (i - 10) else if i < 23 then 102 + (i - 14)
               else if i < 27 then 112 + (i - 23) else 118 + (i - 27)
  {}

  predicate IsSymbol(c: char) {
    '0' <= c <= '9' || ('a' <= c <= 'z' && c !in ['e', 'o', 't', 'u'])
  }

  lemma SymbolIsInAlphabet(c: char)
    requires IsSymbol(c)
    ensures NixBase32.InAlphabet(c)
  {
    var n := c as int;
    var i := if n <= 57 then n - 48 else if n <= 100 then n - 87 else if n <= 110 then n - 88 else if n <= 115 then n - 89
             else n - 91;
    AlphabetExactly(i);
    assert NixBase32.ALPHABET[i] == c;
  }

  lemma AlphabetMembers(c: char)
    ensures NixBase32.InAlphabet(c) <==> IsSymbol(c)
  {
    if IsSymbol(c) {
      SymbolIsInAlphabet(c);
    } else if NixBase32.InAlphabet(c) {
      var i: nat :| i < 32 && NixBase32.ALPHABET[i] == c;
      AlphabetExactly(i);
    }
  }

  // ---- Hashes ----

  /** A digest that a colon introduces has to be 52 symbols of base-32. */
  lemma ColonHashExactly(algorithm: string, digest: string)
    requires ':' !in algorithm
    ensures Raw(algorithm + ":" + digest).Normalize()
            == if algorithm != "sha256" then Err(UnsupportedAlgorithm(algorithm))
               else if |digest| == 52 && NixBase32.AlphabetText(digest) then Ok(NormalizedHash(Sha256, digest))
               else Err(InvalidNixBase32Digest("sha256", digest))
  {
    ParseColonText(algorithm, digest);
    assert algorithm + ":" + digest == algorithm + [':'] + digest;
  }

  /** A digest that a hyphen introduces has to be Base64, of however many bytes. */
  lemma HyphenHashExactly(algorithm: string, digest: string)
    requires ':' !in algorithm && '-' !in algorithm && ':' !in digest
    ensures algorithm != "sha256" ==>
              Raw(algorithm + "-" + digest).Normalize() == Err(UnsupportedAlgorithm(algorithm))
    ensures algorithm == "sha256" && Base64.Decode(digest).None? ==>
              Raw(algorithm + "-" + digest).Normalize() == Err(InvalidBase64(digest))
    ensures algorithm == "sha256" && Base64.Decode(digest).Some? ==>
              Raw(algorithm + "-" + digest).Normalize()
              == Ok(NormalizedHash(Sha256, NixBase32.Encode(Base64.Decode(digest).value)))
  {
    ParseSriText(algorithm, digest);
    assert algorithm + "-" + digest == algorithm + ['-'] + digest;
  }

  /** Any other text is no hash. */
  lemma OtherHashText(text: string)
    requires ':' !in text && '-' !in text
    ensures Raw(text).Normalize() == Err(UnsupportedTextFormat(text))
  {}

  /** A hash given in parts is Base64 unless it says that it is base-32; other encodings are refused. */
  lemma StructuredHashExactly(digest: string, name: string, algorithm: HashAlgorithm, encoding: Option<HashEncoding>)
    ensures Structured(algorithm, Some(OtherEncoding(name)), digest).Normalize() == Err(UnsupportedEncoding(name))
    ensures (encoding.None? || !encoding.value.OtherEncoding?) && algorithm != Sha256 ==>
              Structured(algorithm, encoding, digest).Normalize() == Err(UnsupportedAlgorithm(algorithm.Name()))
    ensures Structured(Sha256, Some(NixBase32Encoding), digest).Normalize()
            == if |digest| == 52 && NixBase32.AlphabetText(digest) then Ok(NormalizedHash(Sha256, digest))
               else Err(InvalidNixBase32Digest("sha256", digest))
    ensures (encoding.None? || encoding == Some(Base64Encoding)) && Base64.Decode(digest).None? ==>
              Structured(Sha256, encoding, digest).Normalize() == Err(InvalidBase64(digest))
    ensures (encoding.None? || encoding == Some(Base64Encoding)) && Base64.Decode(digest).Some? ==>
              Structured(Sha256, encoding, digest).Normalize()
              == Ok(NormalizedHash(Sha256, NixBase32.Encode(Base64.Decode(digest).value)))
  {}

  lemma AlgorithmNames(s: string)
    ensures Sha256.Name() == "sha256" && Sha512.Name() == "sha512" && OtherAlgorithm(s).Name() == s
    ensures ParseAlgorithm(s).Name() == s && (ParseAlgorithm(s).OtherAlgorithm? <==> s != "sha256" && s != "sha512")
  {}

  /** What a client sends: base-32 after a colon, anything else after a hyphen. */
  lemma RenderTextExactly(text: string, name: string, digest: string, encoding: Option<HashEncoding>)
    ensures Raw(text).RenderText() == text
    ensures Structured(OtherAlgorithm(name), encoding, digest).RenderText()
            == name + (if encoding == Some(NixBase32Encoding) then ":" else "-") + digest
    ensures Structured(Sha256, encoding, digest).RenderText()
            == "sha256" + (if encoding == Some(NixBase32Encoding) then ":" else "-") + digest
    ensures Structured(Sha512, encoding, digest).RenderText()
            == "sha512" + (if encoding == Some(NixBase32Encoding) then ":" else "-") + digest
  {}

  // ---- Content addresses ----

  /** A content address in a document: what its method is called, then the hash in its normal form if it has one. */
  lemma AddressExactly(text: string, hash: Hash, name: string)
    ensures RawAddress(text).Format() == text
    ensures var h := if hash.Normalize().Ok? then "sha256:" + hash.Normalize().value.digest else hash.RenderText();
            && StructuredAddress(TextMethod, hash).Format() == "text:" + h
            && StructuredAddress(FlatMethod, hash).Format() == "fixed:" + h
            && StructuredAddress(NarMethod, hash).Format() == "fixed:r:" + h
            && StructuredAddress(GitMethod, hash).Format() == "fixed:git:" + h
            && StructuredAddress(OtherMethod(name), hash).Format() == name + ":" + h
  {
    if hash.Normalize().Ok? {
      assert hash.Normalize().value.Render() == "sha256:" + hash.Normalize().value.digest;
    }
  }

  // ---- Store directories ----

  predicate OnlySlashes(s: string) {
    forall i :: 0 <= i < |s| ==> s[i] == '/'
  }

  /** Only slashes are taken off the end, all but the first character of them. */
  lemma {:induction false} TrimmedExactly(path: string) returns (slashes: string)
    ensures path == TrimTrailingSlashes(path) + slashes && OnlySlashes(slashes)
    ensures var r := TrimTrailingSlashes(path); |r| > 1 ==> r[|r| - 1] != '/'
    ensures path != [] ==> TrimTrailingSlashes(path) != []
  {
    if |path| > 1 && path[|path| - 1] == '/' {
      var more := TrimmedExactly(path[..|path| - 1]);
      slashes := more + ['/'];
      assert path == path[..|path| - 1] + ['/'];
    } else {
      slashes := [];
    }
  }

  lemma {:induction false} LeadingExactly(s: string) returns (slashes: string)
    ensures s == slashes + TrimLeadingSlashes(s) && OnlySlashes(slashes)
    ensures TrimLeadingSlashes(s) == [] || TrimLeadingSlashes(s)[0] != '/'
  {
    if s != [] && s[0] == '/' {
      var more := LeadingExactly(s[1..]);
      slashes := ['/'] + more;
      assert s == ['/'] + s[1..];
    } else {
      slashes := [];
    }
  }

  /** The path is the directory or continues it after a slash. */
  predicate Inside(dir: StoreDir, path: string) {
    path == dir || dir + "/" <= path
  }

  lemma ContainsExactly(dir: StoreDir, path: string)
    ensures ContainsPath(dir, path) <==> Inside(dir, path)
  {
    if dir <= path && path != dir {
      assert path == dir + path[|dir|..] && path[|dir|..][0] == path[|dir|];
      assert dir + [path[|dir|]] <= path;
    }
  }

  /** A path inside is displayed without the directory and the slash, any other as it is. */
  lemma DisplayExactly(dir: StoreDir, rest: string, outside: string)
    ensures DisplayPath(dir, dir + "/" + rest) == rest && DisplayPath(dir, dir) == ""
    ensures !Inside(dir, outside) ==> DisplayPath(dir, outside) == outside
  {
    assert dir + "/" + rest == dir + ("/" + rest);
    StripPrefixOf(dir, "/" + rest);
    StripPrefixOf("/", rest);
    ContainsExactly(dir, outside);
  }

  /** A value inside stands for itself; any other is taken relative to the directory, without the slashes it begins with. */
  lemma ExpandExactly(dir: StoreDir, slashes: string, value: string)
    requires OnlySlashes(slashes) && (value == [] || value[0] != '/')
    ensures ExpandDisplayPath(dir, slashes + value)
            == if Inside(dir, slashes + value) then slashes + value else dir + "/" + value
  {
    ContainsExactly(dir, slashes + value);
    TrimsSlashes(slashes, value);
  }

  lemma {:induction false} TrimsSlashes(slashes: string, value: string)
    requires OnlySlashes(slashes) && (value == [] || value[0] != '/')
    ensures TrimLeadingSlashes(slashes + value) == value
  {
    if slashes == [] {
      assert slashes + value == value;
    } else {
      assert (slashes + value)[1..] == slashes[1..] + value;
      TrimsSlashes(slashes[1..], value);
    }
  }

  // ---- Store path hashes ----

  /** The low byte of the character is a symbol of base-32. */
  predicate LooksValid(c: char) {
    var low := c as int % 256;
    48 <= low <= 57 || (97 <= low <= 122 && low != 101 && low != 111 && low != 116 && low != 117)
  }

  lemma LooksValidExactly(c: char)
    ensures LooksValid(c) <==> NixBase32.InAlphabet(LowByte(c))
  {
    AlphabetMembers(LowByte(c));
  }

  /** A store path hash is a text of 32 bytes in UTF-8 whose characters all look valid. */
  lemma HashTextExactly(s: string, i: nat)
    ensures HashFromText(s).Ok? <==> ByteLen(s) == 32 && forall j :: 0 <= j < |s| ==> LooksValid(s[j])
    ensures HashFromText(s).Ok? ==> HashFromText(s).value == s
    ensures ByteLen(s) != 32 ==> HashFromText(s) == Err(InvalidLength(s, ByteLen(s)))
    ensures ByteLen(s) == 32 && i < |s| && !LooksValid(s[i]) && (forall j :: 0 <= j < i ==> LooksValid(s[j])) ==>
              HashFromText(s) == Err(InvalidCharacter(s, s[i], i))
  {
    hide NixBase32.InAlphabet, LooksValid, ByteLen, LowByte;
    forall j | 0 <= j < |s| ensures LooksValid(s[j]) <==> NixBase32.InAlphabet(LowByte(s[j])) {
      LooksValidExactly(s[j]);
    }
  }

  lemma {:induction false} ByteLenAppend(a: string, b: string)
    ensures ByteLen(a + b) == ByteLen(a) + ByteLen(b)
  {
    if a == [] {
      assert a + b == b;
    } else {
      assert (a + b)[1..] == a[1..] + b;
      ByteLenAppend(a[1..], b);
    }
  }

  lemma {:induction false} AfterLastOf(front: string, c: char, name: string)
    requires c !in name
    ensures AfterLast(front + [c] + name, c) == name && AfterLast(name, c) == name
    decreases |name|
  {
    var s := front + [c] + name;
    if name != [] {
      assert name == name[..|name| - 1] + [name[|name| - 1]] && name[|name| - 1] in name;
      assert s[..|s| - 1] == front + [c] + name[..|name| - 1];
      AfterLastOf(front, c, name[..|name| - 1]);
    }
  }

  /** It stands before the first hyphen of what follows the last slash. */
  lemma HashOfPathExactly(front: string, hash: string, rest: string)
    requires '-' !in hash && '/' !in hash && '/' !in rest
    ensures HashFromStorePath(front + "/" + hash + "-" + rest) == HashFromText(hash)
    ensures HashFromStorePath(hash + "-" + rest) == HashFromText(hash)
  {
    var name := hash + ['-'] + rest;
    AfterLastOf(front, '/', name);
    SplitOnceUnique(hash, '-', rest);
    assert front + "/" + hash + "-" + rest == front + ['/'] + name && hash + "-" + rest == name;
  }

  lemma NoHashInPath(front: string, name: string)
    requires '-' !in name && '/' !in name
    ensures HashFromStorePath(front + "/" + name) == Err(MissingHyphen(front + "/" + name))
    ensures HashFromStorePath(name) == Err(MissingHyphen(name))
  {
    AfterLastOf(front, '/', name);
    assert front + "/" + name == front + ['/'] + name;
  }
}
