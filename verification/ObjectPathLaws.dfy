/** Which texts are the paths of which objects (crates/depot-core/src/depot_path.rs). */
module ObjectPathLaws {
  import opened Wrappers
  import opened Text
  import opened DepotPath
  import NixBase32

  // ---- Compressions ----

  /** The names a document may state for a compression. */
  lemma CompressionNames(s: string)
    ensures ParseCompression(s) == Some(Uncompressed) <==> s in ["", "none"]
    ensures ParseCompression(s) == Some(Zstd) <==> s in ["zstd"]
    ensures ParseCompression(s) == Some(Xz) <==> s in ["xz"]
    ensures ParseCompression(s) == Some(Bz2) <==> s in ["bz2", "bzip2"]
  {}

  lemma CompressionTexts()
    ensures Uncompressed.Name() == "none" && Uncompressed.Suffix() == ".nar"
    ensures Zstd.Name() == "zstd" && Zstd.Suffix() == ".nar.zst"
    ensures Xz.Name() == "xz" && Xz.Suffix() == ".nar.xz"
    ensures Bz2.Name() == "bzip2" && Bz2.Suffix() == ".nar.bz2"
  {}

  // ---- Objects of a path or a digest ----

  /** The texts of the kinds of object that a hash names. */
  predicate IsHash(h: string, length: nat) {
    |h| == length && NixBase32.AlphabetText(h)
  }

  /** An archive: `nar/`, a digest of 52 symbols and the suffix of its compression. */
  lemma NarExactly(path: string, digest: string)
    ensures ParseObjectPath(path) == Some(NarPath(digest, Uncompressed)) <==>
              IsHash(digest, 52) && path == "nar/" + digest + ".nar"
    ensures ParseObjectPath(path) == Some(NarPath(digest, Zstd)) <==>
              IsHash(digest, 52) && path == "nar/" + digest + ".nar.zst"
    ensures ParseObjectPath(path) == Some(NarPath(digest, Xz)) <==>
              IsHash(digest, 52) && path == "nar/" + digest + ".nar.xz"
    ensures ParseObjectPath(path) == Some(NarPath(digest, Bz2)) <==>
              IsHash(digest, 52) && path == "nar/" + digest + ".nar.bz2"
  {
    NarOf(path, digest, Uncompressed);
    NarOf(path, digest, Zstd);
    NarOf(path, digest, Xz);
    NarOf(path, digest, Bz2);
  }

  lemma NarOf(path: string, digest: string, c: Compression)
    ensures ParseObjectPath(path) == Some(NarPath(digest, c)) <==>
              IsHash(digest, 52) && path == "nar/" + digest + c.Suffix()
  {
    if ParseObjectPath(path) == Some(NarPath(digest, c)) { PrintParsed(path); }
    if IsHash(digest, 52) { ParsePrinted(digest, c); }
  }

  /** Two dots in a row, wherever they are. */
  lemma DotsExactly(s: string, a: string, b: string)
    requires s == a + ".." + b
    ensures HasDotDot(s) && ParseObjectPath(s).None?
  {
    assert s[|a|] == '.' && s[|a| + 1] == '.';
  }

  lemma NoDots(s: string)
    requires HasDotDot(s)
    ensures exists a, b :: s == a + ".." + b
  {
    var i :| 0 <= i < |s| - 1 && s[i] == '.' && s[i + 1] == '.';
    assert s == s[..i] + ".." + s[i + 2..];
  }

  /** Two names are fixed, and nothing absolute or empty is a path. */
  lemma FixedExactly(path: string)
    ensures ParseObjectPath(path) == Some(NixCacheInfo) <==> path == "nix-cache-info"
    ensures ParseObjectPath(path) == Some(IndexHtml) <==> path == "index.html"
    ensures path == "" || path[0] == '/' ==> ParseObjectPath(path).None?
  {
    DotFree("nix-cache-info");
    assert !HasDotDot("index.html");
  }

  lemma DotFree(s: string)
    requires '.' !in s
    ensures !HasDotDot(s)
  {}

  lemma SuffixedHasNoDotDot(h: string, suffix: string)
    requires NixBase32.AlphabetText(h) && !HasDotDot(suffix)
    ensures !HasDotDot(h + suffix)
  {
    var s := h + suffix;
    forall i | 0 <= i < |s| - 1 ensures s[i] != '.' || s[i + 1] != '.' {
      if i < |h| {
        assert s[i] == h[i] && h[i] in h;
        NixBase32.AlphabetSymbol(s[i]);
      } else {
        assert s[i] == suffix[i - |h|] && s[i + 1] == suffix[i + 1 - |h|];
      }
    }
  }

  lemma SuffixedExactly(path: string, h: string, suffix: string)
    requires |h| == 32
    ensures HashWithSuffix(path, suffix) && path[..32] == h <==> IsHash(h, 32) && path == h + suffix
  {
    if HashWithSuffix(path, suffix) { assert path == path[..32] + path[32..]; }
  }

  lemma BeginsPlain(h: string, suffix: string)
    requires IsHash(h, 32)
    ensures (h + suffix)[0] != '/'
  {
    assert h[0] in h;
    NixBase32.AlphabetSymbol(h[0]);
  }

  /** A document: the hash of a store path and `.narinfo`. */
  lemma NarInfoExactly(path: string, h: string)
    ensures ParseObjectPath(path) == Some(NarInfoPath(h)) <==> IsHash(h, 32) && path == h + ".narinfo"
  {
    if |h| == 32 { SuffixedExactly(path, h, ".narinfo"); }
    if IsHash(h, 32) && path == h + ".narinfo" {
      BeginsPlain(h, ".narinfo");
      SuffixedHasNoDotDot(h, ".narinfo");
    }
  }

  /** A listing: the hash of a store path and `.ls`. */
  lemma ListingExactly(path: string, h: string)
    ensures ParseObjectPath(path) == Some(ListingPath(h)) <==> IsHash(h, 32) && path == h + ".ls"
  {
    if |h| == 32 { SuffixedExactly(path, h, ".ls"); }
    if IsHash(h, 32) && path == h + ".ls" {
      BeginsPlain(h, ".ls");
      SuffixedHasNoDotDot(h, ".ls");
    }
  }

  // ---- Logs and realisations ----

  predicate IsLogName(name: string) {
    name != [] && forall c :: c in name ==> 'a' <= c <= 'z' || 'A' <= c <= 'Z' || '0' <= c <= '9' || c in ['.', '_', '-']
  }

  lemma LogMatches(path: string, name: string)
    requires path == "log/" + name + ".drv"
    ensures MatchLog(path) <==> IsLogName(name)
    ensures path[0] == 'l' && path[|path| - 4..] == ".drv" && |path| >= 8
  {
    assert path[4..|path| - 4] == name;
    assert "log/" <= path && path[0] == 'l';
    assert HasSuffix(path, ".drv");
    assert |path| > 8 <==> name != [];
    forall c ensures IsAsciiAlphanumeric(c) || c == '.' || c == '_' || c == '-' <==>
      'a' <= c <= 'z' || 'A' <= c <= 'Z' || '0' <= c <= '9' || c in ['.', '_', '-'] {}
  }

  /** A build log: `log/`, a name, `.drv`, and no two dots in a row. */
  lemma LogExactly(name: string)
    ensures var path := "log/" + name + ".drv";
            ParseObjectPath(path) == Some(LogPath(path)) <==> IsLogName(name) && !HasDotDot(path)
  {
    hide MatchLog, MatchRealisation, HasDotDot, HashWithSuffix, MatchNar, IsLogName;
    var path := "log/" + name + ".drv";
    LogMatches(path, name);
    NotOfAHash(path);
  }

  lemma LogsOnly(path: string, log: string)
    requires ParseObjectPath(path) == Some(LogPath(log))
    ensures log == path && exists name :: path == "log/" + name + ".drv"
  {
    var name := path[4..|path| - 4];
    assert path[..4] == "log/";
    assert path == path[..4] + name + path[|path| - 4..];
  }

  lemma NotOfAHash(path: string)
    requires |path| >= 8 && path[|path| - 4..] == ".drv"
    ensures !HashWithSuffix(path, ".narinfo") && !HashWithSuffix(path, ".ls") && MatchNar(path).None?
    ensures path != "nix-cache-info" && path != "index.html"
  {
    assert path[|path| - 1] == 'v';
    if MatchNar(path).Some? { SuffixCompressionEnds(path[56..]); }
  }

  lemma SuffixCompressionEnds(s: string)
    requires SuffixCompression(s).Some?
    ensures s != [] && s[|s| - 1] != 'v'
  {}

  predicate IsLower(s: string) {
    s != [] && forall c :: c in s ==> 'a' <= c <= 'z' || '0' <= c <= '9'
  }

  predicate IsDigestText(s: string) {
    s != [] && forall c :: c in s ==> 'a' <= c <= 'z' || 'A' <= c <= 'Z' || '0' <= c <= '9' || c in ['+', '/', '=']
  }

  predicate IsOutputName(s: string) {
    s != [] && forall c :: c in s ==> 'a' <= c <= 'z' || 'A' <= c <= 'Z' || '0' <= c <= '9' || c in ['_', '-']
  }

  function RealisationText(algorithm: string, digest: string, output: string): (path: string) {
    "realisations/" + (algorithm + [':'] + (digest + ['!'] + output)) + ".doi"
  }

  lemma RealisationParts(algorithm: string, digest: string, output: string)
    ensures var path := RealisationText(algorithm, digest, output);
            && |path| > 17 && path[..13] == "realisations/" && path[|path| - 4..] == ".doi"
            && path[13..|path| - 4] == algorithm + [':'] + (digest + ['!'] + output)
  {}

  lemma RealisationMatches(path: string, algorithm: string, digest: string, output: string)
    requires |path| > 17 && path[..13] == "realisations/" && path[|path| - 4..] == ".doi"
    requires SplitOnce(path[13..|path| - 4], ':') == Some((algorithm, digest + ['!'] + output))
    requires SplitOnce(digest + ['!'] + output, '!') == Some((digest, output))
    ensures MatchRealisation(path) <==> IsLower(algorithm) && IsDigestText(digest) && IsOutputName(output)
  {
    hide SplitOnce;
    assert "realisations/" <= path && HasSuffix(path, ".doi");
  }

  lemma RealisationHasNoDots(algorithm: string, digest: string, output: string)
    requires '.' !in algorithm && '.' !in digest && '.' !in output
    ensures !HasDotDot(RealisationText(algorithm, digest, output))
  {
    var front := "realisations/" + (algorithm + [':'] + (digest + ['!'] + output));
    var path := front + ".doi";
    assert '.' !in front;
    assert path == RealisationText(algorithm, digest, output);
    forall i | 0 <= i < |path| - 1 ensures path[i] != '.' || path[i + 1] != '.' {
      if i < |front| {
        assert path[i] == front[i] && front[i] in front;
      } else {
        assert path[i + 1] == ".doi"[i + 1 - |front|];
      }
    }
  }

  lemma PartsHaveNoDots(algorithm: string, digest: string, output: string)
    requires IsLower(algorithm) && IsDigestText(digest) && IsOutputName(output)
    ensures '.' !in algorithm && '.' !in digest && '.' !in output
  {}

  /** A realisation: `realisations/`, the algorithm, the digest and the output, separated by `:` and `!`, and `.doi`. */
  lemma RealisationExactly(algorithm: string, digest: string, output: string)
    requires ':' !in algorithm && '!' !in digest
    ensures var path := RealisationText(algorithm, digest, output);
            ParseObjectPath(path) == Some(RealisationPath(path)) <==>
              IsLower(algorithm) && IsDigestText(digest) && IsOutputName(output)
  {
    hide ParseObjectPath, MatchRealisation, HasDotDot, IsLower, IsDigestText, IsOutputName, RealisationText;
    var path := RealisationText(algorithm, digest, output);
    RealisationParts(algorithm, digest, output);
    SplitOnceUnique(algorithm, ':', digest + ['!'] + output);
    SplitOnceUnique(digest, '!', output);
    RealisationMatches(path, algorithm, digest, output);
    if IsLower(algorithm) && IsDigestText(digest) && IsOutputName(output) {
      PartsHaveNoDots(algorithm, digest, output);
      RealisationHasNoDots(algorithm, digest, output);
    }
    RealisationsAreParsed(path);
  }

  lemma RealisationsAreParsed(path: string)
    requires |path| > 17 && path[..13] == "realisations/" && path[|path| - 4..] == ".doi"
    requires MatchRealisation(path) ==> !HasDotDot(path)
    ensures ParseObjectPath(path) == Some(RealisationPath(path)) <==> MatchRealisation(path)
  {
    hide MatchLog, MatchRealisation, HasDotDot, HashWithSuffix, MatchNar;
    NotOfADerivation(path);
    assert path[0] == 'r';
  }

  lemma NotOfADerivation(path: string)
    requires |path| > 17 && path[..13] == "realisations/" && path[|path| - 4..] == ".doi"
    ensures !HashWithSuffix(path, ".narinfo") && !HashWithSuffix(path, ".ls") && MatchNar(path).None? && !MatchLog(path)
    ensures path != "nix-cache-info" && path != "index.html"
  {
    assert path[0] == 'r' && path[|path| - 1] == 'i' && path[|path| - 2] == 'o';
    assert path[1] == 'e';
  }

  lemma RealisationsOnly(path: string, realisation: string)
    requires ParseObjectPath(path) == Some(RealisationPath(realisation))
    ensures realisation == path && exists a, d, o :: path == RealisationText(a, d, o)
  {
    hide MatchLog, MatchRealisation, HasDotDot, HashWithSuffix, MatchNar, RealisationText;
    var a, d, o := PartsOfRealisation(path);
    assert path == RealisationText(a, d, o);
  }

  lemma PartsOfRealisation(path: string) returns (a: string, d: string, o: string)
    requires MatchRealisation(path)
    ensures path == RealisationText(a, d, o)
  {
    var middle := path[13..|path| - 4];
    var after := SplitOnce(middle, ':').value;
    var last := SplitOnce(after.1, '!').value;
    a, d, o := after.0, last.0, last.1;
    assert path[..13] == "realisations/";
    assert path == path[..13] + middle + path[|path| - 4..];
  }
}
