/** The names of the objects a depot serves (crates/depot-core/src/depot_path.rs). */
module DepotPath {
  import opened Wrappers
  import opened Text
  import opened NixHash

  datatype Compression = Uncompressed | Zstd | Xz | Bz2 {
    /** `narinfo_compression`. */
    function Name(): (s: string) {
      match this
      case Uncompressed => "none"
      case Zstd => "zstd"
      case Xz => "xz"
      case Bz2 => "bzip2"
    }

    /** `file_suffix`. */
    function Suffix(): (s: string) {
      match this
      case Uncompressed => ".nar"
      case Zstd => ".nar.zst"
      case Xz => ".nar.xz"
      case Bz2 => ".nar.bz2"
    }
  }

  /** `from_narinfo_compression`. */
  function ParseCompression(s: string): (c: Option<Compression>) {
    if s == "" || s == "none" then Some(Uncompressed)
    else if s == "zstd" then Some(Zstd)
    else if s == "xz" then Some(Xz)
    else if s == "bzip2" || s == "bz2" then Some(Bz2)
    else None
  }

  datatype ObjectPath =
    | NixCacheInfo
    | IndexHtml
    | NarInfoPath(storePathHash: string)
    | NarPath(digest: string, compression: Compression)
    | ListingPath(storePathHash: string)
    | LogPath(path: string)
    | RealisationPath(path: string)

  predicate HasDotDot(s: string) {
    exists i :: 0 <= i < |s| - 1 && s[i] == '.' && s[i + 1] == '.'
  }

  predicate HashWithSuffix(path: string, suffix: string) {
    |path| == 32 + |suffix| && NixBase32.AlphabetText(path[..32]) && path[32..] == suffix
  }

  function SuffixCompression(s: string): (c: Option<Compression>)
    ensures c.Some? ==> c.value.Suffix() == s
  {
    if s == ".nar" then Some(Uncompressed)
    else if s == ".nar.zst" then Some(Zstd)
    else if s == ".nar.xz" then Some(Xz)
    else if s == ".nar.bz2" then Some(Bz2)
    else None
  }

  /** The NAR pattern: a directory, 52 alphabet characters, the suffix of a known compression. */
  function MatchNar(path: string): (r: Option<ObjectPath>)
    ensures r.Some? ==> r.value.NarPath?
  {
    if |path| >= 56 && "nar/" <= path && NixBase32.AlphabetText(path[4..56]) then
      match SuffixCompression(path[56..])
      case Some(c) => Some(NarPath(path[4..56], c))
      case None => None
    else None
  }

  predicate IsAsciiAlphanumeric(c: char) {
    'a' <= c <= 'z' || 'A' <= c <= 'Z' || '0' <= c <= '9'
  }

  predicate MatchLog(path: string) {
    |path| > 8 && "log/" <= path && HasSuffix(path, ".drv")
    && forall c :: c in path[4..|path| - 4] ==> IsAsciiAlphanumeric(c) || c == '.' || c == '_' || c == '-'
  }

  predicate MatchRealisation(path: string) {
    && "realisations/" <= path && |path| > 17 && HasSuffix(path, ".doi")
    && match SplitOnce(path[13..|path| - 4], ':')
       case None => false
       case Some((algorithm, rest)) =>
         && algorithm != [] && (forall c :: c in algorithm ==> 'a' <= c <= 'z' || '0' <= c <= '9')
         && match SplitOnce(rest, '!')
            case None => false
            case Some((digest, output)) =>
              && digest != []
              && (forall c :: c in digest ==> IsAsciiAlphanumeric(c) || c == '+' || c == '/' || c == '=')
              && output != []
              && (forall c :: c in output ==> IsAsciiAlphanumeric(c) || c == '_' || c == '-')
  }

  /** `parse_depot_object_path`. */
  function ParseObjectPath(path: string): (r: Option<ObjectPath>) {
    if path == [] || path[0] == '/' || HasDotDot(path) then None
    else if path == "nix-cache-info" then Some(NixCacheInfo)
    else if path == "index.html" then Some(IndexHtml)
    else if HashWithSuffix(path, ".narinfo") then Some(NarInfoPath(path[..32]))
    else if MatchNar(path).Some? then MatchNar(path)
    else if HashWithSuffix(path, ".ls") then Some(ListingPath(path[..32]))
    else if MatchLog(path) then Some(LogPath(path))
    else if MatchRealisation(path) then Some(RealisationPath(path))
    else None
  }

  /** The name of a compressed archive. */
  function PrintNar(digest: string, c: Compression): (s: string) {
    "nar/" + digest + c.Suffix()
  }

  lemma SuffixHasNoDotDot(c: Compression)
    ensures |c.Suffix()| >= 4 && c.Suffix()[0] == '.' && !HasDotDot(c.Suffix())
    ensures SuffixCompression(c.Suffix()) == Some(c)
  {}

  lemma PrintHasNoDotDot(digest: string, c: Compression)
    requires IsSha256Digest(digest)
    ensures !HasDotDot(PrintNar(digest, c))
  {
    var s := PrintNar(digest, c);
    SuffixHasNoDotDot(c);
    forall i | 0 <= i < |s| - 1 ensures s[i] != '.' || s[i + 1] != '.' {
      if i < 4 {
        assert s[i] == "nar/"[i];
      } else if i < 56 {
        assert s[i] == digest[i - 4] && digest[i - 4] in digest;
        NixBase32.AlphabetSymbol(s[i]);
      } else {
        assert s[i] == c.Suffix()[i - 56] && s[i + 1] == c.Suffix()[i - 55];
      }
    }
  }

  /** Parsing undoes printing. */
  lemma ParsePrinted(digest: string, c: Compression)
    requires IsSha256Digest(digest)
    ensures ParseObjectPath(PrintNar(digest, c)) == Some(NarPath(digest, c))
  {
    var s := PrintNar(digest, c);
    PrintHasNoDotDot(digest, c);
    SuffixHasNoDotDot(c);
    assert s[0] == 'n' && "nar/" <= s;
    assert s[4..56] == digest && s[56..] == c.Suffix();
  }

  /** Printing undoes parsing, and what parses as an archive names a 52-character digest. */
  lemma PrintParsed(path: string)
    requires ParseObjectPath(path).Some? && ParseObjectPath(path).value.NarPath?
    ensures var NarPath(digest, c) := ParseObjectPath(path).value;
            IsSha256Digest(digest) && PrintNar(digest, c) == path
  {
    assert path == path[..4] + path[4..56] + path[56..];
    assert path[4] in path[4..56];
  }
}
