/**
 The string operations the codecs use. A string is a sequence of Unicode scalar values;
 comparing two UTF-8 texts bytewise is comparing these sequences lexicographically.
 */
module Text {
  import opened Wrappers
  import opened Ordering

  /** Lexicographic order. */
  predicate Leq(a: string, b: string) {
    a == [] || (b != [] && (a[0] < b[0] || (a[0] == b[0] && Leq(a[1..], b[1..]))))
  }

  lemma {:induction false} LeqTotal(a: string, b: string)
    ensures Leq(a, b) || Leq(b, a)
  {
    if a != [] && b != [] && a[0] == b[0] { LeqTotal(a[1..], b[1..]); }
  }

  lemma {:induction false} LeqAntisymmetric(a: string, b: string)
    requires Leq(a, b) && Leq(b, a)
    ensures a == b
  {
    if a != [] && b != [] {
      LeqAntisymmetric(a[1..], b[1..]);
      assert a == [a[0]] + a[1..] && b == [b[0]] + b[1..];
    }
  }

  lemma {:induction false} LeqTransitive(a: string, b: string, c: string)
    requires Leq(a, b) && Leq(b, c)
    ensures Leq(a, c)
  {
    if a != [] && a[0] == b[0] == c[0] { LeqTransitive(a[1..], b[1..], c[1..]); }
  }

  lemma LeqIsTotalOrder()
    ensures TotalOrder(Leq)
  {
    forall a: string, b: string ensures Leq(a, b) || Leq(b, a) { LeqTotal(a, b); }
    forall a: string, b: string | Leq(a, b) && Leq(b, a) ensures a == b { LeqAntisymmetric(a, b); }
    forall a: string, b: string, c: string | Leq(a, b) && Leq(b, c) ensures Leq(a, c) { LeqTransitive(a, b, c); }
  }

  function SortText(s: seq<string>): seq<string> {
    Sort(s, Leq)
  }

  lemma SortTextProperties(s: seq<string>)
    ensures Sorted(SortText(s), Leq)
    ensures multiset(SortText(s)) == multiset(s)
    ensures |SortText(s)| == |s|
    ensures SortText(SortText(s)) == SortText(s)
    ensures forall x :: x in SortText(s) <==> x in s
  {
    LeqIsTotalOrder();
    SortElements(s, Leq);
    SortSorted(s, Leq);
    SortOfSorted(SortText(s), Leq);
    SortMembers(s, Leq);
  }

  /** The text before and after the first `c`. */
  function SplitOnce(s: string, c: char): (r: Option<(string, string)>)
    ensures r.None? <==> c !in s
    ensures r.Some? ==> c !in r.value.0 && s == r.value.0 + [c] + r.value.1
  {
    if s == [] then None
    else if s[0] == c then Some(([], s[1..]))
    else match SplitOnce(s[1..], c)
      case None => None
      case Some((a, b)) =>
        assert s == [s[0]] + s[1..];
        Some(([s[0]] + a, b))
  }

  lemma {:induction false} SplitOnceUnique(a: string, c: char, b: string)
    requires c !in a
    ensures SplitOnce(a + [c] + b, c) == Some((a, b))
  {
    var s := a + [c] + b;
    if a == [] {
      assert s[1..] == b;
    } else {
      assert s[1..] == a[1..] + [c] + b;
      SplitOnceUnique(a[1..], c, b);
      assert [a[0]] + a[1..] == a;
    }
  }

  /** The part after the last `c`, or the whole text when there is none. */
  function AfterLast(s: string, c: char): (r: string)
    ensures c !in r
    ensures c !in s ==> r == s
  {
    if s == [] then []
    else if s[|s| - 1] == c then []
    else
      assert s == s[..|s| - 1] + [s[|s| - 1]];
      AfterLast(s[..|s| - 1], c) + [s[|s| - 1]]
  }

  function StripPrefix(s: string, p: string): (r: Option<string>)
    ensures r.Some? <==> p <= s
    ensures r.Some? ==> s == p + r.value
  {
    if p <= s then Some(s[|p|..]) else None
  }

  lemma StripPrefixOf(p: string, v: string)
    ensures StripPrefix(p + v, p) == Some(v)
  {
    assert (p + v)[|p|..] == v;
  }

  predicate HasSuffix(s: string, t: string) {
    |t| <= |s| && s[|s| - |t|..] == t
  }

  /** The number of bytes a scalar value takes in UTF-8. */
  function Utf8Len(c: char): (n: nat)
    ensures 1 <= n <= 4
  {
    if c as int < 0x80 then 1 else if c as int < 0x800 then 2 else if c as int < 0x1_0000 then 3 else 4
  }

  function ByteLen(s: string): (n: nat)
    ensures |s| <= n
  {
    if s == [] then 0 else Utf8Len(s[0]) + ByteLen(s[1..])
  }

  /** Unicode White_Space. */
  predicate IsWhitespace(c: char) {
    var n := c as int;
    || 0x9 <= n <= 0xD || n == 0x20 || n == 0x85 || n == 0xA0 || n == 0x1680
    || 0x2000 <= n <= 0x200A || n == 0x2028 || n == 0x2029 || n == 0x202F || n == 0x205F || n == 0x3000
  }

  predicate AllWhitespace(s: string) {
    forall c :: c in s ==> IsWhitespace(c)
  }

  predicate NoWhitespace(s: string) {
    forall c :: c in s ==> !IsWhitespace(c)
  }

  /** The number of leading characters that are not white space. */
  function WordLen(s: string): (n: nat)
    ensures n <= |s|
    ensures forall i :: 0 <= i < n ==> !IsWhitespace(s[i])
    ensures n < |s| ==> IsWhitespace(s[n])
  {
    if s == [] || IsWhitespace(s[0]) then 0 else 1 + WordLen(s[1..])
  }

  /** The maximal runs of characters that are not white space. */
  function SplitWhitespace(s: string): (r: seq<string>) {
    if s == [] then []
    else if IsWhitespace(s[0]) then SplitWhitespace(s[1..])
    else [s[..WordLen(s)]] + SplitWhitespace(s[WordLen(s)..])
  }

  /** Each word preceded by one space. */
  function SpaceSeparated(words: seq<string>): (r: string) {
    if words == [] then [] else [' '] + words[0] + SpaceSeparated(words[1..])
  }

  lemma {:induction false} WordLenOf(w: string, rest: string)
    requires NoWhitespace(w)
    requires rest == [] || IsWhitespace(rest[0])
    ensures WordLen(w + rest) == |w|
  {
    if w == [] {
      assert w + rest == rest;
    } else {
      assert w[0] in w && forall c :: c in w[1..] ==> c in w;
      assert (w + rest)[1..] == w[1..] + rest;
      WordLenOf(w[1..], rest);
    }
  }

  function NonEmpty(words: seq<string>): (r: seq<string>)
    ensures |r| <= |words|
    ensures |r| == |words| ==> r == words
    ensures (forall w :: w in words ==> w != []) ==> r == words
  {
    if words == [] then []
    else
      assert words == [words[0]] + words[1..];
      assert words[0] in words && forall w :: w in words[1..] ==> w in words;
      if words[0] == [] then NonEmpty(words[1..]) else [words[0]] + NonEmpty(words[1..])
  }

  lemma {:induction false} SplitSpaceSeparated(words: seq<string>)
    requires forall w :: w in words ==> NoWhitespace(w)
    ensures SplitWhitespace(SpaceSeparated(words)) == NonEmpty(words)
  {
    if words != [] {
      var w, rest := words[0], SpaceSeparated(words[1..]);
      var s := SpaceSeparated(words);
      assert w in words && forall v :: v in words[1..] ==> v in words;
      SplitSpaceSeparated(words[1..]);
      assert s[1..] == w + rest;
      if w == [] {
        assert s[1..] == rest;
      } else {
        WordLenOf(w, rest);
        assert w[0] in w && (w + rest)[0] == w[0];
        assert (w + rest)[..|w|] == w && (w + rest)[|w|..] == rest;
        assert SplitWhitespace(s) == SplitWhitespace(w + rest) == [w] + SplitWhitespace(rest);
      }
    }
  }

  lemma {:induction false} SplitWords(s: string)
    ensures forall w :: w in SplitWhitespace(s) ==> w != [] && NoWhitespace(w)
    decreases |s|
  {
    if s != [] {
      if IsWhitespace(s[0]) {
        SplitWords(s[1..]);
      } else {
        SplitWords(s[WordLen(s)..]);
      }
    }
  }

  lemma {:induction false} SplitAllWhitespace(s: string)
    ensures AllWhitespace(s) <==> SplitWhitespace(s) == []
  {
    if s != [] {
      assert s[0] in s;
      if IsWhitespace(s[0]) {
        SplitAllWhitespace(s[1..]);
        assert s == [s[0]] + s[1..];
      }
    }
  }

  /** Drops one trailing carriage return. */
  function StripCr(s: string): (r: string) {
    if s != [] && s[|s| - 1] == '\r' then s[..|s| - 1] else s
  }

  /**
   The lines of a text. A line ends at a line feed, which may follow a carriage return; text
   after the last line feed is a line of its own and keeps its trailing carriage return.
   */
  function Lines(s: string): (r: seq<string>)
    decreases |s|
  {
    if s == [] then []
    else match SplitOnce(s, '\n')
      case None => [s]
      case Some((line, rest)) => [StripCr(line)] + Lines(rest)
  }

  /** A field value that survives being one whole line. */
  predicate OneLine(s: string) {
    '\n' !in s && (s != [] ==> s[|s| - 1] != '\r')
  }

  function Unlines(lines: seq<string>): (r: string) {
    if lines == [] then [] else lines[0] + ['\n'] + Unlines(lines[1..])
  }

  lemma {:induction false} UnlinesAppend(a: seq<string>, b: seq<string>)
    ensures Unlines(a + b) == Unlines(a) + Unlines(b)
  {
    if a == [] {
      assert a + b == b;
    } else {
      assert (a + b)[1..] == a[1..] + b;
      UnlinesAppend(a[1..], b);
    }
  }

  function StripAll(lines: seq<string>): (r: seq<string>)
    ensures |r| == |lines|
    ensures forall i :: 0 <= i < |r| ==> r[i] == StripCr(lines[i])
  {
    if lines == [] then [] else [StripCr(lines[0])] + StripAll(lines[1..])
  }

  predicate NoLineFeeds(lines: seq<string>) {
    forall i :: 0 <= i < |lines| ==> '\n' !in lines[i]
  }

  /** Lines written with line feeds are read back without a trailing carriage return. */
  lemma {:induction false} LinesOfUnlines(lines: seq<string>)
    requires NoLineFeeds(lines)
    ensures Lines(Unlines(lines)) == StripAll(lines)
  {
    if lines != [] {
      SplitOnceUnique(lines[0], '\n', Unlines(lines[1..]));
      LinesOfUnlines(lines[1..]);
    }
  }

  lemma {:induction false} LinesHaveNoLineFeeds(s: string)
    ensures NoLineFeeds(Lines(s))
    decreases |s|
  {
    if s != [] && SplitOnce(s, '\n').Some? {
      LinesHaveNoLineFeeds(SplitOnce(s, '\n').value.1);
    }
  }

  function Digit(d: nat): (c: char)
    requires d < 10
    ensures '0' <= c <= '9'
    ensures c as int - '0' as int == d
  {
    ('0' as int + d) as char
  }

  /** Decimal notation without sign or leading zeros. */
  function Decimal(n: nat): (s: string)
    ensures s != [] && forall c :: c in s ==> '0' <= c <= '9'
  {
    if n < 10 then [Digit(n)] else Decimal(n / 10) + [Digit(n % 10)]
  }

  function DigitsValue(s: string): (r: Option<nat>) {
    if s == [] then Some(0)
    else match DigitsValue(s[..|s| - 1])
      case None => None
      case Some(v) =>
        var c := s[|s| - 1];
        if '0' <= c <= '9' then Some(10 * v + (c as int - '0' as int)) else None
  }

  const U64_MAX: nat := 0xFFFF_FFFF_FFFF_FFFF
  const I64_MAX: nat := 0x7FFF_FFFF_FFFF_FFFF

  type U64 = n: int | 0 <= n <= U64_MAX

  /** Reads an unsigned 64-bit decimal number; one leading plus sign is allowed. */
  function ParseU64(s: string): (r: Option<U64>) {
    var digits := if s != [] && s[0] == '+' then s[1..] else s;
    if digits == [] then None
    else match DigitsValue(digits)
      case None => None
      case Some(v) => if v <= U64_MAX then Some(v) else None
  }

  lemma {:induction false} DigitsValueOfDecimal(n: nat)
    ensures DigitsValue(Decimal(n)) == Some(n)
  {
    var s := Decimal(n);
    if n < 10 {
      assert s[..0] == [];
    } else {
      assert s[..|s| - 1] == Decimal(n / 10);
      DigitsValueOfDecimal(n / 10);
    }
  }

  lemma ParseU64OfDecimal(n: U64)
    ensures ParseU64(Decimal(n)) == Some(n)
  {
    DigitsValueOfDecimal(n);
    assert Decimal(n)[0] in Decimal(n);
  }

  lemma DecimalInjective(m: nat, n: nat)
    requires Decimal(m) == Decimal(n)
    ensures m == n
  {
    DigitsValueOfDecimal(m);
    DigitsValueOfDecimal(n);
  }

  /** The parts joined by single separators. */
  function Join(parts: seq<string>, sep: char): (r: string) {
    if parts == [] then []
    else if |parts| == 1 then parts[0]
    else parts[0] + [sep] + Join(parts[1..], sep)
  }

  lemma JoinHead(parts: seq<string>, sep: char)
    requires parts != []
    requires forall p :: p in parts ==> p != [] && sep !in p
    ensures Join(parts, sep) != []
    ensures |parts| == 1 ==> SplitOnce(Join(parts, sep), sep) == None && Join(parts, sep) == parts[0]
    ensures |parts| > 1 ==> SplitOnce(Join(parts, sep), sep) == Some((parts[0], Join(parts[1..], sep)))
  {
    assert parts[0] in parts;
    if |parts| > 1 { SplitOnceUnique(parts[0], sep, Join(parts[1..], sep)); }
  }

  /** Nonempty parts free of the separator can be read back from the joined text. */
  lemma {:induction false} JoinInjective(a: seq<string>, b: seq<string>, sep: char)
    requires forall p :: p in a ==> p != [] && sep !in p
    requires forall p :: p in b ==> p != [] && sep !in p
    requires Join(a, sep) == Join(b, sep)
    ensures a == b
  {
    if a != [] { JoinHead(a, sep); }
    if b != [] { JoinHead(b, sep); }
    if a != [] && b != [] {
      assert a == [a[0]] + a[1..] && b == [b[0]] + b[1..];
      if |a| > 1 { JoinInjective(a[1..], b[1..], sep); }
    }
  }

  lemma {:induction false} JoinAppend(parts: seq<string>, last: string, sep: char)
    ensures Join(parts + [last], sep) == if parts == [] then last else Join(parts, sep) + [sep] + last
  {
    if |parts| == 1 {
      assert (parts + [last])[1..] == [last];
    } else if |parts| > 1 {
      assert (parts + [last])[1..] == parts[1..] + [last];
      JoinAppend(parts[1..], last, sep);
    }
  }
}
