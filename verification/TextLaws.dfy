/** What the text operations do, character by character. */
module TextLaws {
  import opened Wrappers
  import opened Arithmetic
  import opened Text

  // ---- Order ----

  predicate FirstDifference(a: string, b: string, i: nat) {
    i < |a| && i < |b| && a[..i] == b[..i] && a[i] < b[i]
  }

  lemma {:induction false} DifferenceDecides(a: string, b: string, i: nat)
    requires FirstDifference(a, b, i)
    ensures Leq(a, b)
  {
    if i > 0 {
      assert a[..i][0] == b[..i][0];
      assert a[1..][..i - 1] == a[..i][1..] && b[1..][..i - 1] == b[..i][1..];
      DifferenceDecides(a[1..], b[1..], i - 1);
    }
  }

  lemma {:induction false} PrefixFirst(a: string, b: string)
    requires a <= b
    ensures Leq(a, b)
  {
    if a != [] {
      TailPrefix(a, b);
      PrefixFirst(a[1..], b[1..]);
    }
  }

  lemma {:induction false} LeqReason(a: string, b: string)
    requires Leq(a, b)
    ensures a <= b || exists i: nat :: FirstDifference(a, b, i)
  {
    if a != [] && a[0] == b[0] {
      LeqReason(a[1..], b[1..]);
      TailPrefix(a, b);
      if i: nat :| FirstDifference(a[1..], b[1..], i) {
        assert a[..i + 1] == [a[0]] + a[1..][..i] && b[..i + 1] == [b[0]] + b[1..][..i];
        assert FirstDifference(a, b, i + 1);
      }
    } else if a != [] {
      assert FirstDifference(a, b, 0);
    }
  }

  /** Texts are compared scalar value by scalar value, and a prefix comes first. */
  lemma LeqExactly(a: string, b: string)
    ensures Leq(a, b) <==> a <= b || exists i: nat :: FirstDifference(a, b, i)
  {
    if Leq(a, b) { LeqReason(a, b); }
    if a <= b { PrefixFirst(a, b); }
    if i: nat :| FirstDifference(a, b, i) { DifferenceDecides(a, b, i); }
  }

  lemma TailPrefix(a: string, b: string)
    requires a != [] && b != [] && a[0] == b[0]
    ensures a <= b <==> a[1..] <= b[1..]
  {
    assert a == [a[0]] + a[1..] && b == [b[0]] + b[1..];
  }

  // ---- Characters ----

  /** UTF-8 takes one byte up to U+007F, two up to U+07FF, three up to U+FFFF and four beyond. */
  lemma Utf8Lengths(c: char)
    ensures Utf8Len(c) == 1 <==> c as int <= 127
    ensures Utf8Len(c) == 2 <==> 128 <= c as int <= 2047
    ensures Utf8Len(c) == 3 <==> 2048 <= c as int <= 65535
    ensures Utf8Len(c) == 4 <==> 65536 <= c as int
  {}

  /** The 25 characters with the property White_Space. */
  lemma WhitespaceExactly(c: char)
    ensures IsWhitespace(c) <==>
              c in ['\t', '\n', '\U{B}', '\U{C}', '\r', ' ', '\U{85}', '\U{A0}', '\U{1680}', '\U{2000}', '\U{2001}',
                    '\U{2002}', '\U{2003}', '\U{2004}', '\U{2005}', '\U{2006}', '\U{2007}', '\U{2008}', '\U{2009}',
                    '\U{200A}', '\U{2028}', '\U{2029}', '\U{202F}', '\U{205F}', '\U{3000}']
  {}

  // ---- Words ----

  /** White space before a text does not matter. */
  lemma {:induction false} SplitSkipsGap(gap: string, s: string)
    requires AllWhitespace(gap)
    ensures SplitWhitespace(gap + s) == SplitWhitespace(s)
  {
    if gap == [] {
      assert gap + s == s;
    } else {
      assert gap[0] in gap && forall c :: c in gap[1..] ==> c in gap;
      assert (gap + s)[1..] == gap[1..] + s;
      SplitSkipsGap(gap[1..], s);
    }
  }

  /** A word that white space or the end follows is the first of the words. */
  lemma SplitTakesWord(w: string, rest: string)
    requires w != [] && NoWhitespace(w) && (rest == [] || IsWhitespace(rest[0]))
    ensures SplitWhitespace(w + rest) == [w] + SplitWhitespace(rest)
  {
    WordLenOf(w, rest);
    assert w[0] in w && (w + rest)[0] == w[0];
    assert (w + rest)[..|w|] == w && (w + rest)[|w|..] == rest;
  }

  // ---- Lines ----

  /** A line ends at a line feed; a carriage return just before it belongs to the end. */
  lemma LinesOfLine(line: string, rest: string)
    requires '\n' !in line
    ensures Lines(line + ['\n'] + rest)
            == [if line != [] && line[|line| - 1] == '\r' then line[..|line| - 1] else line] + Lines(rest)
  {
    SplitOnceUnique(line, '\n', rest);
  }

  /** What follows the last line feed is a line as it is, unless nothing follows. */
  lemma LinesOfRest(rest: string)
    requires '\n' !in rest
    ensures Lines(rest) == if rest == [] then [] else [rest]
  {}

  lemma FirstLine(a: string) returns (line: string, rest: string)
    requires a != [] && a[|a| - 1] == '\n'
    ensures a == line + ['\n'] + rest && '\n' !in line && (rest == [] || rest[|rest| - 1] == '\n')
  {
    assert a[|a| - 1] in a;
    var parts := SplitOnce(a, '\n').value;
    line, rest := parts.0, parts.1;
  }

  lemma Regroup<T>(a: seq<T>, b: seq<T>, c: seq<T>)
    ensures (a + b) + c == a + (b + c)
  {}

  lemma LinesAfterLine(line: string, rest: string, b: string)
    requires '\n' !in line && Lines(rest + b) == Lines(rest) + Lines(b)
    ensures Lines((line + ['\n'] + rest) + b) == Lines(line + ['\n'] + rest) + Lines(b)
  {
    hide Lines;
    Regroup(line + ['\n'], rest, b);
    LinesOfLine(line, rest);
    LinesOfLine(line, rest + b);
  }

  /** Texts that end in a line feed are read line by line. */
  lemma {:induction false} LinesAppend(a: string, b: string)
    requires a == [] || a[|a| - 1] == '\n'
    ensures Lines(a + b) == Lines(a) + Lines(b)
    decreases |a|
  {
    if a == [] {
      assert a + b == b;
    } else {
      hide Lines;
      var line, rest := FirstLine(a);
      LinesAppend(rest, b);
      LinesAfterLine(line, rest, b);
    }
  }

  // ---- Numbers ----

  /** Decimal notation: the digits of the tens, then that of the ones. */
  lemma DecimalOfTens(m: nat, d: nat)
    requires d < 10
    ensures Decimal(10 * m + d) == (if m == 0 then [] else Decimal(m)) + ["0123456789"[d]]
  {
    DivUnique(10 * m + d, 10, m, d);
  }

  predicate Zeros(s: string) {
    forall i :: 0 <= i < |s| ==> s[i] == '0'
  }

  lemma {:induction false} ZerosAreNothing(zeros: string)
    requires Zeros(zeros)
    ensures DigitsValue(zeros) == Some(0)
  {
    if zeros != [] { ZerosAreNothing(zeros[..|zeros| - 1]); }
  }

  lemma {:induction false} ValueOfDecimal(zeros: string, n: nat)
    requires Zeros(zeros)
    ensures DigitsValue(zeros + Decimal(n)) == Some(n)
    decreases n
  {
    var s := zeros + Decimal(n);
    ZerosAreNothing(zeros);
    if n < 10 {
      assert s[..|s| - 1] == zeros;
    } else {
      assert s[..|s| - 1] == zeros + Decimal(n / 10);
      ValueOfDecimal(zeros, n / 10);
    }
  }

  lemma {:induction false} DecimalOfValue(s: string) returns (zeros: string)
    requires s != [] && DigitsValue(s).Some?
    ensures Zeros(zeros) && s == zeros + Decimal(DigitsValue(s).value)
  {
    var t, c := s[..|s| - 1], s[|s| - 1];
    var d := c as int - '0' as int;
    assert s == t + [c];
    if t == [] {
      zeros := [];
      DecimalOfTens(0, d);
    } else {
      var u := DigitsValue(t).value;
      var z := DecimalOfValue(t);
      DecimalOfTens(u, d);
      if u == 0 { zeros := z + ['0']; } else { zeros := z; }
    }
  }

  /** The text is the number in decimal notation, perhaps with zeros before it. */
  ghost predicate Spells(s: string, n: nat) {
    exists zeros :: Zeros(zeros) && s == zeros + Decimal(n)
  }

  lemma SpellsExactly(s: string, n: nat)
    ensures s != [] && DigitsValue(s) == Some(n) <==> Spells(s, n)
  {
    if s != [] && DigitsValue(s) == Some(n) {
      var zeros := DecimalOfValue(s);
    }
    if zeros :| Zeros(zeros) && s == zeros + Decimal(n) { ValueOfDecimal(zeros, n); }
  }

  /** A number is read exactly from its decimal spellings below 2^64, with or without a plus sign and leading zeros. */
  lemma ParseU64Exactly(s: string, n: U64)
    ensures ParseU64(s) == Some(n) <==> Spells(s, n) || (s != [] && s[0] == '+' && Spells(s[1..], n))
    ensures ParseU64(s).Some? ==> ParseU64(s).value <= 18446744073709551615
  {
    SpellsExactly(s, n);
    if s != [] && s[0] == '+' {
      SpellsExactly(s[1..], n);
      if zeros :| Zeros(zeros) && s == zeros + Decimal(n) { PlusIsNoDigit(zeros, n); }
    }
  }

  lemma PlusIsNoDigit(zeros: string, n: nat)
    requires Zeros(zeros)
    ensures (zeros + Decimal(n))[0] != '+'
  {
    if zeros == [] { assert (zeros + Decimal(n))[0] in Decimal(n); }
  }
}
