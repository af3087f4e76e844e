/** Nix's base-32 spelling of byte strings (crates/depot-core/src/nix.rs). */
module NixBase32 {
  import opened Wrappers
  import opened Arithmetic
  import opened Bytes

  const ALPHABET: string := "0123456789abcdfghijklmnpqrsvwxyz"

  predicate InAlphabet(c: char) {
    c in ALPHABET
  }

  predicate AlphabetText(s: string) {
    forall c :: c in s ==> InAlphabet(c)
  }

  /** Lower-case letters and digits only. */
  predicate PlainText(s: string) {
    forall i :: 0 <= i < |s| ==> '0' <= s[i] <= '9' || 'a' <= s[i] <= 'z'
  }

  lemma AlphabetSymbol(c: char)
    requires InAlphabet(c)
    ensures '0' <= c <= '9' || 'a' <= c <= 'z'
  {}

  lemma AlphabetTextIsPlain(s: string)
    requires AlphabetText(s)
    ensures PlainText(s)
  {
    forall i | 0 <= i < |s| ensures '0' <= s[i] <= '9' || 'a' <= s[i] <= 'z' {
      assert s[i] in s;
      AlphabetSymbol(s[i]);
    }
  }

  /** The bytes read as a little-endian number in base 256. */
  function Value(bytes: seq<Byte>): (v: nat) {
    if bytes == [] then 0 else bytes[0] + 256 * Value(bytes[1..])
  }

  function EncodedLen(k: nat): (n: nat)
    ensures 8 * k <= 5 * n < 8 * k + 5
    ensures 5 * n / 8 == k
  {
    if k == 0 then 0 else (k * 8 - 1) / 5 + 1
  }

  function DigitAt(v: nat, n: nat): (d: nat)
    ensures d < 32
  {
    v / Pow(32, n) % 32
  }

  /** The digits of the value, the most significant first. */
  function Encode(bytes: seq<Byte>): (s: string)
    ensures |s| == EncodedLen(|bytes|)
    ensures forall n :: 0 <= n < |s| ==> s[|s| - 1 - n] == ALPHABET[DigitAt(Value(bytes), n)]
  {
    var length := EncodedLen(|bytes|);
    seq(length, p requires 0 <= p < length => ALPHABET[DigitAt(Value(bytes), length - 1 - p)])
  }

  lemma {:induction false} DropBytes(bytes: seq<Byte>, i: nat)
    requires i <= |bytes|
    ensures Value(bytes) / Pow(256, i) == Value(bytes[i..])
  {
    if i == 0 {
      assert bytes[0..] == bytes;
    } else {
      DropBytes(bytes[1..], i - 1);
      assert bytes[1..][i - 1..] == bytes[i..];
      DivDiv(Value(bytes), 256, Pow(256, i - 1));
    }
  }

  /** The five low bits the loop takes from two neighbouring bytes. */
  function Window(x: Byte, y: Byte, j: nat): (d: nat)
    requires j < 8
  {
    And(if j == 0 then Shr(x, j) else Or(Shr(x, j), Shl(y, 8 - j)), 0x1f)
  }

  lemma Mask(c: nat)
    ensures And(c, 0x1f) == c % 32
  {
    assert Pow(2, 0) == 1 && Pow(2, 2) == 4 && Pow(2, 4) == 16 && Pow(2, 5) == 32;
    MaskIsModulo(c, 5);
  }

  /** Multiples of 32 do not change a digit. */
  lemma ModuloShift(a: nat, b: nat)
    ensures (a + 32 * b) % 32 == a % 32
  {}

  lemma AddMultiple(w: nat, k: nat, p: nat)
    requires p > 0
    ensures (w + k * p) / p == w / p + k
  {
    DivUnique(w + k * p, p, w / p + k, w % p);
  }

  /** A byte is cut by a shift into the part that stays and the part that is lost. */
  lemma CutByte(p: nat, q: nat, y: nat)
    requires p > 0 && p * q == 256
    ensures y * q % 256 == y % p * q
    ensures y < 256 ==> y / p < q
  {
    var h, l := y / p, y % p;
    assert y == p * h + l;
    assert y * q == h * 256 + l * q by {
      assert (p * h + l) * q == p * h * q + l * q;
      assert p * h * q == h * (p * q);
    }
    assert l * q < 256 by {
      assert q > 0;
      assert (p - 1 - l) * q >= 0;
      assert (p - 1 - l) * q == p * q - q - l * q;
    }
    DivUnique(y * q, 256, h, l * q);
    DivDiv(y, p, q);
  }

  /** The byte above a shift position, and everything above that byte, in units of the shift. */
  lemma ShiftedNumber(x: nat, y: nat, z: nat, p: nat, q: nat)
    requires p > 0 && p * q == 256
    ensures (x + 256 * y + 65536 * z) / p == x / p + y * q + 256 * (z * q)
  {
    assert 256 * y == y * q * p by { assert y * q * p == y * (p * q); }
    assert 65536 * z == 256 * (z * q) * p by { assert z * q * p == z * (p * q); }
    assert (y * q + 256 * (z * q)) * p == y * q * p + 256 * (z * q) * p;
    AddMultiple(x, y * q + 256 * (z * q), p);
  }

  lemma DigitOfSum(a: nat, b: nat, m: nat)
    ensures (a + b + 256 * m) % 32 == (a + b % 256) % 32
  {
    ModuloShift(a + b % 256, 8 * (b / 256) + 8 * m);
  }

  lemma WindowSum(x: nat, y: nat, z: nat, p: nat, q: nat)
    requires p > 0 && p * q == 256
    ensures (x + 256 * y + 65536 * z) / p % 32 == (x / p + y % p * q) % 32
  {
    ShiftedNumber(x, y, z, p, q);
    CutByte(p, q, y);
    DigitOfParts((x + 256 * y + 65536 * z) / p, x / p, y * q, z * q, y % p * q);
  }

  lemma DigitOfParts(v: nat, a: nat, b: nat, m: nat, low: nat)
    requires v == a + b + 256 * m && b % 256 == low
    ensures v % 32 == (a + low) % 32
  {
    DigitOfSum(a, b, m);
  }

  lemma ComplementaryPowers(j: nat)
    requires j < 8
    ensures Pow(2, j) * Pow(2, 8 - j) == 256
  {
    PowAdd(2, j, 8 - j);
    assert Pow(2, 0) == 1 && Pow(2, 2) == 4 && Pow(2, 4) == 16 && Pow(2, 6) == 64 && Pow(2, 8) == 256;
  }

  lemma CombinedBytes(x: Byte, y: Byte, j: nat)
    requires 0 < j < 8
    ensures Or(Shr(x, j), Shl(y, 8 - j)) == x / Pow(2, j) + y % Pow(2, j) * Pow(2, 8 - j)
  {
    ComplementaryPowers(j);
    CutByte(Pow(2, j), Pow(2, 8 - j), x);
    CutByte(Pow(2, j), Pow(2, 8 - j), y);
    OrIsSum(x / Pow(2, j), y % Pow(2, j), 8 - j);
  }

  lemma UnshiftedWindow(x: Byte, y: Byte, z: nat)
    ensures Window(x, y, 0) == (x + 256 * y + 65536 * z) % 32
  {
    Mask(x);
    DigitOfSum(x, 0, y + 256 * z);
  }

  lemma ShiftedWindow(x: Byte, y: Byte, z: nat, j: nat)
    requires 0 < j < 8
    ensures Window(x, y, j) == (x + 256 * y + 65536 * z) / Pow(2, j) % 32
  {
    CombinedBytes(x, y, j);
    ComplementaryPowers(j);
    WindowSum(x, y, z, Pow(2, j), Pow(2, 8 - j));
    Mask(Or(Shr(x, j), Shl(y, 8 - j)));
  }

  /** The bits of the next byte sit above the shifted ones, and bytes beyond it do not reach the window. */
  lemma WindowDigit(x: Byte, y: Byte, z: nat, j: nat)
    requires j < 8
    ensures Window(x, y, j) == (x + 256 * y + 65536 * z) / Pow(2, j) % 32
  {
    if j == 0 { UnshiftedWindow(x, y, z); } else { ShiftedWindow(x, y, z, j); }
  }

  function Extracted(input: seq<Byte>, n: nat): (d: nat)
    requires n * 5 / 8 < |input|
  {
    var i, j := n * 5 / 8, n * 5 % 8;
    Window(input[i], if i + 1 < |input| then input[i + 1] else 0, j)
  }

  lemma DigitInWindow(input: seq<Byte>, n: nat)
    requires n * 5 / 8 < |input|
    ensures DigitAt(Value(input), n) == Value(input[n * 5 / 8..]) / Pow(2, n * 5 % 8) % 32
  {
    var i, j := n * 5 / 8, n * 5 % 8;
    PowMul(2, 5, n);
    PowMul(2, 8, i);
    PowAdd(2, 8 * i, j);
    assert Pow(2, 0) == 1 && Pow(2, 3) == 8 && Pow(2, 5) == 32 && Pow(2, 8) == 256;
    assert 5 * n == 8 * i + j;
    DivDiv(Value(input), Pow(256, i), Pow(2, j));
    DropBytes(input, i);
  }

  lemma LowBytes(bytes: seq<Byte>)
    requires bytes != []
    ensures Value(bytes) == bytes[0]
                            + 256 * (if |bytes| > 1 then bytes[1] else 0)
                            + 65536 * (if |bytes| > 2 then Value(bytes[2..]) else 0)
  {
    if |bytes| > 1 {
      assert bytes[1..][1..] == bytes[2..];
    } else {
      assert bytes[1..] == [];
    }
  }

  lemma WindowOfBytes(bytes: seq<Byte>, j: nat)
    requires bytes != [] && j < 8
    ensures Window(bytes[0], if |bytes| > 1 then bytes[1] else 0, j) == Value(bytes) / Pow(2, j) % 32
  {
    LowBytes(bytes);
    WindowOfNumber(Value(bytes), bytes[0], if |bytes| > 1 then bytes[1] else 0, if |bytes| > 2 then Value(bytes[2..]) else 0, j);
  }

  lemma WindowOfNumber(v: nat, x: Byte, y: Byte, z: nat, j: nat)
    requires j < 8 && v == x + 256 * y + 65536 * z
    ensures Window(x, y, j) == v / Pow(2, j) % 32
  {
    WindowDigit(x, y, z, j);
  }

  lemma ExtractedFrom(input: seq<Byte>, n: nat)
    requires n * 5 / 8 < |input|
    ensures var rest := input[n * 5 / 8..];
            Extracted(input, n) == Window(rest[0], if |rest| > 1 then rest[1] else 0, n * 5 % 8)
  {}

  /** What the loop extracts at step n is digit n of the value. */
  lemma ExtractedIsDigit(input: seq<Byte>, n: nat)
    requires n * 5 / 8 < |input|
    ensures Extracted(input, n) == DigitAt(Value(input), n)
  {
    DigitInWindow(input, n);
    ExtractedFrom(input, n);
    WindowOfBytes(input[n * 5 / 8..], n * 5 % 8);
  }

  /** `encode_nix_base32`: emits the digits from the most significant down, by shifts and masks. */
  method EncodeNixBase32(input: seq<Byte>) returns (result: string)
    ensures |result| == EncodedLen(|input|)
    ensures forall n :: 0 <= n < |result| ==> result[|result| - 1 - n] == ALPHABET[DigitAt(Value(input), n)]
    ensures result == Encode(input)
  {
    if |input| == 0 {
      return "";
    }
    var length := (|input| * 8 - 1) / 5 + 1;
    result := "";
    for n := length downto 0
      invariant |result| == length - n
      invariant forall p :: 0 <= p < |result| ==> result[p] == ALPHABET[DigitAt(Value(input), length - 1 - p)]
    {
      var d := ExtractDigit(input, n);
      result := result + [ALPHABET[d]];
    }
  }

  lemma NoNextByte(c: nat, j: nat)
    requires 0 < j < 8
    ensures Or(c, Shl(0, 8 - j)) == c
  {}

  /** The body of that loop: shifts the two bytes that hold the digit together and masks it. */
  method ExtractDigit(input: seq<Byte>, n: nat) returns (d: nat)
    requires n * 5 / 8 < |input|
    ensures d == DigitAt(Value(input), n) && d < 32
  {
    hide And, Or, Shr, Shl;
    var bitOffset := n * 5;
    var i := bitOffset / 8;
    var j := bitOffset % 8;
    var c: nat := 0;
    if i < |input| {
      c := Shr(input[i], j);
    }
    if i + 1 < |input| && j != 0 {
      c := Or(c, Shl(input[i + 1], 8 - j));
    }
    d := And(c, 0x1f);
    if j != 0 { NoNextByte(Shr(input[i], j), j); }
    assert d == Extracted(input, n);
    ExtractedIsDigit(input, n);
  }

  // ---- Decoding ----

  function CharDigit(c: char): (d: Option<nat>)
    ensures d.Some? ==> d.value < 32 && ALPHABET[d.value] == c
    ensures d.None? ==> !InAlphabet(c)
  {
    CharDigitFrom(c, 0)
  }

  function CharDigitFrom(c: char, d: nat): (r: Option<nat>)
    requires d <= 32
    ensures r.Some? ==> r.value < 32 && ALPHABET[r.value] == c
    ensures r.None? ==> c !in ALPHABET[d..]
    decreases 32 - d
  {
    if d == 32 then None
    else if ALPHABET[d] == c then Some(d)
    else
      assert ALPHABET[d..] == [ALPHABET[d]] + ALPHABET[d + 1..];
      CharDigitFrom(c, d + 1)
  }

  function DigitsValue(s: string): (v: Option<nat>) {
    if s == [] then Some(0)
    else match (DigitsValue(s[..|s| - 1]), CharDigit(s[|s| - 1]))
      case (Some(v), Some(d)) => Some(32 * v + d)
      case _ => None
  }

  function ToBytes(v: nat, k: nat): (bytes: seq<Byte>)
    ensures |bytes| == k
  {
    if k == 0 then [] else [v % 256] + ToBytes(v / 256, k - 1)
  }

  /** Reads the digits as a number and writes it as floor(5n/8) little-endian bytes. */
  function Decode(s: string): (bytes: Option<seq<Byte>>) {
    match DigitsValue(s)
    case None => None
    case Some(v) => Some(ToBytes(v, 5 * |s| / 8))
  }

  lemma {:induction false} AlphabetAscends(a: nat, b: nat)
    requires a < b < 32
    ensures ALPHABET[a] < ALPHABET[b]
    decreases b - a
  {
    assert forall i :: 0 <= i < 31 ==> ALPHABET[i] < ALPHABET[i + 1];
    if a + 1 < b { AlphabetAscends(a + 1, b); }
  }

  lemma CharDigitOf(d: nat)
    requires d < 32
    ensures CharDigit(ALPHABET[d]) == Some(d)
  {
    var e := CharDigit(ALPHABET[d]);
    assert ALPHABET[d] in ALPHABET;
    if e.value < d { AlphabetAscends(e.value, d); }
    if d < e.value { AlphabetAscends(d, e.value); }
  }

  lemma {:induction false} ToBytesOfValue(bytes: seq<Byte>)
    ensures ToBytes(Value(bytes), |bytes|) == bytes
  {
    if bytes != [] {
      ToBytesOfValue(bytes[1..]);
      assert Value(bytes) % 256 == bytes[0];
      assert Value(bytes) / 256 == Value(bytes[1..]);
      assert bytes == [bytes[0]] + bytes[1..];
    }
  }

  lemma {:induction false} ValueBound(bytes: seq<Byte>)
    ensures Value(bytes) < Pow(256, |bytes|)
  {
    if bytes != [] { ValueBound(bytes[1..]); }
  }

  ghost predicate SpelledBy(v: nat, s: string) {
    forall n :: 0 <= n < |s| ==> s[|s| - 1 - n] == ALPHABET[DigitAt(v, n)]
  }

  lemma SpelledPrefix(v: nat, s: string)
    requires s != [] && SpelledBy(v, s)
    ensures SpelledBy(v / 32, s[..|s| - 1])
    ensures s[|s| - 1] == ALPHABET[v % 32]
  {
    var init := s[..|s| - 1];
    forall n | 0 <= n < |init| ensures init[|init| - 1 - n] == ALPHABET[DigitAt(v / 32, n)] {
      assert init[|init| - 1 - n] == s[|s| - 1 - (n + 1)] == ALPHABET[DigitAt(v, n + 1)];
      assert Pow(32, n + 1) == 32 * Pow(32, n);
      DivDiv(v, 32, Pow(32, n));
    }
    assert s[|s| - 1 - 0] == ALPHABET[DigitAt(v, 0)];
  }

  /** A text long enough for a number, made of its digits, has that number as its value. */
  lemma {:induction false} DigitsValueOf(s: string, v: nat)
    requires v < Pow(32, |s|) && SpelledBy(v, s)
    ensures DigitsValue(s) == Some(v)
  {
    if s != [] {
      SpelledPrefix(v, s);
      DigitsValueOf(s[..|s| - 1], v / 32);
      CharDigitOf(v % 32);
    }
  }

  /** Decoding undoes encoding. */
  lemma DecodeEncode(bytes: seq<Byte>)
    ensures Decode(Encode(bytes)) == Some(bytes)
  {
    var s := Encode(bytes);
    ValueBound(bytes);
    PowMul(2, 8, |bytes|);
    PowMul(2, 5, |s|);
    assert Pow(2, 8) == 256 && Pow(2, 5) == 32;
    PowMonotone(2, 8 * |bytes|, 5 * |s|);
    DigitsValueOf(s, Value(bytes));
    ToBytesOfValue(bytes);
  }

  /** Different byte strings, of any lengths, have different spellings. */
  lemma EncodeInjective(a: seq<Byte>, b: seq<Byte>)
    requires Encode(a) == Encode(b)
    ensures a == b
  {
    DecodeEncode(a);
    DecodeEncode(b);
  }

  /** A 32-byte digest is spelled with 52 characters, all of the alphabet; only 32 bytes give 52. */
  lemma Sha256DigestText(bytes: seq<Byte>)
    ensures |Encode(bytes)| == 52 <==> |bytes| == 32
    ensures AlphabetText(Encode(bytes))
  {
    var s := Encode(bytes);
    forall p | 0 <= p < |s| ensures InAlphabet(s[p]) {
      assert s[|s| - 1 - (|s| - 1 - p)] == s[p];
    }
  }
}
