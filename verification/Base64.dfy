/** Base64 with padding, section 4 of RFC 4648. The decoder accepts only what the encoder writes. */
module Base64 {
  import opened Wrappers
  import opened Arithmetic
  import opened Bytes

  function Symbol(v: nat): (c: char)
    requires v < 64
    ensures Index(c) == Some(v)
    ensures c != '=' && c != ':' && c != '-' && c != '\n' && c != '\r'
  {
    if v < 26 then ('A' as int + v) as char
    else if v < 52 then ('a' as int + v - 26) as char
    else if v < 62 then ('0' as int + v - 52) as char
    else if v == 62 then '+' else '/'
  }

  function Index(c: char): (v: Option<nat>)
    ensures v.Some? ==> v.value < 64
  {
    if 'A' <= c <= 'Z' then Some(c as int - 'A' as int)
    else if 'a' <= c <= 'z' then Some(c as int - 'a' as int + 26)
    else if '0' <= c <= '9' then Some(c as int - '0' as int + 52)
    else if c == '+' then Some(62)
    else if c == '/' then Some(63)
    else None
  }

  lemma SymbolOfIndex(c: char)
    requires Index(c).Some?
    ensures Symbol(Index(c).value) == c
  {}

  datatype Sextets = Sextets(p: nat, q: nat, r: nat, t: nat)
  datatype Octets = Octets(a: nat, b: nat, c: nat)

  /** The 24 bits of three bytes, six at a time. */
  function Split(o: Octets): (s: Sextets)
    requires o.a < 256 && o.b < 256 && o.c < 256
    ensures s.p < 64 && s.q < 64 && s.r < 64 && s.t < 64
  {
    Sextets(o.a / 4, o.a % 4 * 16 + o.b / 16, o.b % 16 * 4 + o.c / 64, o.c % 64)
  }

  function Merge(s: Sextets): (o: Octets)
    requires s.p < 64 && s.q < 64 && s.r < 64 && s.t < 64
    ensures o.a < 256 && o.b < 256 && o.c < 256
  {
    Octets(s.p * 4 + s.q / 16, s.q % 16 * 16 + s.r / 4, s.r % 4 * 64 + s.t)
  }

  lemma MergeSplit(o: Octets)
    requires o.a < 256 && o.b < 256 && o.c < 256
    ensures Merge(Split(o)) == o
    ensures o.c == 0 ==> Split(o).t == 0
    ensures o.b == o.c == 0 ==> Split(o).r == 0
  {}

  lemma SplitMerge(s: Sextets)
    requires s.p < 64 && s.q < 64 && s.r < 64 && s.t < 64
    ensures Split(Merge(s)) == s
  {
    var o := Merge(s);
    DivUnique(o.a, 4, s.p, s.q / 16);
    DivUnique(o.b, 16, s.q % 16, s.r / 4);
    DivUnique(o.c, 64, s.r % 4, s.t);
    Recombine(s.q, 16);
    Recombine(s.r, 4);
  }

  lemma Recombine(x: nat, d: nat)
    requires d > 0
    ensures x / d * d + x % d == x
  {}

  function Spell(s: Sextets): (g: string)
    requires s.p < 64 && s.q < 64 && s.r < 64 && s.t < 64
  {
    [Symbol(s.p), Symbol(s.q), Symbol(s.r), Symbol(s.t)]
  }

  function Group(a: Byte, b: Byte, c: Byte): (g: string)
    ensures |g| == 4
  {
    Spell(Split(Octets(a, b, c)))
  }

  function Encode(bytes: seq<Byte>): (s: string) {
    if bytes == [] then []
    else if |bytes| == 1 then Group(bytes[0], 0, 0)[..2] + "=="
    else if |bytes| == 2 then Group(bytes[0], bytes[1], 0)[..3] + "="
    else Group(bytes[0], bytes[1], bytes[2]) + Encode(bytes[3..])
  }

  function Read(a: char, b: char, c: char, d: char): (s: Option<Sextets>)
    ensures s.Some? ==> s.value.p < 64 && s.value.q < 64 && s.value.r < 64 && s.value.t < 64
  {
    match (Index(a), Index(b), Index(c), Index(d))
    case (Some(p), Some(q), Some(r), Some(t)) => Some(Sextets(p, q, r, t))
    case _ => None
  }

  function Ungroup(a: char, b: char, c: char, d: char): (bytes: Option<(Byte, Byte, Byte)>) {
    match Read(a, b, c, d)
    case None => None
    case Some(s) => Some((Merge(s).a, Merge(s).b, Merge(s).c))
  }

  /** Padding stands for zero digits; bits it leaves over must be zero. */
  function Decode(s: string): (bytes: Option<seq<Byte>>) {
    if s == [] then Some([])
    else if |s| < 4 then None
    else if |s| == 4 && s[3] == '=' then
      match Ungroup(s[0], s[1], if s[2] == '=' then 'A' else s[2], 'A')
      case None => None
      case Some((a, b, c)) =>
        if c != 0 then None
        else if s[2] != '=' then Some([a, b])
        else if b == 0 then Some([a]) else None
    else
      match (Ungroup(s[0], s[1], s[2], s[3]), Decode(s[4..]))
      case (Some((a, b, c)), Some(rest)) => Some([a, b, c] + rest)
      case _ => None
  }

  lemma ReadSpell(s: Sextets)
    requires s.p < 64 && s.q < 64 && s.r < 64 && s.t < 64
    ensures Read(Spell(s)[0], Spell(s)[1], Spell(s)[2], Spell(s)[3]) == Some(s)
  {}

  lemma SpellRead(a: char, b: char, c: char, d: char)
    requires Read(a, b, c, d).Some?
    ensures Spell(Read(a, b, c, d).value) == [a, b, c, d]
  {
    SymbolOfIndex(a);
    SymbolOfIndex(b);
    SymbolOfIndex(c);
    SymbolOfIndex(d);
  }

  lemma UngroupGroup(a: Byte, b: Byte, c: Byte)
    ensures var g := Group(a, b, c); Ungroup(g[0], g[1], g[2], g[3]) == Some((a, b, c))
    ensures c == 0 ==> Group(a, b, c)[3] == 'A'
    ensures b == c == 0 ==> Group(a, b, c)[2] == 'A'
  {
    MergeSplit(Octets(a, b, c));
    ReadSpell(Split(Octets(a, b, c)));
  }

  lemma GroupUngroup(a: char, b: char, c: char, d: char)
    requires Ungroup(a, b, c, d).Some?
    ensures var (x, y, z) := Ungroup(a, b, c, d).value; Group(x, y, z) == [a, b, c, d]
  {
    SpellRead(a, b, c, d);
    SplitMerge(Read(a, b, c, d).value);
  }

  lemma DecodeOne(a: Byte)
    ensures Decode(Encode([a])) == Some([a])
  {
    UngroupGroup(a, 0, 0);
  }

  lemma DecodeTwo(a: Byte, b: Byte)
    ensures Decode(Encode([a, b])) == Some([a, b])
  {
    UngroupGroup(a, b, 0);
  }

  lemma {:induction false} DecodeEncode(bytes: seq<Byte>)
    ensures Decode(Encode(bytes)) == Some(bytes)
  {
    if bytes == [] {
    } else if |bytes| == 1 {
      DecodeOne(bytes[0]);
      assert bytes == [bytes[0]];
    } else if |bytes| == 2 {
      DecodeTwo(bytes[0], bytes[1]);
      assert bytes == [bytes[0], bytes[1]];
    } else {
      UngroupGroup(bytes[0], bytes[1], bytes[2]);
      DecodeEncode(bytes[3..]);
      var g, s := Group(bytes[0], bytes[1], bytes[2]), Encode(bytes);
      assert s == g + Encode(bytes[3..]) && s[4..] == Encode(bytes[3..]);
      assert s[0] == g[0] && s[1] == g[1] && s[2] == g[2] && s[3] == g[3] && g[3] != '=';
      assert bytes == [bytes[0], bytes[1], bytes[2]] + bytes[3..];
    }
  }

  lemma EncodePadded(s: string)
    requires |s| == 4 && s[3] == '=' && Decode(s).Some?
    ensures Encode(Decode(s).value) == s
  {
    GroupUngroup(s[0], s[1], if s[2] == '=' then 'A' else s[2], 'A');
  }

  lemma EncodeAfterGroup(s: string, rest: seq<Byte>)
    requires |s| >= 4 && Ungroup(s[0], s[1], s[2], s[3]).Some? && Encode(rest) == s[4..]
    ensures var (x, y, z) := Ungroup(s[0], s[1], s[2], s[3]).value; Encode([x, y, z] + rest) == s
  {
    GroupUngroup(s[0], s[1], s[2], s[3]);
    var (x, y, z) := Ungroup(s[0], s[1], s[2], s[3]).value;
    assert ([x, y, z] + rest)[3..] == rest;
    assert s == [s[0], s[1], s[2], s[3]] + s[4..];
  }

  lemma DecodeFirstGroup(s: string)
    requires s != [] && !(|s| == 4 && s[3] == '=') && Decode(s).Some?
    ensures |s| >= 4 && Decode(s[4..]).Some? && Ungroup(s[0], s[1], s[2], s[3]).Some?
    ensures var (x, y, z) := Ungroup(s[0], s[1], s[2], s[3]).value; Decode(s).value == [x, y, z] + Decode(s[4..]).value
  {}

  /** A text decodes in only one spelling, so a text and its bytes determine each other. */
  lemma {:induction false} EncodeDecode(s: string)
    requires Decode(s).Some?
    ensures Encode(Decode(s).value) == s
  {
    if s == [] {
    } else if |s| == 4 && s[3] == '=' {
      EncodePadded(s);
    } else {
      DecodeFirstGroup(s);
      EncodeDecode(s[4..]);
      EncodeAfterGroup(s, Decode(s[4..]).value);
    }
  }

  lemma {:induction false} EncodedSymbols(bytes: seq<Byte>)
    ensures ':' !in Encode(bytes) && '-' !in Encode(bytes) && '\n' !in Encode(bytes) && '\r' !in Encode(bytes)
  {
    if |bytes| >= 3 { EncodedSymbols(bytes[3..]); }
  }
}
