/** The byte codecs of knowledge transformations (src/knowledge_artifacts.cpp). Characters outside the
    alphabets are errors; RFC 4648, sections 4 and 3.5, fixes the base64 encoding. */
module Codec {
  import opened Common

  type Byte = b: int | 0 <= b < 256

  const MAX_HEX := 8 * 1024 * 1024
  const MAX_KEY := 4096

  /* ---------- hexadecimal ---------- */

  function HexDigit(n: int): char
    requires 0 <= n < 16
  {
    "0123456789abcdef"[n]
  }

  function HexValue(c: char): Option<int>
  {
    if '0' <= c <= '9' then Some(c as int - '0' as int)
    else if 'a' <= c <= 'f' then Some(c as int - 'a' as int + 10)
    else if 'A' <= c <= 'F' then Some(c as int - 'A' as int + 10)
    else None
  }

  function HexOf(bs: seq<Byte>): string
  {
    if bs == [] then "" else HexOf(bs[..|bs| - 1]) + [HexDigit(bs[|bs| - 1] / 16), HexDigit(bs[|bs| - 1] % 16)]
  }

  function Lower(c: char): char
  {
    if 'A' <= c <= 'F' then (c as int + 32) as char else c
  }

  function LowerAll(s: string): string
  {
    seq(|s|, i requires 0 <= i < |s| => Lower(s[i]))
  }

  method Hex(bs: seq<Byte>) returns (s: string)
    ensures s == HexOf(bs)
  {
    s := "";
    for i := 0 to |bs|
      invariant s == HexOf(bs[..i])
    {
      assert bs[..i + 1][..i] == bs[..i];
      s := s + [HexDigit(bs[i] / 16)];
      s := s + [HexDigit(bs[i] % 16)];
    }
    assert bs[..|bs|] == bs;
  }

  /** unhex accepts exactly the hexadecimal texts of even, bounded length, in either letter case, and
      returns the bytes whose encoding the text is. */
  method Unhex(s: string) returns (r: Option<seq<Byte>>)
    ensures r.Some? <==> |s| % 2 == 0 && |s| <= 8 * 1024 * 1024 && forall i :: 0 <= i < |s| ==> HexValue(s[i]).Some?
    ensures r.Some? ==> HexOf(r.value) == LowerAll(s)
  {
    if |s| % 2 != 0 || |s| > MAX_HEX { return None; }
    for i := 0 to |s|
      invariant forall j :: 0 <= j < i ==> HexValue(s[j]).Some?
    {
      if HexValue(s[i]).None? { return None; }
    }
    var out: seq<Byte> := [];
    var i := 0;
    hide HexValue, HexOf, LowerAll;
    assert HexOf(out) == LowerAll(s)[..0] by { HexLength([]); }
    while i < |s|
      invariant 0 <= i <= |s| && i % 2 == 0 && HexOf(out) == LowerAll(s)[..i]
    {
      UnhexStep(out, s, i);
      out := out + [HexValue(s[i]).value * 16 + HexValue(s[i + 1]).value];
      i := i + 2;
    }
    assert LowerAll(s)[..|s|] == LowerAll(s);
    return Some(out);
  }

  lemma UnhexStep(out: seq<Byte>, s: string, i: nat)
    requires i + 1 < |s| && HexValue(s[i]).Some? && HexValue(s[i + 1]).Some? && HexOf(out) == LowerAll(s)[..i]
    ensures 0 <= HexValue(s[i]).value < 16 && 0 <= HexValue(s[i + 1]).value < 16
    ensures HexOf(out + [HexValue(s[i]).value * 16 + HexValue(s[i + 1]).value]) == LowerAll(s)[..i + 2]
  {
    DigitOfValue(s[i]);
    DigitOfValue(s[i + 1]);
    var hi, lo := HexValue(s[i]).value, HexValue(s[i + 1]).value;
    hide HexValue, Lower, HexDigit;
    var b: Byte := hi * 16 + lo;
    assert b / 16 == hi && b % 16 == lo;
    assert (out + [b])[..|out|] == out;
    assert LowerAll(s)[..i + 2] == LowerAll(s)[..i] + [Lower(s[i]), Lower(s[i + 1])];
  }

  lemma DigitOfValue(c: char)
    requires HexValue(c).Some?
    ensures 0 <= HexValue(c).value < 16 && HexDigit(HexValue(c).value) == Lower(c)
  {
  }

  lemma ValueOfDigit(n: int)
    requires 0 <= n < 16
    ensures HexValue(HexDigit(n)) == Some(n) && Lower(HexDigit(n)) == HexDigit(n)
  {
  }

  /** Hexadecimal text determines its bytes. */
  lemma {:induction false} HexInjective(a: seq<Byte>, b: seq<Byte>)
    requires HexOf(a) == HexOf(b)
    ensures a == b
    decreases |a|
  {
    HexLength(a);
    HexLength(b);
    if a != [] {
      var x, y := a[|a| - 1], b[|b| - 1];
      assert HexOf(a)[..2 * |a| - 2] == HexOf(a[..|a| - 1]) && HexOf(b)[..2 * |b| - 2] == HexOf(b[..|b| - 1]);
      assert HexOf(a)[2 * |a| - 2] == HexDigit(x / 16) && HexOf(b)[2 * |b| - 2] == HexDigit(y / 16);
      assert HexOf(a)[2 * |a| - 1] == HexDigit(x % 16) && HexOf(b)[2 * |b| - 1] == HexDigit(y % 16);
      ValueOfDigit(x / 16);
      ValueOfDigit(x % 16);
      ValueOfDigit(y / 16);
      ValueOfDigit(y % 16);
      HexInjective(a[..|a| - 1], b[..|b| - 1]);
      assert a == a[..|a| - 1] + [x] && b == b[..|b| - 1] + [y];
    }
  }

  lemma {:induction false} HexLength(bs: seq<Byte>)
    ensures |HexOf(bs)| == 2 * |bs|
    decreases |bs|
  {
    if bs != [] { HexLength(bs[..|bs| - 1]); }
  }

  lemma {:induction false} HexIsLower(bs: seq<Byte>)
    ensures forall i :: 0 <= i < |HexOf(bs)| ==> HexValue(HexOf(bs)[i]).Some? && Lower(HexOf(bs)[i]) == HexOf(bs)[i]
    decreases |bs|
  {
    if bs != [] {
      HexIsLower(bs[..|bs| - 1]);
      ValueOfDigit(bs[|bs| - 1] / 16);
      ValueOfDigit(bs[|bs| - 1] % 16);
    }
  }

  /** Round trip: decoding an encoding gives back the bytes. */
  method HexRoundTrip(bs: seq<Byte>) returns (r: Option<seq<Byte>>)
    requires 2 * |bs| <= MAX_HEX
    ensures r == Some(bs)
  {
    var s := Hex(bs);
    HexLength(bs);
    HexIsLower(bs);
    r := Unhex(s);
    assert LowerAll(s) == s;
    HexInjective(r.value, bs);
  }

  /* ---------- base64 ---------- */

  /** The alphabet of RFC 4648, section 4: letters, digits, plus and slash. */
  function Symbol(n: int): char
    requires 0 <= n < 64
  {
    if n < 26 then ('A' as int + n) as char
    else if n < 52 then ('a' as int + n - 26) as char
    else if n < 62 then ('0' as int + n - 52) as char
    else if n == 62 then '+' else '/'
  }

  /** Position in the alphabet. */
  function Sextet(c: char): (n: Option<int>)
    ensures n.Some? ==> 0 <= n.value < 64
  {
    if 'A' <= c <= 'Z' then Some(c as int - 'A' as int)
    else if 'a' <= c <= 'z' then Some(c as int - 'a' as int + 26)
    else if '0' <= c <= '9' then Some(c as int - '0' as int + 52)
    else if c == '+' then Some(62)
    else if c == '/' then Some(63)
    else None
  }

  lemma SymbolSextet(n: int)
    requires 0 <= n < 64
    ensures Sextet(Symbol(n)) == Some(n) && Symbol(n) != '='
  {
  }

  lemma SextetSymbol(c: char)
    requires Sextet(c).Some?
    ensures Symbol(Sextet(c).value) == c
  {
  }

  /** One group of up to three bytes, padded (RFC 4648, section 4). */
  function Group(bs: seq<Byte>): (g: string)
    requires 1 <= |bs| <= 3
    ensures |g| == 4
  {
    if |bs| == 1 then [Symbol(bs[0] / 4), Symbol(bs[0] % 4 * 16), '=', '=']
    else if |bs| == 2 then [Symbol(bs[0] / 4), Symbol(bs[0] % 4 * 16 + bs[1] / 16), Symbol(bs[1] % 16 * 4), '=']
    else [Symbol(bs[0] / 4), Symbol(bs[0] % 4 * 16 + bs[1] / 16), Symbol(bs[1] % 16 * 4 + bs[2] / 64), Symbol(bs[2] % 64)]
  }

  /** The canonical encoding: whole groups, then a padded one. */
  function Encode(bs: seq<Byte>): string
  {
    if bs == [] then "" else if |bs| <= 3 then Group(bs) else Group(bs[..3]) + Encode(bs[3..])
  }

  /* ---------- one group ---------- */

  lemma GroupSymbols(bs: seq<Byte>)
    requires 1 <= |bs| <= 3
    ensures var g := Group(bs);
            && Sextet(g[0]) == Some(bs[0] / 4) && Sextet(g[1]).Some?
            && (|bs| == 1 ==> g[2] == '=' && g[3] == '=' && Sextet(g[1]) == Some(bs[0] % 4 * 16))
            && (|bs| == 2 ==> g[3] == '=' && Sextet(g[1]) == Some(bs[0] % 4 * 16 + bs[1] / 16) && Sextet(g[2]) == Some(bs[1] % 16 * 4))
            && (|bs| == 3 ==> Sextet(g[1]) == Some(bs[0] % 4 * 16 + bs[1] / 16)
                              && Sextet(g[2]) == Some(bs[1] % 16 * 4 + bs[2] / 64) && Sextet(g[3]) == Some(bs[2] % 64))
    ensures forall c :: Sextet(c).Some? ==> c != '='
  {
    hide Sextet, Symbol;
    SymbolSextet(bs[0] / 4);
    SymbolSextet(bs[0] % 4 * 16);
    if |bs| > 1 {
      SymbolSextet(bs[0] % 4 * 16 + bs[1] / 16);
      SymbolSextet(bs[1] % 16 * 4);
    }
    if |bs| > 2 {
      SymbolSextet(bs[1] % 16 * 4 + bs[2] / 64);
      SymbolSextet(bs[2] % 64);
    }
    PadIsNoSymbol();
  }

  lemma PadIsNoSymbol()
    ensures forall c :: Sextet(c).Some? ==> c != '='
  {
  }

  function SextetOr0(c: char): (n: int)
    ensures 0 <= n < 64
  {
    if Sextet(c).Some? then Sextet(c).value else 0
  }

  /** The 24 bits that four symbols stand for. */
  function Bits(g: string): (n: int)
    requires |g| == 4
    ensures 0 <= n < 0x100_0000
  {
    ((SextetOr0(g[0]) * 64 + SextetOr0(g[1])) * 64 + SextetOr0(g[2])) * 64 + SextetOr0(g[3])
  }

  function Bytes(n: int): (bs: seq<Byte>)
    requires 0 <= n < 0x100_0000
    ensures |bs| == 3
  {
    [n / 65536, n / 256 % 256, n % 256]
  }

  lemma SplitBytes(b0: int, b1: int, b2: int)
    requires 0 <= b0 < 256 && 0 <= b1 < 256 && 0 <= b2 < 256
    ensures var n := b0 * 65536 + b1 * 256 + b2;
            n / 65536 == b0 && n / 256 % 256 == b1 && n % 256 == b2
  {
    var n := b0 * 65536 + b1 * 256 + b2;
    assert n / 256 == b0 * 256 + b1;
  }

  lemma SplitBits(v0: int, v1: int, v2: int, v3: int)
    requires 0 <= v0 < 64 && 0 <= v1 < 64 && 0 <= v2 < 64 && 0 <= v3 < 64
    ensures var n := ((v0 * 64 + v1) * 64 + v2) * 64 + v3;
            && n / 65536 == v0 * 4 + v1 / 16 && n / 256 % 256 == v1 % 16 * 16 + v2 / 4 && n % 256 == v2 % 4 * 64 + v3
            && n % 65536 == (v1 % 16 * 16 + v2 / 4) * 256 + v2 % 4 * 64 + v3
  {
    var q1, r1, q2, r2 := v1 / 16, v1 % 16, v2 / 4, v2 % 4;
    SplitBytes(v0 * 4 + q1, r1 * 16 + q2, r2 * 64 + v3);
  }

  /** The shape of a group that ends in `padding` pads. */
  predicate Shape(g: string, padding: nat)
    requires |g| == 4 && padding <= 2
  {
    && (forall j :: 0 <= j < 4 - padding ==> Sextet(g[j]).Some?)
    && (forall j :: 4 - padding <= j < 4 ==> g[j] == '=')
  }

  /** Four characters of that shape without stray bits are the group of their leading bytes. */
  lemma ShapeIsGroup(g: string, padding: nat)
    requires |g| == 4 && padding <= 2 && Shape(g, padding)
    requires padding == 2 ==> Bits(g) % 65536 == 0
    requires padding == 1 ==> Bits(g) % 256 == 0
    ensures Group(Bytes(Bits(g))[..3 - padding]) == g
  {
    PadIsNoSymbol();
    forall j | 0 <= j < 4 - padding ensures Symbol(SextetOr0(g[j])) == g[j] { SextetSymbol(g[j]); }
    var v0, v1, v2, v3 := SextetOr0(g[0]), SextetOr0(g[1]), SextetOr0(g[2]), SextetOr0(g[3]);
    assert (padding >= 1 ==> v3 == 0) && (padding == 2 ==> v2 == 0);
    hide Sextet, Symbol, SextetOr0, Shape;
    SplitBits(v0, v1, v2, v3);
    var bs := Bytes(Bits(g));
    assert bs[0] == v0 * 4 + v1 / 16 && bs[1] == v1 % 16 * 16 + v2 / 4 && bs[2] == v2 % 4 * 64 + v3;
    hide Bits, Bytes;
    GroupOfSextets(g, bs, padding, v0, v1, v2, v3);
  }

  lemma GroupOfSextets(g: string, bs: seq<Byte>, padding: nat, v0: int, v1: int, v2: int, v3: int)
    requires |g| == 4 && padding <= 2 && |bs| == 3
    requires 0 <= v0 < 64 && 0 <= v1 < 64 && 0 <= v2 < 64 && 0 <= v3 < 64
    requires bs[0] / 4 == v0 && bs[0] % 4 * 16 + bs[1] / 16 == v1 && bs[1] % 16 * 4 + bs[2] / 64 == v2 && bs[2] % 64 == v3
    requires (padding == 2 ==> bs[1] == 0) && (padding >= 1 ==> bs[2] == 0)
    requires g[0] == Symbol(v0) && g[1] == Symbol(v1) && g[2] == (if padding < 2 then Symbol(v2) else '=')
             && g[3] == (if padding < 1 then Symbol(v3) else '=')
    ensures Group(bs[..3 - padding]) == g
  {
    hide Symbol;
  }

  /** A group has that shape, with no stray bits. */
  lemma GroupIsShape(bs: seq<Byte>)
    requires 1 <= |bs| <= 3
    ensures Shape(Group(bs), 3 - |bs|)
    ensures |bs| == 1 ==> Bits(Group(bs)) % 65536 == 0
    ensures |bs| == 2 ==> Bits(Group(bs)) % 256 == 0
  {
    GroupSymbols(bs);
    var g := Group(bs);
    SplitBits(SextetOr0(g[0]), SextetOr0(g[1]), SextetOr0(g[2]), SextetOr0(g[3]));
    hide Sextet, Symbol, Group;
  }

  lemma Unsplit(b0: int, b1: int, b2: int)
    requires 0 <= b0 < 256 && 0 <= b1 < 256 && 0 <= b2 < 256
    ensures var v0, v1, v2, v3 := b0 / 4, b0 % 4 * 16 + b1 / 16, b1 % 16 * 4 + b2 / 64, b2 % 64;
            ((v0 * 64 + v1) * 64 + v2) * 64 + v3 == b0 * 65536 + b1 * 256 + b2
  {
  }

  function ByteAt(bs: seq<Byte>, i: nat): int { if i < |bs| then bs[i] as int else 0 }

  lemma GroupValues(bs: seq<Byte>)
    requires 1 <= |bs| <= 3
    ensures var g, b0, b1, b2 := Group(bs), ByteAt(bs, 0), ByteAt(bs, 1), ByteAt(bs, 2);
            && SextetOr0(g[0]) == b0 / 4 && SextetOr0(g[1]) == b0 % 4 * 16 + b1 / 16
            && SextetOr0(g[2]) == b1 % 16 * 4 + b2 / 64 && SextetOr0(g[3]) == b2 % 64
  {
    GroupSymbols(bs);
    hide Sextet, Symbol, Group;
  }

  /** A group determines its bytes. */
  lemma GroupBytes(bs: seq<Byte>)
    requires 1 <= |bs| <= 3
    ensures Bytes(Bits(Group(bs)))[..|bs|] == bs
  {
    var g, b0, b1, b2 := Group(bs), ByteAt(bs, 0), ByteAt(bs, 1), ByteAt(bs, 2);
    GroupValues(bs);
    hide Sextet, Symbol, Group, SextetOr0;
    Unsplit(b0, b1, b2);
    SplitBytes(b0, b1, b2);
    assert Bytes(Bits(g)) == [b0, b1, b2];
  }

  /** The value of the first `n` characters of a group. */
  function BitsUpTo(g: string, n: nat): int
    requires |g| == 4 && n <= 4
  {
    if n == 0 then 0 else BitsUpTo(g, n - 1) * 64 + SextetOr0(g[n - 1])
  }

  /** The first `n` characters are symbols, then `padding` pads, none before the third place. */
  predicate ShapeUpTo(g: string, n: nat, padding: nat)
    requires |g| == 4 && n <= 4 && padding <= n
  {
    && (padding > 0 ==> n - padding >= 2)
    && (forall j :: 0 <= j < n - padding ==> Sextet(g[j]).Some?)
    && (forall j :: n - padding <= j < n ==> g[j] == '=')
  }

  /** Some bytes encode to `g`; only the last group of a text may be padded. */
  ghost predicate Decodable(g: string, last: bool)
  {
    exists bs: seq<Byte> :: 1 <= |bs| <= 3 && Group(bs) == g && (|bs| < 3 ==> last)
  }

  lemma DecodableShape(g: string, last: bool) returns (padding: nat)
    requires |g| == 4 && Decodable(g, last)
    ensures padding <= 2 && Shape(g, padding) && (padding > 0 ==> last)
    ensures (padding == 2 ==> Bits(g) % 65536 == 0) && (padding == 1 ==> Bits(g) % 256 == 0)
  {
    var bs: seq<Byte> :| 1 <= |bs| <= 3 && Group(bs) == g && (|bs| < 3 ==> last);
    GroupIsShape(bs);
    padding := 3 - |bs|;
  }

  /** One group, with the same checks in the same order; it fails only on what no bytes encode to. */
  method DecodeGroup(g: string, last: bool) returns (r: Option<seq<Byte>>)
    requires |g| == 4
    ensures r.Some? ==> 1 <= |r.value| <= 3 && Group(r.value) == g && (|r.value| < 3 ==> last)
    ensures r.None? ==> !Decodable(g, last)
  {
    PadIsNoSymbol();
    hide Decodable, Shape, Group, Sextet;
    ghost var p: int := -1;
    if Decodable(g, last) { p := DecodableShape(g, last); }
    var acc, padding := 0, 0;
    for j := 0 to 4
      invariant 0 <= acc && acc == BitsUpTo(g, j) && 0 <= padding <= j && ShapeUpTo(g, j, padding) && (padding > 0 ==> last)
    {
      if g[j] == '=' {
        if !last || j < 2 {
          return None;
        }
        padding := padding + 1;
        acc := acc * 64;
      } else {
        if Sextet(g[j]).None? || padding > 0 {
          BadSymbol(g, last, j, padding);
          return None;
        }
        acc := acc * 64 + Sextet(g[j]).value;
      }
    }
    WholeGroup(g, padding);
    if padding > 2 || (padding == 2 && acc % 65536 != 0) || (padding == 1 && acc % 256 != 0) {
      return None;
    }
    ShapeIsGroup(g, padding);
    var out: seq<Byte> := [acc / 65536];
    if padding < 2 { out := out + [acc / 256 % 256]; }
    if padding == 0 { out := out + [acc % 256]; }
    assert out == Bytes(acc)[..3 - padding];
    return Some(out);
  }

  lemma WholeGroup(g: string, padding: nat)
    requires |g| == 4 && padding <= 4 && ShapeUpTo(g, 4, padding)
    ensures BitsUpTo(g, 4) == Bits(g) && padding <= 2 && Shape(g, padding)
  {
    assert BitsUpTo(g, 1) == SextetOr0(g[0]);
    assert BitsUpTo(g, 2) == BitsUpTo(g, 1) * 64 + SextetOr0(g[1]);
    assert BitsUpTo(g, 3) == BitsUpTo(g, 2) * 64 + SextetOr0(g[2]);
  }

  lemma BadSymbol(g: string, last: bool, j: nat, padding: nat)
    requires |g| == 4 && j < 4 && padding <= j && g[j] != '=' && ShapeUpTo(g, j, padding) && (Sextet(g[j]).None? || padding > 0)
    ensures !Decodable(g, last)
  {
    PadIsNoSymbol();
    assert padding > 0 ==> g[j - 1] == '=';
    if Decodable(g, last) { var p := DecodableShape(g, last); }
  }

  /* ---------- whole texts ---------- */

  lemma {:induction false} EncodeLength(bs: seq<Byte>)
    ensures |Encode(bs)| == (|bs| + 2) / 3 * 4
    decreases |bs|
  {
    hide Group;
    if |bs| > 3 { EncodeLength(bs[3..]); }
  }

  function Chunk(bs: seq<Byte>, k: nat): seq<Byte>
    requires 3 * k <= |bs|
  {
    if 3 * k + 3 <= |bs| then bs[3 * k..3 * k + 3] else bs[3 * k..]
  }

  /** Group `k` of an encoding encodes chunk `k` of the bytes. */
  lemma {:induction false} EncodeAt(bs: seq<Byte>, k: nat)
    requires 3 * k < |bs|
    ensures 4 * k + 4 <= |Encode(bs)| && Encode(bs)[4 * k..4 * k + 4] == Group(Chunk(bs, k))
    decreases k
  {
    hide Group;
    if k == 0 {
      assert |bs| <= 3 ==> Chunk(bs, 0) == bs;
    } else {
      EncodeAt(bs[3..], k - 1);
      assert Chunk(bs[3..], k - 1) == Chunk(bs, k);
    }
  }

  lemma {:induction false} EncodeAppend(a: seq<Byte>, g: seq<Byte>)
    requires |a| % 3 == 0 && 1 <= |g| <= 3
    ensures Encode(a + g) == Encode(a) + Group(g)
    decreases |a|
  {
    if a == [] {
      assert a + g == g;
    } else if |a| == 3 {
      assert (a + g)[..3] == a && (a + g)[3..] == g;
    } else {
      assert (a + g)[..3] == a[..3] && (a + g)[3..] == a[3..] + g;
      EncodeAppend(a[3..], g);
    }
  }

  /** base64_decode succeeds exactly on canonical encodings, and returns the bytes they encode. */
  method DecodeBase64(s: string) returns (r: Option<seq<Byte>>)
    ensures r.Some? ==> Encode(r.value) == s
    ensures r.None? ==> forall bs: seq<Byte> :: Encode(bs) != s
  {
    hide Group, Encode, Decodable;
    if |s| % 4 != 0 {
      forall bs: seq<Byte> ensures Encode(bs) != s { EncodeLength(bs); }
      return None;
    }
    var out: seq<Byte> := [];
    var i := 0;
    assert Encode([]) == "" by { EncodeLength([]); }
    while i < |s|
      invariant 0 <= i <= |s| && i % 4 == 0 && Encode(out) == s[..i] && (i < |s| ==> |out| % 3 == 0)
    {
      var group := DecodeGroup(s[i..i + 4], i + 4 == |s|);
      if group.None? {
        forall bs: seq<Byte> ensures Encode(bs) != s { if i + 4 <= |Encode(bs)| { EncodingDecodes(bs, i); } }
        return None;
      }
      EncodeAppend(out, group.value);
      assert s[..i + 4] == s[..i] + s[i..i + 4];
      out := out + group.value;
      i := i + 4;
    }
    assert s[..|s|] == s;
    return Some(out);
  }

  lemma EncodingDecodes(bs: seq<Byte>, i: nat)
    requires i % 4 == 0 && i + 4 <= |Encode(bs)|
    ensures Decodable(Encode(bs)[i..i + 4], i + 4 == |Encode(bs)|)
  {
    hide Group, Encode;
    EncodeLength(bs);
    EncodeAt(bs, i / 4);
  }

  /** A text encodes at most one byte sequence. */
  lemma {:induction false} EncodeInjective(a: seq<Byte>, b: seq<Byte>)
    requires Encode(a) == Encode(b)
    ensures a == b
    decreases |a|
  {
    EncodeLength(a);
    EncodeLength(b);
    if a != [] {
      EncodeAt(a, 0);
      EncodeAt(b, 0);
      SameGroup(Chunk(a, 0), Chunk(b, 0));
      if |a| > 3 && |b| > 3 {
        assert Encode(a)[4..] == Encode(a[3..]) && Encode(b)[4..] == Encode(b[3..]);
        EncodeInjective(a[3..], b[3..]);
        assert a == a[..3] + a[3..] && b == b[..3] + b[3..];
      }
    }
  }

  lemma SameGroup(a: seq<Byte>, b: seq<Byte>)
    requires 1 <= |a| <= 3 && 1 <= |b| <= 3 && Group(a) == Group(b)
    ensures a == b
  {
    GroupIsShape(a);
    GroupIsShape(b);
    PadIsNoSymbol();
    GroupBytes(a);
    GroupBytes(b);
    hide Group, Bits, Bytes, Sextet;
  }

  /** Decoding a canonical encoding gives back its bytes. */
  method Base64RoundTrip(bs: seq<Byte>) returns (r: Option<seq<Byte>>)
    ensures r == Some(bs)
  {
    r := DecodeBase64(Encode(bs));
    EncodeInjective(r.value, bs);
  }

  /* ---------- exclusive or ---------- */

  function Xored(bs: seq<bv8>, key: seq<Byte>): seq<bv8>
    requires key != []
  {
    seq(|bs|, i requires 0 <= i < |bs| => bs[i] ^ (key[i % |key|] as bv8))
  }

  /** Applying a key twice gives back the input. */
  lemma XoredTwice(bs: seq<bv8>, key: seq<Byte>)
    requires key != []
    ensures Xored(Xored(bs, key), key) == bs
  {
    forall i | 0 <= i < |bs| ensures Xored(Xored(bs, key), key)[i] == bs[i] { Cancels(bs[i], key[i % |key|] as bv8); }
  }

  lemma Cancels(a: bv8, b: bv8)
    ensures (a ^ b) ^ b == a
  {
  }

  /** The xor transformation edits its input in place; a key must decode to 1..4096 bytes. */
  method XorTransform(input: array<bv8>, keyHex: string) returns (ok: bool)
    modifies input
    ensures ok ==> exists key: seq<Byte> :: 0 < |key| <= 4096 && HexOf(key) == LowerAll(keyHex) && input[..] == Xored(old(input[..]), key)
    ensures !ok ==> input[..] == old(input[..])
    ensures ok <==> |keyHex| % 2 == 0 && 0 < |keyHex| <= 8192 && forall i :: 0 <= i < |keyHex| ==> HexValue(keyHex[i]).Some?
  {
    var decoded := Unhex(keyHex);
    hide HexValue, HexOf;
    if decoded.None? { return false; }
    var key := decoded.value;
    HexLength(key);
    if key == [] || |key| > MAX_KEY { return false; }
    for i := 0 to input.Length
      invariant forall j :: 0 <= j < i ==> input[j] == Xored(old(input[..]), key)[j]
      invariant forall j :: i <= j < input.Length ==> input[j] == old(input[j])
    {
      input[i] := input[i] ^ (key[i % |key|] as bv8);
    }
    assert input[..] == Xored(old(input[..]), key);
    return true;
  }

  /* ---------- test vectors ---------- */

  /** Vectors of RFC 4648, section 10, one for the last two symbols, and one for hexadecimal. */
  lemma StandardVectors()
    ensures Encode([102]) == "Zg==" && Encode([102, 111]) == "Zm8=" && Encode([102, 111, 111]) == "Zm9v" && Encode([251, 255]) == "+/8="
    ensures Encode([102, 111, 111, 98, 97, 114]) == "Zm9vYmFy"
  {
    assert [102, 111, 111, 98, 97, 114][..3] == [102, 111, 111] && [102, 111, 111, 98, 97, 114][3..] == [98, 97, 114];
  }

  lemma StandardHex()
    ensures HexOf([222, 173]) == "dead"
  {
    assert [222, 173][..1] == [222] && [222][..0] == [];
  }
}
