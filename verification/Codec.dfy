/** The four-character text form of a signed 24-bit integer (base64.c). */
module Codec {

  /** C's `int` on the machines the program runs on. */
  type Int32 = x: int | -0x8000_0000 <= x < 0x8000_0000

  /** The values a four-character text can carry. */
  predicate IsInt24(x: int) { -0x80_0000 <= x < 0x80_0000 }

  const UPPER: string := "ABCDEFGHIJKLMNOPQRSTUVWXYZ"
  const LOWER: string := "abcdefghijklmnopqrstuvwxyz"
  const DIGITS: string := "0123456789+/"
  const BASE64: string := UPPER + LOWER + DIGITS

  const FROM_PLUS: seq<int> := [62, 0, 0, 0, 63, 52, 53, 54, 55, 56, 57, 58, 59, 60, 61, 0, 0, 0, 0, 0, 0, 0]
  const FROM_UPPER: seq<int> := [0, 1, 2, 3, 4, 5, 6, 7, 8, 9, 10, 11, 12,
                                 13, 14, 15, 16, 17, 18, 19, 20, 21, 22, 23, 24, 25]
  const BETWEEN: seq<int> := [0, 0, 0, 0, 0, 0]
  const FROM_LOWER: seq<int> := [26, 27, 28, 29, 30, 31, 32, 33, 34, 35, 36, 37, 38,
                                 39, 40, 41, 42, 43, 44, 45, 46, 47, 48, 49, 50, 51]

  /** Indexed by a character's distance from '+'; 0 also marks a character outside the alphabet. */
  const DEBASE64: seq<int> := FROM_PLUS + FROM_UPPER + BETWEEN + FROM_LOWER

  /** Table 1 of RFC 4648, section 4, read backwards; -1 for a character outside it. */
  function Value(c: char): int {
    if 'A' <= c <= 'Z' then c as int - 'A' as int
    else if 'a' <= c <= 'z' then c as int - 'a' as int + 26
    else if '0' <= c <= '9' then c as int - '0' as int + 52
    else if c == '+' then 62
    else if c == '/' then 63
    else -1
  }

  lemma UpperAt(i: int)
    requires 0 <= i < 26
    ensures |UPPER| == 26 && Value(UPPER[i]) == i
  {}

  lemma LowerAt(i: int)
    requires 0 <= i < 26
    ensures |LOWER| == 26 && Value(LOWER[i]) == i + 26
  {}

  lemma DigitAt(i: int)
    requires 0 <= i < 12
    ensures |DIGITS| == 12 && Value(DIGITS[i]) == i + 52
  {}

  /** The encoding table is Table 1 of RFC 4648. */
  lemma EncodeTable(i: int)
    requires 0 <= i < 64
    ensures |BASE64| == 64 && Value(BASE64[i]) == i
  {
    UpperAt(if i < 26 then i else 0);
    LowerAt(if 26 <= i < 52 then i - 26 else 0);
    DigitAt(if 52 <= i then i - 52 else 0);
  }

  lemma FromPlusAt(i: int)
    requires 0 <= i < 22
    ensures |FROM_PLUS| == 22
    ensures Value((i + '+' as int) as char) == if FROM_PLUS[i] == 0 then -1 else FROM_PLUS[i]
  {}

  lemma FromUpperAt(i: int)
    requires 0 <= i < 26
    ensures |FROM_UPPER| == 26 && FROM_UPPER[i] == i
  {}

  lemma FromLowerAt(i: int)
    requires 0 <= i < 26
    ensures |FROM_LOWER| == 26 && FROM_LOWER[i] == i + 26
  {}

  /** The decoding table inverts Table 1 of RFC 4648, 'A' being the one character that maps to a true 0. */
  lemma DecodeTable(c: char)
    requires '+' <= c <= 'z'
    ensures |DEBASE64| == 80
    ensures var v := DEBASE64[c as int - '+' as int];
            Value(c) == if c == 'A' || v != 0 then v else -1
  {
    var i := c as int - '+' as int;
    FromPlusAt(if i < 22 then i else 0);
    FromUpperAt(if 22 <= i < 48 then i - 22 else 0);
    assert |BETWEEN| == 6 && forall j | 0 <= j < 6 :: BETWEEN[j] == 0;
    FromLowerAt(if 54 <= i then i - 54 else 0);
  }

  // ---------------------------------------------------------------- encoding

  /** The four sextets written for `src`: a sign bit over the five highest bits, then three times six bits. */
  function Sextets(src: int): (ds: seq<int>)
    ensures |ds| == 4 && forall i | 0 <= i < 4 :: 0 <= ds[i] < 64
  {
    [(if src < 0 then 32 else 0) + (src / 262144) % 32, (src / 4096) % 64, (src / 64) % 64, src % 64]
  }

  function Char(d: int): (c: char)
    requires 0 <= d < 64
    ensures Value(c) == d
  {
    EncodeTable(d);
    BASE64[d]
  }

  /** The text of four sextets. */
  function Text(ds: seq<int>): (dst: string)
    requires |ds| == 4 && forall i | 0 <= i < 4 :: 0 <= ds[i] < 64
    ensures |dst| == 4 && forall i | 0 <= i < 4 :: Value(dst[i]) == ds[i]
  {
    [Char(ds[0]), Char(ds[1]), Char(ds[2]), Char(ds[3])]
  }

  /** The text written for `src`. */
  function Encode(src: int): (dst: string)
    ensures |dst| == 4 && forall i | 0 <= i < 4 :: Value(dst[i]) == Sextets(src)[i]
  {
    Text(Sextets(src))
  }

  /**
   * The encoder. Shifting right is flooring division, also for a negative `src`,
   * and masking is taking the non-negative remainder.
   */
  method Base64Int24(dst: array<char>, src: Int32)
    requires dst.Length == 4
    modifies dst
    ensures dst[..] == Encode(src)
  {
    EncodeTable(0);
    dst[0] := BASE64[(if src < 0 then 0x20 else 0) + (src / 262144) % 32];
    dst[1] := BASE64[(src / 4096) % 64];
    dst[2] := BASE64[(src / 64) % 64];
    dst[3] := BASE64[src % 64];
  }

  // ---------------------------------------------------------------- decoding

  /** How many of the first `limit` characters belong to the alphabet before the first that does not. */
  function LeadingValid(s: string, limit: nat): (n: nat)
    ensures n <= limit && n <= |s|
    ensures forall i | 0 <= i < n :: Value(s[i]) >= 0
    ensures n < limit && n < |s| ==> Value(s[n]) < 0
    decreases limit
  {
    if limit == 0 || s == [] || Value(s[0]) < 0 then 0 else 1 + LeadingValid(s[1..], limit - 1)
  }

  /** The number spelled by the first `n` characters, the first sextet counting as signed. */
  function SignedValue(s: string, n: nat): int
    requires n <= |s|
  {
    if n == 0 then 0
    else if n == 1 then (if Value(s[0]) >= 32 then Value(s[0]) - 64 else Value(s[0]))
    else 64 * SignedValue(s, n - 1) + Value(s[n - 1])
  }

  /** What a text decodes to: a character outside the alphabet, or the end, cuts it short. */
  function Decode(s: string): int {
    SignedValue(s, LeadingValid(s, 4))
  }

  /** The character a C string holds at `i`; its end reads as a NUL. */
  function CharAt(s: string, i: nat): char {
    if i < |s| then s[i] else '\0'
  }

  /** The decoder's test of one character and its table lookup. */
  method LookUp(a: char) returns (v: int)
    ensures v == Value(a)
  {
    if a < '+' || a > 'z' {
      return -1;
    }
    DecodeTable(a);
    v := DEBASE64[a as int - '+' as int];
    if a != 'A' && v == 0 {
      v := -1;
    }
  }

  /**
   * The decoder. Or-ing a sextet into a result shifted by six adds it, and or-ing
   * 0xFFFFFFC0 into a number in [32, 64) subtracts 64.
   */
  method Debase64Int24(src: string) returns (res: int)
    ensures res == Decode(src)
  {
    res := 0;
    for i := 0 to 4
      invariant i <= |src| && forall j | 0 <= j < i :: Value(src[j]) >= 0
      invariant res == SignedValue(src, i)
    {
      var v := LookUp(CharAt(src, i));
      if v < 0 {
        return;
      }
      res := res * 64 + v;
      if i == 0 && res / 32 % 2 == 1 {
        res := res - 64;
      }
    }
  }

  // ---------------------------------------------------------------- round trips

  /** `x` with everything between its sign and its 23 low bits dropped. */
  function Fold23(x: int): (r: int)
    ensures IsInt24(r) && (r < 0 <==> x < 0) && (r - x) % 0x80_0000 == 0
    ensures r == x <==> IsInt24(x)
  {
    x % 0x80_0000 - (if x < 0 then 0x80_0000 else 0)
  }

  lemma DecodeFour(s: string)
    requires |s| == 4 && forall i | 0 <= i < 4 :: Value(s[i]) >= 0
    ensures Decode(s) == 262144 * (if Value(s[0]) >= 32 then Value(s[0]) - 64 else Value(s[0])) +
                         4096 * Value(s[1]) + 64 * Value(s[2]) + Value(s[3])
  {
    assert LeadingValid(s, 4) == 4;
    assert SignedValue(s, 4) == 64 * SignedValue(s, 3) + Value(s[3]);
    assert SignedValue(s, 3) == 64 * SignedValue(s, 2) + Value(s[2]);
  }

  lemma SextetsSpell(x: int)
    ensures var ds := Sextets(x);
            262144 * (if ds[0] >= 32 then ds[0] - 64 else ds[0]) + 4096 * ds[1] + 64 * ds[2] + ds[3] == Fold23(x)
  {
    var a, b := x / 64, x / 4096;
    assert x == 64 * a + x % 64 && a == 64 * b + a % 64;
    var c := x / 262144;
    assert b == 64 * c + b % 64;
    assert c == 32 * (x / 0x80_0000) + c % 32;
  }

  /** Decoding what was encoded keeps the sign and the 23 low bits; nothing is lost exactly for 24-bit values. */
  lemma DecodeEncode(x: int)
    ensures Decode(Encode(x)) == Fold23(x)
    ensures Decode(Encode(x)) == x <==> IsInt24(x)
  {
    DecodeFour(Encode(x));
    SextetsSpell(x);
  }

  lemma CharUnique(c: char, d: char)
    requires Value(c) == Value(d) >= 0
    ensures c == d
  {}

  lemma TextUnique(ds: seq<int>, s: string)
    requires |ds| == 4 && |s| == 4 && forall i | 0 <= i < 4 :: 0 <= ds[i] < 64 && Value(s[i]) == ds[i]
    ensures Text(ds) == s
  {
    forall i | 0 <= i < 4
      ensures Text(ds)[i] == s[i]
    {
      CharUnique(Text(ds)[i], s[i]);
    }
  }

  lemma SextetsUnique(a: int, b: int, c: int, d: int)
    requires 0 <= a < 64 && 0 <= b < 64 && 0 <= c < 64 && 0 <= d < 64
    ensures var x := 262144 * (if a >= 32 then a - 64 else a) + 4096 * b + 64 * c + d;
            IsInt24(x) && Sextets(x) == [a, b, c, d]
  {
    var h := if a >= 32 then a - 64 else a;
    var x := 262144 * h + 4096 * b + 64 * c + d;
    assert x / 64 == 4096 * h + 64 * b + c;
    assert x / 4096 == 64 * h + b;
    assert x / 262144 == h;
  }

  function Values(s: string): seq<int>
    requires |s| == 4
  {
    [Value(s[0]), Value(s[1]), Value(s[2]), Value(s[3])]
  }

  lemma DecodedSextets(s: string)
    requires |s| == 4 && forall i | 0 <= i < 4 :: Value(s[i]) >= 0
    ensures IsInt24(Decode(s)) && Sextets(Decode(s)) == Values(s)
  {
    DecodeFour(s);
    SextetsUnique(Value(s[0]), Value(s[1]), Value(s[2]), Value(s[3]));
  }

  /** Every four characters of the alphabet are the encoding of the 24-bit value they decode to. */
  lemma EncodeDecode(s: string)
    requires |s| == 4 && forall i | 0 <= i < 4 :: Value(s[i]) >= 0
    ensures IsInt24(Decode(s)) && Encode(Decode(s)) == s
  {
    DecodedSextets(s);
    TextUnique(Values(s), s);
  }

  /** Section 4 of RFC 4648 for one full group: three bytes, most significant first, cut into four sextets. */
  function Rfc4648Group(b0: int, b1: int, b2: int): (ds: seq<int>)
    requires 0 <= b0 < 256 && 0 <= b1 < 256 && 0 <= b2 < 256
    ensures |ds| == 4 && forall i | 0 <= i < 4 :: 0 <= ds[i] < 64
  {
    [b0 / 4, b0 % 4 * 16 + b1 / 16, b1 % 16 * 4 + b2 / 64, b2 % 64]
  }

  lemma SignedRemainder(x: int, u: int)
    requires IsInt24(x) && x % 0x100_0000 == u
    ensures x == if u >= 0x80_0000 then u - 0x100_0000 else u
  {}

  lemma GroupSextets(x: int, q: int, r: int, s: int, t: int, v: int, w: int)
    requires 0 <= q < 64 && 0 <= r < 4 && 0 <= s < 16 && 0 <= t < 16 && 0 <= v < 4 && 0 <= w < 64
    requires var u := (4 * q + r) * 65536 + (16 * s + t) * 256 + (64 * v + w);
             x == if u >= 0x80_0000 then u - 0x100_0000 else u
    ensures Sextets(x) == [q, r * 16 + s, t * 4 + v, w]
  {
    SextetsUnique(q, r * 16 + s, t * 4 + v, w);
  }

  lemma SplitByte(b: int, k: int)
    requires 0 <= b < 256 && k in {4, 16, 64}
    ensures b == k * (b / k) + b % k && 0 <= b / k < 256 / k && 0 <= b % k < k
  {}

  lemma GroupOfBytes(x: int, b0: int, b1: int, b2: int)
    requires 0 <= b0 < 256 && 0 <= b1 < 256 && 0 <= b2 < 256
    requires IsInt24(x) && x % 0x100_0000 == b0 * 65536 + b1 * 256 + b2
    ensures Sextets(x) == Rfc4648Group(b0, b1, b2)
  {
    SignedRemainder(x, b0 * 65536 + b1 * 256 + b2);
    SplitByte(b0, 4);
    SplitByte(b1, 16);
    SplitByte(b2, 64);
    GroupSextets(x, b0 / 4, b0 % 4, b1 / 16, b1 % 16, b2 / 64, b2 % 64);
  }

  /** On 24-bit values the encoder is RFC 4648 applied to the big-endian two's-complement bytes. */
  lemma EncodeIsRfc4648(x: int, b0: int, b1: int, b2: int)
    requires 0 <= b0 < 256 && 0 <= b1 < 256 && 0 <= b2 < 256
    requires IsInt24(x) && x % 0x100_0000 == b0 * 65536 + b1 * 256 + b2
    ensures Encode(x) == Text(Rfc4648Group(b0, b1, b2))
  {
    GroupOfBytes(x, b0, b1, b2);
  }
}
