/** Base64 decoding, against the encodings of sections 4 and 5 of RFC 4648. */
module Base64 {
  import opened Words

  datatype Decoded = Ok(data: seq<byte>) | BadByte(c: byte)

  const EQUALS: byte := 61

  // ----- the alphabets -----

  /** The character for a six-bit value: the last two differ in the URL-safe alphabet of section 5. */
  function Symbol(v: nat, urlSafe: bool): byte
    requires v < 64
  {
    if v < 26 then 65 + v
    else if v < 52 then 97 + v - 26
    else if v < 62 then 48 + v - 52
    else if v == 62 then if urlSafe then 45 else 43
    else if urlSafe then 95 else 47
  }

  /** The value of a character in either alphabet; the padding counts as zero. */
  function Value(c: byte): (v: int)
    ensures -1 <= v < 64
  {
    if 65 <= c <= 90 then c - 65
    else if 97 <= c <= 122 then c - 97 + 26
    else if 48 <= c <= 57 then c - 48 + 52
    else if c == 43 || c == 45 then 62
    else if c == 47 || c == 95 then 63
    else if c == EQUALS then 0
    else -1
  }

  predicate IsSpace(c: byte) {
    c == 32 || c == 9 || c == 10 || c == 12 || c == 13
  }

  predicate Bad(c: byte) {
    Value(c) < 0 && !IsSpace(c)
  }

  lemma SymbolValue(v: nat, urlSafe: bool)
    requires v < 64
    ensures var c := Symbol(v, urlSafe); Value(c) == v && c != EQUALS && !IsSpace(c)
  {
  }

  /** The alphabets as the standard lists them: capitals, small letters, digits, and two more. */
  lemma AlphabetIs(v: nat, urlSafe: bool)
    requires v < 64
    ensures v < 26 ==> Symbol(v, urlSafe) == 'A' as int + v
    ensures 26 <= v < 52 ==> Symbol(v, urlSafe) == 'a' as int + (v - 26)
    ensures 52 <= v < 62 ==> Symbol(v, urlSafe) == '0' as int + (v - 52)
    ensures v == 62 ==> Symbol(v, urlSafe) == if urlSafe then '-' as int else '+' as int
    ensures v == 63 ==> Symbol(v, urlSafe) == if urlSafe then '_' as int else '/' as int
  {
  }

  /** What is refused: all but letters, digits, the other characters of both alphabets, padding and white space. */
  lemma BadIs(c: byte)
    ensures Bad(c) <==>
            && !('A' as int <= c <= 'Z' as int) && !('a' as int <= c <= 'z' as int) && !('0' as int <= c <= '9' as int)
            && c != '+' as int && c != '/' as int && c != '-' as int && c != '_' as int && c != '=' as int
            && c != ' ' as int && c != '\t' as int && c != '\n' as int && c != 12 && c != '\r' as int
  {
  }

  // ----- encoding -----

  /** Three bytes are four six-bit values; one or two bytes at the end are two or three values and padding. */
  function Encode(data: seq<byte>, urlSafe: bool, padded: bool): seq<byte> {
    if data == [] then []
    else if |data| == 1 then
      [Symbol(data[0] / 4, urlSafe), Symbol(data[0] % 4 * 16, urlSafe)] + if padded then [EQUALS, EQUALS] else []
    else if |data| == 2 then
      [Symbol(data[0] / 4, urlSafe), Symbol(data[0] % 4 * 16 + data[1] / 16, urlSafe),
       Symbol(data[1] % 16 * 4, urlSafe)] +
      if padded then [EQUALS] else []
    else
      [Symbol(data[0] / 4, urlSafe), Symbol(data[0] % 4 * 16 + data[1] / 16, urlSafe),
       Symbol(data[1] % 16 * 4 + data[2] / 64, urlSafe), Symbol(data[2] % 64, urlSafe)] +
      Encode(data[3..], urlSafe, padded)
  }

  // ----- decoding -----

  function WithoutSpace(input: seq<byte>): seq<byte> {
    if input == [] then []
    else
      var front, last := input[..|input| - 1], input[|input| - 1];
      if IsSpace(last) then WithoutSpace(front) else WithoutSpace(front) + [last]
  }

  function FillUp(chars: seq<byte>): (r: seq<byte>)
    ensures |r| % 4 == 0 && |r| < |chars| + 4
    decreases (4 - |chars| % 4) % 4
  {
    if |chars| % 4 == 0 then chars else FillUp(chars + [EQUALS])
  }

  function ValueOf(c: byte): byte {
    if Value(c) < 0 then 0 else Value(c)
  }

  function FirstByte(a: byte, b: byte): byte {
    LowByte(Or(Shl(a, 2, 8), Shr(b, 4)))
  }

  function SecondByte(b: byte, c: byte): byte {
    LowByte(Or(Shl(b, 4, 8), Shr(c, 2)))
  }

  function ThirdByte(c: byte, d: byte): byte {
    LowByte(Or(Shl(c, 6, 8), d))
  }

  function LowByte(v: nat): byte {
    v % 256
  }

  /** Four characters give one byte, and one more for each of the last two that is not padding. */
  function Quad(c0: byte, c1: byte, c2: byte, c3: byte): seq<byte> {
    [FirstByte(ValueOf(c0), ValueOf(c1))] +
    (if c2 != EQUALS then [SecondByte(ValueOf(c1), ValueOf(c2))] else []) +
    (if c3 != EQUALS then [ThirdByte(ValueOf(c2), ValueOf(c3))] else [])
  }

  function Quads(chars: seq<byte>): seq<byte>
    requires |chars| % 4 == 0
  {
    if chars == [] then [] else Quad(chars[0], chars[1], chars[2], chars[3]) + Quads(chars[4..])
  }

  /** The first byte outside both alphabets, the padding and white space, if there is one. */
  function FirstBad(input: seq<byte>): (i: nat)
    ensures i <= |input|
    ensures i < |input| ==> Bad(input[i])
    ensures forall k :: 0 <= k < i ==> !Bad(input[k])
  {
    if input == [] then 0
    else if Bad(input[0]) then 0
    else 1 + FirstBad(input[1..])
  }

  function Decode(input: seq<byte>): Decoded {
    var i := FirstBad(input);
    if i < |input| then BadByte(input[i]) else Ok(Quads(FillUp(WithoutSpace(input))))
  }

  // ----- decoding undoes encoding -----

  lemma JoinLow(high: nat, low: nat, n: nat, width: nat)
    requires low < Pow2(n) && high * Pow2(n) + low < Pow2(width)
    ensures Or(Shl(high, n, width), low) == high * Pow2(n) + low
  {
    LowFits(high * Pow2(n), width);
    OrCommutes(high * Pow2(n), low);
    OrDisjoint(low, high, n);
  }

  lemma ShrDivides(v: nat)
    ensures Shr(v, 2) == v / 4 && Shr(v, 4) == v / 16
  {
    assert Shr(v, 2) == Shr(v / 2, 1) == Shr(v / 2 / 2, 0);
    assert Shr(v, 4) == Shr(v / 2, 3) == Shr(v / 4, 2) == Shr(v / 8, 1) == Shr(v / 16, 0);
  }

  /** Shifting the high bits of a value past the byte drops them. */
  lemma ShlDrops(v: nat, n: nat, m: nat)
    requires n + m == 8
    ensures Shl(v, n, 8) == Low(v, m) * Pow2(n)
  {
    ShlLow(v, n, m);
  }

  lemma {:induction false} ShlLow(v: nat, n: nat, m: nat)
    ensures Low(v * Pow2(n), n + m) == Low(v, m) * Pow2(n)
    decreases n
  {
    if n > 0 {
      var t := v * Pow2(n - 1);
      TimesDouble(v, Pow2(n - 1));
      TimesDouble(Low(v, m), Pow2(n - 1));
      ShlLow(v, n - 1, m);
      assert (2 * t) / 2 == t && (2 * t) % 2 == 0;
    }
  }

  lemma FirstBack(x: byte, more: nat)
    requires more < 16
    ensures FirstByte(x / 4, x % 4 * 16 + more) == x
  {
    hide Or, Shl, Shr, Pow2;
    SmallPowers();
    ShrDivides(x % 4 * 16 + more);
    JoinLow(x / 4, x % 4, 2, 8);
  }

  /** The low four bits of one value above the high four of the next. */
  lemma SecondJoin(b: nat, c: nat)
    requires b < 64 && c < 64
    ensures Or(Shl(b, 4, 8), Shr(c, 2)) == b % 16 * 16 + c / 4
  {
    hide Or, Shl, Shr, Pow2, Low;
    SmallPowers();
    ShrDivides(c);
    ShlDrops(b, 4, 4);
    ShlDrops(b % 16, 4, 4);
    LowIsMod(b);
    LowIsMod(b % 16);
    JoinLow(b % 16, c / 4, 4, 8);
  }

  lemma SecondBack(above: nat, y: byte, more: nat)
    requires above < 4 && more < 4
    ensures SecondByte(above * 16 + y / 16, y % 16 * 4 + more) == y
  {
    hide Or, Shl, Shr;
    SecondArithmetic(above, y, more);
    SecondJoin(above * 16 + y / 16, y % 16 * 4 + more);
  }

  lemma SecondArithmetic(above: nat, y: byte, more: nat)
    requires above < 4 && more < 4
    ensures above * 16 + y / 16 < 64 && y % 16 * 4 + more < 64
    ensures (above * 16 + y / 16) % 16 == y / 16 && (y % 16 * 4 + more) / 4 == y % 16
    ensures y / 16 * 16 + y % 16 == y
  {
  }

  lemma ThirdBack(above: nat, z: byte)
    requires above < 16
    ensures ThirdByte(above * 4 + z / 64, z % 64) == z
  {
    hide Or, Shl, Shr, Pow2, Low;
    SmallPowers();
    ShlDrops(above * 4 + z / 64, 6, 2);
    ShlDrops(z / 64, 6, 2);
    LowIsMod(above * 4 + z / 64);
    LowIsMod(z / 64);
    JoinLow(z / 64, z % 64, 6, 8);
  }

  lemma SmallValue(c: byte)
    ensures ValueOf(c) < 64
  {
  }

  lemma QuadOf(c0: byte, c1: byte, c2: byte, c3: byte, x: nat, y: nat, z: nat)
    requires x == FirstByte(ValueOf(c0), ValueOf(c1)) && y == SecondByte(ValueOf(c1), ValueOf(c2))
    requires z == ThirdByte(ValueOf(c2), ValueOf(c3))
    ensures Quad(c0, c1, c2, c3) == [x] + (if c2 != 61 then [y] else []) + (if c3 != 61 then [z] else [])
  {
    hide ValueOf, FirstByte, SecondByte, ThirdByte;
  }

  /** Four characters are a number of 24 bits; its three bytes are given, without those that padding stands for. */
  lemma QuadIs(c0: byte, c1: byte, c2: byte, c3: byte)
    ensures var n := ValueOf(c0) * 0x4_0000 + ValueOf(c1) * 0x1000 + ValueOf(c2) * 0x40 + ValueOf(c3);
            Quad(c0, c1, c2, c3) == [n / 0x1_0000] + (if c2 != 61 then [n / 0x100 % 0x100] else []) +
                                    (if c3 != 61 then [n % 0x100] else [])
  {
    hide *;
    var a, b, c, d := ValueOf(c0), ValueOf(c1), ValueOf(c2), ValueOf(c3);
    SmallValue(c0);
    SmallValue(c1);
    SmallValue(c2);
    SmallValue(c3);
    FirstIs(a, b);
    SecondIs(b, c);
    ThirdIs(c, d);
    QuadOf(c0, c1, c2, c3, a * 4 + b / 16, b % 16 * 16 + c / 4, c % 4 * 64 + d);
    NumberBytes(a, b, c, d);
  }

  lemma FirstIs(a: byte, b: byte)
    requires a < 64 && b < 64
    ensures FirstByte(a, b) == a * 4 + b / 16
  {
    hide Or, Shl, Shr, Pow2;
    SmallPowers();
    ShrDivides(b);
    JoinLow(a, b / 16, 2, 8);
  }

  lemma SecondIs(b: byte, c: byte)
    requires b < 64 && c < 64
    ensures SecondByte(b, c) == b % 16 * 16 + c / 4
  {
    hide Or, Shl, Shr;
    SecondJoin(b, c);
  }

  lemma ThirdIs(c: byte, d: byte)
    requires c < 64 && d < 64
    ensures ThirdByte(c, d) == c % 4 * 64 + d
  {
    hide Or, Shl, Shr, Pow2, Low;
    SmallPowers();
    ShlDrops(c, 6, 2);
    ShlDrops(c % 4, 6, 2);
    LowIsMod(c);
    LowIsMod(c % 4);
    JoinLow(c % 4, d, 6, 8);
  }

  lemma NumberBytes(a: nat, b: nat, c: nat, d: nat)
    requires a < 64 && b < 64 && c < 64 && d < 64
    ensures var n := a * 0x4_0000 + b * 0x1000 + c * 0x40 + d;
            n / 0x1_0000 == a * 4 + b / 16 && n / 0x100 % 0x100 == b % 16 * 16 + c / 4 && n % 0x100 == c % 4 * 64 + d
  {
    var n := a * 0x4_0000 + b * 0x1000 + c * 0x40 + d;
    var x, y, z := a * 4 + b / 16, b % 16 * 16 + c / 4, c % 4 * 64 + d;
    DivModUnique(n, 0x1_0000, x, y * 0x100 + z);
    DivModUnique(n, 0x100, x * 0x100 + y, z);
    DivModUnique(x * 0x100 + y, 0x100, x, y);
  }

  /** The text is filled up with the padding that is missing, at most three characters. */
  lemma {:induction false} FillUpIs(chars: seq<byte>, missing: nat)
    requires missing < 4 && (|chars| + missing) % 4 == 0
    ensures FillUp(chars) == chars + seq(missing, _ => 61)
    decreases missing
  {
    if missing == 0 {
      assert chars + seq(missing, _ => 61) == chars;
    } else {
      FillUpIs(chars + [61], missing - 1);
      assert chars + [61] + seq(missing - 1, _ => 61) == chars + seq(missing, _ => 61);
    }
  }

  lemma QuadBack(x: byte, y: byte, z: byte, urlSafe: bool)
    ensures Quad(Symbol(x / 4, urlSafe), Symbol(x % 4 * 16 + y / 16, urlSafe), Symbol(y % 16 * 4 + z / 64, urlSafe),
                 Symbol(z % 64, urlSafe)) == [x, y, z]
    ensures Quad(Symbol(x / 4, urlSafe), Symbol(x % 4 * 16 + y / 16, urlSafe), Symbol(y % 16 * 4, urlSafe), EQUALS) ==
            [x, y]
    ensures Quad(Symbol(x / 4, urlSafe), Symbol(x % 4 * 16, urlSafe), EQUALS, EQUALS) == [x]
  {
    hide Symbol, FirstByte, SecondByte, ThirdByte, Value;
    SymbolValue(x / 4, urlSafe);
    SymbolValue(x % 4 * 16, urlSafe);
    SymbolValue(x % 4 * 16 + y / 16, urlSafe);
    SymbolValue(y % 16 * 4, urlSafe);
    SymbolValue(y % 16 * 4 + z / 64, urlSafe);
    SymbolValue(z % 64, urlSafe);
    FirstBack(x, 0);
    FirstBack(x, y / 16);
    SecondBack(x % 4, y, 0);
    SecondBack(x % 4, y, z / 64);
    ThirdBack(y % 16, z);
  }

  /** Left out padding is put back. */
  lemma {:induction false} FillUpEncoded(data: seq<byte>, urlSafe: bool)
    ensures FillUp(Encode(data, urlSafe, false)) == Encode(data, urlSafe, true)
    ensures FillUp(Encode(data, urlSafe, true)) == Encode(data, urlSafe, true)
  {
    hide Symbol;
    if |data| >= 3 {
      FillUpEncoded(data[3..], urlSafe);
      var four := Encode(data, urlSafe, true)[..4];
      FillUpAfter(four, Encode(data[3..], urlSafe, false));
      FillUpAfter(four, Encode(data[3..], urlSafe, true));
    } else if |data| == 1 {
      var two := Encode(data, urlSafe, false);
      FillUpNext(two);
      FillUpNext(two + [EQUALS]);
      FillUpNext(two + [EQUALS] + [EQUALS]);
      assert two + [EQUALS] + [EQUALS] == Encode(data, urlSafe, true);
    }
  }

  lemma {:induction false} FillUpAfter(four: seq<byte>, chars: seq<byte>)
    requires |four| == 4
    ensures FillUp(four + chars) == four + FillUp(chars)
    decreases (4 - |chars| % 4) % 4
  {
    if |chars| % 4 != 0 {
      FillUpAfter(four, chars + [EQUALS]);
      assert four + chars + [EQUALS] == four + (chars + [EQUALS]);
    }
  }

  lemma {:induction false} QuadsBack(data: seq<byte>, urlSafe: bool)
    ensures |Encode(data, urlSafe, true)| % 4 == 0
    ensures Quads(Encode(data, urlSafe, true)) == data
  {
    hide Symbol, Quad;
    if |data| == 1 {
      QuadBack(data[0], 0, 0, urlSafe);
    } else if |data| == 2 {
      QuadBack(data[0], data[1], 0, urlSafe);
    } else if |data| >= 3 {
      QuadBack(data[0], data[1], data[2], urlSafe);
      QuadsBack(data[3..], urlSafe);
      var e := Encode(data, urlSafe, true);
      assert e[4..] == Encode(data[3..], urlSafe, true);
      assert data == [data[0], data[1], data[2]] + data[3..];
    }
  }

  lemma {:induction false} NoBadBytes(data: seq<byte>, urlSafe: bool, padded: bool)
    ensures forall c :: c in Encode(data, urlSafe, padded) ==> !Bad(c)
  {
    hide Symbol;
    if data != [] {
      SymbolValue(data[0] / 4, urlSafe);
      SymbolValue(data[0] % 4 * 16, urlSafe);
    }
    if |data| > 1 {
      SymbolValue(data[0] % 4 * 16 + data[1] / 16, urlSafe);
      SymbolValue(data[1] % 16 * 4, urlSafe);
    }
    if |data| > 2 {
      SymbolValue(data[1] % 16 * 4 + data[2] / 64, urlSafe);
      SymbolValue(data[2] % 64, urlSafe);
      NoBadBytes(data[3..], urlSafe, padded);
    }
  }

  lemma {:induction false} OnlySpaceLost(input: seq<byte>)
    ensures forall c :: c in input && !IsSpace(c) ==> c in WithoutSpace(input)
  {
    if input != [] { OnlySpaceLost(input[..|input| - 1]); }
  }

  lemma AllGood(input: seq<byte>)
    requires forall c :: c in WithoutSpace(input) ==> !Bad(c)
    ensures forall k :: 0 <= k < |input| ==> !Bad(input[k])
  {
    hide WithoutSpace, Value;
    OnlySpaceLost(input);
    forall k | 0 <= k < |input|
      ensures !Bad(input[k])
    {
      var c := input[k];
      assert c in input;
    }
  }

  /** Any byte sequence comes back: either alphabet, padded or not, with white space put in anywhere. */
  lemma DecodeUndoesEncode(input: seq<byte>, data: seq<byte>, urlSafe: bool, padded: bool)
    requires WithoutSpace(input) == Encode(data, urlSafe, padded)
    ensures Decode(input) == Ok(data)
  {
    hide Encode, FillUp, Quads, WithoutSpace, FirstBad, Bad;
    NoBadBytes(data, urlSafe, padded);
    AllGood(input);
    FirstBadIs(input, |input|);
    FillUpEncoded(data, urlSafe);
    QuadsBack(data, urlSafe);
  }

  /** Decoding is refused exactly when some byte is not in either alphabet, not padding and not white space. */
  lemma RefusedIffBad(input: seq<byte>)
    ensures Decode(input).BadByte? <==> exists i :: 0 <= i < |input| && Bad(input[i])
  {
  }

  /** What a whole number of quadruples decodes to does not depend on what follows, nor the other way round. */
  lemma DecodesInParts(a: seq<byte>, b: seq<byte>)
    requires Decode(a).Ok? && Decode(b).Ok? && |WithoutSpace(a)| % 4 == 0
    ensures Decode(a + b) == Ok(Decode(a).data + Decode(b).data)
  {
    hide FillUp, Quads, WithoutSpace, Bad;
    assert forall k :: 0 <= k < |a + b| ==> !Bad((a + b)[k]);
    WithoutSpaceAppend(a, b);
    FillUpAppend(WithoutSpace(a), WithoutSpace(b));
    QuadsAppend(WithoutSpace(a), FillUp(WithoutSpace(b)));
  }

  lemma {:induction false} WithoutSpaceAppend(a: seq<byte>, b: seq<byte>)
    ensures WithoutSpace(a + b) == WithoutSpace(a) + WithoutSpace(b)
    decreases |b|
  {
    hide IsSpace;
    if b == [] {
      assert a + b == a;
    } else {
      WithoutSpaceAppend(a, b[..|b| - 1]);
      assert (a + b)[..|a + b| - 1] == a + b[..|b| - 1];
    }
  }

  lemma FillUpAppend(a: seq<byte>, b: seq<byte>)
    requires |a| % 4 == 0
    ensures FillUp(a) == a && FillUp(a + b) == a + FillUp(b)
  {
    hide FillUp;
    var missing := (4 - |b| % 4) % 4;
    FillUpIs(a, 0);
    FillUpIs(b, missing);
    FillUpIs(a + b, missing);
  }

  lemma {:induction false} QuadsAppend(a: seq<byte>, b: seq<byte>)
    requires |a| % 4 == 0 && |b| % 4 == 0
    ensures Quads(a + b) == Quads(a) + Quads(b)
    decreases |a|
  {
    hide Quad;
    if a == [] {
      assert a + b == b;
    } else {
      QuadsAppend(a[4..], b);
      assert (a + b)[4..] == a[4..] + b;
    }
  }

  // ----- the loops of the source -----

  method B64Decode(input: seq<byte>) returns (r: Decoded)
    ensures r == Decode(input)
  {
    hide FillUp, Quads, Value;
    var chars := [];
    for i := 0 to |input|
      invariant chars == WithoutSpace(input[..i])
      invariant forall k :: 0 <= k < i ==> !Bad(input[k])
    {
      var c := input[i];
      WithoutSpaceNext(input, i);
      if c == EQUALS || IsSpace(c) {
        EqualsIsGood();
        if c == EQUALS {
          chars := chars + [c];
        }
      } else {
        if Value(c) < 0 {
          FirstBadIs(input, i);
          return BadByte(c);
        }
        chars := chars + [c];
      }
    }
    FirstBadIs(input, |input|);
    assert input[..|input|] == input;
    ghost var filled := FillUp(chars);
    while |chars| % 4 != 0
      invariant FillUp(chars) == filled
      decreases (4 - |chars| % 4) % 4
    {
      FillUpNext(chars);
      chars := chars + [EQUALS];
    }
    FillUpNext(chars);
    var out := QuadLoop(chars);
    return Ok(out);
  }

  lemma WithoutSpaceNext(input: seq<byte>, i: nat)
    requires i < |input|
    ensures WithoutSpace(input[..i + 1]) == WithoutSpace(input[..i]) + if IsSpace(input[i]) then [] else [input[i]]
  {
    assert input[..i + 1][..i] == input[..i];
  }

  lemma EqualsIsGood()
    ensures !Bad(EQUALS) && !IsSpace(EQUALS)
  {
  }

  lemma FirstBadIs(input: seq<byte>, i: nat)
    requires i <= |input| && (i < |input| ==> Bad(input[i])) && forall k :: 0 <= k < i ==> !Bad(input[k])
    ensures FirstBad(input) == i
  {
    hide Bad;
  }

  lemma FillUpNext(chars: seq<byte>)
    ensures FillUp(chars) == if |chars| % 4 == 0 then chars else FillUp(chars + [EQUALS])
  {
  }

  method DecodeChunk(chunk: seq<byte>) returns (out: seq<byte>)
    requires |chunk| == 4
    ensures out == Quad(chunk[0], chunk[1], chunk[2], chunk[3])
  {
    hide FirstByte, SecondByte, ThirdByte, ValueOf;
    var a, b, c, d := ValueOf(chunk[0]), ValueOf(chunk[1]), ValueOf(chunk[2]), ValueOf(chunk[3]);
    out := [FirstByte(a, b)];
    if chunk[2] != EQUALS {
      out := out + [SecondByte(b, c)];
    }
    if chunk[3] != EQUALS {
      out := out + [ThirdByte(c, d)];
    }
  }

  method QuadLoop(chars: seq<byte>) returns (out: seq<byte>)
    requires |chars| % 4 == 0
    ensures out == Quads(chars)
  {
    hide Quad;
    out := [];
    var pos := 0;
    while pos < |chars|
      invariant 0 <= pos <= |chars| && pos % 4 == 0
      invariant out + Quads(chars[pos..]) == Quads(chars)
    {
      QuadsNext(chars, pos);
      var chunk := DecodeChunk(chars[pos..pos + 4]);
      out := out + chunk;
      pos := pos + 4;
    }
  }

  lemma QuadsNext(chars: seq<byte>, pos: nat)
    requires |chars| % 4 == 0 && pos % 4 == 0 && pos < |chars|
    ensures pos + 4 <= |chars| && |chars[pos..]| % 4 == 0 && |chars[pos + 4..]| % 4 == 0
    ensures Quads(chars[pos..]) == Quad(chars[pos], chars[pos + 1], chars[pos + 2], chars[pos + 3]) +
            Quads(chars[pos + 4..])
  {
    hide Quad;
    assert chars[pos..][4..] == chars[pos + 4..];
  }
}
