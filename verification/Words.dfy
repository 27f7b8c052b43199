/** Unsigned machine words as natural numbers, and their bits, least significant bit first. */
module Words {

  type byte = x: int | 0 <= x < 256

  /** The number of addresses, and the first value past a 64-bit word. */
  const U64: nat := 0x1_0000_0000_0000_0000

  /** Addition in 64 bits that stays at the top. */
  function SatAdd(a: nat, b: nat): nat {
    if a + b < U64 then a + b else U64 - 1
  }

  function Max(a: nat, b: nat): nat {
    if a >= b then a else b
  }

  function Min(a: nat, b: nat): nat {
    if a <= b then a else b
  }

  function Pow2(n: nat): (p: nat)
    ensures 0 < p
  {
    if n == 0 then 1 else 2 * Pow2(n - 1)
  }

  /** The low `n` bits of `v`. */
  function BitsOf(v: nat, n: nat): (b: seq<bool>)
    ensures |b| == n
    decreases n, v
  {
    if n == 0 then [] else [v % 2 == 1] + BitsOf(v / 2, n - 1)
  }

  /** The number whose bits are `b`. */
  function Val(b: seq<bool>): (v: nat)
    ensures v < Pow2(|b|)
  {
    if b == [] then 0 else (if b[0] then 1 else 0) + 2 * Val(b[1..])
  }

  function Reverse<T>(s: seq<T>): (r: seq<T>)
    ensures |r| == |s|
  {
    if s == [] then [] else Reverse(s[1..]) + [s[0]]
  }

  // ----- the word operators of the source, bit by bit -----

  function Or(a: nat, b: nat): nat {
    if a == 0 then b
    else if b == 0 then a
    else (if a % 2 == 1 || b % 2 == 1 then 1 else 0) + 2 * Or(a / 2, b / 2)
  }

  function And(a: nat, b: nat): nat {
    if a == 0 || b == 0 then 0
    else (if a % 2 == 1 && b % 2 == 1 then 1 else 0) + 2 * And(a / 2, b / 2)
  }

  function Xor(a: nat, b: nat): nat {
    if a == 0 then b
    else if b == 0 then a
    else (if a % 2 != b % 2 then 1 else 0) + 2 * Xor(a / 2, b / 2)
  }

  /** `v >> n`. */
  function Shr(v: nat, n: nat): nat
    decreases n, v
  {
    if n == 0 then v else Shr(v / 2, n - 1)
  }

  /** `v` cut to its low `n` bits, as storing it in an `n`-bit word does. */
  function Low(v: nat, n: nat): (r: nat)
    ensures r < Pow2(n)
    decreases n, v
  {
    if n == 0 then 0 else v % 2 + 2 * Low(v / 2, n - 1)
  }

  /** `v << n` in a word of `width` bits: bits shifted past the top are lost. */
  function Shl(v: nat, n: nat, width: nat): nat {
    Low(v * Pow2(n), width)
  }

  // ----- their meaning on bit sequences -----

  lemma {:induction false} Pow2Add(m: nat, n: nat)
    ensures Pow2(m + n) == Pow2(m) * Pow2(n)
  {
    if m > 0 {
      Pow2Add(m - 1, n);
      assert Pow2(m) * Pow2(n) == 2 * (Pow2(m - 1) * Pow2(n));
    }
  }

  lemma SmallPowers()
    ensures Pow2(0) == 1 && Pow2(1) == 2 && Pow2(2) == 4 && Pow2(3) == 8 && Pow2(4) == 16 && Pow2(5) == 32
    ensures Pow2(6) == 64 && Pow2(7) == 128 && Pow2(8) == 256 && Pow2(9) == 512 && Pow2(10) == 1024
    ensures Pow2(11) == 2048 && Pow2(12) == 4096 && Pow2(13) == 8192
  {
  }

  lemma Pow2Of15()
    ensures Pow2(15) == 32768
  {
    Pow2Add(5, 5);
    Pow2Add(5, 10);
  }

  lemma Pow2Of16()
    ensures Pow2(16) == 65536
  {
    Pow2Of15();
    Pow2Add(1, 15);
  }

  lemma {:induction false} Pow2Monotone(m: nat, n: nat)
    requires m <= n
    ensures Pow2(m) <= Pow2(n)
  {
    if m < n { Pow2Monotone(m, n - 1); }
  }

  lemma {:induction false} BitsOfVal(b: seq<bool>)
    ensures BitsOf(Val(b), |b|) == b
  {
    if b != [] { BitsOfVal(b[1..]); }
  }

  lemma {:induction false} ValBitsOf(v: nat, n: nat)
    requires v < Pow2(n)
    ensures Val(BitsOf(v, n)) == v
  {
    if n > 0 {
      ValBitsOf(v / 2, n - 1);
      assert BitsOf(v, n)[1..] == BitsOf(v / 2, n - 1);
    }
  }

  lemma {:induction false} ValAppend(a: seq<bool>, b: seq<bool>)
    ensures Val(a + b) == Val(a) + Pow2(|a|) * Val(b)
  {
    if a == [] {
      assert a + b == b;
    } else {
      ValAppend(a[1..], b);
      assert (a + b)[1..] == a[1..] + b;
      DoubleTimes(Pow2(|a| - 1), Val(b));
    }
  }

  lemma DoubleTimes(x: int, y: int)
    ensures 2 * x * y == 2 * (x * y)
  {
  }

  lemma TimesDouble(x: int, y: int)
    ensures x * (2 * y) == 2 * (x * y)
  {
  }

  lemma AtLeastOne(a: int, d: int)
    requires a >= 1 && d >= 0
    ensures a * d >= d
  {
    assert (a - 1) * d >= 0;
  }

  /** Quotient and remainder are determined by the division equation. */
  lemma DivModUnique(x: int, d: int, q: int, r: int)
    requires x == q * d + r && 0 <= r < d
    ensures x / d == q && x % d == r
  {
    var q', r' := x / d, x % d;
    assert x == q' * d + r';
    assert (q - q') * d == r' - r && (q' - q) * d == r - r';
    if q > q' { AtLeastOne(q - q', d); }
    if q' > q { AtLeastOne(q' - q, d); }
  }

  /** Placing `b` above the low `m` bits of `a` places their bits side by side. */
  lemma {:induction false} BitsOfJoin(a: nat, b: nat, m: nat, n: nat)
    requires a < Pow2(m)
    ensures BitsOf(a + b * Pow2(m), m + n) == BitsOf(a, m) + BitsOf(b, n)
  {
    if m > 0 {
      var t := b * Pow2(m - 1);
      assert b * Pow2(m) == 2 * t;
      assert (a + 2 * t) % 2 == a % 2 && (a + 2 * t) / 2 == a / 2 + t;
      BitsOfJoin(a / 2, b, m - 1, n);
    }
  }

  lemma {:induction false} BitsOfSplit(v: nat, m: nat, n: nat)
    ensures BitsOf(v, m + n) == BitsOf(v, m) + BitsOf(Shr(v, m), n)
  {
    if m > 0 { BitsOfSplit(v / 2, m - 1, n); }
  }

  lemma {:induction false} ValBitsOfLow(v: nat, n: nat)
    ensures Val(BitsOf(v, n)) == Low(v, n)
  {
    if n > 0 {
      ValBitsOfLow(v / 2, n - 1);
      assert BitsOf(v, n)[1..] == BitsOf(v / 2, n - 1);
    }
  }

  lemma {:induction false} LowFits(v: nat, n: nat)
    requires v < Pow2(n)
    ensures Low(v, n) == v
  {
    if n > 0 { LowFits(v / 2, n - 1); }
  }

  lemma {:induction false} LowAdd(x: nat, y: nat, n: nat)
    ensures Low(Low(x, n) + y, n) == Low(x + y, n)
  {
    if n > 0 {
      var low := Low(x / 2, n - 1);
      LowAdd(x / 2, (x % 2 + y) / 2, n - 1);
      HalfOfSum(x, low, y);
    }
  }

  lemma HalfOfSum(x: nat, low: nat, y: nat)
    ensures (x % 2 + 2 * low + y) / 2 == low + (x % 2 + y) / 2 && (x % 2 + 2 * low + y) % 2 == (x + y) % 2
    ensures (x + y) / 2 == x / 2 + (x % 2 + y) / 2
  {
  }

  lemma {:induction false} ShrBound(v: nat, m: nat, n: nat)
    requires v < Pow2(m + n)
    ensures Shr(v, m) < Pow2(n)
  {
    if m > 0 { ShrBound(v / 2, m - 1, n); }
  }

  /** Or-ing bits above a word that does not reach them adds them. */
  lemma {:induction false} OrDisjoint(a: nat, b: nat, m: nat)
    requires a < Pow2(m)
    ensures Or(a, b * Pow2(m)) == a + b * Pow2(m)
  {
    if m > 0 && a > 0 && b > 0 {
      var t := b * Pow2(m - 1);
      assert b * Pow2(m) == 2 * t;
      assert t > 0;
      OrDisjoint(a / 2, b, m - 1);
    }
  }

  /** A bit put in below a word. */
  lemma OrLowBit(x: nat, b: nat)
    requires b < 2
    ensures Or(2 * x, b) == 2 * x + b
  {
    if x > 0 && b > 0 {
      assert Or(2 * x / 2, b / 2) == x;
    }
  }

  lemma {:induction false} OrCommutes(a: nat, b: nat)
    ensures Or(a, b) == Or(b, a)
  {
    if a != 0 && b != 0 { OrCommutes(a / 2, b / 2); }
  }

  lemma {:induction false} AndMask(v: nat, n: nat)
    ensures And(v, Pow2(n) - 1) == Low(v, n)
  {
    if v == 0 {
      LowFits(0, n);
    } else if n > 0 {
      AndMask(v / 2, n - 1);
      assert (Pow2(n) - 1) / 2 == Pow2(n - 1) - 1 && (Pow2(n) - 1) % 2 == 1;
    }
  }

  lemma {:induction false} XorCancel(a: nat, b: nat)
    ensures Xor(Xor(a, b), b) == a
  {
    if a == 0 {
      XorSelf(b);
    } else if b != 0 {
      XorCancel(a / 2, b / 2);
      var x := Xor(a, b);
      assert x / 2 == Xor(a / 2, b / 2);
      if x == 0 {
        assert Xor(a / 2, b / 2) == 0;
      }
    }
  }

  lemma {:induction false} XorSelf(a: nat)
    ensures Xor(a, a) == 0
  {
    if a != 0 { XorSelf(a / 2); }
  }

  /** Flipping the low `n` bits subtracts from 2^n - 1. */
  lemma {:induction false} XorOnes(a: nat, n: nat)
    requires a < Pow2(n)
    ensures Xor(a, Pow2(n) - 1) == Pow2(n) - 1 - a
  {
    if n > 0 && a > 0 {
      XorOnes(a / 2, n - 1);
      assert (Pow2(n) - 1) / 2 == Pow2(n - 1) - 1 && (Pow2(n) - 1) % 2 == 1;
    }
  }

  lemma {:induction false} XorBound(a: nat, b: nat, n: nat)
    requires a < Pow2(n) && b < Pow2(n)
    ensures Xor(a, b) < Pow2(n)
  {
    if a != 0 && b != 0 { XorBound(a / 2, b / 2, n - 1); }
  }

  /** Shifting down is division. */
  lemma {:induction false} ShrIsDiv(v: nat, n: nat)
    ensures Shr(v, n) == v / Pow2(n)
    decreases n
  {
    if n > 0 {
      ShrIsDiv(v / 2, n - 1);
      HalfThenDiv(v, Pow2(n - 1));
    }
  }

  lemma HalfThenDiv(v: nat, p: nat)
    requires p > 0
    ensures v / 2 / p == v / (2 * p)
  {
    var q, r := v / 2 / p, v / 2 % p;
    assert v == 2 * (v / 2) + v % 2;
    DoubleTimes(q, p);
    assert v == q * (2 * p) + (2 * r + v % 2) by { TimesDouble(q, p); }
    DivModUnique(v, 2 * p, q, 2 * r + v % 2);
  }

  /** Cutting to `n` bits is the remainder. */
  lemma {:induction false} LowIsRemainder(v: nat, n: nat)
    ensures Low(v, n) == v % Pow2(n)
    decreases n
  {
    if n > 0 {
      LowIsRemainder(v / 2, n - 1);
      HalfThenMod(v, Pow2(n - 1));
    }
  }

  lemma HalfThenMod(v: nat, p: nat)
    requires p > 0
    ensures v % 2 + 2 * (v / 2 % p) == v % (2 * p)
  {
    var q, r := v / 2 / p, v / 2 % p;
    assert v == 2 * (v / 2) + v % 2;
    assert v == q * (2 * p) + (2 * r + v % 2) by { TimesDouble(q, p); }
    DivModUnique(v, 2 * p, q, 2 * r + v % 2);
  }

  /** Bit `i` of an exclusive or is set exactly if it differs in the two words. */
  lemma {:induction false} XorBit(a: nat, b: nat, i: nat)
    ensures Shr(Xor(a, b), i) % 2 == 1 <==> Shr(a, i) % 2 != Shr(b, i) % 2
    decreases i
  {
    XorHalves(a, b);
    if i > 0 { XorBit(a / 2, b / 2, i - 1); }
  }

  lemma XorHalves(a: nat, b: nat)
    ensures Xor(a, b) / 2 == Xor(a / 2, b / 2) && (Xor(a, b) % 2 == 1 <==> a % 2 != b % 2)
  {
  }

  lemma LowIsMod(v: nat)
    ensures Low(v, 2) == v % 4 && Low(v, 4) == v % 16
  {
    hide Low;
    LowTwo(v);
    LowTwo(v / 4);
    LowStep(v, 4);
    LowStep(v / 2, 3);
    LowStep(v, 2);
    LowStep(v / 2, 1);
    LowNone(v / 4);
    Sixteen(v);
  }

  lemma Sixteen(v: nat)
    ensures v / 2 / 2 == v / 4 && v % 4 == v % 2 + 2 * (v / 2 % 2) && v % 16 == v % 4 + 4 * (v / 4 % 4)
    ensures v % 16 == v % 2 + 2 * (v / 2 % 2 + 2 * (v / 4 % 4))
  {
  }

  lemma LowStep(v: nat, n: nat)
    requires n > 0
    ensures Low(v, n) == v % 2 + 2 * Low(v / 2, n - 1)
  {
  }

  lemma LowNone(v: nat)
    ensures Low(v, 0) == 0
  {
  }

  lemma LowTwo(v: nat)
    ensures Low(v, 2) == v % 4
  {
    hide Low;
    LowStep(v, 2);
    LowStep(v / 2, 1);
    LowNone(v / 2 / 2);
    Sixteen(v);
  }

  lemma LowSplit(v: nat)
    ensures Low(v, 8) == Low(v, 4) + 16 * Low(v / 16, 4)
  {
    hide Low;
    assert v / 2 / 2 / 2 / 2 == v / 16;
    LowStep(v, 8);
    LowStep(v / 2, 7);
    LowStep(v / 2 / 2, 6);
    LowStep(v / 2 / 2 / 2, 5);
    LowStep(v, 4);
    LowStep(v / 2, 3);
    LowStep(v / 2 / 2, 2);
    LowStep(v / 2 / 2 / 2, 1);
    LowNone(v / 16);
  }

  lemma ByteNibbles(v: nat)
    ensures v % 256 == v % 16 + 16 * (v / 16 % 16)
  {
  }

  lemma LowByteIs(v: nat)
    ensures Low(v, 8) == v % 256
  {
    hide Low;
    LowIsMod(v);
    LowIsMod(v / 16);
    LowSplit(v);
    ByteNibbles(v);
  }

  // ----- byte strings as bit strings -----

  function StreamBits(data: seq<byte>): (b: seq<bool>)
    ensures |b| == 8 * |data|
  {
    if data == [] then [] else BitsOf(data[0], 8) + StreamBits(data[1..])
  }

  /** Bytes from bits; the inverse of `StreamBits`. */
  function Pack(bits: seq<bool>): (d: seq<byte>)
    requires |bits| % 8 == 0
    ensures StreamBits(d) == bits
  {
    if bits == [] then [] else
      assert Pow2(8) == 256;
      BitsOfVal(bits[..8]);
      var d: seq<byte> := [Val(bits[..8])] + Pack(bits[8..]);
      d
  }

  lemma {:induction false} StreamBitsAppend(a: seq<byte>, b: seq<byte>)
    ensures StreamBits(a + b) == StreamBits(a) + StreamBits(b)
  {
    hide BitsOf;
    if a == [] {
      assert a + b == b;
    } else {
      StreamBitsAppend(a[1..], b);
      assert (a + b)[1..] == a[1..] + b;
    }
  }

  lemma {:induction false} StreamBitsInjective(a: seq<byte>, b: seq<byte>)
    requires StreamBits(a) == StreamBits(b)
    ensures a == b
  {
    assert |a| == |b|;
    if a != [] {
      assert StreamBits(a)[..8] == BitsOf(a[0], 8) && StreamBits(b)[..8] == BitsOf(b[0], 8);
      assert StreamBits(a)[8..] == StreamBits(a[1..]) && StreamBits(b)[8..] == StreamBits(b[1..]);
      assert Pow2(8) == 256;
      ValBitsOf(a[0], 8);
      ValBitsOf(b[0], 8);
      StreamBitsInjective(a[1..], b[1..]);
    }
  }
}
