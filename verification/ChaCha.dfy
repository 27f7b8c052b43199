/** ChaCha20 (RFC 8439): quarter rounds, blocks, and the cipher with its block counter. */
module ChaCha {
  import opened Words
  import opened Streams

  type State = s: seq<nat> | |s| == 16 witness [0, 0, 0, 0, 0, 0, 0, 0, 0, 0, 0, 0, 0, 0, 0, 0]

  // ----- section 2.1: the quarter round -----

  function Sum(a: nat, b: nat): nat {
    Low(a + b, 32)
  }

  function Rotl(x: nat, n: nat): nat
    requires n <= 32
  {
    Or(Shl(x, n, 32), Shr(x, 32 - n))
  }

  datatype Four = Four(a: nat, b: nat, c: nat, d: nat)

  /** Adds one word into another, then adds the result into a third and rotates that: half a half-round. */
  function AddXorRotate(x: nat, y: nat, z: nat, n: nat): (nat, nat)
    requires n <= 32
  {
    (Sum(x, y), Rotl(Xor(z, Sum(x, y)), n))
  }

  function QuarterRound(q: Four): Four {
    var (a1, d1) := AddXorRotate(q.a, q.b, q.d, 16);
    var (c1, b1) := AddXorRotate(q.c, d1, q.b, 12);
    var (a2, d2) := AddXorRotate(a1, b1, d1, 8);
    var (c2, b2) := AddXorRotate(c1, d2, b1, 7);
    Four(a2, b2, c2, d2)
  }

  /** Section 2.2: the quarter round on four places of the state. */
  function QuarterAt(s: State, a: nat, b: nat, c: nat, d: nat): State
    requires a < 16 && b < 16 && c < 16 && d < 16
  {
    var q := QuarterRound(Four(s[a], s[b], s[c], s[d]));
    s[a := q.a][b := q.b][c := q.c][d := q.d]
  }

  // ----- section 2.3: the block function -----

  /** Four columns, then four diagonals. */
  function DoubleRound(s: State): State {
    Diagonals(Columns(s))
  }

  function Columns(s: State): State {
    QuarterAt(QuarterAt(QuarterAt(QuarterAt(s, 0, 4, 8, 12), 1, 5, 9, 13), 2, 6, 10, 14), 3, 7, 11, 15)
  }

  function Diagonals(s: State): State {
    QuarterAt(QuarterAt(QuarterAt(QuarterAt(s, 0, 5, 10, 15), 1, 6, 11, 12), 2, 7, 8, 13), 3, 4, 9, 14)
  }

  function DoubleRounds(s: State, n: nat): State {
    if n == 0 then s else DoubleRound(DoubleRounds(s, n - 1))
  }

  /** A 32-bit word as four bytes, least significant first. */
  function LeBytes(x: nat): (b: seq<byte>)
    ensures |b| == 4
  {
    [x % 256, x / 256 % 256, x / 65536 % 256, x / 16777216 % 256]
  }

  function Serialized(words: seq<nat>): (b: seq<byte>)
    ensures |b| == 4 * |words|
  {
    if words == [] then [] else Serialized(words[..|words| - 1]) + LeBytes(words[|words| - 1])
  }

  function AddStates(x: State, s: State): State {
    seq(16, i requires 0 <= i < 16 => Sum(x[i], s[i]))
  }

  type Block = b: seq<byte> | |b| == 64 witness seq(64, _ => 0)

  function BlockOf(s: State): Block {
    Serialized(AddStates(DoubleRounds(s, 10), s))
  }

  function LeWord(b0: byte, b1: byte, b2: byte, b3: byte): nat {
    b0 + 256 * b1 + 65536 * b2 + 16777216 * b3
  }

  type Key = k: seq<byte> | |k| == 32 witness seq(32, _ => 0)

  type Nonce = k: seq<byte> | |k| == 12 witness seq(12, _ => 0)

  /** Word `i` of a byte string. */
  function WordOf(b: seq<byte>, i: nat): nat
    requires 4 * i + 4 <= |b|
  {
    LeWord(b[4 * i], b[4 * i + 1], b[4 * i + 2], b[4 * i + 3])
  }

  /** The first `n` words of a byte string. */
  function WordsOf(b: seq<byte>, n: nat): (r: seq<nat>)
    requires 4 * n <= |b|
    ensures |r| == n
  {
    seq(n, i requires 0 <= i < n => WordOf(b, i))
  }

  const CONSTANTS: seq<nat> := [0x6170_7865, 0x3320_646e, 0x7962_2d32, 0x6b20_6574]

  /** Four constants, eight key words, the block counter, three nonce words. */
  function Initial(key: Key, nonce: Nonce, counter: nat): State {
    CONSTANTS + WordsOf(key, 8) + [counter] + WordsOf(nonce, 3)
  }

  // ----- section 2.4: the cipher -----

  /** Byte `k` of the keystream lies in the block numbered from the counter. */
  function KeystreamByte(key: Key, nonce: Nonce, counter: nat, k: nat): byte {
    BlockOf(Initial(key, nonce, counter + k / 64))[k % 64]
  }

  function Keystream(key: Key, nonce: Nonce, counter: nat, n: nat): (r: seq<byte>)
    ensures |r| == n
  {
    seq(n, k requires 0 <= k < n => KeystreamByte(key, nonce, counter, k))
  }

  function Crypt(data: seq<byte>, key: Key, nonce: Nonce, counter: nat): seq<byte> {
    XorBytes(data, Keystream(key, nonce, counter, |data|))
  }

  lemma CryptTwice(data: seq<byte>, key: Key, nonce: Nonce, counter: nat)
    ensures Crypt(Crypt(data, key, nonce, counter), key, nonce, counter) == data
  {
    hide Keystream, XorBytes;
    XorBytesTwice(data, Keystream(key, nonce, counter, |data|));
  }

  /** Byte `k` of a message, in its own block and at its own place there. */
  lemma CryptByte(data: seq<byte>, key: Key, nonce: Nonce, counter: nat, b: nat, i: nat)
    requires i < 64 && 64 * b + i < |data|
    ensures |Crypt(data, key, nonce, counter)| == |data|
    ensures Crypt(data, key, nonce, counter)[64 * b + i] ==
            XorByte(data[64 * b + i], BlockOf(Initial(key, nonce, counter + b))[i])
  {
    hide XorByte, BlockOf, Initial;
    DivModUnique(64 * b + i, 64, b, i);
  }

  /** The number of 64-byte blocks that `n` bytes start. */
  function Blocks(n: nat): nat {
    (n + 63) / 64
  }

  datatype ChaChaResult = Ok(data: seq<byte>) | BadSizes | CounterExhausted

  // ----- the quarter round in arithmetic -----

  lemma ModScale(x: nat, p: nat, q: nat)
    requires p > 0 && q > 0
    ensures q * p > 0 && (x * p) % (q * p) == (x % q) * p
  {
    var d, r := x / q, x % q;
    AtLeastOne(q, p);
    MulBelow(r, q, p);
    Regroup(d, q, r, p);
    DivModUnique(x * p, q * p, d, r * p);
  }

  lemma MulBelow(r: nat, q: nat, p: nat)
    requires r < q && p > 0
    ensures r * p < q * p
  {
    AtLeastOne(q - r, p);
    assert (q - r) * p == q * p - r * p;
  }

  lemma Regroup(d: nat, q: nat, r: nat, p: nat)
    ensures (d * q + r) * p == d * (q * p) + r * p
  {
  }

  /** Rotation moves the low part up by multiplying and the high part down by dividing. */
  lemma RotationIs(x: nat, n: nat)
    requires n <= 32 && x < Pow2(32)
    ensures Rotl(x, n) == x % Pow2(32 - n) * Pow2(n) + x / Pow2(32 - n)
  {
    hide Pow2, Low, Shr, Or;
    var p, q := Pow2(n), Pow2(32 - n);
    Pow2Add(32 - n, n);
    LowIsRemainder(x * p, 32);
    ModScale(x, p, q);
    ShrIsDiv(x, 32 - n);
    QuotientBelow(x, q, p);
    OrDisjoint(x / q, x % q, n);
    OrCommutes(x / q, x % q * p);
  }

  lemma QuotientBelow(x: nat, q: nat, p: nat)
    requires q > 0 && x < q * p
    ensures x / q < p
  {
    if x / q >= p {
      assert (x / q) * q >= p * q by { MulAtLeast(x / q, p, q); }
    }
  }

  lemma MulAtLeast(a: nat, b: nat, q: nat)
    requires a >= b
    ensures a * q >= b * q
  {
    assert (a - b) * q >= 0;
    assert (a - b) * q == a * q - b * q;
  }

  /** `s` is `x` plus `y` in 32 bits, and `t` is `z` with `s` mixed in, turned left by as much as `low * high` says. */
  ghost predicate Half(x: nat, y: nat, z: nat, low: nat, high: nat, s: nat, t: nat)
    requires high > 0
  {
    s == (x + y) % 0x1_0000_0000 && t == Xor(z, s) % high * low + Xor(z, s) / high
  }

  lemma HalfIs(x: nat, y: nat, z: nat, n: nat, low: nat, high: nat)
    requires n <= 32 && low == Pow2(n) && high == Pow2(32 - n) && z < Pow2(32) == 0x1_0000_0000
    ensures var (s, t) := AddXorRotate(x, y, z, n);
            Half(x, y, z, low, high, s, t) && s < Pow2(32) && t < Pow2(32)
  {
    hide Pow2, Low, Shr, Or, Xor, Rotl;
    LowIsRemainder(x + y, 32);
    XorBound(z, Sum(x, y), 32);
    RotationIs(Xor(z, Sum(x, y)), n);
    var v := Xor(z, Sum(x, y));
    Pow2Add(32 - n, n);
    QuotientBelow(v, high, low);
    RotatedBelow(v % high, v / high, low, high);
  }

  lemma RotatedBelow(r: nat, q: nat, low: nat, high: nat)
    requires r < high && q < low
    ensures r * low + q < high * low
  {
    MulAtLeast(high - 1, r, low);
    assert (high - 1) * low == high * low - low;
  }

  lemma Powers32()
    ensures Pow2(32) == 0x1_0000_0000 && Pow2(16) == 0x1_0000 && Pow2(12) == 0x1000 && Pow2(20) == 0x10_0000
    ensures Pow2(8) == 0x100 && Pow2(24) == 0x100_0000 && Pow2(7) == 0x80 && Pow2(25) == 0x200_0000
  {
    SmallPowers();
    Pow2Of16();
    Pow2Add(16, 16);
    Pow2Add(8, 12);
    Pow2Add(8, 16);
    Pow2Add(1, 24);
  }

  /** The four half-steps, turning left by 16, 12, 8 and 7 places (section 2.1 of RFC 8439). */
  lemma QuarterSteps(q: Four) returns (a1: nat, d1: nat, c1: nat, b1: nat)
    requires q.a < 0x1_0000_0000 && q.b < 0x1_0000_0000 && q.c < 0x1_0000_0000 && q.d < 0x1_0000_0000
    ensures var r := QuarterRound(q);
            && Half(q.a, q.b, q.d, 0x1_0000, 0x1_0000, a1, d1) && Half(q.c, d1, q.b, 0x1000, 0x10_0000, c1, b1)
            && Half(a1, b1, d1, 0x100, 0x100_0000, r.a, r.d) && Half(c1, r.d, b1, 0x80, 0x200_0000, r.c, r.b)
  {
    Powers32();
    hide Pow2, AddXorRotate, Half;
    a1, d1 := AddXorRotate(q.a, q.b, q.d, 16).0, AddXorRotate(q.a, q.b, q.d, 16).1;
    HalfIs(q.a, q.b, q.d, 16, 0x1_0000, 0x1_0000);
    c1, b1 := AddXorRotate(q.c, d1, q.b, 12).0, AddXorRotate(q.c, d1, q.b, 12).1;
    HalfIs(q.c, d1, q.b, 12, 0x1000, 0x10_0000);
    HalfIs(a1, b1, d1, 8, 0x100, 0x100_0000);
    HalfIs(c1, AddXorRotate(a1, b1, d1, 8).1, b1, 7, 0x80, 0x200_0000);
  }

  // ----- rounds and blocks, place by place -----

  function Turn(i: nat, k: nat): (t: nat)
    requires i < 4 && k < 4
    ensures t < 4
  {
    if i + k < 4 then i + k else i + k - 4
  }

  /** A round works on four words of each of four rows: row `k` is taken `k * shift` places further on. */
  ghost predicate RoundOn(s: State, t: State, diagonal: bool) {
    forall i: nat :: i < 4 ==> QuarterOn(s, t, diagonal, i)
  }

  ghost predicate QuarterOn(s: State, t: State, diagonal: bool, i: nat)
    requires i < 4
  {
    var b := if diagonal then 4 + Turn(i, 1) else 4 + i;
    var c := if diagonal then 8 + Turn(i, 2) else 8 + i;
    var d := if diagonal then 12 + Turn(i, 3) else 12 + i;
    Four(t[i], t[b], t[c], t[d]) == QuarterRound(Four(s[i], s[b], s[c], s[d]))
  }

  lemma ColumnsAre(s: State)
    ensures RoundOn(s, Columns(s), false)
  {
    hide QuarterRound;
  }

  lemma DiagonalsAre(s: State)
    ensures RoundOn(s, Diagonals(s), true)
  {
    hide QuarterRound;
  }

  /** The state after `k` rounds. */
  function RoundState(s: State, k: nat): State {
    if k % 2 == 0 then DoubleRounds(s, k / 2) else Columns(DoubleRounds(s, k / 2))
  }

  lemma RoundStateStep(s: State, k: nat)
    ensures RoundOn(RoundState(s, k), RoundState(s, k + 1), k % 2 == 1)
  {
    hide RoundOn, Columns, Diagonals;
    if k % 2 == 0 {
      ColumnsAre(DoubleRounds(s, k / 2));
      assert (k + 1) / 2 == k / 2;
    } else {
      DiagonalsAre(Columns(DoubleRounds(s, k / 2)));
      assert (k + 1) / 2 == k / 2 + 1;
    }
  }

  lemma BlockWord(s: State, i: nat, n: nat)
    requires i < 16 && n == 20
    ensures BlockOf(s)[4 * i..4 * i + 4] == LeBytes((RoundState(s, n)[i] + s[i]) % 0x1_0000_0000)
  {
    hide DoubleRounds, LeBytes, Sum;
    assert n / 2 == 10 && RoundState(s, n) == DoubleRounds(s, 10);
    SerializedAt(AddStates(DoubleRounds(s, 10), s), i);
    SumIs(DoubleRounds(s, 10)[i], s[i]);
  }

  lemma SumIs(a: nat, b: nat)
    ensures Sum(a, b) == (a + b) % 0x1_0000_0000
  {
    Powers32();
    LowIsRemainder(a + b, 32);
    hide Pow2, Low;
  }

  /** Twenty rounds, on columns and diagonals in turn, then the sum with the start, least significant byte first. */
  lemma BlockRun(s: State) returns (states: seq<State>)
    ensures |states| == 21 && states[0] == s
    ensures forall k: nat :: k < 20 ==> RoundOn(states[k], states[k + 1], k % 2 == 1)
    ensures forall i: nat :: i < 16 ==> BlockOf(s)[4 * i..4 * i + 4] == LeBytes((states[20][i] + s[i]) % 0x1_0000_0000)
  {
    hide RoundOn, RoundState, LeBytes, BlockOf;
    states := seq(21, k requires 0 <= k < 21 => RoundState(s, k));
    NoRound(s);
    forall k: nat | k < 20
      ensures RoundOn(states[k], states[k + 1], k % 2 == 1)
    {
      RoundStateStep(s, k);
    }
    forall i: nat | i < 16
      ensures BlockOf(s)[4 * i..4 * i + 4] == LeBytes((states[20][i] + s[i]) % 0x1_0000_0000)
    {
      BlockWord(s, i, 20);
    }
  }

  lemma NoRound(s: State)
    ensures RoundState(s, 0) == s
  {
  }

  lemma {:induction false} SerializedAt(words: seq<nat>, i: nat)
    requires i < |words|
    ensures Serialized(words)[4 * i..4 * i + 4] == LeBytes(words[i])
  {
    hide LeBytes;
    if i < |words| - 1 {
      SerializedAt(words[..|words| - 1], i);
    }
  }

  /** The state starts with the text of the standard, then key, counter and nonce, four bytes a word. */
  lemma InitialBytes(key: Key, nonce: Nonce, counter: nat, i: nat)
    ensures |Initial(key, nonce, counter)| == 16 && Initial(key, nonce, counter)[12] == counter
    ensures i < 8 ==> LeBytes(Initial(key, nonce, counter)[4 + i]) == key[4 * i..4 * i + 4]
    ensures i < 3 ==> LeBytes(Initial(key, nonce, counter)[13 + i]) == nonce[4 * i..4 * i + 4]
    ensures LeBytes(Initial(key, nonce, counter)[0]) == ['e' as int, 'x' as int, 'p' as int, 'a' as int]
    ensures LeBytes(Initial(key, nonce, counter)[1]) == ['n' as int, 'd' as int, ' ' as int, '3' as int]
    ensures LeBytes(Initial(key, nonce, counter)[2]) == ['2' as int, '-' as int, 'b' as int, 'y' as int]
    ensures LeBytes(Initial(key, nonce, counter)[3]) == ['t' as int, 'e' as int, ' ' as int, 'k' as int]
  {
    if i < 8 { WordBytes(key, i); }
    if i < 3 { WordBytes(nonce, i); }
    hide WordOf;
  }

  lemma WordBytes(b: seq<byte>, i: nat)
    requires 4 * i + 4 <= |b|
    ensures LeBytes(WordOf(b, i)) == b[4 * i..4 * i + 4]
  {
    FourBytes(b[4 * i], b[4 * i + 1], b[4 * i + 2], b[4 * i + 3]);
    hide LeBytes, LeWord;
  }

  lemma FourBytes(b0: byte, b1: byte, b2: byte, b3: byte)
    ensures LeBytes(LeWord(b0, b1, b2, b3)) == [b0, b1, b2, b3]
  {
    var w := LeWord(b0, b1, b2, b3);
    DivModUnique(w, 256, b1 + 256 * b2 + 65536 * b3, b0);
    DivModUnique(w, 65536, b2 + 256 * b3, b0 + 256 * b1);
    DivModUnique(w, 16777216, b3, b0 + 256 * b1 + 65536 * b2);
    DivModUnique(b1 + 256 * b2 + 65536 * b3, 256, b2 + 256 * b3, b1);
    DivModUnique(b2 + 256 * b3, 256, b3, b2);
  }

  // ----- the source's steps, in place -----

  method MixInto(x: array<nat>, a: nat, b: nat, d: nat, n: nat)
    requires x.Length == 16 && a < 16 && b < 16 && d < 16 && a != b && a != d && b != d && n <= 32
    modifies x
    ensures var (s, r) := old(AddXorRotate(x[a], x[b], x[d], n));
            x[..] == old(x[..])[a := s][d := r]
  {
    hide Sum, Rotl, Xor;
    x[a] := Sum(x[a], x[b]);
    x[d] := Rotl(Xor(x[d], x[a]), n);
  }

  predicate Distinct(a: nat, b: nat, c: nat, d: nat) {
    a < 16 && b < 16 && c < 16 && d < 16 && a != b && a != c && a != d && b != c && b != d && c != d
  }

  method QuarterRoundAt(x: array<nat>, a: nat, b: nat, c: nat, d: nat)
    requires x.Length == 16 && Distinct(a, b, c, d)
    modifies x
    ensures x[..] == QuarterAt(old(x[..]), a, b, c, d)
  {
    hide AddXorRotate;
    MixInto(x, a, b, d, 16);
    MixInto(x, c, d, b, 12);
    MixInto(x, a, b, d, 8);
    MixInto(x, c, d, b, 7);
  }

  method TenDoubleRounds(x: array<nat>)
    requires x.Length == 16
    modifies x
    ensures x[..] == DoubleRounds(old(x[..]), 10)
  {
    hide QuarterAt;
    for i := 0 to 10
      invariant x[..] == DoubleRounds(old(x[..]), i)
    {
      QuarterRoundAt(x, 0, 4, 8, 12);
      QuarterRoundAt(x, 1, 5, 9, 13);
      QuarterRoundAt(x, 2, 6, 10, 14);
      QuarterRoundAt(x, 3, 7, 11, 15);
      QuarterRoundAt(x, 0, 5, 10, 15);
      QuarterRoundAt(x, 1, 6, 11, 12);
      QuarterRoundAt(x, 2, 7, 8, 13);
      QuarterRoundAt(x, 3, 4, 9, 14);
    }
  }

  method BlockStream(state: array<nat>) returns (stream: Block)
    requires state.Length == 16
    ensures stream == BlockOf(state[..])
  {
    hide DoubleRounds, Sum, LeBytes;
    var x := new nat[16](i requires 0 <= i < 16 reads state => state[i]);
    assert x[..] == state[..];
    TenDoubleRounds(x);
    ghost var sums := AddStates(x[..], state[..]);
    var out := [];
    for i := 0 to 16
      invariant out == Serialized(sums[..i])
    {
      out := out + LeBytes(Sum(x[i], state[i]));
      assert sums[..i + 1][..i] == sums[..i];
    }
    assert sums[..16] == sums;
    stream := out;
  }

  method StoreWords(state: array<nat>, at: nat, b: seq<byte>, n: nat)
    requires at + n <= state.Length && 4 * n <= |b|
    modifies state
    ensures state[..] == old(state[..at]) + WordsOf(b, n) + old(state[at + n..])
  {
    hide WordOf;
    for i := 0 to n
      invariant forall k :: 0 <= k < i ==> state[at + k] == WordOf(b, k)
      invariant forall k :: 0 <= k < state.Length && !(at <= k < at + i) ==> state[k] == old(state[k])
    {
      state[at + i] := WordOf(b, i);
    }
  }

  method InitialState(key: Key, nonce: Nonce, counter: nat) returns (state: array<nat>)
    ensures fresh(state) && state.Length == 16 && state[..] == Initial(key, nonce, counter)
  {
    hide WordsOf;
    state := new nat[16](i requires 0 <= i < 16 => if i < 4 then CONSTANTS[i] else 0);
    assert state[..4] == CONSTANTS;
    StoreWords(state, 4, key, 8);
    state[12] := counter;
    StoreWords(state, 13, nonce, 3);
  }

  lemma NextBlock(key: Key, nonce: Nonce, counter: nat, data: seq<byte>, pos: nat, end: nat)
    requires pos <= end <= |data| && pos % 64 == 0 && end <= pos + 64
    ensures |BlockOf(Initial(key, nonce, counter + pos / 64))| == 64
    ensures Crypt(data, key, nonce, counter)[..end] ==
            Crypt(data, key, nonce, counter)[..pos] +
              XorBytes(data[pos..end], BlockOf(Initial(key, nonce, counter + pos / 64)))
  {
    hide BlockOf, Initial, XorByte;
    var stream := BlockOf(Initial(key, nonce, counter + pos / 64));
    forall k | pos <= k < end
      ensures KeystreamByte(key, nonce, counter, k) == stream[k - pos]
    {
    }
  }

  /** Succeeds exactly when the sizes are right and the counter after the last block still fits 32 bits. */
  method ChaCha20(data: seq<byte>, key: seq<byte>, nonce: seq<byte>, counter: nat) returns (r: ChaChaResult)
    requires counter < 0x1_0000_0000
    ensures r == if |key| != 32 || |nonce| != 12 then BadSizes
                 else if counter + Blocks(|data|) >= 0x1_0000_0000 then CounterExhausted
                 else Ok(Crypt(data, key, nonce, counter))
  {
    hide Crypt, BlockOf, XorBytes, WordOf;
    if |key| != 32 || |nonce| != 12 { return BadSizes; }
    var state := InitialState(key, nonce, counter);
    var out := [];
    var pos := 0;
    CryptLength(data, key, nonce, counter);
    while pos < |data|
      invariant 0 <= pos <= |data| && (pos % 64 == 0 || pos == |data|)
      invariant state[..] == Initial(key, nonce, counter + Blocks(pos))
      invariant counter + Blocks(pos) < 0x1_0000_0000
      invariant out == Crypt(data, key, nonce, counter)[..pos]
    {
      var end := if pos + 64 <= |data| then pos + 64 else |data|;
      NextBlock(key, nonce, counter, data, pos, end);
      var stream := BlockStream(state);
      var chunk := XorChunk(data[pos..end], stream);
      out := out + chunk;
      assert Blocks(end) == Blocks(pos) + 1;
      if state[12] + 1 >= 0x1_0000_0000 {
        assert Blocks(|data|) >= Blocks(end);
        return CounterExhausted;
      }
      state[12] := state[12] + 1;
      pos := end;
    }
    return Ok(out);
  }

  lemma CryptLength(data: seq<byte>, key: Key, nonce: Nonce, counter: nat)
    ensures |Crypt(data, key, nonce, counter)| == |data|
  {
  }

  method XorChunk(chunk: seq<byte>, stream: seq<byte>) returns (out: seq<byte>)
    requires |chunk| <= |stream|
    ensures out == XorBytes(chunk, stream)
  {
    hide XorByte;
    out := [];
    for i := 0 to |chunk|
      invariant out == XorBytes(chunk, stream)[..i]
    {
      out := out + [XorByte(chunk[i], stream[i])];
    }
  }
}
