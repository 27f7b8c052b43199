/** DES as a Feistel network (FIPS 46-3): bit permutations, rounds, blocks in both directions, and Triple-DES. */
module Des {
  import opened Words
  import opened Counter

  // ----- bits as DES numbers them: 1 is the most significant -----

  /** The low `n` bits of `v`, most significant first. */
  function Msb(v: nat, n: nat): (b: seq<bool>)
    ensures |b| == n
    decreases n, v
  {
    if n == 0 then [] else Msb(v / 2, n - 1) + [v % 2 == 1]
  }

  function MsbVal(b: seq<bool>): (v: nat)
    ensures v < Pow2(|b|)
  {
    if b == [] then 0 else 2 * MsbVal(b[..|b| - 1]) + (if b[|b| - 1] then 1 else 0)
  }

  lemma {:induction false} MsbOfVal(b: seq<bool>)
    ensures Msb(MsbVal(b), |b|) == b
  {
    if b != [] { MsbOfVal(b[..|b| - 1]); }
  }

  lemma {:induction false} ValOfMsb(v: nat, n: nat)
    requires v < Pow2(n)
    ensures MsbVal(Msb(v, n)) == v
    decreases n
  {
    if n > 0 {
      ValOfMsb(v / 2, n - 1);
      assert Msb(v, n)[..n - 1] == Msb(v / 2, n - 1);
    }
  }

  lemma {:induction false} MsbAt(v: nat, n: nat, i: nat)
    requires i < n
    ensures Msb(v, n)[i] <==> Shr(v, n - 1 - i) % 2 == 1
    decreases n
  {
    if i < n - 1 { MsbAt(v / 2, n - 1, i); }
  }

  // ----- permutations -----

  /** Every entry names one of `n` bits. */
  predicate Selects(table: seq<nat>, n: nat) {
    forall j :: 0 <= j < |table| ==> 1 <= table[j] <= n
  }

  function Picked(bits: seq<bool>, table: seq<nat>): (r: seq<bool>)
    requires Selects(table, |bits|)
    ensures |r| == |table|
  {
    seq(|table|, j requires 0 <= j < |table| => bits[table[j] - 1])
  }

  /** Output bit j is input bit table[j], in DES numbering. */
  function Permute(v: nat, n: nat, table: seq<nat>): (r: nat)
    requires Selects(table, n)
    ensures r < Pow2(|table|)
  {
    MsbVal(Picked(Msb(v, n), table))
  }

  /** The second table puts every bit back where the first took it from. */
  ghost predicate Undoes(a: seq<nat>, b: seq<nat>) {
    |a| == |b| && Selects(a, |a|) && Selects(b, |b|) && forall j :: 0 <= j < |b| ==> a[b[j] - 1] == j + 1
  }

  lemma PermuteUndone(v: nat, a: seq<nat>, b: seq<nat>)
    requires Undoes(a, b) && v < Pow2(|a|)
    ensures Permute(Permute(v, |a|, a), |b|, b) == v
  {
    hide Pow2, Msb, MsbVal;
    var bits := Msb(v, |a|);
    MsbOfVal(Picked(bits, a));
    assert Picked(Picked(bits, a), b) == bits;
    ValOfMsb(v, |a|);
  }

  // ----- the fold of the source -----

  /** Shifting in one more bit in a word wide enough loses nothing. */
  lemma ShiftIn(picked: seq<bool>, i: nat, width: nat)
    requires i < |picked| <= width
    ensures Or(Shl(MsbVal(picked[..i]), 1, width), if picked[i] then 1 else 0) == MsbVal(picked[..i + 1])
  {
    var out := MsbVal(picked[..i]);
    assert picked[..i + 1][..i] == picked[..i];
    Pow2Monotone(i + 1, width);
    assert out * Pow2(1) == 2 * out;
    LowFits(2 * out, width);
    OrLowBit(out, if picked[i] then 1 else 0);
  }

  /** Shifting a bit down and masking it reads it. */
  lemma ReadBit(v: nat, n: nat, i: nat)
    requires i < n
    ensures And(Shr(v, n - 1 - i), 1) == if Msb(v, n)[i] then 1 else 0
  {
    MsbAt(v, n, i);
    var x := Shr(v, n - 1 - i);
    AndMask(x, 1);
    assert Low(x, 1) == x % 2 + 2 * Low(x / 2, 0);
  }

  method DesPermute(input: nat, inputBits: nat, table: seq<nat>) returns (out: nat)
    requires Selects(table, inputBits) && |table| <= 64
    ensures out == Permute(input, inputBits, table)
  {
    ghost var picked := Picked(Msb(input, inputBits), table);
    assert MsbVal([]) == 0;
    hide MsbVal, Or, Shl, And, Shr, Pow2, Msb;
    out := 0;
    for i := 0 to |table|
      invariant out == MsbVal(picked[..i])
    {
      ReadBit(input, inputBits, table[i] - 1);
      ShiftIn(picked, i, 64);
      out := Or(Shl(out, 1, 64), And(Shr(input, inputBits - table[i]), 1));
    }
    assert picked[..|table|] == picked;
  }

  // ----- halves -----

  datatype Halves = Halves(left: nat, right: nat)

  function Split(v: nat, w: nat): Halves {
    Halves(Shr(v, w), Low(v, w))
  }

  function Join(h: Halves, w: nat): nat {
    h.left * Pow2(w) + h.right
  }

  predicate Fit(h: Halves, w: nat) {
    h.left < Pow2(w) && h.right < Pow2(w)
  }

  lemma {:induction false} ShrLow(v: nat, w: nat)
    ensures Shr(v, w) * Pow2(w) + Low(v, w) == v
    decreases w
  {
    if w > 0 {
      ShrLow(v / 2, w - 1);
      TimesDouble(Shr(v / 2, w - 1), Pow2(w - 1));
    }
  }

  lemma {:induction false} ShrLowOf(l: nat, r: nat, w: nat)
    requires r < Pow2(w)
    ensures Shr(l * Pow2(w) + r, w) == l && Low(l * Pow2(w) + r, w) == r
    decreases w
  {
    if w > 0 {
      var p := l * Pow2(w - 1);
      TimesDouble(l, Pow2(w - 1));
      assert (2 * p + r) / 2 == p + r / 2 && (2 * p + r) % 2 == r % 2;
      ShrLowOf(l, r / 2, w - 1);
    }
  }

  lemma SplitJoin(h: Halves, w: nat)
    requires Fit(h, w)
    ensures Split(Join(h, w), w) == h
    ensures Join(h, w) < Pow2(2 * w)
  {
    ShrLowOf(h.left, h.right, w);
    Pow2Add(w, w);
    assert w + w == 2 * w;
    JoinBound(h.left, h.right, Pow2(w));
  }

  lemma JoinBound(l: nat, r: nat, p: nat)
    requires l < p && r < p
    ensures l * p + r < p * p
  {
    AtLeastOne(p - l, p);
    assert (p - l) * p == p * p - l * p;
  }

  lemma JoinSplit(v: nat, w: nat)
    requires v < Pow2(2 * w)
    ensures Fit(Split(v, w), w) && Join(Split(v, w), w) == v
  {
    ShrLow(v, w);
    ShrBound(v, w, w);
  }

  // ----- the Feistel network, for any round function -----

  type RoundFunction = (nat, nat) -> nat

  ghost predicate Yields(f: RoundFunction, w: nat) {
    forall r: nat, k: nat :: f(r, k) < Pow2(w)
  }

  function FeistelRound(f: RoundFunction, h: Halves, k: nat): Halves {
    Halves(h.right, Xor(h.left, f(h.right, k)))
  }

  function Rounds(f: RoundFunction, h: Halves, keys: seq<nat>): Halves {
    if keys == [] then h else FeistelRound(f, Rounds(f, h, keys[..|keys| - 1]), keys[|keys| - 1])
  }

  function Swap(h: Halves): Halves {
    Halves(h.right, h.left)
  }

  lemma {:induction false} RoundsFit(f: RoundFunction, h: Halves, keys: seq<nat>, w: nat)
    requires Fit(h, w) && Yields(f, w)
    ensures Fit(Rounds(f, h, keys), w)
  {
    if keys != [] {
      RoundsFit(f, h, keys[..|keys| - 1], w);
      var g := Rounds(f, h, keys[..|keys| - 1]);
      XorBound(g.left, f(g.right, keys[|keys| - 1]), w);
    }
  }

  lemma {:induction false} RoundsFirst(f: RoundFunction, h: Halves, k: nat, keys: seq<nat>)
    ensures Rounds(f, h, [k] + keys) == Rounds(f, FeistelRound(f, h, k), keys)
  {
    if keys == [] {
      assert Rounds(f, h, [k]) == FeistelRound(f, Rounds(f, h, []), k);
      assert [k] + keys == [k];
    } else {
      RoundsFirst(f, h, k, keys[..|keys| - 1]);
      assert ([k] + keys)[..|keys|] == [k] + keys[..|keys| - 1];
    }
  }

  /** The same rounds with the keys reversed, on swapped halves, lead back to the swapped start. */
  lemma {:induction false} RoundsUndone(f: RoundFunction, h: Halves, keys: seq<nat>)
    ensures Rounds(f, Swap(Rounds(f, h, keys)), Backward(keys)) == Swap(h)
  {
    if keys != [] {
      var front, k := keys[..|keys| - 1], keys[|keys| - 1];
      var before := Rounds(f, h, front);
      var after := FeistelRound(f, before, k);
      XorCancel(before.left, f(before.right, k));
      assert FeistelRound(f, Swap(after), k) == Swap(before);
      RoundsFirst(f, Swap(after), k, Backward(front));
      assert Backward(keys) == [k] + Backward(front);
      RoundsUndone(f, h, front);
    }
  }

  function Backward(keys: seq<nat>): (r: seq<nat>)
    ensures |r| == |keys|
  {
    seq(|keys|, i requires 0 <= i < |keys| => keys[|keys| - 1 - i])
  }

  lemma BackwardTwice(keys: seq<nat>)
    ensures Backward(Backward(keys)) == keys
  {
  }

  // ----- blocks -----

  /** One block: split, rounds, swap, join, between two permutations that undo each other. */
  function Crypt(f: RoundFunction, keys: seq<nat>, ip: seq<nat>, fp: seq<nat>, w: nat, v: nat): (c: nat)
    requires Undoes(ip, fp) && |ip| == 2 * w
    ensures c < Pow2(2 * w)
  {
    Permute(Join(Swap(Rounds(f, Split(Permute(v, 2 * w, ip), w), keys)), w), 2 * w, fp)
  }

  lemma CryptUndone(f: RoundFunction, keys: seq<nat>, ip: seq<nat>, fp: seq<nat>, w: nat, v: nat)
    requires Undoes(ip, fp) && Undoes(fp, ip) && |ip| == 2 * w && Yields(f, w) && v < Pow2(2 * w)
    ensures Crypt(f, Backward(keys), ip, fp, w, Crypt(f, keys, ip, fp, w, v)) == v
  {
    assert |fp| == 2 * w && Selects(ip, 2 * w) && Selects(fp, 2 * w);
    hide Permute, Rounds, Undoes, Selects, Split, Join, Backward, Fit, Yields;
    var start := Split(Permute(v, 2 * w, ip), w);
    JoinSplit(Permute(v, 2 * w, ip), w);
    RoundsFit(f, start, keys, w);
    var end := Swap(Rounds(f, start, keys));
    SwapFits(Rounds(f, start, keys), w);
    SplitJoin(end, w);
    PermuteUndone(Join(end, w), fp, ip);
    RoundsUndone(f, start, keys);
    PermuteUndone(v, ip, fp);
  }

  lemma SwapFits(h: Halves, w: nat)
    requires Fit(h, w)
    ensures Fit(Swap(h), w)
  {
  }

  // ----- the tables of FIPS 46-3 -----

  const IP: seq<nat> :=
    [58, 50, 42, 34, 26, 18, 10, 2] +
    [60, 52, 44, 36, 28, 20, 12, 4] +
    [62, 54, 46, 38, 30, 22, 14, 6] +
    [64, 56, 48, 40, 32, 24, 16, 8] +
    [57, 49, 41, 33, 25, 17, 9, 1] +
    [59, 51, 43, 35, 27, 19, 11, 3] +
    [61, 53, 45, 37, 29, 21, 13, 5] +
    [63, 55, 47, 39, 31, 23, 15, 7]

  const FP: seq<nat> :=
    [40, 8, 48, 16, 56, 24, 64, 32] +
    [39, 7, 47, 15, 55, 23, 63, 31] +
    [38, 6, 46, 14, 54, 22, 62, 30] +
    [37, 5, 45, 13, 53, 21, 61, 29] +
    [36, 4, 44, 12, 52, 20, 60, 28] +
    [35, 3, 43, 11, 51, 19, 59, 27] +
    [34, 2, 42, 10, 50, 18, 58, 26] +
    [33, 1, 41, 9, 49, 17, 57, 25]

  /** For output bits `lo` to `hi`, the second table points at the place the first table filled from there. */
  ghost predicate Opposite(a: seq<nat>, b: seq<nat>, lo: nat, hi: nat) {
    |a| == 64 && |b| == 64 && hi <= 64 &&
    forall j :: lo <= j < hi ==> 1 <= b[j] <= 64 && a[b[j] - 1] == j + 1
  }

  lemma FpUndoesIp0()
    ensures Opposite(IP, FP, 0, 16)
  {
    assert Opposite(IP, FP, 0, 8);
    assert Opposite(IP, FP, 8, 16);
  }

  lemma FpUndoesIp16()
    ensures Opposite(IP, FP, 16, 32)
  {
    assert Opposite(IP, FP, 16, 24);
    assert Opposite(IP, FP, 24, 32);
  }

  lemma FpUndoesIp32()
    ensures Opposite(IP, FP, 32, 48)
  {
    assert Opposite(IP, FP, 32, 40);
    assert Opposite(IP, FP, 40, 48);
  }

  lemma FpUndoesIp48()
    ensures Opposite(IP, FP, 48, 64)
  {
    assert Opposite(IP, FP, 48, 56);
    assert Opposite(IP, FP, 56, 64);
  }

  lemma IpUndoesFp0()
    ensures Opposite(FP, IP, 0, 16)
  {
    assert Opposite(FP, IP, 0, 8);
    assert Opposite(FP, IP, 8, 16);
  }

  lemma IpUndoesFp16()
    ensures Opposite(FP, IP, 16, 32)
  {
    assert Opposite(FP, IP, 16, 24);
    assert Opposite(FP, IP, 24, 32);
  }

  lemma IpUndoesFp32()
    ensures Opposite(FP, IP, 32, 48)
  {
    assert Opposite(FP, IP, 32, 40);
    assert Opposite(FP, IP, 40, 48);
  }

  lemma IpUndoesFp48()
    ensures Opposite(FP, IP, 48, 64)
  {
    assert Opposite(FP, IP, 48, 56);
    assert Opposite(FP, IP, 56, 64);
  }

  /** The final permutation is the inverse of the initial one. */
  lemma TablesUndo()
    ensures |IP| == 64 && Undoes(IP, FP) && Undoes(FP, IP)
  {
    hide *;
    FpUndoesIp0();
    FpUndoesIp16();
    FpUndoesIp32();
    FpUndoesIp48();
    IpUndoesFp0();
    IpUndoesFp16();
    IpUndoesFp32();
    IpUndoesFp48();
    OppositeUndo(IP, FP);
  }

  lemma OppositeUndo(a: seq<nat>, b: seq<nat>)
    requires Opposite(a, b, 0, 16) && Opposite(a, b, 16, 32) && Opposite(a, b, 32, 48) && Opposite(a, b, 48, 64)
    requires Opposite(b, a, 0, 16) && Opposite(b, a, 16, 32) && Opposite(b, a, 32, 48) && Opposite(b, a, 48, 64)
    ensures |a| == 64 && Undoes(a, b) && Undoes(b, a)
  {
  }

  // ----- the block functions of the source -----

  lemma {:induction false} PowerIsPow2(n: nat)
    ensures Power(n) == Pow2(8 * n)
  {
    if n > 0 {
      PowerIsPow2(n - 1);
      assert 8 * n == 8 + 8 * (n - 1);
      Pow2Add(8, 8 * (n - 1));
    }
  }

  type DesBlock = s: seq<bv8> | |s| == 8 witness [0, 0, 0, 0, 0, 0, 0, 0]

  type KeySchedule = k: seq<nat> | |k| == 16 witness [0, 0, 0, 0, 0, 0, 0, 0, 0, 0, 0, 0, 0, 0, 0, 0]

  /** One block of eight bytes through the permutations and the rounds, with the keys in the order given. */
  function DesBlockWith(block: DesBlock, keys: seq<nat>, f: RoundFunction): DesBlock {
    TablesUndo();
    BeBytes(Crypt(f, keys, IP, FP, 32, BeVal(block)), 8)
  }

  function DesCrypt(block: DesBlock, keys: KeySchedule, decrypt: bool, f: RoundFunction): DesBlock {
    DesBlockWith(block, if decrypt then Backward(keys) else keys, f)
  }

  lemma ValueFits(block: seq<bv8>)
    ensures BeVal(block) < Pow2(8 * |block|)
  {
    BytesOfValue(block);
    ValueOfBytes(BeVal(block), |block|);
    PowerIsPow2(|block|);
  }

  lemma BytesBack(v: nat, n: nat)
    requires v < Pow2(8 * n)
    ensures BeVal(BeBytes(v, n)) == v
  {
    hide *;
    ValueOfBytes(v, n);
    PowerIsPow2(n);
    DivModUnique(v, Power(n), 0, v);
  }

  /** On bytes: decoding and encoding the block around the permuted rounds loses nothing. */
  lemma BytesUndone(block: seq<bv8>, keys: seq<nat>, f: RoundFunction, ip: seq<nat>, fp: seq<nat>, w: nat, n: nat)
    requires Undoes(ip, fp) && Undoes(fp, ip) && |ip| == 2 * w && Yields(f, w) && 2 * w == 8 * n && |block| == n
    ensures BeBytes(Crypt(f, Backward(keys), ip, fp, w, BeVal(BeBytes(Crypt(f, keys, ip, fp, w, BeVal(block)), n))),
                    n) == block
  {
    hide *;
    ValueFits(block);
    CryptUndone(f, keys, ip, fp, w, BeVal(block));
    BytesBack(Crypt(f, keys, ip, fp, w, BeVal(block)), n);
    BytesOfValue(block);
  }

  lemma BlockUndone(block: DesBlock, keys: seq<nat>, f: RoundFunction)
    requires Yields(f, 32)
    ensures DesBlockWith(DesBlockWith(block, keys, f), Backward(keys), f) == block
  {
    hide Crypt, Undoes, Backward, Yields, BeVal, BeBytes;
    TablesUndo();
    BytesUndone(block, keys, f, IP, FP, 32, 8);
  }

  /** With the decrypt flag the block function undoes itself without it, and the other way round. */
  lemma DesDecryptUndoesEncrypt(block: DesBlock, keys: KeySchedule, f: RoundFunction)
    requires Yields(f, 32)
    ensures DesCrypt(DesCrypt(block, keys, false, f), keys, true, f) == block
    ensures DesCrypt(DesCrypt(block, keys, true, f), keys, false, f) == block
  {
    hide DesBlockWith, Backward, Yields;
    BlockUndone(block, keys, f);
    BlockUndone(block, Backward(keys), f);
    BackwardTwice(keys);
  }

  /** Shifting one half up and or-ing the other in joins them. */
  lemma JoinByShift(h: Halves, w: nat)
    requires Fit(h, w)
    ensures Or(Shl(h.left, w, 2 * w), h.right) == Join(h, w)
  {
    hide Or, Low;
    SplitJoin(Halves(h.left, 0), w);
    LowFits(h.left * Pow2(w), 2 * w);
    OrCommutes(h.left * Pow2(w), h.right);
    OrDisjoint(h.right, h.left, w);
  }

  lemma OneMoreRound(f: RoundFunction, h: Halves, keys: seq<nat>, i: nat)
    requires i < |keys|
    ensures Rounds(f, h, keys[..i + 1]) == FeistelRound(f, Rounds(f, h, keys[..i]), keys[i])
  {
    assert keys[..i + 1][..i] == keys[..i];
  }

  /** The halves on which the rounds end, joined with the right one on top. */
  method FeistelLoop(ip: nat, roundKeys: KeySchedule, decrypt: bool, f: RoundFunction) returns (out: nat)
    requires Yields(f, 32) && ip < Pow2(64)
    ensures out == Join(Swap(Rounds(f, Split(ip, 32), if decrypt then Backward(roundKeys) else roundKeys)), 32)
  {
    hide Shl, Shr, Low, Or, Xor, Pow2, Rounds, Fit, Join, Yields;
    var left, right := Shr(ip, 32), Low(ip, 32);
    ghost var keys := if decrypt then Backward(roundKeys) else roundKeys;
    ghost var start := Split(ip, 32);
    NoRounds(f, start);
    for round := 0 to 16
      invariant Halves(left, right) == Rounds(f, start, keys[..round])
    {
      var key := roundKeys[if decrypt then 15 - round else round];
      OneMoreRound(f, start, keys, round);
      var next := Xor(left, f(right, key));
      left := right;
      right := next;
    }
    assert keys[..16] == keys;
    JoinSplit(ip, 32);
    RoundsFit(f, start, keys, 32);
    SwapFits(Halves(left, right), 32);
    JoinByShift(Halves(right, left), 32);
    out := Or(Shl(right, 32, 64), left);
  }

  lemma NoRounds(f: RoundFunction, h: Halves)
    ensures Rounds(f, h, []) == h
  {
  }

  method DesCryptBlock(block: DesBlock, roundKeys: KeySchedule, decrypt: bool, f: RoundFunction) returns (out: DesBlock)
    requires Yields(f, 32)
    ensures out == DesCrypt(block, roundKeys, decrypt, f)
  {
    TablesUndo();
    hide Permute, Backward, BeVal, BeBytes, Rounds, Join, Split, Pow2, Yields;
    var ip := DesPermute(BeVal(block), 64, IP);
    var joined := FeistelLoop(ip, roundKeys, decrypt, f);
    var fp := DesPermute(joined, 64, FP);
    out := BeBytes(fp, 8);
  }

  // ----- the rounds, one by one -----

  /** Every eighth bit, counted down from one. */
  function EveryEighth(first: nat): (row: seq<nat>)
    requires first > 56
    ensures |row| == 8
  {
    seq(8, j requires 0 <= j < 8 => first - 8 * j)
  }

  lemma EighthIs(first: nat)
    requires first > 56
    ensures EveryEighth(first) ==
            [first, first - 8, first - 16, first - 24, first - 32, first - 40, first - 48, first - 56]
  {
  }

  /** The initial permutation gathers the bits of equal place in each byte: the even places first, then the odd ones. */
  lemma InitialPermutation()
    ensures IP == EveryEighth(58) + EveryEighth(60) + EveryEighth(62) + EveryEighth(64) +
                  EveryEighth(57) + EveryEighth(59) + EveryEighth(61) + EveryEighth(63)
  {
    EighthIs(58);
    EighthIs(60);
    EighthIs(62);
    EighthIs(64);
    EighthIs(57);
    EighthIs(59);
    EighthIs(61);
    EighthIs(63);
    hide EveryEighth;
  }

  /** One round with a key. */
  ghost predicate RoundStep(f: RoundFunction, k: nat, h: Halves, g: Halves) {
    g.left == h.right && g.right == Xor(h.left, f(h.right, k))
  }

  /** Sixteen rounds, with the keys in order or for decryption in the opposite order, between the permutations. */
  lemma BlockRun(block: DesBlock, keys: KeySchedule, decrypt: bool, f: RoundFunction) returns (hs: seq<Halves>)
    requires Yields(f, 32)
    ensures |IP| == |FP| == 64 && Selects(IP, 64) && Selects(FP, 64)
    ensures |hs| == 17 && Join(hs[0], 32) == Permute(BeVal(block), 64, IP)
    ensures forall i: nat :: i < 16 ==> RoundStep(f, keys[if decrypt then 15 - i else i], hs[i], hs[i + 1])
    ensures DesCrypt(block, keys, decrypt, f) ==
            BeBytes(Permute(Join(Halves(hs[16].right, hs[16].left), 32), 64, FP), 8)
  {
    TablesUndo();
    hide Permute, BeVal, BeBytes, Pow2, Xor, Split, Join;
    var ks: seq<nat> := if decrypt then Backward(keys) else keys;
    var ip := Permute(BeVal(block), 64, IP);
    var start := Split(ip, 32);
    JoinSplit(ip, 32);
    hs := seq(17, i requires 0 <= i < 17 => Rounds(f, start, ks[..i]));
    forall i: nat | i < 16
      ensures RoundStep(f, keys[if decrypt then 15 - i else i], hs[i], hs[i + 1])
    {
      OneMoreRound(f, start, ks, i);
    }
    assert ks[..16] == ks;
  }

  // ----- Triple-DES (section 3.1 of NIST SP 800-67) -----

  /** Encrypt, decrypt, encrypt with three key schedules. */
  function TripleDesEncrypt(p: DesBlock, k1: KeySchedule, k2: KeySchedule, k3: KeySchedule,
                            f: RoundFunction): DesBlock
  {
    DesCrypt(DesCrypt(DesCrypt(p, k1, false, f), k2, true, f), k3, false, f)
  }

  /** Decrypt, encrypt, decrypt with the schedules in the opposite order. */
  function TripleDesDecrypt(c: DesBlock, k1: KeySchedule, k2: KeySchedule, k3: KeySchedule,
                            f: RoundFunction): DesBlock
  {
    DesCrypt(DesCrypt(DesCrypt(c, k3, true, f), k2, false, f), k1, true, f)
  }

  lemma TripleDesUndone(p: DesBlock, k1: KeySchedule, k2: KeySchedule, k3: KeySchedule, f: RoundFunction)
    requires Yields(f, 32)
    ensures TripleDesDecrypt(TripleDesEncrypt(p, k1, k2, k3, f), k1, k2, k3, f) == p
  {
    hide DesCrypt, Yields;
    var c1 := DesCrypt(p, k1, false, f);
    DesDecryptUndoesEncrypt(p, k1, f);
    DesDecryptUndoesEncrypt(c1, k2, f);
    DesDecryptUndoesEncrypt(DesCrypt(c1, k2, true, f), k3, f);
  }

  /** The composition that the source passes to the block mode. */
  method TripleDesBlock(block: DesBlock, k1: KeySchedule, k2: KeySchedule, k3: KeySchedule, f: RoundFunction)
    returns (out: DesBlock)
    requires Yields(f, 32)
    ensures out == TripleDesDecrypt(block, k1, k2, k3, f)
    ensures out == DesCrypt(DesCrypt(DesCrypt(block, k3, true, f), k2, false, f), k1, true, f)
  {
    hide DesCrypt, Yields;
    var b3 := DesCryptBlock(block, k3, true, f);
    var b2 := DesCryptBlock(b3, k2, false, f);
    out := DesCryptBlock(b2, k1, true, f);
  }
}
