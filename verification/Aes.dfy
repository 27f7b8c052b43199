/** AES-128 (FIPS 197): key schedule, rounds and blocks, in both directions. */
module Aes {
  import opened Counter
  import opened Gf
  import opened MixMatrix

  type Block = s: seq<bv8> | |s| == 16 witness seq(16, _ => 0)

  const ZERO_BLOCK: Block := [0, 0, 0, 0, 0, 0, 0, 0, 0, 0, 0, 0, 0, 0, 0, 0]

  /** A substitution table; the source's is the one of section 5.1.1 of FIPS 197. */
  type Sbox = s: seq<bv8> | |s| == 256 witness seq(256, _ => 0)

  ghost predicate IsPermutation(sbox: Sbox) {
    forall i, j :: 0 <= i < j < 256 ==> sbox[i] != sbox[j]
  }

  // ----- the four steps, on values -----

  function AddRoundKey(s: Block, k: Block): Block {
    seq(16, i requires 0 <= i < 16 => s[i] ^ k[i])
  }

  function Lookup(table: Sbox, x: bv8): bv8 {
    table[x as int]
  }

  function SubBytes(s: Block, sbox: Sbox): Block {
    seq(16, i requires 0 <= i < 16 => Lookup(sbox, s[i]))
  }

  function ShiftRows(s: Block): Block {
    [s[0], s[5], s[10], s[15], s[4], s[9], s[14], s[3], s[8], s[13], s[2], s[7], s[12], s[1], s[6], s[11]]
  }

  function InvShiftRows(s: Block): Block {
    [s[0], s[13], s[10], s[7], s[4], s[1], s[14], s[11], s[8], s[5], s[2], s[15], s[12], s[9], s[6], s[3]]
  }

  /** The state as section 3.4 of FIPS 197 arranges it: byte r + 4c is in row r and column c. */
  function At(s: Block, r: nat, c: nat): bv8
    requires r < 4 && c < 4
  {
    s[r + 4 * c]
  }

  /** Row r is rotated left by r (section 5.1.2 of FIPS 197), and back. */
  lemma ShiftRowsRotates(s: Block, r: nat, c: nat)
    requires r < 4 && c < 4
    ensures At(ShiftRows(s), r, c) == At(s, r, (c + r) % 4)
    ensures At(InvShiftRows(s), r, (c + r) % 4) == At(s, r, c)
  {
    if r == 0 { assert (c + r) % 4 == c; }
    if c == 0 {
    } else if c == 1 {
    } else if c == 2 {
    }
  }

  function Column(s: Block, c: nat): Quad
    requires c < 4
  {
    Quad(s[4 * c], s[4 * c + 1], s[4 * c + 2], s[4 * c + 3])
  }

  function Bytes(q: Quad): (b: seq<bv8>)
    ensures |b| == 4
  {
    [q.a, q.b, q.c, q.d]
  }

  /** A matrix applied to every column. */
  function ApplyColumns(m: Matrix, s: Block): Block {
    Bytes(Apply(m, Column(s, 0))) + Bytes(Apply(m, Column(s, 1))) +
    Bytes(Apply(m, Column(s, 2))) + Bytes(Apply(m, Column(s, 3)))
  }

  // ----- each step has an inverse -----

  lemma XorTwice(a: bv8, b: bv8)
    ensures (a ^ b) ^ b == a
  {
  }

  lemma AddRoundKeyTwice(s: Block, k: Block)
    ensures AddRoundKey(AddRoundKey(s, k), k) == s
  {
    forall i | 0 <= i < 16
      ensures AddRoundKey(AddRoundKey(s, k), k)[i] == s[i]
    {
      XorTwice(s[i], k[i]);
    }
  }

  ghost predicate Inverts(inv: Sbox, sbox: Sbox) {
    forall x: bv8 :: Lookup(inv, Lookup(sbox, x)) == x
  }

  lemma InvSubBytes(s: Block, sbox: Sbox, inv: Sbox)
    requires Inverts(inv, sbox)
    ensures SubBytes(SubBytes(s, sbox), inv) == s
  {
  }

  lemma InvShiftRowsInverse(s: Block)
    ensures InvShiftRows(ShiftRows(s)) == s
  {
  }

  lemma ColumnOf(m: Matrix, s: Block, c: nat)
    requires c < 4
    ensures Column(ApplyColumns(m, s), c) == Apply(m, Column(s, c))
  {
    hide Apply;
    var bytes := ApplyColumns(m, s);
    if c == 0 {
      assert bytes[0..4] == Bytes(Apply(m, Column(s, 0)));
    } else if c == 1 {
      assert bytes[4..8] == Bytes(Apply(m, Column(s, 1)));
    } else if c == 2 {
      assert bytes[8..12] == Bytes(Apply(m, Column(s, 2)));
    } else {
      assert bytes[12..16] == Bytes(Apply(m, Column(s, 3)));
    }
  }

  lemma InvMixColumns(s: Block)
    ensures ApplyColumns(INV_MIX, ApplyColumns(MIX, s)) == s
  {
    hide Apply;
    var t := ApplyColumns(MIX, s);
    ColumnOf(MIX, s, 0);
    ColumnOf(MIX, s, 1);
    ColumnOf(MIX, s, 2);
    ColumnOf(MIX, s, 3);
    MixInverse(Column(s, 0));
    MixInverse(Column(s, 1));
    MixInverse(Column(s, 2));
    MixInverse(Column(s, 3));
  }

  // ----- rounds and blocks -----

  type RoundKeys = k: seq<Block> | |k| == 11 witness seq(11, _ => ZERO_BLOCK)

  function Round(s: Block, k: Block, sbox: Sbox): Block {
    AddRoundKey(ApplyColumns(MIX, ShiftRows(SubBytes(s, sbox))), k)
  }

  function InvRound(t: Block, k: Block, inv: Sbox): Block {
    ApplyColumns(INV_MIX, AddRoundKey(SubBytes(InvShiftRows(t), inv), k))
  }

  /** The state after the initial key and `n` full rounds. */
  function Rounds(p: Block, keys: RoundKeys, sbox: Sbox, n: nat): Block
    requires n < 10
  {
    if n == 0 then AddRoundKey(p, keys[0]) else Round(Rounds(p, keys, sbox, n - 1), keys[n], sbox)
  }

  function EncryptBlock(p: Block, keys: RoundKeys, sbox: Sbox): Block {
    AddRoundKey(ShiftRows(SubBytes(Rounds(p, keys, sbox, 9), sbox)), keys[10])
  }

  // ----- the cipher, byte by byte -----

  /** Rows and columns are counted modulo four. */
  function Turn(r: nat, k: nat): (t: nat)
    requires r < 4 && k < 4
    ensures t < 4
  {
    if r + k < 4 then r + k else r + k - 4
  }

  /** Byte `r` of column `c` before MixColumns: substituted, from the column that ShiftRows takes it from. */
  function Moved(s: Block, sbox: Sbox, r: nat, c: nat): bv8
    requires r < 4 && c < 4
  {
    sbox[s[r + 4 * Turn(c, r)] as int]
  }

  /** Byte `r` of column `c` after a full round. */
  ghost predicate RoundByte(s: Block, t: Block, k: Block, sbox: Sbox, r: nat, c: nat)
    requires r < 4 && c < 4
  {
    t[r + 4 * c] ==
    Add(Add(Add(Times(Moved(s, sbox, r, c), 2), Times(Moved(s, sbox, Turn(r, 1), c), 3)),
            Add(Moved(s, sbox, Turn(r, 2), c), Moved(s, sbox, Turn(r, 3), c))),
        k[r + 4 * c])
  }

  ghost predicate RoundBytes(s: Block, t: Block, k: Block, sbox: Sbox) {
    forall r: nat, c: nat :: r < 4 && c < 4 ==> RoundByte(s, t, k, sbox, r, c)
  }

  /** The states of an encryption, and its result, byte by byte. */
  ghost predicate CipherRun(states: seq<Block>, p: Block, keys: RoundKeys, sbox: Sbox, e: Block) {
    && |states| == 10
    && (forall i :: 0 <= i < 16 ==> states[0][i] == Add(p[i], keys[0][i]))
    && (forall n: nat :: 0 < n < 10 ==> RoundBytes(states[n - 1], states[n], keys[n], sbox))
    && (forall r: nat, c: nat :: r < 4 && c < 4 ==> LastByte(states[9], e, keys[10], sbox, r, c))
  }

  /** The last round has no MixColumns. */
  ghost predicate LastByte(s: Block, e: Block, k: Block, sbox: Sbox, r: nat, c: nat)
    requires r < 4 && c < 4
  {
    e[r + 4 * c] == Add(Moved(s, sbox, r, c), k[r + 4 * c])
  }

  lemma MovedIs(s: Block, sbox: Sbox, r: nat, c: nat)
    requires r < 4 && c < 4
    ensures ShiftRows(SubBytes(s, sbox))[r + 4 * c] == Moved(s, sbox, r, c)
  {
    hide *;
    ShiftedByte(SubBytes(s, sbox), r, c);
    SubstitutedByte(s, sbox, r, c);
  }

  lemma ShiftedByte(s: Block, r: nat, c: nat)
    requires r < 4 && c < 4
    ensures ShiftRows(s)[r + 4 * c] == s[r + 4 * Turn(c, r)]
  {
    if r == 0 {
    } else if r == 1 {
    } else if r == 2 {
    }
  }

  lemma SubstitutedByte(s: Block, sbox: Sbox, r: nat, c: nat)
    requires r < 4 && c < 4
    ensures SubBytes(s, sbox)[r + 4 * Turn(c, r)] == Moved(s, sbox, r, c)
  {
  }

  lemma MixedByte(s: Block, r: nat, c: nat)
    requires r < 4 && c < 4
    ensures ApplyColumns(MIX, s)[r + 4 * c] ==
            Add(Add(Times(s[r + 4 * c], 2), Times(s[Turn(r, 1) + 4 * c], 3)),
                Add(s[Turn(r, 2) + 4 * c], s[Turn(r, 3) + 4 * c]))
  {
    hide *;
    ColumnOf(MIX, s, c);
    var r1, r2, r3 := Turn(r, 1), Turn(r, 2), Turn(r, 3);
    MixRow(Column(s, c), r);
    ColumnByte(s, c, r);
    ColumnByte(s, c, r1);
    ColumnByte(s, c, r2);
    ColumnByte(s, c, r3);
    ColumnByte(ApplyColumns(MIX, s), c, r);
  }

  lemma ColumnByte(s: Block, c: nat, r: nat)
    requires r < 4 && c < 4
    ensures Bytes(Column(s, c))[r] == s[r + 4 * c]
  {
  }

  lemma AddRotates(p: bv8, q: bv8, r: bv8, s: bv8)
    ensures Add(Add(p, q), Add(r, s)) == Add(Add(q, r), Add(s, p))
  {
    hide *;
    AddAssociates(p, q, Add(r, s));
    AddAssociates(q, r, s);
    AddCommutes(p, Add(Add(q, r), s));
    AddAssociates(Add(q, r), s, p);
  }

  lemma MixRows(q: Quad)
    ensures Apply(MIX, q) == Quad(
              Add(Add(Times(q.a, 2), Times(q.b, 3)), Add(q.c, q.d)),
              Add(Add(Times(q.b, 2), Times(q.c, 3)), Add(q.d, q.a)),
              Add(Add(Times(q.c, 2), Times(q.d, 3)), Add(q.a, q.b)),
              Add(Add(Times(q.d, 2), Times(q.a, 3)), Add(q.b, q.c)))
  {
    SmallMultiples(q.a);
    SmallMultiples(q.b);
    SmallMultiples(q.c);
    SmallMultiples(q.d);
    hide Times, Xtime, Add;
    AddRotates(q.a, Times(q.b, 2), Times(q.c, 3), q.d);
    AddRotates(q.a, q.b, Times(q.c, 2), Times(q.d, 3));
    AddRotates(q.b, Times(q.c, 2), Times(q.d, 3), q.a);
    AddRotates(Times(q.a, 3), q.b, q.c, Times(q.d, 2));
    AddRotates(Times(q.d, 2), Times(q.a, 3), q.b, q.c);
  }

  /** Row `r` of MixColumns on one column. */
  lemma MixRow(q: Quad, r: nat)
    requires r < 4
    ensures Bytes(Apply(MIX, q))[r] ==
            Add(Add(Times(Bytes(q)[r], 2), Times(Bytes(q)[Turn(r, 1)], 3)),
                Add(Bytes(q)[Turn(r, 2)], Bytes(q)[Turn(r, 3)]))
  {
    hide *;
    Turns();
    MixRows(q);
    ByteOfQuad(Apply(MIX, q), r);
    ByteOfQuad(q, r);
    ByteOfQuad(q, Turn(r, 1));
    ByteOfQuad(q, Turn(r, 2));
    ByteOfQuad(q, Turn(r, 3));
  }

  lemma ByteOfQuad(q: Quad, r: nat)
    requires r < 4
    ensures Bytes(q)[r] == if r == 0 then q.a else if r == 1 then q.b else if r == 2 then q.c else q.d
  {
  }

  lemma Turns()
    ensures Turn(0, 1) == 1 && Turn(0, 2) == 2 && Turn(0, 3) == 3
    ensures Turn(1, 1) == 2 && Turn(1, 2) == 3 && Turn(1, 3) == 0
    ensures Turn(2, 1) == 3 && Turn(2, 2) == 0 && Turn(2, 3) == 1
    ensures Turn(3, 1) == 0 && Turn(3, 2) == 1 && Turn(3, 3) == 2
  {
  }

  lemma AddedByte(s: Block, k: Block, i: nat)
    requires i < 16
    ensures AddRoundKey(s, k)[i] == Add(s[i], k[i])
  {
  }

  lemma RoundIs(s: Block, k: Block, sbox: Sbox)
    ensures Round(s, k, sbox) == AddRoundKey(ApplyColumns(MIX, ShiftRows(SubBytes(s, sbox))), k)
  {
    hide SubBytes, ShiftRows, ApplyColumns, AddRoundKey;
  }

  lemma RoundByteHolds(s: Block, k: Block, sbox: Sbox, r: nat, c: nat)
    requires r < 4 && c < 4
    ensures RoundByte(s, Round(s, k, sbox), k, sbox, r, c)
  {
    hide *;
    RoundIs(s, k, sbox);
    var moved := ShiftRows(SubBytes(s, sbox));
    var r1, r2, r3 := Turn(r, 1), Turn(r, 2), Turn(r, 3);
    AddedByte(ApplyColumns(MIX, moved), k, r + 4 * c);
    MixedByte(moved, r, c);
    MovedIs(s, sbox, r, c);
    MovedIs(s, sbox, r1, c);
    MovedIs(s, sbox, r2, c);
    MovedIs(s, sbox, r3, c);
    RoundByteIs(s, Round(s, k, sbox), k, sbox, r, c);
  }

  lemma RoundByteIs(s: Block, t: Block, k: Block, sbox: Sbox, r: nat, c: nat)
    requires r < 4 && c < 4
    requires t[r + 4 * c] ==
             Add(Add(Add(Times(Moved(s, sbox, r, c), 2), Times(Moved(s, sbox, Turn(r, 1), c), 3)),
                     Add(Moved(s, sbox, Turn(r, 2), c), Moved(s, sbox, Turn(r, 3), c))),
                 k[r + 4 * c])
    ensures RoundByte(s, t, k, sbox, r, c)
  {
    hide Moved, Add, Times;
  }

  lemma RoundBytesHold(s: Block, k: Block, sbox: Sbox)
    ensures RoundBytes(s, Round(s, k, sbox), k, sbox)
  {
    hide Round, RoundByte;
    forall r: nat, c: nat | r < 4 && c < 4
      ensures RoundByte(s, Round(s, k, sbox), k, sbox, r, c)
    {
      RoundByteHolds(s, k, sbox, r, c);
    }
  }

  lemma LastByteHolds(s: Block, k: Block, sbox: Sbox, r: nat, c: nat)
    requires r < 4 && c < 4
    ensures LastByte(s, AddRoundKey(ShiftRows(SubBytes(s, sbox)), k), k, sbox, r, c)
  {
    AddedByte(ShiftRows(SubBytes(s, sbox)), k, r + 4 * c);
    MovedIs(s, sbox, r, c);
    hide Moved, ShiftRows, SubBytes, AddRoundKey, Add;
  }

  /** Every encryption is such a run: ten states, each round over substituted, moved and mixed bytes. */
  lemma EncryptsBytes(p: Block, keys: RoundKeys, sbox: Sbox) returns (states: seq<Block>)
    ensures CipherRun(states, p, keys, sbox, EncryptBlock(p, keys, sbox))
  {
    hide Round, RoundBytes, LastByte, SubBytes, ShiftRows, AddRoundKey, Add;
    states := seq(10, n requires 0 <= n < 10 => Rounds(p, keys, sbox, n));
    forall i | 0 <= i < 16
      ensures states[0][i] == Add(p[i], keys[0][i])
    {
      AddedByte(p, keys[0], i);
    }
    forall n: nat | 0 < n < 10
      ensures RoundBytes(states[n - 1], states[n], keys[n], sbox)
    {
      RoundBytesHold(states[n - 1], keys[n], sbox);
    }
    forall r: nat, c: nat | r < 4 && c < 4
      ensures LastByte(states[9], EncryptBlock(p, keys, sbox), keys[10], sbox, r, c)
    {
      LastByteHolds(states[9], keys[10], sbox, r, c);
    }
  }

  /** Applies a step with the round keys from `n` down to 1. */
  function Downward(step: (Block, Block) -> Block, t: Block, keys: RoundKeys, n: nat): Block
    requires n < 10
    decreases n
  {
    if n == 0 then t else Downward(step, step(t, keys[n]), keys, n - 1)
  }

  /** Undoes the rounds from `n` down to 1. */
  function InvRounds(t: Block, keys: RoundKeys, inv: Sbox, n: nat): Block
    requires n < 10
  {
    Downward((s, k) => InvRound(s, k, inv), t, keys, n)
  }

  function DecryptBlock(c: Block, keys: RoundKeys, inv: Sbox): Block {
    AddRoundKey(SubBytes(InvShiftRows(InvRounds(AddRoundKey(c, keys[10]), keys, inv, 9)), inv), keys[0])
  }

  lemma {:induction false} InvRoundsUndo(p: Block, keys: RoundKeys, sbox: Sbox, inv: Sbox, n: nat)
    requires n < 10 && Inverts(inv, sbox)
    ensures InvRounds(ShiftRows(SubBytes(Rounds(p, keys, sbox, n), sbox)), keys, inv, n) ==
            ShiftRows(SubBytes(Rounds(p, keys, sbox, 0), sbox))
  {
    hide ShiftRows, SubBytes, AddRoundKey, ApplyColumns, InvShiftRows, Inverts;
    if n > 0 {
      var s := Rounds(p, keys, sbox, n);
      var before := ShiftRows(SubBytes(Rounds(p, keys, sbox, n - 1), sbox));
      InvShiftRowsInverse(SubBytes(s, sbox));
      InvSubBytes(s, sbox, inv);
      AddRoundKeyTwice(ApplyColumns(MIX, before), keys[n]);
      InvMixColumns(before);
      InvRoundsUndo(p, keys, sbox, inv, n - 1);
    }
  }

  /** Decryption undoes encryption: any block, any round keys, any substitution and its inverse. */
  lemma DecryptUndoesEncrypt(p: Block, keys: RoundKeys, sbox: Sbox, inv: Sbox)
    requires Inverts(inv, sbox)
    ensures DecryptBlock(EncryptBlock(p, keys, sbox), keys, inv) == p
  {
    hide ShiftRows, SubBytes, AddRoundKey, InvShiftRows, Inverts, InvRounds, ApplyColumns;
    var s := Rounds(p, keys, sbox, 9);
    AddRoundKeyTwice(ShiftRows(SubBytes(s, sbox)), keys[10]);
    InvRoundsUndo(p, keys, sbox, inv, 9);
    var s0 := Rounds(p, keys, sbox, 0);
    InvShiftRowsInverse(SubBytes(s0, sbox));
    InvSubBytes(s0, sbox, inv);
    AddRoundKeyTwice(p, keys[0]);
  }

  // ----- the steps of the source, in place -----

  method AesAddRoundKey(state: array<bv8>, rk: Block)
    requires state.Length == 16
    modifies state
    ensures state[..] == AddRoundKey(old(state[..]), rk)
  {
    for i := 0 to 16
      invariant forall k :: 0 <= k < i ==> state[k] == old(state[k]) ^ rk[k]
      invariant forall k :: i <= k < 16 ==> state[k] == old(state[k])
    {
      state[i] := state[i] ^ rk[i];
    }
  }

  /** The same loop substitutes with the table or with its inverse. */
  method AesSubBytes(state: array<bv8>, sbox: Sbox)
    requires state.Length == 16
    modifies state
    ensures state[..] == SubBytes(old(state[..]), sbox)
  {
    for i := 0 to 16
      invariant forall k :: 0 <= k < i ==> state[k] == Lookup(sbox, old(state[k]))
      invariant forall k :: i <= k < 16 ==> state[k] == old(state[k])
    {
      state[i] := Lookup(sbox, state[i]);
    }
  }

  /** The places of 0, 1, ... `n` - 1 in the table, later ones overwriting earlier ones. */
  function Places(sbox: Sbox, n: nat): Sbox
    requires n <= 256
  {
    if n == 0 then seq(256, _ => 0) else Places(sbox, n - 1)[sbox[n - 1] as int := ToByte(n - 1)]
  }

  function InverseOf(sbox: Sbox): Sbox {
    Places(sbox, 256)
  }

  lemma {:induction false} PlacesFound(sbox: Sbox, n: nat)
    requires IsPermutation(sbox) && n <= 256
    ensures forall k: nat :: k < n ==> Lookup(Places(sbox, n), sbox[k]) == ToByte(k)
  {
    hide ToByte, IsPermutation;
    if n > 0 {
      PlacesFound(sbox, n - 1);
      DistinctPlaces(sbox, n - 1);
    }
  }

  /** The inverse table undoes every substitution by a permutation. */
  lemma InverseInverts(sbox: Sbox)
    requires IsPermutation(sbox)
    ensures Inverts(InverseOf(sbox), sbox)
  {
    hide ToByte, Places;
    PlacesFound(sbox, 256);
    forall x: bv8
      ensures Lookup(InverseOf(sbox), Lookup(sbox, x)) == x
    {
      ByteBack(x);
      var k: nat := x as int;
      assert Lookup(sbox, x) == sbox[k];
    }
  }

  method AesInvSbox(sbox: Sbox) returns (inv: Sbox)
    ensures inv == InverseOf(sbox)
  {
    var table := new bv8[256](_ => 0);
    for i := 0 to 256
      invariant table[..] == Places(sbox, i)
    {
      table[sbox[i] as int] := ToByte(i);
    }
    inv := table[..];
  }

  lemma SameInt(x: bv8, y: bv8)
    ensures x as int == y as int ==> x == y
  {
    ByteBack(x);
    ByteBack(y);
  }

  lemma DistinctPlaces(sbox: Sbox, i: nat)
    requires IsPermutation(sbox) && i < 256
    ensures forall k :: 0 <= k < i ==> sbox[k] as int != sbox[i] as int
  {
    forall k | 0 <= k < i
      ensures sbox[k] as int != sbox[i] as int
    {
      SameInt(sbox[k], sbox[i]);
    }
  }

  function WithRow(s: Block, r: nat, x0: bv8, x1: bv8, x2: bv8, x3: bv8): Block
    requires r < 4
  {
    s[r := x0][r + 4 := x1][r + 8 := x2][r + 12 := x3]
  }

  method SetRow(state: array<bv8>, r: nat, x0: bv8, x1: bv8, x2: bv8, x3: bv8)
    requires state.Length == 16 && r < 4
    modifies state
    ensures state[..] == WithRow(old(state[..]), r, x0, x1, x2, x3)
  {
    state[r] := x0;
    state[r + 4] := x1;
    state[r + 8] := x2;
    state[r + 12] := x3;
  }

  lemma ShiftRowsRow1(t: Block)
    ensures WithRow(t,
                    1, t[5], t[9], t[13], t[1]) ==
            [t[0], t[5], t[2], t[3], t[4], t[9], t[6], t[7], t[8], t[13], t[10], t[11], t[12], t[1], t[14], t[15]]
  {
  }

  lemma ShiftRowsRow2(t: Block)
    ensures WithRow([t[0], t[5], t[2], t[3], t[4], t[9], t[6], t[7],
                     t[8], t[13], t[10], t[11], t[12], t[1], t[14], t[15]],
                    2, t[10], t[14], t[2], t[6]) ==
            [t[0], t[5], t[10], t[3], t[4], t[9], t[14], t[7], t[8], t[13], t[2], t[11], t[12], t[1], t[6], t[15]]
  {
  }

  lemma ShiftRowsRow3(t: Block)
    ensures WithRow([t[0], t[5], t[10], t[3], t[4], t[9], t[14], t[7],
                     t[8], t[13], t[2], t[11], t[12], t[1], t[6], t[15]],
                    3, t[15], t[3], t[7], t[11]) ==
            ShiftRows(t)
  {
  }

  lemma InvShiftRowsRow1(t: Block)
    ensures WithRow(t,
                    1, t[13], t[1], t[5], t[9]) ==
            [t[0], t[13], t[2], t[3], t[4], t[1], t[6], t[7], t[8], t[5], t[10], t[11], t[12], t[9], t[14], t[15]]
  {
  }

  lemma InvShiftRowsRow2(t: Block)
    ensures WithRow([t[0], t[13], t[2], t[3], t[4], t[1], t[6], t[7],
                     t[8], t[5], t[10], t[11], t[12], t[9], t[14], t[15]],
                    2, t[10], t[14], t[2], t[6]) ==
            [t[0], t[13], t[10], t[3], t[4], t[1], t[14], t[7], t[8], t[5], t[2], t[11], t[12], t[9], t[6], t[15]]
  {
  }

  lemma InvShiftRowsRow3(t: Block)
    ensures WithRow([t[0], t[13], t[10], t[3], t[4], t[1], t[14], t[7],
                     t[8], t[5], t[2], t[11], t[12], t[9], t[6], t[15]],
                    3, t[7], t[11], t[15], t[3]) ==
            InvShiftRows(t)
  {
  }

  method AesShiftRows(state: array<bv8>)
    requires state.Length == 16
    modifies state
    ensures state[..] == ShiftRows(old(state[..]))
  {
    hide ShiftRows, WithRow;
    var t := state[..];
    SetRow(state, 1, t[5], t[9], t[13], t[1]);
    SetRow(state, 2, t[10], t[14], t[2], t[6]);
    SetRow(state, 3, t[15], t[3], t[7], t[11]);
    ShiftRowsRow1(t);
    ShiftRowsRow2(t);
    ShiftRowsRow3(t);
  }

  method AesInvShiftRows(state: array<bv8>)
    requires state.Length == 16
    modifies state
    ensures state[..] == InvShiftRows(old(state[..]))
  {
    hide InvShiftRows, WithRow;
    var t := state[..];
    SetRow(state, 1, t[13], t[1], t[5], t[9]);
    SetRow(state, 2, t[10], t[14], t[2], t[6]);
    SetRow(state, 3, t[7], t[11], t[15], t[3]);
    InvShiftRowsRow1(t);
    InvShiftRowsRow2(t);
    InvShiftRowsRow3(t);
  }

  lemma ChainIsSum(p: bv8, q: bv8, r: bv8, s: bv8)
    ensures p ^ q ^ r ^ s == Sum4(Quad(p, q, r, s))
  {
    hide Add;
    var pq := p ^ q;
    AddIsXor(p, q);
    ThreeTerms(pq, r, s);
    AddIsXor(r, s);
  }

  lemma ThreeTerms(x: bv8, r: bv8, s: bv8)
    ensures x ^ r ^ s == Add(x, Add(r, s))
  {
  }

  lemma AddIsXor(p: bv8, q: bv8)
    ensures Add(p, q) == p ^ q
  {
  }

  /** One column times the matrix of MixColumns. */
  method MixColumn(q: Quad) returns (r: Quad)
    ensures r == Apply(MIX, q)
  {
    hide Times, Sum4;
    SmallMultiples(q.a);
    SmallMultiples(q.b);
    SmallMultiples(q.c);
    SmallMultiples(q.d);
    var a2 := Mul(q.a, 2);
    var a3 := Mul(q.a, 3);
    var b2 := Mul(q.b, 2);
    var b3 := Mul(q.b, 3);
    var c2 := Mul(q.c, 2);
    var c3 := Mul(q.c, 3);
    var d2 := Mul(q.d, 2);
    var d3 := Mul(q.d, 3);
    ChainIsSum(a2, b3, q.c, q.d);
    ChainIsSum(q.a, b2, c3, q.d);
    ChainIsSum(q.a, q.b, c2, d3);
    ChainIsSum(a3, q.b, q.c, d2);
    r := Quad(a2 ^ b3 ^ q.c ^ q.d, q.a ^ b2 ^ c3 ^ q.d, q.a ^ q.b ^ c2 ^ d3, a3 ^ q.b ^ q.c ^ d2);
  }

  /** One row of the inverse matrix times a column. */
  method InvMixByte(q: Quad, n: Quad) returns (r: bv8)
    ensures r == Dot(q, n)
  {
    hide Times, Sum4;
    var a := Mul(q.a, n.a);
    var b := Mul(q.b, n.b);
    var c := Mul(q.c, n.c);
    var d := Mul(q.d, n.d);
    ChainIsSum(a, b, c, d);
    r := a ^ b ^ c ^ d;
  }

  method InvMixColumn(q: Quad) returns (r: Quad)
    ensures r == Apply(INV_MIX, q)
  {
    hide Dot;
    var a := InvMixByte(q, Quad(0x0e, 0x0b, 0x0d, 0x09));
    var b := InvMixByte(q, Quad(0x09, 0x0e, 0x0b, 0x0d));
    var c := InvMixByte(q, Quad(0x0d, 0x09, 0x0e, 0x0b));
    var d := InvMixByte(q, Quad(0x0b, 0x0d, 0x09, 0x0e));
    r := Quad(a, b, c, d);
  }

  /** The first `n` columns transformed, the others not yet. */
  function Partly(m: Matrix, s: Block, n: nat): Block
    requires n <= 4
  {
    seq(16, i requires 0 <= i < 16 => if i < 4 * n then ApplyColumns(m, s)[i] else s[i])
  }

  lemma NextColumn(m: Matrix, s: Block, n: nat)
    requires n < 4
    ensures Column(Partly(m, s, n), n) == Column(s, n)
    ensures Partly(m, s, n + 1) == WithColumn(Partly(m, s, n), n, Apply(m, Column(s, n)))
  {
    hide ApplyColumns;
    var q := Column(ApplyColumns(m, s), n);
    ColumnOf(m, s, n);
    hide Apply;
    forall i | 0 <= i < 16
      ensures Partly(m, s, n + 1)[i] == WithColumn(Partly(m, s, n), n, q)[i]
    {
      NextByte(m, s, n, i);
    }
  }

  lemma NextByte(m: Matrix, s: Block, n: nat, i: nat)
    requires n < 4 && i < 16
    ensures Partly(m, s, n + 1)[i] == WithColumn(Partly(m, s, n), n, Column(ApplyColumns(m, s), n))[i]
  {
    hide ApplyColumns;
    if i < 4 * n {
    } else if i < 4 * n + 4 {
      var k := i - 4 * n;
      if k == 0 {
      } else if k == 1 {
      } else if k == 2 {
      }
    }
  }

  function WithColumn(s: Block, c: nat, q: Quad): Block
    requires c < 4
  {
    s[4 * c := q.a][4 * c + 1 := q.b][4 * c + 2 := q.c][4 * c + 3 := q.d]
  }

  lemma AllColumns(m: Matrix, s: Block)
    ensures Partly(m, s, 0) == s && Partly(m, s, 4) == ApplyColumns(m, s)
  {
    hide ApplyColumns;
  }

  method SetColumn(state: array<bv8>, c: nat, q: Quad)
    requires state.Length == 16 && c < 4
    modifies state
    ensures state[..] == WithColumn(old(state[..]), c, q)
  {
    state[4 * c] := q.a;
    state[4 * c + 1] := q.b;
    state[4 * c + 2] := q.c;
    state[4 * c + 3] := q.d;
  }

  method AesMixColumns(state: array<bv8>)
    requires state.Length == 16
    modifies state
    ensures state[..] == ApplyColumns(MIX, old(state[..]))
  {
    hide Apply, ApplyColumns, Partly, WithColumn;
    ghost var s := state[..];
    AllColumns(MIX, s);
    for c := 0 to 4
      invariant state[..] == Partly(MIX, s, c)
    {
      NextColumn(MIX, s, c);
      var q := MixColumn(Quad(state[4 * c], state[4 * c + 1], state[4 * c + 2], state[4 * c + 3]));
      assert Column(state[..], c) == Quad(state[4 * c], state[4 * c + 1], state[4 * c + 2], state[4 * c + 3]);
      SetColumn(state, c, q);
    }
  }

  method AesInvMixColumns(state: array<bv8>)
    requires state.Length == 16
    modifies state
    ensures state[..] == ApplyColumns(INV_MIX, old(state[..]))
  {
    hide Apply, ApplyColumns, Partly, WithColumn;
    ghost var s := state[..];
    AllColumns(INV_MIX, s);
    for c := 0 to 4
      invariant state[..] == Partly(INV_MIX, s, c)
    {
      NextColumn(INV_MIX, s, c);
      var q := InvMixColumn(Quad(state[4 * c], state[4 * c + 1], state[4 * c + 2], state[4 * c + 3]));
      assert Column(state[..], c) == Quad(state[4 * c], state[4 * c + 1], state[4 * c + 2], state[4 * c + 3]);
      SetColumn(state, c, q);
    }
  }

  /** Decryption undoes encryption: any block, any round keys, any permutation of bytes. */
  lemma DecryptsEncrypted(p: Block, keys: RoundKeys, sbox: Sbox)
    requires IsPermutation(sbox)
    ensures DecryptBlock(EncryptBlock(p, keys, sbox), keys, InverseOf(sbox)) == p
  {
    hide DecryptBlock, EncryptBlock, InverseOf;
    InverseInverts(sbox);
    DecryptUndoesEncrypt(p, keys, sbox, InverseOf(sbox));
  }

  method NewState(block: Block) returns (state: array<bv8>)
    ensures fresh(state) && state.Length == 16 && state[..] == block
  {
    state := new bv8[16](i requires 0 <= i < 16 => block[i]);
  }

  method AesEncryptBlock128(block: Block, keys: RoundKeys, sbox: Sbox) returns (c: Block)
    ensures c == EncryptBlock(block, keys, sbox)
  {
    hide AddRoundKey, SubBytes, ShiftRows, ApplyColumns;
    var state := NewState(block);
    AesAddRoundKey(state, keys[0]);
    for round := 1 to 10
      invariant state[..] == Rounds(block, keys, sbox, round - 1)
    {
      AesSubBytes(state, sbox);
      AesShiftRows(state);
      AesMixColumns(state);
      AesAddRoundKey(state, keys[round]);
    }
    AesSubBytes(state, sbox);
    AesShiftRows(state);
    AesAddRoundKey(state, keys[10]);
    c := state[..];
  }

  method AesDecryptBlock128(block: Block, keys: RoundKeys, sbox: Sbox) returns (p: Block)
    ensures p == DecryptBlock(block, keys, InverseOf(sbox))
  {
    hide AddRoundKey, SubBytes, InvShiftRows, ApplyColumns, InverseOf;
    var inv := AesInvSbox(sbox);
    var state := NewState(block);
    AesAddRoundKey(state, keys[10]);
    ghost var goal := InvRounds(state[..], keys, inv, 9);
    var round := 9;
    while round > 0
      invariant 0 <= round <= 9
      invariant InvRounds(state[..], keys, inv, round) == goal
    {
      AesInvShiftRows(state);
      AesSubBytes(state, inv);
      AesAddRoundKey(state, keys[round]);
      AesInvMixColumns(state);
      round := round - 1;
    }
    AesInvShiftRows(state);
    AesSubBytes(state, inv);
    AesAddRoundKey(state, keys[0]);
    p := state[..];
  }

  // ----- the key schedule (section 5.2 of FIPS 197) -----

  const RCON: seq<bv8> := [0x01, 0x02, 0x04, 0x08, 0x10, 0x20, 0x40, 0x80, 0x1b, 0x36]

  type Word = w: seq<bv8> | |w| == 4 witness [0, 0, 0, 0]

  function XorWord(a: Word, b: Word): Word {
    [a[0] ^ b[0], a[1] ^ b[1], a[2] ^ b[2], a[3] ^ b[3]]
  }

  /** SubWord(RotWord(w)), with the round constant added. */
  function Scramble(w: Word, rcon: bv8, sbox: Sbox): Word {
    [Lookup(sbox, w[1]) ^ rcon, Lookup(sbox, w[2]), Lookup(sbox, w[3]), Lookup(sbox, w[0])]
  }

  /** The `i`-th word of the expanded key. */
  function KeyWord(key: Block, sbox: Sbox, i: nat): Word
    requires i < 44
  {
    if i < 4 then key[4 * i..4 * i + 4]
    else
      var temp := KeyWord(key, sbox, i - 1);
      assert |RCON| == 10;
      XorWord(KeyWord(key, sbox, i - 4), if i % 4 == 0 then Scramble(temp, RCON[i / 4 - 1], sbox) else temp)
  }

  function JoinWords(a: Word, b: Word, c: Word, d: Word): Block {
    a + b + c + d
  }

  /** Each round key is the next four words of the expanded key. */
  function ExpandKey(key: Block, sbox: Sbox): RoundKeys {
    seq(11, r requires 0 <= r < 11 => JoinWords(KeyWord(key, sbox, 4 * r), KeyWord(key, sbox, 4 * r + 1),
                                                KeyWord(key, sbox, 4 * r + 2), KeyWord(key, sbox, 4 * r + 3)))
  }

  function WordAt(w: seq<bv8>, i: nat): Word
    requires 4 * i + 4 <= |w|
  {
    w[4 * i..4 * i + 4]
  }

  function WithWord(w: seq<bv8>, i: nat, x: Word): (r: seq<bv8>)
    requires 4 * i + 4 <= |w|
    ensures |r| == |w|
  {
    w[..4 * i] + x + w[4 * i + 4..]
  }

  lemma WithWordAt(w: seq<bv8>, i: nat, x: Word, k: nat)
    requires 4 * i + 4 <= |w| && k <= i
    ensures WordAt(WithWord(w, i, x), k) == if k == i then x else WordAt(w, k)
  {
  }

  /** Writes at word `i` the exclusive or of the word four places earlier with `temp`. */
  method WriteWord(w: array<bv8>, i: nat, temp: Word)
    requires 4 <= i && 4 * i + 4 <= w.Length
    modifies w
    ensures w[..] == WithWord(old(w[..]), i, XorWord(old(WordAt(w[..], i - 4)), temp))
  {
    for j := 0 to 4
      invariant forall k :: 0 <= k < w.Length && !(4 * i <= k < 4 * i + j) ==> w[k] == old(w[k])
      invariant forall k :: 0 <= k < j ==> w[4 * i + k] == old(w[4 * i - 16 + k]) ^ temp[k]
    {
      w[4 * i + j] := w[4 * i + j - 16] ^ temp[j];
    }
  }

  lemma NextWord(key: Block, sbox: Sbox, i: nat)
    requires 4 <= i < 44
    ensures |RCON| == 10
    ensures var temp := KeyWord(key, sbox, i - 1);
            KeyWord(key, sbox, i) ==
            XorWord(KeyWord(key, sbox, i - 4), if i % 4 == 0 then Scramble(temp, RCON[i / 4 - 1], sbox) else temp)
  {
    hide Scramble, XorWord;
  }

  // ----- the key schedule, byte by byte -----

  /** 2^n in GF(2^8). */
  function PowerOfTwo(n: nat): bv8 {
    if n == 0 then 1 else Times(PowerOfTwo(n - 1), 2)
  }

  lemma NextPower(x: bv8)
    ensures Times(x, 2) == Xtime(x)
  {
    SmallMultiples(x);
  }

  lemma RconIsPower(n: nat)
    requires n < 10
    ensures |RCON| == 10 && RCON[n] == PowerOfTwo(n)
    decreases n
  {
    hide Times;
    if n > 0 {
      RconIsPower(n - 1);
      NextPower(PowerOfTwo(n - 1));
    }
  }

  /**
   * Byte `j` of word `c` of round key `r`: the byte one round earlier plus the byte one word earlier, which at the
   * start of a round is rotated by one, substituted, and in its first byte gets 2^(r-1) added.
   */
  ghost predicate KeyByte(rounds: RoundKeys, sbox: Sbox, r: nat, c: nat, j: nat)
    requires 1 <= r < 11 && c < 4 && j < 4
  {
    rounds[r][4 * c + j] == Add(rounds[r - 1][4 * c + j],
      if c > 0 then rounds[r][4 * c + j - 4]
      else if j == 0 then Add(sbox[rounds[r - 1][13] as int], PowerOfTwo(r - 1))
      else sbox[rounds[r - 1][12 + (j + 1) % 4] as int])
  }

  /** The first round key is the key, and the others follow byte by byte. */
  ghost predicate KeyBytes(rounds: RoundKeys, key: Block, sbox: Sbox) {
    rounds[0] == key &&
    forall r: nat, c: nat, j: nat :: 1 <= r < 11 && c < 4 && j < 4 ==> KeyByte(rounds, sbox, r, c, j)
  }

  lemma RoundKeyByte(key: Block, sbox: Sbox, r: nat, c: nat, j: nat)
    requires r < 11 && c < 4 && j < 4
    ensures ExpandKey(key, sbox)[r][4 * c + j] == KeyWord(key, sbox, 4 * r + c)[j]
  {
    hide KeyWord;
    JoinedAt(KeyWord(key, sbox, 4 * r), KeyWord(key, sbox, 4 * r + 1), KeyWord(key, sbox, 4 * r + 2),
             KeyWord(key, sbox, 4 * r + 3), c, j);
  }

  lemma JoinedAt(a: Word, b: Word, c: Word, d: Word, k: nat, j: nat)
    requires k < 4 && j < 4
    ensures JoinWords(a, b, c, d)[4 * k + j] ==
            (if k == 0 then a else if k == 1 then b else if k == 2 then c else d)[j]
  {
  }

  lemma KeyByteHolds(key: Block, sbox: Sbox, r: nat, c: nat, j: nat)
    requires 1 <= r < 11 && c < 4 && j < 4
    ensures KeyByte(ExpandKey(key, sbox), sbox, r, c, j)
  {
    hide *;
    WordByte(key, sbox, r, c, j);
    RoundKeyByte(key, sbox, r, c, j);
    RoundKeyByte(key, sbox, r - 1, c, j);
    if c > 0 {
      RoundKeyByte(key, sbox, r, c - 1, j);
    } else {
      RoundKeyByte(key, sbox, r - 1, 3, (j + 1) % 4);
    }
    KeyByteIs(ExpandKey(key, sbox), sbox, r, c, j);
  }

  /** Byte `j` of word `c` of round `r` of the expanded key. */
  lemma WordByte(key: Block, sbox: Sbox, r: nat, c: nat, j: nat)
    requires 1 <= r < 11 && c < 4 && j < 4
    ensures KeyWord(key, sbox, 4 * r + c)[j] == Add(KeyWord(key, sbox, 4 * (r - 1) + c)[j],
              if c > 0 then KeyWord(key, sbox, 4 * r + (c - 1))[j]
              else if j == 0 then Add(sbox[KeyWord(key, sbox, 4 * (r - 1) + 3)[1] as int], PowerOfTwo(r - 1))
              else sbox[KeyWord(key, sbox, 4 * (r - 1) + 3)[(j + 1) % 4] as int])
  {
    hide KeyWord, PowerOfTwo, XorWord, Scramble, Add;
    var i := 4 * r + c;
    assert i % 4 == c && i / 4 == r && i - 4 == 4 * (r - 1) + c;
    NextWord(key, sbox, i);
    var before, temp := KeyWord(key, sbox, i - 4), KeyWord(key, sbox, i - 1);
    if c == 0 {
      RconIsPower(r - 1);
      XorWordAt(before, Scramble(temp, RCON[r - 1], sbox), j);
      ScrambledByte(temp, RCON[r - 1], sbox, j);
    } else {
      XorWordAt(before, temp, j);
    }
  }

  lemma XorWordAt(a: Word, b: Word, j: nat)
    requires j < 4
    ensures XorWord(a, b)[j] == Add(a[j], b[j])
  {
    AddIsXor(a[0], b[0]);
    AddIsXor(a[1], b[1]);
    AddIsXor(a[2], b[2]);
    AddIsXor(a[3], b[3]);
    hide Add;
    if j == 0 {
    } else if j == 1 {
    } else if j == 2 {
    } else {
    }
  }

  lemma ScrambledByte(w: Word, rcon: bv8, sbox: Sbox, j: nat)
    requires j < 4
    ensures Scramble(w, rcon, sbox)[j] ==
            if j == 0 then Add(sbox[w[1] as int], rcon) else sbox[w[(j + 1) % 4] as int]
  {
  }

  lemma KeyByteIs(rounds: RoundKeys, sbox: Sbox, r: nat, c: nat, j: nat)
    requires 1 <= r < 11 && c < 4 && j < 4
    requires rounds[r][4 * c + j] == Add(rounds[r - 1][4 * c + j],
               if c > 0 then rounds[r][4 * (c - 1) + j]
               else if j == 0 then Add(sbox[rounds[r - 1][4 * 3 + 1] as int], PowerOfTwo(r - 1))
               else sbox[rounds[r - 1][4 * 3 + (j + 1) % 4] as int])
    ensures KeyByte(rounds, sbox, r, c, j)
  {
    hide PowerOfTwo, Add;
    assert 4 * (c - 1) + j == 4 * c + j - 4;
  }

  lemma FirstRoundKey(key: Block, sbox: Sbox)
    ensures ExpandKey(key, sbox)[0] == key
  {
    hide *;
    forall i | 0 <= i < 16
      ensures ExpandKey(key, sbox)[0][i] == key[i]
    {
      FirstByte(key, sbox, i / 4, i % 4, i);
    }
  }

  lemma FirstByte(key: Block, sbox: Sbox, c: nat, j: nat, i: nat)
    requires c < 4 && j < 4 && i == 4 * c + j
    ensures ExpandKey(key, sbox)[0][i] == key[i]
  {
    hide *;
    RoundKeyByte(key, sbox, 0, c, j);
    FirstWord(key, sbox, c, j);
  }

  lemma FirstWord(key: Block, sbox: Sbox, c: nat, j: nat)
    requires c < 4 && j < 4
    ensures KeyWord(key, sbox, c)[j] == key[4 * c + j]
  {
  }

  lemma ExpandedBytes(key: Block, sbox: Sbox)
    ensures KeyBytes(ExpandKey(key, sbox), key, sbox)
  {
    hide KeyByte;
    forall r: nat, c: nat, j: nat | 1 <= r < 11 && c < 4 && j < 4
      ensures KeyByte(ExpandKey(key, sbox), sbox, r, c, j)
    {
      KeyByteHolds(key, sbox, r, c, j);
    }
    FirstRoundKey(key, sbox);
  }

  method AesKeyExpand128(key: Block, sbox: Sbox) returns (rounds: RoundKeys)
    ensures rounds == ExpandKey(key, sbox)
    ensures KeyBytes(rounds, key, sbox)
  {
    ExpandedBytes(key, sbox);
    hide KeyBytes, KeyWord, JoinWords, CutRounds, WordAt, WithWord, XorWord, Scramble;
    var w := new bv8[176](i requires 0 <= i < 176 => if i < 16 then key[i] else 0);
    FirstWords(key, sbox, w[..]);
    var n, rconI := 4, 0;
    while n < 44
      invariant 4 <= n <= 44 && rconI == (n - 1) / 4
      invariant forall i: nat :: i < n ==> WordAt(w[..], i) == KeyWord(key, sbox, i)
    {
      NextWord(key, sbox, n);
      var temp := WordAt(w[..], n - 1);
      if n % 4 == 0 {
        temp := Scramble(temp, RCON[rconI], sbox);
        rconI := rconI + 1;
      }
      ghost var before := w[..];
      WriteWord(w, n, temp);
      forall k: nat | k <= n
        ensures WordAt(w[..], k) == if k == n then XorWord(WordAt(before, n - 4), temp) else WordAt(before, k)
      {
        WithWordAt(before, n, XorWord(WordAt(before, n - 4), temp), k);
      }
      assert WordAt(w[..], n) == KeyWord(key, sbox, n);
      n := n + 1;
    }
    rounds := CutRounds(w[..]);
    forall r | 0 <= r < 11
      ensures rounds[r] == ExpandKey(key, sbox)[r]
    {
      CutRoundIs(w[..], r);
    }
  }

  function CutRounds(w: seq<bv8>): RoundKeys
    requires |w| == 176
  {
    seq(11, r requires 0 <= r < 11 => w[16 * r..16 * r + 16])
  }

  lemma SliceOfSlice(w: seq<bv8>, from: nat, k: nat)
    requires from + 16 <= |w| && k <= 12
    ensures w[from..from + 16][k..k + 4] == w[from + k..from + k + 4]
  {
    var a, b := w[from..from + 16][k..k + 4], w[from + k..from + k + 4];
    assert a[0] == b[0] && a[1] == b[1] && a[2] == b[2] && a[3] == b[3];
    assert a == b;
  }

  lemma WordOfRound(w: seq<bv8>, r: nat, j: nat)
    requires 16 * r + 16 <= |w| && j < 4
    ensures w[16 * r..16 * r + 16][4 * j..4 * j + 4] == WordAt(w, 4 * r + j)
  {
    SliceOfSlice(w, 16 * r, 4 * j);
    assert 16 * r + 4 * j == 4 * (4 * r + j);
    var at := 4 * (4 * r + j);
    assert w[16 * r + 4 * j..16 * r + 4 * j + 4] == w[at..at + 4];
  }

  lemma CutRoundIs(w: seq<bv8>, r: nat)
    requires |w| == 176 && r < 11
    ensures CutRounds(w)[r] == JoinWords(WordAt(w, 4 * r), WordAt(w, 4 * r + 1), WordAt(w, 4 * r + 2),
                                         WordAt(w, 4 * r + 3))
  {
    var c := w[16 * r..16 * r + 16];
    WordOfRound(w, r, 0);
    WordOfRound(w, r, 1);
    WordOfRound(w, r, 2);
    WordOfRound(w, r, 3);
    hide WordAt;
    assert c == c[0..4] + c[4..8] + c[8..12] + c[12..16];
    assert CutRounds(w)[r] == c;
  }

  lemma FirstWords(key: Block, sbox: Sbox, w: seq<bv8>)
    requires |w| == 176 && w[..16] == key
    ensures forall i: nat :: i < 4 ==> WordAt(w, i) == KeyWord(key, sbox, i)
  {
    forall i: nat | i < 4
      ensures WordAt(w, i) == KeyWord(key, sbox, i)
    {
      assert WordAt(w, i) == w[..16][4 * i..4 * i + 4];
    }
  }
}
