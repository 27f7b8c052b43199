/** Blowfish blocks in both directions, for any subkey array and any substitution boxes. */
module Blowfish {

  type Subkeys = p: seq<bv32> | |p| == 18 witness seq(18, _ => 0)

  type Boxes = s: seq<seq<bv32>> | |s| == 4 && forall i :: 0 <= i < 4 ==> |s[i]| == 256
    witness seq(4, _ => seq(256, _ => 0))

  datatype Pair = Pair(left: bv32, right: bv32)

  /** Byte `i` of a word, 0 the least significant. */
  function ByteOf(x: bv32, i: nat): (b: nat)
    requires i < 4
    ensures b < 256
  {
    (if i == 3 then (x >> 24) & 0xff else if i == 2 then (x >> 16) & 0xff else if i == 1 then (x >> 8) & 0xff
     else x & 0xff) as int
  }

  function Mix(a: bv32, b: bv32): bv32 {
    a ^ b
  }

  /** Two words added, the third mixed in, the fourth added. */
  function Combined(a: bv32, b: bv32, c: bv32, d: bv32): bv32 {
    Mix(a + b, c) + d
  }

  /** The round function of the cipher. */
  function F(s: Boxes, x: bv32): bv32 {
    Combined(s[0][ByteOf(x, 3)], s[1][ByteOf(x, 2)], s[2][ByteOf(x, 1)], s[3][ByteOf(x, 0)])
  }

  /** One round: whiten the left half, mix it into the right one, swap. */
  function Round(s: Boxes, k: bv32, h: Pair): Pair {
    Pair(Mix(h.right, F(s, Mix(h.left, k))), Mix(h.left, k))
  }

  function Rounds(s: Boxes, keys: seq<bv32>, h: Pair): Pair {
    if keys == [] then h else Round(s, keys[|keys| - 1], Rounds(s, keys[..|keys| - 1], h))
  }

  /** Undoes the last swap and whitens both halves. */
  function Finish(h: Pair, a: bv32, b: bv32): Pair {
    Pair(Mix(h.right, a), Mix(h.left, b))
  }

  function Encrypt(p: Subkeys, s: Boxes, h: Pair): Pair {
    Finish(Rounds(s, p[..16], h), p[17], p[16])
  }

  function Backward(keys: seq<bv32>): (r: seq<bv32>)
    ensures |r| == |keys|
  {
    seq(|keys|, i requires 0 <= i < |keys| => keys[|keys| - 1 - i])
  }

  function Decrypt(p: Subkeys, s: Boxes, h: Pair): Pair {
    Finish(Rounds(s, Backward(p[2..]), h), p[0], p[1])
  }

  // ----- inversion -----

  lemma MixTwice(a: bv32, b: bv32)
    ensures Mix(Mix(a, b), b) == a
  {
  }

  lemma MixAssociates(a: bv32, b: bv32, c: bv32)
    ensures Mix(Mix(a, b), c) == Mix(a, Mix(b, c))
  {
  }

  lemma MixCommutes(a: bv32, b: bv32)
    ensures Mix(a, b) == Mix(b, a)
  {
  }

  lemma MixAround(a: bv32, b: bv32, c: bv32)
    ensures Mix(Mix(Mix(a, b), c), b) == Mix(a, c)
  {
    hide *;
    MixAssociates(a, b, c);
    MixCommutes(b, c);
    MixAssociates(a, c, b);
    MixTwice(Mix(a, c), b);
  }

  lemma {:induction false} RoundsFirst(s: Boxes, k: bv32, keys: seq<bv32>, h: Pair)
    ensures Rounds(s, [k] + keys, h) == Rounds(s, keys, Round(s, k, h))
  {
    hide Round;
    if keys == [] {
      assert Rounds(s, [k], h) == Round(s, k, Rounds(s, [], h));
      assert [k] + keys == [k];
    } else {
      RoundsFirst(s, k, keys[..|keys| - 1], h);
      assert ([k] + keys)[..|keys|] == [k] + keys[..|keys| - 1];
    }
  }

  /** A round undoes a round between whitenings: its own key leaves on one side, the older key enters on the other. */
  lemma RoundUndone(s: Boxes, k: bv32, b: bv32, a: bv32, h: Pair)
    ensures Round(s, a, Finish(Round(s, k, h), a, b)) == Finish(h, b, k)
  {
    hide F, Mix;
    var after := Round(s, k, h);
    MixTwice(after.right, a);
    MixAround(h.right, F(s, Mix(h.left, k)), b);
  }

  lemma {:induction false} RoundsUndone(s: Boxes, p: seq<bv32>, n: nat, h: Pair)
    requires |p| == n + 2
    ensures Rounds(s, Backward(p[2..]), Finish(Rounds(s, p[..n], h), p[n + 1], p[n])) == Finish(h, p[1], p[0])
  {
    hide Round, Finish;
    if n > 0 {
      var front := p[..n + 1];
      assert front[..n - 1] == p[..n][..n - 1];
      var before := Rounds(s, front[..n - 1], h);
      RoundUndone(s, p[n - 1], p[n], p[n + 1], before);
      assert Backward(p[2..]) == [p[n + 1]] + Backward(front[2..]);
      RoundsFirst(s, p[n + 1], Backward(front[2..]), Finish(Rounds(s, p[..n], h), p[n + 1], p[n]));
      RoundsUndone(s, front, n - 1, h);
    }
  }

  lemma FinishTwice(h: Pair, a: bv32, b: bv32)
    ensures Finish(Finish(h, b, a), a, b) == h
  {
    hide Mix;
    MixTwice(h.left, a);
    MixTwice(h.right, b);
  }

  /** Decryption undoes encryption, for every subkey array and every set of boxes. */
  lemma DecryptUndoesEncrypt(p: Subkeys, s: Boxes, h: Pair)
    ensures Decrypt(p, s, Encrypt(p, s, h)) == h
  {
    hide Rounds, Finish, Backward;
    RoundsUndone(s, p, 16, h);
    FinishTwice(h, p[0], p[1]);
  }

  // ----- the rounds, one by one -----

  /** One round: the left half whitened, the other mixed with the boxes, and the two exchanged. */
  ghost predicate RoundStep(s: Boxes, k: bv32, h: Pair, g: Pair) {
    g.right == Mix(h.left, k) && g.left == Mix(h.right, F(s, g.right))
  }

  /** Sixteen rounds with the first sixteen subkeys in order, then the last two on the exchanged halves. */
  lemma EncryptRun(p: Subkeys, s: Boxes, h: Pair) returns (hs: seq<Pair>)
    ensures |hs| == 17 && hs[0] == h && forall i: nat :: i < 16 ==> RoundStep(s, p[i], hs[i], hs[i + 1])
    ensures Encrypt(p, s, h) == Pair(Mix(hs[16].right, p[17]), Mix(hs[16].left, p[16]))
  {
    hide F, Mix;
    hs := seq(17, i requires 0 <= i < 17 => Rounds(s, p[..i], h));
    forall i: nat | i < 16
      ensures RoundStep(s, p[i], hs[i], hs[i + 1])
    {
      assert p[..i + 1][..i] == p[..i];
    }
  }

  // ----- blocks of eight bytes -----

  type CipherBlock = b: seq<bv8> | |b| == 8 witness [0, 0, 0, 0, 0, 0, 0, 0]

  /** Four bytes as a word, most significant first. */
  function FromBytes(b0: bv8, b1: bv8, b2: bv8, b3: bv8): bv32 {
    ((b0 as bv32) << 24) | ((b1 as bv32) << 16) | ((b2 as bv32) << 8) | (b3 as bv32)
  }

  function ToBytes(x: bv32): (b: seq<bv8>)
    ensures |b| == 4
  {
    [((x >> 24) & 0xff) as bv8, ((x >> 16) & 0xff) as bv8, ((x >> 8) & 0xff) as bv8, (x & 0xff) as bv8]
  }

  /** The boxes are looked up at the bytes of the word: two added, the third mixed in, the fourth added. */
  lemma BoxesAt(s: Boxes, a: bv8, b: bv8, c: bv8, d: bv8, w: bv32, x: bv32, y: bv32, z: bv32)
    requires w == s[0][a as int] && x == s[1][b as int] && y == s[2][c as int] && z == s[3][d as int]
    ensures F(s, FromBytes(a, b, c, d)) == Mix(w + x, y) + z
  {
    hide *;
    LookedUp(s, a, b, c, d);
    CombinedIs(w, x, y, z);
  }

  lemma CombinedIs(a: bv32, b: bv32, c: bv32, d: bv32)
    ensures Combined(a, b, c, d) == Mix(a + b, c) + d
  {
    hide Mix;
  }

  lemma LookedUp(s: Boxes, a: bv8, b: bv8, c: bv8, d: bv8)
    ensures F(s, FromBytes(a, b, c, d)) == Combined(s[0][a as int], s[1][b as int], s[2][c as int], s[3][d as int])
  {
    BytesOfWord(a, b, c, d);
    hide FromBytes, ByteOf, Combined;
  }

  lemma Wide(a: bv8)
    ensures (a as bv32) as int == a as int
  {
  }

  lemma PartsOf(a: bv8, b: bv8, c: bv8, d: bv8)
    ensures (FromBytes(a, b, c, d) >> 24) & 0xff == a as bv32 && (FromBytes(a, b, c, d) >> 16) & 0xff == b as bv32
    ensures (FromBytes(a, b, c, d) >> 8) & 0xff == c as bv32 && FromBytes(a, b, c, d) & 0xff == d as bv32
  {
  }

  lemma ByteThree(x: bv32)
    ensures ByteOf(x, 3) == ((x >> 24) & 0xff) as int
  {
  }

  lemma ByteTwo(x: bv32)
    ensures ByteOf(x, 2) == ((x >> 16) & 0xff) as int
  {
  }

  lemma ByteOne(x: bv32)
    ensures ByteOf(x, 1) == ((x >> 8) & 0xff) as int
  {
  }

  lemma ByteZero(x: bv32)
    ensures ByteOf(x, 0) == (x & 0xff) as int
  {
  }

  lemma BytesOfWord(a: bv8, b: bv8, c: bv8, d: bv8)
    ensures ByteOf(FromBytes(a, b, c, d), 3) == a as int && ByteOf(FromBytes(a, b, c, d), 2) == b as int
    ensures ByteOf(FromBytes(a, b, c, d), 1) == c as int && ByteOf(FromBytes(a, b, c, d), 0) == d as int
  {
    hide *;
    var x := FromBytes(a, b, c, d);
    PartsOf(a, b, c, d);
    ByteThree(x);
    ByteTwo(x);
    ByteOne(x);
    ByteZero(x);
    Wide(a);
    Wide(b);
    Wide(c);
    Wide(d);
  }

  function Load(b: CipherBlock): Pair {
    Pair(FromBytes(b[0], b[1], b[2], b[3]), FromBytes(b[4], b[5], b[6], b[7]))
  }

  function Store(h: Pair): CipherBlock {
    ToBytes(h.left) + ToBytes(h.right)
  }

  lemma WordBack(x: bv32)
    ensures var b := ToBytes(x); FromBytes(b[0], b[1], b[2], b[3]) == x
  {
  }

  lemma BytesBack(b0: bv8, b1: bv8, b2: bv8, b3: bv8)
    ensures ToBytes(FromBytes(b0, b1, b2, b3)) == [b0, b1, b2, b3]
  {
  }

  lemma LoadStore(h: Pair)
    ensures Load(Store(h)) == h
  {
    hide FromBytes, ToBytes;
    WordBack(h.left);
    WordBack(h.right);
  }

  lemma StoreLoad(b: CipherBlock)
    ensures Store(Load(b)) == b
  {
    hide FromBytes, ToBytes;
    BytesBack(b[0], b[1], b[2], b[3]);
    BytesBack(b[4], b[5], b[6], b[7]);
  }

  function EncryptBlock(p: Subkeys, s: Boxes, b: CipherBlock): CipherBlock {
    Store(Encrypt(p, s, Load(b)))
  }

  function DecryptBlock(p: Subkeys, s: Boxes, b: CipherBlock): CipherBlock {
    Store(Decrypt(p, s, Load(b)))
  }

  /** On big-endian blocks, `decrypt_block` undoes `encrypt_words`. */
  lemma BlockUndone(p: Subkeys, s: Boxes, b: CipherBlock)
    ensures DecryptBlock(p, s, EncryptBlock(p, s, b)) == b
  {
    hide Store, Load, Encrypt, Decrypt;
    LoadStore(Encrypt(p, s, Load(b)));
    DecryptUndoesEncrypt(p, s, Load(b));
    StoreLoad(b);
  }

  // ----- the class of the source -----

  class Cipher {
    const p: Subkeys
    const s: Boxes

    constructor (p: Subkeys, s: Boxes)
      ensures this.p == p && this.s == s
    {
      this.p := p;
      this.s := s;
    }

    method EncryptWords(l: bv32, r: bv32) returns (a: bv32, b: bv32)
      ensures Pair(a, b) == Encrypt(p, s, Pair(l, r))
    {
      hide F, Backward;
      var left, right := l, r;
      for i := 0 to 16
        invariant Pair(left, right) == Rounds(s, p[..i], Pair(l, r))
      {
        assert p[..i + 1][..i] == p[..i];
        left := Mix(left, p[i]);
        right := Mix(right, F(s, left));
        left, right := right, left;
      }
      left, right := right, left;
      return Mix(left, p[17]), Mix(right, p[16]);
    }

    method DecryptWords(l: bv32, r: bv32) returns (a: bv32, b: bv32)
      ensures Pair(a, b) == Decrypt(p, s, Pair(l, r))
    {
      hide F;
      var left, right := l, r;
      ghost var keys := Backward(p[2..]);
      var i := 18;
      while i > 2
        invariant 2 <= i <= 18
        invariant Pair(left, right) == Rounds(s, keys[..18 - i], Pair(l, r))
      {
        i := i - 1;
        assert keys[..18 - i][..17 - i] == keys[..17 - i] && keys[17 - i] == p[i];
        left := Mix(left, p[i]);
        right := Mix(right, F(s, left));
        left, right := right, left;
      }
      assert keys[..16] == keys;
      left, right := right, left;
      return Mix(left, p[0]), Mix(right, p[1]);
    }

    method DecryptBytes(block: CipherBlock) returns (out: CipherBlock)
      ensures out == DecryptBlock(p, s, block)
    {
      hide FromBytes, ToBytes, Decrypt;
      var l, r := DecryptWords(FromBytes(block[0], block[1], block[2], block[3]),
                               FromBytes(block[4], block[5], block[6], block[7]));
      out := Store(Pair(l, r));
    }
  }
}
