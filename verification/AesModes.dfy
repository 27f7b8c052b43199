/** AES-128 decryption of whole messages, mode by mode. */
module AesModes {
  import Words
  import opened Counter
  import opened Modes
  import opened Options
  import opened Aes

  datatype Mode = EcbMode | CbcMode | CtrMode | GcmMode | CfbMode | OfbMode | OtherMode

  // ----- the block functions, on byte sequences -----

  function Encryptor(keys: RoundKeys, sbox: Sbox): Transform {
    (b: seq<bv8>) => if |b| == 16 then EncryptBlock(b, keys, sbox) else b
  }

  function Decryptor(keys: RoundKeys, sbox: Sbox): Transform {
    (b: seq<bv8>) => if |b| == 16 then DecryptBlock(b, keys, InverseOf(sbox)) else b
  }

  lemma AesBlockInverse(keys: RoundKeys, sbox: Sbox)
    requires IsPermutation(sbox)
    ensures BlockInverse(Encryptor(keys, sbox), Decryptor(keys, sbox), 16)
  {
    hide EncryptBlock, DecryptBlock, InverseOf, IsPermutation;
    forall b: seq<bv8> | |b| == 16
      ensures Decryptor(keys, sbox)(Encryptor(keys, sbox)(b)) == b
    {
      DecryptsEncrypted(b, keys, sbox);
    }
  }

  lemma EncryptorOnBlocks(keys: RoundKeys, sbox: Sbox)
    ensures OnBlocks(Encryptor(keys, sbox), 16)
  {
    hide EncryptBlock;
  }

  // ----- what decryption gives, and which inputs it refuses -----

  predicate IvFits(mode: Mode, iv: Option<seq<bv8>>) {
    match mode
    case EcbMode => true
    case CbcMode | CfbMode | OfbMode => iv.Some? && |iv.value| == 16
    case CtrMode | GcmMode => iv.Some? && (|iv.value| == 16 || |iv.value| == 12)
    case OtherMode => false
  }

  predicate LengthFits(mode: Mode, data: seq<bv8>) {
    data != [] && (mode.EcbMode? || mode.CbcMode? ==> |data| % 16 == 0)
  }

  /** The first counter block: a 12-byte nonce is followed by a 32-bit counter starting at 1, and GCM skips one. */
  function FirstCounter(mode: Mode, iv: seq<bv8>): seq<bv8> {
    var counter := if |iv| == 12 then iv + [0, 0, 0, 1] else iv;
    if mode.GcmMode? then Increment(counter) else counter
  }

  /** The encryption that NIST SP 800-38A defines for the mode, with block encryption `e`. */
  function ModeEncrypt(p: seq<bv8>, iv: Option<seq<bv8>>, mode: Mode, e: Transform): seq<bv8>
    requires IvFits(mode, iv)
  {
    if mode.EcbMode? then Chain(Modes.Ecb(e), 16, ZERO_BLOCK, p)
    else if mode.CbcMode? then Chain(CbcEncryption(e), 16, iv.value, p)
    else if mode.CfbMode? then Chain(CfbEncryption(e), 16, iv.value, p)
    else if mode.OfbMode? then Chain(Ofb(e), 16, iv.value, p)
    else Chain(Ctr(e), 16, FirstCounter(mode, iv.value), p)
  }

  /** The decryption of the mode, with block encryption `e` and block decryption `d`. */
  function ModeDecrypt(c: seq<bv8>, iv: Option<seq<bv8>>, mode: Mode, e: Transform, d: Transform): seq<bv8>
    requires IvFits(mode, iv)
  {
    if mode.EcbMode? then Chain(Modes.Ecb(d), 16, ZERO_BLOCK, c)
    else if mode.CbcMode? then Chain(CbcDecryption(d), 16, iv.value, c)
    else if mode.CfbMode? then Chain(CfbDecryption(e), 16, iv.value, c)
    else if mode.OfbMode? then Chain(Ofb(e), 16, iv.value, c)
    else Chain(Ctr(e), 16, FirstCounter(mode, iv.value), c)
  }

  function Encrypted(p: seq<bv8>, key: Block, iv: Option<seq<bv8>>, mode: Mode, sbox: Sbox): seq<bv8>
    requires IvFits(mode, iv)
  {
    ModeEncrypt(p, iv, mode, Encryptor(ExpandKey(key, sbox), sbox))
  }

  function Decrypted(c: seq<bv8>, key: Block, iv: Option<seq<bv8>>, mode: Mode, sbox: Sbox): seq<bv8>
    requires IvFits(mode, iv)
  {
    ModeDecrypt(c, iv, mode, Encryptor(ExpandKey(key, sbox), sbox), Decryptor(ExpandKey(key, sbox), sbox))
  }

  /** Every mode decrypts what it encrypted, for every key, IV, permutation and length the mode permits. */
  lemma ModeUndoes(p: seq<bv8>, key: Block, iv: Option<seq<bv8>>, mode: Mode, sbox: Sbox)
    requires IsPermutation(sbox) && IvFits(mode, iv) && LengthFits(mode, p)
    ensures LengthFits(mode, Encrypted(p, key, iv, mode, sbox))
    ensures Decrypted(Encrypted(p, key, iv, mode, sbox), key, iv, mode, sbox) == p
  {
    hide ExpandKey, Encryptor, Decryptor, Chain, Increment, BlockInverse, OnBlocks, IsPermutation;
    hide Modes.Ecb, CbcEncryption, CbcDecryption, Ctr, CfbEncryption, CfbDecryption, Ofb;
    var keys := ExpandKey(key, sbox);
    var e, d := Encryptor(keys, sbox), Decryptor(keys, sbox);
    AesBlockInverse(keys, sbox);
    EncryptorOnBlocks(keys, sbox);
    match mode
    case EcbMode => EcbUndoes(e, d, 16, ZERO_BLOCK, p);
    case CbcMode => CbcUndoes(e, d, 16, iv.value, p);
    case CtrMode | GcmMode => CtrUndoes(e, 16, FirstCounter(mode, iv.value), p);
    case CfbMode => CfbUndoes(e, 16, iv.value, p);
    case OfbMode => OfbUndoes(e, 16, iv.value, p);
    case OtherMode =>
  }

  /** The counter block of section 6.5 of NIST SP 800-38D for data block `b`: the IV, then a 32-bit b + 2. */
  function GcmCounter(iv: seq<bv8>, b: nat): Block
    requires |iv| == 12
  {
    iv + BeBytes(b + 2, 4)
  }

  function Keystream(counter: Block, key: Block, sbox: Sbox): Block {
    EncryptBlock(counter, ExpandKey(key, sbox), sbox)
  }

  lemma CounterFits(b: nat)
    requires b + 2 < 0x1_0000_0000
    ensures 2 + b < Power(4)
  {
  }

  /** With a 12-byte IV, GCM adds the keystream of GCTR while its 32-bit counter does not overflow. */
  lemma GcmByte(c: seq<bv8>, key: Block, iv: seq<bv8>, sbox: Sbox, b: nat, i: nat)
    requires |iv| == 12 && b + 2 < 0x1_0000_0000 && i < 16 && b * 16 + i < |c|
    ensures |Decrypted(c, key, Some(iv), GcmMode, sbox)| == |c|
    ensures Decrypted(c, key, Some(iv), GcmMode, sbox)[b * 16 + i] ==
            c[b * 16 + i] ^ Keystream(GcmCounter(iv, b), key, sbox)[i]
  {
    hide EncryptBlock, ExpandKey, Encryptor, Chain, Ctr, Increment, BeBytes, Power, Advance, OnBlocks, FirstCounter,
      Decrypted;
    var keys := ExpandKey(key, sbox);
    FirstGcmCounter(iv);
    EncryptorOnBlocks(keys, sbox);
    CounterFits(b);
    AdvanceLow(iv, 2, 4, b);
    EncryptorIs(keys, sbox, GcmCounter(iv, b));
    CtrByte(Encryptor(keys, sbox), 16, iv + BeBytes(2, 4), c, b, i);
    DecryptedIsCtr(c, key, iv, GcmMode, sbox);
  }

  lemma DecryptedIsCtr(c: seq<bv8>, key: Block, iv: seq<bv8>, mode: Mode, sbox: Sbox)
    requires (mode.CtrMode? || mode.GcmMode?) && (|iv| == 12 || |iv| == 16)
    ensures Decrypted(c, key, Some(iv), mode, sbox) ==
            Chain(Ctr(Encryptor(ExpandKey(key, sbox), sbox)), 16, FirstCounter(mode, iv), c)
  {
    hide ExpandKey, Encryptor, Chain, Ctr;
  }

  lemma EncryptorIs(keys: RoundKeys, sbox: Sbox, b: Block)
    ensures Encryptor(keys, sbox)(b) == EncryptBlock(b, keys, sbox)
  {
    hide EncryptBlock;
  }

  lemma OneInFourBytes()
    ensures BeBytes(1, 4) == [0, 0, 0, 1]
    ensures Power(4) > 2
  {
    assert ToByte(0) == 0 && ToByte(1) == 1;
    assert BeBytes(0, 1) == [0];
    assert BeBytes(0, 2) == [0, 0];
    assert BeBytes(0, 3) == [0, 0, 0];
  }

  lemma FirstGcmCounter(iv: seq<bv8>)
    requires |iv| == 12
    ensures FirstCounter(GcmMode, iv) == iv + BeBytes(2, 4)
  {
    hide Increment, BeBytes, Power;
    OneInFourBytes();
    IncrementLow(iv, 1, 4);
  }

  lemma {:induction false} ValueOfAppend(a: seq<bv8>, b: seq<bv8>)
    ensures BeVal(a + b) == BeVal(a) * Power(|b|) + BeVal(b)
    decreases |b|
  {
    if b == [] {
      assert a + b == a;
    } else {
      var front := b[..|b| - 1];
      ValueOfAppend(a, front);
      assert (a + b)[..|a + b| - 1] == a + front;
      ScaleUp(BeVal(a), Power(|b| - 1));
    }
  }

  lemma ScaleUp(x: nat, p: nat)
    ensures 256 * (x * p) == x * (256 * p)
  {
  }

  /** The counter block of section 6.5 of NIST SP 800-38D with its 32-bit wrap. */
  function Inc32Counter(iv: seq<bv8>, b: nat): Block
    requires |iv| == 12
  {
    iv + BeBytes((b + 2) % Power(4), 4)
  }

  lemma CounterValues(iv: seq<bv8>, b: nat)
    requires |iv| == 12
    ensures BeVal(Advance(FirstCounter(GcmMode, iv), b)) == (BeVal(iv) * Power(4) + 2 + b) % Power(16)
    ensures BeVal(Inc32Counter(iv, b)) == BeVal(iv) * Power(4) + (b + 2) % Power(4)
    ensures BeVal(Inc32Counter(iv, b)) < Power(16)
  {
    OneInFourBytes();
    hide Power, BeVal, BeBytes, Advance, FirstCounter;
    FirstGcmCounter(iv);
    AdvanceAdds(iv + BeBytes(2, 4), b);
    ValueOfAppend(iv, BeBytes(2, 4));
    ValueOfBytes(2, 4);
    Words.DivModUnique(2, Power(4), 0, 2);
    var low := (b + 2) % Power(4);
    ValueOfAppend(iv, BeBytes(low, 4));
    ValueOfBytes(low, 4);
    Words.DivModUnique(low, Power(4), 0, low);
    BytesOfValue(Inc32Counter(iv, b));
    ValueOfBytes(BeVal(Inc32Counter(iv, b)), 16);
  }

  /**
   * The increment carries into the IV: it is the counter of the standard exactly while the 32-bit part has not
   * wrapped.
   */
  lemma GcmCounterAgreesIff(iv: seq<bv8>, b: nat)
    requires |iv| == 12 && b + 2 < Power(16)
    ensures Advance(FirstCounter(GcmMode, iv), b) == Inc32Counter(iv, b) <==> b + 2 < Power(4)
  {
    hide Power, BeVal, BeBytes, Advance, FirstCounter;
    if b + 2 < Power(4) {
      FirstGcmCounter(iv);
      AdvanceLow(iv, 2, 4, b);
      Words.DivModUnique(b + 2, Power(4), 0, b + 2);
    } else {
      CounterValues(iv, b);
      var base, low := BeVal(iv) * Power(4), (b + 2) % Power(4);
      assert low < Power(4);
      NotCongruent(base + low, base + b + 2, Power(16));
      Words.DivModUnique(base + low, Power(16), 0, base + low);
    }
  }

  /** The keystream of the source for data block `b`. */
  function GcmStream(key: Block, iv: seq<bv8>, sbox: Sbox, b: nat): Block
    requires |iv| == 12
  {
    Keystream(Advance(FirstCounter(GcmMode, iv), b), key, sbox)
  }

  /** The keystream of section 6.5 of NIST SP 800-38D for data block `b`. */
  function GctrStream(key: Block, iv: seq<bv8>, sbox: Sbox, b: nat): Block
    requires |iv| == 12
  {
    Keystream(Inc32Counter(iv, b), key, sbox)
  }

  /** GCTR of section 6.5 of NIST SP 800-38D on a whole message. */
  function Gctr(c: seq<bv8>, key: Block, iv: seq<bv8>, sbox: Sbox): (r: seq<bv8>)
    requires |iv| == 12
    ensures |r| == |c|
  {
    seq(|c|, k requires 0 <= k < |c| => c[k] ^ GctrStream(key, iv, sbox, k / 16)[k % 16])
  }

  lemma FirstGcmBlock(iv: seq<bv8>)
    requires |iv| == 12
    ensures |FirstCounter(GcmMode, iv)| == 16
  {
  }

  lemma GcmByteAt(c: seq<bv8>, key: Block, iv: seq<bv8>, sbox: Sbox, k: nat)
    requires |iv| == 12 && k < |c|
    ensures |Decrypted(c, key, Some(iv), GcmMode, sbox)| == |c|
    ensures Decrypted(c, key, Some(iv), GcmMode, sbox)[k] == c[k] ^ GcmStream(key, iv, sbox, k / 16)[k % 16]
  {
    hide EncryptBlock, ExpandKey, Encryptor, Chain, Ctr, Increment, Advance, OnBlocks, FirstCounter, Decrypted;
    var keys := ExpandKey(key, sbox);
    FirstGcmBlock(iv);
    EncryptorOnBlocks(keys, sbox);
    EncryptorIs(keys, sbox, Advance(FirstCounter(GcmMode, iv), k / 16));
    CtrByte(Encryptor(keys, sbox), 16, FirstCounter(GcmMode, iv), c, k / 16, k % 16);
    DecryptedIsCtr(c, key, iv, GcmMode, sbox);
  }

  /** Block encryption keeps different counters different. */
  lemma StreamsAgreeIff(key: Block, iv: seq<bv8>, sbox: Sbox, b: nat)
    requires |iv| == 12 && IsPermutation(sbox) && b + 2 < Power(16)
    ensures GcmStream(key, iv, sbox, b) == GctrStream(key, iv, sbox, b) <==> b + 2 < Power(4)
  {
    hide EncryptBlock, DecryptBlock, InverseOf, IsPermutation, ExpandKey, Power, Advance, FirstCounter, Inc32Counter;
    var keys := ExpandKey(key, sbox);
    FirstGcmBlock(iv);
    GcmCounterAgreesIff(iv, b);
    DecryptsEncrypted(Advance(FirstCounter(GcmMode, iv), b), keys, sbox);
    DecryptsEncrypted(Inc32Counter(iv, b), keys, sbox);
  }

  lemma {:induction false} PowerBelow(n: nat, m: nat)
    requires n < m
    ensures Power(n) < Power(m)
    decreases m
  {
    if n < m - 1 { PowerBelow(n, m - 1); }
  }

  predicate SameStart(a: Block, b: Block, len: nat) {
    forall i :: 0 <= i < len && i < 16 ==> a[i] == b[i]
  }

  predicate IsSum(sum: bv8, x: bv8, a: bv8) {
    sum == x ^ a
  }

  /** Data added to a keystream given block by block. */
  predicate AddsStream(r: seq<bv8>, c: seq<bv8>, stream: nat -> Block) {
    |r| == |c| && forall k: nat :: k < |c| ==> IsSum(r[k], c[k], stream(k / 16)[k % 16])
  }

  lemma SumsAgreeIff(r: seq<bv8>, s: seq<bv8>, c: seq<bv8>, f: nat -> Block, g: nat -> Block, k: nat)
    requires AddsStream(r, c, f) && AddsStream(s, c, g) && k < |c|
    ensures |r| == |s| == |c| && (r[k] == s[k] <==> f(k / 16)[k % 16] == g(k / 16)[k % 16])
  {
    hide IsSum;
    SumsCancel(c[k], f(k / 16)[k % 16], g(k / 16)[k % 16], r[k], s[k]);
  }

  lemma SumsCancel(x: bv8, a: bv8, b: bv8, u: bv8, v: bv8)
    requires IsSum(u, x, a) && IsSum(v, x, b)
    ensures u == v <==> a == b
  {
    if u == v { CancelSum(x, a, b); }
  }

  lemma CancelSum(x: bv8, a: bv8, b: bv8)
    requires x ^ a == x ^ b
    ensures a == b
  {
    hide *;
  }

  /** Two keystreams that first differ in block `wrap` give the same sum exactly if the data does not show it. */
  lemma StreamsUnseenIff(r: seq<bv8>, s: seq<bv8>, c: seq<bv8>, f: nat -> Block, g: nat -> Block, wrap: nat)
    requires AddsStream(r, c, f) && AddsStream(s, c, g) && f(wrap) != g(wrap)
    requires forall b: nat :: b < wrap && 16 * b < |c| ==> f(b) == g(b)
    ensures r == s <==>
            |c| <= 16 * wrap || (|c| < 16 * wrap + 16 && SameStart(f(wrap), g(wrap), |c| - 16 * wrap))
  {
    hide AddsStream;
    assert |r| == |s| == |c| by { SumLength(r, c, f); SumLength(s, c, g); }
    if |c| <= 16 * wrap || (|c| < 16 * wrap + 16 && SameStart(f(wrap), g(wrap), |c| - 16 * wrap)) {
      forall k | 0 <= k < |c|
        ensures r[k] == s[k]
      {
        SumsAgreeIff(r, s, c, f, g, k);
      }
    } else {
      var i :| 0 <= i < 16 && 16 * wrap + i < |c| && f(wrap)[i] != g(wrap)[i];
      assert (16 * wrap + i) / 16 == wrap && (16 * wrap + i) % 16 == i;
      SumsAgreeIff(r, s, c, f, g, 16 * wrap + i);
    }
  }

  lemma SumLength(r: seq<bv8>, c: seq<bv8>, f: nat -> Block)
    requires AddsStream(r, c, f)
    ensures |r| == |c|
  {
  }

  /**
   * GCM decrypts as the standard does exactly if no data reaches the block where the 32-bit counter wraps, or only
   * part of that block is there and the two keystreams happen to agree on it.
   */
  lemma GcmAgreesIff(c: seq<bv8>, key: Block, iv: seq<bv8>, sbox: Sbox)
    requires |iv| == 12 && IsPermutation(sbox)
    ensures var wrap := Power(4) - 2;
            Decrypted(c, key, Some(iv), GcmMode, sbox) == Gctr(c, key, iv, sbox) <==>
            || |c| <= 16 * wrap
            || (|c| < 16 * wrap + 16 &&
                SameStart(GcmStream(key, iv, sbox, wrap), GctrStream(key, iv, sbox, wrap), |c| - 16 * wrap))
  {
    hide Power, IsPermutation, GcmStream, GctrStream, Decrypted, SameStart;
    assert 2 < Power(4) < Power(16) by { OneInFourBytes(); PowerBelow(4, 16); }
    var wrap: nat := Power(4) - 2;
    var f: nat -> Block := b => GcmStream(key, iv, sbox, b);
    var g: nat -> Block := b => GctrStream(key, iv, sbox, b);
    if c == [] { EmptyGcm(key, iv, sbox); } else { GcmByteAt(c, key, iv, sbox, 0); }
    forall k: nat | k < |c|
      ensures |Decrypted(c, key, Some(iv), GcmMode, sbox)| == |c|
      ensures Decrypted(c, key, Some(iv), GcmMode, sbox)[k] == c[k] ^ f(k / 16)[k % 16]
    {
      GcmByteAt(c, key, iv, sbox, k);
    }
    forall b: nat | b <= wrap
      ensures f(b) == g(b) <==> b < wrap
    {
      StreamsAgreeIff(key, iv, sbox, b);
    }
    StreamsUnseenIff(Decrypted(c, key, Some(iv), GcmMode, sbox), Gctr(c, key, iv, sbox), c, f, g, wrap);
  }

  /** A message that fills the block where the counter wraps: one of zeros, say. */
  lemma LongGcmDiffers(n: nat, key: Block, iv: seq<bv8>, sbox: Sbox)
    requires n >= 16 * (Power(4) - 1) && |iv| == 12 && IsPermutation(sbox)
    ensures var c: seq<bv8> := seq(n, _ => 0);
            Decrypted(c, key, Some(iv), GcmMode, sbox) != Gctr(c, key, iv, sbox)
  {
    hide Power, IsPermutation, Decrypted, Gctr;
    var c: seq<bv8> := seq(n, _ => 0);
    assert 2 < Power(4) by { OneInFourBytes(); }
    GcmAgreesIff(c, key, iv, sbox);
  }

  lemma EmptyGcm(key: Block, iv: seq<bv8>, sbox: Sbox)
    requires |iv| == 12
    ensures Decrypted([], key, Some(iv), GcmMode, sbox) == []
  {
    hide ExpandKey;
  }

  // ----- each mode byte by byte, in terms of the block cipher and the ciphertext -----

  /** The block before block `b`, or the IV. */
  function Before(iv: Block, c: seq<bv8>, b: nat): Block
    requires 16 * b <= |c|
  {
    if b == 0 then iv else c[16 * b - 16..16 * b]
  }

  /** Block `b` of the ciphertext. */
  function Cut(c: seq<bv8>, b: nat): Block
    requires 16 * b + 16 <= |c|
  {
    c[16 * b..16 * b + 16]
  }

  /** A block decrypted under a key. */
  function Undone(b: Block, key: Block, sbox: Sbox): Block {
    DecryptBlock(b, ExpandKey(key, sbox), InverseOf(sbox))
  }

  lemma DecryptedIsEcb(c: seq<bv8>, key: Block, iv: Option<seq<bv8>>, sbox: Sbox)
    ensures Decrypted(c, key, iv, EcbMode, sbox) ==
            Chain(Modes.Ecb(Decryptor(ExpandKey(key, sbox), sbox)), 16, ZERO_BLOCK, c)
  {
    hide ExpandKey, Encryptor, Decryptor, Chain, Modes.Ecb;
  }

  lemma DecryptedIsCbc(c: seq<bv8>, key: Block, iv: Block, sbox: Sbox)
    ensures Decrypted(c, key, Some(iv), CbcMode, sbox) ==
            Chain(CbcDecryption(Decryptor(ExpandKey(key, sbox), sbox)), 16, iv, c)
  {
    hide ExpandKey, Encryptor, Decryptor, Chain, CbcDecryption;
  }

  /** ECB: the decrypted block. */
  lemma EcbModeByte(c: seq<bv8>, key: Block, iv: Option<seq<bv8>>, sbox: Sbox, b: nat, i: nat)
    requires |c| % 16 == 0 && 16 * b + 16 <= |c| && i < 16
    ensures var m := Decrypted(c, key, iv, EcbMode, sbox);
            |m| == |c| && m[16 * b + i] == Undone(Cut(c, b), key, sbox)[i]
  {
    hide *;
    DecryptorOnBlocks(ExpandKey(key, sbox), sbox);
    BlockIs(c, b);
    DecryptedIsEcb(c, key, iv, sbox);
    EcbByte(Decryptor(ExpandKey(key, sbox), sbox), 16, ZERO_BLOCK, c, b, i);
    UndoneIs(Cut(c, b), key, sbox);
    assert b * 16 == 16 * b;
  }

  /** CBC: the decrypted block with the ciphertext block before added. */
  lemma CbcModeByte(c: seq<bv8>, key: Block, iv: Block, sbox: Sbox, b: nat, i: nat)
    requires |c| % 16 == 0 && 16 * b + 16 <= |c| && i < 16
    ensures var m := Decrypted(c, key, Some(iv), CbcMode, sbox);
            |m| == |c| && m[16 * b + i] == Plus(Undone(Cut(c, b), key, sbox)[i], Before(iv, c, b)[i])
  {
    hide *;
    DecryptorOnBlocks(ExpandKey(key, sbox), sbox);
    BlockIs(c, b);
    BeforeIs(iv, c, b);
    DecryptedIsCbc(c, key, iv, sbox);
    CbcByte(Decryptor(ExpandKey(key, sbox), sbox), 16, iv, c, b, i);
    UndoneIs(Cut(c, b), key, sbox);
    assert b * 16 == 16 * b;
  }

  lemma UndoneIs(b: Block, key: Block, sbox: Sbox)
    ensures Decryptor(ExpandKey(key, sbox), sbox)(b) == Undone(b, key, sbox)
  {
    hide DecryptBlock, InverseOf, ExpandKey;
  }

  /** CFB: the encryption of the ciphertext block before. */
  lemma CfbModeByte(c: seq<bv8>, key: Block, iv: Block, sbox: Sbox, b: nat, i: nat)
    requires i < 16 && 16 * b + i < |c|
    ensures |Decrypted(c, key, Some(iv), CfbMode, sbox)| == |c|
    ensures Decrypted(c, key, Some(iv), CfbMode, sbox)[16 * b + i] ==
            Plus(c[16 * b + i], Keystream(Before(iv, c, b), key, sbox)[i])
  {
    hide Chain, EncryptBlock, ExpandKey, Encryptor, Decryptor, CfbDecryption, OnBlocks, BlockBefore, Plus;
    var keys := ExpandKey(key, sbox);
    EncryptorOnBlocks(keys, sbox);
    BeforeIs(iv, c, b);
    CfbByte(Encryptor(keys, sbox), 16, iv, c, b, i);
    EncryptorIs(keys, sbox, Before(iv, c, b));
  }

  /** The IV encrypted `k` times. */
  function Feed(keys: RoundKeys, sbox: Sbox, iv: Block, k: nat): Block {
    if k == 0 then iv else EncryptBlock(Feed(keys, sbox, iv, k - 1), keys, sbox)
  }

  lemma {:induction false} IteratedLast(f: Transform, s: seq<bv8>, k: nat)
    ensures Iterated(f, s, k + 1) == f(Iterated(f, s, k))
    decreases k
  {
    if k > 0 {
      IteratedLast(f, f(s), k - 1);
      assert Iterated(f, s, k + 1) == Iterated(f, f(s), k) && Iterated(f, s, k) == Iterated(f, f(s), k - 1);
    } else {
      assert Iterated(f, s, 1) == Iterated(f, f(s), 0);
    }
  }

  lemma {:induction false} FeedIs(keys: RoundKeys, sbox: Sbox, iv: Block, k: nat)
    ensures Iterated(Encryptor(keys, sbox), iv, k) == Feed(keys, sbox, iv, k)
  {
    hide EncryptBlock, Encryptor;
    if k > 0 {
      FeedIs(keys, sbox, iv, k - 1);
      IteratedLast(Encryptor(keys, sbox), iv, k - 1);
      EncryptorIs(keys, sbox, Feed(keys, sbox, iv, k - 1));
    }
  }

  /** OFB: the IV encrypted once more than there are blocks before. */
  lemma OfbModeByte(c: seq<bv8>, key: Block, iv: Block, sbox: Sbox, b: nat, i: nat)
    requires i < 16 && 16 * b + i < |c|
    ensures |Decrypted(c, key, Some(iv), OfbMode, sbox)| == |c|
    ensures Decrypted(c, key, Some(iv), OfbMode, sbox)[16 * b + i] ==
            Plus(c[16 * b + i], Feed(ExpandKey(key, sbox), sbox, iv, b + 1)[i])
  {
    hide Chain, EncryptBlock, ExpandKey, Encryptor, Decryptor, Ofb, OnBlocks, Plus, Iterated, Feed;
    var keys := ExpandKey(key, sbox);
    EncryptorOnBlocks(keys, sbox);
    FeedIs(keys, sbox, iv, b + 1);
    OfbByte(Encryptor(keys, sbox), 16, iv, c, b, i);
  }

  /** Counter mode and GCM: the encryption of the first counter, incremented once for each block before. */
  lemma CtrModeByte(c: seq<bv8>, key: Block, iv: seq<bv8>, mode: Mode, sbox: Sbox, b: nat, i: nat)
    requires (mode.CtrMode? || mode.GcmMode?) && (|iv| == 12 || |iv| == 16) && i < 16 && 16 * b + i < |c|
    ensures |FirstCounter(mode, iv)| == 16
    ensures var m := Decrypted(c, key, Some(iv), mode, sbox);
            |m| == |c| &&
            m[16 * b + i] == Plus(c[16 * b + i], Keystream(Advance(FirstCounter(mode, iv), b), key, sbox)[i])
  {
    hide *;
    FirstCounterFits(mode, iv);
    EncryptorOnBlocks(ExpandKey(key, sbox), sbox);
    DecryptedIsCtr(c, key, iv, mode, sbox);
    CtrByte(Encryptor(ExpandKey(key, sbox), sbox), 16, FirstCounter(mode, iv), c, b, i);
    KeystreamIs(Advance(FirstCounter(mode, iv), b), key, sbox);
    assert b * 16 == 16 * b;
    PlusIs(c[16 * b + i], Keystream(Advance(FirstCounter(mode, iv), b), key, sbox)[i]);
  }

  lemma KeystreamIs(b: Block, key: Block, sbox: Sbox)
    ensures Encryptor(ExpandKey(key, sbox), sbox)(b) == Keystream(b, key, sbox)
  {
    hide EncryptBlock, ExpandKey;
  }

  lemma PlusIs(a: bv8, b: bv8)
    ensures Plus(a, b) == a ^ b
  {
  }

  lemma FirstCounterFits(mode: Mode, iv: seq<bv8>)
    requires |iv| == 12 || |iv| == 16
    ensures |FirstCounter(mode, iv)| == 16
  {
  }

  lemma BlockIs(c: seq<bv8>, b: nat)
    requires b * 16 + 16 <= |c|
    ensures BlockAt(c, 16, b) == Cut(c, b)
  {
  }

  lemma BeforeIs(iv: Block, c: seq<bv8>, b: nat)
    requires b * 16 <= |c|
    ensures BlockBefore(iv, c, 16, b) == Before(iv, c, b)
  {
  }

  lemma DecryptorOnBlocks(keys: RoundKeys, sbox: Sbox)
    ensures OnBlocks(Decryptor(keys, sbox), 16)
  {
    hide DecryptBlock, InverseOf;
  }

  /** Counter mode starts at the IV, or at a 12-byte nonce followed by one; GCM one later. */
  lemma FirstCounters(iv: seq<bv8>)
    ensures |iv| == 16 ==> FirstCounter(CtrMode, iv) == iv
    ensures |iv| == 16 ==> BeVal(FirstCounter(GcmMode, iv)) == (BeVal(iv) + 1) % Power(16)
    ensures |iv| == 12 ==> FirstCounter(CtrMode, iv) == iv + BeBytes(1, 4)
    ensures |iv| == 12 ==> FirstCounter(GcmMode, iv) == iv + BeBytes(2, 4)
  {
    OneInFourBytes();
    hide BeVal, BeBytes, Power, Increment, Advance;
    if |iv| == 12 {
      FirstGcmCounter(iv);
    } else if |iv| == 16 {
      AdvanceAdds(iv, 1);
      OneStep(iv);
    }
  }

  lemma OneStep(s: seq<bv8>)
    ensures Advance(s, 1) == Increment(s)
  {
    hide Increment;
    assert Advance(s, 1) == Advance(Increment(s), 0);
  }

  /** Counter mode with a 12-byte nonce: block `b` uses the nonce and a 32-bit b + 1. */
  lemma CtrNonceByte(c: seq<bv8>, key: Block, iv: seq<bv8>, sbox: Sbox, b: nat, i: nat)
    requires |iv| == 12 && b + 1 < 0x1_0000_0000 && i < 16 && b * 16 + i < |c|
    ensures |Decrypted(c, key, Some(iv), CtrMode, sbox)| == |c|
    ensures Decrypted(c, key, Some(iv), CtrMode, sbox)[b * 16 + i] ==
            c[b * 16 + i] ^ Keystream(iv + BeBytes(b + 1, 4), key, sbox)[i]
  {
    hide EncryptBlock, ExpandKey, Encryptor, Chain, Ctr, Increment, BeBytes, Power, Advance, OnBlocks, FirstCounter;
    hide Decrypted;
    var keys := ExpandKey(key, sbox);
    FirstCounters(iv);
    EncryptorOnBlocks(keys, sbox);
    FourBytesHold(b);
    AdvanceLow(iv, 1, 4, b);
    EncryptorIs(keys, sbox, iv + BeBytes(b + 1, 4));
    CtrByte(Encryptor(keys, sbox), 16, iv + BeBytes(1, 4), c, b, i);
    DecryptedIsCtr(c, key, iv, CtrMode, sbox);
  }

  lemma FourBytesHold(b: nat)
    requires b + 1 < 0x1_0000_0000
    ensures 1 + b < Power(4)
  {
  }

  // ----- decryption with its refusals -----

  function Opened(data: seq<bv8>, key: seq<bv8>, iv: Option<seq<bv8>>, mode: Mode, sbox: Sbox): Outcome {
    if |key| != 16 then Refused(KeyLength)
    else if data == [] then Refused(Empty)
    else if !LengthFits(mode, data) then Refused(NotWholeBlocks)
    else if !IvFits(mode, iv) then
      Refused(if mode.OtherMode? then UnsupportedMode else if iv.None? then IvMissing else IvLength)
    else Plain(Decrypted(data, key, iv, mode, sbox))
  }

  lemma OpensSealed(p: seq<bv8>, key: Block, iv: Option<seq<bv8>>, mode: Mode, sbox: Sbox)
    requires IsPermutation(sbox) && IvFits(mode, iv) && LengthFits(mode, p)
    ensures Opened(Encrypted(p, key, iv, mode, sbox), key, iv, mode, sbox) == Plain(p)
  {
    hide Encrypted, Decrypted, IvFits, IsPermutation;
    ModeUndoes(p, key, iv, mode, sbox);
  }

  // ----- the loops of the source -----

  method DecryptEcb(data: seq<bv8>, keys: RoundKeys, sbox: Sbox) returns (out: seq<bv8>)
    requires |data| % 16 == 0
    ensures out == Chain(Modes.Ecb(Decryptor(keys, sbox)), 16, ZERO_BLOCK, data)
  {
    hide Chain, DecryptBlock, InverseOf;
    ghost var step := Modes.Ecb(Decryptor(keys, sbox));
    NoMoreChunks(step, 16, ZERO_BLOCK, data);
    out := [];
    var pos := 0;
    while pos < |data|
      invariant 0 <= pos <= |data| && pos % 16 == 0
      invariant out + Chain(step, 16, ZERO_BLOCK, data[pos..]) == Chain(step, 16, ZERO_BLOCK, data)
    {
      NextChunk(step, 16, ZERO_BLOCK, data, pos);
      var plain := AesDecryptBlock128(data[pos..pos + 16], keys, sbox);
      out := out + plain;
      pos := pos + 16;
    }
  }

  method DecryptCbc(data: seq<bv8>, iv: Block, keys: RoundKeys, sbox: Sbox) returns (out: seq<bv8>)
    requires |data| % 16 == 0
    ensures out == Chain(CbcDecryption(Decryptor(keys, sbox)), 16, iv, data)
  {
    hide Chain, DecryptBlock, InverseOf, Xor;
    ghost var step := CbcDecryption(Decryptor(keys, sbox));
    var prev := iv;
    out := [];
    var pos := 0;
    NoMoreChunks(step, 16, iv, data);
    while pos < |data|
      invariant 0 <= pos <= |data| && pos % 16 == 0
      invariant out + Chain(step, 16, prev, data[pos..]) == Chain(step, 16, iv, data)
    {
      NextChunk(step, 16, prev, data, pos);
      var blk: Block := data[pos..pos + 16];
      var plain := AesDecryptBlock128(blk, keys, sbox);
      var xored := XorChunk(plain, prev);
      out := out + xored;
      prev := blk;
      pos := pos + 16;
    }
    NoMoreChunks(step, 16, prev, data);
  }

  lemma CtrStage(keys: RoundKeys, sbox: Sbox, s: Block, chunk: seq<bv8>)
    ensures Ctr(Encryptor(keys, sbox))(s, chunk) == Stage(Xor(chunk, EncryptBlock(s, keys, sbox)), Increment(s))
  {
    hide EncryptBlock, Increment, Xor;
  }

  method DecryptCtr(data: seq<bv8>, counter: array<bv8>, keys: RoundKeys, sbox: Sbox) returns (out: seq<bv8>)
    requires counter.Length == 16
    modifies counter
    ensures out == Chain(Ctr(Encryptor(keys, sbox)), 16, old(counter[..]), data)
  {
    hide Chain, EncryptBlock, Xor, Increment, Ctr, Encryptor;
    ghost var step := Ctr(Encryptor(keys, sbox));
    out := [];
    var pos := 0;
    NoMoreChunks(step, 16, counter[..], data);
    while pos < |data|
      invariant 0 <= pos <= |data|
      invariant out + Chain(step, 16, counter[..], data[pos..]) == Chain(step, 16, old(counter[..]), data)
    {
      NextChunk(step, 16, counter[..], data, pos);
      var end := if pos + 16 <= |data| then pos + 16 else |data|;
      CtrStage(keys, sbox, counter[..], data[pos..end]);
      var keystream := AesEncryptBlock128(counter[..], keys, sbox);
      var plain := XorChunk(data[pos..end], keystream);
      out := out + plain;
      IncrementBe(counter);
      pos := end;
    }
    NoMoreChunks(step, 16, counter[..], data);
  }

  method DecryptCfb(data: seq<bv8>, iv: Block, keys: RoundKeys, sbox: Sbox) returns (out: seq<bv8>)
    ensures out == Chain(CfbDecryption(Encryptor(keys, sbox)), 16, iv, data)
  {
    hide Chain, EncryptBlock, Xor;
    ghost var step := CfbDecryption(Encryptor(keys, sbox));
    var prev := iv;
    out := [];
    var pos := 0;
    NoMoreChunks(step, 16, iv, data);
    while pos < |data|
      invariant 0 <= pos <= |data|
      invariant out + Chain(step, 16, prev, data[pos..]) == Chain(step, 16, iv, data)
    {
      NextChunk(step, 16, prev, data, pos);
      var end := if pos + 16 <= |data| then pos + 16 else |data|;
      var chunk := data[pos..end];
      var keystream := AesEncryptBlock128(prev, keys, sbox);
      var plain := XorChunk(chunk, keystream);
      assert Feedback(prev, chunk) == chunk + prev[|chunk|..];
      prev := chunk + prev[|chunk|..];
      out := out + plain;
      pos := end;
    }
    NoMoreChunks(step, 16, prev, data);
  }

  method DecryptOfb(data: seq<bv8>, iv: Block, keys: RoundKeys, sbox: Sbox) returns (out: seq<bv8>)
    ensures out == Chain(Ofb(Encryptor(keys, sbox)), 16, iv, data)
  {
    hide Chain, EncryptBlock, Xor;
    ghost var step := Ofb(Encryptor(keys, sbox));
    var prev := iv;
    out := [];
    var pos := 0;
    NoMoreChunks(step, 16, iv, data);
    while pos < |data|
      invariant 0 <= pos <= |data|
      invariant out + Chain(step, 16, prev, data[pos..]) == Chain(step, 16, iv, data)
    {
      NextChunk(step, 16, prev, data, pos);
      var end := if pos + 16 <= |data| then pos + 16 else |data|;
      prev := AesEncryptBlock128(prev, keys, sbox);
      var plain := XorChunk(data[pos..end], prev);
      out := out + plain;
      pos := end;
    }
    NoMoreChunks(step, 16, prev, data);
  }

  method NewCounter(mode: Mode, iv: seq<bv8>) returns (counter: array<bv8>)
    requires |iv| == 12 || |iv| == 16
    ensures fresh(counter) && counter.Length == 16 && counter[..] == FirstCounter(mode, iv)
  {
    hide Increment;
    counter := new bv8[16](i requires 0 <= i < 16 => if i < |iv| then iv[i] else 0);
    if |iv| == 12 {
      counter[15] := 1;
    }
    assert counter[..] == FirstCounter(CtrMode, iv);
    if mode.GcmMode? {
      IncrementBe(counter);
    }
  }

  /** Plaintext exactly when the key, the data length and the IV suit the mode. */
  method AesDecrypt(data: seq<bv8>, key: seq<bv8>, iv: Option<seq<bv8>>, mode: Mode, sbox: Sbox) returns (r: Outcome)
    ensures r == Opened(data, key, iv, mode, sbox)
    ensures r.Plain? <==>
            && |key| == 16 && data != [] && (mode.EcbMode? || mode.CbcMode? ==> |data| % 16 == 0) && !mode.OtherMode?
            && (!mode.EcbMode? ==> iv.Some?)
            && (mode.CbcMode? || mode.CfbMode? || mode.OfbMode? ==> |iv.value| == 16)
            && (mode.CtrMode? || mode.GcmMode? ==> |iv.value| == 12 || |iv.value| == 16)
    ensures r.Plain? <==> |key| == 16 && LengthFits(mode, data) && IvFits(mode, iv)
    ensures r.Plain? ==> r.data == Decrypted(data, key, iv, mode, sbox)
    ensures |key| != 16 ==> r == Refused(KeyLength)
    ensures |key| == 16 && data == [] ==> r == Refused(Empty)
    ensures |key| == 16 && data != [] && !LengthFits(mode, data) ==> r == Refused(NotWholeBlocks)
    ensures |key| == 16 && LengthFits(mode, data) && !IvFits(mode, iv) ==>
              r == Refused(if mode.OtherMode? then UnsupportedMode else if iv.None? then IvMissing else IvLength)
  {
    hide ExpandKey, Encryptor, Decryptor, Chain, Increment;
    hide Modes.Ecb, CbcDecryption, Ctr, CfbDecryption, Ofb;
    if |key| != 16 { return Refused(KeyLength); }
    if data == [] { return Refused(Empty); }
    var keys := AesKeyExpand128(key, sbox);
    var out;
    match mode {
      case EcbMode =>
        if |data| % 16 != 0 { return Refused(NotWholeBlocks); }
        out := DecryptEcb(data, keys, sbox);
      case CbcMode =>
        if |data| % 16 != 0 { return Refused(NotWholeBlocks); }
        if iv.None? { return Refused(IvMissing); }
        if |iv.value| != 16 { return Refused(IvLength); }
        out := DecryptCbc(data, iv.value, keys, sbox);
      case CtrMode | GcmMode =>
        if iv.None? { return Refused(IvMissing); }
        if |iv.value| != 16 && |iv.value| != 12 { return Refused(IvLength); }
        var counter := NewCounter(mode, iv.value);
        out := DecryptCtr(data, counter, keys, sbox);
      case CfbMode =>
        if iv.None? { return Refused(IvMissing); }
        if |iv.value| != 16 { return Refused(IvLength); }
        out := DecryptCfb(data, iv.value, keys, sbox);
      case OfbMode =>
        if iv.None? { return Refused(IvMissing); }
        if |iv.value| != 16 { return Refused(IvLength); }
        out := DecryptOfb(data, iv.value, keys, sbox);
      case OtherMode =>
        return Refused(UnsupportedMode);
    }
    return Plain(out);
  }
}
