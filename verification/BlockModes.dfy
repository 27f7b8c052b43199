/** ECB and CBC over eight-byte blocks, and the DES, Triple-DES and Blowfish decryptions built on them. */
module BlockModes {
  import opened Modes
  import opened Options
  import Des
  import Blowfish

  datatype BlockMode = EcbMode | CbcMode | OtherMode

  type Block8 = s: seq<bv8> | |s| == 8 witness [0, 0, 0, 0, 0, 0, 0, 0]

  const ZERO: Block8 := [0, 0, 0, 0, 0, 0, 0, 0]

  predicate Accepts(mode: BlockMode, data: seq<bv8>, iv: Option<seq<bv8>>) {
    data != [] && |data| % 8 == 0 &&
    match mode
    case EcbMode => true
    case CbcMode => iv.Some? && |iv.value| == 8
    case OtherMode => false
  }

  function Refuse(mode: BlockMode, data: seq<bv8>, iv: Option<seq<bv8>>): Refusal {
    if data == [] then Empty
    else if |data| % 8 != 0 then NotWholeBlocks
    else if mode.OtherMode? then UnsupportedMode
    else if iv.None? then IvMissing
    else IvLength
  }

  function Deciphered(mode: BlockMode, data: seq<bv8>, iv: Option<seq<bv8>>, d: Transform): seq<bv8>
    requires Accepts(mode, data, iv)
  {
    if mode.EcbMode? then Chain(Ecb(d), 8, ZERO, data) else Chain(CbcDecryption(d), 8, iv.value, data)
  }

  /** Sections 6.1 and 6.2 of NIST SP 800-38A, encrypting. */
  function Enciphered(mode: BlockMode, data: seq<bv8>, iv: Option<seq<bv8>>, e: Transform): seq<bv8>
    requires Accepts(mode, data, iv)
  {
    if mode.EcbMode? then Chain(Ecb(e), 8, ZERO, data) else Chain(CbcEncryption(e), 8, iv.value, data)
  }

  /** Whole messages come back, for any block cipher on eight bytes. */
  lemma ModeUndone(mode: BlockMode, p: seq<bv8>, iv: Option<seq<bv8>>, e: Transform, d: Transform)
    requires Accepts(mode, p, iv) && BlockInverse(e, d, 8)
    ensures Accepts(mode, Enciphered(mode, p, iv, e), iv)
    ensures Deciphered(mode, Enciphered(mode, p, iv, e), iv, d) == p
  {
    if mode.EcbMode? {
      EcbUndoes(e, d, 8, ZERO, p);
    } else {
      CbcUndoes(e, d, 8, iv.value, p);
    }
  }

  /** Byte `i` of block `b`: the decrypted block, in CBC with the block before or the IV added. */
  lemma DecipheredByte(mode: BlockMode, data: seq<bv8>, iv: Option<seq<bv8>>, d: Transform, b: nat, i: nat)
    requires Accepts(mode, data, iv) && OnBlocks(d, 8) && i < 8 && 8 * b + 8 <= |data|
    ensures |Deciphered(mode, data, iv, d)| == |data|
    ensures mode.EcbMode? ==> Deciphered(mode, data, iv, d)[8 * b + i] == d(data[8 * b..8 * b + 8])[i]
    ensures mode.CbcMode? ==>
              Deciphered(mode, data, iv, d)[8 * b + i] ==
              Plus(d(data[8 * b..8 * b + 8])[i], if b == 0 then iv.value[i] else data[8 * b - 8 + i])
  {
    hide Chain, Plus;
    assert b * 8 == 8 * b;
    if mode.EcbMode? {
      EcbByte(d, 8, ZERO, data, b, i);
    } else {
      CbcByte(d, 8, iv.value, data, b, i);
    }
  }

  /** The three block functions are the ciphers in the direction asked for. */
  lemma TransformsAre(b: Block8, k1: Des.KeySchedule, k2: Des.KeySchedule, k3: Des.KeySchedule, decrypt: bool,
                      f: Des.RoundFunction, p: Blowfish.Subkeys, s: Blowfish.Boxes)
    ensures DesTransform(k1, decrypt, f)(b) == Des.DesCrypt(b, k1, decrypt, f)
    ensures TripleDesTransform(k1, k2, k3, true, f)(b) ==
            Des.DesCrypt(Des.DesCrypt(Des.DesCrypt(b, k3, true, f), k2, false, f), k1, true, f)
    ensures TripleDesTransform(k1, k2, k3, false, f)(b) ==
            Des.DesCrypt(Des.DesCrypt(Des.DesCrypt(b, k1, false, f), k2, true, f), k3, false, f)
    ensures BlowfishTransform(p, s, decrypt)(b) ==
            if decrypt then Blowfish.DecryptBlock(p, s, b) else Blowfish.EncryptBlock(p, s, b)
  {
    hide Des.DesCrypt, Blowfish.EncryptBlock, Blowfish.DecryptBlock;
  }

  /** The source's generic mode, for any block decryption. */
  method DecryptBlockMode(data: seq<bv8>, iv: Option<seq<bv8>>, mode: BlockMode, d: Transform) returns (r: Outcome)
    requires OnBlocks(d, 8)
    ensures r == if Accepts(mode, data, iv) then Plain(Deciphered(mode, data, iv, d))
            else Refused(Refuse(mode, data, iv))
    ensures data == [] ==> r == Refused(Empty)
    ensures |data| % 8 != 0 ==> r == Refused(NotWholeBlocks)
    ensures data != [] && |data| % 8 == 0 ==>
              match mode
              case EcbMode => r.Plain?
              case CbcMode => if iv.None? then r == Refused(IvMissing)
                              else if |iv.value| != 8 then r == Refused(IvLength) else r.Plain?
              case OtherMode => r == Refused(UnsupportedMode)
  {
    hide Chain, Xor;
    if data == [] { return Refused(Empty); }
    if |data| % 8 != 0 { return Refused(NotWholeBlocks); }
    match mode {
      case EcbMode =>
        var out := EcbLoop(data, d);
        return Plain(out);
      case CbcMode =>
        if iv.None? { return Refused(IvMissing); }
        if |iv.value| != 8 { return Refused(IvLength); }
        var out := CbcLoop(data, iv.value, d);
        return Plain(out);
      case OtherMode =>
        return Refused(UnsupportedMode);
    }
  }

  method EcbLoop(data: seq<bv8>, d: Transform) returns (out: seq<bv8>)
    requires |data| % 8 == 0
    ensures out == Chain(Ecb(d), 8, ZERO, data)
  {
    hide Chain;
    out := [];
    var pos := 0;
    NoMoreChunks(Ecb(d), 8, ZERO, data);
    while pos < |data|
      invariant 0 <= pos <= |data| && pos % 8 == 0
      invariant out + Chain(Ecb(d), 8, ZERO, data[pos..]) == Chain(Ecb(d), 8, ZERO, data)
    {
      NextChunk(Ecb(d), 8, ZERO, data, pos);
      out := out + d(data[pos..pos + 8]);
      pos := pos + 8;
    }
  }

  method CbcLoop(data: seq<bv8>, iv: Block8, d: Transform) returns (out: seq<bv8>)
    requires |data| % 8 == 0 && OnBlocks(d, 8)
    ensures out == Chain(CbcDecryption(d), 8, iv, data)
  {
    hide Chain, Xor;
    out := [];
    var prev, pos := iv, 0;
    NoMoreChunks(CbcDecryption(d), 8, iv, data);
    while pos < |data|
      invariant 0 <= pos <= |data| && pos % 8 == 0
      invariant out + Chain(CbcDecryption(d), 8, prev, data[pos..]) == Chain(CbcDecryption(d), 8, iv, data)
    {
      NextChunk(CbcDecryption(d), 8, prev, data, pos);
      var encrypted: Block8 := data[pos..pos + 8];
      var plain := XorChunk(d(encrypted), prev);
      out := out + plain;
      prev := encrypted;
      pos := pos + 8;
    }
    NoMoreChunks(CbcDecryption(d), 8, prev, data);
  }

  // ----- the three ciphers -----

  function DesTransform(keys: Des.KeySchedule, decrypt: bool, f: Des.RoundFunction): Transform {
    (b: seq<bv8>) => if |b| == 8 then Des.DesCrypt(b, keys, decrypt, f) else b
  }

  function TripleDesTransform(k1: Des.KeySchedule, k2: Des.KeySchedule, k3: Des.KeySchedule, decrypt: bool,
                              f: Des.RoundFunction): Transform
  {
    (b: seq<bv8>) => if |b| != 8 then b
                     else if decrypt then Des.TripleDesDecrypt(b, k1, k2, k3, f)
                     else Des.TripleDesEncrypt(b, k1, k2, k3, f)
  }

  function BlowfishTransform(p: Blowfish.Subkeys, s: Blowfish.Boxes, decrypt: bool): Transform {
    (b: seq<bv8>) => if |b| != 8 then b
                     else if decrypt then Blowfish.DecryptBlock(p, s, b)
                     else Blowfish.EncryptBlock(p, s, b)
  }

  lemma DesInverse(keys: Des.KeySchedule, f: Des.RoundFunction)
    requires Des.Yields(f, 32)
    ensures BlockInverse(DesTransform(keys, false, f), DesTransform(keys, true, f), 8)
  {
    hide Des.DesCrypt, Des.Yields;
    forall b: seq<bv8> | |b| == 8
      ensures DesTransform(keys, true, f)(DesTransform(keys, false, f)(b)) == b
    {
      Des.DesDecryptUndoesEncrypt(b, keys, f);
    }
  }

  lemma TripleDesInverse(k1: Des.KeySchedule, k2: Des.KeySchedule, k3: Des.KeySchedule, f: Des.RoundFunction)
    requires Des.Yields(f, 32)
    ensures BlockInverse(TripleDesTransform(k1, k2, k3, false, f), TripleDesTransform(k1, k2, k3, true, f), 8)
  {
    hide Des.TripleDesEncrypt, Des.TripleDesDecrypt, Des.Yields;
    forall b: seq<bv8> | |b| == 8
      ensures TripleDesTransform(k1, k2, k3, true, f)(TripleDesTransform(k1, k2, k3, false, f)(b)) == b
    {
      Des.TripleDesUndone(b, k1, k2, k3, f);
    }
  }

  lemma BlowfishInverse(p: Blowfish.Subkeys, s: Blowfish.Boxes)
    ensures BlockInverse(BlowfishTransform(p, s, false), BlowfishTransform(p, s, true), 8)
  {
    hide Blowfish.EncryptBlock, Blowfish.DecryptBlock;
    forall b: seq<bv8> | |b| == 8
      ensures BlowfishTransform(p, s, true)(BlowfishTransform(p, s, false)(b)) == b
    {
      Blowfish.BlockUndone(p, s, b);
    }
  }

  // ----- keys, and the three decryptions of the source -----

  /** The three DES keys: a 16-byte key uses its first half twice. */
  function KeyParts(key: seq<bv8>): (seq<bv8>, seq<bv8>, seq<bv8>)
    requires |key| == 16 || |key| == 24
  {
    (key[..8], key[8..16], if |key| == 16 then key[..8] else key[16..24])
  }

  type Scheduler = seq<bv8> -> Des.KeySchedule

  type Setup = seq<bv8> -> (Blowfish.Subkeys, Blowfish.Boxes)

  /** A cipher on eight bytes, with its key set-up and tables. */
  datatype BlockCipher =
    | DesCipher(schedule: Scheduler, f: Des.RoundFunction)
    | TripleDesCipher(schedule: Scheduler, f: Des.RoundFunction)
    | BlowfishCipher(setup: Setup)

  ghost predicate CipherOk(c: BlockCipher) {
    c.BlowfishCipher? || Des.Yields(c.f, 32)
  }

  predicate KeyFits(c: BlockCipher, key: seq<bv8>) {
    match c
    case DesCipher(_, _) => |key| == 8
    case TripleDesCipher(_, _) => |key| == 16 || |key| == 24
    case BlowfishCipher(_) => 1 <= |key| <= 56
  }

  /** The block function under a key, in one direction or the other. */
  function Keyed(c: BlockCipher, key: seq<bv8>, decrypt: bool): Transform
    requires KeyFits(c, key)
  {
    match c
    case DesCipher(schedule, f) => DesTransform(schedule(key), decrypt, f)
    case TripleDesCipher(schedule, f) =>
      var (k1, k2, k3) := KeyParts(key);
      TripleDesTransform(schedule(k1), schedule(k2), schedule(k3), decrypt, f)
    case BlowfishCipher(setup) => BlowfishTransform(setup(key).0, setup(key).1, decrypt)
  }

  lemma KeyedInverse(c: BlockCipher, key: seq<bv8>)
    requires CipherOk(c) && KeyFits(c, key)
    ensures BlockInverse(Keyed(c, key, false), Keyed(c, key, true), 8)
  {
    hide Des.Yields, DesTransform, TripleDesTransform, BlowfishTransform, BlockInverse;
    match c
    case DesCipher(schedule, f) => DesInverse(schedule(key), f);
    case TripleDesCipher(schedule, f) =>
      var (k1, k2, k3) := KeyParts(key);
      TripleDesInverse(schedule(k1), schedule(k2), schedule(k3), f);
    case BlowfishCipher(setup) => BlowfishInverse(setup(key).0, setup(key).1);
  }

  lemma KeyedOnBlocks(c: BlockCipher, key: seq<bv8>)
    requires KeyFits(c, key)
    ensures OnBlocks(Keyed(c, key, true), 8)
  {
    hide Des.DesCrypt, Des.TripleDesDecrypt, Des.TripleDesEncrypt, Blowfish.EncryptBlock, Blowfish.DecryptBlock;
  }

  /** What decryption under a key gives, or why it refuses. */
  function Opened(c: BlockCipher, data: seq<bv8>, key: seq<bv8>, iv: Option<seq<bv8>>, mode: BlockMode): Outcome {
    if !KeyFits(c, key) then Refused(KeyLength)
    else if Accepts(mode, data, iv) then Plain(Deciphered(mode, data, iv, Keyed(c, key, true)))
    else Refused(Refuse(mode, data, iv))
  }

  /** Whatever was encrypted under a key, IV and mode that fit is decrypted under them. */
  lemma OpensSealed(c: BlockCipher, p: seq<bv8>, key: seq<bv8>, iv: Option<seq<bv8>>, mode: BlockMode)
    requires CipherOk(c) && KeyFits(c, key) && Accepts(mode, p, iv)
    ensures Opened(c, Enciphered(mode, p, iv, Keyed(c, key, false)), key, iv, mode) == Plain(p)
  {
    hide CipherOk, KeyFits, Keyed, Deciphered, Enciphered, BlockInverse;
    KeyedInverse(c, key);
    ModeUndone(mode, p, iv, Keyed(c, key, false), Keyed(c, key, true));
  }

  method DesDecryptData(data: seq<bv8>, key: seq<bv8>, iv: Option<seq<bv8>>, mode: BlockMode, schedule: Scheduler,
                        f: Des.RoundFunction) returns (r: Outcome)
    ensures r == Opened(DesCipher(schedule, f), data, key, iv, mode)
    ensures |key| != 8 ==> r == Refused(KeyLength)
    ensures |key| == 8 && Accepts(mode, data, iv) ==>
              r == Plain(Deciphered(mode, data, iv, DesTransform(schedule(key), true, f)))
  {
    hide Deciphered, DesTransform, Refuse;
    if |key| != 8 { return Refused(KeyLength); }
    KeyedOnBlocks(DesCipher(schedule, f), key);
    r := DecryptBlockMode(data, iv, mode, DesTransform(schedule(key), true, f));
  }

  /** In particular it decrypts exactly what encrypt-decrypt-encrypt made under the same key, IV and mode. */
  method TripleDesDecryptData(data: seq<bv8>, key: seq<bv8>, iv: Option<seq<bv8>>, mode: BlockMode, schedule: Scheduler,
                              f: Des.RoundFunction) returns (r: Outcome)
    ensures r == Opened(TripleDesCipher(schedule, f), data, key, iv, mode)
    ensures (|key| == 16 || |key| == 24) && Accepts(mode, data, iv) ==>
              var last := if |key| == 24 then key[16..24] else key[0..8];
              r == Plain(Deciphered(mode, data, iv,
                     TripleDesTransform(schedule(key[0..8]), schedule(key[8..16]), schedule(last), true, f)))
    ensures |key| != 16 && |key| != 24 ==> r == Refused(KeyLength)
    ensures (|key| == 16 || |key| == 24) && !Accepts(mode, data, iv) ==> r == Refused(Refuse(mode, data, iv))
    ensures Des.Yields(f, 32) && (|key| == 16 || |key| == 24) ==>
              var (a, b, c) := KeyParts(key);
              var e := TripleDesTransform(schedule(a), schedule(b), schedule(c), false, f);
              forall p: seq<bv8> :: Accepts(mode, p, iv) && data == Enciphered(mode, p, iv, e) ==> r == Plain(p)
  {
    hide Deciphered, Enciphered, Des.Yields, TripleDesTransform, Refuse;
    if |key| != 16 && |key| != 24 { return Refused(KeyLength); }
    ghost var cipher := TripleDesCipher(schedule, f);
    var k3 := if |key| == 16 then key[..8] else key[16..24];
    var s1, s2, s3 := schedule(key[..8]), schedule(key[8..16]), schedule(k3);
    assert key[0..8] == key[..8];
    KeyedOnBlocks(cipher, key);
    r := DecryptBlockMode(data, iv, mode, TripleDesTransform(s1, s2, s3, true, f));
    forall p: seq<bv8> |
      CipherOk(cipher) && Accepts(mode, p, iv) && data == Enciphered(mode, p, iv, Keyed(cipher, key, false))
      ensures r == Plain(p)
    {
      OpensSealed(cipher, p, key, iv, mode);
    }
  }

  method BlowfishDecryptData(data: seq<bv8>, key: seq<bv8>, iv: Option<seq<bv8>>, mode: BlockMode, setup: Setup)
    returns (r: Outcome)
    ensures r == Opened(BlowfishCipher(setup), data, key, iv, mode)
    ensures |key| == 0 || |key| > 56 ==> r == Refused(KeyLength)
    ensures 1 <= |key| <= 56 && Accepts(mode, data, iv) ==>
              r == Plain(Deciphered(mode, data, iv, BlowfishTransform(setup(key).0, setup(key).1, true)))
  {
    hide Deciphered, BlowfishTransform, Refuse;
    if |key| < 1 || |key| > 56 { return Refused(KeyLength); }
    KeyedOnBlocks(BlowfishCipher(setup), key);
    var (p, s) := setup(key);
    r := DecryptBlockMode(data, iv, mode, BlowfishTransform(p, s, true));
  }
}
