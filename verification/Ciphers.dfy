/** The block ciphers as operations on bytes: what each decrypts, and the encryption that it undoes. */
module Ciphers {
  import opened Counter
  import opened Modes
  import opened Options
  import opened Words
  import Aes
  import AesModes
  import BlockModes

  // ----- bytes as numbers and as bit vectors -----

  function ToBits(data: seq<byte>): (r: seq<bv8>)
    ensures |r| == |data|
  {
    seq(|data|, i requires 0 <= i < |data| => ToByte(data[i]))
  }

  function FromBits(data: seq<bv8>): (r: seq<byte>)
    ensures |r| == |data|
  {
    seq(|data|, i requires 0 <= i < |data| => data[i] as int)
  }

  function OptionBits(iv: Option<seq<byte>>): Option<seq<bv8>> {
    if iv.None? then None else Some(ToBits(iv.value))
  }

  lemma FromToBits(data: seq<byte>)
    ensures FromBits(ToBits(data)) == data
  {
    hide ToByte;
    forall i | 0 <= i < |data|
      ensures FromBits(ToBits(data))[i] == data[i]
    {
      ByteValue(data[i]);
    }
  }

  lemma ToFromBits(data: seq<bv8>)
    ensures ToBits(FromBits(data)) == data
  {
    hide ToByte;
    forall i | 0 <= i < |data|
      ensures ToBits(FromBits(data))[i] == data[i]
    {
      ByteBack(data[i]);
    }
  }

  // ----- the ciphers -----

  /** A cipher in a mode, with its tables. */
  datatype Cipher =
    | AesCipher(mode: AesModes.Mode, sbox: Aes.Sbox)
    | EightByteCipher(blockMode: BlockModes.BlockMode, cipher: BlockModes.BlockCipher)

  /** The tables are ones that a cipher can be undone with. */
  ghost predicate CipherOk(c: Cipher) {
    match c
    case AesCipher(_, sbox) => Aes.IsPermutation(sbox)
    case EightByteCipher(_, cipher) => BlockModes.CipherOk(cipher)
  }

  /** The key, the IV and the length of the plaintext suit the cipher. */
  predicate Suits(c: Cipher, key: seq<byte>, iv: Option<seq<byte>>, plain: seq<byte>) {
    match c
    case AesCipher(mode, _) =>
      |key| == 16 && AesModes.IvFits(mode, OptionBits(iv)) && AesModes.LengthFits(mode, ToBits(plain))
    case EightByteCipher(mode, cipher) =>
      BlockModes.KeyFits(cipher, ToBits(key)) && BlockModes.Accepts(mode, ToBits(plain), OptionBits(iv))
  }

  function Sealed(c: Cipher, key: seq<byte>, iv: Option<seq<byte>>, plain: seq<byte>): seq<byte>
    requires Suits(c, key, iv, plain)
  {
    match c
    case AesCipher(mode, sbox) =>
      FromBits(AesModes.Encrypted(ToBits(plain), ToBits(key), OptionBits(iv), mode, sbox))
    case EightByteCipher(mode, cipher) =>
      FromBits(BlockModes.Enciphered(mode, ToBits(plain), OptionBits(iv), BlockModes.Keyed(cipher, ToBits(key), false)))
  }

  function Opened(c: Cipher, key: seq<byte>, iv: Option<seq<byte>>, data: seq<byte>): Outcome {
    match c
    case AesCipher(mode, sbox) => AesModes.Opened(ToBits(data), ToBits(key), OptionBits(iv), mode, sbox)
    case EightByteCipher(mode, cipher) =>
      BlockModes.Opened(cipher, ToBits(data), ToBits(key), OptionBits(iv), mode)
  }

  /** Under a key and IV that suit it, every cipher opens what it sealed. */
  lemma OpensSealed(c: Cipher, key: seq<byte>, iv: Option<seq<byte>>, plain: seq<byte>)
    requires CipherOk(c) && Suits(c, key, iv, plain)
    ensures Opened(c, key, iv, Sealed(c, key, iv, plain)) == Plain(ToBits(plain))
  {
    hide ToBits, FromBits, Aes.IsPermutation, AesModes.Encrypted, AesModes.Opened, AesModes.IvFits, AesModes.LengthFits;
    hide BlockModes.CipherOk, BlockModes.KeyFits, BlockModes.Accepts, BlockModes.Opened, BlockModes.Enciphered,
      BlockModes.Keyed;
    match c
    case AesCipher(mode, sbox) =>
      ToFromBits(AesModes.Encrypted(ToBits(plain), ToBits(key), OptionBits(iv), mode, sbox));
      AesModes.OpensSealed(ToBits(plain), ToBits(key), OptionBits(iv), mode, sbox);
    case EightByteCipher(mode, cipher) =>
      var e := BlockModes.Keyed(cipher, ToBits(key), false);
      ToFromBits(BlockModes.Enciphered(mode, ToBits(plain), OptionBits(iv), e));
      BlockModes.OpensSealed(cipher, ToBits(plain), ToBits(key), OptionBits(iv), mode);
  }

  method Decipher(c: Cipher, key: seq<byte>, iv: Option<seq<byte>>, data: seq<byte>) returns (r: Outcome)
    ensures r == Opened(c, key, iv, data)
  {
    hide AesModes.Opened, BlockModes.Opened, ToBits;
    match c {
      case AesCipher(mode, sbox) =>
        r := AesModes.AesDecrypt(ToBits(data), ToBits(key), OptionBits(iv), mode, sbox);
      case EightByteCipher(mode, cipher) =>
        match cipher {
          case DesCipher(schedule, f) =>
            r := BlockModes.DesDecryptData(ToBits(data), ToBits(key), OptionBits(iv), mode, schedule, f);
          case TripleDesCipher(schedule, f) =>
            r := BlockModes.TripleDesDecryptData(ToBits(data), ToBits(key), OptionBits(iv), mode, schedule, f);
          case BlowfishCipher(setup) =>
            r := BlockModes.BlowfishDecryptData(ToBits(data), ToBits(key), OptionBits(iv), mode, setup);
        }
    }
  }
}
