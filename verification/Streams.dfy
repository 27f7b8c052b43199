/** Adding a keystream to data, byte by byte. */
module Streams {
  import opened Words

  function XorByte(a: byte, b: byte): byte {
    XorBound(a, b, 8);
    assert Pow2(8) == 256;
    Xor(a, b)
  }

  lemma XorByteTwice(a: byte, b: byte)
    ensures XorByte(XorByte(a, b), b) == a
  {
    XorCancel(a, b);
  }

  /** Data added to a keystream at least as long. */
  function XorBytes(data: seq<byte>, stream: seq<byte>): (r: seq<byte>)
    requires |data| <= |stream|
    ensures |r| == |data|
  {
    seq(|data|, i requires 0 <= i < |data| => XorByte(data[i], stream[i]))
  }

  /** Adding the same keystream twice changes nothing. */
  lemma XorBytesTwice(data: seq<byte>, stream: seq<byte>)
    requires |data| <= |stream|
    ensures XorBytes(XorBytes(data, stream), stream) == data
  {
    hide XorByte;
    forall i | 0 <= i < |data|
      ensures XorBytes(XorBytes(data, stream), stream)[i] == data[i]
    {
      XorByteTwice(data[i], stream[i]);
    }
  }
}
