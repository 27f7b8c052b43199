/** Raw DEFLATE streams given to the decoder that also takes gzip and zlib: when they are taken for what they are. */
module RawStreams {
  import opened BitReading
  import opened Containers
  import opened Deflate
  import opened Inflate
  import opened RoundTrip
  import opened Words

  /** The blocks make up the bits of `input`, whatever follows them. */
  ghost predicate IsRaw(input: seq<byte>, bs: seq<Block>, tail: seq<bool>) {
    StreamOk(bs, 0, []) && StreamBits(input) == DeflateBits(bs, 0, []) + tail
  }

  /** A non-final stored block whose padding begins with a one, and whose first two bytes are a multiple of 31. */
  predicate TakenForZlib(bs: seq<Block>) {
    && |bs| > 1 && bs[0].Stored? && |bs[0].pad| > 0 && bs[0].pad[0]
    && (2048 * Val(bs[0].pad) + |bs[0].data| % 256) % 31 == 0
  }

  /** The bits of the stream: the final mark, the block type, the block, and what follows. */
  lemma StreamStarts(input: seq<byte>, bs: seq<Block>, tail: seq<bool>)
    requires IsRaw(input, bs, tail)
    ensures bs != [] && BlockOk(bs[0], 0, []) && input != []
    ensures StreamBits(input)[..3] == [|bs| == 1, bs[0].Fixed?, bs[0].Dynamic?]
    ensures BlockBits(bs[0], 0, []) <= StreamBits(input)[3..]
  {
    hide BlockOk, DeflateBits, MoreBits, BlockBits, BlockType, BitsOf;
    DeflateBitsIs(bs, 0, [], tail);
    TypeOf(bs[0]);
    FinalBit(|bs| == 1);
    hide *;
    StartOf([|bs| == 1], [bs[0].Fixed?, bs[0].Dynamic?], BlockBits(bs[0], 0, []), MoreBits(bs, 0, []) + tail);
  }

  lemma FinalBit(final: bool)
    ensures BitsOf(if final then 1 else 0, 1) == [final]
  {
  }

  lemma StartOf(a: seq<bool>, t: seq<bool>, block: seq<bool>, rest: seq<bool>)
    requires |a| == 1 && |t| == 2
    ensures (a + (t + (block + rest)))[..3] == a + t && block <= (a + (t + (block + rest)))[3..]
  {
    assert (a + (t + (block + rest)))[3..] == block + rest;
  }

  lemma TypeOf(b: Block)
    ensures BitsOf(BlockType(b), 2) == [b.Fixed?, b.Dynamic?]
  {
  }

  lemma ByteThenRest(input: seq<byte>)
    requires input != []
    ensures StreamBits(input) == BitsOf(input[0], 8) + StreamBits(input[1..])
  {
    hide BitsOf;
  }

  lemma BytesOfBits(input: seq<byte>)
    requires input != []
    ensures StreamBits(input)[..8] == BitsOf(input[0], 8)
    ensures |input| >= 2 ==> StreamBits(input)[8..16] == BitsOf(input[1], 8)
  {
    ByteThenRest(input);
    if |input| >= 2 { ByteThenRest(input[1..]); }
    hide *;
    if |input| >= 2 {
      assert input[1..][0] == input[1];
      TwoBytes(BitsOf(input[0], 8), BitsOf(input[1], 8), StreamBits(input[1..][1..]));
    }
  }

  lemma TwoBytes(a: seq<bool>, b: seq<bool>, rest: seq<bool>)
    requires |a| == |b| == 8
    ensures (a + (b + rest))[8..16] == b
  {
  }

  lemma BitsOfByte(x: byte)
    ensures var b := BitsOf(x, 8);
            && (b[0] <==> x % 2 == 1) && (b[1] <==> x / 2 % 2 == 1) && (b[2] <==> x / 2 / 2 % 2 == 1)
            && (b[3] <==> x / 2 / 2 / 2 % 2 == 1)
  {
    assert BitsOf(x, 8) == [x % 2 == 1] + BitsOf(x / 2, 7);
    assert BitsOf(x / 2, 7) == [x / 2 % 2 == 1] + BitsOf(x / 2 / 2, 6);
    assert BitsOf(x / 2 / 2, 6) == [x / 2 / 2 % 2 == 1] + BitsOf(x / 2 / 2 / 2, 5);
  }

  /** The first byte tells the kind of the first block and whether it is the last. */
  lemma FirstByte(input: seq<byte>, bs: seq<Block>, tail: seq<bool>)
    requires IsRaw(input, bs, tail)
    ensures bs != [] && input != []
    ensures input[0] % 2 == 1 <==> |bs| == 1
    ensures input[0] / 2 % 2 == 1 <==> bs[0].Fixed?
    ensures input[0] / 2 / 2 % 2 == 1 <==> bs[0].Dynamic?
  {
    StreamStarts(input, bs, tail);
    BytesOfBits(input);
    BitsOfByte(input[0]);
    hide *;
    var bits, b := StreamBits(input), BitsOf(input[0], 8);
    assert b[0] == bits[..3][0] && b[1] == bits[..3][1] && b[2] == bits[..3][2];
  }

  /** A stored block: its padding fills the first byte, its length begins in the second. */
  lemma StoredBytes(input: seq<byte>, bs: seq<Block>, tail: seq<bool>)
    requires IsRaw(input, bs, tail) && bs != [] && bs[0].Stored?
    ensures |bs[0].pad| == 5 && |input| >= 2
    ensures input[0] / 2 / 2 / 2 % 2 == 1 <==> bs[0].pad[0]
    ensures |bs| > 1 ==> input[0] == 8 * Val(bs[0].pad)
    ensures input[1] == |bs[0].data| % 256
  {
    StreamStarts(input, bs, tail);
    StoredPad(bs[0], []);
    BytesOfBits(input);
    BitsOfByte(input[0]);
    hide *;
    var bits, b, pad, n := StreamBits(input), BitsOf(input[0], 8), bs[0].pad, |bs[0].data|;
    assert bits[3..8] == BlockBits(bs[0], 0, [])[..5];
    assert bits[8..16] == BlockBits(bs[0], 0, [])[5..13];
    assert b == bits[..3] + pad;
    ByteBack(input[0]);
    ByteBack(input[1]);
    if |bs| > 1 { ThreeZeros(pad); }
    ValBitsOfLow(n, 8);
    LowByteIs(n);
  }

  lemma ByteBack(x: byte)
    ensures Val(BitsOf(x, 8)) == x
  {
    assert Pow2(8) == 256;
    ValBitsOf(x, 8);
  }

  lemma StoredPad(b: Block, out: seq<byte>)
    requires b.Stored? && BlockOk(b, 0, out)
    ensures |b.pad| == 5 && |BlockBits(b, 0, out)| >= 37
    ensures BlockBits(b, 0, out)[..5] == b.pad && BlockBits(b, 0, out)[5..13] == BitsOf(|b.data|, 8)
  {
    hide StreamBits;
    BitsOfSplit(|b.data|, 8, 8);
  }

  /** Block type 3 does not exist, so no stream begins like gzip. */
  lemma NeverGzip(input: seq<byte>, bs: seq<Block>, tail: seq<bool>)
    requires IsRaw(input, bs, tail)
    ensures input != [] && input[0] != 0x1f
  {
    FirstByte(input, bs, tail);
    hide *;
    if input[0] == 0x1f { TypeThree(input[0]); }
  }

  lemma TypeThree(x: nat)
    requires x == 0x1f
    ensures x / 2 % 2 == 1 && x / 2 / 2 % 2 == 1
  {
  }

  /** It begins like zlib exactly on a non-final stored block with a one for its first padding bit. */
  lemma MethodNibble(input: seq<byte>, bs: seq<Block>, tail: seq<bool>)
    requires IsRaw(input, bs, tail)
    ensures bs != [] && input != []
    ensures input[0] % 16 == 8 <==> |bs| > 1 && bs[0].Stored? && |bs[0].pad| > 0 && bs[0].pad[0]
  {
    FirstByte(input, bs, tail);
    if bs[0].Stored? { StoredBytes(input, bs, tail); }
    hide *;
    NibbleBits(input[0]);
  }

  lemma NibbleBits(x: nat)
    ensures x % 16 == 8 <==> x % 2 == 0 && x / 2 % 2 == 0 && x / 2 / 2 % 2 == 0 && x / 2 / 2 / 2 % 2 == 1
  {
    Sixteen(x);
    Sixteen(x / 4);
  }

  lemma ThreeZeros(b: seq<bool>)
    ensures Val([false, false, false] + b) == 8 * Val(b)
  {
    var c: seq<bool> := [false] + b;
    var d: seq<bool> := [false] + c;
    var e: seq<bool> := [false] + d;
    assert c[1..] == b && d[1..] == c && e[1..] == d;
    assert Val(c) == 2 * Val(b) && Val(d) == 2 * Val(c) && Val(e) == 2 * Val(d);
    assert e == [false, false, false] + b;
  }

  /** A raw stream is inflated as it is, unless it begins like a zlib header. */
  lemma RawPassesIff(input: seq<byte>, bs: seq<Block>, tail: seq<bool>)
    requires IsRaw(input, bs, tail)
    ensures AutoPayload(input) == Ok(input) <==> !TakenForZlib(bs)
  {
    NeverGzip(input, bs, tail);
    MethodNibble(input, bs, tail);
    if bs[0].Stored? { StoredBytes(input, bs, tail); }
    hide IsRaw, Flag, And, Or, HighByte, Val;
    if |input| >= 2 { ZlibChecks(input[0], input[1]); }
  }

  /** A raw stream that does not begin like a zlib header is inflated to what its blocks stand for. */
  lemma AutoReadsRaw(input: seq<byte>, bs: seq<Block>, tail: seq<bool>)
    requires IsRaw(input, bs, tail) && !TakenForZlib(bs)
    ensures AutoPayload(input) == Ok(input)
    ensures InflateBits(StreamBits(input), []) ==
            if WithinCap(bs, 0, []) then Ok(Inflated(bs, 0, [])) else Err(OutputTooLarge)
  {
    hide *;
    RawPassesIff(input, bs, tail);
    IsRawMeans(input, bs, tail);
    InflateUndoesDeflate(input, bs, tail);
  }

  lemma IsRawMeans(input: seq<byte>, bs: seq<Block>, tail: seq<bool>)
    requires IsRaw(input, bs, tail)
    ensures StreamOk(bs, 0, []) && StreamBits(input) == DeflateBits(bs, 0, []) + tail
  {
    hide StreamOk, StreamBits, DeflateBits;
  }

  /** One stored byte, its padding set as 78 hex, then an empty final block. */
  function PaddedBlocks(b: byte): seq<Block> {
    [Stored([true, true, true, true, false], [b]), Stored([false, false, false, false, false], [])]
  }

  /** A stream of the format that is taken for zlib: its payload starts two bytes late. */
  lemma RawMistaken(b: byte) returns (input: seq<byte>)
    ensures IsRaw(input, PaddedBlocks(b), []) && AutoPayload(input) != Ok(input)
  {
    var bs := PaddedBlocks(b);
    PaddedOk(b);
    var bits := DeflateBits(bs, 0, []);
    input := Pack(bits);
    assert bits + [] == bits;
    assert TakenForZlib(bs) by { PaddedTaken(b); }
    RawPassesIff(input, bs, []);
  }

  lemma PaddedTaken(b: byte)
    ensures TakenForZlib(PaddedBlocks(b))
  {
    var p: seq<bool> := [true, true, true, true, false];
    assert p[1..] == [true, true, true, false] && p[1..][1..] == [true, true, false];
    assert p[1..][1..][1..] == [true, false] && p[1..][1..][1..][1..] == [false];
    assert Val([false]) == 0;
    assert Val(p) == 15;
  }

  lemma PaddedOk(b: byte)
    ensures StreamOk(PaddedBlocks(b), 0, []) && |DeflateBits(PaddedBlocks(b), 0, [])| % 8 == 0
  {
    var bs := PaddedBlocks(b);
    assert BlockOk(bs[0], 0, []);
    assert BlockEnd(bs[0], 0, []) == 48;
    assert BlockOk(bs[1], 48, [b]);
    assert bs[1..] == [bs[1]];
    assert StreamOk(bs[1..], 48, [b]);
  }
}
