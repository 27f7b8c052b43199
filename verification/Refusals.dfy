/** What the inflater refuses, and the cap on its output, in numbers. */
module Refusals {
  import opened BitReading
  import opened Canonical
  import opened Deflate
  import opened HuffmanDecode
  import opened HuffmanTable
  import opened Inflate
  import opened RoundTrip
  import opened Words

  // ----- the cap: 64 MiB before the last block -----

  lemma {:induction false} TokensGrow(ts: seq<Token>, out: seq<byte>)
    requires AllApply(ts, out)
    ensures |out| <= |ExpandAll(ts, out)|
    decreases |ts|
  {
    hide Applies, CopyOf;
    if ts != [] { TokensGrow(ts[1..], Expand(ts[0], out)); }
  }

  lemma BlockGrows(b: Block, pos: nat, out: seq<byte>)
    requires BlockOk(b, pos, out)
    ensures |out| <= |BlockOutput(b, pos, out)|
  {
    hide HeaderOk, LitLengths, DistLengths, FixedLitLengths, FixedDistLengths;
    match b
    case Stored(_, data) =>
    case Fixed(ts) => TokensGrow(ts, out);
    case Dynamic(_, ts) => TokensGrow(ts, out);
  }

  lemma {:induction false} SmallIsWithinCap(bs: seq<Block>, pos: nat, out: seq<byte>)
    requires StreamOk(bs, pos, out)
    ensures |BlockOutput(bs[0], pos, out)| <= |Inflated(bs, pos, out)|
    ensures |Inflated(bs, pos, out)| <= 67_108_864 ==> WithinCap(bs, pos, out)
    decreases |bs|
  {
    hide BlockOk, BlockOutput, BlockEnd;
    if |bs| > 1 {
      var end, out' := BlockEnd(bs[0], pos, out), BlockOutput(bs[0], pos, out);
      SmallIsWithinCap(bs[1..], end, out');
      BlockGrows(bs[1..][0], end, out');
    }
  }

  /** Whatever stands for at most 64 MiB comes back. */
  lemma SmallComesBack(input: seq<byte>, bs: seq<Block>, tail: seq<bool>)
    requires StreamOk(bs, 0, []) && StreamBits(input) == DeflateBits(bs, 0, []) + tail
    requires |Inflated(bs, 0, [])| <= 67_108_864
    ensures InflateBits(StreamBits(input), []) == Ok(Inflated(bs, 0, []))
  {
    hide *;
    SmallIsWithinCap(bs, 0, []);
    InflateUndoesDeflate(input, bs, tail);
  }

  /** A first block of more than 64 MiB that is not the last is refused. */
  lemma LargeIsRefused(input: seq<byte>, bs: seq<Block>, tail: seq<bool>)
    requires StreamOk(bs, 0, []) && StreamBits(input) == DeflateBits(bs, 0, []) + tail
    requires |bs| > 1 && |BlockOutput(bs[0], 0, [])| > 67_108_864
    ensures InflateBits(StreamBits(input), []) == Err(OutputTooLarge)
  {
    InflateUndoesDeflate(input, bs, tail);
    hide BlockOutput, BlockOk, DeflateBits, Inflated, InflateBits, StreamBits, BlockEnd;
  }

  // ----- streams that are refused -----

  /** Block type 3, final or not. */
  lemma TypeThreeRefused(final: bool, rest: seq<bool>, out: seq<byte>)
    ensures InflateBits([final] + ([true, true] + rest), out) == Err(BadBlockType)
  {
    var bits1: seq<bool> := [true, true] + rest;
    var bits := [final] + bits1;
    OneBit(final, bits1);
    TwoOnes(rest);
    hide TakeBits;
    assert InflateBlock(3, rest, out) == Err(BadBlockType);
  }

  lemma OneBit(b: bool, rest: seq<bool>)
    ensures TakeBits([b] + rest, 1) == Ok((if b then 1 else 0, rest))
  {
    assert Pow2(1) == 2;
    assert BitsOf(if b then 1 else 0, 1) == [b];
    TakeBitsOf(if b then 1 else 0, 1, rest);
  }

  lemma TwoOnes(rest: seq<bool>)
    ensures TakeBits([true, true] + rest, 2) == Ok((3, rest))
  {
    assert Pow2(2) == 4;
    assert BitsOf(3, 2) == [true, true];
    TakeBitsOf(3, 2, rest);
  }

  /** No bits at all. */
  lemma NothingRefused(out: seq<byte>)
    ensures InflateBits([], out) == Err(UnexpectedEnd)
  {
  }

  /** A stored block whose two lengths are not complements. */
  lemma ComplementRefused(pad: seq<bool>, n: nat, m: nat, rest: seq<bool>, out: seq<byte>)
    requires |pad| < 8 && n < 65536 && m < 65536 && n + m != 65535 && |rest| % 8 == 0
    ensures InflateStored(pad + (BitsOf(n, 16) + (BitsOf(m, 16) + rest)), out) == Err(StoredLengthMismatch)
  {
    hide BitsOf, Align, TakeBits;
    Pow2Of16();
    hide Pow2;
    var bits1 := BitsOf(m, 16) + rest;
    AlignDropsPad(pad, BitsOf(n, 16) + bits1);
    TakeBitsOf(n, 16, bits1);
    TakeBitsOf(m, 16, rest);
  }

  /** A copy from before the beginning of the output. */
  lemma FarCopyRefused(t: Token, lit: seq<nat>, dist: seq<nat>, rest: seq<bool>, out: seq<byte>)
    requires WellFormed(lit) && WellFormed(dist) && t.Match? && TokenOk(t) && TokenCoded(t, lit, dist)
    requires Distance(t) > |out|
    ensures Shaped(TableOf(lit)) && Shaped(TableOf(dist))
    ensures InflateTokens(TableOf(lit), TableOf(dist), TokenBits(t, lit, dist) + rest, out) == Err(BadDistance)
  {
    MatchBits(t, lit, dist, rest);
    hide TableOf, WellFormed, TokenBits, MatchTail, SymbolBits, DecodeBits, ReadMatch, InflateTokens, Length, Distance;
    TableOfShaped(dist);
    var l, tail := t.lenCode, MatchTail(t, dist, rest);
    Decodes(lit, 257 + l, tail);
    ReadsMatch(t, dist, rest);
    FarStep(TableOf(lit), TableOf(dist), SymbolBits(lit, 257 + l) + tail, l, tail, Length(t), Distance(t), rest, out);
  }

  lemma FarStep(lit: Huffman, dist: Huffman, bits: seq<bool>, l: nat, bits1: seq<bool>, length: nat, distance: nat,
                rest: seq<bool>, out: seq<byte>)
    requires Shaped(lit) && Shaped(dist) && l < 29 && DecodeBits(lit, bits) == Ok((257 + l, bits1))
    requires ReadMatch(l, dist, bits1) == Ok(((length, distance), rest)) && distance > |out|
    ensures InflateTokens(lit, dist, bits, out) == Err(BadDistance)
  {
    hide DecodeBits, ReadMatch, CopyMatch;
  }

  /** The literal symbols 286 and 287, which the fixed code has but no meaning is given to. */
  lemma SymbolRefused(s: nat, lit: seq<nat>, dist: seq<nat>, rest: seq<bool>, out: seq<byte>)
    requires WellFormed(lit) && WellFormed(dist) && s >= 286 && Coded(lit, s)
    ensures Shaped(TableOf(lit)) && Shaped(TableOf(dist))
    ensures InflateTokens(TableOf(lit), TableOf(dist), SymbolBits(lit, s) + rest, out) == Err(BadLiteralSymbol)
  {
    hide DecodeBits, TableOf, SymbolBits, WellFormed, ReadMatch, CopyMatch;
    TableOfShaped(dist);
    Decodes(lit, s, rest);
  }

  /** A distance symbol of 30 or more. */
  lemma DistanceSymbolRefused(l: nat, extra: nat, s: nat, dist: seq<nat>, rest: seq<bool>)
    requires l < 29 && WellFormed(dist) && s >= 30 && Coded(dist, s)
    requires |LEN_BASE| == |LEN_EXTRA| == 29 && extra < Pow2(LEN_EXTRA[l])
    ensures Shaped(TableOf(dist))
    ensures ReadMatch(l, TableOf(dist), BitsOf(extra, LEN_EXTRA[l]) + (SymbolBits(dist, s) + rest)) ==
            Err(BadDistanceSymbol)
  {
    TableFacts();
    hide ReadExtra, DecodeBits, TableOf, SymbolBits, WellFormed, BitsOf, Pow2;
    ReadsExtra(LEN_BASE[l], LEN_EXTRA[l], extra, SymbolBits(dist, s) + rest);
    Decodes(dist, s, rest);
  }

  /** A run that goes past the lengths announced. */
  lemma RunRefused(r: Run, acc: seq<nat>, total: nat, rest: seq<bool>)
    requires RunOk(r) && !r.Len? && |acc| < total < |acc| + |RunLengths(r, acc)|
    ensures ReadSymbol(RunSymbol(r), acc, total, CountBits(r) + rest) == Err(BadLengths)
  {
    assert Pow2(2) == 4 && Pow2(3) == 8 && Pow2(7) == 128;
    hide TakeBits, BitsOf;
    match r
    case RepeatPrevious(n) => TakeBitsOf(n - 3, 2, rest);
    case Zeros(n) => TakeBitsOf(n - 3, 3, rest);
    case ManyZeros(n) => TakeBitsOf(n - 11, 7, rest);
  }
}
