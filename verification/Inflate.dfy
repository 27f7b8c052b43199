/** The inflater: its loops over the bit reader, each equal to a function of the bits that are left. */
module Inflate {
  import opened Words
  import opened BitReading
  import opened HuffmanTable
  import opened HuffmanDecode
  import opened Deflate

  // ----- one block of Huffman-coded tokens -----

  function ReadExtra(base: nat, extra: nat, bits: seq<bool>): (r: Result<(nat, seq<bool>)>)
    ensures r.Ok? ==> |r.value.1| <= |bits|
  {
    if extra > 0 then
      var (v, rest) :- TakeBits(bits, extra);
      Ok((base + v, rest))
    else
      Ok((base, bits))
  }

  /** Copying byte by byte from `d` back, so that copied bytes can be copied again. */
  function CopyMatch(out: seq<byte>, d: nat, n: nat): (r: seq<byte>)
    requires 0 < d <= |out|
    ensures |r| == |out| + n
    decreases n
  {
    if n == 0 then out else CopyMatch(out + [out[|out| - d]], d, n - 1)
  }

  /** Length and distance of a match whose length code is `l`. */
  function ReadMatch(l: nat, dist: Huffman, bits: seq<bool>): (r: Result<((nat, nat), seq<bool>)>)
    requires l < 29 && Shaped(dist)
    ensures r.Ok? ==> |r.value.1| < |bits|
  {
    TableFacts();
    var (length, bits1) :- ReadExtra(LEN_BASE[l], LEN_EXTRA[l], bits);
    var (dsym, bits2) :- DecodeBits(dist, bits1);
    WalkProgress(dist, bits1, [], 0, 0);
    if dsym >= |DIST_BASE| then Err(BadDistanceSymbol)
    else
      var (distance, bits3) :- ReadExtra(DIST_BASE[dsym], DIST_EXTRA[dsym], bits2);
      Ok(((length, distance), bits3))
  }

  function InflateTokens(lit: Huffman, dist: Huffman, bits: seq<bool>,
                         out: seq<byte>): (r: Result<(seq<byte>, seq<bool>)>)
    requires Shaped(lit) && Shaped(dist)
    ensures r.Ok? ==> |r.value.1| < |bits|
    decreases |bits|
  {
    var (sym, bits1) :- DecodeBits(lit, bits);
    WalkProgress(lit, bits, [], 0, 0);
    if sym < 256 then InflateTokens(lit, dist, bits1, out + [sym])
    else if sym == END_OF_BLOCK then Ok((out, bits1))
    else if sym <= 285 then
      var ((length, distance), bits2) :- ReadMatch(sym - 257, dist, bits1);
      if distance == 0 || distance > |out| then Err(BadDistance)
      else InflateTokens(lit, dist, bits2, CopyMatch(out, distance, length))
    else Err(BadLiteralSymbol)
  }

  method ReadExtraBits(br: BitReader, base: nat, extra: nat) returns (r: Result<nat>)
    requires br.Valid() && extra <= 13
    modifies br
    ensures br.Valid()
    ensures r.Ok? ==> ReadExtra(base, extra, old(br.left)) == Ok((r.value, br.left))
    ensures r.Err? ==> ReadExtra(base, extra, old(br.left)) == Err(r.error)
  {
    var length := base;
    if extra > 0 {
      var v :- br.Bits(extra);
      length := length + v;
    }
    return Ok(length);
  }

  method DecodeMatch(br: BitReader, l: nat, dist: Huffman) returns (r: Result<(nat, nat)>)
    requires br.Valid() && l < 29 && Shaped(dist)
    modifies br
    ensures br.Valid()
    ensures r.Ok? ==> ReadMatch(l, dist, old(br.left)) == Ok((r.value, br.left))
    ensures r.Err? ==> ReadMatch(l, dist, old(br.left)) == Err(r.error)
  {
    TableFacts();
    var length :- ReadExtraBits(br, LEN_BASE[l], LEN_EXTRA[l]);
    var dsym :- Decode(dist, br);
    if dsym >= |DIST_BASE| {
      return Err(BadDistanceSymbol);
    }
    var distance :- ReadExtraBits(br, DIST_BASE[dsym], DIST_EXTRA[dsym]);
    return Ok((length, distance));
  }

  /** Appends the copy a match asks for. */
  method PushCopy(out0: seq<byte>, distance: nat, length: nat) returns (out: seq<byte>)
    requires 0 < distance <= |out0|
    ensures out == CopyMatch(out0, distance, length)
  {
    out := out0;
    for k := 0 to length
      invariant distance <= |out|
      invariant CopyMatch(out, distance, length - k) == CopyMatch(out0, distance, length)
    {
      var b := out[|out| - distance];
      out := out + [b];
    }
  }

  /** The tokens of one block, up to its end-of-block code. */
  method DecodeHuffmanBlock(br: BitReader, out0: seq<byte>, lit: Huffman, dist: Huffman)
    returns (r: Result<seq<byte>>)
    requires br.Valid() && Shaped(lit) && Shaped(dist)
    modifies br
    ensures br.Valid()
    ensures r.Ok? ==> InflateTokens(lit, dist, old(br.left), out0) == Ok((r.value, br.left))
    ensures r.Err? ==> InflateTokens(lit, dist, old(br.left), out0) == Err(r.error)
  {
    hide DecodeBits, ReadMatch, CopyMatch, Walk;
    var out := out0;
    while true
      invariant br.Valid()
      invariant InflateTokens(lit, dist, br.left, out) == InflateTokens(lit, dist, old(br.left), out0)
      decreases |br.left|
    {
      ghost var left := br.left;
      var sym :- Decode(lit, br);
      DecodeShorter(lit, left);
      if sym < 256 {
        out := out + [sym];
      } else if sym == END_OF_BLOCK {
        break;
      } else if sym <= 285 {
        var lengthDistance :- DecodeMatch(br, sym - 257, dist);
        var (length, distance) := lengthDistance;
        if distance == 0 || distance > |out| {
          return Err(BadDistance);
        }
        out := PushCopy(out, distance, length);
      } else {
        return Err(BadLiteralSymbol);
      }
    }
    return Ok(out);
  }

  // ----- the tables of a dynamic block -----

  function HuffmanFrom(lengths: seq<nat>): (r: Result<Huffman>)
    ensures r.Ok? ==> Shaped(r.value)
  {
    if MaxLength(lengths) > 15 then Err(BadCodeLength) else Ok(TableOf(lengths))
  }

  /** The code length code lengths, three bits each, in transmission order; the rest stay 0. */
  function ReadCodeLengths(i: nat, n: nat, cl: seq<nat>, bits: seq<bool>): (r: Result<(seq<nat>, seq<bool>)>)
    requires i <= n <= 19 && |cl| == 19
    ensures r.Ok? ==> |r.value.0| == 19 && |r.value.1| <= |bits|
    decreases n - i
  {
    if i == n then Ok((cl, bits))
    else
      TableFacts();
      var (v, rest) :- TakeBits(bits, 3);
      ReadCodeLengths(i + 1, n, cl[CODE_LEN_ORDER[i] := v], rest)
  }

  function AddRun(acc: seq<nat>, total: nat, v: nat, rep: nat): (r: Result<seq<nat>>)
    ensures r.Ok? ==> |r.value| <= total
  {
    if |acc| + rep > total then Err(BadLengths) else Ok(acc + Repeat(v, rep))
  }

  /** A repeat count of `n` bits, and that many lengths `v`. */
  function ReadRun(acc: seq<nat>, total: nat, v: nat, base: nat, n: nat, bits: seq<bool>)
    : (r: Result<(seq<nat>, seq<bool>)>)
    ensures r.Ok? ==> |r.value.0| <= total && |r.value.1| <= |bits|
  {
    var (rep, rest) :- TakeBits(bits, n);
    var acc' :- AddRun(acc, total, v, base + rep);
    Ok((acc', rest))
  }

  function ReadSymbol(sym: nat, acc: seq<nat>, total: nat, bits: seq<bool>): (r: Result<(seq<nat>, seq<bool>)>)
    requires |acc| < total
    ensures r.Ok? ==> |r.value.0| <= total && |r.value.1| <= |bits|
  {
    if sym <= 15 then Ok((acc + [sym], bits))
    else if sym == 16 then ReadRun(acc, total, if acc == [] then 0 else acc[|acc| - 1], 3, 2, bits)
    else if sym == 17 then ReadRun(acc, total, 0, 3, 3, bits)
    else if sym == 18 then ReadRun(acc, total, 0, 11, 7, bits)
    else Err(BadCodeLengthSymbol)
  }

  /** Reads code length symbols until `total` lengths are known. */
  function ReadLengths(h: Huffman, total: nat, acc: seq<nat>, bits: seq<bool>): (r: Result<(seq<nat>, seq<bool>)>)
    requires Shaped(h) && |acc| <= total
    ensures r.Ok? ==> |r.value.0| == total && |r.value.1| <= |bits|
    decreases |bits|
  {
    if |acc| == total then Ok((acc, bits))
    else
      var (sym, bits1) :- DecodeBits(h, bits);
      WalkProgress(h, bits, [], 0, 0);
      var (acc', bits2) :- ReadSymbol(sym, acc, total, bits1);
      ReadLengths(h, total, acc', bits2)
  }

  /** How many literal lengths, distance lengths and code length code lengths follow. */
  function ReadSizes(bits: seq<bool>): (r: Result<((nat, nat, nat), seq<bool>)>)
    ensures r.Ok? ==> |r.value.1| <= |bits|
    ensures r.Ok? ==> r.value.0.0 < 289 && r.value.0.1 < 33 && r.value.0.2 < 20
  {
    var (hlit, bits1) :- TakeBits(bits, 5);
    var (hdist, bits2) :- TakeBits(bits1, 5);
    var (hclen, bits3) :- TakeBits(bits2, 4);
    assert Pow2(4) == 16 && Pow2(5) == 32;
    Ok(((hlit + 257, hdist + 1, hclen + 4), bits3))
  }

  function SplitTables(lengths: seq<nat>, hlit: nat): (r: Result<(Huffman, Huffman)>)
    requires hlit <= |lengths|
    ensures r.Ok? ==> Shaped(r.value.0) && Shaped(r.value.1)
  {
    var lit :- HuffmanFrom(lengths[..hlit]);
    var dist :- HuffmanFrom(lengths[hlit..]);
    Ok((lit, dist))
  }

  function ReadTables(bits: seq<bool>): (r: Result<((Huffman, Huffman), seq<bool>)>)
    ensures r.Ok? ==> Shaped(r.value.0.0) && Shaped(r.value.0.1) && |r.value.1| <= |bits|
  {
    var ((hlit, hdist, hclen), bits1) :- ReadSizes(bits);
    var (cl, bits2) :- ReadCodeLengths(0, hclen, Repeat(0, 19), bits1);
    var tree :- HuffmanFrom(cl);
    var (lengths, bits3) :- ReadLengths(tree, hlit + hdist, [], bits2);
    var tables :- SplitTables(lengths, hlit);
    Ok((tables, bits3))
  }

  /** Writes `rep` lengths `v` from place `i` on. */
  method FillRun(lengths: array<nat>, i0: nat, v: nat, rep: nat) returns (r: Result<nat>)
    requires i0 <= lengths.Length
    modifies lengths
    ensures r.Ok? ==> r.value <= lengths.Length
    ensures r.Ok? ==> AddRun(old(lengths[..i0]), lengths.Length, v, rep) == Ok(lengths[..r.value])
    ensures r.Err? ==> AddRun(old(lengths[..i0]), lengths.Length, v, rep) == Err(r.error)
  {
    var i := i0;
    for k := 0 to rep
      invariant i == i0 + k <= lengths.Length
      invariant lengths[..i] == old(lengths[..i0]) + Repeat(v, k)
    {
      if i >= lengths.Length {
        return Err(BadLengths);
      }
      lengths[i] := v;
      i := i + 1;
    }
    return Ok(i);
  }

  method ReadRunBits(br: BitReader, lengths: array<nat>, i: nat, v: nat, base: nat, n: nat)
    returns (r: Result<nat>)
    requires br.Valid() && i <= lengths.Length && n <= 7
    modifies br, lengths
    ensures br.Valid()
    ensures r.Ok? ==> r.value <= lengths.Length
    ensures r.Ok? ==> ReadRun(old(lengths[..i]), lengths.Length, v, base, n, old(br.left)) ==
                      Ok((lengths[..r.value], br.left))
    ensures r.Err? ==> ReadRun(old(lengths[..i]), lengths.Length, v, base, n, old(br.left)) == Err(r.error)
  {
    var rep :- br.Bits(n);
    var i' :- FillRun(lengths, i, v, base + rep);
    return Ok(i');
  }

  /** Handles one code length symbol; returns how many lengths are known. */
  method HandleSymbol(br: BitReader, sym: nat, lengths: array<nat>, i: nat) returns (r: Result<nat>)
    requires br.Valid() && i < lengths.Length
    modifies br, lengths
    ensures br.Valid()
    ensures r.Ok? ==> r.value <= lengths.Length
    ensures r.Ok? ==> ReadSymbol(sym, old(lengths[..i]), lengths.Length, old(br.left)) ==
                      Ok((lengths[..r.value], br.left))
    ensures r.Err? ==> ReadSymbol(sym, old(lengths[..i]), lengths.Length, old(br.left)) == Err(r.error)
  {
    if sym <= 15 {
      lengths[i] := sym;
      assert lengths[..i + 1] == old(lengths[..i]) + [sym];
      return Ok(i + 1);
    } else if sym == 16 {
      var v := if i == 0 then 0 else lengths[i - 1];
      r := ReadRunBits(br, lengths, i, v, 3, 2);
    } else if sym == 17 {
      r := ReadRunBits(br, lengths, i, 0, 3, 3);
    } else if sym == 18 {
      r := ReadRunBits(br, lengths, i, 0, 11, 7);
    } else {
      return Err(BadCodeLengthSymbol);
    }
  }

  method ReadClLengths(br: BitReader, hclen: nat) returns (r: Result<seq<nat>>)
    requires br.Valid() && hclen <= 19
    modifies br
    ensures br.Valid()
    ensures r.Ok? ==> |r.value| == 19
    ensures r.Ok? ==> ReadCodeLengths(0, hclen, Repeat(0, 19), old(br.left)) == Ok((r.value, br.left))
    ensures r.Err? ==> ReadCodeLengths(0, hclen, Repeat(0, 19), old(br.left)) == Err(r.error)
  {
    TableFacts();
    var cl: seq<nat> := Repeat(0, 19);
    for i := 0 to hclen
      invariant br.Valid() && |cl| == 19
      invariant ReadCodeLengths(i, hclen, cl, br.left) == ReadCodeLengths(0, hclen, Repeat(0, 19), old(br.left))
    {
      var v :- br.Bits(3);
      cl := cl[CODE_LEN_ORDER[i] := v];
    }
    return Ok(cl);
  }

  /** The literal and distance code lengths, filled in place. */
  method ReadAllLengths(br: BitReader, tree: Huffman, total: nat) returns (r: Result<seq<nat>>)
    requires br.Valid() && Shaped(tree)
    modifies br
    ensures br.Valid()
    ensures r.Ok? ==> |r.value| == total
    ensures r.Ok? ==> ReadLengths(tree, total, [], old(br.left)) == Ok((r.value, br.left))
    ensures r.Err? ==> ReadLengths(tree, total, [], old(br.left)) == Err(r.error)
  {
    hide DecodeBits, ReadSymbol, Walk;
    var lengths := new nat[total](_ => 0);
    var i: nat := 0;
    assert lengths[..0] == [];
    while i < total
      invariant br.Valid() && i <= total == lengths.Length
      invariant ReadLengths(tree, total, lengths[..i], br.left) == ReadLengths(tree, total, [], old(br.left))
      decreases |br.left|
    {
      ghost var left := br.left;
      var sym :- Decode(tree, br);
      DecodeShorter(tree, left);
      i :- HandleSymbol(br, sym, lengths, i);
    }
    assert lengths[..] == lengths[..i];
    return Ok(lengths[..]);
  }

  method BuildTable(lengths: seq<nat>) returns (r: Result<Huffman>)
    requires |lengths| < U16
    ensures r == HuffmanFrom(lengths)
  {
    r := FromLengths(lengths);
  }

  method ReadHeaderSizes(br: BitReader) returns (r: Result<(nat, nat, nat)>)
    requires br.Valid()
    modifies br
    ensures br.Valid()
    ensures r.Ok? ==> ReadSizes(old(br.left)) == Ok((r.value, br.left))
    ensures r.Err? ==> ReadSizes(old(br.left)) == Err(r.error)
  {
    var hlit :- br.Bits(5);
    var hdist :- br.Bits(5);
    var hclen :- br.Bits(4);
    return Ok((hlit + 257, hdist + 1, hclen + 4));
  }

  method ReadDynamicTables(br: BitReader) returns (r: Result<(Huffman, Huffman)>)
    requires br.Valid()
    modifies br
    ensures br.Valid()
    ensures r.Ok? ==> Shaped(r.value.0) && Shaped(r.value.1)
    ensures r.Ok? ==> ReadTables(old(br.left)) == Ok((r.value, br.left))
    ensures r.Err? ==> ReadTables(old(br.left)) == Err(r.error)
  {
    hide ReadSizes, ReadCodeLengths, ReadLengths, HuffmanFrom;
    var sizes :- ReadHeaderSizes(br);
    var (hlit, hdist, hclen) := sizes;
    var cl :- ReadClLengths(br, hclen);
    var tree :- BuildTable(cl);
    var lengths :- ReadAllLengths(br, tree, hlit + hdist);
    var lit :- BuildTable(lengths[..hlit]);
    var dist :- BuildTable(lengths[hlit..]);
    return Ok((lit, dist));
  }

  // ----- stored blocks, fixed tables, and the whole stream -----

  function CopyBytes(n: nat, bits: seq<bool>, out: seq<byte>): (r: Result<(seq<byte>, seq<bool>)>)
    ensures r.Ok? ==> |r.value.1| <= |bits|
    decreases n
  {
    if n == 0 then Ok((out, bits))
    else
      var (v, rest) :- TakeByte(bits);
      assert Pow2(8) == 256;
      CopyBytes(n - 1, rest, out + [v])
  }

  function InflateStored(bits: seq<bool>, out: seq<byte>): (r: Result<(seq<byte>, seq<bool>)>)
    ensures r.Ok? ==> |r.value.1| <= |bits|
  {
    var (len, bits1) :- TakeBits(Align(bits), 16);
    var (nlen, bits2) :- TakeBits(bits1, 16);
    if len + nlen != 65535 then Err(StoredLengthMismatch) else CopyBytes(len, bits2, out)
  }

  function InflateBlock(btype: nat, bits: seq<bool>, out: seq<byte>): (r: Result<(seq<byte>, seq<bool>)>)
    ensures r.Ok? ==> |r.value.1| <= |bits|
  {
    if btype == 0 then InflateStored(bits, out)
    else if btype == 1 then
      var lit :- HuffmanFrom(FixedLitLengths());
      var dist :- HuffmanFrom(FixedDistLengths());
      InflateTokens(lit, dist, bits, out)
    else if btype == 2 then
      var ((lit, dist), bits1) :- ReadTables(bits);
      InflateTokens(lit, dist, bits1, out)
    else Err(BadBlockType)
  }

  /** Inflates all blocks in `bits`, after the output `out`. */
  function InflateBits(bits: seq<bool>, out: seq<byte>): Result<seq<byte>>
    decreases |bits|
  {
    var (bfinal, bits1) :- TakeBits(bits, 1);
    var (btype, bits2) :- TakeBits(bits1, 2);
    var (out', rest) :- InflateBlock(btype, bits2, out);
    if bfinal == 1 then Ok(out')
    else if |out'| > OUTPUT_CAP then Err(OutputTooLarge)
    else InflateBits(rest, out')
  }

  lemma Complement16(len: nat, nlen: nat)
    requires len < Pow2(16) && nlen < Pow2(16)
    ensures len == Xor(nlen, 0xffff) <==> len + nlen == 65535
  {
    Pow2Of16();
    XorOnes(nlen, 16);
  }

  method PushBytes(br: BitReader, n: nat, out0: seq<byte>) returns (r: Result<seq<byte>>)
    requires br.Valid()
    modifies br
    ensures br.Valid()
    ensures r.Ok? ==> CopyBytes(n, old(br.left), out0) == Ok((r.value, br.left))
    ensures r.Err? ==> CopyBytes(n, old(br.left), out0) == Err(r.error)
  {
    hide TakeByte;
    var out := out0;
    ghost var todo := n;
    for k := 0 to n
      invariant br.Valid() && todo == n - k
      invariant CopyBytes(todo, br.left, out) == CopyBytes(n, old(br.left), out0)
    {
      var b :- br.Byte();
      out := out + [b];
      todo := todo - 1;
    }
    return Ok(out);
  }

  method CopyStored(br: BitReader, out0: seq<byte>) returns (r: Result<seq<byte>>)
    requires br.Valid()
    modifies br
    ensures br.Valid()
    ensures r.Ok? ==> InflateStored(old(br.left), out0) == Ok((r.value, br.left))
    ensures r.Err? ==> InflateStored(old(br.left), out0) == Err(r.error)
  {
    hide Align, TakeBits, CopyBytes, Xor;
    br.AlignByte();
    var len :- br.Bits(16);
    var nlen :- br.Bits(16);
    Complement16(len, nlen);
    if len != Xor(nlen, 0xffff) {
      return Err(StoredLengthMismatch);
    }
    r := PushBytes(br, len, out0);
  }

  method FixedLit() returns (h: Huffman)
    ensures HuffmanFrom(FixedLitLengths()) == Ok(h)
  {
    var lengths := new nat[288](_ => 0);
    for i := 0 to 144
      invariant forall k :: 0 <= k < i ==> lengths[k] == 8
    {
      lengths[i] := 8;
    }
    for i := 144 to 256
      invariant forall k :: 0 <= k < i ==> lengths[k] == if k < 144 then 8 else 9
    {
      lengths[i] := 9;
    }
    for i := 256 to 280
      invariant forall k :: 0 <= k < i ==> lengths[k] == if k < 144 then 8 else if k < 256 then 9 else 7
    {
      lengths[i] := 7;
    }
    for i := 280 to 288
      invariant forall k :: 0 <= k < i ==>
        lengths[k] == if k < 144 then 8 else if k < 256 then 9 else if k < 280 then 7 else 8
    {
      lengths[i] := 8;
    }
    assert lengths[..] == FixedLitLengths();
    FixedWellFormed();
    MaxLengthBound(FixedLitLengths());
    var r := BuildTable(lengths[..]);
    h := r.value;
  }

  method FixedDist() returns (h: Huffman)
    ensures HuffmanFrom(FixedDistLengths()) == Ok(h)
  {
    FixedWellFormed();
    MaxLengthBound(FixedDistLengths());
    var r := BuildTable(FixedDistLengths());
    h := r.value;
  }

  /** Inflates a raw stream. */
  method InflateRaw(input: seq<byte>) returns (r: Result<seq<byte>>)
    ensures r == InflateBits(StreamBits(input), [])
  {
    var br := new BitReader(input);
    var out: seq<byte> := [];
    ghost var goal := InflateBits(br.left, out);
    while true
      invariant br.Valid() && fresh(br)
      invariant InflateBits(br.left, out) == goal
      decreases |br.left|
    {
      var bfinal :- br.Bits(1);
      var btype :- br.Bits(2);
      if btype == 0 {
        out :- CopyStored(br, out);
      } else if btype == 1 {
        var lit := FixedLit();
        var dist := FixedDist();
        out :- DecodeHuffmanBlock(br, out, lit, dist);
      } else if btype == 2 {
        var tables :- ReadDynamicTables(br);
        out :- DecodeHuffmanBlock(br, out, tables.0, tables.1);
      } else {
        return Err(BadBlockType);
      }
      if bfinal == 1 {
        break;
      }
      if |out| > OUTPUT_CAP {
        return Err(OutputTooLarge);
      }
    }
    return Ok(out);
  }
}
