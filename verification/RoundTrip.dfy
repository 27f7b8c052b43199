/** Inflating undoes deflating: every well-formed DEFLATE stream is inflated to what it stands for. */
module RoundTrip {
  import opened Words
  import opened Canonical
  import opened BitReading
  import opened HuffmanTable
  import opened HuffmanDecode
  import opened Deflate
  import opened Inflate

  // ----- tokens -----

  lemma Associate<T>(a: seq<T>, b: seq<T>, c: seq<T>, d: seq<T>, e: seq<T>)
    ensures a + b + c + d + e == a + (b + (c + (d + e)))
    ensures |a + b + c + d| == |a| + |b| + |c| + |d|
  {
  }

  lemma NextInPeriod(k: nat, d: nat)
    requires d > 0
    ensures (k + 1) % d == if k % d == d - 1 then 0 else k % d + 1
  {
    if k % d == d - 1 {
      assert k + 1 == (k / d + 1) * d;
      DivModUnique(k + 1, d, k / d + 1, 0);
    } else {
      DivModUnique(k + 1, d, k / d, k % d + 1);
    }
  }

  lemma CopyShiftsAt(out: seq<byte>, d: nat, k: nat)
    requires 0 < d <= |out|
    ensures k == 0 ==> k % d == 0
    ensures k > 0 ==> out[|out| - d + k % d] == (out + [out[|out| - d]])[|out| + 1 - d + (k - 1) % d]
  {
    if k > 0 { NextInPeriod(k - 1, d); }
  }

  lemma CopyShifts(out: seq<byte>, d: nat, n: nat)
    requires 0 < d <= |out| && n > 0
    ensures CopyOf(out, d, n) == [out[|out| - d]] + CopyOf(out + [out[|out| - d]], d, n - 1)
  {
    var out' := out + [out[|out| - d]];
    var shifted := [out[|out| - d]] + CopyOf(out', d, n - 1);
    forall k | 0 <= k < n
      ensures CopyOf(out, d, n)[k] == shifted[k]
    {
      CopyShiftsAt(out, d, k);
    }
  }

  /** Copying byte by byte yields the last `d` bytes over and over, also when `d < n`. */
  lemma {:induction false} CopyIsPeriodic(out: seq<byte>, d: nat, n: nat)
    requires 0 < d <= |out|
    ensures CopyMatch(out, d, n) == out + CopyOf(out, d, n)
    decreases n
  {
    hide CopyOf;
    if n > 0 {
      CopyIsPeriodic(out + [out[|out| - d]], d, n - 1);
      CopyShifts(out, d, n);
    }
  }

  lemma ReadsExtra(base: nat, extra: nat, v: nat, rest: seq<bool>)
    requires v < Pow2(extra)
    ensures ReadExtra(base, extra, BitsOf(v, extra) + rest) == Ok((base + v, rest))
  {
    if extra > 0 {
      TakeBitsOf(v, extra, rest);
    } else {
      assert BitsOf(v, extra) + rest == rest;
    }
  }

  /** A table built from the lengths of a prefix code decodes that code's symbols. */
  lemma Decodes(lengths: seq<nat>, s: nat, rest: seq<bool>)
    requires WellFormed(lengths) && Coded(lengths, s)
    ensures Shaped(TableOf(lengths)) && DecodeBits(TableOf(lengths), SymbolBits(lengths, s) + rest) == Ok((s, rest))
  {
    DecodesExactly(lengths, SymbolBits(lengths, s) + rest, s, rest);
  }

  lemma MatchSteps(l: nat, dist: Huffman, bits: seq<bool>, length: nat, bits1: seq<bool>, d: nat, bits2: seq<bool>,
                   distance: nat, rest: seq<bool>)
    requires l < |LEN_BASE| && l < |LEN_EXTRA| && Shaped(dist) && d < |DIST_BASE| && d < |DIST_EXTRA|
    requires ReadExtra(LEN_BASE[l], LEN_EXTRA[l], bits) == Ok((length, bits1))
    requires DecodeBits(dist, bits1) == Ok((d, bits2))
    requires ReadExtra(DIST_BASE[d], DIST_EXTRA[d], bits2) == Ok((distance, rest))
    ensures ReadMatch(l, dist, bits) == Ok(((length, distance), rest))
  {
    hide ReadExtra, DecodeBits;
  }

  /** The bits of a match after its length code. */
  function MatchTail(t: Token, dist: seq<nat>, rest: seq<bool>): seq<bool>
    requires t.Match? && TokenOk(t) && Coded(dist, t.distCode)
  {
    BitsOf(t.lenExtra, LEN_EXTRA[t.lenCode]) +
    (SymbolBits(dist, t.distCode) + (BitsOf(t.distExtra, DIST_EXTRA[t.distCode]) + rest))
  }

  lemma MatchBits(t: Token, lit: seq<nat>, dist: seq<nat>, rest: seq<bool>)
    requires t.Match? && TokenOk(t) && TokenCoded(t, lit, dist)
    ensures TokenBits(t, lit, dist) + rest == SymbolBits(lit, 257 + t.lenCode) + MatchTail(t, dist, rest)
  {
    hide SymbolBits, BitsOf, Pow2;
  }

  lemma ReadsMatch(t: Token, dist: seq<nat>, rest: seq<bool>)
    requires t.Match? && TokenOk(t) && WellFormed(dist) && Coded(dist, t.distCode)
    ensures Shaped(TableOf(dist))
    ensures ReadMatch(t.lenCode, TableOf(dist), MatchTail(t, dist, rest)) == Ok(((Length(t), Distance(t)), rest))
  {
    hide ReadExtra, DecodeBits, TableOf, SymbolBits, WellFormed, BitsOf, ReadMatch, Pow2, Shaped;
    var bits3 := BitsOf(t.distExtra, DIST_EXTRA[t.distCode]) + rest;
    var bits2 := SymbolBits(dist, t.distCode) + bits3;
    ReadsExtra(LEN_BASE[t.lenCode], LEN_EXTRA[t.lenCode], t.lenExtra, bits2);
    Decodes(dist, t.distCode, bits3);
    ReadsExtra(DIST_BASE[t.distCode], DIST_EXTRA[t.distCode], t.distExtra, rest);
    MatchSteps(t.lenCode, TableOf(dist), MatchTail(t, dist, rest), Length(t), bits2, t.distCode, bits3, Distance(t),
               rest);
  }

  lemma LiteralStep(lit: Huffman, dist: Huffman, bits: seq<bool>, b: byte, rest: seq<bool>, out: seq<byte>)
    requires Shaped(lit) && Shaped(dist) && DecodeBits(lit, bits) == Ok((b, rest))
    ensures InflateTokens(lit, dist, bits, out) == InflateTokens(lit, dist, rest, out + [b])
  {
    hide DecodeBits;
  }

  lemma MatchStep(lit: Huffman, dist: Huffman, bits: seq<bool>, l: nat, bits1: seq<bool>, length: nat, distance: nat,
                  rest: seq<bool>, out: seq<byte>)
    requires Shaped(lit) && Shaped(dist) && l < 29 && DecodeBits(lit, bits) == Ok((257 + l, bits1))
    requires ReadMatch(l, dist, bits1) == Ok(((length, distance), rest)) && 0 < distance <= |out|
    ensures InflateTokens(lit, dist, bits, out) == InflateTokens(lit, dist, rest, CopyMatch(out, distance, length))
  {
    hide DecodeBits, ReadMatch, CopyMatch;
  }

  lemma EndStep(lit: Huffman, dist: Huffman, bits: seq<bool>, rest: seq<bool>, out: seq<byte>)
    requires Shaped(lit) && Shaped(dist) && DecodeBits(lit, bits) == Ok((END_OF_BLOCK, rest))
    ensures InflateTokens(lit, dist, bits, out) == Ok((out, rest))
  {
    hide DecodeBits;
  }

  /** One token in front of other bits takes one turn of the inflater's loop. */
  lemma ReadsToken(t: Token, lit: seq<nat>, dist: seq<nat>, rest: seq<bool>, out: seq<byte>)
    requires WellFormed(lit) && WellFormed(dist) && Applies(t, out) && TokenCoded(t, lit, dist)
    ensures Shaped(TableOf(lit)) && Shaped(TableOf(dist))
    ensures InflateTokens(TableOf(lit), TableOf(dist), TokenBits(t, lit, dist) + rest, out) ==
            InflateTokens(TableOf(lit), TableOf(dist), rest, Expand(t, out))
  {
    hide ReadExtra, DecodeBits, TableOf, SymbolBits, WellFormed, BitsOf, ReadMatch, InflateTokens, CopyMatch, CopyOf,
      Pow2, Shaped, HuffmanFrom;
    TableOfShaped(dist);
    match t
    case Literal(b) =>
      Decodes(lit, b, rest);
      LiteralStep(TableOf(lit), TableOf(dist), SymbolBits(lit, b) + rest, b, rest, out);
    case Match(l, _, _, _) =>
      var tail := MatchTail(t, dist, rest);
      MatchBits(t, lit, dist, rest);
      Decodes(lit, 257 + l, tail);
      ReadsMatch(t, dist, rest);
      MatchStep(TableOf(lit), TableOf(dist), SymbolBits(lit, 257 + l) + tail, l,
                tail, Length(t), Distance(t), rest, out);
      CopyIsPeriodic(out, Distance(t), Length(t));
  }

  lemma TableOfShaped(lengths: seq<nat>)
    requires WellFormed(lengths)
    ensures Shaped(TableOf(lengths)) && HuffmanFrom(lengths) == Ok(TableOf(lengths))
  {
    MaxLengthBound(lengths);
  }

  lemma {:induction false} ReadsTokens(ts: seq<Token>, lit: seq<nat>, dist: seq<nat>, rest: seq<bool>, out: seq<byte>)
    requires WellFormed(lit) && WellFormed(dist) && TokensOk(ts, lit, dist, out)
    ensures Shaped(TableOf(lit)) && Shaped(TableOf(dist))
    ensures InflateTokens(TableOf(lit), TableOf(dist), TokensBits(ts, lit, dist) + rest, out) ==
            Ok((ExpandAll(ts, out), rest))
    decreases |ts|
  {
    hide TableOf, SymbolBits, DecodeBits, WellFormed, TokenBits, Expand, InflateTokens;
    if ts == [] {
      Decodes(lit, END_OF_BLOCK, rest);
      TableOfShaped(dist);
      EndStep(TableOf(lit), TableOf(dist), SymbolBits(lit, END_OF_BLOCK) + rest, rest, out);
    } else {
      var rest' := TokensBits(ts[1..], lit, dist) + rest;
      assert TokensBits(ts, lit, dist) + rest == TokenBits(ts[0], lit, dist) + rest';
      ReadsToken(ts[0], lit, dist, rest', out);
      ReadsTokens(ts[1..], lit, dist, rest, Expand(ts[0], out));
    }
  }

  // ----- the header of a dynamic block -----

  lemma ReadsCount(acc: seq<nat>, total: nat, v: nat, base: nat, n: nat, rep: nat, rest: seq<bool>)
    requires rep < Pow2(n) && |acc| + base + rep <= total
    ensures ReadRun(acc, total, v, base, n, BitsOf(rep, n) + rest) == Ok((acc + Repeat(v, base + rep), rest))
  {
    TakeBitsOf(rep, n, rest);
  }

  lemma ReadsRunSymbol(r: Run, acc: seq<nat>, total: nat, rest: seq<bool>)
    requires RunOk(r) && |acc| < total && |acc| + |RunLengths(r, acc)| <= total
    ensures ReadSymbol(RunSymbol(r), acc, total, CountBits(r) + rest) == Ok((acc + RunLengths(r, acc), rest))
  {
    assert Pow2(2) == 4 && Pow2(3) == 8 && Pow2(7) == 128;
    match r
    case Len(v) => assert CountBits(r) + rest == rest;
    case RepeatPrevious(n) => ReadsCount(acc, total, if acc == [] then 0 else acc[|acc| - 1], 3, 2, n - 3, rest);
    case Zeros(n) => ReadsCount(acc, total, 0, 3, 3, n - 3, rest);
    case ManyZeros(n) => ReadsCount(acc, total, 0, 11, 7, n - 11, rest);
  }

  lemma {:induction false} RunsGrow(rs: seq<Run>, before: seq<nat>)
    ensures |before| <= |RunsLengths(rs, before)|
    decreases |rs|
  {
    if rs != [] { RunsGrow(rs[1..], before + RunLengths(rs[0], before)); }
  }

  lemma {:induction false} ReadsRuns(rs: seq<Run>, cl: seq<nat>, acc: seq<nat>, total: nat, rest: seq<bool>)
    requires WellFormed(cl) && forall r :: r in rs ==> RunOk(r) && Coded(cl, RunSymbol(r))
    requires |acc| <= total == |RunsLengths(rs, acc)|
    ensures Shaped(TableOf(cl))
    ensures ReadLengths(TableOf(cl), total, acc, RunsBits(rs, cl) + rest) == Ok((RunsLengths(rs, acc), rest))
    decreases |rs|
  {
    hide TableOf, SymbolBits, DecodeBits, WellFormed, RunLengths, ReadSymbol, CountBits, RunSymbol;
    TableOfShaped(cl);
    if rs == [] {
      assert RunsBits(rs, cl) + rest == rest;
    } else {
      var r := rs[0];
      var acc' := acc + RunLengths(r, acc);
      RunsGrow(rs[1..], acc');
      var count := CountBits(r);
      var rest' := RunsBits(rs[1..], cl) + rest;
      assert RunsBits(rs, cl) + rest == SymbolBits(cl, RunSymbol(r)) + (count + rest');
      Decodes(cl, RunSymbol(r), count + rest');
      ReadsRunSymbol(r, acc, total, rest');
      ReadsRuns(rs[1..], cl, acc', total, rest);
    }
  }

  // The place of each code length symbol in the transmission order.
  const PLACE: seq<nat> := [3, 17, 15, 13, 11, 9, 7, 5, 4, 6, 8, 10, 12, 14, 16, 18, 0, 1, 2]

  lemma OrderIsPermutation()
    ensures |PLACE| == |CODE_LEN_ORDER| == 19
    ensures forall k :: 0 <= k < 19 ==> PLACE[k] < 19 && CODE_LEN_ORDER[PLACE[k]] == k
    ensures forall i :: 0 <= i < 19 ==> CODE_LEN_ORDER[i] < 19 && PLACE[CODE_LEN_ORDER[i]] == i
  {
  }

  /** After `i` code length code lengths, those have arrived and the others are still 0. */
  ghost predicate Arrived(got: seq<nat>, cl: seq<nat>, i: nat)
    requires |got| == |cl| == 19 && |PLACE| == 19
  {
    forall k :: 0 <= k < 19 ==> got[k] == if PLACE[k] < i then cl[k] else 0
  }

  lemma OneArrives(got: seq<nat>, cl: seq<nat>, i: nat)
    requires |cl| == |got| == 19 && |PLACE| == 19 && i < |CODE_LEN_ORDER| == 19 && Arrived(got, cl, i)
    ensures CODE_LEN_ORDER[i] < 19 && Arrived(got[CODE_LEN_ORDER[i] := cl[CODE_LEN_ORDER[i]]], cl, i + 1)
  {
    OrderIsPermutation();
  }

  lemma AllArrived(got: seq<nat>, cl: seq<nat>, n: nat)
    requires |cl| == |got| == 19 && |PLACE| == 19 && Arrived(got, cl, n)
    requires forall k :: 0 <= k < 19 && PLACE[k] >= n ==> cl[k] == 0
    ensures got == cl
  {
  }

  lemma CodeLengthStep(i: nat, n: nat, got: seq<nat>, bits: seq<bool>, v: nat, rest: seq<bool>)
    requires i < n <= |CODE_LEN_ORDER| == 19 && |got| == 19 && TakeBits(bits, 3) == Ok((v, rest))
    ensures CODE_LEN_ORDER[i] < 19
    ensures ReadCodeLengths(i, n, got, bits) == ReadCodeLengths(i + 1, n, got[CODE_LEN_ORDER[i] := v], rest)
  {
    hide TakeBits;
    TableFacts();
  }

  lemma PowerOfThree()
    ensures Pow2(3) == 8
  {
  }

  lemma {:induction false} ReadsCodeLengths(i: nat, n: nat, got: seq<nat>, cl: seq<nat>, rest: seq<bool>)
    requires i <= n <= |CODE_LEN_ORDER| == 19 && |cl| == |got| == 19 && |PLACE| == 19
    requires forall k :: 0 <= k < 19 ==> cl[k] < 8
    requires Arrived(got, cl, i) && forall k :: 0 <= k < 19 && PLACE[k] >= n ==> cl[k] == 0
    ensures ReadCodeLengths(i, n, got, OrderedBits(cl, i, n) + rest) == Ok((cl, rest))
    decreases n - i
  {
    hide Arrived, TakeBits, BitsOf;
    if i == n {
      AllArrived(got, cl, n);
      assert OrderedBits(cl, i, n) + rest == rest;
    } else {
      hide ReadCodeLengths, Pow2;
      PowerOfThree();
      OneArrives(got, cl, i);
      var v := cl[CODE_LEN_ORDER[i]];
      var rest' := OrderedBits(cl, i + 1, n) + rest;
      TakeBitsOf(v, 3, rest');
      assert OrderedBits(cl, i, n) + rest == BitsOf(v, 3) + rest';
      CodeLengthStep(i, n, got, BitsOf(v, 3) + rest', v, rest');
      ReadsCodeLengths(i + 1, n, got[CODE_LEN_ORDER[i] := v], cl, rest);
    }
  }

  lemma SizesSteps(bits: seq<bool>, hlit: nat, bits1: seq<bool>, hdist: nat, bits2: seq<bool>, hclen: nat,
                   rest: seq<bool>)
    requires TakeBits(bits, 5) == Ok((hlit, bits1)) && TakeBits(bits1, 5) == Ok((hdist, bits2))
    requires TakeBits(bits2, 4) == Ok((hclen, rest))
    ensures ReadSizes(bits) == Ok(((hlit + 257, hdist + 1, hclen + 4), rest))
  {
    hide TakeBits;
  }

  lemma SizesFit(h: Header)
    requires HeaderOk(h)
    ensures 0 <= h.hlit - 257 < Pow2(5) && 0 <= h.hdist - 1 < Pow2(5) && 0 <= h.hclen - 4 < Pow2(4) && h.hclen <= 19
  {
    hide WellFormed, HeaderLengths, Coded, RunOk;
    assert Pow2(4) == 16 && Pow2(5) == 32;
  }

  lemma ReadsSizes(h: Header, rest: seq<bool>)
    requires HeaderOk(h)
    ensures 257 <= h.hlit && 1 <= h.hdist && 4 <= h.hclen <= 19
    ensures ReadSizes(BitsOf(h.hlit - 257, 5) + (BitsOf(h.hdist - 1, 5) + (BitsOf(h.hclen - 4, 4) + rest))) ==
            Ok(((h.hlit, h.hdist, h.hclen), rest))
  {
    hide *;
    SizesFit(h);
    var bits2 := BitsOf(h.hclen - 4, 4) + rest;
    var bits1 := BitsOf(h.hdist - 1, 5) + bits2;
    TakeBitsOf(h.hlit - 257, 5, bits1);
    TakeBitsOf(h.hdist - 1, 5, bits2);
    TakeBitsOf(h.hclen - 4, 4, rest);
    SizesSteps(BitsOf(h.hlit - 257, 5) + bits1, h.hlit - 257, bits1, h.hdist - 1, bits2, h.hclen - 4, rest);
  }

  lemma TablesSteps(bits: seq<bool>, hlit: nat, hdist: nat, hclen: nat, bits1: seq<bool>, cl: seq<nat>,
                    bits2: seq<bool>, tree: Huffman, lengths: seq<nat>, rest: seq<bool>, lit: Huffman, dist: Huffman)
    requires ReadSizes(bits) == Ok(((hlit, hdist, hclen), bits1)) && hclen <= 19
    requires ReadCodeLengths(0, hclen, Repeat(0, 19), bits1) == Ok((cl, bits2))
    requires HuffmanFrom(cl) == Ok(tree) && ReadLengths(tree, hlit + hdist, [], bits2) == Ok((lengths, rest))
    requires hlit <= |lengths| && HuffmanFrom(lengths[..hlit]) == Ok(lit) && HuffmanFrom(lengths[hlit..]) == Ok(dist)
    ensures ReadTables(bits) == Ok(((lit, dist), rest))
  {
    hide ReadSizes, ReadCodeLengths, ReadLengths, HuffmanFrom;
  }

  lemma NothingArrived(cl: seq<nat>)
    requires |cl| == 19
    ensures |PLACE| == 19 && Arrived(Repeat(0, 19), cl, 0)
  {
  }

  lemma LaterAreZero(h: Header)
    requires HeaderOk(h)
    ensures |PLACE| == |CODE_LEN_ORDER| == 19 && forall k :: 0 <= k < 19 && PLACE[k] >= h.hclen ==> h.cl[k] == 0
  {
    hide WellFormed, HeaderLengths;
    OrderIsPermutation();
    forall k | 0 <= k < 19 && PLACE[k] >= h.hclen
      ensures h.cl[k] == 0
    {
      assert CODE_LEN_ORDER[PLACE[k]] == k;
    }
  }

  /** The tables read from a header are the ones its run-length coded lengths describe. */
  lemma ReadsHeader(h: Header, rest: seq<bool>)
    requires HeaderOk(h)
    ensures var lengths := HeaderLengths(h);
            ReadTables(HeaderBits(h) + rest) == Ok(((TableOf(lengths[..h.hlit]), TableOf(lengths[h.hlit..])), rest))
  {
    hide TableOf, WellFormed, ReadSizes, ReadCodeLengths, ReadLengths, HuffmanFrom, ReadTables, BitsOf, OrderedBits,
      RunsBits, Arrived, Repeat, RunsLengths;
    var lengths := HeaderLengths(h);
    var bits2 := RunsBits(h.runs, h.cl) + rest;
    LaterAreZero(h);
    var bits1 := OrderedBits(h.cl, 0, h.hclen) + bits2;
    var all := BitsOf(h.hlit - 257, 5) + (BitsOf(h.hdist - 1, 5) + (BitsOf(h.hclen - 4, 4) + bits1));
    assert HeaderBits(h) + rest == all;
    ReadsSizes(h, bits1);
    NothingArrived(h.cl);
    ReadsCodeLengths(0, h.hclen, Repeat(0, 19), h.cl, bits2);
    TableOfShaped(h.cl);
    ReadsRuns(h.runs, h.cl, [], h.hlit + h.hdist, rest);
    TableOfShaped(lengths[..h.hlit]);
    TableOfShaped(lengths[h.hlit..]);
    TablesSteps(all, h.hlit, h.hdist, h.hclen, bits1, h.cl, bits2, TableOf(h.cl), lengths, rest,
                TableOf(lengths[..h.hlit]), TableOf(lengths[h.hlit..]));
  }

  // ----- blocks and streams -----

  lemma AlignDropsPad(pad: seq<bool>, bits: seq<bool>)
    requires |pad| < 8 && |bits| % 8 == 0
    ensures Align(pad + bits) == bits
  {
    assert |pad + bits| % 8 == |pad|;
  }

  lemma ReadsByte(v: byte, rest: seq<bool>)
    requires |rest| % 8 == 0
    ensures TakeByte(BitsOf(v, 8) + rest) == Ok((v, rest))
  {
    hide BitsOf, TakeBits;
    assert Pow2(8) == 256;
    assert [] + (BitsOf(v, 8) + rest) == BitsOf(v, 8) + rest;
    AlignDropsPad([], BitsOf(v, 8) + rest);
    TakeBitsOf(v, 8, rest);
  }

  lemma {:induction false} ReadsBytes(data: seq<byte>, rest: seq<bool>, out: seq<byte>)
    requires |rest| % 8 == 0
    ensures CopyBytes(|data|, StreamBits(data) + rest, out) == Ok((out + data, rest))
    decreases |data|
  {
    hide TakeByte, BitsOf;
    if data == [] {
      assert StreamBits(data) + rest == rest && out + data == out;
    } else {
      var rest' := StreamBits(data[1..]) + rest;
      assert StreamBits(data) + rest == BitsOf(data[0], 8) + rest';
      ReadsByte(data[0], rest');
      ReadsBytes(data[1..], rest, out + [data[0]]);
      assert out + [data[0]] + data[1..] == out + data;
    }
  }

  lemma StoredSteps(bits: seq<bool>, bits0: seq<bool>, n: nat, bits1: seq<bool>, bits2: seq<bool>, out: seq<byte>)
    requires Align(bits) == bits0 && TakeBits(bits0, 16) == Ok((n, bits1)) && n <= 65535
    requires TakeBits(bits1, 16) == Ok((65535 - n, bits2))
    ensures InflateStored(bits, out) == CopyBytes(n, bits2, out)
  {
    hide Align, TakeBits, CopyBytes;
  }

  lemma ReadsStored(pad: seq<bool>, data: seq<byte>, rest: seq<bool>, out: seq<byte>)
    requires |pad| < 8 && |data| < 65536 && |rest| % 8 == 0
    ensures InflateStored(pad + BitsOf(|data|, 16) + BitsOf(65535 - |data|, 16) + StreamBits(data) + rest, out) ==
            Ok((out + data, rest))
  {
    hide Align, TakeBits, CopyBytes, BitsOf, InflateStored, StreamBits;
    var bits2 := StreamBits(data) + rest;
    var bits1 := BitsOf(65535 - |data|, 16) + bits2;
    var bits0 := BitsOf(|data|, 16) + bits1;
    var bits := pad + BitsOf(|data|, 16) + BitsOf(65535 - |data|, 16) + StreamBits(data) + rest;
    Associate(pad, BitsOf(|data|, 16), BitsOf(65535 - |data|, 16), StreamBits(data), rest);
    Pow2Of16();
    AlignDropsPad(pad, bits0);
    TakeBitsOf(|data|, 16, bits1);
    TakeBitsOf(65535 - |data|, 16, bits2);
    StoredSteps(bits, bits0, |data|, bits1, bits2, out);
    ReadsBytes(data, rest, out);
  }

  lemma TablesStep(bits: seq<bool>, lit: Huffman, dist: Huffman, bits1: seq<bool>, out: seq<byte>)
    requires Shaped(lit) && Shaped(dist) && ReadTables(bits) == Ok(((lit, dist), bits1))
    ensures InflateBlock(2, bits, out) == InflateTokens(lit, dist, bits1, out)
  {
    hide ReadTables, InflateTokens;
  }

  lemma FixedStep(bits: seq<bool>, lit: Huffman, dist: Huffman, out: seq<byte>)
    requires Shaped(lit) && Shaped(dist)
    requires HuffmanFrom(FixedLitLengths()) == Ok(lit) && HuffmanFrom(FixedDistLengths()) == Ok(dist)
    ensures InflateBlock(1, bits, out) == InflateTokens(lit, dist, bits, out)
  {
    hide HuffmanFrom, InflateTokens, FixedLitLengths, FixedDistLengths;
  }

  lemma ReadsFixed(ts: seq<Token>, out: seq<byte>, rest: seq<bool>)
    requires TokensOk(ts, FixedLitLengths(), FixedDistLengths(), out)
    ensures InflateBlock(1, TokensBits(ts, FixedLitLengths(), FixedDistLengths()) + rest, out) ==
            Ok((ExpandAll(ts, out), rest))
  {
    hide *;
    var l, d := FixedLitLengths(), FixedDistLengths();
    FixedWellFormed();
    TableOfShaped(l);
    TableOfShaped(d);
    TokensOkMeans(ts, l, d, out);
    ReadsTokens(ts, l, d, rest, out);
    FixedStep(TokensBits(ts, l, d) + rest, TableOf(l), TableOf(d), out);
  }

  lemma TokensOkMeans(ts: seq<Token>, lit: seq<nat>, dist: seq<nat>, out: seq<byte>)
    requires TokensOk(ts, lit, dist, out)
    ensures Coded(lit, END_OF_BLOCK) && AllApply(ts, out)
    ensures forall t :: t in ts ==> TokenOk(t) && TokenCoded(t, lit, dist)
  {
  }

  lemma HeaderOkMeans(h: Header)
    requires HeaderOk(h)
    ensures h.hlit <= |HeaderLengths(h)|
    ensures WellFormed(HeaderLengths(h)[..h.hlit]) && WellFormed(HeaderLengths(h)[h.hlit..])
  {
  }

  lemma ReadsDynamic(h: Header, ts: seq<Token>, out: seq<byte>, rest: seq<bool>)
    requires HeaderOk(h) && h.hlit <= |HeaderLengths(h)|
    requires TokensOk(ts, HeaderLengths(h)[..h.hlit], HeaderLengths(h)[h.hlit..], out)
    ensures var lit, dist := HeaderLengths(h)[..h.hlit], HeaderLengths(h)[h.hlit..];
            InflateBlock(2, HeaderBits(h) + TokensBits(ts, lit, dist) + rest, out) == Ok((ExpandAll(ts, out), rest))
  {
    hide *;
    HeaderOkMeans(h);
    var l, d := HeaderLengths(h)[..h.hlit], HeaderLengths(h)[h.hlit..];
    TokensOkMeans(ts, l, d, out);
    var rest' := TokensBits(ts, l, d) + rest;
    ReadsHeader(h, rest');
    TableOfShaped(l);
    TableOfShaped(d);
    TablesStep(HeaderBits(h) + rest', TableOf(l), TableOf(d), rest', out);
    ReadsTokens(ts, l, d, rest, out);
    assert HeaderBits(h) + TokensBits(ts, l, d) + rest == HeaderBits(h) + rest';
  }

  /** Whatever the kind of block, its bits are read back to its output. */
  lemma ReadsBlock(b: Block, pos: nat, out: seq<byte>, rest: seq<bool>)
    requires BlockOk(b, pos, out) && (BlockEnd(b, pos, out) + |rest|) % 8 == 0
    ensures InflateBlock(BlockType(b), BlockBits(b, pos, out) + rest, out) == Ok((BlockOutput(b, pos, out), rest))
  {
    hide TableOf, WellFormed, HuffmanFrom, TokensOk, HeaderOk, HeaderBits, TokensBits, InflateTokens, ReadTables,
      FixedLitLengths, FixedDistLengths, HeaderLengths, PadTo, InflateStored, BitsOf, StreamBits, ExpandAll;
    match b
    case Stored(pad, data) =>
      StoredAligned(pos, |pad|, |data|, |rest|);
      ReadsStored(pad, data, rest, out);
    case Fixed(ts) =>
      ReadsFixed(ts, out, rest);
    case Dynamic(h, ts) =>
      HeaderOkMeans(h);
      ReadsDynamic(h, ts, out, rest);
  }

  lemma StoredAligned(pos: nat, pad: nat, n: nat, rest: nat)
    requires pad == PadTo(pos + 3) && (pos + 3 + pad + 32 + 8 * n + rest) % 8 == 0
    ensures pad < 8 && rest % 8 == 0
  {
    assert (pos + 3 + pad) % 8 == 0;
  }

  lemma StreamStep(bits: seq<bool>, final: nat, bits1: seq<bool>, btype: nat, bits2: seq<bool>, out: seq<byte>,
                   out': seq<byte>, rest: seq<bool>)
    requires TakeBits(bits, 1) == Ok((final, bits1)) && TakeBits(bits1, 2) == Ok((btype, bits2))
    requires InflateBlock(btype, bits2, out) == Ok((out', rest))
    ensures InflateBits(bits, out) ==
            if final == 1 then Ok(out') else if |out'| > OUTPUT_CAP then Err(OutputTooLarge)
              else InflateBits(rest, out')
  {
    hide TakeBits, InflateBlock;
  }

  lemma StreamOkMeans(bs: seq<Block>, pos: nat, out: seq<byte>)
    requires StreamOk(bs, pos, out)
    ensures bs != [] && BlockOk(bs[0], pos, out)
    ensures |bs| > 1 ==> StreamOk(bs[1..], BlockEnd(bs[0], pos, out), BlockOutput(bs[0], pos, out))
  {
  }

  /** The bits of a stream after its first block. */
  function MoreBits(bs: seq<Block>, pos: nat, out: seq<byte>): seq<bool>
    requires StreamOk(bs, pos, out)
  {
    if |bs| == 1 then [] else DeflateBits(bs[1..], BlockEnd(bs[0], pos, out), BlockOutput(bs[0], pos, out))
  }

  lemma DeflateBitsIs(bs: seq<Block>, pos: nat, out: seq<byte>, tail: seq<bool>)
    requires StreamOk(bs, pos, out)
    ensures DeflateBits(bs, pos, out) + tail ==
            BitsOf(if |bs| == 1 then 1 else 0, 1) +
            (BitsOf(BlockType(bs[0]), 2) + (BlockBits(bs[0], pos, out) + (MoreBits(bs, pos, out) + tail)))
    ensures pos + |DeflateBits(bs, pos, out)| == BlockEnd(bs[0], pos, out) + |MoreBits(bs, pos, out)|
  {
    hide BlockBits, BitsOf, BlockOk, BlockOutput, BlockType;
    Associate(BitsOf(if |bs| == 1 then 1 else 0, 1), BitsOf(BlockType(bs[0]), 2), BlockBits(bs[0], pos, out),
              MoreBits(bs, pos, out), tail);
  }

  lemma BlockTypeFits(b: Block)
    ensures BlockType(b) < Pow2(2) && 0 < Pow2(1) && 1 < Pow2(1)
  {
    assert Pow2(1) == 2 && Pow2(2) == 4;
  }

  /** Inflating the bits of any well-formed sequence of blocks gives what the blocks stand for. */
  lemma {:induction false} ReadsStream(bs: seq<Block>, pos: nat, out: seq<byte>, tail: seq<bool>)
    requires StreamOk(bs, pos, out) && (pos + |DeflateBits(bs, pos, out)| + |tail|) % 8 == 0
    ensures InflateBits(DeflateBits(bs, pos, out) + tail, out) ==
            if WithinCap(bs, pos, out) then Ok(Inflated(bs, pos, out)) else Err(OutputTooLarge)
    decreases |bs|
  {
    hide BlockBits, BitsOf, BlockOk, BlockOutput, InflateBlock, TakeBits, InflateBits, BlockType, DeflateBits, BlockEnd;
    StreamOkMeans(bs, pos, out);
    var b := bs[0];
    var final := if |bs| == 1 then 1 else 0;
    var end, out' := BlockEnd(b, pos, out), BlockOutput(b, pos, out);
    var rest := MoreBits(bs, pos, out) + tail;
    var bits2 := BlockBits(b, pos, out) + rest;
    var bits1 := BitsOf(BlockType(b), 2) + bits2;
    DeflateBitsIs(bs, pos, out, tail);
    BlockTypeFits(b);
    TakeBitsOf(final, 1, bits1);
    TakeBitsOf(BlockType(b), 2, bits2);
    ReadsBlock(b, pos, out, rest);
    StreamStep(BitsOf(final, 1) + bits1, final, bits1, BlockType(b), bits2, out, out', rest);
    if |bs| > 1 {
      ReadsStream(bs[1..], end, out', tail);
    }
  }

  /** The round trip on bytes, whatever follows the last block. */
  lemma InflateUndoesDeflate(input: seq<byte>, bs: seq<Block>, tail: seq<bool>)
    requires StreamOk(bs, 0, []) && StreamBits(input) == DeflateBits(bs, 0, []) + tail
    ensures InflateBits(StreamBits(input), []) ==
            if WithinCap(bs, 0, []) then Ok(Inflated(bs, 0, [])) else Err(OutputTooLarge)
  {
    hide *;
    ReadsStream(bs, 0, [], tail);
  }

  lemma PadToIsPad(pos: nat)
    ensures (pos + PadTo(pos)) % 8 == 0
  {
  }

  /** Every stream can be stored in bytes, so the round trip applies to all of them. */
  lemma DeflateFitsBytes(bs: seq<Block>) returns (d: seq<byte>)
    requires StreamOk(bs, 0, [])
    ensures InflateBits(StreamBits(d), []) ==
            if WithinCap(bs, 0, []) then Ok(Inflated(bs, 0, [])) else Err(OutputTooLarge)
  {
    hide *;
    var bits := DeflateBits(bs, 0, []);
    var tail := Repeat(false, PadTo(|bits|));
    PadToIsPad(|bits|);
    d := Pack(bits + tail);
    InflateUndoesDeflate(d, bs, tail);
  }
}
