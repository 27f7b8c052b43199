/** What the inflater takes is DEFLATE: whatever it accepts is read as a well-formed stream of blocks. */
module Parsing {
  import opened Words
  import opened Canonical
  import opened BitReading
  import opened HuffmanTable
  import opened HuffmanDecode
  import opened Deflate
  import opened Inflate
  import opened RoundTrip

  // ----- tokens -----

  lemma BitsTaken(bits: seq<bool>, n: nat)
    requires TakeBits(bits, n).Ok?
    ensures var (v, rest) := TakeBits(bits, n).value;
            v < Pow2(n) && bits == BitsOf(v, n) + rest
  {
    hide BitsOf, Val, Pow2;
    Rejoined(bits, n);
    BitsOfVal(bits[..n]);
  }

  lemma Rejoined(bits: seq<bool>, n: nat)
    requires n <= |bits|
    ensures |bits[..n]| == n && bits == bits[..n] + bits[n..]
  {
  }

  lemma ExtraTaken(base: nat, extra: nat, bits: seq<bool>)
    requires ReadExtra(base, extra, bits).Ok?
    ensures var (v, rest) := ReadExtra(base, extra, bits).value;
            base <= v && v - base < Pow2(extra) && bits == BitsOf(v - base, extra) + rest
  {
    if extra > 0 {
      BitsTaken(bits, extra);
    } else {
      assert bits == BitsOf(0, 0) + bits;
    }
  }

  lemma SymbolTaken(lengths: seq<nat>, bits: seq<bool>, s: nat, rest: seq<bool>)
    requires WellFormed(lengths) && Shaped(TableOf(lengths)) && DecodeBits(TableOf(lengths), bits) == Ok((s, rest))
    ensures Coded(lengths, s) && bits == SymbolBits(lengths, s) + rest
  {
    DecodesExactly(lengths, bits, s, rest);
  }

  /** The steps of reading a match, where it succeeds. */
  lemma MatchParts(l: nat, dist: Huffman, bits: seq<bool>) returns (le: nat, d: nat, de: nat, bits1: seq<bool>,
                                                                     bits2: seq<bool>)
    requires l < 29 && Shaped(dist) && ReadMatch(l, dist, bits).Ok?
    ensures |LEN_BASE| == |LEN_EXTRA| == 29 && |DIST_BASE| == |DIST_EXTRA| == 30
    ensures le < Pow2(LEN_EXTRA[l]) && d < 30 && de < Pow2(DIST_EXTRA[d])
    ensures var ((length, distance), rest) := ReadMatch(l, dist, bits).value;
            && length == LEN_BASE[l] + le && distance == DIST_BASE[d] + de
            && bits == BitsOf(le, LEN_EXTRA[l]) + bits1
            && DecodeBits(dist, bits1) == Ok((d, bits2))
            && bits2 == BitsOf(de, DIST_EXTRA[d]) + rest
  {
    hide DecodeBits, BitsOf, Pow2, ReadExtra;
    TableFacts();
    ExtraTaken(LEN_BASE[l], LEN_EXTRA[l], bits);
    var (length, b1) := ReadExtra(LEN_BASE[l], LEN_EXTRA[l], bits).value;
    var (dsym, b2) := DecodeBits(dist, b1).value;
    ExtraTaken(DIST_BASE[dsym], DIST_EXTRA[dsym], b2);
    var (distance, _) := ReadExtra(DIST_BASE[dsym], DIST_EXTRA[dsym], b2).value;
    le, d, de, bits1, bits2 := length - LEN_BASE[l], dsym, distance - DIST_BASE[dsym], b1, b2;
  }

  lemma MatchTaken(l: nat, dist: seq<nat>, bits: seq<bool>) returns (t: Token)
    requires l < 29 && WellFormed(dist) && Shaped(TableOf(dist)) && ReadMatch(l, TableOf(dist), bits).Ok?
    ensures t.Match? && t.lenCode == l && TokenOk(t) && Coded(dist, t.distCode)
    ensures var ((length, distance), rest) := ReadMatch(l, TableOf(dist), bits).value;
            length == Length(t) && distance == Distance(t) && bits == MatchTail(t, dist, rest)
  {
    hide DecodeBits, BitsOf, Pow2, ReadMatch, TableOf, WellFormed, SymbolBits;
    var le, d, de, bits1, bits2 := MatchParts(l, TableOf(dist), bits);
    SymbolTaken(dist, bits1, d, bits2);
    t := Match(l, le, d, de);
  }

  /** The first turn of the token loop, where the loop succeeds. */
  lemma TokenTaken(lit: seq<nat>, dist: seq<nat>, bits: seq<bool>, out: seq<byte>) returns (t: Token, rest: seq<bool>)
    requires WellFormed(lit) && WellFormed(dist) && Shaped(TableOf(lit)) && Shaped(TableOf(dist))
    requires InflateTokens(TableOf(lit), TableOf(dist), bits, out).Ok?
    requires DecodeBits(TableOf(lit), bits).Ok? && DecodeBits(TableOf(lit), bits).value.0 != END_OF_BLOCK
    ensures Applies(t, out) && TokenCoded(t, lit, dist) && bits == TokenBits(t, lit, dist) + rest
  {
    hide DecodeBits, BitsOf, Pow2, ReadMatch, TableOf, WellFormed, SymbolBits, CopyMatch;
    var (sym, bits1) := DecodeBits(TableOf(lit), bits).value;
    SymbolTaken(lit, bits, sym, bits1);
    if sym < 256 {
      t, rest := Literal(sym), bits1;
    } else {
      t := MatchTaken(sym - 257, dist, bits1);
      rest := ReadMatch(sym - 257, TableOf(dist), bits1).value.1;
      MatchBits(t, lit, dist, rest);
    }
  }

  lemma StepTaken(t: Token, lit: seq<nat>, dist: seq<nat>, bits: seq<bool>, rest: seq<bool>, out: seq<byte>)
    requires WellFormed(lit) && WellFormed(dist) && Applies(t, out) && TokenCoded(t, lit, dist)
    requires bits == TokenBits(t, lit, dist) + rest
    ensures Shaped(TableOf(lit)) && Shaped(TableOf(dist)) && |rest| < |bits|
    ensures InflateTokens(TableOf(lit), TableOf(dist), bits, out) ==
            InflateTokens(TableOf(lit), TableOf(dist), rest, Expand(t, out))
  {
    hide TokenBits, InflateTokens, TableOf, WellFormed, Expand, Applies;
    ReadsToken(t, lit, dist, rest, out);
  }

  /** What the token loop takes are tokens and the end-of-block code. */
  lemma {:induction false} TokensTaken(lit: seq<nat>, dist: seq<nat>, bits: seq<bool>, out: seq<byte>)
    returns (ts: seq<Token>)
    requires WellFormed(lit) && WellFormed(dist) && Shaped(TableOf(lit)) && Shaped(TableOf(dist))
    requires InflateTokens(TableOf(lit), TableOf(dist), bits, out).Ok?
    ensures TokensOk(ts, lit, dist, out)
    ensures InflateTokens(TableOf(lit), TableOf(dist), bits, out).value.0 == ExpandAll(ts, out)
    ensures bits == TokensBits(ts, lit, dist) + InflateTokens(TableOf(lit), TableOf(dist), bits, out).value.1
    decreases |bits|
  {
    hide DecodeBits, TableOf, WellFormed, SymbolBits, TokenBits, Expand, Applies, ReadMatch, CopyMatch, TokenCoded,
      TokenOk;
    var (sym, bits1) := DecodeBits(TableOf(lit), bits).value;
    if sym == END_OF_BLOCK {
      SymbolTaken(lit, bits, sym, bits1);
      ts := [];
    } else {
      hide InflateTokens;
      var t, rest := TokenTaken(lit, dist, bits, out);
      StepTaken(t, lit, dist, bits, rest, out);
      var more := TokensTaken(lit, dist, rest, Expand(t, out));
      ts := [t] + more;
      AppliesOk(t, out);
      assert ts[1..] == more;
    }
  }

  lemma AppliesOk(t: Token, out: seq<byte>)
    requires Applies(t, out)
    ensures TokenOk(t)
  {
  }

  // ----- the header of a dynamic block -----

  lemma RunTaken(acc: seq<nat>, total: nat, v: nat, base: nat, n: nat, bits: seq<bool>) returns (rep: nat)
    requires ReadRun(acc, total, v, base, n, bits).Ok?
    ensures rep < Pow2(n) && |acc| + base + rep <= total
    ensures var (acc', rest) := ReadRun(acc, total, v, base, n, bits).value;
            acc' == acc + Repeat(v, base + rep) && bits == BitsOf(rep, n) + rest
  {
    hide BitsOf, Pow2, TakeBits;
    BitsTaken(bits, n);
    rep := TakeBits(bits, n).value.0;
  }

  lemma SymbolRun(sym: nat, acc: seq<nat>, total: nat, bits: seq<bool>) returns (r: Run)
    requires |acc| < total && ReadSymbol(sym, acc, total, bits).Ok?
    ensures RunOk(r) && RunSymbol(r) == sym
    ensures var (acc', rest) := ReadSymbol(sym, acc, total, bits).value;
            acc' == acc + RunLengths(r, acc) && bits == CountBits(r) + rest
  {
    assert Pow2(2) == 4 && Pow2(3) == 8 && Pow2(7) == 128;
    hide BitsOf, Pow2, ReadRun;
    if sym <= 15 {
      r := Len(sym);
      assert bits == [] + bits;
    } else if sym == 16 {
      var n := RunTaken(acc, total, if acc == [] then 0 else acc[|acc| - 1], 3, 2, bits);
      r := RepeatPrevious(3 + n);
    } else if sym == 17 {
      var n := RunTaken(acc, total, 0, 3, 3, bits);
      r := Zeros(3 + n);
    } else {
      var n := RunTaken(acc, total, 0, 11, 7, bits);
      r := ManyZeros(11 + n);
    }
  }

  /** What the length reader takes are runs. */
  lemma {:induction false} RunsTaken(cl: seq<nat>, total: nat, acc: seq<nat>, bits: seq<bool>) returns (rs: seq<Run>)
    requires WellFormed(cl) && Shaped(TableOf(cl)) && |acc| <= total && ReadLengths(TableOf(cl), total, acc, bits).Ok?
    ensures forall r :: r in rs ==> RunOk(r) && Coded(cl, RunSymbol(r))
    ensures var (lengths, rest) := ReadLengths(TableOf(cl), total, acc, bits).value;
            lengths == RunsLengths(rs, acc) && bits == RunsBits(rs, cl) + rest
    decreases |bits|
  {
    hide DecodeBits, TableOf, WellFormed, SymbolBits, RunLengths, ReadSymbol, CountBits, RunOk, RunSymbol, Coded;
    if |acc| == total {
      rs := [];
    } else {
      var (sym, bits1) := DecodeBits(TableOf(cl), bits).value;
      SymbolTaken(cl, bits, sym, bits1);
      var r := SymbolRun(sym, acc, total, bits1);
      var (acc', bits2) := ReadSymbol(sym, acc, total, bits1).value;
      DecodeShorter(TableOf(cl), bits);
      var more := RunsTaken(cl, total, acc', bits2);
      rs := [r] + more;
      assert RunBits(r, cl) == SymbolBits(cl, RunSymbol(r)) + CountBits(r);
      assert rs[1..] == more;
    }
  }

  /** One more length in its place, and the later ones in theirs. */
  lemma PlacesStep(i: nat, n: nat, got: seq<nat>, v: nat, cl: seq<nat>)
    requires i < n <= |CODE_LEN_ORDER| == 19 == |PLACE| && |got| == |cl| == 19 && v < 8
    requires CODE_LEN_ORDER[i] < 19
    requires forall k :: 0 <= k < 19 ==>
               if i + 1 <= PLACE[k] < n then cl[k] < 8 else cl[k] == got[CODE_LEN_ORDER[i] := v][k]
    ensures cl[CODE_LEN_ORDER[i]] == v
    ensures forall k :: 0 <= k < 19 ==> if i <= PLACE[k] < n then cl[k] < 8 else cl[k] == got[k]
  {
    OrderIsPermutation();
  }

  lemma OrderedStep(cl: seq<nat>, i: nat, n: nat)
    requires |cl| == 19 && i < n <= |CODE_LEN_ORDER| == 19
    ensures CODE_LEN_ORDER[i] < 19
    ensures OrderedBits(cl, i, n) == BitsOf(cl[CODE_LEN_ORDER[i]], 3) + OrderedBits(cl, i + 1, n)
  {
    hide BitsOf;
    TableFacts();
  }

  lemma NothingTaken(n: nat, got: seq<nat>, bits: seq<bool>)
    requires n <= |CODE_LEN_ORDER| == 19 && |got| == 19
    ensures ReadCodeLengths(n, n, got, bits) == Ok((got, bits)) && bits == OrderedBits(got, n, n) + bits
    ensures |PLACE| == 19
  {
  }

  /** The code length code lengths that arrive are the bits that were sent; places outside keep what they held. */
  lemma {:induction false} CodeLengthsTaken(i: nat, n: nat, got: seq<nat>, bits: seq<bool>)
    requires i <= n <= |CODE_LEN_ORDER| == 19 && |got| == 19 && ReadCodeLengths(i, n, got, bits).Ok?
    ensures var (cl, rest) := ReadCodeLengths(i, n, got, bits).value;
            && |cl| == 19 == |PLACE| && bits == OrderedBits(cl, i, n) + rest
            && forall k :: 0 <= k < 19 ==> if i <= PLACE[k] < n then cl[k] < 8 else cl[k] == got[k]
    decreases n - i
  {
    hide *;
    if i == n {
      NothingTaken(n, got, bits);
    } else {
      TakesThree(i, n, got, bits);
      PowerOfThree();
      OrderInRange(i);
      BitsTaken(bits, 3);
      var (v, rest) := TakeBits(bits, 3).value;
      var got' := got[CODE_LEN_ORDER[i] := v];
      CodeLengthStep(i, n, got, bits, v, rest);
      CodeLengthsTaken(i + 1, n, got', rest);
      var (cl, rest') := ReadCodeLengths(i + 1, n, got', rest).value;
      PlacesStep(i, n, got, v, cl);
      OrderedStep(cl, i, n);
    }
  }

  lemma TakesThree(i: nat, n: nat, got: seq<nat>, bits: seq<bool>)
    requires i < n <= |CODE_LEN_ORDER| == 19 && |got| == 19 && ReadCodeLengths(i, n, got, bits).Ok?
    ensures TakeBits(bits, 3).Ok?
  {
    hide TakeBits;
  }

  lemma OrderInRange(i: nat)
    requires i < 19
    ensures |CODE_LEN_ORDER| == 19 && CODE_LEN_ORDER[i] < 19
  {
    TableFacts();
  }

  lemma SizesTaken(bits: seq<bool>)
    requires ReadSizes(bits).Ok?
    ensures var ((hlit, hdist, hclen), rest) := ReadSizes(bits).value;
            && 257 <= hlit < 257 + 32 && 1 <= hdist < 1 + 32 && 4 <= hclen <= 19
            && bits == BitsOf(hlit - 257, 5) + (BitsOf(hdist - 1, 5) + (BitsOf(hclen - 4, 4) + rest))
  {
    assert Pow2(4) == 16 && Pow2(5) == 32;
    hide TakeBits, BitsOf, Pow2;
    BitsTaken(bits, 5);
    var bits1 := TakeBits(bits, 5).value.1;
    BitsTaken(bits1, 5);
    BitsTaken(TakeBits(bits1, 5).value.1, 4);
  }

  /** The code that sends the lengths and the two codes it sends meet the Kraft inequality, so far as they are there. */
  ghost predicate KraftHeader(bits: seq<bool>) {
    var sizes := ReadSizes(bits);
    sizes.Ok? ==>
      var ((hlit, hdist, hclen), bits1) := sizes.value;
      var code := ReadCodeLengths(0, hclen, Repeat(0, 19), bits1);
      code.Ok? ==> KraftLengths(code.value.0, hlit, hdist, code.value.1)
  }

  ghost predicate KraftLengths(cl: seq<nat>, hlit: nat, hdist: nat, bits: seq<bool>) {
    WellFormed(cl) && Shaped(TableOf(cl)) &&
    var lengths := ReadLengths(TableOf(cl), hlit + hdist, [], bits);
    lengths.Ok? ==> WellFormed(lengths.value.0[..hlit]) && WellFormed(lengths.value.0[hlit..])
  }

  /** The parts of a header that is read. */
  lemma HeaderParts(bits: seq<bool>) returns (h: Header, bits1: seq<bool>, bits2: seq<bool>)
    requires ReadTables(bits).Ok? && KraftHeader(bits)
    ensures 257 <= h.hlit < 257 + 32 && 1 <= h.hdist < 1 + 32 && 4 <= h.hclen <= 19
    ensures ReadSizes(bits) == Ok(((h.hlit, h.hdist, h.hclen), bits1))
    ensures ReadCodeLengths(0, h.hclen, Repeat(0, 19), bits1) == Ok((h.cl, bits2))
    ensures WellFormed(h.cl) && Shaped(TableOf(h.cl))
    ensures (forall r :: r in h.runs ==> RunOk(r) && Coded(h.cl, RunSymbol(r)))
    ensures |HeaderLengths(h)| == h.hlit + h.hdist
    ensures WellFormed(HeaderLengths(h)[..h.hlit]) && WellFormed(HeaderLengths(h)[h.hlit..])
    ensures ReadLengths(TableOf(h.cl), h.hlit + h.hdist, [], bits2) ==
            Ok((HeaderLengths(h), ReadTables(bits).value.1))
    ensures bits2 == RunsBits(h.runs, h.cl) + ReadTables(bits).value.1
  {
    hide TableOf, WellFormed, ReadSizes, ReadCodeLengths, ReadLengths, RunsBits, RunsLengths, OrderedBits, Shaped,
      RunOk,
      RunSymbol, Coded;
    SizesTaken(bits);
    var ((hlit, hdist, hclen), b1) := ReadSizes(bits).value;
    var (cl, b2) := ReadCodeLengths(0, hclen, Repeat(0, 19), b1).value;
    assert HuffmanFrom(cl) == Ok(TableOf(cl));
    var runs := RunsTaken(cl, hlit + hdist, [], b2);
    h, bits1, bits2 := Header(hlit, hdist, hclen, cl, runs), b1, b2;
  }

  /** A header that is read is the header of a dynamic block. */
  lemma HeaderTaken(bits: seq<bool>) returns (h: Header)
    requires ReadTables(bits).Ok? && KraftHeader(bits)
    ensures HeaderOk(h) && bits == HeaderBits(h) + ReadTables(bits).value.1
  {
    hide TableOf, WellFormed, ReadSizes, ReadCodeLengths, ReadLengths, RunsBits, HeaderLengths, OrderedBits, BitsOf,
      Shaped,
      RunOk, RunSymbol, Coded, ReadTables, KraftHeader;
    var bits1, bits2;
    h, bits1, bits2 := HeaderParts(bits);
    TableFacts();
    OrderIsPermutation();
    SizesTaken(bits);
    CodeLengthsTaken(0, h.hclen, Repeat(0, 19), bits1);
    assert HeaderOk(h);
    HeaderJoined(h, ReadTables(bits).value.1);
  }

  lemma HeaderJoined(h: Header, rest: seq<bool>)
    requires HeaderOk(h)
    ensures 257 <= h.hlit && 1 <= h.hdist && 4 <= h.hclen <= |CODE_LEN_ORDER|
    ensures HeaderBits(h) + rest ==
            BitsOf(h.hlit - 257, 5) +
            (BitsOf(h.hdist - 1, 5) +
             (BitsOf(h.hclen - 4, 4) + (OrderedBits(h.cl, 0, h.hclen) + (RunsBits(h.runs, h.cl) + rest))))
  {
    hide WellFormed, HeaderLengths, BitsOf, RunsBits, OrderedBits, RunOk, RunSymbol, Coded;
    TableFacts();
  }

  // ----- blocks -----

  lemma ByteTaken(bits: seq<bool>)
    requires |bits| % 8 == 0 && TakeByte(bits).Ok?
    ensures var (v, rest) := TakeByte(bits).value;
            v < 256 && bits == BitsOf(v, 8) + rest && |rest| % 8 == 0
  {
    hide BitsOf, Pow2;
    ByteRange();
    assert Align(bits) == bits;
    BitsTaken(bits, 8);
  }

  lemma ByteRange()
    ensures Pow2(8) == 256
  {
  }

  lemma {:induction false} BytesTaken(n: nat, bits: seq<bool>, out: seq<byte>) returns (data: seq<byte>)
    requires |bits| % 8 == 0 && CopyBytes(n, bits, out).Ok?
    ensures |data| == n
    ensures var (out', rest) := CopyBytes(n, bits, out).value;
            out' == out + data && bits == StreamBits(data) + rest && |rest| % 8 == 0
    decreases n
  {
    hide TakeByte, BitsOf;
    if n == 0 {
      data := [];
    } else {
      ByteTaken(bits);
      var (v, rest) := TakeByte(bits).value;
      var more := BytesTaken(n - 1, rest, out + [v]);
      data := [v] + more;
      assert data[1..] == more;
    }
  }

  lemma StoredParts(bits: seq<bool>, out: seq<byte>) returns (n: nat, bits2: seq<bool>)
    requires InflateStored(bits, out).Ok?
    ensures n <= 65535 && InflateStored(bits, out) == CopyBytes(n, bits2, out)
    ensures Align(bits) == BitsOf(n, 16) + (BitsOf(65535 - n, 16) + bits2)
  {
    hide BitsOf, TakeBits, Align, CopyBytes;
    var bits0 := Align(bits);
    BitsTaken(bits0, 16);
    var (len, bits1) := TakeBits(bits0, 16).value;
    BitsTaken(bits1, 16);
    n, bits2 := len, TakeBits(bits1, 16).value.1;
  }

  lemma StoredTaken(bits: seq<bool>, out: seq<byte>) returns (pad: seq<bool>, data: seq<byte>)
    requires InflateStored(bits, out).Ok?
    ensures |pad| == |bits| % 8 && |data| < 65536
    ensures var (out', rest) := InflateStored(bits, out).value;
            && out' == out + data
            && bits == pad + BitsOf(|data|, 16) + BitsOf(65535 - |data|, 16) + StreamBits(data) + rest
  {
    hide BitsOf, InflateStored, CopyBytes, StreamBits;
    var n, bits2 := StoredParts(bits, out);
    pad := bits[..|bits| % 8];
    assert |Align(bits)| == 32 + |bits2|;
    data := BytesTaken(n, bits2, out);
    var rest := CopyBytes(n, bits2, out).value.1;
    Associate(pad, BitsOf(n, 16), BitsOf(65535 - n, 16), StreamBits(data), rest);
    assert bits == pad + Align(bits);
  }

  lemma PadIs(pos: nat, n: nat)
    requires (pos + n) % 8 == 0
    ensures PadTo(pos) == n % 8
  {
  }

  /** The two codes that a header describes, and what follows it. */
  lemma DynamicParts(bits: seq<bool>, out: seq<byte>) returns (h: Header, rest: seq<bool>)
    requires InflateBlock(2, bits, out).Ok? && KraftHeader(bits)
    ensures HeaderOk(h) && h.hlit <= |HeaderLengths(h)| && bits == HeaderBits(h) + rest
    ensures var lit, dist := HeaderLengths(h)[..h.hlit], HeaderLengths(h)[h.hlit..];
            && WellFormed(lit) && WellFormed(dist) && Shaped(TableOf(lit)) && Shaped(TableOf(dist))
            && InflateBlock(2, bits, out) == InflateTokens(TableOf(lit), TableOf(dist), rest, out)
  {
    hide TableOf, WellFormed, InflateTokens, HeaderBits, ReadTables, KraftHeader, HeaderLengths, HeaderOk, Shaped;
    h := HeaderTaken(bits);
    rest := ReadTables(bits).value.1;
    HeaderOkMeans(h);
    ReadsHeader(h, rest);
    TableOfShaped(HeaderLengths(h)[..h.hlit]);
    TableOfShaped(HeaderLengths(h)[h.hlit..]);
  }

  lemma DynamicIs(h: Header, ts: seq<Token>, pos: nat, out: seq<byte>)
    requires HeaderOk(h) && h.hlit <= |HeaderLengths(h)|
    requires TokensOk(ts, HeaderLengths(h)[..h.hlit], HeaderLengths(h)[h.hlit..], out)
    ensures var b := Dynamic(h, ts);
            && BlockOk(b, pos, out) && AllApply(ts, out) && BlockOutput(b, pos, out) == ExpandAll(ts, out)
            && Coded(LitLengths(b), END_OF_BLOCK)
            && (forall t :: t in ts ==> TokenOk(t) && TokenCoded(t, LitLengths(b), DistLengths(b)))
            && BlockBits(b, pos, out) == HeaderBits(h) + TokensBits(ts, LitLengths(b), DistLengths(b))
  {
    hide HeaderOk, HeaderBits, TokensBits, HeaderLengths, TokenOk, TokenCoded, AllApply, ExpandAll, Coded;
  }

  lemma FixedIs(ts: seq<Token>, pos: nat, out: seq<byte>)
    requires TokensOk(ts, FixedLitLengths(), FixedDistLengths(), out)
    ensures var b := Fixed(ts);
            && BlockOk(b, pos, out) && AllApply(ts, out) && BlockOutput(b, pos, out) == ExpandAll(ts, out)
            && Coded(FixedLitLengths(), END_OF_BLOCK)
            && (forall t :: t in ts ==> TokenOk(t) && TokenCoded(t, FixedLitLengths(), FixedDistLengths()))
            && BlockBits(b, pos, out) == TokensBits(ts, FixedLitLengths(), FixedDistLengths())
  {
    hide TokensBits, TokenOk, TokenCoded, AllApply, ExpandAll, Coded, FixedLitLengths, FixedDistLengths;
  }

  lemma DynamicTaken(bits: seq<bool>, pos: nat, out: seq<byte>) returns (b: Block, rest: seq<bool>)
    requires InflateBlock(2, bits, out).Ok? && KraftHeader(bits)
    ensures b.Dynamic? && BlockOk(b, pos, out) && bits == BlockBits(b, pos, out) + rest
    ensures InflateBlock(2, bits, out) == Ok((BlockOutput(b, pos, out), rest))
  {
    hide *;
    var h, bits1 := DynamicParts(bits, out);
    var lit, dist := HeaderLengths(h)[..h.hlit], HeaderLengths(h)[h.hlit..];
    var ts := TokensTaken(lit, dist, bits1, out);
    b := Dynamic(h, ts);
    DynamicIs(h, ts, pos, out);
    SplitIs(h, ts);
    rest := InflateTokens(TableOf(lit), TableOf(dist), bits1, out).value.1;
    assert bits == HeaderBits(h) + (TokensBits(ts, lit, dist) + rest);
  }

  lemma SplitIs(h: Header, ts: seq<Token>)
    requires h.hlit <= |HeaderLengths(h)|
    ensures LitLengths(Dynamic(h, ts)) == HeaderLengths(h)[..h.hlit]
    ensures DistLengths(Dynamic(h, ts)) == HeaderLengths(h)[h.hlit..]
  {
    hide HeaderLengths;
  }

  lemma FixedTaken(bits: seq<bool>, pos: nat, out: seq<byte>) returns (b: Block, rest: seq<bool>)
    requires InflateBlock(1, bits, out).Ok?
    ensures b.Fixed? && BlockOk(b, pos, out) && bits == BlockBits(b, pos, out) + rest
    ensures InflateBlock(1, bits, out) == Ok((BlockOutput(b, pos, out), rest))
  {
    hide *;
    var lit, dist := FixedLitLengths(), FixedDistLengths();
    FixedWellFormed();
    TableOfShaped(lit);
    TableOfShaped(dist);
    FixedStep(bits, TableOf(lit), TableOf(dist), out);
    var ts := TokensTaken(lit, dist, bits, out);
    b := Fixed(ts);
    FixedIs(ts, pos, out);
    rest := InflateTokens(TableOf(lit), TableOf(dist), bits, out).value.1;
  }

  lemma StoredIs(pad: seq<bool>, data: seq<byte>, pos: nat, out: seq<byte>)
    requires |pad| == PadTo(pos + 3) && |data| < 65536
    ensures var b := Stored(pad, data);
            && BlockOk(b, pos, out) && BlockOutput(b, pos, out) == out + data
            && BlockBits(b, pos, out) == pad + BitsOf(|data|, 16) + BitsOf(65535 - |data|, 16) + StreamBits(data)
  {
    hide BitsOf, StreamBits, PadTo, TokensOk, HeaderOk, HeaderBits, TokensBits, ExpandAll;
  }

  lemma StoredBlock(bits: seq<bool>, pos: nat, out: seq<byte>) returns (b: Block, rest: seq<bool>)
    requires InflateStored(bits, out).Ok? && (pos + 3 + |bits|) % 8 == 0
    ensures b.Stored? && BlockOk(b, pos, out) && bits == BlockBits(b, pos, out) + rest
    ensures InflateStored(bits, out) == Ok((BlockOutput(b, pos, out), rest))
  {
    hide *;
    var pad, data := StoredTaken(bits, out);
    PadIs(pos + 3, |bits|);
    b := Stored(pad, data);
    rest := InflateStored(bits, out).value.1;
    StoredIs(pad, data, pos, out);
  }

  lemma OnlyThreeTypes(btype: nat, bits: seq<bool>, out: seq<byte>)
    requires InflateBlock(btype, bits, out).Ok?
    ensures btype == 0 || btype == 1 || btype == 2
    ensures btype == 0 ==> InflateBlock(btype, bits, out) == InflateStored(bits, out)
  {
    hide InflateStored, InflateTokens, ReadTables, HuffmanFrom, FixedLitLengths, FixedDistLengths;
  }

  /** A block that is taken is a block. */
  lemma BlockTaken(btype: nat, bits: seq<bool>, pos: nat, out: seq<byte>) returns (b: Block, rest: seq<bool>)
    requires InflateBlock(btype, bits, out).Ok? && (btype == 2 ==> KraftHeader(bits)) && (pos + 3 + |bits|) % 8 == 0
    ensures BlockOk(b, pos, out) && BlockType(b) == btype && bits == BlockBits(b, pos, out) + rest
    ensures InflateBlock(btype, bits, out) == Ok((BlockOutput(b, pos, out), rest))
  {
    hide *;
    OnlyThreeTypes(btype, bits, out);
    if btype == 0 {
      b, rest := StoredBlock(bits, pos, out);
    } else if btype == 1 {
      b, rest := FixedTaken(bits, pos, out);
    } else {
      b, rest := DynamicTaken(bits, pos, out);
    }
    TypeIs(b);
  }

  lemma TypeIs(b: Block)
    ensures BlockType(b) == if b.Stored? then 0 else if b.Fixed? then 1 else 2
  {
  }

  // ----- streams -----

  /** Every dynamic block that is reached describes codes that meet the Kraft inequality. */
  ghost predicate KraftStream(bits: seq<bool>, out: seq<byte>)
    decreases |bits|
  {
    var final := TakeBits(bits, 1);
    final.Ok? ==>
      var btype := TakeBits(final.value.1, 2);
      btype.Ok? ==>
        (btype.value.0 == 2 ==> KraftHeader(btype.value.1)) &&
        var block := InflateBlock(btype.value.0, btype.value.1, out);
        final.value.0 == 0 && block.Ok? ==> KraftStream(block.value.1, block.value.0)
  }

  /** The parts of a stream that is taken. */
  lemma StreamParts(bits: seq<bool>, out: seq<byte>)
    returns (final: nat, btype: nat, bits2: seq<bool>, out': seq<byte>, rest: seq<bool>)
    requires InflateBits(bits, out).Ok? && KraftStream(bits, out)
    ensures final < 2 && bits == BitsOf(final, 1) + (BitsOf(btype, 2) + bits2)
    ensures InflateBlock(btype, bits2, out) == Ok((out', rest)) && |rest| < |bits|
    ensures btype == 2 ==> KraftHeader(bits2)
    ensures final == 1 ==> InflateBits(bits, out) == Ok(out')
    ensures final == 0 ==> KraftStream(rest, out') && |out'| <= OUTPUT_CAP
    ensures final == 0 ==> InflateBits(bits, out) == InflateBits(rest, out')
  {
    OneBitRange();
    hide TakeBits, InflateBlock, BitsOf, KraftHeader, Pow2;
    BitsTaken(bits, 1);
    var bits1 := TakeBits(bits, 1).value.1;
    BitsTaken(bits1, 2);
    final, btype, bits2 := TakeBits(bits, 1).value.0, TakeBits(bits1, 2).value.0, TakeBits(bits1, 2).value.1;
    out', rest := InflateBlock(btype, bits2, out).value.0, InflateBlock(btype, bits2, out).value.1;
  }

  lemma OneBitRange()
    ensures Pow2(1) == 2
  {
  }

  lemma OneBlock(b: Block, pos: nat, out: seq<byte>)
    requires BlockOk(b, pos, out)
    ensures StreamOk([b], pos, out) && WithinCap([b], pos, out)
    ensures Inflated([b], pos, out) == BlockOutput(b, pos, out) && MoreBits([b], pos, out) == []
  {
    hide BlockOk, BlockOutput, BlockBits;
  }

  lemma MoreBlocks(b: Block, more: seq<Block>, pos: nat, out: seq<byte>)
    requires BlockOk(b, pos, out) && |BlockOutput(b, pos, out)| <= OUTPUT_CAP
    requires StreamOk(more, BlockEnd(b, pos, out), BlockOutput(b, pos, out))
    requires WithinCap(more, BlockEnd(b, pos, out), BlockOutput(b, pos, out))
    ensures var bs, end, out' := [b] + more, BlockEnd(b, pos, out), BlockOutput(b, pos, out);
            && |bs| > 1 && bs[0] == b && StreamOk(bs, pos, out) && WithinCap(bs, pos, out)
            && Inflated(bs, pos, out) == Inflated(more, end, out')
            && MoreBits(bs, pos, out) == DeflateBits(more, end, out')
  {
    hide BlockOk, BlockOutput, BlockBits, BlockEnd;
    StreamOkMeans(more, BlockEnd(b, pos, out), BlockOutput(b, pos, out));
    assert ([b] + more)[1..] == more;
    hide DeflateBits;
  }

  lemma EndIs(b: Block, pos: nat, out: seq<byte>)
    requires BlockOk(b, pos, out)
    ensures BlockEnd(b, pos, out) == pos + 3 + |BlockBits(b, pos, out)|
  {
    hide BlockBits;
  }

  /** Whatever is taken is a stream of blocks within the cap, inflated to what it stands for. */
  lemma {:induction false} StreamTaken(bits: seq<bool>, pos: nat, out: seq<byte>)
    returns (bs: seq<Block>, tail: seq<bool>)
    requires InflateBits(bits, out).Ok? && KraftStream(bits, out) && (pos + |bits|) % 8 == 0
    ensures StreamOk(bs, pos, out) && bits == DeflateBits(bs, pos, out) + tail
    ensures WithinCap(bs, pos, out) && InflateBits(bits, out) == Ok(Inflated(bs, pos, out))
    decreases |bits|
  {
    hide *;
    var final, btype, bits2, out', rest := StreamParts(bits, out);
    assert |bits| == 3 + |bits2|;
    var b, rest' := BlockTaken(btype, bits2, pos, out);
    if final == 1 {
      bs, tail := [b], rest;
      OneBlock(b, pos, out);
      assert MoreBits(bs, pos, out) + tail == tail;
    } else {
      EndIs(b, pos, out);
      var more;
      more, tail := StreamTaken(rest, BlockEnd(b, pos, out), out');
      bs := [b] + more;
      MoreBlocks(b, more, pos, out);
    }
    DeflateBitsIs(bs, pos, out, tail);
  }

  // ----- and such streams are taken -----

  lemma KraftHeaderStep(bits: seq<bool>, hlit: nat, hdist: nat, hclen: nat, bits1: seq<bool>, cl: seq<nat>,
                        bits2: seq<bool>, lengths: seq<nat>, rest: seq<bool>)
    requires ReadSizes(bits) == Ok(((hlit, hdist, hclen), bits1)) && hclen <= 19 && hlit <= |lengths|
    requires ReadCodeLengths(0, hclen, Repeat(0, 19), bits1) == Ok((cl, bits2))
    requires WellFormed(cl) && Shaped(TableOf(cl))
    requires ReadLengths(TableOf(cl), hlit + hdist, [], bits2) == Ok((lengths, rest))
    requires WellFormed(lengths[..hlit]) && WellFormed(lengths[hlit..])
    ensures KraftHeader(bits)
  {
    hide ReadSizes, ReadCodeLengths, ReadLengths, TableOf, WellFormed, Shaped;
  }

  lemma HeaderIsKraft(h: Header, rest: seq<bool>)
    requires HeaderOk(h)
    ensures KraftHeader(HeaderBits(h) + rest)
  {
    hide *;
    HeaderMeans(h);
    var lengths := HeaderLengths(h);
    var bits2 := RunsBits(h.runs, h.cl) + rest;
    LaterAreZero(h);
    var bits1 := OrderedBits(h.cl, 0, h.hclen) + bits2;
    HeaderJoined(h, rest);
    ReadsSizes(h, bits1);
    NothingArrived(h.cl);
    ReadsCodeLengths(0, h.hclen, Repeat(0, 19), h.cl, bits2);
    TableOfShaped(h.cl);
    ReadsRuns(h.runs, h.cl, [], h.hlit + h.hdist, rest);
    KraftHeaderStep(HeaderBits(h) + rest, h.hlit, h.hdist, h.hclen, bits1, h.cl, bits2, lengths, rest);
  }

  lemma HeaderMeans(h: Header)
    requires HeaderOk(h)
    ensures 257 <= h.hlit && 1 <= h.hdist && 4 <= h.hclen <= 19 && |h.cl| == 19 && |CODE_LEN_ORDER| == 19
    ensures (forall k :: 0 <= k < 19 ==> h.cl[k] < 8)
    ensures WellFormed(h.cl) && forall r :: r in h.runs ==> RunOk(r) && Coded(h.cl, RunSymbol(r))
    ensures HeaderLengths(h) == RunsLengths(h.runs, []) && |HeaderLengths(h)| == h.hlit + h.hdist
    ensures WellFormed(HeaderLengths(h)[..h.hlit]) && WellFormed(HeaderLengths(h)[h.hlit..])
  {
    hide WellFormed, RunsLengths, RunOk, Coded, RunSymbol;
    TableFacts();
  }

  lemma BlockIsKraft(b: Block, pos: nat, out: seq<byte>, rest: seq<bool>)
    requires BlockOk(b, pos, out)
    ensures BlockType(b) == 2 ==> KraftHeader(BlockBits(b, pos, out) + rest)
  {
    hide *;
    TypeIs(b);
    if b.Dynamic? {
      var more := DynamicBits(b, pos, out);
      HeaderIsKraft(b.header, more + rest);
      assert HeaderBits(b.header) + more + rest == HeaderBits(b.header) + (more + rest);
    }
  }

  lemma DynamicBits(b: Block, pos: nat, out: seq<byte>) returns (more: seq<bool>)
    requires b.Dynamic? && BlockOk(b, pos, out)
    ensures HeaderOk(b.header) && BlockBits(b, pos, out) == HeaderBits(b.header) + more
  {
    HeaderOkMeans(b.header);
    hide HeaderOk, HeaderBits, TokensBits, HeaderLengths, TokenOk, TokenCoded, AllApply, ExpandAll, Coded;
    more := TokensBits(b.tokens, LitLengths(b), DistLengths(b));
  }

  lemma KraftStep(bits: seq<bool>, final: nat, bits1: seq<bool>, btype: nat, bits2: seq<bool>, out: seq<byte>,
                  out': seq<byte>, rest: seq<bool>)
    requires TakeBits(bits, 1) == Ok((final, bits1)) && TakeBits(bits1, 2) == Ok((btype, bits2))
    requires InflateBlock(btype, bits2, out) == Ok((out', rest)) && (btype == 2 ==> KraftHeader(bits2))
    requires final == 0 ==> KraftStream(rest, out')
    ensures KraftStream(bits, out)
  {
    hide TakeBits, InflateBlock, KraftHeader;
  }

  lemma {:induction false} StreamIsKraft(bs: seq<Block>, pos: nat, out: seq<byte>, tail: seq<bool>)
    requires StreamOk(bs, pos, out) && (pos + |DeflateBits(bs, pos, out)| + |tail|) % 8 == 0
    ensures KraftStream(DeflateBits(bs, pos, out) + tail, out)
    decreases |bs|
  {
    hide *;
    StreamOkMeans(bs, pos, out);
    var b := bs[0];
    var final := if |bs| == 1 then 1 else 0;
    var end, out' := BlockEnd(b, pos, out), BlockOutput(b, pos, out);
    var rest := MoreBits(bs, pos, out) + tail;
    var bits2 := BlockBits(b, pos, out) + rest;
    var bits1 := BitsOf(BlockType(b), 2) + bits2;
    DeflateBitsIs(bs, pos, out, tail);
    BlockTypeFits(b);
    TakeBitsOf(final, 1, bits1);
    TakeBitsOf(BlockType(b), 2, bits2);
    ReadsBlock(b, pos, out, rest);
    BlockIsKraft(b, pos, out, rest);
    if |bs| > 1 {
      MoreBitsAre(bs, pos, out);
      StreamIsKraft(bs[1..], end, out', tail);
    }
    KraftStep(BitsOf(final, 1) + bits1, final, bits1, BlockType(b), bits2, out, out', rest);
  }

  lemma MoreBitsAre(bs: seq<Block>, pos: nat, out: seq<byte>)
    requires |bs| > 1 && StreamOk(bs, pos, out)
    ensures StreamOk(bs[1..], BlockEnd(bs[0], pos, out), BlockOutput(bs[0], pos, out))
    ensures MoreBits(bs, pos, out) == DeflateBits(bs[1..], BlockEnd(bs[0], pos, out), BlockOutput(bs[0], pos, out))
  {
    hide BlockEnd, BlockOutput, BlockOk, DeflateBits;
  }

  /** The input is these blocks, within the cap, and any bits after the last one; they stand for `r`. */
  ghost predicate Holds(input: seq<byte>, bs: seq<Block>, tail: seq<bool>, r: seq<byte>) {
    && StreamOk(bs, 0, []) && StreamBits(input) == DeflateBits(bs, 0, []) + tail
    && WithinCap(bs, 0, []) && Inflated(bs, 0, []) == r
  }

  /** With codes that meet the Kraft inequality, exactly the streams of blocks are taken, for what they stand for. */
  lemma TakenIff(input: seq<byte>, r: seq<byte>)
    ensures InflateBits(StreamBits(input), []) == Ok(r) && KraftStream(StreamBits(input), []) <==>
            exists bs, tail :: Holds(input, bs, tail, r)
  {
    hide *;
    if InflateBits(StreamBits(input), []) == Ok(r) && KraftStream(StreamBits(input), []) {
      var bs, tail := StreamTaken(StreamBits(input), 0, []);
      HoldsIff(input, bs, tail, r);
    }
    forall bs, tail | Holds(input, bs, tail, r)
      ensures InflateBits(StreamBits(input), []) == Ok(r) && KraftStream(StreamBits(input), [])
    {
      HoldsIff(input, bs, tail, r);
      InflateUndoesDeflate(input, bs, tail);
      StreamIsKraft(bs, 0, [], tail);
    }
  }

  lemma HoldsIff(input: seq<byte>, bs: seq<Block>, tail: seq<bool>, r: seq<byte>)
    ensures Holds(input, bs, tail, r) <==>
            && StreamOk(bs, 0, []) && StreamBits(input) == DeflateBits(bs, 0, []) + tail
            && WithinCap(bs, 0, []) && Inflated(bs, 0, []) == r
  {
    hide StreamOk, StreamBits, DeflateBits, WithinCap, Inflated;
  }
}
