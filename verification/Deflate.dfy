/** The DEFLATE format of RFC 1951: what a compressed stream is, as bits, and what it stands for. */
module Deflate {
  import opened Words
  import opened Canonical

  // Section 3.2.5: lengths and distances.
  const LEN_BASE: seq<nat> := [
    3, 4, 5, 6, 7, 8, 9, 10, 11, 13, 15, 17, 19, 23, 27, 31, 35, 43, 51, 59, 67, 83, 99, 115, 131, 163, 195, 227, 258]
  const LEN_EXTRA: seq<nat> := [
    0, 0, 0, 0, 0, 0, 0, 0, 1, 1, 1, 1, 2, 2, 2, 2, 3, 3, 3, 3, 4, 4, 4, 4, 5, 5, 5, 5, 0]
  const DIST_BASE: seq<nat> := [
    1, 2, 3, 4, 5, 7, 9, 13, 17, 25, 33, 49, 65, 97, 129, 193, 257, 385, 513, 769, 1025, 1537, 2049, 3073, 4097, 6145,
    8193, 12289, 16385, 24577]
  const DIST_EXTRA: seq<nat> := [
    0, 0, 0, 0, 1, 1, 2, 2, 3, 3, 4, 4, 5, 5, 6, 6, 7, 7, 8, 8, 9, 9, 10, 10, 11, 11, 12, 12, 13, 13]
  // Section 3.2.7: the order in which code length code lengths are sent.
  const CODE_LEN_ORDER: seq<nat> := [16, 17, 18, 0, 8, 7, 9, 6, 10, 5, 11, 4, 12, 3, 13, 2, 14, 1, 15]

  const END_OF_BLOCK := 256
  const OUTPUT_CAP := 64 * 1024 * 1024

  lemma TableFacts()
    ensures |LEN_BASE| == |LEN_EXTRA| == 29 && |DIST_BASE| == |DIST_EXTRA| == 30 && |CODE_LEN_ORDER| == 19
    ensures forall i :: 0 <= i < 29 ==> LEN_EXTRA[i] <= 5
    ensures forall i :: 0 <= i < 30 ==> DIST_EXTRA[i] <= 13 && DIST_BASE[i] >= 1
    ensures forall i :: 0 <= i < 19 ==> CODE_LEN_ORDER[i] < 19
  {
  }

  // ----- tokens -----

  /** A byte, or a copy of earlier output, written as its length and distance codes with their extra bits. */
  datatype Token =
    | Literal(b: byte)
    | Match(lenCode: nat, lenExtra: nat, distCode: nat, distExtra: nat)

  predicate TokenOk(t: Token) {
    match t
    case Literal(_) => true
    case Match(l, le, d, de) =>
      l < |LEN_BASE| && l < |LEN_EXTRA| && le < Pow2(LEN_EXTRA[l]) &&
      d < |DIST_BASE| && d < |DIST_EXTRA| && de < Pow2(DIST_EXTRA[d])
  }

  function Length(t: Token): nat
    requires t.Match? && TokenOk(t)
  {
    LEN_BASE[t.lenCode] + t.lenExtra
  }

  function Distance(t: Token): nat
    requires t.Match? && TokenOk(t)
  {
    DIST_BASE[t.distCode] + t.distExtra
  }

  /** The last `d` bytes of `out`, repeated over and over for `n` bytes. */
  function CopyOf(out: seq<byte>, d: nat, n: nat): (c: seq<byte>)
    requires 0 < d <= |out|
    ensures |c| == n
  {
    seq(n, k requires 0 <= k < n => out[|out| - d + k % d])
  }

  /** A token makes sense after `out`: a copy must not reach before its beginning. */
  predicate Applies(t: Token, out: seq<byte>) {
    TokenOk(t) && (t.Match? ==> 0 < Distance(t) <= |out|)
  }

  function Expand(t: Token, out: seq<byte>): seq<byte>
    requires Applies(t, out)
  {
    match t
    case Literal(b) => out + [b]
    case Match(_, _, _, _) => out + CopyOf(out, Distance(t), Length(t))
  }

  predicate AllApply(ts: seq<Token>, out: seq<byte>)
    decreases |ts|
  {
    ts == [] || (Applies(ts[0], out) && AllApply(ts[1..], Expand(ts[0], out)))
  }

  function ExpandAll(ts: seq<Token>, out: seq<byte>): seq<byte>
    requires AllApply(ts, out)
    decreases |ts|
  {
    if ts == [] then out else ExpandAll(ts[1..], Expand(ts[0], out))
  }

  // ----- the bits of tokens -----

  predicate Coded(lengths: seq<nat>, s: nat) {
    s < |lengths| && lengths[s] > 0
  }

  predicate TokenCoded(t: Token, lit: seq<nat>, dist: seq<nat>) {
    match t
    case Literal(b) => Coded(lit, b)
    case Match(l, _, d, _) => Coded(lit, 257 + l) && Coded(dist, d)
  }

  function TokenBits(t: Token, lit: seq<nat>, dist: seq<nat>): (b: seq<bool>)
    requires TokenOk(t) && TokenCoded(t, lit, dist)
    ensures b != []
  {
    match t
    case Literal(b) => SymbolBits(lit, b)
    case Match(l, le, d, de) =>
      SymbolBits(lit, 257 + l) + BitsOf(le, LEN_EXTRA[l]) + SymbolBits(dist, d) + BitsOf(de, DIST_EXTRA[d])
  }

  /** The tokens of a block and the end-of-block code. */
  function TokensBits(ts: seq<Token>, lit: seq<nat>, dist: seq<nat>): seq<bool>
    requires Coded(lit, END_OF_BLOCK)
    requires forall t :: t in ts ==> TokenOk(t) && TokenCoded(t, lit, dist)
  {
    if ts == [] then SymbolBits(lit, END_OF_BLOCK)
    else TokenBits(ts[0], lit, dist) + TokensBits(ts[1..], lit, dist)
  }

  // ----- code lengths of a dynamic block, run-length coded (section 3.2.7) -----

  datatype Run =
    | Len(v: nat)
    | RepeatPrevious(n: nat)
    | Zeros(n: nat)
    | ManyZeros(n: nat)

  predicate RunOk(r: Run) {
    match r
    case Len(v) => v <= 15
    case RepeatPrevious(n) => 3 <= n <= 6
    case Zeros(n) => 3 <= n <= 10
    case ManyZeros(n) => 11 <= n <= 138
  }

  function RunSymbol(r: Run): nat {
    match r
    case Len(v) => v
    case RepeatPrevious(_) => 16
    case Zeros(_) => 17
    case ManyZeros(_) => 18
  }

  function Repeat<T>(v: T, n: nat): (s: seq<T>)
    ensures |s| == n
  {
    seq(n, _ => v)
  }

  /** The lengths a run stands for after `before`. With nothing before it, a repeat repeats 0. */
  function RunLengths(r: Run, before: seq<nat>): (s: seq<nat>)
    ensures RunOk(r) ==> s != []
  {
    match r
    case Len(v) => [v]
    case RepeatPrevious(n) => Repeat(if before == [] then 0 else before[|before| - 1], n)
    case Zeros(n) => Repeat(0, n)
    case ManyZeros(n) => Repeat(0, n)
  }

  function RunsLengths(rs: seq<Run>, before: seq<nat>): seq<nat>
    decreases |rs|
  {
    if rs == [] then before else RunsLengths(rs[1..], before + RunLengths(rs[0], before))
  }

  /** The bits of a run after its symbol: how often, less the least number. */
  function CountBits(r: Run): seq<bool>
    requires RunOk(r)
  {
    match r
    case Len(_) => []
    case RepeatPrevious(n) => BitsOf(n - 3, 2)
    case Zeros(n) => BitsOf(n - 3, 3)
    case ManyZeros(n) => BitsOf(n - 11, 7)
  }

  function RunBits(r: Run, cl: seq<nat>): seq<bool>
    requires RunOk(r) && Coded(cl, RunSymbol(r))
  {
    SymbolBits(cl, RunSymbol(r)) + CountBits(r)
  }

  function RunsBits(rs: seq<Run>, cl: seq<nat>): seq<bool>
    requires forall r :: r in rs ==> RunOk(r) && Coded(cl, RunSymbol(r))
  {
    if rs == [] then [] else RunBits(rs[0], cl) + RunsBits(rs[1..], cl)
  }

  /** A dynamic block's header: how many lengths of each kind, the code length code, and the runs. */
  datatype Header = Header(hlit: nat, hdist: nat, hclen: nat, cl: seq<nat>, runs: seq<Run>)

  /** The code length code lengths, in transmission order from the `i`-th to the `n`-th. */
  function OrderedBits(cl: seq<nat>, i: nat, n: nat): seq<bool>
    requires |cl| == 19 && i <= n <= |CODE_LEN_ORDER|
    decreases n - i
  {
    TableFacts();
    if i == n then [] else BitsOf(cl[CODE_LEN_ORDER[i]], 3) + OrderedBits(cl, i + 1, n)
  }

  function HeaderLengths(h: Header): seq<nat> {
    RunsLengths(h.runs, [])
  }

  ghost predicate HeaderOk(h: Header) {
    && 257 <= h.hlit < 257 + 32 && 1 <= h.hdist < 1 + 32 && 4 <= h.hclen <= 19
    && |h.cl| == 19 && (forall i :: 0 <= i < 19 ==> h.cl[i] < 8)
    && (forall i :: h.hclen <= i < 19 && i < |CODE_LEN_ORDER| && CODE_LEN_ORDER[i] < 19 ==>
        h.cl[CODE_LEN_ORDER[i]] == 0)
    && WellFormed(h.cl)
    && (forall r :: r in h.runs ==> RunOk(r) && Coded(h.cl, RunSymbol(r)))
    && |HeaderLengths(h)| == h.hlit + h.hdist
    && WellFormed(HeaderLengths(h)[..h.hlit])
    && WellFormed(HeaderLengths(h)[h.hlit..])
  }

  function HeaderBits(h: Header): seq<bool>
    requires HeaderOk(h)
  {
    TableFacts();
    BitsOf(h.hlit - 257, 5) + BitsOf(h.hdist - 1, 5) + BitsOf(h.hclen - 4, 4) +
    OrderedBits(h.cl, 0, h.hclen) + RunsBits(h.runs, h.cl)
  }

  // ----- the fixed code (section 3.2.6) -----

  function FixedLitLengths(): seq<nat> {
    Repeat(8, 144) + Repeat(9, 112) + Repeat(7, 24) + Repeat(8, 8)
  }

  function FixedDistLengths(): seq<nat> {
    Repeat(5, 32)
  }

  lemma RepeatAppend<T>(v: T, n: nat)
    ensures Repeat(v, n + 1) == Repeat(v, n) + [v]
  {
  }

  lemma KraftAppend(s: seq<nat>, x: nat)
    requires AtMost15(s) && 0 < x <= 15
    ensures AtMost15(s + [x]) && KraftSum(s + [x]) == KraftSum(s) + Pow2(15 - x)
  {
    assert (s + [x])[..|s|] == s;
  }

  lemma {:induction false} KraftRepeat(s: seq<nat>, v: nat, n: nat, room: nat)
    requires AtMost15(s) && 0 < v <= 15 && room == Pow2(15 - v)
    ensures AtMost15(s + Repeat(v, n))
    ensures KraftSum(s + Repeat(v, n)) == KraftSum(s) + n * room
  {
    hide *;
    if n == 0 {
      assert s + Repeat(v, n) == s;
    } else {
      KraftRepeat(s, v, n - 1, room);
      RepeatAppend(v, n - 1);
      assert s + Repeat(v, n) == s + Repeat(v, n - 1) + [v];
      KraftAppend(s + Repeat(v, n - 1), v);
      assert n * room == (n - 1) * room + room;
    }
  }

  lemma FixedWellFormed()
    ensures WellFormed(FixedLitLengths()) && WellFormed(FixedDistLengths())
    ensures |FixedLitLengths()| == 288 && |FixedDistLengths()| == 32
  {
    var a := [] + Repeat(8, 144);
    var b := a + Repeat(9, 112);
    var c := b + Repeat(7, 24);
    assert Pow2(7) == 128 && Pow2(6) == 64 && Pow2(8) == 256 && Pow2(10) == 1024;
    KraftRepeat([], 8, 144, 128);
    KraftRepeat(a, 9, 112, 64);
    KraftRepeat(b, 7, 24, 256);
    KraftRepeat(c, 8, 8, 128);
    assert FixedLitLengths() == c + Repeat(8, 8);
    KraftRepeat([], 5, 32, 1024);
    var d := [] + Repeat(5, 32);
    Pow2Of15();
    assert KraftSum([]) == 0;
    assert KraftSum(d) == 32 * 1024;
    assert WellFormed(d);
    assert FixedDistLengths() == d;
  }

  // ----- blocks and streams -----

  datatype Block =
    | Stored(pad: seq<bool>, data: seq<byte>)
    | Fixed(tokens: seq<Token>)
    | Dynamic(header: Header, tokens: seq<Token>)

  /** How many bits bring position `pos` to a byte boundary. */
  function PadTo(pos: nat): nat {
    (8 - pos % 8) % 8
  }

  ghost predicate TokensOk(ts: seq<Token>, lit: seq<nat>, dist: seq<nat>, out: seq<byte>) {
    && Coded(lit, END_OF_BLOCK)
    && (forall t :: t in ts ==> TokenOk(t) && TokenCoded(t, lit, dist))
    && AllApply(ts, out)
  }

  function LitLengths(b: Block): seq<nat>
    requires !b.Stored? && (b.Dynamic? ==> b.header.hlit <= |HeaderLengths(b.header)|)
  {
    if b.Fixed? then FixedLitLengths() else HeaderLengths(b.header)[..b.header.hlit]
  }

  function DistLengths(b: Block): seq<nat>
    requires !b.Stored? && (b.Dynamic? ==> b.header.hlit <= |HeaderLengths(b.header)|)
  {
    if b.Fixed? then FixedDistLengths() else HeaderLengths(b.header)[b.header.hlit..]
  }

  /** A block is well formed when it starts at bit `pos` of the stream and `out` is the output so far. */
  ghost predicate BlockOk(b: Block, pos: nat, out: seq<byte>) {
    match b
    case Stored(pad, data) => |pad| == PadTo(pos + 3) && |data| < 65536
    case Fixed(ts) => TokensOk(ts, FixedLitLengths(), FixedDistLengths(), out)
    case Dynamic(h, ts) => HeaderOk(h) && TokensOk(ts, LitLengths(b), DistLengths(b), out)
  }

  /** Everything of a block after its three header bits. */
  function BlockBits(b: Block, pos: nat, out: seq<byte>): seq<bool>
    requires BlockOk(b, pos, out)
  {
    match b
    case Stored(pad, data) =>
      pad + BitsOf(|data|, 16) + BitsOf(65535 - |data|, 16) + StreamBits(data)
    case Fixed(ts) => TokensBits(ts, LitLengths(b), DistLengths(b))
    case Dynamic(h, ts) => HeaderBits(h) + TokensBits(ts, LitLengths(b), DistLengths(b))
  }

  function BlockType(b: Block): nat {
    match b
    case Stored(_, _) => 0
    case Fixed(_) => 1
    case Dynamic(_, _) => 2
  }

  function BlockOutput(b: Block, pos: nat, out: seq<byte>): seq<byte>
    requires BlockOk(b, pos, out)
  {
    match b
    case Stored(_, data) => out + data
    case Fixed(ts) => ExpandAll(ts, out)
    case Dynamic(_, ts) => ExpandAll(ts, out)
  }

  function BlockEnd(b: Block, pos: nat, out: seq<byte>): nat
    requires BlockOk(b, pos, out)
  {
    pos + 3 + |BlockBits(b, pos, out)|
  }

  ghost predicate StreamOk(bs: seq<Block>, pos: nat, out: seq<byte>)
    decreases |bs|
  {
    && bs != []
    && BlockOk(bs[0], pos, out)
    && (|bs| > 1 ==> StreamOk(bs[1..], BlockEnd(bs[0], pos, out), BlockOutput(bs[0], pos, out)))
  }

  /** The blocks as bits; the last one carries the final mark. */
  function DeflateBits(bs: seq<Block>, pos: nat, out: seq<byte>): seq<bool>
    requires StreamOk(bs, pos, out)
    decreases |bs|
  {
    var b := bs[0];
    BitsOf(if |bs| == 1 then 1 else 0, 1) + BitsOf(BlockType(b), 2) + BlockBits(b, pos, out) +
    if |bs| == 1 then [] else DeflateBits(bs[1..], BlockEnd(b, pos, out), BlockOutput(b, pos, out))
  }

  /** What the blocks stand for after `out`. */
  function Inflated(bs: seq<Block>, pos: nat, out: seq<byte>): seq<byte>
    requires StreamOk(bs, pos, out)
    decreases |bs|
  {
    var out' := BlockOutput(bs[0], pos, out);
    if |bs| == 1 then out' else Inflated(bs[1..], BlockEnd(bs[0], pos, out), out')
  }

  /** Every block but the last leaves the output within the cap. */
  predicate WithinCap(bs: seq<Block>, pos: nat, out: seq<byte>)
    requires StreamOk(bs, pos, out)
    decreases |bs|
  {
    |bs| == 1 ||
    (|BlockOutput(bs[0], pos, out)| <= OUTPUT_CAP &&
     WithinCap(bs[1..], BlockEnd(bs[0], pos, out), BlockOutput(bs[0], pos, out)))
  }

  // ----- the tokens reach every length and distance -----

  /** Consecutive codes leave no value between them without a code. */
  ghost predicate Contiguous(base: seq<nat>, extra: seq<nat>) {
    |base| == |extra| && forall i :: 0 <= i < |base| - 1 ==> base[i] < base[i + 1] <= base[i] + Pow2(extra[i])
  }

  /** Entry `i` of a table runs up to the next one. */
  ghost predicate Meets(base: seq<nat>, extra: seq<nat>, i: nat) {
    i + 1 < |base| == |extra| && base[i] < base[i + 1] <= base[i] + Pow2(extra[i])
  }

  lemma MeetsAll(base: seq<nat>, extra: seq<nat>)
    requires |base| == |extra| && forall i: nat :: i < |base| - 1 ==> Meets(base, extra, i)
    ensures Contiguous(base, extra)
  {
    hide Pow2;
    forall i | 0 <= i < |base| - 1
      ensures base[i] < base[i + 1] <= base[i] + Pow2(extra[i])
    {
      assert Meets(base, extra, i);
    }
  }

  lemma LengthMeets(i: nat)
    requires i < 28
    ensures Meets(LEN_BASE, LEN_EXTRA, i)
  {
    SmallPowers();
    hide Pow2;
  }

  lemma DistanceMeets(i: nat)
    requires i < 29
    ensures Meets(DIST_BASE, DIST_EXTRA, i)
  {
    SmallPowers();
    hide Pow2;
  }

  lemma TablesContiguous()
    ensures Contiguous(LEN_BASE, LEN_EXTRA) && Contiguous(DIST_BASE, DIST_EXTRA)
  {
    hide Contiguous, Meets;
    forall i: nat | i < 28
      ensures Meets(LEN_BASE, LEN_EXTRA, i)
    {
      LengthMeets(i);
    }
    MeetsAll(LEN_BASE, LEN_EXTRA);
    forall i: nat | i < 29
      ensures Meets(DIST_BASE, DIST_EXTRA, i)
    {
      DistanceMeets(i);
    }
    MeetsAll(DIST_BASE, DIST_EXTRA);
  }

  lemma {:induction false} CodeFor(base: seq<nat>, extra: seq<nat>, v: nat, n: nat) returns (i: nat)
    requires Contiguous(base, extra) && 0 < n <= |base| && base[0] <= v < base[n - 1] + Pow2(extra[n - 1])
    ensures i < n && base[i] <= v < base[i] + Pow2(extra[i])
  {
    if v >= base[n - 1] {
      i := n - 1;
    } else {
      i := CodeFor(base, extra, v, n - 1);
    }
  }

  /** Every copy of 3 to 258 bytes from 1 to 32768 bytes back can be sent as a token. */
  lemma EveryCopyHasToken(n: nat, d: nat) returns (t: Token)
    requires 3 <= n <= 258 && 1 <= d <= 32768
    ensures t.Match? && TokenOk(t) && Length(t) == n && Distance(t) == d
  {
    TablesContiguous();
    SmallPowers();
    hide Pow2;
    var l := CodeFor(LEN_BASE, LEN_EXTRA, n, 29);
    var k := CodeFor(DIST_BASE, DIST_EXTRA, d, 30);
    t := Match(l, n - LEN_BASE[l], k, d - DIST_BASE[k]);
  }
}
