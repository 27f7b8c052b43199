/** The mark kernel for printable bytes: packing, the dispatch plan, and what all invocations together write. */
module GpuSchedule {
  import opened Words
  import opened BulkScan

  const U32: nat := 0x1_0000_0000

  // ----- the dispatch plan -----

  function Total(chunks: seq<nat>): nat {
    if chunks == [] then 0 else Total(chunks[..|chunks| - 1]) + chunks[|chunks| - 1]
  }

  predicate EachWithin(chunks: seq<nat>, max: nat) {
    forall k :: 0 <= k < |chunks| ==> 1 <= chunks[k] <= max
  }

  method PlanChunks(total: nat, maxPerDim: nat) returns (chunks: seq<nat>)
    ensures Total(chunks) == total
    ensures EachWithin(chunks, if maxPerDim == 0 then 1 else maxPerDim)
  {
    var max := if maxPerDim == 0 then 1 else maxPerDim;
    chunks := [];
    var remaining := total;
    while remaining > 0
      invariant 0 <= remaining <= total && Total(chunks) == total - remaining && EachWithin(chunks, max)
    {
      var n := if remaining < max then remaining else max;
      assert (chunks + [n])[..|chunks|] == chunks;
      chunks := chunks + [n];
      remaining := remaining - n;
    }
  }

  /** The first invocation of dispatch `d`. */
  function Base(chunks: seq<nat>, d: nat): nat
    requires d <= |chunks|
  {
    256 * Total(chunks[..d])
  }

  /** Invocation `g` of dispatch `d` handles byte `i`. */
  predicate Handles(chunks: seq<nat>, d: nat, g: nat, i: nat) {
    d < |chunks| && g < 256 * chunks[d] && i == Base(chunks, d) + g
  }

  lemma BaseStep(chunks: seq<nat>, d: nat)
    requires d < |chunks|
    ensures Base(chunks, d + 1) == Base(chunks, d) + 256 * chunks[d]
  {
    assert chunks[..d + 1][..d] == chunks[..d];
  }

  lemma {:induction false} BaseMonotone(chunks: seq<nat>, c: nat, d: nat)
    requires c <= d <= |chunks|
    ensures Base(chunks, c) <= Base(chunks, d)
    decreases d - c
  {
    hide Base;
    if c < d {
      BaseStep(chunks, d - 1);
      BaseMonotone(chunks, c, d - 1);
    }
  }

  lemma {:induction false} SomeHandles(chunks: seq<nat>, n: nat, i: nat) returns (d: nat, g: nat)
    requires 0 < n <= |chunks| && i < Base(chunks, n)
    ensures Handles(chunks, d, g, i)
    decreases n
  {
    BaseStep(chunks, n - 1);
    if n > 1 && i < Base(chunks, n - 1) {
      d, g := SomeHandles(chunks, n - 1, i);
    } else {
      assert Base(chunks, 0) == 0;
      d, g := n - 1, i - Base(chunks, n - 1);
    }
  }

  /** Each byte is handled by one invocation of one dispatch, and by no other. */
  lemma HandledOnce(chunks: seq<nat>, i: nat) returns (d: nat, g: nat)
    requires i < 256 * Total(chunks)
    ensures Handles(chunks, d, g, i)
    ensures forall d': nat, g': nat :: Handles(chunks, d', g', i) ==> d' == d && g' == g
  {
    assert chunks[..|chunks|] == chunks;
    d, g := SomeHandles(chunks, |chunks|, i);
    forall d': nat, g': nat | Handles(chunks, d', g', i)
      ensures d' == d && g' == g
    {
      OnlyHandler(chunks, d, g, d', g', i);
    }
  }

  lemma OnlyHandler(chunks: seq<nat>, d: nat, g: nat, e: nat, h: nat, i: nat)
    requires Handles(chunks, d, g, i) && Handles(chunks, e, h, i)
    ensures d == e && g == h
  {
    hide Base;
    BaseStep(chunks, d);
    BaseStep(chunks, e);
    if d < e {
      BaseMonotone(chunks, d + 1, e);
    } else if e < d {
      BaseMonotone(chunks, e + 1, d);
    }
  }

  /** Below 2^32 bytes no invocation number overflows 32 bits, up to the last one of the last dispatch. */
  lemma NoOverflow(chunks: seq<nat>, n: nat, d: nat, g: nat)
    requires n < U32 && Total(chunks) == (n + 255) / 256 && d < |chunks| && g < 256 * chunks[d]
    ensures Base(chunks, d) + g < U32
  {
    BaseStep(chunks, d);
    BaseMonotone(chunks, d + 1, |chunks|);
    assert chunks[..|chunks|] == chunks;
  }

  // ----- packing bytes into words -----

  /** Bytes as a number, least significant first. */
  function LeVal(s: seq<byte>): (v: nat)
    ensures v < Pow2(8 * |s|)
    decreases |s|
  {
    if s == [] then 0
    else
      Pow2Of8(8 * |s|);
      s[0] + 256 * LeVal(s[1..])
  }

  lemma Pow2Of8(n: nat)
    requires n >= 8
    ensures Pow2(n) == 256 * Pow2(n - 8)
  {
    Pow2Add(8, n - 8);
    assert Pow2(8) == 256;
  }

  lemma {:induction false} LeValAppend(s: seq<byte>, b: byte)
    ensures LeVal(s + [b]) == LeVal(s) + b * Pow2(8 * |s|)
    decreases |s|
  {
    assert Pow2(0) == 1;
    hide Pow2;
    if s == [] {
      assert LeVal([b]) == b + 256 * LeVal([]);
    } else {
      LeValAppend(s[1..], b);
      assert (s + [b])[1..] == s[1..] + [b];
      assert (s + [b])[0] == s[0];
      Pow2Of8(8 * |s|);
      ScaleBy256(b, Pow2(8 * |s| - 8));
    }
  }

  lemma ScaleBy256(b: nat, p: nat)
    ensures b * (256 * p) == 256 * (b * p)
  {
  }

  lemma {:induction false} ShrByte(v: nat, n: nat)
    requires n >= 8
    ensures Shr(v, n) == Shr(v / 256, n - 8)
  {
    assert Shr(v, n) == Shr(v / 2, n - 1) == Shr(v / 2 / 2, n - 2) == Shr(v / 2 / 2 / 2, n - 3);
    assert Shr(v / 8, n - 3) == Shr(v / 8 / 2, n - 4) == Shr(v / 8 / 2 / 2, n - 5) == Shr(v / 64, n - 6);
    assert Shr(v / 64, n - 6) == Shr(v / 64 / 2, n - 7) == Shr(v / 64 / 2 / 2, n - 8);
  }

  /** Shifting down and masking reads byte `k` back. */
  lemma {:induction false} ReadsByte(s: seq<byte>, k: nat)
    requires k < |s|
    ensures And(Shr(LeVal(s), 8 * k), 0xff) == s[k]
    decreases k
  {
    var rest := LeVal(s[1..]);
    assert (s[0] + 256 * rest) / 256 == rest && (s[0] + 256 * rest) % 256 == s[0];
    if k == 0 {
      AndMask(LeVal(s), 8);
      assert Pow2(8) - 1 == 0xff;
      LowByteIs(LeVal(s));
    } else {
      ShrByte(LeVal(s), 8 * k);
      ReadsByte(s[1..], k - 1);
    }
  }

  /** The bytes of word `k` among the first `n`. */
  function WordBytes(hay: seq<byte>, k: nat, n: nat): seq<byte>
    requires n <= |hay|
  {
    if 4 * k >= n then [] else if 4 * k + 4 <= n then hay[4 * k..4 * k + 4] else hay[4 * k..n]
  }

  /** Byte `n` goes above the bytes already in its word, and touches no other word. */
  lemma PackStep(hay: seq<byte>, k: nat, n: nat)
    requires n < |hay|
    ensures k == n / 4 ==>
              Or(LeVal(WordBytes(hay, k, n)), Shl(hay[n], 8 * (n % 4), 32)) == LeVal(WordBytes(hay, k, n + 1))
    ensures k != n / 4 ==> WordBytes(hay, k, n + 1) == WordBytes(hay, k, n)
  {
    if k == n / 4 {
      var s := WordBytes(hay, k, n);
      assert |s| == n % 4;
      assert WordBytes(hay, k, n + 1) == s + [hay[n]];
      LeValAppend(s, hay[n]);
      ByteFits(hay[n], n % 4);
      OrDisjoint(LeVal(s), hay[n], 8 * (n % 4));
    }
  }

  lemma ByteFits(b: byte, j: nat)
    requires j < 4
    ensures Shl(b, 8 * j, 32) == b * Pow2(8 * j)
  {
    assert Pow2(8) == 256;
    hide Pow2, Low;
    Pow2Add(8, 8 * j);
    Pow2Monotone(8 + 8 * j, 32);
    MulLess(b, 256, Pow2(8 * j));
    LowFits(b * Pow2(8 * j), 32);
  }

  lemma MulLess(a: nat, b: nat, p: nat)
    requires a < b && p > 0
    ensures a * p < b * p
  {
    AtLeastOne(b - a, p);
    assert (b - a) * p == b * p - a * p;
  }

  // ----- the kernel and its dispatches -----

  method PackWords(hay: seq<byte>) returns (words: array<nat>)
    ensures fresh(words) && words.Length == (|hay| + 3) / 4
    ensures forall k :: 0 <= k < words.Length ==> words[k] == LeVal(WordBytes(hay, k, |hay|))
  {
    hide LeVal, Or, Shl, WordBytes;
    words := new nat[(|hay| + 3) / 4](_ => 0);
    forall k: nat
      ensures LeVal(WordBytes(hay, k, 0)) == 0
    {
      NothingPacked(hay, k);
    }
    for i := 0 to |hay|
      invariant forall k :: 0 <= k < words.Length ==> words[k] == LeVal(WordBytes(hay, k, i))
    {
      forall k | 0 <= k < words.Length
        ensures k == i / 4 ==>
                  Or(LeVal(WordBytes(hay, k, i)), Shl(hay[i], 8 * (i % 4), 32)) == LeVal(WordBytes(hay, k, i + 1))
        ensures k != i / 4 ==> LeVal(WordBytes(hay, k, i + 1)) == LeVal(WordBytes(hay, k, i))
      {
        PackStep(hay, k, i);
      }
      words[i / 4] := Or(words[i / 4], Shl(hay[i], 8 * (i % 4), 32));
    }
  }

  lemma NothingPacked(hay: seq<byte>, k: nat)
    ensures LeVal(WordBytes(hay, k, 0)) == 0
  {
  }

  lemma UnpacksByte(hay: seq<byte>, i: nat)
    requires i < |hay|
    ensures And(Shr(LeVal(WordBytes(hay, i / 4, |hay|)), 8 * (i % 4)), 0xff) == hay[i]
  {
    ReadsByte(WordBytes(hay, i / 4, |hay|), i % 4);
  }

  /** What the flags are once the first `n` bytes are marked. */
  function MarkedUpTo(hay: seq<byte>, n: nat): (m: seq<bool>)
    ensures |m| == |hay|
  {
    seq(|hay|, i requires 0 <= i < |hay| => i < n && Printable(hay[i]))
  }

  /** One invocation: reads its byte out of the packed words and writes its own flag, if it has one. */
  method Invoke(hay: seq<byte>, words: array<nat>, output: array<bool>, n: nat, baseInv: nat, gid: nat)
    requires n <= |hay| && output.Length == |hay| && words.Length == (|hay| + 3) / 4
    requires forall k :: 0 <= k < words.Length ==> words[k] == LeVal(WordBytes(hay, k, |hay|))
    modifies output
    ensures var i := (gid + baseInv) % U32;
            output[..] == if i < n then old(output[..])[i := Printable(hay[i])] else old(output[..])
  {
    hide LeVal, WordBytes, And, Shr;
    var i := (gid + baseInv) % U32;
    if i >= n { return; }
    var word := words[i / 4];
    UnpacksByte(hay, i);
    var b := And(Shr(word, 8 * (i % 4)), 0xff);
    output[i] := (0x20 <= b && b <= 0x7e) || b == 9;
  }

  /** Of the `size` flags from `base` on, those not in `todo` are marked; all others are as before. */
  ghost predicate Written(now: seq<bool>, before: seq<bool>, hay: seq<byte>, n: nat, base: nat, size: nat,
                          todo: set<nat>)
  {
    |now| == |before| == |hay| &&
    forall i :: 0 <= i < |hay| ==>
      now[i] == if i < n && base <= i < base + size && i - base !in todo then Printable(hay[i]) else before[i]
  }

  lemma WrittenStep(now: seq<bool>, before: seq<bool>, hay: seq<byte>, n: nat, base: nat, size: nat, todo: set<nat>,
                    gid: nat)
    requires Written(now, before, hay, n, base, size, todo) && gid in todo && gid < size && n <= |hay|
    ensures Written(if base + gid < n then now[base + gid := Printable(hay[base + gid])] else now,
                    before, hay, n, base, size, todo - {gid})
  {
  }

  /** All invocations of one dispatch, in any order. */
  method Dispatch(hay: seq<byte>, words: array<nat>, output: array<bool>, n: nat, baseInv: nat, groups: nat)
    requires n <= |hay| && output.Length == |hay| && words.Length == (|hay| + 3) / 4
    requires forall k :: 0 <= k < words.Length ==> words[k] == LeVal(WordBytes(hay, k, |hay|))
    requires baseInv + 256 * groups <= U32
    modifies output
    ensures Written(output[..], old(output[..]), hay, n, baseInv, 256 * groups, {})
  {
    hide LeVal, WordBytes, Written, Printable;
    ghost var before := output[..];
    var todo := Upto(256 * groups);
    NothingWritten(before, hay, n, baseInv, 256 * groups);
    while todo != {}
      invariant todo <= Upto(256 * groups)
      invariant Written(output[..], before, hay, n, baseInv, 256 * groups, todo)
      decreases |todo|
    {
      var gid :| gid in todo;
      WrittenStep(output[..], before, hay, n, baseInv, 256 * groups, todo, gid);
      Invoke(hay, words, output, n, baseInv, gid);
      assert (gid + baseInv) % U32 == gid + baseInv;
      todo := todo - {gid};
    }
  }

  lemma NothingWritten(before: seq<bool>, hay: seq<byte>, n: nat, base: nat, size: nat)
    requires |before| == |hay|
    ensures Written(before, before, hay, n, base, size, Upto(size))
  {
  }

  function SatAdd(a: nat, b: nat): nat {
    if a + b < U32 then a + b else U32 - 1
  }

  function SatMul(a: nat, b: nat): nat {
    if a * b < U32 then a * b else U32 - 1
  }

  /** The whole mark pass: the length is cut to 32 bits, as the source does. */
  method MarkAll(hay: seq<byte>, deviceLimit: nat) returns (mask: seq<bool>)
    ensures mask == MarkedUpTo(hay, |hay| % U32)
  {
    hide LeVal, WordBytes, Base, Total;
    var n := |hay| % U32;
    var words := PackWords(hay);
    var output := new bool[|hay|](_ => false);
    var limit := if deviceLimit < 65535 then deviceLimit else 65535;
    var max := if limit == 0 then 1 else limit;
    var chunks := PlanChunks((n + 255) / 256, max);
    var baseInv := 0;
    BaseZero(chunks);
    for d := 0 to |chunks|
      invariant forall k :: 0 <= k < words.Length ==> words[k] == LeVal(WordBytes(hay, k, |hay|))
      invariant baseInv == if Base(chunks, d) < U32 then Base(chunks, d) else U32 - 1
      invariant forall i :: 0 <= i < |hay| ==> output[i] == (i < n && i < Base(chunks, d) && Printable(hay[i]))
    {
      BaseStep(chunks, d);
      LastBase(chunks, n, d);
      ghost var before := output[..];
      Dispatch(hay, words, output, n, baseInv, chunks[d]);
      baseInv := SatAdd(baseInv, SatMul(chunks[d], 256));
    }
    AllHandled(chunks, n);
    mask := output[..];
    assert mask == MarkedUpTo(hay, n);
  }

  lemma BaseZero(chunks: seq<nat>)
    ensures Base(chunks, 0) == 0
  {
  }

  lemma LastBase(chunks: seq<nat>, n: nat, d: nat)
    requires n < U32 && Total(chunks) == (n + 255) / 256 && d < |chunks| && EachWithin(chunks, 65535)
    ensures Base(chunks, d) + 256 * chunks[d] <= U32 && Base(chunks, d) < U32
  {
    BaseStep(chunks, d);
    BaseMonotone(chunks, d + 1, |chunks|);
    assert chunks[..|chunks|] == chunks;
  }

  lemma AllHandled(chunks: seq<nat>, n: nat)
    requires Total(chunks) == (n + 255) / 256
    ensures n <= Base(chunks, |chunks|)
  {
    assert chunks[..|chunks|] == chunks;
  }

  /** The hits of the GPU path: none at all when the length cut to 32 bits is zero. */
  function GpuHits(hay: seq<byte>, minLen: nat): seq<Hit> {
    if |hay| % U32 == 0 then [] else Runs(MarkedUpTo(hay, |hay| % U32), 0, minLen)
  }

  method GpuScan(hay: seq<byte>, minLen: nat, deviceLimit: nat) returns (hits: seq<Hit>)
    ensures hits == GpuHits(hay, minLen)
  {
    if |hay| % U32 == 0 { return []; }
    var mask := MarkAll(hay, deviceLimit);
    hits := Compact(mask, minLen);
  }

  lemma GpuHitsAreAll(hay: seq<byte>, minLen: nat)
    ensures AllRuns(GpuHits(hay, minLen), MarkedUpTo(hay, |hay| % U32), 0, |hay|, minLen)
  {
    var m := MarkedUpTo(hay, |hay| % U32);
    if |hay| % U32 == 0 {
      NothingOn(m);
      NoneYet(m, 0, |m|, minLen);
    } else {
      RunsAreAll(m, 0, minLen);
    }
  }

  /** Every run that is long enough ends within the first `n` bytes. */
  ghost predicate RunsEndWithin(hay: seq<byte>, minLen: nat, n: nat) {
    forall h: Hit :: IsRun(Flags(hay), h) && minLen <= h.length ==> h.offset + h.length <= n
  }

  lemma MarkedOn(hay: seq<byte>, n: nat)
    requires n <= |hay|
    ensures forall k :: On(MarkedUpTo(hay, n), k) <==> k < n && On(Flags(hay), k)
  {
  }

  lemma RunIsOn(m: seq<bool>, h: Hit)
    ensures IsRun(m, h) <==>
            && 0 < h.length && !On(m, h.offset - 1) && !On(m, h.offset + h.length)
            && forall k :: h.offset <= k < h.offset + h.length ==> On(m, k)
  {
    if 0 < h.length && forall k :: h.offset <= k < h.offset + h.length ==> On(m, k) {
      assert On(m, h.offset + h.length - 1);
      assert forall k :: h.offset <= k < h.offset + h.length ==> On(m, k) && m[k];
    }
    if IsRun(m, h) {
      assert forall k :: h.offset <= k < h.offset + h.length ==> m[k] && On(m, k);
    }
  }

  /** A run of the marked flags is a run of all flags, or the cut piece of one that reaches past the marks. */
  lemma MarkedRun(hay: seq<byte>, n: nat, h: Hit)
    requires n <= |hay| && IsRun(MarkedUpTo(hay, n), h)
    ensures h.offset + h.length <= n
    ensures IsRun(Flags(hay), h) ||
            exists g: Hit ::
              IsRun(Flags(hay), g) && g.offset == h.offset && g.length > h.length && g.offset + g.length > n
  {
    hide IsRun, Flags, MarkedUpTo;
    var m, e := Flags(hay), h.offset + h.length;
    MarkedOn(hay, n);
    RunIsOn(MarkedUpTo(hay, n), h);
    RunIsOn(m, h);
    assert On(MarkedUpTo(hay, n), e - 1);
    if On(m, e) {
      var g := Hit(h.offset, RunEnd(m, e) - h.offset);
      RunIsOn(m, g);
      assert forall k :: h.offset <= k < g.offset + g.length ==> On(m, k);
      assert IsRun(m, g);
    }
  }

  lemma RunIsMarked(hay: seq<byte>, n: nat, h: Hit)
    requires n <= |hay| && IsRun(Flags(hay), h)
    ensures IsRun(MarkedUpTo(hay, n), h) <==> h.offset + h.length <= n
  {
    hide IsRun, Flags, MarkedUpTo;
    MarkedOn(hay, n);
    RunIsOn(MarkedUpTo(hay, n), h);
    RunIsOn(Flags(hay), h);
    assert IsRun(MarkedUpTo(hay, n), h) ==> On(MarkedUpTo(hay, n), h.offset + h.length - 1);
  }

  /**
   * On one input: the GPU path gives the oracle's answer exactly if every long enough run ends within the first
   * len mod 2^32 bytes; for a minimum of zero, for which the oracle lists nothing, if none of these is printable.
   */
  lemma GpuAgreesOnIff(hay: seq<byte>, minLen: nat)
    ensures GpuHits(hay, minLen) == SeqScan(hay, minLen) <==>
            if minLen == 0 then forall i :: 0 <= i < |hay| % U32 ==> !Printable(hay[i])
            else RunsEndWithin(hay, minLen, |hay| % U32)
  {
    hide IsRun, SeqScan, GpuHits, RunsEndWithin;
    if minLen == 0 {
      ZeroAgreesIff(hay);
    } else {
      PositiveAgreesIff(hay, minLen);
    }
  }

  lemma ZeroAgreesIff(hay: seq<byte>)
    ensures GpuHits(hay, 0) == SeqScan(hay, 0) <==> forall i :: 0 <= i < |hay| % U32 ==> !Printable(hay[i])
  {
    hide IsRun, GpuHits, Runs;
    var n := |hay| % U32;
    var m := MarkedUpTo(hay, n);
    GpuHitsAreAll(hay, 0);
    if i :| 0 <= i < n && Printable(hay[i]) {
      assert m[i];
      var h := RunAround(m, i);
      RunInside(m, h);
      assert h in GpuHits(hay, 0);
    } else {
      NothingOn(m);
      NoneYet(m, 0, |m|, 0);
      AllRunsUnique(GpuHits(hay, 0), [], m, 0, |m|, 0);
    }
  }

  lemma RunInside(m: seq<bool>, h: Hit)
    requires IsRun(m, h)
    ensures h.offset < |m|
  {
  }

  lemma PositiveAgreesIff(hay: seq<byte>, minLen: nat)
    requires minLen > 0
    ensures GpuHits(hay, minLen) == SeqScan(hay, minLen) <==> RunsEndWithin(hay, minLen, |hay| % U32)
  {
    hide IsRun, GpuHits, SeqScan, Runs;
    var n := |hay| % U32;
    var m, marked := Flags(hay), MarkedUpTo(hay, n);
    var gpu, all := GpuHits(hay, minLen), SeqScan(hay, minLen);
    GpuHitsAreAll(hay, minLen);
    SeqScanIsAll(hay, minLen);
    if RunsEndWithin(hay, minLen, n) {
      forall h: Hit
        ensures IsRun(m, h) && minLen <= h.length <==> IsRun(marked, h) && minLen <= h.length
      {
        if IsRun(m, h) && minLen <= h.length { RunIsMarked(hay, n, h); }
        if IsRun(marked, h) && minLen <= h.length { MarkedRun(hay, n, h); }
      }
      AllRunsUnique(gpu, all, m, 0, |m|, minLen);
    } else {
      var h: Hit :| IsRun(m, h) && minLen <= h.length && h.offset + h.length > n;
      RunInside(m, h);
      RunIsMarked(hay, n, h);
      assert h in all && h !in gpu;
    }
  }

  function AllLetters(len: nat): (hay: seq<byte>)
    ensures |hay| == len
  {
    seq(len, _ => 65)
  }

  /** An input of 2^32 bytes or more that is one run: the GPU path does not list it. */
  lemma GpuMissesLong(len: nat, minLen: nat)
    requires len >= 0x1_0000_0000 && 0 < minLen <= len
    ensures GpuHits(AllLetters(len), minLen) != SeqScan(AllLetters(len), minLen)
  {
    hide GpuHits, SeqScan;
    assert IsRun(Flags(AllLetters(len)), Hit(0, len));
    GpuAgreesOnIff(AllLetters(len), minLen);
  }

  /** One letter and a minimum of zero: the GPU path lists it, the oracle lists nothing. */
  lemma GpuListsAtZero(len: nat)
    requires len % 0x1_0000_0000 > 0
    ensures GpuHits(AllLetters(len), 0) != SeqScan(AllLetters(len), 0)
  {
    hide GpuHits, SeqScan;
    GpuAgreesOnIff(AllLetters(len), 0);
    assert Printable(AllLetters(len)[0]);
  }

  /**
   * On all inputs of a length: exactly below 2^32 bytes, or when no run can be long enough; for a minimum of zero,
   * exactly for lengths that are zero modulo 2^32.
   */
  lemma GpuAgreesIff(len: nat, minLen: nat)
    ensures (forall hay: seq<byte> :: |hay| == len ==> GpuHits(hay, minLen) == SeqScan(hay, minLen)) <==>
            if minLen == 0 then len % 0x1_0000_0000 == 0 else len < 0x1_0000_0000 || len < minLen
  {
    hide GpuHits, SeqScan, RunsEndWithin;
    if if minLen == 0 then len % U32 == 0 else len < U32 || len < minLen {
      forall hay: seq<byte> | |hay| == len
        ensures GpuHits(hay, minLen) == SeqScan(hay, minLen)
      {
        GpuAgreesOnIff(hay, minLen);
        if minLen > 0 { RunsFit(hay, minLen); }
      }
    } else if minLen == 0 {
      GpuListsAtZero(len);
    } else {
      GpuMissesLong(len, minLen);
    }
  }

  lemma RunsFit(hay: seq<byte>, minLen: nat)
    requires |hay| < U32 || |hay| < minLen
    ensures RunsEndWithin(hay, minLen, |hay| % U32)
  {
  }
}
