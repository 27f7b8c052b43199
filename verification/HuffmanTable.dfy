/** The inflater's Huffman tables: building them from code lengths, and decoding with them. */
module HuffmanTable {
  import opened Words
  import opened Sorting
  import opened Canonical
  import opened BitReading

  datatype Huffman = Huffman(maxBits: nat, counts: seq<nat>, symbols: seq<nat>)

  datatype Pair = Pair(len: nat, code: nat, sym: nat)

  const U16 := 0x1_0000

  function MaxLength(lengths: seq<nat>): nat {
    if lengths == [] then 0
    else
      var n := |lengths| - 1;
      var m := MaxLength(lengths[..n]);
      if lengths[n] > m then lengths[n] else m
  }

  lemma {:induction false} MaxLengthBound(lengths: seq<nat>)
    ensures forall i :: 0 <= i < |lengths| ==> lengths[i] <= MaxLength(lengths)
    ensures MaxLength(lengths) == 0 || exists i :: 0 <= i < |lengths| && lengths[i] == MaxLength(lengths)
  {
    if lengths != [] {
      var n := |lengths| - 1;
      MaxLengthBound(lengths[..n]);
    }
  }

  /** The first code of the next length, in 16-bit arithmetic. */
  function NextFirst(first: nat, count: nat): nat {
    Low(2 * Low(first + count, 16), 16)
  }

  /** The first code of length `l` as the source computes it. */
  function FirstCode16(lengths: seq<nat>, l: nat): (c: nat) {
    if l == 0 then 0 else NextFirst(FirstCode16(lengths, l - 1), Used(lengths, l - 1))
  }

  lemma FirstCode16Fits(lengths: seq<nat>, l: nat)
    ensures Low(FirstCode16(lengths, l), 16) == FirstCode16(lengths, l)
  {
    if l == 0 {
      LowFits(0, 16);
    } else {
      LowFits(FirstCode16(lengths, l), 16);
    }
  }

  function FirstCodesOf(lengths: seq<nat>): (f: seq<nat>)
    ensures |f| == MaxLength(lengths) + 1
    ensures forall l {:trigger f[l]} :: 0 <= l < |f| ==> f[l] == FirstCode16(lengths, l)
  {
    seq(MaxLength(lengths) + 1, l requires 0 <= l <= MaxLength(lengths) => FirstCode16(lengths, l))
  }

  ghost predicate Covers(first: seq<nat>, lengths: seq<nat>) {
    forall i :: 0 <= i < |lengths| ==> lengths[i] < |first|
  }

  /** A symbol with its code, given the first code of each length. */
  function PairOf(lengths: seq<nat>, first: seq<nat>, s: nat): Pair
    requires s < |lengths| && Covers(first, lengths)
  {
    Pair(lengths[s], Low(first[lengths[s]] + Count(lengths[..s], lengths[s]), 16), s)
  }

  /** The coded symbols among the first `n`, with their codes, in symbol order. */
  function Pairs(lengths: seq<nat>, first: seq<nat>, n: nat): seq<Pair>
    requires n <= |lengths| && Covers(first, lengths)
  {
    if n == 0 then []
    else Pairs(lengths, first, n - 1) + (if lengths[n - 1] > 0 then [PairOf(lengths, first, n - 1)] else [])
  }

  /** Pairs are ordered by length, and by code within a length. */
  function Key(p: Pair): int {
    p.len * U16 + p.code
  }

  function Symbols(pairs: seq<Pair>): (s: seq<nat>)
    ensures |s| == |pairs|
  {
    seq(|pairs|, i requires 0 <= i < |pairs| => pairs[i].sym)
  }

  function PairsOf(lengths: seq<nat>): seq<Pair> {
    MaxLengthBound(lengths);
    Pairs(lengths, FirstCodesOf(lengths), |lengths|)
  }

  function TableOf(lengths: seq<nat>): Huffman {
    var m := MaxLength(lengths);
    MaxLengthBound(lengths);
    Huffman(m, seq(m + 1, l requires 0 <= l <= m => Used(lengths, l)), Symbols(SortBy(PairsOf(lengths), Key)))
  }

  lemma CountBoth(lengths: seq<nat>, i: nat, l: nat)
    requires i < |lengths|
    ensures Count(lengths[..i + 1], l) == Count(lengths[..i], l) + (if lengths[i] == l then 1 else 0)
  {
    assert lengths[..i + 1][..i] == lengths[..i];
  }

  lemma CountAll(lengths: seq<nat>, i: nat)
    requires i < |lengths|
    ensures forall l: nat :: Count(lengths[..i + 1], l) == Count(lengths[..i], l) + (if lengths[i] == l then 1 else 0)
  {
    forall l: nat { CountBoth(lengths, i, l); }
  }

  /** Counts the symbols of each length. */
  method CountLengths(lengths: seq<nat>, maxBits: nat) returns (counts: array<nat>)
    requires forall i :: 0 <= i < |lengths| ==> lengths[i] <= maxBits
    ensures fresh(counts) && counts.Length == maxBits + 1
    ensures forall l :: 0 <= l <= maxBits ==> counts[l] == Used(lengths, l)
  {
    counts := new nat[maxBits + 1](_ => 0);
    for i := 0 to |lengths|
      invariant forall l :: 0 <= l <= maxBits ==> counts[l] == Used(lengths[..i], l)
    {
      CountAll(lengths, i);
      var l := lengths[i];
      if l > 0 {
        counts[l] := counts[l] + 1;
      }
    }
    assert lengths[..|lengths|] == lengths;
  }

  /** The first code of each length. */
  method FirstCodes(lengths: seq<nat>, counts: seq<nat>) returns (nextCode: array<nat>)
    requires |counts| > 0 && forall l :: 0 <= l < |counts| ==> counts[l] == Used(lengths, l)
    ensures fresh(nextCode) && nextCode.Length == |counts|
    ensures forall l :: 0 <= l < |counts| ==> nextCode[l] == FirstCode16(lengths, l)
  {
    nextCode := new nat[|counts|](_ => 0);
    var code := 0;
    for bits := 1 to |counts|
      invariant code == FirstCode16(lengths, bits - 1)
      invariant forall l :: 0 <= l < bits ==> nextCode[l] == FirstCode16(lengths, l)
    {
      code := NextFirst(code, counts[bits - 1]);
      assert code == FirstCode16(lengths, bits);
      ghost var before := nextCode[..];
      assert forall l :: 0 <= l < bits ==> before[l] == FirstCode16(lengths, l);
      nextCode[bits] := code;
      assert nextCode[..] == before[bits := code];
    }
  }

  /** After `n` symbols, `next` holds each length's first code advanced by the symbols of that length. */
  ghost predicate Advanced(next: seq<nat>, first: seq<nat>, lengths: seq<nat>, n: nat)
    requires n <= |lengths|
  {
    && |next| == |first|
    && forall l :: 0 < l < |next| ==> next[l] == Low(first[l] + Count(lengths[..n], l), 16)
  }

  lemma AdvanceStep(next: seq<nat>, first: seq<nat>, lengths: seq<nat>, n: nat)
    requires n < |lengths| && lengths[n] < |next| && Advanced(next, first, lengths, n)
    ensures lengths[n] == 0 ==> Advanced(next, first, lengths, n + 1)
    ensures lengths[n] > 0 ==> Advanced(next[lengths[n] := Low(next[lengths[n]] + 1, 16)], first, lengths, n + 1)
  {
    var len := lengths[n];
    var next' := next[len := Low(next[len] + 1, 16)];
    forall l | 0 < l < |next|
      ensures (if len > 0 then next' else next)[l] == Low(first[l] + Count(lengths[..n + 1], l), 16)
    {
      CountBoth(lengths, n, l);
      if l == len {
        LowAdd(first[l] + Count(lengths[..n], l), 1, 16);
      }
    }
  }

  lemma NextPair(next: seq<nat>, first: seq<nat>, lengths: seq<nat>, n: nat)
    requires n < |lengths| && Covers(first, lengths) && Advanced(next, first, lengths, n)
    ensures |next| == |first| && lengths[n] < |next|
    ensures lengths[n] > 0 ==> PairOf(lengths, first, n) == Pair(lengths[n], next[lengths[n]], n)
  {
  }

  /** Gives each coded symbol the next code of its length. */
  method AssignCodes(lengths: seq<nat>, nextCode: array<nat>) returns (pairs: seq<Pair>)
    requires forall i :: 0 <= i < |lengths| ==> lengths[i] < nextCode.Length
    requires Advanced(nextCode[..], nextCode[..], lengths, 0)
    modifies nextCode
    ensures pairs == Pairs(lengths, old(nextCode[..]), |lengths|)
  {
    pairs := [];
    ghost var first := nextCode[..];
    hide Advanced, Low, PairOf;
    for sym := 0 to |lengths|
      invariant pairs == Pairs(lengths, first, sym)
      invariant Advanced(nextCode[..], first, lengths, sym)
    {
      ghost var before := nextCode[..];
      NextPair(before, first, lengths, sym);
      AdvanceStep(before, first, lengths, sym);
      var len := lengths[sym];
      if len == 0 {
        continue;
      }
      var c := nextCode[len];
      nextCode[len] := Low(c + 1, 16);
      assert nextCode[..] == before[len := Low(before[len] + 1, 16)];
      pairs := pairs + [Pair(len, c, sym)];
    }
  }

  method FromLengths(lengths: seq<nat>) returns (r: Result<Huffman>)
    requires |lengths| < U16
    ensures r == if MaxLength(lengths) > 15 then Err(BadCodeLength) else Ok(TableOf(lengths))
  {
    var maxBits := MaxLength(lengths);
    if maxBits > 15 {
      return Err(BadCodeLength);
    }
    MaxLengthBound(lengths);
    var counts := CountLengths(lengths, maxBits);
    var nextCode := FirstCodes(lengths, counts[..]);
    assert nextCode[..] == FirstCodesOf(lengths);
    forall l | 0 <= l <= maxBits { FirstCode16Fits(lengths, l); }
    var pairs := AssignCodes(lengths, nextCode);
    assert counts[..] == TableOf(lengths).counts;
    return Ok(Huffman(maxBits, counts[..], Symbols(SortBy(pairs, Key))));
  }

  // ----- the 16-bit arithmetic, for any lengths -----

  lemma DoubleLow(a: nat)
    ensures Low(2 * Low(a, 16), 16) == Low(2 * a, 16)
  {
    hide Low;
    LowAdd(a, Low(a, 16), 16);
    LowAdd(a, a, 16);
    assert Low(a, 16) + Low(a, 16) == 2 * Low(a, 16) && a + a == 2 * a;
  }

  lemma {:induction false} FirstCodeIsLow(lengths: seq<nat>, l: nat)
    ensures FirstCode16(lengths, l) == Low(FirstCode(lengths, l), 16)
  {
    FirstCode16Fits(lengths, l);
    hide Low, Used;
    if l > 0 {
      FirstCodeIsLow(lengths, l - 1);
      LowAdd(FirstCode(lengths, l - 1), Used(lengths, l - 1), 16);
      DoubleLow(FirstCode(lengths, l - 1) + Used(lengths, l - 1));
    }
  }

  /** The first codes are those of the standard modulo 65536, over-subscribed or not. */
  lemma WrapsAt16(lengths: seq<nat>, l: nat)
    ensures FirstCode16(lengths, l) == FirstCode(lengths, l) % 65536
  {
    hide *;
    FirstCodeIsLow(lengths, l);
    LowIsRemainder(FirstCode(lengths, l), 16);
    Pow2Of16();
  }

  // ----- the table of a prefix code -----

  lemma {:induction false} NoWrap(lengths: seq<nat>, l: nat)
    requires WellFormed(lengths) && l <= 15
    ensures FirstCode16(lengths, l) == FirstCode(lengths, l)
  {
    if l > 0 {
      NoWrap(lengths, l - 1);
      EndCodeFits(lengths, l - 1);
      Pow2Monotone(l, 15);
      Pow2Of15();
      FitsU16(EndCode(lengths, l - 1));
      FitsU16(2 * EndCode(lengths, l - 1));
    }
  }

  lemma FitsU16(c: nat)
    requires c < U16
    ensures Low(c, 16) == c
  {
    Pow2Of15();
    Pow2Add(1, 15);
    LowFits(c, 16);
  }

  lemma CodeIsU16(lengths: seq<nat>, s: nat)
    requires WellFormed(lengths) && s < |lengths| && lengths[s] > 0
    ensures Code(lengths, s) < U16
  {
    CodeFits(lengths, s);
    Pow2Of15();
  }

  function CanonicalPair(lengths: seq<nat>, s: nat): Pair
    requires s < |lengths|
  {
    Pair(lengths[s], Code(lengths, s), s)
  }

  function CanonicalPairs(lengths: seq<nat>, n: nat): seq<Pair>
    requires n <= |lengths|
  {
    if n == 0 then []
    else CanonicalPairs(lengths, n - 1) + (if lengths[n - 1] > 0 then [CanonicalPair(lengths, n - 1)] else [])
  }

  lemma {:induction false} PairsAreCanonical(lengths: seq<nat>, first: seq<nat>, n: nat)
    requires WellFormed(lengths) && n <= |lengths| && Covers(first, lengths)
    requires forall l {:trigger first[l]} :: 0 <= l < |first| && l <= 15 ==> first[l] == FirstCode16(lengths, l)
    ensures Pairs(lengths, first, n) == CanonicalPairs(lengths, n)
  {
    if n > 0 {
      PairsAreCanonical(lengths, first, n - 1);
      var s := n - 1;
      if lengths[s] > 0 {
        assert first[lengths[s]] == FirstCode16(lengths, lengths[s]);
        NoWrap(lengths, lengths[s]);
        CodeIsU16(lengths, s);
        FitsU16(Code(lengths, s));
        assert PairOf(lengths, first, s) == CanonicalPair(lengths, s);
      }
    }
  }

  lemma TableIsCanonical(lengths: seq<nat>)
    requires WellFormed(lengths)
    ensures PairsOf(lengths) == CanonicalPairs(lengths, |lengths|)
  {
    MaxLengthBound(lengths);
    PairsAreCanonical(lengths, FirstCodesOf(lengths), |lengths|);
  }

  lemma {:induction false} PairsAt(lengths: seq<nat>, n: nat)
    requires n <= |lengths|
    ensures forall i :: 0 <= i < |CanonicalPairs(lengths, n)| ==>
      var p := CanonicalPairs(lengths, n)[i]; p.sym < n && lengths[p.sym] > 0 && p == CanonicalPair(lengths, p.sym)
    ensures forall i, j :: 0 <= i < j < |CanonicalPairs(lengths, n)| ==>
      CanonicalPairs(lengths, n)[i].sym != CanonicalPairs(lengths, n)[j].sym
  {
    if n > 0 { PairsAt(lengths, n - 1); }
  }

  lemma {:induction false} PairsPlace(lengths: seq<nat>, s: nat, n: nat)
    requires s < n <= |lengths| && lengths[s] > 0
    ensures |CanonicalPairs(lengths, s)| < |CanonicalPairs(lengths, n)|
    ensures CanonicalPairs(lengths, n)[|CanonicalPairs(lengths, s)|] == CanonicalPair(lengths, s)
  {
    if s < n - 1 { PairsPlace(lengths, s, n - 1); }
  }

  lemma PairsDistinct(lengths: seq<nat>)
    requires WellFormed(lengths)
    ensures DistinctKeys(CanonicalPairs(lengths, |lengths|), Key)
  {
    var ps := CanonicalPairs(lengths, |lengths|);
    PairsAt(lengths, |lengths|);
    forall i, j | 0 <= i < j < |ps|
      ensures Key(ps[i]) != Key(ps[j])
    {
      CodeIsU16(lengths, ps[i].sym);
      CodeIsU16(lengths, ps[j].sym);
      if ps[i].len == ps[j].len {
        CodesDistinct(lengths, ps[i].sym, ps[j].sym);
      }
    }
  }

  lemma {:induction false} BelowAppend(lengths: seq<nat>, x: nat, l: nat)
    ensures Below(lengths + [x], l) == Below(lengths, l) + (if 0 < x < l then 1 else 0)
  {
    assert (lengths + [x])[..|lengths|] == lengths;
    if l > 0 { BelowAppend(lengths, x, l - 1); }
  }

  lemma {:induction false} BelowEmpty(l: nat)
    ensures Below([], l) == 0
  {
    if l > 0 { BelowEmpty(l - 1); }
  }

  /** Whether symbol `t` comes before symbol `s` when ordered by length, then by symbol. */
  predicate Before(lengths: seq<nat>, t: nat, s: nat)
    requires s < |lengths| && t < |lengths|
  {
    lengths[t] > 0 && (lengths[t] < lengths[s] || (lengths[t] == lengths[s] && t < s))
  }

  lemma OrderedBySymbol(lengths: seq<nat>, s: nat, t: nat)
    requires WellFormed(lengths) && s < |lengths| && t < |lengths| && lengths[s] > 0 && lengths[t] > 0
    ensures Key(CanonicalPair(lengths, t)) < Key(CanonicalPair(lengths, s)) <==> Before(lengths, t, s)
  {
    CodeIsU16(lengths, s);
    CodeIsU16(lengths, t);
    if lengths[s] == lengths[t] {
      if t < s { CountStrict(lengths, t, s); } else if s < t { CountStrict(lengths, s, t); }
    }
  }

  /** How many of the first `n` symbols come before `s`. */
  function CountBefore(lengths: seq<nat>, s: nat, n: nat): nat
    requires s < |lengths| && n <= |lengths|
  {
    if n == 0 then 0 else CountBefore(lengths, s, n - 1) + (if Before(lengths, n - 1, s) then 1 else 0)
  }

  lemma CountBelowSnoc(ps: seq<Pair>, p: Pair, k: int)
    ensures CountBelow(ps + [p], Key, k) == CountBelow(ps, Key, k) + (if Key(p) < k then 1 else 0)
  {
    CountBelowAppend(ps, [p], Key, k);
    assert [p][1..] == [];
  }

  lemma {:induction false} CountBelowPairs(lengths: seq<nat>, s: nat, n: nat)
    requires WellFormed(lengths) && s < |lengths| && lengths[s] > 0 && n <= |lengths|
    ensures CountBelow(CanonicalPairs(lengths, n), Key, Key(CanonicalPair(lengths, s))) == CountBefore(lengths, s, n)
  {
    if n > 0 {
      CountBelowPairs(lengths, s, n - 1);
      var ps, p := CanonicalPairs(lengths, n - 1), CanonicalPair(lengths, n - 1);
      if lengths[n - 1] > 0 {
        OrderedBySymbol(lengths, s, n - 1);
        CountBelowSnoc(ps, p, Key(CanonicalPair(lengths, s)));
      } else {
        assert CanonicalPairs(lengths, n) == ps;
      }
    }
  }

  /** Before `s` come the symbols with a shorter code and its elders of the same length. */
  lemma {:induction false} CountBeforeIs(lengths: seq<nat>, s: nat, n: nat)
    requires s < |lengths| && lengths[s] > 0 && n <= |lengths|
    ensures CountBefore(lengths, s, n) ==
      Below(lengths[..n], lengths[s]) + Count(lengths[..if n <= s then n else s], lengths[s])
  {
    if n == 0 {
      BelowEmpty(lengths[s]);
    } else {
      CountBeforeIs(lengths, s, n - 1);
      assert lengths[..n] == lengths[..n - 1] + [lengths[n - 1]];
      BelowAppend(lengths[..n - 1], lengths[n - 1], lengths[s]);
      CountBoth(lengths, n - 1, lengths[s]);
    }
  }

  /** The table lists the symbols by code length, and by code within a length. */
  lemma SymbolAtRank(lengths: seq<nat>, s: nat)
    requires WellFormed(lengths) && s < |lengths| && lengths[s] > 0
    ensures Rank(lengths, s) < |TableOf(lengths).symbols|
    ensures TableOf(lengths).symbols[Rank(lengths, s)] == s
  {
    var n := |lengths|;
    TableIsCanonical(lengths);
    PairsDistinct(lengths);
    PairsPlace(lengths, s, n);
    SortedPosition(CanonicalPairs(lengths, n), Key, |CanonicalPairs(lengths, s)|);
    CountBelowPairs(lengths, s, n);
    CountBeforeIs(lengths, s, n);
    assert lengths[..n] == lengths;
  }
}
