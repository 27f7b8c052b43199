/** Canonical Huffman codes: section 3.2.2 of RFC 1951, and the tables the inflater builds from them. */
module Canonical {
  import opened Words

  /** How many symbols have code length `l`. */
  function Count(lengths: seq<nat>, l: nat): (c: nat)
    ensures c <= |lengths|
  {
    if lengths == [] then 0
    else
      var n := |lengths| - 1;
      Count(lengths[..n], l) + (if lengths[n] == l then 1 else 0)
  }

  /** Symbols of length 0 take no code. */
  function Used(lengths: seq<nat>, l: nat): (c: nat)
    ensures c <= |lengths|
  {
    if l == 0 then 0 else Count(lengths, l)
  }

  /** The first code of length `l`. */
  function FirstCode(lengths: seq<nat>, l: nat): nat {
    if l == 0 then 0 else 2 * (FirstCode(lengths, l - 1) + Used(lengths, l - 1))
  }

  /** Symbols of one length take consecutive codes, in symbol order. */
  function Code(lengths: seq<nat>, s: nat): nat
    requires s < |lengths|
  {
    FirstCode(lengths, lengths[s]) + Count(lengths[..s], lengths[s])
  }

  /** A code as it travels: most significant bit first. */
  function CodeWord(code: nat, len: nat): (w: seq<bool>)
    ensures |w| == len
  {
    Reverse(BitsOf(code, len))
  }

  function SymbolBits(lengths: seq<nat>, s: nat): (w: seq<bool>)
    requires s < |lengths|
    ensures |w| == lengths[s]
  {
    CodeWord(Code(lengths, s), lengths[s])
  }

  ghost predicate AtMost15(lengths: seq<nat>) {
    forall i :: 0 <= i < |lengths| ==> lengths[i] <= 15
  }

  /** The room the codes take, out of 2^15: a code of length l takes 2^(15-l). */
  ghost function KraftSum(lengths: seq<nat>): nat
    requires AtMost15(lengths)
  {
    if lengths == [] then 0
    else
      var n := |lengths| - 1;
      KraftSum(lengths[..n]) + (if lengths[n] > 0 then Pow2(15 - lengths[n]) else 0)
  }

  /** Lengths for which a prefix code exists: the Kraft inequality. */
  ghost predicate WellFormed(lengths: seq<nat>) {
    && |lengths| < 65536
    && AtMost15(lengths)
    && KraftSum(lengths) <= Pow2(15)
  }

  // ----- codes fit their length -----

  /** One past the last code of length `l`. */
  function EndCode(lengths: seq<nat>, l: nat): nat {
    FirstCode(lengths, l) + Used(lengths, l)
  }

  lemma {:induction false} EndCodeAppend(lengths: seq<nat>, x: nat, l: nat)
    ensures EndCode(lengths + [x], l) == EndCode(lengths, l) + (if 0 < x <= l then Pow2(l - x) else 0)
  {
    assert (lengths + [x])[..|lengths|] == lengths;
    if l > 0 { EndCodeAppend(lengths, x, l - 1); }
  }

  lemma {:induction false} EndCodeEmpty(l: nat)
    ensures EndCode([], l) == 0
  {
    if l > 0 { EndCodeEmpty(l - 1); }
  }

  lemma {:induction false} EndCodeKraft(lengths: seq<nat>)
    requires AtMost15(lengths)
    ensures EndCode(lengths, 15) == KraftSum(lengths)
  {
    if lengths == [] {
      EndCodeEmpty(15);
    } else {
      var n := |lengths| - 1;
      EndCodeKraft(lengths[..n]);
      EndCodeAppend(lengths[..n], lengths[n], 15);
      assert lengths[..n] + [lengths[n]] == lengths;
    }
  }

  lemma {:induction false} EndCodeFits(lengths: seq<nat>, l: nat)
    requires WellFormed(lengths) && l <= 15
    ensures EndCode(lengths, l) <= Pow2(l)
    decreases 15 - l
  {
    if l == 15 {
      EndCodeKraft(lengths);
    } else {
      EndCodeFits(lengths, l + 1);
    }
  }

  lemma {:induction false} CountPrefix(lengths: seq<nat>, s: nat, t: nat, l: nat)
    requires s <= t <= |lengths|
    ensures Count(lengths[..s], l) <= Count(lengths[..t], l)
  {
    if s < t {
      assert lengths[..t][..t - 1] == lengths[..t - 1];
      CountPrefix(lengths, s, t - 1, l);
    }
  }

  lemma CountStrict(lengths: seq<nat>, s: nat, t: nat)
    requires s < t <= |lengths|
    ensures Count(lengths[..s], lengths[s]) < Count(lengths[..t], lengths[s])
  {
    assert lengths[..s + 1][..s] == lengths[..s];
    CountPrefix(lengths, s + 1, t, lengths[s]);
  }

  lemma CodeInRange(lengths: seq<nat>, s: nat)
    requires s < |lengths| && lengths[s] > 0
    ensures FirstCode(lengths, lengths[s]) <= Code(lengths, s) < EndCode(lengths, lengths[s])
  {
    CountStrict(lengths, s, |lengths|);
    assert lengths[..|lengths|] == lengths;
  }

  /** Every code has as many bits as its length says, so it fits a 16-bit word. */
  lemma CodeFits(lengths: seq<nat>, s: nat)
    requires WellFormed(lengths) && s < |lengths| && lengths[s] > 0
    ensures Code(lengths, s) < Pow2(lengths[s]) <= Pow2(15)
  {
    CodeInRange(lengths, s);
    EndCodeFits(lengths, lengths[s]);
    Pow2Monotone(lengths[s], 15);
  }

  /** Cutting a longer code to `l` bits gives a number past every code of length `l`. */
  lemma {:induction false} CodesAbove(lengths: seq<nat>, c: nat, l: nat, m: nat)
    requires l < m && FirstCode(lengths, m) <= c
    ensures EndCode(lengths, l) <= Shr(c, m - l)
  {
    assert c / 2 >= EndCode(lengths, m - 1);
    if l < m - 1 {
      CodesAbove(lengths, c / 2, l, m - 1);
    } else {
      assert Shr(c / 2, 0) == c / 2;
    }
  }

  // ----- code words -----

  lemma {:induction false} ReverseAppend<T>(a: seq<T>, b: seq<T>)
    ensures Reverse(a + b) == Reverse(b) + Reverse(a)
  {
    if a == [] {
      assert a + b == b;
    } else {
      assert (a + b)[1..] == a[1..] + b;
      ReverseAppend(a[1..], b);
    }
  }

  lemma {:induction false} ReverseTwice<T>(a: seq<T>)
    ensures Reverse(Reverse(a)) == a
  {
    if a != [] {
      ReverseTwice(a[1..]);
      ReverseAppend(Reverse(a[1..]), [a[0]]);
      assert Reverse([a[0]]) == [a[0]];
    }
  }

  /** The first `l` bits of a code word are the code's high bits. */
  lemma CodeWordPrefix(c: nat, l: nat, m: nat)
    requires l <= m
    ensures CodeWord(c, m)[..l] == CodeWord(Shr(c, m - l), l)
  {
    BitsOfSplit(c, m - l, l);
    ReverseAppend(BitsOf(c, m - l), BitsOf(Shr(c, m - l), l));
  }

  lemma CodeWordInjective(a: nat, b: nat, l: nat)
    requires a < Pow2(l) && b < Pow2(l) && CodeWord(a, l) == CodeWord(b, l)
    ensures a == b
  {
    ReverseTwice(BitsOf(a, l));
    ReverseTwice(BitsOf(b, l));
    ValBitsOf(a, l);
    ValBitsOf(b, l);
  }

  lemma CodesDistinct(lengths: seq<nat>, s: nat, t: nat)
    requires s < |lengths| && t < |lengths| && s != t && lengths[s] == lengths[t]
    ensures Code(lengths, s) != Code(lengths, t)
  {
    if s < t { CountStrict(lengths, s, t); } else { CountStrict(lengths, t, s); }
  }

  lemma PrefixMeansHighBits(c: nat, l: nat, d: nat, m: nat)
    requires c < Pow2(l) && d < Pow2(m) && CodeWord(c, l) <= CodeWord(d, m)
    ensures l <= m && c == Shr(d, m - l)
  {
    CodeWordPrefix(d, l, m);
    assert m == (m - l) + l;
    ShrBound(d, m - l, l);
    CodeWordInjective(c, Shr(d, m - l), l);
  }

  /** No code word is the beginning of another symbol's. */
  lemma PrefixFree(lengths: seq<nat>, s: nat, t: nat)
    requires WellFormed(lengths) && s < |lengths| && t < |lengths| && s != t
    requires lengths[s] > 0 && lengths[t] > 0
    ensures !(SymbolBits(lengths, s) <= SymbolBits(lengths, t))
  {
    var l, m := lengths[s], lengths[t];
    if SymbolBits(lengths, s) <= SymbolBits(lengths, t) {
      var c, d := Code(lengths, s), Code(lengths, t);
      CodeFits(lengths, s);
      CodeFits(lengths, t);
      PrefixMeansHighBits(c, l, d, m);
      if l == m {
        CodesDistinct(lengths, s, t);
      } else {
        CodeInRange(lengths, s);
        CodeInRange(lengths, t);
        CodesAbove(lengths, d, l, m);
      }
      assert false;
    }
  }

  // ----- the order of the symbols -----

  /** How many symbols have a shorter code than `l`. */
  function Below(lengths: seq<nat>, l: nat): nat {
    if l == 0 then 0 else Below(lengths, l - 1) + Used(lengths, l - 1)
  }

  /** The place of a symbol among all coded symbols, ordered by code length and then code. */
  function Rank(lengths: seq<nat>, s: nat): nat
    requires s < |lengths|
  {
    Below(lengths, lengths[s]) + Count(lengths[..s], lengths[s])
  }

  /** The symbol that is the `k`-th of those with length `l`. */
  function Nth(lengths: seq<nat>, l: nat, k: nat): (s: nat)
    requires k < Count(lengths, l)
    ensures s < |lengths| && lengths[s] == l && Count(lengths[..s], l) == k
  {
    var n := |lengths| - 1;
    if k < Count(lengths[..n], l) then
      var s := Nth(lengths[..n], l, k);
      assert lengths[..n][..s] == lengths[..s];
      s
    else
      n
  }
}
