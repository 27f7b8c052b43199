/** The tables of RFC 1951 in closed form: lengths, distances, the order of code lengths, and the fixed codes. */
module DeflateTables {
  import opened Canonical
  import opened Deflate
  import opened Words

  // ----- lengths and distances (section 3.2.5) -----

  /** From 7 on, four codes share each number of extra bits; the last code is 258 alone. */
  lemma LengthTable(i: nat)
    requires i < 29
    ensures i < 4 ==> LEN_BASE[i] == 3 + i && LEN_EXTRA[i] == 0
    ensures 4 <= i < 28 ==> LEN_EXTRA[i] == i / 4 - 1 && LEN_BASE[i] == 3 + (4 + i % 4) * Pow2(i / 4 - 1)
    ensures i == 28 ==> LEN_BASE[i] == 258 && LEN_EXTRA[i] == 0
  {
    SmallPowers();
    hide Pow2;
  }

  /** From 3 on, two codes share each number of extra bits. */
  lemma DistanceTable(i: nat)
    requires i < 30
    ensures i < 2 ==> DIST_BASE[i] == 1 + i && DIST_EXTRA[i] == 0
    ensures i >= 2 ==> DIST_EXTRA[i] == i / 2 - 1 && DIST_BASE[i] == 1 + (2 + i % 2) * Pow2(i / 2 - 1)
  {
    SmallPowers();
    hide Pow2;
  }

  /** Each of the first `n` codes starts where the one before it ends. */
  ghost predicate EndToEnd(base: seq<nat>, extra: seq<nat>, n: nat) {
    n <= |base| == |extra| && forall i: nat :: i + 1 < n ==> Joined(base, extra, i)
  }

  ghost predicate Joined(base: seq<nat>, extra: seq<nat>, i: nat) {
    i + 1 < |base| == |extra| && base[i + 1] == base[i] + Pow2(extra[i])
  }

  lemma LengthJoined(i: nat)
    requires i < 27
    ensures Joined(LEN_BASE, LEN_EXTRA, i)
  {
    SmallPowers();
    hide Pow2;
  }

  lemma DistanceJoined(i: nat)
    requires i < 29
    ensures Joined(DIST_BASE, DIST_EXTRA, i)
  {
    SmallPowers();
    hide Pow2;
  }

  lemma TablesEndToEnd()
    ensures EndToEnd(LEN_BASE, LEN_EXTRA, 28) && EndToEnd(DIST_BASE, DIST_EXTRA, 30)
  {
    hide Joined;
    forall i: nat | i < 27
      ensures Joined(LEN_BASE, LEN_EXTRA, i)
    {
      LengthJoined(i);
    }
    forall i: nat | i < 29
      ensures Joined(DIST_BASE, DIST_EXTRA, i)
    {
      DistanceJoined(i);
    }
  }

  lemma {:induction false} EndsBefore(base: seq<nat>, extra: seq<nat>, n: nat, i: nat, j: nat)
    requires EndToEnd(base, extra, n) && i < j < n
    ensures base[i] + Pow2(extra[i]) <= base[j]
    decreases j
  {
    assert Joined(base, extra, j - 1);
    if i < j - 1 { EndsBefore(base, extra, n, i, j - 1); }
  }

  /** A value has one code among these. */
  lemma CodeOnce(base: seq<nat>, extra: seq<nat>, n: nat, i: nat, j: nat, v: nat)
    requires EndToEnd(base, extra, n) && i < n && j < n
    requires base[i] <= v < base[i] + Pow2(extra[i]) && base[j] <= v < base[j] + Pow2(extra[j])
    ensures i == j
  {
    if i < j { EndsBefore(base, extra, n, i, j); }
    if j < i { EndsBefore(base, extra, n, j, i); }
  }

  /** A copy has one token, but for length 258, which code 284 reaches with all its extra bits set as code 285 does. */
  lemma OneToken(t: Token, u: Token)
    requires t.Match? && u.Match? && TokenOk(t) && TokenOk(u) && Length(t) == Length(u) && Distance(t) == Distance(u)
    ensures t.distCode == u.distCode && t.distExtra == u.distExtra
    ensures t == u || (Length(t) == 258 && {t.lenCode, u.lenCode} == {27, 28})
  {
    TablesEndToEnd();
    LengthTable(27);
    LengthTable(28);
    SmallPowers();
    hide EndToEnd, Pow2;
    CodeOnce(DIST_BASE, DIST_EXTRA, 30, t.distCode, u.distCode, Distance(t));
    if t.lenCode < 28 && u.lenCode < 28 {
      CodeOnce(LEN_BASE, LEN_EXTRA, 28, t.lenCode, u.lenCode, Length(t));
    } else if t.lenCode < 28 {
      Only27(t);
    } else if u.lenCode < 28 {
      Only27(u);
    }
  }

  /** Below code 285, only code 284 reaches 258. */
  lemma Only27(t: Token)
    requires t.Match? && TokenOk(t) && t.lenCode < 28 && Length(t) >= 258
    ensures t.lenCode == 27 && Length(t) == 258
  {
    TablesEndToEnd();
    LengthTable(27);
    SmallPowers();
    hide EndToEnd, Pow2;
    if t.lenCode < 27 { EndsBefore(LEN_BASE, LEN_EXTRA, 28, t.lenCode, 27); }
  }

  // ----- the order of code length code lengths (section 3.2.7) -----

  /** The repeats and zero first, then the lengths outwards from 8. */
  lemma OrderOfLengths(i: nat)
    requires i < 19
    ensures i < 3 ==> CODE_LEN_ORDER[i] == 16 + i
    ensures i == 3 ==> CODE_LEN_ORDER[i] == 0
    ensures i >= 4 && i % 2 == 0 ==> CODE_LEN_ORDER[i] == 8 + (i - 4) / 2
    ensures i >= 5 && i % 2 == 1 ==> CODE_LEN_ORDER[i] == 7 - (i - 5) / 2
  {
  }

  // ----- the fixed codes (section 3.2.6) -----

  lemma CountNone(l: nat)
    ensures Count([], l) == 0
  {
  }

  lemma CountAppend(s: seq<nat>, x: nat, l: nat)
    ensures Count(s + [x], l) == Count(s, l) + if x == l then 1 else 0
  {
    assert (s + [x])[..|s|] == s;
  }

  lemma {:induction false} CountRepeat(s: seq<nat>, v: nat, n: nat, l: nat)
    ensures Count(s + Repeat(v, n), l) == Count(s, l) + if v == l then n else 0
    decreases n
  {
    hide Count, Repeat;
    if n == 0 {
      assert s + Repeat(v, n) == s;
    } else {
      RepeatAppend(v, n - 1);
      assert s + Repeat(v, n) == s + Repeat(v, n - 1) + [v];
      CountAppend(s + Repeat(v, n - 1), v, l);
      CountRepeat(s, v, n - 1, l);
    }
  }

  /** So many 8s, 9s, 7s and 8s again. */
  function Stretch(a: nat, b: nat, c: nat, d: nat): seq<nat> {
    Repeat(8, a) + Repeat(9, b) + Repeat(7, c) + Repeat(8, d)
  }

  lemma StretchCount(a: nat, b: nat, c: nat, d: nat, l: nat)
    ensures Count(Stretch(a, b, c, d), l) == if l == 8 then a + d else if l == 9 then b else if l == 7 then c else 0
  {
    CountNone(l);
    hide Repeat, Count;
    assert [] + Repeat<nat>(8, a) == Repeat<nat>(8, a);
    CountRepeat([], 8, a, l);
    CountRepeat(Repeat<nat>(8, a), 9, b, l);
    CountRepeat(Repeat(8, a) + Repeat(9, b), 7, c, l);
    CountRepeat(Repeat(8, a) + Repeat(9, b) + Repeat(7, c), 8, d, l);
  }

  /** How many of `n` things from `from` on are below `s`. */
  function Below(s: nat, from: nat, n: nat): nat {
    if s <= from then 0 else Min(s - from, n)
  }

  lemma FixedPrefix(s: nat)
    requires s <= 288
    ensures |FixedLitLengths()| == 288
    ensures FixedLitLengths()[..s] == Stretch(Below(s, 0, 144), Below(s, 144, 112), Below(s, 256, 24), Below(s, 280, 8))
    ensures s < 288 ==> FixedLitLengths()[s] == if 144 <= s < 256 then 9 else if 256 <= s < 280 then 7 else 8
  {
  }

  lemma FixedFirstCodes()
    ensures FirstCode(FixedLitLengths(), 7) == 0 && FirstCode(FixedLitLengths(), 8) == 0x30
    ensures FirstCode(FixedLitLengths(), 9) == 0x190
  {
    var f := FixedLitLengths();
    FixedPrefix(288);
    assert f[..288] == f;
    forall l: nat | l < 9
      ensures Used(f, l) == if l == 7 then 24 else if l == 8 then 152 else 0
    {
      StretchCount(144, 112, 24, 8, l);
    }
    hide FixedLitLengths, Used, Stretch;
    assert FirstCode(f, 0) == 0;
    assert FirstCode(f, 1) == 0;
    assert FirstCode(f, 2) == 0;
    assert FirstCode(f, 3) == 0;
    assert FirstCode(f, 4) == 0;
    assert FirstCode(f, 5) == 0;
    assert FirstCode(f, 6) == 0;
    assert FirstCode(f, 7) == 0;
  }

  /** The fixed literal codes are the ones that the table of the standard lists. */
  lemma FixedLiteralCode(s: nat)
    requires s < 288
    ensures |FixedLitLengths()| == 288
    ensures s < 144 ==> FixedLitLengths()[s] == 8 && Code(FixedLitLengths(), s) == 0x30 + s
    ensures 144 <= s < 256 ==> FixedLitLengths()[s] == 9 && Code(FixedLitLengths(), s) == 0x190 + (s - 144)
    ensures 256 <= s < 280 ==> FixedLitLengths()[s] == 7 && Code(FixedLitLengths(), s) == s - 256
    ensures 280 <= s ==> FixedLitLengths()[s] == 8 && Code(FixedLitLengths(), s) == 0xc0 + (s - 280)
  {
    FixedPrefix(s);
    FixedFirstCodes();
    StretchCount(Below(s, 0, 144), Below(s, 144, 112), Below(s, 256, 24), Below(s, 280, 8), FixedLitLengths()[s]);
    hide FixedLitLengths, FirstCode, Count, Stretch;
  }

  lemma {:induction false} FixedDistanceFirst(n: nat)
    requires n <= 5
    ensures FirstCode(FixedDistLengths(), n) == 0
  {
    hide Repeat;
    if n > 0 {
      FixedDistanceFirst(n - 1);
      CountNone(n - 1);
      assert [] + Repeat<nat>(5, 32) == FixedDistLengths();
      CountRepeat([], 5, 32, n - 1);
    }
  }

  /** The fixed distance codes are their own five-bit numbers. */
  lemma FixedDistanceCode(s: nat)
    requires s < 32
    ensures |FixedDistLengths()| == 32 && FixedDistLengths()[s] == 5 && Code(FixedDistLengths(), s) == s
  {
    FixedDistanceFirst(5);
    CountNone(5);
    assert FixedDistLengths()[..s] == [] + Repeat<nat>(5, s);
    CountRepeat([], 5, s, 5);
    hide FirstCode;
  }
}
