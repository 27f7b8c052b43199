/** Bytes and their values, and big-endian counters with the increment of the source. */
module Counter {
  import Words

  /** 256 to the power n. */
  function Power(n: nat): (r: nat)
    ensures r > 0
  {
    if n == 0 then 1 else 256 * Power(n - 1)
  }

  /** The byte with value `i`. */
  function ToByte(i: nat): bv8
    requires i < 256
    decreases i
  {
    if i == 0 then 0 else ToByte(i - 1) + 1
  }

  /** The `n` low bytes of `v`, most significant first. */
  function BeBytes(v: nat, n: nat): (s: seq<bv8>)
    ensures |s| == n
    decreases n, v
  {
    if n == 0 then [] else BeBytes(v / 256, n - 1) + [ToByte(v % 256)]
  }

  /** The value of bytes, most significant first. */
  function BeVal(s: seq<bv8>): nat {
    if s == [] then 0 else 256 * BeVal(s[..|s| - 1]) + s[|s| - 1] as int
  }

  lemma NextValue(x: bv8)
    ensures (x + 1) as int == if x == 255 then 0 else x as int + 1
    ensures (x - 1) as int == if x == 0 then 255 else x as int - 1
    ensures x as int == 255 ==> x == 255
  {
  }

  lemma {:induction false} ByteBack(x: bv8)
    ensures ToByte(x as int) == x
    decreases x as int
  {
    NextValue(x);
    if x != 0 {
      ByteBack(x - 1);
    }
  }

  lemma {:induction false} ByteValue(i: nat)
    requires i < 256
    ensures ToByte(i) as int == i
    decreases i
  {
    if i > 0 {
      ByteValue(i - 1);
      NextValue(ToByte(i - 1));
    }
  }

  lemma {:induction false} BytesOfValue(s: seq<bv8>)
    ensures BeBytes(BeVal(s), |s|) == s
  {
    hide ToByte;
    if s != [] {
      var front, last := s[..|s| - 1], s[|s| - 1] as int;
      BytesOfValue(front);
      ByteBack(s[|s| - 1]);
      assert (256 * BeVal(front) + last) / 256 == BeVal(front);
      assert (256 * BeVal(front) + last) % 256 == last;
    } else {
      assert BeBytes(BeVal(s), 0) == [];
    }
  }

  lemma {:induction false} ValueOfBytes(v: nat, n: nat)
    ensures BeVal(BeBytes(v, n)) == v % Power(n)
  {
    hide ToByte;
    if n > 0 {
      ValueOfBytes(v / 256, n - 1);
      ByteValue(v % 256);
      assert BeBytes(v, n)[..n - 1] == BeBytes(v / 256, n - 1);
      SplitModulus(v, Power(n - 1));
    }
  }

  lemma SplitModulus(v: nat, p: nat)
    requires p > 0
    ensures v % (256 * p) == 256 * (v / 256 % p) + v % 256
  {
    var q, r := v / 256 / p, v / 256 % p;
    assert v / 256 == p * q + r;
    assert v == q * (256 * p) + (256 * r + v % 256);
    Words.DivModUnique(v, 256 * p, q, 256 * r + v % 256);
  }

  // ----- the increment -----

  /** Adds one to the last byte and carries while a byte wraps to zero. */
  function Increment(s: seq<bv8>): (r: seq<bv8>)
    ensures |r| == |s|
  {
    if s == [] then []
    else
      var last := s[|s| - 1] + 1;
      if last != 0 then s[..|s| - 1] + [last] else Increment(s[..|s| - 1]) + [last]
  }

  lemma NextByte(i: nat)
    requires i < 256
    ensures ToByte(i) + 1 == if i == 255 then 0 else ToByte(i + 1)
    ensures i < 255 ==> ToByte(i + 1) != 0
    ensures ToByte(0) == 0
  {
    ByteValue(i);
    NextValue(ToByte(i));
  }

  /** The increment is plus one, modulo 256 to the length: both sides keep the low bytes only. */
  lemma {:induction false} IncrementBytes(v: nat, n: nat)
    ensures Increment(BeBytes(v, n)) == BeBytes(v + 1, n)
    decreases n
  {
    hide ToByte;
    if n > 0 {
      IncrementBytes(v / 256, n - 1);
      NextByte(v % 256);
      assert BeBytes(v, n)[..n - 1] == BeBytes(v / 256, n - 1);
      if v % 256 == 255 {
        assert (v + 1) / 256 == v / 256 + 1 && (v + 1) % 256 == 0;
      } else {
        assert (v + 1) / 256 == v / 256 && (v + 1) % 256 == v % 256 + 1;
      }
    }
  }

  /** The counter after `i` increments. */
  function Advance(s: seq<bv8>, i: nat): (r: seq<bv8>)
    ensures |r| == |s|
    decreases i
  {
    if i == 0 then s else Advance(Increment(s), i - 1)
  }

  lemma {:induction false} AdvanceBytes(v: nat, n: nat, i: nat)
    ensures Advance(BeBytes(v, n), i) == BeBytes(v + i, n)
    decreases i
  {
    if i > 0 {
      IncrementBytes(v, n);
      AdvanceBytes(v + 1, n, i - 1);
    }
  }

  /** Counting `i` steps adds `i` modulo 256 to the length. */
  lemma AdvanceAdds(s: seq<bv8>, i: nat)
    ensures BeVal(Advance(s, i)) == (BeVal(s) + i) % Power(|s|)
  {
    hide *;
    BytesOfValue(s);
    AdvanceBytes(BeVal(s), |s|, i);
    ValueOfBytes(BeVal(s) + i, |s|);
  }

  /** Counter values never repeat within 256 to the length (2^128 for 16 bytes) steps. */
  lemma CountersDiffer(s: seq<bv8>, i: nat, j: nat)
    requires i < j < i + Power(|s|)
    ensures Advance(s, i) != Advance(s, j)
  {
    var m := Power(|s|);
    hide *;
    AdvanceAdds(s, i);
    AdvanceAdds(s, j);
    NotCongruent(BeVal(s) + i, BeVal(s) + j, m);
  }

  lemma NotCongruent(a: int, b: int, m: int)
    requires a < b < a + m
    ensures a % m != b % m
  {
    var q, r := a / m, b / m;
    assert a == q * m + a % m && b == r * m + b % m;
    if a % m == b % m {
      assert (r - q) * m == b - a;
      if r > q {
        Words.AtLeastOne(r - q, m);
      } else if r < q {
        assert (q - r) * m == a - b;
        Words.AtLeastOne(q - r, m);
      }
    }
  }

  // ----- a counter in the last four bytes only -----

  lemma {:induction false} IncrementLow(a: seq<bv8>, v: nat, n: nat)
    requires v + 1 < Power(n)
    ensures Increment(a + BeBytes(v, n)) == a + BeBytes(v + 1, n)
    decreases n
  {
    hide ToByte, Increment;
    if n > 0 {
      NextByte(v % 256);
      IncrementLast(a + BeBytes(v / 256, n - 1), ToByte(v % 256));
      assert a + BeBytes(v, n) == a + BeBytes(v / 256, n - 1) + [ToByte(v % 256)];
      if v % 256 == 255 {
        assert (v + 1) / 256 == v / 256 + 1 && (v + 1) % 256 == 0;
        IncrementLow(a, v / 256, n - 1);
        assert a + BeBytes(v + 1, n) == a + BeBytes(v / 256 + 1, n - 1) + [0];
      } else {
        assert (v + 1) / 256 == v / 256 && (v + 1) % 256 == v % 256 + 1;
      }
    }
  }

  lemma IncrementLast(s: seq<bv8>, x: bv8)
    ensures Increment(s + [x]) == (if x + 1 != 0 then s else Increment(s)) + [x + 1]
  {
    assert (s + [x])[..|s|] == s;
  }

  /** While the low part does not overflow, counting is inc32 of section 6.2 of NIST SP 800-38D. */
  lemma {:induction false} AdvanceLow(a: seq<bv8>, v: nat, n: nat, i: nat)
    requires v + i < Power(n)
    ensures Advance(a + BeBytes(v, n), i) == a + BeBytes(v + i, n)
    decreases i
  {
    hide BeBytes, Increment, Power;
    if i > 0 {
      IncrementLow(a, v, n);
      AdvanceLow(a, v + 1, n, i - 1);
    }
  }

  // ----- the increment of the source, in place -----

  method IncrementBe(counter: array<bv8>)
    modifies counter
    ensures counter[..] == Increment(old(counter[..]))
  {
    ghost var was := counter[..];
    assert Increment([]) == [];
    hide Increment;
    assert was[..counter.Length] == was;
    var i := counter.Length;
    while i > 0
      invariant 0 <= i <= counter.Length
      invariant counter[..i] == was[..i]
      invariant Increment(was) == Increment(was[..i]) + counter[i..]
    {
      i := i - 1;
      CarryStep(was, i, counter[i + 1..]);
      counter[i] := counter[i] + 1;
      assert counter[i..] == [counter[i]] + counter[i + 1..];
      assert counter[..i] == was[..i];
      if counter[i] != 0 {
        assert counter[..] == counter[..i] + counter[i..];
        return;
      }
    }
    assert counter[..] == [] + counter[0..];
  }

  lemma CarryStep(was: seq<bv8>, i: nat, tail: seq<bv8>)
    requires i < |was|
    ensures Increment(was[..i + 1]) + tail ==
            (if was[i] + 1 != 0 then was[..i] else Increment(was[..i])) + ([was[i] + 1] + tail)
  {
    IncrementLast(was[..i], was[i]);
    assert was[..i + 1] == was[..i] + [was[i]];
  }
}
