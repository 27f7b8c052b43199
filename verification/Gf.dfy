/** GF(2^8) as section 4.2 of FIPS 197 defines it, and the source's shift-and-add multiplication. */
module Gf {

  // ----- polynomials over GF(2): bit k of a word is the coefficient of x^k -----

  /** Addition of bytes. */
  function Add(a: bv8, b: bv8): bv8 {
    a ^ b
  }

  /** Addition of products. */
  function AddWide(p: bv16, q: bv16): bv16 {
    p ^ q
  }

  /** `a` times x^k, if that term is present. */
  function Term(a: bv8, k: bv16, on: bool): bv16
    requires k < 8
  {
    if on then (a as bv16) << k else 0
  }

  /** The product of two bytes as polynomials, before reduction. */
  function Product(a: bv8, b: bv8): bv16 {
    AddWide(AddWide(AddWide(AddWide(AddWide(AddWide(AddWide(
      Term(a, 0, b & 0x01 != 0), Term(a, 1, b & 0x02 != 0)), Term(a, 2, b & 0x04 != 0)), Term(a, 3, b & 0x08 != 0)),
      Term(a, 4, b & 0x10 != 0)), Term(a, 5, b & 0x20 != 0)), Term(a, 6, b & 0x40 != 0)), Term(a, 7, b & 0x80 != 0))
  }

  /** Cancels one term of `p`, if present, with a multiple of the modulus that has this leading term. */
  function Cancel(p: bv16, term: bv16, multiple: bv16): bv16 {
    if p & term != 0 then AddWide(p, multiple) else p
  }

  function LowByte(p: bv16): bv8 {
    (p & 0xff) as bv8
  }

  /** The remainder modulo x^8 + x^4 + x^3 + x + 1 (0x11b), by long division. */
  function Reduce(p: bv16): bv8 {
    LowByte(Cancel(Cancel(Cancel(Cancel(Cancel(Cancel(Cancel(Cancel(p,
      0x8000, 0x8d80), 0x4000, 0x46c0), 0x2000, 0x2360), 0x1000, 0x11b0),
      0x0800, 0x08d8), 0x0400, 0x046c), 0x0200, 0x0236), 0x0100, 0x011b))
  }

  /** Multiplication in GF(2^8). */
  function Times(a: bv8, b: bv8): bv8 {
    Reduce(Product(a, b))
  }

  // ----- reduction and multiplication are linear -----

  lemma WideAssociates(p: bv16, q: bv16, r: bv16)
    ensures AddWide(p, AddWide(q, r)) == AddWide(AddWide(p, q), r)
  {
  }

  lemma WideCommutes(p: bv16, q: bv16)
    ensures AddWide(p, q) == AddWide(q, p) && AddWide(p, p) == 0 && AddWide(p, 0) == p
  {
  }

  lemma PairUp(p: bv16, q: bv16, r: bv16, s: bv16)
    ensures AddWide(AddWide(p, q), AddWide(r, s)) == AddWide(AddWide(p, r), AddWide(q, s))
  {
    hide *;
    WideAssociates(AddWide(p, q), r, s);
    WideAssociates(p, q, r);
    WideCommutes(q, r);
    WideAssociates(p, r, q);
    WideAssociates(AddWide(p, r), q, s);
  }

  lemma MaskAdds(p: bv16, q: bv16, term: bv16)
    requires (p & term == 0 || p & term == term) && (q & term == 0 || q & term == term) && term != 0
    ensures AddWide(p, q) & term != 0 <==> (p & term != 0) != (q & term != 0)
  {
    assert (p ^ q) & term == (p & term) ^ (q & term);
    assert term ^ term == 0;
  }

  lemma CancelAdds(p: bv16, q: bv16, term: bv16, multiple: bv16)
    requires (p & term == 0 || p & term == term) && (q & term == 0 || q & term == term) && term != 0
    ensures Cancel(AddWide(p, q), term, multiple) == AddWide(Cancel(p, term, multiple), Cancel(q, term, multiple))
  {
    MaskAdds(p, q, term);
    hide AddWide;
    WideCommutes(multiple, multiple);
    WideCommutes(AddWide(p, q), 0);
    PairUp(p, multiple, q, multiple);
    WideAssociates(p, q, multiple);
    WideAssociates(p, multiple, q);
    WideCommutes(q, multiple);
  }

  lemma LowByteAdds(p: bv16, q: bv16)
    ensures LowByte(AddWide(p, q)) == Add(LowByte(p), LowByte(q))
  {
  }

  lemma OneBit(p: bv16)
    ensures p & 0x8000 == 0 || p & 0x8000 == 0x8000
    ensures p & 0x4000 == 0 || p & 0x4000 == 0x4000
    ensures p & 0x2000 == 0 || p & 0x2000 == 0x2000
    ensures p & 0x1000 == 0 || p & 0x1000 == 0x1000
    ensures p & 0x0800 == 0 || p & 0x0800 == 0x0800
    ensures p & 0x0400 == 0 || p & 0x0400 == 0x0400
    ensures p & 0x0200 == 0 || p & 0x0200 == 0x0200
    ensures p & 0x0100 == 0 || p & 0x0100 == 0x0100
  {
  }

  /** Each step of the long division distributes over addition, so the division does. */
  lemma ReduceAdds(p: bv16, q: bv16)
    ensures Reduce(AddWide(p, q)) == Add(Reduce(p), Reduce(q))
  {
    hide Cancel, AddWide, Add, LowByte;
    CancelAdds(p, q, 0x8000, 0x8d80);
    var p7, q7 := Cancel(p, 0x8000, 0x8d80), Cancel(q, 0x8000, 0x8d80);
    CancelAdds(p7, q7, 0x4000, 0x46c0);
    var p6, q6 := Cancel(p7, 0x4000, 0x46c0), Cancel(q7, 0x4000, 0x46c0);
    CancelAdds(p6, q6, 0x2000, 0x2360);
    var p5, q5 := Cancel(p6, 0x2000, 0x2360), Cancel(q6, 0x2000, 0x2360);
    CancelAdds(p5, q5, 0x1000, 0x11b0);
    var p4, q4 := Cancel(p5, 0x1000, 0x11b0), Cancel(q5, 0x1000, 0x11b0);
    CancelAdds(p4, q4, 0x0800, 0x08d8);
    var p3, q3 := Cancel(p4, 0x0800, 0x08d8), Cancel(q4, 0x0800, 0x08d8);
    CancelAdds(p3, q3, 0x0400, 0x046c);
    var p2, q2 := Cancel(p3, 0x0400, 0x046c), Cancel(q3, 0x0400, 0x046c);
    CancelAdds(p2, q2, 0x0200, 0x0236);
    var p1, q1 := Cancel(p2, 0x0200, 0x0236), Cancel(q2, 0x0200, 0x0236);
    CancelAdds(p1, q1, 0x0100, 0x011b);
    LowByteAdds(Cancel(p1, 0x0100, 0x011b), Cancel(q1, 0x0100, 0x011b));
  }

  lemma WidenAdds(a: bv8, b: bv8)
    ensures (a ^ b) as bv16 == (a as bv16) ^ (b as bv16)
  {
  }

  lemma ShiftAdds(p: bv16, q: bv16, k: bv16)
    requires k < 8
    ensures (p ^ q) << k == (p << k) ^ (q << k)
  {
    if k == 0 {
    } else if k == 1 {
    } else if k == 2 {
    } else if k == 3 {
    } else if k == 4 {
    } else if k == 5 {
    } else if k == 6 {
    } else {
      assert k == 7;
    }
  }

  lemma TermAdds(a: bv8, b: bv8, k: bv16, on: bool)
    requires k < 8
    ensures Term(Add(a, b), k, on) == AddWide(Term(a, k, on), Term(b, k, on))
  {
    if on {
      WidenAdds(a, b);
      ShiftAdds(a as bv16, b as bv16, k);
    }
  }

  lemma ProductAdds(a: bv8, b: bv8, c: bv8)
    ensures Product(Add(a, b), c) == AddWide(Product(a, c), Product(b, c))
  {
    hide Add, AddWide, Term;
    var a0, b0 := Term(a, 0, c & 0x01 != 0), Term(b, 0, c & 0x01 != 0);
    var a1, b1 := Term(a, 1, c & 0x02 != 0), Term(b, 1, c & 0x02 != 0);
    var a2, b2 := Term(a, 2, c & 0x04 != 0), Term(b, 2, c & 0x04 != 0);
    var a3, b3 := Term(a, 3, c & 0x08 != 0), Term(b, 3, c & 0x08 != 0);
    var a4, b4 := Term(a, 4, c & 0x10 != 0), Term(b, 4, c & 0x10 != 0);
    var a5, b5 := Term(a, 5, c & 0x20 != 0), Term(b, 5, c & 0x20 != 0);
    var a6, b6 := Term(a, 6, c & 0x40 != 0), Term(b, 6, c & 0x40 != 0);
    var a7, b7 := Term(a, 7, c & 0x80 != 0), Term(b, 7, c & 0x80 != 0);
    TermAdds(a, b, 0, c & 0x01 != 0);
    TermAdds(a, b, 1, c & 0x02 != 0);
    TermAdds(a, b, 2, c & 0x04 != 0);
    TermAdds(a, b, 3, c & 0x08 != 0);
    TermAdds(a, b, 4, c & 0x10 != 0);
    TermAdds(a, b, 5, c & 0x20 != 0);
    TermAdds(a, b, 6, c & 0x40 != 0);
    TermAdds(a, b, 7, c & 0x80 != 0);
    PairUp(a0, b0, a1, b1);
    var p1, q1 := AddWide(a0, a1), AddWide(b0, b1);
    PairUp(p1, q1, a2, b2);
    var p2, q2 := AddWide(p1, a2), AddWide(q1, b2);
    PairUp(p2, q2, a3, b3);
    var p3, q3 := AddWide(p2, a3), AddWide(q2, b3);
    PairUp(p3, q3, a4, b4);
    var p4, q4 := AddWide(p3, a4), AddWide(q3, b4);
    PairUp(p4, q4, a5, b5);
    var p5, q5 := AddWide(p4, a5), AddWide(q4, b5);
    PairUp(p5, q5, a6, b6);
    var p6, q6 := AddWide(p5, a6), AddWide(q5, b6);
    PairUp(p6, q6, a7, b7);
  }

  /** Multiplication distributes over addition. */
  lemma TimesAdds(a: bv8, b: bv8, c: bv8)
    ensures Times(Add(a, b), c) == Add(Times(a, c), Times(b, c))
  {
    hide Add, AddWide, Product, Reduce;
    ProductAdds(a, b, c);
    ReduceAdds(Product(a, c), Product(b, c));
  }

  // ----- the loop of the source -----

  /** Multiplication by x, as the loop does it. */
  function Xtime(a: bv8): bv8 {
    if a & 0x80 != 0 then (a << 1) ^ 0x1b else a << 1
  }

  lemma MultiplesVanish()
    ensures Reduce(0) == 0
    ensures Reduce(0x011b) == 0 && Reduce(0x0236) == 0 && Reduce(0x046c) == 0 && Reduce(0x08d8) == 0
    ensures Reduce(0x11b0) == 0 && Reduce(0x2360) == 0 && Reduce(0x46c0) == 0 && Reduce(0x8d80) == 0
  {
  }

  lemma AddZero(a: bv8)
    ensures Add(a, 0) == a && Add(0, a) == a && Add(a, a) == 0
  {
  }

  lemma XtimeShift(a: bv8, k: bv16)
    requires k < 7
    ensures a & 0x80 == 0 ==> Term(a, k + 1, true) == Term(Xtime(a), k, true)
    ensures a & 0x80 != 0 ==> Term(a, k + 1, true) == AddWide(Term(Xtime(a), k, true), 0x011b << k)
  {
  }

  lemma ShiftedModulus(k: bv16)
    requires k < 7
    ensures Reduce(0x011b << k) == 0
  {
    MultiplesVanish();
    if k == 0 {
    } else if k == 1 {
    } else if k == 2 {
    } else if k == 3 {
    } else if k == 4 {
    } else if k == 5 {
    } else {
      assert k == 6;
    }
  }

  /** Multiplying by x^(k + 1) is multiplying by x, then by x^k. */
  lemma ReduceShift(a: bv8, k: bv16, on: bool)
    requires k < 7
    ensures Reduce(Term(a, k + 1, on)) == Reduce(Term(Xtime(a), k, on))
  {
    hide Reduce, Xtime, AddWide, Add;
    if on {
      XtimeShift(a, k);
      if a & 0x80 != 0 {
        ReduceAdds(Term(Xtime(a), k, true), 0x011b << k);
        ShiftedModulus(k);
        AddZero(Reduce(Term(Xtime(a), k, true)));
      }
    }
  }

  /** The product as a sum of reduced terms. */
  function Sum(t0: bv8, t1: bv8, t2: bv8, t3: bv8, t4: bv8, t5: bv8, t6: bv8, t7: bv8): bv8 {
    Add(Add(Add(Add(Add(Add(Add(t0, t1), t2), t3), t4), t5), t6), t7)
  }

  lemma TimesIsSum(a: bv8, b: bv8)
    ensures Times(a, b) ==
      Sum(Reduce(Term(a, 0, b & 0x01 != 0)), Reduce(Term(a, 1, b & 0x02 != 0)),
          Reduce(Term(a, 2, b & 0x04 != 0)), Reduce(Term(a, 3, b & 0x08 != 0)),
          Reduce(Term(a, 4, b & 0x10 != 0)), Reduce(Term(a, 5, b & 0x20 != 0)),
          Reduce(Term(a, 6, b & 0x40 != 0)), Reduce(Term(a, 7, b & 0x80 != 0)))
  {
    hide Add, AddWide, Term, Reduce;
    var p1 := AddWide(Term(a, 0, b & 0x01 != 0), Term(a, 1, b & 0x02 != 0));
    var p2 := AddWide(p1, Term(a, 2, b & 0x04 != 0));
    var p3 := AddWide(p2, Term(a, 3, b & 0x08 != 0));
    var p4 := AddWide(p3, Term(a, 4, b & 0x10 != 0));
    var p5 := AddWide(p4, Term(a, 5, b & 0x20 != 0));
    var p6 := AddWide(p5, Term(a, 6, b & 0x40 != 0));
    ReduceAdds(Term(a, 0, b & 0x01 != 0), Term(a, 1, b & 0x02 != 0));
    ReduceAdds(p1, Term(a, 2, b & 0x04 != 0));
    ReduceAdds(p2, Term(a, 3, b & 0x08 != 0));
    ReduceAdds(p3, Term(a, 4, b & 0x10 != 0));
    ReduceAdds(p4, Term(a, 5, b & 0x20 != 0));
    ReduceAdds(p5, Term(a, 6, b & 0x40 != 0));
    ReduceAdds(p6, Term(a, 7, b & 0x80 != 0));
  }

  lemma ShiftedBits(b: bv8)
    ensures (b >> 1) & 0x01 != 0 <==> b & 0x02 != 0
    ensures (b >> 1) & 0x02 != 0 <==> b & 0x04 != 0
    ensures (b >> 1) & 0x04 != 0 <==> b & 0x08 != 0
    ensures (b >> 1) & 0x08 != 0 <==> b & 0x10 != 0
    ensures (b >> 1) & 0x10 != 0 <==> b & 0x20 != 0
    ensures (b >> 1) & 0x20 != 0 <==> b & 0x40 != 0
    ensures (b >> 1) & 0x40 != 0 <==> b & 0x80 != 0
    ensures (b >> 1) & 0x80 == 0
  {
  }

  lemma LowTerm(a: bv8, on: bool)
    ensures Reduce(Term(a, 0, on)) == if on then a else 0
    ensures Reduce(Term(a, 7, false)) == 0
  {
    MultiplesVanish();
  }

  lemma AddAssociates(a: bv8, b: bv8, c: bv8)
    ensures Add(a, Add(b, c)) == Add(Add(a, b), c)
  {
  }

  lemma SumShifts(t0: bv8, t1: bv8, t2: bv8, t3: bv8, t4: bv8, t5: bv8, t6: bv8, t7: bv8)
    ensures Sum(t0, t1, t2, t3, t4, t5, t6, t7) == Add(t0, Sum(t1, t2, t3, t4, t5, t6, t7, 0))
  {
    hide Add;
    var s2 := Add(t1, t2);
    var s3 := Add(s2, t3);
    var s4 := Add(s3, t4);
    var s5 := Add(s4, t5);
    var s6 := Add(s5, t6);
    AddAssociates(t0, t1, t2);
    AddAssociates(t0, s2, t3);
    AddAssociates(t0, s3, t4);
    AddAssociates(t0, s4, t5);
    AddAssociates(t0, s5, t6);
    AddAssociates(t0, s6, t7);
    AddZero(Add(s6, t7));
  }

  /** One turn of the loop: the lowest bit of `b` adds `a`, the others multiply x times `a`. */
  lemma TimesStep(a: bv8, b: bv8)
    ensures Times(a, b) == Add(if b & 1 != 0 then a else 0, Times(Xtime(a), b >> 1))
  {
    TimesIsSum(a, b);
    TimesIsSum(Xtime(a), b >> 1);
    ShiftedBits(b);
    ReduceShift(a, 0, b & 0x02 != 0);
    ReduceShift(a, 1, b & 0x04 != 0);
    ReduceShift(a, 2, b & 0x08 != 0);
    ReduceShift(a, 3, b & 0x10 != 0);
    ReduceShift(a, 4, b & 0x20 != 0);
    ReduceShift(a, 5, b & 0x40 != 0);
    ReduceShift(a, 6, b & 0x80 != 0);
    LowTerm(a, b & 1 != 0);
    LowTerm(Xtime(a), false);
    SumShifts(if b & 1 != 0 then a else 0, Reduce(Term(a, 1, b & 0x02 != 0)),
              Reduce(Term(a, 2, b & 0x04 != 0)), Reduce(Term(a, 3, b & 0x08 != 0)),
              Reduce(Term(a, 4, b & 0x10 != 0)), Reduce(Term(a, 5, b & 0x20 != 0)),
              Reduce(Term(a, 6, b & 0x40 != 0)), Reduce(Term(a, 7, b & 0x80 != 0)));
    hide *;
  }

  lemma TimesZero(a: bv8)
    ensures Times(a, 0) == 0
  {
    MultiplesVanish();
  }

  /** `b` after `k` shifts by one place. */
  function Shifted(b: bv8, k: nat): bv8 {
    if k == 0 then b else Shifted(b, k - 1) >> 1
  }

  lemma ShiftedOut(b: bv8)
    ensures Shifted(b, 8) == 0
  {
    assert Shifted(b, 1) == b >> 1;
    assert Shifted(b, 2) == b >> 2;
    assert Shifted(b, 3) == b >> 3;
    assert Shifted(b, 4) == b >> 4;
    assert Shifted(b, 5) == b >> 5;
    assert Shifted(b, 6) == b >> 6;
    assert Shifted(b, 7) == b >> 7;
  }

  method Mul(a0: bv8, b0: bv8) returns (p: bv8)
    ensures p == Times(a0, b0)
  {
    hide Times, Add, Xtime;
    var a, b := a0, b0;
    p := 0;
    AddZero(Times(a, b));
    for k := 0 to 8
      invariant Add(p, Times(a, b)) == Times(a0, b0)
      invariant b == Shifted(b0, k)
    {
      TimesStep(a, b);
      AddAssociates(p, if b & 1 != 0 then a else 0, Times(Xtime(a), b >> 1));
      AddZero(p);
      LoopStep(p, a);
      if b & 1 != 0 {
        p := p ^ a;
      }
      var hi := a & 0x80;
      a := a << 1;
      if hi != 0 {
        a := a ^ 0x1b;
      }
      b := b >> 1;
    }
    ShiftedOut(b0);
    TimesZero(a);
    AddZero(p);
  }

  lemma LoopStep(p: bv8, a: bv8)
    ensures Add(p, a) == p ^ a
    ensures Xtime(a) == if a & 0x80 != 0 then (a << 1) ^ 0x1b else a << 1
  {
  }
}
