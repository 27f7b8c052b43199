/** The matrices of AES MixColumns over GF(2^8), and that they are inverse to each other. */
module MixMatrix {
  import opened Gf

  // ----- sums and products of four bytes -----

  datatype Quad = Quad(a: bv8, b: bv8, c: bv8, d: bv8)

  function Sum4(q: Quad): bv8 {
    Add(Add(q.a, q.b), Add(q.c, q.d))
  }

  function Scale(q: Quad, m: Quad): Quad {
    Quad(Times(q.a, m.a), Times(q.b, m.b), Times(q.c, m.c), Times(q.d, m.d))
  }

  /** A row of a matrix over GF(2^8) times a column. */
  function Dot(q: Quad, row: Quad): bv8 {
    Sum4(Scale(q, row))
  }

  datatype Matrix = Matrix(r0: Quad, r1: Quad, r2: Quad, r3: Quad)

  function Apply(m: Matrix, q: Quad): Quad {
    Quad(Dot(q, m.r0), Dot(q, m.r1), Dot(q, m.r2), Dot(q, m.r3))
  }

  /** Section 5.1.3 of FIPS 197. */
  const MIX := Matrix(Quad(2, 3, 1, 1), Quad(1, 2, 3, 1), Quad(1, 1, 2, 3), Quad(3, 1, 1, 2))

  /** Section 5.3.3 of FIPS 197. */
  const INV_MIX := Matrix(Quad(0x0e, 0x0b, 0x0d, 0x09), Quad(0x09, 0x0e, 0x0b, 0x0d),
                          Quad(0x0d, 0x09, 0x0e, 0x0b), Quad(0x0b, 0x0d, 0x09, 0x0e))

  lemma AddCommutes(x: bv8, y: bv8)
    ensures Add(x, y) == Add(y, x)
  {
  }

  lemma PairBytes(p: bv8, q: bv8, r: bv8, s: bv8)
    ensures Add(Add(p, q), Add(r, s)) == Add(Add(p, r), Add(q, s))
  {
    hide *;
    AddAssociates(Add(p, q), r, s);
    AddAssociates(p, q, r);
    AddCommutes(q, r);
    AddAssociates(p, r, q);
    AddAssociates(Add(p, r), q, s);
  }

  lemma SumOfSums(p: Quad, q: Quad)
    ensures Add(Sum4(p), Sum4(q)) == Sum4(Quad(Add(p.a, q.a), Add(p.b, q.b), Add(p.c, q.c), Add(p.d, q.d)))
  {
    hide Add;
    PairBytes(Add(p.a, p.b), Add(p.c, p.d), Add(q.a, q.b), Add(q.c, q.d));
    PairBytes(p.a, p.b, q.a, q.b);
    PairBytes(p.c, p.d, q.c, q.d);
  }

  /** Adding up a four by four square by rows or by columns gives the same. */
  lemma SumTransposed(m: Matrix)
    ensures Sum4(Quad(Sum4(m.r0), Sum4(m.r1), Sum4(m.r2), Sum4(m.r3))) ==
            Sum4(Quad(Sum4(Quad(m.r0.a, m.r1.a, m.r2.a, m.r3.a)), Sum4(Quad(m.r0.b, m.r1.b, m.r2.b, m.r3.b)),
                      Sum4(Quad(m.r0.c, m.r1.c, m.r2.c, m.r3.c)), Sum4(Quad(m.r0.d, m.r1.d, m.r2.d, m.r3.d))))
  {
    hide Add;
    SumOfSums(m.r0, m.r1);
    SumOfSums(m.r2, m.r3);
    SumOfSums(Quad(Add(m.r0.a, m.r1.a), Add(m.r0.b, m.r1.b), Add(m.r0.c, m.r1.c), Add(m.r0.d, m.r1.d)),
              Quad(Add(m.r2.a, m.r3.a), Add(m.r2.b, m.r3.b), Add(m.r2.c, m.r3.c), Add(m.r2.d, m.r3.d)));
  }

  lemma ScaleSum(q: Quad, n: bv8)
    ensures Times(Sum4(q), n) == Sum4(Scale(q, Quad(n, n, n, n)))
  {
    hide Add, Times;
    TimesAdds(Add(q.a, q.b), Add(q.c, q.d), n);
    TimesAdds(q.a, q.b, n);
    TimesAdds(q.c, q.d, n);
  }

  /** What the inverse row `n` makes of the multiples of `x` in one column of the matrix. */
  function Coefficient(x: bv8, col: Quad, n: Quad): bv8 {
    Sum4(Scale(Scale(Quad(x, x, x, x), col), n))
  }

  /** A row times a matrix times a column, sorted by the entries of the column. */
  lemma DotOfApply(q: Quad, m: Matrix, n: Quad)
    ensures Dot(Apply(m, q), n) ==
      Sum4(Quad(Coefficient(q.a, Quad(m.r0.a, m.r1.a, m.r2.a, m.r3.a), n),
                Coefficient(q.b, Quad(m.r0.b, m.r1.b, m.r2.b, m.r3.b), n),
                Coefficient(q.c, Quad(m.r0.c, m.r1.c, m.r2.c, m.r3.c), n),
                Coefficient(q.d, Quad(m.r0.d, m.r1.d, m.r2.d, m.r3.d), n)))
  {
    hide Add, Times, Sum4;
    ScaleSum(Scale(q, m.r0), n.a);
    ScaleSum(Scale(q, m.r1), n.b);
    ScaleSum(Scale(q, m.r2), n.c);
    ScaleSum(Scale(q, m.r3), n.d);
    SumTransposed(Matrix(Scale(Scale(q, m.r0), Quad(n.a, n.a, n.a, n.a)),
                         Scale(Scale(q, m.r1), Quad(n.b, n.b, n.b, n.b)),
                         Scale(Scale(q, m.r2), Quad(n.c, n.c, n.c, n.c)),
                         Scale(Scale(q, m.r3), Quad(n.d, n.d, n.d, n.d))));
  }

  // ----- the constant multiples that MixColumns uses -----

  /** x, x times x, and so on: the powers the source's doubling makes. */
  datatype Powers = Powers(x0: bv8, x1: bv8, x2: bv8, x3: bv8, x4: bv8)

  function PowersOf(x: bv8): Powers {
    var x1 := Xtime(x);
    var x2 := Xtime(x1);
    var x3 := Xtime(x2);
    Powers(x, x1, x2, x3, Xtime(x3))
  }

  datatype Coefs = Coefs(c0: bool, c1: bool, c2: bool, c3: bool, c4: bool)

  function Select(on: bool, x: bv8): bv8 {
    if on then x else 0
  }

  /** A sum of powers. */
  function Comb(c: Coefs, p: Powers): bv8 {
    Add(Add(Add(Select(c.c0, p.x0), Select(c.c1, p.x1)), Add(Select(c.c2, p.x2), Select(c.c3, p.x3))),
        Select(c.c4, p.x4))
  }

  function Differ(c: Coefs, d: Coefs): Coefs {
    Coefs(c.c0 != d.c0, c.c1 != d.c1, c.c2 != d.c2, c.c3 != d.c3, c.c4 != d.c4)
  }

  lemma SelectAdds(on: bool, on': bool, x: bv8)
    ensures Add(Select(on, x), Select(on', x)) == Select(on != on', x)
  {
    hide Add;
    AddZero(x);
    AddZero(0);
  }

  lemma CombIs(c: Coefs, p: Powers)
    ensures Comb(c, p) ==
      Add(Add(Add(Select(c.c0, p.x0), Select(c.c1, p.x1)), Add(Select(c.c2, p.x2), Select(c.c3, p.x3))),
          Select(c.c4, p.x4))
  {
  }

  lemma CombAdds(c: Coefs, d: Coefs, p: Powers)
    ensures Add(Comb(c, p), Comb(d, p)) == Comb(Differ(c, d), p)
  {
    hide Add, Select, Comb;
    CombIs(c, p);
    CombIs(d, p);
    CombIs(Differ(c, d), p);
    var a, a' := Add(Select(c.c0, p.x0), Select(c.c1, p.x1)), Add(Select(d.c0, p.x0), Select(d.c1, p.x1));
    var b, b' := Add(Select(c.c2, p.x2), Select(c.c3, p.x3)), Add(Select(d.c2, p.x2), Select(d.c3, p.x3));
    PairBytes(Add(a, b), Select(c.c4, p.x4), Add(a', b'), Select(d.c4, p.x4));
    PairBytes(a, b, a', b');
    PairBytes(Select(c.c0, p.x0), Select(c.c1, p.x1), Select(d.c0, p.x0), Select(d.c1, p.x1));
    PairBytes(Select(c.c2, p.x2), Select(c.c3, p.x3), Select(d.c2, p.x2), Select(d.c3, p.x3));
    SelectAdds(c.c0, d.c0, p.x0);
    SelectAdds(c.c1, d.c1, p.x1);
    SelectAdds(c.c2, d.c2, p.x2);
    SelectAdds(c.c3, d.c3, p.x3);
    SelectAdds(c.c4, d.c4, p.x4);
  }

  /** A byte as the polynomial whose terms it selects. */
  function CoefsOf(b: bv8): Coefs {
    Coefs(b & 1 != 0, b & 2 != 0, b & 4 != 0, b & 8 != 0, b & 16 != 0)
  }

  lemma TimesTerm(x: bv8)
    ensures Reduce(Term(x, 0, true)) == x && Reduce(Term(x, 1, true)) == Xtime(x)
    ensures Reduce(Term(x, 2, true)) == Xtime(Xtime(x)) && Reduce(Term(x, 3, true)) == Xtime(Xtime(Xtime(x)))
  {
    hide Reduce, Term, Xtime;
    LowTerm(x, true);
    LowTerm(Xtime(x), true);
    LowTerm(Xtime(Xtime(x)), true);
    LowTerm(Xtime(Xtime(Xtime(x))), true);
    ReduceShift(x, 0, true);
    ReduceShift(x, 1, true);
    ReduceShift(Xtime(x), 0, true);
    ReduceShift(x, 2, true);
    ReduceShift(Xtime(x), 1, true);
    ReduceShift(Xtime(Xtime(x)), 0, true);
  }

  lemma NoTerm(x: bv8, k: bv16)
    requires k < 8
    ensures Reduce(Term(x, k, false)) == 0
  {
    MultiplesVanish();
  }

  lemma HighBitsOff(b: bv8)
    requires b < 16
    ensures b & 16 == 0 && b & 0x10 == 0 && b & 0x20 == 0 && b & 0x40 == 0 && b & 0x80 == 0
  {
  }

  /** Multiples by less than x^4 select among the powers of x times the byte. */
  lemma TimesIsComb(x: bv8, b: bv8)
    requires b < 16
    ensures Times(x, b) == Comb(CoefsOf(b), PowersOf(x))
  {
    HighBitsOff(b);
    TimesIsSum(x, b);
    SumOfTerms(x, b & 1 != 0, b & 2 != 0, b & 4 != 0, b & 8 != 0);
    hide Times, Add, Xtime, Reduce, Term, Comb, Sum, Select, PowersOf;
  }

  lemma SumOfTerms(x: bv8, b0: bool, b1: bool, b2: bool, b3: bool)
    ensures Sum(Reduce(Term(x, 0, b0)), Reduce(Term(x, 1, b1)), Reduce(Term(x, 2, b2)), Reduce(Term(x, 3, b3)),
                Reduce(Term(x, 4, false)), Reduce(Term(x, 5, false)), Reduce(Term(x, 6, false)),
                Reduce(Term(x, 7, false))) ==
            Comb(Coefs(b0, b1, b2, b3, false), PowersOf(x))
  {
    hide Times, Add, Xtime, Reduce, Term, Comb, Sum, Select;
    var p := PowersOf(x);
    TermIsSelect(x, p.x0, 0, b0);
    TermIsSelect(x, p.x1, 1, b1);
    TermIsSelect(x, p.x2, 2, b2);
    TermIsSelect(x, p.x3, 3, b3);
    NoTerm(x, 4);
    NoTerm(x, 5);
    NoTerm(x, 6);
    NoTerm(x, 7);
    SumIsComb(Coefs(b0, b1, b2, b3, false), p);
  }

  lemma TermIsSelect(x: bv8, xk: bv8, k: bv16, on: bool)
    requires k == 0 || k == 1 || k == 2 || k == 3
    requires xk == if k == 0 then x else if k == 1 then Xtime(x) else if k == 2 then Xtime(Xtime(x))
             else Xtime(Xtime(Xtime(x)))
    ensures Reduce(Term(x, k, on)) == Select(on, xk)
  {
    hide Reduce, Term, Xtime;
    TimesTerm(x);
    NoTerm(x, k);
  }

  lemma SumIsComb(c: Coefs, p: Powers)
    requires !c.c4
    ensures Sum(Select(c.c0, p.x0), Select(c.c1, p.x1), Select(c.c2, p.x2), Select(c.c3, p.x3), 0, 0, 0, 0) ==
            Comb(c, p)
  {
    hide Add;
    var t0, t1, t2, t3 := Select(c.c0, p.x0), Select(c.c1, p.x1), Select(c.c2, p.x2), Select(c.c3, p.x3);
    AddAssociates(Add(t0, t1), t2, t3);
    AddZero(Add(Add(Add(t0, t1), t2), t3));
  }

  /** The coefficients one power up. */
  function Up(c: Coefs): Coefs {
    Coefs(false, c.c0, c.c1, c.c2, c.c3)
  }

  lemma CombUp(x: bv8, c: Coefs)
    requires !c.c4
    ensures Comb(c, PowersOf(Xtime(x))) == Comb(Up(c), PowersOf(x))
  {
    hide Add, Xtime;
    var p := PowersOf(x);
    var t1, t2, t3, t4 := Select(c.c0, p.x1), Select(c.c1, p.x2), Select(c.c2, p.x3), Select(c.c3, p.x4);
    AddZero(t1);
    AddZero(Add(Add(t1, t2), Add(t3, t4)));
    AddAssociates(t1, t2, Add(t3, t4));
    AddAssociates(t1, Add(t2, t3), t4);
    AddAssociates(t2, t3, t4);
  }

  lemma TwoMultiples(x: bv8, n: bv8)
    requires n < 16
    ensures Times(x, n) == Comb(CoefsOf(n), PowersOf(x))
    ensures Times(Xtime(x), n) == Comb(Up(CoefsOf(n)), PowersOf(x))
  {
    HighBitsOff(n);
    hide Times, Add, Xtime, Comb, PowersOf;
    TimesIsComb(x, n);
    TimesIsComb(Xtime(x), n);
    CombUp(x, CoefsOf(n));
  }

  /** `n` times `m` times a byte, for the small `m` of MixColumns. */
  lemma TwiceScaled(x: bv8, m: bv8, n: bv8)
    requires IsMixFactor(m) && n < 16
    ensures Times(Times(x, m), n) == Comb(ScaledCoefs(m, n), PowersOf(x))
  {
    hide Times, Add, Xtime, Comb, PowersOf, CoefsOf;
    SmallMultiples(x);
    TwoMultiples(x, n);
    if m == 3 {
      TimesAdds(x, Xtime(x), n);
      CombAdds(CoefsOf(n), Up(CoefsOf(n)), PowersOf(x));
    }
  }

  lemma SmallBits()
    ensures (2 as bv8) & 1 == 0 && (2 as bv8) >> 1 == 1 && (1 as bv8) & 1 == 1 && (1 as bv8) >> 1 == 0
    ensures (3 as bv8) & 1 == 1 && (3 as bv8) >> 1 == 1
  {
  }

  lemma SmallMultiples(x: bv8)
    ensures Times(x, 1) == x && Times(x, 2) == Xtime(x) && Times(x, 3) == Add(x, Xtime(x))
  {
    hide Times, Add, Xtime;
    SmallBits();
    TimesStep(x, 1);
    TimesStep(Xtime(x), 1);
    TimesZero(Xtime(x));
    TimesZero(Xtime(Xtime(x)));
    TimesStep(x, 2);
    TimesStep(x, 3);
    AddZero(x);
    AddZero(Xtime(x));
  }

  lemma InverseCoefs()
    ensures CoefsOf(0x09) == Coefs(true, false, false, true, false)
    ensures CoefsOf(0x0b) == Coefs(true, true, false, true, false)
    ensures CoefsOf(0x0d) == Coefs(true, false, true, true, false)
    ensures CoefsOf(0x0e) == Coefs(false, true, true, true, false)
  {
  }

  lemma CombUnit(p: Powers)
    ensures Comb(Coefs(true, false, false, false, false), p) == p.x0
    ensures Comb(Coefs(false, false, false, false, false), p) == 0
  {
    hide Add;
    AddZero(p.x0);
    AddZero(0);
  }

  /** Four combinations of the same powers add up to the combination of their coefficients. */
  lemma SumOfCombs(a: Coefs, b: Coefs, c: Coefs, d: Coefs, p: Powers)
    ensures Sum4(Quad(Comb(a, p), Comb(b, p), Comb(c, p), Comb(d, p))) == Comb(Differ(Differ(a, b), Differ(c, d)), p)
  {
    hide Add, Comb, Differ;
    CombAdds(a, b, p);
    CombAdds(c, d, p);
    CombAdds(Differ(a, b), Differ(c, d), p);
  }

  function ScaledCoefs(m: bv8, n: bv8): Coefs {
    var c := CoefsOf(n);
    if m == 1 then c else if m == 2 then Up(c) else Differ(c, Up(c))
  }

  ghost predicate IsMixQuad(q: Quad) {
    IsMixFactor(q.a) && IsMixFactor(q.b) && IsMixFactor(q.c) && IsMixFactor(q.d)
  }

  predicate IsMixFactor(m: bv8) {
    m == 1 || m == 2 || m == 3
  }

  lemma CoefficientIs(x: bv8, col: Quad, n: Quad)
    requires IsMixQuad(col) && n.a < 16 && n.b < 16 && n.c < 16 && n.d < 16
    ensures Coefficient(x, col, n) ==
      Comb(Differ(Differ(ScaledCoefs(col.a, n.a), ScaledCoefs(col.b, n.b)),
                  Differ(ScaledCoefs(col.c, n.c), ScaledCoefs(col.d, n.d))), PowersOf(x))
  {
    hide Times, Comb, PowersOf, Sum4, CoefsOf;
    TwiceScaled(x, col.a, n.a);
    TwiceScaled(x, col.b, n.b);
    TwiceScaled(x, col.c, n.c);
    TwiceScaled(x, col.d, n.d);
    SumOfCombs(ScaledCoefs(col.a, n.a), ScaledCoefs(col.b, n.b), ScaledCoefs(col.c, n.c), ScaledCoefs(col.d, n.d),
               PowersOf(x));
  }

  /** The entry in row `n` and column `col` of the product of the two matrices. */
  function Entry(col: Quad, n: Quad): Coefs {
    Differ(Differ(ScaledCoefs(col.a, n.a), ScaledCoefs(col.b, n.b)),
           Differ(ScaledCoefs(col.c, n.c), ScaledCoefs(col.d, n.d)))
  }

  const ONE := Coefs(true, false, false, false, false)
  const NONE := Coefs(false, false, false, false, false)

  /** The product of the two matrices is the identity. */
  lemma EntriesAreIdentity()
    ensures Entry(Quad(2, 1, 1, 3), Quad(0x0e, 0x0b, 0x0d, 0x09)) == ONE
    ensures Entry(Quad(3, 2, 1, 1), Quad(0x0e, 0x0b, 0x0d, 0x09)) == NONE
    ensures Entry(Quad(1, 3, 2, 1), Quad(0x0e, 0x0b, 0x0d, 0x09)) == NONE
    ensures Entry(Quad(1, 1, 3, 2), Quad(0x0e, 0x0b, 0x0d, 0x09)) == NONE
    ensures Entry(Quad(2, 1, 1, 3), Quad(0x09, 0x0e, 0x0b, 0x0d)) == NONE
    ensures Entry(Quad(3, 2, 1, 1), Quad(0x09, 0x0e, 0x0b, 0x0d)) == ONE
    ensures Entry(Quad(1, 3, 2, 1), Quad(0x09, 0x0e, 0x0b, 0x0d)) == NONE
    ensures Entry(Quad(1, 1, 3, 2), Quad(0x09, 0x0e, 0x0b, 0x0d)) == NONE
    ensures Entry(Quad(2, 1, 1, 3), Quad(0x0d, 0x09, 0x0e, 0x0b)) == NONE
    ensures Entry(Quad(3, 2, 1, 1), Quad(0x0d, 0x09, 0x0e, 0x0b)) == NONE
    ensures Entry(Quad(1, 3, 2, 1), Quad(0x0d, 0x09, 0x0e, 0x0b)) == ONE
    ensures Entry(Quad(1, 1, 3, 2), Quad(0x0d, 0x09, 0x0e, 0x0b)) == NONE
    ensures Entry(Quad(2, 1, 1, 3), Quad(0x0b, 0x0d, 0x09, 0x0e)) == NONE
    ensures Entry(Quad(3, 2, 1, 1), Quad(0x0b, 0x0d, 0x09, 0x0e)) == NONE
    ensures Entry(Quad(1, 3, 2, 1), Quad(0x0b, 0x0d, 0x09, 0x0e)) == NONE
    ensures Entry(Quad(1, 1, 3, 2), Quad(0x0b, 0x0d, 0x09, 0x0e)) == ONE
  {
    InverseCoefs();
    hide CoefsOf;
  }

  lemma Vanishes(x: bv8, col: Quad, n: Quad)
    requires IsMixQuad(col) && n.a < 16 && n.b < 16 && n.c < 16 && n.d < 16
    ensures Entry(col, n) == NONE ==> Coefficient(x, col, n) == 0
    ensures Entry(col, n) == ONE ==> Coefficient(x, col, n) == x
  {
    hide Coefficient, Comb, ScaledCoefs, Differ;
    CoefficientIs(x, col, n);
    CombUnit(PowersOf(x));
  }

  lemma SumUnit(x: bv8)
    ensures Sum4(Quad(x, 0, 0, 0)) == x && Sum4(Quad(0, x, 0, 0)) == x
    ensures Sum4(Quad(0, 0, x, 0)) == x && Sum4(Quad(0, 0, 0, x)) == x
  {
    hide Add;
    AddZero(x);
    AddZero(0);
  }

  const COL0 := Quad(2, 1, 1, 3)
  const COL1 := Quad(3, 2, 1, 1)
  const COL2 := Quad(1, 3, 2, 1)
  const COL3 := Quad(1, 1, 3, 2)

  lemma RowBack(q: Quad, n: Quad)
    requires n == INV_MIX.r0 || n == INV_MIX.r1 || n == INV_MIX.r2 || n == INV_MIX.r3
    ensures Dot(Apply(MIX, q), n) ==
      if n == INV_MIX.r0 then q.a else if n == INV_MIX.r1 then q.b else if n == INV_MIX.r2 then q.c else q.d
  {
    SmallRows(n);
    EntriesAreIdentity();
    hide Coefficient, Entry, Sum4, Dot, Apply;
    DotOfApply(q, MIX, n);
    Vanishes(q.a, COL0, n);
    Vanishes(q.b, COL1, n);
    Vanishes(q.c, COL2, n);
    Vanishes(q.d, COL3, n);
    SumUnit(q.a);
    SumUnit(q.b);
    SumUnit(q.c);
    SumUnit(q.d);
  }

  lemma SmallRows(n: Quad)
    requires n == INV_MIX.r0 || n == INV_MIX.r1 || n == INV_MIX.r2 || n == INV_MIX.r3
    ensures n.a < 16 && n.b < 16 && n.c < 16 && n.d < 16
    ensures IsMixQuad(COL0) && IsMixQuad(COL1) && IsMixQuad(COL2) && IsMixQuad(COL3)
  {
  }

  /** Inverse MixColumns undoes MixColumns on every column. */
  lemma MixInverse(q: Quad)
    ensures Apply(INV_MIX, Apply(MIX, q)) == q
  {
    hide Dot;
    RowBack(q, INV_MIX.r0);
    RowBack(q, INV_MIX.r1);
    RowBack(q, INV_MIX.r2);
    RowBack(q, INV_MIX.r3);
    RowsDiffer();
  }

  lemma RowsDiffer()
    ensures INV_MIX.r0 != INV_MIX.r1 && INV_MIX.r0 != INV_MIX.r2 && INV_MIX.r0 != INV_MIX.r3
    ensures INV_MIX.r1 != INV_MIX.r2 && INV_MIX.r1 != INV_MIX.r3 && INV_MIX.r2 != INV_MIX.r3
  {
  }
}
