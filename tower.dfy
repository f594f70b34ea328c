/** The field tower of BLS12-381 on which the pairing routines operate:
      E2  = Fp[u] / (u^2 + 1)
      E6  = E2[v] / (v^3 - (1 + u))
      E12 = E6[w] / (w^2 - v)
    Base-field elements are modelled by their integer lifts: reducing modulo
    the prime is a ring homomorphism, so every ring identity proved here over
    `int` also holds over the prime field.

    The tower's basic arithmetic is not part of the pairing file; it is given
    here by its mathematical definition (the dense products `Mul6` and
    `Mul12` are the reference the sparse routines are measured against). */
module Tower {

  /** a0 + a1·u with u^2 = -1 */
  datatype E2 = E2(a0: int, a1: int)

  const Zero2: E2 := E2(0, 0)
  const One2: E2 := E2(1, 0)

  function Add2(x: E2, y: E2): E2 { E2(x.a0 + y.a0, x.a1 + y.a1) }

  function Neg2(x: E2): E2 { E2(-x.a0, -x.a1) }

  function Mul2(x: E2, y: E2): E2 {
    E2(x.a0 * y.a0 - x.a1 * y.a1, x.a0 * y.a1 + x.a1 * y.a0)
  }

  /** Multiplication by the sextic non-residue 1 + u. */
  function MulByNonResidue2(x: E2): E2 {
    E2(x.a0 - x.a1, x.a0 + x.a1)
  }

  /** B0 + B1·v + B2·v^2 with v^3 = 1 + u */
  datatype E6 = E6(b0: E2, b1: E2, b2: E2)

  const Zero6: E6 := E6(Zero2, Zero2, Zero2)
  const One6: E6 := E6(One2, Zero2, Zero2)
  /** The element v itself. */
  const V6: E6 := E6(Zero2, One2, Zero2)

  function Add6(x: E6, y: E6): E6 { E6(Add2(x.b0, y.b0), Add2(x.b1, y.b1), Add2(x.b2, y.b2)) }

  function Neg6(x: E6): E6 { E6(Neg2(x.b0), Neg2(x.b1), Neg2(x.b2)) }

  /** The dense product in E6: schoolbook multiplication reduced by v^3 = 1 + u. */
  function Mul6(x: E6, y: E6): E6 {
    E6(
      Add2(Mul2(x.b0, y.b0), MulByNonResidue2(Add2(Mul2(x.b1, y.b2), Mul2(x.b2, y.b1)))),
      Add2(Add2(Mul2(x.b0, y.b1), Mul2(x.b1, y.b0)), MulByNonResidue2(Mul2(x.b2, y.b2))),
      Add2(Add2(Mul2(x.b0, y.b2), Mul2(x.b1, y.b1)), Mul2(x.b2, y.b0)))
  }

  /** Multiplication by v, the cubic non-residue of E12 over E6 (w^2 = v):
      a rotation of the coefficients with the top one scaled by 1 + u. */
  function MulByNonResidue6(x: E6): E6 {
    E6(MulByNonResidue2(x.b2), x.b0, x.b1)
  }

  /** The sparse E6 product b·(c0 + c1·v); an external primitive of the
      tower, given by what it computes. */
  function MulBy01(b: E6, c0: E2, c1: E2): E6 {
    Mul6(b, E6(c0, c1, Zero2))
  }

  /** C0 + C1·w with w^2 = v */
  datatype E12 = E12(c0: E6, c1: E6)

  const One12: E12 := E12(One6, Zero6)

  /** The dense product in E12: (a + b·w)(c + d·w) = (ac + v·bd) + (ad + bc)·w. */
  function Mul12(x: E12, y: E12): E12 {
    E12(Add6(Mul6(x.c0, y.c0), MulByNonResidue6(Mul6(x.c1, y.c1))),
        Add6(Mul6(x.c0, y.c1), Mul6(x.c1, y.c0)))
  }

  // Ring laws of E2 and E6 used by the sparse-multiplication proofs.

  lemma IntAddMul(a: int, b: int, c: int)
    ensures (a + b) * c == a * c + b * c
    ensures c * (a + b) == c * a + c * b
  {
  }

  lemma Mul2AddLeft(x: E2, y: E2, s: E2)
    ensures Mul2(Add2(x, y), s) == Add2(Mul2(x, s), Mul2(y, s))
  {
    IntAddMul(x.a0, y.a0, s.a0); IntAddMul(x.a1, y.a1, s.a1);
    IntAddMul(x.a0, y.a0, s.a1); IntAddMul(x.a1, y.a1, s.a0);
  }

  lemma Mul2AddRight(x: E2, s: E2, t: E2)
    ensures Mul2(x, Add2(s, t)) == Add2(Mul2(x, s), Mul2(x, t))
  {
    IntAddMul(s.a0, t.a0, x.a0); IntAddMul(s.a1, t.a1, x.a1);
    IntAddMul(s.a1, t.a1, x.a0); IntAddMul(s.a0, t.a0, x.a1);
  }

  /** E6 multiplication distributes over addition in its left argument. */
  lemma Mul6AddLeft(x: E6, y: E6, s: E6)
    ensures Mul6(Add6(x, y), s) == Add6(Mul6(x, s), Mul6(y, s))
  {
    Mul2AddLeft(x.b0, y.b0, s.b0); Mul2AddLeft(x.b0, y.b0, s.b1); Mul2AddLeft(x.b0, y.b0, s.b2);
    Mul2AddLeft(x.b1, y.b1, s.b0); Mul2AddLeft(x.b1, y.b1, s.b1); Mul2AddLeft(x.b1, y.b1, s.b2);
    Mul2AddLeft(x.b2, y.b2, s.b0); Mul2AddLeft(x.b2, y.b2, s.b1); Mul2AddLeft(x.b2, y.b2, s.b2);
  }

  /** E6 multiplication distributes over addition in its right argument. */
  lemma Mul6AddRight(x: E6, s: E6, t: E6)
    ensures Mul6(x, Add6(s, t)) == Add6(Mul6(x, s), Mul6(x, t))
  {
    Mul2AddRight(x.b0, s.b0, t.b0); Mul2AddRight(x.b0, s.b1, t.b1); Mul2AddRight(x.b0, s.b2, t.b2);
    Mul2AddRight(x.b1, s.b0, t.b0); Mul2AddRight(x.b1, s.b1, t.b1); Mul2AddRight(x.b1, s.b2, t.b2);
    Mul2AddRight(x.b2, s.b0, t.b0); Mul2AddRight(x.b2, s.b1, t.b1); Mul2AddRight(x.b2, s.b2, t.b2);
  }

  /** One6 is a right identity of the E6 product. */
  lemma Mul6One(x: E6)
    ensures Mul6(x, One6) == x
  {
  }

  lemma Mul2Zero(x: E2)
    ensures Mul2(x, Zero2) == Zero2
  {
  }

  /** MulByNonResidue2 multiplies by 1 + u. */
  lemma MulByNonResidue2IsMul(x: E2)
    ensures MulByNonResidue2(x) == Mul2(x, E2(1, 1))
  {
  }

  /** MulByNonResidue6 multiplies by v. */
  lemma MulByNonResidue6IsMulByV(x: E6)
    ensures MulByNonResidue6(x) == Mul6(x, V6)
  {
    Mul2One(x.b0);
    Mul2One(x.b1);
    Mul2One(x.b2);
    Mul2Zero(x.b0);
    Mul2Zero(x.b1);
    Mul2Zero(x.b2);
  }

  lemma Mul2One(x: E2)
    ensures Mul2(x, One2) == x
  {
  }

  /** Zero6 annihilates the E6 product. */
  lemma Mul6Zero(x: E6)
    ensures Mul6(x, Zero6) == Zero6
  {
    Mul2Zero(x.b0);
    Mul2Zero(x.b1);
    Mul2Zero(x.b2);
  }

  lemma Mul2OneLeft(x: E2)
    ensures Mul2(One2, x) == x
  {
  }

  lemma Mul2ZeroLeft(x: E2)
    ensures Mul2(Zero2, x) == Zero2
  {
  }

  /** One6 is a left identity of the E6 product. */
  lemma Mul6OneLeft(x: E6)
    ensures Mul6(One6, x) == x
  {
    Mul2OneLeft(x.b0); Mul2OneLeft(x.b1); Mul2OneLeft(x.b2);
    Mul2ZeroLeft(x.b0); Mul2ZeroLeft(x.b1); Mul2ZeroLeft(x.b2);
  }

  /** Zero6 annihilates the E6 product from the left. */
  lemma Mul6ZeroLeft(x: E6)
    ensures Mul6(Zero6, x) == Zero6
  {
    Mul2ZeroLeft(x.b0); Mul2ZeroLeft(x.b1); Mul2ZeroLeft(x.b2);
  }

  /** One12 is a left identity of the E12 product. */
  lemma Mul12OneLeft(z: E12)
    ensures Mul12(One12, z) == z
  {
    Mul6OneLeft(z.c0);
    Mul6OneLeft(z.c1);
    Mul6ZeroLeft(z.c0);
    Mul6ZeroLeft(z.c1);
  }

  /** One12 is a right identity of the E12 product. */
  lemma Mul12One(z: E12)
    ensures Mul12(z, One12) == z
  {
    Mul6One(z.c0);
    Mul6One(z.c1);
    Mul6Zero(z.c0);
    Mul6Zero(z.c1);
  }
}
