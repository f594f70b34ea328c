/** The pairing-specific E12 routines of BLS12-381 (std/algebra/emulated/
    fields_bls12381/e12_pairing.go):

    - the fixed exponentiations `ExptHalf` (x^(t/2)) and `Expt` (x^t) of the
      final exponentiation, run as a hand-derived addition chain over the
      cyclotomic subgroup;
    - `MulBy014`, the sparse multiplication that folds a line evaluation into
      the Miller-loop accumulator. */
module E12Pairing {
  import opened Cyclotomic
  import opened Tower

  /** |t/2|; t, the BLS12-381 seed parameter, is negative. */
  const HalfT: nat := 7566188111470821376
  /** |t| */
  const T: nat := 15132376222941642752

  /** a << n */
  function Shl(a: nat, n: nat): nat { a * Pow2(n) }

  /** The addition chain from which `ExptHalf` is derived, evaluated on
      integers: each `<< n` becomes a burst of n squarings and each `1 +`
      a multiplication by x. The result is |t/2|. */
  function AdditionChain(): (r: nat)
    ensures r == HalfT == 0x6900800000008000
  {
    Pow2Bursts();
    var b10 := 2 * 1;
    var b11 := 1 + b10;
    var b1100 := Shl(b11, 2);
    var b1101 := 1 + b1100;
    var b1101000 := Shl(b1101, 3);
    var b1101001 := 1 + b1101000;
    Shl(Shl(Shl(b1101001, 9) + 1, 32) + 1, 15)
  }

  /** |t| is twice |t/2|, so one more squaring turns x^(t/2) into x^t; both
      constants fit the uint64 they are written as. */
  lemma ExponentConstants()
    ensures T == 2 * HalfT
    ensures HalfT < T < 0x1_0000_0000_0000_0000
  {
  }

  /** A point of the chain: the number of operations so far and z. */
  datatype Step = Step(operations: nat, value: Cyclo)

  /** x^(t/2) for x in the cyclotomic subgroup: the chain computes
      x^|t/2| and, t being negative, conjugates. The ghost outputs record
      the cost (squarings of any kind, multiplications) and, after each of
      the ten annotated steps of the chain, the number of operations so far
      and the value of z. */
  method ExptHalf(x: Cyclo)
    returns (z: Cyclo, ghost squarings: nat, ghost multiplications: nat,
             ghost steps: seq<Step>)
    ensures z == Exp(x, -(HalfT as int))
    ensures squarings == 62 && multiplications == 5
    ensures steps == [
      Step(1, Exp(x, 0x2)),
      Step(2, Exp(x, 0x3)),
      Step(5, Exp(x, 0xd)),
      Step(8, Exp(x, 0x68)),
      Step(9, Exp(x, 0x69)),
      Step(18, Exp(x, 0xd200)),
      Step(19, Exp(x, 0xd201)),
      Step(51, Exp(x, 0xd20100000000)),
      Step(52, Exp(x, 0xd20100000001)),
      Step(67, Exp(x, 0x6900800000008000))]
  {
    Pow2Bursts();
    squarings, multiplications := 0, 0;

    z := Square(x);
    squarings := squarings + 1;
    ghost var s1 := Step(squarings + multiplications, z);
    assert s1 == Step(1, Exp(x, 0x2));

    z := Mul(x, z);
    multiplications := multiplications + 1;
    ghost var s2 := Step(squarings + multiplications, z);
    assert s2 == Step(2, Exp(x, 0x3));

    z := CyclotomicSquare(z);
    z := CyclotomicSquare(z);
    squarings := squarings + 2;

    z := Mul(x, z);
    multiplications := multiplications + 1;
    ghost var s3 := Step(squarings + multiplications, z);
    assert s3 == Step(5, Exp(x, 0xd));

    var c: Compressed;
    ghost var k: nat;
    c, k := NCycloSquareCompressed(z, 3);
    z := DecompressKarabina(c);
    squarings := squarings + k;
    ghost var s4 := Step(squarings + multiplications, z);
    assert s4 == Step(8, Exp(x, 0x68));

    z := Mul(x, z);
    multiplications := multiplications + 1;
    ghost var s5 := Step(squarings + multiplications, z);
    assert s5 == Step(9, Exp(x, 0x69));

    c, k := NCycloSquareCompressed(z, 9);
    z := DecompressKarabina(c);
    squarings := squarings + k;
    ghost var s6 := Step(squarings + multiplications, z);
    assert s6 == Step(18, Exp(x, 0xd200));

    z := Mul(x, z);
    multiplications := multiplications + 1;
    ghost var s7 := Step(squarings + multiplications, z);
    assert s7 == Step(19, Exp(x, 0xd201));

    c, k := NCycloSquareCompressed(z, 32);
    z := DecompressKarabina(c);
    squarings := squarings + k;
    ghost var s8 := Step(squarings + multiplications, z);
    assert s8 == Step(51, Exp(x, 0xd20100000000));

    z := Mul(x, z);
    multiplications := multiplications + 1;
    ghost var s9 := Step(squarings + multiplications, z);
    assert s9 == Step(52, Exp(x, 0xd20100000001));

    c, k := NCycloSquareCompressed(z, 15);
    z := DecompressKarabina(c);
    squarings := squarings + k;
    ghost var s10 := Step(squarings + multiplications, z);
    assert s10 == Step(67, Exp(x, 0x6900800000008000));

    // t < 0: invert
    z := Conjugate(z);

    steps := [s1, s2, s3, s4, s5, s6, s7, s8, s9, s10];
  }

  /** x^t for x in the cyclotomic subgroup: one cyclotomic squaring of
      x^(t/2). */
  method Expt(x: Cyclo) returns (z: Cyclo, ghost squarings: nat, ghost multiplications: nat)
    ensures z == CyclotomicSquare(Exp(x, -(HalfT as int)))
    ensures z == Exp(x, -(T as int))
    ensures squarings == 63 && multiplications == 5
  {
    ghost var steps;
    z, squarings, multiplications, steps := ExptHalf(x);
    z := CyclotomicSquare(z);
    squarings := squarings + 1;
    ExponentConstants();
  }

  /** The closed forms of `ExptHalf` and `Expt` against the generic
      repeated-multiplication reference: x^(-t/2) is the conjugate of
      x^(t/2) and its inverse, and likewise for t. */
  lemma ExptReference(x: Cyclo)
    ensures Exp(x, -(HalfT as int)) == Conjugate(Power(x, HalfT))
    ensures Mul(Exp(x, -(HalfT as int)), Power(x, HalfT)) == One
    ensures Exp(x, -(T as int)) == Conjugate(Power(x, T))
    ensures Mul(Exp(x, -(T as int)), Power(x, T)) == One
  {
    PowerLog(x, HalfT);
    PowerLog(x, T);
  }

  /** On the identity both exponentiations return the identity. */
  lemma ExptOfOne()
    ensures Exp(One, -(HalfT as int)) == One
    ensures Exp(One, -(T as int)) == One
  {
  }

  // Sparse line multiplication.

  /** The operand the code multiplies by: C0 = (1, 0, 0), C1 = (c1, c4, 0),
      non-zero at E2 positions 0, 3 and 4 ("034"). */
  function Line034(c1: E2, c4: E2): E12 {
    E12(One6, E6(c1, c4, Zero2))
  }

  /** The operand the doc comment describes: C0 = (1, c1, 0), C1 = (0, c4, 0),
      non-zero at E2 positions 0, 1 and 4 ("014"). */
  function Line014(c1: E2, c4: E2): E12 {
    E12(E6(One2, c1, Zero2), E6(Zero2, c4, Zero2))
  }

  /** The Karatsuba cross term: with b' = b·(c1 + c4·v) and
      d = (a + b)·((1 + c1) + c4·v), d - (a + b') = a·(c1 + c4·v) + b. */
  lemma KaratsubaCrossTerm(a: E6, b: E6, c1: E2, c4: E2)
    ensures Add6(Neg6(Add6(a, MulBy01(b, c1, c4))), MulBy01(Add6(a, b), Add2(One2, c1), c4))
            == Add6(MulBy01(a, c1, c4), b)
  {
    var s := E6(c1, c4, Zero2);
    var ab := Add6(a, b);
    assert E6(Add2(One2, c1), c4, Zero2) == Add6(One6, s);
    Mul6AddRight(ab, One6, s);
    Mul6One(ab);
    Mul6AddLeft(a, b, s);
  }

  /** Multiplies z by a sparse line value, reusing the sparse E6 product
      `MulBy01` twice and one multiplication by v. The result is the dense
      product of z with the "034"-shaped element C0 = (1, 0, 0),
      C1 = (c1, c4, 0). */
  function MulBy014(z: E12, c1: E2, c4: E2): (r: E12)
    ensures r == Mul12(z, Line034(c1, c4))
  {
    var a := z.c0;
    var b := MulBy01(z.c1, c1, c4);
    var c1' := Add2(One2, c1);
    var d := MulBy01(Add6(z.c0, z.c1), c1', c4);
    var zC1 := Add6(Neg6(Add6(a, b)), d);
    var zC0 := Add6(MulByNonResidue6(b), a);
    KaratsubaCrossTerm(z.c0, z.c1, c1, c4);
    Mul6One(z.c0);
    Mul6One(z.c1);
    E12(zC0, zC1)
  }

  /** With both free coordinates zero the line value is the identity. */
  lemma MulBy014Identity(z: E12)
    ensures MulBy014(z, Zero2, Zero2) == z
  {
    assert Line034(Zero2, Zero2) == One12;
    Mul12One(z);
  }

  /** When c1 is zero the two shapes coincide, so the code then computes
      the documented product for every accumulator z. */
  lemma MulBy014DocAgreesWhenC1Zero(z: E12, c4: E2)
    ensures MulBy014(z, Zero2, c4) == Mul12(z, Line014(Zero2, c4))
  {
    assert Line034(Zero2, c4) == Line014(Zero2, c4);
  }

  /** A concrete input on which the code and its doc comment disagree:
      z = 1, c1 = 1, c4 = 0 gives 1 + w from the code and 1 + v from the
      documented product. */
  lemma MulBy014DocCounterexample()
    ensures MulBy014(One12, One2, Zero2) != Mul12(One12, Line014(One2, Zero2))
  {
    Mul12OneLeft(Line034(One2, Zero2));
    Mul12OneLeft(Line014(One2, Zero2));
    assert MulBy014(One12, One2, Zero2) == Line034(One2, Zero2);
    assert Mul12(One12, Line014(One2, Zero2)) == Line014(One2, Zero2);
  }

  /** The sparse product with the documented "014" element, by the same
      Karatsuba scheme: C0·(1 + c1·v) and C1·(c4·v) are the two sparse
      products and (C0 + C1)·(1 + (c1 + c4)·v) gives the cross term. */
  function MulBy014Documented(z: E12, c1: E2, c4: E2): (r: E12)
    ensures r == Mul12(z, Line014(c1, c4))
  {
    var a := MulBy01(z.c0, One2, c1);
    var b := MulBy01(z.c1, Zero2, c4);
    var d := MulBy01(Add6(z.c0, z.c1), One2, Add2(c1, c4));
    var zC1 := Add6(Neg6(Add6(a, b)), d);
    var zC0 := Add6(MulByNonResidue6(b), a);
    var s0 := E6(One2, c1, Zero2);
    var s1 := E6(Zero2, c4, Zero2);
    assert E6(One2, Add2(c1, c4), Zero2) == Add6(s0, s1);
    Mul6AddRight(Add6(z.c0, z.c1), s0, s1);
    Mul6AddLeft(z.c0, z.c1, s0);
    Mul6AddLeft(z.c0, z.c1, s1);
    E12(zC0, zC1)
  }
}
