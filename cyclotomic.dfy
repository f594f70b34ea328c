/** The cyclotomic subgroup of E12 and the squaring engine over it.

    The cyclotomic subgroup is a subgroup of the multiplicative group of a
    finite field and therefore cyclic; an element is modelled by its
    discrete logarithm `log` with respect to a fixed generator g, i.e.
    `Cyclo(k)` stands for g^k. Exponents are not reduced modulo the group
    order, so two equal models denote equal elements (k ↦ g^k is a group
    homomorphism from the integers), which is the direction every proof
    below relies on.

    The primitives are the tower's, given by their effect on the exponent:
    squaring doubles it, multiplication adds, and conjugation negates it,
    because on this subgroup conjugation is inversion. Membership of the
    inputs in the subgroup is the callers' obligation and is built into
    the type. */
module Cyclotomic {

  /** g^log, an element of the cyclotomic subgroup */
  datatype Cyclo = Cyclo(log: int)

  /** The Karabina-compressed form of g^log. A separate type, so the model
      cannot multiply or conjugate a compressed value. */
  datatype Compressed = Compressed(log: int)

  const One: Cyclo := Cyclo(0)

  /** E12 multiplication. */
  function Mul(x: Cyclo, y: Cyclo): Cyclo { Cyclo(x.log + y.log) }

  /** General E12 squaring. */
  function Square(x: Cyclo): Cyclo { Mul(x, x) }

  /** Granger–Scott squaring, valid on the cyclotomic subgroup only. */
  function CyclotomicSquare(x: Cyclo): Cyclo { Mul(x, x) }

  /** E12 conjugation (negation of C1): the inverse on the subgroup. */
  function Conjugate(x: Cyclo): Cyclo { Cyclo(-x.log) }

  function Pow2(n: nat): nat {
    if n == 0 then 1 else 2 * Pow2(n - 1)
  }

  /** 2^(m+n) = 2^m · 2^n */
  lemma {:induction false} Pow2Add(m: nat, n: nat)
    ensures Pow2(m + n) == Pow2(m) * Pow2(n)
    decreases m
  {
    if m > 0 {
      Pow2Add(m - 1, n);
    }
  }

  /** The powers of two used by the BLS12-381 squaring bursts. */
  lemma Pow2Bursts()
    ensures Pow2(2) == 4 && Pow2(3) == 8 && Pow2(9) == 0x200
    ensures Pow2(15) == 0x8000 && Pow2(32) == 0x1_0000_0000
  {
    Pow2Add(9, 6);
    Pow2Add(8, 8);
    Pow2Add(16, 16);
  }

  /** One Karabina squaring in compressed form. */
  function CycloSquareCompressed(c: Compressed): Compressed { Compressed(2 * c.log) }

  /** n consecutive Karabina squarings started from the full form of x
      (a tower primitive outside the pairing file, modelled by its loop):
      the result is the compressed form of x^(2^n), and decompressing it
      gives what n plain cyclotomic squarings give. The ghost output
      counts the squarings performed. */
  method NCycloSquareCompressed(x: Cyclo, n: nat) returns (c: Compressed, ghost squarings: nat)
    ensures c == Compressed(Pow2(n) * x.log)
    ensures DecompressKarabina(c) == CycloSquareN(x, n)
    ensures squarings == n
  {
    c := Compressed(x.log);
    squarings := 0;
    var i := 0;
    while i < n
      invariant i <= n
      invariant c == Compressed(Pow2(i) * x.log)
      invariant DecompressKarabina(c) == CycloSquareN(x, i)
      invariant squarings == i
    {
      c := CycloSquareCompressed(c);
      squarings := squarings + 1;
      i := i + 1;
    }
  }

  /** Reconstruction of the full element from the compressed form. */
  function DecompressKarabina(c: Compressed): Cyclo { Cyclo(c.log) }

  /** x^k for any integer k, in closed form: the logarithm scales by k. */
  function Exp(x: Cyclo, k: int): Cyclo { Cyclo(k * x.log) }

  // Independent references.

  /** Generic exponentiation by repeated multiplication. */
  function Power(x: Cyclo, n: nat): Cyclo
    decreases n
  {
    if n == 0 then One else Mul(x, Power(x, n - 1))
  }

  /** n plain cyclotomic squarings of x, without compression. */
  function CycloSquareN(x: Cyclo, n: nat): Cyclo
    decreases n
  {
    if n == 0 then x else CyclotomicSquare(CycloSquareN(x, n - 1))
  }

  /** The model is a faithful power map: x^n has logarithm n·log(x). */
  lemma {:induction false} PowerLog(x: Cyclo, n: nat)
    ensures Power(x, n) == Exp(x, n)
    decreases n
  {
    if n > 0 {
      PowerLog(x, n - 1);
      assert n * x.log == x.log + (n - 1) * x.log;
    }
  }

  /** x^m · x^n = x^(m+n). */
  lemma PowerAdd(x: Cyclo, m: nat, n: nat)
    ensures Mul(Power(x, m), Power(x, n)) == Power(x, m + n)
  {
    PowerLog(x, m);
    PowerLog(x, n);
    PowerLog(x, m + n);
    assert (m + n) * x.log == m * x.log + n * x.log;
  }

  /** (x^n)^2 = x^(2n). */
  lemma SquarePower(x: Cyclo, n: nat)
    ensures CyclotomicSquare(Power(x, n)) == Power(x, 2 * n)
    ensures Square(Power(x, n)) == Power(x, 2 * n)
  {
    PowerAdd(x, n, n);
  }

  /** Conjugation inverts: Conjugate(z)·z = 1 and Conjugate(Conjugate(z)) = z. */
  lemma ConjugateIsInverse(z: Cyclo)
    ensures Mul(Conjugate(z), z) == One
    ensures Conjugate(Conjugate(z)) == z
  {
  }

  /** n cyclotomic squarings raise to the power 2^n. */
  lemma {:induction false} CycloSquareNLog(x: Cyclo, n: nat)
    ensures CycloSquareN(x, n) == Exp(x, Pow2(n))
    decreases n
  {
    if n > 0 {
      CycloSquareNLog(x, n - 1);
      assert Pow2(n) * x.log == 2 * (Pow2(n - 1) * x.log);
    }
  }
}
