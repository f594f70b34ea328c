# BLS12-381 pairing helpers over E12

This project models the pairing-specific E12 routines of gnark's emulated
BLS12-381 field tower (`std/algebra/emulated/fields_bls12381/e12_pairing.go`):

- `ExptHalf`, the fixed exponentiation x^(t/2) used by the final
  exponentiation. It is a hand-derived addition chain of squarings, bursts
  of Karabina-compressed squarings and multiplications by x, followed by a
  conjugation because the seed t is negative.
- `Expt`, which computes x^t as one more cyclotomic squaring of `ExptHalf`.
- `MulBy014`, the sparse Karatsuba multiplication that folds a line value
  into the Miller-loop accumulator.

The project has three modules:

- `Tower` (tower.dfy) is the field tower E2 = Fp[u]/(u²+1),
  E6 = E2[v]/(v³−(1+u)), E12 = E6[w]/(w²−v). Base-field elements are their
  integer lifts. Reduction modulo p is a ring homomorphism, so every ring
  identity proved over `int` also holds over Fp. The dense products
  `Mul6` and `Mul12` are the reference for the sparse routines.
- `Cyclotomic` (cyclotomic.dfy) models the cyclotomic subgroup.
  - An element is its discrete logarithm with respect to a fixed
    generator. Multiplying adds logarithms, squaring doubles them and
    conjugation negates them.
  - The Karabina-compressed form is a separate type, `Compressed`. Only
    `DecompressKarabina` turns it back into a `Cyclo`, so the types make
    sure that no multiplication or conjugation ever receives a compressed
    value.
  - `Exp(x, k)` is the closed form of x^k. `Power(x, n)` is an independent
    reference by repeated multiplication, and `PowerLog` connects the two.
- `E12Pairing` (e12_pairing.dfy) holds the routines themselves.

## Model

| member | source | states |
|---|---|---|
| E12Pairing.AdditionChain | std/algebra/emulated/fields_bls12381/e12_pairing.go:4-14 | The chain `_10 = 2·1`, `_11 = 1 + _10`, `_1100 = _11 << 2`, `_1101 = 1 + _1100`, `_1101000 = _1101 << 3`, `_1101001 = 1 + _1101000`, `((_1101001 << 9 + 1) << 32 + 1) << 15` evaluates to 0x6900800000008000 = 7566188111470821376, the constant \|t/2\|. |
| E12Pairing.ExponentConstants | std/algebra/emulated/fields_bls12381/e12_pairing.go:62-65 | \|t\| = 15132376222941642752 is exactly 2·\|t/2\|, so one squaring after `ExptHalf` gives x^t. Both constants fit in a uint64. |
| E12Pairing.ExptHalf | std/algebra/emulated/fields_bls12381/e12_pairing.go:3-60 | The result is x^(−7566188111470821376). The chain performs 62 squarings and 5 multiplications. The squaring count adds 1 `Square`, 2 `CyclotomicSquare` and, for each burst, the squarings `NCycloSquareCompressed` itself reports (3, 9, 32 and 15). At the ten annotated steps the trace holds (operations so far, z): (1, x^0x2), (2, x^0x3), (5, x^0xd), (8, x^0x68), (9, x^0x69), (18, x^0xd200), (19, x^0xd201), (51, x^0xd20100000000), (52, x^0xd20100000001) and (67, x^0x6900800000008000), in order. Every burst is decompressed before the next `Mul` or `Conjugate`, which the types enforce. |
| E12Pairing.Expt | std/algebra/emulated/fields_bls12381/e12_pairing.go:62-68 | The result is the cyclotomic square of `ExptHalf(x)` and equals x^(−15132376222941642752). The cost is 63 squarings and 5 multiplications. |
| E12Pairing.ExptReference | std/algebra/emulated/fields_bls12381/e12_pairing.go:57-59 | The closed results of `ExptHalf` and `Expt` agree with the repeated-multiplication reference. x^(−t/2) is the conjugate of x^(t/2) computed by n multiplications, and multiplying the two gives 1. The same holds for t. |
| E12Pairing.ExptOfOne | std/algebra/emulated/fields_bls12381/e12_pairing.go:3-5 | The closed results of `ExptHalf` and `Expt` map the identity to the identity. |
| E12Pairing.KaratsubaCrossTerm | std/algebra/emulated/fields_bls12381/e12_pairing.go:80-92 | For every a, b, c1 and c4, the Karatsuba cross term d − (a + b') equals a·(c1 + c4·v) + b, where b' = b·(c1 + c4·v) and d = (a + b)·((1 + c1) + c4·v). |
| E12Pairing.MulBy014 | std/algebra/emulated/fields_bls12381/e12_pairing.go:78-100 | For every accumulator z and every c1 and c4, the routine's result equals the dense E12 product of z with C0 = (1, 0, 0), C1 = (c1, c4, 0). That is the "034" shape, not the shape in the doc comment. |
| E12Pairing.MulBy014Identity | std/algebra/emulated/fields_bls12381/e12_pairing.go:70-100 | With c1 = c4 = 0 the line value is the identity, so MulBy014(z, 0, 0) = z. |
| E12Pairing.MulBy014DocAgreesWhenC1Zero | std/algebra/emulated/fields_bls12381/e12_pairing.go:70-77 | When c1 = 0 the code equals the documented product with C0 = (1, c1, 0), C1 = (0, c4, 0), for every z and c4. |
| E12Pairing.MulBy014DocCounterexample | std/algebra/emulated/fields_bls12381/e12_pairing.go:70-78 | On z = 1, c1 = 1, c4 = 0 the code returns a value different from the documented product. |
| E12Pairing.MulBy014Documented | std/algebra/emulated/fields_bls12381/e12_pairing.go:70-76 | The same Karatsuba scheme, rebuilt for the documented "014" operand, equals the dense product of z with C0 = (1, c1, 0), C1 = (0, c4, 0) for all inputs. |
| Cyclotomic.NCycloSquareCompressed | std/algebra/emulated/fields_bls12381/e12_pairing.go:33-34 | A burst of n compressed squarings started from x is the compressed form of x^(2^n). It performs exactly n squarings, and decompressing its result gives the same value as n plain cyclotomic squarings. |
| Cyclotomic.CycloSquareNLog | std/algebra/emulated/fields_bls12381/e12_pairing.go:10-14 | n cyclotomic squarings raise to the power 2^n, which is `<< n` in the chain's notation. |
| Cyclotomic.PowerLog | std/algebra/emulated/fields_bls12381/e12_pairing.go:3-5 | The closed form x^n (logarithm scaled by n) agrees with repeated multiplication for every n. |
| Cyclotomic.PowerAdd | std/algebra/emulated/fields_bls12381/e12_pairing.go:24 | x^m · x^n = x^(m+n) for the repeated-multiplication reference. |
| Cyclotomic.SquarePower | std/algebra/emulated/fields_bls12381/e12_pairing.go:21-27 | Squaring, whether general or cyclotomic, doubles the exponent: (x^n)² = x^(2n). |
| Cyclotomic.ConjugateIsInverse | std/algebra/emulated/fields_bls12381/e12_pairing.go:57 | On the cyclotomic subgroup, conjugation is inversion and an involution. |
| Cyclotomic.Pow2Add | std/algebra/emulated/fields_bls12381/e12_pairing.go:14 | 2^(m+n) = 2^m · 2^n, which composes consecutive shifts. |
| Cyclotomic.Pow2Bursts | std/algebra/emulated/fields_bls12381/e12_pairing.go:10-14 | The shift amounts of the chain are 2² = 4, 2³ = 8, 2⁹ = 0x200, 2¹⁵ = 0x8000 and 2³² = 0x1_0000_0000. |
| Tower.MulByNonResidue6IsMulByV | std/algebra/emulated/fields_bls12381/e12_pairing.go:93 | `MulByNonResidue` of E6 is multiplication by v, the square of w. |
| Tower.MulByNonResidue2IsMul | std/algebra/emulated/fields_bls12381/e12_pairing.go:93 | The E2 non-residue step is multiplication by 1 + u. |
| Tower.Mul6AddLeft | std/algebra/emulated/fields_bls12381/e12_pairing.go:87-88 | The E6 product distributes over addition on the left, which is how `MulBy01(a + b, …)` splits. |
| Tower.Mul6AddRight | std/algebra/emulated/fields_bls12381/e12_pairing.go:86-88 | The E6 product distributes over addition on the right, which is how the operand 1 + c1 splits. |
| Tower.Mul12One | std/algebra/emulated/fields_bls12381/e12_pairing.go:70-76 | One12 is a right identity of the dense E12 product. |

## Left out

- The tower primitives the file calls (`Square`, `Mul`, `CyclotomicSquare`,
  `NCycloSquareCompressed`, `DecompressKarabina`, `Conjugate`, `MulBy01`,
  `MulByNonResidue`, and E2/E6 `Add`, `Neg` and `One`) are not part of this
  model's source.
  - They are given by their mathematical meaning: dense products and
    additions in `Tower`, and effects on the discrete logarithm in
    `Cyclotomic`.
  - `NCycloSquareCompressed` is modelled as a loop of single compressed
    squarings.
- Karabina compression internals (the four-coordinate form and the
  decompression formulas) are left out. A compressed value is only a
  distinct type that carries the logarithm. In the source it is the same Go
  type as a full element.
- Membership of the inputs in the cyclotomic subgroup is not checked. It is
  the callers' obligation, and the `Cyclo` type builds it in. For the same
  reason, conjugation being inversion is an assumption of the model, not a
  theorem.
- Exponents are not reduced modulo the group order. Equal models denote
  equal elements, which is the direction every statement here uses.
- The emulated (non-native) field arithmetic, the circuit constraints and
  arithmetic modulo the BLS12-381 prime are left out. The E2/E6/E12
  identities are proved over the integer lift, which carries over to Fp.
- Constant-time and side-channel behaviour are left out, and so is cost
  beyond the operation counts.
- `MulBy014` takes `z` by pointer in the source and returns a fresh
  element without changing it. The model takes and returns values.

## Findings

| source | as written | input that shows it | evidently intended | confidence | as-written member | corrected member |
|---|---|---|---|---|---|---|
| std/algebra/emulated/fields_bls12381/e12_pairing.go:70-100 | `MulBy014` multiplies z by C0 = (1, 0, 0), C1 = (c1, c4, 0) (the "034" shape) | z = 1, c1 = 1, c4 = 0: the code gives 1 + w, the documented product gives 1 + v | the product with the documented element C0 = (1, c1, 0), C1 = (0, c4, 0) | not executed; high for the discrepancy, since the TODO at line 77 names it; whether callers rely on the 034 shape is not modelled | E12Pairing.MulBy014DocCounterexample | E12Pairing.MulBy014Documented |
