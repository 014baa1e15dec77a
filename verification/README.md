# Reed–Solomon over a generic Galois field, in Dafny

This project models `reed_solomon_concept`, a small Rust crate for
Reed–Solomon error correction. The crate is generic over a `Field` trait. It
ships one instance of that trait, GF(2^8) with reducing polynomial
x^8 + x^4 + x^3 + x^2 + 1 and generator ALPHA = 2. On top of the trait it
builds:

- dense polynomials, with evaluation, addition, subtraction and multiplication;
- a systematic encoder: the message is shifted up by `error_codewords`
  places and made divisible by ∏ (x − ALPHA^i);
- a small matrix type over a flat buffer;
- a decoder. It computes syndromes, solves a Hankel system for the error
  locator by Gaussian elimination (`reduce_matrix`), finds the locator's roots
  among ALPHA^-i, solves a Vandermonde system for the error magnitudes, and
  subtracts each magnitude in place.

Module by module:

| module | file | models |
|---|---|---|
| `Outcomes` | outcomes.dfy | the `Result` type that stands for a Rust panic (`assert!`, `unwrap`) |
| `Fields` | fields.dfy | the `Field` trait as a record of constants and operations. The ghost predicate `IsField` states the field laws the trait documents. Algebra lemmas derived from those laws |
| `GF256` | gf256.dfy | `mul` as bit operations, `mul_table`, `inv_table`, and the `Field` instance `GF` |
| `GF256Facts` | gf256_facts.dfy | value-by-value facts about GF(2^8): every nonzero byte times its table inverse is ONE, ALPHA has order 255 and generates every nonzero byte, and what the `GF` instance meets of the field laws |
| `Polynomials` | polynomials.dfy | `Polynomial::eval`, `+`, `-`, `*`, plus `shift_by` and `become_divisible` as the encoder uses them. Evaluation is linear and multiplicative |
| `Encoder` | encoder.dfy | `encode`, with its generator polynomial and that polynomial's roots |
| `Matrices` | matrices.dfy | `Matrix::new`, `get`, `rows`, `cols` as a class over a buffer |
| `Reduction` | reduction.dfy | `reduce_matrix`: downward elimination with the pivot fix, then upward substitution that emits values last variable first |
| `Decoder` | decoder.dfy | `decode`: syndromes, the locator, the root search, the correction system, and the in-place corrections |

Entry conditions the Rust code enforces with `assert!` or `unwrap` are
modelled as a `Result`: the Failure case is the panic. The field is passed as
a value `F: Field<E>`. The generic algorithms assume `IsField(F)`, which is
what the trait promises its implementors provide.

Pure computations, such as the coefficient formulas and the value of a
polynomial at a point, are functions. Code that loops over mutable locals or
buffers is a method with loop invariants, proved against those functions:
`eval`, the polynomial operators, `mul`, the tables, `Matrix::new`,
`reduce_matrix` and `decode`. The matrix `reduce_matrix` mutates is an
`array2`. The buffer `decode` corrects is an `array`. `Matrix::rows` and
`Matrix::cols` are the plain accessors `Matrices.Matrix.Rows` and
`Matrices.Matrix.Cols`.

## Model

| member | source | states |
|---|---|---|
| Fields.AddZeroRight | src/field.rs:9-15 | ZERO is a right identity of addition |
| Fields.MulZero | src/field.rs:9-16 | multiplying by ZERO on either side gives ZERO |
| Fields.NegUnique | src/field.rs:18-19 | the additive inverse is unique: a + b == ZERO forces b == neg(a) |
| Fields.AddCancel | src/field.rs:15 | addition cancels on the left |
| Fields.MulNeg | src/field.rs:16-19 | a·(−b) == −(a·b) |
| Fields.NegZero | src/field.rs:18-19 | −ZERO == ZERO |
| Fields.NegNeg | src/field.rs:18-19 | −(−a) == a |
| Fields.NegAdd | src/field.rs:15-19 | negation distributes over addition |
| Fields.NoZeroDivisors | src/field.rs:16 | a product of two nonzero elements is nonzero |
| Fields.MulInvCancel | src/field.rs:21-22 | a·(b·a⁻¹) == b for nonzero a |
| Fields.PowNonZero | src/field.rs:12-13 | every power of a nonzero element is nonzero, so the powers of ALPHA are too |
| Fields.PowAdd | src/field.rs:16 | x^(m+n) == x^m·x^n |
| Fields.PowPow | src/field.rs:16 | (x^m)^n == x^(m·n) |
| Fields.PowOfProduct | src/field.rs:16 | (x·y)^n == x^n·y^n |
| Fields.InvPow | src/field.rs:21-22 | (x⁻¹)^n is nonzero and its inverse is x^n; this is why the root search at ALPHA^-i yields ALPHA^i as the locator value |
| Fields.PowOne | src/field.rs:10 | every power of ONE is ONE |
| Fields.InvUnique | src/field.rs:21-22 | the multiplicative inverse is unique |
| Fields.AddSwap | src/field.rs:15 | (a + b) + (c + d) == (a + c) + (b + d) |
| Fields.MulAddRight | src/field.rs:15-16 | multiplication distributes over addition from the right |
| GF256.CarrylessMatches | src/gf256.rs:12-18 | the eight passes of the first loop compute the carry-less product that `Mul` expands |
| GF256.ReducingMatches | src/gf256.rs:20-28 | the downward reduction loop computes the reduction chain that `Mul` expands, for every 16-bit product |
| GF256.MulMatchesLoops | src/gf256.rs:7-31 | the closed-form `Mul` is the truncation of the reduced carry-less product, i.e. exactly what the two loops and the final cast compute |
| GF256.ReduceStepClears | src/gf256.rs:25-27 | a reduction step at bit i + 8 leaves nothing at or above that bit |
| GF256.ReducingFits | src/gf256.rs:20-28 | after the reduction loop has gone down to i, the product fits in i + 8 bits |
| GF256.TruncateKeeps | src/gf256.rs:30 | the final cast to u8 loses nothing when the product fits in 8 bits |
| GF256.MulLosesNothing | src/gf256.rs:20-30 | the reduced product always fits in a byte, so `product as u8` drops no set bit |
| GF256.MulUnits | src/gf256.rs:7-31 | 1 is the identity of `mul` and 0 annihilates it, on both sides and for every byte |
| GF256.MulBits | src/gf256.rs:7-31 | the loop-based `mul` returns `Mul(left, right)` |
| GF256.MulTable | src/gf256.rs:33-47 | a fresh 256 × 256 table whose cell (a, b) is `Mul(a, b)` |
| GF256.InvBits | src/gf256.rs:56-69 | the addition chain (seven squarings up to n^128, then the products n^192, n^224, n^240, n^248, n^252, n^254) returns `InvChain(n)`; that this chain is n^254 is not claimed here (see Left out) |
| GF256.NextInverse | src/gf256.rs:55-72 | one pass of the `inv_table` loop at i < 256: the chain run on i as a byte, appended to the entries so far, keeps every entry the chain's result on its own index |
| GF256.InversesAppended | src/gf256.rs:55-72 | appending the chain's result on i to the first i entries gives the first i + 1 entries |
| GF256.InvTable | src/gf256.rs:49-76 | a fresh 256-entry table whose entry n is `InvChain(n)` |
| GF256.AddNeg | src/gf256.rs:92-102 | negation is the identity, and e + neg(e) == 0 |
| GF256Facts.MulAlpha | src/gf256.rs:7-31 | `mul(a, 2)` is a shifted left one bit, XORed with 0x1D when its top bit was set |
| GF256Facts.PowAlpha | src/gf256.rs:90-98 | the field's ALPHA^k is the byte reached by k doublings |
| GF256Facts.AlphaPowers0 | src/gf256.rs:90-98 | ALPHA^0 … ALPHA^63 as literal bytes |
| GF256Facts.AlphaPowers1 | src/gf256.rs:90-98 | ALPHA^64 … ALPHA^127 as literal bytes |
| GF256Facts.AlphaPowers2 | src/gf256.rs:90-98 | ALPHA^128 … ALPHA^191 as literal bytes |
| GF256Facts.AlphaPowers3 | src/gf256.rs:90-98 | ALPHA^192 … ALPHA^254 as literal bytes |
| GF256Facts.DoublingInjective | src/gf256.rs:7-31 | distinct bytes have distinct doubles |
| GF256Facts.PowersShiftDown | src/gf256.rs:90 | ALPHA^i == ALPHA^j with i ≤ j forces ALPHA^(j−i) == ONE |
| GF256Facts.NotOne0 | src/gf256.rs:90 | ALPHA^1 … ALPHA^63 differ from ONE |
| GF256Facts.NotOne1 | src/gf256.rs:90 | ALPHA^64 … ALPHA^127 differ from ONE |
| GF256Facts.NotOne2 | src/gf256.rs:90 | ALPHA^128 … ALPHA^191 differ from ONE |
| GF256Facts.NotOne3 | src/gf256.rs:90 | ALPHA^192 … ALPHA^254 differ from ONE |
| GF256Facts.AlphaCycle | src/gf256.rs:90 | ALPHA^255 == ONE |
| GF256Facts.AlphaOrder | src/gf256.rs:90 | ALPHA has order 255: ALPHA^255 == ONE and ALPHA^0 … ALPHA^254 are pairwise distinct |
| GF256Facts.AlphaGenerates | src/gf256.rs:90 | ALPHA = 2 is a primitive element of the field: every nonzero byte is ALPHA^k for some k < 255, the field's ALPHA^255 is ONE, and its ALPHA^0 … ALPHA^254 are pairwise distinct |
| GF256Facts.InverseCorrect | src/gf256.rs:110-118 | for every nonzero byte e, `inv(e)` is defined and e·inv(e) == 1 |
| GF256Facts.XorLaws | src/gf256.rs:92-102 | XOR is associative and commutative, 0 is its identity, and every byte is its own negation: the addition laws of a field |
| GF256Facts.OneNeutral | src/gf256.rs:96-98 | ONE times any byte is that byte |
| GF256Facts.EveryInverse | src/gf256.rs:104-107 | every nonzero byte is in `inv`'s domain, and times its inverse gives ONE |
| GF256Facts.InstanceLaws | src/gf256.rs:82-108 | the `GF` instance has ORDER = 256 < 2^64, ZERO = 0 ≠ ONE = 1, ALPHA = 2 and SEQUENCE_LENGTH = ORDER − 1; it meets the addition laws, ONE is neutral, every nonzero byte has an inverse, and ALPHA generates the nonzero bytes |
| Polynomials.Eval | src/polynomial.rs:8-18 | the loop returns Σ pᵢ·xⁱ; the empty polynomial evaluates to ZERO |
| Polynomials.Add | src/polynomial.rs:24-37 | the result is `Sum(a, b)`: as long as the longer operand, each coefficient the sum of the operands' coefficients, with ZERO for a missing one |
| Polynomials.Sub | src/polynomial.rs:43-56 | the result is `Difference(a, b)`: each coefficient is a_i − b_i, with ZERO for a missing one |
| Polynomials.ShiftBy | src/encoder.rs:17 | `shift_by(k)` lengthens p by k coefficients (their values: `ShiftByCoefficients`) |
| Polynomials.Mul | src/polynomial.rs:62-73 | fails exactly when len(a) + len(b) overflows usize or is zero (the `checked_add(..).unwrap() - 1`); otherwise returns the convolution product |
| Polynomials.BecomeDivisible | src/encoder.rs:17 | for a monic nonempty divisor: same length, coefficients from deg(d) up unchanged, and the result vanishes wherever the divisor does |
| Polynomials.ReductionKeepsRoots | src/encoder.rs:17 | subtracting c·x^k·d leaves the value at every root of d unchanged |
| Polynomials.ReductionClearsTop | src/encoder.rs:17 | for a monic d, subtracting rem[pos−1]·x^(pos−deg d−1)·d clears coefficient pos − 1 and keeps the ZERO coefficients above it, at the same length |
| Polynomials.RemainderRemoved | src/encoder.rs:17 | p minus a remainder that is ZERO from deg(d) up and agrees with p at the roots of d: same length as p, equal to p from deg(d) up, and ZERO at every root of d |
| Polynomials.SumCoefficients | src/polynomial.rs:24-37 | coefficient i of the sum is the sum of the coefficients i |
| Polynomials.DifferenceCoefficients | src/polynomial.rs:43-56 | coefficient i of the difference is the difference of the coefficients i |
| Polynomials.ProductCoefficients | src/polynomial.rs:62-73 | coefficient k of the product is Σ_{i+j=k} a_i·b_j |
| Polynomials.ConvolutionPastEnd | src/polynomial.rs:62-73 | no pair (i, j) reaches an index past the product's end |
| Polynomials.ProductLeading | src/polynomial.rs:62-73 | the product's leading coefficient is the product of the leading coefficients |
| Polynomials.EvalLine | src/encoder.rs:8 | the factor [u, v] evaluates to u + v·x |
| Polynomials.SeriesExtensional | src/polynomial.rs:8-18 | series with the same first n coefficients have the same value |
| Polynomials.SeriesOfZeros | src/polynomial.rs:8-18 | an all-ZERO series is ZERO |
| Polynomials.PowerSumAsSeries | src/polynomial.rs:8-18 | padding a polynomial with ZERO coefficients does not change its value |
| Polynomials.PowerSumIsSeries | src/polynomial.rs:8-18 | a polynomial's value is the series of its coefficients up to its length |
| Polynomials.SeriesPadded | src/polynomial.rs:8-18 | terms whose coefficients are ZERO add nothing to a series |
| Polynomials.SeriesAdd | src/polynomial.rs:24-37 | the value of a coefficient-wise sum is the sum of the values |
| Polynomials.SeriesNeg | src/polynomial.rs:43-56 | the value of a coefficient-wise negation is the negated value |
| Polynomials.SeriesScale | src/polynomial.rs:62-73 | scaling every coefficient scales the value |
| Polynomials.SeriesShift | src/encoder.rs:17 | shifting coefficients up by m multiplies the value by x^m |
| Polynomials.SeriesShiftStep | src/encoder.rs:17 | if the shift identity holds for n − 1 terms and the n-th shifted coefficient matches, it holds for n terms |
| Polynomials.EvalSum | src/polynomial.rs:24-37 | (a + b)(x) == a(x) + b(x) |
| Polynomials.EvalDifference | src/polynomial.rs:43-56 | (a − b)(x) == a(x) − b(x) |
| Polynomials.EvalShiftBy | src/encoder.rs:17 | shifting by k multiplies the value by x^k |
| Polynomials.ShiftByCoefficients | src/encoder.rs:17 | `shift_by(k)` has ZERO in its first k coefficients, and coefficient k + i is p's coefficient i |
| Polynomials.ShiftBySeries | src/encoder.rs:17 | the series of `shift_by(p, k)` over k + len(p) terms is x^k times the series of p |
| Polynomials.EvalScale | src/encoder.rs:17 | (c·p)(x) == c·p(x) |
| Polynomials.EvalProduct | src/polynomial.rs:62-73 | (a·b)(x) == a(x)·b(x) |
| Polynomials.EvalShiftedRow | src/polynomial.rs:66-70 | one row of the product loop contributes x^i·a_i·b(x) |
| Polynomials.ShiftedRowValue | src/polynomial.rs:66-70 | row i of the product loop, summed over i + n terms with n ≥ len(b), is x^i·a_i·b(x) |
| Polynomials.ShiftedRowSeries | src/polynomial.rs:66-70 | the row is the series of a_i·b shifted up by i places |
| Polynomials.ScaledSeries | src/polynomial.rs:66-70 | the series of c·b, padded to any length ≥ len(b), is c·b(x) |
| Polynomials.PartialProducts | src/polynomial.rs:66-70 | after the first n rows of the product loop, the value is (a restricted to its first n coefficients)(x)·b(x) |
| Encoder.Generator | src/encoder.rs:7-16 | the generator ∏_{i<n} (x − ALPHA^i) has n + 1 coefficients |
| Encoder.GeneratorPolynomial | src/encoder.rs:7-15 | the divisor loop, starting from [ONE] and multiplying in x − e for each of the first n elements e of the sequence, returns the generator of n roots |
| Encoder.MulRoot | src/encoder.rs:13-14 | multiplying the generator of i roots by x − ALPHA^i gives the generator of i + 1 roots; with i < n and n + 2 ≤ usize::MAX the product length never overflows |
| Encoder.GeneratorMonic | src/encoder.rs:7-16 | the generator is monic, so `become_divisible` accepts it |
| Encoder.FactorRoot | src/encoder.rs:8 | each factor (x − e) vanishes at e |
| Encoder.GeneratorRoots | src/encoder.rs:7-16 | the generator vanishes at ALPHA^0 … ALPHA^(n-1) |
| Encoder.RootCarriesOver | src/encoder.rs:13-15 | multiplying in the next factor keeps every earlier root and adds the new one |
| Encoder.ProductRoot | src/encoder.rs:13-15 | a root of either factor is a root of the product |
| Encoder.Encode | src/encoder.rs:4-18 | fails exactly when len + error_codewords ≥ SEQUENCE_LENGTH. Otherwise: the codeword has len + error_codewords symbols, is systematic (the message sits above the parity symbols), and vanishes at ALPHA^0 … ALPHA^(error_codewords-1) |
| Matrices.Index | src/matrix.rs:12 | the flat position y·rows + x of an in-range cell lies inside the buffer |
| Matrices.IndexInjective | src/matrix.rs:12 | distinct in-range cells have distinct flat positions |
| Matrices.IndexDivMod | src/matrix.rs:21-22 | position i is the cell (i / rows, i % rows), the inverse of `Index` |
| Matrices.Matrix.New | src/matrix.rs:15-30 | a fresh rows × cols matrix whose buffer position i holds `generator(i / rows, i % rows)`, with the generator called in buffer order |
| Matrices.Matrix.Rows | src/matrix.rs:32-34 | `rows()` returns the row count the matrix was built with, the bound `get` checks x against; with cols it spans the whole buffer, and every accepted (y, x) lies inside it |
| Matrices.Matrix.Cols | src/matrix.rs:36-38 | `cols()` returns the column count the matrix was built with, the bound `get` checks y against; with rows it spans the whole buffer, and every accepted (y, x) lies inside it |
| Matrices.Matrix.Get | src/matrix.rs:8-13 | fails exactly when x ≥ rows or y ≥ cols; otherwise returns cell (y, x) |
| Matrices.Matrix.Set | src/matrix.rs:8-13 | writing through `get(y, x)` changes that cell and no other |
| Reduction.SumRangeCombination | src/decoder.rs:109 | adding f times a row adds f times that row's sum |
| Reduction.RowOperationEquivalent | src/decoder.rs:109 | adding a multiple of one row to another keeps the solution set |
| Reduction.EquivalentTransitive | src/decoder.rs:102-133 | equivalence of systems composes across steps |
| Reduction.Cancel | src/decoder.rs:125-128 | the elimination factor clears the pivot column: a − (a·lead⁻¹)·lead == ZERO |
| Reduction.FixPivot | src/decoder.rs:104-119 | when the diagonal is ZERO: on success the pivot becomes nonzero; otherwise the matrix is unchanged and the column is ZERO from the diagonal down. The echelon prefix and the solution set are preserved either way |
| Reduction.AddScaledRow | src/decoder.rs:127-129 | row t from column `from` on becomes t + f·s; nothing else changes |
| Reduction.EliminationStep | src/decoder.rs:124-130 | one lower row loses its pivot-column entry, and the solution set is kept |
| Reduction.EliminateBelow | src/decoder.rs:121-130 | column i becomes ZERO below a nonzero pivot, extending the echelon prefix by one; the solution set is kept |
| Reduction.ForwardEliminate | src/decoder.rs:96-133 | `solvable` pivots are found and form an echelon prefix. Elimination stops at the first column with no usable pivot, which is ZERO from there down. The system is equivalent to the input |
| Reduction.RangeDotPrefix | src/decoder.rs:136-145 | values pushed later do not change the sums over variables already solved |
| Reduction.SolveRow | src/decoder.rs:137 | the value emitted for row i − 1, its residual right-hand side divided by its diagonal entry, makes that row meet its original right-hand side |
| Reduction.SubstituteRow | src/decoder.rs:141-144 | subtracting val·m[r, i − 1] from a residual right-hand side is the residual with val substituted for variable i − 1 |
| Reduction.BackSubstitute | src/decoder.rs:136-145 | emits one value per pivot, last variable first; with them, every echelon row meets its original right-hand side |
| Reduction.PushedRowsSolved | src/decoder.rs:136-139 | after the value for row i − 1 is pushed, every row from i − 1 on still meets its right-hand side |
| Reduction.ResidualsAbove | src/decoder.rs:141-144 | the in-place update of each right-hand side above row i − 1 leaves the original right-hand side minus the row's sum over the values pushed so far |
| Reduction.SubtractAbove | src/decoder.rs:141-144 | only column s of the rows above i changes, by −val·m[r, i] |
| Reduction.SumRangeSnoc | src/decoder.rs:136-145 | a row sum over one more column adds that column's term |
| Reduction.SumRangeAgree | src/decoder.rs:136-145 | row sums depend only on the values of the columns summed |
| Reduction.RangeDotAsSum | src/decoder.rs:136-145 | the sum over the pushed values equals the sum over the reversed values |
| Reduction.SumRangeSkipZeros | src/decoder.rs:136-145 | ZERO entries left of the diagonal contribute nothing |
| Reduction.Balance | src/decoder.rs:93 | a + b·(−1) == ZERO exactly when a == b |
| Reduction.SumRangeTrailingZeros | src/decoder.rs:136-145 | values that are ZERO past some column contribute nothing to a row sum |
| Reduction.AugmentedPadded | src/decoder.rs:93 | with x ++ [−1] ++ ZEROs, a row sums to ZERO exactly when x meets the right-hand side in column len(x), whatever the later columns hold |
| Reduction.ReductionSolves | src/decoder.rs:93-146 | for any number s of pivots, the emitted values in variable order meet every row of the original system with column s as right-hand side; with a pivot in every column but the last, they solve it |
| Reduction.ReduceMatrix | src/decoder.rs:93-146 | the emitted values and the reduced grid are a reduction of the input (`ReductionOf`): at most one value per row, a grid equivalent to the input with a pivot in each of the first s columns and ZEROs below, column s ZERO from row s down, the values solving the pivot rows by back-substitution; and the values in variable order meet every original row with column s as right-hand side |
| Decoder.Syndromes | src/decoder.rs:9-23 | syndrome i is the received word evaluated at ALPHA^i, for i < error_codewords |
| Decoder.SyndromeAt | src/decoder.rs:12-22 | the body of the syndrome closure returns Σ elements[j]·x^j, the word evaluated at x |
| Decoder.PowerSumUpdate | src/decoder.rs:85 | adding d to coefficient i adds d·x^i to the value at x |
| Decoder.CorrectionStep | src/decoder.rs:85 | applying one more magnitude removes one more term from the value |
| Decoder.CorrectionsAsRowSum | src/decoder.rs:68-86 | the corrections applied in pop order sum to the correction system's row sum, with the values read in variable order |
| Decoder.LocatorPolynomial | src/decoder.rs:29-45 | the emitted values and reduced grid are a reduction of the t × (t+1) syndrome system; the locator is ONE followed by the negated values, so at most t + 1 long; and for every number of pivots the syndromes follow the locator's linear recurrence over all t rows |
| Decoder.HankelGrid | src/decoder.rs:31-37 | the grid `Matrix::new` fills with syndromes[x + y] is the syndrome system, row r being syndromes[r .. r + t + 1] |
| Decoder.RecurrenceFromReduction | src/decoder.rs:39-45 | the locator built from the values emitted on the syndrome system makes syndromes[r + d] the sum of syndromes[r + c] times its taps, for every row r, d being its degree |
| Decoder.TapsOfEmitted | src/decoder.rs:39-43 | the taps of ONE followed by the negated emitted values are those values in variable order |
| Decoder.RootsProperties | src/decoder.rs:53-60 | the located positions are in range, strictly increasing, and are exactly the positions where the locator vanishes |
| Decoder.LocatorAppended | src/decoder.rs:57-58 | appending a position and its locator value ALPHA^i keeps every locator value ALPHA to its position |
| Decoder.FindRoots | src/decoder.rs:47-60 | the locations are the roots of the locator among ALPHA^-i, i < n; the locator value of each is ALPHA^i |
| Decoder.FromRaw | src/decoder.rs:81 | a fresh rows × cols matrix over the row-major buffer |
| Decoder.Flat | src/decoder.rs:72-78 | the row-major position of an in-range cell lies inside the buffer |
| Decoder.FlatInjective | src/decoder.rs:72-78 | distinct cells have distinct row-major positions |
| Decoder.ColumnWrittenCells | src/decoder.rs:68-75 | after i writes, column col holds 1, X, …, X^(i-1) in its first i rows; all other cells are unchanged |
| Decoder.PowerColumn | src/decoder.rs:69-74 | column col holds the powers of its locator value; the other columns are unchanged |
| Decoder.CorrectionGrid | src/decoder.rs:62-81 | an L × (L+1) system: column c < L holds X_c^0, X_c^1, …; the last column holds the first L syndromes |
| Decoder.CorrectionGridIsSystem | src/decoder.rs:62-81 | the grid built over the buffer is the correction system: the powers of each locator value down its column, the first L syndromes in the last |
| Decoder.CorrectedCells | src/decoder.rs:83-86 | with distinct locations, each popped location loses its magnitude exactly once and no other position changes |
| Decoder.CorrectedPowerSum | src/decoder.rs:83-86 | after the corrections, every evaluation has dropped by exactly the correction term |
| Decoder.ApplyCorrections | src/decoder.rs:83-86 | each emitted value pops the last remaining location and is subtracted there; the unpopped locations are what remains |
| Decoder.SyndromeCleared | src/decoder.rs:62-88 | when the magnitudes solve row i of the correction system, the corrected word vanishes at ALPHA^i |
| Decoder.Locate | src/decoder.rs:29-60 | the locator is solved from the syndromes as in `LocatorPolynomial` (reduction of the syndrome system over error_codewords/2 rows, the recurrence), starts with ONE and has at most error_codewords/2 + 1 coefficients. The locations are exactly its roots among ALPHA^-i, strictly increasing and in range, and the locator values are ALPHA to the locations |
| Decoder.Repair | src/decoder.rs:62-88 | the magnitudes and reduced grid are a reduction of the correction system over the locator values. Succeeds exactly when every location got a magnitude, and then the magnitudes solve that system: Σ_c X_c^r·Y_c == S_r for r < L. Only located positions change, each by minus its magnitude. On success the corrected word vanishes at the first L powers of ALPHA |
| Decoder.Correct | src/decoder.rs:29-90 | on a word with a nonzero syndrome: the locator, emitted values and roots as in `Locate`; when the locations fit the syndromes, the magnitudes are a reduction of the correction system over them. Success means every location got a magnitude (the final `assert!`). On success, exactly the located positions were corrected, the corrected word vanishes at the first len(locations) powers of ALPHA, and the result is the message part |
| Decoder.DecodeChecked | src/decoder.rs:9-90 | the syndromes are the received word's values at ALPHA^i. When all are ZERO, the word is untouched and its message part is returned. Otherwise the trace carries the locator and magnitude reductions, and correction proceeds as in `Correct` |
| Decoder.Decode | src/decoder.rs:5-91 | when an entry assertion fails, it fails with the buffer untouched. Otherwise it behaves as `DecodeChecked`, so it can still fail later: when more positions are located than `error_codewords` (src/decoder.rs:78 would index past the syndromes), or when the final check that every location was used fails after the buffer has been patched (src/decoder.rs:88). Its trace carries the same locator and magnitude reductions. A success returns `elements[error_codewords..]` of the corrected buffer |
| Decoder.RoundTrip | src/decoder.rs:5-27 | decoding an uncorrupted codeword of `encode` succeeds and returns the message |

## Left out

- `SEQUENCE_LENGTH` and `sequence()` are used by src/encoder.rs and
  src/decoder.rs, but src/field.rs does not declare them. The model adds both
  to the field record. It reads `sequence()` as ALPHA^0, ALPHA^1, … and takes
  SEQUENCE_LENGTH = ORDER − 1 = 255 for GF(2^8).
- src/galois.rs (the `GaloisField` trait with `exp`/`log`) is not used by the
  core and is not part of this model.
- The bodies of `shift_by`, `become_divisible` and `degree` are not in the
  source files. `Polynomials.ShiftBy` multiplies by x^k.
  `Polynomials.BecomeDivisible` subtracts the remainder by a monic divisor and
  keeps every coefficient from deg(d) up. Its contract states only what
  `encode` relies on.
- `GF256Facts.InstanceLaws`: states every part of `IsField(GF)` except the
  associativity, commutativity and distributivity of `mul` over all 2^16 or
  2^24 byte combinations. Symbolic bit-level reasoning over all inputs
  exceeds the verifier's budget. What is proved for GF(2^8): the addition
  laws, the identities of `Mul`, the inverse property for every nonzero byte,
  the constants, and that ALPHA is primitive (order 255).
- `GF256.InvBits`: the chain is not proved algebraically to equal n^254, and
  n^254 is not proved to be n⁻¹. What is proved is e·InvChain(e) == 1 for
  each of the 255 nonzero bytes, checked value by value.
- `GF256Facts.EveryInverse`: the refusal of `inv(0)` (the `assert!` at
  src/gf256.rs:105) is the precondition of the field's `inv` arrow, so a
  call of `inv` on ZERO does not verify. Dafny relates an arrow's `requires`
  to its precondition in one direction only, so the lemma states that every
  nonzero byte is in the domain, not that 0 is outside it.
- The `GF` instance calls `Mul` and `InvChain` directly, not the lookups into
  `MUL_TABLE` / `INV_TABLE`. `MulTable` and `InvTable` are proved to hold
  exactly those values, so the two are interchangeable.
- The loop counters of `mul` are modelled as 16-bit vectors, the width of the
  product.
- `Encoder.GeneratorPolynomial` requires n + 2 ≤ usize::MAX, so no product
  length in the divisor loop overflows the `checked_add` of `Mul`. Its only
  caller, `encode`, meets this through its entry assertion, since
  SEQUENCE_LENGTH is far below usize::MAX. The panic a larger n would cause is
  not modelled.
- usize overflow is modelled only where the code checks it (`checked_add` in
  `Mul`). Other index arithmetic is unbounded.
- `Vec::with_capacity(error_locator.degree() - 1)` (src/decoder.rs:50-51) is
  only a capacity hint and is left out.
- Erasures, and any bound such as "at most error_codewords/2 errors are
  corrected", are not modelled. `Decoder.Decode` states what the code
  guarantees: the locator and the magnitudes are reductions of the syndrome
  and correction systems, the syndromes follow the locator's recurrence, and
  either the decode fails or the corrected buffer vanishes at the first
  len(locations) powers of ALPHA. It does not state that the original
  codeword is recovered for every error pattern within the correction bound.
- The unit tests (src/gf256.rs:110-118, src/decoder.rs:148-167) are reflected
  as lemmas, not as executions. `GF256Facts.InverseCorrect` covers
  `test_inverses`. The decoder test uses `error_codewords = SEQUENCE_LENGTH −
  len(msg)`, and the strict `<` at src/encoder.rs:5 (kept in
  `Encoder.Encode`) would refuse that input. This scenario is not modelled.
- src/matrix.rs indexes its buffer as y·rows + x with x < rows and y < cols.
  `Matrices.Matrix` keeps that convention. Under it, `reduce_matrix` as
  written would panic: its calls `get(i, k)` and `get(i, solvable)` reach
  x = cols − 1 = rows, the right-hand-side column (src/decoder.rs:109, 128,
  137, 143), and fail the `x < rows` assertion at src/matrix.rs:9 there, for
  instance as soon as a system of two or more rows has its first pivot.
  The model reads `get(y, x)` inside `reduce_matrix` as row y, column x of a
  row-major grid: `reduce_matrix` works on an `array2` whose cell (r, c) is
  row r, column c, which is how `decode` fills the correction buffer
  (src/decoder.rs:72, 78).
- Aliasing between the matrix passed to `reduce_matrix` and the caller's
  buffers cannot occur in Rust, so it is not modelled. The closure `push` is
  modelled as the returned sequence of pushed values.
