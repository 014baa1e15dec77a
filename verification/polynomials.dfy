/** Polynomial algebra over a field (src/polynomial.rs): a polynomial is its
    coefficient sequence, lowest power first.  Evaluation, padded addition and
    subtraction and convolution multiplication are loops; each is proved to
    compute a law-free specification function, and the algebra the codec
    relies on is proved about those functions under the field laws. */
module Polynomials {
  import opened Fields
  import opened Outcomes

  /** The largest `usize` of a 64-bit target. */
  const USIZE_MAX: nat := 0xFFFF_FFFF_FFFF_FFFF

  type Polynomial<E> = seq<E>

  function Max(a: nat, b: nat): nat { if a < b then b else a }

  /** Coefficient i of p, with the coefficients past the end read as ZERO. */
  function Coefficient<E>(F: Field<E>, p: Polynomial<E>, i: nat): E
  {
    if i < |p| then p[i] else F.zero
  }

  /** p(x) = Σ p[i]·x^i, summed lowest power first starting from ZERO. */
  function PowerSum<E>(F: Field<E>, p: Polynomial<E>, x: E): E
  {
    if |p| == 0 then F.zero
    else F.add(PowerSum(F, p[..|p| - 1], x), F.mul(p[|p| - 1], Pow(F, x, |p| - 1)))
  }

  /** Coefficient i of `a + b`: ZERO, plus a[i] if a has one, plus b[i] if b has one. */
  function SumAt<E>(F: Field<E>, a: Polynomial<E>, b: Polynomial<E>, i: nat): E
  {
    var s := if i < |a| then F.add(F.zero, a[i]) else F.zero;
    if i < |b| then F.add(s, b[i]) else s
  }

  function Sum<E>(F: Field<E>, a: Polynomial<E>, b: Polynomial<E>): (r: Polynomial<E>)
    ensures |r| == Max(|a|, |b|)
  {
    seq(Max(|a|, |b|), i requires 0 <= i => SumAt(F, a, b, i))
  }

  /** Coefficient i of `a - b`: as for `a + b`, with neg(b[i]) in place of b[i]. */
  function DifferenceAt<E>(F: Field<E>, a: Polynomial<E>, b: Polynomial<E>, i: nat): E
  {
    var s := if i < |a| then F.add(F.zero, a[i]) else F.zero;
    if i < |b| then F.add(s, F.neg(b[i])) else s
  }

  function Difference<E>(F: Field<E>, a: Polynomial<E>, b: Polynomial<E>): (r: Polynomial<E>)
    ensures |r| == Max(|a|, |b|)
  {
    seq(Max(|a|, |b|), i requires 0 <= i => DifferenceAt(F, a, b, i))
  }

  /** The sum of a[i]·b[k-i] over the rows i < n that reach coefficient k,
      accumulated in increasing i from ZERO. */
  function Convolution<E>(F: Field<E>, a: Polynomial<E>, b: Polynomial<E>, k: nat, n: nat): E
    requires n <= |a|
  {
    if n == 0 then F.zero
    else
      var acc := Convolution(F, a, b, k, n - 1);
      if n - 1 <= k < n - 1 + |b| then F.add(acc, F.mul(a[n - 1], b[k - (n - 1)])) else acc
  }

  function Product<E>(F: Field<E>, a: Polynomial<E>, b: Polynomial<E>): (r: Polynomial<E>)
    requires 1 <= |a| + |b|
    ensures |r| == |a| + |b| - 1
  {
    seq(|a| + |b| - 1, k requires 0 <= k => Convolution(F, a, b, k, |a|))
  }

  /** `shift_by(k)`: k ZERO coefficients prepended, i.e. multiplication by x^k. */
  function ShiftBy<E>(F: Field<E>, p: Polynomial<E>, k: nat): (r: Polynomial<E>)
    ensures |r| == |p| + k
  {
    seq(k, _ => F.zero) + p
  }

  /** Every coefficient multiplied by c. */
  function Scale<E>(F: Field<E>, p: Polynomial<E>, c: E): (r: Polynomial<E>)
    ensures |r| == |p|
  {
    seq(|p|, i requires 0 <= i < |p| => F.mul(c, p[i]))
  }

  /** `eval`: Horner-free evaluation with a running power of x. */
  method Eval<E>(F: Field<E>, p: Polynomial<E>, x: E) returns (r: E)
    ensures r == PowerSum(F, p, x)
    ensures |p| == 0 ==> r == F.zero
  {
    var out, accum := F.zero, F.one;
    for i := 0 to |p|
      invariant out == PowerSum(F, p[..i], x)
      invariant accum == Pow(F, x, i)
    {
      assert p[..i + 1][..i] == p[..i];
      out := F.add(out, F.mul(p[i], accum));
      accum := F.mul(accum, x);
    }
    assert p[..|p|] == p;
    r := out;
  }

  /** `&a + &b`. */
  method Add<E(!new)>(F: Field<E>, a: Polynomial<E>, b: Polynomial<E>) returns (r: Polynomial<E>)
    ensures r == Sum(F, a, b)
    ensures |r| == Max(|a|, |b|)
    ensures IsField(F) ==>
      forall i :: 0 <= i < |r| ==> r[i] == F.add(Coefficient(F, a, i), Coefficient(F, b, i))
  {
    var len := Max(|a|, |b|);
    var out := seq(len, _ => F.zero);
    for i := 0 to |a|
      invariant |out| == len
      invariant forall k :: 0 <= k < len ==> out[k] == if k < i then F.add(F.zero, a[k]) else F.zero
    {
      out := out[i := F.add(out[i], a[i])];
    }
    for i := 0 to |b|
      invariant |out| == len
      invariant forall k :: 0 <= k < len ==>
        out[k] == if k < i then SumAt(F, a, b, k) else if k < |a| then F.add(F.zero, a[k]) else F.zero
    {
      out := out[i := F.add(out[i], b[i])];
    }
    r := out;
    if IsField(F) {
      SumCoefficients(F, a, b);
    }
  }

  /** `&a - &b`. */
  method Sub<E(!new)>(F: Field<E>, a: Polynomial<E>, b: Polynomial<E>) returns (r: Polynomial<E>)
    ensures r == Difference(F, a, b)
    ensures |r| == Max(|a|, |b|)
    ensures IsField(F) ==>
      forall i :: 0 <= i < |r| ==> r[i] == F.add(Coefficient(F, a, i), F.neg(Coefficient(F, b, i)))
  {
    var len := Max(|a|, |b|);
    var out := seq(len, _ => F.zero);
    for i := 0 to |a|
      invariant |out| == len
      invariant forall k :: 0 <= k < len ==> out[k] == if k < i then F.add(F.zero, a[k]) else F.zero
    {
      out := out[i := F.add(out[i], a[i])];
    }
    for i := 0 to |b|
      invariant |out| == len
      invariant forall k :: 0 <= k < len ==>
        out[k] == if k < i then DifferenceAt(F, a, b, k) else if k < |a| then F.add(F.zero, a[k]) else F.zero
    {
      out := out[i := F.add(out[i], F.neg(b[i]))];
    }
    r := out;
    if IsField(F) {
      DifferenceCoefficients(F, a, b);
    }
  }

  /** `&a * &b`: the length |a| + |b| - 1 is computed with a checked addition
      and a subtraction, so two empty operands or a length past `usize` fail. */
  method Mul<E>(F: Field<E>, a: Polynomial<E>, b: Polynomial<E>) returns (r: Result<Polynomial<E>>)
    ensures r.Success? <==> 1 <= |a| + |b| <= USIZE_MAX
    ensures r.Success? ==> r.value == Product(F, a, b)
  {
    if |a| + |b| > USIZE_MAX {
      return Failure("called `Option::unwrap()` on a `None` value");
    }
    if |a| + |b| == 0 {
      return Failure("attempt to subtract with overflow");
    }
    var len := |a| + |b| - 1;
    var out := seq(len, _ => F.zero);
    for i := 0 to |a|
      invariant |out| == len
      invariant forall k :: 0 <= k < len ==> out[k] == Convolution(F, a, b, k, i)
    {
      for j := 0 to |b|
        invariant |out| == len
        invariant forall k :: 0 <= k < len ==>
          out[k] == if i <= k < i + j then F.add(Convolution(F, a, b, k, i), F.mul(a[i], b[k - i]))
                    else Convolution(F, a, b, k, i)
      {
        out := out[i + j := F.add(out[i + j], F.mul(a[i], b[j]))];
      }
    }
    return Success(out);
  }

  /** `become_divisible(by)`: long division by a monic divisor d, from the
      highest coefficient down, keeps only the remainder; the remainder is then
      subtracted from p.  The result agrees with p from the divisor's degree up
      and vanishes wherever d does. */
  method BecomeDivisible<E(==,!new)>(F: Field<E>, p: Polynomial<E>, d: Polynomial<E>) returns (r: Result<Polynomial<E>>)
    requires IsField(F)
    ensures r.Success? <==> |d| > 0 && d[|d| - 1] == F.one
    ensures r.Success? ==> |r.value| == |p|
    ensures r.Success? ==> forall i :: |d| - 1 <= i < |p| ==> r.value[i] == p[i]
    ensures r.Success? ==> forall x :: PowerSum(F, d, x) == F.zero ==> PowerSum(F, r.value, x) == F.zero
  {
    if |d| == 0 || d[|d| - 1] != F.one {
      return Failure("the divisor's leading coefficient is not ONE");
    }
    var rem := p;
    var pos: nat := |p|;
    while pos >= |d|
      invariant pos <= |p|
      invariant |rem| == |p|
      invariant forall i :: pos <= i < |rem| ==> rem[i] == F.zero
      invariant forall x :: PowerSum(F, d, x) == F.zero ==> PowerSum(F, rem, x) == PowerSum(F, p, x)
      decreases pos
    {
      var c := rem[pos - 1];
      var s := ShiftBy(F, Scale(F, d, c), pos - |d|);
      var next := Sub(F, rem, s);
      ReductionKeepsRoots(F, p, rem, d, c, pos - |d|, s, next);
      ReductionClearsTop(F, rem, d, c, pos, s, next);
      rem, pos := next, pos - 1;
    }
    var out := Sub(F, p, rem);
    RemainderRemoved(F, p, rem, d, out);
    return Success(out);
  }

  /** Subtracting s = c·x^k·d changes no value at a root of d. */
  lemma ReductionKeepsRoots<E(!new)>(F: Field<E>, p: Polynomial<E>, rem: Polynomial<E>, d: Polynomial<E>, c: E, k: nat, s: Polynomial<E>, next: Polynomial<E>)
    requires IsField(F)
    requires forall x :: PowerSum(F, d, x) == F.zero ==> PowerSum(F, rem, x) == PowerSum(F, p, x)
    requires s == ShiftBy(F, Scale(F, d, c), k) && next == Difference(F, rem, s)
    ensures forall x :: PowerSum(F, d, x) == F.zero ==> PowerSum(F, next, x) == PowerSum(F, p, x)
  {
    forall x | PowerSum(F, d, x) == F.zero
      ensures PowerSum(F, next, x) == PowerSum(F, p, x)
    {
      EvalDifference(F, rem, s, x);
      EvalShiftBy(F, Scale(F, d, c), k, x);
      EvalScale(F, d, c, x);
      MulZero(F, c);
      MulZero(F, Pow(F, x, k));
      NegZero(F);
      AddZeroRight(F, PowerSum(F, rem, x));
    }
  }

  /** With a monic d and rem ZERO from pos up, subtracting s = rem[pos-1]·x^(pos-|d|)·d
      clears coefficient pos-1 and keeps the ZEROs above it. */
  lemma ReductionClearsTop<E(!new)>(F: Field<E>, rem: Polynomial<E>, d: Polynomial<E>, c: E, pos: nat, s: Polynomial<E>, next: Polynomial<E>)
    requires IsField(F)
    requires 0 < |d| <= pos <= |rem| && d[|d| - 1] == F.one && c == rem[pos - 1]
    requires forall i :: pos <= i < |rem| ==> rem[i] == F.zero
    requires s == ShiftBy(F, Scale(F, d, c), pos - |d|) && next == Difference(F, rem, s)
    ensures |next| == |rem|
    ensures forall i :: pos - 1 <= i < |next| ==> next[i] == F.zero
  {
    assert s[pos - 1] == F.mul(c, F.one) == F.mul(F.one, c);
    NegZero(F);
    forall i | pos - 1 <= i < |next|
      ensures next[i] == F.zero
    {
      AddZeroRight(F, F.zero);
    }
  }

  /** After the reduction, p - rem agrees with p from the divisor's degree up
      and vanishes at every root of d. */
  lemma RemainderRemoved<E(!new)>(F: Field<E>, p: Polynomial<E>, rem: Polynomial<E>, d: Polynomial<E>, out: Polynomial<E>)
    requires IsField(F)
    requires 0 < |d| && |rem| == |p|
    requires forall i :: |d| - 1 <= i < |rem| ==> rem[i] == F.zero
    requires forall x :: PowerSum(F, d, x) == F.zero ==> PowerSum(F, rem, x) == PowerSum(F, p, x)
    requires out == Difference(F, p, rem)
    ensures |out| == |p|
    ensures forall i :: |d| - 1 <= i < |p| ==> out[i] == p[i]
    ensures forall x :: PowerSum(F, d, x) == F.zero ==> PowerSum(F, out, x) == F.zero
  {
    NegZero(F);
    forall i | |d| - 1 <= i < |p|
      ensures out[i] == p[i]
    {
      AddZeroRight(F, p[i]);
    }
    forall x | PowerSum(F, d, x) == F.zero
      ensures PowerSum(F, out, x) == F.zero
    {
      EvalDifference(F, p, rem, x);
    }
  }

  // ---------------------------------------------------------------------
  // Coefficient formulas under the field laws

  /** Coefficient i of `a + b` is a[i] + b[i], a missing coefficient being ZERO. */
  lemma SumCoefficients<E(!new)>(F: Field<E>, a: Polynomial<E>, b: Polynomial<E>)
    requires IsField(F)
    ensures forall i: nat :: Coefficient(F, Sum(F, a, b), i) == F.add(Coefficient(F, a, i), Coefficient(F, b, i))
  {
    forall i: nat
      ensures Coefficient(F, Sum(F, a, b), i) == F.add(Coefficient(F, a, i), Coefficient(F, b, i))
    {
      AddZeroRight(F, Coefficient(F, a, i));
      if i >= Max(|a|, |b|) {
        AddZeroRight(F, F.zero);
      }
    }
  }

  /** Coefficient i of `a - b` is a[i] + neg(b[i]), a missing coefficient being ZERO. */
  lemma DifferenceCoefficients<E(!new)>(F: Field<E>, a: Polynomial<E>, b: Polynomial<E>)
    requires IsField(F)
    ensures forall i: nat ::
      Coefficient(F, Difference(F, a, b), i) == F.add(Coefficient(F, a, i), F.neg(Coefficient(F, b, i)))
  {
    NegZero(F);
    forall i: nat
      ensures Coefficient(F, Difference(F, a, b), i) == F.add(Coefficient(F, a, i), F.neg(Coefficient(F, b, i)))
    {
      AddZeroRight(F, Coefficient(F, a, i));
    }
  }

  /** Coefficient k of `a · b` is the convolution sum; past the end it is ZERO. */
  lemma ProductCoefficients<E(!new)>(F: Field<E>, a: Polynomial<E>, b: Polynomial<E>, k: nat)
    requires 1 <= |a| + |b|
    ensures Coefficient(F, Product(F, a, b), k) == Convolution(F, a, b, k, |a|)
  {
    if k >= |a| + |b| - 1 {
      ConvolutionPastEnd(F, a, b, k, |a|);
    }
  }

  lemma {:induction false} ConvolutionPastEnd<E>(F: Field<E>, a: Polynomial<E>, b: Polynomial<E>, k: nat, n: nat)
    requires n <= |a|
    requires k >= n - 1 + |b|
    ensures Convolution(F, a, b, k, n) == F.zero
  {
    if n > 0 {
      ConvolutionPastEnd(F, a, b, k, n - 1);
    }
  }

  /** The top coefficient of a product is the product of the top coefficients. */
  lemma ProductLeading<E(!new)>(F: Field<E>, a: Polynomial<E>, b: Polynomial<E>)
    requires IsField(F)
    requires 1 <= |a| && 1 <= |b|
    ensures Product(F, a, b)[|a| + |b| - 2] == F.mul(a[|a| - 1], b[|b| - 1])
  {
    var k := |a| + |b| - 2;
    ConvolutionPastEnd(F, a, b, k, |a| - 1);
    assert Convolution(F, a, b, k, |a|) == F.add(F.zero, F.mul(a[|a| - 1], b[|b| - 1]));
  }

  /** A polynomial of length two is a line: eval([u, v], x) == u + v·x. */
  lemma EvalLine<E(!new)>(F: Field<E>, u: E, v: E, x: E)
    requires IsField(F)
    ensures PowerSum(F, [u, v], x) == F.add(u, F.mul(v, x))
  {
    assert [u, v][..1] == [u];
    assert [u][..0] == [];
    assert Pow(F, x, 1) == F.mul(F.one, x) == x;
    assert F.mul(u, F.one) == F.mul(F.one, u) == u;
    assert PowerSum(F, [u], x) == F.add(F.zero, F.mul(u, Pow(F, x, 0))) == u;
    assert PowerSum(F, [u, v], x) == F.add(PowerSum(F, [u], x), F.mul(v, Pow(F, x, 1)));
  }

  // ---------------------------------------------------------------------
  // Power series over an index function, the tool for the evaluation laws

  /** The padded coefficients of p as a function of the index. */
  ghost function Coefficients<E>(F: Field<E>, p: Polynomial<E>): nat -> E
  {
    (i: nat) => Coefficient(F, p, i)
  }

  /** The convolution of the first n rows as a function of the index. */
  ghost function PartialConvolution<E>(F: Field<E>, a: Polynomial<E>, b: Polynomial<E>, n: nat): nat -> E
    requires n <= |a|
  {
    (k: nat) => Convolution(F, a, b, k, n)
  }

  /** Σ_{i<n} g(i)·x^i, summed like `PowerSum`. */
  ghost function Series<E>(F: Field<E>, g: nat -> E, x: E, n: nat): E
  {
    if n == 0 then F.zero else F.add(Series(F, g, x, n - 1), F.mul(g(n - 1), Pow(F, x, n - 1)))
  }

  lemma {:induction false} SeriesExtensional<E>(F: Field<E>, g: nat -> E, h: nat -> E, x: E, n: nat)
    requires forall i: nat :: i < n ==> g(i) == h(i)
    ensures Series(F, g, x, n) == Series(F, h, x, n)
  {
    if n > 0 {
      SeriesExtensional(F, g, h, x, n - 1);
    }
  }

  lemma {:induction false} SeriesOfZeros<E(!new)>(F: Field<E>, g: nat -> E, x: E, n: nat)
    requires IsField(F)
    requires forall i: nat :: i < n ==> g(i) == F.zero
    ensures Series(F, g, x, n) == F.zero
  {
    if n > 0 {
      SeriesOfZeros(F, g, x, n - 1);
      MulZero(F, Pow(F, x, n - 1));
      AddZeroRight(F, F.zero);
    }
  }

  /** A polynomial's value is the series of its own coefficients. */
  lemma {:induction false} PowerSumIsSeries<E>(F: Field<E>, p: Polynomial<E>, x: E)
    ensures PowerSum(F, p, x) == Series(F, Coefficients(F, p), x, |p|)
  {
    if |p| > 0 {
      var q := p[..|p| - 1];
      PowerSumIsSeries(F, q, x);
      SeriesExtensional(F, Coefficients(F, q), Coefficients(F, p), x, |q|);
    }
  }

  /** Terms with ZERO coefficients add nothing to a series. */
  lemma {:induction false} SeriesPadded<E(!new)>(F: Field<E>, g: nat -> E, x: E, m: nat, n: nat)
    requires IsField(F)
    requires m <= n
    requires forall i: nat :: m <= i < n ==> g(i) == F.zero
    ensures Series(F, g, x, n) == Series(F, g, x, m)
  {
    if n > m {
      SeriesPadded(F, g, x, m, n - 1);
      MulZero(F, Pow(F, x, n - 1));
      AddZeroRight(F, Series(F, g, x, n - 1));
    }
  }

  /** A polynomial's value is the series of its padded coefficients, however far padded. */
  lemma PowerSumAsSeries<E(!new)>(F: Field<E>, p: Polynomial<E>, x: E, n: nat)
    requires IsField(F)
    requires |p| <= n
    ensures PowerSum(F, p, x) == Series(F, Coefficients(F, p), x, n)
  {
    PowerSumIsSeries(F, p, x);
    SeriesPadded(F, Coefficients(F, p), x, |p|, n);
  }

  lemma {:induction false} SeriesAdd<E(!new)>(F: Field<E>, s: nat -> E, g: nat -> E, h: nat -> E, x: E, n: nat)
    requires IsField(F)
    requires forall i: nat :: i < n ==> s(i) == F.add(g(i), h(i))
    ensures Series(F, s, x, n) == F.add(Series(F, g, x, n), Series(F, h, x, n))
  {
    if n == 0 {
      AddZeroRight(F, F.zero);
    } else {
      SeriesAdd(F, s, g, h, x, n - 1);
      var P := Pow(F, x, n - 1);
      MulAddRight(F, g(n - 1), h(n - 1), P);
      AddSwap(F, Series(F, g, x, n - 1), Series(F, h, x, n - 1), F.mul(g(n - 1), P), F.mul(h(n - 1), P));
    }
  }

  lemma {:induction false} SeriesNeg<E(!new)>(F: Field<E>, s: nat -> E, g: nat -> E, x: E, n: nat)
    requires IsField(F)
    requires forall i: nat :: i < n ==> s(i) == F.neg(g(i))
    ensures Series(F, s, x, n) == F.neg(Series(F, g, x, n))
  {
    if n == 0 {
      NegZero(F);
    } else {
      SeriesNeg(F, s, g, x, n - 1);
      var P := Pow(F, x, n - 1);
      calc {
        F.mul(F.neg(g(n - 1)), P);
        F.mul(P, F.neg(g(n - 1)));
        { MulNeg(F, P, g(n - 1)); }
        F.neg(F.mul(P, g(n - 1)));
        { assert F.mul(P, g(n - 1)) == F.mul(g(n - 1), P); }
        F.neg(F.mul(g(n - 1), P));
      }
      NegAdd(F, Series(F, g, x, n - 1), F.mul(g(n - 1), P));
    }
  }

  lemma {:induction false} SeriesScale<E(!new)>(F: Field<E>, s: nat -> E, g: nat -> E, c: E, x: E, n: nat)
    requires IsField(F)
    requires forall i: nat :: i < n ==> s(i) == F.mul(c, g(i))
    ensures Series(F, s, x, n) == F.mul(c, Series(F, g, x, n))
  {
    if n == 0 {
      MulZero(F, c);
    } else {
      SeriesScale(F, s, g, c, x, n - 1);
      var P := Pow(F, x, n - 1);
      var G := Series(F, g, x, n - 1);
      calc {
        Series(F, s, x, n);
        F.add(F.mul(c, G), F.mul(F.mul(c, g(n - 1)), P));
        { assert F.mul(c, F.mul(g(n - 1), P)) == F.mul(F.mul(c, g(n - 1)), P); }
        F.add(F.mul(c, G), F.mul(c, F.mul(g(n - 1), P)));
        F.mul(c, F.add(G, F.mul(g(n - 1), P)));
      }
    }
  }

  /** Prepending m ZERO coefficients multiplies the series by x^m. */
  lemma {:induction false} SeriesShift<E(!new)>(F: Field<E>, s: nat -> E, g: nat -> E, m: nat, x: E, n: nat)
    requires IsField(F)
    requires forall i: nat :: i < m ==> s(i) == F.zero
    requires forall i: nat :: i < n ==> s(m + i) == g(i)
    ensures Series(F, s, x, m + n) == F.mul(Pow(F, x, m), Series(F, g, x, n))
  {
    if n == 0 {
      SeriesOfZeros(F, s, x, m);
      MulZero(F, Pow(F, x, m));
    } else {
      SeriesShift(F, s, g, m, x, n - 1);
      SeriesShiftStep(F, s, g, m, x, n);
    }
  }

  /** One more term of a series. */
  lemma SeriesNext<E>(F: Field<E>, g: nat -> E, x: E, n: nat)
    ensures Series(F, g, x, n + 1) == F.add(Series(F, g, x, n), F.mul(g(n), Pow(F, x, n)))
  {
  }

  /** Equal lengths, equal series. */
  lemma SeriesAt<E>(F: Field<E>, g: nat -> E, x: E, i: nat, j: nat)
    requires i == j
    ensures Series(F, g, x, i) == Series(F, g, x, j)
  {
  }

  /** The last term on both sides of `SeriesShift`. */
  lemma SeriesShiftStep<E(!new)>(F: Field<E>, s: nat -> E, g: nat -> E, m: nat, x: E, n: nat)
    requires IsField(F)
    requires 0 < n && s(m + (n - 1)) == g(n - 1)
    requires Series(F, s, x, m + (n - 1)) == F.mul(Pow(F, x, m), Series(F, g, x, n - 1))
    ensures Series(F, s, x, m + n) == F.mul(Pow(F, x, m), Series(F, g, x, n))
  {
    var k := n - 1;
    SeriesNext(F, s, x, m + k);
    SeriesNext(F, g, x, k);
    PowAdd(F, x, m, k);
    FactorOut(F, Pow(F, x, m), Series(F, g, x, k), g(k), Pow(F, x, k));
    SeriesAt(F, s, x, m + k + 1, m + n);
    SeriesAt(F, g, x, k + 1, n);
  }

  /** M·G + c·(M·P) == M·(G + c·P): the step of `SeriesShift`. */
  lemma FactorOut<E(!new)>(F: Field<E>, M: E, G: E, c: E, P: E)
    requires IsField(F)
    ensures F.add(F.mul(M, G), F.mul(c, F.mul(M, P))) == F.mul(M, F.add(G, F.mul(c, P)))
  {
    calc {
      F.mul(c, F.mul(M, P));
      F.mul(F.mul(c, M), P);
      { assert F.mul(c, M) == F.mul(M, c); }
      F.mul(F.mul(M, c), P);
      F.mul(M, F.mul(c, P));
    }
  }

  // ---------------------------------------------------------------------
  // Evaluation laws

  /** eval(a + b, x) == eval(a, x) + eval(b, x). */
  lemma EvalSum<E(!new)>(F: Field<E>, a: Polynomial<E>, b: Polynomial<E>, x: E)
    requires IsField(F)
    ensures PowerSum(F, Sum(F, a, b), x) == F.add(PowerSum(F, a, x), PowerSum(F, b, x))
  {
    var n := Max(|a|, |b|);
    SumCoefficients(F, a, b);
    PowerSumAsSeries(F, Sum(F, a, b), x, n);
    PowerSumAsSeries(F, a, x, n);
    PowerSumAsSeries(F, b, x, n);
    SeriesAdd(F, Coefficients(F, Sum(F, a, b)), Coefficients(F, a), Coefficients(F, b), x, n);
  }

  /** eval(a - b, x) == eval(a, x) - eval(b, x). */
  lemma EvalDifference<E(!new)>(F: Field<E>, a: Polynomial<E>, b: Polynomial<E>, x: E)
    requires IsField(F)
    ensures PowerSum(F, Difference(F, a, b), x) == F.add(PowerSum(F, a, x), F.neg(PowerSum(F, b, x)))
  {
    var n := Max(|a|, |b|);
    var na: nat -> E := (i: nat) => F.neg(Coefficient(F, b, i));
    DifferenceCoefficients(F, a, b);
    PowerSumAsSeries(F, Difference(F, a, b), x, n);
    PowerSumAsSeries(F, a, x, n);
    PowerSumAsSeries(F, b, x, n);
    SeriesAdd(F, Coefficients(F, Difference(F, a, b)), Coefficients(F, a), na, x, n);
    SeriesNeg(F, na, Coefficients(F, b), x, n);
  }

  /** eval(shift_by(p, k), x) == x^k · eval(p, x). */
  lemma EvalShiftBy<E(!new)>(F: Field<E>, p: Polynomial<E>, k: nat, x: E)
    requires IsField(F)
    ensures PowerSum(F, ShiftBy(F, p, k), x) == F.mul(Pow(F, x, k), PowerSum(F, p, x))
  {
    PowerSumAsSeries(F, ShiftBy(F, p, k), x, k + |p|);
    PowerSumIsSeries(F, p, x);
    ShiftBySeries(F, p, k, x);
  }

  /** `EvalShiftBy` on the series of the coefficients. */
  lemma ShiftBySeries<E(!new)>(F: Field<E>, p: Polynomial<E>, k: nat, x: E)
    requires IsField(F)
    ensures Series(F, Coefficients(F, ShiftBy(F, p, k)), x, k + |p|)
         == F.mul(Pow(F, x, k), Series(F, Coefficients(F, p), x, |p|))
  {
    ShiftByCoefficients(F, p, k);
    SeriesShift(F, Coefficients(F, ShiftBy(F, p, k)), Coefficients(F, p), k, x, |p|);
  }

  /** The coefficients of shift_by(p, k): k ZEROs, then those of p. */
  lemma ShiftByCoefficients<E>(F: Field<E>, p: Polynomial<E>, k: nat)
    ensures forall i: nat :: i < k ==> Coefficients(F, ShiftBy(F, p, k))(i) == F.zero
    ensures forall i: nat :: i < |p| ==> Coefficients(F, ShiftBy(F, p, k))(k + i) == Coefficients(F, p)(i)
  {
    var q := ShiftBy(F, p, k);
    forall i: nat | i < k
      ensures Coefficients(F, q)(i) == F.zero
    {
      assert q[i] == F.zero;
    }
    forall i: nat | i < |p|
      ensures Coefficients(F, q)(k + i) == Coefficients(F, p)(i)
    {
      assert q[k + i] == p[i];
    }
  }

  /** eval(c · p, x) == c · eval(p, x). */
  lemma EvalScale<E(!new)>(F: Field<E>, p: Polynomial<E>, c: E, x: E)
    requires IsField(F)
    ensures PowerSum(F, Scale(F, p, c), x) == F.mul(c, PowerSum(F, p, x))
  {
    var q := Scale(F, p, c);
    PowerSumAsSeries(F, q, x, |p|);
    PowerSumAsSeries(F, p, x, |p|);
    SeriesScale(F, Coefficients(F, q), Coefficients(F, p), c, x, |p|);
  }

  /** eval(a · b, x) == eval(a, x) · eval(b, x). */
  lemma EvalProduct<E(!new)>(F: Field<E>, a: Polynomial<E>, b: Polynomial<E>, x: E)
    requires IsField(F)
    requires 1 <= |a| + |b|
    ensures PowerSum(F, Product(F, a, b), x) == F.mul(PowerSum(F, a, x), PowerSum(F, b, x))
  {
    var N := |a| + |b| - 1;
    var p := Product(F, a, b);
    forall k: nat | k < N
      ensures Coefficient(F, p, k) == Convolution(F, a, b, k, |a|)
    {
      ProductCoefficients(F, a, b, k);
    }
    PowerSumAsSeries(F, p, x, N);
    SeriesExtensional(F, Coefficients(F, p), PartialConvolution(F, a, b, |a|), x, N);
    PartialProducts(F, a, b, x, |a|);
    assert a[..|a|] == a;
  }

  /** One row of the convolution: c·b placed from index m on. */
  ghost function ShiftedRow<E>(F: Field<E>, b: Polynomial<E>, c: E, m: nat): nat -> E
  {
    (k: nat) => if m <= k < m + |b| then F.mul(c, b[k - m]) else F.zero
  }

  lemma EvalShiftedRow<E(!new)>(F: Field<E>, b: Polynomial<E>, c: E, m: nat, x: E, N: nat)
    requires IsField(F)
    requires m + |b| <= N
    ensures Series(F, ShiftedRow(F, b, c, m), x, N) == F.mul(Pow(F, x, m), F.mul(c, PowerSum(F, b, x)))
  {
    ShiftedRowValue(F, b, c, m, x, N - m);
    SeriesAt(F, ShiftedRow(F, b, c, m), x, m + (N - m), N);
  }

  /** `EvalShiftedRow` with the length written as m + n. */
  lemma ShiftedRowValue<E(!new)>(F: Field<E>, b: Polynomial<E>, c: E, m: nat, x: E, n: nat)
    requires IsField(F)
    requires |b| <= n
    ensures Series(F, ShiftedRow(F, b, c, m), x, m + n) == F.mul(Pow(F, x, m), F.mul(c, PowerSum(F, b, x)))
  {
    ShiftedRowSeries(F, b, c, m, x, n);
    ScaledSeries(F, b, c, x, n);
  }

  /** The series of c·b is c·eval(b, x), however far padded. */
  lemma ScaledSeries<E(!new)>(F: Field<E>, b: Polynomial<E>, c: E, x: E, n: nat)
    requires IsField(F)
    requires |b| <= n
    ensures Series(F, Coefficients(F, Scale(F, b, c)), x, n) == F.mul(c, PowerSum(F, b, x))
  {
    PowerSumAsSeries(F, Scale(F, b, c), x, n);
    EvalScale(F, b, c, x);
  }

  /** The row is the series of c·b shifted by m places. */
  lemma ShiftedRowSeries<E(!new)>(F: Field<E>, b: Polynomial<E>, c: E, m: nat, x: E, n: nat)
    requires IsField(F)
    ensures Series(F, ShiftedRow(F, b, c, m), x, m + n)
         == F.mul(Pow(F, x, m), Series(F, Coefficients(F, Scale(F, b, c)), x, n))
  {
    var row := ShiftedRow(F, b, c, m);
    var g := Coefficients(F, Scale(F, b, c));
    forall i: nat | i < m
      ensures row(i) == F.zero
    {
    }
    forall i: nat | i < n
      ensures row(m + i) == g(i)
    {
    }
    SeriesShift(F, row, g, m, x, n);
  }

  /** The rows i < n of the convolution sum to eval(a[..n], x) · eval(b, x). */
  lemma {:induction false} PartialProducts<E(!new)>(F: Field<E>, a: Polynomial<E>, b: Polynomial<E>, x: E, n: nat)
    requires IsField(F)
    requires 1 <= |a| + |b|
    requires n <= |a|
    ensures Series(F, PartialConvolution(F, a, b, n), x, |a| + |b| - 1)
         == F.mul(PowerSum(F, a[..n], x), PowerSum(F, b, x))
  {
    var N := |a| + |b| - 1;
    var B := PowerSum(F, b, x);
    if n == 0 {
      forall k: nat | k < N
        ensures PartialConvolution(F, a, b, 0)(k) == F.zero
      {
        assert PartialConvolution(F, a, b, 0)(k) == Convolution(F, a, b, k, 0);
      }
      SeriesOfZeros(F, PartialConvolution(F, a, b, 0), x, N);
      MulZero(F, B);
    } else {
      PartialProducts(F, a, b, x, n - 1);
      var m := n - 1;
      var c := a[m];
      var prev := PartialConvolution(F, a, b, m);
      var row := ShiftedRow(F, b, c, m);
      forall k: nat | k < N
        ensures PartialConvolution(F, a, b, n)(k) == F.add(prev(k), row(k))
      {
        assert prev(k) == Convolution(F, a, b, k, m);
        assert PartialConvolution(F, a, b, n)(k) == Convolution(F, a, b, k, n);
        AddZeroRight(F, prev(k));
      }
      SeriesAdd(F, PartialConvolution(F, a, b, n), prev, row, x, N);
      EvalShiftedRow(F, b, c, m, x, N);
      var A := PowerSum(F, a[..m], x);
      var M := Pow(F, x, m);
      assert a[..n][..m] == a[..m];
      calc {
        F.add(F.mul(A, B), F.mul(M, F.mul(c, B)));
        { calc {
            F.mul(M, F.mul(c, B));
            F.mul(F.mul(M, c), B);
            { assert F.mul(M, c) == F.mul(c, M); }
            F.mul(F.mul(c, M), B);
          } }
        F.add(F.mul(A, B), F.mul(F.mul(c, M), B));
        { MulAddRight(F, A, F.mul(c, M), B); }
        F.mul(F.add(A, F.mul(c, M)), B);
        F.mul(PowerSum(F, a[..n], x), B);
      }
    }
  }
}
