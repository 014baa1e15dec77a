/** Systematic Reed-Solomon encoding (src/encoder.rs). */
module Encoder {
  import opened Fields
  import opened Polynomials
  import opened Outcomes

  /** The generator [ONE]·(x - e_0)·...·(x - e_{n-1}) over the first n
      elements e_i = ALPHA^i of the field's sequence, multiplied in order. */
  function Generator<E>(F: Field<E>, n: nat): (g: Polynomial<E>)
    ensures |g| == n + 1
  {
    if n == 0 then [F.one]
    else Product(F, Generator(F, n - 1), [F.neg(Pow(F, F.alpha, n - 1)), F.one])
  }

  /** The generator's highest coefficient is ONE. */
  lemma {:induction false} GeneratorMonic<E(!new)>(F: Field<E>, n: nat)
    requires IsField(F)
    ensures Generator(F, n)[n] == F.one
  {
    if n > 0 {
      GeneratorMonic(F, n - 1);
      var a := Generator(F, n - 1);
      var b := [F.neg(Pow(F, F.alpha, n - 1)), F.one];
      ConvolutionPastEnd(F, a, b, n, n - 1);
    }
  }

  /** The factor x - e vanishes at e. */
  lemma FactorRoot<E(!new)>(F: Field<E>, e: E)
    requires IsField(F)
    ensures PowerSum(F, [F.neg(e), F.one], e) == F.zero
  {
    EvalLine(F, F.neg(e), F.one, e);
    assert F.mul(F.one, e) == e;
    assert F.add(e, F.neg(e)) == F.add(F.neg(e), e);
  }

  /** Every e_i with i < n is a root of the generator. */
  lemma {:induction false} GeneratorRoots<E(!new)>(F: Field<E>, n: nat)
    requires IsField(F)
    ensures forall i :: 0 <= i < n ==> PowerSum(F, Generator(F, n), Pow(F, F.alpha, i)) == F.zero
  {
    if n > 0 {
      GeneratorRoots(F, n - 1);
      forall i | 0 <= i < n
        ensures PowerSum(F, Generator(F, n), Pow(F, F.alpha, i)) == F.zero
      {
        RootCarriesOver(F, n, i);
      }
    }
  }

  /** A root of the first n - 1 factors, or e_{n-1}, is a root of n factors. */
  lemma RootCarriesOver<E(!new)>(F: Field<E>, n: nat, i: nat)
    requires IsField(F)
    requires i < n
    requires i < n - 1 ==> PowerSum(F, Generator(F, n - 1), Pow(F, F.alpha, i)) == F.zero
    ensures PowerSum(F, Generator(F, n), Pow(F, F.alpha, i)) == F.zero
  {
    var e := Pow(F, F.alpha, n - 1);
    var x := Pow(F, F.alpha, i);
    if i < n - 1 {
      ProductRoot(F, Generator(F, n - 1), [F.neg(e), F.one], x);
    } else {
      FactorRoot(F, e);
      ProductRoot(F, [F.neg(e), F.one], Generator(F, n - 1), x);
    }
  }

  /** A root of either factor is a root of the product. */
  lemma ProductRoot<E(!new)>(F: Field<E>, a: Polynomial<E>, b: Polynomial<E>, x: E)
    requires IsField(F)
    requires 1 <= |a| + |b|
    requires PowerSum(F, a, x) == F.zero
    ensures PowerSum(F, Product(F, a, b), x) == F.zero
    ensures PowerSum(F, Product(F, b, a), x) == F.zero
  {
    EvalProduct(F, a, b, x);
    EvalProduct(F, b, a, x);
    MulZero(F, PowerSum(F, b, x));
  }

  /** The divisor loop of `encode`: [ONE] multiplied in turn by x - e for
      each of the first n elements e of the field's sequence.  The entry
      assertion of `encode` keeps n below SEQUENCE_LENGTH, so no product
      length overflows. */
  method GeneratorPolynomial<E>(F: Field<E>, n: nat) returns (divisor: Polynomial<E>)
    requires n + 2 <= USIZE_MAX
    ensures divisor == Generator(F, n)
  {
    var sequence := Sequence(F, n);
    divisor := [F.one];
    for i := 0 to n
      invariant divisor == Generator(F, i)
    {
      divisor := MulRoot(F, divisor, i, n, sequence[i]);
    }
  }

  /** One step of the fold: the generator of i roots times (x - root), with
      root == ALPHA^i, is the generator of i + 1 roots.  i < n keeps the
      product length within usize. */
  method MulRoot<E>(F: Field<E>, divisor: Polynomial<E>, i: nat, n: nat, root: E) returns (next: Polynomial<E>)
    requires i < n && n + 2 <= USIZE_MAX
    requires divisor == Generator(F, i) && root == Pow(F, F.alpha, i)
    ensures next == Generator(F, i + 1)
  {
    var product := Mul(F, divisor, [F.neg(root), F.one]);
    next := product.value;
  }

  /** `encode(elements, error_codewords)`: the message shifted up by
      `error_codewords` places, made divisible by the generator. */
  method Encode<E(==,!new)>(F: Field<E>, elements: seq<E>, errorCodewords: nat) returns (r: Result<seq<E>>)
    requires IsField(F)
    ensures r.Success? <==> |elements| + errorCodewords < F.sequenceLength
    ensures r.Success? ==> |r.value| == |elements| + errorCodewords
    ensures r.Success? ==> forall i :: 0 <= i < |elements| ==> r.value[errorCodewords + i] == elements[i]
    ensures r.Success? ==>
      forall i :: 0 <= i < errorCodewords ==> PowerSum(F, r.value, Pow(F, F.alpha, i)) == F.zero
  {
    if |elements| + errorCodewords >= F.sequenceLength {
      return Failure("assertion failed: elements.len() + error_codewords < T::SEQUENCE_LENGTH");
    }
    var divisor := GeneratorPolynomial(F, errorCodewords);
    assert divisor[errorCodewords] == F.one by {
      GeneratorMonic(F, errorCodewords);
    }
    var shifted := ShiftBy(F, elements, errorCodewords);
    assert forall i :: 0 <= i < |elements| ==> shifted[errorCodewords + i] == elements[i];
    var divisible := BecomeDivisible(F, shifted, divisor);
    assert forall i :: 0 <= i < errorCodewords ==>
        PowerSum(F, divisible.value, Pow(F, F.alpha, i)) == F.zero by {
      GeneratorRoots(F, errorCodewords);
    }
    return Success(divisible.value);
  }
}
