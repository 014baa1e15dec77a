/** The field capability of the codec (src/field.rs): a finite field given by
    its constants and its four operations.  The trait is passed explicitly as
    a record, and the laws its documentation promises ("a Galois field", ALPHA
    a multiplicative generator, ORDER at most 2^64) are the ghost predicate
    `IsField`, which the algorithms that need them take as a precondition. */
module Fields {

  /** 2^64: the order is a `u64`, so it lies below this. */
  const TWO_TO_THE_64: nat := 0x1_0000_0000_0000_0000

  /** Constants and operations of one field.  `sequenceLength` is the size of
      the multiplicative group, which bounds the length of a codeword; `inv`
      is partial, since inverting ZERO is an error. */
  datatype Field<!E> = Field(
    order: nat,
    sequenceLength: nat,
    zero: E,
    one: E,
    alpha: E,
    add: (E, E) -> E,
    mul: (E, E) -> E,
    neg: E -> E,
    inv: E --> E)

  /** x^n, accumulated by multiplying on the right one factor at a time, as
      the running powers of the decoder and of the encoder's generator are. */
  function Pow<E>(F: Field<E>, x: E, n: nat): E
  {
    if n == 0 then F.one else F.mul(Pow(F, x, n - 1), x)
  }

  /** One more factor of x. */
  lemma PowNext<E>(F: Field<E>, x: E, n: nat)
    ensures Pow(F, x, n + 1) == F.mul(Pow(F, x, n), x)
  {
  }

  /** `T::sequence()`, cut to its first n elements: ALPHA^0, ALPHA^1, ... */
  function Sequence<E>(F: Field<E>, n: nat): (s: seq<E>)
    ensures |s| == n
    ensures forall i :: 0 <= i < n ==> s[i] == Pow(F, F.alpha, i)
  {
    seq(n, i requires 0 <= i < n => Pow(F, F.alpha, i))
  }

  /** The laws of addition.  Each equation is instantiated only when both of
      its sides already occur in a proof (the multi-triggers), so that the
      laws never generate fresh terms on their own. */
  ghost predicate AdditionLaws<E(!new)>(F: Field<E>)
  {
    && (forall a, b, c {:trigger F.add(a, F.add(b, c)), F.add(F.add(a, b), c)} ::
          F.add(a, F.add(b, c)) == F.add(F.add(a, b), c))
    && (forall a, b {:trigger F.add(a, b), F.add(b, a)} :: F.add(a, b) == F.add(b, a))
    && (forall a {:trigger F.add(F.zero, a)} :: F.add(F.zero, a) == a)
    && (forall a {:trigger F.add(a, F.neg(a))} :: F.add(a, F.neg(a)) == F.zero)
  }

  /** The laws of multiplication and distributivity, triggered as above. */
  ghost predicate MultiplicationLaws<E(!new)>(F: Field<E>)
  {
    && (forall a, b, c {:trigger F.mul(a, F.mul(b, c)), F.mul(F.mul(a, b), c)} ::
          F.mul(a, F.mul(b, c)) == F.mul(F.mul(a, b), c))
    && (forall a, b {:trigger F.mul(a, b), F.mul(b, a)} :: F.mul(a, b) == F.mul(b, a))
    && (forall a {:trigger F.mul(F.one, a)} :: F.mul(F.one, a) == a)
    && (forall a, b, c {:trigger F.mul(a, F.add(b, c)), F.add(F.mul(a, b), F.mul(a, c))} ::
          F.mul(a, F.add(b, c)) == F.add(F.mul(a, b), F.mul(a, c)))
    && (forall a :: a != F.zero ==> F.inv.requires(a))
    && (forall a :: a != F.zero && F.inv.requires(a) ==> F.mul(a, F.inv(a)) == F.one)
  }

  /** e is among the first ORDER - 1 powers of ALPHA. */
  ghost predicate IsPowerOfAlpha<E(!new)>(F: Field<E>, e: E)
  {
    exists k: nat :: k < F.sequenceLength && Pow(F, F.alpha, k) == e
  }

  /** ALPHA generates the multiplicative group. */
  ghost predicate Generates<E(!new)>(F: Field<E>)
  {
    forall e :: e != F.zero ==> IsPowerOfAlpha(F, e)
  }

  /** The promises of the `Field` trait. */
  ghost predicate IsField<E(!new)>(F: Field<E>)
  {
    && AdditionLaws(F)
    && MultiplicationLaws(F)
    && F.zero != F.one
    && F.alpha != F.zero
    && Generates(F)
    && F.sequenceLength + 1 == F.order
    && F.order < TWO_TO_THE_64
  }

  lemma AddZeroRight<E(!new)>(F: Field<E>, a: E)
    requires IsField(F)
    ensures F.add(a, F.zero) == a
  {
    assert F.add(a, F.zero) == F.add(F.zero, a);
  }

  /** ZERO annihilates: a·0 = 0·a = 0. */
  lemma MulZero<E(!new)>(F: Field<E>, a: E)
    requires IsField(F)
    ensures F.mul(a, F.zero) == F.zero && F.mul(F.zero, a) == F.zero
  {
    var p := F.mul(a, F.zero);
    calc {
      p;
      { AddZeroRight(F, p); }
      F.add(p, F.zero);
      F.add(p, F.add(p, F.neg(p)));
      F.add(F.add(p, p), F.neg(p));
      { assert F.mul(a, F.add(F.zero, F.zero)) == F.add(p, p); }
      F.add(F.mul(a, F.add(F.zero, F.zero)), F.neg(p));
      F.add(p, F.neg(p));
      F.zero;
    }
    assert F.mul(F.zero, a) == p;
  }

  /** The additive inverse is unique. */
  lemma NegUnique<E(!new)>(F: Field<E>, a: E, b: E)
    requires IsField(F)
    requires F.add(a, b) == F.zero
    ensures b == F.neg(a)
  {
    calc {
      b;
      F.add(F.zero, b);
      F.add(F.add(a, F.neg(a)), b);
      { assert F.add(a, F.neg(a)) == F.add(F.neg(a), a); }
      F.add(F.add(F.neg(a), a), b);
      F.add(F.neg(a), F.add(a, b));
      F.add(F.neg(a), F.zero);
      { AddZeroRight(F, F.neg(a)); }
      F.neg(a);
    }
  }

  /** a + x = b is solved by x = b - a, and by nothing else. */
  lemma AddCancel<E(!new)>(F: Field<E>, a: E, x: E, y: E)
    requires IsField(F)
    requires F.add(a, x) == F.add(a, y)
    ensures x == y
  {
    calc {
      x;
      F.add(F.zero, x);
      { assert F.add(a, F.neg(a)) == F.add(F.neg(a), a); }
      F.add(F.add(F.neg(a), a), x);
      F.add(F.neg(a), F.add(a, x));
      F.add(F.neg(a), F.add(a, y));
      F.add(F.add(F.neg(a), a), y);
      { assert F.add(a, F.neg(a)) == F.add(F.neg(a), a); }
      F.add(F.zero, y);
      y;
    }
  }

  /** neg(a·b) = a·neg(b). */
  lemma MulNeg<E(!new)>(F: Field<E>, a: E, b: E)
    requires IsField(F)
    ensures F.mul(a, F.neg(b)) == F.neg(F.mul(a, b))
  {
    calc {
      F.add(F.mul(a, b), F.mul(a, F.neg(b)));
      F.mul(a, F.add(b, F.neg(b)));
      F.mul(a, F.zero);
      { MulZero(F, a); }
      F.zero;
    }
    NegUnique(F, F.mul(a, b), F.mul(a, F.neg(b)));
  }

  lemma NegZero<E(!new)>(F: Field<E>)
    requires IsField(F)
    ensures F.neg(F.zero) == F.zero
  {
    AddZeroRight(F, F.zero);
    NegUnique(F, F.zero, F.zero);
  }

  /** Negation is its own inverse. */
  lemma NegNeg<E(!new)>(F: Field<E>, a: E)
    requires IsField(F)
    ensures F.neg(F.neg(a)) == a
  {
    assert F.add(F.neg(a), a) == F.add(a, F.neg(a));
    NegUnique(F, F.neg(a), a);
  }

  /** neg distributes over add. */
  lemma NegAdd<E(!new)>(F: Field<E>, a: E, b: E)
    requires IsField(F)
    ensures F.neg(F.add(a, b)) == F.add(F.neg(a), F.neg(b))
  {
    calc {
      F.add(F.add(a, b), F.add(F.neg(a), F.neg(b)));
      F.add(a, F.add(b, F.add(F.neg(a), F.neg(b))));
      { calc {
          F.add(b, F.add(F.neg(a), F.neg(b)));
          F.add(F.add(b, F.neg(a)), F.neg(b));
          F.add(F.add(F.neg(a), b), F.neg(b));
          F.add(F.neg(a), F.add(b, F.neg(b)));
        } }
      F.add(a, F.add(F.neg(a), F.add(b, F.neg(b))));
      F.add(a, F.add(F.neg(a), F.zero));
      { AddZeroRight(F, F.neg(a)); }
      F.add(a, F.neg(a));
      F.zero;
    }
    NegUnique(F, F.add(a, b), F.add(F.neg(a), F.neg(b)));
  }

  /** A product is ZERO only when a factor is. */
  lemma NoZeroDivisors<E(!new)>(F: Field<E>, a: E, b: E)
    requires IsField(F)
    requires a != F.zero && b != F.zero
    ensures F.mul(a, b) != F.zero
  {
    calc {
      F.mul(F.inv(a), F.mul(a, b));
      F.mul(F.mul(F.inv(a), a), b);
      { assert F.mul(a, F.inv(a)) == F.mul(F.inv(a), a); }
      F.mul(F.one, b);
      b;
    }
    MulZero(F, F.inv(a));
  }

  /** Dividing by a nonzero element undoes multiplying by it. */
  lemma MulInvCancel<E(!new)>(F: Field<E>, a: E, b: E)
    requires IsField(F)
    requires a != F.zero
    ensures F.mul(a, F.mul(b, F.inv(a))) == b
  {
    calc {
      F.mul(a, F.mul(b, F.inv(a)));
      F.mul(a, F.mul(F.inv(a), b));
      F.mul(F.mul(a, F.inv(a)), b);
      F.mul(F.one, b);
      b;
    }
  }

  lemma {:induction false} PowNonZero<E(!new)>(F: Field<E>, x: E, n: nat)
    requires IsField(F)
    requires x != F.zero
    ensures Pow(F, x, n) != F.zero
  {
    if n > 0 {
      PowNonZero(F, x, n - 1);
      NoZeroDivisors(F, Pow(F, x, n - 1), x);
    }
  }

  /** x^(m+n) = x^m · x^n. */
  lemma {:induction false} PowAdd<E(!new)>(F: Field<E>, x: E, m: nat, n: nat)
    requires IsField(F)
    ensures Pow(F, x, m + n) == F.mul(Pow(F, x, m), Pow(F, x, n))
  {
    if n == 0 {
      assert F.mul(Pow(F, x, m), F.one) == F.mul(F.one, Pow(F, x, m));
    } else {
      PowAdd(F, x, m, n - 1);
      calc {
        Pow(F, x, m + n);
        F.mul(Pow(F, x, m + n - 1), x);
        F.mul(F.mul(Pow(F, x, m), Pow(F, x, n - 1)), x);
        F.mul(Pow(F, x, m), F.mul(Pow(F, x, n - 1), x));
        F.mul(Pow(F, x, m), Pow(F, x, n));
      }
    }
  }

  /** (x^m)^n = x^(m·n). */
  lemma {:induction false} PowPow<E(!new)>(F: Field<E>, x: E, m: nat, n: nat)
    requires IsField(F)
    ensures Pow(F, Pow(F, x, m), n) == Pow(F, x, m * n)
  {
    if n > 0 {
      PowPow(F, x, m, n - 1);
      calc {
        Pow(F, Pow(F, x, m), n);
        F.mul(Pow(F, x, m * (n - 1)), Pow(F, x, m));
        { PowAdd(F, x, m * (n - 1), m); }
        Pow(F, x, m * (n - 1) + m);
        { assert m * (n - 1) + m == m * n; }
        Pow(F, x, m * n);
      }
    }
  }

  /** (x·y)^n = x^n · y^n. */
  lemma {:induction false} PowOfProduct<E(!new)>(F: Field<E>, x: E, y: E, n: nat)
    requires IsField(F)
    ensures Pow(F, F.mul(x, y), n) == F.mul(Pow(F, x, n), Pow(F, y, n))
  {
    if n > 0 {
      PowOfProduct(F, x, y, n - 1);
      var a, b := Pow(F, x, n - 1), Pow(F, y, n - 1);
      calc {
        Pow(F, F.mul(x, y), n);
        F.mul(F.mul(a, b), F.mul(x, y));
        F.mul(a, F.mul(b, F.mul(x, y)));
        { calc {
            F.mul(b, F.mul(x, y));
            F.mul(F.mul(b, x), y);
            F.mul(F.mul(x, b), y);
            F.mul(x, F.mul(b, y));
          } }
        F.mul(a, F.mul(x, F.mul(b, y)));
        F.mul(F.mul(a, x), F.mul(b, y));
      }
    }
  }

  /** The n-th power of the inverse is the inverse of the n-th power. */
  lemma InvPow<E(!new)>(F: Field<E>, x: E, n: nat)
    requires IsField(F)
    requires x != F.zero
    ensures Pow(F, F.inv(x), n) != F.zero
    ensures F.inv(Pow(F, F.inv(x), n)) == Pow(F, x, n)
  {
    PowOfProduct(F, x, F.inv(x), n);
    PowOne(F, n);
    var p, q := Pow(F, x, n), Pow(F, F.inv(x), n);
    assert F.mul(p, q) == F.one;
    if q == F.zero {
      MulZero(F, p);
    }
    InvUnique(F, q, p);
  }

  lemma {:induction false} PowOne<E(!new)>(F: Field<E>, n: nat)
    requires IsField(F)
    ensures Pow(F, F.one, n) == F.one
  {
    if n > 0 {
      PowOne(F, n - 1);
    }
  }

  /** The multiplicative inverse is unique. */
  lemma InvUnique<E(!new)>(F: Field<E>, a: E, b: E)
    requires IsField(F)
    requires a != F.zero
    requires F.mul(b, a) == F.one
    ensures F.inv(a) == b
  {
    calc {
      F.inv(a);
      F.mul(F.one, F.inv(a));
      F.mul(F.mul(b, a), F.inv(a));
      F.mul(b, F.mul(a, F.inv(a)));
      F.mul(b, F.one);
      F.mul(F.one, b);
      b;
    }
  }

  /** (a + b) + (c + d) = (a + c) + (b + d). */
  lemma AddSwap<E(!new)>(F: Field<E>, a: E, b: E, c: E, d: E)
    requires IsField(F)
    ensures F.add(F.add(a, b), F.add(c, d)) == F.add(F.add(a, c), F.add(b, d))
  {
    calc {
      F.add(F.add(a, b), F.add(c, d));
      F.add(a, F.add(b, F.add(c, d)));
      F.add(a, F.add(F.add(b, c), d));
      { assert F.add(b, c) == F.add(c, b); }
      F.add(a, F.add(F.add(c, b), d));
      F.add(a, F.add(c, F.add(b, d)));
      F.add(F.add(a, c), F.add(b, d));
    }
  }

  /** Multiplication distributes over addition from the right too. */
  lemma MulAddRight<E(!new)>(F: Field<E>, a: E, b: E, c: E)
    requires IsField(F)
    ensures F.mul(F.add(a, b), c) == F.add(F.mul(a, c), F.mul(b, c))
  {
    calc {
      F.mul(F.add(a, b), c);
      F.mul(c, F.add(a, b));
      F.add(F.mul(c, a), F.mul(c, b));
      { assert F.mul(c, a) == F.mul(a, c); assert F.mul(c, b) == F.mul(b, c); }
      F.add(F.mul(a, c), F.mul(b, c));
    }
  }
}
