/** Decoding (src/decoder.rs): syndromes, the error locator solved from the
    syndrome (Hankel) system, the root search over positions, and the
    correction magnitudes solved from the locator (Vandermonde) system. */
module Decoder {
  import opened Fields
  import opened Outcomes
  import opened Polynomials
  import opened Reduction
  import Matrices
  import Encoder

  /** What a decode found along the way: the syndromes, the values emitted
      by reducing the locator system and the reduced grid, the locator, the
      located positions, and the magnitudes emitted by reducing the
      correction system and that reduced grid. */
  datatype DecodeTrace<E> = DecodeTrace(
    syndromes: seq<E>,
    emitted: seq<E>, hankel: seq<seq<E>>,
    locator: Polynomial<E>,
    locations: seq<nat>,
    magnitudes: seq<E>, correction: seq<seq<E>>)

  /** The word evaluates to ZERO at ALPHA^0 … ALPHA^(n-1). */
  ghost predicate SyndromesVanish<E>(F: Field<E>, word: seq<E>, n: nat)
  {
    forall i :: 0 <= i < n ==> PowerSum(F, word, Pow(F, F.alpha, i)) == F.zero
  }

  // ---------------------------------------------------------------------
  // Syndromes

  /** syndrome i is the received word evaluated at ALPHA^i. */
  method Syndromes<E(!new)>(F: Field<E>, elements: seq<E>, errorCodewords: nat) returns (syndromes: seq<E>)
    requires IsField(F)
    ensures |syndromes| == errorCodewords
    ensures forall i :: 0 <= i < errorCodewords ==> syndromes[i] == PowerSum(F, elements, Pow(F, F.alpha, i))
  {
    var alphaN := F.one;
    syndromes := [];
    for i := 0 to errorCodewords
      invariant |syndromes| == i
      invariant alphaN == Pow(F, F.alpha, i)
      invariant forall k :: 0 <= k < i ==> syndromes[k] == PowerSum(F, elements, Pow(F, F.alpha, k))
    {
      var x := alphaN;
      alphaN := F.mul(alphaN, F.alpha);
      var out := SyndromeAt(F, elements, x);
      syndromes := syndromes + [out];
    }
  }

  /** The body of the syndrome closure: the word evaluated at x, with the
      running power x^n multiplied by x on the left after each term. */
  method SyndromeAt<E(!new)>(F: Field<E>, elements: seq<E>, x: E) returns (out: E)
    requires IsField(F)
    ensures out == PowerSum(F, elements, x)
  {
    out := F.zero;
    var xN := F.one;
    for j := 0 to |elements|
      invariant out == PowerSum(F, elements[..j], x)
      invariant xN == Pow(F, x, j)
    {
      assert PowerSum(F, elements[..j + 1], x) == F.add(out, F.mul(elements[j], xN)) by {
        assert elements[..j + 1][..j] == elements[..j];
      }
      out := F.add(out, F.mul(elements[j], xN));
      assert F.mul(x, xN) == Pow(F, x, j + 1) by {
        assert F.mul(x, xN) == F.mul(xN, x);
      }
      xN := F.mul(x, xN);
    }
    assert elements[..|elements|] == elements;
  }

  // ---------------------------------------------------------------------
  // Corrections change the evaluations by the added amounts

  /** Adding d to coefficient i adds d·x^i to the value at x. */
  lemma {:induction false} PowerSumUpdate<E(!new)>(F: Field<E>, p: seq<E>, i: nat, d: E, x: E)
    requires IsField(F)
    requires i < |p|
    ensures PowerSum(F, p[i := F.add(p[i], d)], x) == F.add(PowerSum(F, p, x), F.mul(d, Pow(F, x, i)))
    decreases |p|
  {
    var q := p[i := F.add(p[i], d)];
    var n := |p|;
    var A := PowerSum(F, p[..n - 1], x);
    var dX := F.mul(d, Pow(F, x, i));
    if i == n - 1 {
      assert q[..n - 1] == p[..n - 1];
      var pX := F.mul(p[i], Pow(F, x, i));
      calc {
        PowerSum(F, q, x);
        F.add(A, F.mul(F.add(p[i], d), Pow(F, x, i)));
        { MulAddRight(F, p[i], d, Pow(F, x, i)); }
        F.add(A, F.add(pX, dX));
        F.add(F.add(A, pX), dX);
      }
    } else {
      var front := p[..n - 1];
      var last := F.mul(p[n - 1], Pow(F, x, n - 1));
      assert PowerSum(F, q[..n - 1], x) == F.add(A, dX) by {
        assert q[..n - 1] == front[i := F.add(front[i], d)];
        PowerSumUpdate(F, front, i, d, x);
      }
      assert q[n - 1] == p[n - 1];
      calc {
        PowerSum(F, q, x);
        F.add(PowerSum(F, q[..n - 1], x), last);
        F.add(F.add(A, dX), last);
        F.add(A, F.add(dX, last));
        F.add(A, F.add(last, dX));
        F.add(F.add(A, last), dX);
      }
    }
  }

  /** Σ_{j<k} mags[j]·x^(locations[L-1-j]): the first k corrections, in pop
      order (the last location first). */
  function Corrections<E>(F: Field<E>, x: E, locations: seq<nat>, mags: seq<E>, k: nat): E
    requires k <= |mags| && k <= |locations|
  {
    if k == 0 then F.zero
    else F.add(Corrections(F, x, locations, mags, k - 1),
               F.mul(mags[k - 1], Pow(F, x, locations[|locations| - k])))
  }

  /** One more correction: the value drops by one more term. */
  lemma CorrectionStep<E(!new)>(F: Field<E>, P: E, C: E, m: E, X: E)
    requires IsField(F)
    ensures F.add(F.add(P, F.neg(C)), F.mul(F.neg(m), X)) == F.add(P, F.neg(F.add(C, F.mul(m, X))))
  {
    calc {
      F.mul(F.neg(m), X);
      F.mul(X, F.neg(m));
      { MulNeg(F, X, m); }
      F.neg(F.mul(X, m));
      { assert F.mul(X, m) == F.mul(m, X); }
      F.neg(F.mul(m, X));
    }
    calc {
      F.add(F.add(P, F.neg(C)), F.neg(F.mul(m, X)));
      F.add(P, F.add(F.neg(C), F.neg(F.mul(m, X))));
      { NegAdd(F, C, F.mul(m, X)); }
      F.add(P, F.neg(F.add(C, F.mul(m, X))));
    }
  }

  /** The corrections in pop order are the system's row sums with the
      values read in variable order. */
  lemma {:induction false} CorrectionsAsRowSum<E(!new)>(F: Field<E>, x: E, locations: seq<nat>, mags: seq<E>, row: seq<E>, k: nat)
    requires IsField(F)
    requires |mags| == |locations| <= |row|
    requires forall c :: 0 <= c < |locations| ==> row[c] == Pow(F, x, locations[c])
    requires k <= |mags|
    ensures Corrections(F, x, locations, mags, k) == SumRange(F, row, Reversed(mags), |mags| - k, |mags|)
  {
    if k > 0 {
      var L := |mags|;
      var c := L - k;
      var R := Reversed(mags);
      var prev := Corrections(F, x, locations, mags, k - 1);
      assert prev == SumRange(F, row, R, c + 1, L) by {
        CorrectionsAsRowSum(F, x, locations, mags, row, k - 1);
        assert L - (k - 1) == c + 1;
      }
      var term := F.mul(mags[k - 1], Pow(F, x, locations[c]));
      assert term == F.mul(row[c], R[c]) by {
        assert R[c] == mags[k - 1];
      }
      assert Corrections(F, x, locations, mags, k) == F.add(prev, term) by {
        assert |locations| - k == c;
      }
      assert SumRange(F, row, R, c, L) == F.add(F.mul(row[c], R[c]), SumRange(F, row, R, c + 1, L));
    }
  }

  // ---------------------------------------------------------------------
  // The error locator

  /** The t × (t+1) locator system: cell (r, c) is syndromes[r + c], the
      last column the right-hand side. */
  ghost function HankelSystem<E>(syndromes: seq<E>, t: nat): (G: seq<seq<E>>)
    requires 2 * t <= |syndromes|
    ensures IsGrid(G, t, t + 1)
    ensures forall r, c :: 0 <= r < t && 0 <= c <= t ==> G[r][c] == syndromes[r + c]
  {
    seq(t, r requires 0 <= r < t => syndromes[r..r + t + 1])
  }

  /** The feedback taps of a locator of degree d, in variable order: tap c
      is -locator[d - c]. */
  function Taps<E>(F: Field<E>, locator: Polynomial<E>): (x: seq<E>)
    requires 1 <= |locator|
    ensures |x| == |locator| - 1
    ensures forall c :: 0 <= c < |x| ==> x[c] == F.neg(locator[|locator| - 1 - c])
  {
    seq(|locator| - 1, c requires 0 <= c < |locator| - 1 => F.neg(locator[|locator| - 1 - c]))
  }

  /** The syndromes follow the linear recurrence the locator encodes: over
      each of the t rows of the locator system, syndromes[r + d] is the sum of
      syndromes[r + c]·tap c over c < d, d being the locator's degree. */
  ghost predicate FollowsRecurrence<E>(F: Field<E>, locator: Polynomial<E>, syndromes: seq<E>, t: nat)
    requires 1 <= |locator| <= t + 1 && 2 * t <= |syndromes|
  {
    forall r :: 0 <= r < t ==>
      SumRange(F, HankelSystem(syndromes, t)[r], Taps(F, locator), 0, |locator| - 1) == syndromes[r + |locator| - 1]
  }

  /** The locator system: t rows over t+1 columns, cell (y, x) = syndromes[x + y];
      the locator is ONE followed by the negated values reduce_matrix emits,
      in emission order, and the syndromes follow its recurrence whatever the
      number of pivots. */
  method LocatorPolynomial<E(==,!new)>(F: Field<E>, syndromes: seq<E>, t: nat)
    returns (locator: Polynomial<E>, pushed: seq<E>, ghost reduced: seq<seq<E>>)
    requires IsField(F)
    requires 2 * t <= |syndromes|
    ensures |pushed| <= t
    ensures ReductionOf(F, HankelSystem(syndromes, t), t + 1, pushed, reduced)
    ensures |locator| == |pushed| + 1 && locator[0] == F.one
    ensures forall k :: 0 <= k < |pushed| ==> locator[k + 1] == F.neg(pushed[k])
    ensures FollowsRecurrence(F, locator, syndromes, t)
  {
    var m := new E[t, t + 1]((y, x) requires 0 <= y < t && 0 <= x < t + 1 => syndromes[x + y]);
    HankelGrid(syndromes, t, m);
    pushed, reduced := ReduceMatrix(F, m);
    locator := [F.one];
    for k := 0 to |pushed|
      invariant |locator| == k + 1 && locator[0] == F.one
      invariant forall j :: 0 <= j < k ==> locator[j + 1] == F.neg(pushed[j])
    {
      locator := locator + [F.neg(pushed[k])];
    }
    RecurrenceFromReduction(F, syndromes, t, pushed, reduced, locator);
  }

  /** The grid built from the syndromes is the locator system. */
  lemma HankelGrid<E>(syndromes: seq<E>, t: nat, m: array2<E>)
    requires 2 * t <= |syndromes|
    requires m.Length0 == t && m.Length1 == t + 1
    requires forall y, x :: 0 <= y < t && 0 <= x < t + 1 ==> m[y, x] == syndromes[x + y]
    ensures Grid(m) == HankelSystem(syndromes, t)
  {
    var G := Grid(m);
    forall r | 0 <= r < t
      ensures G[r] == HankelSystem(syndromes, t)[r]
    {
      assert forall c :: 0 <= c <= t ==> G[r][c] == syndromes[r + c];
    }
  }

  /** Whatever the number of pivots, the locator built from the values
      emitted on the locator system makes the syndromes follow its recurrence. */
  lemma RecurrenceFromReduction<E(!new)>(F: Field<E>, syndromes: seq<E>, t: nat, pushed: seq<E>, reduced: seq<seq<E>>, locator: Polynomial<E>)
    requires IsField(F)
    requires 2 * t <= |syndromes|
    requires ReductionOf(F, HankelSystem(syndromes, t), t + 1, pushed, reduced)
    requires |locator| == |pushed| + 1
    requires forall k :: 0 <= k < |pushed| ==> locator[k + 1] == F.neg(pushed[k])
    ensures FollowsRecurrence(F, locator, syndromes, t)
  {
    ReductionSolves(F, HankelSystem(syndromes, t), t + 1, pushed, reduced);
    TapsOfEmitted(F, locator, pushed);
  }

  /** The taps of ONE followed by the negated emitted values are the emitted
      values in variable order. */
  lemma TapsOfEmitted<E(!new)>(F: Field<E>, locator: Polynomial<E>, pushed: seq<E>)
    requires IsField(F)
    requires |locator| == |pushed| + 1
    requires forall k :: 0 <= k < |pushed| ==> locator[k + 1] == F.neg(pushed[k])
    ensures Taps(F, locator) == Reversed(pushed)
  {
    forall c | 0 <= c < |pushed|
      ensures Taps(F, locator)[c] == Reversed(pushed)[c]
    {
      var k := |pushed| - 1 - c;
      assert locator[k + 1] == F.neg(pushed[k]);
      NegNeg(F, pushed[k]);
    }
  }

  /** The locator as solved from the syndromes over t = |syndromes| / 2
      rows: the emitted values and the reduced grid are the reduction of the
      locator system, the locator is ONE followed by the negated values, and
      the syndromes follow its recurrence. */
  ghost predicate LocatorSolved<E(!new)>(F: Field<E>, syndromes: seq<E>, emitted: seq<E>, hankel: seq<seq<E>>, locator: Polynomial<E>)
  {
    && ReductionOf(F, HankelSystem(syndromes, |syndromes| / 2), |syndromes| / 2 + 1, emitted, hankel)
    && |locator| == |emitted| + 1 && locator[0] == F.one
    && (forall k :: 0 <= k < |emitted| ==> locator[k + 1] == F.neg(emitted[k]))
    && FollowsRecurrence(F, locator, syndromes, |syndromes| / 2)
  }

  // ---------------------------------------------------------------------
  // The root search

  /** The positions i < n, in increasing order, where the locator vanishes
      at point^i. */
  ghost function Roots<E>(F: Field<E>, locator: Polynomial<E>, point: E, n: nat): seq<nat>
  {
    if n == 0 then []
    else
      var earlier := Roots(F, locator, point, n - 1);
      if PowerSum(F, locator, Pow(F, point, n - 1)) == F.zero then earlier + [n - 1] else earlier
  }

  /** The located positions are in range, strictly increasing, and exactly
      the positions where the locator vanishes. */
  lemma {:induction false} RootsProperties<E>(F: Field<E>, locator: Polynomial<E>, point: E, n: nat)
    ensures forall k :: 0 <= k < |Roots(F, locator, point, n)| ==> Roots(F, locator, point, n)[k] < n
    ensures forall k, k' :: 0 <= k < k' < |Roots(F, locator, point, n)| ==>
      Roots(F, locator, point, n)[k] < Roots(F, locator, point, n)[k']
    ensures forall i :: 0 <= i < n ==>
      (i in Roots(F, locator, point, n) <==> PowerSum(F, locator, Pow(F, point, i)) == F.zero)
  {
    if n > 0 {
      RootsProperties(F, locator, point, n - 1);
    }
  }

  /** The locator value of each position: ALPHA to that position. */
  ghost function LocatorValues<E>(F: Field<E>, locations: seq<nat>): (x: seq<E>)
    ensures |x| == |locations|
    ensures forall k :: 0 <= k < |locations| ==> x[k] == Pow(F, F.alpha, locations[k])
  {
    seq(|locations|, k requires 0 <= k < |locations| => Pow(F, F.alpha, locations[k]))
  }

  /** The root search: position i is located when the locator vanishes at
      ALPHA^-i, and its locator value, the inverse of that point, is ALPHA^i. */
  method FindRoots<E(==,!new)>(F: Field<E>, locator: Polynomial<E>, n: nat) returns (locations: seq<nat>, locators: seq<E>)
    requires IsField(F)
    ensures locations == Roots(F, locator, F.inv(F.alpha), n)
    ensures |locators| == |locations|
    ensures forall k :: 0 <= k < |locations| ==> locators[k] == Pow(F, F.alpha, locations[k])
  {
    var invAlpha := F.inv(F.alpha);
    var invAlphaN := F.one;
    locations, locators := [], [];
    for i := 0 to n
      invariant invAlphaN == Pow(F, invAlpha, i)
      invariant locations == Roots(F, locator, invAlpha, i)
      invariant |locators| == |locations|
      invariant forall k :: 0 <= k < |locations| ==> locators[k] == Pow(F, F.alpha, locations[k])
    {
      var evalOn := invAlphaN;
      invAlphaN := F.mul(invAlphaN, invAlpha);
      var value := Eval(F, locator, evalOn);
      RootsNext(F, locator, invAlpha, i);
      if value == F.zero {
        assert F.inv(evalOn) == Pow(F, F.alpha, i) by {
          InvPow(F, F.alpha, i);
        }
        LocatorAppended(F, locations, locators, i, F.inv(evalOn));
        locations := locations + [i];
        locators := locators + [F.inv(evalOn)];
      }
      PowNext(F, invAlpha, i);
    }
  }

  /** One more position examined: it is located exactly when the locator vanishes there. */
  lemma RootsNext<E>(F: Field<E>, locator: Polynomial<E>, point: E, i: nat)
    ensures Roots(F, locator, point, i + 1) ==
      if PowerSum(F, locator, Pow(F, point, i)) == F.zero then Roots(F, locator, point, i) + [i]
      else Roots(F, locator, point, i)
  {
  }

  /** Appending a position and its locator keeps every locator ALPHA to its position. */
  lemma LocatorAppended<E>(F: Field<E>, locations: seq<nat>, locators: seq<E>, i: nat, v: E)
    requires |locators| == |locations|
    requires forall k :: 0 <= k < |locations| ==> locators[k] == Pow(F, F.alpha, locations[k])
    requires v == Pow(F, F.alpha, i)
    ensures forall k :: 0 <= k < |locations| + 1 ==> (locators + [v])[k] == Pow(F, F.alpha, (locations + [i])[k])
  {
  }

  // ---------------------------------------------------------------------
  // The correction system

  /** `Matrix::from_raw`: a rows × cols grid over a row-major buffer. */
  method FromRaw<E>(rows: nat, cols: nat, backing: array<E>) returns (m: array2<E>)
    requires backing.Length == rows * cols
    ensures fresh(m) && m.Length0 == rows && m.Length1 == cols
    ensures forall r, c :: 0 <= r < rows && 0 <= c < cols ==> m[r, c] == backing[Matrices.Index(cols, rows, r, c)]
  {
    m := new E[rows, cols]((r, c) requires 0 <= r < rows && 0 <= c < cols reads backing =>
      backing[Matrices.Index(cols, rows, r, c)]);
  }

  /** The buffer position of (r, c) in a row-major rowNum × (rowNum + 1) buffer. */
  function Flat(rowNum: nat, r: nat, c: nat): (i: nat)
    requires r < rowNum && c < rowNum + 1
    ensures i < (rowNum + 1) * rowNum
  {
    Matrices.Index(rowNum + 1, rowNum, r, c)
  }

  /** Distinct cells have distinct positions. */
  lemma FlatInjective(rowNum: nat, r: nat, c: nat)
    requires r < rowNum && c < rowNum + 1
    ensures forall r', c' :: 0 <= r' < rowNum && 0 <= c' < rowNum + 1 && (r', c') != (r, c) ==>
      Flat(rowNum, r', c') != Flat(rowNum, r, c)
  {
    forall r', c' | 0 <= r' < rowNum && 0 <= c' < rowNum + 1 && (r', c') != (r, c)
      ensures Flat(rowNum, r', c') != Flat(rowNum, r, c)
    {
      Matrices.IndexInjective(rowNum + 1, rowNum, r', c', r, c);
    }
  }

  /** The buffer after the first i cells of column col got ONE, X, …, X^(i-1). */
  function ColumnWritten<E>(F: Field<E>, b: seq<E>, rowNum: nat, col: nat, locator: E, i: nat): (w: seq<E>)
    requires col < rowNum + 1 && i <= rowNum && |b| == (rowNum + 1) * rowNum
    ensures |w| == |b|
  {
    if i == 0 then b
    else ColumnWritten(F, b, rowNum, col, locator, i - 1)[Flat(rowNum, i - 1, col) := Pow(F, locator, i - 1)]
  }

  /** Column col holds the powers in its first i rows; every other cell is as before. */
  lemma {:induction false} ColumnWrittenCells<E>(F: Field<E>, b: seq<E>, rowNum: nat, col: nat, locator: E, i: nat)
    requires col < rowNum + 1 && i <= rowNum && |b| == (rowNum + 1) * rowNum
    ensures forall r, c :: 0 <= r < rowNum && 0 <= c < rowNum + 1 ==>
      ColumnWritten(F, b, rowNum, col, locator, i)[Flat(rowNum, r, c)] ==
        if c == col && r < i then Pow(F, locator, r) else b[Flat(rowNum, r, c)]
  {
    if i > 0 {
      ColumnWrittenCells(F, b, rowNum, col, locator, i - 1);
      FlatInjective(rowNum, i - 1, col);
    }
  }

  /** Writes ONE, X, X^2, … down column col of a row-major rowNum × (rowNum + 1) buffer. */
  method PowerColumn<E>(F: Field<E>, backing: array<E>, rowNum: nat, col: nat, locator: E)
    requires col < rowNum + 1 && backing.Length == (rowNum + 1) * rowNum
    modifies backing
    ensures forall r :: 0 <= r < rowNum ==> backing[Flat(rowNum, r, col)] == Pow(F, locator, r)
    ensures forall r, c :: 0 <= r < rowNum && 0 <= c < rowNum + 1 && c != col ==>
      backing[Flat(rowNum, r, c)] == old(backing[Flat(rowNum, r, c)])
  {
    var rowLen := rowNum + 1;
    var accum := F.one;
    for i := 0 to rowNum
      invariant accum == Pow(F, locator, i)
      invariant backing[..] == ColumnWritten(F, old(backing[..]), rowNum, col, locator, i)
    {
      var at := i * rowLen + col;
      assert at == Flat(rowNum, i, col);
      backing[at] := accum;
      accum := F.mul(accum, locator);
    }
    ColumnWrittenCells(F, old(backing[..]), rowNum, col, locator, rowNum);
  }

  /** The L × (L+1) correction system: cell (r, c) for c < L is the r-th
      power of locator value c, and the last column holds the first L
      syndromes. */
  ghost function CorrectionSystem<E>(F: Field<E>, locators: seq<E>, syndromes: seq<E>): (G: seq<seq<E>>)
    requires |locators| <= |syndromes|
    ensures IsGrid(G, |locators|, |locators| + 1)
    ensures forall r, c :: 0 <= r < |locators| && 0 <= c < |locators| ==> G[r][c] == Pow(F, locators[c], r)
    ensures forall r :: 0 <= r < |locators| ==> G[r][|locators|] == syndromes[r]
  {
    seq(|locators|, r requires 0 <= r < |locators| =>
      seq(|locators|, c requires 0 <= c < |locators| => Pow(F, locators[c], r)) + [syndromes[r]])
  }

  /** The grid `CorrectionGrid` builds is the correction system. */
  lemma CorrectionGridIsSystem<E>(F: Field<E>, locators: seq<E>, syndromes: seq<E>, m: array2<E>)
    requires |locators| <= |syndromes|
    requires m.Length0 == |locators| && m.Length1 == |locators| + 1
    requires forall r, c :: 0 <= r < |locators| && 0 <= c < |locators| ==> m[r, c] == Pow(F, locators[c], r)
    requires forall r :: 0 <= r < |locators| ==> m[r, |locators|] == syndromes[r]
    ensures Grid(m) == CorrectionSystem(F, locators, syndromes)
  {
    var G, H := Grid(m), CorrectionSystem(F, locators, syndromes);
    forall r | 0 <= r < |locators|
      ensures G[r] == H[r]
    {
      assert forall c :: 0 <= c <= |locators| ==> G[r][c] == H[r][c];
    }
  }

  /** The magnitudes and the reduced grid are the reduction of the
      correction system over the locator values of the locations. */
  ghost predicate CorrectionSolved<E(!new)>(F: Field<E>, syndromes: seq<E>, locations: seq<nat>, magnitudes: seq<E>, correction: seq<seq<E>>)
    requires |locations| <= |syndromes|
  {
    ReductionOf(F, CorrectionSystem(F, LocatorValues(F, locations), syndromes), |locations| + 1, magnitudes, correction)
  }

  /** The correction system over L located positions: column c < L holds the
      powers ONE, X_c, X_c^2, … of the locator value X_c, the last column the
      first L syndromes. */
  method CorrectionGrid<E>(F: Field<E>, locators: seq<E>, syndromes: seq<E>) returns (m: array2<E>)
    requires |locators| <= |syndromes|
    ensures fresh(m) && m.Length0 == |locators| && m.Length1 == |locators| + 1
    ensures forall r, c :: 0 <= r < |locators| && 0 <= c < |locators| ==> m[r, c] == Pow(F, locators[c], r)
    ensures forall r :: 0 <= r < |locators| ==> m[r, |locators|] == syndromes[r]
  {
    var rowNum := |locators|;
    var rowLen := rowNum + 1;
    var backingLen := rowNum * rowLen;
    assert backingLen == rowLen * rowNum;
    var backing := new E[backingLen](_ => F.zero);
    for col := 0 to rowNum
      invariant forall r, c :: 0 <= r < rowNum && 0 <= c < col ==> backing[Flat(rowNum, r, c)] == Pow(F, locators[c], r)
    {
      PowerColumn(F, backing, rowNum, col, locators[col]);
    }
    for row := 0 to rowNum
      invariant forall r, c :: 0 <= r < rowNum && 0 <= c < rowNum ==> backing[Flat(rowNum, r, c)] == Pow(F, locators[c], r)
      invariant forall r :: 0 <= r < row ==> backing[Flat(rowNum, r, rowNum)] == syndromes[r]
    {
      var at := row * rowLen + rowLen - 1;
      assert at == Flat(rowNum, row, rowNum);
      FlatInjective(rowNum, row, rowNum);
      backing[at] := syndromes[row];
    }
    m := FromRaw(rowNum, rowLen, backing);
    assert forall r, c :: 0 <= r < rowNum && 0 <= c < rowLen ==> m[r, c] == backing[Flat(rowNum, r, c)];
  }

  /** The word after the first k corrections: correction j pops the last
      remaining location and subtracts mags[j] there. */
  function Corrected<E>(F: Field<E>, word: seq<E>, locations: seq<nat>, mags: seq<E>, k: nat): (w: seq<E>)
    requires k <= |mags| <= |locations|
    requires forall j :: 0 <= j < |locations| ==> locations[j] < |word|
    ensures |w| == |word|
  {
    if k == 0 then word
    else
      var w := Corrected(F, word, locations, mags, k - 1);
      var at := locations[|locations| - k];
      w[at := F.add(w[at], F.neg(mags[k - 1]))]
  }

  /** With distinct locations, the last k locations got their magnitude
      subtracted once, and nothing else changed. */
  lemma {:induction false} CorrectedCells<E>(F: Field<E>, word: seq<E>, locations: seq<nat>, mags: seq<E>, k: nat)
    requires k <= |mags| <= |locations|
    requires forall j :: 0 <= j < |locations| ==> locations[j] < |word|
    requires forall j, j' :: 0 <= j < j' < |locations| ==> locations[j] < locations[j']
    ensures forall i :: 0 <= i < |word| && i !in locations[|locations| - k..] ==>
      Corrected(F, word, locations, mags, k)[i] == word[i]
    ensures forall c :: |locations| - k <= c < |locations| ==>
      Corrected(F, word, locations, mags, k)[locations[c]] == F.add(word[locations[c]], F.neg(mags[|locations| - 1 - c]))
  {
    var L := |locations|;
    if k > 0 {
      CorrectedCells(F, word, locations, mags, k - 1);
      assert locations[L - k..] == [locations[L - k]] + locations[L - (k - 1)..];
    }
  }

  /** Each correction changes every evaluation by its term. */
  lemma {:induction false} CorrectedPowerSum<E(!new)>(F: Field<E>, word: seq<E>, locations: seq<nat>, mags: seq<E>, k: nat, x: E)
    requires IsField(F)
    requires k <= |mags| <= |locations|
    requires forall j :: 0 <= j < |locations| ==> locations[j] < |word|
    ensures PowerSum(F, Corrected(F, word, locations, mags, k), x) ==
      F.add(PowerSum(F, word, x), F.neg(Corrections(F, x, locations, mags, k)))
  {
    if k == 0 {
      NegZero(F);
      AddZeroRight(F, PowerSum(F, word, x));
    } else {
      CorrectedPowerSum(F, word, locations, mags, k - 1, x);
      var w := Corrected(F, word, locations, mags, k - 1);
      var at := locations[|locations| - k];
      PowerSumUpdate(F, w, at, F.neg(mags[k - 1]), x);
      CorrectionStep(F, PowerSum(F, word, x), Corrections(F, x, locations, mags, k - 1), mags[k - 1], Pow(F, x, at));
    }
  }

  /** The emitted magnitudes, consumed in order: each pops the last
      remaining location and subtracts the magnitude there. */
  method ApplyCorrections<E>(F: Field<E>, elements: array<E>, locations: seq<nat>, mags: seq<E>) returns (remaining: seq<nat>)
    requires |mags| <= |locations|
    requires forall k :: 0 <= k < |locations| ==> locations[k] < elements.Length
    modifies elements
    ensures remaining == locations[..|locations| - |mags|]
    ensures elements[..] == Corrected(F, old(elements[..]), locations, mags, |mags|)
  {
    var L := |locations|;
    remaining := locations;
    for k := 0 to |mags|
      invariant remaining == locations[..L - k]
      invariant elements[..] == Corrected(F, old(elements[..]), locations, mags, k)
    {
      var index := remaining[|remaining| - 1];
      remaining := remaining[..|remaining| - 1];
      elements[index] := F.add(elements[index], F.neg(mags[k]));
    }
  }

  // ---------------------------------------------------------------------
  // Decoding

  /** When the magnitudes solve the correction system at row i, the
      corrected word evaluates to ZERO at ALPHA^i. */
  lemma SyndromeCleared<E(!new)>(F: Field<E>, received: seq<E>, locations: seq<nat>, mags: seq<E>, row: seq<E>, i: nat)
    requires IsField(F)
    requires |mags| == |locations| && |row| == |locations| + 1
    requires forall j :: 0 <= j < |locations| ==> locations[j] < |received|
    requires forall c :: 0 <= c < |locations| ==> row[c] == Pow(F, Pow(F, F.alpha, locations[c]), i)
    requires row[|locations|] == PowerSum(F, received, Pow(F, F.alpha, i))
    requires SumRange(F, row, Reversed(mags), 0, |locations|) == row[|locations|]
    ensures PowerSum(F, Corrected(F, received, locations, mags, |mags|), Pow(F, F.alpha, i)) == F.zero
  {
    var x := Pow(F, F.alpha, i);
    forall c | 0 <= c < |locations|
      ensures row[c] == Pow(F, x, locations[c])
    {
      PowPow(F, F.alpha, locations[c], i);
      PowPow(F, F.alpha, i, locations[c]);
      assert locations[c] * i == i * locations[c];
    }
    CorrectionsAsRowSum(F, x, locations, mags, row, |mags|);
    CorrectedPowerSum(F, received, locations, mags, |mags|, x);
  }

  /** Error location: the locator solved from the syndromes, then the
      positions below n where it vanishes. */
  method Locate<E(==,!new)>(F: Field<E>, syndromes: seq<E>, n: nat)
    returns (locator: Polynomial<E>, emitted: seq<E>, ghost hankel: seq<seq<E>>, locations: seq<nat>, locators: seq<E>)
    requires IsField(F)
    ensures LocatorSolved(F, syndromes, emitted, hankel, locator)
    ensures 1 <= |locator| <= |syndromes| / 2 + 1
    ensures locations == Roots(F, locator, F.inv(F.alpha), n)
    ensures forall k :: 0 <= k < |locations| ==> locations[k] < n
    ensures forall k, k' :: 0 <= k < k' < |locations| ==> locations[k] < locations[k']
    ensures locators == LocatorValues(F, locations)
  {
    var canLocate := |syndromes| / 2;
    locator, emitted, hankel := LocatorPolynomial(F, syndromes, canLocate);
    locations, locators := FindRoots(F, locator, n);
    RootsProperties(F, locator, F.inv(F.alpha), n);
  }

  /** Error correction at the located positions: the magnitudes are the
      reduction of the correction system, and each is subtracted at its
      position.  Succeeds when every location got a magnitude; then the
      magnitudes solve the correction system and the corrected word
      evaluates to ZERO at the first |locations| powers of ALPHA. */
  method Repair<E(==,!new)>(F: Field<E>, elements: array<E>, syndromes: seq<E>, locations: seq<nat>, locators: seq<E>)
    returns (ok: bool, ghost magnitudes: seq<E>, ghost reduced: seq<seq<E>>)
    requires IsField(F)
    requires |locations| <= |syndromes|
    requires forall k :: 0 <= k < |locations| ==> locations[k] < elements.Length
    requires forall k, k' :: 0 <= k < k' < |locations| ==> locations[k] < locations[k']
    requires locators == LocatorValues(F, locations)
    requires forall i :: 0 <= i < |syndromes| ==> syndromes[i] == PowerSum(F, elements[..], Pow(F, F.alpha, i))
    modifies elements
    ensures CorrectionSolved(F, syndromes, locations, magnitudes, reduced)
    ensures ok <==> |magnitudes| == |locations|
    ensures ok ==> forall r :: 0 <= r < |locations| ==>
      SumRange(F, CorrectionSystem(F, locators, syndromes)[r], Reversed(magnitudes), 0, |locations|) == syndromes[r]
    ensures forall i :: 0 <= i < elements.Length && i !in locations ==> elements[i] == old(elements[i])
    ensures forall c :: |locations| - |magnitudes| <= c < |locations| ==>
      elements[locations[c]] == F.add(old(elements[locations[c]]), F.neg(magnitudes[|locations| - 1 - c]))
    ensures ok ==>
      && (forall c :: 0 <= c < |locations| ==>
            elements[locations[c]] == F.add(old(elements[locations[c]]), F.neg(magnitudes[|locations| - 1 - c])))
      && SyndromesVanish(F, elements[..], |locations|)
  {
    var correction := CorrectionGrid(F, locators, syndromes);
    CorrectionGridIsSystem(F, locators, syndromes, correction);
    ghost var system := Grid(correction);
    var solved;
    solved, reduced := ReduceMatrix(F, correction);
    magnitudes := solved;
    ghost var received := elements[..];
    var remaining := ApplyCorrections(F, elements, locations, solved);
    CorrectedCells(F, received, locations, solved, |solved|);
    forall i | 0 <= i < elements.Length && i !in locations
      ensures elements[i] == old(elements[i])
    {
      assert i !in locations[|locations| - |solved|..];
    }
    ok := |remaining| == 0;
    if ok {
      forall i | 0 <= i < |locations|
        ensures PowerSum(F, elements[..], Pow(F, F.alpha, i)) == F.zero
      {
        SyndromeCleared(F, received, locations, solved, system[i], i);
      }
    }
  }

  /** The decode of a word with some nonzero syndrome: locate, then repair. */
  method Correct<E(==,!new)>(F: Field<E>, elements: array<E>, errorCodewords: nat, syndromes: seq<E>)
    returns (r: Result<seq<E>>, ghost trace: DecodeTrace<E>)
    requires IsField(F)
    requires errorCodewords < elements.Length && |syndromes| == errorCodewords
    requires forall i :: 0 <= i < errorCodewords ==> syndromes[i] == PowerSum(F, elements[..], Pow(F, F.alpha, i))
    modifies elements
    ensures trace.syndromes == syndromes
    ensures r.Success? ==> r.value == elements[errorCodewords..]
    ensures LocatorSolved(F, syndromes, trace.emitted, trace.hankel, trace.locator)
    ensures 1 <= |trace.locator| <= errorCodewords / 2 + 1
    ensures trace.locations == Roots(F, trace.locator, F.inv(F.alpha), elements.Length)
    ensures forall k :: 0 <= k < |trace.locations| ==> trace.locations[k] < elements.Length
    ensures |trace.locations| <= errorCodewords ==>
      CorrectionSolved(F, syndromes, trace.locations, trace.magnitudes, trace.correction)
    ensures r.Success? <==> |trace.locations| <= errorCodewords && |trace.magnitudes| == |trace.locations|
    ensures forall i :: 0 <= i < elements.Length && i !in trace.locations ==> elements[i] == old(elements[i])
    ensures r.Success? ==>
      && (forall c :: 0 <= c < |trace.locations| ==>
            elements[trace.locations[c]] ==
              F.add(old(elements[trace.locations[c]]), F.neg(trace.magnitudes[|trace.locations| - 1 - c])))
      && SyndromesVanish(F, elements[..], |trace.locations|)
  {
    var locator, emitted, hankel, locations, locators := Locate(F, syndromes, elements.Length);
    if |locations| > errorCodewords {
      // writing syndromes[row] into the last column indexes past the syndromes
      trace := DecodeTrace(syndromes, emitted, hankel, locator, locations, [], []);
      r := Failure("index out of bounds: the len is smaller than the index");
    } else {
      var ok, magnitudes, reduced := Repair(F, elements, syndromes, locations, locators);
      trace := DecodeTrace(syndromes, emitted, hankel, locator, locations, magnitudes, reduced);
      assert CorrectionSolved(F, syndromes, trace.locations, trace.magnitudes, trace.correction);
      if ok {
        r := Success(elements[errorCodewords..]);
      } else {
        r := Failure("assertion failed: locations.len() == 0");
      }
    }
  }

  /** The decode of a word that passed the entry checks: syndromes, then
      either the early return of an uncorrupted word or correction. */
  method DecodeChecked<E(==,!new)>(F: Field<E>, elements: array<E>, errorCodewords: nat)
    returns (r: Result<seq<E>>, ghost trace: DecodeTrace<E>)
    requires IsField(F)
    requires errorCodewords < elements.Length
    modifies elements
    ensures r.Success? ==> r.value == elements[errorCodewords..]
    ensures |trace.syndromes| == errorCodewords
    ensures forall i :: 0 <= i < errorCodewords ==>
      trace.syndromes[i] == PowerSum(F, old(elements[..]), Pow(F, F.alpha, i))
    ensures SyndromesVanish(F, old(elements[..]), errorCodewords) ==>
      r == Success(old(elements[..])[errorCodewords..]) && elements[..] == old(elements[..]) && trace.locations == []
    ensures !SyndromesVanish(F, old(elements[..]), errorCodewords) ==>
      && LocatorSolved(F, trace.syndromes, trace.emitted, trace.hankel, trace.locator)
      && 1 <= |trace.locator| <= errorCodewords / 2 + 1
      && trace.locations == Roots(F, trace.locator, F.inv(F.alpha), elements.Length)
      && (|trace.locations| <= errorCodewords ==>
            CorrectionSolved(F, trace.syndromes, trace.locations, trace.magnitudes, trace.correction))
      && (r.Success? <==> |trace.locations| <= errorCodewords && |trace.magnitudes| == |trace.locations|)
    ensures forall k :: 0 <= k < |trace.locations| ==> trace.locations[k] < elements.Length
    ensures forall i :: 0 <= i < elements.Length && i !in trace.locations ==> elements[i] == old(elements[i])
    ensures r.Success? ==>
      && |trace.magnitudes| == |trace.locations|
      && (forall c :: 0 <= c < |trace.locations| ==>
            elements[trace.locations[c]] ==
              F.add(old(elements[trace.locations[c]]), F.neg(trace.magnitudes[|trace.locations| - 1 - c])))
      && SyndromesVanish(F, elements[..], |trace.locations|)
  {
    var syndromes := Syndromes(F, elements[..], errorCodewords);
    if forall i | 0 <= i < |syndromes| :: syndromes[i] == F.zero {
      trace := DecodeTrace(syndromes, [], [], [], [], [], []);
      r := Success(elements[errorCodewords..]);
      return;
    }
    r, trace := Correct(F, elements, errorCodewords, syndromes);
  }

  /** `decode`: corrects the buffer in place and returns its message part.
      The ghost trace names the intermediate results. */
  method Decode<E(==,!new)>(F: Field<E>, elements: array<E>, errorCodewords: nat)
    returns (r: Result<seq<E>>, ghost trace: DecodeTrace<E>)
    requires IsField(F)
    modifies elements
    ensures !(elements.Length <= F.sequenceLength && errorCodewords < elements.Length) ==>
      r.Failure? && elements[..] == old(elements[..])
    ensures r.Success? ==> errorCodewords < elements.Length && r.value == elements[errorCodewords..]
    ensures elements.Length <= F.sequenceLength && errorCodewords < elements.Length ==>
      && |trace.syndromes| == errorCodewords
      && (forall i :: 0 <= i < errorCodewords ==>
            trace.syndromes[i] == PowerSum(F, old(elements[..]), Pow(F, F.alpha, i)))
    ensures (elements.Length <= F.sequenceLength && errorCodewords < elements.Length &&
             SyndromesVanish(F, old(elements[..]), errorCodewords)) ==>
      r == Success(old(elements[..])[errorCodewords..]) && elements[..] == old(elements[..])
    ensures (elements.Length <= F.sequenceLength && errorCodewords < elements.Length &&
             !SyndromesVanish(F, old(elements[..]), errorCodewords)) ==>
      && LocatorSolved(F, trace.syndromes, trace.emitted, trace.hankel, trace.locator)
      && 1 <= |trace.locator| <= errorCodewords / 2 + 1
      && trace.locations == Roots(F, trace.locator, F.inv(F.alpha), elements.Length)
      && (|trace.locations| <= errorCodewords ==>
            CorrectionSolved(F, trace.syndromes, trace.locations, trace.magnitudes, trace.correction))
      && (r.Success? <==> |trace.locations| <= errorCodewords && |trace.magnitudes| == |trace.locations|)
    ensures forall k :: 0 <= k < |trace.locations| ==> trace.locations[k] < elements.Length
    ensures forall i :: 0 <= i < elements.Length && i !in trace.locations ==> elements[i] == old(elements[i])
    ensures r.Success? ==>
      && |trace.magnitudes| == |trace.locations|
      && (forall c :: 0 <= c < |trace.locations| ==>
            elements[trace.locations[c]] ==
              F.add(old(elements[trace.locations[c]]), F.neg(trace.magnitudes[|trace.locations| - 1 - c])))
      && SyndromesVanish(F, elements[..], |trace.locations|)
  {
    trace := DecodeTrace([], [], [], [], [], [], []);
    if !(elements.Length <= F.sequenceLength) {
      r := Failure("assertion failed: elements.len() <= T::SEQUENCE_LENGTH");
      return;
    }
    if !(errorCodewords < elements.Length) {
      r := Failure("assertion failed: error_codewords < elements.len()");
      return;
    }
    r, trace := DecodeChecked(F, elements, errorCodewords);
  }

  /** Decoding an encoded message returns the message. */
  method RoundTrip<E(==,!new)>(F: Field<E>, message: seq<E>, errorCodewords: nat) returns (r: Result<seq<E>>)
    requires IsField(F)
    requires 1 <= |message| && |message| + errorCodewords < F.sequenceLength
    ensures r == Success(message)
  {
    var encoded := Encoder.Encode(F, message, errorCodewords);
    var word := encoded.value;
    var buffer := new E[|word|](i requires 0 <= i < |word| => word[i]);
    assert buffer[..] == word;
    assert word[errorCodewords..] == message;
    ghost var trace;
    r, trace := Decode(F, buffer, errorCodewords);
  }
}
