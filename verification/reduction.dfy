/** Gaussian elimination with ordered emission (`reduce_matrix`,
    src/decoder.rs).  The matrix is a row-major grid whose last columns hold
    the right-hand side of a linear system; elimination runs downwards with a
    row-addition pivot fix, stops at the first column it cannot pivot, and
    back-substitution emits the solved values last variable first. */
module Reduction {
  import opened Fields

  /** The cells of m as rows. */
  ghost function Grid<E>(m: array2<E>): (g: seq<seq<E>>)
    reads m
    ensures |g| == m.Length0
    ensures forall r :: 0 <= r < m.Length0 ==> |g[r]| == m.Length1
    ensures forall r, c :: 0 <= r < m.Length0 && 0 <= c < m.Length1 ==> g[r][c] == m[r, c]
  {
    seq(m.Length0, r requires 0 <= r < m.Length0 reads m =>
      seq(m.Length1, c requires 0 <= c < m.Length1 reads m => m[r, c]))
  }

  /** Σ_{lo <= c < hi} row[c]·x[c]. */
  function SumRange<E>(F: Field<E>, row: seq<E>, x: seq<E>, lo: nat, hi: nat): E
    requires lo <= hi <= |row| && hi <= |x|
    decreases hi - lo
  {
    if lo == hi then F.zero else F.add(F.mul(row[lo], x[lo]), SumRange(F, row, x, lo + 1, hi))
  }

  /** v satisfies every row: Σ_c G[r][c]·v[c] == ZERO.  With v = x ++ [-1],
      this says that x solves the system whose last column is the right-hand side. */
  ghost predicate Solves<E>(F: Field<E>, G: seq<seq<E>>, v: seq<E>)
  {
    forall r :: 0 <= r < |G| && |G[r]| == |v| ==> SumRange(F, G[r], v, 0, |v|) == F.zero
  }

  ghost predicate IsGrid<E>(G: seq<seq<E>>, rows: nat, cols: nat)
  {
    |G| == rows && forall r :: 0 <= r < rows ==> |G[r]| == cols
  }

  /** Two grids of the same shape with the same solutions. */
  ghost predicate Equivalent<E(!new)>(F: Field<E>, G: seq<seq<E>>, H: seq<seq<E>>)
  {
    && |G| == |H|
    && (forall r :: 0 <= r < |G| ==> |G[r]| == |H[r]|)
    && (forall v :: Solves(F, G, v) <==> Solves(F, H, v))
  }

  /** The first s columns are reduced: nonzero diagonal, zeros below it. */
  ghost predicate Echelon<E>(F: Field<E>, G: seq<seq<E>>, s: nat)
    requires forall r :: 0 <= r < |G| ==> s <= |G[r]|
  {
    && (forall c :: 0 <= c < s && c < |G| ==> G[c][c] != F.zero)
    && (forall r, c :: 0 <= c < s && c < r < |G| ==> G[r][c] == F.zero)
  }

  // ---------------------------------------------------------------------
  // Row operations keep the solutions

  /** A row plus f times another row is the matching combination of sums. */
  lemma {:induction false} SumRangeCombination<E(!new)>(F: Field<E>, a: seq<E>, b: seq<E>, c: seq<E>, f: E, x: seq<E>, lo: nat, hi: nat)
    requires IsField(F)
    requires lo <= hi <= |a| && hi <= |b| && hi <= |c| && hi <= |x|
    requires forall k :: lo <= k < hi ==> c[k] == F.add(a[k], F.mul(f, b[k]))
    ensures SumRange(F, c, x, lo, hi) == F.add(SumRange(F, a, x, lo, hi), F.mul(f, SumRange(F, b, x, lo, hi)))
    decreases hi - lo
  {
    if lo == hi {
      MulZero(F, f);
      AddZeroRight(F, F.zero);
    } else {
      SumRangeCombination(F, a, b, c, f, x, lo + 1, hi);
      var A, B := SumRange(F, a, x, lo + 1, hi), SumRange(F, b, x, lo + 1, hi);
      var ax, bx := F.mul(a[lo], x[lo]), F.mul(b[lo], x[lo]);
      calc {
        F.mul(c[lo], x[lo]);
        F.mul(F.add(a[lo], F.mul(f, b[lo])), x[lo]);
        { MulAddRight(F, a[lo], F.mul(f, b[lo]), x[lo]); }
        F.add(ax, F.mul(F.mul(f, b[lo]), x[lo]));
        F.add(ax, F.mul(f, bx));
      }
      calc {
        SumRange(F, c, x, lo, hi);
        F.add(F.add(ax, F.mul(f, bx)), F.add(A, F.mul(f, B)));
        { AddSwap(F, ax, F.mul(f, bx), A, F.mul(f, B)); }
        F.add(F.add(ax, A), F.add(F.mul(f, bx), F.mul(f, B)));
        F.add(F.add(ax, A), F.mul(f, F.add(bx, B)));
      }
    }
  }

  /** Adding f times row s to another row t keeps the solution set. */
  lemma RowOperationEquivalent<E(!new)>(F: Field<E>, G: seq<seq<E>>, H: seq<seq<E>>, t: nat, s: nat, f: E)
    requires IsField(F)
    requires t < |G| && s < |G| && t != s && |G| == |H|
    requires forall r :: 0 <= r < |G| && r != t ==> H[r] == G[r]
    requires |H[t]| == |G[t]| == |G[s]|
    requires forall k :: 0 <= k < |G[t]| ==> H[t][k] == F.add(G[t][k], F.mul(f, G[s][k]))
    ensures Equivalent(F, G, H)
  {
    forall v
      ensures Solves(F, G, v) <==> Solves(F, H, v)
    {
      if |v| == |G[t]| {
        SumRangeCombination(F, G[t], G[s], H[t], f, v, 0, |v|);
        var T, S := SumRange(F, G[t], v, 0, |v|), SumRange(F, G[s], v, 0, |v|);
        if Solves(F, G, v) {
          assert T == F.zero && S == F.zero;
          MulZero(F, f);
          assert F.add(T, F.mul(f, S)) == F.zero;
        }
        if Solves(F, H, v) {
          assert S == SumRange(F, H[s], v, 0, |v|) == F.zero;
          MulZero(F, f);
          AddZeroRight(F, T);
          assert T == F.zero;
        }
      }
    }
  }

  lemma EquivalentTransitive<E(!new)>(F: Field<E>, G: seq<seq<E>>, H: seq<seq<E>>, K: seq<seq<E>>)
    requires Equivalent(F, G, H) && Equivalent(F, H, K)
    ensures Equivalent(F, G, K)
  {
  }

  /** The pivot cancels the entry below it: a - (a·lead⁻¹)·lead == 0. */
  lemma Cancel<E(!new)>(F: Field<E>, a: E, lead: E)
    requires IsField(F)
    requires lead != F.zero
    ensures F.add(a, F.mul(F.neg(F.mul(a, F.inv(lead))), lead)) == F.zero
  {
    var q := F.mul(a, F.inv(lead));
    calc {
      F.mul(F.neg(q), lead);
      F.mul(lead, F.neg(q));
      { MulNeg(F, lead, q); }
      F.neg(F.mul(lead, q));
      { MulInvCancel(F, lead, a); }
      F.neg(a);
    }
  }

  // ---------------------------------------------------------------------
  // Downward propagation

  /** The pivot fix: when the diagonal cell of column i is ZERO, the first
      lower row with a nonzero entry there is added into row i. */
  method FixPivot<E(==,!new)>(F: Field<E>, m: array2<E>, i: nat) returns (found: bool)
    requires IsField(F)
    requires i < m.Length0 < m.Length1
    requires m[i, i] == F.zero
    requires Echelon(F, Grid(m), i)
    modifies m
    ensures found ==> m[i, i] != F.zero
    ensures Echelon(F, Grid(m), i)
    ensures Equivalent(F, old(Grid(m)), Grid(m))
    ensures !found ==> Grid(m) == old(Grid(m))
    ensures !found ==> forall r :: i <= r < m.Length0 ==> m[r, i] == F.zero
  {
    ghost var G0 := Grid(m);
    found := false;
    for j := i + 1 to m.Length0
      invariant Grid(m) == G0
      invariant forall r :: i <= r < j ==> m[r, i] == F.zero
    {
      if m[j, i] != F.zero {
        for k := 0 to m.Length1
          invariant forall r, c :: 0 <= r < m.Length0 && 0 <= c < m.Length1 ==>
            m[r, c] == if r == i && c < k then F.add(G0[i][c], G0[j][c]) else G0[r][c]
        {
          m[i, k] := F.add(m[i, k], m[j, k]);
        }
        forall k | 0 <= k < m.Length1
          ensures m[i, k] == F.add(G0[i][k], F.mul(F.one, G0[j][k]))
        {
        }
        RowOperationEquivalent(F, G0, Grid(m), i, j, F.one);
        assert m[i, i] == G0[j][i] by {
          assert F.add(F.zero, G0[j][i]) == G0[j][i];
        }
        forall c | 0 <= c < i
          ensures m[i, c] == F.zero
        {
          assert G0[i][c] == F.zero && G0[j][c] == F.zero;
          AddZeroRight(F, F.zero);
        }
        found := true;
        break;
      }
    }
  }

  /** Adds f times row s into row t, from column `from` on. */
  method AddScaledRow<E>(F: Field<E>, m: array2<E>, t: nat, s: nat, f: E, from: nat)
    requires t < m.Length0 && s < m.Length0 && t != s && from <= m.Length1
    modifies m
    ensures forall r, c :: 0 <= r < m.Length0 && 0 <= c < m.Length1 ==>
      m[r, c] == if r == t && from <= c then F.add(old(m[t, c]), F.mul(f, old(m[s, c]))) else old(m[r, c])
  {
    for k := from to m.Length1
      invariant forall r, c :: 0 <= r < m.Length0 && 0 <= c < m.Length1 ==>
        m[r, c] == if r == t && from <= c < k then F.add(old(m[t, c]), F.mul(f, old(m[s, c]))) else old(m[r, c])
    {
      m[t, k] := F.add(m[t, k], F.mul(f, m[s, k]));
    }
  }

  /** One elimination step: the lower row j loses its entry in the pivot
      column, and the solution set stays the same. */
  lemma EliminationStep<E(!new)>(F: Field<E>, G: seq<seq<E>>, H: seq<seq<E>>, i: nat, j: nat, cols: nat)
    requires IsField(F)
    requires IsGrid(G, |G|, cols) && IsGrid(H, |G|, cols)
    requires i < j < |G| && i < cols
    requires G[i][i] != F.zero
    requires forall c :: 0 <= c < i ==> G[i][c] == F.zero
    requires forall r :: 0 <= r < |G| && r != j ==> H[r] == G[r]
    requires forall c :: 0 <= c < cols ==>
      H[j][c] == if i <= c then F.add(G[j][c], F.mul(F.neg(F.mul(G[j][i], F.inv(G[i][i]))), G[i][c])) else G[j][c]
    ensures Equivalent(F, G, H)
    ensures H[j][i] == F.zero
  {
    var factor := F.neg(F.mul(G[j][i], F.inv(G[i][i])));
    forall c | 0 <= c < cols
      ensures H[j][c] == F.add(G[j][c], F.mul(factor, G[i][c]))
    {
      if c < i {
        MulZero(F, factor);
        AddZeroRight(F, G[j][c]);
      }
    }
    RowOperationEquivalent(F, G, H, j, i, factor);
    Cancel(F, G[j][i], G[i][i]);
  }

  /** Clearing column i below the pivot: each lower row j gets
      -(m[j,i]·m[i,i]⁻¹) times row i added, from column i on. */
  method EliminateBelow<E(==,!new)>(F: Field<E>, m: array2<E>, i: nat)
    requires IsField(F)
    requires i < m.Length0 < m.Length1
    requires m[i, i] != F.zero
    requires Echelon(F, Grid(m), i)
    modifies m
    ensures Echelon(F, Grid(m), i + 1)
    ensures Equivalent(F, old(Grid(m)), Grid(m))
  {
    ghost var G0 := Grid(m);
    var leading := m[i, i];
    var inverse := F.inv(leading);
    forall r, c | 0 <= r < m.Length0 && 0 <= c < i && r > c
      ensures m[r, c] == F.zero
    {
      assert G0[r][c] == F.zero;
    }
    for j := i + 1 to m.Length0
      invariant forall r, c :: 0 <= r < m.Length0 && 0 <= c < m.Length1 && (r <= i || j <= r) ==> m[r, c] == G0[r][c]
      invariant forall r, c :: 0 <= r < m.Length0 && 0 <= c < i && r > c ==> m[r, c] == F.zero
      invariant forall r :: i < r < j ==> m[r, i] == F.zero
      invariant Equivalent(F, G0, Grid(m))
    {
      ghost var G1 := Grid(m);
      var factor := F.neg(F.mul(m[j, i], inverse));
      AddScaledRow(F, m, j, i, factor, i);
      ghost var G2 := Grid(m);
      assert forall r :: 0 <= r < m.Length0 && r != j ==> G2[r] == G1[r];
      EliminationStep(F, G1, G2, i, j, m.Length1);
      EquivalentTransitive(F, G0, G1, G2);
    }
  }

  /** Downward propagation: returns `solvable`, the number of pivots found. */
  method ForwardEliminate<E(==,!new)>(F: Field<E>, m: array2<E>) returns (solvable: nat)
    requires IsField(F)
    requires m.Length0 < m.Length1
    modifies m
    ensures solvable <= m.Length0
    ensures Echelon(F, Grid(m), solvable)
    ensures solvable < m.Length0 ==> forall r :: solvable <= r < m.Length0 ==> m[r, solvable] == F.zero
    ensures Equivalent(F, old(Grid(m)), Grid(m))
  {
    ghost var G0 := Grid(m);
    solvable := 0;
    for i := 0 to m.Length0
      invariant solvable == i
      invariant Echelon(F, Grid(m), i)
      invariant Equivalent(F, G0, Grid(m))
    {
      if m[i, i] == F.zero {
        ghost var G1 := Grid(m);
        var found := FixPivot(F, m, i);
        EquivalentTransitive(F, G0, G1, Grid(m));
        if !found {
          break;
        }
      }
      ghost var G2 := Grid(m);
      EliminateBelow(F, m, i);
      EquivalentTransitive(F, G0, G2, Grid(m));
      solvable := solvable + 1;
    }
  }

  // ---------------------------------------------------------------------
  // Upward propagation

  /** Σ_{lo <= c < s} row[c]·x_c, where the value of variable c is
      pushed[s-1-c]: values are pushed last variable first. */
  function RangeDot<E>(F: Field<E>, row: seq<E>, pushed: seq<E>, s: nat, lo: nat): E
    requires lo <= s <= |row| && s - lo <= |pushed|
    decreases s - lo
  {
    if lo == s then F.zero else F.add(F.mul(row[lo], pushed[s - 1 - lo]), RangeDot(F, row, pushed, s, lo + 1))
  }

  /** Pushing more values does not change the sums over variables already solved. */
  lemma {:induction false} RangeDotPrefix<E>(F: Field<E>, row: seq<E>, pushed: seq<E>, more: seq<E>, s: nat, lo: nat)
    requires lo <= s <= |row| && s - lo <= |pushed|
    ensures RangeDot(F, row, pushed, s, lo) == RangeDot(F, row, pushed + more, s, lo)
    decreases s - lo
  {
    if lo < s {
      RangeDotPrefix(F, row, pushed, more, s, lo + 1);
    }
  }

  /** The value solved for row i - 1 makes that row's sum equal its right-hand side. */
  lemma SolveRow<E(!new)>(F: Field<E>, row: seq<E>, pushed: seq<E>, s: nat, i: nat, residual: E)
    requires IsField(F)
    requires 0 < i <= s < |row| && |pushed| == s - i
    requires row[i - 1] != F.zero
    requires residual == F.add(row[s], F.neg(RangeDot(F, row, pushed, s, i)))
    ensures RangeDot(F, row, pushed + [F.mul(residual, F.inv(row[i - 1]))], s, i - 1) == row[s]
  {
    var k := i - 1;
    var val := F.mul(residual, F.inv(row[k]));
    var rest := RangeDot(F, row, pushed, s, k + 1);
    RangeDotPrefix(F, row, pushed, [val], s, k + 1);
    calc {
      F.mul(row[k], val);
      { MulInvCancel(F, row[k], residual); assert F.mul(row[k], F.mul(F.inv(row[k]), residual)) == residual;
        assert F.mul(F.inv(row[k]), residual) == val; }
      residual;
    }
    calc {
      RangeDot(F, row, pushed + [val], s, k);
      F.add(residual, rest);
      F.add(rest, residual);
      F.add(rest, F.add(F.neg(rest), row[s]));
      F.add(F.add(rest, F.neg(rest)), row[s]);
      F.add(F.zero, row[s]);
    }
  }

  /** Substituting the value solved for row i - 1 into a row above: the
      residual loses val·row[i - 1]. */
  lemma SubstituteRow<E(!new)>(F: Field<E>, row: seq<E>, pushed: seq<E>, s: nat, i: nat, val: E)
    requires IsField(F)
    requires 0 < i <= s < |row| && |pushed| == s - i
    ensures F.add(F.add(row[s], F.neg(RangeDot(F, row, pushed, s, i))), F.neg(F.mul(val, row[i - 1])))
         == F.add(row[s], F.neg(RangeDot(F, row, pushed + [val], s, i - 1)))
  {
    var k := i - 1;
    var rest := RangeDot(F, row, pushed, s, k + 1);
    RangeDotPrefix(F, row, pushed, [val], s, k + 1);
    assert RangeDot(F, row, pushed + [val], s, k) == F.add(F.mul(row[k], val), rest);
    calc {
      F.add(F.add(row[s], F.neg(rest)), F.neg(F.mul(val, row[k])));
      F.add(row[s], F.add(F.neg(rest), F.neg(F.mul(val, row[k]))));
      { assert F.mul(val, row[k]) == F.mul(row[k], val); }
      F.add(row[s], F.add(F.neg(rest), F.neg(F.mul(row[k], val))));
      { NegAdd(F, F.mul(row[k], val), rest); }
      F.add(row[s], F.neg(F.add(F.mul(row[k], val), rest)));
    }
  }

  /** Upward propagation over the s reduced columns, with column s as the
      right-hand side; returns the pushed values, last variable first. */
  method BackSubstitute<E(==,!new)>(F: Field<E>, m: array2<E>, s: nat) returns (pushed: seq<E>)
    requires IsField(F)
    requires s <= m.Length0 < m.Length1
    requires Echelon(F, Grid(m), s)
    modifies m
    ensures |pushed| == s
    ensures forall v :: 0 <= v < s ==> RangeDot(F, old(Grid(m))[v], pushed, s, v) == old(m[v, s])
  {
    ghost var G := Grid(m);
    pushed := [];
    var i: nat := s;
    forall j | 0 <= j < i
      ensures m[j, s] == F.add(G[j][s], F.neg(RangeDot(F, G[j], pushed, s, i)))
    {
      NegZero(F);
      AddZeroRight(F, G[j][s]);
    }
    while i > 0
      invariant i <= s && |pushed| == s - i
      invariant forall r, c :: 0 <= r < m.Length0 && 0 <= c < s ==> m[r, c] == G[r][c]
      invariant forall j :: 0 <= j < i ==> m[j, s] == F.add(G[j][s], F.neg(RangeDot(F, G[j], pushed, s, i)))
      invariant forall v :: i <= v < s ==> RangeDot(F, G[v], pushed, s, v) == G[v][s]
    {
      var k := i - 1;
      assert m[k, k] == G[k][k];
      var val := F.mul(m[k, s], F.inv(m[k, k]));
      ghost var before := pushed;
      SolveRow(F, G[k], before, s, i, m[k, s]);
      PushedRowsSolved(F, G, before, val, s, i);
      ResidualsAbove(F, m, G, before, val, s, i);
      pushed := pushed + [val];
      SubtractAbove(F, m, k, s, val);
      i := k;
    }
  }

  /** Once the value for row i - 1 is pushed, the rows from i - 1 on all meet
      their right-hand sides. */
  lemma PushedRowsSolved<E>(F: Field<E>, G: seq<seq<E>>, before: seq<E>, val: E, s: nat, i: nat)
    requires 0 < i <= s <= |G| && |before| == s - i
    requires forall r :: 0 <= r < |G| ==> s < |G[r]|
    requires forall v :: i <= v < s ==> RangeDot(F, G[v], before, s, v) == G[v][s]
    requires RangeDot(F, G[i - 1], before + [val], s, i - 1) == G[i - 1][s]
    ensures forall v :: i - 1 <= v < s ==> RangeDot(F, G[v], before + [val], s, v) == G[v][s]
  {
    forall v | i <= v < s
      ensures RangeDot(F, G[v], before + [val], s, v) == G[v][s]
    {
      RangeDotPrefix(F, G[v], before, [val], s, v);
    }
  }

  /** The right-hand sides above row i - 1, less val times column i - 1, are
      the residuals with val substituted. */
  lemma ResidualsAbove<E(!new)>(F: Field<E>, m: array2<E>, G: seq<seq<E>>, before: seq<E>, val: E, s: nat, i: nat)
    requires IsField(F)
    requires 0 < i <= s <= m.Length0 && s < m.Length1 && |before| == s - i
    requires IsGrid(G, m.Length0, m.Length1)
    requires forall r, c :: 0 <= r < m.Length0 && 0 <= c < s ==> m[r, c] == G[r][c]
    requires forall j :: 0 <= j < i ==> m[j, s] == F.add(G[j][s], F.neg(RangeDot(F, G[j], before, s, i)))
    ensures forall r :: 0 <= r < i - 1 ==>
      F.add(m[r, s], F.neg(F.mul(val, m[r, i - 1])))
        == F.add(G[r][s], F.neg(RangeDot(F, G[r], before + [val], s, i - 1)))
  {
    forall r | 0 <= r < i - 1
      ensures F.add(m[r, s], F.neg(F.mul(val, m[r, i - 1])))
           == F.add(G[r][s], F.neg(RangeDot(F, G[r], before + [val], s, i - 1)))
    {
      SubstituteRow(F, G[r], before, s, i, val);
    }
  }

  /** Subtracts val times column i from column s in every row above row i. */
  method SubtractAbove<E>(F: Field<E>, m: array2<E>, i: nat, s: nat, val: E)
    requires i < s < m.Length1 && i < m.Length0
    modifies m
    ensures forall r :: 0 <= r < i ==> m[r, s] == F.add(old(m[r, s]), F.neg(F.mul(val, old(m[r, i]))))
    ensures forall r, c :: 0 <= r < m.Length0 && 0 <= c < m.Length1 && (i <= r || c != s) ==> m[r, c] == old(m[r, c])
  {
    var j: nat := i;
    while j > 0
      invariant j <= i
      invariant forall r :: j <= r < i ==> m[r, s] == F.add(old(m[r, s]), F.neg(F.mul(val, old(m[r, i]))))
      invariant forall r, c :: 0 <= r < m.Length0 && 0 <= c < m.Length1 && (r < j || i <= r || c != s) ==>
        m[r, c] == old(m[r, c])
    {
      j := j - 1;
      var subtracting := F.mul(val, m[j, i]);
      m[j, s] := F.add(m[j, s], F.neg(subtracting));
    }
  }

  // ---------------------------------------------------------------------
  // A full set of pivots solves the original system

  /** The values in variable order: x[c] == pushed[|pushed|-1-c]. */
  function Reversed<E>(pushed: seq<E>): (x: seq<E>)
    ensures |x| == |pushed|
    ensures forall c :: 0 <= c < |x| ==> x[c] == pushed[|pushed| - 1 - c]
  {
    seq(|pushed|, c requires 0 <= c < |pushed| => pushed[|pushed| - 1 - c])
  }

  lemma {:induction false} SumRangeSnoc<E(!new)>(F: Field<E>, row: seq<E>, x: seq<E>, lo: nat, hi: nat)
    requires IsField(F)
    requires lo <= hi < |row| && hi < |x|
    ensures SumRange(F, row, x, lo, hi + 1) == F.add(SumRange(F, row, x, lo, hi), F.mul(row[hi], x[hi]))
    decreases hi - lo
  {
    var last := F.mul(row[hi], x[hi]);
    if lo == hi {
      assert SumRange(F, row, x, hi + 1, hi + 1) == F.zero;
      AddZeroRight(F, last);
    } else {
      SumRangeSnoc(F, row, x, lo + 1, hi);
      var head := F.mul(row[lo], x[lo]);
      var rest := SumRange(F, row, x, lo + 1, hi);
      assert F.add(head, F.add(rest, last)) == F.add(F.add(head, rest), last);
    }
  }

  lemma {:induction false} SumRangeAgree<E>(F: Field<E>, row: seq<E>, x: seq<E>, y: seq<E>, lo: nat, hi: nat)
    requires lo <= hi <= |row| && hi <= |x| && hi <= |y|
    requires forall k :: lo <= k < hi ==> x[k] == y[k]
    ensures SumRange(F, row, x, lo, hi) == SumRange(F, row, y, lo, hi)
    decreases hi - lo
  {
    if lo < hi {
      SumRangeAgree(F, row, x, y, lo + 1, hi);
    }
  }

  lemma {:induction false} RangeDotAsSum<E>(F: Field<E>, row: seq<E>, pushed: seq<E>, lo: nat)
    requires lo <= |pushed| <= |row|
    ensures RangeDot(F, row, pushed, |pushed|, lo) == SumRange(F, row, Reversed(pushed), lo, |pushed|)
    decreases |pushed| - lo
  {
    if lo < |pushed| {
      RangeDotAsSum(F, row, pushed, lo + 1);
    }
  }

  /** Leading ZERO coefficients contribute nothing. */
  lemma {:induction false} SumRangeSkipZeros<E(!new)>(F: Field<E>, row: seq<E>, x: seq<E>, lo: nat, k: nat, hi: nat)
    requires IsField(F)
    requires lo <= k <= hi <= |row| && hi <= |x|
    requires forall c :: lo <= c < k ==> row[c] == F.zero
    ensures SumRange(F, row, x, lo, hi) == SumRange(F, row, x, k, hi)
    decreases k - lo
  {
    if lo < k {
      SumRangeSkipZeros(F, row, x, lo + 1, k, hi);
      var rest := SumRange(F, row, x, lo + 1, hi);
      calc {
        SumRange(F, row, x, lo, hi);
        F.add(F.mul(F.zero, x[lo]), rest);
        { MulZero(F, x[lo]); }
        F.add(F.zero, rest);
      }
    }
  }

  /** a + b·(-1) == ZERO exactly when a == b. */
  lemma Balance<E(!new)>(F: Field<E>, a: E, b: E)
    requires IsField(F)
    ensures F.add(a, F.mul(b, F.neg(F.one))) == F.zero <==> a == b
  {
    calc {
      F.mul(b, F.neg(F.one));
      { MulNeg(F, b, F.one); }
      F.neg(F.mul(b, F.one));
      { assert F.mul(F.one, b) == b; }
      F.neg(b);
    }
    if F.add(a, F.neg(b)) == F.zero {
      assert F.add(F.neg(b), a) == F.add(a, F.neg(b));
      NegUnique(F, F.neg(b), a);
      assert F.add(F.neg(b), b) == F.add(b, F.neg(b));
      NegUnique(F, F.neg(b), b);
    }
  }

  /** Trailing ZERO entries of x contribute nothing. */
  lemma {:induction false} SumRangeTrailingZeros<E(!new)>(F: Field<E>, row: seq<E>, x: seq<E>, lo: nat, k: nat, hi: nat)
    requires IsField(F)
    requires lo <= k <= hi <= |row| && hi <= |x|
    requires forall c :: k <= c < hi ==> x[c] == F.zero
    ensures SumRange(F, row, x, lo, hi) == SumRange(F, row, x, lo, k)
    decreases hi - k
  {
    if k < hi {
      SumRangeTrailingZeros(F, row, x, lo, k, hi - 1);
      SumRangeSnoc(F, row, x, lo, hi - 1);
      MulZero(F, row[hi - 1]);
      AddZeroRight(F, SumRange(F, row, x, lo, hi - 1));
    }
  }

  /** The augmented vector padded with ZEROs: x ++ [-1] ++ [0, …, 0]. */
  function Padded<E>(F: Field<E>, x: seq<E>, k: nat): (v: seq<E>)
    ensures |v| == |x| + 1 + k
    ensures v[..|x|] == x && v[|x|] == F.neg(F.one)
    ensures forall c :: |x| < c < |v| ==> v[c] == F.zero
  {
    x + [F.neg(F.one)] + seq(k, _ => F.zero)
  }

  /** With the padded vector, a row's sum is ZERO exactly when x meets the
      right-hand side held in column |x|, whatever the later columns hold. */
  lemma AugmentedPadded<E(!new)>(F: Field<E>, row: seq<E>, x: seq<E>, k: nat)
    requires IsField(F)
    requires |row| == |x| + 1 + k
    ensures SumRange(F, row, Padded(F, x, k), 0, |row|) == F.zero
      <==> SumRange(F, row, x, 0, |x|) == row[|x|]
  {
    var v := Padded(F, x, k);
    SumRangeTrailingZeros(F, row, v, 0, |x| + 1, |row|);
    SumRangeSnoc(F, row, v, 0, |x|);
    SumRangeAgree(F, row, x, v, 0, |x|);
    Balance(F, SumRange(F, row, x, 0, |x|), row[|x|]);
  }

  /** What `reduce_matrix` yields on the system G of |G| rows over cols
      columns: a reduced grid of G's shape with G's solutions, a pivot on the
      diagonal of each of its first |pushed| columns with ZEROs below, column
      |pushed| ZERO from row |pushed| down (elimination stopped there or ran
      out of rows), and the emitted values, which solve the reduced rows
      above the pivots with column |pushed| as right-hand side. */
  ghost predicate ReductionOf<E(!new)>(F: Field<E>, G: seq<seq<E>>, cols: nat, pushed: seq<E>, reduced: seq<seq<E>>)
  {
    && |pushed| <= |G| && |pushed| < cols
    && IsGrid(reduced, |G|, cols)
    && Equivalent(F, G, reduced)
    && Echelon(F, reduced, |pushed|)
    && (forall r :: |pushed| <= r < |G| ==> reduced[r][|pushed|] == F.zero)
    && (forall v :: 0 <= v < |pushed| ==> RangeDot(F, reduced[v], pushed, |pushed|, v) == reduced[v][|pushed|])
  }

  /** Whatever the number of pivots s, the emitted values in variable order
      meet every row of the original system with column s as right-hand
      side: row r sums, over its first s columns, to its entry in column s.
      With a pivot in every column but the last, this says they solve the
      system. */
  lemma ReductionSolves<E(!new)>(F: Field<E>, G: seq<seq<E>>, cols: nat, pushed: seq<E>, reduced: seq<seq<E>>)
    requires IsField(F)
    requires ReductionOf(F, G, cols, pushed, reduced)
    ensures forall r :: 0 <= r < |G| ==> |G[r]| == cols
    ensures forall r :: 0 <= r < |G| ==> SumRange(F, G[r], Reversed(pushed), 0, |pushed|) == G[r][|pushed|]
  {
    var s := |pushed|;
    var x := Reversed(pushed);
    var k := cols - s - 1;
    var v := Padded(F, x, k);
    forall r | 0 <= r < |G|
      ensures SumRange(F, reduced[r], v, 0, cols) == F.zero
    {
      if r < s {
        RangeDotAsSum(F, reduced[r], pushed, r);
        SumRangeSkipZeros(F, reduced[r], x, 0, r, s);
      } else {
        SumRangeSkipZeros(F, reduced[r], x, 0, s, s);
      }
      AugmentedPadded(F, reduced[r], x, k);
    }
    assert Solves(F, reduced, v);
    assert Solves(F, G, v);
    forall r | 0 <= r < |G|
      ensures SumRange(F, G[r], x, 0, s) == G[r][s]
    {
      AugmentedPadded(F, G[r], x, k);
    }
  }

  /** `reduce_matrix`: elimination, then emission of the solved values.
      The ghost outputs name the reduced grid and the number of pivots. */
  method ReduceMatrix<E(==,!new)>(F: Field<E>, m: array2<E>) returns (pushed: seq<E>, ghost reduced: seq<seq<E>>)
    requires IsField(F)
    requires m.Length0 < m.Length1
    modifies m
    ensures ReductionOf(F, old(Grid(m)), m.Length1, pushed, reduced)
    ensures forall r :: 0 <= r < m.Length0 ==> SumRange(F, old(Grid(m))[r], Reversed(pushed), 0, |pushed|) == old(m[r, |pushed|])
  {
    ghost var original := Grid(m);
    var solvable := ForwardEliminate(F, m);
    reduced := Grid(m);
    pushed := BackSubstitute(F, m, solvable);
    ReductionSolves(F, original, m.Length1, pushed, reduced);
  }
}
