/** The dense matrix of src/matrix.rs.  Its cells live in one buffer of
    `rows * cols` cells; the cell of (y, x) is `y * rows + x`, and the
    accessor checks `x < rows` and `y < cols`. */
module Matrices {
  import opened Outcomes

  /** Where (y, x) lives in the buffer: in range, when the pair is. */
  function Index(rows: nat, cols: nat, y: nat, x: nat): (i: nat)
    requires x < rows && y < cols
    ensures i < rows * cols
  {
    MulMonotone(y + 1, cols, rows);
    y * rows + x
  }

  lemma MulMonotone(a: nat, b: nat, c: nat)
    requires a <= b
    ensures a * c <= b * c
  {
  }

  /** Distinct in-range pairs land on distinct cells. */
  lemma IndexInjective(rows: nat, cols: nat, y: nat, x: nat, y': nat, x': nat)
    requires x < rows && y < cols && x' < rows && y' < cols
    requires (y, x) != (y', x')
    ensures Index(rows, cols, y, x) != Index(rows, cols, y', x')
  {
    if y < y' {
      MulMonotone(y + 1, y', rows);
    } else if y' < y {
      MulMonotone(y' + 1, y, rows);
    }
  }

  /** The cell at buffer position i holds the pair (i / rows, i % rows). */
  lemma IndexDivMod(rows: nat, cols: nat, y: nat, x: nat)
    requires x < rows && y < cols
    ensures Index(rows, cols, y, x) / rows == y && Index(rows, cols, y, x) % rows == x
  {
    var i := Index(rows, cols, y, x);
    var q, r := i / rows, i % rows;
    assert q * rows + r == y * rows + x;
    if q < y {
      MulMonotone(q + 1, y, rows);
      assert false;
    } else if y < q {
      MulMonotone(y + 1, q, rows);
      assert false;
    }
  }

  class Matrix<T> {
    const rows: nat
    const cols: nat
    /** The `Vec` backing the matrix; its length never changes after `new`. */
    const backing: array<T>
    /** The (y, x) arguments `new` passed to the generator, in call order. */
    ghost var generatorCalls: seq<(nat, nat)>

    ghost predicate Valid()
      reads this
    {
      backing.Length == rows * cols
    }

    /** The value of cell (y, x). */
    function Cell(y: nat, x: nat): T
      requires Valid() && x < rows && y < cols
      reads this, backing
    {
      backing[Index(rows, cols, y, x)]
    }

    /** `Matrix::new(rows, cols, generator)`: cell i is produced by
        `generator(i / rows, i % rows)`, called once per cell in increasing i. */
    constructor New(rows: nat, cols: nat, generator: (nat, nat) -> T)
      ensures this.rows == rows && this.cols == cols
      ensures Valid() && fresh(backing)
      ensures forall i :: 0 <= i < rows * cols ==> backing[i] == generator(i / rows, i % rows)
      ensures forall y, x :: 0 <= y < cols && 0 <= x < rows ==> Cell(y, x) == generator(y, x)
      ensures |generatorCalls| == rows * cols
      ensures forall i :: 0 <= i < rows * cols ==> generatorCalls[i] == (i / rows, i % rows)
    {
      var n := rows * cols;
      var cells: seq<T> := [];
      ghost var calls: seq<(nat, nat)> := [];
      var i := 0;
      while i < n
        invariant 0 <= i <= n && |cells| == i && |calls| == i
        invariant forall k :: 0 <= k < i ==> cells[k] == generator(k / rows, k % rows)
        invariant forall k :: 0 <= k < i ==> calls[k] == (k / rows, k % rows)
      {
        var x := i % rows;
        var y := i / rows;
        i := i + 1;
        cells := cells + [generator(y, x)];
        calls := calls + [(y, x)];
      }
      this.rows := rows;
      this.cols := cols;
      this.backing := new T[n](k requires 0 <= k < n => cells[k]);
      this.generatorCalls := calls;
      new;
      forall y, x | 0 <= y < cols && 0 <= x < rows
        ensures Cell(y, x) == generator(y, x)
      {
        IndexDivMod(rows, cols, y, x);
      }
    }

    /** `rows()`: the row count the matrix was built with, the bound `get`
        checks x against; the buffer holds rows() · cols cells, one for
        each pair it accepts. */
    function Rows(): (n: nat)
      reads this
      ensures n == rows
      ensures Valid() ==> n * cols == backing.Length
      ensures forall y, x :: 0 <= y < cols && 0 <= x < n ==> Index(n, cols, y, x) < n * cols
    {
      rows
    }

    /** `cols()`: the column count the matrix was built with, the bound
        `get` checks y against; the buffer holds rows · cols() cells, one
        for each pair it accepts. */
    function Cols(): (n: nat)
      reads this
      ensures n == cols
      ensures Valid() ==> rows * n == backing.Length
      ensures forall y, x :: 0 <= y < n && 0 <= x < rows ==> Index(rows, n, y, x) < rows * n
    {
      cols
    }

    /** Reading through `get(y, x)`: fails unless x < rows and y < cols. */
    method Get(y: nat, x: nat) returns (r: Result<T>)
      requires Valid()
      ensures r.Success? <==> x < rows && y < cols
      ensures r.Success? ==> r.value == backing[Index(rows, cols, y, x)] == Cell(y, x)
    {
      if !(x < rows) {
        return Failure("assertion failed: x < self.rows");
      }
      if !(y < cols) {
        return Failure("assertion failed: y < self.cols");
      }
      return Success(backing[Index(rows, cols, y, x)]);
    }

    /** Writing v through `get(y, x)`: only cell (y, x) changes. */
    method Set(y: nat, x: nat, v: T) returns (r: Result<()>)
      requires Valid()
      modifies backing
      ensures r.Success? <==> x < rows && y < cols
      ensures r.Success? ==> backing[..] == old(backing[..])[Index(rows, cols, y, x) := v]
      ensures r.Success? ==> Cell(y, x) == v
      ensures r.Success? ==> forall y', x' :: 0 <= y' < cols && 0 <= x' < rows && (y', x') != (y, x) ==>
        Cell(y', x') == old(Cell(y', x'))
      ensures r.Failure? ==> backing[..] == old(backing[..])
    {
      if !(x < rows) {
        return Failure("assertion failed: x < self.rows");
      }
      if !(y < cols) {
        return Failure("assertion failed: y < self.cols");
      }
      backing[Index(rows, cols, y, x)] := v;
      forall y', x' | 0 <= y' < cols && 0 <= x' < rows && (y', x') != (y, x)
        ensures Cell(y', x') == old(Cell(y', x'))
      {
        IndexInjective(rows, cols, y, x, y', x');
      }
      return Success(());
    }
  }
}
