/** The n x n transform: every row, then every column, through one line buffer. */
module TwoDimensionalFft {
  import opened Arithmetic
  import opened ComplexNumbers
  import opened FourierTransform
  import opened FourierInversion
  import opened RadixTwoFft

  // ----- row-major matrices -----

  function At(n: nat, r: nat, c: nat): (t: nat) {
    r * n + c
  }

  lemma AtBound(n: nat, r: nat, c: nat)
    requires r < n && c < n
    ensures At(n, r, c) < n * n
    ensures At(n, r, c) / n == r && At(n, r, c) % n == c
  {
    MulMonotone(r + 1, n, n);
    Quotient(r * n + c, n, r);
  }

  lemma AtInverse(n: nat, t: nat)
    requires t < n * n
    ensures n > 0 && t / n < n && t % n < n && t == At(n, t / n, t % n)
  {
    assert t == n * (t / n) + t % n;
    if t / n >= n {
      MulMonotone(n, t / n, n);
    }
  }

  lemma Coordinates(n: nat, t: nat) returns (r: nat, c: nat)
    requires t < n * n
    ensures r < n && c < n && t == At(n, r, c)
  {
    AtInverse(n, t);
    r, c := t / n, t % n;
  }

  predicate Square(m: seq<Complex>, n: nat) {
    |m| == n * n
  }

  function Cell(m: seq<Complex>, n: nat, r: nat, c: nat): Complex
    requires Square(m, n) && r < n && c < n
  {
    AtBound(n, r, c);
    m[At(n, r, c)]
  }

  lemma CellIs(m: seq<Complex>, n: nat, r: nat, c: nat)
    requires Square(m, n) && r < n && c < n
    ensures At(n, r, c) < |m| && Cell(m, n, r, c) == m[At(n, r, c)]
  {
    AtBound(n, r, c);
  }

  function Row(m: seq<Complex>, n: nat, r: nat): (s: seq<Complex>)
    requires Square(m, n) && r < n
    ensures |s| == n
  {
    seq(n, c requires 0 <= c < n => Cell(m, n, r, c))
  }

  function Column(m: seq<Complex>, n: nat, c: nat): (s: seq<Complex>)
    requires Square(m, n) && c < n
    ensures |s| == n
  {
    seq(n, r requires 0 <= r < n => Cell(m, n, r, c))
  }

  lemma SameCells(x: seq<Complex>, y: seq<Complex>, n: nat)
    requires Square(x, n) && Square(y, n)
    requires forall r, c :: 0 <= r < n && 0 <= c < n ==> Cell(x, n, r, c) == Cell(y, n, r, c)
    ensures x == y
  {
    hide At;
    forall t | 0 <= t < |x|
      ensures x[t] == y[t]
    {
      AtInverse(n, t);
      assert Cell(x, n, t / n, t % n) == Cell(y, n, t / n, t % n);
    }
  }

  // ----- the two passes -----

  /** Entry c of the transformed row r, and entry r of the transformed column c. */
  function RowValue(m: seq<Complex>, n: nat, k: nat, roots: seq<Complex>, inverse: bool, r: nat, c: nat): Complex
    requires Square(m, n) && k < |roots| && r < n && c < n
  {
    Transform(Row(m, n, r), k, roots, inverse)[c]
  }

  function ColumnValue(m: seq<Complex>, n: nat, k: nat, roots: seq<Complex>, inverse: bool, r: nat, c: nat): Complex
    requires Square(m, n) && k < |roots| && r < n && c < n
  {
    Transform(Column(m, n, c), k, roots, inverse)[r]
  }

  function RowPass(m: seq<Complex>, n: nat, k: nat, roots: seq<Complex>, inverse: bool): (x: seq<Complex>)
    requires Square(m, n) && k < |roots|
    ensures Square(x, n)
  {
    seq(n * n, t requires 0 <= t < n * n => AtInverse(n, t); RowValue(m, n, k, roots, inverse, t / n, t % n))
  }

  function ColumnPass(m: seq<Complex>, n: nat, k: nat, roots: seq<Complex>, inverse: bool): (x: seq<Complex>)
    requires Square(m, n) && k < |roots|
    ensures Square(x, n)
  {
    seq(n * n, t requires 0 <= t < n * n => AtInverse(n, t); ColumnValue(m, n, k, roots, inverse, t / n, t % n))
  }

  function Transform2(m: seq<Complex>, n: nat, k: nat, roots: seq<Complex>, inverse: bool): (x: seq<Complex>)
    requires Square(m, n) && k < |roots|
    ensures Square(x, n)
  {
    ColumnPass(RowPass(m, n, k, roots, inverse), n, k, roots, inverse)
  }

  lemma RowPassCell(m: seq<Complex>, n: nat, k: nat, roots: seq<Complex>, inverse: bool, r: nat, c: nat)
    requires Square(m, n) && k < |roots| && r < n && c < n
    ensures Cell(RowPass(m, n, k, roots, inverse), n, r, c) == Transform(Row(m, n, r), k, roots, inverse)[c]
  {
    hide At, Transform, Row;
    AtBound(n, r, c);
  }

  lemma ColumnPassCell(m: seq<Complex>, n: nat, k: nat, roots: seq<Complex>, inverse: bool, r: nat, c: nat)
    requires Square(m, n) && k < |roots| && r < n && c < n
    ensures Cell(ColumnPass(m, n, k, roots, inverse), n, r, c) == Transform(Column(m, n, c), k, roots, inverse)[r]
  {
    hide At, Transform, Column;
    AtBound(n, r, c);
  }

  // ----- the loops -----

  method LoadRow(m: array<Complex>, n: nat, r: nat, line: array<Complex>)
    requires Square(m[..], n) && r < n && line.Length == n && m != line
    modifies line
    ensures line[..] == Row(m[..], n, r)
  {
    var c := 0;
    while c < n
      invariant 0 <= c <= n
      invariant forall j :: 0 <= j < c ==> line[j] == Cell(m[..], n, r, j)
    {
      AtBound(n, r, c);
      line[c] := m[r * n + c];
      c := c + 1;
    }
  }

  method LoadColumn(m: array<Complex>, n: nat, c: nat, line: array<Complex>)
    requires Square(m[..], n) && c < n && line.Length == n && m != line
    modifies line
    ensures line[..] == Column(m[..], n, c)
  {
    var r := 0;
    while r < n
      invariant 0 <= r <= n
      invariant forall j :: 0 <= j < r ==> line[j] == Cell(m[..], n, j, c)
    {
      AtBound(n, r, c);
      line[r] := m[r * n + c];
      r := r + 1;
    }
  }

  method StoreRow(m: array<Complex>, n: nat, r: nat, line: array<Complex>)
    requires Square(m[..], n) && r < n && line.Length == n && m != line
    modifies m
    ensures forall i, j :: 0 <= i < n && 0 <= j < n ==>
      Cell(m[..], n, i, j) == if i == r then line[j] else Cell(old(m[..]), n, i, j)
  {
    ghost var m0 := m[..];
    var c := 0;
    while c < n
      invariant 0 <= c <= n
      invariant forall i, j :: 0 <= i < n && 0 <= j < n ==>
        Cell(m[..], n, i, j) == if i == r && j < c then line[j] else Cell(m0, n, i, j)
    {
      StoreCell(m, n, r, c, line[c]);
      c := c + 1;
    }
  }

  method StoreColumn(m: array<Complex>, n: nat, c: nat, line: array<Complex>)
    requires Square(m[..], n) && c < n && line.Length == n && m != line
    modifies m
    ensures forall i, j :: 0 <= i < n && 0 <= j < n ==>
      Cell(m[..], n, i, j) == if j == c then line[i] else Cell(old(m[..]), n, i, j)
  {
    ghost var m0 := m[..];
    var r := 0;
    while r < n
      invariant 0 <= r <= n
      invariant forall i, j :: 0 <= i < n && 0 <= j < n ==>
        Cell(m[..], n, i, j) == if j == c && i < r then line[i] else Cell(m0, n, i, j)
    {
      StoreCell(m, n, r, c, line[r]);
      r := r + 1;
    }
  }

  method StoreCell(m: array<Complex>, n: nat, r: nat, c: nat, x: Complex)
    requires Square(m[..], n) && r < n && c < n
    modifies m
    ensures forall i, j :: 0 <= i < n && 0 <= j < n ==>
      Cell(m[..], n, i, j) == if i == r && j == c then x else Cell(old(m[..]), n, i, j)
  {
    hide At;
    AtBound(n, r, c);
    assert At(n, r, c) == r * n + c by { AtFormula(n, r, c); }
    m[r * n + c] := x;
    forall i, j | 0 <= i < n && 0 <= j < n
      ensures Cell(m[..], n, i, j) == if i == r && j == c then x else Cell(old(m[..]), n, i, j)
    {
      AtBound(n, i, j);
    }
  }

  lemma AtFormula(n: nat, r: nat, c: nat)
    ensures At(n, r, c) == r * n + c
  {
  }

  /** fft2d: rows first, then columns, each through `line`. */
  method Fft2d(m: array<Complex>, n: nat, inverse: bool, roots: seq<Complex>, ghost k: nat)
    requires n == Pow2(k) && k < |roots| && RootTable(roots) && m.Length == n * n
    modifies m
    ensures m[..] == Transform2(old(m[..]), n, k, roots, inverse)
  {
    hide At, Cell, Row, Column, RowPass, ColumnPass, Transform, RootTable, Pow2;
    ghost var m0 := m[..];
    ghost var m1 := RowPass(m0, n, k, roots, inverse);
    ghost var m2 := ColumnPass(m1, n, k, roots, inverse);
    var line := new Complex[n](i => ZERO);
    var r := 0;
    while r < n
      invariant 0 <= r <= n
      invariant forall i, j :: 0 <= i < n && 0 <= j < n ==>
        Cell(m[..], n, i, j) == if i < r then Cell(m1, n, i, j) else Cell(m0, n, i, j)
    {
      LoadRow(m, n, r, line);
      RowUnchanged(m[..], m0, n, r);
      Fft1d(line, inverse, roots, k);
      forall j | 0 <= j < n
        ensures Cell(m1, n, r, j) == line[j]
      {
        RowPassCell(m0, n, k, roots, inverse, r, j);
      }
      StoreRow(m, n, r, line);
      r := r + 1;
    }
    SameCells(m[..], m1, n);
    var c := 0;
    while c < n
      invariant 0 <= c <= n
      invariant forall i, j :: 0 <= i < n && 0 <= j < n ==>
        Cell(m[..], n, i, j) == if j < c then Cell(m2, n, i, j) else Cell(m1, n, i, j)
    {
      LoadColumn(m, n, c, line);
      ColumnUnchanged(m[..], m1, n, c);
      Fft1d(line, inverse, roots, k);
      forall i | 0 <= i < n
        ensures Cell(m2, n, i, c) == line[i]
      {
        ColumnPassCell(m1, n, k, roots, inverse, i, c);
      }
      StoreColumn(m, n, c, line);
      c := c + 1;
    }
    SameCells(m[..], m2, n);
  }

  lemma RowUnchanged(x: seq<Complex>, y: seq<Complex>, n: nat, r: nat)
    requires Square(x, n) && Square(y, n) && r < n
    requires forall j :: 0 <= j < n ==> Cell(x, n, r, j) == Cell(y, n, r, j)
    ensures Row(x, n, r) == Row(y, n, r)
  {
    hide Cell;
  }

  lemma ColumnUnchanged(x: seq<Complex>, y: seq<Complex>, n: nat, c: nat)
    requires Square(x, n) && Square(y, n) && c < n
    requires forall i :: 0 <= i < n ==> Cell(x, n, i, c) == Cell(y, n, i, c)
    ensures Column(x, n, c) == Column(y, n, c)
  {
    hide Cell;
  }
}
