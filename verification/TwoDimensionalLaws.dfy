/** What the two-dimensional transform computes: the double sum, its inverse, and how a
    circular shift in both directions multiplies it. */
module TwoDimensionalLaws {
  import opened Arithmetic
  import opened ComplexNumbers
  import opened FourierTransform
  import opened FourierInversion
  import opened RadixTwoFft
  import opened TwoDimensionalFft

  function Factor(k: nat, inverse: bool): real {
    if inverse then 1.0 / Pow2(k) as real else 1.0
  }

  lemma TransformAt(a: seq<Complex>, k: nat, roots: seq<Complex>, inverse: bool, i: nat)
    requires k < |roots| && i < |a|
    ensures Transform(a, k, roots, inverse)[i]
         == Scale(Factor(k, inverse), Eval(a, Pow(Table(roots, inverse)[k], i)))
  {
    hide Scale, Eval, Pow, Table, Mul;
    ScaleOne(Eval(a, Pow(Table(roots, inverse)[k], i)));
  }

  // ----- the double sum -----

  /** sum over r < n, c < n of m[r][c] * w^(r*p) * w^(c*q), as a sum of row sums. */
  function DoubleSum(m: seq<Complex>, n: nat, w: Complex, p: nat, q: nat): Complex
    requires Square(m, n)
  {
    DftSum(RowSums(m, n, w, q), w, p, n)
  }

  function RowSums(m: seq<Complex>, n: nat, w: Complex, q: nat): (s: seq<Complex>)
    requires Square(m, n)
    ensures |s| == n
  {
    seq(n, r requires 0 <= r < n => DftSum(Row(m, n, r), w, q, n))
  }

  /** Every entry of the forward two-dimensional transform is the defining double sum. */
  lemma Transform2IsDoubleSum(m: seq<Complex>, n: nat, k: nat, roots: seq<Complex>, p: nat, q: nat)
    requires n == Pow2(k) && Square(m, n) && k < |roots| && p < n && q < n
    ensures Cell(Transform2(m, n, k, roots, false), n, p, q) == DoubleSum(m, n, roots[k], p, q)
  {
    hide Cell, At, Transform, DftSum, Row, Column, RowPass, ColumnPass;
    var x := RowPass(m, n, k, roots, false);
    ColumnPassCell(x, n, k, roots, false, p, q);
    forall r | 0 <= r < n
      ensures Column(x, n, q)[r] == RowSums(m, n, roots[k], q)[r]
    {
      ColumnAt(x, n, q, r);
      RowPassCell(m, n, k, roots, false, r, q);
      TransformIsSum(Row(m, n, r), k, roots, q);
    }
    assert Column(x, n, q) == RowSums(m, n, roots[k], q);
    TransformIsSum(Column(x, n, q), k, roots, p);
  }

  lemma ColumnAt(m: seq<Complex>, n: nat, c: nat, r: nat)
    requires Square(m, n) && r < n && c < n
    ensures Column(m, n, c)[r] == Cell(m, n, r, c)
  {
  }

  lemma RowAt(m: seq<Complex>, n: nat, r: nat, c: nat)
    requires Square(m, n) && r < n && c < n
    ensures Row(m, n, r)[c] == Cell(m, n, r, c)
  {
  }

  // ----- rows and columns commute -----

  function SeqMul(y: Complex, a: seq<Complex>): seq<Complex>
  {
    seq(|a|, i requires 0 <= i < |a| => Mul(y, a[i]))
  }

  lemma {:induction false} EvalMul(y: Complex, a: seq<Complex>, z: Complex)
    ensures Eval(SeqMul(y, a), z) == Mul(y, Eval(a, z))
  {
    hide Mul;
    if a == [] {
      MulZero(y);
    } else {
      assert SeqMul(y, a)[1..] == SeqMul(y, a[1..]);
      EvalMul(y, a[1..], z);
      var e := Eval(a[1..], z);
      MulDistributes(y, a[0], Mul(z, e));
      MulAssociates(z, y, e);
      MulCommutes(z, y);
      MulAssociates(y, z, e);
    }
  }

  predicate Rectangular(rows: seq<seq<Complex>>, n: nat) {
    forall r :: 0 <= r < |rows| ==> |rows[r]| == n
  }

  function Across(rows: seq<seq<Complex>>, z: Complex): seq<Complex>
  {
    seq(|rows|, r requires 0 <= r < |rows| => Eval(rows[r], z))
  }

  function Stripe(rows: seq<seq<Complex>>, n: nat, c: nat): seq<Complex>
    requires Rectangular(rows, n) && c < n
  {
    seq(|rows|, r requires 0 <= r < |rows| => rows[r][c])
  }

  function Down(rows: seq<seq<Complex>>, n: nat, y: Complex): seq<Complex>
    requires Rectangular(rows, n)
  {
    seq(n, c requires 0 <= c < n => Eval(Stripe(rows, n, c), y))
  }

  lemma {:induction false} EvalZeros(n: nat, a: seq<Complex>, z: Complex)
    requires |a| == n && forall i :: 0 <= i < n ==> a[i] == ZERO
    ensures Eval(a, z) == ZERO
    decreases n
  {
    hide Mul;
    if n != 0 {
      EvalZeros(n - 1, a[1..], z);
      MulZero(z);
    }
  }

  /** Summing down the columns first or along the rows first makes no difference. */
  lemma {:induction false} SumsExchange(rows: seq<seq<Complex>>, n: nat, y: Complex, z: Complex)
    requires Rectangular(rows, n)
    ensures Eval(Down(rows, n, y), z) == Eval(Across(rows, z), y)
  {
    hide Mul;
    if rows == [] {
      EvalZeros(n, Down(rows, n, y), z);
    } else {
      var rest := rows[1..];
      SumsExchange(rest, n, y, z);
      DownStep(rows, n, y);
      EvalAdd(rows[0], SeqMul(y, Down(rest, n, y)), z);
      EvalMul(y, Down(rest, n, y), z);
      assert Across(rows, z)[1..] == Across(rest, z);
    }
  }

  lemma DownStep(rows: seq<seq<Complex>>, n: nat, y: Complex)
    requires Rectangular(rows, n) && rows != []
    ensures Down(rows, n, y) == SeqAdd(rows[0], SeqMul(y, Down(rows[1..], n, y)))
  {
    hide Mul;
    var rest := rows[1..];
    forall c | 0 <= c < n
      ensures Down(rows, n, y)[c] == Add(rows[0][c], Mul(y, Down(rest, n, y)[c]))
    {
      assert Stripe(rows, n, c)[1..] == Stripe(rest, n, c);
    }
  }

  function Rows(m: seq<Complex>, n: nat): (s: seq<seq<Complex>>)
    requires Square(m, n)
    ensures |s| == n && Rectangular(s, n)
  {
    seq(n, r requires 0 <= r < n => Row(m, n, r))
  }

  /** A row pass and a column pass over the same matrix can be exchanged, whatever their
      directions. */
  lemma PassesCommute(m: seq<Complex>, n: nat, k: nat, roots: seq<Complex>, inv1: bool, inv2: bool)
    requires Square(m, n) && k < |roots|
    ensures RowPass(ColumnPass(m, n, k, roots, inv1), n, k, roots, inv2)
         == ColumnPass(RowPass(m, n, k, roots, inv2), n, k, roots, inv1)
  {
    hide *;
    var x := ColumnPass(m, n, k, roots, inv1);
    var y := RowPass(m, n, k, roots, inv2);
    var u := RowPass(x, n, k, roots, inv2);
    var v := ColumnPass(y, n, k, roots, inv1);
    forall r, c | 0 <= r < n && 0 <= c < n
      ensures Cell(u, n, r, c) == Cell(v, n, r, c)
    {
      RowOfColumns(m, n, k, roots, inv1, inv2, r, c);
      ColumnOfRows(m, n, k, roots, inv1, inv2, r, c);
      var y := Pow(Table(roots, inv1)[k], r);
      var z := Pow(Table(roots, inv2)[k], c);
      SumsExchange(Rows(m, n), n, y, z);
      ScalesCommute(Factor(k, inv1), Factor(k, inv2), Eval(Across(Rows(m, n), z), y));
    }
    SameCells(u, v, n);
  }

  lemma ScalesCommute(r: real, s: real, x: Complex)
    ensures Scale(r, Scale(s, x)) == Scale(s, Scale(r, x))
  {
  }

  lemma RowOfColumns(m: seq<Complex>, n: nat, k: nat, roots: seq<Complex>, inv1: bool, inv2: bool, r: nat, c: nat)
    requires Square(m, n) && k < |roots| && r < n && c < n
    ensures var y := Pow(Table(roots, inv1)[k], r); var z := Pow(Table(roots, inv2)[k], c);
      Cell(RowPass(ColumnPass(m, n, k, roots, inv1), n, k, roots, inv2), n, r, c)
      == Scale(Factor(k, inv2), Scale(Factor(k, inv1), Eval(Down(Rows(m, n), n, y), z)))
  {
    hide Cell, At, Transform, RowPass, ColumnPass, Mul, Pow, Eval, Table, Factor, Scale, Row, Column, Stripe;
    var x := ColumnPass(m, n, k, roots, inv1);
    var y := Pow(Table(roots, inv1)[k], r);
    var z := Pow(Table(roots, inv2)[k], c);
    var s := Factor(k, inv1);
    RowPassCell(x, n, k, roots, inv2, r, c);
    TransformAt(Row(x, n, r), k, roots, inv2, c);
    forall j | 0 <= j < n
      ensures Row(x, n, r)[j] == Scale(s, Down(Rows(m, n), n, y)[j])
    {
      RowAt(x, n, r, j);
      ColumnPassCell(m, n, k, roots, inv1, r, j);
      TransformAt(Column(m, n, j), k, roots, inv1, r);
      StripeIsColumn(m, n, j);
    }
    assert Row(x, n, r) == SeqScale(s, Down(Rows(m, n), n, y));
    EvalScale(s, Down(Rows(m, n), n, y), z);
  }

  lemma ColumnOfRows(m: seq<Complex>, n: nat, k: nat, roots: seq<Complex>, inv1: bool, inv2: bool, r: nat, c: nat)
    requires Square(m, n) && k < |roots| && r < n && c < n
    ensures var y := Pow(Table(roots, inv1)[k], r); var z := Pow(Table(roots, inv2)[k], c);
      Cell(ColumnPass(RowPass(m, n, k, roots, inv2), n, k, roots, inv1), n, r, c)
      == Scale(Factor(k, inv1), Scale(Factor(k, inv2), Eval(Across(Rows(m, n), z), y)))
  {
    hide Cell, At, Transform, RowPass, ColumnPass, Mul, Pow, Eval, Table, Factor, Scale, Row, Column;
    var x := RowPass(m, n, k, roots, inv2);
    var y := Pow(Table(roots, inv1)[k], r);
    var z := Pow(Table(roots, inv2)[k], c);
    var s := Factor(k, inv2);
    ColumnPassCell(x, n, k, roots, inv1, r, c);
    TransformAt(Column(x, n, c), k, roots, inv1, r);
    forall j | 0 <= j < n
      ensures Column(x, n, c)[j] == Scale(s, Across(Rows(m, n), z)[j])
    {
      ColumnAt(x, n, c, j);
      RowPassCell(m, n, k, roots, inv2, j, c);
      TransformAt(Row(m, n, j), k, roots, inv2, c);
    }
    assert Column(x, n, c) == SeqScale(s, Across(Rows(m, n), z));
    EvalScale(s, Across(Rows(m, n), z), y);
  }

  lemma StripeIsColumn(m: seq<Complex>, n: nat, c: nat)
    requires Square(m, n) && c < n
    ensures Stripe(Rows(m, n), n, c) == Column(m, n, c)
  {
    hide Cell, At;
  }

  // ----- inverse -----

  lemma RowPassInverse(m: seq<Complex>, n: nat, k: nat, roots: seq<Complex>, inverse: bool)
    requires n == Pow2(k) && Square(m, n) && k < |roots| && RootTable(roots)
    ensures RowPass(RowPass(m, n, k, roots, inverse), n, k, roots, !inverse) == m
  {
    hide *;
    var x := RowPass(m, n, k, roots, inverse);
    var y := RowPass(x, n, k, roots, !inverse);
    forall r, c | 0 <= r < n && 0 <= c < n
      ensures Cell(y, n, r, c) == Cell(m, n, r, c)
    {
      RowPassCell(x, n, k, roots, !inverse, r, c);
      var t := Transform(Row(m, n, r), k, roots, inverse);
      forall j | 0 <= j < n
        ensures Row(x, n, r)[j] == t[j]
      {
        RowAt(x, n, r, j);
        RowPassCell(m, n, k, roots, inverse, r, j);
      }
      assert Row(x, n, r) == t;
      RoundTrip(Row(m, n, r), k, roots, inverse);
      RowAt(m, n, r, c);
    }
    SameCells(y, m, n);
  }

  lemma ColumnPassInverse(m: seq<Complex>, n: nat, k: nat, roots: seq<Complex>, inverse: bool)
    requires n == Pow2(k) && Square(m, n) && k < |roots| && RootTable(roots)
    ensures ColumnPass(ColumnPass(m, n, k, roots, inverse), n, k, roots, !inverse) == m
  {
    hide *;
    var x := ColumnPass(m, n, k, roots, inverse);
    var y := ColumnPass(x, n, k, roots, !inverse);
    forall r, c | 0 <= r < n && 0 <= c < n
      ensures Cell(y, n, r, c) == Cell(m, n, r, c)
    {
      ColumnPassCell(x, n, k, roots, !inverse, r, c);
      var t := Transform(Column(m, n, c), k, roots, inverse);
      forall j | 0 <= j < n
        ensures Column(x, n, c)[j] == t[j]
      {
        ColumnAt(x, n, c, j);
        ColumnPassCell(m, n, k, roots, inverse, j, c);
      }
      assert Column(x, n, c) == t;
      RoundTrip(Column(m, n, c), k, roots, inverse);
      ColumnAt(m, n, c, r);
    }
    SameCells(y, m, n);
  }

  /** A two-dimensional call in one direction after a call in the other restores the matrix. */
  lemma RoundTrip2(m: seq<Complex>, n: nat, k: nat, roots: seq<Complex>, inverse: bool)
    requires n == Pow2(k) && Square(m, n) && k < |roots| && RootTable(roots)
    ensures Transform2(Transform2(m, n, k, roots, inverse), n, k, roots, !inverse) == m
  {
    hide RowPass, ColumnPass, Square, RootTable, Pow2;
    var x := RowPass(m, n, k, roots, inverse);
    PassesCommute(x, n, k, roots, inverse, !inverse);
    RowPassInverse(m, n, k, roots, inverse);
    ColumnPassInverse(m, n, k, roots, inverse);
  }
}
