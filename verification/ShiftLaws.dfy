/** Circular shifts of an n x n matrix and the impulse they are recognised by. */
module ShiftLaws {
  import opened Arithmetic
  import opened ComplexNumbers
  import opened FourierTransform
  import opened FourierInversion
  import opened RadixTwoFft
  import opened TwoDimensionalFft
  import opened TwoDimensionalLaws

  /** Index i moved d places forward, cyclically. */
  function Moved(i: nat, d: nat, n: nat): (r: nat)
    requires n > 0
    ensures r < n
  {
    (i + d) % n
  }

  /** `y` is `x` moved dr rows down and dc columns right, cyclically. */
  predicate IsShift(x: seq<Complex>, y: seq<Complex>, n: nat, dr: nat, dc: nat)
    requires Square(x, n) && Square(y, n)
  {
    forall r, c :: 0 <= r < n && 0 <= c < n ==>
      Cell(y, n, Moved(r, dr, n), Moved(c, dc, n)) == Cell(x, n, r, c)
  }

  /** The unit impulse at (dr, dc). */
  function Impulse(n: nat, dr: nat, dc: nat): (m: seq<Complex>)
    requires dr < n && dc < n
    ensures Square(m, n)
  {
    seq(n * n, t requires 0 <= t < n * n => if t == At(n, dr, dc) then ONE else ZERO)
  }

  lemma ImpulseCell(n: nat, dr: nat, dc: nat, r: nat, c: nat)
    requires dr < n && dc < n && r < n && c < n
    ensures Cell(Impulse(n, dr, dc), n, r, c) == if r == dr && c == dc then ONE else ZERO
  {
    hide At;
    AtBound(n, dr, dc);
    AtBound(n, r, c);
  }

  /** The phase factor of frequency (p, q) for a shift by (dr, dc). */
  function Phase(w: Complex, dr: nat, dc: nat, p: nat, q: nat): Complex {
    Mul(Pow(Pow(w, p), dr), Pow(Pow(w, q), dc))
  }

  lemma RotateUnique(a: seq<Complex>, b: seq<Complex>, d: nat)
    requires |a| == |b| && d < |a|
    requires forall i :: 0 <= i < |a| ==> b[Moved(i, d, |a|)] == a[i]
    ensures b == Rotate(a, d)
  {
    var n := |a|;
    forall j | 0 <= j < n
      ensures b[j] == Rotate(a, d)[j]
    {
      var i := if j >= d then j - d else j - d + n;
      ModOnce(i + d, n);
      assert Moved(i, d, n) == j;
      RotateAt(a, d, i);
    }
  }

  lemma RootCycle(w: Complex, k: nat, p: nat)
    requires Primitive(w, k)
    ensures Pow(Pow(w, p), Pow2(k)) == ONE
  {
    hide Mul, Pow, Primitive;
    PrimitiveOrder(w, k);
    PowPow(w, p, Pow2(k));
    PowPow(w, Pow2(k), p);
    assert p * Pow2(k) == Pow2(k) * p;
    PowOne(p);
  }

  /** A row pass turns the column part of a shift into a factor. */
  lemma ShiftedRow(x: seq<Complex>, y: seq<Complex>, n: nat, k: nat, roots: seq<Complex>,
      dr: nat, dc: nat, r: nat, q: nat)
    requires n == Pow2(k) && Square(x, n) && Square(y, n) && k < |roots| && RootTable(roots)
    requires dr < n && dc < n && r < n && q < n && IsShift(x, y, n, dr, dc)
    ensures Cell(RowPass(y, n, k, roots, false), n, Moved(r, dr, n), q)
         == Mul(Pow(Pow(roots[k], q), dc), Cell(RowPass(x, n, k, roots, false), n, r, q))
  {
    hide *;
    var a, b := Row(x, n, r), Row(y, n, Moved(r, dr, n));
    var z := Pow(roots[k], q);
    assert b == Rotate(a, dc) by { ShiftedLine(x, y, n, dr, dc, r); }
    RowPassCell(x, n, k, roots, false, r, q);
    RowPassCell(y, n, k, roots, false, Moved(r, dr, n), q);
    ForwardAt(a, k, roots, q);
    ForwardAt(b, k, roots, q);
    RootsPrimitive(roots, k);
    RootCycle(roots[k], k, q);
    ShiftTheorem(a, dc, z);
  }

  lemma ShiftedLine(x: seq<Complex>, y: seq<Complex>, n: nat, dr: nat, dc: nat, r: nat)
    requires Square(x, n) && Square(y, n) && dr < n && dc < n && r < n && IsShift(x, y, n, dr, dc)
    ensures Row(y, n, Moved(r, dr, n)) == Rotate(Row(x, n, r), dc)
  {
    hide Cell, At, Moved, Rotate;
    var a, b := Row(x, n, r), Row(y, n, Moved(r, dr, n));
    forall c | 0 <= c < n
      ensures b[Moved(c, dc, n)] == a[c]
    {
    }
    RotateUnique(a, b, dc);
  }

  lemma ForwardAt(a: seq<Complex>, k: nat, roots: seq<Complex>, q: nat)
    requires k < |roots| && q < |a|
    ensures Transform(a, k, roots, false)[q] == Eval(a, Pow(roots[k], q))
  {
    hide Eval, Pow, Mul;
  }

  /** The two-dimensional shift theorem: shifting multiplies each frequency by its phase. */
  lemma ShiftTheorem2(x: seq<Complex>, y: seq<Complex>, n: nat, k: nat, roots: seq<Complex>,
      dr: nat, dc: nat, p: nat, q: nat)
    requires n == Pow2(k) && Square(x, n) && Square(y, n) && k < |roots| && RootTable(roots)
    requires dr < n && dc < n && p < n && q < n && IsShift(x, y, n, dr, dc)
    ensures Cell(Transform2(y, n, k, roots, false), n, p, q)
         == Mul(Phase(roots[k], dr, dc, p, q), Cell(Transform2(x, n, k, roots, false), n, p, q))
  {
    hide Cell, At, Transform, RowPass, ColumnPass, Mul, Pow, Eval, Row, Column, IsShift, RootTable, Pow2, Rotate,
      SeqMul;
    var u, v := RowPass(x, n, k, roots, false), RowPass(y, n, k, roots, false);
    var f, z := Pow(Pow(roots[k], q), dc), Pow(roots[k], p);
    var a, b := Column(u, n, q), Column(v, n, q);
    assert b == Rotate(SeqMul(f, a), dr) by {
      ShiftedColumn(x, y, n, k, roots, dr, dc, q);
    }
    ColumnPassCell(u, n, k, roots, false, p, q);
    ColumnPassCell(v, n, k, roots, false, p, q);
    ForwardAt(a, k, roots, p);
    ForwardAt(b, k, roots, p);
    RootsPrimitive(roots, k);
    RootCycle(roots[k], k, p);
    SeqMulLength(f, a);
    ShiftTheorem(SeqMul(f, a), dr, z);
    EvalMul(f, a, z);
    MulAssociates(Pow(z, dr), f, Eval(a, z));
  }

  lemma SeqMulLength(f: Complex, a: seq<Complex>)
    ensures |SeqMul(f, a)| == |a|
  {
  }

  lemma ShiftedColumn(x: seq<Complex>, y: seq<Complex>, n: nat, k: nat, roots: seq<Complex>,
      dr: nat, dc: nat, q: nat)
    requires n == Pow2(k) && Square(x, n) && Square(y, n) && k < |roots| && RootTable(roots)
    requires dr < n && dc < n && q < n && IsShift(x, y, n, dr, dc)
    ensures |SeqMul(Pow(Pow(roots[k], q), dc), Column(RowPass(x, n, k, roots, false), n, q))| == n
    ensures Column(RowPass(y, n, k, roots, false), n, q)
         == Rotate(SeqMul(Pow(Pow(roots[k], q), dc), Column(RowPass(x, n, k, roots, false), n, q)), dr)
  {
    hide Cell, At, Transform, RowPass, Mul, Pow, Row, Column, IsShift, RootTable, Pow2, Moved, Rotate;
    var u, v := RowPass(x, n, k, roots, false), RowPass(y, n, k, roots, false);
    var f := Pow(Pow(roots[k], q), dc);
    var a, b := SeqMul(f, Column(u, n, q)), Column(v, n, q);
    forall r | 0 <= r < n
      ensures b[Moved(r, dr, n)] == a[r]
    {
      ShiftedRow(x, y, n, k, roots, dr, dc, r, q);
      ColumnAt(u, n, q, r);
      ColumnAt(v, n, q, Moved(r, dr, n));
    }
    RotateUnique(a, b, dr);
  }

  // ----- the impulse -----

  lemma {:induction false} EvalUnit(n: nat, a: seq<Complex>, z: Complex)
    requires |a| == n && n > 0 && a[0] == ONE && forall i :: 1 <= i < n ==> a[i] == ZERO
    ensures Eval(a, z) == ONE
  {
    hide Mul;
    EvalZeros(n - 1, a[1..], z);
    MulZero(z);
  }

  /** The impulse at the origin has a constant transform, in either direction. */
  lemma OriginTransform(n: nat, k: nat, roots: seq<Complex>, inverse: bool, p: nat, q: nat)
    requires n == Pow2(k) && k < |roots| && p < n && q < n
    ensures Cell(Transform2(Impulse(n, 0, 0), n, k, roots, inverse), n, p, q)
         == Scale(Factor(k, inverse), Scale(Factor(k, inverse), ONE))
  {
    hide Cell, At, Transform, RowPass, ColumnPass, Mul, Pow, Eval, Row, Column, Impulse, Factor, Scale, Table;
    var m := Impulse(n, 0, 0);
    var f := Factor(k, inverse);
    var u := RowPass(m, n, k, roots, inverse);
    var a := Column(u, n, q);
    var z := Pow(Table(roots, inverse)[k], q);
    var unit := seq(n, r requires 0 <= r < n => if r == 0 then ONE else ZERO);
    forall r | 0 <= r < n
      ensures a[r] == Scale(f, unit[r])
    {
      ColumnAt(u, n, q, r);
      RowPassCell(m, n, k, roots, inverse, r, q);
      TransformAt(Row(m, n, r), k, roots, inverse, q);
      forall c | 0 <= c < n
        ensures Row(m, n, r)[c] == if r == 0 && c == 0 then ONE else ZERO
      {
        RowAt(m, n, r, c);
        ImpulseCell(n, 0, 0, r, c);
      }
      if r == 0 {
        EvalUnit(n, Row(m, n, r), z);
      } else {
        EvalZeros(n, Row(m, n, r), z);
      }
    }
    assert a == SeqScale(f, unit);
    ColumnPassCell(u, n, k, roots, inverse, p, q);
    TransformAt(a, k, roots, inverse, p);
    var y := Pow(Table(roots, inverse)[k], p);
    EvalScale(f, unit, y);
    EvalUnit(n, unit, y);
  }

  lemma OriginSpectrum(n: nat, k: nat, roots: seq<Complex>, p: nat, q: nat)
    requires n == Pow2(k) && k < |roots| && p < n && q < n
    ensures Cell(Transform2(Impulse(n, 0, 0), n, k, roots, false), n, p, q) == ONE
  {
    hide Transform2, Impulse, Cell, At, Scale;
    OriginTransform(n, k, roots, false, p, q);
    ScaleOne(ONE);
  }

  lemma ImpulseIsShift(n: nat, dr: nat, dc: nat)
    requires dr < n && dc < n
    ensures IsShift(Impulse(n, 0, 0), Impulse(n, dr, dc), n, dr, dc)
  {
    hide Cell, At, Impulse;
    forall r, c | 0 <= r < n && 0 <= c < n
      ensures Cell(Impulse(n, dr, dc), n, Moved(r, dr, n), Moved(c, dc, n)) == Cell(Impulse(n, 0, 0), n, r, c)
    {
      ImpulseCell(n, 0, 0, r, c);
      ImpulseCell(n, dr, dc, Moved(r, dr, n), Moved(c, dc, n));
      ModOnce(r + dr, n);
      ModOnce(c + dc, n);
    }
  }

  /** The spectrum of a shifted impulse is exactly the phase factors of the shift. */
  lemma ImpulseSpectrum(n: nat, k: nat, roots: seq<Complex>, dr: nat, dc: nat, p: nat, q: nat)
    requires n == Pow2(k) && k < |roots| && RootTable(roots)
    requires dr < n && dc < n && p < n && q < n
    ensures Cell(Transform2(Impulse(n, dr, dc), n, k, roots, false), n, p, q)
         == Phase(roots[k], dr, dc, p, q)
  {
    hide *;
    ImpulseIsShift(n, dr, dc);
    ShiftTheorem2(Impulse(n, 0, 0), Impulse(n, dr, dc), n, k, roots, dr, dc, p, q);
    OriginSpectrum(n, k, roots, p, q);
    MulOne(Phase(roots[k], dr, dc, p, q));
  }

  lemma PhaseUnit(roots: seq<Complex>, k: nat, dr: nat, dc: nat, p: nat, q: nat)
    requires RootTable(roots) && k < |roots|
    ensures NormSq(Phase(roots[k], dr, dc, p, q)) == 1.0
  {
    hide Mul, NormSq, Pow;
    var w := roots[k];
    RootsUnit(roots, k);
    PowNorm(w, p);
    PowNorm(w, q);
    PowNorm(Pow(w, p), dr);
    PowNorm(Pow(w, q), dc);
    NormSqMul(Pow(Pow(w, p), dr), Pow(Pow(w, q), dc));
  }

  // ----- differences -----

  function SeqSub(a: seq<Complex>, b: seq<Complex>): (r: seq<Complex>)
    requires |a| == |b|
    ensures |r| == |a|
  {
    seq(|a|, i requires 0 <= i < |a| => Sub(a[i], b[i]))
  }

  lemma MulSub(y: Complex, a: Complex, b: Complex)
    ensures Mul(y, Sub(a, b)) == Sub(Mul(y, a), Mul(y, b))
  {
  }

  lemma ScaleSub(r: real, a: Complex, b: Complex)
    ensures Scale(r, Sub(a, b)) == Sub(Scale(r, a), Scale(r, b))
  {
  }

  lemma AddSub(a: Complex, b: Complex, c: Complex, d: Complex)
    ensures Add(Sub(a, b), Sub(c, d)) == Sub(Add(a, c), Add(b, d))
  {
  }

  lemma {:induction false} EvalSub(a: seq<Complex>, b: seq<Complex>, z: Complex)
    requires |a| == |b|
    ensures Eval(SeqSub(a, b), z) == Sub(Eval(a, z), Eval(b, z))
  {
    hide Mul, Sub, Add, Scale;
    if a == [] {
      assert Sub(ZERO, ZERO) == ZERO by { SubSame(ZERO); }
    } else {
      assert SeqSub(a, b)[1..] == SeqSub(a[1..], b[1..]);
      EvalSub(a[1..], b[1..], z);
      MulSub(z, Eval(a[1..], z), Eval(b[1..], z));
      AddSub(a[0], b[0], Mul(z, Eval(a[1..], z)), Mul(z, Eval(b[1..], z)));
    }
  }

  lemma SubSame(a: Complex)
    ensures Sub(a, a) == ZERO
  {
  }

  lemma TransformSub(a: seq<Complex>, b: seq<Complex>, k: nat, roots: seq<Complex>, inverse: bool, i: nat)
    requires |a| == |b| && k < |roots| && i < |a|
    ensures Transform(SeqSub(a, b), k, roots, inverse)[i]
         == Sub(Transform(a, k, roots, inverse)[i], Transform(b, k, roots, inverse)[i])
  {
    hide *;
    var z := Pow(Table(roots, inverse)[k], i);
    TransformAt(a, k, roots, inverse, i);
    TransformAt(b, k, roots, inverse, i);
    TransformAt(SeqSub(a, b), k, roots, inverse, i);
    EvalSub(a, b, z);
    ScaleSub(Factor(k, inverse), Eval(a, z), Eval(b, z));
  }

  lemma SubCell(x: seq<Complex>, y: seq<Complex>, n: nat, r: nat, c: nat)
    requires Square(x, n) && Square(y, n) && r < n && c < n
    ensures Cell(SeqSub(x, y), n, r, c) == Sub(Cell(x, n, r, c), Cell(y, n, r, c))
  {
    hide Sub, At;
    AtBound(n, r, c);
  }

  lemma RowPassSub(x: seq<Complex>, y: seq<Complex>, n: nat, k: nat, roots: seq<Complex>, inverse: bool)
    requires Square(x, n) && Square(y, n) && k < |roots|
    ensures RowPass(SeqSub(x, y), n, k, roots, inverse)
         == SeqSub(RowPass(x, n, k, roots, inverse), RowPass(y, n, k, roots, inverse))
  {
    hide Cell, At, Transform, RowPass, Row, Sub, SeqSub;
    var d := SeqSub(x, y);
    var u, v := RowPass(x, n, k, roots, inverse), RowPass(y, n, k, roots, inverse);
    forall r, c | 0 <= r < n && 0 <= c < n
      ensures Cell(RowPass(d, n, k, roots, inverse), n, r, c) == Cell(SeqSub(u, v), n, r, c)
    {
      RowSub(x, y, n, r);
      RowPassCell(d, n, k, roots, inverse, r, c);
      RowPassCell(x, n, k, roots, inverse, r, c);
      RowPassCell(y, n, k, roots, inverse, r, c);
      TransformSub(Row(x, n, r), Row(y, n, r), k, roots, inverse, c);
      SubCell(u, v, n, r, c);
    }
    SameCells(RowPass(d, n, k, roots, inverse), SeqSub(u, v), n);
  }

  lemma RowSub(x: seq<Complex>, y: seq<Complex>, n: nat, r: nat)
    requires Square(x, n) && Square(y, n) && r < n
    ensures Row(SeqSub(x, y), n, r) == SeqSub(Row(x, n, r), Row(y, n, r))
  {
    hide Cell, At, Sub;
    forall c | 0 <= c < n
      ensures Row(SeqSub(x, y), n, r)[c] == SeqSub(Row(x, n, r), Row(y, n, r))[c]
    {
      SubCell(x, y, n, r, c);
    }
  }

  lemma ColumnPassSub(x: seq<Complex>, y: seq<Complex>, n: nat, k: nat, roots: seq<Complex>, inverse: bool)
    requires Square(x, n) && Square(y, n) && k < |roots|
    ensures ColumnPass(SeqSub(x, y), n, k, roots, inverse)
         == SeqSub(ColumnPass(x, n, k, roots, inverse), ColumnPass(y, n, k, roots, inverse))
  {
    hide Cell, At, Transform, ColumnPass, Column, Sub, SeqSub;
    var d := SeqSub(x, y);
    var u, v := ColumnPass(x, n, k, roots, inverse), ColumnPass(y, n, k, roots, inverse);
    forall r, c | 0 <= r < n && 0 <= c < n
      ensures Cell(ColumnPass(d, n, k, roots, inverse), n, r, c) == Cell(SeqSub(u, v), n, r, c)
    {
      ColumnSub(x, y, n, c);
      ColumnPassCell(d, n, k, roots, inverse, r, c);
      ColumnPassCell(x, n, k, roots, inverse, r, c);
      ColumnPassCell(y, n, k, roots, inverse, r, c);
      TransformSub(Column(x, n, c), Column(y, n, c), k, roots, inverse, r);
      SubCell(u, v, n, r, c);
    }
    SameCells(ColumnPass(d, n, k, roots, inverse), SeqSub(u, v), n);
  }

  lemma ColumnSub(x: seq<Complex>, y: seq<Complex>, n: nat, c: nat)
    requires Square(x, n) && Square(y, n) && c < n
    ensures Column(SeqSub(x, y), n, c) == SeqSub(Column(x, n, c), Column(y, n, c))
  {
    hide Cell, At, Sub;
    forall r | 0 <= r < n
      ensures Column(SeqSub(x, y), n, c)[r] == SeqSub(Column(x, n, c), Column(y, n, c))[r]
    {
      SubCell(x, y, n, r, c);
    }
  }

  /** The two-dimensional transform of a difference is the difference of the transforms. */
  lemma Transform2Sub(x: seq<Complex>, y: seq<Complex>, n: nat, k: nat, roots: seq<Complex>, inverse: bool)
    requires Square(x, n) && Square(y, n) && k < |roots|
    ensures Transform2(SeqSub(x, y), n, k, roots, inverse)
         == SeqSub(Transform2(x, n, k, roots, inverse), Transform2(y, n, k, roots, inverse))
  {
    hide RowPass, ColumnPass, SeqSub;
    RowPassSub(x, y, n, k, roots, inverse);
    ColumnPassSub(RowPass(x, n, k, roots, inverse), RowPass(y, n, k, roots, inverse), n, k, roots, inverse);
  }
}
