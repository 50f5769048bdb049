/** What phase correlation recovers from a circular shift when the cut-off drops some
    frequencies: the shift always attains the maximum, and where else it is attained. */
module PhaseAlignment {
  import opened Arithmetic
  import opened ComplexNumbers
  import opened FourierTransform
  import opened RadixTwoFft
  import opened TwoDimensionalFft
  import opened TwoDimensionalLaws
  import opened ShiftLaws
  import opened Rasters
  import opened PhaseCorrelation
  import opened ShiftDetection

  // ----- sums of unit terms -----

  function Count(marks: seq<bool>): nat {
    if marks == [] then 0 else (if marks[0] then 1 else 0) + Count(marks[1..])
  }

  function CountAll(marks: seq<seq<bool>>): nat {
    if marks == [] then 0 else Count(marks[0]) + CountAll(marks[1..])
  }

  /** A term is a unit number where marked and zero elsewhere. */
  predicate UnitWhere(mark: bool, x: Complex) {
    if mark then NormSq(x) == 1.0 else x == ZERO
  }

  predicate UnitsWhere(marks: seq<bool>, a: seq<Complex>) {
    |a| == |marks| && forall i :: 0 <= i < |a| ==> UnitWhere(marks[i], a[i])
  }

  predicate UnitRows(marks: seq<seq<bool>>, rows: seq<seq<Complex>>) {
    |rows| == |marks| && forall p :: 0 <= p < |rows| ==> UnitsWhere(marks[p], rows[p])
  }

  function Term(a: seq<Complex>, v: Complex, z: Complex, i: nat): Complex
    requires i < |a|
  {
    Mul(Mul(v, Pow(z, i)), a[i])
  }

  /** Every marked term of v * sum a[i] * z^i is exactly one. */
  predicate Aligned(marks: seq<bool>, a: seq<Complex>, v: Complex, z: Complex) {
    forall i :: 0 <= i < |a| && i < |marks| && marks[i] ==> Term(a, v, z, i) == ONE
  }

  predicate AlignedRows(marks: seq<seq<bool>>, rows: seq<seq<Complex>>, v: Complex, y: Complex, z: Complex)
    requires UnitRows(marks, rows)
  {
    forall p :: 0 <= p < |rows| ==> Aligned(marks[p], rows[p], Mul(v, Pow(y, p)), z)
  }

  lemma RealPart(a: Complex, b: Complex)
    ensures Add(a, b).re == a.re + b.re
  {
  }

  /** A unit number has real part one exactly when it is one, and never more. */
  lemma UnitRealPart(u: Complex)
    requires NormSq(u) == 1.0
    ensures u.re <= 1.0 && (u.re == 1.0 <==> u == ONE)
  {
    SqSign(u.im);
    if u.re >= 1.0 {
      SquareOrder(u.re);
    }
    assert Sq(u.im) == u.im * u.im;
  }

  lemma TermRealPart(mark: bool, v: Complex, x: Complex)
    requires NormSq(v) == 1.0 && UnitWhere(mark, x)
    ensures Mul(v, x).re <= (if mark then 1.0 else 0.0)
    ensures Mul(v, x).re == (if mark then 1.0 else 0.0) <==> (mark ==> Mul(v, x) == ONE)
  {
    hide Mul, NormSq;
    if mark {
      NormSqMul(v, x);
      UnitRealPart(Mul(v, x));
    } else {
      MulZero(v);
    }
  }

  lemma TermFirst(a: seq<Complex>, v: Complex, z: Complex)
    requires a != []
    ensures Term(a, v, z, 0) == Mul(v, a[0])
  {
    hide Mul;
    MulOne(v);
  }

  lemma TermRest(a: seq<Complex>, v: Complex, z: Complex, i: nat)
    requires i + 1 < |a|
    ensures Term(a, v, z, i + 1) == Term(a[1..], Mul(v, z), z, i)
  {
    hide Mul;
    PowStep(z, i + 1);
    MulAssociates(v, z, Pow(z, i));
  }

  lemma AlignedFront(marks: seq<bool>, a: seq<Complex>, v: Complex, z: Complex)
    requires |a| == |marks| > 0
    ensures Aligned(marks, a, v, z)
      <==> (marks[0] ==> Mul(v, a[0]) == ONE) && Aligned(marks[1..], a[1..], Mul(v, z), z)
  {
    hide Term;
    TermFirst(a, v, z);
    forall i: nat | i + 1 < |a|
      ensures Term(a, v, z, i + 1) == Term(a[1..], Mul(v, z), z, i)
    {
      TermRest(a, v, z, i);
    }
    if Aligned(marks, a, v, z) {
      forall i | 0 <= i < |a| - 1 && marks[1..][i]
        ensures Term(a[1..], Mul(v, z), z, i) == ONE
      {
        var j := i + 1;
        assert marks[j];
        TermRest(a, v, z, i);
      }
    }
    if (marks[0] ==> Mul(v, a[0]) == ONE) && Aligned(marks[1..], a[1..], Mul(v, z), z) {
      forall i | 0 <= i < |a| && marks[i]
        ensures Term(a, v, z, i) == ONE
      {
        if i > 0 {
          var j := i - 1;
          assert marks[1..][j];
          TermRest(a, v, z, j);
        }
      }
    }
  }

  /** v * (x + z * e), term by term. */
  lemma HornerTurned(v: Complex, x: Complex, z: Complex, e: Complex)
    ensures Mul(v, Add(x, Mul(z, e))) == Add(Mul(v, x), Mul(Mul(v, z), e))
  {
    hide Mul, Add;
    MulDistributes(v, x, Mul(z, e));
    MulAssociates(v, z, e);
  }

  /** The real part of a turned sum of unit terms is at most their number, and equal to it
      exactly when every term is one. */
  lemma {:induction false} RowBound(marks: seq<bool>, a: seq<Complex>, v: Complex, z: Complex)
    requires UnitsWhere(marks, a) && NormSq(v) == 1.0 && NormSq(z) == 1.0
    ensures Mul(v, Eval(a, z)).re <= Count(marks) as real
    ensures Mul(v, Eval(a, z)).re == Count(marks) as real <==> Aligned(marks, a, v, z)
  {
    hide Mul, NormSq, Add, Term, Aligned, UnitWhere;
    if a == [] {
      MulZero(v);
      AlignedNone(v, z);
    } else {
      var e := Eval(a[1..], z);
      NormSqMul(v, z);
      UnitProduct(NormSq(v), NormSq(z));
      RowBound(marks[1..], a[1..], Mul(v, z), z);
      TermRealPart(marks[0], v, a[0]);
      HornerTurned(v, a[0], z, e);
      RealPart(Mul(v, a[0]), Mul(Mul(v, z), e));
      AlignedFront(marks, a, v, z);
    }
  }

  lemma UnitProduct(x: real, y: real)
    requires x == 1.0 && y == 1.0
    ensures x * y == 1.0
  {
  }

  lemma AlignedNone(v: Complex, z: Complex)
    ensures Aligned([], [], v, z)
  {
  }

  lemma AlignedRowsFront(marks: seq<seq<bool>>, rows: seq<seq<Complex>>, v: Complex, y: Complex, z: Complex)
    requires UnitRows(marks, rows) && rows != []
    ensures UnitRows(marks[1..], rows[1..])
    ensures AlignedRows(marks, rows, v, y, z)
      <==> Aligned(marks[0], rows[0], v, z) && AlignedRows(marks[1..], rows[1..], Mul(v, y), y, z)
  {
    hide Aligned, Mul, UnitsWhere;
    MulOne(v);
    PowZero(y);
    forall p: nat | p + 1 < |rows|
      ensures Mul(v, Pow(y, p + 1)) == Mul(Mul(v, y), Pow(y, p))
    {
      PowStep(y, p + 1);
      MulAssociates(v, y, Pow(y, p));
    }
    if AlignedRows(marks, rows, v, y, z) {
      forall p | 0 <= p < |rows| - 1
        ensures Aligned(marks[1..][p], rows[1..][p], Mul(Mul(v, y), Pow(y, p)), z)
      {
        var j := p + 1;
        assert Aligned(marks[j], rows[j], Mul(v, Pow(y, j)), z);
      }
    }
    if Aligned(marks[0], rows[0], v, z) && AlignedRows(marks[1..], rows[1..], Mul(v, y), y, z) {
      forall p | 0 <= p < |rows|
        ensures Aligned(marks[p], rows[p], Mul(v, Pow(y, p)), z)
      {
        if p > 0 {
          var j := p - 1;
          assert Aligned(marks[1..][j], rows[1..][j], Mul(Mul(v, y), Pow(y, j)), z);
        }
      }
    }
  }

  /** The same over both directions. */
  lemma {:induction false} RowsBound(marks: seq<seq<bool>>, rows: seq<seq<Complex>>, v: Complex, y: Complex, z: Complex)
    requires UnitRows(marks, rows) && NormSq(v) == 1.0 && NormSq(y) == 1.0 && NormSq(z) == 1.0
    ensures Mul(v, Eval(Across(rows, z), y)).re <= CountAll(marks) as real
    ensures Mul(v, Eval(Across(rows, z), y)).re == CountAll(marks) as real <==> AlignedRows(marks, rows, v, y, z)
  {
    hide Mul, NormSq, Add, Aligned, UnitsWhere, Count;
    if rows == [] {
      assert Across(rows, z) == [];
      MulZero(v);
    } else {
      var e := Eval(Across(rows[1..], z), y);
      assert Across(rows, z)[1..] == Across(rows[1..], z);
      NormSqMul(v, y);
      UnitProduct(NormSq(v), NormSq(y));
      AlignedRowsFront(marks, rows, v, y, z);
      RowsBound(marks[1..], rows[1..], Mul(v, y), y, z);
      RowBound(marks[0], rows[0], v, z);
      HornerTurned(v, Eval(rows[0], z), y, e);
      RealPart(Mul(v, Eval(rows[0], z)), Mul(Mul(v, y), e));
    }
  }

  // ----- the surface -----

  /** The frequency survives the cut-off. */
  predicate Kept(src: RasterGrid, ref: RasterGrid, n: nat, k: nat, roots: seq<Complex>, abs: Complex -> real,
      p: nat, q: nat)
    requires src.Valid() && ref.Valid() && k < |roots| && p < n && q < n
  {
    abs(Bin(src, ref, n, k, roots, p, q)) >= CUTOFF
  }

  function KeptRow(src: RasterGrid, ref: RasterGrid, n: nat, k: nat, roots: seq<Complex>, abs: Complex -> real,
      p: nat): (s: seq<bool>)
    requires src.Valid() && ref.Valid() && k < |roots| && p < n
    ensures |s| == n
  {
    seq(n, q requires 0 <= q < n => Kept(src, ref, n, k, roots, abs, p, q))
  }

  /** Which of the n x n frequencies survive. */
  function KeptMarks(src: RasterGrid, ref: RasterGrid, n: nat, k: nat, roots: seq<Complex>, abs: Complex -> real)
      : (s: seq<seq<bool>>)
    requires src.Valid() && ref.Valid() && k < |roots|
    ensures |s| == n && forall p :: 0 <= p < n ==> |s[p]| == n
  {
    seq(n, p requires 0 <= p < n => KeptRow(src, ref, n, k, roots, abs, p))
  }

  /** How many frequencies survive. */
  function KeptCount(src: RasterGrid, ref: RasterGrid, n: nat, k: nat, roots: seq<Complex>, abs: Complex -> real): nat
    requires src.Valid() && ref.Valid() && k < |roots|
  {
    CountAll(KeptMarks(src, ref, n, k, roots, abs))
  }

  /** A circular shift, with no assumption about which frequencies the rasters hold. */
  ghost predicate AnyShift(src: RasterGrid, ref: RasterGrid, n: nat, k: nat, roots: seq<Complex>,
      abs: Complex -> real, dr: nat, dc: nat)
  {
    && src.Valid() && ref.Valid() && IsFftSize(n, k, src, ref) && k < |roots| && RootTable(roots)
    && IsModulus(abs) && dr < n && dc < n && ShiftedBy(src, ref, n, dr, dc)
  }

  /** No surviving frequency tells the displacement (r, c) from (dr, dc). */
  predicate Agrees(marks: seq<seq<bool>>, n: nat, w: Complex, dr: nat, dc: nat, r: nat, c: nat)
    requires |marks| == n && forall p :: 0 <= p < n ==> |marks[p]| == n
  {
    forall p, q :: 0 <= p < n && 0 <= q < n && marks[p][q] ==> Phase(w, r, c, p, q) == Phase(w, dr, dc, p, q)
  }

  lemma AnyShiftInside(src: RasterGrid, ref: RasterGrid, n: nat, k: nat, roots: seq<Complex>,
      abs: Complex -> real, dr: nat, dc: nat)
    requires AnyShift(src, ref, n, k, roots, abs, dr, dc)
    ensures dr < n && dc < n && n == Pow2(k) && src.Valid() && ref.Valid() && k < |roots| && RootTable(roots)
  {
    hide RootTable, IsModulus, ShiftedBy, RasterGrid.Valid;
  }

  /** A bin of the cross-power spectrum of a shift is its phase, or is cut off. */
  lemma ShiftedBin(src: RasterGrid, ref: RasterGrid, n: nat, k: nat, roots: seq<Complex>,
      abs: Complex -> real, dr: nat, dc: nat, p: nat, q: nat)
    requires AnyShift(src, ref, n, k, roots, abs, dr, dc) && p < n && q < n
    ensures Whitened(Cell(Transform2(Padded(src, n), n, k, roots, false), n, p, q),
                     Cell(Transform2(Padded(ref, n), n, k, roots, false), n, p, q), abs)
         == if Kept(src, ref, n, k, roots, abs, p, q) then Phase(roots[k], dr, dc, p, q) else ZERO
  {
    hide Padded, Transform2, RootTable, Cell, At, Phase, IsShift, IsModulus, Mul, Pow2, Conj, RasterGrid.Valid, NormSq;
    var x := Cell(Transform2(Padded(src, n), n, k, roots, false), n, p, q);
    var g := Phase(roots[k], dr, dc, p, q);
    ShiftTheorem2(Padded(src, n), Padded(ref, n), n, k, roots, dr, dc, p, q);
    PhaseUnit(roots, k, dr, dc, p, q);
    if Kept(src, ref, n, k, roots, abs, p, q) {
      WhitenedPhase(x, g, abs);
    }
  }

  lemma KeptMarksAt(src: RasterGrid, ref: RasterGrid, n: nat, k: nat, roots: seq<Complex>, abs: Complex -> real,
      p: nat, q: nat)
    requires src.Valid() && ref.Valid() && k < |roots| && p < n && q < n
    ensures KeptMarks(src, ref, n, k, roots, abs)[p][q] == Kept(src, ref, n, k, roots, abs, p, q)
  {
    hide Kept, RasterGrid.Valid;
  }

  /** The whitened spectrum the surface is the inverse transform of. */
  function Spectrum(src: RasterGrid, ref: RasterGrid, n: nat, k: nat, roots: seq<Complex>, abs: Complex -> real)
      : (s: seq<Complex>)
    requires src.Valid() && ref.Valid() && k < |roots|
    ensures Square(s, n)
  {
    CrossPower(Transform2(Padded(src, n), n, k, roots, false), Transform2(Padded(ref, n), n, k, roots, false), abs)
  }

  lemma SpectrumRows(src: RasterGrid, ref: RasterGrid, n: nat, k: nat, roots: seq<Complex>,
      abs: Complex -> real, dr: nat, dc: nat, p: nat, q: nat)
    requires AnyShift(src, ref, n, k, roots, abs, dr, dc) && p < n && q < n
    ensures Rows(Spectrum(src, ref, n, k, roots, abs), n)[p][q]
         == if KeptMarks(src, ref, n, k, roots, abs)[p][q] then Phase(roots[k], dr, dc, p, q) else ZERO
  {
    hide Padded, Transform2, RootTable, Whitened, Cell, At, Phase, Kept, IsShift, IsModulus, Pow2, RasterGrid.Valid,
      Row, KeptMarks, CrossPower;
    var fs := Transform2(Padded(src, n), n, k, roots, false);
    var fr := Transform2(Padded(ref, n), n, k, roots, false);
    RowAt(CrossPower(fs, fr, abs), n, p, q);
    CrossPowerCell(fs, fr, abs, n, p, q);
    ShiftedBin(src, ref, n, k, roots, abs, dr, dc, p, q);
    KeptMarksAt(src, ref, n, k, roots, abs, p, q);
  }

  lemma SpectrumUnits(src: RasterGrid, ref: RasterGrid, n: nat, k: nat, roots: seq<Complex>,
      abs: Complex -> real, dr: nat, dc: nat)
    requires AnyShift(src, ref, n, k, roots, abs, dr, dc)
    ensures UnitRows(KeptMarks(src, ref, n, k, roots, abs), Rows(Spectrum(src, ref, n, k, roots, abs), n))
  {
    hide Padded, Transform2, RootTable, Phase, IsShift, IsModulus, RasterGrid.Valid, Rows, KeptMarks, Spectrum,
      IsFftSize, ShiftedBy, NormSq;
    var marks, rows := KeptMarks(src, ref, n, k, roots, abs), Rows(Spectrum(src, ref, n, k, roots, abs), n);
    forall p, q | 0 <= p < n && 0 <= q < n
      ensures UnitWhere(marks[p][q], rows[p][q])
    {
      SpectrumRows(src, ref, n, k, roots, abs, dr, dc, p, q);
      PhaseUnit(roots, k, dr, dc, p, q);
    }
  }

  /** Turning by the inverse powers is dividing by the phase. */
  lemma InversePhase(w: Complex, r: nat, c: nat, p: nat, q: nat)
    ensures Mul(Pow(Pow(Conj(w), r), p), Pow(Pow(Conj(w), c), q)) == Conj(Phase(w, r, c, p, q))
  {
    hide Mul, Conj, Pow;
    TurnedPower(w, r, p);
    TurnedPower(w, c, q);
    ConjMul(Pow(Pow(w, p), r), Pow(Pow(w, q), c));
  }

  lemma TurnedPower(w: Complex, r: nat, p: nat)
    ensures Pow(Pow(Conj(w), r), p) == Conj(Pow(Pow(w, p), r))
  {
    hide Mul, Conj, Pow;
    PowConj(w, r);
    PowConj(Pow(w, r), p);
    PowPow(w, r, p);
    PowPow(w, p, r);
    assert r * p == p * r;
  }

  /** A unit number times the conjugate of another is one exactly when they are equal. */
  lemma QuotientIsOne(g: Complex, h: Complex)
    requires NormSq(g) == 1.0
    ensures Mul(Conj(g), h) == ONE <==> h == g
  {
    hide Mul, Conj, NormSq;
    MulConj(g);
    MulCommutes(g, Conj(g));
    if Mul(Conj(g), h) == ONE {
      MulAssociates(g, Conj(g), h);
      MulOne(h);
      MulOne(g);
    }
  }

  lemma AlignedIsAgreeing(src: RasterGrid, ref: RasterGrid, n: nat, k: nat, roots: seq<Complex>,
      abs: Complex -> real, dr: nat, dc: nat, r: nat, c: nat, p: nat, q: nat)
    requires AnyShift(src, ref, n, k, roots, abs, dr, dc) && r < n && c < n && p < n && q < n
    requires KeptMarks(src, ref, n, k, roots, abs)[p][q]
    ensures Term(Rows(Spectrum(src, ref, n, k, roots, abs), n)[p],
                 Mul(ONE, Pow(Pow(Conj(roots[k]), r), p)), Pow(Conj(roots[k]), c), q) == ONE
       <==> Phase(roots[k], r, c, p, q) == Phase(roots[k], dr, dc, p, q)
  {
    hide Mul, Conj, Pow, Phase, Spectrum, KeptMarks, RasterGrid.Valid, RootTable, IsModulus, ShiftedBy, IsFftSize,
      NormSq, Rows;
    var w := roots[k];
    SpectrumRows(src, ref, n, k, roots, abs, dr, dc, p, q);
    MulOne(Pow(Pow(Conj(w), r), p));
    InversePhase(w, r, c, p, q);
    PhaseUnit(roots, k, r, c, p, q);
    QuotientIsOne(Phase(w, r, c, p, q), Phase(w, dr, dc, p, q));
  }

  lemma AlignedRowsAgree(src: RasterGrid, ref: RasterGrid, n: nat, k: nat, roots: seq<Complex>,
      abs: Complex -> real, dr: nat, dc: nat, r: nat, c: nat)
    requires AnyShift(src, ref, n, k, roots, abs, dr, dc) && r < n && c < n
    requires UnitRows(KeptMarks(src, ref, n, k, roots, abs), Rows(Spectrum(src, ref, n, k, roots, abs), n))
    ensures AlignedRows(KeptMarks(src, ref, n, k, roots, abs), Rows(Spectrum(src, ref, n, k, roots, abs), n),
              ONE, Pow(Conj(roots[k]), r), Pow(Conj(roots[k]), c))
       <==> Agrees(KeptMarks(src, ref, n, k, roots, abs), n, roots[k], dr, dc, r, c)
  {
    AnyShiftInside(src, ref, n, k, roots, abs, dr, dc);
    hide *;
    var marks, rows := KeptMarks(src, ref, n, k, roots, abs), Rows(Spectrum(src, ref, n, k, roots, abs), n);
    var y, z := Pow(Conj(roots[k]), r), Pow(Conj(roots[k]), c);
    forall p: nat, q: nat | p < n && q < n && marks[p][q]
      ensures Term(rows[p], Mul(ONE, Pow(y, p)), z, q) == ONE
         <==> Phase(roots[k], r, c, p, q) == Phase(roots[k], dr, dc, p, q)
    {
      AlignedIsAgreeing(src, ref, n, k, roots, abs, dr, dc, r, c, p, q);
    }
    AgreeTermwise(marks, rows, n, y, z, roots[k], dr, dc, r, c);
  }

  lemma AgreeTermwise(marks: seq<seq<bool>>, rows: seq<seq<Complex>>, n: nat, y: Complex, z: Complex,
      w: Complex, dr: nat, dc: nat, r: nat, c: nat)
    requires |marks| == n && (forall p :: 0 <= p < n ==> |marks[p]| == n)
    requires |rows| == n && (forall p :: 0 <= p < n ==> |rows[p]| == n) && UnitRows(marks, rows)
    requires forall p: nat, q: nat :: p < n && q < n && marks[p][q] ==>
      (Term(rows[p], Mul(ONE, Pow(y, p)), z, q) == ONE <==> Phase(w, r, c, p, q) == Phase(w, dr, dc, p, q))
    ensures AlignedRows(marks, rows, ONE, y, z) <==> Agrees(marks, n, w, dr, dc, r, c)
  {
    hide Term, Phase, Mul, Pow, UnitRows;
    if AlignedRows(marks, rows, ONE, y, z) {
      forall p, q | 0 <= p < n && 0 <= q < n && marks[p][q]
        ensures Phase(w, r, c, p, q) == Phase(w, dr, dc, p, q)
      {
        assert Aligned(marks[p], rows[p], Mul(ONE, Pow(y, p)), z);
      }
    }
  }

  lemma SurfaceCell(m: seq<Complex>, n: nat, k: nat, roots: seq<Complex>, r: nat, c: nat)
    requires n == Pow2(k) && Square(m, n) && k < |roots| && r < n && c < n
    ensures Cell(Transform2(m, n, k, roots, true), n, r, c).re
         == Floor(n) * Mul(ONE, Eval(Across(Rows(m, n), Pow(Conj(roots[k]), c)), Pow(Conj(roots[k]), r))).re
  {
    hide Cell, Mul, Conj, Pow, Rows, Across, Eval, RowPass, ColumnPass, Pow2, Table;
    TableAt(roots, true, k);
    ColumnOfRows(m, n, k, roots, true, true, r, c);
    MulOne(Eval(Across(Rows(m, n), Pow(Conj(roots[k]), c)), Pow(Conj(roots[k]), r)));
    var q, x := 1.0 / n as real, Eval(Across(Rows(m, n), Pow(Conj(roots[k]), c)), Pow(Conj(roots[k]), r)).re;
    assert q * (q * x) == q * q * x;
  }

  /** The surface of a circular shift with K surviving frequencies is nowhere above K/n^2,
      and it is K/n^2 exactly at the displacements that no surviving frequency tells from the
      shift, so at the shift in any case. */
  lemma SurfaceBounded(src: RasterGrid, ref: RasterGrid, n: nat, k: nat, roots: seq<Complex>,
      abs: Complex -> real, dr: nat, dc: nat, r: nat, c: nat)
    requires AnyShift(src, ref, n, k, roots, abs, dr, dc) && r < n && c < n
    ensures var top := KeptCount(src, ref, n, k, roots, abs) as real * Floor(n);
      && Cell(Surface(src, ref, n, k, roots, abs), n, r, c).re <= top
      && (Cell(Surface(src, ref, n, k, roots, abs), n, r, c).re == top
          <==> Agrees(KeptMarks(src, ref, n, k, roots, abs), n, roots[k], dr, dc, r, c))
      && Cell(Surface(src, ref, n, k, roots, abs), n, dr, dc).re == top
  {
    SurfaceAgrees(src, ref, n, k, roots, abs, dr, dc, r, c);
    SurfaceAgrees(src, ref, n, k, roots, abs, dr, dc, dr, dc);
    hide Surface, KeptMarks, KeptCount, Phase, Cell, AnyShift, Floor;
    assert Agrees(KeptMarks(src, ref, n, k, roots, abs), n, roots[k], dr, dc, dr, dc);
  }

  lemma SurfaceAgrees(src: RasterGrid, ref: RasterGrid, n: nat, k: nat, roots: seq<Complex>,
      abs: Complex -> real, dr: nat, dc: nat, r: nat, c: nat)
    requires AnyShift(src, ref, n, k, roots, abs, dr, dc) && r < n && c < n
    ensures var top := KeptCount(src, ref, n, k, roots, abs) as real * Floor(n);
      && Cell(Surface(src, ref, n, k, roots, abs), n, r, c).re <= top
      && (Cell(Surface(src, ref, n, k, roots, abs), n, r, c).re == top
          <==> Agrees(KeptMarks(src, ref, n, k, roots, abs), n, roots[k], dr, dc, r, c))
  {
    hide *;
    AnyShiftInside(src, ref, n, k, roots, abs, dr, dc);
    SpectrumUnits(src, ref, n, k, roots, abs, dr, dc);
    AlignedRowsAgree(src, ref, n, k, roots, abs, dr, dc, r, c);
    InverseBound(Spectrum(src, ref, n, k, roots, abs), KeptMarks(src, ref, n, k, roots, abs), n, k, roots, r, c);
    SurfaceOfSpectrum(src, ref, n, k, roots, abs);
  }

  lemma SurfaceOfSpectrum(src: RasterGrid, ref: RasterGrid, n: nat, k: nat, roots: seq<Complex>, abs: Complex -> real)
    requires src.Valid() && ref.Valid() && k < |roots|
    ensures Surface(src, ref, n, k, roots, abs) == Transform2(Spectrum(src, ref, n, k, roots, abs), n, k, roots, true)
    ensures KeptCount(src, ref, n, k, roots, abs) == CountAll(KeptMarks(src, ref, n, k, roots, abs))
  {
    hide Transform2, Padded, CrossPower, RasterGrid.Valid, KeptMarks, CountAll;
  }

  /** For any two rasters the surface is the inverse transform of a spectrum whose bins are
      zero below the cut-off and otherwise have length one and the direction of the product
      conj(FS) * FR. */
  lemma SurfaceBins(src: RasterGrid, ref: RasterGrid, n: nat, k: nat, roots: seq<Complex>,
      abs: Complex -> real, p: nat, q: nat)
    requires src.Valid() && ref.Valid() && k < |roots| && IsModulus(abs) && p < n && q < n
    ensures Surface(src, ref, n, k, roots, abs) == Transform2(Spectrum(src, ref, n, k, roots, abs), n, k, roots, true)
    ensures var bin := Cell(Spectrum(src, ref, n, k, roots, abs), n, p, q);
      var v := Bin(src, ref, n, k, roots, p, q);
      if abs(v) < 0.000000000001 then bin == ZERO else UnitAlong(bin, v)
  {
    hide Padded, Transform2, Cell, Whitened, CrossPower, Mul, Conj, RasterGrid.Valid, UnitAlong, IsModulus;
    var fs := Transform2(Padded(src, n), n, k, roots, false);
    var fr := Transform2(Padded(ref, n), n, k, roots, false);
    CrossPowerCell(fs, fr, abs, n, p, q);
    WhitenedExactly(Cell(fs, n, p, q), Cell(fr, n, p, q), abs);
  }

  lemma InverseBound(m: seq<Complex>, marks: seq<seq<bool>>, n: nat, k: nat, roots: seq<Complex>, r: nat, c: nat)
    requires n == Pow2(k) && Square(m, n) && k < |roots| && RootTable(roots) && r < n && c < n
    requires UnitRows(marks, Rows(m, n))
    ensures var x := Cell(Transform2(m, n, k, roots, true), n, r, c).re;
      && x <= CountAll(marks) as real * Floor(n)
      && (x == CountAll(marks) as real * Floor(n)
          <==> AlignedRows(marks, Rows(m, n), ONE, Pow(Conj(roots[k]), r), Pow(Conj(roots[k]), c)))
  {
    hide Transform2, Cell, Floor, RootTable, Pow, Conj, Mul, Eval, Across, Rows, CountAll, AlignedRows, UnitRows,
      NormSq, Pow2;
    var y, z := Pow(Conj(roots[k]), r), Pow(Conj(roots[k]), c);
    ConjRootUnit(roots, k, r);
    ConjRootUnit(roots, k, c);
    NormOne();
    RowsBound(marks, Rows(m, n), ONE, y, z);
    SurfaceCell(m, n, k, roots, r, c);
    FloorPositive(n);
    ScaledOrder(Floor(n), Mul(ONE, Eval(Across(Rows(m, n), z), y)).re, CountAll(marks) as real);
  }

  lemma ConjRootUnit(roots: seq<Complex>, k: nat, r: nat)
    requires RootTable(roots) && k < |roots|
    ensures NormSq(Pow(Conj(roots[k]), r)) == 1.0
  {
    hide RootTable, Pow;
    RootsUnit(roots, k);
    assert NormSq(Conj(roots[k])) == NormSq(roots[k]);
    PowNorm(Conj(roots[k]), r);
  }

  lemma ScaledOrder(f: real, x: real, y: real)
    requires f > 0.0 && x <= y
    ensures f * x <= y * f && (f * x == y * f <==> x == y)
  {
    if x < y {
      PositiveProduct(f, y - x);
      assert f * (y - x) == y * f - f * x;
    }
  }

  predicate Earlier(r: nat, c: nat, r': nat, c': nat) {
    r < r' || (r == r' && c < c')
  }

  /** (r, c) is the first displacement, in row-major order, that no surviving frequency tells
      from the shift. */
  predicate FirstAgreeing(marks: seq<seq<bool>>, n: nat, w: Complex, dr: nat, dc: nat, r: nat, c: nat)
    requires |marks| == n && forall p :: 0 <= p < n ==> |marks[p]| == n
  {
    && r < n && c < n && Agrees(marks, n, w, dr, dc, r, c)
    && forall r', c' :: 0 <= r' < n && 0 <= c' < n && Earlier(r', c', r, c) ==> !Agrees(marks, n, w, dr, dc, r', c')
  }

  lemma FirstUnique(marks: seq<seq<bool>>, n: nat, w: Complex, dr: nat, dc: nat, r: nat, c: nat, r': nat, c': nat)
    requires |marks| == n && forall p :: 0 <= p < n ==> |marks[p]| == n
    requires FirstAgreeing(marks, n, w, dr, dc, r, c) && FirstAgreeing(marks, n, w, dr, dc, r', c')
    ensures r == r' && c == c'
  {
    hide Agrees;
  }

  lemma EarlierAt(n: nat, r: nat, c: nat, r': nat, c': nat)
    requires r < n && c < n && r' < n && c' < n && Earlier(r, c, r', c')
    ensures At(n, r, c) < At(n, r', c')
  {
    if r < r' {
      MulMonotone(r + 1, r', n);
    }
  }

  /** The peak of the surface is the first such displacement. */
  lemma PeakAgrees(src: RasterGrid, ref: RasterGrid, n: nat, k: nat, roots: seq<Complex>,
      abs: Complex -> real, dr: nat, dc: nat, r: nat, c: nat)
    requires AnyShift(src, ref, n, k, roots, abs, dr, dc) && r < n && c < n
    requires IsPeak(Surface(src, ref, n, k, roots, abs), At(n, r, c))
    ensures FirstAgreeing(KeptMarks(src, ref, n, k, roots, abs), n, roots[k], dr, dc, r, c)
  {
    hide *;
    AnyShiftInside(src, ref, n, k, roots, abs, dr, dc);
    var s := Surface(src, ref, n, k, roots, abs);
    var marks := KeptMarks(src, ref, n, k, roots, abs);
    PeakCells(s, n, r, c, dr, dc);
    SurfaceBounded(src, ref, n, k, roots, abs, dr, dc, r, c);
    forall r', c' | 0 <= r' < n && 0 <= c' < n && Earlier(r', c', r, c)
      ensures !Agrees(marks, n, roots[k], dr, dc, r', c')
    {
      PeakCells(s, n, r, c, r', c');
      SurfaceBounded(src, ref, n, k, roots, abs, dr, dc, r', c');
    }
    FirstIf(marks, n, roots[k], dr, dc, r, c);
  }

  lemma FirstIf(marks: seq<seq<bool>>, n: nat, w: Complex, dr: nat, dc: nat, r: nat, c: nat)
    requires |marks| == n && forall p :: 0 <= p < n ==> |marks[p]| == n
    requires r < n && c < n && Agrees(marks, n, w, dr, dc, r, c)
    requires forall r', c' :: 0 <= r' < n && 0 <= c' < n && Earlier(r', c', r, c) ==>
      !Agrees(marks, n, w, dr, dc, r', c')
    ensures FirstAgreeing(marks, n, w, dr, dc, r, c)
  {
    hide Agrees, Earlier;
  }

  lemma PeakCells(s: seq<Complex>, n: nat, r: nat, c: nat, r': nat, c': nat)
    requires Square(s, n) && r < n && c < n && r' < n && c' < n && IsPeak(s, At(n, r, c))
    ensures Cell(s, n, r', c').re <= Cell(s, n, r, c).re
    ensures Earlier(r', c', r, c) ==> Cell(s, n, r', c').re < Cell(s, n, r, c).re
  {
    hide Cell, At, Earlier;
    CellIs(s, n, r, c);
    CellIs(s, n, r', c');
    if Earlier(r', c', r, c) {
      EarlierAt(n, r', c', r, c);
    }
  }

  /** Whatever a call reports for rasters that are a circular shift of each other is the first
      displacement that no surviving frequency tells from the shift, unwrapped; and it is the
      shift itself exactly when the shift is the first of them. */
  lemma CallReportsFirst(src: RasterGrid, ref: RasterGrid, roots: seq<Complex>, abs: Complex -> real,
      n: nat, k: nat, dr: nat, dc: nat, outC: int, outR: int, strength: real) returns (r: nat, c: nat)
    requires src.Valid() && ref.Valid() && IsFftSize(n, k, src, ref)
    requires AnyShift(src, ref, n, k, roots, abs, dr, dc)
    requires Correlates(src, ref, roots, abs, outC, outR, strength)
    ensures FirstAgreeing(KeptMarks(src, ref, n, k, roots, abs), n, roots[k], dr, dc, r, c)
    ensures outC == Wrapped(c, n) && outR == Wrapped(r, n)
    ensures (outC, outR) == (Wrapped(dc, n), Wrapped(dr, n))
       <==> FirstAgreeing(KeptMarks(src, ref, n, k, roots, abs), n, roots[k], dr, dc, dr, dc)
  {
    hide *;
    AnyShiftInside(src, ref, n, k, roots, abs, dr, dc);
    var marks := KeptMarks(src, ref, n, k, roots, abs);
    var peak := ReportedPeak(src, ref, roots, abs, n, k, outC, outR, strength);
    r, c := PeakInside(Surface(src, ref, n, k, roots, abs), n, peak);
    DisplacementAt(n, r, c);
    PeakAgrees(src, ref, n, k, roots, abs, dr, dc, r, c);
    if (outC, outR) == (Wrapped(dc, n), Wrapped(dr, n)) {
      WrappedOnce(r, dr, n);
      WrappedOnce(c, dc, n);
    }
    if FirstAgreeing(marks, n, roots[k], dr, dc, dr, dc) {
      FirstUnique(marks, n, roots[k], dr, dc, r, c, dr, dc);
    }
  }

  lemma ReportedPeak(src: RasterGrid, ref: RasterGrid, roots: seq<Complex>, abs: Complex -> real,
      n: nat, k: nat, outC: int, outR: int, strength: real) returns (peak: nat)
    requires src.Valid() && ref.Valid() && k < |roots| && IsFftSize(n, k, src, ref) && n > 0
    requires Correlates(src, ref, roots, abs, outC, outR, strength)
    ensures IsPeak(Surface(src, ref, n, k, roots, abs), peak)
    ensures (outC, outR) == Displacement(peak, n)
  {
    hide Surface, IsFftSize, RasterGrid.Valid, PeakOf, IsPeak, Displacement;
    var m: nat, j: nat, t: nat :| PeakOf(src, ref, roots, abs, m, j, t, outC, outR, strength);
    PeakOfSide(src, ref, roots, abs, m, j, t, outC, outR, strength);
    SizeUnique(n, k, m, j, src, ref);
    peak := t;
  }

  lemma PeakOfSide(src: RasterGrid, ref: RasterGrid, roots: seq<Complex>, abs: Complex -> real,
      n: nat, k: nat, peak: nat, outC: int, outR: int, strength: real)
    requires src.Valid() && ref.Valid()
    requires PeakOf(src, ref, roots, abs, n, k, peak, outC, outR, strength)
    ensures n > 0 && IsFftSize(n, k, src, ref) && k < |roots|
    ensures IsPeak(Surface(src, ref, n, k, roots, abs), peak) && (outC, outR) == Displacement(peak, n)
  {
    hide Surface, IsFftSize, RasterGrid.Valid, Strength, IsPeak, Displacement;
  }

  lemma DisplacementAt(n: nat, r: nat, c: nat)
    requires r < n && c < n
    ensures Displacement(At(n, r, c), n) == (Wrapped(c, n), Wrapped(r, n))
  {
    hide At, Wrapped;
    AtBound(n, r, c);
  }

  lemma PeakInside(s: seq<Complex>, n: nat, t: nat) returns (r: nat, c: nat)
    requires Square(s, n) && IsPeak(s, t)
    ensures r < n && c < n && t == At(n, r, c)
  {
    hide At;
    r, c := Coordinates(n, t);
  }

  lemma WrappedOnce(p: nat, q: nat, n: nat)
    requires p < n && q < n && Wrapped(p, n) == Wrapped(q, n)
    ensures p == q
  {
  }
}
