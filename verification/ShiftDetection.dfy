/** What phase correlation recovers from a circularly shifted reference, exactly. */
module ShiftDetection {
  import opened Arithmetic
  import opened ComplexNumbers
  import opened FourierTransform
  import opened RadixTwoFft
  import opened TwoDimensionalFft
  import opened TwoDimensionalLaws
  import opened ShiftLaws
  import opened Rasters
  import opened PhaseCorrelation

  // ----- the zero frequency -----

  /** Evaluating real coefficients followed by zeros at 1 is summing them. */
  lemma {:induction false} EvalAtOne(a: seq<Complex>, x: seq<real>)
    requires |x| <= |a|
    requires forall i :: 0 <= i < |a| ==> a[i] == if i < |x| then Complex(x[i], 0.0) else ZERO
    ensures Eval(a, ONE) == Complex(Sum(x), 0.0)
  {
    hide Mul;
    if x == [] {
      EvalZeros(|a|, a, ONE);
    } else {
      EvalAtOne(a[1..], x[1..]);
      MulOne(Eval(a[1..], ONE));
      SumFront(x);
    }
  }

  function Centered(data: seq<real>, mean: real): seq<real>
  {
    seq(|data|, i requires 0 <= i < |data| => data[i] - mean)
  }

  lemma {:induction false} CenteredSum(data: seq<real>, mean: real)
    ensures Sum(Centered(data, mean)) == Sum(data) - |data| as real * mean
  {
    if data != [] {
      var n := |data| - 1;
      CenteredSum(data[..n], mean);
      assert Centered(data, mean)[..n] == Centered(data[..n], mean);
      assert (n + 1) as real * mean == n as real * mean + mean;
    }
  }

  /** The first h lines of a width-w raster, one sum per line. */
  function LineSums(data: seq<real>, w: nat, h: nat): (s: seq<real>)
    requires h * w <= |data|
    ensures |s| == h
  {
    seq(h, r requires 0 <= r < h => LineBound(w, h, r); Sum(data[r * w..(r + 1) * w]))
  }

  lemma LineSumsStep(data: seq<real>, w: nat, h: nat)
    requires h > 0 && h * w <= |data|
    ensures (h - 1) * w <= h * w
    ensures LineSums(data, w, h) == LineSums(data, w, h - 1) + [Sum(data[(h - 1) * w..h * w])]
  {
    hide Sum;
    LineBound(w, h, h - 1);
  }

  lemma SumSplit(data: seq<real>, lo: nat, hi: nat)
    requires lo <= hi <= |data|
    ensures Sum(data[..hi]) == Sum(data[..lo]) + Sum(data[lo..hi])
  {
    hide Sum;
    assert data[..hi] == data[..lo] + data[lo..hi];
    SumAppend(data[..lo], data[lo..hi]);
  }

  lemma SumNext(s: seq<real>, x: real)
    ensures Sum(s + [x]) == Sum(s) + x
  {
    assert (s + [x])[..|s|] == s;
  }

  lemma {:induction false} LineSumsTotal(data: seq<real>, w: nat, h: nat)
    requires h * w <= |data|
    ensures Sum(LineSums(data, w, h)) == Sum(data[..h * w])
    decreases h
  {
    hide Sum, LineSums;
    if h == 0 {
      NoLines(data, w);
    } else {
      LineSumsStep(data, w, h);
      LineSumsTotal(data, w, h - 1);
      SumNext(LineSums(data, w, h - 1), Sum(data[(h - 1) * w..h * w]));
      SumSplit(data, (h - 1) * w, h * w);
    }
  }

  lemma NoLines(data: seq<real>, w: nat)
    ensures 0 * w == 0 && Sum(LineSums(data, w, 0)) == Sum(data[..0])
  {
  }

  /** The mean-subtracted samples sum to zero. */
  lemma CenteredTotal(data: seq<real>)
    ensures Sum(Centered(data, Mean(data))) == 0.0
  {
    CenteredSum(data, Mean(data));
    if data != [] {
      var m := |data| as real;
      assert m * (Sum(data) / m) == Sum(data);
    }
  }

  lemma PaddedRow(g: RasterGrid, n: nat, r: nat, c: nat)
    requires g.Valid() && r < n && c < n
    ensures Row(Padded(g, n), n, r)[c] == PaddedCell(g, r, c)
  {
    hide PaddedCell, Padded, Cell, RasterGrid.Valid;
    RowAt(Padded(g, n), n, r, c);
    PaddedAt(g, n, r, c);
  }

  /** Line r of the mean-subtracted raster. */
  function Line(g: RasterGrid, r: nat): (x: seq<real>)
    requires g.Valid() && r < g.height
    ensures |x| == g.width
  {
    LineBound(g.width, g.height, r);
    assert (r + 1) * g.width - r * g.width == g.width;
    Centered(g.data, Mean(g.data))[r * g.width..(r + 1) * g.width]
  }

  lemma LineCell(g: RasterGrid, r: nat, c: nat)
    requires g.Valid() && r < g.height && c < g.width
    ensures PaddedCell(g, r, c) == Complex(Line(g, r)[c], 0.0)
  {
    hide Mean;
    PixelBound(g, r, c);
    LineBound(g.width, g.height, r);
  }

  lemma PaddedRowSum(g: RasterGrid, n: nat, r: nat)
    requires g.Valid() && g.width <= n && g.height <= n && r < n
    ensures Eval(Row(Padded(g, n), n, r), ONE)
         == Complex(if r < g.height then Sum(Line(g, r)) else 0.0, 0.0)
  {
    hide Padded, Mul, Sum, Eval, PaddedCell, Row, RasterGrid.Valid, Line;
    var a := Row(Padded(g, n), n, r);
    forall c | 0 <= c < n
      ensures a[c] == if r < g.height && c < g.width then Complex(Line(g, r)[c], 0.0) else ZERO
    {
      PaddedRow(g, n, r, c);
      if r < g.height && c < g.width {
        LineCell(g, r, c);
      } else {
        OutsidePadded(g, r, c);
      }
    }
    if r < g.height {
      EvalAtOne(a, Line(g, r));
    } else {
      EvalZeros(n, a, ONE);
    }
  }

  lemma LineSumsOf(g: RasterGrid, r: nat)
    requires g.Valid() && r < g.height && g.height * g.width <= |Centered(g.data, Mean(g.data))|
    ensures LineSums(Centered(g.data, Mean(g.data)), g.width, g.height)[r] == Sum(Line(g, r))
  {
    hide Sum, Mean, Centered;
    LineBound(g.width, g.height, r);
  }

  /** The padded matrix is zero outside the raster, and inside its entries are real and differ from
      one another exactly as the pixels do. With the next lemma, by which they add up to zero, this
      determines them. */
  ghost predicate KeepsContrast(m: seq<Complex>, g: RasterGrid, n: nat)
    requires g.Valid() && Square(m, n)
  {
    && (forall r: nat, c: nat :: r < n && c < n && (r >= g.height || c >= g.width) ==> Cell(m, n, r, c) == ZERO)
    && (forall r: nat, c: nat :: r < g.height && c < g.width && r < n && c < n ==> Cell(m, n, r, c).im == 0.0)
    && (forall r: nat, c: nat, p: nat, q: nat ::
          r < g.height && c < g.width && p < g.height && q < g.width && r < n && c < n && p < n && q < n ==>
            Cell(m, n, r, c).re - Cell(m, n, p, q).re == Pixel(g, r, c) - Pixel(g, p, q))
  }

  lemma PaddedExactly(g: RasterGrid, n: nat)
    requires g.Valid()
    ensures KeepsContrast(Padded(g, n), g, n)
  {
    hide Padded, Cell, Mean;
    forall r: nat, c: nat | r < n && c < n
      ensures Cell(Padded(g, n), n, r, c) == PaddedCell(g, r, c)
    {
      PaddedAt(g, n, r, c);
    }
  }

  /** The zero-frequency bin of a padded, mean-subtracted raster is always zero. */
  lemma DcBinVanishes(g: RasterGrid, n: nat, k: nat, roots: seq<Complex>)
    requires g.Valid() && g.width <= n && g.height <= n && n == Pow2(k) && k < |roots|
    ensures Cell(Transform2(Padded(g, n), n, k, roots, false), n, 0, 0) == ZERO
  {
    hide At, Padded, Cell, Mul, Mean, Sum, Eval, Transform, RowPass, ColumnPass, Row, Column, Centered;
    var m := Padded(g, n);
    var u := RowPass(m, n, k, roots, false);
    var a := Column(u, n, 0);
    var all := Centered(g.data, Mean(g.data));
    CenteredLength(g.data, Mean(g.data));
    var x := LineSums(all, g.width, g.height);
    PowZero(roots[k]);
    forall r | 0 <= r < n
      ensures a[r] == if r < |x| then Complex(x[r], 0.0) else ZERO
    {
      ColumnAt(u, n, 0, r);
      RowPassCell(m, n, k, roots, false, r, 0);
      ForwardAt(Row(m, n, r), k, roots, 0);
      PaddedRowSum(g, n, r);
      if r < |x| {
        LineSumsOf(g, r);
      }
    }
    ColumnPassCell(u, n, k, roots, false, 0, 0);
    ForwardAt(a, k, roots, 0);
    EvalAtOne(a, x);
    LineSumsTotal(all, g.width, g.height);
    assert all[..g.height * g.width] == all;
    CenteredTotal(g.data);
  }

  lemma CenteredLength(data: seq<real>, mean: real)
    ensures |Centered(data, mean)| == |data|
  {
  }

  // ----- the correlation surface of a shift -----

  /** The reference is a circular shift of the source, after padding and mean removal. */
  predicate ShiftedBy(src: RasterGrid, ref: RasterGrid, n: nat, dr: nat, dc: nat)
    requires src.Valid() && ref.Valid()
  {
    IsShift(Padded(src, n), Padded(ref, n), n, dr, dc)
  }

  function Bin(src: RasterGrid, ref: RasterGrid, n: nat, k: nat, roots: seq<Complex>, p: nat, q: nat): Complex
    requires src.Valid() && ref.Valid() && k < |roots| && p < n && q < n
  {
    Mul(Conj(Cell(Transform2(Padded(src, n), n, k, roots, false), n, p, q)),
        Cell(Transform2(Padded(ref, n), n, k, roots, false), n, p, q))
  }

  /** No bin of the cross spectrum but the zero-frequency one is cut off. */
  predicate Textured(src: RasterGrid, ref: RasterGrid, n: nat, k: nat, roots: seq<Complex>, abs: Complex -> real)
    requires src.Valid() && ref.Valid() && k < |roots|
  {
    forall p, q :: 0 <= p < n && 0 <= q < n && (p, q) != (0, 0) ==>
      abs(Bin(src, ref, n, k, roots, p, q)) >= CUTOFF
  }

  /** A bin that differs from the source only by a unit factor is whitened to that factor. */
  lemma WhitenedPhase(x: Complex, g: Complex, abs: Complex -> real)
    requires IsModulus(abs) && NormSq(g) == 1.0
    requires abs(Mul(Conj(x), Mul(g, x))) >= CUTOFF
    ensures Whitened(x, Mul(g, x), abs) == g
  {
    hide Mul, Conj, NormSq;
    var v := Mul(Conj(x), Mul(g, x));
    var e := NormSq(x);
    NormNonNegative(x);
    assert v == Mul(g, Complex(e, 0.0)) by {
      MulCommutes(Conj(x), Mul(g, x));
      MulAssociates(g, x, Conj(x));
      MulConj(x);
    }
    RealMul(g, e);
    NormSqMul(g, Complex(e, 0.0));
    RealNorm(e);
    SquaresEqual(abs(v), e);
    Cancel(g.re, e);
    Cancel(g.im, e);
  }

  lemma RealMul(g: Complex, e: real)
    ensures Mul(g, Complex(e, 0.0)) == Complex(g.re * e, g.im * e)
  {
  }

  lemma RealNorm(e: real)
    ensures NormSq(Complex(e, 0.0)) == e * e
  {
  }

  /** A zero source bin is cut off. */
  lemma WhitenedZero(y: Complex, abs: Complex -> real)
    requires IsModulus(abs)
    ensures Whitened(ZERO, y, abs) == ZERO
  {
    hide Mul, Conj, NormSq;
    ConjZero();
    NormZero();
    MulCommutes(ZERO, y);
    MulZero(y);
    if abs(ZERO) > 0.0 {
      PositiveProduct(abs(ZERO), abs(ZERO));
    }
  }

  /** Everything the theorems below assume about one call. */
  ghost predicate CircularShift(src: RasterGrid, ref: RasterGrid, n: nat, k: nat, roots: seq<Complex>,
      abs: Complex -> real, dr: nat, dc: nat)
  {
    && src.Valid() && ref.Valid() && IsFftSize(n, k, src, ref) && k < |roots| && RootTable(roots)
    && IsModulus(abs) && dr < n && dc < n
    && ShiftedBy(src, ref, n, dr, dc) && Textured(src, ref, n, k, roots, abs)
  }

  /** The whitened spectrum of a shift is the spectrum of an impulse with its zero frequency
      struck out. */
  lemma WhitenedSpectrum(src: RasterGrid, ref: RasterGrid, n: nat, k: nat, roots: seq<Complex>,
      abs: Complex -> real, dr: nat, dc: nat)
    requires CircularShift(src, ref, n, k, roots, abs, dr, dc)
    ensures CrossPower(Transform2(Padded(src, n), n, k, roots, false),
                       Transform2(Padded(ref, n), n, k, roots, false), abs)
         == SeqSub(Transform2(Impulse(n, dr, dc), n, k, roots, false), Impulse(n, 0, 0))
  {
    hide Padded, Transform2, RootTable, Whitened, Cell, At, Impulse, IsShift, IsModulus, Mul, Pow2, Conj,
      CrossPower, SeqSub, RasterGrid.Valid;
    var fs := Transform2(Padded(src, n), n, k, roots, false);
    var fr := Transform2(Padded(ref, n), n, k, roots, false);
    var cp := CrossPower(fs, fr, abs);
    var fi := Transform2(Impulse(n, dr, dc), n, k, roots, false);
    var e := Impulse(n, 0, 0);
    forall p, q | 0 <= p < n && 0 <= q < n
      ensures Cell(cp, n, p, q) == Cell(SeqSub(fi, e), n, p, q)
    {
      WhitenedBin(src, ref, n, k, roots, abs, dr, dc, p, q);
      CrossPowerCell(fs, fr, abs, n, p, q);
      SubCell(fi, e, n, p, q);
    }
    SameCells(cp, SeqSub(fi, e), n);
  }

  lemma CrossPowerCell(x: seq<Complex>, y: seq<Complex>, abs: Complex -> real, n: nat, p: nat, q: nat)
    requires Square(x, n) && Square(y, n) && p < n && q < n
    ensures Cell(CrossPower(x, y, abs), n, p, q) == Whitened(Cell(x, n, p, q), Cell(y, n, p, q), abs)
  {
    hide Whitened, At;
    AtBound(n, p, q);
  }

  lemma WhitenedBin(src: RasterGrid, ref: RasterGrid, n: nat, k: nat, roots: seq<Complex>,
      abs: Complex -> real, dr: nat, dc: nat, p: nat, q: nat)
    requires CircularShift(src, ref, n, k, roots, abs, dr, dc) && p < n && q < n
    ensures Whitened(Cell(Transform2(Padded(src, n), n, k, roots, false), n, p, q),
                     Cell(Transform2(Padded(ref, n), n, k, roots, false), n, p, q), abs)
         == Sub(Cell(Transform2(Impulse(n, dr, dc), n, k, roots, false), n, p, q), Cell(Impulse(n, 0, 0), n, p, q))
  {
    hide Padded, Transform2, RootTable, Whitened, Cell, At, Impulse, Phase, IsShift, IsModulus, Mul, Pow2, Conj,
      RasterGrid.Valid, NormSq;
    var x := Cell(Transform2(Padded(src, n), n, k, roots, false), n, p, q);
    var g := Phase(roots[k], dr, dc, p, q);
    ShiftTheorem2(Padded(src, n), Padded(ref, n), n, k, roots, dr, dc, p, q);
    ImpulseSpectrum(n, k, roots, dr, dc, p, q);
    PhaseUnit(roots, k, dr, dc, p, q);
    ImpulseCell(n, 0, 0, p, q);
    if p == 0 && q == 0 {
      DcBinVanishes(src, n, k, roots);
      WhitenedZero(Mul(g, x), abs);
      PhaseAtZero(roots[k], dr, dc);
      SubSame(ONE);
    } else {
      assert abs(Bin(src, ref, n, k, roots, p, q)) >= CUTOFF;
      WhitenedPhase(x, g, abs);
      SubZero(g);
    }
  }

  lemma PhaseAtZero(w: Complex, dr: nat, dc: nat)
    ensures Phase(w, dr, dc, 0, 0) == ONE
  {
    hide Mul;
    PowOne(dr);
    PowOne(dc);
    MulOne(ONE);
  }

  lemma SubZero(a: Complex)
    ensures Sub(a, ZERO) == a
  {
  }

  /** The surface height away from the peak: -1/n^2. */
  function Floor(n: nat): real
    requires n > 0
  {
    1.0 / n as real * (1.0 / n as real)
  }

  /** For a circular shift with texture at every non-zero frequency the surface is an impulse
      at the shift lowered by 1/n^2 everywhere, because mean removal strikes out the zero
      frequency. */
  lemma SurfaceOfShift(src: RasterGrid, ref: RasterGrid, n: nat, k: nat, roots: seq<Complex>,
      abs: Complex -> real, dr: nat, dc: nat, r: nat, c: nat)
    requires CircularShift(src, ref, n, k, roots, abs, dr, dc) && r < n && c < n && n > 0
    ensures Cell(Surface(src, ref, n, k, roots, abs), n, r, c)
         == Complex((if r == dr && c == dc then 1.0 else 0.0) - Floor(n), 0.0)
  {
    hide Padded, Transform2, RootTable, Cell, At, Impulse, IsShift, IsModulus, Pow2, CrossPower, SeqSub,
      RasterGrid.Valid, Floor, Scale, ShiftedBy, Textured, IsFftSize;
    assert n == Pow2(k) by { SizeIsPower(n, k, src, ref); }
    var im, e := Impulse(n, dr, dc), Impulse(n, 0, 0);
    var fi := Transform2(im, n, k, roots, false);
    WhitenedSpectrum(src, ref, n, k, roots, abs, dr, dc);
    Transform2Sub(fi, e, n, k, roots, true);
    RoundTrip2(im, n, k, roots, false);
    var fe := Transform2(e, n, k, roots, true);
    SubCell(im, fe, n, r, c);
    ImpulseCell(n, dr, dc, r, c);
    OriginTransform(n, k, roots, true, r, c);
    FloorScale(n, k);
  }

  lemma SizeIsPower(n: nat, k: nat, src: RasterGrid, ref: RasterGrid)
    requires IsFftSize(n, k, src, ref)
    ensures n == Pow2(k) && src.width <= n && src.height <= n
  {
  }

  lemma FloorScale(n: nat, k: nat)
    requires n == Pow2(k)
    ensures Scale(Factor(k, true), Scale(Factor(k, true), ONE)) == Complex(Floor(n), 0.0)
  {
  }

  lemma FloorPositive(n: nat)
    requires n > 0
    ensures 0.0 < Floor(n) && Floor(n) * (n * n) as real == 1.0
  {
    var q, m := 1.0 / n as real, n as real;
    assert q * m == 1.0 by { Reciprocal(m); }
    PositiveProduct(q, q);
    calc {
      q * q * (m * m);
      (q * m) * (q * m);
    }
  }

  // ----- peak, displacement, strength -----

  lemma SurfacePeak(src: RasterGrid, ref: RasterGrid, n: nat, k: nat, roots: seq<Complex>,
      abs: Complex -> real, dr: nat, dc: nat, peak: nat)
    requires CircularShift(src, ref, n, k, roots, abs, dr, dc) && n > 0
    requires IsPeak(Surface(src, ref, n, k, roots, abs), peak)
    ensures peak == At(n, dr, dc)
  {
    PeakDominates(Surface(src, ref, n, k, roots, abs), peak, peak);
    hide Surface, CircularShift, Floor, At, Cell, IsPeak, RasterGrid.Valid, Pow2;
    ShiftInside(src, ref, n, k, roots, abs, dr, dc);
    var s := Surface(src, ref, n, k, roots, abs);
    var r, c := Coordinates(n, peak);
    SurfaceOfShift(src, ref, n, k, roots, abs, dr, dc, dr, dc);
    SurfaceOfShift(src, ref, n, k, roots, abs, dr, dc, r, c);
    CellIs(s, n, dr, dc);
    CellIs(s, n, r, c);
    PeakDominates(s, peak, At(n, dr, dc));
  }

  lemma PeakDominates(s: seq<Complex>, t: nat, i: nat)
    requires IsPeak(s, t) && i < |s|
    ensures t < |s| && s[i].re <= s[t].re
  {
  }

  lemma ShiftInside(src: RasterGrid, ref: RasterGrid, n: nat, k: nat, roots: seq<Complex>,
      abs: Complex -> real, dr: nat, dc: nat)
    requires CircularShift(src, ref, n, k, roots, abs, dr, dc)
    ensures dr < n && dc < n && n == Pow2(k) && src.Valid() && ref.Valid() && k < |roots|
  {
    hide RootTable, IsModulus, ShiftedBy, Textured;
  }

  lemma PeakIsNear(n: nat, dr: nat, dc: nat)
    requires dr < n && dc < n
    ensures NearPeak(At(n, dr, dc), dr, dc, n)
  {
    AtBound(n, dr, dc);
  }

  lemma OneMore(f: real, cnt: nat)
    ensures f * (cnt + 1) as real == f * cnt as real + f
  {
  }

  lemma SidelobesNext(s: seq<Complex>, n: nat, pr: nat, pc: nat, m: nat)
    requires n > 0 && 0 < m <= |s|
    ensures var (sum, cnt) := Sidelobes(s, n, pr, pc, m - 1);
      Sidelobes(s, n, pr, pc, m)
      == if NearPeak(m - 1, pr, pc, n) then (sum, cnt) else (sum + Abs(s[m - 1].re), cnt + 1)
  {
    hide NearPeak;
  }

  lemma SidelobesNone(s: seq<Complex>, n: nat, pr: nat, pc: nat)
    requires n > 0
    ensures Sidelobes(s, n, pr, pc, 0) == (0.0, 0)
  {
  }

  /** When every cell away from the peak has height -f, the sidelobes sum to f per cell. */
  lemma {:induction false} SidelobesUniform(s: seq<Complex>, n: nat, dr: nat, dc: nat, f: real, m: nat)
    requires n > 0 && m <= |s| && f > 0.0
    requires forall t :: 0 <= t < |s| && !NearPeak(t, dr, dc, n) ==> s[t].re == -f
    ensures Sidelobes(s, n, dr, dc, m).0 == f * Sidelobes(s, n, dr, dc, m).1 as real
  {
    hide NearPeak, Sidelobes;
    if m == 0 {
      SidelobesNone(s, n, dr, dc);
    } else {
      SidelobesUniform(s, n, dr, dc, f, m - 1);
      SidelobesNext(s, n, dr, dc, m);
      OneMore(f, Sidelobes(s, n, dr, dc, m - 1).1);
    }
  }

  /** Some cell lies outside the excluded neighbourhood exactly for sides above four. */
  lemma {:induction false} SidelobesCount(s: seq<Complex>, n: nat, dr: nat, dc: nat, m: nat)
    requires Square(s, n) && dr < n && dc < n && m <= n * n
    ensures n <= 4 ==> Sidelobes(s, n, dr, dc, m).1 == 0
    ensures Sidelobes(s, n, dr, dc, m).1 > 0
      <==> exists t :: 0 <= t < m && !NearPeak(t, dr, dc, n)
  {
    if m != 0 {
      SidelobesCount(s, n, dr, dc, m - 1);
      AtInverse(n, m - 1);
    }
  }

  lemma FarCell(n: nat, dr: nat, dc: nat)
    requires dr < n && dc < n && n >= 6
    ensures exists t :: 0 <= t < n * n && !NearPeak(t, dr, dc, n)
  {
    var r := if dr >= 3 then dr - 3 else dr + 3;
    AtBound(n, r, dc);
    assert !NearPeak(At(n, r, dc), dr, dc, n);
  }

  lemma QuotientOfFloor(m: real, f: real)
    requires f * m == 1.0 && f > 0.0
    ensures (1.0 - f) / f == m - 1.0
  {
    assert (m - 1.0) * f == 1.0 - f;
    Cancel(m - 1.0, f);
  }

  /** The displacement is recovered exactly: whatever phaseCorrelate reports for a circular
      shift is that shift, unwrapped; and the strength is n^2 - 1, except that it is 0 on
      sides of at most four, where the excluded neighbourhood is the whole surface, and on
      sides so large that 1/n^2 falls under the cut-off. */
  lemma ShiftRecovered(src: RasterGrid, ref: RasterGrid, n: nat, k: nat, roots: seq<Complex>,
      abs: Complex -> real, dr: nat, dc: nat, peak: nat, outC: int, outR: int, strength: real)
    requires CircularShift(src, ref, n, k, roots, abs, dr, dc) && n > 0
    requires Reported(Surface(src, ref, n, k, roots, abs), n, peak, outC, outR, strength)
    ensures outC == Wrapped(dc, n) && outR == Wrapped(dr, n)
    ensures strength == if n <= 4 || Floor(n) <= CUTOFF then 0.0 else (n * n) as real - 1.0
  {
    hide Surface, CircularShift, Floor, Sidelobes, Wrapped, IsPeak, At, Pow2;
    ShiftInside(src, ref, n, k, roots, abs, dr, dc);
    var s := Surface(src, ref, n, k, roots, abs);
    SurfacePeak(src, ref, n, k, roots, abs, dr, dc, peak);
    AtBound(n, dr, dc);
    StrengthOfShift(src, ref, n, k, roots, abs, dr, dc);
  }

  lemma OffPeak(src: RasterGrid, ref: RasterGrid, n: nat, k: nat, roots: seq<Complex>,
      abs: Complex -> real, dr: nat, dc: nat, t: nat)
    requires CircularShift(src, ref, n, k, roots, abs, dr, dc) && n > 0 && t < n * n
    ensures Surface(src, ref, n, k, roots, abs)[t].re
         == (if t == At(n, dr, dc) then 1.0 else 0.0) - Floor(n)
  {
    ShiftInside(src, ref, n, k, roots, abs, dr, dc);
    hide Surface, CircularShift, Floor, At, Cell, RasterGrid.Valid, Pow2;
    var r, c := Coordinates(n, t);
    SameAt(n, r, c, dr, dc);
    SurfaceOfShift(src, ref, n, k, roots, abs, dr, dc, r, c);
    CellIs(Surface(src, ref, n, k, roots, abs), n, r, c);
  }

  lemma SameAt(n: nat, r: nat, c: nat, r': nat, c': nat)
    requires r < n && c < n && r' < n && c' < n
    ensures At(n, r, c) == At(n, r', c') <==> r == r' && c == c'
  {
    hide At;
    AtBound(n, r, c);
    AtBound(n, r', c');
  }

  lemma StrengthOfShift(src: RasterGrid, ref: RasterGrid, n: nat, k: nat, roots: seq<Complex>,
      abs: Complex -> real, dr: nat, dc: nat)
    requires CircularShift(src, ref, n, k, roots, abs, dr, dc) && n > 0
    ensures At(n, dr, dc) < n * n
    ensures Strength(Surface(src, ref, n, k, roots, abs), n, At(n, dr, dc))
         == if n <= 4 || Floor(n) <= CUTOFF then 0.0 else (n * n) as real - 1.0
  {
    ShiftInside(src, ref, n, k, roots, abs, dr, dc);
    AtBound(n, dr, dc);
    NotFive(k);
    hide Surface, CircularShift, Floor, Sidelobes, At, RasterGrid.Valid, Pow2;
    var s := Surface(src, ref, n, k, roots, abs);
    forall t | 0 <= t < n * n
      ensures s[t].re == (if t == At(n, dr, dc) then 1.0 else 0.0) - Floor(n)
    {
      OffPeak(src, ref, n, k, roots, abs, dr, dc, t);
    }
    StrengthUniform(s, n, dr, dc);
  }

  lemma StrengthUniform(s: seq<Complex>, n: nat, dr: nat, dc: nat)
    requires Square(s, n) && dr < n && dc < n && n != 5
    requires forall t :: 0 <= t < n * n ==> s[t].re == (if t == At(n, dr, dc) then 1.0 else 0.0) - Floor(n)
    ensures At(n, dr, dc) < n * n
    ensures Strength(s, n, At(n, dr, dc))
         == if n <= 4 || Floor(n) <= CUTOFF then 0.0 else (n * n) as real - 1.0
  {
    hide Floor, Sidelobes, At, NearPeak;
    AtBound(n, dr, dc);
    FloorPositive(n);
    QuotientOfFloor((n * n) as real, Floor(n));
    MeanSidelobe(s, n, dr, dc);
  }

  lemma MeanSidelobe(s: seq<Complex>, n: nat, dr: nat, dc: nat)
    requires Square(s, n) && dr < n && dc < n && n != 5
    requires forall t :: 0 <= t < n * n ==> s[t].re == (if t == At(n, dr, dc) then 1.0 else 0.0) - Floor(n)
    ensures var (sum, cnt) := Sidelobes(s, n, dr, dc, n * n);
      if n <= 4 then cnt == 0 else cnt > 0 && sum / cnt as real == Floor(n)
  {
    hide Floor, Sidelobes, At, NearPeak;
    FloorPositive(n);
    PeakIsNear(n, dr, dc);
    SidelobesUniform(s, n, dr, dc, Floor(n), n * n);
    SidelobesCount(s, n, dr, dc, n * n);
    var cnt := Sidelobes(s, n, dr, dc, n * n).1;
    if n > 4 {
      FarCell(n, dr, dc);
      Cancel(Floor(n), cnt as real);
    }
  }

  lemma NotFive(k: nat)
    ensures Pow2(k) != 5
  {
  }

  /** Whatever a call reports for two rasters that are a circular shift of each other is that
      shift, unwrapped, with the strength above. */
  lemma CallRecoversShift(src: RasterGrid, ref: RasterGrid, roots: seq<Complex>, abs: Complex -> real,
      n: nat, k: nat, dr: nat, dc: nat, outC: int, outR: int, strength: real)
    requires src.Valid() && ref.Valid() && n > 0 && IsFftSize(n, k, src, ref)
    requires CircularShift(src, ref, n, k, roots, abs, dr, dc)
    requires Correlates(src, ref, roots, abs, outC, outR, strength)
    ensures outC == Wrapped(dc, n) && outR == Wrapped(dr, n)
    ensures strength == if n <= 4 || Floor(n) <= CUTOFF then 0.0 else (n * n) as real - 1.0
  {
    hide Surface, Reported, CircularShift, IsFftSize, Wrapped, Floor, RasterGrid.Valid;
    var m: nat, j: nat, peak: nat :| PeakOf(src, ref, roots, abs, m, j, peak, outC, outR, strength);
    SizeUnique(n, k, m, j, src, ref);
    ShiftRecovered(src, ref, n, k, roots, abs, dr, dc, peak, outC, outR, strength);
  }

  lemma WrapCongruent(p: nat, n: int)
    requires p < n
    ensures (Wrapped(p, n) - p) % n == 0
  {
    assert (-n) % n == 0;
  }

  /** The wrapped displacement names the same cyclic shift, and it lies in [-n/2, n/2) for
      every peak exactly when the transform has at least two points per side. */
  lemma WrapExact(k: nat)
    ensures var n: int := Pow2(k);
      && (forall p: nat :: p < n ==> (Wrapped(p, n) - p) % n == 0)
      && ((forall p: nat :: p < n ==> -n <= 2 * Wrapped(p, n) < n) <==> k > 0)
  {
    var n: int := Pow2(k);
    forall p: nat | p < n
      ensures (Wrapped(p, n) - p) % n == 0
    {
      WrapCongruent(p, n);
    }
    if k == 0 {
      assert Wrapped(0, 1) == -1;
    } else {
      assert n == 2 * Pow2(k - 1);
    }
  }
}
