/** phaseCorrelate: pad, transform, whiten the cross spectrum, transform back, find the peak. */
module PhaseCorrelation {
  import opened Arithmetic
  import opened ComplexNumbers
  import opened FourierTransform
  import opened RadixTwoFft
  import opened TwoDimensionalFft
  import opened TwoDimensionalLaws
  import opened ShiftLaws
  import opened Rasters

  /** Entry (r, c) of the zero-padded, mean-subtracted matrix. */
  function PaddedCell(g: RasterGrid, r: nat, c: nat): Complex
    requires g.Valid()
  {
    if r < g.height && c < g.width then
      PixelBound(g, r, c);
      Complex(g.data[r * g.width + c] - Mean(g.data), 0.0)
    else ZERO
  }

  function Padded(g: RasterGrid, n: nat): (m: seq<Complex>)
    requires g.Valid()
    ensures Square(m, n)
  {
    seq(n * n, t requires 0 <= t < n * n => AtInverse(n, t); PaddedCell(g, t / n, t % n))
  }

  lemma PaddedAt(g: RasterGrid, n: nat, r: nat, c: nat)
    requires g.Valid() && r < n && c < n
    ensures Cell(Padded(g, n), n, r, c) == PaddedCell(g, r, c)
  {
    hide At, PaddedCell;
    AtBound(n, r, c);
  }

  /** std::abs on complex numbers: the non-negative root of the squared modulus. */
  ghost predicate IsModulus(abs: Complex -> real) {
    forall z :: abs(z) >= 0.0 && abs(z) * abs(z) == NormSq(z)
  }

  const CUTOFF := 0.000000000001

  /** One bin of the normalized cross-power spectrum. */
  function Whitened(x: Complex, y: Complex, abs: Complex -> real): Complex {
    var v := Mul(Conj(x), y);
    if abs(v) < CUTOFF then ZERO else Complex(v.re / abs(v), v.im / abs(v))
  }

  /** `u` has length one and points the way `v` does. */
  ghost predicate UnitAlong(u: Complex, v: Complex) {
    NormSq(u) == 1.0 && exists t: real :: t > 0.0 && v == Scale(t, u)
  }

  /** There is only one such number. */
  lemma UnitAlongUnique(u: Complex, w: Complex, v: Complex)
    requires UnitAlong(u, v) && UnitAlong(w, v)
    ensures u == w
  {
    hide NormSq;
    var a: real :| a > 0.0 && v == Scale(a, u);
    var b: real :| b > 0.0 && v == Scale(b, w);
    ScaleNorm(a, u);
    ScaleNorm(b, w);
    SquaresEqual(a, b);
    Cancel(u.re, a);
    Cancel(u.im, a);
    Cancel(w.re, a);
    Cancel(w.im, a);
    assert u.re * a == w.re * a && u.im * a == w.im * a;
  }

  lemma ScaleNorm(t: real, u: Complex)
    ensures NormSq(Scale(t, u)) == t * t * NormSq(u)
  {
  }

  /** Dividing a number by its modulus. */
  lemma Normalised(v: Complex, m: real)
    requires m > 0.0 && m * m == NormSq(v)
    ensures UnitAlong(Complex(v.re / m, v.im / m), v)
  {
    hide NormSq;
    var u := Complex(v.re / m, v.im / m);
    QuotientBack(v.re, m);
    QuotientBack(v.im, m);
    assert v == Scale(m, u);
    hide Scale;
    ScaleNorm(m, u);
    UnitFactor(m, NormSq(u), NormSq(v));
  }

  lemma UnitFactor(m: real, x: real, q: real)
    requires m > 0.0 && m * m == q && m * m * x == q
    ensures x == 1.0
  {
    Regrouped(m, x);
    SameFactor(m, m * x, m);
    SameFactor(m, x, 1.0);
  }

  /** Below the cut-off a bin is zero; above it, it has length one and keeps the direction of
      the cross product. */
  lemma WhitenedExactly(x: Complex, y: Complex, abs: Complex -> real)
    requires IsModulus(abs)
    ensures var v := Mul(Conj(x), y);
      if abs(v) < 0.000000000001 then Whitened(x, y, abs) == ZERO else UnitAlong(Whitened(x, y, abs), v)
  {
    hide Mul, Conj, NormSq, UnitAlong;
    var v := Mul(Conj(x), y);
    if abs(v) >= 0.000000000001 {
      Normalised(v, abs(v));
    }
  }

  function CrossPower(x: seq<Complex>, y: seq<Complex>, abs: Complex -> real): (s: seq<Complex>)
    requires |x| == |y|
    ensures |s| == |x|
  {
    seq(|x|, i requires 0 <= i < |x| => Whitened(x[i], y[i], abs))
  }

  /** The correlation surface the peak is searched on. */
  function Surface(src: RasterGrid, ref: RasterGrid, n: nat, k: nat, roots: seq<Complex>,
        abs: Complex -> real): (s: seq<Complex>)
    requires src.Valid() && ref.Valid() && k < |roots|
    ensures Square(s, n)
  {
    var fs := Transform2(Padded(src, n), n, k, roots, false);
    var fr := Transform2(Padded(ref, n), n, k, roots, false);
    Transform2(CrossPower(fs, fr, abs), n, k, roots, true)
  }

  /** `t` is the first index holding the largest real part. */
  predicate IsPeak(s: seq<Complex>, t: nat) {
    && t < |s|
    && (forall i :: 0 <= i < |s| ==> s[i].re <= s[t].re)
    && (forall i :: 0 <= i < t ==> s[i].re < s[t].re)
  }

  /** Peaks past n/2 stand for negative displacements. */
  function Wrapped(p: nat, n: nat): int {
    if p < n / 2 then p else p - n
  }

  lemma OutsidePadded(g: RasterGrid, r: nat, c: nat)
    requires g.Valid() && (r >= g.height || c >= g.width)
    ensures PaddedCell(g, r, c) == ZERO
  {
  }

  /** The displacement (dc, dr) a peak index stands for. */
  function Displacement(t: nat, n: nat): (int, int)
    requires n > 0
  {
    (Wrapped(t % n, n), Wrapped(t / n, n))
  }

  // ----- the loops -----

  method PadRow(f: array<Complex>, g: RasterGrid, n: nat, r: nat, mean: real)
    requires g.Valid() && g.width <= n && r < g.height <= n && Square(f[..], n) && mean == Mean(g.data)
    requires forall j :: 0 <= j < n ==> Cell(f[..], n, r, j) == ZERO
    modifies f
    ensures forall i, j :: 0 <= i < n && 0 <= j < n ==>
      Cell(f[..], n, i, j) == if i == r then PaddedCell(g, i, j) else Cell(old(f[..]), n, i, j)
  {
    hide At, Cell, Mean;
    ghost var f0 := f[..];
    for c := 0 to g.width
      invariant forall i, j :: 0 <= i < n && 0 <= j < n ==>
        Cell(f[..], n, i, j) == if i == r && j < c then PaddedCell(g, i, j) else Cell(f0, n, i, j)
    {
      PixelBound(g, r, c);
      StoreCell(f, n, r, c, Complex(g.data[r * g.width + c] - mean, 0.0));
    }
  }

  method Pad(g: RasterGrid, n: nat) returns (f: array<Complex>)
    requires g.Valid() && g.width <= n && g.height <= n
    ensures fresh(f) && f[..] == Padded(g, n)
  {
    hide At, Mean, PaddedCell;
    var mean := MeanOf(g.data);
    f := new Complex[n * n](i => ZERO);
    forall i, j | 0 <= i < n && 0 <= j < n
      ensures Cell(f[..], n, i, j) == ZERO
    {
      CellIs(f[..], n, i, j);
    }
    for r := 0 to g.height
      invariant forall i, j :: 0 <= i < n && 0 <= j < n ==>
        Cell(f[..], n, i, j) == if i < r then PaddedCell(g, i, j) else ZERO
    {
      PadRow(f, g, n, r, mean);
    }
    forall i: nat, j: nat | i < n && j < n && i >= g.height
      ensures PaddedCell(g, i, j) == ZERO
    {
      OutsidePadded(g, i, j);
    }
    forall i, j | 0 <= i < n && 0 <= j < n
      ensures Cell(f[..], n, i, j) == Cell(Padded(g, n), n, i, j)
    {
      PaddedAt(g, n, i, j);
    }
    SameCells(f[..], Padded(g, n), n);
  }

  method FindPeak(cp: array<Complex>) returns (t: nat)
    requires cp.Length > 0
    ensures IsPeak(cp[..], t)
  {
    t := 0;
    var peak := cp[0].re;
    for i := 1 to cp.Length
      invariant t < i && peak == cp[t].re
      invariant forall j :: 0 <= j < i ==> cp[j].re <= peak
      invariant forall j :: 0 <= j < t ==> cp[j].re < peak
    {
      if cp[i].re > peak {
        peak := cp[i].re;
        t := i;
      }
    }
  }

  /** n is the smallest power of two that covers both rasters. */
  predicate IsFftSize(n: nat, k: nat, src: RasterGrid, ref: RasterGrid) {
    && n == Pow2(k)
    && src.width <= n && src.height <= n && ref.width <= n && ref.height <= n
    && (k > 0 ==> src.width > n / 2 || src.height > n / 2 || ref.width > n / 2 || ref.height > n / 2)
  }

  /** The side of the transform for two rasters. */
  ghost predicate IsSide(n: nat, src: RasterGrid, ref: RasterGrid) {
    exists k: nat :: IsFftSize(n, k, src, ref)
  }

  method FftSize(src: RasterGrid, ref: RasterGrid) returns (n: nat, ghost k: nat)
    ensures IsFftSize(n, k, src, ref) && IsSide(n, src, ref)
  {
    n, k := 1, 0;
    while n < src.width || n < src.height || n < ref.width || n < ref.height
      invariant n == Pow2(k)
      invariant k > 0 ==> src.width > n / 2 || src.height > n / 2 || ref.width > n / 2 || ref.height > n / 2
      decreases src.width + src.height + ref.width + ref.height - n
    {
      n, k := n * 2, k + 1;
    }
    assert IsFftSize(n, k, src, ref);
  }

  /** Two rasters determine the size. */
  lemma SizeUnique(n: nat, k: nat, m: nat, j: nat, src: RasterGrid, ref: RasterGrid)
    requires IsFftSize(n, k, src, ref) && IsFftSize(m, j, src, ref)
    ensures n == m && k == j
  {
    if k < j {
      PowOrder(k, j - 1);
    } else if j < k {
      PowOrder(j, k - 1);
    }
  }

  // ----- peak-to-sidelobe strength -----

  function Abs(x: real): real {
    if x < 0.0 then -x else x
  }

  /** Cyclic distance of two indices modulo n. */
  function Distance(a: nat, b: nat, n: nat): int {
    var d := if a < b then b - a else a - b;
    if n - d < d then n - d else d
  }

  predicate NearPeak(t: nat, pr: nat, pc: nat, n: nat)
    requires n > 0
  {
    Distance(t / n, pr, n) <= 2 && Distance(t % n, pc, n) <= 2
  }

  /** Sum of |re| over the first m cells away from the peak, and how many there are. */
  function Sidelobes(s: seq<Complex>, n: nat, pr: nat, pc: nat, m: nat): (real, nat)
    requires n > 0 && m <= |s|
  {
    if m == 0 then (0.0, 0)
    else
      var (sum, cnt) := Sidelobes(s, n, pr, pc, m - 1);
      if NearPeak(m - 1, pr, pc, n) then (sum, cnt) else (sum + Abs(s[m - 1].re), cnt + 1)
  }

  function Strength(s: seq<Complex>, n: nat, t: nat): real
    requires n > 0 && t < |s|
  {
    var (sum, cnt) := Sidelobes(s, n, t / n, t % n, |s|);
    var mean := if cnt > 0 then sum / cnt as real else 0.0;
    if mean > CUTOFF then s[t].re / mean else 0.0
  }

  function Around(b: nat, k: int, n: nat): int
    requires n > 0
  {
    (b + k) % n
  }

  /** a is b moved by at most two places, cyclically. */
  predicate CyclicNear(a: nat, b: nat, n: nat)
    requires n > 0
  {
    exists k :: -2 <= k <= 2 && Around(b, k, n) == a
  }

  lemma DistanceExactly(a: nat, b: nat, n: nat)
    requires a < n && b < n
    ensures Distance(a, b, n) <= 2 <==> CyclicNear(a, b, n)
  {
    if Distance(a, b, n) <= 2 {
      var k := if a - b > 2 then a - b - n else if a - b < -2 then a - b + n else a - b;
      CyclicSum(b + k, n);
      assert -2 <= k <= 2 && Around(b, k, n) == a;
    }
    if k :| -2 <= k <= 2 && Around(b, k, n) == a {
      if n > 2 {
        CyclicSum(b + k, n);
      }
    }
  }

  lemma CyclicSum(x: int, n: nat)
    requires n > 0 && 0 <= x + n && x < 2 * n
    ensures x % n == if x < 0 then x + n else if x < n then x else x - n
  {
    if x < 0 {
      NegativeRemainder(x, n);
    } else {
      ModOnce(x, n);
    }
  }

  lemma NegativeRemainder(x: int, n: nat)
    requires n > 0 && 0 <= x + n && x < 0
    ensures x % n == x + n
  {
    var q, r := x / n, x % n;
    assert x == n * q + r;
    if q >= 0 {
      MulMonotone(0, q, n);
    } else if q <= -2 {
      MulMonotone(2, -q, n);
    }
  }

  /** Cell t lies outside the cyclic 5 x 5 neighbourhood of (pr, pc). */
  predicate Far(t: nat, pr: nat, pc: nat, n: nat)
    requires n > 0
  {
    !CyclicNear(t / n, pr, n) || !CyclicNear(t % n, pc, n)
  }

  /** The heights of the far cells, zero for the others. */
  function FarHeights(s: seq<Complex>, n: nat, pr: nat, pc: nat, m: nat): (h: seq<real>)
    requires n > 0 && m <= |s|
    ensures |h| == m
  {
    seq(m, t requires 0 <= t < m => if Far(t, pr, pc, n) then (if s[t].re < 0.0 then -s[t].re else s[t].re) else 0.0)
  }

  function FarCells(n: nat, pr: nat, pc: nat, m: nat): set<nat>
    requires n > 0
  {
    set t: nat | t < m && Far(t, pr, pc, n)
  }

  lemma {:induction false} SidelobesAreFar(s: seq<Complex>, n: nat, pr: nat, pc: nat, m: nat)
    requires |s| == n * n && pr < n && pc < n && m <= |s|
    ensures Sidelobes(s, n, pr, pc, m) == (Sum(FarHeights(s, n, pr, pc, m)), |FarCells(n, pr, pc, m)|)
  {
    hide Far, NearPeak, FarHeights, FarCells;
    if m == 0 {
      NoneFar(s, n, pr, pc);
    } else {
      SidelobesAreFar(s, n, pr, pc, m - 1);
      NearIsNotFar(n, pr, pc, m - 1);
      HeightsNext(s, n, pr, pc, m);
      CellsNext(n, pr, pc, m);
    }
  }

  lemma NoneFar(s: seq<Complex>, n: nat, pr: nat, pc: nat)
    requires n > 0
    ensures FarHeights(s, n, pr, pc, 0) == [] && FarCells(n, pr, pc, 0) == {}
  {
  }

  lemma HeightsNext(s: seq<Complex>, n: nat, pr: nat, pc: nat, m: nat)
    requires n > 0 && 0 < m <= |s|
    ensures Sum(FarHeights(s, n, pr, pc, m))
         == Sum(FarHeights(s, n, pr, pc, m - 1)) + if Far(m - 1, pr, pc, n) then Abs(s[m - 1].re) else 0.0
  {
    hide Far;
    var h := FarHeights(s, n, pr, pc, m);
    assert h[..m - 1] == FarHeights(s, n, pr, pc, m - 1);
  }

  lemma CellsNext(n: nat, pr: nat, pc: nat, m: nat)
    requires n > 0 && 0 < m
    ensures |FarCells(n, pr, pc, m)| == |FarCells(n, pr, pc, m - 1)| + if Far(m - 1, pr, pc, n) then 1 else 0
  {
    hide Far;
    var c := FarCells(n, pr, pc, m - 1);
    assert FarCells(n, pr, pc, m) == if Far(m - 1, pr, pc, n) then c + {m - 1} else c;
  }

  lemma NearIsNotFar(n: nat, pr: nat, pc: nat, t: nat)
    requires t < n * n && pr < n && pc < n
    ensures n > 0 && (NearPeak(t, pr, pc, n) <==> !Far(t, pr, pc, n))
  {
    hide CyclicNear, Distance;
    AtInverse(n, t);
    DistanceExactly(t / n, pr, n);
    DistanceExactly(t % n, pc, n);
  }

  /** For every surface and every cell: the strength is its height over the mean height of the
      cells outside its cyclic 5 x 5 neighbourhood, and 0 without such cells or when their mean
      does not exceed 1e-12. */
  lemma StrengthExactly(s: seq<Complex>, n: nat, r: nat, c: nat)
    requires |s| == n * n && r < n && c < n
    ensures At(n, r, c) < |s|
    ensures var cells, sum := FarCells(n, r, c, n * n), Sum(FarHeights(s, n, r, c, n * n));
      Strength(s, n, At(n, r, c)) ==
        if cells == {} || sum / |cells| as real <= 0.000000000001 then 0.0
        else s[At(n, r, c)].re / (sum / |cells| as real)
  {
    hide At, Far, FarHeights, FarCells, Sidelobes;
    AtBound(n, r, c);
    SidelobesAreFar(s, n, r, c, n * n);
  }

  lemma SidelobesStep(s: seq<Complex>, n: nat, pr: nat, pc: nat, r: nat, c: nat)
    requires r < n && c < n && |s| == Flat(n, n, 0)
    ensures Flat(n, r, c) < |s|
    ensures var (sum, cnt) := Sidelobes(s, n, pr, pc, Flat(n, r, c));
      Sidelobes(s, n, pr, pc, Flat(n, r, c + 1))
      == if Distance(r, pr, n) <= 2 && Distance(c, pc, n) <= 2 then (sum, cnt)
        else (sum + Abs(s[Flat(n, r, c)].re), cnt + 1)
  {
    hide Flat, Distance, Abs;
    FlatBound(n, n, r, c);
    FlatStep(n, r, c);
    FlatInverse(n, r, c);
  }

  method PeakStrength(cp: array<Complex>, n: nat, t: nat) returns (strength: real)
    requires n > 0 && cp.Length == n * n && t < n * n
    ensures strength == Strength(cp[..], n, t)
  {
    hide At, Flat, Sidelobes, Distance, NearPeak, Abs;
    var pr, pc := t / n, t % n;
    var sum, cnt: nat := 0.0, 0;
    FlatIs(n, n, 0);
    FlatStep(n, 0, 0);
    NoSidelobes(cp[..], n, pr, pc);
    for r := 0 to n
      invariant Flat(n, r, 0) <= cp.Length && (sum, cnt) == Sidelobes(cp[..], n, pr, pc, Flat(n, r, 0))
    {
      FlatBound(n, n, r, 0);
      for c := 0 to n
        invariant Flat(n, r, c) <= cp.Length && (sum, cnt) == Sidelobes(cp[..], n, pr, pc, Flat(n, r, c))
      {
        SidelobesStep(cp[..], n, pr, pc, r, c);
        FlatIs(n, r, c);
        FlatStep(n, r, c);
        if !(Distance(r, pr, n) <= 2 && Distance(c, pc, n) <= 2) {
          sum := sum + Abs(cp[r * n + c].re);
          cnt := cnt + 1;
        }
      }
      FlatStep(n, r, 0);
    }
    var mean := if cnt > 0 then sum / cnt as real else 0.0;
    strength := if mean > CUTOFF then cp[t].re / mean else 0.0;
  }

  lemma NoSidelobes(s: seq<Complex>, n: nat, pr: nat, pc: nat)
    requires n > 0
    ensures Sidelobes(s, n, pr, pc, 0) == (0.0, 0)
  {
  }

  method NormalizedCrossPower(fs: array<Complex>, fr: array<Complex>, abs: Complex -> real)
    returns (cp: array<Complex>)
    requires fs.Length == fr.Length
    ensures fresh(cp) && cp[..] == CrossPower(fs[..], fr[..], abs)
    ensures cp.Length == fs.Length
    ensures IsModulus(abs) ==> forall i :: 0 <= i < cp.Length ==>
      if abs(Mul(Conj(fs[i]), fr[i])) < 0.000000000001 then cp[i] == ZERO
      else UnitAlong(cp[i], Mul(Conj(fs[i]), fr[i]))
  {
    hide Mul, Conj, NormSq, UnitAlong;
    cp := new Complex[fs.Length](i => ZERO);
    for i := 0 to fs.Length
      invariant forall j :: 0 <= j < i ==> cp[j] == Whitened(fs[j], fr[j], abs)
    {
      var v := Mul(Conj(fs[i]), fr[i]);
      var mag := abs(v);
      cp[i] := if mag < CUTOFF then ZERO else Complex(v.re / mag, v.im / mag);
    }
    if IsModulus(abs) {
      forall i | 0 <= i < cp.Length
        ensures if abs(Mul(Conj(fs[i]), fr[i])) < 0.000000000001 then cp[i] == ZERO
                else UnitAlong(cp[i], Mul(Conj(fs[i]), fr[i]))
      {
        WhitenedExactly(fs[i], fr[i], abs);
      }
    }
  }

  method CorrelationSurface(src: RasterGrid, ref: RasterGrid, nfft: nat, roots: seq<Complex>, abs: Complex -> real,
        ghost k: nat)
    returns (cp: array<Complex>)
    requires src.Valid() && ref.Valid() && RootTable(roots) && k < |roots| && nfft == Pow2(k)
    requires src.width <= nfft && src.height <= nfft && ref.width <= nfft && ref.height <= nfft
    ensures cp[..] == Surface(src, ref, nfft, k, roots, abs)
  {
    hide Padded, Transform2, CrossPower, RootTable, Pow2, UnitAlong, IsModulus;
    var fs := Pad(src, nfft);
    var fr := Pad(ref, nfft);
    Fft2d(fs, nfft, false, roots, k);
    Fft2d(fr, nfft, false, roots, k);
    cp := NormalizedCrossPower(fs, fr, abs);
    Fft2d(cp, nfft, true, roots, k);
  }

  /** The table of roots reaches the size the two rasters need. */
  predicate TableCovers(roots: seq<Complex>, src: RasterGrid, ref: RasterGrid) {
    && |roots| > 0 && RootTable(roots)
    && src.width <= Pow2(|roots| - 1) && src.height <= Pow2(|roots| - 1)
    && ref.width <= Pow2(|roots| - 1) && ref.height <= Pow2(|roots| - 1)
  }

  /** What is reported from a surface: its first highest cell, unwrapped, and its strength. */
  predicate Reported(s: seq<Complex>, n: nat, peak: nat, dc: int, dr: int, strength: real)
    requires n > 0
  {
    IsPeak(s, peak) && (dc, dr) == Displacement(peak, n) && strength == Strength(s, n, peak)
  }

  method ReadSurface(cp: array<Complex>, n: nat) returns (dc: int, dr: int, strength: real, ghost peak: nat)
    requires n > 0 && cp.Length == n * n
    ensures Reported(cp[..], n, peak, dc, dr, strength)
    ensures exists t: nat :: Reported(cp[..], n, t, dc, dr, strength)
  {
    hide Strength;
    MulMonotone(1, n, n);
    var t := FindPeak(cp);
    peak := t;
    strength := PeakStrength(cp, n, t);
    var (x, y) := Displacement(t, n);
    dc, dr := x, y;
  }

  /** The result for two rasters: displacement and strength of a peak of their surface. */
  ghost predicate Correlates(src: RasterGrid, ref: RasterGrid, roots: seq<Complex>, abs: Complex -> real,
      dc: int, dr: int, strength: real)
    requires src.Valid() && ref.Valid()
  {
    exists n: nat, k: nat, peak: nat :: PeakOf(src, ref, roots, abs, n, k, peak, dc, dr, strength)
  }

  predicate PeakOf(src: RasterGrid, ref: RasterGrid, roots: seq<Complex>, abs: Complex -> real,
      n: nat, k: nat, peak: nat, dc: int, dr: int, strength: real)
    requires src.Valid() && ref.Valid()
  {
    n > 0 && IsFftSize(n, k, src, ref) && k < |roots|
      && Reported(Surface(src, ref, n, k, roots, abs), n, peak, dc, dr, strength)
  }

  /** phaseCorrelate. The pair is the displacement to add to a source position. */
  method PhaseCorrelate(src: RasterGrid, ref: RasterGrid, roots: seq<Complex>, abs: Complex -> real)
    returns (dc: int, dr: int, strength: real)
    requires src.Valid() && ref.Valid() && TableCovers(roots, src, ref)
    ensures Correlates(src, ref, roots, abs, dc, dr, strength)
  {
    hide Surface, Reported, RasterGrid.Valid, RootTable, IsModulus;
    var nfft, k := FftSize(src, ref);
    SizeInTable(nfft, k, roots, src, ref);
    var cp := CorrelationSurface(src, ref, nfft, roots, abs, k);
    ghost var peak;
    dc, dr, strength, peak := ReadSurface(cp, nfft);
    assert PeakOf(src, ref, roots, abs, nfft, k, peak, dc, dr, strength);
  }

  lemma SizeInTable(n: nat, k: nat, roots: seq<Complex>, src: RasterGrid, ref: RasterGrid)
    requires IsFftSize(n, k, src, ref) && TableCovers(roots, src, ref)
    ensures k < |roots|
  {
    hide RootTable;
    if k > 0 {
      PowStrict(k - 1, |roots| - 1);
    }
  }
}
