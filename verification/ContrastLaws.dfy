/** Phase correlation does not see brightness and contrast: only which frequencies survive. */
module ContrastLaws {
  import opened Arithmetic
  import opened ComplexNumbers
  import opened FourierTransform
  import opened RadixTwoFft
  import opened TwoDimensionalFft
  import opened TwoDimensionalLaws
  import opened Rasters
  import opened PhaseCorrelation
  import opened ShiftDetection
  import opened PhaseAlignment

  /** The raster with every sample multiplied by a gain and moved by an offset. */
  function Stretched(g: RasterGrid, gain: real, offset: real): RasterGrid {
    g.(data := seq(|g.data|, i requires 0 <= i < |g.data| => gain * g.data[i] + offset))
  }

  lemma StretchStep(gain: real, s: real, v: real, n: nat, offset: real)
    ensures gain * s + n as real * offset + (gain * v + offset) == gain * (s + v) + (n + 1) as real * offset
  {
  }

  lemma {:induction false} StretchedSum(x: seq<real>, y: seq<real>, gain: real, offset: real)
    requires |x| == |y| && forall i :: 0 <= i < |x| ==> y[i] == gain * x[i] + offset
    ensures Sum(y) == gain * Sum(x) + |x| as real * offset
  {
    if x == [] {
      NoSamples(gain, offset);
    } else {
      var n := |x| - 1;
      StretchedSum(x[..n], y[..n], gain, offset);
      StretchStep(gain, Sum(x[..n]), x[n], n, offset);
    }
  }

  lemma NoSamples(gain: real, offset: real)
    ensures gain * 0.0 + 0.0 * offset == 0.0
  {
  }

  lemma StretchedMean(g: RasterGrid, gain: real, offset: real)
    requires g.data != []
    ensures Mean(Stretched(g, gain, offset).data) == gain * Mean(g.data) + offset
  {
    hide Sum;
    StretchedSum(g.data, Stretched(g, gain, offset).data, gain, offset);
    MeanOfStretched(gain, Sum(g.data), |g.data| as real, offset);
  }

  lemma MeanOfStretched(gain: real, s: real, n: real, offset: real)
    requires n != 0.0
    ensures (gain * s + n * offset) / n == gain * (s / n) + offset
  {
    var q := s / n;
    QuotientBack(s, n);
    assert gain * s + n * offset == (gain * q + offset) * n;
    Cancel(gain * q + offset, n);
  }

  lemma StretchedCell(g: RasterGrid, gain: real, offset: real, r: nat, c: nat)
    requires g.Valid()
    ensures PaddedCell(Stretched(g, gain, offset), r, c) == Scale(gain, PaddedCell(g, r, c))
  {
    hide Mean;
    if r < g.height && c < g.width {
      PixelBound(g, r, c);
      StretchedMean(g, gain, offset);
      var v, m := g.data[r * g.width + c], Mean(g.data);
      assert gain * v + offset - (gain * m + offset) == gain * (v - m);
    }
  }

  /** Mean removal takes the offset away; the gain scales the padded matrix. */
  lemma PaddedStretched(g: RasterGrid, gain: real, offset: real, n: nat)
    requires g.Valid()
    ensures Padded(Stretched(g, gain, offset), n) == SeqScale(gain, Padded(g, n))
  {
    hide At, PaddedCell, Scale;
    var h := Stretched(g, gain, offset);
    forall r, c | 0 <= r < n && 0 <= c < n
      ensures Cell(Padded(h, n), n, r, c) == Cell(SeqScale(gain, Padded(g, n)), n, r, c)
    {
      PaddedAt(g, n, r, c);
      PaddedAt(h, n, r, c);
      StretchedCell(g, gain, offset, r, c);
      ScaledCell(gain, Padded(g, n), n, r, c);
    }
    SameCells(Padded(h, n), SeqScale(gain, Padded(g, n)), n);
  }

  lemma ScaledCell(t: real, m: seq<Complex>, n: nat, r: nat, c: nat)
    requires Square(m, n) && r < n && c < n
    ensures Square(SeqScale(t, m), n) && Cell(SeqScale(t, m), n, r, c) == Scale(t, Cell(m, n, r, c))
  {
    hide At, Scale;
    AtBound(n, r, c);
  }

  lemma AcrossScaled(t: real, m: seq<Complex>, n: nat, z: Complex)
    requires Square(m, n)
    ensures Square(SeqScale(t, m), n)
    ensures Across(Rows(SeqScale(t, m), n), z) == SeqScale(t, Across(Rows(m, n), z))
  {
    hide At, Scale, Eval, Cell;
    var x := SeqScale(t, m);
    forall r | 0 <= r < n
      ensures Eval(Row(x, n, r), z) == Scale(t, Eval(Row(m, n, r), z))
    {
      forall c | 0 <= c < n
        ensures Row(x, n, r)[c] == SeqScale(t, Row(m, n, r))[c]
      {
        ScaledCell(t, m, n, r, c);
      }
      assert Row(x, n, r) == SeqScale(t, Row(m, n, r));
      EvalScale(t, Row(m, n, r), z);
    }
  }

  /** The transform is linear in its input. */
  lemma TransformScaled(t: real, m: seq<Complex>, n: nat, k: nat, roots: seq<Complex>, r: nat, c: nat)
    requires Square(m, n) && k < |roots| && r < n && c < n
    ensures Square(SeqScale(t, m), n)
    ensures Cell(Transform2(SeqScale(t, m), n, k, roots, false), n, r, c)
         == Scale(t, Cell(Transform2(m, n, k, roots, false), n, r, c))
  {
    hide Cell, Rows, Across, Eval, RowPass, ColumnPass, Pow2, Table, Factor, Scale, SeqScale, Pow;
    var y, z := Pow(Table(roots, false)[k], r), Pow(Table(roots, false)[k], c);
    var f := Factor(k, false);
    AcrossScaled(t, m, n, z);
    ColumnOfRows(m, n, k, roots, false, false, r, c);
    ColumnOfRows(SeqScale(t, m), n, k, roots, false, false, r, c);
    var e := Eval(Across(Rows(m, n), z), y);
    EvalScale(t, Across(Rows(m, n), z), y);
    ScalesCommute(f, t, e);
    ScalesCommute(f, t, Scale(f, e));
  }

  lemma CrossScaled(t: real, u: real, x: Complex, y: Complex)
    ensures Mul(Conj(Scale(t, x)), Scale(u, y)) == Scale(t * u, Mul(Conj(x), y))
  {
    assert Conj(Scale(t, x)) == Scale(t, Conj(x));
    hide Mul, Conj, Scale;
    ScaleMul(t, Conj(x), Scale(u, y));
    ScaleMul(u, Conj(x), y);
    ScaleScale(t, u, Mul(Conj(x), y));
  }

  /** Gains do not change a bin as long as they leave it on its side of the cut-off. */
  lemma WhitenedScaled(t: real, u: real, x: Complex, y: Complex, abs: Complex -> real)
    requires t > 0.0 && u > 0.0 && IsModulus(abs)
    requires abs(Mul(Conj(Scale(t, x)), Scale(u, y))) >= CUTOFF <==> abs(Mul(Conj(x), y)) >= CUTOFF
    ensures Whitened(Scale(t, x), Scale(u, y), abs) == Whitened(x, y, abs)
  {
    hide Mul, Conj, Scale, Whitened, IsModulus, UnitAlong;
    var v, v' := Mul(Conj(x), y), Mul(Conj(Scale(t, x)), Scale(u, y));
    WhitenedExactly(x, y, abs);
    WhitenedExactly(Scale(t, x), Scale(u, y), abs);
    if abs(v) >= CUTOFF {
      CrossScaled(t, u, x, y);
      PositiveProduct(t, u);
      AlongScaled(Whitened(x, y, abs), v, t * u);
      UnitAlongUnique(Whitened(x, y, abs), Whitened(Scale(t, x), Scale(u, y), abs), v');
    }
  }

  lemma AlongScaled(w: Complex, v: Complex, q: real)
    requires q > 0.0 && UnitAlong(w, v)
    ensures UnitAlong(w, Scale(q, v))
  {
    hide NormSq;
    var t: real :| t > 0.0 && v == Scale(t, w);
    ScaleScale(q, t, w);
    PositiveProduct(q, t);
  }

  lemma StretchedBin(src: RasterGrid, ref: RasterGrid, n: nat, k: nat, roots: seq<Complex>,
      a: real, b: real, c: real, d: real, p: nat, q: nat)
    requires src.Valid() && ref.Valid() && k < |roots| && p < n && q < n
    ensures var x := Cell(Transform2(Padded(src, n), n, k, roots, false), n, p, q);
      var y := Cell(Transform2(Padded(ref, n), n, k, roots, false), n, p, q);
      && Cell(Transform2(Padded(Stretched(src, a, b), n), n, k, roots, false), n, p, q) == Scale(a, x)
      && Cell(Transform2(Padded(Stretched(ref, c, d), n), n, k, roots, false), n, p, q) == Scale(c, y)
  {
    hide Padded, Transform2, Cell, Scale, SeqScale, Stretched;
    PaddedStretched(src, a, b, n);
    PaddedStretched(ref, c, d, n);
    TransformScaled(a, Padded(src, n), n, k, roots, p, q);
    TransformScaled(c, Padded(ref, n), n, k, roots, p, q);
  }

  /** Brightness and contrast of either raster do not move the correlation surface, as long as
      the same frequencies survive the cut-off. */
  lemma SurfaceUnmoved(src: RasterGrid, ref: RasterGrid, n: nat, k: nat, roots: seq<Complex>,
      abs: Complex -> real, a: real, b: real, c: real, d: real)
    requires src.Valid() && ref.Valid() && k < |roots| && IsModulus(abs) && a > 0.0 && c > 0.0
    requires KeptMarks(Stretched(src, a, b), Stretched(ref, c, d), n, k, roots, abs)
          == KeptMarks(src, ref, n, k, roots, abs)
    ensures Surface(Stretched(src, a, b), Stretched(ref, c, d), n, k, roots, abs)
         == Surface(src, ref, n, k, roots, abs)
  {
    hide Padded, Transform2, Cell, KeptMarks, IsModulus, Spectrum, Stretched;
    var src', ref' := Stretched(src, a, b), Stretched(ref, c, d);
    assert src'.Valid() && ref'.Valid() by { StretchedValid(src, a, b); StretchedValid(ref, c, d); }
    hide RasterGrid.Valid;
    var m', m := Spectrum(src', ref', n, k, roots, abs), Spectrum(src, ref, n, k, roots, abs);
    forall p, q | 0 <= p < n && 0 <= q < n
      ensures Cell(m', n, p, q) == Cell(m, n, p, q)
    {
      SpectrumUnmoved(src, ref, n, k, roots, abs, a, b, c, d, p, q);
    }
    SameCells(m', m, n);
    SurfaceOfSpectrum(src, ref, n, k, roots, abs);
    SurfaceOfSpectrum(src', ref', n, k, roots, abs);
  }

  lemma StretchedValid(g: RasterGrid, gain: real, offset: real)
    ensures var h := Stretched(g, gain, offset);
      (h.Valid() <==> g.Valid()) && h.width == g.width && h.height == g.height
  {
  }

  lemma SpectrumUnmoved(src: RasterGrid, ref: RasterGrid, n: nat, k: nat, roots: seq<Complex>,
      abs: Complex -> real, a: real, b: real, c: real, d: real, p: nat, q: nat)
    requires src.Valid() && ref.Valid() && k < |roots| && IsModulus(abs) && a > 0.0 && c > 0.0 && p < n && q < n
    requires KeptMarks(Stretched(src, a, b), Stretched(ref, c, d), n, k, roots, abs)
          == KeptMarks(src, ref, n, k, roots, abs)
    ensures Cell(Spectrum(Stretched(src, a, b), Stretched(ref, c, d), n, k, roots, abs), n, p, q)
         == Cell(Spectrum(src, ref, n, k, roots, abs), n, p, q)
  {
    StretchedValid(src, a, b);
    StretchedValid(ref, c, d);
    hide Padded, Transform2, Cell, KeptMarks, IsModulus, Stretched, Whitened, CrossPower, Mul, Conj, Scale,
      RasterGrid.Valid;
    var src', ref' := Stretched(src, a, b), Stretched(ref, c, d);
    var fs, fr := Transform2(Padded(src, n), n, k, roots, false), Transform2(Padded(ref, n), n, k, roots, false);
    var fs', fr' := Transform2(Padded(src', n), n, k, roots, false), Transform2(Padded(ref', n), n, k, roots, false);
    StretchedBin(src, ref, n, k, roots, a, b, c, d, p, q);
    CrossPowerCell(fs, fr, abs, n, p, q);
    CrossPowerCell(fs', fr', abs, n, p, q);
    KeptMarksAt(src, ref, n, k, roots, abs, p, q);
    KeptMarksAt(src', ref', n, k, roots, abs, p, q);
    WhitenedScaled(a, c, Cell(fs, n, p, q), Cell(fr, n, p, q), abs);
  }

  /** So a call reports the same displacement and strength. */
  lemma CallUnmoved(src: RasterGrid, ref: RasterGrid, roots: seq<Complex>, abs: Complex -> real,
      n: nat, k: nat, a: real, b: real, c: real, d: real, outC: int, outR: int, strength: real)
    requires src.Valid() && ref.Valid() && k < |roots| && IsModulus(abs) && a > 0.0 && c > 0.0
    requires IsFftSize(n, k, src, ref)
    requires KeptMarks(Stretched(src, a, b), Stretched(ref, c, d), n, k, roots, abs)
          == KeptMarks(src, ref, n, k, roots, abs)
    ensures Stretched(src, a, b).Valid() && Stretched(ref, c, d).Valid()
    ensures Correlates(Stretched(src, a, b), Stretched(ref, c, d), roots, abs, outC, outR, strength)
       <==> Correlates(src, ref, roots, abs, outC, outR, strength)
  {
    StretchedValid(src, a, b);
    StretchedValid(ref, c, d);
    hide Surface, KeptMarks, IsModulus, Stretched, RasterGrid.Valid, Reported, Pow2;
    var src', ref' := Stretched(src, a, b), Stretched(ref, c, d);
    assert IsFftSize(n, k, src', ref');
    SurfaceUnmoved(src, ref, n, k, roots, abs, a, b, c, d);
    CallTransfers(src, ref, src', ref', roots, abs, n, k, outC, outR, strength);
    CallTransfers(src', ref', src, ref, roots, abs, n, k, outC, outR, strength);
  }

  lemma CallTransfers(src: RasterGrid, ref: RasterGrid, src': RasterGrid, ref': RasterGrid, roots: seq<Complex>,
      abs: Complex -> real, n: nat, k: nat, outC: int, outR: int, strength: real)
    requires src.Valid() && ref.Valid() && src'.Valid() && ref'.Valid() && k < |roots|
    requires IsFftSize(n, k, src, ref) && IsFftSize(n, k, src', ref')
    requires Surface(src, ref, n, k, roots, abs) == Surface(src', ref', n, k, roots, abs)
    ensures Correlates(src, ref, roots, abs, outC, outR, strength)
        ==> Correlates(src', ref', roots, abs, outC, outR, strength)
  {
    hide Surface, IsFftSize, RasterGrid.Valid, Reported;
    if Correlates(src, ref, roots, abs, outC, outR, strength) {
      var m: nat, j: nat, peak: nat :| PeakOf(src, ref, roots, abs, m, j, peak, outC, outR, strength);
      SizeUnique(n, k, m, j, src, ref);
      assert PeakOf(src', ref', roots, abs, n, k, peak, outC, outR, strength);
    }
  }
}
