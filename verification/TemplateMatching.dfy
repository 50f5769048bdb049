/** matchPatch: exhaustive NCC search in a clamped window, then a sub-pixel correction. */
module TemplateMatching {
  import opened Arithmetic
  import opened Rasters
  import opened SummedAreaTables
  import opened Statistics
  import opened PatchMatching

  datatype NccMatch = NccMatch(dr: real, dc: real, score: real)

  const NO_MATCH := NccMatch(0.0, 0.0, -1.0)
  const FLAT := 0.000001
  const CURVATURE := 0.000000001
  const SKIPPED := -2.0

  /** std::round: halves away from zero. */
  function Round(x: real): int {
    if x >= 0.0 then (x + 0.5).Floor else -((0.5 - x).Floor)
  }

  function Clamp(v: int, lo: int, hi: int): int {
    if v < lo then lo else if hi < v then hi else v
  }

  function Deviation(x: seq<real>, sqrt: real -> real): real
    requires |x| > 0
  {
    sqrt(Max0(Variance(x)))
  }

  /** The map value of one candidate position: its NCC, or -2 where the reference is flat. */
  function Score(patch: seq<real>, window: seq<real>, sqrt: real -> real): real
    requires |patch| == |window| > 0 && Deviation(patch, sqrt) >= FLAT
  {
    if Deviation(window, sqrt) < FLAT then SKIPPED
    else Correlation(patch, window, Deviation(patch, sqrt), Deviation(window, sqrt))
  }

  lemma DeviationSquared(x: seq<real>, sqrt: real -> real)
    requires |x| > 0 && IsSqrt(sqrt)
    ensures Deviation(x, sqrt) * Deviation(x, sqrt) == Variance(x)
  {
    hide Variance;
    VarianceIsSpread(x);
  }

  /** Every map value is -2 or a coefficient in [-1, 1]. */
  lemma ScoreBounded(patch: seq<real>, window: seq<real>, sqrt: real -> real)
    requires |patch| == |window| > 0 && Deviation(patch, sqrt) >= FLAT && IsSqrt(sqrt)
    ensures Score(patch, window, sqrt) == SKIPPED || -1.0 <= Score(patch, window, sqrt) <= 1.0
  {
    hide Variance, Correlation, Deviation, IsSqrt;
    DeviationSquared(patch, sqrt);
    DeviationSquared(window, sqrt);
    if Deviation(window, sqrt) >= FLAT {
      CorrelationBounded(patch, window, Deviation(patch, sqrt), Deviation(window, sqrt));
    }
  }

  /** A window the search recognises as the patch itself, up to brightness and contrast. */
  ghost predicate IsMatch(patch: seq<real>, window: seq<real>, sqrt: real -> real)
    requires |window| > 0
  {
    sqrt(Variance(window)) >= 0.000001 && exists k, l :: k > 0.0 && IsCopy(patch, window, k, l)
  }

  /** The map value is 1 exactly at such windows. */
  lemma ScoreOneExactly(patch: seq<real>, window: seq<real>, sqrt: real -> real)
    requires |patch| == |window| > 0 && Deviation(patch, sqrt) >= FLAT && IsSqrt(sqrt)
    ensures Score(patch, window, sqrt) == 1.0 <==> IsMatch(patch, window, sqrt)
  {
    hide Variance, Correlation, Deviation, IsSqrt, IsCopy;
    DeviationSquared(patch, sqrt);
    DeviationSquared(window, sqrt);
    DeviationIsRoot(window, sqrt);
    if Deviation(window, sqrt) >= FLAT {
      ExtremesExactly(patch, window, Deviation(patch, sqrt), Deviation(window, sqrt));
    }
  }

  lemma DeviationIsRoot(x: seq<real>, sqrt: real -> real)
    requires |x| > 0
    ensures Deviation(x, sqrt) == sqrt(Variance(x))
  {
    hide Variance;
    VarianceIsSpread(x);
  }

  /** A map value is -2 for a window whose deviation is below 1e-6, and otherwise says what lines
      through the patch leave unexplained of the window. */
  ghost predicate Scored(v: real, patch: seq<real>, window: seq<real>, sqrt: real -> real)
    requires |patch| == |window| > 0
  {
    var s, t := sqrt(Variance(patch)), sqrt(Variance(window));
    if t < 0.000001 then v == -2.0
    else forall k, l ::
      FitError(patch, window, k, l) == Explained(|patch| as real, s, t, v, k, Mean(window) - k * Mean(patch) - l)
  }

  lemma ScoreExactly(patch: seq<real>, window: seq<real>, sqrt: real -> real)
    requires |patch| == |window| > 0 && Deviation(patch, sqrt) >= FLAT && IsSqrt(sqrt)
    ensures Scored(Score(patch, window, sqrt), patch, window, sqrt)
  {
    hide Variance, Correlation, Deviation, IsSqrt, FitError, Explained;
    DeviationSquared(patch, sqrt);
    DeviationSquared(window, sqrt);
    DeviationIsRoot(patch, sqrt);
    DeviationIsRoot(window, sqrt);
    var s, t := Deviation(patch, sqrt), Deviation(window, sqrt);
    if t >= FLAT {
      forall k, l
        ensures FitError(patch, window, k, l)
             == Explained(|patch| as real, s, t, Correlation(patch, window, s, t), k,
                  Mean(window) - k * Mean(patch) - l)
      {
        CorrelationExplains(patch, window, s, t, k, l);
      }
    }
  }

  // ----- the correction -----

  /** The code's sub-pixel shift along one axis, from the peak value and its two neighbours. */
  function SubPixel(before: real, peak: real, after: real): real {
    var den := 2.0 * peak - before - after;
    if den > CURVATURE then 0.5 * (before - after) / den else 0.0
  }

  /** The parabola through (-1, before), (0, peak), (1, after). */
  function Parabola(before: real, peak: real, after: real, x: real): real {
    peak + (after - before) / 2.0 * x + (before + after - 2.0 * peak) / 2.0 * (x * x)
  }

  lemma ParabolaFits(before: real, peak: real, after: real)
    ensures Parabola(before, peak, after, -1.0) == before
    ensures Parabola(before, peak, after, 0.0) == peak
    ensures Parabola(before, peak, after, 1.0) == after
  {
  }

  /** A peak moves by at most half a pixel. */
  lemma SubPixelBounded(before: real, peak: real, after: real)
    requires before <= peak && after <= peak
    ensures -0.5 <= SubPixel(before, peak, after) <= 0.5
  {
    var den, d := 2.0 * peak - before - after, before - after;
    if den > CURVATURE {
      RatioBounded(d, den);
      assert 0.5 * d / den == 0.5 * Ratio(d, den);
    }
  }

  /** Writing s for the correction: the parabola at x is what it is at -s plus a downward
      square, so its top is at -s, not at s. */
  lemma ParabolaTop(before: real, peak: real, after: real, x: real)
    requires 2.0 * peak - before - after > CURVATURE
    ensures var s := SubPixel(before, peak, after); var den := 2.0 * peak - before - after;
      Parabola(before, peak, after, x) == Parabola(before, peak, after, -s) - den / 2.0 * ((x + s) * (x + s))
  {
    var den := 2.0 * peak - before - after;
    var s := SubPixel(before, peak, after);
    var d := before - after;
    assert s * den == 0.5 * d by { HalfQuotient(d, den); }
    TopAlgebra(peak, den, s, x);
    TopAlgebra(peak, den, s, -s);
    assert (after - before) / 2.0 == -(s * den);
    assert (before + after - 2.0 * peak) / 2.0 == -(den / 2.0);
  }

  lemma HalfQuotient(d: real, den: real)
    requires den != 0.0
    ensures 0.5 * d / den * den == 0.5 * d
  {
  }

  lemma TopAlgebra(peak: real, den: real, s: real, x: real)
    ensures peak + -(s * den) * x + -(den / 2.0) * (x * x)
         == peak + den / 2.0 * (s * s) - den / 2.0 * ((x + s) * (x + s))
  {
    assert (x + s) * (x + s) == x * x + 2.0 * (s * x) + s * s;
    assert den / 2.0 * ((x + s) * (x + s)) == den / 2.0 * (x * x) + den * (s * x) + den / 2.0 * (s * s);
    assert s * den * x == den * (s * x);
  }

  /** The correction points away from the fitted maximum: the fit is highest at the mirror
      image of the corrected position, and the corrected position is the maximum exactly when
      the two neighbours agree, that is when nothing is corrected. */
  lemma SubPixelMirrorsVertex(before: real, peak: real, after: real)
    requires 2.0 * peak - before - after > CURVATURE
    ensures var s := SubPixel(before, peak, after);
      && (forall x :: Parabola(before, peak, after, x) <= Parabola(before, peak, after, -s))
      && (Parabola(before, peak, after, s) == Parabola(before, peak, after, -s) <==> before == after)
      && (before != after ==> Parabola(before, peak, after, s) < peak)
  {
    var s := SubPixel(before, peak, after);
    var den := 2.0 * peak - before - after;
    var d := before - after;
    assert s * den == 0.5 * d by { HalfQuotient(d, den); }
    forall x
      ensures Parabola(before, peak, after, x) <= Parabola(before, peak, after, -s)
    {
      ParabolaTop(before, peak, after, x);
      SquareNonNegative(x + s);
      ProductNonNegative(den / 2.0, (x + s) * (x + s));
    }
    DropAt(before, peak, after, s, den);
  }

  lemma DropAt(before: real, peak: real, after: real, s: real, den: real)
    requires den == 2.0 * peak - before - after > CURVATURE
    requires s == SubPixel(before, peak, after) && s * den == 0.5 * (before - after)
    ensures Parabola(before, peak, after, s) == Parabola(before, peak, after, -s) <==> before == after
    ensures before != after ==> Parabola(before, peak, after, s) < peak
  {
    hide Parabola, SubPixel;
    ParabolaTop(before, peak, after, s);
    ParabolaTop(before, peak, after, 0.0);
    ParabolaFits(before, peak, after);
    var sq := s * s;
    assert (s + s) * (s + s) == 4.0 * sq && (0.0 + s) * (0.0 + s) == sq;
    if before == after {
      ZeroFactor(s, den);
    } else {
      assert s != 0.0 by { ZeroTimes(den); }
      NonZeroSquare(s);
      PositiveProduct(den / 2.0, sq);
      assert den / 2.0 * (4.0 * sq) == 4.0 * (den / 2.0 * sq);
    }
  }

  lemma ZeroTimes(den: real)
    ensures 0.0 * den == 0.0
  {
  }

  lemma ZeroFactor(s: real, den: real)
    requires den > 0.0 && s * den == 0.0
    ensures s == 0.0
  {
    if s > 0.0 {
      PositiveProduct(s, den);
    } else if s < 0.0 {
      PositiveProduct(-s, den);
    }
  }

  // ----- the search -----

  /** The integer nearest to x, halves away from zero. */
  predicate Nearest(c: int, x: real) {
    && -0.5 <= c as real - x <= 0.5
    && (c as real - x == 0.5 ==> x > 0.0) && (c as real - x == -0.5 ==> x < 0.0)
  }

  lemma RoundExactly(x: real, c: int)
    ensures c == Round(x) <==> Nearest(c, x)
  {
  }

  /** Along one axis: a position between 0 and `last` that lies within the radius of the centre,
      or the border position nearest to a centre beyond the radius of it. */
  predicate InReach(r: int, centre: int, radius: int, last: int) {
    && 0 <= r <= last
    && (centre - radius <= r || r == last)
    && (r <= centre + radius || r == 0)
  }

  /** The clamped search window: candidate positions in scan order. */
  datatype Area = Area(r0: int, c0: int, rows: int, cols: int)

  function SearchArea(ref: RasterGrid, s: nat, srcRow: nat, srcCol: nat, radius: int, seedDr: real, seedDc: real): Area
  {
    var rr0 := Round(srcRow as real + seedDr) - radius;
    var rc0 := Round(srcCol as real + seedDc) - radius;
    var r0 := Clamp(rr0, 0, ref.height - s);
    var c0 := Clamp(rc0, 0, ref.width - s);
    var r1 := Clamp(rr0 + 2 * radius, 0, ref.height - s);
    var c1 := Clamp(rc0 + 2 * radius, 0, ref.width - s);
    Area(r0, c0, r1 - r0 + 1, c1 - c0 + 1)
  }

  predicate Inside(a: Area, ref: RasterGrid, s: nat) {
    && 0 <= a.r0 && 0 <= a.c0 && 0 < a.rows && 0 < a.cols
    && a.r0 + a.rows - 1 + s <= ref.height && a.c0 + a.cols - 1 + s <= ref.width
  }

  lemma AreaInside(ref: RasterGrid, s: nat, srcRow: nat, srcCol: nat, radius: int, seedDr: real, seedDc: real)
    requires s <= ref.height && s <= ref.width
    ensures var a := SearchArea(ref, s, srcRow, srcCol, radius, seedDr, seedDc);
      a.rows > 0 && a.cols > 0 ==> Inside(a, ref, s)
  {
  }

  /** Which positions are searched. */
  lemma AreaExactly(ref: RasterGrid, s: nat, srcRow: nat, srcCol: nat, radius: int, seedDr: real, seedDc: real,
      cr: int, cc: int, r: int)
    requires s <= ref.height && s <= ref.width
    requires Nearest(cr, srcRow as real + seedDr) && Nearest(cc, srcCol as real + seedDc)
    ensures var a := SearchArea(ref, s, srcRow, srcCol, radius, seedDr, seedDc);
      && (a.r0 <= r < a.r0 + a.rows <==> InReach(r, cr, radius, ref.height - s))
      && (a.c0 <= r < a.c0 + a.cols <==> InReach(r, cc, radius, ref.width - s))
  {
    RoundExactly(srcRow as real + seedDr, cr);
    RoundExactly(srcCol as real + seedDc, cc);
    hide Round;
  }

  /** The score of the candidate at map position (i, j). */
  function ScoreAt(patch: seq<real>, ref: RasterGrid, s: nat, a: Area, sqrt: real -> real, i: nat, j: nat): real
    requires ref.Valid() && s > 0 && |patch| == s * s && Inside(a, ref, s) && i < a.rows && j < a.cols
    requires |patch| > 0 && Deviation(patch, sqrt) >= FLAT
  {
    PatchFits(ref, s, a.r0 + i, a.c0 + j);
    Score(patch, Window(ref.data, ref.width, a.r0 + i, a.c0 + j, s), sqrt)
  }

  /** Everything about one search that does not change during it. */
  predicate Searching(patch: seq<real>, ref: RasterGrid, s: nat, a: Area, sqrt: real -> real) {
    && ref.Valid() && s > 0 && |patch| == s * s && Inside(a, ref, s)
    && |patch| > 0 && Deviation(patch, sqrt) >= FLAT
  }

  /** The map, in scan order. */
  function ScoreMap(patch: seq<real>, ref: RasterGrid, s: nat, a: Area, sqrt: real -> real): (m: seq<real>)
    requires Searching(patch, ref, s, a, sqrt)
    ensures |m| == Flat(a.cols, a.rows, 0)
  {
    seq(Flat(a.cols, a.rows, 0), t requires 0 <= t < Flat(a.cols, a.rows, 0) =>
      Split(a.rows, a.cols, t); ScoreAt(patch, ref, s, a, sqrt, t / a.cols, t % a.cols))
  }

  lemma Split(rows: nat, cols: nat, t: nat)
    requires t < Flat(cols, rows, 0)
    ensures cols > 0 && t / cols < rows && t % cols < cols && t == t / cols * cols + t % cols
  {
    assert t == cols * (t / cols) + t % cols;
    if t / cols >= rows {
      MulMonotone(rows, t / cols, cols);
    }
  }

  /** Position `at` holds the first largest value above -1 of m; without a hit no value
      exceeds -1. */
  predicate IsBest(m: seq<real>, hit: bool, at: nat, score: real) {
    if hit then
      && at < |m| && m[at] == score && score > -1.0
      && (forall i :: 0 <= i < |m| ==> m[i] <= score)
      && (forall i :: 0 <= i < at ==> m[i] < score)
    else score == -1.0 && forall i :: 0 <= i < |m| ==> m[i] <= -1.0
  }

  method ExtractPatch(g: RasterGrid, r0: nat, c0: nat, s: nat)
    returns (patch: array<real>, sum: real, sum2: real)
    requires g.Valid() && Fits(g.width, |g.data|, r0, c0, s)
    ensures fresh(patch) && patch[..] == Window(g.data, g.width, r0, c0, s)
    ensures sum == Sum(patch[..]) && sum2 == Sum(Squares(patch[..]))
  {
    hide Window, Extracted, Fits, Flat;
    ghost var x := Window(g.data, g.width, r0, c0, s);
    assert s * s == Flat(s, s, 0) by { FlatIs(s, s, 0); }
    patch := new real[s * s](i => 0.0);
    sum, sum2 := 0.0, 0.0;
    ExtractedNone(patch[..], x);
    FlatStep(s, 0, 0);
    for r := 0 to s
      invariant Extracted(patch[..], x, Flat(s, r, 0), sum, sum2)
    {
      for c := 0 to s
        invariant Extracted(patch[..], x, Flat(s, r, c), sum, sum2)
      {
        WindowFlat(g.data, g.width, r0, c0, s, r, c);
        var v := g.data[Flat(g.width, r0 + r, c0 + c)];
        ghost var before := patch[..];
        ExtractedStep(before, x, Flat(s, r, c), sum, sum2, v);
        patch[Flat(s, r, c)] := v;
        assert patch[..] == before[Flat(s, r, c) := v];
        sum := sum + v;
        sum2 := sum2 + v * v;
        FlatStep(s, r, c);
      }
      FlatStep(s, r, s);
    }
    ExtractedAll(patch[..], x, sum, sum2);
  }

  /** The first t samples are copied and summed. */
  ghost predicate Extracted(patch: seq<real>, x: seq<real>, t: nat, sum: real, sum2: real) {
    && t <= |x| == |patch| && patch[..t] == x[..t]
    && sum == Sum(x[..t]) && sum2 == Sum(Squares(x)[..t])
  }

  lemma ExtractedNone(patch: seq<real>, x: seq<real>)
    requires |patch| == |x|
    ensures Extracted(patch, x, 0, 0.0, 0.0)
  {
  }

  lemma ExtractedStep(patch: seq<real>, x: seq<real>, t: nat, sum: real, sum2: real, v: real)
    requires t < |x| == |patch| && v == x[t] && Extracted(patch, x, t, sum, sum2)
    ensures Extracted(patch[t := v], x, t + 1, sum + v, sum2 + v * v)
  {
    hide Squares;
    SquareAt(x, t);
    SumStep(x, t);
    SumStep(Squares(x), t);
    PrefixGrows(patch[t := v], x, t);
  }

  lemma ExtractedAll(patch: seq<real>, x: seq<real>, sum: real, sum2: real)
    requires Extracted(patch, x, |x|, sum, sum2)
    ensures patch == x && sum == Sum(x) && sum2 == Sum(Squares(x))
  {
    hide Squares;
    assert patch[..|x|] == patch && x[..|x|] == x && Squares(x)[..|x|] == Squares(x);
  }

  lemma SumStep(x: seq<real>, t: nat)
    requires t < |x|
    ensures Sum(x[..t + 1]) == Sum(x[..t]) + x[t]
  {
    assert x[..t + 1][..t] == x[..t];
  }

  lemma PrefixGrows(y: seq<real>, x: seq<real>, t: nat)
    requires t < |x| && t < |y| && y[..t] == x[..t] && y[t] == x[t]
    ensures y[..t + 1] == x[..t + 1]
  {
  }

  /** The NCC of one candidate: table look-ups for its mean and deviation, then the cross sum. */
  method CandidateScore(patch: array<real>, pMean: real, pStd: real, ref: RasterGrid, refII: IntegralImages,
      s: nat, rr: nat, rc: nat, sqrt: real -> real)
    returns (score: real)
    requires ref.Valid() && refII.Valid() && refII.img == ref.data && refII.W == ref.width && refII.H == ref.height
    requires s > 0 && patch.Length == s * s > 0 && rr + s <= ref.height && rc + s <= ref.width
    requires pMean == Mean(patch[..]) && pStd == Deviation(patch[..], sqrt) && pStd >= FLAT
    ensures Fits(ref.width, |ref.data|, rr, rc, s)
    ensures score == Score(patch[..], Window(ref.data, ref.width, rr, rc, s), sqrt)
  {
    hide Window, CrossSum, Variance, Mean, Deviation, Norm, Fits, RasterGrid.Valid;
    PatchFits(ref, s, rr, rc);
    var refMean, refStd := WindowStats(ref, refII, s, rr, rc, sqrt);
    if refStd < FLAT {
      return SKIPPED;
    }
    var cross := CrossLoop(patch, pMean, ref, refMean, s, rr, rc);
    score := Ratio(cross, Norm(s * s, pStd, refStd));
  }

  method WindowStats(ref: RasterGrid, refII: IntegralImages, s: nat, rr: nat, rc: nat, sqrt: real -> real)
    returns (refMean: real, refStd: real)
    requires ref.Valid() && refII.Valid() && refII.img == ref.data && refII.W == ref.width && refII.H == ref.height
    requires s > 0 && rr + s <= ref.height && rc + s <= ref.width
    ensures Fits(ref.width, |ref.data|, rr, rc, s) && |Window(ref.data, ref.width, rr, rc, s)| > 0
    ensures refMean == Mean(Window(ref.data, ref.width, rr, rc, s))
    ensures refStd == Deviation(Window(ref.data, ref.width, rr, rc, s), sqrt)
  {
    hide Window, RectSum, Variance, Mean, RasterGrid.Valid, Fits, IntegralImages.Valid, IntegralImages.BoxSum,
      IntegralImages.BoxSum2, Index;
    PatchFits(ref, s, rr, rc);
    WindowMoments(ref.data, ref.width, rr, rc, s);
    var n := s * s;
    var refS := refII.BoxSum(rr, rc, rr + s - 1, rc + s - 1);
    var refS2 := refII.BoxSum2(rr, rc, rr + s - 1, rc + s - 1);
    refMean := refS / n as real;
    var variance := refS2 / n as real - refMean * refMean;
    assert variance == Variance(Window(ref.data, ref.width, rr, rc, s));
    refStd := sqrt(Max0(variance));
  }

  method CrossLoop(patch: array<real>, pMean: real, ref: RasterGrid, refMean: real, s: nat, rr: nat, rc: nat)
    returns (cross: real)
    requires ref.Valid() && patch.Length == s * s && Fits(ref.width, |ref.data|, rr, rc, s)
    ensures cross == CrossSum(patch[..], Window(ref.data, ref.width, rr, rc, s), pMean, refMean)
  {
    hide Window, CrossSum, Crossed, Fits, Flat;
    ghost var x := Window(ref.data, ref.width, rr, rc, s);
    assert s * s == Flat(s, s, 0) by { FlatIs(s, s, 0); }
    cross := 0.0;
    CrossStart(patch[..], x, pMean, refMean);
    FlatStep(s, 0, 0);
    for r := 0 to s
      invariant Crossed(patch[..], x, pMean, refMean, Flat(s, r, 0), cross)
    {
      for c := 0 to s
        invariant Crossed(patch[..], x, pMean, refMean, Flat(s, r, c), cross)
      {
        WindowFlat(ref.data, ref.width, rr, rc, s, r, c);
        var u, v := patch[Flat(s, r, c)], ref.data[Flat(ref.width, rr + r, rc + c)];
        CrossStep(patch[..], x, pMean, refMean, Flat(s, r, c), cross, u, v);
        cross := cross + (u - pMean) * (v - refMean);
        FlatStep(s, r, c);
      }
      FlatStep(s, r, s);
    }
    CrossEnd(patch[..], x, pMean, refMean, cross);
  }

  /** The cross sum of the first t pairs. */
  predicate Crossed(a: seq<real>, b: seq<real>, m: real, k: real, t: nat, cross: real) {
    t <= |a| == |b| && cross == CrossSum(a[..t], b[..t], m, k)
  }

  lemma CrossStart(a: seq<real>, b: seq<real>, m: real, k: real)
    requires |a| == |b|
    ensures Crossed(a, b, m, k, 0, 0.0)
  {
  }

  lemma CrossStep(a: seq<real>, b: seq<real>, m: real, k: real, t: nat, cross: real, u: real, v: real)
    requires t < |a| && Crossed(a, b, m, k, t, cross)
    requires t < |b| && u == a[t] && v == b[t]
    ensures Crossed(a, b, m, k, t + 1, cross + (u - m) * (v - k))
  {
    assert a[..t + 1][..t] == a[..t] && b[..t + 1][..t] == b[..t];
  }

  lemma CrossEnd(a: seq<real>, b: seq<real>, m: real, k: real, cross: real)
    requires Crossed(a, b, m, k, |a|, cross)
    ensures |a| == |b| && cross == CrossSum(a, b, m, k)
  {
    assert a[..|a|] == a && b[..|b|] == b;
  }

  /** The two search loops: fill the map and keep the first best value above -1. */
  method Search(patch: array<real>, pMean: real, pStd: real, ref: RasterGrid, refII: IntegralImages,
      s: nat, a: Area, sqrt: real -> real)
    returns (nccMap: array<real>, hit: bool, br: nat, bc: nat, score: real)
    requires refII.Valid() && refII.img == ref.data && refII.W == ref.width && refII.H == ref.height
    requires Searching(patch[..], ref, s, a, sqrt) && IsSqrt(sqrt)
    requires pMean == Mean(patch[..]) && pStd == Deviation(patch[..], sqrt)
    ensures fresh(nccMap) && nccMap[..] == ScoreMap(patch[..], ref, s, a, sqrt)
    ensures hit ==> br < a.rows && bc < a.cols
    ensures IsBest(nccMap[..], hit, Flat(a.cols, br, bc), score)
  {
    hide ScoreMap, IsBest, Mean, Deviation, IsSqrt, Flat, Progress;
    ghost var m := ScoreMap(patch[..], ref, s, a, sqrt);
    assert a.rows * a.cols == Flat(a.cols, a.rows, 0) by { FlatIs(a.cols, a.rows, 0); }
    nccMap := new real[a.rows * a.cols](i => SKIPPED);
    hit, br, bc, score := false, 0, 0, -1.0;
    ProgressStart(nccMap[..], m, a, br, bc);
    FlatStep(a.cols, 0, 0);
    for i: nat := 0 to a.rows
      invariant Progress(nccMap[..], m, Flat(a.cols, i, 0), a, hit, br, bc, score)
    {
      hit, br, bc, score := SearchLine(nccMap, m, patch, pMean, pStd, ref, refII, s, a, sqrt, i, hit, br, bc, score);
    }
    ProgressDone(nccMap[..], m, a, hit, br, bc, score);
  }

  /** The first t map values are in place, the rest untouched, and the best so far is kept. */
  predicate Progress(map': seq<real>, m: seq<real>, t: nat, a: Area, hit: bool, br: nat, bc: nat, score: real) {
    && |map'| == |m| && t <= |m| && a.cols >= 0
    && map'[..t] == m[..t]
    && (forall k :: t <= k < |m| ==> map'[k] == SKIPPED)
    && IsBest(m[..t], hit, Flat(a.cols, br, bc), score)
    && (hit ==> br < a.rows && bc < a.cols)
  }

  lemma ProgressStart(map': seq<real>, m: seq<real>, a: Area, br: nat, bc: nat)
    requires |map'| == |m| && a.cols >= 0 && forall k :: 0 <= k < |m| ==> map'[k] == SKIPPED
    ensures Progress(map', m, 0, a, false, br, bc, -1.0)
  {
  }

  lemma ProgressDone(map': seq<real>, m: seq<real>, a: Area, hit: bool, br: nat, bc: nat, score: real)
    requires Progress(map', m, |m|, a, hit, br, bc, score)
    ensures map' == m && IsBest(m, hit, Flat(a.cols, br, bc), score)
    ensures hit ==> br < a.rows && bc < a.cols
  {
    hide IsBest;
    assert m[..|m|] == m && map'[..|m|] == map';
  }

  method SearchLine(nccMap: array<real>, ghost m: seq<real>, patch: array<real>, pMean: real, pStd: real,
      ref: RasterGrid, refII: IntegralImages, s: nat, a: Area, sqrt: real -> real, i: nat,
      hit0: bool, br0: nat, bc0: nat, score0: real)
    returns (hit: bool, br: nat, bc: nat, score: real)
    requires refII.Valid() && refII.img == ref.data && refII.W == ref.width && refII.H == ref.height
    requires Searching(patch[..], ref, s, a, sqrt) && IsSqrt(sqrt) && i < a.rows
    requires nccMap != patch && nccMap != refII.sat && nccMap != refII.sat2
    requires pMean == Mean(patch[..]) && pStd == Deviation(patch[..], sqrt)
    requires m == ScoreMap(patch[..], ref, s, a, sqrt)
    requires Progress(nccMap[..], m, Flat(a.cols, i, 0), a, hit0, br0, bc0, score0)
    modifies nccMap
    ensures Progress(nccMap[..], m, Flat(a.cols, i + 1, 0), a, hit, br, bc, score)
  {
    hide ScoreMap, IsBest, Mean, Deviation, IsSqrt, Progress, Searching, Flat, IntegralImages.Valid;
    hit, br, bc, score := hit0, br0, bc0, score0;
    assert 0 < a.cols by { MapLength(patch[..], ref, s, a, sqrt); }
    for j: nat := 0 to a.cols
      invariant Progress(nccMap[..], m, Flat(a.cols, i, j), a, hit, br, bc, score)
    {
      var v := ScoreCell(patch, pMean, pStd, ref, refII, s, a, sqrt, i, j);
      var t := Flat(a.cols, i, j);
      assert nccMap.Length == |m| by { ProgressLength(nccMap[..], m, t, a, hit, br, bc, score); }
      ProgressStep(nccMap[..], m, t, a, hit, br, bc, score, i, j);
      if v != SKIPPED {
        nccMap[t] := v;
        if v > score {
          hit, br, bc, score := true, i, j, v;
        }
      }
      FlatStep(a.cols, i, j);
    }
    FlatStep(a.cols, i, a.cols);
  }

  lemma MapLength(patch: seq<real>, ref: RasterGrid, s: nat, a: Area, sqrt: real -> real)
    requires Searching(patch, ref, s, a, sqrt)
    ensures a.cols > 0 && a.rows > 0
  {
  }

  lemma ProgressLength(map': seq<real>, m: seq<real>, t: nat, a: Area, hit: bool, br: nat, bc: nat, score: real)
    requires Progress(map', m, t, a, hit, br, bc, score)
    ensures |map'| == |m|
  {
  }

  /** What one iteration does to the progress: a skipped cell changes nothing, any other is
      stored, and a strictly better one becomes the best. */
  lemma ProgressStep(map': seq<real>, m: seq<real>, t: nat, a: Area, hit: bool, br: nat, bc: nat, score: real,
        i: nat, j: nat)
    requires Progress(map', m, t, a, hit, br, bc, score) && t < |m| && |map'| == |m|
    requires i < a.rows && j < a.cols && t == Flat(a.cols, i, j)
    requires m[t] == SKIPPED || -1.0 <= m[t]
    ensures m[t] == SKIPPED ==> Progress(map', m, t + 1, a, hit, br, bc, score)
    ensures m[t] != SKIPPED && m[t] <= score ==> Progress(map'[t := m[t]], m, t + 1, a, hit, br, bc, score)
    ensures m[t] != SKIPPED && m[t] > score ==> Progress(map'[t := m[t]], m, t + 1, a, true, i, j, m[t])
  {
    hide IsBest, Flat;
    BestStep(m, t, hit, Flat(a.cols, br, bc), score);
    BestAboveMinusOne(m[..t], hit, Flat(a.cols, br, bc), score);
    PrefixGrows(map'[t := m[t]], m, t);
    if m[t] == SKIPPED {
      PrefixGrows(map', m, t);
    }
  }

  lemma BestAboveMinusOne(m: seq<real>, hit: bool, at: nat, score: real)
    requires IsBest(m, hit, at, score)
    ensures score >= -1.0
  {
  }

  method ScoreCell(patch: array<real>, pMean: real, pStd: real, ref: RasterGrid, refII: IntegralImages,
      s: nat, a: Area, sqrt: real -> real, i: nat, j: nat)
    returns (v: real)
    requires refII.Valid() && refII.img == ref.data && refII.W == ref.width && refII.H == ref.height
    requires Searching(patch[..], ref, s, a, sqrt) && i < a.rows && j < a.cols && IsSqrt(sqrt)
    requires pMean == Mean(patch[..]) && pStd == Deviation(patch[..], sqrt)
    ensures Flat(a.cols, i, j) < |ScoreMap(patch[..], ref, s, a, sqrt)|
    ensures v == ScoreMap(patch[..], ref, s, a, sqrt)[Flat(a.cols, i, j)]
    ensures v == SKIPPED || -1.0 <= v <= 1.0
  {
    hide Window, Score, Mean, Deviation, Fits, Flat;
    FlatBound(a.rows, a.cols, i, j);
    FlatInverse(a.cols, i, j);
    v := CandidateScore(patch, pMean, pStd, ref, refII, s, a.r0 + i, a.c0 + j, sqrt);
    ScoreBounded(patch[..], Window(ref.data, ref.width, a.r0 + i, a.c0 + j, s), sqrt);
  }

  lemma BestStep(m: seq<real>, t: nat, hit: bool, at: nat, score: real)
    requires t < |m| && IsBest(m[..t], hit, at, score)
    ensures IsBest(m[..t + 1], m[t] > score || hit,
      if m[t] > score then t else at, if m[t] > score then m[t] else score)
  {
  }

  /** One axis of the correction may read its neighbours; outside the map nothing moves. */
  predicate Interior(a: Area, pr: int, pc: int) {
    0 < pr < a.rows - 1 && 0 < pc < a.cols - 1
  }

  /** What matchPatch reports for a finished map. */
  predicate IsRefined(m: seq<real>, a: Area, srcRow: nat, srcCol: nat, hit: bool, br: nat, bc: nat, best: NccMatch)
    requires a.rows > 0 && a.cols > 0 && |m| == Flat(a.cols, a.rows, 0)
  {
    var dr0 := if hit then a.r0 + br - srcRow else 0;
    var dc0 := if hit then a.c0 + bc - srcCol else 0;
    var pr, pc := dr0 + srcRow - a.r0, dc0 + srcCol - a.c0;
    if Interior(a, pr, pc) then
      Neighbours(a, pr, pc);
      var p := Flat(a.cols, pr, pc);
      && best.dr == dr0 as real + SubPixel(m[p - a.cols], m[p], m[p + a.cols])
      && best.dc == dc0 as real + SubPixel(m[p - 1], m[p], m[p + 1])
    else best.dr == dr0 as real && best.dc == dc0 as real
  }

  lemma Neighbours(a: Area, pr: int, pc: int)
    requires Interior(a, pr, pc)
    ensures var p, len := Flat(a.cols, pr, pc), Flat(a.cols, a.rows, 0);
      a.cols <= p && 1 <= p && p + a.cols < len && p + 1 < len
  {
    MulMonotone(1, pr, a.cols);
    MulMonotone(pr + 2, a.rows, a.cols);
  }

  /** Every outcome: the score is the first maximum of the map above -1 (or -1 without one),
      and the reported displacement is within half a pixel, per axis, of that position (or of
      zero without one). */
  lemma RefinedNearPeak(m: seq<real>, a: Area, srcRow: nat, srcCol: nat, hit: bool, br: nat, bc: nat, best: NccMatch)
    requires a.rows > 0 && a.cols > 0 && |m| == Flat(a.cols, a.rows, 0)
    requires hit ==> br < a.rows && bc < a.cols
    requires IsBest(m, hit, Flat(a.cols, br, bc), best.score)
    requires forall t :: 0 <= t < |m| ==> m[t] == SKIPPED || -1.0 <= m[t]
    requires IsRefined(m, a, srcRow, srcCol, hit, br, bc, best)
    ensures var dr0 := if hit then a.r0 + br - srcRow else 0;
      -0.5 <= best.dr - dr0 as real <= 0.5
    ensures var dc0 := if hit then a.c0 + bc - srcCol else 0;
      -0.5 <= best.dc - dc0 as real <= 0.5
  {
    hide SubPixel, Flat;
    var dr0 := if hit then a.r0 + br - srcRow else 0;
    var dc0 := if hit then a.c0 + bc - srcCol else 0;
    var pr, pc := dr0 + srcRow - a.r0, dc0 + srcCol - a.c0;
    if Interior(a, pr, pc) {
      Neighbours(a, pr, pc);
      var p := Flat(a.cols, pr, pc);
      CorrectionBounded(m, hit, Flat(a.cols, br, bc), best.score, p, a.cols);
      CorrectionBounded(m, hit, Flat(a.cols, br, bc), best.score, p, 1);
    }
  }

  lemma CorrectionBounded(m: seq<real>, hit: bool, at: nat, score: real, p: nat, step: nat)
    requires step <= p && p + step < |m| && IsBest(m, hit, at, score) && (hit ==> p == at)
    requires forall t :: 0 <= t < |m| ==> m[t] == SKIPPED || -1.0 <= m[t]
    ensures -0.5 <= SubPixel(m[p - step], m[p], m[p + step]) <= 0.5
  {
    if hit || m[p] != SKIPPED {
      SubPixelBounded(m[p - step], m[p], m[p + step]);
    }
  }

  /** What matchPatch reports from a search whose first maximum is at (br, bc). */
  ghost predicate MatchedAt(patch: seq<real>, ref: RasterGrid, srcRow: nat, srcCol: nat, s: nat, a: Area,
        sqrt: real -> real,
      hit: bool, br: nat, bc: nat, best: NccMatch)
  {
    && Searching(patch, ref, s, a, sqrt)
    && (hit ==> br < a.rows && bc < a.cols)
    && IsBest(ScoreMap(patch, ref, s, a, sqrt), hit, Flat(a.cols, br, bc), best.score)
    && IsRefined(ScoreMap(patch, ref, s, a, sqrt), a, srcRow, srcCol, hit, br, bc, best)
  }

  /** What matchPatch reports: no match for a flat patch or an empty search area. */
  ghost predicate Matched(patch: seq<real>, ref: RasterGrid, srcRow: nat, srcCol: nat, s: nat, radius: int,
      seedDr: real, seedDc: real, sqrt: real -> real, best: NccMatch)
    requires |patch| > 0 && s <= ref.height && s <= ref.width
  {
    var a := SearchArea(ref, s, srcRow, srcCol, radius, seedDr, seedDc);
    if Deviation(patch, sqrt) < FLAT || a.rows <= 0 || a.cols <= 0 then best == NO_MATCH
    else exists hit, br: nat, bc: nat :: MatchedAt(patch, ref, srcRow, srcCol, s, a, sqrt, hit, br, bc, best)
  }

  /** matchPatch. */
  method MatchPatch(src: RasterGrid, refII: IntegralImages, ref: RasterGrid, srcRow: nat, srcCol: nat,
      s: nat, radius: int, seedDr: real, seedDc: real, sqrt: real -> real)
    returns (best: NccMatch)
    requires src.Valid() && ref.Valid() && s > 0 && IsSqrt(sqrt)
    requires refII.Valid() && refII.img == ref.data && refII.W == ref.width && refII.H == ref.height
    requires srcRow + s <= src.height && srcCol + s <= src.width && s <= ref.height && s <= ref.width
    ensures Fits(src.width, |src.data|, srcRow, srcCol, s)
    ensures var patch := Window(src.data, src.width, srcRow, srcCol, s);
      |patch| > 0 && Matched(patch, ref, srcRow, srcCol, s, radius, seedDr, seedDc, sqrt, best)
  {
    hide Window, Variance, SubPixel, RasterGrid.Valid, Fits, IsSqrt, IsBest, SearchArea, ScoreMap, IsRefined, Flat,
      IntegralImages.Valid, Deviation, Max0, Mean, Inside;
    PatchFits(src, s, srcRow, srcCol);
    MulMonotone(1, s, s);
    var n := s * s;
    var patch, pSum, pSum2 := ExtractPatch(src, srcRow, srcCol, s);
    var pMean := pSum / n as real;
    var variance := pSum2 / n as real - pMean * pMean;
    MomentsOf(patch[..], pSum, pSum2, n, pMean, variance);
    var pStd := sqrt(Max0(variance));
    DeviationIs(patch[..], sqrt, variance);
    if pStd < FLAT {
      return NO_MATCH;
    }
    var a := SearchArea(ref, s, srcRow, srcCol, radius, seedDr, seedDc);
    AreaInside(ref, s, srcRow, srcCol, radius, seedDr, seedDc);
    if a.rows <= 0 || a.cols <= 0 {
      return NO_MATCH;
    }
    var nccMap, found, r, c, score := Search(patch, pMean, pStd, ref, refII, s, a, sqrt);
    best := Refine(nccMap, a, srcRow, srcCol, found, r, c, score);
    assert MatchedAt(patch[..], ref, srcRow, srcCol, s, a, sqrt, found, r, c, best);
  }

  lemma MomentsOf(x: seq<real>, sum: real, sum2: real, n: nat, mean: real, variance: real)
    requires |x| == n > 0 && sum == Sum(x) && sum2 == Sum(Squares(x))
    requires mean == sum / n as real && variance == sum2 / n as real - mean * mean
    ensures mean == Mean(x) && variance == Variance(x)
  {
    hide Sum, Squares;
  }

  lemma DeviationIs(x: seq<real>, sqrt: real -> real, variance: real)
    requires |x| > 0 && variance == Variance(x)
    ensures sqrt(Max0(variance)) == Deviation(x, sqrt)
  {
    hide Variance;
  }

  method Refine(nccMap: array<real>, a: Area, srcRow: nat, srcCol: nat, hit: bool, br: nat, bc: nat, score: real)
    returns (best: NccMatch)
    requires a.rows > 0 && a.cols > 0 && nccMap.Length == Flat(a.cols, a.rows, 0)
    ensures best.score == score && IsRefined(nccMap[..], a, srcRow, srcCol, hit, br, bc, best)
  {
    hide SubPixel, Flat;
    var dr := if hit then a.r0 + br - srcRow else 0;
    var dc := if hit then a.c0 + bc - srcCol else 0;
    best := NccMatch(dr as real, dc as real, score);
    var pr := dr + srcRow - a.r0;
    var pc := dc + srcCol - a.c0;
    if 0 < pr < a.rows - 1 && 0 < pc < a.cols - 1 {
      Neighbours(a, pr, pc);
      var p := Flat(a.cols, pr, pc);
      best := NccMatch(
        dr as real + SubPixel(nccMap[p - a.cols], nccMap[p], nccMap[p + a.cols]),
        dc as real + SubPixel(nccMap[p - 1], nccMap[p], nccMap[p + 1]),
        score);
    }
  }

  lemma MapBounded(patch: seq<real>, ref: RasterGrid, s: nat, a: Area, sqrt: real -> real, t: nat)
    requires Searching(patch, ref, s, a, sqrt) && IsSqrt(sqrt) && t < |ScoreMap(patch, ref, s, a, sqrt)|
    ensures var v := ScoreMap(patch, ref, s, a, sqrt)[t]; v == SKIPPED || -1.0 <= v <= 1.0
  {
    hide Score, Window, Deviation, Fits, Flat;
    Split(a.rows, a.cols, t);
    var i, j := t / a.cols, t % a.cols;
    PatchFits(ref, s, a.r0 + i, a.c0 + j);
    ScoreBounded(patch, Window(ref.data, ref.width, a.r0 + i, a.c0 + j, s), sqrt);
  }

  /** Whatever matchPatch reports from a search lies within half a pixel, per axis, of the
      first maximum of the NCC map (of zero displacement when no score exceeds -1), and its
      score is that maximum, in (-1, 1]. */
  lemma MatchWithinHalfPixel(patch: seq<real>, ref: RasterGrid, s: nat, a: Area, sqrt: real -> real,
      srcRow: nat, srcCol: nat, hit: bool, br: nat, bc: nat, best: NccMatch)
    requires Searching(patch, ref, s, a, sqrt) && IsSqrt(sqrt)
    requires hit ==> br < a.rows && bc < a.cols
    requires IsBest(ScoreMap(patch, ref, s, a, sqrt), hit, Flat(a.cols, br, bc), best.score)
    requires IsRefined(ScoreMap(patch, ref, s, a, sqrt), a, srcRow, srcCol, hit, br, bc, best)
    ensures if hit then -1.0 < best.score <= 1.0 else best.score == -1.0
    ensures var dr0 := if hit then a.r0 + br - srcRow else 0;
      -0.5 <= best.dr - dr0 as real <= 0.5
    ensures var dc0 := if hit then a.c0 + bc - srcCol else 0;
      -0.5 <= best.dc - dc0 as real <= 0.5
  {
    hide ScoreMap, IsRefined, Flat;
    var m := ScoreMap(patch, ref, s, a, sqrt);
    forall t | 0 <= t < |m|
      ensures m[t] == SKIPPED || -1.0 <= m[t] <= 1.0
    {
      MapBounded(patch, ref, s, a, sqrt, t);
    }
    RefinedNearPeak(m, a, srcRow, srcCol, hit, br, bc, best);
  }

  /** The window of the reference at (r, c) is the patch up to brightness and contrast. */
  ghost predicate MatchAt(patch: seq<real>, ref: RasterGrid, s: nat, sqrt: real -> real, r: nat, c: nat) {
    && Fits(ref.width, |ref.data|, r, c, s) && s > 0
    && |Window(ref.data, ref.width, r, c, s)| > 0 && IsMatch(patch, Window(ref.data, ref.width, r, c, s), sqrt)
  }

  lemma MapOneExactly(patch: seq<real>, ref: RasterGrid, s: nat, a: Area, sqrt: real -> real, i: nat, j: nat)
    requires Searching(patch, ref, s, a, sqrt) && IsSqrt(sqrt) && i < a.rows && j < a.cols
    ensures Flat(a.cols, i, j) < |ScoreMap(patch, ref, s, a, sqrt)|
    ensures ScoreMap(patch, ref, s, a, sqrt)[Flat(a.cols, i, j)] == 1.0
       <==> MatchAt(patch, ref, s, sqrt, a.r0 + i, a.c0 + j)
  {
    hide Window, Score, Deviation, Fits, Flat, IsMatch;
    FlatBound(a.rows, a.cols, i, j);
    FlatInverse(a.cols, i, j);
    PatchFits(ref, s, a.r0 + i, a.c0 + j);
    ScoreOneExactly(patch, Window(ref.data, ref.width, a.r0 + i, a.c0 + j, s), sqrt);
  }

  /** Each map value is the score of its own window. */
  lemma MapExactly(patch: seq<real>, ref: RasterGrid, s: nat, a: Area, sqrt: real -> real, i: nat, j: nat)
    requires Searching(patch, ref, s, a, sqrt) && IsSqrt(sqrt) && i < a.rows && j < a.cols
    ensures Flat(a.cols, i, j) < |ScoreMap(patch, ref, s, a, sqrt)|
    ensures Fits(ref.width, |ref.data|, a.r0 + i, a.c0 + j, s)
    ensures Scored(ScoreMap(patch, ref, s, a, sqrt)[Flat(a.cols, i, j)], patch,
              Window(ref.data, ref.width, a.r0 + i, a.c0 + j, s), sqrt)
  {
    hide Window, Score, Deviation, Fits, Flat, Scored;
    FlatBound(a.rows, a.cols, i, j);
    FlatInverse(a.cols, i, j);
    PatchFits(ref, s, a.r0 + i, a.c0 + j);
    ScoreExactly(patch, Window(ref.data, ref.width, a.r0 + i, a.c0 + j, s), sqrt);
  }

  /** Some searched position holds the patch up to brightness and contrast. */
  ghost predicate MatchInArea(patch: seq<real>, ref: RasterGrid, s: nat, a: Area, sqrt: real -> real) {
    exists i: nat, j: nat :: i < a.rows && j < a.cols && MatchAtIndex(patch, ref, s, a, sqrt, i, j)
  }

  ghost predicate MatchAtIndex(patch: seq<real>, ref: RasterGrid, s: nat, a: Area, sqrt: real -> real, i: nat, j: nat) {
    a.r0 + i >= 0 && a.c0 + j >= 0 && MatchAt(patch, ref, s, sqrt, a.r0 + i, a.c0 + j)
  }

  lemma FlatOrder(w: nat, i: nat, j: nat, i': nat, j': nat)
    requires j < w && j' < w && (i < i' || (i == i' && j < j'))
    ensures Flat(w, i, j) < Flat(w, i', j')
  {
    if i < i' {
      MulMonotone(i + 1, i', w);
    }
  }

  /** When some searched window is the patch up to brightness and contrast, and only then, the
      score is 1, and the integer match is the first such window in scan order. */
  lemma MatchFound(patch: seq<real>, ref: RasterGrid, s: nat, a: Area, sqrt: real -> real, srcRow: nat, srcCol: nat,
      hit: bool, br: nat, bc: nat, best: NccMatch)
    requires MatchedAt(patch, ref, srcRow, srcCol, s, a, sqrt, hit, br, bc, best) && IsSqrt(sqrt)
    ensures best.score == 1.0 <==> MatchInArea(patch, ref, s, a, sqrt)
    ensures best.score == 1.0 ==>
      && hit && br < a.rows && bc < a.cols && MatchAtIndex(patch, ref, s, a, sqrt, br, bc)
      && forall i: nat, j: nat :: j < a.cols && (i < br || (i == br && j < bc)) ==>
           !MatchAtIndex(patch, ref, s, a, sqrt, i, j)
  {
    SearchingInside(patch, ref, s, a, sqrt);
    hide ScoreMap, IsRefined, Flat, Searching, MatchAtIndex, IsSqrt, IsBest;
    var m, at := ScoreMap(patch, ref, s, a, sqrt), Flat(a.cols, br, bc);
    if hit {
      CellIsMatch(patch, ref, s, a, sqrt, br, bc);
      MapBounded(patch, ref, s, a, sqrt, at);
      BestCell(m, hit, at, best.score, at);
    } else {
      NoBest(m, at, best.score);
    }
    forall i: nat, j: nat | i < a.rows && j < a.cols && MatchAtIndex(patch, ref, s, a, sqrt, i, j)
      ensures best.score == 1.0 && !(i < br || (i == br && j < bc))
    {
      CellIsMatch(patch, ref, s, a, sqrt, i, j);
      BestCell(m, hit, at, best.score, Flat(a.cols, i, j));
      if i < br || (i == br && j < bc) {
        FlatOrder(a.cols, i, j, br, bc);
      }
    }
  }

  lemma CellIsMatch(patch: seq<real>, ref: RasterGrid, s: nat, a: Area, sqrt: real -> real, i: nat, j: nat)
    requires Searching(patch, ref, s, a, sqrt) && IsSqrt(sqrt) && i < a.rows && j < a.cols
    ensures Flat(a.cols, i, j) < |ScoreMap(patch, ref, s, a, sqrt)|
    ensures ScoreMap(patch, ref, s, a, sqrt)[Flat(a.cols, i, j)] == 1.0
       <==> MatchAtIndex(patch, ref, s, a, sqrt, i, j)
  {
    hide ScoreMap, Flat, MatchAt, IsSqrt;
    MapOneExactly(patch, ref, s, a, sqrt, i, j);
  }

  lemma BestCell(m: seq<real>, hit: bool, at: nat, score: real, t: nat)
    requires IsBest(m, hit, at, score) && t < |m|
    ensures m[t] <= score && (hit ==> score == m[at]) && (hit && t < at ==> m[t] < score)
    ensures !hit ==> m[t] <= -1.0
  {
  }

  lemma NoBest(m: seq<real>, at: nat, score: real)
    requires IsBest(m, false, at, score)
    ensures score == -1.0
  {
  }

  lemma SearchingInside(patch: seq<real>, ref: RasterGrid, s: nat, a: Area, sqrt: real -> real)
    requires Searching(patch, ref, s, a, sqrt)
    ensures 0 <= a.r0 && 0 <= a.c0 && 0 < a.rows && 0 < a.cols
  {
  }

  /** For a whole call: if a window within reach of the seeded position is the patch up to
      brightness and contrast, the score is 1 and the reported displacement is within half a
      pixel per axis of the first such window. */
  lemma CallFindsMatch(patch: seq<real>, ref: RasterGrid, srcRow: nat, srcCol: nat, s: nat, radius: int,
      seedDr: real, seedDc: real, sqrt: real -> real, best: NccMatch, cr: int, cc: int, r: nat, c: nat)
    returns (fr: nat, fc: nat)
    requires |patch| > 0 && s <= ref.height && s <= ref.width && IsSqrt(sqrt) && sqrt(Variance(patch)) >= 0.000001
    requires Matched(patch, ref, srcRow, srcCol, s, radius, seedDr, seedDc, sqrt, best)
    requires Nearest(cr, srcRow as real + seedDr) && Nearest(cc, srcCol as real + seedDc)
    requires InReach(r, cr, radius, ref.height - s) && InReach(c, cc, radius, ref.width - s)
    requires MatchAt(patch, ref, s, sqrt, r, c)
    ensures best.score == 1.0
    ensures InReach(fr, cr, radius, ref.height - s) && InReach(fc, cc, radius, ref.width - s)
    ensures MatchAt(patch, ref, s, sqrt, fr, fc) && (fr < r || (fr == r && fc <= c))
    ensures -0.5 <= best.dr - (fr - srcRow) as real <= 0.5 && -0.5 <= best.dc - (fc - srcCol) as real <= 0.5
  {
    hide ScoreMap, IsRefined, Flat, Searching, MatchAt, IsSqrt, SearchArea, Deviation, IsBest, Nearest, Variance;
    var a := SearchArea(ref, s, srcRow, srcCol, radius, seedDr, seedDc);
    DeviationIsRoot(patch, sqrt);
    AreaExactly(ref, s, srcRow, srcCol, radius, seedDr, seedDc, cr, cc, r);
    AreaExactly(ref, s, srcRow, srcCol, radius, seedDr, seedDc, cr, cc, c);
    var hit, br: nat, bc: nat :| MatchedAt(patch, ref, srcRow, srcCol, s, a, sqrt, hit, br, bc, best);
    SearchingInside(patch, ref, s, a, sqrt);
    var i, j := r - a.r0, c - a.c0;
    assert MatchAtIndex(patch, ref, s, a, sqrt, i, j);
    MatchFound(patch, ref, s, a, sqrt, srcRow, srcCol, hit, br, bc, best);
    fr, fc := a.r0 + br, a.c0 + bc;
    AreaExactly(ref, s, srcRow, srcCol, radius, seedDr, seedDc, cr, cc, fr);
    AreaExactly(ref, s, srcRow, srcCol, radius, seedDr, seedDc, cr, cc, fc);
    MatchWithinHalfPixel(patch, ref, s, a, sqrt, srcRow, srcCol, hit, br, bc, best);
  }

  /** The map value at row i, column j. */
  function MapAt(m: seq<real>, a: Area, i: int, j: int): real
    requires 0 <= i < a.rows && 0 <= j < a.cols && |m| == Flat(a.cols, a.rows, 0)
  {
    FlatBound(a.rows, a.cols, i, j);
    m[Flat(a.cols, i, j)]
  }

  /** One axis of the correction, for a score between its two neighbours. */
  predicate Corrected(shift: real, before: real, peak: real, after: real) {
    var den := 2.0 * peak - before - after;
    if den > 0.000000001 then 2.0 * (shift * den) == before - after else shift == 0.0
  }

  lemma CorrectedExactly(before: real, peak: real, after: real)
    ensures Corrected(SubPixel(before, peak, after), before, peak, after)
  {
    var den := 2.0 * peak - before - after;
    if den > CURVATURE {
      HalfQuotient(before - after, den);
    }
  }

  lemma FlatNeighbours(a: Area, pr: int, pc: int)
    requires 0 < pr < a.rows - 1 && 0 < pc < a.cols - 1
    ensures Flat(a.cols, pr, pc) - a.cols == Flat(a.cols, pr - 1, pc)
    ensures Flat(a.cols, pr, pc) + a.cols == Flat(a.cols, pr + 1, pc)
    ensures Flat(a.cols, pr, pc) - 1 == Flat(a.cols, pr, pc - 1)
    ensures Flat(a.cols, pr, pc) + 1 == Flat(a.cols, pr, pc + 1)
  {
    RowBelow(pr - 1, a.cols);
    RowBelow(pr, a.cols);
  }

  lemma RowBelow(r: int, w: int)
    ensures (r + 1) * w == r * w + w
  {
  }

  /** What is reported: away from the border of the map, the integer match corrected along each
      axis from its two neighbours; on the border, the integer match. Without a match the integer
      position is that of no displacement. */
  lemma RefinedExactly(m: seq<real>, a: Area, srcRow: nat, srcCol: nat, hit: bool, br: nat, bc: nat, best: NccMatch)
    requires a.rows > 0 && a.cols > 0 && |m| == Flat(a.cols, a.rows, 0)
    requires IsRefined(m, a, srcRow, srcCol, hit, br, bc, best)
    ensures var pr, pc := if hit then br else srcRow - a.r0, if hit then bc else srcCol - a.c0;
      var dr, dc := best.dr - (a.r0 + pr - srcRow) as real, best.dc - (a.c0 + pc - srcCol) as real;
      if 1 <= pr <= a.rows - 2 && 1 <= pc <= a.cols - 2 then
        && Corrected(dr, MapAt(m, a, pr - 1, pc), MapAt(m, a, pr, pc), MapAt(m, a, pr + 1, pc))
        && Corrected(dc, MapAt(m, a, pr, pc - 1), MapAt(m, a, pr, pc), MapAt(m, a, pr, pc + 1))
      else dr == 0.0 && dc == 0.0
  {
    hide SubPixel, Corrected, Flat;
    var pr, pc := if hit then br else srcRow - a.r0, if hit then bc else srcCol - a.c0;
    if Interior(a, pr, pc) {
      Neighbours(a, pr, pc);
      FlatNeighbours(a, pr, pc);
      var p := Flat(a.cols, pr, pc);
      CorrectedExactly(m[p - a.cols], m[p], m[p + a.cols]);
      CorrectedExactly(m[p - 1], m[p], m[p + 1]);
    }
  }

  ghost predicate NoneInReach(centre: int, radius: int, last: int) {
    forall r :: !InReach(r, centre, radius, last)
  }

  /** No match, score -1 and no displacement, for a patch whose deviation is below 1e-6 or when
      no position is within reach. */
  lemma NoMatchReported(patch: seq<real>, ref: RasterGrid, srcRow: nat, srcCol: nat, s: nat, radius: int,
      seedDr: real, seedDc: real, sqrt: real -> real, best: NccMatch, cr: int, cc: int)
    requires |patch| > 0 && s <= ref.height && s <= ref.width && IsSqrt(sqrt)
    requires Matched(patch, ref, srcRow, srcCol, s, radius, seedDr, seedDc, sqrt, best)
    requires Nearest(cr, srcRow as real + seedDr) && Nearest(cc, srcCol as real + seedDc)
    requires sqrt(Variance(patch)) < 0.000001
      || NoneInReach(cr, radius, ref.height - s) || NoneInReach(cc, radius, ref.width - s)
    ensures best == NccMatch(0.0, 0.0, -1.0)
  {
    hide Variance, SearchArea, IsSqrt, Nearest, MatchedAt;
    var a := SearchArea(ref, s, srcRow, srcCol, radius, seedDr, seedDc);
    DeviationIsRoot(patch, sqrt);
    AreaExactly(ref, s, srcRow, srcCol, radius, seedDr, seedDc, cr, cc, a.r0);
    AreaExactly(ref, s, srcRow, srcCol, radius, seedDr, seedDc, cr, cc, a.c0);
  }
}
