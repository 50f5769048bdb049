/** Variance and covariance of finite samples, and the Cauchy-Schwarz bound. */
module Statistics {
  import opened Arithmetic
  import opened Rasters
  import opened SummedAreaTables

  /** sum of (a[i] - m) * (b[i] - k). */
  function CrossSum(a: seq<real>, b: seq<real>, m: real, k: real): real
    requires |a| == |b|
  {
    if a == [] then 0.0
    else
      var n := |a| - 1;
      CrossSum(a[..n], b[..n], m, k) + (a[n] - m) * (b[n] - k)
  }

  /** The code's variance: mean of squares minus square of mean. */
  function Variance(x: seq<real>): real
    requires |x| > 0
  {
    Sum(Squares(x)) / |x| as real - Sum(x) / |x| as real * (Sum(x) / |x| as real)
  }

  lemma {:induction false} CrossExpand(x: seq<real>, m: real)
    ensures CrossSum(x, x, m, m) == Sum(Squares(x)) - 2.0 * m * Sum(x) + |x| as real * (m * m)
  {
    if x != [] {
      var n := |x| - 1;
      CrossExpand(x[..n], m);
      SquaresPrefix(x, n);
      ExpandStep(x[n], m, Sum(x[..n]), n);
    }
  }

  lemma SquaresPrefix(x: seq<real>, n: nat)
    requires n <= |x|
    ensures Squares(x)[..n] == Squares(x[..n])
  {
    forall i | 0 <= i < n
      ensures Squares(x)[i] == Squares(x[..n])[i]
    {
      SquareAt(x, i);
      SquareAt(x[..n], i);
    }
  }

  lemma ExpandStep(v: real, m: real, s: real, n: nat)
    ensures (v - m) * (v - m) - 2.0 * m * s + n as real * (m * m)
         == v * v - 2.0 * m * (s + v) + (n + 1) as real * (m * m)
  {
  }

  /** n times the variance is the sum of squared deviations, hence not negative. */
  lemma VarianceIsSpread(x: seq<real>)
    requires |x| > 0
    ensures |x| as real * Variance(x) == CrossSum(x, x, Mean(x), Mean(x))
    ensures Variance(x) >= 0.0
  {
    hide Sum, CrossSum, Squares;
    var n, m, s, q := |x| as real, Mean(x), Sum(x), Sum(Squares(x));
    CrossExpand(x, m);
    SpreadNonNegative(x, m);
    assert n * (s / n) == s && n * (q / n) == q;
    SpreadAlgebra(n, m, s, q);
    NonNegativeFactor(n, Variance(x));
  }

  lemma SpreadAlgebra(n: real, m: real, s: real, q: real)
    requires n > 0.0 && n * m == s
    ensures n * (q / n - m * m) == q - 2.0 * m * s + n * (m * m)
  {
    assert n * (q / n) == q;
    assert n * (m * m) == m * s;
  }

  lemma NonNegativeFactor(n: real, v: real)
    requires n > 0.0 && n * v >= 0.0
    ensures v >= 0.0
  {
    if v < 0.0 {
      PositiveProduct(n, -v);
    }
  }

  lemma {:induction false} SpreadNonNegative(x: seq<real>, m: real)
    ensures CrossSum(x, x, m, m) >= 0.0
  {
    if x != [] {
      SpreadNonNegative(x[..|x| - 1], m);
      SquareNonNegative(x[|x| - 1] - m);
    }
  }

  lemma SquareNonNegative(v: real)
    ensures v * v >= 0.0
  {
  }

  /** |u| <= |v| when u^2 <= v^2 and v >= 0. */
  lemma SquareBound(u: real, v: real)
    requires v >= 0.0 && u * u <= v * v
    ensures -v <= u <= v
  {
    if u > v {
      SquareLess(v, u);
    } else if u < -v {
      SquareLess(v, -u);
    }
  }

  /** The step of Cauchy-Schwarz: adding one more pair of terms. */
  lemma SchwarzStep(c: real, p: real, q: real, a: real, b: real)
    requires p >= 0.0 && q >= 0.0 && c * c <= p * q
    ensures (c + a * b) * (c + a * b) <= (p + a * a) * (q + b * b)
  {
    var u, v := 2.0 * c * (a * b), p * (b * b) + q * (a * a);
    SquareNonNegative(a);
    SquareNonNegative(b);
    ProductNonNegative(p, b * b);
    ProductNonNegative(q, a * a);
    MeanInequality(p * (b * b), q * (a * a));
    SquareNonNegative(a * b);
    ScaleInequality(c * c, p * q, (a * b) * (a * b));
    FourthPowers(c, p, q, a, b);
    SquareBound(u, v);
    SchwarzAlgebra(c, p, q, a, b);
  }

  lemma ProductNonNegative(a: real, b: real)
    requires a >= 0.0 && b >= 0.0
    ensures a * b >= 0.0
  {
  }

  lemma MeanInequality(x: real, y: real)
    ensures 4.0 * (x * y) <= (x + y) * (x + y)
  {
    SquareNonNegative(x - y);
    assert (x - y) * (x - y) == (x + y) * (x + y) - 4.0 * (x * y);
  }

  lemma ScaleInequality(x: real, y: real, z: real)
    requires x <= y && z >= 0.0
    ensures x * z <= y * z
  {
  }

  lemma FourthPowers(c: real, p: real, q: real, a: real, b: real)
    ensures var u := 2.0 * c * (a * b); u * u == 4.0 * (c * c * ((a * b) * (a * b)))
    ensures p * (b * b) * (q * (a * a)) == p * q * ((a * b) * (a * b))
  {
  }

  lemma SchwarzAlgebra(c: real, p: real, q: real, a: real, b: real)
    ensures (c + a * b) * (c + a * b) == c * c + 2.0 * c * (a * b) + (a * b) * (a * b)
    ensures (p + a * a) * (q + b * b) == p * q + (p * (b * b) + q * (a * a)) + (a * b) * (a * b)
  {
  }

  /** Cauchy-Schwarz for centred samples. */
  lemma {:induction false} CauchySchwarz(a: seq<real>, b: seq<real>, m: real, k: real)
    requires |a| == |b|
    ensures CrossSum(a, b, m, k) * CrossSum(a, b, m, k) <= CrossSum(a, a, m, m) * CrossSum(b, b, k, k)
  {
    if a != [] {
      var n := |a| - 1;
      var x, y := a[..n], b[..n];
      CauchySchwarz(x, y, m, k);
      SpreadNonNegative(x, m);
      SpreadNonNegative(y, k);
      SchwarzStep(CrossSum(x, y, m, k), CrossSum(x, x, m, m), CrossSum(y, y, k, k), a[n] - m, b[n] - k);
    }
  }

  function Ratio(c: real, d: real): real
    requires d != 0.0
  {
    c / d
  }

  function Norm(n: nat, s: real, t: real): (d: real)
    requires n > 0 && s > 0.0 && t > 0.0
    ensures d > 0.0
  {
    PositiveProduct(n as real, s);
    PositiveProduct(n as real * s, t);
    n as real * s * t
  }

  /** The normalized cross-correlation of two samples with deviations s and t. */
  function Correlation(a: seq<real>, b: seq<real>, s: real, t: real): real
    requires |a| == |b| > 0 && s > 0.0 && t > 0.0
  {
    Ratio(CrossSum(a, b, Mean(a), Mean(b)), Norm(|a|, s, t))
  }

  /** The correlation coefficient always lies in [-1, 1]. */
  lemma CorrelationBounded(a: seq<real>, b: seq<real>, s: real, t: real)
    requires |a| == |b| > 0 && s > 0.0 && t > 0.0
    requires s * s == Variance(a) && t * t == Variance(b)
    ensures -1.0 <= Correlation(a, b, s, t) <= 1.0
  {
    hide CrossSum, Variance, Mean, Ratio, Norm;
    var c, d := CrossSum(a, b, Mean(a), Mean(b)), Norm(|a|, s, t);
    assert c * c <= d * d by { CrossBelowNorm(a, b, s, t); }
    SquareBound(c, d);
    RatioBounded(c, d);
  }

  lemma CrossBelowNorm(a: seq<real>, b: seq<real>, s: real, t: real)
    requires |a| == |b| > 0 && s > 0.0 && t > 0.0
    requires s * s == Variance(a) && t * t == Variance(b)
    ensures var c, d := CrossSum(a, b, Mean(a), Mean(b)), Norm(|a|, s, t); c * c <= d * d
  {
    hide CrossSum, Variance, Mean;
    var n := |a| as real;
    VarianceIsSpread(a);
    VarianceIsSpread(b);
    CauchySchwarz(a, b, Mean(a), Mean(b));
    assert CrossSum(a, a, Mean(a), Mean(a)) == n * (s * s);
    assert CrossSum(b, b, Mean(b), Mean(b)) == n * (t * t);
    DeviationProduct(n, s, t);
  }

  lemma DeviationProduct(n: real, s: real, t: real)
    ensures n * (s * s) * (n * (t * t)) == n * s * t * (n * s * t)
  {
  }

  lemma RatioBounded(c: real, d: real)
    requires d > 0.0 && -d <= c <= d
    ensures -1.0 <= Ratio(c, d) <= 1.0
  {
    hide Ratio;
    QuotientRange(Ratio(c, d), c, d) by { RatioTimes(c, d); }
  }

  lemma RatioTimes(c: real, d: real)
    requires d != 0.0
    ensures Ratio(c, d) * d == c
  {
  }

  lemma QuotientRange(r: real, c: real, d: real)
    requires d > 0.0 && r * d == c && -d <= c <= d
    ensures -1.0 <= r <= 1.0
  {
    assert (r - 1.0) * d == c - d && (-1.0 - r) * d == -d - c;
    if r > 1.0 {
      PositiveProduct(r - 1.0, d);
    }
    if r < -1.0 {
      PositiveProduct(-1.0 - r, d);
    }
  }

  // ----- what a coefficient means -----

  /** The squared error of predicting b as k * a + l. */
  function FitError(a: seq<real>, b: seq<real>, k: real, l: real): real
    requires |a| == |b|
  {
    if a == [] then 0.0
    else
      var n := |a| - 1;
      FitError(a[..n], b[..n], k, l) + Sq(b[n] - (k * a[n] + l))
  }

  function SumFrom(x: seq<real>, m: real): real {
    Sum(x) - |x| as real * m
  }

  /** The three cross sums, the two first moments and the count behind a squared error. */
  function ErrorFormula(aa: real, ab: real, bb: real, da: real, db: real, n: real, k: real, e: real): real {
    bb - 2.0 * (k * ab) + k * k * aa + 2.0 * (e * db) - 2.0 * (k * (e * da)) + n * (e * e)
  }

  lemma ErrorStep(aa: real, ab: real, bb: real, da: real, db: real, n: real, k: real, e: real, u: real, v: real)
    ensures ErrorFormula(aa + Prod(u, u), ab + Prod(u, v), bb + Prod(v, v), da + u, db + v, n + 1.0, k, e)
         == ErrorFormula(aa, ab, bb, da, db, n, k, e) + Sq(v - k * u + e)
  {
    SquareExpands(u, v, k, e);
    hide Prod, Sq;
    FormulaAdds(aa, ab, bb, da, db, n, k, e, Prod(u, u), Prod(u, v), Prod(v, v), u, v);
  }

  lemma SquareExpands(u: real, v: real, k: real, e: real)
    ensures Sq(v - k * u + e) == ErrorFormula(Prod(u, u), Prod(u, v), Prod(v, v), u, v, 1.0, k, e)
  {
  }

  lemma FormulaAdds(aa: real, ab: real, bb: real, da: real, db: real, n: real, k: real, e: real,
      uu: real, uv: real, vv: real, u: real, v: real)
    ensures ErrorFormula(aa + uu, ab + uv, bb + vv, da + u, db + v, n + 1.0, k, e)
         == ErrorFormula(aa, ab, bb, da, db, n, k, e) + ErrorFormula(uu, uv, vv, u, v, 1.0, k, e)
  {
    TermAdds(k, ab, uv);
    TermAdds(k * k, aa, uu);
    TermAdds(e, db, v);
    TermAdds(e, da, u);
    TermAdds(k, e * da, e * u);
    TermAdds(e * e, n, 1.0);
  }

  lemma TermAdds(k: real, a: real, b: real)
    ensures k * (a + b) == k * a + k * b
  {
  }

  lemma SumFromStep(x: seq<real>, m: real)
    requires x != []
    ensures SumFrom(x, m) == SumFrom(x[..|x| - 1], m) + (x[|x| - 1] - m)
  {
    var n := |x| - 1;
    assert (n + 1) as real * m == n as real * m + m;
  }

  lemma {:induction false} ErrorExpands(a: seq<real>, b: seq<real>, m: real, w: real, k: real, l: real)
    requires |a| == |b|
    ensures FitError(a, b, k, l) == ErrorFormula(CrossSum(a, a, m, m), CrossSum(a, b, m, w), CrossSum(b, b, w, w),
      SumFrom(a, m), SumFrom(b, w), |a| as real, k, w - k * m - l)
  {
    hide ErrorFormula, SumFrom, CrossSum, FitError, Prod, Sq;
    SumsNone(m, w, k, l);
    if a == [] {
      NoError(m, w, k, w - k * m - l);
    } else {
      var n := |a| - 1;
      ErrorExpands(a[..n], b[..n], m, w, k, l);
      var u, v, e := a[n] - m, b[n] - w, w - k * m - l;
      SumFromStep(a, m);
      SumFromStep(b, w);
      CrossNext(a, a, m, m, u, u);
      CrossNext(a, b, m, w, u, v);
      CrossNext(b, b, w, w, v, v);
      DeviationOf(a[n], b[n], m, w, k, l);
      FitNext(a, b, k, l, v - k * u + e);
      ErrorStep(CrossSum(a[..n], a[..n], m, m), CrossSum(a[..n], b[..n], m, w), CrossSum(b[..n], b[..n], w, w),
        SumFrom(a[..n], m), SumFrom(b[..n], w), n as real, k, e, u, v);
      assert |a| as real == n as real + 1.0;
    }
  }

  lemma SumsNone(m: real, w: real, k: real, l: real)
    ensures CrossSum([], [], m, w) == CrossSum([], [], m, m) == CrossSum([], [], w, w) == 0.0
    ensures FitError([], [], k, l) == 0.0
  {
  }

  lemma CrossNext(a: seq<real>, b: seq<real>, m: real, w: real, u: real, v: real)
    requires |a| == |b| > 0 && u == a[|a| - 1] - m && v == b[|a| - 1] - w
    ensures CrossSum(a, b, m, w) == CrossSum(a[..|a| - 1], b[..|a| - 1], m, w) + Prod(u, v)
  {
    assert Prod(a[|a| - 1] - m, b[|a| - 1] - w) == (a[|a| - 1] - m) * (b[|a| - 1] - w);
    hide Prod;
  }

  lemma FitNext(a: seq<real>, b: seq<real>, k: real, l: real, d: real)
    requires |a| == |b| > 0 && d == b[|a| - 1] - (k * a[|a| - 1] + l)
    ensures FitError(a, b, k, l) == FitError(a[..|a| - 1], b[..|a| - 1], k, l) + Sq(d)
  {
    hide Sq;
  }

  lemma DeviationOf(x: real, y: real, m: real, w: real, k: real, l: real)
    ensures y - (k * x + l) == (y - w) - k * (x - m) + (w - k * m - l)
  {
  }

  lemma NoError(m: real, w: real, k: real, e: real)
    ensures ErrorFormula(0.0, 0.0, 0.0, SumFrom([], m), SumFrom([], w), 0.0, k, e) == 0.0
  {
    assert SumFrom([], m) == 0.0 && SumFrom([], w) == 0.0;
  }

  lemma CentredSum(x: seq<real>)
    requires |x| > 0
    ensures SumFrom(x, Mean(x)) == 0.0
  {
    hide Sum;
    QuotientBack(Sum(x), |x| as real);
  }

  function LineError(aa: real, ab: real, bb: real, k: real): real {
    bb - 2.0 * (k * ab) + k * k * aa
  }

  lemma CentredError(aa: real, ab: real, bb: real, n: real, k: real, e: real)
    ensures ErrorFormula(aa, ab, bb, 0.0, 0.0, n, k, e) == LineError(aa, ab, bb, k) + n * Sq(e)
  {
  }

  /** The coefficient r of two samples with deviations s and t is what it is called for: of the
      spread n * t^2 of b, a line through a leaves n * t^2 * (1 - r^2) unexplained, at the
      slope r * t / s, and every other line leaves more by the squares of its distances. */
  lemma CorrelationExplains(a: seq<real>, b: seq<real>, s: real, t: real, k: real, l: real)
    requires |a| == |b| > 0 && s > 0.0 && t > 0.0
    requires s * s == Variance(a) && t * t == Variance(b)
    ensures FitError(a, b, k, l)
         == Explained(|a| as real, s, t, Correlation(a, b, s, t), k, Mean(b) - k * Mean(a) - l)
  {
    hide CrossSum, Variance, Mean, FitError, ErrorFormula, SumFrom, Correlation, Explained;
    var n, r := |a| as real, Correlation(a, b, s, t);
    var m, w := Mean(a), Mean(b);
    ErrorExpands(a, b, m, w, k, l);
    CentredSum(a);
    CentredSum(b);
    VarianceIsSpread(a);
    VarianceIsSpread(b);
    CorrelationTimes(a, b, s, t);
    ExplainedAlgebra(CrossSum(a, a, m, m), CrossSum(a, b, m, w), CrossSum(b, b, w, w), n, r, s, t, k, w - k * m - l);
    var e := w - k * m - l;
    assert FitError(a, b, k, l) == Explained(n, s, t, r, k, e);
    assert e == Mean(b) - k * Mean(a) - l;
  }

  /** What a line of slope k leaves unexplained, when it misses the means by e. */
  function Explained(n: real, s: real, t: real, r: real, k: real, e: real): real {
    n * (t * t * (1.0 - r * r)) + n * Sq(k * s - r * t) + n * Sq(e)
  }

  lemma CorrelationTimes(a: seq<real>, b: seq<real>, s: real, t: real)
    requires |a| == |b| > 0 && s > 0.0 && t > 0.0
    ensures CrossSum(a, b, Mean(a), Mean(b)) == Correlation(a, b, s, t) * (|a| as real * s * t)
  {
    hide CrossSum, Mean, Ratio;
    RatioTimes(CrossSum(a, b, Mean(a), Mean(b)), Norm(|a|, s, t));
  }

  lemma ExplainedAlgebra(aa: real, ab: real, bb: real, n: real, r: real, s: real, t: real, k: real, e: real)
    requires aa == n * (s * s) && bb == n * (t * t) && ab == r * (n * s * t)
    ensures ErrorFormula(aa, ab, bb, 0.0, 0.0, n, k, e) == Explained(n, s, t, r, k, e)
  {
    CentredError(aa, ab, bb, n, k, e);
    SlopeAlgebra(n, r, s, t, k);
  }

  lemma SlopeAlgebra(n: real, r: real, s: real, t: real, k: real)
    ensures LineError(n * (s * s), r * (n * s * t), n * (t * t), k)
         == n * (t * t * (1.0 - r * r)) + n * Sq(k * s - r * t)
  {
    var ab, aa, x := r * (n * s * t), n * (s * s), k * s;
    assert k * ab == n * (r * (t * x));
    assert k * k * aa == n * (x * x);
    CompleteSquare(t, r, x);
    TermAdds(n, t * t * (1.0 - r * r), (x - r * t) * (x - r * t));
    TermAdds(n, t * t - 2.0 * (r * (t * x)), x * x);
    TermAdds(n, t * t, -2.0 * (r * (t * x)));
  }

  lemma CompleteSquare(t: real, r: real, x: real)
    ensures t * t - 2.0 * (r * (t * x)) + x * x == t * t * (1.0 - r * r) + (x - r * t) * (x - r * t)
  {
  }

  /** b is a rescaled copy of a. */
  predicate IsCopy(a: seq<real>, b: seq<real>, k: real, l: real) {
    |a| == |b| && forall i :: 0 <= i < |a| ==> b[i] == k * a[i] + l
  }

  lemma {:induction false} CopyHasNoError(a: seq<real>, b: seq<real>, k: real, l: real)
    requires |a| == |b|
    ensures FitError(a, b, k, l) >= 0.0
    ensures FitError(a, b, k, l) == 0.0 <==> IsCopy(a, b, k, l)
  {
    hide Sq, FitError, IsCopy;
    if a == [] {
      SumsNone(0.0, 0.0, k, l);
      NothingCopied(k, l);
    } else {
      var n := |a| - 1;
      var d := b[n] - (k * a[n] + l);
      CopyHasNoError(a[..n], b[..n], k, l);
      SquareZero(d);
      FitNext(a, b, k, l, d);
      CopyFront(a, b, k, l);
    }
  }

  lemma NothingCopied(k: real, l: real)
    ensures IsCopy([], [], k, l)
  {
  }

  lemma CopyFront(a: seq<real>, b: seq<real>, k: real, l: real)
    requires |a| == |b| > 0
    ensures var n := |a| - 1;
      IsCopy(a, b, k, l) <==> IsCopy(a[..n], b[..n], k, l) && b[n] == k * a[n] + l
  {
  }

  lemma SquareZero(d: real)
    ensures Sq(d) >= 0.0 && (Sq(d) == 0.0 <==> d == 0.0)
  {
    SqSign(d);
    if d == 0.0 {
      assert Sq(d) == Sq(0.0);
    }
  }

  /** The equality case of Cauchy-Schwarz: the coefficient is 1 exactly for rescaled copies with
      a positive gain, and -1 exactly for those with a negative one. */
  lemma ExtremesExactly(a: seq<real>, b: seq<real>, s: real, t: real)
    requires |a| == |b| > 0 && s > 0.0 && t > 0.0
    requires s * s == Variance(a) && t * t == Variance(b)
    ensures Correlation(a, b, s, t) == 1.0 <==> exists k, l :: k > 0.0 && IsCopy(a, b, k, l)
    ensures Correlation(a, b, s, t) == -1.0 <==> exists k, l :: k < 0.0 && IsCopy(a, b, k, l)
  {
    hide Variance, Correlation, IsCopy, Mean;
    var r := Correlation(a, b, s, t);
    if r == 1.0 || r == -1.0 {
      var k := r * t / s;
      BestLine(a, b, s, t);
      QuotientSign(t, s);
      assert r == -1.0 ==> k == -(t / s) by { NegatedQuotient(t, s); }
      assert r == 1.0 ==> k == t / s;
      assert IsCopy(a, b, k, Mean(b) - k * Mean(a));
    }
    if k, l :| k > 0.0 && IsCopy(a, b, k, l) {
      CopyCorrelates(a, b, s, t, k, l);
    }
    if k, l :| k < 0.0 && IsCopy(a, b, k, l) {
      CopyCorrelates(a, b, s, t, k, l);
    }
  }

  lemma NegatedQuotient(t: real, s: real)
    requires s != 0.0
    ensures -1.0 * t / s == -(t / s)
  {
  }

  lemma QuotientSign(t: real, s: real)
    requires t > 0.0 && s > 0.0
    ensures t / s > 0.0
  {
    var q := t / s;
    QuotientBack(t, s);
    if q < 0.0 {
      PositiveProduct(s, -q);
    }
  }

  lemma BestLine(a: seq<real>, b: seq<real>, s: real, t: real)
    requires |a| == |b| > 0 && s > 0.0 && t > 0.0
    requires s * s == Variance(a) && t * t == Variance(b)
    requires Correlation(a, b, s, t) == 1.0 || Correlation(a, b, s, t) == -1.0
    ensures var k := Correlation(a, b, s, t) * t / s; IsCopy(a, b, k, Mean(b) - k * Mean(a))
  {
    hide Variance, Correlation, IsCopy, Mean, FitError, Explained;
    var r := Correlation(a, b, s, t);
    var k := r * t / s;
    var l := Mean(b) - k * Mean(a);
    CorrelationExplains(a, b, s, t, k, l);
    QuotientBack(r * t, s);
    NothingLeft(|a| as real, s, t, r, k);
    assert Mean(b) - k * Mean(a) - l == 0.0;
    CopyHasNoError(a, b, k, l);
  }

  lemma NothingLeft(n: real, s: real, t: real, r: real, k: real)
    requires (r == 1.0 || r == -1.0) && s * k == r * t
    ensures Explained(n, s, t, r, k, 0.0) == 0.0
  {
    assert r * r == 1.0;
    assert k * s - r * t == 0.0;
  }

  lemma CopyCorrelates(a: seq<real>, b: seq<real>, s: real, t: real, k: real, l: real)
    requires |a| == |b| > 0 && s > 0.0 && t > 0.0
    requires s * s == Variance(a) && t * t == Variance(b) && IsCopy(a, b, k, l)
    ensures k > 0.0 ==> Correlation(a, b, s, t) == 1.0
    ensures k < 0.0 ==> Correlation(a, b, s, t) == -1.0
  {
    hide Variance, Correlation, IsCopy, Mean, FitError, Explained;
    CopyHasNoError(a, b, k, l);
    CorrelationExplains(a, b, s, t, k, l);
    CorrelationBounded(a, b, s, t);
    NoErrorLeft(|a| as real, s, t, Correlation(a, b, s, t), k, Mean(b) - k * Mean(a) - l);
  }

  lemma NoErrorLeft(n: real, s: real, t: real, r: real, k: real, e: real)
    requires n > 0.0 && s > 0.0 && t > 0.0 && -1.0 <= r <= 1.0 && Explained(n, s, t, r, k, e) == 0.0
    ensures k > 0.0 ==> r == 1.0
    ensures k < 0.0 ==> r == -1.0
  {
    hide Sq;
    var x := k * s - r * t;
    OneMinusSquare(r);
    SquareNonNegative(t);
    SquareZero(x);
    SquareZero(e);
    ProductNonNegative(t * t, 1.0 - r * r);
    ProductNonNegative(n, t * t * (1.0 - r * r));
    ProductNonNegative(n, Sq(x));
    ProductNonNegative(n, Sq(e));
    VanishingFactor(n, Sq(x));
    VanishingFactor(n, t * t * (1.0 - r * r));
    Regrouped(t, 1.0 - r * r);
    VanishingFactor(t, t * (1.0 - r * r));
    VanishingFactor(t, 1.0 - r * r);
    UnitSquare(r);
    SameSign(k, s, r, t);
  }

  lemma SameSign(k: real, s: real, r: real, t: real)
    requires s > 0.0 && t > 0.0 && k * s == r * t && (r == 1.0 || r == -1.0)
    ensures k > 0.0 ==> r == 1.0
    ensures k < 0.0 ==> r == -1.0
  {
    if k > 0.0 {
      PositiveProduct(k, s);
    } else if k < 0.0 {
      PositiveProduct(-k, s);
    }
    assert r == -1.0 ==> r * t == -t;
  }

  lemma OneMinusSquare(r: real)
    requires -1.0 <= r <= 1.0
    ensures 1.0 - r * r >= 0.0
  {
    assert 1.0 - r * r == (1.0 - r) * (1.0 + r);
    ProductNonNegative(1.0 - r, 1.0 + r);
  }

  lemma VanishingFactor(n: real, x: real)
    requires n > 0.0 && n * x == 0.0
    ensures x == 0.0
  {
    if x > 0.0 {
      PositiveProduct(n, x);
    } else if x < 0.0 {
      PositiveProduct(n, -x);
    }
  }

  lemma UnitSquare(r: real)
    requires 1.0 - r * r == 0.0
    ensures r == 1.0 || r == -1.0
  {
    if r >= 0.0 {
      UnitRoot(r);
    } else {
      assert -r * -r == r * r;
      UnitRoot(-r);
    }
  }
}
