/** Least-squares similarity (umeyama), its robust version (ransac), and the warp's
    geotransform. */
module SimilarityFit {
  import opened Arithmetic
  import opened Statistics

  datatype Vec2 = Vec2(x: real, y: real)

  datatype TiePoint = TiePoint(src: Vec2, ref: Vec2)

  /** X_ref = scale * R * X_src + t. */
  datatype Similarity2D = Similarity2D(scale: real, cosTheta: real, sinTheta: real, t: Vec2) {
    function Apply(p: Vec2): Vec2 {
      Vec2(scale * (cosTheta * p.x - sinTheta * p.y) + t.x,
           scale * (sinTheta * p.x + cosTheta * p.y) + t.y)
    }

    /** scale * cos and scale * sin: what the fit determines. */
    function P(): real { scale * cosTheta }

    function Q(): real { scale * sinTheta }
  }

  const IDENTITY := Similarity2D(1.0, 1.0, 0.0, Vec2(0.0, 0.0))
  const SPREAD := 0.00000000000000000001

  /** The squared residual of one pair. */
  function Residual2(s: Similarity2D, tp: TiePoint): real {
    var q := s.Apply(tp.src);
    (q.x - tp.ref.x) * (q.x - tp.ref.x) + (q.y - tp.ref.y) * (q.y - tp.ref.y)
  }

  /** The summed squared residual. */
  function Cost(s: Similarity2D, pts: seq<TiePoint>): real {
    if pts == [] then 0.0 else Cost(s, pts[..|pts| - 1]) + Residual2(s, pts[|pts| - 1])
  }

  // ----- sums over tie points -----

  datatype Moments = Moments(px: real, py: real, qx: real, qy: real, spread: real, dot: real, wedge: real)

  function Dot(q: Vec2, p: Vec2): real {
    q.x * p.x + q.y * p.y
  }

  function Wedge(q: Vec2, p: Vec2): real {
    q.y * p.x - q.x * p.y
  }

  function AddMoments(m: Moments, tp: TiePoint): Moments {
    var p, q := tp.src, tp.ref;
    Moments(m.px + p.x, m.py + p.y, m.qx + q.x, m.qy + q.y,
      m.spread + Dot(p, p), m.dot + Dot(q, p), m.wedge + Wedge(q, p))
  }

  /** First moments of both point sets, the spread of the source, and the two products the
      rotation is read from. */
  function MomentsOf(pts: seq<TiePoint>): Moments {
    if pts == [] then Moments(0.0, 0.0, 0.0, 0.0, 0.0, 0.0, 0.0)
    else AddMoments(MomentsOf(pts[..|pts| - 1]), pts[|pts| - 1])
  }

  function Shift(tp: TiePoint, mp: Vec2, mq: Vec2): TiePoint {
    TiePoint(Vec2(tp.src.x - mp.x, tp.src.y - mp.y), Vec2(tp.ref.x - mq.x, tp.ref.y - mq.y))
  }

  /** All pairs relative to the two given centres. */
  function Centred(pts: seq<TiePoint>, mp: Vec2, mq: Vec2): (c: seq<TiePoint>)
    ensures |c| == |pts|
  {
    seq(|pts|, i requires 0 <= i < |pts| => Shift(pts[i], mp, mq))
  }

  function MeanSrc(pts: seq<TiePoint>): Vec2
    requires pts != []
  {
    Vec2(MomentsOf(pts).px / |pts| as real, MomentsOf(pts).py / |pts| as real)
  }

  function MeanRef(pts: seq<TiePoint>): Vec2
    requires pts != []
  {
    Vec2(MomentsOf(pts).qx / |pts| as real, MomentsOf(pts).qy / |pts| as real)
  }

  function CentredPoints(pts: seq<TiePoint>): seq<TiePoint>
    requires pts != []
  {
    Centred(pts, MeanSrc(pts), MeanRef(pts))
  }

  function Times(k: nat, x: real): real {
    k as real * x
  }

  /** c holds the first moments m of k points, each moved by -mp and -mq. */
  predicate Recentred(m: Moments, c: Moments, k: nat, mp: Vec2, mq: Vec2) {
    && c.px == m.px - Times(k, mp.x) && c.py == m.py - Times(k, mp.y)
    && c.qx == m.qx - Times(k, mq.x) && c.qy == m.qy - Times(k, mq.y)
  }

  lemma TimesNext(k: nat, x: real)
    ensures Times(k + 1, x) == Times(k, x) + x
    ensures Times(0, x) == 0.0
  {
  }

  lemma RecentredStep(m: Moments, c: Moments, k: nat, mp: Vec2, mq: Vec2, tp: TiePoint)
    requires Recentred(m, c, k, mp, mq)
    ensures Recentred(AddMoments(m, tp), AddMoments(c, Shift(tp, mp, mq)), k + 1, mp, mq)
  {
    hide Times, Dot, Wedge;
    TimesNext(k, mp.x);
    TimesNext(k, mp.y);
    TimesNext(k, mq.x);
    TimesNext(k, mq.y);
  }

  lemma {:induction false} CentredMoments(pts: seq<TiePoint>, mp: Vec2, mq: Vec2)
    ensures Recentred(MomentsOf(pts), MomentsOf(Centred(pts, mp, mq)), |pts|, mp, mq)
  {
    hide Times, Dot, Wedge, AddMoments, Shift;
    if pts == [] {
      TimesNext(0, mp.x);
      TimesNext(0, mp.y);
      TimesNext(0, mq.x);
      TimesNext(0, mq.y);
    } else {
      var k := |pts| - 1;
      CentredMoments(pts[..k], mp, mq);
      assert Centred(pts, mp, mq)[..k] == Centred(pts[..k], mp, mq);
      RecentredStep(MomentsOf(pts[..k]), MomentsOf(Centred(pts[..k], mp, mq)), k, mp, mq, pts[k]);
    }
  }

  /** Relative to their centroids, both point sets have zero first moments. */
  lemma CentredVanish(pts: seq<TiePoint>)
    requires pts != []
    ensures var c := MomentsOf(CentredPoints(pts)); c.px == 0.0 && c.py == 0.0 && c.qx == 0.0 && c.qy == 0.0
  {
    hide MomentsOf, Centred;
    var m, n := MomentsOf(pts), |pts| as real;
    CentredMoments(pts, MeanSrc(pts), MeanRef(pts));
    QuotientBack(m.px, n);
    QuotientBack(m.py, n);
    QuotientBack(m.qx, n);
    QuotientBack(m.qy, n);
  }

  // ----- umeyama -----

  /** sqrt, atan2, cos and sin enter only through the polar form of (a, b). */
  datatype Polar = Polar(radius: real, cosine: real, sine: real)

  ghost predicate IsPolar(polar: (real, real) -> Polar) {
    forall a, b :: IsPolarOf(polar(a, b), a, b)
  }

  predicate IsPolarOf(z: Polar, a: real, b: real) {
    && z.radius >= 0.0 && z.radius * z.cosine == a && z.radius * z.sine == b
    && z.cosine * z.cosine + z.sine * z.sine == 1.0
  }

  /** The closed form: rotation and scale from the products, translation from the centroids. */
  function ClosedForm(mp: Vec2, mq: Vec2, spread: real, dot: real, wedge: real,
      polar: (real, real) -> Polar): Similarity2D
  {
    var z := polar(dot, wedge);
    var scale := if spread > SPREAD then z.radius / spread else 1.0;
    Similarity2D(scale, z.cosine, z.sine,
      Vec2(mq.x - scale * (z.cosine * mp.x - z.sine * mp.y),
           mq.y - scale * (z.sine * mp.x + z.cosine * mp.y)))
  }

  function Umeyama(pts: seq<TiePoint>, polar: (real, real) -> Polar): Similarity2D
    requires pts != []
  {
    var c := MomentsOf(CentredPoints(pts));
    ClosedForm(MeanSrc(pts), MeanRef(pts), c.spread, c.dot, c.wedge, polar)
  }

  datatype FitResult = Fitted(sim: Similarity2D) | TooFewPoints

  /** umeyama: centroids in one sweep, centred products in a second, then the closed form. */
  method ComputeUmeyama(pts: seq<TiePoint>, polar: (real, real) -> Polar) returns (r: FitResult)
    ensures r == if |pts| < 2 then TooFewPoints else Fitted(Umeyama(pts, polar))
  {
    if |pts| < 2 {
      return TooFewPoints;
    }
    hide MomentsOf, Dot, Wedge, Centred, ClosedForm;
    var n := |pts| as real;
    var px, py, qx, qy := 0.0, 0.0, 0.0, 0.0;
    MomentsNone(pts);
    for i := 0 to |pts|
      invariant var m := MomentsOf(pts[..i]); px == m.px && py == m.py && qx == m.qx && qy == m.qy
    {
      MomentsStep(pts, i);
      px, py := px + pts[i].src.x, py + pts[i].src.y;
      qx, qy := qx + pts[i].ref.x, qy + pts[i].ref.y;
    }
    assert pts[..|pts|] == pts;
    var mp, mq := Vec2(px / n, py / n), Vec2(qx / n, qy / n);
    var spread, s00, s01, s10, s11 := CentredProducts(pts, mp, mq);
    r := Fitted(ClosedForm(mp, mq, spread, s00 + s11, s10 - s01, polar));
  }

  lemma MomentsNone(pts: seq<TiePoint>)
    ensures MomentsOf(pts[..0]) == Moments(0.0, 0.0, 0.0, 0.0, 0.0, 0.0, 0.0)
  {
  }

  lemma MomentsStep(pts: seq<TiePoint>, i: nat)
    requires i < |pts|
    ensures MomentsOf(pts[..i + 1]) == AddMoments(MomentsOf(pts[..i]), pts[i])
  {
    hide Dot, Wedge;
    assert pts[..i + 1][..i] == pts[..i];
  }

  /** The four entries of the cross covariance, and the two combinations used. */
  predicate Products(m: Moments, spread: real, s00: real, s01: real, s10: real, s11: real) {
    spread == m.spread && s00 + s11 == m.dot && s10 - s01 == m.wedge
  }

  lemma ProductsStep(m: Moments, p: Vec2, q: Vec2, spread: real, s00: real, s01: real, s10: real, s11: real)
    requires Products(m, spread, s00, s01, s10, s11)
    ensures Products(AddMoments(m, TiePoint(p, q)), spread + (p.x * p.x + p.y * p.y),
      s00 + q.x * p.x, s01 + q.x * p.y, s10 + q.y * p.x, s11 + q.y * p.y)
  {
  }

  method CentredProducts(pts: seq<TiePoint>, mp: Vec2, mq: Vec2)
    returns (spread: real, s00: real, s01: real, s10: real, s11: real)
    ensures Products(MomentsOf(Centred(pts, mp, mq)), spread, s00, s01, s10, s11)
  {
    hide MomentsOf, Dot, Wedge, Products, AddMoments;
    ghost var c := Centred(pts, mp, mq);
    spread, s00, s01, s10, s11 := 0.0, 0.0, 0.0, 0.0, 0.0;
    assert Products(MomentsOf(c[..0]), 0.0, 0.0, 0.0, 0.0, 0.0) by { ProductsNone(c); }
    for i := 0 to |pts|
      invariant Products(MomentsOf(c[..i]), spread, s00, s01, s10, s11)
    {
      MomentsStep(c, i);
      var tp := Shift(pts[i], mp, mq);
      var p, q := tp.src, tp.ref;
      ProductsStep(MomentsOf(c[..i]), p, q, spread, s00, s01, s10, s11);
      spread := spread + (p.x * p.x + p.y * p.y);
      s00, s01 := s00 + q.x * p.x, s01 + q.x * p.y;
      s10, s11 := s10 + q.y * p.x, s11 + q.y * p.y;
    }
    assert c[..|pts|] == c;
  }

  lemma ProductsNone(c: seq<TiePoint>)
    ensures Products(MomentsOf(c[..0]), 0.0, 0.0, 0.0, 0.0, 0.0)
  {
  }

  // ----- the fit is the global minimum -----

  /** One pair's residual at (p, q) against a change (P, Q, e) of the parameters. */
  function Cross(tp: TiePoint, p: real, q: real, P: real, Q: real, e: Vec2): real {
    (p * tp.src.x - q * tp.src.y - tp.ref.x) * (P * tp.src.x - Q * tp.src.y + e.x)
      + (q * tp.src.x + p * tp.src.y - tp.ref.y) * (Q * tp.src.x + P * tp.src.y + e.y)
  }

  function CrossTotal(c: seq<TiePoint>, p: real, q: real, P: real, Q: real, e: Vec2): real {
    if c == [] then 0.0 else CrossTotal(c[..|c| - 1], p, q, P, Q, e) + Cross(c[|c| - 1], p, q, P, Q, e)
  }

  /** The cross total is linear in the moments. */
  function CrossFormula(m: Moments, p: real, q: real, P: real, Q: real, e: Vec2): real {
    P * (p * m.spread - m.dot) + Q * (q * m.spread - m.wedge)
      + e.x * (p * m.px - q * m.py - m.qx) + e.y * (q * m.px + p * m.py - m.qy)
  }

  lemma CrossStep(m: Moments, tp: TiePoint, p: real, q: real, P: real, Q: real, e: Vec2)
    ensures CrossFormula(AddMoments(m, tp), p, q, P, Q, e)
         == CrossFormula(m, p, q, P, Q, e) + Cross(tp, p, q, P, Q, e)
  {
    var x, y, u, v := tp.src.x, tp.src.y, tp.ref.x, tp.ref.y;
    var n, d, w := Dot(tp.src, tp.src), Dot(tp.ref, tp.src), Wedge(tp.ref, tp.src);
    CrossAlgebra(x, y, u, v, p, q, P, Q, e.x, e.y);
    assert P * (p * (m.spread + n) - (m.dot + d)) == P * (p * m.spread - m.dot) + P * (p * n - d);
    assert Q * (q * (m.spread + n) - (m.wedge + w)) == Q * (q * m.spread - m.wedge) + Q * (q * n - w);
    assert e.x * (p * (m.px + x) - q * (m.py + y) - (m.qx + u))
      == e.x * (p * m.px - q * m.py - m.qx) + e.x * (p * x - q * y - u);
    assert e.y * (q * (m.px + x) + p * (m.py + y) - (m.qy + v))
      == e.y * (q * m.px + p * m.py - m.qy) + e.y * (q * x + p * y - v);
  }

  lemma CrossAlgebra(x: real, y: real, u: real, v: real, p: real, q: real, P: real, Q: real, e: real, f: real)
    ensures (p * x - q * y - u) * (P * x - Q * y + e) + (q * x + p * y - v) * (Q * x + P * y + f)
         == P * (p * (x * x + y * y) - (u * x + v * y)) + Q * (q * (x * x + y * y) - (v * x - u * y))
          + e * (p * x - q * y - u) + f * (q * x + p * y - v)
  {
  }

  lemma {:induction false} CrossIsFormula(c: seq<TiePoint>, p: real, q: real, P: real, Q: real, e: Vec2)
    ensures CrossTotal(c, p, q, P, Q, e) == CrossFormula(MomentsOf(c), p, q, P, Q, e)
  {
    hide Cross, CrossFormula, AddMoments;
    if c == [] {
      CrossNone(p, q, P, Q, e);
    } else {
      CrossIsFormula(c[..|c| - 1], p, q, P, Q, e);
      CrossStep(MomentsOf(c[..|c| - 1]), c[|c| - 1], p, q, P, Q, e);
    }
  }

  lemma CrossNone(p: real, q: real, P: real, Q: real, e: Vec2)
    ensures CrossFormula(Moments(0.0, 0.0, 0.0, 0.0, 0.0, 0.0, 0.0), p, q, P, Q, e) == 0.0
  {
  }

  /** The squared residual of a centred pair at parameters (p, q) and offset e. */
  function Centred2(tp: TiePoint, p: real, q: real, e: Vec2): real {
    (p * tp.src.x - q * tp.src.y + e.x - tp.ref.x) * (p * tp.src.x - q * tp.src.y + e.x - tp.ref.x)
      + (q * tp.src.x + p * tp.src.y + e.y - tp.ref.y) * (q * tp.src.x + p * tp.src.y + e.y - tp.ref.y)
  }

  function CentredCost(c: seq<TiePoint>, p: real, q: real, e: Vec2): real {
    if c == [] then 0.0 else CentredCost(c[..|c| - 1], p, q, e) + Centred2(c[|c| - 1], p, q, e)
  }

  /** How far a similarity carries the source centre from the reference centre. */
  function Offset(s: Similarity2D, mp: Vec2, mq: Vec2): Vec2 {
    var a := s.Apply(mp);
    Vec2(a.x - mq.x, a.y - mq.y)
  }

  lemma ResidualCentred(s: Similarity2D, tp: TiePoint, mp: Vec2, mq: Vec2)
    ensures Residual2(s, tp) == Centred2(Shift(tp, mp, mq), s.P(), s.Q(), Offset(s, mp, mq))
  {
    var a, b, x, y := s.cosTheta, s.sinTheta, tp.src.x, tp.src.y;
    LinearShift(s.scale, a, b, x, y, mp.x, mp.y);
    LinearShift(s.scale, b, -a, x, y, mp.x, mp.y);
  }

  lemma LinearShift(k: real, a: real, b: real, x: real, y: real, u: real, v: real)
    ensures k * (a * x - b * y) == k * a * (x - u) - k * b * (y - v) + k * (a * u - b * v)
  {
  }

  lemma {:induction false} CostCentred(s: Similarity2D, pts: seq<TiePoint>, mp: Vec2, mq: Vec2)
    ensures Cost(s, pts) == CentredCost(Centred(pts, mp, mq), s.P(), s.Q(), Offset(s, mp, mq))
  {
    hide Residual2, Centred2, Shift, Similarity2D.P, Similarity2D.Q, Offset;
    if pts != [] {
      var k := |pts| - 1;
      CostCentred(s, pts[..k], mp, mq);
      assert Centred(pts, mp, mq)[..k] == Centred(pts[..k], mp, mq);
      ResidualCentred(s, pts[k], mp, mq);
    }
  }

  /** What a change (P, Q, e) of the parameters moves a centred pair by, squared. */
  function Move(tp: TiePoint, P: real, Q: real, e: Vec2): real {
    (P * tp.src.x - Q * tp.src.y + e.x) * (P * tp.src.x - Q * tp.src.y + e.x)
      + (Q * tp.src.x + P * tp.src.y + e.y) * (Q * tp.src.x + P * tp.src.y + e.y)
  }

  function MoveTotal(c: seq<TiePoint>, P: real, Q: real, e: Vec2): real {
    if c == [] then 0.0 else MoveTotal(c[..|c| - 1], P, Q, e) + Move(c[|c| - 1], P, Q, e)
  }

  function SumSquares(x: real, y: real): real {
    x * x + y * y
  }

  const ORIGIN := Vec2(0.0, 0.0)

  lemma SquareOfSum(r: real, d: real)
    ensures (r + d) * (r + d) == r * r + 2.0 * (r * d) + d * d
  {
  }

  lemma MoveStep(tp: TiePoint, p: real, q: real, p': real, q': real, e: Vec2)
    ensures Centred2(tp, p', q', e)
         == Centred2(tp, p, q, ORIGIN) + 2.0 * Cross(tp, p, q, p' - p, q' - q, e) + Move(tp, p' - p, q' - q, e)
  {
    var x, y, u, v := tp.src.x, tp.src.y, tp.ref.x, tp.ref.y;
    var P, Q := p' - p, q' - q;
    SquareOfSum(p * x - q * y - u, P * x - Q * y + e.x);
    SquareOfSum(q * x + p * y - v, Q * x + P * y + e.y);
    assert p' * x - q' * y + e.x - u == (p * x - q * y - u) + (P * x - Q * y + e.x);
    assert q' * x + p' * y + e.y - v == (q * x + p * y - v) + (Q * x + P * y + e.y);
  }

  lemma {:induction false} CostMoves(c: seq<TiePoint>, p: real, q: real, p': real, q': real, e: Vec2)
    ensures CentredCost(c, p', q', e)
         == CentredCost(c, p, q, ORIGIN) + 2.0 * CrossTotal(c, p, q, p' - p, q' - q, e)
           + MoveTotal(c, p' - p, q' - q, e)
  {
    hide Centred2, Cross, Move;
    if c != [] {
      CostMoves(c[..|c| - 1], p, q, p', q', e);
      MoveStep(c[|c| - 1], p, q, p', q', e);
    }
  }

  function MoveFormula(m: Moments, n: nat, P: real, Q: real, e: Vec2): real {
    SumSquares(P, Q) * m.spread + Times(n, SumSquares(e.x, e.y))
      + 2.0 * e.x * (P * m.px + -Q * m.py) + 2.0 * e.y * (Q * m.px + P * m.py)
  }

  lemma MoveFormulaStep(m: Moments, n: nat, tp: TiePoint, P: real, Q: real, e: Vec2)
    ensures MoveFormula(AddMoments(m, tp), n + 1, P, Q, e) == MoveFormula(m, n, P, Q, e) + Move(tp, P, Q, e)
  {
    MoveExpanded(tp, P, Q, e);
    hide Times, SumSquares, Move, Dot, Wedge;
    var x, y, k := tp.src.x, tp.src.y, SumSquares(P, Q);
    TimesNext(n, SumSquares(e.x, e.y));
    TermAdds(k, m.spread, Dot(tp.src, tp.src));
    CornerAdds(2.0 * e.x, P, -Q, m.px, m.py, x, y);
    CornerAdds(2.0 * e.y, Q, P, m.px, m.py, x, y);
  }

  lemma TermAdds(k: real, a: real, b: real)
    ensures k * (a + b) == k * a + k * b
  {
  }

  lemma CornerAdds(k: real, a: real, b: real, u: real, v: real, x: real, y: real)
    ensures k * (a * (u + x) + b * (v + y)) == k * (a * u + b * v) + k * (a * x + b * y)
  {
    TermAdds(a, u, x);
    TermAdds(b, v, y);
    TermAdds(k, a * u + b * v, a * x + b * y);
  }

  lemma MoveExpanded(tp: TiePoint, P: real, Q: real, e: Vec2)
    ensures Move(tp, P, Q, e) == SumSquares(P, Q) * Dot(tp.src, tp.src) + SumSquares(e.x, e.y)
      + 2.0 * e.x * (P * tp.src.x + -Q * tp.src.y) + 2.0 * e.y * (Q * tp.src.x + P * tp.src.y)
  {
    MoveAlgebra(tp.src.x, tp.src.y, P, Q, e.x, e.y);
  }

  lemma MoveAlgebra(x: real, y: real, P: real, Q: real, e: real, f: real)
    ensures (P * x - Q * y + e) * (P * x - Q * y + e) + (Q * x + P * y + f) * (Q * x + P * y + f)
         == (P * P + Q * Q) * (x * x + y * y) + (e * e + f * f)
          + 2.0 * e * (P * x + -Q * y) + 2.0 * f * (Q * x + P * y)
  {
  }

  lemma {:induction false} MoveIsFormula(c: seq<TiePoint>, P: real, Q: real, e: Vec2)
    ensures MoveTotal(c, P, Q, e) == MoveFormula(MomentsOf(c), |c|, P, Q, e)
  {
    hide Move, MoveFormula, AddMoments;
    if c == [] {
      MoveNone(P, Q, e);
    } else {
      MoveIsFormula(c[..|c| - 1], P, Q, e);
      MoveFormulaStep(MomentsOf(c[..|c| - 1]), |c| - 1, c[|c| - 1], P, Q, e);
    }
  }

  lemma MoveNone(P: real, Q: real, e: Vec2)
    ensures MoveFormula(Moments(0.0, 0.0, 0.0, 0.0, 0.0, 0.0, 0.0), 0, P, Q, e) == 0.0
  {
    TimesNext(0, SumSquares(e.x, e.y));
    hide Times, SumSquares;
  }

  /** (p, q) solves the normal equations of the centred moments m. */
  predicate Normal(m: Moments, p: real, q: real) {
    p * m.spread == m.dot && q * m.spread == m.wedge
  }

  predicate Balanced(m: Moments) {
    m.px == 0.0 && m.py == 0.0 && m.qx == 0.0 && m.qy == 0.0
  }

  /** At a solution of the normal equations every other similarity costs more by exactly its
      parameter distance, weighted with the spread, plus its squared offset at the centroid. */
  lemma ExcessCost(pts: seq<TiePoint>, best: Similarity2D, s: Similarity2D)
    requires pts != []
    requires Normal(MomentsOf(CentredPoints(pts)), best.P(), best.Q())
    requires Offset(best, MeanSrc(pts), MeanRef(pts)) == ORIGIN
    ensures var P, Q, e := s.P() - best.P(), s.Q() - best.Q(), Offset(s, MeanSrc(pts), MeanRef(pts));
      Cost(s, pts) == Cost(best, pts) + SumSquares(P, Q) * MomentsOf(CentredPoints(pts)).spread
        + Times(|pts|, SumSquares(e.x, e.y))
  {
    hide MomentsOf, Offset, Similarity2D.P, Similarity2D.Q, MeanSrc, MeanRef, Times, Centred, SumSquares,
      CrossFormula, MoveFormula, Normal, CentredCost, CrossTotal, MoveTotal, Cost;
    var c, mp, mq := CentredPoints(pts), MeanSrc(pts), MeanRef(pts);
    var p, q := best.P(), best.Q();
    var P, Q, e := s.P() - p, s.Q() - q, Offset(s, mp, mq);
    CostCentred(best, pts, mp, mq);
    CostCentred(s, pts, mp, mq);
    CostMoves(c, p, q, s.P(), s.Q(), e);
    CrossIsFormula(c, p, q, P, Q, e);
    MoveIsFormula(c, P, Q, e);
    CentredVanish(pts);
    FormulasBalanced(MomentsOf(c), |c|, p, q, P, Q, e);
  }

  lemma FormulasBalanced(m: Moments, n: nat, p: real, q: real, P: real, Q: real, e: Vec2)
    requires Balanced(m) && Normal(m, p, q)
    ensures CrossFormula(m, p, q, P, Q, e) == 0.0
    ensures MoveFormula(m, n, P, Q, e) == SumSquares(P, Q) * m.spread + Times(n, SumSquares(e.x, e.y))
  {
    assert m == Moments(0.0, 0.0, 0.0, 0.0, m.spread, m.dot, m.wedge);
    BalancedMove(m.spread, m.dot, m.wedge, n, P, Q, e);
    BalancedCross(m.spread, m.dot, m.wedge, p, q, P, Q, e);
  }

  lemma BalancedMove(spread: real, dot: real, wedge: real, n: nat, P: real, Q: real, e: Vec2)
    ensures MoveFormula(Moments(0.0, 0.0, 0.0, 0.0, spread, dot, wedge), n, P, Q, e)
         == SumSquares(P, Q) * spread + Times(n, SumSquares(e.x, e.y))
  {
    hide Times, SumSquares;
  }

  lemma BalancedCross(spread: real, dot: real, wedge: real, p: real, q: real, P: real, Q: real, e: Vec2)
    requires p * spread == dot && q * spread == wedge
    ensures CrossFormula(Moments(0.0, 0.0, 0.0, 0.0, spread, dot, wedge), p, q, P, Q, e) == 0.0
  {
  }

  lemma {:induction false} SpreadPositive(c: seq<TiePoint>)
    ensures var m := MomentsOf(c); m.spread >= 0.0 && (m.spread == 0.0 ==> m.dot == 0.0 && m.wedge == 0.0)
  {
    hide Dot, Wedge;
    if c != [] {
      SpreadPositive(c[..|c| - 1]);
      OnePoint(c[|c| - 1]);
    }
  }

  lemma OnePoint(tp: TiePoint)
    ensures Dot(tp.src, tp.src) >= 0.0
    ensures Dot(tp.src, tp.src) == 0.0 ==> Dot(tp.ref, tp.src) == 0.0 && Wedge(tp.ref, tp.src) == 0.0
  {
    SumSquaresZero(tp.src.x, tp.src.y);
    AtOrigin(tp.ref);
    assert Dot(tp.src, tp.src) == SumSquares(tp.src.x, tp.src.y);
    hide SumSquares, Dot, Wedge;
    if Dot(tp.src, tp.src) == 0.0 {
      assert tp.src == ORIGIN;
    }
  }

  lemma PositiveSum(x: real, y: real)
    ensures x != 0.0 ==> SumSquares(x, y) > 0.0
    ensures y != 0.0 ==> SumSquares(x, y) > 0.0
  {
    assert SumSquares(x, y) == Sq(x) + Sq(y);
    hide SumSquares, Sq;
    SqSign(x);
    SqSign(y);
  }

  /** A sum of two squares is positive unless both are zero. */
  lemma SumSquaresZero(x: real, y: real)
    ensures SumSquares(x, y) > 0.0 || (x == 0.0 && y == 0.0 && SumSquares(x, y) == 0.0)
  {
    hide SumSquares;
    PositiveSum(x, y);
    NothingSquared();
  }

  lemma NothingSquared()
    ensures SumSquares(0.0, 0.0) == 0.0
  {
  }

  lemma AtOrigin(q: Vec2)
    ensures Dot(q, ORIGIN) == 0.0 && Wedge(q, ORIGIN) == 0.0
  {
  }

  /** The estimate is the least-squares optimum over every similarity. */
  ghost predicate IsOptimal(s: Similarity2D, pts: seq<TiePoint>) {
    forall other: Similarity2D :: Cost(s, pts) <= Cost(other, pts)
  }

  lemma FitOffset(pts: seq<TiePoint>, polar: (real, real) -> Polar)
    requires pts != []
    ensures Offset(Umeyama(pts, polar), MeanSrc(pts), MeanRef(pts)) == ORIGIN
  {
    hide MeanSrc, MeanRef, MomentsOf;
  }

  /** The closed form solves the normal equations exactly when the spread is above its
      threshold or the polar radius happens to equal the spread. */
  lemma FitNormal(pts: seq<TiePoint>, polar: (real, real) -> Polar)
    requires pts != [] && IsPolar(polar)
    ensures var m := MomentsOf(CentredPoints(pts)); var u := Umeyama(pts, polar);
      Normal(m, u.P(), u.Q()) <==> m.spread > SPREAD || polar(m.dot, m.wedge).radius == m.spread
  {
    hide MeanSrc, MeanRef, MomentsOf;
    var m := MomentsOf(CentredPoints(pts));
    var z := polar(m.dot, m.wedge);
    assert IsPolarOf(z, m.dot, m.wedge);
    if m.spread > SPREAD {
      ScaledBack(z.radius, m.spread, z.cosine);
      ScaledBack(z.radius, m.spread, z.sine);
    } else {
      UnitVector(z.radius, m.spread, z.cosine, z.sine);
    }
  }

  lemma ScaledBack(r: real, n: real, c: real)
    requires n != 0.0
    ensures r / n * c * n == r * c
  {
    assert r / n * n == r;
    assert r / n * c * n == r / n * n * c;
  }

  lemma UnitVector(r: real, n: real, c: real, s: real)
    requires c * c + s * s == 1.0
    ensures 1.0 * c * n == r * c && 1.0 * s * n == r * s <==> r == n
  {
    if c * n == r * c && s * n == r * s {
      assert n * (c * c + s * s) == r * (c * c + s * s);
    }
  }

  /** Above the spread threshold umeyama is the global minimiser. */
  lemma FitIsOptimal(pts: seq<TiePoint>, polar: (real, real) -> Polar)
    requires pts != [] && IsPolar(polar)
    requires MomentsOf(CentredPoints(pts)).spread > SPREAD
    ensures IsOptimal(Umeyama(pts, polar), pts)
  {
    FitNormal(pts, polar);
    NormalIsOptimal(pts, Umeyama(pts, polar)) by { FitOffset(pts, polar); }
  }

  lemma NormalIsOptimal(pts: seq<TiePoint>, best: Similarity2D)
    requires pts != []
    requires Normal(MomentsOf(CentredPoints(pts)), best.P(), best.Q())
    requires Offset(best, MeanSrc(pts), MeanRef(pts)) == ORIGIN
    ensures IsOptimal(best, pts)
  {
    hide *;
    forall s: Similarity2D
      ensures Cost(best, pts) <= Cost(s, pts)
    {
      ExcessCost(pts, best, s);
      var P, Q, e := s.P() - best.P(), s.Q() - best.Q(), Offset(s, MeanSrc(pts), MeanRef(pts));
      SpreadPositive(CentredPoints(pts));
      TermsNonNegative(P, Q, MomentsOf(CentredPoints(pts)).spread, |pts|, e.x, e.y);
    }
    assert IsOptimal(best, pts) by { OptimalIf(best, pts); }
  }

  lemma OptimalIf(best: Similarity2D, pts: seq<TiePoint>)
    requires forall s: Similarity2D :: Cost(best, pts) <= Cost(s, pts)
    ensures IsOptimal(best, pts)
  {
  }

  lemma TermsNonNegative(P: real, Q: real, m: real, n: nat, e: real, f: real)
    requires m >= 0.0
    ensures SumSquares(P, Q) * m >= 0.0 && Times(n, SumSquares(e, f)) >= 0.0
  {
    SquareNonNegative(P);
    SquareNonNegative(Q);
    SquareNonNegative(e);
    SquareNonNegative(f);
    ProductNonNegative(SumSquares(P, Q), m);
    ProductNonNegative(n as real, SumSquares(e, f));
  }

  // ----- exactness -----

  lemma NoExcess(P: real, Q: real, m: real, t: real)
    requires m > 0.0 && t >= 0.0 && SumSquares(P, Q) * m + t <= 0.0
    ensures P == 0.0 && Q == 0.0 && t == 0.0
  {
    hide SumSquares;
    SumSquaresZero(P, Q);
    var k := SumSquares(P, Q);
    if k > 0.0 {
      PositiveProduct(k, m);
    } else {
      assert 0.0 * m == 0.0;
    }
  }

  /** The similarity with the given linear part that maps one centroid onto the other. */
  function Through(p: real, q: real, mp: Vec2, mq: Vec2): Similarity2D {
    Similarity2D(1.0, p, q, Vec2(mq.x - (p * mp.x - q * mp.y), mq.y - (q * mp.x + p * mp.y)))
  }

  lemma ThroughFacts(p: real, q: real, mp: Vec2, mq: Vec2)
    ensures var s := Through(p, q, mp, mq); s.P() == p && s.Q() == q && Offset(s, mp, mq) == ORIGIN
  {
  }

  lemma SolutionExists(m: Moments)
    requires m.spread != 0.0
    ensures Normal(m, m.dot / m.spread, m.wedge / m.spread)
  {
    QuotientBack(m.dot, m.spread);
    QuotientBack(m.wedge, m.spread);
  }

  /** A centroid-preserving optimum solves the normal equations. */
  lemma OptimalIsNormal(pts: seq<TiePoint>, best: Similarity2D)
    requires pts != [] && IsOptimal(best, pts)
    requires Offset(best, MeanSrc(pts), MeanRef(pts)) == ORIGIN
    ensures Normal(MomentsOf(CentredPoints(pts)), best.P(), best.Q())
  {
    hide CentredPoints, MeanSrc, MeanRef, MomentsOf, Cost, Offset, SumSquares, Times, Similarity2D.P,
      Similarity2D.Q, Through;
    var m, mp, mq := MomentsOf(CentredPoints(pts)), MeanSrc(pts), MeanRef(pts);
    SpreadPositive(CentredPoints(pts));
    if m.spread == 0.0 {
      NormalOfNothing(m, best.P(), best.Q());
    } else {
      var p, q := m.dot / m.spread, m.wedge / m.spread;
      var s := Through(p, q, mp, mq);
      SolutionExists(m);
      ThroughFacts(p, q, mp, mq);
      ExcessCost(pts, s, best);
      assert Cost(best, pts) <= Cost(s, pts);
      NothingAtOrigin(|pts|);
      NoExcess(best.P() - p, best.Q() - q, m.spread, 0.0);
    }
  }

  lemma NormalOfNothing(m: Moments, p: real, q: real)
    requires m.spread == 0.0 && m.dot == 0.0 && m.wedge == 0.0
    ensures Normal(m, p, q)
  {
    assert p * 0.0 == 0.0 && q * 0.0 == 0.0;
  }

  lemma NothingAtOrigin(n: nat)
    ensures Times(n, SumSquares(ORIGIN.x, ORIGIN.y)) == 0.0
  {
  }

  /** umeyama is the least-squares optimum exactly when the spread is above 1e-20 or the
      length of (dot, wedge) equals the spread, which covers coincident source points. */
  lemma FitOptimalExactly(pts: seq<TiePoint>, polar: (real, real) -> Polar)
    requires pts != [] && IsPolar(polar)
    ensures var m := MomentsOf(CentredPoints(pts));
      IsOptimal(Umeyama(pts, polar), pts)
      <==> m.spread > 0.00000000000000000001 || polar(m.dot, m.wedge).radius == m.spread
  {
    hide IsOptimal, Umeyama, IsPolar, Normal, MomentsOf, Offset, MeanSrc, MeanRef, CentredPoints;
    var u := Umeyama(pts, polar);
    FitNormal(pts, polar);
    FitOffset(pts, polar);
    if Normal(MomentsOf(CentredPoints(pts)), u.P(), u.Q()) {
      NormalIsOptimal(pts, u);
    }
    if IsOptimal(u, pts) {
      OptimalIsNormal(pts, u);
    }
  }

  lemma {:induction false} ExactCost(s: Similarity2D, pts: seq<TiePoint>)
    requires forall i :: 0 <= i < |pts| ==> s.Apply(pts[i].src) == pts[i].ref
    ensures Cost(s, pts) == 0.0
  {
    hide Similarity2D.Apply, Residual2;
    if pts != [] {
      ExactCost(s, pts[..|pts| - 1]);
      ExactResidual(s, pts[|pts| - 1]);
    }
  }

  lemma ExactResidual(s: Similarity2D, tp: TiePoint)
    requires s.Apply(tp.src) == tp.ref
    ensures Residual2(s, tp) == 0.0
  {
    hide Similarity2D.Apply;
    assert s.Apply(tp.src).x - tp.ref.x == 0.0 && s.Apply(tp.src).y - tp.ref.y == 0.0;
  }

  lemma {:induction false} CostNonNegative(s: Similarity2D, pts: seq<TiePoint>)
    ensures Cost(s, pts) >= 0.0
  {
    hide Residual2;
    if pts != [] {
      CostNonNegative(s, pts[..|pts| - 1]);
      ResidualNonNegative(s, pts[|pts| - 1]);
    }
  }

  lemma ResidualNonNegative(s: Similarity2D, tp: TiePoint)
    ensures Residual2(s, tp) >= 0.0
  {
    hide Similarity2D.Apply;
    SquareNonNegative(s.Apply(tp.src).x - tp.ref.x);
    SquareNonNegative(s.Apply(tp.src).y - tp.ref.y);
  }

  /** Pairs related by an exact similarity give that similarity back. */
  lemma FitRecovers(pts: seq<TiePoint>, exact: Similarity2D, polar: (real, real) -> Polar)
    requires pts != [] && IsPolar(polar)
    requires MomentsOf(CentredPoints(pts)).spread > SPREAD
    requires forall i :: 0 <= i < |pts| ==> exact.Apply(pts[i].src) == pts[i].ref
    ensures var u := Umeyama(pts, polar);
      u.P() == exact.P() && u.Q() == exact.Q() && u.t == exact.t
  {
    hide Umeyama, IsPolar, Normal, MomentsOf, MeanSrc, MeanRef, CentredPoints, Similarity2D.Apply, Cost, SumSquares,
      Times, Similarity2D.P, Similarity2D.Q, Offset;
    var u := Umeyama(pts, polar);
    var m := MomentsOf(CentredPoints(pts));
    FitNormal(pts, polar);
    FitOffset(pts, polar);
    ExcessCost(pts, u, exact);
    ExactCost(exact, pts);
    CostNonNegative(u, pts);
    var P, Q, e := exact.P() - u.P(), exact.Q() - u.Q(), Offset(exact, MeanSrc(pts), MeanRef(pts));
    TermsNonNegative(P, Q, m.spread, |pts|, e.x, e.y);
    NoExcess(P, Q, m.spread, Times(|pts|, SumSquares(e.x, e.y)));
    NoOffset(|pts|, e);
    SameTranslation(u, exact, MeanSrc(pts), MeanRef(pts));
  }

  lemma NoOffset(n: nat, e: Vec2)
    requires n > 0 && Times(n, SumSquares(e.x, e.y)) == 0.0
    ensures e == ORIGIN
  {
    hide SumSquares;
    SumSquaresZero(e.x, e.y);
    if SumSquares(e.x, e.y) > 0.0 {
      PositiveProduct(n as real, SumSquares(e.x, e.y));
    }
  }

  lemma SameTranslation(a: Similarity2D, b: Similarity2D, mp: Vec2, mq: Vec2)
    requires a.P() == b.P() && a.Q() == b.Q() && Offset(a, mp, mq) == Offset(b, mp, mq)
    ensures a.t == b.t
  {
    LinearPart(a, mp);
    LinearPart(b, mp);
  }

  lemma LinearPart(s: Similarity2D, p: Vec2)
    ensures s.Apply(p) == Vec2(s.P() * p.x - s.Q() * p.y + s.t.x, s.Q() * p.x + s.P() * p.y + s.t.y)
  {
  }

  // ----- ransac -----

  function Residual(s: Similarity2D, tp: TiePoint, sqrt: real -> real): real {
    sqrt(Residual2(s, tp))
  }

  /** The image of the source point lies within the distance d of the reference point. */
  predicate Within(s: Similarity2D, tp: TiePoint, d: real) {
    var q := s.Apply(tp.src);
    d > 0.0 && (q.x - tp.ref.x) * (q.x - tp.ref.x) + (q.y - tp.ref.y) * (q.y - tp.ref.y) < d * d
  }

  lemma ResidualExactly(s: Similarity2D, tp: TiePoint, sqrt: real -> real, d: real)
    requires IsSqrt(sqrt)
    ensures Residual(s, tp, sqrt) < d <==> Within(s, tp, d)
  {
    hide Similarity2D.Apply;
    ResidualNonNegative(s, tp);
    RootOrder(sqrt(Residual2(s, tp)), Residual2(s, tp), d);
  }

  lemma RootOrder(v: real, x: real, d: real)
    requires v >= 0.0 && v * v == x
    ensures v < d <==> d > 0.0 && x < d * d
  {
    if v < d {
      SquareLess(v, d);
    } else if d > 0.0 && d < v {
      SquareLess(d, v);
    }
  }

  /** The pairs whose mark is set, in order. */
  function Picked(pts: seq<TiePoint>, mask: seq<bool>): seq<TiePoint>
    requires |pts| == |mask|
  {
    if pts == [] then []
    else
      var n := |pts| - 1;
      if mask[n] then Picked(pts[..n], mask[..n]) + [pts[n]] else Picked(pts[..n], mask[..n])
  }

  lemma {:induction false} InliersPicked(s: Similarity2D, pts: seq<TiePoint>, threshold: real, sqrt: real -> real,
      mask: seq<bool>)
    requires |mask| == |pts| && forall i :: 0 <= i < |pts| ==> (mask[i] <==> Residual(s, pts[i], sqrt) < threshold)
    ensures Inliers(s, pts, threshold, sqrt) == Picked(pts, mask)
  {
    hide Residual;
    if pts != [] {
      InliersPicked(s, pts[..|pts| - 1], threshold, sqrt, mask[..|pts| - 1]);
    }
  }

  /** How many pairs a similarity maps to within the distance d. */
  function Support(s: Similarity2D, pts: seq<TiePoint>, d: real): nat {
    |set i | 0 <= i < |pts| && Within(s, pts[i], d)|
  }

  lemma {:induction false} InliersCounted(s: Similarity2D, pts: seq<TiePoint>, d: real, sqrt: real -> real)
    requires IsSqrt(sqrt)
    ensures |Inliers(s, pts, d, sqrt)| == Support(s, pts, d)
  {
    hide Residual, Within, IsSqrt;
    var all := set i | 0 <= i < |pts| && Within(s, pts[i], d);
    if pts == [] {
      assert all == {};
    } else {
      var n := |pts| - 1;
      var front := set i | 0 <= i < n && Within(s, pts[..n][i], d);
      InliersCounted(s, pts[..n], d, sqrt);
      ResidualExactly(s, pts[n], sqrt, d);
      assert all == if Within(s, pts[n], d) then front + {n} else front;
    }
  }

  /** The pairs a similarity explains to within the threshold, in order. */
  function Inliers(s: Similarity2D, pts: seq<TiePoint>, threshold: real, sqrt: real -> real): (r: seq<TiePoint>)
    ensures |r| <= |pts|
  {
    if pts == [] then []
    else
      var n := |pts| - 1;
      var r := Inliers(s, pts[..n], threshold, sqrt);
      if Residual(s, pts[n], sqrt) < threshold then r + [pts[n]] else r
  }

  method CountInliers(s: Similarity2D, pts: seq<TiePoint>, threshold: real, sqrt: real -> real) returns (cnt: nat)
    ensures cnt == |Inliers(s, pts, threshold, sqrt)|
  {
    hide Residual;
    cnt := 0;
    for i := 0 to |pts|
      invariant cnt == |Inliers(s, pts[..i], threshold, sqrt)|
    {
      assert pts[..i + 1][..i] == pts[..i];
      if Residual(s, pts[i], sqrt) < threshold {
        cnt := cnt + 1;
      }
    }
    assert pts[..|pts|] == pts;
  }

  /** `sim` is the first of the candidates with the most inliers, `count` of them, or the
      identity while none has any. */
  ghost predicate Leading(sim: Similarity2D, count: nat, tried: seq<Similarity2D>, pts: seq<TiePoint>,
      threshold: real, sqrt: real -> real, at: nat)
  {
    && (forall k :: 0 <= k < |tried| ==> |Inliers(tried[k], pts, threshold, sqrt)| <= count)
    && if count == 0 then sim == IDENTITY else
         && at < |tried| && sim == tried[at] && count == |Inliers(sim, pts, threshold, sqrt)|
         && forall k :: 0 <= k < at ==> |Inliers(tried[k], pts, threshold, sqrt)| < count
  }

  lemma LeadingNext(sim: Similarity2D, count: nat, tried: seq<Similarity2D>, pts: seq<TiePoint>,
      threshold: real, sqrt: real -> real, at: nat, fit: Similarity2D, cnt: nat)
    requires Leading(sim, count, tried, pts, threshold, sqrt, at) && cnt == |Inliers(fit, pts, threshold, sqrt)|
    ensures cnt > count ==> Leading(fit, cnt, tried + [fit], pts, threshold, sqrt, |tried|)
    ensures cnt <= count ==> Leading(sim, count, tried + [fit], pts, threshold, sqrt, at)
  {
    hide Inliers;
  }

  lemma LeadingStart(pts: seq<TiePoint>, threshold: real, sqrt: real -> real)
    ensures Leading(IDENTITY, 0, [], pts, threshold, sqrt, 0)
  {
  }

  /** The sampling loop; the random draws are arbitrary pairs of distinct indices. */
  method TryPairs(pts: seq<TiePoint>, threshold: real, maxIter: nat, polar: (real, real) -> Polar, sqrt: real -> real)
    returns (sim: Similarity2D, bestInliers: nat, ghost tried: seq<Similarity2D>, ghost at: nat)
    requires |pts| >= 2
    ensures |tried| == maxIter && forall k :: 0 <= k < maxIter ==> IsTwoPointFit(tried[k], pts, polar)
    ensures Leading(sim, bestInliers, tried, pts, threshold, sqrt, at)
  {
    hide Umeyama, Inliers, Leading;
    sim, bestInliers, tried, at := IDENTITY, 0, [], 0;
    LeadingStart(pts, threshold, sqrt);
    for it := 0 to maxIter
      invariant |tried| == it && forall k :: 0 <= k < it ==> IsTwoPointFit(tried[k], pts, polar)
      invariant Leading(sim, bestInliers, tried, pts, threshold, sqrt, at)
    {
      var i: nat :| i < |pts|;
      var j: nat :| j < |pts| && j != i by { assert (if i == 0 then 1 else 0) < |pts|; }
      var fit := ComputeUmeyama([pts[i], pts[j]], polar);
      assert IsTwoPointFit(fit.sim, pts, polar);
      var cnt := CountInliers(fit.sim, pts, threshold, sqrt);
      LeadingNext(sim, bestInliers, tried, pts, threshold, sqrt, at, fit.sim, cnt);
      tried := tried + [fit.sim];
      if cnt > bestInliers {
        sim, bestInliers, at := fit.sim, cnt, it;
      }
    }
  }

  /** ransac: the best of maxIter two-point fits, then a refit on everything it explains. */
  method Ransac(pts: seq<TiePoint>, threshold: real, maxIter: nat, polar: (real, real) -> Polar, sqrt: real -> real)
    returns (result: Similarity2D, mask: seq<bool>, ghost best: Similarity2D, ghost tried: seq<Similarity2D>)
    ensures |mask| == |pts|
    ensures |pts| < 2 ==> result == IDENTITY && forall i :: 0 <= i < |pts| ==> !mask[i]
    ensures |pts| >= 2 ==>
      && |tried| == maxIter
      && (forall k :: 0 <= k < maxIter ==> IsTwoPointFit(tried[k], pts, polar))
      && (forall k :: 0 <= k < maxIter ==>
            |Inliers(tried[k], pts, threshold, sqrt)| <= |Inliers(best, pts, threshold, sqrt)|)
      && (best == IDENTITY || best in tried)
      && (forall i :: 0 <= i < |pts| ==> (mask[i] <==> Residual(best, pts[i], sqrt) < threshold))
      && Picked(pts, mask) == Inliers(best, pts, threshold, sqrt)
      && result == Refit(best, Picked(pts, mask), polar)
    ensures IsSqrt(sqrt) && |pts| >= 2 ==>
      && (forall i :: 0 <= i < |pts| ==> (mask[i] <==> Within(best, pts[i], threshold)))
      && FirstBest(best, tried, pts, threshold)
  {
    hide Residual, Umeyama, Inliers, Within, IsSqrt, Picked, FirstBest, Leading;
    mask := seq(|pts|, _ => false);
    best, tried := IDENTITY, [];
    if |pts| < 2 {
      return IDENTITY, mask, best, tried;
    }
    var sim, count;
    ghost var at;
    sim, count, tried, at := TryPairs(pts, threshold, maxIter, polar, sqrt);
    best := sim;
    LeadingCounts(sim, count, tried, pts, threshold, sqrt, at);
    var inliers;
    inliers, mask := Explain(sim, pts, threshold, sqrt);
    result := sim;
    if |inliers| >= 2 {
      var fit := ComputeUmeyama(inliers, polar);
      result := fit.sim;
    }
    InliersPicked(sim, pts, threshold, sqrt, mask);
    if IsSqrt(sqrt) {
      MaskExactly(best, pts, threshold, sqrt, mask);
      LeadingIsFirst(sim, count, tried, pts, threshold, sqrt, at);
    }
  }

  lemma LeadingCounts(sim: Similarity2D, count: nat, tried: seq<Similarity2D>, pts: seq<TiePoint>,
      threshold: real, sqrt: real -> real, at: nat)
    requires Leading(sim, count, tried, pts, threshold, sqrt, at)
    ensures forall k :: 0 <= k < |tried| ==>
      |Inliers(tried[k], pts, threshold, sqrt)| <= |Inliers(sim, pts, threshold, sqrt)|
    ensures sim == IDENTITY || sim in tried
  {
    hide Inliers;
  }

  lemma LeadingIsFirst(sim: Similarity2D, count: nat, tried: seq<Similarity2D>, pts: seq<TiePoint>,
      threshold: real, sqrt: real -> real, at: nat)
    requires Leading(sim, count, tried, pts, threshold, sqrt, at) && IsSqrt(sqrt)
    ensures FirstBest(sim, tried, pts, threshold)
  {
    hide Inliers, IsSqrt, Support;
    forall k | 0 <= k < |tried|
      ensures |Inliers(tried[k], pts, threshold, sqrt)| == Support(tried[k], pts, threshold)
    {
      InliersCounted(tried[k], pts, threshold, sqrt);
    }
    assert count > 0 ==> IsFirstBest(sim, tried, pts, threshold, at);
  }

  lemma MaskExactly(s: Similarity2D, pts: seq<TiePoint>, threshold: real, sqrt: real -> real, mask: seq<bool>)
    requires IsSqrt(sqrt) && |mask| == |pts|
    requires forall i :: 0 <= i < |pts| ==> (mask[i] <==> Residual(s, pts[i], sqrt) < threshold)
    ensures forall i :: 0 <= i < |pts| ==> (mask[i] <==> Within(s, pts[i], threshold))
  {
    hide Residual, Within, IsSqrt;
    forall i | 0 <= i < |pts|
      ensures mask[i] <==> Within(s, pts[i], threshold)
    {
      ResidualExactly(s, pts[i], sqrt, threshold);
    }
  }

  /** `best` is the first of the candidates with the most pairs mapped to within the distance,
      or the identity when no candidate has any. */
  ghost predicate FirstBest(best: Similarity2D, tried: seq<Similarity2D>, pts: seq<TiePoint>, d: real) {
    || (best == IDENTITY && forall j :: 0 <= j < |tried| ==> Support(tried[j], pts, d) == 0)
    || exists k :: 0 <= k < |tried| && IsFirstBest(best, tried, pts, d, k)
  }

  ghost predicate IsFirstBest(best: Similarity2D, tried: seq<Similarity2D>, pts: seq<TiePoint>, d: real, k: nat)
    requires k < |tried|
  {
    && best == tried[k] && Support(best, pts, d) > 0
    && (forall j :: 0 <= j < |tried| ==> Support(tried[j], pts, d) <= Support(best, pts, d))
    && (forall j :: 0 <= j < k ==> Support(tried[j], pts, d) < Support(best, pts, d))
  }

  /** A candidate is umeyama of two pairs at distinct positions. */
  ghost predicate IsTwoPointFit(s: Similarity2D, pts: seq<TiePoint>, polar: (real, real) -> Polar) {
    exists i, j :: 0 <= i < |pts| && 0 <= j < |pts| && i != j && s == Umeyama([pts[i], pts[j]], polar)
  }

  function Refit(s: Similarity2D, inliers: seq<TiePoint>, polar: (real, real) -> Polar): Similarity2D {
    if |inliers| >= 2 then Umeyama(inliers, polar) else s
  }

  method Explain(s: Similarity2D, pts: seq<TiePoint>, threshold: real, sqrt: real -> real)
    returns (inliers: seq<TiePoint>, mask: seq<bool>)
    ensures inliers == Inliers(s, pts, threshold, sqrt) && |mask| == |pts|
    ensures forall i :: 0 <= i < |pts| ==> (mask[i] <==> Residual(s, pts[i], sqrt) < threshold)
  {
    hide Residual;
    inliers, mask := [], [];
    for i := 0 to |pts|
      invariant inliers == Inliers(s, pts[..i], threshold, sqrt) && |mask| == i
      invariant forall k :: 0 <= k < i ==> (mask[k] <==> Residual(s, pts[k], sqrt) < threshold)
    {
      assert pts[..i + 1][..i] == pts[..i];
      var hit := Residual(s, pts[i], sqrt) < threshold;
      if hit {
        inliers := inliers + [pts[i]];
      }
      mask := mask + [hit];
    }
    assert pts[..|pts|] == pts;
  }

  /** The refit raises the squared error of no candidate on the inlier set it is fitted to,
      exactly when there are too few inliers to refit, or their centred spread is above the
      threshold, or the length of (dot, wedge) equals the spread. */
  lemma RefitNeverWorseExactly(inliers: seq<TiePoint>, polar: (real, real) -> Polar)
    requires IsPolar(polar)
    ensures NeverWorse(inliers, polar) <==>
      |inliers| < 2 || var m := MomentsOf(CentredPoints(inliers));
        m.spread > 0.00000000000000000001 || polar(m.dot, m.wedge).radius == m.spread
  {
    if |inliers| >= 2 {
      FitOptimalExactly(inliers, polar);
      hide *;
      NeverWorseIsOptimal(inliers, polar);
    } else {
      hide *;
      KeepsWhenFew(inliers, polar);
    }
  }

  lemma KeepsWhenFew(inliers: seq<TiePoint>, polar: (real, real) -> Polar)
    requires |inliers| < 2
    ensures NeverWorse(inliers, polar)
  {
    hide Cost, Umeyama;
  }

  lemma NeverWorseIsOptimal(inliers: seq<TiePoint>, polar: (real, real) -> Polar)
    requires |inliers| >= 2
    ensures NeverWorse(inliers, polar) <==> IsOptimal(Umeyama(inliers, polar), inliers)
  {
    hide Cost, Umeyama;
    var u := Umeyama(inliers, polar);
    if NeverWorse(inliers, polar) {
      forall other: Similarity2D
        ensures Cost(u, inliers) <= Cost(other, inliers)
      {
        assert Refit(other, inliers, polar) == u;
      }
    }
  }

  ghost predicate NeverWorse(inliers: seq<TiePoint>, polar: (real, real) -> Polar) {
    forall best: Similarity2D :: Cost(Refit(best, inliers, polar), inliers) <= Cost(best, inliers)
  }

  function Distance2(a: Vec2, b: Vec2): real {
    SumSquares(a.x - b.x, a.y - b.y)
  }

  /** The squared distances of the source points from a centre, summed. */
  function SpreadAbout(pts: seq<TiePoint>, mp: Vec2, mq: Vec2): real {
    MomentsOf(Centred(pts, mp, mq)).spread
  }

  lemma SpreadGrows(pts: seq<TiePoint>, tp: TiePoint, mp: Vec2, mq: Vec2)
    ensures SpreadAbout(pts + [tp], mp, mq) == SpreadAbout(pts, mp, mq) + Distance2(tp.src, mp)
    ensures SpreadAbout([], mp, mq) == 0.0
  {
    hide MomentsOf, Wedge;
    var c := Centred(pts + [tp], mp, mq);
    assert c[..|pts|] == Centred(pts, mp, mq);
    MomentsStep(c, |pts|);
    assert c[..|pts| + 1] == c;
    MomentsNone([]);
    assert Centred([], mp, mq)[..0] == Centred([], mp, mq) == [];
  }

  lemma DistanceNonNegative(a: Vec2, b: Vec2)
    ensures Distance2(a, b) >= 0.0
  {
    hide SumSquares;
    SumSquaresZero(a.x - b.x, a.y - b.y);
  }

  /** The inliers are at least as spread as any one or two of them. */
  lemma {:induction false} InlierSpread(s: Similarity2D, pts: seq<TiePoint>, threshold: real, sqrt: real -> real,
      mp: Vec2, mq: Vec2, i: nat, j: nat)
    requires i < |pts| && Residual(s, pts[i], sqrt) < threshold
    requires j < |pts| && Residual(s, pts[j], sqrt) < threshold
    ensures var r := Inliers(s, pts, threshold, sqrt);
      && SpreadAbout(r, mp, mq) >= Distance2(pts[i].src, mp)
      && (i < j ==> |r| >= 2 && SpreadAbout(r, mp, mq) >= Distance2(pts[i].src, mp) + Distance2(pts[j].src, mp))
    ensures |Inliers(s, pts, threshold, sqrt)| >= 1
  {
    hide Residual, SpreadAbout, Distance2;
    var n := |pts| - 1;
    var r := Inliers(s, pts[..n], threshold, sqrt);
    SpreadGrows(r, pts[n], mp, mq);
    DistanceNonNegative(pts[n].src, mp);
    SpreadNonNegative(r, mp, mq);
    if j < n && i < n {
      InlierSpread(s, pts[..n], threshold, sqrt, mp, mq, i, j);
    } else if i < n {
      InlierSpread(s, pts[..n], threshold, sqrt, mp, mq, i, i);
    }
  }

  lemma SpreadNonNegative(pts: seq<TiePoint>, mp: Vec2, mq: Vec2)
    ensures SpreadAbout(pts, mp, mq) >= 0.0
  {
    hide MomentsOf;
    SpreadPositive(Centred(pts, mp, mq));
  }

  lemma HalfApart(a: real, b: real, m: real)
    ensures 2.0 * ((a - m) * (a - m) + (b - m) * (b - m)) >= (a - b) * (a - b)
  {
    SquareNonNegative(a + b - 2.0 * m);
    assert 2.0 * ((a - m) * (a - m) + (b - m) * (b - m))
        == (a - b) * (a - b) + (a + b - 2.0 * m) * (a + b - 2.0 * m);
  }

  lemma PairApart(a: Vec2, b: Vec2, m: Vec2)
    ensures 2.0 * (Distance2(a, m) + Distance2(b, m)) >= Distance2(a, b)
  {
    HalfApart(a.x, b.x, m.x);
    HalfApart(a.y, b.y, m.y);
  }

  lemma PairMean(a: TiePoint, b: TiePoint)
    ensures MeanSrc([a, b]) == Vec2((a.src.x + b.src.x) / 2.0, (a.src.y + b.src.y) / 2.0)
  {
    hide Dot, Wedge;
    MomentsNone([a, b]);
    MomentsStep([a, b], 0);
    MomentsStep([a, b], 1);
    assert [a, b][..2] == [a, b];
  }

  /** Two points are spread by half their squared distance. */
  lemma PairSpread(a: TiePoint, b: TiePoint)
    ensures MomentsOf(CentredPoints([a, b])).spread == Distance2(a.src, b.src) / 2.0
  {
    PairMean(a, b);
    hide MomentsOf, MeanSrc, MeanRef, Distance2;
    var mp, mq := MeanSrc([a, b]), MeanRef([a, b]);
    SpreadGrows([], a, mp, mq);
    SpreadGrows([a], b, mp, mq);
    assert [] + [a] == [a] && [a] + [b] == [a, b];
    AboutMiddle(a.src, b.src, mp);
  }

  lemma AboutMiddle(a: Vec2, b: Vec2, m: Vec2)
    requires m == Vec2((a.x + b.x) / 2.0, (a.y + b.y) / 2.0)
    ensures Distance2(a, m) + Distance2(b, m) == Distance2(a, b) / 2.0
  {
    HalfSquare(a.x, b.x);
    HalfSquare(a.y, b.y);
  }

  lemma HalfSquare(a: real, b: real)
    ensures var m := (a + b) / 2.0; (a - m) * (a - m) + (b - m) * (b - m) == (a - b) * (a - b) / 2.0
  {
  }

  /** Some similarity maps two pairs with distinct source points exactly. */
  lemma ThroughBoth(a: TiePoint, b: TiePoint) returns (s: Similarity2D)
    requires Distance2(a.src, b.src) != 0.0
    ensures s.Apply(a.src) == a.ref && s.Apply(b.src) == b.ref
  {
    var x, y, u, v := b.src.x - a.src.x, b.src.y - a.src.y, b.ref.x - a.ref.x, b.ref.y - a.ref.y;
    var n := x * x + y * y;
    assert n == Distance2(a.src, b.src);
    var p, q := (u * x + v * y) / n, (v * x - u * y) / n;
    s := Through(p, q, a.src, a.ref);
    hide Distance2;
    QuotientTurns(x, y, u, v, n);
    ThroughLinear(p, q, a.src, a.ref, a.src);
    ThroughLinear(p, q, a.src, a.ref, b.src);
    assert p * 0.0 == 0.0 && q * 0.0 == 0.0;
  }

  lemma QuotientTurns(x: real, y: real, u: real, v: real, n: real)
    requires n == x * x + y * y && n != 0.0
    ensures var p, q := (u * x + v * y) / n, (v * x - u * y) / n; p * x - q * y == u && q * x + p * y == v
  {
    var p, q := (u * x + v * y) / n, (v * x - u * y) / n;
    QuotientBack(u * x + v * y, n);
    QuotientBack(v * x - u * y, n);
    TurnBack(x, y, u, v, p, q, n);
  }

  lemma TurnBack(x: real, y: real, u: real, v: real, p: real, q: real, n: real)
    requires n == x * x + y * y && n != 0.0 && n * p == u * x + v * y && n * q == v * x - u * y
    ensures p * x - q * y == u && q * x + p * y == v
  {
    assert n * (p * x - q * y) == (n * p) * x - (n * q) * y;
    assert n * (q * x + p * y) == (n * q) * x + (n * p) * y;
    assert (u * x + v * y) * x - (v * x - u * y) * y == u * (x * x + y * y);
    assert (v * x - u * y) * x + (u * x + v * y) * y == v * (x * x + y * y);
    SameFactor(n, p * x - q * y, u);
    SameFactor(n, q * x + p * y, v);
  }

  lemma ThroughLinear(p: real, q: real, mp: Vec2, mq: Vec2, a: Vec2)
    ensures var r := Through(p, q, mp, mq).Apply(a);
      && r.x == p * (a.x - mp.x) - q * (a.y - mp.y) + mq.x
      && r.y == q * (a.x - mp.x) + p * (a.y - mp.y) + mq.y
  {
  }

  /** A two-point fit with spread above the threshold explains both its pairs exactly. */
  lemma PairFitExact(a: TiePoint, b: TiePoint, polar: (real, real) -> Polar)
    requires IsPolar(polar) && MomentsOf(CentredPoints([a, b])).spread > SPREAD
    ensures var u := Umeyama([a, b], polar); Residual2(u, a) == 0.0 && Residual2(u, b) == 0.0
  {
    PairSpread(a, b);
    hide MomentsOf, IsPolar, Distance2, Umeyama, Residual2, Similarity2D.Apply, CentredPoints;
    var u := Umeyama([a, b], polar);
    var exact := ThroughBoth(a, b);
    FitIsOptimal([a, b], polar);
    ExactCost(exact, [a, b]);
    assert Cost(u, [a, b]) <= Cost(exact, [a, b]);
    ResidualNonNegative(u, a);
    ResidualNonNegative(u, b);
    CostOfPair(u, a, b);
  }

  lemma CostOfPair(s: Similarity2D, a: TiePoint, b: TiePoint)
    ensures Cost(s, [a, b]) == Residual2(s, a) + Residual2(s, b)
  {
    hide Residual2;
    assert [a, b][..1] == [a] && [a][..0] == [];
    assert Cost(s, [a]) == Residual2(s, a);
  }

  /** When the winning pair's own spread is above the threshold, both its pairs are inliers,
      so the inliers are spread above it too and the refit lowers the error or keeps it. */
  lemma RunRefitNeverWorse(pts: seq<TiePoint>, i: nat, j: nat, threshold: real, polar: (real, real) -> Polar,
      sqrt: real -> real)
    requires IsPolar(polar) && IsSqrt(sqrt) && threshold > 0.0 && i < |pts| && j < |pts| && i != j
    requires MomentsOf(CentredPoints([pts[i], pts[j]])).spread > SPREAD
    ensures var best := Umeyama([pts[i], pts[j]], polar); var r := Inliers(best, pts, threshold, sqrt);
      && Residual(best, pts[i], sqrt) < threshold && Residual(best, pts[j], sqrt) < threshold
      && |r| >= 2 && MomentsOf(CentredPoints(r)).spread >= MomentsOf(CentredPoints([pts[i], pts[j]])).spread
      && IsOptimal(Refit(best, r, polar), r)
      && Cost(Refit(best, r, polar), r) <= Cost(best, r)
  {
    PairFitExact(pts[i], pts[j], polar);
    RootOfZero(sqrt);
    hide MomentsOf, IsPolar, IsSqrt, Distance2, Umeyama, Residual2, Inliers;
    PairSpread(pts[i], pts[j]);
    var best := Umeyama([pts[i], pts[j]], polar);
    var r := Inliers(best, pts, threshold, sqrt);
    var first, second := if i < j then i else j, if i < j then j else i;
    InlierSpread(best, pts, threshold, sqrt, ORIGIN, ORIGIN, first, second);
    var mp, mq := MeanSrc(r), MeanRef(r);
    InlierSpread(best, pts, threshold, sqrt, mp, mq, first, second);
    PairApart(pts[i].src, pts[j].src, mp);
    FitIsOptimal(r, polar);
  }

  lemma RootOfZero(sqrt: real -> real)
    requires IsSqrt(sqrt)
    ensures sqrt(0.0) == 0.0
  {
    ZeroRoot(sqrt(0.0));
  }

  lemma ZeroRoot(v: real)
    requires v >= 0.0 && v * v == 0.0
    ensures v == 0.0
  {
    SqSign(v);
    assert Sq(v) == v * v;
  }

  // ----- the warp -----

  datatype GeoTransform = GeoTransform(g0: real, g1: real, g2: real, g3: real, g4: real, g5: real) {
    /** Map coordinates of pixel position (col, row). */
    function At(col: real, row: real): Vec2 {
      Vec2(g0 + g1 * col + g2 * row, g3 + g4 * col + g5 * row)
    }
  }

  /** The geotransform applyWarp attaches to the source. */
  function Compose(sim: Similarity2D, gt: GeoTransform): GeoTransform {
    var co, si, sc := sim.cosTheta, sim.sinTheta, sim.scale;
    GeoTransform(
      sc * (co * gt.g0 - si * gt.g3) + sim.t.x,
      sc * (co * gt.g1 - si * gt.g4),
      sc * (co * gt.g2 - si * gt.g5),
      sc * (si * gt.g0 + co * gt.g3) + sim.t.y,
      sc * (si * gt.g1 + co * gt.g4),
      sc * (si * gt.g2 + co * gt.g5))
  }

  /** Every pixel lands where the similarity takes its old map position. */
  lemma ComposeAt(sim: Similarity2D, gt: GeoTransform, col: real, row: real)
    ensures Compose(sim, gt).At(col, row) == sim.Apply(gt.At(col, row))
  {
    ComposeX(sim, gt, col, row);
    ComposeY(sim, gt, col, row);
  }

  lemma ComposeX(sim: Similarity2D, gt: GeoTransform, col: real, row: real)
    ensures Compose(sim, gt).At(col, row).x == sim.Apply(gt.At(col, row)).x
  {
    var co, si, g := sim.cosTheta, sim.sinTheta, gt.At(col, row);
    Combine(co, -si, gt.g0, gt.g1, gt.g2, gt.g3, gt.g4, gt.g5, col, row);
    Spread(sim.scale, co * g.x - si * g.y, co * gt.g0 - si * gt.g3, co * gt.g1 - si * gt.g4,
      co * gt.g2 - si * gt.g5, col, row);
  }

  lemma ComposeY(sim: Similarity2D, gt: GeoTransform, col: real, row: real)
    ensures Compose(sim, gt).At(col, row).y == sim.Apply(gt.At(col, row)).y
  {
    var co, si, g := sim.cosTheta, sim.sinTheta, gt.At(col, row);
    Combine(si, co, gt.g0, gt.g1, gt.g2, gt.g3, gt.g4, gt.g5, col, row);
    Spread(sim.scale, si * g.x + co * g.y, si * gt.g0 + co * gt.g3, si * gt.g1 + co * gt.g4, si * gt.g2
      + co * gt.g5, col, row);
  }

  lemma Combine(a: real, b: real, x: real, x1: real, x2: real, y: real, y1: real, y2: real, col: real, row: real)
    ensures a * (x + x1 * col + x2 * row) + b * (y + y1 * col + y2 * row)
         == (a * x + b * y) + (a * x1 + b * y1) * col + (a * x2 + b * y2) * row
  {
  }

  lemma Spread(k: real, q: real, p: real, p1: real, p2: real, col: real, row: real)
    requires q == p + p1 * col + p2 * row
    ensures k * q == k * p + k * p1 * col + k * p2 * row
  {
  }
}
