/** Patch selection by texture and template matching by normalized cross-correlation. */
module PatchMatching {
  import opened Arithmetic
  import opened Rasters
  import opened SummedAreaTables
  import opened Statistics

  // ----- square windows -----

  predicate Fits(w: nat, len: nat, r: nat, c: nat, s: nat) {
    c + s <= w && (r + s) * w <= len
  }

  /** Where sample t of the window at (r, c) lies in a raster of width w. */
  function Spot(w: nat, r: nat, c: nat, s: nat, t: nat): nat
    requires s > 0
  {
    (r + t / s) * w + (c + t % s)
  }

  lemma WindowIndex(w: nat, len: nat, r: nat, c: nat, s: nat, t: nat)
    requires Fits(w, len, r, c, s) && t < s * s
    ensures s > 0 && t / s < s && t % s < s && t == t / s * s + t % s
    ensures Spot(w, r, c, s, t) < len
  {
    LineAndColumn(s, t);
    SpotInside(w, len, r, c, s, t / s, t % s);
  }

  /** Sample t of an s x s window lies in line t / s, column t % s. */
  lemma LineAndColumn(s: nat, t: nat)
    requires t < s * s
    ensures s > 0 && t / s < s && t % s < s && t == t / s * s + t % s
  {
    DivMod(t, s);
    BelowSquare(t / s, s, t % s);
  }

  lemma BelowSquare(i: nat, s: nat, j: nat)
    requires i * s + j < s * s
    ensures i < s
  {
    if i >= s {
      MulMonotone(s, i, s);
    }
  }

  lemma SpotInside(w: nat, len: nat, r: nat, c: nat, s: nat, i: nat, j: nat)
    requires c + s <= w && (r + s) * w <= len && i < s && j < s
    ensures (r + i) * w + (c + j) < len
  {
    MulMonotone(r + i + 1, r + s, w);
    assert (r + i + 1) * w == (r + i) * w + w;
  }

  /** The s x s window with top-left corner (r, c), line by line. */
  function Window(data: seq<real>, w: nat, r: nat, c: nat, s: nat): (x: seq<real>)
    requires Fits(w, |data|, r, c, s)
    ensures |x| == s * s
  {
    seq(s * s, t requires 0 <= t < s * s => WindowCell(data, w, r, c, s, t))
  }

  function WindowCell(data: seq<real>, w: nat, r: nat, c: nat, s: nat, t: nat): real
    requires Fits(w, |data|, r, c, s) && t < s * s
  {
    WindowIndex(w, |data|, r, c, s, t);
    data[Spot(w, r, c, s, t)]
  }

  lemma WindowAt(data: seq<real>, w: nat, r: nat, c: nat, s: nat, i: nat, j: nat)
    requires Fits(w, |data|, r, c, s) && i < s && j < s
    ensures i * s + j < s * s && (r + i) * w + (c + j) < |data|
    ensures Window(data, w, r, c, s)[i * s + j] == data[(r + i) * w + (c + j)]
  {
    MulMonotone(i + 1, s, s);
    Quotient(i * s + j, s, i);
    MulMonotone(r + i + 1, r + s, w);
  }

  /** The same in row-major positions. */
  lemma WindowFlat(data: seq<real>, w: nat, r: nat, c: nat, s: nat, i: nat, j: nat)
    requires Fits(w, |data|, r, c, s) && i < s && j < s
    ensures Flat(s, i, j) < |Window(data, w, r, c, s)| && Flat(w, r + i, c + j) < |data|
    ensures Window(data, w, r, c, s)[Flat(s, i, j)] == data[Flat(w, r + i, c + j)]
  {
    hide Window, Fits;
    WindowAt(data, w, r, c, s, i, j);
  }

  lemma WindowLines(w: nat, len: nat, r: nat, c: nat, s: nat, m: nat)
    requires Fits(w, len, r, c, s) && m <= s
    ensures (r + m) * w <= len && m * s <= s * s
    ensures m < s ==> (r + m + 1) * w <= len && m * s + s <= s * s
  {
    MulMonotone(r + m, r + s, w);
    MulMonotone(m, s, s);
    if m < s {
      MulMonotone(r + m + 1, r + s, w);
      MulMonotone(m + 1, s, s);
    }
  }

  /** The first m lines and k samples of a window sum to a rectangle plus a part of a line. */
  lemma {:induction false} WindowPrefixSum(data: seq<real>, w: nat, r: nat, c: nat, s: nat, m: nat, k: nat)
    requires Fits(w, |data|, r, c, s) && m < s && k <= s
    ensures (r + m + 1) * w <= |data| && m * s + k <= s * s && (r + m) * w <= |data|
    ensures Sum(Window(data, w, r, c, s)[..m * s + k])
         == RectSum(data, w, r, c, r + m, c + s) + RowSum(data, w, r + m, c, c + k)
    decreases m, k
  {
    WindowLines(w, |data|, r, c, s, m);
    var x := Window(data, w, r, c, s);
    if k > 0 {
      WindowPrefixSum(data, w, r, c, s, m, k - 1);
      WindowAt(data, w, r, c, s, m, k - 1);
      assert x[..m * s + k][..m * s + k - 1] == x[..m * s + k - 1];
    } else if m > 0 {
      WindowPrefixSum(data, w, r, c, s, m - 1, s);
      assert (m - 1) * s + s == m * s;
    } else {
      assert m * s + k == 0;
    }
  }

  /** A box sum over the window's rectangle is the sum of the window. */
  lemma WindowSum(data: seq<real>, w: nat, r: nat, c: nat, s: nat)
    requires Fits(w, |data|, r, c, s) && s > 0
    ensures RectSum(data, w, r, c, r + s, c + s) == Sum(Window(data, w, r, c, s))
  {
    WindowPrefixSum(data, w, r, c, s, s - 1, s);
    assert (s - 1) * s + s == s * s;
    var x := Window(data, w, r, c, s);
    assert x[..s * s] == x;
  }

  lemma WindowSquares(data: seq<real>, w: nat, r: nat, c: nat, s: nat)
    requires Fits(w, |data|, r, c, s)
    ensures Squares(Window(data, w, r, c, s)) == Window(Squares(data), w, r, c, s)
  {
    hide WindowCell, Squares, Fits;
    var x, y := Window(data, w, r, c, s), Window(Squares(data), w, r, c, s);
    forall t | 0 <= t < s * s
      ensures Squares(x)[t] == y[t]
    {
      SquareAt(x, t);
      WindowCellSquare(data, w, r, c, s, t);
    }
  }

  lemma WindowCellSquare(data: seq<real>, w: nat, r: nat, c: nat, s: nat, t: nat)
    requires Fits(w, |data|, r, c, s) && t < s * s
    ensures WindowCell(Squares(data), w, r, c, s, t)
         == WindowCell(data, w, r, c, s, t) * WindowCell(data, w, r, c, s, t)
  {
    hide Squares, Spot, Fits;
    WindowIndex(w, |data|, r, c, s, t);
    SquareAt(data, Spot(w, r, c, s, t));
  }

  /** Mean and variance of a window, read off the tables. */
  lemma WindowMoments(data: seq<real>, w: nat, r: nat, c: nat, s: nat)
    requires Fits(w, |data|, r, c, s) && s > 0
    ensures |Window(data, w, r, c, s)| > 0
    ensures var x := Window(data, w, r, c, s); var n := (s * s) as real;
      && RectSum(data, w, r, c, r + s, c + s) / n == Mean(x)
      && RectSum(Squares(data), w, r, c, r + s, c + s) / n
         - RectSum(data, w, r, c, r + s, c + s) / n * (RectSum(data, w, r, c, r + s, c + s) / n) == Variance(x)
  {
    hide Window, RectSum, Sum, Squares;
    MulMonotone(1, s, s);
    WindowSum(data, w, r, c, s);
    WindowSum(Squares(data), w, r, c, s);
    WindowSquares(data, w, r, c, s);
  }

  function Max0(x: real): real {
    if x < 0.0 then 0.0 else x
  }

  // ----- selecting patches -----

  datatype PatchCandidate = PatchCandidate(row: nat, col: nat, textureScore: real)

  /** A candidate the raster admits: a full patch away from every border, scored with the
      true variance of its window. */
  predicate Admissible(p: PatchCandidate, g: RasterGrid, s: nat)
    requires g.Valid() && s > 0
  {
    && s <= p.row && s <= p.col
    && p.row + s + s < g.height && p.col + s + s < g.width
    && Fits(g.width, |g.data|, p.row, p.col, s)
    && |Window(g.data, g.width, p.row, p.col, s)| > 0
    && p.textureScore == Variance(Window(g.data, g.width, p.row, p.col, s))
  }

  predicate Descending(s: seq<PatchCandidate>) {
    forall i, j :: 0 <= i < j < |s| ==> s[i].textureScore >= s[j].textureScore
  }

  /** Insertion into a descending list; repeated, it sorts as std::sort is asked to. */
  function Insert(p: PatchCandidate, s: seq<PatchCandidate>): (r: seq<PatchCandidate>)
    ensures |r| == |s| + 1
  {
    if s == [] then [p]
    else if p.textureScore > s[0].textureScore then [p] + s
    else [s[0]] + Insert(p, s[1..])
  }

  lemma {:induction false} InsertKeeps(p: PatchCandidate, s: seq<PatchCandidate>)
    ensures multiset(Insert(p, s)) == multiset(s) + multiset{p}
  {
    if s == [] {
    } else if p.textureScore > s[0].textureScore {
    } else {
      InsertKeeps(p, s[1..]);
      assert s == [s[0]] + s[1..];
    }
  }

  lemma {:induction false} InsertSorts(p: PatchCandidate, s: seq<PatchCandidate>)
    requires Descending(s)
    ensures Descending(Insert(p, s))
    ensures Insert(p, s)[0] == p || (s != [] && Insert(p, s)[0] == s[0])
  {
    if s != [] && !(p.textureScore > s[0].textureScore) {
      InsertSorts(p, s[1..]);
      var t := Insert(p, s[1..]);
      assert t[0].textureScore <= s[0].textureScore;
    }
  }

  method SortByTexture(s: seq<PatchCandidate>) returns (r: seq<PatchCandidate>)
    ensures Descending(r) && multiset(r) == multiset(s) && |r| == |s|
  {
    r := [];
    for i := 0 to |s|
      invariant Descending(r) && multiset(r) == multiset(s[..i]) && |r| == i
    {
      assert s[..i + 1] == s[..i] + [s[i]];
      InsertKeeps(s[i], r);
      InsertSorts(s[i], r);
      r := Insert(s[i], r);
    }
    assert s[..|s|] == s;
  }

  lemma PatchFits(g: RasterGrid, s: nat, r: nat, c: nat)
    requires g.Valid() && r + s <= g.height && c + s <= g.width
    ensures Fits(g.width, |g.data|, r, c, s)
  {
    MulMonotone(r + s, g.height, g.width);
  }

  /** Row or column m is visited by a loop from s upwards in steps of `step`. */
  predicate OnGrid(m: nat, s: nat, step: nat)
    requires step > 0
  {
    m >= s && (m - s) % step == 0
  }

  /** (r, c) is a sampling position: on the grid and a full patch away from every border. */
  predicate Site(g: RasterGrid, s: nat, step: nat, r: nat, c: nat)
    requires step > 0
  {
    OnGrid(r, s, step) && OnGrid(c, s, step) && r + s + s < g.height && c + s + s < g.width
  }

  ghost predicate Has(cands: seq<PatchCandidate>, r: nat, c: nat) {
    exists i :: 0 <= i < |cands| && cands[i].row == r && cands[i].col == c
  }

  predicate Before(p: PatchCandidate, r0: nat, c0: nat) {
    p.row < r0 || (p.row == r0 && p.col < c0)
  }

  /** Row-major order without repetition: no site has two candidates. */
  predicate RowMajor(cands: seq<PatchCandidate>) {
    forall i, j :: 0 <= i < j < |cands| ==> Before(cands[i], cands[j].row, cands[j].col)
  }

  /** The candidates are sites, one each, in row-major order, all before (r0, c0). */
  predicate Gathered(cands: seq<PatchCandidate>, g: RasterGrid, s: nat, step: nat, r0: nat, c0: nat)
    requires step > 0
  {
    && RowMajor(cands)
    && forall p :: p in cands ==> Site(g, s, step, p.row, p.col) && Before(p, r0, c0)
  }

  lemma GatheredNext(cands: seq<PatchCandidate>, p: PatchCandidate, g: RasterGrid, s: nat, step: nat, r: nat, c: nat)
    requires step > 0 && Gathered(cands, g, s, step, r, c)
    requires p.row == r && p.col == c && Site(g, s, step, r, c)
    ensures Gathered(cands + [p], g, s, step, r, c + step)
  {
    hide Site;
    var next := cands + [p];
    forall i, j | 0 <= i < j < |next|
      ensures Before(next[i], next[j].row, next[j].col)
    {
      if j == |cands| {
        assert next[i] in cands;
      }
    }
  }

  lemma GatheredLater(cands: seq<PatchCandidate>, g: RasterGrid, s: nat, step: nat, r: nat, c: nat, r': nat, c': nat)
    requires step > 0 && Gathered(cands, g, s, step, r, c)
    requires r < r' || (r == r' && c <= c')
    ensures Gathered(cands, g, s, step, r', c')
  {
    hide Site;
  }

  lemma GatheredAll(cands: seq<PatchCandidate>, g: RasterGrid, s: nat, step: nat, r: nat)
    requires step > 0 && Gathered(cands, g, s, step, r, 0)
    ensures Gathered(cands, g, s, step, g.height, 0)
  {
  }

  /** Every site above row r0, and left of column c0 in row r0, has a candidate. */
  ghost predicate Covers(cands: seq<PatchCandidate>, g: RasterGrid, s: nat, step: nat, r0: nat, c0: nat)
    requires step > 0
  {
    forall r: nat, c: nat | Site(g, s, step, r, c) :: r < r0 || (r == r0 && c < c0) ==> Has(cands, r, c)
  }

  method ScorePatch(g: RasterGrid, ii: IntegralImages, s: nat, r: nat, c: nat) returns (p: PatchCandidate)
    requires g.Valid() && ii.Valid() && ii.img == g.data && ii.W == g.width && ii.H == g.height && s > 0
    requires s <= r && s <= c && r + s + s < g.height && c + s + s < g.width
    ensures p.row == r && p.col == c && Admissible(p, g, s)
  {
    hide Window, Variance, RectSum, RasterGrid.Valid, Fits;
    var n := s * s;
    PatchFits(g, s, r, c);
    WindowMoments(g.data, g.width, r, c, s);
    var sum := ii.BoxSum(r, c, r + s - 1, c + s - 1);
    var sum2 := ii.BoxSum2(r, c, r + s - 1, c + s - 1);
    p := PatchCandidate(r, c, sum2 / n as real - sum / n as real * (sum / n as real));
  }

  method CollectPatches(g: RasterGrid, ii: IntegralImages, s: nat) returns (cands: seq<PatchCandidate>)
    requires g.Valid() && ii.Valid() && ii.img == g.data && ii.W == g.width && ii.H == g.height && s > 0
    ensures forall p :: p in cands ==> Admissible(p, g, s)
    ensures var step := if s / 2 > 1 then s / 2 else 1;
      Covers(cands, g, s, step, g.height, 0) && Gathered(cands, g, s, step, g.height, 0)
  {
    hide Admissible, Covers, Gathered, RasterGrid.Valid;
    cands := [];
    var step := if s / 2 > 1 then s / 2 else 1;
    var margin := s;
    var r := margin;
    CoversNone(g, s, step);
    while r + s + margin < g.height
      invariant r >= s && (r - s) % step == 0
      invariant forall p :: p in cands ==> Admissible(p, g, s)
      invariant Covers(cands, g, s, step, r, 0)
      invariant Gathered(cands, g, s, step, r, 0)
      decreases g.height - r
    {
      var c := margin;
      CoversMargin(cands, g, s, step, r);
      GatheredLater(cands, g, s, step, r, 0, r, c);
      while c + s + margin < g.width
        invariant c >= s && (c - s) % step == 0
        invariant forall p :: p in cands ==> Admissible(p, g, s)
        invariant Covers(cands, g, s, step, r, c)
        invariant Gathered(cands, g, s, step, r, c)
        decreases g.width - c
      {
        var p := ScorePatch(g, ii, s, r, c);
        CoversNext(cands, p, g, s, step, r, c);
        GatheredNext(cands, p, g, s, step, r, c);
        cands := cands + [p];
        StepOnGrid(c - s, step);
        c := c + step;
      }
      CoversRow(cands, g, s, step, r, c);
      GatheredLater(cands, g, s, step, r, c, r + step, 0);
      StepOnGrid(r - s, step);
      r := r + step;
    }
    CoversAll(cands, g, s, step, r);
    GatheredAll(cands, g, s, step, r);
  }

  lemma StepOnGrid(x: nat, step: nat)
    requires step > 0 && x % step == 0
    ensures (x + step) % step == 0
    ensures forall y :: x < y < x + step ==> y % step != 0
  {
    var q := x / step;
    assert x == q * step;
    Quotient(x + step, step, q + 1);
    forall y | x < y < x + step
      ensures y % step != 0
    {
      Quotient(y, step, q);
    }
  }

  lemma CoversNone(g: RasterGrid, s: nat, step: nat)
    requires step > 0
    ensures Covers([], g, s, step, s, 0) && Gathered([], g, s, step, s, 0)
  {
  }

  lemma CoversMargin(cands: seq<PatchCandidate>, g: RasterGrid, s: nat, step: nat, r: nat)
    requires step > 0 && Covers(cands, g, s, step, r, 0)
    ensures Covers(cands, g, s, step, r, s)
  {
  }

  lemma CoversNext(cands: seq<PatchCandidate>, p: PatchCandidate, g: RasterGrid, s: nat, step: nat, r: nat, c: nat)
    requires step > 0 && OnGrid(c, s, step) && p.row == r && p.col == c
    requires Covers(cands, g, s, step, r, c)
    ensures Covers(cands + [p], g, s, step, r, c + step)
  {
    var next := cands + [p];
    StepOnGrid(c - s, step);
    forall r': nat, c': nat | Site(g, s, step, r', c') && (r' < r || (r' == r && c' < c + step))
      ensures Has(next, r', c')
    {
      if r' == r && c' == c {
        assert next[|cands|] == p;
      } else {
        assert Has(cands, r', c');
        var i :| 0 <= i < |cands| && cands[i].row == r' && cands[i].col == c';
        assert next[i] == cands[i];
      }
    }
  }

  lemma CoversRow(cands: seq<PatchCandidate>, g: RasterGrid, s: nat, step: nat, r: nat, c: nat)
    requires step > 0 && OnGrid(r, s, step) && c + s + s >= g.width && Covers(cands, g, s, step, r, c)
    ensures Covers(cands, g, s, step, r + step, 0)
  {
    StepOnGrid(r - s, step);
    forall r': nat, c': nat | Site(g, s, step, r', c') && r' < r + step
      ensures Has(cands, r', c')
    {
    }
  }

  lemma CoversAll(cands: seq<PatchCandidate>, g: RasterGrid, s: nat, step: nat, r: nat)
    requires step > 0 && r + s + s >= g.height && Covers(cands, g, s, step, r, 0)
    ensures Covers(cands, g, s, step, g.height, 0)
  {
  }

  /** selectPatches: the maxPatches most textured grid positions. */
  method SelectPatches(g: RasterGrid, ii: IntegralImages, s: nat, maxPatches: nat)
    returns (kept: seq<PatchCandidate>, ghost all: seq<PatchCandidate>)
    requires g.Valid() && ii.Valid() && ii.img == g.data && ii.W == g.width && ii.H == g.height && s > 0
    ensures forall p :: p in all ==> Admissible(p, g, s)
    ensures var step := if s / 2 > 1 then s / 2 else 1;
      Covers(all, g, s, step, g.height, 0) && Gathered(all, g, s, step, g.height, 0)
    ensures |kept| == if |all| > maxPatches then maxPatches else |all|
    ensures Descending(kept) && multiset(kept) <= multiset(all)
    ensures forall p, q :: p in kept && q in multiset(all) - multiset(kept) ==> p.textureScore >= q.textureScore
  {
    hide Admissible, Covers, Gathered;
    var cands := CollectPatches(g, ii, s);
    all := cands;
    kept := SortByTexture(cands);
    if |kept| > maxPatches {
      PrefixIsBest(kept, maxPatches);
      kept := kept[..maxPatches];
    }
  }

  lemma PrefixAbove(s: seq<PatchCandidate>, n: nat, p: PatchCandidate, q: PatchCandidate)
    requires Descending(s) && n <= |s| && p in s[..n] && q in s[n..]
    ensures p.textureScore >= q.textureScore
  {
    var i :| 0 <= i < n && s[..n][i] == p;
    var j :| 0 <= j < |s| - n && s[n..][j] == q;
    assert s[i] == p && s[n + j] == q;
  }

  lemma PrefixIsBest(s: seq<PatchCandidate>, n: nat)
    requires Descending(s) && n <= |s|
    ensures Descending(s[..n]) && multiset(s[..n]) <= multiset(s)
    ensures forall p, q :: p in s[..n] && q in multiset(s) - multiset(s[..n]) ==> p.textureScore >= q.textureScore
  {
    assert Descending(s[..n]);
    hide Descending;
    assert s == s[..n] + s[n..];
    assert multiset(s) - multiset(s[..n]) == multiset(s[n..]);
    forall p, q | p in s[..n] && q in multiset(s) - multiset(s[..n])
      ensures p.textureScore >= q.textureScore
    {
      PrefixAbove(s, n, p, q);
    }
  }
}
