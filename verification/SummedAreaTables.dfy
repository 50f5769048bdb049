/** Summed-area tables: rectangle sums in four look-ups. */
module SummedAreaTables {
  import opened Arithmetic
  import opened Rasters

  /** sum of img[r][c] for columns c0 <= c < c1 of line r, in a raster of width w. */
  function RowSum(img: seq<real>, w: nat, r: nat, c0: nat, c1: nat): real
    requires c0 <= c1 <= w && (r + 1) * w <= |img|
    decreases c1
  {
    if c1 == c0 then 0.0 else RowSum(img, w, r, c0, c1 - 1) + img[r * w + (c1 - 1)]
  }

  /** The direct sum over lines r0 <= r < r1 and columns c0 <= c < c1. */
  function RectSum(img: seq<real>, w: nat, r0: nat, c0: nat, r1: nat, c1: nat): real
    requires r0 <= r1 && c0 <= c1 <= w && r1 * w <= |img|
    decreases r1
  {
    if r1 == r0 then 0.0
    else
      MulMonotone(r1 - 1, r1, w);
      RectSum(img, w, r0, c0, r1 - 1, c1) + RowSum(img, w, r1 - 1, c0, c1)
  }

  lemma {:induction false} RowSumSplit(img: seq<real>, w: nat, r: nat, a: nat, b: nat, c: nat)
    requires a <= b <= c <= w && (r + 1) * w <= |img|
    ensures RowSum(img, w, r, a, c) == RowSum(img, w, r, a, b) + RowSum(img, w, r, b, c)
    decreases c
  {
    if b < c {
      RowSumSplit(img, w, r, a, b, c - 1);
    }
  }

  /** Four prefix sums give the sum over any rectangle. */
  lemma {:induction false} FourCorners(img: seq<real>, w: nat, r0: nat, c0: nat, r1: nat, c1: nat)
    requires r0 <= r1 && c0 <= c1 <= w && r1 * w <= |img|
    ensures r0 * w <= |img|
    ensures RectSum(img, w, 0, 0, r1, c1) - RectSum(img, w, 0, 0, r0, c1)
          - RectSum(img, w, 0, 0, r1, c0) + RectSum(img, w, 0, 0, r0, c0)
         == RectSum(img, w, r0, c0, r1, c1)
    decreases r1
  {
    MulMonotone(r0, r1, w);
    if r1 > r0 {
      MulMonotone(r1 - 1, r1, w);
      FourCorners(img, w, r0, c0, r1 - 1, c1);
      RowSumSplit(img, w, r1 - 1, 0, c0, c1);
    }
  }

  function Squares(img: seq<real>): (s: seq<real>)
    ensures |s| == |img|
  {
    seq(|img|, i requires 0 <= i < |img| => img[i] * img[i])
  }

  /** Position of table entry (r, c): the table has one column more than the raster. */
  function Index(w: nat, r: nat, c: nat): nat {
    r * (w + 1) + c
  }

  lemma IndexBound(w: nat, h: nat, r: nat, c: nat)
    requires r <= h && c <= w
    ensures Index(w, r, c) < (h + 1) * (w + 1)
  {
    MulMonotone(r + 1, h + 1, w + 1);
  }

  lemma IndexInjective(w: nat, r: nat, c: nat, r': nat, c': nat)
    requires c <= w && c' <= w
    ensures Index(w, r, c) == Index(w, r', c') <==> r == r' && c == c'
  {
    Quotient(Index(w, r, c), w + 1, r);
    Quotient(Index(w, r', c'), w + 1, r');
  }

  /** Table entry (r, c) holds the sum over the rectangle above and to the left of it. */
  ghost predicate IsEntry(t: seq<real>, img: seq<real>, w: nat, h: nat, r: nat, c: nat)
    requires |img| == h * w && |t| == (h + 1) * (w + 1) && r <= h && c <= w
  {
    IndexBound(w, h, r, c);
    MulMonotone(r, h, w);
    t[Index(w, r, c)] == RectSum(img, w, 0, 0, r, c)
  }

  ghost predicate IsTable(t: seq<real>, img: seq<real>, w: nat, h: nat)
    requires |img| == h * w && |t| == (h + 1) * (w + 1)
  {
    forall r, c :: 0 <= r <= h && 0 <= c <= w ==> IsEntry(t, img, w, h, r, c)
  }

  class IntegralImages {
    var sat: array<real>
    var sat2: array<real>
    var W: nat
    var H: nat
    ghost var img: seq<real>

    ghost predicate Valid()
      reads this, sat, sat2
    {
      && |img| == H * W
      && sat.Length == (H + 1) * (W + 1) && sat2.Length == (H + 1) * (W + 1)
      && IsTable(sat[..], img, W, H) && IsTable(sat2[..], Squares(img), W, H)
    }

    /** Both tables are filled in one sweep over the raster. */
    constructor (img: seq<real>, w: nat, h: nat)
      requires |img| == h * w
      ensures Valid() && this.img == img && W == w && H == h
      ensures fresh(sat) && fresh(sat2)
    {
      this.img, W, H := img, w, h;
      sat := new real[(h + 1) * (w + 1)](i => 0.0);
      sat2 := new real[(h + 1) * (w + 1)](i => 0.0);
      new;
      FillTables(sat, sat2, img, w, h);
    }

    /** boxSum: the rectangle with inclusive corners (r0, c0) and (r1, c1). */
    function BoxSum(r0: nat, c0: nat, r1: int, c1: int): (s: real)
      requires Valid() && r0 <= r1 + 1 <= H && c0 <= c1 + 1 <= W
      reads this, sat, sat2
      ensures (r1 + 1) * W <= |img| && s == RectSum(img, W, r0, c0, r1 + 1, c1 + 1)
    {
      FourLookups(sat[..], img, W, H, r0, c0, r1 + 1, c1 + 1);
      sat[Index(W, r1 + 1, c1 + 1)] - sat[Index(W, r0, c1 + 1)]
        - sat[Index(W, r1 + 1, c0)] + sat[Index(W, r0, c0)]
    }

    function BoxSum2(r0: nat, c0: nat, r1: int, c1: int): (s: real)
      requires Valid() && r0 <= r1 + 1 <= H && c0 <= c1 + 1 <= W
      reads this, sat, sat2
      ensures (r1 + 1) * W <= |img| && s == RectSum(Squares(img), W, r0, c0, r1 + 1, c1 + 1)
    {
      FourLookups(sat2[..], Squares(img), W, H, r0, c0, r1 + 1, c1 + 1);
      sat2[Index(W, r1 + 1, c1 + 1)] - sat2[Index(W, r0, c1 + 1)]
        - sat2[Index(W, r1 + 1, c0)] + sat2[Index(W, r0, c0)]
    }
  }

  lemma FourLookups(t: seq<real>, img: seq<real>, w: nat, h: nat, r0: nat, c0: nat, r1: nat, c1: nat)
    requires |img| == h * w && |t| == (h + 1) * (w + 1) && IsTable(t, img, w, h)
    requires r0 <= r1 <= h && c0 <= c1 <= w
    ensures Index(w, r1, c1) < |t| && Index(w, r0, c1) < |t| && Index(w, r1, c0) < |t| && Index(w, r0, c0) < |t|
    ensures r1 * w <= |img|
    ensures t[Index(w, r1, c1)] - t[Index(w, r0, c1)] - t[Index(w, r1, c0)] + t[Index(w, r0, c0)]
         == RectSum(img, w, r0, c0, r1, c1)
  {
    hide Index, RectSum;
    IndexBound(w, h, r1, c1);
    IndexBound(w, h, r0, c1);
    IndexBound(w, h, r1, c0);
    IndexBound(w, h, r0, c0);
    MulMonotone(r1, h, w);
    FourCorners(img, w, r0, c0, r1, c1);
    assert IsEntry(t, img, w, h, r1, c1) && IsEntry(t, img, w, h, r0, c1);
    assert IsEntry(t, img, w, h, r1, c0) && IsEntry(t, img, w, h, r0, c0);
  }

  // ----- filling the tables -----

  /** Every entry up to line r (and column c of line r) is final; the first line and column
      are zero from the start. */
  ghost predicate Filled(t: seq<real>, img: seq<real>, w: nat, h: nat, r: nat, c: nat)
    requires |img| == h * w && |t| == (h + 1) * (w + 1)
  {
    forall i, j :: 0 <= i <= h && 0 <= j <= w && (i < r || (i == r && j <= c) || j == 0) ==>
      IsEntry(t, img, w, h, i, j)
  }

  lemma {:induction false} EmptyRect(img: seq<real>, w: nat, r: nat, c: nat)
    requires r * w <= |img| && c <= w
    ensures r == 0 || c == 0 ==> RectSum(img, w, 0, 0, r, c) == 0.0
  {
    if r != 0 && c == 0 {
      MulMonotone(r - 1, r, w);
      EmptyRect(img, w, r - 1, c);
    }
  }

  /** The recurrence of the sweep: left + above - corner + sample. */
  lemma Recurrence(img: seq<real>, w: nat, r: nat, c: nat)
    requires (r + 1) * w <= |img| && c < w
    ensures r * w <= |img| && r * w + c < |img|
    ensures RectSum(img, w, 0, 0, r + 1, c + 1)
         == img[r * w + c] + RectSum(img, w, 0, 0, r, c + 1) + RectSum(img, w, 0, 0, r + 1, c)
          - RectSum(img, w, 0, 0, r, c)
  {
    MulMonotone(r, r + 1, w);
  }

  method FillTables(sat: array<real>, sat2: array<real>, img: seq<real>, w: nat, h: nat)
    requires |img| == h * w && sat != sat2
    requires sat.Length == (h + 1) * (w + 1) && sat2.Length == (h + 1) * (w + 1)
    requires forall i :: 0 <= i < sat.Length ==> sat[i] == 0.0 && sat2[i] == 0.0
    modifies sat, sat2
    ensures IsTable(sat[..], img, w, h) && IsTable(sat2[..], Squares(img), w, h)
  {
    hide Index, RectSum, Squares;
    FilledAtStart(sat[..], img, w, h);
    FilledAtStart(sat2[..], Squares(img), w, h);
    for r := 0 to h
      invariant Filled(sat[..], img, w, h, r, w) && Filled(sat2[..], Squares(img), w, h, r, w)
    {
      NextLine(sat[..], img, w, h, r);
      NextLine(sat2[..], Squares(img), w, h, r);
      for c := 0 to w
        invariant Filled(sat[..], img, w, h, r + 1, c) && Filled(sat2[..], Squares(img), w, h, r + 1, c)
      {
        MulMonotone(r + 1, h, w);
        Recurrence(img, w, r, c);
        var v := img[r * w + c];
        Recurrence(Squares(img), w, r, c);
        SquareAt(img, r * w + c);
        FillEntry(sat, img, w, h, r, c, v);
        FillEntry(sat2, Squares(img), w, h, r, c, v * v);
      }
    }
    assert forall r, c :: 0 <= r <= h && 0 <= c <= w ==> IsEntry(sat[..], img, w, h, r, c);
    assert forall r, c :: 0 <= r <= h && 0 <= c <= w ==> IsEntry(sat2[..], Squares(img), w, h, r, c);
  }

  lemma SquareAt(img: seq<real>, i: nat)
    requires i < |img|
    ensures Squares(img)[i] == img[i] * img[i]
  {
  }

  lemma FilledAtStart(t: seq<real>, img: seq<real>, w: nat, h: nat)
    requires |img| == h * w && |t| == (h + 1) * (w + 1) && forall i :: 0 <= i < |t| ==> t[i] == 0.0
    ensures Filled(t, img, w, h, 0, w)
  {
    hide Index, RectSum;
    forall i, j | 0 <= i <= h && 0 <= j <= w && (i < 0 || (i == 0 && j <= w) || j == 0)
      ensures IsEntry(t, img, w, h, i, j)
    {
      IndexBound(w, h, i, j);
      MulMonotone(i, h, w);
      EmptyRect(img, w, i, j);
    }
  }

  lemma NextLine(t: seq<real>, img: seq<real>, w: nat, h: nat, r: nat)
    requires |img| == h * w && |t| == (h + 1) * (w + 1) && Filled(t, img, w, h, r, w)
    ensures Filled(t, img, w, h, r + 1, 0)
  {
    hide IsEntry;
  }

  /** One step of the sweep writes entry (r + 1, c + 1) from its three finished neighbours. */
  method FillEntry(t: array<real>, ghost img: seq<real>, w: nat, ghost h: nat, r: nat, c: nat, v: real)
    requires |img| == h * w && t.Length == (h + 1) * (w + 1) && r < h && c < w
    requires r * w + c < |img| && v == img[r * w + c]
    requires Filled(t[..], img, w, h, r + 1, c)
    modifies t
    ensures Filled(t[..], img, w, h, r + 1, c + 1)
  {
    hide RectSum, Index;
    ghost var t0 := t[..];
    IndexBound(w, h, r + 1, c + 1);
    IndexBound(w, h, r, c + 1);
    IndexBound(w, h, r + 1, c);
    IndexBound(w, h, r, c);
    MulMonotone(r + 1, h, w);
    Recurrence(img, w, r, c);
    assert IsEntry(t0, img, w, h, r, c + 1) && IsEntry(t0, img, w, h, r + 1, c) && IsEntry(t0, img, w, h, r, c);
    t[Index(w, r + 1, c + 1)] := v + t[Index(w, r, c + 1)] + t[Index(w, r + 1, c)] - t[Index(w, r, c)];
    forall i, j | 0 <= i <= h && 0 <= j <= w && (i < r + 1 || (i == r + 1 && j <= c + 1) || j == 0)
      ensures IsEntry(t[..], img, w, h, i, j)
    {
      IndexInjective(w, i, j, r + 1, c + 1);
      IndexBound(w, h, i, j);
      if i != r + 1 || j != c + 1 {
        assert IsEntry(t0, img, w, h, i, j);
      }
    }
  }
}
