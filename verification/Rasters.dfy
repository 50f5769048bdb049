/** Row-major scalar rasters and plain sums over them. */
module Rasters {
  import opened Arithmetic

  /** A scalar raster in row-major order. */
  datatype RasterGrid = RasterGrid(data: seq<real>, width: nat, height: nat) {
    predicate Valid() {
      |data| == width * height
    }
  }

  function Sum(s: seq<real>): real {
    if s == [] then 0.0 else Sum(s[..|s| - 1]) + s[|s| - 1]
  }

  function Mean(s: seq<real>): real {
    if s == [] then 0.0 else Sum(s) / |s| as real
  }

  method MeanOf(v: seq<real>) returns (m: real)
    ensures m == Mean(v)
  {
    if v == [] {
      return 0.0;
    }
    var s := 0.0;
    for i := 0 to |v|
      invariant s == Sum(v[..i])
    {
      assert v[..i + 1][..i] == v[..i];
      s := s + v[i];
    }
    assert v[..|v|] == v;
    m := s / |v| as real;
  }

  lemma PixelBound(g: RasterGrid, r: nat, c: nat)
    requires g.Valid() && r < g.height && c < g.width
    ensures r * g.width + c < |g.data|
  {
    MulMonotone(r + 1, g.height, g.width);
  }

  function Pixel(g: RasterGrid, r: nat, c: nat): real
    requires g.Valid() && r < g.height && c < g.width
  {
    PixelBound(g, r, c);
    g.data[r * g.width + c]
  }

  lemma {:induction false} SumFront(x: seq<real>)
    requires x != []
    ensures Sum(x) == x[0] + Sum(x[1..])
  {
    if |x| > 1 {
      var y := x[..|x| - 1];
      SumFront(y);
      assert y[1..] == x[1..][..|x| - 2];
    }
  }

  lemma {:induction false} SumAppend(x: seq<real>, y: seq<real>)
    ensures Sum(x + y) == Sum(x) + Sum(y)
  {
    if y == [] {
      assert x + y == x;
    } else {
      SumAppend(x, y[..|y| - 1]);
      assert (x + y)[..|x + y| - 1] == x + y[..|y| - 1];
    }
  }

  lemma LineBound(w: nat, h: nat, r: nat)
    requires r < h
    ensures r * w <= (r + 1) * w <= h * w
  {
    MulMonotone(r + 1, h, w);
  }
}
