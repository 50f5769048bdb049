/** The windowed formula export against the formula applied to the whole image. */
module ExportTiles {

  import opened Arithmetic

  // ----- the tile size -----

  const BUDGET := 67108864

  function Clamp(v: int, low: int, high: int): int {
    if v < low then low else if v > high then high else v
  }

  /** Working set of a tile of side s: bandCount input floats, the result and RGBA bytes, doubled. */
  function TileBytes(bandCount: nat, s: nat): nat {
    s * s * (bandCount * 4 + 4 + 4) * 2
  }

  /** Halved while above 256 and over the budget. */
  function Halved(bandCount: nat, t: nat): nat
    decreases t
  {
    if t > 256 && TileBytes(bandCount, t) > BUDGET then Halved(bandCount, t / 2) else t
  }

  function Rounded(v: int): int {
    Clamp((v + 15) / 16 * 16, 64, 8192)
  }

  function TileSize(blockWidth: int, bandCount: nat, tileSize: int): int {
    Rounded(if tileSize > 0 then Clamp(tileSize, 64, 8192)
            else
              var h := Halved(bandCount, Clamp(if blockWidth > 512 then blockWidth else 512, 256, 1024));
              if h > 256 then h else 256)
  }

  method ComputeExportTileSize(blockWidth: int, bandCount: nat, tileSize: int) returns (result: int)
    ensures result == TileSize(blockWidth, bandCount, tileSize)
  {
    hide TileBytes;
    if tileSize > 0 {
      result := Clamp(tileSize, 64, 8192);
    } else {
      var t := Clamp(if blockWidth > 512 then blockWidth else 512, 256, 1024);
      ghost var start := t;
      while t > 256 && TileBytes(bandCount, t) > BUDGET
        invariant t >= 0 && Halved(bandCount, t) == Halved(bandCount, start)
        decreases t
      {
        t := t / 2;
      }
      result := if t > 256 then t else 256;
    }
    result := (result + 15) / 16 * 16;
    result := Clamp(result, 64, 8192);
  }

  // When the automatic size keeps to the memory budget it is fitted to.

  /** How many times two bands more fit on a tile of side s. */
  function Capacity(s: nat): nat
    requires s > 0
  {
    8388608 / (s * s)
  }

  /** The budget test reads: two more than the number of bands is within the capacity. */
  lemma BudgetIsCapacity(bandCount: nat, s: nat)
    requires s > 0
    ensures TileBytes(bandCount, s) <= BUDGET <==> bandCount + 2 <= Capacity(s)
  {
    hide Capacity;
    var q, c := s * s, Capacity(s);
    SquarePositive(s);
    CapacityDivides(s);
    assert TileBytes(bandCount, s) == 8 * (q * (bandCount + 2)) by {
      BytesBySquare(bandCount, s, q);
    }
    if bandCount + 2 <= c {
      MulMonotone(bandCount + 2, c, q);
    } else {
      MulMonotone(c + 1, bandCount + 2, q);
    }
  }

  lemma SquarePositive(s: nat)
    requires s > 0
    ensures s * s > 0
  {
  }

  lemma CapacityDivides(s: nat)
    requires s > 0
    ensures Capacity(s) * (s * s) <= 8388608 < (Capacity(s) + 1) * (s * s)
  {
    SquarePositive(s);
    DivMod(8388608, s * s);
  }

  lemma BytesBySquare(bandCount: nat, s: nat, q: nat)
    requires q == s * s
    ensures TileBytes(bandCount, s) == 8 * (q * (bandCount + 2))
  {
  }

  lemma CapacityFalls(s: nat, t: nat)
    requires 0 < s <= t
    ensures Capacity(t) <= Capacity(s)
  {
    hide Capacity;
    CapacityDivides(s);
    CapacityDivides(t);
    MulMonotone(s, t, s);
    MulMonotone(s, t, t);
    if Capacity(s) < Capacity(t) {
      MulMonotone(Capacity(s) + 1, Capacity(t), s * s);
      MulMonotone(s * s, t * t, Capacity(t));
    }
  }

  /** Twice the side has less capacity, while any is left. */
  lemma CapacityHalves(s: nat, t: nat)
    requires 0 < 2 * s <= t && Capacity(s) > 0
    ensures Capacity(t) < Capacity(s)
  {
    hide Capacity;
    var c, q := Capacity(s), s * s;
    SquarePositive(s);
    CapacityDivides(s);
    CapacityDivides(2 * s);
    CapacityFalls(2 * s, t);
    assert (2 * s) * (2 * s) == 4 * q;
    assert c * (4 * q) == (4 * c) * q;
    MulMonotone(c + 1, 4 * c, q);
    if Capacity(2 * s) >= c {
      MulMonotone(c, Capacity(2 * s), 4 * q);
    }
  }

  /** The size the halving starts from. */
  function StartSize(blockWidth: int): (t: nat)
    ensures 512 <= t <= 1024
  {
    Clamp(if blockWidth > 512 then blockWidth else 512, 256, 1024)
  }

  /** Rounding a side up to a multiple of 16 costs it no band. */
  predicate RoundsFree(t: nat)
    requires 256 < t <= 1024
  {
    Capacity(Rounded(t)) == Capacity(t)
  }

  /** What a caller can check of the block width alone. */
  predicate BudgetSafe(blockWidth: int) {
    var t := StartSize(blockWidth);
    RoundsFree(t) && (t / 2 > 256 ==> RoundsFree(t / 2))
  }

  predicate KeepsBudget(blockWidth: int, bandCount: nat) {
    var r := TileSize(blockWidth, bandCount, 0);
    r >= 0 && TileBytes(bandCount, r) <= BUDGET
  }

  /** The halving stops at the start, at half of it, or at the floor. */
  lemma HalvedCases(bandCount: nat, t: nat)
    requires 512 <= t <= 1024
    ensures Halved(bandCount, t)
      == if bandCount + 2 <= Capacity(t) then t
         else if t / 2 <= 256 || bandCount + 2 <= Capacity(t / 2) then t / 2
         else t / 4
  {
    hide Capacity, TileBytes, Halved;
    BudgetIsCapacity(bandCount, t);
    BudgetIsCapacity(bandCount, t / 2);
    assert t / 2 / 2 == t / 4 <= 256;
    HalvedStep(bandCount, t);
    HalvedStep(bandCount, t / 2);
    HalvedStep(bandCount, t / 4);
  }

  lemma HalvedStep(bandCount: nat, t: nat)
    ensures Halved(bandCount, t) == if t > 256 && TileBytes(bandCount, t) > BUDGET then Halved(bandCount, t / 2) else t
  {
    hide TileBytes;
  }

  lemma AutomaticSize(blockWidth: int, bandCount: nat)
    ensures var t := StartSize(blockWidth);
      TileSize(blockWidth, bandCount, 0)
      == if bandCount + 2 <= Capacity(t) then Rounded(t)
         else if t / 2 > 256 && bandCount + 2 <= Capacity(t / 2) then Rounded(t / 2)
         else 256
  {
    hide Capacity, Halved;
    HalvedCases(bandCount, StartSize(blockWidth));
  }

  /** The first multiple of 16 from a size on. */
  predicate NextSixteen(r: int, size: int) {
    r % 16 == 0 && size <= r < size + 16
  }

  /** Always a multiple of 16 in [64, 8192]. An explicit request gives the next one from the request,
      brought into [64, 8192]. An automatic size is the next one from the block width, brought into
      [512, 1024], if such a tile, doubled, keeps to 64 MiB; else from half of that, if this is above
      256 and keeps to it; else 256. */
  lemma TileSizeExactly(blockWidth: int, bandCount: nat, tileSize: int)
    ensures var r := TileSize(blockWidth, bandCount, tileSize);
      && 64 <= r <= 8192 && r % 16 == 0
      && (tileSize <= 0 ==> 256 <= r <= 1024)
    ensures tileSize > 0 ==>
      var size := if tileSize < 64 then 64 else if tileSize > 8192 then 8192 else tileSize;
      NextSixteen(TileSize(blockWidth, bandCount, tileSize), size)
    ensures tileSize <= 0 ==>
      var size := if blockWidth < 512 then 512 else if blockWidth > 1024 then 1024 else blockWidth;
      var half := size / 2;
      NextSixteen(TileSize(blockWidth, bandCount, tileSize),
                  if 8 * (bandCount + 2) * (size * size) <= 67108864 then size
                  else if half > 256 && 8 * (bandCount + 2) * (half * half) <= 67108864 then half
                  else 256)
  {
    hide TileSize;
    if tileSize > 0 {
      ExplicitSize(blockWidth, bandCount, tileSize);
    } else {
      AutomaticFit(blockWidth, bandCount, tileSize);
    }
  }

  lemma ExplicitSize(blockWidth: int, bandCount: nat, tileSize: int)
    requires tileSize > 0
    ensures var r := TileSize(blockWidth, bandCount, tileSize);
      64 <= r <= 8192 && NextSixteen(r, if tileSize < 64 then 64 else if tileSize > 8192 then 8192 else tileSize)
  {
    hide Halved;
  }

  lemma AutomaticFit(blockWidth: int, bandCount: nat, tileSize: int)
    requires tileSize <= 0
    ensures var size := if blockWidth < 512 then 512 else if blockWidth > 1024 then 1024 else blockWidth;
      var half := size / 2;
      var r := TileSize(blockWidth, bandCount, tileSize);
      && 256 <= r <= 1024
      && NextSixteen(r, if 8 * (bandCount + 2) * (size * size) <= 67108864 then size
                        else if half > 256 && 8 * (bandCount + 2) * (half * half) <= 67108864 then half
                        else 256)
  {
    var t := StartSize(blockWidth);
    assert TileSize(blockWidth, bandCount, tileSize) == TileSize(blockWidth, bandCount, 0);
    hide Capacity, TileSize, Rounded;
    AutomaticSize(blockWidth, bandCount);
    FitsExactly(bandCount, t);
    FitsExactly(bandCount, t / 2);
    RoundedUp(t);
    if t / 2 > 256 {
      RoundedUp(t / 2);
    }
  }

  lemma FitsExactly(bandCount: nat, s: nat)
    requires s > 0
    ensures 8 * (bandCount + 2) * (s * s) <= 67108864 <==> bandCount + 2 <= Capacity(s)
  {
    hide Capacity;
    BytesBySquare(bandCount, s, s * s);
    BudgetIsCapacity(bandCount, s);
  }

  lemma RoundedUp(t: nat)
    requires 256 < t <= 1024
    ensures NextSixteen(Rounded(t), t) && Rounded(t) <= 1024
  {
  }

  lemma FloorCapacity()
    ensures Capacity(256) == 128
  {
  }

  lemma CapacityRange(t: nat)
    requires 256 < t <= 1024
    ensures 8 <= Capacity(t) <= 128
  {
    hide Capacity;
    CapacityFalls(256, t);
    CapacityFalls(t, 1024);
    FloorCapacity();
    assert Capacity(1024) == 8 by { LeastCapacity(); }
  }

  lemma LeastCapacity()
    ensures Capacity(1024) == 8
  {
  }

  /** More than 126 bands never fit, because of the floor of 256. */
  lemma TooManyBands(blockWidth: int, bandCount: nat)
    requires bandCount > 126
    ensures !KeepsBudget(blockWidth, bandCount)
  {
    hide Capacity, TileSize;
    TileSizeExactly(blockWidth, bandCount, 0);
    var r: nat := TileSize(blockWidth, bandCount, 0);
    BudgetIsCapacity(bandCount, r);
    CapacityFalls(256, r);
    FloorCapacity();
  }

  /** The automatic tile of a block width keeps to the budget for every number of bands that can
      fit at all exactly when rounding the sizes the halving may stop at costs no band. */
  lemma BudgetKeptExactly(blockWidth: int)
    ensures (forall bandCount: nat :: bandCount <= 126 ==> KeepsBudget(blockWidth, bandCount))
      <==> BudgetSafe(blockWidth)
  {
    hide Capacity, TileSize, Rounded;
    if BudgetSafe(blockWidth) {
      forall bandCount: nat | bandCount <= 126
        ensures KeepsBudget(blockWidth, bandCount)
      {
        SafeKeeps(blockWidth, bandCount);
      }
    } else {
      var bandCount := UnsafeBreaks(blockWidth);
    }
  }

  lemma SafeKeeps(blockWidth: int, bandCount: nat)
    requires BudgetSafe(blockWidth) && bandCount <= 126
    ensures KeepsBudget(blockWidth, bandCount)
  {
    hide Capacity, TileSize, Rounded;
    var t := StartSize(blockWidth);
    RoundedUp(t);
    AutomaticSize(blockWidth, bandCount);
    FloorCapacity();
    if t / 2 > 256 {
      RoundedUp(t / 2);
    }
    BudgetIsCapacity(bandCount, TileSize(blockWidth, bandCount, 0));
  }

  /** With an unsafe width the number of bands that just fits before rounding does not after. */
  lemma UnsafeBreaks(blockWidth: int) returns (bandCount: nat)
    requires !BudgetSafe(blockWidth)
    ensures bandCount <= 126 && !KeepsBudget(blockWidth, bandCount)
  {
    hide Capacity, TileSize, Rounded;
    var t := StartSize(blockWidth);
    var stop := if RoundsFree(t) then t / 2 else t;
    RoundedUp(stop);
    CapacityRange(stop);
    CapacityFalls(stop, Rounded(stop));
    if stop != t {
      CapacityHalves(stop, t);
    }
    bandCount := Capacity(stop) - 2;
    AutomaticSize(blockWidth, bandCount);
    BudgetIsCapacity(bandCount, Rounded(stop));
  }

  /** Such a width and number of bands: 350 fits, its multiple of 16 does not. */
  lemma RoundingBreaksBudget()
    ensures TileSize(700, 66, 0) == 352 && TileBytes(66, 350) <= BUDGET
    ensures !KeepsBudget(700, 66) && !BudgetSafe(700)
  {
    assert TileBytes(66, 700) > BUDGET;
    assert Halved(66, 350) == 350;
    assert Halved(66, 700) == Halved(66, 350);
    BudgetKeptExactly(700);
  }

  // ----- windows -----

  /** The source dataset: sample(b, x, y) is what reading band b as float gives at a pixel. */
  datatype Source = Source(width: nat, height: nat, bandCount: nat, sample: (nat, nat, nat) -> real)

  /** All bands of one pixel. */
  function BandsAt(src: Source, x: nat, y: nat): seq<real> {
    seq(src.bandCount, b requires 0 <= b < src.bandCount => src.sample(b, x, y))
  }

  /** `value` is nodata masking and the formula, `color` the colormap with its range; both work
      on one pixel at a time. */
  datatype Rendering = Rendering(value: seq<real> -> real, color: (real, nat) -> int)

  function Pixel(src: Source, r: Rendering, ch: nat, x: nat, y: nat): int {
    r.color(r.value(BandsAt(src, x, y)), ch)
  }

  /** A buffer holding f over the window, row by row. */
  ghost predicate Holds<T>(buffer: seq<T>, w: nat, h: nat, f: (nat, nat) -> T) {
    |buffer| == Flat(w, h, 0) && forall j: nat, i: nat :: j < h && i < w ==> At(buffer, w, j, i, f(i, j))
  }

  ghost predicate At<T>(buffer: seq<T>, w: nat, j: nat, i: nat, v: T) {
    Flat(w, j, i) < |buffer| && buffer[Flat(w, j, i)] == v
  }

  /** The first n pixels of the window. */
  ghost predicate HoldsUpTo<T>(buffer: seq<T>, w: nat, n: nat, f: (nat, nat) -> T) {
    |buffer| == n && forall k :: 0 <= k < n ==> w > 0 && buffer[k] == f(k % w, k / w)
  }

  lemma HoldsAll<T>(buffer: seq<T>, w: nat, h: nat, f: (nat, nat) -> T)
    requires HoldsUpTo(buffer, w, Flat(w, h, 0), f)
    ensures Holds(buffer, w, h, f)
  {
    forall j: nat, i: nat | j < h && i < w
      ensures At(buffer, w, j, i, f(i, j))
    {
      hide Flat;
      FlatBound(h, w, j, i);
      FlatInverse(w, j, i);
    }
  }

  lemma HoldsAt<T>(buffer: seq<T>, w: nat, h: nat, f: (nat, nat) -> T, k: nat)
    requires Holds(buffer, w, h, f) && k < |buffer|
    ensures w > 0 && k / w < h && buffer[k] == f(k % w, k / w)
  {
    hide Flat;
    var j, i := FlatSplit(h, w, k);
    FlatInverse(w, j, i);
    assert At(buffer, w, j, i, f(i, j));
  }

  ghost predicate HoldsBand(buffer: seq<real>, src: Source, b: nat, x0: nat, y0: nat, w: nat, h: nat) {
    Holds(buffer, w, h, (i, j) => src.sample(b, x0 + i, y0 + j))
  }

  method ReadWindow(src: Source, b: nat, x0: nat, y0: nat, w: nat, h: nat) returns (buffer: seq<real>)
    ensures HoldsBand(buffer, src, b, x0, y0, w, h)
  {
    hide Flat, Holds;
    ghost var f := (i: nat, j: nat) => src.sample(b, x0 + i, y0 + j);
    buffer := [];
    FlatStep(w, 0, 0);
    for j := 0 to h
      invariant HoldsUpTo(buffer, w, Flat(w, j, 0), f)
    {
      for i := 0 to w
        invariant HoldsUpTo(buffer, w, Flat(w, j, i), f)
      {
        FlatStep(w, j, i);
        FlatInverse(w, j, i);
        buffer := buffer + [src.sample(b, x0 + i, y0 + j)];
      }
      FlatStep(w, j, 0);
    }
    HoldsAll(buffer, w, h, f);
  }

  /** Every band of the window, one buffer each. */
  method ReadBands(src: Source, x0: nat, y0: nat, w: nat, h: nat) returns (storage: seq<seq<real>>)
    ensures |storage| == src.bandCount
    ensures forall c: nat :: c < src.bandCount ==> HoldsBand(storage[c], src, c, x0, y0, w, h)
  {
    hide HoldsBand;
    storage := [];
    for b := 0 to src.bandCount
      invariant |storage| == b
      invariant forall c: nat :: c < b ==> HoldsBand(storage[c], src, c, x0, y0, w, h)
    {
      var buffer := ReadWindow(src, b, x0, y0, w, h);
      storage := storage + [buffer];
    }
  }

  lemma BandAt(buffer: seq<real>, src: Source, b: nat, x0: nat, y0: nat, w: nat, h: nat, k: nat)
    requires k < Flat(w, h, 0) && HoldsBand(buffer, src, b, x0, y0, w, h)
    ensures w > 0 && k < |buffer| && buffer[k] == src.sample(b, x0 + k % w, y0 + k / w)
  {
    hide Flat, Holds;
    HoldsLength(buffer, w, h, (i, j) => src.sample(b, x0 + i, y0 + j));
    HoldsAt(buffer, w, h, (i, j) => src.sample(b, x0 + i, y0 + j), k);
  }

  lemma StorageAt(src: Source, storage: seq<seq<real>>, x0: nat, y0: nat, w: nat, h: nat, k: nat)
    requires |storage| == src.bandCount && k < Flat(w, h, 0)
    requires forall c: nat :: c < src.bandCount ==> HoldsBand(storage[c], src, c, x0, y0, w, h)
    ensures w > 0 && forall b :: 0 <= b < src.bandCount ==> k < |storage[b]|
    ensures seq(src.bandCount, b requires 0 <= b < src.bandCount => storage[b][k])
      == BandsAt(src, x0 + k % w, y0 + k / w)
  {
    hide Flat, HoldsBand, BandsAt;
    var j, i := FlatSplit(h, w, k);
    var x, y := x0 + k % w, y0 + k / w;
    forall b: nat | b < src.bandCount
      ensures k < |storage[b]| && storage[b][k] == src.sample(b, x, y)
    {
      BandAt(storage[b], src, b, x0, y0, w, h, k);
    }
    Collected(src, storage, k, x, y);
  }

  lemma Collected(src: Source, storage: seq<seq<real>>, k: nat, x: nat, y: nat)
    requires |storage| == src.bandCount
    requires forall b: nat :: b < src.bandCount ==> k < |storage[b]| && storage[b][k] == src.sample(b, x, y)
    ensures seq(src.bandCount, b requires 0 <= b < src.bandCount => storage[b][k]) == BandsAt(src, x, y)
  {
  }

  lemma HoldsLength<T>(buffer: seq<T>, w: nat, h: nat, f: (nat, nat) -> T)
    requires Holds(buffer, w, h, f)
    ensures |buffer| == Flat(w, h, 0)
  {
  }

  lemma HoldsNext<T>(buffer: seq<T>, w: nat, k: nat, f: (nat, nat) -> T, v: T)
    requires HoldsUpTo(buffer, w, k, f) && w > 0 && v == f(k % w, k / w)
    ensures HoldsUpTo(buffer + [v], w, k + 1, f)
  {
  }

  /** Every band of the window, then masking and formula pixel by pixel. */
  method ComputeWindow(src: Source, r: Rendering, x0: nat, y0: nat, w: nat, h: nat) returns (result: seq<real>)
    ensures HoldsValues(result, src, r, x0, y0, w, h)
  {
    hide Flat, Holds, HoldsBand, BandsAt;
    ghost var f := (i: nat, j: nat) => r.value(BandsAt(src, x0 + i, y0 + j));
    var storage := ReadBands(src, x0, y0, w, h);
    result := [];
    var winPix := w * h;
    FlatIs(w, h, 0);
    assert HoldsUpTo(result, w, 0, f);
    hide HoldsUpTo;
    for k := 0 to winPix
      invariant HoldsUpTo(result, w, k, f)
    {
      StorageAt(src, storage, x0, y0, w, h, k);
      var v := r.value(seq(src.bandCount, b requires 0 <= b < src.bandCount => storage[b][k]));
      HoldsNext(result, w, k, f, v);
      result := result + [v];
    }
    HoldsAll(result, w, h, f);
  }

  // ----- the output -----

  /** Cell (x, y) lies in the window. */
  predicate InWindow(x0: nat, y0: nat, w: nat, h: nat, x: nat, y: nat) {
    x0 <= x < x0 + w && y0 <= y < y0 + h
  }

  /** A raster of four channels: what each cell holds, and how often it has been written. */
  datatype Raster = Raster(cell: (nat, nat, nat) -> int, writes: (nat, nat, nat) -> nat)

  function CountAfter(n: nat, written: bool): nat {
    if written then n + 1 else n
  }

  /** After one channel of a window is written from a row-major buffer. */
  function Written(o: Raster, ch: nat, x0: nat, y0: nat, w: nat, h: nat, buffer: seq<int>): Raster {
    Raster((c: nat, x: nat, y: nat) =>
             if c == ch && InWindow(x0, y0, w, h, x, y) && Flat(w, y - y0, x - x0) < |buffer|
             then buffer[Flat(w, y - y0, x - x0)] else o.cell(c, x, y),
           (c: nat, x: nat, y: nat) => CountAfter(o.writes(c, x, y), c == ch && InWindow(x0, y0, w, h, x, y)))
  }

  /** The output dataset. */
  class Output {
    const width: nat
    const height: nat
    var raster: Raster

    constructor (width: nat, height: nat)
      ensures this.width == width && this.height == height
      ensures forall c: nat, x: nat, y: nat :: raster.writes(c, x, y) == 0
    {
      this.width, this.height := width, height;
      raster := Raster((c, x, y) => 0, (c, x, y) => 0);
    }

    method WriteWindow(ch: nat, x0: nat, y0: nat, w: nat, h: nat, buffer: seq<int>)
      requires ch < 4 && x0 + w <= width && y0 + h <= height && |buffer| == Flat(w, h, 0)
      modifies this`raster
      ensures raster == Written(old(raster), ch, x0, y0, w, h, buffer)
    {
      raster := Written(raster, ch, x0, y0, w, h, buffer);
    }
  }

  // ----- the tiles -----

  /** Tile column (or row) of a coordinate. */
  function TileOf(v: nat, t: nat): nat
    requires t > 0
  {
    v / t
  }

  function TileCount(extent: nat, t: nat): nat
    requires t > 0
  {
    (extent + t - 1) / t
  }

  /** Coordinate v lies in tile k exactly when the tile's clipped range contains it. */
  lemma TileRange(extent: nat, t: nat, k: nat, v: nat)
    requires t > 0 && v < extent && k < TileCount(extent, t)
    ensures k * t < extent
    ensures TileOf(v, t) == k <==> k * t <= v < k * t + (if t < extent - k * t then t else extent - k * t)
  {
    DivMod(extent + t - 1, t);
    DivMod(v, t);
    MulMonotone(k + 1, TileCount(extent, t), t);
    if k * t <= v < k * t + t {
      Quotient(v, t, k);
    }
  }

  lemma TileStart(extent: nat, t: nat, k: nat)
    requires t > 0 && k < TileCount(extent, t)
    ensures k * t < extent
  {
    DivMod(extent + t - 1, t);
    MulMonotone(k + 1, TileCount(extent, t), t);
  }

  lemma TileInRange(extent: nat, t: nat, v: nat)
    requires t > 0 && v < extent
    ensures TileOf(v, t) < TileCount(extent, t)
  {
    DivMod(v, t);
    DivMod(extent + t - 1, t);
    if TileOf(v, t) >= TileCount(extent, t) {
      MulMonotone(TileCount(extent, t), TileOf(v, t), t);
    }
  }

  // ----- the export loop -----

  /** Tiles before (ty, tx) in row order. */
  predicate TileBefore(ty: nat, tx: nat, y: nat, x: nat, t: nat)
    requires t > 0
  {
    TileOf(y, t) < ty || (TileOf(y, t) == ty && TileOf(x, t) < tx)
  }

  /** Channels below `channels` of the tile (ty, tx) and all channels of the tiles before it. */
  predicate Rendered(ty: nat, tx: nat, channels: nat, c: nat, y: nat, x: nat, t: nat)
    requires t > 0
  {
    TileBefore(ty, tx, y, x, t) || (TileOf(y, t) == ty && TileOf(x, t) == tx && c < channels)
  }

  /** What has been rendered is right and was written once; the rest is untouched. */
  ghost predicate Progress(o: Raster, src: Source, r: Rendering, t: nat, ty: nat, tx: nat, channels: nat)
    requires t > 0
  {
    forall c: nat, x: nat, y: nat :: c < 4 && x < src.width && y < src.height ==>
      CellOk(o, src, r, t, ty, tx, channels, c, x, y)
  }

  ghost predicate CellOk(o: Raster, src: Source, r: Rendering, t: nat, ty: nat, tx: nat, channels: nat, c: nat,
        x: nat, y: nat)
    requires t > 0
  {
    if Rendered(ty, tx, channels, c, y, x, t) then o.writes(c, x, y) == 1 && o.cell(c, x, y) == Pixel(src, r, c, x, y)
    else o.writes(c, x, y) == 0
  }

  /** The formula's values, and the bytes of one channel, over a window. */
  ghost predicate HoldsValues(result: seq<real>, src: Source, r: Rendering, x0: nat, y0: nat, w: nat, h: nat) {
    Holds(result, w, h, (i, j) => r.value(BandsAt(src, x0 + i, y0 + j)))
  }

  ghost predicate HoldsPixels(data: seq<int>, src: Source, r: Rendering, ch: nat, x0: nat, y0: nat, w: nat, h: nat) {
    Holds(data, w, h, (i, j) => Pixel(src, r, ch, x0 + i, y0 + j))
  }

  /** The chosen channel of a rendered window. */
  method Channel(result: seq<real>, r: Rendering, ch: nat, src: Source, x0: nat, y0: nat, w: nat,
        h: nat) returns (data: seq<int>)
    requires HoldsValues(result, src, r, x0, y0, w, h)
    ensures HoldsPixels(data, src, r, ch, x0, y0, w, h)
    ensures |data| == Flat(w, h, 0)
  {
    hide Flat, Holds;
    ghost var f := (i: nat, j: nat) => Pixel(src, r, ch, x0 + i, y0 + j);
    data := [];
    HoldsLength(result, w, h, (i, j) => r.value(BandsAt(src, x0 + i, y0 + j)));
    for k := 0 to |result|
      invariant HoldsUpTo(data, w, k, f)
    {
      HoldsAt(result, w, h, (i, j) => r.value(BandsAt(src, x0 + i, y0 + j)), k);
      assert result[k] == r.value(BandsAt(src, x0 + k % w, y0 + k / w));
      assert f(k % w, k / w) == Pixel(src, r, ch, x0 + k % w, y0 + k / w);
      data := data + [r.color(result[k], ch)];
      assert HoldsUpTo(data, w, k + 1, f);
    }
    HoldsAll(data, w, h, f);
  }

  /** The clipped window of a tile. */
  predicate IsWindow(src: Source, t: nat, ty: nat, tx: nat, x0: nat, y0: nat, w: nat, h: nat)
    requires t > 0
  {
    && ty < TileCount(src.height, t) && tx < TileCount(src.width, t)
    && x0 == tx * t && y0 == ty * t && x0 < src.width && y0 < src.height
    && w == (if t < src.width - x0 then t else src.width - x0)
    && h == (if t < src.height - y0 then t else src.height - y0)
  }

  method RenderTile(out: Output, src: Source, r: Rendering, t: nat, ty: nat, tx: nat)
    requires t > 0 && ty < TileCount(src.height, t) && tx < TileCount(src.width, t)
    requires out.width == src.width && out.height == src.height
    requires Progress(out.raster, src, r, t, ty, tx, 0)
    modifies out`raster
    ensures Progress(out.raster, src, r, t, ty, tx, 4)
  {
    hide Flat, TileCount, Progress, HoldsValues, HoldsPixels, Written;
    TileStart(src.width, t, tx);
    TileStart(src.height, t, ty);
    var x0, y0 := tx * t, ty * t;
    var winW := if t < src.width - x0 then t else src.width - x0;
    var winH := if t < src.height - y0 then t else src.height - y0;
    assert IsWindow(src, t, ty, tx, x0, y0, winW, winH);
    hide IsWindow;
    WindowFits(src, t, ty, tx, x0, y0, winW, winH);
    var result := ComputeWindow(src, r, x0, y0, winW, winH);
    for ch := 0 to 4
      invariant Progress(out.raster, src, r, t, ty, tx, ch)
    {
      var chanData := Channel(result, r, ch, src, x0, y0, winW, winH);
      ChannelDone(out.raster, src, r, t, ty, tx, ch, chanData, x0, y0, winW, winH);
      out.WriteWindow(ch, x0, y0, winW, winH, chanData);
    }
  }

  /** A cell lies in the window of a tile exactly when that is its tile. */
  lemma WindowIsTile(src: Source, t: nat, ty: nat, tx: nat, x0: nat, y0: nat, w: nat, h: nat, x: nat, y: nat)
    requires t > 0 && IsWindow(src, t, ty, tx, x0, y0, w, h) && x < src.width && y < src.height
    ensures InWindow(x0, y0, w, h, x, y) <==> TileOf(x, t) == tx && TileOf(y, t) == ty
  {
    hide TileOf, TileCount;
    TileRange(src.width, t, tx, x);
    TileRange(src.height, t, ty, y);
  }

  lemma WindowFits(src: Source, t: nat, ty: nat, tx: nat, x0: nat, y0: nat, w: nat, h: nat)
    requires t > 0 && IsWindow(src, t, ty, tx, x0, y0, w, h)
    ensures x0 + w <= src.width && y0 + h <= src.height
  {
  }

  lemma WrittenAt(o: Raster, ch: nat, x0: nat, y0: nat, w: nat, h: nat, data: seq<int>, c: nat, x: nat, y: nat)
    requires |data| == Flat(w, h, 0)
    ensures var n := Written(o, ch, x0, y0, w, h, data);
      if c == ch && InWindow(x0, y0, w, h, x, y) then
        x0 <= x && y0 <= y && n.writes(c, x, y) == o.writes(c, x, y) + 1 && At(data, w, y - y0, x - x0, n.cell(c, x, y))
      else n.writes(c, x, y) == o.writes(c, x, y) && n.cell(c, x, y) == o.cell(c, x, y)
  {
    hide Flat;
    if InWindow(x0, y0, w, h, x, y) {
      FlatBound(h, w, y - y0, x - x0);
    }
  }

  lemma ChannelDone(o: Raster, src: Source, r: Rendering, t: nat, ty: nat, tx: nat, ch: nat, data: seq<int>,
                    x0: nat, y0: nat, w: nat, h: nat)
    requires t > 0 && IsWindow(src, t, ty, tx, x0, y0, w, h) && ch < 4
    requires Progress(o, src, r, t, ty, tx, ch)
    requires HoldsPixels(data, src, r, ch, x0, y0, w, h) && |data| == Flat(w, h, 0)
    ensures Progress(Written(o, ch, x0, y0, w, h, data), src, r, t, ty, tx, ch + 1)
  {
    hide Flat, TileOf, Pixel, InWindow, IsWindow, HoldsPixels, At, Written;
    var after, next := Written(o, ch, x0, y0, w, h, data), ch + 1;
    forall c: nat, x: nat, y: nat | c < 4 && x < src.width && y < src.height
      ensures CellOk(after, src, r, t, ty, tx, next, c, x, y)
    {
      assert CellOk(o, src, r, t, ty, tx, ch, c, x, y);
      WindowIsTile(src, t, ty, tx, x0, y0, w, h, x, y);
      WrittenAt(o, ch, x0, y0, w, h, data, c, x, y);
      if c == ch && InWindow(x0, y0, w, h, x, y) {
        CellOf(data, src, r, ch, x0, y0, w, h, x, y, after.cell(c, x, y));
      }
    }
  }

  lemma SameCell(data: seq<int>, w: nat, j: nat, i: nat, u: int, v: int)
    requires At(data, w, j, i, u) && At(data, w, j, i, v)
    ensures u == v
  {
    hide Flat;
  }

  lemma CellOf(data: seq<int>, src: Source, r: Rendering, ch: nat, x0: nat, y0: nat, w: nat, h: nat, x: nat,
        y: nat, v: int)
    requires x0 <= x && y0 <= y && InWindow(x0, y0, w, h, x, y) && HoldsPixels(data, src, r, ch, x0, y0, w, h)
    requires At(data, w, y - y0, x - x0, v)
    ensures v == Pixel(src, r, ch, x, y)
  {
    hide Flat;
    hide At;
    var f := (i: nat, j: nat) => Pixel(src, r, ch, x0 + i, y0 + j);
    assert At(data, w, y - y0, x - x0, f(x - x0, y - y0));
    SameCell(data, w, y - y0, x - x0, v, f(x - x0, y - y0));
  }

  /** Moving on to the next tile, or to the first of the next row. */
  lemma NextTile(o: Raster, src: Source, r: Rendering, t: nat, ty: nat, tx: nat)
    requires t > 0 && Progress(o, src, r, t, ty, tx, 4)
    ensures Progress(o, src, r, t, ty, tx + 1, 0)
  {
    hide TileOf, Pixel;
    var next := tx + 1;
    forall c: nat, x: nat, y: nat | c < 4 && x < src.width && y < src.height
      ensures CellOk(o, src, r, t, ty, next, 0, c, x, y)
    {
      assert CellOk(o, src, r, t, ty, tx, 4, c, x, y);
    }
  }

  lemma NextRow(o: Raster, src: Source, r: Rendering, t: nat, ty: nat)
    requires t > 0 && Progress(o, src, r, t, ty, TileCount(src.width, t), 0)
    ensures Progress(o, src, r, t, ty + 1, 0, 0)
  {
    hide TileOf, TileCount, Pixel;
    var next := ty + 1;
    forall c: nat, x: nat, y: nat | c < 4 && x < src.width && y < src.height
      ensures CellOk(o, src, r, t, next, 0, 0, c, x, y)
    {
      assert CellOk(o, src, r, t, ty, TileCount(src.width, t), 0, c, x, y);
      TileInRange(src.width, t, x);
    }
  }

  lemma AllRendered(o: Raster, src: Source, r: Rendering, t: nat)
    requires t > 0 && Progress(o, src, r, t, TileCount(src.height, t), 0, 0)
    ensures WholeImage(o, src, r)
  {
    hide TileOf, TileCount, Pixel, CellRight;
    forall c: nat, x: nat, y: nat | c < 4 && x < src.width && y < src.height
      ensures CellRight(o, src, r, c, x, y)
    {
      assert CellOk(o, src, r, t, TileCount(src.height, t), 0, 0, c, x, y);
      TileInRange(src.height, t, y);
      PixelRight(o, src, r, c, x, y);
    }
  }

  lemma NoneRendered(o: Raster, src: Source, r: Rendering, t: nat)
    requires t > 0 && forall c: nat, x: nat, y: nat :: o.writes(c, x, y) == 0
    ensures Progress(o, src, r, t, 0, 0, 0)
  {
  }

  /** Cell (x, y) was written once in channel c, with what the colormap makes of the formula's value
      for the samples of that very pixel, in band order. */
  ghost predicate CellRight(o: Raster, src: Source, r: Rendering, c: nat, x: nat, y: nat) {
    && o.writes(c, x, y) == 1
    && exists bands: seq<real> :: |bands| == src.bandCount && o.cell(c, x, y) == r.color(r.value(bands), c)
         && forall b :: 0 <= b < |bands| ==> bands[b] == src.sample(b, x, y)
  }

  ghost predicate WholeImage(o: Raster, src: Source, r: Rendering) {
    forall c: nat, x: nat, y: nat :: c < 4 && x < src.width && y < src.height ==> CellRight(o, src, r, c, x, y)
  }

  lemma PixelRight(o: Raster, src: Source, r: Rendering, c: nat, x: nat, y: nat)
    ensures CellRight(o, src, r, c, x, y) <==> o.writes(c, x, y) == 1 && o.cell(c, x, y) == Pixel(src, r, c, x, y)
  {
    var own := BandsAt(src, x, y);
    assert forall bands: seq<real> | |bands| == src.bandCount
      && (forall b :: 0 <= b < |bands| ==> bands[b] == src.sample(b, x, y)) :: bands == own;
  }

  /** The formula branch for a given range. `cancel` is what the progress callback answers after
      that many tiles; a cancelled output is deleted. */
  method ExportFormula(src: Source, r: Rendering, blockWidth: int, tileSize: int, cancel: nat -> bool)
    returns (canceled: bool, out: Output)
    ensures fresh(out) && out.width == src.width && out.height == src.height
    ensures !canceled ==> WholeImage(out.raster, src, r)
    ensures canceled <==>
      exists k :: 0 <= k < TileTotal(src, TileSize(blockWidth, src.bandCount, tileSize)) && cancel(k)
  {
    hide TileOf, TileCount, Progress, WholeImage, TileSize, Halved, Flat;
    TileSizeExactly(blockWidth, src.bandCount, tileSize);
    var tw := ComputeExportTileSize(blockWidth, src.bandCount, tileSize);
    var ntx, nty := TileCount(src.width, tw), TileCount(src.height, tw);
    out := new Output(src.width, src.height);
    NoneRendered(out.raster, src, r, tw);
    var doneTiles: nat := 0;
    FlatStep(ntx, 0, 0);
    for ty := 0 to nty
      invariant Progress(out.raster, src, r, tw, ty, 0, 0)
      invariant doneTiles == Flat(ntx, ty, 0) && forall k :: 0 <= k < doneTiles ==> !cancel(k)
    {
      for tx := 0 to ntx
        invariant Progress(out.raster, src, r, tw, ty, tx, 0)
        invariant doneTiles == Flat(ntx, ty, tx) && forall k :: 0 <= k < doneTiles ==> !cancel(k)
      {
        if cancel(doneTiles) {
          TilesBounded(nty, ntx, ty, tx);
          return true, out;
        }
        RenderTile(out, src, r, tw, ty, tx);
        NextTile(out.raster, src, r, tw, ty, tx);
        FlatStep(ntx, ty, tx);
        doneTiles := doneTiles + 1;
      }
      NextRow(out.raster, src, r, tw, ty);
      FlatStep(ntx, ty, 0);
    }
    AllRendered(out.raster, src, r, tw);
    canceled := false;
  }

  function TileTotal(src: Source, t: int): nat {
    if t > 0 then Flat(TileCount(src.width, t), TileCount(src.height, t), 0) else 0
  }

  lemma TilesBounded(nty: nat, ntx: nat, ty: nat, tx: nat)
    requires ty < nty && tx < ntx
    ensures Flat(ntx, ty, tx) < Flat(ntx, nty, 0)
  {
    FlatBound(nty, ntx, ty, tx);
  }

  /** The tile size makes no difference: two complete exports of the same source agree. */
  lemma TileSizeIrrelevant(a: Raster, b: Raster, src: Source, r: Rendering, c: nat, x: nat, y: nat)
    requires WholeImage(a, src, r) && WholeImage(b, src, r) && c < 4 && x < src.width && y < src.height
    ensures a.cell(c, x, y) == b.cell(c, x, y)
  {
    hide Pixel, CellRight;
    assert CellRight(a, src, r, c, x, y) && CellRight(b, src, r, c, x, y);
    PixelRight(a, src, r, c, x, y);
    PixelRight(b, src, r, c, x, y);
  }
}
