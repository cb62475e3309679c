/**
 * The global-raster water-mask classifier: one raster of `360 * tileSize` by
 * `180 * tileSize` pixels covers the globe, pixel (0, 0) at 90N 180W. A
 * geo-position is mapped to one raster pixel; a fraction of water is obtained
 * by averaging an n-by-n grid of sub-pixel samples.
 */
module GlobalClassifier {
  import opened JavaLang

  const WATER_VALUE: int := 1
  const INVALID_VALUE: int := 127
  const LAND_VALUE: int := 0
  const RESOLUTION_50: int := 50
  const RESOLUTION_150: int := 150

  /** A position in the pixel grid of a source product. */
  datatype PixelPos = PixelPos(x: real, y: real)

  /** A geographic position in degrees. */
  datatype GeoPos = GeoPos(lat: real, lon: real)

  /** A pixel of the global water-mask raster. */
  datatype Pixel = Pixel(x: int, y: int)

  /** The geometry of the global raster the classifier queries. */
  datatype Classifier = Classifier(resolution: int, tileSize: int, width: int, height: int)

  /** A classifier whose raster has at least one pixel per degree. */
  predicate Valid(c: Classifier) {
    c.tileSize > 0 && c.width == 360 * c.tileSize && c.height == 180 * c.tileSize
  }

  /**
   * The constructor: resolutions other than 50 and 150 m/pixel are refused
   * with IllegalArgumentException; otherwise the raster is `tileSize` pixels
   * per degree in both axes. `tileSize` is the side length the constructor
   * computes from the resolution.
   */
  function NewClassifier(resolution: int, tileSize: int): (r: Result<Classifier>)
    ensures r.Err? <==> resolution != RESOLUTION_50 && resolution != RESOLUTION_150
    ensures r.Err? ==> r.error == IllegalArgument
    ensures r.Ok? ==> r.value.resolution == resolution && r.value.tileSize == tileSize
    ensures r.Ok? && tileSize > 0 ==> Valid(r.value)
  {
    if resolution != RESOLUTION_50 && resolution != RESOLUTION_150 then Err(IllegalArgument)
    else Ok(Classifier(resolution, tileSize, tileSize * 360, tileSize * 180))
  }

  // ---------------------------------------------------------------------------
  // Pixel addressing
  // ---------------------------------------------------------------------------

  /** Java's `x % 360` on a non-negative double: the remainder of truncated division. */
  function Rem360(x: real): (r: real)
    requires x >= 0.0
    ensures 0.0 <= r < 360.0
  {
    x - 360.0 * ((x / 360.0).Floor as real)
  }

  /** The longitude shifted to start at 180W, reduced mod 360 only when it reaches 360. */
  function ShiftedLon(lon: real): real
  {
    var temp := lon + 180.0;
    if temp >= 360.0 then Rem360(temp) else temp
  }

  /** The raster pixel that holds a geo-position. */
  function PixelOf(width: int, lat: real, lon: real): Pixel
    requires width > 0
  {
    var pixelSize := 360.0 / (width as real);
    Pixel((ShiftedLon(lon) / pixelSize).Floor, ((90.0 - lat) / pixelSize).Floor)
  }

  /** Dividing by the pixel size is scaling by pixels per degree. */
  lemma DivPixelSize(width: int, t: real)
    requires width > 0
    ensures t / (360.0 / (width as real)) == t * (width as real) / 360.0
  {
  }

  /** Every longitude of [-180, 180] lands in a column of the raster. */
  lemma ColumnInRange(width: int, lat: real, lon: real)
    requires width > 0 && -180.0 <= lon <= 180.0
    ensures 0 <= PixelOf(width, lat, lon).x < width
  {
    var t := ShiftedLon(lon);
    assert 0.0 <= t < 360.0;
    DivPixelSize(width, t);
    var w := width as real;
    assert 0.0 <= t * w / 360.0 < w by {
      assert t * w < 360.0 * w;
    }
  }

  /** The two ends of the longitude range, 180E and 180W, share column 0. */
  lemma DatelineColumn(width: int, lat: real)
    requires width > 0
    ensures PixelOf(width, lat, 180.0).x == 0
    ensures PixelOf(width, lat, -180.0).x == 0
  {
    assert ShiftedLon(180.0) == 0.0;
    assert ShiftedLon(-180.0) == 0.0;
  }

  /** The north pole is in row 0. */
  lemma NorthPoleRow(width: int, lon: real)
    requires width > 0
    ensures PixelOf(width, 90.0, lon).y == 0
  {
  }

  /** Going south never moves to an earlier row. */
  lemma RowMonotone(width: int, lat1: real, lat2: real, lon: real)
    requires width > 0 && lat2 <= lat1
    ensures PixelOf(width, lat1, lon).y <= PixelOf(width, lat2, lon).y
  {
    DivPixelSize(width, 90.0 - lat1);
    DivPixelSize(width, 90.0 - lat2);
    var w := width as real;
    assert (90.0 - lat1) * w <= (90.0 - lat2) * w;
  }

  /** Every latitude of (-90, 90] lands in a row of a valid classifier's raster. */
  lemma RowInRange(c: Classifier, lat: real, lon: real)
    requires Valid(c) && -90.0 < lat <= 90.0
    ensures 0 <= PixelOf(c.width, lat, lon).y < c.height
  {
    var d := 90.0 - lat;
    DivPixelSize(c.width, d);
    var w := c.width as real;
    assert 0.0 <= d * w / 360.0 < c.height as real by {
      assert d * w < 180.0 * w;
    }
  }

  // ---------------------------------------------------------------------------
  // Samples
  // ---------------------------------------------------------------------------

  /**
   * The tiled global water-mask image: the sample of each pixel, or the
   * exception that computing the pixel's tile throws.
   */
  type Image = (int, int) -> Result<int>

  /** Whether a pixel lies in a tile of the raster; outside, `getTile` gives no tile. */
  predicate InRaster(c: Classifier, p: Pixel) {
    0 <= p.x < c.width && 0 <= p.y < c.height
  }

  /**
   * `getWaterMaskSample`: the sample at the pixel holding the position. For a
   * pixel outside the raster the image has no tile, and reading a sample of
   * the missing tile throws NullPointerException.
   */
  function WaterMaskSample(c: Classifier, image: Image, lat: real, lon: real): Result<int>
    requires Valid(c)
  {
    var p := PixelOf(c.width, lat, lon);
    if InRaster(c, p) then image(p.x, p.y) else Err(NullPointer)
  }

  /** Inside the latitude range (-90, 90] and the longitude range [-180, 180] the lookup reads the image. */
  lemma SampleInRange(c: Classifier, image: Image, lat: real, lon: real)
    requires Valid(c) && -90.0 < lat <= 90.0 && -180.0 <= lon <= 180.0
    ensures WaterMaskSample(c, image, lat, lon) == image(PixelOf(c.width, lat, lon).x, PixelOf(c.width, lat, lon).y)
  {
    RowInRange(c, lat, lon);
    ColumnInRange(c.width, lat, lon);
  }

  /** The south pole lies one row below the raster, so its lookup throws. */
  lemma SouthPoleHasNoTile(c: Classifier, image: Image, lon: real)
    requires Valid(c)
    ensures WaterMaskSample(c, image, -90.0, lon) == Err(NullPointer)
  {
    var w := c.width as real;
    DivPixelSize(c.width, 180.0);
    assert 180.0 * w / 360.0 == (c.height as real);
  }

  /** `isWater`: only the water value counts, so land and invalid are both "not water". */
  function IsWater(c: Classifier, image: Image, lat: real, lon: real): (r: Result<bool>)
    requires Valid(c)
    ensures r.Err? <==> WaterMaskSample(c, image, lat, lon).Err?
    ensures r.Err? ==> r.error == WaterMaskSample(c, image, lat, lon).error
    ensures r.Ok? ==> (r.value <==> WaterMaskSample(c, image, lat, lon).value == WATER_VALUE)
    ensures r == Ok(true) ==> WaterMaskSample(c, image, lat, lon).value != INVALID_VALUE
    ensures r == Ok(true) ==> WaterMaskSample(c, image, lat, lon).value != LAND_VALUE
  {
    var sample :- WaterMaskSample(c, image, lat, lon);
    Ok(sample == WATER_VALUE)
  }

  // ---------------------------------------------------------------------------
  // The sub-sampling grid
  // ---------------------------------------------------------------------------

  /** The sub-pixel position visited at loop indices `sx`, `sy`, `step` apart. */
  function SubPos(p: PixelPos, step: real, sx: int, sy: int): PixelPos
  {
    PixelPos(p.x + (sx as real) * step, p.y + (sy as real) * step)
  }

  /** With `step = 1/n` the sub-pixel at (sx, sy) is offset by sx/n and sy/n. */
  lemma SubPosOffsets(p: PixelPos, n: int, sx: int, sy: int)
    requires n > 0
    ensures SubPos(p, 1.0 / (n as real), sx, sy) == PixelPos(p.x + (sx as real) / (n as real), p.y + (sy as real) / (n as real))
  {
  }

  /** The classifier sample looked up at the geo-position of a pixel position. */
  function SampleAt(c: Classifier, image: Image, geoCoding: PixelPos -> GeoPos, q: PixelPos): Result<int>
    requires Valid(c)
  {
    WaterMaskSample(c, image, geoCoding(q).lat, geoCoding(q).lon)
  }

  /** A sample lookup by geo-position (lat, lon): the sample, or the exception the lookup throws. */
  type Lookup = (real, real) -> Result<int>

  /** The classifier's `getWaterMaskSample` as a lookup. */
  function Sampler(c: Classifier, image: Image): Lookup
    requires Valid(c)
  {
    (lat: real, lon: real) => WaterMaskSample(c, image, lat, lon)
  }

  /** What `lookup` gives at the geo-position of each sub-pixel of `p`, by loop indices. */
  function LookupGrid(lookup: Lookup, geoCoding: PixelPos -> GeoPos, p: PixelPos, n: int): (int, int) -> Result<int>
    requires n != 0
  {
    (sx: int, sy: int) =>
      var q := SubPos(p, 1.0 / (n as real), sx, sy);
      lookup(geoCoding(q).lat, geoCoding(q).lon)
  }

  /** The sample at each sub-pixel of `p`, by loop indices. */
  function GridSamples(c: Classifier, image: Image, geoCoding: PixelPos -> GeoPos, p: PixelPos, n: int): (g: (int, int) -> Result<int>)
    requires Valid(c) && n != 0
    ensures forall sx, sy :: g(sx, sy) == SampleAt(c, image, geoCoding, SubPos(p, 1.0 / (n as real), sx, sy))
  {
    LookupGrid(Sampler(c, image), geoCoding, p, n)
  }

  /** The sample values of a grid of lookups; a failed lookup stands as 0 (it is never added). */
  function SampleValues(g: (int, int) -> Result<int>): (v: (int, int) -> int)
    ensures forall sx, sy :: g(sx, sy).Ok? ==> v(sx, sy) == g(sx, sy).value
  {
    (sx: int, sy: int) => if g(sx, sy).Ok? then g(sx, sy).value else 0
  }

  // ---------------------------------------------------------------------------
  // The first failing lookup
  // ---------------------------------------------------------------------------

  /** The exception of the first failing lookup among g(sx, 0), ..., g(sx, sy - 1). */
  function ColumnError(g: (int, int) -> Result<int>, sx: int, sy: nat): Option<Exception>
  {
    if sy == 0 then None
    else if ColumnError(g, sx, sy - 1).Some? then ColumnError(g, sx, sy - 1)
    else if g(sx, sy - 1).Err? then Some(g(sx, sy - 1).error)
    else None
  }

  /** The exception of the first failing lookup in the first `sx` columns of height `n`, column by column. */
  function GridError(g: (int, int) -> Result<int>, n: nat, sx: nat): Option<Exception>
  {
    if sx == 0 then None
    else if GridError(g, n, sx - 1).Some? then GridError(g, n, sx - 1)
    else ColumnError(g, sx - 1, n)
  }

  /** Lookup (i, j) comes before lookup (sx, sy) in the loops' order. */
  predicate Before(i: int, j: int, sx: int, sy: int) {
    i < sx || (i == sx && j < sy)
  }

  /** Lookups (sx, 0), ..., (sx, sy - 1) all succeed. */
  predicate ColumnOk(g: (int, int) -> Result<int>, sx: int, sy: int) {
    forall j :: 0 <= j < sy ==> g(sx, j).Ok?
  }

  /** All lookups of the first `sx` columns of height `n` succeed. */
  predicate GridOk(g: (int, int) -> Result<int>, n: int, sx: int) {
    forall i, j :: 0 <= i < sx && 0 <= j < n ==> g(i, j).Ok?
  }

  /** Lookup (i, j) throws `e`, and every lookup before it in loop order succeeds. */
  predicate FirstFailureAt(g: (int, int) -> Result<int>, n: int, i: int, j: int, e: Exception) {
    && 0 <= i && 0 <= j < n && g(i, j) == Err(e)
    && GridOk(g, n, i) && ColumnOk(g, i, j)
  }

  lemma {:induction false} ColumnErrorSpec(g: (int, int) -> Result<int>, sx: int, sy: nat)
    ensures ColumnError(g, sx, sy).None? <==> ColumnOk(g, sx, sy)
    ensures ColumnError(g, sx, sy).Some? ==>
      exists j :: 0 <= j < sy && g(sx, j) == Err(ColumnError(g, sx, sy).value) && ColumnOk(g, sx, j)
  {
    if sy > 0 {
      ColumnErrorSpec(g, sx, sy - 1);
      if ColumnError(g, sx, sy - 1).None? && g(sx, sy - 1).Err? {
        assert g(sx, sy - 1) == Err(ColumnError(g, sx, sy).value) && ColumnOk(g, sx, sy - 1);
      }
    }
  }

  /**
   * No lookup of the grid fails exactly when there is no first error; the
   * first error is that of a failing lookup all of whose predecessors in
   * loop order succeed.
   */
  lemma {:induction false} GridErrorSpec(g: (int, int) -> Result<int>, n: nat, sx: nat)
    ensures GridError(g, n, sx).None? <==> GridOk(g, n, sx)
    ensures GridError(g, n, sx).Some? ==>
      exists i, j :: i < sx && FirstFailureAt(g, n, i, j, GridError(g, n, sx).value)
  {
    if sx > 0 {
      GridErrorSpec(g, n, sx - 1);
      ColumnErrorSpec(g, sx - 1, n);
      if GridError(g, n, sx - 1).None? {
        if ColumnError(g, sx - 1, n).Some? {
          var j :| 0 <= j < n && g(sx - 1, j) == Err(ColumnError(g, sx - 1, n).value) && ColumnOk(g, sx - 1, j);
          assert FirstFailureAt(g, n, sx - 1, j, GridError(g, n, sx).value);
        } else {
          assert GridOk(g, n, sx) by {
            forall i, j | 0 <= i < sx && 0 <= j < n ensures g(i, j).Ok? {
              if i < sx - 1 { assert GridOk(g, n, sx - 1); } else { assert ColumnOk(g, sx - 1, n); }
            }
          }
        }
      } else {
        var i, j :| i < sx - 1 && FirstFailureAt(g, n, i, j, GridError(g, n, sx - 1).value);
        assert i < sx && FirstFailureAt(g, n, i, j, GridError(g, n, sx).value);
        assert !GridOk(g, n, sx) by { assert g(i, j).Err?; }
      }
    }
  }

  /** Once an error is found, scanning further lookups keeps it: the loops stop at the first one. */
  lemma {:induction false} ColumnErrorStays(g: (int, int) -> Result<int>, sx: int, k: nat, m: nat)
    requires k <= m && ColumnError(g, sx, k).Some?
    ensures ColumnError(g, sx, m) == ColumnError(g, sx, k)
    decreases m
  {
    if k < m {
      ColumnErrorStays(g, sx, k, m - 1);
    }
  }

  lemma {:induction false} GridErrorStays(g: (int, int) -> Result<int>, n: nat, k: nat, m: nat)
    requires k <= m && GridError(g, n, k).Some?
    ensures GridError(g, n, m) == GridError(g, n, k)
    decreases m
  {
    if k < m {
      GridErrorStays(g, n, k, m - 1);
    }
  }

  // ---------------------------------------------------------------------------
  // Aggregation over the grid
  // ---------------------------------------------------------------------------

  /** What a sample adds to the sum: invalid samples add nothing. */
  function ValidPart(v: int): int { if v != INVALID_VALUE then v else 0 }

  /** What a sample adds to the invalid count. */
  function InvalidPart(v: int): nat { if v == INVALID_VALUE then 1 else 0 }

  /** Sum of the valid samples g(sx, 0), ..., g(sx, sy - 1). */
  function ColumnSum(g: (int, int) -> int, sx: int, sy: nat): int
  {
    if sy == 0 then 0 else ColumnSum(g, sx, sy - 1) + ValidPart(g(sx, sy - 1))
  }

  /** Number of invalid samples among g(sx, 0), ..., g(sx, sy - 1). */
  function ColumnInvalid(g: (int, int) -> int, sx: int, sy: nat): nat
  {
    if sy == 0 then 0 else ColumnInvalid(g, sx, sy - 1) + InvalidPart(g(sx, sy - 1))
  }

  /** Sum of the valid samples of the first `sx` columns of height `n`. */
  function GridSum(g: (int, int) -> int, n: nat, sx: nat): int
  {
    if sx == 0 then 0 else GridSum(g, n, sx - 1) + ColumnSum(g, sx - 1, n)
  }

  /** Number of invalid samples in the first `sx` columns of height `n`. */
  function GridInvalid(g: (int, int) -> int, n: nat, sx: nat): nat
  {
    if sx == 0 then 0 else GridInvalid(g, n, sx - 1) + ColumnInvalid(g, sx - 1, n)
  }

  /** Samples as the water mask produces them: land, water or invalid. */
  predicate MaskValues(g: (int, int) -> int, n: int) {
    forall sx, sy :: 0 <= sx < n && 0 <= sy < n ==> g(sx, sy) == LAND_VALUE || g(sx, sy) == WATER_VALUE || g(sx, sy) == INVALID_VALUE
  }

  /** Every one of the n*n samples is invalid (vacuously so for n <= 0). */
  predicate AllInvalid(g: (int, int) -> int, n: int) {
    forall sx, sy :: 0 <= sx < n && 0 <= sy < n ==> g(sx, sy) == INVALID_VALUE
  }

  /**
   * The final step of `getWaterMaskFraction`, from the two accumulators:
   * INVALID_VALUE when the invalid count equals the int product n * n, else
   * the byte cast of the float percentage of the valid sum over that int
   * product. Both the product and the count wrap as Java ints do.
   */
  function FromCounts(valueSum: int, invalidCount: int, n: int): int
  {
    var total := WrapInt(n * n);
    if invalidCount == total then INVALID_VALUE
    else ToByte(FloatQuotientToInt(100.0 * (valueSum as real), total))
  }

  /** What `getWaterMaskFraction` computes from the grid samples `g` when no lookup fails. */
  function Fraction(g: (int, int) -> int, n: int): int
  {
    if n <= 0 then FromCounts(0, 0, n) else FromCounts(GridSum(g, n, n), WrapInt(GridInvalid(g, n, n)), n)
  }

  lemma {:induction false} ColumnInvalidAll(g: (int, int) -> int, sx: int, sy: nat)
    ensures ColumnInvalid(g, sx, sy) <= sy
    ensures ColumnInvalid(g, sx, sy) == sy <==> forall j :: 0 <= j < sy ==> g(sx, j) == INVALID_VALUE
  {
    if sy > 0 {
      ColumnInvalidAll(g, sx, sy - 1);
    }
  }

  lemma {:induction false} GridInvalidAll(g: (int, int) -> int, n: nat, sx: nat)
    ensures GridInvalid(g, n, sx) <= sx * n
    ensures GridInvalid(g, n, sx) == sx * n <==> forall i, j :: 0 <= i < sx && 0 <= j < n ==> g(i, j) == INVALID_VALUE
  {
    if sx > 0 {
      GridInvalidAll(g, n, sx - 1);
      ColumnInvalidAll(g, sx - 1, n);
      assert sx * n == (sx - 1) * n + n;
      if GridInvalid(g, n, sx) == sx * n {
        forall i, j | 0 <= i < sx && 0 <= j < n ensures g(i, j) == INVALID_VALUE {
          if i == sx - 1 { assert g(sx - 1, j) == INVALID_VALUE; }
        }
      }
    }
  }

  lemma {:induction false} ColumnSumBounds(g: (int, int) -> int, n: int, sx: int, sy: nat)
    requires MaskValues(g, n) && 0 <= sx < n && sy <= n
    ensures 0 <= ColumnSum(g, sx, sy) <= sy - ColumnInvalid(g, sx, sy)
  {
    if sy > 0 {
      ColumnSumBounds(g, n, sx, sy - 1);
      ColumnInvalidAll(g, sx, sy - 1);
    }
  }

  /** With mask values, the valid sum is the number of water samples, at most the valid ones. */
  lemma {:induction false} GridSumBounds(g: (int, int) -> int, n: nat, sx: nat)
    requires MaskValues(g, n) && sx <= n
    ensures 0 <= GridSum(g, n, sx) <= sx * n - GridInvalid(g, n, sx)
  {
    if sx > 0 {
      GridSumBounds(g, n, sx - 1);
      ColumnSumBounds(g, n, sx - 1, n);
      assert sx * n == (sx - 1) * n + n;
    }
  }

  /** The percentage of a part of a non-empty whole lies in [0, 100]. */
  lemma PercentBounds(v: int, total: int)
    requires 0 <= v <= total && total > 0
    ensures 0.0 <= 100.0 * (v as real) / (total as real) <= 100.0
  {
    assert 100.0 * (v as real) <= 100.0 * (total as real);
  }

  /** Truncating the real quotient of naturals is their integer quotient. */
  lemma FloorOfQuotient(a: nat, b: int)
    requires b > 0
    ensures Trunc((a as real) / (b as real)) == a / b
  {
    var q := a / b;
    var r := a % b;
    assert a == q * b + r && 0 <= r < b;
    var x := (a as real) / (b as real);
    assert x == (q as real) + (r as real) / (b as real);
    assert 0.0 <= (r as real) / (b as real) < 1.0;
  }

  /**
   * While n * n fits in an int, the result is INVALID_VALUE exactly when
   * every one of the n*n samples is invalid (so always for n = 0, where
   * there are none); otherwise it is the truncated percentage, in [0, 100],
   * of the valid sum over all n*n samples, invalid ones included.
   */
  lemma FractionSpec(g: (int, int) -> int, n: int)
    requires n >= 0 && n * n <= INT_MAX && MaskValues(g, n)
    ensures Fraction(g, n) == INVALID_VALUE <==> AllInvalid(g, n)
    ensures !AllInvalid(g, n) ==> 0 <= Fraction(g, n) <= 100
    ensures !AllInvalid(g, n) ==> Fraction(g, n) == (100 * GridSum(g, n, n)) / (n * n)
  {
    if n > 0 {
      GridInvalidAll(g, n, n);
      assert WrapInt(GridInvalid(g, n, n)) == GridInvalid(g, n, n);
      assert WrapInt(n * n) == n * n;
      if !AllInvalid(g, n) {
        GridSumBounds(g, n, n);
        var sum := GridSum(g, n, n);
        PercentBounds(sum, n * n);
        FloorOfQuotient(100 * sum, n * n);
        assert (100 * sum) as real == 100.0 * (sum as real);
      }
    }
  }

  /** Invalid samples stay in the divisor: one water sample among three invalid ones is 25%. */
  lemma FractionCountsInvalidInDivisor(g: (int, int) -> int)
    requires g(0, 0) == WATER_VALUE && g(0, 1) == INVALID_VALUE && g(1, 0) == INVALID_VALUE && g(1, 1) == INVALID_VALUE
    ensures Fraction(g, 2) == 25
  {
    assert ColumnSum(g, 0, 2) == 1 && ColumnInvalid(g, 0, 2) == 1;
    assert ColumnSum(g, 1, 2) == 0 && ColumnInvalid(g, 1, 2) == 2;
    assert GridSum(g, 2, 2) == 1 && GridInvalid(g, 2, 2) == 3;
    assert 100.0 * (1 as real) / ((2 * 2) as real) == 25.0;
    assert Trunc(25.0) == 25;
  }

  lemma {:induction false} ColumnAllWater(g: (int, int) -> int, sx: int, sy: nat)
    requires forall sx', sy' :: g(sx', sy') == WATER_VALUE
    ensures ColumnSum(g, sx, sy) == sy && ColumnInvalid(g, sx, sy) == 0
  {
    if sy > 0 {
      ColumnAllWater(g, sx, sy - 1);
    }
  }

  /** Over an all-water grid the valid sum counts every sample and none is invalid. */
  lemma {:induction false} GridAllWater(g: (int, int) -> int, n: nat, sx: nat)
    requires forall sx', sy' :: g(sx', sy') == WATER_VALUE
    ensures GridSum(g, n, sx) == sx * n && GridInvalid(g, n, sx) == 0
  {
    if sx > 0 {
      GridAllWater(g, n, sx - 1);
      ColumnAllWater(g, sx - 1, n);
      assert sx * n == (sx - 1) * n + n;
    }
  }

  /** The int product 46341 * 46341 wraps to a negative divisor, and 100% over it truncates to -100. */
  lemma FromCountsAt46341()
    ensures FromCounts(46341 * 46341, 0, 46341) == -100
  {
    var total := WrapInt(46341 * 46341);
    assert total == 46341 * 46341 - 0x1_0000_0000 == -2147479015;
    var q := (100.0 * (2147488281 as real)) / (total as real);
    assert -101.0 < q < -100.0;
    assert Trunc(q) == -100;
    assert FloatQuotientToInt(100.0 * (2147488281 as real), total) == -100;
  }

  /**
   * Beyond the int range the divisor wraps: with a sub-sampling factor of
   * 46341 the product n * n is negative as an int, and an all-water pixel
   * gives -100.
   */
  lemma FractionWrapsAt46341(g: (int, int) -> int)
    requires forall sx, sy :: g(sx, sy) == WATER_VALUE
    ensures Fraction(g, 46341) == -100
  {
    GridAllWater(g, 46341, 46341);
    FromCountsAt46341();
  }

  /**
   * What `getWaterMaskFraction` answers at pixel position `p`: the exception
   * of the first failing lookup in loop order, else the fraction of the
   * looked-up samples.
   */
  function WaterMaskFraction(c: Classifier, image: Image, geoCoding: PixelPos -> GeoPos, p: PixelPos, n: int): Result<int>
    requires Valid(c)
  {
    if n <= 0 then Ok(FromCounts(0, 0, n))
    else
      var g := GridSamples(c, image, geoCoding, p, n);
      match GridError(g, n, n)
      case Some(e) => Err(e)
      case None => Ok(Fraction(SampleValues(g), n))
  }

  /**
   * Without subsamples (n <= 0) neither loop runs, and both counts are 0:
   * the answer is INVALID exactly when n * n wraps to 0 as an int, and
   * otherwise 0.
   */
  lemma NonPositiveFactor(c: Classifier, image: Image, geoCoding: PixelPos -> GeoPos, p: PixelPos, n: int)
    requires Valid(c) && n <= 0
    ensures WaterMaskFraction(c, image, geoCoding, p, n) == Ok(if WrapInt(n * n) == 0 then INVALID_VALUE else 0)
  {
    var total := WrapInt(n * n);
    if total != 0 {
      assert 100.0 * (0 as real) / (total as real) == 0.0;
      assert Trunc(0.0) == 0;
    }
  }

  /** A negative factor whose square is a multiple of 2^32, such as -65536, also gives INVALID. */
  lemma NegativeFactorWrapsToInvalid(c: Classifier, image: Image, geoCoding: PixelPos -> GeoPos, p: PixelPos)
    requires Valid(c)
    ensures WaterMaskFraction(c, image, geoCoding, p, -65536) == Ok(INVALID_VALUE)
    ensures WaterMaskFraction(c, image, geoCoding, p, -1) == Ok(0)
  {
    assert WrapInt(-65536 * -65536) == 0;
    assert WrapInt(-1 * -1) == 1;
    NonPositiveFactor(c, image, geoCoding, p, -65536);
    NonPositiveFactor(c, image, geoCoding, p, -1);
  }

  /** One more lookup of a column without errors so far: it either is the column's error or adds to both counts. */
  lemma ColumnLookupStep(g: (int, int) -> Result<int>, sx: int, sy: nat, n: nat)
    requires sy < n && ColumnError(g, sx, sy).None?
    ensures g(sx, sy).Err? ==> ColumnError(g, sx, n) == Some(g(sx, sy).error)
    ensures g(sx, sy).Ok? ==> ColumnError(g, sx, sy + 1).None?
    ensures g(sx, sy).Ok? ==>
      ColumnSum(SampleValues(g), sx, sy + 1) == ColumnSum(SampleValues(g), sx, sy) + ValidPart(g(sx, sy).value) &&
      ColumnInvalid(SampleValues(g), sx, sy + 1) == ColumnInvalid(SampleValues(g), sx, sy) + InvalidPart(g(sx, sy).value)
  {
    if g(sx, sy).Err? {
      ColumnErrorStays(g, sx, sy + 1, n);
    }
  }

  /** One more column of a grid without errors so far: its error is the grid's, or it adds to both counts. */
  lemma GridColumnStep(g: (int, int) -> Result<int>, n: nat, sx: nat)
    requires sx < n && GridError(g, n, sx).None?
    ensures ColumnError(g, sx, n).Some? ==> GridError(g, n, n) == ColumnError(g, sx, n)
    ensures ColumnError(g, sx, n).None? ==> GridError(g, n, sx + 1).None?
    ensures ColumnError(g, sx, n).None? ==>
      GridSum(SampleValues(g), n, sx + 1) == GridSum(SampleValues(g), n, sx) + ColumnSum(SampleValues(g), sx, n) &&
      GridInvalid(SampleValues(g), n, sx + 1) == GridInvalid(SampleValues(g), n, sx) + ColumnInvalid(SampleValues(g), sx, n)
  {
    if ColumnError(g, sx, n).Some? {
      GridErrorStays(g, n, sx + 1, n);
    }
  }

  /**
   * The inner loop of `getWaterMaskFraction`: the lookups of column `sx`,
   * top to bottom, added to the two accumulators, until the first lookup
   * that throws.
   */
  method SampleColumn(lookup: Lookup, geoCoding: PixelPos -> GeoPos, p: PixelPos, n: int,
                      step: real, sx: int, valueSum0: int, invalidCount0: int)
    returns (failure: Option<Exception>, valueSum: int, invalidCount: int)
    requires n > 0 && step == 1.0 / (n as real) && InIntRange(invalidCount0)
    ensures var g := LookupGrid(lookup, geoCoding, p, n);
      failure == ColumnError(g, sx, n) &&
      (failure.None? ==> valueSum == valueSum0 + ColumnSum(SampleValues(g), sx, n)) &&
      (failure.None? ==> invalidCount == WrapInt(invalidCount0 + ColumnInvalid(SampleValues(g), sx, n)))
  {
    ghost var g := LookupGrid(lookup, geoCoding, p, n);
    ghost var v := SampleValues(g);
    valueSum, invalidCount := valueSum0, invalidCount0;
    var sy := 0;
    while sy < n
      invariant 0 <= sy <= n
      invariant ColumnError(g, sx, sy).None?
      invariant valueSum == valueSum0 + ColumnSum(v, sx, sy)
      invariant invalidCount == WrapInt(invalidCount0 + ColumnInvalid(v, sx, sy))
    {
      var current := SubPos(p, step, sx, sy);
      var geoPos := geoCoding(current);
      var sample := lookup(geoPos.lat, geoPos.lon);
      assert sample == g(sx, sy);
      ColumnLookupStep(g, sx, sy, n);
      if sample.Err? {
        return Some(sample.error), valueSum, invalidCount;
      }
      if sample.value != INVALID_VALUE {
        assert ColumnInvalid(v, sx, sy + 1) == ColumnInvalid(v, sx, sy);
        valueSum := valueSum + sample.value;
      } else {
        WrapAdd(invalidCount0 + ColumnInvalid(v, sx, sy), 1, invalidCount0 + ColumnInvalid(v, sx, sy + 1));
        invalidCount := WrapInt(invalidCount + 1);
      }
      sy := sy + 1;
    }
    failure := None;
  }

  /**
   * `getWaterMaskFraction`: visits the n*n sub-pixel positions
   * (px + sx/n, py + sy/n), column by column, looks up the sample at each
   * one's geo-position and aggregates them; the first lookup that throws
   * ends it with that exception.
   */
  method GetWaterMaskFraction(c: Classifier, image: Image, geoCoding: PixelPos -> GeoPos,
                              p: PixelPos, n: int)
    returns (r: Result<int>)
    requires Valid(c)
    ensures r == WaterMaskFraction(c, image, geoCoding, p, n)
  {
    var valueSum := 0;
    var invalidCount := 0;
    if n > 0 {
      var lookup := Sampler(c, image);
      ghost var g := LookupGrid(lookup, geoCoding, p, n);
      ghost var v := SampleValues(g);
      var step := 1.0 / (n as real);
      var sx := 0;
      while sx < n
        invariant 0 <= sx <= n
        invariant GridError(g, n, sx).None?
        invariant valueSum == GridSum(v, n, sx)
        invariant invalidCount == WrapInt(GridInvalid(v, n, sx))
      {
        var failure;
        failure, valueSum, invalidCount := SampleColumn(lookup, geoCoding, p, n, step, sx, valueSum, invalidCount);
        GridColumnStep(g, n, sx);
        if failure.Some? {
          return Err(failure.value);
        }
        WrapAdd(GridInvalid(v, n, sx), ColumnInvalid(v, sx, n), GridInvalid(v, n, sx + 1));
        sx := sx + 1;
      }
    }
    r := Ok(FromCounts(valueSum, invalidCount, n));
  }

  /**
   * The answer is an exception exactly when some lookup of the grid throws,
   * and then it is the exception of the first one in loop order.
   */
  lemma WaterMaskFractionFails(c: Classifier, image: Image, geoCoding: PixelPos -> GeoPos, p: PixelPos, n: int)
    requires Valid(c) && n > 0
    ensures WaterMaskFraction(c, image, geoCoding, p, n).Err? <==> !GridOk(GridSamples(c, image, geoCoding, p, n), n, n)
    ensures WaterMaskFraction(c, image, geoCoding, p, n).Err? ==>
      exists i, j :: FirstFailureAt(GridSamples(c, image, geoCoding, p, n), n, i, j, WaterMaskFraction(c, image, geoCoding, p, n).error)
  {
    GridErrorSpec(GridSamples(c, image, geoCoding, p, n), n, n);
  }
}
