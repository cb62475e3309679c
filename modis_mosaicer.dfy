/**
 * The tool that mosaics reprojected MODIS water-mask products into one global
 * south-polar raster of 155520 x 12960 pixels: every destination pixel is
 * land near the bottom edge and in two corners, and otherwise takes the
 * first valid sample of the products that cover it, or water when none has one.
 */
module ModisMosaicer {
  import opened JavaLang
  import opened GlobalClassifier
  import Raster

  const MODIS_IMAGE_WIDTH: int := 155520
  const MODIS_IMAGE_HEIGHT: int := 12960
  const MODIS_TILE_WIDTH: nat := 576
  const MODIS_TILE_HEIGHT: nat := 480

  /** A source product: its name, scene size and the no-data value of its `water_mask` band. */
  datatype Product = Product(name: string, sceneWidth: int, sceneHeight: int, noDataValue: real)

  /**
   * The source products and what the mosaic asks of them: the pixel position
   * of a geo-position in a product (None where it is not a number), and the
   * `water_mask` sample at a pixel.
   */
  datatype Sources = Sources(
    products: seq<Product>,
    pixelPos: (Product, GeoPos) -> Option<PixelPos>,
    sample: (Product, int, int) -> int)

  // ---------------------------------------------------------------------------
  // Geo-positions
  // ---------------------------------------------------------------------------

  /** `getGeoPos`: pixel (x, y) of the mosaic grid; x runs east from -180, y south from -60. */
  function GetGeoPos(x: int, y: int): (g: GeoPos)
    ensures g.lon == -180.0 + (x as real) * 360.0 / (MODIS_IMAGE_WIDTH as real)
    ensures g.lat == -60.0 - (y as real) * 30.0 / (MODIS_IMAGE_HEIGHT as real)
  {
    var pixelSizeX := 360.0 / MODIS_IMAGE_WIDTH as real;
    var pixelSizeY := -30.0 / MODIS_IMAGE_HEIGHT as real;
    GeoPos(-60.0 + (y as real) * pixelSizeY, -180.0 + (x as real) * pixelSizeX)
  }

  /**
   * The grid spans the whole circle of longitude and the latitudes from -60
   * down to -90, and pixels can be recovered from their geo-positions.
   */
  lemma GetGeoPosSpec(x: int, y: int)
    ensures 0 <= x <= MODIS_IMAGE_WIDTH ==> -180.0 <= GetGeoPos(x, y).lon <= 180.0
    ensures 0 <= y <= MODIS_IMAGE_HEIGHT ==> -90.0 <= GetGeoPos(x, y).lat <= -60.0
    ensures (GetGeoPos(x, y).lon + 180.0) * (MODIS_IMAGE_WIDTH as real) / 360.0 == x as real
    ensures (-60.0 - GetGeoPos(x, y).lat) * (MODIS_IMAGE_HEIGHT as real) / 30.0 == y as real
  {
  }

  // ---------------------------------------------------------------------------
  // Covering products
  // ---------------------------------------------------------------------------

  /** The filter of `getProducts`: a valid pixel position strictly inside the scene. */
  predicate Covers(src: Sources, p: Product, g: GeoPos) {
    match src.pixelPos(p, g)
    case None => false
    case Some(pp) => 0.0 < pp.x < p.sceneWidth as real && 0.0 < pp.y < p.sceneHeight as real
  }

  /** The products of `ps` that cover g, in their order. */
  function Covering(src: Sources, ps: seq<Product>, g: GeoPos): (r: seq<Product>)
    ensures |r| <= |ps|
  {
    if |ps| == 0 then []
    else Covering(src, ps[..|ps| - 1], g) + (if Covers(src, ps[|ps| - 1], g) then [ps[|ps| - 1]] else [])
  }

  /** Exactly the covering products are kept. */
  lemma {:induction false} CoveringMembers(src: Sources, ps: seq<Product>, g: GeoPos)
    ensures forall p :: p in Covering(src, ps, g) <==> p in ps && Covers(src, p, g)
  {
    if |ps| > 0 {
      CoveringMembers(src, ps[..|ps| - 1], g);
      assert ps == ps[..|ps| - 1] + [ps[|ps| - 1]];
    }
  }

  /** The filter keeps the order: filtering two runs of products one after the other. */
  lemma {:induction false} CoveringAppend(src: Sources, a: seq<Product>, b: seq<Product>, g: GeoPos)
    ensures Covering(src, a + b, g) == Covering(src, a, g) + Covering(src, b, g)
    decreases |b|
  {
    if |b| > 0 {
      var b' := b[..|b| - 1];
      assert (a + b)[..|a + b| - 1] == a + b';
      CoveringAppend(src, a, b', g);
    } else {
      assert a + b == a;
    }
  }

  // ---------------------------------------------------------------------------
  // The per-pixel rule
  // ---------------------------------------------------------------------------

  /** Destination pixels forced to land: the bottom rows and two bottom corners. */
  predicate IsForcedLand(x: int, y: int) {
    y > 10860 || (y > 10474 && x > 154129) || (y > 10460 && x < 1436)
  }

  /** Two rows and three columns are looked up one pixel earlier. */
  function LookupX(x: int): (r: int)
    ensures r == x || r == x - 1
  {
    if x == 77758 || x == 77759 || x == 77760 then x - 1 else x
  }

  function LookupY(y: int): (r: int)
    ensures r == y || r == y - 1
  {
    if y == 4286 || y == 8601 then y - 1 else y
  }

  /** The sample a product gives for g: at its pixel position cut to int (a position that is not a number gives 0). */
  function ProductSample(src: Sources, p: Product, g: GeoPos): int {
    match src.pixelPos(p, g)
    case None => src.sample(p, 0, 0)
    case Some(pp) => src.sample(p, Trunc(pp.x), Trunc(pp.y))
  }

  predicate IsValidSample(src: Sources, p: Product, g: GeoPos) {
    ProductSample(src, p, g) as real != p.noDataValue
  }

  /** The first valid sample among ps, or water when there is none. */
  function FirstSample(src: Sources, ps: seq<Product>, g: GeoPos): int
  {
    if |ps| == 0 then WATER_VALUE
    else if IsValidSample(src, ps[0], g) then ProductSample(src, ps[0], g)
    else FirstSample(src, ps[1..], g)
  }

  /**
   * Water exactly when no product has a valid sample, unless the first valid
   * sample is itself water; otherwise the sample of the first product with a
   * valid one.
   */
  lemma {:induction false} FirstSampleSpec(src: Sources, ps: seq<Product>, g: GeoPos)
    ensures (forall i :: 0 <= i < |ps| ==> !IsValidSample(src, ps[i], g)) ==> FirstSample(src, ps, g) == WATER_VALUE
    ensures forall i :: 0 <= i < |ps| && IsValidSample(src, ps[i], g) && (forall j :: 0 <= j < i ==> !IsValidSample(src, ps[j], g)) ==>
      FirstSample(src, ps, g) == ProductSample(src, ps[i], g)
  {
    if |ps| > 0 {
      FirstSampleSpec(src, ps[1..], g);
      forall i | 0 < i < |ps| && IsValidSample(src, ps[i], g) && (forall j :: 0 <= j < i ==> !IsValidSample(src, ps[j], g))
        ensures FirstSample(src, ps, g) == ProductSample(src, ps[i], g)
      {
        assert !IsValidSample(src, ps[0], g);
        assert ps[1..][i - 1] == ps[i];
        forall j | 0 <= j < i - 1
          ensures !IsValidSample(src, ps[1..][j], g)
        {
          assert ps[1..][j] == ps[j + 1];
        }
      }
    }
  }

  /** The value the mosaic gives destination pixel (x, y). */
  function PixelValue(src: Sources, x: int, y: int): int {
    if IsForcedLand(x, y) then LAND_VALUE
    else
      var g := GetGeoPos(LookupX(x), LookupY(y));
      FirstSample(src, Covering(src, src.products, g), g)
  }

  /** Forced land needs no product: whatever the sources, such a pixel is land. */
  lemma ForcedLandIgnoresProducts(src: Sources, other: Sources, x: int, y: int)
    requires IsForcedLand(x, y)
    ensures PixelValue(src, x, y) == PixelValue(other, x, y) == LAND_VALUE
  {
  }

  /** Without a covering product a pixel outside the forced land is water. */
  lemma UncoveredIsWater(src: Sources, x: int, y: int)
    requires !IsForcedLand(x, y)
    requires forall p :: p in src.products ==> !Covers(src, p, GetGeoPos(LookupX(x), LookupY(y)))
    ensures PixelValue(src, x, y) == WATER_VALUE
  {
    var g := GetGeoPos(LookupX(x), LookupY(y));
    CoveringMembers(src, src.products, g);
    if |Covering(src, src.products, g)| > 0 {
      assert Covering(src, src.products, g)[0] in Covering(src, src.products, g);
    }
  }

  /** A column looked up one pixel earlier takes the value of its western neighbour's lookup. */
  lemma SeamColumn(src: Sources, y: int)
    requires !IsForcedLand(77758, y) && !IsForcedLand(77757, y)
    ensures PixelValue(src, 77758, y) == PixelValue(src, 77757, y)
  {
  }

  /**
   * Every pixel the mosaic writes: the first part of the tile whose columns
   * before `cols` and the first `rows` pixels of column `cols` are done.
   */
  ghost predicate Written(data: array2<int>, src: Sources, x0: int, y0: int, cols: int, rows: int)
    reads data
  {
    forall i, j :: 0 <= i < data.Length0 && 0 <= j < data.Length1 && (i < cols || (i == cols && j < rows)) ==>
      data[i, j] == ToByte(PixelValue(src, x0 + i, y0 + j))
  }

  /** The first `rows` cells of raster column `col`, which shows image column x, are done. */
  ghost predicate ColumnWritten(data: array2<int>, src: Sources, x: int, col: int, y0: int, rows: int)
    reads data
  {
    forall j :: 0 <= j < rows && 0 <= col < data.Length0 && j < data.Length1 ==>
      data[col, j] == ToByte(PixelValue(src, x, y0 + j))
  }

  class TemporaryMODISImage {
    const src: Sources
    /** Tiles computed so far. */
    var count: nat

    constructor (src: Sources)
      ensures this.src == src && count == 0
    {
      this.src := src;
      count := 0;
    }

    /** `getProducts`: the covering products, in their order. */
    method GetProducts(g: GeoPos) returns (result: seq<Product>)
      ensures result == Covering(src, src.products, g)
    {
      result := [];
      var i := 0;
      while i < |src.products|
        invariant 0 <= i <= |src.products|
        invariant result == Covering(src, src.products[..i], g)
      {
        assert src.products[..i + 1][..i] == src.products[..i];
        if Covers(src, src.products[i], g) {
          result := result + [src.products[i]];
        }
        i := i + 1;
      }
      assert src.products[..i] == src.products;
    }

    /**
     * The body of the pixel loop of `computeTile` for (x, y): forced land, or
     * water overwritten by the first valid sample of the covering products.
     */
    method WritePixel(dest: Raster.WritableRaster, x: int, y: int)
      requires dest.Contains(x, y)
      modifies dest.data
      ensures dest.data[x - dest.minX, y - dest.minY] == ToByte(PixelValue(src, x, y))
      ensures forall i, j :: 0 <= i < dest.data.Length0 && 0 <= j < dest.data.Length1 && (i != x - dest.minX || j != y - dest.minY) ==>
        dest.data[i, j] == old(dest.data[i, j])
    {
      if IsForcedLand(x, y) {
        var _ := dest.SetSample(x, y, LAND_VALUE);
        return;
      }
      var yOffset := 0;
      if y == 4286 || y == 8601 {
        yOffset := -1;
      }
      var xOffset := 0;
      if x == 77758 || x == 77759 || x == 77760 {
        xOffset := -1;
      }
      var _ := dest.SetSample(x, y, WATER_VALUE);
      var geoPos := GetGeoPos(x + xOffset, y + yOffset);
      var products := GetProducts(geoPos);
      var k := 0;
      while k < |products|
        invariant 0 <= k <= |products|
        invariant FirstSample(src, products, geoPos) == FirstSample(src, products[k..], geoPos)
        invariant dest.data[x - dest.minX, y - dest.minY] == ToByte(WATER_VALUE)
        invariant forall i, j :: 0 <= i < dest.data.Length0 && 0 <= j < dest.data.Length1 && (i != x - dest.minX || j != y - dest.minY) ==>
          dest.data[i, j] == old(dest.data[i, j])
      {
        var sample := ProductSample(src, products[k], geoPos);
        if sample as real != products[k].noDataValue {
          var _ := dest.SetSample(x, y, sample);
          return;
        }
        assert products[k..][1..] == products[k + 1..];
        k := k + 1;
      }
    }

    /** The inner loop of `computeTile`: every pixel of column x of the raster, top to bottom. */
    method WriteColumn(dest: Raster.WritableRaster, x: int)
      requires dest.minX <= x < dest.minX + dest.Width()
      modifies dest.data
      ensures ColumnWritten(dest.data, src, x, x - dest.minX, dest.minY, dest.data.Length1)
      ensures forall i, j :: 0 <= i < dest.data.Length0 && 0 <= j < dest.data.Length1 && i != x - dest.minX ==>
        dest.data[i, j] == old(dest.data[i, j])
    {
      var y := dest.minY;
      while y < dest.minY + dest.Height()
        invariant dest.minY <= y <= dest.minY + dest.Height()
        invariant ColumnWritten(dest.data, src, x, x - dest.minX, dest.minY, y - dest.minY)
        invariant forall i, j :: 0 <= i < dest.data.Length0 && 0 <= j < dest.data.Length1 && i != x - dest.minX ==>
          dest.data[i, j] == old(dest.data[i, j])
      {
        WritePixel(dest, x, y);
        y := y + 1;
      }
    }

    /**
     * `computeTile`: a fresh raster at the tile's origin in which every
     * pixel holds the mosaic's value; one more tile is counted.
     */
    method ComputeTile(tileX: int, tileY: int) returns (dest: Raster.WritableRaster)
      modifies this
      ensures count == old(count) + 1
      ensures fresh(dest) && fresh(dest.data)
      ensures dest.minX == tileX * MODIS_TILE_WIDTH && dest.minY == tileY * MODIS_TILE_HEIGHT
      ensures dest.Width() == MODIS_TILE_WIDTH && dest.Height() == MODIS_TILE_HEIGHT
      ensures Written(dest.data, src, dest.minX, dest.minY, dest.Width(), 0)
    {
      count := count + 1;
      dest := new Raster.WritableRaster(tileX * MODIS_TILE_WIDTH, tileY * MODIS_TILE_HEIGHT, MODIS_TILE_WIDTH, MODIS_TILE_HEIGHT);
      var x := dest.minX;
      while x < dest.minX + dest.Width()
        invariant dest.minX <= x <= dest.minX + dest.Width()
        invariant Written(dest.data, src, dest.minX, dest.minY, x - dest.minX, 0)
        modifies dest.data
      {
        WriteColumn(dest, x);
        x := x + 1;
      }
    }
  }
}
