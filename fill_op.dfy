/**
 * The land/water-mask operator over the per-degree tiles: a pixel whose
 * degree square has a tile takes its sample; otherwise the operator probes
 * the neighbouring squares, first upward and then in random directions,
 * until it reaches a square that has a tile. The random directions are a
 * parameter here, one sequence per target pixel.
 */
module FillOp {
  import opened JavaLang
  import opened GlobalClassifier
  import GlobalOp

  /** The result of the search: a value, an exception, or the directions ran out first. */
  datatype Outcome<T> = Found(value: T) | Failed(error: Exception) | OutOfFuel

  /** One probe step of `getTypeOfAdjacentTiles`: just past the edge of the current degree square. */
  function Probe(lat: real, lon: real, direction: int): (q: (real, real))
    ensures direction == 0 ==> q == (Trunc(lat) as real + 1.0001, lon)
    ensures direction == 1 ==> q == (lat, Trunc(lon) as real - 0.0001)
    ensures direction == 2 ==> q == (Trunc(lat) as real - 0.0001, lon)
    ensures direction == 3 ==> q == (lat, Trunc(lon) as real + 1.0001)
    ensures !(0 <= direction < 4) ==> q == (lat, lon)
  {
    match direction
    case 0 => (Trunc(lat) as real + 1.0001, lon)
    case 1 => (lat, Trunc(lon) as real - 0.0001)
    case 2 => (Trunc(lat) as real - 0.0001, lon)
    case 3 => (lat, Trunc(lon) as real + 1.0001)
    case _ => (lat, lon)
  }

  /**
   * Which degree square, by the classifier's truncated key, a probe lands in:
   * a latitude move keeps the longitude and a longitude move the latitude.
   * Going up or right always leaves the square, but from below -2 it skips
   * one; going down or left leaves the square only from 1 or more, and
   * otherwise lands in the same key.
   */
  lemma ProbeSquare(lat: real, lon: real)
    ensures var q := Probe(lat, lon, 0);
      q.1 == lon && Trunc(q.0) == if lat > -2.0 then Trunc(lat) + 1 else Trunc(lat) + 2
    ensures var q := Probe(lat, lon, 1);
      q.0 == lat && Trunc(q.1) == if lon >= 1.0 then Trunc(lon) - 1 else Trunc(lon)
    ensures var q := Probe(lat, lon, 2);
      q.1 == lon && Trunc(q.0) == if lat >= 1.0 then Trunc(lat) - 1 else Trunc(lat)
    ensures var q := Probe(lat, lon, 3);
      q.0 == lat && Trunc(q.1) == if lon > -2.0 then Trunc(lon) + 1 else Trunc(lon) + 2
  {
    ProbeUp(lat);
    ProbeUp(lon);
    ProbeDown(lat);
    ProbeDown(lon);
  }

  lemma ProbeUp(x: real)
    ensures Trunc(Trunc(x) as real + 1.0001) == if x > -2.0 then Trunc(x) + 1 else Trunc(x) + 2
  {
    var t := Trunc(x);
    if x > -2.0 {
      assert t >= -1;
    } else {
      assert t <= -2;
      var y := t as real + 1.0001;
      assert y < 0.0;
      assert -y == (-t - 2) as real + 0.9999;
      assert (-y).Floor == -t - 2;
    }
  }

  lemma ProbeDown(x: real)
    ensures Trunc(Trunc(x) as real - 0.0001) == if x >= 1.0 then Trunc(x) - 1 else Trunc(x)
  {
    var t := Trunc(x);
    var y := t as real - 0.0001;
    if x >= 1.0 {
      assert t >= 1;
      assert y == (t - 1) as real + 0.9999;
    } else {
      assert t <= 0;
      assert -y == (-t) as real + 0.0001;
      assert (-y).Floor == -t;
    }
  }

  /**
   * What a probe point answers when the search stops there: an IOException
   * yields -1, any other exception propagates, and an existing tile yields
   * its sample cast to a byte.
   */
  function StopAt(shapeFileExists: (real, real) -> Result<bool>, sample: (real, real) -> Result<int>,
                  q: (real, real)): Outcome<int>
  {
    match shapeFileExists(q.0, q.1)
    case Err(IO) => Found(-1)
    case Err(e) => Failed(e)
    case Ok(false) => OutOfFuel
    case Ok(true) =>
      match sample(q.0, q.1)
      case Err(IO) => Found(-1)
      case Err(e) => Failed(e)
      case Ok(v) => Found(ToByte(v))
  }

  /**
   * `getTypeOfAdjacentTiles(lat, lon, direction)`: probes in the given
   * direction and recurses from the probe point in the next direction.
   */
  function AdjacentType(shapeFileExists: (real, real) -> Result<bool>, sample: (real, real) -> Result<int>,
                        lat: real, lon: real, direction: int, directions: seq<int>): (r: Outcome<int>)
    ensures r.Found? ==> -128 <= r.value < 128
    decreases |directions|
  {
    var q := Probe(lat, lon, direction);
    if shapeFileExists(q.0, q.1) != Ok(false) then StopAt(shapeFileExists, sample, q)
    else if |directions| == 0 then OutOfFuel
    else AdjacentType(shapeFileExists, sample, q.0, q.1, directions[0], directions[1..])
  }

  /** `getTypeOfAdjacentTiles(lat, lon)`: the search starts upward. */
  function TypeOfAdjacentTiles(shapeFileExists: (real, real) -> Result<bool>, sample: (real, real) -> Result<int>,
                               lat: real, lon: real, directions: seq<int>): (r: Outcome<int>)
    ensures r == AdjacentType(shapeFileExists, sample, lat, lon, 0, directions)
  {
    AdjacentType(shapeFileExists, sample, lat, lon, 0, directions)
  }

  /** The probe points the search visits, one more than there are later directions. */
  function ProbePath(lat: real, lon: real, direction: int, directions: seq<int>): (path: seq<(real, real)>)
    ensures |path| == |directions| + 1
    ensures path[0] == Probe(lat, lon, direction)
    decreases |directions|
  {
    var q := Probe(lat, lon, direction);
    if |directions| == 0 then [q] else [q] + ProbePath(q.0, q.1, directions[0], directions[1..])
  }

  /** Each point of `path` is the probe from the one before it in the next direction. */
  ghost predicate Steps(path: seq<(real, real)>, directions: seq<int>)
    requires |path| == |directions| + 1
  {
    forall i :: 0 <= i < |directions| ==> path[i + 1] == Probe(path[i].0, path[i].1, directions[i])
  }

  /** The probe points are the successive probes of the search. */
  lemma {:induction false} ProbePathSteps(lat: real, lon: real, direction: int, directions: seq<int>)
    ensures Steps(ProbePath(lat, lon, direction, directions), directions)
    decreases |directions|
  {
    if |directions| > 0 {
      var q := Probe(lat, lon, direction);
      var path := ProbePath(lat, lon, direction, directions);
      var rest := ProbePath(q.0, q.1, directions[0], directions[1..]);
      ProbePathSteps(q.0, q.1, directions[0], directions[1..]);
      assert path == [q] + rest;
      forall i | 0 <= i < |directions| ensures path[i + 1] == Probe(path[i].0, path[i].1, directions[i]) {
        if i > 0 {
          var j := i - 1;
          assert rest[j + 1] == Probe(rest[j].0, rest[j].1, directions[1..][j]);
        }
      }
    }
  }

  /**
   * The search answers at the first probe point where `shapeFileExists`
   * does not answer false, with what that point yields; when there is none
   * the directions run out.
   */
  lemma {:induction false} AdjacentTypeSpec(shapeFileExists: (real, real) -> Result<bool>, sample: (real, real) -> Result<int>,
                                            lat: real, lon: real, direction: int, directions: seq<int>, k: nat)
    requires var path := ProbePath(lat, lon, direction, directions);
      k <= |path| && forall i :: 0 <= i < k ==> shapeFileExists(path[i].0, path[i].1) == Ok(false)
    ensures var path := ProbePath(lat, lon, direction, directions);
      k == |path| ==> AdjacentType(shapeFileExists, sample, lat, lon, direction, directions) == OutOfFuel
    ensures var path := ProbePath(lat, lon, direction, directions);
      k < |path| && shapeFileExists(path[k].0, path[k].1) != Ok(false) ==>
        AdjacentType(shapeFileExists, sample, lat, lon, direction, directions) == StopAt(shapeFileExists, sample, path[k])
    decreases |directions|
  {
    var path := ProbePath(lat, lon, direction, directions);
    var q := Probe(lat, lon, direction);
    if k > 0 && |directions| > 0 {
      var rest := ProbePath(q.0, q.1, directions[0], directions[1..]);
      assert path == [q] + rest;
      forall i | 0 <= i < k - 1 ensures shapeFileExists(rest[i].0, rest[i].1) == Ok(false) {
        assert rest[i] == path[i + 1];
      }
      AdjacentTypeSpec(shapeFileExists, sample, q.0, q.1, directions[0], directions[1..], k - 1);
    }
  }

  // ---------------------------------------------------------------------------
  // computeTile
  // ---------------------------------------------------------------------------

  /**
   * The value of target pixel q: its own square's sample if that square has
   * a tile, else the neighbour search from its position. An exception of the
   * two classifier calls propagates.
   */
  function PixelWater(geoCoding: PixelPos -> GeoPos, shapeFileExists: (real, real) -> Result<bool>,
                      sample: (real, real) -> Result<int>, directions: (int, int) -> seq<int>, q: (int, int)): Outcome<int>
  {
    var geoPos := geoCoding(PixelPos(q.0 as real, q.1 as real));
    match shapeFileExists(geoPos.lat, geoPos.lon)
    case Err(e) => Failed(e)
    case Ok(true) =>
      (match sample(geoPos.lat, geoPos.lon)
       case Err(e) => Failed(e)
       case Ok(v) => Found(v))
    case Ok(false) => TypeOfAdjacentTiles(shapeFileExists, sample, geoPos.lat, geoPos.lon, directions(q.0, q.1))
  }

  /** A pixel whose own square has a tile takes that square's sample, unchanged by any byte cast. */
  lemma PixelWaterDirect(geoCoding: PixelPos -> GeoPos, shapeFileExists: (real, real) -> Result<bool>,
                         sample: (real, real) -> Result<int>, directions: (int, int) -> seq<int>, q: (int, int))
    requires var g := geoCoding(PixelPos(q.0 as real, q.1 as real));
      shapeFileExists(g.lat, g.lon) == Ok(true) && sample(g.lat, g.lon).Ok?
    ensures var g := geoCoding(PixelPos(q.0 as real, q.1 as real));
      PixelWater(geoCoding, shapeFileExists, sample, directions, q) == Found(sample(g.lat, g.lon).value)
  {
  }

  /** The value of each pixel that has one. */
  function FoundValue(pixel: ((int, int)) -> Outcome<int>): (value: ((int, int)) -> Option<int>)
    ensures forall q :: value(q).Some? <==> pixel(q).Found?
    ensures forall q :: value(q).Some? ==> value(q).value == pixel(q).value
  {
    q => if pixel(q).Found? then Some(pixel(q).value) else None
  }

  /**
   * The inner loop of `computeTile`: one column, top to bottom, stopping at
   * the first pixel without a value; `count` pixels were written. `pixel`
   * gives the value of each target pixel.
   */
  method ComputeColumn(tile: GlobalOp.TargetTile, pixel: ((int, int)) -> Outcome<int>, x: int)
    returns (r: Outcome<()>, count: nat)
    requires tile.height >= 0
    modifies tile
    ensures count <= tile.height && (r.Found? <==> count == tile.height)
    ensures r.Failed? ==> pixel((x, tile.y + count)) == Failed(r.error)
    ensures r.OutOfFuel? ==> pixel((x, tile.y + count)) == OutOfFuel
    ensures tile.writes == old(tile.writes) + GlobalOp.ColumnPixels(x, tile.y, count)
    ensures GlobalOp.Done(old(tile.samples), tile.samples, FoundValue(pixel), x, tile.y, 1, count)
  {
    var y := tile.y;
    while y < tile.y + tile.height
      invariant tile.y <= y <= tile.y + tile.height
      invariant tile.writes == old(tile.writes) + GlobalOp.ColumnPixels(x, tile.y, y - tile.y)
      invariant GlobalOp.Done(old(tile.samples), tile.samples, FoundValue(pixel), x, tile.y, 1, y - tile.y)
    {
      var water := pixel((x, y));
      if !water.Found? {
        r := if water.Failed? then Failed(water.error) else OutOfFuel;
        count := y - tile.y;
        return;
      }
      GlobalOp.ColumnStep(old(tile.samples), tile.samples, FoundValue(pixel), x, tile.y, y, water.value);
      tile.SetSample(x, y, water.value);
      y := y + 1;
    }
    r, count := Found(()), tile.height;
  }

  /**
   * The two loops of `computeTile`: every pixel of the rectangle, column by
   * column, until the first pixel without a value. Pixels outside the
   * rectangle keep their values.
   */
  method ComputeRect(tile: GlobalOp.TargetTile, pixel: ((int, int)) -> Outcome<int>) returns (r: Outcome<()>)
    modifies tile
    ensures r.Failed? ==> exists q :: GlobalOp.InRect(q, tile.x, tile.y, tile.width, tile.height) && pixel(q) == Failed(r.error)
    ensures r.Found? <==> forall q :: GlobalOp.InRect(q, tile.x, tile.y, tile.width, tile.height) ==> pixel(q).Found?
    ensures r.Found? ==> tile.writes == old(tile.writes) + GlobalOp.RectOrder(tile.x, tile.y, tile.width, tile.height)
    ensures !r.Found? ==> old(tile.writes) <= tile.writes <= old(tile.writes) + GlobalOp.RectOrder(tile.x, tile.y, tile.width, tile.height)
    ensures forall q :: q in tile.samples ==> q in old(tile.samples) || GlobalOp.InRect(q, tile.x, tile.y, tile.width, tile.height)
    ensures GlobalOp.Kept(old(tile.samples), tile.samples, tile.x, tile.y, tile.width, tile.height)
    ensures r.Found? ==> GlobalOp.Filled(tile.samples, FoundValue(pixel), tile.x, tile.y, tile.width, tile.height)
  {
    r := Found(());
    if tile.width <= 0 || tile.height <= 0 {
      return;
    }
    var x := tile.x;
    while x < tile.x + tile.width
      invariant tile.x <= x <= tile.x + tile.width
      invariant tile.writes == old(tile.writes) + GlobalOp.RectPixels(tile.x, tile.y, tile.height, x - tile.x)
      invariant GlobalOp.Done(old(tile.samples), tile.samples, FoundValue(pixel), tile.x, tile.y, x - tile.x, tile.height)
    {
      ghost var before := tile.samples;
      var column, count := ComputeColumn(tile, pixel, x);
      GlobalOp.WritesAfterColumn(old(tile.writes), tile.x, tile.y, tile.width, tile.height, x - tile.x, count);
      GlobalOp.RectStep(old(tile.samples), before, tile.samples, FoundValue(pixel), tile.x, tile.y, tile.width, tile.height, x - tile.x, count);
      if !column.Found? {
        assert GlobalOp.InRect((x, tile.y + count), tile.x, tile.y, tile.width, tile.height);
        return column;
      }
      x := x + 1;
    }
    assert x - tile.x == tile.width;
    assert GlobalOp.RectOrder(tile.x, tile.y, tile.width, tile.height) == GlobalOp.RectPixels(tile.x, tile.y, tile.height, tile.width);
  }

  /**
   * `computeTile`: the value of every pixel of the rectangle is written; an
   * exception of the classifier surfaces as an OperatorException.
   */
  method ComputeTile(tile: GlobalOp.TargetTile, geoCoding: PixelPos -> GeoPos, shapeFileExists: (real, real) -> Result<bool>,
                     sample: (real, real) -> Result<int>, directions: (int, int) -> seq<int>)
    returns (r: Outcome<()>)
    modifies tile
    ensures r.Failed? ==> r.error == Operator
    ensures r.Failed? ==>
      exists q :: GlobalOp.InRect(q, tile.x, tile.y, tile.width, tile.height) &&
        PixelWater(geoCoding, shapeFileExists, sample, directions, q).Failed?
    ensures r.Found? <==> forall q :: GlobalOp.InRect(q, tile.x, tile.y, tile.width, tile.height) ==>
      PixelWater(geoCoding, shapeFileExists, sample, directions, q).Found?
    ensures r.Found? ==> tile.writes == old(tile.writes) + GlobalOp.RectOrder(tile.x, tile.y, tile.width, tile.height)
    ensures !r.Found? ==> old(tile.writes) <= tile.writes <= old(tile.writes) + GlobalOp.RectOrder(tile.x, tile.y, tile.width, tile.height)
    ensures forall q :: q in tile.samples ==> q in old(tile.samples) || GlobalOp.InRect(q, tile.x, tile.y, tile.width, tile.height)
    ensures GlobalOp.Kept(old(tile.samples), tile.samples, tile.x, tile.y, tile.width, tile.height)
    ensures r.Found? ==> forall q :: GlobalOp.InRect(q, tile.x, tile.y, tile.width, tile.height) ==>
      q in tile.samples && PixelWater(geoCoding, shapeFileExists, sample, directions, q) == Found(tile.samples[q])
  {
    var pixel := q => PixelWater(geoCoding, shapeFileExists, sample, directions, q);
    r := ComputeRect(tile, pixel);
    if r.Failed? {
      r := Failed(Operator);
    }
  }
}
