/**
 * The per-degree tile classifier: every tile of the archive covers one degree
 * squared and is named like `w002n51`, a hemisphere letter and three digits
 * of longitude, a hemisphere letter and two digits of latitude. The
 * classifier maps a position to a pixel inside its tile, decides whether a
 * tile name covers a position, and finds (and caches) the image for a
 * position.
 */
module TileClassifier {
  import opened JavaLang

  /** A geographic position; the constructor validates it. */
  datatype GeoPos = GeoPos(lat: real, lon: real)

  /** `java.awt.Point`. */
  datatype Point = Point(x: int, y: int)

  /** The range the GeoPos constructor accepts, exactly as written: lat within ±180, lon within ±90. */
  predicate ValidGeoPos(p: GeoPos) {
    -180.0 <= p.lat <= 180.0 && -90.0 <= p.lon <= 90.0
  }

  /** `new GeoPos(lat, lon)`: throws IllegalArgumentException outside the accepted range. */
  function NewGeoPos(lat: real, lon: real): (r: Result<GeoPos>)
    ensures r.Ok? <==> -180.0 <= lat <= 180.0 && -90.0 <= lon <= 90.0
    ensures r.Ok? ==> r.value.lat == lat && r.value.lon == lon && ValidGeoPos(r.value)
    ensures r.Err? ==> r.error == IllegalArgument
  {
    if lat < -180.0 || lat > 180.0 || lon < -90.0 || lon > 90.0 then Err(IllegalArgument)
    else Ok(GeoPos(lat, lon))
  }

  /** The distance of x from its value truncated toward zero. */
  function FractionalPart(x: real): (f: real)
    ensures 0.0 <= f < 1.0
  {
    AbsReal(x - Trunc(x) as real)
  }

  /**
   * `geoPosToPixel`: the column from the fractional part of the longitude,
   * the row from that of the latitude, counted from the bottom.
   */
  function GeoPosToPixel(width: int, height: int, p: GeoPos): Point
  {
    Point(Trunc(width as real * FractionalPart(p.lon)),
          height - Trunc(height as real * FractionalPart(p.lat)) - 1)
  }

  lemma ScaledPartBounds(size: int, f: real)
    requires size > 0 && 0.0 <= f < 1.0
    ensures 0 <= Trunc(size as real * f) < size
  {
    assert size as real * f < size as real by {
      assert size as real * (1.0 - f) > 0.0;
    }
  }

  /** For a positive raster size the pixel lies inside the raster. */
  lemma GeoPosToPixelInRaster(width: int, height: int, p: GeoPos)
    requires width > 0 && height > 0
    ensures 0 <= GeoPosToPixel(width, height, p).x < width
    ensures 0 <= GeoPosToPixel(width, height, p).y < height
  {
    ScaledPartBounds(width, FractionalPart(p.lon));
    ScaledPartBounds(height, FractionalPart(p.lat));
  }

  /**
   * Positions on the lower-left corner of a tile map to its bottom-left
   * pixel; half a degree east gives the middle column, and the column (or,
   * counted from the bottom, the row) steps by one between fractional parts
   * 0.0009765 and 0.0009766, one 1024th of a degree.
   */
  lemma GeoPosToPixelVectors()
    ensures GeoPosToPixel(1024, 1024, GeoPos(0.0, 0.0)) == Point(0, 1023)
    ensures GeoPosToPixel(1024, 1024, GeoPos(0.0, 0.5)) == Point(512, 1023)
    ensures GeoPosToPixel(1024, 1024, GeoPos(0.5, 0.0)) == Point(0, 511)
    ensures GeoPosToPixel(1024, 1024, GeoPos(0.99999, 0.0)) == Point(0, 0)
    ensures GeoPosToPixel(1024, 1024, GeoPos(0.0, 0.0009765)).x == 0
    ensures GeoPosToPixel(1024, 1024, GeoPos(0.0, 0.0009766)).x == 1
    ensures GeoPosToPixel(1024, 1024, GeoPos(0.0, 0.99999)) == Point(1023, 1023)
    ensures GeoPosToPixel(1024, 1024, GeoPos(0.0009765, 0.5)) == Point(512, 1023)
    ensures GeoPosToPixel(1024, 1024, GeoPos(0.0009766, 0.5)) == Point(512, 1022)
  {
    assert Trunc(0.5) == 0 && Trunc(0.99999) == 0 && Trunc(0.0009765) == 0 && Trunc(0.0009766) == 0;
    assert Trunc(1024.0 * 0.5) == 512;
    assert Trunc(1024.0 * 0.99999) == 1023;
    assert Trunc(1024.0 * 0.0009765) == 0;
    assert Trunc(1024.0 * 0.0009766) == 1;
  }

  // ---------------------------------------------------------------------------
  // Tile names
  // ---------------------------------------------------------------------------

  predicate StartsWith(s: string, c: char) { |s| > 0 && s[0] == c }

  /** `isInRange`: does the tile named `fileName` cover the position? */
  function IsInRange(fileName: string, p: GeoPos): (r: Result<bool>)
    ensures r.Ok? ==> |fileName| >= 7
    ensures r == Ok(true) ==> (StartsWith(fileName, 'w') <==> p.lon < 0.0)
    ensures r == Ok(true) ==> (fileName[4] == 's' <==> p.lat < 0.0)
  {
    var lonPositionString :- Substring(fileName, 1, 4);
    var latPositionString :- Substring(fileName, 5, 7);
    var fileLongitude :- ParseInt(lonPositionString);
    var fileLatitude :- ParseInt(latPositionString);
    var inputLongitude := Trunc(p.lon);
    var inputLatitude := Trunc(p.lat);
    var geoPosIsWest := p.lon < 0.0;
    var geoPosIsSouth := p.lat < 0.0;
    var isInRange := Abs(inputLatitude) >= fileLatitude && Abs(inputLatitude) < fileLatitude + 1 &&
                     Abs(inputLongitude) >= fileLongitude && Abs(inputLongitude) < fileLongitude + 1;
    if !isInRange then Ok(false)
    else if StartsWith(fileName, 'w') && fileName[4] == 'n' then Ok(geoPosIsWest && !geoPosIsSouth)
    else if StartsWith(fileName, 'e') && fileName[4] == 'n' then Ok(!geoPosIsWest && !geoPosIsSouth)
    else if StartsWith(fileName, 'w') && fileName[4] == 's' then Ok(geoPosIsWest && geoPosIsSouth)
    else if StartsWith(fileName, 'e') && fileName[4] == 's' then Ok(!geoPosIsWest && geoPosIsSouth)
    else Err(IllegalArgument)
  }

  /** A name whose two digit fields are all digits. */
  predicate WellFormedDigits(name: string) {
    |name| >= 7 && AllDigits(name[1..4]) && AllDigits(name[5..7])
  }

  /** The whole degrees of the position, truncated toward zero, agree with the name's digits. */
  predicate DigitsMatch(name: string, p: GeoPos)
    requires WellFormedDigits(name)
  {
    Abs(Trunc(p.lon)) == DigitsValue(name[1..4]) && Abs(Trunc(p.lat)) == DigitsValue(name[5..7])
  }

  predicate ValidLetters(name: string)
    requires |name| >= 7
  {
    (name[0] == 'w' || name[0] == 'e') && (name[4] == 'n' || name[4] == 's')
  }

  /** The hemisphere letters agree with the signs of the position. */
  predicate LettersAgree(name: string, p: GeoPos)
    requires |name| >= 7
  {
    (name[0] == 'w' <==> p.lon < 0.0) && (name[4] == 's' <==> p.lat < 0.0)
  }

  /**
   * For a name with digit fields: a digit mismatch answers false before the
   * letters are looked at; otherwise valid letters answer whether they agree
   * with the position and invalid letters throw.
   */
  lemma IsInRangeSpec(name: string, p: GeoPos)
    requires WellFormedDigits(name)
    ensures !DigitsMatch(name, p) ==> IsInRange(name, p) == Ok(false)
    ensures DigitsMatch(name, p) && ValidLetters(name) ==> IsInRange(name, p) == Ok(LettersAgree(name, p))
    ensures DigitsMatch(name, p) && !ValidLetters(name) ==> IsInRange(name, p) == Err(IllegalArgument)
  {
    ParseDigitField(name, 1, 4);
    ParseDigitField(name, 5, 7);
  }

  /** A name too short for its latitude field throws before anything is parsed. */
  lemma IsInRangeShortName(name: string, p: GeoPos)
    requires |name| < 7
    ensures IsInRange(name, p) == Err(IndexOutOfBounds)
  {
  }

  /**
   * The classifier's convention: `w002n51` covers longitudes whose truncation
   * is -2, that is (-3, -2], so the position (51.007, -1.30) is not in it.
   */
  lemma IsInRangeNearEdge()
    ensures IsInRange("w002n51.img", GeoPos(51.007, -1.30)) == Ok(false)
    ensures IsInRange("w001n51.img", GeoPos(51.007, -1.30)) == Ok(true)
  {
    var p := GeoPos(51.007, -1.30);
    assert Trunc(-1.30) == -1 && Trunc(51.007) == 51;
    NameFields("w002n51.img");
    IsInRangeSpec("w002n51.img", p);
    NameFields("w001n51.img");
    IsInRangeSpec("w001n51.img", p);
  }

  /** The digit fields of a concrete name, digit by digit. */
  lemma NameFields(name: string)
    requires |name| >= 7
    requires IsDigit(name[1]) && IsDigit(name[2]) && IsDigit(name[3]) && IsDigit(name[5]) && IsDigit(name[6])
    ensures WellFormedDigits(name)
    ensures DigitsValue(name[1..4]) == 100 * DigitValue(name[1]) + 10 * DigitValue(name[2]) + DigitValue(name[3])
    ensures DigitsValue(name[5..7]) == 10 * DigitValue(name[5]) + DigitValue(name[6])
  {
    var lon := name[1..4];
    assert lon[..2][..1] == [name[1]] && lon[..2] == [name[1], name[2]];
    assert DigitsValue([name[1]]) == DigitValue(name[1]) by {
      assert [name[1]][..0] == [];
    }
    var lat := name[5..7];
    assert lat[..1] == [name[5]];
    assert DigitsValue([name[5]]) == DigitValue(name[5]) by {
      assert [name[5]][..0] == [];
    }
  }

  // ---------------------------------------------------------------------------
  // The Bounds cache key
  // ---------------------------------------------------------------------------

  /** The one-degree key a position is cached under. */
  datatype Bounds = Bounds(minX: int, maxX: int, minY: int, maxY: int)

  function BoundsOf(p: GeoPos): (b: Bounds)
    ensures b.maxX == b.minX + 1 && b.maxY == b.minY + 1
  {
    var minX := Trunc(p.lon);
    var minY := Trunc(p.lat);
    Bounds(minX, minX + 1, minY, minY + 1)
  }

  /** `Bounds.equals` compares the four fields, which is datatype equality. */
  lemma BoundsEquality(p: GeoPos, q: GeoPos)
    ensures BoundsOf(p) == BoundsOf(q) <==> Trunc(p.lon) == Trunc(q.lon) && Trunc(p.lat) == Trunc(q.lat)
  {
  }

  /** Truncation toward zero makes the keys of lon -0.5 and lon 0.5 collide. */
  lemma BoundsCollideAcrossZero()
    ensures BoundsOf(GeoPos(0.0, -0.5)) == BoundsOf(GeoPos(0.0, 0.5))
  {
    assert Trunc(-0.5) == 0 && Trunc(0.5) == 0;
  }

  /** `Bounds.hashCode`, with Java's int wrap-around at every step. */
  function HashCode(b: Bounds): (h: int)
    ensures InIntRange(h)
  {
    var result := b.minX;
    var result := WrapInt(31 * result + b.maxX);
    var result := WrapInt(31 * result + b.minY);
    WrapInt(31 * result + b.maxY)
  }

  /** Equal keys hash alike; keys of valid positions hash without wrap-around. */
  lemma HashCodeOfPosition(p: GeoPos, q: GeoPos)
    requires ValidGeoPos(p)
    ensures BoundsOf(p) == BoundsOf(q) ==> HashCode(BoundsOf(p)) == HashCode(BoundsOf(q))
    ensures HashCode(BoundsOf(p)) == 29791 * Trunc(p.lon) + 961 * (Trunc(p.lon) + 1) + 31 * Trunc(p.lat) + Trunc(p.lat) + 1
  {
    var b := BoundsOf(p);
    assert -90 <= b.minX <= 90 && -180 <= b.minY <= 180;
    assert InIntRange(31 * b.minX + b.maxX);
    assert InIntRange(31 * (31 * b.minX + b.maxX) + b.minY);
  }

  /** `Bounds.isInRange`: the closed rectangle of the key. */
  predicate BoundsContains(b: Bounds, p: GeoPos) {
    b.minX as real <= p.lon <= b.maxX as real && b.minY as real <= p.lat <= b.maxY as real
  }

  predicate Integral(x: real) { x == x.Floor as real }

  /**
   * A key contains its own position exactly when each coordinate is
   * non-negative or a whole number: truncating a negative fraction moves
   * the lower bound above it.
   */
  lemma BoundsContainsOwnPosition(p: GeoPos)
    ensures BoundsContains(BoundsOf(p), p) <==>
      (p.lon >= 0.0 || Integral(p.lon)) && (p.lat >= 0.0 || Integral(p.lat))
  {
    TruncBelow(p.lon);
    TruncBelow(p.lat);
  }

  lemma TruncBelow(x: real)
    ensures Trunc(x) as real <= x <= Trunc(x) as real + 1.0
      <==> x >= 0.0 || Integral(x)
  {
    if x < 0.0 && Trunc(x) as real <= x {
      assert Trunc(x) as real == x;
      assert x.Floor == Trunc(x);
    }
  }

  // ---------------------------------------------------------------------------
  // The classifier and its image cache
  // ---------------------------------------------------------------------------

  /** A decoded tile image. */
  type Image = seq<int>

  /** Where the scan over the archive entries stops. */
  datatype ScanResult = Match(index: nat) | Throws(index: nat, error: Exception) | NoMatch

  /** The answer of the name test `test` for each archive entry, in order. */
  function Answers(entries: seq<string>, test: string -> Result<bool>): (s: seq<Result<bool>>)
    ensures |s| == |entries| && forall i :: 0 <= i < |entries| ==> s[i] == test(entries[i])
  {
    seq(|entries|, i requires 0 <= i < |entries| => test(entries[i]))
  }

  /** `isInRange` as the name test for position p. */
  function RangeTest(p: GeoPos): (test: string -> Result<bool>)
    ensures forall name :: test(name) == IsInRange(name, p)
  {
    name => IsInRange(name, p)
  }

  /** The scan of `findImage` over the entries' answers, from entry k on. */
  function Scan(answers: seq<Result<bool>>, k: nat): (r: ScanResult)
    ensures r.Match? || r.Throws? ==> k <= r.index < |answers|
    decreases |answers| - k
  {
    if k >= |answers| then NoMatch
    else match answers[k]
      case Ok(true) => Match(k)
      case Ok(false) => Scan(answers, k + 1)
      case Err(e) => Throws(k, e)
  }

  /** The scan stops at the first entry that does not answer false. */
  lemma {:induction false} ScanSpec(answers: seq<Result<bool>>, k: nat)
    requires k <= |answers|
    ensures Scan(answers, k).Match? ==>
      answers[Scan(answers, k).index] == Ok(true) &&
      forall j :: k <= j < Scan(answers, k).index ==> answers[j] == Ok(false)
    ensures Scan(answers, k).Throws? ==>
      answers[Scan(answers, k).index] == Err(Scan(answers, k).error) &&
      forall j :: k <= j < Scan(answers, k).index ==> answers[j] == Ok(false)
    ensures Scan(answers, k).NoMatch? ==>
      forall j :: k <= j < |answers| ==> answers[j] == Ok(false)
    decreases |answers| - k
  {
    if k < |answers| && answers[k] == Ok(false) {
      ScanSpec(answers, k + 1);
    }
  }

  function Repeat(key: Bounds, k: nat): (s: seq<Bounds>)
    ensures |s| == k && forall i :: 0 <= i < k ==> s[i] == key
  {
    seq(k, _ => key)
  }

  /** The classifier's size constants and the tiled image it reads from. */
  const IMAGE_WIDTH: int := 368640
  const IMAGE_HEIGHT: int := 184320
  const TILE_WIDTH: int := 1024
  const TILE_HEIGHT: int := 1024

  class Classifier {
    const sideLength: int
    /** `cachedImages`: the image found for each key. */
    var cachedImages: map<Bounds, Image>
    /** `banishedGeoPos`: one copy of the key per entry that did not match it. */
    var banished: seq<Bounds>

    constructor (sideLength: int)
      ensures this.sideLength == sideLength
      ensures cachedImages == map[] && banished == []
    {
      this.sideLength := sideLength;
      cachedImages := map[];
      banished := [];
    }

    /** `getAlreadyComputedImage`: the cached image of the position's key, if any. */
    function AlreadyComputedImage(p: GeoPos): (r: Option<Image>)
      reads this
      ensures r.Some? <==> BoundsOf(p) in cachedImages
      ensures r.Some? ==> r.value == cachedImages[BoundsOf(p)]
    {
      var key := BoundsOf(p);
      if |cachedImages| == 0 || key !in cachedImages then None else Some(cachedImages[key])
    }

    /**
     * `findImage`: a cached key answers from the cache; a banished key
     * throws; otherwise the entries are scanned, every non-matching entry
     * banishes the key once more, and the first matching entry's image is
     * cached and returned. `readImage` stands for reading an entry of the
     * archive.
     */
    method FindImage(p: GeoPos, entries: seq<string>, readImage: string -> Result<Image>)
      returns (r: Result<Image>)
      modifies this
      ensures BoundsOf(p) in old(cachedImages) ==>
        r == Ok(old(cachedImages)[BoundsOf(p)]) && cachedImages == old(cachedImages) && banished == old(banished)
      ensures BoundsOf(p) !in old(cachedImages) && BoundsOf(p) in old(banished) ==>
        r == Err(IllegalArgument) && cachedImages == old(cachedImages) && banished == old(banished)
      ensures BoundsOf(p) !in old(cachedImages) && BoundsOf(p) !in old(banished) ==>
        match Scan(Answers(entries, RangeTest(p)), 0)
        case Match(i) =>
          banished == old(banished) + Repeat(BoundsOf(p), i) &&
          (readImage(entries[i]).Ok? ==>
            r == readImage(entries[i]) && cachedImages == old(cachedImages)[BoundsOf(p) := r.value]) &&
          (readImage(entries[i]).Err? ==> r == readImage(entries[i]) && cachedImages == old(cachedImages))
        case Throws(i, e) =>
          r == Err(e) && banished == old(banished) + Repeat(BoundsOf(p), i) && cachedImages == old(cachedImages)
        case NoMatch =>
          r == Err(IllegalArgument) && banished == old(banished) + Repeat(BoundsOf(p), |entries|) &&
          cachedImages == old(cachedImages)
      ensures forall b :: b in old(cachedImages) ==> b in cachedImages && cachedImages[b] == old(cachedImages)[b]
    {
      var image := AlreadyComputedImage(p);
      if image.Some? {
        return Ok(image.value);
      }
      var key := BoundsOf(p);
      if key in banished {
        return Err(IllegalArgument);
      }
      var k := 0;
      while k < |entries|
        invariant 0 <= k <= |entries|
        invariant Scan(Answers(entries, RangeTest(p)), k) == Scan(Answers(entries, RangeTest(p)), 0)
        invariant banished == old(banished) + Repeat(key, k)
        invariant cachedImages == old(cachedImages)
      {
        var inRange := IsInRange(entries[k], p);
        if inRange.Err? {
          return Err(inRange.error);
        }
        if inRange.value {
          var bufferedImage := readImage(entries[k]);
          if bufferedImage.Err? {
            return bufferedImage;
          }
          cachedImages := cachedImages[key := bufferedImage.value];
          return bufferedImage;
        }
        banished := banished + [key];
        k := k + 1;
      }
      return Err(IllegalArgument);
    }
  }

  /**
   * `isWater`: validates the position, then reads the tiled image's sample
   * at the position's pixel; only the value 1 is water.
   */
  function IsWater(sideLength: int, sample: (int, int) -> int, lat: real, lon: real): (r: Result<bool>)
    ensures r.Err? <==> NewGeoPos(lat, lon).Err?
    ensures r.Ok? ==> (r.value <==>
      sample(GeoPosToPixel(sideLength, sideLength, GeoPos(lat, lon)).x,
             GeoPosToPixel(sideLength, sideLength, GeoPos(lat, lon)).y) == 1)
  {
    var geoPos :- NewGeoPos(lat, lon);
    var point := GeoPosToPixel(sideLength, sideLength, geoPos);
    Ok(sample(point.x, point.y) == 1)
  }
}
