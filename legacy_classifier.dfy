/**
 * The first classifier: one archive of per-degree tile images, each
 * `sideLength` pixels square, searched entry by entry for the tile whose name
 * covers a position. Its name test looks at the longitude letter only.
 */
module LegacyClassifier {
  import opened JavaLang
  import TileClassifier

  type GeoPos = TileClassifier.GeoPos

  /** The side length of a tile image when none is given. */
  const DEFAULT_SIDE_LENGTH: int := 1024

  /** The classifier's one setting, fixed at construction. */
  datatype Classifier = Classifier(sideLength: int)

  /** The classifier built by the constructor without arguments. */
  function DefaultClassifier(): (c: Classifier)
    ensures c.sideLength == DEFAULT_SIDE_LENGTH
  {
    Classifier(DEFAULT_SIDE_LENGTH)
  }

  /**
   * `isInRange`: the digit fields are cut out and parsed first; then a name
   * starting with `w` covers western positions, one starting with `e`
   * eastern positions, whose whole degrees (truncated toward zero) equal the
   * digits. Any other first letter throws. The latitude letter is never
   * read.
   */
  function IsInRange(fileName: string, p: GeoPos): (r: Result<bool>)
    ensures r.Ok? ==> |fileName| >= 7 && (fileName[0] == 'w' || fileName[0] == 'e')
    ensures r == Ok(true) ==> (fileName[0] == 'w' <==> p.lon < 0.0)
  {
    var lonPositionString :- Substring(fileName, 1, 4);
    var latPositionString :- Substring(fileName, 5, 7);
    var fileLongitude :- ParseInt(lonPositionString);
    var fileLatitude :- ParseInt(latPositionString);
    var inputLongitude := Trunc(p.lon);
    var inputLatitude := Trunc(p.lat);
    var geoPosIsWest := p.lon < 0.0;
    var isInRange := Abs(inputLatitude) >= fileLatitude && Abs(inputLatitude) < fileLatitude + 1 &&
                     Abs(inputLongitude) >= fileLongitude && Abs(inputLongitude) < fileLongitude + 1;
    if TileClassifier.StartsWith(fileName, 'w') then Ok(geoPosIsWest && isInRange)
    else if TileClassifier.StartsWith(fileName, 'e') then Ok(!geoPosIsWest && isInRange)
    else Err(IllegalArgument)
  }

  /**
   * For a name with digit fields: a `w` name answers whether the position is
   * western and its degrees match, an `e` name whether it is eastern and they
   * match, and any other first letter throws whatever the digits say.
   */
  lemma IsInRangeSpec(name: string, p: GeoPos)
    requires TileClassifier.WellFormedDigits(name)
    ensures name[0] == 'w' ==> IsInRange(name, p) == Ok(p.lon < 0.0 && TileClassifier.DigitsMatch(name, p))
    ensures name[0] == 'e' ==> IsInRange(name, p) == Ok(p.lon >= 0.0 && TileClassifier.DigitsMatch(name, p))
    ensures name[0] != 'w' && name[0] != 'e' ==> IsInRange(name, p) == Err(IllegalArgument)
  {
    ParseDigitField(name, 1, 4);
    ParseDigitField(name, 5, 7);
  }

  /** The latitude letter can be anything: replacing it never changes the answer. */
  lemma LatitudeLetterIgnored(name: string, c: char, p: GeoPos)
    requires |name| >= 7
    ensures IsInRange(name[..4] + [c] + name[5..], p) == IsInRange(name, p)
  {
    var other := name[..4] + [c] + name[5..];
    assert other[1..4] == name[1..4];
    assert other[5..7] == name[5..7];
    assert other[0] == name[0];
  }

  /** A name too short for its latitude field throws before anything is parsed. */
  lemma IsInRangeShortName(name: string, p: GeoPos)
    requires |name| < 7
    ensures IsInRange(name, p) == Err(IndexOutOfBounds)
  {
  }

  /** The test's cases for the tile `e000n05`: its interior and its lower edge, but not the degree below. */
  lemma IsInRangeVectorsNorthEast()
    ensures IsInRange("e000n05f.img", TileClassifier.GeoPos(5.9, 0.6)) == Ok(true)
    ensures IsInRange("e000n05f.img", TileClassifier.GeoPos(5.0, 0.9)) == Ok(true)
    ensures IsInRange("e000n05f.img", TileClassifier.GeoPos(4.99, 0.1)) == Ok(false)
  {
    assert Trunc(5.9) == 5 && Trunc(0.6) == 0 && Trunc(0.9) == 0 && Trunc(4.99) == 4 && Trunc(0.1) == 0;
    TileClassifier.NameFields("e000n05f.img");
    IsInRangeSpec("e000n05f.img", TileClassifier.GeoPos(5.9, 0.6));
    IsInRangeSpec("e000n05f.img", TileClassifier.GeoPos(5.0, 0.9));
    IsInRangeSpec("e000n05f.img", TileClassifier.GeoPos(4.99, 0.1));
  }

  /** The test's southern cases: the latitude letter does not matter, so `w000n05` accepts latitude -5. */
  lemma IsInRangeVectorsSouth()
    ensures IsInRange("w000n05f.img", TileClassifier.GeoPos(-5.0, -0.1)) == Ok(true)
    ensures IsInRange("e000s05f.img", TileClassifier.GeoPos(-5.001, 0.1)) == Ok(true)
    ensures IsInRange("w000s05f.img", TileClassifier.GeoPos(-5.0, -0.1)) == Ok(true)
  {
    assert Trunc(-0.1) == 0 && Trunc(-5.001) == -5 && Trunc(0.1) == 0;
    TileClassifier.NameFields("w000n05f.img");
    IsInRangeSpec("w000n05f.img", TileClassifier.GeoPos(-5.0, -0.1));
    TileClassifier.NameFields("e000s05f.img");
    IsInRangeSpec("e000s05f.img", TileClassifier.GeoPos(-5.001, 0.1));
    TileClassifier.NameFields("w000s05f.img");
    IsInRangeSpec("w000s05f.img", TileClassifier.GeoPos(-5.0, -0.1));
  }

  /** The test's remaining cases: a tile far from zero, and a position far from the tile. */
  lemma IsInRangeVectorsFar()
    ensures IsInRange("w120s53f.img", TileClassifier.GeoPos(-53.71, -120.53)) == Ok(true)
    ensures IsInRange("e000n09f.img", TileClassifier.GeoPos(10.0, 179.0)) == Ok(false)
  {
    assert Trunc(-53.71) == -53 && Trunc(-120.53) == -120;
    TileClassifier.NameFields("w120s53f.img");
    IsInRangeSpec("w120s53f.img", TileClassifier.GeoPos(-53.71, -120.53));
    TileClassifier.NameFields("e000n09f.img");
    IsInRangeSpec("e000n09f.img", TileClassifier.GeoPos(10.0, 179.0));
  }

  /** This revision's `isInRange` as the name test for position p. */
  function RangeTest(p: GeoPos): (test: string -> Result<bool>)
    ensures forall name :: test(name) == IsInRange(name, p)
  {
    name => IsInRange(name, p)
  }

  /**
   * The entry `findImage` opens: the first one that covers the position; an
   * exception of the name test propagates, and no match at all throws
   * IllegalArgumentException.
   */
  function FoundEntry(entries: seq<string>, p: GeoPos): (r: Result<string>)
  {
    match TileClassifier.Scan(TileClassifier.Answers(entries, RangeTest(p)), 0)
    case Match(i) => Ok(entries[i])
    case Throws(_, e) => Err(e)
    case NoMatch => Err(IllegalArgument)
  }

  /**
   * The entry found is one that covers the position, and every entry before
   * it does not; when none is found, either some entry threw on the way or
   * none covers it.
   */
  lemma FoundEntrySpec(entries: seq<string>, p: GeoPos)
    ensures FoundEntry(entries, p).Ok? ==>
      exists i :: 0 <= i < |entries| && entries[i] == FoundEntry(entries, p).value &&
        IsInRange(entries[i], p) == Ok(true) && forall j :: 0 <= j < i ==> IsInRange(entries[j], p) == Ok(false)
    ensures FoundEntry(entries, p) == Err(IllegalArgument) ==>
      (forall j :: 0 <= j < |entries| ==> IsInRange(entries[j], p) == Ok(false)) ||
      (exists i :: 0 <= i < |entries| && IsInRange(entries[i], p) == Err(IllegalArgument))
    ensures (forall j :: 0 <= j < |entries| ==> IsInRange(entries[j], p) == Ok(false)) ==>
      FoundEntry(entries, p) == Err(IllegalArgument)
  {
    var answers := TileClassifier.Answers(entries, RangeTest(p));
    TileClassifier.ScanSpec(answers, 0);
    if forall j :: 0 <= j < |entries| ==> IsInRange(entries[j], p) == Ok(false) {
      NoMatchScan(answers, 0);
    }
    match TileClassifier.Scan(answers, 0)
    case Match(i) =>
      assert entries[i] == FoundEntry(entries, p).value;
    case Throws(i, e) =>
    case NoMatch =>
  }

  /**
   * No tile covers a position whose latitude has three digits: with an
   * archive of well-named entries, the search throws IllegalArgumentException.
   */
  lemma NoEntryFarNorth(entries: seq<string>, p: GeoPos)
    requires forall i :: 0 <= i < |entries| ==>
      TileClassifier.WellFormedDigits(entries[i]) && (entries[i][0] == 'w' || entries[i][0] == 'e')
    requires Abs(Trunc(p.lat)) >= 100
    ensures FoundEntry(entries, p) == Err(IllegalArgument)
  {
    var answers := TileClassifier.Answers(entries, RangeTest(p));
    forall i | 0 <= i < |entries| ensures answers[i] == Ok(false) {
      IsInRangeSpec(entries[i], p);
      DigitsBound(entries[i][5..7]);
      assert Pow10(2) == 100;
    }
    FoundEntrySpec(entries, p);
  }

  /** Answers that are all false scan to no match. */
  lemma {:induction false} NoMatchScan(answers: seq<Result<bool>>, k: nat)
    requires k <= |answers|
    requires forall i :: k <= i < |answers| ==> answers[i] == Ok(false)
    ensures TileClassifier.Scan(answers, k) == TileClassifier.NoMatch
    decreases |answers| - k
  {
    if k < |answers| {
      NoMatchScan(answers, k + 1);
    }
  }

  /** `findImage`: the loop over the archive entries, stopping at the first that covers the position. */
  method FindImage(p: GeoPos, entries: seq<string>) returns (r: Result<string>)
    ensures r == FoundEntry(entries, p)
  {
    var k := 0;
    while k < |entries|
      invariant 0 <= k <= |entries|
      invariant TileClassifier.Scan(TileClassifier.Answers(entries, RangeTest(p)), k) == TileClassifier.Scan(TileClassifier.Answers(entries, RangeTest(p)), 0)
    {
      var inRange := IsInRange(entries[k], p);
      if inRange.Err? {
        return Err(inRange.error);
      }
      if inRange.value {
        return Ok(entries[k]);
      }
      k := k + 1;
    }
    return Err(IllegalArgument);
  }

  /**
   * `isWater`: validates the position, finds its entry, and reads that
   * entry's image at the position's pixel; only the sample 1 is water.
   * `readSample(entry, x, y)` stands for reading the entry's image and
   * taking its sample at (x, y), with any IOException of the read.
   */
  function IsWater(c: Classifier, entries: seq<string>, readSample: (string, int, int) -> Result<int>,
                   lat: real, lon: real): (r: Result<bool>)
    ensures TileClassifier.NewGeoPos(lat, lon).Err? ==> r == Err(IllegalArgument)
    ensures r.Ok? ==> FoundEntry(entries, TileClassifier.GeoPos(lat, lon)).Ok?
    ensures r.Ok? ==>
      var point := TileClassifier.GeoPosToPixel(c.sideLength, c.sideLength, TileClassifier.GeoPos(lat, lon));
      (r.value <==> readSample(FoundEntry(entries, TileClassifier.GeoPos(lat, lon)).value, point.x, point.y) == Ok(1))
    ensures TileClassifier.NewGeoPos(lat, lon).Ok? && FoundEntry(entries, TileClassifier.GeoPos(lat, lon)).Err? ==>
      r == Err(FoundEntry(entries, TileClassifier.GeoPos(lat, lon)).error)
    ensures TileClassifier.NewGeoPos(lat, lon).Ok? && FoundEntry(entries, TileClassifier.GeoPos(lat, lon)).Ok? ==>
      var point := TileClassifier.GeoPosToPixel(c.sideLength, c.sideLength, TileClassifier.GeoPos(lat, lon));
      var sample := readSample(FoundEntry(entries, TileClassifier.GeoPos(lat, lon)).value, point.x, point.y);
      (r.Err? <==> sample.Err?) && (sample.Err? ==> r == Err(sample.error)) && (sample.Ok? ==> r == Ok(sample.value == 1))
  {
    var geoPos :- TileClassifier.NewGeoPos(lat, lon);
    var entry :- FoundEntry(entries, geoPos);
    var point := TileClassifier.GeoPosToPixel(c.sideLength, c.sideLength, geoPos);
    var sample :- readSample(entry, point.x, point.y);
    Ok(sample == 1)
  }

  /** The default classifier reads pixels of its 1024-pixel tiles only. */
  lemma DefaultPixelInTile(p: GeoPos)
    ensures var point := TileClassifier.GeoPosToPixel(DefaultClassifier().sideLength, DefaultClassifier().sideLength, p);
      0 <= point.x < 1024 && 0 <= point.y < 1024
  {
    TileClassifier.GeoPosToPixelInRaster(1024, 1024, p);
  }
}
