/**
 * Tile names as the rasterizer writes them: the digits of a `w` name are the
 * western edge of its degree square, those of an `s` name its southern edge,
 * so `w002` covers longitudes from -2 to -1. This module holds the name test
 * that agrees with that convention, and proves it against the rasterizer's
 * envelope of the name.
 */
module TileNaming {
  import opened JavaLang
  import TileClassifier
  import Rasterizer

  type GeoPos = TileClassifier.GeoPos

  /** The digits of the degree square holding x: its edge nearer to minus infinity, without sign. */
  function TileDegrees(x: real): (d: int)
    ensures d >= 0
    ensures x >= 0.0 ==> d as real <= x < d as real + 1.0
    ensures x < 0.0 ==> -(d as real) <= x < -(d as real) + 1.0
  {
    if x < 0.0 then -x.Floor else x.Floor
  }

  /**
   * The name test with the rasterizer's convention: the digit fields must be
   * the position's tile degrees, and the letters then decide as in the
   * classifier (its order of parsing and its exceptions are kept).
   */
  function IsInRangeCorrected(fileName: string, p: GeoPos): (r: Result<bool>)
    ensures r.Ok? ==> |fileName| >= 7
    ensures r == Ok(true) ==> (TileClassifier.StartsWith(fileName, 'w') <==> p.lon < 0.0)
    ensures r == Ok(true) ==> (fileName[4] == 's' <==> p.lat < 0.0)
  {
    var lonPositionString :- Substring(fileName, 1, 4);
    var latPositionString :- Substring(fileName, 5, 7);
    var fileLongitude :- ParseInt(lonPositionString);
    var fileLatitude :- ParseInt(latPositionString);
    var geoPosIsWest := p.lon < 0.0;
    var geoPosIsSouth := p.lat < 0.0;
    var isInRange := TileDegrees(p.lat) == fileLatitude && TileDegrees(p.lon) == fileLongitude;
    if !isInRange then Ok(false)
    else if TileClassifier.StartsWith(fileName, 'w') && fileName[4] == 'n' then Ok(geoPosIsWest && !geoPosIsSouth)
    else if TileClassifier.StartsWith(fileName, 'e') && fileName[4] == 'n' then Ok(!geoPosIsWest && !geoPosIsSouth)
    else if TileClassifier.StartsWith(fileName, 'w') && fileName[4] == 's' then Ok(geoPosIsWest && geoPosIsSouth)
    else if TileClassifier.StartsWith(fileName, 'e') && fileName[4] == 's' then Ok(!geoPosIsWest && geoPosIsSouth)
    else Err(IllegalArgument)
  }

  /** The position's tile degrees agree with the name's digits. */
  predicate DegreesMatch(name: string, p: GeoPos)
    requires TileClassifier.WellFormedDigits(name)
  {
    TileDegrees(p.lon) == DigitsValue(name[1..4]) && TileDegrees(p.lat) == DigitsValue(name[5..7])
  }

  /** For a name with digit fields: the same decision as the classifier's, on tile degrees. */
  lemma IsInRangeCorrectedSpec(name: string, p: GeoPos)
    requires TileClassifier.WellFormedDigits(name)
    ensures !DegreesMatch(name, p) ==> IsInRangeCorrected(name, p) == Ok(false)
    ensures DegreesMatch(name, p) && TileClassifier.ValidLetters(name) ==>
      IsInRangeCorrected(name, p) == Ok(TileClassifier.LettersAgree(name, p))
    ensures DegreesMatch(name, p) && !TileClassifier.ValidLetters(name) ==>
      IsInRangeCorrected(name, p) == Err(IllegalArgument)
  {
    ParseDigitField(name, 1, 4);
    ParseDigitField(name, 5, 7);
  }

  /** The position lies in the envelope, the western and southern edges included. */
  predicate InEnvelope(e: Rasterizer.Envelope, p: GeoPos) {
    e.lonMin as real <= p.lon < e.lonMax as real && e.latMin as real <= p.lat < e.latMax as real
  }

  /**
   * A name with digit fields and valid letters covers exactly the positions
   * of the envelope the rasterizer gives it, when its `w` and `s` digits are
   * not zero (`w000` and `s00` name squares east of, or north of, zero).
   */
  lemma CorrectedMatchesEnvelope(name: string, p: GeoPos)
    requires TileClassifier.WellFormedDigits(name) && TileClassifier.ValidLetters(name)
    requires name[0] == 'w' ==> DigitsValue(name[1..4]) > 0
    requires name[4] == 's' ==> DigitsValue(name[5..7]) > 0
    ensures Rasterizer.NameEnvelope(name).Ok?
    ensures IsInRangeCorrected(name, p) == Ok(InEnvelope(Rasterizer.NameEnvelope(name).value, p))
  {
    Rasterizer.NameEnvelopeSpec(name);
    IsInRangeCorrectedSpec(name, p);
    var lon: int := DigitsValue(name[1..4]);
    var lat: int := DigitsValue(name[5..7]);
    var e := Rasterizer.NameEnvelope(name).value;
    if InEnvelope(e, p) {
      if name[0] == 'w' {
        assert p.lon < 0.0;
        assert p.lon.Floor == -lon;
      } else {
        assert p.lon.Floor == lon;
      }
      if name[4] == 's' {
        assert p.lat < 0.0;
        assert p.lat.Floor == -lat;
      } else {
        assert p.lat.Floor == lat;
      }
    }
  }

  /** The envelope of the name with the position's degrees and hemispheres always holds it. */
  lemma OwnTileHoldsPosition(name: string, p: GeoPos)
    requires TileClassifier.WellFormedDigits(name) && TileClassifier.ValidLetters(name)
    requires DegreesMatch(name, p) && TileClassifier.LettersAgree(name, p)
    ensures IsInRangeCorrected(name, p) == Ok(true)
    ensures Rasterizer.NameEnvelope(name).Ok? && InEnvelope(Rasterizer.NameEnvelope(name).value, p)
  {
    IsInRangeCorrectedSpec(name, p);
    Rasterizer.NameEnvelopeSpec(name);
  }

  /**
   * The classifier's test as written rejects a position that lies inside
   * the envelope the rasterizer drew for that very tile: (51.007, -1.30) is
   * in `w002n51`, whose envelope is longitudes [-2, -1], yet only `w001n51`
   * is accepted.
   */
  lemma AsWrittenMissesOwnTile()
    ensures Rasterizer.NameEnvelope("w002n51.img") == Ok(Rasterizer.Envelope(-2, -1, 51, 52))
    ensures InEnvelope(Rasterizer.Envelope(-2, -1, 51, 52), TileClassifier.GeoPos(51.007, -1.30))
    ensures TileClassifier.IsInRange("w002n51.img", TileClassifier.GeoPos(51.007, -1.30)) == Ok(false)
    ensures IsInRangeCorrected("w002n51.img", TileClassifier.GeoPos(51.007, -1.30)) == Ok(true)
  {
    TileClassifier.NameFields("w002n51.img");
    Rasterizer.NameEnvelopeSpec("w002n51.img");
    TileClassifier.IsInRangeNearEdge();
    CorrectedNorthWest51();
  }

  /** `w002n51` holds longitude -1.30 on latitude 51; `w001n51` does not. */
  lemma CorrectedNorthWest51()
    ensures IsInRangeCorrected("w002n51.img", TileClassifier.GeoPos(51.007, -1.30)) == Ok(true)
    ensures IsInRangeCorrected("w001n51.img", TileClassifier.GeoPos(51.007, -1.30)) == Ok(false)
  {
    assert (51.007).Floor == 51 && (-1.30).Floor == -2;
    TileClassifier.NameFields("w002n51.img");
    IsInRangeCorrectedSpec("w002n51.img", TileClassifier.GeoPos(51.007, -1.30));
    TileClassifier.NameFields("w001n51.img");
    IsInRangeCorrectedSpec("w001n51.img", TileClassifier.GeoPos(51.007, -1.30));
  }

  /** `w002n48` holds longitude -1.83 on latitude 48; `w001n48` does not. */
  lemma CorrectedNorthWest48()
    ensures IsInRangeCorrected("w002n48.img", TileClassifier.GeoPos(48.007, -1.83)) == Ok(true)
    ensures IsInRangeCorrected("w001n48.img", TileClassifier.GeoPos(48.007, -1.83)) == Ok(false)
  {
    assert (48.007).Floor == 48 && (-1.83).Floor == -2;
    TileClassifier.NameFields("w002n48.img");
    IsInRangeCorrectedSpec("w002n48.img", TileClassifier.GeoPos(48.007, -1.83));
    TileClassifier.NameFields("w001n48.img");
    IsInRangeCorrectedSpec("w001n48.img", TileClassifier.GeoPos(48.007, -1.83));
  }

  /** `e000n51` holds longitude 0.30; `e001n51` does not. */
  lemma CorrectedNorthEast51()
    ensures IsInRangeCorrected("e000n51.img", TileClassifier.GeoPos(51.007, 0.30)) == Ok(true)
    ensures IsInRangeCorrected("e001n51.img", TileClassifier.GeoPos(51.007, 0.30)) == Ok(false)
  {
    assert (51.007).Floor == 51 && (0.30).Floor == 0;
    TileClassifier.NameFields("e000n51.img");
    IsInRangeCorrectedSpec("e000n51.img", TileClassifier.GeoPos(51.007, 0.30));
    TileClassifier.NameFields("e001n51.img");
    IsInRangeCorrectedSpec("e001n51.img", TileClassifier.GeoPos(51.007, 0.30));
  }

  /** `e000n49` holds a position just below latitude 50. */
  lemma CorrectedNorthEast49()
    ensures IsInRangeCorrected("e000n49.img", TileClassifier.GeoPos(49.993961334228516, 0.006230226717889309)) == Ok(true)
  {
    assert (49.993961334228516).Floor == 49 && (0.006230226717889309).Floor == 0;
    TileClassifier.NameFields("e000n49.img");
    IsInRangeCorrectedSpec("e000n49.img", TileClassifier.GeoPos(49.993961334228516, 0.006230226717889309));
  }

  /** `w001n49` does not hold an eastern position. */
  lemma CorrectedWrongHemisphere()
    ensures IsInRangeCorrected("w001n49.img", TileClassifier.GeoPos(51.007, 0.30)) == Ok(false)
  {
    assert (51.007).Floor == 51 && (0.30).Floor == 0;
    TileClassifier.NameFields("w001n49.img");
    IsInRangeCorrectedSpec("w001n49.img", TileClassifier.GeoPos(51.007, 0.30));
  }

  /** `e001n51` holds longitude 1.30; `e000n51` does not. */
  lemma CorrectedNorthEastFar51()
    ensures IsInRangeCorrected("e001n51.img", TileClassifier.GeoPos(51.007, 1.30)) == Ok(true)
    ensures IsInRangeCorrected("e000n51.img", TileClassifier.GeoPos(51.007, 1.30)) == Ok(false)
  {
    assert (51.007).Floor == 51 && (1.30).Floor == 1;
    TileClassifier.NameFields("e001n51.img");
    IsInRangeCorrectedSpec("e001n51.img", TileClassifier.GeoPos(51.007, 1.30));
    TileClassifier.NameFields("e000n51.img");
    IsInRangeCorrectedSpec("e000n51.img", TileClassifier.GeoPos(51.007, 1.30));
  }

  /** `e000n45` holds longitude 0.005; `w000n45` does not. */
  lemma CorrectedNorthEast45()
    ensures IsInRangeCorrected("e000n45.img", TileClassifier.GeoPos(45.001, 0.005)) == Ok(true)
    ensures IsInRangeCorrected("w000n45.img", TileClassifier.GeoPos(45.001, 0.005)) == Ok(false)
  {
    assert (45.001).Floor == 45 && (0.005).Floor == 0;
    TileClassifier.NameFields("e000n45.img");
    IsInRangeCorrectedSpec("e000n45.img", TileClassifier.GeoPos(45.001, 0.005));
    TileClassifier.NameFields("w000n45.img");
    IsInRangeCorrectedSpec("w000n45.img", TileClassifier.GeoPos(45.001, 0.005));
  }

  /** `e111n30` holds (30.27, 111.581) but not (29.01, 112.01). */
  lemma CorrectedNorthEast30()
    ensures IsInRangeCorrected("e111n30.img", TileClassifier.GeoPos(30.27, 111.581)) == Ok(true)
    ensures IsInRangeCorrected("e111n30.img", TileClassifier.GeoPos(29.01, 112.01)) == Ok(false)
  {
    assert (30.27).Floor == 30 && (111.581).Floor == 111 && (29.01).Floor == 29 && (112.01).Floor == 112;
    TileClassifier.NameFields("e111n30.img");
    IsInRangeCorrectedSpec("e111n30.img", TileClassifier.GeoPos(30.27, 111.581));
    IsInRangeCorrectedSpec("e111n30.img", TileClassifier.GeoPos(29.01, 112.01));
  }

  /** `w001s01` holds (-0.01, -0.30); `w000s01` does not. */
  lemma CorrectedSouthWest01()
    ensures IsInRangeCorrected("w001s01.img", TileClassifier.GeoPos(-0.01, -0.30)) == Ok(true)
    ensures IsInRangeCorrected("w000s01.img", TileClassifier.GeoPos(-0.01, -0.30)) == Ok(false)
  {
    assert (-0.01).Floor == -1 && (-0.30).Floor == -1;
    TileClassifier.NameFields("w001s01.img");
    IsInRangeCorrectedSpec("w001s01.img", TileClassifier.GeoPos(-0.01, -0.30));
    TileClassifier.NameFields("w000s01.img");
    IsInRangeCorrectedSpec("w000s01.img", TileClassifier.GeoPos(-0.01, -0.30));
  }

  /** `w002s02` holds (-1.01, -1.30); `w001s01` does not. */
  lemma CorrectedSouthWest02()
    ensures IsInRangeCorrected("w002s02.img", TileClassifier.GeoPos(-1.01, -1.30)) == Ok(true)
    ensures IsInRangeCorrected("w001s01.img", TileClassifier.GeoPos(-1.01, -1.30)) == Ok(false)
  {
    assert (-1.01).Floor == -2 && (-1.30).Floor == -2;
    TileClassifier.NameFields("w002s02.img");
    IsInRangeCorrectedSpec("w002s02.img", TileClassifier.GeoPos(-1.01, -1.30));
    TileClassifier.NameFields("w001s01.img");
    IsInRangeCorrectedSpec("w001s01.img", TileClassifier.GeoPos(-1.01, -1.30));
  }

  /** `e000s01` holds (-0.01, 0.30); `e000s00` does not. */
  lemma CorrectedSouthEast00()
    ensures IsInRangeCorrected("e000s01.img", TileClassifier.GeoPos(-0.01, 0.30)) == Ok(true)
    ensures IsInRangeCorrected("e000s00.img", TileClassifier.GeoPos(-0.01, 0.30)) == Ok(false)
  {
    assert (-0.01).Floor == -1 && (0.30).Floor == 0;
    TileClassifier.NameFields("e000s01.img");
    IsInRangeCorrectedSpec("e000s01.img", TileClassifier.GeoPos(-0.01, 0.30));
    TileClassifier.NameFields("e000s00.img");
    IsInRangeCorrectedSpec("e000s00.img", TileClassifier.GeoPos(-0.01, 0.30));
  }

  /** `e001s01` holds (-0.01, 1.30); `e001s00` does not. */
  lemma CorrectedSouthEast01()
    ensures IsInRangeCorrected("e001s01.img", TileClassifier.GeoPos(-0.01, 1.30)) == Ok(true)
    ensures IsInRangeCorrected("e001s00.img", TileClassifier.GeoPos(-0.01, 1.30)) == Ok(false)
  {
    assert (-0.01).Floor == -1 && (1.30).Floor == 1;
    TileClassifier.NameFields("e001s01.img");
    IsInRangeCorrectedSpec("e001s01.img", TileClassifier.GeoPos(-0.01, 1.30));
    TileClassifier.NameFields("e001s00.img");
    IsInRangeCorrectedSpec("e001s00.img", TileClassifier.GeoPos(-0.01, 1.30));
  }
}
