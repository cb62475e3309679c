/**
 * The naming conventions of the tool that rasterizes one shapefile per
 * degree square into a tile image: the image side length for a resolution,
 * the degree envelope a tile name stands for, the output file name, and the
 * set of temporary files it cleans up.
 */
module Rasterizer {
  import opened JavaLang

  // ---------------------------------------------------------------------------
  // Side length
  // ---------------------------------------------------------------------------

  /** The equator length in metres the side length is derived from. */
  const EQUATOR_METRES: int := 40024000

  /**
   * `computeSideLength`: pixels per degree of longitude at the given
   * resolution, rounded down to a multiple of 8; a zero resolution divides
   * by zero.
   */
  function ComputeSideLength(resolution: int): (r: Result<int>)
    ensures r.Err? <==> resolution == 0
    ensures r.Err? ==> r.error == Arithmetic
  {
    if resolution == 0 then Err(Arithmetic)
    else
      var pixelXCount := JavaDiv(EQUATOR_METRES, resolution);
      var pixelXCountPerTile := JavaDiv(pixelXCount, 360);
      var temp := JavaDiv(pixelXCountPerTile, 8);
      Ok(temp * 8)
  }

  /**
   * For a positive resolution the side length is the multiple of 8 just at
   * or below the per-degree pixel count.
   */
  lemma SideLengthSpec(resolution: int)
    requires resolution > 0
    ensures var perDegree := (EQUATOR_METRES / resolution) / 360;
      ComputeSideLength(resolution).Ok? &&
      ComputeSideLength(resolution).value % 8 == 0 &&
      perDegree - 8 < ComputeSideLength(resolution).value <= perDegree
  {
    var perDegree := (EQUATOR_METRES / resolution) / 360;
    assert perDegree == (perDegree / 8) * 8 + perDegree % 8;
  }

  /** The two resolutions the classifier supports give 2216 and 736 pixels. */
  lemma SideLengthVectors()
    ensures ComputeSideLength(50) == Ok(2216)
    ensures ComputeSideLength(150) == Ok(736)
  {
  }

  // ---------------------------------------------------------------------------
  // Envelope of a tile name
  // ---------------------------------------------------------------------------

  /** A one-degree square, in whole degrees. */
  datatype Envelope = Envelope(lonMin: int, lonMax: int, latMin: int, latMax: int)

  predicate StartsWith(s: string, c: char) { |s| > 0 && s[0] == c }

  /**
   * The envelope a tile name stands for: for `e` the digits are the western
   * edge, for `w` they are the negated western edge (so `w002` is [-2, -1]);
   * likewise `n` gives the southern edge and `s` the negated one. Unknown
   * letters throw IllegalStateException.
   */
  function NameEnvelope(name: string): (r: Result<Envelope>)
    ensures r.Ok? ==> r.value.lonMax == r.value.lonMin + 1 && r.value.latMax == r.value.latMin + 1
    ensures r.Ok? ==> |name| >= 7
  {
    var lon :- ParseField(name, 1, 4);
    var lonMin :- if StartsWith(name, 'e') then Ok(lon)
                  else if StartsWith(name, 'w') then Ok(-lon)
                  else Err(IllegalState);
    var lat :- ParseField(name, 5, 7);
    var latMin :- if name[4] == 'n' then Ok(lat)
                  else if name[4] == 's' then Ok(-lat)
                  else Err(IllegalState);
    Ok(Envelope(lonMin, lonMin + 1, latMin, latMin + 1))
  }

  predicate WellFormedDigits(name: string) {
    |name| >= 7 && AllDigits(name[1..4]) && AllDigits(name[5..7])
  }

  /**
   * For a name with digit fields the envelope is read off its letters and
   * digits; a wrong longitude letter throws, and so does a wrong latitude
   * letter after a good longitude letter.
   */
  lemma NameEnvelopeSpec(name: string)
    requires WellFormedDigits(name)
    ensures var lon: int := DigitsValue(name[1..4]); var lat: int := DigitsValue(name[5..7]);
      (name[0] != 'e' && name[0] != 'w' ==> NameEnvelope(name) == Err(IllegalState)) &&
      ((name[0] == 'e' || name[0] == 'w') && name[4] != 'n' && name[4] != 's' ==> NameEnvelope(name) == Err(IllegalState)) &&
      ((name[0] == 'e' || name[0] == 'w') && (name[4] == 'n' || name[4] == 's') ==>
        NameEnvelope(name) == Ok(Envelope(
          if name[0] == 'e' then lon else -lon, (if name[0] == 'e' then lon else -lon) + 1,
          if name[4] == 'n' then lat else -lat, (if name[4] == 'n' then lat else -lat) + 1)))
  {
    ParseDigitField(name, 1, 4);
    ParseDigitField(name, 5, 7);
  }

  // ---------------------------------------------------------------------------
  // File names
  // ---------------------------------------------------------------------------

  /** `lastIndexOf(c)`: the last index holding c, or -1. */
  function LastIndexOf(s: string, c: char): (i: int)
    ensures -1 <= i < |s|
    ensures i == -1 <==> c !in s
    ensures i >= 0 ==> s[i] == c && forall j :: i < j < |s| ==> s[j] != c
  {
    if |s| == 0 then -1
    else if s[|s| - 1] == c then |s| - 1
    else LastIndexOf(s[..|s| - 1], c)
  }

  /**
   * `getFilenameWithoutExtension`: cuts at the last dot, unless that dot is
   * the first or the last character.
   */
  function FilenameWithoutExtension(fileName: string): (r: string)
    ensures r <= fileName
    ensures r != fileName <==> 0 < LastIndexOf(fileName, '.') < |fileName| - 1
    ensures r != fileName ==> |r| > 0 && fileName[|r|] == '.' && '.' !in fileName[|r| + 1..]
  {
    var i := LastIndexOf(fileName, '.');
    if i > 0 && i < |fileName| - 1 then fileName[..i] else fileName
  }

  /** Only the empty name has an empty base. */
  lemma BaseNameEmpty(fileName: string)
    ensures FilenameWithoutExtension(fileName) == [] <==> fileName == []
  {
  }

  /**
   * The image file name `writeToFile` derives from the shapefile archive's
   * name: the base name without its last character, plus `.img`; an empty
   * name makes `deleteCharAt` throw.
   */
  function OutputName(name: string): (r: Result<string>)
    ensures r.Err? <==> name == []
    ensures r.Err? ==> r.error == IndexOutOfBounds
    ensures r.Ok? ==> |r.value| == |FilenameWithoutExtension(name)| + 3
    ensures r.Ok? ==> var base := FilenameWithoutExtension(name);
      r.value[..|base| - 1] == base[..|base| - 1] && r.value[|base| - 1..] == ".img"
  {
    var fileName := FilenameWithoutExtension(name);
    if |fileName| == 0 then Err(IndexOutOfBounds) else Ok(fileName[..|fileName| - 1] + ".img")
  }

  lemma OutputNameExample()
    ensures OutputName("e000n05f.zip") == Ok("e000n05.img")
  {
    var name := "e000n05f.zip";
    assert LastIndexOf(name, '.') == 8 by {
      assert name[8] == '.';
      assert forall j :: 8 < j < |name| ==> name[j] != '.';
    }
    var base := FilenameWithoutExtension(name);
    assert base == "e000n05f";
    assert base[..|base| - 1] == "e000n05";
    assert base[..|base| - 1] + ".img" == "e000n05.img";
  }

  /** The separator `File` puts between a directory and a child. */
  const SEPARATOR: char := '/'

  /** The path of `new File(dir, name)`. */
  function Child(dir: string, name: string): string {
    dir + [SEPARATOR] + name
  }

  /** The path `writeToFile` writes to. */
  function OutputPath(targetDir: string, name: string): (r: Result<string>)
    ensures r.Ok? <==> OutputName(name).Ok?
    ensures r.Ok? ==> r.value == Child(targetDir, OutputName(name).value)
  {
    var fileName :- OutputName(name);
    Ok(Child(targetDir, fileName))
  }

  // ---------------------------------------------------------------------------
  // Command line
  // ---------------------------------------------------------------------------

  /**
   * What `main` does before rasterizing: it reads three arguments and
   * computes the side length from the third, and only then checks that
   * exactly three were given. Returns the side length.
   */
  function CheckArguments(args: seq<string>): (r: Result<int>)
    ensures |args| < 3 ==> r == Err(IndexOutOfBounds)
    ensures |args| > 3 ==> r.Err? && r.error != IndexOutOfBounds
    ensures r.Ok? ==> |args| == 3 && ParseInt(args[2]).Ok? && ComputeSideLength(ParseInt(args[2]).value) == r
  {
    if |args| < 3 then Err(IndexOutOfBounds)
    else
      var resolution :- ParseInt(args[2]);
      var sideLength :- ComputeSideLength(resolution);
      if |args| != 3 then Err(IllegalArgument) else Ok(sideLength)
  }

  // ---------------------------------------------------------------------------
  // The rasterizer and its temporary files
  // ---------------------------------------------------------------------------

  /** The spatial-index files the renderer leaves next to a shapefile. */
  function TempFilesOf(tempDir: string, shapeFileName: string): set<string> {
    var base := FilenameWithoutExtension(shapeFileName);
    {Child(tempDir, base + ".fix"), Child(tempDir, base + ".qix")}
  }

  class ShapeFileRasterizer {
    const targetDir: string
    const tempDir: string
    /** `tempFiles`: files to remove after the current shapefile is done. */
    var tempFiles: set<string>
    /** The files removed from the file system so far. */
    var deletedFiles: set<string>

    /** `tempDir` is the `java.io.tmpdir` property, or "." when it is unset. */
    constructor (targetDir: string, tempDir: string)
      ensures this.targetDir == targetDir && this.tempDir == tempDir
      ensures tempFiles == {} && deletedFiles == {}
    {
      this.targetDir := targetDir;
      this.tempDir := tempDir;
      tempFiles := {};
      deletedFiles := {};
    }

    /**
     * The name handling of `createImage`: parses the envelope step by step
     * and registers the spatial-index files the renderer leaves behind.
     */
    method CreateImage(shapeFileName: string) returns (r: Result<Envelope>)
      modifies this
      ensures r == NameEnvelope(shapeFileName)
      ensures r.Ok? ==> tempFiles == old(tempFiles) + TempFilesOf(tempDir, shapeFileName)
      ensures r.Err? ==> tempFiles == old(tempFiles)
      ensures deletedFiles == old(deletedFiles)
    {
      var lonField := ParseField(shapeFileName, 1, 4);
      if lonField.Err? {
        return Err(lonField.error);
      }
      var lonMin := lonField.value;
      var lonMax;
      if StartsWith(shapeFileName, 'e') {
        lonMax := lonMin + 1;
      } else if StartsWith(shapeFileName, 'w') {
        lonMin := lonMin - 1;
        lonMin := lonMin * -1;
        lonMax := lonMin;
        lonMin := lonMin - 1;
      } else {
        return Err(IllegalState);
      }
      var latField := ParseField(shapeFileName, 5, 7);
      if latField.Err? {
        return Err(latField.error);
      }
      var latMin := latField.value;
      var latMax;
      if shapeFileName[4] == 'n' {
        latMax := latMin + 1;
      } else if shapeFileName[4] == 's' {
        latMin := latMin - 1;
        latMin := latMin * -1;
        latMax := latMin;
        latMin := latMin - 1;
      } else {
        return Err(IllegalState);
      }
      var base := FilenameWithoutExtension(shapeFileName);
      tempFiles := tempFiles + {Child(tempDir, base + ".fix")};
      tempFiles := tempFiles + {Child(tempDir, base + ".qix")};
      r := Ok(Envelope(lonMin, lonMax, latMin, latMax));
    }

    /** The bookkeeping of `readIntoTempFile`: the entry is extracted into the temp directory. */
    method ReadIntoTempFile(entryName: string) returns (file: string)
      modifies this
      ensures file == Child(tempDir, entryName)
      ensures tempFiles == old(tempFiles) + {file} && deletedFiles == old(deletedFiles)
    {
      file := Child(tempDir, entryName);
      tempFiles := tempFiles + {file};
    }

    /** `deleteTempFiles`: deletes every registered file and forgets them all. */
    method DeleteTempFiles()
      modifies this
      ensures tempFiles == {}
      ensures deletedFiles == old(deletedFiles) + old(tempFiles)
    {
      var remaining := tempFiles;
      while remaining != {}
        invariant remaining <= old(tempFiles)
        invariant deletedFiles + remaining == old(deletedFiles) + old(tempFiles)
        invariant tempFiles == old(tempFiles)
        decreases |remaining|
      {
        var tempFile :| tempFile in remaining;
        deletedFiles := deletedFiles + {tempFile};
        remaining := remaining - {tempFile};
      }
      tempFiles := {};
    }
  }
}
