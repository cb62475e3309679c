/**
 * The older rasterizing tool: the envelope ignores the hemisphere letters,
 * the output keeps the whole base name, and the finished images are zipped
 * into one archive.
 */
module LegacyRasterizer {
  import opened JavaLang
  import Rasterizer

  type Envelope = Rasterizer.Envelope

  /** The name of the archive the images are zipped into. */
  const ZIP_FILENAME: string := "images.zip"

  /**
   * The envelope of the older `createImage`: the digits give the western and
   * southern edges directly, whatever the letters say.
   */
  function LegacyEnvelope(name: string): (r: Result<Envelope>)
    ensures r.Ok? ==> r.value.lonMax == r.value.lonMin + 1 && r.value.latMax == r.value.latMin + 1
  {
    var lonMin :- ParseField(name, 1, 4);
    var latMin :- ParseField(name, 5, 7);
    Ok(Rasterizer.Envelope(lonMin, lonMin + 1, latMin, latMin + 1))
  }

  /** The hemisphere letters never matter: two names differing only there have the same envelope. */
  lemma LettersIgnored(name: string, west: char, south: char)
    requires |name| >= 7
    ensures LegacyEnvelope(name) == LegacyEnvelope([west] + name[1..4] + [south] + name[5..])
  {
    var other := [west] + name[1..4] + [south] + name[5..];
    assert other[1..4] == name[1..4];
    assert other[5..7] == name[5..7];
  }

  /** With digit fields the envelope starts at the degrees the digits spell. */
  lemma LegacyEnvelopeSpec(name: string)
    requires Rasterizer.WellFormedDigits(name)
    ensures LegacyEnvelope(name) == Ok(Rasterizer.Envelope(
      DigitsValue(name[1..4]), DigitsValue(name[1..4]) + 1, DigitsValue(name[5..7]), DigitsValue(name[5..7]) + 1))
  {
    ParseDigitField(name, 1, 4);
    ParseDigitField(name, 5, 7);
  }

  /** The older `writeToFile` name: the base name plus `.img`, nothing dropped. */
  function OutputName(name: string): (r: string)
    ensures Rasterizer.FilenameWithoutExtension(name) <= r
    ensures r[|Rasterizer.FilenameWithoutExtension(name)|..] == ".img"
  {
    Rasterizer.FilenameWithoutExtension(name) + ".img"
  }

  lemma OutputNameExample()
    ensures OutputName("e000n05f.zip") == "e000n05f.img"
  {
    var name := "e000n05f.zip";
    assert Rasterizer.LastIndexOf(name, '.') == 8 by {
      assert name[8] == '.';
      assert forall j :: 8 < j < |name| ==> name[j] != '.';
    }
    assert Rasterizer.FilenameWithoutExtension(name) == "e000n05f";
  }

  /** What `main` checks: it reads two arguments, then demands exactly two. */
  function CheckArguments(args: seq<string>): (r: Result<()>)
    ensures r.Ok? <==> |args| == 2
    ensures |args| < 2 ==> r == Err(IndexOutOfBounds)
    ensures |args| > 2 ==> r == Err(IllegalArgument)
  {
    if |args| < 2 then Err(IndexOutOfBounds)
    else if |args| != 2 then Err(IllegalArgument)
    else Ok(())
  }

  /** `zipFiles`: every file of the target directory except the archive itself, in listing order. */
  function ZipEntries(listing: seq<string>): (entries: seq<string>)
    ensures |entries| <= |listing|
  {
    if |listing| == 0 then []
    else if listing[|listing| - 1] == ZIP_FILENAME then ZipEntries(listing[..|listing| - 1])
    else ZipEntries(listing[..|listing| - 1]) + [listing[|listing| - 1]]
  }

  /** Exactly the names other than `images.zip` are archived. */
  lemma {:induction false} ZipEntriesSpec(listing: seq<string>)
    ensures forall name :: name in ZipEntries(listing) <==> name in listing && name != ZIP_FILENAME
  {
    if |listing| > 0 {
      var front := listing[..|listing| - 1];
      ZipEntriesSpec(front);
      assert listing == front + [listing[|listing| - 1]];
    }
  }

  /** A listing without the archive is archived unchanged. */
  lemma {:induction false} ZipEntriesKeepsOthers(listing: seq<string>)
    requires ZIP_FILENAME !in listing
    ensures ZipEntries(listing) == listing
  {
    if |listing| > 0 {
      var front := listing[..|listing| - 1];
      ZipEntriesKeepsOthers(front);
      assert listing == front + [listing[|listing| - 1]];
    }
  }

  /** The spatial-index files the renderer leaves next to a shapefile. */
  function IndexFilesOf(fileName: string): set<string> {
    var base := Rasterizer.FilenameWithoutExtension(fileName);
    {base + ".fix", base + ".qix"}
  }

  class ShapeFileRasterizer {
    const targetDir: string
    /** `filesToDelete`: files to remove after the current shapefile is done. */
    var filesToDelete: set<string>
    /** The files removed from the file system so far. */
    var deletedFiles: set<string>

    constructor (targetDir: string)
      ensures this.targetDir == targetDir
      ensures filesToDelete == {} && deletedFiles == {}
    {
      this.targetDir := targetDir;
      filesToDelete := {};
      deletedFiles := {};
    }

    /**
     * The name handling of the older `createImage`: the envelope from the
     * digits and the spatial-index files, relative to the working directory.
     */
    method CreateImage(fileName: string) returns (r: Result<Envelope>)
      modifies this
      ensures r == LegacyEnvelope(fileName)
      ensures r.Ok? ==> filesToDelete == old(filesToDelete) + IndexFilesOf(fileName)
      ensures r.Err? ==> filesToDelete == old(filesToDelete)
      ensures deletedFiles == old(deletedFiles)
    {
      var lonField := ParseField(fileName, 1, 4);
      if lonField.Err? {
        return Err(lonField.error);
      }
      var lonMin := lonField.value;
      var lonMax := lonMin + 1;
      var latField := ParseField(fileName, 5, 7);
      if latField.Err? {
        return Err(latField.error);
      }
      var latMin := latField.value;
      var latMax := latMin + 1;
      var base := Rasterizer.FilenameWithoutExtension(fileName);
      filesToDelete := filesToDelete + {base + ".fix"};
      filesToDelete := filesToDelete + {base + ".qix"};
      r := Ok(Rasterizer.Envelope(lonMin, lonMax, latMin, latMax));
    }

    /** The bookkeeping of `readIntoTempFile`: entries are extracted into the working directory. */
    method ReadIntoTempFile(entryName: string) returns (file: string)
      modifies this
      ensures file == entryName
      ensures filesToDelete == old(filesToDelete) + {file} && deletedFiles == old(deletedFiles)
    {
      file := entryName;
      filesToDelete := filesToDelete + {file};
    }

    /** `deleteFilesToDelete`: deletes every registered file and forgets them all. */
    method DeleteFilesToDelete()
      modifies this
      ensures filesToDelete == {}
      ensures deletedFiles == old(deletedFiles) + old(filesToDelete)
    {
      var remaining := filesToDelete;
      while remaining != {}
        invariant remaining <= old(filesToDelete)
        invariant deletedFiles + remaining == old(deletedFiles) + old(filesToDelete)
        invariant filesToDelete == old(filesToDelete)
        decreases |remaining|
      {
        var file :| file in remaining;
        deletedFiles := deletedFiles + {file};
        remaining := remaining - {file};
      }
      filesToDelete := {};
    }

    /** `zipFiles`: the entries put into the archive, one per listed file other than the archive. */
    method ZipFiles(listing: seq<string>) returns (entries: seq<string>)
      ensures entries == ZipEntries(listing)
    {
      entries := [];
      var i := 0;
      while i < |listing|
        invariant 0 <= i <= |listing|
        invariant entries == ZipEntries(listing[..i])
      {
        assert listing[..i + 1][..i] == listing[..i];
        if listing[i] != ZIP_FILENAME {
          entries := entries + [listing[i]];
        }
        i := i + 1;
      }
      assert listing[..i] == listing;
    }
  }
}
