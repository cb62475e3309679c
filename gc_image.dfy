/**
 * The tiled image over the archive of PNG tiles: every tile is read from the
 * archive entry named after its tile indices, and its land/water samples are
 * inverted while they are copied into a fixed-size byte raster.
 */
module GCImage {
  import opened JavaLang
  import Raster

  /** The fixed size of the byte raster every tile is copied into. */
  const RASTER_WIDTH: nat := 576
  const RASTER_HEIGHT: nat := 491

  // ---------------------------------------------------------------------------
  // Entry names
  // ---------------------------------------------------------------------------

  /** `getFileName`: the tile indices in decimal, joined by `-`, with `.png` appended. */
  function FileName(tileX: int, tileY: int): (name: string)
    ensures |name| >= 7 && name[|name| - 4..] == ".png"
  {
    DecimalString(tileX) + "-" + DecimalString(tileY) + ".png"
  }

  /** The first index at or after `from` holding c, or -1. */
  function IndexOfFrom(s: string, c: char, from: nat): (i: int)
    ensures i == -1 || (from <= i < |s| && s[i] == c)
    decreases |s| - from
  {
    if from >= |s| then -1
    else if s[from] == c then from
    else IndexOfFrom(s, c, from + 1)
  }

  lemma {:induction false} IndexOfFirst(s: string, c: char, from: nat, i: nat)
    requires from <= i < |s| && s[i] == c
    requires forall k :: from <= k < i ==> s[k] != c
    ensures IndexOfFrom(s, c, from) == i
    decreases i - from
  {
    if from < i {
      IndexOfFirst(s, c, from + 1, i);
    }
  }

  /**
   * Reads tile indices back from an entry name: the `.png` suffix, then the
   * first `-` after the first character (a leading `-` is a sign) separates
   * the two numbers.
   */
  function ParseFileName(name: string): (r: Result<(int, int)>)
    ensures r.Ok? ==> InIntRange(r.value.0) && InIntRange(r.value.1)
  {
    if |name| < 4 || name[|name| - 4..] != ".png" then Err(NumberFormat)
    else
      var body := name[..|name| - 4];
      var dash := IndexOfFrom(body, '-', 1);
      if dash < 0 then Err(NumberFormat)
      else
        var tileX :- ParseInt(body[..dash]);
        var tileY :- ParseInt(body[dash + 1..]);
        Ok((tileX, tileY))
  }

  /** The entry name of every int tile position gives that position back. */
  lemma FileNameRoundTrip(tileX: int, tileY: int)
    requires InIntRange(tileX) && InIntRange(tileY)
    ensures ParseFileName(FileName(tileX, tileY)) == Ok((tileX, tileY))
  {
    var dx, dy := DecimalString(tileX), DecimalString(tileY);
    var name := FileName(tileX, tileY);
    var body := name[..|name| - 4];
    assert body == dx + "-" + dy;
    forall k | 1 <= k < |dx|
      ensures body[k] != '-'
    {
      assert body[k] == dx[k];
      if tileX < 0 {
        assert dx[k] == NatDigits(-tileX)[k - 1];
      } else {
        assert dx[k] == NatDigits(tileX)[k];
      }
    }
    IndexOfFirst(body, '-', 1, |dx|);
    assert body[..|dx|] == dx;
    assert body[|dx| + 1..] == dy;
    ParseDecimalString(tileX);
    ParseDecimalString(tileY);
  }

  /** Different tiles read different entries. */
  lemma FileNameInjective(x1: int, y1: int, x2: int, y2: int)
    requires InIntRange(x1) && InIntRange(y1) && InIntRange(x2) && InIntRange(y2)
    requires FileName(x1, y1) == FileName(x2, y2)
    ensures x1 == x2 && y1 == y2
  {
    FileNameRoundTrip(x1, y1);
    FileNameRoundTrip(x2, y2);
  }

  lemma FileNameExample()
    ensures FileName(12, 3) == "12-3.png"
  {
    assert NatDigits(12) == NatDigits(1) + [DigitChar(2)];
  }

  // ---------------------------------------------------------------------------
  // Inverting samples
  // ---------------------------------------------------------------------------

  /** The stored sample: `(byte) Math.abs((byte) v - 1)`. */
  function Invert(v: int): (r: int)
    ensures -128 <= r < 128
  {
    ToByte(Abs(ToByte(v) - 1))
  }

  /**
   * On a byte, the inversion moves positive values down by one and mirrors
   * the others around one; -127 and -128 overflow the byte and wrap to -128
   * and -127.
   */
  lemma InvertOfByte(v: int)
    requires -128 <= v < 128
    ensures v >= 1 ==> Invert(v) == v - 1
    ensures -127 < v < 1 ==> Invert(v) == 1 - v
    ensures v == -127 ==> Invert(v) == -128
    ensures v == -128 ==> Invert(v) == -127
  {
    if v == -128 {
      assert ToByte(129) == ToByte(129 - 256);
    } else if v == -127 {
      assert ToByte(128) == ToByte(128 - 256);
    }
  }

  /** Land (0) and water (1) swap, so inverting twice gives the mask back. */
  lemma InvertSwapsMask(v: int)
    requires v == 0 || v == 1
    ensures Invert(v) == 1 - v
    ensures Invert(Invert(v)) == v
  {
    InvertOfByte(v);
    InvertOfByte(1 - v);
  }

  // ---------------------------------------------------------------------------
  // Tiles
  // ---------------------------------------------------------------------------

  /** A decoded PNG tile: its size and its band-0 samples. */
  datatype Image = Image(width: nat, height: nat, sample: (int, int) -> int)

  /** Whether every decoded pixel lies inside the fixed-size raster. */
  predicate Fits(img: Image) {
    img.width == 0 || img.height == 0 || (img.width <= RASTER_WIDTH && img.height <= RASTER_HEIGHT)
  }

  /**
   * The copy loop has finished the columns before `cols` and the first `rows`
   * pixels of column `cols`; every other cell still holds zero.
   */
  ghost predicate Copied(data: array2<int>, img: Image, cols: int, rows: int)
    reads data
  {
    forall i, j :: 0 <= i < data.Length0 && 0 <= j < data.Length1 ==>
      data[i, j] == if (i < cols && j < img.height) || (i == cols && j < rows) then Invert(img.sample(i, j)) else 0
  }

  class GCOpImage {
    const tileWidth: int
    const tileHeight: int
    const tileGridXOffset: int
    const tileGridYOffset: int
    /** Entry streams opened and not yet closed. */
    var openStreams: nat

    constructor (tileWidth: int, tileHeight: int, tileGridXOffset: int, tileGridYOffset: int)
      ensures this.tileWidth == tileWidth && this.tileHeight == tileHeight
      ensures this.tileGridXOffset == tileGridXOffset && this.tileGridYOffset == tileGridYOffset
      ensures openStreams == 0
    {
      this.tileWidth := tileWidth;
      this.tileHeight := tileHeight;
      this.tileGridXOffset := tileGridXOffset;
      this.tileGridYOffset := tileGridYOffset;
      openStreams := 0;
    }

    function TileXToX(tileX: int): int reads this { tileX * tileWidth + tileGridXOffset }

    function TileYToY(tileY: int): int reads this { tileY * tileHeight + tileGridYOffset }

    /**
     * `computeRawRaster`: `decoded` is what reading the entry `FileName(tileX,
     * tileY)` and decoding it as PNG gives. Every decoded pixel (x, y) is
     * inverted and written at the tile origin plus (x, y); a tile larger than
     * the raster throws at its first pixel outside it. The stream is closed
     * whichever way the copy ends.
     */
    method ComputeRawRaster(tileX: int, tileY: int, decoded: Result<Image>) returns (r: Result<Raster.WritableRaster>)
      modifies this
      ensures openStreams == old(openStreams)
      ensures r.Ok? <==> decoded.Ok? && Fits(decoded.value)
      ensures decoded.Err? ==> r == Err(decoded.error)
      ensures decoded.Ok? && !Fits(decoded.value) ==> r == Err(IndexOutOfBounds)
      ensures r.Ok? ==> fresh(r.value) && fresh(r.value.data)
      ensures r.Ok? ==> r.value.minX == TileXToX(tileX) && r.value.minY == TileYToY(tileY)
      ensures r.Ok? ==> r.value.Width() == RASTER_WIDTH && r.value.Height() == RASTER_HEIGHT
      ensures r.Ok? ==> Copied(r.value.data, decoded.value, decoded.value.width, 0)
    {
      var target := new Raster.WritableRaster(TileXToX(tileX), TileYToY(tileY), RASTER_WIDTH, RASTER_HEIGHT);
      openStreams := openStreams + 1;
      if decoded.Err? {
        openStreams := openStreams - 1;
        return Err(decoded.error);
      }
      var img := decoded.value;
      var x := 0;
      while x < img.width
        invariant 0 <= x <= img.width
        invariant openStreams == old(openStreams) + 1
        invariant x > 0 && img.height > 0 ==> x <= RASTER_WIDTH && img.height <= RASTER_HEIGHT
        invariant Copied(target.data, img, x, 0)
      {
        var y := 0;
        while y < img.height
          invariant 0 <= y <= img.height
          invariant openStreams == old(openStreams) + 1
          invariant y > 0 ==> x < RASTER_WIDTH && y <= RASTER_HEIGHT
          invariant Copied(target.data, img, x, y)
        {
          var sample := ToByte(img.sample(x, y));
          sample := ToByte(Abs(sample - 1));
          var written := target.SetSample(TileXToX(tileX) + x, TileYToY(tileY) + y, sample);
          if written.Err? {
            openStreams := openStreams - 1;
            return Err(written.error);
          }
          y := y + 1;
        }
        x := x + 1;
      }
      openStreams := openStreams - 1;
      r := Ok(target);
    }

    /** `computeTile`: an IOException while reading becomes a RuntimeException. */
    method ComputeTile(tileX: int, tileY: int, decoded: Result<Image>) returns (r: Result<Raster.WritableRaster>)
      modifies this
      ensures openStreams == old(openStreams)
      ensures r.Ok? <==> decoded.Ok? && Fits(decoded.value)
      ensures decoded == Err(IO) ==> r == Err(Runtime)
      ensures decoded.Err? && decoded.error != IO ==> r == Err(decoded.error)
      ensures decoded.Ok? && !Fits(decoded.value) ==> r == Err(IndexOutOfBounds)
      ensures r.Ok? ==> fresh(r.value) && r.value.minX == TileXToX(tileX) && r.value.minY == TileYToY(tileY)
      ensures r.Ok? ==> Copied(r.value.data, decoded.value, decoded.value.width, 0)
    {
      r := ComputeRawRaster(tileX, tileY, decoded);
      if r.Err? && r.error == IO {
        r := Err(Runtime);
      }
    }
  }
}
