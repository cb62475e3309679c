/**
 * The single-band byte raster the image classes write into: a rectangle of
 * the image plane starting at (minX, minY), stored column by column in a
 * two-dimensional array. `setSample` takes image coordinates, stores the
 * value as a Java byte and throws when the position is outside the raster.
 */
module Raster {
  import opened JavaLang

  class WritableRaster {
    const minX: int
    const minY: int
    /** `data[i, j]` is the sample at image position (minX + i, minY + j). */
    const data: array2<int>

    /** `createWritableRaster(sampleModel, location)`: a zero-filled raster of the sample model's size. */
    constructor (minX: int, minY: int, width: nat, height: nat)
      ensures this.minX == minX && this.minY == minY
      ensures fresh(data) && data.Length0 == width && data.Length1 == height
      ensures forall i, j :: 0 <= i < width && 0 <= j < height ==> data[i, j] == 0
    {
      this.minX := minX;
      this.minY := minY;
      data := new int[width, height]((i, j) => 0);
    }

    function Width(): nat reads this { data.Length0 }

    function Height(): nat reads this { data.Length1 }

    /** Whether the image position (x, y) lies inside the raster. */
    predicate Contains(x: int, y: int)
      reads this
    {
      minX <= x < minX + data.Length0 && minY <= y < minY + data.Length1
    }

    /**
     * `setSample(x, y, 0, v)`: stores `(byte) v` at image position (x, y).
     * Outside the raster the model assumes a bounds-checking byte sample
     * model: the write fails with an index exception and changes nothing.
     * The platform documents no such check, so this is a modelling choice.
     */
    method SetSample(x: int, y: int, v: int) returns (r: Result<()>)
      modifies data
      ensures r.Ok? <==> Contains(x, y)
      ensures r.Err? ==> r.error == IndexOutOfBounds
      ensures r.Ok? ==> data[x - minX, y - minY] == ToByte(v)
      ensures forall i, j :: 0 <= i < data.Length0 && 0 <= j < data.Length1 && (i != x - minX || j != y - minY) ==>
        data[i, j] == old(data[i, j])
    {
      if Contains(x, y) {
        data[x - minX, y - minY] := ToByte(v);
        r := Ok(());
      } else {
        r := Err(IndexOutOfBounds);
      }
    }
  }
}
