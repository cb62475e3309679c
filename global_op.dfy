/**
 * The land/water-mask operator over the global raster: validation of its
 * parameter and source product, set-up of the target band, and the tile
 * computation that writes a water percentage for every target pixel.
 */
module GlobalOp {
  import opened JavaLang
  import opened GlobalClassifier

  /** Why `initialize` throws its OperatorException. */
  datatype InitError =
    | BadResolution
    | NotGeoCoded
    | GeoCodingUnusable
    | GeoCodingNotCopied
    | ClassifierNotCreated

  /** The source product's geo-coding, as far as the operator inspects it. */
  datatype GeoCodingInfo = GeoCodingInfo(canGetGeoPos: bool)

  /** A band of the target product. */
  datatype Band = Band(name: string, noDataValue: int, noDataValueUsed: bool)

  /** The target product: its raster size and its single band. */
  datatype TargetProduct = TargetProduct(name: string, width: int, height: int, band: Band)

  /** An initialised operator: the target product and the classifier it queries. */
  datatype InitializedOp = InitializedOp(target: TargetProduct, classifier: Classifier)

  datatype InitResult = Initialized(op: InitializedOp) | Failed(reason: InitError)

  /** `validateParameter`: only 50 and 150 m/pixel are accepted. */
  function ValidateParameter(resolution: int): (r: Option<InitError>)
    ensures r.None? <==> resolution == RESOLUTION_50 || resolution == RESOLUTION_150
    ensures r.Some? ==> r.value == BadResolution
  {
    if resolution != RESOLUTION_50 && resolution != RESOLUTION_150 then Some(BadResolution) else None
  }

  /** `validateSourceProduct`: the source needs a geo-coding that gives geo-positions. */
  function ValidateSourceProduct(geoCoding: Option<GeoCodingInfo>): (r: Option<InitError>)
    ensures r.None? <==> geoCoding.Some? && geoCoding.value.canGetGeoPos
    ensures r == Some(NotGeoCoded) <==> geoCoding.None?
  {
    if geoCoding.None? then Some(NotGeoCoded)
    else if !geoCoding.value.canGetGeoPos then Some(GeoCodingUnusable)
    else None
  }

  const BAND_NAME: string := "land_water_fraction"

  /**
   * `initTargetProduct`: a product of the source's size with one band whose
   * no-data value is INVALID_VALUE and is in use; fails when the geo-coding
   * could not be copied to it.
   */
  function InitTargetProduct(width: int, height: int, geoCodingCopied: bool): (r: Result<TargetProduct>)
    ensures r.Ok? <==> geoCodingCopied
    ensures r.Err? ==> r.error == Operator
    ensures r.Ok? ==> r.value.width == width && r.value.height == height
    ensures r.Ok? ==> r.value.band.name == BAND_NAME
    ensures r.Ok? ==> r.value.band.noDataValueUsed && r.value.band.noDataValue == INVALID_VALUE
  {
    var band := Band(BAND_NAME, INVALID_VALUE, true);
    if !geoCodingCopied then Err(Operator) else Ok(TargetProduct("LW-Mask", width, height, band))
  }

  /**
   * `initialize`: validates the parameter, then the source product, then
   * builds the target product, then creates the classifier. The first
   * failing step decides the error; `classifierCreated` is whether creating
   * the classifier's sources succeeds, `tileSize` the side length it uses.
   */
  function Initialize(resolution: int, tileSize: int, geoCoding: Option<GeoCodingInfo>,
                      width: int, height: int, geoCodingCopied: bool, classifierCreated: bool): (r: InitResult)
    ensures r == Failed(BadResolution) <==> resolution != RESOLUTION_50 && resolution != RESOLUTION_150
    ensures r == Failed(NotGeoCoded) <==> ValidateParameter(resolution).None? && geoCoding.None?
    ensures r == Failed(GeoCodingUnusable) <==>
      ValidateParameter(resolution).None? && geoCoding.Some? && !geoCoding.value.canGetGeoPos
    ensures r == Failed(GeoCodingNotCopied) <==>
      ValidateParameter(resolution).None? && ValidateSourceProduct(geoCoding).None? && !geoCodingCopied
    ensures r == Failed(ClassifierNotCreated) <==>
      ValidateParameter(resolution).None? && ValidateSourceProduct(geoCoding).None? && geoCodingCopied && !classifierCreated
    ensures r.Initialized? ==> r.op.target.band == Band(BAND_NAME, INVALID_VALUE, true)
    ensures r.Initialized? ==> r.op.classifier.resolution == resolution && r.op.classifier.tileSize == tileSize
  {
    var parameterError := ValidateParameter(resolution);
    if parameterError.Some? then Failed(parameterError.value)
    else
      var sourceError := ValidateSourceProduct(geoCoding);
      if sourceError.Some? then Failed(sourceError.value)
      else
        var target := InitTargetProduct(width, height, geoCodingCopied);
        if target.Err? then Failed(GeoCodingNotCopied)
        else
          var classifier := NewClassifier(resolution, tileSize);
          if !classifierCreated || classifier.Err? then Failed(ClassifierNotCreated)
          else Initialized(InitializedOp(target.value, classifier.value))
  }

  // ---------------------------------------------------------------------------
  // Per-pixel value
  // ---------------------------------------------------------------------------

  /**
   * The value `computeTile` writes for a pixel whose int sample sum is `sum`:
   * `100 * sum / (n * n)` in Java int arithmetic, where both products wrap;
   * a zero divisor throws ArithmeticException.
   */
  function OpValue(sum: int, n: int): (r: Result<int>)
    ensures r.Ok? ==> InIntRange(r.value)
    ensures r.Err? ==> r.error == Arithmetic
  {
    var total := WrapInt(n * n);
    if total == 0 then Err(Arithmetic) else Ok(IntQuotient(WrapInt(100 * sum), total))
  }

  /** The int sum of the valid samples of an n×n grid, as `waterMaskSample` accumulates it. */
  function GridIntSum(g: (int, int) -> int, n: int): int
  {
    WrapInt(if n > 0 then GridSum(g, n, n) else 0)
  }

  /**
   * While 100 * n * n fits in an int, the written value of mask samples is a
   * percentage in [0, 100], never the no-data value: invalid samples add 0
   * but stay in the divisor.
   */
  lemma OpValueRange(g: (int, int) -> int, n: int)
    requires n != 0 && 100 * (n * n) <= INT_MAX && MaskValues(g, n)
    ensures OpValue(GridIntSum(g, n), n).Ok?
    ensures 0 <= OpValue(GridIntSum(g, n), n).value <= 100
    ensures OpValue(GridIntSum(g, n), n).value != INVALID_VALUE
  {
    var nn := n * n;
    PositiveSquare(n);
    assert WrapInt(nn) == nn;
    if n > 0 {
      PercentInRange(g, n);
    }
  }

  /** A non-zero square is positive. */
  lemma PositiveSquare(n: int)
    requires n != 0
    ensures n * n > 0
  {
    if n < 0 {
      assert n * n == (-n) * (-n);
    }
  }

  /** Below the bound neither product wraps, and the int quotient is the percentage. */
  lemma PercentInRange(g: (int, int) -> int, n: nat)
    requires n > 0 && 100 * (n * n) <= INT_MAX && MaskValues(g, n)
    ensures var sum := GridSum(g, n, n);
      0 <= sum <= n * n && GridIntSum(g, n) == sum && WrapInt(100 * sum) == 100 * sum &&
      0 <= (100 * sum) / (n * n) <= 100 && IntQuotient(100 * sum, n * n) == (100 * sum) / (n * n)
  {
    var nn := n * n;
    PositiveSquare(n);
    GridSumBounds(g, n, n);
    GridInvalidAll(g, n, n);
    var sum := GridSum(g, n, n);
    assert 0 <= sum <= nn;
    QuotientInRange(sum, nn);
  }

  lemma QuotientInRange(sum: int, nn: int)
    requires 0 <= sum <= nn && 100 * nn <= INT_MAX
    ensures WrapInt(sum) == sum && WrapInt(100 * sum) == 100 * sum
    ensures nn > 0 ==> 0 <= (100 * sum) / nn <= 100 && IntQuotient(100 * sum, nn) == (100 * sum) / nn
  {
    assert 100 * sum <= 100 * nn;
    if nn > 0 {
      DivAtMost100(sum, nn);
    }
  }

  lemma DivAtMost100(v: nat, total: int)
    requires v <= total && total > 0
    ensures (100 * v) / total <= 100
  {
    FloorOfQuotient(100 * v, total);
    PercentBounds(v, total);
    assert ((100 * v) as real) == 100.0 * (v as real);
  }

  /**
   * Beyond that bound the numerator wraps: with a sub-sampling factor of 4635
   * an all-water pixel has 100 * 4635 * 4635 = 2148322500 > 2^31 - 1, which
   * wraps negative, and the written value is -99.
   */
  lemma OpValueWrapsAt4635(g: (int, int) -> int)
    requires forall sx, sy :: g(sx, sy) == WATER_VALUE
    ensures OpValue(GridIntSum(g, 4635), 4635) == Ok(-99)
  {
    GridAllWater(g, 4635, 4635);
    assert 4635 * 4635 == 21483225;
    assert GridIntSum(g, 4635) == 21483225;
    OpValueAt4635();
  }

  /** The arithmetic of that case: 100 * 21483225 wraps to -2146644796, and its quotient by 4635 * 4635 is -99. */
  lemma OpValueAt4635()
    ensures OpValue(21483225, 4635) == Ok(-99)
  {
    assert WrapInt(4635 * 4635) == 21483225;
    assert WrapInt(100 * 21483225) == 2148322500 - 0x1_0000_0000 == -2146644796;
    assert JavaDiv(-2146644796, 21483225) == -(2146644796 / 21483225) == -99;
  }

  /** The int divisor n * n is 0 for n = 0 and also for n = 65536, whose square is 2^32. */
  lemma OpValueZeroDivisor(sum: int)
    ensures OpValue(sum, 0) == Err(Arithmetic)
    ensures OpValue(sum, 65536) == Err(Arithmetic)
  {
    assert WrapInt(65536 * 65536) == 0;
  }

  /**
   * While 100 * n * n fits in an int, the operator and `getWaterMaskFraction`
   * agree whenever some sample is valid; when all are invalid the classifier
   * answers INVALID_VALUE and the operator writes 0.
   */
  lemma OpValueVersusFraction(g: (int, int) -> int, n: int)
    requires n > 0 && 100 * (n * n) <= INT_MAX && MaskValues(g, n)
    ensures !AllInvalid(g, n) ==> OpValue(GridIntSum(g, n), n) == Ok(Fraction(g, n))
    ensures AllInvalid(g, n) ==> OpValue(GridIntSum(g, n), n) == Ok(0) && Fraction(g, n) == INVALID_VALUE
  {
    var sum := GridSum(g, n, n);
    PositiveSquare(n);
    PercentInRange(g, n);
    OpValueOfSum(sum, n, n * n);
    FractionSpec(g, n);
    if AllInvalid(g, n) {
      GridSumBounds(g, n, n);
      GridInvalidAll(g, n, n);
      assert sum == 0;
    }
  }

  /** Below the bound the written value of a sum of at most n * n is the plain percentage. */
  lemma OpValueOfSum(sum: int, n: int, nn: int)
    requires nn == n * n && 0 <= sum <= nn && 0 < nn && 100 * nn <= INT_MAX
    ensures OpValue(sum, n) == Ok((100 * sum) / nn)
  {
    QuotientInRange(sum, nn);
    assert WrapInt(nn) == nn;
  }

  // ---------------------------------------------------------------------------
  // The target tile
  // ---------------------------------------------------------------------------

  /** Whether a pixel lies in the rectangle with corner (x0, y0). */
  predicate InRect(q: (int, int), x0: int, y0: int, width: int, height: int) {
    x0 <= q.0 < x0 + width && y0 <= q.1 < y0 + height
  }

  /** The pixels of column x, rows y0 .. y0 + k - 1, top to bottom. */
  function ColumnPixels(x: int, y0: int, k: nat): seq<(int, int)>
  {
    if k == 0 then [] else ColumnPixels(x, y0, k - 1) + [(x, y0 + k - 1)]
  }

  /** The pixels of the first k columns of the rectangle, column by column. */
  function RectPixels(x0: int, y0: int, height: nat, k: nat): seq<(int, int)>
  {
    if k == 0 then [] else RectPixels(x0, y0, height, k - 1) + ColumnPixels(x0 + k - 1, y0, height)
  }

  /** The pixels of a rectangle in the order the two loops visit them. */
  function RectOrder(x0: int, y0: int, width: int, height: int): seq<(int, int)>
  {
    if width <= 0 || height <= 0 then [] else RectPixels(x0, y0, height, width)
  }

  predicate LexLess(a: (int, int), b: (int, int)) {
    a.0 < b.0 || (a.0 == b.0 && a.1 < b.1)
  }

  predicate StrictlySorted(s: seq<(int, int)>) {
    forall i, j :: 0 <= i < j < |s| ==> LexLess(s[i], s[j])
  }

  lemma {:induction false} ColumnPixelsSpec(x: int, y0: int, k: nat)
    ensures StrictlySorted(ColumnPixels(x, y0, k))
    ensures forall q :: q in ColumnPixels(x, y0, k) <==> q.0 == x && y0 <= q.1 < y0 + k
  {
    if k > 0 {
      ColumnPixelsSpec(x, y0, k - 1);
    }
  }

  lemma {:induction false} RectPixelsSpec(x0: int, y0: int, height: nat, k: nat)
    ensures StrictlySorted(RectPixels(x0, y0, height, k))
    ensures forall q :: q in RectPixels(x0, y0, height, k) <==> InRect(q, x0, y0, k, height)
  {
    if k > 0 {
      RectPixelsSpec(x0, y0, height, k - 1);
      ColumnPixelsSpec(x0 + k - 1, y0, height);
      var a := RectPixels(x0, y0, height, k - 1);
      var b := ColumnPixels(x0 + k - 1, y0, height);
      forall i, j | 0 <= i < j < |a + b| ensures LexLess((a + b)[i], (a + b)[j]) {
        if j >= |a| && i < |a| {
          assert (a + b)[i] in a && (a + b)[j] in b;
        }
      }
    }
  }

  /**
   * The pixels the loops visit are exactly those of the rectangle, each once:
   * the visiting order is strictly increasing by column, then row.
   */
  lemma RectOrderSpec(x0: int, y0: int, width: int, height: int)
    ensures StrictlySorted(RectOrder(x0, y0, width, height))
    ensures forall q :: q in RectOrder(x0, y0, width, height) <==> InRect(q, x0, y0, width, height)
    ensures forall i, j :: 0 <= i < j < |RectOrder(x0, y0, width, height)| ==>
      RectOrder(x0, y0, width, height)[i] != RectOrder(x0, y0, width, height)[j]
  {
    if width > 0 && height > 0 {
      RectPixelsSpec(x0, y0, height, width);
    }
  }

  /** The target tile: its rectangle and the samples written into it. */
  class TargetTile {
    const x: int
    const y: int
    const width: int
    const height: int
    var samples: map<(int, int), int>
    /** Every `setSample` call, in order. */
    ghost var writes: seq<(int, int)>

    constructor (x: int, y: int, width: int, height: int)
      ensures this.x == x && this.y == y && this.width == width && this.height == height
      ensures samples == map[] && writes == []
    {
      this.x, this.y, this.width, this.height := x, y, width, height;
      samples := map[];
      writes := [];
    }

    /** `setSample`: stores one value and records the write. */
    method SetSample(px: int, py: int, v: int)
      modifies this
      ensures samples == old(samples)[(px, py) := v]
      ensures writes == old(writes) + [(px, py)]
    {
      samples := samples[(px, py) := v];
      writes := writes + [(px, py)];
    }
  }

  /** The keys of `m` are those of `orig` and the pixels of the rectangle. */
  ghost predicate Domain(orig: map<(int, int), int>, m: map<(int, int), int>, x0: int, y0: int, width: int, height: int) {
    forall q :: q in m <==> q in orig || InRect(q, x0, y0, width, height)
  }

  /** Outside the rectangle, `m` keeps every value of `orig`. */
  ghost predicate Kept(orig: map<(int, int), int>, m: map<(int, int), int>, x0: int, y0: int, width: int, height: int) {
    forall q :: q in orig && !InRect(q, x0, y0, width, height) ==> q in m && m[q] == orig[q]
  }

  /** Every pixel of the rectangle holds the value `value` gives it. */
  ghost predicate Filled(m: map<(int, int), int>, value: ((int, int)) -> Option<int>, x0: int, y0: int, width: int, height: int) {
    forall q :: InRect(q, x0, y0, width, height) ==> q in m && value(q) == Some(m[q])
  }

  /** `m` is `orig` with the rectangle written: its keys, the values kept outside it, the values inside it. */
  ghost predicate Done(orig: map<(int, int), int>, m: map<(int, int), int>, value: ((int, int)) -> Option<int>,
                       x0: int, y0: int, width: int, height: int) {
    Domain(orig, m, x0, y0, width, height) && Kept(orig, m, x0, y0, width, height) && Filled(m, value, x0, y0, width, height)
  }

  /** Writing the next pixel (x, y) of a column that starts at row y0 extends the column by one. */
  lemma ColumnStep(orig: map<(int, int), int>, m: map<(int, int), int>, value: ((int, int)) -> Option<int>,
                   x: int, y0: int, y: int, v: int)
    requires y0 <= y && Done(orig, m, value, x, y0, 1, y - y0)
    requires value((x, y)) == Some(v)
    ensures Done(orig, m[(x, y) := v], value, x, y0, 1, y + 1 - y0)
  {
    var m' := m[(x, y) := v];
    forall q ensures q in m' <==> q in orig || InRect(q, x, y0, 1, y + 1 - y0) {
      assert InRect(q, x, y0, 1, y + 1 - y0) <==> q == (x, y) || InRect(q, x, y0, 1, y - y0);
    }
    forall q | InRect(q, x, y0, 1, y + 1 - y0) ensures q in m' && value(q) == Some(m'[q]) {
      if q != (x, y) {
        assert InRect(q, x, y0, 1, y - y0);
      }
    }
  }

  /**
   * A column done after k finished columns: with the whole column the first
   * k + 1 columns are finished; with part of it, only pixels of the
   * rectangle were added.
   */
  lemma RectStep(orig: map<(int, int), int>, before: map<(int, int), int>, after: map<(int, int), int>,
                 value: ((int, int)) -> Option<int>, x0: int, y0: int, width: int, height: nat, k: nat, count: nat)
    requires k < width && count <= height
    requires Done(orig, before, value, x0, y0, k, height)
    requires Done(before, after, value, x0 + k, y0, 1, count)
    ensures forall q :: q in after ==> q in orig || InRect(q, x0, y0, width, height)
    ensures Kept(orig, after, x0, y0, width, height)
    ensures count == height ==> Done(orig, after, value, x0, y0, k + 1, height)
  {
    forall q | InRect(q, x0, y0, k, height) ensures q in after && value(q) == Some(after[q]) {
      assert !InRect(q, x0 + k, y0, 1, count);
    }
    if count == height {
      forall q ensures q in after <==> q in orig || InRect(q, x0, y0, k + 1, height) {
        assert InRect(q, x0, y0, k + 1, height) <==>
          InRect(q, x0, y0, k, height) || InRect(q, x0 + k, y0, 1, height);
      }
    }
  }

  lemma {:induction false} ColumnPixelsPrefix(x: int, y0: int, j: nat, k: nat)
    requires j <= k
    ensures ColumnPixels(x, y0, j) <= ColumnPixels(x, y0, k)
    decreases k
  {
    if j < k {
      ColumnPixelsPrefix(x, y0, j, k - 1);
    }
  }

  lemma {:induction false} RectPixelsPrefix(x0: int, y0: int, height: nat, j: nat, k: nat)
    requires j <= k
    ensures RectPixels(x0, y0, height, j) <= RectPixels(x0, y0, height, k)
    decreases k
  {
    if j < k {
      RectPixelsPrefix(x0, y0, height, j, k - 1);
    }
  }

  /** The writes of a partly done column are a prefix of the writes of the whole rectangle. */
  lemma PartialRectPrefix(x0: int, y0: int, width: nat, height: nat, k: nat, j: nat)
    requires k < width && j <= height
    ensures RectPixels(x0, y0, height, k) + ColumnPixels(x0 + k, y0, j) <= RectPixels(x0, y0, height, width)
  {
    ColumnPixelsPrefix(x0 + k, y0, j, height);
    RectPixelsPrefix(x0, y0, height, k + 1, width);
  }

  /** Extending both sides by the same front keeps a prefix a prefix. */
  lemma PrefixExtend<T>(front: seq<T>, a: seq<T>, b: seq<T>)
    requires a <= b
    ensures front <= front + a <= front + b
  {
    assert (front + b)[..|front + a|] == front + a;
  }

  lemma {:induction false} RectPixelsEmpty(x0: int, y0: int, k: nat)
    ensures RectPixels(x0, y0, 0, k) == []
  {
    if k > 0 {
      RectPixelsEmpty(x0, y0, k - 1);
    }
  }

  /** The writes after k finished columns and `count` pixels of the next one, against the whole rectangle. */
  lemma WritesAfterColumn(w0: seq<(int, int)>, x0: int, y0: int, width: int, height: nat, k: nat, count: nat)
    requires k < width && count <= height
    ensures var w := w0 + RectPixels(x0, y0, height, k) + ColumnPixels(x0 + k, y0, count);
      w0 <= w <= w0 + RectOrder(x0, y0, width, height) &&
      (count == height ==> w == w0 + RectPixels(x0, y0, height, k + 1))
  {
    var done := RectPixels(x0, y0, height, k);
    var partial := ColumnPixels(x0 + k, y0, count);
    var whole := RectOrder(x0, y0, width, height);
    if height == 0 {
      RectPixelsEmpty(x0, y0, k);
      RectPixelsEmpty(x0, y0, k + 1);
      assert w0 + done + partial == w0;
    } else {
      assert whole == RectPixels(x0, y0, height, width);
      PartialRectPrefix(x0, y0, width, height, k, count);
      assert w0 + done + partial == w0 + (done + partial);
      PrefixExtend(w0, done + partial, whole);
    }
  }

  /** The lookups of target pixel (x, y), by sub-pixel loop indices. */
  function PixelSamples(lookup: Lookup, geoCoding: PixelPos -> GeoPos, x: int, y: int, n: int): (int, int) -> Result<int>
    requires n != 0
  {
    LookupGrid(lookup, geoCoding, PixelPos(x as real, y as real), n)
  }

  /**
   * What the two sub-pixel loops of `computeTile` give for target pixel
   * (x, y): the exception of the first failing lookup, else the int sum of
   * the valid samples. For n <= 0 the loops do not run.
   */
  function SampleSum(lookup: Lookup, geoCoding: PixelPos -> GeoPos, x: int, y: int, n: int): Result<int>
  {
    if n <= 0 then Ok(0)
    else
      var g := PixelSamples(lookup, geoCoding, x, y, n);
      match GridError(g, n, n)
      case Some(e) => Err(e)
      case None => Ok(GridIntSum(SampleValues(g), n))
  }

  /** What `computeTile` does for target pixel q: the value it writes, or the exception it throws. */
  function PixelValue(lookup: Lookup, geoCoding: PixelPos -> GeoPos, q: (int, int), n: int): Result<int>
  {
    var sum :- SampleSum(lookup, geoCoding, q.0, q.1, n);
    OpValue(sum, n)
  }

  /**
   * A pixel's computation fails exactly when one of its lookups throws or the
   * int divisor is zero; a lookup exception comes first, as the loops run
   * before the division.
   */
  lemma PixelValueFails(lookup: Lookup, geoCoding: PixelPos -> GeoPos, q: (int, int), n: int)
    requires n > 0
    ensures PixelValue(lookup, geoCoding, q, n).Err? <==>
      !GridOk(PixelSamples(lookup, geoCoding, q.0, q.1, n), n, n) || WrapInt(n * n) == 0
    ensures !GridOk(PixelSamples(lookup, geoCoding, q.0, q.1, n), n, n) ==>
      exists i, j :: FirstFailureAt(PixelSamples(lookup, geoCoding, q.0, q.1, n), n, i, j, PixelValue(lookup, geoCoding, q, n).error)
  {
    GridErrorSpec(PixelSamples(lookup, geoCoding, q.0, q.1, n), n, n);
  }

  /** The pixel value as an optional written value. */
  function Written(lookup: Lookup, geoCoding: PixelPos -> GeoPos, n: int): (value: ((int, int)) -> Option<int>)
    ensures forall q :: value(q).Some? <==> PixelValue(lookup, geoCoding, q, n).Ok?
    ensures forall q :: value(q).Some? ==> value(q).value == PixelValue(lookup, geoCoding, q, n).value
  {
    q => if PixelValue(lookup, geoCoding, q, n).Ok? then Some(PixelValue(lookup, geoCoding, q, n).value) else None
  }

  /** The innermost loop of `computeTile`: the lookups of sub-pixel column sx, summed until the first that throws; `lookup` is the classifier's `getWaterMaskSample`. */
  method SumSampleColumn(lookup: Lookup, geoCoding: PixelPos -> GeoPos,
                         x: int, y: int, n: int, sx: int, sum0: int)
    returns (failure: Option<Exception>, sum: int)
    requires n > 0
    ensures var g := LookupGrid(lookup, geoCoding, PixelPos(x as real, y as real), n);
      failure == ColumnError(g, sx, n) &&
      (failure.None? ==> sum == WrapInt(sum0 + ColumnSum(SampleValues(g), sx, n)))
  {
    ghost var g := LookupGrid(lookup, geoCoding, PixelPos(x as real, y as real), n);
    ghost var v := SampleValues(g);
    sum := WrapInt(sum0);
    var sy := 0;
    while sy < n
      invariant 0 <= sy <= n
      invariant ColumnError(g, sx, sy).None?
      invariant sum == WrapInt(sum0 + ColumnSum(v, sx, sy))
    {
      var pixelPos := SubPos(PixelPos(x as real, y as real), 1.0 / (n as real), sx, sy);
      var geoPos := geoCoding(pixelPos);
      var sample := lookup(geoPos.lat, geoPos.lon);
      assert sample == g(sx, sy);
      ColumnLookupStep(g, sx, sy, n);
      if sample.Err? {
        return Some(sample.error), sum;
      }
      if sample.value != INVALID_VALUE {
        WrapAdd(sum0 + ColumnSum(v, sx, sy), sample.value, sum0 + ColumnSum(v, sx, sy + 1));
        sum := WrapInt(sum + sample.value);
      } else {
        assert ColumnSum(v, sx, sy + 1) == ColumnSum(v, sx, sy);
      }
      sy := sy + 1;
    }
    failure := None;
  }

  /** The two sub-pixel loops of `computeTile` for one target pixel, wrapping as int additions do. */
  method SumValidSamples(lookup: Lookup, geoCoding: PixelPos -> GeoPos,
                         x: int, y: int, n: int)
    returns (r: Result<int>)
    ensures r == SampleSum(lookup, geoCoding, x, y, n)
  {
    var sum := 0;
    if n > 0 {
      ghost var g := LookupGrid(lookup, geoCoding, PixelPos(x as real, y as real), n);
      ghost var v := SampleValues(g);
      var sx := 0;
      while sx < n
        invariant 0 <= sx <= n
        invariant GridError(g, n, sx).None?
        invariant sum == WrapInt(GridSum(v, n, sx))
      {
        var failure;
        failure, sum := SumSampleColumn(lookup, geoCoding, x, y, n, sx, sum);
        GridColumnStep(g, n, sx);
        if failure.Some? {
          return Err(failure.value);
        }
        WrapAdd(GridSum(v, n, sx), ColumnSum(v, sx, n), GridSum(v, n, sx + 1));
        sx := sx + 1;
      }
    }
    r := Ok(sum);
  }

  /**
   * The body of the inner loop of `computeTile` for target pixel (x, y): the
   * sample sum, then `100 * sum / (n * n)` in int arithmetic.
   */
  method ComputePixel(lookup: Lookup, geoCoding: PixelPos -> GeoPos, x: int, y: int, n: int)
    returns (r: Result<int>)
    ensures r == PixelValue(lookup, geoCoding, (x, y), n)
  {
    var sum := SumValidSamples(lookup, geoCoding, x, y, n);
    if sum.Err? {
      return Err(sum.error);
    }
    var total := WrapInt(n * n);
    if total == 0 {
      return Err(Arithmetic);
    }
    r := Ok(IntQuotient(WrapInt(100 * sum.value), total));
  }

  /**
   * The inner loop of `computeTile`: one column of the tile, top to bottom,
   * until the first pixel whose computation throws; `count` pixels were
   * written.
   */
  method ComputeColumn(tile: TargetTile, lookup: Lookup, geoCoding: PixelPos -> GeoPos,
                       n: int, x: int)
    returns (r: Result<()>, count: nat)
    requires tile.height >= 0
    modifies tile
    ensures count <= tile.height && (r.Ok? <==> count == tile.height)
    ensures r.Err? ==> PixelValue(lookup, geoCoding, (x, tile.y + count), n) == Err(r.error)
    ensures tile.writes == old(tile.writes) + ColumnPixels(x, tile.y, count)
    ensures Done(old(tile.samples), tile.samples, Written(lookup, geoCoding, n), x, tile.y, 1, count)
  {
    ghost var value := Written(lookup, geoCoding, n);
    var y := tile.y;
    while y < tile.y + tile.height
      invariant tile.y <= y <= tile.y + tile.height
      invariant tile.writes == old(tile.writes) + ColumnPixels(x, tile.y, y - tile.y)
      invariant Done(old(tile.samples), tile.samples, value, x, tile.y, 1, y - tile.y)
    {
      var v := ComputePixel(lookup, geoCoding, x, y, n);
      if v.Err? {
        return Err(v.error), y - tile.y;
      }
      ColumnStep(old(tile.samples), tile.samples, value, x, tile.y, y, v.value);
      tile.SetSample(x, y, v.value);
      y := y + 1;
    }
    r, count := Ok(()), tile.height;
  }

  /**
   * `computeTile`: writes the pixel value for every pixel of the tile's
   * rectangle, column by column, and nothing else, until the first pixel
   * whose computation throws; that exception surfaces as an
   * OperatorException, with the pixels before it already written. `lookup`
   * is the classifier's `getWaterMaskSample`, `Sampler(classifier, image)`.
   */
  method ComputeTile(tile: TargetTile, lookup: Lookup, geoCoding: PixelPos -> GeoPos, n: int)
    returns (r: Result<()>)
    modifies tile
    ensures r.Err? ==> r.error == Operator
    ensures r.Err? ==> exists q :: InRect(q, tile.x, tile.y, tile.width, tile.height) && PixelValue(lookup, geoCoding, q, n).Err?
    ensures r.Ok? <==> forall q :: InRect(q, tile.x, tile.y, tile.width, tile.height) ==> PixelValue(lookup, geoCoding, q, n).Ok?
    ensures r.Ok? ==> tile.writes == old(tile.writes) + RectOrder(tile.x, tile.y, tile.width, tile.height)
    ensures r.Err? ==> old(tile.writes) <= tile.writes <= old(tile.writes) + RectOrder(tile.x, tile.y, tile.width, tile.height)
    ensures forall q :: q in tile.samples ==> q in old(tile.samples) || InRect(q, tile.x, tile.y, tile.width, tile.height)
    ensures Kept(old(tile.samples), tile.samples, tile.x, tile.y, tile.width, tile.height)
    ensures r.Ok? ==> forall q :: InRect(q, tile.x, tile.y, tile.width, tile.height) ==>
      q in tile.samples && PixelValue(lookup, geoCoding, q, n) == Ok(tile.samples[q])
  {
    r := Ok(());
    if tile.width <= 0 || tile.height <= 0 {
      return;
    }
    ghost var value := Written(lookup, geoCoding, n);
    var x := tile.x;
    while x < tile.x + tile.width
      invariant tile.x <= x <= tile.x + tile.width
      invariant tile.writes == old(tile.writes) + RectPixels(tile.x, tile.y, tile.height, x - tile.x)
      invariant Done(old(tile.samples), tile.samples, value, tile.x, tile.y, x - tile.x, tile.height)
    {
      ghost var before := tile.samples;
      var column, count := ComputeColumn(tile, lookup, geoCoding, n, x);
      WritesAfterColumn(old(tile.writes), tile.x, tile.y, tile.width, tile.height, x - tile.x, count);
      RectStep(old(tile.samples), before, tile.samples, value, tile.x, tile.y, tile.width, tile.height, x - tile.x, count);
      if column.Err? {
        assert InRect((x, tile.y + count), tile.x, tile.y, tile.width, tile.height);
        return Err(Operator);
      }
      x := x + 1;
    }
    assert x - tile.x == tile.width;
    assert RectOrder(tile.x, tile.y, tile.width, tile.height) == RectPixels(tile.x, tile.y, tile.height, tile.width);
    FilledPixelValues(lookup, geoCoding, n, tile.samples, tile.x, tile.y, tile.width, tile.height);
  }

  /** A rectangle filled with the written values holds, at each pixel, the pixel's value, which did not throw. */
  lemma FilledPixelValues(lookup: Lookup, geoCoding: PixelPos -> GeoPos, n: int,
                          m: map<(int, int), int>, x0: int, y0: int, width: int, height: int)
    requires Filled(m, Written(lookup, geoCoding, n), x0, y0, width, height)
    ensures forall q :: InRect(q, x0, y0, width, height) ==> PixelValue(lookup, geoCoding, q, n).Ok?
    ensures forall q :: InRect(q, x0, y0, width, height) ==> q in m && PixelValue(lookup, geoCoding, q, n) == Ok(m[q])
  {
    forall q | InRect(q, x0, y0, width, height)
      ensures q in m && PixelValue(lookup, geoCoding, q, n) == Ok(m[q])
    {
      assert Written(lookup, geoCoding, n)(q) == Some(m[q]);
    }
  }
}
