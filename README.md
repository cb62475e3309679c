# beam-watermask in Dafny

A model of the land/water classifier of beam-watermask and of the helper
tools that build its tile archives. The repository keeps several revisions
of the classifier side by side, and every revision is modelled against its
own text:

- **GlobalClassifier** and **GlobalOp**: the newer classifier over one
  global raster (resolution 50 m or 150 m), with a water fraction averaged
  over an n×n subsample grid and INVALID (127) as the no-data sentinel. Also
  its GPF operator, which validates its inputs and writes one percentage
  per target pixel.
- **TileClassifier**: the per-degree tile classifier. It covers the
  `isInRange` name test, the intra-tile `geoPosToPixel`, the `Bounds`
  cache key with its `equals`/`hashCode`, and `findImage`, a state machine
  that keeps a cache and a "banished" list.
- **FillOp**: the operator that fills squares without a tile. Its
  neighbour search probes outward and then recurses.
- **LegacyClassifier**: the oldest classifier. Its `isInRange` ignores the
  n/s letter, and its `findImage` is a first-match scan.
- **Rasterizer** and **LegacyRasterizer**: the two shapefile rasterizers.
  They cover side length, the envelope from a tile name, extension
  stripping, output names, temp-file sets and the zip filter.
- **TileNaming**: the name test under the rasterizer's far-edge convention.
  It is proved equal to the rasterizer's envelope (see Findings).
- **TiledImage**: the read-fully loop of `TiledShapefileOpImage` over an
  archive entry stream.
- **GCImage**: the PNG tile image. It covers tile entry names and the
  invert-and-copy loop into a 576×491 byte raster.
- **Raster**: the writable byte raster both images write into.
- **ShapefileRenamer**: the name rewrite and the rename loop.
- **ModisMosaicer** and **ModisProductHandler**: the MODIS helpers. They
  cover the per-pixel selection rule of the polar mosaic, the product
  filter, and the four-corner polar selection with reprojection.
- **JavaLang**: the Java semantics the rest relies on. These are
  truncating `(int)` casts, byte casts, `Integer.parseInt`,
  `String.substring` with its exceptions, 32-bit int wrap-around and
  division, the saturating float-to-int cast, and decimal formatting.

Exceptions are values: an operation that throws returns `Err` or `None`
with the exception's kind. The collaborators the code calls become
function parameters:

- geo-codings and tile samplers;
- archive listings and entry streams;
- product samples and `File.renameTo`;
- reprojection;
- the random search directions.

Objects whose fields the code updates are classes with those fields:

- the tile classifier's cache;
- the rasterizers' temp-file sets;
- the renamed directory;
- the stream and image objects;
- the MODIS product lists.

## Model

| member | source | states |
|---|---|---|
| GlobalClassifier.NewClassifier | beam-watermask-operator/src/main/java/org/esa/beam/watermask/operator/WatermaskClassifier.java:61-76 | throws IllegalArgument exactly when the resolution is neither 50 nor 150; otherwise keeps resolution and tile size, and a positive tile size gives a raster of 360×180 tiles of that size |
| GlobalClassifier.Rem360 | beam-watermask-operator/src/main/java/org/esa/beam/watermask/operator/WatermaskClassifier.java:110-112 | the remainder of a non-negative shifted longitude lies in [0, 360) |
| GlobalClassifier.ColumnInRange | beam-watermask-operator/src/main/java/org/esa/beam/watermask/operator/WatermaskClassifier.java:108-113 | every longitude in [-180, 180] gives a column in [0, width) |
| GlobalClassifier.DatelineColumn | beam-watermask-operator/src/main/java/org/esa/beam/watermask/operator/WatermaskClassifier.java:109-113 | longitudes 180 and -180 both give column 0 |
| GlobalClassifier.NorthPoleRow | beam-watermask-operator/src/main/java/org/esa/beam/watermask/operator/WatermaskClassifier.java:114 | latitude 90 gives row 0 |
| GlobalClassifier.RowMonotone | beam-watermask-operator/src/main/java/org/esa/beam/watermask/operator/WatermaskClassifier.java:114 | the row never decreases as the latitude decreases |
| GlobalClassifier.RowInRange | beam-watermask-operator/src/main/java/org/esa/beam/watermask/operator/WatermaskClassifier.java:70-114 | every latitude in (-90, 90] gives a row inside the 180-tile-high raster |
| GlobalClassifier.SampleInRange | beam-watermask-operator/src/main/java/org/esa/beam/watermask/operator/WatermaskClassifier.java:107-116 | for lat in (-90, 90] and lon in [-180, 180] the lookup reads the image at the computed pixel, so the image's own result (a sample or an IOException) is returned |
| GlobalClassifier.SouthPoleHasNoTile | beam-watermask-operator/src/main/java/org/esa/beam/watermask/operator/WatermaskClassifier.java:114-116 | at lat -90 the row is one past the raster, no tile exists, and the lookup throws NullPointerException |
| GlobalClassifier.IsWater | beam-watermask-operator/src/main/java/org/esa/beam/watermask/operator/WatermaskClassifier.java:170-173 | throws exactly when the lookup throws, with the same exception; otherwise true exactly when the sample is WATER (1), so INVALID and LAND both give false |
| GlobalClassifier.SubPosOffsets | beam-watermask-operator/src/main/java/org/esa/beam/watermask/operator/WatermaskClassifier.java:134-141 | the subsample position (sx, sy) is the pixel position plus (sx/n, sy/n) |
| GlobalClassifier.GridSamples | beam-watermask-operator/src/main/java/org/esa/beam/watermask/operator/WatermaskClassifier.java:138-143 | grid cell (sx, sy) holds the lookup's result, sample or exception, at that subsample position's geo-position |
| GlobalClassifier.ColumnErrorSpec | beam-watermask-operator/src/main/java/org/esa/beam/watermask/operator/WatermaskClassifier.java:140-148 | a column's first exception is absent exactly when every lookup of the column succeeds; otherwise it is the exception of the first failing lookup, and every lookup before it succeeded |
| GlobalClassifier.GridErrorSpec | beam-watermask-operator/src/main/java/org/esa/beam/watermask/operator/WatermaskClassifier.java:138-150 | the grid's first exception is absent exactly when every lookup succeeds; otherwise it is the exception of the first failing lookup in loop order (column by column), and every earlier lookup succeeded |
| GlobalClassifier.ColumnInvalidAll | beam-watermask-operator/src/main/java/org/esa/beam/watermask/operator/WatermaskClassifier.java:140-148 | a column's invalid count is at most its length, and equals it exactly when every sample is INVALID |
| GlobalClassifier.GridInvalidAll | beam-watermask-operator/src/main/java/org/esa/beam/watermask/operator/WatermaskClassifier.java:138-152 | the grid's invalid count is at most sx·n, and equals it exactly when every sample is INVALID |
| GlobalClassifier.ColumnSumBounds | beam-watermask-operator/src/main/java/org/esa/beam/watermask/operator/WatermaskClassifier.java:144-148 | with samples in {0, 1, 127}, a column's valid sum lies between 0 and the number of valid samples |
| GlobalClassifier.GridSumBounds | beam-watermask-operator/src/main/java/org/esa/beam/watermask/operator/WatermaskClassifier.java:138-149 | the grid's valid sum lies between 0 and the number of valid samples |
| GlobalClassifier.FractionSpec | beam-watermask-operator/src/main/java/org/esa/beam/watermask/operator/WatermaskClassifier.java:152-157 | when n·n fits in an int: the fraction is 127 exactly when all n·n samples are INVALID (n = 0 included); otherwise it is 100·sum div n·n and lies in [0, 100] |
| GlobalClassifier.FractionCountsInvalidInDivisor | beam-watermask-operator/src/main/java/org/esa/beam/watermask/operator/WatermaskClassifier.java:156 | one water sample among three INVALID ones gives 25, not 100: the divisor includes invalid samples |
| GlobalClassifier.FromCountsAt46341 | beam-watermask-operator/src/main/java/org/esa/beam/watermask/operator/WatermaskClassifier.java:152-157 | with 46341² water samples and none invalid, the int product n·n wraps negative and the byte cast returns -100 |
| GlobalClassifier.FractionWrapsAt46341 | beam-watermask-operator/src/main/java/org/esa/beam/watermask/operator/WatermaskClassifier.java:152-157 | an all-water grid with n = 46341 gives the fraction -100, outside the documented [0, 100] |
| GlobalClassifier.GetWaterMaskFraction | beam-watermask-operator/src/main/java/org/esa/beam/watermask/operator/WatermaskClassifier.java:132-158 | the nested loop throws the first lookup exception in loop order; otherwise it returns the fraction of the n×n subsample grid with Java's int wrap-around in the counts and n·n; for n <= 0 no lookup is made (see NonPositiveFactor) |
| GlobalClassifier.NonPositiveFactor | beam-watermask-operator/src/main/java/org/esa/beam/watermask/operator/WatermaskClassifier.java:138-156 | for n <= 0 neither loop runs and both counts are 0: the answer is 127 exactly when n·n wraps to 0 as an int (n = 0, or n a multiple of 65536), and 0 for every other n |
| GlobalClassifier.NegativeFactorWrapsToInvalid | beam-watermask-operator/src/main/java/org/esa/beam/watermask/operator/WatermaskClassifier.java:152-154 | n = -65536 gives 127, because n·n wraps to 0 and equals the invalid count 0; n = -1 gives 0 |
| GlobalClassifier.WaterMaskFractionFails | beam-watermask-operator/src/main/java/org/esa/beam/watermask/operator/WatermaskClassifier.java:132-158 | for n > 0 the method throws exactly when some lookup of the grid throws, and then with the exception of the first such lookup in loop order |
| GlobalOp.ValidateParameter | beam-watermask-operator/src/main/java/org/esa/beam/watermask/operator/WatermaskOp.java:111-117 | fails exactly when the resolution is neither 50 nor 150 |
| GlobalOp.ValidateSourceProduct | beam-watermask-operator/src/main/java/org/esa/beam/watermask/operator/WatermaskOp.java:119-128 | passes exactly for a geo-coding that can give geo-positions; a missing geo-coding fails with its own reason |
| GlobalOp.InitTargetProduct | beam-watermask-operator/src/main/java/org/esa/beam/watermask/operator/WatermaskOp.java:130-140 | the target has the source size and a band "land_water_fraction" with no-data 127 enabled; it fails exactly when the geo-coding could not be copied |
| GlobalOp.Initialize | beam-watermask-operator/src/main/java/org/esa/beam/watermask/operator/WatermaskOp.java:72-81 | each failure occurs exactly when every earlier check passed: resolution, then source product, then target product, then classifier |
| GlobalOp.OpValueRange | beam-watermask-operator/src/main/java/org/esa/beam/watermask/operator/WatermaskOp.java:92-103 | when 100·n·n fits in an int: with samples in {0, 1, 127} the int division succeeds and the written value lies in [0, 100] and is never 127 |
| GlobalOp.OpValueWrapsAt4635 | beam-watermask-operator/src/main/java/org/esa/beam/watermask/operator/WatermaskOp.java:103 | an all-water grid with n = 4635 overflows 100·sum and writes -99 |
| GlobalOp.OpValueZeroDivisor | beam-watermask-operator/src/main/java/org/esa/beam/watermask/operator/WatermaskOp.java:103 | n = 0, and n = 65536 where n·n wraps to 0, throw ArithmeticException in the division |
| GlobalOp.OpValueVersusFraction | beam-watermask-operator/src/main/java/org/esa/beam/watermask/operator/WatermaskOp.java:92-103 | when 100·n·n fits in an int: the operator's value equals the classifier's fraction unless all samples are INVALID, where the operator writes 0 and the classifier returns 127 |
| GlobalOp.ColumnPixelsSpec | beam-watermask-operator/src/main/java/org/esa/beam/watermask/operator/WatermaskOp.java:91 | one column's write order is strictly increasing and visits exactly that column's pixels |
| GlobalOp.RectPixelsSpec | beam-watermask-operator/src/main/java/org/esa/beam/watermask/operator/WatermaskOp.java:90-91 | the first k columns' write order is strictly increasing and visits exactly their pixels |
| GlobalOp.RectOrderSpec | beam-watermask-operator/src/main/java/org/esa/beam/watermask/operator/WatermaskOp.java:90-91 | the rectangle's write order visits every pixel of the rectangle exactly once and nothing else |
| GlobalOp.PixelValueFails | beam-watermask-operator/src/main/java/org/esa/beam/watermask/operator/WatermaskOp.java:92-107 | for n > 0 a pixel fails exactly when some lookup of its grid throws or n·n wraps to 0; a failing lookup is the first failing one in loop order |
| GlobalOp.SumValidSamples | beam-watermask-operator/src/main/java/org/esa/beam/watermask/operator/WatermaskOp.java:92-102 | the two inner loops throw the first lookup exception in loop order, or otherwise give the int-wrapped sum of the non-INVALID samples of the n×n grid |
| GlobalOp.ComputePixel | beam-watermask-operator/src/main/java/org/esa/beam/watermask/operator/WatermaskOp.java:92-103 | one target pixel's value: the first lookup exception of its grid, else ArithmeticException when n·n wraps to 0, else the int-wrapped `100 * sum / (n * n)` |
| GlobalOp.ComputeColumn | beam-watermask-operator/src/main/java/org/esa/beam/watermask/operator/WatermaskOp.java:91-104 | writes the pixels of one column in order until the first pixel whose value throws, which is reported with its exception; each written pixel holds its value and other samples are unchanged |
| GlobalOp.ComputeTile | beam-watermask-operator/src/main/java/org/esa/beam/watermask/operator/WatermaskOp.java:84-109 | with the classifier's lookup `GlobalClassifier.Sampler(classifier, image)` passed in as a function: succeeds exactly when every rectangle pixel's value can be computed, and then writes every rectangle pixel exactly once in loop order with its value; otherwise throws OperatorException, some rectangle pixel fails, and the writes made are a prefix of the loop order; nothing outside the rectangle changes |
| TileClassifier.NewGeoPos | src/main/java/org/esa/beam/watermask/operator/WatermaskClassifier.java:171-178 | succeeds exactly when lat is in [-180, 180] and lon in [-90, 90], the ranges as written; otherwise IllegalArgument |
| TileClassifier.FractionalPart | src/main/java/org/esa/beam/watermask/operator/WatermaskClassifier.java:85-86 | \|x - trunc(x)\| lies in [0, 1) |
| TileClassifier.ScaledPartBounds | src/main/java/org/esa/beam/watermask/operator/WatermaskClassifier.java:87-88 | trunc(size·f) lies in [0, size) for a fraction f in [0, 1) |
| TileClassifier.GeoPosToPixelInRaster | src/main/java/org/esa/beam/watermask/operator/WatermaskClassifier.java:83-90 | for positive width and height the pixel lies in [0, w-1]×[0, h-1] |
| TileClassifier.GeoPosToPixelVectors | src/test/java/org/esa/beam/watermask/operator/WatermaskClassifierTest.java:127-163 | the 1024×1024 test vectors of the pixel formula hold |
| TileClassifier.IsInRange | src/main/java/org/esa/beam/watermask/operator/WatermaskClassifier.java:135-164 | an accepted name has at least 7 characters, and its w/e and n/s letters agree with the signs of lon and lat |
| TileClassifier.IsInRangeSpec | src/main/java/org/esa/beam/watermask/operator/WatermaskClassifier.java:145-163 | mismatching degrees give false before the letters are read; matching degrees give the letter agreement, and invalid letters throw IllegalArgument |
| TileClassifier.IsInRangeShortName | src/main/java/org/esa/beam/watermask/operator/WatermaskClassifier.java:136-137 | a name shorter than 7 characters throws IndexOutOfBounds |
| TileClassifier.IsInRangeNearEdge | src/main/java/org/esa/beam/watermask/operator/WatermaskClassifier.java:145-148 | at (51.007, -1.30) the test rejects "w002n51.img" and accepts "w001n51.img" |
| TileClassifier.NameFields | src/main/java/org/esa/beam/watermask/operator/WatermaskClassifier.java:136-139 | the digit fields of a name parse to their decimal values |
| TileClassifier.BoundsOf | src/main/java/org/esa/beam/watermask/operator/WatermaskClassifier.java:196-201 | the key is one degree wide and one degree high |
| TileClassifier.BoundsEquality | src/main/java/org/esa/beam/watermask/operator/WatermaskClassifier.java:215-240 | two keys are equal exactly when the truncated lat and lon agree |
| TileClassifier.BoundsCollideAcrossZero | src/main/java/org/esa/beam/watermask/operator/WatermaskClassifier.java:196-201 | lon -0.5 and lon 0.5 share one key |
| TileClassifier.HashCode | src/main/java/org/esa/beam/watermask/operator/WatermaskClassifier.java:242-249 | the hash is wrapped to a 32-bit int |
| TileClassifier.HashCodeOfPosition | src/main/java/org/esa/beam/watermask/operator/WatermaskClassifier.java:242-249 | equal keys have equal hashes, and for a valid position the hash is 31-polynomial in the key fields without overflow |
| TileClassifier.BoundsContainsOwnPosition | src/main/java/org/esa/beam/watermask/operator/WatermaskClassifier.java:203-213 | a key contains its own position exactly when each coordinate is non-negative or whole |
| TileClassifier.Answers | src/main/java/org/esa/beam/watermask/operator/WatermaskClassifier.java:104-107 | for a given name test, one answer per archive entry, in listing order; both classifiers' scans use it with their own `isInRange` |
| TileClassifier.ScanSpec | src/main/java/org/esa/beam/watermask/operator/WatermaskClassifier.java:104-116 | the scan stops at the first entry that does not answer false, and every entry before it answered false |
| TileClassifier.Classifier.AlreadyComputedImage | src/main/java/org/esa/beam/watermask/operator/WatermaskClassifier.java:119-125 | returns an image exactly when the position's key is cached, and it is the cached image |
| TileClassifier.Classifier.FindImage | src/main/java/org/esa/beam/watermask/operator/WatermaskClassifier.java:92-117 | a cached key returns its image unchanged; a banished key throws; otherwise each rejected entry banishes the key once more, and the first match is read, cached and returned; no match throws; the cache only gains entries |
| TileClassifier.Classifier.constructor | src/main/java/org/esa/beam/watermask/operator/WatermaskClassifier.java:54-65 | keeps the side length and starts with an empty cache and banished list |
| TileClassifier.IsWater | src/main/java/org/esa/beam/watermask/operator/WatermaskClassifier.java:67-74 | throws exactly for an invalid position; otherwise true exactly when the sample at the position's pixel is 1 |
| FillOp.ProbeSquare | src/main/java/org/esa/beam/watermask/operator/WatermaskOp.java:116-133 | latitude moves keep lon and longitude moves keep lat; gives the truncated square each move lands in, so moves down or left from below 1 stay in the same key |
| FillOp.AdjacentType | src/main/java/org/esa/beam/watermask/operator/WatermaskOp.java:113-146 | a found value is a byte; what the search answers is stated on FillOp.AdjacentTypeSpec |
| FillOp.ProbePathSteps | src/main/java/org/esa/beam/watermask/operator/WatermaskOp.java:113-139 | each point on the probe path is the probe from the point before it in the next direction |
| FillOp.AdjacentTypeSpec | src/main/java/org/esa/beam/watermask/operator/WatermaskOp.java:135-145 | the search answers at the first probe point whose existence check is not false, with the sample there (not at the input point); an IOException gives -1; when the directions run out first, so does the search |
| FillOp.PixelWaterDirect | src/main/java/org/esa/beam/watermask/operator/WatermaskOp.java:96-97 | a pixel whose own square has a tile takes that square's sample |
| FillOp.ComputeColumn | src/main/java/org/esa/beam/watermask/operator/WatermaskOp.java:92-102 | writes one column in order until the first pixel without a value, holding each pixel's value |
| FillOp.ComputeRect | src/main/java/org/esa/beam/watermask/operator/WatermaskOp.java:91-103 | succeeds exactly when every pixel has a value, and then every pixel is written once in loop order; nothing outside the rectangle changes |
| FillOp.ComputeTile | src/main/java/org/esa/beam/watermask/operator/WatermaskOp.java:84-107 | as ComputeRect, with each target pixel's direct or searched value; any exception becomes an OperatorException |
| LegacyClassifier.DefaultClassifier | src/main/java/org/esa/beam/watermask/WatermaskClassifier.java:42-44 | the default side length is 1024 |
| LegacyClassifier.IsInRange | src/main/java/org/esa/beam/watermask/WatermaskClassifier.java:95-116 | an accepted name starts with w or e, and its letter agrees with the sign of lon |
| LegacyClassifier.IsInRangeSpec | src/main/java/org/esa/beam/watermask/WatermaskClassifier.java:103-115 | w and e names give the degree match together with the lon sign; any other first letter throws IllegalArgument whether or not the degrees match |
| LegacyClassifier.LatitudeLetterIgnored | src/main/java/org/esa/beam/watermask/WatermaskClassifier.java:95-112 | the character at position 4 never changes the answer |
| LegacyClassifier.IsInRangeShortName | src/main/java/org/esa/beam/watermask/WatermaskClassifier.java:96-97 | a name shorter than 7 characters throws IndexOutOfBounds |
| LegacyClassifier.IsInRangeVectorsNorthEast | src/test/java/org/esa/beam/watermask/WatermaskClassifierTest.java:56-72 | the e000n05f test vectors hold |
| LegacyClassifier.IsInRangeVectorsSouth | src/test/java/org/esa/beam/watermask/WatermaskClassifierTest.java:61-69 | the west and south test vectors hold |
| LegacyClassifier.IsInRangeVectorsFar | src/test/java/org/esa/beam/watermask/WatermaskClassifierTest.java:73-78 | the w120s53f and e000n09f test vectors hold |
| LegacyClassifier.FoundEntrySpec | src/main/java/org/esa/beam/watermask/WatermaskClassifier.java:79-93 | the result is the first entry that does not answer false (its answer is true), every earlier entry answered false, and no match throws IllegalArgument |
| LegacyClassifier.NoEntryFarNorth | src/test/java/org/esa/beam/watermask/WatermaskClassifierTest.java:87-91 | a position whose truncated latitude has three digits matches no two-digit tile name, so the search throws IllegalArgument |
| LegacyClassifier.NoMatchScan | src/main/java/org/esa/beam/watermask/WatermaskClassifier.java:83-92 | a scan over entries that all answer false finds nothing |
| LegacyClassifier.FindImage | src/main/java/org/esa/beam/watermask/WatermaskClassifier.java:79-93 | the loop returns the first matching entry, or throws IllegalArgument |
| LegacyClassifier.IsWater | src/main/java/org/esa/beam/watermask/WatermaskClassifier.java:50-60 | an invalid position throws IllegalArgumentException; for a valid position the search's own exception is the result when no entry is found; with an entry found it throws exactly when the read throws, with the read's exception, and otherwise is true exactly when the sample at the position's pixel is 1 |
| LegacyClassifier.DefaultPixelInTile | src/main/java/org/esa/beam/watermask/WatermaskClassifier.java:70-77 | with the default side length every position maps into [0, 1023]² |
| Rasterizer.ComputeSideLength | beam-watermask-operator/src/main/java/org/esa/beam/watermask/util/ShapeFileRasterizer.java:109-115 | throws ArithmeticException exactly for resolution 0 |
| Rasterizer.SideLengthSpec | beam-watermask-operator/src/main/java/org/esa/beam/watermask/util/ShapeFileRasterizer.java:109-115 | for r > 0 the result is a multiple of 8, at most the pixels per degree, and more than that minus 8 |
| Rasterizer.SideLengthVectors | beam-watermask-operator/src/main/java/org/esa/beam/watermask/util/ShapeFileRasterizer.java:109-115 | 50 gives 2216 and 150 gives 736 |
| Rasterizer.NameEnvelope | beam-watermask-operator/src/main/java/org/esa/beam/watermask/util/ShapeFileRasterizer.java:171-194 | the envelope is always one degree wide and one degree high |
| Rasterizer.NameEnvelopeSpec | beam-watermask-operator/src/main/java/org/esa/beam/watermask/util/ShapeFileRasterizer.java:171-194 | e gives [n, n+1] and w gives [-n, -n+1], and n gives [m, m+1] and s gives [-m, -m+1]; another letter at position 0 or 4 throws IllegalState |
| Rasterizer.LastIndexOf | beam-watermask-operator/src/main/java/org/esa/beam/watermask/util/ShapeFileRasterizer.java:262 | the index of the last occurrence, or -1 exactly when the character is absent |
| Rasterizer.FilenameWithoutExtension | beam-watermask-operator/src/main/java/org/esa/beam/watermask/util/ShapeFileRasterizer.java:261-267 | the result is a prefix; it is shorter exactly when the last dot is neither first nor last, and then the cut is at that dot |
| Rasterizer.BaseNameEmpty | beam-watermask-operator/src/main/java/org/esa/beam/watermask/util/ShapeFileRasterizer.java:261-267 | the base name is empty only for the empty name |
| Rasterizer.OutputName | beam-watermask-operator/src/main/java/org/esa/beam/watermask/util/ShapeFileRasterizer.java:206-209 | the base name minus its last character plus ".img"; an empty name throws IndexOutOfBounds |
| Rasterizer.OutputNameExample | beam-watermask-operator/src/main/java/org/esa/beam/watermask/util/ShapeFileRasterizer.java:206-209 | "e000n05f.zip" gives "e000n05.img" |
| Rasterizer.OutputPath | beam-watermask-operator/src/main/java/org/esa/beam/watermask/util/ShapeFileRasterizer.java:210 | the output file is the output name inside the target directory |
| Rasterizer.CheckArguments | beam-watermask-operator/src/main/java/org/esa/beam/watermask/util/ShapeFileRasterizer.java:89-98 | fewer than 3 arguments fail on the array access; more than 3 throw some other exception; success means exactly 3 arguments and a parsed side length |
| Rasterizer.ShapeFileRasterizer.CreateImage | beam-watermask-operator/src/main/java/org/esa/beam/watermask/util/ShapeFileRasterizer.java:157-204 | returns the name's envelope; on success it adds the .fix and .qix index files to the temp files |
| Rasterizer.ShapeFileRasterizer.ReadIntoTempFile | beam-watermask-operator/src/main/java/org/esa/beam/watermask/util/ShapeFileRasterizer.java:240-251 | registers the entry's file in the temp directory |
| Rasterizer.ShapeFileRasterizer.DeleteTempFiles | beam-watermask-operator/src/main/java/org/esa/beam/watermask/util/ShapeFileRasterizer.java:254-259 | deletes every temp file and leaves the set empty |
| LegacyRasterizer.LegacyEnvelope | src/main/java/org/esa/beam/watermask/ShapeFileRasterizer.java:137-140 | the envelope is one degree in each axis |
| LegacyRasterizer.LettersIgnored | src/main/java/org/esa/beam/watermask/ShapeFileRasterizer.java:137-140 | the hemisphere letters never change the envelope |
| LegacyRasterizer.LegacyEnvelopeSpec | src/main/java/org/esa/beam/watermask/ShapeFileRasterizer.java:137-140 | lon [d, d+1] from digits 1-3 and lat [m, m+1] from digits 5-6 |
| LegacyRasterizer.OutputName | src/main/java/org/esa/beam/watermask/ShapeFileRasterizer.java:152-154 | the base name plus ".img", with nothing dropped |
| LegacyRasterizer.OutputNameExample | src/main/java/org/esa/beam/watermask/ShapeFileRasterizer.java:152-154 | "e000n05f.zip" gives "e000n05f.img" |
| LegacyRasterizer.CheckArguments | src/main/java/org/esa/beam/watermask/ShapeFileRasterizer.java:78-83 | succeeds exactly for 2 arguments; fewer fail on the array access and more throw IllegalArgument |
| LegacyRasterizer.ZipEntriesSpec | src/main/java/org/esa/beam/watermask/ShapeFileRasterizer.java:181-186 | archives exactly the files not named "images.zip" |
| LegacyRasterizer.ZipEntriesKeepsOthers | src/main/java/org/esa/beam/watermask/ShapeFileRasterizer.java:181-187 | without an "images.zip" the archive holds the whole listing, in order |
| LegacyRasterizer.ShapeFileRasterizer.CreateImage | src/main/java/org/esa/beam/watermask/ShapeFileRasterizer.java:122-150 | returns the envelope and adds the .fix and .qix files to the files to delete |
| LegacyRasterizer.ShapeFileRasterizer.ReadIntoTempFile | src/main/java/org/esa/beam/watermask/ShapeFileRasterizer.java:215-226 | registers the entry's file for deletion |
| LegacyRasterizer.ShapeFileRasterizer.DeleteFilesToDelete | src/main/java/org/esa/beam/watermask/ShapeFileRasterizer.java:228-233 | deletes every registered file and leaves the set empty |
| LegacyRasterizer.ShapeFileRasterizer.ZipFiles | src/main/java/org/esa/beam/watermask/ShapeFileRasterizer.java:176-202 | the loop archives the listing without "images.zip" |
| TileNaming.TileDegrees | src/test/java/org/esa/beam/watermask/operator/WatermaskClassifierTest.java:83-122 | the far-edge tile digits: the degree square [d, d+1] or [-d, -d+1] holding the coordinate |
| TileNaming.IsInRangeCorrected | src/main/java/org/esa/beam/watermask/operator/WatermaskClassifier.java:135-164 | an accepted name has at least 7 characters, and its letters agree with the signs of lon and lat |
| TileNaming.IsInRangeCorrectedSpec | src/main/java/org/esa/beam/watermask/operator/WatermaskClassifier.java:145-163 | the classifier's decision with far-edge degrees: mismatching degrees give false, otherwise the letters decide or throw |
| TileNaming.CorrectedMatchesEnvelope | beam-watermask-operator/src/main/java/org/esa/beam/watermask/util/ShapeFileRasterizer.java:171-194 | for valid names whose `w` digits and `s` digits are not zero, the corrected test accepts exactly the positions in the rasterizer's envelope of that name, west and south edges included; `w000…` and `…s00` names are excluded because there the far-edge test and the envelope disagree (the envelope of `w000` lies east of zero) |
| TileNaming.OwnTileHoldsPosition | beam-watermask-operator/src/main/java/org/esa/beam/watermask/util/ShapeFileRasterizer.java:171-194 | the name built from a position's degrees and hemispheres accepts it, and its envelope holds it |
| TileNaming.AsWrittenMissesOwnTile | src/main/java/org/esa/beam/watermask/operator/WatermaskClassifier.java:145-148 | (51.007, -1.30) lies in the envelope of "w002n51", yet the test as written rejects that name and the corrected one accepts it |
| TileNaming.CorrectedNorthWest51 | src/test/java/org/esa/beam/watermask/operator/WatermaskClassifierTest.java:85-86 | the w002n51 and w001n51 test vectors hold |
| TileNaming.CorrectedNorthWest48 | src/test/java/org/esa/beam/watermask/operator/WatermaskClassifierTest.java:88-89 | the w002n48 and w001n48 test vectors hold |
| TileNaming.CorrectedNorthEast51 | src/test/java/org/esa/beam/watermask/operator/WatermaskClassifierTest.java:93-94 | the e000n51 and e001n51 test vectors hold |
| TileNaming.CorrectedNorthEast49 | src/test/java/org/esa/beam/watermask/operator/WatermaskClassifierTest.java:96 | the e000n49 test vector holds |
| TileNaming.CorrectedWrongHemisphere | src/test/java/org/esa/beam/watermask/operator/WatermaskClassifierTest.java:97 | a west name rejects an eastern position |
| TileNaming.CorrectedNorthEastFar51 | src/test/java/org/esa/beam/watermask/operator/WatermaskClassifierTest.java:99-100 | the e001n51 and e000n51 vectors at lon 1.30 hold |
| TileNaming.CorrectedNorthEast45 | src/test/java/org/esa/beam/watermask/operator/WatermaskClassifierTest.java:102-103 | the e000n45 and w000n45 test vectors hold |
| TileNaming.CorrectedNorthEast30 | src/test/java/org/esa/beam/watermask/operator/WatermaskClassifierTest.java:105-106 | the e111n30 test vectors hold |
| TileNaming.CorrectedSouthWest01 | src/test/java/org/esa/beam/watermask/operator/WatermaskClassifierTest.java:110-111 | the w001s01 and w000s01 test vectors hold |
| TileNaming.CorrectedSouthWest02 | src/test/java/org/esa/beam/watermask/operator/WatermaskClassifierTest.java:113-114 | the w002s02 and w001s01 test vectors hold |
| TileNaming.CorrectedSouthEast00 | src/test/java/org/esa/beam/watermask/operator/WatermaskClassifierTest.java:118-119 | the e000s01 and e000s00 test vectors hold |
| TileNaming.CorrectedSouthEast01 | src/test/java/org/esa/beam/watermask/operator/WatermaskClassifierTest.java:121-122 | the e001s01 and e001s00 test vectors hold |
| TiledImage.EntryStream.Delivered | src/main/java/org/esa/beam/watermask/operator/TiledShapefileOpImage.java:98 | a read of a non-exhausted entry delivers at least one byte, at most the request, and no more than remain |
| TiledImage.EntryStream.Read | src/main/java/org/esa/beam/watermask/operator/TiledShapefileOpImage.java:98 | a read either throws IOException, or returns -1 at the end, or puts the next n bytes at the offset and changes nothing else in the buffer |
| TiledImage.TiledShapefileOpImage.ReadRawDataTile | src/main/java/org/esa/beam/watermask/operator/TiledShapefileOpImage.java:88-104 | the stream is closed either way; success exactly when no read threw, and then the buffer holds the entry's next bytes in order (count == length, as the Assert checks); a failure is the IOException of the last read |
| TiledImage.TiledShapefileOpImage.ComputeTile | src/main/java/org/esa/beam/watermask/operator/TiledShapefileOpImage.java:67-77 | the raster sits at the tile origin and holds the tile's bytes; an IOException becomes a RuntimeException |
| TiledImage.TiledShapefileOpImage.Dispose | src/main/java/org/esa/beam/watermask/operator/TiledShapefileOpImage.java:79-86 | the archive is closed |
| GCImage.FileName | beam-watermask-operator/src/main/java/org/esa/beam/watermask/operator/GCOpImage.java:104-106 | the name ends in ".png" |
| GCImage.FileNameRoundTrip | beam-watermask-operator/src/main/java/org/esa/beam/watermask/operator/GCOpImage.java:104-106 | reading an int tile position back from its entry name gives that position |
| GCImage.FileNameInjective | beam-watermask-operator/src/main/java/org/esa/beam/watermask/operator/GCOpImage.java:104-106 | different tiles read different entries |
| GCImage.FileNameExample | beam-watermask-operator/src/main/java/org/esa/beam/watermask/operator/GCOpImage.java:104-106 | tile (12, 3) is read from "12-3.png" |
| GCImage.InvertOfByte | beam-watermask-operator/src/main/java/org/esa/beam/watermask/operator/GCOpImage.java:91-92 | on a byte, positive values drop by one and the others mirror around one; -127 and -128 wrap to -128 and -127 |
| GCImage.InvertSwapsMask | beam-watermask-operator/src/main/java/org/esa/beam/watermask/operator/GCOpImage.java:91-92 | 0 and 1 swap, and inverting twice is the identity on {0, 1} |
| GCImage.GCOpImage.ComputeRawRaster | beam-watermask-operator/src/main/java/org/esa/beam/watermask/operator/GCOpImage.java:78-102 | a fresh 576×491 raster at the tile origin, with every decoded pixel written inverted at origin + (x, y) and every other cell left zero; a tile too large for the raster fails with IndexOutOfBounds, under the bounds-checking assumption of Raster.WritableRaster.SetSample; the stream is closed either way |
| GCImage.GCOpImage.ComputeTile | beam-watermask-operator/src/main/java/org/esa/beam/watermask/operator/GCOpImage.java:66-76 | as ComputeRawRaster, with an IOException turned into a RuntimeException |
| Raster.WritableRaster.SetSample | beam-watermask-operator/src/main/java/org/esa/beam/watermask/operator/GCOpImage.java:93 | writes the byte-cast sample at a position inside the raster and changes nothing else; a position outside fails with IndexOutOfBounds and changes nothing, which is an assumed bounds check (see Left out) |
| ShapefileRenamer.NewName | src/main/java/org/esa/beam/watermask/util/ShapefileRenamer.java:32-34 | defined exactly for names of at least 12 characters; the new name has 11 characters: the first 7, then characters 8 to 11 |
| ShapefileRenamer.NewNameExample | src/test/java/org/esa/beam/watermask/util/ShapefileRenamerTest.java:32-39 | "e000n05f.img" becomes "e000n05.img" |
| ShapefileRenamer.RenamedOnce | src/main/java/org/esa/beam/watermask/util/ShapefileRenamer.java:32-34 | a renamed name is too short to be renamed again |
| ShapefileRenamer.RenameKeepsEnvelope | src/main/java/org/esa/beam/watermask/util/ShapefileRenamer.java:32-34 | renaming keeps the tile envelope of the older rasterizer |
| ShapefileRenamer.RenamesLegacyOutput | src/main/java/org/esa/beam/watermask/util/ShapefileRenamer.java:32-34 | the older rasterizer's image of "e000n05f.zip" is renamed to "e000n05.img" |
| ShapefileRenamer.FirstFailure | src/main/java/org/esa/beam/watermask/util/ShapefileRenamer.java:30-38 | the index of the first file whose renaming throws: all before it rename, and it does not |
| ShapefileRenamer.RenameAllSpec | src/main/java/org/esa/beam/watermask/util/ShapefileRenamer.java:27-40 | success exactly when no file fails; files before the first failure are renamed and the rest are untouched; a short name throws IndexOutOfBounds and a failed rename throws IllegalState |
| ShapefileRenamer.Directory.RenameFiles | src/main/java/org/esa/beam/watermask/util/ShapefileRenamer.java:27-40 | the loop's result and new names are those of the rename specification |
| ModisMosaicer.GetGeoPos | beam-watermask-operator/src/main/java/org/esa/beam/watermask/util/ModisMosaicer.java:142-148 | lon = -180 + x·360/155520 and lat = -60 - y·30/12960 |
| ModisMosaicer.GetGeoPosSpec | beam-watermask-operator/src/main/java/org/esa/beam/watermask/util/ModisMosaicer.java:142-148 | on the image, lon lies in [-180, 180] and lat in [-90, -60], and the pixel is recovered from the position |
| ModisMosaicer.CoveringMembers | beam-watermask-operator/src/main/java/org/esa/beam/watermask/util/ModisMosaicer.java:150-163 | a product is kept exactly when its pixel position is valid and strictly inside its scene |
| ModisMosaicer.CoveringAppend | beam-watermask-operator/src/main/java/org/esa/beam/watermask/util/ModisMosaicer.java:150-163 | the filter keeps the listing order |
| ModisMosaicer.LookupX | beam-watermask-operator/src/main/java/org/esa/beam/watermask/util/ModisMosaicer.java:117-120 | the looked-up column is x or x - 1 |
| ModisMosaicer.LookupY | beam-watermask-operator/src/main/java/org/esa/beam/watermask/util/ModisMosaicer.java:112-115 | the looked-up row is y or y - 1 |
| ModisMosaicer.FirstSampleSpec | beam-watermask-operator/src/main/java/org/esa/beam/watermask/util/ModisMosaicer.java:122-134 | WATER when no product has a valid sample, otherwise the first valid sample |
| ModisMosaicer.ForcedLandIgnoresProducts | beam-watermask-operator/src/main/java/org/esa/beam/watermask/util/ModisMosaicer.java:107-110 | a pixel in the forced-land region is LAND whatever the products are |
| ModisMosaicer.UncoveredIsWater | beam-watermask-operator/src/main/java/org/esa/beam/watermask/util/ModisMosaicer.java:122-124 | a pixel that no product covers is WATER |
| ModisMosaicer.SeamColumn | beam-watermask-operator/src/main/java/org/esa/beam/watermask/util/ModisMosaicer.java:117-123 | column 77758 takes the value of column 77757 |
| ModisMosaicer.TemporaryMODISImage.GetProducts | beam-watermask-operator/src/main/java/org/esa/beam/watermask/util/ModisMosaicer.java:150-163 | the loop's result is the covering products, in order |
| ModisMosaicer.TemporaryMODISImage.WritePixel | beam-watermask-operator/src/main/java/org/esa/beam/watermask/util/ModisMosaicer.java:107-135 | the pixel holds its byte value by the selection rule, and no other cell changes |
| ModisMosaicer.TemporaryMODISImage.WriteColumn | beam-watermask-operator/src/main/java/org/esa/beam/watermask/util/ModisMosaicer.java:105-136 | every pixel of the column holds its value, and other columns are unchanged |
| ModisMosaicer.TemporaryMODISImage.ComputeTile | beam-watermask-operator/src/main/java/org/esa/beam/watermask/util/ModisMosaicer.java:95-140 | count rises by one; a fresh 576×480 raster at the tile origin, with every pixel holding its value |
| ModisProductHandler.CornersAreCentres | beam-watermask-operator/src/main/java/org/esa/beam/watermask/util/ModisProductHandler.java:63-95 | the probed corners are (0.5, h-0.5), (w-0.5, h-0.5), (0.5, 0.5) and (w-0.5, 0.5) |
| ModisProductHandler.SelectedCount | beam-watermask-operator/src/main/java/org/esa/beam/watermask/util/ModisProductHandler.java:61-104 | a polar product is picked once for each time it is listed, and no other product is picked |
| ModisProductHandler.SelectedMembers | beam-watermask-operator/src/main/java/org/esa/beam/watermask/util/ModisProductHandler.java:61-104 | a product is picked exactly when it is listed and a corner reaches lat ≤ -60 (lower) or ≥ 60 (upper) |
| ModisProductHandler.SelectedAppend | beam-watermask-operator/src/main/java/org/esa/beam/watermask/util/ModisProductHandler.java:61-104 | picked products keep the listing order |
| ModisProductHandler.ModisProductHandler.GetProducts | beam-watermask-operator/src/main/java/org/esa/beam/watermask/util/ModisProductHandler.java:57-105 | the loop with its `continue`s appends exactly the picked products, in order |
| ModisProductHandler.ModisProductHandler.Reproject | beam-watermask-operator/src/main/java/org/esa/beam/watermask/util/ModisProductHandler.java:107-116 | appends exactly one reprojected product per picked product, in the same order |

## Left out

- Rendering with GeoTools (map context, styles, shapefile data stores, the streaming renderer) is left out, because it is foreign library code. Only the name and envelope arithmetic around it is modelled.
- JAI and GPF plumbing is left out: tile caches, sample models, `image.getData()`, band and product construction, and product reading and writing. Tile samples, geo-codings, products and reprojection are function parameters. The global image is a function from pixel to sample or exception, so its IOExceptions are kept; a pixel outside the raster has no tile, which the model gives as a NullPointerException.
- File, zip and stream I/O is left out. This covers `readImage` (a single unchecked read whose completeness cannot be stated), `installAuxdata`, the byte copying of `zipFiles`, `readIntoTempFile` and `writeToFile`, `getResource` returning null, and `listFiles` returning null.
- `WatermaskOpImage`, `WatermaskUtils.computeSideLength`, `computeImagePixelCount`, `getImgFileName`, `getTileBasename` and `shapeFileExists` are not part of this model. The newer classifier takes its tile size, and the fill operator its existence check, as parameters.
- `TiledShapefileOpImage.createInputStream` is left out, because it only looks up the archive entry. The entry's stream is a parameter, and a null entry is not modelled.
- TiledImage.TiledShapefileOpImage.ReadRawDataTile requires the entry to hold a whole tile. With fewer bytes, each read at end of stream returns -1, which lowers the count by one. Once the count is negative, the next read gets a negative offset, and `InputStream.read` throws IndexOutOfBoundsException. That exception path, after a partly filled buffer, is what the requirement leaves out.
- Raster.WritableRaster.SetSample assumes that a write outside the raster fails with an index exception and changes nothing. The platform's `setSample` documents no bounds check: an out-of-range write may throw from the backing array, or land in another cell of a shared buffer. GCImage.GCOpImage.ComputeRawRaster inherits this assumption for a decoded tile that does not fit.
- GCImage.GCOpImage.ComputeRawRaster takes the decoded PNG as a parameter, so ImageIO decoding is left out. An entry that cannot be opened or decoded is folded into that parameter's error. The cells written before a failing write are not described, and neither is the exception message.
- The fill search's `Math.random` is left out. The model replaces it with a given direction sequence per pixel, so a search that does not end within those directions ends in `OutOfFuel` instead of recursing without bound.
- FillOp.AdjacentType does not model the float rounding of `1.0001f` and `0.0001f`.
- Java float and double rounding is left out. Coordinates and fractions are reals. The classifier's `valueSum` is a float in the source and an exact integer in the model, so the rounding of the float sum for very large grids is not captured; the `(int)` cast of the float quotient is modelled with its saturation and its NaN and infinity cases.
- GlobalClassifier.FractionSpec states the documented [0, 100] range only when n·n fits in an int. Beyond that the model follows Java's wrap-around, and GlobalClassifier.FractionWrapsAt46341 shows a result outside the range.
- GlobalOp.OpValueRange states the [0, 100] range only when 100·n·n fits in an int. Beyond that, `100 * sum` and `n * n` wrap, as GlobalOp.OpValueWrapsAt4635 and GlobalOp.OpValueZeroDivisor show.
- GlobalOp.OpValueVersusFraction relates the operator to the classifier only when 100·n·n fits in an int. Beyond that the two wrap differently, one in int arithmetic and one through a float quotient.
- `File.separatorChar` is taken to be '/'.
- GCImage.FileName writes ASCII decimal digits. `String.format("%d-%d.png", …)` at GCOpImage.java:105 uses the default locale's digits, which the model does not capture.
- The MODIS `main` methods and `write` are left out, along with the hard-coded paths and the console output. So are the `count` of TemporaryMODISImage wrapping around at 2^31 and the tile-grid offset of its layout, which is taken as 0.
- The rasterizers' `rasterizeShapefiles` directory walk is left out; the operations it calls are modelled. So are `ShapefileRenamer.main` and `ModisProductHandler.args`.
- The older classifier's `geoPosToPixel` and `GeoPos` are textually identical to the tile classifier's (src/main/java/org/esa/beam/watermask/WatermaskClassifier.java:70-77 and 123-130). LegacyClassifier therefore reuses `TileClassifier.GeoPosToPixel` and `TileClassifier.NewGeoPos`.
- The GeoPos ranges are modelled exactly as written: latitude in [-180, 180] and longitude in [-90, 90].
- The UI, RasterImageOutputter, the oldest operator and GeoRectangle are left out, because they have no logic of their own.
- The static `isInRange(String, float, float)` and the `(int, boolean)` constructor are not part of this model. Only their test vectors are checked, against TileNaming.

## Findings

| source | as written | input that shows it | evidently intended | confidence | as-written member | corrected member |
|---|---|---|---|---|---|---|
| src/main/java/org/esa/beam/watermask/operator/WatermaskClassifier.java:145-148 | the name digits must equal \|trunc(lat)\| and \|trunc(lon)\|, so a `w` tile's digits are its eastern edge | "w002n51.img" at lat 51.007, lon -1.30 is rejected, although the newer rasterizer draws that tile over longitudes [-2, -1] and the test file expects acceptance | the digits are the tile's western or southern edge, as in the rasterizer's envelope | medium, not executed | TileNaming.AsWrittenMissesOwnTile | TileNaming.CorrectedMatchesEnvelope |

The classifier members model the name test as written. `TileClassifier.Classifier.FindImage` therefore scans with `TileClassifier.IsInRange`. `TileNaming.IsInRangeCorrected` is the far-edge test that the later test vectors and the rasterizer's envelope agree on.
