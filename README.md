# Image attributes of ImageMagick 6 (magick/attribute.c), modelled in Dafny

This project models the image-attribute layer of ImageMagick 6 in Dafny:

- **depth**: `GetImageDepth`, `GetImageChannelDepth`, `GetImageQuantumDepth`,
  `SetImageDepth` and `SetImageChannelDepth`. These find the least bit depth that
  represents every selected channel sample exactly, or requantise an image to a
  given depth.
- **type**: `GetImageType`, `IdentifyImageType`, `IdentifyImageGray`,
  `IdentifyImageMonochrome`, `IsGrayImage`, `IsMonochromeImage`, `IsOpaqueImage`
  and `SetImageType`. These classify an image as bilevel, grayscale, palette,
  true-colour or colour-separation, with or without matte, or convert it to a
  requested class.
- **bounding box**: `GetImageBoundingBox` and its edge-erosion variant
  `GetEdgeBoundingBox`, with `GetEdgeBackgroundCensus` and
  `GetMinEdgeBackgroundCensus`. These find the rectangle of an image that is not
  background.

The model is of the default Q16 build, without HDRI:

- a `Quantum` is an unsigned 16-bit sample, so `QuantumRange` is 65535;
- `MAGICKCORE_QUANTUM_DEPTH` is 16.

`ScaleQuantumToAny` and `ScaleAnyToQuantum` are written as exact integer
arithmetic, with the rounding of the C code. A sample is "at depth d" when
scaling it to a `d`-bit range and back returns it unchanged.

### Modules

- `Quantum` (quantum.dfy): the scaling helpers and their arithmetic.
- `MagickTypes` (types.dfy):
  - pixels with red, green, blue, opacity and index samples;
  - channel masks, colorspaces, image types, gravities and rectangles;
  - pixel grids, which are sequences of rows.
- `Images` (image.dfy):
  - the mutable `Image` class, with a 2-D `pixels` array and a `colormap` array;
  - the methods that change an image in place (`SetImageDepth`,
    `SetImageChannelDepth`, `SetImageType`).
- `Requantize` (requantize.dfy): what requantising does to one pixel.
- `TypeRecipe` (type_recipe.dfy): the sequence of external calls `SetImageType`
  makes for each target type, and how its status comes out of them.
- `ChannelDepth` (depth.dfy): the three search strategies of
  `GetImageChannelDepth`:
  - the colormap walk;
  - the depth-map table, used when `QuantumRange <= MaxMap`;
  - the per-pixel search.

  The table strategy is stated over any table of depths. Its properties are
  proved for every table whose entries lie between 1 and the quantum depth. The
  table `GetImageChannelDepth` fills, of least exact depths, is one of them.
- `Classify` (classify.dfy): the type predicates and the pixel scans that
  identify gray, monochrome and opaque images.
- `EdgeCensus` (edge.dfy): the background census of an edge strip, and the
  edge-erosion loop of `GetEdgeBoundingBox`.

  The erosion loop is stated over any census function of gravity and strip.
  `Census` is the one an image gives; its only property the loop's proofs use
  is that East and NorthEast, and North and NorthWest, sample the same corner.
- `BoundingBox` (bounds.dfy): the corner-target scan of `GetImageBoundingBox`.

### Parameters in place of collaborators

Whatever the code gets from collaborators outside this file is a parameter:

- Pixel-cache reads that return NULL are a set of failing row numbers
  (`readFails`, `fetchFails`, `syncFails`). The rows of a cropped edge strip
  that fail to read are named by the image rows they copy (`cropReadFails`).
- `IsMagickColorSimilar` is a relation `similar` on pixels. The
  `background`, `trim:background-color` and `trim:percent-background` artifacts
  are `Option` values.
- `IssRGBCompatibleColorspace`, `IsGrayColorspace`, `IsPaletteImage` and
  `IdentifyPaletteImage` are given predicates or verdicts.
- The success of each external transform (`TransformImageColorspace`,
  `QuantizeImage`, `SetImageStorageClass`, `SetImageAlphaChannel`) is a given
  function of the call.
- `MaxMap` is a parameter, so both `GetImageChannelDepth` strategies are
  reachable.

The OpenMP loops are modelled as running on one thread, in row order.

### Behaviour as written

Three behaviours of the C code are kept exactly as written:

- **Single-row images in `GetImageBoundingBox`.** With one row, the box starts
  with height 1 and y at 1. Any pixel unlike the north-west target sets y to 0.
  The final `height -= y - 1` then yields a height of 2 for a one-row image.
  `BoundingBox.SingleRowHeight` states this.
- **Opacity in the per-pixel search of `GetImageChannelDepth`.** The opacity
  test sets `atDepth` to true where the other channels set it to false. So
  opacity never raises the depth in that search.
  `ChannelDepth.DirectIgnoresOpacity` states this.
- **The edge census reads pixels without their index.** The corner pixel and
  every strip pixel are converted with a NULL index queue. So for a CMYK image
  the census never compares the black channel, while `GetImageBoundingBox`
  does. A crop row that fails to read ends the count, and the partial count is
  still divided by the whole strip's size. `EdgeCensus.Unindexed` and
  `EdgeCensus.CensusZeroIffAllBackground` state this.

## Model

| member | source | states |
|---|---|---|
| Quantum.GetImageQuantumDepth | magick/attribute.c:864-885 | unconstrained: the least of 8, 16, 32, 64 not below the depth, or the depth itself above 64; constrained: 8 or 16, never above the quantum depth |
| Quantum.QuantumDepthConstrained | magick/attribute.c:882-883 | the constrained result is the unconstrained one capped at the quantum depth |
| Quantum.QuantumDepthIdempotent | magick/attribute.c:870-884 | rounding an already rounded depth changes nothing |
| Quantum.RoundTripAtDepth | magick/attribute.c:685 | any value scaled to a range and back is at depth for that range |
| Quantum.ScaleQuantumToAny | magick/attribute.c:685 | a quantum scaled to `range` levels, rounded to nearest; RoundTripAtDepth and RoundTripBound state what the round trip through it keeps |
| Quantum.ScaleAnyToQuantum | magick/attribute.c:685 | a level of `range` scaled back to a quantum, rounded to nearest; RoundTripBound states that the round trip stays within QuantumRange |
| Quantum.RoundTrip | magick/attribute.c:1411-1421 | a quantum sent to `range` levels and back; RoundTripAtDepth and RoundTripBound state its depth and bound |
| Quantum.AtFullRange | magick/attribute.c:675-688 | every sample is exact at the full quantum range, so the depth search always stops at the quantum depth at the latest |
| Quantum.RangeBelowQuantumRange | magick/attribute.c:1392-1398 | a depth below the quantum depth has a range strictly below QuantumRange |
| Quantum.RoundTripBound | magick/attribute.c:1411-1421 | requantising a sample keeps it within QuantumRange |
| Requantize.RescalePixelInRange | magick/attribute.c:1470-1480 | requantising a pixel keeps every sample within QuantumRange |
| Requantize.RescalePixelAtDepth | magick/attribute.c:1470-1480 | after requantising, every selected channel (opacity only with matte) is at the new depth; the others and the index are unchanged |
| Requantize.RescalePixelIdempotent | magick/attribute.c:1442-1480 | requantising twice to the same depth equals requantising once |
| Requantize.RescalePixel | magick/attribute.c:1470-1480 | channels outside the mask, and opacity without matte, are kept, and the index is never touched; RescalePixelAtDepth states the depth reached |
| Requantize.RescaleChannel | magick/attribute.c:1470-1480 | one channel replaced by its round trip only when selected; RescalePixel states the kept channels |
| Requantize.RescaleEntry | magick/attribute.c:1411-1421 | a colormap entry requantised under the mask with no matte test; RescaleColormap states the rewrite it makes |
| TypeRecipe.RunStatusSnoc | magick/attribute.c:1592-1704 | appending a call updates the status only when that call assigns it |
| TypeRecipe.LastAssigning | magick/attribute.c:1592-1704 | the index found is the last status-assigning call, or -1 when there is none |
| TypeRecipe.RunStatusIsLastAssignment | magick/attribute.c:1592-1711 | the final status is the outcome of the last status-assigning call, or the initial status if none assigns |
| TypeRecipe.LastAssigningUnique | magick/attribute.c:1592-1704 | a status-assigning call with no later status-assigning call is the one LastAssigning returns |
| TypeRecipe.LastAssigningNone | magick/attribute.c:1592-1704 | with no status-assigning call, LastAssigning returns -1 |
| TypeRecipe.PaletteQuantizesWhenNeeded | magick/attribute.c:1629-1642 | the palette recipe quantises if and only if the image is direct-class or has more than 256 colours |
| TypeRecipe.BilevelStatusIsQuantizeOutcome | magick/attribute.c:1600-1613 | the bilevel conversion's status is the outcome of its 2-colour gray quantisation, whatever came before |
| TypeRecipe.Recipe | magick/attribute.c:1598-1704 | the calls of each branch of the switch, in order; its properties are stated by RecipeAssignsWhenReported, RecipeMatte, PaletteQuantizesWhenNeeded and BilevelStatusIsQuantizeOutcome |
| TypeRecipe.RecipeAssignsWhenReported | magick/attribute.c:1598-1704 | in every recipe the status is taken from exactly the colorspace transforms, quantizations and storage-class switches; normalising, thresholding and alpha-channel calls are cast to void |
| TypeRecipe.RunStatus | magick/attribute.c:1592-1711 | a run with no status-assigning call leaves the status as it was; RunStatusIsLastAssignment states the rest |
| TypeRecipe.ClearsMatte | magick/attribute.c:1604-1692 | the targets that clear the matte flag are exactly the defined types without a matte variant: bilevel, grayscale, palette, true colour and colour separation |
| TypeRecipe.MatteAfter | magick/attribute.c:1611-1702 | the matte flag after the recipe: cleared by the opaque base types, set by an opaque alpha channel call; RecipeMatte states what it comes to |
| TypeRecipe.RecipeMatte | magick/attribute.c:1620-1704 | an opaque alpha channel is added iff the target is a matte type and the image has no matte channel; afterwards every matte target has a matte channel, every opaque base type has none, and the optimize and undefined targets leave the flag alone |
| Images.FirstFailure | magick/attribute.c:1452-1487 | the first failing row at or after `from`, or `rows`; no row before it fails |
| Images.BuildRescaleMap | magick/attribute.c:1442-1447 | entry i of the depth map is the round trip of i through the new range |
| Images.Perform | magick/attribute.c:1592-1704 | performing a call appends it to the call log and keeps the status equal to the run status of the log |
| Images.RunTypeRecipe | magick/attribute.c:1592-1704 | the calls performed are the recipe for the target, and the status is their run status; the matte flag left behind is set for every matte target and cleared for every opaque base type |
| Images.RunGrayRecipe | magick/attribute.c:1600-1628 | for the bilevel, grayscale and grayscale-matte targets, the calls performed are their recipe and the status is its run status |
| Images.RunPaletteRecipe | magick/attribute.c:1629-1666 | for the palette targets, the calls performed are their recipe and the status is its run status |
| Images.RunDirectRecipe | magick/attribute.c:1667-1704 | for the true-colour and colour-separation targets, the calls performed are their recipe and the status is its run status |
| Images.Image.RescaleColormap | magick/attribute.c:1399-1424 | each colormap entry's selected red, green, blue and opacity are replaced by their round trips |
| Images.Image.RescaleRow | magick/attribute.c:1452-1487 | row y is requantised and every other row is unchanged |
| Images.Image.RescalePixels | magick/attribute.c:1431-1540 | the status is true iff no row fails; exactly the rows before the first failure are requantised, the rest are unchanged |
| Images.Image.SetImageChannelDepth | magick/attribute.c:1371-1544 | at or above the quantum depth only the depth is set; below it, the colormap of a PseudoClass image and the pixel rows before the first failure are requantised, and the depth is recorded only on success |
| Images.Image.SetImageDepth | magick/attribute.c:1365-1369 | SetImageChannelDepth with all composite channels: the same full new state, colormap rewrite of a PseudoClass image included, nothing changed but the depth at or above the quantum depth, and storage class, colorspace and type tag kept |
| Images.Image.SetImageType | magick/attribute.c:1574-1713 | the calls made are the recipe for the target; the type tag becomes the target iff the final status is success; afterwards the image has a matte channel for every matte target (an opaque alpha channel is added when it had none) and none for the opaque base types |
| ChannelDepth.ExactAtQuantumDepth | magick/attribute.c:675-688 | every sample is exact at the quantum depth |
| ChannelDepth.MinExactDepthFrom | magick/attribute.c:675-688 | the search from `from` ends between `from` and the quantum depth |
| ChannelDepth.MinExactDepthFromIsFirst | magick/attribute.c:675-688 | the search from `from` ends at the first depth at which the value is exact: exact there unless it is the quantum depth, and exact at no depth between `from` and it |
| ChannelDepth.MinExactDepthIsLeast | magick/attribute.c:670-689 | the depth-map entry is between 1 and the quantum depth, exact, and no larger than any depth at which the value is exact |
| ChannelDepth.MinExactDepthInRange | magick/attribute.c:670-689 | every entry the depth table is filled with lies between 1 and the quantum depth |
| ChannelDepth.RescaledValueDepth | magick/attribute.c:1446-1447 | a value requantised to depth d needs at most d bits |
| ChannelDepth.BuildDepthMap | magick/attribute.c:667-689 | entry i of the table is the least exact depth of i |
| ChannelDepth.MinExactDepth | magick/attribute.c:670-689 | the depth-map entry of a value; MinExactDepthIsLeast states that it is the least exact depth in range |
| ChannelDepth.RaiseIsMax | magick/attribute.c:719-750 | one channel lookup raises the running depth to the channel's table entry when selected, and otherwise leaves it; for any table contents |
| ChannelDepth.Raise | magick/attribute.c:719-750 | one channel lookup of the table path; RaiseIsMax states that it takes the larger of the running depth and the entry |
| ChannelDepth.TableProbes | magick/attribute.c:719-750 | the samples one pixel step consults; TableProbesMembers states exactly which |
| ChannelDepth.TableStep | magick/attribute.c:719-750 | one pixel of the table path; TableStepIsMax and TableStepSplit state its result |
| ChannelDepth.TableStepIsMax | magick/attribute.c:719-750 | one pixel step raises the running depth to the largest table entry among the selected samples, and no further; for any table contents |
| ChannelDepth.TableProbesMembers | magick/attribute.c:719-750 | the values a pixel step consults are exactly the red, green and blue under the mask, opacity under the mask with matte, and the index under the mask for CMYK |
| ChannelDepth.PixelTableDepthBounds | magick/attribute.c:719-750 | a pixel's table depth lies between 1 and the quantum depth; for any table whose entries lie in [1, quantum depth] |
| ChannelDepth.TableStepSplit | magick/attribute.c:719-750 | a pixel step is the maximum of the running depth and the pixel's own table depth |
| ChannelDepth.RowTableIsMax | magick/attribute.c:714-752 | a row's depth is the maximum of the running depth and its pixels' table depths, and is attained by one of them; for any table whose entries lie in [1, quantum depth] |
| ChannelDepth.RowTable | magick/attribute.c:714-752 | the table path over a row; RowTableIsMax states its result |
| ChannelDepth.TableDepthStep | magick/attribute.c:694-755 | one more row keeps the depth an attained upper bound of the readable selected samples; for any table whose entries lie in [1, quantum depth] |
| ChannelDepth.TableDepthIsMax | magick/attribute.c:694-763 | the table result is the largest table entry over the readable selected samples, and is attained (or 1); for any table whose entries lie in [1, quantum depth], so in particular for the least exact depths |
| ChannelDepth.TableDepth | magick/attribute.c:694-763 | the table path over the whole image; TableDepthIsMax, TableDepthWithin and TableDepthOrderIndependent state its properties |
| ChannelDepth.TableDepthUpTo | magick/attribute.c:694-755 | the table path over the first n rows, skipping unreadable rows and stopping at the quantum depth; TableDepthIsMax, TableDepthStep and TableEarlyStopHarmless state what it computes |
| ChannelDepth.RescaleGrid | magick/attribute.c:1452-1487 | the requantised grid has the shape of the original and each pixel requantised |
| ChannelDepth.RescaledPixelTableDepth | magick/attribute.c:1470-1480 | a pixel requantised to depth d reports a table depth of at most d |
| ChannelDepth.RescaledTableDepth | magick/attribute.c:1371-1544 | after requantising to depth d, the table path of GetImageChannelDepth reports at most d |
| ChannelDepth.TableDepthWithin | magick/attribute.c:694-763 | if every readable sample of one image is also a readable sample of another, its depth is no larger; for any table whose entries lie in [1, quantum depth] |
| ChannelDepth.TableDepthOrderIndependent | magick/attribute.c:694-763 | two images with the same readable samples get the same depth, whatever the row order; for any table whose entries lie in [1, quantum depth] |
| ChannelDepth.TableEarlyStopHarmless | magick/attribute.c:753-754 | stopping when the quantum depth is reached gives the same result as scanning every row; for any table whose entries lie in [1, quantum depth] |
| ChannelDepth.Search | magick/attribute.c:792-822 | the search never lowers the running depth and stays within the quantum depth |
| ChannelDepth.SearchIsFirst | magick/attribute.c:792-822 | the search ends at the first depth from the running one at which every selected sample is exact, or at the quantum depth when there is none |
| ChannelDepth.SearchAboveTable | magick/attribute.c:792-822 | the search result is no smaller than the least exact depth of each selected red, green, blue or CMYK index sample |
| ChannelDepth.ColormapDepthUpTo | magick/attribute.c:613-654 | the colormap result lies between 1 and the quantum depth |
| ChannelDepth.ColormapDepthGrows | magick/attribute.c:613-654 | walking more colormap entries never lowers the depth |
| ChannelDepth.ColormapIgnoresOpacityAndIndex | magick/attribute.c:613-654 | colormaps that agree on red, green and blue get the same depth |
| ChannelDepth.SearchSameChannels | magick/attribute.c:792-822 | pixels that agree on the channels the search reads get the same search result |
| ChannelDepth.RowSearch | magick/attribute.c:790-824 | a row search never lowers the running depth and stays within the quantum depth |
| ChannelDepth.DirectDepthUpTo | magick/attribute.c:770-827 | the per-pixel result lies between 1 and the quantum depth |
| ChannelDepth.DirectDepth | magick/attribute.c:770-834 | the per-pixel path over the whole image lies between 1 and the quantum depth |
| ChannelDepth.DirectDepthGrows | magick/attribute.c:770-827 | scanning more rows never lowers the per-pixel result |
| ChannelDepth.RowTableAtMostRowSearch | magick/attribute.c:714-752 | without matte, a row's table depth is at most its search depth from a start no lower |
| ChannelDepth.TableDepthInRange | magick/attribute.c:694-763 | the table path over least exact depths lies between 1 and the quantum depth |
| ChannelDepth.TableAtMostDirect | magick/attribute.c:694-834 | without matte, the table strategy never reports more than the per-pixel strategy |
| ChannelDepth.DirectIgnoresOpacity | magick/attribute.c:811-814 | images that differ only in opacity get the same per-pixel depth |
| ChannelDepth.RowSearchIgnoresOpacity | magick/attribute.c:811-814 | rows that differ only in opacity get the same search depth |
| ChannelDepth.ColormapProbe | magick/attribute.c:613-654 | the colormap walk computes the colormap depth of all entries |
| ChannelDepth.DirectPixelSearch | magick/attribute.c:792-822 | the per-pixel while loop computes the search result |
| ChannelDepth.DirectRow | magick/attribute.c:790-824 | the pixel loop of one readable row computes the row search from the running depth |
| ChannelDepth.DirectProbe | magick/attribute.c:766-834 | the per-pixel strategy computes the per-pixel depth of the readable rows |
| ChannelDepth.TablePixel | magick/attribute.c:719-750 | the table lookups for one pixel compute the table step |
| ChannelDepth.RaiseThrough | magick/attribute.c:719-750 | one lookup in the depth array computes the channel raise of the table it holds |
| ChannelDepth.TableRow | magick/attribute.c:714-752 | the pixel loop of one readable row computes the row's table depth from the running depth |
| ChannelDepth.TableProbe | magick/attribute.c:690-763 | the table strategy computes the table depth of the readable rows |
| ChannelDepth.GetImageChannelDepth | magick/attribute.c:577-835 | the result follows the colormap, table or per-pixel strategy as the source chooses, and lies between 1 and the quantum depth |
| ChannelDepth.ChannelDepthSpec | magick/attribute.c:613-660 | the colormap path for a PseudoClass image without matte, else the table path when the quantum range fits the map, else the direct path; GetImageChannelDepth computes it and bounds it |
| ChannelDepth.GetImageDepth | magick/attribute.c:572-575 | GetImageChannelDepth with all composite channels |
| EdgeCensus.CornerOf | magick/attribute.c:170-197 | the sampled corner for each gravity lies inside the image |
| EdgeCensus.Background | magick/attribute.c:200-209 | the `trim:background-color` artifact wins over the `background` artifact, which wins over the corner pixel |
| EdgeCensus.BackgroundFor | magick/attribute.c:170-209 | the reference pixel of a census: the gravity's corner read without its index, overridden by the artifacts as Background states |
| EdgeCensus.Unindexed | magick/attribute.c:200-231 | a pixel read without its index queue keeps its colour and opacity and has index 0 |
| EdgeCensus.CropStop | magick/attribute.c:221-228 | the census stops at the first crop row that fails to read, and every row before it reads |
| EdgeCensus.CountSpan | magick/attribute.c:229-234 | the count of unlike pixels in a span, each read without its index, is at most its length |
| EdgeCensus.CountRect | magick/attribute.c:221-236 | the count of unlike pixels in a rectangle is at most its area |
| EdgeCensus.Clip | magick/attribute.c:214-216 | the clipped span lies inside the image |
| EdgeCensus.CensusOf | magick/attribute.c:136-241 | the census is a fraction between 0 and 1: unlike pixels in the rows read before the first crop row that fails, over the whole strip's size |
| EdgeCensus.Fraction | magick/attribute.c:237 | the fraction is 0 iff the count is 0 and 1 iff the count is the size |
| EdgeCensus.CensusZeroIffAllBackground | magick/attribute.c:136-241 | a strip's census is 0 iff every pixel up to the first crop row that fails to read is similar to the background, and 1 iff every row reads and no pixel is; pixels and corner are compared without their index |
| EdgeCensus.CountSpanZero | magick/attribute.c:229-234 | a span counts 0 iff all its pixels are similar to the background |
| EdgeCensus.CountRectZero | magick/attribute.c:221-236 | a rectangle counts 0 iff all its pixels are similar to the background |
| EdgeCensus.CountSpanFull | magick/attribute.c:229-234 | a span counts its full length iff none of its pixels is similar |
| EdgeCensus.CountRectFull | magick/attribute.c:221-236 | a rectangle counts its full area iff none of its pixels is similar |
| EdgeCensus.GetEdgeBackgroundCensus | magick/attribute.c:136-241 | the counting loops, which stop at the first crop row that fails to read, compute the census of the strip |
| EdgeCensus.Census | magick/attribute.c:136-241 | the census of the image as a function of gravity and strip agrees with CensusOf everywhere |
| EdgeCensus.ClonePixels | magick/attribute.c:284 | the clone holds the image's pixels |
| EdgeCensus.GetMinEdgeBackgroundCensus | magick/attribute.c:243-251 | the result is one of the four edge censuses and no larger than any of them |
| EdgeCensus.Threshold | magick/attribute.c:298-303 | the threshold is 1 - percent/100 clamped to [epsilon, 1], or epsilon with no artifact |
| EdgeCensus.SameCornerSameCensus | magick/attribute.c:317-379 | two gravities that sample the same corner give the same census |
| EdgeCensus.CensusCornersAgree | magick/attribute.c:170-197 | the image's census takes East and NorthEast, and North and NorthWest, alike, since each pair samples the same corner |
| EdgeCensus.SettledWhenAllReach | magick/attribute.c:305-307 | once the least census reaches the threshold, every edge of the remaining box has reached it |
| EdgeCensus.MeasuredTracks | magick/attribute.c:288-297 | the initial censuses are those of the four full edges |
| EdgeCensus.Measured | magick/attribute.c:288-297 | the state before erosion; MeasuredTracks states that its censuses are those of the full edges |
| EdgeCensus.LeastCensus | magick/attribute.c:303-307 | the least edge census the loop test compares; SettledWhenAllReach and ErodeFromStops state its role |
| EdgeCensus.ChooseEdge | magick/attribute.c:310-381 | the edge trimmed is the first of left, right, top, bottom whose census is within epsilon of the least |
| EdgeCensus.Trimmed | magick/attribute.c:310-381 | a trim shrinks width plus height by 1, advances one vertex by 1, and keeps the census of the opposite edge |
| EdgeCensus.TrimmedLeftTracks | magick/attribute.c:310-327 | after a left trim, every census is that of the current edge strip |
| EdgeCensus.TrimmedRightTracks | magick/attribute.c:328-345 | after a right trim, every census is that of the current edge strip |
| EdgeCensus.TrimmedTopTracks | magick/attribute.c:346-363 | after a top trim, every census is that of the current edge strip |
| EdgeCensus.TrimmedBottomTracks | magick/attribute.c:364-381 | after a bottom trim, every census is that of the current edge strip |
| EdgeCensus.TrimmedTracks | magick/attribute.c:310-381 | any trim keeps the censuses equal to those of the current edge strips |
| EdgeCensus.ErodeFromSettles | magick/attribute.c:305-386 | erosion keeps the censuses current and only advances vertices; a non-empty result has every edge at or above the threshold |
| EdgeCensus.ErodeFrom | magick/attribute.c:304-386 | erosion never widens or heightens the rectangle |
| EdgeCensus.ErodeFromStops | magick/attribute.c:305-308 | erosion ends only where the loop's exit test holds: the least census reaches the threshold, or the width or height is 0 |
| EdgeCensus.TrimmedFields | magick/attribute.c:310-381 | each trim moves its vertex and re-measures the edge strips of what remains, for any census |
| EdgeCensus.ErodeFits | magick/attribute.c:288-386 | erosion of the whole image leaves a box inside the image, with every edge at or above the threshold unless it is empty |
| EdgeCensus.MeasureAll | magick/attribute.c:288-297 | the four initial census calls compute the initial erosion state |
| EdgeCensus.Trim | magick/attribute.c:310-381 | one loop iteration computes the trimmed state |
| EdgeCensus.TrimLeft | magick/attribute.c:310-327 | the left-trim branch computes the trimmed state |
| EdgeCensus.TrimRight | magick/attribute.c:328-345 | the right-trim branch computes the trimmed state |
| EdgeCensus.TrimTop | magick/attribute.c:346-363 | the top-trim branch computes the trimmed state |
| EdgeCensus.TrimBottom | magick/attribute.c:364-381 | the bottom-trim branch computes the trimmed state |
| EdgeCensus.Erode | magick/attribute.c:304-382 | the loop computes the erosion from the initial censuses |
| EdgeCensus.GetEdgeBoundingBox | magick/attribute.c:253-391 | the box is what erosion leaves; it lies inside the image; a warning is raised iff it is empty; when not empty, every edge census reaches the threshold |
| BoundingBox.Wrap | magick/attribute.c:538-539 | size_t arithmetic: the result is below 2^64 and equals the value when it is already in range |
| BoundingBox.CornerTargets | magick/attribute.c:429-456 | the targets are the four corner pixels; the bottom corners are the default colour when the bottom row cannot be read |
| BoundingBox.InitialBounds | magick/attribute.c:425-428 | the box starts at (columns, rows), with width 1 only for a single column and height 1 only for a single row |
| BoundingBox.Merge | magick/attribute.c:521-530 | merging takes the smaller x and y and the larger width and height |
| BoundingBox.Finish | magick/attribute.c:533-541 | a warning iff width or height is 0, and then the box is unchanged; otherwise x plus the new width is the old width plus 1 |
| BoundingBox.ScanMonotone | magick/attribute.c:463-531 | scanning more rows only moves x and y down and width and height up |
| BoundingBox.ScanStatus | magick/attribute.c:480-488 | the scan status stays true iff no row before the end fails |
| BoundingBox.FirstFailureExtend | magick/attribute.c:480-488 | the first failure among n + 1 rows is the first among n, or n when row n fails, or n + 1 |
| BoundingBox.FirstFailureIsFirst | magick/attribute.c:480-488 | a failing row with no failing row before it is the first failure |
| BoundingBox.RowLeftmost | magick/attribute.c:494-499 | a row moves x to its leftmost pixel unlike the north-west target, if that is further left |
| BoundingBox.PixelStep | magick/attribute.c:497-515 | the five tests on one pixel; PixelStepY states that y moves only to a row unlike the north-west target, and RowLeftmost and RowTopmost state the row's effect |
| BoundingBox.PixelStepY | magick/attribute.c:503-505 | of the five tests on a pixel, only the second north-west test moves y, to the pixel's row when it is higher and unlike the target |
| BoundingBox.RowBox | magick/attribute.c:494-517 | the five tests over a row's pixels in order; RowLeftmost, RowTopmost and RowKeepsHeight state its effect |
| BoundingBox.RowTopmost | magick/attribute.c:503-505 | a row moves y to its own row number if it holds a pixel unlike the north-west target and lies higher |
| BoundingBox.RowKeepsHeight | magick/attribute.c:506-514 | a row at or above the current height leaves the height unchanged |
| BoundingBox.ScanLeftmost | magick/attribute.c:463-531 | x is the leftmost column holding a pixel unlike the north-west target among the rows before the first failure, or the column count |
| BoundingBox.ScanLeftmostRow | magick/attribute.c:480-530 | a row read while the scan still succeeds keeps x the leftmost column holding a pixel unlike the north-west target |
| BoundingBox.LeftmostAddRow | magick/attribute.c:494-499 | adding a row whose leftmost unlike pixel bounds x keeps x the leftmost unlike column of the rows so far |
| BoundingBox.ScanTopmost | magick/attribute.c:463-531 | y is the topmost row holding a pixel unlike the north-west target before the first failure, or the row count |
| BoundingBox.ScanTopmostRow | magick/attribute.c:480-530 | a row read while the scan still succeeds keeps y the topmost row holding a pixel unlike the north-west target |
| BoundingBox.TopmostAddRow | magick/attribute.c:503-505 | adding a row keeps y the topmost row holding an unlike pixel among the rows so far |
| BoundingBox.SingleRowHeight | magick/attribute.c:425-541 | a one-row image keeps height 1 through the scan, so an image whose top row differs from the target reports height 2 |
| BoundingBox.ScanRow | magick/attribute.c:494-517 | the inner loop computes the row's box |
| BoundingBox.ScanRows | magick/attribute.c:463-531 | the row loop with its status flag; ScanMonotone, ScanStatus, ScanLeftmost and ScanTopmost state what it computes |
| BoundingBox.ScanImage | magick/attribute.c:463-531 | the row loop computes the scan result |
| BoundingBox.GetImageBoundingBox | magick/attribute.c:393-542 | with the percent artifact, the edge-erosion box; when the first row cannot be read, the initial box and no warning; otherwise the finished scan box |
| Classify.IsGrayImage | magick/attribute.c:1206-1216 | true iff the type tag is bilevel, grayscale or grayscale-matte |
| Classify.IsMonochromeImage | magick/attribute.c:1243-1252 | true if and only if the type tag is bilevel, so monochrome implies gray |
| Classify.ClassifyType | magick/attribute.c:925-947 | colour separation iff CMYK; bilevel iff monochrome and not CMYK; then grayscale, palette, true colour in order; matte decides the variant |
| Classify.GetImageType | magick/attribute.c:919-948 | the classification from the tag predicates, the palette verdict and matte |
| Classify.ClassifyRecognised | magick/attribute.c:919-948 | GetImageType recognises a type it produced: reclassifying under the same matte and palette verdict gives it back |
| Classify.GetImageTypeIdempotent | magick/attribute.c:919-948 | classifying again with the result as the type tag gives the same result |
| Classify.IdentifiedGrayRange | magick/attribute.c:974-1032 | the result is undefined, bilevel, grayscale or grayscale-matte; a matte variant appears only with matte or from the tag |
| Classify.MonochromeIsGray | magick/attribute.c:1061-1114 | an image identified as monochrome is identified as gray: its gray tag, or bilevel |
| Classify.MonochromeTagDecides | magick/attribute.c:1061-1080 | a bilevel tag is identified as monochrome whatever the pixels, and without an sRGB-compatible colorspace the identification is the tag test |
| Classify.GrayVerdict | magick/attribute.c:1000-1032 | a defined verdict means every row reads and every pixel is gray; bilevel iff moreover every pixel is monochrome; the matte variant only with matte |
| Classify.IdentifiedGray | magick/attribute.c:974-1032 | a defined result is a gray type, and a result other than the tag comes from a compatible colorspace, readable rows and gray pixels |
| Classify.IdentifiedMonochrome | magick/attribute.c:1061-1114 | yes only for a bilevel tag or all-monochrome pixels, and always for a bilevel tag |
| Classify.ScanPixels | magick/attribute.c:1306-1331 | the scan is true iff no row fails and every pixel satisfies the test |
| Classify.IdentifyImageMonochrome | magick/attribute.c:1061-1114 | true for a bilevel tag; false for an incompatible colorspace; otherwise true iff every row reads and every pixel is monochrome |
| Classify.IsOpaqueImage | magick/attribute.c:1280-1334 | true without matte; with matte, true iff every row reads and every opacity is opaque |
| Classify.GrayScan | magick/attribute.c:1000-1027 | the pixel loop computes the gray verdict: undefined on a failed row or a non-gray pixel, else bilevel or grayscale |
| Classify.GrayRow | magick/attribute.c:1016-1026 | the pixel loop of one row: undefined at a non-gray pixel, bilevel only when entered bilevel and every pixel is monochrome, else grayscale |
| Classify.GrayRowVerdict | magick/attribute.c:1016-1026 | what one row makes of the type it is entered with; GrayRow states that the pixel loop computes it |
| Classify.GrayUpToMeaning | magick/attribute.c:1000-1027 | after n rows the scan is undefined iff a row failed or a pixel is not gray, bilevel iff otherwise every pixel is monochrome, grayscale else |
| Classify.GrayUpTo | magick/attribute.c:1000-1027 | the scan's type after n rows; GrayUpToMeaning gives its closed form |
| Classify.GrayUpToIsVerdict | magick/attribute.c:974-1032 | the scan over all rows reaches the gray verdict |
| Classify.IdentifyImageGray | magick/attribute.c:974-1032 | a gray tag is returned as is; an incompatible colorspace gives undefined; otherwise the scan verdict, made grayscale-matte with matte |
| Classify.IdentifyImageType | magick/attribute.c:1148-1178 | the classification from the identified monochrome and gray verdicts, the palette verdict and matte |

## Left out

- OpenMP parallelism: every loop runs on one thread, in row order. With one thread, `current_depth[0]` is the only accumulator, and the `omp critical` merge is sequential.
- The pixel cache: reading and syncing a row only fail or succeed, given as sets of row numbers. Cache views, virtual pixel methods and the exception structure are not modelled.
- Logging (`LogMagickEvent`) and the exception texts: a warning is a boolean result.
- HDRI and floating-point quanta: `ClampPixel` is the identity on integer samples, and `ScaleQuantumToMap` is the identity because `MaxMap` is at least `QuantumRange` whenever the table is used.
- `IsMagickColorSimilar` and its fuzz arithmetic are a given relation `similar`. The census's floating-point division is exact real division, and `fabs(... ) < MagickEpsilon` is compared on reals.
- `StringToDouble` and `QueryMagickColor` parsing: the `trim:percent-background`, `background` and `trim:background-color` artifacts are given as parsed values.
- `CloneImage` and `CropImage`: the clone is the pixel grid. The cropped strip is the part of the requested rectangle inside the image, and an empty crop has census 0. The initial census calls with zero extents are modelled as the full edge column or row.
- `GravityAdjustGeometry`: the corner sampled for each gravity is written out.
- EdgeCensus.GetEdgeBoundingBox: the `CloneImage` failure path, which returns the initial geometry unchanged, is not modelled.
- `GetMagickPixelPacket` comes from pixel.c, which is not part of this model. Its default colour is taken to be black and opaque.
- The effects of `TransformImageColorspace`, `QuantizeImage`, `SetImageStorageClass` and `SetImageAlphaChannel` on the pixels are not modelled. Only their success or failure is given.
- `IsPaletteImage` and `IdentifyPaletteImage` are given verdicts. `IssRGBCompatibleColorspace` and `IsGrayColorspace` are given predicates.
- Memory-allocation failures, which abort with a fatal exception.
- Images.Image.SetImageChannelDepth: requires a new depth of at least 1. At depth 0, the C code would divide by a zero range in floating point.
- Images.Image.SetImageDepth: requires a new depth of at least 1, for the same reason.
- Images.Image.SetImageType: the `OptimizeType` and `UndefinedType` branches make no calls. The colorspace, storage class and colormap changes the external calls make are not modelled. `SetImageAlphaChannel` with `OpaqueAlphaChannel` is modelled only by its effect on the matte flag, which it turns on. The other external calls are taken to leave the matte flag alone.
