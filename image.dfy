/** The image object and the two operations that change it in place:
    SetImageChannelDepth (requantise pixels and colormap, then record the depth) and
    SetImageType (run the enforcement recipe, then record the type tag). */
module Images {
  import opened Quantum
  import opened MagickTypes
  import opened Requantize
  import opened TypeRecipe

  /** The first row in [from, rows) that is in `fails`, or `rows` when there is none. */
  function FirstFailure(from: nat, rows: nat, fails: set<nat>): (f: nat)
    requires from <= rows
    ensures from <= f <= rows
    ensures forall y :: from <= y < f ==> y !in fails
    ensures f < rows ==> f in fails
    decreases rows - from
  {
    if from == rows then rows
    else if from in fails then from
    else FirstFailure(from + 1, rows, fails)
  }

  /** Whether a rescale writes row `y`: rows are written up to the first row whose fetch
      or sync fails, that row included when only its sync failed; later rows are skipped. */
  predicate RowRewritten(y: nat, rows: nat, fetchFails: set<nat>, syncFails: set<nat>)
  {
    var f := FirstFailure(0, rows, fetchFails + syncFails);
    y < f || (y == f && f < rows && f !in fetchFails)
  }

  /** The rescale table of SetImageChannelDepth: entry i is the round trip of i. */
  method BuildRescaleMap(range: nat, maxMap: nat) returns (m: array<nat>)
    requires range >= 1
    ensures m.Length == maxMap + 1
    ensures forall i :: 0 <= i <= maxMap ==> m[i] == RoundTrip(i, range)
  {
    m := new nat[maxMap + 1];
    var i := 0;
    while i <= maxMap
      invariant 0 <= i <= maxMap + 1
      invariant forall j :: 0 <= j < i ==> m[j] == RoundTrip(j, range)
    {
      m[i] := ScaleAnyToQuantum(ScaleQuantumToAny(i, range), range);
      i := i + 1;
    }
  }

  /** Runs one call of the SetImageType recipe: logs it and, when its result is assigned
      to the status, takes that result. */
  method Perform(calls: seq<Step>, status: bool, step: Step, succeeds: ExternalCall -> bool)
    returns (calls': seq<Step>, status': bool)
    requires status == RunStatus(calls, succeeds, true)
    ensures calls' == calls + [step]
    ensures status' == RunStatus(calls', succeeds, true)
    ensures status' == if step.assignsStatus then succeeds(step.call) else status
  {
    calls' := calls + [step];
    status' := if step.assignsStatus then succeeds(step.call) else status;
    RunStatusSnoc(calls, step, succeeds, true);
  }

  /** The switch of SetImageType: performs the recipe for `target` call by call, each
      status-assigning call overwriting the status, and gives the matte flag the recipe
      leaves behind. */
  method RunTypeRecipe(target: ImageType, isGray: bool, issRGB: bool, isCMYK: bool,
                       sc: ClassType, colors: nat, hadMatte: bool, succeeds: ExternalCall -> bool)
    returns (status: bool, calls: seq<Step>, matte: bool)
    ensures calls == Recipe(target, isGray, issRGB, isCMYK, sc, colors, hadMatte)
    ensures status == RunStatus(calls, succeeds, true)
    ensures matte == MatteAfter(target, calls, hadMatte)
    ensures IsMatteType(target) ==> matte
    ensures ClearsMatte(target) ==> !matte
  {
    match target {
      case BilevelType | GrayscaleType | GrayscaleMatteType =>
        status, calls := RunGrayRecipe(target, isGray, issRGB, isCMYK, sc, colors, hadMatte, succeeds);
      case PaletteType | PaletteBilevelMatteType | PaletteMatteType =>
        status, calls := RunPaletteRecipe(target, isGray, issRGB, isCMYK, sc, colors, hadMatte,
                                          succeeds);
      case TrueColorType | TrueColorMatteType | ColorSeparationType | ColorSeparationMatteType =>
        status, calls := RunDirectRecipe(target, isGray, issRGB, isCMYK, sc, colors, hadMatte,
                                         succeeds);
      case OptimizeType | UndefinedType =>
        status, calls := true, [];
    }
    RecipeMatte(target, isGray, issRGB, isCMYK, sc, colors, hadMatte);
    matte := MatteAfter(target, calls, hadMatte);
  }

  /** The gray targets of the switch: bilevel, grayscale and grayscale with matte. */
  method RunGrayRecipe(target: ImageType, isGray: bool, issRGB: bool, isCMYK: bool,
                       sc: ClassType, colors: nat, hadMatte: bool, succeeds: ExternalCall -> bool)
    returns (status: bool, calls: seq<Step>)
    requires target.BilevelType? || target.GrayscaleType? || target.GrayscaleMatteType?
    ensures calls == Recipe(target, isGray, issRGB, isCMYK, sc, colors, hadMatte)
    ensures status == RunStatus(calls, succeeds, true)
  {
    ghost var recipe := Recipe(target, isGray, issRGB, isCMYK, sc, colors, hadMatte);
    status, calls := true, [];
    match target {
      case BilevelType =>
        if !isGray {
          calls, status := Perform(calls, status, Step(TransformColorspace(GRAYColorspace), true), succeeds);
        }
        assert calls == ToGray(isGray);
        calls, status := Perform(calls, status, Step(NormalizeImage, false), succeeds);
        calls, status := Perform(calls, status, Step(BilevelImage, false), succeeds);
        calls, status := Perform(calls, status, Step(QuantizeImage(2, GRAYColorspace), true), succeeds);
        assert calls == recipe;
      case GrayscaleType =>
        if !isGray {
          calls, status := Perform(calls, status, Step(TransformColorspace(GRAYColorspace), true), succeeds);
        }
        assert calls == ToGray(isGray);
        assert calls == recipe;
      case GrayscaleMatteType =>
        if !isGray {
          calls, status := Perform(calls, status, Step(TransformColorspace(GRAYColorspace), true), succeeds);
        }
        assert calls == ToGray(isGray);
        if !hadMatte {
          calls, status := Perform(calls, status, Step(SetOpaqueAlphaChannel, false), succeeds);
        }
        assert calls == recipe;
    }
  }

  /** The palette targets of the switch: palette, palette with bilevel matte and palette with matte. */
  method RunPaletteRecipe(target: ImageType, isGray: bool, issRGB: bool, isCMYK: bool,
                          sc: ClassType, colors: nat, hadMatte: bool, succeeds: ExternalCall -> bool)
    returns (status: bool, calls: seq<Step>)
    requires target.PaletteType? || target.PaletteBilevelMatteType? || target.PaletteMatteType?
    ensures calls == Recipe(target, isGray, issRGB, isCMYK, sc, colors, hadMatte)
    ensures status == RunStatus(calls, succeeds, true)
  {
    ghost var recipe := Recipe(target, isGray, issRGB, isCMYK, sc, colors, hadMatte);
    status, calls := true, [];
    match target {
      case PaletteType =>
        if !issRGB {
          calls, status := Perform(calls, status, Step(TransformColorspace(sRGBColorspace), true), succeeds);
        }
        assert calls == ToSRGB(issRGB);
        if sc == DirectClass || colors > 256 {
          calls, status := Perform(calls, status, Step(QuantizeImage(256, UndefinedColorspace), true), succeeds);
        }
        assert calls == recipe;
      case PaletteBilevelMatteType =>
        if !issRGB {
          calls, status := Perform(calls, status, Step(TransformColorspace(sRGBColorspace), true), succeeds);
        }
        assert calls == ToSRGB(issRGB);
        if !hadMatte {
          calls, status := Perform(calls, status, Step(SetOpaqueAlphaChannel, false), succeeds);
        }
        calls, status := Perform(calls, status, Step(BilevelAlphaChannel, false), succeeds);
        calls, status := Perform(calls, status,
          Step(QuantizeImage(DefaultQuantizeColors, UndefinedColorspace), true), succeeds);
        assert calls == recipe;
      case PaletteMatteType =>
        if !issRGB {
          calls, status := Perform(calls, status, Step(TransformColorspace(sRGBColorspace), true), succeeds);
        }
        assert calls == ToSRGB(issRGB);
        if !hadMatte {
          calls, status := Perform(calls, status, Step(SetOpaqueAlphaChannel, false), succeeds);
        }
        calls, status := Perform(calls, status,
          Step(QuantizeImage(DefaultQuantizeColors, TransparentColorspace), true), succeeds);
        assert calls == recipe;
    }
  }

  /** The direct-class targets of the switch: true colour and colour separation, with or without matte. */
  method RunDirectRecipe(target: ImageType, isGray: bool, issRGB: bool, isCMYK: bool,
                         sc: ClassType, colors: nat, hadMatte: bool, succeeds: ExternalCall -> bool)
    returns (status: bool, calls: seq<Step>)
    requires target.TrueColorType? || target.TrueColorMatteType? || target.ColorSeparationType? || target.ColorSeparationMatteType?
    ensures calls == Recipe(target, isGray, issRGB, isCMYK, sc, colors, hadMatte)
    ensures status == RunStatus(calls, succeeds, true)
  {
    ghost var recipe := Recipe(target, isGray, issRGB, isCMYK, sc, colors, hadMatte);
    status, calls := true, [];
    match target {
      case TrueColorType =>
        if !issRGB {
          calls, status := Perform(calls, status, Step(TransformColorspace(sRGBColorspace), true), succeeds);
        }
        assert calls == ToSRGB(issRGB);
        if sc != DirectClass {
          calls, status := Perform(calls, status, Step(SetDirectStorageClass, true), succeeds);
        }
        assert calls == recipe;
      case TrueColorMatteType =>
        if !issRGB {
          calls, status := Perform(calls, status, Step(TransformColorspace(sRGBColorspace), true), succeeds);
        }
        assert calls == ToSRGB(issRGB);
        if sc != DirectClass {
          calls, status := Perform(calls, status, Step(SetDirectStorageClass, true), succeeds);
        }
        if !hadMatte {
          calls, status := Perform(calls, status, Step(SetOpaqueAlphaChannel, false), succeeds);
        }
        assert calls == recipe;
      case ColorSeparationType =>
        if !isCMYK {
          calls, status := Perform(calls, status, Step(TransformColorspace(CMYKColorspace), true), succeeds);
        }
        assert calls == ToCMYK(isCMYK);
        if sc != DirectClass {
          calls, status := Perform(calls, status, Step(SetDirectStorageClass, true), succeeds);
        }
        assert calls == recipe;
      case ColorSeparationMatteType =>
        if !isCMYK {
          calls, status := Perform(calls, status, Step(TransformColorspace(CMYKColorspace), true), succeeds);
        }
        assert calls == ToCMYK(isCMYK);
        if sc != DirectClass {
          calls, status := Perform(calls, status, Step(SetDirectStorageClass, true), succeeds);
        }
        if !hadMatte {
          calls, status := Perform(calls, status, Step(SetOpaqueAlphaChannel, false), succeeds);
        }
        assert calls == recipe;
    }
  }

  class Image {
    var columns: nat
    var rows: nat
    var pixels: array2<Pixel>
    var colormap: array<Pixel>
    var storageClass: ClassType
    var matte: bool
    var colorspace: Colorspace
    var depth: nat
    var imageType: ImageType

    /** The grid matches the recorded geometry and every quantum is in range. */
    ghost predicate Valid()
      reads this, pixels, colormap
    {
      rows >= 1 && columns >= 1 &&
      pixels.Length0 == rows && pixels.Length1 == columns &&
      (forall y, x :: 0 <= y < rows && 0 <= x < columns ==> PixelInRange(pixels[y, x])) &&
      (forall i :: 0 <= i < colormap.Length ==> PixelInRange(colormap[i]))
    }

    /** The pixels as a sequence of rows. */
    ghost function Grid(): (g: Grid)
      reads this, pixels
      ensures |g| == pixels.Length0 && IsRectangular(g, pixels.Length1)
      ensures forall y, x :: 0 <= y < pixels.Length0 && 0 <= x < pixels.Length1 ==>
        g[y][x] == pixels[y, x]
    {
      var p := pixels;
      seq(p.Length0, y requires 0 <= y < p.Length0 reads p =>
        seq(p.Length1, x requires 0 <= x < p.Length1 reads p => p[y, x]))
    }

    /** The colormap pass of SetImageChannelDepth: every entry's masked red, green, blue
        and opacity are replaced by their round trips. */
    method RescaleColormap(mask: ChannelMask, range: nat)
      requires Valid() && 1 <= range
      modifies colormap
      ensures Valid()
      ensures forall i :: 0 <= i < colormap.Length ==>
        colormap[i] == RescaleEntry(old(colormap[i]), mask, range)
    {
      var i := 0;
      while i < colormap.Length
        invariant 0 <= i <= colormap.Length
        invariant Valid()
        invariant forall j :: 0 <= j < i ==> colormap[j] == RescaleEntry(old(colormap[j]), mask, range)
        invariant forall j :: i <= j < colormap.Length ==> colormap[j] == old(colormap[j])
      {
        RescalePixelInRange(colormap[i], mask, true, range);
        if mask.red {
          colormap[i] := colormap[i].(red := RoundTrip(colormap[i].red, range));
        }
        if mask.green {
          colormap[i] := colormap[i].(green := RoundTrip(colormap[i].green, range));
        }
        if mask.blue {
          colormap[i] := colormap[i].(blue := RoundTrip(colormap[i].blue, range));
        }
        if mask.opacity {
          colormap[i] := colormap[i].(opacity := RoundTrip(colormap[i].opacity, range));
        }
        i := i + 1;
      }
    }

    /** The body of the row loop of SetImageChannelDepth: every pixel of row `y` is
        requantised, through `rescaleMap` when `useMap` holds. */
    method RescaleRow(y: nat, mask: ChannelMask, range: nat, useMap: bool, rescaleMap: array<nat>)
      requires Valid() && y < rows && 1 <= range
      requires useMap ==> rescaleMap.Length > QuantumRange
      requires useMap ==> forall v :: 0 <= v <= QuantumRange ==> rescaleMap[v] == RoundTrip(v, range)
      modifies pixels
      ensures Valid()
      ensures forall yy, x :: 0 <= yy < rows && 0 <= x < columns ==>
        pixels[yy, x] == if yy == y then RescalePixel(old(pixels[yy, x]), mask, matte, range)
                         else old(pixels[yy, x])
    {
      var x := 0;
      while x < columns
        invariant 0 <= x <= columns
        invariant Valid()
        invariant forall yy, xx :: 0 <= yy < rows && yy != y && 0 <= xx < columns ==>
          pixels[yy, xx] == old(pixels[yy, xx])
        invariant forall xx :: 0 <= xx < x ==>
          pixels[y, xx] == RescalePixel(old(pixels[y, xx]), mask, matte, range)
        invariant forall xx :: x <= xx < columns ==> pixels[y, xx] == old(pixels[y, xx])
      {
        var q := pixels[y, x];
        RescalePixelInRange(q, mask, matte, range);
        if mask.red {
          q := q.(red := if useMap then rescaleMap[q.red] else RoundTrip(q.red, range));
        }
        if mask.green {
          q := q.(green := if useMap then rescaleMap[q.green] else RoundTrip(q.green, range));
        }
        if mask.blue {
          q := q.(blue := if useMap then rescaleMap[q.blue] else RoundTrip(q.blue, range));
        }
        if mask.opacity && matte {
          q := q.(opacity := if useMap then rescaleMap[q.opacity] else RoundTrip(q.opacity, range));
        }
        pixels[y, x] := q;
        x := x + 1;
      }
    }

    /** SetImageChannelDepth. A depth at or above the quantum depth is only recorded.
        Otherwise the colormap of a PseudoClass image is requantised, then the pixel rows
        are requantised one by one (through the rescale table when the quantum range fits
        in `maxMap`); a row whose fetch fails stops the rewrite, a row whose sync fails is
        written and stops the rewrite, and the depth is recorded only when every row was
        fetched and synced. */
    method SetImageChannelDepth(mask: ChannelMask, newDepth: nat, maxMap: nat,
                                fetchFails: set<nat>, syncFails: set<nat>)
      returns (status: bool)
      requires Valid() && newDepth >= 1
      modifies this, pixels, colormap
      ensures Valid()
      ensures pixels == old(pixels) && colormap == old(colormap)
      ensures columns == old(columns) && rows == old(rows) && storageClass == old(storageClass)
      ensures matte == old(matte) && colorspace == old(colorspace) && imageType == old(imageType)
      ensures newDepth >= QuantumDepth ==>
        status && depth == newDepth &&
        (forall i :: 0 <= i < colormap.Length ==> colormap[i] == old(colormap[i])) &&
        (forall y, x :: 0 <= y < rows && 0 <= x < columns ==> pixels[y, x] == old(pixels[y, x]))
      ensures newDepth < QuantumDepth ==>
        status == (FirstFailure(0, rows, fetchFails + syncFails) == rows) &&
        depth == (if status then newDepth else old(depth)) &&
        (forall i :: 0 <= i < colormap.Length ==>
          colormap[i] == if storageClass == PseudoClass
                         then RescaleEntry(old(colormap[i]), mask, GetQuantumRange(newDepth))
                         else old(colormap[i])) &&
        (forall y, x :: 0 <= y < rows && 0 <= x < columns ==>
          pixels[y, x] == if RowRewritten(y, rows, fetchFails, syncFails)
                          then RescalePixel(old(pixels[y, x]), mask, matte, GetQuantumRange(newDepth))
                          else old(pixels[y, x]))
    {
      if newDepth >= QuantumDepth {
        depth := newDepth;
        return true;
      }
      var range := GetQuantumRange(newDepth);
      RangeBelowQuantumRange(newDepth);
      if storageClass == PseudoClass {
        RescaleColormap(mask, range);
      }
      var useMap := QuantumRange <= maxMap;
      var rescaleMap := new nat[0];
      if useMap {
        rescaleMap := BuildRescaleMap(range, maxMap);
      }
      status := RescalePixels(mask, range, useMap, rescaleMap, fetchFails, syncFails);
      if status {
        depth := newDepth;
      }
    }

    /** The row loop of SetImageChannelDepth: rows are requantised in order until a row
        fetch or a row sync fails. */
    method RescalePixels(mask: ChannelMask, range: nat, useMap: bool, rescaleMap: array<nat>,
                         fetchFails: set<nat>, syncFails: set<nat>)
      returns (status: bool)
      requires Valid() && 1 <= range
      requires useMap ==> rescaleMap.Length > QuantumRange
      requires useMap ==> forall v :: 0 <= v <= QuantumRange ==> rescaleMap[v] == RoundTrip(v, range)
      modifies pixels
      ensures Valid()
      ensures status == (FirstFailure(0, rows, fetchFails + syncFails) == rows)
      ensures forall y, x :: 0 <= y < rows && 0 <= x < columns ==>
        pixels[y, x] == if RowRewritten(y, rows, fetchFails, syncFails)
                        then RescalePixel(old(pixels[y, x]), mask, matte, range)
                        else old(pixels[y, x])
    {
      ghost var f := FirstFailure(0, rows, fetchFails + syncFails);
      status := true;
      var y := 0;
      while y < rows
        invariant 0 <= y <= rows
        invariant Valid()
        invariant status <==> y <= f
        invariant forall yy, x :: 0 <= yy < rows && 0 <= x < columns ==>
          pixels[yy, x] == if yy < y && (yy < f || (yy == f && f < rows && f !in fetchFails))
                           then RescalePixel(old(pixels[yy, x]), mask, matte, range)
                           else old(pixels[yy, x])
      {
        if status {
          if y in fetchFails {
            status := false;
          } else {
            RescaleRow(y, mask, range, useMap, rescaleMap);
            if y in syncFails {
              status := false;
            }
          }
        }
        y := y + 1;
      }
    }

    /** SetImageDepth: SetImageChannelDepth over all channels. */
    method SetImageDepth(newDepth: nat, maxMap: nat, fetchFails: set<nat>, syncFails: set<nat>)
      returns (status: bool)
      requires Valid() && newDepth >= 1
      modifies this, pixels, colormap
      ensures Valid()
      ensures pixels == old(pixels) && colormap == old(colormap)
      ensures columns == old(columns) && rows == old(rows) && storageClass == old(storageClass)
      ensures matte == old(matte) && colorspace == old(colorspace) && imageType == old(imageType)
      ensures newDepth >= QuantumDepth ==>
        status && depth == newDepth &&
        (forall i :: 0 <= i < colormap.Length ==> colormap[i] == old(colormap[i])) &&
        (forall y, x :: 0 <= y < rows && 0 <= x < columns ==> pixels[y, x] == old(pixels[y, x]))
      ensures newDepth < QuantumDepth ==>
        status == (FirstFailure(0, rows, fetchFails + syncFails) == rows) &&
        depth == (if status then newDepth else old(depth)) &&
        (forall i :: 0 <= i < colormap.Length ==>
          colormap[i] == if storageClass == PseudoClass
                         then RescaleEntry(old(colormap[i]), CompositeChannels,
                                           GetQuantumRange(newDepth))
                         else old(colormap[i])) &&
        (forall y, x :: 0 <= y < rows && 0 <= x < columns ==>
          pixels[y, x] == if RowRewritten(y, rows, fetchFails, syncFails)
                          then RescalePixel(old(pixels[y, x]), CompositeChannels, matte,
                                            GetQuantumRange(newDepth))
                          else old(pixels[y, x]))
    {
      status := SetImageChannelDepth(CompositeChannels, newDepth, maxMap, fetchFails, syncFails);
    }

    /** SetImageType, bookkeeping only: runs the recipe for `target` (the calls are
        returned in order), assigns the status from each status-assigning call, clears
        the matte flag for the opaque base types, sets it when an opaque alpha channel was
        added, and records `target` as the type tag
        exactly when the final status is success. */
    method SetImageType(target: ImageType, isGrayColorspace: Colorspace -> bool,
                        issRGBCompatible: Colorspace -> bool, succeeds: ExternalCall -> bool)
      returns (status: bool, calls: seq<Step>)
      modifies this`matte, this`imageType
      ensures calls == Recipe(target, isGrayColorspace(colorspace), issRGBCompatible(colorspace),
                              colorspace == CMYKColorspace, storageClass, colormap.Length,
                              old(matte))
      ensures status == RunStatus(calls, succeeds, true)
      ensures imageType == if status then target else old(imageType)
      ensures matte == MatteAfter(target, calls, old(matte))
      ensures IsMatteType(target) ==> matte
      ensures ClearsMatte(target) ==> !matte
    {
      status, calls, matte := RunTypeRecipe(target, isGrayColorspace(colorspace),
                                            issRGBCompatible(colorspace),
                                            colorspace == CMYKColorspace, storageClass,
                                            colormap.Length, matte, succeeds);
      if !status {
        return;
      }
      imageType := target;
    }
  }
}
