/** The bookkeeping of SetImageType: which external operations each requested type
    invokes, in order, which of them assign the status flag, and what the flag ends up as.
    The operations themselves (colorspace transform, quantizer, alpha channel, storage
    class) live outside this model; only their success or failure is seen here. */
module TypeRecipe {
  import opened MagickTypes

  /** An external operation SetImageType may invoke. */
  datatype ExternalCall =
    | TransformColorspace(target: Colorspace)
    | NormalizeImage
    | BilevelImage
    | BilevelAlphaChannel
    | SetOpaqueAlphaChannel
    | QuantizeImage(numberColors: nat, colorspace: Colorspace)
    | SetDirectStorageClass

  /** A call, and whether its result is assigned to `status` (calls cast to void are not). */
  datatype Step = Step(call: ExternalCall, assignsStatus: bool)

  /** Number of colors a freshly acquired QuantizeInfo asks for. */
  const DefaultQuantizeColors: nat := 256

  /** A transform to GRAY unless the colorspace is already a gray one. */
  function ToGray(isGrayColorspace: bool): seq<Step>
  {
    if isGrayColorspace then [] else [Step(TransformColorspace(GRAYColorspace), true)]
  }

  /** A transform to sRGB unless the colorspace is sRGB-compatible. */
  function ToSRGB(issRGBCompatible: bool): seq<Step>
  {
    if issRGBCompatible then [] else [Step(TransformColorspace(sRGBColorspace), true)]
  }

  /** A transform to CMYK unless the colorspace is CMYK. */
  function ToCMYK(isCMYK: bool): seq<Step>
  {
    if isCMYK then [] else [Step(TransformColorspace(CMYKColorspace), true)]
  }

  /** A switch to DirectClass unless the image already is DirectClass. */
  function ToDirect(storageClass: ClassType): seq<Step>
  {
    if storageClass == DirectClass then [] else [Step(SetDirectStorageClass, true)]
  }

  /** An opaque alpha channel unless the image already has a matte channel. */
  function AddAlpha(matte: bool): seq<Step>
  {
    if matte then [] else [Step(SetOpaqueAlphaChannel, false)]
  }

  /** The ordered calls SetImageType makes for `target`, given the image's colorspace
      verdicts, storage class, colormap size and matte flag. */
  function Recipe(target: ImageType, isGrayColorspace: bool, issRGBCompatible: bool,
                  isCMYK: bool, storageClass: ClassType, colors: nat, matte: bool): seq<Step>
  {
    match target
    case BilevelType =>
      ToGray(isGrayColorspace) +
      [Step(NormalizeImage, false), Step(BilevelImage, false),
       Step(QuantizeImage(2, GRAYColorspace), true)]
    case GrayscaleType => ToGray(isGrayColorspace)
    case GrayscaleMatteType => ToGray(isGrayColorspace) + AddAlpha(matte)
    case PaletteType =>
      ToSRGB(issRGBCompatible) +
      (if storageClass == DirectClass || colors > 256
       then [Step(QuantizeImage(256, UndefinedColorspace), true)] else [])
    case PaletteBilevelMatteType =>
      ToSRGB(issRGBCompatible) + AddAlpha(matte) +
      [Step(BilevelAlphaChannel, false),
       Step(QuantizeImage(DefaultQuantizeColors, UndefinedColorspace), true)]
    case PaletteMatteType =>
      ToSRGB(issRGBCompatible) + AddAlpha(matte) +
      [Step(QuantizeImage(DefaultQuantizeColors, TransparentColorspace), true)]
    case TrueColorType => ToSRGB(issRGBCompatible) + ToDirect(storageClass)
    case TrueColorMatteType => ToSRGB(issRGBCompatible) + ToDirect(storageClass) + AddAlpha(matte)
    case ColorSeparationType => ToCMYK(isCMYK) + ToDirect(storageClass)
    case ColorSeparationMatteType => ToCMYK(isCMYK) + ToDirect(storageClass) + AddAlpha(matte)
    case OptimizeType => []
    case UndefinedType => []
  }

  /** The calls whose result SetImageType keeps: colorspace transforms, quantizations and
      storage-class switches. The others are cast to void. */
  predicate ReportsStatus(call: ExternalCall)
  {
    call.TransformColorspace? || call.QuantizeImage? || call.SetDirectStorageClass?
  }

  /** Every step assigns the status exactly when its call reports one. */
  predicate AssignsWhenReported(steps: seq<Step>)
  {
    forall j :: 0 <= j < |steps| ==> (steps[j].assignsStatus <==> ReportsStatus(steps[j].call))
  }

  lemma AssignsWhenReportedConcat(a: seq<Step>, b: seq<Step>)
    requires AssignsWhenReported(a) && AssignsWhenReported(b)
    ensures AssignsWhenReported(a + b)
  {
    forall j | 0 <= j < |a + b|
      ensures (a + b)[j].assignsStatus <==> ReportsStatus((a + b)[j].call)
    {
      if j >= |a| {
        assert (a + b)[j] == b[j - |a|];
      }
    }
  }

  /** In every recipe the status is taken from exactly the calls that report one:
      transforms, quantizations and storage-class switches; normalising, thresholding
      and adding an alpha channel never change it. */
  lemma RecipeAssignsWhenReported(target: ImageType, isGray: bool, issRGB: bool, isCMYK: bool,
                                  storageClass: ClassType, colors: nat, matte: bool)
    ensures AssignsWhenReported(Recipe(target, isGray, issRGB, isCMYK, storageClass, colors, matte))
  {
    var gray, srgb, cmyk := ToGray(isGray), ToSRGB(issRGB), ToCMYK(isCMYK);
    var direct, alpha := ToDirect(storageClass), AddAlpha(matte);
    assert AssignsWhenReported(gray) && AssignsWhenReported(srgb) && AssignsWhenReported(cmyk);
    assert AssignsWhenReported(direct) && AssignsWhenReported(alpha);
    match target {
      case BilevelType =>
        AssignsWhenReportedConcat(gray, [Step(NormalizeImage, false), Step(BilevelImage, false),
                                         Step(QuantizeImage(2, GRAYColorspace), true)]);
      case GrayscaleMatteType =>
        AssignsWhenReportedConcat(gray, alpha);
      case PaletteType =>
        AssignsWhenReportedConcat(srgb, if storageClass == DirectClass || colors > 256
                                        then [Step(QuantizeImage(256, UndefinedColorspace), true)]
                                        else []);
      case PaletteBilevelMatteType =>
        AssignsWhenReportedConcat(srgb, alpha);
        AssignsWhenReportedConcat(srgb + alpha,
          [Step(BilevelAlphaChannel, false),
           Step(QuantizeImage(DefaultQuantizeColors, UndefinedColorspace), true)]);
      case PaletteMatteType =>
        AssignsWhenReportedConcat(srgb, alpha);
        AssignsWhenReportedConcat(srgb + alpha,
          [Step(QuantizeImage(DefaultQuantizeColors, TransparentColorspace), true)]);
      case TrueColorType =>
        AssignsWhenReportedConcat(srgb, direct);
      case TrueColorMatteType =>
        AssignsWhenReportedConcat(srgb, direct);
        AssignsWhenReportedConcat(srgb + direct, alpha);
      case ColorSeparationType =>
        AssignsWhenReportedConcat(cmyk, direct);
      case ColorSeparationMatteType =>
        AssignsWhenReportedConcat(cmyk, direct);
        AssignsWhenReportedConcat(cmyk + direct, alpha);
      case _ =>
    }
  }

  /** The types whose recipe ends with `image->matte = MagickFalse`. */
  predicate ClearsMatte(target: ImageType): (b: bool)
    ensures b <==> !IsMatteType(target) && !target.OptimizeType? && !target.UndefinedType?
  {
    target.BilevelType? || target.GrayscaleType? || target.PaletteType? ||
    target.TrueColorType? || target.ColorSeparationType?
  }

  /** The matte flag after the recipe for `target` ran on an image whose flag was `matte`:
      cleared by the opaque base types, switched on by an opaque alpha channel call (which
      sets an opaque alpha channel and marks the image as having one), kept otherwise. */
  function MatteAfter(target: ImageType, steps: seq<Step>, matte: bool): bool
  {
    if ClearsMatte(target) then false
    else matte || Step(SetOpaqueAlphaChannel, false) in steps
  }

  /** An opaque alpha channel is added exactly for a matte target on an image without a
      matte channel, and after the recipe the matte flag agrees with the target: every matte type
      leaves the image with a matte channel, every opaque base type leaves it without one,
      and the types that make no calls leave the flag as it was. */
  lemma RecipeMatte(target: ImageType, isGray: bool, issRGB: bool, isCMYK: bool,
                    storageClass: ClassType, colors: nat, matte: bool)
    ensures Step(SetOpaqueAlphaChannel, false)
              in Recipe(target, isGray, issRGB, isCMYK, storageClass, colors, matte)
            <==> IsMatteType(target) && !matte
    ensures var m := MatteAfter(target, Recipe(target, isGray, issRGB, isCMYK, storageClass,
                                                colors, matte), matte);
      (IsMatteType(target) ==> m) &&
      (ClearsMatte(target) ==> !m) &&
      (target.OptimizeType? || target.UndefinedType? ==> m == matte)
  {
  }

  /** The value of `status` after running `steps` from `status`: each status-assigning
      call overwrites it with its own outcome. */
  function RunStatus(steps: seq<Step>, succeeds: ExternalCall -> bool, status: bool): (r: bool)
    ensures (forall j :: 0 <= j < |steps| ==> !steps[j].assignsStatus) ==> r == status
  {
    if steps == [] then status
    else RunStatus(steps[1..], succeeds,
                   if steps[0].assignsStatus then succeeds(steps[0].call) else status)
  }

  /** Running one more step after `steps`: a status-assigning step decides the status by
      its own outcome, any other step leaves it as it was. */
  lemma {:induction false} RunStatusSnoc(steps: seq<Step>, step: Step, succeeds: ExternalCall -> bool,
                                         status: bool)
    ensures RunStatus(steps + [step], succeeds, status)
            == if step.assignsStatus then succeeds(step.call) else RunStatus(steps, succeeds, status)
  {
    if steps != [] {
      assert (steps + [step])[1..] == steps[1..] + [step];
      RunStatusSnoc(steps[1..], step, succeeds,
                    if steps[0].assignsStatus then succeeds(steps[0].call) else status);
    }
  }

  /** Index of the last status-assigning step, or -1 when there is none. */
  function LastAssigning(steps: seq<Step>): (k: int)
    ensures -1 <= k < |steps|
    ensures k >= 0 ==> steps[k].assignsStatus
    ensures forall j :: k < j < |steps| ==> !steps[j].assignsStatus
  {
    if steps == [] then -1
    else if steps[|steps| - 1].assignsStatus then |steps| - 1
    else LastAssigning(steps[..|steps| - 1])
  }

  /** Only the last status-assigning call decides the status; earlier failures are
      overwritten, and without such a call the initial value stands. */
  lemma {:induction false} RunStatusIsLastAssignment(steps: seq<Step>, succeeds: ExternalCall -> bool,
                                                     status: bool)
    ensures RunStatus(steps, succeeds, status)
            == if LastAssigning(steps) < 0 then status
               else succeeds(steps[LastAssigning(steps)].call)
  {
    if steps != [] {
      var next := if steps[0].assignsStatus then succeeds(steps[0].call) else status;
      RunStatusIsLastAssignment(steps[1..], succeeds, next);
      var k := LastAssigning(steps);
      var k' := LastAssigning(steps[1..]);
      if k' >= 0 {
        assert steps[1..][k'] == steps[k' + 1];
        LastAssigningUnique(steps, k' + 1);
      } else {
        forall j | 0 < j < |steps|
          ensures !steps[j].assignsStatus
        {
          assert steps[j] == steps[1..][j - 1];
        }
        if steps[0].assignsStatus {
          LastAssigningUnique(steps, 0);
        } else {
          LastAssigningNone(steps);
        }
      }
    }
  }

  lemma LastAssigningUnique(steps: seq<Step>, k: nat)
    requires k < |steps| && steps[k].assignsStatus
    requires forall j :: k < j < |steps| ==> !steps[j].assignsStatus
    ensures LastAssigning(steps) == k
  {
  }

  lemma LastAssigningNone(steps: seq<Step>)
    requires forall j :: 0 <= j < |steps| ==> !steps[j].assignsStatus
    ensures LastAssigning(steps) == -1
  {
  }

  /** Palette enforcement quantizes exactly when the image is DirectClass or its colormap
      has more than 256 entries. */
  lemma PaletteQuantizesWhenNeeded(isGray: bool, issRGB: bool, isCMYK: bool,
                                   storageClass: ClassType, colors: nat, matte: bool)
    ensures var steps := Recipe(PaletteType, isGray, issRGB, isCMYK, storageClass, colors, matte);
      (exists j :: 0 <= j < |steps| && steps[j].call.QuantizeImage?)
      <==> (storageClass == DirectClass || colors > 256)
  {
    var steps := Recipe(PaletteType, isGray, issRGB, isCMYK, storageClass, colors, matte);
    if storageClass == DirectClass || colors > 256 {
      assert steps[|steps| - 1].call.QuantizeImage?;
    }
  }

  /** Bilevel enforcement succeeds when its quantization succeeds, even after a failed
      colorspace transform. */
  lemma BilevelStatusIsQuantizeOutcome(isGray: bool, issRGB: bool, isCMYK: bool,
                                       storageClass: ClassType, colors: nat, matte: bool,
                                       succeeds: ExternalCall -> bool)
    ensures RunStatus(Recipe(BilevelType, isGray, issRGB, isCMYK, storageClass, colors, matte),
                      succeeds, true)
            == succeeds(QuantizeImage(2, GRAYColorspace))
  {
    var steps := Recipe(BilevelType, isGray, issRGB, isCMYK, storageClass, colors, matte);
    RunStatusIsLastAssignment(steps, succeeds, true);
    LastAssigningUnique(steps, |steps| - 1);
  }
}
