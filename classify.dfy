/** Type classification: the decision lists of GetImageType and IdentifyImageType, the
    tag tests IsGrayImage and IsMonochromeImage, and the pixel scans IdentifyImageGray,
    IdentifyImageMonochrome and IsOpaqueImage. */
module Classify {
  import opened MagickTypes
  import opened Images

  /** IsGrayImage: the type tag alone says gray. */
  function IsGrayImage(imageType: ImageType): (b: bool)
    ensures b <==> imageType in {BilevelType, GrayscaleType, GrayscaleMatteType}
  {
    imageType.BilevelType? || imageType.GrayscaleType? || imageType.GrayscaleMatteType?
  }

  /** IsMonochromeImage: the type tag alone says bilevel. */
  function IsMonochromeImage(imageType: ImageType): (b: bool)
    ensures b <==> imageType == BilevelType
    ensures b ==> IsGrayImage(imageType)
  {
    imageType.BilevelType?
  }

  /** The decision list GetImageType and IdentifyImageType share: CMYK first, then
      bilevel, gray, palette and true colour, in that order, each with its matte variant
      when the image has a matte channel (bilevel has none). */
  function ClassifyType(isCMYK: bool, matte: bool, bilevel: bool, gray: bool, palette: bool)
    : (t: ImageType)
    ensures t.ColorSeparationType? || t.ColorSeparationMatteType? <==> isCMYK
    ensures t == BilevelType <==> !isCMYK && bilevel
    ensures t != BilevelType ==> (IsMatteType(t) <==> matte)
    ensures t.GrayscaleType? || t.GrayscaleMatteType? <==> !isCMYK && !bilevel && gray
    ensures t.PaletteType? || t.PaletteMatteType? <==> !isCMYK && !bilevel && !gray && palette
    ensures t.TrueColorType? || t.TrueColorMatteType? <==> !isCMYK && !bilevel && !gray && !palette
  {
    if isCMYK then (if matte then ColorSeparationMatteType else ColorSeparationType)
    else if bilevel then BilevelType
    else if gray then (if matte then GrayscaleMatteType else GrayscaleType)
    else if palette then (if matte then PaletteMatteType else PaletteType)
    else if matte then TrueColorMatteType
    else TrueColorType
  }

  /** GetImageType: the decision list over the type tag, with `isPalette` the verdict of
      IsPaletteImage. */
  function GetImageType(colorspace: Colorspace, matte: bool, imageType: ImageType, isPalette: bool)
    : (t: ImageType)
    ensures t == ClassifyType(colorspace == CMYKColorspace, matte, IsMonochromeImage(imageType),
                              IsGrayImage(imageType), isPalette)
  {
    if colorspace == CMYKColorspace then (if matte then ColorSeparationMatteType else ColorSeparationType)
    else if IsMonochromeImage(imageType) then BilevelType
    else if IsGrayImage(imageType) then (if matte then GrayscaleMatteType else GrayscaleType)
    else if isPalette then (if matte then PaletteMatteType else PaletteType)
    else if matte then TrueColorMatteType
    else TrueColorType
  }

  /** A type the decision list chose, once recorded as the image's tag, is what
      GetImageType reports again: classifying is stable under GetImageType. */
  lemma ClassifyRecognised(colorspace: Colorspace, matte: bool, bilevel: bool, gray: bool,
                           palette: bool)
    ensures var t := ClassifyType(colorspace == CMYKColorspace, matte, bilevel, gray, palette);
      GetImageType(colorspace, matte, t, palette) == t
  {
  }

  /** GetImageType applied to its own answer gives the same answer. */
  lemma GetImageTypeIdempotent(colorspace: Colorspace, matte: bool, imageType: ImageType,
                               isPalette: bool)
    ensures var t := GetImageType(colorspace, matte, imageType, isPalette);
      GetImageType(colorspace, matte, t, isPalette) == t
  {
    ClassifyRecognised(colorspace, matte, IsMonochromeImage(imageType), IsGrayImage(imageType),
                       isPalette);
  }

  /** Every pixel of the grid satisfies `P`. */
  ghost predicate AllPixels(g: Grid, P: Pixel -> bool)
  {
    forall y, x :: 0 <= y < |g| && 0 <= x < |g[y]| ==> P(g[y][x])
  }

  /** Every pixel of the first `n` rows satisfies `P`. */
  ghost predicate AllInRows(g: Grid, n: nat, P: Pixel -> bool)
  {
    forall y, x :: 0 <= y < n && y < |g| && 0 <= x < |g[y]| ==> P(g[y][x])
  }

  /** Every pixel of one row satisfies `P`. */
  ghost predicate AllInRow(row: seq<Pixel>, P: Pixel -> bool)
  {
    forall x :: 0 <= x < |row| ==> P(row[x])
  }

  /** The first `n + 1` rows satisfy `P` exactly when the first `n` do and row `n` does. */
  lemma AllInRowsNext(g: Grid, n: nat, P: Pixel -> bool)
    requires n < |g|
    ensures AllInRows(g, n + 1, P) <==> AllInRows(g, n, P) && AllInRow(g[n], P)
  {
    if AllInRows(g, n, P) && AllInRow(g[n], P) {
      forall y, x | 0 <= y < n + 1 && y < |g| && 0 <= x < |g[y]|
        ensures P(g[y][x])
      {
        if y == n {
          assert P(g[n][x]);
        }
      }
    }
  }

  /** All rows of a grid satisfy `P` exactly when all its pixels do. */
  lemma AllRowsAllPixels(g: Grid, P: Pixel -> bool)
    ensures AllInRows(g, |g|, P) <==> AllPixels(g, P)
  {
  }

  /** None of the first `n` rows fails to read. */
  predicate NoFailures(n: nat, readFails: set<nat>)
  {
    forall y :: 0 <= y < n ==> y !in readFails
  }

  predicate IsPixelOpaque(p: Pixel)
  {
    p.opacity == OpaqueOpacity
  }

  /** What IdentifyImageGray's scan decides: undefined when a row cannot be read or a
      pixel is not gray, bilevel when every pixel is monochrome, gray otherwise. */
  ghost function GrayVerdict(g: Grid, readFails: set<nat>, matte: bool): (t: ImageType)
    ensures t != UndefinedType ==> NoFailures(|g|, readFails) && AllPixels(g, IsPixelGray)
    ensures t == BilevelType <==> NoFailures(|g|, readFails) && AllPixels(g, IsPixelMonochrome)
                                  && AllPixels(g, IsPixelGray)
    ensures t == GrayscaleMatteType ==> matte
  {
    if !NoFailures(|g|, readFails) || !AllPixels(g, IsPixelGray) then UndefinedType
    else if AllPixels(g, IsPixelMonochrome) then BilevelType
    else if matte then GrayscaleMatteType
    else GrayscaleType
  }

  /** IdentifyImageGray: a gray type tag is returned as it is, a colorspace that is not
      sRGB-compatible gives undefined, and otherwise the scan decides. */
  ghost function IdentifiedGray(g: Grid, imageType: ImageType, compatible: bool,
                                readFails: set<nat>, matte: bool): (t: ImageType)
    ensures t != UndefinedType ==> IsGrayImage(t)
    ensures t != imageType && t != UndefinedType ==>
      compatible && NoFailures(|g|, readFails) && AllPixels(g, IsPixelGray)
  {
    if IsGrayImage(imageType) then imageType
    else if !compatible then UndefinedType
    else GrayVerdict(g, readFails, matte)
  }

  /** IdentifyImageMonochrome: a bilevel tag answers yes, a colorspace that is not
      sRGB-compatible answers no, and otherwise yes exactly when every row reads and every
      pixel is monochrome. */
  ghost function IdentifiedMonochrome(g: Grid, imageType: ImageType, compatible: bool,
                                      readFails: set<nat>): (b: bool)
    ensures b ==> imageType == BilevelType || AllPixels(g, IsPixelMonochrome)
    ensures !b ==> imageType != BilevelType
  {
    if imageType == BilevelType then true
    else if !compatible then false
    else NoFailures(|g|, readFails) && AllPixels(g, IsPixelMonochrome)
  }

  /** IdentifyImageGray reports gray or undefined, and a matte variant only for a matte
      image or a tag that already said so. */
  lemma IdentifiedGrayRange(g: Grid, imageType: ImageType, compatible: bool,
                            readFails: set<nat>, matte: bool)
    ensures var t := IdentifiedGray(g, imageType, compatible, readFails, matte);
      t in {UndefinedType, BilevelType, GrayscaleType, GrayscaleMatteType} &&
      (t == GrayscaleMatteType ==> matte || imageType == GrayscaleMatteType) &&
      (t == GrayscaleType ==> !matte || imageType == GrayscaleType)
  {
  }

  /** The tag test and the pixel identification agree: a bilevel tag is identified as
      monochrome whatever the pixels, and where the colorspace keeps the pixels from being
      scanned the identification is the tag test. */
  lemma MonochromeTagDecides(g: Grid, imageType: ImageType, compatible: bool,
                             readFails: set<nat>)
    ensures IsMonochromeImage(imageType) ==> IdentifiedMonochrome(g, imageType, compatible, readFails)
    ensures !compatible ==>
      (IdentifiedMonochrome(g, imageType, compatible, readFails) <==> IsMonochromeImage(imageType))
  {
  }

  /** An image IdentifyImageMonochrome accepts is one IdentifyImageGray calls bilevel
      (or whose gray tag it returns as it is): monochrome pixels are gray. */
  lemma MonochromeIsGray(g: Grid, imageType: ImageType, compatible: bool, readFails: set<nat>,
                         matte: bool)
    requires IdentifiedMonochrome(g, imageType, compatible, readFails)
    ensures IdentifiedGray(g, imageType, compatible, readFails, matte)
            == if IsGrayImage(imageType) then imageType else BilevelType
  {
    if !IsGrayImage(imageType) {
      forall y, x | 0 <= y < |g| && 0 <= x < |g[y]|
        ensures IsPixelGray(g[y][x])
      {
        assert IsPixelMonochrome(g[y][x]);
      }
    }
  }

  /** The shared scan of IdentifyImageMonochrome and IsOpaqueImage: rows in order, each
      pixel tested with `P`; an unreadable row or a failing pixel clears the flag, and the
      rows after it are skipped. */
  method ScanPixels(img: Image, P: Pixel -> bool, readFails: set<nat>) returns (ok: bool)
    requires img.Valid()
    ensures ok == (NoFailures(img.rows, readFails) && AllPixels(img.Grid(), P))
  {
    ghost var g := img.Grid();
    ok := true;
    var y := 0;
    while y < img.rows
      invariant 0 <= y <= img.rows
      invariant ok == (NoFailures(y, readFails) && AllInRows(g, y, P))
    {
      if ok {
        if y in readFails {
          ok := false;
        } else {
          var x := 0;
          while x < img.columns
            invariant 0 <= x <= img.columns
            invariant ok
            invariant forall xx :: 0 <= xx < x ==> P(g[y][xx])
          {
            if !P(img.pixels[y, x]) {
              ok := false;
              break;
            }
            x := x + 1;
          }
        }
      }
      y := y + 1;
    }
  }

  /** IdentifyImageMonochrome, scanning only when neither the tag nor the colorspace
      decides. */
  method IdentifyImageMonochrome(img: Image, compatible: Colorspace -> bool, readFails: set<nat>)
    returns (b: bool)
    requires img.Valid()
    ensures b == IdentifiedMonochrome(img.Grid(), img.imageType, compatible(img.colorspace),
                                      readFails)
  {
    if img.imageType == BilevelType {
      return true;
    }
    if !compatible(img.colorspace) {
      return false;
    }
    b := ScanPixels(img, IsPixelMonochrome, readFails);
  }

  /** IsOpaqueImage: without a matte channel the image is opaque; otherwise it is opaque
      exactly when every row reads and every opacity is OpaqueOpacity. */
  method IsOpaqueImage(img: Image, readFails: set<nat>) returns (isOpaque: bool)
    requires img.Valid()
    ensures !img.matte ==> isOpaque
    ensures img.matte ==>
      (isOpaque <==> NoFailures(img.rows, readFails) && AllPixels(img.Grid(), IsPixelOpaque))
  {
    if !img.matte {
      return true;
    }
    isOpaque := ScanPixels(img, IsPixelOpaque, readFails);
  }

  /** What one row of the scan of IdentifyImageGray makes of the type `t0` it is entered
      with (bilevel or grayscale): undefined when a pixel is not gray, bilevel when entered
      bilevel and every pixel is monochrome, grayscale otherwise. */
  ghost function GrayRowVerdict(row: seq<Pixel>, t0: ImageType): ImageType
  {
    if !AllInRow(row, IsPixelGray) then UndefinedType
    else if t0 == BilevelType && AllInRow(row, IsPixelMonochrome) then BilevelType
    else GrayscaleType
  }

  /** The type the scan of IdentifyImageGray holds after the first `n` rows; an unreadable
      row or an undefined type ends it. */
  ghost function GrayUpTo(g: Grid, n: nat, readFails: set<nat>): ImageType
    requires n <= |g|
  {
    if n == 0 then BilevelType
    else
      var t := GrayUpTo(g, n - 1, readFails);
      if t == UndefinedType || n - 1 in readFails then UndefinedType
      else GrayRowVerdict(g[n - 1], t)
  }

  /** After `n` rows the scan is undefined exactly when a row failed or a pixel is not
      gray, bilevel exactly when otherwise every pixel is monochrome, and grayscale else. */
  lemma {:induction false} GrayUpToMeaning(g: Grid, n: nat, readFails: set<nat>)
    requires n <= |g|
    ensures GrayUpTo(g, n, readFails) ==
      if !NoFailures(n, readFails) || !AllInRows(g, n, IsPixelGray) then UndefinedType
      else if AllInRows(g, n, IsPixelMonochrome) then BilevelType
      else GrayscaleType
  {
    if n > 0 {
      GrayUpToMeaning(g, n - 1, readFails);
      AllInRowsNext(g, n - 1, IsPixelGray);
      AllInRowsNext(g, n - 1, IsPixelMonochrome);
      assert NoFailures(n, readFails) <==> NoFailures(n - 1, readFails) && n - 1 !in readFails;
    }
  }

  /** The scan over every row reaches the verdict of IdentifyImageGray without matte. */
  lemma GrayUpToIsVerdict(g: Grid, readFails: set<nat>)
    ensures GrayUpTo(g, |g|, readFails) == GrayVerdict(g, readFails, false)
  {
    GrayUpToMeaning(g, |g|, readFails);
    AllRowsAllPixels(g, IsPixelGray);
    AllRowsAllPixels(g, IsPixelMonochrome);
  }

  /** One row of the scan of IdentifyImageGray. */
  method GrayRow(img: Image, ghost g: Grid, y: nat, t0: ImageType) returns (t: ImageType)
    requires img.Valid() && g == img.Grid() && y < img.rows
    requires t0 == BilevelType || t0 == GrayscaleType
    ensures t == GrayRowVerdict(g[y], t0)
  {
    t := t0;
    var x := 0;
    while x < img.columns
      invariant 0 <= x <= img.columns
      invariant forall xx :: 0 <= xx < x ==> IsPixelGray(g[y][xx])
      invariant t == if t0 == BilevelType && forall xx :: 0 <= xx < x ==> IsPixelMonochrome(g[y][xx])
                     then BilevelType else GrayscaleType
    {
      if !IsPixelGray(img.pixels[y, x]) {
        t := UndefinedType;
        return;
      }
      if t == BilevelType && !IsPixelMonochrome(img.pixels[y, x]) {
        t := GrayscaleType;
      }
      x := x + 1;
    }
  }

  /** The scan of IdentifyImageGray: the type starts bilevel, falls to grayscale at the
      first pixel that is gray but not monochrome, and to undefined at the first pixel
      that is not gray or the first unreadable row; it never moves back. */
  method GrayScan(img: Image, readFails: set<nat>) returns (t: ImageType)
    requires img.Valid()
    ensures t == GrayVerdict(img.Grid(), readFails, false)
  {
    ghost var g := img.Grid();
    t := BilevelType;
    var y := 0;
    while y < img.rows
      invariant 0 <= y <= img.rows == |g|
      invariant t == GrayUpTo(g, y, readFails)
      invariant t == BilevelType || t == GrayscaleType || t == UndefinedType
    {
      if t != UndefinedType {
        if y in readFails {
          t := UndefinedType;
        } else {
          t := GrayRow(img, g, y, t);
        }
      }
      y := y + 1;
    }
    GrayUpToIsVerdict(g, readFails);
  }

  /** IdentifyImageGray. */
  method IdentifyImageGray(img: Image, compatible: Colorspace -> bool, readFails: set<nat>)
    returns (t: ImageType)
    requires img.Valid()
    ensures t == IdentifiedGray(img.Grid(), img.imageType, compatible(img.colorspace), readFails,
                                img.matte)
  {
    if IsGrayImage(img.imageType) {
      return img.imageType;
    }
    if !compatible(img.colorspace) {
      return UndefinedType;
    }
    t := GrayScan(img, readFails);
    if t == GrayscaleType && img.matte {
      t := GrayscaleMatteType;
    }
  }

  /** IdentifyImageType: the decision list over the scans, with `paletteIdentified` the
      verdict of IdentifyPaletteImage. The gray scan runs only when the monochrome scan
      said no. */
  method IdentifyImageType(img: Image, compatible: Colorspace -> bool, readFails: set<nat>,
                           paletteIdentified: bool)
    returns (t: ImageType)
    requires img.Valid()
    ensures t == ClassifyType(img.colorspace == CMYKColorspace, img.matte,
                              IdentifiedMonochrome(img.Grid(), img.imageType,
                                                   compatible(img.colorspace), readFails),
                              IdentifiedGray(img.Grid(), img.imageType, compatible(img.colorspace),
                                             readFails, img.matte) != UndefinedType,
                              paletteIdentified)
  {
    if img.colorspace == CMYKColorspace {
      return if img.matte then ColorSeparationMatteType else ColorSeparationType;
    }
    var bilevel := IdentifyImageMonochrome(img, compatible, readFails);
    if bilevel {
      return BilevelType;
    }
    var gray := IdentifyImageGray(img, compatible, readFails);
    if gray != UndefinedType {
      return if img.matte then GrayscaleMatteType else GrayscaleType;
    }
    if paletteIdentified {
      return if img.matte then PaletteMatteType else PaletteType;
    }
    t := if img.matte then TrueColorMatteType else TrueColorType;
  }
}
