/** The value types shared by the attribute algorithms: pixels, channel masks, the
    image's storage class, colorspace and semantic type tags, gravities, rectangles,
    and the per-pixel colour predicates. */
module MagickTypes {
  import opened Quantum

  /** One pixel: the PixelPacket channels plus the index (black) channel. */
  datatype Pixel = Pixel(red: nat, green: nat, blue: nat, opacity: nat, index: nat)

  /** The pixel grid of an image, row by row. */
  type Grid = seq<seq<Pixel>>

  /** An optional value, as an image artifact that may or may not be set. */
  datatype Option<T> = None | Some(value: T)

  /** Opacity value of a fully opaque pixel. */
  const OpaqueOpacity: nat := 0

  predicate PixelInRange(p: Pixel)
  {
    p.red <= QuantumRange && p.green <= QuantumRange && p.blue <= QuantumRange &&
    p.opacity <= QuantumRange && p.index <= QuantumRange
  }

  /** ChannelType as a set of flags. */
  datatype ChannelMask = ChannelMask(red: bool, green: bool, blue: bool, opacity: bool, index: bool)

  /** CompositeChannels: red, green, blue, opacity and index. */
  const CompositeChannels := ChannelMask(true, true, true, true, true)

  datatype ClassType = UndefinedClass | DirectClass | PseudoClass

  datatype Colorspace =
    | UndefinedColorspace
    | CMYKColorspace
    | GRAYColorspace
    | sRGBColorspace
    | RGBColorspace
    | TransparentColorspace
    | OtherColorspace(code: nat)

  datatype ImageType =
    | UndefinedType
    | BilevelType
    | GrayscaleType
    | GrayscaleMatteType
    | PaletteType
    | PaletteMatteType
    | TrueColorType
    | TrueColorMatteType
    | ColorSeparationType
    | ColorSeparationMatteType
    | OptimizeType
    | PaletteBilevelMatteType

  /** The type tags that carry an alpha channel. */
  predicate IsMatteType(t: ImageType)
  {
    t.GrayscaleMatteType? || t.PaletteMatteType? || t.TrueColorMatteType? ||
    t.ColorSeparationMatteType? || t.PaletteBilevelMatteType?
  }

  datatype Gravity =
    | NorthWestGravity | NorthGravity | NorthEastGravity
    | WestGravity | EastGravity
    | SouthWestGravity | SouthGravity | SouthEastGravity

  /** RectangleInfo: unsigned extent, signed offset. */
  datatype Rectangle = Rectangle(width: nat, height: nat, x: int, y: int)

  /** IsPixelGray: red, green and blue are equal. */
  predicate IsPixelGray(p: Pixel)
  {
    p.red == p.green && p.green == p.blue
  }

  /** IsPixelMonochrome: gray, and the intensity is black or white. */
  predicate IsPixelMonochrome(p: Pixel)
  {
    IsPixelGray(p) && (p.red == 0 || p.red == QuantumRange)
  }

  /** Every row of the grid has `columns` pixels. */
  predicate IsRectangular(g: Grid, columns: nat)
  {
    forall y :: 0 <= y < |g| ==> |g[y]| == columns
  }
}
