/** Requantisation of pixels and colormap entries to a smaller depth, as
    SetImageChannelDepth applies it: each participating channel is replaced by its round
    trip through the range of the target depth. */
module Requantize {
  import opened Quantum
  import opened MagickTypes

  /** One channel, rescaled when `selected`. */
  function RescaleChannel(q: nat, selected: bool, range: nat): nat
    requires range >= 1
  {
    if selected then RoundTrip(q, range) else q
  }

  /** A pixel of the grid: red, green and blue under the mask, opacity under the mask and
      only when the image has a matte channel; the index channel is never touched. */
  function RescalePixel(p: Pixel, mask: ChannelMask, matte: bool, range: nat): (q: Pixel)
    requires range >= 1
    ensures q.index == p.index
    ensures !mask.red ==> q.red == p.red
    ensures !mask.green ==> q.green == p.green
    ensures !mask.blue ==> q.blue == p.blue
    ensures !(mask.opacity && matte) ==> q.opacity == p.opacity
  {
    p.(red := RescaleChannel(p.red, mask.red, range),
       green := RescaleChannel(p.green, mask.green, range),
       blue := RescaleChannel(p.blue, mask.blue, range),
       opacity := RescaleChannel(p.opacity, mask.opacity && matte, range))
  }

  /** A colormap entry: red, green, blue and opacity under the mask (no matte test). */
  function RescaleEntry(c: Pixel, mask: ChannelMask, range: nat): Pixel
    requires range >= 1
  {
    RescalePixel(c, mask, true, range)
  }

  /** Rescaling keeps every channel a valid quantum. */
  lemma RescalePixelInRange(p: Pixel, mask: ChannelMask, matte: bool, range: nat)
    requires PixelInRange(p) && range >= 1
    ensures PixelInRange(RescalePixel(p, mask, matte, range))
  {
    RoundTripBound(p.red, range);
    RoundTripBound(p.green, range);
    RoundTripBound(p.blue, range);
    RoundTripBound(p.opacity, range);
  }

  /** Every channel the rescale touched is afterwards exact at the target range, and the
      index channel and the channels it did not touch keep their values. */
  lemma RescalePixelAtDepth(p: Pixel, mask: ChannelMask, matte: bool, range: nat)
    requires 1 <= range <= QuantumRange
    ensures var r := RescalePixel(p, mask, matte, range);
      r.index == p.index &&
      (if mask.red then IsPixelAtDepth(r.red, range) else r.red == p.red) &&
      (if mask.green then IsPixelAtDepth(r.green, range) else r.green == p.green) &&
      (if mask.blue then IsPixelAtDepth(r.blue, range) else r.blue == p.blue) &&
      (if mask.opacity && matte then IsPixelAtDepth(r.opacity, range) else r.opacity == p.opacity)
  {
    RoundTripAtDepth(p.red, range);
    RoundTripAtDepth(p.green, range);
    RoundTripAtDepth(p.blue, range);
    RoundTripAtDepth(p.opacity, range);
  }

  /** Rescaling twice to the same depth gives the same pixel as rescaling once. */
  lemma RescalePixelIdempotent(p: Pixel, mask: ChannelMask, matte: bool, range: nat)
    requires 1 <= range <= QuantumRange
    ensures RescalePixel(RescalePixel(p, mask, matte, range), mask, matte, range)
            == RescalePixel(p, mask, matte, range)
  {
    RescalePixelAtDepth(p, mask, matte, range);
  }
}
