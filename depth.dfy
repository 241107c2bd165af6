/** GetImageChannelDepth: the probe for the smallest depth at which an image's channel
    samples survive requantisation. It takes one of three paths: the colormap alone (a
    PseudoClass image without matte), a precomputed table of per-value depths (when the
    quantum range fits the map size), or a direct per-pixel search. Exactness is not
    monotone in the depth, so each path reports its own accumulator, not a depth at which
    every sample round-trips. */
module ChannelDepth {
  import opened Quantum
  import opened MagickTypes
  import opened Images
  import opened Requantize

  /** A value is exact at `depth` when it survives the round trip through that depth. */
  predicate ExactAt(v: nat, depth: nat)
    requires depth >= 1
  {
    IsPixelAtDepth(v, GetQuantumRange(depth))
  }

  /** At the quantum depth every valid quantum is exact. */
  lemma ExactAtQuantumDepth(v: nat)
    requires v <= QuantumRange
    ensures ExactAt(v, QuantumDepth)
  {
    QuantumRangeIsFullDepth();
    AtFullRange(v);
  }

  /** The least depth in [from, QuantumDepth) at which `v` is exact, or QuantumDepth. */
  function MinExactDepthFrom(v: nat, from: nat): (d: nat)
    requires 1 <= from <= QuantumDepth
    ensures from <= d <= QuantumDepth
    decreases QuantumDepth - from
  {
    if from == QuantumDepth then QuantumDepth
    else if ExactAt(v, from) then from
    else MinExactDepthFrom(v, from + 1)
  }

  /** The search from `from` stops at the first exact depth: every depth it passes over
      is inexact, and the depth it stops at, below the quantum depth, is exact. */
  lemma {:induction false} MinExactDepthFromIsFirst(v: nat, from: nat)
    requires 1 <= from <= QuantumDepth
    ensures var d := MinExactDepthFrom(v, from);
      (d < QuantumDepth ==> ExactAt(v, d)) && (forall e :: from <= e < d ==> !ExactAt(v, e))
    decreases QuantumDepth - from
  {
    if from < QuantumDepth && !ExactAt(v, from) {
      MinExactDepthFromIsFirst(v, from + 1);
    }
  }

  /** The entry of the depth table for `v`. */
  function MinExactDepth(v: nat): nat
  {
    MinExactDepthFrom(v, 1)
  }

  /** A table entry is the least depth in [1, QuantumDepth] at which the value is exact. */
  lemma MinExactDepthIsLeast(v: nat, d: nat)
    requires v <= QuantumRange && 1 <= d <= QuantumDepth
    ensures 1 <= MinExactDepth(v) <= QuantumDepth
    ensures ExactAt(v, MinExactDepth(v))
    ensures ExactAt(v, d) ==> MinExactDepth(v) <= d
  {
    MinExactDepthFromIsFirst(v, 1);
    if MinExactDepth(v) == QuantumDepth {
      ExactAtQuantumDepth(v);
    }
  }

  /** A value produced by rescaling to a depth below the quantum depth has a table entry
      no larger than that depth. */
  lemma RescaledValueDepth(q: nat, depth: nat)
    requires 1 <= depth < QuantumDepth
    ensures MinExactDepth(RoundTrip(q, GetQuantumRange(depth))) <= depth
  {
    var range := GetQuantumRange(depth);
    RangeBelowQuantumRange(depth);
    RoundTripAtDepth(q, range);
    var v := RoundTrip(q, range);
    assert ExactAt(v, depth);
    MinExactDepthFromIsFirst(v, 1);
  }

  /** Builds the depth table: entry i is the least depth at which i is exact, found by
      counting depths up from 1. */
  method BuildDepthMap(maxMap: nat) returns (m: array<nat>)
    ensures m.Length == maxMap + 1
    ensures forall i :: 0 <= i <= maxMap ==> m[i] == MinExactDepth(i)
  {
    m := new nat[maxMap + 1];
    var i := 0;
    while i <= maxMap
      invariant 0 <= i <= maxMap + 1
      invariant forall j :: 0 <= j < i ==> m[j] == MinExactDepth(j)
    {
      var d := 1;
      while d < QuantumDepth
        invariant 1 <= d <= QuantumDepth
        invariant MinExactDepthFrom(i, d) == MinExactDepth(i)
      {
        if i == ScaleAnyToQuantum(ScaleQuantumToAny(i, GetQuantumRange(d)), GetQuantumRange(d)) {
          break;
        }
        d := d + 1;
      }
      m[i] := d;
      i := i + 1;
    }
  }

  // ---------------------------------------------------------------------------------
  // The table path
  //
  // The table path is stated for any table contents `table` (entry v of depth_map is
  // table(v)); GetImageChannelDepth fills the table with MinExactDepth.

  /** Every entry the table holds for a valid quantum lies in [1, QuantumDepth]. */
  ghost predicate EntriesInRange(table: nat -> nat)
  {
    forall v :: 0 <= v <= QuantumRange ==> 1 <= table(v) <= QuantumDepth
  }

  /** The table GetImageChannelDepth builds has every entry in range. */
  lemma MinExactDepthInRange()
    ensures EntriesInRange(MinExactDepth)
  {
    forall v | 0 <= v <= QuantumRange
      ensures 1 <= MinExactDepth(v) <= QuantumDepth
    {
      MinExactDepthIsLeast(v, QuantumDepth);
    }
  }

  /** Raises `acc` to the table entry of `v` when the channel is selected. */
  function Raise(table: nat -> nat, acc: nat, selected: bool, v: nat): nat
  {
    if selected && table(v) > acc then table(v) else acc
  }

  /** The channel values of `p` the table path consults: red, green and blue under the
      mask, opacity under the mask when the image has a matte channel, and the index
      under the mask when the image is CMYK. */
  function TableProbes(p: Pixel, mask: ChannelMask, matte: bool, cmyk: bool): seq<nat>
  {
    (if mask.red then [p.red] else []) + (if mask.green then [p.green] else []) +
    (if mask.blue then [p.blue] else []) +
    (if mask.opacity && matte then [p.opacity] else []) +
    (if mask.index && cmyk then [p.index] else [])
  }

  /** One pixel of the table path. */
  function TableStep(table: nat -> nat, acc: nat, p: Pixel, mask: ChannelMask, matte: bool,
                     cmyk: bool): nat
  {
    var a := Raise(table, acc, mask.red, p.red);
    var b := Raise(table, a, mask.green, p.green);
    var c := Raise(table, b, mask.blue, p.blue);
    var d := Raise(table, c, mask.opacity && matte, p.opacity);
    Raise(table, d, mask.index && cmyk, p.index)
  }

  /** One channel of a table step: the accumulator is kept or raised to the channel's
      entry, and when the channel is consulted the result bounds that entry. */
  lemma RaiseIsMax(table: nat -> nat, acc: nat, selected: bool, v: nat)
    ensures var r := Raise(table, acc, selected, v);
      acc <= r && (selected ==> table(v) <= r) && (r == acc || (selected && r == table(v)))
  {
  }

  /** A pixel raises the accumulator to the largest table entry among its consulted
      channels: the result bounds every one of them and is either the old accumulator
      or one of them. */
  lemma TableStepIsMax(table: nat -> nat, acc: nat, p: Pixel, mask: ChannelMask, matte: bool,
                       cmyk: bool)
    ensures var r := TableStep(table, acc, p, mask, matte, cmyk);
      var vs := TableProbes(p, mask, matte, cmyk);
      acc <= r &&
      (forall v :: v in vs ==> table(v) <= r) &&
      (r == acc || exists v :: v in vs && r == table(v))
  {
    var a := Raise(table, acc, mask.red, p.red);
    var b := Raise(table, a, mask.green, p.green);
    var c := Raise(table, b, mask.blue, p.blue);
    var d := Raise(table, c, mask.opacity && matte, p.opacity);
    RaiseIsMax(table, acc, mask.red, p.red);
    RaiseIsMax(table, a, mask.green, p.green);
    RaiseIsMax(table, b, mask.blue, p.blue);
    RaiseIsMax(table, c, mask.opacity && matte, p.opacity);
    RaiseIsMax(table, d, mask.index && cmyk, p.index);
    TableProbesMembers(p, mask, matte, cmyk);
  }

  /** The values the table path consults are exactly the selected channels' values. */
  lemma TableProbesMembers(p: Pixel, mask: ChannelMask, matte: bool, cmyk: bool)
    ensures forall v :: v in TableProbes(p, mask, matte, cmyk) <==>
      (mask.red && v == p.red) || (mask.green && v == p.green) || (mask.blue && v == p.blue) ||
      (mask.opacity && matte && v == p.opacity) || (mask.index && cmyk && v == p.index)
  {
  }

  /** The table path over the first `n` pixels of a row. */
  function RowTable(table: nat -> nat, row: seq<Pixel>, n: nat, acc: nat, mask: ChannelMask,
                    matte: bool, cmyk: bool): nat
    requires n <= |row|
  {
    if n == 0 then acc
    else TableStep(table, RowTable(table, row, n - 1, acc, mask, matte, cmyk), row[n - 1], mask,
                   matte, cmyk)
  }

  /** The table path over the first `n` rows, starting from depth 1: an unreadable row is
      skipped, and once the accumulator reaches the quantum depth the remaining rows are
      skipped. */
  function TableDepthUpTo(table: nat -> nat, g: Grid, n: nat, mask: ChannelMask, matte: bool,
                          cmyk: bool, readFails: set<nat>): nat
    requires n <= |g|
  {
    if n == 0 then 1
    else
      var acc := TableDepthUpTo(table, g, n - 1, mask, matte, cmyk, readFails);
      if acc == QuantumDepth || n - 1 in readFails then acc
      else RowTable(table, g[n - 1], |g[n - 1]|, acc, mask, matte, cmyk)
  }

  /** The table path over the whole grid. */
  function TableDepth(table: nat -> nat, g: Grid, mask: ChannelMask, matte: bool, cmyk: bool,
                      readFails: set<nat>): nat
  {
    TableDepthUpTo(table, g, |g|, mask, matte, cmyk, readFails)
  }

  /** The table entry the table path reaches for one pixel alone. */
  function PixelTableDepth(table: nat -> nat, p: Pixel, mask: ChannelMask, matte: bool,
                           cmyk: bool): nat
  {
    TableStep(table, 1, p, mask, matte, cmyk)
  }

  /** A pixel's own table depth lies in [1, QuantumDepth]. */
  lemma PixelTableDepthBounds(table: nat -> nat, p: Pixel, mask: ChannelMask, matte: bool,
                              cmyk: bool)
    requires EntriesInRange(table) && PixelInRange(p)
    ensures 1 <= PixelTableDepth(table, p, mask, matte, cmyk) <= QuantumDepth
  {
    assert 1 <= table(p.red) <= QuantumDepth && 1 <= table(p.green) <= QuantumDepth;
    assert 1 <= table(p.blue) <= QuantumDepth && 1 <= table(p.opacity) <= QuantumDepth;
    assert 1 <= table(p.index) <= QuantumDepth;
  }

  /** One pixel raises an accumulator of at least 1 to the larger of it and the pixel's
      own depth. */
  lemma TableStepSplit(table: nat -> nat, acc: nat, p: Pixel, mask: ChannelMask, matte: bool,
                       cmyk: bool)
    requires acc >= 1
    ensures TableStep(table, acc, p, mask, matte, cmyk)
            == if acc < PixelTableDepth(table, p, mask, matte, cmyk)
               then PixelTableDepth(table, p, mask, matte, cmyk) else acc
  {
  }

  /** A valid grid: every quantum in range. */
  predicate GridInRange(g: Grid)
  {
    forall y, x :: 0 <= y < |g| && 0 <= x < |g[y]| ==> PixelInRange(g[y][x])
  }

  /** The readable pixels among the first `n` rows. */
  predicate Readable(g: Grid, n: nat, readFails: set<nat>, y: int, x: int)
  {
    0 <= y < n && y < |g| && y !in readFails && 0 <= x < |g[y]|
  }

  /** Every readable pixel among the first `n` rows has a depth of at most `r`. */
  ghost predicate BoundsReadable(table: nat -> nat, g: Grid, n: nat, readFails: set<nat>, r: nat,
                                 mask: ChannelMask, matte: bool, cmyk: bool)
  {
    forall y, x :: Readable(g, n, readFails, y, x) ==>
      PixelTableDepth(table, g[y][x], mask, matte, cmyk) <= r
  }

  /** `r` is 1 or the depth of a readable pixel among the first `n` rows. */
  ghost predicate AttainedReadable(table: nat -> nat, g: Grid, n: nat, readFails: set<nat>, r: nat,
                                   mask: ChannelMask, matte: bool, cmyk: bool)
  {
    r == 1 ||
    exists y, x :: Readable(g, n, readFails, y, x) &&
                   r == PixelTableDepth(table, g[y][x], mask, matte, cmyk)
  }

  /** The row fold is the maximum of the accumulator and the pixels' own depths. */
  lemma {:induction false} RowTableIsMax(table: nat -> nat, row: seq<Pixel>, n: nat, acc: nat,
                                         mask: ChannelMask, matte: bool, cmyk: bool)
    requires EntriesInRange(table)
    requires n <= |row| && 1 <= acc <= QuantumDepth
    requires forall x :: 0 <= x < |row| ==> PixelInRange(row[x])
    ensures var r := RowTable(table, row, n, acc, mask, matte, cmyk);
      acc <= r <= QuantumDepth &&
      (forall x :: 0 <= x < n ==> PixelTableDepth(table, row[x], mask, matte, cmyk) <= r) &&
      (r == acc || exists x :: 0 <= x < n && r == PixelTableDepth(table, row[x], mask, matte, cmyk))
  {
    if n > 0 {
      RowTableIsMax(table, row, n - 1, acc, mask, matte, cmyk);
      var a := RowTable(table, row, n - 1, acc, mask, matte, cmyk);
      TableStepSplit(table, a, row[n - 1], mask, matte, cmyk);
      PixelTableDepthBounds(table, row[n - 1], mask, matte, cmyk);
    }
  }

  /** A bound on the readable pixels of the first `n - 1` rows that also bounds row
      `n - 1` (when it is readable) bounds the first `n` rows. */
  lemma BoundsExtend(table: nat -> nat, g: Grid, n: nat, row: seq<Pixel>, readFails: set<nat>,
                     acc: nat, r: nat, mask: ChannelMask, matte: bool, cmyk: bool)
    requires 0 < n <= |g| && row == g[n - 1] && acc <= r
    requires BoundsReadable(table, g, n - 1, readFails, acc, mask, matte, cmyk)
    requires n - 1 !in readFails ==>
      forall x :: 0 <= x < |row| ==> PixelTableDepth(table, row[x], mask, matte, cmyk) <= r
    ensures BoundsReadable(table, g, n, readFails, r, mask, matte, cmyk)
  {
    forall y, x | Readable(g, n, readFails, y, x)
      ensures PixelTableDepth(table, g[y][x], mask, matte, cmyk) <= r
    {
      if y < n - 1 {
        assert Readable(g, n - 1, readFails, y, x);
      }
    }
  }

  /** A depth attained among the first `n - 1` rows, or by a readable pixel of row
      `n - 1`, is attained among the first `n` rows. */
  lemma AttainedExtend(table: nat -> nat, g: Grid, n: nat, row: seq<Pixel>, readFails: set<nat>,
                       acc: nat, r: nat, mask: ChannelMask, matte: bool, cmyk: bool)
    requires 0 < n <= |g| && row == g[n - 1]
    requires AttainedReadable(table, g, n - 1, readFails, acc, mask, matte, cmyk)
    requires r == acc || (n - 1 !in readFails &&
      exists x :: 0 <= x < |row| && r == PixelTableDepth(table, row[x], mask, matte, cmyk))
    ensures AttainedReadable(table, g, n, readFails, r, mask, matte, cmyk)
  {
    if r != acc {
      var x :| 0 <= x < |row| && r == PixelTableDepth(table, row[x], mask, matte, cmyk);
      assert Readable(g, n, readFails, n - 1, x);
    } else if r != 1 {
      var y, x :| Readable(g, n - 1, readFails, y, x) &&
        r == PixelTableDepth(table, g[y][x], mask, matte, cmyk);
      assert Readable(g, n, readFails, y, x);
    }
  }

  /** Adding one row to a characterised prefix keeps the characterisation. */
  lemma TableDepthStep(table: nat -> nat, g: Grid, n: nat, mask: ChannelMask, matte: bool,
                       cmyk: bool, readFails: set<nat>)
    requires EntriesInRange(table) && 0 < n <= |g| && GridInRange(g)
    requires var acc := TableDepthUpTo(table, g, n - 1, mask, matte, cmyk, readFails);
      1 <= acc <= QuantumDepth &&
      BoundsReadable(table, g, n - 1, readFails, acc, mask, matte, cmyk) &&
      AttainedReadable(table, g, n - 1, readFails, acc, mask, matte, cmyk)
    ensures var r := TableDepthUpTo(table, g, n, mask, matte, cmyk, readFails);
      1 <= r <= QuantumDepth &&
      BoundsReadable(table, g, n, readFails, r, mask, matte, cmyk) &&
      AttainedReadable(table, g, n, readFails, r, mask, matte, cmyk)
  {
    var acc := TableDepthUpTo(table, g, n - 1, mask, matte, cmyk, readFails);
    var r := TableDepthUpTo(table, g, n, mask, matte, cmyk, readFails);
    var row := g[n - 1];
    assert forall x :: 0 <= x < |row| ==> PixelInRange(row[x]);
    if n - 1 !in readFails && acc == QuantumDepth {
      forall x | 0 <= x < |row|
        ensures PixelTableDepth(table, row[x], mask, matte, cmyk) <= r
      {
        PixelTableDepthBounds(table, row[x], mask, matte, cmyk);
      }
    } else if n - 1 !in readFails {
      RowTableIsMax(table, row, |row|, acc, mask, matte, cmyk);
    }
    BoundsExtend(table, g, n, row, readFails, acc, r, mask, matte, cmyk);
    AttainedExtend(table, g, n, row, readFails, acc, r, mask, matte, cmyk);
  }

  /** The table path is the maximum of 1 and the depths of every readable pixel, whatever
      the early stop skipped: its result bounds every readable pixel's depth and is 1 or
      one of them. */
  lemma {:induction false} TableDepthIsMax(table: nat -> nat, g: Grid, n: nat, mask: ChannelMask,
                                           matte: bool, cmyk: bool, readFails: set<nat>)
    requires EntriesInRange(table) && n <= |g| && GridInRange(g)
    ensures var r := TableDepthUpTo(table, g, n, mask, matte, cmyk, readFails);
      1 <= r <= QuantumDepth &&
      BoundsReadable(table, g, n, readFails, r, mask, matte, cmyk) &&
      AttainedReadable(table, g, n, readFails, r, mask, matte, cmyk)
  {
    if n > 0 {
      TableDepthIsMax(table, g, n - 1, mask, matte, cmyk, readFails);
      TableDepthStep(table, g, n, mask, matte, cmyk, readFails);
    }
  }

  /** The grid SetImageChannelDepth leaves when every row is rewritten. */
  function RescaleGrid(g: Grid, mask: ChannelMask, matte: bool, range: nat): (r: Grid)
    requires range >= 1
    ensures |r| == |g|
    ensures forall y :: 0 <= y < |g| ==> |r[y]| == |g[y]|
    ensures forall y, x :: 0 <= y < |g| && 0 <= x < |g[y]| ==>
      r[y][x] == RescalePixel(g[y][x], mask, matte, range)
  {
    seq(|g|, y requires 0 <= y < |g| =>
      seq(|g[y]|, x requires 0 <= x < |g[y]| => RescalePixel(g[y][x], mask, matte, range)))
  }

  /** A pixel rescaled to `depth` has a table depth of at most `depth`, as long as the
      table does not consult the index channel, which the rescale leaves alone. */
  lemma RescaledPixelTableDepth(p: Pixel, mask: ChannelMask, matte: bool, cmyk: bool, depth: nat)
    requires PixelInRange(p) && 1 <= depth < QuantumDepth && !(mask.index && cmyk)
    ensures PixelTableDepth(MinExactDepth, RescalePixel(p, mask, matte, GetQuantumRange(depth)),
                            mask, matte, cmyk) <= depth
  {
    var range := GetQuantumRange(depth);
    var q := RescalePixel(p, mask, matte, range);
    TableStepIsMax(MinExactDepth, 1, q, mask, matte, cmyk);
    RescaledValueDepth(p.red, depth);
    RescaledValueDepth(p.green, depth);
    RescaledValueDepth(p.blue, depth);
    RescaledValueDepth(p.opacity, depth);
  }

  /** Rescaling every row to `depth` below the quantum depth and then probing with the
      table path, on the same channels, reports at most `depth`. */
  lemma RescaledTableDepth(g: Grid, mask: ChannelMask, matte: bool, cmyk: bool, depth: nat,
                           readFails: set<nat>)
    requires GridInRange(g) && 1 <= depth < QuantumDepth && !(mask.index && cmyk)
    ensures TableDepth(MinExactDepth, RescaleGrid(g, mask, matte, GetQuantumRange(depth)), mask,
                       matte, cmyk, readFails) <= depth
  {
    var range := GetQuantumRange(depth);
    RangeBelowQuantumRange(depth);
    var h := RescaleGrid(g, mask, matte, range);
    forall y, x | 0 <= y < |h| && 0 <= x < |h[y]|
      ensures PixelInRange(h[y][x])
    {
      RescalePixelInRange(g[y][x], mask, matte, range);
    }
    MinExactDepthInRange();
    TableDepthIsMax(MinExactDepth, h, |h|, mask, matte, cmyk, readFails);
    var r := TableDepth(MinExactDepth, h, mask, matte, cmyk, readFails);
    if r != 1 {
      var y, x :| Readable(h, |h|, readFails, y, x) &&
        r == PixelTableDepth(MinExactDepth, h[y][x], mask, matte, cmyk);
      RescaledPixelTableDepth(g[y][x], mask, matte, cmyk, depth);
    }
  }

  /** Every readable pixel of `g1` also occurs, with the same value, as a readable pixel
      of `g2`. */
  ghost predicate ReadableValuesWithin(g1: Grid, f1: set<nat>, g2: Grid, f2: set<nat>)
  {
    forall y, x :: Readable(g1, |g1|, f1, y, x) ==>
      exists y', x' :: Readable(g2, |g2|, f2, y', x') && g2[y'][x'] == g1[y][x]
  }

  /** When the readable values of `g1` all occur in `g2`, the table path on `g1` reports
      no more than on `g2`. */
  lemma TableDepthWithin(table: nat -> nat, g1: Grid, f1: set<nat>, g2: Grid, f2: set<nat>,
                         mask: ChannelMask, matte: bool, cmyk: bool)
    requires EntriesInRange(table) && GridInRange(g1) && GridInRange(g2)
    requires ReadableValuesWithin(g1, f1, g2, f2)
    ensures TableDepth(table, g1, mask, matte, cmyk, f1) <= TableDepth(table, g2, mask, matte, cmyk, f2)
  {
    TableDepthIsMax(table, g1, |g1|, mask, matte, cmyk, f1);
    TableDepthIsMax(table, g2, |g2|, mask, matte, cmyk, f2);
    var r1 := TableDepth(table, g1, mask, matte, cmyk, f1);
    if r1 != 1 {
      var y, x :| Readable(g1, |g1|, f1, y, x) &&
        r1 == PixelTableDepth(table, g1[y][x], mask, matte, cmyk);
      var y', x' :| Readable(g2, |g2|, f2, y', x') && g2[y'][x'] == g1[y][x];
      assert PixelTableDepth(table, g2[y'][x'], mask, matte, cmyk) == r1;
    }
  }

  /** The table path depends only on the readable pixel values: two grids whose readable
      pixels take the same values, in whatever rows, order or multiplicity, give the same
      depth. */
  lemma TableDepthOrderIndependent(table: nat -> nat, g1: Grid, f1: set<nat>, g2: Grid,
                                   f2: set<nat>, mask: ChannelMask, matte: bool, cmyk: bool)
    requires EntriesInRange(table) && GridInRange(g1) && GridInRange(g2)
    requires ReadableValuesWithin(g1, f1, g2, f2) && ReadableValuesWithin(g2, f2, g1, f1)
    ensures TableDepth(table, g1, mask, matte, cmyk, f1) == TableDepth(table, g2, mask, matte, cmyk, f2)
  {
    TableDepthWithin(table, g1, f1, g2, f2, mask, matte, cmyk);
    TableDepthWithin(table, g2, f2, g1, f1, mask, matte, cmyk);
  }

  /** The table path without the early stop: every readable row is folded in. */
  function TableDepthNoStop(table: nat -> nat, g: Grid, n: nat, mask: ChannelMask, matte: bool,
                            cmyk: bool, readFails: set<nat>): nat
    requires n <= |g|
  {
    if n == 0 then 1
    else
      var acc := TableDepthNoStop(table, g, n - 1, mask, matte, cmyk, readFails);
      if n - 1 in readFails then acc
      else RowTable(table, g[n - 1], |g[n - 1]|, acc, mask, matte, cmyk)
  }

  /** Stopping once the accumulator reaches the quantum depth changes nothing. */
  lemma {:induction false} TableEarlyStopHarmless(table: nat -> nat, g: Grid, n: nat,
                                                  mask: ChannelMask, matte: bool, cmyk: bool,
                                                  readFails: set<nat>)
    requires EntriesInRange(table) && n <= |g| && GridInRange(g)
    ensures TableDepthUpTo(table, g, n, mask, matte, cmyk, readFails)
            == TableDepthNoStop(table, g, n, mask, matte, cmyk, readFails)
  {
    if n > 0 {
      TableEarlyStopHarmless(table, g, n - 1, mask, matte, cmyk, readFails);
      TableDepthIsMax(table, g, n - 1, mask, matte, cmyk, readFails);
      var acc := TableDepthUpTo(table, g, n - 1, mask, matte, cmyk, readFails);
      if acc == QuantumDepth && n - 1 !in readFails {
        RowTableIsMax(table, g[n - 1], |g[n - 1]|, acc, mask, matte, cmyk);
      }
    }
  }

  // ---------------------------------------------------------------------------------
  // The colormap and direct paths

  /** The channels a search step requires to be exact at `depth`: red, green and blue
      under the mask, and the index under the mask when `cmyk`. Opacity is not among
      them (see DirectPixelSearch). */
  predicate AllExact(p: Pixel, mask: ChannelMask, cmyk: bool, depth: nat)
    requires depth >= 1
  {
    (mask.red ==> ExactAt(p.red, depth)) && (mask.green ==> ExactAt(p.green, depth)) &&
    (mask.blue ==> ExactAt(p.blue, depth)) && (mask.index && cmyk ==> ExactAt(p.index, depth))
  }

  /** The search of one pixel or colormap entry: the least depth from `acc` upwards at
      which the searched channels are all exact, or the quantum depth. */
  function Search(acc: nat, p: Pixel, mask: ChannelMask, cmyk: bool): (r: nat)
    requires 1 <= acc <= QuantumDepth
    ensures acc <= r <= QuantumDepth
    decreases QuantumDepth - acc
  {
    if acc == QuantumDepth then acc
    else if AllExact(p, mask, cmyk, acc) then acc
    else Search(acc + 1, p, mask, cmyk)
  }

  /** The search ends at the first depth from `acc` at which the searched channels are all
      exact, and at the quantum depth only when there is none below it. */
  lemma {:induction false} SearchIsFirst(acc: nat, p: Pixel, mask: ChannelMask, cmyk: bool)
    requires 1 <= acc <= QuantumDepth
    ensures var r := Search(acc, p, mask, cmyk);
      (r < QuantumDepth ==> AllExact(p, mask, cmyk, r)) &&
      forall d :: acc <= d < r ==> !AllExact(p, mask, cmyk, d)
    decreases QuantumDepth - acc
  {
    if acc < QuantumDepth && !AllExact(p, mask, cmyk, acc) {
      SearchIsFirst(acc + 1, p, mask, cmyk);
    }
  }

  /** A search never ends below the table entry of a searched channel. */
  lemma SearchAboveTable(acc: nat, p: Pixel, mask: ChannelMask, cmyk: bool)
    requires 1 <= acc <= QuantumDepth && PixelInRange(p)
    ensures var r := Search(acc, p, mask, cmyk);
      (mask.red ==> MinExactDepth(p.red) <= r) && (mask.green ==> MinExactDepth(p.green) <= r) &&
      (mask.blue ==> MinExactDepth(p.blue) <= r) &&
      (mask.index && cmyk ==> MinExactDepth(p.index) <= r)
  {
    var r := Search(acc, p, mask, cmyk);
    SearchIsFirst(acc, p, mask, cmyk);
    MinExactDepthIsLeast(p.red, r);
    MinExactDepthIsLeast(p.green, r);
    MinExactDepthIsLeast(p.blue, r);
    MinExactDepthIsLeast(p.index, r);
  }

  /** The colormap path over the first `n` entries, from depth 1. */
  function ColormapDepthUpTo(cmap: seq<Pixel>, n: nat, mask: ChannelMask): (r: nat)
    requires n <= |cmap|
    ensures 1 <= r <= QuantumDepth
  {
    if n == 0 then 1 else Search(ColormapDepthUpTo(cmap, n - 1, mask), cmap[n - 1], mask, false)
  }

  /** The colormap accumulator only grows from entry to entry. */
  lemma {:induction false} ColormapDepthGrows(cmap: seq<Pixel>, m: nat, n: nat, mask: ChannelMask)
    requires m <= n <= |cmap|
    ensures ColormapDepthUpTo(cmap, m, mask) <= ColormapDepthUpTo(cmap, n, mask)
    decreases n
  {
    if m < n {
      ColormapDepthGrows(cmap, m, n - 1, mask);
    }
  }

  /** The colormap path reads only red, green and blue: entries that differ only in
      opacity and index give the same depth. */
  lemma {:induction false} ColormapIgnoresOpacityAndIndex(c1: seq<Pixel>, c2: seq<Pixel>, n: nat,
                                                          mask: ChannelMask)
    requires n <= |c1| == |c2|
    requires forall i :: 0 <= i < |c1| ==>
      c1[i].red == c2[i].red && c1[i].green == c2[i].green && c1[i].blue == c2[i].blue
    ensures ColormapDepthUpTo(c1, n, mask) == ColormapDepthUpTo(c2, n, mask)
  {
    if n > 0 {
      ColormapIgnoresOpacityAndIndex(c1, c2, n - 1, mask);
      var acc := ColormapDepthUpTo(c1, n - 1, mask);
      SearchSameChannels(acc, c1[n - 1], c2[n - 1], mask, false);
    }
  }

  /** Two pixels equal in every searched channel search to the same depth. */
  lemma {:induction false} SearchSameChannels(acc: nat, p: Pixel, q: Pixel, mask: ChannelMask, cmyk: bool)
    requires 1 <= acc <= QuantumDepth
    requires p.red == q.red && p.green == q.green && p.blue == q.blue
    requires cmyk ==> p.index == q.index
    ensures Search(acc, p, mask, cmyk) == Search(acc, q, mask, cmyk)
    decreases QuantumDepth - acc
  {
    if acc < QuantumDepth {
      assert AllExact(p, mask, cmyk, acc) == AllExact(q, mask, cmyk, acc);
      if !AllExact(p, mask, cmyk, acc) {
        SearchSameChannels(acc + 1, p, q, mask, cmyk);
      }
    }
  }

  /** The direct path over the first `n` pixels of a row. */
  function RowSearch(row: seq<Pixel>, n: nat, acc: nat, mask: ChannelMask, cmyk: bool): (r: nat)
    requires n <= |row| && 1 <= acc <= QuantumDepth
    ensures acc <= r <= QuantumDepth
  {
    if n == 0 then acc else Search(RowSearch(row, n - 1, acc, mask, cmyk), row[n - 1], mask, cmyk)
  }

  /** The direct path over the first `n` rows, from depth 1, skipping unreadable rows and
      every row after the accumulator reached the quantum depth. */
  function DirectDepthUpTo(g: Grid, n: nat, mask: ChannelMask, cmyk: bool,
                           readFails: set<nat>): (r: nat)
    requires n <= |g|
    ensures 1 <= r <= QuantumDepth
  {
    if n == 0 then 1
    else
      var acc := DirectDepthUpTo(g, n - 1, mask, cmyk, readFails);
      if acc == QuantumDepth || n - 1 in readFails then acc
      else RowSearch(g[n - 1], |g[n - 1]|, acc, mask, cmyk)
  }

  /** The direct path over the whole grid. */
  function DirectDepth(g: Grid, mask: ChannelMask, cmyk: bool, readFails: set<nat>): (d: nat)
    ensures 1 <= d <= QuantumDepth
  {
    DirectDepthUpTo(g, |g|, mask, cmyk, readFails)
  }

  /** The direct accumulator only grows from row to row. */
  lemma {:induction false} DirectDepthGrows(g: Grid, m: nat, n: nat, mask: ChannelMask, cmyk: bool,
                                            readFails: set<nat>)
    requires m <= n <= |g|
    ensures DirectDepthUpTo(g, m, mask, cmyk, readFails) <= DirectDepthUpTo(g, n, mask, cmyk, readFails)
    decreases n
  {
    if m < n {
      DirectDepthGrows(g, m, n - 1, mask, cmyk, readFails);
    }
  }

  /** The direct path never reports a smaller depth than the table path on the same
      channels (the table path with opacity left out, as the direct path leaves it out). */
  lemma {:induction false} RowTableAtMostRowSearch(row: seq<Pixel>, n: nat, a: nat, b: nat,
                                                   mask: ChannelMask, cmyk: bool)
    requires n <= |row| && 1 <= a <= b <= QuantumDepth
    requires forall x :: 0 <= x < |row| ==> PixelInRange(row[x])
    ensures RowTable(MinExactDepth, row, n, a, mask, false, cmyk) <= RowSearch(row, n, b, mask, cmyk)
  {
    if n > 0 {
      RowTableAtMostRowSearch(row, n - 1, a, b, mask, cmyk);
      MinExactDepthInRange();
      RowTableIsMax(MinExactDepth, row, n - 1, a, mask, false, cmyk);
      var a' := RowTable(MinExactDepth, row, n - 1, a, mask, false, cmyk);
      var b' := RowSearch(row, n - 1, b, mask, cmyk);
      SearchAboveTable(b', row[n - 1], mask, cmyk);
    }
  }

  /** The table path with the depth table GetImageChannelDepth builds reports a depth in
      [1, QuantumDepth]. */
  lemma TableDepthInRange(g: Grid, n: nat, mask: ChannelMask, cmyk: bool, readFails: set<nat>)
    requires n <= |g| && GridInRange(g)
    ensures 1 <= TableDepthUpTo(MinExactDepth, g, n, mask, false, cmyk, readFails) <= QuantumDepth
  {
    MinExactDepthInRange();
    TableDepthIsMax(MinExactDepth, g, n, mask, false, cmyk, readFails);
  }

  /** Over the whole grid, the table path (opacity left out) is at most the direct path. */
  lemma {:induction false} TableAtMostDirect(g: Grid, n: nat, mask: ChannelMask, cmyk: bool,
                                             readFails: set<nat>)
    requires n <= |g| && GridInRange(g)
    ensures TableDepthUpTo(MinExactDepth, g, n, mask, false, cmyk, readFails)
            <= DirectDepthUpTo(g, n, mask, cmyk, readFails)
  {
    if n > 0 {
      TableAtMostDirect(g, n - 1, mask, cmyk, readFails);
      TableDepthInRange(g, n - 1, mask, cmyk, readFails);
      TableDepthInRange(g, n, mask, cmyk, readFails);
      var a := TableDepthUpTo(MinExactDepth, g, n - 1, mask, false, cmyk, readFails);
      var b := DirectDepthUpTo(g, n - 1, mask, cmyk, readFails);
      if b < QuantumDepth && a < QuantumDepth && n - 1 !in readFails {
        RowTableAtMostRowSearch(g[n - 1], |g[n - 1]|, a, b, mask, cmyk);
      }
    }
  }

  /** The direct path never looks at opacity: grids that differ only in opacity give
      the same depth. */
  lemma {:induction false} DirectIgnoresOpacity(g1: Grid, g2: Grid, n: nat, mask: ChannelMask,
                                                cmyk: bool, readFails: set<nat>)
    requires n <= |g1| == |g2|
    requires forall y :: 0 <= y < |g1| ==> |g1[y]| == |g2[y]|
    requires forall y, x :: 0 <= y < |g1| && 0 <= x < |g1[y]| ==>
      g1[y][x].(opacity := 0) == g2[y][x].(opacity := 0)
    ensures DirectDepthUpTo(g1, n, mask, cmyk, readFails) == DirectDepthUpTo(g2, n, mask, cmyk, readFails)
  {
    if n > 0 {
      DirectIgnoresOpacity(g1, g2, n - 1, mask, cmyk, readFails);
      var acc := DirectDepthUpTo(g1, n - 1, mask, cmyk, readFails);
      if acc < QuantumDepth && n - 1 !in readFails {
        RowSearchIgnoresOpacity(g1[n - 1], g2[n - 1], |g1[n - 1]|, acc, mask, cmyk);
      }
    }
  }

  lemma {:induction false} RowSearchIgnoresOpacity(r1: seq<Pixel>, r2: seq<Pixel>, n: nat, acc: nat,
                                                   mask: ChannelMask, cmyk: bool)
    requires n <= |r1| == |r2| && 1 <= acc <= QuantumDepth
    requires forall x :: 0 <= x < |r1| ==> r1[x].(opacity := 0) == r2[x].(opacity := 0)
    ensures RowSearch(r1, n, acc, mask, cmyk) == RowSearch(r2, n, acc, mask, cmyk)
  {
    if n > 0 {
      RowSearchIgnoresOpacity(r1, r2, n - 1, acc, mask, cmyk);
      var p, q := r1[n - 1], r2[n - 1];
      assert p.(opacity := 0).red == q.(opacity := 0).red;
      assert p.(opacity := 0).index == q.(opacity := 0).index;
      SearchSameChannels(RowSearch(r1, n - 1, acc, mask, cmyk), p, q, mask, cmyk);
    }
  }

  // ---------------------------------------------------------------------------------
  // The probe itself

  /** The colormap path: each entry's search starts from the depth the previous entries
      reached. */
  method ColormapProbe(img: Image, mask: ChannelMask) returns (depth: nat)
    requires img.Valid()
    ensures depth == ColormapDepthUpTo(img.colormap[..], img.colormap.Length, mask)
  {
    depth := 1;
    var i := 0;
    while i < img.colormap.Length
      invariant 0 <= i <= img.colormap.Length
      invariant depth == ColormapDepthUpTo(img.colormap[..], i, mask)
    {
      var c := img.colormap[i];
      assert c == img.colormap[..][i];
      while depth < QuantumDepth
        invariant 1 <= depth <= QuantumDepth
        invariant Search(depth, c, mask, false) == ColormapDepthUpTo(img.colormap[..], i + 1, mask)
      {
        var range := GetQuantumRange(depth);
        var atDepth := true;
        if mask.red && !IsPixelAtDepth(c.red, range) {
          atDepth := false;
        }
        if atDepth && mask.green && !IsPixelAtDepth(c.green, range) {
          atDepth := false;
        }
        if atDepth && mask.blue && !IsPixelAtDepth(c.blue, range) {
          atDepth := false;
        }
        if atDepth {
          break;
        }
        depth := depth + 1;
      }
      i := i + 1;
    }
  }

  /** The search of one pixel on the direct path, as written: a failing opacity check
      sets `atDepth` to true, so opacity never holds the search back. */
  method DirectPixelSearch(acc: nat, p: Pixel, mask: ChannelMask, matte: bool, cmyk: bool)
    returns (depth: nat)
    requires 1 <= acc <= QuantumDepth
    ensures depth == Search(acc, p, mask, cmyk)
  {
    depth := acc;
    while depth < QuantumDepth
      invariant acc <= depth <= QuantumDepth
      invariant Search(depth, p, mask, cmyk) == Search(acc, p, mask, cmyk)
    {
      var range := GetQuantumRange(depth);
      var atDepth := true;
      if atDepth && mask.red && !IsPixelAtDepth(p.red, range) {
        atDepth := false;
      }
      if atDepth && mask.green && !IsPixelAtDepth(p.green, range) {
        atDepth := false;
      }
      if atDepth && mask.blue && !IsPixelAtDepth(p.blue, range) {
        atDepth := false;
      }
      if atDepth && mask.opacity && matte && !IsPixelAtDepth(p.opacity, range) {
        atDepth := true;
      }
      if atDepth && mask.index && cmyk && !IsPixelAtDepth(p.index, range) {
        atDepth := false;
      }
      if atDepth {
        break;
      }
      depth := depth + 1;
    }
  }

  /** One row of the direct path: each pixel searched from the depth the previous
      pixels reached. */
  method DirectRow(img: Image, ghost g: Grid, y: nat, acc: nat, mask: ChannelMask, cmyk: bool)
    returns (depth: nat)
    requires img.Valid() && g == img.Grid() && y < img.rows && 1 <= acc <= QuantumDepth
    ensures depth == RowSearch(g[y], |g[y]|, acc, mask, cmyk)
  {
    ghost var row := g[y];
    depth := acc;
    var x := 0;
    while x < img.columns
      invariant 0 <= x <= img.columns
      invariant depth == RowSearch(row, x, acc, mask, cmyk)
    {
      depth := DirectPixelSearch(depth, img.pixels[y, x], mask, img.matte, cmyk);
      x := x + 1;
    }
  }

  /** The direct path: rows in order, each pixel searched from the running depth; an
      unreadable row is skipped, and a row after which the depth is the quantum depth
      ends the scan. */
  method DirectProbe(img: Image, mask: ChannelMask, readFails: set<nat>) returns (depth: nat)
    requires img.Valid()
    ensures depth == DirectDepth(img.Grid(), mask, img.colorspace == CMYKColorspace, readFails)
  {
    ghost var g := img.Grid();
    var cmyk := img.colorspace == CMYKColorspace;
    var status := true;
    depth := 1;
    var y := 0;
    while y < img.rows
      invariant 0 <= y <= img.rows == |g|
      invariant depth == DirectDepthUpTo(g, y, mask, cmyk, readFails)
      invariant 1 <= depth <= QuantumDepth
      invariant status <==> depth != QuantumDepth
    {
      if status && y !in readFails {
        depth := DirectRow(img, g, y, depth, mask, cmyk);
        if depth == QuantumDepth {
          status := false;
        }
      }
      y := y + 1;
    }
  }

  /** One pixel of the table path, read through the depth table `m`, whose entries for
      valid quanta are those of `table`. */
  method TablePixel(ghost table: nat -> nat, acc: nat, p: Pixel, m: array<nat>, mask: ChannelMask,
                    matte: bool, cmyk: bool)
    returns (depth: nat)
    requires PixelInRange(p) && m.Length > QuantumRange
    requires forall v :: 0 <= v <= QuantumRange ==> m[v] == table(v)
    ensures depth == TableStep(table, acc, p, mask, matte, cmyk)
  {
    depth := RaiseThrough(table, acc, mask.red, p.red, m);
    depth := RaiseThrough(table, depth, mask.green, p.green, m);
    depth := RaiseThrough(table, depth, mask.blue, p.blue, m);
    depth := RaiseThrough(table, depth, mask.opacity && matte, p.opacity, m);
    depth := RaiseThrough(table, depth, mask.index && cmyk, p.index, m);
  }

  /** One channel of a table step, read through the depth table. */
  method RaiseThrough(ghost table: nat -> nat, acc: nat, selected: bool, v: nat, m: array<nat>)
    returns (depth: nat)
    requires v <= QuantumRange && m.Length > QuantumRange
    requires forall w :: 0 <= w <= QuantumRange ==> m[w] == table(w)
    ensures depth == Raise(table, acc, selected, v)
  {
    depth := acc;
    if selected && m[v] > depth {
      depth := m[v];
    }
  }

  /** One row of the table path. */
  method TableRow(ghost table: nat -> nat, img: Image, ghost g: Grid, y: nat, acc: nat,
                  m: array<nat>, mask: ChannelMask, cmyk: bool)
    returns (depth: nat)
    requires img.Valid() && g == img.Grid() && y < img.rows && m.Length > QuantumRange
    requires forall v :: 0 <= v <= QuantumRange ==> m[v] == table(v)
    ensures depth == RowTable(table, g[y], |g[y]|, acc, mask, img.matte, cmyk)
  {
    ghost var row := g[y];
    depth := acc;
    var x := 0;
    while x < img.columns
      invariant 0 <= x <= img.columns
      invariant depth == RowTable(table, row, x, acc, mask, img.matte, cmyk)
    {
      depth := TablePixel(table, depth, img.pixels[y, x], m, mask, img.matte, cmyk);
      x := x + 1;
    }
  }

  /** The table path: rows in order, every consulted channel raising the running depth
      to its table entry; an unreadable row is skipped, and a row after which the depth
      is the quantum depth ends the scan. */
  method TableProbe(ghost table: nat -> nat, img: Image, mask: ChannelMask, m: array<nat>,
                    readFails: set<nat>)
    returns (depth: nat)
    requires img.Valid() && m.Length > QuantumRange
    requires forall v :: 0 <= v <= QuantumRange ==> m[v] == table(v)
    ensures depth == TableDepth(table, img.Grid(), mask, img.matte,
                                img.colorspace == CMYKColorspace, readFails)
  {
    ghost var g := img.Grid();
    var cmyk := img.colorspace == CMYKColorspace;
    var status := true;
    depth := 1;
    var y := 0;
    while y < img.rows
      invariant 0 <= y <= img.rows == |g|
      invariant depth == TableDepthUpTo(table, g, y, mask, img.matte, cmyk, readFails)
      invariant status <==> depth != QuantumDepth
    {
      if status && y !in readFails {
        depth := TableRow(table, img, g, y, depth, m, mask, cmyk);
        if depth == QuantumDepth {
          status := false;
        }
      }
      y := y + 1;
    }
  }

  /** Which path GetImageChannelDepth takes and what it computes. */
  ghost function ChannelDepthSpec(img: Image, mask: ChannelMask, maxMap: nat,
                                  readFails: set<nat>): nat
    reads img, img.pixels, img.colormap
  {
    if img.storageClass == PseudoClass && !img.matte then
      ColormapDepthUpTo(img.colormap[..], img.colormap.Length, mask)
    else if QuantumRange <= maxMap then
      TableDepth(MinExactDepth, img.Grid(), mask, img.matte, img.colorspace == CMYKColorspace,
                 readFails)
    else
      DirectDepth(img.Grid(), mask, img.colorspace == CMYKColorspace, readFails)
  }

  /** GetImageChannelDepth: the colormap path for a PseudoClass image without matte;
      otherwise the table path when the quantum range fits in `maxMap`, else the direct
      path. The result always lies in [1, QuantumDepth]. */
  method GetImageChannelDepth(img: Image, mask: ChannelMask, maxMap: nat, readFails: set<nat>)
    returns (depth: nat)
    requires img.Valid()
    ensures depth == ChannelDepthSpec(img, mask, maxMap, readFails)
    ensures 1 <= depth <= QuantumDepth
  {
    if img.storageClass == PseudoClass && !img.matte {
      depth := ColormapProbe(img, mask);
      return;
    }
    ghost var g := img.Grid();
    assert GridInRange(g);
    if QuantumRange <= maxMap {
      var m := BuildDepthMap(maxMap);
      depth := TableProbe(MinExactDepth, img, mask, m, readFails);
      MinExactDepthInRange();
      TableDepthIsMax(MinExactDepth, g, |g|, mask, img.matte, img.colorspace == CMYKColorspace,
                      readFails);
      return;
    }
    depth := DirectProbe(img, mask, readFails);
  }

  /** GetImageDepth: GetImageChannelDepth over all channels. */
  method GetImageDepth(img: Image, maxMap: nat, readFails: set<nat>) returns (depth: nat)
    requires img.Valid()
    ensures depth == ChannelDepthSpec(img, CompositeChannels, maxMap, readFails)
    ensures 1 <= depth <= QuantumDepth
  {
    depth := GetImageChannelDepth(img, CompositeChannels, maxMap, readFails);
  }
}
