/** The percent-background trim: the edge census (the fraction of a strip's pixels that
    differ from the background) and the erosion loop of GetEdgeBoundingBox, which peels
    the edge with the least non-background content one row or column at a time until
    every edge holds enough non-background pixels. */
module EdgeCensus {
  import opened MagickTypes
  import opened Images

  /** MagickEpsilon. */
  const Epsilon: real := 0.000000000001

  function Abs(v: real): real
  {
    if v < 0.0 then -v else v
  }

  function Min(a: int, b: int): int
  {
    if a < b then a else b
  }

  function Max(a: int, b: int): int
  {
    if a < b then b else a
  }

  /** The corner whose pixel is the reference background of a census taken with
      `gravity`. */
  function CornerOf(gravity: Gravity, columns: nat, rows: nat): (c: (nat, nat))
    requires columns >= 1 && rows >= 1
    ensures c.0 < columns && c.1 < rows
  {
    match gravity
    case NorthWestGravity => (0, 0)
    case NorthGravity => (0, 0)
    case NorthEastGravity => (columns - 1, 0)
    case EastGravity => (columns - 1, 0)
    case SouthEastGravity => (columns - 1, rows - 1)
    case SouthGravity => (columns - 1, rows - 1)
    case SouthWestGravity => (0, rows - 1)
    case WestGravity => (0, rows - 1)
  }

  /** The background a census compares against: the corner pixel, overridden by the
      `background` artifact, overridden in turn by `trim:background-color`. */
  function Background(corner: Pixel, backgroundArtifact: Option<Pixel>,
                      trimArtifact: Option<Pixel>): (bg: Pixel)
    ensures trimArtifact.Some? ==> bg == trimArtifact.value
    ensures trimArtifact.None? && backgroundArtifact.Some? ==> bg == backgroundArtifact.value
    ensures trimArtifact.None? && backgroundArtifact.None? ==> bg == corner
  {
    if trimArtifact.Some? then trimArtifact.value
    else if backgroundArtifact.Some? then backgroundArtifact.value
    else corner
  }

  /** A pixel as the census sees it: read without its index queue, so the black channel
      of a CMYK image is left at the default 0. */
  function Unindexed(p: Pixel): (q: Pixel)
    ensures q.red == p.red && q.green == p.green && q.blue == p.blue
    ensures q.opacity == p.opacity && q.index == 0
  {
    p.(index := 0)
  }

  /** The pixels of `row` in columns [lo, hi) that are not similar to `bg`, each compared
      without its index. */
  function CountSpan(row: seq<Pixel>, lo: nat, hi: nat, bg: Pixel, similar: (Pixel, Pixel) -> bool)
    : (n: nat)
    requires lo <= hi <= |row|
    ensures n <= hi - lo
    decreases hi
  {
    if hi == lo then 0
    else CountSpan(row, lo, hi - 1, bg, similar) + (if similar(Unindexed(row[hi - 1]), bg) then 0 else 1)
  }

  /** The pixels of `g` in columns [xlo, xhi) and rows [ylo, yhi) not similar to `bg`,
      each compared without its index. */
  function CountRect(g: Grid, columns: nat, xlo: nat, xhi: nat, ylo: nat, yhi: nat, bg: Pixel,
                     similar: (Pixel, Pixel) -> bool): (n: nat)
    requires IsRectangular(g, columns) && xlo <= xhi <= columns && ylo <= yhi <= |g|
    ensures n <= (xhi - xlo) * (yhi - ylo)
    decreases yhi
  {
    if yhi == ylo then 0
    else
      var n := CountRect(g, columns, xlo, xhi, ylo, yhi - 1, bg, similar);
      var k := CountSpan(g[yhi - 1], xlo, xhi, bg, similar);
      assert (xhi - xlo) * (yhi - ylo) == (xhi - xlo) * (yhi - 1 - ylo) + (xhi - xlo);
      n + k
  }

  /** The strip [x, x + width) x [y, y + height) clipped to the image. */
  datatype Span = Span(lo: nat, hi: nat)

  function Clip(start: int, extent: nat, limit: nat): (s: Span)
    ensures s.lo <= s.hi <= limit
  {
    var lo := Max(start, 0);
    var hi := Min(start + extent, limit);
    if lo < hi then Span(lo, hi) else Span(0, 0)
  }

  /** What a census compares against besides the pixels: the colour similarity test, the
      rows of the image whose reads fail, the rows of the image whose copies in a cropped
      strip fail to read, and the `background` and `trim:background-color` artifacts. */
  datatype CensusSettings = CensusSettings(similar: (Pixel, Pixel) -> bool, readFails: set<nat>,
                                           cropReadFails: set<nat>,
                                           background: Option<Pixel>,
                                           trimBackground: Option<Pixel>)

  /** A grid the census can work on: at least one row and one column, all rows alike. */
  predicate WellFormed(g: Grid, columns: nat)
  {
    columns >= 1 && |g| >= 1 && IsRectangular(g, columns)
  }

  /** The reference background of a census taken with `gravity`: the corner pixel is
      read without its index. */
  function BackgroundFor(g: Grid, columns: nat, gravity: Gravity, t: CensusSettings): Pixel
    requires WellFormed(g, columns)
  {
    var corner := CornerOf(gravity, columns, |g|);
    Background(Unindexed(g[corner.1][corner.0]), t.background, t.trimBackground)
  }

  /** The row at which the census of the clipped rows [lo, hi) stops: the first whose copy
      in the crop fails to read, or `hi`. */
  function CropStop(ys: Span, t: CensusSettings): (stop: nat)
    requires ys.lo <= ys.hi
    ensures ys.lo <= stop <= ys.hi
    ensures forall y :: ys.lo <= y < stop ==> y !in t.cropReadFails
    ensures stop < ys.hi ==> stop in t.cropReadFails
  {
    FirstFailure(ys.lo, ys.hi, t.cropReadFails)
  }

  /** GetEdgeBackgroundCensus: 0 when the reference corner cannot be read; otherwise the
      number of the strip's pixels that are not similar to the background, counted in the
      rows before the first crop row that fails to read, divided by the whole strip's
      size; 0 for a strip with no pixels. */
  function CensusOf(g: Grid, columns: nat, gravity: Gravity, strip: Rectangle,
                    t: CensusSettings): (c: real)
    requires WellFormed(g, columns)
    ensures 0.0 <= c <= 1.0
  {
    if CornerOf(gravity, columns, |g|).1 in t.readFails then 0.0
    else
      var xs := Clip(strip.x, strip.width, columns);
      var ys := Clip(strip.y, strip.height, |g|);
      var size := (xs.hi - xs.lo) * (ys.hi - ys.lo);
      if size == 0 then 0.0
      else
        var stop := CropStop(ys, t);
        var n := CountRect(g, columns, xs.lo, xs.hi, ys.lo, stop,
                           BackgroundFor(g, columns, gravity, t), t.similar);
        MulMonotoneLeft(xs.hi - xs.lo, stop - ys.lo, ys.hi - ys.lo);
        Fraction(n, size)
  }

  /** n / size as a real, which lies in [0, 1] when n <= size. */
  function Fraction(n: nat, size: nat): (f: real)
    requires 0 < size && n <= size
    ensures 0.0 <= f <= 1.0
    ensures f == 0.0 <==> n == 0
    ensures f == 1.0 <==> n == size
  {
    (n as real) / (size as real)
  }

  /** A census counts exactly the strip's non-background pixels in the rows it reads: it
      is 0 iff every pixel of a non-empty strip inside the image, up to the first crop row
      that fails to read, is similar to the background, and 1 iff every row reads and no
      pixel is similar. */
  lemma CensusZeroIffAllBackground(g: Grid, columns: nat, gravity: Gravity, strip: Rectangle,
                                   t: CensusSettings)
    requires WellFormed(g, columns)
    requires 1 <= strip.width && 1 <= strip.height && 0 <= strip.x && 0 <= strip.y
    requires strip.x + strip.width <= columns && strip.y + strip.height <= |g|
    requires CornerOf(gravity, columns, |g|).1 !in t.readFails
    ensures var bg := BackgroundFor(g, columns, gravity, t);
      var stop := CropStop(Span(strip.y, strip.y + strip.height), t);
      (CensusOf(g, columns, gravity, strip, t) == 0.0
       <==> forall y, x :: strip.y <= y < stop && strip.x <= x < strip.x + strip.width
                           ==> t.similar(Unindexed(g[y][x]), bg)) &&
      (CensusOf(g, columns, gravity, strip, t) == 1.0
       <==> stop == strip.y + strip.height &&
            forall y, x :: strip.y <= y < strip.y + strip.height && strip.x <= x < strip.x + strip.width
                           ==> !t.similar(Unindexed(g[y][x]), bg))
  {
    var bg := BackgroundFor(g, columns, gravity, t);
    var xlo, xhi, ylo, yhi := strip.x, strip.x + strip.width, strip.y, strip.y + strip.height;
    assert Clip(strip.x, strip.width, columns) == Span(xlo, xhi);
    assert Clip(strip.y, strip.height, |g|) == Span(ylo, yhi);
    var stop := CropStop(Span(ylo, yhi), t);
    var n := CountRect(g, columns, xlo, xhi, ylo, stop, bg, t.similar);
    CountRectZero(g, columns, xlo, xhi, ylo, stop, bg, t.similar);
    CountRectFull(g, columns, xlo, xhi, ylo, stop, bg, t.similar);
    if stop < yhi {
      MulMonotoneLeft(xhi - xlo, stop - ylo, yhi - 1 - ylo);
      assert (xhi - xlo) * (yhi - ylo) == (xhi - xlo) * (yhi - 1 - ylo) + (xhi - xlo);
      assert n < (xhi - xlo) * (yhi - ylo);
    }
  }

  lemma {:induction false} CountSpanZero(row: seq<Pixel>, lo: nat, hi: nat, bg: Pixel,
                                         similar: (Pixel, Pixel) -> bool)
    requires lo <= hi <= |row|
    ensures CountSpan(row, lo, hi, bg, similar) == 0 <==> forall x :: lo <= x < hi ==> similar(Unindexed(row[x]), bg)
    decreases hi
  {
    if hi > lo {
      CountSpanZero(row, lo, hi - 1, bg, similar);
    }
  }

  lemma {:induction false} CountRectZero(g: Grid, columns: nat, xlo: nat, xhi: nat, ylo: nat,
                                         yhi: nat, bg: Pixel, similar: (Pixel, Pixel) -> bool)
    requires IsRectangular(g, columns) && xlo <= xhi <= columns && ylo <= yhi <= |g|
    ensures CountRect(g, columns, xlo, xhi, ylo, yhi, bg, similar) == 0
            <==> forall y, x :: ylo <= y < yhi && xlo <= x < xhi ==> similar(Unindexed(g[y][x]), bg)
    decreases yhi
  {
    if yhi > ylo {
      CountRectZero(g, columns, xlo, xhi, ylo, yhi - 1, bg, similar);
      CountSpanZero(g[yhi - 1], xlo, xhi, bg, similar);
    }
  }

  lemma {:induction false} CountSpanFull(row: seq<Pixel>, lo: nat, hi: nat, bg: Pixel,
                                         similar: (Pixel, Pixel) -> bool)
    requires lo <= hi <= |row|
    ensures CountSpan(row, lo, hi, bg, similar) == hi - lo
            <==> forall x :: lo <= x < hi ==> !similar(Unindexed(row[x]), bg)
    decreases hi
  {
    if hi > lo {
      CountSpanFull(row, lo, hi - 1, bg, similar);
    }
  }

  lemma {:induction false} CountRectFull(g: Grid, columns: nat, xlo: nat, xhi: nat, ylo: nat,
                                         yhi: nat, bg: Pixel, similar: (Pixel, Pixel) -> bool)
    requires IsRectangular(g, columns) && xlo <= xhi <= columns && ylo <= yhi <= |g|
    ensures CountRect(g, columns, xlo, xhi, ylo, yhi, bg, similar) == (xhi - xlo) * (yhi - ylo)
            <==> forall y, x :: ylo <= y < yhi && xlo <= x < xhi ==> !similar(Unindexed(g[y][x]), bg)
    decreases yhi
  {
    if yhi > ylo {
      CountRectFull(g, columns, xlo, xhi, ylo, yhi - 1, bg, similar);
      CountSpanFull(g[yhi - 1], xlo, xhi, bg, similar);
      assert (xhi - xlo) * (yhi - ylo) == (xhi - xlo) * (yhi - 1 - ylo) + (xhi - xlo);
    }
  }

  /** A strip of more rows holds more pixels. */
  lemma MulMonotoneLeft(a: nat, b: nat, c: nat)
    requires b <= c
    ensures a * b <= a * c
  {
  }

  /** GetEdgeBackgroundCensus over the pixels of the cloned image, counting row by row. */
  method GetEdgeBackgroundCensus(clone: Grid, columns: nat, gravity: Gravity, strip: Rectangle,
                                 t: CensusSettings)
    returns (census: real)
    requires WellFormed(clone, columns)
    ensures census == CensusOf(clone, columns, gravity, strip, t)
  {
    var corner := CornerOf(gravity, columns, |clone|);
    if corner.1 in t.readFails {
      return 0.0;
    }
    var bg := Background(Unindexed(clone[corner.1][corner.0]), t.background, t.trimBackground);
    var xs := Clip(strip.x, strip.width, columns);
    var ys := Clip(strip.y, strip.height, |clone|);
    var size := (xs.hi - xs.lo) * (ys.hi - ys.lo);
    if size == 0 {
      return 0.0;
    }
    ghost var stop := CropStop(ys, t);
    var count := 0;
    var row := ys.lo;
    while row < ys.hi
      invariant ys.lo <= row <= stop
      invariant count == CountRect(clone, columns, xs.lo, xs.hi, ys.lo, row, bg, t.similar)
    {
      if row in t.cropReadFails {
        break;
      }
      var rowCount := 0;
      var col := xs.lo;
      while col < xs.hi
        invariant xs.lo <= col <= xs.hi
        invariant rowCount == CountSpan(clone[row], xs.lo, col, bg, t.similar)
      {
        if !t.similar(Unindexed(clone[row][col]), bg) {
          rowCount := rowCount + 1;
        }
        col := col + 1;
      }
      count := count + rowCount;
      row := row + 1;
    }
    assert row == stop;
    MulMonotoneLeft(xs.hi - xs.lo, stop - ys.lo, ys.hi - ys.lo);
    census := Fraction(count, size);
  }

  /** CloneImage, as far as the census needs it: the pixels, row by row. */
  method ClonePixels(img: Image) returns (clone: Grid)
    requires img.Valid()
    ensures clone == img.Grid()
  {
    clone := [];
    var y := 0;
    while y < img.rows
      invariant 0 <= y <= img.rows
      invariant |clone| == y
      invariant forall yy :: 0 <= yy < y ==> clone[yy] == img.Grid()[yy]
    {
      var row := [];
      var x := 0;
      while x < img.columns
        invariant 0 <= x <= img.columns
        invariant |row| == x
        invariant forall xx :: 0 <= xx < x ==> row[xx] == img.pixels[y, xx]
      {
        row := row + [img.pixels[y, x]];
        x := x + 1;
      }
      assert row == img.Grid()[y];
      clone := clone + [row];
      y := y + 1;
    }
  }

  /** The four edge censuses. */
  datatype CensusInfo = CensusInfo(left: real, right: real, top: real, bottom: real)

  /** GetMinEdgeBackgroundCensus: the least of the four edge censuses. */
  function GetMinEdgeBackgroundCensus(edge: CensusInfo): (c: real)
    ensures c <= edge.left && c <= edge.right && c <= edge.top && c <= edge.bottom
    ensures c == edge.left || c == edge.right || c == edge.top || c == edge.bottom
  {
    var lr := if edge.left < edge.right then edge.left else edge.right;
    var lrt := if lr < edge.top then lr else edge.top;
    if lrt < edge.bottom then lrt else edge.bottom
  }

  /** The erosion threshold: one minus the `trim:percent-background` fraction (1 when
      unset), clamped to [Epsilon, 1]. */
  function Threshold(percentArtifact: Option<real>): (t: real)
    ensures Epsilon <= t <= 1.0
    ensures percentArtifact.None? ==> t == Epsilon
    ensures percentArtifact.Some? && Epsilon <= 1.0 - percentArtifact.value / 100.0 <= 1.0 ==>
      t == 1.0 - percentArtifact.value / 100.0
  {
    var percent := if percentArtifact.Some? then percentArtifact.value / 100.0 else 1.0;
    var lower := if 1.0 - percent > Epsilon then 1.0 - percent else Epsilon;
    if lower < 1.0 then lower else 1.0
  }

  /** The four strips the loop measures of a rectangle: its leftmost and rightmost
      columns and its top and bottom rows. GravityAdjustGeometry places the right strip
      `vertex.right` columns from the right edge of the image and the bottom strip
      `vertex.bottom` rows from its bottom edge, which are these same columns and rows. */
  function LeftStrip(r: Rectangle): Rectangle
  {
    Rectangle(1, r.height, r.x, r.y)
  }

  function RightStrip(r: Rectangle): Rectangle
  {
    Rectangle(1, r.height, r.x + r.width - 1, r.y)
  }

  function TopStrip(r: Rectangle): Rectangle
  {
    Rectangle(r.width, 1, r.x, r.y)
  }

  function BottomStrip(r: Rectangle): Rectangle
  {
    Rectangle(r.width, 1, r.x, r.y + r.height - 1)
  }

  /** Two gravities with the same reference corner give the same census. */
  lemma SameCornerSameCensus(g: Grid, columns: nat, g1: Gravity, g2: Gravity, strip: Rectangle,
                             t: CensusSettings)
    requires WellFormed(g, columns)
    requires CornerOf(g1, columns, |g|) == CornerOf(g2, columns, |g|)
    ensures CensusOf(g, columns, g1, strip, t) == CensusOf(g, columns, g2, strip, t)
  {
  }

  /** A census of every strip against every gravity's reference corner. The erosion loop
      is stated over such a function; `Census` is the one the image gives. */
  type CensusFn = (Gravity, Rectangle) -> real

  /** The census GetEdgeBackgroundCensus takes of a grid, as a function of gravity and strip. */
  function Census(g: Grid, columns: nat, t: CensusSettings): (census: CensusFn)
    requires WellFormed(g, columns)
    ensures forall gravity, strip :: census(gravity, strip) == CensusOf(g, columns, gravity, strip, t)
  {
    (gravity: Gravity, strip: Rectangle) => CensusOf(g, columns, gravity, strip, t)
  }

  /** East and NorthEast, and North and NorthWest, name the same reference corner. */
  ghost predicate CornersAgree(census: CensusFn)
  {
    forall strip :: census(EastGravity, strip) == census(NorthEastGravity, strip) &&
                    census(NorthGravity, strip) == census(NorthWestGravity, strip)
  }

  /** The image's census takes East and NorthEast, and North and NorthWest, alike. */
  lemma CensusCornersAgree(g: Grid, columns: nat, t: CensusSettings)
    requires WellFormed(g, columns)
    ensures CornersAgree(Census(g, columns, t))
  {
    var census := Census(g, columns, t);
    forall strip
      ensures census(EastGravity, strip) == census(NorthEastGravity, strip) &&
              census(NorthGravity, strip) == census(NorthWestGravity, strip)
    {
      SameCornerSameCensus(g, columns, EastGravity, NorthEastGravity, strip, t);
      SameCornerSameCensus(g, columns, NorthGravity, NorthWestGravity, strip, t);
    }
  }

  /** Every edge of `r` holds at least `threshold` non-background content. The left and
      bottom edges may still carry the census taken before the loop, against the West
      (bottom-left) or South (bottom-right) corner rather than the NorthWest or
      SouthWest one the loop uses. */
  ghost predicate EdgesSettled(census: CensusFn, r: Rectangle, threshold: real)
  {
    (census(WestGravity, LeftStrip(r)) >= threshold ||
     census(NorthWestGravity, LeftStrip(r)) >= threshold) &&
    census(NorthEastGravity, RightStrip(r)) >= threshold &&
    census(NorthWestGravity, TopStrip(r)) >= threshold &&
    (census(SouthGravity, BottomStrip(r)) >= threshold ||
     census(SouthWestGravity, BottomStrip(r)) >= threshold)
  }

  /** The state of the erosion loop: how far each edge has been trimmed, the size of
      what remains, and the census last taken of each edge. */
  datatype Erosion = Erosion(vLeft: nat, vRight: nat, vTop: nat, vBottom: nat,
                             width: nat, height: nat,
                             left: real, right: real, top: real, bottom: real)

  /** The rectangle an erosion state leaves. */
  function Remaining(s: Erosion): Rectangle
  {
    Rectangle(s.width, s.height, s.vLeft, s.vTop)
  }

  /** The loop's invariant on a `columns` x `rows` image: the trims and the remaining size
      add up to the image, and each census is the census of the matching edge of what
      remains, against the corner of the first measurement (West, East, North, South) or
      of the loop's re-measurements (NorthWest, NorthEast, NorthWest, SouthWest). */
  ghost predicate Tracks(census: CensusFn, columns: nat, rows: nat, s: Erosion)
  {
    var r := Remaining(s);
    s.vLeft + s.vRight + s.width == columns && s.vTop + s.vBottom + s.height == rows &&
    (s.left == census(WestGravity, LeftStrip(r)) ||
     s.left == census(NorthWestGravity, LeftStrip(r))) &&
    (s.right == census(EastGravity, RightStrip(r)) ||
     s.right == census(NorthEastGravity, RightStrip(r))) &&
    (s.top == census(NorthGravity, TopStrip(r)) ||
     s.top == census(NorthWestGravity, TopStrip(r))) &&
    (s.bottom == census(SouthGravity, BottomStrip(r)) ||
     s.bottom == census(SouthWestGravity, BottomStrip(r)))
  }

  /** A tracked state whose four censuses all reach the threshold has settled edges. */
  lemma SettledWhenAllReach(census: CensusFn, columns: nat, rows: nat, s: Erosion,
                            threshold: real)
    requires CornersAgree(census) && Tracks(census, columns, rows, s)
    requires s.left >= threshold && s.right >= threshold && s.top >= threshold && s.bottom >= threshold
    ensures EdgesSettled(census, Remaining(s), threshold)
  {
    var r := Remaining(s);
    assert census(EastGravity, RightStrip(r)) == census(NorthEastGravity, RightStrip(r));
    assert census(NorthGravity, TopStrip(r)) == census(NorthWestGravity, TopStrip(r));
  }

  /** The state before the loop: nothing trimmed, each edge of the whole image measured
      against the West, East, North and South corners. */
  function Measured(census: CensusFn, columns: nat, rows: nat): Erosion
  {
    var whole := Rectangle(columns, rows, 0, 0);
    Erosion(0, 0, 0, 0, columns, rows,
            census(WestGravity, LeftStrip(whole)),
            census(EastGravity, RightStrip(whole)),
            census(NorthGravity, TopStrip(whole)),
            census(SouthGravity, BottomStrip(whole)))
  }

  lemma MeasuredTracks(census: CensusFn, columns: nat, rows: nat)
    ensures Tracks(census, columns, rows, Measured(census, columns, rows))
  {
    assert Remaining(Measured(census, columns, rows)) == Rectangle(columns, rows, 0, 0);
  }

  /** An edge of the remaining rectangle. */
  datatype Edge = LeftEdge | RightEdge | TopEdge | BottomEdge

  /** The least census of a state. */
  function LeastCensus(s: Erosion): real
  {
    GetMinEdgeBackgroundCensus(CensusInfo(s.left, s.right, s.top, s.bottom))
  }

  predicate AtLeast(census: real, least: real)
  {
    Abs(census - least) < Epsilon
  }

  /** The edge an iteration trims: the first of left, right, top and bottom whose census is
      within Epsilon of the least one. There always is one, since the least census is one
      of the four. */
  function ChooseEdge(s: Erosion): (e: Edge)
    ensures e == LeftEdge <==> AtLeast(s.left, LeastCensus(s))
    ensures e == RightEdge <==> !AtLeast(s.left, LeastCensus(s)) && AtLeast(s.right, LeastCensus(s))
    ensures e == TopEdge <==> !AtLeast(s.left, LeastCensus(s)) && !AtLeast(s.right, LeastCensus(s)) &&
                              AtLeast(s.top, LeastCensus(s))
    ensures e == BottomEdge ==> AtLeast(s.bottom, LeastCensus(s))
  {
    var least := LeastCensus(s);
    if AtLeast(s.left, least) then LeftEdge
    else if AtLeast(s.right, least) then RightEdge
    else if AtLeast(s.top, least) then TopEdge
    else BottomEdge
  }

  /** One iteration: the chosen edge moves one row or column inwards, and that edge and
      the two edges across it are re-measured against the NorthWest, NorthEast or
      SouthWest corner; the opposite edge keeps its census. */
  function Trimmed(census: CensusFn, s: Erosion, e: Edge): (u: Erosion)
    requires s.width >= 1 && s.height >= 1
    ensures u.width + u.height + 1 == s.width + s.height
    ensures u.vLeft + u.vRight + u.vTop + u.vBottom == s.vLeft + s.vRight + s.vTop + s.vBottom + 1
    ensures u.vLeft >= s.vLeft && u.vRight >= s.vRight && u.vTop >= s.vTop && u.vBottom >= s.vBottom
    ensures e == LeftEdge ==> u.right == s.right
    ensures e == RightEdge ==> u.left == s.left
    ensures e == TopEdge ==> u.bottom == s.bottom
    ensures e == BottomEdge ==> u.top == s.top
  {
    match e
    case LeftEdge =>
      var r := Rectangle(s.width - 1, s.height, s.vLeft + 1, s.vTop);
      s.(vLeft := s.vLeft + 1, width := s.width - 1,
         left := census(NorthWestGravity, LeftStrip(r)),
         top := census(NorthWestGravity, TopStrip(r)),
         bottom := census(SouthWestGravity, BottomStrip(r)))
    case RightEdge =>
      var r := Rectangle(s.width - 1, s.height, s.vLeft, s.vTop);
      s.(vRight := s.vRight + 1, width := s.width - 1,
         right := census(NorthEastGravity, RightStrip(r)),
         top := census(NorthWestGravity, TopStrip(r)),
         bottom := census(SouthWestGravity, BottomStrip(r)))
    case TopEdge =>
      var r := Rectangle(s.width, s.height - 1, s.vLeft, s.vTop + 1);
      s.(vTop := s.vTop + 1, height := s.height - 1,
         left := census(NorthWestGravity, LeftStrip(r)),
         right := census(NorthEastGravity, RightStrip(r)),
         top := census(NorthWestGravity, TopStrip(r)))
    case BottomEdge =>
      var r := Rectangle(s.width, s.height - 1, s.vLeft, s.vTop);
      s.(vBottom := s.vBottom + 1, height := s.height - 1,
         left := census(NorthWestGravity, LeftStrip(r)),
         right := census(NorthEastGravity, RightStrip(r)),
         bottom := census(SouthWestGravity, BottomStrip(r)))
  }

  /** Trimmed, edge by edge, for any census. */
  lemma TrimmedFields(census: CensusFn, s: Erosion)
    requires s.width >= 1 && s.height >= 1
    ensures var r := Rectangle(s.width - 1, s.height, s.vLeft + 1, s.vTop);
      Trimmed(census, s, LeftEdge)
      == s.(vLeft := s.vLeft + 1, width := s.width - 1,
            left := census(NorthWestGravity, LeftStrip(r)),
            top := census(NorthWestGravity, TopStrip(r)),
            bottom := census(SouthWestGravity, BottomStrip(r)))
    ensures var r := Rectangle(s.width - 1, s.height, s.vLeft, s.vTop);
      Trimmed(census, s, RightEdge)
      == s.(vRight := s.vRight + 1, width := s.width - 1,
            right := census(NorthEastGravity, RightStrip(r)),
            top := census(NorthWestGravity, TopStrip(r)),
            bottom := census(SouthWestGravity, BottomStrip(r)))
    ensures var r := Rectangle(s.width, s.height - 1, s.vLeft, s.vTop + 1);
      Trimmed(census, s, TopEdge)
      == s.(vTop := s.vTop + 1, height := s.height - 1,
            left := census(NorthWestGravity, LeftStrip(r)),
            right := census(NorthEastGravity, RightStrip(r)),
            top := census(NorthWestGravity, TopStrip(r)))
    ensures var r := Rectangle(s.width, s.height - 1, s.vLeft, s.vTop);
      Trimmed(census, s, BottomEdge)
      == s.(vBottom := s.vBottom + 1, height := s.height - 1,
            left := census(NorthWestGravity, LeftStrip(r)),
            right := census(NorthEastGravity, RightStrip(r)),
            bottom := census(SouthWestGravity, BottomStrip(r)))
  {
  }

  lemma TrimmedLeftTracks(census: CensusFn, columns: nat, rows: nat, s: Erosion)
    requires s.width >= 1 && s.height >= 1 && Tracks(census, columns, rows, s)
    ensures Tracks(census, columns, rows, Trimmed(census, s, LeftEdge))
  {
    var u := Trimmed(census, s, LeftEdge);
    assert Remaining(u) == Rectangle(s.width - 1, s.height, s.vLeft + 1, s.vTop);
    assert RightStrip(Remaining(u)) == RightStrip(Remaining(s));
  }

  lemma TrimmedRightTracks(census: CensusFn, columns: nat, rows: nat, s: Erosion)
    requires s.width >= 1 && s.height >= 1 && Tracks(census, columns, rows, s)
    ensures Tracks(census, columns, rows, Trimmed(census, s, RightEdge))
  {
    var u := Trimmed(census, s, RightEdge);
    assert Remaining(u) == Rectangle(s.width - 1, s.height, s.vLeft, s.vTop);
    assert LeftStrip(Remaining(u)) == LeftStrip(Remaining(s));
  }

  lemma TrimmedTopTracks(census: CensusFn, columns: nat, rows: nat, s: Erosion)
    requires s.width >= 1 && s.height >= 1 && Tracks(census, columns, rows, s)
    ensures Tracks(census, columns, rows, Trimmed(census, s, TopEdge))
  {
    var u := Trimmed(census, s, TopEdge);
    assert Remaining(u) == Rectangle(s.width, s.height - 1, s.vLeft, s.vTop + 1);
    assert BottomStrip(Remaining(u)) == BottomStrip(Remaining(s));
  }

  lemma TrimmedBottomTracks(census: CensusFn, columns: nat, rows: nat, s: Erosion)
    requires s.width >= 1 && s.height >= 1 && Tracks(census, columns, rows, s)
    ensures Tracks(census, columns, rows, Trimmed(census, s, BottomEdge))
  {
    var u := Trimmed(census, s, BottomEdge);
    assert Remaining(u) == Rectangle(s.width, s.height - 1, s.vLeft, s.vTop);
    assert TopStrip(Remaining(u)) == TopStrip(Remaining(s));
  }

  /** Every iteration keeps the loop's invariant. */
  lemma TrimmedTracks(census: CensusFn, columns: nat, rows: nat, s: Erosion, e: Edge)
    requires s.width >= 1 && s.height >= 1 && Tracks(census, columns, rows, s)
    ensures Tracks(census, columns, rows, Trimmed(census, s, e))
  {
    match e
    case LeftEdge => TrimmedLeftTracks(census, columns, rows, s);
    case RightEdge => TrimmedRightTracks(census, columns, rows, s);
    case TopEdge => TrimmedTopTracks(census, columns, rows, s);
    case BottomEdge => TrimmedBottomTracks(census, columns, rows, s);
  }

  /** The loop from state `s`: stop once the least census reaches the threshold or the
      rectangle is empty, otherwise trim the chosen edge and go on. */
  function ErodeFrom(census: CensusFn, threshold: real, s: Erosion): (u: Erosion)
    ensures u.width <= s.width && u.height <= s.height
    decreases s.width + s.height
  {
    if threshold <= LeastCensus(s) || s.width == 0 || s.height == 0 then s
    else ErodeFrom(census, threshold, Trimmed(census, s, ChooseEdge(s)))
  }

  /** Erosion stops only where the loop's exit test holds: the least census has reached
      the threshold, or the rectangle has no width or no height left. */
  lemma {:induction false} ErodeFromStops(census: CensusFn, threshold: real, s: Erosion)
    ensures var u := ErodeFrom(census, threshold, s);
      threshold <= LeastCensus(u) || u.width == 0 || u.height == 0
    decreases s.width + s.height
  {
    if !(threshold <= LeastCensus(s) || s.width == 0 || s.height == 0) {
      ErodeFromStops(census, threshold, Trimmed(census, s, ChooseEdge(s)));
    }
  }

  /** The loop keeps its invariant to the end, and unless it ends on an empty rectangle,
      it ends with every edge settled. */
  lemma {:induction false} ErodeFromSettles(census: CensusFn, columns: nat, rows: nat,
                                            threshold: real, s: Erosion)
    requires CornersAgree(census) && Tracks(census, columns, rows, s)
    ensures var u := ErodeFrom(census, threshold, s);
      Tracks(census, columns, rows, u) &&
      u.vLeft >= s.vLeft && u.vRight >= s.vRight && u.vTop >= s.vTop && u.vBottom >= s.vBottom &&
      (u.width >= 1 && u.height >= 1 ==> EdgesSettled(census, Remaining(u), threshold))
    decreases s.width + s.height
  {
    if threshold <= LeastCensus(s) || s.width == 0 || s.height == 0 {
      if s.width >= 1 && s.height >= 1 {
        SettledWhenAllReach(census, columns, rows, s, threshold);
      }
    } else {
      var u := Trimmed(census, s, ChooseEdge(s));
      assert ErodeFrom(census, threshold, s) == ErodeFrom(census, threshold, u);
      TrimmedTracks(census, columns, rows, s, ChooseEdge(s));
      ErodeFromSettles(census, columns, rows, threshold, u);
    }
  }

  /** What the erosion loop leaves of the whole image lies inside it and, unless empty,
      has every edge settled. */
  lemma ErodeFits(g: Grid, columns: nat, t: CensusSettings, threshold: real)
    requires WellFormed(g, columns)
    ensures var census := Census(g, columns, t);
      var u := ErodeFrom(census, threshold, Measured(census, columns, |g|));
      u.vLeft + u.width <= columns && u.vTop + u.height <= |g| &&
      (u.width >= 1 && u.height >= 1 ==> EdgesSettled(census, Remaining(u), threshold))
  {
    var census := Census(g, columns, t);
    CensusCornersAgree(g, columns, t);
    MeasuredTracks(census, columns, |g|);
    ErodeFromSettles(census, columns, |g|, threshold, Measured(census, columns, |g|));
  }

  /** The first measurement of the four edges of the whole image. */
  method MeasureAll(g: Grid, columns: nat, t: CensusSettings) returns (s: Erosion)
    requires WellFormed(g, columns)
    ensures s == Measured(Census(g, columns, t), columns, |g|)
  {
    var whole := Rectangle(columns, |g|, 0, 0);
    var left := GetEdgeBackgroundCensus(g, columns, WestGravity, LeftStrip(whole), t);
    var right := GetEdgeBackgroundCensus(g, columns, EastGravity, RightStrip(whole), t);
    var top := GetEdgeBackgroundCensus(g, columns, NorthGravity, TopStrip(whole), t);
    var bottom := GetEdgeBackgroundCensus(g, columns, SouthGravity, BottomStrip(whole), t);
    s := Erosion(0, 0, 0, 0, columns, |g|, left, right, top, bottom);
  }

  /** Trim one edge of a non-empty rectangle, re-measuring as the source does. */
  method Trim(g: Grid, columns: nat, s: Erosion, e: Edge, t: CensusSettings) returns (u: Erosion)
    requires WellFormed(g, columns) && s.width >= 1 && s.height >= 1
    ensures u == Trimmed(Census(g, columns, t), s, e)
  {
    match e
    case LeftEdge => u := TrimLeft(g, columns, s, t);
    case RightEdge => u := TrimRight(g, columns, s, t);
    case TopEdge => u := TrimTop(g, columns, s, t);
    case BottomEdge => u := TrimBottom(g, columns, s, t);
  }

  method TrimLeft(g: Grid, columns: nat, s: Erosion, t: CensusSettings) returns (u: Erosion)
    requires WellFormed(g, columns) && s.width >= 1 && s.height >= 1
    ensures u == Trimmed(Census(g, columns, t), s, LeftEdge)
  {
    ghost var census := Census(g, columns, t);
    TrimmedFields(census, s);
    var r := Rectangle(s.width - 1, s.height, s.vLeft + 1, s.vTop);
    var left := GetEdgeBackgroundCensus(g, columns, NorthWestGravity, LeftStrip(r), t);
    assert left == census(NorthWestGravity, LeftStrip(r));
    var top := GetEdgeBackgroundCensus(g, columns, NorthWestGravity, TopStrip(r), t);
    assert top == census(NorthWestGravity, TopStrip(r));
    var bottom := GetEdgeBackgroundCensus(g, columns, SouthWestGravity, BottomStrip(r), t);
    assert bottom == census(SouthWestGravity, BottomStrip(r));
    u := s.(vLeft := s.vLeft + 1, width := s.width - 1, left := left, top := top, bottom := bottom);
  }

  method TrimRight(g: Grid, columns: nat, s: Erosion, t: CensusSettings) returns (u: Erosion)
    requires WellFormed(g, columns) && s.width >= 1 && s.height >= 1
    ensures u == Trimmed(Census(g, columns, t), s, RightEdge)
  {
    ghost var census := Census(g, columns, t);
    TrimmedFields(census, s);
    var r := Rectangle(s.width - 1, s.height, s.vLeft, s.vTop);
    var right := GetEdgeBackgroundCensus(g, columns, NorthEastGravity, RightStrip(r), t);
    assert right == census(NorthEastGravity, RightStrip(r));
    var top := GetEdgeBackgroundCensus(g, columns, NorthWestGravity, TopStrip(r), t);
    assert top == census(NorthWestGravity, TopStrip(r));
    var bottom := GetEdgeBackgroundCensus(g, columns, SouthWestGravity, BottomStrip(r), t);
    assert bottom == census(SouthWestGravity, BottomStrip(r));
    u := s.(vRight := s.vRight + 1, width := s.width - 1, right := right, top := top,
            bottom := bottom);
  }

  method TrimTop(g: Grid, columns: nat, s: Erosion, t: CensusSettings) returns (u: Erosion)
    requires WellFormed(g, columns) && s.width >= 1 && s.height >= 1
    ensures u == Trimmed(Census(g, columns, t), s, TopEdge)
  {
    ghost var census := Census(g, columns, t);
    TrimmedFields(census, s);
    var r := Rectangle(s.width, s.height - 1, s.vLeft, s.vTop + 1);
    var left := GetEdgeBackgroundCensus(g, columns, NorthWestGravity, LeftStrip(r), t);
    assert left == census(NorthWestGravity, LeftStrip(r));
    var right := GetEdgeBackgroundCensus(g, columns, NorthEastGravity, RightStrip(r), t);
    assert right == census(NorthEastGravity, RightStrip(r));
    var top := GetEdgeBackgroundCensus(g, columns, NorthWestGravity, TopStrip(r), t);
    assert top == census(NorthWestGravity, TopStrip(r));
    u := s.(vTop := s.vTop + 1, height := s.height - 1, left := left, right := right, top := top);
  }

  method TrimBottom(g: Grid, columns: nat, s: Erosion, t: CensusSettings) returns (u: Erosion)
    requires WellFormed(g, columns) && s.width >= 1 && s.height >= 1
    ensures u == Trimmed(Census(g, columns, t), s, BottomEdge)
  {
    ghost var census := Census(g, columns, t);
    TrimmedFields(census, s);
    var r := Rectangle(s.width, s.height - 1, s.vLeft, s.vTop);
    var left := GetEdgeBackgroundCensus(g, columns, NorthWestGravity, LeftStrip(r), t);
    assert left == census(NorthWestGravity, LeftStrip(r));
    var right := GetEdgeBackgroundCensus(g, columns, NorthEastGravity, RightStrip(r), t);
    assert right == census(NorthEastGravity, RightStrip(r));
    var bottom := GetEdgeBackgroundCensus(g, columns, SouthWestGravity, BottomStrip(r), t);
    assert bottom == census(SouthWestGravity, BottomStrip(r));
    u := s.(vBottom := s.vBottom + 1, height := s.height - 1, left := left, right := right,
            bottom := bottom);
  }

  /** The erosion loop of GetEdgeBoundingBox, trimming the first edge within Epsilon of the
      least census (tested in the order left, right, top, bottom) until the least census
      reaches the threshold or the rectangle is empty. */
  method Erode(g: Grid, columns: nat, t: CensusSettings, threshold: real) returns (s: Erosion)
    requires WellFormed(g, columns)
    ensures s == ErodeFrom(Census(g, columns, t), threshold, Measured(Census(g, columns, t), columns, |g|))
  {
    ghost var census := Census(g, columns, t);
    s := MeasureAll(g, columns, t);
    var least := LeastCensus(s);
    while least < threshold
      invariant ErodeFrom(census, threshold, s)
                == ErodeFrom(census, threshold, Measured(census, columns, |g|))
      invariant least == LeastCensus(s)
      decreases s.width + s.height
    {
      if s.width == 0 || s.height == 0 {
        return;
      }
      var e: Edge;
      if Abs(s.left - least) < Epsilon {
        e := LeftEdge;
      } else if Abs(s.right - least) < Epsilon {
        e := RightEdge;
      } else if Abs(s.top - least) < Epsilon {
        e := TopEdge;
      } else if Abs(s.bottom - least) < Epsilon {
        e := BottomEdge;
      } else {
        assert false;
      }
      assert e == ChooseEdge(s);
      assert ErodeFrom(census, threshold, s) == ErodeFrom(census, threshold, Trimmed(census, s, e));
      s := Trim(g, columns, s, e, t);
      least := LeastCensus(s);
    }
  }

  /** GetEdgeBoundingBox: the rectangle the erosion loop leaves, taken on a clone of the
      image, with the threshold from the `trim:percent-background` artifact. The rectangle
      lies inside the image; unless it is empty, which raises a warning, every edge of it
      holds at least the threshold of non-background content. */
  method GetEdgeBoundingBox(img: Image, t: CensusSettings, percentArtifact: Option<real>)
    returns (bounds: Rectangle, warning: bool)
    requires img.Valid()
    ensures WellFormed(img.Grid(), img.columns)
    ensures var census := Census(img.Grid(), img.columns, t);
      bounds == Remaining(ErodeFrom(census, Threshold(percentArtifact),
                                    Measured(census, img.columns, img.rows)))
    ensures 0 <= bounds.x && bounds.x + bounds.width <= img.columns
    ensures 0 <= bounds.y && bounds.y + bounds.height <= img.rows
    ensures warning <==> bounds.width == 0 || bounds.height == 0
    ensures !warning ==>
      EdgesSettled(Census(img.Grid(), img.columns, t), bounds, Threshold(percentArtifact))
  {
    var g := ClonePixels(img);
    assert WellFormed(g, img.columns);
    var threshold := Threshold(percentArtifact);
    var s := Erode(g, img.columns, t, threshold);
    ghost var census := Census(g, img.columns, t);
    assert s == ErodeFrom(census, threshold, Measured(census, img.columns, |g|));
    ErodeFits(g, img.columns, t, threshold);
    bounds := Remaining(s);
    warning := s.width == 0 || s.height == 0;
  }
}
