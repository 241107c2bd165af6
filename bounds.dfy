/** GetImageBoundingBox: the four-corner scan. Every pixel is compared with the colours
    of the image's corners; the leftmost and topmost pixels unlike the top-left corner,
    and the rightmost and bottommost unlike the top-right, bottom-left and bottom-right
    corners, give the box. The `trim:percent-background` artifact switches to the edge
    erosion of GetEdgeBoundingBox instead. */
module BoundingBox {
  import opened MagickTypes
  import opened Images
  import opened EdgeCensus

  /** The colour GetMagickPixelPacket starts from: black and opaque. */
  const Zero: Pixel := Pixel(0, 0, 0, OpaqueOpacity, 0)

  /** size_t arithmetic: results are taken modulo 2^64. */
  const SizeModulus: nat := 0x1_0000_0000_0000_0000

  function Wrap(v: int): (r: nat)
    ensures r < SizeModulus
    ensures 0 <= v < SizeModulus ==> r == v
  {
    v % SizeModulus
  }

  /** The colours of the four corners: target[0] to target[3] of the scan. */
  datatype Targets = Targets(nw: Pixel, ne: Pixel, sw: Pixel, se: Pixel)

  /** The corner colours once the top-left corner has been read: the top-right corner is
      on the same row, and a bottom corner whose row cannot be read keeps Zero. */
  function CornerTargets(g: Grid, columns: nat, readFails: set<nat>): (tg: Targets)
    requires WellFormed(g, columns)
    ensures tg.nw == g[0][0] && tg.ne == g[0][columns - 1]
    ensures tg.sw == (if |g| - 1 in readFails then Zero else g[|g| - 1][0])
    ensures tg.se == (if |g| - 1 in readFails then Zero else g[|g| - 1][columns - 1])
  {
    var bottom := |g| - 1;
    Targets(g[0][0], g[0][columns - 1],
            if bottom in readFails then Zero else g[bottom][0],
            if bottom in readFails then Zero else g[bottom][columns - 1])
  }

  /** The box before any pixel is seen: x and y past the image, and width and height 0,
      except 1 for a single column or a single row. */
  function InitialBounds(columns: nat, rows: nat): (b: Rectangle)
    ensures b.x == columns && b.y == rows
    ensures b.width == (if columns == 1 then 1 else 0) && b.height == (if rows == 1 then 1 else 0)
  {
    Rectangle(if columns == 1 then 1 else 0, if rows == 1 then 1 else 0, columns, rows)
  }

  /** The five tests applied, in order, to the pixel `p` at (x, y). While scanning, `width`
      and `height` hold the rightmost column and bottommost row found so far. */
  function PixelStep(b: Rectangle, x: nat, y: nat, p: Pixel, tg: Targets,
                     similar: (Pixel, Pixel) -> bool): Rectangle
  {
    var b1 := if x < b.x && !similar(p, tg.nw) then b.(x := x) else b;
    var b2 := if x > b1.width && !similar(p, tg.ne) then b1.(width := x) else b1;
    var b3 := if y < b2.y && !similar(p, tg.nw) then b2.(y := y) else b2;
    var b4 := if y > b3.height && !similar(p, tg.sw) then b3.(height := y) else b3;
    if x < b4.width && y > b4.height && !similar(p, tg.se) then b4.(width := x, height := y)
    else b4
  }

  /** The row box after the first `n` pixels of row `y`, starting from `b`. */
  function RowBox(row: seq<Pixel>, y: nat, b: Rectangle, n: nat, tg: Targets,
                  similar: (Pixel, Pixel) -> bool): Rectangle
    requires n <= |row|
    decreases n
  {
    if n == 0 then b
    else PixelStep(RowBox(row, y, b, n - 1, tg, similar), n - 1, y, row[n - 1], tg, similar)
  }

  /** The merge of a row's box into the running bounds: the least x and y, the greatest
      width and height. */
  function Merge(bounds: Rectangle, box: Rectangle): (m: Rectangle)
    ensures m.x == Min(bounds.x, box.x) && m.y == Min(bounds.y, box.y)
    ensures m.width == Max(bounds.width, box.width) && m.height == Max(bounds.height, box.height)
  {
    Rectangle(if box.width > bounds.width then box.width else bounds.width,
              if box.height > bounds.height then box.height else bounds.height,
              if box.x < bounds.x then box.x else bounds.x,
              if box.y < bounds.y then box.y else bounds.y)
  }

  /** The running bounds and status after the first `n` rows. */
  datatype Scan = Scan(bounds: Rectangle, status: bool)

  /** Rows are scanned in order; the first unreadable row clears the status, and every row
      after it is skipped. */
  function ScanRows(g: Grid, columns: nat, n: nat, tg: Targets, similar: (Pixel, Pixel) -> bool,
                    readFails: set<nat>): Scan
    requires IsRectangular(g, columns) && n <= |g|
  {
    if n == 0 then Scan(InitialBounds(columns, |g|), true)
    else
      var prev := ScanRows(g, columns, n - 1, tg, similar, readFails);
      if !prev.status then prev
      else if n - 1 in readFails then Scan(prev.bounds, false)
      else Scan(Merge(prev.bounds, RowBox(g[n - 1], n - 1, prev.bounds, columns, tg, similar)), true)
  }

  /** The end of the scan: a zero width or height raises a warning and the tracked values
      are returned as they are; otherwise the rightmost column and bottommost row become
      a width and height (in size_t arithmetic). */
  function Finish(b: Rectangle): (r: (Rectangle, bool))
    ensures r.1 <==> b.width == 0 || b.height == 0
    ensures r.1 ==> r.0 == b
    ensures r.0.x == b.x && r.0.y == b.y
    ensures !r.1 && 0 <= b.x <= b.width + 1 < SizeModulus ==> r.0.x + r.0.width == b.width + 1
    ensures !r.1 && 0 <= b.y <= b.height + 1 < SizeModulus ==> r.0.y + r.0.height == b.height + 1
  {
    if b.width == 0 || b.height == 0 then (b, true)
    else (b.(width := Wrap(b.width - (b.x - 1)), height := Wrap(b.height - (b.y - 1))), false)
  }

  /** The scan only ever lowers x and y and raises width and height: after more rows the
      box is at least as large. */
  lemma {:induction false} ScanMonotone(g: Grid, columns: nat, n: nat, m: nat, tg: Targets,
                                        similar: (Pixel, Pixel) -> bool, readFails: set<nat>)
    requires IsRectangular(g, columns) && n <= m <= |g|
    ensures var a := ScanRows(g, columns, n, tg, similar, readFails).bounds;
      var b := ScanRows(g, columns, m, tg, similar, readFails).bounds;
      b.x <= a.x && b.y <= a.y && b.width >= a.width && b.height >= a.height
    decreases m
  {
    if m > n {
      ScanMonotone(g, columns, n, m - 1, tg, similar, readFails);
    }
  }

  /** The status stays true exactly while no scanned row has failed. */
  lemma {:induction false} ScanStatus(g: Grid, columns: nat, n: nat, tg: Targets,
                                      similar: (Pixel, Pixel) -> bool, readFails: set<nat>)
    requires IsRectangular(g, columns) && n <= |g|
    ensures ScanRows(g, columns, n, tg, similar, readFails).status
            == (FirstFailure(0, n, readFails) == n)
    decreases n
  {
    if n > 0 {
      ScanStatus(g, columns, n - 1, tg, similar, readFails);
      FirstFailureExtend(n - 1, readFails);
    }
  }

  /** Extending the range by one row: the first failure stays put, unless there was none,
      in which case it is the new row when that row fails. */
  lemma FirstFailureExtend(n: nat, fails: set<nat>)
    ensures FirstFailure(0, n + 1, fails)
            == if FirstFailure(0, n, fails) < n then FirstFailure(0, n, fails)
               else if n in fails then n else n + 1
  {
    var f := FirstFailure(0, n, fails);
    if f < n {
      FirstFailureIsFirst(0, n + 1, fails, f);
    } else if n in fails {
      FirstFailureIsFirst(0, n + 1, fails, n);
    }
  }

  /** A failing row with no failing row before it is the first failure. */
  lemma {:induction false} FirstFailureIsFirst(from: nat, rows: nat, fails: set<nat>, f: nat)
    requires from <= f < rows && f in fails
    requires forall y :: from <= y < f ==> y !in fails
    ensures FirstFailure(from, rows, fails) == f
    decreases rows - from
  {
    if from < f {
      FirstFailureIsFirst(from + 1, rows, fails, f);
    }
  }

  /** Within a row, x becomes the leftmost column whose pixel is unlike the top-left
      corner, when that lies left of where x started. */
  lemma {:induction false} RowLeftmost(row: seq<Pixel>, y: nat, b: Rectangle, n: nat, tg: Targets,
                                       similar: (Pixel, Pixel) -> bool)
    requires n <= |row|
    ensures var r := RowBox(row, y, b, n, tg, similar);
      r.x <= b.x &&
      (forall x :: 0 <= x < n && !similar(row[x], tg.nw) ==> r.x <= x) &&
      (r.x == b.x || (0 <= r.x < n && !similar(row[r.x], tg.nw)))
    decreases n
  {
    if n > 0 {
      RowLeftmost(row, y, b, n - 1, tg, similar);
    }
  }

  /** Some pixel among the first `n` of `row` is unlike `nw`. */
  ghost predicate HasUnlike(row: seq<Pixel>, n: nat, nw: Pixel, similar: (Pixel, Pixel) -> bool)
    requires n <= |row|
  {
    exists x :: 0 <= x < n && !similar(row[x], nw)
  }

  /** Within row y, y becomes the tracked top row when some pixel of the row is unlike the
      top-left corner and y lies above where it started. */
  lemma {:induction false} RowTopmost(row: seq<Pixel>, y: nat, b: Rectangle, n: nat, tg: Targets,
                                      similar: (Pixel, Pixel) -> bool)
    requires n <= |row|
    ensures RowBox(row, y, b, n, tg, similar).y
            == if y < b.y && HasUnlike(row, n, tg.nw, similar) then y else b.y
    decreases n
  {
    if n > 0 {
      RowTopmost(row, y, b, n - 1, tg, similar);
      PixelStepY(RowBox(row, y, b, n - 1, tg, similar), n - 1, y, row[n - 1], tg, similar);
      var before := HasUnlike(row, n - 1, tg.nw, similar);
      var now := HasUnlike(row, n, tg.nw, similar);
      assert now <==> before || !similar(row[n - 1], tg.nw) by {
        if before {
          var x :| 0 <= x < n - 1 && !similar(row[x], tg.nw);
          assert 0 <= x < n;
        }
        if !similar(row[n - 1], tg.nw) {
          assert 0 <= n - 1 < n;
        }
        if now {
          var x :| 0 <= x < n && !similar(row[x], tg.nw);
          assert x < n - 1 || x == n - 1;
        }
      }
    }
  }

  /** Of the five tests, only the second top-left test moves y. */
  lemma PixelStepY(b: Rectangle, x: nat, y: nat, p: Pixel, tg: Targets,
                   similar: (Pixel, Pixel) -> bool)
    ensures PixelStep(b, x, y, p, tg, similar).y == if y < b.y && !similar(p, tg.nw) then y else b.y
  {
  }

  /** A row at or above the tracked bottom leaves the height as it was. */
  lemma {:induction false} RowKeepsHeight(row: seq<Pixel>, y: nat, b: Rectangle, n: nat,
                                          tg: Targets, similar: (Pixel, Pixel) -> bool)
    requires n <= |row| && y <= b.height
    ensures RowBox(row, y, b, n, tg, similar).height == b.height
    decreases n
  {
    if n > 0 {
      RowKeepsHeight(row, y, b, n - 1, tg, similar);
    }
  }

  /** Over the rows read before the first unreadable one, x is the leftmost column holding
      a pixel unlike the top-left corner, or `columns` when there is none. */
  lemma {:induction false} ScanLeftmost(g: Grid, columns: nat, n: nat, tg: Targets,
                                        similar: (Pixel, Pixel) -> bool, readFails: set<nat>)
    requires IsRectangular(g, columns) && n <= |g|
    ensures IsLeftmost(g, columns, FirstFailure(0, n, readFails),
                       ScanRows(g, columns, n, tg, similar, readFails).bounds.x, tg.nw, similar)
    decreases n
  {
    if n > 0 {
      ScanLeftmost(g, columns, n - 1, tg, similar, readFails);
      ScanStatus(g, columns, n - 1, tg, similar, readFails);
      FirstFailureExtend(n - 1, readFails);
      var prev := ScanRows(g, columns, n - 1, tg, similar, readFails);
      if prev.status && n - 1 !in readFails {
        ScanLeftmostRow(g, columns, n, tg, similar, readFails);
        assert FirstFailure(0, n, readFails) == n;
      } else {
        assert ScanRows(g, columns, n, tg, similar, readFails).bounds == prev.bounds;
        assert FirstFailure(0, n, readFails) == FirstFailure(0, n - 1, readFails);
      }
    }
  }

  /** Among the first `f` rows, `x` is the leftmost column holding a pixel unlike `nw`, or
      `columns` when there is none. */
  ghost predicate IsLeftmost(g: Grid, columns: nat, f: nat, x: int, nw: Pixel,
                             similar: (Pixel, Pixel) -> bool)
    requires IsRectangular(g, columns) && f <= |g|
  {
    0 <= x <= columns &&
    (forall yy, xx :: 0 <= yy < f && 0 <= xx < columns && !similar(g[yy][xx], nw) ==> x <= xx) &&
    (x < columns ==> exists yy :: 0 <= yy < f && !similar(g[yy][x], nw))
  }

  /** Among the first `f` rows, `y` is the topmost row holding a pixel unlike `nw`, or
      `|g|` when there is none. */
  ghost predicate IsTopmost(g: Grid, columns: nat, f: nat, y: int, nw: Pixel,
                            similar: (Pixel, Pixel) -> bool)
    requires IsRectangular(g, columns) && f <= |g|
  {
    0 <= y <= |g| &&
    (forall yy, xx :: 0 <= yy < f && 0 <= xx < columns && !similar(g[yy][xx], nw) ==> y <= yy) &&
    (y < |g| ==> y < f && HasUnlike(g[y], columns, nw, similar))
  }

  /** A row read while the scan still succeeds keeps x the leftmost column holding a pixel
      unlike the top-left corner. */
  lemma ScanLeftmostRow(g: Grid, columns: nat, n: nat, tg: Targets,
                        similar: (Pixel, Pixel) -> bool, readFails: set<nat>)
    requires IsRectangular(g, columns) && 0 < n <= |g|
    requires ScanRows(g, columns, n - 1, tg, similar, readFails).status && n - 1 !in readFails
    requires IsLeftmost(g, columns, n - 1, ScanRows(g, columns, n - 1, tg, similar, readFails).bounds.x,
                        tg.nw, similar)
    ensures IsLeftmost(g, columns, n, ScanRows(g, columns, n, tg, similar, readFails).bounds.x,
                       tg.nw, similar)
  {
    var prev := ScanRows(g, columns, n - 1, tg, similar, readFails);
    var box := RowBox(g[n - 1], n - 1, prev.bounds, columns, tg, similar);
    RowLeftmost(g[n - 1], n - 1, prev.bounds, columns, tg, similar);
    LeftmostAddRow(g, columns, n - 1, prev.bounds.x, box.x, tg, similar);
    assert ScanRows(g, columns, n, tg, similar, readFails).bounds.x == box.x;
  }

  /** Adding row `f` to the rows searched for the leftmost pixel unlike the top-left
      corner: the row's own leftmost such column, when further left, takes over. */
  lemma LeftmostAddRow(g: Grid, columns: nat, f: nat, x0: int, rx: int, tg: Targets,
                       similar: (Pixel, Pixel) -> bool)
    requires IsRectangular(g, columns) && f < |g| && IsLeftmost(g, columns, f, x0, tg.nw, similar)
    requires rx <= x0
    requires forall xx :: 0 <= xx < columns && !similar(g[f][xx], tg.nw) ==> rx <= xx
    requires rx == x0 || (0 <= rx < columns && !similar(g[f][rx], tg.nw))
    ensures IsLeftmost(g, columns, f + 1, rx, tg.nw, similar)
  {
    if rx < columns {
      if rx == x0 {
        var yy :| 0 <= yy < f && !similar(g[yy][x0], tg.nw);
        assert 0 <= yy < f + 1;
      } else {
        assert 0 <= f < f + 1 && !similar(g[f][rx], tg.nw);
      }
    }
  }

  /** Over the rows read before the first unreadable one, y is the topmost row holding a
      pixel unlike the top-left corner, or `rows` when there is none. */
  lemma {:induction false} ScanTopmost(g: Grid, columns: nat, n: nat, tg: Targets,
                                       similar: (Pixel, Pixel) -> bool, readFails: set<nat>)
    requires IsRectangular(g, columns) && n <= |g|
    ensures IsTopmost(g, columns, FirstFailure(0, n, readFails),
                      ScanRows(g, columns, n, tg, similar, readFails).bounds.y, tg.nw, similar)
    decreases n
  {
    if n > 0 {
      ScanTopmost(g, columns, n - 1, tg, similar, readFails);
      ScanStatus(g, columns, n - 1, tg, similar, readFails);
      FirstFailureExtend(n - 1, readFails);
      var prev := ScanRows(g, columns, n - 1, tg, similar, readFails);
      if prev.status && n - 1 !in readFails {
        ScanTopmostRow(g, columns, n, tg, similar, readFails);
        assert FirstFailure(0, n, readFails) == n;
      } else {
        assert ScanRows(g, columns, n, tg, similar, readFails).bounds == prev.bounds;
        assert FirstFailure(0, n, readFails) == FirstFailure(0, n - 1, readFails);
      }
    }
  }

  /** A row read while the scan still succeeds keeps y the topmost row holding a pixel
      unlike the top-left corner. */
  lemma ScanTopmostRow(g: Grid, columns: nat, n: nat, tg: Targets,
                       similar: (Pixel, Pixel) -> bool, readFails: set<nat>)
    requires IsRectangular(g, columns) && 0 < n <= |g|
    requires ScanRows(g, columns, n - 1, tg, similar, readFails).status && n - 1 !in readFails
    requires IsTopmost(g, columns, n - 1, ScanRows(g, columns, n - 1, tg, similar, readFails).bounds.y,
                       tg.nw, similar)
    ensures IsTopmost(g, columns, n, ScanRows(g, columns, n, tg, similar, readFails).bounds.y,
                      tg.nw, similar)
  {
    var prev := ScanRows(g, columns, n - 1, tg, similar, readFails);
    var box := RowBox(g[n - 1], n - 1, prev.bounds, columns, tg, similar);
    RowTopmost(g[n - 1], n - 1, prev.bounds, columns, tg, similar);
    TopmostAddRow(g, columns, n - 1, prev.bounds.y, box.y, tg, similar);
    assert ScanRows(g, columns, n, tg, similar, readFails).bounds.y == box.y;
  }

  /** Adding row `f` to the rows searched for the topmost row holding a pixel unlike the
      top-left corner: row `f` takes over when it holds one and lies above. */
  lemma TopmostAddRow(g: Grid, columns: nat, f: nat, y0: int, ry: int, tg: Targets,
                      similar: (Pixel, Pixel) -> bool)
    requires IsRectangular(g, columns) && f < |g| && IsTopmost(g, columns, f, y0, tg.nw, similar)
    requires ry == if f < y0 && HasUnlike(g[f], columns, tg.nw, similar) then f else y0
    ensures IsTopmost(g, columns, f + 1, ry, tg.nw, similar)
  {
    forall yy, xx | 0 <= yy < f + 1 && 0 <= xx < columns && !similar(g[yy][xx], tg.nw)
      ensures ry <= yy
    {
      if yy == f && ry != f {
        assert 0 <= xx < columns && !similar(g[f][xx], tg.nw);
      }
    }
  }

  /** For a single-row image the tracked height never leaves its initial 1, so once the
      row holds a pixel unlike the top-left corner (y = 0), the converted height is 2. */
  lemma {:induction false} SingleRowHeight(g: Grid, columns: nat, n: nat, tg: Targets,
                                           similar: (Pixel, Pixel) -> bool, readFails: set<nat>)
    requires IsRectangular(g, columns) && |g| == 1 && n <= 1
    ensures var b := ScanRows(g, columns, n, tg, similar, readFails).bounds;
      b.height == 1 && (b.y == 0 && b.width >= 1 ==> Finish(b).0.height == 2)
  {
    if n == 1 {
      var prev := ScanRows(g, columns, 0, tg, similar, readFails);
      RowKeepsHeight(g[0], 0, prev.bounds, columns, tg, similar);
    }
  }

  /** One row of the scan, pixel by pixel from the left. */
  method ScanRow(img: Image, ghost g: Grid, y: nat, b: Rectangle, tg: Targets,
                 similar: (Pixel, Pixel) -> bool)
    returns (box: Rectangle)
    requires img.Valid() && g == img.Grid() && y < img.rows
    ensures box == RowBox(g[y], y, b, img.columns, tg, similar)
  {
    box := b;
    var x := 0;
    while x < img.columns
      invariant 0 <= x <= img.columns
      invariant box == RowBox(g[y], y, b, x, tg, similar)
    {
      box := PixelStep(box, x, y, img.pixels[y, x], tg, similar);
      x := x + 1;
    }
  }

  /** The scan over all rows, merging each row's box into the running bounds. */
  method ScanImage(img: Image, ghost g: Grid, tg: Targets, similar: (Pixel, Pixel) -> bool,
                   readFails: set<nat>)
    returns (bounds: Rectangle, status: bool)
    requires img.Valid() && g == img.Grid()
    ensures Scan(bounds, status) == ScanRows(g, img.columns, img.rows, tg, similar, readFails)
  {
    bounds := InitialBounds(img.columns, img.rows);
    status := true;
    var y := 0;
    while y < img.rows
      invariant 0 <= y <= img.rows
      invariant Scan(bounds, status) == ScanRows(g, img.columns, y, tg, similar, readFails)
    {
      if status {
        if y in readFails {
          status := false;
        } else {
          var box := ScanRow(img, g, y, bounds, tg, similar);
          bounds := Merge(bounds, box);
        }
      }
      y := y + 1;
    }
  }

  /** GetImageBoundingBox. With the `trim:percent-background` artifact the edge erosion
      decides; otherwise an unreadable top-left corner returns the initial bounds without
      a warning, and else the four-corner scan's bounds are converted by Finish. */
  method GetImageBoundingBox(img: Image, t: CensusSettings, percentArtifact: Option<real>)
    returns (bounds: Rectangle, warning: bool)
    requires img.Valid()
    ensures WellFormed(img.Grid(), img.columns)
    ensures percentArtifact.Some? ==>
      bounds == Remaining(ErodeFrom(Census(img.Grid(), img.columns, t), Threshold(percentArtifact),
                                    Measured(Census(img.Grid(), img.columns, t), img.columns,
                                             img.rows))) &&
      (warning <==> bounds.width == 0 || bounds.height == 0)
    ensures percentArtifact.None? && 0 in t.readFails ==>
      bounds == InitialBounds(img.columns, img.rows) && !warning
    ensures percentArtifact.None? && 0 !in t.readFails ==>
      (bounds, warning) == Finish(ScanRows(img.Grid(), img.columns, img.rows,
                                           CornerTargets(img.Grid(), img.columns, t.readFails),
                                           t.similar, t.readFails).bounds)
  {
    if percentArtifact.Some? {
      bounds, warning := GetEdgeBoundingBox(img, t, percentArtifact);
      return;
    }
    ghost var g := img.Grid();
    if 0 in t.readFails {
      return InitialBounds(img.columns, img.rows), false;
    }
    var bottom := img.rows - 1;
    var tg := Targets(img.pixels[0, 0], img.pixels[0, img.columns - 1],
                      if bottom in t.readFails then Zero else img.pixels[bottom, 0],
                      if bottom in t.readFails then Zero else img.pixels[bottom, img.columns - 1]);
    assert tg == CornerTargets(g, img.columns, t.readFails);
    var scanned, status := ScanImage(img, g, tg, t.similar, t.readFails);
    bounds, warning := Finish(scanned).0, Finish(scanned).1;
  }
}
