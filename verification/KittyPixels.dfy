/**
  What a placing command makes the host terminal show: which screen cells an image takes, and which of
  its pixels each of them shows. An image keeps its place: clipping takes rows and columns away and
  moves nothing.
 */
module KittyPixels {
  import opened Common
  import opened KittyPlacement

  // ---- the terminal's side -------------------------------------------------------------------

  /** The placement takes this screen cell. */
  predicate Takes(c: HostCommand, x: int, y: int)
    requires c.Place?
  {
    c.x <= x < c.x + c.cols && c.y <= y < c.y + c.rows
  }

  /** Where cell k of n begins in as many pixels spread over the cells. */
  function Share(k: int, pixels: int, n: int): real
    requires n > 0
  {
    Part(k as real, pixels as real, n as real)
  }

  function Part(k: real, pixels: real, n: real): real
    requires n > 0.0
  {
    k * pixels / n
  }

  /**
    The terminal scales the source rectangle to the cells taken; with no width or height given it
    reaches to the bitmap's edge. So this pixel column is the first to be shown at screen column x.
   */
  function PixelX(c: HostCommand, bitmap: int, x: int): real
    requires c.Place? && c.cols > 0
  {
    var w := if c.source.w > 0 then c.source.w else bitmap - c.source.x;
    c.source.x as real + Share(x - c.x, w, c.cols)
  }

  function PixelY(c: HostCommand, bitmap: int, y: int): real
    requires c.Place? && c.rows > 0
  {
    var h := if c.source.h > 0 then c.source.h else bitmap - c.source.y;
    c.source.y as real + Share(y - c.y, h, c.rows)
  }

  lemma {:induction false} Scaled(n: real, cells: real, each: real)
    requires cells > 0.0
    ensures Part(n, cells * each, cells) == n * each
  {
    assert n * (cells * each) == (n * each) * cells;
  }

  // ---- which cells ---------------------------------------------------------------------------

  /** The screen cell is inside the window's pane. */
  predicate InPane(info: WindowInfo, x: int, y: int) {
    && info.x + info.offsetX <= x < info.x + info.width - info.offsetX
    && info.y + info.offsetY <= y < info.y + info.height - info.offsetY
  }

  /** It is on the screen, and not in its last row. */
  predicate InScreen(info: WindowInfo, x: int, y: int) {
    (info.screenWidth > 0 ==> x < info.screenWidth) && (info.screenHeight > 0 ==> y < info.screenHeight - 1)
  }

  /** Where column k and row k of the image belong. */
  function ColumnOf(p: Placement, info: WindowInfo, k: int): int { info.x + info.offsetX + p.guestX + k }

  function RowOf(p: Placement, info: WindowInfo, k: int): int {
    info.y + info.offsetY + p.absoluteLine - (info.scrollbackLen - info.scrollOffset) + k
  }

  /** Of an image that is shown exactly the cells inside pane and screen are, each where it belongs. */
  lemma {:induction false} ShownWhereItBelongs(p: Placement, info: WindowInfo, windows: Windows, id: string, caps: Caps,
                                               col: int, row: int)
    requires !p.streaming && p.guestX >= 0 && 0 <= col < p.cols && 0 <= row < p.rows
    requires info.height - 2 * info.offsetY >= 1
    requires var q := RefreshOne(p, info, windows, id, false, caps).next; !q.hidden
    ensures var q := RefreshOne(p, info, windows, id, false, caps).next;
            var x, y := ColumnOf(p, info, col), RowOf(p, info, row);
            && (Takes(PlaceCommand(q, caps), x, y) <==> InPane(info, x, y) && InScreen(info, x, y))
            && (Takes(PlaceCommand(q, caps), x, y) ==>
                  col == x - q.hostX && row == q.clipTop + (y - q.hostY) && q.clipTop >= 0 &&
                  q.clipTop + VisibleRows(q) <= p.rows)
  {
    var q := RefreshOne(p, info, windows, id, false, caps).next;
    RefreshIsGeometry(p, info, windows, id, caps);
    hide RefreshOne, Wanted, Occluded, SourceOf;
  }

  /** Some screen cell of the rectangle belongs to a visible window above z. */
  ghost predicate UnderAnother(x: int, y: int, w: int, h: int, z: int, windows: Windows, id: string) {
    exists other, cx, cy ::
      && other in windows && other != id && windows[other].visible && windows[other].z > z
      && x <= cx < x + w && y <= cy < y + h && InWindow(windows[other], cx, cy)
  }

  predicate InWindow(info: WindowInfo, x: int, y: int) {
    info.x <= x < info.x + info.width && info.y <= y < info.y + info.height
  }

  lemma {:induction false} OccludedByCells(x: int, y: int, w: int, h: int, z: int, windows: Windows, id: string)
    requires w > 0 && h > 0
    requires forall other :: other in windows ==> windows[other].width > 0 && windows[other].height > 0
    ensures Occluded(x, y, w, h, z, windows, id) <==> UnderAnother(x, y, w, h, z, windows, id)
  {
    if Occluded(x, y, w, h, z, windows, id) {
      var other :| other in windows && other != id && windows[other].visible && windows[other].z > z &&
        RectsOverlap(x, y, w, h, windows[other].x, windows[other].y, windows[other].width, windows[other].height);
      var cx, cy := Max(x, windows[other].x), Max(y, windows[other].y);
      assert InWindow(windows[other], cx, cy);
    }
  }

  // ---- which pixels --------------------------------------------------------------------------

  /** Pixels to a row of cells: of the bitmap if its height is known, else of the guest's crop, or of a host cell. */
  function RowPixels(p: Placement, caps: Caps): int {
    if p.rows <= 0 || (p.pixelHeight <= 0 && p.sourceHeight <= 0) then
      if caps.cellHeight > 0 then caps.cellHeight else 20
    else (if p.pixelHeight > 0 then p.pixelHeight else p.sourceHeight) / p.rows
  }

  lemma {:induction false} EvenShare(k: int, cells: int, each: int)
    requires cells >= 1
    ensures Share(k, cells * each, cells) == (k * each) as real
  {
    Scaled(k as real, cells as real, each as real);
  }

  lemma {:induction false} ClippedRows(q: Placement, caps: Caps, rows: int, each: int)
    requires Clipping(q) && rows == VisibleRows(q) && each == RowPixels(q, caps) >= 1
    requires q.pixelHeight > 0 ==> q.sourceY + (q.clipTop + rows) * each <= q.pixelHeight
    ensures SourceOf(q, caps).y == q.sourceY + q.clipTop * each && SourceOf(q, caps).h == rows * each >= 1
  {
    assert PixelsPerRow(q, caps) == each;
    Products(q.clipTop, rows, each);
  }

  /** Row k of a clipped image begins k rows of pixels below the guest's corner. */
  lemma {:induction false} ClippedRow(q: Placement, caps: Caps, k: int)
    requires Clipping(q) && RowPixels(q, caps) >= 1 && q.clipTop <= k < q.clipTop + VisibleRows(q)
    requires q.pixelHeight > 0 ==> q.sourceY + (q.clipTop + VisibleRows(q)) * RowPixels(q, caps) <= q.pixelHeight
    ensures PixelY(PlaceCommand(q, caps), q.pixelHeight, q.hostY + (k - q.clipTop)) ==
            (q.sourceY + k * RowPixels(q, caps)) as real
  {
    var rows, each := VisibleRows(q), RowPixels(q, caps);
    hide SourceOf, Share, RowPixels;
    ClippedRows(q, caps, rows, each);
    EvenShare(k - q.clipTop, rows, each);
    Shifted(k, q.clipTop, each);
  }

  lemma {:induction false} Shifted(k: int, first: int, each: int)
    ensures first * each + (k - first) * each == k * each
  {
  }

  lemma {:induction false} Products(a: int, b: int, each: int)
    requires each >= 1 && b >= 1
    ensures (a + b) * each == a * each + b * each && b * each >= 1
  {
    assert b * each >= 1 * each;
  }

  /** Pixels to a column of cells, likewise. */
  function ColumnPixels(p: Placement, caps: Caps): int {
    if p.cols <= 0 || (p.pixelWidth <= 0 && p.sourceWidth <= 0) then caps.cellWidth
    else (if p.pixelWidth > 0 then p.pixelWidth else p.sourceWidth) / p.cols
  }

  lemma {:induction false} ClippedColumns(q: Placement, caps: Caps, cols: int, each: int)
    requires Clipping(q) && (VisibleCols(q) < q.cols || q.sourceWidth == 0)
    requires cols == VisibleCols(q) >= 1 && each == ColumnPixels(q, caps) >= 1
    requires q.pixelWidth > 0 ==> q.sourceX + cols * each <= q.pixelWidth
    ensures SourceOf(q, caps).x == q.sourceX && SourceOf(q, caps).w == cols * each >= 1
  {
    assert PixelsPerCol(q, caps) == each;
    Products(0, cols, each);
  }

  /** Column k of an image clipped on the right, or with no width given, begins k columns of pixels in. */
  lemma {:induction false} ClippedColumn(q: Placement, caps: Caps, k: int)
    requires Clipping(q) && (VisibleCols(q) < q.cols || q.sourceWidth == 0)
    requires 0 <= k < VisibleCols(q) && ColumnPixels(q, caps) >= 1
    requires q.pixelWidth > 0 ==> q.sourceX + VisibleCols(q) * ColumnPixels(q, caps) <= q.pixelWidth
    ensures PixelX(PlaceCommand(q, caps), q.pixelWidth, q.hostX + k) ==
            (q.sourceX + k * ColumnPixels(q, caps)) as real
  {
    var cols, each := VisibleCols(q), ColumnPixels(q, caps);
    hide SourceOf, Share, ColumnPixels;
    ClippedColumns(q, caps, cols, each);
    EvenShare(k, cols, each);
  }

  /** A guest's own rectangle goes out as it is, but for the rows that are clipped. */
  lemma {:induction false} GuestRectangle(q: Placement, caps: Caps)
    requires q.sourceX >= 0 && q.sourceY >= 0 && q.sourceWidth > 0 && q.sourceHeight >= 0
    requires q.pixelWidth > 0 ==> q.sourceX + q.sourceWidth <= q.pixelWidth
    ensures !Clipping(q) ==>
              PlaceCommand(q, caps).source == Source(q.sourceX, q.sourceY, q.sourceWidth, q.sourceHeight)
    ensures Clipping(q) && VisibleCols(q) >= q.cols ==>
              PlaceCommand(q, caps).source.x == q.sourceX && PlaceCommand(q, caps).source.w == q.sourceWidth
  {
  }

  /** The same counted in whole pixels a cell: never more, short by less than a pixel for each cell before it. */
  lemma {:induction false} WholePixels(k: int, bitmap: int, n: int)
    requires n > 0 && 0 <= k && 0 <= bitmap
    ensures Share(k, bitmap, n) - k as real <= (k * (bitmap / n)) as real <= Share(k, bitmap, n)
    ensures bitmap % n == 0 ==> (k * (bitmap / n)) as real == Share(k, bitmap, n)
  {
    var each, rest := bitmap / n, bitmap % n;
    assert bitmap == each * n + rest;
    Scaled(k as real, n as real, each as real);
    var r := rest as real / n as real;
    assert bitmap as real == n as real * each as real + rest as real;
    SplitShare(k as real, n as real, each as real, rest as real);
    Fraction(rest as real, n as real);
    assert 0.0 <= k as real * r <= k as real by { Between(k as real, r); }
  }

  lemma {:induction false} SplitShare(k: real, n: real, each: real, rest: real)
    requires n > 0.0
    ensures k * (n * each + rest) / n == k * each + k * (rest / n)
  {
    assert k * (n * each + rest) == (k * each) * n + k * rest;
    assert rest == (rest / n) * n;
    assert k * rest == (k * (rest / n)) * n;
  }

  lemma {:induction false} Fraction(rest: real, n: real)
    requires n > 0.0 && 0.0 <= rest <= n
    ensures 0.0 <= rest / n <= 1.0 && (rest < n ==> rest / n < 1.0) && (rest == 0.0 ==> rest / n == 0.0)
  {
    var q := rest / n;
    assert q * n == rest;
    assert (q - 1.0) * n == rest - n;
    assert q < 0.0 ==> q * n < 0.0;
    assert q > 0.0 ==> q * n > 0.0;
    assert q > 1.0 ==> (q - 1.0) * n > 0.0;
    assert q == 1.0 ==> q * n == n;
  }

  lemma {:induction false} Between(k: real, r: real)
    requires 0.0 <= k && 0.0 <= r < 1.0
    ensures 0.0 <= k * r <= k
  {
  }

  /**
    An image of which the guest asked for all is shown undistorted: each cell inside pane and screen
    shows the pixels it shows when nothing is clipped, exactly if they divide evenly among the rows and
    columns, and otherwise from less than a pixel too early for each cell before it.
   */
  lemma {:induction false} ShowsItsPixels(p: Placement, info: WindowInfo, windows: Windows, id: string, caps: Caps,
                                          col: int, row: int)
    requires !p.streaming && p.guestX >= 0 && 0 <= col < p.cols && 0 <= row < p.rows
    requires p.sourceX == 0 && p.sourceY == 0 && p.sourceWidth == 0 && p.sourceHeight == 0
    requires p.pixelWidth >= p.cols && p.pixelHeight >= p.rows && info.height - 2 * info.offsetY >= 1
    requires var q := RefreshOne(p, info, windows, id, false, caps).next;
             !q.hidden && Takes(PlaceCommand(q, caps), ColumnOf(p, info, col), RowOf(p, info, row))
    ensures var q := RefreshOne(p, info, windows, id, false, caps).next;
            var c := PlaceCommand(q, caps);
            var x, y := PixelX(c, p.pixelWidth, ColumnOf(p, info, col)), PixelY(c, p.pixelHeight, RowOf(p, info, row));
            && Share(col, p.pixelWidth, p.cols) - col as real <= x <= Share(col, p.pixelWidth, p.cols)
            && Share(row, p.pixelHeight, p.rows) - row as real <= y <= Share(row, p.pixelHeight, p.rows)
            && (p.pixelWidth % p.cols == 0 ==> x == Share(col, p.pixelWidth, p.cols))
            && (p.pixelHeight % p.rows == 0 ==> y == Share(row, p.pixelHeight, p.rows))
  {
    var q := RefreshOne(p, info, windows, id, false, caps).next;
    ShownWhereItBelongs(p, info, windows, id, caps, col, row);
    RowsAddUp(p, info, windows, id, false, caps);
    SameBitmap(p, info, windows, id, caps);
    WholePixels(col, p.pixelWidth, p.cols);
    WholePixels(row, p.pixelHeight, p.rows);
    hide RefreshOne;
    if Clipping(q) {
      PartShows(q, caps, col, row);
    } else {
      WholeShows(q, caps, col, row);
    }
  }

  lemma {:induction false} SameBitmap(p: Placement, info: WindowInfo, windows: Windows, id: string, caps: Caps)
    ensures var q := RefreshOne(p, info, windows, id, false, caps).next;
            && q.cols == p.cols && q.rows == p.rows && q.pixelWidth == p.pixelWidth && q.pixelHeight == p.pixelHeight
            && q.sourceX == p.sourceX && q.sourceY == p.sourceY
            && q.sourceWidth == p.sourceWidth && q.sourceHeight == p.sourceHeight
  {
  }

  lemma {:induction false} PartShows(q: Placement, caps: Caps, col: int, row: int)
    requires Clipping(q) && q.sourceX == 0 && q.sourceY == 0 && q.sourceWidth == 0 && q.sourceHeight == 0
    requires q.pixelWidth >= q.cols >= 1 && q.pixelHeight >= q.rows >= 1
    requires 0 <= col < VisibleCols(q)
    requires 0 <= q.clipTop <= row < q.clipTop + VisibleRows(q) <= q.rows
    ensures PixelX(PlaceCommand(q, caps), q.pixelWidth, q.hostX + col) == (col * (q.pixelWidth / q.cols)) as real
    ensures PixelY(PlaceCommand(q, caps), q.pixelHeight, q.hostY + (row - q.clipTop)) ==
            (row * (q.pixelHeight / q.rows)) as real
  {
    var each := q.pixelHeight / q.rows;
    assert each >= 1 && q.pixelWidth / q.cols >= 1;
    NoLess(q.clipTop + VisibleRows(q), q.rows, each);
    NoLess(VisibleCols(q), q.cols, q.pixelWidth / q.cols);
    assert q.rows * each <= q.pixelHeight && q.cols * (q.pixelWidth / q.cols) <= q.pixelWidth;
    ClippedRow(q, caps, row);
    ClippedColumn(q, caps, col);
  }

  lemma {:induction false} WholeShows(q: Placement, caps: Caps, col: int, row: int)
    requires !Clipping(q) && q.sourceWidth == 0 && q.sourceHeight == 0 && q.cols >= 1 && q.rows >= 1
    requires VisibleRows(q) == q.rows && VisibleCols(q) == q.cols
    ensures PixelX(PlaceCommand(q, caps), q.pixelWidth, q.hostX + col) == Share(col, q.pixelWidth, q.cols)
    ensures PixelY(PlaceCommand(q, caps), q.pixelHeight, q.hostY + row) == Share(row, q.pixelHeight, q.rows)
  {
  }

  /** With fewer pixels than rows a clipped image asks for no height, which gives it all of the bitmap. */
  lemma {:induction false} TooFewPixels(q: Placement, caps: Caps)
    requires Clipping(q) && 0 < q.pixelHeight < q.rows && 0 <= q.sourceY <= q.pixelHeight
    ensures PlaceCommand(q, caps).source.h == 0
  {
    assert q.pixelHeight / q.rows == 0;
  }

  /** A guest's corner without a size is passed on only while the image is clipped. */
  lemma {:induction false} CornerNeedsClipping(q: Placement, caps: Caps)
    requires q.sourceWidth == 0 && q.sourceHeight == 0
    ensures PlaceCommand(q, caps).source.x == if Clipping(q) then q.sourceX else 0
  {
  }

  /** What a video image's placing command says besides the crop. */
  lemma {:induction false} VideoCommandCarries(image: int, v: Video)
    ensures var c := VideoReplace(image, v);
            && c.image == image && c.placement == 1 && c.x == v.hostX && c.y == v.hostY
            && c.source.x == 0 && c.source.y == 0 && c.xOffset == 0 && c.yOffset == 0 && c.z == 0
            && (0 < v.showCols <= v.cols ==> c.cols == v.showCols) && (v.showCols >= v.cols ==> c.cols == v.cols)
            && (0 < v.showRows <= v.rows ==> c.rows == v.showRows) && (v.showRows >= v.rows ==> c.rows == v.rows)
  {
  }

  // ---- video images --------------------------------------------------------------------------

  /**
    A video image of this screen is shown exactly if its window is visible, no corner is off the screen
    to the left or above, some of it is on the screen with the last row free, and that part is under no
    visible window above; then as much of it as is on the screen.
   */
  lemma {:induction false} VideoIsGeometry(image: int, v: Video, info: WindowInfo, windows: Windows, id: string)
    requires info.altScreen == v.altScreen
    ensures var step := RefreshVideo(image, v, info, windows, id);
            var x, y := info.x + info.offsetX + v.guestX, info.y + info.offsetY + v.guestY;
            var cols := if info.screenWidth > 0 then Min(v.cols, info.screenWidth - x) else v.cols;
            var rows := if info.screenHeight > 0 then Min(v.rows, info.screenHeight - 1 - y) else v.rows;
            && !step.dropped
            && (step.next.hidden <==> !info.visible || x < 0 || y < 0 || info.x < 0 || info.y < 0 || cols <= 0 ||
                                      rows <= 0 || Occluded(x, y, cols, rows, info.z, windows, id))
            && (if step.next.hidden then
                  step.sent == (if v.hidden then [] else [Delete(image)])
                else
                  && step.next == v.(hostX := x, hostY := y, showCols := cols, showRows := rows, hidden := false)
                  && step.sent == (if step.next == v then [] else [VideoReplace(image, step.next)]))
  {
    hide Occluded, VideoReplace;
  }

  /** One whose pane has gone to the other screen is deleted and forgotten. */
  lemma {:induction false} VideoOfOtherScreen(image: int, v: Video, info: WindowInfo, windows: Windows, id: string)
    ensures RefreshVideo(image, v, info, windows, id).dropped <==> info.altScreen != v.altScreen
    ensures info.altScreen != v.altScreen ==> RefreshVideo(image, v, info, windows, id).sent == [Delete(image)]
  {
  }

  /**
    Of a video image that is shown exactly the cells on the screen are, each where it belongs, and each
    shows the pixels it shows when nothing is clipped, from at most a pixel too early.
   */
  lemma {:induction false} VideoShowsItsPixels(image: int, v: Video, info: WindowInfo, windows: Windows, id: string,
                                               col: int, row: int)
    requires 0 <= col < v.cols <= v.pixelWidth && 0 <= row < v.rows <= v.pixelHeight
    requires info.altScreen == v.altScreen && !RefreshVideo(image, v, info, windows, id).next.hidden
    ensures var c := VideoReplace(image, RefreshVideo(image, v, info, windows, id).next);
            var x, y := info.x + info.offsetX + v.guestX + col, info.y + info.offsetY + v.guestY + row;
            && (Takes(c, x, y) <==> InScreen(info, x, y))
            && (Takes(c, x, y) ==>
                  && Share(col, v.pixelWidth, v.cols) - 1.0 <= PixelX(c, v.pixelWidth, x) <=
                       Share(col, v.pixelWidth, v.cols)
                  && Share(row, v.pixelHeight, v.rows) - 1.0 <= PixelY(c, v.pixelHeight, y) <=
                       Share(row, v.pixelHeight, v.rows))
  {
    VideoIsGeometry(image, v, info, windows, id);
    var q := RefreshVideo(image, v, info, windows, id).next;
    hide RefreshVideo, Occluded, PixelX, PixelY;
    var cols, rows := ShowShape(q).cols, ShowShape(q).rows;
    if col < cols && row < rows {
      VideoPixels(image, q, col, row);
    }
  }

  lemma {:induction false} VideoPixels(image: int, q: Video, col: int, row: int)
    requires 0 <= col < ShowShape(q).cols && 0 <= row < ShowShape(q).rows
    requires q.cols <= q.pixelWidth && q.rows <= q.pixelHeight
    ensures var c := VideoReplace(image, q);
            && Share(col, q.pixelWidth, q.cols) - 1.0 <= PixelX(c, q.pixelWidth, q.hostX + col) <=
                 Share(col, q.pixelWidth, q.cols)
            && Share(row, q.pixelHeight, q.rows) - 1.0 <= PixelY(c, q.pixelHeight, q.hostY + row) <=
                 Share(row, q.pixelHeight, q.rows)
  {
    var s := ShowShape(q);
    PartShare(col, s.cols, q.pixelWidth, q.cols, q.pixelWidth * s.cols / q.cols);
    PartShare(row, s.rows, q.pixelHeight, q.rows, q.pixelHeight * s.rows / q.rows);
    hide Share;
  }

  /** A part of the bitmap, cut to whole pixels, spread over as many cells. */
  lemma {:induction false} PartShare(k: int, part: int, bitmap: int, n: int, w: int)
    requires 1 <= part <= n <= bitmap && 0 <= k < part && w == bitmap * part / n
    ensures w >= 1 && Share(k, bitmap, n) - 1.0 <= Share(k, w, part) <= Share(k, bitmap, n)
  {
    hide Part;
    var rest := Divided(bitmap, part, n, w);
    PartOf(k as real, part as real, bitmap as real, n as real, w as real, rest as real);
  }

  lemma {:induction false} Divided(bitmap: int, part: int, n: int, w: int) returns (rest: int)
    requires 1 <= part <= n <= bitmap && w == bitmap * part / n
    ensures w >= 1 && 0 <= rest < n && bitmap as real * part as real == w as real * n as real + rest as real
  {
    rest := bitmap * part % n;
    NoLess(n, bitmap, part);
    NoLess(1, part, n);
    assert bitmap * part == w * n + rest;
  }

  lemma {:induction false} PartOf(k: real, part: real, bitmap: real, n: real, w: real, rest: real)
    requires 0.0 < part <= n && 0.0 <= k < part && 0.0 <= rest < n && bitmap * part == w * n + rest
    ensures Part(k, bitmap, n) - 1.0 <= Part(k, w, part) <= Part(k, bitmap, n)
  {
    var x, y := Part(k, bitmap, n), Part(k, w, part);
    Times(k, bitmap, n);
    Times(k, w, part);
    Crosswise(k, part, bitmap, n, w, rest, x, y);
    Smaller(k, part, rest, n);
    Bounded(x - y, part * n, k * rest);
  }

  lemma {:induction false} Times(k: real, pixels: real, n: real)
    requires n > 0.0
    ensures Part(k, pixels, n) * n == k * pixels
  {
  }

  lemma {:induction false} Crosswise(k: real, part: real, bitmap: real, n: real, w: real, rest: real, x: real, y: real)
    requires x * n == k * bitmap && y * part == k * w && bitmap * part == w * n + rest
    ensures (x - y) * (part * n) == k * rest
  {
    assert x * (part * n) == (x * n) * part;
    assert y * (part * n) == (y * part) * n;
    assert (k * bitmap) * part == k * (bitmap * part);
    assert k * (w * n + rest) == (k * w) * n + k * rest;
    assert (x - y) * (part * n) == x * (part * n) - y * (part * n);
  }

  lemma {:induction false} Smaller(k: real, part: real, rest: real, n: real)
    requires 0.0 <= k < part && 0.0 <= rest < n
    ensures 0.0 <= k * rest < part * n
  {
    assert k * rest <= k * n;
    assert k * n < part * n;
  }

  lemma {:induction false} Bounded(d: real, whole: real, rest: real)
    requires d * whole == rest && 0.0 <= rest < whole
    ensures 0.0 <= d < 1.0
  {
    assert d < 0.0 ==> d * whole < 0.0;
    assert d >= 1.0 ==> (d - 1.0) * whole >= 0.0;
    assert (d - 1.0) * whole == d * whole - whole;
  }
}
