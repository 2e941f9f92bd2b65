/**
  Where a guest's image goes on the host terminal, and the commands that put it there.

  Positions and sizes are in cells unless a name says pixels. The rules are pure: one placement or
  one video image against one window's geometry. KittyPassthrough applies them to the whole state.
 */
module KittyPlacement {
  import opened Common

  /** One window as the layout has it this frame. */
  datatype WindowInfo = WindowInfo(
    x: int, y: int, offsetX: int, offsetY: int, width: int, height: int,
    visible: bool, scrollbackLen: int, scrollOffset: int, manipulated: bool,
    screenWidth: int, screenHeight: int, z: int, altScreen: bool)

  type Windows = map<string, WindowInfo>

  /** An image placed by a guest. `rows` and `cols` are its size, the rest its state on the host. */
  datatype Placement = Placement(
    hostID: int, placementID: int, guestX: int, absoluteLine: int, streaming: bool,
    hostX: int, hostY: int, cols: int, rows: int, displayRows: int, hidden: bool,
    sourceX: int, sourceY: int, sourceWidth: int, sourceHeight: int,
    xOffset: int, yOffset: int, zIndex: int, pixelWidth: int, pixelHeight: int, onAltScreen: bool,
    clipTop: int, clipBottom: int, maxRows: int, maxCols: int)

  /** A video image that places itself with every frame. */
  datatype Video = Video(
    guestX: int, guestY: int, cols: int, rows: int, altScreen: bool, pixelWidth: int, pixelHeight: int,
    hostX: int, hostY: int, showCols: int, showRows: int, hidden: bool)

  /** A source rectangle in pixels; 0 for a width or height leaves it to the host. */
  datatype Source = Source(x: int, y: int, w: int, h: int)

  datatype HostCommand =
    | Place(image: int, placement: int, x: int, y: int, cols: int, rows: int, source: Source,
            xOffset: int, yOffset: int, z: int)
    | Delete(image: int)
    | Free(image: int)

  /** The pixel size of a host cell. */
  datatype Caps = Caps(cellWidth: int, cellHeight: int)

  predicate RectsOverlap(x1: int, y1: int, w1: int, h1: int, x2: int, y2: int, w2: int, h2: int) {
    x1 < x2 + w2 && x1 + w1 > x2 && y1 < y2 + h2 && y1 + h1 > y2
  }

  /** A visible window above z, other than `except`, overlaps the rectangle. */
  predicate Occluded(x: int, y: int, w: int, h: int, z: int, windows: Windows, except: string) {
    exists id :: id in windows && id != except && windows[id].visible && windows[id].z > z
              && RectsOverlap(x, y, w, h, windows[id].x, windows[id].y, windows[id].width, windows[id].height)
  }

  /** What a refresh wants of a placement. */
  datatype Want = Hide | Show(x: int, y: int, clipTop: int, clipBottom: int, rows: int, cols: int)

  function ViewportRows(info: WindowInfo): int { info.height - 2 * info.offsetY }

  function ViewportCols(info: WindowInfo): int { info.width - 2 * info.offsetX }

  /** The image clipped to the pane: rows scrolled off either end, columns off the right. */
  function ClipToPane(p: Placement, info: WindowInfo): Want {
    var top := p.absoluteLine - (info.scrollbackLen - info.scrollOffset);
    var bottom, right := top + p.rows, p.guestX + p.cols;
    var vpRows, vpCols := ViewportRows(info), ViewportCols(info);
    if !(info.visible && top < vpRows && bottom > 0 && p.guestX < vpCols && right > 0) then Hide
    else
      var clipTop := if top < 0 then -top else 0;
      var clipBottom := if bottom > vpRows then bottom - vpRows else 0;
      var fit := Min(p.rows - clipTop - clipBottom, vpRows);
      var rows := if fit <= 0 then 1 else fit;
      var cols := if right > vpCols then vpCols - p.guestX else p.cols;
      if right > vpCols && cols <= 0 then Hide
      else
        Show(info.x + info.offsetX + p.guestX,
             info.y + info.offsetY + (if clipTop > 0 then 0 else top),
             clipTop, clipBottom, rows, cols)
  }

  /** Native terminals only: the last screen row stays free, and nothing passes the right edge. */
  function ClipToScreen(w: Want, info: WindowInfo): Want {
    match w
    case Hide => Hide
    case Show(x, y, clipTop, clipBottom, rows, cols) =>
      var maxBottom := info.screenHeight - 1;
      var tall := info.screenHeight > 0 && y + rows > maxBottom;
      var wide := info.screenWidth > 0 && x + cols > info.screenWidth;
      if tall && maxBottom - y <= 0 then Hide
      else if wide && info.screenWidth - x <= 0 then Hide
      else
        Show(x, y, clipTop,
             if tall then clipBottom + rows - (maxBottom - y) else clipBottom,
             if tall then maxBottom - y else rows,
             if wide then info.screenWidth - x else cols)
  }

  function Wanted(p: Placement, info: WindowInfo, windows: Windows, id: string, inline: bool): Want {
    var w := ClipToPane(p, info);
    if w.Hide? then Hide
    else if Occluded(w.x, w.y, w.cols, w.rows, info.z, windows, id) then Hide
    else if w.x < 0 || w.y < 0 || info.x < 0 || info.y < 0 then Hide
    else if inline then w
    else ClipToScreen(w, info)
  }

  // ---- the placing command -------------------------------------------------------------------

  function VisibleRows(p: Placement): int {
    if p.maxRows > 0 then p.maxRows else if p.displayRows > 0 then p.displayRows else if p.rows > 0 then p.rows else 1
  }

  function VisibleCols(p: Placement): int {
    if 0 < p.maxCols < p.cols then p.maxCols else p.cols
  }

  predicate Clipping(p: Placement) {
    p.clipTop > 0 || p.clipBottom > 0 || VisibleCols(p) < p.cols
  }

  // Go divides integers towards zero; every division here has non-negative operands.
  function PixelsPerRow(p: Placement, caps: Caps): int {
    if p.rows > 0 && p.pixelHeight > 0 then p.pixelHeight / p.rows
    else if p.rows > 0 && p.sourceHeight > 0 then p.sourceHeight / p.rows
    else if caps.cellHeight <= 0 then 20 else caps.cellHeight
  }

  function PixelsPerCol(p: Placement, caps: Caps): int {
    if p.cols > 0 && p.pixelWidth > 0 then p.pixelWidth / p.cols
    else if p.cols > 0 && p.sourceWidth > 0 then p.sourceWidth / p.cols
    else caps.cellWidth
  }

  function SourceOf(p: Placement, caps: Caps): Source {
    if Clipping(p) then
      var perRow, perCol, cols := PixelsPerRow(p, caps), PixelsPerCol(p, caps), VisibleCols(p);
      var y := p.sourceY + p.clipTop * perRow;
      var w0 := if p.sourceWidth == 0 && perCol > 0 then p.cols * perCol else p.sourceWidth;
      var w1 := if cols < p.cols && perCol > 0 then cols * perCol else w0;
      var h1 := VisibleRows(p) * perRow;
      var h := if p.pixelHeight > 0 && y + h1 > p.pixelHeight then Max(p.pixelHeight - y, 0) else h1;
      var w := if p.pixelWidth > 0 && p.sourceX + w1 > p.pixelWidth then Max(p.pixelWidth - p.sourceX, 0) else w1;
      Source(p.sourceX, y, w, h)
    else if p.sourceWidth > 0 || p.sourceHeight > 0 then
      Source(Max(p.sourceX, 0), Max(p.sourceY, 0), Max(p.sourceWidth, 0), Max(p.sourceHeight, 0))
    else
      Source(0, 0, 0, 0)
  }

  /** A placement is always placed under a fixed non-zero id, so placing again replaces it. */
  function WithID(p: Placement): Placement {
    if p.placementID == 0 then p.(placementID := 1) else p
  }

  function PlaceCommand(p: Placement, caps: Caps): HostCommand {
    Place(p.hostID, WithID(p).placementID, p.hostX, p.hostY, VisibleCols(p), VisibleRows(p), SourceOf(p, caps),
          Max(p.xOffset, 0), Max(p.yOffset, 0), p.zIndex)
  }

  // ---- one placement in one refresh ----------------------------------------------------------

  /** What a step does to one placement: its new state, the commands sent, and whether it is forgotten. */
  datatype Step<T> = Step(next: T, sent: seq<HostCommand>, dropped: bool)

  function HideOne(p: Placement): Step<Placement> {
    if p.hidden then Step(p, [], false) else Step(p.(hidden := true), [Delete(p.hostID)], false)
  }

  predicate Changes(p: Placement, w: Want)
    requires w.Show?
  {
    p.hidden || p.hostX != w.x || p.hostY != w.y || p.clipTop != w.clipTop || p.clipBottom != w.clipBottom
    || p.maxRows != w.rows || p.maxCols != w.cols
  }

  function RefreshOne(p: Placement, info: WindowInfo, windows: Windows, id: string, inline: bool, caps: Caps)
    : Step<Placement>
  {
    if p.streaming then Step(p, [], false)
    else if info.altScreen != p.onAltScreen then
      HideOne(p).(dropped := !info.altScreen && p.onAltScreen)
    else
      var w := Wanted(p, info, windows, id, inline);
      if w.Hide? then HideOne(p)
      else if Changes(p, w) then
        var q := WithID(p.(hostX := w.x, hostY := w.y, clipTop := w.clipTop, clipBottom := w.clipBottom,
                           maxRows := w.rows, maxCols := w.cols, hidden := false));
        Step(q, [PlaceCommand(q, caps)], false)
      else Step(p, [], false)
  }

  /** One placement when its window is moved. */
  function MoveOne(p: Placement, newX: int, newY: int, offsetX: int, offsetY: int, viewportTop: int,
                   viewportRows: int, caps: Caps): Step<Placement>
  {
    var top := p.absoluteLine - viewportTop;
    var gone := if p.hidden then [] else [Delete(p.hostID)];
    var q := p.(hostX := newX + offsetX + p.guestX, hostY := newY + offsetY + top);
    if 0 <= top < viewportRows then
      var q' := WithID(q.(hidden := false));
      Step(q', gone + [PlaceCommand(q', caps)], false)
    else
      Step(q.(hidden := true), gone, false)
  }

  // ---- one video image in one refresh --------------------------------------------------------

  /** The rectangle and crop a video image is to be shown with. */
  datatype Shape = Shape(cols: int, rows: int, srcW: int, srcH: int)

  function ShowShape(v: Video): Shape {
    var cols := if 0 < v.showCols < v.cols then v.showCols else v.cols;
    var rows := if 0 < v.showRows < v.rows then v.showRows else v.rows;
    if (cols < v.cols || rows < v.rows) && v.pixelWidth > 0 && v.pixelHeight > 0 && v.cols > 0 && v.rows > 0
    then Shape(cols, rows, v.pixelWidth * cols / v.cols, v.pixelHeight * rows / v.rows)
    else Shape(cols, rows, 0, 0)
  }

  function VideoSource(s: Shape): Source {
    if s.srcW > 0 && s.srcH > 0 then Source(0, 0, s.srcW, s.srcH) else Source(0, 0, 0, 0)
  }

  function VideoReplace(image: int, v: Video): HostCommand {
    var s := ShowShape(v);
    Place(image, 1, v.hostX, v.hostY, s.cols, s.rows, VideoSource(s), 0, 0, 0)
  }

  function RefreshVideo(image: int, v: Video, info: WindowInfo, windows: Windows, id: string): Step<Video> {
    if info.altScreen != v.altScreen then Step(v, [Delete(image)], true)
    else
      var x, y := info.x + info.offsetX + v.guestX, info.y + info.offsetY + v.guestY;
      var seen := info.visible && x >= 0 && y >= 0 && info.x >= 0 && info.y >= 0;
      var cols := if seen && info.screenWidth > 0 && x + v.cols > info.screenWidth
                  then info.screenWidth - x else v.cols;
      var rows := if seen && info.screenHeight > 0 && y + v.rows > info.screenHeight - 1
                  then info.screenHeight - 1 - y else v.rows;
      var visible := seen && cols > 0 && rows > 0 && !Occluded(x, y, cols, rows, info.z, windows, id);
      var changed := v.hidden || x != v.hostX || y != v.hostY || cols != v.showCols || rows != v.showRows;
      var q := v.(hostX := x, hostY := y, showCols := cols, showRows := rows);
      if !visible then
        Step(q.(hidden := true), if v.hidden then [] else [Delete(image)], false)
      else
        var q' := q.(hidden := false);
        Step(q', if changed then [VideoReplace(image, q')] else [], false)
  }

  // ---- a refresh as geometry -----------------------------------------------------------------

  /** The row of the pane the image begins on. */
  function Top(p: Placement, info: WindowInfo): int { p.absoluteLine - (info.scrollbackLen - info.scrollOffset) }

  /** The rows and columns of the image that are inside the pane; one row is shown even of none. */
  function PaneRows(p: Placement, info: WindowInfo): int {
    Max(1, Min(Top(p, info) + p.rows, ViewportRows(info)) - Max(Top(p, info), 0))
  }

  function PaneCols(p: Placement, info: WindowInfo): int {
    Min(p.cols, ViewportCols(info) - p.guestX)
  }

  /** The screen cell of the first of them. */
  function ShownX(p: Placement, info: WindowInfo): int { info.x + info.offsetX + p.guestX }

  function ShownY(p: Placement, info: WindowInfo): int { info.y + info.offsetY + Max(Top(p, info), 0) }

  /** Those of them that are on the screen, its last row left free. */
  function ShownRows(p: Placement, info: WindowInfo): int {
    if info.screenHeight > 0 then Min(PaneRows(p, info), info.screenHeight - 1 - ShownY(p, info))
    else PaneRows(p, info)
  }

  function ShownCols(p: Placement, info: WindowInfo): int {
    if info.screenWidth > 0 then Min(PaneCols(p, info), info.screenWidth - ShownX(p, info)) else PaneCols(p, info)
  }

  /** Some of the image is inside the pane and on the screen, and no window above covers what is in the pane. */
  predicate InSight(p: Placement, info: WindowInfo, windows: Windows, id: string) {
    var x, y := ShownX(p, info), ShownY(p, info);
    && info.visible && Top(p, info) < ViewportRows(info) && 0 < Top(p, info) + p.rows
    && p.guestX < ViewportCols(info) && 0 < p.guestX + p.cols
    && 0 <= x && 0 <= y && 0 <= info.x && 0 <= info.y
    && (info.screenHeight > 0 ==> y < info.screenHeight - 1)
    && (info.screenWidth > 0 ==> x < info.screenWidth || x + PaneCols(p, info) <= info.screenWidth)
    && !Occluded(x, y, PaneCols(p, info), PaneRows(p, info), info.z, windows, id)
  }

  /** The clipping, step by step, comes to just that. */
  lemma {:induction false} WantedIsGeometry(p: Placement, info: WindowInfo, windows: Windows, id: string)
    ensures Wanted(p, info, windows, id, false) ==
            if InSight(p, info, windows, id) then
              Show(ShownX(p, info), ShownY(p, info), Max(-Top(p, info), 0),
                   Max(Top(p, info) + p.rows - ViewportRows(info), 0) + PaneRows(p, info) - ShownRows(p, info),
                   ShownRows(p, info), ShownCols(p, info))
            else Hide
  {
  }

  /**
    A native refresh of one placement, all of it. A placement still being transmitted is left alone, and
    one of the other screen is hidden, for good if it is left from the alternate one. Any other is shown
    exactly if some of it is in sight, as much as is; and something is sent exactly if that is a change.
   */
  lemma {:induction false} RefreshIsGeometry(p: Placement, info: WindowInfo, windows: Windows, id: string, caps: Caps)
    ensures var step := RefreshOne(p, info, windows, id, false, caps);
            var shown := info.altScreen == p.onAltScreen && InSight(p, info, windows, id);
            if p.streaming then step == Step(p, [], false)
            else if shown then
              && step.next == (if step.sent == [] then p else WithID(p)).(
                   hostX := ShownX(p, info), hostY := ShownY(p, info), clipTop := Max(-Top(p, info), 0),
                   clipBottom := Max(Top(p, info) + p.rows - ViewportRows(info), 0) +
                                 PaneRows(p, info) - ShownRows(p, info),
                   maxRows := ShownRows(p, info), maxCols := ShownCols(p, info), hidden := false)
              && (step.sent == [] <==> step.next == p)
              && (step.sent != [] ==> step.sent == [PlaceCommand(step.next, caps)])
              && !step.dropped
            else
              && step.next == p.(hidden := true)
              && step.sent == (if p.hidden then [] else [Delete(p.hostID)])
              && (step.dropped <==> p.onAltScreen && !info.altScreen)
  {
    WantedIsGeometry(p, info, windows, id);
    hide Wanted, InSight, SourceOf;
  }

  /** An inline host is treated as one whose screen has no edges. */
  lemma {:induction false} InlineHasNoEdges(p: Placement, info: WindowInfo, windows: Windows, id: string, caps: Caps)
    ensures RefreshOne(p, info, windows, id, true, caps) ==
            RefreshOne(p, info.(screenWidth := 0, screenHeight := 0), windows, id, false, caps)
  {
    hide Occluded, SourceOf;
  }

  /**
    A window move takes the image along. It is placed at its cell of the pane, as it is clipped, if its
    first row is in the pane, and hidden if not; either way it is taken off the screen first.
   */
  lemma {:induction false} MoveIsGeometry(p: Placement, newX: int, newY: int, offsetX: int, offsetY: int,
                                          viewportTop: int, viewportRows: int, caps: Caps)
    ensures var step := MoveOne(p, newX, newY, offsetX, offsetY, viewportTop, viewportRows, caps);
            var inView := viewportTop <= p.absoluteLine < viewportTop + viewportRows;
            && step.next == (if inView then WithID(p) else p).(
                 hostX := newX + offsetX + p.guestX, hostY := newY + offsetY + p.absoluteLine - viewportTop,
                 hidden := !inView)
            && step.sent == (if p.hidden then [] else [Delete(p.hostID)]) +
                            (if inView then [PlaceCommand(step.next, caps)] else [])
            && !step.dropped
  {
    hide SourceOf;
  }

  /** What a placing command says besides the crop. */
  lemma {:induction false} CommandCarries(p: Placement, caps: Caps)
    ensures var c := PlaceCommand(p, caps);
            && c.image == p.hostID && c.x == p.hostX && c.y == p.hostY && c.z == p.zIndex
            && c.placement == WithID(p).placementID != 0 && (p.placementID != 0 ==> c.placement == p.placementID)
            && c.xOffset >= 0 && c.yOffset >= 0
            && (p.xOffset >= 0 ==> c.xOffset == p.xOffset) && (p.yOffset >= 0 ==> c.yOffset == p.yOffset)
            && c.rows >= 1 && (c.rows in {p.maxRows, p.displayRows, p.rows, 1})
            && (p.maxRows >= 1 ==> c.rows == p.maxRows) && c.cols <= p.cols
            && (p.maxRows < 1 <= p.displayRows ==> c.rows == p.displayRows)
            && (1 <= p.maxCols <= p.cols ==> c.cols == p.maxCols)
            && (p.maxCols < 1 || p.maxCols >= p.cols ==> c.cols == p.cols)
    ensures WithID(p) == p.(placementID := WithID(p).placementID)
  {
    hide SourceOf;
  }

  /** The whole image is in the pane and on the screen, in sight. */
  predicate InFullView(p: Placement, info: WindowInfo, windows: Windows, id: string) {
    var top := Top(p, info);
    var x, y := info.x + info.offsetX + p.guestX, info.y + info.offsetY + top;
    && info.visible && info.x >= 0 && info.y >= 0 && x >= 0 && y >= 0
    && p.rows >= 1 && p.cols >= 1 && 0 <= top && top + p.rows <= ViewportRows(info)
    && 0 < p.guestX + p.cols <= ViewportCols(info)
    && (info.screenHeight > 0 ==> y + p.rows <= info.screenHeight - 1)
    && (info.screenWidth > 0 ==> x + p.cols <= info.screenWidth)
    && !Occluded(x, y, p.cols, p.rows, info.z, windows, id)
  }

  // ---- properties of one refresh -------------------------------------------------------------

  /** The image has a known height and the pane has room for at least one row of it. */
  predicate Sized(p: Placement, info: WindowInfo) {
    p.rows >= 1 && ViewportRows(info) >= 1
  }

  /**
    A placement that a native refresh leaves shown lies on the screen, the last row free, between the
    left and right edge of its pane, under no visible window above its own; and between the pane's
    top and bottom exactly when the pane has a row at all.
   */
  lemma {:induction false} ShownFits(p: Placement, info: WindowInfo, windows: Windows, id: string, caps: Caps)
    requires !p.streaming && p.guestX >= 0
    requires var q := RefreshOne(p, info, windows, id, false, caps).next; !q.hidden
    ensures var q := RefreshOne(p, info, windows, id, false, caps).next;
            && q.hostX >= 0 && q.hostY >= 0 && VisibleRows(q) >= 1 && (p.cols >= 1 ==> VisibleCols(q) >= 1)
            && info.x + info.offsetX <= q.hostX
            && q.hostX + VisibleCols(q) <= info.x + info.width - info.offsetX
            && (info.screenHeight > 0 ==> q.hostY + VisibleRows(q) <= info.screenHeight - 1)
            && (info.screenWidth > 0 ==> q.hostX + VisibleCols(q) <= info.screenWidth)
            && !Occluded(q.hostX, q.hostY, VisibleCols(q), VisibleRows(q), info.z, windows, id)
    ensures var q := RefreshOne(p, info, windows, id, false, caps).next;
            ViewportRows(info) >= 1 <==>
              && info.y + info.offsetY <= q.hostY
              && q.hostY + VisibleRows(q) <= info.y + info.height - info.offsetY
  {
    var w := Wanted(p, info, windows, id, false);
    var q := RefreshOne(p, info, windows, id, false, caps).next;
    assert w.Show? && q.hostX == w.x && q.hostY == w.y && q.maxRows == w.rows && q.maxCols == w.cols;
    var pane := ClipToPane(p, info);
    assert pane.x == w.x && pane.y == w.y && w.rows <= pane.rows && w.cols <= pane.cols;
  }

  /**
    The rows clipped at the top, shown, and clipped at the bottom add up to the image's rows exactly
    when the image has a known height and the pane has a row to show it in.
   */
  lemma {:induction false} RowsAddUp(p: Placement, info: WindowInfo, windows: Windows, id: string, inline: bool,
                                     caps: Caps)
    requires !p.streaming
    requires var q := RefreshOne(p, info, windows, id, inline, caps).next; !q.hidden
    ensures var q := RefreshOne(p, info, windows, id, inline, caps).next;
            q.clipTop + VisibleRows(q) + q.clipBottom == p.rows <==> Sized(p, info)
  {
    var w := Wanted(p, info, windows, id, inline);
    assert w.Show?;
  }

  /** An image without rows inside its pane is shown all the same, on one row it does not have. */
  lemma {:induction false} RowsNeedNotAddUp(p: Placement, info: WindowInfo, id: string, caps: Caps)
    requires p.rows == 0 && p.cols == 4 && p.guestX == 0 && !p.streaming && info.altScreen == p.onAltScreen
    requires 0 < Top(p, info) < ViewportRows(info) && 4 <= ViewportCols(info) && info.visible
    requires info.x >= 0 && info.y >= 0 && info.offsetX >= 0 && info.offsetY >= 0
    requires info.x + info.width <= info.screenWidth && info.y + info.height <= info.screenHeight - 1
    ensures var q := RefreshOne(p, info, map[], id, false, caps).next;
            !q.hidden && q.clipTop + VisibleRows(q) + q.clipBottom == 1
  {
    assert !Occluded(info.x + info.offsetX, info.y + info.offsetY + Top(p, info), 4, 1, info.z, map[], id);
  }

  predicate InBitmap(s: Source, p: Placement) {
    0 <= s.x && 0 <= s.w && s.x + s.w <= p.pixelWidth && 0 <= s.y && 0 <= s.h && s.y + s.h <= p.pixelHeight
  }

  /** The bitmap's size is known, and the guest asked for no offset into it. */
  predicate WholeBitmap(p: Placement) {
    && p.pixelWidth > 0 && p.pixelHeight > 0 && p.sourceX == 0 && p.sourceY == 0
    && p.sourceWidth >= 0 && p.sourceHeight >= 0 && p.cols >= 0
  }

  lemma {:induction false} NoLess(a: int, b: int, times: int)
    requires 0 <= a <= b && 0 <= times
    ensures 0 <= a * times <= b * times
  {
  }

  /** The rows clipped at the top end inside the bitmap. */
  lemma {:induction false} TopInBitmap(p: Placement, caps: Caps)
    requires WholeBitmap(p) && 0 <= p.clipTop <= Max(p.rows, 0)
    ensures PixelsPerRow(p, caps) >= 0 && 0 <= p.clipTop * PixelsPerRow(p, caps) <= p.pixelHeight
    ensures 0 <= VisibleRows(p) * PixelsPerRow(p, caps)
  {
    var perRow := PixelsPerRow(p, caps);
    if p.rows > 0 {
      assert perRow == p.pixelHeight / p.rows;
      assert p.rows * perRow <= p.pixelHeight;
      NoLess(p.clipTop, p.rows, perRow);
    }
    NoLess(0, VisibleRows(p), perRow);
  }

  lemma {:induction false} SidesInBitmap(p: Placement, caps: Caps)
    requires WholeBitmap(p) && PixelsPerCol(p, caps) > 0
    ensures 0 <= VisibleCols(p) * PixelsPerCol(p, caps) && 0 <= p.cols * PixelsPerCol(p, caps)
  {
    NoLess(0, VisibleCols(p), PixelsPerCol(p, caps));
    NoLess(0, p.cols, PixelsPerCol(p, caps));
  }

  lemma {:induction false} CropInBitmap(p: Placement, caps: Caps)
    requires WholeBitmap(p) && 0 <= p.clipTop <= Max(p.rows, 0)
    ensures InBitmap(SourceOf(p, caps), p) <==>
            Clipping(p) || (p.sourceWidth <= p.pixelWidth && p.sourceHeight <= p.pixelHeight)
  {
    TopInBitmap(p, caps);
    if PixelsPerCol(p, caps) > 0 {
      SidesInBitmap(p, caps);
    }
  }

  /**
    The source rectangle of a placement a refresh leaves shown lies in the bitmap whenever the image
    is clipped; unclipped, the guest's own rectangle is passed on as it is, and has to fit by itself.
   */
  lemma {:induction false} ShownCropInBitmap(p: Placement, info: WindowInfo, windows: Windows, id: string, inline: bool,
                                             caps: Caps)
    requires !p.streaming && WholeBitmap(p)
    requires var q := RefreshOne(p, info, windows, id, inline, caps).next; !q.hidden
    ensures var q := RefreshOne(p, info, windows, id, inline, caps).next;
            InBitmap(SourceOf(q, caps), q) <==>
            Clipping(q) || (p.sourceWidth <= p.pixelWidth && p.sourceHeight <= p.pixelHeight)
  {
    var q := RefreshOne(p, info, windows, id, inline, caps).next;
    assert q.clipTop == Wanted(p, info, windows, id, inline).clipTop;
    CropInBitmap(q, caps);
  }

  /**
    A guest may ask for more than it sent: in full view the image is shown whole, and the guest's
    rectangle goes out unchecked, inside the bitmap exactly if the guest saw to it.
   */
  lemma {:induction false} GuestCropCanOverflow(p: Placement, info: WindowInfo, windows: Windows, id: string,
                                                inline: bool, caps: Caps)
    requires !p.streaming && WholeBitmap(p) && info.altScreen == p.onAltScreen && InFullView(p, info, windows, id)
    ensures var q := RefreshOne(p, info, windows, id, inline, caps).next;
            && !q.hidden
            && (InBitmap(SourceOf(q, caps), q) <==> p.sourceWidth <= p.pixelWidth && p.sourceHeight <= p.pixelHeight)
  {
    var q := RefreshOne(p, info, windows, id, inline, caps).next;
    WantedInFullView(p, info, windows, id, inline);
    ShownCropInBitmap(p, info, windows, id, inline, caps);
  }

  lemma {:induction false} WantedInFullView(p: Placement, info: WindowInfo, windows: Windows, id: string, inline: bool)
    requires InFullView(p, info, windows, id)
    ensures Wanted(p, info, windows, id, inline) == Show(ShownX(p, info), ShownY(p, info), 0, 0, p.rows, p.cols)
  {
  }

  /** Refreshing a placement a second time changes nothing and sends nothing. */
  lemma {:induction false} RefreshOneSettles(p: Placement, info: WindowInfo, windows: Windows, id: string, inline: bool,
                                             caps: Caps)
    requires !RefreshOne(p, info, windows, id, inline, caps).dropped
    ensures var q := RefreshOne(p, info, windows, id, inline, caps).next;
            RefreshOne(q, info, windows, id, inline, caps) == Step(q, [], false)
  {
    hide ClipToScreen, Occluded, PlaceCommand;
    var q := RefreshOne(p, info, windows, id, inline, caps).next;
    assert Wanted(q, info, windows, id, inline) == Wanted(p, info, windows, id, inline);
  }

  lemma {:induction false} RefreshVideoSettles(image: int, v: Video, info: WindowInfo, windows: Windows, id: string)
    requires !RefreshVideo(image, v, info, windows, id).dropped
    ensures var q := RefreshVideo(image, v, info, windows, id).next;
            RefreshVideo(image, q, info, windows, id) == Step(q, [], false)
  {
  }

  /**
    A video image a refresh leaves shown is on the screen, the last row free, at its place in the pane
    and under no visible window above its own.
   */
  lemma {:induction false} VideoFits(image: int, v: Video, info: WindowInfo, windows: Windows, id: string)
    requires !RefreshVideo(image, v, info, windows, id).dropped
    requires !RefreshVideo(image, v, info, windows, id).next.hidden
    ensures var q := RefreshVideo(image, v, info, windows, id).next;
            var s := ShowShape(q);
            && q.hostX >= 0 && q.hostY >= 0 && s.cols >= 1 && s.rows >= 1
            && q.hostX - info.x == info.offsetX + v.guestX && q.hostY - info.y == info.offsetY + v.guestY
            && (info.screenWidth > 0 ==> q.hostX + s.cols <= info.screenWidth)
            && (info.screenHeight > 0 ==> q.hostY + s.rows <= info.screenHeight - 1)
            && !Occluded(q.hostX, q.hostY, s.cols, s.rows, info.z, windows, id)
  {
  }

  lemma {:induction false} Share(all: int, whole: int, most: int)
    requires 0 < whole && 0 <= all <= most * whole
    ensures 0 <= all / whole <= most
  {
    var q := all / whole;
    assert q * whole <= all;
    assert (q - most) * whole == q * whole - most * whole;
    assert q > most ==> (q - most) * whole >= 1 * whole;
  }

  lemma {:induction false} ScaledDown(pixels: int, part: int, whole: int)
    requires 0 <= pixels && 0 < part <= whole
    ensures 0 <= pixels * part / whole <= pixels
  {
    NoLess(part, whole, pixels);
    assert part * pixels == pixels * part && whole * pixels == pixels * whole;
    Share(pixels * part, whole, pixels);
  }

  /** The part of a video bitmap that is asked for lies in it, and only a clipped image asks for a part. */
  lemma {:induction false} VideoCropInBitmap(v: Video)
    requires v.cols >= 1 && v.rows >= 1 && v.pixelWidth > 0 && v.pixelHeight > 0
    ensures var s := ShowShape(v);
            && 0 <= s.srcW <= v.pixelWidth && 0 <= s.srcH <= v.pixelHeight
            && (s.cols == v.cols && s.rows == v.rows ==> VideoSource(s) == Source(0, 0, 0, 0))
  {
    var s := ShowShape(v);
    ScaledDown(v.pixelWidth, s.cols, v.cols);
    ScaledDown(v.pixelHeight, s.rows, v.rows);
  }

  /**
    Where the whole image is in view, a window move places it exactly where a refresh would, and the
    next refresh has something to correct only if the image was shown clipped before.
   */
  lemma {:induction false} MoveAgreesWithRefresh(p: Placement, info: WindowInfo, windows: Windows, id: string,
                                                 inline: bool, caps: Caps)
    requires InFullView(p, info, windows, id) && !p.streaming && info.altScreen == p.onAltScreen
    ensures var moved := MoveOne(p, info.x, info.y, info.offsetX, info.offsetY, info.scrollbackLen - info.scrollOffset,
                                 ViewportRows(info), caps).next;
            var refreshed := RefreshOne(p, info, windows, id, inline, caps).next;
            && !moved.hidden && !refreshed.hidden
            && moved.hostX == refreshed.hostX && moved.hostY == refreshed.hostY
            && (RefreshOne(moved, info, windows, id, inline, caps).sent == [] <==>
                  p.clipTop == 0 && p.clipBottom == 0 && p.maxRows == p.rows && p.maxCols == p.cols)
  {
    hide Wanted, PlaceCommand;
    var moved := MoveOne(p, info.x, info.y, info.offsetX, info.offsetY, info.scrollbackLen - info.scrollOffset,
                         ViewportRows(info), caps).next;
    WantedInFullView(p, info, windows, id, inline);
    assert InFullView(moved, info, windows, id);
    WantedInFullView(moved, info, windows, id, inline);
    hide InFullView;
  }

  // ---- when a window move does as a refresh would ---------------------------------------------

  /** The rectangle shown is on the screen with the last row free, and inside its pane. */
  predicate Contained(q: Placement, info: WindowInfo) {
    && 0 <= q.hostX && q.hostX + VisibleCols(q) <= info.screenWidth
    && 0 <= q.hostY && q.hostY + VisibleRows(q) <= info.screenHeight - 1
    && info.x + info.offsetX <= q.hostX && q.hostX + VisibleCols(q) <= info.x + info.width - info.offsetX
    && info.y + info.offsetY <= q.hostY && q.hostY + VisibleRows(q) <= info.y + info.height - info.offsetY
  }

  /** The columns from a to b lie between these edges of the pane at x, and on the screen. */
  predicate Within(a: int, b: int, x: int, pane: int, screen: int) {
    0 <= a && b <= pane && 0 <= x + a && x + b <= screen
  }

  function Moved(p: Placement, info: WindowInfo, caps: Caps): Placement {
    MoveOne(p, info.x, info.y, info.offsetX, info.offsetY, info.scrollbackLen - info.scrollOffset,
            ViewportRows(info), caps).next
  }

  /**
    A moved image is inside pane and screen exactly if the part of it recorded before the move has
    room there: the move looks at the first row only.
   */
  lemma {:induction false} MoveContained(p: Placement, info: WindowInfo, caps: Caps)
    ensures var q := Moved(p, info, caps);
            && (q.hidden <==> !(0 <= Top(p, info) < ViewportRows(info)))
            && (Contained(q, info) <==>
                && Within(p.guestX, p.guestX + VisibleCols(p), info.x + info.offsetX, ViewportCols(info),
                          info.screenWidth)
                && Within(Top(p, info), Top(p, info) + VisibleRows(p), info.y + info.offsetY, ViewportRows(info),
                          info.screenHeight - 1))
  {
  }

  /** What a refresh leaves of a placement: streaming ones as they are, those of the other screen hidden. */
  function LaidOut(p: Placement, info: WindowInfo, windows: Windows, id: string, inline: bool): Want {
    if p.streaming then
      if p.hidden then Hide else Show(p.hostX, p.hostY, p.clipTop, p.clipBottom, p.maxRows, p.maxCols)
    else if info.altScreen != p.onAltScreen then Hide
    else Wanted(p, info, windows, id, inline)
  }

  /** Both hidden, or both shown alike. */
  predicate SameShown(a: Placement, b: Placement) {
    a.hidden == b.hidden && (!a.hidden ==> WithID(a) == WithID(b))
  }

  /**
    A window move leaves what a refresh would, exactly if both hide the image, or both show it and the
    refresh would clip it as it is recorded to be clipped.
   */
  lemma {:induction false} MoveIsRefresh(p: Placement, info: WindowInfo, windows: Windows, id: string, caps: Caps)
    ensures var w := LaidOut(p, info, windows, id, false);
            SameShown(Moved(p, info, caps), RefreshOne(p, info, windows, id, false, caps).next) <==>
            if 0 <= Top(p, info) < ViewportRows(info) then
              w == Show(info.x + info.offsetX + p.guestX, info.y + info.offsetY + Top(p, info),
                        p.clipTop, p.clipBottom, p.maxRows, p.maxCols)
            else w.Hide?
  {
    hide Wanted, SourceOf;
  }

  /** In geometry: exactly if both hide the image, or what is in sight of it is what is recorded. */
  lemma {:induction false} MoveIsRefreshInGeometry(p: Placement, info: WindowInfo, windows: Windows, id: string,
                                                   caps: Caps)
    requires !p.streaming
    ensures var shown := info.altScreen == p.onAltScreen && InSight(p, info, windows, id);
            SameShown(Moved(p, info, caps), RefreshOne(p, info, windows, id, false, caps).next) <==>
            if 0 <= Top(p, info) < ViewportRows(info) then
              && shown && p.clipTop == 0 && p.maxRows == ShownRows(p, info) && p.maxCols == ShownCols(p, info)
              && p.clipBottom == Max(Top(p, info) + p.rows - ViewportRows(info), 0) + PaneRows(p, info) - p.maxRows
            else !shown
  {
    MoveIsRefresh(p, info, windows, id, caps);
    WantedIsGeometry(p, info, windows, id);
    hide InSight, Occluded;
  }

  /** For an image shown whole before: exactly if it is in full view, or out of sight for both. */
  lemma {:induction false} MoveOfWholeImage(p: Placement, info: WindowInfo, windows: Windows, id: string, caps: Caps)
    requires !p.streaming && info.altScreen == p.onAltScreen && p.rows >= 1 && p.cols >= 1
    requires p.clipTop == 0 && p.clipBottom == 0 && p.maxRows == p.rows && p.maxCols == p.cols
    ensures SameShown(Moved(p, info, caps), RefreshOne(p, info, windows, id, false, caps).next) <==>
            if 0 <= Top(p, info) < ViewportRows(info) then InFullView(p, info, windows, id)
            else Wanted(p, info, windows, id, false).Hide?
  {
    hide SourceOf, MoveOne, RefreshOne;
    MoveIsRefresh(p, info, windows, id, caps);
  }

  /** A window move, unlike a refresh, does not look at the screen: it can place off its top-left corner. */
  lemma {:induction false} MoveCanPlaceOffScreen()
    ensures exists p: Placement, caps: Caps ::
              var s := MoveOne(p, -5, 3, 1, 1, 0, 10, caps); !s.next.hidden && s.next.hostX < 0
  {
    // A window dragged partly off the left edge of the screen.
    var p := Placement(7, 0, 0, 2, false, 0, 0, 4, 2, 2, true, 0, 0, 0, 0, 0, 0, 0, 0, 0, false, 0, 0, 0, 0);
    var caps := Caps(10, 20);
    assert MoveOne(p, -5, 3, 1, 1, 0, 10, caps).next.hostX == -4;
  }
}
