/**
  What is seen of a frame: every cell of a layer that nothing above it reaches, whatever lies beneath.
 */
module SeenCells {
  import opened Common
  import opened CanvasRow
  import opened StableSort
  import opened Compose
  import opened FrameDiff
  import opened FrameRuns

  // ---- one row -------------------------------------------------------------------------------

  /** The cell at column q does not belong to a wide one on its left. */
  predicate Standing(row: Row, q: nat)
    requires q < |row|
  {
    q > 0 ==> row[q - 1].width != 2
  }

  /** Setting this cell at column p leaves a cell like v at column q alone. */
  predicate Avoids(p: int, cell: Option<Cell>, q: int, v: Cell) {
    && p != q
    && (cell.Some? && cell.value.width == 2 ==> p + 1 != q)
    && (v.width == 2 ==> p != q + 1)
  }

  lemma {:induction false} SetElsewhere(row: Row, p: int, cell: Option<Cell>, q: nat)
    requires WellFormed(row) && q < |row| && Standing(row, q) && Avoids(p, cell, q, row[q])
    ensures SetCell(row, p, cell)[q] == row[q] && Standing(SetCell(row, p, cell), q)
  {
  }

  /** A column is as the first n writes left it, if the others avoid it. */
  lemma {:induction false} WritesElsewhere(row: Row, ws: seq<RowWrite>, x: int, n: nat, q: nat)
    requires WellFormed(row) && n <= |ws| && q < |row| && Standing(WriteAll(row, ws[..n], x), q)
    requires forall j :: n <= j < |ws| ==>
               Avoids(x + ws[j].x, Some(ws[j].cell), q, WriteAll(row, ws[..n], x)[q])
    ensures WriteAll(row, ws, x)[q] == WriteAll(row, ws[..n], x)[q] && Standing(WriteAll(row, ws, x), q)
    decreases |ws|
  {
    if n == |ws| {
      assert ws[..n] == ws;
    } else {
      var front, last := ws[..|ws| - 1], ws[|ws| - 1];
      assert front[..n] == ws[..n];
      WritesElsewhere(row, front, x, n, q);
      WriteAllWellFormed(row, front, x);
      SetElsewhere(WriteAll(row, front, x), x + last.x, Some(last.cell), q);
    }
  }

  /** A cell written last at its column shows. */
  lemma {:induction false} WrittenShows(row: Row, ws: seq<RowWrite>, x: int, width: nat, i: nat)
    requires WellFormed(row) && NoOverlap(ws) && i < |ws| && forall j :: i < j < |ws| ==> ws[j].x != ws[i].x
    requires 0 <= x + ws[i].x < |row| && x + ws[i].x + ws[i].cell.width <= |row|
    ensures DrawRow(row, ws, x, width)[x + ws[i].x] == ws[i].cell
    ensures Standing(DrawRow(row, ws, x, width), x + ws[i].x)
  {
    var cleared, q := ClearSpan(row, x, x + width), x + ws[i].x;
    ClearSpanWellFormed(row, x, x + width);
    assert ws[..i + 1][..i] == ws[..i];
    WriteAllWellFormed(cleared, ws[..i], x);
    var before := WriteAll(cleared, ws[..i], x);
    assert WriteAll(cleared, ws[..i + 1], x) == SetCell(before, q, Some(ws[i].cell));
    WritesElsewhere(cleared, ws, x, i + 1, q);
  }

  lemma {:induction false} ClearedIsEmpty(row: Row, a: int, b: int, q: nat)
    requires WellFormed(row) && q < |row| && a <= q < b
    ensures ClearSpan(row, a, b)[q] == EMPTY && Standing(ClearSpan(row, a, b), q)
    decreases b - a
  {
    ClearSpanWellFormed(row, a, b - 1);
    if q < b - 1 {
      ClearedIsEmpty(row, a, b - 1, q);
      SetElsewhere(ClearSpan(row, a, b - 1), b - 1, None, q);
    }
  }

  /** A column of the layer where it writes nothing is empty, whatever was there. */
  lemma {:induction false} UnwrittenIsEmpty(row: Row, ws: seq<RowWrite>, x: int, width: nat, q: nat)
    requires WellFormed(row) && q < |row| && x <= q < x + width
    requires forall j :: 0 <= j < |ws| ==>
               x + ws[j].x != q && (ws[j].cell.width == 2 ==> x + ws[j].x + 1 != q)
    ensures DrawRow(row, ws, x, width)[q] == EMPTY && Standing(DrawRow(row, ws, x, width), q)
  {
    ClearSpanWellFormed(row, x, x + width);
    ClearedIsEmpty(row, x, x + width, q);
    assert ws[..0] == [];
    WritesElsewhere(ClearSpan(row, x, x + width), ws, x, 0, q);
  }

  lemma {:induction false} ClearedElsewhere(row: Row, a: int, b: int, q: nat)
    requires WellFormed(row) && q < |row| && Standing(row, q)
    requires !(a <= q < b) && (row[q].width == 2 ==> !(a <= q + 1 < b))
    ensures ClearSpan(row, a, b)[q] == row[q] && Standing(ClearSpan(row, a, b), q)
    decreases b - a
  {
    if a < b {
      ClearedElsewhere(row, a, b - 1, q);
      ClearSpanWellFormed(row, a, b - 1);
      SetElsewhere(ClearSpan(row, a, b - 1), b - 1, None, q);
    }
  }

  /** The columns a cell takes. */
  function Extent(cell: Cell): int { Max(cell.width, 1) }

  ghost predicate RowInside(ws: seq<RowWrite>, width: nat) {
    forall j :: 0 <= j < |ws| ==> 0 <= ws[j].x && ws[j].x + Extent(ws[j].cell) <= width
  }

  /** A cell that lies outside the layer stays as it was. */
  lemma {:induction false} DrawnElsewhere(row: Row, ws: seq<RowWrite>, x: int, width: nat, q: nat)
    requires WellFormed(row) && RowInside(ws, width) && q < |row| && Standing(row, q)
    requires q + Extent(row[q]) <= x || x + width <= q
    ensures DrawRow(row, ws, x, width)[q] == row[q] && Standing(DrawRow(row, ws, x, width), q)
  {
    ClearSpanWellFormed(row, x, x + width);
    ClearedElsewhere(row, x, x + width, q);
    assert ws[..0] == [];
    WritesElsewhere(ClearSpan(row, x, x + width), ws, x, 0, q);
  }

  // ---- one frame -----------------------------------------------------------------------------

  /** A picture's cells lie within its area. */
  ghost predicate Inside(pic: Picture) {
    forall i :: 0 <= i < |pic.writes| ==>
      && 0 <= pic.writes[i].x && pic.writes[i].x + Extent(pic.writes[i].cell) <= pic.width
      && 0 <= pic.writes[i].y < pic.height
  }

  /** The layer does not reach any of the n columns from x on, in row y. */
  predicate Apart(p: Placed, picture: string -> Picture, x: int, n: int, y: int) {
    var pic := picture(p.content);
    y < p.y || p.y + pic.height <= y || x + n <= p.x || p.x + pic.width <= x
  }

  /** Write i is the last one of the picture at its place. */
  ghost predicate LastAt(ws: seq<CellWrite>, i: nat)
    requires i < |ws|
  {
    forall j :: i < j < |ws| ==> ws[j].x != ws[i].x || ws[j].y != ws[i].y
  }

  /** Among the writes of its row it is the last one at its column. */
  lemma {:induction false} LastOnRow(ws: seq<CellWrite>, i: nat) returns (k: nat)
    requires i < |ws| && LastAt(ws, i)
    ensures var m := Matching(ws, RowOf, ws[i].y);
            k < |m| && m[k] == ws[i] && forall j :: k < j < |m| ==> m[j].x != ws[i].x
  {
    var front, last := ws[..|ws| - 1], ws[|ws| - 1];
    if i == |ws| - 1 {
      k := |Matching(front, RowOf, last.y)|;
    } else {
      assert front[i] == ws[i];
      k := LastOnRow(front, i);
    }
  }

  lemma {:induction false} RowStaysInside(pic: Picture, r: int)
    requires Inside(pic)
    ensures RowInside(OnRow(pic, r), pic.width)
  {
    var m := Matching(pic.writes, RowOf, r);
    forall j | 0 <= j < |m|
      ensures 0 <= OnRow(pic, r)[j].x && OnRow(pic, r)[j].x + Extent(OnRow(pic, r)[j].cell) <= pic.width
    {
      MatchingWithin(pic.writes, r, m[j]);
    }
  }

  lemma {:induction false} MatchingWithin(ws: seq<CellWrite>, r: int, w: CellWrite)
    requires w in Matching(ws, RowOf, r)
    ensures w in ws
  {
    var front := ws[..|ws| - 1];
    if w in Matching(front, RowOf, r) {
      MatchingWithin(front, r, w);
    }
  }

  /** A cell stays as it is while layers that do not reach it are drawn. */
  lemma {:induction false} LaterApart(picture: string -> Picture, frame: seq<Placed>, k: nat, row: Row, q: nat, cy: int,
                                      h: int)
    requires k <= |frame| && WellFormed(row) && q < |row|
    requires Standing(DrawAllOnRow(row, frame[..k], picture, cy, |row|, h), q)
    requires var cell := DrawAllOnRow(row, frame[..k], picture, cy, |row|, h)[q];
             forall j :: k <= j < |frame| ==>
               Inside(picture(frame[j].content)) && Apart(frame[j], picture, q, Extent(cell), cy)
    ensures DrawAllOnRow(row, frame, picture, cy, |row|, h)[q] ==
            DrawAllOnRow(row, frame[..k], picture, cy, |row|, h)[q]
    ensures Standing(DrawAllOnRow(row, frame, picture, cy, |row|, h), q)
    decreases |frame|
  {
    if k == |frame| {
      assert frame[..k] == frame;
    } else {
      var front, last := frame[..|frame| - 1], frame[|frame| - 1];
      assert front[..k] == frame[..k];
      LaterApart(picture, front, k, row, q, cy, h);
      DrawAllOnRowWellFormed(row, front, picture, cy, |row|, h);
      hide WellFormed, Inside, Apart, Standing, DrawOnRow;
      OneApart(picture, DrawAllOnRow(row, front, picture, cy, |row|, h), last, q, cy, h);
    }
  }

  lemma {:induction false} OneApart(picture: string -> Picture, row: Row, p: Placed, q: nat, cy: int, h: int)
    requires WellFormed(row) && q < |row| && Standing(row, q)
    requires Inside(picture(p.content)) && Apart(p, picture, q, Extent(row[q]), cy)
    ensures DrawOnRow(row, p, picture, cy, |row|, h)[q] == row[q]
    ensures Standing(DrawOnRow(row, p, picture, cy, |row|, h), q)
  {
    hide WellFormed, Standing;
    var pic := picture(p.content);
    RowStaysInside(pic, cy - p.y);
    if Crosses(p, picture, cy) {
      DrawnElsewhere(row, OnRow(pic, cy - p.y), p.x, pic.width, q);
    }
  }

  /** The cell is seen at column x of row y. */
  predicate Shows(cells: Grid, x: int, y: int, cell: Cell) {
    0 <= y < |cells| && 0 <= x < |cells[y]| && cells[y][x] == cell
  }

  /** The cell of the layer at p is on a w by h screen. */
  predicate OnScreen(p: Placed, write: CellWrite, w: int, h: int) {
    0 <= p.x + write.x && p.x + write.x + Extent(write.cell) <= w && 0 <= p.y + write.y < h
  }

  /** Every layer from number k on leaves the n columns from (x, y) alone. */
  ghost predicate FreeFrom(picture: string -> Picture, frame: seq<Placed>, k: nat, x: int, n: int, y: int) {
    forall j :: k <= j < |frame| ==> Inside(picture(frame[j].content)) && Apart(frame[j], picture, x, n, y)
  }

  lemma {:induction false} DrawnHere(row: Row, frame: seq<Placed>, k: nat, picture: string -> Picture, cy: int,
                                     h: int)
    requires k < |frame| && Crosses(frame[k], picture, cy)
    requires Overlaps(picture(frame[k].content), frame[k].x, frame[k].y, |row|, h)
    ensures DrawAllOnRow(row, frame[..k + 1], picture, cy, |row|, h) ==
            DrawRow(DrawAllOnRow(row, frame[..k], picture, cy, |row|, h),
                    OnRow(picture(frame[k].content), cy - frame[k].y), frame[k].x, picture(frame[k].content).width)
  {
    assert frame[..k + 1][..k] == frame[..k];
  }

  lemma {:induction false} BlankWellFormed(w: nat)
    ensures WellFormed(BlankRow(w))
  {
  }

  /** A layer's cell that no layer drawn later reaches is seen. */
  lemma {:induction false} CellIsSeen(picture: string -> Picture, frame: seq<Placed>, k: nat, i: nat, w: nat, h: nat)
    requires (forall c :: Drawable(picture(c))) && k < |frame| && Inside(picture(frame[k].content))
    requires var ws := picture(frame[k].content).writes; i < |ws| && LastAt(ws, i) && OnScreen(frame[k], ws[i], w, h)
    requires var write := picture(frame[k].content).writes[i];
             FreeFrom(picture, frame, k + 1, frame[k].x + write.x, Extent(write.cell), frame[k].y + write.y)
    ensures var write := picture(frame[k].content).writes[i];
            Shows(FullCompose(frame, picture, w, h), frame[k].x + write.x, frame[k].y + write.y, write.cell)
  {
    var p := frame[k];
    var pic := picture(p.content);
    var write := pic.writes[i];
    var q, cy := p.x + write.x, p.y + write.y;
    DrawAllRowByRow(Blank(w, h), frame, picture, cy, w);
    BlankWellFormed(w);
    assert frame[..k + 1][..k] == frame[..k];
    var below := DrawAllOnRow(BlankRow(w), frame[..k], picture, cy, w, h);
    DrawAllOnRowWellFormed(BlankRow(w), frame[..k], picture, cy, w, h);
    var n := LastOnRow(pic.writes, i);
    hide Drawable, FullCompose, WellFormed;
    WrittenShows(below, OnRow(pic, write.y), p.x, pic.width, n);
    DrawnHere(BlankRow(w), frame, k, picture, cy, h);
    hide Standing, DrawRow, DrawAllOnRow, Inside, OnRow;
    LaterApart(picture, frame, k + 1, BlankRow(w), q, cy, h);
  }

  /** The picture has no cell that takes column x of its row y. */
  ghost predicate Unwritten(pic: Picture, x: int, y: int) {
    forall i :: 0 <= i < |pic.writes| && pic.writes[i].y == y ==>
      pic.writes[i].x != x && (pic.writes[i].cell.width == 2 ==> pic.writes[i].x + 1 != x)
  }

  lemma {:induction false} NotOnRow(pic: Picture, x: int, y: int)
    requires Unwritten(pic, x, y)
    ensures forall j :: 0 <= j < |OnRow(pic, y)| ==>
              OnRow(pic, y)[j].x != x && (OnRow(pic, y)[j].cell.width == 2 ==> OnRow(pic, y)[j].x + 1 != x)
  {
    var m := Matching(pic.writes, RowOf, y);
    forall j | 0 <= j < |m|
      ensures m[j].x != x && (m[j].cell.width == 2 ==> m[j].x + 1 != x)
    {
      MatchingWithin(pic.writes, y, m[j]);
      MatchingRow(pic.writes, y, j);
    }
  }

  /** So is the blank of a layer where it has no cell: what lies beneath does not show through. */
  lemma {:induction false} BlankIsSeen(picture: string -> Picture, frame: seq<Placed>, k: nat, x: int, y: int, w: nat,
                                       h: nat)
    requires (forall c :: Drawable(picture(c))) && k < |frame|
    requires var pic := picture(frame[k].content);
             0 <= x < pic.width && 0 <= y < pic.height && Unwritten(pic, x, y)
    requires 0 <= frame[k].x + x < w && 0 <= frame[k].y + y < h
    requires FreeFrom(picture, frame, k + 1, frame[k].x + x, 1, frame[k].y + y)
    ensures Shows(FullCompose(frame, picture, w, h), frame[k].x + x, frame[k].y + y, Glyph(" ", 0, 1))
  {
    var p := frame[k];
    var pic := picture(p.content);
    var q, cy := p.x + x, p.y + y;
    DrawAllRowByRow(Blank(w, h), frame, picture, cy, w);
    BlankWellFormed(w);
    assert frame[..k + 1][..k] == frame[..k];
    var below := DrawAllOnRow(BlankRow(w), frame[..k], picture, cy, w, h);
    DrawAllOnRowWellFormed(BlankRow(w), frame[..k], picture, cy, w, h);
    NotOnRow(pic, x, y);
    hide Drawable, FullCompose, WellFormed, Matching, NoOverlap;
    UnwrittenIsEmpty(below, OnRow(pic, y), p.x, pic.width, q);
    DrawnHere(BlankRow(w), frame, k, picture, cy, h);
    hide Standing, DrawRow, DrawAllOnRow, Inside, OnRow;
    LaterApart(picture, frame, k + 1, BlankRow(w), q, cy, h);
  }

  lemma {:induction false} MatchingRow(ws: seq<CellWrite>, r: int, j: nat)
    requires j < |Matching(ws, RowOf, r)|
    ensures Matching(ws, RowOf, r)[j].y == r
  {
    var front := ws[..|ws| - 1];
    if j < |Matching(front, RowOf, r)| {
      MatchingRow(front, r, j);
    }
  }

  /** Where no layer reaches, the screen is empty. */
  lemma {:induction false} NothingIsSeen(picture: string -> Picture, frame: seq<Placed>, x: nat, y: nat, w: nat, h: nat)
    requires (forall c :: Drawable(picture(c))) && x < w && y < h && FreeFrom(picture, frame, 0, x, 1, y)
    ensures Shows(FullCompose(frame, picture, w, h), x, y, Glyph(" ", 0, 1))
  {
    DrawAllRowByRow(Blank(w, h), frame, picture, y, w);
    BlankWellFormed(w);
    assert frame[..0] == [];
    LaterApart(picture, frame, 0, BlankRow(w), x, y, h);
  }

  // ---- what the user sees --------------------------------------------------------------------

  /** The layer as it was set: where, how high, and what it shows. */
  function PlacedBy(scene: Scene, layer: Layer): Placed {
    Placed(PoseOf(scene, layer).x, PoseOf(scene, layer).y, layer.content)
  }

  /** Layer n of the list lies above layer m: higher, or as high and passed later. */
  predicate LiesAbove(scene: Scene, layers: seq<Layer>, n: nat, m: nat)
    requires n < |layers| && m < |layers|
  {
    var a, b := PoseOf(scene, layers[n]).z, PoseOf(scene, layers[m]).z;
    a > b || (a == b && n > m)
  }

  /** No layer above layer m reaches these columns. */
  ghost predicate NotCovered(picture: string -> Picture, scene: Scene, layers: seq<Layer>, m: nat, x: int, n: int,
                             y: int)
    requires m < |layers|
  {
    forall k :: 0 <= k < |layers| && LiesAbove(scene, layers, k, m) ==>
      Inside(picture(layers[k].content)) && Apart(PlacedBy(scene, layers[k]), picture, x, n, y)
  }

  /** In the sorted list only layers above it come after it. */
  lemma {:induction false} AboveIsLater(picture: string -> Picture, scene: Scene, layers: seq<Layer>, m: nat, x: int,
                                        n: int, y: int) returns (k: nat)
    requires m < |layers| && NotCovered(picture, scene, layers, m, x, n, y)
    ensures var frame := Places(Listing(scene, layers));
            k < |frame| && frame[k] == PlacedBy(scene, layers[m]) && FreeFrom(picture, frame, k + 1, x, n, y)
  {
    var given := AllStand(scene, layers);
    var list := Listing(scene, layers);
    k := SortedPlace(given, ZKey, m);
    forall j | k + 1 <= j < |list|
      ensures Inside(picture(list[j].p.content)) && Apart(list[j].p, picture, x, n, y)
    {
      assert Above(given, ZKey, m, list[j]);
      var i :| 0 <= i < |given| && given[i] == list[j] &&
               (ZKey(given[m]) < ZKey(list[j]) || (ZKey(given[m]) == ZKey(list[j]) && m < i));
      assert LiesAbove(scene, layers, i, m);
    }
  }

  /** Cell i of layer m is on the screen, last at its place, and no layer above reaches it. */
  ghost predicate OnTop(picture: string -> Picture, scene: Scene, layers: seq<Layer>, m: nat, i: nat, w: int, h: int)
    requires m < |layers| && i < |picture(layers[m].content).writes|
  {
    var p, write := PlacedBy(scene, layers[m]), picture(layers[m].content).writes[i];
    && LastAt(picture(layers[m].content).writes, i) && OnScreen(p, write, w, h)
    && NotCovered(picture, scene, layers, m, p.x + write.x, Extent(write.cell), p.y + write.y)
  }

  /** Then it is seen at the layer's place. */
  lemma {:induction false} LayerIsSeen(picture: string -> Picture, scene: Scene, layers: seq<Layer>, m: nat, i: nat,
                                       w: nat, h: nat)
    requires (forall c :: Drawable(picture(c))) && m < |layers| && Inside(picture(layers[m].content))
    requires i < |picture(layers[m].content).writes| && OnTop(picture, scene, layers, m, i, w, h)
    ensures var pose, write := PoseOf(scene, layers[m]), picture(layers[m].content).writes[i];
            Shows(FullCompose(Places(Listing(scene, layers)), picture, w, h), pose.x + write.x, pose.y + write.y,
                  write.cell)
  {
    var p, write := PlacedBy(scene, layers[m]), picture(layers[m].content).writes[i];
    var k := AboveIsLater(picture, scene, layers, m, p.x + write.x, Extent(write.cell), p.y + write.y);
    hide FullCompose, Listing, Drawable, Inside, LastAt, FreeFrom, NotCovered;
    CellIsSeen(picture, Places(Listing(scene, layers)), k, i, w, h);
  }

  /**
    After any run of frames without repeated layers, wherever layers overlap the canvas shows the one
    that was set to the higher z, or of equals the one passed later: each of its cells that no layer
    above it reaches is on the canvas at the layer's place.
   */
  lemma {:induction false} HighestIsSeen(picture: string -> Picture, renderRow: Row -> string, s: Screen,
                                         frames: seq<Frame>, f: Frame, m: nat, i: nat)
    requires (forall c :: Drawable(picture(c))) && Sized(s) && AllRight(picture, s)
    requires NoRepeats(frames) && Distinct(f.layers) && m < |f.layers|
    requires Inside(picture(f.layers[m].content)) && i < |picture(f.layers[m].content).writes|
    requires var scene := SetAll(Run(picture, renderRow, s, frames).scene, f.settings);
             OnTop(picture, scene, f.layers, m, i, f.width, f.height)
    ensures var before := Run(picture, renderRow, s, frames);
            var scene, write := SetAll(before.scene, f.settings), picture(f.layers[m].content).writes[i];
            var pose := PoseOf(scene, f.layers[m]);
            Shows(After(picture, renderRow, before, f).cells, pose.x + write.x, pose.y + write.y, write.cell)
  {
    RunShowsEveryFrame(picture, renderRow, s, frames, f);
    var scene := SetAll(Run(picture, renderRow, s, frames).scene, f.settings);
    hide After, Run, FullCompose, Drawable, Inside, OnTop, Shows;
    LayerIsSeen(picture, scene, f.layers, m, i, f.width, f.height);
  }
}
