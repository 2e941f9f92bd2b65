/**
  The reference: what clearing a canvas and drawing every layer in order leaves on it.

  A layer's content is a string.  How a string becomes a picture is the styling library's business,
  so it is a parameter (`picture`); everything here holds for every such function whose pictures are
  drawn the way the library draws them (`Drawable`).
*/
module Compose {
  import opened Common
  import opened CanvasRow
  import opened StableSort

  datatype CellWrite = CellWrite(x: int, y: int, cell: Cell)

  /** The size a content string measures and the cells drawing it sets, in drawing order. */
  datatype Picture = Picture(width: nat, height: nat, writes: seq<CellWrite>)

  /** A layer as one frame draws it. */
  datatype Placed = Placed(x: int, y: int, content: string)

  type Grid = seq<Row>

  function RowOf(w: CellWrite): int { w.y }

  function RowWrites(ws: seq<CellWrite>): (r: seq<RowWrite>)
    ensures |r| == |ws|
    ensures forall i :: 0 <= i < |ws| ==> r[i] == RowWrite(ws[i].x, ws[i].cell)
  {
    seq(|ws|, i requires 0 <= i < |ws| => RowWrite(ws[i].x, ws[i].cell))
  }

  /** The writes on one row of a picture. */
  function OnRow(pic: Picture, r: int): seq<RowWrite> {
    RowWrites(Matching(pic.writes, RowOf, r))
  }

  /** Writes stay on the picture's rows, and none of them covers the column where another starts. */
  ghost predicate Drawable(pic: Picture) {
    && (forall i :: 0 <= i < |pic.writes| ==> 0 <= pic.writes[i].y < pic.height)
    && (forall r :: NoOverlap(OnRow(pic, r)))
  }

  // ---- the canvas, cell by cell --------------------------------------------------------------

  function Put(g: Grid, x: int, y: int, c: Option<Cell>): (r: Grid)
    ensures |r| == |g|
  {
    if 0 <= y < |g| then g[y := SetCell(g[y], x, c)] else g
  }

  /** Clears columns x0 to x1 of rows y0 to y1, row by row. */
  function ClearArea(g: Grid, x0: int, y0: int, x1: int, y1: int): (r: Grid)
    ensures |r| == |g|
    decreases y1 - y0
  {
    if y1 <= y0 then g else ClearCells(ClearArea(g, x0, y0, x1, y1 - 1), y1 - 1, x0, x1)
  }

  function ClearCells(g: Grid, y: int, a: int, b: int): (r: Grid)
    ensures |r| == |g|
    decreases b - a
  {
    if b <= a then g else Put(ClearCells(g, y, a, b - 1), b - 1, y, None)
  }

  function PutAll(g: Grid, ws: seq<CellWrite>, x: int, y: int): (r: Grid)
    ensures |r| == |g|
  {
    if ws == [] then g
    else
      var w := ws[|ws| - 1];
      Put(PutAll(g, ws[..|ws| - 1], x, y), x + w.x, y + w.y, Some(w.cell))
  }

  /** Drawing one layer: its area is cleared, then its cells are set. */
  function Draw(g: Grid, pic: Picture, x: int, y: int): (r: Grid)
    ensures |r| == |g|
  {
    PutAll(ClearArea(g, x, y, x + pic.width, y + pic.height), pic.writes, x, y)
  }

  /** A layer that shares no cell with a w by h screen is not drawn at all. */
  predicate Overlaps(pic: Picture, x: int, y: int, w: int, h: int) {
    x < w && 0 < x + pic.width && y < h && 0 < y + pic.height && pic.width > 0 && pic.height > 0 && w > 0 && h > 0
  }

  function DrawAll(g: Grid, frame: seq<Placed>, picture: string -> Picture, w: nat): (r: Grid)
    ensures |r| == |g|
  {
    if frame == [] then g
    else
      var last := frame[|frame| - 1];
      var below := DrawAll(g, frame[..|frame| - 1], picture, w);
      if Overlaps(picture(last.content), last.x, last.y, w, |g|)
      then Draw(below, picture(last.content), last.x, last.y)
      else below
  }

  function BlankRow(w: nat): (r: Row)
    ensures |r| == w && forall i :: 0 <= i < w ==> r[i] == EMPTY
  {
    seq(w, _ => EMPTY)
  }

  function Blank(w: nat, h: nat): (g: Grid)
    ensures |g| == h && forall y :: 0 <= y < h ==> g[y] == BlankRow(w)
  {
    seq(h, _ => BlankRow(w))
  }

  /** Clear, then compose every layer of the frame. */
  function FullCompose(frame: seq<Placed>, picture: string -> Picture, w: nat, h: nat): (g: Grid)
    ensures |g| == h
  {
    DrawAll(Blank(w, h), frame, picture, w)
  }

  // ---- the same, row by row ------------------------------------------------------------------

  /** The layer has cells on canvas row cy. */
  predicate Crosses(p: Placed, picture: string -> Picture, cy: int) {
    p.y <= cy < p.y + picture(p.content).height
  }

  /** Drawing one layer, seen from one row. */
  function DrawOnRow(row: Row, p: Placed, picture: string -> Picture, cy: int, w: int, h: int): (r: Row)
    ensures |r| == |row|
  {
    var pic := picture(p.content);
    if Overlaps(pic, p.x, p.y, w, h) && Crosses(p, picture, cy)
    then DrawRow(row, OnRow(pic, cy - p.y), p.x, pic.width)
    else row
  }

  function DrawAllOnRow(row: Row, frame: seq<Placed>, picture: string -> Picture, cy: int, w: int, h: int): (r: Row)
    ensures |r| == |row|
  {
    if frame == [] then row
    else
      DrawOnRow(DrawAllOnRow(row, frame[..|frame| - 1], picture, cy, w, h), frame[|frame| - 1], picture, cy, w, h)
  }

  lemma {:induction false} ClearCellsRow(g: Grid, y: int, a: int, b: int, cy: nat)
    requires cy < |g|
    ensures ClearCells(g, y, a, b)[cy] == if y == cy then ClearSpan(g[cy], a, b) else g[cy]
    decreases b - a
  {
    if a < b {
      ClearCellsRow(g, y, a, b - 1, cy);
    }
  }

  lemma {:induction false} ClearAreaRow(g: Grid, x0: int, y0: int, x1: int, y1: int, cy: nat)
    requires cy < |g|
    ensures ClearArea(g, x0, y0, x1, y1)[cy] == if y0 <= cy < y1 then ClearSpan(g[cy], x0, x1) else g[cy]
    decreases y1 - y0
  {
    if y0 < y1 {
      ClearAreaRow(g, x0, y0, x1, y1 - 1, cy);
      ClearCellsRow(ClearArea(g, x0, y0, x1, y1 - 1), y1 - 1, x0, x1, cy);
    }
  }

  lemma {:induction false} PutAllRow(g: Grid, ws: seq<CellWrite>, x: int, y: int, cy: nat)
    requires cy < |g|
    ensures PutAll(g, ws, x, y)[cy] == WriteAll(g[cy], RowWrites(Matching(ws, RowOf, cy - y)), x)
  {
    if ws != [] {
      var front, w := ws[..|ws| - 1], ws[|ws| - 1];
      PutAllRow(g, front, x, y, cy);
      if w.y == cy - y {
        var m := Matching(front, RowOf, cy - y);
        var rw := RowWrites(m + [w]);
        assert rw[..|rw| - 1] == RowWrites(m);
        assert rw[|rw| - 1] == RowWrite(w.x, w.cell);
      }
    }
  }

  lemma {:induction false} OnRowEmpty(pic: Picture, r: int)
    requires Drawable(pic) && !(0 <= r < pic.height)
    ensures OnRow(pic, r) == []
  {
    NoneMatching(pic.writes, RowOf, r);
  }

  /** Rows are independent: a full draw changes each row as if it were alone. */
  lemma {:induction false} DrawRowByRow(g: Grid, p: Placed, picture: string -> Picture, cy: nat, w: nat)
    requires cy < |g| && Drawable(picture(p.content))
    requires Overlaps(picture(p.content), p.x, p.y, w, |g|)
    ensures Draw(g, picture(p.content), p.x, p.y)[cy] == DrawOnRow(g[cy], p, picture, cy, w, |g|)
  {
    var pic := picture(p.content);
    DrawOneRow(g, pic, p.x, p.y, cy);
    if !(p.y <= cy < p.y + pic.height) {
      OnRowEmpty(pic, cy - p.y);
      assert WriteAll(g[cy], [], p.x) == g[cy];
    }
  }

  lemma {:induction false} DrawOneRow(g: Grid, pic: Picture, x: int, y: int, cy: nat)
    requires cy < |g|
    ensures Draw(g, pic, x, y)[cy] ==
              WriteAll(if y <= cy < y + pic.height then ClearSpan(g[cy], x, x + pic.width) else g[cy],
                       OnRow(pic, cy - y), x)
  {
    hide ClearArea, PutAll, ClearSpan, WriteAll;
    ClearAreaRow(g, x, y, x + pic.width, y + pic.height, cy);
    PutAllRow(ClearArea(g, x, y, x + pic.width, y + pic.height), pic.writes, x, y, cy);
  }

  lemma {:induction false} DrawAllRowByRow(g: Grid, frame: seq<Placed>, picture: string -> Picture, cy: nat, w: nat)
    requires cy < |g| && forall i :: 0 <= i < |frame| ==> Drawable(picture(frame[i].content))
    ensures DrawAll(g, frame, picture, w)[cy] == DrawAllOnRow(g[cy], frame, picture, cy, w, |g|)
  {
    if frame != [] {
      var front, last := frame[..|frame| - 1], frame[|frame| - 1];
      DrawAllRowByRow(g, front, picture, cy, w);
      if Overlaps(picture(last.content), last.x, last.y, w, |g|) {
        DrawRowByRow(DrawAll(g, front, picture, w), last, picture, cy, w);
      }
    }
  }

  lemma {:induction false} ClearSpanWellFormed(row: Row, a: int, b: int)
    requires WellFormed(row)
    ensures WellFormed(ClearSpan(row, a, b))
    decreases b - a
  {
    if a < b {
      ClearSpanWellFormed(row, a, b - 1);
      SetCellKeepsWellFormed(ClearSpan(row, a, b - 1), b - 1, None);
    }
  }

  lemma {:induction false} WriteAllWellFormed(row: Row, ws: seq<RowWrite>, x: int)
    requires WellFormed(row)
    ensures WellFormed(WriteAll(row, ws, x))
  {
    if ws != [] {
      var w := ws[|ws| - 1];
      WriteAllWellFormed(row, ws[..|ws| - 1], x);
      SetCellKeepsWellFormed(WriteAll(row, ws[..|ws| - 1], x), x + w.x, Some(w.cell));
    }
  }

  lemma {:induction false} DrawAllOnRowWellFormed(row: Row, frame: seq<Placed>, picture: string -> Picture, cy: int,
                                                  w: int, h: int)
    requires WellFormed(row)
    ensures WellFormed(DrawAllOnRow(row, frame, picture, cy, w, h))
  {
    if frame != [] {
      var below := DrawAllOnRow(row, frame[..|frame| - 1], picture, cy, w, h);
      var p := frame[|frame| - 1];
      var pic := picture(p.content);
      DrawAllOnRowWellFormed(row, frame[..|frame| - 1], picture, cy, w, h);
      ClearSpanWellFormed(below, p.x, p.x + pic.width);
      WriteAllWellFormed(ClearSpan(below, p.x, p.x + pic.width), OnRow(pic, cy - p.y), p.x);
    }
  }

  /** Setting every column of a row to None in turn leaves it blank. */
  lemma {:induction false} ClearSpanBlanks(row: Row, b: nat)
    requires b <= |row| && WellFormed(row)
    ensures forall q :: 0 <= q < b ==> ClearSpan(row, 0, b)[q] == EMPTY
    ensures b == |row| ==> ClearSpan(row, 0, b) == BlankRow(|row|)
  {
    if b > 0 {
      ClearSpanBlanks(row, b - 1);
    }
  }

  // ---- what two frames have in common --------------------------------------------------------

  /**
    The layers of frame g that stood in frame f: from[i] is the index in f of layer i of g, or -1.
    On row cy the two frames show the same layers in the same order: whatever crosses the row in
    either frame has a partner, unmoved and with equal content, and partners keep their order.
   */
  ghost predicate SameOnRow(f: seq<Placed>, g: seq<Placed>, from: seq<int>, picture: string -> Picture, cy: int) {
    && |from| == |g|
    && (forall i :: 0 <= i < |g| && Crosses(g[i], picture, cy) ==> 0 <= from[i] < |f| && f[from[i]] == g[i])
    && (forall k :: 0 <= k < |f| && Crosses(f[k], picture, cy) ==> exists i :: 0 <= i < |g| && from[i] == k)
    && (forall i, j :: 0 <= i < j < |g| && 0 <= from[i] && 0 <= from[j] ==> from[i] < from[j])
    && (forall i :: 0 <= i < |g| && 0 <= from[i] < |f| && Crosses(f[from[i]], picture, cy) ==> f[from[i]] == g[i])
  }

  lemma {:induction false} DropNew(f: seq<Placed>, g: seq<Placed>, from: seq<int>, picture: string -> Picture, cy: int)
    requires SameOnRow(f, g, from, picture, cy)
    requires |g| > 0 && !Crosses(g[|g| - 1], picture, cy)
    ensures SameOnRow(f, g[..|g| - 1], from[..|g| - 1], picture, cy)
  {
    var g', from' := g[..|g| - 1], from[..|g| - 1];
    forall k | 0 <= k < |f| && Crosses(f[k], picture, cy)
      ensures exists i :: 0 <= i < |g'| && from'[i] == k
    {
      var i :| 0 <= i < |g| && from[i] == k;
      assert i < |g| - 1 ==> from'[i] == k;
    }
  }

  lemma {:induction false} DropOld(f: seq<Placed>, g: seq<Placed>, from: seq<int>, picture: string -> Picture, cy: int)
    requires SameOnRow(f, g, from, picture, cy)
    requires |f| > 0 && !Crosses(f[|f| - 1], picture, cy)
    ensures SameOnRow(f[..|f| - 1], g, from, picture, cy)
  {
  }

  lemma {:induction false} DropBoth(f: seq<Placed>, g: seq<Placed>, from: seq<int>, picture: string -> Picture, cy: int)
    requires SameOnRow(f, g, from, picture, cy)
    requires |f| > 0 && Crosses(f[|f| - 1], picture, cy)
    requires |g| > 0 && Crosses(g[|g| - 1], picture, cy)
    ensures f[|f| - 1] == g[|g| - 1]
    ensures SameOnRow(f[..|f| - 1], g[..|g| - 1], from[..|g| - 1], picture, cy)
  {
    var last := |g| - 1;
    var i :| 0 <= i < |g| && from[i] == |f| - 1;
    assert from[last] == |f| - 1;
    var f', g', from' := f[..|f| - 1], g[..last], from[..last];
    forall k | 0 <= k < |f'| && Crosses(f'[k], picture, cy)
      ensures exists i :: 0 <= i < |g'| && from'[i] == k
    {
      assert Crosses(f[k], picture, cy);
      var i :| 0 <= i < |g| && from[i] == k;
      assert i < last ==> from'[i] == k;
    }
  }

  /** Then the row comes out the same, so a row with no damage need not be redrawn. */
  lemma {:induction false} UndamagedRow(f: seq<Placed>, g: seq<Placed>, from: seq<int>, picture: string -> Picture,
                                        cy: int, row: Row, w: int, h: int)
    requires SameOnRow(f, g, from, picture, cy)
    ensures DrawAllOnRow(row, f, picture, cy, w, h) == DrawAllOnRow(row, g, picture, cy, w, h)
    decreases |f| + |g|
  {
    if |g| > 0 && !Crosses(g[|g| - 1], picture, cy) {
      DropNew(f, g, from, picture, cy);
      UndamagedRow(f, g[..|g| - 1], from[..|g| - 1], picture, cy, row, w, h);
    } else if |f| > 0 && !Crosses(f[|f| - 1], picture, cy) {
      DropOld(f, g, from, picture, cy);
      UndamagedRow(f[..|f| - 1], g, from, picture, cy, row, w, h);
    } else if |f| > 0 {
      assert |g| > 0;
      DropBoth(f, g, from, picture, cy);
      UndamagedRow(f[..|f| - 1], g[..|g| - 1], from[..|g| - 1], picture, cy, row, w, h);
    }
  }
}
