/**
  One line of the cell buffer that layers are drawn on.

  Setting a cell touches one line only.  A cell that is two columns wide occupies its own column
  and a zero-width placeholder to its right; setting either column of it breaks the pair up into
  styled blanks first.  What a wide write does NOT do is break up a wide cell beneath its second
  column, which is why a layer's area is cleared before it is drawn, and why the cached redraw may
  only leave out the clears of columns where a write starts.
*/
module CanvasRow {
  import opened Common

  /** `pen` stands for style and hyperlink together; 0 is the default. */
  datatype Glyph = Glyph(text: string, pen: nat, width: nat)

  /** Terminal cells are at most two columns wide. */
  type Cell = g: Glyph | g.width <= 2 witness Glyph(" ", 0, 1)

  type Row = seq<Cell>

  const EMPTY: Cell := Glyph(" ", 0, 1)
  const PLACEHOLDER: Cell := Glyph("", 0, 0)

  /** A blank that keeps the pen of the cell it replaces. */
  function Blanked(c: Cell): Cell {
    c.(text := " ", width := 1)
  }

  /** The row after breaking up the wide cell, if any, that column x belongs to. */
  function BreakAt(row: Row, x: nat): (r: Row)
    requires x < |row|
    ensures |r| == |row|
  {
    if row[x].width == 2 then
      var b := row[x := Blanked(row[x])];
      if x + 1 < |row| then b[x + 1 := Blanked(row[x])] else b
    else if row[x].width == 0 && x > 0 && row[x - 1].width == 2 then
      row[x - 1 := Blanked(row[x - 1])][x := Blanked(row[x - 1])]
    else
      row
  }

  /** Sets column x to a cell, or to an empty cell for None; columns outside the row are ignored. */
  function SetCell(row: Row, x: int, c: Option<Cell>): (r: Row)
    ensures |r| == |row|
  {
    if x < 0 || x >= |row| then row
    else
      var b := BreakAt(row, x);
      match c
      case None => b[x := EMPTY]
      case Some(cell) =>
        if x + cell.width > |row| then b[x := Blanked(cell)]
        else if cell.width == 2 then b[x := cell][x + 1 := PLACEHOLDER]
        else b[x := cell]
  }

  /** A cell that is set stands there; half of a wide one that it cuts is left a space in the wide one's style. */
  lemma {:induction false} SetCellShows(row: Row, x: int, cell: Cell, q: int)
    requires 0 <= x && 1 <= cell.width <= 2 && x + cell.width <= |row| && 0 <= q < |row|
    ensures var r := SetCell(row, x, Some(cell));
            if q == x then r[q] == cell
            else if q == x + 1 && cell.width == 2 then r[q] == Glyph("", 0, 0)
            else if q == x + 1 && row[x].width == 2 then r[q] == Glyph(" ", row[x].pen, 1)
            else if q == x - 1 && row[x].width == 0 && row[q].width == 2 then r[q] == Glyph(" ", row[q].pen, 1)
            else r[q] == row[q]
  {
  }

  /** Every wide cell is followed by its placeholder. */
  ghost predicate WellFormed(row: Row) {
    forall p :: 0 <= p < |row| && row[p].width == 2 ==> p + 1 < |row| && row[p + 1].width == 0
  }

  lemma {:induction false} SetCellKeepsWellFormed(row: Row, x: int, c: Option<Cell>)
    requires WellFormed(row)
    ensures WellFormed(SetCell(row, x, c))
  {
  }

  /** A cell to write, at a column relative to the layer's left edge. */
  datatype RowWrite = RowWrite(x: int, cell: Cell)

  /** Clears columns a to b, left to right. */
  function ClearSpan(row: Row, a: int, b: int): (r: Row)
    ensures |r| == |row|
    decreases b - a
  {
    if b <= a then row else SetCell(ClearSpan(row, a, b - 1), b - 1, None)
  }

  /** Writes ws in order, shifted right by x. */
  function WriteAll(row: Row, ws: seq<RowWrite>, x: int): (r: Row)
    ensures |r| == |row|
  {
    if ws == [] then row
    else
      var before := WriteAll(row, ws[..|ws| - 1], x);
      SetCell(before, x + ws[|ws| - 1].x, Some(ws[|ws| - 1].cell))
  }

  /** Some write of a layer at x starts at canvas column q. */
  ghost predicate StartsAt(ws: seq<RowWrite>, x: int, q: int) {
    exists i :: 0 <= i < |ws| && x + ws[i].x == q
  }

  /** Clears columns a to b, left to right, except those where a write of ws will start. */
  ghost function ClearOthers(row: Row, ws: seq<RowWrite>, x: int, a: int, b: int): (r: Row)
    ensures |r| == |row|
    decreases b - a
  {
    if b <= a then row
    else
      var before := ClearOthers(row, ws, x, a, b - 1);
      if StartsAt(ws, x, b - 1) then before else SetCell(before, b - 1, None)
  }

  /** No write's second column is where another write starts. */
  ghost predicate NoOverlap(ws: seq<RowWrite>) {
    forall i, j :: 0 <= i < |ws| && 0 <= j < |ws| && ws[i].cell.width == 2 ==> ws[j].x != ws[i].x + 1
  }

  /** Drawing one row of a layer: clear the layer's columns, then write. */
  function DrawRow(row: Row, ws: seq<RowWrite>, x: int, width: nat): (r: Row)
    ensures |r| == |row|
  {
    WriteAll(ClearSpan(row, x, x + width), ws, x)
  }

  /** Redrawing it from recorded writes: the columns where a write starts are not cleared. */
  ghost function ReplayRow(row: Row, ws: seq<RowWrite>, x: int, width: nat): (r: Row)
    ensures |r| == |row|
  {
    WriteAll(ClearOthers(row, ws, x, x, x + width), ws, x)
  }

  /**
    How column q of a row being drawn (f) and of the same row being replayed (p) may differ while the
    columns in `todo` have been skipped by the replay's clear and are still waiting for their write:
    only the other half of an old wide cell that the drawing side has already broken up.
   */
  ghost predicate AgreeAt(f: Row, p: Row, todo: set<int>, q: int)
    requires |f| == |p| && 0 <= q < |f|
  {
    if q in todo then f[q] == EMPTY
    else if q > 0 && q - 1 in todo && p[q - 1].width == 2 then f[q] == Blanked(p[q - 1])
    else if q + 1 < |p| && q + 1 in todo && p[q + 1].width == 0 && p[q].width == 2 then f[q] == Blanked(p[q])
    else f[q] == p[q]
  }

  ghost predicate InStep(f: Row, p: Row, todo: set<int>) {
    && |f| == |p|
    && WellFormed(f) && WellFormed(p)
    && (forall q :: 0 <= q < |f| ==> AgreeAt(f, p, todo, q))
  }

  lemma {:induction false} BreakKeepsWellFormed(row: Row, x: nat)
    requires WellFormed(row) && x < |row|
    ensures WellFormed(BreakAt(row, x))
    ensures BreakAt(row, x)[x].width != 2
    ensures x > 0 ==> BreakAt(row, x)[x - 1].width != 2
  {
  }

  /** Breaking up whatever column x belongs to, on both sides, settles everything but x itself. */
  lemma {:induction false} BreakBoth(f: Row, p: Row, todo: set<int>, x: nat, q: nat)
    requires InStep(f, p, todo) && x < |f| && q < |f| && q != x
    ensures AgreeAt(BreakAt(f, x), BreakAt(p, x), todo - {x}, q)
  {
    assert AgreeAt(f, p, todo, q);
    assert AgreeAt(f, p, todo, x);
    assert x > 0 ==> AgreeAt(f, p, todo, x - 1);
    assert x + 1 < |f| ==> AgreeAt(f, p, todo, x + 1);
  }

  /** A cell set on both sides, at a column that is no longer waiting afterwards. */
  lemma {:induction false} SetBoth(f: Row, p: Row, todo: set<int>, x: int, c: Option<Cell>)
    requires InStep(f, p, todo)
    requires c.Some? && c.value.width == 2 ==> x + 1 !in todo
    ensures InStep(SetCell(f, x, c), SetCell(p, x, c), todo - {x})
  {
    var f', p', rest := SetCell(f, x, c), SetCell(p, x, c), todo - {x};
    SetCellKeepsWellFormed(f, x, c);
    SetCellKeepsWellFormed(p, x, c);
    forall q | 0 <= q < |f|
      ensures AgreeAt(f', p', rest, q)
    {
      if 0 <= x < |f| {
        BreakKeepsWellFormed(f, x);
        BreakKeepsWellFormed(p, x);
        if q != x {
          BreakBoth(f, p, todo, x, q);
        }
      } else {
        assert AgreeAt(f, p, todo, q);
      }
    }
  }

  /** A clear that only the drawing side makes: the column is waiting from now on. */
  lemma {:induction false} ClearOne(f: Row, p: Row, todo: set<int>, x: int)
    requires InStep(f, p, todo)
    requires 0 <= x < |f| && forall q :: q in todo ==> q < x
    ensures InStep(SetCell(f, x, None), p, todo + {x})
  {
    SetCellKeepsWellFormed(f, x, None);
    forall q | 0 <= q < |f|
      ensures AgreeAt(SetCell(f, x, None), p, todo + {x}, q)
    {
      assert AgreeAt(f, p, todo, q);
      assert AgreeAt(f, p, todo, x);
      assert x > 0 ==> AgreeAt(f, p, todo, x - 1);
      assert x + 1 < |f| ==> AgreeAt(f, p, todo, x + 1);
    }
  }

  /** The columns of the row between a and b where a write of ws starts. */
  ghost function Waiting(row: Row, ws: seq<RowWrite>, x: int, a: int, b: int): set<int> {
    set q | a <= q < b && 0 <= q < |row| && StartsAt(ws, x, q)
  }

  lemma {:induction false} ClearsInStep(row: Row, ws: seq<RowWrite>, x: int, a: int, b: int)
    requires WellFormed(row) && a <= b
    ensures InStep(ClearSpan(row, a, b), ClearOthers(row, ws, x, a, b), Waiting(row, ws, x, a, b))
    decreases b - a
  {
    if a < b {
      ClearsInStep(row, ws, x, a, b - 1);
      var f, p := ClearSpan(row, a, b - 1), ClearOthers(row, ws, x, a, b - 1);
      var todo := Waiting(row, ws, x, a, b - 1);
      if !StartsAt(ws, x, b - 1) {
        SetBoth(f, p, todo, b - 1, None);
        assert Waiting(row, ws, x, a, b) == todo - {b - 1};
      } else if 0 <= b - 1 < |row| {
        ClearOne(f, p, todo, b - 1);
        assert Waiting(row, ws, x, a, b) == todo + {b - 1};
      } else {
        assert Waiting(row, ws, x, a, b) == todo;
      }
    }
  }

  /** The columns still waiting once the first n writes are done. */
  ghost function Unwritten(todo: set<int>, ws: seq<RowWrite>, x: int, n: nat): set<int>
    requires n <= |ws|
  {
    set q | q in todo && !StartsAt(ws[..n], x, q)
  }

  lemma {:induction false} StartsStep(ws: seq<RowWrite>, x: int, n: nat, q: int)
    requires 0 < n <= |ws|
    ensures StartsAt(ws[..n], x, q) <==> StartsAt(ws[..n - 1], x, q) || q == x + ws[n - 1].x
  {
    if StartsAt(ws[..n], x, q) {
      var i :| 0 <= i < n && x + ws[..n][i].x == q;
      assert i < n - 1 ==> ws[..n - 1][i] == ws[i];
    }
    if StartsAt(ws[..n - 1], x, q) {
      var i :| 0 <= i < n - 1 && x + ws[..n - 1][i].x == q;
      assert ws[..n][i] == ws[i];
    }
    assert ws[..n][n - 1] == ws[n - 1];
  }

  lemma {:induction false} WritesInStep(f: Row, p: Row, todo: set<int>, ws: seq<RowWrite>, x: int, n: nat)
    requires InStep(f, p, todo) && NoOverlap(ws) && n <= |ws|
    requires forall q :: q in todo ==> StartsAt(ws, x, q)
    ensures InStep(WriteAll(f, ws[..n], x), WriteAll(p, ws[..n], x), Unwritten(todo, ws, x, n))
  {
    if n == 0 {
      assert Unwritten(todo, ws, x, 0) == todo;
    } else {
      WritesInStep(f, p, todo, ws, x, n - 1);
      assert ws[..n][..n - 1] == ws[..n - 1];
      var w := ws[n - 1];
      var left := Unwritten(todo, ws, x, n - 1);
      forall q | q in left && w.cell.width == 2
        ensures q != x + w.x + 1
      {
        var j :| 0 <= j < |ws| && x + ws[j].x == q;
      }
      SetBoth(WriteAll(f, ws[..n - 1], x), WriteAll(p, ws[..n - 1], x), left, x + w.x, Some(w.cell));
      forall q | q in todo
        ensures StartsAt(ws[..n], x, q) <==> StartsAt(ws[..n - 1], x, q) || q == x + w.x
      {
        StartsStep(ws, x, n, q);
      }
      assert Unwritten(todo, ws, x, n) == left - {x + w.x};
    }
  }

  /**
    The replay of a row of recorded writes leaves exactly the cells that clearing the layer's
    columns and drawing would, whatever wide cells lie beneath the layer or straddle its edges.
   */
  lemma {:induction false} ReplayIsDraw(row: Row, ws: seq<RowWrite>, x: int, width: nat)
    requires WellFormed(row) && NoOverlap(ws)
    ensures ReplayRow(row, ws, x, width) == DrawRow(row, ws, x, width)
  {
    var f, p := ClearSpan(row, x, x + width), ClearOthers(row, ws, x, x, x + width);
    var todo := Waiting(row, ws, x, x, x + width);
    ClearsInStep(row, ws, x, x, x + width);
    WritesInStep(f, p, todo, ws, x, |ws|);
    assert ws[..|ws|] == ws;
    assert Unwritten(todo, ws, x, |ws|) == {};
    var df, dp := WriteAll(f, ws, x), WriteAll(p, ws, x);
    forall q | 0 <= q < |df|
      ensures df[q] == dp[q]
    {
      assert AgreeAt(df, dp, {}, q);
    }
  }

  lemma {:induction false} TwoWrites(row: Row, ws: seq<RowWrite>, x: int)
    requires |ws| == 2
    ensures WriteAll(row, ws, x) ==
            SetCell(SetCell(row, x + ws[0].x, Some(ws[0].cell)), x + ws[1].x, Some(ws[1].cell))
  {
    var one := ws[..1];
    assert one[..0] == [] && one[0] == ws[0];
    assert WriteAll(row, one[..0], x) == row;
    assert WriteAll(row, one, x) == SetCell(row, x + ws[0].x, Some(ws[0].cell));
  }

  lemma {:induction false} ClearBeneath(row: Row, wide: Cell, f: Row)
    requires wide.width == 2 && row == [EMPTY, EMPTY, wide, PLACEHOLDER] && f == [EMPTY, EMPTY, EMPTY, Blanked(wide)]
    ensures ClearSpan(row, 0, 3) == f
  {
    assert ClearSpan(row, 0, 1) == row && ClearSpan(row, 0, 2) == row;
  }

  lemma {:induction false} ClearNoneBeneath(row: Row, ws: seq<RowWrite>)
    requires |row| == 4 && row[0] == EMPTY && row[1] == EMPTY
    requires !StartsAt(ws, 0, 0) && StartsAt(ws, 0, 1) && StartsAt(ws, 0, 2)
    ensures ClearOthers(row, ws, 0, 0, 3) == row
  {
    assert ClearOthers(row, ws, 0, 0, 1) == row && ClearOthers(row, ws, 0, 0, 2) == row;
  }

  /** Without the no-overlap promise the shortcut is wrong: a wide write over a later start. */
  lemma {:induction false} OverlapBreaksReplay()
    ensures exists row: Row, ws: seq<RowWrite>, x: int, width: nat ::
              WellFormed(row) && !NoOverlap(ws) && ReplayRow(row, ws, x, width) != DrawRow(row, ws, x, width)
  {
    var wide: Cell := Glyph("w", 7, 2);
    var narrow: Cell := Glyph("n", 0, 1);
    var row: Row := [EMPTY, EMPTY, wide, PLACEHOLDER];
    var ws := [RowWrite(1, wide), RowWrite(2, narrow)];
    assert 0 + ws[0].x == 1 && 0 + ws[1].x == 2;
    assert StartsAt(ws, 0, 1) && StartsAt(ws, 0, 2) && !StartsAt(ws, 0, 0);
    assert !NoOverlap(ws);
    var f: Row := [EMPTY, EMPTY, EMPTY, Blanked(wide)];
    ClearBeneath(row, wide, f);
    ClearNoneBeneath(row, ws);
    TwoWrites(f, ws, 0);
    TwoWrites(row, ws, 0);
    assert DrawRow(row, ws, 0, 3)[3] == Blanked(wide);
    assert ReplayRow(row, ws, 0, 3)[3] == PLACEHOLDER;
  }
}
