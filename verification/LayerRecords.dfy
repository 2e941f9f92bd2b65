/**
  The canvas, and the record the compositor keeps of a layer: where it was last drawn and, once it
  has been drawn again, the cell writes that draw it, so they can be replayed on damaged rows only.
*/
module LayerRecords {
  import opened Common
  import opened CanvasRow
  import opened StableSort
  import opened Compose

  /** Rows of the given size in which every wide cell has its placeholder. */
  ghost predicate IsGrid(cells: Grid, w: nat, h: nat) {
    |cells| == h && forall y :: 0 <= y < h ==> |cells[y]| == w && WellFormed(cells[y])
  }

  class Canvas {
    var width: nat
    var height: nat
    var cells: Grid

    ghost predicate Valid()
      reads this
    {
      IsGrid(cells, width, height)
    }

    constructor (w: nat, h: nat)
      ensures Valid() && width == w && height == h && cells == Blank(w, h)
    {
      width, height, cells := w, h, Blank(w, h);
    }

    method SetCell(x: int, y: int, c: Option<Cell>)
      requires Valid()
      modifies this`cells
      ensures Valid() && cells == Put(old(cells), x, y, c)
    {
      if 0 <= y < |cells| {
        SetCellKeepsWellFormed(cells[y], x, c);
      }
      cells := Put(cells, x, y, c);
    }

    method Clear()
      requires Valid()
      modifies this`cells
      ensures Valid() && cells == Blank(width, height)
    {
      cells := Blank(width, height);
    }

    /** Takes the canvas to another size; what then is on it is up to the library. */
    method Resize(w: nat, h: nat, left: Grid)
      requires IsGrid(left, w, h)
      modifies this
      ensures Valid() && width == w && height == h && cells == left
    {
      width, height, cells := w, h, left;
    }

    /** Draws a layer straight from its content. */
    method DrawLayer(p: Placed, picture: string -> Picture)
      requires Valid() && Drawable(picture(p.content))
      requires Overlaps(picture(p.content), p.x, p.y, width, height)
      modifies this`cells
      ensures Valid()
      ensures forall cy :: 0 <= cy < height ==>
                cells[cy] == DrawOnRow(old(cells[cy]), p, picture, cy, width, height)
    {
      hide Draw, ClearSpan, WriteAll, Drawable;
      ghost var before := cells;
      var pic := picture(p.content);
      cells := Draw(cells, pic, p.x, p.y);
      forall cy | 0 <= cy < height
        ensures cells[cy] == DrawOnRow(before[cy], p, picture, cy, width, height)
        ensures WellFormed(cells[cy])
      {
        DrawRowByRow(before, p, picture, cy, width);
        ClearSpanWellFormed(before[cy], p.x, p.x + pic.width);
        WriteAllWellFormed(ClearSpan(before[cy], p.x, p.x + pic.width), OnRow(pic, cy - p.y), p.x);
      }
    }
  }

  function Index(r: nat, c: nat, width: nat): nat { r * width + c }

  lemma {:induction false} IndexInRange(r: nat, c: nat, width: nat, height: nat)
    requires r < height && c < width
    ensures Index(r, c, width) < width * height
  {
    assert (r + 1) * width <= height * width;
  }

  lemma {:induction false} IndexInjective(r: nat, c: nat, r': nat, c': nat, width: nat)
    requires c < width && c' < width && Index(r, c, width) == Index(r', c', width)
    ensures r == r' && c == c'
  {
    assert r < r' ==> (r + 1) * width <= r' * width;
    assert r' < r ==> (r' + 1) * width <= r * width;
  }

  /** ws[idx[i]..idx[i+1]], for the row r that is off+i. */
  function Slice(ws: seq<CellWrite>, off: int, idx: seq<nat>, r: int): (s: seq<CellWrite>) {
    var i := r - off;
    if 0 <= i && i + 1 < |idx| && idx[i] <= idx[i + 1] <= |ws| then ws[idx[i]..idx[i + 1]] else []
  }

  /** Some write of ws starts at column c of row r. */
  ghost predicate HasStart(ws: seq<CellWrite>, r: int, c: int) {
    exists i :: 0 <= i < |ws| && ws[i].x == c && ws[i].y == r
  }

  lemma {:induction false} MatchingElements(ws: seq<CellWrite>, r: int, w: CellWrite)
    ensures w in Matching(ws, RowOf, r) <==> w in ws && w.y == r
  {
    if ws != [] {
      MatchingElements(ws[..|ws| - 1], r, w);
      assert ws == ws[..|ws| - 1] + [ws[|ws| - 1]];
    }
  }

  lemma {:induction false} StartOnRow(pic: Picture, r: int, x: int, q: int)
    ensures HasStart(pic.writes, r, q - x) <==> StartsAt(OnRow(pic, r), x, q)
  {
    var m := Matching(pic.writes, RowOf, r);
    if HasStart(pic.writes, r, q - x) {
      var i :| 0 <= i < |pic.writes| && pic.writes[i].x == q - x && pic.writes[i].y == r;
      MatchingElements(pic.writes, r, pic.writes[i]);
      var j :| 0 <= j < |m| && m[j] == pic.writes[i];
      assert x + OnRow(pic, r)[j].x == q;
    }
    if StartsAt(OnRow(pic, r), x, q) {
      var j :| 0 <= j < |m| && x + OnRow(pic, r)[j].x == q;
      MatchingElements(pic.writes, r, m[j]);
      var i :| 0 <= i < |pic.writes| && pic.writes[i] == m[j];
    }
  }

  /** Columns outside the row are never set, so the clear may be clipped to the screen. */
  lemma {:induction false} ClearOthersClipped(row: Row, ws: seq<RowWrite>, x: int, a: int, b: int)
    ensures ClearOthers(row, ws, x, a, b) ==
            ClearOthers(row, ws, x, if a < 0 then 0 else a, if b > |row| then |row| else b)
    decreases b - a
  {
    if a < b {
      ClearOthersClipped(row, ws, x, a, b - 1);
    }
  }

  /** What a decoded record must hold: the picture's cells grouped by row, and where they start. */
  ghost predicate IsDecoding(pic: Picture, ws: seq<CellWrite>, off: int, idx: seq<nat>, starts: seq<bool>) {
    match pic
    case Picture(width, height, writes) =>
      && (forall r :: Slice(ws, off, idx, r) == Matching(writes, RowOf, r))
      && (idx != [] ==> 0 <= off && off + |idx| - 1 <= height)
      && (forall i, j :: 0 <= i <= j < |idx| ==> idx[i] <= idx[j] <= |ws|)
      && |starts| == width * height
      && (forall r, c :: 0 <= r < height && 0 <= c < width && Index(r, c, width) < |starts| ==>
           (starts[Index(r, c, width)] <==> HasStart(writes, r, c)))
  }

  lemma {:induction false} DecodedEmpty(pic: Picture, starts: seq<bool>)
    requires |pic.writes| == 0 && |starts| == pic.width * pic.height
    requires forall i :: 0 <= i < |starts| ==> !starts[i]
    ensures IsDecoding(pic, [], 0, [], starts)
  {
  }

  lemma {:induction false} DecodedFromSorted(pic: Picture, ws: seq<CellWrite>, idx: seq<nat>, starts: seq<bool>)
    requires ws == Sort(pic.writes, RowOf) && |ws| > 0 && Drawable(pic)
    requires |idx| == ws[|ws| - 1].y - ws[0].y + 2
    requires forall i, j :: 0 <= i <= j < |idx| ==> idx[i] <= idx[j] <= |ws|
    requires forall r :: Slice(ws, ws[0].y, idx, r) == Matching(ws, RowOf, r)
    requires |starts| == pic.width * pic.height
    requires forall r, c :: 0 <= r < pic.height && 0 <= c < pic.width && Index(r, c, pic.width) < |starts| ==>
               (starts[Index(r, c, pic.width)] <==> HasStart(ws, r, c))
    ensures IsDecoding(pic, ws, ws[0].y, idx, starts)
  {
    forall r
      ensures Slice(ws, ws[0].y, idx, r) == Matching(pic.writes, RowOf, r)
    {
      SortIsStable(pic.writes, RowOf, r);
    }
    SortElements(pic.writes);
    assert ws[0] in pic.writes && ws[|ws| - 1] in pic.writes;
    forall r, c
      ensures HasStart(ws, r, c) <==> HasStart(pic.writes, r, c)
    {
      SameStarts(ws, pic.writes, r, c);
    }
  }

  /** What a decoding says of one row of its picture. */
  lemma {:induction false} RowFacts(pic: Picture, ws: seq<CellWrite>, off: int, idx: seq<nat>, starts: seq<bool>,
                                    r: nat, x: int)
    requires IsDecoding(pic, ws, off, idx, starts) && r < pic.height
    ensures |starts| == pic.width * pic.height
    ensures OnRow(pic, r) == RowWrites(Slice(ws, off, idx, r))
    ensures forall q :: x <= q < x + pic.width && Index(r, q - x, pic.width) < |starts| ==>
              (starts[Index(r, q - x, pic.width)] <==> StartsAt(OnRow(pic, r), x, q))
  {
    forall q | x <= q < x + pic.width && Index(r, q - x, pic.width) < |starts|
      ensures starts[Index(r, q - x, pic.width)] <==> StartsAt(OnRow(pic, r), x, q)
    {
      StartOnRow(pic, r, x, q);
    }
  }

  lemma {:induction false} SameStarts(a: seq<CellWrite>, b: seq<CellWrite>, r: int, c: int)
    requires forall w: CellWrite :: w in a <==> w in b
    ensures HasStart(a, r, c) <==> HasStart(b, r, c)
  {
    if HasStart(a, r, c) {
      var i :| 0 <= i < |a| && a[i].x == c && a[i].y == r;
      assert a[i] in b;
    }
    if HasStart(b, r, c) {
      var i :| 0 <= i < |b| && b[i].x == c && b[i].y == r;
      assert b[i] in a;
    }
  }

  lemma {:induction false} SortElements(ws: seq<CellWrite>)
    ensures forall w: CellWrite :: w in Sort(ws, RowOf) <==> w in ws
  {
    SortFacts(ws, RowOf);
    forall w: CellWrite
      ensures w in Sort(ws, RowOf) <==> w in ws
    {
      assert w in Sort(ws, RowOf) <==> w in multiset(Sort(ws, RowOf));
      assert w in ws <==> w in multiset(ws);
    }
  }

  /** Finds where each row's writes begin in the sorted list. */
  method GroupRows(ws: seq<CellWrite>) returns (idx: seq<nat>)
    requires |ws| > 0 && Ascending(ws, RowOf)
    ensures |idx| == ws[|ws| - 1].y - ws[0].y + 2
    ensures forall i, j :: 0 <= i <= j < |idx| ==> idx[i] <= idx[j] <= |ws|
    ensures forall r :: Slice(ws, ws[0].y, idx, r) == Matching(ws, RowOf, r)
  {
    var first, last := ws[0].y, ws[|ws| - 1].y;
    assert RowOf(ws[0]) <= RowOf(ws[|ws| - 1]);
    idx := seq(last - first + 2, _ => 0);
    var i, r := 0, first;
    while r <= last
      invariant first <= r <= last + 1 && 0 <= i <= |ws| && |idx| == last - first + 2
      invariant forall n :: 0 <= n < |ws| ==> (ws[n].y < r <==> n < i)
      invariant forall k, n :: 0 <= k < r - first && 0 <= n < |ws| ==> (ws[n].y < first + k <==> n < idx[k])
      invariant forall k, l :: 0 <= k <= l < r - first ==> idx[k] <= idx[l] <= i
    {
      idx := idx[r - first := i];
      while i < |ws| && ws[i].y == r
        invariant idx[r - first] <= i <= |ws|
        invariant forall n :: idx[r - first] <= n < i ==> ws[n].y == r
      {
        i := i + 1;
      }
      NextRow(ws, r, idx[r - first], i);
      r := r + 1;
    }
    LastRowDone(ws, last + 1, i);
    idx := idx[last - first + 1 := |ws|];
    forall r
      ensures Slice(ws, first, idx, r) == Matching(ws, RowOf, r)
    {
      GroupedRow(ws, first, last, idx, r);
    }
  }

  lemma {:induction false} NextRow(ws: seq<CellWrite>, r: int, from: nat, i: nat)
    requires Ascending(ws, RowOf) && from <= i <= |ws|
    requires forall n :: 0 <= n < |ws| ==> (ws[n].y < r <==> n < from)
    requires forall n :: from <= n < i ==> ws[n].y == r
    requires i < |ws| ==> ws[i].y != r
    ensures forall n :: 0 <= n < |ws| ==> (ws[n].y < r + 1 <==> n < i)
  {
    forall n | i <= n < |ws|
      ensures ws[n].y > r
    {
      assert n > i ==> RowOf(ws[i]) <= RowOf(ws[n]);
    }
  }

  lemma {:induction false} LastRowDone(ws: seq<CellWrite>, r: int, i: nat)
    requires |ws| > 0 && Ascending(ws, RowOf) && ws[|ws| - 1].y < r && i <= |ws|
    requires forall n :: 0 <= n < |ws| ==> (ws[n].y < r <==> n < i)
    ensures i == |ws|
  {
  }

  lemma {:induction false} GroupedRow(ws: seq<CellWrite>, first: int, last: int, idx: seq<nat>, r: int)
    requires |ws| > 0 && Ascending(ws, RowOf) && first == ws[0].y && last == ws[|ws| - 1].y
    requires |idx| == last - first + 2
    requires forall i, j :: 0 <= i <= j < |idx| ==> idx[i] <= idx[j] <= |ws|
    requires forall k, n :: 0 <= k < |idx| && 0 <= n < |ws| ==> (ws[n].y < first + k <==> n < idx[k])
    ensures Slice(ws, first, idx, r) == Matching(ws, RowOf, r)
  {
    if first <= r <= last {
      var k := r - first;
      forall n | 0 <= n < |ws|
        ensures RowOf(ws[n]) == r <==> idx[k] <= n < idx[k + 1]
      {
        assert ws[n].y < first + k <==> n < idx[k];
        assert ws[n].y < first + (k + 1) <==> n < idx[k + 1];
      }
      MatchingSlice(ws, RowOf, r, idx[k], idx[k + 1]);
    } else {
      forall n | 0 <= n < |ws|
        ensures RowOf(ws[n]) != r
      {
        assert RowOf(ws[0]) <= RowOf(ws[n]) <= RowOf(ws[|ws| - 1]);
      }
      NoneMatching(ws, RowOf, r);
    }
  }

  /** Marks the positions of the area where a write begins a cell. */
  method MarkStarts(ws: seq<CellWrite>, width: nat, height: nat) returns (starts: seq<bool>)
    ensures |starts| == width * height
    ensures forall r, c :: 0 <= r < height && 0 <= c < width && Index(r, c, width) < |starts| ==>
              (starts[Index(r, c, width)] <==> HasStart(ws, r, c))
  {
    starts := seq(width * height, _ => false);
    for n := 0 to |ws|
      invariant |starts| == width * height
      invariant forall r, c :: 0 <= r < height && 0 <= c < width && Index(r, c, width) < |starts| ==>
                  (starts[Index(r, c, width)] <==> HasStart(ws[..n], r, c))
    {
      var w := ws[n];
      if 0 <= w.x < width && 0 <= w.y < height {
        IndexInRange(w.y, w.x, width, height);
        starts := starts[Index(w.y, w.x, width) := true];
      }
      forall r, c | 0 <= r < height && 0 <= c < width && Index(r, c, width) < |starts|
        ensures starts[Index(r, c, width)] <==> HasStart(ws[..n + 1], r, c)
      {
        StartStep(ws, n, r, c);
        if 0 <= w.x < width && 0 <= w.y < height && Index(r, c, width) == Index(w.y, w.x, width) {
          IndexInjective(r, c, w.y, w.x, width);
        }
      }
    }
    assert ws[..|ws|] == ws;
  }

  lemma {:induction false} StartStep(ws: seq<CellWrite>, n: nat, r: int, c: int)
    requires n < |ws|
    ensures HasStart(ws[..n + 1], r, c) <==> HasStart(ws[..n], r, c) || (ws[n].x == c && ws[n].y == r)
  {
    if HasStart(ws[..n + 1], r, c) {
      var i :| 0 <= i < n + 1 && ws[..n + 1][i].x == c && ws[..n + 1][i].y == r;
      assert i < n ==> ws[..n][i] == ws[i];
    }
    if HasStart(ws[..n], r, c) {
      var i :| 0 <= i < n && ws[..n][i].x == c && ws[..n][i].y == r;
      assert ws[..n + 1][i] == ws[i];
    }
    assert ws[..n + 1][n] == ws[n];
  }

  /** Draws the picture on a recorder: its writes sorted by row, where each row begins, and the starts. */
  method RecordWrites(pic: Picture) returns (ws: seq<CellWrite>, off: int, idx: seq<nat>, starts: seq<bool>)
    requires Drawable(pic)
    ensures IsDecoding(pic, ws, off, idx, starts)
  {
    ws, off, idx := pic.writes, 0, [];
    starts := seq(pic.width * pic.height, _ => false);
    if |ws| == 0 {
      DecodedEmpty(pic, starts);
      return;
    }
    SortFacts(pic.writes, RowOf);
    ws := Sort(pic.writes, RowOf);
    assert |ws| == |pic.writes|;
    off := ws[0].y;
    idx := GroupRows(ws);
    starts := MarkStarts(ws, pic.width, pic.height);
    DecodedFromSorted(pic, ws, idx, starts);
  }

  class LayerCells {
    var width: nat
    var height: nat
    var decoded: bool
    // Decoded writes sorted by row. The rows start at rowOff; rowIdx says where each one's slice begins.
    var writes: seq<CellWrite>
    var rowOff: int
    var rowIdx: seq<nat>
    // Row-major over the area: where a write begins a cell.
    var starts: seq<bool>
    // As of the frame that used this record last: the layer's place, its position in the sorted list,
    // whether it had just appeared, which compose that was, and the content shown.
    var x: int
    var y: int
    var order: nat
    var isNew: bool
    var gen: nat
    var content: string

    /** The record measures the picture and, once decoded, replays it. */
    ghost predicate Describes(pic: Picture)
      reads this
    {
      && width == pic.width && height == pic.height
      && (if decoded && width > 0 then IsDecoding(pic, writes, rowOff, rowIdx, starts) else rowIdx == [])
    }

    constructor (pic: Picture)
      ensures Describes(pic) && !decoded && gen == 0
    {
      width, height := pic.width, pic.height;
      decoded, writes, rowOff, rowIdx, starts := false, [], 0, [], [];
      x, y, order, isNew, gen, content := 0, 0, 0, false, 0, "";
    }

    /** Records the cell writes drawing the content makes. */
    method Decode(pic: Picture)
      requires !decoded && Describes(pic) && Drawable(pic)
      modifies this`decoded, this`writes, this`rowOff, this`rowIdx, this`starts
      ensures decoded && Describes(pic)
    {
      decoded := true;
      if width == 0 { return; }
      writes, rowOff, rowIdx, starts := RecordWrites(pic);
    }

    /** First and one past the last layer row that a draw may touch, writes beyond the area included. */
    function RowSpan(): (span: (int, int))
      reads this
    {
      if |rowIdx| > 0
      then (if rowOff < 0 then rowOff else 0,
            if rowOff + |rowIdx| - 1 > height then rowOff + |rowIdx| - 1 else height)
      else (0, height)
    }

    /** Marks the canvas rows the layer covers when its top is at row top. */
    method MarkRows(damage: seq<bool>, top: int) returns (marked: seq<bool>)
      ensures |marked| == |damage|
      ensures forall r :: 0 <= r < |damage| ==>
                marked[r] == (damage[r] || top + RowSpan().0 <= r < top + RowSpan().1)
    {
      marked := damage;
      var (lo, hi) := RowSpan();
      var r := if top + lo > 0 then top + lo else 0;
      ghost var r0 := r;
      while r < top + hi && r < |damage|
        invariant 0 <= r0 <= r && |marked| == |damage|
        invariant r0 < r ==> r <= top + hi && r <= |damage|
        invariant forall q :: 0 <= q < |damage| ==> marked[q] == (damage[q] || r0 <= q < r)
      {
        marked := marked[r := true];
        r := r + 1;
      }
    }

    /** Draws the decoded layer at (x, y), on the damaged rows only. */
    method Replay(canvas: Canvas, x: int, y: int, damage: seq<bool>, ghost pic: Picture)
      requires canvas.Valid() && |damage| == canvas.height
      requires decoded && Describes(pic) && Drawable(pic) && width > 0
      modifies canvas`cells
      ensures canvas.Valid() && Replayed(old(canvas.cells), canvas.cells, pic, x, y, damage, height)
    {
      var (lo, hi) := RowSpan();
      ghost var start := canvas.cells;
      assert lo == 0 && hi == height;
      assert Replayed(start, start, pic, x, y, damage, lo);
      hide Replayed, IsDecoding, IsGrid, Drawable;
      var r := lo;
      while r < hi
        invariant lo <= r <= hi
        invariant canvas.Valid() && Replayed(start, canvas.cells, pic, x, y, damage, r)
      {
        ReplayDamagedRow(canvas, x, y, r, damage, pic, start);
        r := r + 1;
      }
    }

    /** Row r of the layer, if the canvas row it lies on is damaged. */
    method ReplayDamagedRow(canvas: Canvas, x: int, y: int, r: nat, damage: seq<bool>, ghost pic: Picture,
                            ghost start: Grid)
      requires canvas.Valid() && |damage| == |canvas.cells| == canvas.height && r < height
      requires decoded && Describes(pic) && Drawable(pic) && width > 0
      requires Replayed(start, canvas.cells, pic, x, y, damage, r)
      modifies canvas`cells
      ensures canvas.Valid() && Replayed(start, canvas.cells, pic, x, y, damage, r + 1)
    {
      hide Replayed, IsDecoding, IsGrid, Drawable, OnRow, DrawRow;
      var cy := y + r;
      ReplayedMore(start, canvas.cells, pic, x, y, damage, r);
      if 0 <= cy < |damage| && damage[cy] {
        ReplayRowOf(canvas, x, cy, r, pic);
      }
    }

    /** Row r of the layer, on canvas row cy. */
    method ReplayRowOf(canvas: Canvas, x: int, cy: nat, r: nat, ghost pic: Picture)
      requires canvas.Valid() && cy < canvas.height && r < height
      requires decoded && Describes(pic) && Drawable(pic) && width > 0
      modifies canvas`cells
      ensures canvas.Valid()
      ensures canvas.cells == old(canvas.cells)[cy := DrawRow(old(canvas.cells[cy]), OnRow(pic, r), x, pic.width)]
    {
      RowFacts(pic, writes, rowOff, rowIdx, starts, r, x);
      ReplayOneRow(canvas, x, cy, r, Slice(writes, rowOff, rowIdx, r), starts, width, height);
    }
  }

  /** The damaged rows among the first `rows` of a layer have been drawn over, the others left alone. */
  ghost predicate Replayed(before: Grid, after: Grid, pic: Picture, x: int, y: int, damage: seq<bool>, rows: int) {
    && |before| == |after| == |damage|
    && forall cy :: 0 <= cy < |before| ==>
         after[cy] == if damage[cy] && y <= cy < y + rows then DrawRow(before[cy], OnRow(pic, cy - y), x, pic.width)
                      else before[cy]
  }

  lemma {:induction false} ReplayedMore(before: Grid, now: Grid, pic: Picture, x: int, y: int, damage: seq<bool>,
                                        r: nat)
    requires Replayed(before, now, pic, x, y, damage, r)
    ensures var cy := y + r;
            Replayed(before,
                     if 0 <= cy < |damage| && damage[cy] then now[cy := DrawRow(now[cy], OnRow(pic, r), x, pic.width)]
                     else now,
                     pic, x, y, damage, r + 1)
  {
  }

  /** Redraws one damaged canvas row of a layer, clipped to the screen. */
  method ReplayOneRow(canvas: Canvas, x: int, cy: nat, r: nat, slice: seq<CellWrite>, starts: seq<bool>,
                      width: nat, height: nat)
    requires canvas.Valid() && cy < canvas.height && r < height && NoOverlap(RowWrites(slice))
    requires |starts| == width * height
    requires forall q :: x <= q < x + width && Index(r, q - x, width) < |starts| ==>
               (starts[Index(r, q - x, width)] <==> StartsAt(RowWrites(slice), x, q))
    modifies canvas`cells
    ensures canvas.Valid()
    ensures canvas.cells == old(canvas.cells)[cy := DrawRow(old(canvas.cells[cy]), RowWrites(slice), x, width)]
  {
    ghost var ws := RowWrites(slice);
    var visX0 := if x > 0 then x else 0;
    var visX1 := if x + width < canvas.width then x + width else canvas.width;
    ghost var before := canvas.cells;
    ClippedReplayIsDraw(before[cy], ws, x, width);
    ClearRow(canvas, x, cy, r, visX0, visX1, starts, width, height, ws);
    ghost var cleared := canvas.cells;
    WriteRow(canvas, x, cy, slice);
    UpdateTwice(before, cleared, cy, WriteAll(cleared[cy], ws, x));
  }

  lemma {:induction false} ClippedReplayIsDraw(row: Row, ws: seq<RowWrite>, x: int, width: nat)
    requires WellFormed(row) && NoOverlap(ws)
    ensures WriteAll(ClearOthers(row, ws, x, if x > 0 then x else 0, if x + width < |row| then x + width else |row|),
                     ws, x)
         == DrawRow(row, ws, x, width)
  {
    ClearOthersClipped(row, ws, x, x, x + width);
    ReplayIsDraw(row, ws, x, width);
  }

  lemma {:induction false} UpdateTwice(a: Grid, b: Grid, cy: nat, row: Row)
    requires cy < |a| && |a| == |b| && forall k :: 0 <= k < |a| && k != cy ==> a[k] == b[k]
    ensures b[cy := row] == a[cy := row]
  {
  }

  /** Blanks the columns the layer takes up in the row, except those where one of its cells begins. */
  method ClearRow(canvas: Canvas, x: int, cy: nat, r: nat, visX0: int, visX1: int,
                  starts: seq<bool>, width: nat, height: nat, ghost ws: seq<RowWrite>)
    requires canvas.Valid() && cy < canvas.height && r < height
    requires 0 <= visX0 && x <= visX0 && visX1 <= x + width
    requires |starts| == width * height
    requires forall q :: x <= q < x + width && Index(r, q - x, width) < |starts| ==>
               (starts[Index(r, q - x, width)] <==> StartsAt(ws, x, q))
    modifies canvas`cells
    ensures canvas.Valid()
    ensures canvas.cells == old(canvas.cells)[cy := ClearOthers(old(canvas.cells[cy]), ws, x, visX0, visX1)]
  {
    hide StartsAt, SetCell;
    ghost var before := canvas.cells;
    var rowStart := r * width - x;
    var cx := visX0;
    while cx < visX1
      invariant visX0 <= cx && (cx <= visX1 || cx == visX0)
      invariant canvas.Valid()
      invariant canvas.cells == before[cy := ClearOthers(before[cy], ws, x, visX0, cx)]
    {
      IndexInRange(r, cx - x, width, height);
      assert rowStart + cx == Index(r, cx - x, width);
      if !starts[rowStart + cx] {
        canvas.SetCell(cx, cy, None);
      }
      cx := cx + 1;
    }
  }

  method WriteRow(canvas: Canvas, x: int, cy: nat, slice: seq<CellWrite>)
    requires canvas.Valid() && cy < canvas.height
    modifies canvas`cells
    ensures canvas.Valid()
    ensures canvas.cells == old(canvas.cells)[cy := WriteAll(old(canvas.cells[cy]), RowWrites(slice), x)]
  {
    ghost var before, ws := canvas.cells, RowWrites(slice);
    for j := 0 to |slice|
      invariant canvas.Valid()
      invariant canvas.cells == before[cy := WriteAll(before[cy], ws[..j], x)]
    {
      assert ws[..j + 1][..j] == ws[..j];
      canvas.SetCell(slice[j].x + x, cy, Some(slice[j].cell));
    }
    assert ws[..|ws|] == ws;
  }
}
