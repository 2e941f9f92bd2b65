/**
  Writing rows of emulator cells as styled text. The writer emits an escape only where the pen or
  the hyperlink changes, resolves a run of equal styles once, and leaves out trailing blanks.
 */
module CellStyle {
  import opened Common
  import opened Terminal

  datatype Cell = Cell(content: string, style: Style, link: Link, width: int)

  /** The right half of a wide character has a cell of its own, with nothing in it. */
  const ZERO_CELL := Cell("", ZERO, NO_LINK, 0)

  type Slot = Option<Cell>

  /** A theme: the colour to draw a cell's colour in. There may be none. */
  type Theme = Option<Color -> Color>

  predicate RawBlank(c: Slot) {
    || c.None?
    || (c.value != ZERO_CELL && c.value.style == ZERO && c.value.link.url == "" && c.value.content in [" ", ""] &&
        c.value.width <= 1)
  }

  function Drop(c: Color): Color { if Safe(c) then c else NoColor }

  function Resolved(s: Style, theme: Theme): (r: DrawnStyle) {
    match theme
    case None => s.(fg := Drop(s.fg), bg := Drop(s.bg), underlineColor := Drop(s.underlineColor))
    case Some(f) => s.(fg := Drop(f(s.fg)), bg := Drop(f(s.bg)), underlineColor := Drop(f(s.underlineColor)))
  }

  // ---- what a row should show ------------------------------------------------------------------

  /** The columns one cell is responsible for; a wide character's right half comes with its left. */
  function CellColumns(c: Slot, theme: Theme, width: string -> nat): seq<Column> {
    if RawBlank(c) then [BLANK]
    else if c.value == ZERO_CELL then []
    else
      Columns(if c.value.content == "" then " " else c.value.content, PenOf(Resolved(c.value.style, theme)),
              Shown(c.value.link), width)
  }

  function RowColumns(row: seq<Slot>, theme: Theme, width: string -> nat): seq<Column> {
    if row == [] then []
    else RowColumns(row[..|row| - 1], theme, width) + CellColumns(row[|row| - 1], theme, width)
  }

  function Blanks(n: nat): (b: seq<Column>)
    ensures |b| == n && forall i :: 0 <= i < n ==> b[i] == BLANK
  {
    seq(n, _ => BLANK)
  }

  /** How many blank columns end the row. */
  function Held(row: seq<Slot>): nat {
    if row == [] then 0
    else if RawBlank(row[|row| - 1]) then Held(row[..|row| - 1]) + 1
    else if row[|row| - 1].value == ZERO_CELL then Held(row[..|row| - 1])
    else 0
  }

  /** More columns at the end of the last row. */
  function Extended(rows: seq<seq<Column>>, more: seq<Column>): (r: seq<seq<Column>>)
    requires rows != []
    ensures |r| == |rows|
  {
    rows[|rows| - 1 := rows[|rows| - 1] + more]
  }

  lemma {:induction false} NothingMore(rows: seq<seq<Column>>)
    requires rows != []
    ensures Extended(rows, Blanks(0)) == rows
  {
    assert rows[|rows| - 1] + Blanks(0) == rows[|rows| - 1];
  }

  lemma {:induction false} OneMoreBlank(rows: seq<seq<Column>>, n: nat)
    requires rows != []
    ensures Extended(Extended(rows, Blanks(n)), [BLANK]) == Extended(rows, Blanks(n + 1))
  {
    OneBlankMore(rows[|rows| - 1], n);
  }

  lemma {:induction false} LastExtended(rows: seq<seq<Column>>, above: seq<seq<Column>>, a: seq<Column>, b: seq<Column>)
    requires |rows| == |above| + 1 && rows[..|above|] == above
    ensures var all := Extended(Extended(rows, a), b);
            |all| == |above| + 1 && all[..|above|] == above && all[|above|] == rows[|above|] + a + b
  {
  }

  predicate IsWide(c: Slot, width: string -> nat) {
    !RawBlank(c) && c.value != ZERO_CELL && c.value.content != "" && Wide(c.value.content, width)
  }

  predicate IsContinuation(c: Slot) { c == Some(ZERO_CELL) }

  predicate Paired(row: seq<Slot>, width: string -> nat, x: int)
    requires 0 <= x < |row|
  {
    && (IsWide(row[x], width) ==> x + 1 < |row| && IsContinuation(row[x + 1]))
    && (IsContinuation(row[x]) ==> x > 0 && IsWide(row[x - 1], width))
  }

  /** Wide characters and continuations come in pairs. */
  predicate WellFormed(row: seq<Slot>, width: string -> nat) {
    forall x :: 0 <= x < |row| ==> Paired(row, width, x)
  }

  /** What shows in a cell's own column. */
  function ShownAt(c: Slot, theme: Theme): Column {
    if IsContinuation(c) then Continued
    else if RawBlank(c) then BLANK
    else
      Glyph(if c.value.content == "" then " " else c.value.content, PenOf(Resolved(c.value.style, theme)),
            Shown(c.value.link))
  }

  lemma {:induction false} ColumnsOfCell(c: Slot, theme: Theme, width: string -> nat)
    ensures var own := CellColumns(c, theme, width);
            && |own| == (if IsContinuation(c) then 0 else if IsWide(c, width) then 2 else 1)
            && (!IsContinuation(c) ==> own[0] == ShownAt(c, theme))
            && (IsWide(c, width) ==> own[1] == Continued)
  {
  }

  lemma {:induction false} OneMoreCell(row: seq<Slot>, theme: Theme, width: string -> nat, k: nat)
    requires 0 < k <= |row|
    ensures RowColumns(row[..k], theme, width) ==
              RowColumns(row[..k - 1], theme, width) + CellColumns(row[k - 1], theme, width)
  {
    assert row[..k][..k - 1] == row[..k - 1] && row[..k][k - 1] == row[k - 1];
  }

  lemma {:induction false} PrefixColumns(row: seq<Slot>, theme: Theme, width: string -> nat, k: nat)
    requires WellFormed(row, width) && k <= |row|
    ensures |RowColumns(row[..k], theme, width)| == if k > 0 && IsWide(row[k - 1], width) then k + 1 else k
  {
    if k > 0 {
      PrefixColumns(row, theme, width, k - 1);
      OneMoreCell(row, theme, width, k);
      ColumnsOfCell(row[k - 1], theme, width);
      assert Paired(row, width, k - 1);
      assert k > 1 ==> Paired(row, width, k - 2);
    }
  }

  lemma {:induction false} PrefixOf(row: seq<Slot>, theme: Theme, width: string -> nat, k: nat)
    requires k <= |row|
    ensures RowColumns(row[..k], theme, width) <= RowColumns(row, theme, width)
    decreases |row| - k
  {
    hide CellColumns;
    if k < |row| {
      PrefixOf(row, theme, width, k + 1);
      assert row[..k + 1][..k] == row[..k];
    } else {
      assert row[..k] == row;
    }
  }

  lemma {:induction false} ColumnsBefore(row: seq<Slot>, theme: Theme, width: string -> nat, k: nat)
    requires WellFormed(row, width) && k < |row| && !IsContinuation(row[k])
    ensures |RowColumns(row[..k], theme, width)| == k
  {
    PrefixColumns(row, theme, width, k);
    assert k > 0 ==> Paired(row, width, k - 1);
  }

  /** The columns of a cell that is not a continuation start at its own place. */
  lemma {:induction false} ColumnsAt(row: seq<Slot>, theme: Theme, width: string -> nat, k: nat)
    requires k < |row| && |RowColumns(row[..k], theme, width)| == k
    ensures var own, all := CellColumns(row[k], theme, width), RowColumns(row, theme, width);
            k + |own| <= |all| && all[k..k + |own|] == own
  {
    OneMoreCell(row, theme, width, k + 1);
    PrefixOf(row, theme, width, k + 1);
    SliceOf(RowColumns(row[..k], theme, width), CellColumns(row[k], theme, width), RowColumns(row, theme, width));
  }

  lemma {:induction false} SliceOf<T>(before: seq<T>, own: seq<T>, all: seq<T>)
    requires before + own <= all
    ensures all[|before|..|before| + |own|] == own
  {
    assert all[..|before| + |own|] == before + own;
  }

  /** In a well-formed row every cell is shown in its own column, and nothing else is. */
  lemma {:induction false} ColumnOfCell(row: seq<Slot>, theme: Theme, width: string -> nat, x: nat)
    requires WellFormed(row, width) && x < |row|
    ensures |RowColumns(row, theme, width)| == |row|
    ensures RowColumns(row, theme, width)[x] == ShownAt(row[x], theme)
  {
    PrefixColumns(row, theme, width, |row|);
    assert row[..|row|] == row;
    assert Paired(row, width, |row| - 1) && Paired(row, width, x);
    var k := if IsContinuation(row[x]) then x - 1 else x;
    assert Paired(row, width, k);
    ColumnsBefore(row, theme, width, k);
    ColumnsAt(row, theme, width, k);
    ColumnsOfCell(row[k], theme, width);
    hide RowColumns, CellColumns, WellFormed;
    ElementOf(RowColumns(row, theme, width), k, CellColumns(row[k], theme, width), x - k);
  }

  lemma {:induction false} ElementOf<T>(all: seq<T>, k: nat, own: seq<T>, i: nat)
    requires k + |own| <= |all| && all[k..k + |own|] == own && i < |own|
    ensures all[k + i] == own[i]
  {
  }

  /** What is written of a row: all of it except the blank columns at its end. */
  ghost predicate ShowsRow(columns: seq<Column>, row: seq<Slot>, theme: Theme, width: string -> nat) {
    columns + Blanks(Held(row)) == RowColumns(row, theme, width)
  }

  lemma {:induction false} RowColumnsMore(row: seq<Slot>, theme: Theme, width: string -> nat, c: Slot)
    ensures RowColumns(row + [c], theme, width) == RowColumns(row, theme, width) + CellColumns(c, theme, width)
    ensures Held(row + [c]) == if RawBlank(c) then Held(row) + 1 else if c.value == ZERO_CELL then Held(row) else 0
  {
    assert (row + [c])[..|row + [c]| - 1] == row;
  }

  lemma {:induction false} OneBlankMore(columns: seq<Column>, n: nat)
    ensures columns + Blanks(n) + [BLANK] == columns + Blanks(n + 1)
  {
  }

  lemma {:induction false} NoMore<T>(s: seq<T>)
    ensures s + [] == s
  {
  }

  lemma {:induction false} ShowsMoreBlank(columns: seq<Column>, row: seq<Slot>, theme: Theme, width: string -> nat,
                                          c: Slot)
    requires ShowsRow(columns, row, theme, width) && (RawBlank(c) || c.value == ZERO_CELL)
    ensures ShowsRow(columns, row + [c], theme, width)
    ensures Held(row + [c]) == if RawBlank(c) then Held(row) + 1 else Held(row)
  {
    RowColumnsMore(row, theme, width, c);
    if RawBlank(c) {
      OneBlankMore(columns, Held(row));
    } else {
      NoMore(RowColumns(row, theme, width));
    }
  }

  /** The rows above are untouched, and the last one shows the cells of `row` but for `pending` blanks held back. */
  ghost predicate RowWritten(rows: seq<seq<Column>>, above: seq<seq<Column>>, row: seq<Slot>, pending: nat,
                             theme: Theme, width: string -> nat)
  {
    && pending == Held(row) && |rows| == |above| + 1 && rows[..|above|] == above
    && ShowsRow(rows[|above|], row, theme, width)
  }

  lemma {:induction false} BlankHeldBack(rows: seq<seq<Column>>, above: seq<seq<Column>>, row: seq<Slot>, pending: nat,
                                         theme: Theme, width: string -> nat, c: Slot)
    requires RowWritten(rows, above, row, pending, theme, width) && (RawBlank(c) || c.value == ZERO_CELL)
    ensures RowWritten(rows, above, row + [c], if RawBlank(c) then pending + 1 else pending, theme, width)
  {
    ShowsMoreBlank(rows[|above|], row, theme, width, c);
  }

  lemma {:induction false} InkWritten(rows: seq<seq<Column>>, above: seq<seq<Column>>, row: seq<Slot>, pending: nat,
                                      theme: Theme, width: string -> nat, c: Slot)
    requires RowWritten(rows, above, row, pending, theme, width) && !RawBlank(c) && c.value != ZERO_CELL
    ensures RowWritten(Extended(Extended(rows, Blanks(pending)), CellColumns(c, theme, width)), above, row + [c], 0,
                       theme, width)
  {
    ShowsMoreInk(rows[|above|], row, theme, width, c);
    LastExtended(rows, above, Blanks(pending), CellColumns(c, theme, width));
  }

  lemma {:induction false} ShowsMoreInk(columns: seq<Column>, row: seq<Slot>, theme: Theme, width: string -> nat,
                                        c: Slot)
    requires ShowsRow(columns, row, theme, width) && !RawBlank(c) && c.value != ZERO_CELL
    ensures ShowsRow(columns + Blanks(Held(row)) + CellColumns(c, theme, width), row + [c], theme, width)
    ensures Held(row + [c]) == 0
  {
    RowColumnsMore(row, theme, width, c);
    assert Blanks(0) == [];
    NoMore(columns + Blanks(Held(row)) + CellColumns(c, theme, width));
  }

  /** What a terminal is told of a cell's colour: the theme's answer to it, or nothing if that is unusable. */
  predicate Painted(p: Paint, c: Color, theme: Theme) {
    var d := if theme.Some? then theme.value(c) else c;
    p == if d.Broken? then Default else PaintOf(d)
  }

  /** The column shows the cell's character and link, in its own attributes and each of its three colours. */
  predicate Inked(col: Column, c: Cell, theme: Theme) {
    && col.Glyph? && col.s == (if c.content == "" then " " else c.content)
    && col.link == (if c.link.url == "" then Link("", "") else c.link)
    && col.pen.attrs == c.style.attrs && col.pen.underline == c.style.underline
    && Painted(col.pen.fg, c.style.fg, theme) && Painted(col.pen.bg, c.style.bg, theme)
    && Painted(col.pen.underlineColor, c.style.underlineColor, theme)
  }

  /** The right half of a wide character. */
  predicate Half(c: Slot) { c == Some(Cell("", Style({}, 0, NoColor, NoColor, NoColor), Link("", ""), 0)) }

  /** No cell, or an unstyled space without a link. */
  predicate Bare(c: Slot) {
    || c == None
    || (!Half(c) && c.value.style == Style({}, 0, NoColor, NoColor, NoColor) && c.value.link.url == "" &&
        (c.value.content == " " || c.value.content == "") && c.value.width <= 1)
  }

  predicate ShowsCell(col: Column, c: Slot, theme: Theme) {
    if Half(c) then col == Continued
    else if Bare(c) then col == Glyph(" ", Pen({}, 0, Default, Default, Default), Link("", ""))
    else Inked(col, c.value, theme)
  }

  lemma {:induction false} ShownAtShows(c: Slot, theme: Theme)
    ensures ShowsCell(ShownAt(c, theme), c, theme)
    ensures RawBlank(c) <==> Bare(c)
  {
  }

  /** Every written column shows its own cell, and exactly the bare cells that end the row are not written. */
  predicate RowShown(columns: seq<Column>, row: seq<Slot>, theme: Theme) {
    && |columns| <= |row|
    && (forall x :: 0 <= x < |columns| ==> ShowsCell(columns[x], row[x], theme))
    && (forall x :: |columns| <= x < |row| ==> Bare(row[x]))
    && (columns != [] ==> !Bare(row[|columns| - 1]))
  }

  /** The cells held back are those after the last that is not blank. */
  lemma {:induction false} HeldAreBlank(row: seq<Slot>, width: string -> nat)
    requires WellFormed(row, width)
    ensures Held(row) <= |row|
    ensures forall x :: |row| - Held(row) <= x < |row| ==> RawBlank(row[x])
    ensures Held(row) < |row| ==> !RawBlank(row[|row| - Held(row) - 1])
  {
    if row != [] {
      var last := |row| - 1;
      assert Paired(row, width, last);
      if RawBlank(row[last]) {
        assert forall x :: 0 <= x < last ==> Paired(row, width, x);
        assert last > 0 ==> Paired(row, width, last - 1);
        assert WellFormed(row[..last], width) by {
          forall x | 0 <= x < last
            ensures Paired(row[..last], width, x)
          {
            assert Paired(row, width, x);
          }
        }
        HeldAreBlank(row[..last], width);
      } else if row[last].value == ZERO_CELL {
        assert Held(row[..last]) == 0;
      }
    }
  }

  /**
    A well-formed row comes back cell by cell: every column written shows its cell in its own
    attributes and the colours the theme has for it, and the columns left out are exactly the blanks
    that end the row, which the terminal shows anyway.
   */
  lemma {:induction false} RowComesBack(columns: seq<Column>, row: seq<Slot>, theme: Theme, width: string -> nat)
    requires ShowsRow(columns, row, theme, width) && WellFormed(row, width)
    ensures RowShown(columns, row, theme)
  {
    hide *;
    RowSplits(columns, row, theme, width);
    CellsOfRow(row, theme, width);
    BareEnd(row, width);
    BackCellByCell(columns, Held(row), RowColumns(row, theme, width), row, theme);
  }

  lemma {:induction false} RowSplits(columns: seq<Column>, row: seq<Slot>, theme: Theme, width: string -> nat)
    requires ShowsRow(columns, row, theme, width)
    ensures |columns| + Held(row) == |RowColumns(row, theme, width)|
    ensures columns == RowColumns(row, theme, width)[..|columns|]
  {
  }

  lemma {:induction false} CellsOfRow(row: seq<Slot>, theme: Theme, width: string -> nat)
    requires WellFormed(row, width)
    ensures |RowColumns(row, theme, width)| == |row|
    ensures forall x :: 0 <= x < |row| ==> ShowsCell(RowColumns(row, theme, width)[x], row[x], theme)
  {
    if row != [] {
      ColumnOfCell(row, theme, width, 0);
    }
    hide *;
    forall x | 0 <= x < |row|
      ensures ShowsCell(RowColumns(row, theme, width)[x], row[x], theme)
    {
      ColumnOfCell(row, theme, width, x);
      ShownAtShows(row[x], theme);
    }
  }

  lemma {:induction false} BareEnd(row: seq<Slot>, width: string -> nat)
    requires WellFormed(row, width)
    ensures Held(row) <= |row|
    ensures forall x :: |row| - Held(row) <= x < |row| ==> Bare(row[x])
    ensures Held(row) < |row| ==> !Bare(row[|row| - Held(row) - 1])
  {
    HeldAreBlank(row, width);
    hide *;
    forall x | 0 <= x < |row|
      ensures RawBlank(row[x]) <==> Bare(row[x])
    {
      ShownAtShows(row[x], None);
    }
  }

  lemma {:induction false} BackCellByCell(columns: seq<Column>, held: nat, all: seq<Column>, row: seq<Slot>,
                                          theme: Theme)
    requires |all| == |row| == |columns| + held && columns == all[..|columns|]
    requires forall x :: 0 <= x < |row| ==> ShowsCell(all[x], row[x], theme)
    requires forall x :: |row| - held <= x < |row| ==> Bare(row[x])
    requires held < |row| ==> !Bare(row[|row| - held - 1])
    ensures RowShown(columns, row, theme)
  {
    hide ShowsCell, Bare;
  }

  // ---- the writer ------------------------------------------------------------------------------

  /** Remembers the last style resolved; `gen` counts how often it had to be resolved anew. */
  class StyleMemo {
    var raw: Style
    var resolved: DrawnStyle
    var ok: bool
    var same: bool
    var gen: nat

    constructor ()
      ensures !ok && gen == 0
    {
      raw, resolved, ok, same, gen := ZERO, ZERO, false, false, 0;
    }

    predicate Valid(theme: Theme)
      reads this
    {
      (ok <==> gen > 0) && (ok ==> resolved == Resolved(raw, theme) && (same <==> resolved == raw))
    }

    method Clear()
      modifies this
      ensures !ok && gen == 0
    {
      raw, resolved, ok, same, gen := ZERO, ZERO, false, false, 0;
    }

    /** A style resolved under the same gen is the same style. */
    method Resolve(s: Style, theme: Theme) returns (r: DrawnStyle, kept: bool)
      requires Valid(theme)
      modifies this
      ensures Valid(theme) && ok && raw == s && r == resolved == Resolved(s, theme)
      ensures kept <==> r == s
      ensures gen == old(gen) ==> old(ok) && resolved == old(resolved)
      ensures gen == old(gen) || gen == old(gen) + 1
    {
      if !ok || s != raw {
        raw, resolved, ok := s, Resolved(s, theme), true;
        same := resolved.fg == s.fg && resolved.bg == s.bg && resolved.underlineColor == s.underlineColor;
        gen := gen + 1;
      }
      return resolved, same;
    }
  }

  class CellLineWriter {
    var out: seq<Token>
    var theme: Theme
    var pen: DrawnStyle
    var link: Link
    var pending: nat
    const memo: StyleMemo
    var penGen: nat
    /** How wide the terminal draws a character. */
    ghost const width: string -> nat
    /** The rows above, and the cells of this one so far. */
    ghost var above: seq<seq<Column>>
    ghost var row: seq<Slot>

    constructor (ghost width: string -> nat)
      ensures this.width == width && out == [] && fresh(memo)
    {
      this.width := width;
      memo := new StyleMemo();
      out, theme, pen, link, pending, penGen, above, row := [], None, ZERO, NO_LINK, 0, 0, [], [];
    }

    ghost function Screen(): Term
      reads this
    {
      Interpret(out, width)
    }

    /** The terminal's pen and link are as the writer believes, and the memo's gen tells which style the pen is from. */
    ghost predicate InStep()
      reads this, memo
    {
      && memo.Valid(theme)
      && Screen().pen == PenOf(pen) && Screen().link == Shown(link)
      && (penGen != 0 && penGen == memo.gen ==> PenOf(pen) == PenOf(memo.resolved))
      && penGen <= memo.gen
    }

    /** The rows above are untouched, and this one shows the cells so far but for the blanks held back. */
    ghost predicate Written()
      reads this
    {
      RowWritten(Screen().rows, above, row, pending, theme, width)
    }

    method Emit(token: Token)
      modifies this`out
      ensures Screen() == Feed(old(Screen()), token, width)
    {
      InterpretOne(out, token, width);
      out := out + [token];
    }

    method Begin(theme: Theme)
      requires Screen().pen == PLAIN && Screen().link == NO_LINK && Screen().rows[|Screen().rows| - 1] == []
      modifies this, memo
      ensures InStep() && Written() && this.theme == theme && out == old(out) && row == [] && pending == 0
      ensures above == old(Screen()).rows[..|old(Screen()).rows| - 1]
    {
      this.theme := theme;
      pen, link, pending := ZERO, NO_LINK, 0;
      memo.Clear();
      penGen := 0;
      row, above := [], Screen().rows[..|Screen().rows| - 1];
      assert Blanks(0) == [];
    }

    /** Pen and link back to plain, nothing written. */
    method ResetBoth()
      requires InStep()
      modifies this`out, this`pen, this`penGen, this`link
      ensures InStep() && pen == ZERO && Shown(link) == NO_LINK && penGen == 0
      ensures Screen().rows == old(Screen()).rows
    {
      if pen != ZERO {
        Emit(Reset);
        pen := ZERO;
      }
      penGen := 0;
      if link.url != "" {
        Emit(CloseLink);
        link := NO_LINK;
      }
    }

    method FlushPending()
      requires InStep() && pen == ZERO && Shown(link) == NO_LINK
      modifies this`out, this`pending
      ensures InStep() && pending == 0
      ensures Screen().rows == Extended(old(Screen()).rows, Blanks(old(pending)))
    {
      ghost var r := Screen().rows;
      NothingMore(r);
      while pending > 0
        invariant InStep() && pending <= old(pending)
        invariant Screen().rows == Extended(r, Blanks(old(pending) - pending))
      {
        Emit(Text(" "));
        assert Columns(" ", PLAIN, NO_LINK, width) == [BLANK];
        OneMoreBlank(r, old(pending) - pending);
        pending := pending - 1;
      }
    }

    method SetPen(style: DrawnStyle)
      requires Screen().pen == PenOf(pen)
      modifies this`out, this`pen
      ensures Screen().pen == PenOf(pen) == PenOf(style)
      ensures Screen().rows == old(Screen()).rows && Screen().link == old(Screen()).link
    {
      IdenticalIsSamePen(style, pen);
      if StylesIdentical(style, pen) {
        return;
      }
      if pen != ZERO {
        Emit(Reset);
      }
      if style != ZERO {
        Emit(SGR(style));
      }
      pen := style;
    }

    method SetLink(l: Link)
      requires Screen().link == Shown(link)
      modifies this`out, this`link
      ensures link == l && Screen().link == Shown(l)
      ensures Screen().rows == old(Screen()).rows && Screen().pen == old(Screen()).pen
    {
      if l == link {
        return;
      }
      if link.url != "" {
        Emit(CloseLink);
      }
      if l.url != "" {
        Emit(OpenLink(l));
      }
      link := l;
    }
  
    /** A blank: everything reset, and the blank itself held back. */
    method Blank(ghost c: Slot)
      requires InStep() && Written() && RawBlank(c)
      modifies this`out, this`pen, this`penGen, this`link, this`pending, this`row
      ensures InStep() && Written() && pen == ZERO && Shown(link) == NO_LINK && row == old(row) + [c]
    {
      ResetBoth();
      BlankHeldBack(Screen().rows, above, row, pending, theme, width, c);
      pending := pending + 1;
      row := row + [c];
    }

    /** Writes the next cell of the row. */
    method WriteCell(c: Slot)
      requires InStep() && Written() && (pending > 0 ==> pen == ZERO && Shown(link) == NO_LINK)
      modifies this`out, this`pen, this`penGen, this`link, this`pending, this`row, memo
      ensures InStep() && Written() && (pending > 0 ==> pen == ZERO && Shown(link) == NO_LINK)
      ensures row == old(row) + [c]
    {
      if c.None? {
        Blank(c);
        return;
      }
      var cell := c.value;
      if cell == ZERO_CELL {
        BlankHeldBack(Screen().rows, above, row, pending, theme, width, c);
        row := row + [c];
        return;
      }
      if cell.style == ZERO && cell.link.url == "" && (cell.content == " " || cell.content == "") && cell.width <= 1 {
        Blank(c);
        return;
      }
      Ink(cell);
    }

    method Ink(cell: Cell)
      requires InStep() && Written() && (pending > 0 ==> pen == ZERO && Shown(link) == NO_LINK)
      requires !RawBlank(Some(cell)) && cell != ZERO_CELL
      modifies this`out, this`pen, this`penGen, this`link, this`pending, this`row, memo
      ensures InStep() && Written() && pending == 0 && row == old(row) + [Some(cell)]
    {
      InkWritten(Screen().rows, above, row, pending, theme, width, Some(cell));
      WriteInk(cell);
      row := row + [Some(cell)];
    }

    /** A cell that is not blank: its style and link where they differ, and its character. */
    method WriteInk(cell: Cell)
      requires InStep() && (pending > 0 ==> pen == ZERO && Shown(link) == NO_LINK)
      requires !RawBlank(Some(cell)) && cell != ZERO_CELL
      modifies this`out, this`pen, this`penGen, this`link, this`pending, memo
      ensures InStep() && pending == 0
      ensures Screen().rows ==
                Extended(Extended(old(Screen()).rows, Blanks(old(pending))), CellColumns(Some(cell), theme, width))
    {
      if pending > 0 {
        FlushPending();
      } else {
        NothingMore(Screen().rows);
      }
      SetStyle(cell.style);
      SetLink(cell.link);
      if cell.content == "" {
        Emit(Text(" "));
      } else {
        Emit(Text(cell.content));
      }
    }

    /** The pen for a cell's style; not even looked at if it comes from the same resolution as the last. */
    method SetStyle(style: Style)
      requires InStep()
      modifies this`out, this`pen, this`penGen, memo
      ensures InStep() && PenOf(pen) == PenOf(Resolved(style, theme))
      ensures Screen().rows == old(Screen()).rows && Screen().link == old(Screen()).link
    {
      var resolved, kept := memo.Resolve(style, theme);
      if penGen != memo.gen {
        SetPen(resolved);
        penGen := memo.gen;
      }
    }

    /** Closes the line: link and pen reset, the blanks held back left out. */
    method End()
      requires InStep() && Written()
      modifies this`out, this`pen, this`penGen, this`link, this`pending
      ensures Screen().pen == PLAIN && Screen().link == NO_LINK && Screen().rows == old(Screen()).rows
      ensures pending == 0
    {
      if link.url != "" {
        Emit(CloseLink);
        link := NO_LINK;
      }
      if pen != ZERO {
        Emit(Reset);
        pen := ZERO;
      }
      penGen := 0;
      pending := 0;
    }
  }

  /** Every row shows its cells, but for the blank columns at its end. */
  ghost predicate ShowsScreen(rows: seq<seq<Column>>, cells: seq<seq<Slot>>, theme: Theme, width: string -> nat) {
    |rows| == |cells| && forall y :: 0 <= y < |rows| ==> ShowsRow(rows[y], cells[y], theme, width)
  }

  lemma {:induction false} OneMoreRow(rows: seq<seq<Column>>, cells: seq<seq<Slot>>, theme: Theme, width: string -> nat,
                                      columns: seq<Column>, row: seq<Slot>)
    requires ShowsScreen(rows, cells, theme, width) && ShowsRow(columns, row, theme, width)
    ensures ShowsScreen(rows + [columns], cells + [row], theme, width)
  {
  }

  lemma {:induction false} ScreenComesBack(rows: seq<seq<Column>>, cells: seq<seq<Slot>>, theme: Theme,
                                           width: string -> nat)
    requires cells != [] ==> ShowsScreen(rows, cells, theme, width)
    ensures forall y :: 0 <= y < |cells| && WellFormed(cells[y], width) ==> RowShown(rows[y], cells[y], theme)
  {
    hide ShowsRow, RowShown;
    forall y | 0 <= y < |cells| && WellFormed(cells[y], width)
      ensures RowShown(rows[y], cells[y], theme)
    {
      RowComesBack(rows[y], cells[y], theme, width);
    }
  }

  /** Writes a whole screen, row under row. */
  method RenderCellScreen(cells: seq<seq<Slot>>, theme: Theme, ghost width: string -> nat) returns (out: seq<Token>)
    ensures var t := Interpret(out, width);
            && t.pen == PLAIN && t.link == NO_LINK
            && (if cells == [] then t.rows == [[]] else ShowsScreen(t.rows, cells, theme, width))
            && (forall y :: 0 <= y < |cells| && WellFormed(cells[y], width) ==> RowShown(t.rows[y], cells[y], theme))
  {
    var line := new CellLineWriter(width);
    for y := 0 to |cells|
      invariant fresh(line) && fresh(line.memo) && line.width == width
      invariant line.Screen().pen == PLAIN && line.Screen().link == NO_LINK
      invariant if y == 0 then line.Screen().rows == [[]] else ShowsScreen(line.Screen().rows, cells[..y], theme, width)
    {
      ghost var above := if y == 0 then [] else line.Screen().rows;
      assert ShowsScreen(above, cells[..y], theme, width);
      ghost var columns := RenderRow(line, cells[y], theme, y == 0);
      OneMoreRow(above, cells[..y], theme, width, columns, cells[y]);
      assert cells[..y] + [cells[y]] == cells[..y + 1];
    }
    assert cells[..|cells|] == cells;
    out := line.out;
    ScreenComesBack(line.Screen().rows, cells, theme, width);
  }

  lemma {:induction false} AboveAndLast(rows: seq<seq<Column>>, above: seq<seq<Column>>)
    requires |rows| == |above| + 1 && rows[..|above|] == above
    ensures rows == above + [rows[|above|]]
  {
  }

  /** Begins the next row, on a line of its own. */
  method StartRow(line: CellLineWriter, theme: Theme, first: bool)
    requires line.Screen().pen == PLAIN && line.Screen().link == NO_LINK && (first ==> line.Screen().rows == [[]])
    modifies line, line.memo
    ensures line.InStep() && line.Written() && line.theme == theme && line.row == [] && line.pending == 0
    ensures line.above == if first then [] else old(line.Screen()).rows
  {
    if !first {
      line.Emit(Newline);
      assert line.Screen().rows[..|line.Screen().rows| - 1] == old(line.Screen()).rows;
    }
    line.Begin(theme);
  }

  /** The next row of a screen, on a line of its own. */
  method RenderRow(line: CellLineWriter, row: seq<Slot>, theme: Theme, first: bool) returns (ghost columns: seq<Column>)
    requires line.Screen().pen == PLAIN && line.Screen().link == NO_LINK && (first ==> line.Screen().rows == [[]])
    modifies line, line.memo
    ensures line.Screen().pen == PLAIN && line.Screen().link == NO_LINK
    ensures line.Screen().rows == (if first then [] else old(line.Screen()).rows) + [columns]
    ensures ShowsRow(columns, row, theme, line.width)
  {
    StartRow(line, theme, first);
    ghost var above := line.above;
    WriteRow(line, row);
    AboveAndLast(line.Screen().rows, above);
    columns := line.Screen().rows[|above|];
    line.End();
  }

  method WriteRow(line: CellLineWriter, row: seq<Slot>)
    requires line.InStep() && line.Written() && line.row == [] && line.pending == 0
    modifies line`out, line`pen, line`penGen, line`link, line`pending, line`row, line.memo
    ensures line.InStep() && line.Written() && line.row == row
  {
    hide CellLineWriter.InStep, CellLineWriter.Written;
    for x := 0 to |row|
      invariant line.InStep() && line.Written()
      invariant |line.row| == x && forall k :: 0 <= k < x ==> line.row[k] == row[k]
      invariant line.pending > 0 ==> line.pen == ZERO && Shown(line.link) == NO_LINK
    {
      line.WriteCell(row[x]);
    }
    assert line.row == row;
  }
}
