/**
  Cell styles, and a terminal that is told about them: what a stream of text and escapes shows.
 */
module Terminal {
  /**
    A colour as cells carry it. A fixed colour remembers which Go type it came as, which makes no
    difference to the eye; a broken one cannot be asked for its components.
   */
  datatype Color =
    | NoColor
    | Basic(n: int)
    | Indexed(n: int)
    | RGB(kind: int, r: int, g: int, b: int, a: int)
    | Broken(id: int)

  datatype Kind = KindNone | KindBasic | KindIndexed | KindRGB

  function Classify(c: Color): (Kind, int) {
    match c
    case NoColor => (KindNone, 0)
    case Basic(n) => (KindBasic, n)
    case Indexed(n) => (KindIndexed, n)
    case _ => (KindRGB, 0)
  }

  predicate Safe(c: Color) { !c.Broken? }

  predicate ColorsIdentical(a: Color, b: Color) {
    if a == b then true
    else
      var (ka, ia) := Classify(a);
      var (kb, ib) := Classify(b);
      if ka != kb then false
      else
        match ka
        case KindNone => true
        case KindRGB => Safe(a) && Safe(b) && a.r == b.r && a.g == b.g && a.b == b.b && a.a == b.a
        case _ => ia == ib
  }

  /** What a terminal is told of a colour: a palette entry of either palette, or a fixed shade. */
  datatype Paint = Default | Named(n: int) | Numbered(n: int) | Shade(r: int, g: int, b: int, a: int)

  function PaintOf(c: Color): Paint
    requires Safe(c)
  {
    match c
    case NoColor => Default
    case Basic(n) => Named(n)
    case Indexed(n) => Numbered(n)
    case RGB(_, r, g, b, a) => Shade(r, g, b, a)
  }

  /** Identical colours are those the terminal is told the same thing about. */
  lemma {:induction false} IdenticalIsSamePaint(a: Color, b: Color)
    requires Safe(a) && Safe(b)
    ensures ColorsIdentical(a, b) <==> PaintOf(a) == PaintOf(b)
  {
    if a.RGB? && b.RGB? && a != b {
      assert Classify(a) == Classify(b) == (KindRGB, 0);
    }
  }

  /** A broken colour is identical to itself only. */
  lemma {:induction false} BrokenIsAlone(a: Color, b: Color)
    requires !Safe(a)
    ensures ColorsIdentical(a, b) <==> a == b
    ensures ColorsIdentical(b, a) <==> a == b
  {
    assert Classify(a) == (KindRGB, 0);
  }

  datatype Style = Style(attrs: set<int>, underline: int, fg: Color, bg: Color, underlineColor: Color)

  const ZERO := Style({}, 0, NoColor, NoColor, NoColor)

  predicate StylesIdentical(a: Style, b: Style) {
    && a.attrs == b.attrs && a.underline == b.underline
    && ColorsIdentical(a.fg, b.fg) && ColorsIdentical(a.bg, b.bg) && ColorsIdentical(a.underlineColor, b.underlineColor)
  }

  /** A style that can be drawn. */
  type DrawnStyle = s: Style | SafeStyle(s) witness ZERO

  predicate SafeStyle(s: Style) { Safe(s.fg) && Safe(s.bg) && Safe(s.underlineColor) }

  /** The pen of a terminal. */
  datatype Pen = Pen(attrs: set<int>, underline: int, fg: Paint, bg: Paint, underlineColor: Paint)

  const PLAIN := Pen({}, 0, Default, Default, Default)

  function PenOf(s: DrawnStyle): Pen {
    Pen(s.attrs, s.underline, PaintOf(s.fg), PaintOf(s.bg), PaintOf(s.underlineColor))
  }

  lemma {:induction false} IdenticalIsSamePen(a: DrawnStyle, b: DrawnStyle)
    ensures StylesIdentical(a, b) <==> PenOf(a) == PenOf(b)
    ensures PenOf(a) == PLAIN <==> a == ZERO
  {
    IdenticalIsSamePaint(a.fg, b.fg);
    IdenticalIsSamePaint(a.bg, b.bg);
    IdenticalIsSamePaint(a.underlineColor, b.underlineColor);
  }

  /** A hyperlink; one without an address is no link. */
  datatype Link = Link(url: string, params: string)

  const NO_LINK := Link("", "")

  function Shown(l: Link): Link {
    if l.url == "" then NO_LINK else l
  }

  datatype Token = Text(s: string) | SGR(style: DrawnStyle) | Reset | OpenLink(link: Link) | CloseLink | Newline

  /** What one column shows: a character, or the right half of a wide one. */
  datatype Column = Glyph(s: string, pen: Pen, link: Link) | Continued

  const BLANK := Glyph(" ", PLAIN, NO_LINK)

  datatype Term = Term(rows: seq<seq<Column>>, pen: Pen, link: Link)

  const START := Term([[]], PLAIN, NO_LINK)

  /** Some characters take two columns; a space does not. */
  predicate Wide(s: string, width: string -> nat) { s != " " && width(s) == 2 }

  function Columns(s: string, pen: Pen, link: Link, width: string -> nat): seq<Column> {
    [Glyph(s, pen, link)] + if Wide(s, width) then [Continued] else []
  }

  /** Switching style only adds to the pen: what it does not mention stays. */
  function Merge(pen: Pen, s: DrawnStyle): Pen {
    Pen(pen.attrs + s.attrs,
        if s.underline != 0 then s.underline else pen.underline,
        if s.fg.NoColor? then pen.fg else PaintOf(s.fg),
        if s.bg.NoColor? then pen.bg else PaintOf(s.bg),
        if s.underlineColor.NoColor? then pen.underlineColor else PaintOf(s.underlineColor))
  }

  function Feed(t: Term, token: Token, width: string -> nat): (u: Term)
    requires t.rows != []
    ensures u.rows != []
  {
    var last := |t.rows| - 1;
    match token
    case Text(s) => t.(rows := t.rows[last := t.rows[last] + Columns(s, t.pen, t.link, width)])
    case SGR(style) => t.(pen := Merge(t.pen, style))
    case Reset => t.(pen := PLAIN)
    case OpenLink(l) => t.(link := l)
    case CloseLink => t.(link := NO_LINK)
    case Newline => t.(rows := t.rows + [[]])
  }

  function Interpret(out: seq<Token>, width: string -> nat): (t: Term)
    ensures t.rows != []
  {
    if out == [] then START else Feed(Interpret(out[..|out| - 1], width), out[|out| - 1], width)
  }

  lemma {:induction false} InterpretOne(out: seq<Token>, token: Token, width: string -> nat)
    ensures Interpret(out + [token], width) == Feed(Interpret(out, width), token, width)
  {
    assert (out + [token])[..|out + [token]| - 1] == out;
  }
}
