/** Colour-space arithmetic of the accent picker, over exact reals. */
module AccentColor {
  function Min(a: real, b: real): real { if b < a then b else a }
  function Max(a: real, b: real): real { if a < b then b else a }
  function Abs(a: real): real { if a < 0.0 then -a else a }

  /** The remainder of division rounded towards zero; it has the sign of x. */
  function Mod(x: real, m: real): real
    requires m > 0.0
  {
    if x >= 0.0 then x - m * (x / m).Floor as real else -(-x - m * (-x / m).Floor as real)
  }

  /** A colour in channels of 0 to 1. */
  datatype RGB = RGB(r: real, g: real, b: real)

  datatype HSL = HSL(h: real, s: real, l: real)

  predicate Unit(v: real) { 0.0 <= v <= 1.0 }

  predicate InRange(c: RGB) { Unit(c.r) && Unit(c.g) && Unit(c.b) }

  function Clamp(v: real): real { Min(Max(v, 0.0), 1.0) }

  /** How far the brightest channel is above the darkest. */
  function Chroma(s: real, l: real): real { (1.0 - Abs(2.0 * l - 1.0)) * s }

  /** How much of it the middle channel has, by hue in degrees. */
  function Triangle(h: real): real { 1.0 - Abs(Mod(h / 60.0, 2.0) - 1.0) }

  function Middle(c: real, h: real): real { c * Triangle(h) }

  function Darkest(c: real, l: real): real { l - c / 2.0 }

  function Turned(h: real): real { Mod(Mod(h, 360.0) + 360.0, 360.0) }

  /** The channels, brightest c + m and darkest m, for a hue in degrees. */
  function Placed(h: real, c: real, x: real, m: real): RGB {
    if h < 60.0 then RGB(c + m, x + m, m)
    else if h < 120.0 then RGB(x + m, c + m, m)
    else if h < 180.0 then RGB(m, c + m, x + m)
    else if h < 240.0 then RGB(m, x + m, c + m)
    else if h < 300.0 then RGB(x + m, m, c + m)
    else RGB(c + m, m, x + m)
  }

  /** The channels before they are scaled and rounded to bytes. */
  function ToRGB(color: HSL): RGB {
    var h, s, l := Turned(color.h), Clamp(color.s), Clamp(color.l);
    var c := Chroma(s, l);
    Placed(h, c, Middle(c, h), Darkest(c, l))
  }

  function High(c: RGB): real { Max(c.r, Max(c.g, c.b)) }

  function Low(c: RGB): real { Min(c.r, Min(c.g, c.b)) }

  function Lightness(c: RGB): real { (High(c) + Low(c)) / 2.0 }

  /** The hue in sixths of the circle, from how the other two channels differ; red may come out negative. */
  function Sixth(c: RGB): real
    requires High(c) != Low(c)
  {
    var d := High(c) - Low(c);
    if High(c) == c.r then Mod((c.g - c.b) / d, 6.0)
    else if High(c) == c.g then (c.b - c.r) / d + 2.0
    else (c.r - c.g) / d + 4.0
  }

  function Degrees(sixth: real): real {
    var h := sixth * 60.0;
    if h < 0.0 then h + 360.0 else h
  }

  function Saturation(d: real, l: real): real
    requires Abs(2.0 * l - 1.0) < 1.0
  {
    Min(d / (1.0 - Abs(2.0 * l - 1.0)), 1.0)
  }

  function ToHSL(c: RGB): HSL
    requires InRange(c)
  {
    var d, l := High(c) - Low(c), Lightness(c);
    if d == 0.0 then HSL(0.0, 0.0, l)
    else
      LightnessLeavesRoom(c);
      HSL(Degrees(Sixth(c)), Saturation(d, l), l)
  }

  /** Only a colour that is not grey is between black and white, with room for its spread. */
  lemma {:induction false} LightnessLeavesRoom(c: RGB)
    requires InRange(c)
    ensures 0.0 <= Lightness(c) <= 1.0
    ensures High(c) - Low(c) <= 1.0 - Abs(2.0 * Lightness(c) - 1.0)
  {
  }

  lemma {:induction false} ModSmall(x: real, m: real)
    requires m > 0.0 && -m < x < m
    ensures Mod(x, m) == x
  {
    FloorSmall(Abs(x), m);
  }

  lemma {:induction false} FloorSmall(x: real, m: real)
    requires 0.0 <= x < m
    ensures (x / m).Floor == 0
  {
    assert 0.0 <= x / m < 1.0;
  }

  lemma {:induction false} ModTwo(x: real, k: int)
    requires 0 <= k && 2.0 * k as real <= x < 2.0 * k as real + 2.0
    ensures Mod(x, 2.0) == x - 2.0 * k as real
  {
    assert (x / 2.0).Floor == k;
  }

  lemma {:induction false} ScaleKeepsOrder(a: real, b: real, d: real)
    requires d > 0.0
    ensures a <= b <==> a * d <= b * d
  {
    var gap := b - a;
    assert gap * d == b * d - a * d;
    if gap < 0.0 {
      assert -gap * d > 0.0;
    }
  }

  /** Undoing a division. */
  lemma {:induction false} Scaled(t: real, d: real)
    requires d > 0.0
    ensures d * (t / d) == t && d * Abs(t / d) == Abs(t)
    ensures -d <= t <= d ==> -1.0 <= t / d <= 1.0
    ensures (t / d < 0.0 <==> t < 0.0) && (t / d == 1.0 <==> t == d) && (t / d == -1.0 <==> t == -d)
  {
    var q := t / d;
    assert q * d == t;
    assert d * -q == -(d * q);
    ScaleKeepsOrder(q, 1.0, d);
    ScaleKeepsOrder(1.0, q, d);
    ScaleKeepsOrder(-1.0, q, d);
    ScaleKeepsOrder(q, -1.0, d);
    ScaleKeepsOrder(0.0, q, d);
  }

  lemma {:induction false} TriangleAt(u: real, q: real, k: int)
    requires -1.0 <= q <= 1.0 && 0 <= k
    requires u == q + 2.0 * k as real + if q < 0.0 then 2.0 else 0.0
    ensures Triangle(60.0 * u) == Abs(q)
  {
    assert 60.0 * u / 60.0 == u;
    ModTwo(u, k);
  }

  lemma {:induction false} TurnedIs(h: real)
    requires 0.0 <= h < 360.0
    ensures Turned(h) == h
  {
    ModSmall(h, 360.0);
    assert ((h + 360.0) / 360.0).Floor == 1;
  }

  /** Saturation and lightness give the spread back. */
  lemma {:induction false} SpreadComesBack(d: real, l: real)
    requires 0.0 < d <= 1.0 - Abs(2.0 * l - 1.0)
    ensures Clamp(l) == l && Clamp(Saturation(d, l)) == Saturation(d, l) && Chroma(Saturation(d, l), l) == d
  {
    var room := 1.0 - Abs(2.0 * l - 1.0);
    Scaled(d, room);
    var ratio := d / room;
    assert Saturation(d, l) == ratio;
  }

  lemma {:induction false} Assembled(color: HSL, h: real, s: real, l: real, c: real, x: real, m: real)
    requires h == Turned(color.h) && s == Clamp(color.s) && l == Clamp(color.l)
    requires c == Chroma(s, l) && x == Middle(c, h) && m == Darkest(c, l)
    ensures ToRGB(color) == Placed(h, c, x, m)
  {
  }

  lemma {:induction false} MiddleIs(d: real, h: real, t: real)
    requires d > 0.0 && Triangle(h) == Abs(t / d)
    ensures Middle(d, h) == Abs(t)
  {
    Scaled(t, d);
  }

  /** A colour comes back from the spread of its channels d and how the other two differ, t. */
  lemma {:induction false} Unfolded(color: HSL, d: real, t: real, h: real, l: real)
    requires 0.0 < d <= 1.0 - Abs(2.0 * l - 1.0) && 0.0 <= h < 360.0 && Triangle(h) == Abs(t / d)
    requires color == HSL(h, Saturation(d, l), l)
    ensures ToRGB(color) == Placed(h, d, Abs(t), Darkest(d, l))
  {
    SpreadComesBack(d, l);
    TurnedIs(h);
    MiddleIs(d, h, t);
    Assembled(color, h, Saturation(d, l), l, d, Abs(t), Darkest(d, l));
  }

  lemma {:induction false} DarkestIsLow(c: RGB)
    ensures Darkest(High(c) - Low(c), Lightness(c)) == Low(c)
  {
  }

  lemma {:induction false} PlacedRed(c: RGB, u: real, q: real)
    requires High(c) > Low(c) && High(c) == c.r && u == (if q < 0.0 then q + 6.0 else q)
    requires -1.0 <= q <= 1.0 && (q < 0.0 <==> c.g < c.b) && (q == 1.0 <==> c.g - c.b == High(c) - Low(c))
             && (q == -1.0 <==> c.b - c.g == High(c) - Low(c))
    ensures Placed(60.0 * u, High(c) - Low(c), Abs(c.g - c.b), Low(c)) == c
  {
  }

  lemma {:induction false} PlacedGreen(c: RGB, u: real, q: real)
    requires High(c) > Low(c) && High(c) == c.g && c.r < c.g && u == q + 2.0
    requires -1.0 <= q <= 1.0 && (q < 0.0 <==> c.b < c.r) && (q == 1.0 <==> c.b - c.r == High(c) - Low(c))
             && (q == -1.0 <==> c.r - c.b == High(c) - Low(c))
    ensures Placed(60.0 * u, High(c) - Low(c), Abs(c.b - c.r), Low(c)) == c
  {
  }

  lemma {:induction false} PlacedBlue(c: RGB, u: real, q: real)
    requires High(c) > Low(c) && High(c) == c.b && c.r < c.b && c.g < c.b && u == q + 4.0
    requires -1.0 <= q <= 1.0 && (q < 0.0 <==> c.r < c.g) && (q == 1.0 <==> c.r - c.g == High(c) - Low(c))
             && (q == -1.0 <==> c.g - c.r == High(c) - Low(c))
    ensures Placed(60.0 * u, High(c) - Low(c), Abs(c.r - c.g), Low(c)) == c
  {
  }

  lemma {:induction false} RedHighest(c: RGB)
    requires InRange(c) && High(c) > Low(c) && High(c) == c.r
    ensures ToRGB(ToHSL(c)) == c
  {
    var d, t := High(c) - Low(c), c.g - c.b;
    var q := t / d;
    Scaled(t, d);
    LightnessLeavesRoom(c);
    DarkestIsLow(c);
    ModSmall(q, 6.0);
    var u := if q < 0.0 then q + 6.0 else q;
    TriangleAt(u, q, if q < 0.0 then 2 else 0);
    Unfolded(ToHSL(c), d, t, 60.0 * u, Lightness(c));
    PlacedRed(c, u, q);
  }

  lemma {:induction false} GreenHighest(c: RGB)
    requires InRange(c) && High(c) > Low(c) && High(c) == c.g && c.r < c.g
    ensures ToRGB(ToHSL(c)) == c
  {
    var d, t := High(c) - Low(c), c.b - c.r;
    var q := t / d;
    Scaled(t, d);
    LightnessLeavesRoom(c);
    DarkestIsLow(c);
    var u := q + 2.0;
    TriangleAt(u, q, if q < 0.0 then 0 else 1);
    Unfolded(ToHSL(c), d, t, 60.0 * u, Lightness(c));
    PlacedGreen(c, u, q);
  }

  lemma {:induction false} BlueHighest(c: RGB)
    requires InRange(c) && High(c) > Low(c) && High(c) == c.b && c.r < c.b && c.g < c.b
    ensures ToRGB(ToHSL(c)) == c
  {
    var d, t := High(c) - Low(c), c.r - c.g;
    var q := t / d;
    Scaled(t, d);
    LightnessLeavesRoom(c);
    DarkestIsLow(c);
    var u := q + 4.0;
    TriangleAt(u, q, if q < 0.0 then 1 else 2);
    Unfolded(ToHSL(c), d, t, 60.0 * u, Lightness(c));
    PlacedBlue(c, u, q);
  }

  /** A grey has no spread, so any hue does. */
  lemma {:induction false} Grey(c: RGB)
    requires InRange(c) && High(c) == Low(c)
    ensures ToRGB(ToHSL(c)) == c
  {
    LightnessLeavesRoom(c);
    NoSpread(ToHSL(c), Lightness(c));
    GreyPlaced(c);
  }

  lemma {:induction false} NoSpread(color: HSL, l: real)
    requires 0.0 <= l <= 1.0 && color.h == 0.0 && color.s == 0.0 && color.l == l
    ensures ToRGB(color) == Placed(color.h, color.s, color.s, l)
  {
    TurnedIs(color.h);
    NothingBetween(color.s, l, color.h);
    Assembled(color, color.h, color.s, l, color.s, color.s, l);
  }

  lemma {:induction false} NothingBetween(s: real, l: real, h: real)
    requires s == 0.0 && 0.0 <= l <= 1.0
    ensures Clamp(s) == s && Clamp(l) == l && Chroma(s, l) == s && Middle(s, h) == s && Darkest(s, l) == l
  {
  }

  lemma {:induction false} GreyPlaced(c: RGB)
    requires High(c) == Low(c)
    ensures Placed(0.0, 0.0, 0.0, Lightness(c)) == c
  {
  }

  /** Converting to hue, saturation and lightness and back gives every colour back, greys included. */
  lemma {:induction false} RoundTrip(c: RGB)
    requires InRange(c)
    ensures ToRGB(ToHSL(c)) == c
  {
    if High(c) == Low(c) {
      Grey(c);
    } else if High(c) == c.r {
      RedHighest(c);
    } else if High(c) == c.g {
      GreenHighest(c);
    } else {
      BlueHighest(c);
    }
  }

  // ---- what the three numbers mean -------------------------------------------------------------

  /** From brightest to darkest channel, the middle one being e sixtieths of the way up. */
  predicate Wedge(high: real, middle: real, low: real, e: real) {
    high >= middle >= low && 60.0 * (middle - low) == (high - low) * e
  }

  /** The colour's place on the circle: red at 0 degrees, green at 120, blue at 240, and linear in between. */
  predicate HasHue(c: RGB, h: real) {
    if h < 0.0 then false
    else if h < 60.0 then Wedge(c.r, c.g, c.b, h)
    else if h < 120.0 then Wedge(c.g, c.r, c.b, 120.0 - h)
    else if h < 180.0 then Wedge(c.g, c.b, c.r, h - 120.0)
    else if h < 240.0 then Wedge(c.b, c.g, c.r, 240.0 - h)
    else if h < 300.0 then Wedge(c.b, c.r, c.g, h - 240.0)
    else h < 360.0 && Wedge(c.r, c.b, c.g, 360.0 - h)
  }

  /** How far apart two channels can be whose middle is l. */
  function Room(l: real): real { if l < 0.5 then 2.0 * l else 2.0 - 2.0 * l }

  /** The brightest and darkest channel are evenly about l, and s says how much of the room there is they take. */
  predicate HasTone(c: RGB, s: real, l: real) {
    var high := if c.r >= c.g && c.r >= c.b then c.r else if c.g >= c.b then c.g else c.b;
    var low := if c.r <= c.g && c.r <= c.b then c.r else if c.g <= c.b then c.g else c.b;
    high + low == 2.0 * l && high - low == s * Room(l)
  }

  /** A hue outside of the circle stands for the one some whole turns away. */
  lemma {:induction false} TurnedBack(h: real, turns: int)
    requires 0.0 <= h - 360.0 * turns as real < 360.0
    ensures Turned(h) == h - 360.0 * turns as real
  {
    var r := h - 360.0 * turns as real;
    if h >= 0.0 {
      assert (h / 360.0).Floor == turns;
      assert ((r + 360.0) / 360.0).Floor == 1;
    } else if r == 0.0 {
      assert (-h / 360.0).Floor == -turns;
      assert Mod(h, 360.0) == 0.0;
      assert (360.0 / 360.0).Floor == 1;
    } else {
      assert (-h / 360.0).Floor == -turns - 1;
      ModSmall(r, 360.0);
    }
  }

  lemma {:induction false} TriangleIs(h: real)
    requires 0.0 <= h < 360.0
    ensures 60.0 * Triangle(h) ==
            if h < 60.0 then h else if h < 120.0 then 120.0 - h else if h < 180.0 then h - 120.0
            else if h < 240.0 then 240.0 - h else if h < 300.0 then h - 240.0 else 360.0 - h
  {
    var u := h / 60.0;
    ModTwo(u, if h < 120.0 then 0 else if h < 240.0 then 1 else 2);
  }

  /** A part of d, in sixtieths. */
  lemma {:induction false} Sixtieths(d: real, t: real)
    requires d >= 0.0 && 0.0 <= t <= 1.0
    ensures 60.0 * (d * t) == d * (60.0 * t) && 0.0 <= d * t <= d
  {
    if d > 0.0 {
      ScaleKeepsOrder(t, 1.0, d);
      ScaleKeepsOrder(0.0, t, d);
    }
  }

  lemma {:induction false} PlacedHue(h: real, c: real, x: real, m: real, t: real)
    requires 0.0 <= h < 360.0 && 0.0 <= x <= c && 60.0 * x == c * t
    requires t == if h < 60.0 then h else if h < 120.0 then 120.0 - h else if h < 180.0 then h - 120.0
                  else if h < 240.0 then 240.0 - h else if h < 300.0 then h - 240.0 else 360.0 - h
    ensures HasHue(Placed(h, c, x, m), h)
  {
  }

  lemma {:induction false} ChromaIsPart(s: real, l: real)
    requires Unit(s) && Unit(l)
    ensures Chroma(s, l) == s * Room(l) && 0.0 <= Chroma(s, l) <= Room(l)
  {
    PartOf(s, 1.0 - Abs(2.0 * l - 1.0));
  }

  lemma {:induction false} ChromaInRoom(s: real, l: real)
    requires Unit(s) && Unit(l)
    ensures 0.0 <= Chroma(s, l) && Unit(Darkest(Chroma(s, l), l)) && Unit(Chroma(s, l) + Darkest(Chroma(s, l), l))
    ensures Chroma(s, l) == s * Room(l)
  {
    ChromaIsPart(s, l);
    hide Chroma;
    AroundL(Chroma(s, l), l);
  }

  lemma {:induction false} AroundL(c: real, l: real)
    requires 0.0 <= c <= Room(l) && Unit(l)
    ensures Unit(Darkest(c, l)) && Unit(c + Darkest(c, l))
  {
  }

  lemma {:induction false} PartOf(s: real, whole: real)
    requires Unit(s) && whole >= 0.0
    ensures 0.0 <= whole * s <= whole && whole * s == s * whole
  {
    if whole > 0.0 {
      ScaleKeepsOrder(s, 1.0, whole);
      ScaleKeepsOrder(0.0, s, whole);
    }
  }

  lemma {:induction false} ToneFromEnds(c: RGB, spread: real, s: real, l: real)
    requires High(c) == spread + (l - spread / 2.0) && Low(c) == l - spread / 2.0
    requires spread == s * Room(l)
    ensures HasTone(c, s, l)
  {
  }

  lemma {:induction false} MiddleOnItsWay(h: real, c: real)
    requires 0.0 <= h < 360.0 && 0.0 <= c
    ensures 60.0 * Middle(c, h) == c * (60.0 * Triangle(h)) && 0.0 <= Middle(c, h) <= c
  {
    TriangleIs(h);
    hide Triangle;
    var t := Triangle(h);
    assert 0.0 <= t <= 1.0;
    Sixtieths(c, t);
    assert Middle(c, h) == c * t;
    hide Middle;
  }

  /** A colour made has the hue, saturation and lightness asked for, each brought into its range. */
  lemma {:induction false} MadeAsAsked(color: HSL, turns: int)
    requires 0.0 <= color.h - 360.0 * turns as real < 360.0
    ensures var c := ToRGB(color);
            && InRange(c) && HasHue(c, color.h - 360.0 * turns as real)
            && HasTone(c, if color.s < 0.0 then 0.0 else if color.s > 1.0 then 1.0 else color.s,
                       if color.l < 0.0 then 0.0 else if color.l > 1.0 then 1.0 else color.l)
  {
    var h := color.h - 360.0 * turns as real;
    var s := if color.s < 0.0 then 0.0 else if color.s > 1.0 then 1.0 else color.s;
    var l := if color.l < 0.0 then 0.0 else if color.l > 1.0 then 1.0 else color.l;
    MadeFrom(color, turns, h, s, l);
    hide *;
    MadeHue(h, Chroma(s, l), Darkest(Chroma(s, l), l), s, l);
    MadeTone(h, Chroma(s, l), s, l);
  }

  lemma {:induction false} MadeHue(h: real, c: real, m: real, s: real, l: real)
    requires 0.0 <= h < 360.0 && Unit(s) && Unit(l) && c == Chroma(s, l) && m == Darkest(c, l)
    ensures HasHue(Placed(h, c, Middle(c, h), m), h) && InRange(Placed(h, c, Middle(c, h), m))
  {
    hide *;
    ChromaInRoom(s, l);
    MiddleOnItsWay(h, c);
    TriangleIs(h);
    PlacedHue(h, c, Middle(c, h), m, 60.0 * Triangle(h));
    PlacedInRange(h, c, Middle(c, h), m);
  }

  lemma {:induction false} MadeTone(h: real, c: real, s: real, l: real)
    requires 0.0 <= h < 360.0 && Unit(s) && Unit(l) && c == Chroma(s, l)
    ensures HasTone(Placed(h, c, Middle(c, h), Darkest(c, l)), s, l)
  {
    hide *;
    ChromaInRoom(s, l);
    MiddleOnItsWay(h, c);
    PlacedEnds(h, c, Middle(c, h), Darkest(c, l));
    PlacedTone(Placed(h, c, Middle(c, h), Darkest(c, l)), c, s, l);
  }

  lemma {:induction false} PlacedEnds(h: real, c: real, x: real, m: real)
    requires 0.0 <= x <= c
    ensures High(Placed(h, c, x, m)) == c + m && Low(Placed(h, c, x, m)) == m
  {
  }

  lemma {:induction false} MadeFrom(color: HSL, turns: int, h: real, s: real, l: real)
    requires 0.0 <= h < 360.0 && h == color.h - 360.0 * turns as real
    requires s == if color.s < 0.0 then 0.0 else if color.s > 1.0 then 1.0 else color.s
    requires l == if color.l < 0.0 then 0.0 else if color.l > 1.0 then 1.0 else color.l
    ensures Unit(s) && Unit(l)
    ensures ToRGB(color) == Placed(h, Chroma(s, l), Middle(Chroma(s, l), h), Darkest(Chroma(s, l), l))
  {
    TurnedBack(color.h, turns);
    hide Turned, Chroma, Placed, Middle;
  }

  lemma {:induction false} PlacedTone(c: RGB, spread: real, s: real, l: real)
    requires High(c) == spread + Darkest(spread, l) && Low(c) == Darkest(spread, l) && spread == s * Room(l)
    ensures HasTone(c, s, l)
  {
    hide Room;
    ToneFromEnds(c, spread, s, l);
  }

  lemma {:induction false} PlacedInRange(h: real, c: real, x: real, m: real)
    requires 0.0 <= x <= c && Unit(m) && Unit(c + m)
    ensures InRange(Placed(h, c, x, m))
  {
  }

  lemma {:induction false} RoomTaken(d: real, l: real)
    requires 0.0 < d <= 1.0 - Abs(2.0 * l - 1.0)
    ensures d == Saturation(d, l) * Room(l) && Unit(Saturation(d, l))
  {
    hide Saturation, Chroma;
    SpreadComesBack(d, l);
    ChromaInRoom(Saturation(d, l), l);
  }

  lemma {:induction false} ReadSaturation(c: RGB)
    requires InRange(c) && High(c) > Low(c)
    ensures Abs(2.0 * Lightness(c) - 1.0) < 1.0 && ToHSL(c).s == Saturation(High(c) - Low(c), Lightness(c))
    ensures ToHSL(c).l == Lightness(c)
  {
    LightnessLeavesRoom(c);
    hide Saturation, Sixth, Degrees;
  }

  lemma {:induction false} ReadEnds(c: RGB, d: real, s: real, l: real)
    requires d == High(c) - Low(c) && l == Lightness(c) && d == s * Room(l)
    ensures HasTone(c, s, l)
  {
    hide Room;
    ToneFromEnds(c, d, s, l);
  }

  lemma {:induction false} GreyTone(c: RGB)
    requires InRange(c) && High(c) == Low(c)
    ensures HasTone(c, ToHSL(c).s, ToHSL(c).l) && Unit(ToHSL(c).s) && Unit(ToHSL(c).l)
  {
    hide Saturation, Sixth, Degrees, HasTone;
    ReadEnds(c, 0.0, 0.0, Lightness(c));
  }

  lemma {:induction false} ColouredTone(c: RGB)
    requires InRange(c) && High(c) > Low(c)
    ensures HasTone(c, ToHSL(c).s, ToHSL(c).l) && Unit(ToHSL(c).s) && Unit(ToHSL(c).l)
  {
    hide *;
    ReadSaturation(c);
    LightnessLeavesRoom(c);
    LightnessIsUnit(c);
    RoomTaken(High(c) - Low(c), Lightness(c));
    ReadEnds(c, High(c) - Low(c), ToHSL(c).s, Lightness(c));
  }

  lemma {:induction false} LightnessIsUnit(c: RGB)
    requires InRange(c)
    ensures Unit(Lightness(c)) && High(c) >= Low(c)
  {
  }

  lemma {:induction false} ReadTone(c: RGB)
    requires InRange(c)
    ensures HasTone(c, ToHSL(c).s, ToHSL(c).l) && Unit(ToHSL(c).s) && Unit(ToHSL(c).l)
  {
    LightnessIsUnit(c);
    hide *;
    if High(c) == Low(c) {
      GreyTone(c);
    } else {
      ColouredTone(c);
    }
  }

  lemma {:induction false} ReadHue(c: RGB)
    requires InRange(c)
    ensures HasHue(c, ToHSL(c).h)
  {
    if High(c) > Low(c) {
      var d := High(c) - Low(c);
      var t := if High(c) == c.r then c.g - c.b else if High(c) == c.g then c.b - c.r else c.r - c.g;
      var q := t / d;
      SixthIs(c, d, t, q);
      WithinOne(c, d, t, q);
      hide *;
      HueFromSixth(c, d, t, q);
    }
  }

  lemma {:induction false} SixtyTimes(t: real, d: real, q: real)
    requires d * q == t
    ensures d * (60.0 * q) == 60.0 * t && d * (-60.0 * q) == -60.0 * t
  {
  }

  lemma {:induction false} WithinOne(c: RGB, d: real, t: real, q: real)
    requires d == High(c) - Low(c) > 0.0 && q == t / d && -d <= t <= d
    ensures d * (60.0 * q) == 60.0 * t && d * (-60.0 * q) == -60.0 * t && -1.0 <= q <= 1.0
    ensures (q < 0.0 <==> t < 0.0) && (q == 1.0 <==> t == d) && (q == -1.0 <==> t == -d)
  {
    hide *;
    Scaled(t, d);
    SixtyTimes(t, d, q);
  }

  lemma {:induction false} SixthIs(c: RGB, d: real, t: real, q: real)
    requires InRange(c) && d == High(c) - Low(c) > 0.0 && q == t / d
    requires t == if High(c) == c.r then c.g - c.b else if High(c) == c.g then c.b - c.r else c.r - c.g
    ensures ToHSL(c).h == Degrees(if High(c) == c.r then q else if High(c) == c.g then q + 2.0 else q + 4.0)
  {
    LightnessLeavesRoom(c);
    Scaled(t, d);
    hide Saturation, Degrees;
    ModSmall(q, 6.0);
  }

  lemma {:induction false} HueFromSixth(c: RGB, d: real, t: real, q: real)
    requires d == High(c) - Low(c) > 0.0
    requires t == if High(c) == c.r then c.g - c.b else if High(c) == c.g then c.b - c.r else c.r - c.g
    requires d * (60.0 * q) == 60.0 * t && d * (-60.0 * q) == -60.0 * t && -1.0 <= q <= 1.0
    requires (q < 0.0 <==> t < 0.0) && (q == 1.0 <==> t == d) && (q == -1.0 <==> t == -d)
    ensures var sixth := if High(c) == c.r then q else if High(c) == c.g then q + 2.0 else q + 4.0;
            HasHue(c, Degrees(sixth))
  {
  }

  /** What is read of a colour: its hue, saturation and lightness, with 0 degrees for a grey. */
  lemma {:induction false} ReadAsItIs(c: RGB)
    requires InRange(c)
    ensures var color := ToHSL(c);
            && HasHue(c, color.h) && HasTone(c, color.s, color.l) && Unit(color.s) && Unit(color.l)
            && (c.r == c.g == c.b ==> color.h == 0.0 && color.s == 0.0)
  {
    ReadHue(c);
    ReadTone(c);
  }

  lemma {:induction false} ToneEnds(c: RGB, s: real, l: real)
    requires HasTone(c, s, l)
    ensures High(c) - Low(c) == s * Room(l) && High(c) + Low(c) == 2.0 * l
  {
    hide Room;
  }

  lemma {:induction false} OneTone(c: RGB, s: real, l: real, s': real, l': real)
    requires HasTone(c, s, l) && HasTone(c, s', l') && 0.0 < l < 1.0
    ensures s == s' && l == l'
  {
    ToneEnds(c, s, l);
    ToneEnds(c, s', l');
    SameSpread(High(c) - Low(c), s, s', l);
  }

  lemma {:induction false} SameSpread(d: real, s: real, s': real, l: real)
    requires d == s * Room(l) && d == s' * Room(l) && 0.0 < l < 1.0
    ensures s == s'
  {
    assert Room(l) > 0.0;
    hide Room;
    Cancel(s, s', Room(l));
  }

  lemma {:induction false} Cancel(a: real, b: real, k: real)
    requires k > 0.0 && (a * k == b * k || k * a == k * b)
    ensures a == b
  {
    ScaleKeepsOrder(a, b, k);
    ScaleKeepsOrder(b, a, k);
  }

  lemma {:induction false} WedgeOnce(high: real, middle: real, low: real, e: real, e': real)
    requires Wedge(high, middle, low, e) && Wedge(high, middle, low, e') && high > low
    ensures e == e'
  {
    Cancel(e, e', high - low);
  }

  lemma {:induction false} WedgeEdges(high: real, middle: real, low: real, e: real)
    requires Wedge(high, middle, low, e) && high > low
    ensures (e == 60.0 <==> middle == high) && (e == 0.0 <==> middle == low)
  {
    WedgeEdge(high - low, middle - low, e);
  }

  lemma {:induction false} WedgeEdge(d: real, t: real, e: real)
    requires d > 0.0 && 60.0 * t == d * e
    ensures (e == 60.0 <==> t == d) && (e == 0.0 <==> t == 0.0)
  {
    if t == d {
      Cancel(e, 60.0, d);
    }
  }

  /** Each sixth of the circle has its own order of the channels. */
  lemma {:induction false} OrderOfHue(c: RGB, h: real)
    requires HasHue(c, h) && !(c.r == c.g == c.b)
    ensures 0.0 <= h < 360.0
    ensures if h < 60.0 then c.r > c.g >= c.b
            else if h < 120.0 then c.g >= c.r > c.b
            else if h < 180.0 then c.g > c.b >= c.r
            else if h < 240.0 then c.b >= c.g > c.r
            else if h < 300.0 then c.b > c.r >= c.g
            else c.r >= c.b > c.g
  {
    Ordered(c, h);
    hide Wedge;
    if h < 60.0 {
      WedgeEdges(c.r, c.g, c.b, h);
    } else if h < 120.0 {
      WedgeEdges(c.g, c.r, c.b, 120.0 - h);
    } else if h < 180.0 {
      WedgeEdges(c.g, c.b, c.r, h - 120.0);
    } else if h < 240.0 {
      WedgeEdges(c.b, c.g, c.r, 240.0 - h);
    } else if h < 300.0 {
      WedgeEdges(c.b, c.r, c.g, h - 240.0);
    } else {
      WedgeEdges(c.r, c.b, c.g, 360.0 - h);
    }
  }

  lemma {:induction false} Ordered(c: RGB, h: real)
    requires HasHue(c, h)
    ensures if h < 60.0 then c.r >= c.g >= c.b
            else if h < 120.0 then c.g >= c.r >= c.b
            else if h < 180.0 then c.g >= c.b >= c.r
            else if h < 240.0 then c.b >= c.g >= c.r
            else if h < 300.0 then c.b >= c.r >= c.g
            else c.r >= c.b >= c.g
  {
  }

  /** A colour that is no grey is at one place on the circle only. */
  lemma {:induction false} OneHue(c: RGB, h: real, h': real)
    requires HasHue(c, h) && HasHue(c, h') && !(c.r == c.g == c.b)
    ensures h == h'
  {
    OrderOfHue(c, h);
    OrderOfHue(c, h');
    hide Wedge;
    if h < 60.0 {
      WedgeOnce(c.r, c.g, c.b, h, h');
    } else if h < 120.0 {
      WedgeOnce(c.g, c.r, c.b, 120.0 - h, 120.0 - h');
    } else if h < 180.0 {
      WedgeOnce(c.g, c.b, c.r, h - 120.0, h' - 120.0);
    } else if h < 240.0 {
      WedgeOnce(c.b, c.g, c.r, 240.0 - h, 240.0 - h');
    } else if h < 300.0 {
      WedgeOnce(c.b, c.r, c.g, h - 240.0, h' - 240.0);
    } else {
      WedgeOnce(c.r, c.b, c.g, 360.0 - h, 360.0 - h');
    }
  }

  /** The other way round: a colour that is no grey gives back the three numbers it was made from. */
  lemma {:induction false} NumbersComeBack(color: HSL)
    requires 0.0 <= color.h < 360.0 && 0.0 < color.s <= 1.0 && 0.0 < color.l < 1.0
    ensures InRange(ToRGB(color)) && ToHSL(ToRGB(color)) == color
  {
    var c := ToRGB(color);
    MadeAsAsked(color, 0);
    ReadAsItIs(c);
    hide ToHSL, ToRGB;
    OneTone(c, color.s, color.l, ToHSL(c).s, ToHSL(c).l);
    OneHue(c, color.h, ToHSL(c).h);
  }

  // ---- bytes -----------------------------------------------------------------------------------

  type Byte = b: int | 0 <= b < 256

  datatype Bytes = Bytes(r: Byte, g: Byte, b: Byte)

  function FromBytes(c: Bytes): RGB {
    RGB(c.r as real / 255.0, c.g as real / 255.0, c.b as real / 255.0)
  }

  /** A channel as a byte: scaled, and rounded half away from zero. */
  function Rounded(v: real): int {
    if v >= 0.0 then (v * 255.0 + 0.5).Floor else -(-v * 255.0 + 0.5).Floor
  }

  /** The nearest byte, halves away from zero; a channel in range gives a byte. */
  lemma {:induction false} RoundedIsNearest(v: real)
    ensures v >= 0.0 ==> 255.0 * v - 0.5 < Rounded(v) as real <= 255.0 * v + 0.5
    ensures v < 0.0 ==> 255.0 * v - 0.5 <= Rounded(v) as real < 255.0 * v + 0.5
    ensures Unit(v) ==> 0 <= Rounded(v) <= 255
  {
  }

  /** So every colour the picker can hold survives the trip, rounding and all. */
  lemma {:induction false} BytesRoundTrip(c: Bytes)
    ensures var back := ToRGB(ToHSL(FromBytes(c)));
            Rounded(back.r) == c.r && Rounded(back.g) == c.g && Rounded(back.b) == c.b
  {
    RoundTrip(FromBytes(c));
  }
}
