/** Where a colour slider's thumb sits for a value, and the value a click on its bar means. */
module AccentSlider {
  function ClampInt(v: int, lo: int, hi: int): int {
    if v < lo then lo else if v > hi then hi else v
  }

  /** Conversion to an integer drops the fraction. */
  function Truncated(x: real): int { if x >= 0.0 then x.Floor else -(-x).Floor }

  /** The share k / n of a whole. */
  function Portion(k: int, n: int, whole: int): real
    requires n != 0
  {
    k as real / n as real * whole as real
  }

  /** As the nearest integer, halves up. */
  function Nearest(k: int, n: int, whole: int): int
    requires n != 0
  {
    Truncated(Portion(k, n, whole) + 0.5)
  }

  function ValueAt(col: int, barW: int, max: int): int {
    if barW <= 1 then 0
    else ClampInt(Nearest(ClampInt(col, 0, barW - 1), barW - 1, max), 0, max)
  }

  function Col(v: int, barW: int, max: int): int {
    if barW <= 1 || max <= 0 then 0
    else ClampInt(Nearest(ClampInt(v, 0, max), max, barW - 1), 0, barW - 1)
  }

  lemma {:induction false} IntTimes(a: int, b: int)
    ensures a as real * b as real == (a * b) as real
  {
  }

  lemma {:induction false} ScaleKeepsOrder(a: real, b: real, x: real)
    requires x > 0.0
    ensures a <= b <==> a * x <= b * x
    ensures a < b <==> a * x < b * x
  {
    var gap := b - a;
    assert gap * x == b * x - a * x;
    if gap < 0.0 {
      assert -gap * x > 0.0;
    }
  }

  lemma {:induction false} Share(k: int, n: int, whole: int)
    requires 0 <= k <= n && 0 < n && 0 <= whole
    ensures Portion(k, n, whole) * n as real == (k * whole) as real && 0.0 <= Portion(k, n, whole) <= whole as real
  {
    var q := k as real / n as real;
    assert q * n as real == k as real;
    ScaleKeepsOrder(0.0, q, n as real);
    ScaleKeepsOrder(q, 1.0, n as real);
    Reordered(q, whole as real, n as real);
    IntTimes(k, whole);
    if whole > 0 {
      ScaleKeepsOrder(q, 1.0, whole as real);
      ScaleKeepsOrder(0.0, q, whole as real);
    }
  }

  lemma {:induction false} Reordered(q: real, whole: real, n: real)
    ensures q * whole * n == q * n * whole
  {
  }

  lemma {:induction false} HalfUp(v: real, x: real, y: real, p: real)
    requires x > 0.0 && y * x == p
    ensures v <= y + 0.5 <==> v * x <= p + x / 2.0
  {
    ScaleKeepsOrder(v, y + 0.5, x);
    Distributed(y, 0.5, x);
  }

  lemma {:induction false} HalfDown(v: real, x: real, y: real, p: real)
    requires x > 0.0 && y * x == p
    ensures y < v + 0.5 <==> p < v * x + x / 2.0
  {
    ScaleKeepsOrder(y, v + 0.5, x);
    Distributed(v, 0.5, x);
  }

  lemma {:induction false} Distributed(a: real, b: real, x: real)
    ensures (a + b) * x == a * x + b * x
  {
  }

  lemma {:induction false} FloorIs(y: real, n: int, p: int, v: int)
    requires 0 < n && y * n as real == p as real
    ensures (y + 0.5).Floor == v <==> 2 * (v * n) <= 2 * p + n < 2 * (v * n) + 2 * n
  {
    IntTimes(v, n);
    HalfUp(v as real, n as real, y, p as real);
    HalfDown(v as real, n as real, y, p as real);
    assert (y + 0.5).Floor == v <==> v as real <= y + 0.5 < v as real + 1.0;
  }

  /** The nearest integer is the one within half a step, without division. */
  lemma {:induction false} NearestIs(k: int, n: int, whole: int, v: int)
    requires 0 <= k <= n && 0 < n && 0 <= whole
    ensures Nearest(k, n, whole) == v <==> 2 * (v * n) <= 2 * (k * whole) + n < 2 * (v * n) + 2 * n
    ensures 0 <= Nearest(k, n, whole) <= whole
  {
    Share(k, n, whole);
    RoundedInRange(Portion(k, n, whole), whole);
    FloorIs(Portion(k, n, whole), n, k * whole, v);
  }

  lemma {:induction false} RoundedInRange(y: real, whole: int)
    requires 0.0 <= y <= whole as real
    ensures 0 <= (y + 0.5).Floor <= whole && Truncated(y + 0.5) == (y + 0.5).Floor
  {
  }

  lemma {:induction false} NearestWithin(k: int, n: int, whole: int)
    requires 0 <= k <= n && 0 < n && 0 <= whole
    ensures var v := Nearest(k, n, whole);
            0 <= v <= whole && 2 * (k * whole) - n < 2 * (v * n) <= 2 * (k * whole) + n
  {
    NearestIs(k, n, whole, Nearest(k, n, whole));
  }

  lemma {:induction false} NearestEnds(n: int, whole: int)
    requires 0 < n && 0 <= whole
    ensures Nearest(0, n, whole) == 0 && Nearest(n, n, whole) == whole
  {
    NearestIs(0, n, whole, 0);
    NearestIs(n, n, whole, whole);
  }

  /** A click means the value nearest to where it is on the bar, halves up; one beside the bar means its end. */
  lemma {:induction false} ValueIsNearest(col: int, barW: int, max: int)
    requires 1 < barW && 0 <= max
    ensures var c, v := if col < 0 then 0 else if col < barW then col else barW - 1, ValueAt(col, barW, max);
            0 <= v <= max && 2 * (c * max) - (barW - 1) < 2 * (v * (barW - 1)) <= 2 * (c * max) + (barW - 1)
    ensures ValueAt(0, barW, max) == 0 && ValueAt(barW - 1, barW, max) == max
  {
    hide Nearest;
    NearestWithin(ClampInt(col, 0, barW - 1), barW - 1, max);
    NearestEnds(barW - 1, max);
  }

  /** The thumb is at the column nearest to its value, halves to the right. */
  lemma {:induction false} ColIsNearest(v: int, barW: int, max: int)
    requires 1 < barW && 0 < max
    ensures var w, col := if v < 0 then 0 else if v < max then v else max, Col(v, barW, max);
            0 <= col < barW && 2 * (w * (barW - 1)) - max < 2 * (col * max) <= 2 * (w * (barW - 1)) + max
    ensures Col(0, barW, max) == 0 && Col(max, barW, max) == barW - 1
  {
    hide Nearest;
    NearestWithin(ClampInt(v, 0, max), max, barW - 1);
    NearestEnds(max, barW - 1);
  }

  lemma {:induction false} Back(v: int, n: int, col: int, max: int)
    requires 0 < n <= max && 2 * (v * n) <= 2 * (col * max) + n < 2 * (v * n) + 2 * n
    ensures 2 * (col * max) <= 2 * (v * n) + max < 2 * (col * max) + 2 * max
  {
    if n == max {
      EqualScale(v, col, n);
    }
  }

  lemma {:induction false} EqualScale(v: int, col: int, n: int)
    requires 0 < n && 2 * (v * n) <= 2 * (col * n) + n < 2 * (v * n) + 2 * n
    ensures v == col
  {
    assert (v + 1) * n == v * n + n && (col + 1) * n == col * n + n;
    assert v < col ==> (v + 1) * n <= col * n;
    assert v > col ==> (col + 1) * n <= v * n;
  }

  /** Clicking a column and drawing the thumb for the value clicked gives the column back. */
  lemma {:induction false} ColumnComesBack(col: int, barW: int, max: int)
    requires 1 < barW <= max + 1 && 0 <= col < barW
    ensures Col(ValueAt(col, barW, max), barW, max) == col
  {
    var n := barW - 1;
    var v := Nearest(col, n, max);
    NearestIs(col, n, max, v);
    NearestIs(v, max, n, col);
    Back(v, n, col, max);
  }

  /** Columns that all come back have values of their own, each at least as high as the column. */
  lemma {:induction false} ValuesRise(col: nat, barW: int, max: int)
    requires 0 < max && col < barW
    requires forall c :: 0 <= c < barW ==> Col(ValueAt(c, barW, max), barW, max) == c
    ensures ValueAt(col, barW, max) >= col
  {
    if col == 0 {
      if barW > 1 {
        NearestIs(0, barW - 1, max, 0);
      }
    } else {
      ValuesRise(col - 1, barW, max);
      ValueAtMonotone(col - 1, col, barW, max);
      assert Col(ValueAt(col - 1, barW, max), barW, max) == col - 1;
    }
  }

  /** So every column of a bar comes back exactly when the bar has no more columns than there are values. */
  lemma {:induction false} ColumnsComeBack(barW: int, max: int)
    requires 1 < barW && 0 < max
    ensures (forall col :: 0 <= col < barW ==> Col(ValueAt(col, barW, max), barW, max) == col) <==> barW <= max + 1
  {
    if barW <= max + 1 {
      forall col | 0 <= col < barW
        ensures Col(ValueAt(col, barW, max), barW, max) == col
      {
        ColumnComesBack(col, barW, max);
      }
    } else if forall col :: 0 <= col < barW ==> Col(ValueAt(col, barW, max), barW, max) == col {
      ValuesRise(barW - 1, barW, max);
      assert false;
    }
  }

  lemma {:induction false} NearestMonotone(k: int, l: int, n: int, whole: int)
    requires 0 <= k <= l <= n && 0 < n && 0 <= whole
    ensures Nearest(k, n, whole) <= Nearest(l, n, whole)
  {
    var a, b := Nearest(k, n, whole), Nearest(l, n, whole);
    NearestIs(k, n, whole, a);
    NearestIs(l, n, whole, b);
    Ordered(k, l, whole);
    InOrder(a, b, n, k * whole, l * whole);
  }

  lemma {:induction false} InOrder(a: int, b: int, n: int, p: int, q: int)
    requires 0 < n && p <= q && 2 * (a * n) <= 2 * p + n && 2 * q + n < 2 * (b * n) + 2 * n
    ensures a <= b
  {
    assert (b + 1) * n == b * n + n;
    assert a > b ==> (b + 1) * n <= a * n;
  }

  lemma {:induction false} Ordered(k: int, l: int, whole: int)
    requires k <= l && 0 <= whole
    ensures k * whole <= l * whole
  {
  }

  lemma {:induction false} ValueAtMonotone(c: int, d: int, barW: int, max: int)
    requires c <= d && 0 <= max
    ensures ValueAt(c, barW, max) <= ValueAt(d, barW, max)
  {
    if barW > 1 {
      NearestMonotone(ClampInt(c, 0, barW - 1), ClampInt(d, 0, barW - 1), barW - 1, max);
    }
  }

  lemma {:induction false} ColMonotone(v: int, w: int, barW: int, max: int)
    requires v <= w
    ensures Col(v, barW, max) <= Col(w, barW, max)
  {
    if barW > 1 && max > 0 {
      NearestMonotone(ClampInt(v, 0, max), ClampInt(w, 0, max), max, barW - 1);
    }
  }
}
