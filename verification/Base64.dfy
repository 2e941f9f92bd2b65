/** The base 64 encoding of section 4 of RFC 4648, over bytes. */
module Base64 {
  import opened Common

  type Byte = b: int | 0 <= b < 256

  const PAD: Byte := 61

  /** The symbol for a 6-bit value: A-Z, a-z, 0-9, + and /. */
  function Symbol(v: int): Byte
    requires 0 <= v < 64
  {
    if v < 26 then 65 + v
    else if v < 52 then 97 + v - 26
    else if v < 62 then 48 + v - 52
    else if v == 62 then 43
    else 47
  }

  function Value(c: Byte): (v: Option<int>)
    ensures v.Some? ==> 0 <= v.value < 64
  {
    if 65 <= c <= 90 then Some(c - 65)
    else if 97 <= c <= 122 then Some(c - 97 + 26)
    else if 48 <= c <= 57 then Some(c - 48 + 52)
    else if c == 43 then Some(62)
    else if c == 47 then Some(63)
    else None
  }

  lemma {:induction false} SymbolValue(v: int)
    requires 0 <= v < 64
    ensures Value(Symbol(v)) == Some(v) && Symbol(v) != PAD
  {
  }

  // The four 6-bit values of three bytes, and the three bytes of four 6-bit values.
  function First(a: Byte): int { a / 4 }
  function Second(a: Byte, b: Byte): int { a % 4 * 16 + b / 16 }
  function Third(b: Byte, c: Byte): int { b % 16 * 4 + c / 64 }
  function Fourth(c: Byte): int { c % 64 }

  function Join(w: int, x: int): Byte
    requires 0 <= w < 64 && 0 <= x < 64
  {
    w * 4 + x / 16
  }

  function JoinMiddle(x: int, y: int): Byte
    requires 0 <= x < 64 && 0 <= y < 64
  {
    x % 16 * 16 + y / 4
  }

  function JoinLast(y: int, z: int): Byte
    requires 0 <= y < 64 && 0 <= z < 64
  {
    y % 4 * 64 + z
  }

  lemma {:induction false} Joined(a: Byte, b: Byte)
    ensures 0 <= First(a) < 64 && 0 <= Second(a, b) < 64 && Join(First(a), Second(a, b)) == a
    ensures Second(a, b) % 16 == b / 16
  {
  }

  lemma {:induction false} JoinedMiddle(a: Byte, b: Byte, c: Byte)
    ensures 0 <= Second(a, b) < 64 && 0 <= Third(b, c) < 64 && JoinMiddle(Second(a, b), Third(b, c)) == b
  {
    Joined(a, b);
  }

  lemma {:induction false} JoinedLast(b: Byte, c: Byte)
    ensures 0 <= Third(b, c) < 64 && 0 <= Fourth(c) < 64 && JoinLast(Third(b, c), Fourth(c)) == c
  {
  }

  function Encode(data: seq<Byte>): (s: seq<Byte>)
    ensures |s| == (|data| + 2) / 3 * 4
  {
    if data == [] then []
    else if |data| == 1 then
      One(data[0])
    else if |data| == 2 then
      Two(data[0], data[1])
    else
      Quad(data[0], data[1], data[2]) + Encode(data[3..])
  }

  function Quad(a: Byte, b: Byte, c: Byte): (s: seq<Byte>)
    ensures |s| == 4
  {
    [Symbol(First(a)), Symbol(Second(a, b)), Symbol(Third(b, c)), Symbol(Fourth(c))]
  }

  function Two(a: Byte, b: Byte): (s: seq<Byte>)
    ensures |s| == 4
  {
    [Symbol(First(a)), Symbol(Second(a, b)), Symbol(Third(b, 0)), PAD]
  }

  function One(a: Byte): (s: seq<Byte>)
    ensures |s| == 4
  {
    [Symbol(First(a)), Symbol(Second(a, 0)), PAD, PAD]
  }

  const UPPER := "ABCDEFGHIJKLMNOPQRSTUVWXYZ"
  const LOWER := "abcdefghijklmnopqrstuvwxyz"
  const OTHERS := "0123456789+/"

  /** The symbol of a 6-bit value by table 1 of the RFC. */
  predicate Means(c: Byte, v: int) {
    if 0 <= v < 26 then c == UPPER[v] as int
    else if 26 <= v < 52 then c == LOWER[v - 26] as int
    else 52 <= v < 64 && c == OTHERS[v - 52] as int
  }

  lemma {:induction false} SymbolMeans(v: int)
    requires 0 <= v < 64
    ensures Means(Symbol(v), v)
  {
    if v < 26 {
      assert UPPER[v] as int == 65 + v;
    } else if v < 52 {
      assert LOWER[v - 26] as int == 97 + v - 26;
    } else {
      assert v - 52 in [0, 1, 2, 3, 4, 5, 6, 7, 8, 9, 10, 11];
    }
  }

  /**
    The first bytes of the data, read as one number, are the first symbols read as one; padding stands
    for symbols that would say nothing. The rest is encoded by itself.
   */
  lemma {:induction false} LeadingGroup(data: seq<Byte>) returns (w: int, x: int, y: int, z: int)
    requires data != []
    ensures Encode(data)[4..] == if |data| > 3 then Encode(data[3..]) else []
    ensures Means(Encode(data)[0], w) && Means(Encode(data)[1], x)
    ensures if |data| == 1 then Encode(data)[2] == '=' as int else Means(Encode(data)[2], y)
    ensures if |data| <= 2 then Encode(data)[3] == '=' as int else Means(Encode(data)[3], z)
    ensures if |data| == 1 then 64 * w + x == 16 * data[0] as int
            else if |data| == 2 then 64 * (64 * w + x) + y == 4 * (256 * data[0] as int + data[1] as int)
            else 4096 * (64 * w + x) + 64 * y + z == 256 * (256 * data[0] as int + data[1] as int) + data[2] as int
  {
    var a := data[0];
    var b, c := if |data| > 1 then data[1] else 0, if |data| > 2 then data[2] else 0;
    w, x, y, z := First(a), Second(a, b), Third(b, c), Fourth(c);
    SymbolMeans(w);
    SymbolMeans(x);
    SymbolMeans(y);
    SymbolMeans(z);
    hide Means, Symbol;
  }

  /** One group of four symbols; padding may only end the text. */
  function DecodeQuad(s: seq<Byte>, last: bool): Option<seq<Byte>> {
    if |s| != 4 then None
    else
      match (Value(s[0]), Value(s[1]), Value(s[2]), Value(s[3]))
      case (Some(a), Some(b), Some(c), Some(d)) => Some([Join(a, b), JoinMiddle(b, c), JoinLast(c, d)])
      case (Some(a), Some(b), Some(c), None) =>
        if last && s[3] == PAD then Some([Join(a, b), JoinMiddle(b, c)]) else None
      case (Some(a), Some(b), None, None) =>
        if last && s[2] == PAD && s[3] == PAD then Some([Join(a, b)]) else None
      case _ => None
  }

  type QuadDecoder = (seq<Byte>, bool) -> Option<seq<Byte>>

  /** Group by group, whatever a group is taken to say. */
  function DecodeWith(quad: QuadDecoder, s: seq<Byte>): Option<seq<Byte>> {
    if s == [] then Some([])
    else if |s| < 4 then None
    else
      match (quad(s[..4], |s| == 4), DecodeWith(quad, s[4..]))
      case (Some(a), Some(b)) => Some(a + b)
      case _ => None
  }

  function Decode(s: seq<Byte>): Option<seq<Byte>> {
    DecodeWith(DecodeQuad, s)
  }

  lemma {:induction false} QuadRoundTrip(a: Byte, b: Byte, c: Byte, last: bool)
    ensures DecodeQuad(Quad(a, b, c), last) == Some([a, b, c])
    ensures DecodeQuad(Two(a, b), true) == Some([a, b])
    ensures DecodeQuad(One(a), true) == Some([a])
  {
    Joined(a, b);
    Joined(a, 0);
    JoinedMiddle(a, b, c);
    JoinedMiddle(a, b, 0);
    JoinedLast(b, c);
    SymbolValue(First(a));
    SymbolValue(Second(a, b));
    SymbolValue(Second(a, 0));
    SymbolValue(Third(b, c));
    SymbolValue(Third(b, 0));
    SymbolValue(Fourth(c));
  }

  lemma {:induction false} DecodeOneQuad(quad: QuadDecoder, q: seq<Byte>, rest: seq<Byte>, a: seq<Byte>, b: seq<Byte>)
    requires |q| == 4 && quad(q, rest == []) == Some(a) && DecodeWith(quad, rest) == Some(b)
    ensures DecodeWith(quad, q + rest) == Some(a + b)
  {
    assert (q + rest)[..4] == q && (q + rest)[4..] == rest;
  }

  lemma {:induction false} DecodeLastQuad(quad: QuadDecoder, q: seq<Byte>, a: seq<Byte>)
    requires |q| == 4 && quad(q, true) == Some(a)
    ensures DecodeWith(quad, q) == Some(a)
  {
    DecodeOneQuad(quad, q, [], a, []);
    assert q + [] == q && a + [] == a;
  }

  lemma {:induction false} OneRoundTrip(a: Byte)
    ensures Decode(Encode([a])) == Some([a])
  {
    QuadRoundTrip(a, 0, 0, true);
    DecodeLastQuad(DecodeQuad, One(a), [a]);
  }

  lemma {:induction false} TwoRoundTrip(a: Byte, b: Byte)
    ensures Decode(Encode([a, b])) == Some([a, b])
  {
    QuadRoundTrip(a, b, 0, true);
    DecodeLastQuad(DecodeQuad, Two(a, b), [a, b]);
  }

  lemma {:induction false} LongRoundTrip(a: Byte, b: Byte, c: Byte, rest: seq<Byte>)
    requires Decode(Encode(rest)) == Some(rest)
    ensures Decode(Quad(a, b, c) + Encode(rest)) == Some([a, b, c] + rest)
  {
    QuadRoundTrip(a, b, c, Encode(rest) == []);
    DecodeOneQuad(DecodeQuad, Quad(a, b, c), Encode(rest), [a, b, c], rest);
  }

  /** Decoding gives back what was encoded, for every byte sequence. */
  lemma {:induction false} RoundTrip(data: seq<Byte>)
    ensures Decode(Encode(data)) == Some(data)
  {
    if |data| > 2 {
      RoundTrip(data[3..]);
      LongRoundTrip(data[0], data[1], data[2], data[3..]);
      assert data == [data[0], data[1], data[2]] + data[3..];
    } else if |data| == 2 {
      assert data == [data[0], data[1]];
      TwoRoundTrip(data[0], data[1]);
    } else if |data| == 1 {
      assert data == [data[0]];
      OneRoundTrip(data[0]);
    }
  }

  /** What decoding a longer text says about its first group and the rest. */
  lemma {:induction false} DecodeFirst(quad: QuadDecoder, q: seq<Byte>, rest: seq<Byte>)
    requires |q| == 4 && DecodeWith(quad, q + rest).Some?
    ensures quad(q, rest == []).Some? && DecodeWith(quad, rest).Some?
    ensures DecodeWith(quad, q + rest).value == quad(q, rest == []).value + DecodeWith(quad, rest).value
  {
    assert (q + rest)[..4] == q && (q + rest)[4..] == rest;
  }

  /** Any text can be decoded in pieces when the pieces before the last are whole groups without padding. */
  lemma {:induction false} DecodeWithInPieces(quad: QuadDecoder, a: seq<Byte>, b: seq<Byte>)
    requires forall q :: quad(q, false).Some? ==> quad(q, true) == quad(q, false)
    requires |a| % 4 == 0 && b != [] && DecodeWith(quad, a + b).Some?
    ensures DecodeWith(quad, a).Some? && DecodeWith(quad, b).Some?
    ensures DecodeWith(quad, a + b).value == DecodeWith(quad, a).value + DecodeWith(quad, b).value
  {
    if a == [] {
      assert a + b == b;
    } else {
      var q, rest := a[..4], a[4..];
      assert a + b == q + (rest + b) && a == q + rest && rest + b != [];
      DecodeFirst(quad, q, rest + b);
      DecodeWithInPieces(quad, rest, b);
      var x, y, z := quad(q, false).value, DecodeWith(quad, rest).value, DecodeWith(quad, b).value;
      DecodeOneQuad(quad, q, rest, x, y);
      assert x + (y + z) == x + y + z;
    }
  }

  lemma {:induction false} PaddingIsOptional(q: seq<Byte>)
    requires DecodeQuad(q, false).Some?
    ensures DecodeQuad(q, true) == DecodeQuad(q, false)
  {
  }

  lemma {:induction false} DecodeInPieces(a: seq<Byte>, b: seq<Byte>)
    requires |a| % 4 == 0 && b != [] && Decode(a + b).Some?
    ensures Decode(a).Some? && Decode(b).Some? && Decode(a + b).value == Decode(a).value + Decode(b).value
  {
    forall q | DecodeQuad(q, false).Some?
      ensures DecodeQuad(q, true) == DecodeQuad(q, false)
    {
      PaddingIsOptional(q);
    }
    DecodeWithInPieces(DecodeQuad, a, b);
  }
}
