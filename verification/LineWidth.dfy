/**
  The width of a rendered line. Most lines are ASCII with colour escapes, whose width a byte loop can
  tell; anything else goes to the reference implementation, whose own answer is then the answer.
 */
module LineWidth {
  import opened Common

  type Byte = b: int | 0 <= b < 256
  type Line = seq<Byte>

  // ---- control sequences, as section 5.4 of ECMA-48 defines them -------------------------------

  const ESC: Byte := 0x1b
  const BRACKET: Byte := 0x5b

  predicate Parameter(c: Byte) { 0x30 <= c <= 0x3f }
  predicate Intermediate(c: Byte) { 0x20 <= c <= 0x2f }
  predicate Final(c: Byte) { 0x40 <= c <= 0x7e }

  datatype Mode = Ground | Escape | Parameters | Intermediates

  /**
    A parser for ASCII text with control sequences: how many columns the rest of a line takes, or
    nothing if it is not such a text. Without `full`, sequences with intermediate bytes are not
    taken either.
   */
  function Parse(s: Line, mode: Mode, full: bool): Option<nat> {
    if s == [] then (if mode.Ground? then Some(0) else None)
    else
      var c, rest := s[0], s[1..];
      match mode
      case Ground =>
        if c >= 0x80 then None
        else if c == ESC then Parse(rest, Escape, full)
        else if c < 0x20 || c == 0x7f then Parse(rest, Ground, full)
        else Wider(Parse(rest, Ground, full), 1)
      case Escape => if c == BRACKET then Parse(rest, Parameters, full) else None
      case Parameters =>
        if Parameter(c) then Parse(rest, Parameters, full)
        else if Intermediate(c) && full then Parse(rest, Intermediates, full)
        else if Final(c) then Parse(rest, Ground, full)
        else None
      case Intermediates =>
        if Intermediate(c) then Parse(rest, Intermediates, full)
        else if Final(c) then Parse(rest, Ground, full)
        else None
  }

  function Wider(w: Option<nat>, more: nat): Option<nat> {
    if w.Some? then Some(w.value + more) else None
  }

  /** What the narrow parser takes, the full one takes to be as wide. */
  lemma {:induction false} NarrowAgreesWithFull(s: Line, mode: Mode)
    requires Parse(s, mode, false).Some?
    ensures Parse(s, mode, true) == Parse(s, mode, false)
  {
    if s != [] {
      var c, rest := s[0], s[1..];
      match mode
      case Ground => NarrowAgreesWithFull(rest, if c == ESC then Escape else Ground);
      case Escape => NarrowAgreesWithFull(rest, Parameters);
      case Parameters => NarrowAgreesWithFull(rest, if Parameter(c) then Parameters else Ground);
      case Intermediates => NarrowAgreesWithFull(rest, if Intermediate(c) then Intermediates else Ground);
    }
  }

  /** A line the byte loop measures by itself. */
  predicate Plain(s: Line) { Parse(s, Ground, false).Some? }

  function Width(s: Line, reference: Line -> nat): nat {
    if Plain(s) then Parse(s, Ground, false).value else reference(s)
  }

  class Meter {
    /** The library's measure, whatever it is. */
    const reference: Line -> nat
    var fallbacks: nat

    constructor (reference: Line -> nat)
      ensures this.reference == reference && fallbacks == 0
    {
      this.reference := reference;
      fallbacks := 0;
    }

    method SlowLineWidth(s: Line) returns (w: nat)
      modifies this
      ensures w == reference(s) && fallbacks == old(fallbacks) + 1
    {
      fallbacks := fallbacks + 1;
      return reference(s);
    }

    /**
      By itself where the line is plain, and then what the parser says; otherwise exactly the
      reference's answer, counted as a fallback. So it is the reference's answer on every line if the
      reference follows the standard on plain ones.
     */
    method LineWidth(s: Line) returns (w: nat)
      modifies this
      ensures w == Width(s, reference) && (Plain(s) ==> Parse(s, Ground, true) == Some(w))
      ensures fallbacks == old(fallbacks) + if Plain(s) then 0 else 1
      ensures (forall t: Line :: Plain(t) ==> Parse(t, Ground, true) == Some(reference(t))) ==> w == reference(s)
    {
      w := 0;
      var i := 0;
      while i < |s|
        invariant 0 <= i <= |s| && fallbacks == old(fallbacks)
        invariant Parse(s, Ground, false) == Wider(Parse(s[i..], Ground, false), w)
      {
        var c := s[i];
        assert s[i..][1..] == s[i + 1..];
        if c >= 0x80 {
          w := SlowLineWidth(s);
          return;
        } else if c == ESC {
          if i + 1 >= |s| || s[i + 1] != BRACKET {
            assert s[i + 1..] != [] ==> s[i + 1..][0] == s[i + 1];
            w := SlowLineWidth(s);
            return;
          }
          var j := SequenceEnd(s, i + 2);
          assert s[i + 1..][0] == BRACKET && s[i + 1..][1..] == s[i + 2..];
          if j >= |s| || s[j] < 0x40 || s[j] > 0x7e {
            w := SlowLineWidth(s);
            return;
          }
          i := j;
        } else if c < 0x20 || c == 0x7f {
        } else {
          w := w + 1;
        }
        i := i + 1;
      }
      assert s[|s|..] == [];
      NarrowAgreesWithFull(s, Ground);
    }

    /** The first byte from j on that is no parameter. */
    method SequenceEnd(s: Line, from: nat) returns (j: nat)
      requires from <= |s|
      ensures from <= j <= |s| && (j < |s| ==> !Parameter(s[j]))
      ensures Parse(s[from..], Parameters, false) ==
                if j < |s| && Final(s[j]) then Parse(s[j + 1..], Ground, false) else None
    {
      j := from;
      while j < |s| && Parameter(s[j])
        invariant from <= j <= |s|
        invariant Parse(s[from..], Parameters, false) == Parse(s[j..], Parameters, false)
      {
        assert s[j..][1..] == s[j + 1..];
        j := j + 1;
      }
      if j < |s| {
        assert s[j..][1..] == s[j + 1..];
      }
    }

    /** The width of the widest line, wherever it is. */
    method FramesWidth(lines: seq<Line>) returns (widest: nat)
      modifies this
      ensures forall k :: 0 <= k < |lines| ==> Width(lines[k], reference) <= widest
      ensures widest == 0 || exists k :: 0 <= k < |lines| && Width(lines[k], reference) == widest
    {
      widest := 0;
      for i := 0 to |lines|
        invariant forall k :: 0 <= k < i ==> Width(lines[k], reference) <= widest
        invariant widest == 0 || exists k :: 0 <= k < i && Width(lines[k], reference) == widest
      {
        var w := LineWidth(lines[i]);
        if w > widest {
          widest := w;
        }
      }
    }
  }

  // ---- what a line is made of ------------------------------------------------------------------

  /** A character to be seen, one that only controls, or a control sequence. */
  datatype Item =
    | Visible(c: Byte)
    | Control(c: Byte)
    | Sequence(parameters: Line, intermediates: Line, final: Byte)

  predicate Formed(item: Item) {
    match item
    case Visible(c) => ' ' as int <= c <= '~' as int
    case Control(c) => (c < ' ' as int && c != 27) || c == 127
    case Sequence(ps, ms, f) =>
      && (forall k :: 0 <= k < |ps| ==> '0' as int <= ps[k] <= '?' as int)
      && (forall k :: 0 <= k < |ms| ==> ' ' as int <= ms[k] <= '/' as int)
      && '@' as int <= f <= '~' as int
  }

  function Spelled(item: Item): Line {
    match item
    case Sequence(ps, ms, f) => [27, '[' as int] + ps + ms + [f]
    case _ => [item.c]
  }

  function SpelledAll(items: seq<Item>): Line {
    if items == [] then [] else Spelled(items[0]) + SpelledAll(items[1..])
  }

  /** One column for each character to be seen. */
  function Columns(items: seq<Item>): nat {
    if items == [] then 0 else (if items[0].Visible? then 1 else 0) + Columns(items[1..])
  }

  /** The items are well formed, and without `full` have no intermediate bytes. */
  predicate AllFormed(items: seq<Item>, full: bool) {
    forall k :: 0 <= k < |items| ==>
      Formed(items[k]) && (!full && items[k].Sequence? ==> items[k].intermediates == [])
  }

  lemma {:induction false} ParseIntermediates(ms: Line, f: Byte, rest: Line)
    requires Formed(Sequence([], ms, f))
    ensures Parse(ms + [f] + rest, Intermediates, true) == Parse(rest, Ground, true)
  {
    var s := ms + [f] + rest;
    if ms == [] {
      assert s[1..] == rest;
    } else {
      assert s[1..] == ms[1..] + [f] + rest;
      ParseIntermediates(ms[1..], f, rest);
    }
  }

  lemma {:induction false} ParseParameters(ps: Line, ms: Line, f: Byte, rest: Line, full: bool)
    requires Formed(Sequence(ps, ms, f)) && (full || ms == [])
    ensures Parse(ps + ms + [f] + rest, Parameters, full) == Parse(rest, Ground, full)
  {
    var s := ps + ms + [f] + rest;
    if ps != [] {
      assert s[1..] == ps[1..] + ms + [f] + rest;
      ParseParameters(ps[1..], ms, f, rest, full);
    } else if ms != [] {
      assert s[1..] == ms[1..] + [f] + rest;
      ParseIntermediates(ms[1..], f, rest);
    } else {
      assert s[1..] == rest;
    }
  }

  lemma {:induction false} ParseSequence(ps: Line, ms: Line, f: Byte, rest: Line, full: bool)
    requires Formed(Sequence(ps, ms, f)) && (full || ms == [])
    ensures Parse([ESC, BRACKET] + ps + ms + [f] + rest, Ground, full) == Parse(rest, Ground, full)
  {
    var t := ps + ms + [f] + rest;
    var s := [ESC, BRACKET] + ps + ms + [f] + rest;
    assert s == [ESC, BRACKET] + t;
    ParseParameters(ps, ms, f, rest, full);
    hide Formed;
    assert s[1..] == [BRACKET] + t && s[1..][1..] == t;
  }

  lemma {:induction false} ParseItem(item: Item, rest: Line, full: bool)
    requires Formed(item) && (!full && item.Sequence? ==> item.intermediates == [])
    ensures Parse(Spelled(item) + rest, Ground, full) ==
            Wider(Parse(rest, Ground, full), if item.Visible? then 1 else 0)
  {
    if item.Sequence? {
      ParseSequence(item.parameters, item.intermediates, item.final, rest, full);
    } else {
      assert (Spelled(item) + rest)[1..] == rest;
    }
  }

  /** A line made of such items is measured, as one column for each character to be seen. */
  lemma {:induction false} ItemsMeasured(items: seq<Item>, full: bool)
    requires AllFormed(items, full)
    ensures Parse(SpelledAll(items), Ground, full) == Some(Columns(items))
  {
    if items != [] {
      ItemsMeasured(items[1..], full);
      hide Formed, Parse, Spelled;
      ParseItem(items[0], SpelledAll(items[1..]), full);
    }
  }

  lemma {:induction false} FormedMore(c: Byte, ps: Line, ms: Line, f: Byte)
    requires Formed(Sequence(ps, ms, f))
    ensures Parameter(c) ==> Formed(Sequence([c] + ps, ms, f))
    ensures Intermediate(c) ==> Formed(Sequence(ps, [c] + ms, f))
  {
  }

  lemma {:induction false} LineMore(s: Line, ps: Line, ms: Line, f: Byte, rest: Line)
    requires s != [] && s[1..] == ps + ms + [f] + rest
    ensures s == ([s[0]] + ps) + ms + [f] + rest
    ensures ps == [] ==> s == ps + ([s[0]] + ms) + [f] + rest
  {
    assert s == [s[0]] + s[1..];
  }

  /** What a sequence begun at s is, and what comes after it. */
  lemma {:induction false} FindEnd(s: Line, mode: Mode, full: bool) returns (ps: Line, ms: Line, f: Byte, rest: Line)
    requires (mode.Parameters? || (mode.Intermediates? && full)) && Parse(s, mode, full).Some?
    ensures s == ps + ms + [f] + rest && Formed(Sequence(ps, ms, f)) && (!full ==> ms == [])
    ensures mode.Intermediates? ==> ps == []
    ensures Parse(rest, Ground, full) == Parse(s, mode, full)
  {
    hide Formed;
    var c := s[0];
    if mode.Parameters? && Parameter(c) {
      ps, ms, f, rest := FindEnd(s[1..], mode, full);
      FormedMore(c, ps, ms, f);
      LineMore(s, ps, ms, f, rest);
      ps := [c] + ps;
    } else if Intermediate(c) {
      ps, ms, f, rest := FindEnd(s[1..], Intermediates, full);
      FormedMore(c, ps, ms, f);
      LineMore(s, ps, ms, f, rest);
      ms := [c] + ms;
    } else {
      ps, ms, f, rest := [], [], c, s[1..];
      JustFinal(c);
      assert s == ps + ms + [f] + rest;
    }
  }

  lemma {:induction false} JustFinal(f: Byte)
    ensures Final(f) ==> Formed(Sequence([], [], f))
  {
  }

  lemma {:induction false} ItemMore(item: Item, items: seq<Item>, full: bool)
    requires AllFormed(items, full) && Formed(item) && (!full && item.Sequence? ==> item.intermediates == [])
    ensures AllFormed([item] + items, full) && SpelledAll([item] + items) == Spelled(item) + SpelledAll(items)
  {
    assert ([item] + items)[1..] == items;
  }

  /** And every line that is measured is made of such items. */
  lemma {:induction false} ItemsFound(s: Line, full: bool) returns (items: seq<Item>)
    requires Parse(s, Ground, full).Some?
    ensures AllFormed(items, full) && SpelledAll(items) == s
    decreases |s|
  {
    hide AllFormed;
    if s == [] {
      items := NoItems(full);
    } else if s[0] == ESC {
      var ps, ms, f, rest := AfterEscape(s, full);
      var more := ItemsFound(rest, full);
      ItemMore(Sequence(ps, ms, f), more, full);
      items := [Sequence(ps, ms, f)] + more;
    } else {
      var c := s[0];
      var more := ItemsFound(s[1..], full);
      var item := if 0x20 <= c < 0x7f then Visible(c) else Control(c);
      ItemMore(item, more, full);
      items := [item] + more;
      assert s == [c] + s[1..];
    }
  }

  lemma {:induction false} NoItems(full: bool) returns (items: seq<Item>)
    ensures items == [] && AllFormed(items, full) && SpelledAll(items) == []
  {
    items := [];
  }

  lemma {:induction false} AfterEscape(s: Line, full: bool) returns (ps: Line, ms: Line, f: Byte, rest: Line)
    requires s != [] && s[0] == ESC && Parse(s, Ground, full).Some?
    ensures s == Spelled(Sequence(ps, ms, f)) + rest && Formed(Sequence(ps, ms, f)) && (!full ==> ms == [])
    ensures Parse(rest, Ground, full).Some?
    ensures |rest| < |s|
  {
    assert s[1..][1..] == s[2..];
    ps, ms, f, rest := FindEnd(s[2..], Parameters, full);
    hide Parse, Formed;
    assert s == [ESC, BRACKET] + s[2..];
  }

  ghost predicate MadeOf(s: Line, full: bool, n: nat) {
    exists items :: AllFormed(items, full) && SpelledAll(items) == s && Columns(items) == n
  }

  /**
    The parser takes exactly the lines made of visible characters, control characters and control
    sequences, and its answer is the number of visible ones. The byte loop takes those of them without
    intermediate bytes.
   */
  lemma {:induction false} ParseIsGrammar(s: Line, full: bool, n: nat)
    ensures Parse(s, Ground, full) == Some(n) <==> MadeOf(s, full, n)
  {
    if Parse(s, Ground, full) == Some(n) {
      var items := ItemsFound(s, full);
      ItemsMeasured(items, full);
    }
    if MadeOf(s, full, n) {
      var items :| AllFormed(items, full) && SpelledAll(items) == s && Columns(items) == n;
      ItemsMeasured(items, full);
    }
  }

  // ---- what is left to the reference for its intermediate bytes ----------------------------------

  /** From `from` on come parameter bytes, and then at i an intermediate one. */
  predicate Strays(s: Line, from: nat, i: nat) {
    from <= i < |s| && Intermediate(s[i]) && forall k :: from <= k < i ==> Parameter(s[k])
  }

  /** A control sequence introduced at j has its first intermediate byte at i. */
  predicate HasIntermediate(s: Line, j: nat, i: nat) {
    j + 2 <= i && j + 1 < |s| && s[j] == ESC && s[j + 1] == BRACKET && Strays(s, j + 2, i)
  }

  lemma {:induction false} StrayNotTaken(s: Line, i: nat)
    requires Strays(s, 0, i)
    ensures Parse(s, Parameters, false) == None
  {
    if i > 0 {
      assert Parameter(s[0]);
      StrayNotTaken(s[1..], i - 1);
    }
  }

  lemma {:induction false} IntermediateNotTaken(s: Line, mode: Mode, j: nat, i: nat)
    requires HasIntermediate(s, j, i)
    ensures Parse(s, mode, false) == None
  {
    if j > 0 {
      forall m
        ensures Parse(s[1..], m, false) == None
      {
        IntermediateNotTaken(s[1..], m, j - 1, i - 1);
      }
    } else {
      assert s[1..][0] == BRACKET && s[1..][1..] == s[2..];
      StrayNotTaken(s[2..], i - 2);
    }
  }

  /** Where the narrow parser gives up on a line that the full one takes. */
  lemma {:induction false} FindIntermediate(s: Line, mode: Mode) returns (j: int, i: nat)
    requires Parse(s, mode, true).Some? && Parse(s, mode, false).None?
    ensures j >= 0 ==> HasIntermediate(s, j, i)
    ensures j < 0 ==> (mode.Parameters? && Strays(s, 0, i))
                      || (mode.Escape? && |s| > 0 && s[0] == BRACKET && Strays(s, 1, i))
  {
    var c, rest := s[0], s[1..];
    if mode.Parameters? && Intermediate(c) {
      return -1, 0;
    }
    var next := match mode
                case Ground => if c == ESC then Escape else Ground
                case Escape => Parameters
                case Parameters => if Parameter(c) then Parameters else Ground
                case Intermediates => if Intermediate(c) then Intermediates else Ground;
    var j', i' := FindIntermediate(rest, next);
    i := i' + 1;
    j := if j' >= 0 then j' + 1 else if mode.Ground? then 0 else -1;
  }

  ghost predicate UsesIntermediates(s: Line) {
    exists j, i :: HasIntermediate(s, j, i)
  }

  /** Of the lines the standard allows, the byte loop leaves out exactly those with an intermediate byte. */
  lemma {:induction false} IntermediatesAreSlow(s: Line)
    ensures UsesIntermediates(s) ==> !Plain(s)
    ensures Parse(s, Ground, true).Some? ==> (Plain(s) <==> !UsesIntermediates(s))
  {
    if UsesIntermediates(s) {
      var j: nat, i: nat :| HasIntermediate(s, j, i);
      IntermediateNotTaken(s, Ground, j, i);
    }
    if Parse(s, Ground, true).Some? && !Plain(s) {
      var j, i := FindIntermediate(s, Ground);
    }
  }
}
