/**
  Chunked transfer of image data. A guest sends an image as a first command that places it and any
  number of continuations; their data is gathered and, when complete, sent on to the host in chunks
  of our own. Short commands that look like an echoed response of the host are thrown away.
 */
module Transmit {
  import opened Common
  import opened Base64

  // ---- chunks to the host ----------------------------------------------------------------------

  const CHUNK_SIZE := 4096
  const MAX_TRANSMIT := 64 * 1024 * 1024

  /** One graphics command: with the full header or only the image id, with m=1 or not, and its payload. */
  datatype Chunk = Chunk(header: bool, more: bool, payload: seq<Byte>)

  function Chunks(encoded: seq<Byte>, first: bool): seq<Chunk> {
    if encoded == [] then []
    else if |encoded| <= CHUNK_SIZE then [Chunk(first, false, encoded)]
    else [Chunk(first, true, encoded[..CHUNK_SIZE])] + Chunks(encoded[CHUNK_SIZE..], false)
  }

  lemma {:induction false} OneMoreChunk(encoded: seq<Byte>, i: nat, before: seq<Chunk>)
    requires i < |encoded|
    ensures var rest, end := encoded[i..], if i + CHUNK_SIZE < |encoded| then i + CHUNK_SIZE else |encoded|;
            before + Chunks(rest, i == 0) ==
              before + [Chunk(i == 0, end < |encoded|, encoded[i..end])] + Chunks(encoded[end..], false)
  {
    var rest := encoded[i..];
    if i + CHUNK_SIZE < |encoded| {
      assert rest[CHUNK_SIZE..] == encoded[i + CHUNK_SIZE..] && rest[..CHUNK_SIZE] == encoded[i..i + CHUNK_SIZE];
    } else {
      assert encoded[i..|encoded|] == rest && encoded[|encoded|..] == [];
    }
  }

  method BuildChunks(encoded: seq<Byte>) returns (out: seq<Chunk>)
    ensures out == Chunks(encoded, true)
  {
    out := [];
    var i := 0;
    assert encoded[0..] == encoded;
    while i < |encoded|
      invariant 0 <= i
      invariant Chunks(encoded, true) == out + if i < |encoded| then Chunks(encoded[i..], i == 0) else []
    {
      var end := if i + CHUNK_SIZE < |encoded| then i + CHUNK_SIZE else |encoded|;
      var more := end < |encoded|;
      OneMoreChunk(encoded, i, out);
      out := out + [Chunk(i == 0, more, encoded[i..end])];
      i := i + CHUNK_SIZE;
    }
  }

  function Payloads(chunks: seq<Chunk>): seq<Byte> {
    if chunks == [] then [] else chunks[0].payload + Payloads(chunks[1..])
  }

  /** Nothing is lost in cutting, no chunk is empty or too long, the first is marked, and the last. */
  lemma {:induction false} ChunksFacts(encoded: seq<Byte>, first: bool)
    ensures Payloads(Chunks(encoded, first)) == encoded
    ensures forall k :: 0 <= k < |Chunks(encoded, first)| ==>
              var c := Chunks(encoded, first)[k];
              && 1 <= |c.payload| <= 4096 && (c.header <==> first && k == 0)
              && (c.more <==> k < |Chunks(encoded, first)| - 1) && (c.more ==> |c.payload| == 4096)
    ensures encoded != [] ==> Chunks(encoded, first) != []
  {
    if |encoded| > CHUNK_SIZE {
      var rest := encoded[CHUNK_SIZE..];
      ChunksFacts(rest, false);
      var c := Chunk(first, true, encoded[..CHUNK_SIZE]);
      assert ([c] + Chunks(rest, false))[1..] == Chunks(rest, false);
      assert encoded[..CHUNK_SIZE] + rest == encoded;
    } else if encoded != [] {
      assert [Chunk(first, false, encoded)][1..] == [];
      assert encoded + [] == encoded;
    }
  }

  /** The host decodes each payload by itself and puts the data together. */
  function HostReads(chunks: seq<Chunk>): Option<seq<Byte>> {
    if chunks == [] then Some([])
    else
      match (Decode(chunks[0].payload), HostReads(chunks[1..]))
      case (Some(a), Some(b)) => Some(a + b)
      case _ => None
  }

  lemma {:induction false} HostReadsText(encoded: seq<Byte>, first: bool)
    requires Decode(encoded).Some?
    ensures HostReads(Chunks(encoded, first)) == Decode(encoded)
  {
    if |encoded| > CHUNK_SIZE {
      var a, rest := encoded[..CHUNK_SIZE], encoded[CHUNK_SIZE..];
      assert a + rest == encoded;
      DecodeInPieces(a, rest);
      HostReadsText(rest, false);
      assert ([Chunk(first, true, a)] + Chunks(rest, false))[1..] == Chunks(rest, false);
    } else if encoded != [] {
      assert [Chunk(first, false, encoded)][1..] == [];
      assert Decode(encoded).value + [] == Decode(encoded).value;
    }
  }

  /** Whatever was sent arrives: chunk by chunk, and as one text. */
  lemma {:induction false} HostReadsWhatWasSent(data: seq<Byte>)
    ensures HostReads(Chunks(Encode(data), true)) == Some(data)
    ensures Decode(Payloads(Chunks(Encode(data), true))) == Some(data)
  {
    RoundTrip(data);
    HostReadsText(Encode(data), true);
    ChunksFacts(Encode(data), true);
  }

  // ---- echoed responses ------------------------------------------------------------------------

  predicate Upper(c: Byte) { 'A' as int <= c <= 'Z' as int }

  const OK: seq<Byte> := ['O' as int, 'K' as int]

  /** OK, or E and capitals, and then perhaps a colon and anything: at most 256 characters of it. */
  ghost predicate LooksLikeResponse(p: seq<Byte>) {
    && 1 <= |p| <= 256
    && (p == OK ||
        (p[0] == 'E' as int && exists k :: NamesError(p, k)))
  }

  /** The characters from the second to the k-th are capitals, and end the text or stand before a colon. */
  predicate NamesError(p: seq<Byte>, k: int) {
    2 <= k <= |p| && (forall j :: 1 <= j < k ==> Upper(p[j])) && (k == |p| || p[k] == ':' as int)
  }

  method IsKittyResponse(p: seq<Byte>) returns (r: bool)
    ensures r <==> LooksLikeResponse(p)
  {
    if |p| == 0 || |p| > 256 {
      return false;
    }
    if p == [79, 75] {
      return true;
    }
    if p[0] != 69 {
      return false;
    }
    var i := 1;
    while i < |p| && 65 <= p[i] <= 90
      invariant 1 <= i <= |p| && forall j :: 1 <= j < i ==> Upper(p[j])
    {
      i := i + 1;
    }
    assert forall k :: NamesError(p, k) ==> k == i;
    if i < 2 {
      return false;
    }
    if i == |p| {
      assert NamesError(p, i);
      return true;
    }
    assert p[i] == 58 ==> NamesError(p, i);
    return p[i] == 58;
  }

  lemma {:induction false} EncodeAlphabet(data: seq<Byte>)
    ensures forall c :: c in Encode(data) ==> c == PAD || Value(c).Some?
  {
    if |data| > 2 {
      EncodeAlphabet(data[3..]);
    }
  }

  lemma {:induction false} TextTakenForResponse(p: seq<Byte>)
    requires |p| % 4 == 0 && forall c :: c in p ==> c == PAD || Value(c).Some?
    ensures LooksLikeResponse(p) <==> 1 <= |p| <= 256 && p[0] == 69 && forall c :: c in p ==> Upper(c)
  {
    if 1 <= |p| <= 256 && p[0] == 69 && forall c :: c in p ==> Upper(c) {
      assert forall j :: 1 <= j < |p| ==> p[j] in p;
      assert NamesError(p, |p|);
    }
    assert |OK| == 2;
    if LooksLikeResponse(p) {
      var k :| NamesError(p, k);
      assert p[k - 1] in p && forall j :: 0 <= j < |p| ==> p[j] in p;
      forall c | c in p
        ensures Upper(c)
      {
        var j :| 0 <= j < |p| && p[j] == c;
      }
    }
  }

  /**
    Which pieces of an image are taken for a response: the ones of at most 192 bytes whose encoding is
    all capitals, the first an E.
   */
  lemma {:induction false} TakenForResponse(data: seq<Byte>)
    ensures LooksLikeResponse(Encode(data)) <==>
              1 <= |data| <= 192 && Encode(data)[0] == 69 && forall c :: c in Encode(data) ==> Upper(c)
  {
    EncodeAlphabet(data);
    TextOfLength(|data|, Encode(data));
  }

  lemma {:induction false} TextOfLength(n: nat, p: seq<Byte>)
    requires |p| == (n + 2) / 3 * 4 && forall c :: c in p ==> c == PAD || Value(c).Some?
    ensures LooksLikeResponse(p) <==> 1 <= n <= 192 && p[0] == 69 && forall c :: c in p ==> Upper(c)
  {
    TextTakenForResponse(p);
  }

  // ---- gathering a guest's chunks --------------------------------------------------------------

  /** A transmit command of a guest, with or without placement. */
  datatype Command = Command(place: bool, payload: seq<Byte>, more: bool)

  datatype Output = Raw(command: Command) | Part(chunk: Chunk)

  /** Line breaks in a payload are skipped; text that is not base 64 stands for itself. */
  function Unbroken(p: seq<Byte>): seq<Byte> {
    if p == [] then [] else (if p[0] == 10 || p[0] == 13 then [] else [p[0]]) + Unbroken(p[1..])
  }

  function DataOf(payload: seq<Byte>): seq<Byte> {
    match Decode(Unbroken(payload))
    case Some(data) => data
    case None => payload
  }

  /** A line break anywhere in the text makes no difference. */
  lemma {:induction false} DataInText(a: seq<Byte>, b: seq<Byte>, br: Byte, data: seq<Byte>)
    requires a + b == Encode(data) && (br == '\n' as int || br == '\r' as int)
    ensures DataOf(a + [br] + b) == data
  {
    UnbrokenParts(a, b);
    UnbrokenParts(a + [br], b);
    UnbrokenParts(a, [br]);
    assert [br][1..] == [] && Unbroken([br]) == [];
    EncodingUnbroken(data);
    RoundTrip(data);
    hide Encode, Decode, Unbroken;
    assert Unbroken(a) + [] == Unbroken(a);
  }

  lemma {:induction false} DecodedIsText(s: seq<Byte>, c: Byte)
    requires Decode(s).Some? && c in s
    ensures c == PAD || Value(c).Some?
  {
    if c in s[4..] {
      DecodedIsText(s[4..], c);
    }
  }

  lemma {:induction false} KeptUnbroken(p: seq<Byte>, c: Byte)
    requires c in p && c != 10 && c != 13
    ensures c in Unbroken(p)
  {
    if p[0] != c {
      KeptUnbroken(p[1..], c);
    }
  }

  /** A text with any other character in it is no base 64, and is taken as it is. */
  lemma {:induction false} OtherText(p: seq<Byte>, c: Byte)
    requires c in p && c != '=' as int && c != '\n' as int && c != '\r' as int && Value(c) == None
    ensures DataOf(p) == p
  {
    KeptUnbroken(p, c);
    if Decode(Unbroken(p)).Some? {
      DecodedIsText(Unbroken(p), c);
    }
  }

  lemma {:induction false} UnbrokenParts(a: seq<Byte>, b: seq<Byte>)
    ensures Unbroken(a + b) == Unbroken(a) + Unbroken(b)
  {
    if a == [] {
      assert a + b == b;
    } else {
      assert (a + b)[1..] == a[1..] + b;
      UnbrokenParts(a[1..], b);
    }
  }

  function Emission(data: seq<Byte>): seq<Output> {
    var chunks := Chunks(Encode(data), true);
    seq(|chunks|, k requires 0 <= k < |chunks| => Part(chunks[k]))
  }

  /** What one command does to the window's gathered data, and what is sent. */
  ghost function Gather(pending: Option<seq<Byte>>, c: Command): (Option<seq<Byte>>, seq<Output>) {
    if !c.place && LooksLikeResponse(c.payload) then (pending, [])
    else if !c.place && pending.None? then (None, [Raw(c)])
    else
      var data := (if pending.Some? then pending.value else []) + DataOf(c.payload);
      if |data| > MAX_TRANSMIT then (None, [])
      else if c.more then (Some(data), [])
      else (None, Emission(data))
  }

  /** The data said by the chunks among the output. */
  function Said(out: seq<Output>): Option<seq<Byte>> { HostReads(Parts(out)) }

  function Parts(out: seq<Output>): seq<Chunk> {
    if out == [] then []
    else (if out[0].Part? then [out[0].chunk] else []) + Parts(out[1..])
  }

  lemma {:induction false} PartsOf(chunks: seq<Chunk>)
    ensures Parts(seq(|chunks|, k requires 0 <= k < |chunks| => Part(chunks[k]))) == chunks
  {
    if chunks != [] {
      var out := seq(|chunks|, k requires 0 <= k < |chunks| => Part(chunks[k]));
      var rest := seq(|chunks[1..]|, k requires 0 <= k < |chunks[1..]| => Part(chunks[1..][k]));
      assert out[1..] == rest;
      PartsOf(chunks[1..]);
    }
  }

  /**
    Nothing is lost on the way but what looks like a response and what is too long. Data is kept until it
    is complete and is then said to the host, all of it; and a continuation of nothing is passed on.
   */
  lemma {:induction false} NothingElseIsLost(pending: Option<seq<Byte>>, c: Command)
    ensures var (after, out) := Gather(pending, c);
            if !c.place && LooksLikeResponse(c.payload) then after == pending && out == []
            else if !c.place && pending == None then after == None && out == [Raw(c)]
            else
              var all := (if pending == None then [] else pending.value) + DataOf(c.payload);
              if |all| > 67108864 then after == None && out == []
              else if c.more then after == Some(all) && out == []
              else after == None && Said(out) == Some(all) && forall k :: 0 <= k < |out| ==> out[k].Part?
  {
    var all := (if pending.None? then [] else pending.value) + DataOf(c.payload);
    HostReadsWhatWasSent(all);
    PartsOf(Chunks(Encode(all), true));
  }

  function Pending(table: map<string, seq<Byte>>, w: string): Option<seq<Byte>> {
    if w in table then Some(table[w]) else None
  }

  class Transmitter {
    var pendingDirectData: map<string, seq<Byte>>
    var pendingOutput: seq<Output>

    /** One transmit command of window w: as Gather says for that window, the others as they were. */
    method Forward(w: string, c: Command)
      modifies this
      ensures Pending(pendingDirectData, w) == Gather(Pending(old(pendingDirectData), w), c).0
      ensures pendingDirectData - {w} == old(pendingDirectData) - {w}
      ensures pendingOutput == old(pendingOutput) + Gather(Pending(old(pendingDirectData), w), c).1
    {
      if !c.place && |c.payload| > 0 {
        var echo := IsKittyResponse(c.payload);
        if echo {
          return;
        }
      }
      if !c.place && w !in pendingDirectData {
        pendingOutput := pendingOutput + [Raw(c)];
        return;
      }
      var had := w in pendingDirectData;
      var sofar := if had then pendingDirectData[w] else [];
      var data := DataOf(c.payload);
      if |sofar| + |data| > MAX_TRANSMIT {
        pendingDirectData := pendingDirectData - {w};
        return;
      }
      pendingDirectData := pendingDirectData[w := sofar + data];
      if c.more {
        return;
      }
      var all := pendingDirectData[w];
      pendingDirectData := pendingDirectData - {w};
      Send(all);
    }

    /** Sends complete data on in chunks of our own, if there is any. */
    method Send(data: seq<Byte>)
      modifies this`pendingOutput
      ensures pendingOutput == old(pendingOutput) + Emission(data)
    {
      if data == [] {
        assert Emission(data) == [];
        return;
      }
      var chunks := BuildChunks(Encode(data));
      pendingOutput := pendingOutput + seq(|chunks|, k requires 0 <= k < |chunks| => Part(chunks[k]));
    }
  }

  ghost function GatherAll(pending: Option<seq<Byte>>, cs: seq<Command>): (Option<seq<Byte>>, seq<Output>)
    decreases |cs|
  {
    if cs == [] then (pending, [])
    else
      var first := Gather(pending, cs[0]);
      var rest := GatherAll(first.0, cs[1..]);
      (rest.0, first.1 + rest.1)
  }

  // ---- one image, in pieces --------------------------------------------------------------------

  /** A piece of an image, and whether it is sent in a placing command. */
  datatype Piece = Piece(place: bool, data: seq<Byte>)

  /** The guest's commands: every piece encoded by itself, all but the last with m=1. */
  function Commands(ps: seq<Piece>): seq<Command> {
    if ps == [] then []
    else [Command(ps[0].place, Encode(ps[0].data), |ps| > 1)] + Commands(ps[1..])
  }

  function Image(ps: seq<Piece>): seq<Byte> {
    if ps == [] then [] else ps[0].data + Image(ps[1..])
  }

  ghost predicate Lost(p: Piece) { !p.place && LooksLikeResponse(Encode(p.data)) }

  ghost function Surviving(ps: seq<Piece>): seq<Byte> {
    if ps == [] then [] else (if Lost(ps[0]) then [] else ps[0].data) + Surviving(ps[1..])
  }

  lemma {:induction false} NoBreaks(p: seq<Byte>)
    requires forall i :: 0 <= i < |p| ==> p[i] != 10 && p[i] != 13
    ensures Unbroken(p) == p
  {
    if p != [] {
      NoBreaks(p[1..]);
    }
  }

  lemma {:induction false} EncodingUnbroken(data: seq<Byte>)
    ensures Unbroken(Encode(data)) == Encode(data)
  {
    EncodeAlphabet(data);
    var p := Encode(data);
    forall i | 0 <= i < |p|
      ensures p[i] != 10 && p[i] != 13
    {
      assert p[i] in p;
    }
    NoBreaks(p);
  }

  lemma {:induction false} DataOfPiece(data: seq<Byte>)
    ensures DataOf(Encode(data)) == data
  {
    EncodingUnbroken(data);
    RoundTrip(data);
  }

  lemma {:induction false} SurvivingIsLess(ps: seq<Piece>)
    ensures |Surviving(ps)| <= |Image(ps)|
    ensures (forall k :: 0 <= k < |ps| ==> !Lost(ps[k])) ==> Surviving(ps) == Image(ps)
    ensures (exists k :: 0 <= k < |ps| && Lost(ps[k])) ==> |Surviving(ps)| < |Image(ps)|
  {
    if ps != [] {
      SurvivingIsLess(ps[1..]);
      assert forall k :: 1 <= k < |ps| ==> ps[1..][k - 1] == ps[k];
      assert Lost(ps[0]) ==> |Encode(ps[0].data)| >= 1;
    }
  }

  /** What becomes of one piece. */
  lemma {:induction false} OnePiece(sofar: seq<Byte>, p: Piece, more: bool)
    requires |sofar| + |p.data| <= MAX_TRANSMIT
    ensures Gather(Some(sofar), Command(p.place, Encode(p.data), more)) ==
              if Lost(p) then (Some(sofar), [])
              else if more then (Some(sofar + p.data), [])
              else (None, Emission(sofar + p.data))
  {
    DataOfPiece(p.data);
  }

  lemma {:induction false} LastPiece(sofar: seq<Byte>, p: Piece)
    requires |sofar| + |p.data| <= MAX_TRANSMIT
    ensures GatherAll(Some(sofar), Commands([p])) ==
              if Lost(p) then (Some(sofar), []) else (None, Emission(sofar + p.data))
  {
    OnePiece(sofar, p, false);
    var c := Command(p.place, Encode(p.data), false);
    assert [p][1..] == [];
    assert Commands([p]) == [c] && [c][1..] == [];
    assert Gather(Some(sofar), c).1 + [] == Gather(Some(sofar), c).1;
  }

  lemma {:induction false} GatherOneMore(pending: Option<seq<Byte>>, c: Command, cs: seq<Command>)
    ensures GatherAll(pending, [c] + cs) ==
              (GatherAll(Gather(pending, c).0, cs).0, Gather(pending, c).1 + GatherAll(Gather(pending, c).0, cs).1)
  {
    assert ([c] + cs)[1..] == cs;
  }

  /** A piece with more to come sends nothing by itself. */
  lemma {:induction false} NextPiece(sofar: seq<Byte>, ps: seq<Piece>)
    requires |ps| > 1 && |sofar| + |ps[0].data| <= MAX_TRANSMIT
    ensures GatherAll(Some(sofar), Commands(ps)) ==
              GatherAll(Some(if Lost(ps[0]) then sofar else sofar + ps[0].data), Commands(ps[1..]))
  {
    var c := Command(ps[0].place, Encode(ps[0].data), true);
    var next := Some(if Lost(ps[0]) then sofar else sofar + ps[0].data);
    OnePiece(sofar, ps[0], true);
    GatherOneMore(Some(sofar), c, Commands(ps[1..]));
    assert Gather(Some(sofar), c) == (next, []);
    var r := GatherAll(next, Commands(ps[1..]));
    assert [] + r.1 == r.1;
  }

  lemma {:induction false} SurvivingStep(sofar: seq<Byte>, ps: seq<Piece>)
    requires ps != []
    ensures (if Lost(ps[0]) then sofar else sofar + ps[0].data) + Surviving(ps[1..]) == sofar + Surviving(ps)
  {
  }

  /** What gathering these pieces comes to: unless the last one is lost, what survives is sent on. */
  ghost predicate Gathers(sofar: seq<Byte>, ps: seq<Piece>, lastLost: bool) {
    GatherAll(Some(sofar), Commands(ps)) ==
      if lastLost then (Some(sofar + Surviving(ps)), []) else (None, Emission(sofar + Surviving(ps)))
  }

  lemma {:induction false} GathersLast(sofar: seq<Byte>, ps: seq<Piece>)
    requires |ps| == 1 && |sofar| + |ps[0].data| <= MAX_TRANSMIT
    ensures Gathers(sofar, ps, Lost(ps[0]))
  {
    hide Emission, GatherAll, Commands;
    SurvivingStep(sofar, ps);
    assert ps == [ps[0]] && ps[1..] == [];
    LastPiece(sofar, ps[0]);
    var next := if Lost(ps[0]) then sofar else sofar + ps[0].data;
    assert next + [] == next;
  }

  lemma {:induction false} GathersNext(sofar: seq<Byte>, ps: seq<Piece>, lastLost: bool)
    requires |ps| > 1 && |sofar| + |ps[0].data| <= MAX_TRANSMIT
    requires Gathers(if Lost(ps[0]) then sofar else sofar + ps[0].data, ps[1..], lastLost)
    ensures Gathers(sofar, ps, lastLost)
  {
    hide Emission, GatherAll, Commands, Lost;
    SurvivingStep(sofar, ps);
    NextPiece(sofar, ps);
  }

  /** What becomes of the pieces after the first: those taken for responses are missing. */
  lemma {:induction false} Continued(sofar: seq<Byte>, ps: seq<Piece>)
    requires ps != [] && |sofar| + |Image(ps)| <= MAX_TRANSMIT
    ensures Gathers(sofar, ps, Lost(ps[|ps| - 1]))
    decreases |ps|
  {
    hide Gathers, Lost;
    if |ps| == 1 {
      GathersLast(sofar, ps);
    } else {
      var rest := ps[1..];
      assert rest[|rest| - 1] == ps[|ps| - 1];
      Continued(if Lost(ps[0]) then sofar else sofar + ps[0].data, rest);
      GathersNext(sofar, ps, Lost(ps[|ps| - 1]));
    }
  }

  /** Different data is never sent the same way. */
  lemma {:induction false} EmissionIsFaithful(a: seq<Byte>, b: seq<Byte>)
    requires Emission(a) == Emission(b)
    ensures a == b
  {
    var x, y := Chunks(Encode(a), true), Chunks(Encode(b), true);
    assert |x| == |Emission(a)| && |y| == |Emission(b)|;
    forall k | 0 <= k < |x|
      ensures x[k] == y[k]
    {
      assert Emission(a)[k] == Part(x[k]) && Emission(b)[k] == Part(y[k]);
    }
    assert x == y;
    HostReadsWhatWasSent(a);
    HostReadsWhatWasSent(b);
  }

  /**
    An image of any number of pieces, placed with the first and small enough, is sent on whole in
    chunks that say exactly its data, if and only if no continuation of it is taken for a response.
   */
  lemma {:induction false} ImageArrives(ps: seq<Piece>)
    requires ps != [] && ps[0].place && |Image(ps)| <= 67108864
    ensures GatherAll(None, Commands(ps)) == (None, Emission(Image(ps))) <==>
              forall k :: 0 <= k < |ps| ==> !Lost(ps[k])
  {
    var c := Command(true, Encode(ps[0].data), |ps| > 1);
    assert Commands(ps)[0] == c && Commands(ps)[1..] == Commands(ps[1..]);
    DataOfPiece(ps[0].data);
    assert [] + ps[0].data == ps[0].data;
    assert Gather(None, c) == Gather(Some([]), c);
    assert GatherAll(None, Commands(ps)) == GatherAll(Some([]), Commands(ps));
    Continued([], ps);
    SurvivingIsLess(ps);
    assert [] + Surviving(ps) == Surviving(ps);
    if exists k :: 0 <= k < |ps| && Lost(ps[k]) {
      if Emission(Surviving(ps)) == Emission(Image(ps)) {
        EmissionIsFaithful(Surviving(ps), Image(ps));
      }
    }
  }

  /** Three bytes that are lost: their encoding is EABC. */
  lemma {:induction false} SomePiecesAreLost()
    ensures Lost(Piece(false, [16, 0, 66])) && !Lost(Piece(true, [16, 0, 66]))
  {
    var p := Encode([16, 0, 66]);
    assert p == Quad(16, 0, 66) + Encode([]);
    assert p == [69, 65, 66, 67];
    TakenForResponse([16, 0, 66]);
  }
}
