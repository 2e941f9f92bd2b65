/**
  Whole runs of the image passthrough: its operations, and images newly tracked under host ids that
  are handed out for each guest's own.
 */
module KittyRuns {
  import opened HostIDs
  import opened KittyPlacement
  import opened KittyHost
  import opened KittyProtocol

  /** What is tracked, and the ids given. */
  datatype World = World(state: State, book: Book)

  /** A window's host id is used by that window alone. */
  ghost predicate Owned<T>(ids: IDs, m: map<string, map<int, T>>) {
    forall w, g, v :: Holds(ids, w, g) && Holds(m, v, ids[w][g]) ==> v == w
  }

  ghost predicate Below<T>(m: map<string, map<int, T>>, limit: int) {
    forall w, i :: Holds(m, w, i) ==> i < limit
  }

  /** Every id in use was given already, to one guest image of one window. */
  ghost predicate Allocated(w: World) {
    && WellKept(w.book)
    && Below(w.state.placements, w.book.next) && Below(w.state.videos, w.book.next)
    && Owned(w.book.ids, w.state.placements) && Owned(w.book.ids, w.state.videos)
  }

  function Hidden(image: Placement, id: int): Placement {
    image.(hostID := id, placementID := 0, hidden := true)
  }

  function Put(pl: Placements, window: string, p: Placement): Placements {
    Stored(pl, window, p.hostID, p)
  }

  // ---- what can happen -----------------------------------------------------------------------

  /** An operation, or a completed transmission whose image is tracked, hidden until the next refresh. */
  datatype Event = Do(op: Operation) | Track(window: string, guest: int, image: Placement)

  function Happen(e: Event, w: World, cfg: Config): World {
    match e
    case Do(op) =>
      World(After(op, w.state, cfg),
            if op.Close? && Runs(op, cfg) then w.book.(ids := w.book.ids - {op.window}) else w.book)
    case Track(window, guest, image) =>
      var p := Hidden(image, IDFor(w.book, window, guest));
      World(w.state.(placements := Put(w.state.placements, window, p)), Identified(w.book, window, guest))
  }

  /** Tracking sends no command about placements. */
  ghost predicate Asks(sent: seq<HostCommand>, e: Event, w: World, cfg: Config) {
    match e
    case Do(op) => Sends(sent, op, w.state, cfg)
    case Track(_, _, _) => sent == []
  }

  /** The id is free to be tracked anew: no video image has it, and no placement shown now. */
  ghost predicate Vacant(w: World, window: string, guest: int) {
    var id := IDFor(w.book, window, guest);
    && !Has(w.state.videos, id)
    && (Holds(w.state.placements, window, id) ==> w.state.placements[window][id].hidden)
  }

  // ---- ids stay apart ------------------------------------------------------------------------

  /** No operation uses an id that was not in use. */
  lemma {:induction false} DoKeepsAllocated(op: Operation, w: World, cfg: Config)
    ensures Allocated(w) ==> Allocated(Happen(Do(op), w, cfg))
  {
    var w' := Happen(Do(op), w, cfg);
    forall v: string, i: int
      ensures Holds(w'.state.placements, v, i) ==> Holds(w.state.placements, v, i)
      ensures Holds(w'.state.videos, v, i) ==> Holds(w.state.videos, v, i)
    {
      AfterPlacements(op, w.state, cfg, v, i);
      AfterVideos(op, w.state, cfg, v, i);
    }
    forall v: string, g: int
      ensures Holds(w'.book.ids, v, g) ==> Holds(w.book.ids, v, g) && w'.book.ids[v][g] == w.book.ids[v][g]
    {
    }
  }

  /** Nor does a newly tracked image, until the ids wrap round. */
  lemma {:induction false} TrackKeepsAllocated(window: string, guest: int, image: Placement, w: World, cfg: Config)
    requires Allocated(w)
    ensures Allocated(Happen(Track(window, guest, image), w, cfg)) <==>
            Known(w.book, window, guest) || w.book.next != ID_LIMIT - 1
  {
    var w', id := Happen(Track(window, guest, image), w, cfg), IDFor(w.book, window, guest);
    Tracked(window, guest, image, w, cfg);
    assert Holds(w'.state.placements, window, id);
    if Known(w.book, window, guest) || w.book.next != ID_LIMIT - 1 {
      StaysApart(w.book, window, guest);
      StaysOwned(window, guest, w, w'.state.placements);
      StaysOwned(window, guest, w, w'.state.videos);
    }
  }

  lemma {:induction false} StaysOwned<T>(window: string, guest: int, w: World, m: map<string, map<int, T>>)
    requires Allocated(w)
    requires forall v, i :: Holds(m, v, i) && !(v == window && i == IDFor(w.book, window, guest)) ==> i < w.book.next
    requires forall v, g, u :: Holds(w.book.ids, v, g) && Holds(m, u, w.book.ids[v][g]) && u != v ==>
               u == window && w.book.ids[v][g] == IDFor(w.book, window, guest)
    ensures Owned(Identified(w.book, window, guest).ids, m)
  {
    Identifies(w.book, window, guest);
    hide Identified;
  }

  /** What is tracked afterwards. */
  lemma {:induction false} Tracked(window: string, guest: int, image: Placement, w: World, cfg: Config)
    ensures var t, id := Happen(Track(window, guest, image), w, cfg).state, IDFor(w.book, window, guest);
            && t == w.state.(placements := t.placements)
            && (forall v: string, i: int ::
                  Holds(t.placements, v, i) <==> Holds(w.state.placements, v, i) || (v == window && i == id))
            && (forall v: string, i: int :: Holds(t.placements, v, i) ==>
                  t.placements[v][i] == if v == window && i == id then Hidden(image, id) else w.state.placements[v][i])
  {
  }

  // ---- agreement -----------------------------------------------------------------------------

  lemma {:induction false} VacantIsNobodys(w: World, window: string, guest: int, v: string)
    requires Allocated(w)
    ensures Holds(w.state.placements, v, IDFor(w.book, window, guest)) ==> v == window && Known(w.book, window, guest)
  {
  }

  /** Tracking an image keeps the host in agreement exactly if its id is free. */
  lemma {:induction false} TrackAgrees(window: string, guest: int, image: Placement, w: World, cfg: Config, h: Host)
    requires Allocated(w) && Agrees(h, w.state.placements, w.state.videos, cfg.caps)
    ensures var t := Happen(Track(window, guest, image), w, cfg).state;
            Agrees(h, t.placements, t.videos, cfg.caps) <==> Vacant(w, window, guest)
  {
    var t, id := Happen(Track(window, guest, image), w, cfg).state, IDFor(w.book, window, guest);
    Tracked(window, guest, image, w, cfg);
    assert Holds(t.placements, window, id);
    hide Happen, Allocated, IDFor, Known;
    if Vacant(w, window, guest) {
      VacantAgrees(window, guest, image, w, cfg, h);
    } else if Holds(w.state.placements, window, id) && !w.state.placements[window][id].hidden {
      var p := w.state.placements[window][id];
      assert KittyPlacement.WithID(p).placementID in On(h, id);
    }
  }

  lemma {:induction false} VacantAgrees(window: string, guest: int, image: Placement, w: World, cfg: Config, h: Host)
    requires Allocated(w) && Agrees(h, w.state.placements, w.state.videos, cfg.caps) && Vacant(w, window, guest)
    ensures var t := Happen(Track(window, guest, image), w, cfg).state;
            Agrees(h, t.placements, t.videos, cfg.caps)
  {
    var t, id := Happen(Track(window, guest, image), w, cfg).state, IDFor(w.book, window, guest);
    Tracked(window, guest, image, w, cfg);
    TrackKeepsUnique(window, guest, image, w, cfg);
    VacantShowsNothing(window, guest, w, cfg.caps, h);
    hide Happen, IDFor, Unique, Allocated, Vacant;
    forall i: int | !Has(t.placements, i) && !Has(t.videos, i)
      ensures !Has(w.state.placements, i)
    {
      assert forall v :: Holds(w.state.placements, v, i) ==> Holds(t.placements, v, i);
    }
  }

  lemma {:induction false} VacantShowsNothing(window: string, guest: int, w: World, caps: Caps, h: Host)
    requires Allocated(w) && Agrees(h, w.state.placements, w.state.videos, caps) && Vacant(w, window, guest)
    ensures On(h, IDFor(w.book, window, guest)) == map[]
  {
    var id := IDFor(w.book, window, guest);
    if !Holds(w.state.placements, window, id) {
      forall v | Holds(w.state.placements, v, id)
        ensures false
      {
        VacantIsNobodys(w, window, guest, v);
      }
    }
  }

  lemma {:induction false} TrackKeepsUnique(window: string, guest: int, image: Placement, w: World, cfg: Config)
    requires Allocated(w) && Unique(w.state.placements, w.state.videos) && Vacant(w, window, guest)
    ensures var t := Happen(Track(window, guest, image), w, cfg).state; Unique(t.placements, t.videos)
  {
    var t, id := Happen(Track(window, guest, image), w, cfg).state, IDFor(w.book, window, guest);
    Tracked(window, guest, image, w, cfg);
    forall v, v', i | Holds(t.placements, v, i) && Holds(t.placements, v', i)
      ensures v == v'
    {
      if i == id {
        VacantIsNobodys(w, window, guest, v);
        VacantIsNobodys(w, window, guest, v');
      }
    }
  }

  // ---- runs ----------------------------------------------------------------------------------

  lemma {:induction false} EventAgrees(e: Event, w: World, cfg: Config, h: Host, sent: seq<HostCommand>)
    requires Allocated(w) && Agrees(h, w.state.placements, w.state.videos, cfg.caps) && Asks(sent, e, w, cfg)
    ensures var t := Happen(e, w, cfg).state;
            Agrees(Replay(h, sent), t.placements, t.videos, cfg.caps) <==>
            (e.Track? ==> Vacant(w, e.window, e.guest))
  {
    match e
    case Do(op) => StepAgrees(op, w.state, cfg, h, sent);
    case Track(window, guest, image) => TrackAgrees(window, guest, image, w, cfg, h);
  }

  lemma {:induction false} EventKeepsAllocated(e: Event, w: World, cfg: Config)
    requires Allocated(w) && w.book.next < ID_LIMIT - 1
    ensures Allocated(Happen(e, w, cfg)) && Happen(e, w, cfg).book.next <= w.book.next + 1
  {
    match e
    case Do(op) => DoKeepsAllocated(op, w, cfg);
    case Track(window, guest, image) => TrackKeepsAllocated(window, guest, image, w, cfg);
  }

  /** A run: what happened, and what was sent each time. */
  ghost predicate Run(events: seq<Event>, sent: seq<seq<HostCommand>>, w: World, cfg: Config) {
    && |sent| == |events|
    && (events != [] ==>
          Asks(sent[0], events[0], w, cfg) && Run(events[1..], sent[1..], Happen(events[0], w, cfg), cfg))
  }

  function WorldAfter(events: seq<Event>, w: World, cfg: Config): World {
    if events == [] then w else WorldAfter(events[1..], Happen(events[0], w, cfg), cfg)
  }

  function Stream(sent: seq<seq<HostCommand>>): seq<HostCommand> {
    if sent == [] then [] else sent[0] + Stream(sent[1..])
  }

  /** Whenever an image is tracked its id is free. */
  ghost predicate Orderly(events: seq<Event>, w: World, cfg: Config) {
    events != [] ==>
      && (events[0].Track? ==> Vacant(w, events[0].window, events[0].guest))
      && Orderly(events[1..], Happen(events[0], w, cfg), cfg)
  }

  /** The host is in agreement at the start and after every event. */
  ghost predicate AgreesThroughout(events: seq<Event>, sent: seq<seq<HostCommand>>, w: World, cfg: Config, h: Host)
    requires |sent| == |events|
  {
    && Agrees(h, w.state.placements, w.state.videos, cfg.caps)
    && (events != [] ==>
          AgreesThroughout(events[1..], sent[1..], Happen(events[0], w, cfg), cfg, Replay(h, sent[0])))
  }

  /** Over any run the host is in agreement all along, exactly if ids are free whenever images are tracked. */
  lemma {:induction false} RunAgreesThroughout(events: seq<Event>, sent: seq<seq<HostCommand>>, w: World, cfg: Config,
                                               h: Host)
    requires Agrees(h, w.state.placements, w.state.videos, cfg.caps) && Run(events, sent, w, cfg)
    requires Allocated(w) && w.book.next + |events| < ID_LIMIT
    ensures AgreesThroughout(events, sent, w, cfg, h) <==> Orderly(events, w, cfg)
  {
    if events != [] {
      EventAgrees(events[0], w, cfg, h, sent[0]);
      EventKeepsAllocated(events[0], w, cfg);
      if events[0].Track? ==> Vacant(w, events[0].window, events[0].guest) {
        RunAgreesThroughout(events[1..], sent[1..], Happen(events[0], w, cfg), cfg, Replay(h, sent[0]));
      }
    }
  }

  /** At its end the whole stream, replayed, shows exactly what is tracked and not hidden. */
  lemma {:induction false} RunAgrees(events: seq<Event>, sent: seq<seq<HostCommand>>, w: World, cfg: Config, h: Host)
    requires Agrees(h, w.state.placements, w.state.videos, cfg.caps) && Run(events, sent, w, cfg)
    requires Allocated(w) && w.book.next + |events| < ID_LIMIT && Orderly(events, w, cfg)
    ensures var t := WorldAfter(events, w, cfg);
            Allocated(t) && Agrees(Replay(h, Stream(sent)), t.state.placements, t.state.videos, cfg.caps)
  {
    if events != [] {
      EventAgrees(events[0], w, cfg, h, sent[0]);
      EventKeepsAllocated(events[0], w, cfg);
      RunAgrees(events[1..], sent[1..], Happen(events[0], w, cfg), cfg, Replay(h, sent[0]));
      ReplayConcat(h, sent[0], Stream(sent[1..]));
    }
  }

  function Start(): World { World(State(map[], map[], map[]), Book(map[], 1)) }

  /** That is so from the start, where nothing is tracked and the host shows nothing. */
  lemma {:induction false} AgreesFromTheStart(events: seq<Event>, sent: seq<seq<HostCommand>>, cfg: Config)
    requires Run(events, sent, Start(), cfg) && |events| < ID_LIMIT - 1
    ensures AgreesThroughout(events, sent, Start(), cfg, map[]) <==> Orderly(events, Start(), cfg)
    ensures Orderly(events, Start(), cfg) ==>
              var t := WorldAfter(events, Start(), cfg);
              Agrees(Replay(map[], Stream(sent)), t.state.placements, t.state.videos, cfg.caps)
  {
    RunAgreesThroughout(events, sent, Start(), cfg, map[]);
    if Orderly(events, Start(), cfg) {
      RunAgrees(events, sent, Start(), cfg, map[]);
    }
  }
}
