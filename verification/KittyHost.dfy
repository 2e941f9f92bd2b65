/**
  The host terminal, as far as image placements go: it only ever sees a stream of commands. This
  module interprets such a stream and says when what it shows agrees with what is tracked.
 */
module KittyHost {
  import opened HostIDs
  import opened KittyPlacement

  /** The placements on the host: for each image, by placement id, the command that put it there. */
  type Host = map<int, map<int, HostCommand>>

  function On(h: Host, image: int): map<int, HostCommand> {
    if image in h then h[image] else map[]
  }

  /** Placing again under the same ids replaces; deleting removes every placement of the image. */
  function Apply(h: Host, c: HostCommand): Host {
    match c
    case Place(image, placement, _, _, _, _, _, _, _, _) => h[image := On(h, image)[placement := c]]
    case Delete(image) => h - {image}
    case Free(image) => h - {image}
  }

  function Replay(h: Host, stream: seq<HostCommand>): Host {
    if stream == [] then h else Apply(Replay(h, stream[..|stream| - 1]), stream[|stream| - 1])
  }

  lemma {:induction false} ReplayConcat(h: Host, a: seq<HostCommand>, b: seq<HostCommand>)
    ensures Replay(h, a + b) == Replay(Replay(h, a), b)
  {
    if b == [] {
      assert a + b == a;
    } else {
      ReplayConcat(h, a, b[..|b| - 1]);
      assert (a + b)[..|a + b| - 1] == a + b[..|b| - 1];
    }
  }

  /** The commands of a stream that concern one image, in order. */
  function About(stream: seq<HostCommand>, image: int): seq<HostCommand> {
    if stream == [] then []
    else
      var last := stream[|stream| - 1];
      About(stream[..|stream| - 1], image) + if last.image == image then [last] else []
  }

  lemma {:induction false} AboutConcat(a: seq<HostCommand>, b: seq<HostCommand>, image: int)
    ensures About(a + b, image) == About(a, image) + About(b, image)
  {
    if b == [] {
      assert a + b == a;
    } else {
      AboutConcat(a, b[..|b| - 1], image);
      assert (a + b)[..|a + b| - 1] == a + b[..|b| - 1];
    }
  }

  lemma {:induction false} AboutOne(stream: seq<HostCommand>, image: int, other: int)
    requires forall c :: c in stream ==> c.image == image
    ensures About(stream, other) == if other == image then stream else []
  {
    if stream != [] {
      AboutOne(stream[..|stream| - 1], image, other);
      assert stream[|stream| - 1] in stream;
    }
  }

  /** What the host shows of an image depends on the commands about that image alone. */
  lemma {:induction false} OnlyAbout(h: Host, stream: seq<HostCommand>, image: int)
    ensures On(Replay(h, stream), image) == On(Replay(h, About(stream, image)), image)
  {
    if stream != [] {
      var front, last := stream[..|stream| - 1], stream[|stream| - 1];
      OnlyAbout(h, front, image);
      if last.image == image {
        ReplayConcat(h, About(front, image), [last]);
        ReplayOne(Replay(h, About(front, image)), last);
        assert On(Apply(Replay(h, front), last), image) == On(Apply(Replay(h, About(front, image)), last), image);
      } else {
        assert About(front, image) + [] == About(front, image);
      }
    }
  }

  lemma {:induction false} ReplayOne(h: Host, c: HostCommand)
    ensures Replay(h, [c]) == Apply(h, c)
  {
    assert [c][..0] == [];
  }

  // ---- agreement -----------------------------------------------------------------------------

  type Placements = map<string, map<int, Placement>>
  type Videos = map<string, map<int, Video>>

  /** What the host should show of a tracked placement: nothing, or the command it was last placed with. */
  function Expected(p: Placement, caps: Caps): map<int, HostCommand> {
    if p.hidden then map[] else map[WithID(p).placementID := PlaceCommand(p, caps)]
  }

  /** Some window has the image. */
  ghost predicate Has<T>(m: map<string, map<int, T>>, image: int) {
    exists w :: Holds(m, w, image)
  }

  /** No two windows share an image. */
  ghost predicate Single<T>(m: map<string, map<int, T>>) {
    forall w, w', i :: Holds(m, w, i) && Holds(m, w', i) ==> w == w'
  }

  /** Host ids are never shared: not by two windows, nor by a placement and a video image. */
  ghost predicate Unique(pl: Placements, vs: Videos) {
    && (forall w, i :: Holds(pl, w, i) ==> pl[w][i].hostID == i && !Has(vs, i))
    && Single(pl) && Single(vs)
  }

  /**
    The host shows exactly the tracked placements that are not hidden, each as the command built
    from its present record, and no image that is neither tracked nor a video image.
   */
  ghost predicate Agrees(h: Host, pl: Placements, vs: Videos, caps: Caps) {
    && Unique(pl, vs)
    && (forall w, i :: Holds(pl, w, i) ==> On(h, i) == Expected(pl[w][i], caps))
    && (forall i: int :: !Has(pl, i) && !Has(vs, i) ==> On(h, i) == map[])
  }

  /** In the host's own terms: a shown image has one placement there, at the cell and of the extent recorded. */
  lemma {:induction false} ShownAtItsPlace(h: Host, pl: Placements, vs: Videos, caps: Caps, w: string, i: int)
    requires Agrees(h, pl, vs, caps) && Holds(pl, w, i)
    ensures pl[w][i].hidden <==> On(h, i) == map[]
    ensures forall id :: id in On(h, i) ==>
              var p, c := pl[w][i], On(h, i)[id];
              && On(h, i).Keys == {id} && id != 0
              && c.Place? && c.image == i && c.placement == id && c.x == p.hostX && c.y == p.hostY
              && c.cols == (if 0 < p.maxCols < p.cols then p.maxCols else p.cols)
              && (p.maxRows > 0 ==> c.rows == p.maxRows) && c.rows >= 1 && c.z == p.zIndex
  {
    var p := pl[w][i];
    assert !p.hidden ==> WithID(p).placementID in On(h, i);
  }

  // ---- the steps are faithful ----------------------------------------------------------------

  /** A step's commands concern its image only, and leave the host showing what its new record says. */
  ghost predicate Faithful(h: Host, image: int, s: Step<Placement>, caps: Caps) {
    && s.next.hostID == image
    && (forall c :: c in s.sent ==> c.image == image)
    && On(Replay(h, s.sent), image) == if s.dropped then map[] else Expected(s.next, caps)
  }

  lemma {:induction false} ReplayTwo(h: Host, c: HostCommand, d: HostCommand)
    ensures Replay(h, [c] + [d]) == Apply(Apply(h, c), d)
  {
    ReplayConcat(h, [c], [d]);
    ReplayOne(h, c);
    ReplayOne(Apply(h, c), d);
  }

  lemma {:induction false} HideIsFaithful(h: Host, p: Placement, caps: Caps)
    requires On(h, p.hostID) == Expected(p, caps)
    ensures Faithful(h, p.hostID, HideOne(p), caps) && HideOne(p).next.hidden
    ensures Faithful(h, p.hostID, HideOne(p).(dropped := true), caps)
  {
    ReplayOne(h, Delete(p.hostID));
  }

  lemma {:induction false} DeleteIsFaithful(h: Host, p: Placement, caps: Caps)
    ensures Faithful(h, p.hostID, Step(p, [Delete(p.hostID)], true), caps)
  {
    ReplayOne(h, Delete(p.hostID));
  }

  /** A refresh of one placement leaves the host showing exactly its new record. */
  lemma {:induction false} RefreshIsFaithful(h: Host, p: Placement, info: WindowInfo, windows: Windows, id: string,
                                             inline: bool, caps: Caps)
    requires On(h, p.hostID) == Expected(p, caps)
    ensures Faithful(h, p.hostID, RefreshOne(p, info, windows, id, inline, caps), caps)
  {
    hide Wanted, SourceOf, VisibleRows, VisibleCols;
    var s := RefreshOne(p, info, windows, id, inline, caps);
    HideIsFaithful(h, p, caps);
    if !p.streaming && info.altScreen == p.onAltScreen && Wanted(p, info, windows, id, inline).Show? &&
       Changes(p, Wanted(p, info, windows, id, inline)) {
      ReplayOne(h, PlaceCommand(s.next, caps));
      assert On(Replay(h, s.sent), p.hostID) == Expected(s.next, caps);
    }
  }

  /** Placing an image that is not shown, or was just deleted, shows it exactly so. */
  lemma {:induction false} PlacingShows(h: Host, q: Placement, caps: Caps)
    requires On(h, q.hostID) == map[] && !q.hidden
    ensures On(Replay(h, [PlaceCommand(q, caps)]), q.hostID) == Expected(q, caps)
    ensures On(Replay(h, [Delete(q.hostID)] + [PlaceCommand(q, caps)]), q.hostID) == Expected(q, caps)
  {
    ReplayOne(h, PlaceCommand(q, caps));
    DeletingHides(h, q, caps);
  }

  lemma {:induction false} DeletingHides(h: Host, q: Placement, caps: Caps)
    ensures On(Replay(h, [Delete(q.hostID)]), q.hostID) == map[]
    ensures !q.hidden ==> On(Replay(h, [Delete(q.hostID)] + [PlaceCommand(q, caps)]), q.hostID) == Expected(q, caps)
  {
    ReplayOne(h, Delete(q.hostID));
    ReplayTwo(h, Delete(q.hostID), PlaceCommand(q, caps));
  }

  lemma {:induction false} ExpectedFacts(h: Host, p: Placement, caps: Caps)
    ensures p.hidden ==> Expected(p, caps) == map[]
    ensures Replay(h, []) == h && PlaceCommand(p, caps).image == p.hostID
  {
  }

  /** So does a window move. */
  lemma {:induction false} MoveIsFaithful(h: Host, p: Placement, newX: int, newY: int, offsetX: int, offsetY: int,
                                          viewportTop: int, viewportRows: int, caps: Caps)
    requires On(h, p.hostID) == Expected(p, caps)
    ensures Faithful(h, p.hostID, MoveOne(p, newX, newY, offsetX, offsetY, viewportTop, viewportRows, caps), caps)
  {
    var q := MoveOne(p, newX, newY, offsetX, offsetY, viewportTop, viewportRows, caps).next;
    DeletingHides(h, q, caps);
    ExpectedFacts(h, p, caps);
    ExpectedFacts(h, q, caps);
    hide On, Replay, Expected, PlaceCommand;
    if p.hidden && !q.hidden {
      PlacingShows(h, q, caps);
      assert [] + [PlaceCommand(q, caps)] == [PlaceCommand(q, caps)];
    }
    assert [Delete(p.hostID)] + [] == [Delete(p.hostID)];
  }

  lemma {:induction false} FreeClears(h: Host, image: int)
    ensures On(Replay(h, [Free(image)]), image) == map[] && On(Replay(h, [Delete(image)]), image) == map[]
  {
    ReplayOne(h, Free(image));
    ReplayOne(h, Delete(image));
  }
}
