/**
  The passthrough at work over a whole session: its methods called one after another, as windows are
  laid out, moved, hidden, cleared and closed and images arrive.
 */
module KittySessions {
  import opened HostIDs
  import opened KittyPlacement
  import opened KittyHost
  import opened KittyProtocol
  import opened KittyRuns
  import opened KittyPassthrough

  /** All that has been sent to the host, or is about to be. */
  function Output(kp: KittyPassthrough): seq<HostCommand>
    reads kp
  {
    kp.hostOut + kp.pendingOutput
  }

  method Operate(kp: KittyPassthrough, op: Operation) returns (ghost sent: seq<HostCommand>)
    requires kp.Agreed()
    modifies kp
    ensures kp.Agreed() && kp.Now() == Happen(Do(op), old(kp.Now()), kp.Cfg())
    ensures Sends(sent, op, old(kp.Tracked()), kp.Cfg()) && Output(kp) == old(Output(kp)) + sent
  {
    hide Agrees, Sends, After;
    ghost var before, pending := kp.hostOut, kp.pendingOutput;
    match op
    case Refresh(windows) => sent := kp.RefreshAllPlacements(windows);
    case Move(w, newX, newY, offsetX, offsetY, viewportTop, viewportRows) =>
      sent := kp.OnWindowMove(w, newX, newY, offsetX, offsetY, viewportTop, 0, viewportRows);
    case HideAll => sent := kp.HideAllPlacements();
    case Clear(w) => sent := kp.ClearWindow(w);
    case Close(w) => sent := kp.OnWindowClose(w);
    Joined(before, pending, sent);
  }

  /** One event: an operation, or an image newly tracked. */
  method React(kp: KittyPassthrough, e: Event) returns (ghost sent: seq<HostCommand>)
    requires kp.Agreed() && Allocated(kp.Now())
    requires e.Track? ==> Vacant(kp.Now(), e.window, e.guest)
    modifies kp
    ensures kp.Agreed() && kp.Now() == Happen(e, old(kp.Now()), kp.Cfg())
    ensures Asks(sent, e, old(kp.Now()), kp.Cfg()) && Output(kp) == old(Output(kp)) + sent
  {
    match e
    case Do(op) => sent := Operate(kp, op);
    case Track(w, guest, image) =>
      var id := kp.Track(w, guest, image);
      sent := [];
  }

  /** Events one after another, with ids free whenever images are tracked: the host stays in agreement. */
  method ReactToAll(kp: KittyPassthrough, events: seq<Event>) returns (ghost sent: seq<seq<HostCommand>>)
    requires kp.Agreed() && Allocated(kp.Now()) && kp.nextHostID + |events| < ID_LIMIT
    requires Orderly(events, kp.Now(), kp.Cfg())
    modifies kp
    ensures kp.Agreed() && kp.Now() == WorldAfter(events, old(kp.Now()), kp.Cfg())
    ensures Run(events, sent, old(kp.Now()), kp.Cfg()) && Output(kp) == old(Output(kp)) + Stream(sent)
    decreases |events|
  {
    if events == [] {
      return [];
    }
    hide Allocated, Agrees, Asks, Vacant, Happen;
    ghost var world, before := kp.Now(), Output(kp);
    EventKeepsAllocated(events[0], world, kp.Cfg());
    ghost var first := React(kp, events[0]);
    ghost var rest := ReactToAll(kp, events[1..]);
    Joined(before, first, Stream(rest));
    sent := [first] + rest;
    assert sent[1..] == rest;
  }

  /** A whole session: once everything is written out, the host shows exactly what is tracked and not hidden. */
  method Session(enabled: bool, inlineGraphics: bool, caps: Caps, events: seq<Event>) returns (kp: KittyPassthrough)
    requires Orderly(events, Start(), Config(enabled, inlineGraphics, caps)) && |events| < ID_LIMIT - 1
    ensures fresh(kp) && kp.Now() == WorldAfter(events, Start(), Config(enabled, inlineGraphics, caps))
    ensures Agrees(Replay(map[], kp.hostOut), kp.placements, kp.remoteVideo, caps)
  {
    hide Agrees, Allocated, Orderly, WorldAfter;
    kp := new KittyPassthrough(enabled, inlineGraphics, caps);
    var sent := ReactToAll(kp, events);
    kp.FlushToHost();
    assert kp.hostOut + kp.pendingOutput == kp.hostOut;
  }
}
