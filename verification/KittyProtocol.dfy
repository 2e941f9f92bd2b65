/**
  The placement protocol: what is tracked of every window's images, and what each operation does to
  it and asks of the host, as functions of the state. KittyPassthrough runs it.
 */
module KittyProtocol {
  import opened Common
  import opened HostIDs
  import opened KittyPlacement
  import opened KittyHost

  type Sizes = map<string, (int, int)>

  // ---- what a refresh does, as a function of the state ----------------------------------------

  /** The tracked state: placements, self-placing video images, and the size each window was last laid out at. */
  datatype State = State(placements: Placements, videos: Videos, freeze: Sizes)

  function Size(info: WindowInfo): (int, int) { (info.width, info.height) }

  /** In the middle of an interactive resize the window's images are held as they are. */
  predicate Frozen(freeze: Sizes, windows: Windows, w: string) {
    w in windows && windows[w].manipulated && w in freeze && freeze[w] != Size(windows[w])
  }

  /** The window has something to lay out. */
  predicate Marked(s: State, w: string) {
    (w in s.placements && s.placements[w] != map[]) || w in s.videos
  }

  function RefreshedPane(m: map<int, Placement>, info: WindowInfo, windows: Windows, w: string,
                         inline: bool, caps: Caps): map<int, Placement>
  {
    map i | i in m && !RefreshOne(m[i], info, windows, w, inline, caps).dropped ::
      RefreshOne(m[i], info, windows, w, inline, caps).next
  }

  /** A refresh of one video image of a window that is not held; if the window is gone, the image goes too. */
  function VideoVisit(i: int, v: Video, windows: Windows, w: string): Step<Video> {
    if w !in windows then Step(v, [Delete(i)], true) else RefreshVideo(i, v, windows[w], windows, w)
  }

  function RefreshedVideoPane(m: map<int, Video>, windows: Windows, w: string): map<int, Video> {
    map i | i in m && !VideoVisit(i, m[i], windows, w).dropped :: VideoVisit(i, m[i], windows, w).next
  }

  /** A window's video images after the refresh. */
  function VideosOf(s: State, windows: Windows, w: string): map<int, Video>
    requires w in s.videos
  {
    if Frozen(s.freeze, windows, w) then s.videos[w] else RefreshedVideoPane(s.videos[w], windows, w)
  }

  predicate KeepsVideos(s: State, windows: Windows, w: string)
    requires w in s.videos
  {
    Frozen(s.freeze, windows, w) || VideosOf(s, windows, w) != map[]
  }

  function PlacementsOf(s: State, windows: Windows, w: string, inline: bool, caps: Caps): map<int, Placement>
    requires w in s.placements
  {
    if s.placements[w] == map[] || w !in windows || Frozen(s.freeze, windows, w) then s.placements[w]
    else RefreshedPane(s.placements[w], windows[w], windows, w, inline, caps)
  }

  predicate KeepsPlacements(s: State, windows: Windows, w: string)
    requires w in s.placements
  {
    s.placements[w] == map[] || w in windows
  }

  /** The sizes laid out at: every window with images, unless held. */
  function MarkedSizes(s: State, windows: Windows): Sizes {
    map w | w in s.freeze.Keys + s.placements.Keys + s.videos.Keys
            && (w in s.freeze || (Marked(s, w) && w in windows)) ::
      if w in s.freeze && !(Marked(s, w) && w in windows && !Frozen(s.freeze, windows, w)) then s.freeze[w]
      else Size(windows[w])
  }

  /** The window's images are all gone, and with them the size they were laid out at. */
  predicate ForgottenWithVideos(s: State, windows: Windows, w: string) {
    w in s.videos && !KeepsVideos(s, windows, w) && (w in s.placements ==> s.placements[w] == map[])
  }

  predicate ForgottenWithPlacements(s: State, windows: Windows, w: string) {
    w in s.placements && !KeepsPlacements(s, windows, w)
  }

  predicate ForgetsSize(s: State, windows: Windows, w: string) {
    ForgottenWithVideos(s, windows, w) || ForgottenWithPlacements(s, windows, w)
  }

  function Refreshed(s: State, windows: Windows, inline: bool, caps: Caps): State {
    var sizes := MarkedSizes(s, windows);
    State(
      map w | w in s.placements && KeepsPlacements(s, windows, w) :: PlacementsOf(s, windows, w, inline, caps),
      map w | w in s.videos && KeepsVideos(s, windows, w) :: VideosOf(s, windows, w),
      map w | w in sizes && !ForgetsSize(s, windows, w) :: sizes[w])
  }

  /** A refresh of this state would send nothing. */
  predicate Quiet(s: State, windows: Windows, inline: bool, caps: Caps) {
    && (forall w :: w in s.placements ==> forall i :: i in s.placements[w] ==>
         if w !in windows then s.placements[w][i].hidden
         else !Frozen(s.freeze, windows, w) ==>
                RefreshOne(s.placements[w][i], windows[w], windows, w, inline, caps).sent == [])
    && (forall w :: w in s.videos ==> forall i :: i in s.videos[w] ==>
         !Frozen(s.freeze, windows, w) ==> VideoVisit(i, s.videos[w][i], windows, w).sent == [])
  }

  lemma {:induction false} PaneSettles(m: map<int, Placement>, info: WindowInfo, windows: Windows, w: string,
                                       inline: bool, caps: Caps)
    ensures var m' := RefreshedPane(m, info, windows, w, inline, caps);
            && (forall i :: i in m' ==> RefreshOne(m'[i], info, windows, w, inline, caps) == Step(m'[i], [], false))
            && RefreshedPane(m', info, windows, w, inline, caps) == m'
  {
    var m' := RefreshedPane(m, info, windows, w, inline, caps);
    forall i | i in m'
      ensures RefreshOne(m'[i], info, windows, w, inline, caps) == Step(m'[i], [], false)
    {
      RefreshOneSettles(m[i], info, windows, w, inline, caps);
    }
  }

  lemma {:induction false} VideoPaneSettles(m: map<int, Video>, windows: Windows, w: string)
    ensures var m' := RefreshedVideoPane(m, windows, w);
            && (forall i :: i in m' ==> VideoVisit(i, m'[i], windows, w) == Step(m'[i], [], false))
            && RefreshedVideoPane(m', windows, w) == m'
  {
    var m' := RefreshedVideoPane(m, windows, w);
    forall i | i in m'
      ensures VideoVisit(i, m'[i], windows, w) == Step(m'[i], [], false)
    {
      RefreshVideoSettles(i, m[i], windows[w], windows, w);
    }
  }

  /** A window that is held stays held, one that is not stays free. */
  lemma {:induction false} FrozenStays(s: State, windows: Windows, inline: bool, caps: Caps, w: string)
    requires Marked(s, w)
    ensures Frozen(Refreshed(s, windows, inline, caps).freeze, windows, w) <==> Frozen(s.freeze, windows, w)
  {
  }

  lemma {:induction false} PlacementsSettle(s: State, windows: Windows, inline: bool, caps: Caps, w: string)
    requires w in Refreshed(s, windows, inline, caps).placements
    ensures var s' := Refreshed(s, windows, inline, caps);
            && KeepsPlacements(s', windows, w) && PlacementsOf(s', windows, w, inline, caps) == s'.placements[w]
            && forall i :: i in s'.placements[w] ==>
                 w in windows && (!Frozen(s'.freeze, windows, w) ==>
                   RefreshOne(s'.placements[w][i], windows[w], windows, w, inline, caps).sent == [])
  {
    if s.placements[w] != map[] {
      FrozenStays(s, windows, inline, caps, w);
      PaneSettles(s.placements[w], windows[w], windows, w, inline, caps);
    }
  }

  lemma {:induction false} VideosSettle(s: State, windows: Windows, inline: bool, caps: Caps, w: string)
    requires w in Refreshed(s, windows, inline, caps).videos
    ensures var s' := Refreshed(s, windows, inline, caps);
            && KeepsVideos(s', windows, w) && VideosOf(s', windows, w) == s'.videos[w]
            && forall i :: i in s'.videos[w] ==>
                 !Frozen(s'.freeze, windows, w) ==> VideoVisit(i, s'.videos[w][i], windows, w).sent == []
  {
    FrozenStays(s, windows, inline, caps, w);
    VideoPaneSettles(s.videos[w], windows, w);
  }

  lemma {:induction false} NothingForgottenAgain(s: State, windows: Windows, inline: bool, caps: Caps, w: string)
    ensures !ForgetsSize(Refreshed(s, windows, inline, caps), windows, w)
  {
    var s' := Refreshed(s, windows, inline, caps);
    if w in s'.placements {
      PlacementsSettle(s, windows, inline, caps, w);
    }
    if w in s'.videos {
      VideosSettle(s, windows, inline, caps, w);
    }
  }

  lemma {:induction false} MarkedAgain(s: State, windows: Windows, inline: bool, caps: Caps, w: string)
    requires Marked(Refreshed(s, windows, inline, caps), w)
    ensures Marked(s, w) && w in windows && w in MarkedSizes(s, windows) && !ForgetsSize(s, windows, w)
  {
    hide RefreshVideo, RefreshOne;
    var s' := Refreshed(s, windows, inline, caps);
    if w in s'.videos {
      assert KeepsVideos(s, windows, w);
    }
  }

  lemma {:induction false} SizesSettle(s: State, windows: Windows, inline: bool, caps: Caps, w: string)
    ensures var s' := Refreshed(s, windows, inline, caps);
            && (w in MarkedSizes(s', windows) <==> w in s'.freeze)
            && (w in s'.freeze ==> MarkedSizes(s', windows)[w] == s'.freeze[w])
  {
    var s' := Refreshed(s, windows, inline, caps);
    if Marked(s', w) {
      MarkedAgain(s, windows, inline, caps, w);
      FrozenStays(s, windows, inline, caps, w);
    }
  }

  lemma {:induction false} QuietAfter(s: State, windows: Windows, inline: bool, caps: Caps)
    ensures Quiet(Refreshed(s, windows, inline, caps), windows, inline, caps)
  {
    var s' := Refreshed(s, windows, inline, caps);
    forall w | w in s'.placements
      ensures forall i :: i in s'.placements[w] ==>
                w in windows && (!Frozen(s'.freeze, windows, w) ==>
                  RefreshOne(s'.placements[w][i], windows[w], windows, w, inline, caps).sent == [])
    {
      PlacementsSettle(s, windows, inline, caps, w);
    }
    forall w | w in s'.videos
      ensures forall i :: i in s'.videos[w] ==>
                !Frozen(s'.freeze, windows, w) ==> VideoVisit(i, s'.videos[w][i], windows, w).sent == []
    {
      VideosSettle(s, windows, inline, caps, w);
    }
  }

  lemma {:induction false} PlacementsUnchanged(s: State, windows: Windows, inline: bool, caps: Caps)
    ensures var s' := Refreshed(s, windows, inline, caps);
            Refreshed(s', windows, inline, caps).placements == s'.placements
  {
    var s' := Refreshed(s, windows, inline, caps);
    forall w | w in s'.placements
      ensures KeepsPlacements(s', windows, w) && PlacementsOf(s', windows, w, inline, caps) == s'.placements[w]
    {
      PlacementsSettle(s, windows, inline, caps, w);
    }
  }

  lemma {:induction false} VideosUnchanged(s: State, windows: Windows, inline: bool, caps: Caps)
    ensures var s' := Refreshed(s, windows, inline, caps);
            Refreshed(s', windows, inline, caps).videos == s'.videos
  {
    hide RefreshVideo, MarkedSizes, PlacementsOf, KeepsPlacements, ForgetsSize;
    var s' := Refreshed(s, windows, inline, caps);
    forall w | w in s'.videos
      ensures KeepsVideos(s', windows, w) && VideosOf(s', windows, w) == s'.videos[w]
    {
      VideosSettle(s, windows, inline, caps, w);
    }
  }

  lemma {:induction false} SizesUnchanged(s: State, windows: Windows, inline: bool, caps: Caps)
    ensures var s' := Refreshed(s, windows, inline, caps);
            Refreshed(s', windows, inline, caps).freeze == s'.freeze
  {
    var s' := Refreshed(s, windows, inline, caps);
    var s'' := Refreshed(s', windows, inline, caps);
    forall w: string
      ensures w in s''.freeze <==> w in s'.freeze
      ensures w in s'.freeze ==> s''.freeze[w] == s'.freeze[w]
    {
      SizesSettle(s, windows, inline, caps, w);
      NothingForgottenAgain(s, windows, inline, caps, w);
    }
  }

  /**
    Refreshing twice is refreshing once: over the same windows a second refresh sends nothing and
    changes no placement, no video image and no size.
   */
  lemma {:induction false} RefreshIsQuiescent(s: State, windows: Windows, inline: bool, caps: Caps)
    ensures var s' := Refreshed(s, windows, inline, caps);
            Quiet(s', windows, inline, caps) && Refreshed(s', windows, inline, caps) == s'
  {
    QuietAfter(s, windows, inline, caps);
    PlacementsUnchanged(s, windows, inline, caps);
    VideosUnchanged(s, windows, inline, caps);
    SizesUnchanged(s, windows, inline, caps);
  }

  // ---- the operations ------------------------------------------------------------------------

  /** Fixed at start-up. An inline host clips and hides images itself. */
  datatype Config = Config(enabled: bool, inline: bool, caps: Caps)

  datatype Operation =
    | Refresh(windows: Windows)
    | Move(window: string, newX: int, newY: int, offsetX: int, offsetY: int, viewportTop: int, viewportRows: int)
    | HideAll
    | Clear(window: string)
    | Close(window: string)

  /** Whether the operation does anything at all on this host. */
  predicate Runs(op: Operation, cfg: Config) {
    match op
    case HideAll => !cfg.inline
    case Move(_, _, _, _, _, _, _) => cfg.enabled && !cfg.inline
    case _ => cfg.enabled
  }

  /** What an operation does to one tracked placement, and the commands it sends about it. */
  function PlacementStep(op: Operation, s: State, cfg: Config, w: string, i: int): Step<Placement>
    requires Holds(s.placements, w, i)
  {
    var p := s.placements[w][i];
    if !Runs(op, cfg) then Step(p, [], false)
    else
      match op
      case Refresh(windows) =>
        if w !in windows then HideOne(p).(dropped := true)
        else if Frozen(s.freeze, windows, w) then Step(p, [], false)
        else RefreshOne(p, windows[w], windows, w, cfg.inline, cfg.caps)
      case Move(v, newX, newY, offsetX, offsetY, viewportTop, viewportRows) =>
        if v == w then MoveOne(p, newX, newY, offsetX, offsetY, viewportTop, viewportRows, cfg.caps)
        else Step(p, [], false)
      case HideAll => HideOne(p)
      case Clear(v) => if v == w then Step(p, [Delete(p.hostID)], true) else Step(p, [], false)
      case Close(v) => if v == w then Step(p, [Delete(p.hostID)], true) else Step(p, [], false)
  }

  function VideoStep(op: Operation, s: State, cfg: Config, w: string, i: int): Step<Video>
    requires Holds(s.videos, w, i)
  {
    var v := s.videos[w][i];
    if !Runs(op, cfg) then Step(v, [], false)
    else
      match op
      case Refresh(windows) =>
        if Frozen(s.freeze, windows, w) then Step(v, [], false) else VideoVisit(i, v, windows, w)
      case Move(_, _, _, _, _, _, _) => Step(v, [], false)
      case HideAll => Step(v, [], false)
      case Clear(x) => if x == w then Step(v, [Free(i)], true) else Step(v, [], false)
      case Close(x) => if x == w then Step(v, [Free(i)], true) else Step(v, [], false)
  }

  function MovedPane(op: Operation, s: State, cfg: Config): map<int, Placement>
    requires op.Move? && op.window in s.placements
  {
    map i | i in s.placements[op.window] :: PlacementStep(op, s, cfg, op.window, i).next
  }

  function HiddenPane(m: map<int, Placement>): map<int, Placement> {
    map i | i in m :: m[i].(hidden := true)
  }

  /** The state after an operation. */
  function After(op: Operation, s: State, cfg: Config): State {
    if !Runs(op, cfg) then s
    else
      match op
      case Refresh(windows) => Refreshed(s, windows, cfg.inline, cfg.caps)
      case Move(w, _, _, _, _, _, _) =>
        if w in s.placements then s.(placements := s.placements[w := MovedPane(op, s, cfg)]) else s
      case HideAll => s.(placements := map w | w in s.placements :: HiddenPane(s.placements[w]))
      case Clear(w) => s.(placements := s.placements[w := map[]], videos := s.videos - {w})
      case Close(w) => s.(placements := s.placements - {w}, videos := s.videos - {w})
  }

  /** The commands sent: about each tracked image what its step says, in that order, and nothing else. */
  ghost predicate Sends(sent: seq<HostCommand>, op: Operation, s: State, cfg: Config) {
    && (forall w, i :: Holds(s.placements, w, i) ==> About(sent, i) == PlacementStep(op, s, cfg, w, i).sent)
    && (forall w, i :: Holds(s.videos, w, i) ==> About(sent, i) == VideoStep(op, s, cfg, w, i).sent)
    && (forall i: int :: !Has(s.placements, i) && !Has(s.videos, i) ==> About(sent, i) == [])
  }

  // ---- every operation keeps the host in agreement --------------------------------------------

  /** The state after is made of the steps. */
  lemma {:induction false} AfterPlacements(op: Operation, s: State, cfg: Config, w: string, i: int)
    ensures Holds(After(op, s, cfg).placements, w, i) <==>
              Holds(s.placements, w, i) && !PlacementStep(op, s, cfg, w, i).dropped
    ensures Holds(After(op, s, cfg).placements, w, i) ==>
              After(op, s, cfg).placements[w][i] == PlacementStep(op, s, cfg, w, i).next
  {
    hide RefreshOne, MarkedSizes, VideosOf, KeepsVideos, ForgetsSize, VideoStep;
  }

  lemma {:induction false} AfterVideos(op: Operation, s: State, cfg: Config, w: string, i: int)
    ensures Holds(After(op, s, cfg).videos, w, i) <==>
              Holds(s.videos, w, i) && !VideoStep(op, s, cfg, w, i).dropped
    ensures Holds(After(op, s, cfg).videos, w, i) ==>
              After(op, s, cfg).videos[w][i] == VideoStep(op, s, cfg, w, i).next
  {
    hide RefreshVideo, MarkedSizes, PlacementsOf, KeepsPlacements, ForgetsSize, PlacementStep;
    if op.Refresh? && Runs(op, cfg) && Holds(s.videos, w, i) && !VideoStep(op, s, cfg, w, i).dropped {
      assert i in VideosOf(s, op.windows, w);
      assert KeepsVideos(s, op.windows, w);
    }
  }

  /** Each step on a placement that the host shows as recorded leaves it shown as recorded. */
  lemma {:induction false} StepIsFaithful(op: Operation, s: State, cfg: Config, w: string, i: int, h: Host)
    requires Holds(s.placements, w, i) && s.placements[w][i].hostID == i
    requires On(h, i) == Expected(s.placements[w][i], cfg.caps)
    ensures Faithful(h, i, PlacementStep(op, s, cfg, w, i), cfg.caps)
  {
    var p := s.placements[w][i];
    HideIsFaithful(h, p, cfg.caps);
    DeleteIsFaithful(h, p, cfg.caps);
    match op
    case Refresh(windows) =>
      if w in windows {
        RefreshIsFaithful(h, p, windows[w], windows, w, cfg.inline, cfg.caps);
      }
    case Move(_, newX, newY, offsetX, offsetY, viewportTop, viewportRows) =>
      MoveIsFaithful(h, p, newX, newY, offsetX, offsetY, viewportTop, viewportRows, cfg.caps);
    case _ =>
  }

  /** A video image is forgotten only when the host no longer shows it. */
  lemma {:induction false} DroppedVideoIsGone(op: Operation, s: State, cfg: Config, w: string, i: int, h: Host)
    requires Holds(s.videos, w, i) && VideoStep(op, s, cfg, w, i).dropped
    ensures On(Replay(h, VideoStep(op, s, cfg, w, i).sent), i) == map[]
  {
    FreeClears(h, i);
  }

  lemma {:induction false} KeepsUnique(op: Operation, s: State, cfg: Config, h: Host)
    requires Agrees(h, s.placements, s.videos, cfg.caps)
    ensures Unique(After(op, s, cfg).placements, After(op, s, cfg).videos)
  {
    hide After, PlacementStep, VideoStep;
    var t := After(op, s, cfg);
    forall w: string, i: int
      ensures Holds(t.placements, w, i) ==> Holds(s.placements, w, i) && t.placements[w][i].hostID == i
      ensures Holds(t.videos, w, i) ==> Holds(s.videos, w, i)
    {
      AfterPlacements(op, s, cfg, w, i);
      AfterVideos(op, s, cfg, w, i);
      if Holds(s.placements, w, i) {
        StepIsFaithful(op, s, cfg, w, i, h);
      }
    }
  }

  /** What the host shows afterwards of an image tracked before, as a placement or as a video. */
  lemma {:induction false} ShownAfter(op: Operation, s: State, cfg: Config, h: Host, sent: seq<HostCommand>, w: string,
                                      i: int)
    requires Agrees(h, s.placements, s.videos, cfg.caps) && Sends(sent, op, s, cfg)
    ensures Holds(s.placements, w, i) ==>
              On(Replay(h, sent), i) ==
                if PlacementStep(op, s, cfg, w, i).dropped then map[]
                else Expected(PlacementStep(op, s, cfg, w, i).next, cfg.caps)
    ensures Holds(s.videos, w, i) && VideoStep(op, s, cfg, w, i).dropped ==> On(Replay(h, sent), i) == map[]
  {
    OnlyAbout(h, sent, i);
    if Holds(s.placements, w, i) {
      StepIsFaithful(op, s, cfg, w, i, h);
    }
    if Holds(s.videos, w, i) && VideoStep(op, s, cfg, w, i).dropped {
      DroppedVideoIsGone(op, s, cfg, w, i, h);
    }
  }

  /**
    Whatever the order in which an operation visits the images, it keeps the agreement: the host then
    shows exactly the tracked placements not marked hidden, each as its new record says.
   */
  lemma {:induction false} StepAgrees(op: Operation, s: State, cfg: Config, h: Host, sent: seq<HostCommand>)
    requires Agrees(h, s.placements, s.videos, cfg.caps) && Sends(sent, op, s, cfg)
    ensures Agrees(Replay(h, sent), After(op, s, cfg).placements, After(op, s, cfg).videos, cfg.caps)
  {
    var t, h' := After(op, s, cfg), Replay(h, sent);
    KeepsUnique(op, s, cfg, h);
    forall w: string, i: int | Holds(t.placements, w, i)
      ensures On(h', i) == Expected(t.placements[w][i], cfg.caps)
    {
      AfterPlacements(op, s, cfg, w, i);
      ShownAfter(op, s, cfg, h, sent, w, i);
    }
    forall i: int | !Has(t.placements, i) && !Has(t.videos, i)
      ensures On(h', i) == map[]
    {
      GoneAfter(op, s, cfg, h, sent, i);
    }
  }

  lemma {:induction false} GoneAfter(op: Operation, s: State, cfg: Config, h: Host, sent: seq<HostCommand>, i: int)
    requires Agrees(h, s.placements, s.videos, cfg.caps) && Sends(sent, op, s, cfg)
    requires !Has(After(op, s, cfg).placements, i) && !Has(After(op, s, cfg).videos, i)
    ensures On(Replay(h, sent), i) == map[]
  {
    var t := After(op, s, cfg);
    if Has(s.placements, i) {
      var w :| Holds(s.placements, w, i);
      AfterPlacements(op, s, cfg, w, i);
      assert !Holds(t.placements, w, i);
      ShownAfter(op, s, cfg, h, sent, w, i);
    } else if Has(s.videos, i) {
      var w :| Holds(s.videos, w, i);
      AfterVideos(op, s, cfg, w, i);
      assert !Holds(t.videos, w, i);
      ShownAfter(op, s, cfg, h, sent, w, i);
    } else {
      OnlyAbout(h, sent, i);
    }
  }

  /** The same, for the stream sent so far, with the operation's commands at its end. */
  lemma {:induction false} StreamAgrees(op: Operation, s: State, cfg: Config, stream: seq<HostCommand>,
                                        sent: seq<HostCommand>)
    requires Agrees(Replay(map[], stream), s.placements, s.videos, cfg.caps) && Sends(sent, op, s, cfg)
    ensures Agrees(Replay(map[], stream + sent), After(op, s, cfg).placements, After(op, s, cfg).videos, cfg.caps)
  {
    ReplayConcat(map[], stream, sent);
    StepAgrees(op, s, cfg, Replay(map[], stream), sent);
  }

  /** A quiet refresh sends no command at all. */
  lemma {:induction false} QuietSendsNothing(s: State, windows: Windows, cfg: Config, sent: seq<HostCommand>)
    requires Quiet(s, windows, cfg.inline, cfg.caps) && Sends(sent, Refresh(windows), s, cfg)
    ensures sent == []
  {
    assert sent != [] ==> About(sent, sent[|sent| - 1].image) != [];
  }

  // ---- who is affected -------------------------------------------------------------------------

  /** What becomes of a tracked placement, in the state and on the wire. */
  ghost predicate Becomes(op: Operation, s: State, cfg: Config, sent: seq<HostCommand>, w: string, i: int,
                          next: Option<Placement>, commands: seq<HostCommand>)
  {
    var t := After(op, s, cfg).placements;
    About(sent, i) == commands && if Holds(t, w, i) then next == Some(t[w][i]) else next == None
  }

  ghost predicate VideoBecomes(op: Operation, s: State, cfg: Config, sent: seq<HostCommand>, w: string, i: int,
                               next: Option<Video>, commands: seq<HostCommand>)
  {
    var t := After(op, s, cfg).videos;
    About(sent, i) == commands && if Holds(t, w, i) then next == Some(t[w][i]) else next == None
  }

  lemma {:induction false} BecomesItsStep(op: Operation, s: State, cfg: Config, sent: seq<HostCommand>, w: string,
                                          i: int)
    requires Sends(sent, op, s, cfg)
    ensures Holds(s.placements, w, i) ==>
              var step := PlacementStep(op, s, cfg, w, i);
              Becomes(op, s, cfg, sent, w, i, if step.dropped then None else Some(step.next), step.sent)
    ensures Holds(s.videos, w, i) ==>
              var step := VideoStep(op, s, cfg, w, i);
              VideoBecomes(op, s, cfg, sent, w, i, if step.dropped then None else Some(step.next), step.sent)
  {
    AfterPlacements(op, s, cfg, w, i);
    AfterVideos(op, s, cfg, w, i);
    hide After, PlacementStep, VideoStep;
  }

  /** The window is being resized by hand, and its size is no longer the one its images were laid out at. */
  predicate MidResize(s: State, info: WindowInfo, w: string) {
    info.manipulated && w in s.freeze && (s.freeze[w].0 != info.width || s.freeze[w].1 != info.height)
  }

  /**
    A refresh leaves a window's images alone exactly while it is in the middle of a resize by hand; every
    other window's are laid out anew, and those of a window that is gone are deleted.
   */
  lemma {:induction false} RefreshLaysOut(s: State, windows: Windows, cfg: Config, sent: seq<HostCommand>, w: string,
                                          i: int)
    requires cfg.enabled && Sends(sent, Refresh(windows), s, cfg)
    ensures Holds(s.placements, w, i) ==>
              var p := s.placements[w][i];
              if w !in windows then
                Becomes(Refresh(windows), s, cfg, sent, w, i, None, if p.hidden then [] else [Delete(p.hostID)])
              else if MidResize(s, windows[w], w) then Becomes(Refresh(windows), s, cfg, sent, w, i, Some(p), [])
              else
                var step := RefreshOne(p, windows[w], windows, w, cfg.inline, cfg.caps);
                Becomes(Refresh(windows), s, cfg, sent, w, i, if step.dropped then None else Some(step.next), step.sent)
    ensures Holds(s.videos, w, i) ==>
              var v := s.videos[w][i];
              if w !in windows then VideoBecomes(Refresh(windows), s, cfg, sent, w, i, None, [Delete(i)])
              else if MidResize(s, windows[w], w) then VideoBecomes(Refresh(windows), s, cfg, sent, w, i, Some(v), [])
              else
                var step := RefreshVideo(i, v, windows[w], windows, w);
                VideoBecomes(Refresh(windows), s, cfg, sent, w, i, if step.dropped then None else Some(step.next),
                             step.sent)
  {
    BecomesItsStep(Refresh(windows), s, cfg, sent, w, i);
    hide After, RefreshOne, RefreshVideo, Becomes, VideoBecomes;
  }

  /**
    A refresh records the size of every window it lays out, keeps that of a window it holds or that has
    no images, and forgets that of a window which is gone or has lost its last video images.
   */
  lemma {:induction false} RefreshRecordsSizes(s: State, windows: Windows, cfg: Config, w: string)
    requires cfg.enabled
    ensures var t := After(Refresh(windows), s, cfg);
            var placed := w in s.placements && s.placements[w] != map[];
            if !placed && w !in s.videos then
              (w in t.freeze <==> w in s.freeze) && (w in s.freeze ==> t.freeze[w] == s.freeze[w])
            else if w !in windows || (!placed && w !in t.videos) then w !in t.freeze
            else w in t.freeze && t.freeze[w] == if MidResize(s, windows[w], w) then s.freeze[w]
                                                 else (windows[w].width, windows[w].height)
  {
  }

  /** A window that moves takes its own placements with it, on a native host only, and nothing else. */
  lemma {:induction false} MoveMovesItsOwn(op: Operation, s: State, cfg: Config, sent: seq<HostCommand>, w: string,
                                           i: int)
    requires op.Move? && Sends(sent, op, s, cfg)
    ensures Holds(s.placements, w, i) ==>
              var p := s.placements[w][i];
              if op.window == w && cfg.enabled && !cfg.inline then
                var step := MoveOne(p, op.newX, op.newY, op.offsetX, op.offsetY, op.viewportTop, op.viewportRows,
                                    cfg.caps);
                Becomes(op, s, cfg, sent, w, i, Some(step.next), step.sent)
              else Becomes(op, s, cfg, sent, w, i, Some(p), [])
    ensures Holds(s.videos, w, i) ==> VideoBecomes(op, s, cfg, sent, w, i, Some(s.videos[w][i]), [])
    ensures After(op, s, cfg).freeze == s.freeze
  {
    BecomesItsStep(op, s, cfg, sent, w, i);
    hide After, Becomes, VideoBecomes;
  }

  /** Hiding is for the hosts that keep images on the screen themselves; there it takes every placement off. */
  lemma {:induction false} HideAllHidesAll(s: State, cfg: Config, sent: seq<HostCommand>, w: string, i: int)
    requires Sends(sent, HideAll, s, cfg)
    ensures Holds(s.placements, w, i) ==>
              var p := s.placements[w][i];
              if cfg.inline then Becomes(HideAll, s, cfg, sent, w, i, Some(p), [])
              else
                Becomes(HideAll, s, cfg, sent, w, i, Some(p.(hidden := true)),
                        if p.hidden then [] else [Delete(p.hostID)])
    ensures Holds(s.videos, w, i) ==> VideoBecomes(HideAll, s, cfg, sent, w, i, Some(s.videos[w][i]), [])
    ensures After(HideAll, s, cfg).freeze == s.freeze
  {
    BecomesItsStep(HideAll, s, cfg, sent, w, i);
    hide After, Becomes, VideoBecomes;
  }

  /** A window cleared or closed loses all its images, hidden or not, and no other window loses any. */
  lemma {:induction false} ClearTakesItsOwn(op: Operation, s: State, cfg: Config, sent: seq<HostCommand>, w: string,
                                            i: int)
    requires (op.Clear? || op.Close?) && Sends(sent, op, s, cfg)
    ensures Holds(s.placements, w, i) ==>
              if op.window == w && cfg.enabled then
                Becomes(op, s, cfg, sent, w, i, None, [Delete(s.placements[w][i].hostID)])
              else Becomes(op, s, cfg, sent, w, i, Some(s.placements[w][i]), [])
    ensures Holds(s.videos, w, i) ==>
              if op.window == w && cfg.enabled then VideoBecomes(op, s, cfg, sent, w, i, None, [Free(i)])
              else VideoBecomes(op, s, cfg, sent, w, i, Some(s.videos[w][i]), [])
    ensures After(op, s, cfg).freeze == s.freeze
  {
    BecomesItsStep(op, s, cfg, sent, w, i);
    hide Becomes, VideoBecomes;
  }
}
