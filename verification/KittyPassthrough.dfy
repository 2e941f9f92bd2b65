/**
  The image passthrough at work: its tables, and the operations that walk them, mutate the records
  and append commands to the pending output. Every operation is proved to make exactly the state
  and to send exactly the commands that KittyProtocol says, and so to keep the host in agreement.
 */
module KittyPassthrough {
  import opened HostIDs
  import opened KittyPlacement
  import opened KittyHost
  import opened KittyProtocol
  import opened KittyStream
  import opened KittyRuns

  // ---- what the loops of a refresh have done part of the way --------------------------------

  /** The sizes once the windows in `done` have been marked. */
  ghost predicate SizesMarked(sizes: Sizes, before: Sizes, windows: Windows, done: set<string>) {
    && (forall w :: w in sizes <==> w in before || (w in done && w in windows))
    && (forall w :: w in sizes ==>
          sizes[w] == if w in done && w in windows && !Frozen(before, windows, w) then Size(windows[w]) else before[w])
  }

  ghost predicate FrozenMarked(frozen: map<string, bool>, before: Sizes, windows: Windows, done: set<string>) {
    && (forall w :: w in frozen <==> w in done && w in windows)
    && (forall w :: w in frozen ==> frozen[w] == Frozen(before, windows, w))
  }

  ghost predicate VideosRefreshed(now: Videos, s: State, todo: set<string>, windows: Windows) {
    && (forall w :: w in now <==> w in s.videos && (w in todo || KeepsVideos(s, windows, w)))
    && (forall w :: w in now ==> now[w] == if w in todo then s.videos[w] else VideosOf(s, windows, w))
  }

  /** The sizes forgotten while the video images were refreshed. */
  ghost predicate SizesAfterVideos(now: Sizes, s: State, todo: set<string>, windows: Windows) {
    var sizes := MarkedSizes(s, windows);
    && (forall w :: w in now <==> w in sizes && (ForgottenWithVideos(s, windows, w) ==> w in todo))
    && (forall w :: w in now ==> now[w] == sizes[w])
  }

  ghost predicate PlacementsRefreshed(now: Placements, s: State, todo: set<string>, windows: Windows, inline: bool,
                                      caps: Caps) {
    && (forall w :: w in now <==> w in s.placements && (w in todo || KeepsPlacements(s, windows, w)))
    && (forall w :: w in now ==>
          now[w] == if w in todo then s.placements[w] else PlacementsOf(s, windows, w, inline, caps))
  }

  ghost predicate SizesAfterPlacements(now: Sizes, s: State, todo: set<string>, windows: Windows) {
    var sizes := MarkedSizes(s, windows);
    && (forall w :: w in now <==>
          w in sizes && !ForgottenWithVideos(s, windows, w) && (ForgottenWithPlacements(s, windows, w) ==> w in todo))
    && (forall w :: w in now ==> now[w] == sizes[w])
  }

  lemma {:induction false} AllMarked(sizes: Sizes, s: State, windows: Windows, done: set<string>)
    requires SizesMarked(sizes, s.freeze, windows, done)
    requires forall w :: w in done <==> Marked(s, w)
    ensures sizes == MarkedSizes(s, windows)
  {
    var marked := MarkedSizes(s, windows);
    forall w: string
      ensures w in sizes <==> w in marked
      ensures w in sizes ==> sizes[w] == marked[w]
    {
    }
  }

  lemma {:induction false} VideosAre(now: Videos, s: State, windows: Windows, cfg: Config)
    requires VideosRefreshed(now, s, {}, windows)
    ensures now == Refreshed(s, windows, cfg.inline, cfg.caps).videos
  {
    var r: Videos := Refreshed(s, windows, cfg.inline, cfg.caps).videos;
    assert now.Keys == r.Keys;
  }

  lemma {:induction false} PlacementsAre(now: Placements, s: State, windows: Windows, cfg: Config)
    requires PlacementsRefreshed(now, s, {}, windows, cfg.inline, cfg.caps)
    ensures now == Refreshed(s, windows, cfg.inline, cfg.caps).placements
  {
    var r: Placements := Refreshed(s, windows, cfg.inline, cfg.caps).placements;
    assert now.Keys == r.Keys;
  }

  lemma {:induction false} SizesAre(now: Sizes, s: State, windows: Windows, cfg: Config)
    requires SizesAfterPlacements(now, s, {}, windows)
    ensures now == Refreshed(s, windows, cfg.inline, cfg.caps).freeze
  {
    var r: Sizes := Refreshed(s, windows, cfg.inline, cfg.caps).freeze;
    assert now.Keys == r.Keys;
  }

  lemma {:induction false} RefreshedIs(s: State, t: State, windows: Windows, cfg: Config)
    requires VideosRefreshed(t.videos, s, {}, windows)
    requires PlacementsRefreshed(t.placements, s, {}, windows, cfg.inline, cfg.caps)
    requires SizesAfterPlacements(t.freeze, s, {}, windows)
    ensures t == Refreshed(s, windows, cfg.inline, cfg.caps)
  {
    VideosAre(t.videos, s, windows, cfg);
    PlacementsAre(t.placements, s, windows, cfg);
    SizesAre(t.freeze, s, windows, cfg);
  }

  lemma {:induction false} Reassigned<T>(m: map<string, T>, w: string, a: T, b: T)
    ensures m[w := a][w := b] == m[w := b]
  {
  }

  lemma {:induction false} Joined<T>(a: seq<T>, b: seq<T>, c: seq<T>)
    ensures a + b + c == a + (b + c)
  {
  }

  /** Some key: tables are walked in no particular order. */
  method AnyOf<T(==)>(s: set<T>) returns (x: T)
    requires s != {}
    ensures x in s
  {
    x :| x in s;
  }

  lemma {:induction false} AssignedSame<T>(m: map<string, T>, w: string)
    requires w in m
    ensures m[w := m[w]] == m
  {
  }

  lemma {:induction false} Removed<T>(m: map<string, T>, w: string, a: T)
    requires w in m
    ensures m[w := a] - {w} == m - {w}
  {
  }

  lemma {:induction false} VideosMore(now: Videos, s: State, todo: set<string>, windows: Windows, w: string)
    requires VideosRefreshed(now, s, todo, windows) && w in todo && w in s.videos
    ensures VideosRefreshed(if KeepsVideos(s, windows, w) then now[w := VideosOf(s, windows, w)] else now - {w},
                            s, todo - {w}, windows)
  {
  }

  lemma {:induction false} NoVideosRefreshed(s: State, windows: Windows, cfg: Config)
    ensures VideosRefreshed(s.videos, s, s.videos.Keys, windows)
    ensures SizesAfterVideos(MarkedSizes(s, windows), s, s.videos.Keys, windows)
    ensures WindowsSend(AllVideoSteps(Refresh(windows), s, cfg), s.videos.Keys, [])
  {
    hide VideosOf, VideoSteps;
  }

  lemma {:induction false} SizesAfterVideosMore(now: Sizes, s: State, todo: set<string>, windows: Windows, w: string)
    requires SizesAfterVideos(now, s, todo, windows) && w in todo
    ensures SizesAfterVideos(if ForgottenWithVideos(s, windows, w) then now - {w} else now, s, todo - {w}, windows)
  {
  }

  lemma {:induction false} VideosOfSteps(s: State, windows: Windows, cfg: Config, w: string)
    requires cfg.enabled && w in s.videos && !Frozen(s.freeze, windows, w)
    ensures Outcome(VideoSteps(Refresh(windows), s, cfg, w)) == VideosOf(s, windows, w)
  {
  }

  lemma {:induction false} PlacementsMore(now: Placements, s: State, todo: set<string>, windows: Windows, cfg: Config,
                                          w: string)
    requires PlacementsRefreshed(now, s, todo, windows, cfg.inline, cfg.caps) && w in todo && w in s.placements
    ensures PlacementsRefreshed(
              if KeepsPlacements(s, windows, w) then now[w := PlacementsOf(s, windows, w, cfg.inline, cfg.caps)]
              else now - {w},
              s, todo - {w}, windows, cfg.inline, cfg.caps)
  {
  }

  lemma {:induction false} SizesAfterPlacementsMore(now: Sizes, s: State, todo: set<string>, windows: Windows,
                                                    w: string)
    requires SizesAfterPlacements(now, s, todo, windows) && w in todo
    ensures SizesAfterPlacements(if ForgottenWithPlacements(s, windows, w) then now - {w} else now,
                                 s, todo - {w}, windows)
  {
  }

  lemma {:induction false} PlacementsOfSteps(s: State, windows: Windows, cfg: Config, w: string)
    requires cfg.enabled && w in s.placements && w in windows && !Frozen(s.freeze, windows, w)
    ensures Outcome(PlacementSteps(Refresh(windows), s, cfg, w)) == PlacementsOf(s, windows, w, cfg.inline, cfg.caps)
  {
  }

  /** A refresh asks nothing of a window that is held or empty. */
  lemma {:induction false} HeldSends(s: State, windows: Windows, cfg: Config, w: string)
    requires cfg.enabled && w in s.placements && (s.placements[w] == map[] || Frozen(s.freeze, windows, w))
    ensures PaneSends(PlacementSteps(Refresh(windows), s, cfg, w), {}, [])
    ensures KeepsPlacements(s, windows, w) && PlacementsOf(s, windows, w, cfg.inline, cfg.caps) == s.placements[w]
  {
  }

  /** Nor of the video images of one that is held. */
  lemma {:induction false} HeldVideosSend(s: State, windows: Windows, cfg: Config, w: string)
    requires cfg.enabled && w in s.videos && Frozen(s.freeze, windows, w)
    ensures PaneSends(VideoSteps(Refresh(windows), s, cfg, w), {}, [])
  {
  }

  lemma {:induction false} GoneSteps(s: State, windows: Windows, cfg: Config, w: string)
    requires cfg.enabled && w in s.placements && w !in windows
    ensures var steps := PlacementSteps(Refresh(windows), s, cfg, w);
            && steps.Keys == s.placements[w].Keys
            && forall i :: i in steps ==>
                 steps[i].sent == if !s.placements[w][i].hidden then [Delete(s.placements[w][i].hostID)] else []
  {
  }

  lemma {:induction false} LaidOutSteps(s: State, windows: Windows, cfg: Config, w: string)
    requires cfg.enabled && w in s.placements && w in windows && !Frozen(s.freeze, windows, w)
    ensures var steps := PlacementSteps(Refresh(windows), s, cfg, w);
            && steps.Keys == s.placements[w].Keys
            && forall i :: i in steps ==>
                 steps[i] == RefreshOne(s.placements[w][i], windows[w], windows, w, cfg.inline, cfg.caps)
  {
  }

  lemma {:induction false} VisitedSteps(s: State, windows: Windows, cfg: Config, w: string)
    requires cfg.enabled && w in s.videos && !Frozen(s.freeze, windows, w)
    ensures var steps := VideoSteps(Refresh(windows), s, cfg, w);
            && steps.Keys == s.videos[w].Keys
            && forall i :: i in steps ==> steps[i] == VideoVisit(i, s.videos[w][i], windows, w)
  {
  }

  lemma {:induction false} MovedSteps(op: Operation, s: State, cfg: Config)
    requires op.Move? && Runs(op, cfg) && op.window in s.placements
    ensures var steps := PlacementSteps(op, s, cfg, op.window);
            && steps.Keys == s.placements[op.window].Keys && Outcome(steps) == MovedPane(op, s, cfg)
            && forall i :: i in steps ==>
                 steps[i] == MoveOne(s.placements[op.window][i], op.newX, op.newY, op.offsetX, op.offsetY,
                                     op.viewportTop, op.viewportRows, cfg.caps)
  {
  }

  lemma {:induction false} AfterMove(op: Operation, s: State, cfg: Config)
    requires op.Move? && Runs(op, cfg)
    ensures After(op, s, cfg) ==
              if op.window in s.placements
              then State(s.placements[op.window := Outcome(PlacementSteps(op, s, cfg, op.window))], s.videos, s.freeze)
              else s
  {
    if op.window in s.placements {
      MovedSteps(op, s, cfg);
    }
  }

  /** A move concerns no video image. */
  lemma {:induction false} MoveSends(op: Operation, s: State, cfg: Config, sent: seq<HostCommand>)
    requires Unique(s.placements, s.videos) && op.Move?
    requires PaneSends(PlacementSteps(op, s, cfg, op.window), {}, sent)
    ensures Sends(sent, op, s, cfg)
  {
    assert PaneSends(VideoSteps(op, s, cfg, op.window), {}, []);
    OneWindowSends(op, s, cfg, op.window, sent, []);
    assert sent + [] == sent;
  }

  /** The stream after an operation's commands have been put in the pending output. */
  lemma {:induction false} Concluded(op: Operation, s: State, cfg: Config, out: seq<HostCommand>,
                                     pending: seq<HostCommand>, sent: seq<HostCommand>)
    requires Agrees(Replay(map[], out + pending), s.placements, s.videos, cfg.caps) && Sends(sent, op, s, cfg)
    ensures var t := After(op, s, cfg);
            Agrees(Replay(map[], out + (pending + sent)), t.placements, t.videos, cfg.caps)
  {
    Joined(out, pending, sent);
    StreamAgrees(op, s, cfg, out + pending, sent);
  }

  lemma {:induction false} HiddenSteps(s: State, cfg: Config, w: string)
    requires Runs(HideAll, cfg) && w in s.placements
    ensures var steps := PlacementSteps(HideAll, s, cfg, w);
            && steps.Keys == s.placements[w].Keys && Outcome(steps) == HiddenPane(s.placements[w])
            && forall i :: i in steps ==> steps[i] == HideOne(s.placements[w][i])
  {
  }

  /** The placements once the windows outside `todo` have been hidden. */
  ghost predicate HiddenSoFar(now: Placements, s: State, todo: set<string>) {
    && now.Keys == s.placements.Keys
    && (forall w :: w in now ==> now[w] == if w in todo then s.placements[w] else HiddenPane(s.placements[w]))
  }

  lemma {:induction false} HiddenMore(now: Placements, s: State, todo: set<string>, w: string)
    requires HiddenSoFar(now, s, todo) && w in todo && w in s.placements
    ensures w in now && now[w] == s.placements[w]
    ensures HiddenSoFar(now[w := HiddenPane(s.placements[w])], s, todo - {w})
  {
  }

  lemma {:induction false} AfterHide(now: Placements, s: State, cfg: Config)
    requires HiddenSoFar(now, s, {}) && Runs(HideAll, cfg)
    ensures State(now, s.videos, s.freeze) == After(HideAll, s, cfg)
  {
    assert now == After(HideAll, s, cfg).placements;
  }

  /** Hiding concerns no video image. */
  lemma {:induction false} HideSends(s: State, cfg: Config, sent: seq<HostCommand>)
    requires Unique(s.placements, s.videos) && WindowsSend(AllPlacementSteps(HideAll, s, cfg), {}, sent)
    ensures Sends(sent, HideAll, s, cfg)
  {
    AllPlacementsSent(HideAll, s, cfg, sent);
    assert [] + sent == sent;
    SendsEither(HideAll, s, cfg, [], sent, sent);
  }

  /** Clearing or closing a window deletes all its images. */
  lemma {:induction false} DeletedSteps(op: Operation, s: State, cfg: Config)
    requires (op.Clear? || op.Close?) && Runs(op, cfg)
    ensures var steps := PlacementSteps(op, s, cfg, op.window);
            && steps.Keys == (if op.window in s.placements then s.placements[op.window].Keys else {})
            && forall i :: i in steps ==> steps[i].sent == [Delete(s.placements[op.window][i].hostID)]
    ensures var steps := VideoSteps(op, s, cfg, op.window);
            && steps.Keys == (if op.window in s.videos then s.videos[op.window].Keys else {})
            && forall i :: i in steps ==> steps[i].sent == [Free(i)]
  {
  }

  /** Dropped placements are taken out only after the walk over the window's placements. */
  function Kept<T>(steps: Steps<T>): Steps<T> {
    map i | i in steps :: steps[i].(dropped := false)
  }

  lemma {:induction false} KeptSends<T>(steps: Steps<T>, sent: seq<HostCommand>)
    requires PaneSends(Kept(steps), {}, sent)
    ensures PaneSends(steps, {}, sent)
  {
  }

  /** The placements found droppable so far. */
  ghost predicate ToDrop<T>(drop: set<int>, steps: Steps<T>, todo: set<int>) {
    forall i :: i in drop <==> i in steps && i !in todo && steps[i].dropped
  }

  lemma {:induction false} ToDropMore<T>(drop: set<int>, steps: Steps<T>, todo: set<int>, i: int)
    requires ToDrop(drop, steps, todo) && i in steps && i in todo
    ensures ToDrop(if steps[i].dropped then drop + {i} else drop, steps, todo - {i})
  {
  }

  lemma {:induction false} KeptDrop<T>(steps: Steps<T>, drop: set<int>)
    requires ToDrop(drop, steps, {})
    ensures Outcome(Kept(steps)) - drop == Outcome(steps)
  {
    var left, outcome := Outcome(Kept(steps)) - drop, Outcome(steps);
    forall i: int
      ensures i in left <==> i in outcome
      ensures i in left ==> left[i] == outcome[i]
    {
    }
  }

  class KittyPassthrough {
    const enabled: bool
    const inlineGraphics: bool
    const caps: Caps

    var placements: Placements
    var remoteVideo: Videos
    var resizeFreezeSize: Sizes
    var imageIDMap: IDs
    var nextHostID: int
    var pendingOutput: seq<HostCommand>
    /** What has been written to the host so far. */
    var hostOut: seq<HostCommand>

    function Cfg(): Config {
      Config(enabled, inlineGraphics, caps)
    }

    function Tracked(): State
      reads this
    {
      State(placements, remoteVideo, resizeFreezeSize)
    }

    function IDBook(): Book
      reads this
    {
      Book(imageIDMap, nextHostID)
    }

    /** With the ids given. */
    function Now(): World
      reads this
    {
      World(Tracked(), IDBook())
    }

    /** Once all pending output has reached it, the host shows exactly what is tracked and not hidden. */
    ghost predicate Agreed()
      reads this
    {
      Agrees(Replay(map[], hostOut + pendingOutput), placements, remoteVideo, caps)
    }

    constructor (enabled: bool, inlineGraphics: bool, caps: Caps)
      ensures Agreed() && Allocated(Now()) && Now() == Start() && Cfg() == Config(enabled, inlineGraphics, caps)
    {
      this.enabled, this.inlineGraphics, this.caps := enabled, inlineGraphics, caps;
      placements, remoteVideo, resizeFreezeSize, imageIDMap := map[], map[], map[], map[];
      nextHostID, pendingOutput, hostOut := 1, [], [];
    }

    // ---- refresh -----------------------------------------------------------------------------

    method MarkFreeze(w: string, windows: Windows, frozen: map<string, bool>, ghost before: Sizes,
                      ghost done: set<string>)
      returns (frozen': map<string, bool>)
      requires SizesMarked(resizeFreezeSize, before, windows, done) && FrozenMarked(frozen, before, windows, done)
      modifies this`resizeFreezeSize
      ensures SizesMarked(resizeFreezeSize, before, windows, done + {w})
      ensures FrozenMarked(frozen', before, windows, done + {w})
    {
      frozen' := frozen;
      if w in frozen || w !in windows {
        return;
      }
      var info := windows[w];
      if info.manipulated && w in resizeFreezeSize && resizeFreezeSize[w] != Size(info) {
        frozen' := frozen[w := true];
        return;
      }
      resizeFreezeSize := resizeFreezeSize[w := Size(info)];
      frozen' := frozen[w := false];
    }

    method MarkPlacements(windows: Windows) returns (frozen: map<string, bool>)
      modifies this`resizeFreezeSize
      ensures var done := set w | w in placements && placements[w] != map[];
              && SizesMarked(resizeFreezeSize, old(resizeFreezeSize), windows, done)
              && FrozenMarked(frozen, old(resizeFreezeSize), windows, done)
    {
      ghost var before, done: set<string> := resizeFreezeSize, {};
      frozen := map[];
      var todo := placements.Keys;
      while todo != {}
        invariant todo <= placements.Keys
        invariant done == set w | w in placements.Keys - todo && placements[w] != map[]
        invariant SizesMarked(resizeFreezeSize, before, windows, done) && FrozenMarked(frozen, before, windows, done)
        decreases todo
      {
        var w := AnyOf(todo);
        todo := todo - {w};
        if placements[w] != map[] {
          frozen := MarkFreeze(w, windows, frozen, before, done);
          done := done + {w};
        }
      }
      assert done == set w | w in placements && placements[w] != map[];
    }

    method MarkVideos(windows: Windows, frozen: map<string, bool>, ghost before: Sizes, ghost first: set<string>)
      returns (frozen': map<string, bool>)
      requires SizesMarked(resizeFreezeSize, before, windows, first) && FrozenMarked(frozen, before, windows, first)
      modifies this`resizeFreezeSize
      ensures SizesMarked(resizeFreezeSize, before, windows, first + remoteVideo.Keys)
      ensures FrozenMarked(frozen', before, windows, first + remoteVideo.Keys)
    {
      frozen' := frozen;
      ghost var done := first;
      var todo := remoteVideo.Keys;
      while todo != {}
        invariant todo <= remoteVideo.Keys
        invariant done == first + (remoteVideo.Keys - todo)
        invariant SizesMarked(resizeFreezeSize, before, windows, done) && FrozenMarked(frozen', before, windows, done)
        decreases todo
      {
        var w := AnyOf(todo);
        todo := todo - {w};
        frozen' := MarkFreeze(w, windows, frozen', before, done);
        done := done + {w};
      }
      assert done == first + remoteVideo.Keys;
    }

    /** Decides for every window with images whether this pass holds them as they are. */
    method MarkAll(windows: Windows) returns (frozen: map<string, bool>)
      modifies this`resizeFreezeSize
      ensures resizeFreezeSize == MarkedSizes(old(Tracked()), windows)
      ensures forall w :: w in frozen <==> Marked(old(Tracked()), w) && w in windows
      ensures forall w :: w in frozen ==> frozen[w] == Frozen(old(resizeFreezeSize), windows, w)
    {
      ghost var s := Tracked();
      frozen := MarkPlacements(windows);
      ghost var first := set w | w in placements && placements[w] != map[];
      frozen := MarkVideos(windows, frozen, s.freeze, first);
      AllMarked(resizeFreezeSize, s, windows, first + remoteVideo.Keys);
    }

    method VisitVideo(w: string, i: int, windows: Windows, ghost step: Step<Video>)
      requires w in remoteVideo && i in remoteVideo[w] && step == VideoVisit(i, remoteVideo[w][i], windows, w)
      modifies this`remoteVideo, this`pendingOutput
      ensures remoteVideo == old(remoteVideo)[w := Taken(old(remoteVideo[w]), i, step)]
      ensures pendingOutput == old(pendingOutput) + step.sent
    {
      if w !in windows {
        pendingOutput := pendingOutput + [Delete(i)];
        remoteVideo := remoteVideo[w := remoteVideo[w] - {i}];
        return;
      }
      var visit := RefreshVideo(i, remoteVideo[w][i], windows[w], windows, w);
      pendingOutput := pendingOutput + visit.sent;
      if visit.dropped {
        remoteVideo := remoteVideo[w := remoteVideo[w] - {i}];
      } else {
        remoteVideo := remoteVideo[w := remoteVideo[w][i := visit.next]];
      }
    }

    /** The video images of one window that is not held. */
    method RefreshVideoWindow(w: string, windows: Windows, ghost steps: Steps<Video>)
      returns (ghost sent: seq<HostCommand>)
      requires w in remoteVideo && steps.Keys == remoteVideo[w].Keys && Own(steps)
      requires forall i :: i in steps ==> steps[i] == VideoVisit(i, remoteVideo[w][i], windows, w)
      modifies this`remoteVideo, this`pendingOutput
      ensures remoteVideo == old(remoteVideo)[w := Outcome(steps)]
      ensures pendingOutput == old(pendingOutput) + sent && PaneSends(steps, {}, sent)
    {
      ghost var base, m, now, start := remoteVideo, remoteVideo[w], remoteVideo[w], pendingOutput;
      var todo := remoteVideo[w].Keys;
      sent := [];
      while todo != {}
        invariant todo <= m.Keys
        invariant remoteVideo == base[w := now] && Stepped(now, m, todo, steps)
        invariant pendingOutput == start + sent && PaneSends(steps, todo, sent)
        decreases todo
      {
        var i := AnyOf(todo);
        SteppedMore(now, m, todo, steps, i);
        VisitVideo(w, i, windows, steps[i]);
        Reassigned(base, w, now, Taken(now, i, steps[i]));
        now := Taken(now, i, steps[i]);
        Joined(start, sent, steps[i].sent);
        PaneSendsMore(steps, todo, sent, i);
        todo := todo - {i};
        sent := sent + steps[i].sent;
      }
      SteppedAll(now, m, steps);
    }
  
    /** Keeps the self-placing video images in step with their windows. */
    method RefreshVideos(windows: Windows, frozen: map<string, bool>, ghost s: State)
      returns (ghost sent: seq<HostCommand>)
      requires enabled && s.placements == placements && s.videos == remoteVideo && Unique(s.placements, s.videos)
      requires resizeFreezeSize == MarkedSizes(s, windows)
      requires forall w :: w in remoteVideo && w in windows ==> w in frozen && frozen[w] == Frozen(s.freeze, windows, w)
      modifies this`remoteVideo, this`pendingOutput, this`resizeFreezeSize
      ensures VideosRefreshed(remoteVideo, s, {}, windows) && SizesAfterVideos(resizeFreezeSize, s, {}, windows)
      ensures pendingOutput == old(pendingOutput) + sent
      ensures WindowsSend(AllVideoSteps(Refresh(windows), s, Cfg()), {}, sent)
    {
      hide WindowsSend, SizesAfterVideos, MarkedSizes, VideosOf, KeepsVideos, VideoSteps;
      ghost var start, op := pendingOutput, Refresh(windows);
      VideoStepsOwn(op, s, Cfg());
      var todo := remoteVideo.Keys;
      sent := [];
      NoVideosRefreshed(s, windows, Cfg());
      while todo != {}
        invariant todo <= s.videos.Keys && placements == s.placements
        invariant VideosRefreshed(remoteVideo, s, todo, windows) && SizesAfterVideos(resizeFreezeSize, s, todo, windows)
        invariant pendingOutput == start + sent && WindowsSend(AllVideoSteps(op, s, Cfg()), todo, sent)
        decreases todo
      {
        var w := AnyOf(todo);
        VideosMore(remoteVideo, s, todo, windows, w);
        SizesAfterVideosMore(resizeFreezeSize, s, todo, windows, w);
        var more := RefreshVideosOf(w, windows, frozen, s);
        WindowsSendMore(AllVideoSteps(op, s, Cfg()), todo, sent, w, more);
        Joined(start, sent, more);
        sent := sent + more;
        todo := todo - {w};
      }
    }

    /** One window's video images. */
    method RefreshVideosOf(w: string, windows: Windows, frozen: map<string, bool>, ghost s: State)
      returns (ghost sent: seq<HostCommand>)
      requires enabled && s.placements == placements && Unique(s.placements, s.videos)
      requires w in remoteVideo && w in s.videos && remoteVideo[w] == s.videos[w]
      requires w in windows ==> w in frozen && frozen[w] == Frozen(s.freeze, windows, w)
      modifies this`remoteVideo, this`pendingOutput, this`resizeFreezeSize
      ensures remoteVideo == if KeepsVideos(s, windows, w) then old(remoteVideo)[w := VideosOf(s, windows, w)]
                             else old(remoteVideo) - {w}
      ensures resizeFreezeSize == if ForgottenWithVideos(s, windows, w) then old(resizeFreezeSize) - {w}
                                  else old(resizeFreezeSize)
      ensures pendingOutput == old(pendingOutput) + sent
      ensures PaneSends(VideoSteps(Refresh(windows), s, Cfg(), w), {}, sent)
    {
      ghost var steps := VideoSteps(Refresh(windows), s, Cfg(), w);
      if w in windows && frozen[w] {
        HeldVideosSend(s, windows, Cfg(), w);
        sent := [];
        return;
      }
      VisitedSteps(s, windows, Cfg(), w);
      VideoStepsOwn(Refresh(windows), s, Cfg());
      VideosOfSteps(s, windows, Cfg(), w);
      ghost var before := remoteVideo;
      sent := RefreshVideoWindow(w, windows, steps);
      if remoteVideo[w] == map[] {
        Removed(before, w, remoteVideo[w]);
        remoteVideo := remoteVideo - {w};
        if w !in placements || placements[w] == map[] {
          resizeFreezeSize := resizeFreezeSize - {w};
        }
      }
    }

    method VisitPlacement(w: string, i: int, windows: Windows, ghost step: Step<Placement>) returns (dropped: bool)
      requires w in placements && i in placements[w] && w in windows
      requires step == RefreshOne(placements[w][i], windows[w], windows, w, inlineGraphics, caps)
      modifies this`placements, this`pendingOutput
      ensures placements == old(placements)[w := old(placements[w])[i := step.next]]
      ensures pendingOutput == old(pendingOutput) + step.sent && dropped == step.dropped
    {
      var visit := RefreshOne(placements[w][i], windows[w], windows, w, inlineGraphics, caps);
      pendingOutput := pendingOutput + visit.sent;
      placements := placements[w := placements[w][i := visit.next]];
      dropped := visit.dropped;
    }

    /** Re-places each placement of a window, and collects those to be forgotten. */
    method VisitPlacements(w: string, windows: Windows, ghost steps: Steps<Placement>)
      returns (drop: set<int>, ghost sent: seq<HostCommand>)
      requires w in placements && steps.Keys == placements[w].Keys && Own(steps) && w in windows
      requires forall i :: i in steps ==>
                 steps[i] == RefreshOne(placements[w][i], windows[w], windows, w, inlineGraphics, caps)
      modifies this`placements, this`pendingOutput
      ensures placements == old(placements)[w := Outcome(Kept(steps))] && ToDrop(drop, steps, {})
      ensures pendingOutput == old(pendingOutput) + sent && PaneSends(Kept(steps), {}, sent)
    {
      ghost var base, m, now, start, kept := placements, placements[w], placements[w], pendingOutput, Kept(steps);
      var todo := placements[w].Keys;
      drop, sent := {}, [];
      while todo != {}
        invariant todo <= m.Keys
        invariant placements == base[w := now] && Stepped(now, m, todo, kept)
        invariant pendingOutput == start + sent && PaneSends(kept, todo, sent)
        invariant ToDrop(drop, steps, todo)
        decreases todo
      {
        var i := AnyOf(todo);
        SteppedMore(now, m, todo, kept, i);
        var dropped := VisitPlacement(w, i, windows, steps[i]);
        Reassigned(base, w, now, Taken(now, i, kept[i]));
        now := Taken(now, i, kept[i]);
        Joined(start, sent, kept[i].sent);
        PaneSendsMore(kept, todo, sent, i);
        ToDropMore(drop, steps, todo, i);
        todo := todo - {i};
        sent := sent + kept[i].sent;
        if dropped {
          drop := drop + {i};
        }
      }
      SteppedAll(now, m, kept);
    }

    /** The placements of one window on the layout and not held; those to be forgotten are deleted last. */
    method RefreshWindow(w: string, windows: Windows, ghost steps: Steps<Placement>)
      returns (ghost sent: seq<HostCommand>)
      requires w in placements && steps.Keys == placements[w].Keys && Own(steps) && w in windows
      requires forall i :: i in steps ==>
                 steps[i] == RefreshOne(placements[w][i], windows[w], windows, w, inlineGraphics, caps)
      modifies this`placements, this`pendingOutput
      ensures placements == old(placements)[w := Outcome(steps)]
      ensures pendingOutput == old(pendingOutput) + sent && PaneSends(steps, {}, sent)
    {
      ghost var base := placements;
      var drop;
      drop, sent := VisitPlacements(w, windows, steps);
      KeptDrop(steps, drop);
      KeptSends(steps, sent);
      Reassigned(base, w, Outcome(Kept(steps)), Outcome(steps));
      placements := placements[w := placements[w] - drop];
    }
  
    /** Deletes from the host every image of the window that is shown, or with `all` every image. */
    method DeleteImages(w: string, all: bool, ghost steps: Steps<Placement>) returns (ghost sent: seq<HostCommand>)
      requires w in placements && steps.Keys == placements[w].Keys && Own(steps)
      requires forall i :: i in steps ==>
                 steps[i].sent == if all || !placements[w][i].hidden then [Delete(placements[w][i].hostID)] else []
      modifies this`pendingOutput
      ensures pendingOutput == old(pendingOutput) + sent && PaneSends(steps, {}, sent)
    {
      ghost var start := pendingOutput;
      var todo := placements[w].Keys;
      sent := [];
      while todo != {}
        invariant todo <= placements[w].Keys
        invariant pendingOutput == start + sent && PaneSends(steps, todo, sent)
        decreases todo
      {
        var i := AnyOf(todo);
        if all || !placements[w][i].hidden {
          pendingOutput := pendingOutput + [Delete(placements[w][i].hostID)];
        }
        Joined(start, sent, steps[i].sent);
        PaneSendsMore(steps, todo, sent, i);
        todo := todo - {i};
        sent := sent + steps[i].sent;
      }
    }

    /** The placements of a window that is gone. */
    method ForgetWindow(w: string, windows: Windows, ghost s: State) returns (ghost sent: seq<HostCommand>)
      requires enabled && Unique(s.placements, s.videos) && w !in windows
      requires w in placements && w in s.placements && placements[w] == s.placements[w]
      modifies this`placements, this`pendingOutput, this`resizeFreezeSize
      ensures placements == old(placements) - {w} && resizeFreezeSize == old(resizeFreezeSize) - {w}
      ensures pendingOutput == old(pendingOutput) + sent
      ensures PaneSends(PlacementSteps(Refresh(windows), s, Cfg(), w), {}, sent)
    {
      PlacementStepsOwn(Refresh(windows), s, Cfg());
      GoneSteps(s, windows, Cfg(), w);
      sent := DeleteImages(w, false, PlacementSteps(Refresh(windows), s, Cfg(), w));
      placements := placements - {w};
      resizeFreezeSize := resizeFreezeSize - {w};
    }

    /** The placements of a window to be laid out. */
    method LayOutWindow(w: string, windows: Windows, ghost s: State) returns (ghost sent: seq<HostCommand>)
      requires enabled && Unique(s.placements, s.videos) && w in windows && !Frozen(s.freeze, windows, w)
      requires w in placements && w in s.placements && placements[w] == s.placements[w]
      modifies this`placements, this`pendingOutput
      ensures placements == old(placements)[w := PlacementsOf(s, windows, w, inlineGraphics, caps)]
      ensures pendingOutput == old(pendingOutput) + sent
      ensures PaneSends(PlacementSteps(Refresh(windows), s, Cfg(), w), {}, sent)
    {
      PlacementStepsOwn(Refresh(windows), s, Cfg());
      LaidOutSteps(s, windows, Cfg(), w);
      PlacementsOfSteps(s, windows, Cfg(), w);
      sent := RefreshWindow(w, windows, PlacementSteps(Refresh(windows), s, Cfg(), w));
    }

    /** One window's placements. */
    method RefreshPlacementsOf(w: string, windows: Windows, frozen: map<string, bool>, ghost s: State)
      returns (ghost sent: seq<HostCommand>)
      requires enabled && Unique(s.placements, s.videos)
      requires w in placements && w in s.placements && placements[w] == s.placements[w]
      requires w in windows && placements[w] != map[] ==> w in frozen && frozen[w] == Frozen(s.freeze, windows, w)
      modifies this`placements, this`pendingOutput, this`resizeFreezeSize
      ensures placements == if KeepsPlacements(s, windows, w)
                            then old(placements)[w := PlacementsOf(s, windows, w, inlineGraphics, caps)]
                            else old(placements) - {w}
      ensures resizeFreezeSize == if ForgottenWithPlacements(s, windows, w) then old(resizeFreezeSize) - {w}
                                  else old(resizeFreezeSize)
      ensures pendingOutput == old(pendingOutput) + sent
      ensures PaneSends(PlacementSteps(Refresh(windows), s, Cfg(), w), {}, sent)
    {
      if placements[w] == map[] || (w in windows && frozen[w]) {
        HeldSends(s, windows, Cfg(), w);
        AssignedSame(placements, w);
        sent := [];
      } else if w !in windows {
        sent := ForgetWindow(w, windows, s);
      } else {
        sent := LayOutWindow(w, windows, s);
      }
    }

    method RefreshPlacements(windows: Windows, frozen: map<string, bool>, ghost s: State)
      returns (ghost sent: seq<HostCommand>)
      requires enabled && s.placements == placements && Unique(s.placements, s.videos)
      requires SizesAfterVideos(resizeFreezeSize, s, {}, windows)
      requires forall w :: w in placements && placements[w] != map[] && w in windows ==>
                 w in frozen && frozen[w] == Frozen(s.freeze, windows, w)
      modifies this`placements, this`pendingOutput, this`resizeFreezeSize
      ensures PlacementsRefreshed(placements, s, {}, windows, inlineGraphics, caps)
      ensures SizesAfterPlacements(resizeFreezeSize, s, {}, windows)
      ensures pendingOutput == old(pendingOutput) + sent
      ensures WindowsSend(AllPlacementSteps(Refresh(windows), s, Cfg()), {}, sent)
    {
      ghost var start, op := pendingOutput, Refresh(windows);
      PlacementStepsOwn(op, s, Cfg());
      var todo := placements.Keys;
      sent := [];
      while todo != {}
        invariant todo <= s.placements.Keys
        invariant PlacementsRefreshed(placements, s, todo, windows, inlineGraphics, caps)
        invariant SizesAfterPlacements(resizeFreezeSize, s, todo, windows)
        invariant pendingOutput == start + sent && WindowsSend(AllPlacementSteps(op, s, Cfg()), todo, sent)
        decreases todo
      {
        var w := AnyOf(todo);
        PlacementsMore(placements, s, todo, windows, Cfg(), w);
        SizesAfterPlacementsMore(resizeFreezeSize, s, todo, windows, w);
        var more := RefreshPlacementsOf(w, windows, frozen, s);
        WindowsSendMore(AllPlacementSteps(op, s, Cfg()), todo, sent, w, more);
        Joined(start, sent, more);
        sent := sent + more;
        todo := todo - {w};
      }
    }

    /** Re-lays every image out against the windows as they are now. */
    method RefreshAllPlacements(windows: Windows) returns (ghost sent: seq<HostCommand>)
      requires Agreed()
      modifies this`placements, this`remoteVideo, this`resizeFreezeSize, this`pendingOutput
      ensures Agreed() && Tracked() == After(Refresh(windows), old(Tracked()), Cfg())
      ensures pendingOutput == old(pendingOutput) + sent && Sends(sent, Refresh(windows), old(Tracked()), Cfg())
      ensures Now() == Happen(Do(Refresh(windows)), old(Now()), Cfg())
      ensures old(Allocated(Now())) ==> Allocated(Now())
    {
      hide Allocated;
      DoKeepsAllocated(Refresh(windows), Now(), Cfg());
      sent := [];
      if !enabled {
        NothingSent(Refresh(windows), Tracked(), Cfg());
        return;
      }
      sent := RefreshTracked(windows);
    }

    method RefreshTracked(windows: Windows) returns (ghost sent: seq<HostCommand>)
      requires Agreed() && enabled
      modifies this`placements, this`remoteVideo, this`resizeFreezeSize, this`pendingOutput
      ensures Agreed() && Tracked() == After(Refresh(windows), old(Tracked()), Cfg())
      ensures pendingOutput == old(pendingOutput) + sent && Sends(sent, Refresh(windows), old(Tracked()), Cfg())
    {
      ghost var s, op, start := Tracked(), Refresh(windows), pendingOutput;
      var frozen := MarkAll(windows);
      var first := RefreshVideos(windows, frozen, s);
      var second := RefreshPlacements(windows, frozen, s);
      Joined(start, first, second);
      sent := first + second;
      RefreshedIs(s, Tracked(), windows, Cfg());
      BothSend(op, s, Cfg(), first, second);
      Concluded(op, s, Cfg(), hostOut, start, sent);
    }

    // ---- move, hide, clear, close ----------------------------------------------------------------

    method MovePlacement(w: string, i: int, newX: int, newY: int, offsetX: int, offsetY: int, viewportTop: int,
                         viewportRows: int, ghost step: Step<Placement>)
      requires w in placements && i in placements[w]
      requires step == MoveOne(placements[w][i], newX, newY, offsetX, offsetY, viewportTop, viewportRows, caps)
      modifies this`placements, this`pendingOutput
      ensures placements == old(placements)[w := Taken(old(placements[w]), i, step)]
      ensures pendingOutput == old(pendingOutput) + step.sent
    {
      var p := placements[w][i];
      if !p.hidden {
        pendingOutput := pendingOutput + [Delete(p.hostID)];
      }
      var top := p.absoluteLine - viewportTop;
      p := p.(hostX := newX + offsetX + p.guestX, hostY := newY + offsetY + top);
      if 0 <= top < viewportRows {
        p := WithID(p);
        p := p.(hidden := false);
        pendingOutput := pendingOutput + [PlaceCommand(p, caps)];
      } else {
        p := p.(hidden := true);
      }
      placements := placements[w := placements[w][i := p]];
    }

    /** Follows a window that was moved. */
    method OnWindowMove(w: string, newX: int, newY: int, offsetX: int, offsetY: int, scrollbackLen: int,
                        scrollOffset: int, viewportRows: int) returns (ghost sent: seq<HostCommand>)
      requires Agreed()
      modifies this`placements, this`pendingOutput
      ensures var op := Move(w, newX, newY, offsetX, offsetY, scrollbackLen - scrollOffset, viewportRows);
              && Agreed() && Tracked() == After(op, old(Tracked()), Cfg())
              && pendingOutput == old(pendingOutput) + sent && Sends(sent, op, old(Tracked()), Cfg())
      ensures Now() == Happen(Do(Move(w, newX, newY, offsetX, offsetY, scrollbackLen - scrollOffset, viewportRows)),
                              old(Now()), Cfg())
      ensures old(Allocated(Now())) ==> Allocated(Now())
    {
      var op := Move(w, newX, newY, offsetX, offsetY, scrollbackLen - scrollOffset, viewportRows);
      hide Allocated;
      DoKeepsAllocated(op, Now(), Cfg());
      sent := [];
      if !enabled || inlineGraphics {
        NothingSent(op, Tracked(), Cfg());
        return;
      }
      sent := MoveTracked(op);
    }

    method MoveTracked(op: Operation) returns (ghost sent: seq<HostCommand>)
      requires Agreed() && op.Move? && Runs(op, Cfg())
      modifies this`placements, this`pendingOutput
      ensures Agreed() && Tracked() == After(op, old(Tracked()), Cfg())
      ensures pendingOutput == old(pendingOutput) + sent && Sends(sent, op, old(Tracked()), Cfg())
    {
      ghost var s, start := Tracked(), pendingOutput;
      AfterMove(op, s, Cfg());
      sent := [];
      if op.window in placements {
        PlacementStepsOwn(op, s, Cfg());
        MovedSteps(op, s, Cfg());
        sent := MoveWindow(op.window, op.newX, op.newY, op.offsetX, op.offsetY, op.viewportTop, op.viewportRows,
                           PlacementSteps(op, s, Cfg(), op.window));
      }
      MoveSends(op, s, Cfg(), sent);
      Concluded(op, s, Cfg(), hostOut, start, sent);
    }

    method MoveWindow(w: string, newX: int, newY: int, offsetX: int, offsetY: int, viewportTop: int, viewportRows: int,
                      ghost steps: Steps<Placement>) returns (ghost sent: seq<HostCommand>)
      requires w in placements && steps.Keys == placements[w].Keys && Own(steps)
      requires forall i :: i in steps ==>
                 steps[i] == MoveOne(placements[w][i], newX, newY, offsetX, offsetY, viewportTop, viewportRows, caps)
      modifies this`placements, this`pendingOutput
      ensures placements == old(placements)[w := Outcome(steps)]
      ensures pendingOutput == old(pendingOutput) + sent && PaneSends(steps, {}, sent)
    {
      ghost var base, m, now, start := placements, placements[w], placements[w], pendingOutput;
      var todo := placements[w].Keys;
      sent := [];
      while todo != {}
        invariant todo <= m.Keys
        invariant placements == base[w := now] && Stepped(now, m, todo, steps)
        invariant pendingOutput == start + sent && PaneSends(steps, todo, sent)
        decreases todo
      {
        var i := AnyOf(todo);
        SteppedMore(now, m, todo, steps, i);
        MovePlacement(w, i, newX, newY, offsetX, offsetY, viewportTop, viewportRows, steps[i]);
        Reassigned(base, w, now, Taken(now, i, steps[i]));
        now := Taken(now, i, steps[i]);
        Joined(start, sent, steps[i].sent);
        PaneSendsMore(steps, todo, sent, i);
        todo := todo - {i};
        sent := sent + steps[i].sent;
      }
      SteppedAll(now, m, steps);
    }
  
    method HidePlacement(w: string, i: int, ghost step: Step<Placement>)
      requires w in placements && i in placements[w] && step == HideOne(placements[w][i])
      modifies this`placements, this`pendingOutput
      ensures placements == old(placements)[w := Taken(old(placements[w]), i, step)]
      ensures pendingOutput == old(pendingOutput) + step.sent
    {
      if placements[w][i].hidden {
        assert placements[w][i := placements[w][i]] == placements[w];
        AssignedSame(placements, w);
        return;
      }
      pendingOutput := pendingOutput + [Delete(placements[w][i].hostID)];
      placements := placements[w := placements[w][i := placements[w][i].(hidden := true)]];
    }

    method HideWindow(w: string, ghost steps: Steps<Placement>) returns (ghost sent: seq<HostCommand>)
      requires w in placements && steps.Keys == placements[w].Keys && Own(steps)
      requires forall i :: i in steps ==> steps[i] == HideOne(placements[w][i])
      modifies this`placements, this`pendingOutput
      ensures placements == old(placements)[w := Outcome(steps)]
      ensures pendingOutput == old(pendingOutput) + sent && PaneSends(steps, {}, sent)
    {
      ghost var base, m, now, start := placements, placements[w], placements[w], pendingOutput;
      AssignedSame(placements, w);
      var todo := placements[w].Keys;
      sent := [];
      while todo != {}
        invariant todo <= m.Keys
        invariant placements == base[w := now] && Stepped(now, m, todo, steps)
        invariant pendingOutput == start + sent && PaneSends(steps, todo, sent)
        decreases todo
      {
        var i := AnyOf(todo);
        SteppedMore(now, m, todo, steps, i);
        HidePlacement(w, i, steps[i]);
        Reassigned(base, w, now, Taken(now, i, steps[i]));
        now := Taken(now, i, steps[i]);
        Joined(start, sent, steps[i].sent);
        PaneSendsMore(steps, todo, sent, i);
        todo := todo - {i};
        sent := sent + steps[i].sent;
      }
      SteppedAll(now, m, steps);
    }

    method HideEveryWindow() returns (ghost sent: seq<HostCommand>)
      requires Runs(HideAll, Cfg()) && Unique(placements, remoteVideo)
      modifies this`placements, this`pendingOutput
      ensures HiddenSoFar(placements, old(Tracked()), {})
      ensures pendingOutput == old(pendingOutput) + sent
      ensures WindowsSend(AllPlacementSteps(HideAll, old(Tracked()), Cfg()), {}, sent)
    {
      ghost var s, start := Tracked(), pendingOutput;
      PlacementStepsOwn(HideAll, s, Cfg());
      var todo := placements.Keys;
      sent := [];
      while todo != {}
        invariant todo <= s.placements.Keys && HiddenSoFar(placements, s, todo)
        invariant pendingOutput == start + sent && WindowsSend(AllPlacementSteps(HideAll, s, Cfg()), todo, sent)
        decreases todo
      {
        var w := AnyOf(todo);
        HiddenMore(placements, s, todo, w);
        HiddenSteps(s, Cfg(), w);
        var more := HideWindow(w, PlacementSteps(HideAll, s, Cfg(), w));
        WindowsSendMore(AllPlacementSteps(HideAll, s, Cfg()), todo, sent, w, more);
        Joined(start, sent, more);
        sent := sent + more;
        todo := todo - {w};
      }
    }

    /** Writes what is pending to the host. */
    method FlushToHost()
      modifies this`pendingOutput, this`hostOut
      ensures hostOut == old(hostOut + pendingOutput) && pendingOutput == []
    {
      if pendingOutput != [] {
        hostOut := hostOut + pendingOutput;
        pendingOutput := [];
      }
    }

    /** Hides every image, at once; the next refresh places them anew. */
    method HideAllPlacements() returns (ghost sent: seq<HostCommand>)
      requires Agreed()
      modifies this`placements, this`pendingOutput, this`hostOut
      ensures Agreed() && Tracked() == After(HideAll, old(Tracked()), Cfg())
      ensures Sends(sent, HideAll, old(Tracked()), Cfg()) && (!inlineGraphics ==> pendingOutput == [])
      ensures hostOut + pendingOutput == old(hostOut) + (old(pendingOutput) + sent)
      ensures Now() == Happen(Do(HideAll), old(Now()), Cfg())
      ensures old(Allocated(Now())) ==> Allocated(Now())
    {
      hide Allocated;
      DoKeepsAllocated(HideAll, Now(), Cfg());
      ghost var s, start := Tracked(), pendingOutput;
      sent := [];
      if inlineGraphics {
        NothingSent(HideAll, s, Cfg());
        return;
      }
      sent := HideEveryWindow();
      AfterHide(placements, s, Cfg());
      HideSends(s, Cfg(), sent);
      Concluded(HideAll, s, Cfg(), hostOut, start, sent);
      FlushToHost();
      assert hostOut + pendingOutput == hostOut;
    }

    /** Frees the window's video images, data and all: nothing will show them again. */
    method DeleteRemoteVideoImages(w: string, ghost steps: Steps<Video>) returns (ghost sent: seq<HostCommand>)
      requires steps.Keys == (if w in remoteVideo then remoteVideo[w].Keys else {}) && Own(steps)
      requires forall i :: i in steps ==> steps[i].sent == [Free(i)]
      modifies this`remoteVideo, this`pendingOutput
      ensures remoteVideo == old(remoteVideo) - {w}
      ensures pendingOutput == old(pendingOutput) + sent && PaneSends(steps, {}, sent)
    {
      ghost var start, before := pendingOutput, remoteVideo;
      var todo := if w in remoteVideo then remoteVideo[w].Keys else {};
      sent := [];
      while todo != {}
        invariant todo <= steps.Keys && remoteVideo == before
        invariant pendingOutput == start + sent && PaneSends(steps, todo, sent)
        decreases todo
      {
        var i := AnyOf(todo);
        pendingOutput := pendingOutput + [Free(i)];
        Joined(start, sent, steps[i].sent);
        PaneSendsMore(steps, todo, sent, i);
        todo := todo - {i};
        sent := sent + steps[i].sent;
      }
      remoteVideo := remoteVideo - {w};
    }

    method DeleteEverything(op: Operation) returns (ghost sent: seq<HostCommand>)
      requires (op.Clear? || op.Close?) && Runs(op, Cfg()) && Unique(placements, remoteVideo)
      modifies this`remoteVideo, this`pendingOutput
      ensures remoteVideo == old(remoteVideo) - {op.window}
      ensures pendingOutput == old(pendingOutput) + sent && Sends(sent, op, old(Tracked()), Cfg())
    {
      var w := op.window;
      ghost var s, start := Tracked(), pendingOutput;
      DeletedSteps(op, s, Cfg());
      PlacementStepsOwn(op, s, Cfg());
      VideoStepsOwn(op, s, Cfg());
      ghost var first: seq<HostCommand> := [];
      if w in placements {
        first := DeleteImages(w, true, PlacementSteps(op, s, Cfg(), w));
      }
      var second := DeleteRemoteVideoImages(w, VideoSteps(op, s, Cfg(), w));
      Joined(start, first, second);
      sent := first + second;
      OneWindowSends(op, s, Cfg(), w, first, second);
    }

    /** The guest cleared its screen: its images go. */
    method ClearWindow(w: string) returns (ghost sent: seq<HostCommand>)
      requires Agreed()
      modifies this`placements, this`remoteVideo, this`pendingOutput
      ensures Agreed() && Tracked() == After(Clear(w), old(Tracked()), Cfg())
      ensures pendingOutput == old(pendingOutput) + sent && Sends(sent, Clear(w), old(Tracked()), Cfg())
      ensures Now() == Happen(Do(Clear(w)), old(Now()), Cfg())
      ensures old(Allocated(Now())) ==> Allocated(Now())
    {
      hide Allocated;
      DoKeepsAllocated(Clear(w), Now(), Cfg());
      ghost var s, start := Tracked(), pendingOutput;
      sent := [];
      if !enabled {
        NothingSent(Clear(w), s, Cfg());
        return;
      }
      sent := DeleteEverything(Clear(w));
      placements := placements[w := map[]];
      Concluded(Clear(w), s, Cfg(), hostOut, start, sent);
    }

    /** The window is gone, and its image ids with it. */
    method OnWindowClose(w: string) returns (ghost sent: seq<HostCommand>)
      requires Agreed()
      modifies this`placements, this`remoteVideo, this`pendingOutput, this`imageIDMap
      ensures Agreed() && Tracked() == After(Close(w), old(Tracked()), Cfg())
      ensures imageIDMap == if enabled then old(imageIDMap) - {w} else old(imageIDMap)
      ensures pendingOutput == old(pendingOutput) + sent && Sends(sent, Close(w), old(Tracked()), Cfg())
      ensures Now() == Happen(Do(Close(w)), old(Now()), Cfg())
      ensures old(Allocated(Now())) ==> Allocated(Now())
    {
      hide Allocated;
      DoKeepsAllocated(Close(w), Now(), Cfg());
      ghost var s, start := Tracked(), pendingOutput;
      sent := [];
      if !enabled {
        NothingSent(Close(w), s, Cfg());
        return;
      }
      sent := DeleteEverything(Close(w));
      placements := placements - {w};
      imageIDMap := imageIDMap - {w};
      Concluded(Close(w), s, Cfg(), hostOut, start, sent);
    }
  
    // ---- host image ids --------------------------------------------------------------------------

    method AllocateHostID() returns (id: int)
      requires 1 <= nextHostID < ID_LIMIT
      modifies this`nextHostID
      ensures id == old(nextHostID) && nextHostID == NextID(id)
    {
      id := nextHostID;
      nextHostID := (nextHostID + 1) % ID_LIMIT;
      if nextHostID == 0 {
        nextHostID := 1;
      }
    }

    /** The host id of a guest's image: always the same one, and nobody else's. */
    method GetOrAllocateHostID(w: string, guest: int) returns (id: int)
      requires 1 <= nextHostID < ID_LIMIT
      modifies this`nextHostID, this`imageIDMap
      ensures Holds(imageIDMap, w, guest) && imageIDMap[w][guest] == id
      ensures IDBook() == Given(old(IDBook()), w, guest)
    {
      ghost var before := imageIDMap;
      if w !in imageIDMap {
        imageIDMap := imageIDMap[w := map[]];
      }
      if guest in imageIDMap[w] {
        return imageIDMap[w][guest];
      }
      id := AllocateHostID();
      imageIDMap := imageIDMap[w := imageIDMap[w][guest := id]];
      assert imageIDMap == Stored(before, w, guest, id);
    }

    /** Guest id 0 asks for an image of its own each time. */
    method AssignHostID(w: string, guest: int) returns (id: int)
      requires 1 <= nextHostID < ID_LIMIT
      modifies this`nextHostID, this`imageIDMap
      ensures id == IDFor(old(IDBook()), w, guest) && IDBook() == Identified(old(IDBook()), w, guest)
    {
      ghost var before := imageIDMap;
      if w !in imageIDMap {
        imageIDMap := imageIDMap[w := map[]];
      }
      assert guest != 0 ==> imageIDMap[w := PaneOf(imageIDMap, w)] == imageIDMap;
      if guest == 0 {
        id := AllocateHostID();
      } else {
        id := GetOrAllocateHostID(w, guest);
      }
    }

    /** Tracks the image of a completed transmission, hidden until the next refresh. */
    method Track(w: string, guest: int, image: Placement) returns (id: int)
      requires Agreed() && Allocated(Now())
      modifies this`placements, this`nextHostID, this`imageIDMap
      ensures Now() == Happen(Event.Track(w, guest, image), old(Now()), Cfg())
      ensures id == IDFor(old(IDBook()), w, guest)
      ensures Agreed() <==> old(Vacant(Now(), w, guest))
      ensures Allocated(Now()) <==> old(Known(IDBook(), w, guest) || nextHostID != ID_LIMIT - 1)
    {
      ghost var world := Now();
      assert 1 <= nextHostID < ID_LIMIT;
      hide Allocated, Vacant, Agrees, Identified, Put, Replay, After;
      TrackAgrees(w, guest, image, world, Cfg(), Replay(map[], hostOut + pendingOutput));
      TrackKeepsAllocated(w, guest, image, world, Cfg());
      id := AssignHostID(w, guest);
      Register(w, image.(hostID := id, placementID := 0, hidden := true));
    }

    /** Adds a record to the window's placements. */
    method Register(w: string, p: Placement)
      modifies this`placements
      ensures placements == Put(old(placements), w, p)
    {
      if w !in placements {
        placements := placements[w := map[]];
      }
      placements := placements[w := placements[w][p.hostID := p]];
      assert placements == Put(old(placements), w, p);
    }
  }
}
