/**
  How an operation comes together from its steps: image by image within a window, window by window,
  in whatever order the images are visited.
 */
module KittyStream {
  import opened HostIDs
  import opened KittyPlacement
  import opened KittyHost
  import opened KittyProtocol

  /** The steps an operation takes on one window's images. */
  type Steps<T> = map<int, Step<T>>

  /** The images once those outside `todo` have taken their step; dropped ones are gone. */
  ghost predicate Stepped<T>(now: map<int, T>, m: map<int, T>, todo: set<int>, steps: Steps<T>) {
    && steps.Keys == m.Keys
    && (forall i :: i in now <==> i in m && (i in todo || !steps[i].dropped))
    && (forall i :: i in now ==> now[i] == if i in todo then m[i] else steps[i].next)
  }

  function Outcome<T>(steps: Steps<T>): map<int, T> {
    map i | i in steps && !steps[i].dropped :: steps[i].next
  }

  function Taken<T>(now: map<int, T>, i: int, step: Step<T>): map<int, T> {
    if step.dropped then now - {i} else now[i := step.next]
  }

  lemma {:induction false} SteppedMore<T>(now: map<int, T>, m: map<int, T>, todo: set<int>, steps: Steps<T>, i: int)
    requires Stepped(now, m, todo, steps) && i in todo && i in m
    ensures i in now && now[i] == m[i] && i in steps
    ensures Stepped(Taken(now, i, steps[i]), m, todo - {i}, steps)
  {
  }

  lemma {:induction false} SteppedAll<T>(now: map<int, T>, m: map<int, T>, steps: Steps<T>)
    requires Stepped(now, m, {}, steps)
    ensures now == Outcome(steps)
  {
    var outcome := Outcome(steps);
    forall i: int
      ensures i in now <==> i in outcome
      ensures i in now ==> now[i] == outcome[i]
    {
    }
  }

  /** Every step's commands are about its own image. */
  ghost predicate Own<T>(steps: Steps<T>) {
    forall i :: i in steps ==> forall c :: c in steps[i].sent ==> c.image == i
  }

  /** Exactly the commands of the steps taken have been sent. */
  ghost predicate PaneSends<T>(steps: Steps<T>, todo: set<int>, sent: seq<HostCommand>) {
    forall i :: About(sent, i) == if i in steps && i !in todo then steps[i].sent else []
  }

  lemma {:induction false} AboutMore(sent: seq<HostCommand>, more: seq<HostCommand>, i: int, k: int)
    requires forall c :: c in more ==> c.image == i
    ensures k == i && About(sent, i) == [] ==> About(sent + more, k) == more
    ensures k != i ==> About(sent + more, k) == About(sent, k)
  {
    AboutConcat(sent, more, k);
    AboutOne(more, i, k);
  }

  lemma {:induction false} PaneSendsMore<T>(steps: Steps<T>, todo: set<int>, sent: seq<HostCommand>, i: int)
    requires Own(steps) && PaneSends(steps, todo, sent) && i in steps && i in todo
    ensures PaneSends(steps, todo - {i}, sent + steps[i].sent)
  {
    assert About(sent, i) == [];
    forall k: int
      ensures About(sent + steps[i].sent, k) == if k in steps && k !in todo - {i} then steps[k].sent else []
    {
      AboutMore(sent, steps[i].sent, i, k);
    }
  }

  type AllSteps<T> = map<string, Steps<T>>

  ghost predicate WindowsSend<T>(all: AllSteps<T>, todo: set<string>, sent: seq<HostCommand>) {
    && (forall w, i :: Holds(all, w, i) && w !in todo ==> About(sent, i) == all[w][i].sent)
    && (forall i :: (forall w :: w !in todo ==> !Holds(all, w, i)) ==> About(sent, i) == [])
  }

  lemma {:induction false} WindowsSendMore<T>(all: AllSteps<T>, todo: set<string>, sent: seq<HostCommand>, w: string,
                                              more: seq<HostCommand>)
    requires Single(all) && WindowsSend(all, todo, sent) && w in all && w in todo
    requires PaneSends(all[w], {}, more)
    ensures WindowsSend(all, todo - {w}, sent + more)
  {
    forall v: string, i: int | Holds(all, v, i) && v !in todo - {w}
      ensures About(sent + more, i) == all[v][i].sent
    {
      AboutConcat(sent, more, i);
      if v == w {
        assert forall u: string :: u !in todo ==> !Holds(all, u, i);
      } else {
        assert !Holds(all, w, i);
      }
    }
    forall i: int | forall v: string :: v !in todo - {w} ==> !Holds(all, v, i)
      ensures About(sent + more, i) == []
    {
      AboutConcat(sent, more, i);
      assert !Holds(all, w, i);
    }
  }

  // ---- the steps of an operation ---------------------------------------------------------------

  function PlacementSteps(op: Operation, s: State, cfg: Config, w: string): Steps<Placement> {
    if w in s.placements then map i | i in s.placements[w] :: PlacementStep(op, s, cfg, w, i) else map[]
  }

  function VideoSteps(op: Operation, s: State, cfg: Config, w: string): Steps<Video> {
    if w in s.videos then map i | i in s.videos[w] :: VideoStep(op, s, cfg, w, i) else map[]
  }

  function AllPlacementSteps(op: Operation, s: State, cfg: Config): AllSteps<Placement> {
    map w | w in s.placements :: PlacementSteps(op, s, cfg, w)
  }

  function AllVideoSteps(op: Operation, s: State, cfg: Config): AllSteps<Video> {
    map w | w in s.videos :: VideoSteps(op, s, cfg, w)
  }

  lemma {:induction false} PlacementStepsOwn(op: Operation, s: State, cfg: Config)
    requires Unique(s.placements, s.videos)
    ensures forall w :: Own(PlacementSteps(op, s, cfg, w))
    ensures Single(AllPlacementSteps(op, s, cfg))
  {
    forall w: string
      ensures Own(PlacementSteps(op, s, cfg, w))
    {
      if w in s.placements {
        forall i | i in s.placements[w]
          ensures forall c :: c in PlacementStep(op, s, cfg, w, i).sent ==> c.image == i
        {
          assert Holds(s.placements, w, i);
        }
      }
    }
    var all := AllPlacementSteps(op, s, cfg);
    assert forall w, i :: Holds(all, w, i) <==> Holds(s.placements, w, i);
  }

  lemma {:induction false} VideoStepsOwn(op: Operation, s: State, cfg: Config)
    requires Unique(s.placements, s.videos)
    ensures forall w :: Own(VideoSteps(op, s, cfg, w))
    ensures Single(AllVideoSteps(op, s, cfg))
  {
    var all := AllVideoSteps(op, s, cfg);
    assert forall w, i :: Holds(all, w, i) <==> Holds(s.videos, w, i);
  }

  lemma {:induction false} AllPlacementsSent(op: Operation, s: State, cfg: Config, sent: seq<HostCommand>)
    requires WindowsSend(AllPlacementSteps(op, s, cfg), {}, sent)
    ensures forall w, i :: Holds(s.placements, w, i) ==> About(sent, i) == PlacementStep(op, s, cfg, w, i).sent
    ensures forall i: int :: !Has(s.placements, i) ==> About(sent, i) == []
  {
    var all := AllPlacementSteps(op, s, cfg);
    assert forall w, i :: Holds(all, w, i) <==> Holds(s.placements, w, i);
  }

  lemma {:induction false} AllVideosSent(op: Operation, s: State, cfg: Config, sent: seq<HostCommand>)
    requires WindowsSend(AllVideoSteps(op, s, cfg), {}, sent)
    ensures forall w, i :: Holds(s.videos, w, i) ==> About(sent, i) == VideoStep(op, s, cfg, w, i).sent
    ensures forall i: int :: !Has(s.videos, i) ==> About(sent, i) == []
  {
    var all := AllVideoSteps(op, s, cfg);
    assert forall w, i :: Holds(all, w, i) <==> Holds(s.videos, w, i);
  }

  /** An operation that has visited all its video images and all its placements has sent what it should. */
  lemma {:induction false} BothSend(op: Operation, s: State, cfg: Config, videos: seq<HostCommand>,
                                    placements: seq<HostCommand>)
    requires Unique(s.placements, s.videos)
    requires WindowsSend(AllVideoSteps(op, s, cfg), {}, videos)
    requires WindowsSend(AllPlacementSteps(op, s, cfg), {}, placements)
    ensures Sends(videos + placements, op, s, cfg)
  {
    AllPlacementsSent(op, s, cfg, placements);
    AllVideosSent(op, s, cfg, videos);
    SendsEither(op, s, cfg, videos, placements, videos + placements);
  }

  lemma {:induction false} SendsEither(op: Operation, s: State, cfg: Config, a: seq<HostCommand>, b: seq<HostCommand>,
                                       sent: seq<HostCommand>)
    requires Unique(s.placements, s.videos) && (sent == a + b || sent == b + a)
    requires forall w, i :: Holds(s.placements, w, i) ==> About(b, i) == PlacementStep(op, s, cfg, w, i).sent
    requires forall i: int :: !Has(s.placements, i) ==> About(b, i) == []
    requires forall w, i :: Holds(s.videos, w, i) ==> About(a, i) == VideoStep(op, s, cfg, w, i).sent
    requires forall i: int :: !Has(s.videos, i) ==> About(a, i) == []
    ensures Sends(sent, op, s, cfg)
  {
    hide About, PlacementStep, VideoStep, Single;
    forall i: int
      ensures About(sent, i) == if Has(s.videos, i) then About(a, i) else About(b, i)
    {
      if Has(s.videos, i) {
        assert !Has(s.placements, i);
      }
      AboutConcat(a, b, i);
      AboutConcat(b, a, i);
    }
  }

  /** An operation on one window leaves every other window's images alone. */
  predicate Only(op: Operation, w: string) {
    (op.Move? || op.Clear? || op.Close?) && op.window == w
  }

  lemma {:induction false} OnlyPlacements(op: Operation, s: State, cfg: Config, w: string, sent: seq<HostCommand>)
    requires Unique(s.placements, s.videos) && Only(op, w) && PaneSends(PlacementSteps(op, s, cfg, w), {}, sent)
    ensures forall v, i :: Holds(s.placements, v, i) ==> About(sent, i) == PlacementStep(op, s, cfg, v, i).sent
    ensures forall i: int :: !Has(s.placements, i) ==> About(sent, i) == []
  {
    hide RefreshOne, MoveOne, About;
    forall v: string, i: int | Holds(s.placements, v, i)
      ensures About(sent, i) == PlacementStep(op, s, cfg, v, i).sent
    {
      assert v != w ==> !Holds(s.placements, w, i);
    }
    forall i: int | !Has(s.placements, i)
      ensures About(sent, i) == []
    {
      assert !Holds(s.placements, w, i);
    }
  }

  lemma {:induction false} OnlyVideos(op: Operation, s: State, cfg: Config, w: string, sent: seq<HostCommand>)
    requires Unique(s.placements, s.videos) && Only(op, w) && PaneSends(VideoSteps(op, s, cfg, w), {}, sent)
    ensures forall v, i :: Holds(s.videos, v, i) ==> About(sent, i) == VideoStep(op, s, cfg, v, i).sent
    ensures forall i: int :: !Has(s.videos, i) ==> About(sent, i) == []
  {
    forall v: string, i: int | Holds(s.videos, v, i)
      ensures About(sent, i) == VideoStep(op, s, cfg, v, i).sent
    {
      assert v != w ==> !Holds(s.videos, w, i);
    }
    forall i: int | !Has(s.videos, i)
      ensures About(sent, i) == []
    {
      assert !Holds(s.videos, w, i);
    }
  }

  lemma {:induction false} OneWindowSends(op: Operation, s: State, cfg: Config, w: string, placements: seq<HostCommand>,
                                          videos: seq<HostCommand>)
    requires Unique(s.placements, s.videos) && Only(op, w)
    requires PaneSends(PlacementSteps(op, s, cfg, w), {}, placements)
    requires PaneSends(VideoSteps(op, s, cfg, w), {}, videos)
    ensures Sends(placements + videos, op, s, cfg)
  {
    OnlyPlacements(op, s, cfg, w, placements);
    OnlyVideos(op, s, cfg, w, videos);
    SendsEither(op, s, cfg, videos, placements, placements + videos);
  }

  lemma {:induction false} NothingSent(op: Operation, s: State, cfg: Config)
    requires !Runs(op, cfg)
    ensures Sends([], op, s, cfg)
  {
  }
}
