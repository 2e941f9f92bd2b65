/**
  Two writers, one video image: the render loop queues re-placements when a refresh moves the image,
  while the background writer sends whole frames, each with the geometry it read before writing. The
  host shows whatever was written last. A run is any interleaving of their atomic steps; the image
  stays visible throughout.
 */
module VideoWriter {
  import opened KittyPlacement

  /** Where the image is shown: its corner, and its extent with the crop. */
  datatype Geometry = Geometry(x: int, y: int, shape: Shape)

  function GeometryOf(v: Video): Geometry {
    Geometry(v.hostX, v.hostY, ShowShape(v))
  }

  /** How far the background writer has got with the frame it took from the channel. */
  datatype Writer =
    | Idle
    | Taken
    | Read(g: Geometry)
    | Written(g: Geometry)
    | Fix(g: Geometry)

  /** `pending` is waiting in the passthrough, `flight` was taken to be flushed; both in order. */
  datatype State = State(desired: Geometry, queued: bool, writer: Writer, pending: seq<Geometry>, flight: seq<Geometry>,
                         host: Geometry)

  datatype Action =
    | Refresh(g: Geometry, resend: bool)
    | NewFrame(g: Geometry)
    | Receive | ReadGeometry | WriteFrame | Recheck | WriteFix
    | TakePending | WriteFlight

  /** Whether the action can be taken. The render loop finishes one flush before it starts the next. */
  predicate Can(a: Action, s: State) {
    match a
    case Refresh(_, _) => true
    case NewFrame(_) => true
    case Receive => s.writer.Idle? && s.queued
    case ReadGeometry => s.writer.Taken?
    case WriteFrame => s.writer.Read?
    case Recheck => s.writer.Written?
    case WriteFix => s.writer.Fix?
    case TakePending => s.pending != [] && s.flight == []
    case WriteFlight => s.flight != []
  }

  /**
    One atomic step. A refresh queues a re-placement whenever it changes the geometry. A guest frame
    can change the size the image wants, but queues nothing beside itself; with a frame still in
    the channel it is dropped before it changes anything.
   */
  function Take(a: Action, s: State): State
    requires Can(a, s)
  {
    match a
    case Refresh(g, resend) =>
      s.(desired := g, pending := if g != s.desired || resend then s.pending + [g] else s.pending)
    case NewFrame(g) => if s.queued then s else s.(desired := g, queued := true)
    case Receive => s.(queued := false, writer := Taken)
    case ReadGeometry => s.(writer := Read(s.desired))
    case WriteFrame => s.(host := s.writer.g, writer := Written(s.writer.g))
    case Recheck => s.(writer := if s.desired == s.writer.g then Idle else Fix(s.desired))
    case WriteFix => s.(host := s.writer.g, writer := Idle)
    case TakePending => s.(pending := [], flight := s.pending)
    case WriteFlight => s.(host := s.flight[|s.flight| - 1], flight := [])
  }

  predicate CanAll(run: seq<Action>, s: State) {
    run != [] ==> Can(run[0], s) && CanAll(run[1..], Take(run[0], s))
  }

  function TakeAll(run: seq<Action>, s: State): State
    requires CanAll(run, s)
  {
    if run == [] then s else TakeAll(run[1..], Take(run[0], s))
  }

  function Queue(s: State): seq<Geometry> { s.flight + s.pending }

  /** Nothing is on its way to the host any more. */
  predicate Settled(s: State) {
    !s.queued && s.writer.Idle? && Queue(s) == []
  }

  predicate Converged(s: State) { s.host == s.desired }

  /** The state from which the two writers are bound to converge. */
  predicate OnCourse(s: State) {
    && (Queue(s) != [] ==> Queue(s)[|Queue(s)| - 1] == s.desired)
    && (!s.queued ==>
         match s.writer
         case Idle => Queue(s) == [] ==> s.host == s.desired
         case Taken => true
         case Read(_) => true
         case Written(g) => Queue(s) == [] && g == s.desired ==> s.host == s.desired
         case Fix(g) => g == s.desired)
  }

  /**
    The two ways off course. A refresh changes the geometry between the writer's second look and its
    corrective write, with no further frame waiting; or a frame changes it while an older
    re-placement is still queued.
   */
  predicate Derails(a: Action, s: State) {
    || (a.Refresh? && a.g != s.desired && s.writer.Fix? && !s.queued)
    || (a.NewFrame? && a.g != s.desired && !s.queued && Queue(s) != [])
  }

  lemma {:induction false} RefreshOnCourse(a: Action, s: State)
    requires a.Refresh? && OnCourse(s)
    ensures OnCourse(Take(a, s)) <==> !Derails(a, s)
  {
    var t := Take(a, s);
    if s.pending != t.pending {
      assert Queue(t) == Queue(s) + [a.g];
    }
  }

  lemma {:induction false} FlushOnCourse(a: Action, s: State)
    requires (a.TakePending? || a.WriteFlight?) && Can(a, s) && OnCourse(s)
    ensures OnCourse(Take(a, s))
  {
    assert s.flight + [] == s.flight && [] + s.pending == s.pending;
  }

  /** A step from a state on course stays on course exactly when it is not one of those two. */
  lemma {:induction false} StaysOnCourse(a: Action, s: State)
    requires Can(a, s) && OnCourse(s)
    ensures OnCourse(Take(a, s)) <==> !Derails(a, s)
  {
    if a.Refresh? {
      RefreshOnCourse(a, s);
    } else if a.TakePending? || a.WriteFlight? {
      FlushOnCourse(a, s);
    }
  }

  predicate NeverDerails(run: seq<Action>, s: State)
    requires CanAll(run, s)
  {
    run != [] ==> !Derails(run[0], s) && NeverDerails(run[1..], Take(run[0], s))
  }

  lemma {:induction false} RunStaysOnCourse(run: seq<Action>, s: State)
    requires CanAll(run, s) && OnCourse(s) && NeverDerails(run, s)
    ensures OnCourse(TakeAll(run, s))
  {
    if run != [] {
      StaysOnCourse(run[0], s);
      RunStaysOnCourse(run[1..], Take(run[0], s));
    }
  }

  /**
    Convergence: along every interleaving of frames, refreshes, writes and flushes with none of the
    two derailing steps, once all output has reached the host, the image is where it was last wanted.
   */
  lemma {:induction false} WritersConverge(run: seq<Action>, s: State)
    requires CanAll(run, s) && OnCourse(s) && NeverDerails(run, s)
    requires Settled(TakeAll(run, s))
    ensures Converged(TakeAll(run, s))
  {
    RunStaysOnCourse(run, s);
  }

  // ---- nothing weaker would do -----------------------------------------------------------------

  /** A step that only moves output along. */
  predicate Drains(a: Action) { !a.Refresh? && !a.NewFrame? }

  predicate AllDrain(run: seq<Action>) { forall i :: 0 <= i < |run| ==> Drains(run[i]) }

  lemma {:induction false} DrainsNeverDerail(run: seq<Action>, s: State)
    requires CanAll(run, s) && AllDrain(run)
    ensures NeverDerails(run, s)
  {
    if run != [] {
      assert Drains(run[0]);
      DrainsNeverDerail(run[1..], Take(run[0], s));
    }
  }

  lemma {:induction false} TakeBoth(a: seq<Action>, b: seq<Action>, s: State)
    requires CanAll(a, s) && CanAll(b, TakeAll(a, s))
    ensures CanAll(a + b, s) && TakeAll(a + b, s) == TakeAll(b, TakeAll(a, s))
  {
    if a == [] {
      assert a + b == b;
    } else {
      TakeBoth(a[1..], b, Take(a[0], s));
      assert (a + b)[1..] == a[1..] + b && (a + b)[0] == a[0];
    }
  }

  lemma {:induction false} ThenRun(a: Action, s: State, rest: seq<Action>)
    requires Can(a, s) && CanAll(rest, Take(a, s)) && Drains(a) && AllDrain(rest)
    ensures CanAll([a] + rest, s) && TakeAll([a] + rest, s) == TakeAll(rest, Take(a, s)) && AllDrain([a] + rest)
  {
    assert ([a] + rest)[1..] == rest;
  }

  /** How many steps the writer still has to take. */
  function ToGo(s: State): nat {
    (if s.queued then 6 else 0) +
    match s.writer
    case Idle => 0
    case Taken => 4
    case Read(_) => 3
    case Written(_) => 2
    case Fix(_) => 1
  }

  /** The writer can finish on its own, leaving the queue and the wanted geometry alone. */
  lemma {:induction false} WriterFinishes(s: State) returns (run: seq<Action>)
    ensures CanAll(run, s) && AllDrain(run)
    ensures var t := TakeAll(run, s);
            !t.queued && t.writer.Idle? && t.pending == s.pending && t.flight == s.flight && t.desired == s.desired
    ensures s.writer.Idle? && !s.queued ==> run == []
    ensures s.writer.Fix? && !s.queued ==> TakeAll(run, s).host == s.writer.g
    decreases ToGo(s)
  {
    if s.writer.Idle? && !s.queued {
      return [];
    }
    var a := match s.writer
             case Idle => Receive
             case Taken => ReadGeometry
             case Read(_) => WriteFrame
             case Written(_) => Recheck
             case Fix(_) => WriteFix;
    var rest := WriterFinishes(Take(a, s));
    ThenRun(a, s, rest);
    return [a] + rest;
  }

  /** What shows once all of the queue has been written. */
  function Flushed(s: State): Geometry {
    if Queue(s) != [] then Queue(s)[|Queue(s)| - 1] else s.host
  }

  lemma {:induction false} FlushStep(s: State)
    requires Queue(s) != []
    ensures var a := if s.flight != [] then WriteFlight else TakePending;
            Can(a, s) && Flushed(Take(a, s)) == Flushed(s)
  {
    if s.flight == [] {
      assert Queue(Take(TakePending, s)) == Queue(s);
    } else {
      assert Queue(Take(WriteFlight, s)) == s.pending;
      assert s.pending == [] ==> Queue(s) == s.flight;
    }
  }

  /** The queue can be flushed on its own, and then its last geometry is what shows. */
  lemma {:induction false} QueueEmpties(s: State) returns (run: seq<Action>)
    ensures CanAll(run, s) && AllDrain(run)
    ensures var t := TakeAll(run, s);
            && t.queued == s.queued && t.writer == s.writer && t.desired == s.desired
            && Queue(t) == [] && t.host == Flushed(s)
    ensures Queue(s) == [] ==> run == []
    decreases 2 * |s.pending| + |s.flight|
  {
    if Queue(s) == [] {
      return [];
    }
    FlushStep(s);
    var a := if s.flight != [] then WriteFlight else TakePending;
    var rest := QueueEmpties(Take(a, s));
    ThenRun(a, s, rest);
    return [a] + rest;
  }

  /**
    From a state off course, some order of the writes already under way leaves the image in the wrong
    place for good. So a state converges along every such order exactly when it is on course.
   */
  lemma {:induction false} OffCourseDiverges(s: State) returns (run: seq<Action>)
    requires !OnCourse(s)
    ensures CanAll(run, s) && AllDrain(run) && Settled(TakeAll(run, s)) && !Converged(TakeAll(run, s))
  {
    if Queue(s) != [] && Queue(s)[|Queue(s)| - 1] != s.desired {
      // The writer gets through first, then the stale re-placement lands.
      var first := WriterFinishes(s);
      var second := QueueEmpties(TakeAll(first, s));
      TakeBoth(first, second, s);
      run := first + second;
    } else {
      // The queue is flushed first, then the writer lands its own stale geometry, or does nothing.
      var first := QueueEmpties(s);
      var t := TakeAll(first, s);
      var second := WriterFinishes(t);
      TakeBoth(first, second, s);
      run := first + second;
    }
  }

  ghost predicate AlwaysConverges(s: State) {
    forall run :: CanAll(run, s) && AllDrain(run) && Settled(TakeAll(run, s)) ==> Converged(TakeAll(run, s))
  }

  lemma {:induction false} OnCourseIsExact(s: State)
    ensures OnCourse(s) <==> AlwaysConverges(s)
  {
    if OnCourse(s) {
      forall run | CanAll(run, s) && AllDrain(run) && Settled(TakeAll(run, s))
        ensures Converged(TakeAll(run, s))
      {
        DrainsNeverDerail(run, s);
        WritersConverge(run, s);
      }
    } else {
      var run := OffCourseDiverges(s);
    }
  }

  /**
    Off course is not for ever: a refresh that sends a re-placement sets things right, whatever went
    before, exactly if no corrective write with another geometry is due with no frame behind it.
   */
  lemma {:induction false} RefreshSetsRight(a: Action, s: State)
    requires a.Refresh? && (a.g != s.desired || a.resend)
    ensures OnCourse(Take(a, s)) <==> s.queued || !s.writer.Fix? || s.writer.g == a.g
  {
    assert Queue(Take(a, s)) == Queue(s) + [a.g];
  }

  /** So does a new frame, exactly if no other re-placement is queued; one that is dropped changes nothing. */
  lemma {:induction false} FrameSetsRight(a: Action, s: State)
    requires a.NewFrame?
    ensures OnCourse(Take(a, s)) <==>
            if s.queued then OnCourse(s) else Queue(s) == [] || Queue(s)[|Queue(s)| - 1] == a.g
  {
    assert s.queued ==> Take(a, s) == s;
  }

  /**
    The writer is handed its first frame. A re-placement from before, when the image was placed like
    any other, may still be on its way, if it is to where the image is wanted.
   */
  predicate HandOff(s: State) {
    s.queued && (Queue(s) != [] ==> Queue(s)[|Queue(s)| - 1] == s.desired)
  }

  /** Of the states with a frame waiting, exactly these converge along every order of the writes under way. */
  lemma {:induction false} HandOffIsExact(s: State)
    requires s.queued
    ensures HandOff(s) <==> AlwaysConverges(s)
  {
    OnCourseIsExact(s);
  }

  /** From there the two writers converge along every run without a derailing step. */
  lemma {:induction false} ConvergesFromHandOff(run: seq<Action>, s: State)
    requires HandOff(s) && CanAll(run, s) && NeverDerails(run, s)
    ensures OnCourse(TakeAll(run, s)) && (Settled(TakeAll(run, s)) ==> Converged(TakeAll(run, s)))
  {
    RunStaysOnCourse(run, s);
  }

  /** Equal geometry is shown by equal commands. */
  lemma {:induction false} GeometryIsCommand(image: int, v: Video, w: Video)
    requires GeometryOf(v) == GeometryOf(w)
    ensures VideoReplace(image, v) == VideoReplace(image, w)
  {
  }

  // ---- the refresh step is the refresh of KittyPlacement ----------------------------------------

  /** While the image stays visible a refresh sends a re-placement, with the new geometry, whenever that changed. */
  lemma {:induction false} RefreshQueuesChanges(image: int, v: Video, info: WindowInfo, windows: Windows, id: string)
    requires !v.hidden && !RefreshVideo(image, v, info, windows, id).next.hidden
    requires !RefreshVideo(image, v, info, windows, id).dropped
    ensures var step := RefreshVideo(image, v, info, windows, id);
            && (GeometryOf(step.next) != GeometryOf(v) ==> step.sent != [])
            && (step.sent != [] ==> step.sent == [VideoReplace(image, step.next)])
  {
  }
}
