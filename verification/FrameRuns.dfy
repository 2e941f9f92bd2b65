/**
  Whole runs of the compositor: frame after frame, layers are moved, raised, renamed, added and
  dropped, the canvas is replaced or resized, and the screen is turned into text or not.
 */
module FrameRuns {
  import opened Common
  import opened CanvasRow
  import opened StableSort
  import opened Compose
  import opened LayerRecords
  import opened FrameDiff
  import opened Compositor

  // ---- runs on values ------------------------------------------------------------------------

  /** Where a layer is and what it is called. */
  datatype Pose = Pose(x: int, y: int, z: int, id: string)

  datatype Setting = Setting(layer: Layer, pose: Pose)

  /** What each layer was last set to. */
  type Scene = map<Layer, Pose>

  /** A layer nobody has set yet is as it was built. */
  function PoseOf(scene: Scene, layer: Layer): Pose {
    if layer in scene then scene[layer] else Pose(0, 0, 0, "")
  }

  function Stands(scene: Scene, layer: Layer): Drawn {
    var pose := PoseOf(scene, layer);
    Drawn(layer, pose.id, pose.z, Placed(pose.x, pose.y, layer.content))
  }

  function SetAll(scene: Scene, settings: seq<Setting>): Scene {
    if settings == [] then scene
    else
      var last := settings[|settings| - 1];
      SetAll(scene, settings[..|settings| - 1])[last.layer := last.pose]
  }

  /** One frame: what changed since the last, the canvas and its size now, and the layers to show. */
  datatype Frame = Frame(settings: seq<Setting>, canvas: Canvas, width: nat, height: nat, left: Grid,
                         layers: seq<Layer>, render: bool)

  function AllStand(scene: Scene, layers: seq<Layer>): (r: seq<Drawn>)
    ensures |r| == |layers| && forall i :: 0 <= i < |layers| ==> r[i] == Stands(scene, layers[i])
  {
    seq(|layers|, i requires 0 <= i < |layers| => Stands(scene, layers[i]))
  }

  /** The layers in z order as they stand. */
  function Listing(scene: Scene, layers: seq<Layer>): seq<Drawn> { Sort(AllStand(scene, layers), ZKey) }

  /** How the screen stands between frames: the last frame with each layer taken once, and what it left. */
  datatype Screen = Screen(scene: Scene, last: seq<Drawn>, canvas: Canvas?, width: nat, height: nat, cells: Grid,
                           text: string)

  /** Before the first frame. */
  function Nothing(): Screen { Screen(map[], [], null, 0, 0, [], "") }

  /** The layers a frame shows, bottom first. */
  function Shown(s: Screen, f: Frame): seq<Drawn> { Listing(SetAll(s.scene, f.settings), f.layers) }

  /** The rows it redraws. */
  function Rows(picture: string -> Picture, s: Screen, f: Frame): (rows: seq<bool>)
    ensures |rows| == f.height
  {
    RedrawnRows(picture, s.last, Shown(s, f), f.height, (f.canvas, f.width, f.height) != (s.canvas, s.width, s.height))
  }

  /** What one frame does. */
  function After(picture: string -> Picture, renderRow: Row -> string, s: Screen, f: Frame): Screen {
    var list := Shown(s, f);
    var cells := Paint(picture, list, s.cells, Rows(picture, s, f), f.width);
    Screen(SetAll(s.scene, f.settings), FirstOnly(list), f.canvas, f.width, f.height, cells,
           if f.render && f.height > 0 then Rendered(cells, renderRow) else s.text)
  }

  function Run(picture: string -> Picture, renderRow: Row -> string, s: Screen, frames: seq<Frame>): Screen {
    if frames == [] then s
    else After(picture, renderRow, Run(picture, renderRow, s, frames[..|frames| - 1]), frames[|frames| - 1])
  }

  // ---- what runs keep ------------------------------------------------------------------------

  ghost predicate Sized(s: Screen) { |s.cells| == s.height }

  /** The row shows the last frame with each of its layers taken once. */
  ghost predicate Right(picture: string -> Picture, s: Screen, cy: nat) {
    cy < s.height && cy < |s.cells| && s.cells[cy] == FullRow(s.last, picture, s.width, s.height, cy)
  }

  /** Passing each layer of the list once would show the same on the row. */
  ghost predicate RepeatsHidden(picture: string -> Picture, list: seq<Drawn>, w: nat, h: nat, cy: nat)
    requires cy < h
  {
    FullRow(list, picture, w, h, cy) == FullRow(FirstOnly(list), picture, w, h, cy)
  }

  /** The frame that last redrew the row has no repeated layer that matters there. */
  ghost predicate Clean(picture: string -> Picture, renderRow: Row -> string, s: Screen, frames: seq<Frame>, cy: nat) {
    if frames == [] then Right(picture, s, cy)
    else
      var before, f := Run(picture, renderRow, s, frames[..|frames| - 1]), frames[|frames| - 1];
      && cy < f.height
      && (if Rows(picture, before, f)[cy] then RepeatsHidden(picture, Shown(before, f), f.width, f.height, cy)
          else Clean(picture, renderRow, s, frames[..|frames| - 1], cy))
  }

  /** One frame: a row is right afterwards if redrawn, or if it was right before. */
  lemma {:induction false} FrameRight(picture: string -> Picture, renderRow: Row -> string, s: Screen, f: Frame,
                                      cy: nat)
    requires (forall c :: Drawable(picture(c))) && Sized(s) && cy < f.height
    ensures var s' := After(picture, renderRow, s, f);
            && Sized(s')
            && (s'.cells[cy] == FullRow(Shown(s, f), picture, f.width, f.height, cy) <==>
                Rows(picture, s, f)[cy] || Right(picture, s, cy))
            && (Right(picture, s', cy) <==>
                if Rows(picture, s, f)[cy] then RepeatsHidden(picture, Shown(s, f), f.width, f.height, cy)
                else Right(picture, s, cy))
  {
    var list, rows := Shown(s, f), Rows(picture, s, f);
    var redraw := (f.canvas, f.width, f.height) != (s.canvas, s.width, s.height);
    if !rows[cy] {
      NotRedrawnIsSame(picture, s.last, list, f.width, f.height, redraw, cy);
      AllFirst(list);
    }
  }

  lemma {:induction false} RunSized(picture: string -> Picture, renderRow: Row -> string, s: Screen, frames: seq<Frame>)
    requires Sized(s)
    ensures Sized(Run(picture, renderRow, s, frames))
  {
  }

  /**
    Over any run, a row ends up showing exactly its frame if that frame redraws it, or the frame that
    last did has no repeated layer that matters there. In no other case.
   */
  lemma {:induction false} RunRight(picture: string -> Picture, renderRow: Row -> string, s: Screen, frames: seq<Frame>,
                                    f: Frame, cy: nat)
    requires (forall c :: Drawable(picture(c))) && Sized(s) && cy < f.height
    ensures var before := Run(picture, renderRow, s, frames);
            var now := After(picture, renderRow, before, f);
            now.cells[cy] == FullRow(Shown(before, f), picture, f.width, f.height, cy) <==>
            Rows(picture, before, f)[cy] || Clean(picture, renderRow, s, frames, cy)
  {
    CleanIsRight(picture, renderRow, s, frames, cy);
    RunSized(picture, renderRow, s, frames);
    FrameRight(picture, renderRow, Run(picture, renderRow, s, frames), f, cy);
  }

  lemma {:induction false} CleanIsRight(picture: string -> Picture, renderRow: Row -> string, s: Screen,
                                        frames: seq<Frame>, cy: nat)
    requires (forall c :: Drawable(picture(c))) && Sized(s)
    ensures Right(picture, Run(picture, renderRow, s, frames), cy) <==> Clean(picture, renderRow, s, frames, cy)
  {
    if frames != [] {
      var front, f := frames[..|frames| - 1], frames[|frames| - 1];
      CleanIsRight(picture, renderRow, s, front, cy);
      if cy < f.height {
        RunSized(picture, renderRow, s, front);
        FrameRight(picture, renderRow, Run(picture, renderRow, s, front), f, cy);
      }
    }
  }

  /** No frame of the run passes a layer twice. */
  ghost predicate NoRepeats(frames: seq<Frame>) {
    forall i :: 0 <= i < |frames| ==> Distinct(frames[i].layers)
  }

  lemma {:induction false} ShownOnce(s: Screen, f: Frame)
    requires Distinct(f.layers)
    ensures FirstOnly(Shown(s, f)) == Shown(s, f)
  {
    var list := AllStand(SetAll(s.scene, f.settings), f.layers);
    assert Layers(list) == f.layers;
    SortDistinct(list);
    AllFirst(Shown(s, f));
  }

  /** Every row shows the last frame. */
  ghost predicate AllRight(picture: string -> Picture, s: Screen) {
    forall cy :: 0 <= cy < s.height ==> Right(picture, s, cy)
  }

  /** A frame of distinct layers keeps every row right, and on a new or resized canvas makes it so. */
  lemma {:induction false} FrameKeepsRight(picture: string -> Picture, renderRow: Row -> string, s: Screen, f: Frame)
    requires (forall c :: Drawable(picture(c))) && Sized(s) && Distinct(f.layers)
    requires AllRight(picture, s) || (f.canvas, f.width, f.height) != (s.canvas, s.width, s.height)
    ensures var s' := After(picture, renderRow, s, f);
            && Sized(s') && AllRight(picture, s')
            && s'.cells == FullCompose(Places(Shown(s, f)), picture, f.width, f.height)
  {
    var s' := After(picture, renderRow, s, f);
    ShownOnce(s, f);
    forall cy | 0 <= cy < f.height
      ensures Right(picture, s', cy)
      ensures s'.cells[cy] == FullRow(Shown(s, f), picture, f.width, f.height, cy)
    {
      FrameRight(picture, renderRow, s, f, cy);
      assert f.height == s.height && AllRight(picture, s) ==> Right(picture, s, cy);
    }
  }

  /**
    Over any run of frames without repeated layers, begun on a canvas that shows the last frame, the
    canvas shows after every frame what clearing it and drawing every layer would.
   */
  lemma {:induction false} RunShowsEveryFrame(picture: string -> Picture, renderRow: Row -> string, s: Screen,
                                              frames: seq<Frame>, f: Frame)
    requires (forall c :: Drawable(picture(c))) && Sized(s) && AllRight(picture, s)
    requires NoRepeats(frames) && Distinct(f.layers)
    ensures var before := Run(picture, renderRow, s, frames);
            After(picture, renderRow, before, f).cells ==
            FullCompose(Places(Shown(before, f)), picture, f.width, f.height)
  {
    RunKeepsRight(picture, renderRow, s, frames);
    FrameKeepsRight(picture, renderRow, Run(picture, renderRow, s, frames), f);
  }

  lemma {:induction false} RunKeepsRight(picture: string -> Picture, renderRow: Row -> string, s: Screen,
                                         frames: seq<Frame>)
    requires (forall c :: Drawable(picture(c))) && Sized(s) && AllRight(picture, s) && NoRepeats(frames)
    ensures Sized(Run(picture, renderRow, s, frames)) && AllRight(picture, Run(picture, renderRow, s, frames))
  {
    if frames != [] {
      var front, f := frames[..|frames| - 1], frames[|frames| - 1];
      RunKeepsRight(picture, renderRow, s, front);
      FrameKeepsRight(picture, renderRow, Run(picture, renderRow, s, front), f);
    }
  }

  /** Whatever came before, a new or resized canvas sets everything right for the frames that follow. */
  lemma {:induction false} RightAgain(picture: string -> Picture, renderRow: Row -> string, s: Screen, g: Frame,
                                      frames: seq<Frame>, f: Frame)
    requires (forall c :: Drawable(picture(c))) && Sized(s)
    requires Distinct(g.layers) && (g.canvas, g.width, g.height) != (s.canvas, s.width, s.height)
    requires NoRepeats(frames) && Distinct(f.layers)
    ensures var before := Run(picture, renderRow, After(picture, renderRow, s, g), frames);
            After(picture, renderRow, before, f).cells ==
            FullCompose(Places(Shown(before, f)), picture, f.width, f.height)
  {
    FrameKeepsRight(picture, renderRow, s, g);
    RunShowsEveryFrame(picture, renderRow, After(picture, renderRow, s, g), frames, f);
  }

  /** A frame that shows what the last one did leaves the canvas alone. */
  lemma {:induction false} IdleFrame(picture: string -> Picture, renderRow: Row -> string, s: Screen, f: Frame)
    requires Sized(s) && Shown(s, f) == s.last && Distinct(Layers(s.last))
    requires (f.canvas, f.width, f.height) == (s.canvas, s.width, s.height)
    ensures Rows(picture, s, f) == seq(f.height, _ => false)
    ensures After(picture, renderRow, s, f).cells == s.cells
  {
    hide RedrawnRows, FirstOnly, FullRow;
    NothingRedrawn(picture, s.last, f.height);
  }

  /** The same distinct layers again in the same places: no row is redrawn. */
  lemma {:induction false} NothingRedrawn(picture: string -> Picture, list: seq<Drawn>, h: nat)
    requires Distinct(Layers(list))
    ensures RedrawnRows(picture, list, list, h, false) == seq(h, _ => false)
  {
    AllFirst(list);
    assert list[..|list|] == list;
    OriginsOfSame(list, |list|);
    UntouchedBySame(picture, list);
    CountNone(TouchedRows(picture, list, list, h));
  }

  lemma {:induction false} UntouchedBySame(picture: string -> Picture, list: seq<Drawn>)
    requires forall k :: 0 <= k < |list| ==> Origins(list, list)[k] == k
    ensures InOrder(Origins(list, list)) && forall cy :: !Touched(picture, list, list, cy)
  {
    var from := Origins(list, list);
    forall k | 0 <= k < |list|
      ensures k in from
    {
      assert from[k] == k;
    }
  }

  lemma {:induction false} OriginsOfSame(list: seq<Drawn>, n: nat)
    requires Distinct(Layers(list)) && n <= |list|
    ensures forall k :: 0 <= k < n ==> Origins(list, list[..n])[k] == k
  {
    if n > 0 {
      OriginsOfSame(list, n - 1);
      assert list[..n][..n - 1] == list[..n - 1];
      var d, taken := list[n - 1], Origins(list, list[..n - 1]);
      assert Fits(d, ByLayer(d.layer));
      var k := Find(list, ByLayer(d.layer));
      assert Layers(list)[k] == Layers(list)[n - 1];
      assert Origins(list, list[..n]) == taken + [Origin(list, d, taken)];
    }
  }

  lemma {:induction false} CountNone(rows: seq<bool>)
    requires forall cy :: 0 <= cy < |rows| ==> !rows[cy]
    ensures Count(rows) == 0
  {
    if rows != [] {
      CountNone(rows[..|rows| - 1]);
    }
  }

  /** What a frame shows is listed by z, from the lowest up, and layers of one z as they were passed. */
  lemma {:induction false} ShownBottomUp(s: Screen, f: Frame)
    ensures BottomUp(AllStand(SetAll(s.scene, f.settings), f.layers), Shown(s, f))
  {
    SortIsBottomUp(AllStand(SetAll(s.scene, f.settings), f.layers));
  }

  /** Known by the same id, or, if they have none, by the same content. */
  predicate SameName(a: Drawn, b: Drawn) { a.id == b.id && (a.id == "" ==> a.p.content == b.p.content) }

  /** The same picture of the same layers, or of new ones made anew under a name that was only theirs. */
  ghost predicate Remade(was: seq<Drawn>, now: seq<Drawn>) {
    && |was| == |now| && Distinct(Layers(was)) && Distinct(Layers(now))
    && forall k :: 0 <= k < |was| ==> RemadeAs(was, k, now[k])
  }

  ghost predicate RemadeAs(was: seq<Drawn>, k: nat, d: Drawn)
    requires k < |was|
  {
    && d.p == was[k].p && d.id == was[k].id
    && (d.layer == was[k].layer ||
        (d.layer !in Layers(was) && forall j :: 0 <= j < |was| && j != k ==> !SameName(was[j], d)))
  }

  lemma {:induction false} RemadeOrigin(was: seq<Drawn>, k: nat, d: Drawn, taken: seq<int>)
    requires k < |was| && Distinct(Layers(was)) && RemadeAs(was, k, d) && k !in taken
    ensures Origin(was, d, taken) == k
  {
    var found := Find(was, ByLayer(d.layer));
    if d.layer == was[k].layer {
      assert Fits(was[k], ByLayer(d.layer));
      assert Layers(was)[found] == Layers(was)[k];
    } else {
      assert forall i :: 0 <= i < |was| ==> Layers(was)[i] == was[i].layer;
      assert Fits(was[k], if d.id != "" then ByID(d.id) else ByContent(d.p.content));
    }
  }

  lemma {:induction false} RemadeOrigins(was: seq<Drawn>, now: seq<Drawn>, n: nat)
    requires Remade(was, now) && n <= |now|
    ensures forall k :: 0 <= k < n ==> Origins(was, now[..n])[k] == k
  {
    if n > 0 {
      RemadeOrigins(was, now, n - 1);
      assert now[..n][..n - 1] == now[..n - 1];
      var taken := Origins(was, now[..n - 1]);
      RemadeOrigin(was, n - 1, now[n - 1], taken);
      assert Origins(was, now[..n]) == taken + [Origin(was, now[n - 1], taken)];
    }
  }

  lemma {:induction false} UntouchedByRemaking(picture: string -> Picture, was: seq<Drawn>, now: seq<Drawn>)
    requires Remade(was, now) && forall k :: 0 <= k < |now| ==> Origins(was, now)[k] == k
    ensures InOrder(Origins(was, now)) && forall cy :: !Touched(picture, was, now, cy)
  {
    var from := Origins(was, now);
    forall k | 0 <= k < |was|
      ensures k in from && RemadeAs(was, k, now[k])
    {
      assert from[k] == k;
    }
  }

  /** A frame whose layers are all made anew, each to look as the one it replaces, redraws no row either. */
  lemma {:induction false} RemadeFrame(picture: string -> Picture, renderRow: Row -> string, s: Screen, f: Frame)
    requires Sized(s) && Remade(s.last, Shown(s, f))
    requires (f.canvas, f.width, f.height) == (s.canvas, s.width, s.height)
    ensures Rows(picture, s, f) == seq(f.height, _ => false)
    ensures After(picture, renderRow, s, f).cells == s.cells
  {
    hide RedrawnRows, FirstOnly, FullRow, Remade, Shown;
    NothingRemadeRedrawn(picture, s.last, Shown(s, f), f.height);
  }

  lemma {:induction false} NothingRemadeRedrawn(picture: string -> Picture, was: seq<Drawn>, now: seq<Drawn>, h: nat)
    requires Remade(was, now)
    ensures RedrawnRows(picture, was, now, h, false) == seq(h, _ => false)
  {
    AllFirst(now);
    assert now[..|now|] == now;
    RemadeOrigins(was, now, |now|);
    UntouchedByRemaking(picture, was, now);
    CountNone(TouchedRows(picture, was, now, h));
  }

  // ---- runs of the compositor itself ---------------------------------------------------------

  /** The compositor, its canvases and its layers stand as the screen says. */
  ghost predicate Staged(os: OS, s: Screen, canvases: set<Canvas>, layers: set<Layer>)
    reads os, os.last.records, canvases, layers
  {
    && os.Valid()
    && os.last.frame == s.last && os.composedCanvas == s.canvas && os.painted == s.cells && os.frameString == s.text
    && (s.canvas != null ==> os.composedBounds == (s.width, s.height))
    && CanvasesStand(os, canvases)
    && LayersStand(s.scene, layers)
  }

  /** Nothing but the compositor has drawn on the canvas it composed last. */
  ghost predicate CanvasesStand(os: OS, canvases: set<Canvas>)
    reads os, canvases
  {
    forall c :: c in canvases ==>
      c.Valid() && (c == os.composedCanvas ==> os.SameCanvas(c) && c.cells == os.painted)
  }

  ghost predicate LayersStand(scene: Scene, layers: set<Layer>)
    reads layers
  {
    forall l :: l in layers ==> DrawnNow(l) == Stands(scene, l)
  }

  /** The frame is about these canvases and layers. */
  ghost predicate FrameOf(f: Frame, canvases: set<Canvas>, layers: set<Layer>) {
    && f.canvas in canvases && IsGrid(f.left, f.width, f.height)
    && (forall i :: 0 <= i < |f.layers| ==> f.layers[i] in layers)
    && (forall i :: 0 <= i < |f.settings| ==> f.settings[i].layer in layers)
  }

  method SetLayers(settings: seq<Setting>, ghost scene: Scene, ghost layers: set<Layer>)
    requires LayersStand(scene, layers)
    requires forall i :: 0 <= i < |settings| ==> settings[i].layer in layers
    modifies layers
    ensures LayersStand(SetAll(scene, settings), layers)
  {
    assert SetAll(scene, settings[..0]) == scene;
    hide SetAll;
    for i := 0 to |settings|
      invariant LayersStand(SetAll(scene, settings[..i]), layers)
    {
      var s := settings[i];
      SetOneMore(scene, settings, i);
      s.layer.x, s.layer.y, s.layer.z, s.layer.id := s.pose.x, s.pose.y, s.pose.z, s.pose.id;
    }
    assert settings[..|settings|] == settings;
  }

  lemma {:induction false} SetOneMore(scene: Scene, settings: seq<Setting>, i: nat)
    requires i < |settings|
    ensures SetAll(scene, settings[..i + 1]) == SetAll(scene, settings[..i])[settings[i].layer := settings[i].pose]
  {
    assert settings[..i + 1][..i] == settings[..i];
  }

  lemma {:induction false} ShownNow(s: Screen, f: Frame, layers: set<Layer>)
    requires LayersStand(SetAll(s.scene, f.settings), layers)
    requires forall i :: 0 <= i < |f.layers| ==> f.layers[i] in layers
    ensures InZOrder(f.layers) == Shown(s, f)
  {
    assert AsDrawn(f.layers) == AllStand(SetAll(s.scene, f.settings), f.layers);
  }

  /** The canvas is given the frame's size. */
  method FitCanvas(os: OS, f: Frame, ghost s: Screen, ghost canvases: set<Canvas>)
    requires CanvasesStand(os, canvases) && f.canvas in canvases && IsGrid(f.left, f.width, f.height)
    requires os.composedCanvas == s.canvas && (s.canvas != null ==> os.composedBounds == (s.width, s.height))
    modifies f.canvas
    ensures forall c :: c in canvases ==> c.Valid() && (c == os.composedCanvas && c != f.canvas ==>
              os.SameCanvas(c) && c.cells == os.painted)
    ensures f.canvas.Valid() && f.canvas.width == f.width && f.canvas.height == f.height
    ensures os.SameCanvas(f.canvas) <==> (f.canvas, f.width, f.height) == (s.canvas, s.width, s.height)
    ensures os.SameCanvas(f.canvas) ==> f.canvas.cells == os.painted
  {
    if f.canvas.width != f.width || f.canvas.height != f.height {
      f.canvas.Resize(f.width, f.height, f.left);
    }
  }

  lemma {:induction false} AfterIs(picture: string -> Picture, renderRow: Row -> string, s: Screen, f: Frame)
    ensures var s' := After(picture, renderRow, s, f);
            && s'.scene == SetAll(s.scene, f.settings) && s'.last == FirstOnly(Shown(s, f))
            && s'.canvas == f.canvas && s'.width == f.width && s'.height == f.height
            && s'.cells == Paint(picture, Shown(s, f), s.cells, Rows(picture, s, f), f.width)
            && s'.text == if f.render && f.height > 0 then Rendered(s'.cells, renderRow) else s.text
  {
  }

  lemma {:induction false} RowsNow(os: OS, s: Screen, f: Frame)
    requires InZOrder(f.layers) == Shown(s, f) && f.canvas.height == f.height && os.last.frame == s.last
    requires os.SameCanvas(f.canvas) <==> (f.canvas, f.width, f.height) == (s.canvas, s.width, s.height)
    ensures os.RowsToRedraw(f.canvas, f.layers) == Rows(os.picture, s, f)
  {
  }

  /** Sets the layers, takes the canvas to its size, and composes the frame. */
  method ComposeFrame(os: OS, f: Frame, ghost s: Screen, ghost canvases: set<Canvas>, ghost layers: set<Layer>)
    requires Staged(os, s, canvases, layers) && FrameOf(f, canvases, layers)
    modifies os, os.last.records, canvases, layers
    ensures forall lc :: lc in os.last.records ==> lc in old(os.last.records) || fresh(lc)
    ensures os.UsesCache(f.canvas)
    ensures Staged(os, After(os.picture, os.renderRow, s, f).(text := s.text), canvases, layers)
  {
    hide OS.Valid, OS.RowsToRedraw, OS.UsesCache, Canvas.Valid, IsGrid, After, Rows, Shown, Paint, FirstOnly, SetAll,
         Stands, InZOrder, RightRows;
    AfterIs(os.picture, os.renderRow, s, f);
    SetLayers(f.settings, s.scene, layers);
    ShownNow(s, f, layers);
    FitCanvas(os, f, s, canvases);
    RowsNow(os, s, f);
    os.ComposeLayers(f.canvas, f.layers);
  }

  /** Then renders it if asked. */
  method ShowFrame(os: OS, f: Frame, ghost s: Screen, ghost canvases: set<Canvas>, ghost layers: set<Layer>)
    returns (cells: Grid, text: string, ghost s': Screen)
    requires Staged(os, s, canvases, layers) && FrameOf(f, canvases, layers)
    modifies os, os.last.records, canvases, layers
    ensures forall lc :: lc in os.last.records ==> lc in old(os.last.records) || fresh(lc)
    ensures s' == After(os.picture, os.renderRow, s, f) && Staged(os, s', canvases, layers)
    ensures cells == s'.cells && (f.render ==> text == s'.text)
  {
    hide OS.Valid, OS.UsesCache, After, Paint, FirstOnly, SetAll, Stands, Rendered;
    s' := After(os.picture, os.renderRow, s, f);
    AfterIs(os.picture, os.renderRow, s, f);
    ComposeFrame(os, f, s, canvases, layers);
    cells, text := f.canvas.cells, "";
    if f.render {
      text := os.RenderComposed(f.canvas);
    }
  }

  /** Frame after frame: what was on the canvas after each, and the text of those that were rendered. */
  method ShowFrames(os: OS, frames: seq<Frame>, ghost start: Screen, ghost canvases: set<Canvas>,
                    ghost layers: set<Layer>)
    returns (shown: seq<Grid>, texts: seq<string>)
    requires Staged(os, start, canvases, layers)
    requires forall i :: 0 <= i < |frames| ==> FrameOf(frames[i], canvases, layers)
    modifies os, os.last.records, canvases, layers
    ensures |shown| == |texts| == |frames|
    ensures forall i :: 0 <= i < |frames| ==> ShownAt(os.picture, os.renderRow, start, frames, shown[i], texts[i], i)
    ensures Staged(os, Run(os.picture, os.renderRow, start, frames), canvases, layers)
  {
    hide Staged, After, ShownAt;
    shown, texts := [], [];
    ghost var s, records := start, os.last.records;
    for i := 0 to |frames|
      invariant |shown| == |texts| == i
      invariant Staged(os, s, canvases, layers) && s == Run(os.picture, os.renderRow, start, frames[..i])
      invariant forall lc :: lc in os.last.records ==> lc in records || fresh(lc)
      invariant forall j :: 0 <= j < i ==> ShownAt(os.picture, os.renderRow, start, frames, shown[j], texts[j], j)
    {
      ghost var before, recs := s, os.last.records;
      assert forall k :: 0 <= k < |recs| ==> recs[k] in recs;
      var cells, text;
      cells, text, s := ShowFrame(os, frames[i], s, canvases, layers);
      RunOneMore(os.picture, os.renderRow, start, frames, before, s, cells, text, i);
      shown, texts := shown + [cells], texts + [text];
    }
    assert frames[..|frames|] == frames;
  }

  lemma {:induction false} RunOneMore(picture: string -> Picture, renderRow: Row -> string, start: Screen,
                                      frames: seq<Frame>, before: Screen, s: Screen, cells: Grid, text: string, i: nat)
    requires i < |frames| && before == Run(picture, renderRow, start, frames[..i])
    requires s == After(picture, renderRow, before, frames[i])
    requires cells == s.cells && (frames[i].render ==> text == s.text)
    ensures s == Run(picture, renderRow, start, frames[..i + 1])
    ensures ShownAt(picture, renderRow, start, frames, cells, text, i)
  {
    assert frames[..i + 1][..i] == frames[..i];
  }

  /** What a run's frame number j left on the canvas, and its text. */
  ghost predicate ShownAt(picture: string -> Picture, renderRow: Row -> string, start: Screen, frames: seq<Frame>,
                          cells: Grid, text: string, j: nat)
    requires j < |frames|
  {
    var now := Run(picture, renderRow, start, frames[..j + 1]);
    cells == now.cells && (frames[j].render ==> text == now.text)
  }

  // ---- two runs that go wrong ----------------------------------------------------------------

  /** A one-cell layer. */
  function Dot(content: string): Picture {
    Picture(1, 1, [CellWrite(0, 0, Glyph(content, 0, 1))])
  }

  /** Of one-cell layers on a one-cell screen, the last is seen. */
  lemma {:induction false} TopShows(below: seq<Placed>, top: Placed)
    requires top.x == 0 && top.y == 0
    ensures FullCompose(below + [top], Dot, 1, 1)[0] == [Glyph(top.content, 0, 1)]
  {
    var frame, pic := below + [top], Dot(top.content);
    forall c: string
      ensures Drawable(Dot(c))
    {
      DotDrawable(c);
    }
    DrawAllRowByRow(Blank(1, 1), frame, Dot, 0, 1);
    assert frame[..|frame| - 1] == below;
    var row := DrawAllOnRow(BlankRow(1), below, Dot, 0, 1, 1);
    assert Matching(pic.writes[..0], RowOf, 0) == [];
    var ws := OnRow(pic, 0);
    assert ws == [RowWrite(0, pic.writes[0].cell)] && ws[..0] == [];
    assert WriteAll(ClearSpan(row, 0, 1), ws, 0) == SetCell(ClearSpan(row, 0, 1), 0, Some(pic.writes[0].cell));
  }

  lemma {:induction false} DotDrawable(c: string)
    ensures Drawable(Dot(c))
  {
    forall r: int
      ensures NoOverlap(OnRow(Dot(c), r))
    {
      assert Matching(Dot(c).writes[..0], RowOf, r) == [];
      assert |OnRow(Dot(c), r)| <= 1;
    }
  }

  lemma {:induction false} AlreadySorted(list: seq<Drawn>)
    requires Ascending(list, ZKey)
    ensures Sort(list, ZKey) == list
  {
    SortFacts(list, ZKey);
    forall k
      ensures Matching(Sort(list, ZKey), ZKey, k) == Matching(list, ZKey, k)
    {
      SortIsStable(list, ZKey, k);
    }
    StableOrderIsUnique(Sort(list, ZKey), list, ZKey);
  }

  /** A frame on a one by one canvas that shows layers nobody has set. */
  function OneByOne(canvas: Canvas, layers: seq<Layer>): Frame {
    Frame([], canvas, 1, 1, Blank(1, 1), layers, true)
  }

  lemma {:induction false} ShownAsGiven(s: Screen, canvas: Canvas, layers: seq<Layer>)
    requires s.scene == map[]
    ensures Shown(s, OneByOne(canvas, layers)) == AllStand(map[], layers)
  {
    AlreadySorted(AllStand(map[], layers));
  }

  /** On such a canvas the last layer is seen. */
  lemma {:induction false} TopSeen(below: seq<Layer>, top: Layer)
    ensures FullCompose(Places(AllStand(map[], below + [top])), Dot, 1, 1)[0] == [Glyph(top.content, 0, 1)]
  {
    assert Places(AllStand(map[], below + [top])) ==
           Places(AllStand(map[], below)) + [Placed(0, 0, top.content)];
    TopShows(Places(AllStand(map[], below)), Placed(0, 0, top.content));
  }

  /**
    A layer passed again on top of another hides it. The next frame passes each once; it finds both
    where their records say they were, redraws nothing, and leaves the wrong one on top.
   */
  lemma {:induction false} RepeatedLayerMatters(canvas: Canvas, a: Layer, b: Layer, renderRow: Row -> string)
    requires a.content != b.content
    ensures var before := After(Dot, renderRow, Nothing(), OneByOne(canvas, [a, b, a]));
            var f := OneByOne(canvas, [a, b]);
            After(Dot, renderRow, before, f).cells != FullCompose(Places(Shown(before, f)), Dot, 1, 1)
  {
    hide After, Shown, FullCompose, Dot, Distinct;
    AfterRepeat(canvas, a, b, renderRow);
    IdleFrame(Dot, renderRow, After(Dot, renderRow, Nothing(), OneByOne(canvas, [a, b, a])), OneByOne(canvas, [a, b]));
    assert [a, b] + [a] == [a, b, a] && [a] + [b] == [a, b];
    TopSeen([a, b], a);
    TopSeen([a], b);
  }

  lemma {:induction false} AfterRepeat(canvas: Canvas, a: Layer, b: Layer, renderRow: Row -> string)
    requires a != b
    ensures var s := After(Dot, renderRow, Nothing(), OneByOne(canvas, [a, b, a]));
            && Sized(s) && s.last == AllStand(map[], [a, b]) && Distinct(Layers(s.last))
            && Shown(s, OneByOne(canvas, [a, b])) == s.last
            && (s.canvas, s.width, s.height) == (canvas, 1, 1)
            && s.cells == FullCompose(Places(AllStand(map[], [a, b, a])), Dot, 1, 1)
  {
    hide RedrawnRows, Sort, Dot, AllStand, Distinct;
    ShownAsGiven(Nothing(), canvas, [a, b, a]);
    ShownAsGiven(After(Dot, renderRow, Nothing(), OneByOne(canvas, [a, b, a])), canvas, [a, b]);
    FirstOfThree(a, b);
  }

  lemma {:induction false} FirstOfThree(a: Layer, b: Layer)
    requires a != b
    ensures FirstOnly(AllStand(map[], [a, b, a])) == AllStand(map[], [a, b])
    ensures !Distinct([a, b, a]) && Distinct(Layers(AllStand(map[], [a, b])))
  {
    var two, d := AllStand(map[], [a, b]), Stands(map[], a);
    assert Layers(two) == [a, b];
    assert [a, b, a][0] == [a, b, a][2];
    AllFirst(two);
    assert Fits(two[0], ByLayer(a));
    FirstOnlyOneMore(two, d);
    assert AllStand(map[], [a, b, a]) == two + [d];
  }

  /** The compositor does that: two frames, and the second is not what is on the canvas. */
  method RepeatedLayerStays() returns (cells: Grid)
    ensures cells != FullCompose([Placed(0, 0, "a"), Placed(0, 0, "b")], Dot, 1, 1)
  {
    hide After, Run, Shown, ShownAt, Dot, OS.Valid;
    DotsDrawable();
    var os := new OS(Dot, _ => "");
    var canvas := new Canvas(1, 1);
    var a := new Layer("a");
    var b := new Layer("b");
    var frames := [OneByOne(canvas, [a, b, a]), OneByOne(canvas, [a, b])];
    var shown, texts := ShowFrames(os, frames, Nothing(), {canvas}, {a, b});
    cells := shown[1];
    SecondIsStale(canvas, a, b, os.renderRow, frames, cells, texts[1]);
  }

  lemma {:induction false} SecondIsStale(canvas: Canvas, a: Layer, b: Layer, renderRow: Row -> string,
                                         frames: seq<Frame>, cells: Grid, text: string)
    requires a.content == "a" && b.content == "b"
    requires frames == [OneByOne(canvas, [a, b, a]), OneByOne(canvas, [a, b])]
    requires ShownAt(Dot, renderRow, Nothing(), frames, cells, text, 1)
    ensures cells != FullCompose([Placed(0, 0, "a"), Placed(0, 0, "b")], Dot, 1, 1)
  {
    hide FullCompose, Dot, Shown, FirstOnly, Paint;
    TwoFrames(Dot, renderRow, frames);
    RepeatedLayerMatters(canvas, a, b, renderRow);
    var before := After(Dot, renderRow, Nothing(), frames[0]);
    ShownAsGiven(before, canvas, [a, b]);
    assert Places(Shown(before, frames[1])) == [Placed(0, 0, "a"), Placed(0, 0, "b")];
  }

  lemma {:induction false} DotsDrawable()
    ensures forall c: string :: Drawable(Dot(c))
  {
    forall c: string
      ensures Drawable(Dot(c))
    {
      DotDrawable(c);
    }
  }

  lemma {:induction false} TwoFrames(picture: string -> Picture, renderRow: Row -> string, frames: seq<Frame>)
    requires |frames| == 2
    ensures var before := After(picture, renderRow, Nothing(), frames[0]);
            && Run(picture, renderRow, Nothing(), frames[..1]) == before
            && Run(picture, renderRow, Nothing(), frames[..2]) == After(picture, renderRow, before, frames[1])
  {
    assert frames[..1][..0] == [] && frames[..2][..1] == frames[..1];
  }

  /** Resized to no rows at all, the canvas is still turned into the text it had before. */
  method TextOfNoRows() returns (cells: Grid, text: string)
    ensures cells == [] && text == "x" && Rendered(cells, (row: Row) => "x") == ""
  {
    hide RedrawnRows, FullRow, Dot, Sort;
    DotsDrawable();
    var renderRow := (row: Row) => "x";
    var os := new OS(Dot, renderRow);
    var canvas := new Canvas(1, 1);
    var frames := [OneByOne(canvas, []), Frame([], canvas, 0, 0, [], [], true)];
    var shown, texts := ShowFrames(os, frames, Nothing(), {canvas}, {});
    TwoFrames(Dot, renderRow, frames);
    assert ShownAt(Dot, renderRow, Nothing(), frames, shown[1], texts[1], 1);
    ghost var before := After(Dot, renderRow, Nothing(), frames[0]);
    assert before.text == Rendered(before.cells, renderRow) == renderRow(before.cells[0]);
    cells, text := shown[1], texts[1];
  }
}
