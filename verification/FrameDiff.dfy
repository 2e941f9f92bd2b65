/**
  What the compositor compares: two lists of layers, which layer of the one stands in for which of
  the other, the rows where they differ, and the rows a frame redraws because of that.
 */
module FrameDiff {
  import opened CanvasRow
  import opened StableSort
  import opened Compose

  /** A layer of the screen. It can be moved, raised and renamed between frames; its content is fixed. */
  class Layer {
    var x: int
    var y: int
    var z: int
    var id: string
    const content: string

    constructor (content: string)
      ensures this.content == content && x == 0 && y == 0 && z == 0 && id == ""
    {
      this.content := content;
      x, y, z, id := 0, 0, 0, "";
    }
  }

  /** A layer as one frame passes it. */
  datatype Drawn = Drawn(layer: Layer, id: string, z: int, p: Placed)

  function DrawnNow(layer: Layer): Drawn
    reads layer
  {
    Drawn(layer, layer.id, layer.z, Placed(layer.x, layer.y, layer.content))
  }

  function AsDrawn(layers: seq<Layer>): (r: seq<Drawn>)
    reads layers
    ensures |r| == |layers| && forall i :: 0 <= i < |layers| ==> r[i] == DrawnNow(layers[i])
  {
    seq(|layers|, i requires 0 <= i < |layers| reads layers => DrawnNow(layers[i]))
  }

  function Layers(frame: seq<Drawn>): (r: seq<Layer>)
    ensures |r| == |frame| && forall i :: 0 <= i < |frame| ==> r[i] == frame[i].layer
  {
    seq(|frame|, i requires 0 <= i < |frame| => frame[i].layer)
  }

  function Places(frame: seq<Drawn>): (r: seq<Placed>)
    ensures |r| == |frame| && forall i :: 0 <= i < |frame| ==> r[i] == frame[i].p
  {
    seq(|frame|, i requires 0 <= i < |frame| => frame[i].p)
  }

  function ZKey(d: Drawn): int { d.z }

  /** The layers in z order, equal z in the order given. */
  function InZOrder(layers: seq<Layer>): (r: seq<Drawn>)
    reads layers
    ensures |r| == |layers|
  {
    Sort(AsDrawn(layers), ZKey)
  }

  /** The layers of one z, in order. */
  function OfZ(list: seq<Drawn>, z: int): seq<Drawn> {
    if list == [] then []
    else OfZ(list[..|list| - 1], z) + if list[|list| - 1].z == z then [list[|list| - 1]] else []
  }

  /** The list holds what was given, lowest z first, and equal z in the order given. */
  ghost predicate BottomUp(given: seq<Drawn>, list: seq<Drawn>) {
    && multiset(list) == multiset(given)
    && (forall i, j :: 0 <= i < j < |list| ==> list[i].z <= list[j].z)
    && (forall z :: OfZ(list, z) == OfZ(given, z))
  }

  lemma {:induction false} OfZIsMatching(list: seq<Drawn>, z: int)
    ensures OfZ(list, z) == Matching(list, ZKey, z)
  {
    if list != [] {
      OfZIsMatching(list[..|list| - 1], z);
    }
  }

  lemma {:induction false} SortIsBottomUp(given: seq<Drawn>)
    ensures BottomUp(given, Sort(given, ZKey))
  {
    var list := Sort(given, ZKey);
    SortFacts(given, ZKey);
    forall i, j | 0 <= i < j < |list|
      ensures list[i].z <= list[j].z
    {
      assert ZKey(list[i]) <= ZKey(list[j]);
    }
    forall z
      ensures OfZ(list, z) == OfZ(given, z)
    {
      OfZIsMatching(list, z);
      OfZIsMatching(given, z);
      SortIsStable(given, ZKey, z);
    }
  }

  predicate Distinct<T(==)>(s: seq<T>) {
    forall i, j :: 0 <= i < j < |s| ==> s[i] != s[j]
  }

  lemma {:induction false} DistinctMultiset<T>(s: seq<T>)
    ensures Distinct(s) <==> forall x :: multiset(s)[x] <= 1
  {
    if s != [] {
      var front, last := s[..|s| - 1], s[|s| - 1];
      DistinctMultiset(front);
      assert s == front + [last];
      if Distinct(s) {
        assert last !in front;
        assert multiset(front)[last] == 0;
      } else if Distinct(front) {
        var i, j :| 0 <= i < j < |s| && s[i] == s[j];
        assert j == |front| && front[i] == last;
        assert last in multiset(front);
        assert multiset(s)[last] >= 2;
      } else {
        var x :| multiset(front)[x] > 1;
        assert multiset(s)[x] > 1;
      }
    }
  }

  /** A layer passed twice is passed as the same both times. */
  predicate Coherent(frame: seq<Drawn>) {
    forall i, j :: 0 <= i < |frame| && 0 <= j < |frame| && frame[i].layer == frame[j].layer ==> frame[i] == frame[j]
  }

  /** Every layer shows its own content. */
  predicate OwnContent(frame: seq<Drawn>) {
    forall i :: 0 <= i < |frame| ==> frame[i].p.content == frame[i].layer.content
  }

  lemma {:induction false} SortKeeps(list: seq<Drawn>)
    ensures forall d :: d in Sort(list, ZKey) <==> d in list
  {
    SortFacts(list, ZKey);
    forall d: Drawn
      ensures d in Sort(list, ZKey) <==> d in list
    {
      assert d in Sort(list, ZKey) <==> d in multiset(Sort(list, ZKey));
      assert d in list <==> d in multiset(list);
    }
  }

  /** Sorting by z keeps the layers as they are now. */
  lemma {:induction false} SortedNow(layers: seq<Layer>)
    ensures AsDrawn(Layers(InZOrder(layers))) == InZOrder(layers)
    ensures Coherent(InZOrder(layers)) && OwnContent(InZOrder(layers))
  {
    var s := InZOrder(layers);
    SortKeeps(AsDrawn(layers));
    forall i | 0 <= i < |s|
      ensures s[i] == DrawnNow(s[i].layer)
    {
      assert s[i] in s;
    }
  }

  /** Nor does it double a layer. */
  lemma {:induction false} SortDistinct(list: seq<Drawn>)
    requires Coherent(list)
    ensures Distinct(Layers(Sort(list, ZKey))) <==> Distinct(Layers(list))
  {
    var s := Sort(list, ZKey);
    SortFacts(list, ZKey);
    DistinctMultiset(list);
    DistinctMultiset(s);
    SameDistinct(list);
    CoherentWithin(s, list);
    SameDistinct(s);
  }

  lemma {:induction false} CoherentWithin(s: seq<Drawn>, list: seq<Drawn>)
    requires Coherent(list) && multiset(s) == multiset(list)
    ensures Coherent(s)
  {
    forall i, j | 0 <= i < |s| && 0 <= j < |s| && s[i].layer == s[j].layer
      ensures s[i] == s[j]
    {
      assert s[i] in multiset(list) && s[j] in multiset(list);
      var k :| 0 <= k < |list| && list[k] == s[i];
      var l :| 0 <= l < |list| && list[l] == s[j];
    }
  }

  lemma {:induction false} SameDistinct(list: seq<Drawn>)
    requires Coherent(list)
    ensures Distinct(list) <==> Distinct(Layers(list))
  {
  }

  // ---- finding a layer again -----------------------------------------------------------------

  /** What a layer is found by: itself, its id if it has one, its content if it has none. */
  datatype Key = ByLayer(layer: Layer) | ByID(id: string) | ByContent(content: string)

  predicate Fits(d: Drawn, key: Key) {
    match key
    case ByLayer(layer) => d.layer == layer
    case ByID(id) => d.id != "" && d.id == id
    case ByContent(content) => d.id == "" && d.p.content == content
  }

  /** The index of the last layer that fits, or -1. */
  function Find(frame: seq<Drawn>, key: Key): (k: int)
    ensures -1 <= k < |frame| && (k >= 0 ==> Fits(frame[k], key))
    ensures forall j :: 0 <= j < |frame| && Fits(frame[j], key) ==> j <= k
  {
    if frame == [] then -1
    else if Fits(frame[|frame| - 1], key) then |frame| - 1
    else Find(frame[..|frame| - 1], key)
  }

  /** The frame without the layers passed before: their first places are the ones that are compared. */
  function FirstOnly(frame: seq<Drawn>): (r: seq<Drawn>)
    ensures |r| <= |frame|
  {
    if frame == [] then []
    else
      var firsts, d := FirstOnly(frame[..|frame| - 1]), frame[|frame| - 1];
      if Find(firsts, ByLayer(d.layer)) >= 0 then firsts else firsts + [d]
  }

  /** Their indices in the frame. */
  function Orders(frame: seq<Drawn>): (r: seq<nat>)
    ensures |r| == |FirstOnly(frame)|
  {
    if frame == [] then []
    else
      var firsts, d := FirstOnly(frame[..|frame| - 1]), frame[|frame| - 1];
      if Find(firsts, ByLayer(d.layer)) >= 0 then Orders(frame[..|frame| - 1])
      else Orders(frame[..|frame| - 1]) + [|frame| - 1]
  }

  /** Each layer passed is among them, once. */
  lemma {:induction false} FirstOnlyFinds(frame: seq<Drawn>, layer: Layer)
    ensures Distinct(Layers(FirstOnly(frame)))
    ensures Find(FirstOnly(frame), ByLayer(layer)) >= 0 <==> Find(frame, ByLayer(layer)) >= 0
  {
    if frame != [] {
      var front, d := frame[..|frame| - 1], frame[|frame| - 1];
      FirstOnlyFinds(front, layer);
      FindOneMore(FirstOnly(front), d, ByLayer(layer));
      DistinctOneMore(FirstOnly(front), d);
    }
  }

  predicate Rising(orders: seq<nat>) {
    forall k, l :: 0 <= k < l < |orders| ==> orders[k] < orders[l]
  }

  ghost predicate RisingBelow(orders: seq<nat>, n: nat) {
    Rising(orders) && forall k :: 0 <= k < |orders| ==> orders[k] < n
  }

  lemma {:induction false} RisesOneMore(orders: seq<nat>, n: nat)
    requires RisingBelow(orders, n)
    ensures RisingBelow(orders, n + 1) && RisingBelow(orders + [n], n + 1)
  {
  }

  lemma {:induction false} OrdersRise(frame: seq<Drawn>)
    ensures RisingBelow(Orders(frame), |frame|)
  {
    hide RisingBelow, FirstOnly, Find;
    if frame == [] {
      NoneRise();
    } else {
      OrdersRise(frame[..|frame| - 1]);
      RisesOneMore(Orders(frame[..|frame| - 1]), |frame| - 1);
    }
  }

  lemma {:induction false} NoneRise()
    ensures RisingBelow([], 0)
  {
  }

  lemma {:induction false} FirstOnlyWithin(frame: seq<Drawn>)
    ensures forall d :: d in FirstOnly(frame) ==> d in frame
  {
    if frame != [] {
      FirstOnlyWithin(frame[..|frame| - 1]);
    }
  }

  lemma {:induction false} FirstOnlyOwn(frame: seq<Drawn>)
    requires OwnContent(frame)
    ensures OwnContent(FirstOnly(frame))
  {
    FirstOnlyWithin(frame);
    var firsts := FirstOnly(frame);
    forall k | 0 <= k < |firsts|
      ensures firsts[k] in frame
    {
      assert firsts[k] in firsts;
    }
  }

  /** The list passes no layer twice exactly if it is all first places. */
  ghost predicate FirstIffDistinct(frame: seq<Drawn>, firsts: seq<Drawn>) {
    && (|firsts| == |frame| <==> Distinct(Layers(frame)))
    && (Distinct(Layers(frame)) ==> firsts == frame)
  }

  lemma {:induction false} AllFirst(frame: seq<Drawn>)
    ensures FirstIffDistinct(frame, FirstOnly(frame))
  {
    if frame != [] {
      var front := frame[..|frame| - 1];
      AllFirst(front);
      FirstOnlyFinds(front, frame[|frame| - 1].layer);
      AllFirstOneMore(frame, front, FirstOnly(front), frame[|frame| - 1]);
    }
  }

  lemma {:induction false} AllFirstOneMore(frame: seq<Drawn>, front: seq<Drawn>, firsts: seq<Drawn>, d: Drawn)
    requires frame != [] && front == frame[..|frame| - 1] && d == frame[|frame| - 1]
    requires |firsts| <= |front| && FirstIffDistinct(front, firsts)
    requires Find(firsts, ByLayer(d.layer)) >= 0 <==> Find(front, ByLayer(d.layer)) >= 0
    ensures FirstIffDistinct(frame, if Find(firsts, ByLayer(d.layer)) >= 0 then firsts else firsts + [d])
  {
    DistinctOneMore(front, d);
    assert frame == front + [d];
  }

  lemma {:induction false} FirstOnlyOneMore(front: seq<Drawn>, d: Drawn)
    ensures FirstOnly(front + [d]) ==
            if Find(FirstOnly(front), ByLayer(d.layer)) >= 0 then FirstOnly(front) else FirstOnly(front) + [d]
  {
    assert (front + [d])[..|front|] == front;
  }

  lemma {:induction false} OrdersOneMore(front: seq<Drawn>, d: Drawn)
    ensures Orders(front + [d]) ==
            if Find(FirstOnly(front), ByLayer(d.layer)) >= 0 then Orders(front) else Orders(front) + [|front|]
  {
    assert (front + [d])[..|front|] == front;
  }

  lemma {:induction false} FindOneMore(frame: seq<Drawn>, d: Drawn, key: Key)
    ensures Find(frame + [d], key) == if Fits(d, key) then |frame| else Find(frame, key)
  {
    assert (frame + [d])[..|frame|] == frame;
  }

  lemma {:induction false} DistinctOneMore(frame: seq<Drawn>, d: Drawn)
    ensures Distinct(Layers(frame + [d])) <==> Distinct(Layers(frame)) && Find(frame, ByLayer(d.layer)) < 0
  {
    var s, r := Layers(frame), Layers(frame + [d]);
    assert forall i :: 0 <= i < |s| ==> r[i] == s[i];
    assert r[|s|] == d.layer;
    if Find(frame, ByLayer(d.layer)) < 0 {
      assert forall i :: 0 <= i < |s| ==> !Fits(frame[i], ByLayer(d.layer));
    }
  }

  /** The layer of the last frame that d stands in for: itself, or the one it was built anew from. */
  function Origin(was: seq<Drawn>, d: Drawn, taken: seq<int>): (k: int)
    ensures -1 <= k < |was|
  {
    var k := Find(was, ByLayer(d.layer));
    if k >= 0 && k !in taken then k else Rebuilt(was, d, taken)
  }

  function Rebuilt(was: seq<Drawn>, d: Drawn, taken: seq<int>): (k: int)
    ensures -1 <= k < |was|
  {
    var k := Find(was, if d.id != "" then ByID(d.id) else ByContent(d.p.content));
    if k >= 0 && k !in taken && was[k].p.content == d.p.content then k else -1
  }

  /** The same for every layer of a frame, no old layer being taken for two. */
  function Origins(was: seq<Drawn>, now: seq<Drawn>): (from: seq<int>)
    ensures |from| == |now|
    ensures forall j :: 0 <= j < |from| ==> -1 <= from[j] < |was|
  {
    if now == [] then []
    else
      var taken := Origins(was, now[..|now| - 1]);
      taken + [Origin(was, now[|now| - 1], taken)]
  }

  lemma {:induction false} OriginsOneMore(was: seq<Drawn>, now: seq<Drawn>, d: Drawn)
    ensures Origins(was, now + [d]) == Origins(was, now) + [Origin(was, d, Origins(was, now))]
  {
    assert (now + [d])[..|now|] == now;
  }

  /** No two layers stand in for the same one, and contents agree. */
  lemma {:induction false} OriginsFacts(was: seq<Drawn>, now: seq<Drawn>)
    requires OwnContent(was) && OwnContent(now)
    ensures var from := Origins(was, now);
            && (forall i, j :: 0 <= i < j < |from| && from[j] >= 0 ==> from[i] != from[j])
            && (forall j :: 0 <= j < |from| && from[j] >= 0 ==> was[from[j]].p.content == now[j].p.content)
  {
    if now != [] {
      OriginsFacts(was, now[..|now| - 1]);
    }
  }

  // ---- the rows that differ ------------------------------------------------------------------

  /** The layers that stayed are in the order they had. */
  predicate InOrder(from: seq<int>) {
    forall i, j :: 0 <= i < j < |from| && 0 <= from[i] && 0 <= from[j] ==> from[i] < from[j]
  }

  /** The last layer that stayed. */
  function LastKept(from: seq<int>): (k: int)
    ensures k >= 0 ==> k in from
  {
    if from == [] then -1
    else if from[|from| - 1] >= 0 then from[|from| - 1]
    else LastKept(from[..|from| - 1])
  }

  lemma {:induction false} LastIsHighest(from: seq<int>)
    requires InOrder(from)
    ensures forall j :: 0 <= j < |from| && from[j] >= 0 ==> from[j] <= LastKept(from)
  {
    if from != [] && from[|from| - 1] < 0 {
      LastIsHighest(from[..|from| - 1]);
    }
  }

  /** The order is still kept if the next layer that stays lay above the last one. */
  lemma {:induction false} InOrderOneMore(from: seq<int>, k: int)
    requires k >= 0 ==> k !in from
    ensures LastKept(from + [k]) == if k >= 0 then k else LastKept(from)
    ensures InOrder(from + [k]) <==> InOrder(from) && (k < 0 || LastKept(from) <= k)
  {
    var r := from + [k];
    assert r[..|from|] == from;
    assert InOrder(r) ==> InOrder(from) by {
      assert forall i :: 0 <= i < |from| ==> r[i] == from[i];
    }
    if InOrder(from) && k >= 0 {
      LastIsHighest(from);
      if LastKept(from) >= 0 {
        var i :| 0 <= i < |from| && from[i] == LastKept(from);
        assert r[i] == from[i] && r[|from|] == k;
      }
    }
  }

  /** A layer with this origin is new or moved, and has or had cells on row cy. */
  predicate Differs(picture: string -> Picture, was: seq<Drawn>, p: Placed, origin: int, cy: int)
  {
    if !(0 <= origin < |was|) then Crosses(p, picture, cy)
    else was[origin].p != p && (Crosses(was[origin].p, picture, cy) || Crosses(p, picture, cy))
  }

  /** Some layer matched so far differs on the row. */
  predicate Changed(picture: string -> Picture, was: seq<Drawn>, now: seq<Drawn>, from: seq<int>, cy: int)
    requires |from| == |now|
  {
    exists j :: 0 <= j < |now| && Differs(picture, was, now[j].p, from[j], cy)
  }

  /** A layer of the last frame that is gone had cells on the row. */
  predicate Vacated(picture: string -> Picture, was: seq<Drawn>, from: seq<int>, cy: int) {
    exists k :: 0 <= k < |was| && k !in from && Crosses(was[k].p, picture, cy)
  }

  /** A layer that is new, moved or gone crosses the row. */
  predicate Touched(picture: string -> Picture, was: seq<Drawn>, now: seq<Drawn>, cy: int) {
    Changed(picture, was, now, Origins(was, now), cy) || Vacated(picture, was, Origins(was, now), cy)
  }

  function Count(rows: seq<bool>): nat {
    if rows == [] then 0 else Count(rows[..|rows| - 1]) + if rows[|rows| - 1] then 1 else 0
  }

  function TouchedRows(picture: string -> Picture, was: seq<Drawn>, now: seq<Drawn>, h: nat): (rows: seq<bool>)
    ensures |rows| == h && forall cy :: 0 <= cy < h ==> rows[cy] == Touched(picture, was, now, cy)
  {
    seq(h, cy => Touched(picture, was, now, cy))
  }

  /** Everything is redrawn when the canvas or the list asks for it, layers swapped, or most rows differ. */
  predicate All(picture: string -> Picture, was: seq<Drawn>, frame: seq<Drawn>, h: nat, redraw: bool) {
    var now := FirstOnly(frame);
    || redraw
    || !Distinct(Layers(frame))
    || !InOrder(Origins(was, now))
    || 2 * Count(TouchedRows(picture, was, now, h)) > h
  }

  /** The rows a frame redraws. */
  function RedrawnRows(picture: string -> Picture, was: seq<Drawn>, frame: seq<Drawn>, h: nat, redraw: bool)
    : (rows: seq<bool>)
    ensures |rows| == h
  {
    if All(picture, was, frame, h, redraw) then seq(h, _ => true) else TouchedRows(picture, was, FirstOnly(frame), h)
  }

  /** A layer is passed twice. */
  predicate Repeated(frame: seq<Drawn>) {
    exists i, j :: 0 <= i < j < |frame| && frame[i].layer == frame[j].layer
  }

  /** Two layers that stayed are no longer in the order they had. */
  predicate Swapped(from: seq<int>) {
    exists i, j :: 0 <= i < j < |from| && 0 <= from[j] <= from[i]
  }

  function RowsTouched(picture: string -> Picture, was: seq<Drawn>, now: seq<Drawn>, h: nat): set<int> {
    set cy | 0 <= cy < h && Touched(picture, was, now, cy)
  }

  lemma {:induction false} CountIsSize(rows: seq<bool>)
    ensures Count(rows) == |set cy | 0 <= cy < |rows| && rows[cy]|
  {
    if rows != [] {
      var last, front := |rows| - 1, rows[..|rows| - 1];
      CountIsSize(front);
      var most := set cy | 0 <= cy < |front| && front[cy];
      assert (set cy | 0 <= cy < |rows| && rows[cy]) == if rows[last] then most + {last} else most;
    }
  }

  /**
    A row is redrawn if a layer that is new, moved or gone crosses it. Every row is if the canvas is new
    or resized, a layer is passed twice, two layers that stayed have swapped, or more than half of the
    rows would have to be.
   */
  lemma {:induction false} RowsRedrawn(picture: string -> Picture, was: seq<Drawn>, frame: seq<Drawn>, h: nat,
                                       redraw: bool, cy: nat)
    requires cy < h
    ensures var now := FirstOnly(frame);
            RedrawnRows(picture, was, frame, h, redraw)[cy] <==>
              || redraw || Repeated(frame) || Swapped(Origins(was, now))
              || 2 * |RowsTouched(picture, was, now, h)| > h
              || Touched(picture, was, now, cy)
  {
    var now := FirstOnly(frame);
    SizeOfTouched(picture, was, now, h);
    Repeats(frame);
    Swaps(Origins(was, now));
    hide Touched, Count, FirstOnly, Origins, Distinct, Repeated, Swapped, InOrder, Layers, RowsTouched;
  }

  lemma {:induction false} SizeOfTouched(picture: string -> Picture, was: seq<Drawn>, now: seq<Drawn>, h: nat)
    ensures Count(TouchedRows(picture, was, now, h)) == |RowsTouched(picture, was, now, h)|
  {
    var rows := TouchedRows(picture, was, now, h);
    CountIsSize(rows);
    hide Touched;
    assert (set y | 0 <= y < |rows| && rows[y]) == RowsTouched(picture, was, now, h);
  }

  lemma {:induction false} Swaps(from: seq<int>)
    ensures !InOrder(from) <==> Swapped(from)
  {
  }

  lemma {:induction false} Repeats(frame: seq<Drawn>)
    ensures !Distinct(Layers(frame)) <==> Repeated(frame)
  {
    var s := Layers(frame);
    assert forall i :: 0 <= i < |s| ==> s[i] == frame[i].layer;
  }

  /** One row of the full compose. */
  function FullRow(frame: seq<Drawn>, picture: string -> Picture, w: nat, h: nat, cy: nat): Row
    requires cy < h
  {
    FullCompose(Places(frame), picture, w, h)[cy]
  }

  lemma {:induction false} UntouchedIsSame(picture: string -> Picture, was: seq<Drawn>, now: seq<Drawn>, cy: nat)
    requires InOrder(Origins(was, now)) && !Touched(picture, was, now, cy)
    ensures SameOnRow(Places(was), Places(now), Origins(was, now), picture, cy)
  {
    var from := Origins(was, now);
    forall j | 0 <= j < |now|
      ensures !Differs(picture, was, now[j].p, from[j], cy)
    {
    }
    forall k | 0 <= k < |was| && Crosses(was[k].p, picture, cy)
      ensures exists i :: 0 <= i < |now| && from[i] == k
    {
      assert k in from;
    }
  }

  lemma {:induction false} SameFullRow(picture: string -> Picture, was: seq<Drawn>, frame: seq<Drawn>, from: seq<int>,
                                       w: nat, h: nat, cy: nat)
    requires (forall c :: Drawable(picture(c))) && cy < h
    requires SameOnRow(Places(was), Places(frame), from, picture, cy)
    ensures FullRow(was, picture, w, h, cy) == FullRow(frame, picture, w, h, cy)
  {
    DrawAllRowByRow(Blank(w, h), Places(frame), picture, cy, w);
    DrawAllRowByRow(Blank(w, h), Places(was), picture, cy, w);
    UndamagedRow(Places(was), Places(frame), from, picture, cy, BlankRow(w), w, h);
  }

  /** A row that is not redrawn shows the same layers in both frames, so both full composes agree on it. */
  lemma {:induction false} NotRedrawnIsSame(picture: string -> Picture, was: seq<Drawn>, frame: seq<Drawn>,
                                            w: nat, h: nat, redraw: bool, cy: nat)
    requires (forall c :: Drawable(picture(c))) && cy < h
    requires !RedrawnRows(picture, was, frame, h, redraw)[cy]
    ensures FullRow(was, picture, w, h, cy) == FullRow(frame, picture, w, h, cy)
  {
    AllFirst(frame);
    UntouchedIsSame(picture, was, frame, cy);
    SameFullRow(picture, was, frame, Origins(was, frame), w, h, cy);
  }

  /** These rows taken from the full compose, the others left as they were. */
  function Paint(picture: string -> Picture, frame: seq<Drawn>, before: Grid, rows: seq<bool>, w: nat): (after: Grid)
    ensures |after| == |rows|
    ensures forall cy :: 0 <= cy < |rows| ==>
              after[cy] == if cy < |before| && !rows[cy] then before[cy] else FullRow(frame, picture, w, |rows|, cy)
  {
    seq(|rows|, cy requires 0 <= cy < |rows| =>
      if cy < |before| && !rows[cy] then before[cy] else FullRow(frame, picture, w, |rows|, cy))
  }

  /** A row shows the frame exactly if it was redrawn, or showed the last one. */
  ghost predicate RightRows(picture: string -> Picture, was: seq<Drawn>, frame: seq<Drawn>, before: Grid, after: Grid,
                            rows: seq<bool>, w: nat) {
    && |after| == |rows|
    && forall cy :: 0 <= cy < |rows| ==>
         (after[cy] == FullRow(frame, picture, w, |rows|, cy) <==>
          rows[cy] || (cy < |before| && before[cy] == FullRow(was, picture, w, |rows|, cy)))
  }

  lemma {:induction false} PaintIsRight(picture: string -> Picture, was: seq<Drawn>, frame: seq<Drawn>, before: Grid,
                                        w: nat, h: nat, redraw: bool)
    requires (forall c :: Drawable(picture(c))) && (redraw || |before| == h)
    ensures var rows := RedrawnRows(picture, was, frame, h, redraw);
            RightRows(picture, was, frame, before, Paint(picture, frame, before, rows, w), rows, w)
  {
    var rows := RedrawnRows(picture, was, frame, h, redraw);
    forall cy | 0 <= cy < h && !rows[cy]
      ensures FullRow(was, picture, w, h, cy) == FullRow(frame, picture, w, h, cy)
    {
      NotRedrawnIsSame(picture, was, frame, w, h, redraw, cy);
    }
  }
}
