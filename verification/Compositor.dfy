/**
  The incremental compositor: the canvas of the last frame is kept, and only rows where something differs are redrawn.
 */
module Compositor {
  import opened Common
  import opened CanvasRow
  import opened StableSort
  import opened Compose
  import opened LayerRecords
  import opened FrameDiff

  /** One layer has been drawn on the damaged rows, and the others are untouched. */
  ghost predicate Redrawn(before: Grid, after: Grid, p: Placed, picture: string -> Picture, damage: seq<bool>, w: nat) {
    && |before| == |after| == |damage|
    && forall cy :: 0 <= cy < |before| ==>
         after[cy] == if damage[cy] then DrawOnRow(before[cy], p, picture, cy, w, |before|) else before[cy]
  }

  /** Replaying a layer on the damaged rows it covers draws it there. */
  lemma {:induction false} ReplayedRows(picture: string -> Picture, before: Grid, after: Grid, p: Placed,
                                        damage: seq<bool>, w: nat)
    requires Replayed(before, after, picture(p.content), p.x, p.y, damage, picture(p.content).height)
    requires Overlaps(picture(p.content), p.x, p.y, w, |before|)
    ensures Redrawn(before, after, p, picture, damage, w)
  {
  }

  /** A layer that crosses no damaged row is redrawn by leaving everything as it is. */
  lemma {:induction false} NotCrossed(picture: string -> Picture, cells: Grid, p: Placed, damage: seq<bool>, w: nat)
    requires |cells| == |damage|
    requires forall cy :: 0 <= cy < |damage| && Crosses(p, picture, cy) ==> !damage[cy]
    ensures Redrawn(cells, cells, p, picture, damage, w)
  {
  }

  /** The damaged rows show the layers drawn so far, the others are untouched. */
  ghost predicate DrawnSoFar(picture: string -> Picture, start: Grid, cells: Grid, frame: seq<Placed>,
                             damage: seq<bool>, w: nat)
  {
    |start| == |cells| == |damage| && forall cy :: 0 <= cy < |start| ==>
      cells[cy] == if damage[cy] then DrawAllOnRow(start[cy], frame, picture, cy, w, |start|) else start[cy]
  }

  lemma {:induction false} DrawnOneMore(picture: string -> Picture, start: Grid, before: Grid, after: Grid,
                                        frame: seq<Placed>, j: nat, damage: seq<bool>, w: nat)
    requires j < |frame| && DrawnSoFar(picture, start, before, frame[..j], damage, w)
    requires Redrawn(before, after, frame[j], picture, damage, w)
    ensures DrawnSoFar(picture, start, after, frame[..j + 1], damage, w)
  {
    assert frame[..j + 1][..j] == frame[..j];
  }

  lemma {:induction false} NoneDamaged(damage: seq<bool>, from: nat, to: nat)
    requires from <= to <= |damage| && true !in damage[from..to]
    ensures forall cy :: from <= cy < to ==> !damage[cy]
  {
    assert forall cy :: from <= cy < to ==> damage[from..to][cy - from] == damage[cy];
  }

  /** The first i elements of the list. */
  ghost predicate Begins<T>(done: seq<T>, i: nat, list: seq<T>) {
    |done| == i <= |list| && forall k :: 0 <= k < i ==> done[k] == list[k]
  }

  lemma {:induction false} BeginsMore<T>(done: seq<T>, i: nat, list: seq<T>, t: T)
    requires Begins(done, i, list) && i < |list| && list[i] == t
    ensures Begins(done + [t], i + 1, list)
  {
  }

  lemma {:induction false} BeginsAll<T>(done: seq<T>, list: seq<T>)
    requires Begins(done, |list|, list)
    ensures done == list
  {
  }

  // ---- the records of a frame ----------------------------------------------------------------

  /** Where the records of one frame are found again: by layer, by id, and by content if there is no id. */
  datatype Tables = Tables(byLayer: map<Layer, LayerCells>, byID: map<string, LayerCells>,
                           byContent: map<string, LayerCells>)

  /** The tables after layer d has been given lc. */
  function Enter(t: Tables, d: Drawn, lc: LayerCells): Tables {
    if d.id != "" then
      t.(byLayer := t.byLayer[d.layer := lc], byID := t.byID[d.id := lc])
    else
      t.(byLayer := t.byLayer[d.layer := lc], byContent := t.byContent[d.p.content := lc])
  }

  function Lookup(t: Tables, key: Key): Option<LayerCells> {
    match key
    case ByLayer(layer) => if layer in t.byLayer then Some(t.byLayer[layer]) else None
    case ByID(id) => if id in t.byID then Some(t.byID[id]) else None
    case ByContent(content) => if content in t.byContent then Some(t.byContent[content]) else None
  }

  /** The tables once every layer of a frame has been entered with its record. */
  function TablesOf(frame: seq<Drawn>, records: seq<LayerCells>): Tables
    requires |records| == |frame|
  {
    if frame == [] then Tables(map[], map[], map[])
    else Enter(TablesOf(frame[..|frame| - 1], records[..|frame| - 1]), frame[|frame| - 1], records[|frame| - 1])
  }

  ghost predicate Indexes(t: Tables, frame: seq<Drawn>, records: seq<LayerCells>) {
    |records| == |frame| && t == TablesOf(frame, records)
  }

  lemma {:induction false} IndexOneMore(t: Tables, frame: seq<Drawn>, records: seq<LayerCells>, d: Drawn,
                                        lc: LayerCells)
    requires Indexes(t, frame, records)
    ensures Indexes(Enter(t, d, lc), frame + [d], records + [lc])
  {
    assert (frame + [d])[..|frame|] == frame && (records + [lc])[..|frame|] == records;
  }

  /** They find the record of the last layer that fits, and nothing else. */
  lemma {:induction false} IndexedFind(t: Tables, frame: seq<Drawn>, records: seq<LayerCells>, key: Key)
    requires Indexes(t, frame, records)
    ensures Lookup(t, key) == if Find(frame, key) >= 0 then Some(records[Find(frame, key)]) else None
    decreases |frame|
  {
    if frame != [] {
      var n := |frame| - 1;
      IndexedFind(TablesOf(frame[..n], records[..n]), frame[..n], records[..n], key);
    }
  }

  /** By layer they hold every record of a frame that passes no layer twice. */
  lemma {:induction false} IndexedByLayer(t: Tables, frame: seq<Drawn>, records: seq<LayerCells>)
    requires Indexes(t, frame, records) && Distinct(Layers(frame))
    ensures forall lc :: lc in t.byLayer.Values <==> lc in records
  {
    forall k | 0 <= k < |frame|
      ensures records[k] in t.byLayer.Values
    {
      var layer := frame[k].layer;
      assert Fits(frame[k], ByLayer(layer));
      assert Layers(frame)[k] == layer && Layers(frame)[Find(frame, ByLayer(layer))] == layer;
      IndexedFind(t, frame, records, ByLayer(layer));
    }
    forall layer | layer in t.byLayer
      ensures t.byLayer[layer] in records
    {
      IndexedFind(t, frame, records, ByLayer(layer));
    }
  }

  /** What a record holds of the frame that last drew it. */
  datatype View = View(p: Placed, order: nat, isNew: bool, gen: nat)

  type Views = map<LayerCells, View>

  /** The last frame, each layer once: bottom first, where it stood in the list, and its record. */
  datatype Last = Last(frame: seq<Drawn>, orders: seq<nat>, records: seq<LayerCells>)

  /** The records taken are those of the layers that stayed; the others are as the last frame left them. */
  ghost predicate Untaken(last: Last, views: Views, from: seq<int>, gen: nat) {
    match last
    case Last(frame, orders, records) =>
      && |records| == |frame| == |orders|
      && forall k :: 0 <= k < |records| ==>
           && records[k] in views
           && (k in from <==> views[records[k]].gen == gen)
           && (k !in from ==> views[records[k]].p == frame[k].p && views[records[k]].order == orders[k])
  }

  lemma {:induction false} TakeNew(last: Last, views: Views, from: seq<int>, gen: nat, lc: LayerCells, v: View)
    requires Untaken(last, views, from, gen) && lc !in views
    ensures Untaken(last, views[lc := v], from + [-1], gen)
  {
  }

  lemma {:induction false} TakeKept(last: Last, views: Views, from: seq<int>, gen: nat, origin: nat, v: View)
    requires Untaken(last, views, from, gen) && Rising(last.orders)
    requires origin < |last.records| && origin !in from && v.gen == gen
    ensures Untaken(last, views[last.records[origin] := v], from + [origin], gen)
  {
    forall k | 0 <= k < |last.records| && k != origin && k !in from
      ensures last.records[k] != last.records[origin]
    {
      assert last.orders[k] != last.orders[origin];
    }
  }

  /** The layers matched so far, each once: their indices, the layer each stands in for, and their records. */
  datatype Matched = Matched(now: seq<Drawn>, orders: seq<nat>, from: seq<int>, recs: seq<LayerCells>)

  /** That is what the first layers of the list come to. */
  ghost predicate IsMatch(m: Matched, was: seq<Drawn>, list: seq<Drawn>) {
    m.now == FirstOnly(list) && m.orders == Orders(list) && m.from == Origins(was, m.now)
  }

  lemma {:induction false} MatchOneMore(m: Matched, was: seq<Drawn>, list: seq<Drawn>, d: Drawn, lc: LayerCells)
    requires IsMatch(m, was, list) && Find(m.now, ByLayer(d.layer)) < 0
    ensures IsMatch(Next(m, d, |list|, Origin(was, d, m.from), lc), was, list + [d])
  {
    FirstOnlyOneMore(list, d);
    OrdersOneMore(list, d);
    OriginsOneMore(was, m.now, d);
  }

  lemma {:induction false} MatchAgain(m: Matched, was: seq<Drawn>, list: seq<Drawn>, d: Drawn)
    requires IsMatch(m, was, list) && Find(m.now, ByLayer(d.layer)) >= 0
    ensures IsMatch(m, was, list + [d])
  {
    FirstOnlyOneMore(list, d);
    OrdersOneMore(list, d);
  }

  function Next(m: Matched, d: Drawn, i: nat, origin: int, lc: LayerCells): Matched {
    Matched(m.now + [d], m.orders + [i], m.from + [origin], m.recs + [lc])
  }

  /** Every layer matched has its own record, showing it as this frame does. */
  ghost predicate Given(views: Views, m: Matched, gen: nat) {
    match m
    case Matched(now, orders, from, recs) =>
      && |now| == |orders| == |from| == |recs|
      && forall j :: 0 <= j < |recs| ==>
           recs[j] in views && views[recs[j]] == View(now[j].p, orders[j], from[j] < 0, gen)
  }

  lemma {:induction false} GiveOne(views: Views, m: Matched, gen: nat, d: Drawn, i: nat, origin: int, lc: LayerCells)
    requires Given(views, m, gen) && (lc in views ==> views[lc].gen != gen)
    ensures Given(views[lc := View(d.p, i, origin < 0, gen)], Next(m, d, i, origin, lc), gen)
  {
    var v := View(d.p, i, origin < 0, gen);
    var views', m' := views[lc := v], Next(m, d, i, origin, lc);
    forall j | 0 <= j < |m'.recs|
      ensures m'.recs[j] in views'
      ensures views'[m'.recs[j]] == View(m'.now[j].p, m'.orders[j], m'.from[j] < 0, gen)
    {
      if j < |m.recs| {
        assert m'.recs[j] == m.recs[j] && m.recs[j] != lc;
      }
    }
  }

  // ---- comparing two frames ------------------------------------------------------------------

  /** Every canvas row that p covers is damaged. */
  ghost predicate RowsDamaged(picture: string -> Picture, damage: seq<bool>, p: Placed) {
    forall cy :: 0 <= cy < |damage| && Crosses(p, picture, cy) ==> damage[cy]
  }

  ghost predicate MoreDamage(damage: seq<bool>, damage': seq<bool>) {
    |damage| == |damage'| && forall r :: 0 <= r < |damage| && damage[r] ==> damage'[r]
  }

  /** Exactly the rows that p covers have been added to the damage. */
  ghost predicate Marked(picture: string -> Picture, damage: seq<bool>, p: Placed, damage': seq<bool>) {
    && |damage| == |damage'|
    && forall cy :: 0 <= cy < |damage| ==> damage'[cy] == (damage[cy] || Crosses(p, picture, cy))
  }

  /** Exactly the rows where a layer at p, standing in for `origin`, differs have been added. */
  ghost predicate MarkedDifference(picture: string -> Picture, was: seq<Drawn>, damage: seq<bool>, p: Placed,
                                   origin: int, damage': seq<bool>)
    requires -1 <= origin < |was|
  {
    && |damage| == |damage'|
    && forall cy :: 0 <= cy < |damage| ==> damage'[cy] == (damage[cy] || Differs(picture, was, p, origin, cy))
  }

  /** The damaged rows are exactly those where a layer matched so far differs. */
  ghost predicate ChangedRows(picture: string -> Picture, was: seq<Drawn>, m: Matched, damage: seq<bool>)
    requires |m.from| == |m.now| && forall j :: 0 <= j < |m.from| ==> -1 <= m.from[j] < |was|
  {
    forall cy :: 0 <= cy < |damage| ==> damage[cy] == Changed(picture, was, m.now, m.from, cy)
  }

  lemma {:induction false} ChangedOneMore(picture: string -> Picture, was: seq<Drawn>, m: Matched, damage: seq<bool>,
                                          d: Drawn, i: nat, origin: int, lc: LayerCells, damage': seq<bool>)
    requires |m.from| == |m.now| && forall j :: 0 <= j < |m.from| ==> -1 <= m.from[j] < |was|
    requires -1 <= origin < |was|
    requires ChangedRows(picture, was, m, damage) && MarkedDifference(picture, was, damage, d.p, origin, damage')
    ensures var m' := Next(m, d, i, origin, lc);
            (forall j :: 0 <= j < |m'.from| ==> -1 <= m'.from[j] < |was|) && ChangedRows(picture, was, m', damage')
  {
    var m' := Next(m, d, i, origin, lc);
    forall cy | 0 <= cy < |damage'|
      ensures damage'[cy] == Changed(picture, was, m'.now, m'.from, cy)
    {
      assert Differs(picture, was, d.p, origin, cy) ==> Differs(picture, was, m'.now[|m.now|].p, m'.from[|m.now|], cy);
      if Changed(picture, was, m.now, m.from, cy) {
        var j :| 0 <= j < |m.now| && Differs(picture, was, m.now[j].p, m.from[j], cy);
        assert Differs(picture, was, m'.now[j].p, m'.from[j], cy);
      }
    }
  }

  ghost predicate InRange(last: Last, from: seq<int>) {
    |last.orders| == |last.frame| && forall j :: 0 <= j < |from| ==> -1 <= from[j] < |last.frame|
  }

  /** The order last seen is that of the last layer that stayed. */
  function LastOrder(last: Last, from: seq<int>): int
    requires InRange(last, from)
  {
    if LastKept(from) < 0 then -1 else last.orders[LastKept(from)]
  }

  /** Matching the layers one by one gives each its record and leaves the others alone. */
  ghost predicate Held(last: Last, views: Views, next: Tables, m: Matched, gen: nat) {
    Untaken(last, views, m.from, gen) && Indexes(next, m.now, m.recs) && Given(views, m, gen)
  }

  /** It marks exactly the rows that differ, and asks for a full redraw exactly if layers swapped. */
  ghost predicate Compared(picture: string -> Picture, last: Last, m: Matched, damage: seq<bool>,
                           forced: bool, full: bool, lastOrder: int) {
    && InRange(last, m.from) && |m.from| == |m.now|
    && ChangedRows(picture, last.frame, m, damage)
    && (full <==> forced || !InOrder(m.from))
    && lastOrder == LastOrder(last, m.from)
  }

  lemma {:induction false} NoneHeld(last: Last, views: Views, gen: nat)
    requires Untaken(last, views, [], gen)
    ensures Held(last, views, Tables(map[], map[], map[]), Matched([], [], [], []), gen)
  {
  }

  lemma {:induction false} NoneCompared(picture: string -> Picture, last: Last, damage: seq<bool>, redraw: bool)
    requires |last.orders| == |last.frame| && forall cy :: 0 <= cy < |damage| ==> !damage[cy]
    ensures Compared(picture, last, Matched([], [], [], []), damage, redraw, redraw, -1)
  {
  }

  /** A layer given its record. */
  lemma {:induction false} HeldOneMore(last: Last, views: Views, next: Tables, m: Matched, gen: nat, d: Drawn, i: nat,
                                       lc: LayerCells, origin: int)
    requires Held(last, views, next, m, gen) && Rising(last.orders) && -1 <= origin < |last.frame|
    requires if origin < 0 then lc !in views else lc == last.records[origin] && origin !in m.from
    ensures Held(last, views[lc := View(d.p, i, origin < 0, gen)], Enter(next, d, lc), Next(m, d, i, origin, lc), gen)
  {
    var v := View(d.p, i, origin < 0, gen);
    if origin < 0 {
      TakeNew(last, views, m.from, gen, lc, v);
    } else {
      TakeKept(last, views, m.from, gen, origin, v);
    }
    IndexOneMore(next, m.now, m.recs, d, lc);
    GiveOne(views, m, gen, d, i, origin, lc);
  }

  /** And compared: behind the one before it in the last frame, it has swapped with it. */
  lemma {:induction false} ComparedOneMore(picture: string -> Picture, last: Last, m: Matched, damage: seq<bool>,
                                           damage': seq<bool>, forced: bool, full: bool, lastOrder: int, d: Drawn,
                                           i: nat, origin: int, lc: LayerCells)
    requires Compared(picture, last, m, damage, forced, full, lastOrder)
    requires Rising(last.orders) && -1 <= origin < |last.frame| && (origin >= 0 ==> origin !in m.from)
    requires MarkedDifference(picture, last.frame, damage, d.p, origin, damage')
    ensures Compared(picture, last, Next(m, d, i, origin, lc), damage', forced,
                     full || (origin >= 0 && last.orders[origin] < lastOrder),
                     if origin < 0 then lastOrder else last.orders[origin])
  {
    ChangedOneMore(picture, last.frame, m, damage, d, i, origin, lc, damage');
    InOrderOneMore(m.from, origin);
    OrderTells(last, m.from, origin);
  }


  /** Orders tell which of two layers lay below the other. */
  lemma {:induction false} OrderTells(last: Last, from: seq<int>, origin: int)
    requires InRange(last, from) && Rising(last.orders) && -1 <= origin < |last.frame|
    ensures origin >= 0 ==> (last.orders[origin] < LastOrder(last, from) <==> origin < LastKept(from))
  {
  }

  /** How far matching has come: the layers of the list met so far, and what has been found out of them. */
  datatype Work = Work(picture: string -> Picture, last: Last, redraw: bool, gen: nat, list: seq<Drawn>,
                       m: Matched, views: Views, next: Tables, damage: seq<bool>, full: bool, lastOrder: int)

  /** What matching the layers one by one keeps. */
  ghost predicate Progress(w: Work) {
    && IsMatch(w.m, w.last.frame, w.list)
    && Held(w.last, w.views, w.next, w.m, w.gen)
    && Compared(w.picture, w.last, w.m, w.damage, w.redraw || |w.m.now| < |w.list|, w.full, w.lastOrder)
  }

  type Working = w: Work | Progress(w)
    ghost witness Work(_ => Picture(0, 0, []), Last([], [], []), false, 0, [], Matched([], [], [], []), map[],
                       Tables(map[], map[], map[]), [], false, -1)

  lemma {:induction false} NoProgress(picture: string -> Picture, last: Last, views: Views, damage: seq<bool>,
                                      redraw: bool, gen: nat) returns (w: Working)
    requires Untaken(last, views, [], gen) && forall cy :: 0 <= cy < |damage| ==> !damage[cy]
    ensures w == Work(picture, last, redraw, gen, [], Matched([], [], [], []), views, Tables(map[], map[], map[]),
                      damage, redraw, -1)
  {
    NoneHeld(last, views, gen);
    NoneCompared(picture, last, damage, redraw);
    w := Work(picture, last, redraw, gen, [], Matched([], [], [], []), views, Tables(map[], map[], map[]),
              damage, redraw, -1);
  }

  /** One more layer, given its record. */
  function Placing(w: Work, d: Drawn, lc: LayerCells, origin: int, damage: seq<bool>, full: bool, lastOrder: int)
    : Work
  {
    var i := |w.list|;
    Work(w.picture, w.last, w.redraw, w.gen, w.list + [d], Next(w.m, d, i, origin, lc),
         w.views[lc := View(d.p, i, origin < 0, w.gen)], Enter(w.next, d, lc), damage, full, lastOrder)
  }

  lemma {:induction false} PlaceInStep(w: Working, d: Drawn, lc: LayerCells, origin: int, damage: seq<bool>,
                                       full: bool, lastOrder: int) returns (w': Working)
    requires Rising(w.last.orders) && Find(w.m.now, ByLayer(d.layer)) < 0
    requires origin == Origin(w.last.frame, d, w.m.from)
    requires if origin < 0 then lc !in w.views else lc == w.last.records[origin] && origin !in w.m.from
    requires MarkedDifference(w.picture, w.last.frame, w.damage, d.p, origin, damage)
    requires full == (w.full || (origin >= 0 && w.last.orders[origin] < w.lastOrder))
    requires lastOrder == if origin < 0 then w.lastOrder else w.last.orders[origin]
    ensures w' == Placing(w, d, lc, origin, damage, full, lastOrder)
    ensures w'.views == w.views[lc := View(d.p, |w.list|, origin < 0, w.gen)] && (origin >= 0 ==> lc in w.views)
  {
    var i := |w.list|;
    MatchOneMore(w.m, w.last.frame, w.list, d, lc);
    HeldOneMore(w.last, w.views, w.next, w.m, w.gen, d, i, lc, origin);
    ComparedOneMore(w.picture, w.last, w.m, w.damage, damage, w.redraw || |w.m.now| < i, w.full, w.lastOrder, d, i,
                    origin, lc);
    w' := Placing(w, d, lc, origin, damage, full, lastOrder);
  }

  /** A layer passed a second time is passed over, and everything is redrawn. */
  lemma {:induction false} AgainInStep(w: Working, d: Drawn) returns (w': Working)
    requires Find(w.m.now, ByLayer(d.layer)) >= 0
    ensures w' == w.(list := w.list + [d], full := true)
  {
    hide Held, Find, FirstOnly, Orders, Origins;
    MatchAgain(w.m, w.last.frame, w.list, d);
    w' := w.(list := w.list + [d], full := true);
  }

  lemma {:induction false} MetBefore(w: Working, layer: Layer)
    ensures layer in w.next.byLayer <==> Find(w.m.now, ByLayer(layer)) >= 0
  {
    IndexedFind(w.next, w.m.now, w.m.recs, ByLayer(layer));
  }

  /** The work is this frame's, and has come this far. */
  ghost predicate Tracks(w: Work, picture: string -> Picture, last: Last, next: Tables, damage: seq<bool>, full: bool,
                         lastOrder: int, gen: nat)
  {
    w == Work(picture, last, w.redraw, gen, w.list, w.m, w.views, next, damage, full, lastOrder)
  }

  function NoRows(height: nat): (rows: seq<bool>)
    ensures |rows| == height && forall cy :: 0 <= cy < height ==> !rows[cy]
  {
    seq(height, _ => false)
  }

  /** The rows of layers that are gone have been added. */
  ghost predicate MarkedGone(picture: string -> Picture, was: seq<Drawn>, from: seq<int>, damage: seq<bool>,
                             damage': seq<bool>) {
    && |damage| == |damage'|
    && forall cy :: 0 <= cy < |damage| ==> damage'[cy] == (damage[cy] || Vacated(picture, was, from, cy))
  }

  /** The plan for a frame: every layer has its record, and the damaged rows are those that differ. */
  ghost predicate Planned(w: Work) {
    && IsMatch(w.m, w.last.frame, w.list)
    && Indexes(w.next, w.m.now, w.m.recs)
    && Given(w.views, w.m, w.gen)
    && (w.full <==> w.redraw || |w.m.now| < |w.list| || !InOrder(w.m.from))
    && forall cy :: 0 <= cy < |w.damage| ==> w.damage[cy] == Touched(w.picture, w.last.frame, w.m.now, cy)
  }

  type Plan = w: Work | Planned(w)
    ghost witness Work(_ => Picture(0, 0, []), Last([], [], []), false, 0, [], Matched([], [], [], []), map[],
                       Tables(map[], map[], map[]), [], false, -1)

  lemma {:induction false} PlanDone(w: Working, damage: seq<bool>) returns (plan: Plan)
    requires MarkedGone(w.picture, w.last.frame, w.m.from, w.damage, damage)
    ensures plan == w.(damage := damage)
  {
    TouchedNow(w, damage);
    plan := w.(damage := damage);
  }

  lemma {:induction false} TouchedNow(w: Working, damage: seq<bool>)
    requires MarkedGone(w.picture, w.last.frame, w.m.from, w.damage, damage)
    ensures forall cy :: 0 <= cy < |damage| ==> damage[cy] == Touched(w.picture, w.last.frame, w.m.now, cy)
  {
    assert w.m.from == Origins(w.last.frame, w.m.now);
  }

  /** A layer's record is found, shows it as this frame does, and was drawn before unless its rows are damaged. */
  ghost predicate ReadyAt(picture: string -> Picture, views: Views, byLayer: map<Layer, LayerCells>,
                          recs: seq<LayerCells>, d: Drawn, damage: seq<bool>)
  {
    && d.layer in byLayer && byLayer[d.layer] in recs && byLayer[d.layer] in views
    && views[byLayer[d.layer]].p == d.p
    && (views[byLayer[d.layer]].isNew ==> RowsDamaged(picture, damage, d.p))
  }

  lemma {:induction false} ReadyAll(w: Plan, damage: seq<bool>)
    requires Coherent(w.list) && MoreDamage(w.damage, damage)
    ensures forall i :: 0 <= i < |w.list| ==>
              ReadyAt(w.picture, w.views, w.next.byLayer, w.m.recs, w.list[i], damage)
  {
    forall i | 0 <= i < |w.list|
      ensures ReadyAt(w.picture, w.views, w.next.byLayer, w.m.recs, w.list[i], damage)
    {
      ReadyOne(w, damage, w.list[i]);
    }
  }

  lemma {:induction false} ReadyOne(w: Plan, damage: seq<bool>, d: Drawn)
    requires Coherent(w.list) && MoreDamage(w.damage, damage) && d in w.list
    ensures ReadyAt(w.picture, w.views, w.next.byLayer, w.m.recs, d, damage)
  {
    assert Fits(d, ByLayer(d.layer));
    FirstOnlyFinds(w.list, d.layer);
    var k := Find(w.m.now, ByLayer(d.layer));
    FirstOnlyWithin(w.list);
    assert w.m.now[k] in w.m.now && w.m.now[k] == d;
    IndexedFind(w.next, w.m.now, w.m.recs, ByLayer(d.layer));
    NewIsDamaged(w.picture, w.last.frame, w.m, w.damage, k);
  }

  lemma {:induction false} NewIsDamaged(picture: string -> Picture, was: seq<Drawn>, m: Matched, damage: seq<bool>,
                                        k: nat)
    requires m.from == Origins(was, m.now) && k < |m.now|
    requires forall cy :: 0 <= cy < |damage| ==> damage[cy] == Touched(picture, was, m.now, cy)
    ensures m.from[k] < 0 ==> RowsDamaged(picture, damage, m.now[k].p)
  {
    if m.from[k] < 0 {
      forall cy | 0 <= cy < |damage| && Crosses(m.now[k].p, picture, cy)
        ensures damage[cy]
      {
        assert Differs(picture, was, m.now[k].p, m.from[k], cy);
      }
    }
  }

  /** The rows drawn are those the frame redraws. */
  lemma {:induction false} PlanDraws(w: Plan)
    ensures Widened(w.damage, w.full) == RedrawnRows(w.picture, w.last.frame, w.list, |w.damage|, w.redraw)
  {
    PlanForces(w);
    PlanMarks(w);
  }

  lemma {:induction false} PlanForces(w: Plan)
    ensures w.full <==>
            w.redraw || !Distinct(Layers(w.list)) || !InOrder(Origins(w.last.frame, FirstOnly(w.list)))
  {
    AllFirst(w.list);
  }

  lemma {:induction false} PlanMarks(w: Plan)
    ensures w.damage == TouchedRows(w.picture, w.last.frame, FirstOnly(w.list), |w.damage|)
  {
  }

  /** Cleared, then drawn layer by layer, a damaged row is that of the full compose. */
  lemma {:induction false} DrawnFull(picture: string -> Picture, start: Grid, cleared: Grid, after: Grid,
                                     list: seq<Drawn>, damage: seq<bool>, w: nat, h: nat)
    requires forall c :: Drawable(picture(c))
    requires |start| == |cleared| == |damage| == h
    requires forall cy :: 0 <= cy < h ==> cleared[cy] == if damage[cy] then BlankRow(w) else start[cy]
    requires DrawnSoFar(picture, cleared, after, Places(list), damage, w)
    ensures after == Paint(picture, list, start, damage, w)
  {
    forall cy | 0 <= cy < h
      ensures FullRow(list, picture, w, h, cy) == DrawAllOnRow(BlankRow(w), Places(list), picture, cy, w, h)
    {
      DrawAllRowByRow(Blank(w, h), Places(list), picture, cy, w);
    }
  }

  lemma {:induction false} PaintMoves(picture: string -> Picture, list: seq<Drawn>, was: seq<Drawn>, before: Grid,
                                      painted: Grid, redraw: bool, rows: seq<bool>, w: nat)
    requires rows == RedrawnRows(picture, was, list, |rows|, redraw)
    requires |before| == |rows| && (!redraw ==> before == painted)
    ensures Unmoved(rows, redraw, painted, Paint(picture, list, before, rows, w))
    ensures Paint(picture, list, before, rows, w) == Paint(picture, list, painted, rows, w)
  {
  }

  /** All rows, once most of them are damaged. */
  function Widened(damage: seq<bool>, full: bool): (r: seq<bool>)
    ensures |r| == |damage|
  {
    if full || 2 * Count(damage) > |damage| then seq(|damage|, _ => true) else damage
  }

  lemma {:induction false} WidenedMore(damage: seq<bool>, full: bool)
    ensures MoreDamage(damage, Widened(damage, full))
  {
  }

  /** Some record among these that no layer took crosses the row. */
  ghost predicate VacatedBy(picture: string -> Picture, views: Views, records: set<LayerCells>, gen: nat, cy: int) {
    exists lc :: lc in records && lc in views && views[lc].gen != gen && Crosses(views[lc].p, picture, cy)
  }

  ghost predicate MarkedBy(picture: string -> Picture, views: Views, records: set<LayerCells>, gen: nat,
                           damage: seq<bool>, damage': seq<bool>) {
    && |damage| == |damage'|
    && forall cy :: 0 <= cy < |damage| ==> damage'[cy] == (damage[cy] || VacatedBy(picture, views, records, gen, cy))
  }

  lemma {:induction false} MarkedByOneMore(picture: string -> Picture, views: Views, records: set<LayerCells>, gen: nat,
                                           damage: seq<bool>, marked: seq<bool>, lc: LayerCells, marked': seq<bool>)
    requires MarkedBy(picture, views, records, gen, damage, marked) && lc in views
    requires if views[lc].gen == gen then marked' == marked else Marked(picture, marked, views[lc].p, marked')
    ensures MarkedBy(picture, views, records + {lc}, gen, damage, marked')
  {
    forall cy | 0 <= cy < |damage|
      ensures marked'[cy] == (damage[cy] || VacatedBy(picture, views, records + {lc}, gen, cy))
    {
      if VacatedBy(picture, views, records, gen, cy) {
        var l :| l in records && l in views && views[l].gen != gen && Crosses(views[l].p, picture, cy);
        assert l in records + {lc};
      }
      assert lc in records + {lc};
    }
  }

  /** The records of the last frame no layer took are those of the layers that are gone. */
  lemma {:induction false} VacatedIsGone(picture: string -> Picture, last: Last, views: Views, from: seq<int>, gen: nat,
                                         records: set<LayerCells>, damage: seq<bool>, damage': seq<bool>)
    requires Untaken(last, views, from, gen) && forall lc :: lc in records <==> lc in last.records
    requires MarkedBy(picture, views, records, gen, damage, damage')
    ensures MarkedGone(picture, last.frame, from, damage, damage')
  {
    forall cy | 0 <= cy < |damage|
      ensures VacatedBy(picture, views, records, gen, cy) <==> Vacated(picture, last.frame, from, cy)
    {
      if VacatedBy(picture, views, records, gen, cy) {
        var lc :| lc in records && lc in views && views[lc].gen != gen && Crosses(views[lc].p, picture, cy);
        var k :| 0 <= k < |last.records| && last.records[k] == lc;
        assert k !in from;
      }
      if Vacated(picture, last.frame, from, cy) {
        var k :| 0 <= k < |last.frame| && k !in from && Crosses(last.frame[k].p, picture, cy);
        assert last.records[k] in records;
      }
    }
  }

  // ---- the compositor ------------------------------------------------------------------------

  /** A canvas as text: its rows rendered one by one and joined by newlines. */
  function Rendered(cells: Grid, renderRow: Row -> string): string {
    Join(seq(|cells|, y requires 0 <= y < |cells| => renderRow(cells[y])))
  }

  function Join(lines: seq<string>): string {
    if lines == [] then ""
    else if |lines| == 1 then lines[0]
    else lines[0] + "\n" + Join(lines[1..])
  }

  /** Text cut at its newlines. */
  function Lines(text: string): (lines: seq<string>)
    ensures lines != []
  {
    if text == "" then [""]
    else
      var rest := Lines(text[1..]);
      if text[0] == '\n' then [""] + rest else [[text[0]] + rest[0]] + rest[1..]
  }

  lemma {:induction false} OnlyLine(line: string)
    requires '\n' !in line
    ensures Lines(line) == [line]
  {
    if line != "" {
      OnlyLine(line[1..]);
      assert [line[0]] + line[1..] == line;
    }
  }

  lemma {:induction false} FirstLine(line: string, text: string)
    requires '\n' !in line
    ensures Lines(line + "\n" + text) == [line] + Lines(text)
  {
    var all := line + "\n" + text;
    if line == "" {
      assert all == "\n" + text;
    } else {
      assert all[1..] == line[1..] + "\n" + text;
      FirstLine(line[1..], text);
      assert all[0] == line[0] != '\n' && [all[0]] + line[1..] == line;
      assert ([line[1..]] + Lines(text))[1..] == Lines(text);
    }
  }

  lemma {:induction false} JoinedLines(lines: seq<string>)
    requires lines != [] && forall y :: 0 <= y < |lines| ==> '\n' !in lines[y]
    ensures Lines(Join(lines)) == lines
  {
    if |lines| == 1 {
      OnlyLine(lines[0]);
    } else {
      FirstLine(lines[0], Join(lines[1..]));
      JoinedLines(lines[1..]);
      assert [lines[0]] + lines[1..] == lines;
    }
  }

  /** Cut at its newlines the text is row for row what the rows render to, if they render to no newline. */
  lemma {:induction false} LineByLine(cells: Grid, renderRow: Row -> string)
    requires cells != [] && forall y :: 0 <= y < |cells| ==> '\n' !in renderRow(cells[y])
    ensures var lines := Lines(Rendered(cells, renderRow));
            |lines| == |cells| && forall y :: 0 <= y < |cells| ==> lines[y] == renderRow(cells[y])
  {
    JoinedLines(seq(|cells|, y requires 0 <= y < |cells| => renderRow(cells[y])));
  }

  /** Rows that are not dirty have their text cached, and the whole text is if no row is dirty. */
  ghost predicate RowsCached(dirty: seq<bool>, rows: seq<string>, text: string, painted: Grid,
                             renderRow: Row -> string)
  {
    && |dirty| == |rows| == |painted|
    && (forall y :: 0 <= y < |dirty| && !dirty[y] ==> rows[y] == renderRow(painted[y]))
    && (dirty != [] && text != "" && (forall y :: 0 <= y < |dirty| ==> !dirty[y]) ==> text == Join(rows))
  }

  /** Rows without damage are as they were painted before; with a new canvas there are none. */
  ghost predicate Unmoved(damage: seq<bool>, redraw: bool, painted: Grid, cells: Grid) {
    && |damage| == |cells|
    && (redraw ==> forall y :: 0 <= y < |damage| ==> damage[y])
    && (!redraw ==> |painted| == |cells| && forall y :: 0 <= y < |damage| && !damage[y] ==> cells[y] == painted[y])
  }

  lemma {:induction false} StillCached(dirty: seq<bool>, rows: seq<string>, text: string, painted: Grid,
                                       renderRow: Row -> string, damage: seq<bool>, redraw: bool, cells: Grid,
                                       dirty': seq<bool>, rows': seq<string>)
    requires RowsCached(dirty, rows, text, painted, renderRow) && |damage| == |cells|
    requires Unmoved(damage, redraw, painted, cells)
    requires |dirty'| == |rows'| == |damage|
    requires |dirty| != |damage| ==> forall y :: 0 <= y < |damage| ==> dirty'[y]
    requires |dirty| == |damage| ==>
               rows' == rows && forall y :: 0 <= y < |damage| ==> dirty'[y] == (dirty[y] || damage[y])
    ensures RowsCached(dirty', rows', text, cells, renderRow)
  {
    if dirty' != [] && forall y :: 0 <= y < |dirty'| ==> !dirty'[y] {
      assert !dirty'[0];
      assert forall y :: 0 <= y < |dirty| ==> !dirty[y];
    }
  }

  class OS {
    const picture: string -> Picture
    const renderRow: Row -> string

    var tables: Tables
    var composedCanvas: Canvas?
    var composedBounds: (nat, nat)
    var composeGen: nat
    // The rows changed since the last render, the text of the others, and the last frame's text.
    var rowDirty: seq<bool>
    var rowStrings: seq<string>
    var frameString: string

    // The last frame, and what composing it left on the canvas.
    ghost var last: Last
    ghost var painted: Grid

    /** The record holds v: where and how its layer was last drawn. */
    ghost predicate Shows(lc: LayerCells, v: View)
      reads lc
    {
      match v
      case View(p, order, isNew, gen) =>
        && lc.x == p.x && lc.y == p.y && lc.content == p.content
        && lc.order == order && lc.isNew == isNew && lc.gen == gen
        && lc.Describes(picture(p.content))
    }

    /** Every record stands as the frame left it. */
    ghost predicate Settled(l: Last, gen: nat)
      reads l.records
    {
      |l.records| == |l.frame| == |l.orders| && forall k :: 0 <= k < |l.records| ==>
        && Shows(l.records[k], View(l.frame[k].p, l.orders[k], l.records[k].isNew, l.records[k].gen))
        && l.records[k].gen <= gen
    }

    ghost predicate Mirror(views: Views)
      reads views.Keys
    {
      forall lc :: lc in views ==> Shows(lc, views[lc])
    }

    ghost predicate Cached()
      reads this
    {
      && (composedCanvas != null ==> |painted| == composedBounds.1 == |rowDirty|)
      && (composedCanvas == null ==> painted == [])
      && RowsCached(rowDirty, rowStrings, frameString, painted, renderRow)
    }

    /** A frame as the compositor remembers it: each layer once, in order. */
    ghost predicate IsLast(l: Last) {
      OwnContent(l.frame) && Distinct(Layers(l.frame)) && Rising(l.orders)
    }

    ghost predicate Valid()
      reads this, last.records
    {
      && (forall c :: Drawable(picture(c)))
      && Indexes(tables, last.frame, last.records)
      && IsLast(last) && Settled(last, composeGen)
      && Cached()
    }

    /** The canvas is the one composed last, at the size it had then. */
    predicate SameCanvas(canvas: Canvas)
      reads this, canvas
    {
      canvas == composedCanvas && composedBounds == (canvas.width, canvas.height)
    }

    /** The row is on the canvas as the last frame, each layer taken once, shows it. */
    ghost predicate Right(cy: nat)
      reads this
    {
      && cy < composedBounds.1 && cy < |painted|
      && painted[cy] == FullRow(last.frame, picture, composedBounds.0, composedBounds.1, cy)
    }

    constructor (picture: string -> Picture, renderRow: Row -> string)
      requires forall c :: Drawable(picture(c))
      ensures Valid() && composedCanvas == null && last.frame == [] && last.records == []
      ensures painted == [] && frameString == ""
      ensures this.picture == picture && this.renderRow == renderRow
    {
      this.picture, this.renderRow := picture, renderRow;
      tables := Tables(map[], map[], map[]);
      composedCanvas, composedBounds, composeGen := null, (0, 0), 0;
      rowDirty, rowStrings, frameString := [], [], "";
      last, painted := Last([], [], []), [];
    }

    /** The record of the layer this one was built anew from: found by id, or by content if it has no id. */
    method MatchRebuiltLayer(layer: Layer, gen: nat, ghost views: Views, ghost taken: seq<int>)
      returns (lc: LayerCells?)
      requires Indexes(tables, last.frame, last.records) && Untaken(last, views, taken, gen) && Mirror(views)
      ensures var k := Rebuilt(last.frame, DrawnNow(layer), taken);
              if k < 0 then lc == null else lc == last.records[k]
    {
      ghost var key := if layer.id != "" then ByID(layer.id) else ByContent(layer.content);
      ghost var k := Find(last.frame, key);
      IndexedFind(tables, last.frame, last.records, key);
      lc := null;
      if layer.id != "" {
        if layer.id in tables.byID { lc := tables.byID[layer.id]; }
      } else {
        if layer.content in tables.byContent { lc := tables.byContent[layer.content]; }
      }
      assert lc == if k < 0 then null else last.records[k];
      assert lc != null ==> Shows(lc, views[last.records[k]]);
      if lc != null && (lc.gen == gen || lc.content != layer.content) {
        lc := null;
      }
    }

    /** The record last frame left for a layer, unless another layer has taken it this frame. */
    method FindRecord(layer: Layer, gen: nat, ghost views: Views, ghost taken: seq<int>) returns (lc: LayerCells?)
      requires Indexes(tables, last.frame, last.records) && Untaken(last, views, taken, gen) && Mirror(views)
      ensures var k := Origin(last.frame, DrawnNow(layer), taken);
              if k < 0 then lc == null else lc == last.records[k]
    {
      ghost var k := Find(last.frame, ByLayer(layer));
      IndexedFind(tables, last.frame, last.records, ByLayer(layer));
      lc := null;
      if layer in tables.byLayer && tables.byLayer[layer].gen != gen {
        lc := tables.byLayer[layer];
        assert Shows(lc, views[last.records[k]]);
      } else {
        assert k >= 0 ==> Shows(last.records[k], views[last.records[k]]);
      }
      if lc == null {
        lc := MatchRebuiltLayer(layer, gen, views, taken);
      }
    }

    /** Marks the rows p covers, given the record that measures it. */
    method Mark(damage: seq<bool>, lc: LayerCells, p: Placed) returns (damage': seq<bool>)
      requires Drawable(picture(p.content)) && lc.Describes(picture(p.content))
      ensures Marked(picture, damage, p, damage')
    {
      damage' := lc.MarkRows(damage, p.y);
    }

    /** Marks the rows of a kept layer that moved: those it left and those it is on now. */
    method MarkMove(damage: seq<bool>, lc: LayerCells, p: Placed, ghost origin: int) returns (damage': seq<bool>)
      requires 0 <= origin < |last.frame| && Placed(lc.x, lc.y, lc.content) == last.frame[origin].p
      requires lc.content == p.content && lc.Describes(picture(p.content)) && Drawable(picture(p.content))
      ensures MarkedDifference(picture, last.frame, damage, p, origin, damage')
    {
      damage' := damage;
      if lc.x != p.x || lc.y != p.y {
        damage' := Mark(damage', lc, Placed(lc.x, lc.y, lc.content));
        damage' := Mark(damage', lc, p);
      }
    }

    /** A record for a layer not seen last frame. */
    method NewRecord(p: Placed, i: nat, gen: nat) returns (lc: LayerCells)
      ensures fresh(lc) && Shows(lc, View(p, i, true, gen))
    {
      lc := new LayerCells(picture(p.content));
      lc.x, lc.y, lc.order, lc.gen, lc.content, lc.isNew := p.x, p.y, i, gen, p.content, true;
    }

    /** A layer that stays keeps its record. */
    method KeepRecord(lc: LayerCells, p: Placed, i: nat, gen: nat)
      requires lc.Describes(picture(p.content))
      modifies lc
      ensures Shows(lc, View(p, i, false, gen))
    {
      lc.x, lc.y, lc.order, lc.gen, lc.content, lc.isNew := p.x, p.y, i, gen, p.content, false;
    }

    /** A layer found again shows the content it had. */
    lemma {:induction false} SameContent(d: Drawn, taken: seq<int>)
      requires OwnContent(last.frame) && d.p.content == d.layer.content
      ensures var k := Origin(last.frame, d, taken);
              k >= 0 ==> last.frame[k].p.content == d.p.content && k !in taken
    {
    }

    /**
      Gives layer number i of this frame its record, marks exactly the rows where it differs from
      the last frame, and asks for a full redraw when two layers that stayed have swapped.
     */
    method PlaceLayer(layer: Layer, d: Drawn, i: nat, gen: nat, damage: seq<bool>, lastOrder: int, full: bool,
                      ghost views: Views, ghost taken: seq<int>)
      returns (lc: LayerCells, damage': seq<bool>, lastOrder': int, full': bool, ghost origin: int)
      requires Indexes(tables, last.frame, last.records) && d == DrawnNow(layer) && OwnContent(last.frame)
      requires Untaken(last, views, taken, gen) && Mirror(views)
      requires forall c :: Drawable(picture(c))
      modifies last.records
      ensures last == old(last) && Mirror(views[lc := View(d.p, i, origin < 0, gen)])
      ensures origin == Origin(old(last).frame, d, taken) && (origin >= 0 ==> origin !in taken)
      ensures if origin < 0 then fresh(lc) else lc == old(last).records[origin]
      ensures MarkedDifference(picture, old(last).frame, damage, d.p, origin, damage')
      ensures full' == (full || (origin >= 0 && old(last).orders[origin] < lastOrder))
      ensures lastOrder' == if origin < 0 then lastOrder else old(last).orders[origin]
    {
      hide Indexes, Origin, Find;
      var p := Placed(layer.x, layer.y, layer.content);
      SameContent(d, taken);
      full', lastOrder', origin := full, lastOrder, Origin(last.frame, d, taken);
      var found := FindRecord(layer, gen, views, taken);
      if found == null {
        lc := NewRecord(p, i, gen);
        damage' := Mark(damage, lc, p);
      } else {
        lc := found;
        assert Shows(lc, views[lc]);
        if lc.order < lastOrder {
          full' := true;
        }
        lastOrder' := lc.order;
        damage' := MarkMove(damage, lc, p, origin);
        KeepRecord(lc, p, i, gen);
      }
    }

    /** Gives a layer not met before in this frame its record, and enters it in the tables. */
    method MatchOne(layer: Layer, d: Drawn, i: nat, gen: nat, damage: seq<bool>, lastOrder: int, full: bool,
                    next: Tables, ghost w: Working)
      returns (damage': seq<bool>, lastOrder': int, full': bool, next': Tables, ghost w': Working)
      requires Indexes(tables, last.frame, last.records) && Rising(last.orders) && OwnContent(last.frame)
      requires d == DrawnNow(layer) && Mirror(w.views) && i == |w.list|
      requires Tracks(w, picture, last, next, damage, full, lastOrder, gen) && Find(w.m.now, ByLayer(layer)) < 0
      requires forall c :: Drawable(picture(c))
      modifies last.records
      ensures last == old(last) && Mirror(w'.views) && |damage'| == |damage|
      ensures w'.list == w.list + [d] && w'.redraw == w.redraw
      ensures Tracks(w', picture, old(last), next', damage', full', lastOrder', gen)
      ensures forall lc :: lc in w'.views ==> lc in w.views || fresh(lc)
    {
      var lc;
      ghost var origin;
      lc, damage', lastOrder', full', origin :=
        PlaceLayer(layer, d, i, gen, damage, lastOrder, full, w.views, w.m.from);
      w' := PlaceInStep(w, d, lc, origin, damage', full', lastOrder');
      next' := Enter(next, d, lc);
    }

    /** Matches layer number i, or passes it over if it came before. */
    method MatchLayer(layer: Layer, d: Drawn, i: nat, gen: nat, damage: seq<bool>, lastOrder: int, full: bool,
                      next: Tables, ghost w: Working)
      returns (damage': seq<bool>, lastOrder': int, full': bool, next': Tables, ghost w': Working)
      requires Indexes(tables, last.frame, last.records) && Rising(last.orders) && OwnContent(last.frame)
      requires d == DrawnNow(layer) && Mirror(w.views) && i == |w.list|
      requires Tracks(w, picture, last, next, damage, full, lastOrder, gen)
      requires forall c :: Drawable(picture(c))
      modifies last.records
      ensures last == old(last) && Mirror(w'.views) && |damage'| == |damage|
      ensures w'.list == w.list + [d] && w'.redraw == w.redraw
      ensures Tracks(w', picture, old(last), next', damage', full', lastOrder', gen)
      ensures forall lc :: lc in w'.views ==> lc in w.views || fresh(lc)
    {
      MetBefore(w, layer);
      if layer in next.byLayer {
        damage', lastOrder', full', next' := damage, lastOrder, true, next;
        w' := AgainInStep(w, d);
      } else {
        damage', lastOrder', full', next', w' := MatchOne(layer, d, i, gen, damage, lastOrder, full, next, w);
      }
    }

    /** Matches the layers of this frame, in z order, with those of the last one. */
    method MatchLayers(sorted: seq<Layer>, gen: nat, height: nat, redraw: bool, ghost list: seq<Drawn>,
                       ghost start: Working)
      returns (next: Tables, damage: seq<bool>, full: bool, ghost w: Working)
      requires Indexes(tables, last.frame, last.records) && Rising(last.orders) && OwnContent(last.frame)
      requires list == AsDrawn(sorted)
      requires start.list == [] && start.redraw == redraw && Mirror(start.views)
      requires Tracks(start, picture, last, Tables(map[], map[], map[]), NoRows(height), redraw, -1, gen)
      requires forall lc :: lc in start.views ==> lc in last.records
      requires forall c :: Drawable(picture(c))
      modifies last.records
      ensures last == old(last) && |damage| == height && Mirror(w.views) && w.list == list && w.redraw == redraw
      ensures forall lc :: lc in w.views ==> lc in old(last).records || fresh(lc)
      ensures Tracks(w, picture, old(last), next, damage, full, w.lastOrder, gen)
    {
      hide Progress, TablesOf;
      next, full := Tables(map[], map[], map[]), redraw;
      damage := NoRows(height);
      var lastOrder := -1;
      ghost var was := last;
      w := start;
      for i := 0 to |sorted|
        invariant last == was && |damage| == height && Mirror(w.views) && Begins(w.list, i, list) && w.redraw == redraw
        invariant forall lc :: lc in w.views ==> lc in was.records || fresh(lc)
        invariant Tracks(w, picture, was, next, damage, full, lastOrder, gen)
      {
        var d := DrawnNow(sorted[i]);
        BeginsMore(w.list, i, list, d);
        damage, lastOrder, full, next, w := MatchLayer(sorted[i], d, i, gen, damage, lastOrder, full, next, w);
      }
      BeginsAll(w.list, list);
    }

    /** A layer is decoded when it has to be drawn a second time. */
    method DecodeOnce(lc: LayerCells, ghost v: View)
      requires Shows(lc, v) && Drawable(picture(v.p.content))
      modifies lc
      ensures Shows(lc, v) && lc.decoded
    {
      if !lc.decoded {
        lc.Decode(picture(lc.content));
      }
    }

    /** A layer that was here last frame: replayed if it crosses a damaged row. */
    method RedrawKept(lc: LayerCells, canvas: Canvas, damage: seq<bool>, ghost v: View)
      requires canvas.Valid() && |damage| == canvas.height
      requires Drawable(picture(v.p.content)) && Shows(lc, v)
      requires Overlaps(picture(v.p.content), v.p.x, v.p.y, canvas.width, canvas.height)
      modifies canvas`cells, lc
      ensures canvas.Valid() && Shows(lc, v)
      ensures Redrawn(old(canvas.cells), canvas.cells, v.p, picture, damage, canvas.width)
    {
      var (lo, hi) := lc.RowSpan();
      var from := if lc.y + lo > 0 then lc.y + lo else 0;
      var to := if lc.y + hi < |damage| then lc.y + hi else |damage|;
      if true !in damage[from..to] {
        NoneDamaged(damage, from, to);
        NotCrossed(picture, canvas.cells, v.p, damage, canvas.width);
        return;
      }
      DecodeOnce(lc, v);
      ghost var before := canvas.cells;
      lc.Replay(canvas, lc.x, lc.y, damage, picture(lc.content));
      ReplayedRows(picture, before, canvas.cells, v.p, damage, canvas.width);
    }

    /** One layer of it: drawn directly when new, skipped when it is off the screen. */
    method RedrawLayer(lc: LayerCells, canvas: Canvas, damage: seq<bool>, ghost v: View)
      requires canvas.Valid() && |damage| == canvas.height
      requires Drawable(picture(v.p.content)) && Shows(lc, v)
      requires v.isNew ==> RowsDamaged(picture, damage, v.p)
      modifies canvas`cells, lc
      ensures canvas.Valid() && Shows(lc, v)
      ensures Redrawn(old(canvas.cells), canvas.cells, v.p, picture, damage, canvas.width)
    {
      if !Overlaps(Picture(lc.width, lc.height, []), lc.x, lc.y, canvas.width, canvas.height) {
        return;
      }
      if lc.isNew {
        canvas.DrawLayer(Placed(lc.x, lc.y, lc.content), picture);
        return;
      }
      RedrawKept(lc, canvas, damage, v);
    }

    /** Draws the layers that cross a damaged row, in z order, on the damaged rows. */
    method Redraw(sorted: seq<Layer>, byLayer: map<Layer, LayerCells>, canvas: Canvas, damage: seq<bool>,
                  ghost views: Views, ghost recs: seq<LayerCells>, ghost list: seq<Drawn>)
      requires canvas.Valid() && |damage| == canvas.height
      requires forall c :: Drawable(picture(c))
      requires Mirror(views) && Layers(list) == sorted
      requires forall i :: 0 <= i < |list| ==> ReadyAt(picture, views, byLayer, recs, list[i], damage)
      modifies canvas`cells, recs
      ensures canvas.Valid() && Mirror(views)
      ensures DrawnSoFar(picture, old(canvas.cells), canvas.cells, Places(list), damage, canvas.width)
    {
      ghost var start, now := canvas.cells, Places(list);
      assert DrawnSoFar(picture, start, start, now[..0], damage, canvas.width);
      hide DrawnSoFar, Redrawn, Drawable;
      for j := 0 to |sorted|
        invariant canvas.Valid() && Mirror(views)
        invariant DrawnSoFar(picture, start, canvas.cells, now[..j], damage, canvas.width)
      {
        assert ReadyAt(picture, views, byLayer, recs, list[j], damage);
        var lc := byLayer[sorted[j]];
        assert Shows(lc, views[lc]);
        ghost var before := canvas.cells;
        RedrawLayer(lc, canvas, damage, views[lc]);
        DrawnOneMore(picture, start, before, canvas.cells, now, j, damage, canvas.width);
      }
      assert now[..|now|] == now;
    }

    method MarkIfGone(damage: seq<bool>, lc: LayerCells, gen: nat, ghost v: View) returns (damage': seq<bool>)
      requires Shows(lc, v) && Drawable(picture(v.p.content))
      ensures if v.gen == gen then damage' == damage else Marked(picture, damage, v.p, damage')
    {
      damage' := damage;
      if lc.gen != gen {
        damage' := Mark(damage', lc, Placed(lc.x, lc.y, lc.content));
      }
    }

    /** Marks exactly the rows of the records that no layer took this frame. */
    method MarkGone(damage: seq<bool>, all: set<LayerCells>, gen: nat, ghost views: Views)
      returns (damage': seq<bool>)
      requires Mirror(views) && all <= views.Keys
      requires forall c :: Drawable(picture(c))
      ensures MarkedBy(picture, views, all, gen, damage, damage')
    {
      damage' := damage;
      var todo := all;
      while todo != {}
        invariant todo <= all && MarkedBy(picture, views, all - todo, gen, damage, damage')
      {
        var lc :| lc in todo;
        ghost var marked, done := damage', all - todo;
        damage' := MarkIfGone(damage', lc, gen, views[lc]);
        MarkedByOneMore(picture, views, done, gen, damage, marked, lc, damage');
        todo := todo - {lc};
        assert all - todo == done + {lc};
      }
      assert all - todo == all;
    }

    /** Clears the damaged rows, or the whole canvas when most rows are damaged or all must be redrawn. */
    method ClearDamaged(canvas: Canvas, damage: seq<bool>, full: bool) returns (damage': seq<bool>)
      requires canvas.Valid() && |damage| == canvas.height
      modifies canvas`cells
      ensures canvas.Valid() && damage' == Widened(damage, full)
      ensures forall cy :: 0 <= cy < canvas.height ==>
                canvas.cells[cy] == if damage'[cy] then BlankRow(canvas.width) else old(canvas.cells[cy])
    {
      damage' := damage;
      var damaged := 0;
      for i := 0 to |damage|
        invariant damaged == Count(damage[..i])
      {
        assert damage[..i + 1][..i] == damage[..i];
        if damage[i] { damaged := damaged + 1; }
      }
      assert damage[..|damage|] == damage;
      if full || 2 * damaged > |damage| {
        canvas.Clear();
        damage' := seq(|damage|, _ => true);
      } else {
        ghost var start := canvas.cells;
        for cy := 0 to |damage|
          invariant canvas.Valid()
          invariant forall r :: 0 <= r < canvas.height ==>
                      canvas.cells[r] == if r < cy && damage[r] then BlankRow(canvas.width) else start[r]
        {
          if damage[cy] {
            ClearCanvasRow(canvas, cy);
          }
        }
      }
    }

    method ClearCanvasRow(canvas: Canvas, cy: nat)
      requires canvas.Valid() && cy < canvas.height
      modifies canvas`cells
      ensures canvas.Valid() && canvas.cells == old(canvas.cells)[cy := BlankRow(canvas.width)]
    {
      ghost var before := canvas.cells;
      for cx := 0 to canvas.width
        invariant canvas.Valid()
        invariant canvas.cells == before[cy := ClearSpan(before[cy], 0, cx)]
      {
        canvas.SetCell(cx, cy, None);
      }
      ClearSpanBlanks(before[cy], canvas.width);
    }

    /** Rows changed by a compose have to be rendered again. */
    method NoteDirty(damage: seq<bool>)
      requires |rowDirty| == |rowStrings|
      modifies this`rowDirty, this`rowStrings
      ensures |rowDirty| == |rowStrings| == |damage|
      ensures |old(rowDirty)| != |damage| ==> forall y :: 0 <= y < |damage| ==> rowDirty[y]
      ensures |old(rowDirty)| == |damage| ==>
                rowStrings == old(rowStrings) &&
                forall y :: 0 <= y < |damage| ==> rowDirty[y] == (old(rowDirty[y]) || damage[y])
    {
      if |rowDirty| != |damage| {
        rowDirty := seq(|damage|, _ => true);
        rowStrings := seq(|damage|, _ => "");
      }
      ghost var was := rowDirty;
      for y := 0 to |damage|
        modifies this`rowDirty
        invariant |rowDirty| == |damage|
        invariant forall r :: 0 <= r < |damage| ==> rowDirty[r] == (was[r] || (r < y && damage[r]))
      {
        rowDirty := rowDirty[y := rowDirty[y] || damage[y]];
      }
    }

    /** The text cache after a compose: unchanged rows keep theirs. */
    method KeepCache(damage: seq<bool>, redraw: bool, ghost cells: Grid)
      requires Cached() && |damage| == |cells|
      requires Unmoved(damage, redraw, painted, cells)
      modifies this`rowDirty, this`rowStrings
      ensures RowsCached(rowDirty, rowStrings, frameString, cells, renderRow)
    {
      ghost var dirty, rows := rowDirty, rowStrings;
      NoteDirty(damage);
      StillCached(dirty, rows, frameString, painted, renderRow, damage, redraw, cells, rowDirty, rowStrings);
    }

    /** How every record stands before the layers of a new frame are matched. */
    ghost function ViewsNow(): (views: Views)
      reads this, last.records
      ensures forall lc :: lc in views ==> lc in last.records
      ensures forall lc :: lc in last.records ==> lc in views
    {
      map lc | lc in last.records :: View(Placed(lc.x, lc.y, lc.content), lc.order, lc.isNew, lc.gen)
    }

    /** Before a frame begins every record is as the last frame left it. */
    lemma {:induction false} NothingTaken(gen: nat)
      requires Valid() && composeGen < gen
      ensures Untaken(last, ViewsNow(), [], gen) && Mirror(ViewsNow())
    {
      forall lc | lc in ViewsNow()
        ensures Shows(lc, ViewsNow()[lc])
      {
        var k :| 0 <= k < |last.records| && last.records[k] == lc;
        assert Shows(last.records[k],
                     View(last.frame[k].p, last.orders[k], last.records[k].isNew, last.records[k].gen));
      }
      forall k | 0 <= k < |last.records|
        ensures ViewsNow()[last.records[k]].p == last.frame[k].p
        ensures ViewsNow()[last.records[k]].order == last.orders[k] && ViewsNow()[last.records[k]].gen != gen
      {
        assert Shows(last.records[k],
                     View(last.frame[k].p, last.orders[k], last.records[k].isNew, last.records[k].gen));
      }
    }

    lemma {:induction false} Begin(gen: nat, height: nat, redraw: bool) returns (w: Working)
      requires Valid() && composeGen < gen
      ensures w.list == [] && w.redraw == redraw && Mirror(w.views)
      ensures Tracks(w, picture, last, Tables(map[], map[], map[]), NoRows(height), redraw, -1, gen)
      ensures forall lc :: lc in w.views ==> lc in last.records
    {
      NothingTaken(gen);
      w := NoProgress(picture, last, ViewsNow(), NoRows(height), redraw, gen);
    }

    /** Matches a frame's layers against the last and marks the rows that differ. */
    method PlanFrame(sorted: seq<Layer>, gen: nat, height: nat, redraw: bool, ghost list: seq<Drawn>)
      returns (next: Tables, damage: seq<bool>, full: bool, ghost plan: Plan)
      requires Valid() && composeGen < gen && list == AsDrawn(sorted)
      modifies last.records
      ensures last == old(last) && |damage| == height && Mirror(plan.views)
      ensures plan.list == list && plan.redraw == redraw
      ensures forall lc :: lc in plan.views ==> lc in old(last).records || fresh(lc)
      ensures Tracks(plan, picture, old(last), next, damage, full, plan.lastOrder, gen)
    {
      hide Progress, Planned, TablesOf;
      var damage0;
      ghost var w := Begin(gen, height, redraw);
      next, damage0, full, w := MatchLayers(sorted, gen, height, redraw, list, w);
      damage, plan := FinishPlan(damage0, gen, w);
    }

    /** Marks the rows of the layers that are gone. */
    method FinishPlan(damage: seq<bool>, gen: nat, ghost w: Working)
      returns (damage': seq<bool>, ghost plan: Plan)
      requires Indexes(tables, last.frame, last.records) && IsLast(last)
      requires Mirror(w.views) && (forall c :: Drawable(picture(c)))
      requires Tracks(w, picture, last, w.next, damage, w.full, w.lastOrder, gen)
      ensures |damage'| == |damage| && plan == w.(damage := damage')
    {
      IndexedByLayer(tables, last.frame, last.records);
      damage' := MarkGone(damage, tables.byLayer.Values, gen, w.views);
      VacatedIsGone(picture, last, w.views, w.m.from, gen, tables.byLayer.Values, damage, damage');
      plan := PlanDone(w, damage');
    }

    /** Draws the planned frame on exactly the rows it redraws. */
    method Repaint(sorted: seq<Layer>, next: Tables, canvas: Canvas, damage: seq<bool>, full: bool,
                   ghost plan: Plan, ghost rows: seq<bool>)
      returns (damage': seq<bool>)
      requires canvas.Valid() && |damage| == canvas.height
      requires forall c :: Drawable(picture(c))
      requires Layers(plan.list) == sorted && Coherent(plan.list) && Mirror(plan.views)
      requires Tracks(plan, picture, last, next, damage, full, plan.lastOrder, plan.gen)
      requires rows == Widened(damage, full)
      modifies canvas`cells, plan.m.recs
      ensures canvas.Valid() && Mirror(plan.views) && damage' == rows
      ensures canvas.cells == Paint(picture, plan.list, old(canvas.cells), rows, canvas.width)
    {
      hide Planned, Paint, Widened;
      ghost var start := canvas.cells;
      damage' := ClearDamaged(canvas, damage, full);
      ghost var cleared := canvas.cells;
      WidenedMore(damage, full);
      ReadyAll(plan, damage');
      Redraw(sorted, next.byLayer, canvas, damage', plan.views, plan.m.recs, plan.list);
      DrawnFull(picture, start, cleared, canvas.cells, plan.list, damage', canvas.width, canvas.height);
    }

    /** The records given to a frame's layers are the next frame's last ones. */
    lemma {:induction false} SettledAfter(w: Plan)
      requires Mirror(w.views) && OwnContent(w.list)
      ensures Settled(Last(w.m.now, w.m.orders, w.m.recs), w.gen) && IsLast(Last(w.m.now, w.m.orders, w.m.recs))
      ensures Indexes(w.next, w.m.now, w.m.recs) && w.m.now == FirstOnly(w.list)
      ensures forall lc :: lc in w.m.recs ==> lc in w.views
    {
      FirstOnlyOwn(w.list);
      OrdersRise(w.list);
      if w.list != [] {
        FirstOnlyFinds(w.list, w.list[0].layer);
      }
      forall k | 0 <= k < |w.m.recs|
        ensures Shows(w.m.recs[k], View(w.m.now[k].p, w.m.orders[k], w.m.recs[k].isNew, w.m.recs[k].gen))
        ensures w.m.recs[k].gen <= w.gen
      {
        assert Shows(w.m.recs[k], w.views[w.m.recs[k]]);
      }
    }

    lemma {:induction false} RecordsMirrored(w: Plan)
      ensures forall k :: 0 <= k < |w.m.recs| ==> w.m.recs[k] in w.views
    {
    }

    /** Plans and draws one frame, leaving each layer's record as drawn. */
    method PaintFrame(canvas: Canvas, sorted: seq<Layer>, ghost list: seq<Drawn>, redraw: bool, gen: nat,
                      ghost rows: seq<bool>)
      returns (next: Tables, damage: seq<bool>, ghost now: Last)
      requires Valid() && canvas.Valid() && composeGen < gen
      requires Layers(list) == sorted && list == AsDrawn(sorted) && Coherent(list) && OwnContent(list)
      requires rows == RedrawnRows(picture, last.frame, list, canvas.height, redraw)
      modifies last.records, canvas`cells
      ensures canvas.Valid() && |damage| == canvas.height
      ensures now.frame == FirstOnly(list) && Indexes(next, now.frame, now.records)
      ensures Settled(now, gen) && IsLast(now)
      ensures forall lc :: lc in now.records ==> lc in old(last.records) || fresh(lc)
      ensures damage == rows && canvas.cells == Paint(picture, list, old(canvas.cells), rows, canvas.width)
    {
      hide Planned, Paint, Widened, RedrawnRows, TablesOf, FirstOnly;
      var full;
      ghost var plan;
      ghost var was := last;
      next, damage, full, plan := PlanFrame(sorted, gen, canvas.height, redraw, list);
      PlanDraws(plan);
      RecordsMirrored(plan);
      damage := Repaint(sorted, next, canvas, damage, full, plan, rows);
      SettledAfter(plan);
      now := Last(plan.m.now, plan.m.orders, plan.m.recs);
    }

    /**
      Draws the layers on the canvas in z order. Exactly the rows that the frame redraws are changed,
      to what clearing the canvas and drawing every layer leaves there. So a row shows the frame
      exactly if it is redrawn, or was left showing the last frame with each layer taken once.
     */
    method ComposeLayers(canvas: Canvas, layers: seq<Layer>)
      requires Valid() && canvas.Valid()
      requires SameCanvas(canvas) ==> canvas.cells == painted
      modifies this, last.records, canvas`cells
      ensures Valid() && canvas.Valid() && SameCanvas(canvas) && UsesCache(canvas) && canvas.cells == painted
      ensures forall lc :: lc in last.records ==> lc in old(last.records) || fresh(lc)
      ensures frameString == old(frameString) && last.frame == FirstOnly(old(InZOrder(layers)))
      ensures BottomUp(old(AsDrawn(layers)), old(InZOrder(layers)))
      ensures var list, rows := old(InZOrder(layers)), old(RowsToRedraw(canvas, layers));
              && painted == Paint(picture, list, old(painted), rows, canvas.width)
              && RightRows(picture, old(last.frame), list, old(painted), painted, rows, canvas.width)
    {
      hide Paint, RedrawnRows, TablesOf, FirstOnly, RightRows, RowsCached, BottomUp;
      ghost var list, rows := InZOrder(layers), RowsToRedraw(canvas, layers);
      var sorted := Layers(InZOrder(layers));
      SortedNow(layers);
      SortIsBottomUp(AsDrawn(layers));
      PaintIsRight(picture, last.frame, list, painted, canvas.width, canvas.height, !SameCanvas(canvas));
      ComposeSorted(canvas, sorted, list, rows);
    }

    /** The same for a list that is in z order. */
    method ComposeSorted(canvas: Canvas, sorted: seq<Layer>, ghost list: seq<Drawn>, ghost rows: seq<bool>)
      requires Valid() && canvas.Valid()
      requires Layers(list) == sorted && list == AsDrawn(sorted) && Coherent(list) && OwnContent(list)
      requires rows == RedrawnRows(picture, last.frame, list, canvas.height, !SameCanvas(canvas))
      requires SameCanvas(canvas) ==> canvas.cells == painted
      modifies this, last.records, canvas`cells
      ensures Valid() && canvas.Valid() && SameCanvas(canvas) && UsesCache(canvas) && canvas.cells == painted
      ensures forall lc :: lc in last.records ==> lc in old(last.records) || fresh(lc)
      ensures frameString == old(frameString) && last.frame == FirstOnly(list)
      ensures painted == Paint(picture, list, old(painted), rows, canvas.width)
    {
      hide Paint, RedrawnRows, TablesOf, FirstOnly, Unmoved, RowsCached;
      var redraw, gen := !SameCanvas(canvas), composeGen + 1;
      PaintMoves(picture, list, last.frame, canvas.cells, painted, redraw, rows, canvas.width);
      var next, damage;
      ghost var now;
      next, damage, now := PaintFrame(canvas, sorted, list, redraw, gen, rows);
      FinishFrame(canvas, damage, redraw, gen, next, now);
    }

    /** The rows that composing these layers on the canvas would redraw. */
    ghost function RowsToRedraw(canvas: Canvas, layers: seq<Layer>): (rows: seq<bool>)
      reads this, canvas, layers
      ensures |rows| == canvas.height
    {
      RedrawnRows(picture, last.frame, InZOrder(layers), canvas.height, !SameCanvas(canvas))
    }

    /** What was drawn this frame is what the next one is compared with. */
    method FinishFrame(canvas: Canvas, damage: seq<bool>, redraw: bool, gen: nat, next: Tables, ghost now: Last)
      requires canvas.Valid() && |damage| == canvas.height
      requires (forall c :: Drawable(picture(c))) && Cached()
      requires redraw == !SameCanvas(canvas)
      requires Unmoved(damage, redraw, painted, canvas.cells)
      requires Indexes(next, now.frame, now.records) && IsLast(now) && Settled(now, gen)
      modifies this
      ensures Valid() && SameCanvas(canvas) && canvas.cells == painted && last == now
      ensures frameString == old(frameString)
    {
      KeepCache(damage, redraw, canvas.cells);
      Remember(canvas, gen, next, now);
    }

    method Remember(canvas: Canvas, gen: nat, next: Tables, ghost now: Last)
      requires canvas.Valid() && (forall c :: Drawable(picture(c))) && |rowDirty| == canvas.height
      requires RowsCached(rowDirty, rowStrings, frameString, canvas.cells, renderRow)
      requires Indexes(next, now.frame, now.records) && IsLast(now) && Settled(now, gen)
      modifies this`tables, this`composeGen, this`composedCanvas, this`composedBounds, this`last, this`painted
      ensures Valid() && SameCanvas(canvas) && canvas.cells == painted && last == now
    {
      Store(canvas, gen, next, now);
    }

    method Store(canvas: Canvas, gen: nat, next: Tables, ghost now: Last)
      modifies this`tables, this`composeGen, this`composedCanvas, this`composedBounds, this`last, this`painted
      ensures tables == next && composeGen == gen && last == now && painted == canvas.cells
      ensures composedCanvas == canvas && composedBounds == (canvas.width, canvas.height)
    {
      tables, composeGen := next, gen;
      composedCanvas, composedBounds := canvas, (canvas.width, canvas.height);
      last, painted := now, canvas.cells;
    }

    /** The cached text stands for this canvas. */
    predicate UsesCache(canvas: Canvas)
      reads this, canvas
    {
      canvas == composedCanvas && |rowDirty| == canvas.height
    }

    /**
      The canvas as text, with dirty rows rendered anew. It is what rendering every row
      afresh gives, exactly unless the canvas has no rows and an earlier frame's text is cached.
     */
    method RenderComposed(canvas: Canvas) returns (text: string)
      requires Valid() && canvas.Valid()
      requires UsesCache(canvas) ==> canvas.cells == painted
      modifies this`rowDirty, this`rowStrings, this`frameString
      ensures Valid()
      ensures text == Rendered(canvas.cells, renderRow) <==>
              !old(UsesCache(canvas)) || canvas.height > 0 || old(frameString) == ""
      ensures canvas.height > 0 && (forall y :: 0 <= y < canvas.height ==> '\n' !in renderRow(canvas.cells[y])) ==>
                |Lines(text)| == canvas.height &&
                forall y :: 0 <= y < canvas.height ==> Lines(text)[y] == renderRow(canvas.cells[y])
      ensures canvas.height == 0 && old(UsesCache(canvas)) ==> text == old(frameString)
      ensures frameString == if old(UsesCache(canvas)) then text else old(frameString)
    {
      if canvas.height > 0 && forall y :: 0 <= y < canvas.height ==> '\n' !in renderRow(canvas.cells[y]) {
        LineByLine(canvas.cells, renderRow);
      }
      if canvas != composedCanvas || |rowDirty| != canvas.height {
        text := Rendered(canvas.cells, renderRow);
        return;
      }
      RefreshRows(canvas.cells);
      text := frameString;
    }

    /** Renders the dirty rows, and joins all rows if any was dirty or nothing was joined yet. */
    method RefreshRows(cells: Grid)
      requires RowsCached(rowDirty, rowStrings, frameString, cells, renderRow)
      modifies this`rowDirty, this`rowStrings, this`frameString
      ensures RowsCached(rowDirty, rowStrings, frameString, cells, renderRow)
      ensures |cells| > 0 ==> frameString == Rendered(cells, renderRow)
      ensures |cells| == 0 ==> frameString == old(frameString)
    {
      var changed := frameString == "" && |rowDirty| > 0;
      for y := 0 to |rowDirty|
        invariant |rowDirty| == |rowStrings| == |cells| && frameString == old(frameString)
        invariant forall r :: 0 <= r < |cells| && (r < y || !rowDirty[r]) ==> rowStrings[r] == renderRow(cells[r])
        invariant forall r :: 0 <= r < y ==> !rowDirty[r]
        invariant forall r :: y <= r < |cells| ==> rowDirty[r] == old(rowDirty)[r]
        invariant !changed ==> rowStrings == old(rowStrings) && forall r :: 0 <= r < y ==> !old(rowDirty)[r]
        invariant |cells| > 0 && frameString == "" ==> changed
        invariant |cells| == 0 ==> !changed
      {
        if rowDirty[y] {
          rowStrings := rowStrings[y := renderRow(cells[y])];
          rowDirty := rowDirty[y := false];
          changed := true;
        }
      }
      assert rowStrings == seq(|cells|, y requires 0 <= y < |cells| => renderRow(cells[y]));
      if changed {
        frameString := Join(rowStrings);
      }
    }
  }
}
