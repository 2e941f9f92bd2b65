/**
  The dock's workspace strip: which pills it shows in the room it has, and how far it is scrolled.
 */
module DockStrip {
  import opened Common

  const GAP := 1
  const ARROW := 2

  /** A workspace's pill, or the "+" that makes a new workspace. Every pill has a width. */
  datatype Tab = Tab(workspace: int, active: bool, add: bool, width: int)

  predicate Sized(tabs: seq<Tab>) { forall i :: 0 <= i < |tabs| ==> tabs[i].width > 0 }

  datatype Strip = Strip(pills: seq<Tab>, add: Option<Tab>, moreLeft: bool, moreRight: bool, scrolls: bool, inner: int,
                         width: int)

  // ---- measuring runs of pills -----------------------------------------------------------------

  /** The columns a run of pills takes, with the gaps between them. */
  function Span(tabs: seq<Tab>): int {
    if tabs == [] then 0
    else if |tabs| == 1 then tabs[0].width
    else Span(tabs[..|tabs| - 1]) + GAP + tabs[|tabs| - 1].width
  }

  method PillsSpan(tabs: seq<Tab>, from: nat, to: nat) returns (w: int)
    requires from <= to <= |tabs|
    ensures w == Span(tabs[from..to])
  {
    w := 0;
    for i := from to to
      invariant w == Span(tabs[from..i])
    {
      if i > from {
        w := w + GAP;
      }
      w := w + tabs[i].width;
      assert tabs[from..i + 1][..i - from] == tabs[from..i];
    }
  }

  lemma {:induction false} LongerIsWider(tabs: seq<Tab>, from: nat, to: nat, more: nat)
    requires Sized(tabs) && from <= to <= more <= |tabs|
    ensures 0 <= Span(tabs[from..to]) <= Span(tabs[from..more])
    ensures from < to < more ==> Span(tabs[from..to]) < Span(tabs[from..more])
    ensures from < to ==> Span(tabs[from..to]) > 0
    decreases more
  {
    if more > from {
      SpanStep(tabs, from, more);
      LongerIsWider(tabs, from, if to == more then more - 1 else to, more - 1);
    }
  }

  lemma {:induction false} SpanStep(tabs: seq<Tab>, from: nat, to: nat)
    requires from < to <= |tabs|
    ensures Span(tabs[from..to]) ==
              if to == from + 1 then tabs[from].width else Span(tabs[from..to - 1]) + GAP + tabs[to - 1].width
  {
    assert tabs[from..to][..to - 1 - from] == tabs[from..to - 1];
  }

  /** How many whole pills from first fit. */
  predicate Fits(tabs: seq<Tab>, first: nat, width: int, n: nat) {
    && first <= |tabs| && first + n <= |tabs|
    && (n > 0 ==> Span(tabs[first..first + n]) <= width)
    && (first + n < |tabs| ==> Span(tabs[first..first + n + 1]) > width)
  }

  method PillsFitting(tabs: seq<Tab>, first: nat, width: int) returns (n: nat)
    requires Sized(tabs) && first <= |tabs|
    ensures Fits(tabs, first, width, n)
  {
    n := 0;
    for i := first to |tabs|
      invariant n == i - first && (n > 0 ==> Span(tabs[first..first + n]) <= width)
    {
      var w := PillsSpan(tabs, first, i + 1);
      if w > width {
        break;
      }
      n := n + 1;
    }
  }

  /** There is only one such number, and the pills from first that are seen are those whose run up to them fits. */
  lemma {:induction false} SeenIfRunFits(tabs: seq<Tab>, first: nat, width: int, n: nat, k: nat)
    requires Sized(tabs) && Fits(tabs, first, width, n) && first <= k < |tabs|
    ensures k < first + n <==> Span(tabs[first..k + 1]) <= width
  {
    if k < first + n {
      LongerIsWider(tabs, first, k + 1, first + n);
    } else {
      LongerIsWider(tabs, first, first + n + 1, k + 1);
    }
  }

  lemma {:induction false} FitsOnce(tabs: seq<Tab>, first: nat, width: int, n: nat, m: nat)
    requires Sized(tabs) && Fits(tabs, first, width, n) && Fits(tabs, first, width, m)
    ensures n == m
  {
    if n < m {
      SeenIfRunFits(tabs, first, width, m, first + n);
    } else if m < n {
      SeenIfRunFits(tabs, first, width, n, first + m);
    }
  }

  /** The furthest offset: the first whose run reaches the last pill, or else the last pill's own. */
  predicate IsLastOffset(pills: seq<Tab>, inner: int, last: nat) {
    && (pills != [] ==> last < |pills|) && (pills == [] ==> last == 0)
    && (forall i: nat :: i < last ==> Span(pills[i..]) > inner)
    && (last < |pills| - 1 ==> Span(pills[last..]) <= inner)
  }

  method LastScrollOffset(pills: seq<Tab>, inner: int) returns (last: nat)
    ensures IsLastOffset(pills, inner, last)
  {
    for i := 0 to |pills|
      invariant forall k: nat :: k < i ==> Span(pills[k..]) > inner
    {
      var w := PillsSpan(pills, i, |pills|);
      assert pills[i..|pills|] == pills[i..];
      if w <= inner {
        return i;
      }
    }
    return Max(|pills| - 1, 0);
  }

  /** The pill is in the run that fits from `first`. */
  predicate Seen(pills: seq<Tab>, first: int, inner: int, k: nat) {
    0 <= first <= k < |pills| && Span(pills[first..k + 1]) <= inner
  }

  /** The least move from first that brings pill `active` in sight, or else puts it first. */
  predicate Shows(pills: seq<Tab>, active: nat, first: nat, inner: int, r: nat) {
    if active < first then r == active
    else
      && first <= r <= active
      && (r < active ==> Seen(pills, r, inner, active))
      && (forall k: nat :: first <= k < r ==> !Seen(pills, k, inner, active))
  }

  method ScrollToShow(pills: seq<Tab>, active: nat, first: nat, inner: int) returns (r: nat)
    requires Sized(pills) && active < |pills|
    ensures Shows(pills, active, first, inner, r)
  {
    if active < first {
      return active;
    }
    r := first;
    while r < active
      invariant first <= r <= active
      invariant forall k: nat :: first <= k < r ==> !Seen(pills, k, inner, active)
    {
      var n := PillsFitting(pills, r, inner);
      SeenIfRunFits(pills, r, inner, n, active);
      if r + n > active {
        return;
      }
      r := r + 1;
    }
  }

  /** The first active pill from i on, or the first pill of all if there is none. */
  function ActiveFrom(pills: seq<Tab>, i: nat): (k: nat)
    requires i <= |pills|
    ensures pills != [] ==> k < |pills|
    decreases |pills| - i
  {
    if i == |pills| then 0 else if pills[i].active then i else ActiveFrom(pills, i + 1)
  }

  lemma {:induction false} ActiveFromIsFirst(pills: seq<Tab>, i: nat)
    requires i <= |pills|
    ensures var k := ActiveFrom(pills, i);
            if exists j :: i <= j < |pills| && pills[j].active
            then i <= k < |pills| && pills[k].active && forall j :: i <= j < k ==> !pills[j].active
            else k == 0
    decreases |pills| - i
  {
    if i < |pills| && !pills[i].active {
      ActiveFromIsFirst(pills, i + 1);
    }
  }

  method ActivePillIndex(pills: seq<Tab>) returns (k: nat)
    ensures k == ActiveFrom(pills, 0)
    ensures (exists j :: 0 <= j < |pills| && pills[j].active) ==>
              k < |pills| && pills[k].active && forall j :: 0 <= j < k ==> !pills[j].active
  {
    for i := 0 to |pills|
      invariant ActiveFrom(pills, 0) == ActiveFrom(pills, i)
    {
      if pills[i].active {
        ActiveFromIsFirst(pills, 0);
        return i;
      }
    }
    ActiveFromIsFirst(pills, 0);
    return 0;
  }

  // ---- the plan --------------------------------------------------------------------------------

  /** What all tabs would take, with the leading column. */
  function Wanted(tabs: seq<Tab>): int { if tabs == [] then 0 else 1 + Span(tabs) }

  /** At most two thirds of the bar, or else half of it. */
  function Budget(tabs: seq<Tab>, room: nat, barWidth: nat): int {
    var budget := Min(Wanted(tabs), room);
    if budget > barWidth * 2 / 3 then Min(barWidth / 2, room) else budget
  }

  function Pills(tabs: seq<Tab>): seq<Tab> {
    if tabs != [] && tabs[|tabs| - 1].add then tabs[..|tabs| - 1] else tabs
  }

  function AddTab(tabs: seq<Tab>): Option<Tab> {
    if tabs != [] && tabs[|tabs| - 1].add then Some(tabs[|tabs| - 1]) else None
  }

  function AddSpan(tabs: seq<Tab>): int {
    if AddTab(tabs).Some? then GAP + AddTab(tabs).value.width else 0
  }

  /** Only the "+", if there is room for it. */
  function AddOnly(tabs: seq<Tab>, budget: int, inner: int): Strip {
    var add := AddTab(tabs);
    if add.None? then Strip([], None, false, false, false, inner, 0)
    else if budget >= 1 + add.value.width then Strip([], add, false, false, false, inner, 1 + add.value.width)
    else Strip([], None, false, false, false, inner, 0)
  }

  datatype Scroll = Scroll(first: int, workspace: int, at: int)

  /** After a click on an arrow: the left end is known here, the right one only to the next plan. */
  function Clicked(scroll: Scroll, delta: int): Scroll {
    scroll.(first := Max(scroll.first + delta, 0))
  }

  /** What one plan makes of the scroll state, and the strip it draws. */
  ghost predicate Planned(before: Scroll, current: int, tabs: seq<Tab>, room: nat, barWidth: nat, after: Scroll,
                          s: Strip)
  {
    var budget := Budget(tabs, room, barWidth);
    var pills, avail := Pills(tabs), budget - 1 - AddSpan(tabs);
    var inner := avail - 2 * ARROW;
    if tabs == [] then after == before && s == Strip([], None, false, false, false, 0, 0)
    else if avail <= 0 || pills == [] then after == before && s == AddOnly(tabs, budget, 0)
    else if Span(pills) <= avail then
      after == Scroll(0, current, 0) &&
      s == Strip(pills, AddTab(tabs), false, false, false, 0, 1 + Span(pills) + AddSpan(tabs))
    else if inner < 1 then after == before && s == AddOnly(tabs, budget, 0)
    else
      && after.workspace == current && after.at == inner && 0 <= after.first
      && Settles(before, current, pills, inner, after.first)
      && DrawnFrom(pills, tabs, budget, inner, after.first, s)
  }

  /** The offset settled on: pulled to the current workspace if it or the room has changed, and kept in range. */
  ghost predicate Settles(before: Scroll, current: int, pills: seq<Tab>, inner: int, first: int) {
    exists pulled: int, last: nat :: SettlesBy(before, current, pills, inner, pulled, last, first)
  }

  predicate SettlesBy(before: Scroll, current: int, pills: seq<Tab>, inner: int, pulled: int, last: nat, first: int) {
    && IsLastOffset(pills, inner, last) && first == Min(Max(pulled, 0), last)
    && (if current != before.workspace || inner != before.at
        then pulled >= 0 && before.first >= 0 && Shows(pills, ActiveFrom(pills, 0), before.first, inner, pulled)
        else pulled == before.first)
  }

  ghost predicate DrawnFrom(pills: seq<Tab>, tabs: seq<Tab>, budget: int, inner: int, first: int, s: Strip) {
    exists n: nat :: 0 <= first && Fits(pills, first, inner, n) &&
      s == if n == 0 then AddOnly(tabs, budget, inner)
           else Strip(pills[first..first + n], AddTab(tabs), first > 0, first + n < |pills|, true, inner,
                      1 + 2 * ARROW + inner + AddSpan(tabs))
  }

  class Dock {
    var scroll: Scroll
    var currentWorkspace: int

    /** The offset is set by a plan, or stepped by an arrow no further than the left end. */
    predicate Valid()
      reads this
    {
      scroll.first >= 0
    }

    method PlanDockWorkspaceStrip(tabs: seq<Tab>, room: nat, barWidth: nat) returns (s: Strip)
      requires Valid() && Sized(tabs)
      modifies this`scroll
      ensures Valid() && Planned(old(scroll), currentWorkspace, tabs, room, barWidth, scroll, s)
    {
      if |tabs| == 0 {
        return Strip([], None, false, false, false, 0, 0);
      }
      var all := PillsSpan(tabs, 0, |tabs|);
      assert tabs[0..|tabs|] == tabs;
      var budget := Min(1 + all, room);
      if budget > barWidth * 2 / 3 {
        budget := Min(barWidth / 2, room);
      }
      assert budget == Budget(tabs, room, barWidth);
      var pills := Pills(tabs);
      var avail := budget - 1 - AddSpan(tabs);
      if avail <= 0 || |pills| == 0 {
        return AddOnly(tabs, budget, 0);
      }
      var natural := PillsSpan(pills, 0, |pills|);
      assert pills[0..|pills|] == pills;
      if natural <= avail {
        scroll := Scroll(0, currentWorkspace, 0);
        return Strip(pills, AddTab(tabs), false, false, false, 0, 1 + natural + AddSpan(tabs));
      }
      var inner := avail - 2 * ARROW;
      if inner < 1 {
        return AddOnly(tabs, budget, 0);
      }
      Settle(pills, inner);
      s := DrawRun(pills, tabs, budget, inner);
    }

    method Settle(pills: seq<Tab>, inner: int)
      requires Valid() && Sized(pills) && pills != []
      modifies this`scroll
      ensures Valid() && scroll.workspace == currentWorkspace && scroll.at == inner && scroll.first < |pills|
      ensures Settles(old(scroll), currentWorkspace, pills, inner, scroll.first)
    {
      var first := scroll.first;
      if currentWorkspace != scroll.workspace || inner != scroll.at {
        scroll := scroll.(workspace := currentWorkspace, at := inner);
        var active := ActivePillIndex(pills);
        first := ScrollToShow(pills, active, first, inner);
      }
      var last := LastScrollOffset(pills, inner);
      ghost var before := old(scroll);
      scroll := scroll.(first := Min(Max(first, 0), last));
      assert SettlesBy(before, currentWorkspace, pills, inner, first, last, scroll.first);
    }

    method DrawRun(pills: seq<Tab>, tabs: seq<Tab>, budget: int, inner: int) returns (s: Strip)
      requires Valid() && Sized(pills) && scroll.first < |pills|
      ensures DrawnFrom(pills, tabs, budget, inner, scroll.first, s)
    {
      var first := scroll.first;
      var count := PillsFitting(pills, first, inner);
      if count == 0 {
        return AddOnly(tabs, budget, inner);
      }
      return Strip(pills[first..first + count], AddTab(tabs), first > 0, first + count < |pills|, true, inner,
                   1 + 2 * ARROW + inner + AddSpan(tabs));
    }

    /** A click on an arrow. */
    method ScrollBy(delta: int)
      requires Valid()
      modifies this`scroll
      ensures Valid() && scroll == Clicked(old(scroll), delta)
    {
      scroll := scroll.(first := Max(scroll.first + delta, 0));
    }
  }

  // ---- what every plan keeps -------------------------------------------------------------------

  lemma {:induction false} PillsSized(tabs: seq<Tab>)
    requires Sized(tabs)
    ensures Sized(Pills(tabs)) && (AddTab(tabs).Some? ==> AddTab(tabs).value.width > 0)
  {
  }

  lemma {:induction false} DrawnStaysInside(pills: seq<Tab>, tabs: seq<Tab>, budget: int, inner: int, first: int,
                                            s: Strip)
    requires Sized(tabs) && pills == Pills(tabs) && DrawnFrom(pills, tabs, budget, inner, first, s)
    ensures s.scrolls ==>
              && s.pills != [] && Span(s.pills) <= inner && s.inner == inner && s.add == AddTab(tabs)
              && 0 <= first && first + |s.pills| <= |pills| && s.pills == pills[first..first + |s.pills|]
              && (s.moreLeft <==> first > 0) && (s.moreRight <==> first + |s.pills| < |pills|)
              && s.width == 1 + 2 * ARROW + inner + AddSpan(tabs)
    ensures !s.scrolls ==> s == AddOnly(tabs, budget, inner)
  {
  }

  /** The strip never claims more than its budget, let alone the room, and its pills fit between the arrows. */
  lemma {:induction false} StaysInRoom(before: Scroll, current: int, tabs: seq<Tab>, room: nat, barWidth: nat,
                                       after: Scroll, s: Strip)
    requires Sized(tabs) && Planned(before, current, tabs, room, barWidth, after, s)
    ensures 0 <= s.width <= room && s.width <= Max(Budget(tabs, room, barWidth), 0)
    ensures s.pills != [] ==>
              1 + (if s.scrolls then 2 * ARROW + s.inner else Span(s.pills)) + AddSpan(tabs) == s.width
    ensures s.scrolls ==>
              && s.pills != [] && 1 <= s.inner && Span(s.pills) <= s.inner
              && 0 <= after.first && after.first + |s.pills| <= |Pills(tabs)|
              && s.pills == Pills(tabs)[after.first..after.first + |s.pills|]
              && (s.moreLeft <==> after.first > 0) && (s.moreRight <==> after.first + |s.pills| < |Pills(tabs)|)
    ensures !s.scrolls ==> s.pills == [] || s.pills == Pills(tabs)
  {
    hide DrawnFrom, Settles;
    PillsSized(tabs);
    var budget, pills := Budget(tabs, room, barWidth), Pills(tabs);
    var inner := budget - 1 - AddSpan(tabs) - 2 * ARROW;
    assert pills[0..|pills|] == pills;
    LongerIsWider(pills, 0, 0, |pills|);
    if tabs != [] && pills != [] && Span(pills) > budget - 1 - AddSpan(tabs) && inner >= 1 {
      DrawnStaysInside(pills, tabs, budget, inner, after.first, s);
    }
  }

  lemma {:induction false} LastOffsetOnce(pills: seq<Tab>, inner: int, a: nat, b: nat)
    requires IsLastOffset(pills, inner, a) && IsLastOffset(pills, inner, b)
    ensures a == b
  {
  }

  /** From the last offset on, every pill to the end is in sight. */
  lemma {:induction false} TailSeen(pills: seq<Tab>, inner: int, last: nat, k: nat)
    requires Sized(pills) && IsLastOffset(pills, inner, last) && last <= k < |pills| && last < |pills| - 1
    ensures Seen(pills, last, inner, k)
  {
    LongerIsWider(pills, last, k + 1, |pills|);
    assert pills[last..|pills|] == pills[last..];
  }

  /** Keeping the offset in range hides nothing that was pulled into sight. */
  lemma {:induction false} ClampKeepsInSight(pills: seq<Tab>, inner: int, pulled: nat, last: nat, active: nat)
    requires Sized(pills) && active < |pills| && IsLastOffset(pills, inner, last) && pulled <= active
    requires pills[active].width <= inner ==> Seen(pills, pulled, inner, active)
    ensures pills[active].width <= inner ==> Seen(pills, Min(pulled, last), inner, active)
  {
    if last < pulled {
      TailSeen(pills, inner, last, active);
    }
  }

  /** A pill pulled to is in sight if it fits by itself. */
  lemma {:induction false} PulledInSight(pills: seq<Tab>, inner: int, before: nat, pulled: nat, active: nat)
    requires Sized(pills) && active < |pills| && Shows(pills, active, before, inner, pulled)
    ensures pulled <= active && (pills[active].width <= inner ==> Seen(pills, pulled, inner, active))
  {
    assert pills[active..active + 1] == [pills[active]];
  }

  /**
    After a switch of workspace, or a change of the room for pills, the current pill is in sight
    exactly when it fits by itself.
   */
  lemma {:induction false} CurrentPillInSight(before: Scroll, current: int, pills: seq<Tab>, inner: int, first: int)
    requires Sized(pills) && pills != [] && Settles(before, current, pills, inner, first)
    requires current != before.workspace || inner != before.at
    ensures var active := ActiveFrom(pills, 0);
            Seen(pills, first, inner, active) <==> pills[active].width <= inner
  {
    var active := ActiveFrom(pills, 0);
    var pulled: int, last: nat :| SettlesBy(before, current, pills, inner, pulled, last, first);
    PulledInSight(pills, inner, before.first, pulled, active);
    ClampKeepsInSight(pills, inner, pulled, last, active);
    AloneIsNarrower(pills, first, active);
    assert first == Min(pulled, last);
  }

  /** A pill is no wider than a run that ends with it. */
  lemma {:induction false} AloneIsNarrower(pills: seq<Tab>, first: int, k: nat)
    requires Sized(pills) && k < |pills|
    ensures 0 <= first <= k ==> pills[k].width <= Span(pills[first..k + 1])
  {
    if 0 <= first <= k {
      var run := pills[first..k + 1];
      assert run[|run| - 1] == pills[k] && run[..|run| - 1] == pills[first..k];
      LongerIsWider(pills, first, k, k);
    }
  }

  /** The pill in sight is drawn. */
  lemma {:induction false} SeenIsDrawn(pills: seq<Tab>, tabs: seq<Tab>, budget: int, inner: int, first: int, s: Strip,
                                       k: nat)
    requires Sized(pills) && DrawnFrom(pills, tabs, budget, inner, first, s) && first <= k < |pills|
    ensures Seen(pills, first, inner, k) <==> s.scrolls && k < first + |s.pills|
  {
    var n: nat :| Fits(pills, first, inner, n) &&
      s == if n == 0 then AddOnly(tabs, budget, inner)
           else Strip(pills[first..first + n], AddTab(tabs), first > 0, first + n < |pills|, true, inner,
                      1 + 2 * ARROW + inner + AddSpan(tabs));
    SeenIfRunFits(pills, first, inner, n, k);
  }

  /** The pills do not all fit, but there is room for one between the arrows. */
  predicate MustScroll(tabs: seq<Tab>, budget: int) {
    && Pills(tabs) != [] && Span(Pills(tabs)) > budget - 1 - AddSpan(tabs)
    && budget - 1 - AddSpan(tabs) - 2 * ARROW >= 1
  }

  // ---- the strip in columns --------------------------------------------------------------------

  /** The pills' own widths. */
  function Widths(tabs: seq<Tab>): int { if tabs == [] then 0 else tabs[0].width + Widths(tabs[1..]) }

  lemma {:induction false} WidthsMore(tabs: seq<Tab>, tab: Tab)
    ensures Widths(tabs + [tab]) == Widths(tabs) + tab.width
  {
    if tabs == [] {
      assert [] + [tab] == [tab];
    } else {
      assert (tabs + [tab])[1..] == tabs[1..] + [tab];
      WidthsMore(tabs[1..], tab);
    }
  }

  /** Side by side, with one column between any two. */
  lemma {:induction false} SpanIsWidths(tabs: seq<Tab>)
    requires tabs != []
    ensures Span(tabs) == Widths(tabs) + |tabs| - 1
  {
    var most := tabs[..|tabs| - 1];
    assert tabs == most + [tabs[|tabs| - 1]];
    WidthsMore(most, tabs[|tabs| - 1]);
    if most != [] {
      SpanIsWidths(most);
    }
  }

  /** All tabs side by side after a leading column. */
  function Natural(tabs: seq<Tab>): int { Widths(tabs) + |tabs| }

  /** The "+" that ends the tabs, if one does, and the column before it. */
  function Plus(tabs: seq<Tab>): int {
    if tabs != [] && tabs[|tabs| - 1].add then tabs[|tabs| - 1].width + 1 else 0
  }

  /** What there is for the tabs: the room, unless they would take more than two thirds of the bar; then half of it. */
  function Allowed(tabs: seq<Tab>, room: nat, barWidth: nat): int {
    if 3 * Min(Natural(tabs), room) <= 2 * barWidth then room else Min(barWidth / 2, room)
  }

  /** What is left for pills between two arrows of two columns each, after a leading column. */
  function Track(tabs: seq<Tab>, room: nat, barWidth: nat): int {
    Allowed(tabs, room, barWidth) - 5 - Plus(tabs)
  }

  predicate AllFit(tabs: seq<Tab>, room: nat, barWidth: nat) {
    Natural(tabs) <= room && 3 * Natural(tabs) <= 2 * barWidth
  }

  predicate IsPill(tabs: seq<Tab>, k: int) { 0 <= k < |tabs| && (k < |tabs| - 1 || !tabs[k].add) }

  lemma {:induction false} BudgetInColumns(tabs: seq<Tab>, room: nat, barWidth: nat)
    requires Sized(tabs) && tabs != []
    ensures AddSpan(tabs) == Plus(tabs) >= 0
    ensures Natural(tabs) == 1 + Span(tabs)
    ensures Pills(tabs) != [] ==> Span(tabs) == Span(Pills(tabs)) + Plus(tabs) && Span(Pills(tabs)) > 0
    ensures Pills(tabs) == [] ==> Natural(tabs) == Plus(tabs) == 1 + tabs[0].width && |tabs| == 1
    ensures Budget(tabs, room, barWidth) ==
            if AllFit(tabs, room, barWidth) then Natural(tabs) else Allowed(tabs, room, barWidth)
    ensures 0 <= Budget(tabs, room, barWidth) <= room && Budget(tabs, room, barWidth) <= Natural(tabs)
  {
    SpanIsWidths(tabs);
    PillsSized(tabs);
    assert tabs[0..|tabs|] == tabs;
    LongerIsWider(tabs, 0, 0, |tabs|);
    assert Pills(tabs) == tabs[0..|Pills(tabs)|];
    LongerIsWider(tabs, 0, |Pills(tabs)|, |tabs|);
  }

  /** What a strip is drawn as, in columns. */
  ghost predicate DrawnInColumns(tabs: seq<Tab>, room: nat, barWidth: nat, first: int, s: Strip)
    requires tabs != []
  {
    if AllFit(tabs, room, barWidth) then
      && s.pills + (if s.add.Some? then [s.add.value] else []) == tabs && (s.add.Some? <==> tabs[|tabs| - 1].add)
      && !s.scrolls && !s.moreLeft && !s.moreRight && s.width == Natural(tabs)
    else if s.scrolls then
      && s.inner == Track(tabs, room, barWidth) && s.width == Allowed(tabs, room, barWidth)
      && s.add == (if tabs[|tabs| - 1].add then Some(tabs[|tabs| - 1]) else None)
      && 0 <= first && s.pills != [] && first + |s.pills| <= |tabs| && s.pills == tabs[first..first + |s.pills|]
      && Widths(s.pills) + |s.pills| - 1 <= s.inner
      && (s.moreLeft <==> first > 0) && (s.moreRight <==> IsPill(tabs, first + |s.pills|))
      && (s.moreRight ==> Widths(s.pills) + |s.pills| + tabs[first + |s.pills|].width > s.inner)
    else
      && s.pills == [] && !s.moreLeft && !s.moreRight
      && (if Plus(tabs) > 0 && Plus(tabs) <= Allowed(tabs, room, barWidth)
          then s.add == Some(tabs[|tabs| - 1]) && s.width == Plus(tabs) else s.add == None && s.width == 0)
  }

  /**
    Every strip in columns. All tabs are drawn, side by side, exactly if they fit the room and take at
    most two thirds of the bar. Otherwise a strip that scrolls takes all it is allowed and draws as many
    pills as fit between its arrows, and one that does not draws no pill, only the "+" if it fits.
   */
  lemma {:induction false} StripInColumns(before: Scroll, current: int, tabs: seq<Tab>, room: nat, barWidth: nat,
                                          after: Scroll, s: Strip)
    requires Sized(tabs) && Planned(before, current, tabs, room, barWidth, after, s) && tabs != []
    ensures DrawnInColumns(tabs, room, barWidth, after.first, s)
  {
    BudgetInColumns(tabs, room, barWidth);
    AllInColumns(tabs, room, barWidth, after.first);
    EitherWay(before, current, tabs, room, barWidth, after, s);
    hide *;
    if MustScroll(tabs, Budget(tabs, room, barWidth)) {
      ScrollingInColumns(tabs, room, barWidth, after.first, s);
    }
  }

  lemma {:induction false} EitherWay(before: Scroll, current: int, tabs: seq<Tab>, room: nat, barWidth: nat,
                                     after: Scroll, s: Strip)
    requires Sized(tabs) && Planned(before, current, tabs, room, barWidth, after, s) && tabs != []
    ensures var pills, budget := Pills(tabs), Budget(tabs, room, barWidth);
            if MustScroll(tabs, budget) then DrawnFrom(pills, tabs, budget, Track(tabs, room, barWidth), after.first, s)
            else if AllFit(tabs, room, barWidth) && pills != [] then
              s == Strip(pills, AddTab(tabs), false, false, false, 0, 1 + Span(pills) + AddSpan(tabs))
            else s == AddOnly(tabs, budget, 0)
  {
    BudgetInColumns(tabs, room, barWidth);
    hide Span, Widths, Budget, Plus, Allowed, DrawnFrom;
  }

  lemma {:induction false} ScrollingInColumns(tabs: seq<Tab>, room: nat, barWidth: nat, first: int, s: Strip)
    requires Sized(tabs) && tabs != [] && MustScroll(tabs, Budget(tabs, room, barWidth))
    requires DrawnFrom(Pills(tabs), tabs, Budget(tabs, room, barWidth), Track(tabs, room, barWidth), first, s)
    ensures DrawnInColumns(tabs, room, barWidth, first, s)
  {
    BudgetInColumns(tabs, room, barWidth);
    AllInColumns(tabs, room, barWidth, first);
    RunInColumns(Pills(tabs), tabs, Budget(tabs, room, barWidth), Track(tabs, room, barWidth), first, s);
    hide Span, Widths, Budget, Plus, Allowed, DrawnFrom, AddOnly;
  }

  /** The strips that do not scroll. */
  lemma {:induction false} AllInColumns(tabs: seq<Tab>, room: nat, barWidth: nat, first: int)
    requires Sized(tabs) && tabs != []
    ensures AllFit(tabs, room, barWidth) && Pills(tabs) != [] ==>
              DrawnInColumns(tabs, room, barWidth, first,
                             Strip(Pills(tabs), AddTab(tabs), false, false, false, 0,
                                   1 + Span(Pills(tabs)) + AddSpan(tabs)))
    ensures forall inner :: !AllFit(tabs, room, barWidth) || Pills(tabs) == [] ==>
              DrawnInColumns(tabs, room, barWidth, first, AddOnly(tabs, Budget(tabs, room, barWidth), inner))
  {
    BudgetInColumns(tabs, room, barWidth);
    hide Span, Widths;
  }

  /** A strip that fits is back at its start, one that scrolls remembers for what; any other changes nothing. */
  lemma {:induction false} ScrollRemembered(before: Scroll, current: int, tabs: seq<Tab>, room: nat, barWidth: nat,
                                            after: Scroll, s: Strip)
    requires Sized(tabs) && Planned(before, current, tabs, room, barWidth, after, s) && tabs != []
    ensures if AllFit(tabs, room, barWidth) && IsPill(tabs, 0) then after == Scroll(0, current, 0)
            else if IsPill(tabs, 0) && Track(tabs, room, barWidth) >= 1 then
              after.workspace == current && after.at == Track(tabs, room, barWidth)
            else after == before
  {
    BudgetInColumns(tabs, room, barWidth);
    assert IsPill(tabs, 0) <==> Pills(tabs) != [];
    hide Span, Widths, Budget, Plus, Allowed, DrawnFrom, AddOnly, IsPill, Settles;
  }

  /** A run of pills between the arrows: as many as fit, so one more would not. */
  lemma {:induction false} RunInColumns(pills: seq<Tab>, tabs: seq<Tab>, budget: int, inner: int, first: int, s: Strip)
    requires Sized(tabs) && pills == Pills(tabs) && DrawnFrom(pills, tabs, budget, inner, first, s)
    ensures !s.scrolls ==> s == AddOnly(tabs, budget, inner)
    ensures s.scrolls ==>
              && s.inner == inner && s.width == 5 + inner + AddSpan(tabs) && s.add == AddTab(tabs) && s.pills != []
              && 0 <= first && first + |s.pills| <= |tabs| && s.pills == tabs[first..first + |s.pills|]
              && Widths(s.pills) + |s.pills| - 1 <= inner
              && (s.moreLeft <==> first > 0) && (s.moreRight <==> IsPill(tabs, first + |s.pills|))
              && (s.moreRight ==> Widths(s.pills) + |s.pills| + tabs[first + |s.pills|].width > inner)
  {
    PillsSized(tabs);
    DrawnStaysInside(pills, tabs, budget, inner, first, s);
    hide Span, AddOnly, Widths, AddSpan, AddTab;
    if s.scrolls {
      var n := RunDrawn(pills, tabs, budget, inner, first, s);
      hide *;
      RunStops(pills, first, inner, n);
      RunOfTabs(tabs, first, n);
    }
  }

  lemma {:induction false} RunStops(pills: seq<Tab>, first: nat, inner: int, n: nat)
    requires Fits(pills, first, inner, n) && n > 0
    ensures Widths(pills[first..first + n]) + n - 1 <= inner
    ensures first + n < |pills| ==> Widths(pills[first..first + n]) + n + pills[first + n].width > inner
  {
    SpanIsWidths(pills[first..first + n]);
    if first + n < |pills| {
      SpanStep(pills, first, first + n + 1);
    }
  }

  lemma {:induction false} RunOfTabs(tabs: seq<Tab>, first: nat, n: nat)
    requires first + n <= |Pills(tabs)|
    ensures first + n <= |tabs| && Pills(tabs)[first..first + n] == tabs[first..first + n]
    ensures first + n < |Pills(tabs)| <==> IsPill(tabs, first + n)
    ensures IsPill(tabs, first + n) ==> Pills(tabs)[first + n] == tabs[first + n]
  {
    PillsLead(tabs, first + n);
    assert Pills(tabs)[first..first + n] == tabs[first..first + n];
  }

  lemma {:induction false} PillsLead(tabs: seq<Tab>, k: nat)
    requires k <= |Pills(tabs)|
    ensures |Pills(tabs)| <= |tabs| && Pills(tabs) == tabs[..|Pills(tabs)|]
    ensures k < |Pills(tabs)| <==> IsPill(tabs, k)
  {
  }

  /** The current workspace's pill, or the first one if the current workspace has none. */
  predicate IsCurrent(tabs: seq<Tab>, k: int) {
    && IsPill(tabs, k)
    && if tabs[k].active then forall j :: 0 <= j < k ==> !tabs[j].active
       else k == 0 && forall j :: 0 <= j < |tabs| && IsPill(tabs, j) ==> !tabs[j].active
  }

  lemma {:induction false} CurrentIsActive(tabs: seq<Tab>, k: int)
    requires IsCurrent(tabs, k)
    ensures k == ActiveFrom(Pills(tabs), 0) < |Pills(tabs)| && Pills(tabs)[k] == tabs[k]
  {
    var pills := Pills(tabs);
    ActiveFromIsFirst(pills, 0);
    assert forall j :: 0 <= j < |pills| ==> IsPill(tabs, j) && pills[j] == tabs[j];
    if !tabs[k].active {
      assert forall j :: 0 <= j < |pills| ==> !pills[j].active;
    } else {
      assert pills[k].active;
    }
  }

  lemma {:induction false} SwitchDraws(before: Scroll, current: int, tabs: seq<Tab>, room: nat, barWidth: nat,
                                       after: Scroll, s: Strip)
    requires Sized(tabs) && Planned(before, current, tabs, room, barWidth, after, s)
    requires Pills(tabs) != [] && !AllFit(tabs, room, barWidth) && Track(tabs, room, barWidth) >= 1
    requires current != before.workspace || Track(tabs, room, barWidth) != before.at
    ensures var k := ActiveFrom(Pills(tabs), 0);
            (s.scrolls && after.first <= k < after.first + |s.pills|) <==>
              Pills(tabs)[k].width <= Track(tabs, room, barWidth)
  {
    ScrollingTrack(before, current, tabs, room, barWidth, after, s);
    var pills, budget, inner := Pills(tabs), Budget(tabs, room, barWidth), Track(tabs, room, barWidth);
    hide *;
    CurrentPillInSight(before, current, pills, inner, after.first);
    var k := ActiveFrom(pills, 0);
    SeenNotBefore(pills, after.first, inner, k);
    if after.first <= k {
      SeenIsDrawn(pills, tabs, budget, inner, after.first, s, k);
    }
  }

  lemma {:induction false} SeenNotBefore(pills: seq<Tab>, first: int, inner: int, k: nat)
    ensures Seen(pills, first, inner, k) ==> first <= k
  {
  }

  lemma {:induction false} ScrollingTrack(before: Scroll, current: int, tabs: seq<Tab>, room: nat, barWidth: nat,
                                          after: Scroll, s: Strip)
    requires Sized(tabs) && Planned(before, current, tabs, room, barWidth, after, s)
    requires Pills(tabs) != [] && !AllFit(tabs, room, barWidth) && Track(tabs, room, barWidth) >= 1
    ensures Sized(Pills(tabs)) && 0 <= after.first
    ensures Settles(before, current, Pills(tabs), Track(tabs, room, barWidth), after.first)
    ensures DrawnFrom(Pills(tabs), tabs, Budget(tabs, room, barWidth), Track(tabs, room, barWidth), after.first, s)
  {
    PillsSized(tabs);
    BudgetInColumns(tabs, room, barWidth);
    ScrollingPlan(before, current, tabs, room, barWidth, after, s);
    hide Planned, Settles, DrawnFrom, Budget, Span, Plus;
  }

  /**
    Right after the workspace or the room has changed, a strip that cannot draw all its tabs draws the
    current workspace's pill exactly when that fits between the arrows by itself.
   */
  lemma {:induction false} SwitchShowsCurrent(before: Scroll, current: int, tabs: seq<Tab>, room: nat, barWidth: nat,
                                              after: Scroll, s: Strip, k: int)
    requires Sized(tabs) && Planned(before, current, tabs, room, barWidth, after, s)
    requires IsCurrent(tabs, k) && !AllFit(tabs, room, barWidth)
    requires current != before.workspace || Track(tabs, room, barWidth) != before.at
    ensures (s.scrolls && 0 <= k - after.first < |s.pills| && s.pills[k - after.first] == tabs[k]) <==>
              tabs[k].width <= Track(tabs, room, barWidth)
  {
    CurrentIsActive(tabs, k);
    StripInColumns(before, current, tabs, room, barWidth, after, s);
    hide Budget, Plus, Span, AddOnly, Planned, DrawnInColumns, IsCurrent;
    if Track(tabs, room, barWidth) >= 1 {
      SwitchDraws(before, current, tabs, room, barWidth, after, s);
    }
  }

  /** The columns of tabs i to j side by side. */
  function Side(tabs: seq<Tab>, i: nat, j: nat): int
    requires i <= j < |tabs|
  {
    Widths(tabs[i..j + 1]) + j - i
  }

  /**
    It moves no further than it has to. Going forward, that pill would not be in sight from any offset f
    it passes over; going back it stops at that pill, or where the run to the last pill e begins.
   */
  lemma {:induction false} SwitchMovesLeast(before: Scroll, current: int, tabs: seq<Tab>, room: nat, barWidth: nat,
                                            after: Scroll, s: Strip, k: int, f: nat, e: nat)
    requires Sized(tabs) && Planned(before, current, tabs, room, barWidth, after, s)
    requires IsCurrent(tabs, k) && !AllFit(tabs, room, barWidth) && Track(tabs, room, barWidth) >= 1
    requires current != before.workspace || Track(tabs, room, barWidth) != before.at
    requires IsPill(tabs, e) && !IsPill(tabs, e + 1)
    ensures before.first <= f < after.first ==> f < k && Side(tabs, f, k) > Track(tabs, room, barWidth)
    ensures 0 <= after.first && (k < before.first ==> after.first <= k)
    ensures after.first < before.first && after.first < k && after.first < e ==>
              Side(tabs, after.first, e) <= Track(tabs, room, barWidth)
  {
    hide *;
    CurrentIsActive(tabs, k);
    LastPill(tabs, e);
    ScrollingTrack(before, current, tabs, room, barWidth, after, s);
    var pills, inner := Pills(tabs), Track(tabs, room, barWidth);
    SettlesLeast(before, current, pills, inner, after.first, f);
    MovesLeast(before, tabs, inner, after.first, k, f, e);
  }

  lemma {:induction false} MovesLeast(before: Scroll, tabs: seq<Tab>, inner: int, first: nat, k: nat, f: nat, e: nat)
    requires |Pills(tabs)| == e + 1 && k <= e && first <= e
    requires before.first <= f < first ==> f < k && Span(Pills(tabs)[f..k + 1]) > inner
    requires first < before.first && first < k && first < e ==> Span(Pills(tabs)[first..]) <= inner
    ensures |Pills(tabs)| <= |tabs|
    ensures before.first <= f < first ==> f < k && Side(tabs, f, k) > inner
    ensures first < before.first && first < k && first < e ==> Side(tabs, first, e) <= inner
  {
    hide *;
    SideIsSpan(tabs, first, e);
    assert Pills(tabs)[first..e + 1] == Pills(tabs)[first..];
    if before.first <= f < first {
      SideIsSpan(tabs, f, k);
    }
  }

  lemma {:induction false} LastPill(tabs: seq<Tab>, e: nat)
    requires IsPill(tabs, e) && !IsPill(tabs, e + 1)
    ensures |Pills(tabs)| == e + 1
  {
  }

  lemma {:induction false} SettlesLeast(before: Scroll, current: int, pills: seq<Tab>, inner: int, first: int, f: nat)
    requires pills != [] && Settles(before, current, pills, inner, first)
    requires current != before.workspace || inner != before.at
    ensures var k := ActiveFrom(pills, 0);
            && 0 <= first < |pills| && (k < before.first ==> first <= k)
            && (before.first <= f < first ==> f < k && Span(pills[f..k + 1]) > inner)
            && (first < before.first && first < k && first + 1 < |pills| ==> Span(pills[first..]) <= inner)
  {
    hide Span;
    var k := ActiveFrom(pills, 0);
    hide ActiveFrom;
    var pulled: int, last: nat :| SettlesBy(before, current, pills, inner, pulled, last, first);
    if before.first <= f < first {
      assert !Seen(pills, f, inner, k);
    }
  }

  lemma {:induction false} SideIsSpan(tabs: seq<Tab>, i: nat, j: nat)
    requires i <= j < |Pills(tabs)|
    ensures |Pills(tabs)| <= |tabs| && Side(tabs, i, j) == Span(Pills(tabs)[i..j + 1])
  {
    var run := Pills(tabs)[i..j + 1];
    assert run == tabs[i..j + 1];
    SpanIsWidths(run);
  }

  /** Planning again with nothing changed draws the same strip and leaves the offset alone. */
  lemma {:induction false} ReplanIsTheSame(before: Scroll, current: int, tabs: seq<Tab>, room: nat, barWidth: nat,
                                           after: Scroll, s: Strip, again: Scroll, s': Strip)
    requires Sized(tabs) && Planned(before, current, tabs, room, barWidth, after, s)
    requires Planned(after, current, tabs, room, barWidth, again, s')
    ensures again == after && s' == s
  {
    PillsSized(tabs);
    var budget, pills := Budget(tabs, room, barWidth), Pills(tabs);
    var inner := budget - 1 - AddSpan(tabs) - 2 * ARROW;
    if tabs != [] && MustScroll(tabs, budget) {
      SettledStays(before, after, current, pills, inner, again.first);
      DrawnOnce(pills, tabs, budget, inner, after.first, s, s');
    }
  }

  lemma {:induction false} SettledStays(before: Scroll, after: Scroll, current: int, pills: seq<Tab>, inner: int,
                                        first: int)
    requires Settles(before, current, pills, inner, after.first) && after.workspace == current && after.at == inner
    requires Settles(after, current, pills, inner, first)
    ensures first == after.first
  {
    var pulled: int, last: nat :| SettlesBy(before, current, pills, inner, pulled, last, after.first);
    var pulled': int, last': nat :| SettlesBy(after, current, pills, inner, pulled', last', first);
    LastOffsetOnce(pills, inner, last, last');
  }

  lemma {:induction false} DrawnOnce(pills: seq<Tab>, tabs: seq<Tab>, budget: int, inner: int, first: int, s: Strip,
                                     s': Strip)
    requires Sized(pills)
    requires DrawnFrom(pills, tabs, budget, inner, first, s) && DrawnFrom(pills, tabs, budget, inner, first, s')
    ensures s == s'
  {
    var n: nat :| Fits(pills, first, inner, n) &&
      s == if n == 0 then AddOnly(tabs, budget, inner)
           else Strip(pills[first..first + n], AddTab(tabs), first > 0, first + n < |pills|, true, inner,
                      1 + 2 * ARROW + inner + AddSpan(tabs));
    var m: nat :| Fits(pills, first, inner, m) &&
      s' == if m == 0 then AddOnly(tabs, budget, inner)
            else Strip(pills[first..first + m], AddTab(tabs), first > 0, first + m < |pills|, true, inner,
                       1 + 2 * ARROW + inner + AddSpan(tabs));
    FitsOnce(pills, first, inner, n, m);
  }

  /** A settled offset is at most the last one, and shows the last pill exactly if it is that. */
  lemma {:induction false} LastShowsTheEnd(pills: seq<Tab>, inner: int, last: nat, first: nat, n: nat)
    requires Sized(pills) && IsLastOffset(pills, inner, last) && first <= last && first < |pills|
    requires Fits(pills, first, inner, n) && n > 0
    ensures first + n == |pills| <==> first == last
  {
    SeenIfRunFits(pills, first, inner, n, |pills| - 1);
    assert pills[first..|pills|] == pills[first..];
    assert [pills[|pills| - 1]] == pills[|pills| - 1..];
  }

  /** The next plan after a click moves the offset by the click, unless that leads past the last one. */
  lemma {:induction false} ClickSettles(before: Scroll, after: Scroll, current: int, pills: seq<Tab>, inner: int,
                                        delta: int, first: int) returns (last: nat)
    requires Settles(before, current, pills, inner, after.first) && after.workspace == current && after.at == inner
    requires 0 <= after.first && Settles(Clicked(after, delta), current, pills, inner, first)
    ensures IsLastOffset(pills, inner, last) && after.first <= last
    ensures first == Min(Max(after.first + delta, 0), last)
  {
    var pulled: int;
    pulled, last :| SettlesBy(before, current, pills, inner, pulled, last, after.first);
    var pulled': int, last': nat :| SettlesBy(Clicked(after, delta), current, pills, inner, pulled', last', first);
    LastOffsetOnce(pills, inner, last, last');
  }

  /**
    A click on an arrow, planned again with nothing else changed, moves the strip by exactly one pill if
    the strip shows that arrow, and otherwise not at all. The strip is drawn there exactly if the pill it
    then begins with fits between the arrows by itself.
   */
  lemma {:induction false} ArrowsStepOnePill(before: Scroll, current: int, tabs: seq<Tab>, room: nat, barWidth: nat,
                                             after: Scroll, s: Strip, delta: int, again: Scroll, s': Strip)
    requires Sized(tabs) && (delta == -1 || delta == 1)
    requires Planned(before, current, tabs, room, barWidth, after, s) && s.scrolls
    requires Planned(Clicked(after, delta), current, tabs, room, barWidth, again, s')
    ensures again.first ==
            if (delta == -1 && s.moreLeft) || (delta == 1 && s.moreRight) then after.first + delta else after.first
    ensures again == after.(first := again.first) && 0 <= again.first < |Pills(tabs)|
    ensures s'.scrolls <==> Pills(tabs)[again.first].width <= s.inner
    ensures s'.scrolls ==> s'.pills != [] && s'.pills[0] == Pills(tabs)[again.first]
  {
    PillsSized(tabs);
    var budget, pills := Budget(tabs, room, barWidth), Pills(tabs);
    var inner := budget - 1 - AddSpan(tabs) - 2 * ARROW;
    ScrollingPlan(before, current, tabs, room, barWidth, after, s);
    ScrollingPlan(Clicked(after, delta), current, tabs, room, barWidth, again, s');
    hide Planned, Settles, DrawnFrom, Budget, AddOnly, Span, AddSpan;
    ArrowsTell(before, after, current, pills, tabs, budget, inner, s, delta, again.first);
    DrawnAt(pills, tabs, budget, inner, again.first, s');
  }

  /** A plan for a strip that has to scroll. */
  lemma {:induction false} ScrollingPlan(before: Scroll, current: int, tabs: seq<Tab>, room: nat, barWidth: nat,
                                         after: Scroll, s: Strip)
    requires Planned(before, current, tabs, room, barWidth, after, s)
    ensures var pills, budget := Pills(tabs), Budget(tabs, room, barWidth);
            var inner := budget - 1 - AddSpan(tabs) - 2 * ARROW;
            && (s.scrolls ==> MustScroll(tabs, budget) && s.inner == inner)
            && (MustScroll(tabs, budget) ==>
                  && after == Scroll(after.first, current, inner) && 0 <= after.first
                  && Settles(before, current, pills, inner, after.first)
                  && DrawnFrom(pills, tabs, budget, inner, after.first, s))
  {
  }

  lemma {:induction false} ArrowsTell(before: Scroll, after: Scroll, current: int, pills: seq<Tab>, tabs: seq<Tab>,
                                      budget: int, inner: int, s: Strip, delta: int, first: int)
    requires Sized(tabs) && pills == Pills(tabs) && pills != [] && (delta == -1 || delta == 1)
    requires Settles(before, current, pills, inner, after.first) && after == Scroll(after.first, current, inner)
    requires 0 <= after.first && DrawnFrom(pills, tabs, budget, inner, after.first, s) && s.scrolls
    requires Settles(Clicked(after, delta), current, pills, inner, first)
    ensures first ==
            if (delta == -1 && s.moreLeft) || (delta == 1 && s.moreRight) then after.first + delta else after.first
    ensures 0 <= first < |pills|
  {
    PillsSized(tabs);
    var last := ClickSettles(before, after, current, pills, inner, delta, first);
    var n := RunDrawn(pills, tabs, budget, inner, after.first, s);
    LastShowsTheEnd(pills, inner, last, after.first, n);
  }

  lemma {:induction false} RunDrawn(pills: seq<Tab>, tabs: seq<Tab>, budget: int, inner: int, first: int, s: Strip)
    returns (n: nat)
    requires DrawnFrom(pills, tabs, budget, inner, first, s) && s.scrolls
    ensures 0 <= first && n == |s.pills| > 0 && Fits(pills, first, inner, n)
    ensures (s.moreLeft <==> first > 0) && (s.moreRight <==> first + n < |pills|)
  {
    n :| Fits(pills, first, inner, n) &&
      s == if n == 0 then AddOnly(tabs, budget, inner)
           else Strip(pills[first..first + n], AddTab(tabs), first > 0, first + n < |pills|, true, inner,
                      1 + 2 * ARROW + inner + AddSpan(tabs));
  }

  lemma {:induction false} DrawnAt(pills: seq<Tab>, tabs: seq<Tab>, budget: int, inner: int, first: int, s: Strip)
    requires Sized(tabs) && pills == Pills(tabs) && 0 <= first < |pills|
    requires DrawnFrom(pills, tabs, budget, inner, first, s)
    ensures s.scrolls <==> pills[first].width <= inner
    ensures s.scrolls ==> s.pills != [] && s.pills[0] == pills[first]
  {
    PillsSized(tabs);
    DrawnStaysInside(pills, tabs, budget, inner, first, s);
    SeenIsDrawn(pills, tabs, budget, inner, first, s, first);
    assert pills[first..first + 1] == [pills[first]];
  }
}
