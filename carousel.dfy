/**
 * The paged carousel that turns the menu grid and the gallery grid into
 * sliders: wrap-around paging, one dot per page, an auto-advance interval,
 * swipe detection and a reset on resize.
 *
 * The live layout (viewport width, number of grid children, the first item's
 * width, the grid's CSS gaps) is read afresh by every operation, so each
 * operation takes it as a `Layout` value.
 */
module Carousel {
  import opened Wrappers
  import opened Marks

  /** Interval between automatic `next` calls, in milliseconds (elapsed time is not modelled). */
  const AutoScrollDelay: nat := 3000
  /** A touch must move horizontally by more than this many pixels to count as a swipe. */
  const SwipeThreshold: int := 50
  /** Per-page scroll distance used when the grid has no first item. */
  const DefaultScrollAmount: int := 300
  /** Gap used when neither `gap` nor `column-gap` gives a non-zero number. */
  const DefaultGap: int := 24

  /**
   * What the slider reads from the page. `gap` and `columnGap` are the parsed
   * computed styles, `None` where parsing yields NaN.
   */
  datatype Layout = Layout(
    viewportWidth: int,
    itemCount: nat,
    firstItemWidth: int,
    gap: Option<int>,
    columnGap: Option<int>)

  /** Items shown at once for a viewport width: the CSS breakpoints 520 and 900. */
  function Visible(width: int): (v: nat)
    ensures v == 1 || v == 2 || v == 4
    ensures v == 1 <==> width <= 520
    ensures v == 4 <==> width > 900
  {
    if width <= 520 then 1
    else if width <= 900 then 2
    else 4
  }

  /** A wider viewport never shows fewer items per page. */
  lemma VisibleMonotone(narrow: int, wide: int)
    requires narrow <= wide
    ensures Visible(narrow) <= Visible(wide)
  {
  }

  /** `Math.ceil(items / visible)`: the fewest pages of `visible` items that hold every item. */
  function PageCount(items: nat, visible: nat): (pages: nat)
    requires visible >= 1
    ensures pages * visible >= items
    ensures pages == 0 || (pages - 1) * visible < items
    ensures pages == 0 <==> items == 0
  {
    var q := (items + visible - 1) / visible;
    var r := (items + visible - 1) % visible;
    assert items + visible - 1 == q * visible + r;
    assert (q - 1) * visible == q * visible - visible;
    q
  }

  /** Any page count meeting the two ceiling bounds is `PageCount`: the bounds pin it down. */
  lemma PageCountUnique(items: nat, visible: nat, pages: nat)
    requires visible >= 1
    requires pages * visible >= items
    requires pages == 0 || (pages - 1) * visible < items
    ensures pages == PageCount(items, visible)
  {
    var p := PageCount(items, visible);
    if pages < p {
      MulMonotone(pages, p - 1, visible);
    } else if pages > p {
      MulMonotone(p, pages - 1, visible);
    }
  }

  lemma MulMonotone(a: int, b: int, v: nat)
    requires a <= b
    ensures a * v <= b * v
  {
    var d := b - a;
    assert b * v == a * v + d * v;
  }

  /**
   * The page `goTo` settles on: a page below 0 becomes the last page, then a
   * page at or past the end becomes page 0. This is not arithmetic modulo the
   * page count, and with no pages a negative page yields -1.
   */
  function Wrap(page: int, total: nat): (index: int)
    ensures total >= 1 ==> 0 <= index < total
    ensures 0 <= page < total ==> index == page
    ensures page >= total ==> index == 0
    ensures page < 0 ==> index == total - 1
  {
    var p := if page < 0 then total - 1 else page;
    if p >= total then 0 else p
  }

  /** `goTo(-5)` on three pages lands on the last page, where `-5 mod 3` would give page 1. */
  lemma WrapIsNotModular()
    ensures Wrap(-5, 3) == 2
    ensures -5 % 3 == 1
  {
  }

  /** The two directions of navigation: `next` is `goTo(current + 1)`, `prev` is `goTo(current - 1)`. */
  datatype Nav = Forward | Back

  /** The index after one `next` or `prev`, with `total` pages: on a page whenever there is one. */
  function Step(index: int, total: nat, nav: Nav): (r: int)
    ensures total >= 1 ==> 0 <= r < total
    ensures total == 0 ==> r == 0 || r == -1
  {
    Wrap(if nav == Forward then index + 1 else index - 1, total)
  }

  /** From a page in range, `next` is the successor modulo the page count. */
  lemma ForwardIsSuccessor(index: int, total: nat)
    requires 0 <= index < total
    ensures Step(index, total, Forward) == (index + 1) % total
  {
    if index + 1 == total {
      assert (index + 1) % total == 0;
    } else {
      assert (index + 1) % total == index + 1;
    }
  }

  /** From a page in range, `prev` is the predecessor modulo the page count. */
  lemma BackIsPredecessor(index: int, total: nat)
    requires 0 <= index < total
    ensures Step(index, total, Back) == (index - 1) % total
  {
    if index == 0 {
      assert (index - 1) % total == total - 1;
    } else {
      assert (index - 1) % total == index - 1;
    }
  }

  /** `prev` undoes `next` and `next` undoes `prev` on a page in range. */
  lemma StepsCancel(index: int, total: nat)
    requires 0 <= index < total
    ensures Step(Step(index, total, Forward), total, Back) == index
    ensures Step(Step(index, total, Back), total, Forward) == index
  {
  }

  /** With no items, `prev` from page 0 leaves the index at -1, and `next` from there returns to 0. */
  lemma NoItemsPrev()
    ensures Step(0, 0, Back) == -1
    ensures Step(-1, 0, Forward) == 0
  {
  }

  /** The index after a run of `next`/`prev` calls, taken in order. */
  function Walk(index: int, total: nat, navs: seq<Nav>): int
    decreases |navs|
  {
    if navs == [] then index else Walk(Step(index, total, navs[0]), total, navs[1..])
  }

  /** Any run of `next`/`prev` calls keeps the index on an existing page once there is one. */
  lemma {:induction false} WalkStaysOnAPage(index: int, total: nat, navs: seq<Nav>)
    requires total >= 1
    requires 0 <= index < total
    ensures 0 <= Walk(index, total, navs) < total
    decreases |navs|
  {
    if navs != [] {
      WalkStaysOnAPage(Step(index, total, navs[0]), total, navs[1..]);
    }
  }

  /** `k` calls of `next` from a page in range advance by `k` pages modulo the page count. */
  lemma {:induction false} ForwardWalkIsModular(index: int, total: nat, k: nat)
    requires 0 <= index < total
    ensures Walk(index, total, seq(k, _ => Forward)) == (index + k) % total
    decreases k
  {
    var navs := seq(k, _ => Forward);
    if k == 0 {
      assert navs == [];
    } else {
      var next := Step(index, total, Forward);
      ForwardIsSuccessor(index, total);
      assert navs[1..] == seq(k - 1, _ => Forward);
      ForwardWalkIsModular(next, total, k - 1);
      ModAddOne(index, total, k - 1);
    }
  }

  /** `((i + 1) % n + m) % n == (i + 1 + m) % n`, the one modular step `ForwardWalkIsModular` needs. */
  lemma ModAddOne(index: int, total: nat, m: nat)
    requires 0 <= index < total
    ensures ((index + 1) % total + m) % total == (index + m + 1) % total
  {
    if index + 1 == total {
      assert (index + 1) % total == 0;
      assert index + m + 1 == m + total;
      ModUnique(m + total, total, m / total + 1, m % total);
    } else {
      assert (index + 1) % total == index + 1;
    }
  }

  /** Quotient and remainder are unique: `x == q * n + r` with `0 <= r < n` gives `x % n == r`. */
  lemma ModUnique(x: int, n: nat, q: int, r: int)
    requires 0 <= r < n
    requires x == q * n + r
    ensures x % n == r
  {
    var q', r' := x / n, x % n;
    assert x == q' * n + r';
    assert (q + 1) * n == q * n + n;
    assert (q' + 1) * n == q' * n + n;
    if q < q' {
      MulMonotone(q + 1, q', n);
    } else if q > q' {
      MulMonotone(q' + 1, q, n);
    }
  }

  /**
   * The gap added to an item's width: the grid's `gap`, else its `column-gap`,
   * else 24. A value of 0 falls through like NaN, as JavaScript's `||` does.
   */
  function EffectiveGap(gap: Option<int>, columnGap: Option<int>): (g: int)
    ensures g != 0
    ensures gap.Some? && gap.value != 0 ==> g == gap.value
    ensures !(gap.Some? && gap.value != 0) && columnGap.Some? && columnGap.value != 0 ==> g == columnGap.value
    ensures g == DefaultGap || (gap.Some? && g == gap.value) || (columnGap.Some? && g == columnGap.value)
  {
    if gap.Some? && gap.value != 0 then gap.value
    else if columnGap.Some? && columnGap.value != 0 then columnGap.value
    else DefaultGap
  }

  /** Horizontal distance of one page: one item plus its gap, times the items per page. */
  function ScrollAmount(layout: Layout): (amount: int)
    ensures layout.itemCount == 0 ==> amount == DefaultScrollAmount
    ensures layout.itemCount > 0 ==> amount % Visible(layout.viewportWidth) == 0
    ensures layout.itemCount > 0 ==>
      amount == (layout.firstItemWidth + EffectiveGap(layout.gap, layout.columnGap)) * Visible(layout.viewportWidth)
  {
    if layout.itemCount == 0 then DefaultScrollAmount
    else
      var stride := layout.firstItemWidth + EffectiveGap(layout.gap, layout.columnGap);
      var v := Visible(layout.viewportWidth);
      assert stride * v == v * stride;
      stride * v
  }

  /** Where `goTo` scrolls the grid for a given page. */
  function PageOffset(layout: Layout, index: int): int
  {
    ScrollAmount(layout) * index
  }

  /** With a positive per-page distance, later pages sit strictly further right, and page 0 at 0. */
  lemma OffsetsIncrease(layout: Layout, p: int, q: int)
    requires ScrollAmount(layout) > 0
    requires p < q
    ensures PageOffset(layout, p) < PageOffset(layout, q)
    ensures PageOffset(layout, 0) == 0
  {
    var a := ScrollAmount(layout);
    assert a * q - a * p == a * (q - p);
  }

  /** What a touch that started at `startX` and ended at `endX` does. */
  datatype Swipe = SwipeNext | SwipePrev | NoSwipe

  function Abs(x: int): (r: nat)
    ensures r == x || r == -x
  {
    if x < 0 then -x else x
  }

  /** Movement to the left by more than 50 px is `next`, to the right `prev`, anything shorter nothing. */
  function SwipeFor(startX: int, endX: int): (s: Swipe)
    ensures s == NoSwipe <==> -SwipeThreshold <= startX - endX <= SwipeThreshold
    ensures s == SwipeNext <==> endX < startX - SwipeThreshold
    ensures s == SwipePrev <==> endX > startX + SwipeThreshold
  {
    var diff := startX - endX;
    if Abs(diff) > SwipeThreshold then
      (if diff > 0 then SwipeNext else SwipePrev)
    else NoSwipe
  }

  /** The intervals a timer field accounts for: its handle, or none when it is null. */
  function HandleSet(timer: Option<nat>): set<nat>
  {
    if timer.Some? then {timer.value} else {}
  }

  /**
   * One slider over one grid. `dots` is the dot strip, one entry per dot,
   * true where the dot has the `active` class. `autoTimer` is the handle of
   * the slider's interval; `liveTimers` is the set of its intervals still
   * registered with the browser; `nextHandle` is the handle the browser will
   * hand out next (handles are positive, so a handle is never falsy).
   */
  class Slider {
    var itemCount: nat
    var totalPages: nat
    var currentIndex: int
    var dots: seq<bool>
    var autoTimer: Option<nat>
    ghost var liveTimers: set<nat>
    var nextHandle: nat
    var touchStartX: int
    var scrollLeft: int

    /** Dot `i` is active exactly when `i` is the current page. */
    predicate DotsAgree()
      reads this
    {
      forall i | 0 <= i < |dots| :: dots[i] == (i == currentIndex)
    }

    ghost predicate Valid()
      reads this
    {
      && DotsAgree()
      && liveTimers == HandleSet(autoTimer)
      && nextHandle >= 1
      && (forall h | h in liveTimers :: 0 < h < nextHandle)
    }

    /** `initSlider` on a grid that exists: build the dots for page 0 and start auto-advance. */
    constructor (layout: Layout)
      ensures Valid()
      ensures itemCount == layout.itemCount
      ensures totalPages == PageCount(layout.itemCount, Visible(layout.viewportWidth))
      ensures currentIndex == 0 && dots == OneHot(totalPages, 0)
      ensures autoTimer == Some(1) && liveTimers == {1} && nextHandle == 2
      ensures scrollLeft == 0 && touchStartX == 0
    {
      itemCount, totalPages, currentIndex := 0, 0, 0;
      dots := [];
      autoTimer, liveTimers, nextHandle := None, {}, 1;
      touchStartX, scrollLeft := 0, 0;
      new;
      BuildDots(layout);
      StartAuto();
    }

    /** Re-read the items, recompute the page count and regenerate one dot per page. */
    method BuildDots(layout: Layout)
      requires Valid()
      modifies this
      ensures Valid()
      ensures itemCount == layout.itemCount
      ensures totalPages == PageCount(layout.itemCount, Visible(layout.viewportWidth))
      ensures dots == OneHot(totalPages, currentIndex)
      ensures currentIndex == old(currentIndex) && scrollLeft == old(scrollLeft)
      ensures autoTimer == old(autoTimer) && liveTimers == old(liveTimers) && nextHandle == old(nextHandle)
      ensures touchStartX == old(touchStartX)
    {
      itemCount := layout.itemCount;
      var visible := Visible(layout.viewportWidth);
      totalPages := PageCount(itemCount, visible);
      var strip := [];
      for i := 0 to totalPages
        invariant |strip| == i
        invariant forall k | 0 <= k < i :: strip[k] == (k == currentIndex)
      {
        strip := strip + [i == currentIndex];
      }
      dots := strip;
    }

    /** Toggle every existing dot so that only the current page's dot is active. */
    method UpdateDots()
      modifies this`dots
      ensures dots == OneHot(|old(dots)|, currentIndex)
    {
      for i := 0 to |dots|
        invariant |dots| == |old(dots)|
        invariant forall k | 0 <= k < i :: dots[k] == (k == currentIndex)
      {
        dots := dots[i := i == currentIndex];
      }
    }

    /** Recompute the page count, wrap `page`, scroll to it and sync the dots (the dots are not rebuilt). */
    method GoTo(page: int, layout: Layout)
      requires Valid()
      modifies this
      ensures Valid()
      ensures itemCount == layout.itemCount
      ensures totalPages == PageCount(layout.itemCount, Visible(layout.viewportWidth))
      ensures currentIndex == Wrap(page, totalPages)
      ensures scrollLeft == PageOffset(layout, currentIndex)
      ensures dots == OneHot(|old(dots)|, currentIndex)
      ensures autoTimer == old(autoTimer) && liveTimers == old(liveTimers) && nextHandle == old(nextHandle)
      ensures touchStartX == old(touchStartX)
    {
      itemCount := layout.itemCount;
      var visible := Visible(layout.viewportWidth);
      totalPages := PageCount(itemCount, visible);
      var p := page;
      if p < 0 { p := totalPages - 1; }
      if p >= totalPages { p := 0; }
      currentIndex := p;
      scrollLeft := ScrollAmount(layout) * currentIndex;
      UpdateDots();
    }

    method Next(layout: Layout)
      requires Valid()
      modifies this
      ensures Valid()
      ensures itemCount == layout.itemCount
      ensures totalPages == PageCount(layout.itemCount, Visible(layout.viewportWidth))
      ensures currentIndex == Step(old(currentIndex), totalPages, Forward)
      ensures totalPages >= 1 ==> 0 <= currentIndex < totalPages
      ensures scrollLeft == PageOffset(layout, currentIndex)
      ensures dots == OneHot(|old(dots)|, currentIndex)
      ensures autoTimer == old(autoTimer) && liveTimers == old(liveTimers) && nextHandle == old(nextHandle)
      ensures touchStartX == old(touchStartX)
    {
      GoTo(currentIndex + 1, layout);
    }

    method Prev(layout: Layout)
      requires Valid()
      modifies this
      ensures Valid()
      ensures itemCount == layout.itemCount
      ensures totalPages == PageCount(layout.itemCount, Visible(layout.viewportWidth))
      ensures currentIndex == Step(old(currentIndex), totalPages, Back)
      ensures totalPages >= 1 ==> 0 <= currentIndex < totalPages
      ensures scrollLeft == PageOffset(layout, currentIndex)
      ensures dots == OneHot(|old(dots)|, currentIndex)
      ensures autoTimer == old(autoTimer) && liveTimers == old(liveTimers) && nextHandle == old(nextHandle)
      ensures touchStartX == old(touchStartX)
    {
      GoTo(currentIndex - 1, layout);
    }

    /** Clear the interval if there is one; calling it again changes nothing. */
    method StopAuto()
      requires Valid()
      modifies this`autoTimer, this`liveTimers
      ensures Valid()
      ensures autoTimer == None && liveTimers == {}
    {
      if autoTimer.Some? {
        liveTimers := liveTimers - {autoTimer.value};
        autoTimer := None;
      }
    }

    /** Clear any running interval, then register a new one: exactly one interval is live afterwards. */
    method StartAuto()
      requires Valid()
      modifies this`autoTimer, this`liveTimers, this`nextHandle
      ensures Valid()
      ensures autoTimer == Some(old(nextHandle)) && liveTimers == {old(nextHandle)}
      ensures old(nextHandle) !in old(liveTimers)
      ensures nextHandle == old(nextHandle) + 1
    {
      StopAuto();
      autoTimer := Some(nextHandle);
      liveTimers := liveTimers + {nextHandle};
      nextHandle := nextHandle + 1;
    }

    /** The interval fires: one `next`. */
    method AutoAdvance(layout: Layout)
      requires Valid() && autoTimer.Some?
      modifies this
      ensures Valid()
      ensures itemCount == layout.itemCount
      ensures totalPages == PageCount(layout.itemCount, Visible(layout.viewportWidth))
      ensures currentIndex == Step(old(currentIndex), totalPages, Forward)
      ensures scrollLeft == PageOffset(layout, currentIndex)
      ensures dots == OneHot(|old(dots)|, currentIndex)
      ensures touchStartX == old(touchStartX)
      ensures autoTimer == old(autoTimer) && liveTimers == old(liveTimers) && nextHandle == old(nextHandle)
    {
      Next(layout);
    }

    /** A click on the "previous" button: `prev`, then restart auto-advance. */
    method PrevButton(layout: Layout)
      requires Valid()
      modifies this
      ensures Valid()
      ensures itemCount == layout.itemCount
      ensures totalPages == PageCount(layout.itemCount, Visible(layout.viewportWidth))
      ensures currentIndex == Step(old(currentIndex), totalPages, Back)
      ensures scrollLeft == PageOffset(layout, currentIndex)
      ensures dots == OneHot(|old(dots)|, currentIndex)
      ensures touchStartX == old(touchStartX)
      ensures autoTimer == Some(old(nextHandle)) && liveTimers == {old(nextHandle)} && nextHandle == old(nextHandle) + 1
    {
      Prev(layout);
      StopAuto();
      StartAuto();
    }

    /** A click on the "next" button: `next`, then restart auto-advance. */
    method NextButton(layout: Layout)
      requires Valid()
      modifies this
      ensures Valid()
      ensures itemCount == layout.itemCount
      ensures totalPages == PageCount(layout.itemCount, Visible(layout.viewportWidth))
      ensures currentIndex == Step(old(currentIndex), totalPages, Forward)
      ensures scrollLeft == PageOffset(layout, currentIndex)
      ensures dots == OneHot(|old(dots)|, currentIndex)
      ensures touchStartX == old(touchStartX)
      ensures autoTimer == Some(old(nextHandle)) && liveTimers == {old(nextHandle)} && nextHandle == old(nextHandle) + 1
    {
      Next(layout);
      StopAuto();
      StartAuto();
    }

    /** A click on dot `i`: `goTo(i)` and nothing else (the interval keeps running). */
    method DotClick(i: nat, layout: Layout)
      requires Valid() && i < |dots|
      modifies this
      ensures Valid()
      ensures itemCount == layout.itemCount
      ensures totalPages == PageCount(layout.itemCount, Visible(layout.viewportWidth))
      ensures currentIndex == Wrap(i, totalPages)
      ensures scrollLeft == PageOffset(layout, currentIndex)
      ensures dots == OneHot(|old(dots)|, currentIndex)
      ensures touchStartX == old(touchStartX)
      ensures autoTimer == old(autoTimer) && liveTimers == old(liveTimers) && nextHandle == old(nextHandle)
    {
      GoTo(i, layout);
    }

    /** Touch start: remember where the finger went down and pause auto-advance. */
    method TouchStart(x: int)
      requires Valid()
      modifies this`touchStartX, this`autoTimer, this`liveTimers
      ensures Valid()
      ensures touchStartX == x
      ensures autoTimer == None && liveTimers == {}
    {
      touchStartX := x;
      StopAuto();
    }

    /** Touch end: at most one `next` or `prev` by the swipe rule, then auto-advance restarts. */
    method TouchEnd(x: int, layout: Layout)
      requires Valid()
      modifies this
      ensures Valid()
      ensures match SwipeFor(old(touchStartX), x)
        case SwipeNext =>
          && currentIndex == Step(old(currentIndex), totalPages, Forward)
          && scrollLeft == PageOffset(layout, currentIndex) && dots == OneHot(|old(dots)|, currentIndex)
        case SwipePrev =>
          && currentIndex == Step(old(currentIndex), totalPages, Back)
          && scrollLeft == PageOffset(layout, currentIndex) && dots == OneHot(|old(dots)|, currentIndex)
        case NoSwipe => currentIndex == old(currentIndex) && dots == old(dots) && scrollLeft == old(scrollLeft)
      ensures SwipeFor(old(touchStartX), x) != NoSwipe ==>
        itemCount == layout.itemCount && totalPages == PageCount(layout.itemCount, Visible(layout.viewportWidth))
      ensures SwipeFor(old(touchStartX), x) == NoSwipe ==> totalPages == old(totalPages) && itemCount == old(itemCount)
      ensures autoTimer == Some(old(nextHandle)) && liveTimers == {old(nextHandle)} && nextHandle == old(nextHandle) + 1
      ensures touchStartX == old(touchStartX)
    {
      var diff := touchStartX - x;
      if Abs(diff) > SwipeThreshold {
        if diff > 0 {
          Next(layout);
        } else {
          Prev(layout);
        }
      }
      StartAuto();
    }

    /** Viewport resize: rebuild the dots, then go to page 0. */
    method Resize(layout: Layout)
      requires Valid()
      modifies this
      ensures Valid()
      ensures itemCount == layout.itemCount
      ensures totalPages == PageCount(layout.itemCount, Visible(layout.viewportWidth))
      ensures currentIndex == 0
      ensures dots == OneHot(totalPages, 0)
      ensures scrollLeft == 0
      ensures autoTimer == old(autoTimer) && liveTimers == old(liveTimers) && nextHandle == old(nextHandle)
      ensures touchStartX == old(touchStartX)
    {
      BuildDots(layout);
      GoTo(0, layout);
    }
  }

  /** The slider never holds more than one live interval. */
  lemma AtMostOneTimer(s: Slider)
    requires s.Valid()
    ensures |s.liveTimers| <= 1
  {
  }

  /** A client run: nine items, wrap-around at the end, a resize to one item per page, idempotent timers. */
  method Scenario()
  {
    var wide := Layout(1000, 9, 200, Some(24), None);
    var s := new Slider(wide);
    assert s.totalPages == 3;
    s.GoTo(3, wide);
    assert s.currentIndex == 0;
    s.Prev(wide);
    assert s.currentIndex == 2 && s.dots == [false, false, true];
    var running := s.autoTimer;
    s.NextButton(wide);
    assert s.currentIndex == 0 && s.scrollLeft == 0;
    assert s.autoTimer != running && s.liveTimers == {s.autoTimer.value};
    s.DotClick(1, wide);
    assert s.currentIndex == 1 && s.scrollLeft == 896 && s.dots == [false, true, false];
    s.StartAuto();
    s.StartAuto();
    AtMostOneTimer(s);
    s.StopAuto();
    s.StopAuto();
    assert s.liveTimers == {};
    var narrow := Layout(500, 9, 200, Some(24), None);
    s.Resize(narrow);
    assert s.totalPages == 9 && s.currentIndex == 0;
    s.TouchStart(300);
    s.TouchEnd(250, narrow);
    assert s.currentIndex == 0;
    s.TouchStart(300);
    s.TouchEnd(240, narrow);
    assert s.currentIndex == 1;
    var empty := Layout(1000, 0, 0, None, None);
    var e := new Slider(empty);
    e.Prev(empty);
    assert e.currentIndex == -1 && e.dots == [];
  }
}
