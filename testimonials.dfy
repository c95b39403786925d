/**
 * The client carousel of `TestimonialsSection`: an active slide index over the seven
 * client cards, previous/next buttons, one dot per card, swipe gestures, and an
 * auto-advance interval that is created afresh whenever the active index changes.
 */
module Testimonials {
  import opened Common
  import opened Circular

  /** The number of client cards. */
  const TestimonialCount := 7

  /** A swipe must travel strictly more than this many pixels to change slides. */
  const SwipeThreshold: real := 50.0

  /** The auto-advance period in milliseconds; timers are events here, so it is documentation. */
  const AutoAdvanceMs := 6000

  /** What a finished touch gesture asks the carousel to do. */
  datatype Swipe = Forward | Backward | Stay

  /**
   * The gesture recognised from the horizontal start and end coordinates: moving
   * the finger left (`start - end > 50`) goes forward, moving it right goes back.
   */
  function SwipeOf(start: real, end: real): (s: Swipe)
    ensures s == Stay <==> -SwipeThreshold <= start - end <= SwipeThreshold
    ensures s == Forward ==> end < start
    ensures s == Backward ==> start < end
  {
    var diff := start - end;
    if diff > SwipeThreshold then Forward
    else if diff < -SwipeThreshold then Backward
    else Stay
  }

  /** The same gesture traced in the opposite direction is recognised as the opposite swipe. */
  lemma SwipeMirror(start: real, end: real)
    ensures SwipeOf(start, end) == Forward <==> SwipeOf(end, start) == Backward
    ensures SwipeOf(start, end) == Stay <==> SwipeOf(end, start) == Stay
  {
  }

  /** Only the travelled distance matters, not where on the screen the gesture happened. */
  lemma SwipeTranslationInvariant(start: real, end: real, shift: real)
    ensures SwipeOf(start + shift, end + shift) == SwipeOf(start, end)
  {
  }

  /** The slide shown after a recognised gesture: `nextSlide`, `prevSlide` or no change. */
  function AfterSwipe(i: int, s: Swipe): (r: int)
    requires 0 <= i < TestimonialCount
    ensures 0 <= r < TestimonialCount
    ensures s == Stay <==> r == i
  {
    match s
    case Forward => Next(i, TestimonialCount)
    case Backward => Prev(i, TestimonialCount)
    case Stay => i
  }

  /** Swiping back along the same path undoes a swipe. */
  lemma SwipeBackRestores(i: int, start: real, end: real)
    requires 0 <= i < TestimonialCount
    ensures AfterSwipe(AfterSwipe(i, SwipeOf(start, end)), SwipeOf(end, start)) == i
  {
    SwipeMirror(start, end);
    NextPrevInverse(i, TestimonialCount);
  }

  /**
   * The horizontal offset, in percent of the viewport, of the row of cards:
   * `translateX(-activeIndex * 100%)`.
   */
  function SlideOffsetPercent(active: int): (r: int)
    requires 0 <= active < TestimonialCount
    ensures -100 * (TestimonialCount - 1) <= r <= 0
  {
    -(active * 100)
  }

  /**
   * Card `k` sits at `k * 100%` in the row; after the offset, its left edge lies in
   * the viewport `[0, 100)` exactly when it is the active card.
   */
  lemma ShowsActiveCard(active: int, k: int)
    requires 0 <= active < TestimonialCount && 0 <= k < TestimonialCount
    ensures 0 <= 100 * k + SlideOffsetPercent(active) < 100 <==> k == active
  {
  }

  /** The carousel component's state slots and its interval, as fields. */
  class TestimonialsSection {
    /** The `activeIndex` state slot. */
    var activeIndex: int
    /** The `touchStart` state slot: the x coordinate where the current gesture began. */
    var touchStart: Option<real>
    /** Whether the component is on the page. */
    var mounted: bool
    /** The number of auto-advance intervals currently scheduled. */
    var liveIntervals: nat
    /** How many auto-advance intervals have been created so far. */
    var intervalArms: nat

    /** The index is on a card, and exactly one interval runs while the component is mounted. */
    ghost predicate Valid()
      reads this
    {
      0 <= activeIndex < TestimonialCount
      && liveIntervals == (if mounted then 1 else 0)
      && intervalArms >= 1
    }

    /** Mount: the first card, no gesture, and the first interval created by the effect. */
    constructor()
      ensures Valid()
      ensures activeIndex == 0 && touchStart == None && mounted
      ensures intervalArms == 1
    {
      activeIndex := 0;
      touchStart := None;
      mounted := true;
      liveIntervals := 1;
      intervalArms := 1;
    }

    /**
     * `setActiveIndex(i)`. When the value changes, the `[activeIndex]` effect clears
     * the running interval and creates a new one; setting the same value bails out,
     * so the effect does not re-run and the interval is not re-armed.
     */
    method SetActiveIndex(i: int)
      requires Valid() && mounted
      requires 0 <= i < TestimonialCount
      modifies this`activeIndex, this`liveIntervals, this`intervalArms
      ensures Valid()
      ensures activeIndex == i
      ensures intervalArms == old(intervalArms) + (if i != old(activeIndex) then 1 else 0)
    {
      if i != activeIndex {
        activeIndex := i;
        // the effect's cleanup, `clearInterval(interval)` ...
        liveIntervals := liveIntervals - 1;
        // ... then its new run, `setInterval(nextSlide, 6000)`
        liveIntervals := liveIntervals + 1;
        intervalArms := intervalArms + 1;
      }
    }

    /** `nextSlide`: the following card, wrapping from the last to the first. */
    method NextSlide()
      requires Valid() && mounted
      modifies this`activeIndex, this`liveIntervals, this`intervalArms
      ensures Valid()
      ensures activeIndex == Next(old(activeIndex), TestimonialCount)
      ensures old(activeIndex) == TestimonialCount - 1 ==> activeIndex == 0
      ensures intervalArms == old(intervalArms) + 1
    {
      SetActiveIndex(Next(activeIndex, TestimonialCount));
    }

    /** `prevSlide`: the preceding card, wrapping from the first to the last. */
    method PrevSlide()
      requires Valid() && mounted
      modifies this`activeIndex, this`liveIntervals, this`intervalArms
      ensures Valid()
      ensures activeIndex == Prev(old(activeIndex), TestimonialCount)
      ensures old(activeIndex) == 0 ==> activeIndex == TestimonialCount - 1
      ensures intervalArms == old(intervalArms) + 1
    {
      SetActiveIndex(Prev(activeIndex, TestimonialCount));
    }

    /** A click on dot `i` shows card `i`. */
    method SelectDot(i: int)
      requires Valid() && mounted
      requires 0 <= i < TestimonialCount
      modifies this`activeIndex, this`liveIntervals, this`intervalArms
      ensures Valid()
      ensures activeIndex == i
      ensures intervalArms == old(intervalArms) + (if i != old(activeIndex) then 1 else 0)
    {
      SetActiveIndex(i);
    }

    /** Dot `i` is highlighted when it shows the active card. */
    predicate DotHighlighted(i: int)
      reads this
    {
      Highlighted(activeIndex, i)
    }

    /** The live interval fires: `nextSlide`, which also replaces the interval. */
    method IntervalFired()
      requires Valid() && mounted
      modifies this`activeIndex, this`liveIntervals, this`intervalArms
      ensures Valid()
      ensures activeIndex == Next(old(activeIndex), TestimonialCount)
      ensures intervalArms == old(intervalArms) + 1
    {
      NextSlide();
    }

    /** `handleTouchStart`: remember where the finger went down. */
    method HandleTouchStart(x: real)
      requires Valid() && mounted
      modifies this`touchStart
      ensures Valid()
      ensures touchStart == Some(x)
    {
      touchStart := Some(x);
    }

    /**
     * `handleTouchEnd`: without a recorded start nothing happens; otherwise the
     * recognised swipe is applied and the start is forgotten, so a gesture acts once.
     */
    method HandleTouchEnd(x: real)
      requires Valid() && mounted
      modifies this`touchStart, this`activeIndex, this`liveIntervals, this`intervalArms
      ensures Valid()
      ensures old(touchStart) == None ==> unchanged(this)
      ensures old(touchStart) != None ==>
        touchStart == None
        && activeIndex == AfterSwipe(old(activeIndex), SwipeOf(old(touchStart).value, x))
        && intervalArms == old(intervalArms) + (if activeIndex != old(activeIndex) then 1 else 0)
    {
      if touchStart == None {
        return;
      }
      var diff := touchStart.value - x;
      if diff > SwipeThreshold {
        NextSlide();
      } else if diff < -SwipeThreshold {
        PrevSlide();
      }
      touchStart := None;
    }

    /** Unmount: the effect's cleanup clears the interval. */
    method Unmount()
      requires Valid() && mounted
      modifies this`mounted, this`liveIntervals
      ensures Valid()
      ensures !mounted && liveIntervals == 0
    {
      mounted := false;
      liveIntervals := 0;
    }
  }

  /** Next then previous returns to the same card, and a second touch end is a no-op. */
  method CarouselScenario()
  {
    var c := new TestimonialsSection();
    c.PrevSlide();
    assert c.activeIndex == 6;
    c.NextSlide();
    assert c.activeIndex == 0;
    c.SelectDot(4);
    assert c.DotHighlighted(4) && !c.DotHighlighted(3);
    c.HandleTouchStart(300.0);
    c.HandleTouchEnd(240.0);
    assert c.activeIndex == 5 && c.touchStart == None;
    c.HandleTouchEnd(0.0);
    assert c.activeIndex == 5;
    c.HandleTouchStart(100.0);
    c.HandleTouchEnd(150.0);
    assert c.activeIndex == 5;
    c.IntervalFired();
    c.IntervalFired();
    assert c.activeIndex == 0;
    c.Unmount();
    assert c.liveIntervals == 0;
  }
}
