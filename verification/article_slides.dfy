/**
 * The article carousel: a slide index that wraps around at both ends, dots
 * that jump to a slide, and an auto-play flag that starts on, drives a
 * periodic advance, and is switched off for good by any manual navigation.
 * The periodic timer is modelled as a discrete `Tick` event.
 */
module ArticleSlides {
  import opened Rounding

  /** Number of articles in the carousel's list. */
  const ArticleCount: nat := 5

  /** JavaScript's `%`: the remainder of truncating division, with the sign of the dividend. */
  function JsRem(a: int, n: int): (r: int)
    requires n > 0
    ensures a >= 0 ==> 0 <= r < n && r == a % n
    ensures a < 0 ==> -n < r <= 0
    ensures (a - r) % n == 0
  {
    if a >= 0 then
      TruncatedRemainder(a, n);
      a % n
    else
      TruncatedRemainder(-a, n);
      -((-a) % n)
  }

  /** `m` and its remainder differ by a multiple of `n`, in either order. */
  lemma TruncatedRemainder(m: int, n: int)
    requires n > 0
    ensures (m - m % n) % n == 0 && (m % n - m) % n == 0
  {
    assert m - m % n == (m / n) * n;
    MultipleRem(m / n, n);
    assert m % n - m == -(m / n) * n;
    MultipleRem(-(m / n), n);
  }

  /** A multiple of `n` leaves remainder 0. */
  lemma MultipleRem(k: int, n: int)
    requires n > 0
    ensures (k * n) % n == 0
  {
    var m := k * n;
    var d := k - m / n;
    assert m == n * (m / n) + m % n;
    assert m % n == d * n by {
      assert k * n - n * (m / n) == (k - m / n) * n;
    }
    SmallMultipleIsZero(d, n);
  }

  /** The only multiple of `n` in [0, n) is 0. */
  lemma SmallMultipleIsZero(d: int, n: int)
    requires n > 0 && 0 <= d * n < n
    ensures d == 0
  {
    if d > 0 {
      MulMonotone(n, 1, d);
    } else if d < 0 {
      MulMonotone(n, d, -1);
    }
  }

  /** `(i + 1) % n`: the slide after `i`, wrapping from the last to the first. */
  function Advance(i: int, n: int): (r: int)
    requires n > 0
    ensures 0 <= i < n ==> 0 <= r < n && r == (if i == n - 1 then 0 else i + 1)
    ensures i >= -1 ==> r == (i + 1) % n
  {
    JsRem(i + 1, n)
  }

  /** `(i - 1 + n) % n`: the slide before `i`, wrapping from the first to the last. */
  function Retreat(i: int, n: int): (r: int)
    requires n > 0
    ensures 0 <= i < n ==> 0 <= r < n && r == (if i == 0 then n - 1 else i - 1)
    ensures i >= 1 - n ==> r == (i - 1 + n) % n
  {
    JsRem(i - 1 + n, n)
  }

  /** On in-range slides, "previous" undoes "next" and "next" undoes "previous". */
  lemma AdvanceRetreatInverse(i: int, n: int)
    requires 0 <= i < n
    ensures Retreat(Advance(i, n), n) == i
    ensures Advance(Retreat(i, n), n) == i
  {
  }

  datatype Carousel = Carousel(currentSlide: int, isAutoPlaying: bool)

  /** The carousel opens on the first slide with auto-play on. */
  function InitialCarousel(): (c: Carousel)
    ensures c.currentSlide == 0 && c.isAutoPlaying
  {
    Carousel(0, true)
  }

  predicate Valid(c: Carousel, n: int) {
    0 <= c.currentSlide < n
  }

  /** The "next" button: advance and stop auto-play. */
  function NextSlide(c: Carousel, n: int): (r: Carousel)
    requires n > 0
    ensures !r.isAutoPlaying
    ensures r.currentSlide == Advance(c.currentSlide, n)
  {
    Carousel(Advance(c.currentSlide, n), false)
  }

  /** The "previous" button: step back and stop auto-play. */
  function PrevSlide(c: Carousel, n: int): (r: Carousel)
    requires n > 0
    ensures !r.isAutoPlaying
    ensures r.currentSlide == Retreat(c.currentSlide, n)
  {
    Carousel(Retreat(c.currentSlide, n), false)
  }

  /** A click on dot `k` (or on the current slide, `k` being the current index): jump there and stop auto-play. */
  function SlideClick(c: Carousel, k: int): (r: Carousel)
    ensures r.currentSlide == k && !r.isAutoPlaying
  {
    Carousel(k, false)
  }

  /** One firing of the auto-advance timer, which exists only while auto-play is on. */
  function Tick(c: Carousel, n: int): (r: Carousel)
    requires n > 0
    ensures r.isAutoPlaying == c.isAutoPlaying
    ensures c.isAutoPlaying ==> r.currentSlide == Advance(c.currentSlide, n)
    ensures !c.isAutoPlaying ==> r == c
  {
    if c.isAutoPlaying then c.(currentSlide := Advance(c.currentSlide, n)) else c
  }

  /** The dot row: dot `k` is highlighted iff it is the current slide. */
  function ActiveDots(c: Carousel, n: nat): (r: seq<bool>)
    ensures |r| == n
    ensures Valid(c, n) ==> r[c.currentSlide]
    ensures forall k :: 0 <= k < n && r[k] ==> k == c.currentSlide
  {
    seq(n, k => k == c.currentSlide)
  }

  /** `k` applications of `Advance`. */
  function AdvanceTimes(i: int, n: int, k: nat): int
    requires n > 0
  {
    if k == 0 then i else Advance(AdvanceTimes(i, n, k - 1), n)
  }

  /** Advancing `a` times and then `b` times is advancing `a + b` times. */
  lemma {:induction false} AdvanceTimesAdd(i: int, n: int, a: nat, b: nat)
    requires n > 0
    ensures AdvanceTimes(AdvanceTimes(i, n, a), n, b) == AdvanceTimes(i, n, a + b)
  {
    if b > 0 {
      AdvanceTimesAdd(i, n, a, b - 1);
    }
  }

  /** Before reaching the end, advancing `k` times from `i` just adds `k`. */
  lemma {:induction false} AdvanceTimesNoWrap(i: int, n: int, k: nat)
    requires 0 <= i && i + k < n
    ensures AdvanceTimes(i, n, k) == i + k
  {
    if k > 0 {
      AdvanceTimesNoWrap(i, n, k - 1);
    }
  }

  /** `n` steps of "next", or `n` timer ticks, bring any in-range slide back to itself. */
  lemma FullCycleReturns(i: int, n: int)
    requires 0 <= i < n
    ensures AdvanceTimes(i, n, n) == i
  {
    AdvanceTimesNoWrap(i, n, n - 1 - i);
    assert AdvanceTimes(i, n, n - i) == 0;
    AdvanceTimesNoWrap(0, n, i);
    AdvanceTimesAdd(i, n, n - i, i);
  }

  /** A user or timer event. */
  datatype CarouselEvent = PressNext | PressPrev | ClickDot(index: int) | TimerTick

  predicate ValidEvent(e: CarouselEvent, n: int) {
    e.ClickDot? ==> 0 <= e.index < n
  }

  /** One event. Only a timer firing leaves auto-play on, and only when it was on. */
  function Step(c: Carousel, e: CarouselEvent, n: int): (r: Carousel)
    requires n > 0
    ensures r.isAutoPlaying <==> e.TimerTick? && c.isAutoPlaying
    ensures Valid(c, n) && ValidEvent(e, n) ==> Valid(r, n)
  {
    match e
    case PressNext => NextSlide(c, n)
    case PressPrev => PrevSlide(c, n)
    case ClickDot(k) => SlideClick(c, k)
    case TimerTick => Tick(c, n)
  }

  /** A sequence of events applied in order; auto-play survives only a run of timer firings that starts with it on. */
  function Run(c: Carousel, events: seq<CarouselEvent>, n: int): (r: Carousel)
    requires n > 0
    ensures r.isAutoPlaying <==> c.isAutoPlaying && forall j :: 0 <= j < |events| ==> events[j].TimerTick?
    decreases |events|
  {
    if |events| == 0 then c else Run(Step(c, events[0], n), events[1..], n)
  }

  /** Every sequence of events on real dots keeps the slide index in range. */
  lemma {:induction false} RunStaysValid(c: Carousel, events: seq<CarouselEvent>, n: int)
    requires n > 0 && Valid(c, n)
    requires forall j :: 0 <= j < |events| ==> ValidEvent(events[j], n)
    ensures Valid(Run(c, events, n), n)
    decreases |events|
  {
    if |events| > 0 {
      RunStaysValid(Step(c, events[0], n), events[1..], n);
    }
  }

  /** Nothing turns auto-play back on: once it is off, it stays off. */
  lemma {:induction false} AutoPlayStaysOff(c: Carousel, events: seq<CarouselEvent>, n: int)
    requires n > 0 && !c.isAutoPlaying
    ensures !Run(c, events, n).isAutoPlaying
    decreases |events|
  {
    if |events| > 0 {
      AutoPlayStaysOff(Step(c, events[0], n), events[1..], n);
    }
  }

  /** While only the timer fires, auto-play stays on and the slide advances once per tick. */
  lemma {:induction false} TicksAdvance(c: Carousel, k: nat, n: int)
    requires n > 0 && c.isAutoPlaying
    ensures Run(c, seq(k, _ => TimerTick), n) == Carousel(AdvanceTimes(c.currentSlide, n, k), true)
    decreases k
  {
    if k > 0 {
      var c' := Tick(c, n);
      assert seq(k, _ => TimerTick)[1..] == seq(k - 1, _ => TimerTick);
      TicksAdvance(c', k - 1, n);
      AdvanceTimesAdd(c.currentSlide, n, 1, k - 1);
    }
  }

  /** Pressing "next" `k >= 1` times stops auto-play and advances the slide `k` times. */
  lemma {:induction false} NextPressesAdvance(c: Carousel, k: nat, n: int)
    requires n > 0 && k >= 1
    ensures Run(c, seq(k, _ => PressNext), n) == Carousel(AdvanceTimes(c.currentSlide, n, k), false)
    decreases k
  {
    var c' := NextSlide(c, n);
    assert seq(k, _ => PressNext)[1..] == seq(k - 1, _ => PressNext);
    if k > 1 {
      NextPressesAdvance(c', k - 1, n);
    }
    AdvanceTimesAdd(c.currentSlide, n, 1, k - 1);
  }

  /** Starting from the initial carousel, `n` ticks come back to the first slide with auto-play still on. */
  lemma FullAutoPlayCycle(n: int)
    requires n > 0
    ensures Run(InitialCarousel(), seq(n, _ => TimerTick), n) == InitialCarousel()
  {
    TicksAdvance(InitialCarousel(), n, n);
    FullCycleReturns(0, n);
  }

  /** With the five articles, five ticks from the start show the first article again. */
  lemma FiveTicksReturnToFirstArticle()
    ensures Run(InitialCarousel(), seq(ArticleCount, _ => TimerTick), ArticleCount).currentSlide == 0
  {
    FullAutoPlayCycle(ArticleCount);
  }
}
