/**
 The custom slide carousel (`class Carousel` in dist/js/main.js).

 Each slide and each navigation dot is an element whose class list is a
 `set<string>`; the carousel holds them in two arrays, in document order.
 The autoplay timer handle is reduced to the flag `timerRunning`.
 */
module Carousels {
  import opened Dom

  /** The hard-coded "prev" and "next" state classes, which depend on
      whether the container carries the `hero__carousel` class. */
  function PrevClassFor(isHero: bool): (c: string)
    ensures |c| > 6 && c[|c| - 6..] == "--prev"
    ensures isHero ==> "hero__" <= c
    ensures !isHero ==> "carousel__" <= c
    ensures c != NextClassFor(isHero)
  {
    if isHero then "hero__slide--prev" else "carousel__slide--prev"
  }

  function NextClassFor(isHero: bool): (c: string)
    ensures |c| > 6 && c[|c| - 6..] == "--next"
    ensures isHero ==> "hero__" <= c
    ensures !isHero ==> "carousel__" <= c
  {
    if isHero then "hero__slide--next" else "carousel__slide--next"
  }

  // ---------------------------------------------------------------------------
  // Index arithmetic
  // ---------------------------------------------------------------------------

  /** `(currentSlide + 1) % n`: the following slide, wrapping from the last to
      the first. The operands are never negative, so JavaScript's truncating
      `%` and Dafny's Euclidean `%` agree here. */
  function NextIndex(i: int, n: int): (r: int)
    requires 0 <= i < n
    ensures 0 <= r < n
    ensures i < n - 1 ==> r == i + 1
    ensures i == n - 1 ==> r == 0
  {
    (i + 1) % n
  }

  /** `(currentSlide - 1 + n) % n`: the preceding slide, wrapping from the
      first to the last. */
  function PrevIndex(i: int, n: int): (r: int)
    requires 0 <= i < n
    ensures 0 <= r < n
    ensures 0 < i ==> r == i - 1
    ensures i == 0 ==> r == n - 1
  {
    (i - 1 + n) % n
  }

  /** Stepping forward and then back (or back and then forward) restores the index. */
  lemma PrevUndoesNext(i: int, n: int)
    requires 0 <= i < n
    ensures PrevIndex(NextIndex(i, n), n) == i
    ensures NextIndex(PrevIndex(i, n), n) == i
  {
  }

  /** The index reached from `i` after `k` calls of `nextSlide`. */
  function NextTimes(i: int, k: nat, n: int): (r: int)
    requires 0 <= i < n
    ensures 0 <= r < n
    decreases k
  {
    if k == 0 then i else NextTimes(NextIndex(i, n), k - 1, n)
  }

  /** Running `a + b` steps is running `a` steps and then `b` more. */
  lemma {:induction false} NextTimesAdd(i: int, a: nat, b: nat, n: int)
    requires 0 <= i < n
    ensures NextTimes(i, a + b, n) == NextTimes(NextTimes(i, a, n), b, n)
    decreases a
  {
    if a > 0 {
      NextTimesAdd(NextIndex(i, n), a - 1, b, n);
      assert a + b - 1 == (a - 1) + b;
    }
  }

  /** Fewer than `n` steps from `i` land on `i + k`, wrapped once past the end. */
  lemma {:induction false} NextTimesBelow(i: int, k: nat, n: int)
    requires 0 <= i < n && k < n
    ensures NextTimes(i, k, n) == if i + k < n then i + k else i + k - n
    decreases k
  {
    if k > 0 {
      NextTimesBelow(NextIndex(i, n), k - 1, n);
    }
  }

  /** `n` calls of `nextSlide` bring a carousel of `n` slides back to where it started. */
  lemma NextTimesCycle(i: int, n: int)
    requires 0 <= i < n
    ensures NextTimes(i, n, n) == i
  {
    NextTimesAdd(i, n - 1, 1, n);
    NextTimesBelow(i, n - 1, n);
  }

  // ---------------------------------------------------------------------------
  // What `showSlide(index)` does to the class lists
  // ---------------------------------------------------------------------------

  /** The one state class slide `j` gets when slide `index` is shown. */
  function Designation(j: int, index: int, active: string, prev: string, next: string): string {
    if j == index then active else if j < index then prev else next
  }

  /** Slides are rendered for `index` when each one holds, of the three state
      classes, exactly the one its position calls for. */
  predicate RenderedSlides(ss: seq<set<string>>, index: int, active: string, prev: string, next: string) {
    forall j :: 0 <= j < |ss| ==> ss[j] * {active, prev, next} == {Designation(j, index, active, prev, next)}
  }

  /** Dots are rendered for `index` when exactly dot `index` holds the active class. */
  predicate RenderedDots(ds: seq<set<string>>, index: int, dotActive: string) {
    forall j :: 0 <= j < |ds| ==> (dotActive in ds[j] <==> j == index)
  }

  /** The slide loop of `showSlide`: remove the three state classes from every
      slide, then add the one for its position. */
  function ShownSlides(ss: seq<set<string>>, index: int, active: string, prev: string, next: string): (r: seq<set<string>>)
    ensures |r| == |ss|
    ensures RenderedSlides(r, index, active, prev, next)
    ensures forall j :: 0 <= j < |r| ==> r[j] - {active, prev, next} == ss[j] - {active, prev, next}
  {
    seq(|ss|, j requires 0 <= j < |ss| => ss[j] - {active, prev, next} + {Designation(j, index, active, prev, next)})
  }

  /** The dot loop of `showSlide`: `toggle(dotActiveClass, i === index)` on every dot. */
  function ShownDots(ds: seq<set<string>>, index: int, dotActive: string): (r: seq<set<string>>)
    ensures |r| == |ds|
    ensures RenderedDots(r, index, dotActive)
    ensures forall j :: 0 <= j < |r| ==> r[j] - {dotActive} == ds[j] - {dotActive}
  {
    seq(|ds|, j requires 0 <= j < |ds| => Toggle(ds[j], dotActive, j == index))
  }

  /** With three distinct state classes, a rendered carousel has slide
      `index` active and no other, slides before it "prev" and slides after
      it "next", each holding only that one of the three. */
  lemma {:induction false} RenderedMeans(ss: seq<set<string>>, index: int, active: string, prev: string, next: string, j: int)
    requires RenderedSlides(ss, index, active, prev, next)
    requires active != prev && active != next && prev != next
    requires 0 <= j < |ss|
    ensures active in ss[j] <==> j == index
    ensures prev in ss[j] <==> j < index
    ensures next in ss[j] <==> j > index
  {
    var d := Designation(j, index, active, prev, next);
    assert ss[j] * {active, prev, next} == {d};
    assert active in ss[j] <==> active in ss[j] * {active, prev, next};
    assert prev in ss[j] <==> prev in ss[j] * {active, prev, next};
    assert next in ss[j] <==> next in ss[j] * {active, prev, next};
  }

  /** Exactly one slide carries the active class: the set of active slides is `{index}`. */
  lemma ExactlyOneActiveSlide(ss: seq<set<string>>, index: int, active: string, prev: string, next: string)
    requires RenderedSlides(ss, index, active, prev, next)
    requires active != prev && active != next && prev != next
    requires 0 <= index < |ss|
    ensures (set j | 0 <= j < |ss| && active in ss[j]) == {index}
  {
    forall j | 0 <= j < |ss|
      ensures active in ss[j] <==> j == index
    {
      RenderedMeans(ss, index, active, prev, next, j);
    }
  }

  /** At most one dot carries the active class. */
  lemma AtMostOneActiveDot(ds: seq<set<string>>, index: int, dotActive: string, j: int, k: int)
    requires RenderedDots(ds, index, dotActive)
    requires 0 <= j < |ds| && 0 <= k < |ds|
    requires dotActive in ds[j] && dotActive in ds[k]
    ensures j == k
  {
  }

  // ---------------------------------------------------------------------------
  // The carousel object
  // ---------------------------------------------------------------------------

  class Carousel {
    const slides: array<set<string>>
    const dots: array<set<string>>
    const activeClass: string
    const prevClass: string
    const nextClass: string
    const dotActiveClass: string
    /** `options.autoplayInterval` in milliseconds; zero or less disables autoplay. */
    const autoplayInterval: int

    var currentSlide: int
    var isPaused: bool
    /** Whether an interval timer is installed (`this.autoplayInterval` is not null). */
    var timerRunning: bool

    /** The carousel invariant. A carousel with slides always shows its
        current slide; one without slides was never initialised and holds
        its initial index. The timer is only ever started on a carousel with
        slides. */
    ghost predicate Valid()
      reads this, slides, dots
    {
      && Shape()
      && (slides.Length > 0 ==>
            && RenderedSlides(slides[..], currentSlide, activeClass, prevClass, nextClass)
            && RenderedDots(dots[..], currentSlide, dotActiveClass))
    }

    /** The part of the invariant that holds already before `init` renders
        the first slide. */
    ghost predicate Shape()
      reads this
    {
      && slides != dots
      && (slides.Length == 0 ==> currentSlide == 0 && !timerRunning)
      && (slides.Length > 0 ==> 0 <= currentSlide < slides.Length)
    }

    /** `new Carousel(container, options)` for a container whose slides and
        dots have the given class lists. With no slides the constructor stops
        before `init`; otherwise `init` shows slide 0 and starts autoplay when
        the interval is positive. */
    constructor (slideClasses: seq<set<string>>, dotClasses: seq<set<string>>, isHero: bool,
                 activeClass: string, dotActiveClass: string, autoplayInterval: int)
      ensures Valid() && fresh(slides) && fresh(dots)
      ensures this.activeClass == activeClass && this.dotActiveClass == dotActiveClass
      ensures prevClass == PrevClassFor(isHero) && nextClass == NextClassFor(isHero)
      ensures this.autoplayInterval == autoplayInterval
      ensures currentSlide == 0 && !isPaused
      ensures |slideClasses| == 0 ==> slides[..] == slideClasses && dots[..] == dotClasses && !timerRunning
      ensures |slideClasses| > 0 ==>
                && slides[..] == ShownSlides(slideClasses, 0, activeClass, PrevClassFor(isHero), NextClassFor(isHero))
                && dots[..] == ShownDots(dotClasses, 0, dotActiveClass)
                && timerRunning == (autoplayInterval > 0)
    {
      slides := new set<string>[|slideClasses|](i requires 0 <= i < |slideClasses| => slideClasses[i]);
      dots := new set<string>[|dotClasses|](i requires 0 <= i < |dotClasses| => dotClasses[i]);
      this.activeClass := activeClass;
      this.dotActiveClass := dotActiveClass;
      prevClass := PrevClassFor(isHero);
      nextClass := NextClassFor(isHero);
      this.autoplayInterval := autoplayInterval;
      currentSlide := 0;
      isPaused := false;
      timerRunning := false;
      new;
      assert slides[..] == slideClasses && dots[..] == dotClasses;
      if slides.Length > 0 {
        ShowSlide(0);
        if autoplayInterval > 0 {
          StartAutoplay();
        }
      }
    }

    /** `showSlide(index)`: an index outside `[0, n)` changes nothing;
        otherwise every slide and dot is re-rendered for `index` and
        `index` becomes the current slide. */
    method ShowSlide(index: int)
      requires Shape()
      modifies this`currentSlide, slides, dots
      ensures Shape()
      ensures old(Valid()) || 0 <= index < slides.Length ==> Valid()
      ensures !(0 <= index < slides.Length) ==>
                currentSlide == old(currentSlide) && slides[..] == old(slides[..]) && dots[..] == old(dots[..])
      ensures 0 <= index < slides.Length ==>
                && currentSlide == index
                && slides[..] == ShownSlides(old(slides[..]), index, activeClass, prevClass, nextClass)
                && dots[..] == ShownDots(old(dots[..]), index, dotActiveClass)
    {
      if index < 0 || index >= slides.Length {
        return;
      }
      ghost var ss := slides[..];
      ghost var ds := dots[..];
      var i := 0;
      while i < slides.Length
        modifies slides
        invariant 0 <= i <= slides.Length
        invariant forall j :: 0 <= j < i ==>
                    slides[j] == ss[j] - {activeClass, prevClass, nextClass} + {Designation(j, index, activeClass, prevClass, nextClass)}
        invariant forall j :: i <= j < slides.Length ==> slides[j] == ss[j]
      {
        var s := slides[i] - {activeClass} - {prevClass} - {nextClass};
        if i == index {
          s := s + {activeClass};
        } else if i < index {
          s := s + {prevClass};
        } else {
          s := s + {nextClass};
        }
        slides[i] := s;
        i := i + 1;
      }
      assert slides[..] == ShownSlides(ss, index, activeClass, prevClass, nextClass);
      var k := 0;
      while k < dots.Length
        modifies dots
        invariant 0 <= k <= dots.Length
        invariant forall j :: 0 <= j < k ==> dots[j] == Toggle(ds[j], dotActiveClass, j == index)
        invariant forall j :: k <= j < dots.Length ==> dots[j] == ds[j]
      {
        dots[k] := Toggle(dots[k], dotActiveClass, k == index);
        k := k + 1;
      }
      assert dots[..] == ShownDots(ds, index, dotActiveClass);
      currentSlide := index;
    }

    /** `nextSlide()`: show the following slide, wrapping after the last. */
    method NextSlide()
      requires Valid() && slides.Length > 0
      modifies this`currentSlide, slides, dots
      ensures Valid()
      ensures currentSlide == NextIndex(old(currentSlide), slides.Length)
      ensures slides[..] == ShownSlides(old(slides[..]), currentSlide, activeClass, prevClass, nextClass)
      ensures dots[..] == ShownDots(old(dots[..]), currentSlide, dotActiveClass)
    {
      ShowSlide(NextIndex(currentSlide, slides.Length));
    }

    /** `prevSlide()`: show the preceding slide, wrapping before the first. */
    method PrevSlide()
      requires Valid() && slides.Length > 0
      modifies this`currentSlide, slides, dots
      ensures Valid()
      ensures currentSlide == PrevIndex(old(currentSlide), slides.Length)
      ensures slides[..] == ShownSlides(old(slides[..]), currentSlide, activeClass, prevClass, nextClass)
      ensures dots[..] == ShownDots(old(dots[..]), currentSlide, dotActiveClass)
    {
      ShowSlide(PrevIndex(currentSlide, slides.Length));
    }

    /** `goToSlide(index)`: the range check is repeated here, so an index
        outside `[0, n)` is ignored silently. */
    method GoToSlide(index: int)
      requires Valid()
      modifies this`currentSlide, slides, dots
      ensures Valid()
      ensures !(0 <= index < slides.Length) ==>
                currentSlide == old(currentSlide) && slides[..] == old(slides[..]) && dots[..] == old(dots[..])
      ensures 0 <= index < slides.Length ==>
                && currentSlide == index
                && slides[..] == ShownSlides(old(slides[..]), index, activeClass, prevClass, nextClass)
                && dots[..] == ShownDots(old(dots[..]), index, dotActiveClass)
    {
      if index >= 0 && index < slides.Length {
        ShowSlide(index);
      }
    }

    /** The body of the interval callback: advance unless paused. */
    method AutoplayTick()
      requires Valid() && timerRunning
      modifies this`currentSlide, slides, dots
      ensures Valid()
      ensures old(isPaused) ==>
                currentSlide == old(currentSlide) && slides[..] == old(slides[..]) && dots[..] == old(dots[..])
      ensures !old(isPaused) ==>
                && currentSlide == NextIndex(old(currentSlide), slides.Length)
                && slides[..] == ShownSlides(old(slides[..]), currentSlide, activeClass, prevClass, nextClass)
                && dots[..] == ShownDots(old(dots[..]), currentSlide, dotActiveClass)
    {
      if !isPaused {
        NextSlide();
      }
    }

    /** `startAutoplay()`: clear any installed timer and install a new one. */
    method StartAutoplay()
      requires Valid() && slides.Length > 0
      modifies this`timerRunning
      ensures Valid() && timerRunning
    {
      if timerRunning {
        StopAutoplay();
      }
      timerRunning := true;
    }

    /** `stopAutoplay()`: clear the timer if one is installed. */
    method StopAutoplay()
      requires Valid()
      modifies this`timerRunning
      ensures Valid() && !timerRunning
    {
      if timerRunning {
        timerRunning := false;
      }
    }

    /** `restartAutoplay()`: with a positive interval, start the timer from
        zero; otherwise leave it as it is. */
    method RestartAutoplay()
      requires Valid() && slides.Length > 0
      modifies this`timerRunning
      ensures Valid()
      ensures timerRunning == (autoplayInterval > 0 || old(timerRunning))
    {
      if autoplayInterval > 0 {
        StopAutoplay();
        StartAutoplay();
      }
    }

    /** `pauseAutoplay()` (mouse enters the container): only `isPaused` changes. */
    method PauseAutoplay()
      modifies this`isPaused
      ensures isPaused
    {
      isPaused := true;
    }

    /** `resumeAutoplay()` (mouse leaves the container): only `isPaused` changes. */
    method ResumeAutoplay()
      modifies this`isPaused
      ensures !isPaused
    {
      isPaused := false;
    }

    /** `destroy()`: stop the timer. */
    method Destroy()
      requires Valid()
      modifies this`timerRunning
      ensures Valid() && !timerRunning
    {
      StopAutoplay();
    }

    /** Click on the "next" button: advance, then restart the timer. */
    method OnNextClick()
      requires Valid() && slides.Length > 0
      modifies this`currentSlide, this`timerRunning, slides, dots
      ensures Valid()
      ensures currentSlide == NextIndex(old(currentSlide), slides.Length)
      ensures slides[..] == ShownSlides(old(slides[..]), currentSlide, activeClass, prevClass, nextClass)
      ensures dots[..] == ShownDots(old(dots[..]), currentSlide, dotActiveClass)
      ensures timerRunning == (autoplayInterval > 0 || old(timerRunning))
    {
      NextSlide();
      RestartAutoplay();
    }

    /** Click on the "previous" button: step back, then restart the timer. */
    method OnPrevClick()
      requires Valid() && slides.Length > 0
      modifies this`currentSlide, this`timerRunning, slides, dots
      ensures Valid()
      ensures currentSlide == PrevIndex(old(currentSlide), slides.Length)
      ensures slides[..] == ShownSlides(old(slides[..]), currentSlide, activeClass, prevClass, nextClass)
      ensures dots[..] == ShownDots(old(dots[..]), currentSlide, dotActiveClass)
      ensures timerRunning == (autoplayInterval > 0 || old(timerRunning))
    {
      PrevSlide();
      RestartAutoplay();
    }

    /** Click on dot `d`: go to slide `d` (ignored when there is no such
        slide), then restart the timer. */
    method OnDotClick(d: nat)
      requires Valid() && slides.Length > 0 && d < dots.Length
      modifies this`currentSlide, this`timerRunning, slides, dots
      ensures Valid()
      ensures d >= slides.Length ==>
                currentSlide == old(currentSlide) && slides[..] == old(slides[..]) && dots[..] == old(dots[..])
      ensures d < slides.Length ==>
                && currentSlide == d
                && slides[..] == ShownSlides(old(slides[..]), d, activeClass, prevClass, nextClass)
                && dots[..] == ShownDots(old(dots[..]), d, dotActiveClass)
      ensures timerRunning == (autoplayInterval > 0 || old(timerRunning))
    {
      GoToSlide(d);
      RestartAutoplay();
    }
  }
}
