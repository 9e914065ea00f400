/** The image slider of js/script.js: a current index, the slides and their
    indicator dots (each with an "active" class), and the autoplay interval.
    Time itself is not modelled: a firing of the interval is the `OnTick`
    event, and `setInterval` hands out fresh handles from a counter. */
module Slider {
  import opened Wrappers
  import opened Marks

  /** A positive multiple of `n` is at least `n`. */
  lemma {:induction false} MulAtLeast(d: int, n: int)
    requires d >= 1 && n > 0
    ensures d * n >= n
  {
    if d > 1 {
      MulAtLeast(d - 1, n);
      assert d * n == (d - 1) * n + n;
    }
  }

  /** Euclidean remainders are unique: any decomposition `q * n + r` with
      `0 <= r < n` gives Dafny's `a % n`. */
  lemma ModUnique(a: int, q: int, n: int, r: int)
    requires n > 0 && a == q * n + r && 0 <= r < n
    ensures a % n == r
  {
    var q', r' := a / n, a % n;
    assert a == q' * n + r';
    assert (q - q') * n == r' - r;
    if q - q' >= 1 {
      MulAtLeast(q - q', n);
    } else if q' - q >= 1 {
      MulAtLeast(q' - q, n);
    }
  }

  /** Adding `n` does not change the remainder. */
  lemma ModShift(x: int, n: int)
    requires n > 0
    ensures (x + n) % n == x % n
  {
    var q := x / n;
    assert x + n == (q + 1) * n + x % n;
    ModUnique(x + n, q + 1, n, x % n);
  }

  /** JavaScript's `%` on integers: the remainder carries the sign of the
      dividend (truncating division), unlike Dafny's Euclidean `%`. It still
      differs from the dividend by a multiple of `n`. */
  function JsRem(a: int, n: int): (r: int)
    requires n > 0
    ensures a >= 0 ==> 0 <= r < n
    ensures a < 0 ==> -n < r <= 0
    ensures (a - r) % n == 0
  {
    if a >= 0 then
      var q := a / n;
      assert a - a % n == q * n + 0;
      ModUnique(a - a % n, q, n, 0);
      a % n
    else
      var q := (-a) / n;
      assert a + (-a) % n == (-q) * n + 0;
      ModUnique(a + (-a) % n, -q, n, 0);
      -((-a) % n)
  }

  /** Index shown by "next": `(current + 1) % totalSlides`. From any index
      that is not negative, even one past the last slide, it is the
      successor taken modulo the slide count. */
  function NextIndex(c: int, n: int): (r: int)
    requires n > 0
    ensures c >= 0 ==> 0 <= r < n && r == (c + 1) % n
    ensures 0 <= c < n ==> r == if c == n - 1 then 0 else c + 1
  {
    JsRem(c + 1, n)
  }

  /** Index shown by "previous": `(current - 1 + totalSlides) % totalSlides`.
      From any index that is not negative it is the predecessor taken
      modulo the slide count. */
  function PrevIndex(c: int, n: int): (r: int)
    requires n > 0
    ensures c >= 0 ==> 0 <= r < n && r == (c - 1) % n
    ensures 0 <= c < n ==> r == if c == 0 then n - 1 else c - 1
  {
    ModShift(c - 1, n);
    JsRem(c - 1 + n, n)
  }

  /** Values after an out-of-range `goToSlide`, as JavaScript computes them. */
  lemma OutOfRangeExamples()
    ensures NextIndex(4, 3) == 2 && PrevIndex(5, 3) == 1
  {
  }

  /** For an index in range, "previous" undoes "next" and vice versa. */
  lemma NextPrevInverse(c: int, n: int)
    requires 0 <= c < n
    ensures PrevIndex(NextIndex(c, n), n) == c
    ensures NextIndex(PrevIndex(c, n), n) == c
  {
  }

  /** The index after `k` advances from `c`. */
  function AdvanceTimes(c: int, n: int, k: nat): (r: int)
    requires n > 0
    ensures c >= 0 && k > 0 ==> 0 <= r < n
  {
    if k == 0 then c else NextIndex(AdvanceTimes(c, n, k - 1), n)
  }

  /** Up to a full cycle, `k` advances add `k` and wrap once. */
  lemma {:induction false} AdvanceTimesWithinCycle(c: int, n: int, k: nat)
    requires 0 <= c < n && k <= n
    ensures AdvanceTimes(c, n, k) == if c + k < n then c + k else c + k - n
  {
    if k > 0 {
      AdvanceTimesWithinCycle(c, n, k - 1);
    }
  }

  /** Advancing `totalSlides` times returns to the starting slide. */
  lemma FullCycle(c: int, n: int)
    requires 0 <= c < n
    ensures AdvanceTimes(c, n, n) == c
  {
    AdvanceTimesWithinCycle(c, n, n);
  }

  /** After any index stored by `goToSlide`, however far out of range, one
      "next" or "previous" brings the index back into range, as long as the
      stored index is not negative. */
  lemma NavigationRecovers(c: int, n: int)
    requires n > 0 && c >= n
    ensures 0 <= NextIndex(c, n) < n && 0 <= PrevIndex(c, n) < n
  {
  }

  /** A negative index (never produced by the dots, whose indices start at
      zero) stays out of range after "next": JavaScript's `%` keeps the sign. */
  lemma NegativeIndexStaysNegative(n: nat)
    requires n > 2
    ensures NextIndex(-3, n) == -2
  {
  }

  class Controller {
    /** `currentSlide`: stored without a bounds check by `goToSlide`. */
    var current: int
    /** "active" flags of the slides and the dots. */
    const slides: array<bool>
    const dots: array<bool>
    /** `slideInterval`: the handle last returned by `setInterval`, if any. */
    var interval: Option<nat>
    /** Intervals scheduled and not yet cleared. */
    var liveTimers: set<nat>
    /** Next handle `setInterval` returns. */
    var nextHandle: nat
    /** Whether `initSlider` installed the click, hover and autoplay handlers. */
    const wired: bool
    /** Whether the page has a `.slider-container` to hover. */
    const hoverable: bool

    ghost predicate Valid()
      reads this
    {
      slides != dots &&
      wired == (slides.Length > 0) &&
      (hoverable ==> wired) &&
      (liveTimers != {} ==> wired) &&
      (forall h :: h in liveTimers ==> interval == Some(h) && h < nextHandle)
    }

    /** The autoplay interval is never scheduled twice. */
    lemma AtMostOneTimer()
      requires Valid()
      ensures |liveTimers| <= 1
      ensures liveTimers != {} ==> interval.Some? && liveTimers == {interval.value}
    {
      if liveTimers != {} {
        var h :| h in liveTimers;
        assert liveTimers == {h};
      }
    }

    /** `initSlider`: the slide and dot lists are captured with the classes
        the markup gave them; with no slides nothing else happens, otherwise
        the handlers are installed and autoplay starts. */
    constructor Init(slideMarks: seq<bool>, dotMarks: seq<bool>, hasContainer: bool)
      ensures Valid() && fresh(slides) && fresh(dots)
      ensures slides[..] == slideMarks && dots[..] == dotMarks
      ensures current == 0 && wired == (|slideMarks| > 0)
      ensures hoverable == (wired && hasContainer)
      ensures wired ==> interval == Some(0) && liveTimers == {0}
      ensures !wired ==> interval == None && liveTimers == {}
    {
      current := 0;
      slides := new bool[|slideMarks|](i requires 0 <= i < |slideMarks| => slideMarks[i]);
      dots := new bool[|dotMarks|](i requires 0 <= i < |dotMarks| => dotMarks[i]);
      interval := None;
      liveTimers := {};
      nextHandle := 0;
      wired := |slideMarks| > 0;
      hoverable := |slideMarks| > 0 && hasContainer;
      new;
      if wired {
        StartAutoPlay();
      }
    }

    /** `startAutoPlay`: clear the stored interval, then schedule a new one. */
    method StartAutoPlay()
      requires Valid() && wired
      modifies this
      ensures Valid()
      ensures interval == Some(old(nextHandle)) && liveTimers == {old(nextHandle)}
      ensures nextHandle == old(nextHandle) + 1 && current == old(current)
    {
      if interval.Some? {
        liveTimers := liveTimers - {interval.value};
      }
      assert liveTimers == {};
      interval := Some(nextHandle);
      liveTimers := liveTimers + {nextHandle};
      nextHandle := nextHandle + 1;
    }

    /** `updateSlider`: clear "active" everywhere, mark the slide and dot at
        the current index when they exist, and restart autoplay. */
    method UpdateSlider()
      requires Valid()
      modifies this, slides, dots
      ensures Valid()
      ensures current == old(current)
      ensures slides.Length == 0 ==>
        unchanged(this) && slides[..] == old(slides[..]) && dots[..] == old(dots[..])
      ensures slides.Length > 0 ==>
        slides[..] == OnlyAt(slides.Length, current) &&
        dots[..] == OnlyAt(dots.Length, current) &&
        interval == Some(old(nextHandle)) && liveTimers == {old(nextHandle)} &&
        nextHandle == old(nextHandle) + 1
    {
      if slides.Length == 0 {
        return;
      }
      for i := 0 to slides.Length
        invariant forall k :: 0 <= k < i ==> !slides[k]
        invariant dots[..] == old(dots[..]) && unchanged(this)
      {
        slides[i] := false;
      }
      for i := 0 to dots.Length
        invariant forall k :: 0 <= k < i ==> !dots[k]
        invariant forall k :: 0 <= k < slides.Length ==> !slides[k]
        invariant unchanged(this)
      {
        dots[i] := false;
      }
      if 0 <= current < slides.Length {
        slides[current] := true;
      }
      if 0 <= current < dots.Length {
        dots[current] := true;
      }
      assert slides[..] == OnlyAt(slides.Length, current);
      assert dots[..] == OnlyAt(dots.Length, current);
      StartAutoPlay();
    }

    /** `nextSlide`. */
    method NextSlide()
      requires Valid()
      modifies this, slides, dots
      ensures Valid()
      ensures slides.Length == 0 ==>
        unchanged(this) && slides[..] == old(slides[..]) && dots[..] == old(dots[..])
      ensures slides.Length > 0 ==>
        current == NextIndex(old(current), slides.Length) &&
        slides[..] == OnlyAt(slides.Length, current) &&
        dots[..] == OnlyAt(dots.Length, current) &&
        liveTimers == {old(nextHandle)} && interval == Some(old(nextHandle))
    {
      if slides.Length == 0 {
        return;
      }
      current := NextIndex(current, slides.Length);
      UpdateSlider();
    }

    /** `prevSlide`. */
    method PrevSlide()
      requires Valid()
      modifies this, slides, dots
      ensures Valid()
      ensures slides.Length == 0 ==>
        unchanged(this) && slides[..] == old(slides[..]) && dots[..] == old(dots[..])
      ensures slides.Length > 0 ==>
        current == PrevIndex(old(current), slides.Length) &&
        slides[..] == OnlyAt(slides.Length, current) &&
        dots[..] == OnlyAt(dots.Length, current) &&
        liveTimers == {old(nextHandle)} && interval == Some(old(nextHandle))
    {
      if slides.Length == 0 {
        return;
      }
      current := PrevIndex(current, slides.Length);
      UpdateSlider();
    }

    /** `goToSlide`: the index is stored as given. */
    method GoToSlide(index: int)
      requires Valid()
      modifies this, slides, dots
      ensures Valid()
      ensures slides.Length == 0 ==>
        unchanged(this) && slides[..] == old(slides[..]) && dots[..] == old(dots[..])
      ensures slides.Length > 0 ==>
        current == index &&
        slides[..] == OnlyAt(slides.Length, index) &&
        dots[..] == OnlyAt(dots.Length, index) &&
        liveTimers == {old(nextHandle)} && interval == Some(old(nextHandle))
    {
      if slides.Length == 0 {
        return;
      }
      current := index;
      UpdateSlider();
    }

    /** A click on dot `i`: its handler exists only when the slider is wired. */
    method OnDotClick(i: nat)
      requires Valid() && i < dots.Length
      modifies this, slides, dots
      ensures Valid()
      ensures !wired ==>
        unchanged(this) && slides[..] == old(slides[..]) && dots[..] == old(dots[..])
      ensures wired ==>
        current == i &&
        slides[..] == OnlyAt(slides.Length, i) && dots[..] == OnlyAt(dots.Length, i) &&
        liveTimers == {old(nextHandle)}
    {
      if wired {
        GoToSlide(i);
      }
    }

    /** `mouseenter` on the container: the stored interval is cleared. */
    method OnMouseEnter()
      requires Valid()
      modifies this
      ensures Valid()
      ensures !hoverable ==> unchanged(this)
      ensures hoverable ==>
        liveTimers == {} && interval == old(interval) &&
        current == old(current) && nextHandle == old(nextHandle)
    {
      if hoverable {
        if interval.Some? {
          liveTimers := liveTimers - {interval.value};
        }
      }
    }

    /** `mouseleave` on the container: autoplay restarts. */
    method OnMouseLeave()
      requires Valid()
      modifies this
      ensures Valid()
      ensures !hoverable ==> unchanged(this)
      ensures hoverable ==>
        liveTimers == {old(nextHandle)} && current == old(current)
    {
      if hoverable {
        StartAutoPlay();
      }
    }

    /** The scheduled interval fires and runs `nextSlide`; a cleared interval
        never fires, so after `mouseenter` ticks change nothing. */
    method OnTick()
      requires Valid()
      modifies this, slides, dots
      ensures Valid()
      ensures old(liveTimers) == {} ==>
        unchanged(this) && slides[..] == old(slides[..]) && dots[..] == old(dots[..])
      ensures old(liveTimers) != {} ==>
        slides.Length > 0 &&
        current == NextIndex(old(current), slides.Length) &&
        slides[..] == OnlyAt(slides.Length, current) &&
        dots[..] == OnlyAt(dots.Length, current) &&
        liveTimers == {old(nextHandle)}
    {
      if liveTimers != {} {
        NextSlide();
      }
    }
  }

  /** A hovered slider still restarts its autoplay on every manual
      navigation, because `updateSlider` calls `startAutoPlay`. */
  method HoverThenNavigate(c: Controller)
    requires c.Valid() && c.hoverable
    modifies c, c.slides, c.dots
    ensures c.Valid() && |c.liveTimers| == 1
  {
    c.OnMouseEnter();
    c.NextSlide();
  }
}
