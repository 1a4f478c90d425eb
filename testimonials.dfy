/**
 * The home page testimonial slider (src/components/home/testimonials-slider.tsx):
 * a window of three cards over a fixed list, paged forwards and backwards
 * with wrap-around at both ends.
 */
module Testimonials {

  /** One card (quote text and colours are presentation and left out). */
  datatype Testimonial = Testimonial(id: nat, author: string, role: string, initials: string)

  /** The nine testimonials the slider shows, in order. */
  const AllTestimonials: seq<Testimonial> := [
    Testimonial(1, "Sarah Johnson", "CTO, FinTech Solutions", "SJ"),
    Testimonial(2, "Michael Chen", "Founder, ShopEasy", "MC"),
    Testimonial(3, "Emily Davis", "Director, HealthTech Inc.", "ED"),
    Testimonial(4, "Robert Chang", "VP, Global Logistics", "RC"),
    Testimonial(5, "Amanda Williams", "Head of Digital, Prime Bank", "AW"),
    Testimonial(6, "Thomas Brown", "Ops Manager, BuildRight", "TB"),
    Testimonial(7, "Jessica Lee", "CMO, Vogue Fashion", "JL"),
    Testimonial(8, "David Wilson", "Product Lead, SaaS Flow", "DW"),
    Testimonial(9, "Ryan Martinez", "Founder, Creative Agency", "RM")
  ]

  /** Cards per page. */
  const PageSize: nat := 3

  /** `nextSlide`'s new start for a list of `n` items. */
  function NextStart(prev: int, n: nat): int {
    if prev + PageSize >= n then 0 else prev + PageSize
  }

  /** `prevSlide`'s new start for a list of `n` items. */
  function PrevStart(prev: int, n: nat): int {
    if prev - PageSize < 0 then n - PageSize else prev - PageSize
  }

  /** JavaScript's `Array.prototype.slice(begin, end)` on integer arguments:
      negative positions count from the end, and both are clamped to the list. */
  function JsSlice<T>(s: seq<T>, begin: int, end: int): seq<T> {
    var b := if begin < 0 then (if |s| + begin < 0 then 0 else |s| + begin) else (if begin > |s| then |s| else begin);
    var e := if end < 0 then (if |s| + end < 0 then 0 else |s| + end) else (if end > |s| then |s| else end);
    if b < e then s[b..e] else []
  }

  /** The cards on screen: `testimonials.slice(startIndex, startIndex + 3)`. */
  function Window<T>(items: seq<T>, start: int): seq<T> {
    JsSlice(items, start, start + PageSize)
  }

  /** The window is the contiguous run of `min(3, n - start)` cards from `start`. */
  lemma WindowContents<T>(items: seq<T>, start: int)
    requires 0 <= start < |items|
    ensures var w := Window(items, start);
      && |w| == (if |items| - start < 3 then |items| - start else 3)
      && forall k :: 0 <= k < |w| ==> w[k] == items[start + k]
  {
  }

  /** For at least three items the start index never leaves `[0, n)`. */
  lemma StepsStayInRange(p: int, n: nat)
    requires n >= 3 && 0 <= p < n
    ensures 0 <= NextStart(p, n) < n
    ensures 0 <= PrevStart(p, n) < n
  {
  }

  /** When the list length and the start are multiples of three, each step
      keeps the start a multiple of three. */
  lemma StepsKeepAlignment(p: int, n: nat)
    requires n >= 3 && n % 3 == 0 && 0 <= p < n && p % 3 == 0
    ensures NextStart(p, n) % 3 == 0 && PrevStart(p, n) % 3 == 0
  {
  }

  /** When the list length and the start are multiples of three, going back
      undoes going forward and going forward undoes going back. */
  lemma StepsAreInverse(p: int, n: nat)
    requires n >= 3 && n % 3 == 0 && 0 <= p < n && p % 3 == 0
    ensures PrevStart(NextStart(p, n), n) == p
    ensures NextStart(PrevStart(p, n), n) == p
  {
    if p + 3 >= n {
      assert p == n - 3;
    }
    if p - 3 < 0 {
      assert p == 0;
    }
  }

  /** With a length that is not a multiple of three going back does not undo
      going forward: from start 9 of 10 cards, forward wraps to 0 and back
      lands on 7. */
  lemma MisalignedNotInverse()
    ensures PrevStart(NextStart(9, 10), 10) == 7
  {
  }

  /** With the nine testimonials the start is always 0, 3 or 6. */
  lemma NineCardStarts(p: int)
    requires p == 0 || p == 3 || p == 6
    ensures var q := NextStart(p, |AllTestimonials|); q == 0 || q == 3 || q == 6
    ensures var q := PrevStart(p, |AllTestimonials|); q == 0 || q == 3 || q == 6
  {
  }

  /** Three forward steps from the first page of nine return to it. */
  lemma ThreeStepsRoundTrip()
    ensures NextStart(NextStart(NextStart(0, |AllTestimonials|), |AllTestimonials|), |AllTestimonials|) == 0
  {
  }

  /** The slider component: its `startIndex` state over a fixed list. */
  class TestimonialsSlider {
    const items: seq<Testimonial>
    var startIndex: int

    /** The start stays in range, and on a page boundary when the list
        splits into whole pages. */
    ghost predicate Valid()
      reads this
    {
      |items| >= 3 ==> 0 <= startIndex < |items| && (|items| % 3 == 0 ==> startIndex % 3 == 0)
    }

    constructor (items: seq<Testimonial>)
      ensures Valid()
      ensures this.items == items && startIndex == 0
    {
      this.items := items;
      startIndex := 0;
    }

    /** The cards on screen. */
    function Visible(): seq<Testimonial>
      reads this
    {
      Window(items, startIndex)
    }

    /** The right arrow. */
    method NextSlide()
      requires Valid()
      modifies this`startIndex
      ensures Valid()
      ensures startIndex == NextStart(old(startIndex), |items|)
    {
      if |items| >= 3 {
        StepsStayInRange(startIndex, |items|);
        if |items| % 3 == 0 {
          StepsKeepAlignment(startIndex, |items|);
        }
      }
      startIndex := if startIndex + PageSize >= |items| then 0 else startIndex + PageSize;
    }

    /** The left arrow. */
    method PrevSlide()
      requires Valid()
      modifies this`startIndex
      ensures Valid()
      ensures startIndex == PrevStart(old(startIndex), |items|)
    {
      if |items| >= 3 {
        StepsStayInRange(startIndex, |items|);
        if |items| % 3 == 0 {
          StepsKeepAlignment(startIndex, |items|);
        }
      }
      startIndex := if startIndex - PageSize < 0 then |items| - PageSize else startIndex - PageSize;
    }
  }
}
