/**
 * The hero section's autoplaying background: `activeIndex` starts at 0 and
 * every tick of the interval advances it to `(i + 1) % n` over the n = 3
 * carousel images; the image at position `activeIndex` is the one shown.
 */
module HeroCarousel {

  /** The number of carousel images. */
  const ImageCount := 3

  /** One tick, `(i + 1) % n`: the next position, wrapping from the last to the first. */
  function Next(i: nat, n: nat): (j: nat)
    requires n > 0
    ensures j < n
    ensures i + 1 < n ==> j == i + 1
    ensures i + 1 == n ==> j == 0
  {
    (i + 1) % n
  }

  /** The position after `k` ticks from `i`. */
  function Advance(i: nat, n: nat, k: nat): (j: nat)
    requires n > 0
    ensures k > 0 ==> j < n
  {
    if k == 0 then i else Next(Advance(i, n, k - 1), n)
  }

  /** Without reaching the end, `k` ticks from `i` move forward by `k`. */
  lemma {:induction false} AdvanceWithinRange(i: nat, n: nat, k: nat)
    requires i + k < n
    ensures Advance(i, n, k) == i + k
  {
    if k > 0 {
      AdvanceWithinRange(i, n, k - 1);
    }
  }

  /** From an in-range `i`, the `n - i`-th tick wraps to the first image. */
  lemma AdvanceWraps(i: nat, n: nat)
    requires i < n
    ensures Advance(i, n, n - i) == 0
  {
    AdvanceWithinRange(i, n, n - i - 1);
  }

  /** After n ticks every in-range position is back where it started. */
  lemma AdvanceCycle(i: nat, n: nat)
    requires i < n
    ensures Advance(i, n, n) == i
  {
    AdvanceWraps(i, n);
    AdvanceAdds(i, n, n - i, i);
    AdvanceWithinRange(0, n, i);
  }

  /** Ticks compose: `j` ticks and then `k` more are `j + k` ticks. */
  lemma {:induction false} AdvanceAdds(i: nat, n: nat, j: nat, k: nat)
    requires n > 0
    ensures Advance(Advance(i, n, j), n, k) == Advance(i, n, j + k)
  {
    if k > 0 {
      AdvanceAdds(i, n, j, k - 1);
    }
  }

  /** For each image position, whether it is the one shown (`index === activeIndex`). */
  function ShownFlags(active: nat, n: nat): (flags: seq<bool>)
    ensures |flags| == n
    ensures forall k :: 0 <= k < n ==> (flags[k] <==> k == active)
  {
    seq(n, k => k == active)
  }

  /** With the index in range, exactly one image, the one at the index, is shown. */
  lemma ExactlyOneImageShown(active: nat, n: nat)
    requires active < n
    ensures var flags := ShownFlags(active, n);
      (set k | 0 <= k < n && flags[k]) == {active}
  {
    var flags := ShownFlags(active, n);
    assert flags[active];
  }

  /** The `activeIndex` state of the hero section. */
  class Carousel {
    var activeIndex: nat

    ghost predicate Valid()
      reads this
    {
      activeIndex < ImageCount
    }

    /** `useState(0)`. */
    constructor ()
      ensures activeIndex == 0 && Valid()
    {
      activeIndex := 0;
    }

    /** One interval tick: `setActiveIndex(prev => (prev + 1) % carouselImages.length)`. */
    method Tick()
      requires Valid()
      modifies this
      ensures activeIndex == Next(old(activeIndex), ImageCount)
      ensures Valid()
    {
      activeIndex := (activeIndex + 1) % ImageCount;
    }
  }

  /** From the initial state, any number of ticks keeps the index in range and equal to the ticks taken modulo n. */
  method RunTicks(c: Carousel, k: nat)
    requires c.Valid() && c.activeIndex == 0
    modifies c
    ensures c.Valid()
    ensures c.activeIndex == Advance(0, ImageCount, k) == k % ImageCount
  {
    var t := 0;
    while t < k
      invariant 0 <= t <= k
      invariant c.Valid()
      invariant c.activeIndex == Advance(0, ImageCount, t) == t % ImageCount
    {
      c.Tick();
      t := t + 1;
    }
  }
}
