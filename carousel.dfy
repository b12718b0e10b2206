/** What the two slide carousels (src/pages/HomePage.tsx and
    src/pages/LandingPage.tsx) share: the list of active images they show
    and the modular next / previous index arithmetic. */
module Carousel {
  import opened Records
  import Seqs

  function IsActive(g: GalleryImage): bool { g.is_active }

  /** `images.filter(img => img.is_active)`. */
  function ActiveImages(images: seq<GalleryImage>): (r: seq<GalleryImage>)
    ensures Seqs.IsSubseq(r, images)
    ensures forall k :: 0 <= k < |r| ==> r[k].is_active
    ensures forall k :: 0 <= k < |images| && images[k].is_active ==> images[k] in r
  {
    Seqs.Filter(IsActive, images)
  }

  /** JavaScript's `a % n` for a positive `n`: the remainder takes the sign
      of `a`. */
  function JsRemainder(a: int, n: int): int
    requires n > 0
  {
    if a >= 0 then a % n else -((-a) % n)
  }

  /** `(i + 1) % n`. */
  function Next(i: int, n: int): int
    requires n > 0
  {
    JsRemainder(i + 1, n)
  }

  /** `(i - 1 + n) % n`. */
  function Prev(i: int, n: int): int
    requires n > 0
  {
    JsRemainder(i - 1 + n, n)
  }

  predicate InRange(i: int, n: int) { 0 <= i < n }

  /** Next moves one slide on and wraps from the last slide to the first. */
  lemma NextStep(i: int, n: int)
    requires n > 0 && InRange(i, n)
    ensures InRange(Next(i, n), n)
    ensures Next(i, n) == if i == n - 1 then 0 else i + 1
  {
    if i == n - 1 {
      assert i + 1 == n;
    } else {
      assert 0 <= i + 1 < n;
    }
  }

  /** Prev moves one slide back and wraps from the first slide to the last. */
  lemma PrevStep(i: int, n: int)
    requires n > 0 && InRange(i, n)
    ensures InRange(Prev(i, n), n)
    ensures Prev(i, n) == if i == 0 then n - 1 else i - 1
  {
    if i == 0 {
      assert 0 <= i - 1 + n < n;
    } else {
      assert n <= i - 1 + n < 2 * n;
      assert (i - 1 + n) % n == i - 1 by {
        assert i - 1 + n == 1 * n + (i - 1);
      }
    }
  }

  /** Next then Prev, and Prev then Next, come back to the same slide. */
  lemma NextPrevInverse(i: int, n: int)
    requires n > 0 && InRange(i, n)
    ensures Prev(Next(i, n), n) == i
    ensures Next(Prev(i, n), n) == i
  {
    NextStep(i, n);
    PrevStep(i, n);
    PrevStep(Next(i, n), n);
    NextStep(Prev(i, n), n);
  }
}
