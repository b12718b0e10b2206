/** The landing gallery of src/pages/LandingPage.tsx: the active hero
    images it shows and a slide index whose moves are locked out while a
    transition runs. The 500 ms timeout that ends a transition and the 5 s
    auto-advance are modelled as the events `EndTransition` and `TimerTick`.

    The interval is set up by an effect that runs again only when the index
    or the number of images changes, and it calls the `handleNext` of the
    render in which that happened. So a tick sees the transition flag of
    that render, `tickSeesTransitioning`, not the current one. */
module LandingPage {
  import opened Options
  import opened Records
  import Carousel
  import Database

  class LandingPageView {
    var currentIndex: int
    var isTransitioning: bool
    var images: seq<GalleryImage>
    var loading: bool
    /** The `isTransitioning` that the running interval's `handleNext` closed over. */
    var tickSeesTransitioning: bool

    /** The index names an image whenever there is one. */
    predicate Valid()
      reads this
    {
      0 <= currentIndex && (|images| > 0 ==> currentIndex < |images|)
    }

    constructor ()
      ensures currentIndex == 0 && !isTransitioning && images == [] && loading && !tickSeesTransitioning
      ensures Valid()
    {
      currentIndex, isTransitioning, images, loading := 0, false, [], true;
      tickSeesTransitioning := false;
    }

    /** The render after a state change: the interval's effect runs again,
        and closes over this render's flag, exactly when the index or the
        number of images changed. */
    method Rerender(prevIndex: int, prevCount: nat)
      modifies this`tickSeesTransitioning
      ensures tickSeesTransitioning == if currentIndex != prevIndex || |images| != prevCount then isTransitioning
                                       else old(tickSeesTransitioning)
    {
      if currentIndex != prevIndex || |images| != prevCount {
        tickSeesTransitioning := isTransitioning;
      }
    }

    /** `loadImages`: the active hero images; the read returns an empty list on
        error and does not throw. It runs once, on slide 0. */
    method LoadImages(db: Database.DatabaseService, readError: bool)
      modifies this`images, this`loading, this`tickSeesTransitioning
      ensures images == Carousel.ActiveImages(if readError then []
                                              else Database.GalleryQuery(db.landingImages, Some("hero")))
      ensures !loading
      ensures currentIndex == 0 ==> Valid()
      ensures tickSeesTransitioning == if |images| != old(|images|) then isTransitioning else old(tickSeesTransitioning)
    {
      var count := |images|;
      loading := true;
      var data := db.GetLandingPageImages(Some("hero"), readError);
      images := Carousel.ActiveImages(data);
      loading := false;
      Rerender(currentIndex, count);
    }

    /** A move is locked out while transitioning; otherwise it starts a transition. */
    predicate Locked()
      reads this
    {
      isTransitioning || |images| == 0
    }

    /** `handleNext`, as the Next button calls it (with this render's flag). */
    method HandleNext()
      requires Valid()
      modifies this`currentIndex, this`isTransitioning, this`tickSeesTransitioning
      ensures Valid()
      ensures old(Locked()) ==> && currentIndex == old(currentIndex) && isTransitioning == old(isTransitioning)
                                && tickSeesTransitioning == old(tickSeesTransitioning)
      ensures !old(Locked()) ==> isTransitioning && currentIndex == Carousel.Next(old(currentIndex), |images|)
      ensures !old(Locked()) ==> tickSeesTransitioning == (currentIndex != old(currentIndex) || old(tickSeesTransitioning))
    {
      if isTransitioning || |images| == 0 {
        return;
      }
      var prev := currentIndex;
      isTransitioning := true;
      Carousel.NextStep(currentIndex, |images|);
      currentIndex := Carousel.Next(currentIndex, |images|);
      Rerender(prev, |images|);
    }

    /** `handlePrev`. */
    method HandlePrev()
      requires Valid()
      modifies this`currentIndex, this`isTransitioning, this`tickSeesTransitioning
      ensures Valid()
      ensures old(Locked()) ==> && currentIndex == old(currentIndex) && isTransitioning == old(isTransitioning)
                                && tickSeesTransitioning == old(tickSeesTransitioning)
      ensures !old(Locked()) ==> isTransitioning && currentIndex == Carousel.Prev(old(currentIndex), |images|)
      ensures !old(Locked()) ==> tickSeesTransitioning == (currentIndex != old(currentIndex) || old(tickSeesTransitioning))
    {
      if isTransitioning || |images| == 0 {
        return;
      }
      var prev := currentIndex;
      isTransitioning := true;
      Carousel.PrevStep(currentIndex, |images|);
      currentIndex := Carousel.Prev(currentIndex, |images|);
      Rerender(prev, |images|);
    }

    /** `goToSlide`: blocked only by a running transition, not by an empty
        list; the index becomes the argument as given. */
    method GoToSlide(index: int)
      modifies this`currentIndex, this`isTransitioning, this`tickSeesTransitioning
      ensures old(isTransitioning) ==> && currentIndex == old(currentIndex) && isTransitioning
                                       && tickSeesTransitioning == old(tickSeesTransitioning)
      ensures !old(isTransitioning) ==> currentIndex == index && isTransitioning
      ensures !old(isTransitioning) ==> tickSeesTransitioning == (index != old(currentIndex) || old(tickSeesTransitioning))
      ensures old(Valid()) && 0 <= index < |images| ==> Valid()
    {
      if isTransitioning {
        return;
      }
      var prev := currentIndex;
      isTransitioning := true;
      currentIndex := index;
      Rerender(prev, |images|);
    }

    /** The timeout that ends a transition: it clears the flag and nothing else. */
    method EndTransition()
      modifies this`isTransitioning
      ensures !isTransitioning
    {
      isTransitioning := false;
    }

    /** One tick of the 5 s interval, set up only while there are images:
        the captured `handleNext` runs, so the flag it tests is the captured
        one, while the index step reads the current index. */
    method TimerTick()
      requires Valid() && |images| > 0
      modifies this`currentIndex, this`isTransitioning, this`tickSeesTransitioning
      ensures Valid()
      ensures old(tickSeesTransitioning) ==>
                && currentIndex == old(currentIndex) && isTransitioning == old(isTransitioning)
                && tickSeesTransitioning
      ensures !old(tickSeesTransitioning) ==>
                && isTransitioning && currentIndex == Carousel.Next(old(currentIndex), |images|)
                && tickSeesTransitioning == (currentIndex != old(currentIndex))
    {
      if tickSeesTransitioning {
        return;
      }
      var prev := currentIndex;
      isTransitioning := true;
      Carousel.NextStep(currentIndex, |images|);
      currentIndex := Carousel.Next(currentIndex, |images|);
      Rerender(prev, |images|);
    }
  }

  /** The auto-advance stalls after its first move: with two images or
      more, a tick moves the slide once, and after the transition ends the
      next tick still sees the flag of the render that moved it, so the
      slide stays where it is. */
  method AutoAdvanceStalls(v: LandingPageView)
    requires v.Valid() && |v.images| >= 2 && !v.tickSeesTransitioning
    modifies v`currentIndex, v`isTransitioning, v`tickSeesTransitioning
    ensures v.currentIndex == Carousel.Next(old(v.currentIndex), |v.images|)
    ensures v.currentIndex != old(v.currentIndex)
    ensures v.tickSeesTransitioning && !v.isTransitioning
  {
    Carousel.NextStep(v.currentIndex, |v.images|);
    v.TimerTick();
    ghost var moved := v.currentIndex;
    v.EndTransition();
    v.TimerTick();
    assert v.currentIndex == moved;
  }
}
