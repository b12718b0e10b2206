/** The home page of src/pages/HomePage.tsx: the content it loads (active
    hero and gallery images, the three most recent posts) and the hero
    slide index moved by the arrows, the dots and the auto-advance timer. */
module HomePage {
  import opened Options
  import opened Records
  import Seqs
  import Carousel
  import Database

  const RecentCount: nat := 3

  /** `postsData.slice(0, 3)`. */
  function RecentPosts(posts: seq<BlogPost>): seq<BlogPost>
  {
    Seqs.JsSlice(posts, 0, RecentCount)
  }

  /** The recent posts are the first `min(3, n)` posts, in fetched order. */
  lemma RecentPostsPrefix(posts: seq<BlogPost>)
    ensures RecentPosts(posts) == posts[..Seqs.Min(RecentCount, |posts|)]
    ensures |RecentPosts(posts)| == Seqs.Min(RecentCount, |posts|)
  {
  }

  class HomePageView {
    var currentSlide: int
    var heroImages: seq<GalleryImage>
    var galleryImages: seq<GalleryImage>
    var recentPosts: seq<BlogPost>
    var loading: bool

    /** The slide index names a hero image whenever there is one. */
    predicate Valid()
      reads this
    {
      0 <= currentSlide && (|heroImages| > 0 ==> currentSlide < |heroImages|)
    }

    constructor ()
      ensures currentSlide == 0 && heroImages == [] && galleryImages == [] && recentPosts == [] && loading
      ensures Valid()
    {
      currentSlide, heroImages, galleryImages, recentPosts, loading := 0, [], [], [], true;
    }

    /** `loadContent`: the three reads return empty lists on error and do not
        throw, so each list is set from its own read. It runs once, on slide 0. */
    method LoadContent(db: Database.DatabaseService, heroError: bool, galleryError: bool, postsError: bool)
      modifies this`heroImages, this`galleryImages, this`recentPosts, this`loading
      ensures heroImages == Carousel.ActiveImages(if heroError then []
                                                  else Database.GalleryQuery(db.homeImages, Some("hero")))
      ensures galleryImages == Carousel.ActiveImages(if galleryError then []
                                                     else Database.GalleryQuery(db.homeImages, Some("gallery")))
      ensures recentPosts == RecentPosts(if postsError then [] else Database.PublishedNewestFirst(db.blogPosts))
      ensures !loading
      ensures currentSlide == 0 ==> Valid()
    {
      loading := true;
      var heroData := db.GetHomePageImages(Some("hero"), heroError);
      var galleryData := db.GetHomePageImages(Some("gallery"), galleryError);
      var postsData := db.GetBlogPosts(postsError);
      heroImages := Carousel.ActiveImages(heroData);
      galleryImages := Carousel.ActiveImages(galleryData);
      recentPosts := RecentPosts(postsData);
      loading := false;
    }

    /** The interval is set up only while there is a hero image. */
    predicate TimerScheduled()
      reads this
    {
      |heroImages| > 0
    }

    /** The dots render only for more than one hero image. */
    predicate DotsShown()
      reads this
    {
      |heroImages| > 1
    }

    /** `handlePrevSlide`. The arrows render even without hero images, where
        the division by zero yields `NaN`; the model requires an image. */
    method PrevSlide()
      requires Valid() && |heroImages| > 0
      modifies this`currentSlide
      ensures Valid()
      ensures currentSlide == Carousel.Prev(old(currentSlide), |heroImages|)
    {
      Carousel.PrevStep(currentSlide, |heroImages|);
      currentSlide := Carousel.Prev(currentSlide, |heroImages|);
    }

    /** `handleNextSlide`, with the same requirement. */
    method NextSlide()
      requires Valid() && |heroImages| > 0
      modifies this`currentSlide
      ensures Valid()
      ensures currentSlide == Carousel.Next(old(currentSlide), |heroImages|)
    {
      Carousel.NextStep(currentSlide, |heroImages|);
      currentSlide := Carousel.Next(currentSlide, |heroImages|);
    }

    /** One tick of the auto-advance interval: the same step as Next. */
    method TimerTick()
      requires Valid() && TimerScheduled()
      modifies this`currentSlide
      ensures Valid()
      ensures currentSlide == Carousel.Next(old(currentSlide), |heroImages|)
    {
      NextSlide();
    }

    /** A click on the dot of slide `index`. */
    method ClickDot(index: int)
      requires DotsShown() && 0 <= index < |heroImages|
      modifies this`currentSlide
      ensures Valid()
      ensures currentSlide == index
    {
      currentSlide := index;
    }
  }
}
