/** The blog listing of src/pages/BlogPage.tsx: ten posts per page, the
    "Showing" label, the five-wide window of page buttons, and the
    previous / next controls that move `currentPage`. */
module BlogPage {
  import opened Records
  import Seqs
  import Database

  const PostsPerPage: nat := 10
  const MaxVisible: nat := 5

  /** `Math.ceil(n / POSTS_PER_PAGE)`. */
  function TotalPages(n: nat): (r: nat)
    ensures r * PostsPerPage >= n
    ensures r > 0 ==> (r - 1) * PostsPerPage < n
  {
    (n + PostsPerPage - 1) / PostsPerPage
  }

  function StartIndex(page: int): int { (page - 1) * PostsPerPage }

  /** `allPosts.slice(startIndex, endIndex)`. */
  function PageItems<T>(all: seq<T>, page: int): seq<T>
  {
    Seqs.JsSlice(all, StartIndex(page), StartIndex(page) + PostsPerPage)
  }

  /** Page `p` holds exactly the items at indices `[(p-1)*10, min(p*10, n))`,
      and nothing when it starts past the end. */
  lemma PageItemsRange<T>(all: seq<T>, page: int)
    requires page >= 1
    ensures StartIndex(page) <= |all| ==>
              PageItems(all, page) == all[StartIndex(page)..Seqs.Min(page * PostsPerPage, |all|)]
    ensures StartIndex(page) > |all| ==> PageItems(all, page) == []
  {
  }

  /** Pages `1..k` put together. */
  function FirstPages<T>(all: seq<T>, k: nat): seq<T>
  {
    if k == 0 then [] else FirstPages(all, k - 1) + PageItems(all, k)
  }

  lemma {:induction false} FirstPagesPrefix<T>(all: seq<T>, k: nat)
    ensures FirstPages(all, k) == all[..Seqs.Min(k * PostsPerPage, |all|)]
  {
    if k > 0 {
      FirstPagesPrefix(all, k - 1);
      PageItemsRange(all, k);
      var a := Seqs.Min((k - 1) * PostsPerPage, |all|);
      var b := Seqs.Min(k * PostsPerPage, |all|);
      if StartIndex(k) <= |all| {
        assert all[..a] + all[a..b] == all[..b];
      }
    }
  }

  /** Concatenating pages `1..totalPages` gives back the whole list in order. */
  lemma AllPagesWhole<T>(all: seq<T>)
    ensures FirstPages(all, TotalPages(|all|)) == all
  {
    FirstPagesPrefix(all, TotalPages(|all|));
  }

  /** The label `Showing {startIndex + 1}-{min(endIndex, n)} of {n}`. */
  function ShowingFrom(page: int): int { StartIndex(page) + 1 }

  function ShowingTo(page: int, n: nat): int { Seqs.Min(StartIndex(page) + PostsPerPage, n) }

  /** On a page that holds posts, the label names exactly the positions (counted
      from 1) of the posts it shows. */
  lemma ShowingMatchesItems<T>(all: seq<T>, page: int)
    requires 1 <= page <= TotalPages(|all|)
    ensures 1 <= ShowingFrom(page) <= ShowingTo(page, |all|) <= |all|
    ensures PageItems(all, page) == all[ShowingFrom(page) - 1..ShowingTo(page, |all|)]
  {
  }

  /** The first button of the window: two pages before the current one,
      pulled back so that the window ends at the last page, and never
      before page 1. */
  function WindowStart(currentPage: int, totalPages: nat): int
  {
    Seqs.Max(1, Seqs.Min(currentPage - MaxVisible / 2, totalPages - MaxVisible + 1))
  }

  /** The page numbers of the buttons: `min(5, totalPages)` consecutive
      pages from `WindowStart`. */
  function PageWindow(currentPage: int, totalPages: nat): seq<int>
  {
    seq(Seqs.Min(MaxVisible, totalPages), k => WindowStart(currentPage, totalPages) + k)
  }

  /** The window lies within the pages, holds the current page, and keeps it
      in the middle when there are two pages on either side of it. */
  lemma PageWindowShape(currentPage: int, totalPages: nat)
    ensures |PageWindow(currentPage, totalPages)| == Seqs.Min(MaxVisible, totalPages)
    ensures forall p :: p in PageWindow(currentPage, totalPages) ==> 1 <= p <= totalPages
    ensures 1 <= currentPage <= totalPages ==> currentPage in PageWindow(currentPage, totalPages)
    ensures MaxVisible / 2 < currentPage <= totalPages - MaxVisible / 2 ==>
              PageWindow(currentPage, totalPages)[MaxVisible / 2] == currentPage
  {
    var w := PageWindow(currentPage, totalPages);
    if 1 <= currentPage <= totalPages {
      assert w[currentPage - WindowStart(currentPage, totalPages)] == currentPage;
    }
  }

  /** `renderPageNumbers`: the page numbers of the buttons, in order. */
  method RenderPageNumbers(currentPage: int, totalPages: nat) returns (pages: seq<int>)
    ensures pages == PageWindow(currentPage, totalPages)
  {
    pages := [];
    var startPage := Seqs.Max(1, currentPage - MaxVisible / 2);
    var endPage := Seqs.Min(totalPages, startPage + MaxVisible - 1);
    if endPage - startPage < MaxVisible - 1 {
      startPage := Seqs.Max(1, endPage - MaxVisible + 1);
    }
    var i := startPage;
    while i <= endPage
      invariant startPage <= i <= Seqs.Max(startPage, endPage + 1)
      invariant |pages| == i - startPage
      invariant forall k :: 0 <= k < |pages| ==> pages[k] == startPage + k
    {
      pages := pages + [i];
      i := i + 1;
    }
    assert startPage == WindowStart(currentPage, totalPages);
    assert |pages| == Seqs.Min(MaxVisible, totalPages);
  }

  /** The controls show only when there is more than one page; Previous is
      disabled on page 1 and Next on the last page. */
  predicate ControlsShown(totalPages: nat) { totalPages > 1 }

  predicate PreviousEnabled(currentPage: int, totalPages: nat)
  {
    ControlsShown(totalPages) && currentPage != 1
  }

  predicate NextEnabled(currentPage: int, totalPages: nat)
  {
    ControlsShown(totalPages) && currentPage != totalPages
  }

  /** The page state of the component. */
  class BlogPageView {
    var currentPage: int
    var allPosts: seq<BlogPost>
    var loading: bool

    /** `currentPage` names a page, or is 1 when there are none. */
    predicate Valid()
      reads this
    {
      1 <= currentPage && (currentPage <= TotalPages(|allPosts|) || currentPage == 1)
    }

    constructor ()
      ensures currentPage == 1 && allPosts == [] && loading
      ensures Valid()
    {
      currentPage, allPosts, loading := 1, [], true;
    }

    /** `loadPosts`: the store returns an empty list on error, so the list is
        always replaced and loading always ends. It runs once, on page 1. */
    method LoadPosts(db: Database.DatabaseService, readError: bool)
      modifies this`allPosts, this`loading
      ensures allPosts == (if readError then [] else Database.PublishedNewestFirst(db.blogPosts))
      ensures !loading
      ensures currentPage == 1 ==> Valid()
    {
      loading := true;
      allPosts := db.GetBlogPosts(readError);
      loading := false;
    }

    function Total(): nat
      reads this
    {
      TotalPages(|allPosts|)
    }

    /** `goToPage`. */
    method GoToPage(page: int)
      modifies this`currentPage
      ensures currentPage == page
    {
      currentPage := page;
    }

    /** A click on Previous: nothing happens while the button is hidden or disabled. */
    method ClickPrevious()
      requires Valid()
      modifies this`currentPage
      ensures Valid()
      ensures currentPage == if PreviousEnabled(old(currentPage), Total()) then old(currentPage) - 1
                             else old(currentPage)
    {
      if PreviousEnabled(currentPage, Total()) {
        GoToPage(currentPage - 1);
      }
    }

    /** A click on Next: nothing happens while the button is hidden or disabled. */
    method ClickNext()
      requires Valid()
      modifies this`currentPage
      ensures Valid()
      ensures currentPage == if NextEnabled(old(currentPage), Total()) then old(currentPage) + 1
                             else old(currentPage)
    {
      if NextEnabled(currentPage, Total()) {
        GoToPage(currentPage + 1);
      }
    }

    /** A click on the `k`-th page button, where the control row is shown. */
    method ClickPageNumber(k: nat) returns (clicked: bool)
      requires Valid()
      modifies this`currentPage
      ensures Valid()
      ensures clicked <==> ControlsShown(Total()) && k < Seqs.Min(MaxVisible, Total())
      ensures clicked ==> currentPage == PageWindow(old(currentPage), Total())[k]
      ensures clicked ==> 1 <= currentPage <= Total()
      ensures !clicked ==> currentPage == old(currentPage)
    {
      var pages := RenderPageNumbers(currentPage, Total());
      PageWindowShape(currentPage, Total());
      if ControlsShown(Total()) && k < |pages| {
        GoToPage(pages[k]);
        clicked := true;
      } else {
        clicked := false;
      }
    }
  }
}
