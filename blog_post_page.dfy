/** The single-post page of src/pages/BlogPostPage.tsx: the lookup by the
    route's slug, the redirect back to the listing when no post is found,
    and the split of the content into paragraphs. */
module BlogPostPage {
  import opened Options
  import opened Records
  import opened JsText
  import Database

  const ParagraphBreak: string := "\n\n"

  /** `content.split('\n\n')`. */
  function Paragraphs(content: string): seq<string>
  {
    Split(content, ParagraphBreak)
  }

  /** Joining the paragraphs with a blank line gives back the content exactly. */
  lemma ParagraphsRoundTrip(content: string)
    ensures Join(Paragraphs(content), ParagraphBreak) == content
  {
    JoinSplit(content, ParagraphBreak);
  }

  /** No paragraph holds a blank line, and there is one more paragraph than
      there are left-to-right, non-overlapping blank lines. */
  lemma ParagraphsShape(content: string)
    ensures forall k :: 0 <= k < |Paragraphs(content)| ==> !Includes(Paragraphs(content)[k], ParagraphBreak)
    ensures |Paragraphs(content)| == CountOccurrences(content, ParagraphBreak) + 1
  {
    SplitPiecesFree(content, ParagraphBreak);
    SplitCount(content, ParagraphBreak);
  }

  /** What the page renders. */
  datatype Screen =
    | Spinner
    | RedirectTo(path: string, replace: bool)
    | Article(post: BlogPost, paragraphs: seq<string>)

  /** `!slug`: the route parameter is absent or empty. */
  predicate SlugMissing(slug: Option<string>)
  {
    slug.None? || slug.value == ""
  }

  /** The post `loadPost` leaves in state: none without a slug (no lookup is
      made); otherwise what `getBlogPostBySlug` returns, which is nothing on a
      store error and `maybeSingle` of the published rows with that slug. */
  function LoadedPost(slug: Option<string>, rows: seq<BlogPost>, storeError: bool): (r: Option<BlogPost>)
    ensures SlugMissing(slug) ==> r.None?
    ensures r.Some? ==> r.value in rows && r.value.published && r.value.slug == slug.value
  {
    if SlugMissing(slug) || storeError then None
    else Database.MaybeSingle(Database.PublishedWithSlug(rows, slug.value))
  }

  /** The render decision: a spinner while loading, a replacing redirect to
      `/blog` without a post, the article otherwise. */
  function Render(loading: bool, post: Option<BlogPost>): Screen
  {
    if loading then Spinner
    else if post.None? then RedirectTo("/blog", true)
    else Article(post.value, Paragraphs(post.value.content))
  }

  /** The screen once `loadPost` has finished. */
  function AfterLoad(slug: Option<string>, rows: seq<BlogPost>, storeError: bool): Screen
  {
    Render(false, LoadedPost(slug, rows, storeError))
  }

  /** The article is shown exactly when there is a slug, the store answers,
      and exactly one published row has that slug; in every other case the
      page redirects to `/blog` with history replaced. */
  lemma ArticleIffFound(slug: Option<string>, rows: seq<BlogPost>, storeError: bool)
    ensures AfterLoad(slug, rows, storeError).Article? <==>
              !SlugMissing(slug) && !storeError && |Database.PublishedWithSlug(rows, slug.value)| == 1
    ensures !AfterLoad(slug, rows, storeError).Article? ==> AfterLoad(slug, rows, storeError) == RedirectTo("/blog", true)
  {
  }

  /** The article shows the stored post, and its paragraphs put back together
      are the post's content. */
  lemma ArticleShowsPost(slug: Option<string>, rows: seq<BlogPost>, storeError: bool)
    requires AfterLoad(slug, rows, storeError).Article?
    ensures AfterLoad(slug, rows, storeError).post in rows
    ensures AfterLoad(slug, rows, storeError).post.slug == slug.value
    ensures Join(AfterLoad(slug, rows, storeError).paragraphs, ParagraphBreak) == AfterLoad(slug, rows, storeError).post.content
  {
    ParagraphsRoundTrip(AfterLoad(slug, rows, storeError).post.content);
  }
}
