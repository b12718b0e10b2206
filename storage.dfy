/** The browser-storage service of src/utils/storage.ts. `localStorage` is a
    map from keys to stored lists (the JSON text under a key is modelled by
    the list it parses to); each operation reads the list under its key,
    changes it, and writes it back under the same key. */
module Storage {
  import opened Options
  import opened Records
  import Tables
  import Database

  const BlogPostsKey: string := "blog_posts_data"
  const ImagesKey: string := "uploaded_images"
  const PageContentKey: string := "page_content_data"
  /** The key the story page's contact form writes to. */
  const SubmissionsKey: string := "contactSubmissions"

  datatype UploadedImage = UploadedImage(id: string, name: string, url: string, uploadedAt: string)

  /** A page's stored content; the optional properties are `None` when absent. */
  datatype StoredPage = StoredPage(
    pageId: string,
    title: Option<string>,
    subtitle: Option<string>,
    content: Option<string>,
    images: Option<seq<string>>,
    updatedAt: string)

  /** A contact-form submission: the four fields, the id and the time. */
  datatype Submission = Submission(
    name: string,
    email: string,
    subject: string,
    message: string,
    id: string,
    timestamp: string)

  /** What a key holds: the parsed list. */
  datatype Stored =
    | PostList(posts: seq<BlogPost>)
    | ImageList(images: seq<UploadedImage>)
    | PageList(pages: seq<StoredPage>)
    | SubmissionList(submissions: seq<Submission>)

  type Items = map<string, Stored>

  /** `data ? JSON.parse(data) : []` for each key: a key that is missing (or
      holds another kind of list) reads as the empty list. */
  function PostsIn(items: Items): seq<BlogPost>
  {
    if BlogPostsKey in items && items[BlogPostsKey].PostList? then items[BlogPostsKey].posts else []
  }

  function ImagesIn(items: Items): seq<UploadedImage>
  {
    if ImagesKey in items && items[ImagesKey].ImageList? then items[ImagesKey].images else []
  }

  function PagesIn(items: Items): seq<StoredPage>
  {
    if PageContentKey in items && items[PageContentKey].PageList? then items[PageContentKey].pages else []
  }

  function SubmissionsIn(items: Items): seq<Submission>
  {
    if SubmissionsKey in items && items[SubmissionsKey].SubmissionList? then items[SubmissionsKey].submissions else []
  }

  /** An empty storage holds no list under any key. */
  lemma MissingKeysReadEmpty(items: Items)
    requires BlogPostsKey !in items && ImagesKey !in items && PageContentKey !in items && SubmissionsKey !in items
    ensures PostsIn(items) == [] && ImagesIn(items) == [] && PagesIn(items) == [] && SubmissionsIn(items) == []
  {
  }

  /** The four keys are distinct, so a write under one leaves the lists
      read under the others as they were. */
  lemma WritesStayUnderTheirKey(items: Items, s: Stored)
    ensures PostsIn(items[ImagesKey := s]) == PostsIn(items) && PostsIn(items[PageContentKey := s]) == PostsIn(items)
    ensures PostsIn(items[SubmissionsKey := s]) == PostsIn(items)
    ensures ImagesIn(items[BlogPostsKey := s]) == ImagesIn(items) && ImagesIn(items[PageContentKey := s]) == ImagesIn(items)
    ensures ImagesIn(items[SubmissionsKey := s]) == ImagesIn(items)
    ensures PagesIn(items[BlogPostsKey := s]) == PagesIn(items) && PagesIn(items[ImagesKey := s]) == PagesIn(items)
    ensures PagesIn(items[SubmissionsKey := s]) == PagesIn(items)
    ensures SubmissionsIn(items[BlogPostsKey := s]) == SubmissionsIn(items)
    ensures SubmissionsIn(items[ImagesKey := s]) == SubmissionsIn(items)
    ensures SubmissionsIn(items[PageContentKey := s]) == SubmissionsIn(items)
  {
  }

  /** `{ ...post, ...updatedPost }`: the present fields of the patch win,
      and no timestamp is touched. */
  function MergePost(p: BlogPost, u: PostPatch): (r: BlogPost)
    ensures r.id == p.id && r.created_at == p.created_at && r.updated_at == p.updated_at
  {
    ApplyPostPatch(p, u, p.updated_at)
  }

  function ImageId(i: UploadedImage): string { i.id }

  function PageIdOf(c: StoredPage): string { c.pageId }

  /** `allContent.find(c => c.pageId === pageId) || null`. */
  function PageFor(pages: seq<StoredPage>, pageId: string): (r: Option<StoredPage>)
    ensures r.None? <==> forall k :: 0 <= k < |pages| ==> pages[k].pageId != pageId
    ensures r.Some? ==> exists i :: 0 <= i < |pages| && pages[i] == r.value && r.value.pageId == pageId
                                    && forall k :: 0 <= k < i ==> pages[k].pageId != pageId
  {
    Tables.FindHasKey(pages, PageIdOf, pageId);
    var i := Tables.FindFirst(pages, Tables.KeyIs(PageIdOf, pageId));
    if i.None? then None
    else
      forall k | 0 <= k < i.value ensures pages[k].pageId != pageId {
        Tables.KeyIsApply(PageIdOf, pageId, pages[k]);
      }
      Some(pages[i.value])
  }

  /** The list `savePageContent` writes: the first entry for the page
      replaced in place, or the content appended. */
  function SavedPages(pages: seq<StoredPage>, c: StoredPage): seq<StoredPage>
  {
    match Tables.FindFirst(pages, Tables.KeyIs(PageIdOf, c.pageId))
    case Some(i) => pages[i := c]
    case None => pages + [c]
  }

  /** After a save the page reads back as the saved content, and the list
      grew by at most one entry. */
  lemma SavedPageReadsBack(pages: seq<StoredPage>, c: StoredPage)
    ensures PageFor(SavedPages(pages, c), c.pageId) == Some(c)
    ensures |pages| <= |SavedPages(pages, c)| <= |pages| + 1
  {
    var saved := SavedPages(pages, c);
    var sel := Tables.KeyIs(PageIdOf, c.pageId);
    Tables.FindHasKey(pages, PageIdOf, c.pageId);
    forall k | 0 <= k < |pages| ensures sel(pages[k]) <==> pages[k].pageId == c.pageId {
      Tables.KeyIsApply(PageIdOf, c.pageId, pages[k]);
    }
    var r := PageFor(saved, c.pageId);
    assert r.Some? by {
      var j := if Tables.FindFirst(pages, sel).Some? then Tables.FindFirst(pages, sel).value else |pages|;
      assert saved[j] == c;
    }
    var i :| 0 <= i < |saved| && saved[i] == r.value && r.value.pageId == c.pageId
             && forall k :: 0 <= k < i ==> saved[k].pageId != c.pageId;
    match Tables.FindFirst(pages, sel)
    case Some(f) =>
      assert saved[f] == c;
    case None =>
  }

  /** A save for one page does not change what another page reads. */
  lemma SameReadForOtherPage(pages: seq<StoredPage>, c: StoredPage, other: string)
    requires other != c.pageId
    ensures PageFor(SavedPages(pages, c), other) == PageFor(pages, other)
  {
    var saved := SavedPages(pages, c);
    var sel := Tables.KeyIs(PageIdOf, other);
    Tables.KeyIsApply(PageIdOf, other, c);
    match Tables.FindFirst(pages, Tables.KeyIs(PageIdOf, c.pageId)) {
      case Some(f) =>
        Tables.KeyIsApply(PageIdOf, c.pageId, pages[f]);
        Tables.KeyIsApply(PageIdOf, other, pages[f]);
      case None =>
    }
    FindFirstAgrees(pages, saved, sel);
  }

  /** Two lists that differ only at rows neither selects, the longer one
      having only unselected rows past the shorter, share their first
      selected row. */
  lemma {:induction false} FindFirstAgrees<T>(a: seq<T>, b: seq<T>, sel: T -> bool)
    requires |a| <= |b|
    requires forall k :: 0 <= k < |a| ==> a[k] == b[k] || (!sel(a[k]) && !sel(b[k]))
    requires forall k :: |a| <= k < |b| ==> !sel(b[k])
    ensures Tables.FindFirst(a, sel) == Tables.FindFirst(b, sel)
    ensures Tables.FindFirst(a, sel).Some? ==> a[Tables.FindFirst(a, sel).value] == b[Tables.FindFirst(a, sel).value]
    decreases |a|
  {
    if a == [] {
      if b != [] {
        assert !sel(b[0]);
        FindFirstNone(b, sel);
      }
    } else if !sel(a[0]) {
      assert !sel(b[0]);
      FindFirstAgrees(a[1..], b[1..], sel);
    }
  }

  lemma FindFirstNone<T>(b: seq<T>, sel: T -> bool)
    requires forall k :: 0 <= k < |b| ==> !sel(b[k])
    ensures Tables.FindFirst(b, sel).None?
  {
  }

  /** The storage service over one `localStorage`. */
  class BrowserStorage {
    var items: Items

    constructor (initial: Items)
      ensures items == initial
    {
      items := initial;
    }

    method GetBlogPosts() returns (posts: seq<BlogPost>)
      ensures posts == PostsIn(items)
    {
      posts := PostsIn(items);
    }

    method SaveBlogPosts(posts: seq<BlogPost>)
      modifies this
      ensures items == old(items)[BlogPostsKey := PostList(posts)]
      ensures PostsIn(items) == posts
    {
      items := items[BlogPostsKey := PostList(posts)];
    }

    /** `addBlogPost`: the post goes in front of the stored ones. */
    method AddBlogPost(post: BlogPost)
      modifies this
      ensures items == old(items)[BlogPostsKey := PostList([post] + PostsIn(old(items)))]
      ensures PostsIn(items) == [post] + PostsIn(old(items))
    {
      var posts := GetBlogPosts();
      posts := [post] + posts;
      SaveBlogPosts(posts);
    }

    /** `updateBlogPost`: the patch is merged into the first post with the
        id; without such a post nothing is written. */
    method UpdateBlogPost(id: string, patch: PostPatch)
      modifies this
      ensures var i := Tables.FindFirst(PostsIn(old(items)), Tables.KeyIs(Database.PostId, id));
              && (i.None? ==> items == old(items))
              && (i.Some? ==> items == old(items)[BlogPostsKey :=
                                PostList(PostsIn(old(items))[i.value := MergePost(PostsIn(old(items))[i.value], patch)])])
    {
      var posts := GetBlogPosts();
      var index := Tables.FindFirst(posts, Tables.KeyIs(Database.PostId, id));
      if index.Some? {
        posts := posts[index.value := MergePost(posts[index.value], patch)];
        SaveBlogPosts(posts);
      }
    }

    /** `deleteBlogPost`: every post with the id goes, the rest keep their order. */
    method DeleteBlogPost(id: string)
      modifies this
      ensures items == old(items)[BlogPostsKey := PostList(Tables.RemoveWhere(PostsIn(old(items)), Tables.KeyIs(Database.PostId, id)))]
    {
      var posts := GetBlogPosts();
      var filtered := Tables.RemoveWhere(posts, Tables.KeyIs(Database.PostId, id));
      SaveBlogPosts(filtered);
    }

    method GetImages() returns (images: seq<UploadedImage>)
      ensures images == ImagesIn(items)
    {
      images := ImagesIn(items);
    }

    /** `saveImage`: the image goes in front of the stored ones. */
    method SaveImage(image: UploadedImage)
      modifies this
      ensures items == old(items)[ImagesKey := ImageList([image] + ImagesIn(old(items)))]
    {
      var images := GetImages();
      images := [image] + images;
      items := items[ImagesKey := ImageList(images)];
    }

    /** `deleteImage`: every image with the id goes, the rest keep their order. */
    method DeleteImage(id: string)
      modifies this
      ensures items == old(items)[ImagesKey := ImageList(Tables.RemoveWhere(ImagesIn(old(items)), Tables.KeyIs(ImageId, id)))]
    {
      var images := GetImages();
      var filtered := Tables.RemoveWhere(images, Tables.KeyIs(ImageId, id));
      items := items[ImagesKey := ImageList(filtered)];
    }

    method GetPageContent(pageId: string) returns (content: Option<StoredPage>)
      ensures content == PageFor(PagesIn(items), pageId)
    {
      content := PageFor(PagesIn(items), pageId);
    }

    /** `savePageContent`: the first entry for the page is replaced in
        place, or the content is appended. */
    method SavePageContent(content: StoredPage)
      modifies this
      ensures items == old(items)[PageContentKey := PageList(SavedPages(PagesIn(old(items)), content))]
      ensures PageFor(PagesIn(items), content.pageId) == Some(content)
      ensures |PagesIn(items)| <= |PagesIn(old(items))| + 1
    {
      var allContent := PagesIn(items);
      var index := Tables.FindFirst(allContent, Tables.KeyIs(PageIdOf, content.pageId));
      if index.Some? {
        allContent := allContent[index.value := content];
      } else {
        allContent := allContent + [content];
      }
      items := items[PageContentKey := PageList(allContent)];
      SavedPageReadsBack(PagesIn(old(items)), content);
    }

    method GetAllPageContent() returns (pages: seq<StoredPage>)
      ensures pages == PagesIn(items)
    {
      pages := PagesIn(items);
    }
  }

  /** A posted update touches only the first post with the id: the list
      keeps its length and every other post, in place. */
  lemma UpdateTouchesOnlyFirstMatch(posts: seq<BlogPost>, id: string, patch: PostPatch, i: nat)
    requires Tables.FindFirst(posts, Tables.KeyIs(Database.PostId, id)) == Some(i)
    ensures posts[i].id == id && forall k :: 0 <= k < i ==> posts[k].id != id
    ensures var after := posts[i := MergePost(posts[i], patch)];
            |after| == |posts| && after[i].id == id
            && forall k :: 0 <= k < |posts| && k != i ==> after[k] == posts[k]
  {
    Tables.KeyIsApply(Database.PostId, id, posts[i]);
    forall k | 0 <= k < i ensures posts[k].id != id {
      Tables.KeyIsApply(Database.PostId, id, posts[k]);
    }
  }

  /** A delete leaves no post with the id and keeps every other post. */
  lemma DeleteRemovesAll(posts: seq<BlogPost>, id: string, p: BlogPost)
    ensures p in Tables.RemoveWhere(posts, Tables.KeyIs(Database.PostId, id)) <==> p in posts && p.id != id
  {
    var sel := Tables.KeyIs(Database.PostId, id);
    var r := Tables.RemoveWhere(posts, sel);
    Tables.KeyIsApply(Database.PostId, id, p);
    if p in r {
      var k :| 0 <= k < |r| && r[k] == p;
    }
    if p in posts && p.id != id {
      var k :| 0 <= k < |posts| && posts[k] == p;
    }
  }
}
