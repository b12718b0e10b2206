/** The blog-post admin form of src/components/admin/BlogPostsManager.tsx:
    required fields, defaults, and the save / edit / reset / delete handlers
    over the record store. */
module BlogPostsAdmin {
  import opened Options
  import opened Records
  import opened JsText
  import opened PostText
  import Seqs
  import Tables
  import Database

  // ------------------------------------------------------------------ the form

  datatype PostForm = PostForm(
    title: string,
    slug: string,
    excerpt: string,
    content: string,
    category: string,
    tags: string,
    featured_image: string)

  const EmptyForm := PostForm("", "", "", "", "", "", "")

  const DefaultFeaturedImage := "https://images.pexels.com/photos/1983032/pexels-photo-1983032.jpeg"

  /** Title, excerpt, content and category must all be non-empty. */
  predicate RequiredFilled(f: PostForm)
  {
    f.title != "" && f.excerpt != "" && f.content != "" && f.category != ""
  }

  /** The post the save handler sends. */
  function PostData(f: PostForm): (d: PostDraft)
    ensures d.title == f.title && d.excerpt == f.excerpt && d.content == f.content && d.category == f.category
    ensures f.slug != "" ==> d.slug == f.slug
    ensures f.slug == "" ==> IsSlug(d.slug)
    ensures AllTags(d.tags)
    ensures d.featured_image == if f.featured_image == "" then DefaultFeaturedImage else f.featured_image
    ensures d.author == "Admin" && d.published
  {
    SlugIsSlug(f.title);
    ParseTagsWellFormed(f.tags);
    PostDraft(f.title, if f.slug != "" then f.slug else Slug(f.title), f.excerpt, f.content, f.category,
              ParseTags(f.tags), if f.featured_image != "" then f.featured_image else DefaultFeaturedImage,
              "Admin", true)
  }

  /** The form `handleEditPost` fills from a post. */
  function EditForm(p: BlogPost): PostForm
  {
    PostForm(p.title, p.slug, p.excerpt, p.content, p.category, Join(p.tags, ", "), p.featured_image)
  }

  /** Opening a stored post for editing and saving it unchanged keeps every
      editable field, for a post whose slug is set or would be derived as
      empty, whose image is set, and whose tags are trimmed, non-empty and
      comma-free; the author becomes 'Admin' and the post becomes published.
      Outside that domain the save re-derives the slug, puts in the default
      image, or re-parses the tags. */
  lemma EditThenSave(p: BlogPost)
    requires p.slug != "" || Slug(p.title) == ""
    requires p.featured_image != ""
    requires AllTags(p.tags)
    ensures PostData(EditForm(p)) ==
            PostDraft(p.title, p.slug, p.excerpt, p.content, p.category, p.tags, p.featured_image, "Admin", true)
  {
    ParseJoinedTags(p.tags);
  }

  /** The rows after the save handler's write: an update of the post being
      edited, or an insert of a new one. A failed write changes nothing. */
  function SavedRows(rows: seq<BlogPost>, editing: Option<BlogPost>, f: PostForm, newId: string, now: string,
                     writeError: bool): seq<BlogPost>
  {
    var d := PostData(f);
    if editing.Some? then
      if !writeError && Tables.HasKey(rows, Database.PostId, editing.value.id)
      then Tables.MapWhere(rows, Tables.KeyIs(Database.PostId, editing.value.id),
                           Database.RefreshPost(DraftAsPatch(d), now))
      else rows
    else if !writeError && !Tables.HasKey(rows, Database.PostId, newId)
    then rows + [PostFromDraft(d, newId, now)]
    else rows
  }

  /** The write of `handleSavePost`; the store's result is not inspected. */
  method WriteDraft(db: Database.DatabaseService, editing: Option<BlogPost>, f: PostForm, newId: string,
                    now: string, writeError: bool)
    requires db.Valid()
    modifies db`blogPosts
    ensures db.Valid()
    ensures db.blogPosts == SavedRows(old(db.blogPosts), editing, f, newId, now, writeError)
  {
    var d := PostData(f);
    if editing.Some? {
      var _ := db.UpdateBlogPost(editing.value.id, DraftAsPatch(d), now, writeError);
    } else {
      var _ := db.CreateBlogPost(d, newId, now, writeError);
    }
  }

  class BlogPostsManager {
    var posts: seq<BlogPost>
    var showPostForm: bool
    var editingPost: Option<BlogPost>
    var form: PostForm

    constructor ()
      ensures posts == [] && !showPostForm && editingPost == None && form == EmptyForm
    {
      posts, showPostForm, editingPost, form := [], false, None, EmptyForm;
    }

    /** `loadData`: the published posts, or none when the read fails. */
    method LoadData(db: Database.DatabaseService, readError: bool)
      modifies this`posts
      ensures posts == if readError then [] else Database.PublishedNewestFirst(db.blogPosts)
    {
      posts := db.GetBlogPosts(readError);
    }

    /** The "New Post" button: it only opens the form, which keeps what it
        held before. */
    method OpenForm()
      modifies this`showPostForm
      ensures showPostForm
    {
      showPostForm := true;
    }

    method ResetForm()
      modifies this`form, this`editingPost, this`showPostForm
      ensures form == EmptyForm && editingPost == None && !showPostForm
    {
      form, editingPost, showPostForm := EmptyForm, None, false;
    }

    method EditPost(p: BlogPost)
      modifies this`form, this`editingPost, this`showPostForm
      ensures editingPost == Some(p) && form == EditForm(p) && showPostForm
    {
      editingPost, form, showPostForm := Some(p), EditForm(p), true;
    }

    /** `handleSavePost`. A form with an empty required field is refused
        (`refused`) and nothing is written. Otherwise the post is updated
        when editing and created when not, the list is reloaded and the form
        is reset; the store reports a failed write as a null result, which
        the handler does not inspect. */
    method SavePost(db: Database.DatabaseService, newId: string, now: string, writeError: bool, readError: bool)
      returns (refused: bool)
      requires db.Valid()
      modifies this, db`blogPosts
      ensures db.Valid()
      ensures refused == !RequiredFilled(old(form))
      ensures refused ==> db.blogPosts == old(db.blogPosts) && form == old(form)
                          && editingPost == old(editingPost) && showPostForm == old(showPostForm)
                          && posts == old(posts)
      ensures !refused ==>
                db.blogPosts == SavedRows(old(db.blogPosts), old(editingPost), old(form), newId, now, writeError)
      ensures !refused ==> posts == (if readError then [] else Database.PublishedNewestFirst(db.blogPosts))
                           && form == EmptyForm && editingPost == None && !showPostForm
    {
      if !RequiredFilled(form) {
        return true;
      }
      WriteDraft(db, editingPost, form, newId, now, writeError);
      LoadData(db, readError);
      ResetForm();
      refused := false;
    }

    /** `handleDeletePost`: only after the user confirms. */
    method DeletePost(db: Database.DatabaseService, id: string, confirmed: bool, writeError: bool, readError: bool)
      requires db.Valid()
      modifies this`posts, db`blogPosts
      ensures db.Valid()
      ensures !confirmed ==> db.blogPosts == old(db.blogPosts) && posts == old(posts)
      ensures confirmed ==>
                db.blogPosts == (if writeError then old(db.blogPosts)
                                 else Tables.RemoveWhere(old(db.blogPosts), Tables.KeyIs(Database.PostId, id)))
                && posts == (if readError then [] else Database.PublishedNewestFirst(db.blogPosts))
    {
      if confirmed {
        var _ := db.DeleteBlogPost(id, writeError);
        LoadData(db, readError);
      }
    }
  }
}
