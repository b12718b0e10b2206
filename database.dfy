/** The record-store service of src/services/database.ts over six in-memory
    tables. The remote store's behaviour is modelled as follows:
    - `eq` is an equality filter and `order` a sort;
    - the outcome of each remote call (`storeError`) is a parameter;
    - the generated id (`newId`) and the clock (`now`) are parameters too;
    - an insert fails when it would repeat a unique key. */
module Database {
  import opened Options
  import opened Records
  import Tables
  import Seqs
  import Sorting

  function PostId(p: BlogPost): string { p.id }
  function PostCreatedAt(p: BlogPost): string { p.created_at }
  function ImageId(i: LibraryImage): string { i.id }
  function ImageUploadedAt(i: LibraryImage): string { i.uploaded_at }
  function PageRowId(c: PageContent): string { c.id }
  function PageKey(c: PageContent): string { c.page_id }
  function PageUpdatedAt(c: PageContent): string { c.updated_at }
  function GalleryId(g: GalleryImage): string { g.id }
  function GalleryGroup(g: GalleryImage): string { g.group }
  function GalleryOrder(g: GalleryImage): int { g.display_order }
  function SettingId(s: SiteSetting): string { s.id }
  function SettingKey(s: SiteSetting): string { s.setting_key }

  function IsPublished(p: BlogPost): bool { p.published }

  /** `getBlogPosts`'s query: the published rows, newest `created_at` first. */
  function PublishedNewestFirst(rows: seq<BlogPost>): (r: seq<BlogPost>)
    ensures Sorting.SortedBy(Sorting.Descending(PostCreatedAt), r)
    ensures multiset(r) == multiset(Seqs.Filter(IsPublished, rows))
    ensures forall k :: 0 <= k < |r| ==> r[k].published && r[k] in rows
    ensures forall k :: 0 <= k < |rows| && rows[k].published ==> rows[k] in r
  {
    Sorting.DescendingIsPreorder(PostCreatedAt);
    var f := Seqs.Filter(IsPublished, rows);
    var r := Sorting.SortBy(Sorting.Descending(PostCreatedAt), f);
    forall x ensures x in r <==> x in rows && x.published {
      Seqs.PermutationMembers(r, f, x);
      Seqs.FilterMembers(IsPublished, rows, x);
    }
    r
  }

  /** The published rows with a slug, in table order. */
  function PublishedWithSlug(rows: seq<BlogPost>, slug: string): (r: seq<BlogPost>)
    ensures forall k :: 0 <= k < |r| ==> r[k] in rows && r[k].published && r[k].slug == slug
    ensures forall k :: 0 <= k < |rows| && rows[k].published && rows[k].slug == slug ==> rows[k] in r
  {
    Seqs.Filter((p: BlogPost) => p.published && p.slug == slug, rows)
  }

  /** `maybeSingle()`: the one matching row, nothing for no match, and an
      error (so also nothing) for several. */
  function MaybeSingle<T>(matches: seq<T>): (r: Option<T>)
    ensures r.Some? <==> |matches| == 1
    ensures r.Some? ==> r.value == matches[0]
  {
    if |matches| == 1 then Some(matches[0]) else None
  }

  /** The rows sorted by `order(column)` for a text column, latest first. */
  function NewestFirst<T(!new)>(key: T -> string, rows: seq<T>): (r: seq<T>)
    ensures Sorting.SortedBy(Sorting.Descending(key), r)
    ensures multiset(r) == multiset(rows)
  {
    Sorting.DescendingIsPreorder(key);
    Sorting.SortBy(Sorting.Descending(key), rows)
  }

  /** The gallery query: filtered by group only when the argument is truthy,
      sorted by `display_order` ascending. */
  function GalleryQuery(rows: seq<GalleryImage>, group: Option<string>): (r: seq<GalleryImage>)
    ensures Sorting.SortedBy(Sorting.Ascending(GalleryOrder), r)
    ensures !Truthy(group) ==> multiset(r) == multiset(rows)
    ensures Truthy(group) ==> multiset(r) == multiset(Seqs.Filter(Tables.KeyIs(GalleryGroup, group.value), rows))
  {
    Sorting.AscendingIsPreorder(GalleryOrder);
    var selected := if Truthy(group) then Seqs.Filter(Tables.KeyIs(GalleryGroup, group.value), rows) else rows;
    Sorting.SortBy(Sorting.Ascending(GalleryOrder), selected)
  }

  /** A gallery query returns exactly the rows of the requested group, or all
      rows when no group is given. */
  lemma GalleryQueryMembers(rows: seq<GalleryImage>, group: Option<string>, x: GalleryImage)
    ensures x in GalleryQuery(rows, group) <==> x in rows && (Truthy(group) ==> x.group == group.value)
  {
    var r := GalleryQuery(rows, group);
    if Truthy(group) {
      var sel := Tables.KeyIs(GalleryGroup, group.value);
      var f := Seqs.Filter(sel, rows);
      assert multiset(r) == multiset(f);
      Seqs.PermutationMembers(r, f, x);
      Seqs.FilterMembers(sel, rows, x);
      Tables.KeyIsApply(GalleryGroup, group.value, x);
    } else {
      Seqs.PermutationMembers(r, rows, x);
    }
  }

  function RefreshPost(u: PostPatch, now: string): BlogPost -> BlogPost
  {
    p => ApplyPostPatch(p, u, now)
  }

  function RefreshGallery(u: GalleryPatch, now: string): GalleryImage -> GalleryImage
  {
    g => ApplyGalleryPatch(g, u, now)
  }

  /** An update keeps the row's id and stamps it with the time of the update. */
  lemma RefreshPostRow(u: PostPatch, now: string, p: BlogPost)
    ensures RefreshPost(u, now)(p).id == p.id && RefreshPost(u, now)(p).updated_at == now
  {
  }

  lemma RefreshGalleryRow(u: GalleryPatch, now: string, g: GalleryImage)
    ensures RefreshGallery(u, now)(g).id == g.id && RefreshGallery(u, now)(g).updated_at == now
  {
  }

  /** `update({ ...content, updated_at })` on a page row: a missing title or
      subtitle is not part of the update and keeps its stored value. */
  function MergePage(row: PageContent, c: PageDraft, now: string): PageContent
  {
    row.(page_id := c.page_id,
         title := if c.title.Some? then c.title else row.title,
         subtitle := if c.subtitle.Some? then c.subtitle else row.subtitle,
         content := c.content,
         images := c.images,
         updated_at := now)
  }

  function MergeInto(c: PageDraft, now: string): PageContent -> PageContent
  {
    row => MergePage(row, c, now)
  }

  function NewPage(c: PageDraft, id: string, now: string): PageContent
  {
    PageContent(id, c.page_id, c.title, c.subtitle, c.content, c.images, now)
  }

  /** The update of `updateSiteSetting`: value, type and timestamp. */
  function Rewrite(value: string, settingType: string, now: string): SiteSetting -> SiteSetting
  {
    (s: SiteSetting) => s.(setting_value := value, setting_type := settingType, updated_at := now)
  }

  function NewSetting(key: string, value: string, settingType: string, id: string, now: string): SiteSetting
  {
    SiteSetting(id, key, value, settingType, now)
  }

  class DatabaseService {
    var blogPosts: seq<BlogPost>
    var images: seq<LibraryImage>
    var pageContent: seq<PageContent>
    var landingImages: seq<GalleryImage>
    var homeImages: seq<GalleryImage>
    var siteSettings: seq<SiteSetting>

    /** The tables' unique columns: every id, `page_id` and `setting_key`. */
    ghost predicate Valid()
      reads this
    {
      && Tables.UniqueKey(blogPosts, PostId)
      && Tables.UniqueKey(images, ImageId)
      && Tables.UniqueKey(pageContent, PageRowId)
      && Tables.UniqueKey(pageContent, PageKey)
      && Tables.UniqueKey(landingImages, GalleryId)
      && Tables.UniqueKey(homeImages, GalleryId)
      && Tables.UniqueKey(siteSettings, SettingId)
      && Tables.UniqueKey(siteSettings, SettingKey)
    }

    constructor ()
      ensures Valid()
      ensures blogPosts == [] && images == [] && pageContent == []
      ensures landingImages == [] && homeImages == [] && siteSettings == []
    {
      blogPosts, images, pageContent := [], [], [];
      landingImages, homeImages, siteSettings := [], [], [];
    }

    // ---------------------------------------------------------------- blog posts

    method GetBlogPosts(storeError: bool) returns (posts: seq<BlogPost>)
      ensures posts == if storeError then [] else PublishedNewestFirst(blogPosts)
    {
      if storeError {
        posts := [];
      } else {
        posts := PublishedNewestFirst(blogPosts);
      }
    }

    method GetBlogPostBySlug(slug: string, storeError: bool) returns (post: Option<BlogPost>)
      ensures storeError ==> post.None?
      ensures !storeError ==> post == MaybeSingle(PublishedWithSlug(blogPosts, slug))
      ensures post.Some? ==> post.value in blogPosts && post.value.published && post.value.slug == slug
    {
      if storeError {
        post := None;
      } else {
        post := MaybeSingle(PublishedWithSlug(blogPosts, slug));
      }
    }

    method CreateBlogPost(draft: PostDraft, newId: string, now: string, storeError: bool)
      returns (created: Option<BlogPost>)
      requires Valid()
      modifies this`blogPosts
      ensures Valid()
      ensures created.Some? <==> !storeError && !Tables.HasKey(old(blogPosts), PostId, newId)
      ensures created.Some? ==> created.value == PostFromDraft(draft, newId, now)
                                && blogPosts == old(blogPosts) + [created.value]
      ensures created.None? ==> blogPosts == old(blogPosts)
    {
      if storeError || Tables.HasKey(blogPosts, PostId, newId) {
        created := None;
      } else {
        var row := PostFromDraft(draft, newId, now);
        Tables.AppendFreshKey(blogPosts, PostId, row);
        blogPosts := blogPosts + [row];
        created := Some(row);
      }
    }

    /** `update(...).eq('id', id).select().single()`: no matching row is an error. */
    method UpdateBlogPost(id: string, patch: PostPatch, now: string, storeError: bool)
      returns (updated: Option<BlogPost>)
      requires Valid()
      modifies this`blogPosts
      ensures Valid()
      ensures updated.Some? <==> !storeError && Tables.HasKey(old(blogPosts), PostId, id)
      ensures updated.None? ==> blogPosts == old(blogPosts)
      ensures updated.Some? ==>
                blogPosts == Tables.MapWhere(old(blogPosts), Tables.KeyIs(PostId, id), RefreshPost(patch, now))
      ensures updated.Some? ==> updated.value in blogPosts && updated.value.id == id && updated.value.updated_at == now
    {
      var i := Tables.FindFirst(blogPosts, Tables.KeyIs(PostId, id));
      Tables.FindHasKey(blogPosts, PostId, id);
      if storeError || i.None? {
        updated := None;
      } else {
        var row := RefreshPost(patch, now)(blogPosts[i.value]);
        RefreshPostRow(patch, now, blogPosts[i.value]);
        Tables.UpdateUnique(blogPosts, PostId, id, RefreshPost(patch, now), i.value);
        blogPosts := Tables.MapWhere(blogPosts, Tables.KeyIs(PostId, id), RefreshPost(patch, now));
        updated := Some(row);
      }
    }

    method DeleteBlogPost(id: string, storeError: bool) returns (ok: bool)
      requires Valid()
      modifies this`blogPosts
      ensures Valid()
      ensures ok == !storeError
      ensures blogPosts == if ok then Tables.RemoveWhere(old(blogPosts), Tables.KeyIs(PostId, id)) else old(blogPosts)
    {
      if storeError {
        ok := false;
      } else {
        var rest := Tables.RemoveWhere(blogPosts, Tables.KeyIs(PostId, id));
        Tables.SubseqKeepsKeys(rest, blogPosts, PostId);
        blogPosts := rest;
        ok := true;
      }
    }

    // ---------------------------------------------------------------- image library

    method GetImages(storeError: bool) returns (rows: seq<LibraryImage>)
      ensures rows == if storeError then [] else NewestFirst(ImageUploadedAt, images)
    {
      if storeError {
        rows := [];
      } else {
        rows := NewestFirst(ImageUploadedAt, images);
      }
    }

    method UploadImage(draft: LibraryDraft, newId: string, now: string, storeError: bool)
      returns (created: Option<LibraryImage>)
      requires Valid()
      modifies this`images
      ensures Valid()
      ensures created.Some? <==> !storeError && !Tables.HasKey(old(images), ImageId, newId)
      ensures created.Some? ==> created.value == LibraryImage(newId, draft.name, draft.url, draft.size, now)
                                && images == old(images) + [created.value]
      ensures created.None? ==> images == old(images)
    {
      if storeError || Tables.HasKey(images, ImageId, newId) {
        created := None;
      } else {
        var row := LibraryImage(newId, draft.name, draft.url, draft.size, now);
        Tables.AppendFreshKey(images, ImageId, row);
        images := images + [row];
        created := Some(row);
      }
    }

    method DeleteImage(id: string, storeError: bool) returns (ok: bool)
      requires Valid()
      modifies this`images
      ensures Valid()
      ensures ok == !storeError
      ensures images == if ok then Tables.RemoveWhere(old(images), Tables.KeyIs(ImageId, id)) else old(images)
    {
      if storeError {
        ok := false;
      } else {
        var rest := Tables.RemoveWhere(images, Tables.KeyIs(ImageId, id));
        Tables.SubseqKeepsKeys(rest, images, ImageId);
        images := rest;
        ok := true;
      }
    }

    // ---------------------------------------------------------------- page content

    method GetPageContent(pageId: string, storeError: bool) returns (row: Option<PageContent>)
      requires Valid()
      ensures storeError ==> row.None?
      ensures !storeError ==> (row.Some? <==> Tables.HasKey(pageContent, PageKey, pageId))
      ensures row.Some? ==> row.value in pageContent && row.value.page_id == pageId
    {
      var i := Tables.FindFirst(pageContent, Tables.KeyIs(PageKey, pageId));
      if storeError || i.None? {
        row := None;
      } else {
        row := Some(pageContent[i.value]);
      }
    }

    /** Check, then update in place or insert. A failed existence check reads
        as "absent"; the insert then fails on the unique `page_id` if the row
        exists after all. */
    method SavePageContent(c: PageDraft, newId: string, now: string, checkError: bool, writeError: bool)
      returns (saved: Option<PageContent>)
      requires Valid()
      modifies this`pageContent
      ensures Valid()
      ensures var existed := Tables.HasKey(old(pageContent), PageKey, c.page_id);
              saved.Some? <==> !writeError
                               && (if existed then !checkError
                                   else !Tables.HasKey(old(pageContent), PageRowId, newId))
      ensures saved.None? ==> pageContent == old(pageContent)
      ensures saved.Some? && Tables.HasKey(old(pageContent), PageKey, c.page_id) ==>
                pageContent == Tables.MapWhere(old(pageContent), Tables.KeyIs(PageKey, c.page_id),
                                               MergeInto(c, now))
      ensures saved.Some? && !Tables.HasKey(old(pageContent), PageKey, c.page_id) ==>
                saved.value == NewPage(c, newId, now) && pageContent == old(pageContent) + [saved.value]
      ensures saved.Some? ==> saved.value in pageContent && saved.value.page_id == c.page_id
                              && saved.value.content == c.content && saved.value.images == c.images
                              && saved.value.updated_at == now
    {
      var i := Tables.FindFirst(pageContent, Tables.KeyIs(PageKey, c.page_id));
      var existing := if checkError then None else i;
      if existing.Some? {
        if writeError {
          saved := None;
        } else {
          var row := MergeInto(c, now)(pageContent[existing.value]);
          Tables.KeyIsApply(PageKey, c.page_id, pageContent[existing.value]);
          Tables.UpdateUnique(pageContent, PageKey, c.page_id, MergeInto(c, now), existing.value);
          Tables.ReplaceUnique(pageContent, PageRowId, existing.value, row);
          pageContent := pageContent[existing.value := row];
          saved := Some(row);
        }
      } else if writeError || i.Some? || Tables.HasKey(pageContent, PageRowId, newId) {
        saved := None;
      } else {
        var row := NewPage(c, newId, now);
        Tables.AppendFreshKey(pageContent, PageKey, row);
        Tables.AppendFreshKey(pageContent, PageRowId, row);
        pageContent := pageContent + [row];
        saved := Some(row);
      }
    }

    method GetAllPageContent(storeError: bool) returns (rows: seq<PageContent>)
      ensures rows == if storeError then [] else NewestFirst(PageUpdatedAt, pageContent)
    {
      if storeError {
        rows := [];
      } else {
        rows := NewestFirst(PageUpdatedAt, pageContent);
      }
    }

    // ---------------------------------------------------------------- landing page images

    method GetLandingPageImages(section: Option<string>, storeError: bool) returns (rows: seq<GalleryImage>)
      ensures rows == if storeError then [] else GalleryQuery(landingImages, section)
    {
      if storeError {
        rows := [];
      } else {
        rows := GalleryQuery(landingImages, section);
      }
    }

    method CreateLandingPageImage(form: GalleryForm, newId: string, now: string, storeError: bool)
      returns (created: Option<GalleryImage>)
      requires Valid()
      modifies this`landingImages
      ensures Valid()
      ensures created.Some? <==> !storeError && !Tables.HasKey(old(landingImages), GalleryId, newId)
      ensures created.Some? ==> created.value == GalleryFromForm(form, newId, now)
                                && landingImages == old(landingImages) + [created.value]
      ensures created.None? ==> landingImages == old(landingImages)
    {
      if storeError || Tables.HasKey(landingImages, GalleryId, newId) {
        created := None;
      } else {
        var row := GalleryFromForm(form, newId, now);
        Tables.AppendFreshKey(landingImages, GalleryId, row);
        landingImages := landingImages + [row];
        created := Some(row);
      }
    }

    method UpdateLandingPageImage(id: string, patch: GalleryPatch, now: string, storeError: bool)
      returns (updated: Option<GalleryImage>)
      requires Valid()
      modifies this`landingImages
      ensures Valid()
      ensures updated.Some? <==> !storeError && Tables.HasKey(old(landingImages), GalleryId, id)
      ensures updated.None? ==> landingImages == old(landingImages)
      ensures updated.Some? ==>
                landingImages == Tables.MapWhere(old(landingImages), Tables.KeyIs(GalleryId, id), RefreshGallery(patch, now))
      ensures updated.Some? ==> updated.value in landingImages && updated.value.id == id && updated.value.updated_at == now
    {
      var i := Tables.FindFirst(landingImages, Tables.KeyIs(GalleryId, id));
      Tables.FindHasKey(landingImages, GalleryId, id);
      if storeError || i.None? {
        updated := None;
      } else {
        var row := RefreshGallery(patch, now)(landingImages[i.value]);
        RefreshGalleryRow(patch, now, landingImages[i.value]);
        Tables.UpdateUnique(landingImages, GalleryId, id, RefreshGallery(patch, now), i.value);
        landingImages := Tables.MapWhere(landingImages, Tables.KeyIs(GalleryId, id), RefreshGallery(patch, now));
        updated := Some(row);
      }
    }

    method DeleteLandingPageImage(id: string, storeError: bool) returns (ok: bool)
      requires Valid()
      modifies this`landingImages
      ensures Valid()
      ensures ok == !storeError
      ensures landingImages == if ok then Tables.RemoveWhere(old(landingImages), Tables.KeyIs(GalleryId, id))
                               else old(landingImages)
    {
      if storeError {
        ok := false;
      } else {
        var rest := Tables.RemoveWhere(landingImages, Tables.KeyIs(GalleryId, id));
        Tables.SubseqKeepsKeys(rest, landingImages, GalleryId);
        landingImages := rest;
        ok := true;
      }
    }

    // ---------------------------------------------------------------- home page images

    method GetHomePageImages(category: Option<string>, storeError: bool) returns (rows: seq<GalleryImage>)
      ensures rows == if storeError then [] else GalleryQuery(homeImages, category)
    {
      if storeError {
        rows := [];
      } else {
        rows := GalleryQuery(homeImages, category);
      }
    }

    method CreateHomePageImage(form: GalleryForm, newId: string, now: string, storeError: bool)
      returns (created: Option<GalleryImage>)
      requires Valid()
      modifies this`homeImages
      ensures Valid()
      ensures created.Some? <==> !storeError && !Tables.HasKey(old(homeImages), GalleryId, newId)
      ensures created.Some? ==> created.value == GalleryFromForm(form, newId, now)
                                && homeImages == old(homeImages) + [created.value]
      ensures created.None? ==> homeImages == old(homeImages)
    {
      if storeError || Tables.HasKey(homeImages, GalleryId, newId) {
        created := None;
      } else {
        var row := GalleryFromForm(form, newId, now);
        Tables.AppendFreshKey(homeImages, GalleryId, row);
        homeImages := homeImages + [row];
        created := Some(row);
      }
    }

    method UpdateHomePageImage(id: string, patch: GalleryPatch, now: string, storeError: bool)
      returns (updated: Option<GalleryImage>)
      requires Valid()
      modifies this`homeImages
      ensures Valid()
      ensures updated.Some? <==> !storeError && Tables.HasKey(old(homeImages), GalleryId, id)
      ensures updated.None? ==> homeImages == old(homeImages)
      ensures updated.Some? ==>
                homeImages == Tables.MapWhere(old(homeImages), Tables.KeyIs(GalleryId, id), RefreshGallery(patch, now))
      ensures updated.Some? ==> updated.value in homeImages && updated.value.id == id && updated.value.updated_at == now
    {
      var i := Tables.FindFirst(homeImages, Tables.KeyIs(GalleryId, id));
      Tables.FindHasKey(homeImages, GalleryId, id);
      if storeError || i.None? {
        updated := None;
      } else {
        var row := RefreshGallery(patch, now)(homeImages[i.value]);
        RefreshGalleryRow(patch, now, homeImages[i.value]);
        Tables.UpdateUnique(homeImages, GalleryId, id, RefreshGallery(patch, now), i.value);
        homeImages := Tables.MapWhere(homeImages, Tables.KeyIs(GalleryId, id), RefreshGallery(patch, now));
        updated := Some(row);
      }
    }

    method DeleteHomePageImage(id: string, storeError: bool) returns (ok: bool)
      requires Valid()
      modifies this`homeImages
      ensures Valid()
      ensures ok == !storeError
      ensures homeImages == if ok then Tables.RemoveWhere(old(homeImages), Tables.KeyIs(GalleryId, id))
                            else old(homeImages)
    {
      if storeError {
        ok := false;
      } else {
        var rest := Tables.RemoveWhere(homeImages, Tables.KeyIs(GalleryId, id));
        Tables.SubseqKeepsKeys(rest, homeImages, GalleryId);
        homeImages := rest;
        ok := true;
      }
    }

    /** `delete().in('id', ids)`. */
    method BulkDeleteHomePageImages(ids: seq<string>, storeError: bool) returns (ok: bool)
      requires Valid()
      modifies this`homeImages
      ensures Valid()
      ensures ok == !storeError
      ensures homeImages == if ok then Tables.RemoveWhere(old(homeImages), Tables.KeyIn(GalleryId, ids))
                            else old(homeImages)
    {
      if storeError {
        ok := false;
      } else {
        var rest := Tables.RemoveWhere(homeImages, Tables.KeyIn(GalleryId, ids));
        Tables.SubseqKeepsKeys(rest, homeImages, GalleryId);
        homeImages := rest;
        ok := true;
      }
    }

    /** `update({ ...updates, updated_at }).in('id', ids)`. */
    method BulkUpdateHomePageImages(ids: seq<string>, patch: GalleryPatch, now: string, storeError: bool)
      returns (ok: bool)
      requires Valid()
      modifies this`homeImages
      ensures Valid()
      ensures ok == !storeError
      ensures homeImages == if ok then Tables.MapWhere(old(homeImages), Tables.KeyIn(GalleryId, ids), RefreshGallery(patch, now))
                            else old(homeImages)
    {
      if storeError {
        ok := false;
      } else {
        Tables.MapWhereKeepsKeys(homeImages, Tables.KeyIn(GalleryId, ids), RefreshGallery(patch, now), GalleryId);
        homeImages := Tables.MapWhere(homeImages, Tables.KeyIn(GalleryId, ids), RefreshGallery(patch, now));
        ok := true;
      }
    }

    // ---------------------------------------------------------------- site settings

    method GetSiteSetting(key: string, storeError: bool) returns (row: Option<SiteSetting>)
      requires Valid()
      ensures storeError ==> row.None?
      ensures !storeError ==> (row.Some? <==> Tables.HasKey(siteSettings, SettingKey, key))
      ensures row.Some? ==> row.value in siteSettings && row.value.setting_key == key
    {
      var i := Tables.FindFirst(siteSettings, Tables.KeyIs(SettingKey, key));
      if storeError || i.None? {
        row := None;
      } else {
        row := Some(siteSettings[i.value]);
      }
    }

    /** Check, then update value and type in place or insert a new row; the
        type defaults to "text". A failed check reads as "absent". */
    method UpdateSiteSetting(key: string, value: string, newId: string, now: string,
                             checkError: bool, writeError: bool, settingType: string := "text")
      returns (saved: Option<SiteSetting>)
      requires Valid()
      modifies this`siteSettings
      ensures Valid()
      ensures var existed := Tables.HasKey(old(siteSettings), SettingKey, key);
              saved.Some? <==> !writeError
                               && (if existed then !checkError
                                   else !Tables.HasKey(old(siteSettings), SettingId, newId))
      ensures saved.None? ==> siteSettings == old(siteSettings)
      ensures saved.Some? && Tables.HasKey(old(siteSettings), SettingKey, key) ==>
                siteSettings == Tables.MapWhere(old(siteSettings), Tables.KeyIs(SettingKey, key),
                                                Rewrite(value, settingType, now))
      ensures saved.Some? && !Tables.HasKey(old(siteSettings), SettingKey, key) ==>
                saved.value == NewSetting(key, value, settingType, newId, now)
                && siteSettings == old(siteSettings) + [saved.value]
      ensures saved.Some? ==>
                saved.value in siteSettings && saved.value.setting_key == key
                && saved.value.setting_value == value && saved.value.setting_type == settingType
    {
      var i := Tables.FindFirst(siteSettings, Tables.KeyIs(SettingKey, key));
      var existing := if checkError then None else i;
      if existing.Some? {
        if writeError {
          saved := None;
        } else {
          var row := Rewrite(value, settingType, now)(siteSettings[existing.value]);
          Tables.KeyIsApply(SettingKey, key, siteSettings[existing.value]);
          Tables.UpdateUnique(siteSettings, SettingKey, key, Rewrite(value, settingType, now), existing.value);
          Tables.ReplaceUnique(siteSettings, SettingId, existing.value, row);
          siteSettings := siteSettings[existing.value := row];
          saved := Some(row);
        }
      } else if writeError || i.Some? || Tables.HasKey(siteSettings, SettingId, newId) {
        saved := None;
      } else {
        var row := NewSetting(key, value, settingType, newId, now);
        Tables.AppendFreshKey(siteSettings, SettingKey, row);
        Tables.AppendFreshKey(siteSettings, SettingId, row);
        siteSettings := siteSettings + [row];
        saved := Some(row);
      }
    }
  }

  /** After a successful upsert the saved row is the only row holding its
      key, so the key reads back the new value and type. */
  lemma UpsertLeavesOneRow(rows: seq<SiteSetting>, saved: SiteSetting)
    requires Tables.UniqueKey(rows, SettingKey)
    requires saved in rows
    ensures forall k :: 0 <= k < |rows| && rows[k].setting_key == saved.setting_key ==> rows[k] == saved
  {
    var i :| 0 <= i < |rows| && rows[i] == saved;
    forall k | 0 <= k < |rows| && rows[k].setting_key == saved.setting_key
      ensures rows[k] == saved
    {
      Tables.SameKeySameRow(rows, SettingKey, i, k);
    }
  }
}
