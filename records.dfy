/** The `Option` of a missing value (`null`/`undefined` in the source). */
module Options {
  datatype Option<+T> = None | Some(value: T)

  function GetOr<T>(o: Option<T>, default: T): T
  {
    match o
    case Some(v) => v
    case None => default
  }

  /** A JavaScript value that is present and not the empty string, as `if (v)` tests it. */
  predicate Truthy(o: Option<string>)
  {
    o.Some? && o.value != ""
  }
}

/** The rows of the record store's collections (the interfaces of
    src/lib/supabase.ts and the shapes the admin forms write). */
module Records {
  import opened Options

  datatype BlogPost = BlogPost(
    id: string,
    title: string,
    slug: string,
    excerpt: string,
    content: string,
    category: string,
    tags: seq<string>,
    featured_image: string,
    author: string,
    published: bool,
    created_at: string,
    updated_at: string)

  /** A post as the admin form sends it: a `BlogPost` without id and timestamps. */
  datatype PostDraft = PostDraft(
    title: string,
    slug: string,
    excerpt: string,
    content: string,
    category: string,
    tags: seq<string>,
    featured_image: string,
    author: string,
    published: bool)

  /** `Partial<BlogPost>` over the editable columns: `None` leaves a column as it is. */
  datatype PostPatch = PostPatch(
    title: Option<string>,
    slug: Option<string>,
    excerpt: Option<string>,
    content: Option<string>,
    category: Option<string>,
    tags: Option<seq<string>>,
    featured_image: Option<string>,
    author: Option<string>,
    published: Option<bool>)

  /** `{ ...post, ...patch, updated_at: now }`. */
  function ApplyPostPatch(p: BlogPost, u: PostPatch, now: string): BlogPost
  {
    BlogPost(p.id, GetOr(u.title, p.title), GetOr(u.slug, p.slug), GetOr(u.excerpt, p.excerpt),
             GetOr(u.content, p.content), GetOr(u.category, p.category), GetOr(u.tags, p.tags),
             GetOr(u.featured_image, p.featured_image), GetOr(u.author, p.author),
             GetOr(u.published, p.published), p.created_at, now)
  }

  /** A whole draft used as an update: every editable column is set. */
  function DraftAsPatch(d: PostDraft): PostPatch
  {
    PostPatch(Some(d.title), Some(d.slug), Some(d.excerpt), Some(d.content), Some(d.category),
              Some(d.tags), Some(d.featured_image), Some(d.author), Some(d.published))
  }

  /** The row the store creates from a draft. */
  function PostFromDraft(d: PostDraft, id: string, now: string): BlogPost
  {
    BlogPost(id, d.title, d.slug, d.excerpt, d.content, d.category, d.tags,
             d.featured_image, d.author, d.published, now, now)
  }

  /** A row of the flat asset library (`images`). */
  datatype LibraryImage = LibraryImage(id: string, name: string, url: string, size: int, uploaded_at: string)

  datatype LibraryDraft = LibraryDraft(name: string, url: string, size: int)

  /** A row of `page_content`; the free-form payload is a string map. */
  datatype PageContent = PageContent(
    id: string,
    page_id: string,
    title: Option<string>,
    subtitle: Option<string>,
    content: map<string, string>,
    images: seq<string>,
    updated_at: string)

  datatype PageDraft = PageDraft(
    page_id: string,
    title: Option<string>,
    subtitle: Option<string>,
    content: map<string, string>,
    images: seq<string>)

  /** A row of `landing_page_images` or `home_page_images`; `group` is the
      `section` column of the first and the `category` column of the second. */
  datatype GalleryImage = GalleryImage(
    id: string,
    image_url: string,
    image_name: string,
    alt_text: Option<string>,
    file_size: int,
    display_order: int,
    group: string,
    is_active: bool,
    created_at: string,
    updated_at: string)

  /** The image form's data, as it is inserted or used as an update. */
  datatype GalleryForm = GalleryForm(
    image_url: string,
    image_name: string,
    alt_text: string,
    file_size: int,
    display_order: int,
    section: string,
    is_active: bool)

  datatype GalleryPatch = GalleryPatch(
    image_url: Option<string>,
    image_name: Option<string>,
    alt_text: Option<string>,
    file_size: Option<int>,
    display_order: Option<int>,
    group: Option<string>,
    is_active: Option<bool>)

  /** `{ ...image, ...patch, updated_at: now }`. */
  function ApplyGalleryPatch(g: GalleryImage, u: GalleryPatch, now: string): GalleryImage
  {
    GalleryImage(g.id, GetOr(u.image_url, g.image_url), GetOr(u.image_name, g.image_name),
                 if u.alt_text.Some? then u.alt_text else g.alt_text,
                 GetOr(u.file_size, g.file_size), GetOr(u.display_order, g.display_order),
                 GetOr(u.group, g.group), GetOr(u.is_active, g.is_active), g.created_at, now)
  }

  function FormAsPatch(f: GalleryForm): GalleryPatch
  {
    GalleryPatch(Some(f.image_url), Some(f.image_name), Some(f.alt_text), Some(f.file_size),
                 Some(f.display_order), Some(f.section), Some(f.is_active))
  }

  function GalleryFromForm(f: GalleryForm, id: string, now: string): GalleryImage
  {
    GalleryImage(id, f.image_url, f.image_name, Some(f.alt_text), f.file_size,
                 f.display_order, f.section, f.is_active, now, now)
  }

  /** A row of `site_settings`. */
  datatype SiteSetting = SiteSetting(
    id: string,
    setting_key: string,
    setting_value: string,
    setting_type: string,
    updated_at: string)
}

/** Row-sequence operations shared by the in-memory tables: first match,
    key uniqueness, update-where and delete-where. */
module Tables {
  import opened Options
  import Seqs

  /** `rows.findIndex(sel)`, with `None` for -1. */
  function FindFirst<T>(rows: seq<T>, sel: T -> bool): (r: Option<nat>)
    ensures r.None? ==> forall k :: 0 <= k < |rows| ==> !sel(rows[k])
    ensures r.Some? ==> r.value < |rows| && sel(rows[r.value])
                        && forall k :: 0 <= k < r.value ==> !sel(rows[k])
    decreases |rows|
  {
    if rows == [] then None
    else if sel(rows[0]) then Some(0)
    else match FindFirst(rows[1..], sel)
      case None => None
      case Some(i) => Some(i + 1)
  }

  /** The row selector of `.eq(column, v)`. */
  function KeyIs<T>(key: T -> string, v: string): T -> bool
  {
    x => key(x) == v
  }

  /** The row selector of `.in(column, vs)`. */
  function KeyIn<T>(key: T -> string, vs: seq<string>): T -> bool
  {
    x => key(x) in vs
  }

  /** No two rows share a key. */
  predicate UniqueKey<T>(rows: seq<T>, key: T -> string)
  {
    forall i, j :: 0 <= i < j < |rows| ==> key(rows[i]) != key(rows[j])
  }

  /** Under unique keys, two rows with the same key are the same row. */
  lemma SameKeySameRow<T>(rows: seq<T>, key: T -> string, i: nat, k: nat)
    requires UniqueKey(rows, key) && i < |rows| && k < |rows| && key(rows[i]) == key(rows[k])
    ensures i == k
  {
  }

  predicate HasKey<T>(rows: seq<T>, key: T -> string, v: string)
  {
    exists k | 0 <= k < |rows| :: key(rows[k]) == v
  }

  /** Appending a row whose key is new keeps keys unique. */
  lemma AppendFreshKey<T>(rows: seq<T>, key: T -> string, x: T)
    requires UniqueKey(rows, key)
    requires !HasKey(rows, key, key(x))
    ensures UniqueKey(rows + [x], key)
  {
    var s := rows + [x];
    forall i, j | 0 <= i < j < |s| ensures key(s[i]) != key(s[j]) {
      if j == |rows| {
        assert s[i] == rows[i];
      }
    }
  }

  /** Replacing the row that holds a unique key by one with the same key
      changes no other row and keeps keys unique. */
  lemma ReplaceUnique<T>(rows: seq<T>, key: T -> string, i: nat, x: T)
    requires UniqueKey(rows, key) && i < |rows| && key(x) == key(rows[i])
    ensures UniqueKey(rows[i := x], key)
    ensures forall k :: 0 <= k < |rows| && k != i ==> key(rows[k]) != key(rows[i])
  {
    var s := rows[i := x];
    forall a, b | 0 <= a < b < |s| ensures key(s[a]) != key(s[b]) {
      assert key(s[a]) == key(rows[a]) && key(s[b]) == key(rows[b]);
    }
    forall k | 0 <= k < |rows| && k != i ensures key(rows[k]) != key(rows[i]) {
      if k < i {
        assert key(rows[k]) != key(rows[i]);
      }
    }
  }

  /** `findIndex` on a key finds a row exactly when some row holds the key. */
  lemma FindHasKey<T>(rows: seq<T>, key: T -> string, v: string)
    ensures FindFirst(rows, KeyIs(key, v)).Some? <==> HasKey(rows, key, v)
    ensures FindFirst(rows, KeyIs(key, v)).Some? ==> key(rows[FindFirst(rows, KeyIs(key, v)).value]) == v
  {
    var i := FindFirst(rows, KeyIs(key, v));
    if i.Some? {
      KeyIsApply(key, v, rows[i.value]);
    } else {
      forall k | 0 <= k < |rows| ensures key(rows[k]) != v {
        KeyIsApply(key, v, rows[k]);
      }
    }
  }

  lemma KeyIsApply<T>(key: T -> string, v: string, x: T)
    ensures KeyIs(key, v)(x) <==> key(x) == v
  {
  }

  /** Under unique keys, `update(f).eq(key, v)` rewrites just the row at the
      index that holds `v`; when `f` keeps the key, keys stay unique. */
  lemma UpdateUnique<T>(rows: seq<T>, key: T -> string, v: string, f: T -> T, i: nat)
    requires UniqueKey(rows, key) && i < |rows| && key(rows[i]) == v
    requires key(f(rows[i])) == v
    ensures MapWhere(rows, KeyIs(key, v), f) == rows[i := f(rows[i])]
    ensures UniqueKey(MapWhere(rows, KeyIs(key, v), f), key)
    ensures f(rows[i]) in MapWhere(rows, KeyIs(key, v), f)
  {
    ReplaceUnique(rows, key, i, f(rows[i]));
    var m := MapWhere(rows, KeyIs(key, v), f);
    forall k | 0 <= k < |rows| ensures rows[i := f(rows[i])][k] == m[k] {
      KeyIsApply(key, v, rows[k]);
    }
    assert m[i] == f(rows[i]);
  }

  /** `update(...).eq(col, v)`: each selected row replaced by `f` of it. */
  function MapWhere<T>(rows: seq<T>, sel: T -> bool, f: T -> T): (r: seq<T>)
    ensures |r| == |rows|
    ensures forall k :: 0 <= k < |rows| ==> r[k] == if sel(rows[k]) then f(rows[k]) else rows[k]
  {
    seq(|rows|, k requires 0 <= k < |rows| => if sel(rows[k]) then f(rows[k]) else rows[k])
  }

  /** An update that keeps the key column keeps keys unique. */
  lemma MapWhereKeepsKeys<T>(rows: seq<T>, sel: T -> bool, f: T -> T, key: T -> string)
    requires UniqueKey(rows, key)
    requires forall x :: key(f(x)) == key(x)
    ensures UniqueKey(MapWhere(rows, sel, f), key)
  {
  }

  /** `delete().eq(col, v)`: the rows that are not selected, in order. */
  function RemoveWhere<T(==)>(rows: seq<T>, sel: T -> bool): (r: seq<T>)
    ensures Seqs.IsSubseq(r, rows)
    ensures forall k :: 0 <= k < |r| ==> !sel(r[k]) && r[k] in rows
    ensures forall k :: 0 <= k < |rows| && !sel(rows[k]) ==> rows[k] in r
  {
    Seqs.Filter(x => !sel(x), rows)
  }

  /** Keys stay unique when rows are only removed. */
  lemma {:induction false} SubseqKeepsKeys<T>(a: seq<T>, b: seq<T>, key: T -> string)
    requires Seqs.IsSubseq(a, b) && UniqueKey(b, key)
    ensures UniqueKey(a, key)
    decreases |b|
  {
    if a != [] {
      if a[0] == b[0] && Seqs.IsSubseq(a[1..], b[1..]) {
        SubseqKeepsKeys(a[1..], b[1..], key);
        forall j | 0 < j < |a| ensures key(a[0]) != key(a[j]) {
          Seqs.SubseqMembers(a[1..], b[1..], a[j]);
          var m :| 0 <= m < |b[1..]| && b[1..][m] == a[1..][j - 1];
          assert b[m + 1] == a[j];
        }
      } else {
        SubseqKeepsKeys(a, b[1..], key);
      }
    }
  }
}
