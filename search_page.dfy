/** The search page of src/pages/SearchPage.tsx: the published posts it
    loads, the three optional filters over them, the tag toggle, and the
    category and tag choices the page offers. */
module SearchPage {
  import opened Records
  import opened JsText
  import Seqs

  /** The page's state: the text query, the selected category (`""` for
      none), the selected tags, and the loaded posts. */
  datatype SearchState = SearchState(
    query: string,
    selectedCategory: string,
    selectedTags: seq<string>,
    allPosts: seq<BlogPost>)

  function IsPublished(p: BlogPost): bool { p.published }

  /** `loadPosts`: only published posts are kept, in fetched order. */
  function LoadedPosts(fetched: seq<BlogPost>): (r: seq<BlogPost>)
    ensures Seqs.IsSubseq(r, fetched)
    ensures forall k :: 0 <= k < |r| ==> r[k].published
    ensures forall k :: 0 <= k < |fetched| && fetched[k].published ==> fetched[k] in r
  {
    Seqs.Filter(IsPublished, fetched)
  }

  // ------------------------------------------------------------------ the three filters

  /** The lower-cased query occurs in the lower-cased title, excerpt, content or some tag. */
  predicate MatchesQuery(p: BlogPost, lowerQuery: string)
  {
    || Includes(LowerAscii(p.title), lowerQuery)
    || Includes(LowerAscii(p.excerpt), lowerQuery)
    || Includes(LowerAscii(p.content), lowerQuery)
    || exists k | 0 <= k < |p.tags| :: Includes(LowerAscii(p.tags[k]), lowerQuery)
  }

  /** The post carries at least one of the selected tags. */
  predicate HasAnyTag(p: BlogPost, tags: seq<string>)
  {
    exists k | 0 <= k < |tags| :: tags[k] in p.tags
  }

  function QuerySelector(lowerQuery: string): BlogPost -> bool
  {
    (p: BlogPost) => MatchesQuery(p, lowerQuery)
  }

  function CategorySelector(category: string): BlogPost -> bool
  {
    (p: BlogPost) => p.category == category
  }

  function TagSelector(tags: seq<string>): BlogPost -> bool
  {
    (p: BlogPost) => HasAnyTag(p, tags)
  }

  /** The query filter runs only when the trimmed query is non-empty, and
      matches with the untrimmed lower-cased query. */
  function ByQuery(posts: seq<BlogPost>, query: string): seq<BlogPost>
  {
    if Trim(query) != "" then Seqs.Filter(QuerySelector(LowerAscii(query)), posts) else posts
  }

  function ByCategory(posts: seq<BlogPost>, category: string): seq<BlogPost>
  {
    if category != "" then Seqs.Filter(CategorySelector(category), posts) else posts
  }

  function ByTags(posts: seq<BlogPost>, tags: seq<string>): seq<BlogPost>
  {
    if |tags| > 0 then Seqs.Filter(TagSelector(tags), posts) else posts
  }

  /** `filterPosts`: query, then category, then tags. */
  function FilterPosts(all: seq<BlogPost>, query: string, category: string, tags: seq<string>): (r: seq<BlogPost>)
    ensures Seqs.IsSubseq(r, all)
  {
    var a := ByQuery(all, query);
    var b := ByCategory(a, category);
    var c := ByTags(b, tags);
    Seqs.SubseqRefl(all);
    Seqs.SubseqRefl(a);
    Seqs.SubseqRefl(b);
    Seqs.SubseqTrans(c, b, a);
    Seqs.SubseqTrans(c, a, all);
    c
  }

  function Results(s: SearchState): seq<BlogPost>
  {
    FilterPosts(s.allPosts, s.query, s.selectedCategory, s.selectedTags)
  }

  /** The conditions a post must meet to be shown. */
  predicate Shown(p: BlogPost, query: string, category: string, tags: seq<string>)
  {
    && (Trim(query) != "" ==> MatchesQuery(p, LowerAscii(query)))
    && (category != "" ==> p.category == category)
    && (|tags| > 0 ==> HasAnyTag(p, tags))
  }

  /** A post is shown exactly when it is loaded and meets every active filter. */
  lemma FilterPostsMembers(all: seq<BlogPost>, query: string, category: string, tags: seq<string>, p: BlogPost)
    ensures p in FilterPosts(all, query, category, tags) <==> p in all && Shown(p, query, category, tags)
  {
    var a := ByQuery(all, query);
    var b := ByCategory(a, category);
    assert p in a <==> p in all && (Trim(query) != "" ==> MatchesQuery(p, LowerAscii(query))) by {
      if Trim(query) != "" {
        Seqs.FilterMembers(QuerySelector(LowerAscii(query)), all, p);
      }
    }
    assert p in b <==> p in a && (category != "" ==> p.category == category) by {
      if category != "" {
        Seqs.FilterMembers(CategorySelector(category), a, p);
      }
    }
    if |tags| > 0 {
      Seqs.FilterMembers(TagSelector(tags), b, p);
    }
  }

  /** With no active filter the results are exactly the loaded posts. */
  lemma NoFilterShowsAll(all: seq<BlogPost>, query: string)
    requires Trim(query) == ""
    ensures FilterPosts(all, query, "", []) == all
  {
  }

  // ------------------------------------------------------------------ tag toggle

  function Other(tag: string): string -> bool
  {
    (t: string) => t != tag
  }

  /** `toggleTag`: drop the tag where it is selected, append it where it is not. */
  function ToggleTag(prev: seq<string>, tag: string): seq<string>
  {
    if tag in prev then Seqs.Filter(Other(tag), prev) else prev + [tag]
  }

  /** The toggled tag changes membership; every other tag keeps its own. */
  lemma ToggleMembers(prev: seq<string>, tag: string, t: string)
    ensures t in ToggleTag(prev, tag) <==> if t == tag then tag !in prev else t in prev
  {
    if tag in prev {
      Seqs.FilterMembers(Other(tag), prev, t);
    }
  }

  /** A list without duplicates stays without duplicates. */
  lemma ToggleDistinct(prev: seq<string>, tag: string)
    requires Seqs.NoDuplicates(prev)
    ensures Seqs.NoDuplicates(ToggleTag(prev, tag))
  {
    if tag in prev {
      Seqs.SubseqNoDuplicates(ToggleTag(prev, tag), prev);
    }
  }

  /** Selecting a tag and deselecting it again gives back the original selection. */
  lemma ToggleTwice(prev: seq<string>, tag: string)
    requires tag !in prev
    ensures ToggleTag(ToggleTag(prev, tag), tag) == prev
  {
    var keep := Other(tag);
    assert tag in prev + [tag];
    Seqs.FilterAppend(keep, prev, [tag]);
    Seqs.FilterAll(keep, prev);
    assert Seqs.Filter(keep, [tag]) == [] by {
      assert [tag][1..] == [];
    }
  }

  // ------------------------------------------------------------------ clearing

  function ClearFilters(s: SearchState): SearchState
  {
    SearchState("", "", [], s.allPosts)
  }

  /** `hasActiveFilters`. */
  predicate HasActiveFilters(s: SearchState)
  {
    Trim(s.query) != "" || s.selectedCategory != "" || |s.selectedTags| > 0
  }

  /** After clearing, no filter is active and every loaded post is shown. */
  lemma ClearShowsAll(s: SearchState)
    ensures !HasActiveFilters(ClearFilters(s))
    ensures Results(ClearFilters(s)) == s.allPosts
  {
    assert Trim("") == "";
  }

  /** Whenever no filter is active, the results are the loaded posts. */
  lemma InactiveShowsAll(s: SearchState)
    requires !HasActiveFilters(s)
    ensures Results(s) == s.allPosts
  {
  }

  // ------------------------------------------------------------------ choices

  /** `Array.from(new Set(allPosts.map(post => post.category)))`. */
  function Categories(posts: seq<BlogPost>): seq<string>
  {
    Seqs.Dedup(seq(|posts|, k requires 0 <= k < |posts| => posts[k].category))
  }

  /** `Array.from(new Set(allPosts.flatMap(post => post.tags)))`. */
  function TagChoices(posts: seq<BlogPost>): seq<string>
  {
    Seqs.Dedup(Seqs.Flatten(seq(|posts|, k requires 0 <= k < |posts| => posts[k].tags)))
  }

  /** Each category appears once, and exactly the categories of some post appear. */
  lemma CategoriesExact(posts: seq<BlogPost>, c: string)
    ensures Seqs.NoDuplicates(Categories(posts))
    ensures c in Categories(posts) <==> exists k :: 0 <= k < |posts| && posts[k].category == c
  {
    var cs := seq(|posts|, k requires 0 <= k < |posts| => posts[k].category);
    Seqs.DedupMembers(cs, c);
    if exists k :: 0 <= k < |posts| && posts[k].category == c {
      var k :| 0 <= k < |posts| && posts[k].category == c;
      assert cs[k] == c;
    }
  }

  /** Each tag appears once, and exactly the tags of some post appear. */
  lemma TagChoicesExact(posts: seq<BlogPost>, t: string)
    ensures Seqs.NoDuplicates(TagChoices(posts))
    ensures t in TagChoices(posts) <==> exists k :: 0 <= k < |posts| && t in posts[k].tags
  {
    var ts := seq(|posts|, k requires 0 <= k < |posts| => posts[k].tags);
    Seqs.DedupMembers(Seqs.Flatten(ts), t);
    Seqs.FlattenMembers(ts, t);
    if exists k :: 0 <= k < |ts| && t in ts[k] {
      var k :| 0 <= k < |ts| && t in ts[k];
      assert t in posts[k].tags;
    }
    if exists k :: 0 <= k < |posts| && t in posts[k].tags {
      var k :| 0 <= k < |posts| && t in posts[k].tags;
      assert t in ts[k];
    }
  }
}
