/** The text rules of the blog-post admin form of
    src/components/admin/BlogPostsManager.tsx: the slug a title yields and
    the tag list a comma-separated field yields. */
module PostText {
  import opened JsText
  import Seqs

  // ------------------------------------------------------------------ slugs

  /** The characters `[a-z0-9]` that a slug keeps. */
  predicate IsSlugChar(c: char)
  {
    ('a' <= c <= 'z') || ('0' <= c <= '9')
  }

  predicate SlugText(s: string)
  {
    forall k :: 0 <= k < |s| ==> IsSlugChar(s[k]) || s[k] == '-'
  }

  predicate NoDoubleHyphen(s: string)
  {
    forall k :: 0 <= k < |s| - 1 ==> s[k] != '-' || s[k + 1] != '-'
  }

  /** Only `[a-z0-9-]`, single hyphens, and no hyphen at either end. */
  predicate IsSlug(s: string)
  {
    SlugText(s) && NoDoubleHyphen(s) && (s != [] ==> s[0] != '-' && s[|s| - 1] != '-')
  }

  /** Drops the leading run of characters outside `[a-z0-9]`. */
  function SkipRun(s: string): (r: string)
    ensures |r| <= |s| && r == s[|s| - |r|..]
    ensures r != [] ==> IsSlugChar(r[0])
    ensures forall k :: 0 <= k < |s| - |r| ==> !IsSlugChar(s[k])
  {
    if s != [] && !IsSlugChar(s[0]) then
      var r := SkipRun(s[1..]);
      assert forall k :: 1 <= k < |s| - |r| ==> s[k] == s[1..][k - 1];
      assert s[|s| - |r|..] == s[1..][|s| - 1 - |r|..];
      r
    else s
  }

  /** `replace(/[^a-z0-9]+/g, '-')`: each maximal run outside `[a-z0-9]`
      becomes one hyphen. */
  function Collapse(s: string): (r: string)
    ensures SlugText(r) && NoDoubleHyphen(r)
    ensures r != [] ==> s != [] && (r[0] == '-' <==> !IsSlugChar(s[0]))
    decreases |s|
  {
    if s == [] then []
    else if IsSlugChar(s[0]) then [s[0]] + Collapse(s[1..])
    else
      var rest := Collapse(SkipRun(s[1..]));
      assert rest != [] ==> rest[0] != '-';
      "-" + rest
  }

  /** `replace(/^-|-$/g, '')`: one hyphen off the front, one off the back. */
  function TrimHyphens(s: string): string
  {
    var a := if s != [] && s[0] == '-' then s[1..] else s;
    if a != [] && a[|a| - 1] == '-' then a[..|a| - 1] else a
  }

  /** The slug derived from a title. */
  function Slug(title: string): string
  {
    TrimHyphens(Collapse(LowerAscii(title)))
  }

  /** A derived slug is URL-safe: `[a-z0-9-]` only, no double hyphen, no hyphen at an end. */
  lemma SlugIsSlug(title: string)
    ensures IsSlug(Slug(title))
  {
    var r := Collapse(LowerAscii(title));
    var a := if r != [] && r[0] == '-' then r[1..] else r;
    assert SlugText(a) && NoDoubleHyphen(a);
    assert a != [] ==> a[0] != '-';
    var b := TrimHyphens(r);
    assert b == if a != [] && a[|a| - 1] == '-' then a[..|a| - 1] else a;
    if a != [] && a[|a| - 1] == '-' && |a| >= 2 {
      assert a[|a| - 2] != '-';
    }
  }

  /** Collapsing text that is already in slug form changes nothing. */
  lemma {:induction false} CollapseFixed(s: string)
    requires SlugText(s) && NoDoubleHyphen(s)
    ensures Collapse(s) == s
    decreases |s|
  {
    if s != [] {
      assert SlugText(s[1..]) && NoDoubleHyphen(s[1..]);
      if IsSlugChar(s[0]) {
        CollapseFixed(s[1..]);
      } else {
        assert s[1..] == [] || IsSlugChar(s[1]);
        assert SkipRun(s[1..]) == s[1..];
        CollapseFixed(s[1..]);
      }
      assert s == [s[0]] + s[1..];
    }
  }

  lemma LowerSlugText(s: string)
    requires SlugText(s)
    ensures LowerAscii(s) == s
  {
  }

  /** Deriving a slug from a derived slug returns it unchanged. */
  lemma SlugIdempotent(title: string)
    ensures Slug(Slug(title)) == Slug(title)
  {
    var s := Slug(title);
    SlugIsSlug(title);
    LowerSlugText(s);
    CollapseFixed(s);
  }

  /** The runs that collapse hold no letter or digit. */
  lemma {:induction false} SkipRunKeepsAlphanumerics(s: string)
    ensures Seqs.Filter(IsSlugChar, SkipRun(s)) == Seqs.Filter(IsSlugChar, s)
    decreases |s|
  {
    if s != [] && !IsSlugChar(s[0]) {
      SkipRunKeepsAlphanumerics(s[1..]);
    }
  }

  lemma {:induction false} CollapseKeepsAlphanumerics(s: string)
    ensures Seqs.Filter(IsSlugChar, Collapse(s)) == Seqs.Filter(IsSlugChar, s)
    decreases |s|
  {
    if s != [] {
      if IsSlugChar(s[0]) {
        CollapseKeepsAlphanumerics(s[1..]);
        assert ([s[0]] + Collapse(s[1..]))[1..] == Collapse(s[1..]);
      } else {
        var t := SkipRun(s[1..]);
        CollapseKeepsAlphanumerics(t);
        SkipRunKeepsAlphanumerics(s[1..]);
        assert ("-" + Collapse(t))[1..] == Collapse(t);
      }
    }
  }

  lemma TrimHyphensKeepsAlphanumerics(s: string)
    ensures Seqs.Filter(IsSlugChar, TrimHyphens(s)) == Seqs.Filter(IsSlugChar, s)
  {
    var a := if s != [] && s[0] == '-' then s[1..] else s;
    if s != [] && s[0] == '-' {
      assert Seqs.Filter(IsSlugChar, s) == Seqs.Filter(IsSlugChar, a);
    }
    if a != [] && a[|a| - 1] == '-' {
      Seqs.FilterAppend(IsSlugChar, a[..|a| - 1], ['-']);
      assert a == a[..|a| - 1] + ['-'];
    }
  }

  /** The letters and digits of the lower-cased title all reach the slug, in order. */
  lemma SlugKeepsAlphanumerics(title: string)
    ensures Seqs.Filter(IsSlugChar, Slug(title)) == Seqs.Filter(IsSlugChar, LowerAscii(title))
  {
    TrimHyphensKeepsAlphanumerics(Collapse(LowerAscii(title)));
    CollapseKeepsAlphanumerics(LowerAscii(title));
  }

  // ------------------------------------------------------------------ tags

  /** `map(t => t.trim())`. */
  function TrimAll(ps: seq<string>): (r: seq<string>)
    ensures |r| == |ps| && forall k :: 0 <= k < |ps| ==> r[k] == Trim(ps[k])
  {
    if ps == [] then [] else [Trim(ps[0])] + TrimAll(ps[1..])
  }

  predicate NonEmpty(s: string) { s != "" }

  /** `tags.split(',').map(t => t.trim()).filter(Boolean)`. */
  function ParseTags(s: string): seq<string>
  {
    Seqs.Filter(NonEmpty, TrimAll(Split(s, ",")))
  }

  /** A tag as the form keeps it: trimmed, non-empty and comma-free. */
  predicate IsTag(t: string)
  {
    IsTrimmed(t) && t != "" && ',' !in t
  }

  predicate AllTags(tags: seq<string>)
  {
    forall k :: 0 <= k < |tags| ==> IsTag(tags[k])
  }

  lemma AllTagsUncons(tags: seq<string>)
    requires AllTags(tags) && |tags| >= 1
    ensures IsTrimmed(tags[0]) && ',' !in tags[0] && AllTags(tags[1..])
  {
    assert IsTag(tags[0]);
    forall k | 0 <= k < |tags| - 1 ensures IsTag(tags[1..][k]) {
      assert tags[1..][k] == tags[k + 1];
    }
  }

  /** Parsed tags are well-formed and in the order they were typed. */
  lemma ParseTagsWellFormed(s: string)
    ensures AllTags(ParseTags(s))
    ensures Seqs.IsSubseq(ParseTags(s), TrimAll(Split(s, ",")))
  {
    var pieces := Split(s, ",");
    var trimmed := TrimAll(pieces);
    var r := ParseTags(s);
    SplitPiecesFree(s, ",");
    forall k | 0 <= k < |r| ensures IsTag(r[k]) {
      var j :| 0 <= j < |trimmed| && trimmed[j] == r[k];
      IncludesChar(pieces[j], ',');
      TrimMembers(pieces[j], ',');
    }
  }

  /** The edit form's `join(', ')` followed by parsing on save gives back the tags. */
  lemma ParseJoinedTags(tags: seq<string>)
    requires AllTags(tags)
    ensures ParseTags(Join(tags, ", ")) == tags
  {
    if tags == [] {
      ParseEmpty();
    } else {
      TrimSplitJoined(tags);
      TagsNonEmpty(tags);
    }
  }

  /** An empty tag field parses to no tags. */
  lemma ParseEmpty()
    ensures ParseTags("") == []
  {
    assert Split("", ",") == [""];
    assert TrimAll([""]) == [""];
  }

  lemma TagsNonEmpty(tags: seq<string>)
    requires AllTags(tags)
    ensures Seqs.Filter(NonEmpty, tags) == tags
  {
    forall k | 0 <= k < |tags| ensures NonEmpty(tags[k]) {
      assert IsTag(tags[k]);
    }
    Seqs.FilterAll(NonEmpty, tags);
  }

  lemma TrimAllCons(p: string, ps: seq<string>)
    ensures TrimAll([p] + ps) == [Trim(p)] + TrimAll(ps)
  {
    assert ([p] + ps)[1..] == ps;
  }

  /** A space in front of the first piece is trimmed away. */
  lemma TrimAllLeadingSpace(r: seq<string>)
    requires |r| >= 1
    ensures TrimAll([[' '] + r[0]] + r[1..]) == TrimAll(r)
  {
    var x := [[' '] + r[0]] + r[1..];
    assert x[0] == [' '] + r[0] && x[1..] == r[1..];
    assert Trim(x[0]) == Trim(r[0]) by {
      TrimLeadingWhitespace(' ', r[0]);
    }
  }

  lemma {:induction false} TrimSplitJoined(tags: seq<string>)
    requires |tags| >= 1
    requires AllTags(tags)
    ensures TrimAll(Split(Join(tags, ", "), ",")) == tags
    decreases |tags|
  {
    AllTagsUncons(tags);
    if |tags| == 1 {
      TrimSplitSingle(tags[0]);
    } else {
      TrimSplitJoined(tags[1..]);
      TrimSplitStep(tags);
    }
  }

  /** One tag splits and trims to itself. */
  lemma TrimSplitSingle(t: string)
    requires IsTrimmed(t) && ',' !in t
    ensures TrimAll(Split(t, ",")) == [t]
  {
    assert Split(t, ",") == [t] by {
      IncludesChar(t, ',');
      SplitWithoutSeparator(t, ",");
    }
    TrimIdempotent(t);
  }

  /** The first tag comes back as itself and the rest as before. */
  lemma TrimSplitStep(tags: seq<string>)
    requires |tags| >= 2 && IsTrimmed(tags[0]) && ',' !in tags[0]
    requires TrimAll(Split(Join(tags[1..], ", "), ",")) == tags[1..]
    ensures TrimAll(Split(Join(tags, ", "), ",")) == tags
  {
    var r := Split(Join(tags[1..], ", "), ",");
    var y := [[' '] + r[0]] + r[1..];
    assert Split(Join(tags, ", "), ",") == [tags[0]] + y by {
      SplitJoinedStep(tags);
    }
    assert TrimAll(y) == tags[1..] by {
      TrimAllLeadingSpace(r);
    }
    ConsTrimmed(tags[0], y, tags[1..]);
    assert tags == [tags[0]] + tags[1..];
  }

  lemma ConsTrimmed(t: string, y: seq<string>, rest: seq<string>)
    requires IsTrimmed(t) && TrimAll(y) == rest
    ensures TrimAll([t] + y) == [t] + rest
  {
    TrimAllCons(t, y);
    TrimIdempotent(t);
  }

  /** Splitting `a, b, ...` on commas: the first tag, then the rest with a
      leading space on its first piece. */
  lemma SplitJoinedStep(tags: seq<string>)
    requires |tags| >= 2 && ',' !in tags[0]
    ensures var r := Split(Join(tags[1..], ", "), ",");
            Split(Join(tags, ", "), ",") == [tags[0]] + ([[' '] + r[0]] + r[1..])
  {
    var rest := Join(tags[1..], ", ");
    assert Join(tags, ", ") == tags[0] + [','] + ([' '] + rest) by {
      JoinHead(tags);
    }
    SplitAtFirst(tags[0], ',', [' '] + rest);
    SplitSpace(rest);
  }

  lemma JoinHead(tags: seq<string>)
    requires |tags| >= 2
    ensures Join(tags, ", ") == tags[0] + [','] + ([' '] + Join(tags[1..], ", "))
  {
    var rest := Join(tags[1..], ", ");
    assert Join(tags, ", ") == tags[0] + ", " + rest;
  }

  lemma SplitSpace(rest: string)
    ensures var r := Split(rest, ",");
            Split([' '] + rest, ",") == [[' '] + r[0]] + r[1..]
  {
    assert ([' '] + rest)[..1] != ",";
    assert ([' '] + rest)[1..] == rest;
  }
}
