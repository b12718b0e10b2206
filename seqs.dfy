/** Array operations the site uses on in-memory lists: `filter`, order-keeping
    subsequences, `Array.from(new Set(...))` de-duplication and `flatMap`. */
module Seqs {

  /** `a` is obtained from `b` by deleting elements, keeping the order. */
  predicate IsSubseq<T(==)>(a: seq<T>, b: seq<T>)
    decreases |b|
  {
    a == [] || (b != [] && ((a[0] == b[0] && IsSubseq(a[1..], b[1..])) || IsSubseq(a, b[1..])))
  }

  lemma {:induction false} SubseqRefl<T>(a: seq<T>)
    ensures IsSubseq(a, a)
    decreases |a|
  {
    if a != [] {
      SubseqRefl(a[1..]);
    }
  }

  lemma {:induction false} SubseqTrans<T>(a: seq<T>, b: seq<T>, c: seq<T>)
    requires IsSubseq(a, b) && IsSubseq(b, c)
    ensures IsSubseq(a, c)
    decreases |c|
  {
    if a == [] {
    } else if IsSubseq(b, c[1..]) {
      SubseqTrans(a, b, c[1..]);
    } else {
      assert b[0] == c[0] && IsSubseq(b[1..], c[1..]);
      if a[0] == b[0] && IsSubseq(a[1..], b[1..]) {
        SubseqTrans(a[1..], b[1..], c[1..]);
      } else {
        SubseqTrans(a, b[1..], c[1..]);
      }
    }
  }

  /** Every element of a subsequence is an element of the whole. */
  lemma {:induction false} SubseqMembers<T>(a: seq<T>, b: seq<T>, x: T)
    requires IsSubseq(a, b) && x in a
    ensures x in b
    decreases |b|
  {
    if a[0] == b[0] && IsSubseq(a[1..], b[1..]) {
      if x != a[0] {
        SubseqMembers(a[1..], b[1..], x);
      }
    } else {
      SubseqMembers(a, b[1..], x);
    }
  }

  /** `s.filter(p)`: the elements that satisfy `p`, in their order. */
  function Filter<T(==)>(p: T -> bool, s: seq<T>): (r: seq<T>)
    ensures |r| <= |s|
    ensures IsSubseq(r, s)
    ensures forall k :: 0 <= k < |r| ==> r[k] in s && p(r[k])
    ensures forall k :: 0 <= k < |s| && p(s[k]) ==> s[k] in r
    decreases |s|
  {
    if s == [] then []
    else if p(s[0]) then [s[0]] + Filter(p, s[1..])
    else Filter(p, s[1..])
  }

  /** A value survives the filter exactly when it occurs and satisfies `p`. */
  lemma {:induction false} FilterMembers<T>(p: T -> bool, s: seq<T>, x: T)
    ensures x in Filter(p, s) <==> x in s && p(x)
    decreases |s|
  {
    if s != [] {
      FilterMembers(p, s[1..], x);
      assert s == [s[0]] + s[1..];
    }
  }

  /** Sequences with the same multiset have the same members. */
  lemma PermutationMembers<T>(a: seq<T>, b: seq<T>, x: T)
    requires multiset(a) == multiset(b)
    ensures x in a <==> x in b
  {
    assert x in a <==> x in multiset(a);
    assert x in b <==> x in multiset(b);
  }

  /** A filter that rejects nothing returns its input. */
  lemma {:induction false} FilterAll<T>(p: T -> bool, s: seq<T>)
    requires forall k :: 0 <= k < |s| ==> p(s[k])
    ensures Filter(p, s) == s
    decreases |s|
  {
    if s != [] {
      FilterAll(p, s[1..]);
    }
  }

  lemma {:induction false} FilterAppend<T>(p: T -> bool, a: seq<T>, b: seq<T>)
    ensures Filter(p, a + b) == Filter(p, a) + Filter(p, b)
    decreases |a|
  {
    if a != [] {
      assert (a + b)[1..] == a[1..] + b;
      assert (a + b)[0] == a[0];
      FilterAppend(p, a[1..], b);
      if p(a[0]) {
        assert Filter(p, a + b) == [a[0]] + Filter(p, a[1..] + b);
      }
    } else {
      assert a + b == b;
    }
  }

  predicate NoDuplicates<T(==)>(s: seq<T>)
  {
    forall i, j :: 0 <= i < j < |s| ==> s[i] != s[j]
  }

  /** `Array.from(new Set(s))`: each value of `s` exactly once. */
  function Dedup<T(==)>(s: seq<T>): (r: seq<T>)
    ensures NoDuplicates(r)
    ensures forall k :: 0 <= k < |r| ==> r[k] in s
    ensures forall k :: 0 <= k < |s| ==> s[k] in r
    decreases |s|
  {
    if s == [] then []
    else
      var r := Dedup(s[..|s| - 1]);
      assert s == s[..|s| - 1] + [s[|s| - 1]];
      if s[|s| - 1] in r then r else r + [s[|s| - 1]]
  }

  /** The set-based dedupe keeps exactly the values of its input. */
  lemma DedupMembers<T>(s: seq<T>, x: T)
    ensures x in Dedup(s) <==> x in s
  {
    var r := Dedup(s);
    if x in r {
      var k :| 0 <= k < |r| && r[k] == x;
    }
    if x in s {
      var k :| 0 <= k < |s| && s[k] == x;
    }
  }

  /** Dropping elements never introduces a duplicate. */
  lemma {:induction false} SubseqNoDuplicates<T>(a: seq<T>, b: seq<T>)
    requires IsSubseq(a, b) && NoDuplicates(b)
    ensures NoDuplicates(a)
    decreases |b|
  {
    if a != [] {
      assert NoDuplicates(b[1..]) by {
        forall i, j | 0 <= i < j < |b[1..]| ensures b[1..][i] != b[1..][j] {
          assert b[1..][i] == b[i + 1] && b[1..][j] == b[j + 1];
        }
      }
      if a[0] == b[0] && IsSubseq(a[1..], b[1..]) {
        SubseqNoDuplicates(a[1..], b[1..]);
        forall j | 0 < j < |a| ensures a[0] != a[j] {
          assert a[j] == a[1..][j - 1];
          SubseqMembers(a[1..], b[1..], a[j]);
          var m :| 0 <= m < |b[1..]| && b[1..][m] == a[j];
          assert b[m + 1] == a[j];
        }
      } else {
        SubseqNoDuplicates(a, b[1..]);
      }
    }
  }

  /** `xss.flat()`: the lists one after another. */
  function Flatten<T>(xss: seq<seq<T>>): (r: seq<T>)
    decreases |xss|
  {
    if xss == [] then [] else xss[0] + Flatten(xss[1..])
  }

  /** A value is in the flattened list exactly when it is in one of the lists. */
  lemma {:induction false} FlattenMembers<T>(xss: seq<seq<T>>, x: T)
    ensures x in Flatten(xss) <==> exists k :: 0 <= k < |xss| && x in xss[k]
    decreases |xss|
  {
    if xss != [] {
      FlattenMembers(xss[1..], x);
      if exists k :: 1 <= k < |xss| && x in xss[k] {
        var k :| 1 <= k < |xss| && x in xss[k];
        assert x in xss[1..][k - 1];
      }
      if exists k :: 0 <= k < |xss| - 1 && x in xss[1..][k] {
        var k :| 0 <= k < |xss| - 1 && x in xss[1..][k];
        assert x in xss[k + 1];
      }
    }
  }

  function Min(a: int, b: int): int { if a <= b then a else b }

  function Max(a: int, b: int): int { if a <= b then b else a }

  /** `s.slice(start, end)` for integer arguments: negative ones count from the
      end, and both are clamped to the list. */
  function JsSlice<T>(s: seq<T>, start: int, end: int): (r: seq<T>)
    ensures var from := SliceIndex(|s|, start);
            var to := Max(from, SliceIndex(|s|, end));
            0 <= from <= to <= |s| && r == s[from..to]
  {
    var from := SliceIndex(|s|, start);
    var to := Max(from, SliceIndex(|s|, end));
    s[from..to]
  }

  function SliceIndex(n: nat, k: int): (r: nat)
    ensures r <= n
  {
    if k < 0 then Max(n + k, 0) else Min(k, n)
  }
}
