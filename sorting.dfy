/** The record store's `order(column)`: a sort of the selected rows by a
    column, as a sorted permutation. */
module Sorting {

  /** `le` is total and transitive: a valid "sorts no later than" relation. */
  ghost predicate TotalPreorder<T(!new)>(le: (T, T) -> bool)
  {
    && (forall a, b :: le(a, b) || le(b, a))
    && (forall a, b, c :: le(a, b) && le(b, c) ==> le(a, c))
  }

  predicate SortedBy<T>(le: (T, T) -> bool, s: seq<T>)
  {
    forall i, j :: 0 <= i < j < |s| ==> le(s[i], s[j])
  }

  function Insert<T(!new)>(le: (T, T) -> bool, x: T, s: seq<T>): (r: seq<T>)
    requires TotalPreorder(le)
    requires SortedBy(le, s)
    ensures SortedBy(le, r)
    ensures |r| == |s| + 1
    ensures multiset(r) == multiset(s) + multiset{x}
    ensures s != [] ==> forall k :: 0 <= k < |r| ==> r[k] == x || le(s[0], r[k])
    decreases |s|
  {
    if s == [] then [x]
    else if le(x, s[0]) then [x] + s
    else
      var t := Insert(le, x, s[1..]);
      assert s == [s[0]] + s[1..];
      [s[0]] + t
  }

  /** The rows of `s` sorted by `le`. */
  function SortBy<T(!new)>(le: (T, T) -> bool, s: seq<T>): (r: seq<T>)
    requires TotalPreorder(le)
    ensures SortedBy(le, r)
    ensures multiset(r) == multiset(s)
    ensures |r| == |s|
    decreases |s|
  {
    if s == [] then []
    else
      assert s == [s[0]] + s[1..];
      Insert(le, s[0], SortBy(le, s[1..]))
  }

  /** Sorting keeps exactly the rows it was given. */
  lemma SortMembers<T(!new)>(le: (T, T) -> bool, s: seq<T>, x: T)
    requires TotalPreorder(le)
    ensures x in SortBy(le, s) <==> x in s
  {
    var r := SortBy(le, s);
    assert x in r <==> x in multiset(r);
    assert x in s <==> x in multiset(s);
  }

  /** Lexicographic order on strings, as ISO-8601 timestamps compare. */
  predicate StrLe(a: string, b: string)
    decreases |a|
  {
    a == [] || (b != [] && (a[0] < b[0] || (a[0] == b[0] && StrLe(a[1..], b[1..]))))
  }

  lemma {:induction false} StrLeTotal(a: string, b: string)
    ensures StrLe(a, b) || StrLe(b, a)
    decreases |a|
  {
    if a != [] && b != [] && a[0] == b[0] {
      StrLeTotal(a[1..], b[1..]);
    }
  }

  lemma {:induction false} StrLeTrans(a: string, b: string, c: string)
    requires StrLe(a, b) && StrLe(b, c)
    ensures StrLe(a, c)
    decreases |a|
  {
    if a != [] && a[0] == b[0] && b[0] == c[0] {
      StrLeTrans(a[1..], b[1..], c[1..]);
    }
  }

  lemma {:induction false} StrLeAntisymmetric(a: string, b: string)
    requires StrLe(a, b) && StrLe(b, a)
    ensures a == b
    decreases |a|
  {
    if a != [] {
      StrLeAntisymmetric(a[1..], b[1..]);
      assert a == [a[0]] + a[1..] && b == [b[0]] + b[1..];
    }
  }

  /** `order(column, { ascending: false })` on a text column: latest first. */
  function Descending<T>(key: T -> string): (T, T) -> bool
  {
    (x: T, y: T) => StrLe(key(y), key(x))
  }

  /** `order(column, { ascending: true })` on an integer column. */
  function Ascending<T>(key: T -> int): (T, T) -> bool
  {
    (x: T, y: T) => key(x) <= key(y)
  }

  lemma DescendingIsPreorder<T(!new)>(key: T -> string)
    ensures TotalPreorder(Descending(key))
  {
    var le := Descending(key);
    forall a, b ensures le(a, b) || le(b, a) {
      StrLeTotal(key(a), key(b));
    }
    forall a, b, c | le(a, b) && le(b, c) ensures le(a, c) {
      StrLeTrans(key(c), key(b), key(a));
    }
  }

  lemma AscendingIsPreorder<T(!new)>(key: T -> int)
    ensures TotalPreorder(Ascending(key))
  {
  }
}
