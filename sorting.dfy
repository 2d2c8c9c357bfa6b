/**
 * `sort_values` on a table modelled as a sequence: an insertion sort under a
 * caller-supplied "not after" relation, plus the lexicographic order on
 * strings that pandas uses for a text column.
 */
module Sorting {

  /** Every pair of rows is `le`-ordered one way or the other. */
  ghost predicate TotalOn<T>(s: seq<T>, le: (T, T) -> bool) {
    forall i, j :: 0 <= i < |s| && 0 <= j < |s| ==> le(s[i], s[j]) || le(s[j], s[i])
  }

  /** `le` chains along the rows of `s`. */
  ghost predicate TransitiveOn<T>(s: seq<T>, le: (T, T) -> bool) {
    forall i, j, k :: 0 <= i < |s| && 0 <= j < |s| && 0 <= k < |s| && le(s[i], s[j]) && le(s[j], s[k])
      ==> le(s[i], s[k])
  }

  /** Ascending under `le`. */
  ghost predicate SortedBy<T>(s: seq<T>, le: (T, T) -> bool) {
    forall i, j :: 0 <= i < j < |s| ==> le(s[i], s[j])
  }

  lemma OrderOnSubset<T>(s: seq<T>, t: seq<T>, le: (T, T) -> bool)
    requires TotalOn(t, le) && TransitiveOn(t, le)
    requires forall x :: x in multiset(s) ==> x in multiset(t)
    ensures TotalOn(s, le) && TransitiveOn(s, le)
  {
    forall i | 0 <= i < |s| ensures s[i] in t {
      assert s[i] in multiset(s);
    }
  }

  /** Inserts `x` in front of the first row it is not after. */
  function Insert<T>(x: T, s: seq<T>, le: (T, T) -> bool): (r: seq<T>)
    requires SortedBy(s, le) && TotalOn([x] + s, le) && TransitiveOn([x] + s, le)
    ensures multiset(r) == multiset(s) + multiset{x}
    ensures SortedBy(r, le)
  {
    if s == [] then [x]
    else if le(x, s[0]) then
      BelowHead(x, s, le);
      ConsSorted(x, s, le);
      [x] + s
    else
      var t := s[1..];
      assert s == [s[0]] + t;
      OrderOnSubset([x] + t, [x] + s, le);
      var r' := Insert(x, t, le);
      assert le(s[0], x) by { assert ([x] + s)[0] == x && ([x] + s)[1] == s[0]; }
      HeadBelowAll(s, x, r', le);
      ConsSorted(s[0], r', le);
      [s[0]] + r'
  }

  /** A row not after the head of a sorted `s` is not after any row of it. */
  lemma BelowHead<T>(x: T, s: seq<T>, le: (T, T) -> bool)
    requires s != [] && SortedBy(s, le) && TransitiveOn([x] + s, le) && le(x, s[0])
    ensures forall y :: y in s ==> le(x, y)
  {
    var xs := [x] + s;
    forall j | 0 < j < |s| ensures le(x, s[j]) {
      assert xs[0] == x && xs[1] == s[0] && xs[j + 1] == s[j];
    }
  }

  /** The head of a sorted `s`, not after `x`, is not after any row of a permutation of `s[1..]` and `x`. */
  lemma HeadBelowAll<T>(s: seq<T>, x: T, r: seq<T>, le: (T, T) -> bool)
    requires s != [] && SortedBy(s, le) && le(s[0], x)
    requires multiset(r) == multiset(s[1..]) + multiset{x}
    ensures forall y :: y in r ==> le(s[0], y)
  {
    forall y | y in r ensures le(s[0], y) {
      assert y in multiset(r);
      if y != x {
        assert y in multiset(s[1..]);
        var j :| 0 <= j < |s[1..]| && s[1..][j] == y;
        assert s[j + 1] == y;
      }
    }
  }

  /** A row not after any row of a sorted `s` can go in front of it. */
  lemma ConsSorted<T>(h: T, s: seq<T>, le: (T, T) -> bool)
    requires SortedBy(s, le) && forall y :: y in s ==> le(h, y)
    ensures SortedBy([h] + s, le)
  {
    var hs := [h] + s;
    forall i, j | 0 <= i < j < |hs| ensures le(hs[i], hs[j]) {
      assert hs[j] == s[j - 1];
      if i > 0 {
        assert hs[i] == s[i - 1];
      }
    }
  }

  /** The rows of `s` in ascending `le` order. */
  function Sort<T>(s: seq<T>, le: (T, T) -> bool): (r: seq<T>)
    requires TotalOn(s, le) && TransitiveOn(s, le)
    ensures multiset(r) == multiset(s)
    ensures SortedBy(r, le)
  {
    if s == [] then []
    else
      assert s == [s[0]] + s[1..];
      OrderOnSubset(s[1..], s, le);
      var r' := Sort(s[1..], le);
      OrderOnSubset([s[0]] + r', s, le);
      Insert(s[0], r', le)
  }

  /** Sorting keeps the row count (a corollary of the permutation). */
  lemma SortLength<T>(s: seq<T>, le: (T, T) -> bool)
    requires TotalOn(s, le) && TransitiveOn(s, le)
    ensures |Sort(s, le)| == |s|
  {
    assert |multiset(Sort(s, le))| == |multiset(s)|;
  }

  // ---------------------------------------------------------------------------
  // Lexicographic order on text
  // ---------------------------------------------------------------------------

  /** `a` is not after `b` in code-point lexicographic order. */
  predicate StrLe(a: string, b: string) {
    if a == [] then true
    else if b == [] then false
    else if a[0] != b[0] then a[0] < b[0]
    else StrLe(a[1..], b[1..])
  }

  lemma {:induction false} StrLeTotal(a: string, b: string)
    ensures StrLe(a, b) || StrLe(b, a)
  {
    if a != [] && b != [] && a[0] == b[0] {
      StrLeTotal(a[1..], b[1..]);
    }
  }

  lemma {:induction false} StrLeTransitive(a: string, b: string, c: string)
    requires StrLe(a, b) && StrLe(b, c)
    ensures StrLe(a, c)
  {
    if a != [] && b != [] && c != [] && a[0] == b[0] && b[0] == c[0] {
      StrLeTransitive(a[1..], b[1..], c[1..]);
    }
  }

  lemma {:induction false} StrLeAntisymmetric(a: string, b: string)
    requires StrLe(a, b) && StrLe(b, a)
    ensures a == b
  {
    if a != [] && b != [] {
      StrLeAntisymmetric(a[1..], b[1..]);
      assert a == [a[0]] + a[1..] && b == [b[0]] + b[1..];
    }
  }
}
