/**
 * The table operations the pipeline borrows from pandas, on tables modelled
 * as sequences of rows: boolean selection, a one-key left merge, and
 * `drop_duplicates(subset=...)` keeping the first occurrence.
 */
module Tables {
  import opened Wrappers

  // ---------------------------------------------------------------------------
  // Selection
  // ---------------------------------------------------------------------------

  /** `df[mask]`: the rows satisfying `p`, in their original order. */
  function Filter<T(!new)>(s: seq<T>, p: T -> bool): (r: seq<T>)
    ensures |r| <= |s|
    ensures forall x :: x in r <==> x in s && p(x)
  {
    if s == [] then []
    else Filter(s[..|s| - 1], p) + (if p(s[|s| - 1]) then [s[|s| - 1]] else [])
  }

  /** Selecting from a table with one more row at the end. */
  lemma FilterSnoc<T(!new)>(front: seq<T>, x: T, p: T -> bool)
    ensures Filter(front + [x], p) == Filter(front, p) + (if p(x) then [x] else [])
  {
    assert (front + [x])[..|front|] == front;
  }

  lemma {:induction false} FilterConcat<T(!new)>(a: seq<T>, b: seq<T>, p: T -> bool)
    ensures Filter(a + b, p) == Filter(a, p) + Filter(b, p)
    decreases |b|
  {
    if b == [] {
      assert a + b == a;
    } else {
      var front, x := b[..|b| - 1], b[|b| - 1];
      var tail := if p(x) then [x] else [];
      assert b == front + [x];
      assert a + b == (a + front) + [x];
      calc {
        Filter(a + b, p);
        { FilterSnoc(a + front, x, p); }
        Filter(a + front, p) + tail;
        { FilterConcat(a, front, p); }
        (Filter(a, p) + Filter(front, p)) + tail;
        Filter(a, p) + (Filter(front, p) + tail);
        { FilterSnoc(front, x, p); }
        Filter(a, p) + Filter(b, p);
      }
    }
  }

  /** Selecting with a predicate every row satisfies keeps the table as it is. */
  lemma {:induction false} FilterAll<T(!new)>(s: seq<T>, p: T -> bool)
    requires forall i :: 0 <= i < |s| ==> p(s[i])
    ensures Filter(s, p) == s
  {
    if s != [] {
      var front, x := s[..|s| - 1], s[|s| - 1];
      assert s == front + [x];
      forall i | 0 <= i < |front| ensures p(front[i]) {
        assert front[i] == s[i];
      }
      FilterAll(front, p);
      FilterSnoc(front, x, p);
    }
  }

  /**
   * A conversion applied row by row that raises on the first row it
   * cannot convert: all the results in order, or the first failure.
   */
  function TryMap<A, B, E>(s: seq<A>, f: A -> Result<B, E>): (r: Result<seq<B>, E>)
    ensures r.Ok? <==> forall i :: 0 <= i < |s| ==> f(s[i]).Ok?
    ensures r.Ok? ==> |r.value| == |s| && forall i :: 0 <= i < |s| ==> f(s[i]) == Ok(r.value[i])
    ensures r.Err? ==> exists k :: (0 <= k < |s| && f(s[k]) == Err(r.error)
      && forall m :: 0 <= m < k ==> f(s[m]).Ok?)
  {
    if s == [] then Ok([])
    else
      var front := s[..|s| - 1];
      match TryMap(front, f)
      case Err(e) =>
        assert forall i :: 0 <= i < |front| ==> s[i] == front[i];
        Err(e)
      case Ok(bs) =>
        match f(s[|s| - 1])
        case Err(e) => Err(e)
        case Ok(b) => Ok(bs + [b])
  }

  /** Extending the converted prefix by one row. */
  lemma TryMapStep<A, B, E>(s: seq<A>, k: nat, f: A -> Result<B, E>, bs: seq<B>)
    requires k < |s| && TryMap(s[..k], f) == Ok(bs)
    ensures TryMap(s[..k + 1], f) == match f(s[k]) case Err(e) => Err(e) case Ok(b) => Ok(bs + [b])
  {
    assert s[..k + 1][..k] == s[..k];
  }

  /** Once a prefix fails, the whole fails with the same error. */
  lemma {:induction false} TryMapErrSticks<A, B, E>(s: seq<A>, k: nat, f: A -> Result<B, E>)
    requires k <= |s| && TryMap(s[..k], f).Err?
    ensures TryMap(s, f) == TryMap(s[..k], f)
    decreases |s| - k
  {
    if k < |s| {
      assert s[..k + 1][..k] == s[..k];
      TryMapErrSticks(s, k + 1, f);
    } else {
      assert s[..k] == s;
    }
  }

  /** A column derivation applied row by row (`df.apply` / column assignment). */
  function Map<A, B>(s: seq<A>, f: A -> B): (r: seq<B>)
    ensures |r| == |s|
    ensures forall i :: 0 <= i < |s| ==> r[i] == f(s[i])
  {
    seq(|s|, i requires 0 <= i < |s| => f(s[i]))
  }

  /** Selections with predicates that agree on every row are the same. */
  lemma {:induction false} FilterCongruent<T(!new)>(s: seq<T>, p: T -> bool, q: T -> bool)
    requires forall i :: 0 <= i < |s| ==> p(s[i]) == q(s[i])
    ensures Filter(s, p) == Filter(s, q)
  {
    if s != [] {
      FilterCongruent(s[..|s| - 1], p, q);
    }
  }

  /** Frames of `n` rows each concatenate to `n` rows per frame. */
  lemma {:induction false} FlattenUniform<T>(blocks: seq<seq<T>>, n: nat)
    requires forall i :: 0 <= i < |blocks| ==> |blocks[i]| == n
    ensures |Flatten(blocks)| == |blocks| * n
  {
    if blocks != [] {
      var front := blocks[..|blocks| - 1];
      assert forall i :: 0 <= i < |front| ==> front[i] == blocks[i];
      FlattenUniform(front, n);
      assert (|front| + 1) * n == |front| * n + n;
    }
  }

  /** Selecting after a row-wise derivation is deriving on the rows selected by the composed test. */
  lemma {:induction false} FilterMap<A(!new), B(!new)>(s: seq<A>, f: A -> B, p: B -> bool, q: A -> bool)
    requires forall i :: 0 <= i < |s| ==> q(s[i]) == p(f(s[i]))
    ensures Filter(Map(s, f), p) == Map(Filter(s, q), f)
  {
    if s != [] {
      var front := s[..|s| - 1];
      FilterMap(front, f, p, q);
      assert Map(s, f)[..|s| - 1] == Map(front, f);
      if q(s[|s| - 1]) {
        assert Map(Filter(s, q), f) == Map(Filter(front, q), f) + [f(s[|s| - 1])];
      } else {
        assert Filter(s, q) == Filter(front, q);
      }
    }
  }

  /** `pd.concat(frames, ignore_index=True)`: the rows of the frames, one frame after the other. */
  function Flatten<T>(chunks: seq<seq<T>>): seq<T> {
    if chunks == [] then [] else Flatten(chunks[..|chunks| - 1]) + chunks[|chunks| - 1]
  }

  lemma FlattenSnoc<T>(chunks: seq<seq<T>>, c: seq<T>)
    ensures Flatten(chunks + [c]) == Flatten(chunks) + c
  {
    assert (chunks + [c])[..|chunks|] == chunks;
  }

  // ---------------------------------------------------------------------------
  // Keys
  // ---------------------------------------------------------------------------

  /** No two rows share a key (what `drop_duplicates` and a primary key give). */
  ghost predicate UniqueKeys<T, K>(s: seq<T>, key: T -> K) {
    forall i, j :: 0 <= i < j < |s| ==> key(s[i]) != key(s[j])
  }

  /** Index of the first row with key `k`, or `|s|` when there is none. */
  function FirstIndex<T, K(==)>(s: seq<T>, key: T -> K, k: K): (i: nat)
    ensures i <= |s|
    ensures i < |s| ==> key(s[i]) == k
    ensures forall j :: 0 <= j < i ==> key(s[j]) != k
  {
    if s == [] then 0
    else
      var i := FirstIndex(s[..|s| - 1], key, k);
      if i < |s| - 1 then i else if key(s[|s| - 1]) == k then |s| - 1 else |s|
  }

  /** Some row of `s` has key `k`. */
  predicate HasKey<T, K(==)>(s: seq<T>, key: T -> K, k: K) {
    FirstIndex(s, key, k) < |s|
  }

  lemma HasKeyAt<T, K>(s: seq<T>, key: T -> K, i: nat)
    requires i < |s|
    ensures HasKey(s, key, key(s[i])) && FirstIndex(s, key, key(s[i])) <= i
  {
  }

  lemma FirstIndexOfPrefix<T, K>(s: seq<T>, key: T -> K, k: K)
    requires s != [] && HasKey(s[..|s| - 1], key, k)
    ensures FirstIndex(s, key, k) == FirstIndex(s[..|s| - 1], key, k)
  {
  }

  // ---------------------------------------------------------------------------
  // Left merge on one key
  // ---------------------------------------------------------------------------

  /** The rows of `right` whose key is `k`, in order. */
  function Matches<R(!new), K(==)>(right: seq<R>, rk: R -> K, k: K): (m: seq<R>)
    ensures forall r :: r in m <==> r in right && rk(r) == k
  {
    Filter(right, r => rk(r) == k)
  }

  /** The first row of `right` with key `k`, if any. */
  function Lookup<R(!new), K(==)>(right: seq<R>, rk: R -> K, k: K): (o: Option<R>)
    ensures o.Some? ==> o.value in right && rk(o.value) == k
    ensures o.None? <==> forall r :: r in right ==> rk(r) != k
  {
    var m := Matches(right, rk, k);
    if m == [] then None
    else
      assert m[0] in m;
      Some(m[0])
  }

  /** One left row against its matches: one pair per match, or one pair with no match. */
  function Pairs<L, R>(l: L, ms: seq<R>): (p: seq<(L, Option<R>)>)
    ensures |p| == if ms == [] then 1 else |ms|
    ensures forall i :: 0 <= i < |p| ==> p[i].0 == l
    ensures ms == [] ==> p == [(l, None)]
    ensures forall i :: 0 <= i < |ms| ==> p[i] == (l, Some(ms[i]))
  {
    if ms == [] then [(l, None)] else seq(|ms|, i requires 0 <= i < |ms| => (l, Some(ms[i])))
  }

  /**
   * `pd.merge(left, right, on=key, how="left")`: every left row in order,
   * paired with each right row of the same key in right's order, or once with
   * None (the null-filled columns) when no right row has its key.
   */
  function LeftJoin<L(!new), R(!new), K(==)>(left: seq<L>, right: seq<R>, lk: L -> K, rk: R -> K): seq<(L, Option<R>)>
  {
    if left == [] then []
    else
      var l := left[|left| - 1];
      LeftJoin(left[..|left| - 1], right, lk, rk) + Pairs(l, Matches(right, rk, lk(l)))
  }

  /** Every merged row carries one left row and, if any, a right row of the same key. */
  lemma {:induction false} LeftJoinRows<L(!new), R(!new), K>(left: seq<L>, right: seq<R>, lk: L -> K, rk: R -> K)
    ensures forall p :: p in LeftJoin(left, right, lk, rk) ==>
      && p.0 in left
      && (p.1.Some? ==> p.1.value in right && rk(p.1.value) == lk(p.0))
      && (p.1.None? ==> forall r :: r in right ==> rk(r) != lk(p.0))
  {
    if left != [] {
      var l := left[|left| - 1];
      var front := left[..|left| - 1];
      LeftJoinRows(front, right, lk, rk);
      var ms := Matches(right, rk, lk(l));
      var tail := Pairs(l, ms);
      forall p | p in tail
        ensures p.0 == l
        ensures p.1.Some? ==> p.1.value in right && rk(p.1.value) == lk(p.0)
        ensures p.1.None? ==> forall r :: r in right ==> rk(r) != lk(p.0)
      {
        var i :| 0 <= i < |tail| && tail[i] == p;
        if ms != [] {
          assert p == (l, Some(ms[i]));
          assert ms[i] in ms;
        }
      }
      assert forall p :: p in front ==> p in left;
    }
  }

  /** Number of rows the merge gives one left row. */
  function Fanout<L(!new), R(!new), K(==)>(l: L, right: seq<R>, lk: L -> K, rk: R -> K): nat {
    var n := |Matches(right, rk, lk(l))|;
    if n == 0 then 1 else n
  }

  /** A left merge never drops a left row; it keeps the row count exactly when no key matches twice. */
  lemma {:induction false} LeftJoinLength<L(!new), R(!new), K>(left: seq<L>, right: seq<R>, lk: L -> K, rk: R -> K)
    ensures |LeftJoin(left, right, lk, rk)| >= |left|
    ensures |LeftJoin(left, right, lk, rk)| == |left| <==>
      forall i :: 0 <= i < |left| ==> |Matches(right, rk, lk(left[i]))| <= 1
  {
    if left != [] {
      var front := left[..|left| - 1];
      LeftJoinLength(front, right, lk, rk);
      assert forall i :: 0 <= i < |front| ==> front[i] == left[i];
    }
  }

  /** With a unique key on the right, matches are at most one. */
  lemma {:induction false} UniqueMatches<R(!new), K>(right: seq<R>, rk: R -> K, k: K)
    requires UniqueKeys(right, rk)
    ensures |Matches(right, rk, k)| <= 1
    ensures Matches(right, rk, k) == match Lookup(right, rk, k) case None => [] case Some(r) => [r]
    decreases |right|
  {
    if right != [] {
      var front := right[..|right| - 1];
      var last := right[|right| - 1];
      UniqueMatches(front, rk, k);
      if rk(last) == k {
        forall r | r in front ensures rk(r) != k {
          var j :| 0 <= j < |front| && front[j] == r;
          assert right[j] == r;
        }
        assert Filter(front, (r: R) => rk(r) == k) == [];
      }
    }
  }

  /**
   * With a unique key on the right, the merge has exactly one row per left row,
   * in left order, and that row carries the right row with the identical key.
   */
  lemma {:induction false} LeftJoinUnique<L(!new), R(!new), K>(left: seq<L>, right: seq<R>, lk: L -> K, rk: R -> K)
    requires UniqueKeys(right, rk)
    ensures |LeftJoin(left, right, lk, rk)| == |left|
    ensures forall i :: 0 <= i < |left| ==>
      LeftJoin(left, right, lk, rk)[i] == (left[i], Lookup(right, rk, lk(left[i])))
  {
    if left != [] {
      var front := left[..|left| - 1];
      var l := left[|left| - 1];
      LeftJoinUnique(front, right, lk, rk);
      UniqueMatches(right, rk, lk(l));
      var jf := LeftJoin(front, right, lk, rk);
      var v := Lookup(right, rk, lk(l));
      assert Pairs(l, Matches(right, rk, lk(l))) == [(l, v)];
      assert LeftJoin(left, right, lk, rk) == jf + [(l, v)];
      LastSplit(left);
      SnocRows(front, l, jf, v, x => Lookup(right, rk, lk(x)));
    }
  }

  /** A non-empty sequence is its front and its last element. */
  lemma LastSplit<T>(s: seq<T>)
    requires s != []
    ensures s == s[..|s| - 1] + [s[|s| - 1]]
  {
  }

  /** Rows that pair each element with its image, extended by one more. */
  lemma SnocRows<L, V>(front: seq<L>, l: L, rows: seq<(L, V)>, v: V, g: L -> V)
    requires |rows| == |front|
    requires forall i :: 0 <= i < |front| ==> rows[i] == (front[i], g(front[i]))
    requires v == g(l)
    ensures forall i :: 0 <= i < |front| + 1 ==> (rows + [(l, v)])[i] == ((front + [l])[i], g((front + [l])[i]))
  {
  }

  // ---------------------------------------------------------------------------
  // De-duplication keeping the first occurrence
  // ---------------------------------------------------------------------------

  /** `drop_duplicates(subset=key)`: keeps each row whose key has not appeared earlier. */
  function DropDuplicates<T, K(==)>(s: seq<T>, key: T -> K): seq<T>
  {
    if s == [] then []
    else
      var front := s[..|s| - 1];
      var x := s[|s| - 1];
      if HasKey(front, key, key(x)) then DropDuplicates(front, key)
      else DropDuplicates(front, key) + [x]
  }

  /**
   * What de-duplication keeps: the keys are unique; the same keys remain;
   * each kept row is the first row of its key; and the kept rows appear in the
   * order of their first occurrence.
   */
  lemma {:induction false} DropDuplicatesSpec<T, K>(s: seq<T>, key: T -> K)
    ensures var r := DropDuplicates(s, key);
      && |r| <= |s|
      && UniqueKeys(r, key)
      && (forall k :: HasKey(r, key, k) <==> HasKey(s, key, k))
      && (forall i :: 0 <= i < |r| ==> FirstIndex(s, key, key(r[i])) < |s|)
      && (forall i :: 0 <= i < |r| ==> r[i] == s[FirstIndex(s, key, key(r[i]))])
      && (forall i, j :: 0 <= i < j < |r| ==>
            FirstIndex(s, key, key(r[i])) < FirstIndex(s, key, key(r[j])))
  {
    if s != [] {
      var front := s[..|s| - 1];
      var x := s[|s| - 1];
      DropDuplicatesSpec(front, key);
      var rf := DropDuplicates(front, key);
      var r := DropDuplicates(s, key);
      forall k | HasKey(front, key, k)
        ensures FirstIndex(s, key, k) == FirstIndex(front, key, k)
      {
        FirstIndexOfPrefix(s, key, k);
      }
      forall i | 0 <= i < |rf|
        ensures HasKey(front, key, key(rf[i]))
        ensures FirstIndex(s, key, key(rf[i])) == FirstIndex(front, key, key(rf[i]))
        ensures rf[i] == s[FirstIndex(s, key, key(rf[i]))]
      {
        HasKeyAt(rf, key, i);
        FirstIndexOfPrefix(s, key, key(rf[i]));
      }
      if HasKey(front, key, key(x)) {
        forall k ensures HasKey(r, key, k) <==> HasKey(s, key, k) {
          if HasKey(s, key, k) && !HasKey(front, key, k) {
            assert false;
          }
        }
      } else {
        assert r == rf + [x];
        assert FirstIndex(s, key, key(x)) == |s| - 1;
        forall i | 0 <= i < |rf| ensures key(rf[i]) != key(x) {
          HasKeyAt(rf, key, i);
        }
        forall k ensures HasKey(r, key, k) <==> HasKey(s, key, k) {
          if HasKey(r, key, k) && !HasKey(rf, key, k) {
            assert key(x) == k;
          }
          if HasKey(rf, key, k) {
            var i := FirstIndex(rf, key, k);
            assert r[i] == rf[i];
          }
        }
      }
    }
  }

  /** On a table whose keys are already unique, de-duplication changes nothing. */
  lemma {:induction false} DropDuplicatesOfUnique<T, K>(s: seq<T>, key: T -> K)
    requires UniqueKeys(s, key)
    ensures DropDuplicates(s, key) == s
  {
    if s != [] {
      var front := s[..|s| - 1];
      assert UniqueKeys(front, key);
      DropDuplicatesOfUnique(front, key);
      assert forall j :: 0 <= j < |front| ==> key(front[j]) != key(s[|s| - 1]);
      assert s == front + [s[|s| - 1]];
    }
  }

  /**
   * De-duplicating and then converting each kept row: when the conversion
   * keeps distinct keys distinct, the converted rows have unique keys too.
   */
  lemma DedupMappedUnique<T, K, U, J>(s: seq<T>, key: T -> K, f: T -> U, key2: U -> J)
    requires forall a, b :: a in s && b in s && key2(f(a)) == key2(f(b)) ==> key(a) == key(b)
    ensures UniqueKeys(Map(DropDuplicates(s, key), f), key2)
  {
    var kept := DropDuplicates(s, key);
    var out := Map(kept, f);
    DropDuplicatesSpec(s, key);
    forall i, j | 0 <= i < j < |out| ensures key2(out[i]) != key2(out[j]) {
      assert kept[i] in s && kept[j] in s;
    }
  }

  /** Each row's key is represented in `out` by the converted first row with that key. */
  ghost predicate CoversFirsts<T, K, U>(s: seq<T>, key: T -> K, f: T -> U, out: seq<U>) {
    forall i :: 0 <= i < |s| ==>
      exists j :: 0 <= j < |out| && out[j] == f(s[FirstIndex(s, key, key(s[i]))])
  }

  /** Every row of `out` is a converted row of `s` whose key does not occur before it. */
  ghost predicate OnlyFirsts<T, K, U>(s: seq<T>, key: T -> K, f: T -> U, out: seq<U>) {
    forall j :: 0 <= j < |out| ==>
      exists i :: (0 <= i < |s| && out[j] == f(s[i])
        && forall m :: 0 <= m < i ==> key(s[m]) != key(s[i]))
  }

  /** `out` loses nothing of `s` but repeats, and keeps first occurrences. */
  ghost predicate FirstOccurrences<T, K, U>(s: seq<T>, key: T -> K, f: T -> U, out: seq<U>) {
    CoversFirsts(s, key, f, out) && OnlyFirsts(s, key, f, out)
  }

  /** De-duplicating and then converting each kept row keeps the first occurrences. */
  lemma DedupMappedFirst<T, K, U>(s: seq<T>, key: T -> K, f: T -> U)
    ensures FirstOccurrences(s, key, f, Map(DropDuplicates(s, key), f))
  {
    DedupMappedCovers(s, key, f);
    DedupMappedOnlyFirsts(s, key, f);
  }

  /** Every key of the table reaches the converted output through its first row. */
  lemma DedupMappedCovers<T, K, U>(s: seq<T>, key: T -> K, f: T -> U)
    ensures CoversFirsts(s, key, f, Map(DropDuplicates(s, key), f))
  {
    var kept := DropDuplicates(s, key);
    var out := Map(kept, f);
    forall i | 0 <= i < |s|
      ensures exists j :: 0 <= j < |out| && out[j] == f(s[FirstIndex(s, key, key(s[i]))])
    {
      HasKeyAt(s, key, i);
      var j := DedupKeeps(s, key, key(s[i]));
      assert out[j] == f(kept[j]);
    }
  }

  /** Every converted output row comes from the first row of its key. */
  lemma DedupMappedOnlyFirsts<T, K, U>(s: seq<T>, key: T -> K, f: T -> U)
    ensures OnlyFirsts(s, key, f, Map(DropDuplicates(s, key), f))
  {
    var kept := DropDuplicates(s, key);
    var out := Map(kept, f);
    forall j | 0 <= j < |out|
      ensures exists i :: (0 <= i < |s| && out[j] == f(s[i])
        && forall m :: 0 <= m < i ==> key(s[m]) != key(s[i]))
    {
      DedupKeptFirst(s, key, j);
      var i := FirstIndex(s, key, key(kept[j]));
      FirstIndexMisses(s, key, key(kept[j]));
      assert out[j] == f(s[i]);
    }
  }

  /** A key of the table is kept, as its first row. */
  lemma DedupKeeps<T, K>(s: seq<T>, key: T -> K, k: K) returns (j: nat)
    requires HasKey(s, key, k)
    ensures j < |DropDuplicates(s, key)| && DropDuplicates(s, key)[j] == s[FirstIndex(s, key, k)]
  {
    var kept := DropDuplicates(s, key);
    DropDuplicatesSpec(s, key);
    j := FirstIndex(kept, key, k);
    HasKeyAt(kept, key, j);
  }

  /** A kept row is the first row of its key. */
  lemma DedupKeptFirst<T, K>(s: seq<T>, key: T -> K, j: nat)
    requires j < |DropDuplicates(s, key)|
    ensures var r := DropDuplicates(s, key)[j];
      FirstIndex(s, key, key(r)) < |s| && r == s[FirstIndex(s, key, key(r))]
  {
    DropDuplicatesSpec(s, key);
  }

  /** The first index of a present key has that key, and no earlier row does. */
  lemma FirstIndexMisses<T, K>(s: seq<T>, key: T -> K, k: K)
    requires FirstIndex(s, key, k) < |s|
    ensures key(s[FirstIndex(s, key, k)]) == k
    ensures forall m :: 0 <= m < FirstIndex(s, key, k) ==> key(s[m]) != k
  {
  }

  // ---------------------------------------------------------------------------
  // Keys under reordering
  // ---------------------------------------------------------------------------

  /** Unique keys make every row occur at most once. */
  lemma {:induction false} UniqueKeysCount<T, K>(s: seq<T>, key: T -> K)
    requires UniqueKeys(s, key)
    ensures forall x :: multiset(s)[x] <= 1
  {
    if s != [] {
      var front := s[..|s| - 1];
      var last := s[|s| - 1];
      assert s == front + [last];
      UniqueKeysCount(front, key);
      assert last !in front by {
        forall k | 0 <= k < |front| ensures front[k] != last {
          assert key(s[k]) != key(s[|s| - 1]);
        }
      }
    }
  }

  lemma TwoOccurrences<T>(r: seq<T>, i: nat, j: nat)
    requires i < j < |r| && r[i] == r[j]
    ensures multiset(r)[r[i]] >= 2
  {
    assert r == r[..j] + r[j..];
    assert r[i] in r[..j] && r[j] in r[j..];
  }

  /** A reordering of a table with unique keys has unique keys. */
  lemma PermutationKeepsUniqueKeys<T, K>(s: seq<T>, r: seq<T>, key: T -> K)
    requires multiset(s) == multiset(r) && UniqueKeys(s, key)
    ensures UniqueKeys(r, key)
  {
    UniqueKeysCount(s, key);
    forall i, j | 0 <= i < j < |r| ensures key(r[i]) != key(r[j]) {
      if r[i] == r[j] {
        TwoOccurrences(r, i, j);
        assert false;
      } else {
        assert r[i] in multiset(s) && r[j] in multiset(s);
        var a :| 0 <= a < |s| && s[a] == r[i];
        var b :| 0 <= b < |s| && s[b] == r[j];
        if a < b {
          assert key(s[a]) != key(s[b]);
        } else {
          assert key(s[b]) != key(s[a]);
        }
      }
    }
  }

  /** Tables with the same rows have the same keys. */
  lemma SameElementsSameKeys<T, K>(s: seq<T>, r: seq<T>, key: T -> K, k: K)
    requires multiset(s) == multiset(r)
    ensures HasKey(r, key, k) <==> HasKey(s, key, k)
  {
    if HasKey(r, key, k) {
      var i := FirstIndex(r, key, k);
      assert r[i] in multiset(s);
      var a :| 0 <= a < |s| && s[a] == r[i];
      HasKeyAt(s, key, a);
    }
    if HasKey(s, key, k) {
      var i := FirstIndex(s, key, k);
      assert s[i] in multiset(r);
      var a :| 0 <= a < |r| && r[a] == s[i];
      HasKeyAt(r, key, a);
    }
  }

  /** Moving one element from the front of the rest onto the end of the prefix. */
  lemma SnocAssoc<T>(a: seq<T>, x: T, b: seq<T>)
    ensures a + [x] + b == a + ([x] + b)
  {
  }

  /** A prefix followed by the rest of the sequence is the sequence. */
  lemma PrefixThenRest<T>(p: seq<T>, s: seq<T>)
    requires p <= s
    ensures p + s[|p|..] == s
  {
  }
}
