/**
 * Generic sequence operations that several parts of the system share:
 * `Array.prototype.filter`, a stable sort (what `Array.prototype.sort` is since
 * ES2019, and the order model of SQL `ORDER BY`), and the subsequence relation.
 */
module Sequences {
  import opened Wrappers

  /** The elements of `s` that `keep` accepts, in their original order. */
  function Filter<T>(s: seq<T>, keep: T -> bool): (r: seq<T>)
    ensures |r| <= |s|
  {
    if s == [] then []
    else if keep(s[0]) then [s[0]] + Filter(s[1..], keep)
    else Filter(s[1..], keep)
  }

  /** `a` can be obtained from `b` by deleting elements. */
  predicate IsSubsequence<T(==)>(a: seq<T>, b: seq<T>)
    decreases |b|
  {
    if a == [] then true
    else if b == [] then false
    else (a[0] == b[0] && IsSubsequence(a[1..], b[1..])) || IsSubsequence(a, b[1..])
  }

  /** Inserts `x` before the first element it may precede; `x` stays ahead of its equals. */
  function Insert<T>(x: T, s: seq<T>, le: (T, T) -> bool): (r: seq<T>)
  {
    if s == [] then [x]
    else if le(x, s[0]) then [x] + s
    else [s[0]] + Insert(x, s[1..], le)
  }

  /** Stable insertion sort under the "may precede" relation `le`. */
  function Sort<T>(s: seq<T>, le: (T, T) -> bool): (r: seq<T>)
  {
    if s == [] then [] else Insert(s[0], Sort(s[1..], le), le)
  }

  /**
   * `rel` holds of every pair of elements in their order in `s`: sortedness when
   * `rel` is "may precede", uniqueness of a column when `rel` is "differ in it".
   */
  ghost predicate Pairwise<T>(s: seq<T>, rel: (T, T) -> bool)
  {
    forall i, j :: 0 <= i < j < |s| ==> rel(s[i], s[j])
  }

  /** `le` is total and transitive on the elements of `s`. */
  ghost predicate TotalPreorderOn<T>(le: (T, T) -> bool, s: seq<T>)
  {
    && (forall a, b :: a in s && b in s ==> le(a, b) || le(b, a))
    && (forall a, b, c :: a in s && b in s && c in s && le(a, b) && le(b, c) ==> le(a, c))
  }

  lemma TotalPreorderOnSubset<T>(le: (T, T) -> bool, s: seq<T>, t: seq<T>)
    requires TotalPreorderOn(le, s)
    requires forall a :: a in t ==> a in s
    ensures TotalPreorderOn(le, t)
  {
  }

  lemma {:induction false} FilterMembership<T>(s: seq<T>, keep: T -> bool, x: T)
    ensures x in Filter(s, keep) <==> x in s && keep(x)
  {
    if s != [] {
      FilterMembership(s[1..], keep, x);
      assert s == [s[0]] + s[1..];
    }
  }

  /** Filtering leaves a sequence alone when every element passes. */
  lemma {:induction false} FilterKeepsAll<T>(s: seq<T>, keep: T -> bool)
    requires forall x :: x in s ==> keep(x)
    ensures Filter(s, keep) == s
  {
    if s != [] {
      FilterKeepsAll(s[1..], keep);
      assert s == [s[0]] + s[1..];
    }
  }

  /** Filtering keeps every pairwise relation the input had. */
  lemma {:induction false} FilterPairwise<T>(s: seq<T>, keep: T -> bool, rel: (T, T) -> bool)
    requires Pairwise(s, rel)
    ensures Pairwise(Filter(s, keep), rel)
  {
    if s != [] {
      var t := s[1..];
      assert Pairwise(t, rel) by {
        forall i, j | 0 <= i < j < |t| ensures rel(t[i], t[j]) {
          assert t[i] == s[i + 1] && t[j] == s[j + 1];
        }
      }
      FilterPairwise(t, keep, rel);
      if keep(s[0]) {
        forall y | y in Filter(t, keep) ensures rel(s[0], y) {
          FilterMembership(t, keep, y);
          var j :| 0 <= j < |t| && t[j] == y;
          assert s[j + 1] == y;
        }
        PairwiseCons(s[0], Filter(t, keep), rel);
      }
    }
  }

  /** Appending an element related to everything before it keeps the relation. */
  lemma PairwiseSnoc<T>(s: seq<T>, x: T, rel: (T, T) -> bool)
    requires Pairwise(s, rel)
    requires forall y :: y in s ==> rel(y, x)
    ensures Pairwise(s + [x], rel)
  {
    var t := s + [x];
    forall i, j | 0 <= i < j < |t| ensures rel(t[i], t[j]) {
      assert t[i] == s[i];
      if j < |s| {
        assert t[j] == s[j];
      } else {
        assert t[i] in s;
      }
    }
  }

  /** The index of the first element that satisfies `p`, as a table lookup returns the first row. */
  function FindIndex<T>(s: seq<T>, p: T -> bool): (r: Option<nat>)
    ensures r.Some? ==> r.value < |s| && p(s[r.value])
    ensures r.Some? ==> forall j :: 0 <= j < r.value ==> !p(s[j])
    ensures r.None? ==> forall j :: 0 <= j < |s| ==> !p(s[j])
  {
    if s == [] then None
    else if p(s[0]) then Some(0)
    else match FindIndex(s[1..], p)
      case None => None
      case Some(i) => Some(i + 1)
  }

  /** Filtering twice with the same test is filtering once. */
  lemma {:induction false} FilterIdempotent<T>(s: seq<T>, keep: T -> bool)
    ensures Filter(Filter(s, keep), keep) == Filter(s, keep)
  {
    if s != [] {
      FilterIdempotent(s[1..], keep);
      if keep(s[0]) {
        var f := Filter(s, keep);
        assert f == [s[0]] + Filter(s[1..], keep);
        assert f[0] == s[0] && f[1..] == Filter(s[1..], keep);
        assert Filter(f, keep) == [f[0]] + Filter(f[1..], keep);
      }
    }
  }

  lemma {:induction false} FilterIsSubsequence<T>(s: seq<T>, keep: T -> bool)
    ensures IsSubsequence(Filter(s, keep), s)
  {
    if s != [] {
      FilterIsSubsequence(s[1..], keep);
      if keep(s[0]) {
        var f := Filter(s, keep);
        assert f[0] == s[0] && f[1..] == Filter(s[1..], keep);
      } else {
        assert Filter(s, keep) == Filter(s[1..], keep);
      }
    }
  }

  lemma {:induction false} InsertPermutes<T>(x: T, s: seq<T>, le: (T, T) -> bool)
    ensures multiset(Insert(x, s, le)) == multiset(s) + multiset{x}
  {
    if s != [] && !le(x, s[0]) {
      InsertPermutes(x, s[1..], le);
      assert s == [s[0]] + s[1..];
    }
  }

  /** Sorting rearranges the elements without adding or losing any. */
  lemma {:induction false} SortPermutes<T>(s: seq<T>, le: (T, T) -> bool)
    ensures multiset(Sort(s, le)) == multiset(s)
    ensures |Sort(s, le)| == |s|
  {
    if s != [] {
      SortPermutes(s[1..], le);
      InsertPermutes(s[0], Sort(s[1..], le), le);
      assert s == [s[0]] + s[1..];
    }
    assert |multiset(Sort(s, le))| == |Sort(s, le)|;
  }

  lemma PairwiseCons<T>(h: T, t: seq<T>, le: (T, T) -> bool)
    requires Pairwise(t, le)
    requires forall y :: y in t ==> le(h, y)
    ensures Pairwise([h] + t, le)
  {
    var s := [h] + t;
    forall i, j | 0 <= i < j < |s| ensures le(s[i], s[j]) {
      if i > 0 {
        assert s[i] == t[i - 1] && s[j] == t[j - 1];
      } else {
        assert s[j] == t[j - 1];
      }
    }
  }

  lemma {:induction false} InsertSorted<T>(x: T, s: seq<T>, le: (T, T) -> bool)
    requires Pairwise(s, le)
    requires TotalPreorderOn(le, [x] + s)
    ensures Pairwise(Insert(x, s, le), le)
  {
    if s == [] {
    } else if le(x, s[0]) {
      forall y | y in s ensures le(x, y) {
        var j :| 0 <= j < |s| && s[j] == y;
        if j > 0 {
          assert le(s[0], s[j]);
          assert s[0] in [x] + s && y in [x] + s && x in [x] + s;
        }
      }
      PairwiseCons(x, s, le);
    } else {
      assert x in [x] + s && s[0] in [x] + s;
      assert le(s[0], x);
      var t := s[1..];
      assert Pairwise(t, le) by {
        forall i, j | 0 <= i < j < |t| ensures le(t[i], t[j]) {
          assert t[i] == s[i + 1] && t[j] == s[j + 1];
        }
      }
      forall a | a in [x] + t ensures a in [x] + s {
        if a != x {
          assert a in t;
        }
      }
      TotalPreorderOnSubset(le, [x] + s, [x] + t);
      InsertSorted(x, t, le);
      InsertPermutes(x, t, le);
      forall y | y in Insert(x, t, le) ensures le(s[0], y) {
        assert y in multiset(Insert(x, t, le));
        assert y == x || y in multiset(t);
        if y != x {
          var j :| 0 <= j < |t| && t[j] == y;
          assert le(s[0], s[j + 1]);
        }
      }
      PairwiseCons(s[0], Insert(x, t, le), le);
    }
  }

  /**
   * With a relation that is total and transitive on the input, the sort's
   * output is ordered: every element may precede every later one.
   */
  lemma {:induction false} SortSorted<T>(s: seq<T>, le: (T, T) -> bool)
    requires TotalPreorderOn(le, s)
    ensures Pairwise(Sort(s, le), le)
  {
    if s != [] {
      var t := s[1..];
      forall a | a in t ensures a in s { }
      TotalPreorderOnSubset(le, s, t);
      SortSorted(t, le);
      SortPermutes(t, le);
      forall a | a in [s[0]] + Sort(t, le) ensures a in s {
        if a != s[0] {
          assert a in multiset(Sort(t, le));
          assert a in t;
        }
      }
      TotalPreorderOnSubset(le, s, [s[0]] + Sort(t, le));
      InsertSorted(s[0], Sort(t, le), le);
    }
  }

  /** Filtering a sorted sequence after an insertion is inserting into the filtered one. */
  lemma {:induction false} FilterInsert<T>(x: T, s: seq<T>, le: (T, T) -> bool, keep: T -> bool)
    requires Pairwise(s, le)
    requires TotalPreorderOn(le, [x] + s)
    ensures Filter(Insert(x, s, le), keep)
         == if keep(x) then Insert(x, Filter(s, keep), le) else Filter(s, keep)
  {
    if s == [] {
    } else if le(x, s[0]) {
      var f := Filter(s, keep);
      if keep(x) && f != [] {
        FilterMembership(s, keep, f[0]);
        var j :| 0 <= j < |s| && s[j] == f[0];
        if j > 0 {
          assert le(s[0], s[j]);
          assert s[0] in [x] + s && s[j] in [x] + s && x in [x] + s;
        }
        assert le(x, f[0]);
      }
    } else {
      var t := s[1..];
      assert Pairwise(t, le) by {
        forall i, j | 0 <= i < j < |t| ensures le(t[i], t[j]) {
          assert t[i] == s[i + 1] && t[j] == s[j + 1];
        }
      }
      forall a | a in [x] + t ensures a in [x] + s {
        if a != x {
          assert a in t;
        }
      }
      TotalPreorderOnSubset(le, [x] + s, [x] + t);
      FilterInsert(x, t, le, keep);
      var i := Insert(x, t, le);
      assert Insert(x, s, le) == [s[0]] + i;
      assert ([s[0]] + i)[0] == s[0] && ([s[0]] + i)[1..] == i;
      if keep(x) && keep(s[0]) {
        var ft := Filter(t, keep);
        assert ([s[0]] + ft)[0] == s[0] && ([s[0]] + ft)[1..] == ft;
        assert Insert(x, [s[0]] + ft, le) == [s[0]] + Insert(x, ft, le);
      }
    }
  }

  /**
   * For a stable sort, selecting then sorting equals sorting then selecting: a
   * filtered listing is in the same relative order as the full listing.
   */
  lemma {:induction false} SortFilterCommute<T>(s: seq<T>, le: (T, T) -> bool, keep: T -> bool)
    requires TotalPreorderOn(le, s)
    ensures Filter(Sort(s, le), keep) == Sort(Filter(s, keep), le)
  {
    if s != [] {
      var t := s[1..];
      forall a | a in t ensures a in s { }
      TotalPreorderOnSubset(le, s, t);
      SortFilterCommute(t, le, keep);
      SortSorted(t, le);
      SortPermutes(t, le);
      forall a | a in [s[0]] + Sort(t, le) ensures a in s {
        if a != s[0] {
          assert a in multiset(Sort(t, le));
          assert a in t;
        }
      }
      TotalPreorderOnSubset(le, s, [s[0]] + Sort(t, le));
      FilterInsert(s[0], Sort(t, le), le, keep);
      if keep(s[0]) {
        var ft := Filter(t, keep);
        assert Filter(s, keep) == [s[0]] + ft;
        assert ([s[0]] + ft)[0] == s[0] && ([s[0]] + ft)[1..] == ft;
        assert Sort(Filter(s, keep), le) == Insert(s[0], Sort(ft, le), le);
      }
    }
  }
}
