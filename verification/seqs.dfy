/** Sequences used as database tables: filtering rows, key uniqueness. */
module Seqs {

  /** The rows of `xs` that satisfy `p`, in their original order (a
      `WHERE` clause over a table). */
  function Filter<T>(xs: seq<T>, p: T -> bool): (r: seq<T>)
    ensures |r| <= |xs|
    ensures forall x :: x in r ==> x in xs && p(x)
    ensures forall x :: x in xs && p(x) ==> x in r
  {
    if |xs| == 0 then []
    else (if p(xs[0]) then [xs[0]] else []) + Filter(xs[1..], p)
  }

  lemma {:induction false} FilterAppend<T>(a: seq<T>, b: seq<T>, p: T -> bool)
    ensures Filter(a + b, p) == Filter(a, p) + Filter(b, p)
  {
    if |a| == 0 {
      assert a + b == b;
    } else {
      assert (a + b)[1..] == a[1..] + b;
      FilterAppend(a[1..], b, p);
    }
  }

  /** Filtering with a predicate every row satisfies keeps the whole table. */
  lemma {:induction false} FilterAll<T>(xs: seq<T>, p: T -> bool)
    requires forall x :: x in xs ==> p(x)
    ensures Filter(xs, p) == xs
  {
    if |xs| > 0 {
      assert forall x :: x in xs[1..] ==> x in xs;
      FilterAll(xs[1..], p);
    }
  }

  /** Filtering with a predicate no row satisfies yields the empty table. */
  lemma {:induction false} FilterNone<T>(xs: seq<T>, p: T -> bool)
    requires forall x :: x in xs ==> !p(x)
    ensures Filter(xs, p) == []
  {
    if |xs| > 0 {
      assert forall x :: x in xs[1..] ==> x in xs;
      FilterNone(xs[1..], p);
    }
  }

  /** Filtering twice is filtering once by the conjunction. */
  lemma {:induction false} FilterFilter<T>(xs: seq<T>, p: T -> bool, q: T -> bool, pq: T -> bool)
    requires forall x :: pq(x) == (p(x) && q(x))
    ensures Filter(Filter(xs, p), q) == Filter(xs, pq)
  {
    if |xs| > 0 {
      FilterFilter(xs[1..], p, q, pq);
      var fp := Filter(xs, p);
      if p(xs[0]) {
        assert fp == [xs[0]] + Filter(xs[1..], p);
        assert fp[0] == xs[0] && fp[1..] == Filter(xs[1..], p);
        assert Filter(fp, q) == (if q(xs[0]) then [xs[0]] else []) + Filter(fp[1..], q);
      } else {
        assert fp == Filter(xs[1..], p);
      }
    }
  }

  /** No two rows of `xs` share a `key` (a unique constraint). */
  predicate DistinctBy<T, K(==)>(xs: seq<T>, key: T -> K) {
    forall i, j :: 0 <= i < j < |xs| ==> key(xs[i]) != key(xs[j])
  }

  /** The set of keys occurring in `xs`. */
  function KeySet<T(==), K>(xs: seq<T>, key: T -> K): set<K> {
    set x | x in xs :: key(x)
  }

  lemma {:induction false} FilterDistinct<T, K>(xs: seq<T>, p: T -> bool, key: T -> K)
    requires DistinctBy(xs, key)
    ensures DistinctBy(Filter(xs, p), key)
  {
    if |xs| > 0 {
      var rest := Filter(xs[1..], p);
      assert DistinctBy(xs[1..], key) by {
        forall i, j | 0 <= i < j < |xs[1..]|
          ensures key(xs[1..][i]) != key(xs[1..][j])
        {
          assert xs[1..][i] == xs[i + 1] && xs[1..][j] == xs[j + 1];
        }
      }
      FilterDistinct(xs[1..], p, key);
      forall y | y in rest
        ensures key(y) != key(xs[0])
      {
        var k :| 0 <= k < |xs[1..]| && xs[1..][k] == y;
        assert xs[k + 1] == y;
      }
    }
  }

  /** Two uniquely keyed tables with disjoint keys stay uniquely keyed when
      concatenated. */
  lemma DistinctAppend<T, K>(a: seq<T>, b: seq<T>, key: T -> K)
    requires DistinctBy(a, key) && DistinctBy(b, key)
    requires KeySet(a, key) !! KeySet(b, key)
    ensures DistinctBy(a + b, key)
  {
    forall i, j | 0 <= i < j < |a + b|
      ensures key((a + b)[i]) != key((a + b)[j])
    {
      if j < |a| {
      } else if i >= |a| {
        assert (a + b)[i] == b[i - |a|] && (a + b)[j] == b[j - |a|];
      } else {
        assert (a + b)[i] == a[i] && (a + b)[j] == b[j - |a|];
        assert key(a[i]) in KeySet(a, key);
        assert key(b[j - |a|]) in KeySet(b, key);
      }
    }
  }

  /** A sequence without repeated elements. */
  predicate NoRepeats<T(==)>(xs: seq<T>) {
    forall i, j :: 0 <= i < j < |xs| ==> xs[i] != xs[j]
  }

  /** The elements of `xs` as a set, as Python's `set(xs)`. */
  function Elements<T(==)>(xs: seq<T>): set<T> {
    set x | x in xs
  }

  /** Python's duplicate test `len(xs) != len(set(xs))` detects exactly the
      sequences that repeat an element. */
  lemma {:induction false} CardinalityDetectsRepeats<T>(xs: seq<T>)
    ensures |Elements(xs)| == |xs| <==> NoRepeats(xs)
    ensures |Elements(xs)| <= |xs|
  {
    if |xs| > 0 {
      var last := xs[|xs| - 1];
      var init := xs[..|xs| - 1];
      CardinalityDetectsRepeats(init);
      assert xs == init + [last];
      assert Elements(xs) == Elements(init) + {last};
      if last in init {
        assert Elements(xs) == Elements(init);
        var k :| 0 <= k < |init| && init[k] == last;
        assert xs[k] == xs[|xs| - 1];
      } else {
        assert |Elements(xs)| == |Elements(init)| + 1;
        if NoRepeats(init) {
          forall i, j | 0 <= i < j < |xs|
            ensures xs[i] != xs[j]
          {
            if j == |xs| - 1 {
              assert xs[i] == init[i];
            } else {
              assert xs[i] == init[i] && xs[j] == init[j];
            }
          }
        } else {
          var i, j :| 0 <= i < j < |init| && init[i] == init[j];
          assert xs[i] == xs[j];
        }
      }
    }
  }

  /** The keys of the rows of `xs`, in row order. */
  function Keys<T, K>(xs: seq<T>, key: T -> K): (r: seq<K>)
    ensures |r| == |xs|
    ensures forall i :: 0 <= i < |xs| ==> r[i] == key(xs[i])
  {
    seq(|xs|, i requires 0 <= i < |xs| => key(xs[i]))
  }

  /** Reordering the rows of a uniquely keyed table keeps it uniquely
      keyed. */
  lemma DistinctPermutation<T, K>(a: seq<T>, b: seq<T>, key: T -> K)
    requires multiset(a) == multiset(b)
    requires DistinctBy(b, key)
    ensures DistinctBy(a, key)
    ensures KeySet(a, key) == KeySet(b, key)
  {
    var ka := Keys(a, key);
    var kb := Keys(b, key);
    assert |a| == |multiset(a)| == |multiset(b)| == |b|;
    assert forall x :: x in a <==> x in multiset(a);
    assert forall x :: x in b <==> x in multiset(b);
    assert Elements(ka) == KeySet(a, key) by {
      forall k | k in KeySet(a, key)
        ensures k in Elements(ka)
      {
        var x :| x in a && key(x) == k;
        var i :| 0 <= i < |a| && a[i] == x;
        assert ka[i] == k;
      }
    }
    assert Elements(kb) == KeySet(b, key) by {
      forall k | k in KeySet(b, key)
        ensures k in Elements(kb)
      {
        var x :| x in b && key(x) == k;
        var i :| 0 <= i < |b| && b[i] == x;
        assert kb[i] == k;
      }
    }
    CardinalityDetectsRepeats(ka);
    CardinalityDetectsRepeats(kb);
    assert NoRepeats(kb) by {
      forall i, j | 0 <= i < j < |kb|
        ensures kb[i] != kb[j]
      {
        assert key(b[i]) != key(b[j]);
      }
    }
    assert KeySet(a, key) == KeySet(b, key);
    assert |Elements(ka)| == |ka|;
    forall i, j | 0 <= i < j < |a|
      ensures key(a[i]) != key(a[j])
    {
      assert ka[i] != ka[j];
    }
  }
}
