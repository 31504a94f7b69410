/** `ORDER BY <name>` over a sequence of rows: an insertion sort on a string
    key, proved to sort and to permute. */
module Sorting {
  import opened Text

  /** Rows are non-decreasing by `key`. */
  predicate SortedBy<T>(xs: seq<T>, key: T -> string) {
    forall i, j :: 0 <= i < j < |xs| ==> StrLe(key(xs[i]), key(xs[j]))
  }

  function Insert<T>(x: T, xs: seq<T>, key: T -> string): seq<T> {
    if |xs| == 0 then [x]
    else if StrLe(key(x), key(xs[0])) then [x] + xs
    else [xs[0]] + Insert(x, xs[1..], key)
  }

  function SortBy<T>(xs: seq<T>, key: T -> string): seq<T> {
    if |xs| == 0 then [] else Insert(xs[0], SortBy(xs[1..], key), key)
  }

  lemma {:induction false} InsertPermutes<T>(x: T, xs: seq<T>, key: T -> string)
    ensures multiset(Insert(x, xs, key)) == multiset(xs) + multiset{x}
  {
    if |xs| > 0 && !StrLe(key(x), key(xs[0])) {
      InsertPermutes(x, xs[1..], key);
      assert xs == [xs[0]] + xs[1..];
    }
  }

  lemma {:induction false} InsertElements<T>(x: T, xs: seq<T>, key: T -> string)
    ensures forall y :: y in Insert(x, xs, key) <==> y == x || y in xs
  {
    if |xs| > 0 && !StrLe(key(x), key(xs[0])) {
      InsertElements(x, xs[1..], key);
      assert xs == [xs[0]] + xs[1..];
    }
  }

  /** A key below every row of a sorted sequence and below `x` stays below
      every row after inserting `x`. */
  lemma InsertKeepsLowerBound<T>(h: T, x: T, xs: seq<T>, key: T -> string)
    requires StrLe(key(h), key(x))
    requires forall y :: y in xs ==> StrLe(key(h), key(y))
    ensures forall y :: y in Insert(x, xs, key) ==> StrLe(key(h), key(y))
  {
    InsertElements(x, xs, key);
  }

  lemma {:induction false} InsertSorted<T>(x: T, xs: seq<T>, key: T -> string)
    requires SortedBy(xs, key)
    ensures SortedBy(Insert(x, xs, key), key)
  {
    var r := Insert(x, xs, key);
    if |xs| == 0 {
    } else if StrLe(key(x), key(xs[0])) {
      forall i, j | 0 <= i < j < |r|
        ensures StrLe(key(r[i]), key(r[j]))
      {
        if i == 0 && j > 1 {
          StrLeTransitive(key(x), key(xs[0]), key(xs[j - 1]));
        }
      }
    } else {
      var h := xs[0];
      var tail := xs[1..];
      StrLeTotal(key(x), key(h));
      assert SortedBy(tail, key);
      forall y | y in tail
        ensures StrLe(key(h), key(y))
      {
        var k :| 0 <= k < |tail| && tail[k] == y;
        assert xs[k + 1] == y;
      }
      var rest := Insert(x, tail, key);
      InsertSorted(x, tail, key);
      InsertKeepsLowerBound(h, x, tail, key);
      assert r == [h] + rest;
      forall i, j | 0 <= i < j < |r|
        ensures StrLe(key(r[i]), key(r[j]))
      {
        if i == 0 {
          assert r[j] == rest[j - 1] && rest[j - 1] in rest;
        } else {
          assert r[i] == rest[i - 1] && r[j] == rest[j - 1];
        }
      }
    }
  }

  /** The sorted rows are ordered by `key` and are exactly the input rows,
      each as often as in the input. */
  lemma {:induction false} SortByCorrect<T>(xs: seq<T>, key: T -> string)
    ensures SortedBy(SortBy(xs, key), key)
    ensures multiset(SortBy(xs, key)) == multiset(xs)
  {
    if |xs| > 0 {
      SortByCorrect(xs[1..], key);
      InsertSorted(xs[0], SortBy(xs[1..], key), key);
      InsertPermutes(xs[0], SortBy(xs[1..], key), key);
      assert xs == [xs[0]] + xs[1..];
    }
  }
}
