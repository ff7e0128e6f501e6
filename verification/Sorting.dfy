/** Sorting by a strict total order: the result depends only on which elements there are. */
module Sorting {
  import opened TopK

  function InsertSorted<T(==)>(less: (T, T) -> bool, sorted: seq<T>, x: T): seq<T> {
    if sorted == [] || less(x, sorted[0]) then [x] + sorted
    else [sorted[0]] + InsertSorted(less, sorted[1..], x)
  }

  function Sort<T(==)>(less: (T, T) -> bool, s: seq<T>): seq<T> {
    if s == [] then [] else InsertSorted(less, Sort(less, s[..|s| - 1]), s[|s| - 1])
  }

  /** No element precedes an earlier one. */
  ghost predicate InOrder<T(!new)>(less: (T, T) -> bool, s: seq<T>) {
    forall i, j :: 0 <= i < j < |s| ==> !less(s[j], s[i])
  }

  lemma {:induction false} InsertPermutes<T>(less: (T, T) -> bool, sorted: seq<T>, x: T)
    ensures multiset(InsertSorted(less, sorted, x)) == multiset(sorted) + multiset{x}
    decreases |sorted|
  {
    if sorted != [] && !less(x, sorted[0]) {
      InsertPermutes(less, sorted[1..], x);
      assert sorted == [sorted[0]] + sorted[1..];
    }
  }

  lemma {:induction false} SortPermutes<T>(less: (T, T) -> bool, s: seq<T>)
    ensures multiset(Sort(less, s)) == multiset(s)
    decreases |s|
  {
    if s != [] {
      SortPermutes(less, s[..|s| - 1]);
      InsertPermutes(less, Sort(less, s[..|s| - 1]), s[|s| - 1]);
      assert s == s[..|s| - 1] + [s[|s| - 1]];
    }
  }

  lemma {:induction false} InsertInOrder<T(!new)>(less: (T, T) -> bool, sorted: seq<T>, x: T)
    requires StrictTotal(less) && InOrder(less, sorted)
    ensures InOrder(less, InsertSorted(less, sorted, x))
    decreases |sorted|
  {
    if sorted != [] && !less(x, sorted[0]) {
      var rest := InsertSorted(less, sorted[1..], x);
      InsertInOrder(less, sorted[1..], x);
      InsertPermutes(less, sorted[1..], x);
      forall j | 0 <= j < |rest| ensures !less(rest[j], sorted[0]) {
        assert rest[j] in multiset(rest);
        if rest[j] != x {
          assert rest[j] in sorted[1..];
        }
      }
    } else if sorted != [] {
      forall j | 0 <= j < |sorted| ensures !less(sorted[j], x) {
      }
    }
  }

  lemma {:induction false} SortInOrder<T(!new)>(less: (T, T) -> bool, s: seq<T>)
    requires StrictTotal(less)
    ensures InOrder(less, Sort(less, s))
    decreases |s|
  {
    if s != [] {
      SortInOrder(less, s[..|s| - 1]);
      InsertInOrder(less, Sort(less, s[..|s| - 1]), s[|s| - 1]);
    }
  }

  /** Two ordered sequences with the same elements are the same. */
  lemma {:induction false} OrderUnique<T(!new)>(less: (T, T) -> bool, a: seq<T>, b: seq<T>)
    requires StrictTotal(less) && InOrder(less, a) && InOrder(less, b) && multiset(a) == multiset(b)
    ensures a == b
    decreases |a|
  {
    SameLength(a, b);
    if a != [] {
      SameMembers(a, b);
      SameFirst(less, a, b);
      TailMultiset(a);
      TailMultiset(b);
      OrderUnique(less, a[1..], b[1..]);
    }
  }

  lemma SameLength<T>(a: seq<T>, b: seq<T>)
    requires multiset(a) == multiset(b)
    ensures |a| == |b|
  {
    assert |multiset(a)| == |a| && |multiset(b)| == |b|;
  }

  lemma SameMembers<T>(a: seq<T>, b: seq<T>)
    requires multiset(a) == multiset(b)
    ensures forall x :: x in a <==> x in b
  {
    forall x ensures x in a <==> x in b {
      assert x in multiset(a) <==> x in a;
      assert x in multiset(b) <==> x in b;
    }
  }

  lemma TailMultiset<T>(a: seq<T>)
    requires a != []
    ensures multiset(a[1..]) == multiset(a) - multiset{a[0]}
  {
    assert a == [a[0]] + a[1..];
  }

  lemma SameFirst<T(!new)>(less: (T, T) -> bool, a: seq<T>, b: seq<T>)
    requires StrictTotal(less) && InOrder(less, a) && InOrder(less, b) && a != [] && b != []
    requires a[0] in b && b[0] in a
    ensures a[0] == b[0]
  {
    var i :| 0 <= i < |a| && a[i] == b[0];
    var j :| 0 <= j < |b| && b[j] == a[0];
    assert i == 0 || !less(a[i], a[0]);
    assert j == 0 || !less(b[j], b[0]);
  }

  /** Sorting forgets the order of its input. */
  lemma SortForgetsOrder<T(!new)>(less: (T, T) -> bool, a: seq<T>, b: seq<T>)
    requires StrictTotal(less) && multiset(a) == multiset(b)
    ensures Sort(less, a) == Sort(less, b)
  {
    SortPermutes(less, a);
    SortPermutes(less, b);
    SortInOrder(less, a);
    SortInOrder(less, b);
    OrderUnique(less, Sort(less, a), Sort(less, b));
  }

  // ----- Elementwise images -----

  function Map<T, U>(f: T -> U, s: seq<T>): (r: seq<U>)
    ensures |r| == |s|
  {
    if s == [] then [] else [f(s[0])] + Map(f, s[1..])
  }

  lemma {:induction false} MapAt<T, U>(f: T -> U, s: seq<T>, i: nat)
    requires i < |s|
    ensures Map(f, s)[i] == f(s[i])
    decreases i
  {
    if i > 0 {
      MapAt(f, s[1..], i - 1);
    }
  }

  lemma MapMembers<T, U>(f: T -> U, s: seq<T>)
    ensures forall y :: y in Map(f, s) <==> exists x :: x in s && f(x) == y
  {
    forall i | 0 <= i < |s| ensures Map(f, s)[i] == f(s[i]) {
      MapAt(f, s, i);
    }
  }

  lemma {:induction false} MapAppend<T, U>(f: T -> U, a: seq<T>, b: seq<T>)
    ensures Map(f, a + b) == Map(f, a) + Map(f, b)
    decreases |a|
  {
    if a == [] {
      assert a + b == b;
    } else {
      assert (a + b)[1..] == a[1..] + b;
      MapAppend(f, a[1..], b);
    }
  }

  lemma Without<T>(b: seq<T>, j: nat) returns (rest: seq<T>)
    requires j < |b|
    ensures rest == b[..j] + b[j + 1..] && multiset(b) == multiset(rest) + multiset{b[j]}
  {
    rest := b[..j] + b[j + 1..];
    assert b == b[..j] + [b[j]] + b[j + 1..];
  }

  lemma MapWithout<T, U>(f: T -> U, b: seq<T>, j: nat)
    requires j < |b|
    ensures multiset(Map(f, b)) == multiset(Map(f, b[..j] + b[j + 1..])) + multiset{f(b[j])}
  {
    var l, r := b[..j], b[j + 1..];
    MapAppend(f, l, r);
    MapAppend(f, l, b[j..]);
    assert b == l + b[j..] && b[j..][1..] == r;
    PlusOne(Map(f, l), f(b[j]), Map(f, r), Map(f, b));
  }

  lemma PlusOne<U>(l: seq<U>, y: U, r: seq<U>, all: seq<U>)
    requires all == l + ([y] + r)
    ensures multiset(all) == multiset(l + r) + multiset{y}
  {
  }

  /** The image of a permutation is a permutation of the image. */
  lemma {:induction false} MapPermutes<T, U>(f: T -> U, a: seq<T>, b: seq<T>)
    requires multiset(a) == multiset(b)
    ensures multiset(Map(f, a)) == multiset(Map(f, b))
    decreases |a|
  {
    SameLength(a, b);
    if a != [] {
      SameMembers(a, b);
      assert a[0] in b;
      var j :| 0 <= j < |b| && b[j] == a[0];
      var rest := Without(b, j);
      TailMultiset(a);
      assert multiset(a[1..]) == multiset(rest);
      MapPermutes(f, a[1..], rest);
      MapWithout(f, b, j);
      MapFirst(f, a);
    }
  }

  lemma MapFirst<T, U>(f: T -> U, a: seq<T>)
    requires a != []
    ensures multiset(Map(f, a)) == multiset(Map(f, a[1..])) + multiset{f(a[0])}
  {
  }

  /** Sorting by the order of the images sorts the images. */
  lemma {:induction false} MapInsert<T, U>(f: T -> U, lessT: (T, T) -> bool, lessU: (U, U) -> bool, sorted: seq<T>, x: T)
    requires forall y, z :: lessT(y, z) == lessU(f(y), f(z))
    ensures Map(f, InsertSorted(lessT, sorted, x)) == InsertSorted(lessU, Map(f, sorted), f(x))
    decreases |sorted|
  {
    if sorted == [] || lessT(x, sorted[0]) {
      MapAppend(f, [x], sorted);
      assert Map(f, [x]) == [f(x)];
    } else {
      MapInsert(f, lessT, lessU, sorted[1..], x);
      assert ([sorted[0]] + InsertSorted(lessT, sorted[1..], x))[1..] == InsertSorted(lessT, sorted[1..], x);
    }
  }

  lemma {:induction false} MapSort<T, U>(f: T -> U, lessT: (T, T) -> bool, lessU: (U, U) -> bool, s: seq<T>)
    requires forall y, z :: lessT(y, z) == lessU(f(y), f(z))
    ensures Map(f, Sort(lessT, s)) == Sort(lessU, Map(f, s))
    decreases |s|
  {
    if s != [] {
      var front, last := s[..|s| - 1], s[|s| - 1];
      MapSort(f, lessT, lessU, front);
      MapInsert(f, lessT, lessU, Sort(lessT, front), last);
      MapAppend(f, front, [last]);
      assert s == front + [last] && Map(f, [last]) == [f(last)];
    }
  }
}
