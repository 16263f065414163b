/** sort.SliceStable, as an insertion sort. */
module Sorting {

  /** Puts `x` before the first element that it is not after. */
  function Insert<T>(x: T, xs: seq<T>, less: (T, T) -> bool): seq<T> {
    if xs == [] || !less(xs[0], x) then [x] + xs else [xs[0]] + Insert(x, xs[1..], less)
  }

  function SortStable<T>(xs: seq<T>, less: (T, T) -> bool): seq<T> {
    if xs == [] then [] else Insert(xs[0], SortStable(xs[1..], less), less)
  }

  lemma {:induction false} InsertAdds<T>(x: T, xs: seq<T>, less: (T, T) -> bool)
    ensures multiset(Insert(x, xs, less)) == multiset(xs) + multiset{x}
  {
    if xs != [] {
      assert xs == [xs[0]] + xs[1..];
      if less(xs[0], x) {
        InsertAdds(x, xs[1..], less);
      }
    }
  }

  /** Sorting rearranges. */
  lemma {:induction false} SortPermutes<T>(xs: seq<T>, less: (T, T) -> bool)
    ensures multiset(SortStable(xs, less)) == multiset(xs)
  {
    if xs != [] {
      SortPermutes(xs[1..], less);
      InsertAdds(xs[0], SortStable(xs[1..], less), less);
      assert xs == [xs[0]] + xs[1..];
    }
  }

  /** A strict order in which any two elements come in some order, or can be exchanged. */
  ghost predicate WeakOrder<T(!new)>(less: (T, T) -> bool) {
    && (forall a, b :: less(a, b) ==> !less(b, a))
    && forall a, b, c :: !less(b, a) && !less(c, b) ==> !less(c, a)
  }

  /** No element is before one that precedes it. */
  ghost predicate Ordered<T>(xs: seq<T>, less: (T, T) -> bool) {
    forall i, j :: 0 <= i < j < |xs| ==> !less(xs[j], xs[i])
  }

  lemma {:induction false} InsertKeepsOrdered<T(!new)>(x: T, xs: seq<T>, less: (T, T) -> bool)
    requires WeakOrder(less) && Ordered(xs, less)
    ensures Ordered(Insert(x, xs, less), less)
  {
    if xs == [] {
    } else if !less(xs[0], x) {
      var after := [x] + xs;
      forall j | 0 < j < |after|
        ensures !less(after[j], x)
      {
        assert after[j] == xs[j - 1] && (j > 1 ==> !less(xs[j - 1], xs[0]));
      }
    } else {
      var rest := Insert(x, xs[1..], less);
      InsertKeepsOrdered(x, xs[1..], less);
      InsertAdds(x, xs[1..], less);
      forall j | 0 <= j < |rest|
        ensures !less(rest[j], xs[0])
      {
        assert rest[j] in multiset(rest);
        assert rest[j] == x || rest[j] in xs[1..];
      }
    }
  }

  /** Sorting leaves nothing before an element that it should follow. */
  lemma {:induction false} SortOrders<T(!new)>(xs: seq<T>, less: (T, T) -> bool)
    requires WeakOrder(less)
    ensures Ordered(SortStable(xs, less), less)
  {
    if xs == [] {
    } else {
      SortOrders(xs[1..], less);
      InsertKeepsOrdered(xs[0], SortStable(xs[1..], less), less);
    }
  }

  function KeptBy<T>(xs: seq<T>, keep: T -> bool): seq<T> {
    if xs == [] then [] else (if keep(xs[0]) then [xs[0]] else []) + KeptBy(xs[1..], keep)
  }

  lemma {:induction false} InsertKeepsTies<T(!new)>(x: T, xs: seq<T>, less: (T, T) -> bool, tied: T -> bool)
    requires forall a, b :: tied(a) && tied(b) ==> !less(a, b)
    ensures KeptBy(Insert(x, xs, less), tied) == KeptBy([x] + xs, tied)
  {
    assert ([x] + xs)[1..] == xs;
    if xs != [] && less(xs[0], x) {
      InsertKeepsTies(x, xs[1..], less, tied);
      assert ([x] + xs[1..])[1..] == xs[1..];
      var after := [xs[0]] + Insert(x, xs[1..], less);
      assert after[1..] == Insert(x, xs[1..], less);
    }
  }

  /** Sorting is stable: elements of which none is before another stay in the order in which they were. */
  lemma {:induction false} SortKeepsTies<T(!new)>(xs: seq<T>, less: (T, T) -> bool, tied: T -> bool)
    requires forall a, b :: tied(a) && tied(b) ==> !less(a, b)
    ensures KeptBy(SortStable(xs, less), tied) == KeptBy(xs, tied)
  {
    if xs == [] {
    } else {
      SortKeepsTies(xs[1..], less, tied);
      InsertKeepsTies(xs[0], SortStable(xs[1..], less), less, tied);
      var rest := SortStable(xs[1..], less);
      assert ([xs[0]] + rest)[1..] == rest;
    }
  }

  /** In strict order. */
  ghost predicate Sorted<T>(xs: seq<T>, less: (T, T) -> bool) {
    forall i, j :: 0 <= i < j < |xs| ==> less(xs[i], xs[j])
  }

  ghost predicate Transitive<T(!new)>(less: (T, T) -> bool) {
    forall a, b, c :: less(a, b) && less(b, c) ==> less(a, c)
  }

  lemma {:induction false} InsertKeepsOrder<T(!new)>(x: T, xs: seq<T>, less: (T, T) -> bool)
    requires Transitive(less) && Sorted(xs, less) && forall y :: y in xs ==> less(x, y) || less(y, x)
    ensures Sorted(Insert(x, xs, less), less)
  {
    if xs == [] {
    } else if !less(xs[0], x) {
      assert xs[0] in xs;
      assert forall j :: 0 < j < |xs| ==> less(xs[0], xs[j]);
    } else {
      var rest := Insert(x, xs[1..], less);
      InsertKeepsOrder(x, xs[1..], less);
      InsertAdds(x, xs[1..], less);
      forall j | 0 <= j < |rest|
        ensures less(xs[0], rest[j])
      {
        assert rest[j] in multiset(rest);
        assert rest[j] == x || rest[j] in xs[1..];
      }
    }
  }

  /** Sorting elements that are all comparable puts them in strict order. */
  lemma {:induction false} SortSorts<T(!new)>(xs: seq<T>, less: (T, T) -> bool)
    requires Transitive(less) && forall i, j :: 0 <= i < j < |xs| ==> less(xs[i], xs[j]) || less(xs[j], xs[i])
    ensures Sorted(SortStable(xs, less), less)
  {
    if xs != [] {
      SortSorts(xs[1..], less);
      SortPermutes(xs[1..], less);
      var rest := SortStable(xs[1..], less);
      forall y | y in rest
        ensures less(xs[0], y) || less(y, xs[0])
      {
        assert y in multiset(xs[1..]);
      }
      InsertKeepsOrder(xs[0], rest, less);
    }
  }
}
