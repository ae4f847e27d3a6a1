/**
 * Sorting under a comparator that this model does not interpret.
 *
 * The sweep re-sorts its status queue with `UvEdgeComparator` and its event
 * queue with `Event::operator<` (uvChecker/src/findUvOverlaps2.cpp:363, 408,
 * 532). Both orders depend on floating-point geometry that is not part of
 * this model, so the order is a parameter here. `SortBy` is an insertion
 * sort: it returns a rearrangement of its input, and under a strict weak
 * order (which `std::sort` demands of its comparator) that rearrangement is
 * sorted.
 */
module Sorting {

  /** Insert `x` before the first element that is not less than it. */
  function Insert<T>(x: T, s: seq<T>, less: (T, T) -> bool): (r: seq<T>)
    ensures |r| == |s| + 1
  {
    if s == [] then [x]
    else if less(s[0], x) then
      assert s == [s[0]] + s[1..];
      [s[0]] + Insert(x, s[1..], less)
    else [x] + s
  }

  /** Inserting adds `x` and keeps every element of `s`. */
  lemma {:induction false} InsertPermutes<T>(x: T, s: seq<T>, less: (T, T) -> bool)
    ensures multiset(Insert(x, s, less)) == multiset(s) + multiset{x}
    decreases |s|
  {
    if s != [] {
      assert s == [s[0]] + s[1..];
      if less(s[0], x) {
        InsertPermutes(x, s[1..], less);
      }
    }
  }

  /** The elements of `s` in the order `less`. */
  function SortBy<T>(s: seq<T>, less: (T, T) -> bool): (r: seq<T>)
    ensures |r| == |s|
  {
    if s == [] then []
    else Insert(s[0], SortBy(s[1..], less), less)
  }

  /** Sorting rearranges: the result holds each element as often as `s` does. */
  lemma {:induction false} SortByPermutes<T>(s: seq<T>, less: (T, T) -> bool)
    ensures multiset(SortBy(s, less)) == multiset(s)
    decreases |s|
  {
    if s != [] {
      assert s == [s[0]] + s[1..];
      SortByPermutes(s[1..], less);
      InsertPermutes(s[0], SortBy(s[1..], less), less);
    }
  }

  /** No element is less than an element before it. */
  ghost predicate SortedBy<T>(s: seq<T>, less: (T, T) -> bool) {
    forall i, j :: 0 <= i < j < |s| ==> !less(s[j], s[i])
  }

  ghost predicate AsymmetricAt<T>(less: (T, T) -> bool, a: T, b: T) {
    less(a, b) ==> !less(b, a)
  }

  ghost predicate TransitiveAt<T>(less: (T, T) -> bool, a: T, b: T, c: T) {
    less(a, b) && less(b, c) ==> less(a, c)
  }

  /** Being "not less" is transitive too, so incomparability is an equivalence. */
  ghost predicate NotLessTransitiveAt<T>(less: (T, T) -> bool, a: T, b: T, c: T) {
    !less(a, b) && !less(b, c) ==> !less(a, c)
  }

  /** The requirement `std::sort` places on its comparator. */
  ghost predicate StrictWeakOrder<T(!new)>(less: (T, T) -> bool) {
    && (forall a, b :: AsymmetricAt(less, a, b))
    && (forall a, b, c :: TransitiveAt(less, a, b, c))
    && (forall a, b, c :: NotLessTransitiveAt(less, a, b, c))
  }

  lemma {:induction false} InsertSorted<T(!new)>(x: T, s: seq<T>, less: (T, T) -> bool)
    requires StrictWeakOrder(less)
    requires SortedBy(s, less)
    ensures SortedBy(Insert(x, s, less), less)
    decreases |s|
  {
    if s != [] {
      var r := Insert(x, s, less);
      if less(s[0], x) {
        var rest := Insert(x, s[1..], less);
        assert SortedBy(s[1..], less);
        InsertSorted(x, s[1..], less);
        InsertPermutes(x, s[1..], less);
        assert r == [s[0]] + rest;
        forall j | 0 < j < |r| ensures !less(r[j], r[0]) {
          assert r[j] in multiset(rest);
          if r[j] == x {
            assert AsymmetricAt(less, s[0], x);
          } else {
            assert r[j] in multiset(s[1..]);
            var k :| 0 <= k < |s[1..]| && s[1..][k] == r[j];
            assert s[k + 1] == r[j];
          }
        }
      } else {
        assert r == [x] + s;
        forall j | 0 < j < |r| ensures !less(r[j], r[0]) {
          if j > 1 {
            assert NotLessTransitiveAt(less, s[j - 1], s[0], x);
          }
        }
      }
    }
  }

  /** Under a strict weak order the result of `SortBy` is sorted. */
  lemma {:induction false} SortBySorted<T(!new)>(s: seq<T>, less: (T, T) -> bool)
    requires StrictWeakOrder(less)
    ensures SortedBy(SortBy(s, less), less)
    decreases |s|
  {
    if s != [] {
      SortBySorted(s[1..], less);
      InsertSorted(s[0], SortBy(s[1..], less), less);
    }
  }
}
