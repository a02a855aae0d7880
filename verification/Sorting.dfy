/** Sorting under a strict total order, as `toSorted` is used on keys and file names. */
module Sorting {

  ghost predicate TotalOrder<T(!new)>(less: (T, T) -> bool) {
    && (forall a :: !less(a, a))
    && (forall a, b :: a == b || less(a, b) || less(b, a))
    && (forall a, b, c :: less(a, b) && less(b, c) ==> less(a, c))
  }

  ghost predicate Ascending<T>(s: seq<T>, less: (T, T) -> bool) {
    forall i, j :: 0 <= i < j < |s| ==> less(s[i], s[j])
  }

  ghost predicate Distinct<T>(s: seq<T>) { forall i, j :: 0 <= i < j < |s| ==> s[i] != s[j] }

  function Insert<T>(x: T, s: seq<T>, less: (T, T) -> bool): seq<T> {
    if s == [] then [x] else if less(x, s[0]) then [x] + s else [s[0]] + Insert(x, s[1..], less)
  }

  function Sort<T>(s: seq<T>, less: (T, T) -> bool): seq<T> {
    if s == [] then [] else Insert(s[0], Sort(s[1..], less), less)
  }

  lemma {:induction false} InsertedElements<T>(x: T, s: seq<T>, less: (T, T) -> bool)
    ensures multiset(Insert(x, s, less)) == multiset(s) + multiset{x}
  {
    if s != [] && !less(x, s[0]) {
      InsertedElements(x, s[1..], less);
      assert s == [s[0]] + s[1..];
    }
  }

  lemma {:induction false} Inserted<T(!new)>(x: T, s: seq<T>, less: (T, T) -> bool)
    requires TotalOrder(less) && Ascending(s, less) && x !in s
    ensures Ascending(Insert(x, s, less), less)
  {
    if s != [] {
      if less(x, s[0]) {
        assert forall i :: 0 < i < |s| ==> less(s[0], s[i]);
      } else {
        var rest := Insert(x, s[1..], less);
        Inserted(x, s[1..], less);
        InsertedElements(x, s[1..], less);
        forall i | 0 <= i < |rest|
          ensures less(s[0], rest[i])
        {
          assert rest[i] in multiset(rest);
          assert rest[i] == x || rest[i] in s[1..];
        }
      }
    }
  }

  /** Sorting keeps exactly the elements and puts them in ascending order. */
  lemma {:induction false} Sorted<T(!new)>(s: seq<T>, less: (T, T) -> bool)
    requires TotalOrder(less) && Distinct(s)
    ensures Ascending(Sort(s, less), less) && multiset(Sort(s, less)) == multiset(s)
    ensures |Sort(s, less)| == |s| && forall x :: x in Sort(s, less) <==> x in s
  {
    if s != [] {
      var tail := s[1..];
      Sorted(tail, less);
      assert s == [s[0]] + tail;
      assert s[0] !in tail;
      Inserted(s[0], Sort(tail, less), less);
      InsertedElements(s[0], Sort(tail, less), less);
      SameElements(Sort(s, less), s);
    }
  }

  lemma SameElements<T(!new)>(a: seq<T>, b: seq<T>)
    requires multiset(a) == multiset(b)
    ensures |a| == |b| && forall x :: x in a <==> x in b
  {
    assert |a| == |multiset(a)| == |multiset(b)| == |b|;
    forall x
      ensures x in a <==> x in b
    {
      assert x in a <==> x in multiset(a);
      assert x in b <==> x in multiset(b);
    }
  }

  lemma AscendingIsDistinct<T(!new)>(s: seq<T>, less: (T, T) -> bool)
    requires TotalOrder(less) && Ascending(s, less)
    ensures Distinct(s)
  {
    forall i, j | 0 <= i < j < |s|
      ensures s[i] != s[j]
    {
      assert less(s[i], s[j]);
    }
  }

  /** An ascending sequence is already sorted. */
  lemma {:induction false} SortAscending<T(!new)>(s: seq<T>, less: (T, T) -> bool)
    requires TotalOrder(less) && Ascending(s, less)
    ensures Sort(s, less) == s
  {
    if s != [] {
      SortAscending(s[1..], less);
      assert s == [s[0]] + s[1..];
      if |s| > 1 {
        assert less(s[0], s[1]);
      }
    }
  }
}
