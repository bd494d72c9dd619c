/** Insertion into a sorted list, and the stable sort it makes. */
module Sorting {

  /** A comparison that puts any two elements in order, consistently. */
  ghost predicate Orders<T(!new)>(notAfter: (T, T) -> bool) {
    && (forall a, b :: notAfter(a, b) || notAfter(b, a))
    && (forall a, b, c :: notAfter(a, b) && notAfter(b, c) ==> notAfter(a, c))
  }

  predicate Sorted<T>(list: seq<T>, notAfter: (T, T) -> bool) {
    forall i, j :: 0 <= i < j < |list| ==> notAfter(list[i], list[j])
  }

  /** Insert before every element that is no earlier: equal elements keep their order. */
  function Insert<T(!new)>(x: T, sorted: seq<T>, notAfter: (T, T) -> bool): (r: seq<T>)
    ensures |r| == |sorted| + 1
    ensures forall y :: y in r <==> y == x || y in sorted
  {
    if sorted == [] || notAfter(x, sorted[0]) then [x] + sorted
    else [sorted[0]] + Insert(x, sorted[1..], notAfter)
  }

  function Sort<T(!new)>(list: seq<T>, notAfter: (T, T) -> bool): (r: seq<T>)
    ensures |r| == |list|
    ensures forall x :: x in r <==> x in list
  {
    if list == [] then [] else Insert(list[0], Sort(list[1..], notAfter), notAfter)
  }

  lemma {:induction false} InsertSorts<T(!new)>(x: T, sorted: seq<T>, notAfter: (T, T) -> bool)
    requires Orders(notAfter) && Sorted(sorted, notAfter)
    ensures Sorted(Insert(x, sorted, notAfter), notAfter)
  {
    if sorted != [] && !notAfter(x, sorted[0]) {
      var r := Insert(x, sorted[1..], notAfter);
      InsertSorts(x, sorted[1..], notAfter);
      forall j | 0 <= j < |r| ensures notAfter(sorted[0], r[j]) {
        assert r[j] in r;
      }
    }
  }

  lemma {:induction false} InsertKeepsCount<T(!new)>(x: T, sorted: seq<T>, notAfter: (T, T) -> bool)
    ensures multiset(Insert(x, sorted, notAfter)) == multiset(sorted) + multiset{x}
  {
    if sorted != [] {
      assert sorted == [sorted[0]] + sorted[1..];
      InsertKeepsCount(x, sorted[1..], notAfter);
    }
  }

  /** The sort is a sort: in order, and each element as often as before. */
  lemma {:induction false} SortSorts<T(!new)>(list: seq<T>, notAfter: (T, T) -> bool)
    requires Orders(notAfter)
    ensures Sorted(Sort(list, notAfter), notAfter)
    ensures multiset(Sort(list, notAfter)) == multiset(list)
  {
    if list != [] {
      var sorted := Sort(list[1..], notAfter);
      SortSorts(list[1..], notAfter);
      InsertSorts(list[0], sorted, notAfter);
      InsertKeepsCount(list[0], sorted, notAfter);
      assert list == [list[0]] + list[1..];
    }
  }

  /** The elements of a list that are in no order with x, as they come. */
  function Alike<T>(list: seq<T>, x: T, notAfter: (T, T) -> bool): seq<T> {
    if list == [] then []
    else (if notAfter(list[0], x) && notAfter(x, list[0]) then [list[0]] else []) + Alike(list[1..], x, notAfter)
  }

  lemma {:induction false} InsertKeepsTies<T(!new)>(y: T, sorted: seq<T>, x: T, notAfter: (T, T) -> bool)
    requires Orders(notAfter) && Sorted(sorted, notAfter)
    ensures Alike(Insert(y, sorted, notAfter), x, notAfter) == Alike([y] + sorted, x, notAfter)
  {
    var whole := [y] + sorted;
    assert whole[1..] == sorted;
    if sorted != [] && !notAfter(y, sorted[0]) {
      var head, rest := sorted[0], sorted[1..];
      InsertKeepsTies(y, rest, x, notAfter);
      assert ([y] + rest)[1..] == rest;
      assert ([head] + Insert(y, rest, notAfter))[1..] == Insert(y, rest, notAfter);
      assert !(notAfter(head, x) && notAfter(x, head) && notAfter(y, x) && notAfter(x, y));
    }
  }

  /** The sort is stable: elements in no order with one another stay in the order they came in. */
  lemma {:induction false} SortIsStable<T(!new)>(list: seq<T>, x: T, notAfter: (T, T) -> bool)
    requires Orders(notAfter)
    ensures Alike(Sort(list, notAfter), x, notAfter) == Alike(list, x, notAfter)
  {
    if list != [] {
      var sorted := Sort(list[1..], notAfter);
      SortIsStable(list[1..], x, notAfter);
      SortSorts(list[1..], notAfter);
      InsertKeepsTies(list[0], sorted, x, notAfter);
      assert ([list[0]] + sorted)[1..] == sorted;
    }
  }
}
