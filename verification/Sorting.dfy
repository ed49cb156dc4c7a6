/**
 * What a library sort returns for a list of distinct elements and a strict linear order on them.
 * There is only one ordered arrangement, so which sorting algorithm the library runs cannot matter.
 */
module Sorting {
  predicate Distinct<T(==)>(s: seq<T>) {
    forall i, j :: 0 <= i < j < |s| ==> s[i] != s[j]
  }

  /** less orders any two different elements of s, one way only, and is transitive on s. */
  ghost predicate Linear<T(!new)>(s: seq<T>, less: (T, T) -> bool) {
    && (forall a, b :: a in s && b in s && a != b ==> (less(a, b) <==> !less(b, a)))
    && (forall a :: a in s ==> !less(a, a))
    && (forall a, b, c :: a in s && b in s && c in s && less(a, b) && less(b, c) ==> less(a, c))
  }

  ghost predicate Ascending<T>(s: seq<T>, less: (T, T) -> bool) {
    forall i, j :: 0 <= i < j < |s| ==> less(s[i], s[j])
  }

  function Insert<T>(x: T, s: seq<T>, less: (T, T) -> bool): seq<T> {
    if s == [] || less(x, s[0]) then [x] + s else [s[0]] + Insert(x, s[1..], less)
  }

  function Sort<T>(s: seq<T>, less: (T, T) -> bool): seq<T> {
    if s == [] then [] else Insert(s[0], Sort(s[1..], less), less)
  }

  lemma {:induction false} InsertKeeps<T>(x: T, s: seq<T>, less: (T, T) -> bool)
    ensures multiset(Insert(x, s, less)) == multiset(s) + multiset{x}
  {
    if s != [] && !less(x, s[0]) {
      InsertKeeps(x, s[1..], less);
      assert s == [s[0]] + s[1..];
    }
  }

  /** Sorting rearranges: nothing is lost, added or repeated. */
  lemma {:induction false} SortKeeps<T>(s: seq<T>, less: (T, T) -> bool)
    ensures multiset(Sort(s, less)) == multiset(s)
  {
    if s != [] {
      SortKeeps(s[1..], less);
      InsertKeeps(s[0], Sort(s[1..], less), less);
      assert s == [s[0]] + s[1..];
    }
  }

  lemma SameElements<T>(a: seq<T>, b: seq<T>)
    requires multiset(a) == multiset(b)
    ensures |a| == |b|
    ensures forall x :: x in a <==> x in b
  {
    forall x
      ensures x in a <==> x in b
    {
      assert x in a <==> x in multiset(a);
      assert x in b <==> x in multiset(b);
    }
    assert |multiset(a)| == |a| && |multiset(b)| == |b|;
  }

  lemma {:induction false} InsertOrders<T(!new)>(x: T, s: seq<T>, less: (T, T) -> bool)
    requires Linear([x] + s, less) && Ascending(s, less) && x !in s
    ensures Ascending(Insert(x, s, less), less)
  {
    var all := [x] + s;
    assert x in all && (forall y :: y in s ==> y in all);
    if s != [] && !less(x, s[0]) {
      var rest := s[1..];
      assert forall y :: y in rest ==> y in s;
      InsertOrders(x, rest, less);
      InsertKeeps(x, rest, less);
      var done := Insert(x, rest, less);
      forall y | y in done
        ensures less(s[0], y)
      {
        assert y in multiset(done);
        if y != x {
          assert y in multiset(rest);
        } else {
          assert s[0] in s;
        }
      }
    } else if s != [] {
      forall y | y in s
        ensures less(x, y)
      {
        if y != s[0] {
          assert less(s[0], y) && s[0] in all;
        }
      }
    }
  }

  lemma {:induction false} SortOrders<T(!new)>(s: seq<T>, less: (T, T) -> bool)
    requires Linear(s, less) && Distinct(s)
    ensures Ascending(Sort(s, less), less)
  {
    if s != [] {
      var rest := s[1..];
      assert forall y :: y in rest ==> y in s;
      SortOrders(rest, less);
      SortKeeps(rest, less);
      SameElements(Sort(rest, less), rest);
      assert s[0] in s;
      assert forall y :: y in [s[0]] + Sort(rest, less) ==> y in s;
      InsertOrders(s[0], Sort(rest, less), less);
    }
  }

  lemma LeastFirst<T(!new)>(a: seq<T>, b: seq<T>, less: (T, T) -> bool)
    requires Linear(a, less) && Ascending(a, less) && Ascending(b, less) && a != [] && b != []
    requires forall x :: x in a <==> x in b
    ensures a[0] == b[0]
  {
    assert a[0] in b && b[0] in a;
    var i :| 0 <= i < |a| && a[i] == b[0];
    var j :| 0 <= j < |b| && b[j] == a[0];
    if a[0] != b[0] {
      assert false;
    }
  }

  lemma SameRest<T>(x: T, a: seq<T>, b: seq<T>)
    requires multiset([x] + a) == multiset([x] + b)
    ensures multiset(a) == multiset(b)
  {
    assert multiset([x] + a) == multiset{x} + multiset(a);
    assert multiset([x] + b) == multiset{x} + multiset(b);
    assert multiset(a) == multiset([x] + a) - multiset{x};
  }

  /** Two ascending arrangements of the same elements are the same list. */
  lemma {:induction false} AscendingUnique<T(!new)>(a: seq<T>, b: seq<T>, less: (T, T) -> bool)
    requires Linear(a, less) && Ascending(a, less) && Ascending(b, less) && multiset(a) == multiset(b)
    ensures a == b
  {
    SameElements(a, b);
    if a != [] {
      LeastFirst(a, b, less);
      var x, restA, restB := a[0], a[1..], b[1..];
      assert a == [x] + restA && b == [x] + restB;
      SameRest(x, restA, restB);
      assert forall y :: y in restA ==> y in a;
      AscendingUnique(restA, restB, less);
    }
  }

  /** Whatever a correct sort does, its result is the model's. */
  lemma AnySortAgrees<T(!new)>(s: seq<T>, result: seq<T>, less: (T, T) -> bool)
    requires Linear(s, less) && Distinct(s)
    requires Ascending(result, less) && multiset(result) == multiset(s)
    ensures result == Sort(s, less)
  {
    SortOrders(s, less);
    SortKeeps(s, less);
    SameElements(result, s);
    AscendingUnique(result, Sort(s, less), less);
  }

  lemma {:induction false} DistinctCounts<T>(s: seq<T>)
    ensures Distinct(s) <==> forall x :: x in s ==> multiset(s)[x] == 1
  {
    if s != [] {
      var init, last := s[..|s| - 1], s[|s| - 1];
      DistinctCounts(init);
      assert s == init + [last];
      assert multiset(s) == multiset(init) + multiset{last};
      assert last in init <==> multiset(init)[last] > 0;
      forall x | x in init
        ensures x in s
      {
      }
      if Distinct(s) {
        assert last !in init;
      }
      if forall x :: x in s ==> multiset(s)[x] == 1 {
        assert last in s && multiset(init)[last] == 0;
        assert forall x :: x in init ==> multiset(init)[x] == 1;
      }
    }
  }

  /** The list is in strict order and has exactly the elements that the set has. */
  ghost predicate Lists<T(!new)>(s: seq<T>, elements: set<T>, less: (T, T) -> bool) {
    Ascending(s, less) && forall x :: x in s <==> x in elements
  }

  /** A set has only one list in strict order. */
  lemma ListsUnique<T(!new)>(a: seq<T>, b: seq<T>, elements: set<T>, less: (T, T) -> bool)
    requires Lists(a, elements, less) && Lists(b, elements, less)
    requires forall x, y :: x in elements && y in elements && less(x, y) ==> !less(y, x)
    ensures a == b
  {
    AscendingLinear(a, less);
    AscendingLinear(b, less);
    SetOfSize(a);
    SetOfSize(b);
    DistinctCounts(a);
    DistinctCounts(b);
    forall x
      ensures multiset(a)[x] == multiset(b)[x]
    {
      assert x in a <==> x in multiset(a);
      assert x in b <==> x in multiset(b);
    }
    AscendingUnique(a, b, less);
  }

  lemma AscendingLinear<T(!new)>(a: seq<T>, less: (T, T) -> bool)
    requires Ascending(a, less) && forall x, y :: x in a && y in a && less(x, y) ==> !less(y, x)
    ensures Linear(a, less) && Distinct(a)
  {
    forall x, y, z | x in a && y in a && z in a && less(x, y) && less(y, z)
      ensures less(x, z)
    {
      var i :| 0 <= i < |a| && a[i] == x;
      var j :| 0 <= j < |a| && a[j] == y;
      var k :| 0 <= k < |a| && a[k] == z;
      assert i < j < k;
    }
  }

  // ------------------------------------------------------------------
  // Sorting what may have duplicates, to find them side by side.

  ghost predicate Rising<T>(s: seq<T>, less: (T, T) -> bool) {
    forall i, j :: 0 <= i < j < |s| ==> !less(s[j], s[i])
  }

  predicate NeighboursDiffer<T(==)>(s: seq<T>) {
    forall i :: 0 < i < |s| ==> s[i - 1] != s[i]
  }

  lemma {:induction false} InsertRises<T(!new)>(x: T, s: seq<T>, less: (T, T) -> bool)
    requires Linear([x] + s, less) && Rising(s, less)
    ensures Rising(Insert(x, s, less), less)
  {
    var all := [x] + s;
    assert x in all && (forall y :: y in s ==> y in all);
    if s != [] && !less(x, s[0]) {
      var rest := s[1..];
      assert forall y :: y in rest ==> y in s;
      InsertRises(x, rest, less);
      InsertKeeps(x, rest, less);
      var done := Insert(x, rest, less);
      forall y | y in done
        ensures !less(y, s[0])
      {
        assert y in multiset(done);
        if y != x {
          assert y in multiset(rest);
          var j :| 0 <= j < |rest| && rest[j] == y;
          assert s[j + 1] == y;
        }
      }
    } else if s != [] {
      forall y | y in s
        ensures !less(y, x)
      {
        var j :| 0 <= j < |s| && s[j] == y;
        assert s[0] in s;
        assert j == 0 || !less(s[j], s[0]);
      }
    }
  }

  lemma {:induction false} SortRises<T(!new)>(s: seq<T>, less: (T, T) -> bool)
    requires Linear(s, less)
    ensures Rising(Sort(s, less), less)
  {
    if s != [] {
      var rest := s[1..];
      assert forall y :: y in rest ==> y in s;
      SortRises(rest, less);
      SortKeeps(rest, less);
      SameElements(Sort(rest, less), rest);
      assert s[0] in s;
      assert forall y :: y in [s[0]] + Sort(rest, less) ==> y in s;
      InsertRises(s[0], Sort(rest, less), less);
    }
  }

  /** After sorting, the elements are distinct exactly when no two neighbours are equal. */
  lemma SortedNeighbours<T(!new)>(s: seq<T>, less: (T, T) -> bool)
    requires Linear(s, less)
    ensures NeighboursDiffer(Sort(s, less)) <==> Distinct(s)
  {
    var sorted := Sort(s, less);
    SortKeeps(s, less);
    SameElements(sorted, s);
    if Distinct(s) {
      SortOrders(s, less);
      forall i | 0 < i < |sorted|
        ensures sorted[i - 1] != sorted[i]
      {
        assert less(sorted[i - 1], sorted[i]) && sorted[i] in sorted;
      }
    }
    if NeighboursDiffer(sorted) {
      SortRises(s, less);
      NeighboursApart(sorted, less);
      DistinctCounts(sorted);
      DistinctCounts(s);
    }
  }

  lemma {:induction false} NeighboursApart<T(!new)>(s: seq<T>, less: (T, T) -> bool)
    requires Linear(s, less) && Rising(s, less) && NeighboursDiffer(s)
    ensures Ascending(s, less) && Distinct(s)
  {
    if |s| > 1 {
      var init, last := s[..|s| - 1], s[|s| - 1];
      assert s == init + [last] && (forall y :: y in init ==> y in s);
      NeighboursApart(init, less);
      var before := s[|s| - 2];
      assert before in s && last in s && !less(last, before) && less(before, last);
      forall i | 0 <= i < |init|
        ensures less(s[i], last)
      {
        assert s[i] in s && (i == |s| - 2 || less(init[i], init[|s| - 2]));
      }
    }
  }

  // ------------------------------------------------------------------
  // Numbers.

  predicate Below(a: int, b: int) { a < b }

  lemma NumbersSorted(ids: seq<int>)
    requires Distinct(ids)
    ensures Ascending(Sort(ids, Below), Below)
    ensures forall id :: id in Sort(ids, Below) <==> id in ids
  {
    SortOrders(ids, Below);
    SortKeeps(ids, Below);
    SameElements(Sort(ids, Below), ids);
  }

  /** The elements of a set, in some order. */
  method Listing<T(==)>(s: set<T>) returns (r: seq<T>)
    ensures Distinct(r) && forall x :: x in r <==> x in s
  {
    r := [];
    var rest := s;
    while rest != {}
      invariant rest <= s && Distinct(r) && forall x :: x in r <==> x in s && x !in rest
      decreases |rest|
    {
      var x :| x in rest;
      r := r + [x];
      rest := rest - {x};
    }
  }

  ghost function Enumerated<T>(s: set<T>): seq<T> {
    if |s| == 0 then []
    else
      var x :| x in s;
      [x] + Enumerated(s - {x})
  }

  lemma {:induction false} EnumeratedAll<T>(s: set<T>)
    ensures Distinct(Enumerated(s)) && forall x :: x in Enumerated(s) <==> x in s
  {
    if |s| != 0 {
      var x := Enumerated(s)[0];
      EnumeratedAll(s - {x});
      assert Enumerated(s) == [x] + Enumerated(s - {x});
      assert forall y :: y in s <==> y == x || y in s - {x};
    }
  }

  lemma {:induction false} NumbersBelow(s: set<nat>, n: nat)
    requires forall k :: k in s ==> k < n
    ensures |s| <= n
  {
    if n == 0 {
      assert s == {};
    } else {
      NumbersBelow(s - {n - 1}, n - 1);
    }
  }

  // ------------------------------------------------------------------
  // Sizes of finite sets.

  lemma {:induction false} SetOfSize<T>(s: seq<T>)
    requires Distinct(s)
    ensures |set x | x in s| == |s|
  {
    if s != [] {
      var init, x := s[..|s| - 1], s[|s| - 1];
      assert s == init + [x];
      SetOfSize(init);
      assert (set y | y in s) == (set y | y in init) + {x};
    }
  }

  lemma {:induction false} SubsetSize<T>(a: set<T>, b: set<T>)
    requires a <= b
    ensures |a| <= |b|
  {
    if a != {} {
      var x :| x in a;
      SubsetSize(a - {x}, b - {x});
    }
  }
}
