// Python's sorted(): stable, by any total order.
module Sorting {
  import opened Lists
  import opened Strings

  // x goes behind everything that may stand before it.
  function Insert<T>(xs: seq<T>, x: T, le: (T, T) -> bool): seq<T> {
    if xs == [] then [x]
    else if le(xs[|xs| - 1], x) then xs + [x]
    else Insert(xs[..|xs| - 1], x, le) + [xs[|xs| - 1]]
  }

  function SortBy<T>(xs: seq<T>, le: (T, T) -> bool): seq<T> {
    if xs == [] then [] else Insert(SortBy(xs[..|xs| - 1], le), xs[|xs| - 1], le)
  }

  ghost predicate SortedBy<T>(xs: seq<T>, le: (T, T) -> bool) {
    forall i, j | 0 <= i < j < |xs| :: le(xs[i], xs[j])
  }

  ghost predicate Comparable<T>(le: (T, T) -> bool, a: T, b: T) {
    le(a, b) || le(b, a)
  }

  ghost predicate Passes<T>(le: (T, T) -> bool, a: T, b: T, c: T) {
    le(a, b) && le(b, c) ==> le(a, c)
  }

  ghost predicate TotalOrder<T(!new)>(le: (T, T) -> bool) {
    (forall a, b :: Comparable(le, a, b)) && forall a, b, c :: Passes(le, a, b, c)
  }

  // ---- Sorted, and the same elements ----------------------------------------------------

  lemma {:induction false} InsertBag<T>(xs: seq<T>, x: T, le: (T, T) -> bool)
    ensures multiset(Insert(xs, x, le)) == multiset(xs) + multiset{x}
  {
    if xs != [] && !le(xs[|xs| - 1], x) {
      InsertBag(xs[..|xs| - 1], x, le);
      InitLast(xs);
    }
  }

  lemma {:induction false} SortBag<T>(xs: seq<T>, le: (T, T) -> bool)
    ensures multiset(SortBy(xs, le)) == multiset(xs)
  {
    if xs != [] {
      SortBag(xs[..|xs| - 1], le);
      InsertBag(SortBy(xs[..|xs| - 1], le), xs[|xs| - 1], le);
      InitLast(xs);
    }
  }

  lemma SortMembers<T>(xs: seq<T>, le: (T, T) -> bool)
    ensures |SortBy(xs, le)| == |xs| && forall x :: x in SortBy(xs, le) <==> x in xs
  {
    SortBag(xs, le);
    SameBagSameLength(SortBy(xs, le), xs);
  }

  lemma {:induction false} InsertFlatMap<T, U>(xs: seq<T>, x: T, le: (T, T) -> bool, f: T -> seq<U>)
    ensures multiset(FlatMap(Insert(xs, x, le), f)) == multiset(FlatMap(xs, f)) + multiset(f(x))
  {
    if xs == [] {
      FlatMapOne(x, f);
    } else {
      var init, last := xs[..|xs| - 1], xs[|xs| - 1];
      if le(last, x) {
        FlatMapSnoc(xs, f, x);
      } else {
        InsertFlatMap(init, x, le, f);
        FlatMapSnoc(Insert(init, x, le), f, last);
      }
    }
  }

  // What a list yields does not depend on its order.
  lemma {:induction false} SortFlatMap<T, U>(xs: seq<T>, le: (T, T) -> bool, f: T -> seq<U>)
    ensures multiset(FlatMap(SortBy(xs, le), f)) == multiset(FlatMap(xs, f))
  {
    if xs != [] {
      SortFlatMap(xs[..|xs| - 1], le, f);
      InsertFlatMap(SortBy(xs[..|xs| - 1], le), xs[|xs| - 1], le, f);
    }
  }

  lemma AppendSorted<T(!new)>(xs: seq<T>, x: T, le: (T, T) -> bool)
    requires SortedBy(xs, le) && forall y | y in xs :: le(y, x)
    ensures SortedBy(xs + [x], le)
  {
    forall i, j | 0 <= i < j < |xs + [x]| ensures le((xs + [x])[i], (xs + [x])[j]) {
      if j == |xs| { assert xs[i] in xs; }
    }
  }

  lemma BeforeLast<T(!new)>(xs: seq<T>, x: T, le: (T, T) -> bool)
    requires TotalOrder(le) && SortedBy(xs, le) && xs != [] && le(xs[|xs| - 1], x)
    ensures forall y | y in xs :: le(y, x)
  {
    forall y | y in xs ensures le(y, x) {
      var i :| 0 <= i < |xs| && xs[i] == y;
      assert Passes(le, y, xs[|xs| - 1], x);
    }
  }

  lemma {:induction false} InsertSorted<T(!new)>(xs: seq<T>, x: T, le: (T, T) -> bool)
    requires TotalOrder(le) && SortedBy(xs, le)
    ensures SortedBy(Insert(xs, x, le), le)
  {
    if xs != [] {
      var init, last := xs[..|xs| - 1], xs[|xs| - 1];
      if le(last, x) {
        BeforeLast(xs, x, le);
        AppendSorted(xs, x, le);
      } else {
        InsertSorted(init, x, le);
        InsertBag(init, x, le);
        assert Comparable(le, last, x);
        forall y | y in Insert(init, x, le) ensures le(y, last) {
          assert y in multiset(Insert(init, x, le));
        }
        AppendSorted(Insert(init, x, le), last, le);
      }
    }
  }

  lemma {:induction false} SortSorts<T(!new)>(xs: seq<T>, le: (T, T) -> bool)
    requires TotalOrder(le)
    ensures SortedBy(SortBy(xs, le), le)
  {
    if xs != [] {
      SortSorts(xs[..|xs| - 1], le);
      InsertSorted(SortBy(xs[..|xs| - 1], le), xs[|xs| - 1], le);
    }
  }

  // ---- Stable ---------------------------------------------------------------------------

  // Elements that tie with each other.
  ghost predicate Ties<T(!new)>(le: (T, T) -> bool, same: T -> bool) {
    forall a, b | same(a) && same(b) :: le(a, b)
  }

  lemma {:induction false} InsertStable<T(!new)>(xs: seq<T>, x: T, le: (T, T) -> bool, same: T -> bool)
    requires Ties(le, same)
    ensures Filter(Insert(xs, x, le), same) == Filter(xs, same) + if same(x) then [x] else []
  {
    if xs == [] {
      FilterOne(x, same);
    } else {
      var init, last := xs[..|xs| - 1], xs[|xs| - 1];
      if le(last, x) {
        FilterAppend(xs, [x], same);
        FilterOne(x, same);
      } else {
        InsertStable(init, x, le, same);
        FilterAppend(Insert(init, x, le), [last], same);
        FilterOne(last, same);
      }
    }
  }

  // Elements that tie keep the order they had.
  lemma {:induction false} SortStable<T(!new)>(xs: seq<T>, le: (T, T) -> bool, same: T -> bool)
    requires Ties(le, same)
    ensures Filter(SortBy(xs, le), same) == Filter(xs, same)
  {
    if xs != [] {
      SortStable(xs[..|xs| - 1], le, same);
      InsertStable(SortBy(xs[..|xs| - 1], le), xs[|xs| - 1], le, same);
    }
  }

  // ---- Unique -----------------------------------------------------------------------------

  // No two different elements of xs tie.
  ghost predicate Strict<T>(xs: seq<T>, le: (T, T) -> bool) {
    forall a, b | a in xs && b in xs && le(a, b) && le(b, a) :: a == b
  }

  lemma InitBag<T>(xs: seq<T>)
    requires xs != []
    ensures multiset(xs[..|xs| - 1]) == multiset(xs) - multiset{xs[|xs| - 1]}
  {
    InitLast(xs);
  }

  lemma LastIsLargest<T(!new)>(xs: seq<T>, x: T, le: (T, T) -> bool)
    requires TotalOrder(le) && SortedBy(xs, le) && x in xs
    ensures le(x, xs[|xs| - 1])
  {
    assert Comparable(le, x, x);
  }

  // There is one sorted list of distinct keys.
  lemma {:induction false} SortedUnique<T(!new)>(xs: seq<T>, ys: seq<T>, le: (T, T) -> bool)
    requires TotalOrder(le) && SortedBy(xs, le) && SortedBy(ys, le) && multiset(xs) == multiset(ys) && Strict(xs, le)
    ensures xs == ys
  {
    SameBagSameLength(xs, ys);
    if xs != [] {
      LastIsLargest(xs, ys[|ys| - 1], le);
      LastIsLargest(ys, xs[|xs| - 1], le);
      InitLast(xs);
      InitLast(ys);
      InitBag(xs);
      InitBag(ys);
      SortedUnique(xs[..|xs| - 1], ys[..|ys| - 1], le);
    }
  }

  // ---- Orders by strings --------------------------------------------------------------------

  // Compared by one key, and by what follows where it is the same.
  predicate ThenBy(a: string, b: string, next: bool) {
    if a == b then next else LexLe(a, b)
  }

  lemma ThenByTotal(a: string, b: string, next: bool, back: bool)
    requires next || back
    ensures ThenBy(a, b, next) || ThenBy(b, a, back)
  {
    LexTotal(a, b);
  }

  lemma ThenByPasses(a: string, b: string, c: string, ab: bool, bc: bool, ac: bool)
    requires ThenBy(a, b, ab) && ThenBy(b, c, bc) && (ab && bc ==> ac)
    ensures ThenBy(a, c, ac)
  {
    if a != b && b != c {
      LexTransitive(a, b, c);
      if a == c {
        LexAntisymmetric(a, b);
      }
    }
  }
}
