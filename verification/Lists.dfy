// Sequence helpers shared by the models. Lists are unfolded from the end, so
// that a loop which appends one element at a time follows the definitions.
module Lists {

  datatype Option<+T> = None | Some(value: T) {
    function GetOr(default: T): T {
      if Some? then value else default
    }
  }

  function Filter<T>(xs: seq<T>, keep: T -> bool): seq<T> {
    if xs == [] then []
    else
      var last := xs[|xs| - 1];
      Filter(xs[..|xs| - 1], keep) + (if keep(last) then [last] else [])
  }

  function FlatMap<T, U>(xs: seq<T>, f: T -> seq<U>): seq<U> {
    if xs == [] then [] else FlatMap(xs[..|xs| - 1], f) + f(xs[|xs| - 1])
  }

  lemma InitLast<T>(xs: seq<T>)
    requires xs != []
    ensures xs == xs[..|xs| - 1] + [xs[|xs| - 1]]
  {
  }

  lemma FilterTake<T>(xs: seq<T>, keep: T -> bool, i: nat)
    requires i < |xs|
    ensures Filter(xs[..i + 1], keep) == Filter(xs[..i], keep) + (if keep(xs[i]) then [xs[i]] else [])
  {
    assert xs[..i + 1][..i] == xs[..i];
  }

  lemma {:induction false} FilterAppend<T>(xs: seq<T>, ys: seq<T>, keep: T -> bool)
    ensures Filter(xs + ys, keep) == Filter(xs, keep) + Filter(ys, keep)
  {
    if ys == [] {
      assert xs + ys == xs;
    } else {
      assert (xs + ys)[..|xs + ys| - 1] == xs + ys[..|ys| - 1];
      FilterAppend(xs, ys[..|ys| - 1], keep);
    }
  }

  lemma FlatMapTake<T, U>(xs: seq<T>, f: T -> seq<U>, i: nat)
    requires i < |xs|
    ensures FlatMap(xs[..i + 1], f) == FlatMap(xs[..i], f) + f(xs[i])
  {
    assert xs[..i + 1][..i] == xs[..i];
  }

  lemma FlatMapSnoc<T, U>(xs: seq<T>, f: T -> seq<U>, x: T)
    ensures FlatMap(xs + [x], f) == FlatMap(xs, f) + f(x)
  {
    assert (xs + [x])[..|xs|] == xs;
  }

  lemma {:induction false} FlatMapAppend<T, U>(xs: seq<T>, ys: seq<T>, f: T -> seq<U>)
    ensures FlatMap(xs + ys, f) == FlatMap(xs, f) + FlatMap(ys, f)
  {
    if ys == [] {
      assert xs + ys == xs;
    } else {
      assert (xs + ys)[..|xs + ys| - 1] == xs + ys[..|ys| - 1];
      FlatMapAppend(xs, ys[..|ys| - 1], f);
    }
  }

  lemma {:induction false} FlatMapTwice<T, U, V>(xs: seq<T>, f: T -> seq<U>, g: U -> seq<V>, both: T -> seq<V>)
    requires forall x | x in xs :: both(x) == FlatMap(f(x), g)
    ensures FlatMap(FlatMap(xs, f), g) == FlatMap(xs, both)
  {
    if xs != [] {
      var init, last := xs[..|xs| - 1], xs[|xs| - 1];
      FlatMapTwice(init, f, g, both);
      FlatMapAppend(FlatMap(init, f), f(last), g);
    }
  }

  lemma {:induction false} FlatMapNone<T, U>(xs: seq<T>, f: T -> seq<U>)
    requires forall x | x in xs :: f(x) == []
    ensures FlatMap(xs, f) == []
  {
    if xs != [] {
      FlatMapNone(xs[..|xs| - 1], f);
    }
  }

  lemma FlatMapOne<T, U>(x: T, f: T -> seq<U>)
    ensures FlatMap([x], f) == f(x)
  {
    assert [x][..0] == [];
  }

  lemma FlatMapTwo<T, U>(x: T, y: T, f: T -> seq<U>)
    ensures FlatMap([x, y], f) == f(x) + f(y)
  {
    assert [x, y][..1] == [x];
    FlatMapOne(x, f);
  }

  lemma FilterOne<T>(x: T, keep: T -> bool)
    ensures Filter([x], keep) == if keep(x) then [x] else []
  {
    assert [x][..0] == [];
  }

  lemma {:induction false} FlatMapSame<T, U>(xs: seq<T>, f: T -> seq<U>, g: T -> seq<U>)
    requires forall x | x in xs :: f(x) == g(x)
    ensures FlatMap(xs, f) == FlatMap(xs, g)
  {
    if xs != [] {
      FlatMapSame(xs[..|xs| - 1], f, g);
    }
  }

  lemma {:induction false} FilterSame<T>(xs: seq<T>, p: T -> bool, q: T -> bool)
    requires forall x | x in xs :: p(x) == q(x)
    ensures Filter(xs, p) == Filter(xs, q)
  {
    if xs != [] {
      FilterSame(xs[..|xs| - 1], p, q);
    }
  }

  lemma {:induction false} FilterAll<T>(xs: seq<T>, keep: T -> bool)
    requires forall x | x in xs :: keep(x)
    ensures Filter(xs, keep) == xs
  {
    if xs != [] {
      var init, last := xs[..|xs| - 1], xs[|xs| - 1];
      InitLast(xs);
      assert last in xs && forall x | x in init :: x in xs;
      FilterAll(init, keep);
    }
  }

  lemma {:induction false} FilterNone<T>(xs: seq<T>, keep: T -> bool)
    requires forall x | x in xs :: !keep(x)
    ensures Filter(xs, keep) == []
  {
    if xs != [] {
      var init, last := xs[..|xs| - 1], xs[|xs| - 1];
      assert last in xs && forall x | x in init :: x in xs;
      FilterNone(init, keep);
    }
  }

  ghost predicate Distinct<T>(xs: seq<T>) {
    forall i, j | 0 <= i < j < |xs| :: xs[i] != xs[j]
  }

  lemma RepeatedCount<T>(xs: seq<T>, i: nat, j: nat)
    requires i < j < |xs| && xs[i] == xs[j]
    ensures multiset(xs)[xs[j]] >= 2
  {
    assert xs == xs[..j] + xs[j..];
    assert xs[i] in xs[..j] && xs[j..][0] == xs[j];
    assert multiset(xs) == multiset(xs[..j]) + multiset(xs[j..]);
  }

  lemma {:induction false} DistinctCount<T>(xs: seq<T>, x: T)
    requires Distinct(xs)
    ensures multiset(xs)[x] <= 1
  {
    if xs != [] {
      InitLast(xs);
      DistinctCount(xs[..|xs| - 1], x);
      if x == xs[|xs| - 1] {
        assert x !in xs[..|xs| - 1];
      }
    }
  }

  lemma DistinctSameBag<T>(xs: seq<T>, ys: seq<T>)
    requires Distinct(xs) && multiset(xs) == multiset(ys)
    ensures Distinct(ys)
  {
    forall i, j | 0 <= i < j < |ys| ensures ys[i] != ys[j] {
      DistinctCount(xs, ys[j]);
      if ys[i] == ys[j] {
        RepeatedCount(ys, i, j);
      }
    }
  }

  // How often x is produced by f over xs.
  lemma {:induction false} FilterCount<T>(xs: seq<T>, keep: T -> bool, x: T)
    ensures multiset(Filter(xs, keep))[x] == if keep(x) then multiset(xs)[x] else 0
  {
    if xs != [] {
      FilterCount(xs[..|xs| - 1], keep, x);
      assert xs == xs[..|xs| - 1] + [xs[|xs| - 1]];
    }
  }

  lemma {:induction false} FilterMember<T>(xs: seq<T>, keep: T -> bool, x: T)
    ensures x in Filter(xs, keep) <==> x in xs && keep(x)
  {
    FilterCount(xs, keep, x);
    assert x in multiset(Filter(xs, keep)) <==> x in Filter(xs, keep);
    assert x in multiset(xs) <==> x in xs;
  }

  lemma {:induction false} FlatMapMember<T, U>(xs: seq<T>, f: T -> seq<U>, y: U)
    ensures y in FlatMap(xs, f) <==> exists x :: x in xs && y in f(x)
  {
    if xs != [] {
      FlatMapMember(xs[..|xs| - 1], f, y);
      assert xs == xs[..|xs| - 1] + [xs[|xs| - 1]];
    }
  }

  // When only the elements at one index can produce y, the whole list produces
  // y exactly as often as that index does.
  lemma {:induction false} FlatMapCountAt<T, U>(xs: seq<T>, f: T -> seq<U>, y: U, i: nat)
    requires i < |xs|
    requires forall j | 0 <= j < |xs| && j != i :: y !in f(xs[j])
    ensures multiset(FlatMap(xs, f))[y] == multiset(f(xs[i]))[y]
  {
    var rest := xs[..|xs| - 1];
    if i == |xs| - 1 {
      FlatMapCountNone(rest, f, y);
    } else {
      FlatMapCountAt(rest, f, y, i);
      assert multiset(f(xs[|xs| - 1]))[y] == 0;
    }
  }

  lemma {:induction false} FlatMapCountNone<T, U>(xs: seq<T>, f: T -> seq<U>, y: U)
    requires forall x | x in xs :: y !in f(x)
    ensures multiset(FlatMap(xs, f))[y] == 0
  {
    FlatMapMember(xs, f, y);
    assert y !in FlatMap(xs, f);
  }

  // ---- Counting ------------------------------------------------------------------------

  // How many of the elements satisfy q.
  function Count<T>(xs: seq<T>, q: T -> bool): nat {
    |Filter(xs, q)|
  }

  function Sum<T>(xs: seq<T>, f: T -> nat): nat {
    if xs == [] then 0 else Sum(xs[..|xs| - 1], f) + f(xs[|xs| - 1])
  }

  lemma CountSame<T>(xs: seq<T>, p: T -> bool, q: T -> bool)
    requires forall x | x in xs :: p(x) == q(x)
    ensures Count(xs, p) == Count(xs, q)
  {
    FilterSame(xs, p, q);
  }

  lemma {:induction false} SumSame<T>(xs: seq<T>, f: T -> nat, g: T -> nat)
    requires forall x | x in xs :: f(x) == g(x)
    ensures Sum(xs, f) == Sum(xs, g)
  {
    if xs != [] {
      SumSame(xs[..|xs| - 1], f, g);
    }
  }

  // Where each element makes y once or not at all, y is made as often as some do.
  lemma {:induction false} FlatMapCount<T, U>(xs: seq<T>, f: T -> seq<U>, y: U, q: T -> bool)
    requires forall x | x in xs :: multiset(f(x))[y] == if q(x) then 1 else 0
    ensures multiset(FlatMap(xs, f))[y] == Count(xs, q)
  {
    if xs != [] {
      FlatMapCount(xs[..|xs| - 1], f, y, q);
      assert xs[|xs| - 1] in xs;
    }
  }

  lemma {:induction false} FlatMapSum<T, U>(xs: seq<T>, f: T -> seq<U>, y: U, g: T -> nat)
    requires forall x | x in xs :: multiset(f(x))[y] == g(x)
    ensures multiset(FlatMap(xs, f))[y] == Sum(xs, g)
  {
    if xs != [] {
      FlatMapSum(xs[..|xs| - 1], f, y, g);
      assert xs[|xs| - 1] in xs;
    }
  }

  lemma SameCounts<T>(a: multiset<T>, b: multiset<T>)
    requires forall x :: a[x] == b[x]
    ensures a == b
  {
  }

  // Two lists with the same bag of elements have the same bag after a filter.
  lemma FilterSameBag<T>(xs: seq<T>, ys: seq<T>, keep: T -> bool)
    requires multiset(xs) == multiset(ys)
    ensures multiset(Filter(xs, keep)) == multiset(Filter(ys, keep))
  {
    forall x ensures multiset(Filter(xs, keep))[x] == multiset(Filter(ys, keep))[x] {
      FilterCount(xs, keep, x);
      FilterCount(ys, keep, x);
    }
    SameCounts(multiset(Filter(xs, keep)), multiset(Filter(ys, keep)));
  }

  lemma SameBagSameLength<T>(xs: seq<T>, ys: seq<T>)
    requires multiset(xs) == multiset(ys)
    ensures |xs| == |ys|
    ensures forall x :: x in xs <==> x in ys
  {
    assert |multiset(xs)| == |multiset(ys)|;
    forall x ensures x in xs <==> x in ys {
      assert x in multiset(xs) <==> x in multiset(ys);
    }
  }
}
