/** Finite sums over sequences and sets, independent of order. */
module Sums {

  function SumBy<T>(xs: seq<T>, f: T -> int): int {
    if xs == [] then 0 else SumBy(xs[..|xs| - 1], f) + f(xs[|xs| - 1])
  }

  lemma {:induction false} SumByConcat<T>(xs: seq<T>, ys: seq<T>, f: T -> int)
    ensures SumBy(xs + ys, f) == SumBy(xs, f) + SumBy(ys, f)
    decreases |ys|
  {
    if ys == [] {
      assert xs + ys == xs;
    } else {
      assert (xs + ys)[..|xs + ys| - 1] == xs + ys[..|ys| - 1];
      SumByConcat(xs, ys[..|ys| - 1], f);
    }
  }

  lemma {:induction false} SumByNonNegative<T>(xs: seq<T>, f: T -> int)
    requires forall x :: x in xs ==> f(x) >= 0
    ensures SumBy(xs, f) >= 0
  {
    if xs == [] {
    } else {
      SumByNonNegative(xs[..|xs| - 1], f);
    }
  }

  lemma {:induction false} SumByZero<T>(xs: seq<T>, f: T -> int)
    requires forall x :: x in xs ==> f(x) == 0
    ensures SumBy(xs, f) == 0
  {
    if xs == [] {
    } else {
      SumByZero(xs[..|xs| - 1], f);
    }
  }

  /** How many elements pass the test. */
  function CountIf<T>(xs: seq<T>, test: T -> bool): nat {
    var f := x => if test(x) then 1 else 0;
    SumByNonNegative(xs, f);
    SumBy(xs, f)
  }

  lemma CountIfSnoc<T>(xs: seq<T>, x: T, test: T -> bool)
    ensures CountIf(xs + [x], test) == CountIf(xs, test) + (if test(x) then 1 else 0)
  {
    assert (xs + [x])[..|xs|] == xs;
  }

  lemma CountIfConcat<T>(xs: seq<T>, ys: seq<T>, test: T -> bool)
    ensures CountIf(xs + ys, test) == CountIf(xs, test) + CountIf(ys, test)
  {
    SumByConcat(xs, ys, x => if test(x) then 1 else 0);
  }

  /** Taking out the element at `i`. */
  lemma {:induction false} SumByRemove<T>(xs: seq<T>, i: nat, f: T -> int)
    requires i < |xs|
    ensures SumBy(xs, f) == SumBy(xs[..i] + xs[i + 1..], f) + f(xs[i])
    decreases |xs|
  {
    var last := |xs| - 1;
    if i == last {
      assert xs[..i] + xs[i + 1..] == xs[..last];
    } else {
      SumByRemove(xs[..last], i, f);
      var rest := xs[..i] + xs[i + 1..];
      assert rest[..|rest| - 1] == xs[..last][..i] + xs[..last][i + 1..];
      assert rest[|rest| - 1] == xs[last];
    }
  }

  lemma MultisetRemove<T>(xs: seq<T>, i: nat)
    requires i < |xs|
    ensures multiset(xs[..i] + xs[i + 1..]) == multiset(xs) - multiset{xs[i]}
  {
    assert xs == xs[..i] + [xs[i]] + xs[i + 1..];
  }

  /** A sum does not depend on the order of its terms. */
  lemma {:induction false} SumByPermutation<T>(xs: seq<T>, ys: seq<T>, f: T -> int)
    requires multiset(xs) == multiset(ys)
    ensures SumBy(xs, f) == SumBy(ys, f)
    decreases |xs|
  {
    if xs == [] {
      assert |multiset(ys)| == 0;
    } else {
      var last := xs[|xs| - 1];
      assert last in multiset(ys);
      var i :| 0 <= i < |ys| && ys[i] == last;
      MultisetRemove(xs, |xs| - 1);
      MultisetRemove(ys, i);
      assert xs[..|xs| - 1] == xs[..|xs| - 1] + xs[|xs|..];
      SumByPermutation(xs[..|xs| - 1], ys[..i] + ys[i + 1..], f);
      SumByRemove(ys, i, f);
    }
  }

  // ----- Joined lists -----

  /** The lists `f` gives for the elements, one after the other. */
  function FlatMap<S, T>(xs: seq<S>, f: S -> seq<T>): seq<T> {
    if xs == [] then [] else FlatMap(xs[..|xs| - 1], f) + f(xs[|xs| - 1])
  }

  lemma {:induction false} FlatMapConcat<S, T>(xs: seq<S>, ys: seq<S>, f: S -> seq<T>)
    ensures FlatMap(xs + ys, f) == FlatMap(xs, f) + FlatMap(ys, f)
    decreases |ys|
  {
    if ys == [] {
      assert xs + ys == xs;
    } else {
      assert (xs + ys)[..|xs + ys| - 1] == xs + ys[..|ys| - 1];
      FlatMapConcat(xs, ys[..|ys| - 1], f);
    }
  }

  lemma {:induction false} FlatMapMembers<S, T>(xs: seq<S>, f: S -> seq<T>, y: T)
    ensures y in FlatMap(xs, f) <==> exists x :: x in xs && y in f(x)
  {
    if xs != [] {
      var front, last := xs[..|xs| - 1], xs[|xs| - 1];
      assert xs == front + [last];
      FlatMapMembers(front, f, y);
    }
  }

  lemma FlatMapOne<S, T>(x: S, f: S -> seq<T>)
    ensures FlatMap([x], f) == f(x)
  {
    assert [x][..0] == [];
  }

  lemma TakeMiddle<T>(before: seq<T>, middle: seq<T>, after: seq<T>)
    ensures multiset(before + (middle + after)) == multiset(before + after) + multiset(middle)
  {
  }

  /** Taking out the element at `i` takes out its list. */
  lemma FlatMapRemove<S, T>(xs: seq<S>, i: nat, f: S -> seq<T>)
    requires i < |xs|
    ensures multiset(FlatMap(xs, f)) == multiset(FlatMap(xs[..i] + xs[i + 1..], f)) + multiset(f(xs[i]))
  {
    var before, x, after := xs[..i], xs[i], xs[i + 1..];
    assert xs == before + ([x] + after);
    FlatMapConcat(before, [x] + after, f);
    FlatMapConcat([x], after, f);
    FlatMapOne(x, f);
    FlatMapConcat(before, after, f);
    TakeMiddle(FlatMap(before, f), f(x), FlatMap(after, f));
  }

  /** The elements of the joined lists do not depend on the order of the lists. */
  lemma {:induction false} FlatMapPermutation<S, T>(xs: seq<S>, ys: seq<S>, f: S -> seq<T>)
    requires multiset(xs) == multiset(ys)
    ensures multiset(FlatMap(xs, f)) == multiset(FlatMap(ys, f))
    decreases |xs|
  {
    if xs == [] {
      assert |multiset(ys)| == 0;
    } else {
      var last := xs[|xs| - 1];
      assert last in multiset(ys);
      var i :| 0 <= i < |ys| && ys[i] == last;
      MultisetRemove(xs, |xs| - 1);
      MultisetRemove(ys, i);
      assert xs[..|xs| - 1] == xs[..|xs| - 1] + xs[|xs|..];
      FlatMapPermutation(xs[..|xs| - 1], ys[..i] + ys[i + 1..], f);
      FlatMapRemove(ys, i, f);
    }
  }

  // ----- Sums over a set of keys -----

  ghost function SumOver(keys: set<string>, g: string -> int): int {
    if keys == {} then 0
    else
      var k :| k in keys;
      g(k) + SumOver(keys - {k}, g)
  }

  lemma {:induction false} SumOverRemove(keys: set<string>, g: string -> int, x: string)
    requires x in keys
    ensures SumOver(keys, g) == g(x) + SumOver(keys - {x}, g)
  {
    var k :| k in keys && SumOver(keys, g) == g(k) + SumOver(keys - {k}, g);
    if k != x {
      SumOverRemove(keys - {k}, g, x);
      SumOverRemove(keys - {x}, g, k);
      assert keys - {k} - {x} == keys - {x} - {k};
    }
  }

  lemma {:induction false} SumOverEqual(keys: set<string>, g: string -> int, h: string -> int)
    requires forall k :: k in keys ==> g(k) == h(k)
    ensures SumOver(keys, g) == SumOver(keys, h)
  {
    if keys != {} {
      var k :| k in keys;
      SumOverRemove(keys, g, k);
      SumOverRemove(keys, h, k);
      SumOverEqual(keys - {k}, g, h);
    }
  }

  /** Adding `d` at one key of the set adds `d` to the sum. */
  lemma SumOverBump(keys: set<string>, g: string -> int, h: string -> int, x: string, d: int)
    requires x in keys && h(x) == g(x) + d && forall k :: k in keys && k != x ==> h(k) == g(k)
    ensures SumOver(keys, h) == SumOver(keys, g) + d
  {
    SumOverRemove(keys, g, x);
    SumOverRemove(keys, h, x);
    SumOverEqual(keys - {x}, g, h);
  }

  /** Keys with value zero do not matter. */
  lemma {:induction false} SumOverZero(keys: set<string>, g: string -> int)
    requires forall k :: k in keys ==> g(k) == 0
    ensures SumOver(keys, g) == 0
  {
    if keys != {} {
      var k :| k in keys;
      SumOverRemove(keys, g, k);
      SumOverZero(keys - {k}, g);
    }
  }
}
