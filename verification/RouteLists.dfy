/**
 Lists of route identifiers as both cloud runners build them: first-occurrence filtering
 (`dict.fromkeys` over a filtered generator) and stable sorting.
 */
module RouteLists {
  import opened PyText

  /** The identifier, lower-cased, of a route that produces video. */
  predicate Video(lowered: string) { Contains(lowered, "veo") || Contains(lowered, "seedance") }

  // ----- First occurrences -----

  /** The position of the first occurrence. */
  function IndexOf<T(==)>(xs: seq<T>, x: T): (k: nat)
    requires x in xs
    ensures k < |xs| && xs[k] == x
    ensures forall m :: 0 <= m < k ==> xs[m] != x
  {
    if xs[0] == x then 0 else 1 + IndexOf(xs[1..], x)
  }

  /** The position of the first occurrence, or the length. */
  function Position(xs: seq<string>, x: string): nat {
    if x in xs then IndexOf(xs, x) else |xs|
  }

  predicate NoDuplicates<T(==)>(xs: seq<T>) {
    forall i, j :: 0 <= i < j < |xs| ==> xs[i] != xs[j]
  }

  /** The elements that pass the test, each at its first occurrence. */
  function Distinct<T(==,!new)>(xs: seq<T>, keep: T -> bool): (r: seq<T>)
    ensures NoDuplicates(r)
    ensures forall x :: x in r <==> x in xs && keep(x)
    ensures |r| <= |xs|
  {
    if xs == [] then []
    else
      var last := xs[|xs| - 1];
      var front := Distinct(xs[..|xs| - 1], keep);
      assert xs == xs[..|xs| - 1] + [last];
      if keep(last) && last !in front then front + [last] else front
  }

  /** Membership in three lists, one after the other. */
  lemma InThree<T>(xs: seq<T>, ys: seq<T>, zs: seq<T>, x: T)
    ensures x in xs + ys + zs <==> x in xs || x in ys || x in zs
  {
  }

  lemma IndexOfSnoc<T>(xs: seq<T>, y: T, x: T)
    requires x in xs + [y]
    ensures IndexOf(xs + [y], x) == if x in xs then IndexOf(xs, x) else |xs|
  {
    var k := IndexOf(xs + [y], x);
    if x in xs {
      assert (xs + [y])[IndexOf(xs, x)] == x;
      assert k <= IndexOf(xs, x);
    } else {
      assert (xs + [y])[|xs|] == x;
      assert k <= |xs|;
    }
  }

  /** Removing repetitions keeps the order of first occurrences. */
  lemma {:induction false} DistinctKeepsOrder<T(!new)>(xs: seq<T>, keep: T -> bool, a: T, b: T)
    requires a in Distinct(xs, keep) && b in Distinct(xs, keep)
    ensures IndexOf(Distinct(xs, keep), a) < IndexOf(Distinct(xs, keep), b) <==> IndexOf(xs, a) < IndexOf(xs, b)
    decreases |xs|
  {
    var front, last := xs[..|xs| - 1], xs[|xs| - 1];
    assert xs == front + [last];
    var d := Distinct(front, keep);
    IndexOfSnoc(front, last, a);
    IndexOfSnoc(front, last, b);
    if keep(last) && last !in d {
      IndexOfSnoc(d, last, a);
      IndexOfSnoc(d, last, b);
    }
    if a in d && b in d {
      DistinctKeepsOrder(front, keep, a, b);
    }
  }

  /** What occurs in the first list comes before what does not. */
  lemma FirstListFirst<T(!new)>(xs: seq<T>, ys: seq<T>, keep: T -> bool, a: T, b: T)
    requires a in Distinct(xs + ys, keep) && b in Distinct(xs + ys, keep)
    requires a in xs && b !in xs
    ensures IndexOf(Distinct(xs + ys, keep), a) < IndexOf(Distinct(xs + ys, keep), b)
  {
    DistinctKeepsOrder(xs + ys, keep, a, b);
    assert (xs + ys)[IndexOf(xs, a)] == a;
    assert IndexOf(xs + ys, a) < |xs|;
    assert IndexOf(xs + ys, b) >= |xs|;
  }

  lemma {:induction false} DistinctFixed<T(!new)>(xs: seq<T>, keep: T -> bool)
    requires NoDuplicates(xs) && forall x :: x in xs ==> keep(x)
    ensures Distinct(xs, keep) == xs
    decreases |xs|
  {
    if xs == [] {
    } else {
      var front := xs[..|xs| - 1];
      assert xs == front + [xs[|xs| - 1]];
      DistinctFixed(front, keep);
    }
  }

  // ----- Sorting -----

  ghost predicate TotalPreorder<T(!new)>(leq: (T, T) -> bool) {
    && (forall a, b :: leq(a, b) || leq(b, a))
    && (forall a, b, c :: leq(a, b) && leq(b, c) ==> leq(a, c))
  }

  ghost predicate Sorted<T>(xs: seq<T>, leq: (T, T) -> bool) {
    forall i, j :: 0 <= i < j < |xs| ==> leq(xs[i], xs[j])
  }

  /** Puts `x` in front of the first element that is not smaller. */
  function Insert<T>(x: T, xs: seq<T>, leq: (T, T) -> bool): seq<T> {
    if xs == [] || leq(x, xs[0]) then [x] + xs else [xs[0]] + Insert(x, xs[1..], leq)
  }

  function StableSort<T>(xs: seq<T>, leq: (T, T) -> bool): seq<T> {
    if xs == [] then [] else Insert(xs[0], StableSort(xs[1..], leq), leq)
  }

  lemma {:induction false} InsertMembers<T(!new)>(x: T, xs: seq<T>, leq: (T, T) -> bool)
    ensures multiset(Insert(x, xs, leq)) == multiset(xs) + multiset{x}
    ensures forall y :: y in Insert(x, xs, leq) ==> y == x || y in xs
  {
    if xs == [] || leq(x, xs[0]) {
    } else {
      InsertMembers(x, xs[1..], leq);
      assert xs == [xs[0]] + xs[1..];
    }
  }

  lemma {:induction false} InsertSorted<T(!new)>(x: T, xs: seq<T>, leq: (T, T) -> bool)
    requires TotalPreorder(leq) && Sorted(xs, leq)
    ensures Sorted(Insert(x, xs, leq), leq)
  {
    if xs == [] || leq(x, xs[0]) {
    } else {
      InsertSorted(x, xs[1..], leq);
      InsertMembers(x, xs[1..], leq);
      var rest := Insert(x, xs[1..], leq);
      forall i | 0 <= i < |rest| ensures leq(xs[0], rest[i]) {
        assert rest[i] in rest;
      }
    }
  }

  lemma {:induction false} StableSortSorts<T(!new)>(xs: seq<T>, leq: (T, T) -> bool)
    requires TotalPreorder(leq)
    ensures Sorted(StableSort(xs, leq), leq)
    ensures multiset(StableSort(xs, leq)) == multiset(xs)
  {
    if xs == [] {
    } else {
      StableSortSorts(xs[1..], leq);
      InsertSorted(xs[0], StableSort(xs[1..], leq), leq);
      InsertMembers(xs[0], StableSort(xs[1..], leq), leq);
      assert xs == [xs[0]] + xs[1..];
    }
  }

  lemma {:induction false} InsertKeepsOrder<T(!new)>(x: T, xs: seq<T>, leq: (T, T) -> bool, a: T, b: T)
    requires a in xs && b in xs && a != x && b != x
    ensures a in Insert(x, xs, leq) && b in Insert(x, xs, leq)
    ensures IndexOf(Insert(x, xs, leq), a) < IndexOf(Insert(x, xs, leq), b) <==> IndexOf(xs, a) < IndexOf(xs, b)
  {
    if leq(x, xs[0]) {
      IndexOfConcat([x], xs, a);
      IndexOfConcat([x], xs, b);
    } else {
      var rest := Insert(x, xs[1..], leq);
      assert Insert(x, xs, leq)[1..] == rest;
      InsertMembers(x, xs[1..], leq);
      assert forall y :: y in rest <==> y in multiset(rest);
      if a != xs[0] && b != xs[0] {
        InsertKeepsOrder(x, xs[1..], leq, a, b);
      }
    }
  }

  lemma {:induction false} InsertedBefore<T(!new)>(x: T, xs: seq<T>, leq: (T, T) -> bool, b: T)
    requires b in xs && b != x && leq(x, b)
    ensures x in Insert(x, xs, leq) && b in Insert(x, xs, leq)
    ensures IndexOf(Insert(x, xs, leq), x) < IndexOf(Insert(x, xs, leq), b)
  {
    if leq(x, xs[0]) {
      IndexOfConcat([x], xs, b);
    } else {
      assert Insert(x, xs, leq)[1..] == Insert(x, xs[1..], leq);
      InsertedBefore(x, xs[1..], leq, b);
    }
  }

  lemma IndexOfConcat<T>(xs: seq<T>, ys: seq<T>, x: T)
    requires x in xs + ys
    ensures IndexOf(xs + ys, x) == if x in xs then IndexOf(xs, x) else |xs| + IndexOf(ys, x)
  {
    var k := IndexOf(xs + ys, x);
    if x in xs {
      assert (xs + ys)[IndexOf(xs, x)] == x;
      assert forall m :: 0 <= m < IndexOf(xs, x) ==> (xs + ys)[m] != x;
    } else {
      assert (xs + ys)[|xs| + IndexOf(ys, x)] == x;
      assert forall m :: |xs| <= m < |xs| + IndexOf(ys, x) ==> (xs + ys)[m] == ys[m - |xs|] != x;
    }
  }

  /** Elements that compare equal keep the order of their first occurrences. */
  lemma {:induction false} StableSortKeepsTies<T(!new)>(xs: seq<T>, leq: (T, T) -> bool, a: T, b: T)
    requires TotalPreorder(leq) && a in xs && b in xs && a != b && leq(a, b) && leq(b, a)
    ensures a in StableSort(xs, leq) && b in StableSort(xs, leq)
    ensures IndexOf(StableSort(xs, leq), a) < IndexOf(StableSort(xs, leq), b) <==> IndexOf(xs, a) < IndexOf(xs, b)
  {
    StableSortSorts(xs, leq);
    StableSortSorts(xs[1..], leq);
    PermutationFacts(xs, StableSort(xs, leq));
    PermutationFacts(xs[1..], StableSort(xs[1..], leq));
    var x, rest := xs[0], StableSort(xs[1..], leq);
    if a == x {
      InsertedBefore(x, rest, leq, b);
    } else if b == x {
      InsertedBefore(x, rest, leq, a);
    } else {
      StableSortKeepsTies(xs[1..], leq, a, b);
      InsertKeepsOrder(x, rest, leq, a, b);
    }
  }

  lemma SortedOrder<T>(xs: seq<T>, leq: (T, T) -> bool, a: T, b: T)
    requires Sorted(xs, leq) && a in xs && b in xs && a != b
    requires leq(a, b) != leq(b, a)
    ensures IndexOf(xs, a) < IndexOf(xs, b) <==> leq(a, b)
  {
    var i, j := IndexOf(xs, a), IndexOf(xs, b);
    assert i < j ==> leq(xs[i], xs[j]);
    assert j < i ==> leq(xs[j], xs[i]);
  }

  /** The place of two elements after sorting: by the order, then by first occurrence. */
  lemma StableSortOrder<T(!new)>(xs: seq<T>, leq: (T, T) -> bool, a: T, b: T)
    requires TotalPreorder(leq) && a in xs && b in xs && a != b
    ensures a in StableSort(xs, leq) && b in StableSort(xs, leq)
    ensures IndexOf(StableSort(xs, leq), a) < IndexOf(StableSort(xs, leq), b) <==>
              leq(a, b) && (leq(b, a) ==> IndexOf(xs, a) < IndexOf(xs, b))
  {
    StableSortSorts(xs, leq);
    PermutationFacts(xs, StableSort(xs, leq));
    assert leq(a, b) || leq(b, a);
    if leq(a, b) && leq(b, a) {
      StableSortKeepsTies(xs, leq, a, b);
    } else {
      SortedOrder(StableSort(xs, leq), leq, a, b);
    }
  }

  lemma PermutationFacts<T(!new)>(xs: seq<T>, ys: seq<T>)
    requires multiset(xs) == multiset(ys)
    ensures |xs| == |ys|
    ensures forall x :: x in xs <==> x in ys
    ensures NoDuplicates(xs) ==> NoDuplicates(ys)
  {
    assert |xs| == |multiset(xs)| == |multiset(ys)| == |ys|;
    forall x ensures x in xs <==> x in ys {
      assert x in xs <==> x in multiset(xs);
      assert x in ys <==> x in multiset(ys);
    }
    if NoDuplicates(xs) {
      forall i, j | 0 <= i < j < |ys| ensures ys[i] != ys[j] {
        if ys[i] == ys[j] {
          AtMostOnce(xs, ys[i]);
          TwiceCounts(ys, i, j);
        }
      }
    }
  }

  lemma {:induction false} AtMostOnce<T>(xs: seq<T>, x: T)
    requires NoDuplicates(xs)
    ensures multiset(xs)[x] <= 1
  {
    if xs == [] {
    } else {
      assert xs == [xs[0]] + xs[1..];
      AtMostOnce(xs[1..], x);
      if xs[0] == x {
        assert x !in xs[1..];
      }
    }
  }

  lemma TwiceCounts<T>(ys: seq<T>, i: nat, j: nat)
    requires i < j < |ys| && ys[i] == ys[j]
    ensures multiset(ys)[ys[i]] >= 2
  {
    assert ys == ys[..i] + [ys[i]] + ys[i + 1..j] + [ys[j]] + ys[j + 1..];
  }

  /** A list without repetitions is determined by its elements and a strict order that sorts it. */
  lemma {:induction false} SortedUnique<T(!new)>(xs: seq<T>, ys: seq<T>, less: (T, T) -> bool)
    requires forall a, b :: !(less(a, b) && less(b, a))
    requires Sorted(xs, less) && Sorted(ys, less)
    requires NoDuplicates(xs) && NoDuplicates(ys) && (forall x :: x in xs <==> x in ys)
    ensures xs == ys
    decreases |xs|
  {
    assert |ys| > 0 ==> ys[0] in xs;
    if xs == [] {
    } else {
      assert xs[0] in ys;
      var k :| 0 <= k < |ys| && ys[k] == xs[0];
      assert ys[0] in xs;
      var l :| 0 <= l < |xs| && xs[l] == ys[0];
      assert k == 0;
      forall x ensures x in xs[1..] <==> x in ys[1..] {
        assert x in xs[1..] <==> x in xs && x != xs[0];
        assert x in ys[1..] <==> x in ys && x != ys[0];
      }
      SortedUnique(xs[1..], ys[1..], less);
      assert xs == [xs[0]] + xs[1..] && ys == [ys[0]] + ys[1..];
    }
  }
}
