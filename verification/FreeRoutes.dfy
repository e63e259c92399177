/**
 The free routes of a catalog: explicit markers only, no video models, and a fixed priority of
 provider prefixes with the catalog order inside each priority.
 */
module FreeRoutes {
  import opened Basics
  import opened PyText
  import opened RouteLists

  // ----- Filtering, removing repetitions and ranking, for any test and any rank -----

  /** The sort key `(rank(route), position)`, compared as a tuple. */
  predicate KeyLess(routes: seq<string>, rank: string -> int, a: string, b: string) {
    rank(a) < rank(b) || (rank(a) == rank(b) && Position(routes, a) < Position(routes, b))
  }

  predicate KeyLeq(routes: seq<string>, rank: string -> int, a: string, b: string) {
    !KeyLess(routes, rank, b, a)
  }

  function Select(models: seq<string>, keep: string -> bool, rank: string -> int): seq<string> {
    var routes := Distinct(models, keep);
    StableSort(routes, (a, b) => KeyLeq(routes, rank, a, b))
  }

  /** `r` lists exactly the kept models once each, by rank and, within a rank, by first appearance. */
  ghost predicate IsSelection(models: seq<string>, keep: string -> bool, rank: string -> int, r: seq<string>) {
    && NoDuplicates(r)
    && (forall x :: x in r <==> x in models && keep(x))
    && (forall i, j :: 0 <= i < j < |r| ==> KeyLess(models, rank, r[i], r[j]))
  }

  lemma KeyLeqPreorder(routes: seq<string>, rank: string -> int)
    ensures TotalPreorder((a, b) => KeyLeq(routes, rank, a, b))
  {
  }

  /** Sorting changes the order only. */
  lemma SelectSorts(models: seq<string>, keep: string -> bool, rank: string -> int)
    ensures var routes, r := Distinct(models, keep), Select(models, keep, rank);
            && NoDuplicates(r)
            && (forall x :: x in r <==> x in routes)
            && Sorted(r, (a, b) => KeyLeq(routes, rank, a, b))
  {
    var routes := Distinct(models, keep);
    KeyLeqPreorder(routes, rank);
    StableSortSorts(routes, (a, b) => KeyLeq(routes, rank, a, b));
    PermutationFacts(routes, Select(models, keep, rank));
  }

  /** Two kept models in sorted order compare by their places in the catalog. */
  lemma KeyOfCatalog(models: seq<string>, keep: string -> bool, rank: string -> int, a: string, b: string)
    requires a in Distinct(models, keep) && b in Distinct(models, keep) && a != b
    requires KeyLeq(Distinct(models, keep), rank, a, b)
    ensures KeyLess(models, rank, a, b)
  {
    DistinctKeepsOrder(models, keep, a, b);
  }

  /** The kept models have the properties of a selection. */
  lemma SelectIsSelection(models: seq<string>, keep: string -> bool, rank: string -> int)
    ensures IsSelection(models, keep, rank, Select(models, keep, rank))
  {
    var r := Select(models, keep, rank);
    SelectSorts(models, keep, rank);
    forall i, j | 0 <= i < j < |r| ensures KeyLess(models, rank, r[i], r[j]) {
      assert r[i] in r && r[j] in r;
      KeyOfCatalog(models, keep, rank, r[i], r[j]);
    }
  }

  /** Those properties leave no choice: there is exactly one selection. */
  lemma SelectionUnique(models: seq<string>, keep: string -> bool, rank: string -> int, r: seq<string>)
    requires IsSelection(models, keep, rank, r)
    ensures r == Select(models, keep, rank)
  {
    SelectIsSelection(models, keep, rank);
    SortedUnique(r, Select(models, keep, rank), (a, b) => KeyLess(models, rank, a, b));
  }

  /** Selecting from a selection changes nothing. */
  lemma SelectIdempotent(models: seq<string>, keep: string -> bool, rank: string -> int)
    ensures var r := Select(models, keep, rank);
            Select(r, keep, rank) == r
  {
    var r := Select(models, keep, rank);
    SelectIsSelection(models, keep, rank);
    forall i, j | 0 <= i < j < |r| ensures KeyLess(r, rank, r[i], r[j]) {
      assert KeyLess(models, rank, r[i], r[j]);
      assert IndexOf(r, r[i]) == i && IndexOf(r, r[j]) == j;
    }
    SelectionUnique(r, keep, rank, r);
  }

  // ----- The routes of the benchmark -----

  predicate MarkedFree(id: string) {
    EndsWith(id, ":free") || Contains(id, "-free") || StartsWith(id, "free/")
  }

  predicate Qualifies(lower: string -> string, id: string) { MarkedFree(id) && !Video(lower(id)) }

  function Priority(lowered: string): int {
    if StartsWith(lowered, "openrouter/poolside/laguna-s") then 0
    else if StartsWith(lowered, "openrouter/poolside/laguna-xs") then 1
    else if StartsWith(lowered, "openrouter/") then 2
    else if StartsWith(lowered, "free/") then 3
    else if StartsWith(lowered, "auto/") then 4
    else if StartsWith(lowered, "oc/") then 5
    else 6
  }

  const PREFIXES: seq<string> := [
    "openrouter/poolside/laguna-s", "openrouter/poolside/laguna-xs", "openrouter/", "free/", "auto/", "oc/"]

  /** The priority is the place of the first prefix of the identifier in the list, or comes after all. */
  lemma PriorityIsFirstPrefix(lowered: string)
    ensures var k := Priority(lowered);
            && 0 <= k <= |PREFIXES|
            && (k < |PREFIXES| ==> StartsWith(lowered, PREFIXES[k]))
            && forall j :: 0 <= j < k ==> !StartsWith(lowered, PREFIXES[j])
  {
  }

  /** `lower` is the lower-casing of identifiers. */
  function ExplicitFreeRoutes(lower: string -> string, models: seq<string>): seq<string> {
    Select(models, id => Qualifies(lower, id), id => Priority(lower(id)))
  }

  /** The result is the one duplicate-free list of the qualifying routes in that order, and a fixed point. */
  lemma ExplicitFreeRoutesSpec(lower: string -> string, models: seq<string>)
    ensures var r := ExplicitFreeRoutes(lower, models);
            && NoDuplicates(r)
            && (forall x :: x in r <==>
                  x in models && (EndsWith(x, ":free") || Contains(x, "-free") || StartsWith(x, "free/")) &&
                  !Contains(lower(x), "veo") && !Contains(lower(x), "seedance"))
            && (forall i, j :: 0 <= i < j < |r| ==>
                  var p, q := Priority(lower(r[i])), Priority(lower(r[j]));
                  p < q || (p == q && r[i] in models && r[j] in models &&
                            IndexOf(models, r[i]) < IndexOf(models, r[j])))
            && ExplicitFreeRoutes(lower, r) == r
  {
    var keep := id => Qualifies(lower, id);
    var rank := id => Priority(lower(id));
    SelectIsSelection(models, keep, rank);
    SelectIdempotent(models, keep, rank);
    var r := Select(models, keep, rank);
    forall i, j | 0 <= i < j < |r|
      ensures rank(r[i]) < rank(r[j]) ||
              (rank(r[i]) == rank(r[j]) && r[i] in models && r[j] in models &&
               IndexOf(models, r[i]) < IndexOf(models, r[j]))
    {
      assert r[i] in r && r[j] in r;
      assert KeyLess(models, rank, r[i], r[j]);
    }
  }

  // ----- The first route that completes -----

  /** The probe loop: the first route that passes, and a failure for each route before it. */
  method ProbeCompletion(routes: seq<string>, passes: string -> bool)
    returns (ok: bool, route: Option<string>, failures: seq<string>)
    ensures ok <==> exists k :: 0 <= k < |routes| && passes(routes[k])
    ensures ok ==> |failures| < |routes| && route == Some(routes[|failures|]) && passes(routes[|failures|])
    ensures !ok ==> route == None && |failures| == |routes|
    ensures failures == routes[..|failures|]
    ensures forall f :: f in failures ==> !passes(f)
  {
    failures := [];
    for k := 0 to |routes|
      invariant failures == routes[..k]
      invariant forall j :: 0 <= j < k ==> !passes(routes[j])
    {
      if passes(routes[k]) {
        return true, Some(routes[k]), failures;
      }
      failures := failures + [routes[k]];
    }
    return false, None, failures;
  }
}
