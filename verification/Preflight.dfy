/**
 The route preflight of the HP12C acceptance run: a bounded list of candidates, a probe loop that
 stops at the fourth verified route, and the fallback ladder built from what the loop found.
 */
module Preflight {
  import opened Basics
  import opened PyText
  import opened RouteLists

  /** A gateway reply: its status, and whether its content is a JSON object with actions. */
  datatype Reply = Reply(status: int, hasActions: bool)

  datatype Verdict = Verified | Gone | Failed

  function Judge(r: Reply): Verdict {
    if r.status == 200 && r.hasActions then Verified
    else if r.status == 410 then Gone
    else Failed
  }

  /** The catalog, the operator's preferences, lower-casing, the configured limit and the gateway. */
  datatype Gateway = Gateway(
    catalog: seq<string>, configured: seq<string>, preferred: seq<string>,
    lower: string -> string, limit: Option<int>, reply: string -> Reply)

  const MAX_PROBES := 16
  const MAX_VERIFIED := 4
  const LADDER_LENGTH := 8

  // ----- The candidates -----

  predicate FreeRoute(g: Gateway, id: string) {
    var model := g.lower(Strip(id));
    EndsWith(model, ":free") || Contains(model, "-free") || Contains(model, "free/")
  }

  /** The tuple `(preferred.index(normalized) or len(preferred), normalized)`. */
  function Rank(g: Gateway, id: string): nat {
    var normalized := g.lower(Strip(id));
    if normalized in g.preferred then IndexOf(g.preferred, normalized) else |g.preferred|
  }

  predicate PriorityLeq(g: Gateway, a: string, b: string) {
    Rank(g, a) < Rank(g, b) || (Rank(g, a) == Rank(g, b) && TextLeq(g.lower(Strip(a)), g.lower(Strip(b))))
  }

  function Filter(xs: seq<string>, keep: string -> bool): (r: seq<string>)
    ensures forall x :: x in r <==> x in xs && keep(x)
  {
    if xs == [] then []
    else
      assert xs == [xs[0]] + xs[1..];
      (if keep(xs[0]) then [xs[0]] else []) + Filter(xs[1..], keep)
  }

  function SortedFree(g: Gateway): seq<string> {
    StableSort(Filter(g.catalog, id => FreeRoute(g, id)), (a, b) => PriorityLeq(g, a, b))
  }

  function ProbeLimit(g: Gateway): (n: nat)
    ensures 1 <= n <= MAX_PROBES
    ensures g.limit.Some? && 1 <= g.limit.value <= MAX_PROBES ==> n == g.limit.value
    ensures g.limit.None? ==> n == MAX_PROBES
    ensures g.limit.Some? && g.limit.value < 1 ==> n == 1
    ensures g.limit.Some? && g.limit.value > MAX_PROBES ==> n == MAX_PROBES
  {
    if g.limit.None? then MAX_PROBES
    else if g.limit.value < 1 then 1
    else if g.limit.value > MAX_PROBES then MAX_PROBES
    else g.limit.value
  }

  predicate Probeable(g: Gateway, id: string) { id in g.catalog && !Video(g.lower(id)) }

  /** Removing repetitions first and filtering afterwards gives the same list as doing both at once. */
  function Candidates(g: Gateway): seq<string> {
    Distinct(g.configured + g.preferred + SortedFree(g), id => Probeable(g, id))
  }

  /** Nothing is probed when the catalog has no free route and no route is configured. */
  function ProbeRoutes(g: Gateway): seq<string> {
    if g.configured == [] && Filter(g.catalog, id => FreeRoute(g, id)) == [] then []
    else
      var c := Candidates(g);
      if |c| <= ProbeLimit(g) then c else c[..ProbeLimit(g)]
  }

  /** The routes to be probed are distinct, few, and all from the catalog. */
  lemma ProbeRoutesBounded(g: Gateway)
    ensures |ProbeRoutes(g)| <= MAX_PROBES
    ensures NoDuplicates(ProbeRoutes(g))
    ensures forall x :: x in ProbeRoutes(g) ==> x in g.catalog && !Video(g.lower(x))
  {
    assert forall x :: x in ProbeRoutes(g) ==> x in Candidates(g);
  }

  lemma FirstOfThree(xs: seq<string>, ys: seq<string>, zs: seq<string>, keep: string -> bool, a: string, b: string)
    requires a in Distinct(xs + ys + zs, keep) && b in Distinct(xs + ys + zs, keep)
    requires a in xs && b !in xs
    ensures IndexOf(Distinct(xs + ys + zs, keep), a) < IndexOf(Distinct(xs + ys + zs, keep), b)
  {
    assert xs + ys + zs == xs + (ys + zs);
    FirstListFirst(xs, ys + zs, keep, a, b);
  }

  /** Configured routes are probed before the preferred ones and the rest of the free catalog. */
  lemma ConfiguredRoutesFirst(g: Gateway, a: string, b: string)
    requires a in Candidates(g) && b in Candidates(g) && a in g.configured && b !in g.configured
    ensures IndexOf(Candidates(g), a) < IndexOf(Candidates(g), b)
  {
    FirstOfThree(g.configured, g.preferred, SortedFree(g), id => Probeable(g, id), a, b);
  }

  /** Configured and preferred routes are probed before the rest of the free catalog. */
  lemma PreferredRoutesFirst(g: Gateway, a: string, b: string)
    requires a in Candidates(g) && b in Candidates(g)
    requires a in g.configured + g.preferred && b !in g.configured + g.preferred
    ensures IndexOf(Candidates(g), a) < IndexOf(Candidates(g), b)
  {
    FirstListFirst(g.configured + g.preferred, SortedFree(g), id => Probeable(g, id), a, b);
  }

  /** The free part of the candidates is the free catalog in priority order. */
  lemma SortedFreeInPriorityOrder(g: Gateway)
    ensures multiset(SortedFree(g)) == multiset(Filter(g.catalog, id => FreeRoute(g, id)))
    ensures Sorted(SortedFree(g), (a, b) => PriorityLeq(g, a, b))
  {
    PriorityPreorder(g);
    StableSortSorts(Filter(g.catalog, id => FreeRoute(g, id)), (a, b) => PriorityLeq(g, a, b));
  }

  // ----- What is probed, from the gateway alone -----

  /** A free route by its lower-cased, stripped identifier. */
  predicate IsFree(g: Gateway, x: string) {
    var m := g.lower(Strip(x));
    EndsWith(m, ":free") || Contains(m, "-free") || Contains(m, "free/")
  }

  /** In the catalog, not video, and configured, preferred or free. */
  predicate IsCandidate(g: Gateway, x: string) {
    && x in g.catalog
    && !Contains(g.lower(x), "veo") && !Contains(g.lower(x), "seedance")
    && (x in g.configured || x in g.preferred || IsFree(g, x))
  }

  /**
   Configured routes in their order, then preferred ones in theirs, then the free rest: by the place
   of the lower-cased, stripped identifier among the preferred ones, by its text, by the catalog.
   */
  predicate Ahead(g: Gateway, a: string, b: string) {
    if Position(g.configured, a) != Position(g.configured, b) then
      Position(g.configured, a) < Position(g.configured, b)
    else if Position(g.preferred, a) != Position(g.preferred, b) then
      Position(g.preferred, a) < Position(g.preferred, b)
    else FreeAhead(g, a, b)
  }

  predicate FreeAhead(g: Gateway, a: string, b: string) {
    var m, n := g.lower(Strip(a)), g.lower(Strip(b));
    if Position(g.preferred, m) != Position(g.preferred, n) then Position(g.preferred, m) < Position(g.preferred, n)
    else if m != n then TextLeq(m, n)
    else Position(g.catalog, a) < Position(g.catalog, b)
  }

  /** The candidates in order, cut at the limit. */
  ghost predicate IsProbeList(g: Gateway, routes: seq<string>, limit: nat) {
    && |routes| <= limit
    && NoDuplicates(routes)
    && (forall x :: x in routes ==> IsCandidate(g, x))
    && (forall i, j :: 0 <= i < j < |routes| ==> Ahead(g, routes[i], routes[j]))
    && (forall b :: IsCandidate(g, b) && b !in routes ==>
          |routes| == limit && forall i :: 0 <= i < |routes| ==> Ahead(g, routes[i], b))
  }

  lemma SortedFreeMembers(g: Gateway, x: string)
    ensures x in SortedFree(g) <==> x in g.catalog && FreeRoute(g, x)
  {
    SortedFreeInPriorityOrder(g);
    PermutationFacts(Filter(g.catalog, id => FreeRoute(g, id)), SortedFree(g));
  }

  lemma CandidateMembers(g: Gateway, x: string)
    ensures x in Candidates(g) <==> IsCandidate(g, x)
  {
    SortedFreeMembers(g, x);
    InThree(g.configured, g.preferred, SortedFree(g), x);
  }

  lemma {:induction false} FilterKeepsOrder(xs: seq<string>, keep: string -> bool, a: string, b: string)
    requires a in xs && b in xs && keep(a) && keep(b)
    ensures IndexOf(Filter(xs, keep), a) < IndexOf(Filter(xs, keep), b) <==> IndexOf(xs, a) < IndexOf(xs, b)
  {
    if a != xs[0] && b != xs[0] {
      var rest := Filter(xs[1..], keep);
      FilterKeepsOrder(xs[1..], keep, a, b);
      if keep(xs[0]) {
        assert Filter(xs, keep) == [xs[0]] + rest;
        IndexOfConcat([xs[0]], rest, a);
        IndexOfConcat([xs[0]], rest, b);
      } else {
        assert Filter(xs, keep) == rest;
      }
    } else {
      assert Filter(xs, keep)[0] == xs[0];
    }
  }

  lemma PriorityPreorder(g: Gateway)
    ensures TotalPreorder((a, b) => PriorityLeq(g, a, b))
  {
    forall a, b ensures PriorityLeq(g, a, b) || PriorityLeq(g, b, a) {
      TextLeqTotal(g.lower(Strip(a)), g.lower(Strip(b)));
    }
    forall a, b, c | PriorityLeq(g, a, b) && PriorityLeq(g, b, c) ensures PriorityLeq(g, a, c) {
      if Rank(g, a) == Rank(g, b) == Rank(g, c) {
        TextLeqTransitive(g.lower(Strip(a)), g.lower(Strip(b)), g.lower(Strip(c)));
      }
    }
  }

  lemma FreeAheadIsPriority(g: Gateway, a: string, b: string)
    requires a in g.catalog && b in g.catalog
    ensures FreeAhead(g, a, b) <==>
              PriorityLeq(g, a, b) && (PriorityLeq(g, b, a) ==> IndexOf(g.catalog, a) < IndexOf(g.catalog, b))
  {
    var m, n := g.lower(Strip(a)), g.lower(Strip(b));
    TextLeqTotal(m, n);
    if TextLeq(m, n) && TextLeq(n, m) {
      TextLeqAntisymmetric(m, n);
    }
  }

  lemma SortedFreeOrder(g: Gateway, a: string, b: string)
    requires a in SortedFree(g) && b in SortedFree(g) && a != b
    ensures a in g.catalog && b in g.catalog
    ensures IndexOf(SortedFree(g), a) < IndexOf(SortedFree(g), b) <==> FreeAhead(g, a, b)
  {
    SortedFreeMembers(g, a);
    SortedFreeMembers(g, b);
    PriorityPreorder(g);
    StableSortOrder(Filter(g.catalog, id => FreeRoute(g, id)), (x, y) => PriorityLeq(g, x, y), a, b);
    FilterKeepsOrder(g.catalog, id => FreeRoute(g, id), a, b);
    FreeAheadIsPriority(g, a, b);
  }

  lemma IndexOfThree(xs: seq<string>, ys: seq<string>, zs: seq<string>, x: string)
    requires x in xs + ys + zs
    ensures x in xs ==> IndexOf(xs + ys + zs, x) == IndexOf(xs, x)
    ensures x !in xs && x in ys ==> IndexOf(xs + ys + zs, x) == |xs| + IndexOf(ys, x)
    ensures x !in xs && x !in ys ==> x in zs && IndexOf(xs + ys + zs, x) == |xs| + |ys| + IndexOf(zs, x)
  {
    IndexOfConcat(xs + ys, zs, x);
    if x in xs + ys {
      IndexOfConcat(xs, ys, x);
    }
  }

  /** The order in three lists, one after the other, from the places in each of them. */
  lemma OrderInThree(xs: seq<string>, ys: seq<string>, zs: seq<string>, a: string, b: string)
    requires a in xs + ys + zs && b in xs + ys + zs
    ensures IndexOf(xs + ys + zs, a) < IndexOf(xs + ys + zs, b) <==>
              if Position(xs, a) != Position(xs, b) then Position(xs, a) < Position(xs, b)
              else if Position(ys, a) != Position(ys, b) then Position(ys, a) < Position(ys, b)
              else a != b && a in zs && b in zs && IndexOf(zs, a) < IndexOf(zs, b)
  {
    IndexOfThree(xs, ys, zs, a);
    IndexOfThree(xs, ys, zs, b);
  }

  /** The order of the candidates. */
  lemma CandidatesInOrder(g: Gateway, a: string, b: string)
    requires a in Candidates(g) && b in Candidates(g) && a != b
    ensures IndexOf(Candidates(g), a) < IndexOf(Candidates(g), b) <==> Ahead(g, a, b)
  {
    DistinctKeepsOrder(g.configured + g.preferred + SortedFree(g), id => Probeable(g, id), a, b);
    OrderInThree(g.configured, g.preferred, SortedFree(g), a, b);
    if a !in g.configured + g.preferred && b !in g.configured + g.preferred {
      SortedFreeOrder(g, a, b);
    }
  }

  lemma PlaceInDistinct(xs: seq<string>, k: nat)
    requires NoDuplicates(xs) && k < |xs|
    ensures IndexOf(xs, xs[k]) == k
  {
  }

  lemma NoFreeNoProbe(g: Gateway)
    requires g.configured == []
    ensures Filter(g.catalog, id => FreeRoute(g, id)) == [] <==> forall x :: x in g.catalog ==> !IsFree(g, x)
  {
    var free := Filter(g.catalog, id => FreeRoute(g, id));
    assert forall x :: IsFree(g, x) <==> FreeRoute(g, x);
    assert free != [] ==> free[0] in free;
  }

  lemma NotInPrefix(xs: seq<string>, n: nat, x: string)
    requires n <= |xs| && x in xs && x !in xs[..n]
    ensures IndexOf(xs, x) >= n
  {
  }

  /** The candidates, cut at the limit. */
  lemma CutCandidates(g: Gateway, limit: nat)
    ensures var c := Candidates(g);
            IsProbeList(g, if |c| <= limit then c else c[..limit], limit)
  {
    var c := Candidates(g);
    forall x ensures x in c <==> IsCandidate(g, x) {
      CandidateMembers(g, x);
    }
    forall i, j | 0 <= i < j < |c| ensures Ahead(g, c[i], c[j]) {
      PlaceInDistinct(c, i);
      PlaceInDistinct(c, j);
      CandidatesInOrder(g, c[i], c[j]);
    }
    if limit < |c| {
      forall b | b in c && b !in c[..limit] ensures forall i :: 0 <= i < limit ==> Ahead(g, c[i], b) {
        NotInPrefix(c, limit, b);
      }
    }
  }

  /**
   What is probed: nothing without a configured or free route; otherwise the candidates in order,
   cut at the configured limit, which is kept between 1 and 16 and is 16 when not configured.
   */
  ghost predicate Probes(g: Gateway, routes: seq<string>) {
    if g.configured == [] && (forall x :: x in g.catalog ==> !IsFree(g, x)) then routes == []
    else IsProbeList(g, routes, if g.limit.None? || g.limit.value > 16 then 16
                                else if g.limit.value < 1 then 1 else g.limit.value)
  }

  lemma ProbedRoutes(g: Gateway)
    ensures Probes(g, ProbeRoutes(g))
  {
    if g.configured == [] {
      NoFreeNoProbe(g);
    }
    CutCandidates(g, ProbeLimit(g));
  }

  // ----- The probe loop -----

  /** The routes with one verdict, in probe order. */
  function Picked(routes: seq<string>, reply: string -> Reply, v: Verdict): seq<string> {
    if routes == [] then []
    else
      var last := routes[|routes| - 1];
      Picked(routes[..|routes| - 1], reply, v) + (if Judge(reply(last)) == v then [last] else [])
  }

  /** `probed` counts the requests sent. */
  method ProbeLoop(routes: seq<string>, reply: string -> Reply)
    returns (verified: seq<string>, gone: seq<string>, failures: seq<string>, probed: nat)
    ensures probed <= |routes|
    ensures verified == Picked(routes[..probed], reply, Verified)
    ensures gone == Picked(routes[..probed], reply, Gone)
    ensures failures == Picked(routes[..probed], reply, Failed)
    ensures |verified| <= MAX_VERIFIED
    ensures probed < |routes| ==>
              |verified| == MAX_VERIFIED && probed > 0 && Judge(reply(routes[probed - 1])) == Verified
  {
    verified, gone, failures := [], [], [];
    probed := 0;
    while probed < |routes|
      invariant probed <= |routes|
      invariant verified == Picked(routes[..probed], reply, Verified)
      invariant gone == Picked(routes[..probed], reply, Gone)
      invariant failures == Picked(routes[..probed], reply, Failed)
      invariant |verified| < MAX_VERIFIED
    {
      var route := routes[probed];
      var r := reply(route);
      assert routes[..probed + 1][..probed] == routes[..probed];
      probed := probed + 1;
      if r.status == 200 && r.hasActions {
        verified := verified + [route];
        if |verified| >= MAX_VERIFIED { break; }
        continue;
      }
      if r.status == 410 {
        gone := gone + [route];
        continue;
      }
      failures := failures + [route];
    }
  }

  /** The three lists split the probed prefix: nothing is lost, doubled, or put into two lists. */
  lemma {:induction false} PickedPartition(routes: seq<string>, reply: string -> Reply)
    ensures multiset(Picked(routes, reply, Verified)) + multiset(Picked(routes, reply, Gone)) +
            multiset(Picked(routes, reply, Failed)) == multiset(routes)
  {
    if routes == [] {
    } else {
      var front, last := routes[..|routes| - 1], routes[|routes| - 1];
      assert routes == front + [last];
      PickedPartition(front, reply);
    }
  }

  lemma {:induction false} PickedMembers(routes: seq<string>, reply: string -> Reply, v: Verdict)
    ensures forall x :: x in Picked(routes, reply, v) <==> x in routes && Judge(reply(x)) == v
    ensures NoDuplicates(routes) ==> NoDuplicates(Picked(routes, reply, v))
  {
    if routes == [] {
    } else {
      var front, last := routes[..|routes| - 1], routes[|routes| - 1];
      assert routes == front + [last];
      PickedMembers(front, reply, v);
      if NoDuplicates(routes) {
        assert last !in front;
      }
    }
  }

  // ----- The ladder -----

  /** `[str(item).strip() for item in raw if str(item).strip()]` */
  function StripAll(raw: seq<string>): (r: seq<string>)
    ensures forall x :: x in r ==> exists y :: y in raw && Strip(y) == x
    ensures forall y :: y in raw && Strip(y) != "" ==> Strip(y) in r
  {
    if raw == [] then []
    else
      assert raw == [raw[0]] + raw[1..];
      (if Strip(raw[0]) != "" then [Strip(raw[0])] else []) + StripAll(raw[1..])
  }

  /** The first verified route stands in when stripping leaves no verified route. */
  function VerifiedRoutes(raw: seq<string>): seq<string> {
    if StripAll(raw) == [] && raw != [] && raw[0] != "" then [Strip(raw[0])] else StripAll(raw)
  }

  function GoneRoutes(raw: seq<string>): set<string> {
    set x | x in StripAll(raw)
  }

  function OrderedRoutes(catalog: seq<string>, verified: seq<string>, gone: seq<string>): seq<string> {
    Distinct(VerifiedRoutes(verified) + Filter(catalog, id => id !in GoneRoutes(gone)), _ => true)
  }

  function Ladder(catalog: seq<string>, verified: seq<string>, gone: seq<string>): seq<string> {
    FirstEight(OrderedRoutes(catalog, verified, gone))
  }

  function FirstEight(ordered: seq<string>): seq<string> {
    if |ordered| <= LADDER_LENGTH then ordered else ordered[..LADDER_LENGTH]
  }

  // ----- What the ladder holds, for any identifiers -----

  /** The route is the stripped form of a verified identifier; the empty one needs the fallback. */
  predicate Leads(verified: seq<string>, x: string) {
    && (exists y :: y in verified && Strip(y) == x)
    && (x == "" ==> verified[0] != "" && forall y :: y in verified ==> Strip(y) == "")
  }

  /** The route is the stripped form of an identifier that answered 410. */
  predicate Dropped(gone: seq<string>, x: string) {
    x != "" && exists y :: y in gone && Strip(y) == x
  }

  lemma {:induction false} StripAllMembers(raw: seq<string>)
    ensures forall x :: x in StripAll(raw) ==> x != ""
    ensures StripAll(raw) == [] <==> forall y :: y in raw ==> Strip(y) == ""
  {
    if raw != [] {
      assert raw == [raw[0]] + raw[1..];
      StripAllMembers(raw[1..]);
      assert raw[0] in raw;
    }
  }

  lemma VerifiedMembers(verified: seq<string>, x: string)
    ensures x in VerifiedRoutes(verified) <==> Leads(verified, x)
  {
    StripAllMembers(verified);
    if verified != [] {
      assert verified[0] in verified;
    }
  }

  lemma GoneMembers(gone: seq<string>, x: string)
    ensures x in GoneRoutes(gone) <==> Dropped(gone, x)
  {
    StripAllMembers(gone);
  }

  /** An identifier is ordered exactly when it leads, or is in the catalog and not dropped. */
  lemma OrderedMembers(catalog: seq<string>, verified: seq<string>, gone: seq<string>, x: string)
    ensures x in OrderedRoutes(catalog, verified, gone) <==>
              Leads(verified, x) || (x in catalog && !Dropped(gone, x))
  {
    VerifiedMembers(verified, x);
    GoneMembers(gone, x);
    var rest := Filter(catalog, id => id !in GoneRoutes(gone));
    assert x in VerifiedRoutes(verified) + rest <==> x in VerifiedRoutes(verified) || x in rest;
  }

  lemma {:induction false} DistinctKeepsPrefix(xs: seq<string>, ys: seq<string>)
    ensures Distinct(xs, _ => true) <= Distinct(xs + ys, _ => true)
    decreases |ys|
  {
    if ys == [] {
      assert xs + ys == xs;
    } else {
      var front := ys[..|ys| - 1];
      assert (xs + ys)[..|xs + ys| - 1] == xs + front;
      DistinctKeepsPrefix(xs, front);
    }
  }

  /**
   At most eight distinct routes, the verified ones first and in probe order, all of them leading or
   from the catalog and not dropped, and none of these missing unless the ladder is full.
   */
  ghost predicate GoodLadder(catalog: seq<string>, verified: seq<string>, gone: seq<string>, ladder: seq<string>) {
    && |ladder| <= LADDER_LENGTH
    && NoDuplicates(ladder)
    && Distinct(VerifiedRoutes(verified), _ => true) <= ladder
    && (forall x :: x in ladder ==> Leads(verified, x) || (x in catalog && !Dropped(gone, x)))
    && (|ladder| < LADDER_LENGTH ==>
          forall x :: Leads(verified, x) || (x in catalog && !Dropped(gone, x)) ==> x in ladder)
  }

  lemma StripAllShorter(raw: seq<string>)
    ensures |StripAll(raw)| <= |raw|
  {
  }

  lemma LadderIsGood(catalog: seq<string>, verified: seq<string>, gone: seq<string>)
    requires |verified| <= MAX_VERIFIED
    ensures GoodLadder(catalog, verified, gone, Ladder(catalog, verified, gone))
  {
    var ordered := OrderedRoutes(catalog, verified, gone);
    DistinctKeepsPrefix(VerifiedRoutes(verified), Filter(catalog, id => id !in GoneRoutes(gone)));
    StripAllShorter(verified);
    forall x ensures x in ordered <==> Leads(verified, x) || (x in catalog && !Dropped(gone, x)) {
      OrderedMembers(catalog, verified, gone, x);
    }
    assert forall x :: x in Ladder(catalog, verified, gone) ==> x in ordered;
  }

  // ----- Routes that answered 410 -----

  /** The 410 route is padded or empty, or a verified identifier strips to it. */
  predicate Survives(verified: seq<string>, x: string) {
    x == "" || Strip(x) != x || exists y :: y in verified && Strip(y) == x
  }

  /** A catalog route that answered 410 stays among the ordered routes exactly when it survives. */
  lemma GoneRouteOrdered(catalog: seq<string>, verified: seq<string>, gone: seq<string>, x: string)
    requires x in gone && x in catalog
    ensures x in OrderedRoutes(catalog, verified, gone) <==> Survives(verified, x)
  {
    OrderedMembers(catalog, verified, gone, x);
    if y :| y in gone && Strip(y) == x {
      StripTwice(y);
    }
  }

  /** Therefore the ordered routes are free of 410 routes exactly when none of them survives. */
  lemma GoneRoutesExcluded(catalog: seq<string>, verified: seq<string>, gone: seq<string>)
    requires forall x :: x in gone ==> x in catalog
    ensures (forall x :: x in gone ==> x !in OrderedRoutes(catalog, verified, gone)) <==>
            (forall x :: x in gone ==> Strip(x) == x && x != "" && forall y :: y in verified ==> Strip(y) != x)
  {
    forall x | x in gone ensures x in OrderedRoutes(catalog, verified, gone) <==> Survives(verified, x) {
      GoneRouteOrdered(catalog, verified, gone, x);
    }
  }

  lemma IndexInDistinct(xs: seq<string>, x: string, ys: seq<string>)
    requires x !in xs
    ensures x in Distinct(xs + [x] + ys, _ => true)
    ensures IndexOf(Distinct(xs + [x] + ys, _ => true), x) == |Distinct(xs, _ => true)|
  {
    var d := Distinct(xs, _ => true);
    assert (xs + [x])[..|xs|] == xs;
    assert Distinct(xs + [x], _ => true) == d + [x];
    DistinctKeepsPrefix(xs + [x], ys);
    var all := Distinct(xs + [x] + ys, _ => true);
    assert all[|d|] == x;
  }

  lemma {:induction false} FilterConcat(xs: seq<string>, ys: seq<string>, keep: string -> bool)
    ensures Filter(xs + ys, keep) == Filter(xs, keep) + Filter(ys, keep)
  {
    if xs == [] {
      assert xs + ys == ys;
    } else {
      assert (xs + ys)[1..] == xs[1..] + ys;
      FilterConcat(xs[1..], ys, keep);
    }
  }

  lemma FilterAround(xs: seq<string>, k: nat, keep: string -> bool)
    requires k < |xs| && keep(xs[k])
    ensures Filter(xs, keep) == Filter(xs[..k], keep) + [xs[k]] + Filter(xs[k + 1..], keep)
  {
    var tail := xs[k..];
    assert xs == xs[..k] + tail;
    FilterConcat(xs[..k], tail, keep);
    assert tail[0] == xs[k] && tail[1..] == xs[k + 1..];
    assert Filter(tail, keep) == [xs[k]] + Filter(xs[k + 1..], keep);
  }

  lemma PlaceAmong(lead: seq<string>, xs: seq<string>, k: nat, keep: string -> bool)
    requires k < |xs| && keep(xs[k]) && xs[k] !in lead && xs[k] !in xs[..k]
    ensures xs[k] in Distinct(lead + Filter(xs, keep), _ => true)
    ensures IndexOf(Distinct(lead + Filter(xs, keep), _ => true), xs[k]) ==
            |Distinct(lead + Filter(xs[..k], keep), _ => true)|
  {
    FilterAround(xs, k, keep);
    var kept, last := Filter(xs[..k], keep), Filter(xs[k + 1..], keep);
    assert lead + (kept + [xs[k]] + last) == lead + kept + [xs[k]] + last;
    IndexInDistinct(lead + kept, xs[k], last);
  }

  /** The catalog in front of a route decides its place among the ordered ones. */
  lemma PlaceInOrder(catalog: seq<string>, verified: seq<string>, gone: seq<string>, x: string)
    requires x in catalog && x !in GoneRoutes(gone) && x !in VerifiedRoutes(verified)
    ensures x in OrderedRoutes(catalog, verified, gone)
    ensures IndexOf(OrderedRoutes(catalog, verified, gone), x) ==
            |OrderedRoutes(catalog[..IndexOf(catalog, x)], verified, gone)|
  {
    PlaceAmong(VerifiedRoutes(verified), catalog, IndexOf(catalog, x), id => id !in GoneRoutes(gone));
  }

  lemma LeadingIsOnLadder(catalog: seq<string>, verified: seq<string>, gone: seq<string>, x: string)
    requires Leads(verified, x) && |verified| <= MAX_VERIFIED
    ensures x in Ladder(catalog, verified, gone)
  {
    VerifiedMembers(verified, x);
    LadderIsGood(catalog, verified, gone);
    assert x in Distinct(VerifiedRoutes(verified), _ => true);
  }

  lemma NotGone(catalog: seq<string>, verified: seq<string>, gone: seq<string>, x: string)
    requires x in OrderedRoutes(catalog, verified, gone) && !Leads(verified, x)
    ensures x !in GoneRoutes(gone) && x !in VerifiedRoutes(verified)
  {
    OrderedMembers(catalog, verified, gone, x);
    GoneMembers(gone, x);
    VerifiedMembers(verified, x);
  }

  /** A route that does not lead is on the ladder when it is ordered and found before the ladder is full. */
  lemma OrderedOnLadder(catalog: seq<string>, verified: seq<string>, gone: seq<string>, x: string)
    requires x in catalog && !Leads(verified, x)
    ensures x in Ladder(catalog, verified, gone) <==>
              x in OrderedRoutes(catalog, verified, gone) &&
              |Ladder(catalog[..IndexOf(catalog, x)], verified, gone)| < LADDER_LENGTH
  {
    var ordered := OrderedRoutes(catalog, verified, gone);
    if x in ordered {
      NotGone(catalog, verified, gone, x);
      PlaceInOrder(catalog, verified, gone, x);
      FirstEightHolds(ordered, x, OrderedRoutes(catalog[..IndexOf(catalog, x)], verified, gone));
    } else {
      assert forall z :: z in FirstEight(ordered) ==> z in ordered;
    }
  }

  /**
   A catalog route that answered 410 is on the ladder exactly when it survives and, unless it
   leads, the catalog in front of it does not fill the ladder.
   */
  lemma GoneRouteOnLadder(catalog: seq<string>, verified: seq<string>, gone: seq<string>, x: string)
    requires x in gone && x in catalog && |verified| <= MAX_VERIFIED
    ensures x in Ladder(catalog, verified, gone) <==>
            Survives(verified, x) &&
            (Leads(verified, x) || |Ladder(catalog[..IndexOf(catalog, x)], verified, gone)| < LADDER_LENGTH)
  {
    if Leads(verified, x) {
      LeadingIsOnLadder(catalog, verified, gone, x);
    } else {
      GoneRouteOrdered(catalog, verified, gone, x);
      OrderedOnLadder(catalog, verified, gone, x);
    }
  }

  lemma FirstEightHolds(xs: seq<string>, x: string, before: seq<string>)
    requires x in xs && IndexOf(xs, x) == |before|
    ensures x in FirstEight(xs) <==> |FirstEight(before)| < LADDER_LENGTH
  {
    if |xs| > LADDER_LENGTH && x in xs[..LADDER_LENGTH] {
      var k :| 0 <= k < LADDER_LENGTH && xs[k] == x;
    }
  }

  /** An identifier with a trailing space keeps its 410 route on the ladder. */
  lemma PaddedGoneRouteStays()
    ensures "a " in Ladder(["b", "a "], ["b"], ["a "])
  {
  }

  /** A padded verified twin keeps an identifier without any white space on the ladder. */
  lemma PaddedTwinKeepsGoneRoute()
    ensures Strip("x") == "x" && "x" in Ladder(["x", "x "], ["x "], ["x"])
  {
    assert Strip("x ") == "x" && "x " in ["x "];
    GoneRouteOnLadder(["x", "x "], ["x "], ["x"], "x");
  }

  // ----- Catalogs without padding -----

  /** Identifiers as the catalog should hold them: not empty, no white space at either end. */
  predicate Stripped(ids: seq<string>) {
    forall x :: x in ids ==> x != "" && Strip(x) == x
  }

  lemma {:induction false} StripAllFixed(raw: seq<string>)
    requires Stripped(raw)
    ensures StripAll(raw) == raw
  {
    if raw == [] {
    } else {
      assert raw == [raw[0]] + raw[1..];
      assert raw[0] in raw && forall x :: x in raw[1..] ==> x in raw;
      StripAllFixed(raw[1..]);
    }
  }

  /** The promise for such catalogs: the verified routes as they are, and no 410 route. */
  ghost predicate PlainLadder(catalog: seq<string>, verified: seq<string>, gone: seq<string>, ladder: seq<string>) {
    && verified <= ladder
    && (forall x :: x in ladder ==> x in catalog && x !in gone)
    && (|ladder| < LADDER_LENGTH ==> forall x :: x in catalog && x !in gone ==> x in ladder)
  }

  lemma GoodLadderIsPlain(catalog: seq<string>, verified: seq<string>, gone: seq<string>, ladder: seq<string>)
    requires GoodLadder(catalog, verified, gone, ladder)
    requires Stripped(verified) && Stripped(gone) && NoDuplicates(verified)
    requires forall x :: x in verified ==> x in catalog && x !in gone
    ensures PlainLadder(catalog, verified, gone, ladder)
  {
    StripAllFixed(verified);
    DistinctFixed(verified, _ => true);
    assert forall x :: Leads(verified, x) <==> x in verified;
    assert forall x :: Dropped(gone, x) <==> x in gone;
  }

  /** From the probed routes to the ladder, for any catalog, and without 410 routes for a stripped one. */
  lemma LadderFromProbes(catalog: seq<string>, routes: seq<string>, reply: string -> Reply)
    requires NoDuplicates(routes) && forall x :: x in routes ==> x in catalog
    requires |Picked(routes, reply, Verified)| <= MAX_VERIFIED
    ensures var verified, gone := Picked(routes, reply, Verified), Picked(routes, reply, Gone);
            && GoodLadder(catalog, verified, gone, Ladder(catalog, verified, gone))
            && (Stripped(catalog) ==> PlainLadder(catalog, verified, gone, Ladder(catalog, verified, gone)))
  {
    var verified, gone := Picked(routes, reply, Verified), Picked(routes, reply, Gone);
    PickedMembers(routes, reply, Verified);
    PickedMembers(routes, reply, Gone);
    LadderIsGood(catalog, verified, gone);
    if Stripped(catalog) {
      GoodLadderIsPlain(catalog, verified, gone, Ladder(catalog, verified, gone));
    }
  }

  // ----- The whole preflight -----

  /** The verdicts on the first `probed` routes, in probe order, with the stop at the fourth verified. */
  ghost predicate ProbeResult(routes: seq<string>, reply: string -> Reply, probed: nat,
                              verified: seq<string>, gone: seq<string>, failures: seq<string>)
  {
    && probed <= |routes|
    && verified == Picked(routes[..probed], reply, Verified)
    && gone == Picked(routes[..probed], reply, Gone)
    && failures == Picked(routes[..probed], reply, Failed)
    && |verified| <= MAX_VERIFIED
    && (probed < |routes| ==>
          |verified| == MAX_VERIFIED && probed > 0 && Judge(reply(routes[probed - 1])) == Verified)
    && (forall x :: x in verified <==> x in routes[..probed] && reply(x).status == 200 && reply(x).hasActions)
    && (forall x :: x in gone <==> x in routes[..probed] && reply(x).status == 410)
    && (forall x :: x in failures <==> x in routes[..probed] && x !in verified && x !in gone)
  }

  lemma PickedIsProbed(routes: seq<string>, reply: string -> Reply, probed: nat)
    requires probed <= |routes| && |Picked(routes[..probed], reply, Verified)| <= MAX_VERIFIED
    requires probed < |routes| ==>
               && |Picked(routes[..probed], reply, Verified)| == MAX_VERIFIED && probed > 0
               && Judge(reply(routes[probed - 1])) == Verified
    ensures ProbeResult(routes, reply, probed, Picked(routes[..probed], reply, Verified),
                        Picked(routes[..probed], reply, Gone), Picked(routes[..probed], reply, Failed))
  {
    PickedMembers(routes[..probed], reply, Verified);
    PickedMembers(routes[..probed], reply, Gone);
    PickedMembers(routes[..probed], reply, Failed);
  }

  lemma LadderFromPrefix(catalog: seq<string>, routes: seq<string>, reply: string -> Reply, probed: nat)
    requires NoDuplicates(routes) && (forall x :: x in routes ==> x in catalog)
    requires probed <= |routes| && |Picked(routes[..probed], reply, Verified)| <= MAX_VERIFIED
    ensures var verified, gone := Picked(routes[..probed], reply, Verified), Picked(routes[..probed], reply, Gone);
            && GoodLadder(catalog, verified, gone, Ladder(catalog, verified, gone))
            && (Stripped(catalog) ==> PlainLadder(catalog, verified, gone, Ladder(catalog, verified, gone)))
  {
    assert forall x :: x in routes[..probed] ==> x in routes;
    LadderFromProbes(catalog, routes[..probed], reply);
  }

  method ProbeAndRank(catalog: seq<string>, routes: seq<string>, reply: string -> Reply)
    returns (ready: bool, verified: seq<string>, gone: seq<string>, failures: seq<string>,
             ladder: seq<string>, probed: nat)
    requires NoDuplicates(routes) && forall x :: x in routes ==> x in catalog
    ensures ready <==> verified != []
    ensures ProbeResult(routes, reply, probed, verified, gone, failures)
    ensures ladder == if ready then Ladder(catalog, verified, gone) else []
    ensures ready ==> GoodLadder(catalog, verified, gone, ladder)
    ensures ready && Stripped(catalog) ==> PlainLadder(catalog, verified, gone, ladder)
  {
    verified, gone, failures, probed := ProbeLoop(routes, reply);
    ready := verified != [];
    ladder := if ready then Ladder(catalog, verified, gone) else [];
    PickedIsProbed(routes, reply, probed);
    LadderFromPrefix(catalog, routes, reply, probed);
  }

  /** From the catalog to the ladder. */
  method RunPreflight(g: Gateway)
    returns (ready: bool, verified: seq<string>, gone: seq<string>, failures: seq<string>,
             ladder: seq<string>, probed: nat)
    ensures Probes(g, ProbeRoutes(g))
    ensures ready <==> verified != []
    ensures ProbeResult(ProbeRoutes(g), g.reply, probed, verified, gone, failures)
    ensures ladder == if ready then Ladder(g.catalog, verified, gone) else []
    ensures ready ==> GoodLadder(g.catalog, verified, gone, ladder)
    ensures ready && Stripped(g.catalog) ==> PlainLadder(g.catalog, verified, gone, ladder)
  {
    ProbeRoutesBounded(g);
    ProbedRoutes(g);
    ready, verified, gone, failures, ladder, probed := ProbeAndRank(g.catalog, ProbeRoutes(g), g.reply);
  }
}
