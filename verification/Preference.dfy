/** Which credential the scheduler selects when nobody interferes, in the fields of the
    credentials and the counts read (internal/scheduler/scheduler.go). */
module Preference {
  import opened Text
  import opened Wrappers
  import opened Eligibility
  import opened Ordering
  import opened Selection
  import RoundRobin
  import Leases

  // ----- the order in fields

  // An organization's own credentials, the ones it keeps as a fallback set apart.
  ghost predicate Own(c: Credential) { c.owner == CUSTOMER && c.prioritySection != "FALLBACK" }

  ghost predicate Fallback(c: Credential) { c.owner == CUSTOMER && c.prioritySection == "FALLBACK" }

  /** Own credentials come before shared ones, and those before the fallback. */
  ghost predicate NoLaterClass(x: Credential, y: Credential) {
    (Own(y) ==> Own(x)) && (y.owner != CUSTOMER ==> !Fallback(x))
  }

  ghost predicate SameClass(x: Credential, y: Credential) {
    (Own(x) <==> Own(y)) && (Fallback(x) <==> Fallback(y))
  }

  // An effective priority or weight that is set replaces the credential's own.
  ghost function PriorityOf(c: Credential): int { if c.effectivePriority != 0 then c.effectivePriority else c.priority }

  ghost function WeightOf(c: Credential): int { if c.effectiveWeight > 0 then c.effectiveWeight else c.weight }

  ghost function Settled(c: Credential): Credential {
    c.(effectiveWeight := WeightOf(c), effectivePriority := PriorityOf(c))
  }

  ghost function Slots(c: Credential): int { if c.maxConcurrency > 1 then c.maxConcurrency else 1 }

  // Lower share of slots in use, then higher priority, then smaller id.
  ghost predicate LessLoaded(x: Credential, a: nat, y: Credential, b: nat) {
    || a * Slots(y) < b * Slots(x)
    || (&& a * Slots(y) == b * Slots(x)
        && (|| PriorityOf(x) > PriorityOf(y)
            || (PriorityOf(x) == PriorityOf(y) && !Less(y.id, x.id))))
  }

  // Higher priority, then more weight for each request it would then serve, then smaller id.
  ghost predicate HigherRanked(x: Credential, a: nat, y: Credential, b: nat) {
    || PriorityOf(x) > PriorityOf(y)
    || (&& PriorityOf(x) == PriorityOf(y)
        && (|| WeightOf(x) * (b + 1) > WeightOf(y) * (a + 1)
            || (WeightOf(x) * (b + 1) == WeightOf(y) * (a + 1) && !Less(y.id, x.id))))
  }

  ghost predicate Preferred(policy: Policy, x: Credential, a: nat, y: Credential, b: nat) {
    && NoLaterClass(x, y)
    && (SameClass(x, y) ==> if policy.LeastLoaded? then LessLoaded(x, a, y, b) else HigherRanked(x, a, y, b))
  }

  lemma Ratios(a: int, m: int, b: int, n: int)
    requires m > 0 && n > 0
    ensures a as real / m as real < b as real / n as real <==> a * n < b * m
    ensures a as real / m as real == b as real / n as real <==> a * n == b * m
  {
    var x, y, u, v := a as real, b as real, m as real, n as real;
    CrossMultiplied(x, u, y, v);
    assert x * v == (a * n) as real && y * u == (b * m) as real;
  }

  lemma CrossMultiplied(x: real, u: real, y: real, v: real)
    requires u > 0.0 && v > 0.0
    ensures x / u < y / v <==> x * v < y * u
    ensures x / u == y / v <==> x * v == y * u
  {
    var p, q := x / u, y / v;
    assert x == p * u && y == q * v;
    Scaled(p, q, u * v);
    assert x * v == p * (u * v) && y * u == q * (u * v);
  }

  lemma Scaled(p: real, q: real, k: real)
    requires k > 0.0
    ensures p < q <==> p * k < q * k
    ensures p == q <==> p * k == q * k
  {}

  lemma TiersAreClasses(x: Credential, a: nat, y: Credential, b: nat)
    ensures RankOf(x, a).tier >= RankOf(y, b).tier <==> NoLaterClass(x, y)
    ensures RankOf(x, a).tier == RankOf(y, b).tier <==> SameClass(x, y)
  {}

  /** The comparators, in fields: y does not come before x exactly when x is preferred. */
  lemma NotBeforeIffPreferred(policy: Policy, x: Credential, a: nat, y: Credential, b: nat)
    ensures !Before(policy, RankOf(y, b), RankOf(x, a)) <==> Preferred(policy, x, a, y, b)
  {
    TiersAreClasses(x, a, y, b);
    Ratios(a, Slots(x), b, Slots(y));
    Ratios(WeightOf(x), a + 1, WeightOf(y), b + 1);
  }

  // ----- the rules in fields

  // A filter list names the value: none is set, or one is the value up to case and outer space.
  ghost predicate Names(filters: seq<string>, value: string) {
    filters == [] || exists i | 0 <= i < |filters| :: SameButCase(TrimSpace(filters[i]), TrimSpace(value))
  }

  lemma FilterIffNames(filters: seq<string>, value: string)
    ensures Filter(filters, value) <==> Names(filters, value)
  {
    forall i | 0 <= i < |filters|
      ensures Normal(filters[i]) == Normal(value) <==> SameButCase(TrimSpace(filters[i]), TrimSpace(value))
    {
      NormalSame(filters[i], value);
    }
  }

  // An own credential, meant for this caller, that keeps the request off shared capacity.
  ghost predicate Vetoes(c: Credential, k: Constraints, organization: string) {
    && c.owner == CUSTOMER && c.ownerOrganization == Some(organization)
    && Names(c.apiKeyFilters, k.apiKey) && Names(c.memberFilters, k.member)
    && (|| c.sharedCapacityFallback == "NEVER"
        || (c.sharedCapacityFallback == "OUTSIDE_FILTERS" && Names(c.modelFilters, k.model)))
  }

  lemma ForbidsIffVetoes(c: Credential, k: Constraints, organization: string)
    ensures Forbids(c, k, organization) <==> Vetoes(c, k, organization)
  {
    FilterIffNames(c.apiKeyFilters, k.apiKey);
    FilterIffNames(c.memberFilters, k.member);
    FilterIffNames(c.modelFilters, k.model);
  }

  // Shared capacity is open to the request.
  ghost predicate SharedOpen(q: Request) {
    && q.constraints.useSharedCapacity != Some(false)
    && forall j | 0 <= j < |q.candidates| :: !Vetoes(q.candidates[j], q.constraints, q.organization)
  }

  lemma BlockedIffNotOpen(q: Request)
    ensures SharedBlocked(q.candidates, q.constraints, q.organization) <==> !SharedOpen(q)
  {
    forall j | 0 <= j < |q.candidates|
      ensures Forbids(q.candidates[j], q.constraints, q.organization) <==>
              Vetoes(q.candidates[j], q.constraints, q.organization)
    {
      ForbidsIffVetoes(q.candidates[j], q.constraints, q.organization);
    }
  }

  /** Another tenant's credential is out of reach, shared capacity must be open, all three filters
      must name the request, and tags must be there or not as asked. */
  ghost predicate MayUse(q: Request, c: Credential) {
    var k := q.constraints;
    && (c.organization.None? || c.organization == Some(q.organization))
    && (c.owner == CUSTOMER ==> c.ownerOrganization == Some(q.organization))
    && (c.owner == PLATFORM ==> SharedOpen(q))
    && Names(c.apiKeyFilters, k.apiKey) && Names(c.memberFilters, k.member) && Names(c.modelFilters, k.model)
    && (forall t | t in k.requiredTags :: t in c.tags) && (forall t | t in k.excludedTags :: t !in c.tags)
  }

  lemma AdmitsIffMayUse(q: Request, i: nat)
    requires i < |q.candidates|
    ensures Admits(q, i) <==> MayUse(q, q.candidates[i])
  {
    var c, k := q.candidates[i], q.constraints;
    BlockedIffNotOpen(q);
    FilterIffNames(c.apiKeyFilters, k.apiKey);
    FilterIffNames(c.memberFilters, k.member);
    FilterIffNames(c.modelFilters, k.model);
    assert TagsMatch(c.tags, k.requiredTags, k.excludedTags) <==>
           (forall t | t in k.requiredTags :: t in c.tags) && (forall t | t in k.excludedTags :: t !in c.tags);
  }

  /** Whatever other clients do, the selected credential is one of the candidates, one the request
      may use, with its weight and priority settled. */
  lemma SelectedMayBeUsed(q: Request, s: Service) returns (i: nat)
    requires Select(q, s).Selected?
    ensures i < |q.candidates| && MayUse(q, q.candidates[i]) && Select(q, s).credential == Settled(q.candidates[i])
  {
    var a: nat, k: nat;
    i, a, k := SelectedIsUsable(q, s);
    AdmitsIffMayUse(q, i);
  }

  // ----- the selected credential

  // Nobody usable is of an earlier class, or in the same class of a higher priority.
  ghost predicate InFront(q: Request, s: Service, x: Credential) {
    forall j: nat, b: nat | Usable(q, s, j, b) ::
      var y := q.candidates[j];
      NoLaterClass(x, y) && (SameClass(x, y) ==> PriorityOf(x) >= PriorityOf(y))
  }

  /** Without interference the selected credential is preferred to every usable one. Under
      round robin that holds of class and priority, and of the whole order when the counter
      service offers no rotation. */
  lemma SelectedIsPreferred(q: Request, s: Service, counters: Leases.Counters, scores: RoundRobin.Scores)
    returns (i: nat, a: nat)
    requires Quiet(q, s, counters, scores) && Select(q, s).Selected?
    ensures Usable(q, s, i, a) && Select(q, s).credential == Settled(q.candidates[i])
    ensures !(q.policy.WeightedRoundRobin? && s.chooser.Some?) ==>
              forall j: nat, b: nat | Usable(q, s, j, b) :: Preferred(q.policy, q.candidates[i], a, q.candidates[j], b)
    ensures q.policy.WeightedRoundRobin? ==> InFront(q, s, q.candidates[i])
  {
    var top := SelectsTheFirst(q, s, counters, scores);
    i, a :| Usable(q, s, i, a) && top == RankOf(q.candidates[i], a);
    forall j: nat, b: nat | Usable(q, s, j, b)
      ensures !(q.policy.WeightedRoundRobin? && s.chooser.Some?) ==>
                Preferred(q.policy, q.candidates[i], a, q.candidates[j], b)
      ensures q.policy.WeightedRoundRobin? ==>
                var x, y := q.candidates[i], q.candidates[j];
                NoLaterClass(x, y) && (SameClass(x, y) ==> PriorityOf(x) >= PriorityOf(y))
    {
      NotBeforeIffPreferred(q.policy, q.candidates[i], a, q.candidates[j], b);
      TiersAreClasses(q.candidates[i], a, q.candidates[j], b);
      if q.policy.WeightedRoundRobin? { assert Foremost(top, RankOf(q.candidates[j], b)); }
    }
  }

  // ----- what the rotation is offered

  // The candidates handed to the round robin.
  ghost function OfferOf(q: Request, s: Service): seq<RoundRobin.Candidate> {
    var ranking := Ranking(q, s, |q.candidates|);
    if ranking.Unavailable? || ranking.value == [] then []
    else
      var sorted := Sort(q.policy, ranking.value);
      if sorted == [] then [] else Weighted(sorted, BlockLength(sorted, 1))
  }

  // The credential at j is usable and nobody usable comes before it in class and priority.
  ghost predicate InRotation(q: Request, s: Service, j: nat) {
    exists b: nat :: Usable(q, s, j, b) && InFront(q, s, q.candidates[j])
  }

  // Offered as it is entered in the rotation: its id and its settled weight.
  ghost function Entry(c: Credential): RoundRobin.Candidate { RoundRobin.Candidate(c.id, WeightOf(c)) }

  lemma BlockIsLeading(sorted: seq<Ranked>, p: nat)
    requires Descending(sorted) && p < |sorted|
    ensures p < BlockLength(sorted, 1) <==> SameBlock(sorted[p], sorted[0])
  {
    var m := BlockLength(sorted, 1);
    if m <= p { assert !SameBlock(sorted[m], sorted[0]); }
  }

  lemma ForemostIsInFront(q: Request, s: Service, top: Ranked, j: nat, b: nat)
    requires Listed(q, s, top) && Usable(q, s, j, b)
    requires forall k: nat, d: nat | Usable(q, s, k, d) :: Foremost(top, RankOf(q.candidates[k], d))
    ensures SameBlock(RankOf(q.candidates[j], b), top) <==> InFront(q, s, q.candidates[j])
  {
    var x, r := q.candidates[j], RankOf(q.candidates[j], b);
    assert Foremost(top, r);
    if SameBlock(r, top) {
      forall k: nat, d: nat | Usable(q, s, k, d)
        ensures var y := q.candidates[k]; NoLaterClass(x, y) && (SameClass(x, y) ==> PriorityOf(x) >= PriorityOf(y))
      {
        assert Foremost(top, RankOf(q.candidates[k], d));
        TiersAreClasses(x, b, q.candidates[k], d);
      }
    } else {
      var k: nat, d: nat :| Usable(q, s, k, d) && top == RankOf(q.candidates[k], d);
      TiersAreClasses(x, b, q.candidates[k], d);
    }
  }

  // The candidates in order of the sort, when some are usable.
  lemma SortedListed(q: Request, s: Service) returns (sorted: seq<Ranked>)
    requires q.policy.WeightedRoundRobin? && Ranking(q, s, |q.candidates|).Answer?
    ensures sorted == Sort(q.policy, Ranking(q, s, |q.candidates|).value)
    ensures forall r :: r in sorted <==> Listed(q, s, r)
    ensures Descending(sorted)
    ensures sorted != [] ==> forall r | r in sorted :: Foremost(sorted[0], r)
    ensures OfferOf(q, s) == if sorted == [] then [] else Weighted(sorted, BlockLength(sorted, 1))
  {
    var list := Ranking(q, s, |q.candidates|).value;
    sorted := Sort(q.policy, list);
    SortSorts(q.policy, list);
    RankingListsUsable(q, s, |q.candidates|);
    assert forall r :: r in sorted <==> r in multiset(sorted);
    assert forall r :: r in list <==> r in multiset(list);
    SortedDescends(q.policy, sorted);
    if sorted != [] { SortedFirst(q.policy, sorted); }
  }

  lemma OfferedInRotation(q: Request, s: Service, p: nat) returns (j: nat)
    requires q.policy.WeightedRoundRobin? && Ranking(q, s, |q.candidates|).Answer? && p < |OfferOf(q, s)|
    ensures InRotation(q, s, j) && OfferOf(q, s)[p] == Entry(q.candidates[j])
  {
    var sorted := SortedListed(q, s);
    assert Listed(q, s, sorted[p]) && Listed(q, s, sorted[0]);
    var b: nat;
    j, b :| Usable(q, s, j, b) && sorted[p] == RankOf(q.candidates[j], b);
    BlockIsLeading(sorted, p);
    AllBehind(q, s, sorted);
    ForemostIsInFront(q, s, sorted[0], j, b);
  }

  lemma AllBehind(q: Request, s: Service, sorted: seq<Ranked>)
    requires sorted != [] && (forall r :: r in sorted <==> Listed(q, s, r))
    requires forall r | r in sorted :: Foremost(sorted[0], r)
    ensures forall k: nat, d: nat | Usable(q, s, k, d) :: Foremost(sorted[0], RankOf(q.candidates[k], d))
  {
    assert forall k: nat, d: nat | Usable(q, s, k, d) :: RankOf(q.candidates[k], d) in sorted;
  }

  lemma InRotationOffered(q: Request, s: Service, j: nat)
    requires q.policy.WeightedRoundRobin? && Ranking(q, s, |q.candidates|).Answer? && InRotation(q, s, j)
    ensures Entry(q.candidates[j]) in OfferOf(q, s)
  {
    var sorted := SortedListed(q, s);
    var b: nat :| Usable(q, s, j, b) && InFront(q, s, q.candidates[j]);
    assert Listed(q, s, RankOf(q.candidates[j], b));
    var p :| 0 <= p < |sorted| && sorted[p] == RankOf(q.candidates[j], b);
    AllBehind(q, s, sorted);
    ForemostIsInFront(q, s, sorted[0], j, b);
    BlockIsLeading(sorted, p);
    assert OfferOf(q, s)[p] == Entry(q.candidates[j]);
  }

  /** The rotation is over exactly the usable credentials of the foremost class and priority,
      at their settled weights. */
  lemma OfferIsRotation(q: Request, s: Service, w: RoundRobin.Candidate)
    requires q.policy.WeightedRoundRobin? && Ranking(q, s, |q.candidates|).Answer?
    ensures w in OfferOf(q, s) <==> exists j: nat :: InRotation(q, s, j) && w == Entry(q.candidates[j])
  {
    if w in OfferOf(q, s) {
      var p :| 0 <= p < |OfferOf(q, s)| && OfferOf(q, s)[p] == w;
      var j := OfferedInRotation(q, s, p);
    }
    if j: nat :| InRotation(q, s, j) && w == Entry(q.candidates[j]) { InRotationOffered(q, s, j); }
  }

  // ----- rotation over many selections

  ghost predicate DistinctIds(list: seq<Ranked>) {
    forall i, j | 0 <= i < j < |list| :: list[i].c.id != list[j].c.id
  }

  lemma {:induction false} InsertDistinct(policy: Policy, x: Ranked, list: seq<Ranked>)
    requires DistinctIds(list) && forall r | r in list :: r.c.id != x.c.id
    ensures DistinctIds(Insert(policy, x, list))
  {
    if list != [] && Before(policy, list[0], x) {
      var rest, out := list[1..], Insert(policy, x, list[1..]);
      InsertDistinct(policy, x, rest);
      InsertKeeps(policy, x, rest);
      forall j | 0 <= j < |out| ensures out[j].c.id != list[0].c.id {
        assert out[j] in multiset(rest) + multiset{x};
      }
    }
  }

  lemma {:induction false} SortDistinct(policy: Policy, list: seq<Ranked>)
    requires DistinctIds(list)
    ensures DistinctIds(Sort(policy, list))
  {
    if list != [] {
      var rest := list[1..];
      SortDistinct(policy, rest);
      SortSorts(policy, rest);
      forall r | r in Sort(policy, rest) ensures r.c.id != list[0].c.id { assert r in multiset(rest); }
      InsertDistinct(policy, list[0], Sort(policy, rest));
    }
  }

  ghost predicate DistinctCandidates(q: Request) {
    forall i, j | 0 <= i < j < |q.candidates| :: q.candidates[i].id != q.candidates[j].id
  }

  lemma {:induction false} RankingDistinct(q: Request, s: Service, n: nat)
    requires DistinctCandidates(q) && n <= |q.candidates| && Ranking(q, s, n).Answer?
    ensures DistinctIds(Ranking(q, s, n).value)
    ensures forall r | r in Ranking(q, s, n).value :: exists i | 0 <= i < n :: q.candidates[i].id == r.c.id
  {
    if n > 0 {
      RankingDistinct(q, s, n - 1);
      var list := Ranking(q, s, n).value;
      forall r | r in list ensures exists i | 0 <= i < n :: q.candidates[i].id == r.c.id {
        if r !in Ranking(q, s, n - 1).value { assert q.candidates[n - 1].id == r.c.id; }
      }
    }
  }

  lemma OfferDistinct(q: Request, s: Service)
    requires q.policy.WeightedRoundRobin? && Ranking(q, s, |q.candidates|).Answer? && DistinctCandidates(q)
    ensures RoundRobin.Distinct(OfferOf(q, s))
  {
    RankingDistinct(q, s, |q.candidates|);
    SortDistinct(q.policy, Ranking(q, s, |q.candidates|).value);
  }

  lemma SameMembersReorder(a: seq<RoundRobin.Candidate>, b: seq<RoundRobin.Candidate>)
    requires RoundRobin.Distinct(a) && RoundRobin.Distinct(b) && forall w :: w in a <==> w in b
    ensures RoundRobin.Reorders(a, b)
  {
    forall w ensures multiset(a)[w] == multiset(b)[w] {
      RoundRobin.TimesListed(a, w);
      RoundRobin.TimesListed(b, w);
      assert w in multiset(a) <==> w in a;
      assert w in multiset(b) <==> w in b;
    }
  }

  // What each selection of a series offers to the rotation.
  ghost function Offers(q: Request, services: seq<Service>): (offers: seq<seq<RoundRobin.Candidate>>)
    ensures |offers| == |services|
  {
    seq(|services|, t requires 0 <= t < |services| => OfferOf(q, services[t]))
  }

  // Selection t finds some set of counters and the score hash as the selections before it left
  // it, has a choice of at least two, and selects the credential `picked[t]`.
  ghost predicate Turn(q: Request, services: seq<Service>, counters: seq<Leases.Counters>, picked: seq<string>, t: nat)
    requires t < |services| == |counters| == |picked|
  {
    && services[t].chooser.Some?
    && Quiet(q, services[t], counters[t], RoundRobin.Scored(Offers(q, services), t))
    && FinalOrder(q, services[t]).Answer? && |FinalOrder(q, services[t]).value| > 1
    && Select(q, services[t]).Selected? && Select(q, services[t]).credential.id == picked[t]
  }

  /** Selections one after the other, requests starting and ending in between at will. */
  ghost predicate Series(q: Request, services: seq<Service>, counters: seq<Leases.Counters>, picked: seq<string>) {
    |picked| == |counters| == |services| && forall t: nat | t < |services| :: Turn(q, services, counters, picked, t)
  }

  ghost predicate SameRotation(q: Request, s: Service, s': Service) {
    forall j: nat :: InRotation(q, s, j) <==> InRotation(q, s', j)
  }

  ghost predicate AsAtFirst(q: Request, services: seq<Service>, t: nat)
    requires t < |services|
  {
    SameRotation(q, services[t], services[0])
  }

  /** The same credentials are in rotation throughout. */
  ghost predicate Steady(q: Request, services: seq<Service>) {
    forall t: nat | t < |services| :: AsAtFirst(q, services, t)
  }

  lemma SelectedByRotation(q: Request, s: Service, counters: Leases.Counters, scores: RoundRobin.Scores)
    requires Quiet(q, s, counters, scores) && q.policy.WeightedRoundRobin? && s.chooser.Some?
    requires FinalOrder(q, s).Answer? && |FinalOrder(q, s).value| > 1
    ensures Select(q, s).Selected? && Select(q, s).credential.id == RoundRobin.Choose(scores, OfferOf(q, s)).1
  {
    QuietOrder(q, s, counters, scores);
    var top := SelectsTheFirst(q, s, counters, scores);
  }

  lemma OffersReorder(q: Request, s: Service, s': Service)
    requires q.policy.WeightedRoundRobin? && DistinctCandidates(q)
    requires Ranking(q, s, |q.candidates|).Answer? && Ranking(q, s', |q.candidates|).Answer?
    requires SameRotation(q, s, s')
    ensures RoundRobin.Reorders(OfferOf(q, s), OfferOf(q, s'))
  {
    OfferDistinct(q, s);
    OfferDistinct(q, s');
    forall w ensures w in OfferOf(q, s) <==> w in OfferOf(q, s') {
      OfferIsRotation(q, s, w);
      OfferIsRotation(q, s', w);
    }
    SameMembersReorder(OfferOf(q, s), OfferOf(q, s'));
  }

  lemma OffersAllReorder(q: Request, services: seq<Service>, counters: seq<Leases.Counters>, picked: seq<string>)
    requires q.policy.WeightedRoundRobin? && DistinctCandidates(q) && services != []
    requires Series(q, services, counters, picked) && Steady(q, services)
    ensures RoundRobin.AllReorder(Offers(q, services), OfferOf(q, services[0]))
  {
    var offers := Offers(q, services);
    forall t: nat | t < |offers| ensures RoundRobin.Reorders(offers[t], OfferOf(q, services[0])) {
      assert Turn(q, services, counters, picked, t) && Turn(q, services, counters, picked, 0);
      assert AsAtFirst(q, services, t);
      OffersReorder(q, services[t], services[0]);
    }
  }

  lemma SelectionIsPick(q: Request, services: seq<Service>, counters: seq<Leases.Counters>, picked: seq<string>, t: nat)
    requires q.policy.WeightedRoundRobin? && Series(q, services, counters, picked) && t < |services|
    ensures RoundRobin.PickedAt(Offers(q, services), picked, t)
  {
    assert Turn(q, services, counters, picked, t);
    SelectedByRotation(q, services[t], counters[t], RoundRobin.Scored(Offers(q, services), t));
  }

  lemma SelectionsArePicks(q: Request, services: seq<Service>, counters: seq<Leases.Counters>, picked: seq<string>,
                           m: nat)
    requires q.policy.WeightedRoundRobin? && Series(q, services, counters, picked) && m <= |services|
    ensures picked[..m] == RoundRobin.Picks(Offers(q, services), m)
  {
    var offers := Offers(q, services);
    forall t: nat | t < m ensures RoundRobin.PickedAt(offers, picked, t) {
      SelectionIsPick(q, services, counters, picked, t);
    }
    RoundRobin.PickedIsPicks(offers, picked, m);
  }

  lemma EntryOffered(q: Request, s: Service, j: nat) returns (i: nat)
    requires q.policy.WeightedRoundRobin? && FinalOrder(q, s).Answer? && DistinctCandidates(q) && InRotation(q, s, j)
    ensures i < |OfferOf(q, s)| && OfferOf(q, s)[i] == Entry(q.candidates[j])
    ensures RoundRobin.Distinct(OfferOf(q, s))
  {
    InRotationOffered(q, s, j);
    i :| i < |OfferOf(q, s)| && OfferOf(q, s)[i] == Entry(q.candidates[j]);
    OfferDistinct(q, s);
  }

  lemma FairPicks(q: Request, services: seq<Service>, counters: seq<Leases.Counters>, picked: seq<string>, k: nat,
                  total: nat, j: nat)
    requires q.policy.WeightedRoundRobin? && DistinctCandidates(q)
    requires Series(q, services, counters, picked) && Steady(q, services)
    requires services != [] && InRotation(q, services[0], j)
    requires total == RoundRobin.WeightSum(RoundRobin.Lifted(OfferOf(q, services[0]))) && k + total <= |services|
    ensures var c := q.candidates[j];
            RoundRobin.Count(RoundRobin.Picks(Offers(q, services), k + total)[k..], c.id) ==
            if WeightOf(c) >= 1 then WeightOf(c) else 1
  {
    assert Turn(q, services, counters, picked, 0);
    var i := EntryOffered(q, services[0], j);
    OffersAllReorder(q, services, counters, picked);
    RoundRobin.EveryWindowIsFair(OfferOf(q, services[0]), Offers(q, services), total, k, i);
  }

  /** The rotation over credentials: while the same ones stay in front, however requests start
      and end in between, every stretch of as many selections as their settled weights sum to
      selects each exactly its settled weight times, a weight below 1 counting as 1. */
  lemma RotationIsFair(q: Request, services: seq<Service>, counters: seq<Leases.Counters>, picked: seq<string>,
                       k: nat, total: nat, j: nat)
    requires q.policy.WeightedRoundRobin? && DistinctCandidates(q)
    requires Series(q, services, counters, picked) && Steady(q, services)
    requires services != [] && InRotation(q, services[0], j)
    requires total == RoundRobin.WeightSum(RoundRobin.Lifted(OfferOf(q, services[0]))) && k + total <= |services|
    ensures RoundRobin.Count(picked[k..k + total], q.candidates[j].id) ==
            if WeightOf(q.candidates[j]) >= 1 then WeightOf(q.candidates[j]) else 1
  {
    FairPicks(q, services, counters, picked, k, total, j);
    SelectionsArePicks(q, services, counters, picked, k + total);
    assert picked[k..k + total] == picked[..k + total][k..];
  }
}
