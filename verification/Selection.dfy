/** Choosing and leasing a credential: SelectConstrainedForOrganization of
    internal/scheduler/scheduler.go. What the counter service answers, between and under
    the steps of other clients, is a parameter. */
module Selection {
  import opened Eligibility
  import opened Ordering
  import opened Wrappers
  import RoundRobin
  import Leases

  datatype Reply<+T> = Answer(value: T) | Unavailable

  datatype Slot = Slot(granted: bool, active: int)

  /** The answers of the state service: the active count of the i-th candidate, the
      round-robin choice if the service offers one, and the slot request for position p of
      the final order. */
  datatype Service = Service(
    active: nat -> Reply<nat>,
    chooser: Option<seq<RoundRobin.Candidate> -> Reply<string>>,
    acquire: nat -> Reply<Slot>)

  datatype Outcome = Selected(credential: Credential, active: int) | NoCredential | StateUnavailable

  // One selection request.
  datatype Request = Request(candidates: seq<Credential>, policy: Policy, constraints: Constraints,
                             organization: string)

  // ----- the stages, as functions

  ghost predicate Admits(q: Request, i: nat)
    requires i < |q.candidates|
  {
    Eligible(q.candidates[i], q.constraints, q.organization, SharedBlocked(q.candidates, q.constraints, q.organization))
  }

  ghost function Ranking(q: Request, s: Service, n: nat): Reply<seq<Ranked>>
    requires n <= |q.candidates|
  {
    if n == 0 then Answer([])
    else
      match Ranking(q, s, n - 1)
      case Unavailable => Unavailable
      case Answer(list) =>
        if !Admits(q, n - 1) then Answer(list)
        else
          match s.active(n - 1)
          case Unavailable => Unavailable
          case Answer(a) =>
            var c := q.candidates[n - 1];
            Answer(if a >= c.maxConcurrency then list else list + [RankOf(c, a)])
  }

  function Arrange(policy: Policy, list: seq<Ranked>, s: Service): Reply<seq<Ranked>> {
    var sorted := Sort(policy, list);
    if policy.WeightedRoundRobin? && |sorted| > 1 && s.chooser.Some? then
      match s.chooser.value(Weighted(sorted, BlockLength(sorted, 1)))
      case Unavailable => Unavailable
      case Answer(id) => Answer(Swapped(sorted, id))
    else Answer(sorted)
  }

  function FirstGranted(list: seq<Ranked>, s: Service, p: nat): Outcome
    requires p <= |list|
    decreases |list| - p
  {
    if p == |list| then NoCredential
    else
      match s.acquire(p)
      case Unavailable => StateUnavailable
      case Answer(slot) => if slot.granted then Selected(list[p].c, slot.active) else FirstGranted(list, s, p + 1)
  }

  // The order in which slots are requested.
  ghost function FinalOrder(q: Request, s: Service): Reply<seq<Ranked>> {
    match Ranking(q, s, |q.candidates|)
    case Unavailable => Unavailable
    case Answer(list) => Arrange(q.policy, list, s)
  }

  ghost function Select(q: Request, s: Service): Outcome {
    match FinalOrder(q, s)
    case Unavailable => StateUnavailable
    case Answer(list) => FirstGranted(list, s, 0)
  }

  // The loop over the candidates.
  method RankCandidates(q: Request, s: Service) returns (ranking: Reply<seq<Ranked>>)
    ensures ranking == Ranking(q, s, |q.candidates|)
  {
    var blocked := BlockShared(q.candidates, q.constraints, q.organization);
    var list: seq<Ranked> := [];
    for i := 0 to |q.candidates|
      invariant Ranking(q, s, i) == Answer(list)
    {
      var c := q.candidates[i];
      var eligible := IsEligible(c, q.constraints, q.organization, blocked);
      assert eligible <==> Admits(q, i);
      if !eligible {
        continue;
      }
      match s.active(i) {
        case Unavailable =>
          RankingFails(q, s, i + 1, |q.candidates|);
          return Unavailable;
        case Answer(active) =>
          if active >= c.maxConcurrency {
            continue;
          }
          list := list + [RankOf(c, active)];
      }
    }
    return Answer(list);
  }

  // The sort, and the swap that brings the round-robin choice to the front.
  method ArrangeCandidates(policy: Policy, ranked: seq<Ranked>, s: Service) returns (order: Reply<seq<Ranked>>)
    ensures order == Arrange(policy, ranked, s)
  {
    var list := Sort(policy, ranked);
    if policy.WeightedRoundRobin? && |list| > 1 && s.chooser.Some? {
      match s.chooser.value(Weighted(list, BlockLength(list, 1))) {
        case Unavailable => return Unavailable;
        case Answer(chosen) =>
          var index := 0;
          while index < |list| && list[index].c.id != chosen
            invariant 0 <= index <= |list|
            invariant forall j | 0 <= j < index :: list[j].c.id != chosen
          {
            index := index + 1;
          }
          assert index == IndexOf(list, chosen);
          if index < |list| {
            list := list[0 := list[index]][index := list[0]];
          }
      }
    }
    return Answer(list);
  }

  /** The scheduler's loops select what `Select` says. */
  method SelectConstrainedForOrganization(
    candidates: seq<Credential>, requestedPolicy: string, constraints: Constraints, organization: string, s: Service)
    returns (outcome: Outcome)
    ensures requestedPolicy == "least_loaded" ==>
              outcome == Select(Request(candidates, LeastLoaded, constraints, organization), s)
    ensures requestedPolicy == "weighted_round_robin" ==>
              outcome == Select(Request(candidates, WeightedRoundRobin, constraints, organization), s)
    ensures requestedPolicy != "least_loaded" && requestedPolicy != "weighted_round_robin" ==>
              outcome == Select(Request(candidates, PriorityWeighted, constraints, organization), s)
  {
    var q := Request(candidates, PolicyOf(requestedPolicy), constraints, organization);
    if |candidates| == 0 {
      return NoCredential;
    }
    var ranking := RankCandidates(q, s);
    if ranking.Unavailable? {
      return StateUnavailable;
    }
    var order := ArrangeCandidates(q.policy, ranking.value, s);
    if order.Unavailable? {
      return StateUnavailable;
    }
    var list := order.value;
    for p := 0 to |list|
      invariant FirstGranted(list, s, 0) == FirstGranted(list, s, p)
    {
      match s.acquire(p) {
        case Unavailable => return StateUnavailable;
        case Answer(slot) =>
          if slot.granted {
            return Selected(list[p].c, slot.active);
          }
      }
    }
    return NoCredential;
  }

  lemma {:induction false} RankingFails(q: Request, s: Service, n: nat, m: nat)
    requires n <= m <= |q.candidates| && Ranking(q, s, n).Unavailable?
    ensures Ranking(q, s, m).Unavailable?
  {
    if n < m { RankingFails(q, s, n, m - 1); }
  }

  // ----- what a selection guarantees, whatever other clients do

  // The i-th candidate passed every rule and read `a` active below its maximum.
  ghost predicate Usable(q: Request, s: Service, i: nat, a: nat) {
    i < |q.candidates| && Admits(q, i) && s.active(i) == Answer(a) && a < q.candidates[i].maxConcurrency
  }

  ghost predicate Listed(q: Request, s: Service, r: Ranked) {
    exists i: nat, a: nat | Usable(q, s, i, a) :: r == RankOf(q.candidates[i], a)
  }

  lemma {:induction false} RankingListsUsable(q: Request, s: Service, n: nat)
    requires n <= |q.candidates| && Ranking(q, s, n).Answer?
    ensures forall r | r in Ranking(q, s, n).value :: Listed(q, s, r)
    ensures forall i: nat, a: nat | i < n && Usable(q, s, i, a) :: RankOf(q.candidates[i], a) in Ranking(q, s, n).value
  {
    if n > 0 {
      RankingListsUsable(q, s, n - 1);
      var list := Ranking(q, s, n).value;
      forall r | r in list
        ensures Listed(q, s, r)
      {
        if r !in Ranking(q, s, n - 1).value {
          var a := s.active(n - 1).value;
          assert Usable(q, s, n - 1, a);
        }
      }
    }
  }

  /** Ordering loses and invents nobody. */
  lemma ArrangeKeeps(policy: Policy, list: seq<Ranked>, s: Service)
    requires Arrange(policy, list, s).Answer?
    ensures multiset(Arrange(policy, list, s).value) == multiset(list)
  {
    SortSorts(policy, list);
    var sorted := Sort(policy, list);
    if policy.WeightedRoundRobin? && |sorted| > 1 && s.chooser.Some? {
      SwappedKeeps(sorted, s.chooser.value(Weighted(sorted, BlockLength(sorted, 1))).value);
    }
  }

  // A lone candidate is not put to the rotation.
  lemma LoneNeedsNoChoice(policy: Policy, list: seq<Ranked>, s: Service)
    requires |list| <= 1
    ensures Arrange(policy, list, s) == Answer(list)
  {
    if list != [] {
      assert list[1..] == [] && [list[0]] + [] == list;
      assert Sort(policy, list) == list;
    }
  }

  lemma FinalOrderUsable(q: Request, s: Service)
    requires FinalOrder(q, s).Answer?
    ensures forall r | r in FinalOrder(q, s).value :: Listed(q, s, r)
    ensures forall i: nat, a: nat | Usable(q, s, i, a) :: RankOf(q.candidates[i], a) in FinalOrder(q, s).value
  {
    var list := Ranking(q, s, |q.candidates|).value;
    RankingListsUsable(q, s, |q.candidates|);
    ArrangeKeeps(q.policy, list, s);
    var final := FinalOrder(q, s).value;
    assert forall r :: r in final <==> r in multiset(final);
    assert forall r :: r in list <==> r in multiset(list);
  }

  lemma {:induction false} GrantedAt(list: seq<Ranked>, s: Service, p: nat) returns (k: nat)
    requires p <= |list| && FirstGranted(list, s, p).Selected?
    ensures p <= k < |list| && s.acquire(k).Answer? && s.acquire(k).value.granted
    ensures FirstGranted(list, s, p) == Selected(list[k].c, s.acquire(k).value.active)
    ensures forall j | p <= j < k :: s.acquire(j).Answer? && !s.acquire(j).value.granted
    decreases |list| - p
  {
    if s.acquire(p).value.granted {
      k := p;
    } else {
      k := GrantedAt(list, s, p + 1);
    }
  }

  /** The selected credential passed every tenant, filter, tag and shared-capacity rule and
      had a free slot when read; it was granted a slot, and every candidate ahead of it in
      the final order was refused one. */
  lemma SelectedIsUsable(q: Request, s: Service) returns (i: nat, a: nat, k: nat)
    requires Select(q, s).Selected?
    ensures Usable(q, s, i, a)
    ensures FinalOrder(q, s).Answer? && k < |FinalOrder(q, s).value|
    ensures FinalOrder(q, s).value[k] == RankOf(q.candidates[i], a)
    ensures s.acquire(k).Answer? && s.acquire(k).value.granted
    ensures Select(q, s) == Selected(RankOf(q.candidates[i], a).c, s.acquire(k).value.active)
    ensures forall j | 0 <= j < k :: s.acquire(j).Answer? && !s.acquire(j).value.granted
  {
    var final := FinalOrder(q, s).value;
    k := GrantedAt(final, s, 0);
    FinalOrderUsable(q, s);
    assert Listed(q, s, final[k]);
    i, a :| Usable(q, s, i, a) && final[k] == RankOf(q.candidates[i], a);
  }

  // ----- without interference

  /** Nobody else is at work: active counts and slots come from one set of counters, and the
      round-robin choice from one score hash. */
  ghost predicate Quiet(q: Request, s: Service, counters: Leases.Counters, scores: RoundRobin.Scores) {
    && (forall i: nat | i < |q.candidates| ::
          && s.active(i).Answer?
          && s.active(i).value == Leases.CounterOf(counters, Leases.CredentialKey(q.candidates[i].id)))
    && (s.chooser.Some? ==> forall w :: s.chooser.value(w) == Answer(RoundRobin.Choose(scores, w).1))
    && (FinalOrder(q, s).Answer? ==> forall p: nat | p < |FinalOrder(q, s).value| ::
          var c := FinalOrder(q, s).value[p].c;
          var (_, ok, n) := Leases.AcquireScript(counters, Leases.CredentialKey(c.id), c.maxConcurrency);
          s.acquire(p) == Answer(Slot(ok, n)))
  }

  lemma {:induction false} QuietRanking(q: Request, s: Service, counters: Leases.Counters, scores: RoundRobin.Scores,
                                        n: nat)
    requires Quiet(q, s, counters, scores) && n <= |q.candidates|
    ensures Ranking(q, s, n).Answer?
  {
    if n > 0 { QuietRanking(q, s, counters, scores, n - 1); }
  }

  lemma QuietOrder(q: Request, s: Service, counters: Leases.Counters, scores: RoundRobin.Scores)
    requires Quiet(q, s, counters, scores)
    ensures FinalOrder(q, s).Answer?
    ensures FinalOrder(q, s).value != [] ==>
              && Select(q, s).Selected? && Select(q, s).credential == FinalOrder(q, s).value[0].c
    ensures FinalOrder(q, s).value == [] ==> Select(q, s) == NoCredential
  {
    QuietRanking(q, s, counters, scores, |q.candidates|);
    FinalOrderUsable(q, s);
    var final := FinalOrder(q, s).value;
    if final != [] {
      assert Listed(q, s, final[0]);
      var i: nat, a: nat :| Usable(q, s, i, a) && final[0] == RankOf(q.candidates[i], a);
      assert s.acquire(0).value.granted;
    }
  }

  /** Without interference the scheduler gives up if and only if no candidate that passes
      the rules has a free slot. */
  lemma GivesUpOnlyWhenFull(q: Request, s: Service, counters: Leases.Counters, scores: RoundRobin.Scores)
    requires Quiet(q, s, counters, scores)
    ensures Select(q, s) == NoCredential <==> forall i: nat, a: nat :: !Usable(q, s, i, a)
    ensures Select(q, s) != NoCredential ==> Select(q, s).Selected?
  {
    QuietOrder(q, s, counters, scores);
    FinalOrderUsable(q, s);
    var final := FinalOrder(q, s).value;
    if final != [] {
      assert Listed(q, s, final[0]);
    }
  }

  /** Without interference the selected credential comes first under the policy: nobody
      usable precedes it, or, under round robin over several candidates, it is the one the
      score hash picks among those of the highest tier and priority. */
  lemma SelectsTheFirst(q: Request, s: Service, counters: Leases.Counters,
                        scores: RoundRobin.Scores) returns (top: Ranked)
    requires Quiet(q, s, counters, scores) && Select(q, s).Selected?
    ensures Listed(q, s, top) && top.c == Select(q, s).credential
    ensures !(q.policy.WeightedRoundRobin? && s.chooser.Some?) ==>
              forall i: nat, a: nat | Usable(q, s, i, a) :: !Before(q.policy, RankOf(q.candidates[i], a), top)
    ensures q.policy.WeightedRoundRobin? ==>
              forall i: nat, a: nat | Usable(q, s, i, a) ::
                Foremost(top, RankOf(q.candidates[i], a))
    ensures q.policy.WeightedRoundRobin? && s.chooser.Some? && |FinalOrder(q, s).value| > 1 ==>
              var sorted := Sort(q.policy, Ranking(q, s, |q.candidates|).value);
              sorted != [] && top.c.id == RoundRobin.Choose(scores, Weighted(sorted, BlockLength(sorted, 1))).1
  {
    QuietOrder(q, s, counters, scores);
    FinalOrderUsable(q, s);
    var list, final := Ranking(q, s, |q.candidates|).value, FinalOrder(q, s).value;
    top := final[0];
    SortSorts(q.policy, list);
    var sorted := Sort(q.policy, list);
    ArrangeKeeps(q.policy, list, s);
    assert |final| == |multiset(final)| == |multiset(sorted)| == |sorted|;
    ArrangedFirst(q.policy, list, s, scores);
    assert forall i: nat, a: nat | Usable(q, s, i, a) :: RankOf(q.candidates[i], a) in final;
    assert forall r | r in final :: r in multiset(sorted);
  }

  lemma ArrangedFirst(policy: Policy, list: seq<Ranked>, s: Service, scores: RoundRobin.Scores)
    requires Arrange(policy, list, s).Answer? && list != []
    requires s.chooser.Some? ==> forall w :: s.chooser.value(w) == Answer(RoundRobin.Choose(scores, w).1)
    ensures var sorted, final := Sort(policy, list), Arrange(policy, list, s).value;
            && sorted != [] && |final| == |sorted|
            && (!(policy.WeightedRoundRobin? && s.chooser.Some?) ==>
                  forall r | r in sorted :: !Before(policy, r, final[0]))
            && (policy.WeightedRoundRobin? ==> forall r | r in sorted :: Foremost(final[0], r))
            && (policy.WeightedRoundRobin? && s.chooser.Some? && |sorted| > 1 ==>
                  && Descending(final)
                  && final[0].c.id == RoundRobin.Choose(scores, Weighted(sorted, BlockLength(sorted, 1))).1)
  {
    SortSorts(policy, list);
    var sorted := Sort(policy, list);
    assert |sorted| == |multiset(sorted)| == |multiset(list)| == |list|;
    SortedFirst(policy, sorted);
    if policy.WeightedRoundRobin? && |sorted| > 1 && s.chooser.Some? {
      SwappedFirst(policy, sorted, scores);
    }
  }

  // At least as high a tier and, in it, a priority.
  ghost predicate Foremost(top: Ranked, r: Ranked) {
    top.tier > r.tier || (top.tier == r.tier && top.c.effectivePriority >= r.c.effectivePriority)
  }

  // The swap brings the round-robin choice of the leading block to the front.
  lemma SwappedFirst(policy: Policy, sorted: seq<Ranked>, scores: RoundRobin.Scores)
    requires policy.WeightedRoundRobin? && Sorted(policy, sorted) && |sorted| > 1
    ensures var id := RoundRobin.Choose(scores, Weighted(sorted, BlockLength(sorted, 1))).1;
            var final := Swapped(sorted, id);
            && |final| == |sorted| && Descending(final) && final[0].c.id == id
            && forall r | r in sorted :: Foremost(final[0], r)
  {
    SortedDescends(policy, sorted);
    SortedFirst(policy, sorted);
    var m := BlockLength(sorted, 1);
    var w := Weighted(sorted, m);
    RoundRobin.ChosenWasOffered(scores, w);
    var id := RoundRobin.Choose(scores, w).1;
    var i :| 0 <= i < |w| && w[i].id == id;
    assert sorted[i].c.id == id;
    SwapKeepsOrder(sorted, m, id);
  }

  lemma SortedFirst(policy: Policy, sorted: seq<Ranked>)
    requires Sorted(policy, sorted) && sorted != []
    ensures forall r | r in sorted :: !Before(policy, r, sorted[0])
    ensures !policy.LeastLoaded? ==>
              forall r | r in sorted :: Foremost(sorted[0], r)
  {
    BeforeIsStrict(policy, sorted[0], sorted[0]);
  }
}
