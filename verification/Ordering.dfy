/** How eligible credentials are ranked and sorted: the two comparators and the round-robin
    swap of internal/scheduler/scheduler.go. Load and score ratios are exact rationals. */
module Ordering {
  import opened Text
  import opened Eligibility
  import RoundRobin

  datatype Policy = PriorityWeighted | LeastLoaded | WeightedRoundRobin

  function PolicyOf(requested: string): Policy {
    if requested == "least_loaded" then LeastLoaded
    else if requested == "weighted_round_robin" then WeightedRoundRobin
    else PriorityWeighted
  }

  // A candidate with its effective weight and priority settled.
  datatype Ranked = Ranked(c: Credential, active: nat, score: real, tier: int)

  function RankOf(c: Credential, active: nat): Ranked {
    var weight := if c.effectiveWeight <= 0 then c.weight else c.effectiveWeight;
    var priority := if c.effectivePriority == 0 then c.priority else c.effectivePriority;
    var tier := if c.owner != CUSTOMER then 2 else if c.prioritySection == "FALLBACK" then 1 else 3;
    Ranked(c.(effectiveWeight := weight, effectivePriority := priority), active,
           weight as real / (active + 1) as real, tier)
  }

  function Load(r: Ranked): real {
    r.active as real / (if r.c.maxConcurrency < 1 then 1 else r.c.maxConcurrency) as real
  }

  function Priority(r: Ranked): real { r.c.effectivePriority as real }

  // The two criteria between tier and id, larger first.
  function First(policy: Policy, r: Ranked): real { if policy.LeastLoaded? then -Load(r) else Priority(r) }

  function Second(policy: Policy, r: Ranked): real { if policy.LeastLoaded? then Priority(r) else r.score }

  /** The comparators of both sorts: higher tier, then lower load and higher priority, or
      higher priority and higher score, then smaller id. */
  predicate Before(policy: Policy, x: Ranked, y: Ranked) {
    if x.tier != y.tier then x.tier > y.tier
    else if First(policy, x) != First(policy, y) then First(policy, x) > First(policy, y)
    else if Second(policy, x) != Second(policy, y) then Second(policy, x) > Second(policy, y)
    else Less(x.c.id, y.c.id)
  }

  lemma NotBeforeTransitive(policy: Policy, x: Ranked, y: Ranked, z: Ranked)
    requires !Before(policy, y, x) && !Before(policy, z, y)
    ensures !Before(policy, z, x)
  {
    var a, b, c := x.c.id, y.c.id, z.c.id;
    if Less(c, a) && !Less(b, a) && !Less(c, b) {
      LessIsTotal(a, b);
      LessIsTotal(b, c);
      if a != b && b != c { LessIsTransitive(a, b, c); }
      LessIsStrict(a, c);
    }
  }

  lemma BeforeIsStrict(policy: Policy, x: Ranked, y: Ranked)
    ensures !(Before(policy, x, y) && Before(policy, y, x))
  {
    LessIsStrict(x.c.id, y.c.id);
  }

  // ----- sort.SliceStable

  function Insert(policy: Policy, x: Ranked, list: seq<Ranked>): seq<Ranked> {
    if list != [] && Before(policy, list[0], x) then [list[0]] + Insert(policy, x, list[1..]) else [x] + list
  }

  function Sort(policy: Policy, list: seq<Ranked>): seq<Ranked> {
    if list == [] then [] else Insert(policy, list[0], Sort(policy, list[1..]))
  }

  ghost predicate Sorted(policy: Policy, list: seq<Ranked>) {
    forall i, j | 0 <= i < j < |list| :: !Before(policy, list[j], list[i])
  }

  lemma {:induction false} InsertKeeps(policy: Policy, x: Ranked, list: seq<Ranked>)
    ensures multiset(Insert(policy, x, list)) == multiset(list) + multiset{x}
  {
    if list != [] && Before(policy, list[0], x) {
      InsertKeeps(policy, x, list[1..]);
      assert list == [list[0]] + list[1..];
    }
  }

  lemma ConsSorted(policy: Policy, head: Ranked, rest: seq<Ranked>)
    requires Sorted(policy, rest) && forall j | 0 <= j < |rest| :: !Before(policy, rest[j], head)
    ensures Sorted(policy, [head] + rest)
  {}

  lemma {:induction false} InsertSorts(policy: Policy, x: Ranked, list: seq<Ranked>)
    requires Sorted(policy, list)
    ensures Sorted(policy, Insert(policy, x, list))
  {
    if list != [] && Before(policy, list[0], x) {
      var rest, out := list[1..], Insert(policy, x, list[1..]);
      InsertSorts(policy, x, rest);
      InsertKeeps(policy, x, rest);
      BeforeIsStrict(policy, list[0], x);
      forall j | 0 <= j < |out|
        ensures !Before(policy, out[j], list[0])
      {
        assert out[j] in multiset(rest) + multiset{x};
      }
      ConsSorted(policy, list[0], out);
    } else {
      forall j | 0 <= j < |list|
        ensures !Before(policy, list[j], x)
      {
        if j > 0 { NotBeforeTransitive(policy, x, list[0], list[j]); }
      }
      ConsSorted(policy, x, list);
    }
  }

  /** Sorting gives a permutation in which nobody stands behind a candidate it precedes. */
  lemma {:induction false} SortSorts(policy: Policy, list: seq<Ranked>)
    ensures Sorted(policy, Sort(policy, list))
    ensures multiset(Sort(policy, list)) == multiset(list)
  {
    if list != [] {
      SortSorts(policy, list[1..]);
      InsertKeeps(policy, list[0], Sort(policy, list[1..]));
      InsertSorts(policy, list[0], Sort(policy, list[1..]));
      assert list == [list[0]] + list[1..];
    }
  }

  // ----- the round-robin swap

  // Tier and priority in descending order.
  ghost predicate Descending(list: seq<Ranked>) {
    forall i, j | 0 <= i < j < |list| ::
      list[i].tier > list[j].tier || (list[i].tier == list[j].tier && Priority(list[i]) >= Priority(list[j]))
  }

  predicate SameBlock(x: Ranked, y: Ranked) { x.tier == y.tier && x.c.effectivePriority == y.c.effectivePriority }

  // Length of the leading run that shares the first element's tier and priority.
  function BlockLength(list: seq<Ranked>, n: nat): (m: nat)
    requires 1 <= n <= |list|
    ensures n <= m <= |list|
    ensures forall i | n <= i < m :: SameBlock(list[i], list[0])
    ensures m < |list| ==> !SameBlock(list[m], list[0])
    decreases |list| - n
  {
    if n == |list| || !SameBlock(list[n], list[0]) then n else BlockLength(list, n + 1)
  }

  function Weighted(list: seq<Ranked>, m: nat): seq<RoundRobin.Candidate>
    requires m <= |list|
  {
    seq(m, i requires 0 <= i < m => RoundRobin.Candidate(list[i].c.id, list[i].c.effectiveWeight))
  }

  // Index of the first candidate with the id, or the length.
  function IndexOf(list: seq<Ranked>, id: string): (i: nat)
    ensures i <= |list| && (i < |list| ==> list[i].c.id == id)
    ensures forall j | 0 <= j < i :: list[j].c.id != id
  {
    if list == [] || list[0].c.id == id then 0 else 1 + IndexOf(list[1..], id)
  }

  function Swapped(list: seq<Ranked>, id: string): seq<Ranked> {
    var i := IndexOf(list, id);
    if i < |list| then list[0 := list[i]][i := list[0]] else list
  }

  lemma SwappedKeeps(list: seq<Ranked>, id: string)
    ensures |Swapped(list, id)| == |list| && multiset(Swapped(list, id)) == multiset(list)
  {}

  /** A swap with a member of the leading block keeps tier and priority descending, keeps
      the candidates, and puts the chosen one in front. */
  lemma SwapKeepsOrder(list: seq<Ranked>, m: nat, id: string)
    requires Descending(list) && 1 <= m <= |list|
    requires forall i | 0 <= i < m :: SameBlock(list[i], list[0])
    requires exists i | 0 <= i < m :: list[i].c.id == id
    ensures Descending(Swapped(list, id))
    ensures multiset(Swapped(list, id)) == multiset(list)
    ensures Swapped(list, id)[0].c.id == id && SameBlock(Swapped(list, id)[0], list[0])
  {
    SwappedKeeps(list, id);
    var i := IndexOf(list, id);
    assert i < m && SameBlock(list[i], list[0]);
    SwappedDescends(list, i, Swapped(list, id));
  }

  lemma SwappedDescends(list: seq<Ranked>, i: nat, out: seq<Ranked>)
    requires Descending(list) && i < |list| && SameBlock(list[i], list[0]) && |out| == |list|
    requires forall j | 0 <= j < |list| :: out[j] == if j == 0 then list[i] else if j == i then list[0] else list[j]
    ensures Descending(out)
  {}

  lemma SortedDescends(policy: Policy, list: seq<Ranked>)
    requires !policy.LeastLoaded? && Sorted(policy, list)
    ensures Descending(list)
  {}
}
