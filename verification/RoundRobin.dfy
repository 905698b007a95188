/** Smooth weighted round robin over a persistent score hash: the Lua script and
    ChooseWeighted of internal/scheduler/scheduler.go. */
module RoundRobin {
  import opened Text

  datatype Candidate = Candidate(id: string, weight: int)

  type Scores = map<string, int>

  datatype Best = Nobody | Best(id: string, score: int)

  // What the script's loop carries.
  datatype Scan = Scan(scores: Scores, total: int, best: Best)

  // ChooseWeighted passes max(weight, 1).
  function Weight(c: Candidate): (w: int)
    ensures w >= 1
  {
    if c.weight < 1 then 1 else c.weight
  }

  // HGET, absent read as 0
  function ScoreOf(scores: Scores, id: string): int { if id in scores then scores[id] else 0 }

  predicate Better(score: int, id: string, best: Best) {
    best.Nobody? || score > best.score || (score == best.score && Less(id, best.id))
  }

  function Step(s: Scan, c: Candidate): Scan {
    var score := ScoreOf(s.scores, c.id) + Weight(c);
    Scan(s.scores[c.id := score], s.total + Weight(c),
         if Better(score, c.id, s.best) then Best(c.id, score) else s.best)
  }

  function ScanAll(scores: Scores, candidates: seq<Candidate>): Scan {
    if candidates == [] then Scan(scores, 0, Nobody)
    else Step(ScanAll(scores, candidates[..|candidates| - 1]), candidates[|candidates| - 1])
  }

  // HINCRBY best -total; the chosen id is "" when nobody was offered.
  function Settle(s: Scan): (Scores, string) {
    match s.best
    case Nobody => (s.scores, "")
    case Best(id, _) => (s.scores[id := ScoreOf(s.scores, id) - s.total], id)
  }

  /** One run of the script: the new score hash and the chosen id. */
  function Choose(scores: Scores, candidates: seq<Candidate>): (Scores, string) {
    Settle(ScanAll(scores, candidates))
  }

  /** A group's hash in Redis, updated in place by the script. */
  class ScoreHash {
    var scores: Scores

    constructor ()
      ensures scores == map[]
    {
      scores := map[];
    }

    method ChooseWeighted(candidates: seq<Candidate>) returns (chosen: string)
      modifies this
      ensures (scores, chosen) == Choose(old(scores), candidates)
    {
      var total := 0;
      var best := Nobody;
      for i := 0 to |candidates|
        invariant Scan(scores, total, best) == ScanAll(old(scores), candidates[..i])
      {
        var c := candidates[i];
        total := total + Weight(c);
        var score := ScoreOf(scores, c.id) + Weight(c);
        scores := scores[c.id := score];
        if Better(score, c.id, best) {
          best := Best(c.id, score);
        }
        assert candidates[..i + 1][..i] == candidates[..i];
      }
      assert candidates[..|candidates|] == candidates;
      if best.Nobody? {
        return "";
      }
      scores := scores[best.id := ScoreOf(scores, best.id) - total];
      return best.id;
    }

    // The hash carries a time to live of a day.
    method Expire()
      modifies this
      ensures scores == map[]
    {
      scores := map[];
    }
  }

  // ----- the scores of a hash always sum to zero

  ghost function Sum(m: Scores): int {
    if m == map[] then 0
    else
      var k :| k in m;
      m[k] + Sum(m - {k})
  }

  lemma {:induction false} SumRemove(m: Scores, k: string)
    requires k in m
    ensures Sum(m) == m[k] + Sum(m - {k})
    decreases |m|
  {
    var j :| j in m && Sum(m) == m[j] + Sum(m - {j});
    if j != k {
      SumRemove(m - {j}, k);
      SumRemove(m - {k}, j);
      assert m - {j} - {k} == m - {k} - {j};
    }
  }

  lemma SumUpdate(m: Scores, k: string, v: int)
    ensures Sum(m[k := v]) == Sum(m) - ScoreOf(m, k) + v
  {
    var n := m[k := v];
    SumRemove(n, k);
    if k in m {
      SumRemove(m, k);
      assert n - {k} == m - {k};
    } else {
      assert n - {k} == m;
    }
  }

  lemma {:induction false} ScanSum(scores: Scores, candidates: seq<Candidate>)
    ensures Sum(ScanAll(scores, candidates).scores) == Sum(scores) + ScanAll(scores, candidates).total
    ensures ScanAll(scores, candidates).best.Nobody? <==> candidates == []
  {
    if candidates != [] {
      var rest, c := candidates[..|candidates| - 1], candidates[|candidates| - 1];
      ScanSum(scores, rest);
      var s := ScanAll(scores, rest);
      SumUpdate(s.scores, c.id, ScoreOf(s.scores, c.id) + Weight(c));
    }
  }

  lemma ChooseKeepsSum(scores: Scores, candidates: seq<Candidate>)
    ensures Sum(Choose(scores, candidates).0) == Sum(scores)
  {
    ScanSum(scores, candidates);
    var s := ScanAll(scores, candidates);
    if s.best.Best? { SumUpdate(s.scores, s.best.id, ScoreOf(s.scores, s.best.id) - s.total); }
  }

  datatype Event = Offer(candidates: seq<Candidate>) | Expiry

  function Run(events: seq<Event>): Scores {
    if events == [] then map[]
    else
      match events[|events| - 1]
      case Offer(candidates) => Choose(Run(events[..|events| - 1]), candidates).0
      case Expiry => map[]
  }

  /** Whatever candidate lists are offered, with repeated ids or without, and whenever the
      hash expires, the scores of a group sum to zero. */
  lemma {:induction false} ScoresSumToZero(events: seq<Event>)
    ensures Sum(Run(events)) == 0
  {
    if events != [] {
      var before := events[..|events| - 1];
      ScoresSumToZero(before);
      match events[|events| - 1]
      case Offer(candidates) => ChooseKeepsSum(Run(before), candidates);
      case Expiry =>
    }
  }

  // ----- one round over distinct ids

  ghost predicate Distinct(candidates: seq<Candidate>) {
    forall i, j | 0 <= i < j < |candidates| :: candidates[i].id != candidates[j].id
  }

  ghost predicate Offered(candidates: seq<Candidate>, id: string) {
    exists i | 0 <= i < |candidates| :: candidates[i].id == id
  }

  function TotalWeight(candidates: seq<Candidate>): (w: int)
    ensures w >= |candidates|
  {
    if candidates == [] then 0 else TotalWeight(candidates[..|candidates| - 1]) + Weight(candidates[|candidates| - 1])
  }

  // The score a candidate competes with.
  function Gained(scores: Scores, c: Candidate): int { ScoreOf(scores, c.id) + Weight(c) }

  /** `best` is the highest score offered, the smaller id winning a tie. */
  ghost predicate IsBest(scores: Scores, candidates: seq<Candidate>, best: Best) {
    && best.Best?
    && (exists b | 0 <= b < |candidates| :: candidates[b].id == best.id && best.score == Gained(scores, candidates[b]))
    && forall i | 0 <= i < |candidates| ::
      || Gained(scores, candidates[i]) < best.score
      || (Gained(scores, candidates[i]) == best.score && !Less(candidates[i].id, best.id))
  }

  lemma {:induction false} ScanRaises(scores: Scores, candidates: seq<Candidate>)
    requires Distinct(candidates)
    ensures var s := ScanAll(scores, candidates);
            && s.total == TotalWeight(candidates)
            && (forall i | 0 <= i < |candidates| ::
                  ScoreOf(s.scores, candidates[i].id) == Gained(scores, candidates[i]))
            && (forall id | !Offered(candidates, id) :: ScoreOf(s.scores, id) == ScoreOf(scores, id))
  {
    if candidates != [] {
      var n := |candidates| - 1;
      var rest, c := candidates[..n], candidates[n];
      ScanRaises(scores, rest);
      forall id | !Offered(candidates, id)
        ensures id != c.id && !Offered(rest, id)
      {
        assert candidates[n].id == c.id;
        assert forall i | 0 <= i < n :: rest[i] == candidates[i];
      }
      assert !Offered(rest, c.id);
      assert forall i | 0 <= i < n :: candidates[i] == rest[i];
    }
  }

  lemma {:induction false} ScanBest(scores: Scores, candidates: seq<Candidate>)
    requires Distinct(candidates) && candidates != []
    ensures IsBest(scores, candidates, ScanAll(scores, candidates).best)
  {
    var n := |candidates| - 1;
    var rest, c := candidates[..n], candidates[n];
    ScanRaises(scores, rest);
    assert !Offered(rest, c.id);
    if n > 0 { ScanBest(scores, rest); }
    BestOfMore(scores, candidates, ScanAll(scores, rest).best);
  }

  lemma BestOfMore(scores: Scores, candidates: seq<Candidate>, best: Best)
    requires candidates != []
    requires var rest := candidates[..|candidates| - 1]; if rest == [] then best.Nobody? else IsBest(scores, rest, best)
    ensures var c := candidates[|candidates| - 1];
            IsBest(scores, candidates,
                   if Better(Gained(scores, c), c.id, best) then Best(c.id, Gained(scores, c)) else best)
  {
    var n := |candidates| - 1;
    var rest, c := candidates[..n], candidates[n];
    LessIsStrict(c.id, c.id);
    if rest != [] {
      var b :| 0 <= b < n && rest[b].id == best.id && best.score == Gained(scores, rest[b]);
      assert candidates[b] == rest[b];
      forall i | 0 <= i < n && !Less(candidates[i].id, best.id)
        ensures Less(c.id, best.id) ==> !Less(candidates[i].id, c.id)
      {
        if Less(c.id, best.id) && Less(candidates[i].id, c.id) { LessIsTransitive(candidates[i].id, c.id, best.id); }
      }
      assert forall i | 0 <= i < n :: candidates[i] == rest[i];
    }
  }

  /** Position b holds the candidate with the highest gained score, ties to the smaller id. */
  ghost predicate Wins(scores: Scores, candidates: seq<Candidate>, b: nat) {
    && b < |candidates|
    && forall i | 0 <= i < |candidates| ::
      || Gained(scores, candidates[i]) < Gained(scores, candidates[b])
      || (Gained(scores, candidates[i]) == Gained(scores, candidates[b]) && !Less(candidates[i].id, candidates[b].id))
  }

  lemma WinnerUnique(scores: Scores, candidates: seq<Candidate>, a: nat, b: nat)
    requires Distinct(candidates) && Wins(scores, candidates, a) && Wins(scores, candidates, b)
    ensures a == b
  {
    LessIsTotal(candidates[a].id, candidates[b].id);
  }

  /** The round over distinct ids: everyone gains its weight, and the winner pays the total. */
  lemma ChooseDistinct(scores: Scores, candidates: seq<Candidate>) returns (b: nat)
    requires Distinct(candidates) && candidates != []
    ensures Wins(scores, candidates, b) && Choose(scores, candidates).1 == candidates[b].id
    ensures var after := Choose(scores, candidates).0;
            forall i | 0 <= i < |candidates| ::
              ScoreOf(after, candidates[i].id) ==
              Gained(scores, candidates[i]) - if i == b then TotalWeight(candidates) else 0
  {
    ScanRaises(scores, candidates);
    ScanBest(scores, candidates);
    var best := ScanAll(scores, candidates).best;
    b :| b < |candidates| && candidates[b].id == best.id && best.score == Gained(scores, candidates[b]);
  }

  /** Whoever is chosen was offered, also when ids repeat. */
  lemma {:induction false} ChosenWasOffered(scores: Scores, candidates: seq<Candidate>)
    requires candidates != []
    ensures ScanAll(scores, candidates).best.Best?
    ensures Offered(candidates, Choose(scores, candidates).1)
  {
    var n := |candidates| - 1;
    var rest, c := candidates[..n], candidates[n];
    var before := ScanAll(scores, rest);
    if n > 0 { ChosenWasOffered(scores, rest); }
    if Better(ScoreOf(before.scores, c.id) + Weight(c), c.id, before.best) {
      assert candidates[n].id == Choose(scores, candidates).1;
    } else {
      var i :| 0 <= i < n && rest[i].id == Choose(scores, rest).1;
      assert candidates[i].id == Choose(scores, candidates).1;
    }
  }

  // ----- the weights as offered

  // Weights below 1 raised to 1.
  ghost function Lifted(candidates: seq<Candidate>): (lifted: seq<Candidate>)
    ensures |lifted| == |candidates|
    ensures (forall i | 0 <= i < |candidates| :: candidates[i].weight >= 1) ==> lifted == candidates
  {
    seq(|candidates|, i requires 0 <= i < |candidates| =>
          Candidate(candidates[i].id, if candidates[i].weight >= 1 then candidates[i].weight else 1))
  }

  ghost function WeightSum(candidates: seq<Candidate>): int {
    if candidates == [] then 0 else WeightSum(candidates[..|candidates| - 1]) + candidates[|candidates| - 1].weight
  }

  lemma {:induction false} TotalOfOffered(candidates: seq<Candidate>)
    ensures TotalWeight(candidates) == WeightSum(Lifted(candidates))
    ensures forall i | 0 <= i < |candidates| :: Weight(candidates[i]) == Lifted(candidates)[i].weight
  {
    if candidates != [] {
      var n := |candidates| - 1;
      TotalOfOffered(candidates[..n]);
      assert Lifted(candidates)[..n] == Lifted(candidates[..n]);
    }
  }

  // ----- fairness over a fixed set, in whatever order each round offers it

  ghost predicate Reorders(round: seq<Candidate>, candidates: seq<Candidate>) {
    multiset(round) == multiset(candidates)
  }

  // Every round offers the candidates, each time in some order.
  ghost predicate AllReorder(rounds: seq<seq<Candidate>>, candidates: seq<Candidate>) {
    forall r | 0 <= r < |rounds| :: Reorders(rounds[r], candidates)
  }

  lemma {:induction false} TimesListed(candidates: seq<Candidate>, c: Candidate)
    requires Distinct(candidates)
    ensures multiset(candidates)[c] <= 1
  {
    if candidates != [] {
      var n := |candidates| - 1;
      var rest, last := candidates[..n], candidates[n];
      assert candidates == rest + [last];
      TimesListed(rest, c);
      if c == last { NotListed(rest, c); }
    }
  }

  lemma NotListed(candidates: seq<Candidate>, c: Candidate)
    requires forall i | 0 <= i < |candidates| :: candidates[i].id != c.id
    ensures multiset(candidates)[c] == 0
  {
    assert c !in candidates;
  }

  lemma ListedTwice(candidates: seq<Candidate>, i: nat, j: nat)
    requires i < j < |candidates| && candidates[i] == candidates[j]
    ensures multiset(candidates)[candidates[i]] >= 2
  {
    assert candidates == candidates[..j] + candidates[j..];
    assert candidates[..j][i] == candidates[i] && candidates[j..][0] == candidates[j];
  }

  lemma FoundIn(round: seq<Candidate>, candidates: seq<Candidate>, i: nat) returns (j: nat)
    requires Reorders(round, candidates) && i < |round|
    ensures j < |candidates| && candidates[j] == round[i]
  {
    assert round[i] in multiset(candidates);
    j :| 0 <= j < |candidates| && candidates[j] == round[i];
  }

  lemma ReorderedDistinct(round: seq<Candidate>, candidates: seq<Candidate>)
    requires Reorders(round, candidates) && Distinct(candidates)
    ensures Distinct(round)
  {
    forall i, j | 0 <= i < j < |round| ensures round[i].id != round[j].id {
      var a := FoundIn(round, candidates, i);
      var b := FoundIn(round, candidates, j);
      TimesListed(candidates, round[i]);
      if round[i] == round[j] { ListedTwice(round, i, j); }
      assert a != b;
    }
  }

  lemma {:induction false} WeightWithout(candidates: seq<Candidate>, i: nat)
    requires i < |candidates|
    ensures TotalWeight(candidates) == TotalWeight(candidates[..i] + candidates[i + 1..]) + Weight(candidates[i])
  {
    var n := |candidates| - 1;
    var without := candidates[..i] + candidates[i + 1..];
    if i == n {
      assert without == candidates[..n];
    } else {
      WeightWithout(candidates[..n], i);
      assert without[..n - 1] == candidates[..n][..i] + candidates[..n][i + 1..];
    }
  }

  lemma StillReorders(round: seq<Candidate>, candidates: seq<Candidate>, i: nat)
    requires Reorders(round, candidates) && candidates != [] && i < |round| && round[i] == candidates[|candidates| - 1]
    ensures Reorders(round[..i] + round[i + 1..], candidates[..|candidates| - 1])
  {
    var n := |candidates| - 1;
    Removed(round, i);
    Removed(candidates, n);
    assert candidates[..n] + candidates[n + 1..] == candidates[..n];
  }

  lemma Removed(list: seq<Candidate>, i: nat)
    requires i < |list|
    ensures multiset(list[..i] + list[i + 1..]) == multiset(list) - multiset{list[i]}
  {
    assert list == list[..i] + [list[i]] + list[i + 1..];
  }

  lemma {:induction false} ReorderedWeight(round: seq<Candidate>, candidates: seq<Candidate>)
    requires Reorders(round, candidates)
    ensures TotalWeight(round) == TotalWeight(candidates)
    decreases |candidates|
  {
    assert |round| == |multiset(round)| == |multiset(candidates)| == |candidates|;
    if candidates != [] {
      var n := |candidates| - 1;
      var i := FoundIn(candidates, round, n);
      WeightWithout(round, i);
      StillReorders(round, candidates, i);
      ReorderedWeight(round[..i] + round[i + 1..], candidates[..n]);
    }
  }

  /** A round in another order is the same round: the same candidate wins, and everyone's score
      moves alike. */
  lemma ChooseReordered(scores: Scores, round: seq<Candidate>, candidates: seq<Candidate>) returns (b: nat)
    requires Distinct(candidates) && candidates != [] && Reorders(round, candidates)
    ensures Wins(scores, candidates, b) && Choose(scores, round).1 == candidates[b].id
    ensures var after := Choose(scores, round).0;
            forall i | 0 <= i < |candidates| ::
              ScoreOf(after, candidates[i].id) ==
              Gained(scores, candidates[i]) - if i == b then TotalWeight(candidates) else 0
  {
    ReorderedDistinct(round, candidates);
    ReorderedWeight(round, candidates);
    assert |round| == |multiset(round)| == |multiset(candidates)| == |candidates|;
    var a := ChooseDistinct(scores, round);
    b := FoundIn(round, candidates, a);
    var after := Choose(scores, round).0;
    forall i | 0 <= i < |candidates|
      ensures ScoreOf(after, candidates[i].id) ==
              Gained(scores, candidates[i]) - if i == b then TotalWeight(candidates) else 0
      ensures || Gained(scores, candidates[i]) < Gained(scores, candidates[b])
              || (&& Gained(scores, candidates[i]) == Gained(scores, candidates[b])
                  && !Less(candidates[i].id, candidates[b].id))
    {
      var j := FoundIn(candidates, round, i);
      assert i == b <==> j == a;
    }
  }

  // State and picks after the first k rounds, from an empty hash.
  function Scored(rounds: seq<seq<Candidate>>, k: nat): Scores
    requires k <= |rounds|
  {
    if k == 0 then map[] else Choose(Scored(rounds, k - 1), rounds[k - 1]).0
  }

  function Picks(rounds: seq<seq<Candidate>>, k: nat): (p: seq<string>)
    requires k <= |rounds|
    ensures |p| == k
  {
    if k == 0 then [] else Picks(rounds, k - 1) + [Choose(Scored(rounds, k - 1), rounds[k - 1]).1]
  }

  function Count(picks: seq<string>, id: string): nat {
    if picks == [] then 0 else Count(picks[..|picks| - 1], id) + if picks[|picks| - 1] == id then 1 else 0
  }

  lemma {:induction false} CountAppend(a: seq<string>, b: seq<string>, id: string)
    ensures Count(a + b, id) == Count(a, id) + Count(b, id)
  {
    if b == [] {
      assert a + b == a;
    } else {
      var n := |b| - 1;
      assert (a + b)[..|a + b| - 1] == a + b[..n];
      CountAppend(a, b[..n], id);
    }
  }

  ghost predicate PickedAt(rounds: seq<seq<Candidate>>, picked: seq<string>, k: nat)
    requires k < |rounds| == |picked|
  {
    picked[k] == Choose(Scored(rounds, k), rounds[k]).1
  }

  lemma {:induction false} PickedIsPicks(rounds: seq<seq<Candidate>>, picked: seq<string>, k: nat)
    requires k <= |rounds| == |picked| && forall j: nat | j < k :: PickedAt(rounds, picked, j)
    ensures picked[..k] == Picks(rounds, k)
  {
    if k > 0 {
      PickedIsPicks(rounds, picked, k - 1);
      assert PickedAt(rounds, picked, k - 1);
      assert picked[..k] == picked[..k - 1] + [picked[k - 1]];
    }
  }

  // Scores of the first n candidates.
  ghost function SumOver(scores: Scores, candidates: seq<Candidate>, n: nat): int
    requires n <= |candidates|
  {
    if n == 0 then 0 else SumOver(scores, candidates, n - 1) + ScoreOf(scores, candidates[n - 1].id)
  }

  lemma {:induction false} SumAfterRound(scores: Scores, after: Scores, candidates: seq<Candidate>, b: nat, w: int,
                                         n: nat)
    requires n <= |candidates|
    requires forall i | 0 <= i < |candidates| ::
      ScoreOf(after, candidates[i].id) == Gained(scores, candidates[i]) - if i == b then w else 0
    ensures SumOver(after, candidates, n)
         == SumOver(scores, candidates, n) + TotalWeight(candidates[..n]) - if b < n then w else 0
  {
    if n > 0 {
      SumAfterRound(scores, after, candidates, b, w, n - 1);
      assert candidates[..n][..n - 1] == candidates[..n - 1];
    }
  }

  lemma {:induction false} NobodyGained(scores: Scores, candidates: seq<Candidate>, n: nat)
    requires n <= |candidates|
    requires forall i | 0 <= i < |candidates| :: Gained(scores, candidates[i]) <= 0
    ensures SumOver(scores, candidates, n) + TotalWeight(candidates[..n]) <= 0
  {
    if n > 0 {
      NobodyGained(scores, candidates, n - 1);
      assert candidates[..n][..n - 1] == candidates[..n - 1];
    }
  }

  ghost predicate Above(scores: Scores, candidates: seq<Candidate>, w: int) {
    forall i | 0 <= i < |candidates| :: ScoreOf(scores, candidates[i].id) > -w
  }

  lemma {:induction false} SumOfNothing(candidates: seq<Candidate>, n: nat)
    requires n <= |candidates|
    ensures SumOver(map[], candidates, n) == 0
  {
    if n > 0 { SumOfNothing(candidates, n - 1); }
  }

  /** Every reachable state: scores sum to zero and none is a whole total below it. */
  lemma {:induction false} ScoresBalanced(candidates: seq<Candidate>, rounds: seq<seq<Candidate>>, k: nat)
    requires Distinct(candidates) && candidates != [] && AllReorder(rounds, candidates) && k <= |rounds|
    ensures SumOver(Scored(rounds, k), candidates, |candidates|) == 0
    ensures Above(Scored(rounds, k), candidates, TotalWeight(candidates))
  {
    var n, w := |candidates|, TotalWeight(candidates);
    if k == 0 {
      SumOfNothing(candidates, n);
    } else {
      ScoresBalanced(candidates, rounds, k - 1);
      var before := Scored(rounds, k - 1);
      var b := ChooseReordered(before, rounds[k - 1], candidates);
      SumAfterRound(before, Scored(rounds, k), candidates, b, w, n);
      assert candidates[..n] == candidates;
      if Gained(before, candidates[b]) <= 0 { NobodyGained(before, candidates, n); }
    }
  }

  // Share of k rounds at `weight` out of `total`, less `picked` full turns.
  ghost function Share(k: int, weight: int, picked: int, total: int): int { k * weight - picked * total }

  lemma ShareStep(k: int, weight: int, picked: int, total: int)
    ensures Share(0, weight, 0, total) == 0
    ensures Share(k + 1, weight, picked, total) == Share(k, weight, picked, total) + weight
    ensures Share(k + 1, weight, picked + 1, total) == Share(k, weight, picked, total) + weight - total
  {}

  /** A whole cycle leaves a multiple of the total, so a share above -total is not negative. */
  lemma ShareOfCycle(weight: int, picked: int, total: int)
    requires total > 0 && Share(total, weight, picked, total) > -total
    ensures Share(total, weight, picked, total) >= 0
  {
    var d := weight - picked;
    assert Share(total, weight, picked, total) == d * total;
    assert d <= -1 ==> d * total <= -1 * total;
  }

  lemma ShareRepeats(k: int, weight: int, picked: int, later: int, total: int)
    requires total > 0 && Share(k + total, weight, later, total) == Share(k, weight, picked, total)
    ensures later - picked == weight
  {}

  /** A candidate's score is its fair share so far minus what it has been picked for. */
  lemma {:induction false} ScoreIsShare(candidates: seq<Candidate>, rounds: seq<seq<Candidate>>, k: nat, i: nat)
    requires Distinct(candidates) && i < |candidates| && AllReorder(rounds, candidates) && k <= |rounds|
    ensures ScoreOf(Scored(rounds, k), candidates[i].id)
         == Share(k, Weight(candidates[i]), Count(Picks(rounds, k), candidates[i].id), TotalWeight(candidates))
  {
    var w, total := Weight(candidates[i]), TotalWeight(candidates);
    if k == 0 {
      ShareStep(0, w, 0, total);
    } else {
      ScoreIsShare(candidates, rounds, k - 1, i);
      var b := ChooseReordered(Scored(rounds, k - 1), rounds[k - 1], candidates);
      var picks := Picks(rounds, k);
      assert picks[..k - 1] == Picks(rounds, k - 1);
      ShareStep(k - 1, w, Count(Picks(rounds, k - 1), candidates[i].id), total);
    }
  }

  /** Nobody is ever a full pick ahead of its share of the offered weights, a weight below 1
      counting as 1, nor more than n-1 picks behind it. */
  lemma NeverFarFromShare(candidates: seq<Candidate>, rounds: seq<seq<Candidate>>, total: nat, k: nat, i: nat)
    requires Distinct(candidates) && i < |candidates| && AllReorder(rounds, candidates) && k <= |rounds|
    requires total == WeightSum(Lifted(candidates))
    ensures var picked, w := Count(Picks(rounds, k), candidates[i].id), Lifted(candidates)[i].weight;
            && picked * total < k * w + total
            && k * w <= picked * total + (|candidates| - 1) * (total - 1)
  {
    TotalOfOffered(candidates);
    ScoreWithin(candidates, rounds, k, i, total);
    ScoreIsShare(candidates, rounds, k, i);
    ShareBounds(k, Lifted(candidates)[i].weight, Count(Picks(rounds, k), candidates[i].id), total,
                (|candidates| - 1) * (total - 1));
  }

  lemma ScoreWithin(candidates: seq<Candidate>, rounds: seq<seq<Candidate>>, k: nat, i: nat, w: int)
    requires Distinct(candidates) && i < |candidates| && AllReorder(rounds, candidates) && k <= |rounds|
    requires w == TotalWeight(candidates)
    ensures -w < ScoreOf(Scored(rounds, k), candidates[i].id) <= (|candidates| - 1) * (w - 1)
  {
    ScoresBalanced(candidates, rounds, k);
    OthersBound(Scored(rounds, k), candidates, w, i, |candidates|);
  }

  lemma ShareBounds(k: int, weight: int, picked: int, total: int, most: int)
    requires -total < Share(k, weight, picked, total) <= most
    ensures picked * total < k * weight + total && k * weight <= picked * total + most
  {}

  lemma OneMore(n: int, w: int)
    ensures (n + 1) * w == n * w + w
  {}

  lemma {:induction false} OthersBound(scores: Scores, candidates: seq<Candidate>, w: int, i: nat, n: nat)
    requires n <= |candidates| && i < |candidates| && Above(scores, candidates, w)
    ensures SumOver(scores, candidates, n)
         >= (if i < n then ScoreOf(scores, candidates[i].id) else 0) - (if i < n then n - 1 else n) * (w - 1)
  {
    if n > 0 {
      OthersBound(scores, candidates, w, i, n - 1);
      OneMore(if i < n - 1 then n - 2 else n - 1, w - 1);
    }
  }

  lemma {:induction false} NonNegativeSum(scores: Scores, candidates: seq<Candidate>, n: nat)
    requires n <= |candidates| && forall i | 0 <= i < |candidates| :: ScoreOf(scores, candidates[i].id) >= 0
    ensures SumOver(scores, candidates, n) >= 0
    ensures SumOver(scores, candidates, n) == 0 ==> forall i | 0 <= i < n :: ScoreOf(scores, candidates[i].id) == 0
  {
    if n > 0 { NonNegativeSum(scores, candidates, n - 1); }
  }

  /** After as many rounds as the total weight, every score is back at zero. */
  lemma BackToZero(candidates: seq<Candidate>, rounds: seq<seq<Candidate>>)
    requires Distinct(candidates) && AllReorder(rounds, candidates) && TotalWeight(candidates) <= |rounds|
    ensures forall i | 0 <= i < |candidates| ::
              ScoreOf(Scored(rounds, TotalWeight(candidates)), candidates[i].id) == 0
  {
    var w := TotalWeight(candidates);
    var scores := Scored(rounds, w);
    if candidates != [] {
      ScoresBalanced(candidates, rounds, w);
      forall i | 0 <= i < |candidates|
        ensures ScoreOf(scores, candidates[i].id) >= 0
      {
        ScoreIsShare(candidates, rounds, w, i);
        ShareOfCycle(Weight(candidates[i]), Count(Picks(rounds, w), candidates[i].id), w);
      }
      NonNegativeSum(scores, candidates, |candidates|);
    }
  }

  ghost predicate SameScores(candidates: seq<Candidate>, s: Scores, t: Scores) {
    forall i | 0 <= i < |candidates| :: ScoreOf(s, candidates[i].id) == ScoreOf(t, candidates[i].id)
  }

  lemma SameChoice(candidates: seq<Candidate>, s: Scores, t: Scores, round: seq<Candidate>, other: seq<Candidate>)
    requires Distinct(candidates) && candidates != [] && SameScores(candidates, s, t)
    requires Reorders(round, candidates) && Reorders(other, candidates)
    ensures SameScores(candidates, Choose(s, round).0, Choose(t, other).0)
  {
    var a := ChooseReordered(s, round, candidates);
    var b := ChooseReordered(t, other, candidates);
    WinnerUnique(s, candidates, a, b);
  }

  lemma {:induction false} Periodic(candidates: seq<Candidate>, rounds: seq<seq<Candidate>>, k: nat, total: nat)
    requires Distinct(candidates) && candidates != [] && AllReorder(rounds, candidates)
    requires total == TotalWeight(candidates) && k + total <= |rounds|
    ensures SameScores(candidates, Scored(rounds, k + total), Scored(rounds, k))
  {
    if k == 0 {
      BackToZero(candidates, rounds);
    } else {
      Periodic(candidates, rounds, k - 1, total);
      var s, t := Scored(rounds, k - 1 + total), Scored(rounds, k - 1);
      SameChoice(candidates, s, t, rounds[k - 1 + total], rounds[k - 1]);
    }
  }

  lemma {:induction false} PicksExtend(rounds: seq<seq<Candidate>>, k: nat, m: nat)
    requires k + m <= |rounds|
    ensures Picks(rounds, k + m)[..k] == Picks(rounds, k)
  {
    if m > 0 { PicksExtend(rounds, k, m - 1); }
  }

  lemma CountWindow(rounds: seq<seq<Candidate>>, k: nat, m: nat, id: string)
    requires k + m <= |rounds|
    ensures Count(Picks(rounds, k + m), id)
         == Count(Picks(rounds, k), id) + Count(Picks(rounds, k + m)[k..], id)
  {
    PicksExtend(rounds, k, m);
    var all := Picks(rounds, k + m);
    assert all == Picks(rounds, k) + all[k..];
    CountAppend(Picks(rounds, k), all[k..], id);
  }

  lemma CountsPerCycle(candidates: seq<Candidate>, rounds: seq<seq<Candidate>>, total: nat, k: nat, i: nat)
    requires Distinct(candidates) && i < |candidates| && AllReorder(rounds, candidates)
    requires total == TotalWeight(candidates) && k + total <= |rounds|
    ensures Count(Picks(rounds, k + total), candidates[i].id) ==
            Count(Picks(rounds, k), candidates[i].id) + Weight(candidates[i])
  {
    var id := candidates[i].id;
    Periodic(candidates, rounds, k, total);
    assert ScoreOf(Scored(rounds, k + total), id) == ScoreOf(Scored(rounds, k), id);
    ScoreIsShare(candidates, rounds, k, i);
    ScoreIsShare(candidates, rounds, k + total, i);
    ShareRepeats(k, Weight(candidates[i]), Count(Picks(rounds, k), id), Count(Picks(rounds, k + total), id), total);
  }

  /** Fairness: of a fixed set of candidates, offered in any order every round, every stretch of
      as many consecutive choices as their offered weights sum to picks each one exactly its
      offered weight times, wherever the stretch begins. A weight below 1 counts as 1. */
  lemma EveryWindowIsFair(candidates: seq<Candidate>, rounds: seq<seq<Candidate>>, total: nat, k: nat, i: nat)
    requires Distinct(candidates) && i < |candidates| && AllReorder(rounds, candidates)
    requires total == WeightSum(Lifted(candidates)) && k + total <= |rounds|
    ensures Count(Picks(rounds, k + total)[k..], candidates[i].id) == Lifted(candidates)[i].weight
  {
    TotalOfOffered(candidates);
    CountsPerCycle(candidates, rounds, total, k, i);
    CountWindow(rounds, k, total, candidates[i].id);
  }

  /** Positive weights as they stand: candidate i is picked `candidates[i].weight` times in
      every stretch as long as the sum of the weights. */
  lemma PositiveWeightsAreTurns(candidates: seq<Candidate>, rounds: seq<seq<Candidate>>, total: nat, k: nat, i: nat)
    requires Distinct(candidates) && i < |candidates| && AllReorder(rounds, candidates)
    requires forall j | 0 <= j < |candidates| :: candidates[j].weight >= 1
    requires total == WeightSum(candidates) && k + total <= |rounds|
    ensures Count(Picks(rounds, k + total)[k..], candidates[i].id) == candidates[i].weight
  {
    EveryWindowIsFair(candidates, rounds, total, k, i);
  }
}
