/** Whole runs of the quality evaluator, in which each decision is stored and becomes the
    next state (internal/store/provider_quality.go): what the circuit breaker's counters
    remember, and how fast the traffic ramp can climb. */
module QualityRuns {
  import opened Wrappers
  import opened Quality

  // One evaluation: what was measured, when, and whether the supplier's link was active.
  datatype Input = Input(metrics: Metrics, now: int, linked: bool)

  function Next(d: Decision, linked: bool): State {
    State(d.circuit, d.openUntil, d.breaches, d.recoveries, d.cap, d.rampStartedAt, d.lastRampStepAt, linked)
  }

  function Decide(p: Policy, s: State, i: Input): Decision {
    Evaluated(p, i.metrics, s.(linked := i.linked), i.now)
  }

  function Advance(p: Policy, s: State, i: Input): State { Next(Decide(p, s, i), i.linked) }

  function Run(p: Policy, start: State, inputs: seq<Input>): State {
    if inputs == [] then start else Advance(p, Run(p, start, inputs[..|inputs| - 1]), inputs[|inputs| - 1])
  }

  // ----- circuit history

  ghost predicate Breaker(p: Policy) { p.enabled && p.autoCircuitBreaker }

  // Closed, or half open as a manual reset leaves it, with nothing counted.
  ghost predicate Fresh(s: State) {
    !s.circuit.Open? && s.openUntil.None? && s.breaches == 0 && s.recoveries == 0
  }

  // Evaluations with enough samples count, unless the circuit is open and not due.
  ghost predicate Counts(p: Policy, s: State, i: Input) {
    && i.metrics.count >= p.minimumSamples
    && !(s.circuit.Open? && s.openUntil.Some? && i.now < s.openUntil.value)
  }

  ghost predicate Critical(p: Policy, i: Input) { HasCritical(Collected(p, i.metrics)) }

  // Of the counted evaluations, in order, which were critical.
  ghost function History(p: Policy, start: State, inputs: seq<Input>): seq<bool> {
    if inputs == [] then []
    else
      var before, last := inputs[..|inputs| - 1], inputs[|inputs| - 1];
      History(p, start, before) + if Counts(p, Run(p, start, before), last) then [Critical(p, last)] else []
  }

  // The circuit goes back to closed in this evaluation.
  ghost predicate Closes(p: Policy, s: State, i: Input) { !s.circuit.Closed? && Advance(p, s, i).circuit.Closed? }

  // The counted evaluations since the circuit last went back to closed.
  ghost function Recent(p: Policy, start: State, inputs: seq<Input>): seq<bool> {
    if inputs == [] then []
    else
      var before, last := inputs[..|inputs| - 1], inputs[|inputs| - 1];
      var s := Run(p, start, before);
      if Closes(p, s, last) then []
      else Recent(p, start, before) + if Counts(p, s, last) then [Critical(p, last)] else []
  }

  // How many of the most recent entries equal b.
  ghost function Trailing(history: seq<bool>, b: bool): (n: nat)
    ensures n <= |history|
  {
    if history == [] || history[|history| - 1] != b then 0 else 1 + Trailing(history[..|history| - 1], b)
  }

  lemma TrailingAppend(history: seq<bool>, b: bool)
    ensures Trailing(history + [b], b) == Trailing(history, b) + 1
    ensures Trailing(history + [b], !b) == 0
  {}

  /** The breaker's state and counters in terms of the counted evaluations. */
  ghost predicate Remembers(p: Policy, s: State, history: seq<bool>, recent: seq<bool>) {
    && s.breaches == Trailing(history, true)
    && s.recoveries == Trailing(recent, false) <= Trailing(history, false)
    && (!s.circuit.Closed? ==> s.recoveries == Trailing(history, false))
    && (s.circuit.Open? <==> s.openUntil.Some?)
    && (s.circuit.Open? ==> 1 <= s.breaches && p.failureThreshold <= s.breaches)
  }

  // The circuit half of a decision passes through grading and ramp unchanged.
  ghost predicate SameCircuit(d: Decision, e: Decision) {
    d.circuit == e.circuit && d.openUntil == e.openUntil && d.breaches == e.breaches && d.recoveries == e.recoveries
  }

  lemma RampKeepsCircuit(d: Decision, p: Policy, m: Metrics, linked: bool, critical: bool, now: int)
    ensures SameCircuit(RampStep(d, p, m, linked, critical, now), d)
  {}

  // The graded decision, with what the circuit step then reads.
  lemma GradedState(p: Policy, m: Metrics, s: State) returns (d: Decision)
    ensures d == Graded(p, m, s) && SameCircuit(d, Started(s))
    ensures d.rampStartedAt == s.rampStartedAt && d.lastRampStepAt == s.lastRampStepAt && d.cap == NormalCap(s.cap)
    ensures d.sufficient == (m.count >= p.minimumSamples)
    ensures d.sufficient ==> d.breachSet == Collected(p, m)
  {
    d := Graded(p, m, s);
  }

  lemma GradedIgnoresLink(p: Policy, m: Metrics, s: State, linked: bool)
    ensures Graded(p, m, s.(linked := linked)) == Graded(p, m, s)
  {
    assert Started(s.(linked := linked)) == Started(s);
  }

  lemma Concludes(d: Decision, p: Policy, i: Input) returns (c: Decision)
    ensures c == if p.autoCircuitBreaker && d.sufficient then CircuitStep(d, p, HasCritical(d.breachSet), i.now) else d
    ensures Concluded(d, p, i.metrics, i.linked, i.now) ==
            if c.circuit.Open? then c.(multiplier := 0, cap := 0)
            else RampStep(c, p, i.metrics, i.linked, HasCritical(d.breachSet), i.now)
  {
    c := if p.autoCircuitBreaker && d.sufficient then CircuitStep(d, p, HasCritical(d.breachSet), i.now) else d;
  }

  // An evaluation by an enabled policy: grading, then circuit, then ramp.
  lemma Stages(p: Policy, s: State, i: Input) returns (d: Decision, c: Decision)
    requires p.enabled
    ensures d == Graded(p, i.metrics, s)
    ensures c == if p.autoCircuitBreaker && d.sufficient then CircuitStep(d, p, HasCritical(d.breachSet), i.now) else d
    ensures Advance(p, s, i) ==
            Next(if c.circuit.Open? then c.(multiplier := 0, cap := 0)
                 else RampStep(c, p, i.metrics, i.linked, HasCritical(d.breachSet), i.now), i.linked)
  {
    d := Graded(p, i.metrics, s);
    GradedIgnoresLink(p, i.metrics, s, i.linked);
    c := Concludes(d, p, i);
  }

  lemma AdvanceCircuit(p: Policy, s: State, i: Input)
    requires Breaker(p)
    ensures var t := Advance(p, s, i);
            exists d, c: Decision ::
              && SameCircuit(d, Started(s))
              && c == (if Counts(p, s, i) then CircuitStep(d, p, Critical(p, i), i.now) else d)
              && t.circuit == c.circuit && t.openUntil == c.openUntil
              && t.breaches == c.breaches && t.recoveries == c.recoveries
  {
    var d0 := GradedState(p, i.metrics, s);
    var d, c := Stages(p, s, i);
    RampKeepsCircuit(c, p, i.metrics, i.linked, HasCritical(d.breachSet), i.now);
    assert c == if Counts(p, s, i) then CircuitStep(d, p, Critical(p, i), i.now) else d;
  }

  /** One evaluation under the breaker, case by case. */
  lemma CircuitAdvance(p: Policy, s: State, i: Input)
    requires Breaker(p)
    ensures var t := Advance(p, s, i);
            if !Counts(p, s, i) then
              && t.circuit == s.circuit && t.openUntil == s.openUntil
              && t.breaches == s.breaches && t.recoveries == s.recoveries
            else
              var resumed := if s.circuit.Open? then HalfOpen else s.circuit;
              if Critical(p, i) then
                && t.breaches == s.breaches + 1 && t.recoveries == 0
                && (if t.breaches >= p.failureThreshold
                    then t.circuit.Open? && t.openUntil == Some(i.now + p.openDuration)
                    else t.circuit == resumed && t.openUntil == (if s.circuit.Open? then None else s.openUntil))
              else if resumed.HalfOpen? && s.recoveries + 1 >= p.recoveryThreshold then
                t.circuit.Closed? && t.openUntil.None? && t.breaches == 0 && t.recoveries == 0
              else
                && t.circuit == resumed && t.openUntil == (if s.circuit.Open? then None else s.openUntil)
                && t.breaches == 0 && t.recoveries == s.recoveries + 1
  {
    AdvanceCircuit(p, s, i);
  }

  lemma RemembersAdvance(p: Policy, s: State, history: seq<bool>, recent: seq<bool>, i: Input)
    requires Breaker(p) && Remembers(p, s, history, recent)
    ensures var counted := if Counts(p, s, i) then [Critical(p, i)] else [];
            Remembers(p, Advance(p, s, i), history + counted, if Closes(p, s, i) then [] else recent + counted)
  {
    CircuitAdvance(p, s, i);
    if Counts(p, s, i) {
      TrailingAppend(history, Critical(p, i));
      TrailingAppend(recent, Critical(p, i));
    } else {
      assert history + [] == history && recent + [] == recent;
    }
  }

  /** In every run from a fresh state the counters are exactly the trailing critical evaluations
      and the trailing non-critical ones since the circuit last went back to closed, and
      open-until is set exactly while it is open. */
  lemma {:induction false} CountersRemember(p: Policy, start: State, inputs: seq<Input>)
    requires Breaker(p) && Fresh(start)
    ensures Remembers(p, Run(p, start, inputs), History(p, start, inputs), Recent(p, start, inputs))
  {
    if inputs != [] {
      var before := inputs[..|inputs| - 1];
      CountersRemember(p, start, before);
      var s, i := Run(p, start, before), inputs[|inputs| - 1];
      RemembersAdvance(p, s, History(p, start, before), Recent(p, start, before), i);
    }
  }

  /** Every transition of the circuit in every run from a fresh state:
      open after an evaluation that counts iff it was critical and ends a critical streak of
      the failure threshold, for the configured duration; left only when due; closed again
      iff it ends a non-critical streak of the recovery threshold. While open there is no
      traffic. */
  lemma CircuitHistory(p: Policy, start: State, inputs: seq<Input>, i: Input)
    requires Breaker(p) && Fresh(start)
    ensures var s, t := Run(p, start, inputs), Run(p, start, inputs + [i]);
            var h := History(p, start, inputs + [i]);
            && (t.circuit.Open? <==>
                  if Counts(p, s, i) then Critical(p, i) && Trailing(h, true) >= p.failureThreshold
                  else s.circuit.Open?)
            && (Counts(p, s, i) && t.circuit.Open? ==> t.openUntil == Some(i.now + p.openDuration))
            && (s.circuit.Open? && !t.circuit.Open? ==>
                  s.openUntil.Some? && i.now >= s.openUntil.value && Counts(p, s, i))
            && (!s.circuit.Closed? ==>
                  (t.circuit.Closed? <==>
                     Counts(p, s, i) && Trailing(h, false) >= 1 && Trailing(h, false) >= p.recoveryThreshold))
            && (t.circuit.Open? <==> t.openUntil.Some?)
            && (t.circuit.Open? ==> Decide(p, s, i).multiplier == 0 && t.cap == 0)
  {
    assert (inputs + [i])[..|inputs|] == inputs;
    CountersRemember(p, start, inputs);
    CountersRemember(p, start, inputs + [i]);
    var s := Run(p, start, inputs);
    CircuitAdvance(p, s, i);
    OpenStopsTraffic(p, i.metrics, s.(linked := i.linked), i.now);
    if Counts(p, s, i) { TrailingAppend(History(p, start, inputs), Critical(p, i)); }
  }

  lemma OpenStopsTraffic(p: Policy, m: Metrics, s: State, now: int)
    requires p.enabled
    ensures var d := Evaluated(p, m, s, now); d.circuit.Open? ==> d.multiplier == 0 && d.cap == 0
  {}

  // ----- the ramp over whole runs

  ghost predicate Ramp(p: Policy) {
    p.enabled && p.rampEnabled && 0 <= p.rampInitial <= FULL && p.rampStep >= 0 && p.rampInterval > 0
  }

  // The most a ramp may carry when its last step was taken at `last`.
  ghost function Ceiling(p: Policy, started: int, last: int): int
    requires p.rampInterval > 0
  {
    var climbed := p.rampInitial + p.rampStep * ((last - started) / p.rampInterval);
    if climbed > FULL then FULL else climbed
  }

  ghost predicate WithinRamp(p: Policy, s: State)
    requires p.rampInterval > 0
  {
    s.rampStartedAt.Some? ==>
      && s.lastRampStepAt.Some? && s.rampStartedAt.value <= s.lastRampStepAt.value
      && 0 <= s.cap <= Ceiling(p, s.rampStartedAt.value, s.lastRampStepAt.value)
  }

  lemma OneMoreInterval(a: int, b: int, n: int)
    requires a >= 0 && n > 0 && b >= n
    ensures (a + b) / n >= a / n + 1 && a / n >= 0
  {}

  lemma CeilingClimbs(p: Policy, started: int, last: int, now: int)
    requires Ramp(p) && started <= last && now - last >= p.rampInterval
    ensures 0 <= Ceiling(p, started, last) <= FULL
    ensures var next := Ceiling(p, started, last) + p.rampStep;
            Ceiling(p, started, now) >= if next > FULL then FULL else next
  {
    OneMoreInterval(last - started, now - last, p.rampInterval);
    var k, j := (last - started) / p.rampInterval, (now - started) / p.rampInterval;
    MultiplyMonotone(p.rampStep, k + 1, j);
    MultiplyMonotone(p.rampStep, 0, k);
    assert p.rampStep * (k + 1) == p.rampStep * k + p.rampStep;
  }

  lemma MultiplyMonotone(a: int, x: int, y: int)
    requires a >= 0 && x <= y
    ensures a * x <= a * y
  {}

  lemma CeilingAtLeastInitial(p: Policy, started: int, last: int)
    requires Ramp(p) && started <= last
    ensures p.rampInitial <= Ceiling(p, started, last) <= FULL
  {}

  lemma CircuitKeepsRamp(d: Decision, p: Policy, critical: bool, now: int)
    ensures var c := CircuitStep(d, p, critical, now);
            && c.rampStartedAt == d.rampStartedAt && c.lastRampStepAt == d.lastRampStepAt
            && c.cap == d.cap && c.grade == d.grade
  {}

  // A healthy grade, no critical breach, and complete price and region evidence.
  ghost predicate Healthy(p: Policy, s: State, i: Input) {
    var d := Graded(p, i.metrics, s);
    && HealthyGrade(d.grade) && !HasCritical(d.breachSet)
    && i.metrics.priceTruth >= 100.0 && i.metrics.regionCoverage >= 100.0
  }

  /** What an evaluation does to the ramp: it steps exactly when linked, healthy and an interval
      after its last step; an open circuit takes no traffic, an unlinked supplier all of it. */
  lemma RampAdvance(p: Policy, s: State, i: Input)
    requires Ramp(p)
    requires s.rampStartedAt.Some? ==> s.lastRampStepAt.Some? && 0 <= s.cap <= FULL
    ensures var t := Advance(p, s, i);
            if t.circuit.Open?
            then t.cap == 0 && t.rampStartedAt == s.rampStartedAt && t.lastRampStepAt == s.lastRampStepAt
            else if !i.linked then
              t.cap == FULL && t.rampStartedAt == s.rampStartedAt && t.lastRampStepAt == s.lastRampStepAt
            else if s.rampStartedAt.None? then
              t.rampStartedAt == Some(i.now) && t.lastRampStepAt == Some(i.now) && t.cap == p.rampInitial
            else
              var resumed := if s.cap <= 0 then p.rampInitial else s.cap;
              var raised := if resumed + p.rampStep > FULL then FULL else resumed + p.rampStep;
              && t.rampStartedAt == s.rampStartedAt
              && (if Healthy(p, s, i) && i.now - s.lastRampStepAt.value >= p.rampInterval
                  then t.lastRampStepAt == Some(i.now) && t.cap == raised
                  else t.lastRampStepAt == s.lastRampStepAt && t.cap == resumed)
  {
    var d0 := GradedState(p, i.metrics, s);
    var d, c := Stages(p, s, i);
    CircuitKeepsRamp(d, p, HasCritical(d.breachSet), i.now);
    assert c.grade == d.grade;
  }

  // The ceiling survives this evaluation: the link is active, or the circuit open, or there is
  // no ramp yet, or its ceiling has reached full traffic anyway.
  ghost predicate Keeps(p: Policy, s: State, i: Input)
    requires p.rampInterval > 0
  {
    || i.linked || Advance(p, s, i).circuit.Open? || s.rampStartedAt.None? || s.lastRampStepAt.None?
    || Ceiling(p, s.rampStartedAt.value, s.lastRampStepAt.value) == FULL
  }

  lemma WithinRampAdvance(p: Policy, s: State, i: Input)
    requires Ramp(p) && WithinRamp(p, s)
    ensures WithinRamp(p, Advance(p, s, i)) <==> Keeps(p, s, i)
    ensures var t := Advance(p, s, i); s.rampStartedAt.Some? ==> t.rampStartedAt == s.rampStartedAt
    ensures var t := Advance(p, s, i); s.rampStartedAt.Some? && !t.circuit.Open? ==> t.cap >= s.cap
  {
    if s.rampStartedAt.Some? {
      var started, last := s.rampStartedAt.value, s.lastRampStepAt.value;
      CeilingAtLeastInitial(p, started, last);
      if i.now - last >= p.rampInterval { CeilingClimbs(p, started, last, i.now); }
    } else {
      CeilingAtLeastInitial(p, i.now, i.now);
    }
    RampAdvance(p, s, i);
  }

  // What linking a supplier stores: the initial share, and a ramp that starts now.
  function Linked(p: Policy, s: State, now: int): State {
    s.(cap := p.rampInitial, rampStartedAt := Some(now), lastRampStepAt := Some(now), linked := true)
  }

  lemma LinkStartsWithin(p: Policy, s: State, now: int)
    requires Ramp(p)
    ensures WithinRamp(p, Linked(p, s, now)) && Linked(p, s, now).linked && Linked(p, s, now).cap == p.rampInitial
  {
    CeilingAtLeastInitial(p, now, now);
  }

  /** The ramp bound over whole runs, from a fresh link or any later state that is within it,
      circuit openings and suspended links included: after every evaluation the cap is at most
      the initial share plus one step for every full interval between start and last step, if
      and only if no started ramp below full traffic was evaluated without its link. */
  lemma RampBoundIff(p: Policy, start: State, inputs: seq<Input>)
    requires Ramp(p) && WithinRamp(p, start)
    ensures (forall k: nat | k <= |inputs| :: WithinRamp(p, Run(p, start, inputs[..k])))
       <==> (forall k: nat | k < |inputs| :: Keeps(p, Run(p, start, inputs[..k]), inputs[k]))
  {
    if forall k: nat | k < |inputs| :: Keeps(p, Run(p, start, inputs[..k]), inputs[k]) {
      forall k: nat | k <= |inputs| ensures WithinRamp(p, Run(p, start, inputs[..k])) {
        KeptWithin(p, start, inputs, k);
      }
    } else {
      var k: nat :| k < |inputs| && !Keeps(p, Run(p, start, inputs[..k]), inputs[k]);
      RunStep(p, start, inputs, k);
      if WithinRamp(p, Run(p, start, inputs[..k])) {
        WithinRampAdvance(p, Run(p, start, inputs[..k]), inputs[k]);
        assert !WithinRamp(p, Run(p, start, inputs[..k + 1]));
      }
    }
  }

  lemma RunStep(p: Policy, start: State, inputs: seq<Input>, k: nat)
    requires k < |inputs|
    ensures Run(p, start, inputs[..k + 1]) == Advance(p, Run(p, start, inputs[..k]), inputs[k])
  {
    assert inputs[..k + 1][..k] == inputs[..k];
  }

  lemma {:induction false} KeptWithin(p: Policy, start: State, inputs: seq<Input>, k: nat)
    requires Ramp(p) && WithinRamp(p, start) && k <= |inputs|
    requires forall j: nat | j < k :: Keeps(p, Run(p, start, inputs[..j]), inputs[j])
    ensures WithinRamp(p, Run(p, start, inputs[..k]))
  {
    if k == 0 {
      assert inputs[..0] == [];
    } else {
      KeptWithin(p, start, inputs, k - 1);
      RunStep(p, start, inputs, k - 1);
      WithinRampAdvance(p, Run(p, start, inputs[..k - 1]), inputs[k - 1]);
    }
  }

  /** While the link stays active the bound holds, once started a ramp keeps its start, and its
      cap falls only when the circuit opens. */
  lemma RampBound(p: Policy, start: State, inputs: seq<Input>, i: Input)
    requires Ramp(p) && WithinRamp(p, start) && i.linked && forall k | 0 <= k < |inputs| :: inputs[k].linked
    ensures var s, t := Run(p, start, inputs), Run(p, start, inputs + [i]);
            && WithinRamp(p, s) && WithinRamp(p, t)
            && (s.rampStartedAt.Some? ==> t.rampStartedAt == s.rampStartedAt && (t.circuit.Open? || t.cap >= s.cap))
  {
    KeptWithin(p, start, inputs, |inputs|);
    assert inputs[..|inputs|] == inputs && (inputs + [i])[..|inputs|] == inputs;
    WithinRampAdvance(p, Run(p, start, inputs), i);
  }

  /** Suspending a link lifts the ramp: a started ramp below full traffic that is evaluated once
      without its link carries full traffic, and keeps its old start when the link resumes. */
  lemma SuspensionLiftsRamp(p: Policy, s: State, i: Input)
    requires Ramp(p) && WithinRamp(p, s) && !Keeps(p, s, i)
    ensures var t := Advance(p, s, i);
            t.cap == FULL && t.rampStartedAt == s.rampStartedAt && t.lastRampStepAt == s.lastRampStepAt
    ensures Advance(p, s, i).cap > Ceiling(p, s.rampStartedAt.value, s.lastRampStepAt.value)
  {
    RampAdvance(p, s, i);
    CeilingAtLeastInitial(p, s.rampStartedAt.value, s.lastRampStepAt.value);
  }
}
