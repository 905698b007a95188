/** The provider quality evaluator of internal/quality/evaluator.go: weighted score, breach
    set, circuit breaker and traffic ramp. Percentages are rationals, times and durations
    integers, the printed score counts 10^-4 and the routing multiplier 10^-6. */
module Quality {
  import opened Wrappers
  import Decimals

  datatype Policy = Policy(
    enabled: bool, minimumSamples: int,
    availabilityTarget: real, maximumErrorRate: real, maximum429Rate: real, maximumTtft: int, maximumLatency: int,
    minimumThroughput: real, minimumOutputQuality: real,
    autoDownweight: bool, autoCircuitBreaker: bool, failureThreshold: int, recoveryThreshold: int, openDuration: int,
    rampEnabled: bool, rampInitial: int, rampStep: int, rampInterval: int)

  datatype Metrics = Metrics(
    count: int, availability: real, errorRate: real, rateLimited: real, ttft: Option<int>, latency: Option<int>,
    throughput: Option<real>, outputQuality: real, priceTruth: real, regionCoverage: real)

  datatype Circuit = Closed | HalfOpen | Open

  datatype State = State(
    circuit: Circuit, openUntil: Option<int>, breaches: int, recoveries: int, cap: int,
    rampStartedAt: Option<int>, lastRampStepAt: Option<int>, linked: bool)

  datatype Grade = Unknown | A | B | C | D | F

  // The keys of the breach set, one per check.
  datatype Check =
    | Availability | ErrorRate | RateLimitedRate | Ttft | FullLatency | Throughput
    | OutputQuality | PriceTruth | RegionCoverage

  datatype Breach = Breach(observed: real, threshold: real, critical: bool)

  datatype Decision = Decision(
    grade: Grade, score: int, multiplier: int, cap: int, circuit: Circuit, openUntil: Option<int>, breaches: int,
    recoveries: int, rampStartedAt: Option<int>, lastRampStepAt: Option<int>, breachSet: map<Check, Breach>,
    sufficient: bool)

  const FULL: int := 10000

  // ----- scores

  function Clamp(x: real): real { if x < 0.0 then 0.0 else if x > 100.0 then 100.0 else x }

  function MinimumRatio(observed: real, target: real): real {
    if target <= 0.0 then 100.0 else Clamp(observed / target * 100.0)
  }

  function MaximumRatio(observed: real, maximum: real): real {
    if observed <= maximum then 100.0
    else if 100.0 - maximum <= 0.0 then 0.0
    else Clamp(100.0 - (observed - maximum) / (100.0 - maximum) * 100.0)
  }

  function LatencyScore(observed: Option<int>, maximum: int): real {
    if observed.None? || observed.value < 0 || maximum <= 0 then 0.0
    else if observed.value <= maximum then 100.0
    else Clamp(maximum as real / observed.value as real * 100.0)
  }

  function OptionalMinimum(observed: Option<real>, minimum: real): real {
    if observed.None? then 0.0 else MinimumRatio(observed.value, minimum)
  }

  function Total(p: Policy, m: Metrics): real {
    (25.0 * MinimumRatio(m.availability, p.availabilityTarget)
     + 15.0 * MaximumRatio(m.errorRate, p.maximumErrorRate)
     + 10.0 * MaximumRatio(m.rateLimited, p.maximum429Rate)
     + 10.0 * LatencyScore(m.ttft, p.maximumTtft)
     + 10.0 * LatencyScore(m.latency, p.maximumLatency)
     + 10.0 * OptionalMinimum(m.throughput, p.minimumThroughput)
     + 10.0 * Clamp(m.outputQuality) + 5.0 * Clamp(m.priceTruth) + 5.0 * Clamp(m.regionCoverage)) / 100.0
  }

  function GradeOf(score: real): Grade {
    if score >= 90.0 then A
    else if score >= 80.0 then B
    else if score >= 70.0 then C
    else if score >= 60.0 then D
    else F
  }

  function GradeMultiplier(grade: Grade): int {
    match grade
    case A => 1_000_000
    case B => 900_000
    case C => 700_000
    case D => 350_000
    case F => 100_000
    case Unknown => 250_000
  }

  // ----- breaches

  function Below(out: map<Check, Breach>, name: Check, observed: real, threshold: real, critical: bool)
    : map<Check, Breach>
  {
    if observed < threshold then out[name := Breach(observed, threshold, critical)] else out
  }

  function Above(out: map<Check, Breach>, name: Check, observed: real, threshold: real, critical: bool)
    : map<Check, Breach>
  {
    if observed > threshold then out[name := Breach(observed, threshold, critical)] else out
  }

  function AboveLatency(out: map<Check, Breach>, name: Check, observed: Option<int>, threshold: int)
    : map<Check, Breach>
  {
    if observed.Some? then Above(out, name, observed.value as real, threshold as real, false) else out
  }

  // The critical checks come first.
  function Outages(p: Policy, m: Metrics): map<Check, Breach> {
    var b := Below(map[], Availability, m.availability, p.availabilityTarget, true);
    var b := Above(b, ErrorRate, m.errorRate, p.maximumErrorRate, true);
    Above(b, RateLimitedRate, m.rateLimited, p.maximum429Rate, true)
  }

  function Slowness(out: map<Check, Breach>, p: Policy, m: Metrics): map<Check, Breach> {
    var b := AboveLatency(out, Ttft, m.ttft, p.maximumTtft);
    var b := AboveLatency(b, FullLatency, m.latency, p.maximumLatency);
    if m.throughput.Some? then Below(b, Throughput, m.throughput.value, p.minimumThroughput, false) else b
  }

  function Shortfalls(out: map<Check, Breach>, p: Policy, m: Metrics): map<Check, Breach> {
    var b := Below(out, OutputQuality, m.outputQuality, p.minimumOutputQuality, false);
    var b := Below(b, PriceTruth, m.priceTruth, 100.0, false);
    Below(b, RegionCoverage, m.regionCoverage, 100.0, false)
  }

  function Collected(p: Policy, m: Metrics): map<Check, Breach> { Shortfalls(Slowness(Outages(p, m), p, m), p, m) }

  predicate HasCritical(breaches: map<Check, Breach>) { exists name | name in breaches :: breaches[name].critical }

  // ----- circuit and ramp

  predicate StillOpen(circuit: Circuit, openUntil: Option<int>, now: int) {
    circuit.Open? && openUntil.Some? && now < openUntil.value
  }

  function CircuitStep(d: Decision, p: Policy, critical: bool, now: int): Decision {
    if StillOpen(d.circuit, d.openUntil, now) then d
    else
      var d := if d.circuit.Open? then d.(circuit := HalfOpen, openUntil := None) else d;
      if critical then
        var d := d.(breaches := d.breaches + 1, recoveries := 0);
        if d.breaches >= p.failureThreshold then d.(circuit := Open, openUntil := Some(now + p.openDuration)) else d
      else
        var d := d.(breaches := 0, recoveries := d.recoveries + 1);
        if d.circuit.HalfOpen? && d.recoveries >= p.recoveryThreshold
        then d.(circuit := Closed, openUntil := None, recoveries := 0) else d
  }

  predicate HealthyGrade(g: Grade) { g.A? || g.B? || g.C? }

  function RampStep(d: Decision, p: Policy, m: Metrics, linked: bool, critical: bool, now: int): Decision {
    if !linked || !p.rampEnabled then d.(cap := FULL)
    else if d.rampStartedAt.None? then d.(rampStartedAt := Some(now), lastRampStepAt := Some(now), cap := p.rampInitial)
    else
      var d := if d.cap <= 0 then d.(cap := p.rampInitial) else d;
      if critical || !HealthyGrade(d.grade) || m.priceTruth < 100.0 || m.regionCoverage < 100.0 then d
      else
        var last := if d.lastRampStepAt.Some? then d.lastRampStepAt else d.rampStartedAt;
        if last.Some? && now - last.value >= p.rampInterval
        then d.(cap := (if d.cap + p.rampStep > FULL then FULL else d.cap + p.rampStep), lastRampStepAt := Some(now))
        else d
  }

  // ----- one evaluation

  function NormalCap(cap: int): int { if cap < 0 || cap > FULL then FULL else cap }

  function Started(s: State): Decision {
    Decision(Unknown, 500_000, 1_000_000, NormalCap(s.cap), s.circuit, s.openUntil, s.breaches, s.recoveries,
             s.rampStartedAt, s.lastRampStepAt, map[], false)
  }

  function Graded(p: Policy, m: Metrics, s: State): Decision {
    var d := Started(s).(sufficient := m.count >= p.minimumSamples, score := Decimals.Round(Total(p, m) * 10000.0));
    var d := if d.sufficient then d.(grade := GradeOf(Total(p, m)), breachSet := Collected(p, m)) else d;
    if p.autoDownweight then d.(multiplier := GradeMultiplier(d.grade)) else d
  }

  // Circuit and ramp, once graded.
  function Concluded(d: Decision, p: Policy, m: Metrics, linked: bool, now: int): Decision {
    var critical := HasCritical(d.breachSet);
    var d := if p.autoCircuitBreaker && d.sufficient then CircuitStep(d, p, critical, now) else d;
    if d.circuit.Open? then d.(multiplier := 0, cap := 0) else RampStep(d, p, m, linked, critical, now)
  }

  function Evaluated(p: Policy, m: Metrics, s: State, now: int): Decision {
    if !p.enabled then Started(s) else Concluded(Graded(p, m, s), p, m, s.linked, now)
  }

  /** The decision as the evaluator builds it, updated in place by its helpers. */
  class Evaluator {
    var d: Decision

    constructor (s: State)
      ensures d == Started(s)
    {
      d := Started(s);
    }

    method CollectBreaches(p: Policy, m: Metrics)
      requires d.breachSet == map[]
      modifies this
      ensures d == old(d).(breachSet := Collected(p, m))
    {
      var out := d.breachSet;
      out := Below(out, Availability, m.availability, p.availabilityTarget, true);
      out := Above(out, ErrorRate, m.errorRate, p.maximumErrorRate, true);
      out := Above(out, RateLimitedRate, m.rateLimited, p.maximum429Rate, true);
      if m.ttft.Some? && m.ttft.value > p.maximumTtft {
        out := out[Ttft := Breach(m.ttft.value as real, p.maximumTtft as real, false)];
      }
      if m.latency.Some? && m.latency.value > p.maximumLatency {
        out := out[FullLatency := Breach(m.latency.value as real, p.maximumLatency as real, false)];
      }
      if m.throughput.Some? {
        out := Below(out, Throughput, m.throughput.value, p.minimumThroughput, false);
      }
      out := Below(out, OutputQuality, m.outputQuality, p.minimumOutputQuality, false);
      out := Below(out, PriceTruth, m.priceTruth, 100.0, false);
      out := Below(out, RegionCoverage, m.regionCoverage, 100.0, false);
      d := d.(breachSet := out);
    }

    method EvaluateCircuit(p: Policy, critical: bool, now: int)
      modifies this
      ensures d == CircuitStep(old(d), p, critical, now)
    {
      if d.circuit.Open? {
        if d.openUntil.Some? && now < d.openUntil.value {
          return;
        }
        d := d.(circuit := HalfOpen, openUntil := None);
      }
      if critical {
        d := d.(breaches := d.breaches + 1, recoveries := 0);
        if d.breaches >= p.failureThreshold {
          d := d.(circuit := Open, openUntil := Some(now + p.openDuration));
        }
        return;
      }
      d := d.(breaches := 0, recoveries := d.recoveries + 1);
      if d.circuit.HalfOpen? && d.recoveries >= p.recoveryThreshold {
        d := d.(circuit := Closed, openUntil := None, recoveries := 0);
      }
    }

    method EvaluateRamp(p: Policy, m: Metrics, linked: bool, critical: bool, now: int)
      modifies this
      ensures d == RampStep(old(d), p, m, linked, critical, now)
    {
      if !linked || !p.rampEnabled {
        d := d.(cap := FULL);
        return;
      }
      if d.rampStartedAt.None? {
        d := d.(rampStartedAt := Some(now), lastRampStepAt := Some(now), cap := p.rampInitial);
        return;
      }
      if d.cap <= 0 {
        d := d.(cap := p.rampInitial);
      }
      if critical || !HealthyGrade(d.grade) || m.priceTruth < 100.0 || m.regionCoverage < 100.0 {
        return;
      }
      var last := d.lastRampStepAt;
      if last.None? {
        last := d.rampStartedAt;
      }
      if last.Some? && now - last.value >= p.rampInterval {
        d := d.(cap := d.cap + p.rampStep);
        if d.cap > FULL {
          d := d.(cap := FULL);
        }
        d := d.(lastRampStepAt := Some(now));
      }
    }
  }

  /** Evaluate, by way of the in-place helpers. */
  method Evaluate(p: Policy, m: Metrics, s: State, now: int) returns (decision: Decision)
    ensures decision == Evaluated(p, m, s, now)
  {
    var e := new Evaluator(s);
    if !p.enabled {
      return e.d;
    }
    e.d := e.d.(sufficient := m.count >= p.minimumSamples);
    var total := Total(p, m);
    e.d := e.d.(score := Decimals.Round(total * 10000.0));
    if e.d.sufficient {
      e.d := e.d.(grade := GradeOf(total));
      e.CollectBreaches(p, m);
    }
    if p.autoDownweight {
      e.d := e.d.(multiplier := GradeMultiplier(e.d.grade));
    }
    assert e.d == Graded(p, m, s);
    var critical := HasCritical(e.d.breachSet);
    if p.autoCircuitBreaker && e.d.sufficient {
      e.EvaluateCircuit(p, critical, now);
    }
    if e.d.circuit.Open? {
      e.d := e.d.(multiplier := 0, cap := 0);
    } else {
      e.EvaluateRamp(p, m, s.linked, critical, now);
    }
    return e.d;
  }
}
