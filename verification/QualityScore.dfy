/** The quality score is bounded and monotone in the measurements. */
module QualityScore {
  import opened Wrappers
  import opened Quality
  import Decimals

  // ----- bounds

  // The weighted score lies in 0..100, and so does its printed form.
  lemma TotalBounds(p: Policy, m: Metrics)
    ensures 0.0 <= Total(p, m) <= 100.0
    ensures 0 <= Decimals.Round(Total(p, m) * 10000.0) <= 1_000_000
  {}

  lemma DivideMonotone(x: real, y: real, d: real)
    requires x <= y && d > 0.0
    ensures x / d <= y / d
  {}

  lemma IsQuotient(x: real, d: real, q: real)
    requires d > 0.0 && q * d == x
    ensures x / d == q
  {
    var r := x / d;
    assert r * d == x;
    assert (r - q) * d == 0.0;
  }

  lemma WholeQuotient(d: real)
    requires d > 0.0
    ensures d / d == 1.0 && 0.0 / d == 0.0
  {}

  // ----- the score as what the shortcomings leave of 100

  ghost function Part(x: real, of: real): (part: real)
    requires 0.0 <= x <= of && of > 0.0
    ensures 0.0 <= part <= 1.0
  {
    DivideMonotone(0.0, x, of);
    DivideMonotone(x, of, of);
    WholeQuotient(of);
    x / of
  }

  // How much of a target is missed: nothing at or above it, all of it at zero or below.
  ghost function Missing(observed: real, target: real): (part: real)
    ensures 0.0 <= part <= 1.0
  {
    if target <= 0.0 || observed >= target then 0.0
    else if observed <= 0.0 then 1.0
    else Part(target - observed, target)
  }

  // How far past a maximum, on the way to 100 percent.
  ghost function Excess(observed: real, maximum: real): (part: real)
    ensures 0.0 <= part <= 1.0
  {
    if observed <= maximum then 0.0
    else if observed >= 100.0 then 1.0
    else Part(observed - maximum, 100.0 - maximum)
  }

  // The part of a latency beyond the maximum; a latency not measured counts in full.
  ghost function Delay(observed: Option<int>, maximum: int): (part: real)
    ensures 0.0 <= part <= 1.0
  {
    if observed.None? || observed.value < 0 || maximum <= 0 then 1.0
    else if observed.value <= maximum then 0.0
    else Part((observed.value - maximum) as real, observed.value as real)
  }

  ghost function Shortfall(observed: Option<real>, minimum: real): (part: real)
    ensures 0.0 <= part <= 1.0
  {
    if observed.None? then 1.0 else Missing(observed.value, minimum)
  }

  lemma MinimumLoses(observed: real, target: real)
    ensures MinimumRatio(observed, target) == 100.0 - 100.0 * Missing(observed, target)
  {
    if target > 0.0 {
      WholeQuotient(target);
      if observed >= target {
        DivideMonotone(target, observed, target);
      } else if observed <= 0.0 {
        DivideMonotone(observed, 0.0, target);
      } else {
        DivideMonotone(0.0, observed, target);
        DivideMonotone(observed, target, target);
        IsQuotient(target - observed, target, 1.0 - observed / target);
      }
    }
  }

  lemma MaximumLoses(observed: real, maximum: real)
    ensures MaximumRatio(observed, maximum) == 100.0 - 100.0 * Excess(observed, maximum)
  {
    if observed > maximum && maximum < 100.0 {
      var d := 100.0 - maximum;
      WholeQuotient(d);
      if observed >= 100.0 {
        DivideMonotone(d, observed - maximum, d);
      } else {
        DivideMonotone(0.0, observed - maximum, d);
        DivideMonotone(observed - maximum, d, d);
      }
    }
  }

  lemma LatencyLoses(observed: Option<int>, maximum: int)
    ensures LatencyScore(observed, maximum) == 100.0 - 100.0 * Delay(observed, maximum)
  {
    if observed.Some? && maximum > 0 && observed.value > maximum {
      var o, m := observed.value as real, maximum as real;
      WholeQuotient(o);
      DivideMonotone(0.0, m, o);
      DivideMonotone(m, o, o);
      IsQuotient(o - m, o, 1.0 - m / o);
    }
  }

  /** The score is 100 less what each shortcoming costs: 25 for availability, 15 for errors, 10
      each for rate limiting, first token, full latency, throughput and output quality, 5 each
      for price truth and region coverage, in proportion to how far the target is missed. */
  lemma ScoreIsFullLessLosses(p: Policy, m: Metrics)
    ensures Total(p, m) ==
            100.0
            - 25.0 * Missing(m.availability, p.availabilityTarget)
            - 15.0 * Excess(m.errorRate, p.maximumErrorRate)
            - 10.0 * Excess(m.rateLimited, p.maximum429Rate)
            - 10.0 * Delay(m.ttft, p.maximumTtft) - 10.0 * Delay(m.latency, p.maximumLatency)
            - 10.0 * Shortfall(m.throughput, p.minimumThroughput) - 10.0 * Missing(m.outputQuality, 100.0)
            - 5.0 * Missing(m.priceTruth, 100.0) - 5.0 * Missing(m.regionCoverage, 100.0)
  {
    MinimumLoses(m.availability, p.availabilityTarget);
    MaximumLoses(m.errorRate, p.maximumErrorRate);
    MaximumLoses(m.rateLimited, p.maximum429Rate);
    LatencyLoses(m.ttft, p.maximumTtft);
    LatencyLoses(m.latency, p.maximumLatency);
    if m.throughput.Some? { MinimumLoses(m.throughput.value, p.minimumThroughput); }
    DirectLoses(m.outputQuality);
    DirectLoses(m.priceTruth);
    DirectLoses(m.regionCoverage);
  }

  lemma DirectLoses(x: real)
    ensures Clamp(x) == 100.0 - 100.0 * Missing(x, 100.0)
  {}

  lemma HalfExcess(maximum: real)
    requires maximum < 100.0
    ensures Excess((maximum + 100.0) / 2.0, maximum) == 0.5
  {
    IsQuotient((maximum + 100.0) / 2.0 - maximum, 100.0 - maximum, 0.5);
  }

  lemma HalfMissing(target: real)
    requires target > 0.0
    ensures Missing(target / 2.0, target) == 0.5
  {
    IsQuotient(target - target / 2.0, target, 0.5);
  }

  lemma HalfDelay(maximum: int)
    requires maximum > 0
    ensures Delay(Some(2 * maximum), maximum) == 0.5
  {
    IsQuotient((2 * maximum - maximum) as real, (2 * maximum) as real, 0.5);
  }

  lemma HalfwayErrors(p: Policy, m: Metrics)
    requires p.maximumErrorRate < 100.0
    ensures Total(p, m.(errorRate := (p.maximumErrorRate + 100.0) / 2.0)) ==
            Total(p, m.(errorRate := p.maximumErrorRate)) - 7.5
  {
    ScoreIsFullLessLosses(p, m.(errorRate := (p.maximumErrorRate + 100.0) / 2.0));
    ScoreIsFullLessLosses(p, m.(errorRate := p.maximumErrorRate));
    HalfExcess(p.maximumErrorRate);
  }

  lemma HalfTheAvailability(p: Policy, m: Metrics)
    requires p.availabilityTarget > 0.0
    ensures Total(p, m.(availability := p.availabilityTarget / 2.0)) ==
            Total(p, m.(availability := p.availabilityTarget)) - 12.5
  {
    ScoreIsFullLessLosses(p, m.(availability := p.availabilityTarget / 2.0));
    ScoreIsFullLessLosses(p, m.(availability := p.availabilityTarget));
    HalfMissing(p.availabilityTarget);
  }

  lemma TwiceTheLatency(p: Policy, m: Metrics)
    requires p.maximumLatency > 0
    ensures Total(p, m.(latency := Some(2 * p.maximumLatency))) ==
            Total(p, m.(latency := Some(p.maximumLatency))) - 5.0
  {
    ScoreIsFullLessLosses(p, m.(latency := Some(2 * p.maximumLatency)));
    ScoreIsFullLessLosses(p, m.(latency := Some(p.maximumLatency)));
    HalfDelay(p.maximumLatency);
  }

  /** Halves: an error rate halfway from its maximum to 100 costs half of the error weight, half
      the availability target half of its weight, and twice the allowed latency half of its. */
  lemma HalfwayCostsHalf(p: Policy, m: Metrics)
    ensures p.maximumErrorRate < 100.0 ==>
              Total(p, m.(errorRate := (p.maximumErrorRate + 100.0) / 2.0)) ==
              Total(p, m.(errorRate := p.maximumErrorRate)) - 7.5
    ensures p.availabilityTarget > 0.0 ==>
              Total(p, m.(availability := p.availabilityTarget / 2.0)) ==
              Total(p, m.(availability := p.availabilityTarget)) - 12.5
    ensures p.maximumLatency > 0 ==>
              Total(p, m.(latency := Some(2 * p.maximumLatency))) ==
              Total(p, m.(latency := Some(p.maximumLatency))) - 5.0
  {
    if p.maximumErrorRate < 100.0 { HalfwayErrors(p, m); }
    if p.availabilityTarget > 0.0 { HalfTheAvailability(p, m); }
    if p.maximumLatency > 0 { TwiceTheLatency(p, m); }
  }

  /** Everything measured, nothing breached and full output quality: the full score, grade A
      and the whole multiplier. */
  lemma TargetsMetScoreFull(p: Policy, m: Metrics, s: State)
    requires m.count >= p.minimumSamples && Collected(p, m) == map[] && m.outputQuality >= 100.0
    requires m.ttft.Some? && m.latency.Some? && m.throughput.Some? && m.ttft.value >= 0 && m.latency.value >= 0
    requires p.maximumTtft > 0 && p.maximumLatency > 0
    ensures Total(p, m) == 100.0
    ensures Graded(p, m, s).score == 1_000_000 && Graded(p, m, s).grade == A && Graded(p, m, s).multiplier == 1_000_000
  {
    CollectedIsBreached(p, m);
    assert forall name :: !Breached(p, m, name);
    assert !Breached(p, m, Availability) && !Breached(p, m, ErrorRate) && !Breached(p, m, RateLimitedRate);
    assert !Breached(p, m, Ttft) && !Breached(p, m, FullLatency) && !Breached(p, m, Throughput);
    assert !Breached(p, m, PriceTruth) && !Breached(p, m, RegionCoverage);
    MetFully(m.availability, p.availabilityTarget);
    MetFully(m.throughput.value, p.minimumThroughput);
    GradedFields(p, m, s);
    Decimals.RoundWhole(1_000_000);
  }

  lemma MetFully(observed: real, target: real)
    requires observed >= target
    ensures MinimumRatio(observed, target) == 100.0
  {
    if target > 0.0 {
      DivideMonotone(target, observed, target);
      WholeQuotient(target);
    }
  }

  // ----- monotonicity of the components

  lemma MinimumRatioMonotone(x: real, y: real, target: real)
    requires x <= y
    ensures MinimumRatio(x, target) <= MinimumRatio(y, target)
  {
    if target > 0.0 { DivideMonotone(x, y, target); }
  }

  lemma MaximumRatioMonotone(x: real, y: real, maximum: real)
    requires x <= y
    ensures MaximumRatio(y, maximum) <= MaximumRatio(x, maximum)
  {
    if maximum < 100.0 { DivideMonotone(x - maximum, y - maximum, 100.0 - maximum); }
  }

  lemma InverseMonotone(n: real, x: real, y: real)
    requires n > 0.0 && 0.0 < x <= y
    ensures n / y <= n / x
  {}

  lemma LatencyMonotone(x: Option<int>, y: Option<int>, maximum: int)
    requires x.Some? == y.Some? && (x.Some? ==> 0 <= x.value <= y.value)
    ensures LatencyScore(y, maximum) <= LatencyScore(x, maximum)
  {
    if x.Some? && maximum > 0 && x.value > maximum {
      InverseMonotone(maximum as real, x.value as real, y.value as real);
    }
  }

  /** Measurements that are nowhere worse, over the same samples and optional fields. */
  ghost predicate NoWorse(m: Metrics, n: Metrics) {
    && m.count == n.count
    && m.availability >= n.availability && m.errorRate <= n.errorRate && m.rateLimited <= n.rateLimited
    && m.ttft.Some? == n.ttft.Some? && (m.ttft.Some? ==> 0 <= m.ttft.value <= n.ttft.value)
    && m.latency.Some? == n.latency.Some? && (m.latency.Some? ==> 0 <= m.latency.value <= n.latency.value)
    && m.throughput.Some? == n.throughput.Some? && (m.throughput.Some? ==> m.throughput.value >= n.throughput.value)
    && m.outputQuality >= n.outputQuality && m.priceTruth >= n.priceTruth && m.regionCoverage >= n.regionCoverage
  }

  lemma TotalMonotone(p: Policy, m: Metrics, n: Metrics)
    requires NoWorse(m, n)
    ensures Total(p, m) >= Total(p, n)
  {
    MinimumRatioMonotone(n.availability, m.availability, p.availabilityTarget);
    MaximumRatioMonotone(m.errorRate, n.errorRate, p.maximumErrorRate);
    MaximumRatioMonotone(m.rateLimited, n.rateLimited, p.maximum429Rate);
    LatencyMonotone(m.ttft, n.ttft, p.maximumTtft);
    LatencyMonotone(m.latency, n.latency, p.maximumLatency);
    if m.throughput.Some? { MinimumRatioMonotone(n.throughput.value, m.throughput.value, p.minimumThroughput); }
  }

  // ----- breaches, grade and multiplier

  // Whether the named check fails: what Collected records, read off the metrics.
  ghost predicate Breached(p: Policy, m: Metrics, name: Check) {
    || (name.Availability? && m.availability < p.availabilityTarget)
    || (name.ErrorRate? && m.errorRate > p.maximumErrorRate)
    || (name.RateLimitedRate? && m.rateLimited > p.maximum429Rate)
    || (name.Ttft? && m.ttft.Some? && m.ttft.value > p.maximumTtft)
    || (name.FullLatency? && m.latency.Some? && m.latency.value > p.maximumLatency)
    || (name.Throughput? && m.throughput.Some? && m.throughput.value < p.minimumThroughput)
    || (name.OutputQuality? && m.outputQuality < p.minimumOutputQuality)
    || (name.PriceTruth? && m.priceTruth < 100.0)
    || (name.RegionCoverage? && m.regionCoverage < 100.0)
  }

  // What the entry of a failed check says; a latency or throughput not measured has no entry.
  ghost function EntryOf(p: Policy, m: Metrics, name: Check): Breach {
    match name
    case Availability => Breach(m.availability, p.availabilityTarget, true)
    case ErrorRate => Breach(m.errorRate, p.maximumErrorRate, true)
    case RateLimitedRate => Breach(m.rateLimited, p.maximum429Rate, true)
    case Ttft => Breach(if m.ttft.Some? then m.ttft.value as real else 0.0, p.maximumTtft as real, false)
    case FullLatency =>
      Breach(if m.latency.Some? then m.latency.value as real else 0.0, p.maximumLatency as real, false)
    case Throughput => Breach(if m.throughput.Some? then m.throughput.value else 0.0, p.minimumThroughput, false)
    case OutputQuality => Breach(m.outputQuality, p.minimumOutputQuality, false)
    case PriceTruth => Breach(m.priceTruth, 100.0, false)
    case RegionCoverage => Breach(m.regionCoverage, 100.0, false)
  }

  ghost predicate Recorded(b: map<Check, Breach>, p: Policy, m: Metrics) {
    forall name | name in b :: b[name] == EntryOf(p, m, name)
  }

  lemma BreachedChecks(p: Policy, m: Metrics)
    ensures forall name :: name in Collected(p, m) <==> Breached(p, m, name)
  {}

  lemma CollectedRecords(p: Policy, m: Metrics)
    ensures Recorded(Collected(p, m), p, m)
  {
    var b := Outages(p, m);
    assert Recorded(b, p, m);
    SlownessRecords(b, p, m);
    ShortfallsRecord(Slowness(b, p, m), p, m);
  }

  lemma SlownessRecords(b: map<Check, Breach>, p: Policy, m: Metrics)
    requires Recorded(b, p, m)
    ensures Recorded(Slowness(b, p, m), p, m)
  {}

  lemma ShortfallsRecord(b: map<Check, Breach>, p: Policy, m: Metrics)
    requires Recorded(b, p, m)
    ensures Recorded(Shortfalls(b, p, m), p, m)
  {}

  /** The breach set holds exactly the failed checks, each with what was observed, the threshold
      it missed, and whether it is critical. */
  lemma CollectedIsBreached(p: Policy, m: Metrics)
    ensures forall name :: name in Collected(p, m) <==> Breached(p, m, name)
    ensures forall name | name in Collected(p, m) :: Collected(p, m)[name] == EntryOf(p, m, name)
  {
    BreachedChecks(p, m);
    CollectedRecords(p, m);
  }

  /** Availability, error rate and rate limiting are the critical checks. */
  lemma CriticalIsOutage(p: Policy, m: Metrics)
    ensures HasCritical(Collected(p, m)) <==>
            || m.availability < p.availabilityTarget
            || m.errorRate > p.maximumErrorRate
            || m.rateLimited > p.maximum429Rate
  {
    var b := Collected(p, m);
    CollectedRecords(p, m);
    BreachedChecks(p, m);
    assert Availability in b <==> Breached(p, m, Availability);
    assert ErrorRate in b <==> Breached(p, m, ErrorRate);
    assert RateLimitedRate in b <==> Breached(p, m, RateLimitedRate);
  }

  function GradeRank(g: Grade): int {
    match g
    case A => 4
    case B => 3
    case C => 2
    case D => 1
    case F => 0
    case Unknown => -1
  }

  lemma BetterMetricsFewerBreaches(p: Policy, m: Metrics, n: Metrics)
    requires NoWorse(m, n)
    ensures Collected(p, m).Keys <= Collected(p, n).Keys
    ensures HasCritical(Collected(p, m)) ==> HasCritical(Collected(p, n))
  {
    CollectedIsBreached(p, m);
    CollectedIsBreached(p, n);
    CriticalIsOutage(p, m);
    CriticalIsOutage(p, n);
    assert forall name :: Breached(p, m, name) ==> Breached(p, n, name);
  }

  /** Outages and missing evidence are not made up for elsewhere: never available, or no latency
      and throughput measured, means C at best; every request failing, B at best. */
  lemma OutageCapsGrade(p: Policy, m: Metrics)
    ensures m.availability <= 0.0 < p.availabilityTarget ==> GradeRank(GradeOf(Total(p, m))) <= 2
    ensures m.errorRate >= 100.0 > p.maximumErrorRate ==> GradeRank(GradeOf(Total(p, m))) <= 3
    ensures m.ttft.None? && m.latency.None? && m.throughput.None? ==> GradeRank(GradeOf(Total(p, m))) <= 2
  {
    ScoreIsFullLessLosses(p, m);
  }

  lemma GradeMonotone(x: real, y: real)
    requires x >= y
    ensures GradeRank(GradeOf(x)) >= GradeRank(GradeOf(y)) >= 0
    ensures GradeMultiplier(GradeOf(x)) >= GradeMultiplier(GradeOf(y))
  {}

  // What grading takes from the metrics.
  lemma GradedFields(p: Policy, m: Metrics, s: State)
    ensures var d := Graded(p, m, s);
            && d.sufficient == (m.count >= p.minimumSamples)
            && d.score == Decimals.Round(Total(p, m) * 10000.0)
            && d.grade == (if d.sufficient then GradeOf(Total(p, m)) else Unknown)
            && d.breachSet == (if d.sufficient then Collected(p, m) else map[])
            && d.multiplier == (if p.autoDownweight then GradeMultiplier(d.grade) else 1_000_000)
  {}

  // The grade of a total, and its multiplier.
  ghost function CutOff(total: real): (Grade, int) {
    if total >= 90.0 then (A, 1_000_000)
    else if total >= 80.0 then (B, 900_000)
    else if total >= 70.0 then (C, 700_000)
    else if total >= 60.0 then (D, 350_000)
    else (F, 100_000)
  }

  /** With enough samples the grade and its multiplier change at 90, 80, 70 and 60, decided by
      the exact score; with too few there is no grade. The printed score is the nearest. */
  lemma GradeFollowsScore(p: Policy, m: Metrics, s: State)
    ensures var d, total := Graded(p, m, s), Total(p, m);
            && d.sufficient == (m.count >= p.minimumSamples)
            && d.grade == (if d.sufficient then CutOff(total).0 else Unknown)
            && d.multiplier ==
               (if !p.autoDownweight then 1_000_000 else if d.sufficient then CutOff(total).1 else 250_000)
            && -0.5 <= d.score as real - 10000.0 * total <= 0.5
  {
    Decimals.RoundNearest(Total(p, m) * 10000.0);
  }

  /** So a score printed as 90.0000 or more comes with less than an A exactly when it lies within
      half a unit of the last printed place below 90. */
  lemma PrintedAboveGrade(p: Policy, m: Metrics, s: State)
    requires m.count >= p.minimumSamples
    ensures Graded(p, m, s).score >= 900_000 && Graded(p, m, s).grade != A <==> 89.99995 <= Total(p, m) < 90.0
  {
    GradedFields(p, m, s);
  }

  /** Scores lie in 0..100, and better measurements never give a worse score, grade or
      multiplier, nor a breach that was not there, before the circuit has its say. */
  lemma BetterMetricsNoWorse(p: Policy, m: Metrics, n: Metrics, s: State)
    requires NoWorse(m, n)
    ensures var d, e := Graded(p, m, s), Graded(p, n, s);
            && 1_000_000 >= d.score >= e.score >= 0
            && d.sufficient == e.sufficient
            && GradeRank(d.grade) >= GradeRank(e.grade)
            && d.multiplier >= e.multiplier
            && d.breachSet.Keys <= e.breachSet.Keys
            && (HasCritical(d.breachSet) ==> HasCritical(e.breachSet))
  {
    var t, u := Total(p, m), Total(p, n);
    assert t >= u by { TotalMonotone(p, m, n); }
    TotalBounds(p, m);
    TotalBounds(p, n);
    Decimals.RoundMonotone(u * 10000.0, t * 10000.0);
    GradeMonotone(t, u);
    BetterMetricsFewerBreaches(p, m, n);
    GradedFields(p, m, s);
    GradedFields(p, n, s);
  }

  /** A disabled policy grades nothing and changes nothing, but for a stored share outside
      0..10000, which counts as full. */
  lemma DisabledDecidesNothing(p: Policy, m: Metrics, s: State, now: int)
    requires !p.enabled
    ensures var d := Evaluated(p, m, s, now);
            && d.grade == Unknown && !d.sufficient && d.breachSet == map[]
            && d.score == 500_000 && d.multiplier == 1_000_000
            && d.cap == (if 0 <= s.cap <= 10_000 then s.cap else 10_000)
            && d.circuit == s.circuit && d.openUntil == s.openUntil
            && d.breaches == s.breaches && d.recoveries == s.recoveries
            && d.rampStartedAt == s.rampStartedAt && d.lastRampStepAt == s.lastRampStepAt
  {}
}
