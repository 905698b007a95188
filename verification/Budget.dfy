/** Project budgets (internal/server/budget.go): when a limit and an alert threshold are
    reached, the level a committed request reports, and what admission then refuses. */
module Budget {
  import opened Wrappers
  import opened Decimals

  datatype Policy = Policy(
    tokenLimit: Option<int>, costLimit: Option<string>, alertThreshold: string, enforceHardLimit: bool, active: bool)

  datatype Usage = Usage(totalTokens: int, cost: string)

  datatype Level = Quiet | Warning | Exceeded

  // strconv.FormatInt(n, 10)
  function FormatInt(n: int): string { (if n < 0 then "-" else "") + DigitsText(Abs(n), 0) }

  // Compare(a, b) >= 0
  function AtLeast(a: string, b: string): Result<bool> {
    match Compare(a, b)
    case Ok(c) => Ok(c >= 0)
    case Err => Err
  }

  function LimitReached(p: Policy, u: Usage): Result<bool> {
    if p.tokenLimit.Some? && u.totalTokens >= p.tokenLimit.value then Ok(true)
    else if p.costLimit.None? then Ok(false)
    else AtLeast(u.cost, p.costLimit.value)
  }

  // The alert threshold brought into 0..1.
  function Clamped(threshold: string): Result<string> {
    match IsNegative(threshold)
    case Err => Err
    case Ok(negative) =>
      var t := if negative then "0" else threshold;
      match Compare(t, "1")
      case Err => Err
      case Ok(c) => Ok(if c > 0 then "1" else t)
  }

  // used >= limit * threshold, the product rounded to twelve places
  function ShareReached(limit: string, threshold: string, used: string): Result<bool> {
    match Multiply(limit, threshold)
    case Err => Err
    case Ok(share) => AtLeast(used, share)
  }

  function TokensReached(limit: int, threshold: string, used: int): Result<bool> {
    match Parse(FormatInt(limit))
    case Err => Err
    case Ok(l) =>
      match Multiply(l, threshold)
      case Err => Err
      case Ok(share) =>
        match Parse(FormatInt(used))
        case Err => Err
        case Ok(u) => AtLeast(u, share)
  }

  function ThresholdReached(p: Policy, u: Usage): Result<bool> {
    match Clamped(p.alertThreshold)
    case Err => Err
    case Ok(t) =>
      var tokens := if p.tokenLimit.Some? then TokensReached(p.tokenLimit.value, t, u.totalTokens) else Ok(false);
      if tokens != Ok(false) then tokens
      else if p.costLimit.None? then Ok(false)
      else ShareReached(p.costLimit.value, t, u.cost)
  }

  function LevelOf(p: Policy, u: Usage): Result<Level> {
    match (LimitReached(p, u), ThresholdReached(p, u))
    case (Ok(limit), Ok(threshold)) =>
      Ok(if p.enforceHardLimit && limit then Exceeded else if threshold then Warning else Quiet)
    case _ => Err
  }

  // ----- meaning in numbers

  // Token counts and decimals that the database can hold.
  const TOKENS: int := 1_000_000_000_000_000_000

  ghost predicate ValidPolicy(p: Policy) {
    && (p.tokenLimit.Some? ==> -TOKENS < p.tokenLimit.value < TOKENS)
    && (p.costLimit.Some? ==> Parse(p.costLimit.value).Ok?)
    && Parse(p.alertThreshold).Ok?
  }

  ghost predicate ValidUsage(u: Usage) { -TOKENS < u.totalTokens < TOKENS && Parse(u.cost).Ok? }

  /** A formatted integer parses exactly when it has at most eighteen digits, to itself. */
  lemma FormatIntAmount(n: int)
    ensures Parse(FormatInt(n)).Ok? <==> -TOKENS < n < TOKENS
    ensures -TOKENS < n < TOKENS ==>
              Parse(FormatInt(n)).value == FormatInt(n) && Amount(FormatInt(n)) == n * 1_000_000_000_000
  {
    var m := Abs(n);
    var sign, w := if n < 0 then "-" else "", DigitsText(m, 0);
    DigitsTextValue(m, 0);
    DigitsTextLength(m, 0, 18);
    assert Pow10(18) == TOKENS by { PowTwelve(); }
    WholeNumeral(sign, w, m);
    SolidNumeral(sign + w);
  }

  lemma AtLeastMeans(a: string, b: string)
    requires Parse(a).Ok? && Parse(b).Ok?
    ensures AtLeast(a, b) == Ok(Amount(a) >= Amount(b))
  {}

  // The share a threshold of t units takes of l units, in whole units.
  ghost function ShareOf(l: int, t: int): int { Round(Times(l as real, t as real)) }

  lemma TimesBounds(l: int, t: int)
    requires 0 <= t <= 1_000_000_000_000
    ensures l >= 0 ==> 0.0 <= Times(l as real, t as real) <= l as real
    ensures l <= 0 ==> l as real <= Times(l as real, t as real) <= 0.0
  {}

  lemma ShareBounds(l: int, t: int)
    requires 0 <= t <= 1_000_000_000_000
    ensures l >= 0 ==> 0 <= ShareOf(l, t) <= l
    ensures l <= 0 ==> l <= ShareOf(l, t) <= 0
  {
    TimesBounds(l, t);
    var p := Times(l as real, t as real);
    RoundWhole(l);
    RoundWhole(0);
    if l >= 0 {
      RoundMonotone(0.0, p);
      RoundMonotone(p, l as real);
    } else {
      RoundMonotone(l as real, p);
      RoundMonotone(p, 0.0);
    }
  }

  lemma ShareReachedMeans(limit: string, threshold: string, used: string)
    requires Parse(limit).Ok? && Parse(threshold).Ok? && Parse(used).Ok?
    requires 0 <= Amount(threshold) <= 1_000_000_000_000
    ensures ShareReached(limit, threshold, used) == Ok(Amount(used) >= ShareOf(Amount(limit), Amount(threshold)))
  {
    ParseStable(limit);
    ShareBounds(Amount(limit), Amount(threshold));
    MultiplyRounds(limit, threshold);
    AtLeastMeans(used, Multiply(limit, threshold).value);
  }

  lemma TokensReachedMeans(limit: int, threshold: string, used: int)
    requires -TOKENS < limit < TOKENS && -TOKENS < used < TOKENS
    requires Parse(threshold).Ok? && 0 <= Amount(threshold) <= 1_000_000_000_000
    ensures TokensReached(limit, threshold, used) ==
            Ok(used * 1_000_000_000_000 >= ShareOf(limit * 1_000_000_000_000, Amount(threshold)))
  {
    FormatIntAmount(limit);
    FormatIntAmount(used);
    ShareReachedMeans(FormatInt(limit), threshold, FormatInt(used));
  }

  lemma ZeroAndOne()
    ensures Parse("0").Ok? && Amount("0") == 0 && Parse("1").Ok? && Amount("1") == 1_000_000_000_000
  {
    FormatIntAmount(0);
    FormatIntAmount(1);
    assert FormatInt(0) == "0" && FormatInt(1) == "1";
  }

  lemma ClampedMeans(threshold: string)
    requires Parse(threshold).Ok?
    ensures Clamped(threshold).Ok? && Parse(Clamped(threshold).value).Ok?
    ensures var a := Amount(threshold);
            Amount(Clamped(threshold).value) ==
            if a < 0 then 0 else if a > 1_000_000_000_000 then 1_000_000_000_000 else a
  {
    ZeroAndOne();
    ParseStable(threshold);
    CompareIsNumeric("0", "1");
    CompareIsNumeric(threshold, "1");
  }

  // The clamped threshold in units.
  ghost function Part(p: Policy): int
    requires Parse(p.alertThreshold).Ok?
  {
    var a := Amount(p.alertThreshold);
    if a < 0 then 0 else if a > 1_000_000_000_000 then 1_000_000_000_000 else a
  }

  ghost predicate AtLimit(p: Policy, u: Usage)
    requires ValidPolicy(p) && ValidUsage(u)
  {
    || (p.tokenLimit.Some? && u.totalTokens >= p.tokenLimit.value)
    || (p.costLimit.Some? && Amount(u.cost) >= Amount(p.costLimit.value))
  }

  ghost predicate AtThreshold(p: Policy, u: Usage)
    requires ValidPolicy(p) && ValidUsage(u)
  {
    || (&& p.tokenLimit.Some?
        && u.totalTokens * 1_000_000_000_000 >= ShareOf(p.tokenLimit.value * 1_000_000_000_000, Part(p)))
    || (p.costLimit.Some? && Amount(u.cost) >= ShareOf(Amount(p.costLimit.value), Part(p)))
  }

  /** On valid values neither test fails, and both are the numeric comparisons. */
  lemma ReachedMeans(p: Policy, u: Usage)
    requires ValidPolicy(p) && ValidUsage(u)
    ensures LimitReached(p, u) == Ok(AtLimit(p, u))
    ensures ThresholdReached(p, u) == Ok(AtThreshold(p, u))
  {
    if p.costLimit.Some? { AtLeastMeans(u.cost, p.costLimit.value); }
    ClampedMeans(p.alertThreshold);
    var t := Clamped(p.alertThreshold).value;
    if p.tokenLimit.Some? { TokensReachedMeans(p.tokenLimit.value, t, u.totalTokens); }
    if p.costLimit.Some? { ShareReachedMeans(p.costLimit.value, t, u.cost); }
  }

  // ----- the laws

  /** The level in numbers: exceeded exactly when a hard limit is reached, a warning exactly when
      only the threshold, or a limit that is not enforced, is. */
  lemma LevelMeans(p: Policy, u: Usage)
    requires ValidPolicy(p) && ValidUsage(u)
    ensures LevelOf(p, u).Ok?
    ensures LevelOf(p, u) == Ok(Exceeded) <==> p.enforceHardLimit && AtLimit(p, u)
    ensures LevelOf(p, u) == Ok(Warning) <==> AtThreshold(p, u) && !(p.enforceHardLimit && AtLimit(p, u))
  {
    ReachedMeans(p, u);
  }

  // Limits that are not negative.
  ghost predicate NonNegative(p: Policy)
    requires ValidPolicy(p)
  {
    (p.tokenLimit.Some? ==> p.tokenLimit.value >= 0) && (p.costLimit.Some? ==> Amount(p.costLimit.value) >= 0)
  }

  /** Reaching a limit reaches the alert threshold, clamping and rounding included, for limits
      or usage that are not negative. */
  lemma LimitImpliesThreshold(p: Policy, u: Usage)
    requires ValidPolicy(p) && ValidUsage(u)
    requires NonNegative(p) || (u.totalTokens >= 0 && Amount(u.cost) >= 0)
    ensures LimitReached(p, u) == Ok(true) ==> ThresholdReached(p, u) == Ok(true)
    ensures LevelOf(p, u).Ok?
    ensures LevelOf(p, u).value.Quiet? <==> !AtThreshold(p, u)
  {
    ReachedMeans(p, u);
    if p.tokenLimit.Some? { ShareBounds(p.tokenLimit.value * 1_000_000_000_000, Part(p)); }
    if p.costLimit.Some? { ShareBounds(Amount(p.costLimit.value), Part(p)); }
  }

  function Rank(l: Level): int { match l case Quiet => 0 case Warning => 1 case Exceeded => 2 }

  /** As usage grows the level climbs from quiet to warning to exceeded and never back. */
  lemma LevelClimbs(p: Policy, u: Usage, v: Usage)
    requires ValidPolicy(p) && ValidUsage(u) && ValidUsage(v)
    requires u.totalTokens <= v.totalTokens && Amount(u.cost) <= Amount(v.cost)
    ensures LevelOf(p, u).Ok? && LevelOf(p, v).Ok?
    ensures Rank(LevelOf(p, u).value) <= Rank(LevelOf(p, v).value)
  {
    ReachedMeans(p, u);
    ReachedMeans(p, v);
    ReachedStays(p, u, v);
  }

  lemma ReachedStays(p: Policy, u: Usage, v: Usage)
    requires ValidPolicy(p) && ValidUsage(u) && ValidUsage(v)
    requires u.totalTokens <= v.totalTokens && Amount(u.cost) <= Amount(v.cost)
    ensures AtLimit(p, u) ==> AtLimit(p, v)
    ensures AtThreshold(p, u) ==> AtThreshold(p, v)
  {}

  // ----- admission

  function Blocked(p: Policy, u: Usage, estimated: int): Result<bool> {
    var tokens := p.tokenLimit.Some? && u.totalTokens + estimated > p.tokenLimit.value;
    if p.costLimit.None? then Ok(tokens)
    else
      match AtLeast(u.cost, p.costLimit.value)
      case Err => Err
      case Ok(cost) => Ok(tokens || cost)
  }

  // Usage as the store reports it for a policy's period, and whether the rejection event was written.
  datatype Reply = Reply(usage: Result<Usage>, emitted: bool)

  ghost predicate Passes(p: Policy, r: Reply, estimated: int) {
    !p.active || !p.enforceHardLimit || (r.usage.Ok? && Blocked(p, r.usage.value, estimated) == Ok(false))
  }

  ghost predicate Rejects(p: Policy, r: Reply, estimated: int) {
    p.active && p.enforceHardLimit && r.usage.Ok? && Blocked(p, r.usage.value, estimated) == Ok(true) && r.emitted
  }

  /** Ok(true) means rejected. */
  method AdmitProjectBudgets(policies: seq<Policy>, replies: seq<Reply>, estimated: int) returns (r: Result<bool>)
    requires |replies| == |policies|
    ensures r == Ok(false) <==> forall i | 0 <= i < |policies| :: Passes(policies[i], replies[i], estimated)
    ensures r == Ok(true) <==> exists i | 0 <= i < |policies| ::
              && Rejects(policies[i], replies[i], estimated)
              && forall j | 0 <= j < i :: Passes(policies[j], replies[j], estimated)
  {
    for k := 0 to |policies|
      invariant forall i | 0 <= i < k :: Passes(policies[i], replies[i], estimated)
    {
      var p := policies[k];
      if !p.active || !p.enforceHardLimit {
        continue;
      }
      if replies[k].usage.Err? {
        return Err;
      }
      var usage := replies[k].usage.value;
      var blocked := Blocked(p, usage, estimated);
      if blocked.Err? {
        return Err;
      }
      if !blocked.value {
        continue;
      }
      if !replies[k].emitted {
        return Err;
      }
      assert Rejects(p, replies[k], estimated);
      return Ok(true);
    }
    return Ok(false);
  }

  // The request is over a limit: its estimate does not fit the tokens left, or nothing is left of
  // the cost limit.
  ghost predicate Over(p: Policy, u: Usage, estimated: int)
    requires ValidPolicy(p) && ValidUsage(u)
  {
    || (p.tokenLimit.Some? && estimated > p.tokenLimit.value - u.totalTokens)
    || (p.costLimit.Some? && Amount(u.cost) >= Amount(p.costLimit.value))
  }

  lemma BlockedMeans(p: Policy, u: Usage, estimated: int)
    requires ValidPolicy(p) && ValidUsage(u)
    ensures Blocked(p, u, estimated) == Ok(Over(p, u, estimated))
  {
    if p.costLimit.Some? { AtLeastMeans(u.cost, p.costLimit.value); }
  }

  /** Admission in numbers: with usage known, a request of any estimate passes a policy exactly
      when the policy is not an active hard limit or neither of its limits is overrun. */
  lemma PassesMeans(p: Policy, u: Usage, emitted: bool, estimated: int)
    requires ValidPolicy(p) && ValidUsage(u)
    ensures Passes(p, Reply(Ok(u), emitted), estimated) <==> !p.active || !p.enforceHardLimit || !Over(p, u, estimated)
    ensures Rejects(p, Reply(Ok(u), emitted), estimated) <==>
            p.active && p.enforceHardLimit && Over(p, u, estimated) && emitted
  {
    BlockedMeans(p, u, estimated);
  }

  /** Once a commit reported a policy exceeded, no later request of any size gets past it,
      whatever other policies say, while its usage does not fall. */
  lemma ExceededStaysShut(p: Policy, u: Usage, later: Usage, emitted: bool, estimated: int)
    requires ValidPolicy(p) && ValidUsage(u) && ValidUsage(later) && p.active && estimated >= 1
    requires u.totalTokens <= later.totalTokens && Amount(u.cost) <= Amount(later.cost)
    requires LevelOf(p, u) == Ok(Exceeded)
    ensures !Passes(p, Reply(Ok(later), emitted), estimated)
  {
    LevelMeans(p, u);
    PassesMeans(p, later, emitted, estimated);
  }
}
