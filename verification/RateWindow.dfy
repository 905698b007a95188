/** The fixed-window limiter of internal/ratelimit/ratelimit.go: per API key and minute, a
    request and a token counter in Redis, both created with a time to live of 70 seconds.
    Times are seconds. */
module RateWindow {

  datatype Key = Requests(id: string, minute: int) | Tokens(id: string, minute: int)

  // A counter and the moment it expires.
  datatype Counter = Counter(value: int, expires: int)

  type Counters = map<Key, Counter>

  const TTL: int := 70

  // A call of Allow: `stamp` is the caller's clock, which picks the minute, `run` the moment
  // Redis runs the script.
  datatype Request = Request(id: string, rpm: int, tpm: int, estimated: int, stamp: int, run: int)

  datatype Verdict = Verdict(allowed: bool, requests: int, tokens: int, retryAfter: int)

  function Rpm(rpm: int): int { if rpm <= 0 then 60 else rpm }
  function Tpm(tpm: int): int { if tpm <= 0 then 100_000 else tpm }
  function Estimate(tokens: int): int { if tokens < 1 then 1 else tokens }
  function Minute(stamp: int): int { stamp / 60 }

  function Live(counters: Counters, key: Key, now: int): int {
    if key in counters && now < counters[key].expires then counters[key].value else 0
  }

  // INCRBY, and EXPIRE when the new value is the increment itself.
  function Bumped(counters: Counters, key: Key, amount: int, now: int): Counters {
    var n := Live(counters, key, now) + amount;
    var expires := if n != amount && key in counters then counters[key].expires else now + TTL;
    counters[key := Counter(n, expires)]
  }

  function Allowed(counters: Counters, r: Request): (Counters, Verdict) {
    var requests, tokens := Requests(r.id, Minute(r.stamp)), Tokens(r.id, Minute(r.stamp));
    var s := Bumped(Bumped(counters, requests, 1, r.run), tokens, Estimate(r.estimated), r.run);
    var ttl := s[requests].expires - r.run;
    (s, Verdict(s[requests].value <= Rpm(r.rpm) && s[tokens].value <= Tpm(r.tpm), s[requests].value, s[tokens].value,
                if ttl < 1 then 60 else ttl))
  }

  /** The limiter's counters; the script is one atomic step. */
  class Limiter {
    var counters: Counters

    constructor ()
      ensures counters == map[]
    {
      counters := map[];
    }

    method Bump(key: Key, amount: int, now: int) returns (n: int)
      modifies this
      ensures counters == Bumped(old(counters), key, amount, now) && n == counters[key].value
    {
      if key in counters && counters[key].expires <= now {
        counters := counters - {key};
      }
      n := amount;
      var expires := now + TTL;
      if key in counters {
        n := counters[key].value + amount;
        expires := counters[key].expires;
      }
      if n == amount {
        expires := now + TTL;
      }
      counters := counters[key := Counter(n, expires)];
      assert counters == Bumped(old(counters), key, amount, now);
    }

    method Allow(r: Request) returns (v: Verdict)
      modifies this
      ensures (counters, v) == Allowed(old(counters), r)
    {
      var rpm, tpm, estimated := r.rpm, r.tpm, r.estimated;
      if rpm <= 0 {
        rpm := 60;
      }
      if tpm <= 0 {
        tpm := 100_000;
      }
      if estimated < 1 {
        estimated := 1;
      }
      var requests := Bump(Requests(r.id, Minute(r.stamp)), 1, r.run);
      var tokens := Bump(Tokens(r.id, Minute(r.stamp)), estimated, r.run);
      var ttl := counters[Requests(r.id, Minute(r.stamp))].expires - r.run;
      if ttl < 1 {
        ttl := 60;
      }
      v := Verdict(!(requests > rpm || tokens > tpm), requests, tokens, ttl);
    }
  }

  /** A counter that is absent or has run out starts again at the amount and lives for seventy
      seconds; one that is live grows and keeps its end. Other counters stay. */
  lemma CounterLifetime(counters: Counters, key: Key, amount: int, now: int, other: Key)
    requires key in counters ==> counters[key].value > 0
    ensures var after, live := Bumped(counters, key, amount, now), key in counters && now < counters[key].expires;
            && key in after
            && after[key] == (if live then Counter(counters[key].value + amount, counters[key].expires)
                              else Counter(amount, now + 70))
            && (other != key ==> (other in after <==> other in counters))
            && (other != key && other in counters ==> after[other] == counters[other])
  {}

  // ----- runs

  // The counters after the first k requests.
  function Run(requests: seq<Request>, k: nat): Counters
    requires k <= |requests|
  {
    if k == 0 then map[] else Allowed(Run(requests, k - 1), requests[k - 1]).0
  }

  predicate IsAdmitted(requests: seq<Request>, i: nat)
    requires i < |requests|
  {
    Allowed(Run(requests, i), requests[i]).1.allowed
  }

  // Which requests were admitted.
  function Verdicts(requests: seq<Request>): (v: seq<bool>)
    ensures |v| == |requests|
  {
    seq(|requests|, i requires 0 <= i < |requests| => IsAdmitted(requests, i))
  }

  predicate In(r: Request, id: string, minute: int) { r.id == id && Minute(r.stamp) == minute }

  // The tokens a request counts for: its estimate, at least one.
  ghost function Size(r: Request): nat { if r.estimated >= 1 then r.estimated else 1 }

  // A limit that is not positive stands for the default.
  ghost function Limit(requested: int, default: int): int { if requested > 0 then requested else default }

  // Of the first k requests, those made in a minute, admitted or not, and the tokens they asked for.
  ghost function Made(requests: seq<Request>, k: nat, id: string, minute: int): (n: nat)
    requires k <= |requests|
  {
    if k == 0 then 0 else Made(requests, k - 1, id, minute) + if In(requests[k - 1], id, minute) then 1 else 0
  }

  ghost function Asked(requests: seq<Request>, k: nat, id: string, minute: int): (n: nat)
    requires k <= |requests|
  {
    if k == 0 then 0
    else
      Asked(requests, k - 1, id, minute)
      + if In(requests[k - 1], id, minute) then Size(requests[k - 1]) else 0
  }

  // ... those admitted, and their tokens.
  ghost function Admitted(requests: seq<Request>, v: seq<bool>, k: nat, id: string, minute: int): (n: nat)
    requires k <= |requests| == |v|
  {
    if k == 0 then 0
    else
      Admitted(requests, v, k - 1, id, minute)
      + if In(requests[k - 1], id, minute) && v[k - 1] then 1 else 0
  }

  ghost function Granted(requests: seq<Request>, v: seq<bool>, k: nat, id: string, minute: int): (n: nat)
    requires k <= |requests| == |v|
  {
    if k == 0 then 0
    else
      Granted(requests, v, k - 1, id, minute)
      + if In(requests[k - 1], id, minute) && v[k - 1]
        then Size(requests[k - 1]) else 0
  }

  // Scripts run no earlier than their callers looked at the clock, and at most d seconds later.
  ghost predicate Delayed(requests: seq<Request>, d: int) {
    forall i | 0 <= i < |requests| :: requests[i].stamp <= requests[i].run <= requests[i].stamp + d
  }

  // Within ten seconds a script runs before the counters of its minute can expire.
  ghost predicate Timely(requests: seq<Request>) { Delayed(requests, 10) }

  // When the first of the first k requests of a minute ran.
  ghost function Opened(requests: seq<Request>, k: nat, id: string, minute: int): int
    requires k <= |requests|
  {
    if k == 0 then 0
    else if Made(requests, k - 1, id, minute) == 0 && In(requests[k - 1], id, minute) then requests[k - 1].run
    else Opened(requests, k - 1, id, minute)
  }

  // The counters of a minute are exactly the requests made in it, admitted or not, and expire
  // seventy seconds after the first of them ran.
  ghost predicate Counted(requests: seq<Request>, k: nat, id: string, minute: int)
    requires k <= |requests|
  {
    var s, n, t := Run(requests, k), Requests(id, minute), Tokens(id, minute);
    var expires := Opened(requests, k, id, minute) + 70;
    if Made(requests, k, id, minute) == 0 then n !in s && t !in s && Asked(requests, k, id, minute) == 0
    else
      && n in s && s[n] == Counter(Made(requests, k, id, minute), expires)
      && t in s && s[t] == Counter(Asked(requests, k, id, minute), expires)
      && Asked(requests, k, id, minute) >= 1 && expires >= 60 * minute + 70
  }

  lemma {:induction false} CountersAreExact(requests: seq<Request>, k: nat, id: string, minute: int)
    requires Timely(requests) && k <= |requests|
    ensures Counted(requests, k, id, minute)
  {
    if k > 0 {
      CountersAreExact(requests, k - 1, id, minute);
      var last := requests[k - 1];
      assert 60 * Minute(last.stamp) <= last.run < 60 * Minute(last.stamp) + TTL;
    }
  }

  /** A request is admitted exactly when, with all requests made in its minute before it,
      admitted or not, it stays within both limits. */
  lemma AdmittedIff(requests: seq<Request>, i: nat)
    requires Timely(requests) && i < |requests|
    ensures var r := requests[i]; var m := Minute(r.stamp);
            IsAdmitted(requests, i) <==>
              && Made(requests, i + 1, r.id, m) <= Limit(r.rpm, 60)
              && Asked(requests, i + 1, r.id, m) <= Limit(r.tpm, 100_000)
  {
    CountersAreExact(requests, i + 1, requests[i].id, Minute(requests[i].stamp));
  }

  lemma ReplyOf(s: Counters, r: Request, made: int, asked: int, expires: int)
    requires var t, m := Allowed(s, r).0, Minute(r.stamp);
             && Requests(r.id, m) in t && t[Requests(r.id, m)] == Counter(made, expires)
             && Tokens(r.id, m) in t && t[Tokens(r.id, m)] == Counter(asked, expires)
    requires expires > r.run
    ensures var v := Allowed(s, r).1; v.requests == made && v.tokens == asked && v.retryAfter == expires - r.run
  {}

  /** The reply reports the counts so far, and a time to wait that lasts until seventy seconds after
      the first request of the minute ran, by when the minute is over. */
  lemma ReplyMeans(requests: seq<Request>, i: nat)
    requires Timely(requests) && i < |requests|
    ensures var r := requests[i]; var m := Minute(r.stamp); var v := Allowed(Run(requests, i), r).1;
            && v.requests == Made(requests, i + 1, r.id, m) && v.tokens == Asked(requests, i + 1, r.id, m)
            && r.run + v.retryAfter == Opened(requests, i + 1, r.id, m) + 70 >= 60 * (m + 1)
            && v.retryAfter > 0
  {
    var r := requests[i];
    var m := Minute(r.stamp);
    CountersAreExact(requests, i + 1, r.id, m);
    assert r.run < 60 * m + 70;
    ReplyOf(Run(requests, i), r, Made(requests, i + 1, r.id, m), Asked(requests, i + 1, r.id, m),
            Opened(requests, i + 1, r.id, m) + 70);
  }

  ghost predicate SameLimits(requests: seq<Request>, id: string, rpm: int, tpm: int) {
    forall i | 0 <= i < |requests| && requests[i].id == id :: requests[i].rpm == rpm && requests[i].tpm == tpm
  }

  lemma {:induction false} AdmittedWasMade(requests: seq<Request>, v: seq<bool>, k: nat, id: string, minute: int)
    requires k <= |requests| == |v|
    ensures Admitted(requests, v, k, id, minute) <= Made(requests, k, id, minute)
    ensures Granted(requests, v, k, id, minute) <= Asked(requests, k, id, minute)
  {
    if k > 0 { AdmittedWasMade(requests, v, k - 1, id, minute); }
  }

  ghost predicate WithinLimits(requests: seq<Request>, id: string, minute: int, rpm: int, tpm: int) {
    && Admitted(requests, Verdicts(requests), |requests|, id, minute) <= Limit(rpm, 60)
    && Granted(requests, Verdicts(requests), |requests|, id, minute) <= Limit(tpm, 100_000)
  }

  // With request i, what was admitted in its minute so far is within its limits.
  ghost predicate Fits(requests: seq<Request>, v: seq<bool>, i: nat)
    requires i < |requests| == |v|
  {
    var r := requests[i];
    && Admitted(requests, v, i + 1, r.id, Minute(r.stamp)) <= Rpm(r.rpm)
    && Granted(requests, v, i + 1, r.id, Minute(r.stamp)) <= Tpm(r.tpm)
  }

  // An admitted request found room for all that was made, so for all that was admitted.
  lemma AdmittedFits(requests: seq<Request>, v: seq<bool>, i: nat)
    requires Timely(requests) && i < |requests| == |v| && IsAdmitted(requests, i)
    ensures Fits(requests, v, i)
  {
    AdmittedIff(requests, i);
    AdmittedWasMade(requests, v, i + 1, requests[i].id, Minute(requests[i].stamp));
  }

  ghost predicate AllFit(requests: seq<Request>, v: seq<bool>) {
    |requests| == |v| && forall i: nat | i < |v| && v[i] :: Fits(requests, v, i)
  }

  lemma VerdictsFit(requests: seq<Request>)
    requires Timely(requests)
    ensures AllFit(requests, Verdicts(requests))
  {
    var v := Verdicts(requests);
    forall i: nat | i < |v| && v[i] ensures Fits(requests, v, i) { AdmittedFits(requests, v, i); }
  }

  lemma {:induction false} FitsWithinLimits(requests: seq<Request>, v: seq<bool>, k: nat, id: string, minute: int,
                                            rpm: int, tpm: int)
    requires AllFit(requests, v) && SameLimits(requests, id, rpm, tpm) && k <= |requests|
    ensures Admitted(requests, v, k, id, minute) <= Rpm(rpm) && Granted(requests, v, k, id, minute) <= Tpm(tpm)
  {
    if k > 0 {
      FitsWithinLimits(requests, v, k - 1, id, minute, rpm, tpm);
      if In(requests[k - 1], id, minute) && v[k - 1] { assert Fits(requests, v, k - 1); }
    }
  }

  /** Every minute admits at most rpm requests and tpm estimated tokens of a key. */
  lemma MinuteWithinLimits(requests: seq<Request>, id: string, minute: int, rpm: int, tpm: int)
    requires Timely(requests) && SameLimits(requests, id, rpm, tpm)
    ensures WithinLimits(requests, id, minute, rpm, tpm)
  {
    VerdictsFit(requests);
    FitsWithinLimits(requests, Verdicts(requests), |requests|, id, minute, rpm, tpm);
  }

  // ----- sixty-second spans

  predicate InSpan(r: Request, id: string, start: int) { r.id == id && start <= r.stamp < start + 60 }

  ghost function SpanAdmitted(requests: seq<Request>, v: seq<bool>, k: nat, id: string, start: int): nat
    requires k <= |requests| == |v|
  {
    if k == 0 then 0
    else
      SpanAdmitted(requests, v, k - 1, id, start)
      + if InSpan(requests[k - 1], id, start) && v[k - 1] then 1 else 0
  }

  ghost function SpanGranted(requests: seq<Request>, v: seq<bool>, k: nat, id: string, start: int): nat
    requires k <= |requests| == |v|
  {
    if k == 0 then 0
    else
      SpanGranted(requests, v, k - 1, id, start)
      + if InSpan(requests[k - 1], id, start) && v[k - 1]
        then Size(requests[k - 1]) else 0
  }

  lemma TwoMinutes(stamp: int, start: int)
    requires start <= stamp < start + 60
    ensures Minute(stamp) == Minute(start) || Minute(stamp) == Minute(start) + 1
  {}

  lemma {:induction false} SpanInTwoMinutes(requests: seq<Request>, v: seq<bool>, k: nat, id: string, start: int,
                                            m: int)
    requires k <= |requests| == |v| && m == Minute(start)
    ensures SpanAdmitted(requests, v, k, id, start) <=
            Admitted(requests, v, k, id, m) + Admitted(requests, v, k, id, m + 1)
    ensures SpanGranted(requests, v, k, id, start) <=
            Granted(requests, v, k, id, m) + Granted(requests, v, k, id, m + 1)
  {
    if k > 0 {
      SpanInTwoMinutes(requests, v, k - 1, id, start, m);
      var last := requests[k - 1];
      if InSpan(last, id, start) { TwoMinutes(last.stamp, start); }
    }
  }

  // Requests and tokens that a run admits within sixty seconds.
  ghost function AdmittedFrom(requests: seq<Request>, id: string, start: int): (int, int) {
    (SpanAdmitted(requests, Verdicts(requests), |requests|, id, start),
     SpanGranted(requests, Verdicts(requests), |requests|, id, start))
  }

  /** Any sixty seconds admit at most twice the limits, over every arrival sequence. */
  lemma SpanWithinTwice(requests: seq<Request>, id: string, start: int, rpm: int, tpm: int)
    requires Timely(requests) && SameLimits(requests, id, rpm, tpm)
    ensures AdmittedFrom(requests, id, start).0 <= 2 * Limit(rpm, 60)
    ensures AdmittedFrom(requests, id, start).1 <= 2 * Limit(tpm, 100_000)
  {
    var v, n, m := Verdicts(requests), |requests|, Minute(start);
    SpanInTwoMinutes(requests, v, n, id, start, m);
    VerdictsFit(requests);
    FitsWithinLimits(requests, v, n, id, m, rpm, tpm);
    FitsWithinLimits(requests, v, n, id, m + 1, rpm, tpm);
  }

  // ----- the bounds are attained

  // The counters have room for n one-token requests like r.
  ghost predicate HasRoom(s: Counters, r: Request, n: nat) {
    && Live(s, Requests(r.id, Minute(r.stamp)), r.run) + n <= Rpm(r.rpm)
    && Live(s, Tokens(r.id, Minute(r.stamp)), r.run) + n <= Tpm(r.tpm)
    && Estimate(r.estimated) == 1
  }

  lemma RoomTaken(s: Counters, r: Request, n: nat)
    requires n > 0 && HasRoom(s, r, n)
    ensures var (t, verdict) := Allowed(s, r); verdict.allowed && HasRoom(t, r, n - 1)
  {}

  // Requests i to i+n are all r.
  ghost predicate Burst(requests: seq<Request>, i: nat, r: Request, n: nat) {
    i + n <= |requests| && forall j | i <= j < i + n :: requests[j] == r
  }

  // As many requests as both limits have room for are all admitted.
  lemma {:induction false} BurstRoom(requests: seq<Request>, i: nat, r: Request, n: nat, k: nat)
    requires Burst(requests, i, r, n) && HasRoom(Run(requests, i), r, n) && k <= n
    ensures HasRoom(Run(requests, i + k), r, n - k)
    ensures k > 0 ==> IsAdmitted(requests, i + k - 1)
  {
    if k > 0 {
      BurstRoom(requests, i, r, n, k - 1);
      RoomTaken(Run(requests, i + k - 1), r, n - k + 1);
    }
  }

  ghost predicate AllAdmitted(v: seq<bool>, i: nat, n: nat) {
    i + n <= |v| && forall j | i <= j < i + n :: v[j]
  }

  lemma BurstPasses(requests: seq<Request>, i: nat, r: Request, n: nat)
    requires Burst(requests, i, r, n) && HasRoom(Run(requests, i), r, n)
    ensures AllAdmitted(Verdicts(requests), i, n)
  {
    forall j | i <= j < i + n ensures Verdicts(requests)[j] { PassesAt(requests, i, r, n, j); }
  }

  lemma PassesAt(requests: seq<Request>, i: nat, r: Request, n: nat, j: nat)
    requires Burst(requests, i, r, n) && HasRoom(Run(requests, i), r, n) && i <= j < i + n
    ensures Verdicts(requests)[j]
  {
    BurstRoom(requests, i, r, n, j - i + 1);
  }

  lemma {:induction false} BurstAdmitted(requests: seq<Request>, v: seq<bool>, i: nat, r: Request, n: nat, minute: int)
    requires Burst(requests, i, r, n) && |v| == |requests| && AllAdmitted(v, i, n) && In(r, r.id, minute)
    ensures Admitted(requests, v, i + n, r.id, minute) == Admitted(requests, v, i, r.id, minute) + n
  {
    if n > 0 { BurstAdmitted(requests, v, i, r, n - 1, minute); }
  }

  lemma {:induction false} BurstInSpan(requests: seq<Request>, v: seq<bool>, i: nat, r: Request, n: nat, start: int)
    requires Burst(requests, i, r, n) && |v| == |requests| && AllAdmitted(v, i, n)
    requires InSpan(r, r.id, start) && Estimate(r.estimated) == 1
    ensures SpanAdmitted(requests, v, i + n, r.id, start) == SpanAdmitted(requests, v, i, r.id, start) + n
    ensures SpanGranted(requests, v, i + n, r.id, start) == SpanGranted(requests, v, i, r.id, start) + n
  {
    if n > 0 { BurstInSpan(requests, v, i, r, n - 1, start); }
  }

  // One request creates the counters of its minute only; a fresh counter lives for its TTL.
  lemma KeysCreated(s: Counters, r: Request, key: Key)
    requires key in s ==> key.minute == Minute(r.stamp) && s[key].expires == r.run + TTL
    ensures var t := Allowed(s, r).0; key in t ==> key.minute == Minute(r.stamp) && t[key].expires == r.run + TTL
  {}

  lemma {:induction false} BurstKeys(requests: seq<Request>, r: Request, n: nat, key: Key)
    requires Burst(requests, 0, r, n)
    ensures var s := Run(requests, n); key in s ==> key.minute == Minute(r.stamp) && s[key].expires == r.run + TTL
  {
    if n > 0 {
      BurstKeys(requests, r, n - 1, key);
      KeysCreated(Run(requests, n - 1), r, key);
    }
  }

  // After a first burst there is room for n requests of another minute, or once it has expired.
  lemma FreshRoom(requests: seq<Request>, r: Request, k: nat, next: Request, n: nat)
    requires Burst(requests, 0, r, k) && n <= Rpm(next.rpm) && n <= Tpm(next.tpm) && Estimate(next.estimated) == 1
    requires k == 0 || Minute(next.stamp) != Minute(r.stamp) || next.run >= r.run + TTL
    ensures HasRoom(Run(requests, k), next, n)
  {
    BurstKeys(requests, r, k, Requests(next.id, Minute(next.stamp)));
    BurstKeys(requests, r, k, Tokens(next.id, Minute(next.stamp)));
  }

  // A burst of n, then one of m.
  function TwoBursts(r: Request, n: nat, next: Request, m: nat): seq<Request> {
    seq(n + m, j => if j < n then r else next)
  }

  lemma BothPass(r: Request, n: nat, next: Request, m: nat)
    requires n <= Rpm(r.rpm) && n <= Tpm(r.tpm) && Estimate(r.estimated) == 1
    requires m <= Rpm(next.rpm) && m <= Tpm(next.tpm) && Estimate(next.estimated) == 1
    requires Minute(next.stamp) != Minute(r.stamp) || next.run >= r.run + TTL
    ensures var requests := TwoBursts(r, n, next, m);
            && Burst(requests, 0, r, n) && AllAdmitted(Verdicts(requests), 0, n)
            && Burst(requests, n, next, m) && AllAdmitted(Verdicts(requests), n, m)
  {
    var requests := TwoBursts(r, n, next, m);
    FreshRoom(requests, r, 0, r, n);
    BurstPasses(requests, 0, r, n);
    FreshRoom(requests, r, n, next, m);
    BurstPasses(requests, n, next, m);
  }

  lemma BurstsShare(r: Request, n: nat, next: Request, m: nat, d: int)
    requires r.id == next.id && r.rpm == next.rpm && r.tpm == next.tpm
    requires r.stamp <= r.run <= r.stamp + d && next.stamp <= next.run <= next.stamp + d
    ensures var requests := TwoBursts(r, n, next, m); Delayed(requests, d) && SameLimits(requests, r.id, r.rpm, r.tpm)
  {}

  lemma BothCount(requests: seq<Request>, v: seq<bool>, r: Request, n: nat, next: Request, m: nat, start: int)
    requires requests == TwoBursts(r, n, next, m) && |v| == n + m && AllAdmitted(v, 0, n) && AllAdmitted(v, n, m)
    requires Estimate(r.estimated) == Estimate(next.estimated) == 1
    requires InSpan(r, next.id, start) && InSpan(next, r.id, start)
    ensures SpanAdmitted(requests, v, n + m, r.id, start) == SpanGranted(requests, v, n + m, r.id, start) == n + m
    ensures Minute(r.stamp) == Minute(next.stamp) ==> Admitted(requests, v, n + m, r.id, Minute(r.stamp)) == n + m
  {
    BurstInSpan(requests, v, 0, r, n, start);
    BurstInSpan(requests, v, n, next, m, start);
    if Minute(r.stamp) == Minute(next.stamp) {
      BurstAdmitted(requests, v, 0, r, n, Minute(r.stamp));
      BurstAdmitted(requests, v, n, next, m, Minute(r.stamp));
    }
  }

  lemma BurstsAttain(r: Request, n: nat, next: Request, m: nat, start: int)
    requires n <= Rpm(r.rpm) && n <= Tpm(r.tpm) && Estimate(r.estimated) == 1
    requires m <= Rpm(next.rpm) && m <= Tpm(next.tpm) && Estimate(next.estimated) == 1
    requires Minute(next.stamp) != Minute(r.stamp) || next.run >= r.run + TTL
    requires InSpan(r, next.id, start) && InSpan(next, r.id, start)
    ensures var requests := TwoBursts(r, n, next, m);
            && AdmittedFrom(requests, r.id, start) == (n + m, n + m)
            && (Minute(r.stamp) == Minute(next.stamp) ==>
                  Admitted(requests, Verdicts(requests), |requests|, r.id, Minute(r.stamp)) == n + m)
  {
    var requests := TwoBursts(r, n, next, m);
    BothPass(r, n, next, m);
    BothCount(requests, Verdicts(requests), r, n, next, m, start);
  }

  /** Twice the limits are reached, whatever the limit: a full minute's requests in its last
      second and the next minute's in its first are all admitted. */
  lemma SpanBoundAttained(id: string, rpm: int) returns (requests: seq<Request>)
    ensures Timely(requests) && SameLimits(requests, id, rpm, Limit(rpm, 60))
    ensures AdmittedFrom(requests, id, 59) == (2 * Limit(rpm, 60), 2 * Limit(rpm, 60))
  {
    var n := Limit(rpm, 60);
    var last, first := Request(id, rpm, n, 1, 59, 59), Request(id, rpm, n, 1, 60, 60);
    requests := TwoBursts(last, n, first, n);
    BurstsAttain(last, n, first, n, 59);
    BurstsShare(last, n, first, n, 10);
  }

  /** A script delayed by eleven seconds finds its minute's counters gone: whatever the limit,
      one request too many is admitted. */
  lemma LateScriptOverAdmits(id: string, rpm: int) returns (requests: seq<Request>)
    ensures Delayed(requests, 11) && SameLimits(requests, id, rpm, Limit(rpm, 60) + 1)
    ensures Admitted(requests, Verdicts(requests), |requests|, id, 0) == Limit(rpm, 60) + 1
  {
    var n := Limit(rpm, 60);
    var early, late := Request(id, rpm, n + 1, 1, 0, 0), Request(id, rpm, n + 1, 1, 59, 70);
    requests := TwoBursts(early, n, late, 1);
    BurstsAttain(early, n, late, 1, 0);
    BurstsShare(early, n, late, 1, 11);
  }

  /** How late a script may run: the limits hold in every run whose delays are at most d if and
      only if d is at most ten seconds. */
  lemma DelayAllowedIff(d: int)
    ensures (forall requests, id, minute, rpm, tpm ::
               Delayed(requests, d) && SameLimits(requests, id, rpm, tpm) ==>
                 WithinLimits(requests, id, minute, rpm, tpm))
       <==> d <= 10
  {
    if d <= 10 {
      forall requests, id, minute, rpm, tpm | Delayed(requests, d) && SameLimits(requests, id, rpm, tpm)
        ensures WithinLimits(requests, id, minute, rpm, tpm)
      {
        assert Timely(requests);
        MinuteWithinLimits(requests, id, minute, rpm, tpm);
      }
    } else {
      var requests := LateScriptOverAdmits("", 1);
      assert Delayed(requests, d) && !WithinLimits(requests, "", 0, 1, 2);
    }
  }
}
