/** Concurrency leases over Redis counters: the acquire and release scripts of
    internal/scheduler/scheduler.go and internal/ratelimit/ratelimit.go, and the once-only
    releases built on them. */
module Leases {
  import Text

  // Redis keys and their counters; an absent key counts 0.
  type Counters = map<string, int>

  function CounterOf(counters: Counters, key: string): int { if key in counters then counters[key] else 0 }

  // INCR; above the limit DECR again. The reply carries whether a slot was taken and the count.
  function AcquireScript(counters: Counters, key: string, limit: int): (Counters, bool, int) {
    var n := CounterOf(counters, key) + 1;
    if n > limit then (counters[key := n - 1], false, n - 1) else (counters[key := n], true, n)
  }

  // DEL at one or less, otherwise DECR.
  function ReleaseScript(counters: Counters, key: string): Counters {
    var n := CounterOf(counters, key);
    if n <= 1 then counters - {key} else counters[key := n - 1]
  }

  function CredentialKey(id: string): string { "rdk:active:" + id }

  function OrganizationKey(id: string): string { "rdk:subscription:active:" + id }

  // Whose slots a counter counts.
  datatype Holder = Credential(id: string) | Organization(id: string)

  function KeyOf(h: Holder): string {
    match h
    case Credential(id) => CredentialKey(id)
    case Organization(id) => OrganizationKey(id)
  }

  /** Every credential and every organization has a counter of its own. */
  lemma KeysApart(h: Holder, k: Holder)
    ensures KeyOf(h) == KeyOf(k) <==> h == k
  {
    if h.Credential? && k.Credential? && KeyOf(h) == KeyOf(k) {
      Text.SamePrefix("rdk:active:", h.id, k.id);
    } else if h.Organization? && k.Organization? && KeyOf(h) == KeyOf(k) {
      Text.SamePrefix("rdk:subscription:active:", h.id, k.id);
    } else if h.Credential? != k.Credential? {
      assert KeyOf(h)[4] != KeyOf(k)[4];
    }
  }

  // ----- the counter service and a lease, as objects

  /** The Redis counters; each script is one atomic step. */
  class CounterStore {
    var counters: Counters

    constructor ()
      ensures counters == map[]
    {
      counters := map[];
    }

    method TryAcquire(key: string, limit: int) returns (ok: bool, active: int)
      modifies this
      ensures (counters, ok, active) == AcquireScript(old(counters), key, limit)
    {
      var n := CounterOf(counters, key) + 1;
      counters := counters[key := n];
      if n > limit {
        counters := counters[key := n - 1];
        assert counters == old(counters)[key := n - 1];
        return false, n - 1;
      }
      return true, n;
    }

    method Release(key: string)
      modifies this
      ensures counters == ReleaseScript(old(counters), key)
    {
      var n := CounterOf(counters, key);
      if n <= 1 {
        counters := counters - {key};
      } else {
        counters := counters[key := n - 1];
      }
    }
  }

  /** A slot once taken, with the closure that gives it back. */
  class Lease {
    const key: string
    var held: bool

    constructor (key: string)
      ensures this.key == key && held
    {
      this.key := key;
      held := true;
    }

    // Selection.Release and the closure of AcquireOrganizationConcurrency.
    method Release(store: CounterStore)
      modifies this, store
      ensures !held
      ensures store.counters == if old(held) then ReleaseScript(old(store.counters), key) else old(store.counters)
    {
      if held {
        store.Release(key);
        held := false;
      }
    }
  }

  /** A slot of an organization: refused without a service or a limit, otherwise one run of
      the acquire script, with a lease exactly when a slot was taken. */
  method AcquireOrganizationConcurrency(store: CounterStore, organization: string, limit: int)
    returns (lease: Lease?, active: int, unavailable: bool)
    modifies store
    ensures unavailable <==> limit <= 0
    ensures unavailable ==> lease == null && store.counters == old(store.counters)
    ensures !unavailable ==>
              var (counters, ok, n) := AcquireScript(old(store.counters), OrganizationKey(organization), limit);
              && store.counters == counters && active == n && (lease != null <==> ok)
              && (ok ==> fresh(lease) && lease.held && lease.key == OrganizationKey(organization))
  {
    if limit <= 0 {
      return null, 0, true;
    }
    var ok, n := store.TryAcquire(OrganizationKey(organization), limit);
    if !ok {
      return null, n, false;
    }
    lease := new Lease(OrganizationKey(organization));
    return lease, n, false;
  }

  // ----- runs of many clients

  datatype Grant = Grant(key: string, held: bool)

  // Counters and every lease ever granted.
  datatype State = State(counters: Counters, grants: seq<Grant>)

  /** A step of some client, or a key running out of its time to live. */
  datatype Event =
    | Acquire(key: string)
    | Release(grant: nat)
    | Expire(key: string)

  function Step(s: State, e: Event, limit: string -> int): State {
    match e
    case Acquire(key) =>
      var (counters, ok, _) := AcquireScript(s.counters, key, limit(key));
      State(counters, if ok then s.grants + [Grant(key, true)] else s.grants)
    case Release(g) =>
      if g < |s.grants| && s.grants[g].held
      then State(ReleaseScript(s.counters, s.grants[g].key), s.grants[g := Grant(s.grants[g].key, false)])
      else s
    case Expire(key) => State(s.counters - {key}, s.grants)
  }

  function Run(events: seq<Event>, limit: string -> int): State {
    if events == [] then State(map[], [])
    else Step(Run(events[..|events| - 1], limit), events[|events| - 1], limit)
  }

  lemma RunStep(events: seq<Event>, e: Event, limit: string -> int)
    ensures Run(events + [e], limit) == Step(Run(events, limit), e, limit)
  {
    assert (events + [e])[..|events|] == events;
  }

  lemma RunLonger(events: seq<Event>, more: seq<Event>, limit: string -> int)
    requires more != []
    ensures Run(events + more, limit) == Step(Run(events + more[..|more| - 1], limit), more[|more| - 1], limit)
  {
    assert (events + more)[..|events + more| - 1] == events + more[..|more| - 1];
  }

  // Leases of a key granted and not yet given back.
  ghost function Live(grants: seq<Grant>, key: string): nat {
    if grants == [] then 0
    else Live(grants[..|grants| - 1], key) + if grants[|grants| - 1] == Grant(key, true) then 1 else 0
  }

  lemma LiveGranted(grants: seq<Grant>, g: Grant, key: string)
    ensures Live(grants + [g], key) == Live(grants, key) + if g == Grant(key, true) then 1 else 0
  {}

  lemma {:induction false} LiveReleased(grants: seq<Grant>, g: nat, key: string)
    requires g < |grants| && grants[g].held
    ensures Live(grants[g := Grant(grants[g].key, false)], key) ==
            Live(grants, key) - if grants[g].key == key then 1 else 0
    ensures Live(grants, grants[g].key) >= 1
  {
    var n := |grants| - 1;
    var after := grants[g := Grant(grants[g].key, false)];
    if g < n {
      LiveReleased(grants[..n], g, key);
      LiveReleased(grants[..n], g, grants[g].key);
      assert after[..n] == grants[..n][g := Grant(grants[g].key, false)];
    } else {
      assert after[..n] == grants[..n];
    }
  }

  /** Every expiry strikes a key that has no live lease at that moment. */
  ghost predicate IdleExpiry(events: seq<Event>, limit: string -> int) {
    forall i | 0 <= i < |events| && events[i].Expire? :: Live(Run(events[..i], limit).grants, events[i].key) == 0
  }

  ghost predicate Exact(s: State) { forall key :: ExactAt(s, key) }

  ghost predicate Within(s: State, limit: string -> int, key: string) {
    var n := CounterOf(s.counters, key);
    0 <= n <= Live(s.grants, key) && (n <= limit(key) || n == 0)
  }

  ghost predicate Bounded(s: State, limit: string -> int) { forall key :: Within(s, limit, key) }

  lemma AcquireKeepsBounds(s: State, k: string, limit: string -> int, key: string)
    requires Within(s, limit, key)
    ensures Within(Step(s, Acquire(k), limit), limit, key)
  {}

  lemma ReleaseKeepsBounds(s: State, g: nat, limit: string -> int, key: string)
    requires Within(s, limit, key)
    ensures Within(Step(s, Release(g), limit), limit, key)
  {
    if g < |s.grants| && s.grants[g].held { LiveReleased(s.grants, g, key); }
  }

  lemma StepKeepsBounds(s: State, e: Event, limit: string -> int)
    requires Bounded(s, limit)
    ensures Bounded(Step(s, e, limit), limit)
  {
    forall key ensures Within(Step(s, e, limit), limit, key) {
      assert Within(s, limit, key);
      match e
      case Acquire(k) => AcquireKeepsBounds(s, k, limit, key);
      case Release(g) => ReleaseKeepsBounds(s, g, limit, key);
      case Expire(_) =>
    }
  }

  ghost predicate ExactAt(s: State, key: string) { CounterOf(s.counters, key) == Live(s.grants, key) }

  lemma AcquireKeepsExact(s: State, k: string, limit: string -> int, key: string)
    requires ExactAt(s, key)
    ensures ExactAt(Step(s, Acquire(k), limit), key)
  {
    LiveGranted(s.grants, Grant(k, true), key);
  }

  lemma ReleaseKeepsExact(s: State, g: nat, limit: string -> int, key: string)
    requires ExactAt(s, key)
    ensures ExactAt(Step(s, Release(g), limit), key)
  {
    if g < |s.grants| && s.grants[g].held { LiveReleased(s.grants, g, key); }
  }

  lemma StepKeepsExact(s: State, e: Event, limit: string -> int, key: string)
    requires ExactAt(s, key) && (e == Expire(key) ==> Live(s.grants, key) == 0)
    ensures ExactAt(Step(s, e, limit), key)
  {
    match e
    case Acquire(k) => AcquireKeepsExact(s, k, limit, key);
    case Release(g) => ReleaseKeepsExact(s, g, limit, key);
    case Expire(_) =>
  }

  /** Lease safety with expiry: under any interleaving of acquires, releases (repeated or
      not) and expiries, a counter stays between 0 and the number of live leases, and
      never passes its limit. */
  lemma {:induction false} LeasesBounded(events: seq<Event>, limit: string -> int)
    ensures Bounded(Run(events, limit), limit)
  {
    if events != [] {
      LeasesBounded(events[..|events| - 1], limit);
      StepKeepsBounds(Run(events[..|events| - 1], limit), events[|events| - 1], limit);
    }
  }

  lemma {:induction false} CountersExact(events: seq<Event>, limit: string -> int)
    requires IdleExpiry(events, limit)
    ensures Exact(Run(events, limit))
  {
    if events != [] {
      var n := |events| - 1;
      assert forall i | 0 <= i < n :: events[..n][..i] == events[..i];
      CountersExact(events[..n], limit);
      var s := Run(events[..n], limit);
      forall key ensures ExactAt(Step(s, events[n], limit), key) { StepKeepsExact(s, events[n], limit, key); }
    }
  }

  /** Lease safety: counters equal the live leases after every step of a run if and only if
      no expiry strikes a key with a live lease; a run without expiry is such a run. */
  lemma CountersExactIffIdleExpiry(events: seq<Event>, limit: string -> int)
    ensures (forall i | 0 <= i <= |events| :: Exact(Run(events[..i], limit))) <==> IdleExpiry(events, limit)
  {
    if IdleExpiry(events, limit) {
      forall i | 0 <= i <= |events| ensures Exact(Run(events[..i], limit)) { IdlePrefix(events, i, limit); }
    } else {
      var i :| 0 <= i < |events| && events[i].Expire? && Live(Run(events[..i], limit).grants, events[i].key) != 0;
      BusyPrefix(events, i, limit);
    }
  }

  lemma BusyPrefix(events: seq<Event>, i: nat, limit: string -> int)
    requires i < |events| && events[i].Expire? && Live(Run(events[..i], limit).grants, events[i].key) != 0
    ensures !Exact(Run(events[..i + 1], limit))
  {
    assert events[..i + 1] == events[..i] + [events[i]];
    BusyExpiry(events[..i], events[i].key, limit);
  }

  lemma IdlePrefix(events: seq<Event>, i: nat, limit: string -> int)
    requires IdleExpiry(events, limit) && i <= |events|
    ensures Exact(Run(events[..i], limit))
  {
    assert forall j | 0 <= j < i :: events[..i][..j] == events[..j];
    CountersExact(events[..i], limit);
  }

  lemma BusyExpiry(events: seq<Event>, key: string, limit: string -> int)
    requires Live(Run(events, limit).grants, key) != 0
    ensures !Exact(Run(events + [Expire(key)], limit))
  {
    RunStep(events, Expire(key), limit);
    assert !ExactAt(Run(events + [Expire(key)], limit), key);
  }

  /** In such a run no more leases are live than the limit allows, a slot is refused exactly when
      the limit is reached, and the count replied is that of the live leases, a new one included. */
  lemma LimitIsExact(events: seq<Event>, limit: string -> int, key: string)
    requires IdleExpiry(events, limit)
    ensures var s := Run(events, limit);
            && Live(s.grants, key) <= (if limit(key) < 0 then 0 else limit(key))
            && (AcquireScript(s.counters, key, limit(key)).1 <==> Live(s.grants, key) < limit(key))
            && AcquireScript(s.counters, key, limit(key)).2 ==
               Live(s.grants, key) + if Live(s.grants, key) < limit(key) then 1 else 0
  {
    LeasesBounded(events, limit);
    CountersExact(events, limit);
    var s := Run(events, limit);
    assert ExactAt(s, key) && Within(s, limit, key);
  }

  ghost predicate GivenBack(s: State, g: nat) { g < |s.grants| && !s.grants[g].held }

  lemma {:induction false} GivenBackStays(events: seq<Event>, more: seq<Event>, g: nat, limit: string -> int)
    requires GivenBack(Run(events, limit), g)
    ensures GivenBack(Run(events + more, limit), g)
  {
    if more == [] {
      assert events + more == events;
    } else {
      var before, last := more[..|more| - 1], more[|more| - 1];
      GivenBackStays(events, before, g, limit);
      RunLonger(events, more, limit);
    }
  }

  /** A lease is given back once: whatever happens after its release, by whomever, releasing it
      again changes nothing. */
  lemma ReleaseCountsOnce(events: seq<Event>, g: nat, more: seq<Event>, limit: string -> int)
    requires g < |Run(events, limit).grants|
    ensures var run := events + [Release(g)] + more; Run(run + [Release(g)], limit) == Run(run, limit)
  {
    RunStep(events, Release(g), limit);
    GivenBackStays(events + [Release(g)], more, g, limit);
    RunStep(events + [Release(g)] + more, Release(g), limit);
  }

  /** After any run, taking a slot and giving it back leaves every counter and every number of
      live leases as it was, and no key behind for a counter of zero. */
  lemma AcquireReleaseRestores(events: seq<Event>, key: string, limit: string -> int, other: string)
    requires AcquireScript(Run(events, limit).counters, key, limit(key)).1
    ensures var s := Run(events, limit);
            var t := Run(events + [Acquire(key)] + [Release(|s.grants|)], limit);
            && CounterOf(t.counters, other) == CounterOf(s.counters, other)
            && Live(t.grants, other) == Live(s.grants, other)
            && (CounterOf(s.counters, key) == 0 ==> key !in t.counters)
  {
    var s := Run(events, limit);
    RunStep(events, Acquire(key), limit);
    RunStep(events + [Acquire(key)], Release(|s.grants|), limit);
    LeasesBounded(events, limit);
    assert Within(s, limit, key);
    LiveGranted(s.grants, Grant(key, true), other);
    LiveReleased(s.grants + [Grant(key, true)], |s.grants|, other);
  }

  // The step is one on the counter of the key.
  ghost predicate Concerns(s: State, e: Event, key: string) {
    match e
    case Acquire(k) => k == key
    case Release(g) => g < |s.grants| && s.grants[g].key == key
    case Expire(k) => k == key
  }

  // The step is one of some holder other than h.
  ghost predicate Elsewhere(s: State, e: Event, h: Holder) { exists k: Holder :: k != h && Concerns(s, e, KeyOf(k)) }

  ghost predicate ElsewhereAt(events: seq<Event>, more: seq<Event>, limit: string -> int, h: Holder, i: nat)
    requires i < |more|
  {
    Elsewhere(Run(events + more[..i], limit), more[i], h)
  }

  ghost predicate AllElsewhere(events: seq<Event>, more: seq<Event>, limit: string -> int, h: Holder) {
    forall i: nat | i < |more| :: ElsewhereAt(events, more, limit, h, i)
  }

  lemma OtherKey(s: State, e: Event, limit: string -> int, k: string, key: string)
    requires Concerns(s, e, k) && k != key
    ensures CounterOf(Step(s, e, limit).counters, key) == CounterOf(s.counters, key)
    ensures Live(Step(s, e, limit).grants, key) == Live(s.grants, key)
  {
    match e
    case Acquire(k) => LiveGranted(s.grants, Grant(k, true), key);
    case Release(g) => if s.grants[g].held { LiveReleased(s.grants, g, key); }
    case Expire(_) =>
  }

  ghost predicate Alike(s: State, t: State, key: string) {
    CounterOf(t.counters, key) == CounterOf(s.counters, key) && Live(t.grants, key) == Live(s.grants, key)
  }

  lemma StepElsewhere(s: State, e: Event, limit: string -> int, h: Holder)
    requires Elsewhere(s, e, h)
    ensures Alike(s, Step(s, e, limit), KeyOf(h))
  {
    var k: Holder :| k != h && Concerns(s, e, KeyOf(k));
    KeysApart(h, k);
    OtherKey(s, e, limit, KeyOf(k), KeyOf(h));
  }

  lemma NextStep(events: seq<Event>, more: seq<Event>, n: nat, limit: string -> int)
    requires 0 < n <= |more|
    ensures Run(events + more[..n], limit) == Step(Run(events + more[..n - 1], limit), more[n - 1], limit)
  {
    RunLonger(events, more[..n], limit);
    assert more[..n][..n - 1] == more[..n - 1];
  }

  lemma {:induction false} ApartUpTo(events: seq<Event>, more: seq<Event>, n: nat, limit: string -> int, h: Holder)
    requires AllElsewhere(events, more, limit, h) && n <= |more|
    ensures Alike(Run(events, limit), Run(events + more[..n], limit), KeyOf(h))
  {
    if n == 0 {
      assert events + more[..0] == events;
    } else {
      ApartUpTo(events, more, n - 1, limit, h);
      assert ElsewhereAt(events, more, limit, h, n - 1);
      StepElsewhere(Run(events + more[..n - 1], limit), more[n - 1], limit, h);
      NextStep(events, more, n, limit);
    }
  }

  /** Holders do not get in each other's way: whatever other credentials and organizations do,
      a holder's counter, its live leases and the answer to its next request stay as they are. */
  lemma HoldersApart(events: seq<Event>, more: seq<Event>, limit: string -> int, h: Holder)
    requires AllElsewhere(events, more, limit, h)
    ensures var s, t, key := Run(events, limit), Run(events + more, limit), KeyOf(h);
            && Alike(s, t, key)
            && AcquireScript(t.counters, key, limit(key)).1 == AcquireScript(s.counters, key, limit(key)).1
  {
    ApartUpTo(events, more, |more|, limit, h);
    assert more[..|more|] == more;
  }

  function Acquires(key: string, n: nat): (events: seq<Event>)
    ensures |events| == n && forall i | 0 <= i < n :: events[i] == Acquire(key)
  {
    if n == 0 then [] else Acquires(key, n - 1) + [Acquire(key)]
  }

  lemma AcquireTakes(s: State, key: string, limit: string -> int)
    requires CounterOf(s.counters, key) < limit(key)
    ensures var t := Step(s, Acquire(key), limit);
            && CounterOf(t.counters, key) == CounterOf(s.counters, key) + 1
            && Live(t.grants, key) == Live(s.grants, key) + 1
  {
    LiveGranted(s.grants, Grant(key, true), key);
  }

  lemma NoAcquire(events: seq<Event>, key: string, limit: string -> int)
    ensures Run(events + Acquires(key, 0), limit) == Run(events, limit)
  {
    assert events + [] == events;
  }

  lemma OneMoreAcquire(events: seq<Event>, key: string, n: nat, limit: string -> int)
    requires n > 0
    ensures Run(events + Acquires(key, n), limit) ==
            Step(Run(events + Acquires(key, n - 1), limit), Acquire(key), limit)
  {
    assert events + Acquires(key, n) == events + Acquires(key, n - 1) + [Acquire(key)];
    RunStep(events + Acquires(key, n - 1), Acquire(key), limit);
  }

  // Up to the limit, every acquire is granted.
  lemma {:induction false} FillUp(events: seq<Event>, key: string, n: nat, limit: string -> int)
    requires n == 0 || CounterOf(Run(events, limit).counters, key) + n <= limit(key)
    ensures var s, t := Run(events, limit), Run(events + Acquires(key, n), limit);
            && CounterOf(t.counters, key) == CounterOf(s.counters, key) + n
            && Live(t.grants, key) == Live(s.grants, key) + n
  {
    if n == 0 {
      NoAcquire(events, key, limit);
    } else {
      FillUp(events, key, n - 1, limit);
      AcquireTakes(Run(events + Acquires(key, n - 1), limit), key, limit);
      OneMoreAcquire(events, key, n, limit);
    }
  }

  ghost predicate ExpiryFree(events: seq<Event>) { forall i | 0 <= i < |events| :: !events[i].Expire? }

  lemma {:induction false} ExactStays(events: seq<Event>, more: seq<Event>, limit: string -> int, key: string)
    requires ExactAt(Run(events, limit), key) && ExpiryFree(more)
    ensures ExactAt(Run(events + more, limit), key)
  {
    if more == [] {
      assert events + more == events;
    } else {
      var before, last := more[..|more| - 1], more[|more| - 1];
      ExactStays(events, before, limit, key);
      StepKeepsExact(Run(events + before, limit), last, limit, key);
      RunLonger(events, more, limit);
    }
  }

  // Live leases beyond the limit; a limit below zero admits as little as zero does.
  ghost predicate Overrun(s: State, limit: string -> int, key: string) {
    Live(s.grants, key) > if limit(key) < 0 then 0 else limit(key)
  }

  /** When the limit on live leases can be overrun: after any run, some continuation without
      expiry overruns it if and only if the counter has fallen behind the live leases. */
  lemma OverrunIffBehind(events: seq<Event>, limit: string -> int, key: string)
    ensures (exists more :: ExpiryFree(more) && Overrun(Run(events + more, limit), limit, key))
       <==> CounterOf(Run(events, limit).counters, key) < Live(Run(events, limit).grants, key)
  {
    var s := Run(events, limit);
    LeasesBounded(events, limit);
    assert Within(s, limit, key);
    if ExactAt(s, key) {
      forall more | ExpiryFree(more) ensures !Overrun(Run(events + more, limit), limit, key) {
        ExactStays(events, more, limit, key);
        LeasesBounded(events + more, limit);
        assert Within(Run(events + more, limit), limit, key);
      }
    } else {
      var n := (if limit(key) < 0 then 0 else limit(key)) - CounterOf(s.counters, key);
      FillUp(events, key, n, limit);
      assert ExpiryFree(Acquires(key, n));
      assert Overrun(Run(events + Acquires(key, n), limit), limit, key);
    }
  }

  /** Expiry under live leases is such a fall: whatever the limit, filling it, losing the key
      and asking once more leaves one lease too many live. */
  lemma ExpiryOverAdmits(key: string, limit: string -> int)
    requires limit(key) >= 1
    ensures Live(Run(Acquires(key, limit(key)) + [Expire(key)] + Acquires(key, 1), limit).grants, key) == limit(key) + 1
  {
    var fill := Acquires(key, limit(key));
    assert Live(Run(fill, limit).grants, key) == limit(key) by {
      FillUp([], key, limit(key), limit);
      assert [] + fill == fill;
    }
    RunStep(fill, Expire(key), limit);
    FillUp(fill + [Expire(key)], key, 1, limit);
  }
}
