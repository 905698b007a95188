/** When an allocation is granted, when a job ends credited, and which of its failures are final
    (internal/provisioning/mock_enterprise.go, internal/provisioning/worker.go). */
module Fulfilment {
  import opened Wrappers
  import opened Provisioning
  import opened Credits
  import Decimals
  import Text

  // ----- grants

  // The account is there, and its owner asks.
  ghost predicate Knows(accounts: Accounts, id: string, owner: Owner) { id in accounts && accounts[id].owner == owner }

  // A first amount that fits: in the account's currency, and with a sum that can be stored.
  ghost predicate Fits(a: Account, amount: string, currency: string)
    requires Decimals.Parse(a.credit).Ok?
  {
    && (a.currency == "" || a.currency == currency)
    && Decimals.Parse(amount).Ok?
    && -Decimals.BOUND < Decimals.Amount(a.credit) + Decimals.Amount(amount) < Decimals.BOUND
  }

  lemma SumFits(credit: string, amount: string)
    requires Decimals.Parse(credit).Ok?
    ensures Sum(credit, amount).Ok? <==>
            && Decimals.Parse(amount).Ok?
            && -Decimals.BOUND < Decimals.Amount(credit) + Decimals.Amount(amount) < Decimals.BOUND
    ensures Sum(credit, amount).Ok? ==>
              && Decimals.Parse(Sum(credit, amount).value).Ok?
              && Decimals.Amount(Sum(credit, amount).value) == Decimals.Amount(credit) + Decimals.Amount(amount)
  {
    Decimals.ParseStable(credit);
    if Decimals.Parse(amount).Ok? { Decimals.AddExact(Decimals.Parse(credit).value, amount); }
  }

  /** An enabled adapter grants exactly the owner's requests whose key was granted before or whose
      amount fits; a first grant adds the amount and reports the new credit. A refusal says why:
      disabled, not the owner's, or anything else. */
  lemma GrantedIff(accounts: Accounts, enabled: bool, c: Call)
    requires c.AllocateCall? && (c.id in accounts ==> Decimals.Parse(accounts[c.id].credit).Ok?)
    ensures Granted(accounts, enabled, c).Done? <==>
            && enabled && Knows(accounts, c.id, c.owner)
            && (c.key in accounts[c.id].allocations || Fits(accounts[c.id], c.amount, c.currency))
    ensures Granted(accounts, enabled, c).Done? && c.key !in accounts[c.id].allocations ==>
              var result, a := Granted(accounts, enabled, c).value, Applied(accounts, enabled, c)[c.id];
              && result.reference == "mock-allocation-" + Swapped(c.key, ':', '-')
              && result.creditAfter == a.credit && result.currency == a.currency == c.currency
              && Decimals.Parse(a.credit).Ok?
              && Decimals.Amount(a.credit) == Decimals.Amount(accounts[c.id].credit) + Decimals.Amount(c.amount)
    ensures Granted(accounts, enabled, c) == Refused(Unsupported) <==> !enabled
    ensures Granted(accounts, enabled, c) == Refused(Mismatch) <==> enabled && !Knows(accounts, c.id, c.owner)
  {
    if c.id in accounts { SumFits(accounts[c.id].credit, c.amount); }
  }

  // ----- names

  lemma {:induction false} StrippedWhole(s: string, c: char)
    requires c !in s
    ensures Stripped(s, c) == s
  {
    if s != "" {
      StrippedWhole(s[1..], c);
      assert s == [s[0]] + s[1..];
    }
  }

  lemma StrippedFirst(c: char, s: string, d: char)
    ensures Stripped([c] + s, d) == (if c == d then "" else [c]) + Stripped(s, d)
  {
    assert ([c] + s)[1..] == s;
  }

  /** Dropping a character leaves the stretches between its occurrences, joined. */
  lemma {:induction false} StrippedJoins(a: string, b: string, c: char)
    requires c !in a
    ensures Stripped(a, c) == a && Stripped(a + ([c] + b), c) == a + Stripped(b, c)
  {
    StrippedWhole(a, c);
    if a == "" {
      assert a + ([c] + b) == [c] + b;
      StrippedFirst(c, b, c);
    } else {
      var rest := a[1..] + ([c] + b);
      StrippedJoins(a[1..], b, c);
      assert a + ([c] + b) == [a[0]] + rest;
      StrippedFirst(a[0], rest, c);
      assert [a[0]] + (a[1..] + Stripped(b, c)) == a + Stripped(b, c);
    }
  }

  /** A new account is named after the first twelve characters of its binding's id, dashes dropped,
      so two bindings get the same names exactly when those agree. */
  lemma NamesMeetIff(a: string, b: string, owner: Owner, other: Owner)
    ensures var s := Stripped(a, '-');
            var t := if |s| <= 12 then s else s[..12];
            BindingOf(NewAccount(a, owner)) == Binding("mock-account-" + t, "mock-project-" + t, "mock-secret-" + t)
    ensures BindingOf(NewAccount(a, owner)) == BindingOf(NewAccount(b, other)) <==>
            NewAccount(a, owner).externalProject == NewAccount(b, other).externalProject
  {
    var x, y := Short(a), Short(b);
    if "mock-project-" + x == "mock-project-" + y { Text.SamePrefix("mock-project-", x, y); }
  }

  // Alike but for colons against dashes.
  ghost predicate AlikeKeys(k: string, l: string) {
    |k| == |l| && forall i | 0 <= i < |k| :: k[i] == l[i] || (k[i] in ":-" && l[i] in ":-")
  }

  /** The reference of a grant is its key with dashes for colons, so two keys share a reference
      exactly when they differ in nothing else. */
  lemma ReferencesMeetIff(k: string, l: string)
    ensures Swapped(k, ':', '-') == Swapped(l, ':', '-') <==> AlikeKeys(k, l)
  {
    var x, y := Swapped(k, ':', '-'), Swapped(l, ':', '-');
    assert |x| == |k| && |y| == |l|;
    if |k| == |l| {
      assert forall i | 0 <= i < |k| :: x[i] == y[i] <==> k[i] == l[i] || (k[i] in ":-" && l[i] in ":-");
    }
  }

  // ----- undisturbed jobs

  // An allocation job that nothing outside the adapter stops: registry, store and worker all
  // answer, for the job's binding and its owner.
  ghost predicate Undisturbed(job: Job, w: World, owner: Owner) {
    && job.operation.AllocateCredit? && job.amount.Some? && w.crash.Never? && Provisioning.Answers(job, w)
    && w.registered && w.capability.enabled && w.capability.credit && w.capability.binding
    && w.record.Ok? && w.record.value.owner == owner && w.persisted.Ok? && w.persisted.value.owner == owner
  }

  // The store has the binding as set up already.
  ghost predicate SetUp(w: World)
    requires w.record.Ok?
  {
    w.record.value.active && w.record.value.externalProject != ""
  }

  function CallOf(job: Job, owner: Owner): Call
    requires job.amount.Some?
  {
    AllocateCall(job.binding, owner, job.key, job.amount.value, job.currency)
  }

  lemma BoundJob(accounts: Accounts, job: Job, w: World, owner: Owner)
    requires Undisturbed(job, w, owner) && SetUp(w)
    ensures Processing(accounts, true, job, w).report.Credited? <==> Granted(accounts, true, CallOf(job, owner)).Done?
  {}

  lemma UnboundJob(accounts: Accounts, job: Job, w: World, owner: Owner)
    requires Undisturbed(job, w, owner) && !SetUp(w)
    ensures var (after, r) := Ensure(accounts, true, job.binding, owner);
            Processing(accounts, true, job, w).report.Credited? <==>
            r.Done? && Granted(after, true, CallOf(job, owner)).Done?
  {}

  // The job's amount fits what the binding was credited so far.
  ghost predicate Affordable(p: Progress, job: Job)
    requires job.amount.Some?
  {
    && (job.binding in p.accounts ==> p.accounts[job.binding].currency in ["", job.currency])
    && Decimals.Parse(job.amount.value).Ok?
    && -Decimals.BOUND < Total(p.history, job.binding) + Value(job.amount.value) < Decimals.BOUND
  }

  lemma SetUpCredited(p: Progress, job: Job, w: World, owner: Owner)
    requires Undisturbed(job, w, owner) && SetUp(w) && Agrees(p.accounts, p.history, job.binding)
    ensures Processing(p.accounts, true, job, w).report.Credited? <==>
            && Knows(p.accounts, job.binding, owner)
            && (First(p.history, job.binding, job.key).Some? || Affordable(p, job))
  {
    BoundJob(p.accounts, job, w, owner);
    GrantedIff(p.accounts, true, CallOf(job, owner));
  }

  lemma SetUpNowCredited(p: Progress, job: Job, w: World, owner: Owner)
    requires Undisturbed(job, w, owner) && !SetUp(w) && Agrees(p.accounts, p.history, job.binding)
    ensures Processing(p.accounts, true, job, w).report.Credited? <==>
            && (job.binding in p.accounts ==> p.accounts[job.binding].owner == owner)
            && (First(p.history, job.binding, job.key).Some? || Affordable(p, job))
  {
    NothingIsZero();
    UnboundJob(p.accounts, job, w, owner);
    GrantedIff(Ensure(p.accounts, true, job.binding, owner).0, true, CallOf(job, owner));
  }

  /** An undisturbed allocation job ends credited, whatever attempts came before it, exactly when
      its key was granted before or its amount fits, on an account of its owner or one that is
      still to be set up. */
  lemma UndisturbedJobIsCredited(attempts: seq<Attempt>, job: Job, w: World, owner: Owner)
    requires Undisturbed(job, w, owner)
    ensures var p := Attempted(true, attempts);
            Processing(p.accounts, true, job, w).report.Credited? <==>
            && (if job.binding in p.accounts then p.accounts[job.binding].owner == owner else !SetUp(w))
            && (First(p.history, job.binding, job.key).Some? || Affordable(p, job))
  {
    var p := Attempted(true, attempts);
    AttemptsAgree(true, attempts, job.binding);
    if SetUp(w) {
      SetUpCredited(p, job, w, owner);
    } else {
      SetUpNowCredited(p, job, w, owner);
    }
  }

  // A binding job that nothing outside the adapter stops.
  ghost predicate Cleared(job: Job, w: World) {
    && w.crash.Never? && w.registered && w.capability.enabled && w.record.Ok? && w.persisted.Ok?
    && (job.operation.RefreshBinding? ==> w.capability.refresh)
    && (job.operation.EnsureBinding? ==> w.capability.binding)
  }

  /** A refresh or set-up that is let through ends with the project bound, unless the account is
      another owner's, the adapter is disabled or, for a refresh, there is no account: that is
      final. */
  lemma BindingEnds(accounts: Accounts, enabled: bool, job: Job, w: World)
    requires Cleared(job, w) && !job.operation.AllocateCredit?
    ensures var r, report := w.record.value, Processing(accounts, enabled, job, w).report;
            if job.operation.RefreshBinding? then
              if Knows(accounts, r.id, r.owner) then report == Bound(accounts[r.id].externalProject)
              else report.Failed? && report.code == "refresh_failed" && report.terminal
            else if SetUp(w) then report == Bound(r.externalProject)
            else if enabled && (r.id in accounts ==> accounts[r.id].owner == r.owner) then
              report == Bound(w.persisted.value.externalProject)
            else report.Failed? && report.code == "ensure_binding_failed" && report.terminal
  {}

  /** Only a crash cuts a run off; after one that hits behind a call the call has been made, and the
      run reports nothing. */
  lemma OnlyCrashesCutOff(accounts: Accounts, enabled: bool, job: Job, w: World)
    requires Refusal(job, w).None?
    ensures var t := Processing(accounts, enabled, job, w);
            && (w.crash.Never? ==> !t.report.CutOff?)
            && (w.crash.BeforeCalls? ==> t == Trace([], CutOff))
            && (w.crash.AfterAllocation? ==> !t.report.Credited?)
            && (w.crash.AfterBinding? && t.calls != [] && t.calls[0].EnsureCall? ==> t.calls == [t.calls[0]])
            && (t.report.CutOff? && !w.crash.BeforeCalls? && !job.operation.RefreshBinding? ==> t.calls != [])
  {}

  /** Two gates come later: an allocation job whose binding is not set up and cannot be, or that has
      no amount, makes no call and fails for good. */
  lemma LaterGates(accounts: Accounts, enabled: bool, job: Job, w: World)
    requires Cleared(job, w) && job.operation.AllocateCredit? && w.capability.credit
    ensures !SetUp(w) && !w.capability.binding ==>
              var t := Processing(accounts, enabled, job, w);
              t.calls == [] && t.report.Failed? && t.report.terminal && t.report.code == "automatic_binding_unsupported"
    ensures SetUp(w) && job.amount.None? ==>
              var t := Processing(accounts, enabled, job, w);
              t.calls == [] && t.report.Failed? && t.report.terminal && t.report.code == "allocation_amount_missing"
  {}

  // ----- failures

  // A gate a job passes before any call, and the code of its failure.
  datatype Gate = Gate(passed: bool, code: string)

  ghost function Gates(job: Job, w: World): seq<Gate> {
    [Gate(w.registered, "adapter_not_registered"), Gate(w.capability.enabled, "adapter_disabled"),
     Gate(job.operation.AllocateCredit? ==> w.capability.credit, "automatic_credit_unsupported"),
     Gate(job.operation.EnsureBinding? ==> w.capability.binding, "automatic_binding_unsupported"),
     Gate(job.operation.RefreshBinding? ==> w.capability.refresh, "refresh_unsupported"),
     Gate(w.record.Ok?, "binding_not_found")]
  }

  /** A job with a gate in its way makes no call and fails for good, with the code of the first. */
  lemma FirstGateStops(accounts: Accounts, enabled: bool, job: Job, w: World, k: nat)
    requires k < |Gates(job, w)| && !Gates(job, w)[k].passed && forall j | 0 <= j < k :: Gates(job, w)[j].passed
    ensures var t := Processing(accounts, enabled, job, w);
            t.calls == [] && t.report.Failed? && t.report.terminal && t.report.code == Gates(job, w)[k].code
  {
    var g := Gates(job, w);
    assert k > 0 ==> g[0].passed;
    assert k > 1 ==> g[1].passed;
    assert k > 2 ==> g[2].passed;
    assert k > 3 ==> g[3].passed;
    assert k > 4 ==> g[4].passed;
  }

  // The call at the end of a run found its account, and the account its owner.
  ghost predicate FoundOwner(accounts: Accounts, enabled: bool, calls: seq<Call>) {
    && calls != [] && enabled
    && var c := calls[|calls| - 1]; c.AllocateCall? && Knows(After(accounts, enabled, calls), c.id, c.owner)
  }

  lemma OwnerStillFound(accounts: Accounts, enabled: bool, c: Call, calls: seq<Call>)
    requires calls != []
    ensures FoundOwner(accounts, enabled, [c] + calls) <==> FoundOwner(Applied(accounts, enabled, c), enabled, calls)
  {
    OneMoreCall(accounts, enabled, c, calls);
    assert ([c] + calls)[|calls|] == calls[|calls| - 1];
  }

  // The failure may be tried again as long as attempts remain.
  ghost predicate Passing(accounts: Accounts, enabled: bool, t: Trace)
    requires t.report.Failed?
  {
    || t.report.code == "persist_binding_failed"
    || (t.report.code == "allocation_failed" && FoundOwner(accounts, enabled, t.calls))
  }

  // Final or not, and how long to wait, as they should be.
  ghost predicate Classified(accounts: Accounts, enabled: bool, job: Job, t: Trace)
    requires t.report.Failed?
  {
    && (!t.report.terminal <==> job.attempts < job.maxAttempts && Passing(accounts, enabled, t))
    && t.report.retry == 15 * if job.attempts >= 1 then job.attempts else 1
  }

  lemma AllocatingClassified(accounts: Accounts, enabled: bool, job: Job, w: World, record: Record)
    requires Allocating(accounts, enabled, job, w, record).report.Failed?
    ensures Classified(accounts, enabled, job, Allocating(accounts, enabled, job, w, record))
  {
    var t := Allocating(accounts, enabled, job, w, record);
    if t.calls != [] { OneCall(accounts, enabled, t.calls[0]); }
  }

  lemma SettingUpClassified(accounts: Accounts, enabled: bool, job: Job, w: World, record: Record)
    requires SettingUp(accounts, enabled, job, w, record).report.Failed?
    ensures Classified(accounts, enabled, job, SettingUp(accounts, enabled, job, w, record))
  {
    var t, c := SettingUp(accounts, enabled, job, w, record), EnsureCall(record.id, record.owner);
    if t.report.code != "ensure_binding_failed" && t.report.code != "persist_binding_failed" {
      var s := Applied(accounts, enabled, c);
      var rest := Allocating(s, enabled, job, w, w.persisted.value);
      AllocatingClassified(s, enabled, job, w, w.persisted.value);
      if rest.calls != [] { OwnerStillFound(accounts, enabled, c, rest.calls); }
    }
  }

  lemma RefreshClassified(accounts: Accounts, enabled: bool, job: Job, w: World)
    requires w.record.Ok? && Refreshing(accounts, job, w).Failed?
    ensures Classified(accounts, enabled, job, Trace([], Refreshing(accounts, job, w)))
  {}

  /** A failure is final unless attempts remain and it is a failed save, or a refusal of the amount
      or currency of an account found to be the owner's; the next attempt waits fifteen seconds for
      each attempt made. */
  lemma RetriedIff(accounts: Accounts, enabled: bool, job: Job, w: World)
    requires Processing(accounts, enabled, job, w).report.Failed?
    ensures var t := Processing(accounts, enabled, job, w);
            && (!t.report.terminal <==> job.attempts < job.maxAttempts && Passing(accounts, enabled, t))
            && t.report.retry == 15 * if job.attempts >= 1 then job.attempts else 1
  {
    if Refusal(job, w).None? && job.operation.RefreshBinding? {
      RefreshClassified(accounts, enabled, job, w);
    } else if Refusal(job, w).None? {
      var record := w.record.value;
      if record.active && record.externalProject != "" {
        AllocatingClassified(accounts, enabled, job, w, record);
      } else if w.capability.binding {
        SettingUpClassified(accounts, enabled, job, w, record);
      }
    }
  }
}
