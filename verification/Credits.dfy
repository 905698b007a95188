/** Exactly-once credit: whatever calls reach the provisioner, and however often the worker's
    runs are cut off and retried, an account holds the sum of the first accepted amount of
    each idempotency key. */
module Credits {
  import opened Wrappers
  import opened Provisioning
  import Decimals

  // ----- single calls

  function Granted(accounts: Accounts, enabled: bool, c: Call): Reply<Allocation>
    requires c.AllocateCall?
  {
    Allocate(accounts, enabled, c.id, c.owner, c.key, c.amount, c.currency).1
  }

  function Value(amount: string): int {
    match Decimals.Parse(amount)
    case Ok(t) => Decimals.Units(t)
    case Err => 0
  }

  lemma SumExact(credit: string, amount: string)
    ensures Sum(credit, amount).Ok? ==>
              && Decimals.Parse(credit).Ok? && Decimals.Parse(amount).Ok?
              && Decimals.Parse(Sum(credit, amount).value).Ok?
              && Value(Sum(credit, amount).value) == Value(credit) + Value(amount)
  {
    if Sum(credit, amount).Ok? {
      Decimals.ParseStable(credit);
      var current := Decimals.Parse(credit).value;
      assert Decimals.Rational(amount).Ok?;
      Decimals.AddExact(current, amount);
    }
  }

  lemma NothingIsZero()
    ensures Decimals.Parse("0").Ok? && Value("0") == 0
  {
    Decimals.ZeroNumeral();
  }

  /** An account, once there, keeps its owner, its identifiers and every stored result. */
  ghost predicate Grown(a: Account, b: Account) {
    && b.owner == a.owner && BindingOf(b) == BindingOf(a)
    && forall key | key in a.allocations :: key in b.allocations && b.allocations[key] == a.allocations[key]
  }

  lemma AppliedGrows(accounts: Accounts, enabled: bool, call: Call, id: string)
    requires id in accounts
    ensures id in Applied(accounts, enabled, call) && Grown(accounts[id], Applied(accounts, enabled, call)[id])
  {}

  lemma {:induction false} AccountStays(accounts: Accounts, enabled: bool, calls: seq<Call>, id: string)
    requires id in accounts
    ensures id in After(accounts, enabled, calls) && Grown(accounts[id], After(accounts, enabled, calls)[id])
    decreases |calls|
  {
    if calls != [] {
      AppliedGrows(accounts, enabled, calls[0], id);
      AccountStays(Applied(accounts, enabled, calls[0]), enabled, calls[1..], id);
    }
  }

  /** EnsureBinding: after a first success, and any calls in between, the same owner gets the
      same account again, by setting up or by refreshing, and nothing changes; another owner is
      refused. */
  lemma BindingIsStable(accounts: Accounts, id: string, owner: Owner, calls: seq<Call>, again: Owner)
    requires Ensure(accounts, true, id, owner).1.Done?
    ensures var later := After(Ensure(accounts, true, id, owner).0, true, calls);
            Ensure(later, true, id, again) ==
            (later, if again == owner then Ensure(accounts, true, id, owner).1 else Refused(Mismatch))
    ensures var later := After(Ensure(accounts, true, id, owner).0, true, calls);
            Refresh(later, id, again) ==
            if again == owner then Ensure(accounts, true, id, owner).1 else Refused(Mismatch)
  {
    AccountStays(Ensure(accounts, true, id, owner).0, true, calls, id);
  }

  /** Replay: once a key was accepted, asking again, in whatever amount or currency and after
      whatever calls in between, returns the stored result and changes nothing. */
  lemma ReplayReturnsStored(accounts: Accounts, c: Call, calls: seq<Call>, amount: string, currency: string)
    requires c.AllocateCall? && Granted(accounts, true, c).Done?
    ensures var later := After(Applied(accounts, true, c), true, calls);
            Allocate(later, true, c.id, c.owner, c.key, amount, currency) == (later, Granted(accounts, true, c))
  {
    AccountStays(Applied(accounts, true, c), true, calls, c.id);
  }

  // ----- whole sequences of calls

  // A call that opens an account or is the first of its key to be granted.
  predicate TakesEffect(accounts: Accounts, enabled: bool, c: Call) {
    match c
    case EnsureCall(id, owner) => Ensure(accounts, enabled, id, owner).1.Done? && id !in accounts
    case AllocateCall(id, _, key, _, _) => Granted(accounts, enabled, c).Done? && key !in accounts[id].allocations
  }

  function Effective(accounts: Accounts, enabled: bool, calls: seq<Call>): seq<Call>
    decreases |calls|
  {
    if calls == [] then []
    else
      var c := calls[0];
      (if TakesEffect(accounts, enabled, c) then [c] else [])
      + Effective(Applied(accounts, enabled, c), enabled, calls[1..])
  }

  // The calls that take effect are those that change the accounts.
  lemma EffectIff(accounts: Accounts, enabled: bool, c: Call)
    ensures TakesEffect(accounts, enabled, c) <==> Applied(accounts, enabled, c) != accounts
  {
    if TakesEffect(accounts, enabled, c) && c.AllocateCall? {
      assert c.key in Applied(accounts, enabled, c)[c.id].allocations;
    }
  }

  /** Refused and repeated calls change nothing: every sequence of calls leaves the accounts
      that its effective calls alone would leave. */
  lemma {:induction false} OnlyEffectiveCallsMatter(accounts: Accounts, enabled: bool, calls: seq<Call>)
    ensures After(accounts, enabled, calls) == After(accounts, enabled, Effective(accounts, enabled, calls))
    decreases |calls|
  {
    if calls != [] {
      var c, rest := calls[0], calls[1..];
      OnlyEffectiveCallsMatter(Applied(accounts, enabled, c), enabled, rest);
      if TakesEffect(accounts, enabled, c) {
        OneMoreCall(accounts, enabled, c, Effective(Applied(accounts, enabled, c), enabled, rest));
      } else {
        EffectIff(accounts, enabled, c);
        assert [] + Effective(accounts, enabled, rest) == Effective(accounts, enabled, rest);
      }
    }
  }

  // An allocation call that was granted.
  datatype Entry = Entry(id: string, key: string, amount: string, result: Allocation)

  function EntryOf(accounts: Accounts, enabled: bool, c: Call): seq<Entry> {
    if c.AllocateCall? && Granted(accounts, enabled, c).Done?
    then [Entry(c.id, c.key, c.amount, Granted(accounts, enabled, c).value)] else []
  }

  // The granted calls of a sequence, replays included, in order.
  function Entries(accounts: Accounts, enabled: bool, calls: seq<Call>): seq<Entry>
    decreases |calls|
  {
    if calls == [] then []
    else EntryOf(accounts, enabled, calls[0]) + Entries(Applied(accounts, enabled, calls[0]), enabled, calls[1..])
  }

  // The first granted call of a key on an account.
  function First(history: seq<Entry>, id: string, key: string): Option<Entry> {
    if history == [] then None
    else
      var before, last := First(history[..|history| - 1], id, key), history[|history| - 1];
      if before.Some? then before else if last.id == id && last.key == key then Some(last) else None
  }

  // The amounts of the first granted calls on an account, summed.
  function Total(history: seq<Entry>, id: string): int {
    if history == [] then 0
    else
      var before, last := history[..|history| - 1], history[|history| - 1];
      Total(before, id) + if last.id == id && First(before, id, last.key).None? then Value(last.amount) else 0
  }

  lemma FirstAppend(h: seq<Entry>, e: Entry, id: string, key: string)
    ensures First(h + [e], id, key) ==
            if First(h, id, key).Some? then First(h, id, key) else if e.id == id && e.key == key then Some(e) else None
    ensures Total(h + [e], id) == Total(h, id) + if e.id == id && First(h, id, e.key).None? then Value(e.amount) else 0
  {}

  lemma {:induction false} FirstIsEntry(h: seq<Entry>, id: string, key: string)
    requires First(h, id, key).Some?
    ensures First(h, id, key).value in h && First(h, id, key).value.id == id && First(h, id, key).value.key == key
  {
    if First(h[..|h| - 1], id, key).Some? { FirstIsEntry(h[..|h| - 1], id, key); }
  }

  // The account agrees with the history: its credit is the total, its stored results are
  // those of the first calls, and every replay returned them.
  ghost predicate Agrees(accounts: Accounts, history: seq<Entry>, id: string) {
    && (if id !in accounts then Total(history, id) == 0
        else Decimals.Parse(accounts[id].credit).Ok? && Value(accounts[id].credit) == Total(history, id))
    && (forall key ::
          if id in accounts && key in accounts[id].allocations
          then First(history, id, key).Some? && First(history, id, key).value.result == accounts[id].allocations[key]
          else First(history, id, key).None?)
    && Consistent(history, id)
  }

  ghost predicate Consistent(history: seq<Entry>, id: string) {
    forall i | 0 <= i < |history| && history[i].id == id ::
      First(history, id, history[i].key).Some? && First(history, id, history[i].key).value.result == history[i].result
  }

  lemma ConsistentEntry(h: seq<Entry>, e: Entry)
    requires e in h && Consistent(h, e.id)
    ensures First(h, e.id, e.key).Some? && First(h, e.id, e.key).value.result == e.result
  {}

  lemma ConsistentAppend(h: seq<Entry>, e: Entry, id: string)
    requires Consistent(h, id)
    requires e.id == id && First(h, id, e.key).Some? ==> First(h, id, e.key).value.result == e.result
    ensures Consistent(h + [e], id)
  {}

  lemma AgreesEnsured(accounts: Accounts, enabled: bool, h: seq<Entry>, c: Call, id: string)
    requires Agrees(accounts, h, id) && c.EnsureCall?
    ensures Agrees(Applied(accounts, enabled, c), h, id)
  {
    NothingIsZero();
  }

  // A replay, or a call for another account, leaves the first calls and the total alone.
  lemma FirstsUnmoved(h: seq<Entry>, e: Entry, id: string)
    requires e.id == id ==> First(h, id, e.key).Some?
    ensures Total(h + [e], id) == Total(h, id) && forall key :: First(h + [e], id, key) == First(h, id, key)
  {}

  lemma SameAccount(accounts: Accounts, enabled: bool, c: Call, id: string)
    requires c.AllocateCall?
    requires c.id == id && Granted(accounts, enabled, c).Done? ==> c.key in accounts[id].allocations
    ensures var s := Applied(accounts, enabled, c);
            (id in s <==> id in accounts) && (id in accounts ==> s[id] == accounts[id])
    ensures c.id == id && Granted(accounts, enabled, c).Done? ==>
              Granted(accounts, enabled, c).value == accounts[id].allocations[c.key]
  {}

  lemma AgreesKept(accounts: Accounts, enabled: bool, h: seq<Entry>, c: Call, id: string)
    requires Agrees(accounts, h, id) && c.AllocateCall?
    requires c.id == id && Granted(accounts, enabled, c).Done? ==> c.key in accounts[id].allocations
    ensures Agrees(Applied(accounts, enabled, c), h + EntryOf(accounts, enabled, c), id)
  {
    SameAccount(accounts, enabled, c, id);
    if Granted(accounts, enabled, c).Done? {
      var e := EntryOf(accounts, enabled, c)[0];
      ConsistentAppend(h, e, id);
      FirstsUnmoved(h, e, id);
    } else {
      assert h + [] == h;
    }
  }

  lemma AgreesGranted(accounts: Accounts, enabled: bool, h: seq<Entry>, c: Call, id: string)
    requires Agrees(accounts, h, id) && c.AllocateCall? && c.id == id
    requires Granted(accounts, enabled, c).Done? && c.key !in accounts[id].allocations
    ensures Agrees(Applied(accounts, enabled, c), h + EntryOf(accounts, enabled, c), id)
  {
    var e := EntryOf(accounts, enabled, c)[0];
    SumExact(accounts[id].credit, c.amount);
    ConsistentAppend(h, e, id);
    FirstAppend(h, e, id, c.key);
    forall key ensures First(h + [e], id, key) == if key == c.key then Some(e) else First(h, id, key) {
      FirstAppend(h, e, id, key);
    }
  }

  lemma AgreesApplied(accounts: Accounts, enabled: bool, h: seq<Entry>, c: Call, id: string)
    requires Agrees(accounts, h, id)
    ensures Agrees(Applied(accounts, enabled, c), h + EntryOf(accounts, enabled, c), id)
  {
    if c.EnsureCall? {
      assert h + [] == h;
      AgreesEnsured(accounts, enabled, h, c, id);
    } else if c.id == id && Granted(accounts, enabled, c).Done? && c.key !in accounts[id].allocations {
      AgreesGranted(accounts, enabled, h, c, id);
    } else {
      AgreesKept(accounts, enabled, h, c, id);
    }
  }

  lemma EntriesUnfold(accounts: Accounts, enabled: bool, h: seq<Entry>, calls: seq<Call>)
    requires calls != []
    ensures h + Entries(accounts, enabled, calls) ==
            h + EntryOf(accounts, enabled, calls[0])
            + Entries(Applied(accounts, enabled, calls[0]), enabled, calls[1..])
  {
    var s := Applied(accounts, enabled, calls[0]);
    Associative(h, EntryOf(accounts, enabled, calls[0]), Entries(s, enabled, calls[1..]));
  }

  lemma Associative(a: seq<Entry>, b: seq<Entry>, c: seq<Entry>)
    ensures a + (b + c) == a + b + c
  {}

  lemma {:induction false} AgreesAfter(accounts: Accounts, enabled: bool, h: seq<Entry>, calls: seq<Call>, id: string)
    requires Agrees(accounts, h, id)
    ensures Agrees(After(accounts, enabled, calls), h + Entries(accounts, enabled, calls), id)
    decreases |calls|
  {
    if calls == [] {
      assert h + [] == h;
    } else {
      AgreesApplied(accounts, enabled, h, calls[0], id);
      var s, e := Applied(accounts, enabled, calls[0]), EntryOf(accounts, enabled, calls[0]);
      AgreesAfter(s, enabled, h + e, calls[1..], id);
      EntriesUnfold(accounts, enabled, h, calls);
    }
  }

  /** For every sequence of calls from the start, an account's credit is exactly the sum of the
      first accepted amounts over distinct keys, and its stored results are those calls'. */
  lemma ExactlyOnceCredit(enabled: bool, calls: seq<Call>, id: string)
    requires id in After(map[], enabled, calls)
    ensures var a, h := After(map[], enabled, calls)[id], Entries(map[], enabled, calls);
            && Decimals.Parse(a.credit).Ok? && Decimals.Amount(a.credit) == Total(h, id)
            && forall key :: key in a.allocations <==> First(h, id, key).Some?
  {
    AgreesAfter(map[], enabled, [], calls, id);
    assert [] + Entries(map[], enabled, calls) == Entries(map[], enabled, calls);
  }

  // ----- runs of the worker

  datatype Attempt = Attempt(job: Job, world: World)

  // Accounts and granted calls after a sequence of attempts.
  datatype Progress = Progress(accounts: Accounts, history: seq<Entry>)

  function TraceOf(p: Progress, enabled: bool, a: Attempt): Trace { Processing(p.accounts, enabled, a.job, a.world) }

  function Attempted(enabled: bool, attempts: seq<Attempt>): Progress {
    if attempts == [] then Progress(map[], [])
    else
      var before, last := Attempted(enabled, attempts[..|attempts| - 1]), attempts[|attempts| - 1];
      var calls := TraceOf(before, enabled, last).calls;
      Progress(After(before.accounts, enabled, calls), before.history + Entries(before.accounts, enabled, calls))
  }

  lemma {:induction false} AttemptsAgree(enabled: bool, attempts: seq<Attempt>, id: string)
    ensures var p := Attempted(enabled, attempts); Agrees(p.accounts, p.history, id)
  {
    if attempts != [] {
      var before := Attempted(enabled, attempts[..|attempts| - 1]);
      AttemptsAgree(enabled, attempts[..|attempts| - 1], id);
      var calls := TraceOf(before, enabled, attempts[|attempts| - 1]).calls;
      AgreesAfter(before.accounts, enabled, before.history, calls, id);
    }
  }

  /** The balances after any attempts, each cut off anywhere and retried at will. */
  lemma WorkerCreditsExactlyOnce(enabled: bool, attempts: seq<Attempt>, id: string)
    requires id in Attempted(enabled, attempts).accounts
    ensures var p := Attempted(enabled, attempts);
            && Decimals.Parse(p.accounts[id].credit).Ok?
            && Decimals.Amount(p.accounts[id].credit) == Total(p.history, id)
            && forall key :: key in p.accounts[id].allocations <==> First(p.history, id, key).Some?
  {
    AttemptsAgree(enabled, attempts, id);
  }

  lemma OneMoreEntry(accounts: Accounts, enabled: bool, c: Call, calls: seq<Call>)
    ensures Entries(accounts, enabled, [c] + calls) ==
            EntryOf(accounts, enabled, c) + Entries(Applied(accounts, enabled, c), enabled, calls)
  {}

  lemma SingleEntry(accounts: Accounts, enabled: bool, c: Call)
    ensures Entries(accounts, enabled, [c]) == EntryOf(accounts, enabled, c)
  {}

  ghost predicate Carries(job: Job, e: Entry) {
    e.id == job.binding && e.key == job.key && job.amount == Some(e.amount)
  }

  // Granted calls of a run are of its own job, and include the reported one.
  ghost predicate Own(job: Job, entries: seq<Entry>, report: Report) {
    && (forall e | e in entries :: Carries(job, e))
    && (report.Credited? ==> exists e :: e in entries && e.result == report.allocation)
  }

  lemma AllocatingOwn(accounts: Accounts, enabled: bool, job: Job, w: World, record: Record)
    requires record.id == job.binding
    ensures var t := Allocating(accounts, enabled, job, w, record);
            Own(job, Entries(accounts, enabled, t.calls), t.report)
  {
    var t := Allocating(accounts, enabled, job, w, record);
    if t.calls != [] {
      var c := t.calls[0];
      SingleEntry(accounts, enabled, c);
      var h := EntryOf(accounts, enabled, c);
      assert h != [] ==> h[0] in h;
    }
  }

  // A run is nothing but its two halves.
  lemma Halves(accounts: Accounts, enabled: bool, job: Job, w: World) returns (c: Call)
    ensures var t := Processing(accounts, enabled, job, w);
            || (t.calls == [] && !t.report.Credited?)
            || (w.record.Ok? && t == Allocating(accounts, enabled, job, w, w.record.value))
            || (c.EnsureCall? && t.calls == [c] && !t.report.Credited?)
            || (&& c.EnsureCall? && w.persisted.Ok?
                && (var rest := Allocating(Applied(accounts, enabled, c), enabled, job, w, w.persisted.value);
                    t == Trace([c] + rest.calls, rest.report)))
  {
    var record := if w.record.Ok? then w.record.value else Record("", Owner("", "", ""), false, "");
    c := EnsureCall(record.id, record.owner);
  }

  lemma OwnEntries(accounts: Accounts, enabled: bool, job: Job, w: World)
    requires Answers(job, w)
    ensures var t := Processing(accounts, enabled, job, w); Own(job, Entries(accounts, enabled, t.calls), t.report)
  {
    var t := Processing(accounts, enabled, job, w);
    var c := Halves(accounts, enabled, job, w);
    SingleEntry(accounts, enabled, c);
    OneCall(accounts, enabled, c);
    if w.record.Ok? { AllocatingOwn(accounts, enabled, job, w, w.record.value); }
    if w.persisted.Ok? {
      var after := Applied(accounts, enabled, c);
      var rest := Allocating(after, enabled, job, w, w.persisted.value);
      AllocatingOwn(after, enabled, job, w, w.persisted.value);
      OneMoreEntry(accounts, enabled, c, rest.calls);
    }
  }

  ghost predicate AllAnswer(attempts: seq<Attempt>) {
    forall j | 0 <= j < |attempts| :: Answers(attempts[j].job, attempts[j].world)
  }

  // Every granted call is some attempt's own.
  lemma {:induction false} EntriesComeFromJobs(enabled: bool, attempts: seq<Attempt>, e: Entry) returns (j: nat)
    requires AllAnswer(attempts) && e in Attempted(enabled, attempts).history
    ensures j < |attempts| && Carries(attempts[j].job, e)
  {
    var n := |attempts| - 1;
    var before := Attempted(enabled, attempts[..n]);
    if e in before.history {
      j := EntriesComeFromJobs(enabled, attempts[..n], e);
    } else {
      OwnEntries(before.accounts, enabled, attempts[n].job, attempts[n].world);
      j := n;
    }
  }

  // An entry granted during attempt i is in the history of all attempts.
  lemma {:induction false} HistoryGrows(enabled: bool, attempts: seq<Attempt>, i: nat)
    requires i < |attempts|
    ensures var p := Attempted(enabled, attempts[..i]);
            forall e | e in Entries(p.accounts, enabled, TraceOf(p, enabled, attempts[i]).calls) ::
              e in Attempted(enabled, attempts).history
  {
    var before := attempts[..|attempts| - 1];
    if i < |attempts| - 1 {
      HistoryGrows(enabled, before, i);
      assert before[..i] == attempts[..i];
    }
  }

  // The history without one key.
  function Without(history: seq<Entry>, key: string): seq<Entry> {
    if history == [] then []
    else
      var last := history[|history| - 1];
      Without(history[..|history| - 1], key) + if last.key == key then [] else [last]
  }

  lemma {:induction false} OtherKeysStay(h: seq<Entry>, key: string, id: string, other: string)
    requires other != key
    ensures First(Without(h, key), id, other) == First(h, id, other)
  {
    if h != [] {
      var before, last := h[..|h| - 1], h[|h| - 1];
      OtherKeysStay(before, key, id, other);
      if last.key == key {
        assert Without(before, key) + [] == Without(before, key);
      } else {
        FirstAppend(Without(before, key), last, id, other);
      }
    }
  }

  /** A key counts once, whatever its replays: the total is that of all other keys and the
      amount of the key's first granted call. */
  lemma {:induction false} KeyCountsOnce(h: seq<Entry>, id: string, key: string)
    ensures Total(h, id) ==
            Total(Without(h, key), id) + if First(h, id, key).Some? then Value(First(h, id, key).value.amount) else 0
  {
    if h != [] {
      var before, last := h[..|h| - 1], h[|h| - 1];
      KeyCountsOnce(before, id, key);
      if last.key == key {
        assert Without(before, key) + [] == Without(before, key);
      } else {
        OtherKeysStay(before, key, id, last.key);
        FirstAppend(Without(before, key), last, id, key);
      }
    }
  }

  lemma {:induction false} NoFirst(h: seq<Entry>, id: string, key: string)
    requires forall e | e in h :: e.id != id || e.key != key
    ensures First(h, id, key).None?
  {
    if h != [] { NoFirst(h[..|h| - 1], id, key); }
  }

  // The key belongs to one binding among the attempts.
  ghost predicate KeyOfOne(attempts: seq<Attempt>, key: string, binding: string) {
    forall j | 0 <= j < |attempts| && attempts[j].job.key == key :: attempts[j].job.binding == binding
  }

  // The store keeps one job for a binding and key, so retries carry its amount.
  ghost predicate OneAmount(attempts: seq<Attempt>, job: Job) {
    forall j | 0 <= j < |attempts| && attempts[j].job.binding == job.binding && attempts[j].job.key == job.key ::
      attempts[j].job.amount == job.amount
  }

  /** A job reported credited is counted exactly once, on its own binding: the first of its
      attempts whose call went through counts, with the job's amount, whatever the retries; it
      reports that attempt's stored result; and no other account has an entry for its key,
      unless another binding's job uses the same key. */
  lemma CreditedJobCountsOnce(enabled: bool, attempts: seq<Attempt>, i: nat)
    requires i < |attempts| && TraceOf(Attempted(enabled, attempts[..i]), enabled, attempts[i]).report.Credited?
    requires AllAnswer(attempts) && OneAmount(attempts, attempts[i].job)
    ensures var job, h := attempts[i].job, Attempted(enabled, attempts).history;
            var first := First(h, job.binding, job.key);
            && first.Some? && job.amount == Some(first.value.amount)
            && first.value.result == TraceOf(Attempted(enabled, attempts[..i]), enabled, attempts[i]).report.allocation
            && Total(h, job.binding) == Total(Without(h, job.key), job.binding) + Value(job.amount.value)
            && (KeyOfOne(attempts, job.key, job.binding) ==>
                  forall other | other != job.binding :: First(h, other, job.key).None?)
  {
    var job, h := attempts[i].job, Attempted(enabled, attempts).history;
    CreditedEntry(enabled, attempts, i);
    KeyCountsOnce(h, job.binding, job.key);
    if KeyOfOne(attempts, job.key, job.binding) {
      forall other | other != job.binding ensures First(h, other, job.key).None? {
        NotElsewhere(enabled, attempts, job.key, job.binding, other);
      }
    }
  }

  lemma NotElsewhere(enabled: bool, attempts: seq<Attempt>, key: string, binding: string, other: string)
    requires AllAnswer(attempts) && KeyOfOne(attempts, key, binding) && other != binding
    ensures First(Attempted(enabled, attempts).history, other, key).None?
  {
    var h := Attempted(enabled, attempts).history;
    forall e | e in h ensures e.id != other || e.key != key {
      var j := EntriesComeFromJobs(enabled, attempts, e);
    }
    NoFirst(h, other, key);
  }

  lemma CreditedEntry(enabled: bool, attempts: seq<Attempt>, i: nat)
    requires i < |attempts| && TraceOf(Attempted(enabled, attempts[..i]), enabled, attempts[i]).report.Credited?
    requires AllAnswer(attempts) && OneAmount(attempts, attempts[i].job)
    ensures var job := attempts[i].job;
            var first := First(Attempted(enabled, attempts).history, job.binding, job.key);
            && first.Some? && job.amount == Some(first.value.amount)
            && first.value.result == TraceOf(Attempted(enabled, attempts[..i]), enabled, attempts[i]).report.allocation
  {
    var p, a := Attempted(enabled, attempts[..i]), attempts[i];
    var t := TraceOf(p, enabled, a);
    OwnEntries(p.accounts, enabled, a.job, a.world);
    var e :| e in Entries(p.accounts, enabled, t.calls) && e.result == t.report.allocation;
    HistoryGrows(enabled, attempts, i);
    var h := Attempted(enabled, attempts).history;
    assert Consistent(h, e.id) by { AttemptsAgree(enabled, attempts, e.id); }
    ConsistentEntry(h, e);
    FirstIsEntry(h, e.id, e.key);
    var j := EntriesComeFromJobs(enabled, attempts, First(h, e.id, e.key).value);
  }
}
