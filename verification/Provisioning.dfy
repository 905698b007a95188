/** The local enterprise provisioner and the worker that drives it
    (internal/provisioning/mock_enterprise.go, internal/provisioning/worker.go). Every adapter
    call holds the adapter's mutex, so a run is a sequence of calls. */
module Provisioning {
  import opened Wrappers
  import Decimals

  // ----- the adapter

  datatype Owner = Owner(organization: string, user: string, provider: string)

  datatype Allocation = Allocation(reference: string, creditAfter: string, currency: string)

  datatype Account = Account(
    owner: Owner, externalAccount: string, externalProject: string, secret: string, credit: string, currency: string,
    allocations: map<string, Allocation>)

  type Accounts = map<string, Account>

  datatype Binding = Binding(externalAccount: string, externalProject: string, secret: string)

  datatype Error = Unsupported | Mismatch | Other

  datatype Reply<+T> = Done(value: T) | Refused(error: Error)

  // strings.ReplaceAll of one character, by nothing and by another one
  function Stripped(s: string, c: char): string {
    if s == "" then "" else (if s[0] == c then "" else [s[0]]) + Stripped(s[1..], c)
  }

  function Swapped(s: string, c: char, d: char): string {
    seq(|s|, i requires 0 <= i < |s| => if s[i] == c then d else s[i])
  }

  function Short(id: string): string {
    var s := Stripped(id, '-');
    if |s| > 12 then s[..12] else s
  }

  function NewAccount(id: string, owner: Owner): Account {
    Account(owner, "mock-account-" + Short(id), "mock-project-" + Short(id), "mock-secret-" + Short(id), "0", "", map[])
  }

  function BindingOf(a: Account): Binding { Binding(a.externalAccount, a.externalProject, a.secret) }

  function Ensure(accounts: Accounts, enabled: bool, id: string, owner: Owner): (Accounts, Reply<Binding>) {
    if !enabled then (accounts, Refused(Unsupported))
    else if id in accounts then
      if accounts[id].owner != owner then (accounts, Refused(Mismatch)) else (accounts, Done(BindingOf(accounts[id])))
    else (accounts[id := NewAccount(id, owner)], Done(BindingOf(NewAccount(id, owner))))
  }

  function Refresh(accounts: Accounts, id: string, owner: Owner): Reply<Binding> {
    if id !in accounts || accounts[id].owner != owner then Refused(Mismatch) else Done(BindingOf(accounts[id]))
  }

  function Sum(credit: string, amount: string): Result<string> {
    match Decimals.Parse(credit)
    case Err => Err
    case Ok(current) => Decimals.Add(current, amount)
  }

  function Allocate(
    accounts: Accounts, enabled: bool, id: string, owner: Owner, key: string, amount: string, currency: string)
    : (Accounts, Reply<Allocation>)
  {
    if !enabled then (accounts, Refused(Unsupported))
    else if id !in accounts || accounts[id].owner != owner then (accounts, Refused(Mismatch))
    else
      var a := accounts[id];
      if key in a.allocations then (accounts, Done(a.allocations[key]))
      else if a.currency != "" && a.currency != currency then (accounts, Refused(Other))
      else
        match Sum(a.credit, amount)
        case Err => (accounts, Refused(Other))
        case Ok(next) =>
          var result := Allocation("mock-allocation-" + Swapped(key, ':', '-'), next, currency);
          var b := a.(credit := next, currency := currency, allocations := a.allocations[key := result]);
          (accounts[id := b], Done(result))
  }

  /** The adapter, its accounts updated under the mutex. */
  class MockEnterprise {
    const enabled: bool
    var accounts: Accounts

    constructor (enabled: bool)
      ensures this.enabled == enabled && accounts == map[]
    {
      this.enabled, accounts := enabled, map[];
    }

    method EnsureBinding(id: string, owner: Owner) returns (r: Reply<Binding>)
      modifies this
      ensures (accounts, r) == Ensure(old(accounts), enabled, id, owner)
    {
      if !enabled {
        return Refused(Unsupported);
      }
      if id in accounts {
        if accounts[id].owner != owner {
          return Refused(Mismatch);
        }
        return Done(BindingOf(accounts[id]));
      }
      accounts := accounts[id := NewAccount(id, owner)];
      return Done(BindingOf(accounts[id]));
    }

    method RefreshBinding(id: string, owner: Owner) returns (r: Reply<Binding>)
      ensures r == Refresh(accounts, id, owner)
    {
      if id !in accounts || accounts[id].owner != owner {
        return Refused(Mismatch);
      }
      return Done(BindingOf(accounts[id]));
    }

    method AllocateCredit(id: string, owner: Owner, key: string, amount: string, currency: string)
      returns (r: Reply<Allocation>)
      modifies this
      ensures (accounts, r) == Allocate(old(accounts), enabled, id, owner, key, amount, currency)
    {
      if !enabled {
        return Refused(Unsupported);
      }
      if id !in accounts || accounts[id].owner != owner {
        return Refused(Mismatch);
      }
      var account := accounts[id];
      if key in account.allocations {
        return Done(account.allocations[key]);
      }
      if account.currency != "" && account.currency != currency {
        return Refused(Other);
      }
      var next := Sum(account.credit, amount);
      if next.Err? {
        return Refused(Other);
      }
      account := account.(credit := next.value, currency := currency);
      var result := Allocation("mock-allocation-" + Swapped(key, ':', '-'), account.credit, account.currency);
      account := account.(allocations := account.allocations[key := result]);
      accounts := accounts[id := account];
      return Done(result);
    }
  }

  // ----- the worker

  datatype Operation = EnsureBinding | RefreshBinding | AllocateCredit

  datatype Job = Job(
    binding: string, operation: Operation, key: string, amount: Option<string>, currency: string,
    attempts: int, maxAttempts: int)

  datatype Capability = Capability(enabled: bool, credit: bool, binding: bool, refresh: bool)

  // A binding as the store knows it.
  datatype Record = Record(id: string, owner: Owner, active: bool, externalProject: string)

  // Where a run may be cut off.
  datatype Crash = Never | BeforeCalls | AfterBinding | AfterPersist | AfterAllocation

  // What the registry and the store answer during one run, and where it is cut off: `record` is
  // the answer for the job's binding, `persisted` the record once its binding was saved.
  datatype World = World(
    registered: bool, capability: Capability, record: Result<Record>, persisted: Result<Record>, crash: Crash)

  // The store answers with the record that was asked for.
  ghost predicate Answers(job: Job, w: World) {
    && (w.record.Ok? ==> w.record.value.id == job.binding)
    && (w.persisted.Ok? ==> w.persisted.value.id == job.binding)
  }

  datatype Report =
    | CutOff
    | Bound(project: string)
    | Credited(allocation: Allocation)
    | Failed(code: string, terminal: bool, retry: int)

  function Fail(job: Job, code: string, error: Error, terminal: bool): Report {
    Failed(code, terminal || error.Unsupported? || error.Mismatch? || job.attempts >= job.maxAttempts,
           (if job.attempts > 1 then job.attempts else 1) * 15)
  }

  datatype Call = EnsureCall(id: string, owner: Owner)
    | AllocateCall(id: string, owner: Owner, key: string, amount: string, currency: string)

  function Applied(accounts: Accounts, enabled: bool, call: Call): Accounts {
    match call
    case EnsureCall(id, owner) => Ensure(accounts, enabled, id, owner).0
    case AllocateCall(id, owner, key, amount, currency) =>
      Allocate(accounts, enabled, id, owner, key, amount, currency).0
  }

  // A run in full: the account-changing calls it makes, in order, and what it reports.
  datatype Trace = Trace(calls: seq<Call>, report: Report)

  function Refusal(job: Job, w: World): Option<Report> {
    if !w.registered then Some(Fail(job, "adapter_not_registered", Other, true))
    else if !w.capability.enabled then Some(Fail(job, "adapter_disabled", Unsupported, true))
    else if job.operation.AllocateCredit? && !w.capability.credit then
      Some(Fail(job, "automatic_credit_unsupported", Unsupported, true))
    else if job.operation.EnsureBinding? && !w.capability.binding then
      Some(Fail(job, "automatic_binding_unsupported", Unsupported, true))
    else if job.operation.RefreshBinding? && !w.capability.refresh then
      Some(Fail(job, "refresh_unsupported", Unsupported, true))
    else if w.record.Err? then Some(Fail(job, "binding_not_found", Other, true))
    else None
  }

  function Refreshing(accounts: Accounts, job: Job, w: World): Report
    requires w.record.Ok?
  {
    match Refresh(accounts, w.record.value.id, w.record.value.owner)
    case Refused(error) => Fail(job, "refresh_failed", error, false)
    case Done(binding) =>
      if w.crash.AfterBinding? then CutOff
      else if w.persisted.Err? then Fail(job, "persist_binding_failed", Other, false)
      else if w.crash.AfterPersist? then CutOff
      else Bound(binding.externalProject)
  }

  // The allocation half of a run, on the record the binding half ended with.
  function Allocating(accounts: Accounts, enabled: bool, job: Job, w: World, record: Record): Trace {
    if job.operation.EnsureBinding? then Trace([], Bound(record.externalProject))
    else if job.amount.None? then Trace([], Fail(job, "allocation_amount_missing", Other, true))
    else
      var call := AllocateCall(record.id, record.owner, job.key, job.amount.value, job.currency);
      match Allocate(accounts, enabled, record.id, record.owner, job.key, job.amount.value, job.currency).1
      case Refused(error) => Trace([call], Fail(job, "allocation_failed", error, false))
      case Done(allocation) => Trace([call], if w.crash.AfterAllocation? then CutOff else Credited(allocation))
  }

  // A run on a binding that is still to be set up.
  function SettingUp(accounts: Accounts, enabled: bool, job: Job, w: World, record: Record): Trace {
    var call := EnsureCall(record.id, record.owner);
    var ensured := Ensure(accounts, enabled, record.id, record.owner);
    if ensured.1.Refused? then Trace([call], Fail(job, "ensure_binding_failed", ensured.1.error, false))
    else if w.crash.AfterBinding? then Trace([call], CutOff)
    else if w.persisted.Err? then Trace([call], Fail(job, "persist_binding_failed", Other, false))
    else if w.crash.AfterPersist? then Trace([call], CutOff)
    else
      var rest := Allocating(ensured.0, enabled, job, w, w.persisted.value);
      Trace([call] + rest.calls, rest.report)
  }

  function Processing(accounts: Accounts, enabled: bool, job: Job, w: World): Trace {
    if Refusal(job, w).Some? then Trace([], Refusal(job, w).value)
    else if w.crash.BeforeCalls? then Trace([], CutOff)
    else if job.operation.RefreshBinding? then Trace([], Refreshing(accounts, job, w))
    else
      var record := w.record.value;
      if record.active && record.externalProject != "" then Allocating(accounts, enabled, job, w, record)
      else if !w.capability.binding then Trace([], Fail(job, "automatic_binding_unsupported", Unsupported, true))
      else SettingUp(accounts, enabled, job, w, record)
  }

  // The accounts after a sequence of calls.
  function After(accounts: Accounts, enabled: bool, calls: seq<Call>): Accounts
    decreases |calls|
  {
    if calls == [] then accounts else After(Applied(accounts, enabled, calls[0]), enabled, calls[1..])
  }

  method ProcessRefresh(mock: MockEnterprise, job: Job, w: World) returns (report: Report)
    requires w.record.Ok?
    ensures report == Refreshing(mock.accounts, job, w)
  {
    var refreshed := mock.RefreshBinding(w.record.value.id, w.record.value.owner);
    if refreshed.Refused? {
      return Fail(job, "refresh_failed", refreshed.error, false);
    }
    if w.crash.AfterBinding? {
      return CutOff;
    }
    if w.persisted.Err? {
      return Fail(job, "persist_binding_failed", Other, false);
    }
    if w.crash.AfterPersist? {
      return CutOff;
    }
    return Bound(refreshed.value.externalProject);
  }

  method ProcessAllocation(mock: MockEnterprise, job: Job, w: World, record: Record) returns (report: Report)
    modifies mock
    ensures var t := Allocating(old(mock.accounts), mock.enabled, job, w, record);
            report == t.report && mock.accounts == After(old(mock.accounts), mock.enabled, t.calls)
  {
    if job.operation.EnsureBinding? {
      return Bound(record.externalProject);
    }
    if job.amount.None? {
      return Fail(job, "allocation_amount_missing", Other, true);
    }
    ghost var call := AllocateCall(record.id, record.owner, job.key, job.amount.value, job.currency);
    OneCall(mock.accounts, mock.enabled, call);
    var granted := mock.AllocateCredit(record.id, record.owner, job.key, job.amount.value, job.currency);
    if granted.Refused? {
      return Fail(job, "allocation_failed", granted.error, false);
    }
    if w.crash.AfterAllocation? {
      return CutOff;
    }
    return Credited(granted.value);
  }

  /** Worker.process: early failure exits, at most one EnsureBinding and one AllocateCredit. */
  method Process(mock: MockEnterprise, job: Job, w: World) returns (report: Report)
    modifies mock
    ensures var t := Processing(old(mock.accounts), mock.enabled, job, w);
            report == t.report && mock.accounts == After(old(mock.accounts), mock.enabled, t.calls)
  {
    var refusal := Refusal(job, w);
    if refusal.Some? {
      return refusal.value;
    }
    if w.crash.BeforeCalls? {
      return CutOff;
    }
    if job.operation.RefreshBinding? {
      report := ProcessRefresh(mock, job, w);
      return;
    }
    var record := w.record.value;
    if record.active && record.externalProject != "" {
      report := ProcessAllocation(mock, job, w, record);
      return;
    }
    if !w.capability.binding {
      return Fail(job, "automatic_binding_unsupported", Unsupported, true);
    }
    ghost var call := EnsureCall(record.id, record.owner);
    OneCall(mock.accounts, mock.enabled, call);
    var ensured := mock.EnsureBinding(record.id, record.owner);
    if ensured.Refused? {
      return Fail(job, "ensure_binding_failed", ensured.error, false);
    }
    if w.crash.AfterBinding? {
      return CutOff;
    }
    if w.persisted.Err? {
      return Fail(job, "persist_binding_failed", Other, false);
    }
    if w.crash.AfterPersist? {
      return CutOff;
    }
    ghost var rest := Allocating(mock.accounts, mock.enabled, job, w, w.persisted.value);
    OneMoreCall(old(mock.accounts), mock.enabled, call, rest.calls);
    report := ProcessAllocation(mock, job, w, w.persisted.value);
  }

  lemma OneMoreCall(accounts: Accounts, enabled: bool, call: Call, calls: seq<Call>)
    ensures After(accounts, enabled, [call] + calls) == After(Applied(accounts, enabled, call), enabled, calls)
  {}

  lemma OneCall(accounts: Accounts, enabled: bool, call: Call)
    ensures After(accounts, enabled, [call]) == Applied(accounts, enabled, call)
  {}
}
