/**
 The bounded source planner: decide which catalogued sources may run, order them by
 priority, and take them greedily under four budgets (requests, bytes, wall time, and
 requests per host).
 */
module SourcePlanner {
  import opened Ordering
  import PythonText
  import opened Wrappers

  type Seconds = r: real | r > 0.0 witness 1.0

  datatype Tier = T0 | T1 | T2 | T3

  datatype Cost = Free | OtherCost
  datatype DataClass = PublicData | OtherData
  datatype Rights = ReviewedPublicAccess | ReviewBeforeEnable
  datatype Redistribution = PublicAttribution | MetadataOnly | ReviewBeforeSharing
  datatype AdapterStatus = AdapterReviewed | AdapterReplayRequired | CatalogReviewed | AdapterMetadataOnly | AdapterBlocked
  datatype Authentication = NoAuthentication | FreeApiKey | FreeRegistration
  datatype Health = Healthy | Degraded | Probation | OtherHealth(name: string)

  /** The fields of a catalogue record that decide a run. Topics are lower case by the catalogue's own check. */
  datatype Source = Source(
    id: string, tier: Tier, topics: seq<string>,
    cost: Cost, dataClass: DataClass, rights: Rights, redistribution: Redistribution,
    adapterId: Option<string>, adapterStatus: AdapterStatus, runtimeEnabled: bool, gates: map<string, bool>,
    authentication: Authentication, credentialEnv: Option<string>,
    hostGroup: string, requests: nat, bytes: nat, seconds: Seconds)

  datatype Budgets = Budgets(maxRequests: nat, maxBytes: nat, maxSeconds: Seconds, maxPerHost: nat)

  /** What a run is asked for: case-folded topics, health states by source id, and credentials. */
  datatype Request = Request(topics: set<string>, health: map<string, Health>, credentials: map<string, string>)

  datatype Flaw = RightsNotReviewed | AdapterNotReviewed | IncompleteGates

  datatype Idle = Disabled | CredentialUnavailable | Unhealthy(health: Health)

  datatype Activation = Refused(flaw: Flaw) | Inactive(reason: Idle) | Eligible

  datatype Budget = TotalRequests | TotalResponseBytes | WallSeconds | PerHostRequests

  datatype DeferReason = InvalidActivation(flaw: Flaw) | NotRunnable(reason: Idle) | OverBudget(budgets: seq<Budget>)

  datatype Deferred = Deferred(sourceId: string, reason: DeferReason)

  datatype Plan = Plan(selected: seq<Source>, deferred: seq<Deferred>, requests: nat, bytes: nat, seconds: real,
                       hostRequests: map<string, nat>)

  function SourceId(s: Source): string { s.id }

  function DeferredId(d: Deferred): string { d.sourceId }

  // ---- eligibility

  function ValidateRuntimeActivation(s: Source, credentials: map<string, string>): Activation {
    if !s.runtimeEnabled then Inactive(Disabled)
    else if !s.cost.Free? || !s.dataClass.PublicData? || !s.rights.ReviewedPublicAccess?
            || !s.redistribution.PublicAttribution? then
      Refused(RightsNotReviewed)
    else if !s.adapterStatus.AdapterReviewed? || s.adapterId.None? || s.adapterId.value == "" then
      Refused(AdapterNotReviewed)
    else if exists gate :: gate in s.gates && !s.gates[gate] then
      Refused(IncompleteGates)
    else if !s.authentication.NoAuthentication?
            && (s.credentialEnv.None? || s.credentialEnv.value == "" || s.credentialEnv.value !in credentials
                || PythonText.IsBlank(credentials[s.credentialEnv.value])) then
      Inactive(CredentialUnavailable)
    else Eligible
  }

  function HealthOf(s: Source, health: map<string, Health>): Health {
    if s.id in health then health[s.id] else Probation
  }

  predicate MayServe(health: Health) {
    health.Healthy? || health.Degraded?
  }

  predicate MayRun(s: Source, request: Request) {
    && ValidateRuntimeActivation(s, request.credentials).Eligible?
    && MayServe(HealthOf(s, request.health))
  }

  function Priority(s: Source, request: Request): int {
    (match s.tier case T0 => 400 case T1 => 300 case T2 => 200 case T3 => 100)
    + if exists topic :: topic in s.topics && topic in request.topics then 100 else 0
  }

  /** The sort key: the higher priority first, then the smaller id. */
  predicate PlansBefore(request: Request, a: Source, b: Source) {
    || Priority(a, request) > Priority(b, request)
    || (Priority(a, request) == Priority(b, request) && TextLeq(a.id, b.id))
  }

  function Order(request: Request): (Source, Source) -> bool {
    (a, b) => PlansBefore(request, a, b)
  }

  function Runnable(request: Request): Source -> bool {
    s => MayRun(s, request)
  }

  function Screened(s: Source, request: Request): seq<Deferred> {
    match ValidateRuntimeActivation(s, request.credentials)
    case Refused(flaw) => [Deferred(s.id, InvalidActivation(flaw))]
    case Inactive(reason) => [Deferred(s.id, NotRunnable(reason))]
    case Eligible =>
      if MayRun(s, request) then [] else [Deferred(s.id, NotRunnable(Unhealthy(HealthOf(s, request.health))))]
  }

  function ScreenedOut(sources: seq<Source>, request: Request): seq<Deferred> {
    if sources == [] then []
    else ScreenedOut(sources[..|sources| - 1], request) + Screened(sources[|sources| - 1], request)
  }

  // ---- budgets

  function Requests(s: seq<Source>): nat {
    if s == [] then 0 else Requests(s[..|s| - 1]) + s[|s| - 1].requests
  }

  function Bytes(s: seq<Source>): nat {
    if s == [] then 0 else Bytes(s[..|s| - 1]) + s[|s| - 1].bytes
  }

  function WallTime(s: seq<Source>): real {
    if s == [] then 0.0 else WallTime(s[..|s| - 1]) + s[|s| - 1].seconds
  }

  function HostRequests(s: seq<Source>, host: string): nat {
    if s == [] then 0
    else HostRequests(s[..|s| - 1], host) + if s[|s| - 1].hostGroup == host then s[|s| - 1].requests else 0
  }

  /** Adding `s` to `chosen` breaks this budget. */
  predicate Breaks(chosen: seq<Source>, s: Source, b: Budgets, budget: Budget) {
    match budget
    case TotalRequests => Requests(chosen) + s.requests > b.maxRequests
    case TotalResponseBytes => Bytes(chosen) + s.bytes > b.maxBytes
    case WallSeconds => WallTime(chosen) + s.seconds > b.maxSeconds
    case PerHostRequests => HostRequests(chosen, s.hostGroup) + s.requests > b.maxPerHost
  }

  function BudgetsBroken(chosen: seq<Source>, s: Source, b: Budgets): seq<Budget> {
    (if Breaks(chosen, s, b, TotalRequests) then [TotalRequests] else [])
    + (if Breaks(chosen, s, b, TotalResponseBytes) then [TotalResponseBytes] else [])
    + (if Breaks(chosen, s, b, WallSeconds) then [WallSeconds] else [])
    + (if Breaks(chosen, s, b, PerHostRequests) then [PerHostRequests] else [])
  }

  ghost predicate WithinBudgets(chosen: seq<Source>, b: Budgets) {
    && Requests(chosen) <= b.maxRequests && Bytes(chosen) <= b.maxBytes && WallTime(chosen) <= b.maxSeconds
    && forall host :: HostRequests(chosen, host) <= b.maxPerHost
  }

  /** The greedy choice after reading `order`. */
  function Chosen(order: seq<Source>, b: Budgets): seq<Source> {
    if order == [] then []
    else
      var before := Chosen(order[..|order| - 1], b);
      if BudgetsBroken(before, order[|order| - 1], b) == [] then before + [order[|order| - 1]] else before
  }

  function BudgetDeferred(order: seq<Source>, b: Budgets): seq<Deferred> {
    if order == [] then []
    else
      var s := order[|order| - 1];
      var broken := BudgetsBroken(Chosen(order[..|order| - 1], b), s, b);
      BudgetDeferred(order[..|order| - 1], b) + if broken == [] then [] else [Deferred(s.id, OverBudget(broken))]
  }

  function SelectedSources(sources: seq<Source>, b: Budgets, request: Request): seq<Source> {
    Chosen(SortBy(Order(request), Filter(Runnable(request), sources)), b)
  }

  // ---- the planner

  lemma OneMoreSource(sources: seq<Source>, n: nat, request: Request)
    requires n < |sources|
    ensures Filter(Runnable(request), sources[..n + 1]) ==
            Filter(Runnable(request), sources[..n]) + if MayRun(sources[n], request) then [sources[n]] else []
    ensures ScreenedOut(sources[..n + 1], request) ==
            ScreenedOut(sources[..n], request) + Screened(sources[n], request)
  {
    assert sources[..n + 1] == sources[..n] + [sources[n]];
    FilterAppend(Runnable(request), sources[..n], [sources[n]]);
    assert [sources[n]][1..] == [];
  }

  lemma OneMoreChoice(order: seq<Source>, n: nat, b: Budgets)
    requires n < |order|
    ensures var broken := BudgetsBroken(Chosen(order[..n], b), order[n], b);
            && Chosen(order[..n + 1], b) == Chosen(order[..n], b) + (if broken == [] then [order[n]] else [])
            && BudgetDeferred(order[..n + 1], b) ==
               BudgetDeferred(order[..n], b) + if broken != [] then [Deferred(order[n].id, OverBudget(broken))] else []
  {
    assert order[..n + 1][..n] == order[..n];
  }

  lemma LoadAppend(chosen: seq<Source>, s: Source)
    ensures Requests(chosen + [s]) == Requests(chosen) + s.requests
    ensures Bytes(chosen + [s]) == Bytes(chosen) + s.bytes
    ensures WallTime(chosen + [s]) == WallTime(chosen) + s.seconds
    ensures forall host :: HostRequests(chosen + [s], host) ==
              HostRequests(chosen, host) + if s.hostGroup == host then s.requests else 0
  {
    assert (chosen + [s])[..|chosen|] == chosen;
  }

  method Screen(sources: seq<Source>, request: Request) returns (eligible: seq<Source>, deferred: seq<Deferred>)
    ensures eligible == Filter(Runnable(request), sources)
    ensures deferred == ScreenedOut(sources, request)
  {
    eligible, deferred := [], [];
    for n := 0 to |sources|
      invariant eligible == Filter(Runnable(request), sources[..n])
      invariant deferred == ScreenedOut(sources[..n], request)
    {
      var source := sources[n];
      OneMoreSource(sources, n, request);
      match ValidateRuntimeActivation(source, request.credentials) {
        case Refused(flaw) => deferred := deferred + [Deferred(source.id, InvalidActivation(flaw))];
        case Inactive(reason) => deferred := deferred + [Deferred(source.id, NotRunnable(reason))];
        case Eligible =>
          var status := HealthOf(source, request.health);
          if !MayServe(status) {
            deferred := deferred + [Deferred(source.id, NotRunnable(Unhealthy(status)))];
          } else {
            eligible := eligible + [source];
          }
      }
    }
    assert sources[..|sources|] == sources;
  }

  method TakeWithinBudgets(order: seq<Source>, b: Budgets) returns (plan: Plan)
    ensures plan.selected == Chosen(order, b) && plan.deferred == BudgetDeferred(order, b)
    ensures plan.requests == Requests(plan.selected) && plan.bytes == Bytes(plan.selected)
    ensures plan.seconds == WallTime(plan.selected)
    ensures forall host :: HostRequests(plan.selected, host) ==
              if host in plan.hostRequests then plan.hostRequests[host] else 0
  {
    var selected: seq<Source>, deferred: seq<Deferred> := [], [];
    var requests, bytes, seconds := 0, 0, 0.0;
    var hosts: map<string, nat> := map[];
    for n := 0 to |order|
      invariant selected == Chosen(order[..n], b) && deferred == BudgetDeferred(order[..n], b)
      invariant requests == Requests(selected) && bytes == Bytes(selected) && seconds == WallTime(selected)
      invariant forall host :: HostRequests(selected, host) == if host in hosts then hosts[host] else 0
    {
      var source := order[n];
      OneMoreChoice(order, n, b);
      var held := if source.hostGroup in hosts then hosts[source.hostGroup] else 0;
      var exceeded := (if requests + source.requests > b.maxRequests then [TotalRequests] else [])
                      + (if bytes + source.bytes > b.maxBytes then [TotalResponseBytes] else [])
                      + (if seconds + source.seconds > b.maxSeconds then [WallSeconds] else [])
                      + (if held + source.requests > b.maxPerHost then [PerHostRequests] else []);
      assert exceeded == BudgetsBroken(selected, source, b);
      if exceeded != [] {
        deferred := deferred + [Deferred(source.id, OverBudget(exceeded))];
      } else {
        LoadAppend(selected, source);
        selected := selected + [source];
        requests, bytes, seconds := requests + source.requests, bytes + source.bytes, seconds + source.seconds;
        hosts := hosts[source.hostGroup := held + source.requests];
      }
    }
    assert order[..|order|] == order;
    plan := Plan(selected, deferred, requests, bytes, seconds, hosts);
  }

  method PlanSourceRun(sources: seq<Source>, b: Budgets, request: Request) returns (plan: Plan)
    ensures plan.selected == SelectedSources(sources, b, request)
    ensures ScreenedOut(sources, request) <= plan.deferred
    ensures WithinBudgets(plan.selected, b)
    ensures plan.requests == Requests(plan.selected) && plan.bytes == Bytes(plan.selected)
    ensures plan.seconds == WallTime(plan.selected)
    ensures forall host :: HostRequests(plan.selected, host) ==
              if host in plan.hostRequests then plan.hostRequests[host] else 0
    ensures forall id :: Count(SourceId, plan.selected, id) + Count(DeferredId, plan.deferred, id)
              == Count(SourceId, sources, id)
    ensures forall d :: d in plan.deferred && d.reason.OverBudget? ==> IsStillOverBudget(plan.selected, sources, b, request, d)
  {
    var eligible, screenedOut := Screen(sources, request);
    var order := SortBy(Order(request), eligible);
    plan := TakeWithinBudgets(order, b);
    ChosenIsWithinBudgets(order, b);
    forall id ensures Count(SourceId, plan.selected, id) + Count(DeferredId, screenedOut + plan.deferred, id)
                      == Count(SourceId, sources, id)
    {
      EverySourceOnce(sources, order, b, request, id);
    }
    forall d | d in screenedOut + plan.deferred && d.reason.OverBudget?
      ensures IsStillOverBudget(plan.selected, sources, b, request, d)
    {
      ScreenedOutIsNotOverBudget(sources, request);
      DeferredIsStillOverBudget(sources, order, b, request, d);
    }
    plan := plan.(deferred := screenedOut + plan.deferred);
  }

  // ---- what a plan keeps

  lemma OneMoreWithinBudgets(chosen: seq<Source>, s: Source, b: Budgets)
    requires WithinBudgets(chosen, b) && BudgetsBroken(chosen, s, b) == []
    ensures WithinBudgets(chosen + [s], b)
  {
    LoadAppend(chosen, s);
    assert !Breaks(chosen, s, b, PerHostRequests);
  }

  lemma {:induction false} ChosenIsWithinBudgets(order: seq<Source>, b: Budgets)
    ensures WithinBudgets(Chosen(order, b), b)
  {
    if order != [] {
      var before, s := Chosen(order[..|order| - 1], b), order[|order| - 1];
      ChosenIsWithinBudgets(order[..|order| - 1], b);
      if BudgetsBroken(before, s, b) == [] { OneMoreWithinBudgets(before, s, b); }
    }
  }

  lemma {:induction false} ScreenedOutIsNotOverBudget(sources: seq<Source>, request: Request)
    ensures forall d :: d in ScreenedOut(sources, request) ==> !d.reason.OverBudget?
  {
    if sources != [] { ScreenedOutIsNotOverBudget(sources[..|sources| - 1], request); }
  }

  lemma {:induction false} LoadGrows(order: seq<Source>, n: nat, b: Budgets)
    requires n <= |order|
    ensures var early, late := Chosen(order[..n], b), Chosen(order, b);
            && Requests(early) <= Requests(late) && Bytes(early) <= Bytes(late) && WallTime(early) <= WallTime(late)
            && forall host :: HostRequests(early, host) <= HostRequests(late, host)
    decreases |order|
  {
    if n < |order| {
      var m := |order| - 1;
      LoadGrows(order[..m], n, b);
      assert order[..m][..n] == order[..n];
      LoadAppend(Chosen(order[..m], b), order[m]);
    } else {
      assert order[..n] == order;
    }
  }

  /** The deferral belongs to a runnable source, and each budget it names is still broken by the finished plan. */
  ghost predicate IsStillOverBudget(selected: seq<Source>, sources: seq<Source>, b: Budgets, request: Request, d: Deferred)
    requires d.reason.OverBudget?
  {
    && d.reason.budgets != []
    && exists s :: s in sources && MayRun(s, request) && s.id == d.sourceId && BreaksAll(selected, s, b, d.reason.budgets)
  }

  ghost predicate BreaksAll(selected: seq<Source>, s: Source, b: Budgets, budgets: seq<Budget>) {
    forall budget :: budget in budgets ==> Breaks(selected, s, b, budget)
  }

  lemma {:induction false} DeferredComesFromAStep(order: seq<Source>, b: Budgets, d: Deferred) returns (n: nat)
    requires d in BudgetDeferred(order, b)
    ensures n < |order| && order[n].id == d.sourceId
    ensures d.reason == OverBudget(BudgetsBroken(Chosen(order[..n], b), order[n], b)) && d.reason.budgets != []
  {
    var m := |order| - 1;
    if d in BudgetDeferred(order[..m], b) {
      n := DeferredComesFromAStep(order[..m], b, d);
      assert order[..m][..n] == order[..n];
    } else {
      n := m;
    }
  }

  lemma StepStaysOverBudget(order: seq<Source>, n: nat, b: Budgets)
    requires n < |order|
    ensures BreaksAll(Chosen(order, b), order[n], b, BudgetsBroken(Chosen(order[..n], b), order[n], b))
  {
    LoadGrows(order, n, b);
    var early, late, s := Chosen(order[..n], b), Chosen(order, b), order[n];
    forall budget | budget in BudgetsBroken(early, s, b) ensures Breaks(late, s, b, budget) {
      BrokenBreaks(early, s, b, budget);
    }
  }

  lemma BrokenBreaks(chosen: seq<Source>, s: Source, b: Budgets, budget: Budget)
    requires budget in BudgetsBroken(chosen, s, b)
    ensures Breaks(chosen, s, b, budget)
  {
  }

  lemma DeferredIsStillOverBudget(sources: seq<Source>, order: seq<Source>, b: Budgets, request: Request, d: Deferred)
    requires order == SortBy(Order(request), Filter(Runnable(request), sources))
    requires d in BudgetDeferred(order, b) && d.reason.OverBudget?
    ensures IsStillOverBudget(Chosen(order, b), sources, b, request, d)
  {
    var n := DeferredComesFromAStep(order, b, d);
    var s := order[n];
    SortIsSortedPermutation(Order(request), Filter(Runnable(request), sources));
    MultisetMember(order, Filter(Runnable(request), sources), s);
    FilterMembers(Runnable(request), sources);
    StepStaysOverBudget(order, n, b);
    assert BreaksAll(Chosen(order, b), s, b, d.reason.budgets);
  }

  lemma ScreenedCount(s: Source, request: Request, id: string)
    ensures Count(DeferredId, Screened(s, request), id) == if !MayRun(s, request) && s.id == id then 1 else 0
  {
    var d := Screened(s, request);
    if d != [] {
      assert d == [d[0]];
      CountOne(DeferredId, d[0], id);
    }
  }

  lemma {:induction false} ScreeningPartitions(sources: seq<Source>, request: Request, id: string)
    ensures Count(DeferredId, ScreenedOut(sources, request), id) + Count(SourceId, Filter(Runnable(request), sources), id)
            == Count(SourceId, sources, id)
  {
    if sources != [] {
      var m := |sources| - 1;
      ScreeningPartitions(sources[..m], request, id);
      assert sources[..m + 1] == sources;
      OneMoreSource(sources, m, request);
      CountAppend(DeferredId, ScreenedOut(sources[..m], request), Screened(sources[m], request), id);
      ScreenedCount(sources[m], request, id);
      CountAppendIf(SourceId, Filter(Runnable(request), sources[..m]), MayRun(sources[m], request), sources[m], id);
    }
  }

  lemma {:induction false} ChoicePartitions(order: seq<Source>, b: Budgets, id: string)
    ensures Count(SourceId, Chosen(order, b), id) + Count(DeferredId, BudgetDeferred(order, b), id)
            == Count(SourceId, order, id)
  {
    if order != [] {
      var m := |order| - 1;
      ChoicePartitions(order[..m], b, id);
      var broken := BudgetsBroken(Chosen(order[..m], b), order[m], b);
      assert order[..m + 1] == order;
      OneMoreChoice(order, m, b);
      CountAppendIf(SourceId, Chosen(order[..m], b), broken == [], order[m], id);
      CountAppendIf(DeferredId, BudgetDeferred(order[..m], b), broken != [], Deferred(order[m].id, OverBudget(broken)), id);
    }
  }

  /** An id is in the two lists together as often as it is catalogued: with unique ids, in exactly one of them, once. */
  lemma EverySourceOnce(sources: seq<Source>, order: seq<Source>, b: Budgets, request: Request, id: string)
    requires order == SortBy(Order(request), Filter(Runnable(request), sources))
    ensures Count(SourceId, Chosen(order, b), id)
            + Count(DeferredId, ScreenedOut(sources, request) + BudgetDeferred(order, b), id)
            == Count(SourceId, sources, id)
  {
    ScreeningPartitions(sources, request, id);
    ChoicePartitions(order, b, id);
    SortIsSortedPermutation(Order(request), Filter(Runnable(request), sources));
    CountOfPermutation(SourceId, order, Filter(Runnable(request), sources), id);
    CountAppend(DeferredId, ScreenedOut(sources, request), BudgetDeferred(order, b), id);
  }

  /** With unique ids the selected list does not depend on the order of the catalogue. */
  lemma SelectionIgnoresCatalogueOrder(a: seq<Source>, c: seq<Source>, b: Budgets, request: Request)
    requires multiset(a) == multiset(c)
    requires forall s, t :: s in a && t in a && s.id == t.id ==> s == t
    ensures SelectedSources(a, b, request) == SelectedSources(c, b, request)
  {
    var leq := Order(request);
    var runA, runC := Filter(Runnable(request), a), Filter(Runnable(request), c);
    FilterOfPermutation(Runnable(request), a, c);
    SortIsSortedPermutation(leq, runA);
    SortIsSortedPermutation(leq, runC);
    assert IsTotalPreorder(leq) by { TextLeqIsOrder(); }
    forall s, t | s in SortBy(leq, runA) && t in SortBy(leq, runA) && leq(s, t) && leq(t, s) ensures s == t {
      MultisetMember(SortBy(leq, runA), runA, s);
      MultisetMember(SortBy(leq, runA), runA, t);
      FilterMembers(Runnable(request), a);
      TextLeqIsAntisymmetric(s.id, t.id);
    }
    SortedIsUnique(leq, SortBy(leq, runA), SortBy(leq, runC));
  }

  // ---- who is planned, and in which order

  ghost predicate HasOpenRights(s: Source) {
    s.cost.Free? && s.dataClass.PublicData? && s.rights.ReviewedPublicAccess? && s.redistribution.PublicAttribution?
  }

  ghost predicate HasReviewedAdapter(s: Source) {
    s.adapterStatus.AdapterReviewed? && s.adapterId.Some? && |s.adapterId.value| > 0
  }

  ghost predicate PassesItsGates(s: Source) { forall gate :: gate in s.gates ==> s.gates[gate] }

  /** No credential is needed, or the one named holds more than white space. */
  ghost predicate HasCredential(s: Source, credentials: map<string, string>) {
    || s.authentication.NoAuthentication?
    || (s.credentialEnv.Some? && |s.credentialEnv.value| > 0 && s.credentialEnv.value in credentials
        && exists i :: 0 <= i < |credentials[s.credentialEnv.value]| && !PythonText.IsSpace(credentials[s.credentialEnv.value][i] as int))
  }

  ghost predicate IsServing(s: Source, health: map<string, Health>) {
    s.id in health && (health[s.id].Healthy? || health[s.id].Degraded?)
  }

  /** Everything that is asked of a source before it may run. */
  ghost predicate IsCleared(s: Source, request: Request) {
    && s.runtimeEnabled && HasOpenRights(s) && HasReviewedAdapter(s) && PassesItsGates(s)
    && HasCredential(s, request.credentials) && IsServing(s, request.health)
  }

  /** The first of these that fails is the reason. */
  ghost predicate FailsFirst(s: Source, request: Request, reason: DeferReason) {
    match reason
    case NotRunnable(Disabled) => !s.runtimeEnabled
    case InvalidActivation(RightsNotReviewed) => s.runtimeEnabled && !HasOpenRights(s)
    case InvalidActivation(AdapterNotReviewed) => s.runtimeEnabled && HasOpenRights(s) && !HasReviewedAdapter(s)
    case InvalidActivation(IncompleteGates) =>
      s.runtimeEnabled && HasOpenRights(s) && HasReviewedAdapter(s) && !PassesItsGates(s)
    case NotRunnable(CredentialUnavailable) =>
      && s.runtimeEnabled && HasOpenRights(s) && HasReviewedAdapter(s) && PassesItsGates(s)
      && !HasCredential(s, request.credentials)
    case NotRunnable(Unhealthy(health)) =>
      && s.runtimeEnabled && HasOpenRights(s) && HasReviewedAdapter(s) && PassesItsGates(s)
      && HasCredential(s, request.credentials) && !IsServing(s, request.health)
      && health == (if s.id in request.health then request.health[s.id] else Probation)
    case OverBudget(_) => false
  }

  lemma ScreeningOf(s: Source, request: Request)
    ensures MayRun(s, request) <==> IsCleared(s, request)
    ensures if IsCleared(s, request) then Screened(s, request) == []
            else |Screened(s, request)| == 1 && Screened(s, request)[0].sourceId == s.id
                 && FailsFirst(s, request, Screened(s, request)[0].reason)
  {
    CredentialIsThere(s, request.credentials);
  }

  lemma CredentialIsThere(s: Source, credentials: map<string, string>)
    ensures HasCredential(s, credentials) <==>
            || s.authentication.NoAuthentication?
            || !(s.credentialEnv.None? || s.credentialEnv.value == "" || s.credentialEnv.value !in credentials
                 || PythonText.IsBlank(credentials[s.credentialEnv.value]))
  {
  }

  /** Only cleared sources are planned. */
  lemma SelectedAreCleared(sources: seq<Source>, b: Budgets, request: Request, s: Source)
    requires s in SelectedSources(sources, b, request)
    ensures s in sources && IsCleared(s, request)
  {
    var runnable := Filter(Runnable(request), sources);
    var order := SortBy(Order(request), runnable);
    ChosenComesFrom(order, b, s);
    SortIsSortedPermutation(Order(request), runnable);
    MultisetMember(order, runnable, s);
    FilterMembers(Runnable(request), sources);
    ScreeningOf(s, request);
  }

  lemma {:induction false} ChosenComesFrom(order: seq<Source>, b: Budgets, s: Source)
    requires s in Chosen(order, b)
    ensures s in order
  {
    var m := |order| - 1;
    if s in Chosen(order[..m], b) { ChosenComesFrom(order[..m], b, s); }
  }

  /** Every other source is deferred for the first thing it lacks. */
  lemma {:induction false} OthersAreDeferred(sources: seq<Source>, request: Request, s: Source)
    requires s in sources && !IsCleared(s, request)
    ensures exists d :: d in ScreenedOut(sources, request) && d.sourceId == s.id && FailsFirst(s, request, d.reason)
  {
    var m := |sources| - 1;
    if s in sources[..m] {
      OthersAreDeferred(sources[..m], request, s);
      var d :| d in ScreenedOut(sources[..m], request) && d.sourceId == s.id && FailsFirst(s, request, d.reason);
      assert d in ScreenedOut(sources, request);
    } else {
      ScreeningOf(s, request);
      var d := Screened(sources[m], request)[0];
      assert d in ScreenedOut(sources, request);
    }
  }

  ghost predicate IsOnTopic(s: Source, request: Request) { exists topic :: topic in s.topics && topic in request.topics }

  /** A better tier goes first; a requested topic is worth one tier. */
  ghost function Level(s: Source, request: Request): nat {
    (match s.tier case T0 => 4 case T1 => 3 case T2 => 2 case T3 => 1) + if IsOnTopic(s, request) then 1 else 0
  }

  ghost predicate IsAhead(request: Request, a: Source, c: Source) {
    Level(a, request) > Level(c, request) || (Level(a, request) == Level(c, request) && TextLeq(a.id, c.id))
  }

  lemma LevelDecides(request: Request, a: Source, c: Source)
    ensures PlansBefore(request, a, c) <==> IsAhead(request, a, c)
  {
  }

  /** The plan goes by level, and by id within a level. */
  lemma SelectedInOrder(sources: seq<Source>, b: Budgets, request: Request)
    ensures forall i, j :: 0 <= i < j < |SelectedSources(sources, b, request)| ==>
              IsAhead(request, SelectedSources(sources, b, request)[i], SelectedSources(sources, b, request)[j])
  {
    var order := SortBy(Order(request), Filter(Runnable(request), sources));
    assert IsTotalPreorder(Order(request)) by { TextLeqIsOrder(); }
    SortIsSortedPermutation(Order(request), Filter(Runnable(request), sources));
    ChosenInOrder(order, b, request);
  }

  lemma {:induction false} ChosenInOrder(order: seq<Source>, b: Budgets, request: Request)
    requires IsSorted(Order(request), order)
    ensures forall i, j :: 0 <= i < j < |Chosen(order, b)| ==> IsAhead(request, Chosen(order, b)[i], Chosen(order, b)[j])
  {
    if order != [] {
      var m := |order| - 1;
      ChosenInOrder(order[..m], b, request);
      forall s | s in Chosen(order[..m], b) ensures IsAhead(request, s, order[m]) {
        ChosenComesFrom(order[..m], b, s);
        var k :| 0 <= k < m && order[..m][k] == s;
        assert Order(request)(order[k], order[m]);
        LevelDecides(request, order[k], order[m]);
      }
    }
  }
}
