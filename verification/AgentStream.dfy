/** The live view of orders being processed: the event handler and the sweep of stuck runs
    (apps/web/hooks/useAgentStream.ts). */
module AgentStream {
  import opened Sequences

  type OrderId(==, !new)
  /** What a message carries through unchanged: texts, chat, names, image. */
  type Message(==, !new)
  type Details(==, !new)
  type OrderStatus(==, !new)

  datatype AgentRole = Router | ProductAdvisor | Sales | PolicyFinance | AfterSales | Supervisor

  const AGENT_ROLES: seq<AgentRole> := [Router, ProductAdvisor, Sales, PolicyFinance, AfterSales, Supervisor]

  datatype StepStatus = StepActive | StepSkipped | StepFlagged | StepHandoff

  datatype AgentStep = AgentStep(role: AgentRole, status: StepStatus, details: Details)

  datatype OrderView =
    OrderView(id: OrderId, createdAt: int, message: Message, status: OrderStatus, trace: Option<seq<AgentStep>>)

  datatype Placeholder = Placeholder(orderId: OrderId, createdAt: int, message: Message)

  datatype StepUiState = Idle | Active | Done | Skipped | Flagged | Handoff

  datatype RoleReveal = RoleReveal(state: StepUiState, step: Option<AgentStep>)

  type ByRole = map<AgentRole, RoleReveal>

  datatype RunState = RunState(placeholder: Placeholder, byRole: ByRole, updatedAt: int)

  datatype Phase = PhaseActive | PhaseDone

  datatype Event =
    | Created(placeholder: Placeholder)
    | Progress(orderId: OrderId, role: AgentRole, phase: Phase, step: Option<AgentStep>)
    | Finalized(order: OrderView)
    | Updated(order: OrderView)

  const RUN_STALE_MS := 15_000

  function StepUi(step: Option<AgentStep>): StepUiState {
    if step.None? || step.value.status == StepSkipped then Skipped
    else if step.value.status == StepHandoff then Handoff
    else if step.value.status == StepFlagged then Flagged
    else Done
  }

  function RevealOf(phase: Phase, step: Option<AgentStep>): RoleReveal {
    if phase == PhaseActive then RoleReveal(Active, None) else RoleReveal(StepUi(step), step)
  }

  const IDLE := RoleReveal(Idle, None)

  lemma EveryRoleIsListed()
    ensures forall role: AgentRole :: role in AGENT_ROLES
  {
    forall role: AgentRole ensures role in AGENT_ROLES {
      match role
      case Router => assert AGENT_ROLES[0] == role;
      case ProductAdvisor => assert AGENT_ROLES[1] == role;
      case Sales => assert AGENT_ROLES[2] == role;
      case PolicyFinance => assert AGENT_ROLES[3] == role;
      case AfterSales => assert AGENT_ROLES[4] == role;
      case Supervisor => assert AGENT_ROLES[5] == role;
    }
  }

  function AllRoles(shown: RoleReveal): (byRole: ByRole)
    ensures forall role: AgentRole :: role in byRole && byRole[role] == shown
  {
    EveryRoleIsListed();
    map role | role in AGENT_ROLES :: shown
  }

  method IdleByRole() returns (byRole: ByRole)
    ensures byRole == AllRoles(IDLE)
  {
    byRole := map[];
    for i := 0 to |AGENT_ROLES|
      invariant forall role :: role in byRole <==> role in AGENT_ROLES[..i]
      invariant forall role :: role in byRole ==> byRole[role] == IDLE
    {
      byRole := byRole[AGENT_ROLES[i] := IDLE];
    }
    EveryRoleIsListed();
  }

  // ----------------------------------------------------------------------------------------
  // The two collections
  // ----------------------------------------------------------------------------------------

  datatype Entry = Entry(id: OrderId, run: RunState)

  /** A `Map`: its entries in the order their keys were first set. */
  type Runs = seq<Entry>

  ghost predicate DistinctRuns(runs: Runs) {
    forall i, j :: 0 <= i < j < |runs| ==> runs[i].id != runs[j].id
  }

  function Get(runs: Runs, id: OrderId): Option<RunState> {
    if runs == [] then None
    else if runs[0].id == id then Some(runs[0].run)
    else Get(runs[1..], id)
  }

  function Put(runs: Runs, id: OrderId, run: RunState): Runs {
    if runs == [] then [Entry(id, run)]
    else if runs[0].id == id then [Entry(id, run)] + runs[1..]
    else [runs[0]] + Put(runs[1..], id, run)
  }

  function OtherThan(id: OrderId): Entry -> bool {
    (e: Entry) => e.id != id
  }

  function FreshAt(now: int): Entry -> bool {
    (e: Entry) => e.run.updatedAt >= now - RUN_STALE_MS
  }

  ghost predicate DistinctOrders(orders: seq<OrderView>) {
    forall i, j :: 0 <= i < j < |orders| ==> orders[i].id != orders[j].id
  }

  function Find(orders: seq<OrderView>, id: OrderId): Option<OrderView> {
    if orders == [] then None
    else if orders[0].id == id then Some(orders[0])
    else Find(orders[1..], id)
  }

  /** `findIndex`; the length stands for "not found". */
  function IndexOfOrder(orders: seq<OrderView>, id: OrderId): (k: nat)
    ensures k <= |orders| && (k < |orders| ==> orders[k].id == id)
    ensures forall i :: 0 <= i < k ==> orders[i].id != id
  {
    if orders == [] || orders[0].id == id then 0 else 1 + IndexOfOrder(orders[1..], id)
  }

  function Upsert(orders: seq<OrderView>, order: OrderView): seq<OrderView> {
    var k := IndexOfOrder(orders, order.id);
    if k < |orders| then orders[k := order] else [order] + orders
  }

  lemma {:induction false} GetAt(runs: Runs, id: OrderId)
    ensures Get(runs, id).Some? <==> exists i :: 0 <= i < |runs| && runs[i].id == id
    ensures Get(runs, id).None? <==> forall i :: 0 <= i < |runs| ==> runs[i].id != id
  {
    if runs != [] {
      GetAt(runs[1..], id);
      if runs[0].id != id {
        assert forall i :: 1 <= i < |runs| ==> runs[i] == runs[1..][i - 1];
      }
    }
  }

  lemma {:induction false} PutGet(runs: Runs, id: OrderId, run: RunState, other: OrderId)
    ensures Get(Put(runs, id, run), other) == if other == id then Some(run) else Get(runs, other)
  {
    if runs != [] && runs[0].id != id {
      PutGet(runs[1..], id, run, other);
      assert Put(runs, id, run)[1..] == Put(runs[1..], id, run);
    }
  }

  lemma {:induction false} PutKeepsDistinct(runs: Runs, id: OrderId, run: RunState)
    requires DistinctRuns(runs)
    ensures DistinctRuns(Put(runs, id, run))
    ensures forall e :: e in Put(runs, id, run) ==> e.id == id || e in runs
  {
    if runs != [] && runs[0].id != id {
      PutKeepsDistinct(runs[1..], id, run);
    }
  }

  lemma FilterKeepsDistinctRuns(keep: Entry -> bool, runs: Runs)
    requires DistinctRuns(runs)
    ensures DistinctRuns(Filter(keep, runs))
  {
    FilterKeepsDistinct((e: Entry) => e.id, keep, runs);
  }

  /** What a filter does to one key. */
  lemma {:induction false} FilterGet(keep: Entry -> bool, runs: Runs, id: OrderId)
    requires DistinctRuns(runs)
    ensures Get(Filter(keep, runs), id)
         == if Get(runs, id).Some? && keep(Entry(id, Get(runs, id).value)) then Get(runs, id) else None
  {
    if runs != [] {
      FilterGet(keep, runs[1..], id);
      var rest := Filter(keep, runs[1..]);
      if keep(runs[0]) {
        assert ([runs[0]] + rest)[1..] == rest;
      } else {
        assert [] + rest == rest;
      }
      if runs[0].id == id {
        assert runs[0] == Entry(id, runs[0].run);
        GetAt(runs[1..], id);
      }
    }
  }

  // ----------------------------------------------------------------------------------------
  // The reducer
  // ----------------------------------------------------------------------------------------

  datatype State = State(cache: seq<OrderView>, runs: Runs)

  /** Everything that happens to the view. `Refetched` is the cache loading the list again, `Disabled`
      is streaming being switched off. */
  datatype Step =
    | Received(event: Event, at: int)
    | Swept(now: int)
    | Refetched(orders: seq<OrderView>)
    | Disabled

  function Handled(s: State, e: Event, now: int): State {
    match e
    case Created(order) =>
      s.(runs := Put(s.runs, order.orderId, RunState(order, AllRoles(IDLE), now)))
    case Progress(id, role, phase, step) =>
      (match Get(s.runs, id)
       case None => s
       case Some(run) =>
         s.(runs := Put(s.runs, id, run.(byRole := run.byRole[role := RevealOf(phase, step)], updatedAt := now))))
    case Finalized(order) => State(Upsert(s.cache, order), Filter(OtherThan(order.id), s.runs))
    case Updated(order) => s.(cache := Upsert(s.cache, order))
  }

  function Next(s: State, step: Step): State {
    match step
    case Received(event, at) => Handled(s, event, at)
    case Swept(now) => s.(runs := Filter(FreshAt(now), s.runs))
    case Refetched(orders) => s.(cache := orders)
    case Disabled => s.(runs := [])
  }

  function After(start: seq<OrderView>, trace: seq<Step>): State {
    if trace == [] then State(start, [])
    else Next(After(start, trace[..|trace| - 1]), trace[|trace| - 1])
  }

  /** The hook's state and its handlers. */
  class AgentStreamView {
    var cache: seq<OrderView>
    var runs: Runs

    ghost predicate Valid()
      reads this
    {
      DistinctRuns(runs) && DistinctOrders(cache)
    }

    function Now(): State
      reads this
    {
      State(cache, runs)
    }

    constructor (orders: seq<OrderView>)
      requires DistinctOrders(orders)
      ensures Valid() && Now() == State(orders, [])
    {
      cache, runs := orders, [];
    }

    method Handle(e: Event, now: int)
      requires Valid()
      modifies this
      ensures Valid() && Now() == Handled(old(Now()), e, now)
    {
      HandledKeepsDistinct(Now(), e, now);
      match e {
        case Created(order) =>
          var byRole := IdleByRole();
          runs := Put(runs, order.orderId, RunState(order, byRole, now));
        case Progress(id, role, phase, step) =>
          var run := Get(runs, id);
          if run.Some? {
            var byRole := run.value.byRole;
            byRole := byRole[role := RevealOf(phase, step)];
            runs := Put(runs, id, run.value.(byRole := byRole, updatedAt := now));
          }
        case Finalized(order) =>
          cache := Upsert(cache, order);
          if Get(runs, order.id).Some? {
            runs := Filter(OtherThan(order.id), runs);
          } else {
            GetAt(runs, order.id);
            FilterAll(OtherThan(order.id), runs);
          }
        case Updated(order) =>
          cache := Upsert(cache, order);
      }
    }

    method Sweep(now: int)
      requires Valid()
      modifies this`runs
      ensures Valid() && Now() == Next(old(Now()), Swept(now))
    {
      FilterKeepsDistinctRuns(FreshAt(now), runs);
      runs := SweepRuns(runs, now);
    }
  }

  /** The updater the sweep hands to `setRuns`: drops the runs that went quiet. */
  method SweepRuns(prev: Runs, now: int) returns (swept: Runs)
    ensures swept == Filter(FreshAt(now), prev)
  {
    var cutoff := now - RUN_STALE_MS;
    var changed := false;
    var next: Runs := [];
    for i := 0 to |prev|
      invariant next == Filter(FreshAt(now), prev[..i])
      invariant changed <==> |next| < i
    {
      FilterNext(FreshAt(now), prev, i);
      if prev[i].run.updatedAt < cutoff {
        changed := true;
      } else {
        next := next + [prev[i]];
      }
    }
    assert prev[..|prev|] == prev;
    if !changed { FullFilter(FreshAt(now), prev); }
    swept := if changed then next else prev;
  }

  lemma {:induction false} FullFilter(keep: Entry -> bool, runs: Runs)
    requires |Filter(keep, runs)| >= |runs|
    ensures Filter(keep, runs) == runs
  {
    if runs != [] {
      assert |Filter(keep, runs[1..])| <= |runs[1..]|;
      FullFilter(keep, runs[1..]);
    }
  }

  lemma {:induction false} UpsertKeepsDistinct(orders: seq<OrderView>, order: OrderView)
    requires DistinctOrders(orders)
    ensures DistinctOrders(Upsert(orders, order))
  {
  }

  lemma HandledKeepsDistinct(s: State, e: Event, now: int)
    requires DistinctRuns(s.runs) && DistinctOrders(s.cache)
    ensures DistinctRuns(Handled(s, e, now).runs) && DistinctOrders(Handled(s, e, now).cache)
  {
    match e {
      case Created(order) => PutKeepsDistinct(s.runs, order.orderId, RunState(order, AllRoles(IDLE), now));
      case Progress(id, role, phase, step) =>
        if Get(s.runs, id).Some? {
          var run := Get(s.runs, id).value;
          PutKeepsDistinct(s.runs, id, run.(byRole := run.byRole[role := RevealOf(phase, step)], updatedAt := now));
        }
      case Finalized(order) =>
        UpsertKeepsDistinct(s.cache, order);
        FilterKeepsDistinctRuns(OtherThan(order.id), s.runs);
      case Updated(order) => UpsertKeepsDistinct(s.cache, order);
    }
  }

  // ----------------------------------------------------------------------------------------
  // What holds after every trace
  // ----------------------------------------------------------------------------------------

  /** A list the server sends names every order once. */
  ghost predicate DistinctSources(start: seq<OrderView>, trace: seq<Step>) {
    && DistinctOrders(start)
    && forall i :: 0 <= i < |trace| && trace[i].Refetched? ==> DistinctOrders(trace[i].orders)
  }

  lemma {:induction false} IdsStayDistinct(start: seq<OrderView>, trace: seq<Step>)
    requires DistinctSources(start, trace)
    ensures DistinctOrders(After(start, trace).cache) && DistinctRuns(After(start, trace).runs)
    decreases |trace|
  {
    if trace != [] {
      var before := trace[..|trace| - 1];
      IdsStayDistinct(start, before);
      var s := After(start, before);
      match trace[|trace| - 1] {
        case Received(e, at) => HandledKeepsDistinct(s, e, at);
        case Swept(now) => FilterKeepsDistinctRuns(FreshAt(now), s.runs);
        case Refetched(_) =>
        case Disabled =>
      }
    }
  }

  lemma {:induction false} RunsStayDistinct(start: seq<OrderView>, trace: seq<Step>)
    ensures DistinctRuns(After(start, trace).runs)
    decreases |trace|
  {
    if trace != [] {
      var before := trace[..|trace| - 1];
      RunsStayDistinct(start, before);
      var s := After(start, before);
      match trace[|trace| - 1] {
        case Received(e, at) => HandledKeepsRunsDistinct(s, e, at);
        case Swept(now) => FilterKeepsDistinctRuns(FreshAt(now), s.runs);
        case Refetched(_) =>
        case Disabled =>
      }
    }
  }

  lemma HandledKeepsRunsDistinct(s: State, e: Event, now: int)
    requires DistinctRuns(s.runs)
    ensures DistinctRuns(Handled(s, e, now).runs)
  {
    HandledKeepsDistinct(State([], s.runs), e, now);
  }

  predicate CreatesRun(step: Step, id: OrderId) {
    step.Received? && step.event.Created? && step.event.placeholder.orderId == id
  }

  predicate Advances(step: Step, id: OrderId) {
    step.Received? && step.event.Progress? && step.event.orderId == id
  }

  /** When order `id` was last heard of, from its creation at `k` on. */
  function LastHeard(trace: seq<Step>, id: OrderId, k: nat): int
    requires k < |trace| && CreatesRun(trace[k], id)
  {
    var last := trace[|trace| - 1];
    if |trace| == k + 1 || Advances(last, id) then (if last.Received? then last.at else 0)
    else LastHeard(trace[..|trace| - 1], id, k)
  }

  /** What the latest progress of a role since the creation at `k` said. */
  function LastReveal(trace: seq<Step>, id: OrderId, role: AgentRole, k: nat): RoleReveal
    requires k < |trace| && CreatesRun(trace[k], id)
  {
    var last := trace[|trace| - 1];
    if |trace| == k + 1 then IDLE
    else if Advances(last, id) && last.event.role == role then RevealOf(last.event.phase, last.event.step)
    else LastReveal(trace[..|trace| - 1], id, role, k)
  }

  /** The step at `j` leaves the run created at `k` in place. */
  predicate Spares(trace: seq<Step>, id: OrderId, k: nat, j: nat)
    requires k < j < |trace| && CreatesRun(trace[k], id)
  {
    match trace[j]
    case Received(Created(order), _) => order.orderId != id
    case Received(Finalized(order), _) => order.id != id
    case Received(_, _) => true
    case Swept(now) => LastHeard(trace[..j], id, k) >= now - 15_000
    case Refetched(_) => true
    case Disabled => false
  }

  ghost predicate RunningSince(trace: seq<Step>, id: OrderId, k: nat) {
    && k < |trace| && CreatesRun(trace[k], id)
    && forall j :: k < j < |trace| ==> Spares(trace, id, k, j)
  }

  function RunOf(trace: seq<Step>, id: OrderId, k: nat): RunState
    requires k < |trace| && CreatesRun(trace[k], id)
  {
    RunState(
      trace[k].event.placeholder,
      map role: AgentRole | true :: LastReveal(trace, id, role, k),
      LastHeard(trace, id, k))
  }

  lemma SparesPrefix(trace: seq<Step>, id: OrderId, k: nat, n: nat)
    requires k < n <= |trace| && CreatesRun(trace[k], id)
    ensures forall j :: k < j < n ==> Spares(trace, id, k, j) == Spares(trace[..n], id, k, j)
  {
    forall j | k < j < n ensures trace[..n][..j] == trace[..j] {
    }
  }

  /** A run exists exactly when its order was created and since then neither created again, nor
      finalised, nor switched off, nor silent for too long at a sweep. While it exists it shows, for
      each of the six roles, the latest progress since the creation. Progress never brings a run back. */
  lemma {:induction false} RunsFollowTheirOrders(start: seq<OrderView>, trace: seq<Step>, id: OrderId)
    ensures Get(After(start, trace).runs, id).Some? <==> exists k: nat :: RunningSince(trace, id, k)
    ensures forall k: nat :: RunningSince(trace, id, k) ==> Get(After(start, trace).runs, id) == Some(RunOf(trace, id, k))
    decreases |trace|
  {
    if trace != [] {
      var before, n := trace[..|trace| - 1], |trace| - 1;
      RunsFollowTheirOrders(start, before, id);
      RunsStayDistinct(start, before);
      var was := Get(After(start, before).runs, id);
      NextRun(After(start, before), trace[n], id);
      if CreatesRun(trace[n], id) {
        assert RunningSince(trace, id, n);
        forall k: nat | RunningSince(trace, id, k) ensures k == n {
          assert k < n ==> Spares(trace, id, k, n);
        }
        assert RunOf(trace, id, n).byRole == AllRoles(IDLE);
      } else {
        forall k: nat | k < n && CreatesRun(before[k], id)
          ensures RunningSince(trace, id, k) <==> RunningSince(before, id, k) && Spares(trace, id, k, n)
          ensures RunningSince(trace, id, k) ==> Get(After(start, trace).runs, id) == Some(RunOf(trace, id, k))
        {
          LastSpares(trace, id, k);
          if RunningSince(trace, id, k) { RunMovesOn(trace, id, k, was.value); }
        }
        if was.Some? {
          var k: nat :| RunningSince(before, id, k);
          assert trace[k] == before[k];
        }
      }
    }
  }

  lemma LastSpares(trace: seq<Step>, id: OrderId, k: nat)
    requires k < |trace| - 1 && CreatesRun(trace[k], id)
    ensures RunningSince(trace, id, k) <==>
      RunningSince(trace[..|trace| - 1], id, k) && Spares(trace, id, k, |trace| - 1)
  {
    SparesPrefix(trace, id, k, |trace| - 1);
  }

  /** What one step does to the run of one order. */
  function NextOf(run: Option<RunState>, step: Step, id: OrderId): Option<RunState> {
    match step
    case Received(Created(order), at) =>
      if order.orderId == id then Some(RunState(order, AllRoles(IDLE), at)) else run
    case Received(Progress(other, role, phase, s), at) =>
      if other == id && run.Some? then
        Some(run.value.(byRole := run.value.byRole[role := RevealOf(phase, s)], updatedAt := at))
      else run
    case Received(Finalized(order), _) => if order.id == id then None else run
    case Received(Updated(_), _) => run
    case Swept(now) => if run.Some? && run.value.updatedAt < now - RUN_STALE_MS then None else run
    case Refetched(_) => run
    case Disabled => None
  }

  lemma NextRun(s: State, step: Step, id: OrderId)
    requires DistinctRuns(s.runs)
    ensures Get(Next(s, step).runs, id) == NextOf(Get(s.runs, id), step, id)
  {
    match step {
      case Received(Created(order), at) => PutGet(s.runs, order.orderId, RunState(order, AllRoles(IDLE), at), id);
      case Received(Progress(other, role, phase, st), at) =>
        if Get(s.runs, other).Some? {
          var run := Get(s.runs, other).value;
          PutGet(s.runs, other, run.(byRole := run.byRole[role := RevealOf(phase, st)], updatedAt := at), id);
        }
      case Received(Finalized(order), _) => FilterGet(OtherThan(order.id), s.runs, id);
      case Received(Updated(_), _) =>
      case Swept(now) => FilterGet(FreshAt(now), s.runs, id);
      case Refetched(_) =>
      case Disabled =>
    }
  }

  /** A step that is no creation either spares a run, and moves it on, or removes it. */
  lemma RunMovesOn(trace: seq<Step>, id: OrderId, k: nat, run: RunState)
    requires k < |trace| - 1 && CreatesRun(trace[k], id) && !CreatesRun(trace[|trace| - 1], id)
    requires run == RunOf(trace[..|trace| - 1], id, k)
    ensures NextOf(Some(run), trace[|trace| - 1], id)
         == if Spares(trace, id, k, |trace| - 1) then Some(RunOf(trace, id, k)) else None
  {
    var last := trace[|trace| - 1];
    var before := trace[..|trace| - 1];
    assert before[k] == trace[k];
    if Spares(trace, id, k, |trace| - 1) {
      forall role: AgentRole
        ensures RunOf(trace, id, k).byRole[role]
             == if Advances(last, id) && last.event.role == role then RevealOf(last.event.phase, last.event.step)
                else run.byRole[role]
      {
      }
      var moved := NextOf(Some(run), last, id).value;
      assert moved.byRole == RunOf(trace, id, k).byRole;
    }
  }

  // ----------------------------------------------------------------------------------------
  // The cached orders
  // ----------------------------------------------------------------------------------------

  /** What a step does to the cached copy of one order: the last write wins. */
  function WrittenBy(cached: Option<OrderView>, step: Step, id: OrderId): Option<OrderView> {
    match step
    case Received(Finalized(order), _) => if order.id == id then Some(order) else cached
    case Received(Updated(order), _) => if order.id == id then Some(order) else cached
    case Refetched(orders) => Find(orders, id)
    case _ => cached
  }

  function LastWritten(start: seq<OrderView>, trace: seq<Step>, id: OrderId): Option<OrderView> {
    if trace == [] then Find(start, id)
    else WrittenBy(LastWritten(start, trace[..|trace| - 1], id), trace[|trace| - 1], id)
  }

  lemma {:induction false} FindAt(orders: seq<OrderView>, k: nat, id: OrderId)
    requires k < |orders| && orders[k].id == id && forall i :: 0 <= i < k ==> orders[i].id != id
    ensures Find(orders, id) == Some(orders[k])
  {
    if k > 0 { FindAt(orders[1..], k - 1, id); }
  }

  lemma {:induction false} FindNone(orders: seq<OrderView>, id: OrderId)
    ensures Find(orders, id).None? <==> forall i :: 0 <= i < |orders| ==> orders[i].id != id
    ensures Find(orders, id).Some? ==> Find(orders, id).value.id == id && Find(orders, id).value in orders
  {
    if orders != [] && orders[0].id != id {
      FindNone(orders[1..], id);
      assert forall i :: 1 <= i < |orders| ==> orders[i] == orders[1..][i - 1];
    }
  }

  lemma {:induction false} FindUpdated(orders: seq<OrderView>, k: nat, order: OrderView, id: OrderId)
    requires k < |orders| && orders[k].id == order.id && id != order.id
    ensures Find(orders[k := order], id) == Find(orders, id)
  {
    if k > 0 {
      FindUpdated(orders[1..], k - 1, order, id);
      assert orders[k := order][1..] == orders[1..][k - 1 := order];
    } else {
      assert orders[k := order][1..] == orders[1..];
    }
  }

  lemma FindUpserted(orders: seq<OrderView>, order: OrderView, id: OrderId)
    ensures Find(Upsert(orders, order), id) == if order.id == id then Some(order) else Find(orders, id)
  {
    var k := IndexOfOrder(orders, order.id);
    if k < |orders| {
      if order.id == id { FindAt(orders[k := order], k, id); } else { FindUpdated(orders, k, order, id); }
    } else {
      assert ([order] + orders)[1..] == orders;
    }
  }

  /** Whatever the events, the copy of an order in the cache is the last one written. */
  lemma {:induction false} CacheHoldsTheLastWrite(start: seq<OrderView>, trace: seq<Step>, id: OrderId)
    ensures Find(After(start, trace).cache, id) == LastWritten(start, trace, id)
    decreases |trace|
  {
    if trace != [] {
      var before := trace[..|trace| - 1];
      CacheHoldsTheLastWrite(start, before, id);
      match trace[|trace| - 1] {
        case Received(Finalized(order), _) => FindUpserted(After(start, before).cache, order, id);
        case Received(Updated(order), _) => FindUpserted(After(start, before).cache, order, id);
        case _ =>
      }
    }
  }

  // ----------------------------------------------------------------------------------------
  // What is shown, and where
  // ----------------------------------------------------------------------------------------

  /** What a role shows: `active` while it works; once it is done, by the status of its step, and `skipped`
      without one; `idle` before. */
  lemma ShownStates(phase: Phase, step: Option<AgentStep>)
    ensures phase == PhaseActive ==> RevealOf(phase, step) == RoleReveal(Active, None)
    ensures phase == PhaseDone ==> RevealOf(phase, step).step == step
    ensures phase == PhaseDone && step.None? ==> RevealOf(phase, step).state == Skipped
    ensures phase == PhaseDone && step.Some? ==>
      RevealOf(phase, step).state
      == match step.value.status
         case StepSkipped => Skipped
         case StepHandoff => Handoff
         case StepFlagged => Flagged
         case StepActive => Done
    ensures IDLE == RoleReveal(Idle, None)
  {
  }

  /** A known order is replaced where it stands; a new one goes to the front. */
  lemma UpsertPlaces(orders: seq<OrderView>, order: OrderView)
    ensures (forall i :: 0 <= i < |orders| ==> orders[i].id != order.id) ==> Upsert(orders, order) == [order] + orders
    ensures forall k :: 0 <= k < |orders| && orders[k].id == order.id && (forall i :: 0 <= i < k ==> orders[i].id != order.id) ==>
      Upsert(orders, order) == orders[k := order]
  {
  }

  /** A run set again stays where it stands; a new one goes to the end. */
  lemma {:induction false} PutPlaces(runs: Runs, id: OrderId, run: RunState)
    ensures (forall i :: 0 <= i < |runs| ==> runs[i].id != id) ==> Put(runs, id, run) == runs + [Entry(id, run)]
    ensures forall k :: 0 <= k < |runs| && runs[k].id == id && (forall i :: 0 <= i < k ==> runs[i].id != id) ==>
      Put(runs, id, run) == runs[k := Entry(id, run)]
  {
    if runs != [] && runs[0].id != id {
      PutPlaces(runs[1..], id, run);
      var rest := runs[1..];
      if forall i :: 0 <= i < |runs| ==> runs[i].id != id {
        assert forall i :: 0 <= i < |rest| ==> rest[i].id != id;
        assert [runs[0]] + (rest + [Entry(id, run)]) == runs + [Entry(id, run)];
      }
      forall k | 0 <= k < |runs| && runs[k].id == id && (forall i :: 0 <= i < k ==> runs[i].id != id)
        ensures Put(runs, id, run) == runs[k := Entry(id, run)]
      {
        assert rest[k - 1].id == id && forall i :: 0 <= i < k - 1 ==> rest[i].id != id;
        assert [runs[0]] + rest[k - 1 := Entry(id, run)] == runs[k := Entry(id, run)];
      }
    }
  }

  /** What each event does to the run of its order, and that it leaves all others alone: a creation starts
      it, idle in all roles; progress changes one role of a run there is, and starts none; finalising ends
      it; an update leaves it. Creation and progress count as being heard of. */
  lemma EventsChangeTheirRun(s: State, e: Event, now: int, id: OrderId)
    requires DistinctRuns(s.runs)
    ensures var was, run := Get(s.runs, id), Get(Handled(s, e, now).runs, id);
      match e
      case Created(order) =>
        if order.orderId != id then run == was
        else run.Some? && run.value.placeholder == order && run.value.updatedAt == now
             && forall role: AgentRole :: role in run.value.byRole && run.value.byRole[role] == RoleReveal(Idle, None)
      case Progress(other, role, phase, step) =>
        if other != id || was.None? then run == was
        else run == Some(was.value.(byRole := was.value.byRole[role := RevealOf(phase, step)], updatedAt := now))
      case Finalized(order) => run == if order.id == id then None else was
      case Updated(_) => run == was
  {
    NextRun(s, Received(e, now), id);
  }

  /** A sweep ends exactly the runs not heard of for more than 15 seconds, and switching off ends all. */
  lemma SweepsEndQuietRuns(s: State, now: int, id: OrderId)
    requires DistinctRuns(s.runs)
    ensures var was, run := Get(s.runs, id), Get(Next(s, Swept(now)).runs, id);
      run == if was.Some? && was.value.updatedAt < now - 15_000 then None else was
    ensures Get(Next(s, Disabled).runs, id) == None
    ensures Next(s, Swept(now)).cache == s.cache && Next(s, Disabled).cache == s.cache
  {
    NextRun(s, Swept(now), id);
    NextRun(s, Disabled, id);
  }

  /** Which events write to the cache. */
  lemma EventsWriteToTheCache(s: State, order: OrderView, id: OrderId, e: Event, now: int)
    ensures Find(Handled(s, Finalized(order), now).cache, id) == if order.id == id then Some(order) else Find(s.cache, id)
    ensures Find(Handled(s, Updated(order), now).cache, id) == if order.id == id then Some(order) else Find(s.cache, id)
    ensures e.Created? || e.Progress? ==> Handled(s, e, now).cache == s.cache
  {
    FindUpserted(s.cache, order, id);
  }
}
