/** The feed shown beside the live view, and what its rows reveal (apps/web/lib/live.ts). */
module LiveFeed {
  import opened Sequences
  import opened AgentStream

  datatype FeedStatus = Processing | Final(status: OrderStatus)

  datatype FeedItem = FeedItem(
    id: OrderId,
    createdAt: int,
    message: Message,
    status: FeedStatus,
    order: Option<OrderView>,
    processing: bool
  )

  function OrderItem(order: OrderView, processing: bool): FeedItem {
    FeedItem(order.id, order.createdAt, order.message, if processing then Processing else Final(order.status),
      Some(order), processing)
  }

  function RunItem(e: Entry): FeedItem {
    FeedItem(e.id, e.run.placeholder.createdAt, e.run.placeholder.message, Processing, None, true)
  }

  function OrderItems(orders: seq<OrderView>, runs: Runs): (items: seq<FeedItem>)
    ensures |items| == |orders|
    ensures forall i :: 0 <= i < |orders| ==> items[i] == OrderItem(orders[i], Get(runs, orders[i].id).Some?)
  {
    seq(|orders|, i requires 0 <= i < |orders| => OrderItem(orders[i], Get(runs, orders[i].id).Some?))
  }

  function RunItems(runs: Runs): (items: seq<FeedItem>)
    ensures |items| == |runs|
    ensures forall i :: 0 <= i < |runs| ==> items[i] == RunItem(runs[i])
  {
    seq(|runs|, i requires 0 <= i < |runs| => RunItem(runs[i]))
  }

  /** Runs whose order is not cached yet. */
  function NotYet(orders: seq<OrderView>): Entry -> bool {
    (e: Entry) => Find(orders, e.id).None?
  }

  function Merged(orders: seq<OrderView>, runs: Runs): seq<FeedItem> {
    OrderItems(orders, runs) + RunItems(Filter(NotYet(orders), runs))
  }

  /** `b.createdAt.localeCompare(a.createdAt)`: newest first. */
  function NewestFirst(): (FeedItem, FeedItem) -> bool {
    (a: FeedItem, b: FeedItem) => a.createdAt >= b.createdAt
  }

  function FeedItems(orders: seq<OrderView>, runs: Runs): seq<FeedItem> {
    SortBy(NewestFirst(), Merged(orders, runs))
  }

  lemma NextRunItem(orders: seq<OrderView>, runs: Runs, i: nat)
    requires i < |runs|
    ensures RunItems(Filter(NotYet(orders), runs[..i + 1]))
         == RunItems(Filter(NotYet(orders), runs[..i])) + if Find(orders, runs[i].id).None? then [RunItem(runs[i])] else []
  {
    FilterNext(NotYet(orders), runs, i);
  }

  method BuildFeedItems(orders: seq<OrderView>, runs: Runs) returns (items: seq<FeedItem>)
    ensures items == FeedItems(orders, runs)
  {
    items := [];
    ghost var cached := OrderItems(orders, runs);
    var seen: set<OrderId> := {};
    for i := 0 to |orders|
      invariant items == cached[..i]
      invariant forall id :: id in seen <==> exists j :: 0 <= j < i && orders[j].id == id
    {
      items := items + [OrderItem(orders[i], Get(runs, orders[i].id).Some?)];
      seen := seen + {orders[i].id};
    }
    forall id ensures id in seen <==> Find(orders, id).Some? {
      FindNone(orders, id);
    }
    for i := 0 to |runs|
      invariant items == cached + RunItems(Filter(NotYet(orders), runs[..i]))
    {
      NextRunItem(orders, runs, i);
      if runs[i].id !in seen {
        items := items + [RunItem(runs[i])];
      }
    }
    assert runs[..|runs|] == runs;
    items := SortBy(NewestFirst(), items);
  }

  // ----------------------------------------------------------------------------------------
  // What the feed shows
  // ----------------------------------------------------------------------------------------

  ghost predicate DistinctItems(items: seq<FeedItem>) {
    forall i, j :: 0 <= i < j < |items| ==> items[i].id != items[j].id
  }

  /** The item an id should have, if any. */
  function ItemFor(orders: seq<OrderView>, runs: Runs, id: OrderId): Option<FeedItem> {
    match (Find(orders, id), Get(runs, id))
    case (Some(order), run) => Some(OrderItem(order, run.Some?))
    case (None, Some(run)) => Some(RunItem(Entry(id, run)))
    case (None, None) => None
  }

  lemma MergedIsDistinct(orders: seq<OrderView>, runs: Runs)
    requires DistinctOrders(orders) && DistinctRuns(runs)
    ensures DistinctItems(Merged(orders, runs))
  {
    var added := Filter(NotYet(orders), runs);
    FilterKeepsDistinctRuns(NotYet(orders), runs);
    forall i, j | 0 <= i < |orders| && 0 <= j < |added| ensures orders[i].id != added[j].id {
      assert added[j] in added;
      FindNone(orders, added[j].id);
    }
  }

  lemma {:induction false} GetEntry(runs: Runs, e: Entry)
    requires DistinctRuns(runs)
    ensures e in runs <==> Get(runs, e.id) == Some(e.run)
  {
    if runs != [] {
      GetEntry(runs[1..], e);
      GetAt(runs[1..], e.id);
      if runs[0].id == e.id {
        assert e in runs <==> e == runs[0] || e in runs[1..];
      } else {
        assert e in runs <==> e == runs[0] || e in runs[1..];
      }
    }
  }

  lemma {:induction false} FindOrder(orders: seq<OrderView>, order: OrderView)
    requires DistinctOrders(orders)
    ensures order in orders <==> Find(orders, order.id) == Some(order)
  {
    if orders != [] {
      FindOrder(orders[1..], order);
      FindNone(orders[1..], order.id);
      assert order in orders <==> order == orders[0] || order in orders[1..];
    }
  }

  lemma MergedHolds(orders: seq<OrderView>, runs: Runs, item: FeedItem)
    requires DistinctOrders(orders) && DistinctRuns(runs)
    ensures item in Merged(orders, runs) <==> ItemFor(orders, runs, item.id) == Some(item)
  {
    var added := Filter(NotYet(orders), runs);
    if item in Merged(orders, runs) {
      if item in OrderItems(orders, runs) {
        var i :| 0 <= i < |orders| && item == OrderItems(orders, runs)[i];
        FindOrder(orders, orders[i]);
      } else {
        assert item in RunItems(added);
        var i :| 0 <= i < |added| && item == RunItems(added)[i];
        assert added[i] in added;
        GetEntry(runs, added[i]);
      }
    }
    if ItemFor(orders, runs, item.id) == Some(item) {
      match Find(orders, item.id) {
        case Some(order) =>
          FindNone(orders, item.id);
          var i :| 0 <= i < |orders| && orders[i] == order;
          assert OrderItems(orders, runs)[i] == item;
          assert item in OrderItems(orders, runs);
        case None =>
          var e := Entry(item.id, Get(runs, item.id).value);
          GetEntry(runs, e);
          assert e in added;
          var i :| 0 <= i < |added| && added[i] == e;
          assert RunItems(added)[i] == item;
          assert item in RunItems(added);
      }
    }
  }

  lemma DistinctIsAboutTheBag(s: seq<FeedItem>, t: seq<FeedItem>)
    requires multiset(s) == multiset(t) && DistinctItems(s)
    ensures DistinctItems(t)
  {
    forall i, j | 0 <= i < j < |t| ensures t[i].id != t[j].id {
      if t[i].id == t[j].id {
        SameElements(s, t);
        assert t[i] in s && t[j] in s;
        var k :| 0 <= k < |s| && s[k] == t[i];
        var l :| 0 <= l < |s| && s[l] == t[j];
        assert k == l;
        TwiceCounts(t, i, j);
        OnceCounts(s, k);
      }
    }
  }

  lemma TwiceCounts(t: seq<FeedItem>, i: nat, j: nat)
    requires i < j < |t| && t[i] == t[j]
    ensures multiset(t)[t[i]] >= 2
  {
    assert t == t[..j] + [t[j]] + t[j + 1..];
    assert t[i] in t[..j];
  }

  lemma OnceCounts(s: seq<FeedItem>, k: nat)
    requires k < |s| && DistinctItems(s)
    ensures multiset(s)[s[k]] == 1
  {
    assert s == s[..k] + [s[k]] + s[k + 1..];
    assert s[k] !in s[..k] && s[k] !in s[k + 1..];
  }

  lemma FeedHolds(orders: seq<OrderView>, runs: Runs, item: FeedItem)
    requires DistinctOrders(orders) && DistinctRuns(runs)
    ensures item in FeedItems(orders, runs) <==> ItemFor(orders, runs, item.id) == Some(item)
  {
    SameElements(Merged(orders, runs), FeedItems(orders, runs));
    MergedHolds(orders, runs, item);
  }

  lemma FeedIsOrdered(orders: seq<OrderView>, runs: Runs)
    requires DistinctOrders(orders) && DistinctRuns(runs)
    ensures DistinctItems(FeedItems(orders, runs)) && NewestOnTop(FeedItems(orders, runs))
  {
    MergedIsDistinct(orders, runs);
    DistinctIsAboutTheBag(Merged(orders, runs), FeedItems(orders, runs));
    SortBySorted(NewestFirst(), Merged(orders, runs));
  }

  /** What an item says: of a cached order its own data, of any other running one the placeholder's; its
      status is `processing` exactly while a run exists. */
  ghost predicate Tells(item: FeedItem, order: Option<OrderView>, run: Option<RunState>) {
    && item.order == order && item.processing == run.Some?
    && (order.Some? ==>
          && item.createdAt == order.value.createdAt && item.message == order.value.message
          && item.status == if run.Some? then Processing else Final(order.value.status))
    && (order.None? && run.Some? ==>
          && item.createdAt == run.value.placeholder.createdAt && item.message == run.value.placeholder.message
          && item.status == Processing)
  }

  lemma ItemShows(orders: seq<OrderView>, runs: Runs, id: OrderId)
    ensures match ItemFor(orders, runs, id)
      case None => Find(orders, id).None? && Get(runs, id).None?
      case Some(item) =>
        && (Find(orders, id).Some? || Get(runs, id).Some?)
        && item.id == id && Tells(item, Find(orders, id), Get(runs, id))
  {
    FindNone(orders, id);
  }

  predicate NewestOnTop(items: seq<FeedItem>) {
    forall i, j :: 0 <= i < j < |items| ==> items[i].createdAt >= items[j].createdAt
  }

  /** The feed has one item for every order that is cached or running and none besides, the newest
      first; an item is processing exactly while its run exists, and shows the cached order if there
      is one. */
  lemma FeedShowsEveryOrderOnce(orders: seq<OrderView>, runs: Runs)
    requires DistinctOrders(orders) && DistinctRuns(runs)
    ensures DistinctItems(FeedItems(orders, runs)) && NewestOnTop(FeedItems(orders, runs))
    ensures forall item :: item in FeedItems(orders, runs) <==> ItemFor(orders, runs, item.id) == Some(item)
    ensures forall item :: item in FeedItems(orders, runs) ==> Tells(item, Find(orders, item.id), Get(runs, item.id))
    ensures forall id :: Find(orders, id).Some? || Get(runs, id).Some? ==>
      exists item :: item in FeedItems(orders, runs) && item.id == id
  {
    FeedIsOrdered(orders, runs);
    forall item ensures item in FeedItems(orders, runs) <==> ItemFor(orders, runs, item.id) == Some(item) {
      FeedHolds(orders, runs, item);
    }
    forall item | item in FeedItems(orders, runs)
      ensures Tells(item, Find(orders, item.id), Get(runs, item.id))
    {
      ItemShows(orders, runs, item.id);
    }
    forall id | Find(orders, id).Some? || Get(runs, id).Some?
      ensures exists item :: item in FeedItems(orders, runs) && item.id == id
    {
      ItemShows(orders, runs, id);
      var item := ItemFor(orders, runs, id).value;
      FeedHolds(orders, runs, item);
    }
  }

  /** So it is after every trace of events, sweeps and reloads. */
  lemma FeedAfterAnyTrace(start: seq<OrderView>, trace: seq<Step>, id: OrderId)
    requires DistinctSources(start, trace)
    ensures var s := After(start, trace);
      var items := FeedItems(s.cache, s.runs);
      && DistinctItems(items) && NewestOnTop(items)
      && ((exists item :: item in items && item.id == id)
          <==> LastWritten(start, trace, id).Some? || exists k: nat :: RunningSince(trace, id, k))
      && (forall item :: item in items && item.id == id ==>
            && (item.processing <==> exists k: nat :: RunningSince(trace, id, k))
            && item.order == LastWritten(start, trace, id))
  {
    var s := After(start, trace);
    var items := FeedItems(s.cache, s.runs);
    IdsStayDistinct(start, trace);
    FeedShowsEveryOrderOnce(s.cache, s.runs);
    RunsFollowTheirOrders(start, trace, id);
    CacheHoldsTheLastWrite(start, trace, id);
    FindNone(s.cache, id);
    if ItemFor(s.cache, s.runs, id).Some? {
      var item := ItemFor(s.cache, s.runs, id).value;
      assert item.id == id;
      assert item in items;
    }
  }

  // ----------------------------------------------------------------------------------------
  // What a row reveals
  // ----------------------------------------------------------------------------------------

  datatype RevealState = RevealState(byRole: ByRole, revealed: bool)

  function FindStep(steps: seq<AgentStep>, role: AgentRole): Option<AgentStep> {
    if steps == [] then None
    else if steps[0].role == role then Some(steps[0])
    else FindStep(steps[1..], role)
  }

  /** The step found for a role is the first one of that role. */
  lemma {:induction false} FirstStepOfRole(steps: seq<AgentStep>, role: AgentRole)
    ensures FindStep(steps, role).None? <==> forall i :: 0 <= i < |steps| ==> steps[i].role != role
    ensures forall k :: 0 <= k < |steps| && steps[k].role == role && (forall i :: 0 <= i < k ==> steps[i].role != role) ==>
      FindStep(steps, role) == Some(steps[k])
  {
    if steps != [] && steps[0].role != role {
      var rest := steps[1..];
      FirstStepOfRole(rest, role);
      assert forall i :: 0 < i < |steps| ==> steps[i] == rest[i - 1];
      forall k | 0 <= k < |steps| && steps[k].role == role && (forall i :: 0 <= i < k ==> steps[i].role != role)
        ensures FindStep(steps, role) == Some(steps[k])
      {
        assert rest[k - 1].role == role && forall i :: 0 <= i < k - 1 ==> rest[i].role != role;
      }
    }
  }

  /** A finished role shows the state of its first step, or that it was skipped. */
  lemma StaticRoleShows(order: OrderView, role: AgentRole)
    ensures var s := if order.trace.Some? then FindStep(order.trace.value, role) else None;
      StaticRole(order, role) == RevealOf(PhaseDone, s)
  {
  }

  function StaticRole(order: OrderView, role: AgentRole): RoleReveal {
    var s := match order.trace case None => None case Some(steps) => FindStep(steps, role);
    RoleReveal(StepUi(s), s)
  }

  method StaticReveal(order: OrderView) returns (r: RevealState)
    ensures r.revealed
    ensures forall role: AgentRole :: role in r.byRole && r.byRole[role] == StaticRole(order, role)
  {
    var byRole: ByRole := map[];
    for i := 0 to |AGENT_ROLES|
      invariant forall role :: role in byRole <==> role in AGENT_ROLES[..i]
      invariant forall role :: role in byRole ==> byRole[role] == StaticRole(order, role)
    {
      byRole := byRole[AGENT_ROLES[i] := StaticRole(order, AGENT_ROLES[i])];
    }
    EveryRoleIsListed();
    assert AGENT_ROLES[..|AGENT_ROLES|] == AGENT_ROLES;
    r := RevealState(byRole, true);
  }

  /** A row is revealed exactly when its order is there and no run is, and has all six roles. */
  method DeriveReveal(item: Option<FeedItem>, run: Option<RunState>) returns (r: RevealState)
    ensures r.revealed <==> run.None? && item.Some? && item.value.order.Some?
    ensures run.Some? ==> r.byRole == run.value.byRole
    ensures run.None? ==> forall role: AgentRole :: role in r.byRole
    ensures run.None? && item.Some? && item.value.order.Some? && item.value.order.value.trace.Some? ==>
      forall role: AgentRole :: r.byRole[role] == StaticRole(item.value.order.value, role)
    ensures run.None? && (item.None? || item.value.order.None? || item.value.order.value.trace.None?) ==>
      forall role: AgentRole :: r.byRole[role] == RoleReveal(Idle, None)
  {
    if run.Some? {
      r := RevealState(run.value.byRole, false);
    } else if item.Some? && item.value.order.Some? && item.value.order.value.trace.Some? {
      r := StaticReveal(item.value.order.value);
    } else {
      var byRole := IdleByRole();
      r := RevealState(byRole, item.Some? && item.value.order.Some?);
    }
  }
}
