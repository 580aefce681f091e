/** The deterministic route policy: one plan for every understanding of a request. */
module Routing {
  import opened Domain
  import opened Sequences

  /** What the pattern and term tests find in the text of a request. */
  datatype Signals = Signals(evidenceFollowup: bool, external: bool, webDisabled: bool, continues: bool, latest: bool)

  predicate HasValidEvidence(ctx: ActiveContext) {
    exists ref :: ref in ctx.refs && ref.valid
  }

  predicate ForbiddenMutation(task: Task) {
    task.action.ExecuteAction? && task.target.Recipe?
  }

  function ScopeError(slots: Slots, scope: ActorScope): Option<Reason> {
    if Has(slots, "product") && scope.products != {} && slots["product"] !in scope.products then Some(ProductOutOfScope)
    else if Has(slots, "tool_id") && scope.toolIds != {} && slots["tool_id"] !in scope.toolIds then Some(ToolOutOfScope)
    else None
  }

  /** The end of `_task_route`, which does not look at the task any more. */
  function TailRoute(ctx: ActiveContext, signals: Signals): Route {
    if signals.external && !signals.webDisabled then RagAndWeb
    else if signals.continues && !signals.latest && HasValidEvidence(ctx) then ReuseEvidence
    else InternalRag
  }

  function TaskRoute(task: Task, u: Understanding, ctx: ActiveContext, signals: Signals): Route {
    if signals.evidenceFollowup && HasValidEvidence(ctx) then ReuseEvidence
    else if task.target.PreviousUserMessage? && task.action.Recall? then ChatDirect
    else if task.target.PreviousAnswer? && IsHistoryTask(task) then ChatDirect
    else if u.intent.Investigation?
      && (task.intent.Investigation? || task.intent.DataQuery? || task.intent.KnowledgeQuery?) then
      RagAndTool
    else if task.intent.Conversation? || task.intent.ContentTask? then ChatDirect
    else if task.intent.DataQuery? then ToolOnly
    else if task.intent.Investigation? then RagAndTool
    else TailRoute(ctx, signals)
  }

  /** The body of the loop over tasks in `decide`. */
  function FirstDecision(
    task: Task, u: Understanding, scope: ActorScope, ctx: ActiveContext, signals: Signals): TaskDecision {
    var scopeError := ScopeError(Values(u), scope);
    if ForbiddenMutation(task) then TaskDecision(task.id, Refuse, None, ControlledWriteNotAllowed)
    else if task.target.ReportTarget? && task.action.Generate? then TaskDecision(task.id, Defer, None, ReportNotEnabled)
    else if scopeError.Some? then TaskDecision(task.id, Refuse, None, scopeError.value)
    else if task.policy.Defer? then TaskDecision(task.id, Defer, None, DeferredByPolicy)
    else if task.policy.Refuse? then
      TaskDecision(task.id, Refuse, None,
                   if task.intent.ActionRequest? && task.target.GeneralTarget? then OutsideCapability
                     else FlaggedUnsafe)
    else TaskDecision(task.id, task.policy, Some(TaskRoute(task, u, ctx, signals)), TaskAllowed)
  }

  // ----- Predefined combinations -----

  const TOOL_FAMILY := {InternalRag, ToolOnly, RagAndTool}
  const WEB_FAMILY := {InternalRag, RagAndWeb}

  predicate Executes(d: TaskDecision) { d.decision.Execute? && d.route.Some? }
  predicate ExecutesBeyondChat(d: TaskDecision) { Executes(d) && !d.route.value.ChatDirect? }

  function RouteOf(d: TaskDecision): Route {
    if d.route.Some? then d.route.value else ClarifyRoute
  }

  /** The routes other than plain chat that the decisions still execute. */
  function ActiveRoutes(ds: seq<TaskDecision>): set<Route> {
    set d | d in ds && ExecutesBeyondChat(d) :: RouteOf(d)
  }

  predicate Predefined(routes: set<Route>) {
    |routes| <= 1 || routes <= TOOL_FAMILY || routes <= WEB_FAMILY
  }

  predicate CompatibleWith(primary: Route, route: Option<Route>) {
    route.None? || route.value.ChatDirect? || route.value == primary
    || (primary in TOOL_FAMILY && route.value in TOOL_FAMILY)
    || (primary in WEB_FAMILY && route.value in WEB_FAMILY)
  }

  function Deferred(primary: Route, d: TaskDecision): TaskDecision {
    if d.decision.Execute? && !CompatibleWith(primary, d.route)
    then TaskDecision(d.taskId, Defer, None, CombinationDeferred) else d
  }

  function Primary(ds: seq<TaskDecision>): Route {
    var beyond := Filter(ExecutesBeyondChat, ds);
    if beyond == [] then ChatDirect else RouteOf(beyond[0])
  }

  /** `_enforce_predefined_combination`. */
  function Enforced(ds: seq<TaskDecision>): (r: seq<TaskDecision>)
    ensures |r| == |ds|
  {
    if Predefined(ActiveRoutes(ds)) then ds else Map((d: TaskDecision) => Deferred(Primary(ds), d), ds)
  }

  function ExecutedRoutes(ds: seq<TaskDecision>): seq<Route> {
    Map(RouteOf, Filter(Executes, ds))
  }

  method EnforcePredefinedCombination(ds: seq<TaskDecision>) returns (adjusted: seq<TaskDecision>, routes: seq<Route>)
    ensures adjusted == Enforced(ds) && routes == ExecutedRoutes(adjusted)
  {
    if Predefined(ActiveRoutes(ds)) {
      return ds, ExecutedRoutes(ds);
    }
    var primary := Primary(ds);
    ghost var f := (d: TaskDecision) => Deferred(primary, d);
    adjusted := [];
    for i := 0 to |ds|
      invariant adjusted == Map(f, ds[..i])
    {
      assert ds[..i + 1] == ds[..i] + [ds[i]];
      MapAdd(f, ds[..i], ds[i]);
      if ds[i].decision.Execute? && !CompatibleWith(primary, ds[i].route) {
        adjusted := adjusted + [TaskDecision(ds[i].taskId, Defer, None, CombinationDeferred)];
      } else {
        adjusted := adjusted + [ds[i]];
      }
    }
    assert ds[..|ds|] == ds;
    routes := ExecutedRoutes(adjusted);
  }

  /** `_combine_routes`. */
  function Combined(routes: seq<Route>, suggested: Route): Route {
    var beyond := Filter((r: Route) => !r.ChatDirect?, routes);
    if routes == [] then suggested
    else if RagAndTool in routes || (InternalRag in routes && ToolOnly in routes) then RagAndTool
    else if RagAndWeb in routes then RagAndWeb
    else if beyond != [] then beyond[0] else routes[0]
  }

  // ----- Required slots -----

  function LegacyMissing(slots: Slots): seq<string> {
    (if Has(slots, "product") then [] else ["product"])
    + (if Has(slots, "time_range") then [] else ["time_range"])
    + if Has(slots, "tool_id") || Has(slots, "chamber") then [] else ["tool_or_chamber"]
  }

  function TaskMissing(task: Task, slots: Slots): seq<string> {
    if !task.policy.Execute? then []
    else if task.intent.DataQuery? then
      if task.shape.UnspecifiedShape? then LegacyMissing(slots)
      else
        (if Has(slots, "time_range") then [] else ["time_range"])
        + if task.shape.EntityLookup? && !HasAffectedObject(slots) then ["affected_object"] else []
    else if task.intent.Investigation? then
      if task.shape.UnspecifiedShape? then LegacyMissing(slots)
      else
        (if Has(slots, "time_range") then [] else ["time_range"])
        + if HasAffectedObject(slots) then [] else ["affected_object"]
    else []
  }

  function TasksMissing(tasks: seq<Task>, slots: Slots): seq<string> {
    if tasks == [] then []
    else TasksMissing(tasks[..|tasks| - 1], slots) + TaskMissing(tasks[|tasks| - 1], slots)
  }

  function AllMissing(u: Understanding, route: Route): seq<string> {
    TasksMissing(u.tasks, Values(u))
    + (if (route.ToolOnly? || route.RagAndTool?) && (forall t :: t in u.tasks ==> !t.policy.Execute?)
       then LegacyMissing(Values(u)) else [])
    + if (exists t :: t in u.tasks && IsHistoryTask(t)) && u.contextMessageIds == [] then ["history_reference"] else []
  }

  /** `list(dict.fromkeys(missing))[:3]`. */
  function FirstThree(s: seq<string>): (r: seq<string>)
    ensures |r| <= 3 && Distinct(r) && r <= Dedup(s)
  {
    var d := Dedup(s);
    if |d| <= 3 then d else d[..3]
  }

  function RequiredMissing(u: Understanding, route: Route): seq<string> {
    FirstThree(AllMissing(u, route))
  }

  method FindRequiredMissing(u: Understanding, route: Route) returns (missing: seq<string>)
    ensures missing == RequiredMissing(u, route)
  {
    hide TaskMissing, LegacyMissing, Has, HasAffectedObject, FirstThree, Dedup, IsHistoryTask;
    var slots := Values(u);
    missing := [];
    for i := 0 to |u.tasks|
      invariant missing == TasksMissing(u.tasks[..i], slots)
    {
      assert u.tasks[..i + 1][..i] == u.tasks[..i];
      missing := missing + TaskMissing(u.tasks[i], slots);
    }
    assert u.tasks[..|u.tasks|] == u.tasks;
    if (route.ToolOnly? || route.RagAndTool?) && forall t :: t in u.tasks ==> !t.policy.Execute? {
      missing := missing + LegacyMissing(slots);
    }
    if (exists t :: t in u.tasks && IsHistoryTask(t)) && u.contextMessageIds == [] {
      missing := missing + ["history_reference"];
    }
    assert missing == AllMissing(u, route);
    missing := FirstThree(missing);
  }

  // ----- The plan -----

  function Threshold(route: Route): real {
    match route
    case ChatDirect => 0.50 case ReuseEvidence => 0.82 case InternalRag => 0.58 case ToolOnly => 0.68
    case RagAndTool => 0.72 case RagAndWeb => 0.72 case _ => 0.65
  }

  function Withheld(reason: Reason, d: TaskDecision): TaskDecision {
    if d.decision.Execute? then d.(decision := Clarify, reason := reason) else d
  }

  function Withhold(reason: Reason, ds: seq<TaskDecision>): seq<TaskDecision> {
    Map((d: TaskDecision) => Withheld(reason, d), ds)
  }

  /** The slots that depend on a corrected or cleared one, and every evidence reference still valid. */
  function InvalidatedRefs(u: Understanding, ctx: ActiveContext): set<Reference> {
    var changed := set op | op in u.operations && (op.kind.CorrectSlot? || op.kind.ClearSlot?) :: op.slot;
    if changed == {} then {}
    else
      (set name | name in ctx.slots && ctx.slots[name].dependsOn * changed != {} :: SlotReference(name))
      + set ref | ref in ctx.refs && ref.valid && ref.id != "" :: EvidenceReference(ref.id)
  }

  function FirstDecisions(
    u: Understanding, scope: ActorScope, ctx: ActiveContext, signals: Signals): seq<TaskDecision> {
    Map((task: Task) => FirstDecision(task, u, scope, ctx, signals), u.tasks)
  }

  /** Nothing is left to execute and something was refused. */
  predicate OnlyRefusals(ds: seq<TaskDecision>) {
    (forall d :: d in ds ==> !d.decision.Execute?) && exists d :: d in ds && d.decision.Refuse?
  }

  function Suggested(u: Understanding): Route {
    if u.suggestedRoute.HistoryDirect? then ChatDirect else u.suggestedRoute
  }

  function PlanFor(u: Understanding, ctx: ActiveContext, ds: seq<TaskDecision>): RoutePlan {
    var invalidated := InvalidatedRefs(u, ctx);
    if OnlyRefusals(ds) then RoutePlan(RefuseRoute, ds, [], invalidated)
    else
      var route := Combined(ExecutedRoutes(ds), Suggested(u));
      var missing := RequiredMissing(u, route);
      if missing != [] then
        RoutePlan(ClarifyRoute, Withhold(SlotsMissing, ds), missing, invalidated)
      else if u.confidence < Threshold(route) then
        RoutePlan(ClarifyRoute, Withhold(ConfidenceTooLow, ds), [], invalidated)
      else RoutePlan(route, ds, [], invalidated)
  }

  /** `RoutePolicy.decide`. */
  function Plan(u: Understanding, scope: ActorScope, ctx: ActiveContext, signals: Signals): RoutePlan {
    PlanFor(u, ctx, Enforced(FirstDecisions(u, scope, ctx, signals)))
  }

  method Decide(u: Understanding, scope: ActorScope, ctx: ActiveContext, signals: Signals) returns (plan: RoutePlan)
    ensures plan == Plan(u, scope, ctx, signals)
  {
    ghost var f := (task: Task) => FirstDecision(task, u, scope, ctx, signals);
    var ds: seq<TaskDecision> := [];
    for i := 0 to |u.tasks|
      invariant ds == Map(f, u.tasks[..i])
    {
      assert u.tasks[..i + 1] == u.tasks[..i] + [u.tasks[i]];
      MapAdd(f, u.tasks[..i], u.tasks[i]);
      ds := ds + [FirstDecision(u.tasks[i], u, scope, ctx, signals)];
    }
    assert u.tasks[..|u.tasks|] == u.tasks;
    hide FirstDecision, ActiveRoutes, Combined, OnlyRefusals, RequiredMissing, InvalidatedRefs, Map, Filter;
    var routes;
    ds, routes := EnforcePredefinedCombination(ds);
    var invalidated := InvalidatedRefs(u, ctx);
    if OnlyRefusals(ds) {
      return RoutePlan(RefuseRoute, ds, [], invalidated);
    }
    var route := Combined(routes, Suggested(u));
    var missing := FindRequiredMissing(u, route);
    if missing != [] {
      return RoutePlan(ClarifyRoute, Withhold(SlotsMissing, ds), missing, invalidated);
    }
    if u.confidence < Threshold(route) {
      return RoutePlan(ClarifyRoute, Withhold(ConfidenceTooLow, ds), [], invalidated);
    }
    plan := RoutePlan(route, ds, [], invalidated);
  }

  // ----- What every plan promises -----

  datatype Evidence = Documents | ToolFacts | WebPages | ReusedEvidence

  /**
   * What the retrieval nodes find: earlier evidence that may still be reused, the sufficiency gate and its web
   * fallback switched on, and an assessment that finds the evidence lacking.
   */
  datatype Retrieval = Retrieval(reusable: bool, gateOn: bool, webEnabled: bool, lacking: bool)

  /** The web may be searched at all. */
  predicate WebOpen(u: Understanding, found: Retrieval) {
    found.gateOn && found.webEnabled && KnowledgeScopeOf(u).PublicGeneral?
  }

  /** What the retrieval nodes fetch for a plan route. */
  function Fetches(route: Route, u: Understanding, found: Retrieval): set<Evidence> {
    var searches := route.InternalRag? || route.RagAndTool? || route.RagAndWeb?
      || (route.ReuseEvidence? && !found.reusable);
    (if searches then {Documents} else {})
    + (if route.ToolOnly? || route.RagAndTool? then {ToolFacts} else {})
    + (if (searches || route.ReuseEvidence?) && WebOpen(u, found) && (route.RagAndWeb? || found.lacking)
       then {WebPages} else {})
    + if route.ReuseEvidence? && found.reusable then {ReusedEvidence} else {}
  }

  /** What the generation contract of a task's own route relies on. */
  function Needs(route: Route): set<Evidence> {
    match route
    case InternalRag => {Documents}
    case ToolOnly => {ToolFacts}
    case RagAndTool => {Documents, ToolFacts}
    case RagAndWeb => {Documents, WebPages}
    case ReuseEvidence => {ReusedEvidence}
    case _ => {}
  }

  /** Web pages and earlier evidence are only to be had while the web is open and the evidence still reusable. */
  predicate Available(route: Route, u: Understanding, found: Retrieval) {
    (route.RagAndWeb? ==> WebOpen(u, found)) && (route.ReuseEvidence? ==> found.reusable)
  }

  /** Within one request every task's route is chat, a tool route, or the one tail route; or all reuse evidence. */
  predicate OneRequest(routes: set<Route>, tail: Route) {
    routes <= {ReuseEvidence} || routes <= {ToolOnly, RagAndTool, tail}
  }

  lemma FirstRoutesShareATail(u: Understanding, scope: ActorScope, ctx: ActiveContext, signals: Signals)
    ensures OneRequest(ActiveRoutes(FirstDecisions(u, scope, ctx, signals)), TailRoute(ctx, signals))
    ensures TailRoute(ctx, signals) in {RagAndWeb, ReuseEvidence, InternalRag}
  {
    hide HasValidEvidence, ScopeError, Has;
    var ds := FirstDecisions(u, scope, ctx, signals);
    forall d | d in ds && ExecutesBeyondChat(d)
      ensures exists task :: d == FirstDecision(task, u, scope, ctx, signals)
    {
      var i :| 0 <= i < |ds| && ds[i] == d;
      assert d == FirstDecision(u.tasks[i], u, scope, ctx, signals);
    }
  }

  lemma EnforcedDecision(ds: seq<TaskDecision>, d: TaskDecision)
    requires d in Enforced(ds) && ExecutesBeyondChat(d)
    ensures d in ds && (!Predefined(ActiveRoutes(ds)) ==> CompatibleWith(Primary(ds), d.route))
  {
    hide Predefined, ActiveRoutes, Primary;
    if !Predefined(ActiveRoutes(ds)) {
      var i :| 0 <= i < |Enforced(ds)| && Enforced(ds)[i] == d;
      assert d == Deferred(Primary(ds), ds[i]);
    }
  }

  lemma PrimaryIsActive(ds: seq<TaskDecision>)
    ensures ActiveRoutes(ds) != {} ==> Primary(ds) in ActiveRoutes(ds)
    ensures ActiveRoutes(ds) == {} ==> Primary(ds) == ChatDirect
  {
    var beyond := Filter(ExecutesBeyondChat, ds);
    if ActiveRoutes(ds) != {} {
      var r :| r in ActiveRoutes(ds);
      var d :| d in ds && ExecutesBeyondChat(d) && RouteOf(d) == r;
      assert d in beyond;
    }
    if beyond != [] {
      assert beyond[0] in beyond;
      assert RouteOf(beyond[0]) in ActiveRoutes(ds);
    }
  }

  lemma EnforcedIsPredefined(ds: seq<TaskDecision>, tail: Route)
    requires OneRequest(ActiveRoutes(ds), tail) && tail in {RagAndWeb, ReuseEvidence, InternalRag}
    ensures Predefined(ActiveRoutes(Enforced(ds)))
  {
    PrimaryIsActive(ds);
    var active, kept, primary := ActiveRoutes(ds), ActiveRoutes(Enforced(ds)), Primary(ds);
    forall r | r in kept
      ensures r in active && (!Predefined(active) ==> CompatibleWith(primary, Some(r)))
    {
      var d :| d in Enforced(ds) && ExecutesBeyondChat(d) && RouteOf(d) == r;
      EnforcedDecision(ds, d);
    }
    hide ActiveRoutes, Enforced, Primary;
    if !Predefined(active) {
      if primary in TOOL_FAMILY {
        assert kept <= TOOL_FAMILY;
      } else if primary == RagAndWeb {
        assert kept <= WEB_FAMILY;
      } else {
        assert kept <= {primary};
        Singleton(kept, primary);
      }
    }
  }

  lemma Singleton(s: set<Route>, r: Route)
    requires s <= {r}
    ensures |s| <= 1
  {
    if s != {} {
      assert s == {r};
    }
  }

  lemma ExecutedRoutesHold(ds: seq<TaskDecision>, r: Route)
    ensures r in ExecutedRoutes(ds) <==> exists d :: d in ds && Executes(d) && RouteOf(d) == r
  {
    var executed := Filter(Executes, ds);
    if r in ExecutedRoutes(ds) {
      var i :| 0 <= i < |executed| && ExecutedRoutes(ds)[i] == r;
      assert executed[i] in executed;
    }
    if d :| d in ds && Executes(d) && RouteOf(d) == r {
      assert d in executed;
      var i :| 0 <= i < |executed| && executed[i] == d;
      assert ExecutedRoutes(ds)[i] == r;
    }
  }

  lemma TwoOfASmallSet(s: set<Route>, a: Route, b: Route)
    requires |s| <= 1 && a in s && b in s
    ensures a == b
  {
    if a != b {
      assert {a, b} <= s;
      SubsetSize({a, b}, s);
    }
  }

  lemma SubsetSize(a: set<Route>, b: set<Route>)
    requires a <= b
    ensures |a| <= |b|
  {
    assert b == a + (b - a);
  }

  lemma CombinedFetches(
    routes: seq<Route>, suggested: Route, active: set<Route>, r: Route, u: Understanding, found: Retrieval)
    requires forall x :: x in active <==> x in routes && !x.ChatDirect?
    requires Predefined(active) && r in active
    requires r in {InternalRag, ToolOnly, RagAndTool, RagAndWeb, ReuseEvidence}
    ensures Needs(r) <= Fetches(Combined(routes, suggested), u, found) <==> Available(r, u, found)
  {
    CombinedCovers(routes, suggested, active, r);
    hide Combined, Predefined, WebOpen;
    assert Needs(r) != {};
  }

  /** The combined route is the route itself, or the larger one of its family. */
  lemma CombinedCovers(routes: seq<Route>, suggested: Route, active: set<Route>, r: Route)
    requires forall x :: x in active <==> x in routes && !x.ChatDirect?
    requires Predefined(active) && r in active
    ensures var combined := Combined(routes, suggested);
            combined == r || (combined.RagAndTool? && r in TOOL_FAMILY) || (combined.RagAndWeb? && r in WEB_FAMILY)
  {
    var beyond := Filter((x: Route) => !x.ChatDirect?, routes);
    assert r in beyond && beyond[0] in beyond && beyond[0] in active;
    assert RagAndTool in routes <==> RagAndTool in active;
    assert RagAndWeb in routes <==> RagAndWeb in active;
    assert InternalRag in routes <==> InternalRag in active;
    assert ToolOnly in routes <==> ToolOnly in active;
    hide Filter;
    if |active| <= 1 {
      forall x | x in active ensures x == r { TwoOfASmallSet(active, x, r); }
      assert beyond[0] == r;
    } else if active <= TOOL_FAMILY {
      assert RagAndWeb !in active;
      if !(RagAndTool in routes || (InternalRag in routes && ToolOnly in routes)) {
        forall x | x in active ensures x == r {}
      }
    } else {
      assert RagAndTool !in active && ToolOnly !in active;
    }
  }

  lemma ExecutedRoute(u: Understanding, scope: ActorScope, ctx: ActiveContext, signals: Signals, d: TaskDecision)
    requires d in FirstDecisions(u, scope, ctx, signals) && Executes(d)
    ensures RouteOf(d) in {ChatDirect, InternalRag, ToolOnly, RagAndTool, RagAndWeb, ReuseEvidence}
  {
    hide HasValidEvidence, ScopeError, Has, Map;
    var ds := FirstDecisions(u, scope, ctx, signals);
    var i :| 0 <= i < |ds| && ds[i] == d;
    assert d == FirstDecision(u.tasks[i], u, scope, ctx, signals);
  }

  lemma EnforcedExecutes(ds: seq<TaskDecision>, d: TaskDecision)
    requires d in Enforced(ds) && Executes(d)
    ensures d in ds
  {
    hide ActiveRoutes, Predefined, Primary, CompatibleWith;
    var i :| 0 <= i < |Enforced(ds)| && Enforced(ds)[i] == d;
    EnforcedAt(ds, i);
    assert ds[i] in ds;
  }

  /**
   * Of a predefined combination, the combined route fetches what an executed route needs if and only if that is
   * available at all: the web open for web pages, the earlier evidence reusable for its reuse.
   */
  lemma CombinedSupplies(ds: seq<TaskDecision>, suggested: Route, d: TaskDecision, u: Understanding, found: Retrieval)
    requires Predefined(ActiveRoutes(ds)) && d in ds && Executes(d)
    requires RouteOf(d) in {ChatDirect, InternalRag, ToolOnly, RagAndTool, RagAndWeb, ReuseEvidence}
    ensures Needs(RouteOf(d)) <= Fetches(Combined(ExecutedRoutes(ds), suggested), u, found)
            <==> Available(RouteOf(d), u, found)
  {
    hide Predefined, Combined, Fetches, WebOpen;
    if !RouteOf(d).ChatDirect? {
      var routes, active := ExecutedRoutes(ds), ActiveRoutes(ds);
      forall r ensures r in active <==> r in routes && !r.ChatDirect? {
        ExecutedRoutesHold(ds, r);
      }
      assert RouteOf(d) in active;
      hide ExecutedRoutes, ActiveRoutes;
      CombinedFetches(routes, suggested, active, RouteOf(d), u, found);
    }
  }

  /** The retrieval for this plan fetches what a decision's route needs exactly when that is available. */
  predicate SuppliedExactlyWhenAvailable(plan: RoutePlan, d: TaskDecision, u: Understanding, found: Retrieval) {
    Needs(RouteOf(d)) <= Fetches(plan.route, u, found) <==> Available(RouteOf(d), u, found)
  }

  /**
   * For every request and task list: the tasks left to execute form one predefined combination, and the plan's
   * route fetches every kind of evidence each of them needs, unless it is web pages while the web is closed, or
   * earlier evidence that may no longer be reused.
   */
  lemma PlansArePredefinedAndSupplied(
    u: Understanding, scope: ActorScope, ctx: ActiveContext, signals: Signals, found: Retrieval)
    ensures var plan := Plan(u, scope, ctx, signals);
            Predefined(ActiveRoutes(plan.decisions))
            && forall d :: d in plan.decisions && Executes(d) ==> SuppliedExactlyWhenAvailable(plan, d, u, found)
  {
    var first := FirstDecisions(u, scope, ctx, signals);
    var ds := Enforced(first);
    FirstRoutesShareATail(u, scope, ctx, signals);
    EnforcedIsPredefined(first, TailRoute(ctx, signals));
    hide FirstDecisions, Enforced, ActiveRoutes, Combined, RequiredMissing, Needs, Fetches, ExecutedRoutes, Predefined;
    hide Withhold, InvalidatedRefs, OnlyRefusals, Suggested, Available;
    EmptyIsPredefined();
    hide Executes;
    NothingWithheldExecutes(SlotsMissing, ds);
    NothingWithheldExecutes(ConfidenceTooLow, ds);
    OnlyRefusalsExecuteNothing(ds);
    forall d | d in ds && Executes(d)
      ensures Needs(RouteOf(d)) <= Fetches(Combined(ExecutedRoutes(ds), Suggested(u)), u, found)
              <==> Available(RouteOf(d), u, found)
    {
      EnforcedExecutes(first, d);
      ExecutedRoute(u, scope, ctx, signals, d);
      CombinedSupplies(ds, Suggested(u), d, u, found);
    }
  }

  lemma OnlyRefusalsExecuteNothing(ds: seq<TaskDecision>)
    ensures OnlyRefusals(ds) ==> forall d :: d in ds ==> !Executes(d)
  {}

  lemma EmptyIsPredefined()
    ensures Predefined({})
  {}

  lemma NothingWithheldExecutes(reason: Reason, ds: seq<TaskDecision>)
    ensures forall d :: d in Withhold(reason, ds) ==> !Executes(d)
    ensures ActiveRoutes(Withhold(reason, ds)) == {}
  {}

  function Three(a: string, b: string, c: string): seq<TaskDecision> {
    [TaskDecision(a, Execute, Some(InternalRag), TaskAllowed),
     TaskDecision(b, Execute, Some(ToolOnly), TaskAllowed),
     TaskDecision(c, Execute, Some(RagAndWeb), TaskAllowed)]
  }

  lemma ThreeActive(a: string, b: string, c: string)
    ensures var ds := Three(a, b, c);
            ActiveRoutes(ds) == {InternalRag, ToolOnly, RagAndWeb} && !Predefined(ActiveRoutes(ds))
  {
    var ds := Three(a, b, c);
    assert RouteOf(ds[0]) in ActiveRoutes(ds) && RouteOf(ds[1]) in ActiveRoutes(ds)
      && RouteOf(ds[2]) in ActiveRoutes(ds);
    SubsetSize({InternalRag, ToolOnly}, ActiveRoutes(ds));
  }

  lemma ThreePass(a: string, b: string, c: string)
    ensures var ds := Three(a, b, c);
            Map((d: TaskDecision) => Deferred(Primary(ds), d), ds) == ds
            && ExecutedRoutes(ds) == [InternalRag, ToolOnly, RagAndWeb]
  {
    var ds := Three(a, b, c);
    FilterOfThree(ExecutesBeyondChat, ds[0], ds[1], ds[2]);
    FilterOfThree(Executes, ds[0], ds[1], ds[2]);
    hide Filter, Map;
    assert Primary(ds) == InternalRag;
    var r := Map((d: TaskDecision) => Deferred(Primary(ds), d), ds);
    assert r[0] == ds[0] && r[1] == ds[1] && r[2] == ds[2];
  }

  /** The combination check alone would let these three tasks run together; only one request can not produce them. */
  lemma CombinationCheckAloneIsTooWeak(a: string, b: string, c: string, u: Understanding, found: Retrieval)
    requires !found.lacking
    ensures var ds := Enforced(Three(a, b, c));
            !Predefined(ActiveRoutes(ds)) && RagAndWeb in ActiveRoutes(ds)
            && !(Needs(RagAndWeb) <= Fetches(Combined(ExecutedRoutes(ds), InternalRag), u, found))
  {
    ThreeActive(a, b, c);
    ThreePass(a, b, c);
    hide ActiveRoutes, Predefined, ExecutedRoutes, Deferred, Primary, Three, Filter;
    assert Enforced(Three(a, b, c)) == Three(a, b, c);
    assert Combined([InternalRag, ToolOnly, RagAndWeb], InternalRag) == RagAndTool;
  }

  lemma FilterOfThree<T(!new)>(p: T -> bool, x: T, y: T, z: T)
    requires p(x) && p(y) && p(z)
    ensures Filter(p, [x, y, z]) == [x, y, z]
  {
    FilterAdd(p, [], x);
    FilterAdd(p, [x], y);
    FilterAdd(p, [x, y], z);
    assert [] + [x] == [x] && [x] + [y] == [x, y] && [x, y] + [z] == [x, y, z];
  }

  /** The plan decides every task, in the order given, and never lets a Recipe be executed. */
  lemma PlansKeepEveryTask(u: Understanding, scope: ActorScope, ctx: ActiveContext, signals: Signals)
    ensures var plan := Plan(u, scope, ctx, signals);
            |plan.decisions| == |u.tasks|
            && forall i :: 0 <= i < |u.tasks| ==>
                 plan.decisions[i].taskId == u.tasks[i].id
                 && (ForbiddenMutation(u.tasks[i]) ==>
                       plan.decisions[i].decision.Refuse? && plan.decisions[i].reason == ControlledWriteNotAllowed)
  {
    var first := FirstDecisions(u, scope, ctx, signals);
    var plan := Plan(u, scope, ctx, signals);
    PlannedDecisions(u, ctx, Enforced(first));
    forall i | 0 <= i < |u.tasks|
      ensures plan.decisions[i].taskId == u.tasks[i].id
      ensures ForbiddenMutation(u.tasks[i]) ==>
                plan.decisions[i].decision.Refuse? && plan.decisions[i].reason == ControlledWriteNotAllowed
    {
      assert first[i] == FirstDecision(u.tasks[i], u, scope, ctx, signals);
      EnforcedAt(first, i);
      hide Enforced, FirstDecisions, PlanFor, TaskRoute, ScopeError;
    }
  }

  /** A decision that executes nothing is left as it is; every decision stays that of its task. */
  predicate SameUnlessExecuting(before: TaskDecision, after: TaskDecision) {
    after.taskId == before.taskId && (!before.decision.Execute? ==> after == before)
  }

  lemma EnforcedAt(ds: seq<TaskDecision>, i: nat)
    requires i < |ds|
    ensures SameUnlessExecuting(ds[i], Enforced(ds)[i])
  {
    hide ActiveRoutes, Predefined, Primary, CompatibleWith;
  }

  lemma PlannedDecisions(u: Understanding, ctx: ActiveContext, ds: seq<TaskDecision>)
    ensures var decisions := PlanFor(u, ctx, ds).decisions;
            |decisions| == |ds| && forall i :: 0 <= i < |ds| ==> SameUnlessExecuting(ds[i], decisions[i])
  {
    hide Combined, RequiredMissing, InvalidatedRefs, OnlyRefusals, ExecutedRoutes, Threshold, Suggested;
  }

  /** A task is only left to execute with every required slot present and confidence at the plan route's threshold. */
  lemma ExecutingPlansAreReady(u: Understanding, scope: ActorScope, ctx: ActiveContext, signals: Signals)
    ensures var plan := Plan(u, scope, ctx, signals);
            (exists d :: d in plan.decisions && Executes(d)) ==>
              plan.missing == [] && RequiredMissing(u, plan.route) == [] && u.confidence >= Threshold(plan.route)
  {
    hide Enforced, ActiveRoutes, Combined, RequiredMissing, InvalidatedRefs, OnlyRefusals, Withhold, ExecutedRoutes;
    hide Executes, FirstDecisions, Threshold;
    var ds := Enforced(FirstDecisions(u, scope, ctx, signals));
    NothingWithheldExecutes(SlotsMissing, ds);
    NothingWithheldExecutes(ConfidenceTooLow, ds);
    OnlyRefusalsExecuteNothing(ds);
  }

  const SLOT_KEYS := {"product", "time_range", "tool_or_chamber", "affected_object", "history_reference"}

  lemma {:induction false} MissingKeysAreKnown(tasks: seq<Task>, slots: Slots)
    ensures forall k :: k in TasksMissing(tasks, slots) ==> k in SLOT_KEYS
  {
    if tasks != [] {
      MissingKeysAreKnown(tasks[..|tasks| - 1], slots);
      TaskKeysAreKnown(tasks[|tasks| - 1], slots);
      hide TaskMissing;
    }
  }

  lemma TaskKeysAreKnown(task: Task, slots: Slots)
    ensures forall k :: k in TaskMissing(task, slots) ==> k in SLOT_KEYS
    ensures forall k :: k in LegacyMissing(slots) ==> k in SLOT_KEYS
  {
    hide Has, HasAffectedObject;
  }

  /** A plan that asks for slots is a clarification, and asks for at most three different known ones. */
  lemma MissingSlotsMeanClarify(u: Understanding, scope: ActorScope, ctx: ActiveContext, signals: Signals)
    ensures var plan := Plan(u, scope, ctx, signals);
            (plan.missing != [] ==> plan.route.ClarifyRoute?)
            && |plan.missing| <= 3 && Distinct(plan.missing) && forall k :: k in plan.missing ==> k in SLOT_KEYS
  {
    hide Enforced, Combined, InvalidatedRefs, OnlyRefusals, Withhold, ExecutedRoutes, FirstDecisions, Threshold;
    hide TasksMissing, LegacyMissing, Has, IsHistoryTask, Dedup;
    forall route ensures forall k :: k in AllMissing(u, route) ==> k in SLOT_KEYS {
      MissingKeysAreKnown(u.tasks, Values(u));
      LegacyKeysAreKnown(Values(u));
    }
    forall route ensures forall k :: k in RequiredMissing(u, route) ==> k in SLOT_KEYS {
      assert forall k :: k in RequiredMissing(u, route) ==> k in Dedup(AllMissing(u, route));
    }
    hide RequiredMissing;
  }

  lemma LegacyKeysAreKnown(slots: Slots)
    ensures forall k :: k in LegacyMissing(slots) ==> k in SLOT_KEYS
  {}
}
