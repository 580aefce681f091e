/** What a plan does with each task, told from the task, the request and the actor's scope alone. */
module TaskRouting {
  import opened Domain
  import opened Routing
  import opened Sequences

  // ----- Which evidence a task needs -----

  /** The request asks about evidence that was already selected and is still valid. */
  predicate AsksAboutEvidence(ctx: ActiveContext, signals: Signals) {
    signals.evidenceFollowup && exists ref :: ref in ctx.refs && ref.valid
  }

  /** The task is about the previous messages, which are at hand. */
  predicate AboutHistory(task: Task) {
    (task.target.PreviousUserMessage? && task.action.Recall?)
    || (task.target.PreviousAnswer? && task.action in {Recall, Simplify, Summarize, Translate})
  }

  /** An investigation, or a part of one: in an investigating request, queries of either kind are. */
  predicate Investigates(task: Task, u: Understanding) {
    task.intent.Investigation? || (u.intent.Investigation? && task.intent in {DataQuery, KnowledgeQuery})
  }

  /** A question of knowledge, or an action, outside an investigation. */
  predicate SeeksKnowledge(task: Task, u: Understanding) {
    task.intent.ActionRequest? || (task.intent.KnowledgeQuery? && !u.intent.Investigation?)
  }

  predicate GoesOutside(signals: Signals) { signals.external && !signals.webDisabled }

  /** The request goes on from valid evidence and does not ask for the latest. */
  predicate GoesOn(ctx: ActiveContext, signals: Signals) {
    signals.continues && !signals.latest && !GoesOutside(signals) && exists ref :: ref in ctx.refs && ref.valid
  }

  /** When a task needs one kind of evidence. */
  predicate Wants(kind: Evidence, task: Task, u: Understanding, ctx: ActiveContext, signals: Signals) {
    var anew := !AsksAboutEvidence(ctx, signals) && !AboutHistory(task);
    match kind
    case ToolFacts => anew && (task.intent.DataQuery? || Investigates(task, u))
    case Documents => anew && (Investigates(task, u) || (SeeksKnowledge(task, u) && !GoesOn(ctx, signals)))
    case WebPages => anew && SeeksKnowledge(task, u) && GoesOutside(signals)
    case ReusedEvidence =>
      AsksAboutEvidence(ctx, signals) || (anew && SeeksKnowledge(task, u) && GoesOn(ctx, signals))
  }

  function Wanted(task: Task, u: Understanding, ctx: ActiveContext, signals: Signals): set<Evidence> {
    set kind | kind in {Documents, ToolFacts, WebPages, ReusedEvidence} && Wants(kind, task, u, ctx, signals)
  }

  lemma RouteIsWanted(task: Task, u: Understanding, ctx: ActiveContext, signals: Signals, found: Retrieval)
    ensures var route := TaskRoute(task, u, ctx, signals);
            Needs(route) == Wanted(task, u, ctx, signals)
            && (Available(route, u, found) && !found.lacking ==>
                  Fetches(route, u, found) == Wanted(task, u, ctx, signals))
            && route in {ChatDirect, InternalRag, ToolOnly, RagAndTool, RagAndWeb, ReuseEvidence}
  {
    hide WebOpen;
  }

  // ----- Which tasks are executed -----

  /** The slot is there and not empty. */
  predicate Filled(slots: Slots, name: string) {
    name in slots && |slots[name]| > 0
  }

  lemma FilledExactlyWhen(slots: Slots)
    ensures forall name :: Filled(slots, name) <==> Has(slots, name)
  {}

  /** A product or tool is given that is not the actor's; an empty scope admits every one. */
  predicate ProductOutside(slots: Slots, scope: ActorScope) {
    Filled(slots, "product") && scope.products != {} && slots["product"] !in scope.products
  }

  predicate ToolOutside(slots: Slots, scope: ActorScope) {
    Filled(slots, "tool_id") && scope.toolIds != {} && slots["tool_id"] !in scope.toolIds
  }

  predicate OutOfScope(u: Understanding, scope: ActorScope) {
    ProductOutside(Values(u), scope) || ToolOutside(Values(u), scope)
  }

  predicate WritesRecipe(task: Task) { task.target.Recipe? && task.action.ExecuteAction? }

  predicate GeneratesReport(task: Task) { task.target.ReportTarget? && task.action.Generate? }

  /** Nothing about the task itself, its policy or the actor keeps it from being executed. */
  predicate MayExecute(task: Task, u: Understanding, scope: ActorScope) {
    task.policy.Execute? && !WritesRecipe(task) && !GeneratesReport(task) && !OutOfScope(u, scope)
  }

  /** How a task that may not be executed is decided, and why. */
  predicate Explained(task: Task, u: Understanding, scope: ActorScope, d: TaskDecision) {
    if WritesRecipe(task) then d.decision.Refuse? && d.reason == ControlledWriteNotAllowed
    else if GeneratesReport(task) then d.decision.Defer? && d.reason == ReportNotEnabled
    else if OutOfScope(u, scope) then
      d.decision.Refuse? && d.reason == if ProductOutside(Values(u), scope) then ProductOutOfScope else ToolOutOfScope
    else
      d.decision == task.policy
      && (task.policy.Defer? ==> d.reason == DeferredByPolicy)
      && (task.policy.Refuse? ==>
            (d.reason == OutsideCapability <==> task.intent == ActionRequest && task.target == GeneralTarget)
            && d.reason in {OutsideCapability, FlaggedUnsafe})
  }

  lemma FirstDecisionIsDue(
    task: Task, u: Understanding, scope: ActorScope, ctx: ActiveContext, signals: Signals, found: Retrieval)
    ensures var d := FirstDecision(task, u, scope, ctx, signals);
            d.taskId == task.id && (d.decision.Execute? <==> MayExecute(task, u, scope))
            && (d.decision.Execute? ==>
                  Executes(d) && d.reason.TaskAllowed? && Needs(RouteOf(d)) == Wanted(task, u, ctx, signals)
                  && RouteOf(d) in {ChatDirect, InternalRag, ToolOnly, RagAndTool, RagAndWeb, ReuseEvidence})
            && (!MayExecute(task, u, scope) ==> Explained(task, u, scope, d))
  {
    RouteIsWanted(task, u, ctx, signals, found);
    FilledExactlyWhen(Values(u));
    hide TaskRoute, Wanted, Needs, Has, Filled, Values;
  }

  // ----- From the first decisions to the plan's -----

  lemma FirstDecisionAt(
    u: Understanding, scope: ActorScope, ctx: ActiveContext, signals: Signals, i: nat)
    requires i < |u.tasks|
    ensures |FirstDecisions(u, scope, ctx, signals)| == |u.tasks|
    ensures FirstDecisions(u, scope, ctx, signals)[i] == FirstDecision(u.tasks[i], u, scope, ctx, signals)
  {
    hide FirstDecision;
  }

  /** One route supplies the evidence of both. */
  ghost predicate Together(a: set<Evidence>, b: set<Evidence>) {
    exists route :: a + b <= Needs(route)
  }

  const EXECUTABLE := {ChatDirect, InternalRag, ToolOnly, RagAndTool, RagAndWeb, ReuseEvidence}

  lemma CompatibleExactlyWhen(primary: Route, route: Route)
    requires primary in EXECUTABLE && route in EXECUTABLE && !primary.ChatDirect?
    ensures CompatibleWith(primary, Some(route)) <==> Together(Needs(primary), Needs(route))
  {
    if CompatibleWith(primary, Some(route)) {
      var both := if primary == route || route.ChatDirect? then primary
                  else if primary in TOOL_FAMILY && route in TOOL_FAMILY then RagAndTool else RagAndWeb;
      assert Needs(primary) + Needs(route) <= Needs(both);
    }
  }

  /** The first of the decisions that executes anything but plain chat. */
  predicate FirstFetching(ds: seq<TaskDecision>, j: nat) {
    j < |ds| && ExecutesBeyondChat(ds[j]) && forall k :: 0 <= k < j ==> !ExecutesBeyondChat(ds[k])
  }

  lemma {:induction false} PrimaryIsFirst(ds: seq<TaskDecision>, j: nat)
    requires FirstFetching(ds, j)
    ensures Primary(ds) == RouteOf(ds[j])
  {
    FirstOfFilter(ExecutesBeyondChat, ds, j);
  }

  lemma {:induction false} FirstOfFilter(p: TaskDecision -> bool, s: seq<TaskDecision>, j: nat)
    requires j < |s| && p(s[j]) && forall k :: 0 <= k < j ==> !p(s[k])
    ensures Filter(p, s) != [] && Filter(p, s)[0] == s[j]
  {
    var init, last := s[..|s| - 1], s[|s| - 1];
    assert s == init + [last];
    FilterAdd(p, init, last);
    if j < |init| {
      FirstOfFilter(p, init, j);
    } else {
      NoneOfFilter(p, init);
    }
  }

  lemma {:induction false} NoneOfFilter(p: TaskDecision -> bool, s: seq<TaskDecision>)
    requires forall k :: 0 <= k < |s| ==> !p(s[k])
    ensures Filter(p, s) == []
  {
    if s != [] {
      NoneOfFilter(p, s[..|s| - 1]);
    }
  }

  /** Whether or not the combination is predefined, exactly what is incompatible with the first route is deferred. */
  lemma EnforcedExactly(ds: seq<TaskDecision>, i: nat, j: nat)
    requires FirstFetching(ds, j) && i < |ds|
    ensures Enforced(ds)[i] == if ds[i].decision.Execute? && !CompatibleWith(RouteOf(ds[j]), ds[i].route)
                               then TaskDecision(ds[i].taskId, Defer, None, CombinationDeferred) else ds[i]
  {
    PrimaryIsFirst(ds, j);
    hide Primary;
    var active := ActiveRoutes(ds);
    assert ds[j] in ds && ds[i] in ds && RouteOf(ds[j]) in active;
    if Predefined(active) && ds[i].decision.Execute? && ds[i].route.Some? && !ds[i].route.value.ChatDirect? {
      assert ExecutesBeyondChat(ds[i]) && RouteOf(ds[i]) in active;
      if |active| <= 1 {
        TwoOfASmallSet(active, RouteOf(ds[i]), RouteOf(ds[j]));
      }
    }
  }

  lemma NothingFetched(ds: seq<TaskDecision>)
    requires forall k :: 0 <= k < |ds| ==> !ExecutesBeyondChat(ds[k])
    ensures Enforced(ds) == ds
  {
    assert ActiveRoutes(ds) == {};
  }

  /** The first task that may be executed and needs any evidence. */
  predicate Leads(u: Understanding, scope: ActorScope, ctx: ActiveContext, signals: Signals, j: nat) {
    j < |u.tasks| && Fetching(u.tasks[j], u, scope, ctx, signals)
    && forall k :: 0 <= k < j ==> !Fetching(u.tasks[k], u, scope, ctx, signals)
  }

  predicate Fetching(task: Task, u: Understanding, scope: ActorScope, ctx: ActiveContext, signals: Signals) {
    MayExecute(task, u, scope) && Wanted(task, u, ctx, signals) != {}
  }

  /** No route supplies both the task's evidence and that of the first task that needs any. */
  ghost predicate Conflicts(task: Task, u: Understanding, scope: ActorScope, ctx: ActiveContext, signals: Signals) {
    exists j :: 0 <= j < |u.tasks| && Leads(u, scope, ctx, signals, j)
      && !Together(Wanted(u.tasks[j], u, ctx, signals), Wanted(task, u, ctx, signals))
  }

  lemma FirstIsFetching(
    u: Understanding, scope: ActorScope, ctx: ActiveContext, signals: Signals, found: Retrieval, k: nat)
    requires k < |u.tasks|
    ensures var ds := FirstDecisions(u, scope, ctx, signals);
            |ds| == |u.tasks| && (ExecutesBeyondChat(ds[k]) <==> Fetching(u.tasks[k], u, scope, ctx, signals))
  {
    FirstDecisionAt(u, scope, ctx, signals, k);
    FirstDecisionIsDue(u.tasks[k], u, scope, ctx, signals, found);
    hide FirstDecision, FirstDecisions, Wanted, MayExecute, OutOfScope;
  }

  lemma OneLeads(u: Understanding, scope: ActorScope, ctx: ActiveContext, signals: Signals, i: nat, j: nat)
    requires Leads(u, scope, ctx, signals, i) && Leads(u, scope, ctx, signals, j)
    ensures i == j
  {
    hide Fetching;
  }

  /** What is left of the first decision on one task after the combination check. */
  predicate Kept(first: TaskDecision, conflicts: bool, after: TaskDecision) {
    after == if first.decision.Execute? && conflicts then TaskDecision(first.taskId, Defer, None, CombinationDeferred)
             else first
  }

  lemma EnforcedBehindLeader(
    u: Understanding, scope: ActorScope, ctx: ActiveContext, signals: Signals, found: Retrieval, i: nat, j: nat)
    requires i < |u.tasks| && Leads(u, scope, ctx, signals, j)
    ensures var first := FirstDecisions(u, scope, ctx, signals);
            |first| == |u.tasks|
            && Kept(first[i], Conflicts(u.tasks[i], u, scope, ctx, signals), Enforced(first)[i])
  {
    var first := FirstDecisions(u, scope, ctx, signals);
    FirstDecisionAt(u, scope, ctx, signals, i);
    FirstDecisionAt(u, scope, ctx, signals, j);
    FirstDecisionIsDue(u.tasks[i], u, scope, ctx, signals, found);
    FirstDecisionIsDue(u.tasks[j], u, scope, ctx, signals, found);
    forall k: nat | k < |u.tasks|
      ensures ExecutesBeyondChat(first[k]) <==> Fetching(u.tasks[k], u, scope, ctx, signals)
    {
      FirstIsFetching(u, scope, ctx, signals, found, k);
    }
    hide FirstDecision, FirstDecisions, Wanted, MayExecute, OutOfScope, Enforced, Fetching, Needs, CompatibleWith;
    assert FirstFetching(first, j);
    EnforcedExactly(first, i, j);
    if first[i].decision.Execute? {
      CompatibleExactlyWhen(RouteOf(first[j]), RouteOf(first[i]));
      forall k: nat | Leads(u, scope, ctx, signals, k) ensures k == j {
        OneLeads(u, scope, ctx, signals, j, k);
      }
      hide Leads, Together;
    }
  }

  /** The combination check defers exactly the tasks that conflict with the first one that needs evidence. */
  lemma EnforcedIsDue(
    u: Understanding, scope: ActorScope, ctx: ActiveContext, signals: Signals, found: Retrieval, i: nat)
    requires i < |u.tasks|
    ensures var first := FirstDecisions(u, scope, ctx, signals);
            |first| == |u.tasks|
            && Kept(first[i], Conflicts(u.tasks[i], u, scope, ctx, signals), Enforced(first)[i])
  {
    var first := FirstDecisions(u, scope, ctx, signals);
    FirstDecisionAt(u, scope, ctx, signals, i);
    if j: nat :| Leads(u, scope, ctx, signals, j) {
      EnforcedBehindLeader(u, scope, ctx, signals, found, i, j);
    } else {
      forall k: nat | k < |u.tasks| ensures !ExecutesBeyondChat(first[k]) {
        FirstIsFetching(u, scope, ctx, signals, found, k);
        NobodyLeads(u, scope, ctx, signals, k);
      }
      hide *;
      NothingFetched(first);
      NoLeaderNoConflict(u.tasks[i], u, scope, ctx, signals);
      KeptAsItIs(first[i]);
    }
  }

  lemma NoLeaderNoConflict(
    task: Task, u: Understanding, scope: ActorScope, ctx: ActiveContext, signals: Signals)
    requires forall j: nat :: !Leads(u, scope, ctx, signals, j)
    ensures !Conflicts(task, u, scope, ctx, signals)
  {}

  lemma KeptAsItIs(d: TaskDecision)
    ensures Kept(d, false, d)
  {}

  lemma {:induction false} NobodyLeads(
    u: Understanding, scope: ActorScope, ctx: ActiveContext, signals: Signals, k: nat)
    requires k < |u.tasks| && forall j: nat :: !Leads(u, scope, ctx, signals, j)
    ensures !Fetching(u.tasks[k], u, scope, ctx, signals)
  {
    forall m: nat | m < k ensures !Fetching(u.tasks[m], u, scope, ctx, signals) {
      NobodyLeads(u, scope, ctx, signals, m);
    }
    assert !Leads(u, scope, ctx, signals, k);
  }

  // ----- The plan -----

  lemma CombinedIsExecutable(routes: seq<Route>, suggested: Route)
    requires routes != [] && forall r :: r in routes ==> r in EXECUTABLE
    ensures Combined(routes, suggested) in EXECUTABLE
  {
    var beyond := Filter((r: Route) => !r.ChatDirect?, routes);
    assert beyond != [] ==> beyond[0] in beyond;
  }

  predicate AllExecutable(ds: seq<TaskDecision>) {
    forall d :: d in ds && d.decision.Execute? ==> Executes(d) && RouteOf(d) in EXECUTABLE
  }

  lemma ExecutingCombines(ds: seq<TaskDecision>, suggested: Route, i: nat)
    requires i < |ds| && ds[i].decision.Execute? && AllExecutable(ds)
    ensures !Combined(ExecutedRoutes(ds), suggested).ClarifyRoute? && !OnlyRefusals(ds)
  {
    assert ds[i] in ds && Executes(ds[i]);
    hide ExecutedRoutes, Combined;
    ExecutedRoutesHold(ds, RouteOf(ds[i]));
    forall r | r in ExecutedRoutes(ds) ensures r in EXECUTABLE {
      ExecutedRoutesHold(ds, r);
    }
    hide Executes, RouteOf;
    CombinedIsExecutable(ExecutedRoutes(ds), suggested);
  }

  lemma WithholdAt(reason: Reason, ds: seq<TaskDecision>, i: nat)
    requires i < |ds|
    ensures |Withhold(reason, ds)| == |ds| && Withhold(reason, ds)[i] == Withheld(reason, ds[i])
    ensures !ds[i].decision.Execute? ==> Withheld(reason, ds[i]) == ds[i]
  {}

  lemma PlanCases(u: Understanding, ctx: ActiveContext, ds: seq<TaskDecision>)
    ensures var plan := PlanFor(u, ctx, ds);
            if plan.decisions == ds && !plan.route.ClarifyRoute? then true
            else if plan.missing != [] then plan.route.ClarifyRoute? && plan.decisions == Withhold(SlotsMissing, ds)
            else plan.route.ClarifyRoute?
                 && (plan.decisions == Withhold(ConfidenceTooLow, ds)
                     || (Combined(ExecutedRoutes(ds), Suggested(u)).ClarifyRoute? && plan.decisions == ds))
  {
    hide Combined, ExecutedRoutes, RequiredMissing, InvalidatedRefs, Suggested, Threshold, OnlyRefusals, Withhold;
  }

  /** A plan that does not clarify leaves its decisions as they are; one that clarifies withholds those that execute. */
  lemma PlanKeepsDecisions(u: Understanding, ctx: ActiveContext, ds: seq<TaskDecision>, i: nat)
    requires i < |ds| && AllExecutable(ds)
    ensures var plan := PlanFor(u, ctx, ds);
            |plan.decisions| == |ds|
            && plan.decisions[i]
               == if ds[i].decision.Execute? && plan.route.ClarifyRoute?
                  then Withheld(if plan.missing != [] then SlotsMissing else ConfidenceTooLow, ds[i]) else ds[i]
  {
    hide *;
    WithholdAt(SlotsMissing, ds, i);
    WithholdAt(ConfidenceTooLow, ds, i);
    if ds[i].decision.Execute? {
      ExecutingCombines(ds, Suggested(u), i);
    }
    PlanCases(u, ctx, ds);
  }

  /** A conflicting task is deferred; one that may be executed is, unless the plan clarifies; no other is executed. */
  predicate Due(task: Task, u: Understanding, scope: ActorScope, conflicts: bool, plan: RoutePlan, d: TaskDecision) {
    (d.decision.Execute? <==> MayExecute(task, u, scope) && !conflicts && !plan.route.ClarifyRoute?)
    && (d.decision.Execute? ==> d.reason.TaskAllowed?)
    && (MayExecute(task, u, scope) && conflicts ==> d.decision.Defer? && d.reason.CombinationDeferred?)
    && (MayExecute(task, u, scope) && !conflicts && plan.route.ClarifyRoute? ==>
          d.decision.Clarify? && d.reason == if plan.missing != [] then SlotsMissing else ConfidenceTooLow)
  }

  lemma EnforcedExecutable(
    u: Understanding, scope: ActorScope, ctx: ActiveContext, signals: Signals, found: Retrieval)
    ensures AllExecutable(Enforced(FirstDecisions(u, scope, ctx, signals)))
  {
    var first := FirstDecisions(u, scope, ctx, signals);
    var ds := Enforced(first);
    forall d | d in ds && d.decision.Execute? ensures Executes(d) && RouteOf(d) in EXECUTABLE {
      var i :| 0 <= i < |ds| && ds[i] == d;
      EnforcedIsDue(u, scope, ctx, signals, found, i);
      FirstDecisionAt(u, scope, ctx, signals, i);
      FirstDecisionIsDue(u.tasks[i], u, scope, ctx, signals, found);
      hide FirstDecision, Enforced, Wanted, MayExecute, Conflicts, OutOfScope, FirstDecisions;
    }
  }

  lemma DecisionIsDue(
    u: Understanding, scope: ActorScope, ctx: ActiveContext, signals: Signals, found: Retrieval, i: nat)
    requires i < |u.tasks|
    ensures var plan := Plan(u, scope, ctx, signals);
            var first := FirstDecision(u.tasks[i], u, scope, ctx, signals);
            |plan.decisions| == |u.tasks|
            && Due(u.tasks[i], u, scope, Conflicts(u.tasks[i], u, scope, ctx, signals), plan, plan.decisions[i])
            && (plan.decisions[i].decision.Execute? ==> plan.decisions[i] == first)
            && (!MayExecute(u.tasks[i], u, scope) ==> plan.decisions[i] == first)
  {
    hide FirstDecision, Enforced, Wanted, MayExecute, Conflicts, OutOfScope, FirstDecisions, PlanFor;
    EnforcedIsDue(u, scope, ctx, signals, found, i);
    FirstDecisionAt(u, scope, ctx, signals, i);
    FirstDecisionIsDue(u.tasks[i], u, scope, ctx, signals, found);
    EnforcedExecutable(u, scope, ctx, signals, found);
    PlanKeepsDecisions(u, ctx, Enforced(FirstDecisions(u, scope, ctx, signals)), i);
  }

  /**
   * For every request and task list: a task is executed if and only if its own policy says so, it neither writes a
   * recipe nor generates a report, no product or tool is outside the actor's scope, some route supplies both its
   * evidence and that of the first task that needs any, and the plan does not clarify. Every other task says why.
   */
  lemma TasksAreExecutedExactlyWhen(u: Understanding, scope: ActorScope, ctx: ActiveContext, signals: Signals)
    ensures var plan := Plan(u, scope, ctx, signals);
            |plan.decisions| == |u.tasks|
            && forall i :: 0 <= i < |u.tasks| ==>
                 Due(u.tasks[i], u, scope, Conflicts(u.tasks[i], u, scope, ctx, signals), plan, plan.decisions[i])
  {
    hide *;
    forall i: nat | i < |u.tasks|
      ensures var plan := Plan(u, scope, ctx, signals);
              |plan.decisions| == |u.tasks|
              && Due(u.tasks[i], u, scope, Conflicts(u.tasks[i], u, scope, ctx, signals), plan, plan.decisions[i])
    {
      DecisionIsDue(u, scope, ctx, signals, Retrieval(false, false, false, false), i);
    }
    PlanDecidesAll(u, scope, ctx, signals);
  }

  lemma PlanDecidesAll(u: Understanding, scope: ActorScope, ctx: ActiveContext, signals: Signals)
    ensures |Plan(u, scope, ctx, signals).decisions| == |u.tasks|
  {
    PlansKeepEveryTask(u, scope, ctx, signals);
    hide Plan;
  }

  /** What is to be had for a task that wants these kinds of evidence. */
  predicate ToBeHad(wanted: set<Evidence>, u: Understanding, found: Retrieval) {
    (WebPages in wanted ==> MaySearchWeb(u, found)) && (ReusedEvidence in wanted ==> found.reusable)
  }

  /** The gate and its fallback are on, no task is about an SOP or a recipe, and the scope is public or unsaid. */
  predicate MaySearchWeb(u: Understanding, found: Retrieval) {
    found.gateOn && found.webEnabled && (u.scope.UnspecifiedScope? || u.scope.PublicGeneral?)
    && forall task :: task in u.tasks ==> task.target != Sop && task.target != Recipe
  }

  lemma AvailableExactlyWhen(route: Route, u: Understanding, found: Retrieval)
    ensures Available(route, u, found) <==> ToBeHad(Needs(route), u, found)
  {
    WebIsOpenExactlyWhen(u, found);
    hide WebOpen, MaySearchWeb;
  }

  lemma WebIsOpenExactlyWhen(u: Understanding, found: Retrieval)
    ensures WebOpen(u, found) <==> MaySearchWeb(u, found)
  {}

  /** The task's own route supplies exactly what it wants, as far as it is to be had; so does the plan's, or more. */
  predicate Served(
    task: Task, u: Understanding, ctx: ActiveContext, signals: Signals, found: Retrieval, plan: RoutePlan,
    d: TaskDecision) {
    var wanted := Wanted(task, u, ctx, signals);
    (RouteOf(d).ChatDirect? <==> wanted == {})
    && (ToBeHad(wanted, u, found) && !found.lacking ==> Fetches(RouteOf(d), u, found) == wanted)
    && (wanted <= Fetches(plan.route, u, found) <==> ToBeHad(wanted, u, found))
  }

  lemma ExecutedIsServed(
    u: Understanding, scope: ActorScope, ctx: ActiveContext, signals: Signals, found: Retrieval, i: nat)
    requires i < |u.tasks|
    ensures var plan := Plan(u, scope, ctx, signals);
            |plan.decisions| == |u.tasks|
            && (plan.decisions[i].decision.Execute? ==>
                  Served(u.tasks[i], u, ctx, signals, found, plan, plan.decisions[i]))
  {
    hide Plan, FirstDecision, Wanted, MayExecute, Conflicts, OutOfScope, TaskRoute, Fetches, Available, ToBeHad;
    var task, plan := u.tasks[i], Plan(u, scope, ctx, signals);
    DecisionIsDue(u, scope, ctx, signals, found, i);
    if plan.decisions[i].decision.Execute? {
      hide Due;
      FirstDecisionIsDue(task, u, scope, ctx, signals, found);
      ExecutedRouteIsTaskRoute(task, u, scope, ctx, signals);
      RouteIsWanted(task, u, ctx, signals, found);
      AvailableExactlyWhen(TaskRoute(task, u, ctx, signals), u, found);
      PlansArePredefinedAndSupplied(u, scope, ctx, signals, found);
      assert plan.decisions[i] in plan.decisions;
      assert SuppliedExactlyWhenAvailable(plan, plan.decisions[i], u, found);
      assert RouteOf(plan.decisions[i]).ChatDirect? <==> Needs(RouteOf(plan.decisions[i])) == {};
    }
  }

  lemma ExecutedRouteIsTaskRoute(
    task: Task, u: Understanding, scope: ActorScope, ctx: ActiveContext, signals: Signals)
    ensures var d := FirstDecision(task, u, scope, ctx, signals);
            d.decision.Execute? ==> RouteOf(d) == TaskRoute(task, u, ctx, signals)
  {
    hide TaskRoute, ScopeError;
  }

  /**
   * Every executed task is served with the evidence its own intent, the request's intent and the signals call for:
   * its route supplies exactly that, and the plan's route all of it exactly when it is to be had at all.
   */
  lemma ExecutedTasksAreServed(
    u: Understanding, scope: ActorScope, ctx: ActiveContext, signals: Signals, found: Retrieval)
    ensures var plan := Plan(u, scope, ctx, signals);
            |plan.decisions| == |u.tasks|
            && forall i :: 0 <= i < |u.tasks| && plan.decisions[i].decision.Execute? ==>
                 Served(u.tasks[i], u, ctx, signals, found, plan, plan.decisions[i])
  {
    hide *;
    PlanDecidesAll(u, scope, ctx, signals);
    forall i: nat | i < |u.tasks| && Plan(u, scope, ctx, signals).decisions[i].decision.Execute?
      ensures var plan := Plan(u, scope, ctx, signals);
              Served(u.tasks[i], u, ctx, signals, found, plan, plan.decisions[i])
    {
      ExecutedIsServed(u, scope, ctx, signals, found, i);
    }
  }

  /** Every task that may not be executed is decided for its own reason, and keeps that decision in the plan. */
  lemma OthersAreExplained(u: Understanding, scope: ActorScope, ctx: ActiveContext, signals: Signals)
    ensures var plan := Plan(u, scope, ctx, signals);
            |plan.decisions| == |u.tasks|
            && forall i :: 0 <= i < |u.tasks| && !MayExecute(u.tasks[i], u, scope) ==>
                 Explained(u.tasks[i], u, scope, plan.decisions[i])
  {
    var plan, found := Plan(u, scope, ctx, signals), Retrieval(false, false, false, false);
    PlanDecidesAll(u, scope, ctx, signals);
    hide Plan;
    forall i: nat | i < |u.tasks| && !MayExecute(u.tasks[i], u, scope)
      ensures Explained(u.tasks[i], u, scope, plan.decisions[i])
    {
      DecisionIsDue(u, scope, ctx, signals, found, i);
      FirstDecisionIsDue(u.tasks[i], u, scope, ctx, signals, found);
      hide FirstDecision, Conflicts, Due, MayExecute, Explained;
    }
  }

  /** While a product or tool is outside the actor's scope nothing is executed, and all but reports is refused. */
  lemma OutOfScopeIsRefused(u: Understanding, scope: ActorScope, ctx: ActiveContext, signals: Signals)
    requires OutOfScope(u, scope)
    ensures var plan := Plan(u, scope, ctx, signals);
            |plan.decisions| == |u.tasks|
            && forall i :: 0 <= i < |u.tasks| ==>
                 !plan.decisions[i].decision.Execute?
                 && (!GeneratesReport(u.tasks[i]) ==> plan.decisions[i].decision.Refuse?)
  {
    OthersAreExplained(u, scope, ctx, signals);
    hide Plan, OutOfScope, ProductOutside;
    forall i: nat | i < |u.tasks| ensures !MayExecute(u.tasks[i], u, scope) {}
    hide MayExecute;
  }

  // ----- What a plan asks for -----

  /** The request answers this key. */
  predicate Supplied(u: Understanding, key: string) {
    var values := Values(u);
    match key
    case "tool_or_chamber" => Filled(values, "tool_id") || Filled(values, "chamber")
    case "affected_object" =>
      exists name :: name in {"product", "tool_id", "chamber", "lot_id", "case_id"} && Filled(values, name)
    case "history_reference" => u.contextMessageIds != []
    case _ => Filled(values, key)
  }

  /** Data tasks need a time range; shaped ones an affected object, if they look one up; unshaped ones all three. */
  predicate Demands(task: Task, key: string) {
    task.policy.Execute? && task.intent in {DataQuery, Investigation}
    && match key
       case "time_range" => true
       case "affected_object" =>
         !task.shape.UnspecifiedShape? && (task.intent.Investigation? || task.shape.EntityLookup?)
       case "product" => task.shape.UnspecifiedShape?
       case "tool_or_chamber" => task.shape.UnspecifiedShape?
       case _ => false
  }

  predicate RefersBack(task: Task) {
    task.target in {PreviousUserMessage, PreviousAnswer} && task.action in {Recall, Simplify, Summarize, Translate}
  }

  /** The key is demanded by a task, or by a tool route without any task to execute, or by a reference to history. */
  predicate Lacks(u: Understanding, route: Route, key: string) {
    !Supplied(u, key)
    && ((exists task :: task in u.tasks && Demands(task, key))
        || (route in {ToolOnly, RagAndTool} && key in {"product", "time_range", "tool_or_chamber"}
            && forall task :: task in u.tasks ==> !task.policy.Execute?)
        || (key == "history_reference" && exists task :: task in u.tasks && RefersBack(task)))
  }

  lemma TaskLacks(task: Task, u: Understanding, key: string)
    ensures key in TaskMissing(task, Values(u)) <==> Demands(task, key) && !Supplied(u, key)
    ensures key in LegacyMissing(Values(u)) <==>
              key in {"product", "time_range", "tool_or_chamber"} && !Supplied(u, key)
  {
    FilledExactlyWhen(Values(u));
    hide Has, Filled, Values;
  }

  lemma {:induction false} TasksLack(tasks: seq<Task>, u: Understanding, key: string)
    ensures key in TasksMissing(tasks, Values(u)) <==>
              !Supplied(u, key) && exists task :: task in tasks && Demands(task, key)
  {
    if tasks != [] {
      var init, last := tasks[..|tasks| - 1], tasks[|tasks| - 1];
      assert tasks == init + [last];
      TasksLack(init, u, key);
      TaskLacks(last, u, key);
      hide TaskMissing, Demands, Supplied, Values;
    }
  }

  lemma AllLack(u: Understanding, route: Route, key: string)
    ensures key in AllMissing(u, route) <==> Lacks(u, route, key)
  {
    TasksLack(u.tasks, u, key);
    TaskLacks(Task("", Conversation, GeneralTarget, Recall, DirectShape, [], Execute), u, key);
    assert forall task :: RefersBack(task) <==> IsHistoryTask(task);
    assert key == "history_reference" ==> (Supplied(u, key) <==> u.contextMessageIds != []);
    hide TaskMissing, Demands, Supplied, Values, LegacyMissing, IsHistoryTask, RefersBack, TasksMissing;
  }

  /** What is asked for is lacking, at most three keys of it, and nothing lacking is passed over but a fourth. */
  lemma RequiredMissingExactlyWhen(u: Understanding, route: Route)
    ensures var missing := RequiredMissing(u, route);
            (forall key :: key in missing ==> Lacks(u, route, key))
            && (missing == [] ==> forall key :: !Lacks(u, route, key))
            && (|missing| < 3 ==> forall key :: Lacks(u, route, key) ==> key in missing)
  {
    forall key ensures key in AllMissing(u, route) <==> Lacks(u, route, key) {
      AllLack(u, route, key);
    }
    hide AllMissing, Lacks;
    assert forall key :: key in FirstThree(AllMissing(u, route)) ==> key in Dedup(AllMissing(u, route));
  }

  /** A plan that executes a task lacks nothing, and is as sure of its request as its route asks for. */
  lemma ExecutingPlansLackNothing(u: Understanding, scope: ActorScope, ctx: ActiveContext, signals: Signals)
    ensures var plan := Plan(u, scope, ctx, signals);
            (exists d :: d in plan.decisions && Executes(d)) ==>
              (forall key :: !Lacks(u, plan.route, key))
              && u.confidence >= (match plan.route
                                  case ChatDirect => 0.50 case InternalRag => 0.58 case ToolOnly => 0.68
                                  case RagAndTool => 0.72 case RagAndWeb => 0.72 case ReuseEvidence => 0.82
                                  case _ => 0.65)
  {
    ExecutingPlansAreReady(u, scope, ctx, signals);
    RequiredMissingExactlyWhen(u, Plan(u, scope, ctx, signals).route);
    hide Plan, RequiredMissing, Lacks;
  }

  // ----- The route of the plan -----

  lemma CombinedIsUsed(routes: seq<Route>, suggested: Route)
    requires routes != []
    ensures var combined := Combined(routes, suggested);
            combined in routes || (combined.RagAndTool? && InternalRag in routes && ToolOnly in routes)
  {
    var beyond := Filter((r: Route) => !r.ChatDirect?, routes);
    assert beyond != [] ==> beyond[0] in beyond;
    assert routes[0] in routes;
  }

  lemma ActiveAreExecuted(ds: seq<TaskDecision>, r: Route)
    ensures r in ActiveRoutes(ds) <==> r in ExecutedRoutes(ds) && !r.ChatDirect?
  {
    ExecutedRoutesHold(ds, r);
  }

  lemma CoveredNeeds(combined: Route, r: Route)
    requires combined == r || (combined.RagAndTool? && r in TOOL_FAMILY) || (combined.RagAndWeb? && r in WEB_FAMILY)
    ensures Needs(r) <= Needs(combined)
  {}

  lemma NeedsOfBoth(kind: Evidence)
    ensures kind in Needs(RagAndTool) <==> kind in Needs(InternalRag) || kind in Needs(ToolOnly)
    ensures Needs(ChatDirect) == {}
  {}

  lemma ExecutedNeeds(ds: seq<TaskDecision>, suggested: Route, r: Route)
    requires Predefined(ActiveRoutes(ds)) && r in ExecutedRoutes(ds)
    ensures Needs(r) <= Needs(Combined(ExecutedRoutes(ds), suggested))
  {
    hide *;
    NeedsOfBoth(Documents);
    if !r.ChatDirect? {
      forall x ensures x in ActiveRoutes(ds) <==> x in ExecutedRoutes(ds) && !x.ChatDirect? {
        ActiveAreExecuted(ds, x);
      }
      CombinedCovers(ExecutedRoutes(ds), suggested, ActiveRoutes(ds), r);
      CoveredNeeds(Combined(ExecutedRoutes(ds), suggested), r);
    }
  }

  /** The combined route needs exactly what the executed routes need. */
  lemma CombinedNeeds(ds: seq<TaskDecision>, suggested: Route, kind: Evidence)
    requires Predefined(ActiveRoutes(ds)) && ExecutedRoutes(ds) != []
    ensures kind in Needs(Combined(ExecutedRoutes(ds), suggested))
       <==> exists r :: r in ExecutedRoutes(ds) && kind in Needs(r)
  {
    hide *;
    var routes := ExecutedRoutes(ds);
    CombinedIsUsed(routes, suggested);
    NeedsOfBoth(kind);
    if r :| r in routes && kind in Needs(r) {
      ExecutedNeeds(ds, suggested, r);
    }
  }

  /** The task is executed unless the plan clarifies. */
  ghost predicate Runs(task: Task, u: Understanding, scope: ActorScope, ctx: ActiveContext, signals: Signals) {
    MayExecute(task, u, scope) && !Conflicts(task, u, scope, ctx, signals)
  }

  /** All kinds of evidence the tasks that run want. */
  ghost predicate WantedByAny(
    kind: Evidence, u: Understanding, scope: ActorScope, ctx: ActiveContext, signals: Signals) {
    exists task :: task in u.tasks && Runs(task, u, scope, ctx, signals) && kind in Wanted(task, u, ctx, signals)
  }

  lemma EnforcedRuns(
    u: Understanding, scope: ActorScope, ctx: ActiveContext, signals: Signals, i: nat)
    requires i < |u.tasks|
    ensures var ds := Enforced(FirstDecisions(u, scope, ctx, signals));
            |ds| == |u.tasks| && (ds[i].decision.Execute? <==> Runs(u.tasks[i], u, scope, ctx, signals))
            && (ds[i].decision.Execute? ==>
                  Executes(ds[i]) && RouteOf(ds[i]) in EXECUTABLE
                  && Needs(RouteOf(ds[i])) == Wanted(u.tasks[i], u, ctx, signals))
  {
    var found := Retrieval(false, false, false, false);
    EnforcedIsDue(u, scope, ctx, signals, found, i);
    FirstDecisionAt(u, scope, ctx, signals, i);
    FirstDecisionIsDue(u.tasks[i], u, scope, ctx, signals, found);
    hide FirstDecision, Enforced, Wanted, MayExecute, Conflicts, FirstDecisions, Needs;
  }

  lemma SomeoneRuns(
    u: Understanding, scope: ActorScope, ctx: ActiveContext, signals: Signals, r: Route)
    requires r in ExecutedRoutes(Enforced(FirstDecisions(u, scope, ctx, signals)))
    ensures r in EXECUTABLE
    ensures exists task :: task in u.tasks && Runs(task, u, scope, ctx, signals)
              && Needs(r) == Wanted(task, u, ctx, signals)
  {
    var ds := Enforced(FirstDecisions(u, scope, ctx, signals));
    ExecutedRoutesHold(ds, r);
    hide Enforced, FirstDecisions, Runs, Wanted, Needs, ExecutedRoutes;
    var d :| d in ds && Executes(d) && RouteOf(d) == r;
    var i: nat :| i < |ds| && ds[i] == d;
    assert |ds| == |u.tasks| by { EnforcedLength(u, scope, ctx, signals); }
    EnforcedRuns(u, scope, ctx, signals, i);
    assert u.tasks[i] in u.tasks;
  }

  lemma EnforcedLength(u: Understanding, scope: ActorScope, ctx: ActiveContext, signals: Signals)
    ensures |Enforced(FirstDecisions(u, scope, ctx, signals))| == |u.tasks|
  {
    hide Enforced;
  }

  lemma RunnerIsExecuted(
    u: Understanding, scope: ActorScope, ctx: ActiveContext, signals: Signals, task: Task)
    requires task in u.tasks && Runs(task, u, scope, ctx, signals)
    ensures exists r :: r in ExecutedRoutes(Enforced(FirstDecisions(u, scope, ctx, signals)))
              && Needs(r) == Wanted(task, u, ctx, signals)
    ensures !OnlyRefusals(Enforced(FirstDecisions(u, scope, ctx, signals)))
  {
    var ds := Enforced(FirstDecisions(u, scope, ctx, signals));
    var i: nat :| i < |u.tasks| && u.tasks[i] == task;
    EnforcedRuns(u, scope, ctx, signals, i);
    ExecutedRoutesHold(ds, RouteOf(ds[i]));
    hide Enforced, FirstDecisions, Runs, Wanted, Needs, ExecutedRoutes;
    assert ds[i] in ds;
  }

  /** How sure a request must be for its tasks to run, by the evidence they want. */
  ghost function Sureness(u: Understanding, scope: ActorScope, ctx: ActiveContext, signals: Signals): real {
    if WantedByAny(ReusedEvidence, u, scope, ctx, signals) then 0.82
    else if WantedByAny(WebPages, u, scope, ctx, signals) then 0.72
    else if WantedByAny(ToolFacts, u, scope, ctx, signals) then
      if WantedByAny(Documents, u, scope, ctx, signals) then 0.72 else 0.68
    else if WantedByAny(Documents, u, scope, ctx, signals) then 0.58 else 0.50
  }

  lemma RouteByNeeds(route: Route)
    requires route in EXECUTABLE
    ensures Threshold(route) == if ReusedEvidence in Needs(route) then 0.82
                                else if WebPages in Needs(route) then 0.72
                                else if ToolFacts in Needs(route) then
                                  if Documents in Needs(route) then 0.72 else 0.68
                                else if Documents in Needs(route) then 0.58 else 0.50
  {}

  lemma KindByTasks(
    u: Understanding, scope: ActorScope, ctx: ActiveContext, signals: Signals, kind: Evidence)
    ensures (exists r :: r in ExecutedRoutes(Enforced(FirstDecisions(u, scope, ctx, signals))) && kind in Needs(r))
       <==> WantedByAny(kind, u, scope, ctx, signals)
  {
    var routes := ExecutedRoutes(Enforced(FirstDecisions(u, scope, ctx, signals)));
    hide Enforced, FirstDecisions, Runs, Wanted, Needs, ExecutedRoutes;
    if r :| r in routes && kind in Needs(r) {
      SomeoneRuns(u, scope, ctx, signals, r);
    }
    if task :| task in u.tasks && Runs(task, u, scope, ctx, signals) && kind in Wanted(task, u, ctx, signals) {
      RunnerIsExecuted(u, scope, ctx, signals, task);
    }
  }

  lemma SurenessByRoute(
    u: Understanding, scope: ActorScope, ctx: ActiveContext, signals: Signals, route: Route)
    requires route in EXECUTABLE
    requires forall kind :: kind in Needs(route) <==> WantedByAny(kind, u, scope, ctx, signals)
    ensures Threshold(route) == Sureness(u, scope, ctx, signals)
  {
    RouteByNeeds(route);
    hide WantedByAny, Threshold, Needs;
  }

  lemma CombinedByTasks(
    u: Understanding, scope: ActorScope, ctx: ActiveContext, signals: Signals, suggested: Route, task: Task)
    requires task in u.tasks && Runs(task, u, scope, ctx, signals)
    ensures var route := Combined(ExecutedRoutes(Enforced(FirstDecisions(u, scope, ctx, signals))), suggested);
            route in EXECUTABLE && Threshold(route) == Sureness(u, scope, ctx, signals)
            && forall kind :: kind in Needs(route) <==> WantedByAny(kind, u, scope, ctx, signals)
  {
    hide *;
    var first := FirstDecisions(u, scope, ctx, signals);
    var routes := ExecutedRoutes(Enforced(first));
    FirstRoutesShareATail(u, scope, ctx, signals);
    EnforcedIsPredefined(first, TailRoute(ctx, signals));
    RunnerIsExecuted(u, scope, ctx, signals, task);
    forall r | r in routes ensures r in EXECUTABLE {
      SomeoneRuns(u, scope, ctx, signals, r);
    }
    CombinedIsExecutable(routes, suggested);
    forall kind ensures kind in Needs(Combined(routes, suggested)) <==> WantedByAny(kind, u, scope, ctx, signals) {
      CombinedNeeds(Enforced(first), suggested, kind);
      KindByTasks(u, scope, ctx, signals, kind);
    }
    SurenessByRoute(u, scope, ctx, signals, Combined(routes, suggested));
  }

  lemma PlanRouteCases(u: Understanding, ctx: ActiveContext, ds: seq<TaskDecision>)
    requires !OnlyRefusals(ds)
    ensures var route := Combined(ExecutedRoutes(ds), Suggested(u));
            PlanFor(u, ctx, ds).route
            == if RequiredMissing(u, route) != [] || u.confidence < Threshold(route) then ClarifyRoute else route
  {
    hide Combined, ExecutedRoutes, RequiredMissing, InvalidatedRefs, Suggested, Threshold, OnlyRefusals, Withhold;
  }

  /**
   * While any task runs: the plan clarifies if and only if a key is lacking or the request is less sure than the
   * evidence wanted asks for; otherwise its route needs exactly the evidence that its tasks want.
   */
  lemma PlanRouteExactly(u: Understanding, scope: ActorScope, ctx: ActiveContext, signals: Signals, task: Task)
    requires task in u.tasks && Runs(task, u, scope, ctx, signals)
    ensures var plan := Plan(u, scope, ctx, signals);
            (plan.route.ClarifyRoute? <==>
               (exists key :: Lacks(u, ChatDirect, key)) || u.confidence < Sureness(u, scope, ctx, signals))
            && (!plan.route.ClarifyRoute? ==>
                  plan.route in EXECUTABLE
                  && forall kind :: kind in Needs(plan.route) <==> WantedByAny(kind, u, scope, ctx, signals))
  {
    assert task.policy.Execute?;
    hide *;
    var ds := Enforced(FirstDecisions(u, scope, ctx, signals));
    var route := Combined(ExecutedRoutes(ds), Suggested(u));
    CombinedByTasks(u, scope, ctx, signals, Suggested(u), task);
    RunnerIsExecuted(u, scope, ctx, signals, task);
    PlanRouteCases(u, ctx, ds);
    PlanIsPlanFor(u, scope, ctx, signals);
    ExecutableIsNoQuestion(route);
    RequiredMissingExactlyWhen(u, route);
    forall key ensures Lacks(u, route, key) <==> Lacks(u, ChatDirect, key) {
      LacksForAnyRoute(u, task, route, key);
    }
    assert RequiredMissing(u, route) != [] ==> RequiredMissing(u, route)[0] in RequiredMissing(u, route);
  }

  lemma PlanIsPlanFor(u: Understanding, scope: ActorScope, ctx: ActiveContext, signals: Signals)
    ensures Plan(u, scope, ctx, signals) == PlanFor(u, ctx, Enforced(FirstDecisions(u, scope, ctx, signals)))
  {
    hide PlanFor, Enforced, FirstDecisions;
  }

  lemma ExecutableIsNoQuestion(route: Route)
    requires route in EXECUTABLE
    ensures !route.ClarifyRoute?
  {}

  lemma LacksForAnyRoute(u: Understanding, task: Task, route: Route, key: string)
    requires task in u.tasks && task.policy.Execute?
    ensures Lacks(u, route, key) <==> Lacks(u, ChatDirect, key)
  {
    hide Supplied, Demands, RefersBack;
  }

  lemma RefusesOnlyExactlyWhen(ds: seq<TaskDecision>)
    requires forall i :: 0 <= i < |ds| ==> !ds[i].decision.Execute?
    ensures OnlyRefusals(ds) <==> exists i :: 0 <= i < |ds| && ds[i].decision.Refuse?
    ensures ExecutedRoutes(ds) == []
  {
    NoneOfFilter(Executes, ds);
    hide ExecutedRoutes;
    if d :| d in ds && d.decision.Refuse? {
      var i :| 0 <= i < |ds| && ds[i] == d;
    }
    if i :| 0 <= i < |ds| && ds[i].decision.Refuse? {
      assert ds[i] in ds;
    }
  }

  lemma RefusedRoute(u: Understanding, ctx: ActiveContext, ds: seq<TaskDecision>)
    requires OnlyRefusals(ds)
    ensures PlanFor(u, ctx, ds).route.RefuseRoute?
  {
    hide Combined, ExecutedRoutes, RequiredMissing, InvalidatedRefs, OnlyRefusals;
  }

  lemma NothingCombined(suggested: Route)
    ensures Combined([], suggested) == suggested
  {}

  /** The route a request without a running task falls back to. */
  function Fallback(u: Understanding): Route {
    match u.suggestedRoute case HistoryDirect => ChatDirect case route => route
  }

  lemma IdleDecisions(u: Understanding, scope: ActorScope, ctx: ActiveContext, signals: Signals, i: nat)
    requires i < |u.tasks| && !Runs(u.tasks[i], u, scope, ctx, signals)
    ensures var ds := Enforced(FirstDecisions(u, scope, ctx, signals));
            |ds| == |u.tasks| == |Plan(u, scope, ctx, signals).decisions|
            && !ds[i].decision.Execute? && Plan(u, scope, ctx, signals).decisions[i] == ds[i]
  {
    hide *;
    EnforcedLength(u, scope, ctx, signals);
    PlanDecidesAll(u, scope, ctx, signals);
    PlanIsPlanFor(u, scope, ctx, signals);
    EnforcedExecutable(u, scope, ctx, signals, Retrieval(false, false, false, false));
    EnforcedRuns(u, scope, ctx, signals, i);
    PlanKeepsDecisions(u, ctx, Enforced(FirstDecisions(u, scope, ctx, signals)), i);
  }

  lemma SuggestedFallsBack(u: Understanding)
    ensures Suggested(u) == Fallback(u)
  {}

  /**
   * While no task runs: the plan refuses if any task is refused; else it takes the suggested route, unless a key is
   * lacking or the request is less sure than that route asks for.
   */
  lemma PlanWithoutTasks(u: Understanding, scope: ActorScope, ctx: ActiveContext, signals: Signals)
    requires forall task :: task in u.tasks ==> !Runs(task, u, scope, ctx, signals)
    ensures var plan, route := Plan(u, scope, ctx, signals), Fallback(u);
            plan.route == if exists i :: 0 <= i < |plan.decisions| && plan.decisions[i].decision.Refuse?
                          then RefuseRoute
                          else if exists key :: Lacks(u, route, key) then ClarifyRoute
                          else if u.confidence < Threshold(route) then ClarifyRoute else route
  {
    hide *;
    var plan := Plan(u, scope, ctx, signals);
    var ds := Enforced(FirstDecisions(u, scope, ctx, signals));
    EnforcedLength(u, scope, ctx, signals);
    PlanDecidesAll(u, scope, ctx, signals);
    forall i: nat | i < |u.tasks| ensures !ds[i].decision.Execute? && plan.decisions[i] == ds[i] {
      assert u.tasks[i] in u.tasks;
      IdleDecisions(u, scope, ctx, signals, i);
    }
    PlanIsPlanFor(u, scope, ctx, signals);
    RefusesOnlyExactlyWhen(ds);
    if OnlyRefusals(ds) {
      RefusedRoute(u, ctx, ds);
    } else {
      PlanRouteCases(u, ctx, ds);
      NothingCombined(Suggested(u));
      SuggestedFallsBack(u);
      RequiredMissingExactlyWhen(u, Fallback(u));
      var missing := RequiredMissing(u, Fallback(u));
      assert missing != [] ==> missing[0] in missing;
    }
  }

  predicate Rewrites(op: SlotOperation) { op.kind in {CorrectSlot, ClearSlot} }

  /** A plan reports the slots that depend on a rewritten one, and once any is, every valid piece of evidence. */
  lemma InvalidatedExactly(
    u: Understanding, scope: ActorScope, ctx: ActiveContext, signals: Signals, reference: Reference)
    ensures reference in Plan(u, scope, ctx, signals).invalidated
       <==> (match reference
             case SlotReference(name) =>
               name in ctx.slots
               && exists op :: op in u.operations && Rewrites(op) && op.slot in ctx.slots[name].dependsOn
             case EvidenceReference(id) =>
               id != "" && (exists op :: op in u.operations && Rewrites(op))
               && exists ref :: ref in ctx.refs && ref.valid && ref.id == id)
  {
    var ds := Enforced(FirstDecisions(u, scope, ctx, signals));
    PlanIsPlanFor(u, scope, ctx, signals);
    hide Plan, Enforced, FirstDecisions;
    InvalidatedByPlan(u, ctx, ds);
    hide PlanFor;
    var changed := set op | op in u.operations && (op.kind.CorrectSlot? || op.kind.ClearSlot?) :: op.slot;
    assert forall slot :: slot in changed <==> exists op :: op in u.operations && Rewrites(op) && op.slot == slot;
    match reference
    case EvidenceReference(id) =>
      assert changed != {} <==> exists op :: op in u.operations && Rewrites(op) by {
        if op :| op in u.operations && Rewrites(op) {
          assert op.slot in changed;
        }
      }
    case SlotReference(name) =>
      if name in ctx.slots {
        if op :| op in u.operations && Rewrites(op) && op.slot in ctx.slots[name].dependsOn {
          assert op.slot in ctx.slots[name].dependsOn * changed;
        }
        if c :| c in ctx.slots[name].dependsOn * changed {
          assert c in changed;
        }
      }
  }

  lemma InvalidatedByPlan(u: Understanding, ctx: ActiveContext, ds: seq<TaskDecision>)
    ensures PlanFor(u, ctx, ds).invalidated == InvalidatedRefs(u, ctx)
  {
    hide Combined, ExecutedRoutes, RequiredMissing, InvalidatedRefs, OnlyRefusals, Withhold, Suggested, Threshold;
  }
}
