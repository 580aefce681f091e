/** What becomes of each task, from the understanding of the request to the task's result. */
module TaskResults {
  import opened Domain
  import opened Sequences
  import opened TaskExecution
  import opened TaskRouting
  import Ledger = AnswerAssembler
  import Routing

  /** Some entry of this source is cited by the answer. */
  predicate Cited(run: Run, source: Ledger.SourceType) {
    exists e :: e in run.ledger && e.source == source && e.evidenceId in run.citations
  }

  /** The answer cites what the task wanted; a web search may stand in for a document where only that was wanted. */
  predicate EnoughCited(run: Run, wanted: set<Routing.Evidence>) {
    var internal, external := Cited(run, Ledger.InternalControlled), Cited(run, Ledger.External);
    var searched := Routing.WebPages in wanted || (wanted == {Routing.Documents} && run.actualRoute.RagAndWeb?);
    (Routing.ToolFacts in wanted ==> Cited(run, Ledger.SimulatedLiveData))
    && (Routing.Documents in wanted || Routing.ReusedEvidence in wanted ==> internal || (searched && external))
  }

  /** The task's own output, or the whole answer, says something. */
  predicate Answered(run: Run, id: string) {
    !WhiteOnly(if id in run.outputs then run.outputs[id] else run.answerText)
  }

  lemma CitedExactlyWhen(run: Run, source: Ledger.SourceType)
    ensures CitedIds(run, source) != [] <==> Cited(run, source)
  {
    var chosen := Filter((e: Ledger.Entry) => e.source == source && e.evidenceId in run.citations, run.ledger);
    if chosen != [] {
      assert chosen[0] in chosen;
    }
  }

  /** What is enough for each route. */
  predicate EnoughFor(planned: Route, actual: Route, internal: bool, live: bool, external: bool) {
    match planned
    case ReuseEvidence => internal
    case InternalRag => internal || (actual.RagAndWeb? && external)
    case ToolOnly => live
    case RagAndTool => internal && live
    case RagAndWeb => internal || external
    case _ => true
  }

  lemma EnoughExactlyWhen(run: Run, planned: Route)
    requires planned in EXECUTABLE
    ensures EnoughCited(run, Routing.Needs(planned))
            <==> EnoughFor(planned, run.actualRoute, Cited(run, Ledger.InternalControlled),
                           Cited(run, Ledger.SimulatedLiveData), Cited(run, Ledger.External))
  {
    hide Cited;
    assert Routing.ToolFacts in {Routing.Documents, Routing.ToolFacts};
  }

  lemma ContractExactlyWhen(run: Run, planned: Route)
    requires planned in EXECUTABLE
    ensures var route := ActualRoute(Some(planned), run.actualRoute);
            ContractMet(route, if UsesDocuments(route) then CitedIds(run, Ledger.InternalControlled) else [],
                        if UsesToolFacts(route) then CitedIds(run, Ledger.SimulatedLiveData) else [],
                        if UsesWebPages(route) then CitedIds(run, Ledger.External) else [])
            <==> EnoughFor(planned, run.actualRoute, Cited(run, Ledger.InternalControlled),
                           Cited(run, Ledger.SimulatedLiveData), Cited(run, Ledger.External))
  {
    CitedExactlyWhen(run, Ledger.InternalControlled);
    CitedExactlyWhen(run, Ledger.SimulatedLiveData);
    CitedExactlyWhen(run, Ledger.External);
    hide CitedIds, Cited;
  }

  /** An executed task completes exactly when it is answered and cites enough for what its planned route serves. */
  lemma ValidatedExactlyWhen(run: Run, id: string, planned: Route)
    requires planned in EXECUTABLE
    ensures var r := Validated(run, id, ActualRoute(Some(planned), run.actualRoute));
            if Answered(run, id) && EnoughCited(run, Routing.Needs(planned)) then r.status.Completed?
            else r.status.Failed? && r.reason == ContractNotSatisfied
  {
    EnoughExactlyWhen(run, planned);
    ContractExactlyWhen(run, planned);
    BlankExactlyWhen(if id in run.outputs then run.outputs[id] else run.answerText);
    hide CitedIds, Cited, Strip, WhiteOnly, EnoughFor, EnoughCited, ContractMet, ActualRoute, Routing.Needs;
    hide UsesDocuments, UsesToolFacts, UsesWebPages;
  }

  // ----- Dependencies -----

  /** Every task it depends on that was decided before it is completed. */
  predicate DependenciesCompleted(run: Run, ds: seq<TaskDecision>, i: nat) {
    forall j :: 0 <= j < i < |ds| && DependsOnEarlier(run, ds, i, j) ==> Results(run, ds)[j].status.Completed?
  }

  lemma {:induction false} LatestOf(results: seq<TaskResult>, id: string) returns (j: nat)
    requires ResultOf(results, id).Some?
    ensures j < |results| && results[j].taskId == id && ResultOf(results, id) == Some(results[j])
    ensures forall k :: j < k < |results| ==> results[k].taskId != id
  {
    if results[|results| - 1].taskId == id {
      j := |results| - 1;
    } else {
      j := LatestOf(results[..|results| - 1], id);
    }
  }

  lemma DependenciesExactlyWhen(run: Run, ds: seq<TaskDecision>, i: nat)
    requires i < |ds|
    ensures DependencyFailed(run, Results(run, ds[..i]), ds[i].taskId) <==> !DependenciesCompleted(run, ds, i)
  {
    ResultAt(run, ds, i);
    var results := Results(run, ds);
    forall k | 0 <= k < |ds| ensures results[k].taskId == ds[k].taskId {
      ResultAt(run, ds, k);
    }
    hide Results, ResultFor;
    assert results[..i] == Results(run, ds[..i]);
    if DependencyFailed(run, results[..i], ds[i].taskId) {
      var d :| d in Dependencies(run, ds[i].taskId) && ResultOf(results[..i], d).Some?
        && !ResultOf(results[..i], d).value.status.Completed?;
      var j := LatestOf(results[..i], d);
      assert DependsOnEarlier(run, ds, i, j);
    }
    if j :| 0 <= j < i && DependsOnEarlier(run, ds, i, j) && !results[j].status.Completed? {
      LatestResult(results[..i], j);
    }
  }

  /** A task depends on what the last task with its id says it depends on. */
  lemma {:induction false} LastTaskCounts(tasks: seq<Task>, id: string)
    ensures match TaskOf(tasks, id)
            case None => forall task :: task in tasks ==> task.id != id
            case Some(t) => exists i :: 0 <= i < |tasks| && tasks[i] == t && t.id == id
                              && forall k :: i < k < |tasks| ==> tasks[k].id != id
  {
    if tasks != [] {
      var init, last := tasks[..|tasks| - 1], tasks[|tasks| - 1];
      assert tasks == init + [last];
      LastTaskCounts(init, id);
      if last.id != id && TaskOf(init, id).Some? {
        var i :| 0 <= i < |init| && init[i] == TaskOf(init, id).value && init[i].id == id
          && forall k :: i < k < |init| ==> init[k].id != id;
        assert tasks[i] == init[i];
      }
    }
  }

  // ----- Results -----

  /** What a decision, its dependencies, the authorization, the answer and its citations make of a task. */
  predicate EndsAs(run: Run, d: TaskDecision, wanted: set<Routing.Evidence>, depended: bool, r: TaskResult) {
    r.taskId == d.taskId
    && match d.decision
       case Clarify => r.status.NeedsClarification? && r.reason == FromPlan(d.reason)
       case Refuse => r.status.Refused? && r.reason == FromPlan(d.reason)
       case Defer => r.status.Postponed? && r.reason == FromPlan(d.reason)
       case Execute =>
         if !depended then r.status.Postponed? && r.reason == DependencyNotCompleted
         else if run.authorization != [] then r.status.Refused? && r.reason == Unauthorized(run.authorization[0])
         else if Answered(run, d.taskId) && EnoughCited(run, wanted) then r.status.Completed?
         else r.status.Failed? && r.reason == ContractNotSatisfied
  }

  lemma ResultEndsAs(run: Run, ds: seq<TaskDecision>, i: nat)
    requires i < |ds|
    requires ds[i].decision.Execute? ==> ds[i].route.Some? && ds[i].route.value in EXECUTABLE
    ensures EndsAs(run, ds[i], Routing.Needs(Routing.RouteOf(ds[i])), DependenciesCompleted(run, ds, i),
                   Results(run, ds)[i])
  {
    ResultAt(run, ds, i);
    DependenciesExactlyWhen(run, ds, i);
    if ds[i].decision.Execute? {
      ValidatedExactlyWhen(run, ds[i].taskId, ds[i].route.value);
    }
    hide Results, Validated, ActualRoute, DependenciesCompleted, DependencyFailed, Answered, EnoughCited, Routing.Needs;
  }

  lemma PlannedRoute(
    u: Understanding, scope: ActorScope, ctx: ActiveContext, signals: Routing.Signals, i: nat)
    requires i < |u.tasks|
    ensures var plan := Routing.Plan(u, scope, ctx, signals);
            |plan.decisions| == |u.tasks| && plan.decisions[i].taskId == u.tasks[i].id
            && (plan.decisions[i].decision.Execute? ==>
                  plan.decisions[i].route.Some? && plan.decisions[i].route.value in EXECUTABLE
                  && Routing.Needs(plan.decisions[i].route.value) == Wanted(u.tasks[i], u, ctx, signals))
  {
    var found := Routing.Retrieval(false, false, false, false);
    DecisionIsDue(u, scope, ctx, signals, found, i);
    FirstDecisionIsDue(u.tasks[i], u, scope, ctx, signals, found);
    Routing.PlansKeepEveryTask(u, scope, ctx, signals);
    hide Routing.Plan, Routing.FirstDecision, Wanted, MayExecute, Conflicts, OutOfScope, Routing.Needs;
  }

  lemma TaskEndsAs(
    run: Run, u: Understanding, scope: ActorScope, ctx: ActiveContext, signals: Routing.Signals, i: nat)
    requires i < |u.tasks|
    ensures var ds := Routing.Plan(u, scope, ctx, signals).decisions;
            |ds| == |u.tasks| == |Results(run, ds)|
            && EndsAs(run, ds[i], Wanted(u.tasks[i], u, ctx, signals), DependenciesCompleted(run, ds, i),
                      Results(run, ds)[i])
  {
    var ds := Routing.Plan(u, scope, ctx, signals).decisions;
    PlannedRoute(u, scope, ctx, signals, i);
    ResultEndsAs(run, ds, i);
    hide Routing.Plan, Wanted, Results, DependenciesCompleted, Answered, EnoughCited, Routing.Needs;
  }

  /**
   * From request to result: a task is completed if and only if it may be executed, conflicts with no task before it
   * and the plan does not clarify; every task it depends on that was decided before it is completed, the run is
   * authorized, and its answer says something and cites enough of the evidence that the task wanted. Every other
   * task ends with the status and reason of the first of these that fails.
   */
  lemma TaskIsCompletedExactlyWhen(
    run: Run, u: Understanding, scope: ActorScope, ctx: ActiveContext, signals: Routing.Signals, i: nat)
    requires i < |u.tasks|
    ensures var plan := Routing.Plan(u, scope, ctx, signals);
            var task, wanted := u.tasks[i], Wanted(u.tasks[i], u, ctx, signals);
            |plan.decisions| == |u.tasks|
            && (Results(run, plan.decisions)[i].status.Completed?
                <==> MayExecute(task, u, scope) && !Conflicts(task, u, scope, ctx, signals) && !plan.route.ClarifyRoute?
                     && DependenciesCompleted(run, plan.decisions, i) && run.authorization == []
                     && Answered(run, task.id) && EnoughCited(run, wanted))
            && EndsAs(run, plan.decisions[i], wanted, DependenciesCompleted(run, plan.decisions, i),
                      Results(run, plan.decisions)[i])
  {
    TaskEndsAs(run, u, scope, ctx, signals, i);
    TasksAreExecutedExactlyWhen(u, scope, ctx, signals);
    PlannedRoute(u, scope, ctx, signals, i);
    hide Routing.Plan, Wanted, Results, DependenciesCompleted, Answered, EnoughCited, Routing.Needs, Conflicts;
    hide MayExecute;
  }

  predicate CitedAs(run: Run, source: Ledger.SourceType, id: string) {
    id in run.citations && exists e :: e in run.ledger && e.source == source && e.evidenceId == id
  }

  lemma CitedIdsExactly(run: Run, source: Ledger.SourceType, id: string)
    ensures id in CitedIds(run, source) <==> CitedAs(run, source, id)
  {
    CitedIdsAreCited(run, source);
    var chosen := Filter((e: Ledger.Entry) => e.source == source && e.evidenceId in run.citations, run.ledger);
    if e :| id in run.citations && e in run.ledger && e.source == source && e.evidenceId == id {
      assert e in chosen;
      var k :| 0 <= k < |chosen| && chosen[k] == e;
      assert CitedIds(run, source)[k] == id;
    }
  }

  /** The ids a validated task lists: those cited from the sources its route draws on, and no others. */
  lemma ListedExactly(run: Run, id: string, route: Route, cited: string)
    requires route in EXECUTABLE
    ensures var r := Validated(run, id, route);
            (cited in r.documents <==>
               route in {ReuseEvidence, InternalRag, RagAndTool, RagAndWeb}
               && CitedAs(run, Ledger.InternalControlled, cited))
            && (cited in r.toolFacts <==>
                  route in {ToolOnly, RagAndTool} && CitedAs(run, Ledger.SimulatedLiveData, cited))
            && (cited in r.webPages <==> route.RagAndWeb? && CitedAs(run, Ledger.External, cited))
  {
    CitedIdsExactly(run, Ledger.InternalControlled, cited);
    CitedIdsExactly(run, Ledger.SimulatedLiveData, cited);
    CitedIdsExactly(run, Ledger.External, cited);
    hide CitedIds, Strip, ContractMet;
  }

  /** A completed task is degraded exactly when it was to search the web and cites no page; the warning says why. */
  lemma DegradedExactlyWhen(run: Run, id: string, route: Route)
    requires route in EXECUTABLE && Validated(run, id, route).status.Completed?
    ensures var r := Validated(run, id, route);
            var degraded := route.RagAndWeb? && !Cited(run, Ledger.External);
            r.reason == (if degraded then CompletedDegraded else ContractSatisfied)
            && r.warnings == if !degraded then []
                             else if run.webUnavailable then [ExternalUnavailable]
                             else if run.webFound then [ExternalNotCited] else [ExternalEmpty]
  {
    CitedExactlyWhen(run, Ledger.External);
    hide CitedIds, Cited, Strip, ContractMet;
  }
}
