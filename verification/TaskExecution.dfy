/** From a route plan to one terminal result per task. */
module TaskExecution {
  import opened Domain
  import opened Sequences
  import Ledger = AnswerAssembler
  import Routing

  datatype Status = Completed | NeedsClarification | Refused | Postponed | Failed

  datatype ResultReason =
    | DependencyNotCompleted | Unauthorized(code: string) | FromPlan(reason: Reason)
    | ContractNotSatisfied | CompletedDegraded | ContractSatisfied

  datatype Warning = ExternalUnavailable | ExternalNotCited | ExternalEmpty

  datatype TaskResult = TaskResult(
    taskId: string, status: Status, route: Option<Route>, reason: ResultReason,
    documents: seq<string>, toolFacts: seq<string>, webPages: seq<string>, warnings: seq<Warning>)

  /** What the finished graph run hands to the coordinator besides the plan. */
  datatype Run = Run(
    tasks: seq<Task>, actualRoute: Route, answerText: string, outputs: map<string, string>,
    ledger: seq<Ledger.Entry>, citations: set<string>, webUnavailable: bool, webFound: bool,
    authorization: seq<string>)

  /** `{item.task_id: item}.get(id)`: a later task with the id wins. */
  function TaskOf(tasks: seq<Task>, id: string): Option<Task> {
    if tasks == [] then None
    else if tasks[|tasks| - 1].id == id then Some(tasks[|tasks| - 1])
    else TaskOf(tasks[..|tasks| - 1], id)
  }

  /** `results_by_id.get(id)`: the latest result so far. */
  function ResultOf(results: seq<TaskResult>, id: string): Option<TaskResult> {
    if results == [] then None
    else if results[|results| - 1].taskId == id then Some(results[|results| - 1])
    else ResultOf(results[..|results| - 1], id)
  }

  function Dependencies(run: Run, id: string): seq<string> {
    match TaskOf(run.tasks, id) case Some(t) => t.dependsOn case None => []
  }

  predicate DependencyFailed(run: Run, results: seq<TaskResult>, id: string) {
    exists d :: d in Dependencies(run, id) && ResultOf(results, d).Some?
      && !ResultOf(results, d).value.status.Completed?
  }

  /** `_actual_task_route`. */
  function ActualRoute(planned: Option<Route>, actual: Route): Route {
    if planned == Some(HistoryDirect) then ChatDirect
    else if planned == Some(ReuseEvidence) && actual.InternalRag? then actual
    else if planned == Some(InternalRag) && actual.RagAndWeb? then actual
    else if planned.Some? then planned.value else actual
  }

  function CitedIds(run: Run, source: Ledger.SourceType): seq<string> {
    Map((e: Ledger.Entry) => e.evidenceId,
        Filter((e: Ledger.Entry) => e.source == source && e.evidenceId in run.citations, run.ledger))
  }

  predicate UsesDocuments(route: Route) {
    !route.ChatDirect? && !route.ToolOnly?
  }
  predicate UsesToolFacts(route: Route) {
    !route.ChatDirect? && !route.ReuseEvidence? && !route.InternalRag? && !route.RagAndWeb?
  }
  predicate UsesWebPages(route: Route) {
    !route.ChatDirect? && !route.ReuseEvidence? && !route.InternalRag? && !route.ToolOnly? && !route.RagAndTool?
  }

  /** The evidence contract of a route, on the ids left after the route's selection. */
  predicate ContractMet(route: Route, documents: seq<string>, toolFacts: seq<string>, webPages: seq<string>) {
    match route
    case ReuseEvidence => documents != []
    case InternalRag => documents != []
    case ToolOnly => toolFacts != []
    case RagAndTool => documents != [] && toolFacts != []
    case RagAndWeb => documents != [] || webPages != []
    case _ => true
  }

  /** `_validate_executed_task`. */
  function Validated(run: Run, id: string, route: Route): TaskResult {
    var documents := if UsesDocuments(route) then CitedIds(run, Ledger.InternalControlled) else [];
    var toolFacts := if UsesToolFacts(route) then CitedIds(run, Ledger.SimulatedLiveData) else [];
    var webPages := if UsesWebPages(route) then CitedIds(run, Ledger.External) else [];
    var answer := if id in run.outputs then run.outputs[id] else run.answerText;
    var warnings :=
      if route.RagAndWeb? && webPages == [] then
        [if run.webUnavailable then ExternalUnavailable else if run.webFound then ExternalNotCited else ExternalEmpty]
      else [];
    if Strip(answer) == "" || !ContractMet(route, documents, toolFacts, webPages) then
      TaskResult(id, Failed, Some(route), ContractNotSatisfied, documents, toolFacts, webPages, [])
    else
      TaskResult(id, Completed, Some(route), if warnings != [] then CompletedDegraded else ContractSatisfied,
                 documents, toolFacts, webPages, warnings)
  }

  function Plain(id: string, status: Status, route: Option<Route>, reason: ResultReason): TaskResult {
    TaskResult(id, status, route, reason, [], [], [], [])
  }

  /** One turn of the loop in `finalize`. */
  function ResultFor(run: Run, results: seq<TaskResult>, d: TaskDecision): TaskResult {
    if DependencyFailed(run, results, d.taskId) && d.decision.Execute? then
      Plain(d.taskId, Postponed, d.route, DependencyNotCompleted)
    else if run.authorization != [] && d.decision.Execute? then
      Plain(d.taskId, Refused, None, Unauthorized(run.authorization[0]))
    else
      match d.decision
      case Clarify => Plain(d.taskId, NeedsClarification, Some(ClarifyRoute), FromPlan(d.reason))
      case Refuse => Plain(d.taskId, Refused, Some(RefuseRoute), FromPlan(d.reason))
      case Defer => Plain(d.taskId, Postponed, d.route, FromPlan(d.reason))
      case Execute => Validated(run, d.taskId, ActualRoute(d.route, run.actualRoute))
  }

  function Results(run: Run, ds: seq<TaskDecision>): (r: seq<TaskResult>)
    ensures |r| == |ds|
  {
    if ds == [] then []
    else
      var before := Results(run, ds[..|ds| - 1]);
      before + [ResultFor(run, before, ds[|ds| - 1])]
  }

  method Finalize(run: Run, ds: seq<TaskDecision>) returns (results: seq<TaskResult>)
    ensures results == Results(run, ds)
  {
    hide ResultFor;
    results := [];
    for i := 0 to |ds|
      invariant results == Results(run, ds[..i])
    {
      assert ds[..i + 1][..i] == ds[..i];
      results := results + [ResultFor(run, results, ds[i])];
    }
    assert ds[..|ds|] == ds;
  }

  // ----- Each result -----

  lemma {:induction false} ResultAt(run: Run, ds: seq<TaskDecision>, i: nat)
    requires i < |ds|
    ensures Results(run, ds)[..i] == Results(run, ds[..i])
    ensures Results(run, ds)[i] == ResultFor(run, Results(run, ds[..i]), ds[i])
    ensures Results(run, ds)[i].taskId == ds[i].taskId
  {
    hide DependencyFailed, Validated;
    if i < |ds| - 1 {
      ResultAt(run, ds[..|ds| - 1], i);
      assert ds[..|ds| - 1][..i] == ds[..i];
    }
    ValidatedKeepsId(run, ds[i].taskId, ActualRoute(ds[i].route, run.actualRoute));
  }

  lemma ValidatedKeepsId(run: Run, id: string, route: Route)
    ensures Validated(run, id, route).taskId == id
  {}

  predicate CitedFrom(run: Run, ids: seq<string>, source: Ledger.SourceType) {
    forall id :: id in ids ==>
      id in run.citations && exists e :: e in run.ledger && e.evidenceId == id && e.source == source
  }

  lemma CitedIdsAreCited(run: Run, source: Ledger.SourceType)
    ensures CitedFrom(run, CitedIds(run, source), source)
  {
    var chosen := Filter((e: Ledger.Entry) => e.source == source && e.evidenceId in run.citations, run.ledger);
    forall id | id in CitedIds(run, source)
      ensures id in run.citations && exists e :: e in run.ledger && e.evidenceId == id && e.source == source
    {
      var i :| 0 <= i < |CitedIds(run, source)| && CitedIds(run, source)[i] == id;
      assert chosen[i] in chosen;
    }
  }

  /** A completed task was executed, answered, and rests on cited evidence that meets its route's contract. */
  predicate Earned(run: Run, d: TaskDecision, r: TaskResult) {
    d.decision.Execute? && run.authorization == [] && r.route == Some(ActualRoute(d.route, run.actualRoute))
    && Strip(if d.taskId in run.outputs then run.outputs[d.taskId] else run.answerText) != ""
    && ContractMet(r.route.value, r.documents, r.toolFacts, r.webPages)
    && CitedFrom(run, r.documents, Ledger.InternalControlled)
    && CitedFrom(run, r.toolFacts, Ledger.SimulatedLiveData)
    && CitedFrom(run, r.webPages, Ledger.External)
  }

  lemma ValidatedIsEarned(run: Run, id: string, route: Route)
    ensures var r := Validated(run, id, route);
            CitedFrom(run, r.documents, Ledger.InternalControlled)
            && CitedFrom(run, r.toolFacts, Ledger.SimulatedLiveData)
            && CitedFrom(run, r.webPages, Ledger.External)
            && (r.status.Completed? ==> ContractMet(route, r.documents, r.toolFacts, r.webPages))
            && r.route == Some(route)
  {
    CitedIdsAreCited(run, Ledger.InternalControlled);
    CitedIdsAreCited(run, Ledger.SimulatedLiveData);
    CitedIdsAreCited(run, Ledger.External);
    hide CitedIds, ContractMet, Strip;
  }

  lemma CompletedIsEarned(run: Run, ds: seq<TaskDecision>, i: nat)
    requires i < |ds| && Results(run, ds)[i].status.Completed?
    ensures Earned(run, ds[i], Results(run, ds)[i])
    ensures forall d :: d in Dependencies(run, ds[i].taskId) && ResultOf(Results(run, ds)[..i], d).Some? ==>
              ResultOf(Results(run, ds)[..i], d).value.status.Completed?
  {
    ResultAt(run, ds, i);
    ValidatedIsEarned(run, ds[i].taskId, ActualRoute(ds[i].route, run.actualRoute));
    hide CitedFrom, ContractMet, Results, Strip, Dependencies, CitedIds;
  }

  // ----- Dependencies, transitively -----

  /** Task `i` depends on the id decided at `j`, the last place before `i` where that id was decided. */
  predicate DependsOnEarlier(run: Run, ds: seq<TaskDecision>, i: nat, j: nat) {
    j < i < |ds| && ds[j].taskId in Dependencies(run, ds[i].taskId)
    && forall k :: j < k < i ==> ds[k].taskId != ds[j].taskId
  }

  predicate Linked(run: Run, ds: seq<TaskDecision>, path: seq<nat>, k: nat)
    requires k < |path| - 1
  {
    DependsOnEarlier(run, ds, path[k], path[k + 1])
  }

  /** A chain of dependencies, each on an earlier decision. */
  predicate Chain(run: Run, ds: seq<TaskDecision>, path: seq<nat>) {
    path != [] && path[0] < |ds| && forall k :: 0 <= k < |path| - 1 ==> Linked(run, ds, path, k)
  }

  lemma {:induction false} LatestResult(results: seq<TaskResult>, j: nat)
    requires j < |results| && forall k :: j < k < |results| ==> results[k].taskId != results[j].taskId
    ensures ResultOf(results, results[j].taskId) == Some(results[j])
    decreases |results|
  {
    if j < |results| - 1 {
      LatestResult(results[..|results| - 1], j);
    }
  }

  lemma StepIsCompleted(run: Run, ds: seq<TaskDecision>, i: nat, j: nat)
    requires i < |ds| && DependsOnEarlier(run, ds, i, j) && Results(run, ds)[i].status.Completed?
    ensures Results(run, ds)[j].status.Completed?
  {
    var results := Results(run, ds);
    CompletedIsEarned(run, ds, i);
    forall k | 0 <= k < i ensures results[k].taskId == ds[k].taskId {
      ResultAt(run, ds, k);
    }
    hide Results, Earned;
    LatestResult(results[..i], j);
  }

  /** A completed task rests on completed tasks only, along every chain of dependencies. */
  lemma {:induction false} CompletedReachesOnlyCompleted(run: Run, ds: seq<TaskDecision>, path: seq<nat>)
    requires Chain(run, ds, path) && Results(run, ds)[path[0]].status.Completed?
    ensures forall k :: 0 <= k < |path| ==> path[k] < |ds| && Results(run, ds)[path[k]].status.Completed?
    decreases |path|
  {
    if |path| > 1 {
      assert Linked(run, ds, path, 0);
      StepIsCompleted(run, ds, path[0], path[1]);
      var rest := path[1..];
      forall k | 0 <= k < |rest| - 1 ensures Linked(run, ds, rest, k) {
        assert Linked(run, ds, path, k + 1);
      }
      CompletedReachesOnlyCompleted(run, ds, rest);
      assert forall k :: 1 <= k < |path| ==> path[k] == rest[k - 1];
    }
  }

  // ----- From the understanding to the results -----

  /**
   * From plan to results no task is lost, added or reordered, and executing a Recipe always ends refused,
   * whatever was answered, cited or depended on.
   */
  lemma NoTaskIsLost(
    run: Run, u: Understanding, scope: ActorScope, ctx: ActiveContext, signals: Routing.Signals)
    ensures var ds := Routing.Plan(u, scope, ctx, signals).decisions;
            |Results(run, ds)| == |u.tasks|
            && forall i :: 0 <= i < |u.tasks| ==>
                 Results(run, ds)[i].taskId == u.tasks[i].id
                 && (Routing.ForbiddenMutation(u.tasks[i]) ==>
                       Results(run, ds)[i].status.Refused?
                       && Results(run, ds)[i].reason == FromPlan(ControlledWriteNotAllowed))
  {
    Routing.PlansKeepEveryTask(u, scope, ctx, signals);
    var ds := Routing.Plan(u, scope, ctx, signals).decisions;
    hide Routing.Plan;
    forall i | 0 <= i < |u.tasks|
      ensures Results(run, ds)[i].taskId == u.tasks[i].id
      ensures Routing.ForbiddenMutation(u.tasks[i]) ==>
                Results(run, ds)[i].status.Refused? && Results(run, ds)[i].reason == FromPlan(ControlledWriteNotAllowed)
    {
      ResultAt(run, ds, i);
    }
  }
}
