/** The understanding of a request, the plan made for it, and the vocabulary they share. */
module Domain {
  import opened Sequences

  datatype Route =
    | HistoryDirect | ChatDirect | ReuseEvidence | InternalRag | ToolOnly | RagAndTool | RagAndWeb
    | ClarifyRoute | RefuseRoute

  datatype Intent = Conversation | KnowledgeQuery | Investigation | DataQuery | ActionRequest | ContentTask

  datatype Target =
    | PreviousUserMessage | PreviousAnswer | Sop | Recipe | Fdc | Spc | WaferMap | LotTarget | CaseTarget | Alarm
    | ReportTarget | GeneralTarget

  datatype Action =
    | Recall | Summarize | Simplify | Translate | Lookup | Compare | Diagnose | Explain | ExecuteAction | Generate

  datatype Shape =
    | UnspecifiedShape | DirectShape | ConceptExplanation | EntityLookup | AggregateRanking | EventList | TrendAnalysis
    | CausalInvestigation | ContentTransform | ControlShape

  datatype Decision = Execute | Clarify | Refuse | Defer

  datatype Mode = TaskMode | ConversationMode | FeedbackMode | ControlMode | ClarificationAnswerMode | MixedMode

  datatype KnowledgeScope = UnspecifiedScope | PublicGeneral | InternalControlledScope | MixedScope | NotApplicable

  datatype OperationKind = SetSlot | InheritSlot | CorrectSlot | ClearSlot

  datatype SlotOperation = SlotOperation(kind: OperationKind, slot: string, source: Option<string>)

  datatype CancelScope = CurrentGeneration | CurrentTask | TaskItem | ClarificationScope

  datatype Relation = ContinueCurrent | CancelCurrent | ReplaceWithNewRequest | SideConversation | Ambiguous

  datatype Task = Task(
    id: string, intent: Intent, target: Target, action: Action, shape: Shape, dependsOn: seq<string>, policy: Decision)

  type Slots = map<string, string>

  datatype Understanding = Understanding(
    mode: Mode,
    intent: Intent,
    tasks: seq<Task>,
    scope: KnowledgeScope,
    operations: seq<SlotOperation>,
    explicitSlots: Slots,
    inheritedSlots: Slots,
    contextMessageIds: seq<string>,
    cancelScope: Option<CancelScope>,
    relation: Option<Relation>,
    suggestedRoute: Route,
    confidence: real)

  datatype Reason =
    | TaskAllowed | ControlledWriteNotAllowed | ReportNotEnabled | ProductOutOfScope | ToolOutOfScope
    | DeferredByPolicy | OutsideCapability | FlaggedUnsafe | CombinationDeferred | SlotsMissing | ConfidenceTooLow

  datatype TaskDecision = TaskDecision(taskId: string, decision: Decision, route: Option<Route>, reason: Reason)

  datatype RoutePlan = RoutePlan(
    route: Route, decisions: seq<TaskDecision>, missing: seq<string>, invalidated: set<Reference>)

  /** A piece of the conversation context a plan reports as no longer valid. */
  datatype Reference = SlotReference(name: string) | EvidenceReference(id: string)

  /** A conversation value with its source; `dependsOn` names the slots it is only meaningful with. */
  datatype ContextSlot = ContextSlot(
    value: string, source: string, inherited: bool, dependsOn: set<string>, valid: bool)

  datatype EvidenceRef = EvidenceRef(id: string, valid: bool)

  datatype ActiveContext = ActiveContext(slots: map<string, ContextSlot>, refs: seq<EvidenceRef>)

  datatype ActorScope = ActorScope(products: set<string>, toolIds: set<string>)

  /** `slots.get(name)` is truthy. */
  predicate Has(slots: Slots, name: string) {
    name in slots && slots[name] != ""
  }

  /** `any(slots.get(name) for name in ("product", ...))`. */
  predicate HasAffectedObject(slots: Slots) {
    Has(slots, "product") || Has(slots, "tool_id") || Has(slots, "chamber") || Has(slots, "lot_id")
      || Has(slots, "case_id")
  }

  /** `{**inherited_slots, **explicit_slots}`. */
  function Values(u: Understanding): Slots { u.inheritedSlots + u.explicitSlots }

  predicate IsHistoryTask(task: Task) {
    (task.target.PreviousUserMessage? || task.target.PreviousAnswer?)
    && (task.action.Recall? || task.action.Simplify? || task.action.Summarize? || task.action.Translate?)
  }

  /** The knowledge scope the evidence gate works with. */
  function KnowledgeScopeOf(u: Understanding): KnowledgeScope {
    if exists task :: task in u.tasks && (task.target.Sop? || task.target.Recipe?) then InternalControlledScope
    else if u.scope.UnspecifiedScope? then PublicGeneral
    else u.scope
  }

  /** What a list of clarification questions starts with, wherever one is written. */
  const QUESTIONS_LEAD := "为了准确处理这个问题，我还需要确认：\n"
}
