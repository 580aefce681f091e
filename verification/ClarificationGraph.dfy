/** The conversation graph as a state machine: every run of user turns, with clarification frames switched on. */
module ClarificationGraph {
  import opened Domain
  import opened Sequences
  import opened Clarification
  import opened Routing

  datatype Node =
    | Ingest | Authorize | Classify | Validate
    | PrepareClarification | AskMissing | Resolve | Resume | AnswerSide | PrepareRelation | Pause
    | DirectAnswer | RefuseRequest | Insufficient
    | Prelude | Retrieve | Assess | SearchExternal | BuildLedger | GenerateAnswer | Verify
    | Finalize | Audit | End
    | Failed

  /** The settings, and the pattern tests on the text of a request and of a reply. */
  datatype Config = Config(
    scope: ActorScope, maxRounds: nat, signals: string -> Signals, wording: string -> Wording)

  /** What the environment supplies to one step: a user message, an understanding of it, and the evidence verdict. */
  datatype Input = Input(text: string, understood: Understanding, context: ActiveContext, webFallback: bool)

  datatype State = State(
    node: Node, request: string, response: string, understanding: Understanding, plan: RoutePlan, route: Route,
    round: nat, frame: Option<Frame>, relation: Option<Relation>, resumeOnly: bool, missing: seq<string>,
    errors: set<Reason>, context: ActiveContext, nextId: nat)

  /** The slots a request or an answer gives itself, and those it inherits from the conversation. */
  datatype Given = Given(stated: Slots, inherited: Slots)

  function GivenBy(u: Understanding): Given { Given(u.explicitSlots, u.inheritedSlots) }

  /** Both kinds of slots, overridden by later ones of the same kind. */
  function Overridden(a: Given, b: Given): Given { Given(a.stated + b.stated, a.inherited + b.inherited) }

  const NOTHING_GIVEN := Given(map[], map[])

  /** What an observer of a run records about its frames. */
  datatype Event =
    | OpenedFrame(id: nat, request: string, slots: Given)
    | Asked(id: nat, round: nat)
    | Continued(id: nat, slots: Given, resolved: bool)
    | Resumed(id: nat)
    | LeftOpen(id: nat)
    | Closed(id: nat)

  const NOTHING_UNDERSTOOD := Understanding(
    TaskMode, Conversation, [], UnspecifiedScope, [], map[], map[], [], None, None, ClarifyRoute, 0.0)
  const NO_PLAN := RoutePlan(ClarifyRoute, [], [], {})

  function Start(text: string, context: ActiveContext): State {
    State(Ingest, text, "", NOTHING_UNDERSTOOD, NO_PLAN, ClarifyRoute, 0, None, None, false, [], {}, context, 0)
  }

  // ----- The nodes -----

  /** `_classification_update`. */
  function Classified(cfg: Config, s: State, u: Understanding, request: string): State {
    var plan := Plan(u, cfg.scope, s.context, cfg.signals(request));
    s.(understanding := u, plan := plan, route := plan.route)
  }

  function ScopeErrors(slots: Slots, scope: ActorScope): set<Reason> {
    (if Has(slots, "product") && scope.products != {} && slots["product"] !in scope.products
     then {ProductOutOfScope} else {})
    + if Has(slots, "tool_id") && scope.toolIds != {} && slots["tool_id"] !in scope.toolIds
      then {ToolOutOfScope} else {}
  }

  predicate Active(frame: Option<Frame>) {
    frame.Some? && (frame.value.status.Waiting? || frame.value.status.Paused?)
  }

  /** `_route_after_validation`. */
  function AfterValidation(cfg: Config, s: State): Node {
    if s.errors != {} || s.route.RefuseRoute? then RefuseRequest
    else if s.route.HistoryDirect? || s.route.ChatDirect? then DirectAnswer
    else if s.missing == [] && !s.route.ClarifyRoute? then Prelude
    else if s.round >= cfg.maxRounds then Insufficient
    else PrepareClarification
  }

  /** `_validate_required_fields`, then the edge out of it. */
  function Validated(cfg: Config, s: State): (State, seq<Event>) {
    var checked := s.(errors := s.errors + ScopeErrors(Values(s.understanding), cfg.scope));
    if s.plan.missing == [] && !s.plan.route.ClarifyRoute? then
      var after := checked.(missing := []);
      (after.(node := AfterValidation(cfg, after)), [])
    else
      var existing := if Active(s.frame) then s.frame else None;
      var f := BuiltFrame(s.request, s.understanding, s.plan.missing, existing, s.nextId);
      var after := checked.(frame := Some(f), missing := f.pending,
                            nextId := if existing.None? then s.nextId + 1 else s.nextId);
      (after.(node := AfterValidation(cfg, after)),
       if existing.None? then [OpenedFrame(f.id, f.original, GivenBy(f.base))] else [])
  }

  /** `_clarify_missing_fields`, up to and past its interrupt. */
  function AskedMissing(s: State, input: Input): (State, seq<Event>) {
    var f := if s.frame.Some? then s.frame.value
             else BuiltFrame(s.request, s.understanding, s.missing, None, s.nextId);
    var asked := f.(round := f.round + 1, status := Waiting);
    (s.(node := Resolve, response := input.text, context := input.context, round := asked.round, frame := Some(asked)),
     [Asked(asked.id, asked.round)])
  }

  /**
   * What is still pending after an answer: the plan's missing slots, or a question a bare clarification goes back
   * to.
   */
  function PendingAfter(frame: Frame, plan: RoutePlan): seq<string> {
    if plan.route.ClarifyRoute? && plan.missing == [] then
      if frame.kind.IntentDisambiguation? then [INTENT_TARGET] else frame.pending
    else plan.missing
  }

  /** `_reset_task_state`, as far as the fields of this model go. */
  function ResetTask(s: State, request: string): State {
    s.(request := request, understanding := NOTHING_UNDERSTOOD, plan := NO_PLAN, errors := {}, missing := [],
      resumeOnly := false)
  }

  /** `_route_after_clarification_resolution`. */
  function AfterResolution(s: State): Node {
    if s.resumeOnly then Resume
    else
      match s.relation
      case Some(ContinueCurrent) => Validate
      case Some(ReplaceWithNewRequest) => Validate
      case Some(CancelCurrent) => DirectAnswer
      case Some(SideConversation) => AnswerSide
      case _ => PrepareRelation
  }

  function ContinuedTurn(cfg: Config, s: State, f: Frame, u: Understanding): (State, seq<Event>) {
    var merged := Merged(f, u);
    var updated := Classified(cfg, s, merged, f.original);
    var after := PendingAfter(f, updated.plan);
    match Answered(f, merged, after)
    case None => (s.(node := Failed), [])
    case Some(g) =>
      (updated.(request := f.original, frame := Some(g), relation := Some(ContinueCurrent), resumeOnly := false,
                missing := after, round := g.round),
       [Continued(f.id, GivenBy(u), after == [])])
  }

  /** The understanding of a reply taken as a request of its own. */
  function Renewed(u: Understanding): Understanding {
    u.(mode := if u.intent.Conversation? then ConversationMode else TaskMode, relation := Some(ReplaceWithNewRequest))
  }

  function ReplacedTurn(cfg: Config, s: State, f: Frame, u: Understanding, message: string): (State, seq<Event>) {
    (Classified(cfg, ResetTask(s, message), Renewed(u), message).(
       frame := Some(Turned(f, ReplaceWithNewRequest)), relation := Some(ReplaceWithNewRequest),
       resumeOnly := false, round := 0),
     [Closed(f.id)])
  }

  function LeftTurn(
    cfg: Config, s: State, f: Frame, relation: Relation, u: Understanding, message: string): (State, seq<Event>) {
    var v := u.(relation := Some(relation),
                cancelScope := if relation.CancelCurrent? then Some(ClarificationScope) else u.cancelScope);
    var updated := if relation.CancelCurrent? || relation.SideConversation?
                   then Classified(cfg, ResetTask(s, message), v, message) else s;
    (updated.(frame := Some(Turned(f, relation)), relation := Some(relation), resumeOnly := false, missing := f.pending,
              round := if relation.CancelCurrent? then 0 else f.round),
     [if relation.CancelCurrent? then Closed(f.id) else LeftOpen(f.id)])
  }

  /** `_resolve_clarification_turn`, before the edge out of it. */
  function ResolvedTurn(cfg: Config, s: State, f: Frame, u: Understanding): (State, seq<Event>) {
    var message := Strip(s.response);
    var decision := DecideRelation(f, cfg.wording(message), u);
    match decision.relation
    case ContinueCurrent =>
      if decision.resumeOnly then
        (s.(route := ClarifyRoute, frame := Some(f.(status := Waiting, last := Some(ContinueCurrent))),
            relation := Some(ContinueCurrent), resumeOnly := true, missing := f.pending, round := f.round),
         [Resumed(f.id)])
      else ContinuedTurn(cfg, s, f, u)
    case ReplaceWithNewRequest => ReplacedTurn(cfg, s, f, u, message)
    case relation => LeftTurn(cfg, s, f, relation, u, message)
  }

  function Resolution(cfg: Config, s: State, u: Understanding): (State, seq<Event>) {
    var f := if s.frame.Some? then s.frame.value
             else BuiltFrame(s.request, s.understanding, s.missing, None, s.nextId);
    var (after, events) := ResolvedTurn(cfg, s, f, u);
    (if after.node.Failed? then after else after.(node := AfterResolution(after)), events)
  }

  /** A node that shows a paused or resumed frame and waits: None is the frame the contract model rejects. */
  function Reawaited(s: State, input: Input): State {
    match s.frame
    case None => s.(node := Failed)
    case Some(f) =>
      s.(node := Resolve, response := input.text, context := input.context, resumeOnly := false,
         frame := Some(if s.node.Pause? then f.(status := Waiting) else f))
  }

  function Step(cfg: Config, s: State, input: Input): (State, seq<Event>) {
    match s.node
    case Ingest =>
      (s.(node := Authorize, understanding := NOTHING_UNDERSTOOD, plan := NO_PLAN, route := ClarifyRoute, frame := None,
          relation := None, resumeOnly := false, missing := [], errors := {}), [])
    case Authorize => (s.(node := Classify, errors := {}), [])
    case Classify => (Classified(cfg, s, input.understood, s.request).(node := Validate), [])
    case Validate => Validated(cfg, s)
    case PrepareClarification => (s.(node := AskMissing), [])
    case AskMissing => AskedMissing(s, input)
    case Resolve => Resolution(cfg, s, input.understood)
    case Resume => (Reawaited(s, input), [])
    case Pause => (Reawaited(s, input), [])
    case AnswerSide => (s.(node := Pause), [])
    case PrepareRelation => (s.(node := Pause), [])
    case DirectAnswer => (s.(node := Finalize), [])
    case RefuseRequest => (s.(node := Finalize), [])
    case Insufficient => (s.(node := Finalize), [])
    case Prelude => (s.(node := Retrieve), [])
    case Retrieve => (s.(node := Assess), [])
    case Assess => (s.(node := if input.webFallback then SearchExternal else BuildLedger), [])
    case SearchExternal => (s.(node := BuildLedger), [])
    case BuildLedger => (s.(node := GenerateAnswer), [])
    case GenerateAnswer => (s.(node := Verify), [])
    case Verify => (s.(node := Finalize), [])
    case Finalize => (s.(node := Audit), [])
    case Audit => (s.(node := End), [])
    case End => (s.(node := Ingest, request := input.text, round := 0, context := input.context), [])
    case Failed => (s, [])
  }

  /** A whole run, with everything it recorded. */
  function Run(cfg: Config, s: State, inputs: seq<Input>): (State, seq<Event>) {
    if inputs == [] then (s, [])
    else
      var (before, events) := Run(cfg, s, inputs[..|inputs| - 1]);
      var (after, more) := Step(cfg, before, inputs[|inputs| - 1]);
      (after, events + more)
  }

  // ----- What a record of a run says about one frame -----

  function OpeningOf(events: seq<Event>, id: nat): Option<string> {
    if events == [] then None
    else
      match events[|events| - 1]
      case OpenedFrame(i, request, _) => if i == id then Some(request) else OpeningOf(events[..|events| - 1], id)
      case _ => OpeningOf(events[..|events| - 1], id)
  }

  /** The slots the frame opened with, overridden by each continuing answer in turn; nothing else adds to them. */
  function Collected(events: seq<Event>, id: nat): Given {
    if events == [] then NOTHING_GIVEN
    else
      var before := Collected(events[..|events| - 1], id);
      match events[|events| - 1]
      case OpenedFrame(i, _, slots) => if i == id then slots else before
      case Continued(i, slots, _) => if i == id then Overridden(before, slots) else before
      case _ => before
  }

  /** How often the frame's questions were put as a numbered round. */
  function Asks(events: seq<Event>, id: nat): nat {
    if events == [] then 0
    else
      Asks(events[..|events| - 1], id)
      + match events[|events| - 1] case Asked(i, _) => (if i == id then 1 else 0) case _ => 0
  }

  /** The frame was answered in full, cancelled, or replaced. */
  predicate Ended(events: seq<Event>, id: nat) {
    events != []
    && (Ended(events[..|events| - 1], id)
        || match events[|events| - 1]
           case Continued(i, _, resolved) => i == id && resolved
           case Closed(i) => i == id
           case _ => false)
  }

  /**
   * One event after a record: frames open once, are used only while open, and are asked in numbered rounds up to
   * the limit.
   */
  predicate Allowed(events: seq<Event>, e: Event, maxRounds: nat) {
    match e
    case OpenedFrame(id, _, _) => OpeningOf(events, id).None? && Asks(events, id) == 0 && !Ended(events, id)
    case Asked(id, n) =>
      OpeningOf(events, id).Some? && !Ended(events, id) && n == Asks(events, id) + 1 && n <= maxRounds
    case _ => OpeningOf(events, e.id).Some? && !Ended(events, e.id) && Asks(events, e.id) >= 1
  }

  predicate Lawful(events: seq<Event>, maxRounds: nat) {
    events == []
    || (Lawful(events[..|events| - 1], maxRounds) && Allowed(events[..|events| - 1], events[|events| - 1], maxRounds))
  }

  // ----- The invariant -----

  predicate FrameFits(f: Frame, maxRounds: nat) {
    |f.pending| <= 3 && Distinct(f.pending) && (forall key :: key in f.pending ==> key in PROMPTED)
    && Distinct(ItemKeys(f.resolved)) && (forall key :: key in ItemKeys(f.resolved) ==> key in PROMPTED)
    && f.round <= maxRounds && f.noProgress <= 3
  }

  /** The record agrees with the frame the state holds. */
  predicate Recorded(f: Frame, events: seq<Event>) {
    OpeningOf(events, f.id) == Some(f.original) && Collected(events, f.id) == GivenBy(f.base)
    && Asks(events, f.id) == f.round && (Ended(events, f.id) <==> Terminal(f.status))
  }

  predicate PlanFits(plan: RoutePlan) {
    (plan.missing != [] ==> plan.route.ClarifyRoute?) && |plan.missing| <= 3 && Distinct(plan.missing)
    && forall key :: key in plan.missing ==> key in SLOT_KEYS
  }

  predicate Open(s: State, status: Status) {
    s.frame.Some? && s.frame.value.status == status && s.frame.value.pending != [] && s.round == s.frame.value.round
  }

  /** Nothing is missing, nothing is forbidden, and no clarification is open. */
  predicate Ready(s: State) {
    s.plan.missing == [] && s.errors == {} && !Active(s.frame)
    && s.plan.route in {ReuseEvidence, InternalRag, ToolOnly, RagAndTool, RagAndWeb}
  }

  /** What holds on arrival at each node. */
  predicate Arrived(cfg: Config, s: State) {
    match s.node
    case Ingest => s.round == 0
    case Authorize => s.round == 0 && s.frame.None?
    case Classify => s.round == 0 && s.frame.None?
    case Validate =>
      PlanFits(s.plan) && s.route == s.plan.route
      && (Active(s.frame) ==> s.plan.route.ClarifyRoute? && s.round == s.frame.value.round && s.round >= 1)
      && (!Active(s.frame) && s.plan.route.ClarifyRoute? ==> s.round == 0)
    case PrepareClarification => Open(s, Waiting) && s.round < cfg.maxRounds
    case AskMissing => Open(s, Waiting) && s.round < cfg.maxRounds
    case Resolve => Open(s, Waiting) && s.round >= 1
    case Resume => Open(s, Waiting) && s.round >= 1
    case AnswerSide => Open(s, Paused) && s.round >= 1
    case PrepareRelation => Open(s, Paused) && s.round >= 1
    case Pause => Open(s, Paused) && s.round >= 1
    case Insufficient => Open(s, Waiting) && s.round == cfg.maxRounds
    case Prelude => Ready(s)
    case Retrieve => Ready(s)
    case Assess => Ready(s)
    case SearchExternal => Ready(s)
    case BuildLedger => Ready(s)
    case GenerateAnswer => Ready(s)
    case Verify => Ready(s)
    case _ => true
  }

  /** Every frame ever recorded has an identifier below the next one. */
  predicate Numbered(events: seq<Event>, nextId: nat) {
    forall e :: e in events ==> e.id < nextId
  }

  predicate Inv(cfg: Config, s: State, events: seq<Event>) {
    Lawful(events, cfg.maxRounds) && Numbered(events, s.nextId) && Arrived(cfg, s)
    && (s.frame.Some? ==> FrameFits(s.frame.value, cfg.maxRounds) && Recorded(s.frame.value, events))
  }

  // ----- One event at a time -----

  lemma OneMore(events: seq<Event>, e: Event, id: nat)
    ensures OpeningOf(events + [e], id)
         == if e.OpenedFrame? && e.id == id then Some(e.request) else OpeningOf(events, id)
    ensures Asks(events + [e], id) == Asks(events, id) + if e.Asked? && e.id == id then 1 else 0
    ensures Ended(events + [e], id)
        <==> Ended(events, id) || (e.id == id && (e.Closed? || (e.Continued? && e.resolved)))
    ensures Collected(events + [e], id)
         == if e.id != id then Collected(events, id)
            else if e.OpenedFrame? then e.slots
            else if e.Continued? then Overridden(Collected(events, id), e.slots) else Collected(events, id)
  {
    assert (events + [e])[..|events|] == events;
  }

  lemma LawfulMore(events: seq<Event>, e: Event, maxRounds: nat)
    requires Lawful(events, maxRounds) && Allowed(events, e, maxRounds)
    ensures Lawful(events + [e], maxRounds)
  {
    assert (events + [e])[..|events|] == events;
  }

  lemma NumberedMore(events: seq<Event>, e: Event, nextId: nat, later: nat)
    requires Numbered(events, nextId) && nextId <= later && e.id < later
    ensures Numbered(events + [e], later)
  {}

  /** A frame identifier that was never handed out has no history. */
  lemma {:induction false} UnusedId(events: seq<Event>, nextId: nat, id: nat)
    requires Numbered(events, nextId) && id >= nextId
    ensures OpeningOf(events, id).None? && Asks(events, id) == 0 && !Ended(events, id)
    ensures Collected(events, id) == NOTHING_GIVEN
  {
    if events != [] {
      var init, e := events[..|events| - 1], events[|events| - 1];
      assert e in events;
      UnusedId(init, nextId, id);
      OneMore(init, e, id);
      assert events == init + [e];
    }
  }

  lemma PlansFit(cfg: Config, s: State, u: Understanding, request: string)
    ensures PlanFits(Classified(cfg, s, u, request).plan)
  {
    MissingSlotsMeanClarify(u, cfg.scope, s.context, cfg.signals(request));
    hide Plan;
  }

  // ----- Every step keeps the invariant -----

  lemma ValidatedKeeps(cfg: Config, s: State, events: seq<Event>)
    requires Inv(cfg, s, events) && s.node.Validate? && cfg.maxRounds >= 1
    ensures var (t, more) := Validated(cfg, s); Inv(cfg, t, events + more)
  {
    hide Lawful, Collected, Asks, Ended, OpeningOf, Distinct, BuiltFrame, Map, ScopeErrors;
    var (t, more) := Validated(cfg, s);
    if s.plan.missing == [] && !s.plan.route.ClarifyRoute? {
      assert events + more == events;
    } else {
      var existing := if Active(s.frame) then s.frame else None;
      BuiltFrameAsks(s.request, s.understanding, s.plan.missing, existing, s.nextId);
      var f := t.frame.value;
      assert f == BuiltFrame(s.request, s.understanding, s.plan.missing, existing, s.nextId);
      BuiltFrameKnows(s.request, s.understanding, s.plan.missing, existing, s.nextId);
      if existing.None? {
        var e := OpenedFrame(f.id, f.original, GivenBy(f.base));
        assert more == [e];
        UnusedId(events, s.nextId, f.id);
        OneMore(events, e, f.id);
        LawfulMore(events, e, cfg.maxRounds);
        NumberedMore(events, e, s.nextId, t.nextId);
      } else {
        assert events + more == events;
      }
    }
  }

  lemma BuiltFrameKnows(request: string, u: Understanding, missing: seq<string>, existing: Option<Frame>, freshId: nat)
    ensures var f := BuiltFrame(request, u, missing, existing, freshId);
            f.noProgress == (if existing.Some? then existing.value.noProgress else 0)
            && (existing.None? ==> f.id == freshId && f.original == request && f.base == u && f.resolved == []
                                   && f.round == 0 && ItemKeys(f.resolved) == [] && Distinct(ItemKeys(f.resolved)))
  {}

  lemma AskedKeeps(cfg: Config, s: State, input: Input, events: seq<Event>)
    requires Inv(cfg, s, events) && s.node.AskMissing?
    ensures var (t, more) := AskedMissing(s, input); Inv(cfg, t, events + more)
  {
    hide Lawful, Collected, Asks, Ended, OpeningOf, Distinct, BuiltFrame, Map;
    var (t, more) := AskedMissing(s, input);
    var f := s.frame.value;
    OneMore(events, Asked(f.id, f.round + 1), f.id);
    LawfulMore(events, Asked(f.id, f.round + 1), cfg.maxRounds);
    OpenedIdIsOld(events, s.nextId, f.id);
    NumberedMore(events, Asked(f.id, f.round + 1), s.nextId, s.nextId);
  }

  lemma OpenedIdIsOld(events: seq<Event>, nextId: nat, id: nat)
    requires Numbered(events, nextId) && OpeningOf(events, id).Some?
    ensures id < nextId
  {
    if id >= nextId {
      UnusedId(events, nextId, id);
      assert false;
    }
  }

  /** What an answer leaves pending is known, and is nothing exactly when the request is complete. */
  lemma PendingAfterFits(f: Frame, plan: RoutePlan, maxRounds: nat)
    requires PlanFits(plan) && FrameFits(f, maxRounds) && f.pending != []
    ensures PendingAfter(f, plan) == [] <==> !plan.route.ClarifyRoute?
  {
    hide Distinct, Map;
  }

  lemma AnsweredFits(f: Frame, u: Understanding, after: seq<string>, maxRounds: nat)
    requires FrameFits(f, maxRounds) && Answered(f, u, after).Some?
    ensures var g := Answered(f, u, after).value;
            FrameFits(g, maxRounds) && g.id == f.id && g.original == f.original && g.round == f.round && g.base == u
            && g.status == if after == [] then Resolved else Waiting
  {
    hide Distinct, ItemKeys, Settled, Without, ResolvedValue, FitsItem;
    AnswersAccountForEveryItem(f, u, after);
    FilterKeepsDistinct((key: string) => key in after, f.pending);
    assert Answered(f, u, after).value.pending == Within(f.pending, after);
    hide Filter;
  }

  lemma ContinuedKeeps(cfg: Config, s: State, f: Frame, u: Understanding, events: seq<Event>)
    requires Inv(cfg, s, events) && s.node.Resolve? && s.frame == Some(f)
    ensures var (t, more) := ContinuedTurn(cfg, s, f, u);
            Inv(cfg, if t.node.Failed? then t else t.(node := AfterResolution(t)), events + more)
  {
    hide Lawful, Collected, Asks, Ended, OpeningOf, Distinct, Answered, Map, Plan, FrameFits;
    var merged := Merged(f, u);
    var updated := Classified(cfg, s, merged, f.original);
    var after := PendingAfter(f, updated.plan);
    PlansFit(cfg, s, merged, f.original);
    PendingAfterFits(f, updated.plan, cfg.maxRounds);
    hide PendingAfter;
    var (t, more) := ContinuedTurn(cfg, s, f, u);
    match Answered(f, merged, after)
    case None =>
      assert events + more == events;
    case Some(g) =>
      AnsweredFits(f, merged, after, cfg.maxRounds);
      var e := Continued(f.id, GivenBy(u), after == []);
      OneMore(events, e, f.id);
      LawfulMore(events, e, cfg.maxRounds);
      OpenedIdIsOld(events, s.nextId, f.id);
      NumberedMore(events, e, s.nextId, s.nextId);
      assert GivenBy(merged) == Overridden(GivenBy(f.base), GivenBy(u));
  }

  lemma ReplacedKeeps(cfg: Config, s: State, f: Frame, u: Understanding, message: string, events: seq<Event>)
    requires Inv(cfg, s, events) && s.node.Resolve? && s.frame == Some(f)
    ensures var (t, more) := ReplacedTurn(cfg, s, f, u, message);
            Inv(cfg, t.(node := AfterResolution(t)), events + more)
  {
    hide Lawful, Collected, Asks, Ended, OpeningOf, Distinct, Map, Plan;
    PlansFit(cfg, ResetTask(s, message), Renewed(u), message);
    OneMore(events, Closed(f.id), f.id);
    LawfulMore(events, Closed(f.id), cfg.maxRounds);
    OpenedIdIsOld(events, s.nextId, f.id);
    NumberedMore(events, Closed(f.id), s.nextId, s.nextId);
  }

  lemma LeftKeeps(
    cfg: Config, s: State, f: Frame, relation: Relation, u: Understanding, message: string, events: seq<Event>)
    requires Inv(cfg, s, events) && s.node.Resolve? && s.frame == Some(f)
    requires relation in {CancelCurrent, SideConversation, Ambiguous}
    ensures var (t, more) := LeftTurn(cfg, s, f, relation, u, message);
            Inv(cfg, t.(node := AfterResolution(t)), events + more)
  {
    hide Lawful, Collected, Asks, Ended, OpeningOf, Distinct, Map, Plan;
    var e := if relation.CancelCurrent? then Closed(f.id) else LeftOpen(f.id);
    OneMore(events, e, f.id);
    LawfulMore(events, e, cfg.maxRounds);
    OpenedIdIsOld(events, s.nextId, f.id);
    NumberedMore(events, e, s.nextId, s.nextId);
  }

  lemma ResumedKeeps(cfg: Config, s: State, f: Frame, events: seq<Event>)
    requires Inv(cfg, s, events) && s.node.Resolve? && s.frame == Some(f)
    ensures var t := s.(route := ClarifyRoute, frame := Some(f.(status := Waiting, last := Some(ContinueCurrent))),
                        relation := Some(ContinueCurrent), resumeOnly := true, missing := f.pending, round := f.round);
            Inv(cfg, t.(node := AfterResolution(t)), events + [Resumed(f.id)])
  {
    hide Lawful, Collected, Asks, Ended, OpeningOf, Distinct, Map, Numbered;
    OneMore(events, Resumed(f.id), f.id);
    LawfulMore(events, Resumed(f.id), cfg.maxRounds);
    OpenedIdIsOld(events, s.nextId, f.id);
    NumberedMore(events, Resumed(f.id), s.nextId, s.nextId);
  }

  lemma ResolvingMeetsAFrame(cfg: Config, s: State, events: seq<Event>)
    requires Inv(cfg, s, events) && s.node.Resolve?
    ensures s.frame.Some?
  {}

  lemma ResolutionKeeps(cfg: Config, s: State, u: Understanding, events: seq<Event>)
    requires Inv(cfg, s, events) && s.node.Resolve?
    ensures var (t, more) := Resolution(cfg, s, u); Inv(cfg, t, events + more)
  {
    hide Inv, DecideRelation, ContinuedTurn, ReplacedTurn, LeftTurn, Classified, AfterResolution, Strip;
    ResolvingMeetsAFrame(cfg, s, events);
    var f, message := s.frame.value, Strip(s.response);
    var decision := DecideRelation(f, cfg.wording(message), u);
    match decision.relation
    case ContinueCurrent =>
      if decision.resumeOnly {
        ResumedKeeps(cfg, s, f, events);
      } else {
        ContinuedKeeps(cfg, s, f, u, events);
      }
    case ReplaceWithNewRequest =>
      ReplacedKeeps(cfg, s, f, u, message, events);
      ReplacementGoesOn(cfg, s, f, u, message);
    case relation =>
      LeftKeeps(cfg, s, f, relation, u, message, events);
      LeavingGoesOn(cfg, s, f, relation, u, message);
  }

  lemma ReplacementGoesOn(cfg: Config, s: State, f: Frame, u: Understanding, message: string)
    ensures ReplacedTurn(cfg, s, f, u, message).0.node == s.node
  {}

  lemma LeavingGoesOn(cfg: Config, s: State, f: Frame, relation: Relation, u: Understanding, message: string)
    ensures LeftTurn(cfg, s, f, relation, u, message).0.node == s.node
  {}

  /** Every step from an invariant state, whatever the user, the model and retrieval do, keeps the invariant. */
  lemma StepKeeps(cfg: Config, s: State, input: Input, events: seq<Event>)
    requires Inv(cfg, s, events) && cfg.maxRounds >= 1
    ensures var (t, more) := Step(cfg, s, input); Inv(cfg, t, events + more)
  {
    hide Inv, Validated, AskedMissing, Resolution, Classified, Reawaited;
    assert events + [] == events;
    match s.node
    case Validate => ValidatedKeeps(cfg, s, events);
    case AskMissing => AskedKeeps(cfg, s, input, events);
    case Resolve => ResolutionKeeps(cfg, s, input.understood, events);
    case Classify => ClassifiedKeeps(cfg, s, input.understood, events);
    case Resume => ReawaitedKeeps(cfg, s, input, events);
    case Pause => ReawaitedKeeps(cfg, s, input, events);
    case Ingest => RestartKeeps(cfg, s, input, events);
    case End => RestartKeeps(cfg, s, input, events);
    case _ => PassingKeeps(cfg, s, input, events);
  }

  lemma ReawaitedKeeps(cfg: Config, s: State, input: Input, events: seq<Event>)
    requires Inv(cfg, s, events) && (s.node.Resume? || s.node.Pause?)
    ensures Inv(cfg, Reawaited(s, input), events)
  {
    hide Lawful, Collected, Asks, Ended, OpeningOf, Distinct, Map, Numbered;
  }

  lemma RestartKeeps(cfg: Config, s: State, input: Input, events: seq<Event>)
    requires Inv(cfg, s, events) && (s.node.Ingest? || s.node.End?)
    ensures Inv(cfg, Step(cfg, s, input).0, events)
  {
    hide Lawful, FrameFits, Recorded, Numbered;
  }

  lemma PassingKeeps(cfg: Config, s: State, input: Input, events: seq<Event>)
    requires Inv(cfg, s, events) && (PassesOpen(s.node) || GathersEvidence(s.node) || PassesDone(s.node))
    ensures Inv(cfg, Step(cfg, s, input).0, events)
  {
    hide Lawful, FrameFits, Recorded, Numbered, Arrived, Step;
    if PassesOpen(s.node) {
      OpenPasses(cfg, s, input);
    } else if GathersEvidence(s.node) {
      GatheringPasses(cfg, s, input);
    } else {
      DonePasses(cfg, s, input);
    }
  }

  predicate PassesOpen(node: Node) {
    node.Authorize? || node.PrepareClarification? || node.AnswerSide? || node.PrepareRelation?
  }

  predicate PassesDone(node: Node) {
    node.DirectAnswer? || node.RefuseRequest? || node.Insufficient? || node.Finalize? || node.Audit? || node.Failed?
  }

  lemma OpenPasses(cfg: Config, s: State, input: Input)
    requires Arrived(cfg, s) && PassesOpen(s.node)
    ensures var t := Step(cfg, s, input).0; Arrived(cfg, t) && t.frame == s.frame && t.nextId == s.nextId
  {}

  lemma GatheringPasses(cfg: Config, s: State, input: Input)
    requires Arrived(cfg, s) && GathersEvidence(s.node)
    ensures var t := Step(cfg, s, input).0; Arrived(cfg, t) && t.frame == s.frame && t.nextId == s.nextId
  {
    hide Ready;
    ReadyAnywhere(s, Step(cfg, s, input).0);
  }

  lemma DonePasses(cfg: Config, s: State, input: Input)
    requires PassesDone(s.node)
    ensures var t := Step(cfg, s, input).0; Arrived(cfg, t) && t.frame == s.frame && t.nextId == s.nextId
  {}

  lemma ReadyAnywhere(s: State, t: State)
    requires t.plan == s.plan && t.frame == s.frame && t.errors == s.errors
    ensures Ready(s) ==> Ready(t)
  {}

  lemma ClassifiedKeeps(cfg: Config, s: State, u: Understanding, events: seq<Event>)
    requires Inv(cfg, s, events) && s.node.Classify?
    ensures Inv(cfg, Classified(cfg, s, u, s.request).(node := Validate), events)
  {
    PlansFit(cfg, s, u, s.request);
    hide Plan, PlanFits, FrameFits, Recorded, Numbered, Lawful;
  }

  lemma {:induction false} RunKeeps(cfg: Config, s: State, inputs: seq<Input>)
    requires Inv(cfg, s, []) && cfg.maxRounds >= 1
    ensures var (t, events) := Run(cfg, s, inputs); Inv(cfg, t, events)
  {
    hide Inv, Step;
    if inputs != [] {
      var (before, events) := Run(cfg, s, inputs[..|inputs| - 1]);
      RunKeeps(cfg, s, inputs[..|inputs| - 1]);
      StepKeeps(cfg, before, inputs[|inputs| - 1], events);
    }
  }

  // ----- What every run promises -----

  lemma StartsWell(cfg: Config, text: string, context: ActiveContext)
    ensures Inv(cfg, Start(text, context), [])
  {}

  /**
   * Whenever a reply is resolved, its frame is waiting with one to three different open questions, and the round
   * shown to the user is the number of times that frame was asked, never above the configured maximum.
   */
  lemma RepliesMeetAnOpenQuestion(cfg: Config, text: string, context: ActiveContext, inputs: seq<Input>)
    requires cfg.maxRounds >= 1
    ensures var (s, events) := Run(cfg, Start(text, context), inputs);
            s.node.Resolve? ==>
              s.frame.Some? && s.frame.value.status.Waiting?
              && 1 <= |s.frame.value.pending| <= 3 && Distinct(s.frame.value.pending)
              && s.round == s.frame.value.round == Asks(events, s.frame.value.id) && 1 <= s.round <= cfg.maxRounds
              && !Ended(events, s.frame.value.id)
  {
    StartsWell(cfg, text, context);
    RunKeeps(cfg, Start(text, context), inputs);
    hide Run, Lawful, Asks, Ended, OpeningOf, Collected, Distinct, Map;
  }

  /** Every record of a run is lawful, and the frame in hand agrees with it and fits its contract model. */
  lemma RunsAreLawful(cfg: Config, text: string, context: ActiveContext, inputs: seq<Input>)
    requires cfg.maxRounds >= 1
    ensures var (s, events) := Run(cfg, Start(text, context), inputs);
            Lawful(events, cfg.maxRounds)
            && (s.frame.Some? ==> Recorded(s.frame.value, events) && FrameFits(s.frame.value, cfg.maxRounds)
                                  && |s.frame.value.resolved| <= 12)
  {
    StartsWell(cfg, text, context);
    RunKeeps(cfg, Start(text, context), inputs);
    hide Run, Lawful, Recorded, FrameFits;
    var (s, events) := Run(cfg, Start(text, context), inputs);
    if s.frame.Some? {
      FewItems(s.frame.value, cfg.maxRounds);
    }
  }

  lemma FewItems(f: Frame, maxRounds: nat)
    requires FrameFits(f, maxRounds)
    ensures |f.resolved| <= 12
  {
    hide Map;
    DistinctWithin(ItemKeys(f.resolved), PROMPTED);
  }

  lemma {:induction false} DistinctWithin(s: seq<string>, keys: set<string>)
    requires Distinct(s) && forall x :: x in s ==> x in keys
    ensures |s| <= |keys|
  {
    if s != [] {
      var init, x := s[..|s| - 1], s[|s| - 1];
      assert s == init + [x];
      assert x !in init;
      DistinctWithin(init, keys - {x});
    }
  }

  /** The answer for insufficient information comes only after every allowed round of the open frame was asked. */
  lemma GivingUpMeansEveryRoundWasAsked(cfg: Config, text: string, context: ActiveContext, inputs: seq<Input>)
    requires cfg.maxRounds >= 1
    ensures var (s, events) := Run(cfg, Start(text, context), inputs);
            s.node.Insufficient? ==>
              s.frame.Some? && s.frame.value.pending != [] && !Ended(events, s.frame.value.id)
              && Asks(events, s.frame.value.id) == cfg.maxRounds
  {
    StartsWell(cfg, text, context);
    RunKeeps(cfg, Start(text, context), inputs);
    hide Run, Lawful, Asks, Ended, OpeningOf, Collected, Distinct, Map;
  }

  predicate GathersEvidence(node: Node) {
    node.Prelude? || node.Retrieve? || node.Assess? || node.SearchExternal? || node.BuildLedger?
    || node.GenerateAnswer? || node.Verify?
  }

  /** Evidence is gathered only for an authorised plan with nothing missing, and never while a clarification is open. */
  lemma EvidenceWaitsForClarification(cfg: Config, text: string, context: ActiveContext, inputs: seq<Input>)
    requires cfg.maxRounds >= 1
    ensures var (s, events) := Run(cfg, Start(text, context), inputs);
            GathersEvidence(s.node) ==> Ready(s) && (s.frame.Some? ==> Ended(events, s.frame.value.id))
  {
    StartsWell(cfg, text, context);
    RunKeeps(cfg, Start(text, context), inputs);
    hide Run, Start, Lawful, Asks, Ended, OpeningOf, Collected, Numbered, FrameFits, ItemKeys;
    var (s, events) := Run(cfg, Start(text, context), inputs);
    if GathersEvidence(s.node) {
      GatheringIsReady(cfg, s);
    }
  }

  lemma GatheringIsReady(cfg: Config, s: State)
    requires Arrived(cfg, s) && GathersEvidence(s.node)
    ensures Ready(s)
  {}

  // ----- One frame over a stretch of a run -----

  /** The slots given by the continuing answers to one frame, each overriding those before it. */
  function AnswersTo(events: seq<Event>, id: nat): Given {
    if events == [] then NOTHING_GIVEN
    else
      var before, e := AnswersTo(events[..|events| - 1], id), events[|events| - 1];
      if e.Continued? && e.id == id then Overridden(before, e.slots) else before
  }

  lemma AnswersMore(events: seq<Event>, e: Event, id: nat)
    ensures AnswersTo(events + [e], id)
         == if e.Continued? && e.id == id then Overridden(AnswersTo(events, id), e.slots) else AnswersTo(events, id)
  {
    assert (events + [e])[..|events|] == events;
  }

  lemma AllowedLast(events: seq<Event>, e: Event, maxRounds: nat)
    requires Lawful(events + [e], maxRounds)
    ensures Lawful(events, maxRounds) && Allowed(events, e, maxRounds)
  {
    assert (events + [e])[..|events|] == events;
  }

  lemma OpenedOnce(events: seq<Event>, e: Event, maxRounds: nat)
    requires Allowed(events, e, maxRounds) && e.OpenedFrame?
    ensures OpeningOf(events, e.id).None?
  {}

  lemma OverriddenByNothing(a: Given, b: Given, c: Given)
    ensures Overridden(a, NOTHING_GIVEN) == a && Overridden(Overridden(a, b), c) == Overridden(a, Overridden(b, c))
  {
    SlotsOver(a.stated, b.stated, c.stated);
    SlotsOver(a.inherited, b.inherited, c.inherited);
  }

  lemma SlotsOver(a: Slots, b: Slots, c: Slots)
    ensures a + map[] == a && (a + b) + c == a + (b + c)
  {}

  lemma {:induction false} LaterEvents(first: seq<Event>, later: seq<Event>, id: nat, maxRounds: nat)
    requires Lawful(first + later, maxRounds) && OpeningOf(first, id).Some?
    ensures OpeningOf(first + later, id) == OpeningOf(first, id)
    ensures Collected(first + later, id) == Overridden(Collected(first, id), AnswersTo(later, id))
  {
    assert AnswersTo([], id) == NOTHING_GIVEN;
    hide Collected, OpeningOf, Asks, Ended, Lawful, AnswersTo, Allowed, Overridden, NOTHING_GIVEN;
    if later == [] {
      assert first + later == first;
      OverriddenByNothing(Collected(first, id), NOTHING_GIVEN, NOTHING_GIVEN);
    } else {
      var init, e := later[..|later| - 1], later[|later| - 1];
      assert later == init + [e] && first + later == first + init + [e];
      AllowedLast(first + init, e, maxRounds);
      LaterEvents(first, init, id, maxRounds);
      if e.OpenedFrame? {
        OpenedOnce(first + init, e, maxRounds);
      }
      OneMore(first + init, e, id);
      AnswersMore(init, e, id);
      if e.Continued? {
        OverriddenByNothing(Collected(first, id), AnswersTo(init, id), e.slots);
      }
    }
  }

  lemma {:induction false} RunOn(cfg: Config, s: State, first: seq<Input>, later: seq<Input>)
    ensures var (t, events) := Run(cfg, s, first);
            var (v, more) := Run(cfg, t, later);
            Run(cfg, s, first + later) == (v, events + more)
  {
    hide Step;
    var (t, events) := Run(cfg, s, first);
    if later == [] {
      assert first + later == first;
      assert events + [] == events;
    } else {
      assert (first + later)[..|first + later| - 1] == first + later[..|later| - 1];
      RunOn(cfg, s, first, later[..|later| - 1]);
      var (before, more) := Run(cfg, t, later[..|later| - 1]);
      var (after, last) := Step(cfg, before, later[|later| - 1]);
      assert events + more + last == events + (more + last);
    }
  }

  /** `g` is `f` later on: the same frame for the same request, no earlier a round, with nothing resolved undone. */
  predicate CarriesOn(f: Frame, g: Frame) {
    g.id == f.id && g.original == f.original && f.round <= g.round
    && forall key :: key in ItemKeys(f.resolved) ==> key in ItemKeys(g.resolved)
  }

  lemma CarriesOnAndOn(f: Frame, g: Frame, h: Frame)
    requires CarriesOn(f, g) && CarriesOn(g, h)
    ensures CarriesOn(f, h)
  {}

  lemma {:induction false} EndedForGood(events: seq<Event>, more: seq<Event>, id: nat)
    requires Ended(events, id)
    ensures Ended(events + more, id)
  {
    if more == [] {
      assert events + more == events;
    } else {
      var init, e := more[..|more| - 1], more[|more| - 1];
      EndedForGood(events, init, id);
      OneMore(events + init, e, id);
      assert events + more == events + init + [e];
    }
  }

  lemma ContinuedCarriesOn(cfg: Config, s: State, f: Frame, u: Understanding, events: seq<Event>)
    requires Inv(cfg, s, events) && s.node.Resolve? && s.frame == Some(f)
    ensures var t := ContinuedTurn(cfg, s, f, u).0; t.frame.Some? && CarriesOn(f, t.frame.value)
  {
    hide Lawful, Collected, Asks, Ended, OpeningOf, Map, Plan, PendingAfter, Answered, ResolvedValue, FitsItem;
    var merged := Merged(f, u);
    var after := PendingAfter(f, Classified(cfg, s, merged, f.original).plan);
    if Answered(f, merged, after).Some? {
      AnsweredFits(f, merged, after, cfg.maxRounds);
      AnswersAccountForEveryItem(f, merged, after);
    }
  }

  lemma LeavingCarriesOn(cfg: Config, s: State, f: Frame, relation: Relation, u: Understanding, message: string)
    ensures var t := ReplacedTurn(cfg, s, f, u, message).0; t.frame.Some? && CarriesOn(f, t.frame.value)
    ensures var t := LeftTurn(cfg, s, f, relation, u, message).0; t.frame.Some? && CarriesOn(f, t.frame.value)
  {
    hide Classified, ItemKeys;
  }

  /** The edge out of the node changes nothing but the node. */
  lemma ResolutionIsTurn(cfg: Config, s: State, f: Frame, u: Understanding)
    requires s.frame == Some(f)
    ensures var (t, more) := ResolvedTurn(cfg, s, f, u);
            var after := if t.node.Failed? then t.node else AfterResolution(t);
            Resolution(cfg, s, u) == (t.(node := after), more)
  {
    hide ResolvedTurn, AfterResolution, BuiltFrame;
  }

  lemma TurnCarriesOn(cfg: Config, s: State, f: Frame, u: Understanding, events: seq<Event>)
    requires Inv(cfg, s, events) && s.node.Resolve? && s.frame == Some(f)
    ensures var t := ResolvedTurn(cfg, s, f, u).0; t.frame.Some? && CarriesOn(f, t.frame.value)
  {
    hide Inv, DecideRelation, ContinuedTurn, ReplacedTurn, LeftTurn, Strip, CarriesOn;
    var message := Strip(s.response);
    var decision := DecideRelation(f, cfg.wording(message), u);
    match decision.relation
    case ContinueCurrent =>
      if decision.resumeOnly {
        ResumedCarriesOn(f);
      } else {
        ContinuedCarriesOn(cfg, s, f, u, events);
      }
    case relation => LeavingCarriesOn(cfg, s, f, relation, u, message);
  }

  lemma ResolutionCarriesOn(cfg: Config, s: State, u: Understanding, events: seq<Event>)
    requires Inv(cfg, s, events) && s.node.Resolve?
    ensures s.frame.Some? && Resolution(cfg, s, u).0.frame.Some?
    ensures CarriesOn(s.frame.value, Resolution(cfg, s, u).0.frame.value)
  {
    hide *;
    ResolvingMeetsAFrame(cfg, s, events);
    ResolutionIsTurn(cfg, s, s.frame.value, u);
    TurnCarriesOn(cfg, s, s.frame.value, u, events);
  }

  lemma ResumedCarriesOn(f: Frame)
    ensures CarriesOn(f, f.(status := Waiting, last := Some(ContinueCurrent)))
  {
    hide ItemKeys;
  }

  lemma ClassifiedKeepsFrame(cfg: Config, s: State, u: Understanding, request: string)
    ensures Classified(cfg, s, u, request).frame == s.frame
  {
    hide Plan;
  }

  lemma ValidatedCarriesOn(cfg: Config, s: State, events: seq<Event>)
    requires Inv(cfg, s, events) && s.node.Validate? && Active(s.frame)
    ensures var t := Validated(cfg, s).0; t.frame.Some? && CarriesOn(s.frame.value, t.frame.value)
  {
    hide Inv, BuiltFrame, ScopeErrors, AfterValidation, ItemKeys;
    BuiltFrameAsks(s.request, s.understanding, s.plan.missing, s.frame, s.nextId);
  }

  /** No step but the one that takes up a new request lets go of an active frame. */
  lemma StepCarriesOn(cfg: Config, s: State, input: Input, events: seq<Event>)
    requires Inv(cfg, s, events) && Active(s.frame) && !s.node.Ingest?
    ensures var t := Step(cfg, s, input).0; t.frame.Some? && CarriesOn(s.frame.value, t.frame.value)
  {
    hide Inv, Validated, Resolution, Classified, ItemKeys;
    match s.node
    case Validate => ValidatedCarriesOn(cfg, s, events);
    case Resolve => ResolutionCarriesOn(cfg, s, input.understood, events);
    case Classify => ClassifiedKeepsFrame(cfg, s, input.understood, s.request);
    case _ =>
  }

  lemma ActiveUntilEnded(cfg: Config, s: State, events: seq<Event>)
    requires Inv(cfg, s, events) && s.frame.Some?
    ensures Active(s.frame) <==> !Ended(events, s.frame.value.id)
  {
    hide Lawful, Collected, Asks, Ended, OpeningOf, FrameFits, Arrived, Numbered;
  }

  /** No step of the stretch takes up a new request. */
  predicate NoNewRequest(cfg: Config, s: State, later: seq<Input>) {
    later == []
    || (NoNewRequest(cfg, s, later[..|later| - 1]) && !Run(cfg, s, later[..|later| - 1]).0.node.Ingest?)
  }

  /**
   * Over any stretch of continue, side, ambiguous and resume turns, an open frame stays in hand until it is answered
   * in full, cancelled or replaced: no other frame takes its place, its rounds are not counted again, and nothing
   * it resolved is dropped.
   */
  lemma {:induction false} FrameStays(cfg: Config, s: State, events: seq<Event>, later: seq<Input>)
    requires Inv(cfg, s, events) && cfg.maxRounds >= 1 && Active(s.frame) && NoNewRequest(cfg, s, later)
    ensures var (t, more) := Run(cfg, s, later);
            Inv(cfg, t, events + more)
            && (!Ended(events + more, s.frame.value.id) ==>
                  Active(t.frame) && CarriesOn(s.frame.value, t.frame.value))
  {
    hide Inv, Step, CarriesOn, Ended;
    if later == [] {
      assert events + [] == events;
      CarriesOnFromHere(s.frame.value);
    } else {
      var init, input := later[..|later| - 1], later[|later| - 1];
      var (u, before) := Run(cfg, s, init);
      FrameStays(cfg, s, events, init);
      var (t, last) := Step(cfg, u, input);
      assert events + (before + last) == events + before + last;
      StepKeeps(cfg, u, input, events + before);
      if !Ended(events + (before + last), s.frame.value.id) {
        if Ended(events + before, s.frame.value.id) {
          EndedForGood(events + before, last, s.frame.value.id);
        }
        StepCarriesOn(cfg, u, input, events + before);
        CarriesOnAndOn(s.frame.value, u.frame.value, t.frame.value);
        SameFrame(s.frame.value, t.frame.value);
        ActiveUntilEnded(cfg, t, events + (before + last));
      }
    }
  }

  lemma CarriesOnFromHere(f: Frame)
    ensures CarriesOn(f, f)
  {}

  lemma SameFrame(f: Frame, g: Frame)
    requires CarriesOn(f, g)
    ensures g.id == f.id
  {}

  /**
   * Over any stretch of continue, side, ambiguous and resume turns, an open frame stays in hand with its original
   * request until it is ended, and as long as it is in hand its slots, stated and inherited, are those it had,
   * overridden in turn by the continuing answers of the stretch and by nothing else.
   */
  lemma FramesCollectOnlyTheirAnswers(
    cfg: Config, text: string, context: ActiveContext, first: seq<Input>, later: seq<Input>)
    requires cfg.maxRounds >= 1
    ensures var (s, before) := Run(cfg, Start(text, context), first);
            var (t, events) := Run(cfg, s, later);
            Active(s.frame) && NoNewRequest(cfg, s, later) && !Ended(before + events, s.frame.value.id) ==>
              Active(t.frame) && CarriesOn(s.frame.value, t.frame.value)
    ensures var (s, _) := Run(cfg, Start(text, context), first);
            var (t, events) := Run(cfg, s, later);
            s.frame.Some? && t.frame.Some? && t.frame.value.id == s.frame.value.id ==>
              t.frame.value.original == s.frame.value.original
              && GivenBy(t.frame.value.base)
                 == Overridden(GivenBy(s.frame.value.base), AnswersTo(events, s.frame.value.id))
  {
    StartsWell(cfg, text, context);
    RunKeeps(cfg, Start(text, context), first);
    RunKeeps(cfg, Start(text, context), first + later);
    RunOn(cfg, Start(text, context), first, later);
    hide Run, Lawful, Ended, Asks, OpeningOf, Collected, FrameFits, Arrived, Start, AnswersTo, NoNewRequest, CarriesOn;
    hide Active, Numbered;
    var (s, before) := Run(cfg, Start(text, context), first);
    var (t, events) := Run(cfg, s, later);
    if Active(s.frame) && NoNewRequest(cfg, s, later) {
      FrameStays(cfg, s, before, later);
    }
    if s.frame.Some? && t.frame.Some? && t.frame.value.id == s.frame.value.id {
      LaterEvents(before, events, s.frame.value.id, cfg.maxRounds);
    }
  }

  // ----- What ends a frame -----

  /** The reply cancels on grounds, is a full task of its own, or answers all that was missing. */
  predicate ReplyEnds(cfg: Config, s: State, u: Understanding, t: State) {
    GroundedCancel(u) || LooksStandalone(cfg.wording(Strip(s.response)), u)
    || (t.relation == Some(ContinueCurrent) && t.plan.missing == [] && !t.plan.route.ClarifyRoute?)
  }

  lemma ResolutionEnds(cfg: Config, s: State, u: Understanding, events: seq<Event>)
    requires Inv(cfg, s, events) && s.node.Resolve?
    ensures var (t, more) := Resolution(cfg, s, u);
            s.frame.Some? && !Ended(events, s.frame.value.id)
            && (Ended(events + more, s.frame.value.id) ==> ReplyEnds(cfg, s, u, t))
            && (GroundedCancel(u) ==> Ended(events + more, s.frame.value.id) && t.node.DirectAnswer?)
  {
    var f, message := s.frame.value, Strip(s.response);
    LiveAtResolve(cfg, s, events);
    ActiveUntilEnded(cfg, s, events);
    CancelledExactlyWhen(f, cfg.wording(message), u);
    LeavingNeedsGrounds(f, cfg.wording(message), u);
    FittingFrame(cfg, s, events);
    hide Inv, DecideRelation, Resolution, FrameFits, Ended, Strip, LooksStandalone, GroundedCancel, Active, Terminal;
    ResolutionCases(cfg, s, f, u);
    var more := Resolution(cfg, s, u).1;
    assert events + [] == events;
    if more != [] {
      OneMore(events, more[0], f.id);
    }
  }

  /** A continuing answer that resolves the frame leaves nothing to ask. */
  lemma CompletedTurn(cfg: Config, s: State, f: Frame, u: Understanding)
    requires FrameFits(f, cfg.maxRounds) && f.pending != []
    ensures var (t, more) := ContinuedTurn(cfg, s, f, u);
            more == []
            || (more == [Continued(f.id, GivenBy(u), more[0].resolved)] && t.relation == Some(ContinueCurrent)
                && (more[0].resolved ==> t.plan.missing == [] && !t.plan.route.ClarifyRoute?))
  {
    PlansFit(cfg, s, Merged(f, u), f.original);
    PendingAfterFits(f, Classified(cfg, s, Merged(f, u), f.original).plan, cfg.maxRounds);
    hide Plan, PlanFits, FrameFits, Merged, Answered;
  }

  /** The events of a turn, and what they say about its decision and its plan. */
  predicate TurnRecorded(f: Frame, relation: Relation, t: State, more: seq<Event>) {
    more == []
    || (more == [more[0]] && more[0].id == f.id
        && (more[0].Closed? ==> relation.CancelCurrent? || relation.ReplaceWithNewRequest?)
        && (more[0].Continued? && more[0].resolved ==>
              t.relation == Some(ContinueCurrent) && t.plan.missing == [] && !t.plan.route.ClarifyRoute?))
  }

  lemma TurnIsRecorded(cfg: Config, s: State, f: Frame, u: Understanding)
    requires s.frame == Some(f) && s.node.Resolve? && FrameFits(f, cfg.maxRounds) && f.pending != []
    ensures var (t, more) := ResolvedTurn(cfg, s, f, u);
            var relation := DecideRelation(f, cfg.wording(Strip(s.response)), u).relation;
            TurnRecorded(f, relation, t, more)
            && (relation.CancelCurrent? ==>
                  more == [Closed(f.id)] && t.relation == Some(CancelCurrent) && !t.resumeOnly && !t.node.Failed?)
  {
    hide DecideRelation, ContinuedTurn, ReplacedTurn, LeftTurn, Strip, FrameFits, TurnRecorded;
    var message := Strip(s.response);
    var decision := DecideRelation(f, cfg.wording(message), u);
    var (t, more) := ResolvedTurn(cfg, s, f, u);
    match decision.relation
    case ContinueCurrent =>
      CompletedTurn(cfg, s, f, u);
      RecordsContinuation(f, t, more);
    case relation =>
      LeavingRecords(cfg, s, f, u, message);
      RecordsLeaving(f, relation, t, more);
  }

  lemma RecordsContinuation(f: Frame, t: State, more: seq<Event>)
    ensures more == [] || more == [Resumed(f.id)] ==> TurnRecorded(f, ContinueCurrent, t, more)
    ensures more != [] && more[0].Continued? && more == [Continued(f.id, more[0].slots, more[0].resolved)]
            && t.relation == Some(ContinueCurrent)
            && (more[0].resolved ==> t.plan.missing == [] && !t.plan.route.ClarifyRoute?) ==>
              TurnRecorded(f, ContinueCurrent, t, more)
  {}

  lemma RecordsLeaving(f: Frame, relation: Relation, t: State, more: seq<Event>)
    ensures (more == [Closed(f.id)] && (relation.CancelCurrent? || relation.ReplaceWithNewRequest?))
            || more == [LeftOpen(f.id)] ==>
              TurnRecorded(f, relation, t, more)
  {}

  lemma LeavingRecords(cfg: Config, s: State, f: Frame, u: Understanding, message: string)
    requires s.node.Resolve?
    ensures ReplacedTurn(cfg, s, f, u, message).1 == [Closed(f.id)]
    ensures forall relation {:trigger LeftTurn(cfg, s, f, relation, u, message)} ::
              var (t, more) := LeftTurn(cfg, s, f, relation, u, message);
              more == [if relation.CancelCurrent? then Closed(f.id) else LeftOpen(f.id)]
              && t.relation == Some(relation) && !t.resumeOnly && !t.node.Failed?
  {
    hide Plan;
  }

  lemma CancelGoesOut(t: State)
    requires t.relation == Some(CancelCurrent) && !t.resumeOnly
    ensures AfterResolution(t) == DirectAnswer
  {}

  lemma ResolutionCases(cfg: Config, s: State, f: Frame, u: Understanding)
    requires s.frame == Some(f) && s.node.Resolve? && FrameFits(f, cfg.maxRounds) && f.pending != []
    ensures var (t, more) := Resolution(cfg, s, u);
            var relation := DecideRelation(f, cfg.wording(Strip(s.response)), u).relation;
            TurnRecorded(f, relation, t, more)
            && (relation.CancelCurrent? ==> more == [Closed(f.id)] && t.node.DirectAnswer?)
  {
    hide DecideRelation, ResolvedTurn, Resolution, AfterResolution, Strip, FrameFits;
    ResolutionIsTurn(cfg, s, f, u);
    TurnIsRecorded(cfg, s, f, u);
    var t := ResolvedTurn(cfg, s, f, u).0;
    if t.relation == Some(CancelCurrent) && !t.resumeOnly {
      CancelGoesOut(t);
    }
  }

  lemma LiveAtResolve(cfg: Config, s: State, events: seq<Event>)
    requires Inv(cfg, s, events) && s.node.Resolve?
    ensures s.frame.Some? && !Terminal(s.frame.value.status) && Active(s.frame)
  {
    hide Lawful, Recorded, FrameFits, Numbered;
  }

  lemma FittingFrame(cfg: Config, s: State, events: seq<Event>)
    requires Inv(cfg, s, events) && s.node.Resolve?
    ensures s.frame.Some? && FrameFits(s.frame.value, cfg.maxRounds) && s.frame.value.pending != []
  {
    hide Lawful, Recorded, FrameFits, Numbered;
  }

  /** The answer settles an open question with a value the contract model of an item rejects. */
  predicate SettlesUnfit(cfg: Config, s: State, f: Frame, u: Understanding) {
    var merged := Merged(f, u);
    var after := PendingAfter(f, Classified(cfg, s, merged, f.original).plan);
    exists key :: key in f.pending && key !in after
      && (|ResolvedValue(merged, key)| > 512 || (TakenOver(key) && ResolvedValue(merged, key) == ""))
  }

  /** The base has every slot the answer gives, stated or inherited, and otherwise the slots it had. */
  predicate TakesUp(before: Given, answer: Given, after: Given) {
    after.stated.Keys == before.stated.Keys + answer.stated.Keys
    && (forall name :: name in after.stated ==>
          after.stated[name] == if name in answer.stated then answer.stated[name] else before.stated[name])
    && after.inherited.Keys == before.inherited.Keys + answer.inherited.Keys
    && (forall name :: name in after.inherited ==>
          after.inherited[name] == if name in answer.inherited then answer.inherited[name] else before.inherited[name])
  }

  /** What becomes of an answer: it is rejected for an unfit value, or recorded and taken up. */
  predicate AnswerRecorded(f: Frame, u: Understanding, unfit: bool, t: State, more: seq<Event>) {
    (t.node.Failed? <==> unfit)
    && if unfit then more == []
       else
         |more| == 1 && more[0].Continued? && more[0].id == f.id && more[0].slots == GivenBy(u)
         && t.frame.Some? && t.frame.value.id == f.id
         && TakesUp(GivenBy(f.base), GivenBy(u), GivenBy(t.frame.value.base))
  }

  lemma ContinuedIsRecorded(cfg: Config, s: State, f: Frame, u: Understanding)
    requires s.node.Resolve?
    ensures var (t, more) := ContinuedTurn(cfg, s, f, u); AnswerRecorded(f, u, SettlesUnfit(cfg, s, f, u), t, more)
  {
    hide Classified, Answered, PendingAfter, Merged, ResolvedValue, TakenOver, TakesUp, Overridden;
    var merged := Merged(f, u);
    var after := PendingAfter(f, Classified(cfg, s, merged, f.original).plan);
    AnswerRaisesExactlyWhen(f, merged, after);
    MergedTakesUp(f, u);
    ClassifiedKeepsNode(cfg, s, merged, f.original);
    if Answered(f, merged, after).Some? {
      AnsweredKeeps(f, merged, after);
    }
  }

  lemma MergedTakesUp(f: Frame, u: Understanding)
    ensures TakesUp(GivenBy(f.base), GivenBy(u), GivenBy(Merged(f, u)))
  {
    hide MergedOperations, FirstTwelve;
  }

  lemma ClassifiedKeepsNode(cfg: Config, s: State, u: Understanding, request: string)
    ensures Classified(cfg, s, u, request).node == s.node
  {
    hide Plan;
  }

  lemma AnsweredKeeps(f: Frame, u: Understanding, after: seq<string>)
    requires Answered(f, u, after).Some?
    ensures Answered(f, u, after).value.id == f.id && Answered(f, u, after).value.base == u
  {
    hide Settled, ResolvedValue, FitsItem, Without;
  }

  /**
   * In every run, a reply that answers an open question, and neither cancels on grounds, switches nor is a new task
   * by itself, is recorded as a continuing answer with its own slots, and the frame's base then holds them over its
   * own; only an answer that settles a question with an unfit value raises instead.
   */
  lemma AnswersAreCollected(cfg: Config, text: string, context: ActiveContext, inputs: seq<Input>, input: Input)
    requires cfg.maxRounds >= 1
    ensures var (s, events) := Run(cfg, Start(text, context), inputs);
            var (t, more) := Step(cfg, s, input);
            s.node.Resolve? ==>
              s.frame.Some?
              && (Continues(s.frame.value, cfg.wording(Strip(s.response)), input.understood) ==>
                    AnswerRecorded(s.frame.value, input.understood,
                                   SettlesUnfit(cfg, s, s.frame.value, input.understood), t, more))
  {
    StartsWell(cfg, text, context);
    RunKeeps(cfg, Start(text, context), inputs);
    hide *;
    var (s, events) := Run(cfg, Start(text, context), inputs);
    if s.node.Resolve? {
      LiveAtResolve(cfg, s, events);
      ResolveOrValidate(cfg, s, input);
      var f, u := s.frame.value, input.understood;
      if Continues(f, cfg.wording(Strip(s.response)), u) {
        AnsweredAtResolve(cfg, s, f, u);
      }
    }
  }

  lemma AnsweredAtResolve(cfg: Config, s: State, f: Frame, u: Understanding)
    requires s.frame == Some(f) && s.node.Resolve? && Continues(f, cfg.wording(Strip(s.response)), u)
    ensures var (t, more) := Resolution(cfg, s, u); AnswerRecorded(f, u, SettlesUnfit(cfg, s, f, u), t, more)
  {
    hide DecideRelation, ContinuedTurn, Strip, Continues, TakesUp, SettlesUnfit, Resolution, AfterResolution;
    AnswersContinue(f, cfg.wording(Strip(s.response)), u);
    ContinuedIsRecorded(cfg, s, f, u);
    ResolutionIsTurn(cfg, s, f, u);
    assert ResolvedTurn(cfg, s, f, u) == ContinuedTurn(cfg, s, f, u);
    GoesSomewhere(ContinuedTurn(cfg, s, f, u).0);
  }

  lemma GoesSomewhere(t: State)
    ensures !AfterResolution(t).Failed?
  {}

  /** In every run, the questions are shown again as they are exactly on a continuing wording that answers nothing. */
  lemma ResumedExactlyWhen(cfg: Config, text: string, context: ActiveContext, inputs: seq<Input>, input: Input)
    requires cfg.maxRounds >= 1
    ensures var (s, events) := Run(cfg, Start(text, context), inputs);
            var (t, more) := Step(cfg, s, input);
            s.node.Resolve? ==>
              s.frame.Some?
              && var f, wording := s.frame.value, cfg.wording(Strip(s.response));
                 more == [Resumed(f.id)]
                 <==> !GroundedCancel(input.understood) && wording.continues && !wording.switches
                      && !AnswersSomething(f, input.understood)
  {
    StartsWell(cfg, text, context);
    RunKeeps(cfg, Start(text, context), inputs);
    hide *;
    var (s, events) := Run(cfg, Start(text, context), inputs);
    if s.node.Resolve? {
      LiveAtResolve(cfg, s, events);
      ResolveOrValidate(cfg, s, input);
      ResumedAtResolve(cfg, s, s.frame.value, input.understood);
    }
  }

  lemma ResumedAtResolve(cfg: Config, s: State, f: Frame, u: Understanding)
    requires s.frame == Some(f) && s.node.Resolve? && !Terminal(f.status)
    ensures var wording := cfg.wording(Strip(s.response));
            Resolution(cfg, s, u).1 == [Resumed(f.id)]
            <==> !GroundedCancel(u) && wording.continues && !wording.switches && !AnswersSomething(f, u)
  {
    hide DecideRelation, ContinuedTurn, ReplacedTurn, LeftTurn, Strip, Resolution, AfterResolution, AnswersSomething;
    hide GroundedCancel;
    var message := Strip(s.response);
    ResumesOnlyExactlyWhen(f, cfg.wording(message), u);
    ContinuedIsRecorded(cfg, s, f, u);
    LeavingRecords(cfg, s, f, u, message);
    ResolutionIsTurn(cfg, s, f, u);
    var relation := DecideRelation(f, cfg.wording(message), u).relation;
    assert LeftTurn(cfg, s, f, relation, u, message).1
      == [if relation.CancelCurrent? then Closed(f.id) else LeftOpen(f.id)];
  }

  /** Outside the node that resolves a reply, no event ends a frame. */
  lemma OnlyRepliesEnd(cfg: Config, s: State, input: Input, events: seq<Event>, id: nat)
    requires !s.node.Resolve?
    ensures Ended(events + Step(cfg, s, input).1, id) ==> Ended(events, id)
  {
    hide Ended, BuiltFrame, ScopeErrors, AfterValidation, Resolution, Classified, Reawaited;
    var more := Step(cfg, s, input).1;
    assert events + [] == events;
    if more != [] {
      assert more == [more[0]] && (more[0].OpenedFrame? || more[0].Asked?);
      OneMore(events, more[0], id);
    }
  }

  /**
   * In every run, a frame ends only on a reply that cancels on grounds, is a full task of its own, or completes the
   * request; and a reply that cancels on grounds always ends it, with nothing fetched.
   */
  lemma FramesEndOnGrounds(cfg: Config, text: string, context: ActiveContext, inputs: seq<Input>, input: Input)
    requires cfg.maxRounds >= 1
    ensures var (s, events) := Run(cfg, Start(text, context), inputs);
            var (t, more) := Step(cfg, s, input);
            (s.frame.Some? && !Ended(events, s.frame.value.id) && Ended(events + more, s.frame.value.id) ==>
               s.node.Resolve? && ReplyEnds(cfg, s, input.understood, t))
            && (s.node.Resolve? && GroundedCancel(input.understood) ==>
                  s.frame.Some? && Ended(events + more, s.frame.value.id) && t.node.DirectAnswer?)
  {
    StartsWell(cfg, text, context);
    RunKeeps(cfg, Start(text, context), inputs);
    hide *;
    var (s, events) := Run(cfg, Start(text, context), inputs);
    ResolveOrValidate(cfg, s, input);
    if s.node.Resolve? {
      ResolutionEnds(cfg, s, input.understood, events);
    } else if s.frame.Some? {
      OnlyRepliesEnd(cfg, s, input, events, s.frame.value.id);
    }
  }

  /** The state after a replacing reply whose new request needs clarification. */
  predicate ReplacedByAQuestion(t: State) {
    t.node.Validate? && t.relation == Some(ReplaceWithNewRequest) && t.plan.route.ClarifyRoute?
  }

  /**
   * `v` holds a frame unknown to the record, at round 0, for the reply that `s` received, with nothing of the old
   * frame.
   */
  predicate StartsAfresh(s: State, u: Understanding, record: seq<Event>, v: State) {
    s.frame.Some? && Ended(record, s.frame.value.id)
    && v.frame.Some? && v.frame.value.id != s.frame.value.id && OpeningOf(record, v.frame.value.id).None?
    && v.frame.value.round == 0 && v.round == 0 && v.frame.value.resolved == []
    && v.frame.value.original == Strip(s.response) && GivenBy(v.frame.value.base) == GivenBy(u)
    && v.node in {PrepareClarification, RefuseRequest}
  }

  /**
   * A reply that replaces the request closes its frame; if the new request needs clarification too, it starts
   * afresh.
   */
  lemma ReplacementStartsFresh(
    cfg: Config, text: string, context: ActiveContext, inputs: seq<Input>, reply: Input, next: Input)
    requires cfg.maxRounds >= 1
    ensures var (s, events) := Run(cfg, Start(text, context), inputs);
            var (t, closing) := Step(cfg, s, reply);
            s.node.Resolve? && ReplacedByAQuestion(t) ==>
              StartsAfresh(s, reply.understood, events + closing, Step(cfg, t, next).0)
  {
    hide *;
    StartsWell(cfg, text, context);
    RunKeeps(cfg, Start(text, context), inputs);
    var (s, events) := Run(cfg, Start(text, context), inputs);
    if s.node.Resolve? && ReplacedByAQuestion(Step(cfg, s, reply).0) {
      ReplacementFrom(cfg, s, events, reply, next);
    }
  }

  lemma ReplacementFrom(cfg: Config, s: State, events: seq<Event>, reply: Input, next: Input)
    requires Inv(cfg, s, events) && cfg.maxRounds >= 1 && s.node.Resolve?
    ensures var (t, closing) := Step(cfg, s, reply);
            ReplacedByAQuestion(t) ==> StartsAfresh(s, reply.understood, events + closing, Step(cfg, t, next).0)
  {
    hide Inv, Step, Resolution, Validated, Ended, OpeningOf, Strip;
    var (t, closing) := Step(cfg, s, reply);
    if ReplacedByAQuestion(t) {
      StepKeeps(cfg, s, reply, events);
      ResolveOrValidate(cfg, s, reply);
      ResolveOrValidate(cfg, t, next);
      ReplacedAt(cfg, s, reply.understood, events);
      OneMore(events, Closed(s.frame.value.id), s.frame.value.id);
      ReplacementOpens(cfg, t, events + closing);
    }
  }

  lemma ResolveOrValidate(cfg: Config, s: State, input: Input)
    ensures s.node.Resolve? ==> Step(cfg, s, input) == Resolution(cfg, s, input.understood)
    ensures s.node.Validate? ==> Step(cfg, s, input) == Validated(cfg, s)
  {
    hide Resolution, Validated;
  }

  /** Only a replacing decision leaves the state marked as replaced. */
  lemma ReplacedAt(cfg: Config, s: State, u: Understanding, events: seq<Event>)
    requires Inv(cfg, s, events) && s.node.Resolve?
    ensures var (t, closing) := Resolution(cfg, s, u);
            t.relation == Some(ReplaceWithNewRequest) && t.node.Validate? ==>
            s.frame.Some? && closing == [Closed(s.frame.value.id)]
            && t.frame.Some? && t.frame.value.id == s.frame.value.id && t.frame.value.status.Superseded?
            && t.request == Strip(s.response) && GivenBy(t.understanding) == GivenBy(u) && t.round == 0
  {
    hide DecideRelation, Plan, Answered, Merged, PendingAfter, Strip;
  }

  lemma ReplacementOpens(cfg: Config, t: State, events: seq<Event>)
    requires Inv(cfg, t, events) && t.node.Validate? && t.plan.route.ClarifyRoute? && t.round == 0 && cfg.maxRounds >= 1
    requires t.frame.Some? && t.frame.value.status.Superseded?
    ensures var v := Validated(cfg, t).0;
            v.frame.Some? && OpeningOf(events, v.frame.value.id).None? && v.frame.value.id != t.frame.value.id
            && v.frame.value.round == 0 && v.round == 0 && v.frame.value.resolved == []
            && v.frame.value.original == t.request && v.frame.value.base == t.understanding
            && v.node in {PrepareClarification, RefuseRequest}
  {
    hide Lawful, Collected, Asks, Ended, OpeningOf, Distinct, BuiltFrame, ScopeErrors, FrameFits;
    BuiltFrameKnows(t.request, t.understanding, t.plan.missing, None, t.nextId);
    BuiltFrameAsks(t.request, t.understanding, t.plan.missing, None, t.nextId);
    UnusedId(events, t.nextId, t.nextId);
    OpenedIdIsOld(events, t.nextId, t.frame.value.id);
  }

  // ----- Every turn comes to an end -----

  /** The nodes that wait for the user. */
  predicate Waits(node: Node) {
    node.AskMissing? || node.Resume? || node.Pause? || node.End? || node.Failed?
  }

  function Rank(node: Node): nat {
    match node
    case Ingest => 13 case Authorize => 12 case Classify => 11 case Resolve => 11 case Validate => 10
    case Prelude => 9 case Retrieve => 8 case Assess => 7 case SearchExternal => 6 case BuildLedger => 5
    case GenerateAnswer => 4 case Verify => 3
    case PrepareClarification => 4 case AnswerSide => 4 case PrepareRelation => 4
    case AskMissing => 3 case Resume => 3 case Pause => 3
    case DirectAnswer => 3 case RefuseRequest => 3 case Insufficient => 3
    case Finalize => 2 case Audit => 1 case End => 0 case Failed => 0
  }

  lemma StepsDescend(cfg: Config, s: State, input: Input)
    requires !Waits(s.node)
    ensures Rank(Step(cfg, s, input).0.node) < Rank(s.node)
  {
    hide Validated, Resolution, Classified, Reawaited, AskedMissing;
    ValidatedNode(cfg, s);
    ResolutionNode(cfg, s, input.understood);
  }

  lemma ValidatedNode(cfg: Config, s: State)
    ensures Rank(Validated(cfg, s).0.node) <= 9
  {
    hide BuiltFrame, ScopeErrors, Active;
  }

  lemma ResolutionNode(cfg: Config, s: State, u: Understanding)
    ensures Rank(Resolution(cfg, s, u).0.node) <= 10
  {
    hide ResolvedTurn, BuiltFrame;
  }

  predicate Quiet(cfg: Config, s: State, inputs: seq<Input>) {
    inputs == []
    || (Quiet(cfg, s, inputs[..|inputs| - 1]) && !Waits(Run(cfg, s, inputs[..|inputs| - 1]).0.node))
  }

  /** Between two waits for the user, or a wait and the end, there are never more than 13 node steps. */
  lemma {:induction false} TurnsAreBounded(cfg: Config, s: State, inputs: seq<Input>)
    requires Quiet(cfg, s, inputs)
    ensures |inputs| + Rank(Run(cfg, s, inputs).0.node) <= Rank(s.node) <= 13
  {
    hide Step;
    if inputs != [] {
      TurnsAreBounded(cfg, s, inputs[..|inputs| - 1]);
      StepsDescend(cfg, Run(cfg, s, inputs[..|inputs| - 1]).0, inputs[|inputs| - 1]);
    }
  }
}
