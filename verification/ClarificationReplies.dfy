/** What one reply to a clarification, and the nodes before it, leave of the whole state. */
module ClarificationReplies {
  import opened Clarification
  import opened ClarificationGraph
  import opened Domain
  import opened Sequences
  import Routing
  import TaskRouting

  /** The plan of an understanding for a request, in this state's context. */
  function PlanOf(cfg: Config, s: State, u: Understanding, request: string): RoutePlan {
    Routing.Plan(u, cfg.scope, s.context, cfg.signals(request))
  }

  /** The state with a request understood and planned anew: nothing of the errors and slots before is left. */
  function Anew(cfg: Config, s: State, v: Understanding): State {
    var message := Strip(s.response);
    var plan := PlanOf(cfg, s, v, message);
    s.(request := message, understanding := v, plan := plan, route := plan.route, errors := {}, resumeOnly := false)
  }

  /** The frame as a reply leaves it. */
  function LeftAs(f: Frame, status: Status, relation: Relation): Option<Frame> {
    Some(f.(status := status, last := Some(relation)))
  }

  /** What a reply that replaces the request leaves. */
  lemma ReplacementLeaves(cfg: Config, s: State, f: Frame, u: Understanding)
    requires s.frame == Some(f) && s.node.Resolve?
    requires DecideRelation(f, cfg.wording(Strip(s.response)), u).relation.ReplaceWithNewRequest?
    ensures var v := u.(relation := Some(ReplaceWithNewRequest),
                        mode := if u.intent == Conversation then ConversationMode else TaskMode);
            Resolution(cfg, s, u)
            == (Anew(cfg, s, v).(node := Validate, missing := [], relation := Some(ReplaceWithNewRequest), round := 0,
                                 frame := LeftAs(f, Superseded, ReplaceWithNewRequest)),
                [Closed(f.id)])
  {
    hide DecideRelation, Strip, Routing.Plan;
  }

  /** What a reply that cancels the frame leaves: its understanding cancels the clarification, and nothing is asked. */
  lemma CancellationLeaves(cfg: Config, s: State, f: Frame, u: Understanding)
    requires s.frame == Some(f) && s.node.Resolve?
    requires DecideRelation(f, cfg.wording(Strip(s.response)), u).relation.CancelCurrent?
    ensures var v := u.(relation := Some(CancelCurrent), cancelScope := Some(ClarificationScope));
            Resolution(cfg, s, u)
            == (Anew(cfg, s, v).(node := DirectAnswer, missing := f.pending, relation := Some(CancelCurrent),
                                 round := 0, frame := LeftAs(f, Cancelled, CancelCurrent)),
                [Closed(f.id)])
  {
    hide DecideRelation, Strip, Routing.Plan;
  }

  /** What a side conversation leaves: it is planned as a request, and the frame waits with its round and questions. */
  lemma SideConversationLeaves(cfg: Config, s: State, f: Frame, u: Understanding)
    requires s.frame == Some(f) && s.node.Resolve?
    requires DecideRelation(f, cfg.wording(Strip(s.response)), u).relation.SideConversation?
    ensures var v := u.(relation := Some(SideConversation));
            Resolution(cfg, s, u)
            == (Anew(cfg, s, v).(node := AnswerSide, missing := f.pending, relation := Some(SideConversation),
                                 round := f.round, frame := LeftAs(f, Paused, SideConversation)),
                [LeftOpen(f.id)])
  {
    hide DecideRelation, Strip, Routing.Plan;
  }

  /** What an ambiguous reply leaves: request, understanding and plan as they were. */
  lemma AmbiguityLeaves(cfg: Config, s: State, f: Frame, u: Understanding)
    requires s.frame == Some(f) && s.node.Resolve?
    requires DecideRelation(f, cfg.wording(Strip(s.response)), u).relation.Ambiguous?
    ensures Resolution(cfg, s, u)
         == (s.(node := PrepareRelation, missing := f.pending, relation := Some(Ambiguous), resumeOnly := false,
                round := f.round, frame := LeftAs(f, Paused, Ambiguous)),
             [LeftOpen(f.id)])
  {
    hide DecideRelation, Strip, Routing.Plan;
  }

  /** What a reply that only asks to go on leaves: the same questions, waiting again. */
  lemma ResumptionLeaves(cfg: Config, s: State, f: Frame, u: Understanding)
    requires s.frame == Some(f) && s.node.Resolve?
    requires DecideRelation(f, cfg.wording(Strip(s.response)), u) == TurnDecision(ContinueCurrent, true)
    ensures Resolution(cfg, s, u)
         == (s.(node := Resume, route := ClarifyRoute, missing := f.pending, relation := Some(ContinueCurrent),
                resumeOnly := true, round := f.round, frame := LeftAs(f, Waiting, ContinueCurrent)),
             [Resumed(f.id)])
  {
    hide DecideRelation, Strip, Routing.Plan;
  }

  /** What is asked next: what the plan lacks; if it clarifies lacking nothing, the intent or the same questions. */
  predicate AsksNext(f: Frame, plan: RoutePlan, pending: seq<string>) {
    if plan.route == ClarifyRoute && |plan.missing| == 0 then
      pending == if f.kind == IntentDisambiguation then ["intent_target"] else f.pending
    else pending == plan.missing
  }

  /** What an answer leaves: the original request, understood with it and planned again, and the frame moved on. */
  lemma AnswerLeaves(cfg: Config, s: State, f: Frame, u: Understanding) returns (pending: seq<string>)
    requires s.frame == Some(f) && s.node.Resolve?
    requires DecideRelation(f, cfg.wording(Strip(s.response)), u) == TurnDecision(ContinueCurrent, false)
    ensures var merged := Merged(f, u);
            var plan := PlanOf(cfg, s, merged, f.original);
            AsksNext(f, plan, pending)
            && Resolution(cfg, s, u)
               == match Answered(f, merged, pending)
                  case None => (s.(node := Failed), [])
                  case Some(g) =>
                    (s.(node := Validate, request := f.original, understanding := merged, plan := plan,
                        route := plan.route, missing := pending, relation := Some(ContinueCurrent), resumeOnly := false,
                        round := f.round, frame := Some(g)),
                     [Continued(f.id, GivenBy(u), pending == [])])
  {
    var merged := Merged(f, u);
    var plan := PlanOf(cfg, s, merged, f.original);
    pending := PendingAfter(f, plan);
    hide DecideRelation, Strip, Routing.Plan, Merged;
    if Answered(f, merged, pending).Some? {
      AnsweredOtherwise(f, merged, pending);
    }
    hide Answered;
  }

  // ----- The nodes before a reply -----

  /** What validation adds to the errors: the slots outside the actor's scope. */
  predicate ScopeChecked(before: set<Reason>, u: Understanding, scope: ActorScope, after: set<Reason>) {
    forall reason <- {TaskAllowed, ControlledWriteNotAllowed, ReportNotEnabled, ProductOutOfScope, ToolOutOfScope,
                      DeferredByPolicy, OutsideCapability, FlaggedUnsafe, CombinationDeferred, SlotsMissing,
                      ConfidenceTooLow} ::
      reason in after <==>
        reason in before || (reason.ProductOutOfScope? && TaskRouting.ProductOutside(Values(u), scope))
        || (reason.ToolOutOfScope? && TaskRouting.ToolOutside(Values(u), scope))
  }

  /** Where validation goes: refusal first, then what needs no evidence, then evidence, and questions while they may. */
  predicate GoesTo(cfg: Config, t: State, complete: bool) {
    if t.errors != {} || t.route.RefuseRoute? then t.node.RefuseRequest?
    else if t.route.ChatDirect? || t.route.HistoryDirect? then t.node.DirectAnswer?
    else if complete then t.node.Prelude?
    else if t.round < cfg.maxRounds then t.node.PrepareClarification? else t.node.Insufficient?
  }

  /** What validation leaves: errors checked, and a frame for what is missing, the one in hand if it is open. */
  lemma ValidationLeaves(cfg: Config, s: State)
    requires s.node.Validate? && s.route == s.plan.route
    ensures var (t, more) := Validated(cfg, s);
            var complete := s.plan.missing == [] && !s.plan.route.ClarifyRoute?;
            ScopeChecked(s.errors, s.understanding, cfg.scope, t.errors) && GoesTo(cfg, t, complete)
            && if complete then
                 t == s.(node := t.node, errors := t.errors, missing := []) && more == []
               else
                 t.frame.Some? && t.missing == t.frame.value.pending
                 && t == s.(node := t.node, errors := t.errors, missing := t.missing, frame := t.frame,
                            nextId := t.nextId)
                 && (more == [] <==> Active(s.frame)) && (more == [] ==> t.nextId == s.nextId)
                 && (more != [] ==> t.frame.value.id == s.nextId && t.nextId > s.nextId)
  {
    var complete := s.plan.missing == [] && !s.plan.route.ClarifyRoute?;
    var existing := if Active(s.frame) then s.frame else None;
    BuiltFrameAsks(s.request, s.understanding, s.plan.missing, existing, s.nextId);
    BuiltFrameKnows(s.request, s.understanding, s.plan.missing, existing, s.nextId);
    TaskRouting.FilledExactlyWhen(Values(s.understanding));
    hide BuiltFrame, Has, TaskRouting.Filled, Values, Distinct;
  }

  /** What asking leaves: the reply and its context, and the frame waiting for one more numbered round. */
  lemma AskingLeaves(s: State, input: Input, f: Frame)
    requires s.node.AskMissing? && s.frame == Some(f)
    ensures AskedMissing(s, input)
         == (s.(node := Resolve, response := input.text, context := input.context, round := f.round + 1,
                frame := Some(f.(round := f.round + 1, status := Waiting))),
             [Asked(f.id, f.round + 1)])
  {}

  /** What waiting for another reply to the same questions leaves. */
  lemma WaitingLeaves(s: State, input: Input, f: Frame)
    requires (s.node.Resume? || s.node.Pause?) && s.frame == Some(f)
    ensures Reawaited(s, input)
         == s.(node := Resolve, response := input.text, context := input.context, resumeOnly := false,
               frame := Some(f.(status := if s.node.Pause? then Waiting else f.status)))
  {}

  // ----- A new message, and evidence -----

  /** Four node steps take up a new message after the end of a run: nothing of the run before is left but ids. */
  lemma NewMessageStartsClean(cfg: Config, s: State, message: Input, a: Input, b: Input, reading: Input)
    requires s.node.End?
    ensures var start := Step(cfg, s, message).0;
            var ready := Step(cfg, Step(cfg, start, a).0, b).0;
            var plan := Routing.Plan(reading.understood, cfg.scope, message.context, cfg.signals(message.text));
            Step(cfg, ready, reading)
            == (State(Validate, message.text, s.response, reading.understood, plan, plan.route, 0, None, None, false,
                      [], {}, message.context, s.nextId),
                [])
  {
    hide Routing.Plan;
  }

  /** Evidence is searched outside exactly when its assessment asks for it, and always ends in the verifier. */
  lemma EvidencePath(cfg: Config, s: State, input: Input)
    ensures s.node.Assess? ==>
              Step(cfg, s, input) == (s.(node := if input.webFallback then SearchExternal else BuildLedger), [])
    ensures s.node in {SearchExternal, BuildLedger, GenerateAnswer, Verify} ==>
              Step(cfg, s, input).1 == [] && Step(cfg, s, input).0 == s.(node := Step(cfg, s, input).0.node)
              && Step(cfg, s, input).0.node == match s.node case SearchExternal => BuildLedger
                                                       case BuildLedger => GenerateAnswer
                                                       case GenerateAnswer => Verify case _ => Finalize
    ensures s.node.Failed? ==> Step(cfg, s, input) == (s, [])
  {}
}
