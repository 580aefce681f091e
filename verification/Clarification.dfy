/** Clarification frames: what is still missing for one request, and how a reply moves the frame on. */
module Clarification {
  import opened Domain
  import opened Sequences

  datatype Kind = SlotCollection | HistoryReference | IntentDisambiguation

  datatype Status = Waiting | Paused | Cancelled | Resolved | Superseded

  datatype ResolvedItem = ResolvedItem(key: string, value: string)

  /** A pending item is its key; its type, prompt and allowed values are looked up from the key. */
  datatype Frame = Frame(
    id: nat, kind: Kind, original: string, pending: seq<string>, resolved: seq<ResolvedItem>,
    round: nat, noProgress: nat, status: Status, last: Option<Relation>, base: Understanding)

  /** The keys `CLARIFICATION_PROMPTS` has a prompt for. */
  const PROMPTED := {
    "product", "time_range", "tool_or_chamber", "affected_object", "history_reference", "intent_target", "request_goal"}

  const INTENT_TARGET := "intent_target"

  // ----- Building a frame -----

  function KindOf(keys: seq<string>): Kind {
    if keys == ["history_reference"] then HistoryReference
    else if keys == [] then IntentDisambiguation else SlotCollection
  }

  function PendingFor(missing: seq<string>): seq<string> {
    var keys := Dedup(missing);
    if keys == [] then [INTENT_TARGET] else if |keys| <= 3 then keys else keys[..3]
  }

  /** `build_clarification_frame`; `fresh_id` is the identifier a new frame would get. */
  function BuiltFrame(
    request: string, u: Understanding, missing: seq<string>, existing: Option<Frame>, freshId: nat): Frame {
    var pending := PendingFor(missing);
    var kind := if missing == [] then IntentDisambiguation else KindOf(pending);
    match existing
    case None => Frame(freshId, kind, request, pending, [], 0, 0, Waiting, None, u)
    case Some(f) => f.(kind := kind, pending := pending, status := Waiting)
  }

  /** A frame always asks for one to three different things, and rebuilding it keeps what it already knows. */
  lemma BuiltFrameAsks(request: string, u: Understanding, missing: seq<string>, existing: Option<Frame>, freshId: nat)
    ensures var f := BuiltFrame(request, u, missing, existing, freshId);
            1 <= |f.pending| <= 3 && Distinct(f.pending) && f.status.Waiting?
            && (forall key :: key in f.pending ==> key in missing || (missing == [] && key == INTENT_TARGET))
            && (|Dedup(missing)| <= 3 ==> forall key :: key in missing ==> key in f.pending)
            && (f.kind.IntentDisambiguation? <==> missing == [])
            && (existing.Some? ==> f.id == existing.value.id && f.original == existing.value.original
                                   && f.base == existing.value.base && f.round == existing.value.round
                                   && f.resolved == existing.value.resolved)
  {
    hide Distinct;
    assert missing != [] ==> missing[0] in Dedup(missing);
    var keys := Dedup(missing);
    if |keys| > 3 {
      PrefixIsDistinct(keys, 3);
    }
    OneIsDistinct(INTENT_TARGET);
  }

  /** The kind of question a frame asks. */
  lemma BuiltFrameKind(request: string, u: Understanding, missing: seq<string>, existing: Option<Frame>, freshId: nat)
    ensures var f := BuiltFrame(request, u, missing, existing, freshId);
            (f.kind.HistoryReference? <==> missing != [] && f.pending == ["history_reference"])
            && (f.kind.IntentDisambiguation? <==> missing == [])
  {
    hide Distinct;
    assert missing != [] ==> missing[0] in Dedup(missing);
  }

  lemma PrefixIsDistinct(s: seq<string>, n: nat)
    requires Distinct(s) && n <= |s|
    ensures Distinct(s[..n])
  {}

  lemma OneIsDistinct(x: string)
    ensures Distinct([x])
  {}

  // ----- What a reply resolves -----

  predicate NamesATarget(u: Understanding) {
    u.intent.KnowledgeQuery? || u.intent.DataQuery? || u.intent.ContentTask?
    || u.suggestedRoute.InternalRag? || u.suggestedRoute.ToolOnly? || u.suggestedRoute.RagAndTool?
    || u.suggestedRoute.RagAndWeb? || u.suggestedRoute.ChatDirect?
  }

  predicate Resolves(u: Understanding, key: string) {
    var values := Values(u);
    (key == "tool_or_chamber" && (Has(values, "tool_id") || Has(values, "chamber")))
    || (key == "affected_object" && HasAffectedObject(values))
    || (key == "history_reference" && u.contextMessageIds != [])
    || (key == INTENT_TARGET && NamesATarget(u))
    || Has(values, key)
  }

  function ResolvedKeys(pending: seq<string>, u: Understanding): seq<string> {
    Filter((key: string) => Resolves(u, key), pending)
  }

  method FindResolvedKeys(pending: seq<string>, u: Understanding) returns (resolved: seq<string>)
    ensures resolved == ResolvedKeys(pending, u)
  {
    hide Has, HasAffectedObject, NamesATarget, Filter;
    var values := Values(u);
    ghost var p := (key: string) => Resolves(u, key);
    resolved := [];
    assert Filter(p, pending[..0]) == [] by { FilterOfNothing(p); }
    for i := 0 to |pending|
      invariant resolved == Filter(p, pending[..i])
    {
      var key := pending[i];
      assert pending[..i + 1] == pending[..i] + [key];
      FilterAdd(p, pending[..i], key);
      if key == "tool_or_chamber" && (Has(values, "tool_id") || Has(values, "chamber")) {
        resolved := resolved + [key];
      } else if key == "affected_object" && HasAffectedObject(values) {
        resolved := resolved + [key];
      } else if key == "history_reference" && u.contextMessageIds != [] {
        resolved := resolved + [key];
      } else if key == INTENT_TARGET && NamesATarget(u) {
        resolved := resolved + [key];
      } else if Has(values, key) {
        resolved := resolved + [key];
      }
    }
    assert pending[..|pending|] == pending;
  }

  lemma FilterOfNothing(p: string -> bool)
    ensures Filter(p, []) == []
  {}

  // ----- How a reply relates to the frame -----

  /** The pattern tests on the text of a reply. */
  datatype Wording = Wording(switches: bool, continues: bool, unknown: bool, standalone: bool)

  datatype TurnDecision = TurnDecision(relation: Relation, resumeOnly: bool)

  predicate Terminal(status: Status) {
    status.Cancelled? || status.Resolved? || status.Superseded?
  }

  predicate IsDirectConversation(u: Understanding) {
    u.intent.Conversation? && (u.suggestedRoute.ChatDirect? || u.suggestedRoute.HistoryDirect?)
  }

  predicate LooksStandalone(wording: Wording, u: Understanding) {
    wording.standalone && u.tasks != [] && !IsDirectConversation(u)
  }

  function Signatures(tasks: seq<Task>): set<(Target, Action)> {
    set task | task in tasks :: (task.target, task.action)
  }

  predicate IsDistinctNewTask(frame: Frame, wording: Wording, u: Understanding) {
    LooksStandalone(wording, u)
    && (u.intent != frame.base.intent
        || (Signatures(u.tasks) != {} && Signatures(frame.base.tasks) != {}
            && Signatures(u.tasks) !! Signatures(frame.base.tasks)))
  }

  predicate GroundedCancel(u: Understanding) {
    u.cancelScope == Some(ClarificationScope) || u.cancelScope == Some(CurrentTask)
  }

  /** `decide_turn_relation`. */
  function DecideRelation(frame: Frame, wording: Wording, u: Understanding): TurnDecision {
    var resolved := ResolvedKeys(frame.pending, u);
    if Terminal(frame.status) then TurnDecision(ReplaceWithNewRequest, false)
    else if GroundedCancel(u) then TurnDecision(CancelCurrent, false)
    else if wording.switches then
      TurnDecision(if LooksStandalone(wording, u) then ReplaceWithNewRequest else Ambiguous, false)
    else if wording.continues then TurnDecision(ContinueCurrent, resolved == [])
    else if wording.unknown then TurnDecision(ContinueCurrent, false)
    else if IsDistinctNewTask(frame, wording, u) then TurnDecision(ReplaceWithNewRequest, false)
    else if resolved != [] then TurnDecision(ContinueCurrent, false)
    else if u.relation == Some(CancelCurrent) then TurnDecision(Ambiguous, false)
    else if u.relation == Some(SideConversation) && IsDirectConversation(u) then TurnDecision(SideConversation, false)
    else if u.relation == Some(ReplaceWithNewRequest) && LooksStandalone(wording, u) then
      TurnDecision(ReplaceWithNewRequest, false)
    else if u.relation == Some(ContinueCurrent) then TurnDecision(ContinueCurrent, false)
    else if IsDirectConversation(u) then TurnDecision(SideConversation, false)
    else if LooksStandalone(wording, u) then TurnDecision(ReplaceWithNewRequest, false)
    else TurnDecision(ContinueCurrent, false)
  }

  /** A live frame is cancelled exactly by a grounded cancellation, whatever the model proposes and the text says. */
  lemma CancelledExactlyWhen(frame: Frame, wording: Wording, u: Understanding)
    ensures DecideRelation(frame, wording, u).relation.CancelCurrent? <==> !Terminal(frame.status) && GroundedCancel(u)
  {
    hide Resolves, Filter;
  }

  /**
   * Leaving a live frame needs grounds in the reply itself: a full new task, or plain conversation resolving
   * nothing.
   */
  lemma LeavingNeedsGrounds(frame: Frame, wording: Wording, u: Understanding)
    requires !Terminal(frame.status)
    ensures var relation := DecideRelation(frame, wording, u).relation;
            (relation.ReplaceWithNewRequest? ==>
               LooksStandalone(wording, u)
               && (ResolvedKeys(frame.pending, u) == [] || wording.switches || IsDistinctNewTask(frame, wording, u)))
            && (relation.SideConversation? ==> IsDirectConversation(u) && ResolvedKeys(frame.pending, u) == [])
            && (relation.Ambiguous? ==> wording.switches || u.relation == Some(CancelCurrent))
  {
    hide Resolves, Filter, IsDirectConversation, Signatures;
  }

  /** What the tests on a reply come to, told from its fields. */
  lemma ReplyTests(frame: Frame, wording: Wording, u: Understanding)
    ensures GroundedCancel(u) <==> u.cancelScope in {Some(ClarificationScope), Some(CurrentTask)}
    ensures Terminal(frame.status) <==> frame.status !in {Waiting, Paused}
    ensures IsDirectConversation(u) <==> u.intent == Conversation && u.suggestedRoute in {ChatDirect, HistoryDirect}
    ensures LooksStandalone(wording, u) <==>
              wording.standalone && |u.tasks| > 0
              && (u.intent == Conversation ==> u.suggestedRoute !in {ChatDirect, HistoryDirect})
    ensures IsDistinctNewTask(frame, wording, u) <==>
              LooksStandalone(wording, u)
              && (frame.base.intent != u.intent || (frame.base.tasks != [] && NothingShared(frame.base.tasks, u.tasks)))
  {
    hide IsDirectConversation, GroundedCancel;
    assert GroundedCancel(u) <==> u.cancelScope in {Some(ClarificationScope), Some(CurrentTask)} by {
      CancelScopes(u);
    }
    assert IsDirectConversation(u) <==> u.intent == Conversation && u.suggestedRoute in {ChatDirect, HistoryDirect} by {
      DirectRoutes(u);
    }
    SharedExactlyWhen(frame.base.tasks, u.tasks);
    assert u.tasks != [] ==> (u.tasks[0].target, u.tasks[0].action) in Signatures(u.tasks);
    assert frame.base.tasks != [] ==>
        (frame.base.tasks[0].target, frame.base.tasks[0].action) in Signatures(frame.base.tasks);
  }

  lemma CancelScopes(u: Understanding)
    ensures GroundedCancel(u) <==> u.cancelScope in {Some(ClarificationScope), Some(CurrentTask)}
  {}

  lemma DirectRoutes(u: Understanding)
    ensures IsDirectConversation(u) <==> u.intent == Conversation && u.suggestedRoute in {ChatDirect, HistoryDirect}
  {}

  /** No task of the one has the target and the action of a task of the other. */
  predicate NothingShared(a: seq<Task>, b: seq<Task>) {
    forall x, y :: x in a && y in b ==> x.target != y.target || x.action != y.action
  }

  lemma SharedExactlyWhen(a: seq<Task>, b: seq<Task>)
    ensures Signatures(a) !! Signatures(b) <==> NothingShared(a, b)
  {
    forall x, y | x in a && y in b && Signatures(a) !! Signatures(b)
      ensures x.target != y.target || x.action != y.action
    {
      assert (x.target, x.action) in Signatures(a) && (y.target, y.action) in Signatures(b);
    }
  }

  /** Which slots answer a key, besides a slot of the key's own name. */
  function SlotsFor(key: string): set<string> {
    match key
    case "tool_or_chamber" => {"tool_id", "chamber"}
    case "affected_object" => {"product", "tool_id", "chamber", "lot_id", "case_id"}
    case _ => {}
  }

  /** A key is answered by a slot for it, a message referred to, or an intent and route that name a target. */
  lemma ResolvedWhen(u: Understanding, key: string)
    ensures Resolves(u, key) <==>
              (exists name :: name in SlotsFor(key) + {key} && Has(Values(u), name))
              || (key == "history_reference" && |u.contextMessageIds| > 0)
              || (key == "intent_target"
                  && (u.intent in {KnowledgeQuery, DataQuery, ContentTask}
                      || u.suggestedRoute in {InternalRag, ToolOnly, RagAndTool, RagAndWeb, ChatDirect}))
  {
    hide Has, Values;
    assert key in SlotsFor(key) + {key};
    if key == "tool_or_chamber" || key == "affected_object" {
      assert SlotsFor(key) <= SlotsFor(key) + {key};
    }
  }

  /** The reply answers at least one of the open questions. */
  predicate AnswersSomething(frame: Frame, u: Understanding) {
    exists key :: key in frame.pending && Resolves(u, key)
  }

  /** None of the special wordings: the reply speaks for itself. */
  predicate Plain(wording: Wording) { !wording.switches && !wording.continues && !wording.unknown }

  /** A live frame and a reply that does not cancel it. */
  predicate Considered(frame: Frame, u: Understanding) { !Terminal(frame.status) && !GroundedCancel(u) }

  /**
   * The frame is merely shown again if and only if it is live and not cancelled on grounds, the wording continues
   * without switching, and no open question is answered.
   */
  lemma ResumesOnlyExactlyWhen(frame: Frame, wording: Wording, u: Understanding)
    ensures var decision := DecideRelation(frame, wording, u);
            (decision.resumeOnly <==>
               Considered(frame, u) && wording.continues && !wording.switches && !AnswersSomething(frame, u))
            && (decision.resumeOnly ==> decision.relation.ContinueCurrent?)
  {
    AnswersExactlyWhen(frame, u);
    hide Resolves, Filter, AnswersSomething, IsDistinctNewTask, LooksStandalone, IsDirectConversation, ResolvedKeys;
  }

  lemma AnswersExactlyWhen(frame: Frame, u: Understanding)
    ensures ResolvedKeys(frame.pending, u) != [] <==> AnswersSomething(frame, u)
  {
    hide Resolves;
    if key :| key in frame.pending && Resolves(u, key) {
      assert key in ResolvedKeys(frame.pending, u);
    }
    if ResolvedKeys(frame.pending, u) != [] {
      assert ResolvedKeys(frame.pending, u)[0] in ResolvedKeys(frame.pending, u);
    }
  }

  /** A reply that answers something and is no cancellation, switch or new task continues, and is taken as an answer. */
  predicate Continues(frame: Frame, wording: Wording, u: Understanding) {
    Considered(frame, u) && AnswersSomething(frame, u) && !wording.switches
    && (wording.continues || wording.unknown || !IsDistinctNewTask(frame, wording, u))
  }

  lemma AnswersContinue(frame: Frame, wording: Wording, u: Understanding)
    requires Continues(frame, wording, u)
    ensures DecideRelation(frame, wording, u) == TurnDecision(ContinueCurrent, false)
  {
    AnswersExactlyWhen(frame, u);
    hide Resolves, Filter, AnswersSomething, IsDistinctNewTask, LooksStandalone, IsDirectConversation, ResolvedKeys;
  }

  /** The proposed relation is none that holds a plain reply back at the frame. */
  predicate ProposesLeaving(u: Understanding) {
    u.relation != Some(CancelCurrent) && u.relation != Some(ContinueCurrent)
  }

  /** When a reply replaces the request, is a side conversation, or leaves open what it is; otherwise it continues. */
  lemma RelationExactlyWhen(frame: Frame, wording: Wording, u: Understanding)
    requires Considered(frame, u)
    ensures var relation := DecideRelation(frame, wording, u).relation;
            var standalone, answers := LooksStandalone(wording, u), AnswersSomething(frame, u);
            var distinct := IsDistinctNewTask(frame, wording, u);
            (relation.ReplaceWithNewRequest? <==>
               standalone
               && (wording.switches || (Plain(wording) && (distinct || (!answers && ProposesLeaving(u))))))
            && (relation.SideConversation? <==>
                  Plain(wording) && IsDirectConversation(u) && !answers && ProposesLeaving(u))
            && (relation.Ambiguous? <==>
                  (wording.switches && !standalone)
                  || (Plain(wording) && !distinct && !answers && u.relation == Some(CancelCurrent)))
            && !relation.CancelCurrent?
  {
    AnswersExactlyWhen(frame, u);
    hide Resolves, Filter, AnswersSomething, IsDirectConversation, Signatures, ResolvedKeys;
  }

  /** The relation the model proposes can turn no reply into a cancellation, nor one that answers into anything else. */
  lemma ProposalsDoNotOverrule(frame: Frame, wording: Wording, u: Understanding, proposed: Option<Relation>)
    ensures var before := DecideRelation(frame, wording, u);
            var after := DecideRelation(frame, wording, u.(relation := proposed));
            (before.relation.CancelCurrent? <==> after.relation.CancelCurrent?)
            && (ResolvedKeys(frame.pending, u) != [] ==> before == after)
            && (after.relation.ReplaceWithNewRequest? && !Terminal(frame.status) ==> LooksStandalone(wording, u))
  {
    var v := u.(relation := proposed);
    forall key ensures Resolves(v, key) <==> Resolves(u, key) {}
    FilterSame((key: string) => Resolves(u, key), (key: string) => Resolves(v, key), frame.pending);
    assert Signatures(v.tasks) == Signatures(u.tasks);
    hide Resolves, Filter, Signatures;
  }

  lemma {:induction false} FilterSame(p: string -> bool, q: string -> bool, s: seq<string>)
    requires forall x :: p(x) <==> q(x)
    ensures Filter(p, s) == Filter(q, s)
  {
    if s != [] {
      FilterSame(p, q, s[..|s| - 1]);
    }
  }

  // ----- Merging an answer into the understanding -----

  function FirstTwelve(operations: seq<SlotOperation>): seq<SlotOperation> {
    if |operations| <= 12 then operations else operations[..12]
  }

  /** The operations of `base`, then the new ones of `current` in order. */
  function MergedOperations(base: seq<SlotOperation>, current: seq<SlotOperation>): seq<SlotOperation> {
    if current == [] then base
    else
      var before := MergedOperations(base, current[..|current| - 1]);
      if current[|current| - 1] in before then before else before + [current[|current| - 1]]
  }

  method MergeOperations(base: seq<SlotOperation>, current: seq<SlotOperation>) returns (operations: seq<SlotOperation>)
    ensures operations == FirstTwelve(MergedOperations(base, current))
  {
    operations := base;
    for i := 0 to |current|
      invariant operations == MergedOperations(base, current[..i])
    {
      assert current[..i + 1][..i] == current[..i];
      if current[i] !in operations {
        operations := operations + [current[i]];
      }
    }
    assert current[..|current|] == current;
    operations := FirstTwelve(operations);
  }

  /** Nothing already recorded is dropped, nothing new is recorded twice. */
  lemma {:induction false} MergedOperationsKeep(base: seq<SlotOperation>, current: seq<SlotOperation>)
    ensures var merged := MergedOperations(base, current);
            base <= merged && Distinct(merged[|base|..]) && |merged| <= |base| + |current|
            && (forall op :: op in merged <==> op in base || op in current)
            && (forall op :: op in merged[|base|..] ==> op !in base)
  {
    if current != [] {
      var init, op := current[..|current| - 1], current[|current| - 1];
      MergedOperationsKeep(base, init);
      var before := MergedOperations(base, init);
      assert current == init + [op];
      if op !in before {
        assert (before + [op])[|base|..] == before[|base|..] + [op];
        assert forall x :: x in before[|base|..] ==> x in before;
      }
    }
  }

  /** `merge_continuation_understanding`. */
  function Merged(frame: Frame, current: Understanding): Understanding {
    var base := frame.base;
    var useCurrent := frame.kind.IntentDisambiguation? && current.tasks != [];
    base.(mode := ClarificationAnswerMode,
          intent := if useCurrent then current.intent else base.intent,
          tasks := if useCurrent then current.tasks else base.tasks,
          operations := FirstTwelve(MergedOperations(base.operations, current.operations)),
          explicitSlots := base.explicitSlots + current.explicitSlots,
          inheritedSlots := base.inheritedSlots + current.inheritedSlots,
          contextMessageIds :=
            if current.contextMessageIds != [] then current.contextMessageIds else base.contextMessageIds,
          cancelScope := None,
          relation := Some(ContinueCurrent),
          suggestedRoute := if useCurrent then current.suggestedRoute else base.suggestedRoute,
          confidence := if base.confidence >= current.confidence then base.confidence else current.confidence)
  }

  /**
   * The merged request is the base's, with the answer's slots over its own; only an answer to the question of intent
   * that brings tasks replaces what is asked for. It is as sure as the surer of both.
   */
  lemma MergedRequest(frame: Frame, current: Understanding)
    ensures var merged, base := Merged(frame, current), frame.base;
            var asked := if frame.kind.IntentDisambiguation? && |current.tasks| > 0 then current else base;
            merged.intent == asked.intent && merged.tasks == asked.tasks
            && merged.suggestedRoute == asked.suggestedRoute && merged.scope == base.scope
            && merged.mode == ClarificationAnswerMode && merged.cancelScope.None?
            && merged.relation == Some(ContinueCurrent)
            && merged.confidence in {base.confidence, current.confidence}
            && merged.confidence >= base.confidence && merged.confidence >= current.confidence
            && (merged.contextMessageIds == current.contextMessageIds
                || (current.contextMessageIds == [] && merged.contextMessageIds == base.contextMessageIds))
            && (forall name :: name in merged.explicitSlots ==>
                  merged.explicitSlots[name] == if name in current.explicitSlots then current.explicitSlots[name]
                                                else base.explicitSlots[name])
            && |merged.operations| <= 12 && merged.operations <= MergedOperations(base.operations, current.operations)
  {
    hide MergedOperations;
  }

  /** The tests `values.get(name)` makes, for a value given explicitly in the answer or kept from before. */
  predicate AnswersExplicitly(u: Understanding, key: string) {
    (key == "tool_or_chamber" && (Has(u.explicitSlots, "tool_id") || Has(u.explicitSlots, "chamber")))
    || (key == "affected_object" && HasAffectedObject(u.explicitSlots))
    || (key == "history_reference" && u.contextMessageIds != [])
    || ((key == "product" || key == "time_range") && Has(u.explicitSlots, key))
  }

  /** What an answer gives explicitly is given to the merged request, whatever was there before. */
  lemma ExplicitAnswersCount(frame: Frame, current: Understanding, key: string)
    requires AnswersExplicitly(current, key)
    ensures Resolves(Merged(frame, current), key)
  {
    hide FirstTwelve, MergedOperations;
    var merged, values := Merged(frame, current), Values(Merged(frame, current));
    assert forall name :: Has(current.explicitSlots, name) ==> Has(values, name);
  }

  /** So does an explicit answer in the reply itself. */
  lemma ExplicitAnswersResolve(u: Understanding, key: string)
    requires AnswersExplicitly(u, key)
    ensures Resolves(u, key)
  {
    assert forall name :: Has(u.explicitSlots, name) ==> Has(Values(u), name);
  }

  // ----- Moving the frame on -----

  function FirstOf(values: Slots, names: seq<string>): string {
    if names == [] then "provided" else if Has(values, names[0]) then values[names[0]] else FirstOf(values, names[1..])
  }

  function IntentText(intent: Intent): (r: string)
    ensures 1 <= |r| <= 512
  {
    match intent
    case Conversation => "conversation" case KnowledgeQuery => "knowledge_query" case Investigation => "investigation"
    case DataQuery => "data_query" case ActionRequest => "action_request" case ContentTask => "content_task"
  }

  /** `_resolved_value`. */
  function ResolvedValue(u: Understanding, key: string): string {
    var values := Values(u);
    if key == "tool_or_chamber" then FirstOf(values, ["tool_id", "chamber"])
    else if key == "affected_object" then FirstOf(values, ["product", "tool_id", "chamber", "lot_id", "case_id"])
    else if key == "history_reference" then (if u.contextMessageIds != [] then u.contextMessageIds[0] else "provided")
    else if key == INTENT_TARGET then IntentText(u.intent)
    else if key in values then values[key] else "provided"
  }

  /** The length bounds of a resolved item's value, which the contract model enforces. */
  predicate FitsItem(value: string) { 1 <= |value| <= 512 }

  /** The keys of `keys` that `after` does (or does not) hold. */
  function Within(keys: seq<string>, after: seq<string>): seq<string> {
    Filter((key: string) => key in after, keys)
  }

  function Without(keys: seq<string>, after: seq<string>): seq<string> {
    Filter((key: string) => key !in after, keys)
  }

  function Dropped(items: seq<ResolvedItem>, key: string): seq<ResolvedItem> {
    Filter((item: ResolvedItem) => item.key != key, items)
  }

  /** The resolved items after settling each key in turn. */
  function Settled(items: seq<ResolvedItem>, keys: seq<string>, u: Understanding): seq<ResolvedItem> {
    if keys == [] then items
    else
      var key := keys[|keys| - 1];
      Dropped(Settled(items, keys[..|keys| - 1], u), key) + [ResolvedItem(key, ResolvedValue(u, key))]
  }

  /** `update_frame_after_answer`; None where an item with an unfit value raises. */
  function Answered(frame: Frame, u: Understanding, after: seq<string>): Option<Frame> {
    var resolved := Without(frame.pending, after);
    if exists key :: key in resolved && !FitsItem(ResolvedValue(u, key)) then None
    else
      Some(frame.(
        pending := Within(frame.pending, after),
        resolved := Settled(frame.resolved, resolved, u),
        noProgress := if resolved != [] then 0 else if frame.noProgress + 1 <= 3 then frame.noProgress + 1 else 3,
        status := if after == [] then Resolved else Waiting,
        last := Some(ContinueCurrent),
        base := u))
  }

  method UpdateFrameAfterAnswer(frame: Frame, u: Understanding, after: seq<string>) returns (updated: Option<Frame>)
    ensures updated == Answered(frame, u, after)
  {
    hide ResolvedValue, FitsItem, Dropped;
    var resolved := Without(frame.pending, after);
    var items := frame.resolved;
    for i := 0 to |resolved|
      invariant items == Settled(frame.resolved, resolved[..i], u)
      invariant forall k :: 0 <= k < i ==> FitsItem(ResolvedValue(u, resolved[k]))
    {
      var key := resolved[i];
      assert resolved[..i + 1][..i] == resolved[..i];
      var value := ResolvedValue(u, key);
      items := Dropped(items, key);
      if !FitsItem(value) {
        assert key in resolved;
        return None;
      }
      items := items + [ResolvedItem(key, value)];
    }
    assert resolved[..|resolved|] == resolved;
    var count := if resolved != [] then 0 else if frame.noProgress + 1 <= 3 then frame.noProgress + 1 else 3;
    updated := Some(frame.(
      pending := Within(frame.pending, after), resolved := items, noProgress := count,
      status := if after == [] then Resolved else Waiting, last := Some(ContinueCurrent), base := u));
  }

  function ItemKeys(items: seq<ResolvedItem>): seq<string> {
    Map((item: ResolvedItem) => item.key, items)
  }

  lemma {:induction false} DroppedKeys(items: seq<ResolvedItem>, key: string)
    requires Distinct(ItemKeys(items))
    ensures Distinct(ItemKeys(Dropped(items, key)))
    ensures forall k :: k in ItemKeys(Dropped(items, key)) <==> k in ItemKeys(items) && k != key
    ensures forall item :: item in Dropped(items, key) <==> item in items && item.key != key
  {
    if items != [] {
      var init, item := items[..|items| - 1], items[|items| - 1];
      assert items == init + [item];
      MapAdd((x: ResolvedItem) => x.key, init, item);
      FilterAdd((x: ResolvedItem) => x.key != key, init, item);
      MapAdd((x: ResolvedItem) => x.key, Dropped(init, key), item);
      assert ItemKeys(items) == ItemKeys(init) + [item.key];
      hide Filter, Map;
      LastIsNew(ItemKeys(init), item.key);
      DroppedKeys(init, key);
      if item.key == key {
        assert Dropped(items, key) == Dropped(init, key);
      } else {
        assert Dropped(items, key) == Dropped(init, key) + [item];
        assert ItemKeys(Dropped(items, key)) == ItemKeys(Dropped(init, key)) + [item.key];
        hide Dropped, ItemKeys;
        LastIsNew(ItemKeys(Dropped(init, key)), item.key);
      }
    }
  }

  lemma LastIsNew(s: seq<string>, x: string)
    ensures Distinct(s + [x]) <==> Distinct(s) && x !in s
  {
    if Distinct(s + [x]) {
      assert forall i :: 0 <= i < |s| ==> (s + [x])[i] != (s + [x])[|s|];
      assert (s + [x])[..|s|] == s;
      PrefixIsDistinct(s + [x], |s|);
    }
  }

  /** Each settled key has its one item, with the value of this answer; every other item is kept as it was. */
  lemma {:induction false} SettledItems(items: seq<ResolvedItem>, keys: seq<string>, u: Understanding)
    requires Distinct(ItemKeys(items)) && Distinct(keys)
    ensures var settled := Settled(items, keys, u);
            Distinct(ItemKeys(settled))
            && (forall key :: key in ItemKeys(settled) <==> key in ItemKeys(items) || key in keys)
            && (forall item :: item in settled <==>
                  if item.key in keys then item.value == ResolvedValue(u, item.key) else item in items)
  {
    if keys != [] {
      var init, key := keys[..|keys| - 1], keys[|keys| - 1];
      assert keys == init + [key];
      SettledItems(items, init, u);
      var before := Settled(items, init, u);
      DroppedKeys(before, key);
      var added := ResolvedItem(key, ResolvedValue(u, key));
      MapAdd((x: ResolvedItem) => x.key, Dropped(before, key), added);
      assert ItemKeys(Settled(items, keys, u)) == ItemKeys(Dropped(before, key)) + [key];
      hide Map, Filter, ResolvedValue, Dropped;
      assert key !in init;
    }
  }

  /**
   * An answer accounts for every pending item: each is either still pending or resolved, never both or neither,
   * and the items resolved earlier stay resolved.
   */
  lemma AnswersAccountForEveryItem(frame: Frame, u: Understanding, after: seq<string>)
    requires Distinct(frame.pending) && Distinct(ItemKeys(frame.resolved)) && Answered(frame, u, after).Some?
    ensures var f := Answered(frame, u, after).value;
            Distinct(f.pending) && Distinct(ItemKeys(f.resolved))
            && (forall key :: key in frame.pending ==> (key in f.pending <==> key in after))
            && (forall key :: key in f.pending ==> key in frame.pending)
            && (forall key :: key in ItemKeys(f.resolved) <==>
                  key in ItemKeys(frame.resolved) || (key in frame.pending && key !in after))
            && (f.noProgress == 0 <==> exists key :: key in frame.pending && key !in after)
  {
    hide ResolvedValue, FitsItem, Settled, Distinct, ItemKeys, Without, Within;
    var resolved := Without(frame.pending, after);
    SplitKeys(frame.pending, after);
    SettledItems(frame.resolved, resolved, u);
    if resolved != [] {
      assert resolved[0] in frame.pending && resolved[0] !in after;
    }
  }

  /** Everything else about a frame after an answer: its progress, status and what it knows. */
  lemma AnsweredOtherwise(frame: Frame, u: Understanding, after: seq<string>)
    requires Answered(frame, u, after).Some?
    ensures var f := Answered(frame, u, after).value;
            f.id == frame.id && f.kind == frame.kind && f.original == frame.original && f.round == frame.round
            && f.base == u && f.last == Some(ContinueCurrent)
            && (f.status.Resolved? <==> after == []) && (f.status.Waiting? <==> after != [])
            && ((forall key :: key in frame.pending ==> key in after) ==>
                  f.noProgress == if frame.noProgress >= 3 then 3 else frame.noProgress + 1)
  {
    hide ResolvedValue, FitsItem, Settled;
    assert forall key :: key in Without(frame.pending, after) ==> key in frame.pending && key !in after;
    hide Without, Within;
    if Without(frame.pending, after) != [] {
      assert Without(frame.pending, after)[0] in Without(frame.pending, after);
    }
  }

  lemma SplitKeys(pending: seq<string>, after: seq<string>)
    requires Distinct(pending)
    ensures Distinct(Within(pending, after)) && Distinct(Without(pending, after))
    ensures forall key :: key in Within(pending, after) <==> key in pending && key in after
    ensures forall key :: key in Without(pending, after) <==> key in pending && key !in after
  {
    FilterKeepsDistinct((key: string) => key !in after, pending);
    FilterKeepsDistinct((key: string) => key in after, pending);
  }

  lemma {:induction false} FilterKeepsDistinct(p: string -> bool, s: seq<string>)
    requires Distinct(s)
    ensures Distinct(Filter(p, s)) && |Filter(p, s)| <= |s|
  {
    if s != [] {
      var init, x := s[..|s| - 1], s[|s| - 1];
      assert s == init + [x];
      FilterAdd(p, init, x);
      FilterKeepsDistinct(p, init);
      assert x !in init;
    }
  }

  /** `terminal_transition`. */
  function Turned(frame: Frame, relation: Relation): Frame {
    var status :=
      match relation
      case CancelCurrent => Cancelled
      case ReplaceWithNewRequest => Superseded
      case SideConversation => Paused
      case Ambiguous => Paused
      case ContinueCurrent => frame.status;
    frame.(status := status, last := Some(relation))
  }

  /** A frame that a reply leaves is cancelled, superseded or paused by the relation, and remembers it. */
  lemma TurnedStatus(frame: Frame, relation: Relation)
    ensures var f := Turned(frame, relation);
            f.last == Some(relation) && f == frame.(status := f.status, last := f.last)
            && if relation.ContinueCurrent? then f.status == frame.status
               else
                 (f.status.Cancelled? <==> relation.CancelCurrent?)
                 && (f.status.Superseded? <==> relation.ReplaceWithNewRequest?)
                 && (f.status.Paused? <==> relation in {SideConversation, Ambiguous})
  {}

  lemma {:induction false} FirstOfIsNotEmpty(values: Slots, names: seq<string>)
    ensures FirstOf(values, names) != ""
  {
    if names != [] && !Has(values, names[0]) {
      FirstOfIsNotEmpty(values, names[1..]);
    }
  }

  /** The keys whose resolved value is taken over as it stands, so that it may be empty. */
  predicate TakenOver(key: string) {
    key != "tool_or_chamber" && key != "affected_object" && key != INTENT_TARGET
  }

  /** An answer is refused exactly when it settles an item with a value of more than 512 characters, or an empty one. */
  lemma AnswerRaisesExactlyWhen(frame: Frame, u: Understanding, after: seq<string>)
    ensures Answered(frame, u, after).None?
            <==> exists key :: key in frame.pending && key !in after
                   && (|ResolvedValue(u, key)| > 512 || (TakenOver(key) && ResolvedValue(u, key) == ""))
  {
    hide Settled;
    var resolved := Without(frame.pending, after);
    assert forall key :: key in resolved <==> key in frame.pending && key !in after;
    FirstOfIsNotEmpty(Values(u), ["tool_id", "chamber"]);
    FirstOfIsNotEmpty(Values(u), ["product", "tool_id", "chamber", "lot_id", "case_id"]);
    hide FirstOf, Filter;
    forall key ensures FitsItem(ResolvedValue(u, key))
        <==> !(|ResolvedValue(u, key)| > 512 || (TakenOver(key) && ResolvedValue(u, key) == "")) {
    }
  }
}
