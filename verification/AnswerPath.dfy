/**
 * The evidence-answer path from the direct prelude to the persisted text: three pieces of code that write the
 * same text independently, and the conditions under which they agree.
 */
module AnswerPath {
  import opened AnswerAcceptance
  import opened AnswerAssembler
  import opened AnswerFormat
  import opened AnswerGrowth
  import opened AnswerVerification
  import opened DirectPrelude
  import opened Domain
  import opened IncrementalReader
  import opened JsonUnits
  import opened Sequences
  import LlmGateway
  import StreamService

  // ----- The gate decides the answer mode -----

  /** The scope recorded by the sufficiency assessment; with the gate off or for tools only it stays unspecified. */
  function AssessedScope(gateOn: bool, toolOnly: bool, u: Understanding): KnowledgeScope {
    if !gateOn || toolOnly then UnspecifiedScope else KnowledgeScopeOf(u)
  }

  /** The scope test the verifier makes for itself. */
  predicate InternalScope(u: Understanding) {
    u.scope.InternalControlledScope? || exists task :: task in u.tasks && (task.target.Sop? || task.target.Recipe?)
  }

  /** How the generation node configures the assembler. */
  predicate ConfiguredFor(cfg: Config, gateOn: bool, toolOnly: bool, u: Understanding) {
    cfg.natural == AssessedScope(gateOn, toolOnly, u).PublicGeneral? && cfg.enforceAuthority == !cfg.natural
  }

  /** The two scope tests are written differently, yet the verifier is never stricter than the assembler was. */
  lemma VerifierIsNeverStricter(cfg: Config, gateOn: bool, toolOnly: bool, u: Understanding)
    requires ConfiguredFor(cfg, gateOn, toolOnly, u)
    ensures InternalScope(u) || !gateOn || toolOnly ==> cfg.enforceAuthority
    ensures gateOn && !toolOnly && u.scope != MixedScope && u.scope != NotApplicable ==>
              (InternalScope(u) <==> cfg.enforceAuthority)
  {}

  // ----- Generation and verification -----

  const NO_EVIDENCE_NATURAL := Answer([], [], ["本次知识库检索与外部搜索都没有返回可核验的资料。"], ["换一种更具体的问法后重试外部搜索。"], Low)
  const NO_EVIDENCE_REPORT := Answer([], [], ["当前权限、版本和有效期范围内没有足以支持结论的证据。"], ["补充受影响对象、时间范围或可核验的文档与制造数据。"], Low)

  /**
   * `_generate_answer` outside demo mode: the deltas of all attempts as the gateway delivered them to the one
   * assembler, and whether it then returned a completion. None where the node raises.
   */
  function Generate(cfg: Config, deltas: seq<string>, completed: bool): (seq<string>, Option<Answer>) {
    if cfg.ledger == [] then
      var a := if cfg.natural then NO_EVIDENCE_NATURAL else NO_EVIDENCE_REPORT;
      ([Formatted(cfg, a)], Some(a))
    else
      var d := Delivered(JSON_LEXER, UnitProcessor(cfg), EMPTY, deltas);
      if !completed then (d.state.emitted, None)
      else (Finish(cfg, d.state, d.buffer).0.emitted, FinishedAnswer(cfg, deltas))
  }

  /**
   * The node finishes if and only if there is no evidence at all, or the call completed and the assembler could
   * finish; its answer then is the one for no evidence, or holds what the assembler took, with a fact in front.
   */
  lemma GeneratesExactlyWhen(cfg: Config, deltas: seq<string>, completed: bool)
    ensures var d := Delivered(JSON_LEXER, UnitProcessor(cfg), EMPTY, deltas);
            var rest := Drain(JSON_LEXER, UnitProcessor(cfg), d.state, d.buffer);
            var answer := Generate(cfg, deltas, completed).1;
            if cfg.ledger == [] then answer == Some(if cfg.natural then NO_EVIDENCE_NATURAL else NO_EVIDENCE_REPORT)
            else
              (answer.Some? <==>
                 completed && rest.error.None? && NothingLeft(rest.buffer) && rest.state.units > 0
                 && !NothingToQuote(cfg, rest.state))
              && (answer.Some? ==>
                    FactsInFront(cfg, rest.state.facts, answer.value.facts)
                    && answer.value == AnswerOf(rest.state).(facts := answer.value.facts))
  {
    hide UnitProcessor, Consistent, NothingLeft, NothingToQuote, FactsInFront, Finish, Drain;
    DeliveringIsConsistent(cfg, deltas);
    var d := Delivered(JSON_LEXER, UnitProcessor(cfg), EMPTY, deltas);
    FinishesExactlyWhen(cfg, d.state, d.buffer);
  }

  /** Every answer delta of the path, in the order of the nodes that emit them. */
  function StreamedDeltas(cfg: Config, parts: seq<Part>, deltas: seq<string>, completed: bool): seq<string> {
    PreludeDeltas(parts) + (if CombinedText(parts) == "" then [] else [PARAGRAPH]) + Generate(cfg, deltas, completed).0
  }

  /** The answer text the verification node stores for a generated answer. */
  function StoredText(cfg: Config, internalScope: bool, parts: seq<Part>, a: Answer): string {
    var text := Formatted(cfg, VerifiedAnswer(cfg.ledger, internalScope, a));
    if CombinedText(parts) == "" then text else CombinedText(parts) + PARAGRAPH + text
  }

  lemma NoEvidenceStays(internalScope: bool, a: Answer)
    requires a.facts == [] && a.hypotheses == []
    ensures VerifiedAnswer([], internalScope, a) == a
  {}

  lemma GeneratedAnswerStays(cfg: Config, internalScope: bool, deltas: seq<string>, completed: bool)
    requires internalScope ==> cfg.enforceAuthority
    requires LedgerStable(cfg.ledger, internalScope) && Generate(cfg, deltas, completed).1.Some?
    ensures var (emitted, a) := Generate(cfg, deltas, completed);
            VerifiedAnswer(cfg.ledger, internalScope, a.value) == a.value && Concat(emitted) == Formatted(cfg, a.value)
  {
    hide LedgerStable, Formatted, VerifiedAnswer, Finish, UnitProcessor, Grounded;
    if cfg.ledger == [] {
      var a := Generate(cfg, deltas, completed).1.value;
      NoEvidenceStays(internalScope, a);
      ConcatOne(Formatted(cfg, a));
    } else {
      FinishedStreamShowsItsAnswer(cfg, deltas);
      FinishedAnswersAreGrounded(cfg, deltas);
      GroundedAnswerStays(cfg, internalScope, FinishedAnswer(cfg, deltas).value);
    }
  }

  /** The answer node's result is stored as it was streamed. */
  predicate StreamedIsStored(
    cfg: Config, internalScope: bool, parts: seq<Part>, deltas: seq<string>, completed: bool)
    requires Generate(cfg, deltas, completed).1.Some?
  {
    Concat(StreamedDeltas(cfg, parts, deltas, completed))
    == StoredText(cfg, internalScope, parts, Generate(cfg, deltas, completed).1.value)
  }

  /**
   * Incremental rendering, verification and the stored text agree: whatever deltas all attempts delivered, raising
   * or not, whenever the node finishes, what was streamed, prelude included, is what is stored, provided no
   * prelude task ran twice and the ledger is stable.
   */
  lemma StreamedTextIsStoredText(
    cfg: Config, gateOn: bool, toolOnly: bool, u: Understanding, parts: seq<Part>, deltas: seq<string>, completed: bool)
    requires ConfiguredFor(cfg, gateOn, toolOnly, u) && Distinct(Ids(parts))
    requires LedgerStable(cfg.ledger, InternalScope(u)) && Generate(cfg, deltas, completed).1.Some?
    ensures StreamedIsStored(cfg, InternalScope(u), parts, deltas, completed)
  {
    hide LedgerStable, Formatted, VerifiedAnswer, Generate, CombinedText, InternalScope, ConfiguredFor, PreludeDeltas;
    VerifierIsNeverStricter(cfg, gateOn, toolOnly, u);
    GeneratedAnswerStays(cfg, InternalScope(u), deltas, completed);
    PreludeAgreesExactlyWhen(parts);
    var gap := if CombinedText(parts) == "" then [] else [PARAGRAPH];
    ConcatAppend(PreludeDeltas(parts) + gap, Generate(cfg, deltas, completed).0);
    ConcatAppend(PreludeDeltas(parts), gap);
    ConcatOne(PARAGRAPH);
  }

  /** What the answer node leaves for the service: the stored text, and no interrupt. */
  function LeftFor(cfg: Config, internalScope: bool, parts: seq<Part>, a: Answer): StreamService.FinalState {
    StreamService.FinalState(None, StoredText(cfg, internalScope, parts, a))
  }

  /**
   * So the service's "verified answer differs from streamed answer" error is unreachable on this path: a run that
   * took the path's deltas and its last state from the queue, in whatever interleaving with other items, completes
   * undisturbed with its response, and with no further delta unless the stored text is empty.
   */
  lemma FinalTextGuardNeverRejects(
    cfg: Config, gateOn: bool, toolOnly: bool, u: Understanding, parts: seq<Part>, deltas: seq<string>, completed: bool,
    actions: seq<StreamService.Action>)
    requires ConfiguredFor(cfg, gateOn, toolOnly, u) && Distinct(Ids(parts))
    requires LedgerStable(cfg.ledger, InternalScope(u)) && Generate(cfg, deltas, completed).1.Some?
    requires StreamService.NobodyCancels(actions)
    ensures var left := LeftFor(cfg, InternalScope(u), parts, Generate(cfg, deltas, completed).1.value);
            StreamService.TookFromGraph(actions, StreamedDeltas(cfg, parts, deltas, completed), left) ==>
              CompletesQuietly(StreamService.Steps(StreamService.Begin(None), actions), left)
  {
    hide *;
    var left := LeftFor(cfg, InternalScope(u), parts, Generate(cfg, deltas, completed).1.value);
    var emitted := StreamedDeltas(cfg, parts, deltas, completed);
    StreamedTextIsStoredText(cfg, gateOn, toolOnly, u, parts, deltas, completed);
    StoredIsStreamed(cfg, InternalScope(u), parts, deltas, completed);
    if StreamService.TookFromGraph(actions, emitted, left) {
      StreamService.TakenIsStreamed(actions, emitted, left);
      StreamedCompletes(StreamService.Steps(StreamService.Begin(None), actions), left);
    }
  }

  /** Undisturbed, the run completes with what the graph left, and with no further delta unless that text is empty. */
  predicate CompletesQuietly(run: StreamService.Run, left: StreamService.FinalState) {
    var after := StreamService.Steps(run, StreamService.UNDISTURBED);
    StreamService.CompletedWith(after, StreamService.ResponseText(left))
    && (left.answerText != "" ==> after.events == run.events + StreamService.QuietTail(run))
  }

  lemma StreamedCompletes(run: StreamService.Run, left: StreamService.FinalState)
    requires StreamService.Sound(run) && run.phase.AfterLoop? && !run.cancelled && run.final == left
    requires left.interrupt.None? && left.answerText == run.streamed
    ensures CompletesQuietly(run, left)
  {
    hide StreamService.Sound, StreamService.Steps, StreamService.ResponseText, StreamService.CompletedWith;
    ResponseIsStored(left, run.streamed);
    StreamService.GuardRejectsExactlyWhen(run);
    if left.answerText != "" {
      StreamService.AgreementNeedsNoSuffix(run);
    }
  }

  lemma StoredIsStreamed(cfg: Config, internalScope: bool, parts: seq<Part>, deltas: seq<string>, completed: bool)
    requires Generate(cfg, deltas, completed).1.Some?
    ensures StreamedIsStored(cfg, internalScope, parts, deltas, completed) ==>
              var left := LeftFor(cfg, internalScope, parts, Generate(cfg, deltas, completed).1.value);
              left.interrupt.None? && left.answerText == Concat(StreamedDeltas(cfg, parts, deltas, completed))
  {
    hide Generate, StreamedDeltas, StoredText, Concat;
  }

  lemma ResponseIsStored(state: StreamService.FinalState, text: string)
    requires state.interrupt.None? && state.answerText == text
    ensures text <= StreamService.ResponseText(state)
    ensures text != "" ==> StreamService.ResponseText(state) == text
  {}

  // ----- From the provider to the assembler -----

  /** The assembler as the consumer of the provider's deltas: it raises at the last of these texts. */
  function AssemblerConsumer(cfg: Config): LlmGateway.Consumer {
    (texts: seq<string>) => Delivered(JSON_LEXER, UnitProcessor(cfg), EMPTY, texts).error.Some?
  }

  /** The units the assembler meets in these texts hold no hypothesis that the rewording lengthens past the limit. */
  predicate HarmlessTexts(cfg: Config, texts: seq<string>) {
    forall unit :: unit in UnitsMet(cfg, texts) ==> !RewordsTooLong(cfg.decode(unit))
  }

  lemma HarmlessTextsRaiseNowhere(cfg: Config, texts: seq<string>)
    requires HarmlessTexts(cfg, texts) && forall e :: e in cfg.ledger ==> e.content != ""
    ensures LlmGateway.RaisesNowhere(AssemblerConsumer(cfg), texts)
  {
    hide UnitProcessor, UnitsMet, RewordsTooLong, Delivered;
    HarmlessLedgerNeverRaises(cfg, texts);
  }

  /** Where every script of a run says harmless texts, the assembler does not raise in the run. */
  lemma HarmlessScriptsRaiseNowhere(cfg: Config, gw: LlmGateway.Gateway)
    requires gw.consumer == AssemblerConsumer(cfg) && forall e :: e in cfg.ledger ==> e.content != ""
    requires forall p, a :: 0 <= p < |gw.providers| && gw.providers[p] && 1 <= a <= gw.policy.maxAttempts ==>
               HarmlessTexts(cfg, LlmGateway.Said(gw.scripts(p, a).events))
    ensures LlmGateway.RaisesNowhere(gw.consumer, LlmGateway.Texts(LlmGateway.CompleteFrom(gw, 0, []).0))
  {
    hide HarmlessTexts, AssemblerConsumer, LlmGateway.RaisesNowhere, LlmGateway.CompleteFrom;
    forall p, a | 0 <= p < |gw.providers| && gw.providers[p] && 1 <= a <= gw.policy.maxAttempts
      ensures LlmGateway.RaisesNowhere(gw.consumer, LlmGateway.Said(gw.scripts(p, a).events))
    {
      HarmlessTextsRaiseNowhere(cfg, LlmGateway.Said(gw.scripts(p, a).events));
    }
    LlmGateway.QuietScriptsStayQuiet(gw, 0);
  }

  /** The assembler's state after these texts and the one whole text are the same, with no exception on the way. */
  predicate ReadAsOne(cfg: Config, texts: seq<string>, whole: string) {
    var d := Delivered(JSON_LEXER, UnitProcessor(cfg), EMPTY, texts);
    d.error.None? && d == Delivered(JSON_LEXER, UnitProcessor(cfg), EMPTY, [whole])
  }

  /**
   * In a run whose delivered texts are harmless to the assembler, retries and fallback are invisible: one attempt
   * alone feeds it, and for a stream of objects its answer is a function of the completion's content.
   */
  lemma AnswerDependsOnContentOnly(cfg: Config, gw: LlmGateway.Gateway)
    requires forall e :: e in cfg.ledger ==> e.content != ""
    ensures var (log, result, _) := LlmGateway.CompleteFrom(gw.(consumer := AssemblerConsumer(cfg)), 0, []);
            HarmlessTexts(cfg, LlmGateway.Texts(log)) ==>
              LlmGateway.OneAttempt(log)
              && (result.Completion? && ObjectStream(result.content) ==>
                    ReadAsOne(cfg, LlmGateway.Texts(log), result.content))
  {
    hide UnitProcessor, RewordsTooLong, LlmGateway.CompleteFrom, ObjectStream, LlmGateway.RaisesNowhere, UnitsMet;
    hide AssemblerConsumer, LlmGateway.OneAttempt, FeedAll, Delivered;
    var run := gw.(consumer := AssemblerConsumer(cfg));
    var (log, result, _) := LlmGateway.CompleteFrom(run, 0, []);
    if HarmlessTexts(cfg, LlmGateway.Texts(log)) {
      HarmlessTextsRaiseNowhere(cfg, LlmGateway.Texts(log));
      LlmGateway.VisibleContentIsNeverReplayed(run);
      if result.Completion? && ObjectStream(result.content) {
        ConcatOne(result.content);
        JsonCutSafe();
        HarmlessLedgerNeverRaises(cfg, LlmGateway.Texts(log));
        ChunkingIsInvisible(
          JSON_LEXER, ObjectStream, UnitProcessor(cfg), EMPTY, LlmGateway.Texts(log), [result.content]);
        DeliveredWithoutError(JSON_LEXER, UnitProcessor(cfg), EMPTY, [result.content]);
      }
    }
  }
}
