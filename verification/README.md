# The agent runtime's streaming and planning core, proved

This project models the deterministic code around the language model of the SEMIKB agent runtime, and proves what
that code promises over every model output, every way of cutting a network stream, every provider failure and every
run of user turns. The model, retrieval and storage are arbitrary inputs: a model output is any text, a provider is
any script of events and failures, an understanding is any value, a user sends anything at any time.

Code that changes state step by step is modelled as methods and classes with the same fields and loops, each proved
against a function; what the code promises is then proved about that function.

| File | Part of the system |
|---|---|
| `Sequences.dfy`, `Numbers.dfy` | list, string and decimal helpers of the language |
| `IncrementalReader.dfy`, `JsonUnits.dfy` | text arriving in chunks; finding where a JSON value ends |
| `AnswerFormat.dfy`, `AnswerAssembler.dfy`, `AnswerGrowth.dfy`, `AnswerAcceptance.dfy` | the answer assembler, its two formatters, its invariant, and what it takes |
| `AnswerVerification.dfy`, `VerifiedClaims.dfy`, `LedgerStability.dfy`, `EvidenceLedger.dfy` | the verifying node, and the ledgers on which it agrees with the assembler |
| `DirectPrelude.dfy`, `AnswerPath.dfy` | the direct prelude, and the agreement of all texts on the evidence path |
| `StreamService.dfy`, `InterruptReplies.dfy` | the event protocol of one streamed message, with cancellation, and runs that end in a question |
| `ProviderRetry.dfy`, `LlmGateway.dfy`, `StreamCompletion.dfy` | retries, fallback providers, content that is already visible, and which calls complete |
| `Domain.dfy`, `Routing.dfy`, `TaskRouting.dfy`, `TaskExecution.dfy`, `TaskResults.dfy` | from an understanding to a plan, and from the plan to task results |
| `Clarification.dfy`, `ClarificationGraph.dfy`, `ClarificationReplies.dfy` | clarification frames, the conversation graph as a state machine, and what each reply leaves of its state |
| `ConversationTurns.dfy`, `ConversationSummary.dfy`, `SlotContext.dfy` | turn numbers, the kept summary, slots and what invalidates them |
| `DirectReply.dfy`, `DirectReplyUnits.dfy` | replies that need no evidence, as a protocol of validated units |
| `PdfWriter.dfy`, `DigestFraming.dfy`, `SseDecoder.dfy` | the exact algorithms of the scripts |

## What turned out to hold only under a condition

* **The assembler can raise.** `_validated_claim` checks nothing about length, but the claim model it builds does
  (1 to 2000 characters). Replacing "根因是" by the longer "待验证假设是" can pass the limit, and an empty ledger entry can
  be quoted. `UnitRaisesExactlyWhen` and `StreamRaisesExactlyWhen` give the exact condition, `LongHypothesisRaises`
  inputs that meet it on every ledger; they are exact up to the inputs outside the text type and the decoder's limits
  named under "Left out". The attempt is then repeated into the same assembler, which may still finish;
  what it streamed is what is stored on those runs too (`StreamedTextIsStoredText`).
* **A reply to a question is kept** exactly when it is its own strip, because it is stored stripped and streamed as it
  stands (`AskedReplyIsKeptExactlyWhen`). All replies but recalls are, as far as the server's own texts are
  (`RepliesAreTrimmed`); the recall of a message that ends in white space is not (`RecallsAreTrimmedExactlyWhen`), and
  such a run fails with nothing saved.
* **Visible content can be replayed** to a consumer that raises, because its exception is classified as a retryable
  transport failure. In a run in which the consumer does not raise, nothing is (`VisibleContentIsNeverReplayed`); over
  all provider behaviours `NothingIsReplayedExactlyWhen` gives the exact condition. The assembler does not raise in a
  run whose scripts say no over-long hypothesis, on a ledger without empty entries (`HarmlessScriptsRaiseNowhere`).
* **The prelude's stored text is its streamed text** exactly when no task id was executed twice
  (`PreludeAgreesExactlyWhen`): a second reply for one id replaces the first in the dictionary, not on the screen.
* **The verifier changes nothing** in what any stream finishes exactly when the ledger is stable
  (`VerifierChangesNothingExactlyWhen`, on ledgers without empty entries). Distinct evidence ids, none an alias of
  another entry, are enough (`UnambiguousLedgersAreStable`); the ledgers the graph builds are stable unless a chunk
  or document id imitates a chunk's evidence id (`BuiltLedgersAreStable`).
* **Chunk boundaries are invisible** for streams of JSON objects and white space, not for bare numbers
  (`CutNumberParsesDifferently`).
* **A cancel before the check after the loop saves nothing and completes nothing**, but an error event can still
  follow: exactly when the resumption it meets is a set-up that fails or a wait whose item raises
  (`CancelRacesWithFailure`, `DrainedCancelFailsExactlyWhen`).
* **An answer can be saved without a terminal event**, when the consumer goes away after the save; what is saved is
  still, in every run, exactly what was streamed (`EveryRunIsSound`).
* **A RAG_AND_WEB task gets no web pages** while the web fallback is off or the scope is not public, and a
  REUSE_EVIDENCE task nothing to reuse once the trace is gone; these are the only needs a plan's route leaves open
  (`PlansArePredefinedAndSupplied`).
* **The combination check alone lets INTERNAL_RAG, TOOL_ONLY and RAG_AND_WEB run together**
  (`CombinationCheckAloneIsTooWeak`); no request can produce them together (`FirstRoutesShareATail`), so plans are safe.
* **Appending a message only appends to the normalized history** exactly when its number is absent, in use, or not
  below the next one (`AppendExtendsExactlyWhen`).
* **The kept summary loses a line** when a message is numbered below the message it reaches to; otherwise it is the
  summary built from nothing while that fits (`KeptSummaryIsScratchExactlyWhen`). The context assembled for a message
  that stands inside the summary repeats its line (`AssembledContextExactlyWhen`).
* **A clarification answer can raise**: an item it settles must hold 1 to 512 characters, and a slot given as the
  empty string does not (`AnswerRaisesExactlyWhen`).
* **A failed clarification with its suffix asks every missing slot once** exactly when every slot beyond the
  server's list of questions had been asked before (`FailedClarificationCoversExactlyWhen`).
* **A PDF text line is read back** exactly when it holds no carriage return (`PageShowsEveryLine`); and the event
  decoder is independent of chunking unless a boundary splits a CR LF (`ChunkingDoesNotChangeTheEvents`,
  `SplitCrlfLosesAnEvent`).

## Model

| member | source | states |
|---|---|---|
| IncrementalReader.ChunkingIsInvisible | src/semikb/agent_runtime/streaming_answer.py:99-146 | any two chunkings of one text leave any consumer in the same state, or raise the same error, for every lexer whose texts may be cut safely |
| IncrementalReader.DrainSplit | src/semikb/agent_runtime/streaming_answer.py:131-146 | draining `a + b` is draining `a`, then `b` behind what `a` left in the buffer |
| IncrementalReader.FeedingIsProcessing | src/semikb/agent_runtime/streaming_answer.py:99-146 | feeding chunks is processing the units met, in order, up to the first that raises |
| IncrementalReader.DeliveredWithoutError | src/semikb/agent_runtime/graph.py:1527-1530 | going on after exceptions is the same as stopping at them where nothing raises |
| JsonUnits.JsonCutSafe | src/semikb/agent_runtime/streaming_answer.py:131-153 | a stream whose units are all objects may be cut anywhere, inside strings and escapes too |
| JsonUnits.ObjectsArriveWhole | src/semikb/agent_runtime/streaming_answer.py:131-153 | objects separated by white space are processed whole, once and in order, however they are cut |
| JsonUnits.CutNumberParsesDifferently | src/semikb/agent_runtime/streaming_answer.py:131-146 | every bare number cut before a non-zero digit becomes two units, so the chunk claim stops at objects |
| AnswerFormat.FormatAnswer | src/semikb/agent_runtime/streaming_answer.py:13-33 | the loop-built report is the report function of the answer |
| AnswerFormat.FormatNaturalKnowledgeAnswer | src/semikb/agent_runtime/streaming_answer.py:36-46 | the loop-built prose is the paragraphs of the answer, joined |
| AnswerFormat.ConfidenceLineIsLast | src/semikb/agent_runtime/streaming_answer.py:292-301 | cutting at the last confidence mark removes exactly the confidence line, whatever the text above it holds |
| AnswerFormat.ExtensionAddsAtEnd | src/semikb/agent_runtime/streaming_answer.py:13-46 | an answer extended in unit order only adds lines and paragraphs at the end, in both formats |
| AnswerAssembler.StreamingAnswerAssembler.Feed | src/semikb/agent_runtime/streaming_answer.py:99-103 | one call consumes exactly the complete units of buffer and delta, in order, until one raises |
| AnswerAssembler.StreamingAnswerAssembler.FinishAnswer | src/semikb/agent_runtime/streaming_answer.py:105-126 | drains the rest, quotes a fact if there is none, defaults the confidence, and returns the answer of the state |
| AnswerAssembler.StreamingAnswerAssembler.ConsumeAvailable | src/semikb/agent_runtime/streaming_answer.py:131-153 | the parsing loop is the drain of the buffer |
| AnswerAssembler.StreamingAnswerAssembler.ProcessOne | src/semikb/agent_runtime/streaming_answer.py:155-200 | one unit changes the fields as the unit function says, error cases included |
| AnswerAssembler.StreamingAnswerAssembler.EmitRenderGrowth | src/semikb/agent_runtime/streaming_answer.py:292-301 | emits exactly what the shown text grew by, and raises if it is not a growth |
| AnswerAcceptance.FactIsTakenExactlyWhen | src/semikb/agent_runtime/streaming_answer.py:155-251 | a fact is appended, and nothing else changed, if and only if no later kind of unit came before, its stripped text is not empty, it names a known entry, authority does not exclude it and it overstates no preview it cites; it is then the text cut to 2000 characters with the entries named, each once and in order |
| AnswerAcceptance.HypothesisIsTakenExactlyWhen | src/semikb/agent_runtime/streaming_answer.py:155-251 | a hypothesis is appended, reworded and with the known entries it names, if and only if it is in order, a fact stands in front of it or can be quoted, its stripped text is not empty and the rewording fits |
| AnswerAcceptance.UnknownIsTakenExactlyWhen | src/semikb/agent_runtime/streaming_answer.py:181-200 | a gap is appended as its cleaned text if and only if it is reached and says something; the facts in front are those there were or the quote of the preferred entry |
| AnswerAcceptance.NextActionIsTakenExactlyWhen | src/semikb/agent_runtime/streaming_answer.py:181-200 | the same for next actions, in their own list |
| AnswerAcceptance.ConfidenceIsTakenExactlyWhen | src/semikb/agent_runtime/streaming_answer.py:186-200 | the first confidence reached is the one that counts, low if it is none of the three levels |
| AnswerAcceptance.FactWarnings | src/semikb/agent_runtime/streaming_answer.py:219-251 | a fact that is looked at adds no warning if it is taken, and else that of the first rule it breaks |
| AnswerAcceptance.CitesExactlyWhen | src/semikb/agent_runtime/streaming_answer.py:227-234 | the citations of a claim are the known ids its raw citations name through the last alias, each once, in the order first named |
| AnswerAcceptance.TakenIsAnswered | src/semikb/agent_runtime/streaming_answer.py:99-126 | what stands in a list after some deltas stands at the same place of the finished answer, whatever follows |
| AnswerAcceptance.OnlyChangesAreShown | src/semikb/agent_runtime/streaming_answer.py:174-200 | a unit that changes the answer shows it at once, any other shows nothing |
| AnswerAcceptance.FinishesExactlyWhen | src/semikb/agent_runtime/streaming_answer.py:105-146 | finishing returns an answer if and only if no unit still to be read raises, nothing but a closing fence is left, some unit was processed, and a fact stands or can be quoted; else the error of the first of these |
| AnswerGrowth.UnitIsConsistent | src/semikb/agent_runtime/streaming_answer.py:155-217 | every unit keeps "emitted deltas concatenate to what the answer shows", and can only raise a claim's length check |
| AnswerGrowth.FeedingIsConsistent | src/semikb/agent_runtime/streaming_answer.py:99-103 | at every moment of every stream the emitted deltas concatenate to what the current answer shows |
| AnswerGrowth.DeliveringIsConsistent | src/semikb/agent_runtime/graph.py:1527-1530 | the same when deltas raise and later attempts feed the same assembler |
| AnswerGrowth.FinishedStreamShowsItsAnswer | src/semikb/agent_runtime/streaming_answer.py:105-116 | the incremental-rendering error never fires; whatever was delivered and raised on the way, an assembler that finishes emitted exactly the formatter of its final answer |
| AnswerGrowth.ChunkingDoesNotChangeTheAnswer | src/semikb/agent_runtime/streaming_answer.py:99-153 | two chunkings of one object stream give the same answer, warnings, emitted text and errors |
| AnswerGrowth.UnitRaisesExactlyWhen | src/semikb/agent_runtime/streaming_answer.py:155-251 | a unit raises if and only if it is in order and quotes an empty entry or is reworded past the limit |
| AnswerGrowth.StreamRaisesExactlyWhen | src/semikb/agent_runtime/streaming_answer.py:99-251 | a stream raises if and only if one of the units met in it offends in the state its predecessors left |
| AnswerGrowth.HarmlessLedgerNeverRaises | src/semikb/agent_runtime/streaming_answer.py:99-103 | on a ledger without empty entries, a stream whose units hold no over-long hypothesis raises at no delta |
| AnswerGrowth.LongHypothesisRaises | src/semikb/agent_runtime/streaming_answer.py:248-251 | hypotheses of allowed length that make the assembler raise on every ledger |
| AnswerVerification.VerifyAnswer | src/semikb/agent_runtime/graph.py:1689-1788 | the verified answer, the warning of each dropped fact, and the list of cited entries |
| AnswerVerification.VerifiedClaimsAreListed | src/semikb/agent_runtime/graph.py:1721-1773 | every citation of a verified claim is an entry of the list, and every verified fact has one |
| VerifiedClaims.VerifiedFactsExactly | src/semikb/agent_runtime/graph.py:1723-1740 | exactly the facts that name an entry and do not lack authority are kept, in order, each with its own text |
| VerifiedClaims.VerifiedCitationsExactly | src/semikb/agent_runtime/graph.py:1725-1729 | a verified claim keeps exactly the citations that name an entry, in order, each as the id it names |
| VerifiedClaims.WarningsExactly | src/semikb/agent_runtime/graph.py:1730-1739 | one warning for each fact dropped, in order, saying which rule it breaks |
| VerifiedClaims.VerifiedRest | src/semikb/agent_runtime/graph.py:1741-1754 | every hypothesis is kept, reworded; gaps, actions and confidence stay as they are |
| VerifiedClaims.ListedExactly | src/semikb/agent_runtime/graph.py:1755-1775 | the citation list is exactly the entries a verified claim cites, in ledger order |
| AnswerVerification.RewordingLeavesNone | src/semikb/agent_runtime/streaming_answer.py:248-250 | a reworded text holds no further "根因是", so rewording again changes nothing |
| AnswerVerification.FinishedAnswersAreGrounded | src/semikb/agent_runtime/streaming_answer.py:219-251 | every claim of a finished answer, whatever raised on the way, cites ledger entries under the authority rule, or is the quoted fact |
| AnswerVerification.GroundedAnswerStays | src/semikb/agent_runtime/graph.py:1689-1788 | on a stable ledger the verifier returns a grounded answer unchanged |
| LedgerStability.VerifierChangesNothingExactlyWhen | src/semikb/agent_runtime/graph.py:1689-1788 | on a ledger without empty entries, every answer any stream finishes is verified unchanged if and only if the ledger is stable |
| LedgerStability.UnambiguousLedgersAreStable | src/semikb/agent_runtime/streaming_answer.py:83-91 | distinct evidence ids, none an alias of another entry, make a ledger stable |
| EvidenceLedger.BuildEvidenceLedger | src/semikb/agent_runtime/graph.py:1389-1458 | the entries of chunks, tool facts and web pages with their ids and aliases, in order |
| EvidenceLedger.BuiltExactly | src/semikb/agent_runtime/graph.py:1389-1458 | one entry for each chunk and fact, then one for each external web result, in order, with their ids, sources and texts cut to 1600 and 1200 characters |
| EvidenceLedger.BuiltLedgersAreStable | src/semikb/agent_runtime/graph.py:1389-1458 | every ledger the graph builds is stable unless a chunk or document id is the evidence id of a chunk |
| DirectPrelude.ExecuteCombinationPrelude | src/semikb/agent_runtime/graph.py:1088-1143 | which tasks the prelude answers, what the reply generator emits for them and between them, and the text it combines |
| DirectPrelude.PartsExactly | src/semikb/agent_runtime/graph.py:1088-1143 | exactly the executed chat tasks about the previous messages are answered, in order, each by its own call |
| DirectPrelude.PreludeAgreesExactlyWhen | src/semikb/agent_runtime/graph.py:1088-1143 | streamed and combined prelude text agree if and only if no task id ran twice |
| AnswerPath.VerifierIsNeverStricter | src/semikb/agent_runtime/evidence_sufficiency.py:315-324 | the verifier's own scope test never enforces more than the assembler did |
| AnswerPath.GeneratesExactlyWhen | src/semikb/agent_runtime/graph.py:1482-1604 | the answer node finishes if and only if there is no evidence or the call completed and the assembler could finish; its answer is the one for no evidence, or what the assembler took with a fact in front |
| AnswerPath.StreamedTextIsStoredText | src/semikb/agent_runtime/graph.py:1468-1604 | rendering, verification and stored text agree, prelude included, whenever the answer node finishes, whatever its attempts delivered and raised |
| AnswerPath.FinalTextGuardNeverRejects | src/semikb/agent_runtime/service.py:297-415 | a run that took the path's deltas and last state from the queue, in any interleaving, completes undisturbed with what it streamed and saved, adding no delta: the "verified answer differs" error is unreachable |
| AnswerPath.HarmlessScriptsRaiseNowhere | src/semikb/agent_runtime/graph.py:1527-1530 | where no script of a run says an over-long hypothesis, the assembler does not raise in the run |
| AnswerPath.AnswerDependsOnContentOnly | src/semikb/agent_runtime/graph.py:1527-1560 | in a run whose delivered units are harmless, retries and fallback are invisible to the assembler; its answer is that of the completion's content |
| StreamService.StreamMessage.HandleItem | src/semikb/agent_runtime/service.py:318-352 | what one queue item does to events, streamed text and state |
| StreamService.StreamMessage.GuardAnswer | src/semikb/agent_runtime/service.py:351-381 | the cancel check, the guard, and the suffix or stage event |
| StreamService.StreamMessage.SaveAnswer | src/semikb/agent_runtime/service.py:382-401 | saving, or its failure |
| StreamService.StreamMessage.MarkCompleted | src/semikb/agent_runtime/service.py:402-415 | completion, or the failure to mark it |
| StreamService.StreamMessage.Advance | src/semikb/agent_runtime/service.py:217-438 | every resumption at every suspension point, a cancel, and a consumer that goes away |
| StreamService.StreamMessage.CancelStream | src/semikb/agent_runtime/service.py:440-480 | a cancel marks the run and does nothing after its end |
| StreamService.EveryRunIsSound | src/semikb/agent_runtime/service.py:217-438 | accepted first, numbers 1, 2, 3, terminal event last and single; a fresh run saves at most once, exactly what it streamed, and has saved it when it completes |
| StreamService.ReplayIsAnswered | src/semikb/agent_runtime/service.py:250-258 | the events of a replayed request are accepted as a replay, then completed with the stored text, numbered 1 and 2, whatever happens around it; nothing is streamed or saved |
| StreamService.ItemIsTaken | src/semikb/agent_runtime/service.py:318-352 | only the end and a failure leave the loop; a state is kept, a delta is streamed, and each item is shown as its own event |
| StreamService.ResumptionsDo | src/semikb/agent_runtime/service.py:262-438 | at every other suspension point: where the run goes, and what exactly it shows and saves |
| StreamService.GuardDoes | src/semikb/agent_runtime/service.py:351-381 | the guard lets the response pass as it stands, or with what is missing of it shown; else the run fails, or ends if cancelled |
| StreamService.UndisturbedRunsAreSealed | src/semikb/agent_runtime/service.py:132-162 | a run nobody cancels or leaves ends with a terminal event, so the non-streaming reader never misses one |
| StreamService.HeardIsStreamed | src/semikb/agent_runtime/service.py:318-345 | the streamed text is the delta updates taken from the queue in order, the final state the last one taken |
| StreamService.CancelSavesNothing | src/semikb/agent_runtime/service.py:440-480 | cancelled before the check after the loop, nothing is saved and nothing completes, whatever follows |
| StreamService.CancelInTimeSavesNothing | src/semikb/agent_runtime/service.py:440-480 | a cancel that arrives anywhere before the check after the loop keeps the whole run from saving or completing, whatever came and follows |
| StreamService.CancelSeenIsSilent | src/semikb/agent_runtime/service.py:318-320 | a cancel met at a check ends the run without a further event, whatever follows |
| StreamService.CancelRacesWithFailure | src/semikb/agent_runtime/service.py:249-438 | cancelled anywhere before the check after the loop, with every continuation: a terminal event follows if and only if the resumption met fails and is reported |
| StreamService.DrainedCancelFailsExactlyWhen | src/semikb/agent_runtime/service.py:249-438 | where nobody goes away: if and only if that resumption is a failing set-up or a wait whose item raises |
| StreamService.GuardRejectsExactlyWhen | src/semikb/agent_runtime/service.py:351-415 | undisturbed, a run completes with its response streamed and saved if the streamed text is a prefix of it, and fails unsaved if not |
| InterruptReplies.InterruptPassesExactlyWhen | src/semikb/agent_runtime/service.py:522-528 | an undisturbed run that streamed the reply of its interrupt completes if the reply is its own strip, and fails unsaved if not |
| InterruptReplies.RepliesAreTrimmed | src/semikb/agent_runtime/direct_reply.py:167-292 | whatever the model sends, a reply other than a recall is its own strip, as far as fallback and listed questions are |
| InterruptReplies.RecallsAreTrimmedExactlyWhen | src/semikb/agent_runtime/direct_reply.py:191-203 | a recall is the fallback, or its own strip exactly when the recalled message does not end in white space, nor start in it without a lead |
| InterruptReplies.SilentRecallIsTrimmedExactlyWhen | src/semikb/agent_runtime/direct_reply.py:511-515 | where the model says nothing, the recall of a message is its own strip exactly when the message ends in no white space |
| InterruptReplies.AskedReplyIsKeptExactlyWhen | src/semikb/agent_runtime/service.py:353-381 | a run that took a reply's deltas and the interrupt with it from the queue completes if and only if the reply is its own strip |
| ProviderRetry.RunWithRetry | src/semikb_provider_resilience/__init__.py:152-201 | the loop's result, audits, sleeps and effects |
| ProviderRetry.Delay | src/semikb_provider_resilience/__init__.py:55-58 | whatever is requested, the wait is between zero and the maximum backoff |
| ProviderRetry.DelayExactly | src/semikb_provider_resilience/__init__.py:55-58 | the wait is what was asked for, or doubles with each attempt, as far as that lies between zero and the maximum |
| ProviderRetry.UnclassifiedIsRetried | src/semikb_provider_resilience/__init__.py:130-149 | an exception nobody classified is retried, as a timeout or a transport failure |
| ProviderRetry.AuditsTell | src/semikb_provider_resilience/__init__.py:152-253 | each audit tells its attempt's outcome, failure and wait, and that wait is what is slept |
| ProviderRetry.RetryFromStopsRightly | src/semikb_provider_resilience/__init__.py:152-253 | it goes on after retryable failures only and stops at the first success, non-retryable failure or last attempt |
| ProviderRetry.RetryPromises | src/semikb_provider_resilience/__init__.py:152-253 | at most the configured calls, audits numbered 1..k with "retrying" on all but the last, bounded total sleep, no final assertion |
| LlmGateway.StreamCompleteWithProvider | src/semikb/agent_runtime/llm_gateway.py:607-718 | one attempt: what the consumer hears and how the attempt ends |
| StreamCompletion.AttemptYieldsExactlyWhen | src/semikb/agent_runtime/llm_gateway.py:607-718 | an attempt yields a value if and only if an event stream opens without error, every event can be read, it ends by itself after a done marker or finish reason, and what it says is not blank; the value is what it says |
| StreamCompletion.AttemptsAs | src/semikb/agent_runtime/llm_gateway.py:377-417 | which scripts make an attempt answer, worth repeating, interrupt the call, or fail for its provider |
| StreamCompletion.StreamCompletesExactlyWhen | src/semikb/agent_runtime/llm_gateway.py:248-309 | the call completes with a text from a provider if and only if its first attempt not worth repeating, or its last, answers with it and no provider before answers or interrupts; it is interrupted, or without provider, exactly when stated |
| LlmGateway.StreamComplete | src/semikb/agent_runtime/llm_gateway.py:248-309 | the provider loop: deliveries, answer and audits over all providers |
| LlmGateway.ProviderNames | src/semikb/agent_runtime/llm_gateway.py:370-375 | the primary first, then at most one different fallback |
| LlmGateway.VisibleContentIsNeverReplayed | src/semikb/agent_runtime/llm_gateway.py:401-417 | in a run in which the consumer does not raise, all deltas come from one attempt and a completion is their concatenation |
| LlmGateway.QuietScriptsStayQuiet | src/semikb/agent_runtime/llm_gateway.py:642-672 | a consumer that raises at no texts a script of the run can deliver does not raise in the run |
| LlmGateway.RaisingIsReplayed | src/semikb_provider_resilience/__init__.py:130-149 | for every raising consumer there are providers that make it hear two attempts |
| LlmGateway.NothingIsReplayedExactlyWhen | src/semikb/agent_runtime/llm_gateway.py:248-309 | nothing is ever replayed if and only if the consumer never raises or there is one attempt and one provider |
| Routing.EnforcePredefinedCombination | src/semikb/agent_runtime/routing.py:276-339 | which decisions are deferred, and the routes left to execute |
| Routing.FindRequiredMissing | src/semikb/agent_runtime/routing.py:342-416 | the missing slots of a plan, first occurrences, at most three |
| Routing.Decide | src/semikb/agent_runtime/routing.py:54-191 | the plan of a request |
| Routing.FirstRoutesShareATail | src/semikb/agent_runtime/routing.py:194-251 | within one request every task's non-chat route is a tool route or the one tail route, or all reuse evidence |
| Routing.EnforcedIsPredefined | src/semikb/agent_runtime/routing.py:276-339 | from such routes the check leaves one predefined combination |
| Routing.CombinedSupplies | src/semikb/agent_runtime/graph.py:1157-1247 | of a predefined combination, the combined route fetches what an executed route needs if and only if it is available |
| Routing.PlansArePredefinedAndSupplied | src/semikb/agent_runtime/routing.py:54-191 | executed tasks of every plan form one predefined combination, and each gets the evidence it needs if and only if the web is open for web pages and earlier evidence still reusable |
| Routing.CombinationCheckAloneIsTooWeak | src/semikb/agent_runtime/routing.py:276-339 | three decisions the check passes although they form no predefined combination and get no web pages by their route |
| Routing.PlansKeepEveryTask | src/semikb/agent_runtime/routing.py:67-103 | one decision for each task, in order, and executing a Recipe is always refused |
| Routing.ExecutingPlansAreReady | src/semikb/agent_runtime/routing.py:104-191 | a plan executes a task only with nothing missing and confidence at its route's threshold |
| Routing.MissingSlotsMeanClarify | src/semikb/agent_runtime/routing.py:342-416 | a plan with missing slots clarifies, and asks for at most three different known slots |
| TaskRouting.TasksAreExecutedExactlyWhen | src/semikb/agent_runtime/routing.py:54-191 | a task is executed if and only if its policy says so, it writes no recipe and generates no report, nothing is outside the actor's scope, some route serves it together with the first task that needs evidence, and the plan does not clarify; every other task says why |
| TaskRouting.ExecutedTasksAreServed | src/semikb/agent_runtime/routing.py:194-273 | the kinds of evidence each executed task wants, told from its intent, the request's intent and the signals; its route supplies exactly those, and the plan's route all of them exactly when they are to be had |
| TaskRouting.OutOfScopeIsRefused | src/semikb/agent_runtime/routing.py:66-80 | while a product or tool is outside the actor's scope no task is executed, and every one but a report is refused for that reason |
| TaskRouting.OthersAreExplained | src/semikb/agent_runtime/routing.py:66-103 | every task that may not be executed is decided for its own reason and keeps that decision in the plan |
| TaskRouting.PlanRouteExactly | src/semikb/agent_runtime/routing.py:104-191 | while any task runs, the plan clarifies if and only if a key is lacking or the request is less sure than the evidence wanted asks for; else its route needs exactly the evidence its tasks want |
| TaskRouting.PlanWithoutTasks | src/semikb/agent_runtime/routing.py:104-166 | while no task runs, the plan refuses if any is refused, and else takes the suggested route unless a key is lacking or confidence too low |
| TaskRouting.InvalidatedExactly | src/semikb/agent_runtime/routing.py:443-468 | a plan reports exactly the slots that depend on a rewritten one, and once any is rewritten every valid piece of evidence |
| TaskRouting.RequiredMissingExactlyWhen | src/semikb/agent_runtime/routing.py:342-430 | a plan asks exactly for what a task demands and the request does not supply, up to three keys |
| TaskRouting.ExecutingPlansLackNothing | src/semikb/agent_runtime/routing.py:120-166 | a plan that executes a task lacks nothing any task demands and has its route's confidence |
| TaskExecution.Finalize | src/semikb/agent_runtime/task_execution.py:103-197 | the results of the decisions, each seeing those before it |
| TaskExecution.CompletedIsEarned | src/semikb/agent_runtime/task_execution.py:211-307 | a completed task was executed, answered, cites ledger evidence that meets its route's contract, and has only completed earlier dependencies |
| TaskExecution.CompletedReachesOnlyCompleted | src/semikb/agent_runtime/task_execution.py:103-197 | along every chain of earlier-listed dependencies of a completed task every task is completed |
| TaskExecution.NoTaskIsLost | src/semikb/agent_runtime/task_execution.py:103-197 | from understanding to results no task is lost, added or reordered, and executing a Recipe ends refused |
| TaskResults.TaskIsCompletedExactlyWhen | src/semikb/agent_runtime/task_execution.py:103-307 | from request to result, a task is completed if and only if it is executed, its earlier dependencies are completed, the run is authorized, it is answered and enough of the evidence it wanted is cited; every other status and reason is given |
| TaskResults.ListedExactly | src/semikb/agent_runtime/task_execution.py:222-256 | a task lists exactly the ids cited from the sources its route draws on |
| TaskResults.DegradedExactlyWhen | src/semikb/agent_runtime/task_execution.py:269-307 | a completed task is degraded exactly when it was to search the web and cites no page, and its warning says why |
| Clarification.FindResolvedKeys | src/semikb/agent_runtime/clarification.py:403-438 | the pending keys an understanding resolves, in order |
| Clarification.BuiltFrameKind | src/semikb/agent_runtime/clarification.py:56-125 | a frame is of the history kind exactly when that is its one question, and of the intent kind exactly when nothing is missing |
| Clarification.ProposalsDoNotOverrule | src/semikb/agent_runtime/clarification.py:147-235 | whatever relation the model proposes, cancellations stay the same and an answering reply is treated the same |
| Clarification.ResumesOnlyExactlyWhen | src/semikb/agent_runtime/clarification.py:147-202 | the frame is merely shown again if and only if it is live and not cancelled on grounds, the wording continues without switching, and no open question is answered |
| Clarification.RelationExactlyWhen | src/semikb/agent_runtime/clarification.py:147-235 | exactly when a reply replaces the request, is a side conversation or leaves open what it is |
| Clarification.ReplyTests | src/semikb/agent_runtime/clarification.py:441-484 | what the tests for a grounded cancel, plain conversation, a standalone and a distinct new task come to, told from the fields |
| Clarification.ResolvedWhen | src/semikb/agent_runtime/clarification.py:403-438 | which slots, messages, intents and routes answer a key |
| Clarification.MergedRequest | src/semikb/agent_runtime/clarification.py:238-275 | the merged request is the base's with the answer's slots over its own; only an answer to the question of intent that brings tasks replaces what is asked for |
| Clarification.MergeOperations | src/semikb/agent_runtime/clarification.py:243-248 | the merged operations, the first twelve of them |
| Clarification.MergedOperationsKeep | src/semikb/agent_runtime/clarification.py:243-248 | merging drops nothing recorded before and records nothing twice |
| Clarification.ExplicitAnswersCount | src/semikb/agent_runtime/clarification.py:238-275 | what an answer gives explicitly resolves its key for the merged request, whatever was there before |
| Clarification.ExplicitAnswersResolve | src/semikb/agent_runtime/clarification.py:403-438 | what a reply gives explicitly resolves its key in the reply itself |
| Clarification.UpdateFrameAfterAnswer | src/semikb/agent_runtime/clarification.py:278-336 | the frame after an answer, or the rejection of an unfit value |
| Clarification.TurnedStatus | src/semikb/agent_runtime/clarification.py:339-381 | a frame that a reply leaves is cancelled, superseded or paused by the relation, and remembers it |
| Clarification.SettledItems | src/semikb/agent_runtime/clarification.py:289-301 | each settled key has one item with this answer's value; all other items are kept |
| Clarification.AnswersAccountForEveryItem | src/semikb/agent_runtime/clarification.py:278-336 | each pending item is afterwards either pending or resolved, and progress is counted exactly when one is resolved |
| Clarification.AnswerRaisesExactlyWhen | src/semikb/agent_runtime/clarification.py:487-507 | an answer is rejected if and only if it settles an item with an over-long value or an empty one |
| ClarificationGraph.StepKeeps | src/semikb/agent_runtime/graph.py:192-243 | every node and edge keeps the invariant of frames, rounds and record, whatever user, model and retrieval do |
| ClarificationGraph.RepliesMeetAnOpenQuestion | src/semikb/agent_runtime/graph.py:668-680 | a reply always meets a waiting frame with one to three open questions, at a round equal to its numbered asks and within the maximum |
| ClarificationGraph.RunsAreLawful | src/semikb/agent_runtime/graph.py:520-666 | frames open once, are asked in numbered rounds up to the maximum, are never used again once ended, and fit their contract model |
| ClarificationGraph.GivingUpMeansEveryRoundWasAsked | src/semikb/agent_runtime/graph.py:582-597 | the insufficient-information answer comes only after every allowed round of the open frame was asked |
| ClarificationGraph.EvidenceWaitsForClarification | src/semikb/agent_runtime/graph.py:582-597 | evidence is gathered only for an authorised plan with nothing missing and no open frame |
| ClarificationGraph.FrameStays | src/semikb/agent_runtime/graph.py:520-937 | over any stretch of turns without a new request, an open frame stays in hand until it is ended: no other takes its place, its round never falls, nothing it resolved is dropped |
| ClarificationGraph.FramesCollectOnlyTheirAnswers | src/semikb/agent_runtime/graph.py:668-852 | in every run an open frame stays with its request until it is ended, and its explicit and inherited slots are overridden by its continuing answers in turn and nothing else |
| ClarificationGraph.AnswersAreCollected | src/semikb/agent_runtime/graph.py:668-755 | in every run a reply that answers an open question, and is no grounded cancel, switch or new task, is recorded with its own slots, which the frame's base then holds; only an unfit settled value raises instead |
| ClarificationGraph.ResumedExactlyWhen | src/semikb/agent_runtime/graph.py:700-729 | in every run the questions are shown again as they are exactly on a continuing wording that answers nothing |
| ClarificationGraph.FramesEndOnGrounds | src/semikb/agent_runtime/graph.py:668-852 | a frame ends only on a reply that cancels on grounds, is a full task of its own or completes the request; a grounded cancel always ends it |
| ClarificationGraph.ReplacementStartsFresh | src/semikb/agent_runtime/graph.py:757-794 | a replacement that needs clarification starts an unseen frame at round 0 for the reply, with nothing of the old frame |
| ClarificationReplies.AnswerLeaves | src/semikb/agent_runtime/graph.py:729-755 | the whole state after an answer: the original request understood with it and planned again, what is asked next, and the frame moved on, or the failure |
| ClarificationReplies.ReplacementLeaves | src/semikb/agent_runtime/graph.py:757-794 | the whole state after a replacement: nothing of the errors, slots and questions before is left |
| ClarificationReplies.CancellationLeaves | src/semikb/agent_runtime/graph.py:796-852 | the whole state after a cancellation: planned as a cancellation of the clarification, with nothing asked |
| ClarificationReplies.SideConversationLeaves | src/semikb/agent_runtime/graph.py:796-852 | the whole state after a side conversation: planned as a request of its own, the frame paused with its round and questions |
| ClarificationReplies.AmbiguityLeaves | src/semikb/agent_runtime/graph.py:826-852 | the whole state after an ambiguous reply: request, understanding and plan as they were, the frame paused |
| ClarificationReplies.ResumptionLeaves | src/semikb/agent_runtime/graph.py:700-729 | the whole state after a reply that only asks to go on: the same questions, waiting again |
| ClarificationReplies.ValidationLeaves | src/semikb/agent_runtime/graph.py:520-597 | validation checks the scope, keeps the open frame or opens one under a new id, and goes to refusal, direct answer, evidence, questions or the end of asking |
| ClarificationReplies.AskingLeaves | src/semikb/agent_runtime/graph.py:624-666 | asking leaves the reply, its context, and the frame waiting for one more numbered round |
| ClarificationReplies.WaitingLeaves | src/semikb/agent_runtime/graph.py:870-937 | waiting again leaves the next reply and the same frame, no longer paused |
| ClarificationReplies.EvidencePath | src/semikb/agent_runtime/graph.py:229-243 | the web is searched exactly when the assessment asks for it, and every evidence run passes the verifier |
| ClarificationReplies.NewMessageStartsClean | src/semikb/agent_runtime/graph.py:246-300 | four node steps take up a new message, and nothing of the run before is left |
| ClarificationGraph.TurnsAreBounded | src/semikb/agent_runtime/graph.py:192-243 | at most 13 node steps between two waits for the user, from every state |
| ConversationTurns.NormalizedMessages | src/semikb/agent_runtime/context.py:92-106 | turn numbers repaired in place, then sorted |
| ConversationTurns.NextIsFree | src/semikb/agent_runtime/context.py:92-106 | the next candidate number is above every number given out |
| ConversationTurns.NormalizedIsStrict | src/semikb/agent_runtime/context.py:92-106 | no message is lost, and the numbers are strictly increasing |
| ConversationTurns.NormalizedIsFixed | src/semikb/agent_runtime/context.py:92-106 | normalizing again changes nothing |
| ConversationTurns.AppendExtendsExactlyWhen | src/semikb/agent_runtime/context.py:92-106 | appending a message appends to the normalized history if and only if its number is absent, in use or not below the next |
| ConversationSummary.CompactIncrementally | src/semikb/agent_runtime/context.py:239-262 | the incremental summary of a persisted one and the messages after it |
| ConversationSummary.LineTells | src/semikb/agent_runtime/context.py:251-257 | a line tells the turn, who spoke, and the words of the message in order with single blanks, cut to 240 characters |
| ConversationSummary.SummaryFits | src/semikb/agent_runtime/context.py:239-262 | the summary never exceeds its limit |
| ConversationSummary.KeptSummaryIsScratchExactlyWhen | src/semikb/agent_runtime/context.py:53-90 | over every append-only thread, while the summary built from nothing fits, the kept one is it if and only if no message was numbered below the one it reached to; older and recent messages cover the history once |
| ConversationSummary.GapFillingOvertakes | src/semikb/agent_runtime/context.py:92-106 | filling an unused number overtakes exactly when it lies below the covered part |
| ConversationSummary.InOrderOvertakesNothing | src/semikb/agent_runtime/context.py:92-106 | a message numbered in order overtakes nothing |
| ConversationSummary.AssembledContextExactlyWhen | src/semikb/agent_runtime/context.py:53-84 | for a current message anywhere, the summary given is that of the other older messages if and only if the current one does not stand before the message the saved summary reaches to |
| SlotContext.UpdateActiveContext | src/semikb/agent_runtime/context.py:108-208 | slots and evidence after a turn |
| SlotContext.InvalidateDependents | src/semikb/agent_runtime/context.py:210-227 | one pass over the slots and evidence for the changed names |
| SlotContext.TableIsClosed | src/semikb/agent_runtime/context.py:22-26 | what a slot depends on through any chain it depends on directly |
| SlotContext.TableIs | src/semikb/agent_runtime/context.py:22-26 | a chamber is part of a tool, a recipe runs on both, a version is one of a recipe |
| SlotContext.OnePassIsClosure | src/semikb/agent_runtime/context.py:210-227 | one pass invalidates exactly the slots that transitively depend on a changed one |
| SlotContext.SlotAfter | src/semikb/agent_runtime/context.py:108-208 | every slot after a turn: supplied by it with the source its first inheriting operation names or where the value is found, unless it inherits a slot still good; any other slot is kept, valid exactly if no chain of dependencies leads to a touched one |
| SlotContext.EvidenceAfter | src/semikb/agent_runtime/context.py:108-208 | the evidence after a turn is its own, or what there was, expired exactly when the turn touches a slot |
| SlotContext.NothingStaleStaysValid | src/semikb/agent_runtime/context.py:108-208 | no slot that transitively depends on a corrected, cleared or contradicted one stays valid unless this turn supplied it |
| SlotContext.UnrelatedSlotsSurvive | src/semikb/agent_runtime/context.py:108-208 | every slot the turn has nothing to do with stays as it was |
| SlotContext.RefusedTurnKeepsSlots | src/semikb/agent_runtime/context.py:108-130 | a refused turn leaves every slot as it was |
| SlotContext.ReportedReferencesAreCovered | src/semikb/agent_runtime/routing.py:442-468 | every reference the plan reports as invalidated is invalid, expired or newly supplied after the turn |
| DirectReply.DirectReplyAssembler.Feed | src/semikb/agent_runtime/direct_reply.py:104-107 | one call consumes exactly the complete units of buffer and delta, until one raises |
| DirectReply.DirectReplyAssembler.Finish | src/semikb/agent_runtime/direct_reply.py:109-123 | accepts exactly the replies that end with a done unit, are visible and complete for their kind |
| DirectReply.UnitIsConsistent | src/semikb/agent_runtime/direct_reply.py:167-292 | every unit, valid or not, keeps: rendered is emitted, at most 10000 characters and 8 units, questions and refusals in form |
| DirectReplyUnits.UnitIsShownExactlyWhen | src/semikb/agent_runtime/direct_reply.py:167-292 | a unit is shown if and only if its type fits the request, its key is due, its stripped text fits and the limits hold; it is then shown in its frame and noted, and any other unit raises and changes nothing |
| DirectReplyUnits.DoneIsTakenExactlyWhen | src/semikb/agent_runtime/direct_reply.py:167-176 | a done unit is taken once; nothing is taken after it, or that is no object |
| DirectReplyUnits.NothingProhibitedIsShown | src/semikb/agent_runtime/direct_reply.py:269-292 | whatever the model sends, every delta but a last one of the server's own is a text that is not prohibited, in one of the server's frames |
| DirectReply.AcceptedReplyIsComplete | src/semikb/agent_runtime/direct_reply.py:109-123 | a finished clarification asks each missing slot once, a finished refusal is one boundary before one alternative |
| DirectReply.FailedClarificationCoversExactlyWhen | src/semikb/agent_runtime/direct_reply.py:125-141 | a failed clarification and its suffix ask each missing slot once if and only if the slots without a server question were asked |
| DirectReply.Generate | src/semikb/agent_runtime/direct_reply.py:322-412 | the text and deltas of every outcome: accepted, demo, fallback, partial |
| DirectReply.GenerateReturnsWhatItEmitted | src/semikb/agent_runtime/direct_reply.py:322-412 | the text returned is exactly the text emitted, in every outcome |
| DirectReplyUnits.GeneratedExactly | src/semikb/agent_runtime/direct_reply.py:322-412 | the model's reply is the text if and only if the call completed, no unit raises, nothing but a closing fence is left and the reply is complete; else the fallback, or what was shown with the server's suffix |
| DirectReply.ChunkingDoesNotChangeTheReply | src/semikb/agent_runtime/direct_reply.py:143-165 | two chunkings of one object stream give the same reply so far or raise at the same unit |
| DirectReply.BoundedRecentMessages | src/semikb/agent_runtime/direct_reply.py:579-600 | walking back from the newest item selects the window |
| DirectReply.WindowIsBounded | src/semikb/agent_runtime/direct_reply.py:579-600 | the window never exceeds 6000 characters |
| DirectReply.WindowIsASuffix | src/semikb/agent_runtime/direct_reply.py:579-600 | the window is the end of the message history, in order and without gaps |
| PdfWriter.WriteFile | scripts/generate_t9445_golden_files.py:239-257 | the append-only buffer ends as objects, table and trailer, with the offsets noted on the way |
| PdfWriter.MinimalPdf | scripts/verify_t9434_business_loop.py:69-104 | the file of a page of lines, or the encoding error |
| PdfWriter.ReaderLandsOnEveryObject | scripts/verify_t9434_business_loop.py:88-104 | below 10^10 bytes, a reader that follows startxref and 20-byte entries lands on "i 0 obj" and its body for every i |
| PdfWriter.EscapingIsCharByChar | scripts/verify_t9434_business_loop.py:70 | the three replacements put one backslash before each special character and do not disturb each other |
| PdfWriter.LiteralIsReadBack | scripts/verify_t9434_business_loop.py:70-76 | an escaped line, read per section 7.3.4.2 of ISO 32000-1, ends where it should and gives the line with its endings as line feeds |
| PdfWriter.PageShowsEveryLine | scripts/verify_t9434_business_loop.py:69-78 | a reader of the page finds every line in order; they are the lines themselves if and only if none holds a carriage return |
| DigestFraming.AggregateDigest | scripts/verify_t947_restore.py:46-51 | the bytes fed to the hash are the framing of the sorted values |
| DigestFraming.FramingIsInjective | scripts/verify_t947_restore.py:48-50 | no two sequences of values share their framed bytes |
| DigestFraming.SameBytesExactlyWhenSameValues | scripts/verify_t947_restore.py:46-51 | two collections are hashed from the same bytes if and only if they are equal as multisets |
| SseDecoder.Decoder.Feed | scripts/verify_t946_capacity.py:43-56 | the events of the complete blocks, and of the rest on the final call |
| SseDecoder.LineEnds | scripts/verify_t946_capacity.py:59-66 | a line runs to the next character that ends one; a carriage return and the line feed after it end it together |
| SseDecoder.LineEndingsAre | scripts/verify_t946_capacity.py:62 | the characters that end a line |
| SseDecoder.DataExactly | scripts/verify_t946_capacity.py:57-66 | the data of a block are its data lines, in order, each stripped on the left, joined by line feeds |
| SseDecoder.FlushedExactly | scripts/verify_t946_capacity.py:51-56 | the final call decodes what is left unless it is white space, and forgets it unless it can not be read |
| SseDecoder.NormalisedExactlyWhen | scripts/verify_t946_capacity.py:44 | normalising chunk by chunk is normalising the whole text if and only if no boundary splits a CR LF |
| SseDecoder.ChunkingDoesNotChangeTheEvents | scripts/verify_t946_capacity.py:43-56 | every chunking that splits no CR LF, followed by the final call, gives the same events or fails alike |
| SseDecoder.SplitCrlfJoinsBlocks | scripts/verify_t946_capacity.py:44-47 | any two one-line blocks cut inside the CR LF that closes the first are read as one block |
| SseDecoder.SplitCrlfLosesAnEvent | scripts/verify_t946_capacity.py:43-56 | for any two values that load, the text of their two events delivers both whole, and at most one cut inside the first CR LF pair |

## Left out

- Text tests written as regular expressions or term lists (switch, continue and unknown-answer wording, external terms, bounded previews, unsafe output, slot hints) are arbitrary predicates of the text; prompts and message wording beyond what a property needs are not modelled.
- Decoding of a JSON value's fields, and `str()` of a field, are one arbitrary function from a unit's text to what the assembler reads from it; the decoder's limits are not modelled: its nesting limit, and the 4300 digits of an integer literal, beyond which it raises another error than for bad JSON.
- A text is a sequence of Unicode scalar values: a claim text with a lone surrogate, which the claim model rejects, is outside it.
- HTTP, LangGraph, retrieval, web search, storage, clocks and hashing: inputs, outcomes or the bytes handed over. Line framing inside a provider's own event stream is left out; a provider attempt is any sequence of decoded events with any end.
- StreamService.StreamMessage.CancelStream: the lookup of the record, cancelling the graph task (its queue then delivers any item), and marking the record; what the repository's guards do to a record is not part of this model.
- The service's repository: only what is saved, whether saving fails, and the stored text of a replay; a replay whose thread is gone, which raises, is not modelled.
- Demo-mode answers of the evidence path, and the legacy clarification path with frames disabled.
- Audit records: latencies, usage and warning texts, and the upper bound of 60 seconds their model puts on a retry delay; the synchronous and asynchronous retry loops differ only in awaiting, and are one loop here.
- Clarification.BuiltFrame: leaves out task ids, candidate route, base route plan, signature and source message ids, which no transition reads, and the length bounds of a frame's text fields.
- ClarificationGraph.Step: the user's scope is a valid one; identifiers of frames come from a counter instead of random text; a node that raises ends the run, and how a later message recovers it is not modelled.
- ConversationSummary.KeptSummaryIsScratchExactlyWhen: the summary limit is at least 1000 and new messages have new ids, as the settings and the message records give them; beyond the limit only the bound is stated.
- LedgerStability.VerifierChangesNothingExactlyWhen: ledgers with an empty entry, which the assembler may be unable to quote, are not part of the equivalence.
- Routing.Plan: reason codes and explanations that no later step reads.
- SseDecoder.Decoder.Feed: on an error it names the events decoded before it, which the script's caller does not receive.
- PdfWriter.WriteFile: the image and compressed streams of the golden files are arbitrary object bodies.
- `percentile`, the evidence sufficiency score and the term coverage it is made of: arithmetic of one body without a property that spans functions.
