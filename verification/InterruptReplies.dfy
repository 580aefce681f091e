/**
 * Runs that end in a question: the reply streamed for it is stored stripped, so the final-text guard passes only
 * replies that are their own strip.
 */
module InterruptReplies {
  import opened DirectReply
  import opened IncrementalReader
  import opened JsonUnits
  import opened Sequences
  import Domain
  import StreamService

  // ----- The guard -----

  /**
   * An undisturbed run that streamed the reply of its interrupt completes if and only if the reply is its own
   * strip.
   */
  lemma InterruptPassesExactlyWhen(run: StreamService.Run, questions: seq<string>)
    requires StreamService.Sound(run) && run.phase.AfterLoop? && !run.cancelled
    requires run.final.interrupt == Some(StreamService.Interrupt(run.streamed, questions))
    ensures KeptExactlyWhenTrimmed(run, run.streamed)
  {
    StreamService.GuardRejectsExactlyWhen(run);
    TrimmedExactlyWhen(run.streamed);
    PrefixExactlyWhen(run.final, run.streamed, questions);
    hide StreamService.Steps, StreamService.Sound, StreamService.ResponseText, StreamService.CompletedWith;
  }

  lemma PrefixExactlyWhen(state: StreamService.FinalState, text: string, questions: seq<string>)
    requires state.interrupt == Some(StreamService.Interrupt(text, questions))
    ensures text <= StreamService.ResponseText(state) <==> Trimmed(text)
  {
    TrimmedExactlyWhen(text);
    LeadIsNoSpace();
    hide Strip, Join, Map;
    if Strip(text) == "" && text != "" {
      BlankStartsBlank(text);
    }
  }

  lemma BlankStartsBlank(text: string)
    requires Strip(text) == "" && text != ""
    ensures IsSpace(text[0])
  {
    StripKeepsStart(LStrip(text));
    hide IsSpace;
    if !IsSpace(text[0]) {
      assert LStrip(text) == text;
      FirstSurvives(text);
    }
  }

  lemma {:induction false} FirstSurvives(s: string)
    requires s != "" && !IsSpace(s[0])
    ensures RStrip(s) != ""
  {
    hide IsSpace;
    if IsSpace(s[|s| - 1]) {
      FirstSurvives(s[..|s| - 1]);
    }
  }

  lemma LeadIsNoSpace()
    ensures Domain.QUESTIONS_LEAD != "" && !IsSpace(Domain.QUESTIONS_LEAD[0])
  {}

  // ----- Which replies are their own strip -----

  /** A piece that ends in no white space, and starts in none if it comes first. */
  predicate Extends(before: string, piece: string) {
    piece != "" && !IsSpace(piece[|piece| - 1]) && (before == "" ==> !IsSpace(piece[0]))
  }

  lemma ExtendedIsTrimmed(before: string, piece: string)
    requires Trimmed(before) && Extends(before, piece)
    ensures Trimmed(before + piece)
  {
    TrimmedExactlyWhen(before);
    TrimmedExactlyWhen(before + piece);
    hide IsSpace, Trimmed;
  }

  lemma CleanedEnds(cfg: Config, raw: string, limit: nat)
    ensures var text := CleanText(cfg, raw, limit);
            text.Some? && text.value != "" ==> !IsSpace(text.value[0]) && !IsSpace(text.value[|text.value| - 1])
  {
    StripIsTrimmed(raw);
    TrimmedExactlyWhen(Strip(raw));
    hide IsSpace, Strip;
  }

  /** Every piece but a recalled message is cleaned, so it extends what is shown. */
  lemma JudgedExtends(cfg: Config, core: Core, payload: Payload)
    requires payload.AnObject? && Consistent(cfg, core) && !cfg.request.kind.HistoryRecall?
    requires Judge(cfg, core, payload).Some?
    ensures Extends(core.rendered, Judge(cfg, core, payload).value.0)
  {
    LeadIsNoSpace();
    CleanedEnds(cfg, payload.text, 300);
    CleanedEnds(cfg, payload.text, 500);
    CleanedEnds(cfg, payload.text, 600);
    hide CleanText, IsSpace, AsksInOrder, Emits, IsAsked;
  }

  /** The text of a recall: the model's lead, if any, and the message as the server holds it. */
  function RecallText(lead: string, content: string): string {
    if lead != "" then lead + "\n\n" + content else content
  }

  predicate RecallOf(cfg: Config, text: string, lead: string, id: string) {
    Trimmed(lead) && id in cfg.selected && text == RecallText(lead, cfg.selected[id])
  }

  /** What every unit keeps of the reply's ends. */
  ghost predicate Shaped(cfg: Config, core: Core) {
    if cfg.request.kind.HistoryRecall? then
      (core.units == 0 ==> core.rendered == "")
      && (core.rendered == "" || exists lead, id :: RecallOf(cfg, core.rendered, lead, id))
    else Trimmed(core.rendered)
  }

  lemma UnitKeepsShape(cfg: Config, core: Core, payload: Payload)
    requires Consistent(cfg, core) && Shaped(cfg, core)
    ensures Shaped(cfg, ProcessUnit(cfg, core, payload).0)
  {
    hide Judge, Consistent, Trimmed;
    if payload.AnObject? && !core.done && !payload.kind.DoneUnit? && core.units < MAX_UNITS {
      match Judge(cfg, core, payload)
      case None =>
      case Some((text, noted)) =>
        if cfg.request.kind.HistoryRecall? {
          JudgedRecall(cfg, core, payload);
          assert "" + text == text;
        } else {
          JudgedExtends(cfg, core, payload);
          ExtendedIsTrimmed(core.rendered, text);
        }
    }
  }

  lemma JudgedRecall(cfg: Config, core: Core, payload: Payload)
    requires payload.AnObject? && cfg.request.kind.HistoryRecall? && Judge(cfg, core, payload).Some?
    ensures core.units == 0 && exists lead, id :: RecallOf(cfg, Judge(cfg, core, payload).value.0, lead, id)
  {
    StripIsTrimmed(payload.text);
    hide Trimmed, Strip;
    var lead := CleanText(cfg, payload.text, 120).value;
    assert RecallOf(cfg, Judge(cfg, core, payload).value.0, lead, payload.key);
  }

  lemma TakenIsShaped(cfg: Config, deltas: seq<string>)
    ensures var d := Taken(cfg, deltas);
            Shaped(cfg, d.state) && Shaped(cfg, FinalDrain(cfg, d.state, d.buffer).state)
  {
    EmptyIsConsistent(cfg);
    EmptyIsShaped(cfg);
    hide Consistent, Shaped, ProcessUnit;
    var inv := (core: Core) => Consistent(cfg, core) && Shaped(cfg, core);
    forall core, unit | inv(core) ensures inv(UnitProcessor(cfg)(core, unit).0) {
      UnitIsConsistent(cfg, core, cfg.decode(unit));
      UnitKeepsShape(cfg, core, cfg.decode(unit));
    }
    DeliveredKeeps(JSON_LEXER, UnitProcessor(cfg), inv, AnyError, EMPTY, deltas);
    var d := Taken(cfg, deltas);
    DrainKeeps(JSON_LEXER, UnitProcessor(cfg), inv, AnyError, d.state, d.buffer);
  }

  lemma EmptyIsShaped(cfg: Config)
    ensures Shaped(cfg, EMPTY)
  {}

  /** The server's own texts: the fallback, and the questions it lists. */
  predicate ServerTextsTrimmed(cfg: Config, fallback: string) {
    Trimmed(fallback) && forall q :: q in cfg.request.questions ==> q != "" && Trimmed(q)
  }

  lemma {:induction false} RemainingFromServer(slots: seq<string>, questions: seq<string>, asked: seq<Asked>)
    ensures forall a :: a in Remaining(slots, questions, asked) ==> a.text in questions
    decreases |slots|
  {
    if slots != [] && questions != [] {
      RemainingFromServer(slots[1..], questions[1..], asked);
      hide IsAsked;
    }
  }

  lemma JoinEnds(lines: seq<string>)
    requires lines != [] && lines[|lines| - 1] != ""
    ensures var s := Join("\n", lines); s != "" && s[|s| - 1] == lines[|lines| - 1][|lines[|lines| - 1]| - 1]
  {}

  lemma QuestionsEnd(remaining: seq<Asked>)
    requires remaining != [] && forall a :: a in remaining ==> a.text != "" && Trimmed(a.text)
    ensures var suffix := "\n" + Join("\n", Map(QuestionLine, remaining)); !IsSpace(suffix[|suffix| - 1])
  {
    var last := remaining[|remaining| - 1];
    var lines := Map(QuestionLine, remaining);
    assert last in remaining && lines[|lines| - 1] == "- " + last.text;
    TrimmedExactlyWhen(last.text);
    JoinEnds(lines);
    hide IsSpace, Join, Map, Trimmed;
  }

  /** The suffix of an interrupted reply ends in no white space either. */
  lemma SuffixExtends(cfg: Config, core: Core, fallback: string)
    requires !cfg.request.kind.HistoryRecall? && core.rendered != "" && ServerTextsTrimmed(cfg, fallback)
    ensures PartialSuffix(cfg, core, fallback) == "" || Extends(core.rendered, PartialSuffix(cfg, core, fallback))
  {
    ConstantSuffixes();
    hide IsSpace, Remaining, Join, Map, Trimmed, REFUSAL_SUFFIX, STOPPED_SUFFIX;
    if cfg.request.kind.Clarification? {
      var remaining := Remaining(cfg.request.missingSlots, cfg.request.questions, core.asked);
      RemainingFromServer(cfg.request.missingSlots, cfg.request.questions, core.asked);
      if remaining != [] {
        QuestionsEnd(remaining);
      }
    }
  }

  lemma ConstantSuffixes()
    ensures REFUSAL_SUFFIX != "" && !IsSpace(REFUSAL_SUFFIX[|REFUSAL_SUFFIX| - 1])
    ensures STOPPED_SUFFIX != "" && !IsSpace(STOPPED_SUFFIX[|STOPPED_SUFFIX| - 1])
  {}

  /** Whatever the model sends, a reply other than a recall is its own strip, as far as the server's own texts are. */
  lemma RepliesAreTrimmed(cfg: Config, demo: bool, fallback: string, deltas: seq<string>, completed: bool)
    requires !cfg.request.kind.HistoryRecall? && ServerTextsTrimmed(cfg, fallback)
    ensures Trimmed(Generated(cfg, demo, fallback, deltas, completed).text)
  {
    TakenIsShaped(cfg, deltas);
    var d := Taken(cfg, deltas);
    var f := FinalDrain(cfg, d.state, d.buffer);
    var core := if completed then f.state else d.state;
    if core.rendered != "" {
      SuffixExtends(cfg, core, fallback);
      hide Taken, FinalDrain, PartialSuffix, Acceptable, Trimmed, ServerTextsTrimmed;
      assert core.rendered + "" == core.rendered;
      if PartialSuffix(cfg, core, fallback) != "" {
        ExtendedIsTrimmed(core.rendered, PartialSuffix(cfg, core, fallback));
      }
    }
  }

  lemma RecallTrimmedExactlyWhen(lead: string, content: string)
    requires Trimmed(lead)
    ensures Trimmed(RecallText(lead, content))
       <==> if lead == "" then Trimmed(content) else content != "" && !IsSpace(content[|content| - 1])
  {
    TrimmedExactlyWhen(lead);
    TrimmedExactlyWhen(RecallText(lead, content));
    assert IsSpace('\n');
    hide IsSpace, Trimmed;
  }

  /**
   * A recall is the fallback, or a lead and the message as it is held; then it is its own strip exactly when the
   * message does not end in white space, nor start in it without a lead.
   */
  lemma RecallsAreTrimmedExactlyWhen(cfg: Config, demo: bool, fallback: string, deltas: seq<string>, completed: bool)
    requires cfg.request.kind.HistoryRecall?
    ensures var text := Generated(cfg, demo, fallback, deltas, completed).text;
            text == fallback
            || exists lead, id :: RecallOf(cfg, text, lead, id)
                 && (Trimmed(text) <==> if lead == "" then Trimmed(cfg.selected[id]) else EndsClean(cfg.selected[id]))
  {
    TakenIsShaped(cfg, deltas);
    var d := Taken(cfg, deltas);
    var f := FinalDrain(cfg, d.state, d.buffer);
    var core := if completed then f.state else d.state;
    if !demo && core.rendered != "" {
      var text := Generated(cfg, demo, fallback, deltas, completed).text;
      assert text == core.rendered by {
        hide Taken, FinalDrain, Acceptable;
        assert core.rendered + "" == core.rendered;
      }
      hide Taken, FinalDrain, Acceptable, Generated, Trimmed;
      var lead, id :| RecallOf(cfg, core.rendered, lead, id);
      RecallTrimmedExactlyWhen(lead, cfg.selected[id]);
    }
  }

  predicate EndsClean(s: string) { s != "" && !IsSpace(s[|s| - 1]) }

  /** The fallback for a recalled message. */
  function RecallFallback(user: bool, content: string): string {
    (if user then "上一条用户问题" else "上一条回答") + ("是：\n\n" + content)
  }

  /**
   * With a model that says nothing, a message that ends in white space is recalled in a reply that is not its own
   * strip.
   */
  lemma SilentRecallIsTrimmedExactlyWhen(cfg: Config, user: bool, content: string)
    ensures var reply := Generated(cfg, false, RecallFallback(user, content), [], false);
            reply.text == RecallFallback(user, content) && (Trimmed(reply.text) <==> EndsClean(content))
  {
    var text := RecallFallback(user, content);
    assert text[0] == '上' && |text| > 1;
    assert content == "" ==> text[|text| - 1] == '\n';
    assert content != "" ==> text[|text| - 1] == content[|content| - 1];
    assert !IsSpace('上') && IsSpace('\n');
    TrimmedExactlyWhen(text);
    assert Taken(cfg, []).state.rendered == "";
    hide IsSpace, Trimmed, RecallFallback;
  }

  /**
   * A run that took a reply's deltas and an interrupt with that reply from the queue: undisturbed, it completes if
   * and only if the reply is its own strip. Otherwise it fails and nothing is saved.
   */
  lemma AskedReplyIsKeptExactlyWhen(
    cfg: Config, demo: bool, fallback: string, deltas: seq<string>, completed: bool,
    questions: seq<string>, actions: seq<StreamService.Action>)
    requires StreamService.NobodyCancels(actions)
    ensures var reply := Generated(cfg, demo, fallback, deltas, completed);
            forall answerText {:trigger Asking(reply, questions, answerText)} ::
              StreamService.TookFromGraph(actions, reply.emitted, Asking(reply, questions, answerText)) ==>
                KeptExactlyWhenTrimmed(StreamService.Steps(StreamService.Begin(None), actions), reply.text)
  {
    hide *;
    var reply := Generated(cfg, demo, fallback, deltas, completed);
    GenerateReturnsWhatItEmitted(cfg, demo, fallback, deltas, completed);
    forall answerText
      | StreamService.TookFromGraph(actions, reply.emitted, Asking(reply, questions, answerText))
      ensures KeptExactlyWhenTrimmed(StreamService.Steps(StreamService.Begin(None), actions), reply.text)
    {
      StreamService.TakenIsStreamed(actions, reply.emitted, Asking(reply, questions, answerText));
      AskingIs(reply, questions, answerText);
      InterruptPassesExactlyWhen(StreamService.Steps(StreamService.Begin(None), actions), questions);
    }
  }

  /** The graph's last state when it interrupts with a reply. */
  function Asking(reply: Reply, questions: seq<string>, answerText: string): StreamService.FinalState {
    StreamService.FinalState(Some(StreamService.Interrupt(reply.text, questions)), answerText)
  }

  lemma AskingIs(reply: Reply, questions: seq<string>, answerText: string)
    ensures Asking(reply, questions, answerText).interrupt == Some(StreamService.Interrupt(reply.text, questions))
  {}

  /** Undisturbed, the run completes if the text is its own strip, and otherwise fails with nothing saved. */
  predicate KeptExactlyWhenTrimmed(run: StreamService.Run, text: string) {
    var after := StreamService.Steps(run, StreamService.UNDISTURBED);
    if Trimmed(text) then StreamService.CompletedWith(after, StreamService.ResponseText(run.final))
    else after.phase.Failing? && after.persisted == []
  }
}
