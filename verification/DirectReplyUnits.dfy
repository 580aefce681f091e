/** Which units of a direct reply are shown, and as what. */
module DirectReplyUnits {
  import opened DirectReply
  import opened IncrementalReader
  import opened JsonUnits
  import opened Sequences
  import Domain

  // ----- What a unit must be -----

  /** The type of unit that a request of this kind takes. */
  predicate FitsKind(kind: Kind, unit: UnitType) {
    match unit
    case Lead => kind.HistoryRecall?
    case Question => kind.Clarification?
    case Boundary => kind.Refusal?
    case Alternative => kind.Refusal?
    case Ack => kind.ControlAck?
    case TextUnit => kind in {GeneralChat, HistoryTransform, Feedback}
    case _ => false
  }

  /** The unit's key is one the request has, and its turn has come. */
  predicate KeyIsDue(cfg: Config, core: Core, payload: Payload)
    requires payload.AnObject?
  {
    match payload.kind
    case Lead => core.units == 0 && payload.key in cfg.selected
    case Question => payload.key in cfg.request.missingSlots && forall a :: a in core.asked ==> a.slot != payload.key
    case Boundary => core.boundary.None? && payload.key in cfg.request.reasonCodes
    case Alternative =>
      core.boundary.Some? && core.alternative.None? && payload.key in cfg.request.alternativeCodes
    case Ack => core.units == 0 && payload.key == cfg.request.controlSummary
    case _ => true
  }

  /** The text is short enough, prohibited nowhere, and says what a text of this kind must. */
  predicate TextFits(cfg: Config, payload: Payload, text: string)
    requires payload.AnObject?
  {
    |text| <= (match payload.kind case Lead => 120 case Question => 300 case TextUnit => 600 case _ => 500)
    && !cfg.prohibited(text)
    && (text == "" ==> payload.kind.Lead?)
    && (payload.kind.Lead? ==> !cfg.repeatsRequest(text))
    && (payload.kind.Question? ==> cfg.hinted(payload.key, text))
    && (cfg.request.kind.HistoryTransform? ==> cfg.groundedInHistory(text))
  }

  /** What is added to the reply for a text: the recalled message behind its lead, a question line, a paragraph. */
  function ShownAs(cfg: Config, core: Core, payload: Payload, text: string): string
    requires payload.AnObject? && (payload.kind.Lead? ==> payload.key in cfg.selected)
  {
    match payload.kind
    case Lead => (if text == "" then "" else text + "\n\n") + cfg.selected[payload.key]
    case Question => (if core.rendered == "" then Domain.QUESTIONS_LEAD else "\n") + "- " + text
    case Alternative => "\n\n" + text
    case _ => text
  }

  /** The bookkeeping of a unit that is shown. */
  function Noted(core: Core, payload: Payload, text: string): Core
    requires payload.AnObject?
  {
    match payload.kind
    case Question => core.(asked := core.asked + [Asked(payload.key, text)])
    case Boundary => core.(boundary := Some(text))
    case Alternative => core.(alternative := Some(text))
    case _ => core
  }

  predicate Welcome(cfg: Config, core: Core, payload: Payload)
    requires payload.AnObject?
  {
    FitsKind(cfg.request.kind, payload.kind) && KeyIsDue(cfg, core, payload)
    && TextFits(cfg, payload, Strip(payload.text))
  }

  lemma JudgedExactlyWhen(cfg: Config, core: Core, payload: Payload)
    requires payload.AnObject?
    ensures Judge(cfg, core, payload).Some? <==> Welcome(cfg, core, payload)
    ensures Welcome(cfg, core, payload) ==>
              var text := Strip(payload.text);
              Judge(cfg, core, payload) == Some((ShownAs(cfg, core, payload, text), Noted(core, payload, text)))
  {
    hide Strip, Domain.QUESTIONS_LEAD;
    assert IsAsked(core.asked, payload.key) <==> !forall a :: a in core.asked ==> a.slot != payload.key;
    hide IsAsked;
    if payload.key in cfg.selected {
      assert "" + cfg.selected[payload.key] == cfg.selected[payload.key];
    }
  }

  lemma AppendsExactly(core: Core, text: string)
    requires |core.rendered| <= MAX_RENDERED
    ensures var (after, error) := Append(core, text);
            (error.None? <==> |core.rendered| + |text| <= MAX_RENDERED)
            && (error.None? ==> after == core.(rendered := core.rendered + text,
                                               emitted := core.emitted + if text == "" then [] else [text]))
            && (error.Some? ==> after == core)
  {}

  /**
   * A unit is shown if and only if the reply is not done, fewer than eight units were shown, its type fits the kind
   * of request, its key is due, its stripped text fits, and the reply stays within 10000 characters; it is then
   * shown behind what there was, and noted. Any other unit raises and changes nothing.
   */
  lemma UnitIsShownExactlyWhen(cfg: Config, core: Core, payload: Payload)
    requires Consistent(cfg, core) && payload.AnObject? && !payload.kind.DoneUnit?
    ensures var (after, error) := ProcessUnit(cfg, core, payload);
            var text := Strip(payload.text);
            (error.None? <==>
               !core.done && core.units < 8 && Welcome(cfg, core, payload)
               && |core.rendered| + |ShownAs(cfg, core, payload, text)| <= 10000)
            && if error.Some? then after == core
               else
                 var shown := ShownAs(cfg, core, payload, text);
                 after == Noted(core, payload, text).(rendered := core.rendered + shown, units := core.units + 1,
                            emitted := core.emitted + if shown == "" then [] else [shown])
  {
    JudgedExactlyWhen(cfg, core, payload);
    assert |core.rendered| <= MAX_RENDERED;
    if Welcome(cfg, core, payload) {
      AppendsExactly(core, ShownAs(cfg, core, payload, Strip(payload.text)));
    }
    hide Judge, Append, Welcome, ShownAs, Strip, Consistent;
  }

  /** A unit that ends the reply is taken exactly once, and nothing is taken after it or that is no object. */
  lemma DoneIsTakenExactlyWhen(cfg: Config, core: Core, payload: Payload)
    requires payload.NotAnObject? || payload.kind.DoneUnit?
    ensures var (after, error) := ProcessUnit(cfg, core, payload);
            (error.None? <==> !core.done && payload.AnObject?) && after == core.(done := core.done || error.None?)
  {}

  // ----- Nothing prohibited is shown -----

  /** The delta is a text that is not prohibited, alone or in one of the server's frames. */
  ghost predicate Framed(cfg: Config, delta: string) {
    exists text :: !cfg.prohibited(text) && FramesText(cfg, delta, text)
  }

  predicate FramesText(cfg: Config, delta: string, text: string) {
    delta == text || delta == Domain.QUESTIONS_LEAD + "- " + text || delta == "\n" + "- " + text
    || delta == "\n\n" + text
    || exists key :: key in cfg.selected
         && delta == (if text == "" then "" else text + "\n\n") + cfg.selected[key]
  }

  ghost predicate AllFramed(cfg: Config, core: Core) {
    forall delta :: delta in core.emitted ==> Framed(cfg, delta)
  }

  lemma UnitShowsFramed(cfg: Config, core: Core, payload: Payload)
    requires Consistent(cfg, core) && AllFramed(cfg, core)
    ensures AllFramed(cfg, ProcessUnit(cfg, core, payload).0)
  {
    if payload.AnObject? && !payload.kind.DoneUnit? {
      UnitIsShownExactlyWhen(cfg, core, payload);
      hide ProcessUnit, Consistent, Framed;
      if ProcessUnit(cfg, core, payload).1.None? {
        WelcomeIsFramed(cfg, core, payload);
        hide Welcome, ShownAs, Strip;
      }
    }
  }

  lemma WelcomeIsFramed(cfg: Config, core: Core, payload: Payload)
    requires payload.AnObject? && Welcome(cfg, core, payload)
    ensures Framed(cfg, ShownAs(cfg, core, payload, Strip(payload.text)))
  {
    hide Strip, Domain.QUESTIONS_LEAD;
    assert FramesText(cfg, ShownAs(cfg, core, payload, Strip(payload.text)), Strip(payload.text));
  }

  /** Consistent, and all it has emitted is framed. */
  ghost predicate Clean(cfg: Config, core: Core) { Consistent(cfg, core) && AllFramed(cfg, core) }

  lemma UnitsKeepClean(cfg: Config)
    ensures Keeps(UnitProcessor(cfg), (core: Core) => Clean(cfg, core), AnyError)
  {
    forall core, unit | Clean(cfg, core) ensures Clean(cfg, UnitProcessor(cfg)(core, unit).0) {
      UnitIsConsistent(cfg, core, cfg.decode(unit));
      UnitShowsFramed(cfg, core, cfg.decode(unit));
      hide ProcessUnit, Consistent, AllFramed;
    }
  }

  lemma EmptyIsClean(cfg: Config)
    ensures Clean(cfg, EMPTY)
  {
    EmptyIsConsistent(cfg);
  }

  lemma TakenIsClean(cfg: Config, deltas: seq<string>)
    ensures var d := Taken(cfg, deltas);
            Clean(cfg, d.state) && Clean(cfg, FinalDrain(cfg, d.state, d.buffer).state)
  {
    hide Clean, UnitProcessor;
    EmptyIsClean(cfg);
    UnitsKeepClean(cfg);
    DeliveredKeeps(JSON_LEXER, UnitProcessor(cfg), (c: Core) => Clean(cfg, c), AnyError, EMPTY, deltas);
    var d := Taken(cfg, deltas);
    DrainKeeps(JSON_LEXER, UnitProcessor(cfg), (c: Core) => Clean(cfg, c), AnyError, d.state, d.buffer);
  }

  /**
   * Whatever the model sends, in however many attempts: every delta of a direct reply is a text that is not
   * prohibited in one of the server's frames, but for the last one, which may be the server's own fallback or the
   * server's own suffix.
   */
  lemma NothingProhibitedIsShown(cfg: Config, fallback: string, deltas: seq<string>, completed: bool, i: nat)
    requires var emitted := Generated(cfg, false, fallback, deltas, completed).emitted; i < |emitted|
    ensures var emitted := Generated(cfg, false, fallback, deltas, completed).emitted;
            var core := Taken(cfg, deltas).state;
            var drained := FinalDrain(cfg, core, Taken(cfg, deltas).buffer).state;
            Framed(cfg, emitted[i])
            || (i == |emitted| - 1
                && (emitted[i] == fallback || emitted[i] == PartialSuffix(cfg, core, fallback)
                    || emitted[i] == PartialSuffix(cfg, drained, fallback)))
  {
    TakenIsClean(cfg, deltas);
    hide Taken, FinalDrain, PartialSuffix, Acceptable, Framed, Consistent;
    var d := Taken(cfg, deltas);
    var f := FinalDrain(cfg, d.state, d.buffer);
    var emitted := Generated(cfg, false, fallback, deltas, completed).emitted;
    var core := if completed then f.state else d.state;
    assert i < |core.emitted| ==> emitted[i] == core.emitted[i] && emitted[i] in core.emitted;
  }

  // ----- What is generated -----

  /** What is left of the text when no more units can be read is empty, or the fence that closes a code block. */
  predicate NothingLeft(rest: string) {
    WhiteOnly(rest) || Strip(rest) == "```"
  }

  /** The reply is done, visible, and complete for its kind. */
  predicate Complete(cfg: Config, core: Core) {
    core.done && |core.rendered| > 0
    && match cfg.request.kind
       case Clarification =>
         forall slot :: slot in cfg.request.missingSlots ==> exists a :: a in core.asked && a.slot == slot
       case Refusal => core.boundary != None && core.alternative != None
       case _ => true
  }

  lemma CompleteExactlyWhen(cfg: Config, core: Core)
    ensures Acceptable(cfg, core) <==> Complete(cfg, core)
  {}

  /** What the server adds to a reply that fails after something was shown. */
  predicate SuffixFits(cfg: Config, core: Core, suffix: string) {
    match cfg.request.kind
    case HistoryRecall => suffix == ""
    case Clarification =>
      var rest := Remaining(cfg.request.missingSlots, cfg.request.questions, core.asked);
      suffix == if |rest| == 0 then "" else "\n" + Join("\n", Map(QuestionLine, rest))
    case Refusal =>
      suffix == if core.alternative == None then "\n\n你仍可以让我查询受控半导体知识、只读制造数据，或协助异常排查。"
                else "\n\n（后续内容未通过校验，已停止显示未验证部分。）"
    case _ => suffix == "\n\n（后续内容未通过校验，已停止显示未验证部分。）"
  }

  lemma SuffixExactly(cfg: Config, core: Core, fallback: string)
    requires core.rendered != ""
    ensures SuffixFits(cfg, core, PartialSuffix(cfg, core, fallback))
  {
    hide Remaining, Join, Map;
  }

  /**
   * The reply of the model is the text, as it stands, if and only if the gateway completed, no unit still to be read
   * raises, nothing but a closing fence is left over, and the reply is complete; failing that, the server's fallback
   * is, if nothing was shown, or what was shown with the server's suffix.
   */
  lemma GeneratedExactly(cfg: Config, fallback: string, deltas: seq<string>, completed: bool)
    ensures var d := Taken(cfg, deltas);
            var rest := Drain(JSON_LEXER, UnitProcessor(cfg), d.state, d.buffer);
            var core := if completed then rest.state else d.state;
            var text := Generated(cfg, false, fallback, deltas, completed).text;
            if completed && rest.error.None? && NothingLeft(rest.buffer) && Complete(cfg, core) then
              text == core.rendered
            else if core.rendered == "" then text == fallback
            else exists suffix :: text == core.rendered + suffix && SuffixFits(cfg, core, suffix)
    ensures Generated(cfg, true, fallback, deltas, completed) == Reply(fallback, [fallback])
  {
    hide Taken, UnitProcessor, Strip, PartialSuffix, SuffixFits;
    var d := Taken(cfg, deltas);
    var rest := Drain(JSON_LEXER, UnitProcessor(cfg), d.state, d.buffer);
    var core := if completed then rest.state else d.state;
    BlankExactlyWhen(rest.buffer);
    assert rest.buffer == "" ==> WhiteOnly(rest.buffer);
    CompleteExactlyWhen(cfg, core);
    if core.rendered != "" {
      SuffixExactly(cfg, core, fallback);
    }
    hide Drain, Acceptable, Complete;
  }
}
