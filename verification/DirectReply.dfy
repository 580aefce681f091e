/** Replies that need no evidence: a validated unit protocol, and what is shown when it fails half way. */
module DirectReply {
  import opened IncrementalReader
  import opened JsonUnits
  import opened Sequences
  import Domain

  datatype Kind = GeneralChat | HistoryRecall | HistoryTransform | Feedback | ControlAck | Clarification | Refusal

  /** An absent control summary is the empty string, which is what the code compares with. */
  datatype Request = Request(
    kind: Kind, missingSlots: seq<string>, questions: seq<string>,
    reasonCodes: seq<string>, alternativeCodes: seq<string>, controlSummary: string)

  datatype UnitType = Lead | Question | Boundary | Alternative | Ack | TextUnit | DoneUnit | OtherUnit

  /** A decoded unit: its type, its text, and the one key its type is checked by. */
  datatype Payload = NotAnObject | AnObject(kind: UnitType, text: string, key: string)

  /** The request, the selected history, and the text tests the code writes as patterns and hint lists. */
  datatype Config = Config(
    request: Request,
    selected: map<string, string>,
    decode: string -> Payload,
    prohibited: string -> bool,
    hinted: (string, string) -> bool,
    repeatsRequest: string -> bool,
    groundedInHistory: string -> bool)

  datatype Error = Rejected

  /** A slot the reply has asked for, with the text it asked with. */
  datatype Asked = Asked(slot: string, text: string)

  /** Everything the assembler holds except its buffer; the seen flags are kept with the text seen. */
  datatype Core = Core(
    rendered: string, done: bool, units: nat, asked: seq<Asked>,
    boundary: Option<string>, alternative: Option<string>, emitted: seq<string>)

  const EMPTY := Core("", false, 0, [], None, None, [])
  const MAX_RENDERED := 10000
  const MAX_UNITS := 8
  const REFUSAL_SUFFIX := "\n\n你仍可以让我查询受控半导体知识、只读制造数据，或协助异常排查。"
  const STOPPED_SUFFIX := "\n\n（后续内容未通过校验，已停止显示未验证部分。）"

  // ----- One unit -----

  function Append(core: Core, text: string): (Core, Option<Error>) {
    if text == "" then (core, None)
    else if |core.rendered| + |text| > MAX_RENDERED then (core, Some(Rejected))
    else (core.(rendered := core.rendered + text, emitted := core.emitted + [text]), None)
  }

  /** `_clean_text`: None where it raises. */
  function CleanText(cfg: Config, raw: string, limit: nat): (r: Option<string>)
    ensures r.Some? ==> |r.value| <= limit
  {
    var text := Strip(raw);
    if |text| > limit || cfg.prohibited(text) then None else Some(text)
  }

  predicate IsAsked(asked: seq<Asked>, slot: string) {
    exists a :: a in asked && a.slot == slot
  }

  /** The validation of one unit: the text to show and the core's bookkeeping, or None where it raises. */
  function Judge(cfg: Config, core: Core, payload: Payload): Option<(string, Core)>
    requires payload.AnObject?
  {
    var request := cfg.request;
    match request.kind
    case HistoryRecall =>
      if !payload.kind.Lead? || core.units > 0 || payload.key !in cfg.selected then None
      else
        (match CleanText(cfg, payload.text, 120)
         case None => None
         case Some(lead) =>
           if cfg.repeatsRequest(lead) then None
           else
             var content := cfg.selected[payload.key];
             Some((if lead != "" then lead + "\n\n" + content else content, core)))
    case Clarification =>
      if !payload.kind.Question? || payload.key !in request.missingSlots || IsAsked(core.asked, payload.key) then None
      else
        (match CleanText(cfg, payload.text, 300)
         case None => None
         case Some(text) =>
           if text == "" || !cfg.hinted(payload.key, text) then None
           else Some(((if core.rendered == "" then Domain.QUESTIONS_LEAD else "\n") + "- " + text,
                      core.(asked := core.asked + [Asked(payload.key, text)]))))
    case Refusal =>
      (match CleanText(cfg, payload.text, 500)
       case None => None
       case Some(text) =>
         if text == "" then None
         else if payload.kind.Boundary? then
           if core.boundary.Some? || payload.key !in request.reasonCodes then None
           else Some((text, core.(boundary := Some(text))))
         else if payload.kind.Alternative? then
           if core.boundary.None? || core.alternative.Some? || payload.key !in request.alternativeCodes then None
           else Some(("\n\n" + text, core.(alternative := Some(text))))
         else None)
    case ControlAck =>
      if !payload.kind.Ack? || core.units > 0 || payload.key != request.controlSummary then None
      else
        (match CleanText(cfg, payload.text, 500)
         case None => None
         case Some(text) => if text == "" then None else Some((text, core)))
    case _ =>
      if !payload.kind.TextUnit? then None
      else
        (match CleanText(cfg, payload.text, 600)
         case None => None
         case Some(text) =>
           if text == "" || (request.kind.HistoryTransform? && !cfg.groundedInHistory(text)) then None
           else Some((text, core)))
  }

  /** `_process_unit`. */
  function ProcessUnit(cfg: Config, core: Core, payload: Payload): (Core, Option<Error>) {
    if core.done || payload.NotAnObject? then (core, Some(Rejected))
    else if payload.kind.DoneUnit? then (core.(done := true), None)
    else if core.units >= MAX_UNITS then (core, Some(Rejected))
    else
      match Judge(cfg, core, payload)
      case None => (core, Some(Rejected))
      case Some((text, noted)) =>
        var (shown, error) := Append(core, text);
        if error.Some? then (core, error)
        else (noted.(rendered := shown.rendered, emitted := shown.emitted, units := core.units + 1), None)
  }

  function UnitProcessor(cfg: Config): Processor<Core, Error> {
    (core: Core, unit: string) => ProcessUnit(cfg, core, cfg.decode(unit))
  }

  function FinalDrain(cfg: Config, core: Core, buffer: string): Progress<Core, Error> {
    var d := Drain(JSON_LEXER, UnitProcessor(cfg), core, buffer);
    if d.error.Some? || d.buffer == "" then d
    else if Harmless(d.buffer) then d.(buffer := "")
    else d.(error := Some(Rejected))
  }

  /** The conditions `finish` checks after its final drain. */
  predicate Acceptable(cfg: Config, core: Core) {
    core.done && core.rendered != ""
    && (cfg.request.kind.Clarification? ==>
          forall slot :: slot in cfg.request.missingSlots ==> IsAsked(core.asked, slot))
    && (cfg.request.kind.Refusal? ==> core.boundary.Some? && core.alternative.Some?)
  }

  // ----- The object -----

  class DirectReplyAssembler {
    const cfg: Config
    var buffer: string
    var rendered: string
    var done: bool
    var units: nat
    var asked: seq<Asked>
    var boundary: Option<string>
    var alternative: Option<string>
    var emitted: seq<string>

    function View(): Core
      reads this
    {
      Core(rendered, done, units, asked, boundary, alternative, emitted)
    }

    constructor (cfg: Config)
      ensures this.cfg == cfg && buffer == "" && View() == EMPTY
    {
      this.cfg := cfg;
      buffer, rendered, done, units := "", "", false, 0;
      asked, boundary, alternative, emitted := [], None, None, [];
    }

    method Feed(delta: string) returns (error: Option<Error>)
      modifies this
      ensures var d := FeedAll(JSON_LEXER, UnitProcessor(cfg), old(View()), old(buffer), [delta]);
              View() == d.state && buffer == d.buffer && error == d.error
    {
      error := None;
      if delta != "" {
        buffer := buffer + delta;
        error := ConsumeAvailable(false);
      }
    }

    method Finish() returns (error: Option<Error>)
      modifies this
      ensures var d := FinalDrain(cfg, old(View()), old(buffer));
              View() == d.state && (error.None? <==> d.error.None? && Acceptable(cfg, d.state))
    {
      error := ConsumeAvailable(true);
      if error.None? {
        if !done || rendered == "" {
          return Some(Rejected);
        }
        if cfg.request.kind.Clarification? && exists slot :: slot in cfg.request.missingSlots && !IsAsked(asked, slot) {
          return Some(Rejected);
        }
        if cfg.request.kind.Refusal? && !(boundary.Some? && alternative.Some?) {
          return Some(Rejected);
        }
      }
    }

    method ConsumeAvailable(final: bool) returns (error: Option<Error>)
      modifies this
      ensures var d := if final then FinalDrain(cfg, old(View()), old(buffer))
                       else Drain(JSON_LEXER, UnitProcessor(cfg), old(View()), old(buffer));
              View() == d.state && buffer == d.buffer && error == d.error
    {
      hide ProcessUnit, Acceptable;
      ghost var goal := Drain(JSON_LEXER, UnitProcessor(cfg), View(), buffer);
      while true
        invariant Drain(JSON_LEXER, UnitProcessor(cfg), View(), buffer) == goal
        decreases |buffer|
      {
        match NextUnit(buffer)
        case Blank =>
          buffer := "";
          return None;
        case Unfinished(text) =>
          buffer := text;
          if final {
            if !Harmless(buffer) {
              return Some(Rejected);
            }
            buffer := "";
          }
          return None;
        case Unit(unit, rest) =>
          buffer := rest;
          error := ProcessOne(cfg.decode(unit));
          if error.Some? {
            return;
          }
      }
    }

    method ProcessOne(payload: Payload) returns (error: Option<Error>)
      modifies this
      ensures (View(), error) == ProcessUnit(cfg, old(View()), payload) && buffer == old(buffer)
    {
      hide Judge;
      if done || payload.NotAnObject? {
        return Some(Rejected);
      }
      if payload.kind.DoneUnit? {
        done := true;
        return None;
      }
      if units >= MAX_UNITS {
        return Some(Rejected);
      }
      match Judge(cfg, View(), payload) {
        case None =>
          return Some(Rejected);
        case Some(pair) =>
          var (text, noted) := pair;
          if text != "" {
            if |rendered| + |text| > MAX_RENDERED {
              return Some(Rejected);
            }
            rendered := rendered + text;
            emitted := emitted + [text];
          }
          done, asked, boundary, alternative := noted.done, noted.asked, noted.boundary, noted.alternative;
          units := units + 1;
          return None;
      }
    }
  }

  // ----- What every stream keeps -----

  function QuestionLine(a: Asked): string { "- " + a.text }

  function QuestionText(lines: seq<string>): string {
    if lines == [] then "" else Domain.QUESTIONS_LEAD + Join("\n", lines)
  }

  function Slots(asked: seq<Asked>): seq<string> {
    Map((a: Asked) => a.slot, asked)
  }

  function RefusalText(boundary: Option<string>, alternative: Option<string>): string {
    (if boundary.Some? then boundary.value else "") + if alternative.Some? then "\n\n" + alternative.value else ""
  }

  /** The text is the questions asked so far, each for a different missing slot. */
  predicate AsksInOrder(request: Request, rendered: string, asked: seq<Asked>) {
    rendered == QuestionText(Map(QuestionLine, asked)) && Distinct(Slots(asked))
    && forall slot :: slot in Slots(asked) ==> slot in request.missingSlots
  }

  /** The text is the boundary, then the alternative, as far as they were given. */
  predicate RefusesInOrder(rendered: string, boundary: Option<string>, alternative: Option<string>) {
    rendered == RefusalText(boundary, alternative) && (alternative.Some? ==> boundary.Some?)
    && (boundary.Some? ==> boundary.value != "") && (alternative.Some? ==> alternative.value != "")
  }

  predicate Emits(rendered: string, emitted: seq<string>) {
    Concat(emitted) == rendered && |rendered| <= MAX_RENDERED && (rendered == "" ==> emitted == [])
  }

  /** The invariant of the automaton. */
  predicate Consistent(cfg: Config, core: Core) {
    Emits(core.rendered, core.emitted) && core.units <= MAX_UNITS
    && (cfg.request.kind.Clarification? ==> AsksInOrder(cfg.request, core.rendered, core.asked))
    && (cfg.request.kind.Refusal? ==> RefusesInOrder(core.rendered, core.boundary, core.alternative))
  }

  lemma AskedSlots(asked: seq<Asked>, slot: string)
    ensures IsAsked(asked, slot) <==> slot in Slots(asked)
  {
    if IsAsked(asked, slot) {
      var a :| a in asked && a.slot == slot;
      var i :| 0 <= i < |asked| && asked[i] == a;
      assert Slots(asked)[i] == slot;
    }
    if slot in Slots(asked) {
      var i :| 0 <= i < |asked| && Slots(asked)[i] == slot;
      assert asked[i] in asked;
    }
  }

  lemma AskedAdd(asked: seq<Asked>, a: Asked)
    requires Distinct(Slots(asked)) && !IsAsked(asked, a.slot)
    ensures Slots(asked + [a]) == Slots(asked) + [a.slot] && Distinct(Slots(asked + [a]))
    ensures QuestionText(Map(QuestionLine, asked + [a]))
         == QuestionText(Map(QuestionLine, asked)) + (if asked == [] then Domain.QUESTIONS_LEAD
           else "\n") + "- " + a.text
    ensures QuestionText(Map(QuestionLine, asked)) == "" <==> asked == []
  {
    AskedSlots(asked, a.slot);
    MapAdd((x: Asked) => x.slot, asked, a);
    MapAdd(QuestionLine, asked, a);
    JoinAdd("\n", Map(QuestionLine, asked), QuestionLine(a));
    hide Map, Join;
    var lines := Map(QuestionLine, asked);
    if asked == [] {
      assert Domain.QUESTIONS_LEAD + ("- " + a.text) == Domain.QUESTIONS_LEAD + "- " + a.text;
    } else {
      assert Domain.QUESTIONS_LEAD + (Join("\n", lines) + "\n" + ("- " + a.text))
          == (Domain.QUESTIONS_LEAD + Join("\n", lines)) + "\n" + "- " + a.text;
    }
    LeadIsText();
  }

  lemma LeadIsText()
    ensures Domain.QUESTIONS_LEAD != ""
  {}

  lemma AppendKeeps(core: Core, text: string)
    requires Emits(core.rendered, core.emitted)
    ensures var (after, error) := Append(core, text);
            Emits(after.rendered, after.emitted) && (error.None? ==> after.rendered == core.rendered + text)
  {
    ConcatAppend(core.emitted, [text]);
    assert Concat([text]) == text;
  }

  lemma JudgedClarification(cfg: Config, core: Core, payload: Payload)
    requires payload.AnObject? && cfg.request.kind.Clarification?
    requires AsksInOrder(cfg.request, core.rendered, core.asked) && Judge(cfg, core, payload).Some?
    ensures var (text, noted) := Judge(cfg, core, payload).value;
            AsksInOrder(cfg.request, core.rendered + text, noted.asked)
  {
    hide CleanText, IsAsked, Map, Join, Concat, Distinct, QuestionText, Domain.QUESTIONS_LEAD;
    var (text, noted) := Judge(cfg, core, payload).value;
    AskedAdd(core.asked, noted.asked[|core.asked|]);
    var lead := if core.rendered == "" then Domain.QUESTIONS_LEAD else "\n";
    var words := noted.asked[|core.asked|].text;
    assert core.rendered + (lead + "- " + words) == core.rendered + lead + "- " + words;
  }

  lemma JudgedRefusal(cfg: Config, core: Core, payload: Payload)
    requires payload.AnObject? && cfg.request.kind.Refusal?
    requires RefusesInOrder(core.rendered, core.boundary, core.alternative) && Judge(cfg, core, payload).Some?
    ensures var (text, noted) := Judge(cfg, core, payload).value;
            RefusesInOrder(core.rendered + text, noted.boundary, noted.alternative)
  {
    hide CleanText, Map, Join, Concat, Distinct, IsAsked;
  }

  /** A judged unit leaves everything but the bookkeeping of its kind alone. */
  lemma JudgedText(cfg: Config, core: Core, payload: Payload, text: string, noted: Core)
    requires payload.AnObject? && Consistent(cfg, core) && Judge(cfg, core, payload) == Some((text, noted))
    ensures cfg.request.kind.Clarification? ==> AsksInOrder(cfg.request, core.rendered + text, noted.asked)
    ensures cfg.request.kind.Refusal? ==> RefusesInOrder(core.rendered + text, noted.boundary, noted.alternative)
  {
    hide Judge, Emits, AsksInOrder, RefusesInOrder;
    if cfg.request.kind.Clarification? {
      JudgedClarification(cfg, core, payload);
    } else if cfg.request.kind.Refusal? {
      JudgedRefusal(cfg, core, payload);
    }
  }

  /** Every unit, valid or not, keeps the invariant. */
  lemma UnitIsConsistent(cfg: Config, core: Core, payload: Payload)
    requires Consistent(cfg, core)
    ensures Consistent(cfg, ProcessUnit(cfg, core, payload).0)
  {
    hide Judge, Append, Emits, AsksInOrder, RefusesInOrder;
    var after := ProcessUnit(cfg, core, payload).0;
    if payload.AnObject? && !core.done && !payload.kind.DoneUnit? && core.units < MAX_UNITS {
      match Judge(cfg, core, payload)
      case None =>
        assert after == core;
      case Some((text, noted)) =>
        AppendKeeps(core, text);
        JudgedText(cfg, core, payload, text, noted);
        if Append(core, text).1.Some? {
          assert after == core;
        } else {
          assert after.rendered == core.rendered + text;
          assert after.asked == noted.asked;
          assert after.boundary == noted.boundary && after.alternative == noted.alternative;
          assert Emits(after.rendered, after.emitted);
          assert after.units <= MAX_UNITS;
        }
    } else {
      assert after.(done := false) == core.(done := false);
    }
  }

  lemma EmptyIsConsistent(cfg: Config)
    ensures Consistent(cfg, EMPTY)
  {}

  predicate AnyError(error: Error) { true }

  lemma UnitsKeepConsistency(cfg: Config)
    ensures Keeps(UnitProcessor(cfg), (core: Core) => Consistent(cfg, core), AnyError)
  {
    forall core, unit | Consistent(cfg, core) ensures Consistent(cfg, UnitProcessor(cfg)(core, unit).0) {
      UnitIsConsistent(cfg, core, cfg.decode(unit));
    }
  }

  /** Deltas of one or several attempts: a delta that makes the assembler raise does not end the deliveries. */
  function Taken(cfg: Config, deltas: seq<string>): Progress<Core, Error> {
    Delivered(JSON_LEXER, UnitProcessor(cfg), EMPTY, deltas)
  }

  lemma TakenIsConsistent(cfg: Config, deltas: seq<string>)
    ensures Consistent(cfg, Taken(cfg, deltas).state)
  {
    hide Consistent, UnitProcessor;
    EmptyIsConsistent(cfg);
    UnitsKeepConsistency(cfg);
    DeliveredKeeps(JSON_LEXER, UnitProcessor(cfg), (c: Core) => Consistent(cfg, c), AnyError, EMPTY, deltas);
  }

  lemma FinalDrainIsConsistent(cfg: Config, core: Core, buffer: string)
    requires Consistent(cfg, core)
    ensures Consistent(cfg, FinalDrain(cfg, core, buffer).state)
  {
    hide Consistent, UnitProcessor;
    UnitsKeepConsistency(cfg);
    DrainKeeps(JSON_LEXER, UnitProcessor(cfg), (c: Core) => Consistent(cfg, c), AnyError, core, buffer);
  }

  // ----- Finished and unfinished replies -----

  /** The text shows each required slot's question once and no other question. */
  ghost predicate AsksEachOnce(slots: seq<string>, required: seq<string>) {
    Distinct(slots) && forall slot :: slot in slots <==> slot in required
  }

  /**
   * A finished clarification asks each missing slot exactly once; a finished refusal is one boundary, then one
   * alternative.
   */
  lemma FinishedReplies(cfg: Config, core: Core)
    requires Consistent(cfg, core) && Acceptable(cfg, core)
    ensures cfg.request.kind.Clarification? ==>
              AsksEachOnce(Slots(core.asked), cfg.request.missingSlots)
              && core.rendered == QuestionText(Map(QuestionLine, core.asked))
    ensures cfg.request.kind.Refusal? ==>
              core.boundary.Some? && core.alternative.Some?
              && core.rendered == core.boundary.value + ("\n\n" + core.alternative.value)
  {
    hide Map, Concat, QuestionText, IsAsked, Distinct, Emits;
    if cfg.request.kind.Clarification? {
      forall slot ensures slot in Slots(core.asked) <==> slot in cfg.request.missingSlots {
        AskedSlots(core.asked, slot);
      }
    }
  }

  /** The slots and questions that belong together, as far as both lists go, and are not asked yet. */
  function Remaining(slots: seq<string>, questions: seq<string>, asked: seq<Asked>): seq<Asked> {
    if slots == [] || questions == [] then []
    else
      (if IsAsked(asked, slots[0]) then [] else [Asked(slots[0], questions[0])])
      + Remaining(slots[1..], questions[1..], asked)
  }

  /** `safe_partial_suffix`. */
  function PartialSuffix(cfg: Config, core: Core, fallback: string): string {
    match cfg.request.kind
    case HistoryRecall => if core.rendered != "" then "" else fallback
    case Clarification =>
      var remaining := Remaining(cfg.request.missingSlots, cfg.request.questions, core.asked);
      if remaining == [] then "" else "\n" + Join("\n", Map(QuestionLine, remaining))
    case Refusal => if core.alternative.None? then REFUSAL_SUFFIX else STOPPED_SUFFIX
    case _ => STOPPED_SUFFIX
  }

  /** The slots that have a question beside them. */
  function Paired(slots: seq<string>, questions: seq<string>): seq<string> {
    if |slots| <= |questions| then slots else slots[..|questions|]
  }

  lemma {:induction false} RemainingSlots(slots: seq<string>, questions: seq<string>, asked: seq<Asked>)
    requires Distinct(slots)
    ensures var rest := Slots(Remaining(slots, questions, asked));
            Distinct(rest) && forall slot :: slot in rest <==> !IsAsked(asked, slot) && slot in Paired(slots, questions)
    decreases |slots|
  {
    if slots == [] || questions == [] {
      assert Slots([]) == [];
    } else {
      var tail := Remaining(slots[1..], questions[1..], asked);
      TailIsDistinct(slots);
      RemainingSlots(slots[1..], questions[1..], asked);
      var rest := Remaining(slots, questions, asked);
      assert Paired(slots, questions) == [slots[0]] + Paired(slots[1..], questions[1..]);
      assert forall slot :: slot in Paired(slots[1..], questions[1..]) ==> slot in slots[1..];
      assert rest == (if !IsAsked(asked, slots[0]) then [Asked(slots[0], questions[0])] + tail else tail);
      hide IsAsked, Paired, Remaining;
      if !IsAsked(asked, slots[0]) {
        SlotsOfBoth([Asked(slots[0], questions[0])], tail);
        assert Slots([Asked(slots[0], questions[0])]) == [slots[0]];
        assert forall slot :: slot in Slots(rest) <==> slot == slots[0] || slot in Slots(tail);
        hide Slots;
        HeadIsNew(slots[0], Slots(tail));
      }
    }
  }

  lemma TailIsDistinct(s: seq<string>)
    requires s != [] && Distinct(s)
    ensures Distinct(s[1..]) && s[0] !in s[1..]
  {}

  lemma HeadIsNew(x: string, s: seq<string>)
    requires Distinct(s) && x !in s
    ensures Distinct([x] + s)
  {}

  lemma DistinctUnion(a: seq<string>, b: seq<string>)
    requires Distinct(a) && Distinct(b) && forall x :: x in b ==> x !in a
    ensures Distinct(a + b)
  {
    forall i, j | 0 <= i < j < |a + b| ensures (a + b)[i] != (a + b)[j] {
      if i < |a| <= j {
        assert (a + b)[j] in b;
      }
    }
  }

  /**
   * A clarification that failed half way, with its suffix, asks each missing slot exactly once if and only if
   * every slot beyond the server's list of questions had been asked already.
   */
  lemma FailedClarificationCoversExactlyWhen(cfg: Config, core: Core, fallback: string)
    requires Consistent(cfg, core) && cfg.request.kind.Clarification? && core.rendered != ""
    requires Distinct(cfg.request.missingSlots)
    ensures var all := core.asked + Remaining(cfg.request.missingSlots, cfg.request.questions, core.asked);
            core.rendered + PartialSuffix(cfg, core, fallback) == QuestionText(Map(QuestionLine, all))
            && (AsksEachOnce(Slots(all), cfg.request.missingSlots)
                <==> forall i :: |cfg.request.questions| <= i < |cfg.request.missingSlots| ==>
                       IsAsked(core.asked, cfg.request.missingSlots[i]))
  {
    var missing, questions := cfg.request.missingSlots, cfg.request.questions;
    var remaining := Remaining(missing, questions, core.asked);
    assert core.rendered + PartialSuffix(cfg, core, fallback)
      == QuestionText(Map(QuestionLine, core.asked + remaining)) by {
      hide Remaining, Concat, IsAsked, Map;
      PartialText(core, remaining);
    }
    AskedAreMissing(cfg, core);
    hide *;
    RemainingSlots(missing, questions, core.asked);
    SlotsOfBoth(core.asked, remaining);
    forall slot ensures IsAsked(core.asked, slot) <==> slot in Slots(core.asked) {
      AskedSlots(core.asked, slot);
    }
    CoversExactlyWhen(missing, questions, Slots(core.asked), Slots(remaining));
  }

  lemma AskedAreMissing(cfg: Config, core: Core)
    requires Consistent(cfg, core) && cfg.request.kind.Clarification?
    ensures Distinct(Slots(core.asked)) && forall slot :: slot in Slots(core.asked) ==> slot in cfg.request.missingSlots
  {}

  lemma SlotsOfBoth(a: seq<Asked>, b: seq<Asked>)
    ensures Slots(a + b) == Slots(a) + Slots(b)
  {}

  lemma CoversExactlyWhen(missing: seq<string>, questions: seq<string>, asked: seq<string>, rest: seq<string>)
    requires Distinct(missing) && Distinct(asked) && Distinct(rest)
    requires forall slot :: slot in asked ==> slot in missing
    requires forall slot :: slot in rest <==> slot !in asked && slot in Paired(missing, questions)
    ensures AsksEachOnce(asked + rest, missing)
            <==> forall i :: |questions| <= i < |missing| ==> missing[i] in asked
  {
    DistinctUnion(asked, rest);
    forall i | 0 <= i < |missing| ensures missing[i] in Paired(missing, questions) <==> i < |questions| {
      PairedMembers(missing, questions, i);
    }
    assert forall slot :: slot in Paired(missing, questions) ==> slot in missing;
    hide Paired, Distinct;
    if forall i :: |questions| <= i < |missing| ==> missing[i] in asked {
      forall slot | slot in missing ensures slot in asked + rest {
        var i :| 0 <= i < |missing| && missing[i] == slot;
      }
    }
    if AsksEachOnce(asked + rest, missing) {
      forall i | |questions| <= i < |missing| ensures missing[i] in asked {
        assert missing[i] in asked + rest;
      }
    }
  }

  lemma PairedMembers(slots: seq<string>, questions: seq<string>, i: nat)
    requires Distinct(slots) && i < |slots|
    ensures slots[i] in Paired(slots, questions) <==> i < |questions|
  {
    var paired := Paired(slots, questions);
    if i < |paired| {
      assert paired[i] == slots[i];
    }
    if slots[i] in paired {
      var j :| 0 <= j < |paired| && paired[j] == slots[i];
      assert slots[j] == slots[i];
    }
  }

  lemma PartialText(core: Core, remaining: seq<Asked>)
    requires core.rendered == QuestionText(Map(QuestionLine, core.asked)) && core.rendered != ""
    ensures core.rendered + (if remaining == [] then "" else "\n" + Join("\n", Map(QuestionLine, remaining)))
         == QuestionText(Map(QuestionLine, core.asked + remaining))
  {
    hide Join, Map;
    assert Map(QuestionLine, core.asked + remaining) == Map(QuestionLine, core.asked) + Map(QuestionLine, remaining);
    if remaining == [] {
      assert core.asked + remaining == core.asked;
    } else {
      JoinAppend("\n", Map(QuestionLine, core.asked), Map(QuestionLine, remaining));
    }
  }

  // ----- The generator -----

  datatype Reply = Reply(text: string, emitted: seq<string>)

  /** `generate`: the deltas the gateway delivered, and whether it then returned a completion or raised. */
  function Generated(cfg: Config, demo: bool, fallback: string, deltas: seq<string>, completed: bool): Reply {
    if demo then Reply(fallback, [fallback])
    else
      var d := Taken(cfg, deltas);
      var f := FinalDrain(cfg, d.state, d.buffer);
      if completed && f.error.None? && Acceptable(cfg, f.state) then Reply(f.state.rendered, f.state.emitted)
      else
        var core := if completed then f.state else d.state;
        if core.rendered == "" then Reply(fallback, core.emitted + [fallback])
        else
          var suffix := PartialSuffix(cfg, core, fallback);
          Reply(core.rendered + suffix, if suffix != "" then core.emitted + [suffix] else core.emitted)
  }

  method Generate(cfg: Config, demo: bool, fallback: string, deltas: seq<string>, completed: bool)
    returns (text: string, emitted: seq<string>)
    ensures Reply(text, emitted) == Generated(cfg, demo, fallback, deltas, completed)
  {
    hide UnitProcessor, PartialSuffix, Acceptable;
    if demo {
      return fallback, [fallback];
    }
    var assembler := new DirectReplyAssembler(cfg);
    for i := 0 to |deltas|
      invariant fresh(assembler) && assembler.cfg == cfg
      invariant assembler.View() == Taken(cfg, deltas[..i]).state && assembler.buffer == Taken(cfg, deltas[..i]).buffer
    {
      assert deltas[..i + 1][..i] == deltas[..i];
      var _ := assembler.Feed(deltas[i]);
    }
    assert deltas[..|deltas|] == deltas;
    if completed {
      var error := assembler.Finish();
      if error.None? {
        return assembler.rendered, assembler.emitted;
      }
    }
    if assembler.rendered == "" {
      text, emitted := fallback, assembler.emitted + [fallback];
    } else {
      var suffix := PartialSuffix(cfg, assembler.View(), fallback);
      emitted := if suffix != "" then assembler.emitted + [suffix] else assembler.emitted;
      text := assembler.rendered + suffix;
    }
  }

  /** Whatever the model sends, in however many attempts, the text returned is exactly the text emitted. */
  lemma GenerateReturnsWhatItEmitted(cfg: Config, demo: bool, fallback: string, deltas: seq<string>, completed: bool)
    ensures var reply := Generated(cfg, demo, fallback, deltas, completed);
            Concat(reply.emitted) == reply.text
  {
    hide PartialSuffix, Acceptable, UnitProcessor, Taken, FinalDrain;
    EmptyIsConsistent(cfg);
    TakenIsConsistent(cfg, deltas);
    var d := Taken(cfg, deltas);
    FinalDrainIsConsistent(cfg, d.state, d.buffer);
    var f := FinalDrain(cfg, d.state, d.buffer);
    var core := if completed then f.state else d.state;
    assert Consistent(cfg, core);
    var suffix := PartialSuffix(cfg, core, fallback);
    OneMore(core.emitted, suffix);
    OneMore(core.emitted, fallback);
    OneMore([], fallback);
    assert [] + [fallback] == [fallback];
    assert "" + fallback == fallback;
  }

  lemma OneMore(emitted: seq<string>, s: string)
    ensures Concat(emitted + [s]) == Concat(emitted) + s
    ensures Concat([]) == ""
  {
    assert (emitted + [s])[..|emitted|] == emitted;
  }

  /** A reply accepted as a whole obeys the protocol of its kind and the size limits. */
  lemma AcceptedReplyIsComplete(cfg: Config, fallback: string, deltas: seq<string>)
    ensures var d := Taken(cfg, deltas);
            var core := FinalDrain(cfg, d.state, d.buffer).state;
            |core.rendered| <= MAX_RENDERED && core.units <= MAX_UNITS
            && (Acceptable(cfg, core) && cfg.request.kind.Clarification? ==>
                  AsksEachOnce(Slots(core.asked), cfg.request.missingSlots))
            && (Acceptable(cfg, core) && cfg.request.kind.Refusal? ==>
                  core.boundary.Some? && core.alternative.Some?
                  && core.rendered == core.boundary.value + ("\n\n" + core.alternative.value))
  {
    hide UnitProcessor, Taken, FinalDrain, Acceptable, AsksEachOnce, QuestionText, RefusalText;
    EmptyIsConsistent(cfg);
    TakenIsConsistent(cfg, deltas);
    var d := Taken(cfg, deltas);
    FinalDrainIsConsistent(cfg, d.state, d.buffer);
    var core := FinalDrain(cfg, d.state, d.buffer).state;
    if Acceptable(cfg, core) {
      FinishedReplies(cfg, core);
    }
  }

  /** Two ways of cutting one stream of objects give the same reply so far, or raise at the same unit. */
  lemma ChunkingDoesNotChangeTheReply(cfg: Config, one: seq<string>, other: seq<string>)
    requires Concat(one) == Concat(other) && ObjectStream(Concat(one))
    ensures var x := FeedAll(JSON_LEXER, UnitProcessor(cfg), EMPTY, "", one);
            var y := FeedAll(JSON_LEXER, UnitProcessor(cfg), EMPTY, "", other);
            x.state == y.state && x.error == y.error && (x.error.None? ==> x.buffer == y.buffer)
  {
    hide UnitProcessor, ObjectStream;
    JsonCutSafe();
    ChunkingIsInvisible(JSON_LEXER, ObjectStream, UnitProcessor(cfg), EMPTY, one, other);
  }

  // ----- The bounded recent history -----

  const MAX_RECENT := 24
  const MAX_CHARS := 6000

  /** A recent item; what is not a dictionary is skipped. */
  datatype Recent = NotAMessage | AMessage(id: string, content: string)

  /** Walking back from the newest item with `chars` characters spent. */
  function Window(items: seq<Recent>, chars: nat): seq<Recent>
    requires chars <= MAX_CHARS
  {
    if items == [] then []
    else
      var init, item := items[..|items| - 1], items[|items| - 1];
      if item.NotAMessage? then Window(init, chars)
      else if chars > 0 && chars + |item.content| > MAX_CHARS then []
      else if chars == MAX_CHARS then []
      else
        var kept := Take(item.content, MAX_CHARS - chars);
        Window(init, chars + |kept|) + [AMessage(item.id, kept)]
  }

  function Newest(items: seq<Recent>): seq<Recent> {
    if |items| <= MAX_RECENT then items else items[|items| - MAX_RECENT..]
  }

  function Reversed<T>(s: seq<T>): seq<T> {
    if s == [] then [] else [s[|s| - 1]] + Reversed(s[..|s| - 1])
  }

  lemma {:induction false} ReversedAdd<T>(s: seq<T>, x: T)
    ensures Reversed(s + [x]) == [x] + Reversed(s)
  {
    assert (s + [x])[..|s|] == s;
  }

  method BoundedRecentMessages(items: seq<Recent>) returns (selected: seq<Recent>)
    ensures selected == Window(Newest(items), 0)
  {
    var newest := Newest(items);
    var chars: nat, picked: seq<Recent>, i := 0, [], |newest|;
    assert newest[..|newest|] == newest && Window(newest, 0) + [] == Window(newest, 0);
    while i > 0
      invariant 0 <= i <= |newest| && chars <= MAX_CHARS
      invariant Window(newest, 0) == Window(newest[..i], chars) + Reversed(picked)
    {
      var item := newest[i - 1];
      assert newest[..i][..i - 1] == newest[..i - 1];
      if item.AMessage? {
        if chars > 0 && chars + |item.content| > MAX_CHARS {
          break;
        }
        if chars == MAX_CHARS {
          break;
        }
        var kept := Take(item.content, MAX_CHARS - chars);
        ReversedAdd(picked, AMessage(item.id, kept));
        picked := picked + [AMessage(item.id, kept)];
        chars := chars + |kept|;
      }
      i := i - 1;
    }
    selected := Reversed(picked);
  }

  function Length(items: seq<Recent>): nat {
    if items == [] then 0
    else Length(items[..|items| - 1]) + if items[|items| - 1].AMessage? then |items[|items| - 1].content| else 0
  }

  function Messages(items: seq<Recent>): seq<Recent> {
    Filter((item: Recent) => item.AMessage?, items)
  }

  function IdOf(item: Recent): string { if item.AMessage? then item.id else "" }

  /** `ids` are the last ids of `all`. */
  predicate IsSuffix(ids: seq<string>, all: seq<string>) {
    |ids| <= |all| && all[|all| - |ids|..] == ids
  }

  /** The window never exceeds the character budget. */
  lemma {:induction false} WindowIsBounded(items: seq<Recent>, chars: nat)
    requires chars <= MAX_CHARS
    ensures Length(Window(items, chars)) + chars <= MAX_CHARS
  {
    if items != [] {
      var init, item := items[..|items| - 1], items[|items| - 1];
      if item.NotAMessage? {
        WindowIsBounded(init, chars);
      } else if !(chars > 0 && chars + |item.content| > MAX_CHARS) && chars < MAX_CHARS {
        var kept := AMessage(item.id, Take(item.content, MAX_CHARS - chars));
        WindowIsBounded(init, chars + |kept.content|);
        var before := Window(init, chars + |kept.content|);
        assert (before + [kept])[..|before|] == before;
      }
    }
  }

  lemma SuffixAdd(ids: seq<string>, all: seq<string>, id: string)
    requires IsSuffix(ids, all)
    ensures IsSuffix(ids + [id], all + [id]) && IsSuffix([], all + [id])
  {}

  lemma MessagesAdd(items: seq<Recent>, item: Recent)
    ensures Messages(items + [item]) == if item.AMessage? then Messages(items) + [item] else Messages(items)
  {
    FilterAdd((x: Recent) => x.AMessage?, items, item);
  }

  /** The newest item does not fit any more. */
  predicate Overflows(item: Recent, chars: nat)
    requires item.AMessage?
  {
    (chars > 0 && chars + |item.content| > MAX_CHARS) || chars == MAX_CHARS
  }

  lemma WindowStep(init: seq<Recent>, item: Recent, chars: nat)
    requires chars <= MAX_CHARS
    ensures Window([], chars) == [] && IsSuffix(Map(IdOf, []), Map(IdOf, Messages(init)))
    ensures item.NotAMessage? ==> Window(init + [item], chars) == Window(init, chars)
    ensures item.AMessage? ==>
              if Overflows(item, chars) then Window(init + [item], chars) == []
              else
                var kept := Take(item.content, MAX_CHARS - chars);
                Window(init + [item], chars) == Window(init, chars + |kept|) + [AMessage(item.id, kept)]
  {
    assert (init + [item])[..|init|] == init;
  }

  /** The window is the end of the history, in order and without gaps. */
  lemma {:induction false} WindowIsASuffix(items: seq<Recent>, chars: nat)
    requires chars <= MAX_CHARS
    ensures IsSuffix(Map(IdOf, Window(items, chars)), Map(IdOf, Messages(items)))
  {
    hide Window, Messages, Map, IsSuffix;
    WindowStep(items, NotAMessage, chars);
    if items != [] {
      var init, item := items[..|items| - 1], items[|items| - 1];
      assert items == init + [item];
      WindowStep(init, item, chars);
      MessagesAdd(init, item);
      if item.NotAMessage? {
        WindowIsASuffix(init, chars);
      } else if !Overflows(item, chars) {
        var kept := AMessage(item.id, Take(item.content, MAX_CHARS - chars));
        var before := Window(init, chars + |kept.content|);
        WindowIsASuffix(init, chars + |kept.content|);
        MapAdd(IdOf, before, kept);
        MapAdd(IdOf, Messages(init), item);
        SuffixAdd(Map(IdOf, before), Map(IdOf, Messages(init)), item.id);
      }
    }
  }
}
