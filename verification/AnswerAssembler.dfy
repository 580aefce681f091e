/** The streaming answer assembler: model output in, verified text growth out. */
module AnswerAssembler {
  import opened AnswerFormat
  import opened IncrementalReader
  import opened JsonUnits
  import opened Sequences

  datatype SourceType = InternalControlled | SimulatedLiveData | External | OtherSource

  /** A ledger entry; an absent chunk or document id is the empty string, which is no alias either. */
  datatype Entry = Entry(evidenceId: string, source: SourceType, content: string, chunkId: string, documentId: string)

  datatype UnitKind = Fact | Hypothesis | Unknown | NextAction | ConfidenceUnit | Unrecognised

  /** A decoded unit, reduced to what the assembler reads from it. */
  datatype Payload =
    | NotAnObject
    | AnObject(kind: UnitKind, text: string, citations: seq<string>, level: Option<Confidence>)

  /** The ledger, the options of the constructor, and the text tests the code writes as regular expressions. */
  datatype Config = Config(
    ledger: seq<Entry>,
    natural: bool,
    enforceAuthority: bool,
    decode: string -> Payload,
    boundedPreview: string -> bool,
    overstates: string -> bool)

  datatype Warning =
    | NonObjectRemoved | UnknownUnitRemoved | OutOfOrderRemoved | AfterConfidenceRemoved
    | InvalidConfidenceDefaulted | DeterministicFactAdded | EmptyClaimRemoved | NoValidCitation
    | ExternalOnlyRemoved | PreviewTotalRemoved | ConfidenceDefaulted

  datatype Error = NotIncremental | InvalidClaim | InvalidJson | NoUnits

  /** Everything the assembler holds except its text buffer. */
  datatype Core = Core(
    facts: seq<Claim>,
    hypotheses: seq<Claim>,
    unknowns: seq<string>,
    nextActions: seq<string>,
    confidence: Option<Confidence>,
    lastOrder: int,
    rendered: string,
    units: nat,
    warnings: seq<Warning>,
    emitted: seq<string>)

  const EMPTY := Core([], [], [], [], None, -1, "", 0, [], [])
  const ROOT_CAUSE := "根因是"
  const TESTABLE := "待验证假设是"
  const MAX_TEXT := 2000
  const MAX_QUOTE := 360

  // ----- The ledger -----

  /** The alias table: chunk and document ids to evidence ids, a later entry winning. */
  function Aliases(ledger: seq<Entry>): map<string, string> {
    if ledger == [] then map[]
    else
      var e := ledger[|ledger| - 1];
      var m := Aliases(ledger[..|ledger| - 1]);
      var m := if e.chunkId != "" then m[e.chunkId := e.evidenceId] else m;
      if e.documentId != "" then m[e.documentId := e.evidenceId] else m
  }

  function Resolve(ledger: seq<Entry>, citation: string): string {
    if citation in Aliases(ledger) then Aliases(ledger)[citation] else citation
  }

  function ValidIds(ledger: seq<Entry>): set<string> {
    set e | e in ledger :: e.evidenceId
  }

  /** The source of an evidence id, a later entry winning. */
  function SourceOf(ledger: seq<Entry>, id: string): SourceType {
    if ledger == [] then OtherSource
    else if ledger[|ledger| - 1].evidenceId == id then ledger[|ledger| - 1].source
    else SourceOf(ledger[..|ledger| - 1], id)
  }

  predicate HasInternal(ledger: seq<Entry>) {
    exists e :: e in ledger && e.source.InternalControlled?
  }

  predicate AllExternal(ledger: seq<Entry>, citations: seq<string>) {
    forall c :: c in citations ==> SourceOf(ledger, c).External?
  }

  /** `(controlled or non_external or ledger)[0]`. */
  function QuotedEntry(ledger: seq<Entry>): (e: Entry)
    requires ledger != []
    ensures e in ledger
    ensures HasInternal(ledger) ==> e.source.InternalControlled?
  {
    var controlled := Filter((e: Entry) => e.source.InternalControlled?, ledger);
    var nonExternal := Filter((e: Entry) => !e.source.External?, ledger);
    assert HasInternal(ledger) ==> controlled != [] by {
      if HasInternal(ledger) {
        var e :| e in ledger && e.source.InternalControlled?;
        assert e in controlled;
      }
    }
    if controlled != [] then controlled[0] else if nonExternal != [] then nonExternal[0] else ledger[0]
  }

  // ----- One unit -----

  function AnswerOf(core: Core): Answer {
    Answer(core.facts, core.hypotheses, core.unknowns, core.nextActions,
           if core.confidence.Some? then core.confidence.value else Low)
  }

  function Formatted(cfg: Config, a: Answer): string {
    if cfg.natural then NaturalText(a) else ReportText(a)
  }

  /** The text shown so far: the report keeps its confidence line back until the confidence is known. */
  function ShownText(cfg: Config, a: Answer, final: bool): string {
    var text := Formatted(cfg, a);
    if !cfg.natural && !final then RSplitHead(text, CONFIDENCE_MARK) else text
  }

  function Shown(cfg: Config, core: Core): string {
    ShownText(cfg, AnswerOf(core), core.confidence.Some?)
  }

  function EmitGrowth(cfg: Config, core: Core): (Core, Option<Error>) {
    var shown := Shown(cfg, core);
    if !(core.rendered <= shown) then (core, Some(NotIncremental))
    else
      var delta := shown[|core.rendered|..];
      (core.(rendered := shown, emitted := if delta != "" then core.emitted + [delta] else core.emitted), None)
  }

  function Warn(core: Core, w: Warning): Core { core.(warnings := core.warnings + [w]) }

  function Order(kind: UnitKind): int
    requires !kind.Unrecognised?
  {
    match kind case Fact => 0 case Hypothesis => 1 case Unknown => 2 case NextAction => 3 case ConfidenceUnit => 4
  }

  predicate ValidClaimText(text: string) { 1 <= |text| <= MAX_TEXT }

  function AddQuotedFact(cfg: Config, core: Core): (r: (Core, Option<Error>))
    ensures core.facts != [] ==> r == (core, None)
    ensures r.0.lastOrder == core.lastOrder
  {
    if core.facts != [] || cfg.ledger == [] then (core, None)
    else
      var e := QuotedEntry(cfg.ledger);
      var text := Take(e.content, MAX_QUOTE);
      if !ValidClaimText(text) then (core, Some(InvalidClaim))
      else EmitGrowth(cfg, Warn(core.(facts := [Claim(text, [e.evidenceId])]), DeterministicFactAdded))
  }

  function CleanText(text: string): (r: string)
    ensures |r| <= MAX_TEXT
  {
    Take(Strip(text), MAX_TEXT)
  }

  function Citations(cfg: Config, raw: seq<string>): seq<string> {
    Dedup(Filter((c: string) => c in ValidIds(cfg.ledger), Map((c: string) => Resolve(cfg.ledger, c), raw)))
  }

  datatype Verdict = Refused(warning: Warning) | Accepted(claim: Claim) | Raises

  function JudgeClaim(cfg: Config, payload: Payload): Verdict
    requires payload.AnObject?
  {
    var fact := payload.kind.Fact?;
    var text := CleanText(payload.text);
    var citations := Citations(cfg, payload.citations);
    if text == "" then Refused(EmptyClaimRemoved)
    else if fact && citations == [] then Refused(NoValidCitation)
    else if fact && cfg.enforceAuthority && HasInternal(cfg.ledger) && AllExternal(cfg.ledger, citations) then
      Refused(ExternalOnlyRemoved)
    else if fact && (exists e :: e in cfg.ledger && cfg.boundedPreview(e.content) && e.evidenceId in citations)
            && cfg.overstates(text) then
      Refused(PreviewTotalRemoved)
    else
      var text := if fact then text else Replace(text, ROOT_CAUSE, TESTABLE);
      if ValidClaimText(text) then Accepted(Claim(text, citations)) else Raises
  }

  /** The middle of `_process_unit`: the core, whether the answer changed, and the exception raised. */
  function ApplyUnit(cfg: Config, core: Core, payload: Payload): (r: (Core, bool, Option<Error>))
    requires payload.AnObject? && !payload.kind.Unrecognised?
    ensures r.0.lastOrder == core.lastOrder
  {
    match payload.kind
    case Fact =>
      (match JudgeClaim(cfg, payload)
       case Refused(w) => (Warn(core, w), false, None)
       case Accepted(claim) => (core.(facts := core.facts + [claim]), true, None)
       case Raises => (core, false, Some(InvalidClaim)))
    case Hypothesis =>
      (match JudgeClaim(cfg, payload)
       case Refused(w) => (Warn(core, w), false, None)
       case Accepted(claim) => (core.(hypotheses := core.hypotheses + [claim]), true, None)
       case Raises => (core, false, Some(InvalidClaim)))
    case Unknown =>
      var text := CleanText(payload.text);
      if text == "" then (core, false, None) else (core.(unknowns := core.unknowns + [text]), true, None)
    case NextAction =>
      var text := CleanText(payload.text);
      if text == "" then (core, false, None) else (core.(nextActions := core.nextActions + [text]), true, None)
    case ConfidenceUnit =>
      if payload.level.Some? then (core.(confidence := payload.level), true, None)
      else (Warn(core, InvalidConfidenceDefaulted).(confidence := Some(Low)), true, None)
  }

  /** `_process_unit`. */
  function ProcessUnit(cfg: Config, core: Core, payload: Payload): (Core, Option<Error>) {
    if payload.NotAnObject? then (Warn(core, NonObjectRemoved), None)
    else if payload.kind.Unrecognised? then (Warn(core, UnknownUnitRemoved), None)
    else if Order(payload.kind) < core.lastOrder then (Warn(core, OutOfOrderRemoved), None)
    else if core.confidence.Some? then (Warn(core, AfterConfidenceRemoved), None)
    else
      var order := Order(payload.kind);
      var (quoted, error) := if order > 0 then AddQuotedFact(cfg, core) else (core, None);
      if error.Some? then (quoted, error)
      else
        var (applied, changed, error) := ApplyUnit(cfg, quoted, payload);
        if error.Some? then (applied, error)
        else
          var counted := applied.(lastOrder := order, units := applied.units + 1);
          if changed then EmitGrowth(cfg, counted) else (counted, None)
  }

  function UnitProcessor(cfg: Config): Processor<Core, Error> {
    (core: Core, unit: string) => ProcessUnit(cfg, core, cfg.decode(unit))
  }

  /** `_consume_available(final=True)`. */
  function FinalDrain(cfg: Config, core: Core, buffer: string): Progress<Core, Error> {
    var d := Drain(JSON_LEXER, UnitProcessor(cfg), core, buffer);
    if d.error.Some? || d.buffer == "" then d
    else if Harmless(d.buffer) then d.(buffer := "")
    else d.(error := Some(InvalidJson))
  }

  /** `finish` after its final drain. */
  function Conclude(cfg: Config, core: Core): (Core, Option<Error>) {
    if core.units == 0 then (core, Some(NoUnits))
    else
      var (quoted, error) := AddQuotedFact(cfg, core);
      if error.Some? then (quoted, error)
      else if quoted.confidence.Some? then (quoted, None)
      else EmitGrowth(cfg, Warn(quoted, ConfidenceDefaulted).(confidence := Some(Low)))
  }

  function Finish(cfg: Config, core: Core, buffer: string): (Core, Option<Error>) {
    var d := FinalDrain(cfg, core, buffer);
    if d.error.Some? then (d.state, d.error) else Conclude(cfg, d.state)
  }

  /** What `finish` returns after these deltas, some of which may have raised; None where it raises. */
  function FinishedAnswer(cfg: Config, deltas: seq<string>): Option<Answer> {
    var d := Delivered(JSON_LEXER, UnitProcessor(cfg), EMPTY, deltas);
    var (core, error) := Finish(cfg, d.state, d.buffer);
    if error.Some? then None else Some(AnswerOf(core))
  }

  // ----- The object -----

  class StreamingAnswerAssembler {
    const cfg: Config
    var buffer: string
    var facts: seq<Claim>
    var hypotheses: seq<Claim>
    var unknowns: seq<string>
    var nextActions: seq<string>
    var confidence: Option<Confidence>
    var lastOrder: int
    var rendered: string
    var units: nat
    var warnings: seq<Warning>
    /** The arguments of the calls made to `emit_delta`. */
    var emitted: seq<string>

    function View(): Core
      reads this
    {
      Core(facts, hypotheses, unknowns, nextActions, confidence, lastOrder, rendered, units, warnings, emitted)
    }

    constructor (cfg: Config)
      ensures this.cfg == cfg && buffer == "" && View() == EMPTY
    {
      this.cfg := cfg;
      buffer, rendered := "", "";
      facts, hypotheses, unknowns, nextActions := [], [], [], [];
      confidence, lastOrder, units, warnings, emitted := None, -1, 0, [], [];
    }

    method Feed(delta: string) returns (error: Option<Error>)
      modifies this
      ensures var d := FeedAll(JSON_LEXER, UnitProcessor(cfg), old(View()), old(buffer), [delta]);
              View() == d.state && buffer == d.buffer && error == d.error
    {
      if delta == "" {
        return None;
      }
      buffer := buffer + delta;
      error := ConsumeAvailable(false);
    }

    method FinishAnswer() returns (error: Option<Error>, answer: Answer)
      modifies this
      ensures (View(), error) == Finish(cfg, old(View()), old(buffer))
      ensures answer == AnswerOf(View())
    {
      hide FinalDrain, AddQuotedFact, EmitGrowth;
      error := ConsumeAvailable(true);
      if error.None? {
        if units == 0 {
          error := Some(NoUnits);
        } else {
          if facts == [] {
            error := AppendDeterministicFact();
          }
          if error.None? && confidence.None? {
            warnings := warnings + [ConfidenceDefaulted];
            confidence := Some(Low);
            error := EmitRenderGrowth();
          }
        }
      }
      answer := AnswerOf(View());
    }

    method ConsumeAvailable(final: bool) returns (error: Option<Error>)
      modifies this
      ensures var d := if final then FinalDrain(cfg, old(View()), old(buffer))
                       else Drain(JSON_LEXER, UnitProcessor(cfg), old(View()), old(buffer));
              View() == d.state && buffer == d.buffer && error == d.error
    {
      ghost var goal := Drain(JSON_LEXER, UnitProcessor(cfg), View(), buffer);
      while true
        invariant Drain(JSON_LEXER, UnitProcessor(cfg), View(), buffer) == goal
        decreases |buffer|
      {
        match NextUnit(buffer)
        case Blank =>
          buffer := "";
          return None;
        case Unfinished(text) =>
          buffer := text;
          if final {
            if !Harmless(buffer) {
              return Some(InvalidJson);
            }
            buffer := "";
          }
          return None;
        case Unit(unit, rest) =>
          buffer := rest;
          error := ProcessOne(cfg.decode(unit));
          if error.Some? {
            return;
          }
      }
    }

    method ProcessOne(payload: Payload) returns (error: Option<Error>)
      modifies this
      ensures (View(), error) == ProcessUnit(cfg, old(View()), payload) && buffer == old(buffer)
    {
      hide JudgeClaim, EmitGrowth, AddQuotedFact, CleanText, ApplyUnit;
      error := None;
      if payload.NotAnObject? {
        warnings := warnings + [NonObjectRemoved];
        return;
      }
      if payload.kind.Unrecognised? {
        warnings := warnings + [UnknownUnitRemoved];
        return;
      }
      var order := Order(payload.kind);
      if order < lastOrder {
        warnings := warnings + [OutOfOrderRemoved];
        return;
      }
      if confidence.Some? {
        warnings := warnings + [AfterConfidenceRemoved];
        return;
      }
      if order > 0 && facts == [] {
        error := AppendDeterministicFact();
        if error.Some? {
          return;
        }
      }
      var changed;
      changed, error := Apply(payload);
      if error.Some? {
        return;
      }
      lastOrder := if lastOrder > order then lastOrder else order;
      units := units + 1;
      if changed {
        error := EmitRenderGrowth();
      }
    }

    /** The branch of `_process_unit` for one kind of unit. */
    method Apply(payload: Payload) returns (changed: bool, error: Option<Error>)
      requires payload.AnObject? && !payload.kind.Unrecognised?
      modifies this
      ensures (View(), changed, error) == ApplyUnit(cfg, old(View()), payload) && buffer == old(buffer)
    {
      hide JudgeClaim, CleanText;
      changed, error := false, None;
      match payload.kind {
        case Fact =>
          var verdict := JudgeClaim(cfg, payload);
          match verdict {
            case Refused(w) => warnings := warnings + [w];
            case Accepted(claim) => facts := facts + [claim]; changed := true;
            case Raises => return false, Some(InvalidClaim);
          }
        case Hypothesis =>
          var verdict := JudgeClaim(cfg, payload);
          match verdict {
            case Refused(w) => warnings := warnings + [w];
            case Accepted(claim) => hypotheses := hypotheses + [claim]; changed := true;
            case Raises => return false, Some(InvalidClaim);
          }
        case Unknown =>
          var text := CleanText(payload.text);
          if text != "" {
            unknowns := unknowns + [text];
            changed := true;
          }
        case NextAction =>
          var text := CleanText(payload.text);
          if text != "" {
            nextActions := nextActions + [text];
            changed := true;
          }
        case ConfidenceUnit =>
          if payload.level.Some? {
            confidence := payload.level;
          } else {
            warnings := warnings + [InvalidConfidenceDefaulted];
            confidence := Some(Low);
          }
          changed := true;
      }
    }

    method AppendDeterministicFact() returns (error: Option<Error>)
      modifies this
      ensures (View(), error) == AddQuotedFact(cfg, old(View())) && buffer == old(buffer)
    {
      if facts != [] || cfg.ledger == [] {
        return None;
      }
      var e := QuotedEntry(cfg.ledger);
      var text := Take(e.content, MAX_QUOTE);
      if !ValidClaimText(text) {
        return Some(InvalidClaim);
      }
      facts := facts + [Claim(text, [e.evidenceId])];
      warnings := warnings + [DeterministicFactAdded];
      error := EmitRenderGrowth();
    }

    method EmitRenderGrowth() returns (error: Option<Error>)
      modifies this
      ensures (View(), error) == EmitGrowth(cfg, old(View())) && buffer == old(buffer)
    {
      var shown := Shown(cfg, View());
      if !(rendered <= shown) {
        return Some(NotIncremental);
      }
      var delta := shown[|rendered|..];
      rendered := shown;
      if delta != "" {
        emitted := emitted + [delta];
      }
      error := None;
    }
  }
}
