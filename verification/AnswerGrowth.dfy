/** What the answer assembler promises over every ledger, every model output and both formatters. */
module AnswerGrowth {
  import opened AnswerAssembler
  import opened AnswerFormat
  import opened IncrementalReader
  import opened JsonUnits
  import opened Sequences

  predicate BeyondFacts(core: Core) {
    core.hypotheses != [] || core.unknowns != [] || core.nextActions != [] || core.confidence.Some?
  }

  predicate Untouched(core: Core) {
    core.facts == [] && !BeyondFacts(core) && core.rendered == ""
  }

  /** Nothing stands in a list that a unit still to come could no longer follow. */
  predicate InOrder(core: Core) {
    (core.hypotheses != [] ==> core.lastOrder >= 1)
    && (core.unknowns != [] ==> core.lastOrder >= 2)
    && (core.nextActions != [] ==> core.lastOrder >= 3)
  }

  /** The invariant: what was shown is the current answer, and it is what was emitted. */
  predicate Consistent(cfg: Config, core: Core) {
    (core.rendered == Shown(cfg, core) || Untouched(core))
    && Concat(core.emitted) == core.rendered
    && (cfg.ledger != [] && BeyondFacts(core) ==> core.facts != [])
    && (core.confidence.Some? ==> core.units > 0)
    && InOrder(core)
  }

  lemma ReportWithoutConfidence(cfg: Config, core: Core)
    requires !cfg.natural && core.confidence.None?
    ensures Shown(cfg, core) == Join("\n", ReportLines(AnswerOf(core))) + "\n"
  {
    hide Join, ReportLines, RSplitHead;
    var a := AnswerOf(core);
    ReportOfLines(a);
    ConfidenceLineIsLast(Join("\n", ReportLines(a)) + "\n", a.confidence);
  }

  lemma ReportWithConfidence(cfg: Config, core: Core)
    requires !cfg.natural && core.confidence.Some?
    ensures Join("\n", ReportLines(AnswerOf(core))) + "\n" <= Shown(cfg, core)
  {
    hide Join, ReportLines;
    ReportOfLines(AnswerOf(core));
  }

  /** Text shown before the confidence is known is a prefix of the text of every extension. */
  lemma ShownGrows(cfg: Config, core: Core, grown: Core)
    requires core.confidence.None? && Extends(AnswerOf(core), AnswerOf(grown))
    ensures Shown(cfg, core) <= Shown(cfg, grown)
  {
    var a, b := AnswerOf(core), AnswerOf(grown);
    ExtensionAddsAtEnd(a, b);
    if cfg.natural {
      hide Join, Paragraphs;
      if Paragraphs(a) != [] && Paragraphs(a) != Paragraphs(b) {
        JoinPrefix("\n\n", Paragraphs(a), Paragraphs(b));
      } else if Paragraphs(a) == [] {
        JoinOfNothing("\n\n");
      }
    } else {
      ReportWithoutConfidence(cfg, core);
      if grown.confidence.None? {
        ReportWithoutConfidence(cfg, grown);
      } else {
        ReportWithConfidence(cfg, grown);
      }
      assert ReportLines(a) != [];
      hide Join, ReportLines, Shown;
      if ReportLines(a) != ReportLines(b) {
        JoinPrefix("\n", ReportLines(a), ReportLines(b));
      }
    }
  }

  lemma JoinOfNothing(sep: string)
    ensures Join(sep, []) == ""
  {}

  /** Showing an extension of a consistent core succeeds and is consistent again. */
  lemma EmitSucceeds(cfg: Config, core: Core, grown: Core)
    requires Consistent(cfg, core) && core.confidence.None?
    requires Extends(AnswerOf(core), AnswerOf(grown))
    requires grown.rendered == core.rendered && grown.emitted == core.emitted
    requires cfg.ledger != [] && BeyondFacts(grown) ==> grown.facts != []
    requires InOrder(grown) && (grown.confidence.Some? ==> grown.units > 0)
    ensures var (after, error) := EmitGrowth(cfg, grown);
            error.None? && Consistent(cfg, after) && after.rendered == Shown(cfg, after)
            && AnswerOf(after) == AnswerOf(grown) && after.confidence == grown.confidence
            && after.lastOrder == grown.lastOrder && after.units == grown.units
  {
    hide ShownText, Concat;
    ShownGrows(cfg, core, grown);
    var delta := Shown(cfg, grown)[|grown.rendered|..];
    ConcatAppend(grown.emitted, [delta]);
    ConcatOne(delta);
  }

  lemma ConcatOne(s: string)
    ensures Concat([s]) == s
  {}

  /** The quoted fact is only ever added in front of nothing. */
  lemma QuotedFactIsConsistent(cfg: Config, core: Core)
    requires Consistent(cfg, core)
    ensures var (after, error) := AddQuotedFact(cfg, core);
            Consistent(cfg, after) && (error.Some? ==> error == Some(InvalidClaim) && after == core)
            && (error.None? ==> cfg.ledger == [] || after.facts != [])
            && after.confidence == core.confidence && after.lastOrder == core.lastOrder && after.units == core.units
            && (core.facts == [] && after.facts != [] ==> !BeyondFacts(after))
  {
    hide ShownText, EmitGrowth, QuotedEntry;
    if core.facts == [] && cfg.ledger != [] {
      var e := QuotedEntry(cfg.ledger);
      var text := Take(e.content, MAX_QUOTE);
      if ValidClaimText(text) {
        EmitSucceeds(cfg, core, Warn(core.(facts := [Claim(text, [e.evidenceId])]), DeterministicFactAdded));
      }
    }
  }

  /** A unit in order extends the answer at its end. */
  lemma ApplyExtends(cfg: Config, core: Core, payload: Payload)
    requires payload.AnObject? && !payload.kind.Unrecognised? && Order(payload.kind) >= core.lastOrder
    requires core.confidence.None? && InOrder(core)
    ensures var (after, changed, error) := ApplyUnit(cfg, core, payload);
            after.rendered == core.rendered && after.emitted == core.emitted && after.units == core.units
            && (error.Some? ==> error == Some(InvalidClaim) && after == core)
            && (!changed ==> AnswerOf(after) == AnswerOf(core) && after.confidence.None?)
            && Extends(AnswerOf(core), AnswerOf(after))
            && (after.facts != core.facts ==> payload.kind.Fact? && !BeyondFacts(after))
            && (BeyondFacts(after) ==> BeyondFacts(core) || Order(payload.kind) > 0)
            && core.facts <= after.facts
            && InOrder(after.(lastOrder := Order(payload.kind)))
  {
    hide JudgeClaim, CleanText;
  }

  lemma CountedIsConsistent(cfg: Config, core: Core, payload: Payload)
    requires Consistent(cfg, core) && core.confidence.None?
    requires payload.AnObject? && !payload.kind.Unrecognised? && Order(payload.kind) >= core.lastOrder
    requires Order(payload.kind) > 0 ==> cfg.ledger == [] || core.facts != []
    ensures var (after, changed, error) := ApplyUnit(cfg, core, payload);
            var counted := after.(lastOrder := Order(payload.kind), units := after.units + 1);
            (error.Some? ==> error == Some(InvalidClaim) && after == core)
            && (error.None? && !changed ==> Consistent(cfg, counted))
            && (error.None? && changed ==>
                  EmitGrowth(cfg, counted).1.None? && Consistent(cfg, EmitGrowth(cfg, counted).0))
  {
    ApplyExtends(cfg, core, payload);
    hide ShownText, EmitGrowth, ApplyUnit, Concat, Extends;
    var (after, changed, error) := ApplyUnit(cfg, core, payload);
    if error.None? && changed {
      EmitSucceeds(cfg, core, after.(lastOrder := Order(payload.kind), units := after.units + 1));
    }
  }

  /**
   * Every unit, whatever it is, keeps the invariant; the "cannot be rendered incrementally" error cannot
   * happen, and the only exception a unit can raise is the length check on a claim's text.
   */
  lemma UnitIsConsistent(cfg: Config, core: Core, payload: Payload)
    requires Consistent(cfg, core)
    ensures var (after, error) := ProcessUnit(cfg, core, payload);
            Consistent(cfg, after) && (error.Some? ==> error == Some(InvalidClaim))
  {
    hide ShownText, EmitGrowth, AddQuotedFact, ApplyUnit, Concat;
    if payload.AnObject? && !payload.kind.Unrecognised? && Order(payload.kind) >= core.lastOrder
      && core.confidence.None? {
      QuotedFactIsConsistent(cfg, core);
      var quoted := if Order(payload.kind) > 0 then AddQuotedFact(cfg, core).0 else core;
      if Order(payload.kind) == 0 || AddQuotedFact(cfg, core).1.None? {
        CountedIsConsistent(cfg, quoted, payload);
      }
    }
  }

  predicate ClaimErrorOnly(error: Error) { error.InvalidClaim? }

  lemma UnitsKeepConsistency(cfg: Config)
    ensures Keeps(UnitProcessor(cfg), (core: Core) => Consistent(cfg, core), ClaimErrorOnly)
  {
    forall core, unit | Consistent(cfg, core)
      ensures var (after, error) := UnitProcessor(cfg)(core, unit);
              Consistent(cfg, after) && (error.Some? ==> ClaimErrorOnly(error.value))
    {
      UnitIsConsistent(cfg, core, cfg.decode(unit));
    }
  }

  lemma EmptyIsConsistent(cfg: Config)
    ensures Consistent(cfg, EMPTY)
  {}

  /** At every moment of every stream the emitted deltas concatenate to what the current answer shows. */
  lemma FeedingIsConsistent(cfg: Config, chunks: seq<string>)
    ensures var d := FeedAll(JSON_LEXER, UnitProcessor(cfg), EMPTY, "", chunks);
            Consistent(cfg, d.state) && (d.error.Some? ==> d.error == Some(InvalidClaim))
  {
    hide Consistent, UnitProcessor;
    EmptyIsConsistent(cfg);
    UnitsKeepConsistency(cfg);
    FeedAllKeeps(JSON_LEXER, UnitProcessor(cfg), (core: Core) => Consistent(cfg, core), ClaimErrorOnly, EMPTY, "",
      chunks);
  }

  lemma ConcludeIsExact(cfg: Config, core: Core)
    requires Consistent(cfg, core)
    ensures var (after, error) := Conclude(cfg, core);
            Consistent(cfg, after) && error != Some(NotIncremental)
            && (error.None? ==> after.confidence.Some? && after.rendered == Formatted(cfg, AnswerOf(after)))
  {
    hide EmitGrowth, AddQuotedFact, Formatted, RSplitHead;
    if core.units > 0 {
      QuotedFactIsConsistent(cfg, core);
      var (quoted, error) := AddQuotedFact(cfg, core);
      if error.None? && quoted.confidence.None? {
        EmitSucceeds(cfg, quoted, Warn(quoted, ConfidenceDefaulted).(confidence := Some(Low)));
      }
    }
  }

  lemma FinalDrainIsConsistent(cfg: Config, core: Core, buffer: string)
    requires Consistent(cfg, core)
    ensures var d := FinalDrain(cfg, core, buffer);
            Consistent(cfg, d.state) && d.error != Some(NotIncremental)
  {
    hide Consistent, UnitProcessor;
    UnitsKeepConsistency(cfg);
    DrainKeeps(JSON_LEXER, UnitProcessor(cfg), (core: Core) => Consistent(cfg, core), ClaimErrorOnly, core, buffer);
  }

  /**
   * The same when chunks raise and later ones, of another attempt, go to the same assembler: at every moment the
   * emitted deltas concatenate to what the current answer shows.
   */
  lemma DeliveringIsConsistent(cfg: Config, deltas: seq<string>)
    ensures var d := Delivered(JSON_LEXER, UnitProcessor(cfg), EMPTY, deltas);
            Consistent(cfg, d.state) && (d.error.Some? ==> d.error == Some(InvalidClaim))
  {
    hide Consistent, UnitProcessor;
    EmptyIsConsistent(cfg);
    UnitsKeepConsistency(cfg);
    DeliveredKeeps(JSON_LEXER, UnitProcessor(cfg), (core: Core) => Consistent(cfg, core), ClaimErrorOnly, EMPTY,
      deltas);
  }

  /**
   * Whatever deltas arrived, in however many attempts, raising or not: the incremental-rendering error never
   * fires; and an assembler that then finishes has emitted exactly the formatter applied to the final answer.
   */
  lemma FinishedStreamShowsItsAnswer(cfg: Config, deltas: seq<string>)
    ensures var d := Delivered(JSON_LEXER, UnitProcessor(cfg), EMPTY, deltas);
            var (after, error) := Finish(cfg, d.state, d.buffer);
            d.error != Some(NotIncremental) && error != Some(NotIncremental)
            && Concat(after.emitted) == after.rendered
            && (error.None? ==> after.confidence.Some? && Concat(after.emitted) == Formatted(cfg, AnswerOf(after)))
  {
    hide UnitProcessor, Shown, FinalDrain, Conclude;
    DeliveringIsConsistent(cfg, deltas);
    var d := Delivered(JSON_LEXER, UnitProcessor(cfg), EMPTY, deltas);
    FinalDrainIsConsistent(cfg, d.state, d.buffer);
    var f := FinalDrain(cfg, d.state, d.buffer);
    if f.error.None? {
      ConcludeIsExact(cfg, f.state);
    }
  }

  // ----- Chunking -----

  /**
   * Two ways of cutting the same stream of objects give the same answer, warnings and emitted text, finish
   * the same way, and raise the same error if they raise.
   */
  lemma ChunkingDoesNotChangeTheAnswer(cfg: Config, one: seq<string>, other: seq<string>)
    requires Concat(one) == Concat(other) && ObjectStream(Concat(one))
    ensures var x := FeedAll(JSON_LEXER, UnitProcessor(cfg), EMPTY, "", one);
            var y := FeedAll(JSON_LEXER, UnitProcessor(cfg), EMPTY, "", other);
            x.state == y.state && x.error == y.error && Concat(x.state.emitted) == y.state.rendered
            && (x.error.None? ==> Finish(cfg, x.state, x.buffer) == Finish(cfg, y.state, y.buffer))
  {
    hide UnitProcessor, Shown, Finish, ObjectStream;
    JsonCutSafe();
    ChunkingIsInvisible(JSON_LEXER, ObjectStream, UnitProcessor(cfg), EMPTY, one, other);
    FeedingIsConsistent(cfg, other);
  }

  // ----- When the assembler raises -----

  /** The unit is looked at, and is not the kind that may come before any fact. */
  predicate Reaches(core: Core, payload: Payload) {
    payload.AnObject? && !payload.kind.Unrecognised? && Order(payload.kind) >= core.lastOrder && core.confidence.None?
  }

  /** A fact has to be quoted from the ledger, and the entry to quote has no text. */
  predicate QuotesNothing(cfg: Config, core: Core) {
    core.facts == [] && cfg.ledger != [] && QuotedEntry(cfg.ledger).content == ""
  }

  /** Rewording the hypothesis makes it longer than a claim may be. */
  predicate RewordsTooLong(payload: Payload) {
    payload.AnObject? && payload.kind.Hypothesis?
    && |Replace(CleanText(payload.text), ROOT_CAUSE, TESTABLE)| > MAX_TEXT
  }

  lemma {:induction false} ReplaceGrows(s: string, pattern: string, replacement: string)
    requires pattern != "" && |pattern| <= |replacement|
    ensures |s| <= |Replace(s, pattern, replacement)|
    decreases |s|
  {
    if |s| >= |pattern| {
      if s[..|pattern|] == pattern {
        ReplaceGrows(s[|pattern|..], pattern, replacement);
      } else {
        ReplaceGrows(s[1..], pattern, replacement);
      }
    }
  }

  lemma RewordingSizes()
    ensures ROOT_CAUSE != "" && |ROOT_CAUSE| <= |TESTABLE|
  {}

  lemma JudgementRaisesExactlyWhen(cfg: Config, payload: Payload)
    requires payload.AnObject?
    ensures JudgeClaim(cfg, payload).Raises? && payload.kind.Hypothesis?
       <==> RewordsTooLong(payload)
    ensures payload.kind.Fact? ==> !JudgeClaim(cfg, payload).Raises?
  {
    hide Citations, QuotedEntry, HasInternal, Replace;
    var text := CleanText(payload.text);
    RewordingSizes();
    ReplaceGrows(text, ROOT_CAUSE, TESTABLE);
    if text == "" {
      EmptyIsUnchanged();
    }
  }

  lemma EmptyIsUnchanged()
    ensures Replace("", ROOT_CAUSE, TESTABLE) == ""
  {}

  /** It is in order, and quotes an entry without text or is a hypothesis lengthened past the limit. */
  predicate Offends(cfg: Config, core: Core, payload: Payload) {
    Reaches(core, payload) && Order(payload.kind) > 0 && (QuotesNothing(cfg, core) || RewordsTooLong(payload))
  }

  /** The exact condition under which consuming a unit raises. */
  lemma UnitRaisesExactlyWhen(cfg: Config, core: Core, payload: Payload)
    requires Consistent(cfg, core)
    ensures ProcessUnit(cfg, core, payload).1.Some? <==> Offends(cfg, core, payload)
  {
    hide ShownText, EmitGrowth, Concat, JudgeClaim, RewordsTooLong, CleanText;
    if Reaches(core, payload) {
      JudgementRaisesExactlyWhen(cfg, payload);
      QuotingRaisesExactlyWhen(cfg, core);
      hide AddQuotedFact, ApplyUnit;
      QuotedFactIsConsistent(cfg, core);
      var quoted := if Order(payload.kind) > 0 then AddQuotedFact(cfg, core).0 else core;
      if Order(payload.kind) == 0 || AddQuotedFact(cfg, core).1.None? {
        CountedIsConsistent(cfg, quoted, payload);
        ApplyRaisesExactlyWhen(cfg, quoted, payload);
      }
    }
  }

  lemma ApplyRaisesExactlyWhen(cfg: Config, core: Core, payload: Payload)
    requires payload.AnObject? && !payload.kind.Unrecognised?
    ensures ApplyUnit(cfg, core, payload).2.Some? <==> RewordsTooLong(payload)
  {
    hide JudgeClaim, CleanText;
    JudgementRaisesExactlyWhen(cfg, payload);
  }

  lemma QuotingRaisesExactlyWhen(cfg: Config, core: Core)
    requires Consistent(cfg, core)
    ensures AddQuotedFact(cfg, core).1.Some? <==> QuotesNothing(cfg, core)
  {
    hide ShownText, EmitGrowth, QuotedEntry, Concat;
    if core.facts == [] && cfg.ledger != [] {
      var e := QuotedEntry(cfg.ledger);
      var text := Take(e.content, MAX_QUOTE);
      if ValidClaimText(text) {
        EmitSucceeds(cfg, core, Warn(core.(facts := [Claim(text, [e.evidenceId])]), DeterministicFactAdded));
      }
    }
  }

  /** The unit at `k` offends in the state its predecessors left. */
  predicate OffendsAt(cfg: Config, core: Core, units: seq<string>, k: nat)
    requires k < |units|
  {
    var (before, error) := ProcessAll(UnitProcessor(cfg), core, units[..k]);
    error.None? && Offends(cfg, before, cfg.decode(units[k]))
  }

  lemma {:induction false} UnitsRaiseExactlyWhen(cfg: Config, core: Core, units: seq<string>)
    requires Consistent(cfg, core)
    ensures ProcessAll(UnitProcessor(cfg), core, units).1.Some?
       <==> exists k :: 0 <= k < |units| && OffendsAt(cfg, core, units, k)
    decreases |units|
  {
    hide Consistent, Offends, ProcessUnit;
    if units != [] {
      var payload, rest := cfg.decode(units[0]), units[1..];
      UnitIsConsistent(cfg, core, payload);
      UnitRaisesExactlyWhen(cfg, core, payload);
      assert units[..0] == [] && (OffendsAt(cfg, core, units, 0) <==> Offends(cfg, core, payload));
      var after := ProcessUnit(cfg, core, payload).0;
      if !Offends(cfg, core, payload) {
        UnitsRaiseExactlyWhen(cfg, after, rest);
        forall k | 0 <= k < |rest| ensures OffendsAt(cfg, after, rest, k) <==> OffendsAt(cfg, core, units, k + 1) {
          assert units[..k + 1][0] == units[0] && units[..k + 1][1..] == rest[..k];
        }
        hide OffendsAt;
        forall k | 0 <= k < |units| && OffendsAt(cfg, core, units, k)
          ensures exists m :: 0 <= m < |rest| && OffendsAt(cfg, after, rest, m)
        {
          assert OffendsAt(cfg, after, rest, k - 1);
        }
      }
    }
  }

  /** The units of a stream that the assembler meets, up to the first that raises. */
  function UnitsMet(cfg: Config, chunks: seq<string>): seq<string> {
    UnitsFed(JSON_LEXER, UnitProcessor(cfg), EMPTY, "", chunks)
  }

  /** A stream raises if and only if one of the units met in it offends. */
  lemma StreamRaisesExactlyWhen(cfg: Config, chunks: seq<string>)
    ensures FeedAll(JSON_LEXER, UnitProcessor(cfg), EMPTY, "", chunks).error.Some?
       <==> exists k :: 0 <= k < |UnitsMet(cfg, chunks)| && OffendsAt(cfg, EMPTY, UnitsMet(cfg, chunks), k)
  {
    hide OffendsAt, UnitProcessor, Consistent;
    EmptyIsConsistent(cfg);
    FeedingIsProcessing(JSON_LEXER, UnitProcessor(cfg), EMPTY, "", chunks);
    UnitsRaiseExactlyWhen(cfg, EMPTY, UnitsMet(cfg, chunks));
  }

  /** With no empty entry and no hypothesis of the stream lengthened past the limit, no delta of it raises. */
  lemma HarmlessLedgerNeverRaises(cfg: Config, chunks: seq<string>)
    requires forall e :: e in cfg.ledger ==> e.content != ""
    requires forall unit :: unit in UnitsMet(cfg, chunks) ==> !RewordsTooLong(cfg.decode(unit))
    ensures var d := FeedAll(JSON_LEXER, UnitProcessor(cfg), EMPTY, "", chunks);
            d.error.None? && Delivered(JSON_LEXER, UnitProcessor(cfg), EMPTY, chunks) == d
    ensures forall k :: 0 <= k <= |chunks| ==>
              Delivered(JSON_LEXER, UnitProcessor(cfg), EMPTY, chunks[..k]).error.None?
  {
    hide UnitProcessor, UnitsMet, ProcessAll, RewordsTooLong, FeedAll, Delivered;
    StreamRaisesExactlyWhen(cfg, chunks);
    DeliveredWithoutError(JSON_LEXER, UnitProcessor(cfg), EMPTY, chunks);
  }

  function RootCauses(n: nat): (s: string)
    ensures |s| == 3 * n
    ensures n > 0 ==> s[0] == ROOT_CAUSE[0] && s[|s| - 1] == ROOT_CAUSE[2]
  {
    if n == 0 then "" else ROOT_CAUSE + RootCauses(n - 1)
  }

  lemma {:induction false} RewordedRootCauses(n: nat)
    ensures |Replace(RootCauses(n), ROOT_CAUSE, TESTABLE)| == 6 * n
  {
    if n == 0 {
      EmptyIsUnchanged();
    } else {
      var s := RootCauses(n);
      assert s[..|ROOT_CAUSE|] == ROOT_CAUSE && s[|ROOT_CAUSE|..] == RootCauses(n - 1);
      RewordedRootCauses(n - 1);
    }
  }

  /** So there are hypotheses of allowed length that raise on every ledger. */
  lemma LongHypothesisRaises(cfg: Config, n: nat)
    requires 334 <= n <= 666
    ensures var unit := AnObject(Hypothesis, RootCauses(n), [], None);
            |unit.text| <= MAX_TEXT && ProcessUnit(cfg, EMPTY, unit).1 == Some(InvalidClaim)
  {
    hide ProcessUnit, ShownText, Replace, RootCauses, QuotedEntry;
    var unit := AnObject(Hypothesis, RootCauses(n), [], None);
    SolidText(RootCauses(n));
    RewordedRootCauses(n);
    EmptyIsConsistent(cfg);
    UnitIsConsistent(cfg, EMPTY, unit);
    UnitRaisesExactlyWhen(cfg, EMPTY, unit);
  }

  lemma SolidText(s: string)
    requires s != "" && !IsSpace(s[0]) && !IsSpace(s[|s| - 1]) && |s| <= MAX_TEXT
    ensures CleanText(s) == s
  {}
}
