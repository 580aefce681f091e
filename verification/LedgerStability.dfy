/** Which ledgers make the verifier agree with every finished stream, and that the ledgers the graph builds do. */
module LedgerStability {
  import opened AnswerAssembler
  import opened AnswerFormat
  import opened AnswerGrowth
  import opened AnswerVerification
  import opened IncrementalReader
  import opened JsonUnits
  import opened Sequences

  /** The verifier returns what the assembler finished, if it finishes. */
  predicate Unchanged(cfg: Config, internalScope: bool, deltas: seq<string>) {
    match FinishedAnswer(cfg, deltas)
    case None => true
    case Some(a) => VerifiedAnswer(cfg.ledger, internalScope, a) == a
  }

  // ----- Streams of one unit -----

  const OBJECT := "{}"

  lemma OneUnitIsRead(cfg: Config)
    requires ProcessUnit(cfg, EMPTY, cfg.decode(OBJECT)).1.None?
    ensures Delivered(JSON_LEXER, UnitProcessor(cfg), EMPTY, [OBJECT])
         == Progress(ProcessUnit(cfg, EMPTY, cfg.decode(OBJECT)).0, "", None)
  {
    hide ProcessUnit, NextUnit;
    ObjectIsAUnit();
    var process, after := UnitProcessor(cfg), ProcessUnit(cfg, EMPTY, cfg.decode(OBJECT)).0;
    assert "" + OBJECT == OBJECT && OBJECT != "";
    assert Drain(JSON_LEXER, process, after, "") == Progress(after, "", None);
    assert Drain(JSON_LEXER, process, EMPTY, OBJECT) == Progress(after, "", None);
    assert [OBJECT][1..] == [] && [OBJECT][..0] == [];
    assert FeedAll(JSON_LEXER, process, EMPTY, "", [OBJECT]) == Progress(after, "", None);
    assert Delivered(JSON_LEXER, process, EMPTY, []) == Progress(EMPTY, "", None);
  }

  lemma ObjectIsAUnit()
    ensures NextUnit(OBJECT) == Unit(OBJECT, "") && NextUnit("").Blank?
  {
    assert "" + (OBJECT + "") == OBJECT;
    LayoutHead("", OBJECT, "");
  }

  lemma OneUnitFinishes(cfg: Config)
    requires ProcessUnit(cfg, EMPTY, cfg.decode(OBJECT)).1.None?
    requires ProcessUnit(cfg, EMPTY, cfg.decode(OBJECT)).0.facts != []
    requires ProcessUnit(cfg, EMPTY, cfg.decode(OBJECT)).0.units > 0
    ensures var core := ProcessUnit(cfg, EMPTY, cfg.decode(OBJECT)).0;
            FinishedAnswer(cfg, [OBJECT])
            == Some(AnswerOf(core).(confidence := if core.confidence.Some? then core.confidence.value else Low))
  {
    hide ProcessUnit, Shown, NextUnit;
    OneUnitIsRead(cfg);
    ObjectIsAUnit();
    EmptyIsConsistent(cfg);
    UnitIsConsistent(cfg, EMPTY, cfg.decode(OBJECT));
    ConcludeIsExact(cfg, ProcessUnit(cfg, EMPTY, cfg.decode(OBJECT)).0);
    hide Consistent, Formatted;
  }

  // ----- Unstable ledgers show -----

  predicate NoEmptyEntry(ledger: seq<Entry>) {
    forall e :: e in ledger ==> e.content != ""
  }

  /** A hypothesis that cites `k`. */
  function Citing(k: string): Payload { AnObject(Hypothesis, "x", [k], None) }

  lemma ShortHypothesis(k: string)
    ensures CleanText("x") == "x" && Replace("x", ROOT_CAUSE, TESTABLE) == "x" && !RewordsTooLong(Citing(k))
  {
    SolidText("x");
  }

  lemma CitedAs(cfg: Config, k: string)
    requires k in Aliases(cfg.ledger)
    ensures Citations(cfg, [k]) == [Aliases(cfg.ledger)[k]]
  {
    AliasesNameEntries(cfg.ledger);
    hide Aliases, ValidIds;
    var id := Aliases(cfg.ledger)[k];
    var resolve, valid := (c: string) => Resolve(cfg.ledger, c), (c: string) => c in ValidIds(cfg.ledger);
    MapAdd(resolve, [], k);
    FilterAdd(valid, [], id);
    assert [] + [k] == [k] && [] + [id] == [id];
    DedupOfDistinct([id]);
  }

  lemma HypothesisIsTaken(cfg: Config, k: string)
    requires k in Aliases(cfg.ledger) && cfg.ledger != [] && NoEmptyEntry(cfg.ledger)
    ensures var (core, error) := ProcessUnit(cfg, EMPTY, Citing(k));
            error.None? && core.facts != [] && core.units == 1
            && core.hypotheses == [Claim("x", [Aliases(cfg.ledger)[k]])]
  {
    hide Shown, Aliases, QuotedEntry, CleanText, Citations, Replace, Consistent;
    ShortHypothesis(k);
    CitedAs(cfg, k);
    EmptyIsConsistent(cfg);
    UnitRaisesExactlyWhen(cfg, EMPTY, Citing(k));
    QuotingRaisesExactlyWhen(cfg, EMPTY);
    QuotedFactIsConsistent(cfg, EMPTY);
    hide RewordsTooLong;
  }

  /** A citation that resolves to an id which itself is an alias of another entry is moved on by the verifier. */
  lemma UnstableAliasShows(cfg: Config, internalScope: bool, k: string)
    requires k in Aliases(cfg.ledger) && NoEmptyEntry(cfg.ledger) && cfg.decode(OBJECT) == Citing(k)
    requires var id := Aliases(cfg.ledger)[k]; id in Aliases(cfg.ledger) && Aliases(cfg.ledger)[id] != id
    ensures !Unchanged(cfg, internalScope, [OBJECT])
  {
    assert cfg.ledger != [];
    HypothesisIsTaken(cfg, k);
    OneUnitFinishes(cfg);
    hide ProcessUnit, FinishedAnswer, VerifiedHypothesis, Aliases, VerifiedFacts;
    var a := FinishedAnswer(cfg, [OBJECT]).value;
    var claim := Claim("x", [Aliases(cfg.ledger)[k]]);
    CitationMoves(cfg.ledger, claim, Aliases(cfg.ledger)[k]);
    assert a.hypotheses[0] == claim;
    assert Map((c: Claim) => VerifiedHypothesis(cfg.ledger, c), a.hypotheses)[0]
      == VerifiedHypothesis(cfg.ledger, claim);
  }

  lemma CitationMoves(ledger: seq<Entry>, claim: Claim, id: string)
    requires claim.citations == [id] && id in Aliases(ledger) && Aliases(ledger)[id] != id
    ensures VerifiedHypothesis(ledger, claim) != claim
  {
    hide Aliases, ValidIds, Replace;
    var changed := Aliases(ledger)[id];
    assert Map((c: string) => Resolve(ledger, c), [id]) == [changed];
    assert forall c :: c in VerifiedCitations(ledger, [id]) ==> c == changed;
    assert id in [id];
  }

  lemma QuoteIsTaken(cfg: Config)
    requires cfg.ledger != [] && NoEmptyEntry(cfg.ledger)
    ensures var (core, error) := ProcessUnit(cfg, EMPTY, AnObject(ConfidenceUnit, "", [], Some(Low)));
            error.None? && core.units == 1 && |core.facts| == 1
            && core.facts[0].citations == [QuotedEntry(cfg.ledger).evidenceId]
  {
    hide Shown, QuotedEntry, Consistent;
    EmptyIsConsistent(cfg);
    UnitRaisesExactlyWhen(cfg, EMPTY, AnObject(ConfidenceUnit, "", [], Some(Low)));
    QuotingRaisesExactlyWhen(cfg, EMPTY);
  }

  /** The fact the assembler quotes is dropped or moved to another entry by the verifier. */
  lemma UnstableQuoteShows(cfg: Config, internalScope: bool)
    requires cfg.ledger != [] && NoEmptyEntry(cfg.ledger)
    requires cfg.decode(OBJECT) == AnObject(ConfidenceUnit, "", [], Some(Low))
    requires var id := QuotedEntry(cfg.ledger).evidenceId;
             Resolve(cfg.ledger, id) != id
               || (internalScope && HasInternal(cfg.ledger) && SourceOf(cfg.ledger, id).External?)
    ensures !Unchanged(cfg, internalScope, [OBJECT])
  {
    QuoteIsTaken(cfg);
    OneUnitFinishes(cfg);
    hide ProcessUnit, FinishedAnswer, QuotedEntry, VerifiedFacts, Resolve, HasInternal, SourceOf;
    var facts := FinishedAnswer(cfg, [OBJECT]).value.facts;
    assert facts == [facts[0]];
    QuoteIsChanged(cfg.ledger, internalScope, facts[0]);
  }

  lemma QuoteIsChanged(ledger: seq<Entry>, internalScope: bool, claim: Claim)
    requires ledger != [] && claim.citations == [QuotedEntry(ledger).evidenceId]
    requires var id := QuotedEntry(ledger).evidenceId;
             Resolve(ledger, id) != id || (internalScope && HasInternal(ledger) && SourceOf(ledger, id).External?)
    ensures VerifiedFacts(ledger, internalScope, [claim]) != [claim]
  {
    hide ValidIds, Aliases, QuotedEntry, HasInternal, SourceOf;
    var id := QuotedEntry(ledger).evidenceId;
    assert [claim][..0] == [] && VerifiedFacts(ledger, internalScope, []) == [];
    assert Map((c: string) => Resolve(ledger, c), [id]) == [Resolve(ledger, id)];
    assert forall c :: c in VerifiedCitations(ledger, [id]) ==> c == Resolve(ledger, id);
    if Resolve(ledger, id) != id {
      assert id in [id] && id !in VerifiedCitations(ledger, [id]);
    } else {
      assert AllExternal(ledger, VerifiedCitations(ledger, [id]));
      assert !KeepsFact(ledger, internalScope, claim);
    }
  }

  lemma StableLedgersAgree(cfg: Config, internalScope: bool, deltas: seq<string>)
    requires LedgerStable(cfg.ledger, internalScope) && (internalScope ==> cfg.enforceAuthority)
    ensures Unchanged(cfg, internalScope, deltas)
  {
    hide LedgerStable, FinishedAnswer, VerifiedAnswer, Grounded;
    FinishedAnswersAreGrounded(cfg, deltas);
    if FinishedAnswer(cfg, deltas).Some? {
      GroundedAnswerStays(cfg, internalScope, FinishedAnswer(cfg, deltas).value);
    }
  }

  /**
   * On a ledger without empty entries, the verifier returns every answer that any stream finishes, with any
   * decoder of units, unchanged if and only if the ledger is stable.
   */
  lemma VerifierChangesNothingExactlyWhen(cfg: Config, internalScope: bool)
    requires (internalScope ==> cfg.enforceAuthority) && NoEmptyEntry(cfg.ledger)
    ensures LedgerStable(cfg.ledger, internalScope)
       <==> forall decode: string -> Payload, deltas ::
              Unchanged(cfg.(decode := decode), internalScope, deltas)
  {
    hide Unchanged, Resolve, HasInternal, QuotedEntry, SourceOf, Aliases;
    if LedgerStable(cfg.ledger, internalScope) {
      forall decode: string -> Payload, deltas ensures Unchanged(cfg.(decode := decode), internalScope, deltas) {
        StableLedgersAgree(cfg.(decode := decode), internalScope, deltas);
      }
    } else if id :| id in Aliases(cfg.ledger).Values && id in Aliases(cfg.ledger) && Aliases(cfg.ledger)[id] != id {
      var k :| k in Aliases(cfg.ledger) && Aliases(cfg.ledger)[k] == id;
      UnstableAliasShows(cfg.(decode := (unit: string) => Citing(k)), internalScope, k);
    } else {
      UnstableQuoteShows(cfg.(decode := (unit: string) => AnObject(ConfidenceUnit, "", [], Some(Low))), internalScope);
    }
  }

  // ----- Ordinary ledgers are stable -----

  predicate IsAliasOf(id: string, e: Entry) {
    id != "" && (id == e.chunkId || id == e.documentId)
  }

  /** No two entries share an id, and no entry's id is an alias of another entry. */
  predicate Unambiguous(ledger: seq<Entry>) {
    (forall i, j :: 0 <= i < j < |ledger| ==> ledger[i].evidenceId != ledger[j].evidenceId)
    && forall e, f :: e in ledger && f in ledger && IsAliasOf(e.evidenceId, f) ==> e == f
  }

  lemma {:induction false} AliasesComeFromEntries(ledger: seq<Entry>, id: string)
    requires id in Aliases(ledger)
    ensures exists f :: f in ledger && IsAliasOf(id, f) && Aliases(ledger)[id] == f.evidenceId
  {
    var init, last := ledger[..|ledger| - 1], ledger[|ledger| - 1];
    assert ledger == init + [last];
    if !IsAliasOf(id, last) {
      AliasesComeFromEntries(init, id);
      var f :| f in init && IsAliasOf(id, f) && Aliases(init)[id] == f.evidenceId;
      assert f in ledger;
    } else {
      assert last in ledger;
    }
  }

  lemma {:induction false} SourceOfEntry(ledger: seq<Entry>, k: nat)
    requires k < |ledger| && forall i, j :: 0 <= i < j < |ledger| ==> ledger[i].evidenceId != ledger[j].evidenceId
    ensures SourceOf(ledger, ledger[k].evidenceId) == ledger[k].source
  {
    if k < |ledger| - 1 {
      SourceOfEntry(ledger[..|ledger| - 1], k);
    }
  }

  /** With distinct evidence ids, none of them an alias of another entry, every ledger is stable. */
  lemma UnambiguousLedgersAreStable(ledger: seq<Entry>, internalScope: bool)
    requires Unambiguous(ledger)
    ensures LedgerStable(ledger, internalScope)
  {
    hide Aliases, SourceOf, HasInternal, QuotedEntry;
    forall id | id in Aliases(ledger) && id in ValidIds(ledger) ensures Aliases(ledger)[id] == id {
      AliasesComeFromEntries(ledger, id);
      var f :| f in ledger && IsAliasOf(id, f) && Aliases(ledger)[id] == f.evidenceId;
      var e :| e in ledger && e.evidenceId == id;
    }
    AliasesNameEntries(ledger);
    if ledger != [] {
      var q := QuotedEntry(ledger);
      var k :| 0 <= k < |ledger| && ledger[k] == q;
      SourceOfEntry(ledger, k);
      assert q.evidenceId in ValidIds(ledger);
    }
  }
}
