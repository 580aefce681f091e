/**
 * The second reading of an answer, made from the ledger alone after generation, and when it agrees with the
 * first one made while streaming.
 */
module AnswerVerification {
  import opened AnswerAssembler
  import opened AnswerFormat
  import opened AnswerGrowth
  import opened Domain
  import opened IncrementalReader
  import opened JsonUnits
  import opened Sequences

  // ----- `_verify_answer` -----

  function VerifiedCitations(ledger: seq<Entry>, citations: seq<string>): seq<string> {
    Filter((c: string) => c in ValidIds(ledger), Map((c: string) => Resolve(ledger, c), citations))
  }

  predicate KeepsFact(ledger: seq<Entry>, internalScope: bool, claim: Claim) {
    var citations := VerifiedCitations(ledger, claim.citations);
    citations != [] && !(HasInternal(ledger) && internalScope && AllExternal(ledger, citations))
  }

  function VerifiedFacts(ledger: seq<Entry>, internalScope: bool, facts: seq<Claim>): seq<Claim> {
    if facts == [] then []
    else
      var claim := facts[|facts| - 1];
      VerifiedFacts(ledger, internalScope, facts[..|facts| - 1])
      + if KeepsFact(ledger, internalScope, claim)
        then [Claim(claim.text, VerifiedCitations(ledger, claim.citations))] else []
  }

  function VerifiedHypothesis(ledger: seq<Entry>, claim: Claim): Claim {
    Claim(Replace(claim.text, ROOT_CAUSE, TESTABLE), VerifiedCitations(ledger, claim.citations))
  }

  function VerifiedAnswer(ledger: seq<Entry>, internalScope: bool, a: Answer): Answer {
    a.(facts := VerifiedFacts(ledger, internalScope, a.facts),
       hypotheses := Map((claim: Claim) => VerifiedHypothesis(ledger, claim), a.hypotheses))
  }

  /** The warnings for the facts dropped, in order: no valid citation, or external sources only. */
  function VerifierWarnings(ledger: seq<Entry>, internalScope: bool, facts: seq<Claim>): seq<Warning> {
    if facts == [] then []
    else
      var claim := facts[|facts| - 1];
      VerifierWarnings(ledger, internalScope, facts[..|facts| - 1])
      + if KeepsFact(ledger, internalScope, claim) then []
        else [if VerifiedCitations(ledger, claim.citations) == [] then NoValidCitation else ExternalOnlyRemoved]
  }

  predicate CitedIn(a: Answer, id: string) {
    exists claim :: claim in a.facts + a.hypotheses && id in claim.citations
  }

  /** The entries listed as citations of an answer, in ledger order. */
  function ListedCitations(ledger: seq<Entry>, a: Answer): seq<Entry> {
    Filter((e: Entry) => CitedIn(a, e.evidenceId), ledger)
  }

  /** The verification node: the verified answer, the warnings for the facts dropped, and the citation list. */
  method VerifyAnswer(ledger: seq<Entry>, internalScope: bool, a: Answer)
    returns (verified: Answer, warnings: seq<Warning>, citations: seq<Entry>)
    ensures verified == VerifiedAnswer(ledger, internalScope, a)
    ensures warnings == VerifierWarnings(ledger, internalScope, a.facts)
    ensures citations == ListedCitations(ledger, verified)
  {
    hide Resolve, ValidIds, AllExternal, HasInternal, VerifiedCitations, Map, CitedIn, Filter;
    var facts: seq<Claim> := [];
    warnings := [];
    for i := 0 to |a.facts|
      invariant facts == VerifiedFacts(ledger, internalScope, a.facts[..i])
      invariant warnings == VerifierWarnings(ledger, internalScope, a.facts[..i])
    {
      var claim := a.facts[i];
      assert a.facts[..i + 1][..i] == a.facts[..i];
      var cited := VerifiedCitations(ledger, claim.citations);
      if cited == [] {
        warnings := warnings + [NoValidCitation];
      } else if HasInternal(ledger) && internalScope && AllExternal(ledger, cited) {
        warnings := warnings + [ExternalOnlyRemoved];
      } else {
        facts := facts + [Claim(claim.text, cited)];
      }
    }
    assert a.facts[..|a.facts|] == a.facts;
    verified := a.(facts := facts,
      hypotheses := Map((claim: Claim) => VerifiedHypothesis(ledger, claim), a.hypotheses));
    citations := ListedCitations(ledger, verified);
  }

  /** Every citation of a verified claim is an entry of the list, and every verified fact has one. */
  lemma VerifiedClaimsAreListed(ledger: seq<Entry>, internalScope: bool, a: Answer, claim: Claim)
    ensures var verified := VerifiedAnswer(ledger, internalScope, a);
            claim in verified.facts + verified.hypotheses ==>
              (forall c :: c in claim.citations ==>
                 exists e :: e in ListedCitations(ledger, verified) && e.evidenceId == c)
              && (claim in verified.facts ==> claim.citations != [])
  {
    hide VerifiedCitations, KeepsFact, ListedCitations;
    var verified := VerifiedAnswer(ledger, internalScope, a);
    if claim in verified.facts + verified.hypotheses {
      VerifiedFactsAreKept(ledger, internalScope, a.facts);
      if claim in verified.hypotheses {
        var i :| 0 <= i < |verified.hypotheses| && verified.hypotheses[i] == claim;
        VerifiedCitationsAreValid(ledger, a.hypotheses[i].citations);
      }
      forall c | c in claim.citations ensures exists e :: e in ListedCitations(ledger, verified) && e.evidenceId == c {
        assert c in ValidIds(ledger);
        var e :| e in ledger && e.evidenceId == c;
        EntryIsListed(ledger, verified, claim, e);
      }
    }
  }

  lemma EntryIsListed(ledger: seq<Entry>, a: Answer, claim: Claim, e: Entry)
    requires e in ledger && claim in a.facts + a.hypotheses && e.evidenceId in claim.citations
    ensures e in ListedCitations(ledger, a)
  {
    assert CitedIn(a, e.evidenceId);
  }

  lemma VerifiedCitationsAreValid(ledger: seq<Entry>, citations: seq<string>)
    ensures forall c :: c in VerifiedCitations(ledger, citations) ==> c in ValidIds(ledger)
  {}

  lemma {:induction false} VerifiedFactsAreKept(ledger: seq<Entry>, internalScope: bool, facts: seq<Claim>)
    ensures forall claim :: claim in VerifiedFacts(ledger, internalScope, facts) ==>
              claim.citations != [] && forall c :: c in claim.citations ==> c in ValidIds(ledger)
  {
    if facts != [] {
      VerifiedFactsAreKept(ledger, internalScope, facts[..|facts| - 1]);
      VerifiedCitationsAreValid(ledger, facts[|facts| - 1].citations);
      hide VerifiedCitations, ValidIds;
    }
  }

  // ----- What the assembler guarantees about a finished answer -----

  /** An id the assembler can put into a claim: what some citation of a model resolves to. */
  predicate Citable(ledger: seq<Entry>, id: string) {
    id in ValidIds(ledger) && (id in Aliases(ledger).Values || id !in Aliases(ledger))
  }

  predicate QuotedFact(ledger: seq<Entry>, claim: Claim) {
    ledger != [] && claim.citations == [QuotedEntry(ledger).evidenceId]
  }

  predicate GroundedFact(cfg: Config, claim: Claim) {
    QuotedFact(cfg.ledger, claim)
    || (claim.citations != [] && Distinct(claim.citations)
      && (forall c :: c in claim.citations ==> Citable(cfg.ledger, c))
        && !(cfg.enforceAuthority && HasInternal(cfg.ledger) && AllExternal(cfg.ledger, claim.citations)))
  }

  predicate GroundedHypothesis(cfg: Config, claim: Claim) {
    !Occurs(ROOT_CAUSE, claim.text) && forall c :: c in claim.citations ==> Citable(cfg.ledger, c)
  }

  /** Every claim is grounded the way the assembler grounds claims. */
  predicate Grounded(cfg: Config, a: Answer) {
    (forall claim :: claim in a.facts ==> GroundedFact(cfg, claim))
    && (forall claim :: claim in a.hypotheses ==> GroundedHypothesis(cfg, claim))
  }

  /** One leftmost match at a time: the reworded text holds no match any more. */
  lemma {:induction false} RewordingLeavesNone(s: string)
    ensures !Occurs(ROOT_CAUSE, Replace(s, ROOT_CAUSE, TESTABLE))
    decreases |s|
  {
    hide Occurs;
    RewordingSizes();
    if |s| < |ROOT_CAUSE| {
      ShortTextHasNone(s);
    } else if s[..|ROOT_CAUSE|] == ROOT_CAUSE {
      RewordingLeavesNone(s[|ROOT_CAUSE|..]);
      TestablePrefix(Replace(s[|ROOT_CAUSE|..], ROOT_CAUSE, TESTABLE));
    } else {
      RewordingLeavesNone(s[1..]);
      NoMatchAtFront(s);
    }
  }

  lemma ShortTextHasNone(s: string)
    requires |s| < |ROOT_CAUSE|
    ensures !Occurs(ROOT_CAUSE, s)
  {}

  lemma TestablePrefix(s: string)
    requires !Occurs(ROOT_CAUSE, s)
    ensures !Occurs(ROOT_CAUSE, TESTABLE + s)
  {
    var t := TESTABLE + s;
    forall i | 0 <= i <= |t| && At(ROOT_CAUSE, t, i) ensures |TESTABLE| <= i && At(ROOT_CAUSE, s, i - |TESTABLE|) {
      assert t[i] == t[i..i + 3][0] == ROOT_CAUSE[0];
      assert i >= |TESTABLE| ==> t[i..i + 3] == s[i - |TESTABLE|..i - |TESTABLE| + 3];
    }
  }

  lemma NoMatchAtFront(s: string)
    requires |s| >= |ROOT_CAUSE| && s[..|ROOT_CAUSE|] != ROOT_CAUSE
    requires !Occurs(ROOT_CAUSE, Replace(s[1..], ROOT_CAUSE, TESTABLE))
    ensures !Occurs(ROOT_CAUSE, [s[0]] + Replace(s[1..], ROOT_CAUSE, TESTABLE))
  {
    var r := Replace(s[1..], ROOT_CAUSE, TESTABLE);
    var t := [s[0]] + r;
    forall i | 0 < i <= |t| ensures At(ROOT_CAUSE, t, i) ==> At(ROOT_CAUSE, r, i - 1) {
      assert i + 3 <= |t| ==> t[i..i + 3] == r[i - 1..i + 2];
    }
    if At(ROOT_CAUSE, t, 0) {
      assert t[0..3][1] == r[0] && t[0..3][2] == r[1];
      HeadSurvives(s[1..], ROOT_CAUSE[1]);
      HeadSurvives(s[1..][1..], ROOT_CAUSE[2]);
      assert false;
    }
  }

  /** A reworded text starts with the original character, or with the first one of the new wording. */
  lemma HeadSurvives(s: string, c: char)
    requires Replace(s, ROOT_CAUSE, TESTABLE) != "" && Replace(s, ROOT_CAUSE, TESTABLE)[0] == c && c != TESTABLE[0]
    ensures s != "" && s[0] == c
    ensures Replace(s, ROOT_CAUSE, TESTABLE)[1..] == Replace(s[1..], ROOT_CAUSE, TESTABLE)
  {}

  // ----- Finished answers are grounded -----

  lemma {:induction false} AliasesNameEntries(ledger: seq<Entry>)
    ensures forall v :: v in Aliases(ledger).Values ==> v in ValidIds(ledger)
  {
    if ledger != [] {
      var init, e := ledger[..|ledger| - 1], ledger[|ledger| - 1];
      AliasesNameEntries(init);
      assert ledger == init + [e];
      assert e in ledger && ValidIds(init) <= ValidIds(ledger);
    }
  }

  lemma ResolvedIsCitable(ledger: seq<Entry>, citation: string)
    requires Resolve(ledger, citation) in ValidIds(ledger)
    ensures Citable(ledger, Resolve(ledger, citation))
  {
    hide ValidIds;
    AliasesNameEntries(ledger);
  }

  lemma CitationsAreCitable(cfg: Config, raw: seq<string>)
    ensures Distinct(Citations(cfg, raw))
    ensures forall c :: c in Citations(cfg, raw) ==> Citable(cfg.ledger, c)
  {
    hide ValidIds, Citable;
    forall c | c in Citations(cfg, raw) ensures Citable(cfg.ledger, c) {
      var resolved := Map((c: string) => Resolve(cfg.ledger, c), raw);
      var i :| 0 <= i < |resolved| && resolved[i] == c;
      ResolvedIsCitable(cfg.ledger, raw[i]);
    }
  }

  lemma JudgedClaimIsGrounded(cfg: Config, payload: Payload)
    requires payload.AnObject? && JudgeClaim(cfg, payload).Accepted?
    ensures payload.kind.Fact? ==> GroundedFact(cfg, JudgeClaim(cfg, payload).claim)
    ensures !payload.kind.Fact? ==> GroundedHypothesis(cfg, JudgeClaim(cfg, payload).claim)
  {
    hide Citations, Citable, AllExternal, HasInternal, QuotedEntry, Replace, Occurs;
    CitationsAreCitable(cfg, payload.citations);
    RewordingLeavesNone(CleanText(payload.text));
  }

  lemma EmittingKeepsTheAnswer(cfg: Config, core: Core)
    ensures AnswerOf(EmitGrowth(cfg, core).0) == AnswerOf(core)
  {
    hide ShownText;
  }

  lemma AppliedIsGrounded(cfg: Config, core: Core, payload: Payload)
    requires Grounded(cfg, AnswerOf(core)) && payload.AnObject? && !payload.kind.Unrecognised?
    ensures Grounded(cfg, AnswerOf(ApplyUnit(cfg, core, payload).0))
  {
    hide JudgeClaim, CleanText, GroundedFact, GroundedHypothesis;
    if payload.kind.Fact? || payload.kind.Hypothesis? {
      if JudgeClaim(cfg, payload).Accepted? {
        JudgedClaimIsGrounded(cfg, payload);
      }
    }
  }

  lemma UnitIsGrounded(cfg: Config, core: Core, payload: Payload)
    requires Grounded(cfg, AnswerOf(core))
    ensures Grounded(cfg, AnswerOf(ProcessUnit(cfg, core, payload).0))
  {
    hide Grounded, AddQuotedFact, ApplyUnit, EmitGrowth;
    if Reaches(core, payload) {
      QuotingIsGrounded(cfg, core);
      var quoted := if Order(payload.kind) > 0 then AddQuotedFact(cfg, core).0 else core;
      AppliedIsGrounded(cfg, quoted, payload);
      var applied := ApplyUnit(cfg, quoted, payload).0;
      EmittingKeepsTheAnswer(cfg, applied.(lastOrder := Order(payload.kind), units := applied.units + 1));
    }
  }

  lemma QuotingIsGrounded(cfg: Config, core: Core)
    requires Grounded(cfg, AnswerOf(core))
    ensures Grounded(cfg, AnswerOf(AddQuotedFact(cfg, core).0))
  {
    hide ShownText, GroundedHypothesis, QuotedEntry;
  }

  lemma ConcludingIsGrounded(cfg: Config, core: Core)
    requires Grounded(cfg, AnswerOf(core))
    ensures Grounded(cfg, AnswerOf(Conclude(cfg, core).0))
  {
    hide ShownText, GroundedHypothesis, GroundedFact, AddQuotedFact;
    QuotingIsGrounded(cfg, core);
  }

  /** Every answer the assembler finishes, whatever was delivered and raised on the way, is grounded in its ledger. */
  lemma FinishedAnswersAreGrounded(cfg: Config, deltas: seq<string>)
    ensures FinishedAnswer(cfg, deltas).Some? ==> Grounded(cfg, FinishedAnswer(cfg, deltas).value)
  {
    hide Grounded, ProcessUnit, Conclude;
    var inv := (core: Core) => Grounded(cfg, AnswerOf(core));
    var any := (error: Error) => true;
    forall core, unit | inv(core) ensures inv(UnitProcessor(cfg)(core, unit).0) {
      UnitIsGrounded(cfg, core, cfg.decode(unit));
    }
    assert inv(EMPTY) by { NothingIsGrounded(cfg); }
    DeliveredKeeps(JSON_LEXER, UnitProcessor(cfg), inv, any, EMPTY, deltas);
    var d := Delivered(JSON_LEXER, UnitProcessor(cfg), EMPTY, deltas);
    DrainKeeps(JSON_LEXER, UnitProcessor(cfg), inv, any, d.state, d.buffer);
    ConcludingIsGrounded(cfg, FinalDrain(cfg, d.state, d.buffer).state);
  }

  lemma NothingIsGrounded(cfg: Config)
    ensures Grounded(cfg, AnswerOf(EMPTY))
  {}

  // ----- When the second reading changes nothing -----

  /**
   * Every alias target is its own target; so is the id of the entry the assembler quotes, and under the
   * authority rule a later entry with that id does not turn it into an external source.
   */
  predicate LedgerStable(ledger: seq<Entry>, internalScope: bool) {
    (forall id :: id in Aliases(ledger).Values && id in Aliases(ledger) ==> Aliases(ledger)[id] == id)
    && (ledger != [] ==>
          var id := QuotedEntry(ledger).evidenceId;
          Resolve(ledger, id) == id && !(internalScope && HasInternal(ledger) && SourceOf(ledger, id).External?))
  }

  lemma {:induction false} FixedCitationsStay(ledger: seq<Entry>, citations: seq<string>)
    requires forall c :: c in citations ==> Resolve(ledger, c) == c && c in ValidIds(ledger)
    ensures VerifiedCitations(ledger, citations) == citations
  {
    hide Resolve, ValidIds;
    if citations != [] {
      var init, c := citations[..|citations| - 1], citations[|citations| - 1];
      assert citations == init + [c];
      FixedCitationsStay(ledger, init);
    }
  }

  lemma CitableIsFixed(ledger: seq<Entry>, internalScope: bool, id: string)
    requires LedgerStable(ledger, internalScope) && Citable(ledger, id)
    ensures Resolve(ledger, id) == id && id in ValidIds(ledger)
  {
    hide QuotedEntry, ValidIds, HasInternal;
  }

  lemma GroundedFactStays(cfg: Config, internalScope: bool, claim: Claim)
    requires LedgerStable(cfg.ledger, internalScope) && GroundedFact(cfg, claim)
    requires internalScope ==> cfg.enforceAuthority
    ensures VerifiedCitations(cfg.ledger, claim.citations) == claim.citations
    ensures KeepsFact(cfg.ledger, internalScope, claim)
  {
    hide VerifiedCitations, Citable, Resolve;
    if QuotedFact(cfg.ledger, claim) {
      FixedCitationsStay(cfg.ledger, claim.citations);
    } else {
      forall c | c in claim.citations ensures Resolve(cfg.ledger, c) == c && c in ValidIds(cfg.ledger) {
        CitableIsFixed(cfg.ledger, internalScope, c);
      }
      FixedCitationsStay(cfg.ledger, claim.citations);
    }
  }

  lemma {:induction false} GroundedFactsStay(cfg: Config, internalScope: bool, facts: seq<Claim>)
    requires LedgerStable(cfg.ledger, internalScope) && forall claim :: claim in facts ==> GroundedFact(cfg, claim)
    requires internalScope ==> cfg.enforceAuthority
    ensures VerifiedFacts(cfg.ledger, internalScope, facts) == facts
  {
    hide LedgerStable, GroundedFact, KeepsFact, VerifiedCitations;
    if facts != [] {
      var init, claim := facts[..|facts| - 1], facts[|facts| - 1];
      assert facts == init + [claim];
      GroundedFactsStay(cfg, internalScope, init);
      GroundedFactStays(cfg, internalScope, claim);
    }
  }

  lemma GroundedHypothesisStays(cfg: Config, internalScope: bool, claim: Claim)
    requires LedgerStable(cfg.ledger, internalScope) && GroundedHypothesis(cfg, claim)
    ensures VerifiedHypothesis(cfg.ledger, claim) == claim
  {
    hide LedgerStable, VerifiedCitations, Citable, Resolve, Occurs, Replace;
    forall c | c in claim.citations ensures Resolve(cfg.ledger, c) == c && c in ValidIds(cfg.ledger) {
      CitableIsFixed(cfg.ledger, internalScope, c);
    }
    FixedCitationsStay(cfg.ledger, claim.citations);
    RewordingSizes();
    ReplaceAbsent(claim.text, ROOT_CAUSE, TESTABLE);
  }

  lemma GroundedAnswerStays(cfg: Config, internalScope: bool, a: Answer)
    requires LedgerStable(cfg.ledger, internalScope) && Grounded(cfg, a)
    requires internalScope ==> cfg.enforceAuthority
    ensures VerifiedAnswer(cfg.ledger, internalScope, a) == a
  {
    hide LedgerStable, GroundedFact, GroundedHypothesis, VerifiedHypothesis, VerifiedFacts;
    GroundedFactsStay(cfg, internalScope, a.facts);
    var again := Map((claim: Claim) => VerifiedHypothesis(cfg.ledger, claim), a.hypotheses);
    forall i | 0 <= i < |again| ensures again[i] == a.hypotheses[i] {
      GroundedHypothesisStays(cfg, internalScope, a.hypotheses[i]);
    }
    assert again == a.hypotheses;
  }
}
