/** What the verifying node keeps, told from the ledger and the claims alone. */
module VerifiedClaims {
  import opened AnswerAcceptance
  import opened AnswerAssembler
  import opened AnswerFormat
  import opened AnswerVerification
  import opened Sequences

  /** The citation names an entry of the ledger. */
  predicate NamesEntry(ledger: seq<Entry>, c: string) {
    exists e :: e in ledger && Names(ledger, c, e.evidenceId)
  }

  /** A verified claim keeps exactly the citations that name an entry, each as the id it names, in order. */
  lemma VerifiedCitationsExactly(ledger: seq<Entry>, citations: seq<string>) returns (positions: seq<nat>)
    ensures var ids := VerifiedCitations(ledger, citations);
            |positions| == |ids|
            && (forall k :: 0 <= k < |ids| ==>
                  positions[k] < |citations| && Names(ledger, citations[positions[k]], ids[k]))
            && (forall j, k :: 0 <= j < k < |ids| ==> positions[j] < positions[k])
            && forall i :: 0 <= i < |citations| ==> (i in positions <==> NamesEntry(ledger, citations[i]))
  {
    forall c, id ensures Names(ledger, c, id) <==> id == Resolve(ledger, c) {
      NamesExactlyWhen(ledger, c, id);
    }
    forall c ensures Resolve(ledger, c) in ValidIds(ledger) <==> NamesEntry(ledger, c) {
      ResolvedIsValid(ledger, c);
    }
    hide Names, Resolve, ValidIds, NamesEntry;
    positions := FilterPicks((c: string) => c in ValidIds(ledger), Map((c: string) => Resolve(ledger, c), citations));
    hide Filter;
  }

  lemma ResolvedIsValid(ledger: seq<Entry>, c: string)
    ensures Resolve(ledger, c) in ValidIds(ledger) <==> NamesEntry(ledger, c)
  {
    forall id ensures Names(ledger, c, id) <==> id == Resolve(ledger, c) {
      NamesExactlyWhen(ledger, c, id);
    }
    hide Names, Resolve;
  }

  /** All entries the citations name are external by their ids. */
  predicate NamesExternalOnly(ledger: seq<Entry>, citations: seq<string>) {
    forall c, e :: c in citations && e in ledger && Names(ledger, c, e.evidenceId) ==> IsExternal(ledger, e.evidenceId)
  }

  predicate NamesNothing(ledger: seq<Entry>, citations: seq<string>) {
    forall c :: c in citations ==> !NamesEntry(ledger, c)
  }

  /** In an internal scope with internal evidence, external evidence alone does not do. */
  predicate WithoutAuthority(ledger: seq<Entry>, internalScope: bool, citations: seq<string>) {
    internalScope && (exists e :: e in ledger && e.source.InternalControlled?) && NamesExternalOnly(ledger, citations)
  }

  lemma VerifiedIdsAreNamed(ledger: seq<Entry>, citations: seq<string>, id: string)
    ensures id in VerifiedCitations(ledger, citations)
       <==> exists c :: c in citations && Names(ledger, c, id) && exists e :: e in ledger && e.evidenceId == id
  {
    forall c, x ensures Names(ledger, c, x) <==> x == Resolve(ledger, c) {
      NamesExactlyWhen(ledger, c, x);
    }
    hide Names, Resolve;
    var named := Map((c: string) => Resolve(ledger, c), citations);
    if id in named {
      var k :| 0 <= k < |named| && named[k] == id;
      assert citations[k] in citations;
    }
    if c :| c in citations && Names(ledger, c, id) {
      var k :| 0 <= k < |citations| && citations[k] == c;
      assert named[k] == id;
    }
  }

  lemma KeptExactlyWhen(ledger: seq<Entry>, internalScope: bool, claim: Claim)
    ensures VerifiedCitations(ledger, claim.citations) == [] <==> NamesNothing(ledger, claim.citations)
    ensures KeepsFact(ledger, internalScope, claim)
       <==> !NamesNothing(ledger, claim.citations) && !WithoutAuthority(ledger, internalScope, claim.citations)
  {
    var ids := VerifiedCitations(ledger, claim.citations);
    forall id ensures id in ids
        <==> exists c :: c in claim.citations && Names(ledger, c, id) && exists e :: e in ledger && e.evidenceId == id {
      VerifiedIdsAreNamed(ledger, claim.citations, id);
    }
    forall id ensures IsExternal(ledger, id) <==> SourceOf(ledger, id).External? {
      ExternalExactlyWhen(ledger, id);
    }
    hide Names, IsExternal, SourceOf, VerifiedCitations;
    if c, e :| c in claim.citations && e in ledger && Names(ledger, c, e.evidenceId) {
      assert e.evidenceId in ids;
    }
    assert ids != [] ==> ids[0] in ids;
  }

  /**
   * The verified facts are exactly those that name an entry and do not lack authority, in order, each with its text
   * and the entries it names.
   */
  lemma {:induction false} VerifiedFactsExactly(ledger: seq<Entry>, internalScope: bool, facts: seq<Claim>)
    returns (positions: seq<nat>)
    ensures var kept := VerifiedFacts(ledger, internalScope, facts);
            |positions| == |kept|
            && (forall k :: 0 <= k < |kept| ==>
                  positions[k] < |facts| && kept[k].text == facts[positions[k]].text
                  && kept[k].citations == VerifiedCitations(ledger, facts[positions[k]].citations))
            && (forall j, k :: 0 <= j < k < |kept| ==> positions[j] < positions[k])
            && forall i :: 0 <= i < |facts| ==>
                 (i in positions <==>
                    !NamesNothing(ledger, facts[i].citations)
                    && !WithoutAuthority(ledger, internalScope, facts[i].citations))
  {
    hide VerifiedCitations, NamesNothing, WithoutAuthority, KeepsFact;
    positions := [];
    if facts != [] {
      var init, last := facts[..|facts| - 1], facts[|facts| - 1];
      positions := VerifiedFactsExactly(ledger, internalScope, init);
      KeptExactlyWhen(ledger, internalScope, last);
      assert forall i :: i in positions ==> i < |init|;
      if KeepsFact(ledger, internalScope, last) {
        positions := positions + [|init|];
      }
    }
  }

  /** There is one warning for each fact dropped, in order, and it says which rule the fact breaks. */
  lemma {:induction false} WarningsExactly(ledger: seq<Entry>, internalScope: bool, facts: seq<Claim>)
    returns (positions: seq<nat>)
    ensures var warnings := VerifierWarnings(ledger, internalScope, facts);
            |positions| == |warnings|
            && (forall k :: 0 <= k < |warnings| ==>
                  positions[k] < |facts|
                  && warnings[k] == if NamesNothing(ledger, facts[positions[k]].citations) then NoValidCitation
                                    else ExternalOnlyRemoved)
            && (forall j, k :: 0 <= j < k < |warnings| ==> positions[j] < positions[k])
            && forall i :: 0 <= i < |facts| ==>
                 (i in positions <==>
                    NamesNothing(ledger, facts[i].citations)
                    || WithoutAuthority(ledger, internalScope, facts[i].citations))
  {
    hide VerifiedCitations, NamesNothing, WithoutAuthority, KeepsFact;
    positions := [];
    if facts != [] {
      var init, last := facts[..|facts| - 1], facts[|facts| - 1];
      positions := WarningsExactly(ledger, internalScope, init);
      KeptExactlyWhen(ledger, internalScope, last);
      assert forall i :: i in positions ==> i < |init|;
      if !KeepsFact(ledger, internalScope, last) {
        positions := positions + [|init|];
      }
    }
  }

  /** Every hypothesis is kept, reworded, with the entries it names; gaps, actions and confidence stay as they are. */
  lemma VerifiedRest(ledger: seq<Entry>, internalScope: bool, a: Answer)
    ensures var verified := VerifiedAnswer(ledger, internalScope, a);
            verified.unknowns == a.unknowns && verified.nextActions == a.nextActions
            && verified.confidence == a.confidence && |verified.hypotheses| == |a.hypotheses|
            && forall i :: 0 <= i < |a.hypotheses| ==>
                 verified.hypotheses[i].text == Replace(a.hypotheses[i].text, "根因是", "待验证假设是")
                 && verified.hypotheses[i].citations == VerifiedCitations(ledger, a.hypotheses[i].citations)
  {
    hide VerifiedCitations, VerifiedFacts, Replace;
  }

  /** The citation list is exactly the entries that a verified claim cites, in ledger order. */
  lemma ListedExactly(ledger: seq<Entry>, a: Answer) returns (positions: seq<nat>)
    ensures Picks(ledger, ListedCitations(ledger, a), positions)
    ensures forall i :: 0 <= i < |ledger| ==>
              (i in positions <==>
                 exists claim :: (claim in a.facts || claim in a.hypotheses) && ledger[i].evidenceId in claim.citations)
  {
    positions := FilterPicks((e: Entry) => CitedIn(a, e.evidenceId), ledger);
    hide Filter;
  }
}
