/** What the answer assembler takes: exactly which units reach the answer, and with which text and citations. */
module AnswerAcceptance {
  import opened AnswerAssembler
  import opened AnswerFormat
  import opened AnswerGrowth
  import opened IncrementalReader
  import opened JsonUnits
  import opened Sequences

  // ----- Text -----

  /** `text` is `raw` between the white space at its two ends, cut to 2000 characters. */
  predicate Spans(raw: string, i: nat, j: nat, text: string) {
    i <= j <= |raw|
    && (forall k :: 0 <= k < |raw| && !(i <= k < j) ==> IsSpace(raw[k]))
    && (i < j ==> !IsSpace(raw[i]) && !IsSpace(raw[j - 1]))
    && text == if j - i <= 2000 then raw[i..j] else raw[i..i + 2000]
  }

  predicate Cleaned(raw: string, text: string) {
    exists i, j :: 0 <= i <= j <= |raw| && Spans(raw, i, j, text)
  }

  lemma {:induction false} LStripSkips(raw: string)
    ensures var i := |raw| - |LStrip(raw)|; LStrip(raw) == raw[i..] && forall k :: 0 <= k < i ==> IsSpace(raw[k])
  {
    hide IsSpace;
    if raw != "" && IsSpace(raw[0]) {
      LStripSkips(raw[1..]);
      var i := |raw| - |LStrip(raw)|;
      forall k | 0 <= k < i ensures IsSpace(raw[k]) {
        assert k > 0 ==> raw[k] == raw[1..][k - 1];
      }
    }
  }

  lemma {:induction false} RStripSkips(s: string)
    ensures forall k :: |RStrip(s)| <= k < |s| ==> IsSpace(s[k])
  {
    hide IsSpace;
    if s != "" && IsSpace(s[|s| - 1]) {
      RStripSkips(s[..|s| - 1]);
    }
  }

  lemma OneSpan(raw: string, i: nat, j: nat, text: string, m: nat, n: nat, other: string)
    requires Spans(raw, i, j, text) && Spans(raw, m, n, other)
    ensures text == other
  {
    hide IsSpace;
    if i < j {
      assert m <= i && j <= n;
    }
    if m < n {
      assert i <= m && n <= j;
    }
  }

  lemma CleanedExactlyWhen(raw: string, text: string)
    ensures Cleaned(raw, text) <==> text == CleanText(raw)
  {
    hide IsSpace;
    LStripSkips(raw);
    RStripSkips(LStrip(raw));
    var i := |raw| - |LStrip(raw)|;
    var j := i + |Strip(raw)|;
    forall k | j <= k < |raw| ensures IsSpace(raw[k]) {
      assert raw[k] == LStrip(raw)[k - i];
    }
    assert Strip(raw) == raw[i..j];
    assert i < j ==> Strip(raw)[0] == LStrip(raw)[0];
    assert Spans(raw, i, j, CleanText(raw));
    hide LStrip, RStrip, Strip, CleanText;
    if Cleaned(raw, text) {
      var m: nat, n: nat :| 0 <= m <= n <= |raw| && Spans(raw, m, n, text);
      OneSpan(raw, i, j, CleanText(raw), m, n, text);
    }
  }

  // ----- Citations -----

  predicate AliasOf(e: Entry, c: string) { c != "" && (e.chunkId == c || e.documentId == c) }

  /** The last entry with this chunk or document id. */
  predicate LastAlias(ledger: seq<Entry>, c: string, i: nat) {
    i < |ledger| && AliasOf(ledger[i], c) && forall j :: i < j < |ledger| ==> !AliasOf(ledger[j], c)
  }

  /** A citation names the evidence id of the last entry it is an alias of; one that is no alias names itself. */
  predicate Names(ledger: seq<Entry>, c: string, id: string) {
    if exists e :: e in ledger && AliasOf(e, c)
    then exists i :: 0 <= i < |ledger| && LastAlias(ledger, c, i) && ledger[i].evidenceId == id
    else id == c
  }

  predicate Known(ledger: seq<Entry>, id: string) {
    exists e :: e in ledger && e.evidenceId == id
  }

  lemma {:induction false} AliasesAreLast(ledger: seq<Entry>, c: string)
    ensures c in Aliases(ledger) <==> exists e :: e in ledger && AliasOf(e, c)
    ensures c in Aliases(ledger) ==>
              exists i :: 0 <= i < |ledger| && LastAlias(ledger, c, i) && ledger[i].evidenceId == Aliases(ledger)[c]
  {
    if ledger != [] {
      var init, last := ledger[..|ledger| - 1], ledger[|ledger| - 1];
      assert ledger == init + [last];
      AliasesAreLast(init, c);
      if AliasOf(last, c) {
        assert LastAlias(ledger, c, |ledger| - 1);
      } else if c in Aliases(init) {
        var i :| 0 <= i < |init| && LastAlias(init, c, i) && init[i].evidenceId == Aliases(init)[c];
        assert LastAlias(ledger, c, i);
      }
    }
  }

  lemma NamesExactlyWhen(ledger: seq<Entry>, c: string, id: string)
    ensures Names(ledger, c, id) <==> id == Resolve(ledger, c)
  {
    AliasesAreLast(ledger, c);
    hide Aliases, AliasOf;
  }

  /** The first citation that names `x` stands before every one that names `y`. */
  predicate NamedBefore(ledger: seq<Entry>, raw: seq<string>, x: string, y: string) {
    exists k :: 0 <= k < |raw| && Names(ledger, raw[k], x) && forall m :: 0 <= m <= k ==> !Names(ledger, raw[m], y)
  }

  /** The known evidence ids that the citations name, each once, in the order in which they are first named. */
  ghost predicate Cites(ledger: seq<Entry>, raw: seq<string>, ids: seq<string>) {
    Distinct(ids)
    && (forall id :: id in ids ==> Known(ledger, id) && exists c :: c in raw && Names(ledger, c, id))
    && (forall c, id :: c in raw && Names(ledger, c, id) && Known(ledger, id) ==> id in ids)
    && InNamedOrder(ledger, raw, ids)
  }

  predicate InNamedOrder(ledger: seq<Entry>, raw: seq<string>, ids: seq<string>) {
    forall i, j :: 0 <= i < j < |ids| ==> NamedBefore(ledger, raw, ids[i], ids[j])
  }

  function Resolved(ledger: seq<Entry>, raw: seq<string>): seq<string> {
    Filter((c: string) => c in ValidIds(ledger), Map((c: string) => Resolve(ledger, c), raw))
  }

  lemma ResolvedAdd(ledger: seq<Entry>, raw: seq<string>, c: string)
    ensures Resolved(ledger, raw + [c])
         == Resolved(ledger, raw) + if Resolve(ledger, c) in ValidIds(ledger) then [Resolve(ledger, c)] else []
  {
    hide ValidIds, Resolve;
    var resolve, valid := (c: string) => Resolve(ledger, c), (c: string) => c in ValidIds(ledger);
    MapAdd(resolve, raw, c);
    FilterAdd(valid, Map(resolve, raw), Resolve(ledger, c));
  }

  lemma NamedBeforeStays(ledger: seq<Entry>, raw: seq<string>, c: string, x: string, y: string)
    requires NamedBefore(ledger, raw, x, y)
    ensures NamedBefore(ledger, raw + [c], x, y)
  {
    hide Names;
    var k :| 0 <= k < |raw| && Names(ledger, raw[k], x) && forall m :: 0 <= m <= k ==> !Names(ledger, raw[m], y);
    assert (raw + [c])[k] == raw[k] && forall m :: 0 <= m <= k ==> (raw + [c])[m] == raw[m];
  }

  /** What is named for the first time at the end is named after all that was named before. */
  lemma NamedLast(ledger: seq<Entry>, raw: seq<string>, c: string, x: string)
    requires Resolve(ledger, c) !in Map((d: string) => Resolve(ledger, d), raw)
    requires x in Map((d: string) => Resolve(ledger, d), raw)
    ensures NamedBefore(ledger, raw + [c], x, Resolve(ledger, c))
  {
    forall d, id ensures Names(ledger, d, id) <==> id == Resolve(ledger, d) {
      NamesExactlyWhen(ledger, d, id);
    }
    hide Names, Resolve;
    var named := Map((d: string) => Resolve(ledger, d), raw);
    var k :| 0 <= k < |named| && named[k] == x;
    forall m | 0 <= m <= k ensures !Names(ledger, (raw + [c])[m], Resolve(ledger, c)) {
      assert named[m] in named;
    }
    assert Names(ledger, (raw + [c])[k], x);
  }

  lemma {:induction false} ResolvedIsNamed(ledger: seq<Entry>, raw: seq<string>)
    ensures forall id ::
              id in Resolved(ledger, raw) <==> Known(ledger, id) && exists c :: c in raw && Names(ledger, c, id)
  {
    forall d, id ensures Names(ledger, d, id) <==> id == Resolve(ledger, d) {
      NamesExactlyWhen(ledger, d, id);
    }
    hide Names, Resolve;
    var named := Map((d: string) => Resolve(ledger, d), raw);
    forall c | c in raw ensures Resolve(ledger, c) in named {
      var k :| 0 <= k < |raw| && raw[k] == c;
      assert named[k] == Resolve(ledger, c);
    }
    forall id | id in named ensures exists c :: c in raw && id == Resolve(ledger, c) {
      var k :| 0 <= k < |named| && named[k] == id;
      assert raw[k] in raw;
    }
    assert forall id :: id in ValidIds(ledger) <==> Known(ledger, id);
    hide Map, Filter, Known;
    forall id | exists c :: c in raw && Names(ledger, c, id) ensures id in named {}
  }

  lemma OneMoreNamed(ledger: seq<Entry>, raw: seq<string>, c: string, earlier: seq<string>, ids: seq<string>)
    requires InNamedOrder(ledger, raw, earlier)
    requires forall x :: x in earlier ==> x in Map((d: string) => Resolve(ledger, d), raw)
    requires ids == earlier
             || (ids == earlier + [Resolve(ledger, c)]
                 && Resolve(ledger, c) !in Map((d: string) => Resolve(ledger, d), raw))
    ensures InNamedOrder(ledger, raw + [c], ids)
  {
    hide NamedBefore, Resolve, Map;
    forall i, j | 0 <= i < j < |ids| ensures NamedBefore(ledger, raw + [c], ids[i], ids[j]) {
      assert ids[i] == earlier[i] && earlier[i] in earlier;
      if j < |earlier| {
        NamedBeforeStays(ledger, raw, c, ids[i], ids[j]);
      } else {
        NamedLast(ledger, raw, c, ids[i]);
      }
    }
  }

  lemma ResolvedAreMapped(ledger: seq<Entry>, raw: seq<string>)
    ensures forall x :: x in Resolved(ledger, raw) <==>
              x in Map((c: string) => Resolve(ledger, c), raw) && x in ValidIds(ledger)
  {
    hide Map, Resolve, ValidIds;
  }

  lemma {:induction false} DedupIsInOrder(ledger: seq<Entry>, raw: seq<string>)
    ensures InNamedOrder(ledger, raw, Dedup(Resolved(ledger, raw)))
  {
    if raw == [] {
      assert Dedup(Resolved(ledger, raw)) == [];
    } else {
      var init, c := raw[..|raw| - 1], raw[|raw| - 1];
      assert raw == init + [c];
      hide *;
      DedupIsInOrder(ledger, init);
      ResolvedAdd(ledger, init, c);
      ResolvedAreMapped(ledger, init);
      var before, id := Resolved(ledger, init), Resolve(ledger, c);
      DedupAdd(before, id);
      assert before + [] == before;
      OneMoreNamed(ledger, init, c, Dedup(before), Dedup(Resolved(ledger, raw)));
    }
  }

  lemma BeforeIsOneWay(ledger: seq<Entry>, raw: seq<string>, x: string, y: string)
    requires NamedBefore(ledger, raw, x, y)
    ensures !NamedBefore(ledger, raw, y, x)
  {
    hide Names;
  }

  /** Where two lists first differ, the other list holds the item further back. */
  lemma StandsLater(s: seq<string>, t: seq<string>, n: nat)
    requires n < |s| && n < |t| && s[..n] == t[..n] && s[n] != t[n] && Distinct(s) && s[n] in t
    ensures s[n] in t[n + 1..]
  {
    var j :| 0 <= j < |t| && t[j] == s[n];
    assert forall k :: 0 <= k < n ==> s[k] == s[..n][k] && t[k] == t[..n][k];
    assert t[n + 1..][j - n - 1] == t[j];
  }

  lemma InCitedOrder(ledger: seq<Entry>, raw: seq<string>, s: seq<string>, n: nat, x: string)
    requires Cites(ledger, raw, s) && n < |s| && x in s[n + 1..]
    ensures NamedBefore(ledger, raw, s[n], x)
  {
    hide NamedBefore, Names, Known;
    var j :| 0 <= j < |s[n + 1..]| && s[n + 1..][j] == x;
    assert s[n + 1 + j] == x;
  }

  lemma SameNext(ledger: seq<Entry>, raw: seq<string>, s: seq<string>, t: seq<string>, n: nat)
    requires Cites(ledger, raw, s) && Cites(ledger, raw, t) && n < |s| && n < |t| && s[..n] == t[..n]
    ensures s[n] == t[n]
  {
    SameElements(ledger, raw, s, t);
    hide Cites, NamedBefore, Names, Known, Distinct;
    if s[n] != t[n] {
      StandsLater(s, t, n);
      StandsLater(t, s, n);
      InCitedOrder(ledger, raw, s, n, t[n]);
      InCitedOrder(ledger, raw, t, n, s[n]);
      BeforeIsOneWay(ledger, raw, s[n], t[n]);
      assert false;
    }
  }

  /** There is only one list of such ids. */
  lemma {:induction false} OneOrder(ledger: seq<Entry>, raw: seq<string>, s: seq<string>, t: seq<string>, n: nat)
    requires Cites(ledger, raw, s) && Cites(ledger, raw, t) && n <= |s| && n <= |t| && s[..n] == t[..n]
    ensures s == t
    decreases |s| - n
  {
    hide *;
    if n < |s| && n < |t| {
      SameNext(ledger, raw, s, t, n);
      assert s[..n + 1] == s[..n] + [s[n]] && t[..n + 1] == t[..n] + [t[n]];
      OneOrder(ledger, raw, s, t, n + 1);
    } else {
      SameElements(ledger, raw, s, t);
      if n == |s| {
        NoneLeft(s, t);
      } else {
        NoneLeft(t, s);
      }
    }
  }

  lemma SameElements(ledger: seq<Entry>, raw: seq<string>, s: seq<string>, t: seq<string>)
    requires Cites(ledger, raw, s) && Cites(ledger, raw, t)
    ensures Distinct(s) && Distinct(t) && forall id :: id in s <==> id in t
  {
    hide NamedBefore, Names, Known;
  }

  lemma NotTwice(s: seq<string>, i: nat, j: nat)
    requires Distinct(s) && i < j < |s|
    ensures s[i] != s[j]
  {}

  lemma NoneLeft(s: seq<string>, t: seq<string>)
    requires s <= t && Distinct(t) && forall id :: id in t ==> id in s
    ensures s == t
  {
    hide Distinct;
    if |s| < |t| {
      assert t[|s|] in s;
      var k :| 0 <= k < |s| && s[k] == t[|s|];
      NotTwice(t, k, |s|);
      assert false;
    }
  }

  /** The citations a claim ends up with are exactly what its raw citations name. */
  lemma CitesExactlyWhen(cfg: Config, raw: seq<string>, ids: seq<string>)
    ensures Cites(cfg.ledger, raw, ids) <==> ids == Citations(cfg, raw)
  {
    ResolvedIsNamed(cfg.ledger, raw);
    DedupIsInOrder(cfg.ledger, raw);
    hide NamedBefore, Names, Known, Filter, Map, Resolve, ValidIds;
    assert Citations(cfg, raw) == Dedup(Resolved(cfg.ledger, raw));
    assert Cites(cfg.ledger, raw, Citations(cfg, raw));
    if Cites(cfg.ledger, raw, ids) {
      OneOrder(cfg.ledger, raw, ids, Citations(cfg, raw), 0);
    }
  }

  // ----- What a claim must be -----

  /** The last entry with this evidence id is external. */
  predicate IsExternal(ledger: seq<Entry>, id: string) {
    exists i :: 0 <= i < |ledger| && LastWith(ledger, id, i) && ledger[i].source.External?
  }

  predicate LastWith(ledger: seq<Entry>, id: string, i: nat) {
    i < |ledger| && ledger[i].evidenceId == id && forall j :: i < j < |ledger| ==> ledger[j].evidenceId != id
  }

  lemma {:induction false} ExternalExactlyWhen(ledger: seq<Entry>, id: string)
    ensures IsExternal(ledger, id) <==> SourceOf(ledger, id).External?
  {
    if ledger != [] {
      var init, last := ledger[..|ledger| - 1], ledger[|ledger| - 1];
      ExternalExactlyWhen(init, id);
      if last.evidenceId == id {
        assert LastWith(ledger, id, |ledger| - 1);
      } else {
        assert forall i :: LastWith(ledger, id, i) <==> LastWith(init, id, i);
      }
    }
  }

  /** Internal authority is enforced, the ledger holds internal evidence, and none but external evidence is cited. */
  predicate LacksAuthority(cfg: Config, ids: seq<string>) {
    cfg.enforceAuthority && (exists e :: e in cfg.ledger && e.source.InternalControlled?)
    && forall id :: id in ids ==> IsExternal(cfg.ledger, id)
  }

  /** The text tells totals although an entry cited shows only a bounded preview. */
  predicate Overstates(cfg: Config, text: string, ids: seq<string>) {
    cfg.overstates(text) && exists e :: e in cfg.ledger && e.evidenceId in ids && cfg.boundedPreview(e.content)
  }

  /** The claim a good fact makes: its cleaned text, with the known ids its citations name. */
  ghost predicate GoodFact(cfg: Config, payload: Payload, claim: Claim)
    requires payload.AnObject?
  {
    Cleaned(payload.text, claim.text) && Cites(cfg.ledger, payload.citations, claim.citations)
    && claim.text != "" && claim.citations != []
    && !LacksAuthority(cfg, claim.citations) && !Overstates(cfg, claim.text, claim.citations)
  }

  /** The claim a hypothesis makes: its cleaned text, reworded, with the known ids its citations name, if any. */
  ghost predicate GoodHypothesis(cfg: Config, payload: Payload, claim: Claim)
    requires payload.AnObject?
  {
    Cites(cfg.ledger, payload.citations, claim.citations)
    && exists text :: Cleaned(payload.text, text) && text != ""
         && claim.text == Replace(text, "根因是", "待验证假设是") && |claim.text| <= 2000
  }

  lemma FactIsJudged(cfg: Config, payload: Payload, claim: Claim)
    requires payload.AnObject? && payload.kind.Fact?
    ensures JudgeClaim(cfg, payload) == Accepted(claim) <==> GoodFact(cfg, payload, claim)
    ensures !JudgeClaim(cfg, payload).Raises?
  {
    var text, ids := CleanText(payload.text), Citations(cfg, payload.citations);
    CleanedExactlyWhen(payload.text, claim.text);
    CitesExactlyWhen(cfg, payload.citations, claim.citations);
    forall id ensures IsExternal(cfg.ledger, id) <==> SourceOf(cfg.ledger, id).External? {
      ExternalExactlyWhen(cfg.ledger, id);
    }
    hide Cleaned, Cites, Citations, IsExternal, SourceOf, Replace;
  }

  lemma HypothesisIsJudged(cfg: Config, payload: Payload, claim: Claim)
    requires payload.AnObject? && payload.kind.Hypothesis?
    ensures JudgeClaim(cfg, payload) == Accepted(claim) <==> GoodHypothesis(cfg, payload, claim)
  {
    var text := CleanText(payload.text);
    forall other ensures Cleaned(payload.text, other) <==> other == text {
      CleanedExactlyWhen(payload.text, other);
    }
    CitesExactlyWhen(cfg, payload.citations, claim.citations);
    RewordingSizes();
    ReplaceGrows(text, ROOT_CAUSE, TESTABLE);
    hide Cleaned, Cites, Citations, Replace, CleanText;
    assert Cleaned(payload.text, text);
  }

  // ----- The fact quoted in front of later units -----

  /** The first internal entry; without one the first that is not external; without one the first of all. */
  predicate Preferred(ledger: seq<Entry>, i: nat) {
    i < |ledger|
    && if exists e :: e in ledger && e.source.InternalControlled? then
         ledger[i].source.InternalControlled? && forall k :: 0 <= k < i ==> !ledger[k].source.InternalControlled?
       else if exists e :: e in ledger && !e.source.External? then
         !ledger[i].source.External? && forall k :: 0 <= k < i ==> ledger[k].source.External?
       else i == 0
  }

  lemma {:induction false} NoneFiltered(p: Entry -> bool, s: seq<Entry>)
    requires forall e :: e in s ==> !p(e)
    ensures Filter(p, s) == []
  {
    if s != [] {
      NoneFiltered(p, s[..|s| - 1]);
    }
  }

  lemma {:induction false} FirstFiltered(p: Entry -> bool, s: seq<Entry>)
    requires exists e :: e in s && p(e)
    ensures exists i :: 0 <= i < |s| && p(s[i]) && s[i] == Filter(p, s)[0] && forall k :: 0 <= k < i ==> !p(s[k])
  {
    var init, last := s[..|s| - 1], s[|s| - 1];
    assert s == init + [last];
    if exists e :: e in init && p(e) {
      FirstFiltered(p, init);
    } else {
      NoneFiltered(p, init);
      assert forall k :: 0 <= k < |init| ==> s[k] == init[k] && s[k] in init;
    }
  }

  lemma QuotedIsPreferred(ledger: seq<Entry>)
    requires ledger != []
    ensures exists i :: 0 <= i < |ledger| && Preferred(ledger, i) && ledger[i] == QuotedEntry(ledger)
  {
    var internal, nonExternal := (e: Entry) => e.source.InternalControlled?, (e: Entry) => !e.source.External?;
    if exists e :: e in ledger && internal(e) {
      FirstFiltered(internal, ledger);
      var i :| 0 <= i < |ledger| && internal(ledger[i]) && ledger[i] == Filter(internal, ledger)[0]
        && forall k :: 0 <= k < i ==> !internal(ledger[k]);
      assert Preferred(ledger, i);
    } else if exists e :: e in ledger && nonExternal(e) {
      FirstFiltered(nonExternal, ledger);
      var i :| 0 <= i < |ledger| && nonExternal(ledger[i]) && ledger[i] == Filter(nonExternal, ledger)[0]
        && forall k :: 0 <= k < i ==> !nonExternal(ledger[k]);
      NoneFiltered(internal, ledger);
      assert Preferred(ledger, i);
    } else {
      NoneFiltered(internal, ledger);
      NoneFiltered(nonExternal, ledger);
      assert Preferred(ledger, 0);
    }
  }

  lemma OnePreferred(ledger: seq<Entry>, i: nat, j: nat)
    requires Preferred(ledger, i) && Preferred(ledger, j)
    ensures i == j
  {}

  /** A fact has to be quoted from the ledger, and the preferred entry has no text. */
  predicate NothingToQuote(cfg: Config, core: Core) {
    core.facts == [] && exists i :: 0 <= i < |cfg.ledger| && Preferred(cfg.ledger, i) && cfg.ledger[i].content == ""
  }

  function QuoteOf(e: Entry): Claim {
    Claim(if |e.content| <= 360 then e.content else e.content[..360], [e.evidenceId])
  }

  /** The facts in front of a later unit: those there are, or a quote of the preferred entry. */
  predicate FactsInFront(cfg: Config, before: seq<Claim>, after: seq<Claim>) {
    if before != [] || cfg.ledger == [] then after == before
    else exists i :: 0 <= i < |cfg.ledger| && Preferred(cfg.ledger, i) && after == [QuoteOf(cfg.ledger[i])]
  }

  lemma EmitTouches(cfg: Config, core: Core)
    ensures var after := EmitGrowth(cfg, core).0;
            after == core.(rendered := after.rendered, emitted := after.emitted)
  {
    hide Shown;
  }

  lemma QuotedParts(cfg: Config, core: Core)
    requires Consistent(cfg, core)
    ensures var (quoted, failed) := AddQuotedFact(cfg, core);
            (failed.Some? <==> NothingToQuote(cfg, core)) && (failed.Some? ==> quoted == core)
            && (failed.None? ==>
                  FactsInFront(cfg, core.facts, quoted.facts)
                  && quoted == core.(facts := quoted.facts, rendered := quoted.rendered, warnings := quoted.warnings,
                                     emitted := quoted.emitted))
  {
    QuotingRaisesExactlyWhen(cfg, core);
    QuotedFactIsConsistent(cfg, core);
    if core.facts == [] && cfg.ledger != [] {
      QuotedIsPreferred(cfg.ledger);
      var i: nat :| 0 <= i < |cfg.ledger| && Preferred(cfg.ledger, i) && cfg.ledger[i] == QuotedEntry(cfg.ledger);
      forall j: nat | Preferred(cfg.ledger, j) ensures j == i {
        OnePreferred(cfg.ledger, i, j);
      }
      var quote := Claim(Take(cfg.ledger[i].content, MAX_QUOTE), [cfg.ledger[i].evidenceId]);
      assert quote == QuoteOf(cfg.ledger[i]);
      EmitTouches(cfg, Warn(core.(facts := [quote]), DeterministicFactAdded));
    }
    hide EmitGrowth, Preferred, Consistent, QuotedEntry;
  }

  // ----- One unit -----

  /** No later kind of unit has been met, and the confidence is not yet known. */
  predicate Follows(core: Core, order: int) { core.lastOrder <= order && core.confidence.None? }

  /** The core after a unit that changes `applied` no further than what is counted and shown. */
  predicate Counted(applied: Core, order: int, after: Core) {
    after == applied.(lastOrder := order, units := applied.units + 1, rendered := after.rendered,
                      emitted := after.emitted)
  }

  /** The core after a unit whose facts in front are in place. */
  predicate AfterApplying(cfg: Config, quoted: Core, payload: Payload, after: Core, error: Option<Error>)
    requires payload.AnObject? && !payload.kind.Unrecognised?
  {
    var (applied, _, raised) := ApplyUnit(cfg, quoted, payload);
    error == raised && if raised.Some? then after == applied else Counted(applied, Order(payload.kind), after)
  }

  lemma Applying(cfg: Config, quoted: Core, payload: Payload)
    requires Consistent(cfg, quoted) && quoted.confidence.None?
    requires payload.AnObject? && !payload.kind.Unrecognised? && Order(payload.kind) >= quoted.lastOrder
    requires Order(payload.kind) > 0 ==> cfg.ledger == [] || quoted.facts != []
    ensures var (applied, changed, raised) := ApplyUnit(cfg, quoted, payload);
            var counted := applied.(lastOrder := Order(payload.kind), units := applied.units + 1);
            if raised.Some? then AfterApplying(cfg, quoted, payload, applied, raised)
            else
              var (after, error) := if changed then EmitGrowth(cfg, counted) else (counted, None);
              AfterApplying(cfg, quoted, payload, after, error)
  {
    hide ApplyUnit, EmitGrowth, Consistent;
    CountedIsConsistent(cfg, quoted, payload);
    var applied := ApplyUnit(cfg, quoted, payload).0;
    EmitTouches(cfg, applied.(lastOrder := Order(payload.kind), units := applied.units + 1));
  }

  lemma UnitOutOfOrder(cfg: Config, core: Core, payload: Payload)
    requires payload.AnObject? && !payload.kind.Unrecognised? && !Follows(core, Order(payload.kind))
    ensures var (after, error) := ProcessUnit(cfg, core, payload);
            error.None? && after == core.(warnings := after.warnings)
  {
    hide ApplyUnit, EmitGrowth, AddQuotedFact;
  }

  lemma UnitInOrder(cfg: Config, core: Core, payload: Payload)
    requires Consistent(cfg, core) && payload.AnObject? && !payload.kind.Unrecognised?
    requires Follows(core, Order(payload.kind))
    ensures var (after, error) := ProcessUnit(cfg, core, payload);
            if payload.kind.Fact? then AfterApplying(cfg, core, payload, after, error)
            else
              var (quoted, failed) := AddQuotedFact(cfg, core);
              if failed.Some? then after == quoted && error == failed
              else AfterApplying(cfg, quoted, payload, after, error)
  {
    hide ApplyUnit, EmitGrowth, Consistent, AddQuotedFact, AfterApplying;
    QuotedFactIsConsistent(cfg, core);
    var (quoted, failed) := if payload.kind.Fact? then (core, None) else AddQuotedFact(cfg, core);
    if failed.None? {
      Applying(cfg, quoted, payload);
    }
  }

  /** What a unit leaves alone besides the lists and the confidence. */
  predicate OnlyBookkeeping(core: Core, after: Core) {
    after == core.(lastOrder := after.lastOrder, units := after.units, rendered := after.rendered,
                   warnings := after.warnings, emitted := after.emitted)
  }

  lemma OneLast<T>(s: seq<T>)
    ensures forall x, y :: s + [x] == s + [y] ==> x == y
    ensures forall x :: s + [x] != s
  {
    forall x, y | s + [x] == s + [y] ensures x == y {
      assert (s + [x])[|s|] == (s + [y])[|s|];
    }
    assert forall x :: |s + [x]| == |s| + 1;
  }

  lemma FactApplied(cfg: Config, core: Core, payload: Payload, after: Core, error: Option<Error>)
    requires payload.AnObject? && payload.kind.Fact? && AfterApplying(cfg, core, payload, after, error)
    ensures error.None? && (after.facts == core.facts || exists claim :: after.facts == core.facts + [claim])
            && (forall claim :: after.facts == core.facts + [claim] <==> GoodFact(cfg, payload, claim))
            && OnlyBookkeeping(core.(facts := after.facts), after)
            && after.lastOrder == 0 && after.units == core.units + 1
  {
    forall claim ensures JudgeClaim(cfg, payload) == Accepted(claim) <==> GoodFact(cfg, payload, claim) {
      FactIsJudged(cfg, payload, claim);
    }
    FactIsJudged(cfg, payload, Claim("", []));
    OneLast(core.facts);
    hide JudgeClaim, GoodFact;
  }

  /**
   * A fact is appended, with nothing else changed, if and only if no later kind of unit was met before it, its
   * stripped text is not empty, it names a known entry, the authority rule does not exclude it and it does not
   * overstate a preview it cites; the fact is then its cleaned text with its citations resolved.
   */
  lemma FactIsTakenExactlyWhen(cfg: Config, core: Core, payload: Payload)
    requires Consistent(cfg, core) && payload.AnObject? && payload.kind.Fact?
    ensures var (after, error) := ProcessUnit(cfg, core, payload);
            error.None? && (after.facts == core.facts || exists claim :: after.facts == core.facts + [claim])
            && (forall claim :: after.facts == core.facts + [claim] <==>
                  Follows(core, 0) && GoodFact(cfg, payload, claim))
            && OnlyBookkeeping(core.(facts := after.facts), after)
            && after.lastOrder == (if Follows(core, 0) then 0 else core.lastOrder)
            && after.units == core.units + if Follows(core, 0) then 1 else 0
  {
    hide ProcessUnit, GoodFact, AfterApplying, Consistent;
    var (after, error) := ProcessUnit(cfg, core, payload);
    if Follows(core, 0) {
      UnitInOrder(cfg, core, payload);
      FactApplied(cfg, core, payload, after, error);
    } else {
      UnitOutOfOrder(cfg, core, payload);
    }
  }

  lemma HypothesisApplied(cfg: Config, core: Core, payload: Payload, after: Core, error: Option<Error>)
    requires payload.AnObject? && payload.kind.Hypothesis? && AfterApplying(cfg, core, payload, after, error)
    ensures (after.hypotheses == core.hypotheses
             || exists claim :: after.hypotheses == core.hypotheses + [claim])
            && (forall claim :: after.hypotheses == core.hypotheses + [claim] <==>
                  GoodHypothesis(cfg, payload, claim))
            && OnlyBookkeeping(core.(hypotheses := after.hypotheses), after)
            && (error.None? ==> after.lastOrder == 1 && after.units == core.units + 1)
  {
    forall claim ensures JudgeClaim(cfg, payload) == Accepted(claim) <==> GoodHypothesis(cfg, payload, claim) {
      HypothesisIsJudged(cfg, payload, claim);
    }
    OneLast(core.hypotheses);
    hide JudgeClaim, GoodHypothesis;
  }

  /** A unit of a later kind is looked at: it is in order, and a fact stands in front of it or can be quoted. */
  predicate Reached(cfg: Config, core: Core, order: int) {
    Follows(core, order) && !NothingToQuote(cfg, core)
  }

  /** A later unit is in front of its own list only: the facts are those there were, or a quote if there were none. */
  predicate FactsPlaced(cfg: Config, core: Core, order: int, after: Core) {
    if Reached(cfg, core, order) then FactsInFront(cfg, core.facts, after.facts) else after.facts == core.facts
  }

  /** A hypothesis, reworded and with whatever known entries it names, is taken whenever it is reached and fits. */
  lemma HypothesisIsTakenExactlyWhen(cfg: Config, core: Core, payload: Payload)
    requires Consistent(cfg, core) && payload.AnObject? && payload.kind.Hypothesis?
    ensures var (after, error) := ProcessUnit(cfg, core, payload);
            (after.hypotheses == core.hypotheses || exists claim :: after.hypotheses == core.hypotheses + [claim])
            && (forall claim :: after.hypotheses == core.hypotheses + [claim] <==>
                  Reached(cfg, core, 1) && GoodHypothesis(cfg, payload, claim))
            && FactsPlaced(cfg, core, 1, after)
            && OnlyBookkeeping(core.(facts := after.facts, hypotheses := after.hypotheses), after)
            && (error.None? && Follows(core, 1) ==> after.lastOrder == 1 && after.units == core.units + 1)
  {
    hide ProcessUnit, GoodHypothesis, AfterApplying, Consistent, FactsInFront, NothingToQuote, AddQuotedFact;
    var (after, error) := ProcessUnit(cfg, core, payload);
    if Follows(core, 1) {
      QuotedParts(cfg, core);
      UnitInOrder(cfg, core, payload);
      if AddQuotedFact(cfg, core).1.None? {
        HypothesisApplied(cfg, AddQuotedFact(cfg, core).0, payload, after, error);
      }
    } else {
      UnitOutOfOrder(cfg, core, payload);
    }
  }

  lemma TextApplied(cfg: Config, core: Core, payload: Payload, after: Core, error: Option<Error>)
    requires payload.AnObject? && (payload.kind.Unknown? || payload.kind.NextAction?)
    requires AfterApplying(cfg, core, payload, after, error)
    ensures var (before, list) := if payload.kind.Unknown? then (core.unknowns, after.unknowns)
                                  else (core.nextActions, after.nextActions);
            error.None? && (list == before || exists text :: list == before + [text])
            && (forall text :: list == before + [text] <==> Cleaned(payload.text, text) && text != "")
            && OnlyBookkeeping(core.(unknowns := after.unknowns, nextActions := after.nextActions), after)
            && (payload.kind.Unknown? ==> after.nextActions == core.nextActions)
            && (payload.kind.NextAction? ==> after.unknowns == core.unknowns)
            && after.lastOrder == Order(payload.kind) && after.units == core.units + 1
  {
    forall text ensures text == CleanText(payload.text) <==> Cleaned(payload.text, text) {
      CleanedExactlyWhen(payload.text, text);
    }
    OneLast(core.unknowns);
    OneLast(core.nextActions);
    hide CleanText, Cleaned;
  }

  /** A named gap is taken, cleaned, whenever it is reached and says something. */
  lemma UnknownIsTakenExactlyWhen(cfg: Config, core: Core, payload: Payload)
    requires Consistent(cfg, core) && payload.AnObject? && payload.kind.Unknown?
    ensures var (after, error) := ProcessUnit(cfg, core, payload);
            (after.unknowns == core.unknowns || exists text :: after.unknowns == core.unknowns + [text])
            && (forall text :: after.unknowns == core.unknowns + [text] <==>
                  Reached(cfg, core, 2) && Cleaned(payload.text, text) && text != "")
            && FactsPlaced(cfg, core, 2, after)
            && OnlyBookkeeping(core.(facts := after.facts, unknowns := after.unknowns), after)
            && (Reached(cfg, core, 2) ==> after.lastOrder == 2 && after.units == core.units + 1)
            && (error.Some? <==> Follows(core, 2) && NothingToQuote(cfg, core))
  {
    hide ProcessUnit, Cleaned, AfterApplying, Consistent, FactsInFront, NothingToQuote, AddQuotedFact;
    var (after, error) := ProcessUnit(cfg, core, payload);
    if Follows(core, 2) {
      QuotedParts(cfg, core);
      UnitInOrder(cfg, core, payload);
      if AddQuotedFact(cfg, core).1.None? {
        TextApplied(cfg, AddQuotedFact(cfg, core).0, payload, after, error);
      }
    } else {
      UnitOutOfOrder(cfg, core, payload);
    }
  }

  /** A next action is taken, cleaned, whenever it is reached and says something. */
  lemma NextActionIsTakenExactlyWhen(cfg: Config, core: Core, payload: Payload)
    requires Consistent(cfg, core) && payload.AnObject? && payload.kind.NextAction?
    ensures var (after, error) := ProcessUnit(cfg, core, payload);
            (after.nextActions == core.nextActions || exists text :: after.nextActions == core.nextActions + [text])
            && (forall text :: after.nextActions == core.nextActions + [text] <==>
                  Reached(cfg, core, 3) && Cleaned(payload.text, text) && text != "")
            && FactsPlaced(cfg, core, 3, after)
            && OnlyBookkeeping(core.(facts := after.facts, nextActions := after.nextActions), after)
            && (Reached(cfg, core, 3) ==> after.lastOrder == 3 && after.units == core.units + 1)
            && (error.Some? <==> Follows(core, 3) && NothingToQuote(cfg, core))
  {
    hide ProcessUnit, Cleaned, AfterApplying, Consistent, FactsInFront, NothingToQuote, AddQuotedFact;
    var (after, error) := ProcessUnit(cfg, core, payload);
    if Follows(core, 3) {
      QuotedParts(cfg, core);
      UnitInOrder(cfg, core, payload);
      if AddQuotedFact(cfg, core).1.None? {
        TextApplied(cfg, AddQuotedFact(cfg, core).0, payload, after, error);
      }
    } else {
      UnitOutOfOrder(cfg, core, payload);
    }
  }

  lemma ConfidenceApplied(cfg: Config, core: Core, payload: Payload, after: Core, error: Option<Error>)
    requires payload.AnObject? && payload.kind.ConfidenceUnit? && AfterApplying(cfg, core, payload, after, error)
    ensures error.None? && after.confidence == (if payload.level.Some? then payload.level else Some(Low))
            && OnlyBookkeeping(core.(confidence := after.confidence), after)
            && after.lastOrder == 4 && after.units == core.units + 1
  {}

  /** The first confidence reached is the one that counts, a level that is none of the three being low. */
  lemma ConfidenceIsTakenExactlyWhen(cfg: Config, core: Core, payload: Payload)
    requires Consistent(cfg, core) && payload.AnObject? && payload.kind.ConfidenceUnit?
    ensures var (after, error) := ProcessUnit(cfg, core, payload);
            after.confidence == (if !Reached(cfg, core, 4) then core.confidence
                                 else if payload.level.Some? then payload.level else Some(Low))
            && FactsPlaced(cfg, core, 4, after)
            && OnlyBookkeeping(core.(facts := after.facts, confidence := after.confidence), after)
            && (error.Some? <==> Follows(core, 4) && NothingToQuote(cfg, core))
  {
    hide ProcessUnit, AfterApplying, Consistent, FactsInFront, NothingToQuote, AddQuotedFact;
    var (after, error) := ProcessUnit(cfg, core, payload);
    if Follows(core, 4) {
      QuotedParts(cfg, core);
      UnitInOrder(cfg, core, payload);
      if AddQuotedFact(cfg, core).1.None? {
        ConfidenceApplied(cfg, AddQuotedFact(cfg, core).0, payload, after, error);
      }
    } else {
      UnitOutOfOrder(cfg, core, payload);
    }
  }

  /** What a fact that is looked at adds to the warnings: nothing if it is taken, else the first rule it breaks. */
  lemma FactWarnings(cfg: Config, core: Core, payload: Payload, text: string, ids: seq<string>)
    requires Consistent(cfg, core) && payload.AnObject? && payload.kind.Fact? && Follows(core, 0)
    requires Cleaned(payload.text, text) && Cites(cfg.ledger, payload.citations, ids)
    ensures ProcessUnit(cfg, core, payload).0.warnings
         == core.warnings + if text == "" then [EmptyClaimRemoved]
                            else if ids == [] then [NoValidCitation]
                            else if LacksAuthority(cfg, ids) then [ExternalOnlyRemoved]
                            else if Overstates(cfg, text, ids) then [PreviewTotalRemoved] else []
  {
    CleanedExactlyWhen(payload.text, text);
    CitesExactlyWhen(cfg, payload.citations, ids);
    forall id ensures IsExternal(cfg.ledger, id) <==> SourceOf(cfg.ledger, id).External? {
      ExternalExactlyWhen(cfg.ledger, id);
    }
    UnitInOrder(cfg, core, payload);
    hide ProcessUnit, Cleaned, Cites, IsExternal, SourceOf, Citations, CleanText, Consistent;
  }

  // ----- What is shown -----

  /** Only a change of the answer is shown, and it is shown at once. */
  predicate ShowsChanges(cfg: Config, core: Core, after: Core) {
    if AnswerOf(after) == AnswerOf(core) && after.confidence == core.confidence
    then after.rendered == core.rendered && after.emitted == core.emitted
    else after.rendered == Shown(cfg, after)
  }

  lemma EmittingShows(cfg: Config, core: Core, grown: Core)
    requires Consistent(cfg, core) && core.confidence.None? && Extends(AnswerOf(core), AnswerOf(grown))
    requires grown.rendered == core.rendered && grown.emitted == core.emitted
    ensures var (after, error) := EmitGrowth(cfg, grown);
            error.None? && after.rendered == Shown(cfg, grown) && Shown(cfg, grown) == Shown(cfg, after)
  {
    hide ShownText, Concat;
    ShownGrows(cfg, core, grown);
  }

  lemma QuotingShows(cfg: Config, core: Core)
    requires Consistent(cfg, core) && core.confidence.None?
    ensures ShowsChanges(cfg, core, AddQuotedFact(cfg, core).0)
  {
    QuotedFactIsConsistent(cfg, core);
    hide ShownText, EmitGrowth, QuotedEntry, Concat;
    if core.facts == [] && cfg.ledger != [] {
      var e := QuotedEntry(cfg.ledger);
      var text := Take(e.content, MAX_QUOTE);
      if ValidClaimText(text) {
        var grown := Warn(core.(facts := [Claim(text, [e.evidenceId])]), DeterministicFactAdded);
        EmitTouches(cfg, grown);
        EmittingShows(cfg, core, grown);
      }
    }
  }

  /** The unit is dropped without a change, or appended, or sets the confidence. */
  lemma ApplyingChanges(cfg: Config, core: Core, payload: Payload)
    requires payload.AnObject? && !payload.kind.Unrecognised? && core.confidence.None?
    ensures var (applied, changed, _) := ApplyUnit(cfg, core, payload);
            changed <==> AnswerOf(applied) != AnswerOf(core) || applied.confidence != core.confidence
  {
    hide JudgeClaim, CleanText;
    OneLast(core.facts);
    OneLast(core.hypotheses);
    OneLast(core.unknowns);
    OneLast(core.nextActions);
  }

  lemma AppliedShows(cfg: Config, core: Core, payload: Payload)
    requires Consistent(cfg, core) && core.confidence.None?
    requires payload.AnObject? && !payload.kind.Unrecognised? && Order(payload.kind) >= core.lastOrder
    ensures var (applied, changed, raised) := ApplyUnit(cfg, core, payload);
            var counted := applied.(lastOrder := Order(payload.kind), units := applied.units + 1);
            var shown := if changed then EmitGrowth(cfg, counted).0 else counted;
            ShowsChanges(cfg, core, if raised.Some? then applied else shown)
  {
    ApplyExtends(cfg, core, payload);
    ApplyingChanges(cfg, core, payload);
    hide ApplyUnit, EmitGrowth, ShownText, Concat, Consistent;
    var (applied, changed, raised) := ApplyUnit(cfg, core, payload);
    var counted := applied.(lastOrder := Order(payload.kind), units := applied.units + 1);
    EmitTouches(cfg, counted);
    if raised.None? && changed {
      EmittingShows(cfg, core, counted);
    }
  }

  lemma ShowsBoth(cfg: Config, core: Core, quoted: Core, after: Core)
    requires ShowsChanges(cfg, core, quoted) && ShowsChanges(cfg, quoted, after)
    requires core.facts == quoted.facts || (core.facts == [] && after.facts != [])
    requires quoted == core.(facts := quoted.facts, rendered := quoted.rendered, warnings := quoted.warnings,
                             emitted := quoted.emitted)
    ensures ShowsChanges(cfg, core, after)
  {
    hide ShownText;
  }

  /** Every unit shows the answer it leaves exactly if it changes it, by an unused unit or a repeated one nothing. */
  lemma OnlyChangesAreShown(cfg: Config, core: Core, payload: Payload)
    requires Consistent(cfg, core)
    ensures ShowsChanges(cfg, core, ProcessUnit(cfg, core, payload).0)
  {
    hide ApplyUnit, EmitGrowth, Consistent, AddQuotedFact, ShowsChanges;
    assert forall warnings :: ShowsChanges(cfg, core, core.(warnings := warnings)) by {
      WarningsAreNotShown(cfg, core);
    }
    assert core.(warnings := core.warnings) == core;
    if payload.AnObject? && !payload.kind.Unrecognised? && Follows(core, Order(payload.kind)) {
      var order, after := Order(payload.kind), ProcessUnit(cfg, core, payload).0;
      if order == 0 {
        AppliedShows(cfg, core, payload);
      } else {
        QuotedFactIsConsistent(cfg, core);
        QuotingShows(cfg, core);
        QuotedParts(cfg, core);
        var (quoted, failed) := AddQuotedFact(cfg, core);
        if failed.None? {
          AppliedShows(cfg, quoted, payload);
          QuotedOrNot(cfg, core);
          LaterUnitKeepsFacts(cfg, quoted, payload);
          ShowsBoth(cfg, core, quoted, after);
        }
      }
    }
  }

  lemma WarningsAreNotShown(cfg: Config, core: Core)
    ensures forall warnings :: ShowsChanges(cfg, core, core.(warnings := warnings))
  {}

  lemma QuotedOrNot(cfg: Config, core: Core)
    ensures var quoted := AddQuotedFact(cfg, core).0;
            core.facts == quoted.facts || (core.facts == [] && quoted.facts != [])
  {
    hide Shown, QuotedEntry;
  }

  lemma LaterUnitKeepsFacts(cfg: Config, core: Core, payload: Payload)
    requires payload.AnObject? && !payload.kind.Unrecognised? && Order(payload.kind) > 0
    ensures var applied := ApplyUnit(cfg, core, payload).0;
            applied.facts == core.facts
            && forall order, units ::
                 EmitGrowth(cfg, applied.(lastOrder := order, units := units)).0.facts == core.facts
  {
    hide JudgeClaim, CleanText, Shown;
  }

  // ----- When the stream finishes -----

  /** What is left of the text when no more units can be read is empty, or the fence that closes a code block. */
  predicate NothingLeft(rest: string) {
    WhiteOnly(rest) || Strip(rest) == "```"
  }

  /**
   * Finishing returns an answer if and only if no unit still to be read raises, nothing but a closing fence is left
   * over, some unit was processed, and a fact stands or can be quoted; else it raises for the first of these.
   */
  lemma FinishesExactlyWhen(cfg: Config, core: Core, buffer: string)
    requires Consistent(cfg, core)
    ensures var d := Drain(JSON_LEXER, UnitProcessor(cfg), core, buffer);
            var (after, error) := Finish(cfg, core, buffer);
            error == if d.error.Some? then d.error
                     else if !NothingLeft(d.buffer) then Some(InvalidJson)
                     else if d.state.units == 0 then Some(NoUnits)
                     else if NothingToQuote(cfg, d.state) then Some(InvalidClaim) else None
    ensures var d := Drain(JSON_LEXER, UnitProcessor(cfg), core, buffer);
            var (after, error) := Finish(cfg, core, buffer);
            error.None? ==>
              FactsInFront(cfg, d.state.facts, after.facts)
              && AnswerOf(after) == AnswerOf(d.state).(facts := after.facts)
  {
    hide UnitProcessor, Consistent, Shown, QuotedEntry, NothingToQuote, Strip, FactsInFront;
    FinalDrainIsConsistent(cfg, core, buffer);
    var d := Drain(JSON_LEXER, UnitProcessor(cfg), core, buffer);
    BlankExactlyWhen(d.buffer);
    assert d.buffer == "" ==> WhiteOnly(d.buffer);
    if d.error.None? && NothingLeft(d.buffer) {
      var state := FinalDrain(cfg, core, buffer).state;
      ConcludesExactlyWhen(cfg, state);
      hide Conclude;
    }
  }

  lemma ConcludesExactlyWhen(cfg: Config, core: Core)
    requires Consistent(cfg, core)
    ensures var (after, error) := Conclude(cfg, core);
            error == (if core.units == 0 then Some(NoUnits)
                      else if NothingToQuote(cfg, core) then Some(InvalidClaim) else None)
            && (error.None? ==>
                  FactsInFront(cfg, core.facts, after.facts)
                  && AnswerOf(after) == AnswerOf(core).(facts := after.facts))
  {
    QuotedParts(cfg, core);
    QuotedFactIsConsistent(cfg, core);
    ConcludeIsExact(cfg, core);
    hide AddQuotedFact, EmitGrowth, Consistent, NothingToQuote, FactsInFront, Formatted;
    var quoted := AddQuotedFact(cfg, core).0;
    var shown := Warn(quoted, ConfidenceDefaulted).(confidence := Some(Low));
    EmitTouches(cfg, shown);
  }

  // ----- What is taken is answered -----

  /** Lists only grow at their ends, and a confidence once known stays. */
  predicate Grows(before: Core, after: Core) {
    before.facts <= after.facts && before.hypotheses <= after.hypotheses && before.unknowns <= after.unknowns
    && before.nextActions <= after.nextActions
    && (before.confidence.Some? ==> after.confidence == before.confidence)
  }

  lemma QuotingGrows(cfg: Config, core: Core)
    ensures Grows(core, AddQuotedFact(cfg, core).0)
  {
    hide Shown, QuotedEntry;
  }

  lemma ApplyingGrows(cfg: Config, core: Core, payload: Payload)
    requires payload.AnObject? && !payload.kind.Unrecognised? && core.confidence.None?
    ensures Grows(core, ApplyUnit(cfg, core, payload).0)
  {
    hide JudgeClaim, CleanText;
  }

  lemma EmittingGrows(cfg: Config, before: Core, core: Core)
    requires Grows(before, core)
    ensures Grows(before, EmitGrowth(cfg, core).0)
  {
    EmitTouches(cfg, core);
    hide EmitGrowth;
  }

  lemma GrowsOnAndOn(a: Core, b: Core, c: Core)
    requires Grows(a, b) && Grows(b, c)
    ensures Grows(a, c)
  {}

  lemma QuotingKeepsConfidence(cfg: Config, core: Core)
    ensures AddQuotedFact(cfg, core).0.confidence == core.confidence
  {
    hide Shown, QuotedEntry;
  }

  lemma UnitGrows(cfg: Config, core: Core, payload: Payload)
    ensures Grows(core, ProcessUnit(cfg, core, payload).0)
  {
    QuotingGrows(cfg, core);
    QuotingKeepsConfidence(cfg, core);
    hide ApplyUnit, EmitGrowth, AddQuotedFact;
    if payload.AnObject? && !payload.kind.Unrecognised? && Follows(core, Order(payload.kind)) {
      var order := Order(payload.kind);
      var quoted := if order > 0 then AddQuotedFact(cfg, core).0 else core;
      ApplyingGrows(cfg, quoted, payload);
      var applied := ApplyUnit(cfg, quoted, payload).0;
      GrowsOnAndOn(core, quoted, applied);
      EmittingGrows(cfg, core, applied.(lastOrder := order, units := applied.units + 1));
    }
  }

  lemma UnitsGrow(cfg: Config, start: Core)
    ensures Keeps(UnitProcessor(cfg), (core: Core) => Grows(start, core), (error: Error) => true)
  {
    hide ProcessUnit, Grows;
    forall core, unit | Grows(start, core)
      ensures Grows(start, UnitProcessor(cfg)(core, unit).0)
    {
      UnitGrows(cfg, core, cfg.decode(unit));
      GrowsOnAndOn(start, core, ProcessUnit(cfg, core, cfg.decode(unit)).0);
    }
  }

  lemma ConcludingGrows(cfg: Config, core: Core)
    ensures Grows(core, Conclude(cfg, core).0)
  {
    QuotingGrows(cfg, core);
    QuotingKeepsConfidence(cfg, core);
    hide AddQuotedFact, EmitGrowth;
    var quoted := AddQuotedFact(cfg, core).0;
    if quoted.confidence.None? {
      EmittingGrows(cfg, core, Warn(quoted, ConfidenceDefaulted).(confidence := Some(Low)));
    }
  }

  lemma FinishGrows(cfg: Config, core: Core, buffer: string)
    ensures Grows(core, Finish(cfg, core, buffer).0)
  {
    hide Conclude, Grows, UnitProcessor;
    UnitsGrow(cfg, core);
    assert Grows(core, core) by { GrowsFromHere(core); }
    DrainKeeps(JSON_LEXER, UnitProcessor(cfg), (after: Core) => Grows(core, after), (error: Error) => true, core,
      buffer);
    var d := FinalDrain(cfg, core, buffer);
    ConcludingGrows(cfg, d.state);
    GrowsOnAndOn(core, d.state, Conclude(cfg, d.state).0);
  }

  lemma GrowsFromHere(core: Core)
    ensures Grows(core, core)
  {}

  lemma FeedingGrows(cfg: Config, start: Core, core: Core, buffer: string, chunk: string)
    requires Grows(start, core)
    ensures Grows(start, FeedAll(JSON_LEXER, UnitProcessor(cfg), core, buffer, [chunk]).state)
  {
    hide Grows, UnitProcessor;
    UnitsGrow(cfg, start);
    FeedAllKeeps(JSON_LEXER, UnitProcessor(cfg), (after: Core) => Grows(start, after), (error: Error) => true, core,
      buffer, [chunk]);
  }

  lemma DeliveredAdd(cfg: Config, chunks: seq<string>, chunk: string)
    ensures var d := Delivered(JSON_LEXER, UnitProcessor(cfg), EMPTY, chunks);
            Delivered(JSON_LEXER, UnitProcessor(cfg), EMPTY, chunks + [chunk])
            == FeedAll(JSON_LEXER, UnitProcessor(cfg), d.state, d.buffer, [chunk])
  {
    hide UnitProcessor, FeedAll;
    assert (chunks + [chunk])[..|chunks|] == chunks;
  }

  lemma {:induction false} DeliveringGrows(cfg: Config, first: seq<string>, later: seq<string>)
    ensures Grows(Delivered(JSON_LEXER, UnitProcessor(cfg), EMPTY, first).state,
                  Delivered(JSON_LEXER, UnitProcessor(cfg), EMPTY, first + later).state)
  {
    hide *;
    var start := Delivered(JSON_LEXER, UnitProcessor(cfg), EMPTY, first).state;
    if later == [] {
      assert first + later == first;
      GrowsFromHere(start);
    } else {
      var init, last := later[..|later| - 1], later[|later| - 1];
      assert first + later == (first + init) + [last];
      DeliveringGrows(cfg, first, init);
      DeliveredAdd(cfg, first + init, last);
      var d := Delivered(JSON_LEXER, UnitProcessor(cfg), EMPTY, first + init);
      FeedingGrows(cfg, start, d.state, d.buffer, last);
    }
  }

  /**
   * What stands in the lists after some deltas stands at the same place of the finished answer, whatever deltas
   * follow, raising or not; so does the confidence once it is known.
   */
  lemma TakenIsAnswered(cfg: Config, first: seq<string>, later: seq<string>)
    ensures var core := Delivered(JSON_LEXER, UnitProcessor(cfg), EMPTY, first).state;
            match FinishedAnswer(cfg, first + later)
            case None => true
            case Some(a) =>
              core.facts <= a.facts && core.hypotheses <= a.hypotheses && core.unknowns <= a.unknowns
              && core.nextActions <= a.nextActions
              && (core.confidence.Some? ==> a.confidence == core.confidence.value)
  {
    DeliveringGrows(cfg, first, later);
    var d := Delivered(JSON_LEXER, UnitProcessor(cfg), EMPTY, first + later);
    FinishGrows(cfg, d.state, d.buffer);
    hide Finish, Delivered, UnitProcessor;
  }
}
