/** The evidence ledger as the graph builds it from retrieved chunks, tool facts and web pages. */
module EvidenceLedger {
  import opened AnswerAssembler
  import opened AnswerVerification
  import opened LedgerStability
  import opened Sequences

  datatype Chunk = Chunk(chunkId: string, documentId: string, text: string)

  datatype ToolFact = ToolFact(evidenceId: string, fact: string)

  /** A web result; `key` is its address, or its position where it has none. */
  datatype WebItem = WebItem(external: bool, key: string, content: string)

  const CHUNK := "chunk:"
  const EXTERNAL := "external:"

  function ChunkEntry(c: Chunk): Entry {
    Entry(CHUNK + c.chunkId, InternalControlled, Take(c.text, 1600), c.chunkId, c.documentId)
  }

  function FactEntry(f: ToolFact): Entry {
    Entry(f.evidenceId, SimulatedLiveData, f.fact, "", "")
  }

  function WebEntry(digest: string -> string, item: WebItem): Entry {
    Entry(EXTERNAL + digest(item.key), External, Take(item.content, 1200), "", "")
  }

  function WebEntries(digest: string -> string, items: seq<WebItem>): seq<Entry> {
    if items == [] then []
    else
      WebEntries(digest, items[..|items| - 1])
      + if items[|items| - 1].external then [WebEntry(digest, items[|items| - 1])] else []
  }

  function Built(chunks: seq<Chunk>, facts: seq<ToolFact>, items: seq<WebItem>, digest: string -> string): seq<Entry> {
    Map(ChunkEntry, chunks) + Map(FactEntry, facts) + WebEntries(digest, items)
  }

  /** `_build_evidence_ledger`; `digest` is the shortened hash of a key. */
  method BuildEvidenceLedger(chunks: seq<Chunk>, facts: seq<ToolFact>, items: seq<WebItem>, digest: string -> string)
    returns (ledger: seq<Entry>)
    ensures ledger == Built(chunks, facts, items, digest)
  {
    hide ChunkEntry, FactEntry, WebEntry;
    ledger := [];
    for i := 0 to |chunks|
      invariant ledger == Map(ChunkEntry, chunks[..i])
    {
      assert chunks[..i + 1] == chunks[..i] + [chunks[i]];
      MapAdd(ChunkEntry, chunks[..i], chunks[i]);
      ledger := ledger + [ChunkEntry(chunks[i])];
    }
    assert chunks[..|chunks|] == chunks;
    for i := 0 to |facts|
      invariant ledger == Map(ChunkEntry, chunks) + Map(FactEntry, facts[..i])
    {
      assert facts[..i + 1] == facts[..i] + [facts[i]];
      MapAdd(FactEntry, facts[..i], facts[i]);
      ledger := ledger + [FactEntry(facts[i])];
    }
    assert facts[..|facts|] == facts;
    ghost var before := ledger;
    for i := 0 to |items|
      invariant ledger == before + WebEntries(digest, items[..i])
    {
      assert items[..i + 1][..i] == items[..i];
      if items[i].external {
        ledger := ledger + [WebEntry(digest, items[i])];
      }
    }
    assert items[..|items|] == items;
  }

  /** No chunk or document id is the evidence id of a chunk. */
  predicate PlainIds(chunks: seq<Chunk>) {
    forall c, d :: c in chunks && d in chunks ==> d.chunkId != CHUNK + c.chunkId && d.documentId != CHUNK + c.chunkId
  }

  lemma {:induction false} WebEntriesAreExternal(digest: string -> string, items: seq<WebItem>)
    ensures forall e :: e in WebEntries(digest, items) ==>
              e.source == External && e.chunkId == "" && e.documentId == ""
              && exists item :: e == WebEntry(digest, item)
  {
    if items != [] {
      WebEntriesAreExternal(digest, items[..|items| - 1]);
    }
  }

  /** An entry of a built ledger: only chunks are controlled and have aliases, only web pages are external. */
  lemma BuiltEntry(chunks: seq<Chunk>, facts: seq<ToolFact>, items: seq<WebItem>, digest: string -> string, e: Entry)
    requires e in Built(chunks, facts, items, digest)
    ensures e.source == InternalControlled || e.chunkId != "" || e.documentId != "" ==>
              exists c :: c in chunks && e == ChunkEntry(c)
    ensures e.source == External ==> exists item :: e == WebEntry(digest, item)
  {
    WebEntriesAreExternal(digest, items);
    var first, second := Map(ChunkEntry, chunks), Map(FactEntry, facts);
    if e in first {
      var i :| 0 <= i < |first| && first[i] == e;
      assert chunks[i] in chunks && e == ChunkEntry(chunks[i]);
    } else if e in second {
      var i :| 0 <= i < |second| && second[i] == e;
      assert e == FactEntry(facts[i]);
    }
  }

  lemma IdsDiffer(digest: string -> string, item: WebItem, c: Chunk)
    ensures WebEntry(digest, item).evidenceId != ChunkEntry(c).evidenceId
  {
    assert WebEntry(digest, item).evidenceId[0] == 'e' && ChunkEntry(c).evidenceId[0] == 'c';
  }

  lemma {:induction false} SourceNamesAnEntry(ledger: seq<Entry>, id: string)
    ensures SourceOf(ledger, id).External? ==> exists e :: e in ledger && e.evidenceId == id && e.source == External
  {
    if ledger != [] && ledger[|ledger| - 1].evidenceId != id {
      SourceNamesAnEntry(ledger[..|ledger| - 1], id);
    } else if ledger != [] {
      assert ledger[|ledger| - 1] in ledger;
    }
  }

  /** The evidence id of a chunk is no alias in a built ledger. */
  lemma ChunkIdIsNoAlias(
    chunks: seq<Chunk>, facts: seq<ToolFact>, items: seq<WebItem>, digest: string -> string, c: Chunk)
    requires PlainIds(chunks) && c in chunks
    ensures CHUNK + c.chunkId !in Aliases(Built(chunks, facts, items, digest))
  {
    var ledger, id := Built(chunks, facts, items, digest), CHUNK + c.chunkId;
    if id in Aliases(ledger) {
      AliasesComeFromEntries(ledger, id);
      var f :| f in ledger && IsAliasOf(id, f) && Aliases(ledger)[id] == f.evidenceId;
      BuiltEntry(chunks, facts, items, digest, f);
      assert false;
    }
  }

  /** Every ledger the graph builds is stable, unless a chunk or document id imitates a chunk's evidence id. */
  lemma BuiltLedgersAreStable(
    chunks: seq<Chunk>, facts: seq<ToolFact>, items: seq<WebItem>, digest: string -> string, internalScope: bool)
    requires PlainIds(chunks)
    ensures LedgerStable(Built(chunks, facts, items, digest), internalScope)
  {
    hide Built, Aliases, SourceOf, QuotedEntry, ChunkEntry, PlainIds;
    var ledger := Built(chunks, facts, items, digest);
    forall id | id in Aliases(ledger).Values ensures id !in Aliases(ledger) {
      var k :| k in Aliases(ledger) && Aliases(ledger)[k] == id;
      AliasesComeFromEntries(ledger, k);
      var f :| f in ledger && IsAliasOf(k, f) && Aliases(ledger)[k] == f.evidenceId;
      EntryOfAlias(chunks, facts, items, digest, f, k);
    }
    if ledger != [] {
      QuoteIsStable(chunks, facts, items, digest);
    }
  }

  lemma EntryOfAlias(
    chunks: seq<Chunk>, facts: seq<ToolFact>, items: seq<WebItem>, digest: string -> string, f: Entry, k: string)
    requires PlainIds(chunks) && f in Built(chunks, facts, items, digest) && IsAliasOf(k, f)
    ensures f.evidenceId !in Aliases(Built(chunks, facts, items, digest))
  {
    BuiltEntry(chunks, facts, items, digest, f);
    var c :| c in chunks && f == ChunkEntry(c);
    ChunkIdIsNoAlias(chunks, facts, items, digest, c);
  }

  lemma QuoteIsStable(chunks: seq<Chunk>, facts: seq<ToolFact>, items: seq<WebItem>, digest: string -> string)
    requires PlainIds(chunks) && Built(chunks, facts, items, digest) != []
    ensures var ledger := Built(chunks, facts, items, digest);
            var id := QuotedEntry(ledger).evidenceId;
            id !in Aliases(ledger) && !(HasInternal(ledger) && SourceOf(ledger, id).External?)
  {
    hide Built, Aliases, SourceOf, QuotedEntry;
    var ledger := Built(chunks, facts, items, digest);
    var q := QuotedEntry(ledger);
    if HasInternal(ledger) {
      BuiltEntry(chunks, facts, items, digest, q);
      var c :| c in chunks && q == ChunkEntry(c);
      ChunkIdIsNoAlias(chunks, facts, items, digest, c);
      SourceNamesAnEntry(ledger, q.evidenceId);
      if SourceOf(ledger, q.evidenceId).External? {
        var e :| e in ledger && e.evidenceId == q.evidenceId && e.source == External;
        BuiltEntry(chunks, facts, items, digest, e);
        var item :| e == WebEntry(digest, item);
        IdsDiffer(digest, item, c);
        assert false;
      }
    } else if q.evidenceId in Aliases(ledger) {
      AliasesComeFromEntries(ledger, q.evidenceId);
      var f :| f in ledger && IsAliasOf(q.evidenceId, f) && Aliases(ledger)[q.evidenceId] == f.evidenceId;
      BuiltEntry(chunks, facts, items, digest, f);
      assert false;
    }
  }

  /** The first `n` characters at most. */
  predicate CutTo(content: string, text: string, n: nat) {
    content <= text && |content| == if |text| <= n then |text| else n
  }

  predicate OfChunk(e: Entry, c: Chunk) {
    e.evidenceId == "chunk:" + c.chunkId && e.source == InternalControlled && CutTo(e.content, c.text, 1600)
    && e.chunkId == c.chunkId && e.documentId == c.documentId
  }

  predicate OfFact(e: Entry, f: ToolFact) {
    e.evidenceId == f.evidenceId && e.source == SimulatedLiveData && e.content == f.fact
    && e.chunkId == "" && e.documentId == ""
  }

  predicate OfPage(e: Entry, digest: string -> string, item: WebItem) {
    e.evidenceId == "external:" + digest(item.key) && e.source == External && CutTo(e.content, item.content, 1200)
    && e.chunkId == "" && e.documentId == ""
  }

  /** One entry for each chunk and tool fact, then one for each external web result, all in order. */
  lemma BuiltExactly(chunks: seq<Chunk>, facts: seq<ToolFact>, items: seq<WebItem>, digest: string -> string)
    returns (positions: seq<nat>)
    ensures var ledger, known := Built(chunks, facts, items, digest), |chunks| + |facts|;
            |ledger| == known + |positions|
            && (forall i :: 0 <= i < |chunks| ==> OfChunk(ledger[i], chunks[i]))
            && (forall i :: 0 <= i < |facts| ==> OfFact(ledger[|chunks| + i], facts[i]))
            && (forall k :: 0 <= k < |positions| ==>
                  positions[k] < |items| && OfPage(ledger[known + k], digest, items[positions[k]]))
            && (forall j, k :: 0 <= j < k < |positions| ==> positions[j] < positions[k])
            && forall i :: 0 <= i < |items| ==> (i in positions <==> items[i].external)
  {
    positions := PagesExactly(digest, items);
    hide WebEntries, OfPage;
  }

  lemma {:induction false} PagesExactly(digest: string -> string, items: seq<WebItem>) returns (positions: seq<nat>)
    ensures var pages := WebEntries(digest, items);
            |positions| == |pages|
            && (forall k :: 0 <= k < |pages| ==>
                  positions[k] < |items| && OfPage(pages[k], digest, items[positions[k]]))
            && (forall j, k :: 0 <= j < k < |pages| ==> positions[j] < positions[k])
            && forall i :: 0 <= i < |items| ==> (i in positions <==> items[i].external)
  {
    positions := [];
    if items != [] {
      var init, last := items[..|items| - 1], items[|items| - 1];
      positions := PagesExactly(digest, init);
      assert OfPage(WebEntry(digest, last), digest, last);
      hide OfPage, WebEntry;
      assert forall i :: i in positions ==> i < |init|;
      if last.external {
        positions := positions + [|init|];
      }
    }
  }
}
