/** Answers and the two texts they are rendered to. */
module AnswerFormat {
  import opened Sequences

  datatype Confidence = Low | Medium | High {
    function Text(): string { match this case Low => "low" case Medium => "medium" case High => "high" }
  }

  datatype Claim = Claim(text: string, citations: seq<string>)

  datatype Answer = Answer(
    facts: seq<Claim>,
    hypotheses: seq<Claim>,
    unknowns: seq<string>,
    nextActions: seq<string>,
    confidence: Confidence)

  const HEADER := "基于当前有效且有权限访问的受控证据："
  const FACTS_TITLE := "\n已知事实"
  const HYPOTHESES_TITLE := "\n待验证假设"
  const UNKNOWNS_TITLE := "\n仍不确定"
  const NEXT_ACTIONS_TITLE := "\n建议下一步"
  const CONFIDENCE_MARK := "\n置信度："
  const HYPOTHESIS_LEAD := "需要注意："
  const UNKNOWN_LEAD := "目前可核验资料仍未明确："
  const NEXT_ACTION_LEAD := "如需进一步确认，可以："

  function ClaimLine(claim: Claim): string {
    "- " + claim.text + " [" + Join(", ", claim.citations) + "]"
  }

  function ItemLine(item: string): string { "- " + item }

  function Section(title: string, lines: seq<string>): seq<string> {
    if lines == [] then [] else [title] + lines
  }

  /** The lines of the report above its confidence line. */
  function ReportLines(a: Answer): seq<string> {
    [HEADER]
    + Section(FACTS_TITLE, Map(ClaimLine, a.facts))
    + Section(HYPOTHESES_TITLE, Map(ClaimLine, a.hypotheses))
    + Section(UNKNOWNS_TITLE, Map(ItemLine, a.unknowns))
    + Section(NEXT_ACTIONS_TITLE, Map(ItemLine, a.nextActions))
  }

  function ReportText(a: Answer): string {
    Join("\n", ReportLines(a) + [CONFIDENCE_MARK + a.confidence.Text()])
  }

  function FactParagraph(claim: Claim): string { claim.text }
  function HypothesisParagraph(claim: Claim): string { HYPOTHESIS_LEAD + claim.text }
  function UnknownParagraph(item: string): string { UNKNOWN_LEAD + item }
  function NextActionParagraph(item: string): string { NEXT_ACTION_LEAD + item }

  function Paragraphs(a: Answer): seq<string> {
    Map(FactParagraph, a.facts) + Map(HypothesisParagraph, a.hypotheses)
    + Map(UnknownParagraph, a.unknowns) + Map(NextActionParagraph, a.nextActions)
  }

  function NaturalText(a: Answer): string { Join("\n\n", Paragraphs(a)) }

  lemma SectionAdds(before: seq<string>, title: string, lines: seq<string>)
    ensures before + Section(title, lines) == if lines == [] then before else before + [title] + lines
  {}

  method FormatAnswer(a: Answer) returns (text: string)
    ensures text == ReportText(a)
  {
    hide Map, Join, ClaimLine, ItemLine, Section;
    var lines := [HEADER];
    if a.facts != [] {
      lines := lines + [FACTS_TITLE];
      lines := lines + Map(ClaimLine, a.facts);
    }
    SectionAdds([HEADER], FACTS_TITLE, Map(ClaimLine, a.facts));
    ghost var before := lines;
    if a.hypotheses != [] {
      lines := lines + [HYPOTHESES_TITLE];
      lines := lines + Map(ClaimLine, a.hypotheses);
    }
    SectionAdds(before, HYPOTHESES_TITLE, Map(ClaimLine, a.hypotheses));
    before := lines;
    if a.unknowns != [] {
      lines := lines + [UNKNOWNS_TITLE];
      lines := lines + Map(ItemLine, a.unknowns);
    }
    SectionAdds(before, UNKNOWNS_TITLE, Map(ItemLine, a.unknowns));
    before := lines;
    if a.nextActions != [] {
      lines := lines + [NEXT_ACTIONS_TITLE];
      lines := lines + Map(ItemLine, a.nextActions);
    }
    SectionAdds(before, NEXT_ACTIONS_TITLE, Map(ItemLine, a.nextActions));
    lines := lines + [CONFIDENCE_MARK + a.confidence.Text()];
    text := Join("\n", lines);
  }

  method FormatNaturalKnowledgeAnswer(a: Answer) returns (text: string)
    ensures text == NaturalText(a)
  {
    hide Map, Join;
    var paragraphs := Map(FactParagraph, a.facts);
    if a.hypotheses != [] {
      paragraphs := paragraphs + Map(HypothesisParagraph, a.hypotheses);
    }
    if a.unknowns != [] {
      paragraphs := paragraphs + Map(UnknownParagraph, a.unknowns);
    }
    if a.nextActions != [] {
      paragraphs := paragraphs + Map(NextActionParagraph, a.nextActions);
    }
    assert paragraphs == Paragraphs(a);
    text := Join("\n\n", paragraphs);
  }

  // ----- `rsplit(mark, maxsplit=1)[0]` -----

  function LastAt(s: string, mark: string, i: nat): string
    requires i + |mark| <= |s|
  {
    if s[i..i + |mark|] == mark then s[..i] else if i == 0 then s else LastAt(s, mark, i - 1)
  }

  /** The text before the last occurrence of `mark`, or all of it. */
  function RSplitHead(s: string, mark: string): string {
    if |s| < |mark| then s else LastAt(s, mark, |s| - |mark|)
  }

  lemma {:induction false} LastAtSkips(s: string, mark: string, i: nat, target: nat)
    requires mark != "" && target <= i && i + |mark| <= |s|
    requires s[target..target + |mark|] == mark
    requires forall k :: target < k <= i ==> s[k] != mark[0]
    ensures LastAt(s, mark, i) == s[..target]
    decreases i
  {
    if target < i {
      assert s[i..i + |mark|][0] == s[i];
      LastAtSkips(s, mark, i - 1, target);
    }
  }

  lemma RSplitAtEnd(body: string, mark: string, tail: string)
    requires mark != "" && forall k :: 0 < k < |mark + tail| ==> (mark + tail)[k] != mark[0]
    ensures RSplitHead(body + mark + tail, mark) == body
  {
    var s := body + mark + tail;
    assert forall k :: |body| <= k < |s| ==> s[k] == (mark + tail)[k - |body|];
    assert s[|body|..|body| + |mark|] == mark;
    LastAtSkips(s, mark, |s| - |mark|, |body|);
    assert s[..|body|] == body;
  }

  lemma MarkStartsNewLine(c: Confidence)
    ensures CONFIDENCE_MARK != "" && CONFIDENCE_MARK[0] == '\n'
    ensures forall k :: 0 < k < |CONFIDENCE_MARK + c.Text()| ==> (CONFIDENCE_MARK + c.Text())[k] != '\n'
  {}

  /** Cutting at the last confidence mark removes exactly the confidence line the formatter added. */
  lemma ConfidenceLineIsLast(body: string, c: Confidence)
    ensures RSplitHead(body + CONFIDENCE_MARK + c.Text(), CONFIDENCE_MARK) == body
  {
    MarkStartsNewLine(c);
    RSplitAtEnd(body, CONFIDENCE_MARK, c.Text());
  }

  // ----- Growth -----

  lemma ReportOfLines(a: Answer)
    ensures ReportText(a) == Join("\n", ReportLines(a)) + "\n" + CONFIDENCE_MARK + a.confidence.Text()
  {
    JoinAdd("\n", ReportLines(a), CONFIDENCE_MARK + a.confidence.Text());
    var b := Join("\n", ReportLines(a)) + "\n";
    assert b + (CONFIDENCE_MARK + a.confidence.Text()) == (b + CONFIDENCE_MARK) + a.confidence.Text();
  }

  /** `b` has everything `a` has, and more only in the last list of `a` that is not empty or after it. */
  predicate Extends(a: Answer, b: Answer) {
    a.facts <= b.facts && a.hypotheses <= b.hypotheses && a.unknowns <= b.unknowns && a.nextActions <= b.nextActions
    && (a.facts == b.facts || (a.hypotheses == [] && a.unknowns == [] && a.nextActions == []))
    && (a.hypotheses == b.hypotheses || (a.unknowns == [] && a.nextActions == []))
    && (a.unknowns == b.unknowns || a.nextActions == [])
  }

  lemma MapPrefix<T, U>(f: T -> U, s: seq<T>, t: seq<T>)
    requires s <= t
    ensures Map(f, s) <= Map(f, t)
  {
    hide Map;
  }

  lemma PartsPrefix<T>(a: seq<seq<T>>, b: seq<seq<T>>)
    requires |a| == |b| == 4
    requires forall i :: 0 <= i < 4 ==> a[i] <= b[i]
    requires forall i, j :: 0 <= i < j < 4 && a[i] != b[i] ==> a[j] == []
    ensures a[0] + a[1] + a[2] + a[3] <= b[0] + b[1] + b[2] + b[3]
  {}

  /** An extension only adds lines at the end of the report and paragraphs at the end of the prose. */
  lemma ExtensionAddsAtEnd(a: Answer, b: Answer)
    requires Extends(a, b)
    ensures ReportLines(a) <= ReportLines(b)
    ensures Paragraphs(a) <= Paragraphs(b)
  {
    LinesAddAtEnd(a, b);
    ParagraphsAddAtEnd(a, b);
    hide ReportLines, Paragraphs;
  }

  lemma LinesAddAtEnd(a: Answer, b: Answer)
    requires Extends(a, b)
    ensures ReportLines(a) <= ReportLines(b)
  {
    hide Map, ClaimLine, ItemLine;
    MapPrefix(ClaimLine, a.facts, b.facts);
    MapPrefix(ClaimLine, a.hypotheses, b.hypotheses);
    MapPrefix(ItemLine, a.unknowns, b.unknowns);
    MapPrefix(ItemLine, a.nextActions, b.nextActions);
    PartsPrefix(
      [[HEADER] + Section(FACTS_TITLE, Map(ClaimLine, a.facts)),
       Section(HYPOTHESES_TITLE, Map(ClaimLine, a.hypotheses)),
       Section(UNKNOWNS_TITLE, Map(ItemLine, a.unknowns)),
       Section(NEXT_ACTIONS_TITLE, Map(ItemLine, a.nextActions))],
      [[HEADER] + Section(FACTS_TITLE, Map(ClaimLine, b.facts)),
       Section(HYPOTHESES_TITLE, Map(ClaimLine, b.hypotheses)),
       Section(UNKNOWNS_TITLE, Map(ItemLine, b.unknowns)),
       Section(NEXT_ACTIONS_TITLE, Map(ItemLine, b.nextActions))]);
  }

  lemma ParagraphsAddAtEnd(a: Answer, b: Answer)
    requires Extends(a, b)
    ensures Paragraphs(a) <= Paragraphs(b)
  {
    hide Map;
    MapPrefix(FactParagraph, a.facts, b.facts);
    MapPrefix(HypothesisParagraph, a.hypotheses, b.hypotheses);
    MapPrefix(UnknownParagraph, a.unknowns, b.unknowns);
    MapPrefix(NextActionParagraph, a.nextActions, b.nextActions);
    PartsPrefix(
      [Map(FactParagraph, a.facts), Map(HypothesisParagraph, a.hypotheses),
       Map(UnknownParagraph, a.unknowns), Map(NextActionParagraph, a.nextActions)],
      [Map(FactParagraph, b.facts), Map(HypothesisParagraph, b.hypotheses),
       Map(UnknownParagraph, b.unknowns), Map(NextActionParagraph, b.nextActions)]);
  }

  lemma {:induction false} JoinPrefix(sep: string, a: seq<string>, b: seq<string>)
    requires a != [] && a <= b && a != b
    ensures Join(sep, a) + sep <= Join(sep, b)
  {
    var more := b[|a|..];
    assert b == a + more;
    JoinAppend(sep, a, more);
  }
}
