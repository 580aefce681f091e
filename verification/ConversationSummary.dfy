/** The bounded summary of older turns, kept incrementally across an append-only thread. */
module ConversationSummary {
  import opened ConversationTurns
  import opened Numbers
  import opened Sequences

  const MAX_CONTENT := 240
  const OMITTED := "\n...[older turns omitted]...\n"

  /** `content.split()`. */
  function Words(s: string): seq<string>
    decreases |s|
  {
    var b := LStrip(s);
    if b == "" then [] else [b[..WordLength(b)]] + Words(b[WordLength(b)..])
  }

  function WordLength(s: string): (n: nat)
    ensures n <= |s| && (s != "" && !IsSpace(s[0]) ==> n > 0)
  {
    if s == "" || IsSpace(s[0]) then 0 else 1 + WordLength(s[1..])
  }

  function Shorten(content: string): (r: string)
    ensures |r| <= MAX_CONTENT
  {
    if |content| > MAX_CONTENT then content[..MAX_CONTENT - 3] + "..." else content
  }

  /** One summary line. */
  function Line(m: Numbered): (line: string)
    ensures line != ""
  {
    var role := if m.user then "USER" else "ASSISTANT";
    "[" + Decimal(m.turn) + "][" + role + "] " + Shorten(Join(" ", Words(m.content)))
  }

  /** The summary built from nothing: one line for each message, in order. */
  function Scratch(messages: seq<Numbered>): string {
    Join("\n", Map(Line, messages))
  }

  function Bounded(summary: string, limit: nat): string
    requires limit >= 1000
  {
    if |summary| <= limit then summary
    else
      var head := limit / 3;
      var tail := limit - head - 36;
      summary[..head] + OMITTED + summary[|summary| - tail..]
  }

  datatype Compaction = Compaction(summary: string, upto: Option<string>)

  /** The position of the first message with the id. */
  function Find(messages: seq<Numbered>, id: string): (r: Option<nat>)
    ensures r.Some? ==> r.value < |messages| && messages[r.value].id == id
    ensures r.None? ==> forall m :: m in messages ==> m.id != id
    ensures r.Some? ==> forall i :: 0 <= i < r.value ==> messages[i].id != id
  {
    if messages == [] then None
    else if messages[0].id == id then Some(0)
    else match Find(messages[1..], id) case Some(i) => Some(i + 1) case None => None
  }

  /** The persisted summary to continue from, and the messages it does not cover yet. */
  function Resume(saved: Compaction, messages: seq<Numbered>): (string, seq<Numbered>) {
    if saved.summary != "" && saved.upto.Some? && Find(messages, saved.upto.value).Some? then
      (saved.summary, messages[Find(messages, saved.upto.value).value + 1..])
    else ("", messages)
  }

  function Parts(base: string, lines: seq<string>): seq<string> {
    (if base == "" then [] else [base]) + lines
  }

  /** `_incremental_compaction`. */
  function Incremental(saved: Compaction, messages: seq<Numbered>, limit: nat): Compaction
    requires limit >= 1000
  {
    if messages == [] then Compaction("", None)
    else
      var (base, pending) := Resume(saved, messages);
      Compaction(Bounded(Join("\n", Parts(base, Map(Line, pending))), limit), Some(messages[|messages| - 1].id))
  }

  method CompactIncrementally(saved: Compaction, messages: seq<Numbered>, limit: nat) returns (c: Compaction)
    requires limit >= 1000
    ensures c == Incremental(saved, messages, limit)
  {
    hide Line, Join, Bounded;
    if messages == [] {
      return Compaction("", None);
    }
    var base, pending := "", messages;
    if saved.summary != "" && saved.upto.Some? {
      var i := 0;
      while i < |messages| && messages[i].id != saved.upto.value
        invariant 0 <= i <= |messages| && forall k :: 0 <= k < i ==> messages[k].id != saved.upto.value
      {
        i := i + 1;
      }
      if i < |messages| {
        assert messages[i] in messages;
        base, pending := saved.summary, messages[i + 1..];
      }
    }
    assert (base, pending) == Resume(saved, messages);
    var lines: seq<string> := [];
    for k := 0 to |pending|
      invariant lines == Map(Line, pending[..k])
    {
      assert pending[..k + 1] == pending[..k] + [pending[k]];
      MapAdd(Line, pending[..k], pending[k]);
      lines := lines + [Line(pending[k])];
    }
    assert pending[..|pending|] == pending;
    c := Compaction(Bounded(Join("\n", Parts(base, lines)), limit), Some(messages[|messages| - 1].id));
  }

  // ----- What a line tells -----

  /** The characters of a text that are no white space. */
  function Ink(s: string): string {
    if s == "" then "" else (if IsSpace(s[0]) then "" else [s[0]]) + Ink(s[1..])
  }

  /** Every white space is one blank between two characters that are none. */
  predicate SingleSpaced(s: string) {
    forall k :: 0 <= k < |s| && IsSpace(s[k]) ==>
      s[k] == ' ' && 0 < k < |s| - 1 && !IsSpace(s[k - 1]) && !IsSpace(s[k + 1])
  }

  predicate Solid(w: string) {
    w != "" && forall c :: c in w ==> !IsSpace(c)
  }

  lemma {:induction false} InkAppend(a: string, b: string)
    ensures Ink(a + b) == Ink(a) + Ink(b)
  {
    hide IsSpace;
    if a == "" {
      assert a + b == b;
    } else {
      assert (a + b)[1..] == a[1..] + b;
      InkAppend(a[1..], b);
    }
  }

  lemma {:induction false} InkOfSolid(w: string)
    requires forall c :: c in w ==> !IsSpace(c)
    ensures Ink(w) == w
  {
    hide IsSpace;
    if w != "" {
      InkOfSolid(w[1..]);
    }
  }

  lemma {:induction false} InkOfStripped(s: string)
    ensures Ink(LStrip(s)) == Ink(s)
  {
    hide IsSpace;
    if s != "" && IsSpace(s[0]) {
      InkOfStripped(s[1..]);
    }
  }

  lemma {:induction false} WordEnds(s: string)
    ensures var n := WordLength(s);
            (forall k :: 0 <= k < n ==> !IsSpace(s[k])) && (n < |s| ==> IsSpace(s[n]))
  {
    hide IsSpace;
    if s != "" && !IsSpace(s[0]) {
      WordEnds(s[1..]);
      forall k | 0 <= k < WordLength(s) ensures !IsSpace(s[k]) {
        assert k > 0 ==> s[k] == s[1..][k - 1];
      }
    }
  }

  lemma {:induction false} WordsAreSolid(s: string)
    ensures forall w :: w in Words(s) ==> Solid(w)
    decreases |s|
  {
    hide IsSpace;
    var b := LStrip(s);
    if b != "" {
      WordEnds(b);
      WordsAreSolid(b[WordLength(b)..]);
      assert Solid(b[..WordLength(b)]);
    }
  }

  lemma JoinFront(w: string, rest: seq<string>)
    ensures Join(" ", [w] + rest) == if rest == [] then w else w + " " + Join(" ", rest)
  {
    if rest == [] {
      assert [w] + rest == [w];
    } else {
      JoinAppend(" ", [w], rest);
    }
  }

  lemma InkOfFront(w: string, rest: seq<string>)
    requires forall c :: c in w ==> !IsSpace(c)
    ensures Ink(Join(" ", [w] + rest)) == w + Ink(Join(" ", rest))
  {
    BlankHasNoInk();
    InkOfSolid(w);
    JoinFront(w, rest);
    JoinOfNothing();
    assert w + "" == w && Ink("") == "";
    hide *;
    if rest != [] {
      assert w + " " + Join(" ", rest) == (w + " ") + Join(" ", rest);
      InkAppend(w + " ", Join(" ", rest));
      InkAppend(w, " ");
    }
  }

  lemma {:induction false} InkOfWords(s: string)
    ensures Ink(Join(" ", Words(s))) == Ink(s)
    decreases |s|
  {
    var b := LStrip(s);
    InkOfStripped(s);
    hide IsSpace, LStrip, WordLength, Join;
    if b == "" {
      assert Join(" ", []) == "" by { JoinOfNothing(); }
    } else {
      var w, rest := b[..WordLength(b)], b[WordLength(b)..];
      assert Words(s) == [w] + Words(rest);
      WordEnds(b);
      hide Words, Ink;
      InkOfWords(rest);
      InkOfSolid(w);
      InkAppend(w, rest);
      assert b == w + rest;
      InkOfFront(w, Words(rest));
    }
  }

  lemma JoinOfNothing()
    ensures Join(" ", []) == ""
  {}

  lemma BlankHasNoInk()
    ensures Ink(" ") == "" && IsSpace(' ')
  {}

  lemma {:induction false} SolidWordLength(w: string, rest: string)
    requires Solid(w) && (rest == "" || IsSpace(rest[0]))
    ensures WordLength(w + rest) == |w| && LStrip(w + rest) == w + rest
  {
    hide IsSpace;
    assert (w + rest)[1..] == w[1..] + rest;
    assert w[0] in w && forall c :: c in w[1..] ==> c in w;
    if |w| > 1 {
      SolidWordLength(w[1..], rest);
    } else {
      assert w[1..] + rest == rest;
    }
  }

  lemma WordsBehindBlank(s: string)
    ensures Words(" " + s) == Words(s)
  {
    BlankHasNoInk();
    assert (" " + s)[1..] == s;
  }

  lemma {:induction false} WordsOfJoined(ws: seq<string>)
    requires forall w :: w in ws ==> Solid(w)
    ensures Words(Join(" ", ws)) == ws && SingleSpaced(Join(" ", ws))
    ensures ws != [] ==> Join(" ", ws) != "" && !IsSpace(Join(" ", ws)[0])
  {
    BlankHasNoInk();
    hide IsSpace;
    if ws != [] {
      var w, rest := ws[0], ws[1..];
      assert ws == [w] + rest;
      WordsOfJoined(rest);
      JoinFront(w, rest);
      var joined, behind := Join(" ", ws), if rest == [] then "" else " " + Join(" ", rest);
      assert joined == w + behind;
      SolidWordLength(w, behind);
      assert joined[..|w|] == w && joined[|w|..] == behind;
      WordsBehindBlank(Join(" ", rest));
      SpacedBehind(w, Join(" ", rest));
      assert w[0] in w;
    }
  }

  lemma SpacedBehind(w: string, rest: string)
    requires Solid(w) && SingleSpaced(rest)
    ensures SingleSpaced(w)
    ensures rest != "" && !IsSpace(rest[0]) ==> SingleSpaced(w + " " + rest)
  {
    hide IsSpace;
    assert forall k :: 0 <= k < |w| ==> w[k] in w;
    if rest != "" && !IsSpace(rest[0]) {
      var s := w + " " + rest;
      assert forall k :: |w| + 1 <= k < |s| ==> s[k] == rest[k - |w| - 1];
    }
  }

  /** `full` is the content with every run of white space made one blank, and none at the ends. */
  predicate Collapses(full: string, content: string) {
    Ink(full) == Ink(content) && Words(full) == Words(content) && SingleSpaced(full)
  }

  predicate Tells(line: string, m: Numbered, full: string) {
    Collapses(full, m.content)
    && line == "[" + Decimal(m.turn) + "][" + (if m.user then "USER" else "ASSISTANT") + "] "
               + if |full| <= 240 then full else full[..237] + "..."
  }

  /** A line tells the turn, who spoke, and the words of the message in order, cut to 240 characters. */
  lemma LineTells(m: Numbered)
    ensures Tells(Line(m), m, Join(" ", Words(m.content)))
  {
    WordsAreSolid(m.content);
    WordsOfJoined(Words(m.content));
    InkOfWords(m.content);
    hide Words, Join, Ink, SingleSpaced;
  }

  // ----- The limit -----

  lemma OmittedSize()
    ensures |OMITTED| <= 36
  {}

  lemma BoundedFits(summary: string, limit: nat)
    requires limit >= 1000
    ensures |Bounded(summary, limit)| <= limit
  {
    OmittedSize();
  }

  /** The summary never exceeds its limit, on any thread and from any saved state. */
  lemma SummaryFits(saved: Compaction, messages: seq<Numbered>, limit: nat)
    requires limit >= 1000
    ensures |Incremental(saved, messages, limit).summary| <= limit
  {
    hide Join, Line, Bounded;
    var (base, pending) := Resume(saved, messages);
    BoundedFits(Join("\n", Parts(base, Map(Line, pending))), limit);
  }

  // ----- Incremental equals from scratch -----

  predicate DistinctIds(messages: seq<Numbered>) {
    forall i, j :: 0 <= i < j < |messages| ==> messages[i].id != messages[j].id
  }

  lemma {:induction false} ScratchNotEmpty(messages: seq<Numbered>)
    requires messages != []
    ensures Scratch(messages) != ""
  {
    var init, last := messages[..|messages| - 1], messages[|messages| - 1];
    assert messages == init + [last];
    MapAdd(Line, init, last);
    JoinAdd("\n", Map(Line, init), Line(last));
  }

  lemma ScratchAppend(a: seq<Numbered>, b: seq<Numbered>)
    requires a != [] && b != []
    ensures Scratch(a + b) == Join("\n", [Scratch(a)] + Map(Line, b))
    ensures |Scratch(a)| <= |Scratch(a + b)|
  {
    hide Map, Line, Join;
    assert Map(Line, a + b) == Map(Line, a) + Map(Line, b);
    JoinAppend("\n", Map(Line, a), Map(Line, b));
    JoinAppend("\n", [Scratch(a)], Map(Line, b));
    JoinOne(Scratch(a));
  }

  lemma FindAt(messages: seq<Numbered>, i: nat)
    requires DistinctIds(messages) && i < |messages|
    ensures Find(messages, messages[i].id) == Some(i)
  {
    assert messages[i] in messages;
  }

  lemma JoinOne(s: string)
    ensures Join("\n", [s]) == s
  {}

  lemma JoinedParts(history: seq<Numbered>, covered: nat)
    requires 0 < covered <= |history|
    ensures Join("\n", Parts(Scratch(history[..covered]), Map(Line, history[covered..]))) == Scratch(history)
  {
    var done, pending := history[..covered], history[covered..];
    assert history == done + pending;
    ScratchNotEmpty(done);
    hide Join, Scratch;
    if pending == [] {
      assert done == history && Map(Line, pending) == [];
      assert [Scratch(done)] + [] == [Scratch(done)];
      JoinOne(Scratch(done));
    } else {
      ScratchAppend(done, pending);
    }
  }

  /**
   * The saved summary reaches to the first `covered` messages of the history. It is their summary built from
   * nothing, or it misses lines of it and is shorter.
   */
  predicate Tracks(saved: Compaction, history: seq<Numbered>, covered: nat, exact: bool) {
    covered <= |history|
    && if covered == 0 then saved == Compaction("", None) && exact
       else
         saved.upto == Some(history[covered - 1].id) && saved.summary != ""
         && if exact then saved.summary == Scratch(history[..covered])
            else |saved.summary| < |Scratch(history[..covered])|
  }

  lemma JoinBehind(base: string, lines: seq<string>)
    requires base != ""
    ensures Join("\n", Parts(base, lines)) == if lines == [] then base else base + "\n" + Join("\n", lines)
  {
    hide Join;
    JoinOne(base);
    if lines == [] {
      assert [base] + lines == [base];
    } else {
      JoinAppend("\n", [base], lines);
    }
  }

  /** What was missing stays missing, and nothing else goes missing: continuing keeps the summary as it tracks. */
  lemma ContinuedTracks(saved: Compaction, older: seq<Numbered>, covered: nat, exact: bool, limit: nat)
    requires limit >= 1000 && DistinctIds(older) && Tracks(saved, older, covered, exact) && |Scratch(older)| <= limit
    ensures Tracks(Incremental(saved, older, limit), older, |older|, exact)
  {
    hide Line, Join, Map, Bounded, Find, DistinctIds;
    if older != [] {
      ScratchNotEmpty(older);
      BoundedKeeps(Scratch(older), limit);
      assert older[..|older|] == older;
      if covered == 0 {
        PartsOfNothing(Map(Line, older));
      } else {
        var done, lines := older[..covered], Map(Line, older[covered..]);
        ScratchNotEmpty(done);
        FindAt(older, covered - 1);
        JoinedParts(older, covered);
        JoinBehind(Scratch(done), lines);
        JoinBehind(saved.summary, lines);
        var text := Join("\n", Parts(saved.summary, lines));
        BoundedKeeps(text, limit);
        hide Scratch;
        assert Incremental(saved, older, limit) == Compaction(text, Some(older[|older| - 1].id));
      }
    }
  }

  lemma BoundedKeeps(summary: string, limit: nat)
    requires limit >= 1000 && |summary| <= limit
    ensures Bounded(summary, limit) == summary
  {}

  lemma PartsOfNothing(lines: seq<string>)
    ensures Parts("", lines) == lines
  {}

  lemma FindNot(messages: seq<Numbered>, id: string)
    requires forall m :: m in messages ==> m.id != id
    ensures Find(messages, id).None?
  {}

  // ----- Every append-only thread -----

  datatype Thread = Thread(messages: seq<Message>, saved: Compaction)

  datatype Event = Append(message: Message) | Persist

  /** Everything before the recent window. */
  function Older<T>(history: seq<T>, keep: nat): (r: seq<T>)
    ensures r <= history
  {
    if |history| <= keep then [] else history[..|history| - keep]
  }

  function Recent<T>(history: seq<T>, keep: nat): seq<T> {
    if |history| <= keep then history else history[|history| - keep..]
  }

  function Next(t: Thread, e: Event, keep: nat, limit: nat): Thread
    requires limit >= 1000
  {
    match e
    case Append(m) => t.(messages := t.messages + [m])
    case Persist => t.(saved := Incremental(t.saved, Older(Normalized(t.messages), keep), limit))
  }

  function After(events: seq<Event>, keep: nat, limit: nat): Thread
    requires limit >= 1000
  {
    if events == [] then Thread([], Compaction("", None))
    else Next(After(events[..|events| - 1], keep, limit), events[|events| - 1], keep, limit)
  }

  /** The new message is numbered below the message the saved summary reaches to. */
  predicate Overtakes(t: Thread, m: Message) {
    var history := Normalized(t.messages);
    t.saved.upto.Some? && Find(history, t.saved.upto.value).Some?
    && AppendedTurn(t.messages, m) < history[Find(history, t.saved.upto.value).value].turn
  }

  /** Appended messages have new ids. */
  predicate NewIds(events: seq<Event>, keep: nat, limit: nat)
    requires limit >= 1000
  {
    events == [] ||
    var before, e := events[..|events| - 1], events[|events| - 1];
    NewIds(before, keep, limit)
    && (e.Append? ==>
          (forall n :: n in Repaired(After(before, keep, limit).messages).done ==> n.id != e.message.id)
          && (e.message.turn.Some? ==> e.message.turn.value >= 1))
  }

  predicate NoneOvertakes(events: seq<Event>, keep: nat, limit: nat)
    requires limit >= 1000
  {
    events == [] ||
    var before, e := events[..|events| - 1], events[|events| - 1];
    NoneOvertakes(before, keep, limit) && (e.Append? ==> !Overtakes(After(before, keep, limit), e.message))
  }

  // ----- One message more -----

  /** `b` is `a` with one message put in. */
  predicate Inserted(a: seq<Numbered>, b: seq<Numbered>, n: Numbered, p: nat) {
    p <= |a| && b == a[..p] + [n] + a[p..]
  }

  /** An inserted message makes the summary built from nothing longer. */
  lemma LongerByALine(a: seq<Numbered>, b: seq<Numbered>, n: Numbered, p: nat)
    requires Inserted(a, b, n, p)
    ensures |Scratch(a)| < |Scratch(b)|
  {
    hide Scratch;
    var first, rest := a[..p], a[p..];
    assert a == first + rest && b == first + ([n] + rest);
    ScratchLengths(first, rest);
    ScratchLengths([n], rest);
    ScratchLengths(first, [n] + rest);
    OneLine(n);
  }

  lemma OneLine(n: Numbered)
    ensures |Scratch([n])| >= 1
  {
    ScratchNotEmpty([n]);
  }

  lemma ScratchLengths(a: seq<Numbered>, b: seq<Numbered>)
    ensures |Scratch(a + b)| == |Scratch(a)| + |Scratch(b)| + if a == [] || b == [] then 0 else 1
    ensures Scratch([]) == ""
  {
    assert Map(Line, []) == [];
    hide Map, Line, Join;
    if a == [] {
      assert a + b == b;
    } else if b == [] {
      assert a + b == a;
    } else {
      LinesOfBoth(a, b);
      JoinAppend("\n", Map(Line, a), Map(Line, b));
    }
  }

  lemma LinesOfBoth(a: seq<Numbered>, b: seq<Numbered>)
    ensures Map(Line, a + b) == Map(Line, a) + Map(Line, b)
  {
    hide Map, Line;
  }

  lemma PrefixIsShorter(a: seq<Numbered>, b: seq<Numbered>)
    requires a <= b
    ensures |Scratch(a)| <= |Scratch(b)|
  {
    assert b == a + b[|a|..];
    ScratchLengths(a, b[|a|..]);
  }

  /** The messages before the window only gain by an insertion. */
  lemma OlderOfInserted(a: seq<Numbered>, b: seq<Numbered>, n: Numbered, p: nat, keep: nat)
    requires Inserted(a, b, n, p)
    ensures |Scratch(Older(a, keep))| <= |Scratch(Older(b, keep))| && |Older(a, keep)| <= |Older(b, keep)|
  {
    hide Scratch;
    var older := Older(a, keep);
    if older == [] {
      PrefixIsShorter([], Older(b, keep));
    } else if p >= |older| {
      assert older == a[..|older|] && Older(b, keep) == b[..|older| + 1];
      assert older <= Older(b, keep);
      PrefixIsShorter(older, Older(b, keep));
    } else {
      assert older[..p] == a[..p] && Older(b, keep) == older[..p] + [n] + older[p..];
      LongerByALine(older, Older(b, keep), n, p);
    }
  }

  /** The place a number belongs to in a strictly numbered history. */
  lemma {:induction false} InsertPlace(s: seq<Numbered>, n: Numbered) returns (p: nat)
    requires Strict(s) && FreeOf(s, n.turn)
    ensures Inserted(s, Insert(s, n), n, p)
    ensures forall i :: 0 <= i < |s| ==> (s[i].turn < n.turn <==> i < p)
  {
    if s == [] || s[|s| - 1].turn <= n.turn {
      p := |s|;
      assert s[..p] == s && s[p..] == [];
      if s != [] {
        assert s[|s| - 1] in s;
      }
    } else {
      var init := s[..|s| - 1];
      p := InsertPlace(init, n);
      assert s == init + [s[|s| - 1]];
      assert s[..p] == init[..p] && s[p..] == init[p..] + [s[|s| - 1]];
    }
  }

  /** Appending to the thread inserts into its history, at the place of the number given. */
  lemma AppendInserts(ms: seq<Message>, m: Message) returns (p: nat)
    requires forall n :: n in Repaired(ms).done ==> n.id != m.id
    requires DistinctIds(Normalized(ms))
    ensures var n, history := WithTurn(m, AppendedTurn(ms, m)), Normalized(ms);
            Inserted(history, Normalized(ms + [m]), n, p) && Strict(history)
            && (forall i :: 0 <= i < |history| ==> (history[i].turn < n.turn <==> i < p))
    ensures DistinctIds(Normalized(ms + [m])) && FreeOf(Normalized(ms), AppendedTurn(ms, m))
  {
    var n, history := WithTurn(m, AppendedTurn(ms, m)), Normalized(ms);
    NormalizedIsStrict(ms);
    AppendedIsFree(ms, m);
    forall x | x in history ensures x.id != m.id && x.turn != n.turn {
      assert x in multiset(history);
    }
    hide Repaired, SortByTurn, Normalized, AppendedTurn;
    p := InsertPlace(history, n);
    IdsStayDistinct(history, Insert(history, n), n, p);
  }

  lemma IdsStayDistinct(a: seq<Numbered>, b: seq<Numbered>, n: Numbered, p: nat)
    requires Inserted(a, b, n, p) && DistinctIds(a) && forall x :: x in a ==> x.id != n.id
    ensures DistinctIds(b)
  {
    forall i, j | 0 <= i < j < |b| ensures b[i].id != b[j].id {
      assert b[i] == if i < p then a[i] else if i == p then n else a[i - 1];
      assert b[j] == if j < p then a[j] else if j == p then n else a[j - 1];
    }
  }

  // ----- Every append-only thread -----

  /** An insertion behind the covered part leaves it alone; one inside it goes missing in the summary. */
  lemma InsertedTracks(
    saved: Compaction, a: seq<Numbered>, b: seq<Numbered>, n: Numbered, p: nat, covered: nat, exact: bool)
    requires Inserted(a, b, n, p) && Tracks(saved, a, covered, exact)
    ensures Tracks(saved, b, if p < covered then covered + 1 else covered, exact && covered <= p)
  {
    hide Scratch;
    if p < covered {
      var before, after := a[..covered], b[..covered + 1];
      assert after == before[..p] + [n] + before[p..];
      LongerByALine(before, after, n, p);
      assert b[covered] == a[covered - 1];
    } else {
      assert b[..covered] == a[..covered];
      assert covered > 0 ==> b[covered - 1] == a[covered - 1];
    }
  }

  lemma OvertakesWhen(t: Thread, m: Message, p: nat, covered: nat, exact: bool)
    requires var history := Normalized(t.messages);
             DistinctIds(history) && Tracks(t.saved, history, covered, exact)
             && forall i :: 0 <= i < |history| ==> (history[i].turn < AppendedTurn(t.messages, m) <==> i < p)
    requires FreeOf(Normalized(t.messages), AppendedTurn(t.messages, m))
    ensures Overtakes(t, m) <==> p < covered
  {
    hide Scratch, Normalized, AppendedTurn, DistinctIds;
    var history := Normalized(t.messages);
    if covered > 0 {
      FindAt(history, covered - 1);
      assert history[covered - 1] in history;
    }
  }

  /** An append keeps the summary tracked, exactly as long as it does not overtake. */
  lemma AppendTracks(t: Thread, m: Message, keep: nat, covered: nat, exact: bool) returns (after: nat)
    requires forall n :: n in Repaired(t.messages).done ==> n.id != m.id
    requires DistinctIds(Normalized(t.messages)) && covered <= |Older(Normalized(t.messages), keep)|
    requires Tracks(t.saved, Normalized(t.messages), covered, exact)
    ensures var history := Normalized(t.messages + [m]);
            DistinctIds(history) && after <= |Older(history, keep)|
            && Tracks(t.saved, history, after, exact && !Overtakes(t, m))
  {
    var a, b, n := Normalized(t.messages), Normalized(t.messages + [m]), WithTurn(m, AppendedTurn(t.messages, m));
    var p := AppendInserts(t.messages, m);
    hide Normalized, Repaired, Scratch, AppendedTurn, Overtakes, Tracks, DistinctIds;
    OlderLength(a, b, keep);
    OvertakesWhen(t, m, p, covered, exact);
    InsertedTracks(t.saved, a, b, n, p, covered, exact);
    after := if p < covered then covered + 1 else covered;
  }

  lemma OlderLength(a: seq<Numbered>, b: seq<Numbered>, keep: nat)
    requires |b| == |a| + 1
    ensures Older(a, keep) != [] ==> |Older(b, keep)| == |Older(a, keep)| + 1
  {}

  lemma PersistTracks(saved: Compaction, history: seq<Numbered>, keep: nat, covered: nat, exact: bool, limit: nat)
    requires limit >= 1000 && DistinctIds(history) && covered <= |Older(history, keep)|
    requires Tracks(saved, history, covered, exact) && |Scratch(Older(history, keep))| <= limit
    ensures var older := Older(history, keep);
            Tracks(Incremental(saved, older, limit), history, |older|, exact)
            && Tracks(Incremental(saved, older, limit), older, |older|, exact)
  {
    hide Scratch, Incremental;
    var older := Older(history, keep);
    assert history[..covered] == older[..covered] && history[..|older|] == older == older[..|older|];
    ContinuedTracks(saved, older, covered, exact, limit);
  }

  /** While the summary built from nothing fits, the saved one tracks it, exactly unless a message overtook. */
  lemma {:induction false} ThreadTracks(events: seq<Event>, keep: nat, limit: nat) returns (covered: nat)
    requires limit >= 1000 && NewIds(events, keep, limit)
    requires |Scratch(Older(Normalized(After(events, keep, limit).messages), keep))| <= limit
    ensures var t := After(events, keep, limit);
            DistinctIds(Normalized(t.messages)) && covered <= |Older(Normalized(t.messages), keep)|
            && Tracks(t.saved, Normalized(t.messages), covered, NoneOvertakes(events, keep, limit))
  {
    if events == [] {
      return 0;
    }
    var before, e := events[..|events| - 1], events[|events| - 1];
    var t := After(before, keep, limit);
    assert After(events, keep, limit) == Next(t, e, keep, limit);
    hide Scratch, Tracks, Repaired, Incremental, Normalized, After, Older, Overtakes;
    match e
    case Append(m) =>
      BeforeFits(before, m, keep, limit);
      var c := ThreadTracks(before, keep, limit);
      covered := AppendTracks(t, m, keep, c, NoneOvertakes(before, keep, limit));
    case Persist =>
      var c := ThreadTracks(before, keep, limit);
      PersistTracks(t.saved, Normalized(t.messages), keep, c, NoneOvertakes(before, keep, limit), limit);
      covered := |Older(Normalized(t.messages), keep)|;
  }

  lemma {:induction false} IdsAreDistinct(events: seq<Event>, keep: nat, limit: nat)
    requires limit >= 1000 && NewIds(events, keep, limit)
    ensures DistinctIds(Normalized(After(events, keep, limit).messages))
  {
    if events != [] {
      IdsAreDistinct(events[..|events| - 1], keep, limit);
      if events[|events| - 1].Append? {
        var _ := AppendInserts(After(events[..|events| - 1], keep, limit).messages, events[|events| - 1].message);
      }
    }
  }

  /** What fits after an append fitted before it. */
  lemma BeforeFits(before: seq<Event>, m: Message, keep: nat, limit: nat)
    requires limit >= 1000 && NewIds(before, keep, limit)
    requires forall n :: n in Repaired(After(before, keep, limit).messages).done ==> n.id != m.id
    ensures var ms := After(before, keep, limit).messages;
            |Scratch(Older(Normalized(ms), keep))| <= |Scratch(Older(Normalized(ms + [m]), keep))|
  {
    hide Scratch, Normalized, Repaired;
    var ms := After(before, keep, limit).messages;
    IdsAreDistinct(before, keep, limit);
    var p := AppendInserts(ms, m);
    OlderOfInserted(Normalized(ms), Normalized(ms + [m]), WithTurn(m, AppendedTurn(ms, m)), p, keep);
  }

  /**
   * Over every append-only thread, however often its summary was saved on the way, and while the summary built
   * from nothing fits: the kept summary is that one if and only if no appended message was numbered below the
   * message the saved summary reached to. It always keeps its limit, and with the window the older messages
   * make up the history.
   */
  lemma KeptSummaryIsScratchExactlyWhen(events: seq<Event>, keep: nat, limit: nat)
    requires limit >= 1000 && NewIds(events, keep, limit)
    ensures var t := After(events, keep, limit);
            var history := Normalized(t.messages);
            history == Older(history, keep) + Recent(history, keep)
            && |Incremental(t.saved, Older(history, keep), limit).summary| <= limit
            && (|Scratch(Older(history, keep))| <= limit ==>
                  (Incremental(t.saved, Older(history, keep), limit).summary == Scratch(Older(history, keep))
                   <==> NoneOvertakes(events, keep, limit)))
  {
    hide *;
    var t := After(events, keep, limit);
    var history := Normalized(t.messages);
    WindowSplits(history, keep);
    SummaryFits(t.saved, Older(history, keep), limit);
    if |Scratch(Older(history, keep))| <= limit {
      var covered := ThreadTracks(events, keep, limit);
      PersistTracks(t.saved, history, keep, covered, NoneOvertakes(events, keep, limit), limit);
      var c := Incremental(t.saved, Older(history, keep), limit);
      TrackedSummary(c, Older(history, keep), NoneOvertakes(events, keep, limit));
    }
  }

  lemma TrackedSummary(c: Compaction, older: seq<Numbered>, exact: bool)
    requires Tracks(c, older, |older|, exact)
    ensures c.summary == Scratch(older) <==> exact
  {
    assert older[..|older|] == older;
    assert Map(Line, []) == [];
  }

  /** A message numbered in order, or in a gap the summary has not reached, overtakes nothing. */
  lemma InOrderOvertakesNothing(t: Thread, m: Message)
    requires m.turn.None? || m.turn.value in Repaired(t.messages).used || m.turn.value >= Repaired(t.messages).next
    ensures !Overtakes(t, m)
  {
    var history := Normalized(t.messages);
    NextIsFree(t.messages);
    NormalizedIsStrict(t.messages);
    forall n | n in history ensures n.turn < Repaired(t.messages).next {
      assert n in multiset(history);
    }
    hide Repaired, Normalized;
  }

  /** A message that fills an unused number below the covered part does overtake: its line is lost from then on. */
  lemma GapFillingOvertakes(t: Thread, m: Message, covered: nat, exact: bool)
    requires DistinctIds(Normalized(t.messages)) && Tracks(t.saved, Normalized(t.messages), covered, exact)
        && covered > 0
    requires m.turn.Some? && m.turn.value !in Repaired(t.messages).used
    ensures Overtakes(t, m) <==> m.turn.value < Normalized(t.messages)[covered - 1].turn
  {
    FindAt(Normalized(t.messages), covered - 1);
    hide Normalized, Repaired, Scratch, DistinctIds;
  }

  lemma WindowSplits<T>(history: seq<T>, keep: nat)
    ensures history == Older(history, keep) + Recent(history, keep)
    ensures Older(history, keep) <= history
  {}

  // ----- The assembled context -----

  /** The messages other than the one with the id. */
  function Others(all: seq<Numbered>, id: string): seq<Numbered> {
    match Find(all, id) case None => all case Some(q) => all[..q] + all[q + 1..]
  }

  /** The current message stands before the one the saved summary reaches to. */
  predicate InsideSummary(saved: Compaction, all: seq<Numbered>, current: string) {
    saved.upto.Some? && Find(all, saved.upto.value).Some? && Find(all, current).Some?
    && Find(all, current).value < Find(all, saved.upto.value).value
  }

  lemma OthersAre(all: seq<Numbered>, id: string)
    requires DistinctIds(all)
    ensures forall n :: n in Others(all, id) <==> n in all && n.id != id
    ensures DistinctIds(Others(all, id))
  {
    match Find(all, id) {
      case None =>
      case Some(q) =>
        var others := Others(all, id);
        forall i | 0 <= i < |others| ensures others[i] == all[if i < q then i else i + 1] {}
        forall n | n in all && n.id != id ensures n in others {
          var i :| 0 <= i < |all| && all[i] == n;
          assert others[if i < q then i else i - 1] == n;
        }
    }
  }

  lemma Continued(saved: Compaction, older: seq<Numbered>, i: nat, limit: nat)
    requires limit >= 1000 && saved.upto.Some? && saved.summary != "" && Find(older, saved.upto.value) == Some(i)
    ensures var lines := Map(Line, older[i + 1..]);
            Incremental(saved, older, limit).summary == Bounded(Join("\n", Parts(saved.summary, lines)), limit)
  {
    hide Join, Line, Bounded, Map;
  }

  lemma FromNothing(saved: Compaction, older: seq<Numbered>, limit: nat)
    requires limit >= 1000 && |Scratch(older)| <= limit
    requires saved.upto.Some? ==> Find(older, saved.upto.value).None?
    ensures Incremental(saved, older, limit).summary == Scratch(older)
  {
    hide Join, Line;
    ScratchLengths([], []);
    PartsOfNothing(Map(Line, older));
    BoundedKeeps(Scratch(older), limit);
  }

  /** The current message inside the covered part: its line stays in the summary although it is no history. */
  lemma InsideShows(
    saved: Compaction, all: seq<Numbered>, covered: nat, q: nat, others: seq<Numbered>, older: seq<Numbered>,
      limit: nat)
    requires limit >= 1000 && DistinctIds(all) && Tracks(saved, all, covered, true) && q + 1 < covered
    requires others == all[..q] + all[q + 1..] && older <= others && covered <= |older| + 1 <= |all|
    requires |Scratch(all[..|older| + 1])| <= limit && DistinctIds(others)
    ensures Incremental(saved, older, limit).summary != Scratch(older)
  {
    hide Scratch, Line, Join, Map, Bounded, Find, Incremental;
    var upto := covered - 2;
    assert older[upto] == others[upto] == all[covered - 1];
    assert DistinctIds(older);
    FindAt(older, upto);
    Continued(saved, older, upto, limit);
    var before, pending, whole := all[..covered], older[covered - 1..], all[..|older| + 1];
    assert pending == all[covered..|older| + 1] && whole == before + pending;
    assert whole[..covered] == before && whole[covered..] == pending;
    JoinedParts(whole, covered);
    BoundedKeeps(Scratch(whole), limit);
    assert Inserted(older, whole, all[q], q);
    LongerByALine(older, whole, all[q], q);
  }

  lemma OutsideAgrees(
    saved: Compaction, all: seq<Numbered>, covered: nat, others: seq<Numbered>, older: seq<Numbered>, limit: nat)
    requires limit >= 1000 && DistinctIds(all) && DistinctIds(others) && Tracks(saved, all, covered, true)
    requires older <= others && |Scratch(older)| <= limit
    requires (covered <= |others| && others[..covered] == all[..covered])
        || (covered > 0 && all[covered - 1] !in others)
    requires forall n :: n in others ==> n in all
    ensures Incremental(saved, older, limit).summary == Scratch(older)
  {
    hide Scratch, Incremental, Find;
    if covered <= |others| && others[..covered] == all[..covered] && covered <= |older| {
      assert older[..covered] == all[..covered];
      assert DistinctIds(older);
      ContinuedTracks(saved, older, covered, true, limit);
      TrackedSummary(Incremental(saved, older, limit), older, true);
    } else {
      if covered > 0 {
        UptoIsGone(all, covered, others, older);
        FindNot(older, all[covered - 1].id);
      }
      FromNothing(saved, older, limit);
    }
  }

  lemma UptoIsGone(all: seq<Numbered>, covered: nat, others: seq<Numbered>, older: seq<Numbered>)
    requires DistinctIds(all) && DistinctIds(others) && 0 < covered <= |all| && older <= others
    requires (|older| < covered <= |others| && others[..covered] == all[..covered]) || all[covered - 1] !in others
    requires forall n :: n in others ==> n in all
    ensures forall n :: n in older ==> n.id != all[covered - 1].id
  {
    forall n | n in older ensures n.id != all[covered - 1].id {
      var i :| 0 <= i < |older| && older[i] == n;
      assert others[i] == n && n in others;
      var k :| 0 <= k < |all| && all[k] == n;
      if all[covered - 1] in others {
        assert others[covered - 1] == all[covered - 1];
      }
    }
  }

  /**
   * The context assembled for a current message that may stand anywhere: while the summary of everything fits, the
   * summary given is that of the other older messages if and only if the current one does not stand before the
   * message the saved summary reaches to; and with the window those are all the other messages.
   */
  lemma AssembledContextExactlyWhen(events: seq<Event>, keep: nat, limit: nat, current: string)
    requires limit >= 1000 && NewIds(events, keep, limit) && NoneOvertakes(events, keep, limit)
    ensures var t := After(events, keep, limit);
            var all := Normalized(t.messages);
            var history := Others(all, current);
            history == Older(history, keep) + Recent(history, keep)
            && (|Scratch(Older(all, keep))| <= limit ==>
                  (Incremental(t.saved, Older(history, keep), limit).summary == Scratch(Older(history, keep))
                   <==> !InsideSummary(t.saved, all, current)))
  {
    hide *;
    var t := After(events, keep, limit);
    var all := Normalized(t.messages);
    var history := Others(all, current);
    WindowSplits(history, keep);
    if |Scratch(Older(all, keep))| <= limit {
      var covered := ThreadTracks(events, keep, limit);
      AssembledFrom(t.saved, all, covered, current, keep, limit);
    }
  }

  lemma AssembledFrom(saved: Compaction, all: seq<Numbered>, covered: nat, current: string, keep: nat, limit: nat)
    requires limit >= 1000 && DistinctIds(all) && covered <= |Older(all, keep)| && Tracks(saved, all, covered, true)
    requires |Scratch(Older(all, keep))| <= limit
    ensures var older := Older(Others(all, current), keep);
            Incremental(saved, older, limit).summary == Scratch(older) <==> !InsideSummary(saved, all, current)
  {
    OthersAre(all, current);
    InsideWhen(saved, all, covered, current);
    if Find(all, current).Some? {
      AssembledWithout(saved, all, covered, Find(all, current).value, Others(all, current), keep, limit);
    } else {
      hide Scratch, Incremental, DistinctIds, Find, Tracks;
      OutsideAgrees(saved, all, covered, all, Older(all, keep), limit);
    }
  }

  lemma InsideWhen(saved: Compaction, all: seq<Numbered>, covered: nat, current: string)
    requires DistinctIds(all) && Tracks(saved, all, covered, true)
    ensures InsideSummary(saved, all, current) <==> Find(all, current).Some? && Find(all, current).value + 1 < covered
  {
    hide Scratch, DistinctIds;
    if covered > 0 {
      FindAt(all, covered - 1);
    }
  }

  lemma AssembledWithout(
    saved: Compaction, all: seq<Numbered>, covered: nat, q: nat, others: seq<Numbered>, keep: nat, limit: nat)
    requires limit >= 1000 && DistinctIds(all) && covered <= |Older(all, keep)| && Tracks(saved, all, covered, true)
    requires |Scratch(Older(all, keep))| <= limit && q < |all| && others == all[..q] + all[q + 1..]
    requires DistinctIds(others) && forall n :: n in others <==> n in all && n.id != all[q].id
    ensures var older := Older(others, keep);
            Incremental(saved, older, limit).summary == Scratch(older) <==> !(q + 1 < covered)
  {
    hide Scratch, Incremental, DistinctIds, Tracks;
    var older := Older(others, keep);
    OlderOfOthers(all, others, q, keep);
    if q + 1 < covered {
      assert all[..|older| + 1] == Older(all, keep);
      InsideShows(saved, all, covered, q, others, older, limit);
    } else {
      if q >= covered {
        CoveredStays(all, covered, q, others);
      }
      OutsideAgrees(saved, all, covered, others, older, limit);
    }
  }

  lemma CoveredStays(all: seq<Numbered>, covered: nat, q: nat, others: seq<Numbered>)
    requires covered <= q < |all| && others == all[..q] + all[q + 1..]
    ensures covered <= |others| && others[..covered] == all[..covered]
  {}

  lemma OlderOfOthers(all: seq<Numbered>, others: seq<Numbered>, q: nat, keep: nat)
    requires q < |all| && others == all[..q] + all[q + 1..]
    ensures Older(all, keep) != [] ==> |Older(others, keep)| + 1 == |Older(all, keep)|
    ensures |Scratch(Older(others, keep))| <= |Scratch(Older(all, keep))|
  {
    hide Scratch;
    assert all == others[..q] + [all[q]] + others[q..];
    OlderOfInserted(others, all, all[q], q, keep);
  }
}
