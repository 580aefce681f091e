/** The capacity probe's decoder of server-sent event blocks that arrive in arbitrary network chunks. */
module SseDecoder {
  import opened IncrementalReader
  import opened Sequences

  /** `json.loads` on the data of a block; a null value is taken for no event. */
  datatype Loaded<T> = Fails | Null | Event(value: T)

  datatype Error = InvalidJson

  // ----- One block -----

  const CRLF := "\r\n"

  function Normalised(text: string): string {
    Replace(text, CRLF, "\n")
  }

  /** The characters `str.splitlines` breaks at. */
  predicate EndsLine(c: char) {
    var n := c as int;
    10 <= n <= 13 || 28 <= n <= 30 || n == 0x85 || n == 0x2028 || n == 0x2029
  }

  function LineLength(s: string): (n: nat)
    ensures n <= |s|
  {
    if s == "" || EndsLine(s[0]) then 0 else 1 + LineLength(s[1..])
  }

  function SplitLines(s: string): seq<string>
    decreases |s|
  {
    if s == "" then []
    else
      var n := LineLength(s);
      if n == |s| then [s]
      else [s[..n]] + SplitLines(if CRLF <= s[n..] then s[n + 2..] else s[n + 1..])
  }

  function DataOf(block: string): string {
    Join("\n", Map((line: string) => if "data:" <= line then LStrip(line[5..]) else "",
                   Filter((line: string) => "data:" <= line, SplitLines(block))))
  }

  /** `_decode_block`. */
  function DecodeBlock<T>(loads: string -> Loaded<T>, block: string): Loaded<T> {
    if DataOf(block) == "" then Null else loads(DataOf(block))
  }

  function Taken<T>(events: seq<T>, decoded: Loaded<T>): (seq<T>, Option<Error>) {
    match decoded
    case Fails => (events, Some(InvalidJson))
    case Null => (events, None)
    case Event(value) => (events + [value], None)
  }

  function Collector<T>(loads: string -> Loaded<T>): Processor<seq<T>, Error> {
    (events: seq<T>, block: string) => Taken(events, DecodeBlock(loads, block))
  }

  // ----- The buffer -----

  function BlockEnd(s: string): (r: Option<nat>)
    ensures r.Some? ==> r.value + 2 <= |s|
  {
    if |s| < 2 then None
    else if s[0] == '\n' && s[1] == '\n' then Some(0)
    else match BlockEnd(s[1..]) case None => None case Some(i) => Some(i + 1)
  }

  /** `split("\n\n", 1)`. */
  function NextBlock(buffer: string): (r: Head)
    ensures r.Unit? ==> |r.rest| < |buffer|
  {
    if buffer == "" then Blank
    else match BlockEnd(buffer) case None => Unfinished(buffer) case Some(i) => Unit(buffer[..i], buffer[i + 2..])
  }

  const BLOCKS: Lexer := NextBlock

  /** The final call: what is left is a block of its own, unless it is white space. */
  function Flushed<T>(loads: string -> Loaded<T>, d: Progress<seq<T>, Error>): Progress<seq<T>, Error> {
    if d.error.Some? || Strip(d.buffer) == "" then d
    else
      var (events, error) := Collector(loads)(d.state, d.buffer);
      Progress(events, if error.Some? then d.buffer else "", error)
  }

  lemma DrainStep<T>(loads: string -> Loaded<T>, events: seq<T>, buffer: string)
    ensures BlockEnd(buffer).None? ==> Drain(BLOCKS, Collector(loads), events, buffer) == Progress(events, buffer, None)
    ensures BlockEnd(buffer).Some? ==>
              var i := BlockEnd(buffer).value;
              var (after, error) := Taken(events, DecodeBlock(loads, buffer[..i]));
              Drain(BLOCKS, Collector(loads), events, buffer)
              == if error.Some? then Progress(after, buffer[i + 2..], error)
                 else Drain(BLOCKS, Collector(loads), after, buffer[i + 2..])
  {
    hide DecodeBlock, BlockEnd;
  }

  // ----- What is decoded -----

  /** The characters that end a line: line feeds and tabs, carriage returns, three separators and three of Unicode. */
  lemma LineEndingsAre(c: char)
    ensures EndsLine(c) <==>
              c in {'\n', 11 as char, 12 as char, '\r', 28 as char, 29 as char, 30 as char, 0x85 as char,
                    0x2028 as char, 0x2029 as char}
  {}

  /** A line runs to the next character that ends one; a carriage return and the line feed after it end it together. */
  lemma {:induction false} LineEnds(line: string, end: string, rest: string)
    requires forall c :: c in line ==> !EndsLine(c)
    requires end == CRLF || (|end| == 1 && EndsLine(end[0]) && !(CRLF <= end + rest))
    ensures SplitLines(line + end + rest) == [line] + SplitLines(rest)
  {
    var s := line + end + rest;
    LineStops(line, end + rest);
    hide EndsLine;
    assert s == line + (end + rest);
    assert s[..|line|] == line && s[|line|..] == end + rest;
    if end == CRLF {
      assert s[|line| + 2..] == rest;
    } else {
      assert s[|line| + 1..] == rest;
    }
  }

  lemma {:induction false} LineStops(line: string, rest: string)
    requires forall c :: c in line ==> !EndsLine(c)
    requires rest != "" && (EndsLine(rest[0]) || CRLF <= rest)
    ensures LineLength(line + rest) == |line|
  {
    assert EndsLine(CRLF[0]);
    hide EndsLine;
    if line == "" {
      assert line + rest == rest;
    } else {
      assert (line + rest)[1..] == line[1..] + rest;
      LineStops(line[1..], rest);
    }
  }

  /** The data of a block are its lines that start with "data:", in order, each stripped on the left, put together. */
  lemma DataExactly(block: string) returns (positions: seq<nat>, parts: seq<string>)
    ensures DataOf(block) == Join("\n", parts) && |parts| == |positions|
    ensures forall k :: 0 <= k < |parts| ==>
              positions[k] < |SplitLines(block)| && |SplitLines(block)[positions[k]]| >= 5
              && parts[k] == LStrip(SplitLines(block)[positions[k]][5..])
    ensures forall j, k :: 0 <= j < k < |positions| ==> positions[j] < positions[k]
    ensures forall i :: 0 <= i < |SplitLines(block)| ==>
              (i in positions <==> |SplitLines(block)[i]| >= 5 && SplitLines(block)[i][..5] == "data:")
  {
    hide SplitLines, Join, LStrip;
    positions := FilterPicks((line: string) => "data:" <= line, SplitLines(block));
    parts := Map((line: string) => if "data:" <= line then LStrip(line[5..]) else "",
                 Filter((line: string) => "data:" <= line, SplitLines(block)));
    hide Filter, Map;
  }

  /** The final call decodes what is left unless it is white space, and forgets it unless it can not be read. */
  lemma FlushedExactly<T>(loads: string -> Loaded<T>, d: Progress<seq<T>, Error>)
    requires d.error.None?
    ensures var f := Flushed(loads, d);
            if WhiteOnly(d.buffer) then f == d
            else
              var loaded := if DataOf(d.buffer) == "" then Null else loads(DataOf(d.buffer));
              f == if loaded.Fails? then d.(error := Some(InvalidJson))
                   else if loaded.Null? then d.(buffer := "")
                   else d.(state := d.state + [loaded.value], buffer := "")
  {
    hide DataOf, Strip;
    BlankExactlyWhen(d.buffer);
    assert Collector(loads)(d.state, d.buffer) == Taken(d.state, DecodeBlock(loads, d.buffer));
  }

  class Decoder<T> {
    const loads: string -> Loaded<T>
    var buffer: string

    constructor (loads: string -> Loaded<T>)
      ensures this.loads == loads && buffer == ""
    {
      this.loads := loads;
      buffer := "";
    }

    method Feed(chunk: string, final: bool) returns (events: seq<T>, error: Option<Error>)
      modifies this
      ensures var d := Drain(BLOCKS, Collector(loads), [], old(buffer) + Normalised(chunk));
              var f := if final then Flushed(loads, d) else d;
              events == f.state && error == f.error && buffer == f.buffer
    {
      hide DecodeBlock, Normalised, Strip, Drain, BlockEnd;
      events, error := [], None;
      buffer := buffer + Normalised(chunk);
      ghost var goal := Drain(BLOCKS, Collector(loads), [], buffer);
      while BlockEnd(buffer).Some?
        invariant Drain(BLOCKS, Collector(loads), events, buffer) == goal && error.None?
        decreases |buffer|
      {
        DrainStep(loads, events, buffer);
        var i := BlockEnd(buffer).value;
        var block := buffer[..i];
        buffer := buffer[i + 2..];
        match DecodeBlock(loads, block)
        case Fails =>
          error := Some(InvalidJson);
          return;
        case Null =>
        case Event(value) =>
          events := events + [value];
      }
      DrainStep(loads, events, buffer);
      if final && Strip(buffer) != "" {
        match DecodeBlock(loads, buffer) {
          case Fails =>
            error := Some(InvalidJson);
            return;
          case Null =>
          case Event(value) =>
            events := events + [value];
        }
        buffer := "";
      }
    }
  }

  // ----- Chunking -----

  /** One `Feed` per chunk, the events put end to end, until one raises. */
  function Fed<T>(
    loads: string -> Loaded<T>, events: seq<T>, buffer: string, chunks: seq<string>): Progress<seq<T>, Error>
    decreases |chunks|
  {
    if chunks == [] then Progress(events, buffer, None)
    else
      var d := Drain(BLOCKS, Collector(loads), [], buffer + Normalised(chunks[0]));
      if d.error.Some? then d.(state := events + d.state) else Fed(loads, events + d.state, d.buffer, chunks[1..])
  }

  /** A collector that already holds events adds the same ones behind them. */
  lemma {:induction false} DrainBehind<T>(loads: string -> Loaded<T>, events: seq<T>, some: seq<T>, buffer: string)
    ensures var d := Drain(BLOCKS, Collector(loads), some, buffer);
            Drain(BLOCKS, Collector(loads), events + some, buffer) == d.(state := events + d.state)
    decreases |buffer|
  {
    hide DecodeBlock, BlockEnd;
    match NextBlock(buffer)
    case Blank =>
    case Unfinished(_) =>
    case Unit(block, rest) =>
      match DecodeBlock(loads, block)
      case Fails =>
      case Null => DrainBehind(loads, events, some, rest);
      case Event(value) =>
        DrainBehind(loads, events, some + [value], rest);
        assert events + some + [value] == events + (some + [value]);
  }

  predicate AnyText(s: string) { true }

  lemma {:induction false} BlockEndIsStable(a: string, b: string)
    requires BlockEnd(a).Some?
    ensures BlockEnd(a + b) == BlockEnd(a)
  {
    if !(a[0] == '\n' && a[1] == '\n') {
      assert (a + b)[1..] == a[1..] + b;
      BlockEndIsStable(a[1..], b);
    }
  }

  lemma BlocksAreCutSafe()
    ensures CutSafe(BLOCKS, AnyText)
  {
    forall a, b | AnyText(a + b) ensures Resumes(BLOCKS, AnyText, a, b) {
      if a == "" {
        assert a + b == b;
      } else if BlockEnd(a).Some? {
        BlockEndIsStable(a, b);
        var i := BlockEnd(a).value;
        assert (a + b)[..i] == a[..i] && (a + b)[i + 2..] == a[i + 2..] + b;
      }
    }
  }

  lemma {:induction false} FedIsDrain<T>(
    loads: string -> Loaded<T>, events: seq<T>, buffer: string, chunks: seq<string>)
    requires Settled(BLOCKS, buffer)
    ensures var parts := Fed(loads, events, buffer, chunks);
            var whole := Drain(BLOCKS, Collector(loads), events, buffer + Concat(Map(Normalised, chunks)));
            parts.state == whole.state && parts.error == whole.error
            && (parts.error.None? ==> parts.buffer == whole.buffer)
    decreases |chunks|
  {
    hide Normalised, BlockEnd, DecodeBlock;
    if chunks == [] {
      assert buffer + Concat(Map(Normalised, chunks)) == buffer;
    } else {
      var c, rest := Normalised(chunks[0]), Map(Normalised, chunks[1..]);
      assert Map(Normalised, chunks) == [c] + rest;
      ConcatAppend([c], rest);
      assert Concat([c]) == c;
      assert buffer + Concat([c] + rest) == (buffer + c) + Concat(rest);
      BlocksAreCutSafe();
      DrainSplit(BLOCKS, AnyText, Collector(loads), events, buffer + c, Concat(rest));
      DrainBehind(loads, events, [], buffer + c);
      assert events + [] == events;
      hide Concat, Map, Settled;
      var d := Drain(BLOCKS, Collector(loads), [], buffer + c);
      if d.error.None? {
        FedIsDrain(loads, events + d.state, d.buffer, chunks[1..]);
      }
    }
  }

  /** A chunk boundary lies between a carriage return and its line feed. */
  predicate CutsCrlf(a: string, b: string) {
    a != "" && b != "" && a[|a| - 1] == '\r' && b[0] == '\n'
  }

  predicate SplitsAnyCrlf(chunks: seq<string>) {
    chunks != []
    && (SplitsAnyCrlf(chunks[..|chunks| - 1]) || CutsCrlf(Concat(chunks[..|chunks| - 1]), chunks[|chunks| - 1]))
  }

  function Lead(s: string): string
    requires |s| >= 2
  {
    if s[..2] == CRLF then "\n" else [s[0]]
  }

  function After(s: string): (r: string)
    requires |s| >= 2
    ensures |r| < |s|
  {
    if s[..2] == CRLF then s[2..] else s[1..]
  }

  lemma NormalisedStep(s: string)
    requires |s| >= 2
    ensures Normalised(s) == Lead(s) + Normalised(After(s))
  {}

  lemma StepOfBoth(a: string, b: string)
    requires |a| >= 2
    ensures Lead(a + b) == Lead(a) && After(a + b) == After(a) + b
    ensures CutsCrlf(a, b) <==> CutsCrlf(After(a), b)
  {
    assert (a + b)[..2] == a[..2] && (a + b)[2..] == a[2..] + b && (a + b)[1..] == a[1..] + b;
  }

  lemma {:induction false} NormalisedAppend(a: string, b: string)
    ensures !CutsCrlf(a, b) ==> Normalised(a + b) == Normalised(a) + Normalised(b)
    ensures CutsCrlf(a, b) ==> |Normalised(a + b)| == |Normalised(a)| + |Normalised(b)| - 1
    decreases |a|
  {
    if a == "" {
      assert a + b == b;
    } else if |a| == 1 {
      ShortTexts(a, b);
    } else {
      hide *;
      NormalisedStep(a);
      NormalisedStep(a + b);
      StepOfBoth(a, b);
      NormalisedAppend(After(a), b);
    }
  }

  lemma ShortTexts(a: string, b: string)
    requires |a| == 1
    ensures !CutsCrlf(a, b) ==> Normalised(a + b) == a + Normalised(b)
    ensures CutsCrlf(a, b) ==> |Normalised(a + b)| == |Normalised(b)|
    ensures Normalised(a) == a
  {
    assert (a + b)[1..] == b && (a + b)[0] == a[0];
    if b == "" {
      assert a + b == a;
    } else {
      assert (a + b)[..2] == [a[0], b[0]];
      if CutsCrlf(a, b) {
        assert (a + b)[..2] == CRLF;
        assert (a + b)[2..] == b[1..];
        assert |b| >= 2 ==> b[..2][0] == '\n';
        assert Normalised(b) == [b[0]] + Normalised(b[1..]);
      }
    }
  }

  /** What the decoder works on is the normalised text exactly when no chunk boundary splits a line ending. */
  lemma {:induction false} NormalisedExactlyWhen(chunks: seq<string>)
    ensures Concat(Map(Normalised, chunks)) == Normalised(Concat(chunks)) <==> !SplitsAnyCrlf(chunks)
    ensures SplitsAnyCrlf(chunks) ==> |Normalised(Concat(chunks))| < |Concat(Map(Normalised, chunks))|
  {
    if chunks != [] {
      var init, c := chunks[..|chunks| - 1], chunks[|chunks| - 1];
      assert chunks == init + [c];
      MapAdd(Normalised, init, c);
      hide Normalised, Map;
      NormalisedExactlyWhen(init);
      NormalisedAppend(Concat(init), c);
      assert Concat(chunks) == Concat(init) + c;
      assert (Map(Normalised, init) + [Normalised(c)])[..|init|] == Map(Normalised, init);
      assert Concat(Map(Normalised, chunks)) == Concat(Map(Normalised, init)) + Normalised(c);
      hide Concat, CutsCrlf;
    }
  }

  lemma {:induction false} NoCrlfToSplit(chunks: seq<string>)
    requires '\r' !in Concat(chunks)
    ensures !SplitsAnyCrlf(chunks)
  {
    if chunks != [] {
      NoCrlfToSplit(chunks[..|chunks| - 1]);
    }
  }

  /**
   * Two chunkings of one text, neither splitting a line ending, followed by the final call give the same events,
   * or fail alike; for a text without carriage returns that is every chunking.
   */
  lemma ChunkingDoesNotChangeTheEvents<T>(loads: string -> Loaded<T>, one: seq<string>, other: seq<string>)
    requires Concat(one) == Concat(other)
    requires '\r' !in Concat(one) || (!SplitsAnyCrlf(one) && !SplitsAnyCrlf(other))
    ensures var x := Flushed(loads, Fed(loads, [], "", one));
            var y := Flushed(loads, Fed(loads, [], "", other));
            x.state == y.state && x.error == y.error
  {
    if '\r' !in Concat(one) {
      NoCrlfToSplit(one);
      NoCrlfToSplit(other);
    }
    NormalisedExactlyWhen(one);
    NormalisedExactlyWhen(other);
    FedIsDrain(loads, [], "", one);
    FedIsDrain(loads, [], "", other);
    hide Fed, Normalised, Concat, Map, Strip, DecodeBlock;
  }

  predicate OnOneLine(s: string) { '\r' !in s && '\n' !in s }

  lemma {:induction false} OneLine(s: string, t: string)
    requires OnOneLine(s)
    ensures Normalised(s) == s
    ensures BlockEnd(s + t) == (match BlockEnd(t) case None => None case Some(i) => Some(|s| + i))
  {
    if s == "" {
      assert s + t == t;
    } else {
      assert s == [s[0]] + s[1..];
      assert (s + t)[1..] == s[1..] + t;
      OneLine(s[1..], t);
      assert |s| >= 2 ==> s[..2][0] != '\r';
    }
  }

  lemma LineEndings()
    ensures Normalised(CRLF) == "\n" && Normalised("\r") == "\r" && Normalised("\n") == "\n"
  {
    assert CRLF[..2] == CRLF && CRLF[2..] == "";
  }

  /**
   * Any two blocks of one line each, cut inside the line ending that closes the first: what should be two blocks
   * is read as one, so the condition on the cuts can not be dropped.
   */
  lemma SplitCrlfJoinsBlocks(a: string, b: string)
    requires OnOneLine(a) && OnOneLine(b) && b != ""
    ensures var first, second := a + CRLF + "\r", "\n" + (b + CRLF + CRLF);
            NextBlock(Normalised(first + second)) == Unit(a, b + "\n\n")
            && NextBlock(Normalised(first) + Normalised(second)) == Unit(a + "\n\r\n" + b, "")
  {
    assert (a + CRLF + "\r") + ("\n" + (b + CRLF + CRLF)) == a + CRLF + CRLF + (b + CRLF + CRLF);
    hide *;
    LineEndings();
    OneLine(a, "");
    OneLine(b, "");
    NormalisedParts(a, b);
    assert a + "\n" + "\n" + (b + "\n" + "\n") == a + ("\n\n" + (b + "\n\n"));
    assert (a + "\n" + "\r") + ("\n" + (b + "\n" + "\n")) == a + ("\n\r\n" + (b + "\n\n"));
    TwoBlocks(a, b + "\n\n");
    JoinedBlocks(a, b);
  }

  lemma BlockIsNext(before: string, after: string)
    requires BlockEnd(before + ("\n\n" + after)) == Some(|before|)
    ensures NextBlock(before + ("\n\n" + after)) == Unit(before, after)
  {
    hide BlockEnd;
    var s := before + ("\n\n" + after);
    assert s[..|before|] == before && s[|before| + 2..] == after;
  }

  lemma TwoBlocks(a: string, b: string)
    requires OnOneLine(a)
    ensures NextBlock(a + ("\n\n" + b)) == Unit(a, b)
  {
    OneLine(a, "\n\n" + b);
    assert BlockEnd("\n\n" + b) == Some(0);
    hide BlockEnd, NextBlock;
    BlockIsNext(a, b);
  }

  lemma JoinedBlocks(a: string, b: string)
    requires OnOneLine(a) && OnOneLine(b) && b != ""
    ensures NextBlock(a + ("\n\r\n" + (b + "\n\n"))) == Unit(a + "\n\r\n" + b, "")
  {
    assert b[0] in b;
    OneLine(a, "\n\r\n" + (b + "\n\n"));
    OneLine(b, "\n\n");
    assert BlockEnd("\n\n") == Some(0);
    BetweenBlocks(b + "\n\n");
    hide *;
    assert a + ("\n\r\n" + (b + "\n\n")) == (a + "\n\r\n" + b) + ("\n\n" + "");
    BlockIsNext(a + "\n\r\n" + b, "");
  }

  lemma NormalisedParts(a: string, b: string)
    requires OnOneLine(a) && OnOneLine(b) && Normalised(a) == a && Normalised(b) == b
    requires Normalised(CRLF) == "\n" && Normalised("\r") == "\r" && Normalised("\n") == "\n"
    ensures Normalised(a + CRLF + "\r") == a + "\n" + "\r"
    ensures Normalised(b + CRLF + CRLF) == b + "\n" + "\n"
    ensures Normalised("\n" + (b + CRLF + CRLF)) == "\n" + (b + "\n" + "\n")
    ensures Normalised(a + CRLF + CRLF + (b + CRLF + CRLF)) == a + "\n" + "\n" + (b + "\n" + "\n")
  {
    hide Normalised;
    NormalisedAppend(a, CRLF);
    NormalisedAppend(b, CRLF);
    NormalisedAppend(a + CRLF, "\r");
    NormalisedAppend(a + CRLF, CRLF);
    NormalisedAppend(b + CRLF, CRLF);
    NormalisedAppend("\n", b + CRLF + CRLF);
    NormalisedAppend(a + CRLF + CRLF, b + CRLF + CRLF);
  }

  lemma BetweenBlocks(t: string)
    requires t != "" && t[0] != '\n'
    ensures BlockEnd("\n\r\n" + t) == (match BlockEnd(t) case None => None case Some(i) => Some(3 + i))
    ensures BlockEnd("\n\n" + t) == Some(0)
  {
    assert ("\n\r\n" + t)[1..] == "\r\n" + t && ("\r\n" + t)[1..] == "\n" + t && ("\n" + t)[1..] == t;
    assert BlockEnd("\n" + t) == (match BlockEnd(t) case None => None case Some(i) => Some(1 + i));
    assert BlockEnd("\r\n" + t) == (match BlockEnd(t) case None => None case Some(i) => Some(2 + i));
  }

  // ----- The events differ -----

  /** A value that fills its line: no line end in it and no white space before it. */
  predicate Fills(s: string) {
    s != "" && !IsSpace(s[0]) && OnOneLine(s) && forall c :: c in s ==> !EndsLine(c)
  }

  lemma {:induction false} LineIsWhole(s: string)
    requires forall c :: c in s ==> !EndsLine(c)
    ensures LineLength(s) == |s|
  {
    if s != "" {
      assert s[0] in s && forall c :: c in s[1..] ==> c in s;
      LineIsWhole(s[1..]);
    }
  }

  lemma DataOfLine(s: string)
    requires Fills(s)
    ensures DataOf("data:" + s) == s
  {
    var line := "data:" + s;
    assert forall c :: c in line ==> c in "data:" || c in s;
    LineIsWhole(line);
    assert SplitLines(line) == [line];
    assert line[5..] == s && "data:" <= line;
    var p := (x: string) => "data:" <= x;
    FilterAdd(p, [], line);
    assert [] + [line] == [line];
    hide SplitLines, Filter;
    assert Filter(p, SplitLines(line)) == [line];
    var f := (x: string) => if "data:" <= x then LStrip(x[5..]) else "";
    MapAdd(f, [], line);
    JoinAdd("\n", [], s);
    assert [] + [f(line)] == [f(line)] && [] + [s] == [s] && f(line) == s;
  }

  /** Feeding from scratch hands on the blocks of the normalised text. */
  lemma FedFromScratch<T>(loads: string -> Loaded<T>, chunks: seq<string>, text: string)
    requires Concat(Map(Normalised, chunks)) == text
    ensures var parts := Fed(loads, [], "", chunks);
            var whole := Drain(BLOCKS, Collector(loads), [], text);
            parts.state == whole.state && parts.error == whole.error
            && (parts.error.None? ==> parts.buffer == whole.buffer)
  {
    FedIsDrain(loads, [], "", chunks);
    assert "" + text == text;
    hide Fed, Normalised, Concat, Map;
  }

  lemma OneBlock<T>(loads: string -> Loaded<T>, events: seq<T>, text: string, block: string, rest: string)
    requires NextBlock(text) == Unit(block, rest)
    ensures var (after, error) := Taken(events, DecodeBlock(loads, block));
            Drain(BLOCKS, Collector(loads), events, text)
            == if error.Some? then Progress(after, rest, error) else Drain(BLOCKS, Collector(loads), after, rest)
  {
    hide DecodeBlock, NextBlock;
  }

  lemma BlockOfLine<T>(loads: string -> Loaded<T>, s: string)
    requires Fills(s)
    ensures DecodeBlock(loads, "data:" + s) == loads(s)
  {
    hide DataOf;
    DataOfLine(s);
  }

  /**
   * The same two events, their text cut inside the line ending that closes the first: whole, both are delivered,
   * cut, at most one is, whatever the joined block loads as.
   */
  lemma SplitCrlfLosesAnEvent<T>(loads: string -> Loaded<T>, x: string, y: string)
    requires Fills(x) && Fills(y) && loads(x).Event? && loads(y).Event?
    ensures var first, second := "data:" + x + CRLF + "\r", "\n" + ("data:" + y + CRLF + CRLF);
            Flushed(loads, Fed(loads, [], "", [first + second])).state == [loads(x).value, loads(y).value]
            && |Flushed(loads, Fed(loads, [], "", [first, second])).state| <= 1
  {
    hide *;
    BlocksOfSamples("data:" + x, "data:" + y);
    ColonLines(x, y);
    BlockOfLine(loads, x);
    BlockOfLine(loads, y);
    LostInside(loads, "data:" + x, "data:" + y, loads(x), loads(y));
  }

  lemma ColonLines(x: string, y: string)
    requires Fills(x) && Fills(y)
    ensures OnOneLine("data:" + x) && OnOneLine("data:" + y)
  {}

  lemma BlocksOfSamples(a: string, b: string)
    ensures OnOneLine(a) && OnOneLine(b) && b != "" ==>
              var first, second := a + CRLF + "\r", "\n" + (b + CRLF + CRLF);
              NextBlock(Normalised(first + second)) == Unit(a, b + "\n\n")
              && NextBlock(Normalised(first) + Normalised(second)) == Unit(a + "\n\r\n" + b, "")
              && NextBlock(b + "\n\n") == Unit(b, "")
  {
    hide *;
    if OnOneLine(a) && OnOneLine(b) && b != "" {
      SplitCrlfJoinsBlocks(a, b);
      TwoBlocks(b, "");
      assert b + ("\n\n" + "") == b + "\n\n";
    }
  }

  /** Two blocks that load, read whole and read with the second joined to the first. */
  lemma LostInside<T>(loads: string -> Loaded<T>, a: string, b: string, v: Loaded<T>, w: Loaded<T>)
    requires OnOneLine(a) && OnOneLine(b) && b != "" && v.Event? && w.Event?
    requires DecodeBlock(loads, a) == v && DecodeBlock(loads, b) == w
    ensures var first, second := a + CRLF + "\r", "\n" + (b + CRLF + CRLF);
            Flushed(loads, Fed(loads, [], "", [first + second])).state == [v.value, w.value]
            && |Flushed(loads, Fed(loads, [], "", [first, second])).state| <= 1
  {
    hide *;
    var first, second := a + CRLF + "\r", "\n" + (b + CRLF + CRLF);
    var whole, cut := Normalised(first + second), Normalised(first) + Normalised(second);
    BlocksOfSamples(a, b);
    TextOfOne(first + second);
    TextOfTwo(first, second);
    FedFromScratch(loads, [first + second], whole);
    FedFromScratch(loads, [first, second], cut);
    WholeDrain(loads, whole, a, b, b + "\n\n");
    CutDrain(loads, cut, a + "\n\r\n" + b);
    NothingLeft(loads, Fed(loads, [], "", [first + second]));
    NothingLeft(loads, Fed(loads, [], "", [first, second]));
  }

  lemma WholeDrain<T>(loads: string -> Loaded<T>, text: string, a: string, b: string, rest: string)
    requires NextBlock(text) == Unit(a, rest) && NextBlock(rest) == Unit(b, "")
    requires DecodeBlock(loads, a).Event? && DecodeBlock(loads, b).Event?
    ensures Drain(BLOCKS, Collector(loads), [], text)
         == Progress([DecodeBlock(loads, a).value, DecodeBlock(loads, b).value], "", None)
  {
    hide DecodeBlock, NextBlock;
    var v, w := DecodeBlock(loads, a).value, DecodeBlock(loads, b).value;
    OneBlock(loads, [], text, a, rest);
    OneBlock(loads, [v], rest, b, "");
    NothingIsBlank();
    assert [] + [v] == [v] && [v] + [w] == [v, w];
    assert Drain(BLOCKS, Collector(loads), [v, w], "") == Progress([v, w], "", None);
  }

  lemma NothingIsBlank()
    ensures NextBlock("").Blank?
  {}

  lemma CutDrain<T>(loads: string -> Loaded<T>, text: string, block: string)
    requires NextBlock(text) == Unit(block, "")
    ensures var d := Drain(BLOCKS, Collector(loads), [], text); |d.state| <= 1 && d.buffer == ""
  {
    hide DecodeBlock, NextBlock;
    OneBlock(loads, [], text, block, "");
    NothingIsBlank();
  }

  lemma TextOfOne(a: string)
    ensures Concat(Map(Normalised, [a])) == Normalised(a)
  {
    hide Normalised;
    assert [a][..0] == [];
  }

  lemma TextOfTwo(a: string, b: string)
    ensures Concat(Map(Normalised, [a, b])) == Normalised(a) + Normalised(b)
  {
    assert [a, b] == [a] + [b];
    TextOfOne(a);
    OneText(Normalised(b));
    hide Normalised, Map, Concat;
    MapAdd(Normalised, [a], b);
    ConcatAppend(Map(Normalised, [a]), [Normalised(b)]);
  }

  lemma OneText(s: string)
    ensures Concat([s]) == s
  {
    assert [s][..0] == [];
  }

  lemma NothingLeft<T>(loads: string -> Loaded<T>, d: Progress<seq<T>, Error>)
    ensures d.error.Some? || d.buffer == "" ==> Flushed(loads, d) == d
  {
    assert LStrip("") == "" && Strip("") == "";
    hide DecodeBlock;
  }
}
