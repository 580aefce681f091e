/**
 * The lexer shared by the answer assembler and the direct-reply assembler: white space and code fences are
 * stripped, and a JSON decoder reports where the first value ends.
 */
module JsonUnits {
  import opened IncrementalReader
  import opened Sequences

  // ----- Where a JSON value ends (RFC 8259, sections 2 to 7) -----

  datatype Container = InObject | InArray

  datatype Mode =
    | Value | FirstElement | FirstKey | Key | Colon | AfterValue
    | Text(key: bool) | Escape(key: bool) | Hex(key: bool, left: nat)
    | Literal(rest: string)
    | Minus | Zero | Digits | Point | Fraction | Exponent | ExponentSign | ExponentDigits
    | Closed | Broken

  /** The state of a reader inside a container or a string: what it expects, and the open containers. */
  datatype Reader = Reader(mode: Mode, open: seq<Container>)

  predicate IsJsonSpace(c: char) { c == ' ' || c == '\t' || c == '\n' || c == '\r' }
  predicate IsHexDigit(c: char) { IsDecimalDigit(c) || 'a' <= c <= 'f' || 'A' <= c <= 'F' }

  function Completed(open: seq<Container>): Reader {
    Reader(if open == [] then Closed else AfterValue, open)
  }

  function Close(open: seq<Container>, kind: Container): Reader {
    if open != [] && open[|open| - 1] == kind then Completed(open[..|open| - 1]) else Reader(Broken, open)
  }

  function StartValue(c: char, open: seq<Container>): Reader {
    if c == '"' then Reader(Text(false), open)
    else if c == '{' then Reader(FirstKey, open + [InObject])
    else if c == '[' then Reader(FirstElement, open + [InArray])
    else if c == '-' then Reader(Minus, open)
    else if c == '0' then Reader(Zero, open)
    else if IsDecimalDigit(c) then Reader(Digits, open)
    else if c == 't' then Reader(Literal("rue"), open)
    else if c == 'f' then Reader(Literal("alse"), open)
    else if c == 'n' then Reader(Literal("ull"), open)
    else if c == 'N' then Reader(Literal("aN"), open)
    else if c == 'I' then Reader(Literal("nfinity"), open)
    else Reader(Broken, open)
  }

  function AfterValueStep(c: char, open: seq<Container>): Reader {
    if IsJsonSpace(c) then Reader(AfterValue, open)
    else if c == ',' && open != [] then Reader(if open[|open| - 1].InObject? then Key else Value, open)
    else if c == '}' then Close(open, InObject)
    else if c == ']' then Close(open, InArray)
    else Reader(Broken, open)
  }

  /** One character of a string, array or object. */
  function Step(reader: Reader, c: char): Reader {
    var open := reader.open;
    match reader.mode
    case Value => if IsJsonSpace(c) then reader else StartValue(c, open)
    case FirstElement =>
      if IsJsonSpace(c) then reader else if c == ']' then Close(open, InArray) else StartValue(c, open)
    case FirstKey =>
      if IsJsonSpace(c) then reader
      else if c == '}' then Close(open, InObject)
      else if c == '"' then Reader(Text(true), open) else Reader(Broken, open)
    case Key =>
      if IsJsonSpace(c) then reader else if c == '"' then Reader(Text(true), open) else Reader(Broken, open)
    case Colon => if IsJsonSpace(c) then reader else Reader(if c == ':' then Value else Broken, open)
    case AfterValue => AfterValueStep(c, open)
    case Text(key) =>
      if c == '"' then (if key then Reader(Colon, open) else Completed(open))
      else if c == '\\' then Reader(Escape(key), open)
      else if (c as int) < 0x20 then Reader(Broken, open) else reader
    case Escape(key) =>
      if c == 'u' then Reader(Hex(key, 4), open)
      else if c in "\"\\/bfnrt" then Reader(Text(key), open) else Reader(Broken, open)
    case Hex(key, left) =>
      if !IsHexDigit(c) then Reader(Broken, open)
      else Reader(if left <= 1 then Text(key) else Hex(key, left - 1), open)
    case Literal(rest) =>
      if rest == "" || rest[0] != c then Reader(Broken, open)
      else if |rest| == 1 then Completed(open) else Reader(Literal(rest[1..]), open)
    case Minus =>
      Reader(if c == '0' then Zero else if IsDecimalDigit(c) then Digits
             else if c == 'I' then Literal("nfinity") else Broken, open)
    case Zero =>
      if c == '.' then Reader(Point, open) else if c in "eE" then Reader(Exponent, open) else AfterValueStep(c, open)
    case Digits =>
      if IsDecimalDigit(c) then reader else if c == '.' then Reader(Point, open)
      else if c in "eE" then Reader(Exponent, open) else AfterValueStep(c, open)
    case Point => Reader(if IsDecimalDigit(c) then Fraction else Broken, open)
    case Fraction =>
      if IsDecimalDigit(c) then reader else if c in "eE" then Reader(Exponent, open) else AfterValueStep(c, open)
    case Exponent => Reader(if IsDecimalDigit(c) then ExponentDigits else if c in "+-" then ExponentSign
      else Broken, open)
    case ExponentSign => Reader(if IsDecimalDigit(c) then ExponentDigits else Broken, open)
    case ExponentDigits => if IsDecimalDigit(c) then reader else AfterValueStep(c, open)
    case Closed => reader
    case Broken => reader
  }

  /** Where the value that `reader` is inside of ends, if `s` from `i` on completes it. */
  function EndOf(reader: Reader, s: string, i: nat): (r: Option<nat>)
    requires i <= |s|
    ensures r.Some? ==> i <= r.value <= |s|
    decreases |s| - i
  {
    if reader.mode.Closed? then Some(i)
    else if reader.mode.Broken? || i == |s| then None
    else EndOf(Step(reader, s[i]), s, i + 1)
  }

  function SkipDigits(s: string, i: nat): (r: nat)
    requires i <= |s|
    ensures i <= r <= |s|
    decreases |s| - i
  {
    if i < |s| && IsDecimalDigit(s[i]) then SkipDigits(s, i + 1) else i
  }

  /** A number outside any container: the longest match of the decoder's number pattern. */
  function NumberEnd(s: string): (r: Option<nat>)
    ensures r.Some? ==> 0 < r.value <= |s|
  {
    var start := if s != "" && s[0] == '-' then 1 else 0;
    if start >= |s| || !IsDecimalDigit(s[start]) then None
    else
      var whole := if s[start] == '0' then start + 1 else SkipDigits(s, start + 1);
      var fraction :=
        if whole < |s| && s[whole] == '.' && SkipDigits(s, whole + 1) > whole + 1
        then SkipDigits(s, whole + 1) else whole;
      if fraction < |s| && s[fraction] in "eE" then
        var sign := if fraction + 1 < |s| && s[fraction + 1] in "+-" then fraction + 2 else fraction + 1;
        if SkipDigits(s, sign) > sign then Some(SkipDigits(s, sign)) else Some(fraction)
      else Some(fraction)
  }

  /** `raw_decode`: the length of the JSON value `s` begins with, or None for its decode error. */
  function RawDecode(s: string): (r: Option<nat>)
    requires s != ""
    ensures r.Some? ==> 0 < r.value <= |s|
  {
    if s[0] in "\"{[" then EndOf(StartValue(s[0], []), s, 1)
    else if "null" <= s || "true" <= s then Some(4)
    else if "false" <= s then Some(5)
    else if NumberEnd(s).Some? then NumberEnd(s)
    else if "NaN" <= s then Some(3)
    else if "Infinity" <= s then Some(8)
    else if "-Infinity" <= s then Some(9)
    else None
  }

  /** More text after a complete container does not move its end. */
  lemma {:induction false} EndIsStable(reader: Reader, s: string, i: nat, more: string)
    requires i <= |s| && EndOf(reader, s, i).Some?
    ensures EndOf(reader, s + more, i) == EndOf(reader, s, i)
    decreases |s| - i
  {
    if !reader.mode.Closed? {
      assert (s + more)[i] == s[i];
      EndIsStable(Step(reader, s[i]), s, i + 1, more);
    }
  }

  // ----- The buffer -----

  /** `_strip_prefix_noise`: leading white space, then at most one code-fence opener. */
  function StripNoise(buffer: string): (r: string)
    ensures |r| <= |buffer|
  {
    var b := LStrip(buffer);
    if FenceLength(b) == 0 then b else LStrip(b[FenceLength(b)..])
  }

  function FenceLength(s: string): (n: nat)
    ensures n <= |s|
    ensures n > 0 ==> s[0] == '`'
  {
    if "```json" <= s || "```JSON" <= s then 7 else if "```" <= s then 3 else 0
  }

  /** One turn of the loop in `_consume_available`, up to the unit it finds. */
  function NextUnit(buffer: string): (r: Head)
    ensures r.Unit? ==> |r.rest| < |buffer|
  {
    var b := StripNoise(buffer);
    if b == "" then Blank
    else match RawDecode(b) case None => Unfinished(b) case Some(end) => Unit(b[..end], b[end..])
  }

  const JSON_LEXER: Lexer := NextUnit

  /** The text the final call of `_consume_available` lets pass as harmless. */
  predicate Harmless(buffer: string) {
    Strip(buffer) == "" || Strip(buffer) == "```"
  }

  // ----- Chunking does not matter for objects -----

  /** Every unit met when `s` is read whole begins with an object brace. */
  predicate ObjectStream(s: string)
    decreases |s|
  {
    var b := LStrip(s);
    b == "" || (b[0] == '{' && match RawDecode(b) case None => true case Some(end) => ObjectStream(b[end..]))
  }

  lemma BlankHead(a: string, b: string)
    requires LStrip(a) == ""
    ensures LStrip(a + b) == LStrip(b)
    ensures StripNoise(a) == "" && StripNoise(a + b) == StripNoise(b)
  {
    LStripAppend(a, b);
  }

  lemma ObjectHead(a: string, b: string)
    requires LStrip(a) != "" && LStrip(a)[0] == '{'
    ensures LStrip(a + b) == LStrip(a) + b && LStrip(LStrip(a) + b) == LStrip(a) + b
    ensures StripNoise(a) == LStrip(a) && StripNoise(a + b) == LStrip(a) + b
    ensures StripNoise(LStrip(a)) == LStrip(a) && StripNoise(LStrip(a) + b) == LStrip(a) + b
    ensures RawDecode(LStrip(a)).Some? ==> RawDecode(LStrip(a) + b) == RawDecode(LStrip(a))
  {
    LStripAppend(a, b);
    if RawDecode(LStrip(a)).Some? {
      EndIsStable(StartValue('{', []), LStrip(a), 1, b);
    }
  }

  lemma ObjectStreamResumes(a: string, b: string)
    requires ObjectStream(a + b)
    ensures Resumes(JSON_LEXER, ObjectStream, a, b)
  {
    hide RawDecode, IsSpace, StripNoise, LStrip;
    LStripAppend(a, b);
    var h := LStrip(a);
    if h == "" {
      BlankHead(a, b);
    } else {
      ObjectHead(a, b);
      if RawDecode(h).Some? {
        var end := RawDecode(h).value;
        assert (h + b)[..end] == h[..end] && (h + b)[end..] == h[end..] + b;
      }
    }
  }

  /** Streams of objects may be cut anywhere, even inside a string escape or a number. */
  lemma JsonCutSafe()
    ensures CutSafe(JSON_LEXER, ObjectStream)
  {
    assert JSON_LEXER("").Blank?;
    forall a, b | ObjectStream(a + b) ensures Resumes(JSON_LEXER, ObjectStream, a, b) {
      ObjectStreamResumes(a, b);
    }
  }

  /** A complete JSON object and nothing else. */
  predicate IsObject(s: string) {
    s != "" && s[0] == '{' && RawDecode(s) == Some(|s|)
  }

  predicate IsBlank(s: string) { LStrip(s) == "" }

  /** Objects with white space, possibly empty, before each of them and after the last. */
  function Layout(objects: seq<string>, gaps: seq<string>): string
    requires |gaps| == |objects| + 1
  {
    if objects == [] then gaps[0] else gaps[0] + (objects[0] + Layout(objects[1..], gaps[1..]))
  }

  lemma LayoutHead(gap: string, o: string, rest: string)
    requires IsBlank(gap) && IsObject(o)
    ensures NextUnit(gap + (o + rest)) == Unit(o, rest)
    ensures ObjectStream(rest) ==> ObjectStream(gap + (o + rest))
  {
    hide RawDecode, IsSpace, StripNoise, LStrip;
    BlankHead(gap, o + rest);
    BraceIsNotSpace(o);
    ObjectHead(o, rest);
    assert (o + rest)[..|o|] == o && (o + rest)[|o|..] == rest;
  }

  lemma BraceIsNotSpace(s: string)
    requires s != "" && s[0] == '{'
    ensures LStrip(s) == s
  {}

  lemma {:induction false} LayoutDrain<S, E>(
    process: Processor<S, E>, state: S, objects: seq<string>, gaps: seq<string>)
    requires |gaps| == |objects| + 1
    requires forall g :: g in gaps ==> IsBlank(g)
    requires forall o :: o in objects ==> IsObject(o)
    ensures ObjectStream(Layout(objects, gaps))
    ensures var d := Drain(JSON_LEXER, process, state, Layout(objects, gaps));
            (d.state, d.error) == ProcessAll(process, state, objects) && (d.error.None? ==> d.buffer == "")
    decreases |objects|
  {
    hide RawDecode, IsSpace, StripNoise, LStrip;
    if objects == [] {
      assert IsBlank(gaps[0]);
      BlankHead(gaps[0], "");
    } else {
      LayoutHead(gaps[0], objects[0], Layout(objects[1..], gaps[1..]));
      LayoutDrain(process, process(state, objects[0]).0, objects[1..], gaps[1..]);
    }
  }

  /** However objects separated by white space are cut into chunks, they are processed whole and in order. */
  lemma ObjectsArriveWhole<S, E>(
    process: Processor<S, E>, state: S, objects: seq<string>, gaps: seq<string>, chunks: seq<string>)
    requires |gaps| == |objects| + 1
    requires forall g :: g in gaps ==> IsBlank(g)
    requires forall o :: o in objects ==> IsObject(o)
    requires Concat(chunks) == Layout(objects, gaps)
    ensures var d := FeedAll(JSON_LEXER, process, state, "", chunks);
            (d.state, d.error) == ProcessAll(process, state, objects) && (d.error.None? ==> d.buffer == "")
  {
    hide RawDecode, IsSpace, StripNoise, LStrip;
    LayoutDrain(process, state, objects, gaps);
    JsonCutSafe();
    assert "" + Concat(chunks) == Concat(chunks);
    FeedAllIsDrain(JSON_LEXER, ObjectStream, process, state, "", chunks);
  }

  // ----- Where the claim stops -----

  lemma {:induction false} DigitsReach(s: string, i: nat)
    requires i <= |s| && forall k :: i <= k < |s| ==> IsDecimalDigit(s[k])
    ensures SkipDigits(s, i) == |s|
    decreases |s| - i
  {
    if i < |s| {
      DigitsReach(s, i + 1);
    }
  }

  lemma NumberDecodes(s: string)
    requires s != "" && s[0] != '0' && forall k :: 0 <= k < |s| ==> IsDecimalDigit(s[k])
    ensures RawDecode(s) == Some(|s|)
  {
    hide EndOf;
    assert IsDecimalDigit(s[0]);
    DigitsReach(s, 1);
  }

  lemma NumberIsClean(s: string)
    requires s != "" && IsDecimalDigit(s[0])
    ensures StripNoise(s) == s
  {}

  lemma NumberIsOneUnit(s: string)
    requires s != "" && s[0] != '0' && forall k :: 0 <= k < |s| ==> IsDecimalDigit(s[k])
    ensures NextUnit(s) == Unit(s, "")
  {
    hide RawDecode, StripNoise, IsSpace;
    NumberDecodes(s);
    NumberIsClean(s);
    assert s[..|s|] == s && s[|s|..] == "";
  }

  /** A number cut by a chunk boundary becomes two units, so the claim cannot cover numbers. */
  lemma CutNumberParsesDifferently(s: string, cut: nat)
    requires s != "" && s[0] != '0' && forall k :: 0 <= k < |s| ==> IsDecimalDigit(s[k])
    requires 0 < cut < |s| && s[cut] != '0'
    ensures var count: Processor<nat, bool> := (n: nat, unit: string) => (n + 1, None);
            FeedAll(JSON_LEXER, count, 0, "", [s]).state == 1
            && FeedAll(JSON_LEXER, count, 0, "", [s[..cut], s[cut..]]).state == 2
  {
    hide NextUnit;
    var count: Processor<nat, bool> := (n: nat, unit: string) => (n + 1, None);
    var a, b := s[..cut], s[cut..];
    NumberIsOneUnit(s);
    NumberIsOneUnit(a);
    NumberIsOneUnit(b);
    BlankIsBlank();
    assert "" + s == s && "" + a == a && "" + b == b;
    assert [a, b][1..] == [b] && [b][1..] == [] && [s][1..] == [];
    assert Drain(JSON_LEXER, count, 0, a) == Progress(1, "", None);
    assert Drain(JSON_LEXER, count, 1, b) == Progress(2, "", None);
    assert FeedAll(JSON_LEXER, count, 1, "", [b]).state == 2;
  }

  lemma BlankIsBlank()
    ensures NextUnit("").Blank?
  {}
}
