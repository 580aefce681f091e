/** The two scripts that write PDF files by hand: one append-only buffer, then a table of where each object went. */
module PdfWriter {
  import opened Numbers
  import opened Sequences

  // A file is a string of characters below 256, one for each byte.

  // ----- Objects and the cross-reference table -----

  /** `f"{n:010d}"`. */
  function Padded(n: nat): (s: string)
    ensures AllDigits(s) && |s| >= 10
  {
    Zeros(Decimal(n))
  }

  function Zeros(s: string): (r: string)
    requires AllDigits(s)
    ensures AllDigits(r) && |r| == (if |s| < 10 then 10 else |s|) && Value(r) == Value(s)
    decreases 10 - |s|
  {
    if |s| >= 10 then s else PrependZero(s); Zeros("0" + s)
  }

  lemma {:induction false} PrependZero(s: string)
    requires AllDigits(s)
    ensures AllDigits("0" + s) && Value("0" + s) == Value(s)
  {
    if s == "" {
      assert "0" + s == "0" && "0"[..0] == "";
    } else {
      var init := s[..|s| - 1];
      assert ("0" + s)[..|s|] == "0" + init;
      PrependZero(init);
    }
  }

  function ObjectText(number: nat, body: string): string {
    Decimal(number) + " 0 obj\n" + body + "\nendobj\n"
  }

  /** The file up to and without its cross-reference table. */
  function Objects(header: string, bodies: seq<string>): string {
    if bodies == [] then header
    else Objects(header, bodies[..|bodies| - 1]) + ObjectText(|bodies|, bodies[|bodies| - 1])
  }

  function Entry(offset: nat): string { Padded(offset) + " 00000 n \n" }

  function Entries(offsets: seq<nat>): string {
    if offsets == [] then "" else Entries(offsets[..|offsets| - 1]) + Entry(offsets[|offsets| - 1])
  }

  function Offsets(header: string, bodies: seq<string>): (r: seq<nat>)
    ensures |r| == |bodies|
  {
    if bodies == [] then []
    else
      var init := bodies[..|bodies| - 1];
      Offsets(header, init) + [|Objects(header, init)|]
  }

  const FREE_ENTRY := "0000000000 65535 f \n"

  function TableHead(count: nat): string { "xref\n0 " + Decimal(count) + "\n" }

  const END_OF_FILE := "\n%%EOF\n"

  function Trailer(count: nat, start: nat): string {
    "trailer\n<< /Size " + Decimal(count) + " /Root 1 0 R >>\n" + "startxref\n" + Decimal(start) + END_OF_FILE
  }

  function Table(offsets: seq<nat>): string {
    TableHead(|offsets| + 1) + (FREE_ENTRY + Entries(offsets))
  }

  /** The whole file. */
  function File(header: string, bodies: seq<string>): string {
    var objects := Objects(header, bodies);
    objects + (Table(Offsets(header, bodies)) + Trailer(|bodies| + 1, |objects|))
  }

  method WriteFile(header: string, bodies: seq<string>) returns (payload: string)
    ensures payload == File(header, bodies)
  {
    hide Entry, ObjectText, TableHead, Trailer, FREE_ENTRY, Objects, Offsets, Entries, File;
    NothingWritten(header);
    payload := header;
    var offsets: seq<nat> := [0];
    for i := 0 to |bodies|
      invariant payload == Objects(header, bodies[..i])
      invariant offsets == [0] + Offsets(header, bodies[..i])
    {
      assert bodies[..i + 1] == bodies[..i] + [bodies[i]];
      OneObjectMore(header, bodies[..i], bodies[i]);
      offsets := offsets + [|payload|];
      payload := payload + ObjectText(i + 1, bodies[i]);
    }
    assert bodies[..|bodies|] == bodies;
    var start := |payload|;
    ghost var objects := payload;
    payload := payload + TableHead(|bodies| + 1);
    payload := payload + FREE_ENTRY;
    ghost var before := payload;
    assert before + "" == before;
    for i := 1 to |offsets|
      invariant payload == before + Entries(offsets[1..i])
    {
      assert offsets[1..i + 1] == offsets[1..i] + [offsets[i]];
      OneEntryMore(before, offsets[1..i], offsets[i]);
      payload := payload + Entry(offsets[i]);
    }
    assert offsets[1..|offsets|] == Offsets(header, bodies);
    payload := payload + Trailer(|bodies| + 1, start);
    FileParts(header, bodies);
  }

  lemma NothingWritten(header: string)
    ensures Objects(header, []) == header && Offsets(header, []) == [] && Entries([]) == ""
  {}

  lemma OneObjectMore(header: string, bodies: seq<string>, body: string)
    ensures Objects(header, bodies + [body]) == Objects(header, bodies) + ObjectText(|bodies| + 1, body)
    ensures Offsets(header, bodies + [body]) == Offsets(header, bodies) + [|Objects(header, bodies)|]
  {
    hide ObjectText;
    assert (bodies + [body])[..|bodies|] == bodies;
  }

  lemma OneEntryMore(before: string, offsets: seq<nat>, offset: nat)
    ensures before + Entries(offsets + [offset]) == before + Entries(offsets) + Entry(offset)
  {
    hide Entry;
    assert (offsets + [offset])[..|offsets|] == offsets;
  }

  lemma FileParts(header: string, bodies: seq<string>)
    ensures File(header, bodies)
         == Objects(header, bodies) + TableHead(|bodies| + 1) + FREE_ENTRY + Entries(Offsets(header, bodies))
            + Trailer(|bodies| + 1, |Objects(header, bodies)|)
  {
    hide Objects, TableHead, FREE_ENTRY, Entries, Trailer, Offsets;
  }

  // ----- A reader of the table -----

  function TrailingDigits(s: string): (n: nat)
    ensures n <= |s| && AllDigits(s[|s| - n..])
  {
    if s != "" && IsDecimalDigit(s[|s| - 1]) then
      var n := TrailingDigits(s[..|s| - 1]);
      assert s[|s| - n - 1..] == s[..|s| - 1][|s| - 1 - n..] + [s[|s| - 1]];
      n + 1
    else 0
  }

  function LeadingDigits(s: string): (n: nat)
    ensures n <= |s|
  {
    if s != "" && IsDecimalDigit(s[0]) then 1 + LeadingDigits(s[1..]) else 0
  }

  predicate EndsWith(s: string, suffix: string) {
    |suffix| <= |s| && s[|s| - |suffix|..] == suffix
  }

  /** Section 7.5.5 of ISO 32000-1: the byte offset on the line before the end-of-file marker, after `startxref`. */
  function StartXref(file: string): Option<nat> {
    if !EndsWith(file, END_OF_FILE) then None
    else
      var body := file[..|file| - |END_OF_FILE|];
      var n := TrailingDigits(body);
      if n == 0 || !EndsWith(body[..|body| - n], "startxref\n") then None else Some(Value(body[|body| - n..]))
  }

  /** Section 7.5.4: where the entries of the single subsection, which begins at object 0, start. */
  function FirstEntry(file: string, at: nat): Option<nat>
    requires at <= |file|
  {
    if !("xref\n0 " <= file[at..]) then None
    else
      var n := LeadingDigits(file[at + 7..]);
      if n == 0 || at + 7 + n >= |file| || file[at + 7 + n] != '\n' then None else Some(at + 8 + n)
  }

  /** Section 7.5.4: entries are 20 bytes; the first ten digits of an entry in use are the object's offset. */
  function Located(file: string, number: nat): Option<nat> {
    match StartXref(file)
    case None => None
    case Some(at) =>
      if at > |file| then None
      else
        match FirstEntry(file, at)
        case None => None
        case Some(first) =>
          if first + 20 * number + 20 > |file| then None
          else
            var entry := file[first + 20 * number..first + 20 * number + 20];
            if AllDigits(entry[..10]) && entry[10..] == " 00000 n \n" then Some(Value(entry[..10])) else None
  }

  // ----- The table points at the objects -----

  const TEN_DIGITS := 10_000_000_000

  lemma {:induction false} DecimalIsShort(n: nat, digits: nat, limit: nat)
    requires n < limit && limit == PowerOfTen(digits) && digits >= 1
    ensures |Decimal(n)| <= digits
  {
    if n >= 10 {
      DecimalIsShort(n / 10, digits - 1, limit / 10);
    }
  }

  function PowerOfTen(digits: nat): nat {
    if digits == 0 then 1 else 10 * PowerOfTen(digits - 1)
  }

  lemma EntryIsTwentyBytes(offset: nat)
    requires offset < TEN_DIGITS
    ensures |Entry(offset)| == 20 && AllDigits(Entry(offset)[..10]) && Value(Entry(offset)[..10]) == offset
    ensures Entry(offset)[10..] == " 00000 n \n"
  {
    assert PowerOfTen(5) == 100_000 && PowerOfTen(10) == TEN_DIGITS;
    DecimalIsShort(offset, 10, TEN_DIGITS);
    ValueOfDecimal(offset);
    assert Entry(offset)[..10] == Padded(offset);
  }

  lemma {:induction false} EntryAt(offsets: seq<nat>, i: nat)
    requires i < |offsets| && forall k :: 0 <= k < |offsets| ==> offsets[k] < TEN_DIGITS
    ensures |Entries(offsets)| == 20 * |offsets| && Entries(offsets)[20 * i..20 * i + 20] == Entry(offsets[i])
    decreases |offsets|
  {
    hide Entry;
    var init, last := offsets[..|offsets| - 1], offsets[|offsets| - 1];
    EntryIsTwentyBytes(last);
    if init != [] {
      EntryAt(init, if i < |init| then i else 0);
    }
    if i < |init| {
      assert Entries(offsets)[20 * i..20 * i + 20] == Entries(init)[20 * i..20 * i + 20];
    }
  }

  lemma {:induction false} ObjectAt(header: string, bodies: seq<string>, i: nat)
    requires 1 <= i <= |bodies|
    ensures var offset := Offsets(header, bodies)[i - 1];
            offset + |ObjectText(i, bodies[i - 1])| <= |Objects(header, bodies)|
            && Objects(header, bodies)[offset..][..|ObjectText(i, bodies[i - 1])|] == ObjectText(i, bodies[i - 1])
    decreases |bodies|
  {
    hide ObjectText;
    var init := bodies[..|bodies| - 1];
    if i < |bodies| {
      ObjectAt(header, init, i);
    }
  }

  lemma {:induction false} OffsetsAreInside(header: string, bodies: seq<string>)
    ensures forall k :: 0 <= k < |bodies| ==> Offsets(header, bodies)[k] <= |Objects(header, bodies)|
  {
    if bodies != [] {
      OffsetsAreInside(header, bodies[..|bodies| - 1]);
    }
  }

  lemma {:induction false} TrailingDigitsOf(s: string, digits: string)
    requires AllDigits(digits) && (s == "" || !IsDecimalDigit(s[|s| - 1]))
    ensures TrailingDigits(s + digits) == |digits|
  {
    if digits == "" {
      assert s + digits == s;
    } else {
      assert (s + digits)[..|s + digits| - 1] == s + digits[..|digits| - 1];
      TrailingDigitsOf(s, digits[..|digits| - 1]);
    }
  }

  lemma {:induction false} LeadingDigitsOf(digits: string, s: string)
    requires AllDigits(digits) && (s == "" || !IsDecimalDigit(s[0]))
    ensures LeadingDigits(digits + s) == |digits|
  {
    if digits == "" {
      assert digits + s == s;
    } else {
      assert (digits + s)[1..] == digits[1..] + s;
      LeadingDigitsOf(digits[1..], s);
    }
  }

  lemma StartIsFound(front: string, count: nat, start: nat)
    ensures StartXref(front + Trailer(count, start)) == Some(start)
  {
    hide Decimal, Value;
    var dictionary := "trailer\n<< /Size " + Decimal(count) + " /Root 1 0 R >>\n";
    var head, digits := front + dictionary + "startxref\n", Decimal(start);
    var file := front + Trailer(count, start);
    assert file == head + digits + END_OF_FILE;
    assert file[..|file| - |END_OF_FILE|] == head + digits;
    TrailingDigitsOf(head, digits);
    assert (head + digits)[..|head|] == head && (head + digits)[|head|..] == digits;
    ValueOfDecimal(start);
  }

  lemma TableIsFound(before: string, count: nat, after: string)
    ensures FirstEntry(before + (TableHead(count) + after), |before|) == Some(|before| + |TableHead(count)|)
  {
    hide Decimal;
    var digits := Decimal(count);
    var file := before + (TableHead(count) + after);
    assert file[|before|..] == "xref\n0 " + (digits + ("\n" + after));
    assert file[|before| + 7..] == digits + ("\n" + after);
    LeadingDigitsOf(digits, "\n" + after);
  }

  lemma Slice(front: string, head: string, free: string, entries: string, back: string, k: nat)
    requires |free| == 20 && 20 * k + 20 <= |entries|
    ensures var file, first := front + (head + (free + entries) + back), |front| + |head|;
            first + 20 * (k + 1) + 20 <= |file|
            && file[first + 20 * (k + 1)..first + 20 * (k + 1) + 20] == entries[20 * k..20 * k + 20]
  {}

  lemma Regrouped(a: string, b: string, c: string)
    ensures a + (b + c) == (a + b) + c
  {}

  lemma StartOfTable(objects: string, offsets: seq<nat>, count: nat)
    ensures var file := objects + (Table(offsets) + Trailer(count, |objects|));
            StartXref(file) == Some(|objects|)
            && FirstEntry(file, |objects|) == Some(|objects| + |TableHead(|offsets| + 1)|)
  {
    hide *;
    TableParts(offsets);
    StartOfAnyTable(objects, |offsets| + 1, FREE_ENTRY + Entries(offsets), count);
  }

  lemma StartOfAnyTable(objects: string, entries: nat, table: string, count: nat)
    ensures var file := objects + ((TableHead(entries) + table) + Trailer(count, |objects|));
            StartXref(file) == Some(|objects|) && FirstEntry(file, |objects|) == Some(|objects| + |TableHead(entries)|)
  {
    hide *;
    TrailerComesLast(objects, TableHead(entries) + table, count);
    TableComesFirst(objects, entries, table, Trailer(count, |objects|));
  }

  lemma TableParts(offsets: seq<nat>)
    ensures Table(offsets) == TableHead(|offsets| + 1) + (FREE_ENTRY + Entries(offsets))
  {
    hide TableHead, FREE_ENTRY, Entries;
  }

  lemma TrailerComesLast(objects: string, table: string, count: nat)
    ensures StartXref(objects + (table + Trailer(count, |objects|))) == Some(|objects|)
  {
    hide *;
    Regrouped(objects, table, Trailer(count, |objects|));
    StartIsFound(objects + table, count, |objects|);
  }

  lemma TableComesFirst(objects: string, count: nat, table: string, back: string)
    ensures FirstEntry(objects + (TableHead(count) + table + back), |objects|) == Some(|objects| + |TableHead(count)|)
  {
    hide *;
    Regrouped(TableHead(count), table, back);
    TableIsFound(objects, count, table + back);
  }

  lemma EntryOfTable(objects: string, offsets: seq<nat>, back: string, i: nat)
    requires 1 <= i <= |offsets| && forall k :: 0 <= k < |offsets| ==> offsets[k] < TEN_DIGITS
    ensures var file, first := objects + (Table(offsets) + back), |objects| + |TableHead(|offsets| + 1)|;
            first + 20 * i + 20 <= |file| && file[first + 20 * i..first + 20 * i + 20] == Entry(offsets[i - 1])
  {
    var head, entries := TableHead(|offsets| + 1), Entries(offsets);
    assert Table(offsets) == head + (FREE_ENTRY + entries);
    assert |FREE_ENTRY| == 20;
    hide *;
    EntryAt(offsets, i - 1);
    Slice(objects, TableHead(|offsets| + 1), FREE_ENTRY, Entries(offsets), back, i - 1);
  }

  lemma EntryIsFound(objects: string, offsets: seq<nat>, count: nat, i: nat)
    requires 1 <= i <= |offsets| && forall k :: 0 <= k < |offsets| ==> offsets[k] < TEN_DIGITS
    ensures Located(objects + (Table(offsets) + Trailer(count, |objects|)), i) == Some(offsets[i - 1])
  {
    hide *;
    var file := objects + (Table(offsets) + Trailer(count, |objects|));
    StartOfTable(objects, offsets, count);
    EntryOfTable(objects, offsets, Trailer(count, |objects|), i);
    EntryIsRead(file, |objects|, |objects| + |TableHead(|offsets| + 1)|, i, offsets[i - 1]);
  }

  /** Looking for the object, a reader lands on `text`. */
  predicate LandsOn(file: string, number: nat, text: string) {
    match Located(file, number)
    case None => false
    case Some(offset) => offset <= |file| && text <= file[offset..]
  }

  /** For any object bodies: the table sends a reader who looks for object i to the text of object i. */
  lemma ReaderLandsOnEveryObject(header: string, bodies: seq<string>, i: nat)
    requires 1 <= i <= |bodies| && |File(header, bodies)| < TEN_DIGITS
    ensures LandsOn(File(header, bodies), i, Decimal(i) + " 0 obj\n" + bodies[i - 1] + "\nendobj\n")
  {
    assert ObjectText(i, bodies[i - 1]) == Decimal(i) + " 0 obj\n" + bodies[i - 1] + "\nendobj\n";
    var objects, offsets := Objects(header, bodies), Offsets(header, bodies);
    OffsetsAreInside(header, bodies);
    ObjectAt(header, bodies, i);
    hide Located, ObjectText, Table, Trailer, Offsets, Objects;
    assert File(header, bodies)[..|objects|] == objects;
    EntryIsFound(objects, offsets, |bodies| + 1, i);
    ObjectIsThere(File(header, bodies), objects, offsets[i - 1], ObjectText(i, bodies[i - 1]));
  }

  lemma ObjectIsThere(file: string, objects: string, offset: nat, text: string)
    requires |objects| <= |file| && file[..|objects|] == objects && offset + |text| <= |objects|
    requires objects[offset..][..|text|] == text
    ensures text <= file[offset..]
  {
    assert file[offset..][..|text|] == objects[offset..][..|text|];
  }

  lemma EntryIsRead(file: string, at: nat, first: nat, i: nat, offset: nat)
    requires StartXref(file) == Some(at) && at <= |file| && FirstEntry(file, at) == Some(first)
    requires first + 20 * i + 20 <= |file| && offset < TEN_DIGITS
    requires file[first + 20 * i..first + 20 * i + 20] == Entry(offset)
    ensures Located(file, i) == Some(offset)
  {
    EntryIsTwentyBytes(offset);
    hide StartXref, FirstEntry, Entry;
  }

  // ----- Literal strings -----

  /** The three replacements, one after the other. */
  function Escaped(line: string): string {
    Replace(Replace(Replace(line, "\\", "\\\\"), "(", "\\("), ")", "\\)")
  }

  function EscapedChar(c: char): string {
    if c == '\\' || c == '(' || c == ')' then ['\\', c] else [c]
  }

  function CharByChar(line: string): string {
    if line == "" then "" else EscapedChar(line[0]) + CharByChar(line[1..])
  }

  lemma ReplaceStep(s: string, c: char, r: string)
    requires s != ""
    ensures Replace(s, [c], r) == (if s[0] == c then r else [s[0]]) + Replace(s[1..], [c], r)
  {
    assert s[..1] == [s[0]];
  }

  /** The replacements do not disturb one another: together they put a backslash before each special character. */
  lemma {:induction false} EscapingIsCharByChar(line: string)
    ensures Escaped(line) == CharByChar(line)
  {
    if line != "" {
      EscapingIsCharByChar(line[1..]);
      EscapedStep(line[0], line[1..]);
      assert line == [line[0]] + line[1..];
    }
  }

  lemma EscapedStep(c: char, rest: string)
    ensures Escaped([c] + rest) == EscapedChar(c) + Escaped(rest)
  {
    var one := Replace(rest, "\\", "\\\\");
    var two := Replace(one, "(", "\\(");
    hide Replace;
    if c == '\\' {
      ReplaceFirst(c, rest, '\\', "\\\\");
      ReplaceBehind('\\', '\\', one, '(', "\\(");
      ReplaceBehind('\\', '\\', two, ')', "\\)");
    } else if c == '(' {
      ReplaceFirst(c, rest, '\\', "\\\\");
      ReplaceFirst(c, one, '(', "\\(");
      ReplaceBehind('\\', '(', two, ')', "\\)");
    } else {
      ReplaceFirst(c, rest, '\\', "\\\\");
      ReplaceFirst(c, one, '(', "\\(");
      ReplaceFirst(c, two, ')', "\\)");
    }
  }

  lemma ReplaceBehind(first: char, second: char, s: string, c: char, r: string)
    requires first != c && second != c
    ensures Replace([first, second] + s, [c], r) == [first, second] + Replace(s, [c], r)
  {
    hide Replace;
    assert [first, second] + s == [first] + ([second] + s);
    ReplaceFirst(first, [second] + s, c, r);
    ReplaceFirst(second, s, c, r);
    assert [first, second] + Replace(s, [c], r) == [first] + ([second] + Replace(s, [c], r));
  }

  lemma ReplaceFirst(first: char, s: string, c: char, r: string)
    ensures Replace([first] + s, [c], r) == (if first == c then r else [first]) + Replace(s, [c], r)
  {
    assert ([first] + s)[1..] == s;
    ReplaceStep([first] + s, c, r);
    hide Replace;
  }

  predicate IsOctal(c: char) { '0' <= c <= '7' }

  function OctalLength(s: string): (n: nat)
    ensures n <= 3 && n <= |s| && forall i :: 0 <= i < n ==> IsOctal(s[i])
  {
    if s == "" || !IsOctal(s[0]) then 0
    else if |s| == 1 || !IsOctal(s[1]) then 1
    else if |s| == 2 || !IsOctal(s[2]) then 2 else 3
  }

  function OctalValue(s: string): nat
    requires forall i :: 0 <= i < |s| ==> IsOctal(s[i])
  {
    if s == "" then 0
    else assert IsOctal(s[|s| - 1]); 8 * OctalValue(s[..|s| - 1]) + (s[|s| - 1] as int - 48)
  }

  /** A decoded string and the text behind its closing parenthesis. */
  datatype Literal = Literal(value: string, rest: string)

  function Before(c: char, literal: Option<Literal>): Option<Literal> {
    match literal case None => None case Some(l) => Some(Literal([c] + l.value, l.rest))
  }

  /** Section 7.3.4.2 of ISO 32000-1: a literal string, read from behind its opening parenthesis. */
  function ReadLiteral(s: string, depth: nat): Option<Literal>
    decreases |s|
  {
    if s == "" then None
    else if s[0] == ')' then
      if depth == 0 then Some(Literal("", s[1..])) else Before(')', ReadLiteral(s[1..], depth - 1))
    else if s[0] == '(' then Before('(', ReadLiteral(s[1..], depth + 1))
    else if s[0] == '\r' then Before('\n', ReadLiteral(if "\r\n" <= s then s[2..] else s[1..], depth))
    else if s[0] != '\\' then Before(s[0], ReadLiteral(s[1..], depth))
    else if |s| == 1 then None
    else
      var n := OctalLength(s[1..]);
      if n > 0 then Before((OctalValue(s[1..][..n]) % 256) as char, ReadLiteral(s[1 + n..], depth))
      else
        match s[1]
        case 'n' => Before('\n', ReadLiteral(s[2..], depth))
        case 'r' => Before('\r', ReadLiteral(s[2..], depth))
        case 't' => Before('\t', ReadLiteral(s[2..], depth))
        case 'b' => Before(8 as char, ReadLiteral(s[2..], depth))
        case 'f' => Before(12 as char, ReadLiteral(s[2..], depth))
        case '\n' => ReadLiteral(s[2..], depth)
        case '\r' => ReadLiteral(if "\r\n" <= s[1..] then s[3..] else s[2..], depth)
        case c => Before(c, ReadLiteral(s[2..], depth))
  }

  /** How section 7.3.4.2 reads the line endings of a string: each of CR, LF and CR LF is one line feed. */
  function EndingsRead(line: string): string
    decreases |line|
  {
    if line == "" then ""
    else if line[0] != '\r' then [line[0]] + EndingsRead(line[1..])
    else ['\n'] + EndingsRead(if "\r\n" <= line then line[2..] else line[1..])
  }

  lemma EscapedCharIsRead(c: char, tail: string)
    requires c != '\r'
    ensures ReadLiteral(EscapedChar(c) + tail, 0) == Before(c, ReadLiteral(tail, 0))
  {
    var s := EscapedChar(c) + tail;
    if c == '\\' || c == '(' || c == ')' {
      assert s[2..] == tail && s[1..][0] == c;
      assert OctalLength(s[1..]) == 0;
    } else {
      assert s[1..] == tail;
    }
  }

  lemma ReturnIsRead(tail: string)
    ensures ReadLiteral("\r\n" + tail, 0) == Before('\n', ReadLiteral(tail, 0))
    ensures tail == "" || tail[0] != '\n' ==> ReadLiteral("\r" + tail, 0) == Before('\n', ReadLiteral(tail, 0))
  {
    assert ("\r\n" + tail)[2..] == tail && ("\r" + tail)[1..] == tail;
  }

  /** The escaped text of a line, its closing parenthesis, and what follows. */
  function Closed(line: string, rest: string): string {
    CharByChar(line) + (")" + rest)
  }

  lemma ClosedHead(line: string, rest: string)
    requires line != ""
    ensures Closed(line, rest) == EscapedChar(line[0]) + Closed(line[1..], rest)
  {
    var first, tail := EscapedChar(line[0]), CharByChar(line[1..]);
    assert CharByChar(line) == first + tail;
    hide *;
    assert (first + tail) + (")" + rest) == first + (tail + (")" + rest));
  }

  lemma ClosedStep(line: string, rest: string)
    requires line != ""
    ensures Closed(line, rest) == EscapedChar(line[0]) + Closed(line[1..], rest)
    ensures line[0] == '\r' && "\r\n" <= line ==> Closed(line, rest) == "\r\n" + Closed(line[2..], rest)
    ensures line[0] == '\r' && !("\r\n" <= line) ==> Closed(line, rest) == "\r" + Closed(line[1..], rest)
  {
    hide Closed;
    ClosedHead(line, rest);
    if line[0] == '\r' && "\r\n" <= line {
      assert line[1..][0] == '\n' && line[1..][1..] == line[2..];
      ClosedHead(line[1..], rest);
      assert "\r" + ("\n" + Closed(line[2..], rest)) == "\r\n" + Closed(line[2..], rest);
    }
  }

  lemma {:induction false} LiteralIsReadBack(line: string, rest: string)
    ensures ReadLiteral(Closed(line, rest), 0) == Some(Literal(EndingsRead(line), rest))
    decreases |line|
  {
    hide ReadLiteral, Closed, CharByChar;
    if line == "" {
      EndIsRead(rest);
    } else {
      ClosedStep(line, rest);
      var tail := if line[0] == '\r' && "\r\n" <= line then line[2..] else line[1..];
      LiteralIsReadBack(tail, rest);
      if line[0] != '\r' {
        EscapedCharIsRead(line[0], Closed(tail, rest));
      } else {
        NoLineFeedNext(line, rest);
        ReturnIsRead(Closed(tail, rest));
      }
    }
  }

  lemma EndIsRead(rest: string)
    ensures ReadLiteral(Closed("", rest), 0) == Some(Literal("", rest))
  {
    assert Closed("", rest) == ")" + rest && (")" + rest)[1..] == rest;
  }

  lemma NoLineFeedNext(line: string, rest: string)
    requires line != "" && line[0] == '\r'
    ensures !("\r\n" <= line) ==> Closed(line[1..], rest) != "" && Closed(line[1..], rest)[0] != '\n'
  {
    if |line| > 1 {
      assert line[..2] == [line[0], line[1]];
    }
  }

  /** A line is decoded to exactly itself if and only if it holds no carriage return. */
  lemma {:induction false} LineSurvivesExactlyWhen(line: string)
    ensures EndingsRead(line) == line <==> '\r' !in line
  {
    if line != "" {
      LineSurvivesExactlyWhen(line[1..]);
      assert line == [line[0]] + line[1..];
    }
  }

  // ----- The page of text lines -----

  function ShowText(line: string): string { "(" + Escaped(line) + ") Tj" }

  /** The commands of the content stream before its last one. */
  function Commands(lines: seq<string>): seq<string> {
    if lines == [] then ["BT", "/F1 11 Tf", "72 740 Td"]
    else
      var init := lines[..|lines| - 1];
      Commands(init) + (if init == [] then [] else ["0 -18 Td"]) + [ShowText(lines[|lines| - 1])]
  }

  function Content(lines: seq<string>): string {
    Join("\n", Commands(lines) + ["ET"]) + "\n"
  }

  function Bodies(stream: string): seq<string> {
    ["<< /Type /Catalog /Pages 2 0 R >>",
     "<< /Type /Pages /Kids [3 0 R] /Count 1 >>",
     "<< /Type /Page /Parent 2 0 R /MediaBox [0 0 612 792] /Resources << /Font << /F1 4 0 R >> >> /Contents 5 0 R >>",
     "<< /Type /Font /Subtype /Type1 /BaseFont /Helvetica >>",
     "<< /Length " + Decimal(|stream|) + " >>\nstream\n" + stream + "endstream"]
  }

  const HEADER := "%PDF-1.4\n%" + [0xE2 as char, 0xE3 as char, 0xCF as char, 0xD3 as char] + "\n"

  predicate IsAscii(s: string) {
    forall c :: c in s ==> c as int < 128
  }

  /** `_minimal_pdf`; None where the text can not be encoded. */
  method MinimalPdf(lines: seq<string>) returns (file: Option<string>)
    ensures file == if IsAscii(Content(lines)) then Some(File(HEADER, Bodies(Content(lines)))) else None
  {
    hide ShowText, Join, File, Bodies;
    var commands := ["BT", "/F1 11 Tf", "72 740 Td"];
    for i := 0 to |lines|
      invariant commands == Commands(lines[..i])
    {
      assert lines[..i + 1][..i] == lines[..i];
      if i > 0 {
        commands := commands + ["0 -18 Td"];
      }
      commands := commands + [ShowText(lines[i])];
    }
    assert lines[..|lines|] == lines;
    commands := commands + ["ET"];
    var stream := Join("\n", commands) + "\n";
    if !IsAscii(stream) {
      return None;
    }
    var payload := WriteFile(HEADER, Bodies(stream));
    file := Some(payload);
  }

  /** The strings a content stream shows, in order. */
  function StringsOf(s: string): seq<string>
    decreases |s|
  {
    if s == "" then []
    else if s[0] != '(' then StringsOf(s[1..])
    else
      match ReadLiteral(s[1..], 0)
      case None => []
      case Some(l) => LiteralShrinks(s[1..], 0); [l.value] + StringsOf(l.rest)
  }

  lemma {:induction false} LiteralShrinks(s: string, depth: nat)
    requires ReadLiteral(s, depth).Some?
    ensures |ReadLiteral(s, depth).value.rest| < |s|
    decreases |s|
  {
    hide OctalLength, OctalValue;
    if s[0] == ')' {
      if depth > 0 { LiteralShrinks(s[1..], depth - 1); }
    } else if s[0] == '(' {
      LiteralShrinks(s[1..], depth + 1);
    } else if s[0] == '\r' {
      LiteralShrinks(if "\r\n" <= s then s[2..] else s[1..], depth);
    } else if s[0] != '\\' {
      LiteralShrinks(s[1..], depth);
    } else {
      var n := OctalLength(s[1..]);
      if n > 0 {
        LiteralShrinks(s[1 + n..], depth);
      } else if s[1] == '\r' {
        LiteralShrinks(if "\r\n" <= s[1..] then s[3..] else s[2..], depth);
      } else {
        LiteralShrinks(s[2..], depth);
      }
    }
  }

  lemma {:induction false} SkipPlain(plain: string, s: string)
    requires '(' !in plain
    ensures StringsOf(plain + s) == StringsOf(s)
  {
    if plain == "" {
      assert plain + s == s;
    } else {
      assert (plain + s)[1..] == plain[1..] + s;
      SkipPlain(plain[1..], s);
    }
  }

  lemma ShownLine(line: string, s: string)
    ensures StringsOf(ShowText(line) + s) == [EndingsRead(line)] + StringsOf(s)
  {
    hide ReadLiteral, CharByChar, Escaped, EndingsRead;
    EscapingIsCharByChar(line);
    LiteralIsReadBack(line, " Tj" + s);
    assert Closed(line, " Tj" + s) == CharByChar(line) + (")" + (" Tj" + s));
    hide Closed;
    var t := ShowText(line) + s;
    assert t[1..] == CharByChar(line) + (")" + (" Tj" + s));
    SkipPlain(" Tj", s);
  }

  const START := "BT" + "\n" + "/F1 11 Tf" + "\n" + "72 740 Td"

  function Gap(first: bool): string { if first then "\n" else "\n0 -18 Td\n" }

  lemma StartJoined()
    ensures Join("\n", Commands([])) == START
  {
    hide Join;
    JoinAdd("\n", [], "BT");
    JoinAdd("\n", ["BT"], "/F1 11 Tf");
    JoinAdd("\n", ["BT", "/F1 11 Tf"], "72 740 Td");
    assert [] + ["BT"] == ["BT"] && ["BT"] + ["/F1 11 Tf"] == ["BT", "/F1 11 Tf"];
    assert ["BT", "/F1 11 Tf"] + ["72 740 Td"] == Commands([]);
  }

  lemma GapJoined(commands: seq<string>, text: string)
    requires commands != []
    ensures Join("\n", commands + [text]) == Join("\n", commands) + Gap(true) + text
    ensures Join("\n", commands + ["0 -18 Td"] + [text]) == Join("\n", commands) + Gap(false) + text
  {
    hide Join;
    JoinAdd("\n", commands, text);
    JoinAdd("\n", commands, "0 -18 Td");
    JoinAdd("\n", commands + ["0 -18 Td"], text);
    assert "\n" + "0 -18 Td" + "\n" == Gap(false);
    var j := Join("\n", commands);
    assert j + "\n" + "0 -18 Td" + "\n" + text == j + ("\n" + "0 -18 Td" + "\n") + text;
  }

  lemma CommandsStep(lines: seq<string>)
    requires lines != []
    ensures var init, text := lines[..|lines| - 1], ShowText(lines[|lines| - 1]);
            Commands(lines) == if init == [] then Commands(init) + [text] else Commands(init) + ["0 -18 Td"] + [text]
  {
    hide ShowText;
  }

  lemma CommandsJoined(lines: seq<string>)
    ensures Commands(lines) != []
    ensures lines != [] ==>
              Join("\n", Commands(lines))
              == Join("\n", Commands(lines[..|lines| - 1])) + Gap(|lines| == 1) + ShowText(lines[|lines| - 1])
  {
    assert Commands(lines) != [];
    if lines != [] {
      var init, text := lines[..|lines| - 1], ShowText(lines[|lines| - 1]);
      assert Commands(init) != [];
      hide *;
      CommandsStep(lines);
      GapJoined(Commands(init), text);
    }
  }

  lemma {:induction false} CommandsShow(lines: seq<string>, s: string)
    ensures StringsOf(Join("\n", Commands(lines)) + s) == Map(EndingsRead, lines) + StringsOf(s)
    decreases |lines|
  {
    hide StringsOf, ShowText, EndingsRead, Join, Commands, Map;
    CommandsJoined(lines);
    if lines == [] {
      StartJoined();
      SkipPlain(START, s);
      NothingToShow(s);
    } else {
      var init, line := lines[..|lines| - 1], lines[|lines| - 1];
      var before, gap := Join("\n", Commands(init)), Gap(|lines| == 1);
      ShownLine(line, s);
      SkipPlain(gap, ShowText(line) + s);
      CommandsShow(init, gap + (ShowText(line) + s));
      assert before + gap + ShowText(line) + s == before + (gap + (ShowText(line) + s));
      MapAdd(EndingsRead, init, line);
      assert lines == init + [line];
      hide Gap;
      assert Map(EndingsRead, init) + ([EndingsRead(line)] + StringsOf(s))
          == Map(EndingsRead, init) + [EndingsRead(line)] + StringsOf(s);
    }
  }

  lemma NothingToShow(s: string)
    ensures Map(EndingsRead, []) + StringsOf(s) == StringsOf(s)
    ensures StringsOf("") == []
  {}

  /**
   * A reader of the page finds every line, in order, as section 7.3.4.2 reads its line endings; what it finds are
   * the lines themselves if and only if none of them holds a carriage return.
   */
  lemma PageShowsEveryLine(lines: seq<string>)
    ensures StringsOf(Content(lines)) == Map(EndingsRead, lines)
    ensures StringsOf(Content(lines)) == lines <==> forall line :: line in lines ==> '\r' !in line
  {
    hide Join, StringsOf, EndingsRead, Commands, START;
    CommandsJoined(lines);
    JoinAdd("\n", Commands(lines), "ET");
    CommandsShow(lines, "\nET\n");
    assert Content(lines) == Join("\n", Commands(lines)) + "\nET\n";
    SkipPlain("\nET\n", "");
    assert "\nET\n" + "" == "\nET\n";
    NothingToShow("");
    var shown := Map(EndingsRead, lines);
    assert shown + [] == shown;
    hide Content, Map;
    forall i | 0 <= i < |lines| ensures shown[i] == lines[i] <==> '\r' !in lines[i] {
      LineSurvivesExactlyWhen(lines[i]);
    }
    if shown == lines {
      forall line | line in lines ensures '\r' !in line {
        var i :| 0 <= i < |lines| && lines[i] == line;
      }
    }
  }
}
