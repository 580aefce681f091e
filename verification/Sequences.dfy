/** Python's list and string helpers, as the modelled code uses them. */
module Sequences {
  datatype Option<+T> = None | Some(value: T)

  /** `"".join(parts)`. */
  function Concat(parts: seq<string>): string {
    if parts == [] then "" else Concat(parts[..|parts| - 1]) + parts[|parts| - 1]
  }

  lemma {:induction false} ConcatAppend(a: seq<string>, b: seq<string>)
    ensures Concat(a + b) == Concat(a) + Concat(b)
  {
    if b == [] {
      assert a + b == a;
    } else {
      var init := b[..|b| - 1];
      assert (a + b)[..|a + b| - 1] == a + init;
      ConcatAppend(a, init);
    }
  }

  /** `sep.join(parts)`. */
  function Join(sep: string, parts: seq<string>): string {
    if parts == [] then ""
    else if |parts| == 1 then parts[0]
    else Join(sep, parts[..|parts| - 1]) + sep + parts[|parts| - 1]
  }

  lemma {:induction false} JoinAppend(sep: string, a: seq<string>, b: seq<string>)
    requires a != [] && b != []
    ensures Join(sep, a + b) == Join(sep, a) + sep + Join(sep, b)
  {
    var init := b[..|b| - 1];
    assert (a + b)[..|a + b| - 1] == a + init;
    if init == [] {
      assert a + init == a;
    } else {
      JoinAppend(sep, a, init);
    }
  }

  lemma JoinAdd(sep: string, a: seq<string>, x: string)
    ensures Join(sep, a + [x]) == if a == [] then x else Join(sep, a) + sep + x
  {
    assert (a + [x])[..|a|] == a;
  }

  /** `[f(item) for item in s]`. */
  function Map<T, U>(f: T -> U, s: seq<T>): (r: seq<U>)
    ensures |r| == |s|
    ensures forall i :: 0 <= i < |s| ==> r[i] == f(s[i])
  {
    if s == [] then [] else Map(f, s[..|s| - 1]) + [f(s[|s| - 1])]
  }

  lemma MapAdd<T, U>(f: T -> U, s: seq<T>, x: T)
    ensures Map(f, s + [x]) == Map(f, s) + [f(x)]
  {
    assert (s + [x])[..|s|] == s;
  }

  /** `[item for item in s if p(item)]`. */
  function Filter<T(!new)>(p: T -> bool, s: seq<T>): (r: seq<T>)
    ensures forall x :: x in r <==> x in s && p(x)
  {
    if s == [] then []
    else
      assert s == s[..|s| - 1] + [s[|s| - 1]];
      Filter(p, s[..|s| - 1]) + if p(s[|s| - 1]) then [s[|s| - 1]] else []
  }

  lemma FilterAdd<T(!new)>(p: T -> bool, s: seq<T>, x: T)
    ensures Filter(p, s + [x]) == Filter(p, s) + if p(x) then [x] else []
  {
    assert (s + [x])[..|s|] == s;
  }

  /** `chosen` is `s` at these positions, in order. */
  predicate Picks<T(==)>(s: seq<T>, chosen: seq<T>, positions: seq<nat>) {
    |positions| == |chosen| && (forall k :: 0 <= k < |positions| ==> positions[k] < |s| && chosen[k] == s[positions[k]])
    && forall j, k :: 0 <= j < k < |positions| ==> positions[j] < positions[k]
  }

  lemma PickLast<T>(init: seq<T>, last: T, chosen: seq<T>, positions: seq<nat>)
    requires Picks(init, chosen, positions)
    ensures Picks(init + [last], chosen, positions)
    ensures Picks(init + [last], chosen + [last], positions + [|init|])
  {}

  /** Filtering picks exactly the items that pass. */
  lemma {:induction false} FilterPicks<T(!new)>(p: T -> bool, s: seq<T>) returns (positions: seq<nat>)
    ensures Picks(s, Filter(p, s), positions)
    ensures forall i :: 0 <= i < |s| ==> (i in positions <==> p(s[i]))
    ensures forall i :: i in positions ==> i < |s|
  {
    positions := [];
    if s != [] {
      var init, last := s[..|s| - 1], s[|s| - 1];
      assert s == init + [last];
      FilterAdd(p, init, last);
      hide Filter, Picks;
      positions := FilterPicks(p, init);
      PickLast(init, last, Filter(p, init), positions);
      assert Filter(p, init) + [] == Filter(p, init);
      if p(last) {
        positions := positions + [|init|];
      }
    }
  }

  predicate Distinct<T(==)>(s: seq<T>) {
    forall i, j :: 0 <= i < j < |s| ==> s[i] != s[j]
  }

  /** `list(dict.fromkeys(s))`: the first occurrence of each item, in order. */
  function Dedup<T(==,!new)>(s: seq<T>): (r: seq<T>)
    ensures Distinct(r)
    ensures forall x :: x in r <==> x in s
  {
    if s == [] then []
    else
      assert s == s[..|s| - 1] + [s[|s| - 1]];
      var r := Dedup(s[..|s| - 1]);
      if s[|s| - 1] in r then r else r + [s[|s| - 1]]
  }

  lemma DedupAdd<T(!new)>(s: seq<T>, x: T)
    ensures Dedup(s + [x]) == if x in s then Dedup(s) else Dedup(s) + [x]
  {
    assert (s + [x])[..|s|] == s;
  }

  lemma {:induction false} DedupOfDistinct<T(!new)>(s: seq<T>)
    requires Distinct(s)
    ensures Dedup(s) == s
  {
    if s != [] {
      DedupOfDistinct(s[..|s| - 1]);
      assert s == s[..|s| - 1] + [s[|s| - 1]];
    }
  }

  /** `s.replace(pattern, replacement)` for a non-empty pattern: left to right, no overlap. */
  function Replace(s: string, pattern: string, replacement: string): string
    requires pattern != ""
    decreases |s|
  {
    if |s| < |pattern| then s
    else if s[..|pattern|] == pattern then replacement + Replace(s[|pattern|..], pattern, replacement)
    else [s[0]] + Replace(s[1..], pattern, replacement)
  }

  predicate At(needle: string, s: string, i: int) {
    0 <= i <= |s| - |needle| && s[i..i + |needle|] == needle
  }

  predicate Occurs(needle: string, s: string) {
    exists i :: 0 <= i <= |s| && At(needle, s, i)
  }

  lemma OccursInTail(needle: string, s: string)
    requires s != "" && Occurs(needle, s[1..])
    ensures Occurs(needle, s)
  {
    var i :| 0 <= i <= |s[1..]| && At(needle, s[1..], i);
    assert s[1..][i..i + |needle|] == s[i + 1..i + 1 + |needle|];
    assert At(needle, s, i + 1);
  }

  lemma {:induction false} ReplaceAbsent(s: string, pattern: string, replacement: string)
    requires pattern != "" && !Occurs(pattern, s)
    ensures Replace(s, pattern, replacement) == s
    decreases |s|
  {
    if |s| >= |pattern| {
      assert !At(pattern, s, 0);
      assert s[0..|pattern|] == s[..|pattern|];
      if Occurs(pattern, s[1..]) {
        OccursInTail(pattern, s);
        assert false;
      }
      ReplaceAbsent(s[1..], pattern, replacement);
    }
  }

  predicate IsDecimalDigit(c: char) { '0' <= c <= '9' }

  /** The characters `str.strip()` removes. */
  predicate IsSpace(c: char) {
    var n := c as int;
    9 <= n <= 13 || 28 <= n <= 32 || n == 0x85 || n == 0xA0 || n == 0x1680 || 0x2000 <= n <= 0x200A
    || n == 0x2028 || n == 0x2029 || n == 0x202F || n == 0x205F || n == 0x3000
  }

  /** `s.lstrip()`. */
  function LStrip(s: string): (r: string)
    ensures |r| <= |s|
    ensures r == "" || !IsSpace(r[0])
  {
    if s != "" && IsSpace(s[0]) then LStrip(s[1..]) else s
  }

  /** `s.rstrip()`. */
  function RStrip(s: string): (r: string)
    ensures r <= s
    ensures r == "" || !IsSpace(r[|r| - 1])
  {
    if s != "" && IsSpace(s[|s| - 1]) then RStrip(s[..|s| - 1]) else s
  }

  /** `s.strip()`. */
  function Strip(s: string): string {
    RStrip(LStrip(s))
  }

  /** Stripping leaves the text as it is. */
  predicate Trimmed(s: string) { Strip(s) == s }

  /** A text is its own strip if and only if it is empty, or no white space stands at either end. */
  lemma TrimmedExactlyWhen(s: string)
    ensures Trimmed(s) <==> s == "" || (!IsSpace(s[0]) && !IsSpace(s[|s| - 1]))
    ensures s <= Strip(s) <==> Trimmed(s)
  {
    hide IsSpace;
    if s != "" && Strip(s) == s {
      assert |LStrip(s)| == |s| && LStrip(s) == s;
    }
  }

  lemma StripIsTrimmed(s: string)
    ensures Trimmed(Strip(s))
  {
    hide IsSpace;
    StripKeepsStart(LStrip(s));
  }

  lemma StripKeepsStart(s: string)
    requires s == "" || !IsSpace(s[0])
    ensures var r := RStrip(s); LStrip(r) == r && RStrip(r) == r
  {
    hide IsSpace;
    var r := RStrip(s);
    assert r != "" ==> r[0] == s[0];
  }

  lemma {:induction false} LStripAppend(a: string, b: string)
    ensures LStrip(a + b) == if LStrip(a) == "" then LStrip(b) else LStrip(a) + b
  {
    if a == "" {
      assert a + b == b;
    } else if IsSpace(a[0]) {
      assert (a + b)[1..] == a[1..] + b;
      LStripAppend(a[1..], b);
    }
  }

  /** Nothing but white space. */
  predicate WhiteOnly(s: string) { forall c :: c in s ==> IsSpace(c) }

  lemma BlankExactlyWhen(text: string)
    ensures Strip(text) == "" <==> WhiteOnly(text)
  {
    hide IsSpace;
    LStripIsEmpty(text);
    LStripWithin(text);
    if LStrip(text) != "" {
      RStripKeeps(LStrip(text));
    }
  }

  lemma {:induction false} LStripIsEmpty(s: string)
    ensures WhiteOnly(s) ==> LStrip(s) == ""
  {
    hide IsSpace;
    if s != "" {
      LStripIsEmpty(s[1..]);
      assert s[0] in s && forall c :: c in s[1..] ==> c in s;
    }
  }

  lemma {:induction false} LStripWithin(s: string)
    ensures forall c :: c in LStrip(s) ==> c in s
    ensures LStrip(s) == "" ==> WhiteOnly(s)
  {
    hide IsSpace;
    if s != "" && IsSpace(s[0]) {
      LStripWithin(s[1..]);
      assert s == [s[0]] + s[1..];
    }
  }

  lemma {:induction false} RStripKeeps(s: string)
    requires s != "" && !IsSpace(s[0])
    ensures RStrip(s) != ""
  {
    hide IsSpace;
    if |s| > 1 && IsSpace(s[|s| - 1]) {
      RStripKeeps(s[..|s| - 1]);
    }
  }

  /** `s[:n]`. */
  function Take(s: string, n: nat): (r: string)
    ensures r <= s && |r| == if |s| < n then |s| else n
  {
    if |s| < n then s else s[..n]
  }
}
