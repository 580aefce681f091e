/** Turn numbers of a thread's messages, and the repair of missing or repeated ones. */
module ConversationTurns {
  import opened Sequences

  datatype Message = Message(id: string, turn: Option<nat>, user: bool, content: string)

  /** A message whose turn number is settled. */
  datatype Numbered = Numbered(id: string, turn: nat, user: bool, content: string)

  function WithTurn(m: Message, turn: nat): Numbered { Numbered(m.id, turn, m.user, m.content) }
  function AsMessage(n: Numbered): Message { Message(n.id, Some(n.turn), n.user, n.content) }

  /** The numbers given out so far and the next candidate for a missing one. */
  datatype Repair = Repair(done: seq<Numbered>, used: set<nat>, next: nat)

  /** `while next_fallback in used: next_fallback += 1`. */
  function FirstFree(used: set<nat>, next: nat): nat
    decreases used
  {
    if next in used then FirstFree(used - {next}, next + 1) else next
  }

  function RepairStep(r: Repair, m: Message): Repair {
    if m.turn.Some? && m.turn.value !in r.used then
      Repair(r.done + [WithTurn(m, m.turn.value)], r.used + {m.turn.value},
             if r.next > m.turn.value + 1 then r.next else m.turn.value + 1)
    else
      var free := FirstFree(r.used, r.next);
      Repair(r.done + [WithTurn(m, free)], r.used + {free}, free + 1)
  }

  function Repaired(ms: seq<Message>): Repair {
    if ms == [] then Repair([], {}, 1) else RepairStep(Repaired(ms[..|ms| - 1]), ms[|ms| - 1])
  }

  function Insert(sorted: seq<Numbered>, m: Numbered): seq<Numbered> {
    if sorted == [] || sorted[|sorted| - 1].turn <= m.turn then sorted + [m]
    else Insert(sorted[..|sorted| - 1], m) + [sorted[|sorted| - 1]]
  }

  /** `sorted(..., key=turn_seq)`; the repaired numbers are distinct, so no second key is ever consulted. */
  function SortByTurn(s: seq<Numbered>): seq<Numbered> {
    if s == [] then [] else Insert(SortByTurn(s[..|s| - 1]), s[|s| - 1])
  }

  function Normalized(ms: seq<Message>): seq<Numbered> {
    SortByTurn(Repaired(ms).done)
  }

  method NormalizedMessages(ms: seq<Message>) returns (sorted: seq<Numbered>)
    ensures sorted == Normalized(ms)
  {
    var done: seq<Numbered>, used: set<nat>, next: nat := [], {}, 1;
    for i := 0 to |ms|
      invariant Repaired(ms[..i]) == Repair(done, used, next)
    {
      assert ms[..i + 1][..i] == ms[..i];
      var m := ms[i];
      if m.turn.Some? && m.turn.value !in used {
        done := done + [WithTurn(m, m.turn.value)];
        used := used + {m.turn.value};
        next := if next > m.turn.value + 1 then next else m.turn.value + 1;
      } else {
        ghost var free, left := FirstFree(used, next), used;
        while next in used
          invariant FirstFree(left, next) == free && left <= used
          invariant forall n :: n in used && n >= next ==> n in left
          decreases left
        {
          left := left - {next};
          next := next + 1;
        }
        done := done + [WithTurn(m, next)];
        used := used + {next};
        next := next + 1;
      }
    }
    assert ms[..|ms|] == ms;
    sorted := SortByTurn(done);
  }

  // ----- Distinct, strictly increasing, and a fixed point -----

  predicate Strict(s: seq<Numbered>) {
    forall i, j :: 0 <= i < j < |s| ==> s[i].turn < s[j].turn
  }

  predicate FreeOf(s: seq<Numbered>, turn: nat) {
    forall n :: n in s ==> n.turn != turn
  }

  predicate DistinctTurns(s: seq<Numbered>) {
    forall i, j :: 0 <= i < j < |s| ==> s[i].turn != s[j].turn
  }

  /** Every number given out is below the next candidate, so the candidate is always free. */
  lemma {:induction false} NextIsFree(ms: seq<Message>)
    ensures var r := Repaired(ms);
            (forall n :: n in r.used ==> n < r.next) && FirstFree(r.used, r.next) == r.next
            && DistinctTurns(r.done) && |r.done| == |ms|
            && (forall n :: n in r.done ==> n.turn in r.used)
            && (forall t :: t in r.used ==> exists n :: n in r.done && n.turn == t)
  {
    if ms != [] {
      var r, m := Repaired(ms[..|ms| - 1]), ms[|ms| - 1];
      NextIsFree(ms[..|ms| - 1]);
      var turn := if m.turn.Some? && m.turn.value !in r.used then m.turn.value else r.next;
      var next := r.done + [WithTurn(m, turn)];
      assert Repaired(ms).done == next && Repaired(ms).used == r.used + {turn};
      hide Repaired;
      assert next[|r.done|].turn == turn;
      forall t | t in r.used + {turn} ensures exists n :: n in next && n.turn == t {
        if t != turn {
          var n :| n in r.done && n.turn == t;
          assert n in next;
        }
      }
    }
  }

  lemma {:induction false} InsertKeepsOrder(s: seq<Numbered>, m: Numbered)
    requires Strict(s) && FreeOf(s, m.turn)
    ensures Strict(Insert(s, m)) && |Insert(s, m)| == |s| + 1
    ensures forall n :: n in Insert(s, m) <==> n in s || n == m
  {
    if s != [] && s[|s| - 1].turn > m.turn {
      var init, last := s[..|s| - 1], s[|s| - 1];
      assert s == init + [last];
      InsertKeepsOrder(init, m);
      var r := Insert(init, m);
      assert Insert(s, m) == r + [last];
      forall i | 0 <= i < |r| ensures r[i].turn < last.turn {
        assert r[i] in r;
      }
      hide Insert;
    }
  }

  lemma {:induction false} InsertKeepsAll(s: seq<Numbered>, m: Numbered)
    ensures multiset(Insert(s, m)) == multiset(s) + multiset{m}
  {
    if s != [] && s[|s| - 1].turn > m.turn {
      assert s == s[..|s| - 1] + [s[|s| - 1]];
      InsertKeepsAll(s[..|s| - 1], m);
    }
  }

  lemma {:induction false} SortIsStrict(s: seq<Numbered>)
    requires DistinctTurns(s)
    ensures Strict(SortByTurn(s)) && multiset(SortByTurn(s)) == multiset(s) && |SortByTurn(s)| == |s|
    ensures forall n :: n in SortByTurn(s) <==> n in s
  {
    if s != [] {
      var init, last := s[..|s| - 1], s[|s| - 1];
      assert s == init + [last];
      SortIsStrict(init);
      InsertKeepsOrder(SortByTurn(init), last);
      InsertKeepsAll(SortByTurn(init), last);
    }
  }

  function Body(m: Message): (string, bool, string) { (m.id, m.user, m.content) }
  function NumberedBody(n: Numbered): (string, bool, string) { (n.id, n.user, n.content) }

  lemma {:induction false} RepairKeepsBodies(ms: seq<Message>)
    ensures Map(NumberedBody, Repaired(ms).done) == Map(Body, ms)
  {
    if ms != [] {
      var init, m := ms[..|ms| - 1], ms[|ms| - 1];
      RepairKeepsBodies(init);
      var r := Repaired(init);
      var turn := if m.turn.Some? && m.turn.value !in r.used then m.turn.value else FirstFree(r.used, r.next);
      MapAdd(NumberedBody, r.done, WithTurn(m, turn));
    }
  }

  /** Normalizing loses no message and numbers them distinctly, in strictly increasing order. */
  lemma NormalizedIsStrict(ms: seq<Message>)
    ensures Strict(Normalized(ms)) && |Normalized(ms)| == |ms|
    ensures multiset(Normalized(ms)) == multiset(Repaired(ms).done)
    ensures Map(NumberedBody, Repaired(ms).done) == Map(Body, ms)
  {
    NextIsFree(ms);
    SortIsStrict(Repaired(ms).done);
    RepairKeepsBodies(ms);
  }

  lemma {:induction false} StrictIsRepaired(s: seq<Numbered>)
    requires Strict(s)
    ensures Repaired(Map(AsMessage, s)).done == s && SortByTurn(s) == s
  {
    if s != [] {
      var init, last := s[..|s| - 1], s[|s| - 1];
      assert s == init + [last];
      MapAdd(AsMessage, init, last);
      var ms := Map(AsMessage, init);
      StrictIsRepaired(init);
      NextIsFree(ms);
      RepairAdd(ms, AsMessage(last));
      hide Repaired;
      assert forall n :: n in init ==> n.turn < last.turn;
      assert WithTurn(AsMessage(last), last.turn) == last;
    }
  }

  /** Renormalizing normalized messages changes nothing. */
  lemma NormalizedIsFixed(ms: seq<Message>)
    ensures Normalized(Map(AsMessage, Normalized(ms))) == Normalized(ms)
  {
    NormalizedIsStrict(ms);
    hide Repaired, SortByTurn, Normalized;
    StrictIsRepaired(Normalized(ms));
    NormalizedDef(Map(AsMessage, Normalized(ms)));
  }

  lemma NormalizedDef(ms: seq<Message>)
    ensures Normalized(ms) == SortByTurn(Repaired(ms).done)
  {}

  // ----- Appending -----

  /** The number the next message would get. */
  function AppendedTurn(ms: seq<Message>, m: Message): nat {
    var r := Repaired(ms);
    if m.turn.Some? && m.turn.value !in r.used then m.turn.value else r.next
  }

  lemma InsertIsAppend(s: seq<Numbered>, m: Numbered)
    requires Strict(s) && FreeOf(s, m.turn)
    ensures Insert(s, m) == s + [m] <==> (forall n :: n in s ==> n.turn < m.turn)
  {
    if s != [] {
      var init, last := s[..|s| - 1], s[|s| - 1];
      assert s == init + [last] && last in s;
      if last.turn > m.turn {
        assert Insert(s, m)[|Insert(s, m)| - 1] == last;
        assert (s + [m])[|s + [m]| - 1] == m;
      } else {
        hide Insert;
        assert forall n :: n in s ==> n.turn <= last.turn;
      }
    }
  }

  lemma RepairAdd(ms: seq<Message>, m: Message)
    ensures Repaired(ms + [m]) == RepairStep(Repaired(ms), m)
    ensures Repaired(ms + [m]).done == Repaired(ms).done + [WithTurn(m, AppendedTurn(ms, m))]
  {
    assert (ms + [m])[..|ms|] == ms;
    NextIsFree(ms);
  }

  /** The number a new message gets is free, and its place in the history is that of the number. */
  lemma AppendedIsFree(ms: seq<Message>, m: Message)
    ensures AppendedTurn(ms, m) !in Repaired(ms).used
    ensures forall n :: n in Repaired(ms).done ==> n.turn != AppendedTurn(ms, m)
    ensures Normalized(ms + [m]) == Insert(Normalized(ms), WithTurn(m, AppendedTurn(ms, m)))
  {
    NextIsFree(ms);
    RepairAdd(ms, m);
    var r := Repaired(ms);
    assert (r.done + [WithTurn(m, AppendedTurn(ms, m))])[..|r.done|] == r.done;
  }

  /** The next candidate is one, or follows a number in use. */
  lemma {:induction false} NextFollowsSomething(ms: seq<Message>)
    ensures Repaired(ms).next == 1 || (Repaired(ms).next > 1 && Repaired(ms).next - 1 in Repaired(ms).used)
  {
    if ms != [] {
      NextFollowsSomething(ms[..|ms| - 1]);
      NextIsFree(ms[..|ms| - 1]);
    }
  }

  /**
   * Appending a message leaves the numbered history as it is, with the message behind it, exactly when its
   * number is missing, already used, or not below the next candidate: only an unused gap number moves it forward.
   */
  lemma AppendExtendsExactlyWhen(ms: seq<Message>, m: Message)
    requires m.turn.Some? ==> m.turn.value >= 1
    ensures Normalized(ms + [m]) == Normalized(ms) + [WithTurn(m, AppendedTurn(ms, m))]
       <==> m.turn.None? || m.turn.value in Repaired(ms).used || m.turn.value >= Repaired(ms).next
  {
    var r, turn := Repaired(ms), AppendedTurn(ms, m);
    NextIsFree(ms);
    NextFollowsSomething(ms);
    RepairAdd(ms, m);
    hide Repaired;
    SortIsStrict(r.done);
    assert (r.done + [WithTurn(m, turn)])[..|r.done|] == r.done;
    assert Normalized(ms + [m]) == Insert(Normalized(ms), WithTurn(m, turn));
    InsertIsAppend(Normalized(ms), WithTurn(m, turn));
  }
}
