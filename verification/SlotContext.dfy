/** The working context of a conversation: slots with sources, and what a turn invalidates. */
module SlotContext {
  import opened Domain
  import opened Sequences
  import Routing

  const SLOT_NAMES :=
    ["product", "process_layer", "tool_id", "chamber", "recipe_id", "recipe_version", "time_range", "lot_id", "case_id"]

  /** The dependency table. */
  function DependenciesOf(name: string): set<string> {
    if name == "chamber" then {"tool_id"}
    else if name == "recipe_id" then {"tool_id", "chamber"}
    else if name == "recipe_version" then {"recipe_id", "tool_id", "chamber"}
    else {}
  }

  /** What a finished turn reports: its slot values and operations, whether it was refused, and its evidence. */
  datatype Turn = Turn(constraints: Slots, operations: seq<SlotOperation>, refused: bool, ledger: seq<string>)

  /** A refused turn's values and operations do not count. */
  function Effective(turn: Turn): Turn {
    if turn.refused then turn.(constraints := map[], operations := []) else turn
  }

  predicate Supplies(turn: Turn, name: string) {
    name in SLOT_NAMES && Has(turn.constraints, name)
  }

  predicate Clears(ops: seq<SlotOperation>, name: string) {
    exists op :: op in ops && op.kind.ClearSlot? && op.slot == name
  }

  function Rewritten(ops: seq<SlotOperation>): set<string> {
    set op | op in ops && (op.kind.CorrectSlot? || op.kind.ClearSlot?) :: op.slot
  }

  /** A valid slot whose value this turn contradicts. */
  predicate Contradicts(ctx: ActiveContext, turn: Turn, name: string) {
    Supplies(turn, name) && name in ctx.slots && ctx.slots[name].valid
      && ctx.slots[name].value != turn.constraints[name]
  }

  function Changed(ctx: ActiveContext, turn: Turn): set<string> {
    Rewritten(turn.operations) + set name | name in SLOT_NAMES && Contradicts(ctx, turn, name)
  }

  function Stale(slot: ContextSlot, changed: set<string>): ContextSlot {
    if slot.valid && slot.dependsOn * changed != {} then slot.(valid := false) else slot
  }

  /** `_invalidate_dependents`: one pass over the slots. */
  function Invalidated(slots: map<string, ContextSlot>, changed: set<string>): map<string, ContextSlot> {
    map name | name in slots :: Stale(slots[name], changed)
  }

  function Expired(refs: seq<EvidenceRef>): seq<EvidenceRef> {
    Map((ref: EvidenceRef) => ref.(valid := false), refs)
  }

  function Cleared(slots: map<string, ContextSlot>, ops: seq<SlotOperation>): map<string, ContextSlot> {
    map name | name in slots :: if Clears(ops, name) then slots[name].(valid := false) else slots[name]
  }

  /** The first operation that inherits the slot. */
  function Inheriting(ops: seq<SlotOperation>, name: string): Option<SlotOperation> {
    if ops == [] then None
    else if ops[0].slot == name && ops[0].kind.InheritSlot? then Some(ops[0])
    else Inheriting(ops[1..], name)
  }

  function NewSlot(turn: Turn, name: string, find: string -> string): ContextSlot
    requires name in turn.constraints
  {
    var value := turn.constraints[name];
    var inherited := Inheriting(turn.operations, name);
    var source :=
      if inherited.Some? && inherited.value.source.Some? && inherited.value.source.value != ""
      then inherited.value.source.value else find(value);
    ContextSlot(value, source, inherited.Some?, DependenciesOf(name), true)
  }

  /** An inherited value does not replace a slot that is still valid. */
  predicate KeepsInherited(slots: map<string, ContextSlot>, turn: Turn, name: string) {
    Inheriting(turn.operations, name).Some? && name in slots && slots[name].valid
  }

  function Stored(slots: map<string, ContextSlot>, turn: Turn, names: seq<string>, find: string -> string)
    : map<string, ContextSlot>
  {
    if names == [] then slots
    else
      var name := names[|names| - 1];
      var before := Stored(slots, turn, names[..|names| - 1], find);
      if !Has(turn.constraints, name) || KeepsInherited(before, turn, name) then before
      else before[name := NewSlot(turn, name, find)]
  }

  /** `update_active_context` for a turn already reduced to what counts. */
  function Updated(ctx: ActiveContext, turn: Turn, find: string -> string): ActiveContext {
    var changed := Changed(ctx, turn);
    var slots := Stored(Cleared(Invalidated(ctx.slots, changed), turn.operations), turn, SLOT_NAMES, find);
    var refs := if changed == {} then ctx.refs else Expired(ctx.refs);
    ActiveContext(slots, if turn.ledger == [] then refs else Map((id: string) => EvidenceRef(id, true), turn.ledger))
  }

  method UpdateActiveContext(
    ctx: ActiveContext, reported: Turn, find: string -> string) returns (updated: ActiveContext)
    ensures updated == Updated(ctx, Effective(reported), find)
  {
    var turn := Effective(reported);
    var changed := Rewritten(turn.operations);
    for i := 0 to |SLOT_NAMES|
      invariant changed == Rewritten(turn.operations)
                           + set name | name in SLOT_NAMES[..i] && Contradicts(ctx, turn, name)
    {
      assert SLOT_NAMES[..i + 1] == SLOT_NAMES[..i] + [SLOT_NAMES[i]];
      if Contradicts(ctx, turn, SLOT_NAMES[i]) {
        changed := changed + {SLOT_NAMES[i]};
      }
    }
    assert SLOT_NAMES[..|SLOT_NAMES|] == SLOT_NAMES;
    assert changed == Changed(ctx, turn);

    var slots, refs := ctx.slots, ctx.refs;
    if changed != {} {
      slots, refs := InvalidateDependents(slots, refs, changed);
    }
    assert changed == {} ==> slots == Invalidated(ctx.slots, changed);
    slots := ClearSlots(slots, turn.operations);
    slots := StoreSlots(slots, turn, find);
    if turn.ledger != [] {
      refs := Map((id: string) => EvidenceRef(id, true), turn.ledger);
    }
    updated := ActiveContext(slots, refs);
  }

  method InvalidateDependents(before: map<string, ContextSlot>, refsBefore: seq<EvidenceRef>, changed: set<string>)
    returns (slots: map<string, ContextSlot>, refs: seq<EvidenceRef>)
    ensures slots == Invalidated(before, changed) && refs == Expired(refsBefore)
  {
    slots := before;
    var left := before.Keys;
    while left != {}
      invariant left <= before.Keys && slots.Keys == before.Keys
      invariant forall name :: name in before ==>
                  slots[name] == if name in left then before[name] else Stale(before[name], changed)
      decreases left
    {
      var name :| name in left;
      if slots[name].valid && slots[name].dependsOn * changed != {} {
        slots := slots[name := slots[name].(valid := false)];
      }
      left := left - {name};
    }
    refs := [];
    ghost var expire := (ref: EvidenceRef) => ref.(valid := false);
    for i := 0 to |refsBefore|
      invariant refs == Map(expire, refsBefore[..i])
    {
      assert refsBefore[..i + 1] == refsBefore[..i] + [refsBefore[i]];
      MapAdd(expire, refsBefore[..i], refsBefore[i]);
      refs := refs + [if refsBefore[i].valid then refsBefore[i].(valid := false) else refsBefore[i]];
    }
    assert refsBefore[..|refsBefore|] == refsBefore;
  }

  method ClearSlots(before: map<string, ContextSlot>, ops: seq<SlotOperation>) returns (slots: map<string, ContextSlot>)
    ensures slots == Cleared(before, ops)
  {
    slots := before;
    for i := 0 to |ops|
      invariant slots.Keys == before.Keys
      invariant forall name :: name in before ==>
                  slots[name] == if Clears(ops[..i], name) then before[name].(valid := false) else before[name]
    {
      var op := ops[i];
      ghost var was := slots;
      if op.kind.ClearSlot? && op.slot in slots {
        slots := slots[op.slot := slots[op.slot].(valid := false)];
      }
      assert ops[..i + 1] == ops[..i] + [op];
      forall name | name in before
        ensures slots[name] == if Clears(ops[..i + 1], name) then before[name].(valid := false) else before[name]
      {
        assert Clears(ops[..i + 1], name) <==> Clears(ops[..i], name) || (op.kind.ClearSlot? && op.slot == name);
      }
    }
    assert ops[..|ops|] == ops;
  }

  method StoreSlots(before: map<string, ContextSlot>, turn: Turn, find: string -> string)
    returns (slots: map<string, ContextSlot>)
    ensures slots == Stored(before, turn, SLOT_NAMES, find)
  {
    var names := SLOT_NAMES;
    slots := before;
    for i := 0 to |names|
      invariant slots == Stored(before, turn, names[..i], find)
    {
      assert names[..i + 1][..i] == names[..i];
      if Has(turn.constraints, names[i]) && !KeepsInherited(slots, turn, names[i]) {
        slots := slots[names[i] := NewSlot(turn, names[i], find)];
      }
    }
    assert names[..|names|] == names;
  }

  // ----- One pass is the closure -----

  /** A chain of dependencies from `path[0]` to its last element. */
  predicate DependencyPath(path: seq<string>) {
    |path| >= 2 && forall i :: 0 <= i < |path| - 1 ==> path[i + 1] in DependenciesOf(path[i])
  }

  /** A chamber is part of a tool, a recipe runs on both, and a version is one of a recipe. */
  lemma TableIs(name: string, on: string)
    ensures on in DependenciesOf(name) <==>
              (on == "tool_id" && name in {"chamber", "recipe_id", "recipe_version"})
              || (on == "chamber" && name in {"recipe_id", "recipe_version"})
              || (on == "recipe_id" && name == "recipe_version")
  {}

  lemma TableIsTransitive(a: string, b: string, c: string)
    requires b in DependenciesOf(a) && c in DependenciesOf(b)
    ensures c in DependenciesOf(a)
  {}

  /** Whatever a slot depends on through any chain, it depends on directly. */
  lemma {:induction false} TableIsClosed(path: seq<string>)
    requires DependencyPath(path)
    ensures path[|path| - 1] in DependenciesOf(path[0])
    decreases |path|
  {
    if |path| > 2 {
      var rest := path[1..];
      assert forall i {:trigger rest[i]} :: 0 <= i < |rest| ==> rest[i] == path[i + 1];
      assert path[0 + 1] in DependenciesOf(path[0]);
      TableIsClosed(rest);
      TableIsTransitive(path[0], rest[0], path[|path| - 1]);
    }
  }

  /** Slots record the dependencies the table gives for their names. */
  predicate WellKept(slots: map<string, ContextSlot>) {
    forall name :: name in slots ==> slots[name].dependsOn == DependenciesOf(name)
  }

  ghost predicate Reaches(name: string, changed: set<string>) {
    exists path :: DependencyPath(path) && path[0] == name && path[|path| - 1] in changed
  }

  lemma ReachesDirectly(name: string, changed: set<string>)
    ensures Reaches(name, changed) <==> DependenciesOf(name) * changed != {}
  {
    if Reaches(name, changed) {
      var path :| DependencyPath(path) && path[0] == name && path[|path| - 1] in changed;
      TableIsClosed(path);
      assert path[|path| - 1] in DependenciesOf(name) * changed;
    }
    if DependenciesOf(name) * changed != {} {
      var c :| c in DependenciesOf(name) * changed;
      assert DependencyPath([name, c]);
    }
  }

  /** One pass invalidates exactly the slots that transitively depend on a changed one. */
  lemma OnePassIsClosure(slots: map<string, ContextSlot>, changed: set<string>)
    requires WellKept(slots)
    ensures forall name :: name in slots ==>
              (Invalidated(slots, changed)[name].valid <==> slots[name].valid && !Reaches(name, changed))
  {
    forall name | name in slots
      ensures Invalidated(slots, changed)[name].valid <==> slots[name].valid && !Reaches(name, changed)
    {
      ReachesDirectly(name, changed);
    }
  }

  // ----- After an update -----

  lemma {:induction false} StoredSlot(
    slots: map<string, ContextSlot>, turn: Turn, names: seq<string>, find: string -> string, name: string)
    requires Distinct(names)
    ensures var after := Stored(slots, turn, names, find);
            if name in names && Has(turn.constraints, name) && !KeepsInherited(slots, turn, name)
            then name in after && after[name] == NewSlot(turn, name, find)
            else (name in after <==> name in slots) && (name in slots ==> after[name] == slots[name])
  {
    hide NewSlot;
    if names != [] {
      var init, last := names[..|names| - 1], names[|names| - 1];
      assert names == init + [last];
      StoredSlot(slots, turn, init, find, name);
      StoredSlot(slots, turn, init, find, last);
    }
  }

  lemma NamesAreDistinct()
    ensures Distinct(SLOT_NAMES)
  {}

  lemma SweptSlot(ctx: ActiveContext, turn: Turn, find: string -> string, name: string)
    ensures var swept := Cleared(Invalidated(ctx.slots, Changed(ctx, turn)), turn.operations);
            var after := Updated(ctx, turn, find).slots;
            if Supplies(turn, name) && !KeepsInherited(swept, turn, name)
            then name in after && after[name] == NewSlot(turn, name, find)
            else (name in after <==> name in ctx.slots) && (name in after ==> after[name] == swept[name])
  {
    hide NewSlot, Changed, Stale, Clears, Has;
    NamesAreDistinct();
    hide Distinct;
    var swept := Cleared(Invalidated(ctx.slots, Changed(ctx, turn)), turn.operations);
    StoredSlot(swept, turn, SLOT_NAMES, find, name);
    hide Stored;
  }

  // ----- The exact state of a slot -----

  /** The first operation of the turn that inherits the slot. */
  predicate InheritsAt(ops: seq<SlotOperation>, name: string, i: nat) {
    i < |ops| && ops[i].slot == name && ops[i].kind.InheritSlot?
    && forall k :: 0 <= k < i ==> !(ops[k].slot == name && ops[k].kind.InheritSlot?)
  }

  predicate Inherits(turn: Turn, name: string) {
    exists op :: op in turn.operations && op.slot == name && op.kind.InheritSlot?
  }

  lemma {:induction false} InheritingExactly(ops: seq<SlotOperation>, name: string)
    ensures Inheriting(ops, name).Some? <==> exists op :: op in ops && op.slot == name && op.kind.InheritSlot?
    ensures Inheriting(ops, name).Some? ==>
              exists i :: 0 <= i < |ops| && InheritsAt(ops, name, i) && Inheriting(ops, name) == Some(ops[i])
  {
    if ops != [] {
      var rest := ops[1..];
      assert ops == [ops[0]] + rest;
      if ops[0].slot == name && ops[0].kind.InheritSlot? {
        assert InheritsAt(ops, name, 0);
      } else {
        InheritingExactly(rest, name);
        if Inheriting(rest, name).Some? {
          var i: nat :| i < |rest| && InheritsAt(rest, name, i) && Inheriting(rest, name) == Some(rest[i]);
          assert ops[i + 1] == rest[i] && forall k :: 0 < k < i + 1 ==> ops[k] == rest[k - 1];
          assert InheritsAt(ops, name, i + 1);
        }
      }
    }
  }

  /** A non-empty source named by the operation. */
  predicate NamesSource(op: SlotOperation) { op.source.Some? && op.source.value != "" }

  /**
   * The slot holds the value the turn gives, valid, with the dependencies of its name; its source is the one its
   * first inheriting operation names, or else where the value is found.
   */
  ghost predicate SuppliedBy(turn: Turn, name: string, find: string -> string, slot: ContextSlot)
    requires name in turn.constraints
  {
    slot.value == turn.constraints[name] && slot.valid && slot.dependsOn == DependenciesOf(name)
    && (slot.inherited <==> Inherits(turn, name))
    && if exists i :: 0 <= i < |turn.operations| && InheritsAt(turn.operations, name, i)
                      && NamesSource(turn.operations[i])
       then exists i :: 0 <= i < |turn.operations| && InheritsAt(turn.operations, name, i)
                        && slot.source == turn.operations[i].source.value
       else slot.source == find(turn.constraints[name])
  }

  lemma NewSlotIsSupplied(turn: Turn, name: string, find: string -> string)
    requires name in turn.constraints
    ensures SuppliedBy(turn, name, find, NewSlot(turn, name, find))
  {
    InheritingExactly(turn.operations, name);
    hide Inheriting, DependenciesOf;
    forall i: nat, j: nat | InheritsAt(turn.operations, name, i) && InheritsAt(turn.operations, name, j)
      ensures i == j
    {
    }
    if Inherits(turn, name) {
      var i: nat :| i < |turn.operations| && InheritsAt(turn.operations, name, i)
        && Inheriting(turn.operations, name) == Some(turn.operations[i]);
      hide InheritsAt;
    }
  }

  /** The turn corrects or clears the slot, or gives another value than the valid one it holds. */
  predicate Touches(ctx: ActiveContext, turn: Turn, name: string) {
    (exists op :: op in turn.operations && op.slot == name && op.kind in {CorrectSlot, ClearSlot})
    || (Supplies(turn, name) && name in ctx.slots && ctx.slots[name].valid
        && turn.constraints[name] != ctx.slots[name].value)
  }

  /** The slot is still good: valid before, not cleared, and on no chain of dependencies to a slot the turn touches. */
  ghost predicate StillGood(ctx: ActiveContext, turn: Turn, name: string)
    requires name in ctx.slots
  {
    ctx.slots[name].valid && (forall op :: op in turn.operations && op.slot == name ==> !op.kind.ClearSlot?)
    && !exists changed :: Reaches(name, {changed}) && Touches(ctx, turn, changed)
  }

  lemma TouchedExactly(ctx: ActiveContext, turn: Turn, name: string)
    ensures name in Changed(ctx, turn) <==> Touches(ctx, turn, name)
  {
    hide Has;
  }

  lemma ReachesTouched(ctx: ActiveContext, turn: Turn, name: string)
    ensures Reaches(name, Changed(ctx, turn))
       <==> exists changed :: Reaches(name, {changed}) && Touches(ctx, turn, changed)
  {
    hide Reaches, Changed, Touches, DependenciesOf;
    ReachesDirectly(name, Changed(ctx, turn));
    if c :| c in DependenciesOf(name) * Changed(ctx, turn) {
      ReachesDirectly(name, {c});
      assert c in DependenciesOf(name) * {c};
      TouchedExactly(ctx, turn, c);
    }
    if c :| Reaches(name, {c}) && Touches(ctx, turn, c) {
      ReachesDirectly(name, {c});
      TouchedExactly(ctx, turn, c);
      assert c in DependenciesOf(name) * {c};
      assert c in DependenciesOf(name) * Changed(ctx, turn);
    }
  }

  lemma ClearedExactly(ops: seq<SlotOperation>, name: string)
    ensures Clears(ops, name) <==> !forall op :: op in ops && op.slot == name ==> !op.kind.ClearSlot?
  {}

  lemma SweptExactly(ctx: ActiveContext, turn: Turn, name: string)
    requires WellKept(ctx.slots) && name in ctx.slots
    ensures var swept := Cleared(Invalidated(ctx.slots, Changed(ctx, turn)), turn.operations);
            name in swept && swept[name] == ctx.slots[name].(valid := StillGood(ctx, turn, name))
  {
    ReachesTouched(ctx, turn, name);
    ReachesDirectly(name, Changed(ctx, turn));
    ClearedExactly(turn.operations, name);
    hide Reaches, Changed, Touches, Clears, DependenciesOf;
    assert ctx.slots[name].dependsOn == DependenciesOf(name);
  }

  /**
   * The exact state of every slot after a turn: supplied by it, unless it inherits a slot that is still good; any
   * other slot is what it was, valid exactly if it is still good.
   */
  lemma SlotAfter(ctx: ActiveContext, turn: Turn, find: string -> string, name: string)
    requires WellKept(ctx.slots)
    ensures var after := Updated(ctx, turn, find).slots;
            if Supplies(turn, name) && !(Inherits(turn, name) && name in ctx.slots && StillGood(ctx, turn, name))
            then name in after && SuppliedBy(turn, name, find, after[name])
            else (name in after <==> name in ctx.slots)
                 && (name in after ==> after[name] == ctx.slots[name].(valid := StillGood(ctx, turn, name)))
  {
    SweptSlot(ctx, turn, find, name);
    InheritingExactly(turn.operations, name);
    if name in turn.constraints {
      NewSlotIsSupplied(turn, name, find);
    }
    hide NewSlot, Changed, Stale, StillGood, SuppliedBy, Updated, Inheriting, Clears;
    if name in ctx.slots {
      SweptExactly(ctx, turn, name);
    }
  }

  /** The evidence after a turn: its own, or what there was, valid no longer once the turn touches any slot. */
  lemma EvidenceAfter(ctx: ActiveContext, turn: Turn, find: string -> string)
    ensures var after := Updated(ctx, turn, find).refs;
            if turn.ledger != [] then
              |after| == |turn.ledger|
              && forall i :: 0 <= i < |after| ==> after[i] == EvidenceRef(turn.ledger[i], true)
            else
              |after| == |ctx.refs|
              && forall i :: 0 <= i < |after| ==>
                   after[i].id == ctx.refs[i].id
                   && (after[i].valid <==> ctx.refs[i].valid && !exists name :: Touches(ctx, turn, name))
  {
    forall c ensures c in Changed(ctx, turn) <==> Touches(ctx, turn, c) {
      TouchedExactly(ctx, turn, c);
    }
    hide Changed, Touches, Stored;
    if Changed(ctx, turn) != {} {
      var c :| c in Changed(ctx, turn);
    }
  }

  /**
   * After a context update no slot that transitively depends on a corrected, cleared or contradicted one, and no
   * cleared slot, is still valid, unless this very turn supplied it.
   */
  lemma NothingStaleStaysValid(ctx: ActiveContext, turn: Turn, find: string -> string, name: string)
    requires WellKept(ctx.slots)
    ensures var after := Updated(ctx, turn, find).slots;
            WellKept(after)
            && (name in after && after[name].valid && !Supplies(turn, name) ==>
                  !Reaches(name, Changed(ctx, turn)) && !Clears(turn.operations, name)
                  && name in ctx.slots && after[name] == ctx.slots[name])
  {
    hide Changed, Supplies, Clears, Reaches, Has;
    SweptSlot(ctx, turn, find, name);
    OnePassIsClosure(ctx.slots, Changed(ctx, turn));
    forall n | n in Updated(ctx, turn, find).slots
      ensures Updated(ctx, turn, find).slots[n].dependsOn == DependenciesOf(n)
    {
      SweptSlot(ctx, turn, find, n);
    }
    hide Updated, NewSlot;
  }

  /**
   * Unrelated slots survive: valid, independent of every change, not cleared and not supplied, a slot stays as it
   * is.
   */
  lemma UnrelatedSlotsSurvive(ctx: ActiveContext, turn: Turn, find: string -> string, name: string)
    requires WellKept(ctx.slots)
    ensures var after := Updated(ctx, turn, find).slots;
            name in ctx.slots && !Supplies(turn, name) && !Clears(turn.operations, name)
            && !Reaches(name, Changed(ctx, turn)) ==>
              name in after && after[name] == ctx.slots[name]
  {
    hide Changed, Supplies, Clears, Reaches;
    SweptSlot(ctx, turn, find, name);
    ReachesDirectly(name, Changed(ctx, turn));
    hide Updated, NewSlot;
  }

  /** A refused turn leaves every slot as it was. */
  lemma RefusedTurnKeepsSlots(ctx: ActiveContext, turn: Turn, find: string -> string)
    requires turn.refused
    ensures Updated(ctx, Effective(turn), find).slots == ctx.slots
  {
    var t := Effective(turn);
    assert Changed(ctx, t) == {};
    var after := Updated(ctx, t, find).slots;
    forall name ensures (name in after <==> name in ctx.slots) && (name in after ==> after[name] == ctx.slots[name]) {
      SweptSlot(ctx, t, find, name);
    }
    hide Updated;
  }

  /**
   * Every reference the route plan reported as invalidated really is after the update of a turn that was not
   * refused: the slot is invalid or newly supplied, the evidence expired or replaced by this turn's ledger.
   */
  lemma ReportedReferencesAreCovered(
    ctx: ActiveContext, u: Understanding, turn: Turn, find: string -> string, reference: Reference)
    requires !turn.refused && turn.operations == u.operations
    requires reference in Routing.InvalidatedRefs(u, ctx)
    ensures var after := Updated(ctx, Effective(turn), find);
            match reference
            case SlotReference(name) => name in after.slots && (!after.slots[name].valid || Supplies(turn, name))
            case EvidenceReference(id) =>
              turn.ledger != [] || forall ref :: ref in after.refs && ref.id == id ==> !ref.valid
  {
    var rewritten := Rewritten(u.operations);
    assert rewritten <= Changed(ctx, turn);
    match reference
    case SlotReference(name) =>
      SweptSlot(ctx, turn, find, name);
      assert ctx.slots[name].dependsOn * rewritten <= ctx.slots[name].dependsOn * Changed(ctx, turn);
      hide Updated, Changed, Supplies, Clears;
    case EvidenceReference(id) =>
      hide Stored, Changed;
  }
}
