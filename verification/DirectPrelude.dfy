/** The direct prelude: replies to tasks about earlier messages, ahead of the evidence answer. */
module DirectPrelude {
  import opened AnswerGrowth
  import opened Domain
  import opened Sequences
  import DirectReply

  const PARAGRAPH := "\n\n"

  /** A reply to one task about earlier messages: the text returned and the deltas emitted. */
  datatype Reply = Reply(taskId: string, text: string, deltas: seq<string>)

  type Part = r: Reply | Concat(r.deltas) == r.text witness Reply("", "", [])

  /** What the direct-reply generator is given for one task, and what its model call comes to. */
  datatype Call = Call(
    cfg: DirectReply.Config, demo: bool, fallback: string, deltas: seq<string>, completed: bool)

  /** The generator returns the text it emitted, so its result is such a reply. */
  function PartOf(taskId: string, call: Call): Part {
    var g := DirectReply.Generated(call.cfg, call.demo, call.fallback, call.deltas, call.completed);
    DirectReply.GenerateReturnsWhatItEmitted(call.cfg, call.demo, call.fallback, call.deltas, call.completed);
    Reply(taskId, g.text, g.emitted)
  }

  predicate Selected(decision: TaskDecision, tasks: map<string, Task>) {
    decision.decision.Execute? && decision.route == Some(ChatDirect) && decision.taskId in tasks
    && (tasks[decision.taskId].target.PreviousUserMessage? || tasks[decision.taskId].target.PreviousAnswer?)
  }

  function Parts(decisions: seq<TaskDecision>, tasks: map<string, Task>, calls: nat -> Call): seq<Part> {
    if decisions == [] then []
    else
      var i := |decisions| - 1;
      Parts(decisions[..i], tasks, calls)
      + if Selected(decisions[i], tasks) then [PartOf(decisions[i].taskId, calls(i))] else []
  }

  /** `outputs[task_id] = text`: a key already there keeps its place. */
  function Put(outputs: seq<Part>, part: Part): seq<Part> {
    if outputs == [] then [part]
    else if outputs[0].taskId == part.taskId then [part] + outputs[1..]
    else [outputs[0]] + Put(outputs[1..], part)
  }

  function Outputs(parts: seq<Part>): seq<Part> {
    if parts == [] then [] else Put(Outputs(parts[..|parts| - 1]), parts[|parts| - 1])
  }

  function PreludeDeltas(parts: seq<Part>): seq<string> {
    if parts == [] then []
    else
      PreludeDeltas(parts[..|parts| - 1]) + (if |parts| == 1 then [] else [PARAGRAPH]) + parts[|parts| - 1].deltas
  }

  function PartText(part: Part): string { part.text }

  /** `"\n\n".join(outputs.values())`. */
  function CombinedText(parts: seq<Part>): string {
    Join(PARAGRAPH, Map(PartText, Outputs(parts)))
  }

  method ExecuteCombinationPrelude(decisions: seq<TaskDecision>, tasks: map<string, Task>, calls: nat -> Call)
    returns (outputs: seq<Part>, emitted: seq<string>, combined: string)
    ensures var parts := Parts(decisions, tasks, calls);
            outputs == Outputs(parts) && emitted == PreludeDeltas(parts) && combined == CombinedText(parts)
  {
    hide DirectReply.Generated, PartOf, Selected, Concat, Join, Map;
    outputs, emitted := [], [];
    assert decisions[..0] == [];
    hide Parts, Outputs, PreludeDeltas, Put;
    for i := 0 to |decisions|
      invariant var parts := Parts(decisions[..i], tasks, calls);
                outputs == Outputs(parts) && emitted == PreludeDeltas(parts)
    {
      SelectAdd(decisions, tasks, calls, i);
      ghost var before := Parts(decisions[..i], tasks, calls);
      if Selected(decisions[i], tasks) {
        var call := calls(i);
        var text, deltas := DirectReply.Generate(call.cfg, call.demo, call.fallback, call.deltas, call.completed);
        GeneratedPart(decisions[i].taskId, call, text, deltas);
        var part: Part := Reply(decisions[i].taskId, text, deltas);
        PartsAdd(before, part);
        OutputsEmpty(before);
        if outputs != [] {
          emitted := emitted + [PARAGRAPH];
        } else {
          assert emitted + [] == emitted;
        }
        emitted := emitted + deltas;
        outputs := Put(outputs, part);
      }
    }
    assert decisions[..|decisions|] == decisions;
    combined := Join(PARAGRAPH, Map(PartText, outputs));
  }

  lemma GeneratedPart(taskId: string, call: Call, text: string, deltas: seq<string>)
    requires DirectReply.Reply(text, deltas)
          == DirectReply.Generated(call.cfg, call.demo, call.fallback, call.deltas, call.completed)
    ensures PartOf(taskId, call) == Reply(taskId, text, deltas)
  {
    hide DirectReply.Generated;
  }

  lemma SelectAdd(decisions: seq<TaskDecision>, tasks: map<string, Task>, calls: nat -> Call, i: nat)
    requires i < |decisions|
    ensures Parts(decisions[..i + 1], tasks, calls)
         == if Selected(decisions[i], tasks)
            then Parts(decisions[..i], tasks, calls) + [PartOf(decisions[i].taskId, calls(i))]
            else Parts(decisions[..i], tasks, calls)
  {
    assert decisions[..i + 1][..i] == decisions[..i];
  }

  lemma PartsAdd(parts: seq<Part>, part: Part)
    ensures Outputs(parts + [part]) == Put(Outputs(parts), part)
    ensures PreludeDeltas(parts + [part])
         == PreludeDeltas(parts) + (if parts == [] then [] else [PARAGRAPH]) + part.deltas
    ensures Weight(parts + [part]) == Weight(parts) + |part.text| + |PARAGRAPH|
  {
    assert (parts + [part])[..|parts|] == parts;
  }

  lemma IdsAdd(parts: seq<Part>, part: Part)
    ensures Ids(parts + [part]) == Ids(parts) + [part.taskId]
    ensures Distinct(Ids(parts + [part])) <==> Distinct(Ids(parts)) && part.taskId !in Ids(parts)
  {
    var ids := Ids(parts);
    MapAdd((part: Part) => part.taskId, parts, part);
    assert Ids(parts + [part]) == ids + [part.taskId];
    var all := ids + [part.taskId];
    if Distinct(all) {
      assert forall i, j :: 0 <= i < j < |ids| ==> all[i] == ids[i] && all[j] == ids[j];
    }
  }

  lemma OutputsEmpty(parts: seq<Part>)
    ensures Outputs(parts) == [] <==> parts == []
  {}

  lemma {:induction false} PreludeDeltasJoin(parts: seq<Part>)
    ensures Concat(PreludeDeltas(parts)) == Join(PARAGRAPH, Map(PartText, parts))
  {
    if parts != [] {
      var init, last := parts[..|parts| - 1], parts[|parts| - 1];
      assert parts == init + [last];
      PreludeDeltasJoin(init);
      MapAdd(PartText, init, last);
      JoinAdd(PARAGRAPH, Map(PartText, init), last.text);
      var gap := if |parts| == 1 then [] else [PARAGRAPH];
      ConcatAppend(PreludeDeltas(init) + gap, last.deltas);
      ConcatAppend(PreludeDeltas(init), gap);
      ConcatOne(PARAGRAPH);
    }
  }

  function Ids(parts: seq<Part>): seq<string> {
    Map((part: Part) => part.taskId, parts)
  }

  /** Each text with the paragraph break after it. */
  function Weight(parts: seq<Part>): nat {
    if parts == [] then 0 else Weight(parts[..|parts| - 1]) + |parts[|parts| - 1].text| + |PARAGRAPH|
  }

  lemma {:induction false} WeightHead(parts: seq<Part>)
    requires parts != []
    ensures Weight(parts) == |parts[0].text| + |PARAGRAPH| + Weight(parts[1..])
  {
    var init := parts[..|parts| - 1];
    if init == [] {
      assert parts[1..] == [];
    } else {
      WeightHead(init);
      assert parts[1..][..|parts| - 2] == init[1..];
    }
  }

  lemma PutStep(first: Part, rest: seq<Part>, part: Part)
    ensures Put([first] + rest, part)
         == if first.taskId == part.taskId then [part] + rest else [first] + Put(rest, part)
    ensures Put([], part) == [part] && Ids([]) == []
  {
    assert ([first] + rest)[1..] == rest;
  }

  lemma {:induction false} PutIds(outputs: seq<Part>, part: Part)
    ensures part.taskId !in Ids(outputs) ==> Put(outputs, part) == outputs + [part]
    ensures forall id :: id in Ids(Put(outputs, part)) <==> id in Ids(outputs) || id == part.taskId
  {
    hide Put, Ids, Weight;
    PutStep(part, [], part);
    HeadedBy(part, []);
    assert [part] + [] == [part];
    if outputs != [] {
      var first, rest := outputs[0], outputs[1..];
      assert outputs == [first] + rest;
      PutStep(first, rest, part);
      HeadedBy(first, rest);
      HeadedBy(part, rest);
      HeadedBy(first, Put(rest, part));
      PutIds(rest, part);
      assert [first] + (rest + [part]) == outputs + [part];
    }
  }

  lemma {:induction false} PutWeight(outputs: seq<Part>, part: Part)
    requires part.taskId in Ids(outputs)
    ensures Weight(Put(outputs, part)) < Weight(outputs) + |part.text| + |PARAGRAPH|
  {
    hide Put, Ids, Weight;
    PutStep(part, [], part);
    var first, rest := outputs[0], outputs[1..];
    assert outputs == [first] + rest;
    PutStep(first, rest, part);
    HeadedBy(first, rest);
    if first.taskId == part.taskId {
      HeadedBy(part, rest);
    } else {
      HeadedBy(first, Put(rest, part));
      PutWeight(rest, part);
    }
  }

  lemma HeadedBy(first: Part, rest: seq<Part>)
    ensures Ids([first] + rest) == [first.taskId] + Ids(rest)
    ensures Weight([first] + rest) == |first.text| + |PARAGRAPH| + Weight(rest)
  {
    var all := [first] + rest;
    assert all[1..] == rest;
    WeightHead(all);
    hide Weight, Map;
    assert forall i :: 0 <= i < |all| ==> Ids(all)[i] == ([first.taskId] + Ids(rest))[i];
  }

  lemma {:induction false} OutputsWeight(parts: seq<Part>)
    ensures Weight(Outputs(parts)) <= Weight(parts)
    ensures Distinct(Ids(parts)) ==> Outputs(parts) == parts
    ensures !Distinct(Ids(parts)) ==> Weight(Outputs(parts)) < Weight(parts)
    ensures forall id :: id in Ids(Outputs(parts)) <==> id in Ids(parts)
  {
    if parts == [] {
      assert Outputs(parts) == [];
    } else {
      var init, last := parts[..|parts| - 1], parts[|parts| - 1];
      assert parts == init + [last];
      OutputsWeight(init);
      PutIds(Outputs(init), last);
      if last.taskId in Ids(Outputs(init)) {
        PutWeight(Outputs(init), last);
      }
      PartsAdd(init, last);
      PartsAdd(Outputs(init), last);
      IdsAdd(init, last);
      hide Outputs, Put, Weight, Ids, Distinct;
    }
  }

  lemma {:induction false} JoinedWeight(parts: seq<Part>)
    requires parts != []
    ensures |Join(PARAGRAPH, Map(PartText, parts))| + |PARAGRAPH| == Weight(parts)
  {
    var init, last := parts[..|parts| - 1], parts[|parts| - 1];
    assert parts == init + [last];
    MapAdd(PartText, init, last);
    JoinAdd(PARAGRAPH, Map(PartText, init), last.text);
    if init != [] {
      JoinedWeight(init);
    }
  }

  /** The prelude's combined text is what it streamed exactly when no task id was executed twice. */
  lemma PreludeAgreesExactlyWhen(parts: seq<Part>)
    ensures Concat(PreludeDeltas(parts)) == CombinedText(parts) <==> Distinct(Ids(parts))
  {
    PreludeDeltasJoin(parts);
    OutputsWeight(parts);
    OutputsEmpty(parts);
    if parts != [] {
      JoinedWeight(parts);
      JoinedWeight(Outputs(parts));
    }
  }

  /** The decision executes a known task about the previous messages by plain chat. */
  predicate AboutMessages(d: TaskDecision, tasks: map<string, Task>) {
    d.decision == Execute && d.route == Some(ChatDirect)
    && d.taskId in tasks && tasks[d.taskId].target in {PreviousUserMessage, PreviousAnswer}
  }

  /** The prelude answers exactly the tasks about the previous messages, in order, each by its own call. */
  lemma {:induction false} PartsExactly(decisions: seq<TaskDecision>, tasks: map<string, Task>, calls: nat -> Call)
    returns (positions: seq<nat>)
    ensures var parts := Parts(decisions, tasks, calls);
            |positions| == |parts|
            && (forall k :: 0 <= k < |parts| ==>
                  positions[k] < |decisions|
                  && parts[k] == PartOf(decisions[positions[k]].taskId, calls(positions[k])))
            && (forall j, k :: 0 <= j < k < |parts| ==> positions[j] < positions[k])
            && forall i :: 0 <= i < |decisions| ==> (i in positions <==> AboutMessages(decisions[i], tasks))
  {
    hide PartOf;
    positions := [];
    if decisions != [] {
      var init, last := decisions[..|decisions| - 1], decisions[|decisions| - 1];
      positions := PartsExactly(init, tasks, calls);
      assert Selected(last, tasks) <==> AboutMessages(last, tasks);
      hide Selected, AboutMessages;
      assert forall i :: i in positions ==> i < |init|;
      if Selected(last, tasks) {
        positions := positions + [|init|];
      }
    }
  }
}
