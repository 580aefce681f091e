/**
 * One streamed message as the service runs it: a generator that pulls graph events from a queue, and a cancel
 * call that may arrive between any two of its steps.
 */
module StreamService {
  import opened Sequences
  import Domain

  datatype Event =
    | Accepted(replay: bool) | Stage | TaskStatus | EvidenceFound | AnswerDelta(delta: string) | Heartbeat
    | Completed(response: string) | Failed

  datatype Envelope = Envelope(sequence: nat, event: Event)

  predicate Terminal(e: Event) { e.Completed? || e.Failed? }

  /** What the graph writes to its custom stream, as `_custom_stream_event` sorts it. */
  datatype Custom = StageUpdate | TaskUpdate | EvidenceUpdate | DeltaUpdate(delta: string) | Unlisted | Malformed

  datatype Interrupt = Interrupt(response: string, questions: seq<string>)

  /** The part of the graph's last state that the response text is made of. */
  datatype FinalState = FinalState(interrupt: Option<Interrupt>, answerText: string)

  datatype Item = Timeout | Values(state: FinalState) | CustomEvent(custom: Custom) | GraphError | Done

  const NO_STATE := FinalState(None, "")
  const NO_ANSWER := "系统未生成可验证答复。"

  /** `_build_response`: the text that is both returned and persisted. */
  function ResponseText(state: FinalState): string {
    match state.interrupt
    case Some(i) =>
      var text := Strip(i.response);
      if text != "" then text else Domain.QUESTIONS_LEAD + Join("\n", Map((q: string) => "- " + q, i.questions))
    case None => if state.answerText != "" then state.answerText else NO_ANSWER
  }

  /**
   * Where the generator is suspended: before set-up, at the loop's cancel check, waiting for an item, after the
   * loop, with the missing suffix shown, saving, marking the record, reporting a failure, or recording a cancel.
   */
  datatype Phase =
    | Setup | AtCheck | Waiting | AfterLoop | SuffixShown | Saving | Marking | Failing | Cancelling | Ended

  datatype Run = Run(
    phase: Phase,
    replay: bool,
    cancelled: bool,
    events: seq<Envelope>,
    streamed: string,
    final: FinalState,
    persisted: seq<string>)

  /** One resumption of the generator with what it meets there, or an outside event. */
  datatype Action =
    | SetUp(ok: bool)
    | Check
    | Deliver(item: Item)
    | Guard(buildOk: bool)
    | Announce
    | Save(ok: bool)
    | Mark(ok: bool)
    | ReportFailure
    | RecordCancel
    | Cancel
    /** The consumer goes away; a save already handed to its thread may still happen. */
    | Abandon(savedAnyway: bool)

  function Emit(run: Run, e: Event): Run {
    run.(events := run.events + [Envelope(|run.events| + 1, e)])
  }

  function Goto(run: Run, phase: Phase): Run { run.(phase := phase) }

  /** The generator up to its first suspension point. */
  function Begin(replay: Option<string>): Run {
    var run := Emit(Run(Setup, replay.Some?, false, [], "", NO_STATE, []), Accepted(replay.Some?));
    if replay.Some? then Goto(Emit(run, Completed(replay.value)), Ended) else run
  }

  function CustomOf(custom: Custom): Option<Event> {
    match custom
    case StageUpdate => Some(Stage)
    case TaskUpdate => Some(TaskStatus)
    case EvidenceUpdate => Some(EvidenceFound)
    case DeltaUpdate(d) => if d != "" then Some(AnswerDelta(d)) else None
    case Unlisted => None
    case Malformed => None
  }

  /** The item makes the loop raise. */
  predicate Raises(item: Item) { item.GraphError? || item == CustomEvent(Malformed) }

  function Receive(run: Run, item: Item): Run {
    match item
    case Timeout => Goto(Emit(run, Heartbeat), AtCheck)
    case Values(state) => run.(final := state, phase := AtCheck)
    case GraphError => Goto(run, Failing)
    case Done => Goto(run, AfterLoop)
    case CustomEvent(custom) =>
      if custom.Malformed? then Goto(run, Failing)
      else
        match CustomOf(custom)
        case None => Goto(run, AtCheck)
        case Some(e) =>
          var shown := Goto(Emit(run, e), AtCheck);
          if e.AnswerDelta? then shown.(streamed := run.streamed + e.delta) else shown
  }

  /** The cancel check after the loop, the response, and the final-text guard. */
  function Guarded(run: Run, buildOk: bool): Run {
    var response := ResponseText(run.final);
    if run.cancelled then Goto(run, Cancelling)
    else if !buildOk || !(run.streamed <= response) then Goto(run, Failing)
    else if run.streamed == response then Goto(Emit(run, Stage), Saving)
    else Goto(Emit(run, AnswerDelta(response[|run.streamed|..])), SuffixShown)
  }

  function Saved(run: Run): Run { run.(persisted := run.persisted + [ResponseText(run.final)]) }

  /** The action resumes the generator where it stands, or ends it; anything else meets nothing. */
  predicate Resumes(phase: Phase, action: Action) {
    match action
    case SetUp(_) => phase.Setup?
    case Check => phase.AtCheck?
    case Deliver(_) => phase.Waiting?
    case Guard(_) => phase.AfterLoop?
    case Announce => phase.SuffixShown?
    case Save(_) => phase.Saving?
    case Mark(_) => phase.Marking?
    case ReportFailure => phase.Failing?
    case RecordCancel => phase.Cancelling?
    case Cancel => false
    case Abandon(_) => !phase.Ended?
  }

  /** One step: a resumption where the generator stands, a cancel, or nothing. */
  function Step(run: Run, action: Action): Run {
    if action.Cancel? then (if run.phase.Ended? then run else run.(cancelled := true))
    else if !Resumes(run.phase, action) then run
    else
      match action
      case SetUp(ok) => Goto(run, if ok then AtCheck else Failing)
      case Check => Goto(run, if run.cancelled then Cancelling else Waiting)
      case Deliver(item) => Receive(run, item)
      case Guard(buildOk) => Guarded(run, buildOk)
      case Announce => Goto(Emit(run, Stage), Saving)
      case Save(ok) => if ok then Goto(Saved(run), Marking) else Goto(run, Failing)
      case Mark(ok) => if ok then Goto(Emit(run, Completed(ResponseText(run.final))), Ended) else Goto(run, Failing)
      case ReportFailure => Goto(Emit(run, Failed), Ended)
      case RecordCancel => Goto(run, Ended)
      case Cancel => run
      case Abandon(savedAnyway) => Goto(if run.phase.Saving? && savedAnyway then Saved(run) else run, Ended)
  }

  function Steps(run: Run, actions: seq<Action>): Run {
    if actions == [] then run else Step(Steps(run, actions[..|actions| - 1]), actions[|actions| - 1])
  }

  // ----- The object -----

  class StreamMessage {
    var phase: Phase
    var replay: bool
    var cancelled: bool
    var events: seq<Envelope>
    var streamedAnswer: string
    var finalState: FinalState
    var persisted: seq<string>
    var sequence: nat

    ghost predicate Valid()
      reads this
    {
      sequence == |events|
    }

    function View(): Run
      reads this
    {
      Run(phase, replay, cancelled, events, streamedAnswer, finalState, persisted)
    }

    constructor (replayed: Option<string>)
      ensures Valid() && View() == Begin(replayed)
    {
      replay, cancelled, streamedAnswer, finalState, persisted := replayed.Some?, false, "", NO_STATE, [];
      events := [Envelope(1, Accepted(replayed.Some?))];
      sequence, phase := 1, Setup;
      new;
      if replayed.Some? {
        Yield(Completed(replayed.value));
        phase := Ended;
      }
    }

    method Yield(e: Event)
      requires Valid()
      modifies `events, `sequence
      ensures Valid() && View() == Emit(old(View()), e)
    {
      sequence := sequence + 1;
      events := events + [Envelope(sequence, e)];
    }

    method LoopCheck()
      requires Valid() && phase.AtCheck?
      modifies this
      ensures Valid() && View() == Step(old(View()), Check)
    {
      phase := if cancelled then Cancelling else Waiting;
    }

    method HandleItem(item: Item)
      requires Valid() && phase.Waiting?
      modifies this
      ensures Valid() && View() == Step(old(View()), Deliver(item))
    {
      match item {
        case Timeout =>
          Yield(Heartbeat);
          phase := AtCheck;
        case Done =>
          phase := AfterLoop;
        case GraphError =>
          phase := Failing;
        case Values(state) =>
          finalState := state;
          phase := AtCheck;
        case CustomEvent(custom) =>
          if custom.Malformed? {
            phase := Failing;
            return;
          }
          var e := CustomOf(custom);
          if e.Some? {
            if e.value.AnswerDelta? {
              streamedAnswer := streamedAnswer + e.value.delta;
            }
            Yield(e.value);
          }
          phase := AtCheck;
      }
    }

    method GuardAnswer(buildOk: bool)
      requires Valid() && phase.AfterLoop?
      modifies this
      ensures Valid() && View() == Step(old(View()), Guard(buildOk))
    {
      if cancelled {
        phase := Cancelling;
        return;
      }
      if !buildOk {
        phase := Failing;
        return;
      }
      var response := ResponseText(finalState);
      if streamedAnswer != response {
        if streamedAnswer <= response {
          Yield(AnswerDelta(response[|streamedAnswer|..]));
          phase := SuffixShown;
        } else {
          phase := Failing;
        }
        return;
      }
      Yield(Stage);
      phase := Saving;
    }

    method SaveAnswer(ok: bool)
      requires Valid() && phase.Saving?
      modifies this
      ensures Valid() && View() == Step(old(View()), Save(ok))
    {
      if ok {
        persisted := persisted + [ResponseText(finalState)];
        phase := Marking;
      } else {
        phase := Failing;
      }
    }

    method MarkCompleted(ok: bool)
      requires Valid() && phase.Marking?
      modifies this
      ensures Valid() && View() == Step(old(View()), Mark(ok))
    {
      if ok {
        Yield(Completed(ResponseText(finalState)));
        phase := Ended;
      } else {
        phase := Failing;
      }
    }

    method CancelStream()
      requires Valid()
      modifies this
      ensures Valid() && View() == Step(old(View()), Cancel)
    {
      if !phase.Ended? {
        cancelled := true;
      }
    }

    /** Resume the generator, or let an outside event happen. */
    method Advance(action: Action)
      requires Valid()
      modifies this
      ensures Valid() && View() == Step(old(View()), action)
    {
      if action.Cancel? {
        CancelStream();
      } else if Resumes(phase, action) {
        match action {
          case SetUp(ok) => phase := if ok then AtCheck else Failing;
          case Check => LoopCheck();
          case Deliver(item) => HandleItem(item);
          case Guard(buildOk) => GuardAnswer(buildOk);
          case Announce =>
            Yield(Stage);
            phase := Saving;
          case Save(ok) => SaveAnswer(ok);
          case Mark(ok) => MarkCompleted(ok);
          case ReportFailure =>
            Yield(Failed);
            phase := Ended;
          case RecordCancel => phase := Ended;
          case Abandon(savedAnyway) =>
            if phase.Saving? && savedAnyway {
              persisted := persisted + [ResponseText(finalState)];
            }
            phase := Ended;
        }
      }
    }
  }

  // ----- Every run -----

  /** The deltas a client has received, concatenated. */
  function Received(events: seq<Envelope>): string {
    if events == [] then ""
    else
      var e := events[|events| - 1].event;
      Received(events[..|events| - 1]) + if e.AnswerDelta? then e.delta else ""
  }

  lemma ReceivedAdd(events: seq<Envelope>, e: Envelope)
    ensures Received(events + [e]) == Received(events) + if e.event.AnswerDelta? then e.event.delta else ""
  {
    assert (events + [e])[..|events|] == events;
  }

  predicate Numbered(events: seq<Envelope>) {
    forall i :: 0 <= i < |events| ==> events[i].sequence == i + 1
  }

  /** Accepted first, numbers from one without a gap, and nothing after a terminal event. */
  predicate InProtocol(events: seq<Envelope>, replay: bool) {
    events != [] && events[0].event == Accepted(replay) && Numbered(events)
    && forall i :: 0 <= i < |events| - 1 ==> !Terminal(events[i].event)
  }

  predicate Sealed(events: seq<Envelope>) {
    events != [] && Terminal(events[|events| - 1].event)
  }

  predicate WellFormed(run: Run) {
    InProtocol(run.events, run.replay) && (Sealed(run.events) ==> run.phase.Ended?)
  }

  predicate BeforeGuard(phase: Phase) { phase.Setup? || phase.AtCheck? || phase.Waiting? || phase.AfterLoop? }

  /**
   * Up to the guard the client has the streamed text and nothing is saved; then it has the whole response, and
   * nothing but that response is ever saved, once, whatever happens after.
   */
  predicate Faithful(run: Run) {
    !run.replay ==>
      var response := ResponseText(run.final);
      (BeforeGuard(run.phase) ==> run.persisted == [] && Received(run.events) == run.streamed)
      && (run.phase.SuffixShown? || run.phase.Saving? ==> run.persisted == [] && Received(run.events) == response)
      && (run.phase.Marking? ==> run.persisted == [response])
      && (run.phase.Cancelling? ==> run.persisted == [])
      && (run.persisted != [] ==> run.persisted == [response] && Received(run.events) == response)
      && (Sealed(run.events) && run.events[|run.events| - 1].event.Completed? ==>
            run.events[|run.events| - 1].event == Completed(response) && run.persisted == [response])
  }

  predicate Sound(run: Run) {
    WellFormed(run) && Faithful(run) && (run.replay ==> run.phase.Ended?)
  }

  lemma EmitKeepsForm(run: Run, e: Event)
    requires InProtocol(run.events, run.replay) && !Sealed(run.events)
    ensures var next := Emit(run, e);
            InProtocol(next.events, run.replay) && (Sealed(next.events) <==> Terminal(e))
            && next.events != [] && next.events[|next.events| - 1].event == e
            && Received(next.events) == Received(run.events) + if e.AnswerDelta? then e.delta else ""
  {
    ReceivedAdd(run.events, Envelope(|run.events| + 1, e));
  }

  lemma ReceiveIsSound(run: Run, item: Item)
    requires Sound(run) && run.phase.Waiting?
    ensures Sound(Receive(run, item))
  {
    hide Received, ResponseText, InProtocol, Sealed;
    EmitKeepsForm(run, Heartbeat);
    if item.CustomEvent? && CustomOf(item.custom).Some? {
      EmitKeepsForm(run, CustomOf(item.custom).value);
    }
  }

  lemma GuardIsSound(run: Run, buildOk: bool)
    requires Sound(run) && run.phase.AfterLoop?
    ensures Sound(Guarded(run, buildOk))
  {
    hide Received, ResponseText, InProtocol, Sealed;
    var response := ResponseText(run.final);
    EmitKeepsForm(run, Stage);
    if run.streamed <= response {
      EmitKeepsForm(run, AnswerDelta(response[|run.streamed|..]));
    }
  }

  lemma StepIsSound(run: Run, action: Action)
    requires Sound(run)
    ensures Sound(Step(run, action)) && Step(run, action).replay == run.replay
  {
    hide Received, ResponseText, InProtocol, Sealed, Receive, Guarded;
    if Resumes(run.phase, action) {
      match action
      case Deliver(item) =>
        ReceiveIsSound(run, item);
        ReceiveKeepsReplay(run, item);
      case Guard(buildOk) =>
        GuardIsSound(run, buildOk);
        GuardKeepsReplay(run, buildOk);
      case Announce => EmitKeepsForm(run, Stage);
      case Mark(_) => EmitKeepsForm(run, Completed(ResponseText(run.final)));
      case ReportFailure => EmitKeepsForm(run, Failed);
      case _ =>
    }
  }

  lemma ReceiveKeepsReplay(run: Run, item: Item)
    ensures Receive(run, item).replay == run.replay
  {}

  lemma GuardKeepsReplay(run: Run, buildOk: bool)
    ensures Guarded(run, buildOk).replay == run.replay
  {}

  /**
   * In every interleaving of the generator's resumptions with cancels and a consumer that goes away: accepted comes
   * first, the sequence numbers are 1, 2, 3 and so on, a terminal event is the last one; whatever a fresh run
   * saves, it saves once, and it is exactly what it streamed; and a completed one has saved it.
   */
  lemma {:induction false} EveryRunIsSound(replay: Option<string>, actions: seq<Action>)
    ensures var run := Steps(Begin(replay), actions); Sound(run) && run.replay == replay.Some?
  {
    if actions == [] {
      BeginIsSound(replay);
    } else {
      hide Sound;
      EveryRunIsSound(replay, actions[..|actions| - 1]);
      StepIsSound(Steps(Begin(replay), actions[..|actions| - 1]), actions[|actions| - 1]);
    }
  }

  lemma BeginIsSound(replay: Option<string>)
    ensures Sound(Begin(replay))
  {
    var run := Run(Setup, replay.Some?, false, [], "", NO_STATE, []);
    ReceivedAdd([], Envelope(1, Accepted(replay.Some?)));
    assert Emit(run, Accepted(replay.Some?)).events == [Envelope(1, Accepted(replay.Some?))];
  }

  /**
   * The same request sent again after it completed, whatever happens around it: it is accepted as a replay and
   * completed with the text stored then, numbered 1 and 2; nothing else is shown, streamed or saved.
   */
  lemma {:induction false} ReplayIsAnswered(text: string, actions: seq<Action>)
    ensures var run := Steps(Begin(Some(text)), actions);
            run.events == [Envelope(1, Accepted(true)), Envelope(2, Completed(text))]
            && run.streamed == "" && run.persisted == [] && Received(run.events) == "" && run.phase.Ended?
  {
    if actions == [] {
      var run := Begin(Some(text));
      assert run.events == [Envelope(1, Accepted(true)), Envelope(2, Completed(text))];
      ReceivedAdd([], Envelope(1, Accepted(true)));
      ReceivedAdd([Envelope(1, Accepted(true))], Envelope(2, Completed(text)));
      assert run.events == [Envelope(1, Accepted(true))] + [Envelope(2, Completed(text))];
    } else {
      ReplayIsAnswered(text, actions[..|actions| - 1]);
    }
  }

  // ----- Cancelled before the check after the loop -----

  /** Cancelled, and on no path to saving or completing any more. */
  predicate CancelledInTime(run: Run) {
    run.cancelled && !run.replay && run.persisted == []
    && !run.phase.SuffixShown? && !run.phase.Saving? && !run.phase.Marking?
    && (forall i :: 0 <= i < |run.events| ==> !run.events[i].event.Completed?)
  }

  /** Whatever happens next, nothing is saved and nothing completes. */
  lemma {:induction false} CancelSavesNothing(run: Run, actions: seq<Action>)
    requires CancelledInTime(run)
    ensures CancelledInTime(Steps(run, actions))
  {
    if actions != [] {
      CancelSavesNothing(run, actions[..|actions| - 1]);
    }
  }

  /** A cancel that arrives anywhere before the check after the loop: whatever follows, nothing is ever saved. */
  lemma CancelInTimeSavesNothing(before: seq<Action>, after: seq<Action>)
    requires BeforeGuard(Steps(Begin(None), before).phase)
    ensures CancelledInTime(Steps(Begin(None), before + [Cancel] + after))
  {
    var run := Steps(Begin(None), before);
    var cancelled := Steps(Begin(None), before + [Cancel]);
    EveryRunIsSound(None, before);
    hide Received, ResponseText;
    assert (before + [Cancel])[..|before|] == before;
    assert cancelled == run.(cancelled := true);
    SoundBeforeGuard(run);
    CancelSavesNothing(cancelled, after);
    StepsOn(Begin(None), before + [Cancel], after);
  }

  lemma SoundBeforeGuard(run: Run)
    requires Sound(run) && BeforeGuard(run.phase) && !run.replay
    ensures run.persisted == [] && forall i :: 0 <= i < |run.events| ==> !run.events[i].event.Completed?
  {
    hide Received, ResponseText;
    assert !Sealed(run.events);
  }

  lemma {:induction false} StepsOn(run: Run, first: seq<Action>, later: seq<Action>)
    ensures Steps(run, first + later) == Steps(Steps(run, first), later)
  {
    hide Step;
    if later == [] {
      assert first + later == first;
    } else {
      assert (first + later)[..|first + later| - 1] == first + later[..|later| - 1];
      StepsOn(run, first, later[..|later| - 1]);
    }
  }

  // ----- Each suspension point -----

  /** The step shows exactly these events, and saves exactly these texts. */
  predicate Shows(run: Run, next: Run, events: seq<Event>, saved: seq<string>) {
    |next.events| == |run.events| + |events| && run.events <= next.events
    && (forall i :: 0 <= i < |events| ==>
          next.events[|run.events| + i] == Envelope(|run.events| + i + 1, events[i]))
    && next.persisted == run.persisted + saved && next.replay == run.replay && next.cancelled == run.cancelled
  }

  /** What an update of the graph's custom stream is shown as; anything not listed shows nothing. */
  predicate ShownAs(custom: Custom, events: seq<Event>) {
    match custom
    case StageUpdate => events == [Stage]
    case TaskUpdate => events == [TaskStatus]
    case EvidenceUpdate => events == [EvidenceFound]
    case DeltaUpdate(delta) => events == if delta == "" then [] else [AnswerDelta(delta)]
    case Unlisted => events == []
    case Malformed => events == []
  }

  predicate ShowsItem(item: Item, events: seq<Event>) {
    match item
    case Timeout => events == [Heartbeat]
    case CustomEvent(custom) => ShownAs(custom, events)
    case _ => events == []
  }

  /** One item of the queue: a pulse, a state, an update, the end, or a failure; only the last two leave the loop. */
  lemma ItemIsTaken(run: Run, item: Item)
    requires run.phase.Waiting?
    ensures var next := Step(run, Deliver(item));
            (next.phase.AfterLoop? <==> item.Done?) && (next.phase.Failing? <==> Raises(item))
            && (!item.Done? && !Raises(item) ==> next.phase.AtCheck?)
            && (Raises(item) <==> item in {GraphError, CustomEvent(Malformed)})
            && next.final == (if item.Values? then item.state else run.final)
            && next.streamed == run.streamed
               + (if item.CustomEvent? && item.custom.DeltaUpdate? then item.custom.delta else "")
            && exists events :: ShowsItem(item, events) && Shows(run, next, events, [])
  {
    assert run.streamed + "" == run.streamed && run.persisted + [] == run.persisted;
    var next := Step(run, Deliver(item));
    var events :=
      if item.Timeout? then [Heartbeat]
      else if item.CustomEvent? && CustomOf(item.custom).Some? then [CustomOf(item.custom).value] else [];
    assert ShowsItem(item, events) && Shows(run, next, events, []);
  }

  /** The guard lets the response pass as it stands, or with what is missing of it; else the run fails. */
  lemma GuardDoes(run: Run, ok: bool)
    requires run.phase.AfterLoop?
    ensures var next, response := Step(run, Guard(ok)), ResponseText(run.final);
            if run.cancelled then next.phase.Cancelling? && Shows(run, next, [], [])
            else if !ok || !(run.streamed <= response) then next.phase.Failing? && Shows(run, next, [], [])
            else if run.streamed == response then next.phase.Saving? && Shows(run, next, [Stage], [])
            else
              next.phase.SuffixShown?
              && exists rest :: run.streamed + rest == response && Shows(run, next, [AnswerDelta(rest)], [])
  {
    hide ResponseText;
    assert run.persisted + [] == run.persisted;
    var response := ResponseText(run.final);
    if run.streamed <= response && run.streamed != response {
      var rest := response[|run.streamed|..];
      assert run.streamed + rest == response;
      assert !run.cancelled && ok ==> Shows(run, Step(run, Guard(ok)), [AnswerDelta(rest)], []);
    }
  }

  /**
   * Where the generator goes from every other suspension point, and what it shows and saves there: set-up, a save and
   * a mark may fail, a failure is shown, and a consumer that goes away during a save may leave it done.
   */
  lemma ResumptionsDo(run: Run, ok: bool)
    ensures var response := ResponseText(run.final);
            (run.phase.Setup? ==>
               var next := Step(run, SetUp(ok));
               next.phase == (if ok then AtCheck else Failing) && Shows(run, next, [], []))
            && (run.phase.AtCheck? ==>
                  var next := Step(run, Check);
                  next.phase == (if run.cancelled then Cancelling else Waiting) && Shows(run, next, [], []))
            && (run.phase.SuffixShown? ==>
                  var next := Step(run, Announce); next.phase.Saving? && Shows(run, next, [Stage], []))
            && (run.phase.Saving? ==>
                  var next := Step(run, Save(ok));
                  next.phase == (if ok then Marking else Failing)
                  && Shows(run, next, [], if ok then [response] else []))
            && (run.phase.Marking? ==>
                  var next := Step(run, Mark(ok));
                  next.phase == (if ok then Ended else Failing)
                  && Shows(run, next, if ok then [Completed(response)] else [], []))
            && (run.phase.Failing? ==>
                  var next := Step(run, ReportFailure); next.phase.Ended? && Shows(run, next, [Failed], []))
            && (run.phase.Cancelling? ==>
                  var next := Step(run, RecordCancel); next.phase.Ended? && Shows(run, next, [], []))
            && (!run.phase.Ended? ==>
                  var next := Step(run, Abandon(ok));
                  next.phase.Ended? && Shows(run, next, [], if run.phase.Saving? && ok then [response] else []))
            && Step(run, Cancel) == run.(cancelled := run.cancelled || !run.phase.Ended?)
  {
    hide ResponseText;
    assert run.persisted + [] == run.persisted;
  }

  predicate AnyTerminal(events: seq<Envelope>) {
    exists i :: 0 <= i < |events| && Terminal(events[i].event)
  }

  /** The actions from the first that meets the generator on. */
  function Met(phase: Phase, actions: seq<Action>): seq<Action> {
    if actions == [] || Resumes(phase, actions[0]) then actions else Met(phase, actions[1..])
  }

  /** The resumption that fails: a set-up that does, or a wait whose item raises. */
  predicate Fails(action: Action) {
    action == SetUp(false) || (action.Deliver? && Raises(action.item))
  }

  /** The first resumption fails, and the failure is reported before the consumer goes away. */
  predicate FailsAndReports(phase: Phase, actions: seq<Action>) {
    var met := Met(phase, actions);
    met != [] && Fails(met[0])
    && var later := Met(Failing, met[1..]); later != [] && later[0].ReportFailure?
  }

  lemma {:induction false} StepsFirst(run: Run, action: Action, rest: seq<Action>)
    ensures Steps(run, [action] + rest) == Steps(Step(run, action), rest)
  {
    hide Step;
    if rest == [] {
      assert [action] + rest == [action] && [action][..0] == [];
    } else {
      assert ([action] + rest)[..|rest|] == [action] + rest[..|rest| - 1];
      StepsFirst(run, action, rest[..|rest| - 1]);
    }
  }

  lemma StepsSplit(run: Run, actions: seq<Action>)
    requires actions != []
    ensures Steps(run, actions) == Steps(Step(run, actions[0]), actions[1..])
  {
    assert actions == [actions[0]] + actions[1..];
    StepsFirst(run, actions[0], actions[1..]);
  }

  /** A cancel met at a check, or already on its way out: nothing more is ever shown. */
  lemma {:induction false} CancelSeenIsSilent(run: Run, actions: seq<Action>)
    requires run.cancelled && (run.phase.AtCheck? || run.phase.AfterLoop? || run.phase.Cancelling? || run.phase.Ended?)
    ensures Steps(run, actions).events == run.events
    decreases |actions|
  {
    if actions != [] {
      StepsSplit(run, actions);
      CancelSeenIsSilent(Step(run, actions[0]), actions[1..]);
    }
  }

  /** A failure is shown unless the consumer goes away first. */
  lemma {:induction false} FailureIsReported(run: Run, actions: seq<Action>)
    requires run.cancelled && run.phase.Failing?
    ensures var later := Met(Failing, actions);
            Steps(run, actions).events
            == if later != [] && later[0].ReportFailure? then Emit(run, Failed).events else run.events
    decreases |actions|
  {
    if actions != [] {
      StepsSplit(run, actions);
      var next := Step(run, actions[0]);
      if actions[0].ReportFailure? || actions[0].Abandon? {
        CancelSeenIsSilent(next, actions[1..]);
      } else {
        FailureIsReported(next, actions[1..]);
      }
    }
  }

  /**
   * A run cancelled anywhere before the check after the loop, with every continuation: it shows a terminal event
   * if and only if the resumption the cancel met is a set-up that fails or a wait whose item raises, and the
   * consumer is still there when that is reported. Otherwise it ends without one.
   */
  lemma {:induction false} CancelRacesWithFailure(run: Run, actions: seq<Action>)
    requires run.cancelled && BeforeGuard(run.phase) && !AnyTerminal(run.events)
    ensures AnyTerminal(Steps(run, actions).events) <==> FailsAndReports(run.phase, actions)
    decreases |actions|
  {
    hide Received;
    if actions == [] {
      assert Met(run.phase, actions) == [];
    } else {
      StepsSplit(run, actions);
      var a, rest := actions[0], actions[1..];
      var next := Step(run, a);
      if !Resumes(run.phase, a) {
        assert next == run;
        CancelRacesWithFailure(run, rest);
      } else if Fails(a) {
        assert next == Goto(run, Failing);
        FailureIsReported(next, rest);
        LastIsTerminal(run, Failed);
      } else {
        ResumedQuietly(run, a);
        CancelSeenIsSilent(next, rest);
      }
    }
  }

  lemma LastIsTerminal(run: Run, e: Event)
    ensures Terminal(e) ==> AnyTerminal(Emit(run, e).events)
  {
    assert Emit(run, e).events[|run.events|].event == e;
  }

  lemma ResumedQuietly(run: Run, a: Action)
    requires run.cancelled && BeforeGuard(run.phase) && Resumes(run.phase, a) && !Fails(a) && !AnyTerminal(run.events)
    ensures var next := Step(run, a);
            next.cancelled && (next.phase.AtCheck? || next.phase.AfterLoop? || next.phase.Cancelling?
              || next.phase.Ended?)
            && !AnyTerminal(next.events)
  {}

  /** A drained run: the generator comes to its end with its consumer still there. */
  predicate Drained(run: Run, actions: seq<Action>) {
    Steps(run, actions).phase.Ended? && forall a :: a in actions ==> !a.Abandon?
  }

  /** Where nobody goes away, that is: a terminal event follows if and only if the resumption the cancel met fails. */
  lemma DrainedCancelFailsExactlyWhen(run: Run, actions: seq<Action>)
    requires run.cancelled && BeforeGuard(run.phase) && !AnyTerminal(run.events) && Drained(run, actions)
    ensures Met(run.phase, actions) != []
    ensures AnyTerminal(Steps(run, actions).events) <==> Fails(Met(run.phase, actions)[0])
  {
    CancelRacesWithFailure(run, actions);
    MeetsSomething(run, actions);
  }

  lemma {:induction false} MeetsSomething(run: Run, actions: seq<Action>)
    requires run.cancelled && BeforeGuard(run.phase) && Drained(run, actions)
    ensures var met := Met(run.phase, actions);
            met != []
            && (Fails(met[0]) ==> var later := Met(Failing, met[1..]); later != [] && later[0].ReportFailure?)
    decreases |actions|
  {
    if actions != [] {
      StepsSplit(run, actions);
      assert forall a :: a in actions[1..] ==> a in actions;
      if !Resumes(run.phase, actions[0]) {
        MeetsSomething(Step(run, actions[0]), actions[1..]);
      } else if Fails(actions[0]) {
        ReportComes(Step(run, actions[0]), actions[1..]);
      }
    }
  }

  lemma {:induction false} ReportComes(run: Run, actions: seq<Action>)
    requires run.cancelled && run.phase.Failing? && Drained(run, actions)
    ensures var later := Met(Failing, actions); later != [] && later[0].ReportFailure?
    decreases |actions|
  {
    if actions != [] {
      StepsSplit(run, actions);
      assert actions[0] in actions && forall a :: a in actions[1..] ==> a in actions;
      if !Resumes(Failing, actions[0]) {
        ReportComes(Step(run, actions[0]), actions[1..]);
      }
    }
  }

  // ----- The guard -----

  /** An undisturbed tail, with every repository call succeeding. */
  const UNDISTURBED := [Guard(true), Announce, Save(true), Mark(true)]

  /** Past the guard: everything is shown, and the save is next. */
  predicate AboutToSave(run: Run, response: string) {
    Sound(run) && run.phase.Saving? && ResponseText(run.final) == response && !run.replay
  }

  lemma GuardPasses(run: Run)
    requires Sound(run) && run.phase.AfterLoop? && !run.cancelled && run.streamed <= ResponseText(run.final)
    ensures AboutToSave(Step(Step(run, Guard(true)), Announce), ResponseText(run.final))
  {
    var guarded := Step(run, Guard(true));
    StepIsSound(run, Guard(true));
    StepIsSound(guarded, Announce);
    hide Sound, ResponseText;
  }

  lemma GuardRejects(run: Run)
    requires Sound(run) && run.phase.AfterLoop? && !run.cancelled && !(run.streamed <= ResponseText(run.final))
    ensures var after := Step(Step(run, Guard(true)), Announce);
            after.phase.Failing? && after.events == run.events && after.persisted == []
            && Step(Step(after, Save(true)), Mark(true)) == after
  {
    hide Received, InProtocol, Numbered, ResponseText;
  }

  /** The run ends completed with its response, which it has streamed and saved. */
  predicate CompletedWith(run: Run, response: string) {
    run.phase.Ended? && run.events != [] && run.events[|run.events| - 1].event == Completed(response)
    && run.persisted == [response] && Received(run.events) == response
  }

  lemma SaveAndMark(run: Run, response: string)
    requires AboutToSave(run, response)
    ensures CompletedWith(Step(Step(run, Save(true)), Mark(true)), response)
  {
    var saved := Step(run, Save(true));
    StepIsSound(run, Save(true));
    StepIsSound(saved, Mark(true));
    hide Received, InProtocol, ResponseText;
  }

  /** Undisturbed, the run completes with its response if and only if the streamed text is a prefix of it. */
  lemma GuardRejectsExactlyWhen(run: Run)
    requires Sound(run) && run.phase.AfterLoop? && !run.cancelled
    ensures var after := Steps(run, UNDISTURBED);
            var response := ResponseText(run.final);
            if run.streamed <= response then CompletedWith(after, response)
            else after.phase.Failing? && after.events == run.events && after.persisted == []
  {
    hide Sound, ResponseText, Step, Steps, CompletedWith, AboutToSave;
    FourSteps(run, Guard(true), Announce, Save(true), Mark(true));
    if run.streamed <= ResponseText(run.final) {
      GuardPasses(run);
      SaveAndMark(Step(Step(run, Guard(true)), Announce), ResponseText(run.final));
    } else {
      GuardRejects(run);
    }
  }

  // ----- What the guard compares -----

  /** The text of a delta update taken from the queue by this step. */
  function Taken(phase: Phase, action: Action): seq<string> {
    match action
    case Deliver(CustomEvent(DeltaUpdate(d))) => (if phase.Waiting? then [d] else [])
    case _ => []
  }

  /** The texts of the delta updates the loop took from the queue, in order. */
  function Heard(run: Run, actions: seq<Action>): seq<string> {
    if actions == [] then []
    else
      var init := actions[..|actions| - 1];
      Heard(run, init) + Taken(Steps(run, init).phase, actions[|actions| - 1])
  }

  /** The last state of the graph the loop took from the queue. */
  function LastState(run: Run, actions: seq<Action>): FinalState {
    if actions == [] then run.final
    else
      var init := actions[..|actions| - 1];
      match actions[|actions| - 1]
      case Deliver(Values(state)) => if Steps(run, init).phase.Waiting? then state else LastState(run, init)
      case _ => LastState(run, init)
  }

  lemma StepHears(run: Run, action: Action)
    ensures Step(run, action).streamed == run.streamed + Concat(Taken(run.phase, action))
    ensures Step(run, action).final
         == if action.Deliver? && action.item.Values? && run.phase.Waiting? then action.item.state else run.final
  {
    hide ResponseText;
    assert Concat([]) == "" && run.streamed + "" == run.streamed;
    forall d: string ensures Concat([d]) == d {
      assert [d][..0] == [];
    }
  }

  lemma {:induction false} HeardIsStreamed(run: Run, actions: seq<Action>)
    ensures var after := Steps(run, actions);
            after.streamed == run.streamed + Concat(Heard(run, actions)) && after.final == LastState(run, actions)
  {
    hide Step, Concat, Taken;
    if actions == [] {
      NothingHeard(run.streamed);
    } else {
      var init, action := actions[..|actions| - 1], actions[|actions| - 1];
      HeardIsStreamed(run, init);
      StepHears(Steps(run, init), action);
      ConcatAppend(Heard(run, init), Taken(Steps(run, init).phase, action));
      hide Heard, Steps;
    }
  }

  lemma NothingHeard(s: string)
    ensures s + Concat([]) == s
  {}

  predicate NobodyCancels(actions: seq<Action>) {
    forall a :: a in actions ==> !a.Cancel?
  }

  lemma {:induction false} NotCancelled(run: Run, actions: seq<Action>)
    requires NobodyCancels(actions)
    ensures Steps(run, actions).cancelled == run.cancelled
  {
    hide ResponseText;
    if actions != [] {
      assert actions[|actions| - 1] in actions;
      NotCancelled(run, actions[..|actions| - 1]);
    }
  }

  /**
   * A fresh run stands behind its loop, having taken these deltas and, last, this state of the graph from the queue
   * in whatever interleaving with other items.
   */
  predicate TookFromGraph(actions: seq<Action>, deltas: seq<string>, left: FinalState) {
    Steps(Begin(None), actions).phase.AfterLoop?
    && Heard(Begin(None), actions) == deltas && LastState(Begin(None), actions) == left
  }

  lemma TakenIsStreamed(actions: seq<Action>, deltas: seq<string>, left: FinalState)
    requires TookFromGraph(actions, deltas, left) && NobodyCancels(actions)
    ensures var run := Steps(Begin(None), actions);
            Sound(run) && run.phase.AfterLoop? && !run.cancelled
            && run.streamed == Concat(deltas) && run.final == left
  {
    HeardIsStreamed(Begin(None), actions);
    NotCancelled(Begin(None), actions);
    EveryRunIsSound(None, actions);
    assert "" + Concat(deltas) == Concat(deltas);
    hide Steps, Heard, LastState, Sound, Concat;
  }

  /** The states from which an undisturbed generator still shows a terminal event. */
  predicate OnItsWay(run: Run) {
    !run.cancelled && !run.phase.Cancelling? && (run.phase.Ended? ==> Sealed(run.events))
  }

  lemma StepStaysOnItsWay(run: Run, action: Action)
    requires OnItsWay(run) && !action.Cancel? && !action.Abandon?
    ensures OnItsWay(Step(run, action))
  {
    hide ResponseText;
  }

  /** A run that nobody cancels or leaves ends with a terminal event, so its reader never misses one. */
  lemma {:induction false} UndisturbedRunsAreSealed(replay: Option<string>, actions: seq<Action>)
    requires NobodyCancels(actions) && forall a :: a in actions ==> !a.Abandon?
    ensures OnItsWay(Steps(Begin(replay), actions))
  {
    if actions != [] {
      assert actions[|actions| - 1] in actions;
      UndisturbedRunsAreSealed(replay, actions[..|actions| - 1]);
      StepStaysOnItsWay(Steps(Begin(replay), actions[..|actions| - 1]), actions[|actions| - 1]);
      hide OnItsWay, Step;
    }
  }

  /** The events of the undisturbed tail of a run whose streamed text already is the response. */
  function QuietTail(run: Run): seq<Envelope> {
    [Envelope(|run.events| + 1, Stage), Envelope(|run.events| + 2, Completed(run.streamed))]
  }

  /** When the streamed text already is the response, the undisturbed tail adds no delta at all. */
  lemma AgreementNeedsNoSuffix(run: Run)
    requires run.phase.AfterLoop? && !run.cancelled && run.streamed == ResponseText(run.final)
    ensures Steps(run, UNDISTURBED).events == run.events + QuietTail(run)
  {
    FourSteps(run, Guard(true), Announce, Save(true), Mark(true));
    hide ResponseText, Steps;
  }

  lemma FourSteps(run: Run, a: Action, b: Action, c: Action, d: Action)
    ensures Steps(run, [a, b, c, d]) == Step(Step(Step(Step(run, a), b), c), d)
  {
    hide Step;
    StepsSplit(run, [a, b, c, d]);
    assert [a, b, c, d][1..] == [b, c, d] && [b, c, d][1..] == [c, d] && [c, d][1..] == [d] && [d][1..] == [];
    StepsSplit(Step(run, a), [b, c, d]);
    StepsSplit(Step(Step(run, a), b), [c, d]);
    StepsSplit(Step(Step(Step(run, a), b), c), [d]);
  }
}
