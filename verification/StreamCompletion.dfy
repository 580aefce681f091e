/** Which completions the gateway returns, told from the providers' scripts alone. */
module StreamCompletion {
  import opened LlmGateway
  import opened ProviderRetry
  import opened Sequences

  predicate Readable(events: seq<StreamEvent>) {
    forall e :: e in events ==> !e.BadJson? && !e.BadShape?
  }

  predicate SaysDone(events: seq<StreamEvent>) { exists e :: e in events && e.DoneMarker? }

  predicate SaysFinished(events: seq<StreamEvent>) { exists e :: e in events && e.Body? && e.finish }

  /**
   * The provider opens an event stream that can be read to its end, says that it is over, and says something; its
   * text is what it said.
   */
  predicate Answers(script: Script, text: string) {
    script.errorStatus.None? && script.eventStream && Readable(script.events) && script.end.Eof?
    && (SaysDone(script.events) || SaysFinished(script.events))
    && text == Concat(Said(script.events)) && !WhiteOnly(text)
  }

  predicate Opens(script: Script) { script.errorStatus.None? && script.eventStream }

  /** A failure worth another attempt: the server is busy or broken, or the stream breaks before anything is said. */
  predicate Retries(script: Script) {
    script.errorStatus == Some(429) || (script.errorStatus.Some? && script.errorStatus.value >= 500)
    || (Opens(script) && Readable(script.events) && Said(script.events) == [] && !script.end.Eof?)
  }

  /** A failure that ends the whole call: something was said already, or the stream ends without saying so. */
  predicate Interrupts(script: Script) {
    (script.errorStatus.Some? && script.errorStatus.value < 400)
    || (Opens(script) && !Answers(script, Concat(Said(script.events)))
        && (Said(script.events) != []
            || (Readable(script.events) && script.end.Eof? && !SaysDone(script.events)
                && !SaysFinished(script.events))))
  }

  // ----- One attempt -----

  /** What reading a stream comes to for a consumer that raises at nothing it says. */
  predicate ReadOut(events: seq<StreamEvent>, read: Read, after: Read) {
    var started := read.chunks + Said(events) != [];
    after.chunks == read.chunks + Said(events) && Texts(after.log) == Texts(read.log) + Said(events)
    && if Readable(events) then
         after.raised.None? && (after.done <==> read.done || SaysDone(events))
         && (after.finished <==> read.finished || SaysFinished(events))
       else
         after.raised == Some(Resilient(InvalidJsonEvent, None, started))
         || after.raised == Some(Resilient(InvalidShape, None, started))
  }

  lemma OneEvent(events: seq<StreamEvent>)
    requires events != []
    ensures Readable(events) <==> !events[0].BadJson? && !events[0].BadShape? && Readable(events[1..])
    ensures SaysDone(events) <==> events[0].DoneMarker? || SaysDone(events[1..])
    ensures SaysFinished(events) <==> (events[0].Body? && events[0].finish) || SaysFinished(events[1..])
  {
    assert events == [events[0]] + events[1..];
  }

  lemma {:induction false} ReadsOut(
    consumer: Consumer, provider: nat, attempt: nat, events: seq<StreamEvent>, read: Read)
    requires RaisesNowhere(consumer, Texts(read.log) + Said(events)) && read.raised.None?
    ensures ReadOut(events, read, ReadEvents(consumer, provider, attempt, events, read))
    decreases |events|
  {
    hide Texts, RaisesNowhere, Readable, SaysDone, SaysFinished;
    if events == [] {
      NothingToRead(read);
    } else {
      OneEvent(events);
      match events[0]
      case DoneMarker => ReadsOut(consumer, provider, attempt, events[1..], read.(done := true));
      case BadJson =>
        assert read.chunks + [] == read.chunks && Texts(read.log) + [] == Texts(read.log);
      case BadShape =>
        assert read.chunks + [] == read.chunks && Texts(read.log) + [] == Texts(read.log);
      case Body(finish, content) =>
        var noted := read.(finished := read.finished || finish);
        if content == "" {
          ReadsOut(consumer, provider, attempt, events[1..], noted);
        } else {
          var d := Delivery(provider, attempt, content);
          TextsAdd(read.log, d);
          var told := noted.(chunks := read.chunks + [content], log := read.log + [d]);
          var all := Texts(read.log) + Said(events);
          assert all == Texts(told.log) + Said(events[1..]);
          assert read.chunks + Said(events) == told.chunks + Said(events[1..]);
          SilentAt(consumer, all, |Texts(told.log)|);
          assert all[..|Texts(told.log)|] == Texts(told.log);
          ReadsOut(consumer, provider, attempt, events[1..], told);
        }
    }
  }

  lemma SilentAt(consumer: Consumer, texts: seq<string>, k: nat)
    requires RaisesNowhere(consumer, texts) && 0 < k <= |texts|
    ensures !consumer(texts[..k])
  {}

  lemma NothingToRead(read: Read)
    requires read.raised.None?
    ensures ReadOut([], read, read)
  {
    assert Said([]) == [] && read.chunks + [] == read.chunks;
    hide Texts;
    assert Texts(read.log) + [] == Texts(read.log);
  }

  /** The kind recorded for a failure worth another attempt. */
  function RetryKind(script: Script): FailureKind {
    if script.errorStatus == Some(429) then RateLimited
    else if script.errorStatus.Some? then Upstream5xx
    else if script.end.TimedOut? then TimedOutKind else Transport
  }

  /** What one attempt comes to: an answer, another attempt, an interruption, or a failure of this provider. */
  predicate AttemptedAs(script: Script, log: seq<Delivery>, result: CallResult<string>) {
    match result
    case Value(text) => Answers(script, text) && Texts(log) == Said(script.events)
    case Raised(exn) =>
      var failure := FailureFrom(exn);
      !Answers(script, Concat(Said(script.events)))
      && (failure.retryable <==> Retries(script)) && (Retries(script) ==> failure.kind == RetryKind(script))
      && (failure.kind.StreamInterrupted? <==> Interrupts(script))
      && (!Interrupts(script) ==> log == [])
  }

  lemma UnopenedAs(script: Script, exn: Exn)
    requires Opened(script) == Some(exn)
    ensures AttemptedAs(script, [], Raised(exn))
  {
    hide Concat, Said, Texts, WhiteOnly, Readable;
  }

  lemma UnreadableAs(script: Script, after: Read)
    requires Opens(script) && !Readable(script.events) && after.raised.Some?
    requires ReadOut(script.events, Read([], [], false, false, None), after)
    requires Said(script.events) == [] ==> after.log == []
    ensures AttemptedAs(script, after.log, Raised(after.raised.value))
  {
    hide Concat, Said, Texts, WhiteOnly, Readable, SaysDone, SaysFinished;
    assert [] + Said(script.events) == Said(script.events);
  }

  lemma ClosedAs(script: Script, after: Read)
    requires Opens(script) && Readable(script.events) && after.raised.None?
    requires ReadOut(script.events, Read([], [], false, false, None), after)
    requires Said(script.events) == [] ==> after.log == []
    ensures AttemptedAs(script, after.log, Closed(script, after))
  {
    BlankText();
    BlankExactlyWhen(Concat(Said(script.events)));
    hide Concat, Said, Texts, WhiteOnly, Readable, SaysDone, SaysFinished, Strip;
    assert [] + Said(script.events) == Said(script.events);
  }

  lemma AttemptsAs(consumer: Consumer, provider: nat, attempt: nat, script: Script)
    requires RaisesNowhere(consumer, Said(script.events))
    ensures var (log, result) := Attempt(consumer, provider, attempt, script, []);
            AttemptedAs(script, log, result)
  {
    hide AttemptedAs, ReadEvents, Texts, RaisesNowhere, Readable, SaysDone, SaysFinished, Said, Closed;
    match Opened(script)
    case Some(exn) => UnopenedAs(script, exn);
    case None =>
      var said, start := Said(script.events), Read([], [], false, false, None);
      BlankText();
      assert [] + said == said;
      ReadsOut(consumer, provider, attempt, script.events, start);
      var after := ReadEvents(consumer, provider, attempt, script.events, start);
      if Readable(script.events) {
        ClosedAs(script, after);
      } else {
        UnreadableAs(script, after);
      }
  }

  /**
   * An attempt yields a value if and only if the response opens without an error as an event stream, every event
   * can be read, the stream ends by itself after a done marker or a finish reason, and what it says is not blank;
   * the value is then what it said, and so is what the consumer was told.
   */
  lemma AttemptYieldsExactlyWhen(consumer: Consumer, provider: nat, attempt: nat, script: Script, text: string)
    requires RaisesNowhere(consumer, Said(script.events))
    ensures var (log, result) := Attempt(consumer, provider, attempt, script, []);
            (result == Value(text) <==> Answers(script, text))
            && (Answers(script, text) ==> Texts(log) == Said(script.events))
  {
    AttemptsAs(consumer, provider, attempt, script);
    hide Attempt, Texts, RaisesNowhere, Said, WhiteOnly, Readable, SaysDone, SaysFinished, Concat, Retries, Interrupts;
  }

  // ----- One provider -----

  /** The attempt that settles what a provider comes to: the first not worth another one, or the last allowed. */
  predicate Settles(gw: Gateway, p: nat, a: nat) {
    1 <= a <= gw.policy.maxAttempts && (forall j :: 1 <= j < a ==> Retries(gw.scripts(p, j)))
    && (a == gw.policy.maxAttempts || !Retries(gw.scripts(p, a)))
  }

  /** What the retry loop ends with after this script. */
  predicate SettledAs(script: Script, r: Retried<seq<Delivery>, string>) {
    match r.verdict
    case Ok(text) => Answers(script, text) && Texts(r.world) == Said(script.events)
    case Exhausted(failure) =>
      !Answers(script, Concat(Said(script.events))) && (failure.kind.StreamInterrupted? <==> Interrupts(script))
      && (!Interrupts(script) ==> r.world == [])
    case LoopEnded => false
  }

  lemma RetriesAreOthers(script: Script, text: string)
    requires Retries(script)
    ensures !Answers(script, text) && !Interrupts(script)
  {
    hide Readable, Said, WhiteOnly, SaysDone, SaysFinished, Concat;
  }

  lemma OneTry(gw: Gateway, p: nat, first: nat)
    requires 1 <= first <= gw.policy.maxAttempts
    ensures var (log, result) := Attempt(gw.consumer, p, first, gw.scripts(p, first), []);
            var r := RetryFrom(gw.policy, ProviderCall(gw, p), first, []);
            match result
            case Value(text) => r.world == log && r.verdict == Ok(text)
            case Raised(exn) =>
              if FailureFrom(exn).retryable && first < gw.policy.maxAttempts then
                var rest := RetryFrom(gw.policy, ProviderCall(gw, p), first + 1, log);
                r.world == rest.world && r.verdict == rest.verdict
              else r.world == log && r.verdict == Exhausted(FailureFrom(exn))
  {
    hide Attempt;
    assert ProviderCall(gw, p)(first, []) == Attempt(gw.consumer, p, first, gw.scripts(p, first), []);
  }

  lemma RetryableIsSilent(script: Script, log: seq<Delivery>, result: CallResult<string>)
    requires AttemptedAs(script, log, result)
    ensures Retries(script) ==> result.Raised? && FailureFrom(result.exn).retryable && log == []
    ensures !Retries(script) && result.Raised? ==> !FailureFrom(result.exn).retryable
  {
    forall text | Retries(script) ensures !Answers(script, text) && !Interrupts(script) {
      RetriesAreOthers(script, text);
    }
    hide Retries, Interrupts, Answers, Said, Concat;
  }

  lemma SettledByLast(
    script: Script, log: seq<Delivery>, result: CallResult<string>, r: Retried<seq<Delivery>, string>)
    requires AttemptedAs(script, log, result) && r.world == log
    requires r.verdict == match result case Value(text) => Ok(text) case Raised(exn) => Exhausted(FailureFrom(exn))
    ensures SettledAs(script, r)
  {
    hide Retries, Interrupts, Answers, Said, Concat, Texts;
  }

  lemma SameSettled(script: Script, r: Retried<seq<Delivery>, string>, rest: Retried<seq<Delivery>, string>)
    requires SettledAs(script, rest) && r.world == rest.world && r.verdict == rest.verdict
    ensures SettledAs(script, r)
  {
    hide Retries, Interrupts, Answers, Said, Concat, Texts;
  }

  lemma QuietAt(gw: Gateway, p: nat, a: nat)
    requires QuietScripts(gw) && p < |gw.providers| && gw.providers[p] && 1 <= a <= gw.policy.maxAttempts
    ensures RaisesNowhere(gw.consumer, Said(gw.scripts(p, a).events))
  {
    hide RaisesNowhere, Said;
  }

  lemma SettlesAt(gw: Gateway, p: nat, a: nat)
    requires 1 <= a <= gw.policy.maxAttempts && forall j :: 1 <= j < a ==> Retries(gw.scripts(p, j))
    ensures a == gw.policy.maxAttempts || !Retries(gw.scripts(p, a)) ==> Settles(gw, p, a)
  {
    hide Retries;
  }

  lemma {:induction false} RetriesSettle(gw: Gateway, p: nat, first: nat) returns (a: nat)
    requires QuietScripts(gw) && p < |gw.providers| && gw.providers[p] && 1 <= first <= gw.policy.maxAttempts
    requires forall j :: 1 <= j < first ==> Retries(gw.scripts(p, j))
    ensures Settles(gw, p, a)
    ensures SettledAs(gw.scripts(p, a), RetryFrom(gw.policy, ProviderCall(gw, p), first, []))
    decreases gw.policy.maxAttempts - first
  {
    hide *;
    var script := gw.scripts(p, first);
    var (log, result) := Attempt(gw.consumer, p, first, script, []);
    var r := RetryFrom(gw.policy, ProviderCall(gw, p), first, []);
    QuietAt(gw, p, first);
    AttemptsAs(gw.consumer, p, first, script);
    OneTry(gw, p, first);
    RetryableIsSilent(script, log, result);
    if Retries(script) && first < gw.policy.maxAttempts {
      a := RetriesSettle(gw, p, first + 1);
      SameSettled(gw.scripts(p, a), r, RetryFrom(gw.policy, ProviderCall(gw, p), first + 1, log));
    } else {
      a := first;
      SettlesAt(gw, p, first);
      SettledByLast(script, log, result, r);
    }
  }

  lemma OneSettles(gw: Gateway, p: nat, a: nat, b: nat)
    requires Settles(gw, p, a) && Settles(gw, p, b)
    ensures a == b
  {
    hide Retries;
  }

  // ----- All providers -----

  predicate AnswersAt(gw: Gateway, p: nat, text: string) {
    exists a :: 1 <= a <= gw.policy.maxAttempts && Settles(gw, p, a) && Answers(gw.scripts(p, a), text)
  }

  predicate InterruptsAt(gw: Gateway, p: nat) {
    exists a :: 1 <= a <= gw.policy.maxAttempts && Settles(gw, p, a) && Interrupts(gw.scripts(p, a))
  }

  /** The provider is configured, and its settling attempt answers or interrupts. */
  predicate Stops(gw: Gateway, p: nat)
    requires p < |gw.providers|
  {
    gw.providers[p]
    && exists a :: 1 <= a <= gw.policy.maxAttempts && Settles(gw, p, a)
         && (Interrupts(gw.scripts(p, a)) || Answers(gw.scripts(p, a), Concat(Said(gw.scripts(p, a).events))))
  }

  /** The first provider at which the loop stops. */
  predicate StopsFirst(gw: Gateway, index: nat, p: nat) {
    index <= p < |gw.providers| && Stops(gw, p) && forall q :: index <= q < p ==> !Stops(gw, q)
  }

  /** What one configured provider comes to, in terms of its settling script. */
  lemma ProviderSettles(gw: Gateway, p: nat)
    requires QuietScripts(gw) && p < |gw.providers| && gw.providers[p] && 1 <= gw.policy.maxAttempts
    ensures var r := RetryFrom(gw.policy, ProviderCall(gw, p), 1, []);
            match r.verdict
            case Ok(text) => Stops(gw, p) && (forall other :: AnswersAt(gw, p, other) <==> other == text)
                             && !InterruptsAt(gw, p)
            case Exhausted(failure) =>
              (forall other :: !AnswersAt(gw, p, other)) && (Stops(gw, p) <==> InterruptsAt(gw, p))
              && (failure.kind.StreamInterrupted? <==> InterruptsAt(gw, p)) && (!InterruptsAt(gw, p) ==> r.world == [])
            case LoopEnded => false
  {
    var a := RetriesSettle(gw, p, 1);
    forall b: nat | Settles(gw, p, b) ensures b == a {
      OneSettles(gw, p, a, b);
    }
    AnswersOnce(gw.scripts(p, a));
    hide RetryFrom, Texts, Settles, Interrupts, Answers, Said, QuietScripts, Concat;
  }

  lemma AnswersOnce(script: Script)
    ensures forall text :: Answers(script, text) ==> text == Concat(Said(script.events)) && !Interrupts(script)
  {
    hide Readable, Said, WhiteOnly, SaysDone, SaysFinished, Concat;
  }

  /** What the loop over providers ends with. */
  predicate EndsAs(gw: Gateway, index: nat, answer: Answer) {
    match answer
    case Completion(text, p, fallbackUsed) =>
      StopsFirst(gw, index, p) && AnswersAt(gw, p, text) && (fallbackUsed <==> p > 0)
    case Interrupted => exists p :: index <= p < |gw.providers| && StopsFirst(gw, index, p) && InterruptsAt(gw, p)
    case Unavailable => forall p :: index <= p < |gw.providers| ==> !Stops(gw, p)
  }

  lemma EndsLater(gw: Gateway, index: nat, answer: Answer)
    requires index < |gw.providers| && !Stops(gw, index) && EndsAs(gw, index + 1, answer)
    ensures EndsAs(gw, index, answer)
  {
    hide Stops, AnswersAt, InterruptsAt;
    forall p: nat | StopsFirst(gw, index + 1, p) ensures StopsFirst(gw, index, p) {}
  }

  lemma StopsHere(gw: Gateway, index: nat)
    requires index < |gw.providers| && Stops(gw, index)
    ensures StopsFirst(gw, index, index)
  {
    hide Stops;
  }

  lemma {:induction false} CompletesAs(gw: Gateway, index: nat)
    requires ValidPolicy(gw.policy) && QuietScripts(gw)
    ensures EndsAs(gw, index, CompleteFrom(gw, index, []).1)
    decreases |gw.providers| - index
  {
    hide RetryFrom, QuietScripts, AnswersAt, InterruptsAt, Stops, EndsAs, StopsFirst;
    if index >= |gw.providers| {
      NobodyLeft(gw, index);
    } else {
      if !gw.providers[index] {
        NotConfigured(gw, index);
        CompletesAs(gw, index + 1);
        EndsLater(gw, index, CompleteFrom(gw, index + 1, []).1);
      } else {
        ProviderSettles(gw, index);
        var r := RetryFrom(gw.policy, ProviderCall(gw, index), 1, []);
        if r.verdict.Exhausted? && !InterruptsAt(gw, index) {
          CompletesAs(gw, index + 1);
          EndsLater(gw, index, CompleteFrom(gw, index + 1, []).1);
        } else {
          StopsHere(gw, index);
          EndsHere(gw, index, CompleteFrom(gw, index, []).1);
        }
      }
    }
  }

  lemma NobodyLeft(gw: Gateway, index: nat)
    requires index >= |gw.providers|
    ensures EndsAs(gw, index, Unavailable)
  {}

  lemma NotConfigured(gw: Gateway, index: nat)
    requires index < |gw.providers| && !gw.providers[index]
    ensures !Stops(gw, index)
  {}

  lemma EndsHere(gw: Gateway, index: nat, answer: Answer)
    requires index < |gw.providers| && StopsFirst(gw, index, index)
    requires (answer.Interrupted? && InterruptsAt(gw, index))
             || (answer.Completion? && answer.provider == index && AnswersAt(gw, index, answer.content)
                 && (answer.fallbackUsed <==> index > 0))
    ensures EndsAs(gw, index, answer)
  {
    hide StopsFirst, AnswersAt, InterruptsAt;
  }

  lemma OneStopsFirst(gw: Gateway, p: nat, q: nat)
    requires StopsFirst(gw, 0, p) && StopsFirst(gw, 0, q)
    ensures p == q
  {
    hide Stops;
  }

  /** The text and the interruption of a settling script exclude each other. */
  lemma OneOutcome(gw: Gateway, p: nat, text: string)
    requires AnswersAt(gw, p, text)
    ensures !InterruptsAt(gw, p) && forall other :: AnswersAt(gw, p, other) ==> other == text
  {
    var a: nat :| 1 <= a <= gw.policy.maxAttempts && Settles(gw, p, a) && Answers(gw.scripts(p, a), text);
    forall b: nat | Settles(gw, p, b) ensures b == a {
      OneSettles(gw, p, a, b);
    }
    AnswersOnce(gw.scripts(p, a));
    hide Settles, Interrupts, Answers, Said, Concat;
  }

  /**
   * For a consumer quiet on what the scripts say: the call completes with a text from a provider if and only if that
   * provider's settling attempt answers with it, and no provider before it answers or interrupts; it is interrupted
   * if and only if the first provider that does either interrupts; and otherwise no provider is left.
   */
  lemma StreamCompletesExactlyWhen(gw: Gateway)
    requires ValidPolicy(gw.policy) && QuietScripts(gw)
    ensures var answer := CompleteFrom(gw, 0, []).1;
            (forall text, p: nat, fallbackUsed :: answer == Completion(text, p, fallbackUsed) <==>
               StopsFirst(gw, 0, p) && AnswersAt(gw, p, text) && (fallbackUsed <==> p > 0))
            && (answer.Interrupted? <==>
                  exists p :: 0 <= p < |gw.providers| && StopsFirst(gw, 0, p) && InterruptsAt(gw, p))
            && (answer.Unavailable? <==> forall p :: 0 <= p < |gw.providers| ==> !Stops(gw, p))
  {
    CompletesAs(gw, 0);
    forall p: nat, q: nat | StopsFirst(gw, 0, p) && StopsFirst(gw, 0, q) ensures p == q {
      OneStopsFirst(gw, p, q);
    }
    forall p: nat, text | AnswersAt(gw, p, text)
      ensures !InterruptsAt(gw, p) && forall other :: AnswersAt(gw, p, other) ==> other == text
    {
      OneOutcome(gw, p, text);
    }
    hide CompleteFrom, Stops, AnswersAt, InterruptsAt, QuietScripts;
  }
}
