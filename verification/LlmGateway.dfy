/**
 * Streaming a completion through retries and a fallback provider to a consumer of visible deltas.
 */
module LlmGateway {
  import opened ProviderRetry
  import opened Sequences

  /** One server-sent event of a provider's stream, after JSON decoding. */
  datatype StreamEvent = DoneMarker | BadJson | BadShape | Body(finish: bool, content: string)

  datatype StreamEnd = Eof | TimedOut | NetworkFailed

  /** What the provider does in one attempt. */
  datatype Script = Script(errorStatus: Option<int>, eventStream: bool, events: seq<StreamEvent>, end: StreamEnd)

  /** The messages `provider_error` is called with. */
  datatype Message =
    | HttpStatus | BadContentType | InvalidJsonEvent | InvalidShape | RequestTimedOut | NetworkError
    | NoTerminalSignal | NoVisibleContent

  /** A delta handed to the consumer, marked with the provider and the attempt it comes from. */
  datatype Delivery = Delivery(provider: nat, attempt: nat, text: string)

  /** The consumer raises, given every text handed to it so far, the current one last. */
  type Consumer = seq<string> -> bool

  function Texts(log: seq<Delivery>): seq<string> {
    Map((d: Delivery) => d.text, log)
  }

  // ----- One attempt -----

  /** `_llm_call_failure` for a provider error raised by the stream reader. */
  function CallFailure(message: Message, status: Option<int>): Failure {
    if status == Some(429) then Failure(RateLimited, status, true, None)
    else if status.Some? && status.value >= 500 then Failure(Upstream5xx, status, true, None)
    else if status.Some? && status.value >= 400 then Failure(Rejected, status, false, None)
    else
      match message
      case RequestTimedOut => Failure(TimedOutKind, status, true, None)
      case NetworkError => Failure(Transport, status, true, None)
      case BadContentType => Failure(InvalidResponse, status, false, None)
      case InvalidJsonEvent => Failure(InvalidResponse, status, false, None)
      case InvalidShape => Failure(InvalidResponse, status, false, None)
      case NoVisibleContent => Failure(InvalidResponse, status, false, None)
      case NoTerminalSignal => Failure(StreamInterrupted, status, false, None)
      case HttpStatus => Failure(StreamInterrupted, status, false, None)
  }

  /** `_resilient_stream_completion`: visible content turns any provider error into an interrupted stream. */
  function Resilient(message: Message, status: Option<int>, contentStarted: bool): Exn {
    Classified(if contentStarted then Failure(StreamInterrupted, status, false, None) else CallFailure(message, status))
  }

  datatype Read = Read(log: seq<Delivery>, chunks: seq<string>, finished: bool, done: bool, raised: Option<Exn>)

  /** The event loop of the stream reader. */
  function ReadEvents(consumer: Consumer, provider: nat, attempt: nat, events: seq<StreamEvent>, read: Read): Read
    decreases |events|
  {
    if events == [] || read.raised.Some? then read
    else
      var started := read.chunks != [];
      match events[0]
      case DoneMarker => ReadEvents(consumer, provider, attempt, events[1..], read.(done := true))
      case BadJson => read.(raised := Some(Resilient(InvalidJsonEvent, None, started)))
      case BadShape => read.(raised := Some(Resilient(InvalidShape, None, started)))
      case Body(finish, content) =>
        var noted := read.(finished := read.finished || finish);
        if content == "" then ReadEvents(consumer, provider, attempt, events[1..], noted)
        else
          var log := read.log + [Delivery(provider, attempt, content)];
          var told := noted.(chunks := read.chunks + [content], log := log);
          if consumer(Texts(log)) then told.(raised := Some(OtherExn))
          else ReadEvents(consumer, provider, attempt, events[1..], told)
  }

  function Opened(script: Script): Option<Exn> {
    if script.errorStatus.Some? then Some(Resilient(HttpStatus, script.errorStatus, false))
    else if !script.eventStream then Some(Resilient(BadContentType, None, false))
    else None
  }

  function Closed(script: Script, read: Read): CallResult<string> {
    var started := read.chunks != [];
    if script.end.TimedOut? then Raised(Resilient(RequestTimedOut, None, started))
    else if script.end.NetworkFailed? then Raised(Resilient(NetworkError, None, started))
    else if !read.done && !read.finished then Raised(Resilient(NoTerminalSignal, None, started))
    else if Strip(Concat(read.chunks)) == "" then Raised(Resilient(NoVisibleContent, None, started))
    else Value(Concat(read.chunks))
  }

  /** `_stream_complete_with_provider` behind its resilient wrapper. */
  function Attempt(consumer: Consumer, provider: nat, attempt: nat, script: Script, log: seq<Delivery>)
    : (seq<Delivery>, CallResult<string>)
  {
    match Opened(script)
    case Some(exn) => (log, Raised(exn))
    case None =>
      var read := ReadEvents(consumer, provider, attempt, script.events, Read(log, [], false, false, None));
      (read.log, if read.raised.Some? then Raised(read.raised.value) else Closed(script, read))
  }

  method StreamCompleteWithProvider(
    consumer: Consumer, provider: nat, attempt: nat, script: Script, before: seq<Delivery>)
    returns (log: seq<Delivery>, result: CallResult<string>)
    ensures (log, result) == Attempt(consumer, provider, attempt, script, before)
  {
    log := before;
    if script.errorStatus.Some? {
      return log, Raised(Resilient(HttpStatus, script.errorStatus, false));
    }
    if !script.eventStream {
      return log, Raised(Resilient(BadContentType, None, false));
    }
    var chunks: seq<string>, finished, done := [], false, false;
    ghost var goal := ReadEvents(consumer, provider, attempt, script.events, Read(log, [], false, false, None));
    for i := 0 to |script.events|
      invariant ReadEvents(consumer, provider, attempt, script.events[i..], Read(log, chunks, finished, done, None))
          == goal
    {
      assert script.events[i..][1..] == script.events[i + 1..];
      match script.events[i] {
        case DoneMarker => done := true;
        case BadJson => return log, Raised(Resilient(InvalidJsonEvent, None, chunks != []));
        case BadShape => return log, Raised(Resilient(InvalidShape, None, chunks != []));
        case Body(finish, content) =>
          finished := finished || finish;
          if content != "" {
            chunks := chunks + [content];
            log := log + [Delivery(provider, attempt, content)];
            if consumer(Texts(log)) {
              return log, Raised(OtherExn);
            }
          }
      }
    }
    result := Closed(script, Read(log, chunks, finished, done, None));
  }

  // ----- Providers -----

  datatype Gateway = Gateway(
    providers: seq<bool>,
    policy: Policy,
    scripts: (nat, nat) -> Script,
    consumer: Consumer)

  /** `_provider_names` on names already trimmed and lower-cased: primary first, then a different fallback. */
  function ProviderNames(primary: string, fallback: string, allowFallback: bool): (names: seq<string>)
    ensures names != [] && names[0] == primary && Distinct(names) && |names| <= 2
    ensures forall name :: name in names <==> name == primary || (name == fallback && name != "" && allowFallback)
  {
    if allowFallback && fallback != "" && fallback != primary then [primary, fallback] else [primary]
  }

  datatype Answer = Completion(content: string, provider: nat, fallbackUsed: bool) | Interrupted | Unavailable

  function ProviderCall(gw: Gateway, provider: nat): Call<seq<Delivery>, string> {
    (attempt: nat, log: seq<Delivery>) => Attempt(gw.consumer, provider, attempt, gw.scripts(provider, attempt), log)
  }

  /** The loop over providers from one of them on; `providers[i]` tells whether provider i is configured. */
  function CompleteFrom(gw: Gateway, index: nat, log: seq<Delivery>): (seq<Delivery>, Answer, seq<Audit>)
    decreases |gw.providers| - index
  {
    if index >= |gw.providers| then (log, Unavailable, [])
    else if !gw.providers[index] then CompleteFrom(gw, index + 1, log)
    else
      var r := RetryFrom(gw.policy, ProviderCall(gw, index), 1, log);
      match r.verdict
      case Ok(content) => (r.world, Completion(content, index, index > 0), r.audits)
      case LoopEnded => (r.world, Unavailable, r.audits)
      case Exhausted(failure) =>
        if failure.kind.StreamInterrupted? then (r.world, Interrupted, r.audits)
        else
          var (after, answer, audits) := CompleteFrom(gw, index + 1, r.world);
          (after, answer, r.audits + audits)
  }

  method StreamComplete(gw: Gateway) returns (log: seq<Delivery>, answer: Answer, audits: seq<Audit>)
    requires ValidPolicy(gw.policy)
    ensures (log, answer, audits) == CompleteFrom(gw, 0, [])
  {
    log, audits := [], [];
    ghost var goal := CompleteFrom(gw, 0, []);
    assert [] + goal.2 == goal.2;
    for index := 0 to |gw.providers|
      invariant var rest := CompleteFrom(gw, index, log);
                goal == (rest.0, rest.1, audits + rest.2)
    {
      if gw.providers[index] {
        ghost var rest := CompleteFrom(gw, index, log);
        RetryPromises(gw.policy, ProviderCall(gw, index), log);
        var world, verdict, tried, sleeps := RunWithRetry(gw.policy, ProviderCall(gw, index), log);
        ghost var after := CompleteFrom(gw, index + 1, world);
        assert (audits + tried) + after.2 == audits + (tried + after.2);
        log, audits := world, audits + tried;
        match verdict {
          case Ok(content) => return log, Completion(content, index, index > 0), audits;
          case LoopEnded => assert false;
          case Exhausted(failure) =>
            if failure.kind.StreamInterrupted? {
              return log, Interrupted, audits;
            }
        }
      }
    }
    assert audits + [] == audits;
    answer := Unavailable;
  }

  // ----- Runs in which the consumer does not raise -----

  /** Histories a stream can produce: at least one text, and no empty one. */
  predicate Audible(texts: seq<string>) {
    texts != [] && forall t :: t in texts ==> t != ""
  }

  ghost predicate NeverRaises(consumer: Consumer) {
    forall texts {:trigger consumer(texts)} :: Audible(texts) ==> !consumer(texts)
  }

  /** The consumer raises at none of these texts, one after the other. */
  predicate RaisesNowhere(consumer: Consumer, texts: seq<string>) {
    forall k :: 0 < k <= |texts| ==> !consumer(texts[..k])
  }

  /** All deliveries come from one attempt at one provider. */
  predicate OneAttempt(log: seq<Delivery>) {
    forall i, j :: 0 <= i < |log| && 0 <= j < |log| ==>
      log[i].provider == log[j].provider && log[i].attempt == log[j].attempt
  }

  predicate From(log: seq<Delivery>, provider: nat, attempt: nat) {
    forall i :: 0 <= i < |log| ==> log[i].provider == provider && log[i].attempt == attempt
  }

  lemma TextsAdd(log: seq<Delivery>, d: Delivery)
    ensures Texts(log + [d]) == Texts(log) + [d.text]
  {
    MapAdd((d: Delivery) => d.text, log, d);
  }

  lemma QuietPrefix(consumer: Consumer, before: seq<Delivery>, after: seq<Delivery>)
    requires before <= after && RaisesNowhere(consumer, Texts(after))
    ensures RaisesNowhere(consumer, Texts(before))
  {
    hide Texts;
    TextsOfPrefix(before, after);
    forall k | 0 < k <= |Texts(before)| ensures !consumer(Texts(before)[..k]) {
      assert Texts(after)[..k] == Texts(before)[..k];
    }
  }

  lemma TextsOfPrefix(before: seq<Delivery>, after: seq<Delivery>)
    requires before <= after
    ensures Texts(before) <= Texts(after)
  {}

  lemma {:induction false} ReadIsHonest(
    consumer: Consumer, provider: nat, attempt: nat, events: seq<StreamEvent>, read: Read)
    requires RaisesNowhere(consumer, Texts(ReadEvents(consumer, provider, attempt, events, read).log))
    requires From(read.log, provider, attempt) && Texts(read.log) == read.chunks
    requires read.raised.None?
    ensures var after := ReadEvents(consumer, provider, attempt, events, read);
            From(after.log, provider, attempt) && Texts(after.log) == after.chunks
            && (after.raised.Some? ==>
                  after.raised == Some(Resilient(InvalidJsonEvent, None, after.chunks != []))
                  || after.raised == Some(Resilient(InvalidShape, None, after.chunks != [])))
    decreases |events|
  {
    hide Texts;
    if events != [] {
      match events[0]
      case DoneMarker => ReadIsHonest(consumer, provider, attempt, events[1..], read.(done := true));
      case BadJson =>
      case BadShape =>
      case Body(finish, content) =>
        var noted := read.(finished := read.finished || finish);
        if content == "" {
          ReadIsHonest(consumer, provider, attempt, events[1..], noted);
        } else {
          var d := Delivery(provider, attempt, content);
          TextsAdd(read.log, d);
          var told := noted.(chunks := read.chunks + [content], log := read.log + [d]);
          assert Texts(told.log)[..|Texts(told.log)|] == Texts(told.log);
          if !consumer(Texts(told.log)) {
            ReadIsHonest(consumer, provider, attempt, events[1..], told);
          }
        }
    }
  }

  /** An attempt on a clean log either shows nothing, or succeeds with what it showed, or may not be repeated. */
  lemma AttemptIsHonest(consumer: Consumer, provider: nat, attempt: nat, script: Script)
    requires RaisesNowhere(consumer, Texts(Attempt(consumer, provider, attempt, script, []).0))
    ensures var (log, result) := Attempt(consumer, provider, attempt, script, []);
            From(log, provider, attempt)
            && (result.Value? ==> log != [] && result.value == Concat(Texts(log)))
            && (result.Raised? && log != [] ==>
                  FailureFrom(result.exn).kind.StreamInterrupted? && !FailureFrom(result.exn).retryable)
            && (result.Raised? && FailureFrom(result.exn).kind.StreamInterrupted? ==>
                  !FailureFrom(result.exn).retryable)
  {
    BlankText();
    if Opened(script).None? {
      ReadIsHonest(consumer, provider, attempt, script.events, Read([], [], false, false, None));
    }
    hide ReadEvents, Strip, Texts, RaisesNowhere;
  }

  lemma BlankText()
    ensures Strip(Concat([])) == ""
    ensures Texts([]) == []
    ensures forall log :: Texts(log) == [] <==> log == []
  {}

  lemma {:induction false} RetriesAreHonest(gw: Gateway, provider: nat, first: nat)
    requires 1 <= first
    requires RaisesNowhere(gw.consumer, Texts(RetryFrom(gw.policy, ProviderCall(gw, provider), first, []).world))
    ensures var r := RetryFrom(gw.policy, ProviderCall(gw, provider), first, []);
            OneAttempt(r.world)
            && (r.verdict.Ok? ==> r.verdict.value == Concat(Texts(r.world)) && r.world != [])
            && (r.world != [] ==> r.verdict.Ok? || (r.verdict.Exhausted? && r.verdict.failure.kind.StreamInterrupted?))
    decreases gw.policy.maxAttempts + 1 - first
  {
    hide Attempt, Texts, RaisesNowhere;
    if first <= gw.policy.maxAttempts {
      var (log, result) := ProviderCall(gw, provider)(first, []);
      assert (log, result) == Attempt(gw.consumer, provider, first, gw.scripts(provider, first), []);
      var r := RetryFrom(gw.policy, ProviderCall(gw, provider), first, []);
      RetriesOnlyAdd(gw, provider, first + 1, log);
      assert log <= r.world;
      QuietPrefix(gw.consumer, log, r.world);
      AttemptIsHonest(gw.consumer, provider, first, gw.scripts(provider, first));
      if log == [] {
        if result.Raised? && FailedAudit(gw.policy, first, FailureFrom(result.exn)).outcome.Retrying? {
          RetriesAreHonest(gw, provider, first + 1);
        }
      } else {
        assert OneAttempt(log);
      }
    }
  }

  lemma {:induction false} ProvidersAreHonest(gw: Gateway, index: nat)
    requires RaisesNowhere(gw.consumer, Texts(CompleteFrom(gw, index, []).0))
    ensures var (log, answer, _) := CompleteFrom(gw, index, []);
            OneAttempt(log) && (answer.Completion? ==> log != [] && answer.content == Concat(Texts(log)))
            && (log != [] && !answer.Completion? ==> answer.Interrupted?)
    decreases |gw.providers| - index
  {
    hide Texts, RaisesNowhere, RetryFrom;
    if index < |gw.providers| {
      if !gw.providers[index] {
        ProvidersAreHonest(gw, index + 1);
      } else {
        var r := RetryFrom(gw.policy, ProviderCall(gw, index), 1, []);
        ProvidersOnlyAdd(gw, index + 1, r.world);
        QuietPrefix(gw.consumer, r.world, CompleteFrom(gw, index, []).0);
        RetriesAreHonest(gw, index, 1);
        if r.world == [] && r.verdict.Exhausted? && !r.verdict.failure.kind.StreamInterrupted? {
          ProvidersAreHonest(gw, index + 1);
        }
      }
    }
  }

  /**
   * In every run in which the consumer does not raise: over every provider, retry and script, all visible deltas
   * come from one single attempt; a returned completion is exactly their concatenation; and once anything was
   * visible, the call either completes or is reported as interrupted, never replayed.
   */
  lemma VisibleContentIsNeverReplayed(gw: Gateway)
    requires RaisesNowhere(gw.consumer, Texts(CompleteFrom(gw, 0, []).0))
    ensures var (log, answer, _) := CompleteFrom(gw, 0, []);
            OneAttempt(log) && (answer.Completion? ==> answer.content == Concat(Texts(log)))
            && (log != [] ==> answer.Completion? || answer.Interrupted?)
  {
    hide CompleteFrom, OneAttempt, RaisesNowhere, Texts;
    ProvidersAreHonest(gw, 0);
  }

  // ----- What the scripts can deliver -----

  /** The visible texts of a stream, up to an event that can not be read. */
  function Said(events: seq<StreamEvent>): seq<string> {
    if events == [] || events[0].BadJson? || events[0].BadShape? then []
    else if events[0].Body? && events[0].content != "" then [events[0].content] + Said(events[1..])
    else Said(events[1..])
  }

  /** No attempt of the run can deliver texts at which the consumer raises. */
  predicate QuietScripts(gw: Gateway) {
    forall p, a :: 0 <= p < |gw.providers| && gw.providers[p] && 1 <= a <= gw.policy.maxAttempts ==>
      RaisesNowhere(gw.consumer, Said(gw.scripts(p, a).events))
  }

  lemma {:induction false} ReadSays(
    consumer: Consumer, provider: nat, attempt: nat, events: seq<StreamEvent>, read: Read, said: seq<string>)
    requires said == Texts(read.log) && RaisesNowhere(consumer, said + Said(events)) && read.raised.None?
    ensures var after := ReadEvents(consumer, provider, attempt, events, read);
            Texts(after.log) <= said + Said(events)
    decreases |events|
  {
    hide Texts, RaisesNowhere;
    if events != [] && !events[0].BadJson? && !events[0].BadShape? {
      match events[0]
      case DoneMarker => ReadSays(consumer, provider, attempt, events[1..], read.(done := true), said);
      case Body(finish, content) =>
        var noted := read.(finished := read.finished || finish);
        if content == "" {
          ReadSays(consumer, provider, attempt, events[1..], noted, said);
        } else {
          var d := Delivery(provider, attempt, content);
          TextsAdd(read.log, d);
          assert said + Said(events) == said + [content] + Said(events[1..]);
          var told := noted.(chunks := read.chunks + [content], log := read.log + [d]);
          if !consumer(Texts(told.log)) {
            ReadSays(consumer, provider, attempt, events[1..], told, said + [content]);
          }
        }
    }
  }

  lemma AttemptSays(consumer: Consumer, provider: nat, attempt: nat, script: Script)
    requires RaisesNowhere(consumer, Said(script.events))
    ensures RaisesNowhere(consumer, Texts(Attempt(consumer, provider, attempt, script, []).0))
  {
    var said := Said(script.events);
    BlankText();
    if Opened(script).None? {
      assert [] + said == said;
      ReadSays(consumer, provider, attempt, script.events, Read([], [], false, false, None), []);
      var texts := Texts(Attempt(consumer, provider, attempt, script, []).0);
      assert texts <= said;
      forall k | 0 < k <= |texts| ensures !consumer(texts[..k]) {
        assert said[..k] == texts[..k];
      }
    }
  }

  lemma {:induction false} QuietRetries(gw: Gateway, provider: nat, first: nat)
    requires QuietScripts(gw) && provider < |gw.providers| && gw.providers[provider] && 1 <= first
    ensures RaisesNowhere(gw.consumer, Texts(RetryFrom(gw.policy, ProviderCall(gw, provider), first, []).world))
    decreases gw.policy.maxAttempts + 1 - first
  {
    hide Attempt, Said;
    BlankText();
    if first <= gw.policy.maxAttempts {
      AttemptSays(gw.consumer, provider, first, gw.scripts(provider, first));
      AttemptIsHonest(gw.consumer, provider, first, gw.scripts(provider, first));
      QuietRetries(gw, provider, first + 1);
      hide Texts, RaisesNowhere, QuietScripts;
      var (log, result) := ProviderCall(gw, provider)(first, []);
      assert (log, result) == Attempt(gw.consumer, provider, first, gw.scripts(provider, first), []);
    }
  }

  /** Where no script can deliver texts the consumer raises at, the run does not make it raise. */
  lemma {:induction false} QuietScriptsStayQuiet(gw: Gateway, index: nat)
    requires QuietScripts(gw)
    ensures RaisesNowhere(gw.consumer, Texts(CompleteFrom(gw, index, []).0))
    decreases |gw.providers| - index
  {
    BlankText();
    hide Texts, RaisesNowhere, RetryFrom, QuietScripts;
    assert RaisesNowhere(gw.consumer, []) by { NothingRaises(gw.consumer); }
    if index < |gw.providers| {
      QuietScriptsStayQuiet(gw, index + 1);
      if gw.providers[index] {
        QuietRetries(gw, index, 1);
        RetriesAreHonest(gw, index, 1);
      }
    }
  }

  lemma NothingRaises(consumer: Consumer)
    ensures RaisesNowhere(consumer, [])
  {}

  lemma {:induction false} SaidIsAudible(events: seq<StreamEvent>)
    ensures forall t :: t in Said(events) ==> t != ""
  {
    if events != [] {
      SaidIsAudible(events[1..]);
    }
  }

  /** A consumer that never raises is quiet in every run. */
  lemma NeverRaisesIsQuiet(gw: Gateway)
    requires NeverRaises(gw.consumer)
    ensures QuietScripts(gw)
  {
    forall p, a, k | 0 <= p < |gw.providers| && 0 < k <= |Said(gw.scripts(p, a).events)|
      ensures !gw.consumer(Said(gw.scripts(p, a).events)[..k])
    {
      var said := Said(gw.scripts(p, a).events);
      SaidIsAudible(gw.scripts(p, a).events);
      assert forall t :: t in said[..k] ==> t in said;
      assert Audible(said[..k]);
    }
  }

  // ----- Consumers that raise -----

  /** The events that hand exactly these texts to the consumer and then end well. */
  function Saying(texts: seq<string>): seq<StreamEvent> {
    if texts == [] then [DoneMarker] else [Body(false, texts[0])] + Saying(texts[1..])
  }

  /** The consumer raises at the last of these texts and at no earlier one. */
  predicate FirstRaiseAt(consumer: Consumer, texts: seq<string>) {
    Audible(texts) && consumer(texts)
    && forall k :: 0 < k < |texts| ==> !consumer(texts[..k])
  }

  lemma {:induction false} SayingRaises(
    consumer: Consumer, provider: nat, attempt: nat, texts: seq<string>, said: nat, read: Read)
    requires FirstRaiseAt(consumer, texts) && said < |texts|
    requires Texts(read.log) == texts[..said] && From(read.log, provider, attempt) && read.raised.None?
    ensures var after := ReadEvents(consumer, provider, attempt, Saying(texts[said..]), read);
            after.raised == Some(OtherExn) && From(after.log, provider, attempt) && after.log != []
            && Texts(after.log) == texts
    decreases |texts| - said
  {
    hide Texts, Concat, Strip;
    var content := texts[said];
    assert texts[said..][0] == content && texts[said..][1..] == texts[said + 1..];
    assert Saying(texts[said..])[1..] == Saying(texts[said + 1..]);
    assert content in texts;
    var d := Delivery(provider, attempt, content);
    TextsAdd(read.log, d);
    assert texts[..said] + [content] == texts[..said + 1];
    var told := read.(chunks := read.chunks + [content], log := read.log + [d]);
    if said + 1 < |texts| {
      assert !consumer(texts[..said + 1]);
      SayingRaises(consumer, provider, attempt, texts, said + 1, told);
    } else {
      assert texts[..said + 1] == texts;
    }
  }

  const ONE_WORD := Script(None, true, [Body(false, "x"), DoneMarker], Eof)

  /** Reading one more word always reaches the consumer, whatever the consumer then does. */
  lemma OneWordIsHeard(consumer: Consumer, provider: nat, attempt: nat, log: seq<Delivery>)
    ensures Attempt(consumer, provider, attempt, ONE_WORD, log).0 == log + [Delivery(provider, attempt, "x")]
  {
    var told := log + [Delivery(provider, attempt, "x")];
    var events := ONE_WORD.events;
    assert events[1..] == [DoneMarker] && [DoneMarker][1..] == [];
    assert ReadEvents(consumer, provider, attempt, [DoneMarker], Read(told, ["x"], false, false, None)).log == told;
  }

  /** Attempt one makes the consumer raise; every later attempt says one word. */
  function Provoking(provider: nat, texts: seq<string>): (nat, nat) -> Script {
    (p: nat, attempt: nat) =>
      if p == provider && attempt == 1 then Script(None, true, Saying(texts), Eof) else ONE_WORD
  }

  lemma ProvokedAttempt(consumer: Consumer, provider: nat, texts: seq<string>)
    requires FirstRaiseAt(consumer, texts)
    ensures var (log, result) := Attempt(consumer, provider, 1, Script(None, true, Saying(texts), Eof), []);
            log != [] && From(log, provider, 1) && result == Raised(OtherExn)
  {
    assert texts[0..] == texts && texts[..0] == [];
    SayingRaises(consumer, provider, 1, texts, 0, Read([], [], false, false, None));
  }

  lemma {:induction false} RetriesOnlyAdd(gw: Gateway, provider: nat, first: nat, log: seq<Delivery>)
    requires 1 <= first
    ensures log <= RetryFrom(gw.policy, ProviderCall(gw, provider), first, log).world
    decreases gw.policy.maxAttempts + 1 - first
  {
    hide ReadEvents;
    if first <= gw.policy.maxAttempts {
      AttemptOnlyAdds(gw.consumer, provider, first, gw.scripts(provider, first), log);
      RetriesOnlyAdd(gw, provider, first + 1,
        Attempt(gw.consumer, provider, first, gw.scripts(provider, first), log).0);
    }
  }

  lemma AttemptOnlyAdds(consumer: Consumer, provider: nat, attempt: nat, script: Script, log: seq<Delivery>)
    ensures log <= Attempt(consumer, provider, attempt, script, log).0
  {
    ReadOnlyAdds(consumer, provider, attempt, script.events, Read(log, [], false, false, None));
  }

  lemma {:induction false} ReadOnlyAdds(
    consumer: Consumer, provider: nat, attempt: nat, events: seq<StreamEvent>, read: Read)
    ensures read.log <= ReadEvents(consumer, provider, attempt, events, read).log
    decreases |events|
  {
    if events != [] && read.raised.None? {
      match events[0]
      case DoneMarker => ReadOnlyAdds(consumer, provider, attempt, events[1..], read.(done := true));
      case BadJson =>
      case BadShape =>
      case Body(finish, content) =>
        var noted := read.(finished := read.finished || finish);
        if content == "" {
          ReadOnlyAdds(consumer, provider, attempt, events[1..], noted);
        } else {
          ReadOnlyAdds(consumer, provider, attempt, events[1..],
                       noted.(chunks := read.chunks + [content],
                              log := read.log + [Delivery(provider, attempt, content)]));
        }
    }
  }

  lemma {:induction false} ProvidersOnlyAdd(gw: Gateway, index: nat, log: seq<Delivery>)
    ensures log <= CompleteFrom(gw, index, log).0
    decreases |gw.providers| - index
  {
    hide RetryFrom;
    if index < |gw.providers| {
      if gw.providers[index] {
        RetriesOnlyAdd(gw, index, 1, log);
        ProvidersOnlyAdd(gw, index + 1, RetryFrom(gw.policy, ProviderCall(gw, index), 1, log).world);
      } else {
        ProvidersOnlyAdd(gw, index + 1, log);
      }
    }
  }

  /** The providers a call can reach: the configured ones. */
  function Reachable(providers: seq<bool>, index: nat): (n: nat)
    decreases |providers| - index
    ensures index < |providers| && providers[index] ==> n >= 1
  {
    if index >= |providers| then 0 else (if providers[index] then 1 else 0) + Reachable(providers, index + 1)
  }

  lemma {:induction false} FirstReachable(providers: seq<bool>, index: nat) returns (first: nat)
    requires Reachable(providers, index) >= 1
    ensures index <= first < |providers| && providers[first]
    ensures forall k :: index <= k < first ==> !providers[k]
    ensures Reachable(providers, first + 1) == Reachable(providers, index) - 1
    decreases |providers| - index
  {
    if providers[index] {
      first := index;
    } else {
      first := FirstReachable(providers, index + 1);
    }
  }

  lemma {:induction false} SkipTo(gw: Gateway, index: nat, first: nat, log: seq<Delivery>)
    requires index <= first < |gw.providers| && forall k :: index <= k < first ==> !gw.providers[k]
    ensures CompleteFrom(gw, index, log) == CompleteFrom(gw, first, log)
    decreases first - index
  {
    hide RetryFrom;
    if index < first {
      SkipTo(gw, index + 1, first, log);
    }
  }

  /** A raise counts as a retryable transport failure, so another attempt of the same provider is heard as well. */
  lemma RaisingIsRetried(gw: Gateway, first: nat, texts: seq<string>)
    requires ValidPolicy(gw.policy) && FirstRaiseAt(gw.consumer, texts) && gw.policy.maxAttempts > 1
    requires first < |gw.providers| && gw.providers[first] && gw.scripts == Provoking(first, texts)
    ensures !OneAttempt(CompleteFrom(gw, first, []).0)
  {
    ProvokedAttempt(gw.consumer, first, texts);
    var log := ProviderCall(gw, first)(1, []).0;
    hide Attempt, FirstRaiseAt;
    RetryHears(gw, first, 2, log);
    ProvidersOnlyAdd(gw, first + 1, RetryFrom(gw.policy, ProviderCall(gw, first), 1, []).world);
    TwoAttempts(CompleteFrom(gw, first, []).0, log, Delivery(first, 2, "x"));
  }

  /** With a single attempt the raise still is no interruption, so the fallback provider is heard. */
  lemma RaisingFallsBack(gw: Gateway, first: nat, second: nat, texts: seq<string>)
    requires ValidPolicy(gw.policy) && FirstRaiseAt(gw.consumer, texts) && gw.policy.maxAttempts == 1
    requires first < second < |gw.providers| && gw.providers[first] && gw.providers[second]
    requires forall k :: first < k < second ==> !gw.providers[k]
    requires gw.scripts == Provoking(first, texts)
    ensures !OneAttempt(CompleteFrom(gw, first, []).0)
  {
    ProvokedAttempt(gw.consumer, first, texts);
    var (log, result) := ProviderCall(gw, first)(1, []);
    assert From(log, first, 1) && log != [] && result == Raised(OtherExn);
    assert gw.scripts(second, 1) == ONE_WORD;
    hide Attempt, FirstRaiseAt, RetryFrom, CompleteFrom, ProviderCall, OneAttempt, Saying, ONE_WORD;
    RaisedFallsThrough(gw, first);
    SkipTo(gw, first + 1, second, log);
    WordIsHeard(gw, second, log);
    TwoAttempts(CompleteFrom(gw, first, []).0, log, Delivery(second, 1, "x"));
  }

  lemma RaisedFallsThrough(gw: Gateway, index: nat)
    requires ValidPolicy(gw.policy) && gw.policy.maxAttempts == 1 && index < |gw.providers| && gw.providers[index]
    requires ProviderCall(gw, index)(1, []).1 == Raised(OtherExn)
    ensures CompleteFrom(gw, index, []).0 == CompleteFrom(gw, index + 1, ProviderCall(gw, index)(1, []).0).0
  {
    hide Attempt;
    var r := RetryFrom(gw.policy, ProviderCall(gw, index), 1, []);
    assert r.world == ProviderCall(gw, index)(1, []).0 && r.verdict == Exhausted(FailureFrom(OtherExn));
  }

  lemma WordIsHeard(gw: Gateway, index: nat, log: seq<Delivery>)
    requires ValidPolicy(gw.policy) && index < |gw.providers| && gw.providers[index] && gw.scripts(index, 1) == ONE_WORD
    ensures log + [Delivery(index, 1, "x")] <= CompleteFrom(gw, index, log).0
  {
    hide RetryFrom, ONE_WORD, Attempt;
    RetryHears(gw, index, 1, log);
    ProvidersOnlyAdd(gw, index + 1, RetryFrom(gw.policy, ProviderCall(gw, index), 1, log).world);
  }

  lemma TwoAttempts(all: seq<Delivery>, log: seq<Delivery>, heard: Delivery)
    requires log != [] && log + [heard] <= all
    requires log[0].provider != heard.provider || log[0].attempt != heard.attempt
    ensures !OneAttempt(all)
  {
    assert all[0] == log[0] && all[|log|] == heard;
  }

  lemma RaisingIsReplayed(gw: Gateway, texts: seq<string>) returns (scripts: (nat, nat) -> Script)
    requires ValidPolicy(gw.policy) && FirstRaiseAt(gw.consumer, texts)
    requires Reachable(gw.providers, 0) >= 1 && (gw.policy.maxAttempts > 1 || Reachable(gw.providers, 0) > 1)
    ensures !OneAttempt(CompleteFrom(gw.(scripts := scripts), 0, []).0)
  {
    hide FirstRaiseAt, OneAttempt, CompleteFrom;
    var first := FirstReachable(gw.providers, 0);
    scripts := Provoking(first, texts);
    var g := gw.(scripts := scripts);
    SkipTo(g, 0, first, []);
    if gw.policy.maxAttempts > 1 {
      RaisingIsRetried(g, first, texts);
    } else {
      var second := FirstReachable(gw.providers, first + 1);
      RaisingFallsBack(g, first, second, texts);
    }
  }

  /** An attempt whose script is one word adds that word, whatever follows. */
  lemma RetryHears(gw: Gateway, provider: nat, attempt: nat, log: seq<Delivery>)
    requires 1 <= attempt <= gw.policy.maxAttempts && gw.scripts(provider, attempt) == ONE_WORD
    ensures log + [Delivery(provider, attempt, "x")]
         <= RetryFrom(gw.policy, ProviderCall(gw, provider), attempt, log).world
  {
    OneWordIsHeard(gw.consumer, provider, attempt, log);
    hide Attempt;
    RetriesOnlyAdd(gw, provider, attempt + 1, log + [Delivery(provider, attempt, "x")]);
  }

  lemma {:induction false} FirstRaise(consumer: Consumer, texts: seq<string>) returns (first: seq<string>)
    requires Audible(texts) && consumer(texts)
    ensures FirstRaiseAt(consumer, first)
    decreases |texts|
  {
    if k :| 0 < k < |texts| && consumer(texts[..k]) {
      assert forall t :: t in texts[..k] ==> t in texts;
      first := FirstRaise(consumer, texts[..k]);
    } else {
      first := texts;
    }
  }

  lemma {:induction false} ReadIsTagged(
    consumer: Consumer, provider: nat, attempt: nat, events: seq<StreamEvent>, read: Read)
    requires From(read.log, provider, attempt)
    ensures From(ReadEvents(consumer, provider, attempt, events, read).log, provider, attempt)
    decreases |events|
  {
    if events != [] && read.raised.None? {
      match events[0]
      case DoneMarker => ReadIsTagged(consumer, provider, attempt, events[1..], read.(done := true));
      case BadJson =>
      case BadShape =>
      case Body(finish, content) =>
        var noted := read.(finished := read.finished || finish);
        if content == "" {
          ReadIsTagged(consumer, provider, attempt, events[1..], noted);
        } else {
          ReadIsTagged(consumer, provider, attempt, events[1..],
                       noted.(chunks := read.chunks + [content],
                              log := read.log + [Delivery(provider, attempt, content)]));
        }
    }
  }

  lemma {:induction false} NothingReachable(gw: Gateway, index: nat, log: seq<Delivery>)
    requires Reachable(gw.providers, index) == 0
    ensures CompleteFrom(gw, index, log).0 == log
    decreases |gw.providers| - index
  {
    hide RetryFrom;
    if index < |gw.providers| {
      NothingReachable(gw, index + 1, log);
    }
  }

  lemma OnlyOneTry(gw: Gateway)
    requires gw.policy.maxAttempts == 1 && Reachable(gw.providers, 0) == 1
    ensures OneAttempt(CompleteFrom(gw, 0, []).0)
  {
    var first := FirstReachable(gw.providers, 0);
    SkipTo(gw, 0, first, []);
    ReadIsTagged(gw.consumer, first, 1, gw.scripts(first, 1).events, Read([], [], false, false, None));
    var log := ProviderCall(gw, first)(1, []).0;
    assert From(log, first, 1);
    hide Attempt;
    NothingReachable(gw, first + 1, log);
  }

  predicate NotReplayed(gw: Gateway, scripts: (nat, nat) -> Script) {
    OneAttempt(CompleteFrom(gw.(scripts := scripts), 0, []).0)
  }

  /**
   * The exact condition: whatever the providers do, nothing is replayed to the consumer if and only if it never
   * raises, or there is a single attempt and a single configured provider.
   */
  lemma NothingIsReplayedExactlyWhen(gw: Gateway)
    requires ValidPolicy(gw.policy) && Reachable(gw.providers, 0) >= 1
    ensures (forall scripts :: NotReplayed(gw, scripts))
       <==> NeverRaises(gw.consumer) || (gw.policy.maxAttempts == 1 && Reachable(gw.providers, 0) == 1)
  {
    hide CompleteFrom, OneAttempt;
    if NeverRaises(gw.consumer) {
      forall scripts ensures NotReplayed(gw, scripts) {
        NeverRaisesIsQuiet(gw.(scripts := scripts));
        QuietScriptsStayQuiet(gw.(scripts := scripts), 0);
        VisibleContentIsNeverReplayed(gw.(scripts := scripts));
      }
    } else if gw.policy.maxAttempts == 1 && Reachable(gw.providers, 0) == 1 {
      forall scripts ensures NotReplayed(gw, scripts) {
        OnlyOneTry(gw.(scripts := scripts));
      }
    } else {
      var texts :| Audible(texts) && gw.consumer(texts);
      var first := FirstRaise(gw.consumer, texts);
      var scripts := RaisingIsReplayed(gw, first);
      assert !NotReplayed(gw, scripts);
    }
  }
}
