/** The retry loop around one provider call. The synchronous and the asynchronous form are this one loop. */
module ProviderRetry {
  import opened Sequences

  datatype FailureKind =
    | TimedOutKind | RateLimited | Upstream5xx | Transport | InvalidResponse | Rejected | Configuration
    | StreamInterrupted

  datatype Failure = Failure(kind: FailureKind, status: Option<int>, retryable: bool, retryAfter: Option<real>)

  /** An exception leaving the call, as the classifier tells exceptions apart. */
  datatype Exn = Classified(failure: Failure) | TimeoutExn | HttpExn | OtherExn

  datatype Outcome = Succeeded | Retrying | GaveUp

  datatype Audit = Audit(
    attempt: nat, maxAttempts: nat, outcome: Outcome, kind: Option<FailureKind>, retryable: bool,
      retryAfter: Option<real>)

  datatype Policy = Policy(maxAttempts: nat, backoffBase: real, backoffMax: real)

  /** What `__post_init__` accepts. */
  predicate ValidPolicy(policy: Policy) {
    1 <= policy.maxAttempts <= 10 && policy.backoffBase >= 0.0 && policy.backoffMax >= 0.0
  }

  datatype CallResult<+T> = Value(value: T) | Raised(exn: Exn)

  /** The provider call: attempt number and the world before it to the world after it and its result. */
  type Call<!S, !T> = (nat, S) -> (S, CallResult<T>)

  datatype Verdict<+T> = Ok(value: T) | Exhausted(failure: Failure) | LoopEnded

  datatype Retried<S, T> = Retried(world: S, verdict: Verdict<T>, audits: seq<Audit>, sleeps: seq<real>)

  /** `failure_from_exception`. */
  function FailureFrom(exn: Exn): Failure {
    match exn
    case Classified(f) => f
    case TimeoutExn => Failure(TimedOutKind, None, true, None)
    case HttpExn => Failure(Transport, None, true, None)
    case OtherExn => Failure(Transport, None, true, None)
  }

  function Power2(n: nat): real { if n == 0 then 1.0 else 2.0 * Power2(n - 1) }

  /** `ProviderRetryPolicy.delay`: whatever is requested, the wait stays between zero and the maximum backoff. */
  function Delay(policy: Policy, attempt: nat, retryAfter: Option<real>): (d: real)
    ensures ValidPolicy(policy) ==> 0.0 <= d <= policy.backoffMax
  {
    var requested :=
      if retryAfter.Some? then retryAfter.value
      else policy.backoffBase * Power2(if attempt >= 1 then attempt - 1 else 0);
    var floored := if requested < 0.0 then 0.0 else requested;
    if floored < policy.backoffMax then floored else policy.backoffMax
  }

  function FailedAudit(policy: Policy, attempt: nat, failure: Failure): (r: Audit)
    ensures r.outcome.GaveUp? <==> r.retryAfter.None?
  {
    var retries := failure.retryable && attempt < policy.maxAttempts;
    Audit(attempt, policy.maxAttempts, if retries then Retrying else GaveUp, Some(failure.kind), failure.retryable,
          if retries then Some(Delay(policy, attempt, failure.retryAfter)) else None)
  }

  function SucceededAudit(policy: Policy, attempt: nat): Audit {
    Audit(attempt, policy.maxAttempts, Succeeded, None, false, None)
  }

  /** The loop from one attempt on. */
  function RetryFrom<S, T>(policy: Policy, call: Call<S, T>, attempt: nat, world: S): Retried<S, T>
    requires 1 <= attempt
    decreases policy.maxAttempts + 1 - attempt
  {
    if attempt > policy.maxAttempts then Retried(world, LoopEnded, [], [])
    else
      var (next, result) := call(attempt, world);
      match result
      case Value(v) => Retried(next, Ok(v), [SucceededAudit(policy, attempt)], [])
      case Raised(exn) =>
        var failure := FailureFrom(exn);
        var audit := FailedAudit(policy, attempt, failure);
        if audit.outcome.GaveUp? then Retried(next, Exhausted(failure), [audit], [])
        else
          var rest := RetryFrom(policy, call, attempt + 1, next);
          rest.(audits := [audit] + rest.audits, sleeps := [audit.retryAfter.value] + rest.sleeps)
  }

  method RunWithRetry<S, T>(policy: Policy, call: Call<S, T>, start: S)
    returns (world: S, verdict: Verdict<T>, audits: seq<Audit>, sleeps: seq<real>)
    requires ValidPolicy(policy)
    ensures Retried(world, verdict, audits, sleeps) == RetryFrom(policy, call, 1, start)
  {
    hide FailedAudit, SucceededAudit, FailureFrom;
    world, audits, sleeps := start, [], [];
    ghost var goal := RetryFrom(policy, call, 1, start);
    for attempt := 1 to policy.maxAttempts + 1
      invariant var rest := RetryFrom(policy, call, attempt, world);
                goal == rest.(audits := audits + rest.audits, sleeps := sleeps + rest.sleeps)
    {
      ghost var rest := RetryFrom(policy, call, attempt, world);
      var (next, result) := call(attempt, world);
      world := next;
      match result
      case Value(v) =>
        audits := audits + [SucceededAudit(policy, attempt)];
        return world, Ok(v), audits, sleeps;
      case Raised(exn) =>
        var failure := FailureFrom(exn);
        var audit := FailedAudit(policy, attempt, failure);
        ghost var before, slept := audits, sleeps;
        audits := audits + [audit];
        if audit.outcome.GaveUp? {
          return world, Exhausted(failure), audits, sleeps;
        }
        sleeps := sleeps + [audit.retryAfter.value];
        ghost var after := RetryFrom(policy, call, attempt + 1, world);
        assert rest.audits == [audit] + after.audits && rest.sleeps == [audit.retryAfter.value] + after.sleeps;
        assert audits + after.audits == before + ([audit] + after.audits);
        assert sleeps + after.sleeps == slept + ([audit.retryAfter.value] + after.sleeps);
    }
    verdict := LoopEnded;
  }

  function Total(sleeps: seq<real>): real {
    if sleeps == [] then 0.0 else sleeps[0] + Total(sleeps[1..])
  }

  /** The world before the attempt with a given number, if the loop gets that far. */
  function WorldBefore<S, T>(call: Call<S, T>, first: nat, world: S, attempt: nat): S
    requires first <= attempt
    decreases attempt - first
  {
    if attempt == first then world else WorldBefore(call, first + 1, call(first, world).0, attempt)
  }

  /** The attempt raised something worth another try. */
  predicate WorthRetrying<T>(result: CallResult<T>) {
    result.Raised? && FailureFrom(result.exn).retryable
  }

  /** Audits carry consecutive attempt numbers, and only the last one is not "retrying". */
  predicate Numbered(policy: Policy, audits: seq<Audit>, first: nat) {
    audits != [] && first - 1 + |audits| <= policy.maxAttempts
    && (forall i :: 0 <= i < |audits| ==> audits[i].attempt == first + i && audits[i].maxAttempts == policy.maxAttempts)
    && (forall i :: 0 <= i < |audits| ==> (audits[i].outcome.Retrying? <==> i < |audits| - 1))
    && (forall i :: 0 <= i < |audits| ==>
          audits[i].retryAfter.Some? ==> 0.0 <= audits[i].retryAfter.value <= policy.backoffMax)
  }

  lemma {:induction false} RetryFromKeepsCount<S, T>(policy: Policy, call: Call<S, T>, first: nat, world: S)
    requires ValidPolicy(policy) && 1 <= first <= policy.maxAttempts
    ensures var r := RetryFrom(policy, call, first, world);
            Numbered(policy, r.audits, first) && |r.sleeps| == |r.audits| - 1 && !r.verdict.LoopEnded?
            && (forall i :: 0 <= i < |r.sleeps| ==> 0.0 <= r.sleeps[i] <= policy.backoffMax)
            && (r.audits[|r.audits| - 1].outcome.Succeeded? <==> r.verdict.Ok?)
    decreases policy.maxAttempts + 1 - first
  {
    var (next, result) := call(first, world);
    if result.Raised? {
      var failure := FailureFrom(result.exn);
      var audit := FailedAudit(policy, first, failure);
      if audit.outcome.Retrying? {
        RetryFromKeepsCount(policy, call, first + 1, next);
        var rest := RetryFrom(policy, call, first + 1, next);
        var r := RetryFrom(policy, call, first, world);
        assert forall i :: 1 <= i < |r.audits| ==> r.audits[i] == rest.audits[i - 1];
      }
    }
  }

  function Times(n: nat, x: real): real { if n == 0 then 0.0 else x + Times(n - 1, x) }

  lemma {:induction false} TimesIsProduct(n: nat, x: real)
    ensures Times(n, x) == n as real * x
  {
    if n > 0 {
      TimesIsProduct(n - 1, x);
      var m := (n - 1) as real;
      assert n as real == m + 1.0;
      assert (m + 1.0) * x == m * x + 1.0 * x;
    }
  }

  lemma {:induction false} TotalBound(sleeps: seq<real>, limit: real)
    requires forall i :: 0 <= i < |sleeps| ==> 0.0 <= sleeps[i] <= limit
    ensures 0.0 <= Total(sleeps) <= Times(|sleeps|, limit)
  {
    if sleeps != [] {
      TotalBound(sleeps[1..], limit);
    }
  }

  /** The loop went on after every attempt but the last, and stopped where it had to. */
  ghost predicate StoppedRightly<S, T>(
    policy: Policy, call: Call<S, T>, first: nat, world: S, count: nat, verdict: Verdict<T>)
    requires count >= 1
  {
    (forall k :: first <= k < first + count - 1 ==> WorthRetrying(call(k, WorldBefore(call, first, world, k)).1))
    && var last := first + count - 1;
       match call(last, WorldBefore(call, first, world, last)).1
       case Value(v) => verdict == Ok(v)
       case Raised(exn) =>
         verdict == Exhausted(FailureFrom(exn)) && (last == policy.maxAttempts || !FailureFrom(exn).retryable)
  }

  lemma {:induction false} RetryFromStopsRightly<S, T>(policy: Policy, call: Call<S, T>, first: nat, world: S)
    requires ValidPolicy(policy) && 1 <= first <= policy.maxAttempts
    ensures var r := RetryFrom(policy, call, first, world);
            |r.audits| >= 1 && StoppedRightly(policy, call, first, world, |r.audits|, r.verdict)
            && r.world == WorldBefore(call, first, world, first + |r.audits|)
    decreases policy.maxAttempts + 1 - first
  {
    var (next, result) := call(first, world);
    var r := RetryFrom(policy, call, first, world);
    assert WorldBefore(call, first, world, first + 1) == next;
    if result.Raised? && FailedAudit(policy, first, FailureFrom(result.exn)).outcome.Retrying? {
      RetryFromKeepsCount(policy, call, first + 1, next);
      RetryFromStopsRightly(policy, call, first + 1, next);
      var rest := RetryFrom(policy, call, first + 1, next);
      assert |r.audits| == |rest.audits| + 1;
      forall k | first <= k < first + |r.audits| - 1
        ensures WorthRetrying(call(k, WorldBefore(call, first, world, k)).1)
      {
        if k > first {
          assert WorldBefore(call, first, world, k) == WorldBefore(call, first + 1, next, k);
        }
      }
      var last := first + |r.audits| - 1;
      assert WorldBefore(call, first, world, last) == WorldBefore(call, first + 1, next, last);
      assert WorldBefore(call, first, world, last + 1) == WorldBefore(call, first + 1, next, last + 1);
    }
  }

  lemma NumberedFits(policy: Policy, audits: seq<Audit>)
    ensures Numbered(policy, audits, 1) ==> 1 <= |audits| <= policy.maxAttempts
  {}

  /**
   * For every policy and every behaviour of the provider: at most `maxAttempts` calls, audits numbered from one
   * with "retrying" on all but the last, a stop at the first success or non-retryable failure, bounded total
   * sleep, and the assertion behind the loop is never reached.
   */
  lemma RetryPromises<S, T>(policy: Policy, call: Call<S, T>, start: S)
    requires ValidPolicy(policy)
    ensures var r := RetryFrom(policy, call, 1, start);
            1 <= |r.audits| <= policy.maxAttempts && Numbered(policy, r.audits, 1)
            && StoppedRightly(policy, call, 1, start, |r.audits|, r.verdict) && !r.verdict.LoopEnded?
            && |r.sleeps| == |r.audits| - 1 && Total(r.sleeps) <= (|r.audits| - 1) as real * policy.backoffMax
  {
    assert 1 <= policy.maxAttempts;
    NumberedFits(policy, RetryFrom(policy, call, 1, start).audits);
    hide *;
    RetryFromKeepsCount(policy, call, 1, start);
    RetryFromStopsRightly(policy, call, 1, start);
    RetrySleeps(policy, call, start);
  }

  lemma RetrySleeps<S, T>(policy: Policy, call: Call<S, T>, start: S)
    requires ValidPolicy(policy)
    ensures var r := RetryFrom(policy, call, 1, start);
            Total(r.sleeps) <= (|r.audits| - 1) as real * policy.backoffMax
  {
    assert 1 <= policy.maxAttempts;
    SleepsAreBounded(policy, call, start);
    hide *;
    var r := RetryFrom(policy, call, 1, start);
    TimesIsProduct(|r.audits| - 1, policy.backoffMax);
  }

  lemma SleepsAreBounded<S, T>(policy: Policy, call: Call<S, T>, start: S)
    requires ValidPolicy(policy)
    ensures var r := RetryFrom(policy, call, 1, start);
            |r.audits| >= 1 && Total(r.sleeps) <= Times(|r.audits| - 1, policy.backoffMax)
  {
    assert 1 <= policy.maxAttempts;
    RetryFromKeepsCount(policy, call, 1, start);
    hide *;
    var r := RetryFrom(policy, call, 1, start);
    TotalBound(r.sleeps, policy.backoffMax);
  }

  /** An exception nobody classified is retried, as a timeout or as a transport failure. */
  lemma UnclassifiedIsRetried(exn: Exn)
    ensures !exn.Classified? ==>
              FailureFrom(exn) == Failure(if exn.TimeoutExn? then TimedOutKind else Transport, None, true, None)
    ensures exn.Classified? ==> FailureFrom(exn) == exn.failure
  {}

  /** The wait is what was asked for, or doubles with each attempt, as far as it lies between zero and the maximum. */
  lemma DelayExactly(policy: Policy, attempt: nat, retryAfter: Option<real>)
    requires ValidPolicy(policy) && attempt >= 1
    ensures var wanted := if retryAfter.Some? then retryAfter.value else policy.backoffBase * Power2(attempt - 1);
            var d := Delay(policy, attempt, retryAfter);
            (0.0 <= wanted <= policy.backoffMax ==> d == wanted) && (wanted < 0.0 ==> d == 0.0)
            && (wanted > policy.backoffMax ==> d == policy.backoffMax)
  {
    hide Power2;
  }

  /** The audit of an attempt tells its outcome, its failure and the wait after it, which is also slept. */
  predicate AuditTells<T>(policy: Policy, attempt: nat, result: CallResult<T>, audit: Audit, slept: Option<real>) {
    audit.attempt == attempt && audit.retryAfter == slept
    && match result
       case Value(_) => audit.outcome.Succeeded? && audit.kind.None? && !audit.retryable && slept.None?
       case Raised(exn) =>
         var failure := FailureFrom(exn);
         audit.kind == Some(failure.kind) && audit.retryable == failure.retryable
         && slept == if failure.retryable && attempt < policy.maxAttempts
                     then Some(Delay(policy, attempt, failure.retryAfter)) else None
  }

  /** What the attempt numbered `first + i` of a run tells. */
  predicate TellsAt<S, T>(policy: Policy, call: Call<S, T>, first: nat, world: S, r: Retried<S, T>, i: nat)
    requires i < |r.audits| && |r.sleeps| == |r.audits| - 1
  {
    AuditTells(policy, first + i, call(first + i, WorldBefore(call, first, world, first + i)).1, r.audits[i],
               if i < |r.sleeps| then Some(r.sleeps[i]) else None)
  }

  lemma TellsLater<S, T>(policy: Policy, call: Call<S, T>, first: nat, world: S, r: Retried<S, T>,
    rest: Retried<S, T>, i: nat)
    requires 1 <= i < |r.audits| && |r.audits| == |rest.audits| + 1 && |r.sleeps| == |rest.sleeps| + 1
    requires |r.sleeps| == |r.audits| - 1
    requires r.audits[i] == rest.audits[i - 1] && (i < |r.sleeps| ==> r.sleeps[i] == rest.sleeps[i - 1])
    requires TellsAt(policy, call, first + 1, call(first, world).0, rest, i - 1)
    ensures TellsAt(policy, call, first, world, r, i)
  {
    hide AuditTells;
    assert (first + 1) + (i - 1) == first + i;
    assert WorldBefore(call, first, world, first + i)
      == WorldBefore(call, first + 1, call(first, world).0, first + i);
  }

  lemma TellsFirst<S, T>(policy: Policy, call: Call<S, T>, first: nat, world: S)
    requires ValidPolicy(policy) && 1 <= first <= policy.maxAttempts
    ensures var r := RetryFrom(policy, call, first, world);
            |r.audits| > 0 && (|r.sleeps| == |r.audits| - 1 ==> TellsAt(policy, call, first, world, r, 0))
  {
    hide Delay;
    assert WorldBefore(call, first, world, first) == world;
  }

  /** Every audit of a run tells its attempt, and what is slept is what they say. */
  lemma {:induction false} AuditsTell<S, T>(policy: Policy, call: Call<S, T>, first: nat, world: S)
    requires ValidPolicy(policy) && 1 <= first <= policy.maxAttempts
    ensures var r := RetryFrom(policy, call, first, world);
            |r.sleeps| == |r.audits| - 1
            && forall i :: 0 <= i < |r.audits| ==> TellsAt(policy, call, first, world, r, i)
    decreases policy.maxAttempts + 1 - first
  {
    TellsFirst(policy, call, first, world);
    RetryFromKeepsCount(policy, call, first, world);
    hide Delay, TellsAt, Numbered;
    var (next, result) := call(first, world);
    var r := RetryFrom(policy, call, first, world);
    if result.Raised? && FailedAudit(policy, first, FailureFrom(result.exn)).outcome.Retrying? {
      AuditsTell(policy, call, first + 1, next);
      var rest := RetryFrom(policy, call, first + 1, next);
      forall i: nat | 1 <= i < |r.audits| ensures TellsAt(policy, call, first, world, r, i) {
        TellsLater(policy, call, first, world, r, rest, i);
      }
    }
  }
}
