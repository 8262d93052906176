/**
 * The resilient call executor (`make_llm_call_with_retry`) and the startup
 * connection probe (`initialize_client`). The remote service is an input:
 * one `Attempt` per attempt the loop may make. Sleeps are recorded, in
 * integer milliseconds, instead of being taken.
 */
module Retry {
  import opened Wrappers
  import Text

  /** `MAX_RETRIES`, `RETRY_DELAY` and `MAX_RETRY_DELAY`, the delays in milliseconds. */
  datatype RetryConfig = RetryConfig(maxRetries: nat, retryDelayMs: nat, maxRetryDelayMs: nat)

  /** The values the program sets: 5 attempts, 1.0 s base delay, 60.0 s cap. */
  const Defaults := RetryConfig(5, 1000, 60000)

  /** What one `client.chat.completions.create(...)` did. */
  datatype Attempt =
    | Reply(choices: seq<Option<string>>)  // `response.choices`, each its `message.content`
    | Raise(message: string)               // `str(e)` of the exception it raised

  /** The branches of the `except` clause, in the order it tests them. */
  datatype ErrorKind = RateLimited | Unauthorized | NotFound | OtherError

  /** Which branch an exception takes, decided on `str(e).lower()`. */
  function Classify(message: string): ErrorKind {
    var m := Text.Lower(message);
    if Text.Contains(m, "429") || Text.Contains(m, "too many requests") then RateLimited
    else if Text.Contains(m, "401") || Text.Contains(m, "unauthorized") then Unauthorized
    else if Text.Contains(m, "404") || Text.Contains(m, "not found") then NotFound
    else OtherError
  }

  /** `2 ** n`. */
  function Pow2(n: nat): (r: nat)
    ensures r >= 1
  {
    if n == 0 then 1 else 2 * Pow2(n - 1)
  }

  /** The uncapped exponential delay `RETRY_DELAY * 2 ** attempt`, as repeated doubling. */
  function Backoff(cfg: RetryConfig, attempt: nat): nat {
    if attempt == 0 then cfg.retryDelayMs else 2 * Backoff(cfg, attempt - 1)
  }

  /** The doubling is the program's `RETRY_DELAY * 2 ** attempt`. */
  lemma {:induction false} BackoffIsExponential(cfg: RetryConfig, attempt: nat)
    ensures Backoff(cfg, attempt) == cfg.retryDelayMs * Pow2(attempt)
  {
    if attempt > 0 {
      BackoffIsExponential(cfg, attempt - 1);
      calc {
        Backoff(cfg, attempt);
        2 * (cfg.retryDelayMs * Pow2(attempt - 1));
        cfg.retryDelayMs * (2 * Pow2(attempt - 1));
      }
    }
  }

  /** The rate-limit delay `min(RETRY_DELAY * 2 ** attempt, MAX_RETRY_DELAY)`. */
  function RateLimitDelay(cfg: RetryConfig, attempt: nat): nat {
    if Backoff(cfg, attempt) <= cfg.maxRetryDelayMs then Backoff(cfg, attempt) else cfg.maxRetryDelayMs
  }

  /** What the loop body decides after one attempt. */
  datatype Step<R> = Finish(r: R) | Sleep(ms: nat) | Proceed

  /** What a run of the loop shows: its result, the attempts made, the sleeps taken. */
  datatype Trace<R> = Trace(result: R, attempts: nat, waits: seq<nat>)

  /** The loop `for attempt in range(...)` over precomputed steps, from `attempt` on. */
  function Run<R>(steps: seq<Step<R>>, exhausted: R, attempt: nat): (t: Trace<R>)
    requires attempt <= |steps|
    ensures attempt <= t.attempts <= |steps|
    ensures attempt < |steps| ==> attempt < t.attempts
    decreases |steps| - attempt
  {
    if attempt == |steps| then Trace(exhausted, attempt, [])
    else
      match steps[attempt]
      case Finish(r) => Trace(r, attempt + 1, [])
      case Sleep(ms) =>
        var t := Run(steps, exhausted, attempt + 1);
        t.(waits := [ms] + t.waits)
      case Proceed => Run(steps, exhausted, attempt + 1)
  }

  /** The sleeps the steps before `n` take, in order. */
  function SleepsBefore<R>(steps: seq<Step<R>>, n: nat): seq<nat>
    requires n <= |steps|
  {
    if n == 0 then []
    else SleepsBefore(steps, n - 1) + (if steps[n - 1].Sleep? then [steps[n - 1].ms] else [])
  }

  /** `SleepsBefore` seen from a later starting attempt. */
  lemma {:induction false} SleepsBeforeStep<R>(steps: seq<Step<R>>, a: nat, n: nat)
    requires a < n <= |steps|
    ensures SleepsBefore(steps, n) == SleepsBefore(steps, a)
      + (if steps[a].Sleep? then [steps[a].ms] else []) + SleepsBetween(steps, a + 1, n)
    decreases n - a
  {
    if a + 1 < n {
      SleepsBeforeStep(steps, a, n - 1);
    }
  }

  /** The sleeps the steps in `[a, n)` take, in order. */
  function SleepsBetween<R>(steps: seq<Step<R>>, a: nat, n: nat): seq<nat>
    requires a <= n <= |steps|
    decreases n - a
  {
    if a == n then []
    else SleepsBetween(steps, a, n - 1) + (if steps[n - 1].Sleep? then [steps[n - 1].ms] else [])
  }

  lemma {:induction false} SleepsBetweenFront<R>(steps: seq<Step<R>>, a: nat, n: nat)
    requires a < n <= |steps|
    ensures SleepsBetween(steps, a, n)
      == (if steps[a].Sleep? then [steps[a].ms] else []) + SleepsBetween(steps, a + 1, n)
    decreases n - a
  {
    if a + 1 < n {
      SleepsBetweenFront(steps, a, n - 1);
    }
  }

  /**
   * The loop from `attempt` on: it stops at the first `Finish` (which is
   * the last attempt made) or after the last step, and it takes exactly
   * the sleeps of the attempts it made.
   */
  lemma RunFromShape<R>(steps: seq<Step<R>>, exhausted: R, attempt: nat)
    requires attempt <= |steps|
    ensures var t := Run(steps, exhausted, attempt);
      && (forall j :: attempt <= j < t.attempts - 1 ==> !steps[j].Finish?)
      && (t.attempts < |steps| ==> steps[t.attempts - 1].Finish?)
      && t.result == (if attempt < t.attempts && steps[t.attempts - 1].Finish?
                      then steps[t.attempts - 1].r else exhausted)
      && t.waits == SleepsBetween(steps, attempt, t.attempts)
  {
    RunFromStops(steps, exhausted, attempt);
    RunFromWaits(steps, exhausted, attempt);
  }

  /** Where the loop from `attempt` stops, and what it returns. */
  lemma {:induction false} RunFromStops<R>(steps: seq<Step<R>>, exhausted: R, attempt: nat)
    requires attempt <= |steps|
    ensures var t := Run(steps, exhausted, attempt);
      && (forall j :: attempt <= j < t.attempts - 1 ==> !steps[j].Finish?)
      && (t.attempts < |steps| ==> steps[t.attempts - 1].Finish?)
      && t.result == (if attempt < t.attempts && steps[t.attempts - 1].Finish?
                      then steps[t.attempts - 1].r else exhausted)
    decreases |steps| - attempt
  {
    if attempt < |steps| && !steps[attempt].Finish? {
      var t := Run(steps, exhausted, attempt);
      var rest := Run(steps, exhausted, attempt + 1);
      assert t.attempts == rest.attempts && t.result == rest.result;
      RunFromStops(steps, exhausted, attempt + 1);
    }
  }

  /** The sleeps the loop from `attempt` takes. */
  lemma {:induction false} RunFromWaits<R>(steps: seq<Step<R>>, exhausted: R, attempt: nat)
    requires attempt <= |steps|
    ensures Run(steps, exhausted, attempt).waits == SleepsBetween(steps, attempt, Run(steps, exhausted, attempt).attempts)
    decreases |steps| - attempt
  {
    if attempt < |steps| {
      var t := Run(steps, exhausted, attempt);
      match steps[attempt]
      case Finish(r) =>
        assert SleepsBetween(steps, attempt, attempt + 1) == [];
      case Sleep(ms) =>
        var rest := Run(steps, exhausted, attempt + 1);
        assert t == rest.(waits := [ms] + rest.waits);
        RunFromWaits(steps, exhausted, attempt + 1);
        SleepsBetweenFront(steps, attempt, t.attempts);
      case Proceed =>
        assert t == Run(steps, exhausted, attempt + 1);
        RunFromWaits(steps, exhausted, attempt + 1);
        SleepsBetweenFront(steps, attempt, t.attempts);
    }
  }

  lemma {:induction false} SleepsBetweenFromStart<R>(steps: seq<Step<R>>, n: nat)
    requires n <= |steps|
    ensures SleepsBetween(steps, 0, n) == SleepsBefore(steps, n)
  {
    if n > 0 {
      SleepsBetweenFromStart(steps, n - 1);
    }
  }

  /** The whole loop: the shape of `RunFromShape` from attempt 0. */
  lemma RunShape<R>(steps: seq<Step<R>>, exhausted: R)
    ensures var t := Run(steps, exhausted, 0);
      && t.attempts <= |steps|
      && (|steps| > 0 ==> t.attempts >= 1)
      && (forall j :: 0 <= j < t.attempts - 1 ==> !steps[j].Finish?)
      && (t.attempts < |steps| ==> steps[t.attempts - 1].Finish?)
      && t.result == (if 0 < t.attempts && steps[t.attempts - 1].Finish?
                      then steps[t.attempts - 1].r else exhausted)
      && t.waits == SleepsBefore(steps, t.attempts)
  {
    RunFromShape(steps, exhausted, 0);
    SleepsBetweenFromStart(steps, Run(steps, exhausted, 0).attempts);
  }

  // ---------------------------------------------------------------------
  // make_llm_call_with_retry
  // ---------------------------------------------------------------------

  /** `IndexError` text when the reply has no choices. */
  const NoChoicesMessage := "list index out of range"
  /** `AttributeError` text when the first choice has no content. */
  const NoContentMessage := "'NoneType' object has no attribute 'strip'"

  /** Reading `response.choices[0].message.content.strip()`: the text or the message of what it raised. */
  datatype Read = Content(text: string) | Failed(message: string)

  function ReadReply(a: Attempt): Read {
    match a
    case Raise(m) => Failed(m)
    case Reply(choices) =>
      if choices == [] then Failed(NoChoicesMessage)
      else if choices[0].None? then Failed(NoContentMessage)
      else Content(Text.Strip(choices[0].value))
  }

  /** The decision the call loop body makes for attempt `attempt`. */
  function CallStep(cfg: RetryConfig, attempt: nat, a: Attempt): Step<Option<string>> {
    match ReadReply(a)
    case Content(text) => Finish(Some(text))
    case Failed(m) => FailureStep(cfg, attempt, m)
  }

  /** The `except` block of the call loop for an exception with message `m`. */
  function FailureStep(cfg: RetryConfig, attempt: nat, m: string): Step<Option<string>> {
    match Classify(m)
    case RateLimited => Sleep(RateLimitDelay(cfg, attempt))
    case Unauthorized => Finish(None)
    case NotFound => Finish(None)
    case OtherError =>
      if attempt < cfg.maxRetries - 1 then Sleep(Backoff(cfg, attempt)) else Proceed
  }

  /** The decisions of the first `n` attempts. */
  function CallSteps(cfg: RetryConfig, service: seq<Attempt>, n: nat): (steps: seq<Step<Option<string>>>)
    requires n <= |service|
    ensures |steps| == n
  {
    if n == 0 then [] else CallSteps(cfg, service, n - 1) + [CallStep(cfg, n - 1, service[n - 1])]
  }

  lemma {:induction false} CallStepAt(cfg: RetryConfig, service: seq<Attempt>, n: nat, a: nat)
    requires a < n <= |service|
    ensures CallSteps(cfg, service, n)[a] == CallStep(cfg, a, service[a])
  {
    if a < n - 1 {
      CallStepAt(cfg, service, n - 1, a);
    }
  }

  /** What `make_llm_call_with_retry` does against this service. */
  function CallSpec(cfg: RetryConfig, service: seq<Attempt>): (t: Trace<Option<string>>)
    requires |service| >= cfg.maxRetries
    ensures t.attempts <= cfg.maxRetries
    ensures cfg.maxRetries > 0 ==> t.attempts >= 1
  {
    Run(CallSteps(cfg, service, cfg.maxRetries), None, 0)
  }

  /** The call loop, branch for branch: returns the text, or `None`. */
  method MakeLlmCallWithRetry(cfg: RetryConfig, service: seq<Attempt>)
    returns (result: Option<string>, attempts: nat, waits: seq<nat>)
    requires |service| >= cfg.maxRetries
    ensures Trace(result, attempts, waits) == CallSpec(cfg, service)
  {
    ghost var steps := CallSteps(cfg, service, cfg.maxRetries);
    waits := [];
    var attempt := 0;
    while attempt < cfg.maxRetries
      invariant attempt <= cfg.maxRetries
      invariant forall j :: 0 <= j < attempt ==> !steps[j].Finish?
      invariant waits == SleepsBefore(steps, attempt)
    {
      CallStepAt(cfg, service, cfg.maxRetries, attempt);
      match ReadReply(service[attempt]) {
        case Content(text) =>
          RunStopsAt(steps, None, attempt);
          return Some(text), attempt + 1, waits;
        case Failed(message) =>
          match Classify(message) {
            case RateLimited =>
              waits := waits + [RateLimitDelay(cfg, attempt)];
            case Unauthorized =>
              RunStopsAt(steps, None, attempt);
              return None, attempt + 1, waits;
            case NotFound =>
              RunStopsAt(steps, None, attempt);
              return None, attempt + 1, waits;
            case OtherError =>
              if attempt < cfg.maxRetries - 1 {
                waits := waits + [Backoff(cfg, attempt)];
              }
          }
      }
      attempt := attempt + 1;
    }
    RunExhausts(steps, None);
    result, attempts := None, attempt;
  }

  // ---------------------------------------------------------------------
  // What the loop promises
  // ---------------------------------------------------------------------

  /** The loop stops at the first step that finishes. */
  lemma RunStopsAt<R>(steps: seq<Step<R>>, exhausted: R, k: nat)
    requires k < |steps| && steps[k].Finish?
    requires forall j :: 0 <= j < k ==> !steps[j].Finish?
    ensures Run(steps, exhausted, 0) == Trace(steps[k].r, k + 1, SleepsBefore(steps, k))
  {
    RunShape(steps, exhausted);
    assert SleepsBefore(steps, k + 1) == SleepsBefore(steps, k);
  }

  /** When no step finishes, every attempt is made and the fallback is returned. */
  lemma RunExhausts<R>(steps: seq<Step<R>>, exhausted: R)
    requires forall j :: 0 <= j < |steps| ==> !steps[j].Finish?
    ensures Run(steps, exhausted, 0) == Trace(exhausted, |steps|, SleepsBefore(steps, |steps|))
  {
    RunShape(steps, exhausted);
  }

  /** A failed attempt after which `make_llm_call_with_retry` tries again. */
  predicate Retryable(a: Attempt) {
    ReadReply(a).Failed? && Classify(ReadReply(a).message) in {RateLimited, OtherError}
  }

  /** One attempt of the call loop: it ends the loop unless it is retryable. */
  lemma CallStepFacts(cfg: RetryConfig, attempt: nat, a: Attempt)
    ensures CallStep(cfg, attempt, a).Finish? <==> !Retryable(a)
    ensures CallStep(cfg, attempt, a).Finish? ==>
      (CallStep(cfg, attempt, a).r.Some? <==> ReadReply(a).Content?)
    ensures CallStep(cfg, attempt, a).Finish? && CallStep(cfg, attempt, a).r.Some? ==>
      ReadReply(a) == Content(CallStep(cfg, attempt, a).r.value)
    ensures CallStep(cfg, attempt, a).Sleep? ==>
      CallStep(cfg, attempt, a).ms in {RateLimitDelay(cfg, attempt), Backoff(cfg, attempt)}
    ensures ReadReply(a).Failed? && Classify(ReadReply(a).message) == RateLimited ==>
      CallStep(cfg, attempt, a) == Sleep(RateLimitDelay(cfg, attempt))
    ensures ReadReply(a).Failed? && Classify(ReadReply(a).message) == OtherError ==>
      CallStep(cfg, attempt, a) == if attempt < cfg.maxRetries - 1 then Sleep(Backoff(cfg, attempt)) else Proceed
  {
    match ReadReply(a)
    case Content(_) =>
    case Failed(m) => FailureStepFacts(cfg, attempt, m);
  }

  /**
   * An exception ends the loop, without a reply, exactly when it is not
   * retryable; a rate limit always sleeps the capped delay, the last attempt
   * included, and a generic error sleeps the uncapped delay except on the
   * last attempt, where the loop simply goes on to its end.
   */
  lemma FailureStepFacts(cfg: RetryConfig, attempt: nat, m: string)
    ensures FailureStep(cfg, attempt, m).Finish? <==> Classify(m) !in {RateLimited, OtherError}
    ensures FailureStep(cfg, attempt, m).Finish? ==> FailureStep(cfg, attempt, m).r == None
    ensures FailureStep(cfg, attempt, m).Sleep? ==>
      FailureStep(cfg, attempt, m).ms in {RateLimitDelay(cfg, attempt), Backoff(cfg, attempt)}
    ensures Classify(m) == RateLimited ==> FailureStep(cfg, attempt, m) == Sleep(RateLimitDelay(cfg, attempt))
    ensures Classify(m) == OtherError ==>
      FailureStep(cfg, attempt, m) == if attempt < cfg.maxRetries - 1 then Sleep(Backoff(cfg, attempt)) else Proceed
  {
  }

  /** `CallStepFacts` for every attempt the loop may make. */
  lemma CallStepsFacts(cfg: RetryConfig, service: seq<Attempt>)
    requires |service| >= cfg.maxRetries
    ensures var steps := CallSteps(cfg, service, cfg.maxRetries);
      forall j :: 0 <= j < |steps| ==>
        && (steps[j].Finish? <==> !Retryable(service[j]))
        && (steps[j].Finish? ==> (steps[j].r.Some? <==> ReadReply(service[j]).Content?))
        && (steps[j].Finish? && steps[j].r.Some? ==> ReadReply(service[j]) == Content(steps[j].r.value))
  {
    var steps := CallSteps(cfg, service, cfg.maxRetries);
    forall j | 0 <= j < |steps|
      ensures steps[j].Finish? <==> !Retryable(service[j])
      ensures steps[j].Finish? ==> (steps[j].r.Some? <==> ReadReply(service[j]).Content?)
      ensures steps[j].Finish? && steps[j].r.Some? ==> ReadReply(service[j]) == Content(steps[j].r.value)
    {
      CallStepAt(cfg, service, cfg.maxRetries, j);
      CallStepFacts(cfg, j, service[j]);
    }
  }

  /**
   * Every attempt but the last was a retryable failure, and a stop before
   * the attempt budget is used up was caused by a failure that is not.
   */
  lemma CallSpecRetried(cfg: RetryConfig, service: seq<Attempt>)
    requires |service| >= cfg.maxRetries
    ensures var t := CallSpec(cfg, service);
      && (forall j :: 0 <= j < t.attempts - 1 ==> Retryable(service[j]))
      && (0 < t.attempts < cfg.maxRetries ==> !Retryable(service[t.attempts - 1]))
  {
    RunShape(CallSteps(cfg, service, cfg.maxRetries), None);
    CallStepsFacts(cfg, service);
  }

  /** The text is returned exactly when the last attempt delivered one, stripped. */
  lemma CallSpecResult(cfg: RetryConfig, service: seq<Attempt>)
    requires |service| >= cfg.maxRetries
    ensures var t := CallSpec(cfg, service);
      && (t.result.Some? <==> t.attempts >= 1 && ReadReply(service[t.attempts - 1]).Content?)
      && (t.result.Some? ==> t.attempts >= 1 && ReadReply(service[t.attempts - 1]) == Content(t.result.value))
  {
    RunShape(CallSteps(cfg, service, cfg.maxRetries), None);
    CallStepsFacts(cfg, service);
  }

  /** The sleeps taken are those of the attempts made, in order. */
  lemma CallSpecWaits(cfg: RetryConfig, service: seq<Attempt>)
    requires |service| >= cfg.maxRetries
    ensures var t := CallSpec(cfg, service);
      t.waits == SleepsBefore(CallSteps(cfg, service, cfg.maxRetries), t.attempts)
  {
    RunShape(CallSteps(cfg, service, cfg.maxRetries), None);
  }

  /**
   * The first attempt that returns content ends the loop with that content
   * stripped; no further attempt is made.
   */
  lemma FirstSuccessWins(cfg: RetryConfig, service: seq<Attempt>, k: nat, content: string)
    requires k < cfg.maxRetries <= |service|
    requires forall j :: 0 <= j < k ==> Retryable(service[j])
    requires service[k].Reply? && service[k].choices != [] && service[k].choices[0] == Some(content)
    ensures CallSpec(cfg, service).result == Some(Text.Strip(content))
    ensures CallSpec(cfg, service).attempts == k + 1
  {
    var steps := CallSteps(cfg, service, cfg.maxRetries);
    forall j | 0 <= j < k ensures !steps[j].Finish? {
      CallStepAt(cfg, service, cfg.maxRetries, j);
      CallStepFacts(cfg, j, service[j]);
    }
    CallStepAt(cfg, service, cfg.maxRetries, k);
    RunStopsAt(steps, None, k);
  }

  /**
   * An authentication or not-found error (one that is not also a rate
   * limit, which is checked first) ends the loop with `None` after that
   * attempt, and no sleep follows it.
   */
  lemma NonRetryableStops(cfg: RetryConfig, service: seq<Attempt>, k: nat)
    requires k < cfg.maxRetries <= |service|
    requires forall j :: 0 <= j < k ==> Retryable(service[j])
    requires service[k].Raise? && Classify(service[k].message) in {Unauthorized, NotFound}
    ensures CallSpec(cfg, service)
      == Trace(None, k + 1, SleepsBefore(CallSteps(cfg, service, cfg.maxRetries), k))
  {
    var steps := CallSteps(cfg, service, cfg.maxRetries);
    forall j | 0 <= j < k ensures !steps[j].Finish? {
      CallStepAt(cfg, service, cfg.maxRetries, j);
      CallStepFacts(cfg, j, service[j]);
    }
    CallStepAt(cfg, service, cfg.maxRetries, k);
    RunStopsAt(steps, None, k);
  }

  /** Using up the attempt budget on retryable failures returns `None`. */
  lemma ExhaustedGivesNone(cfg: RetryConfig, service: seq<Attempt>)
    requires cfg.maxRetries <= |service|
    requires forall j :: 0 <= j < cfg.maxRetries ==> Retryable(service[j])
    ensures CallSpec(cfg, service).result == None
    ensures CallSpec(cfg, service).attempts == cfg.maxRetries
  {
    var steps := CallSteps(cfg, service, cfg.maxRetries);
    forall j | 0 <= j < cfg.maxRetries ensures !steps[j].Finish? {
      CallStepAt(cfg, service, cfg.maxRetries, j);
      CallStepFacts(cfg, j, service[j]);
    }
    RunExhausts(steps, None);
  }

  /** Later attempts never back off less. */
  lemma {:induction false} BackoffMonotone(cfg: RetryConfig, j: nat, k: nat)
    requires j <= k
    ensures Backoff(cfg, j) <= Backoff(cfg, k)
    decreases k - j
  {
    if j < k {
      BackoffMonotone(cfg, j, k - 1);
    }
  }

  /** Each delay is longer than the one before. */
  predicate Increasing(w: seq<nat>) {
    forall i, j :: 0 <= i < j < |w| ==> w[i] < w[j]
  }

  /** Sleeps that follow the backoff schedule strictly increase and are bounded by its last delay. */
  lemma {:induction false} BackoffSleepsIncrease(cfg: RetryConfig, steps: seq<Step<Option<string>>>, n: nat)
    requires n <= |steps| && cfg.retryDelayMs > 0
    requires forall i :: 0 <= i < |steps| && steps[i].Sleep? ==> steps[i].ms == Backoff(cfg, i)
    ensures Increasing(SleepsBefore(steps, n))
    ensures n > 0 ==> forall i :: 0 <= i < |SleepsBefore(steps, n)| ==> SleepsBefore(steps, n)[i] <= Backoff(cfg, n - 1)
  {
    if n > 0 {
      var m := n - 1;
      var w0 := SleepsBefore(steps, m);
      var b := Backoff(cfg, m);
      BackoffSleepsIncrease(cfg, steps, m);
      if m > 0 {
        BackoffMonotone(cfg, 0, m - 1);
        assert forall i :: 0 <= i < |w0| ==> w0[i] <= Backoff(cfg, m - 1);
        assert Backoff(cfg, m - 1) < b;
      }
      assert SleepsBefore(steps, n) == w0 + (if steps[m].Sleep? then [b] else []);
    }
  }

  /**
   * With a positive base delay and a cap the delays of the attempt budget
   * never reach, the sleeps taken strictly increase.
   */
  lemma CallSleepsIncrease(cfg: RetryConfig, service: seq<Attempt>)
    requires cfg.maxRetries <= |service|
    requires cfg.retryDelayMs > 0
    requires cfg.maxRetries == 0 || Backoff(cfg, cfg.maxRetries - 1) <= cfg.maxRetryDelayMs
    ensures Increasing(CallSpec(cfg, service).waits)
  {
    var steps := CallSteps(cfg, service, cfg.maxRetries);
    forall i | 0 <= i < |steps| && steps[i].Sleep? ensures steps[i].ms == Backoff(cfg, i) {
      CallStepAt(cfg, service, cfg.maxRetries, i);
      CallStepFacts(cfg, i, service[i]);
      BackoffMonotone(cfg, i, cfg.maxRetries - 1);
    }
    CallSpecWaits(cfg, service);
    BackoffSleepsIncrease(cfg, steps, CallSpec(cfg, service).attempts);
  }

  /** The default delays: 1, 2, 4, 8 and 16 seconds. */
  lemma DefaultBackoffs()
    ensures Backoff(Defaults, 0) == 1000 && Backoff(Defaults, 1) == 2000 && Backoff(Defaults, 2) == 4000
    ensures Backoff(Defaults, 3) == 8000 && Backoff(Defaults, 4) == 16000
  {
  }

  /** With the defaults the cap of 60 s is never reached: 16 s is the longest delay. */
  lemma DefaultsNeverCapped(a: nat)
    requires a < Defaults.maxRetries
    ensures RateLimitDelay(Defaults, a) == Backoff(Defaults, a)
  {
    BackoffMonotone(Defaults, a, 4);
    DefaultBackoffs();
  }

  /** With the defaults, the recorded sleeps strictly increase. */
  lemma DefaultSleepsIncrease(service: seq<Attempt>)
    requires |service| >= Defaults.maxRetries
    ensures Increasing(CallSpec(Defaults, service).waits)
  {
    DefaultBackoffs();
    CallSleepsIncrease(Defaults, service);
  }

  /** Five rate-limit errors: a sleep after every attempt, the last included. */
  lemma DefaultAllRateLimited(service: seq<Attempt>)
    requires |service| >= 5
    requires forall j :: 0 <= j < 5 ==> service[j].Raise? && Classify(service[j].message) == RateLimited
    ensures CallSpec(Defaults, service) == Trace(None, 5, [1000, 2000, 4000, 8000, 16000])
  {
    var steps := CallSteps(Defaults, service, 5);
    DefaultBackoffs();
    forall j | 0 <= j < 5 ensures steps[j] == CallStep(Defaults, j, service[j]) {
      CallStepAt(Defaults, service, 5, j);
    }
    assert steps[0] == Sleep(1000) && steps[1] == Sleep(2000) && steps[2] == Sleep(4000);
    assert steps[3] == Sleep(8000) && steps[4] == Sleep(16000);
    assert SleepsBefore(steps, 1) == [1000];
    assert SleepsBefore(steps, 2) == [1000, 2000];
    assert SleepsBefore(steps, 3) == [1000, 2000, 4000];
    assert SleepsBefore(steps, 4) == [1000, 2000, 4000, 8000];
    RunExhausts(steps, None);
  }

  /** Five other errors: a sleep after every attempt but the last. */
  lemma DefaultAllOtherErrors(service: seq<Attempt>)
    requires |service| >= 5
    requires forall j :: 0 <= j < 5 ==> service[j].Raise? && Classify(service[j].message) == OtherError
    ensures CallSpec(Defaults, service) == Trace(None, 5, [1000, 2000, 4000, 8000])
  {
    var steps := CallSteps(Defaults, service, 5);
    DefaultBackoffs();
    forall j | 0 <= j < 5 ensures steps[j] == CallStep(Defaults, j, service[j]) {
      CallStepAt(Defaults, service, 5, j);
    }
    assert steps[0] == Sleep(1000) && steps[1] == Sleep(2000) && steps[2] == Sleep(4000);
    assert steps[3] == Sleep(8000) && steps[4] == Proceed;
    assert SleepsBefore(steps, 1) == [1000];
    assert SleepsBefore(steps, 2) == [1000, 2000];
    assert SleepsBefore(steps, 3) == [1000, 2000, 4000];
    assert SleepsBefore(steps, 4) == [1000, 2000, 4000, 8000];
    RunExhausts(steps, None);
  }

  /** A message with none of the keywords takes the generic branch. */
  lemma NoKeywordIsOtherError(message: string)
    requires var m := Text.Lower(message);
      && !Text.Contains(m, "429") && !Text.Contains(m, "too many requests")
      && !Text.Contains(m, "401") && !Text.Contains(m, "unauthorized")
      && !Text.Contains(m, "404") && !Text.Contains(m, "not found")
    ensures Classify(message) == OtherError
  {
  }

  // Characters the two messages lack, one fact per lemma: each fact about a
  // string literal is costly for the solver, and grouped they are too costly.
  lemma NoChoicesLacksFour() ensures '4' !in NoChoicesMessage {}
  lemma NoChoicesLacksLowerQ() ensures 'q' !in NoChoicesMessage {}
  lemma NoChoicesLacksUpperQ() ensures 'Q' !in NoChoicesMessage {}
  lemma NoChoicesLacksLowerZ() ensures 'z' !in NoChoicesMessage {}
  lemma NoChoicesLacksUpperZ() ensures 'Z' !in NoChoicesMessage {}
  lemma NoContentLacksFour() ensures '4' !in NoContentMessage {}
  lemma NoContentLacksLowerQ() ensures 'q' !in NoContentMessage {}
  lemma NoContentLacksUpperQ() ensures 'Q' !in NoContentMessage {}
  lemma NoContentLacksLowerZ() ensures 'z' !in NoContentMessage {}
  lemma NoContentLacksUpperZ() ensures 'Z' !in NoContentMessage {}
  lemma NoContentLacksLowerF() ensures 'f' !in NoContentMessage {}
  lemma NoContentLacksUpperF() ensures 'F' !in NoContentMessage {}
  lemma NoChoicesOneF()
    ensures NoChoicesMessage[16] == 'f'
    ensures 'f' !in NoChoicesMessage[..16] && 'F' !in NoChoicesMessage[..16]
    ensures 'f' !in NoChoicesMessage[17..] && 'F' !in NoChoicesMessage[17..]
  {}

  lemma NoChoicesNotRateLimit()
    ensures !Text.Contains(Text.Lower(NoChoicesMessage), "429")
    ensures !Text.Contains(Text.Lower(NoChoicesMessage), "too many requests")
  {
    var m := NoChoicesMessage;
    NoChoicesLacksFour();
    NoChoicesLacksLowerQ();
    NoChoicesLacksUpperQ();
    Text.MissingCharLower(m, "429", '4');
    Text.MissingCharLower(m, "too many requests", 'q');
  }

  lemma NoChoicesNotUnauthorized()
    ensures !Text.Contains(Text.Lower(NoChoicesMessage), "401")
    ensures !Text.Contains(Text.Lower(NoChoicesMessage), "unauthorized")
  {
    var m := NoChoicesMessage;
    NoChoicesLacksFour();
    NoChoicesLacksLowerZ();
    NoChoicesLacksUpperZ();
    Text.MissingCharLower(m, "401", '4');
    Text.MissingCharLower(m, "unauthorized", 'z');
  }

  lemma NoChoicesNotNotFound()
    ensures !Text.Contains(Text.Lower(NoChoicesMessage), "404")
    ensures !Text.Contains(Text.Lower(NoChoicesMessage), "not found")
  {
    var m := NoChoicesMessage;
    NoChoicesLacksFour();
    Text.MissingCharLower(m, "404", '4');
    NoChoicesOneF();
    assert Text.Lower(m)[12] == 'u';
    LoneFNotFound(m, 16);
  }

  /** A string whose only `f` (in either case) is not four after an `n` does not contain "not found", in any case. */
  lemma LoneFNotFound(s: string, k: nat)
    requires 4 <= k < |s| && s[k] == 'f'
    requires 'f' !in s[..k] && 'F' !in s[..k] && 'f' !in s[k + 1..] && 'F' !in s[k + 1..]
    requires Text.Lower(s)[k - 4] != 'n'
    ensures !Text.Contains(Text.Lower(s), "not found")
  {
    var t := "not found";
    assert t[0] == 'n' && t[4] == 'f' && (t[4] as int - 32) as char == 'F';
    assert Text.Lower(s)[k - 4..][0] != t[0];
    Text.UniqueAnchorLower(s, t, 4, k);
  }

  lemma NoContentNotRateLimit()
    ensures !Text.Contains(Text.Lower(NoContentMessage), "429")
    ensures !Text.Contains(Text.Lower(NoContentMessage), "too many requests")
  {
    var m := NoContentMessage;
    NoContentLacksFour();
    NoContentLacksLowerQ();
    NoContentLacksUpperQ();
    Text.MissingCharLower(m, "429", '4');
    Text.MissingCharLower(m, "too many requests", 'q');
  }

  lemma NoContentNotUnauthorized()
    ensures !Text.Contains(Text.Lower(NoContentMessage), "401")
    ensures !Text.Contains(Text.Lower(NoContentMessage), "unauthorized")
  {
    var m := NoContentMessage;
    NoContentLacksFour();
    NoContentLacksLowerZ();
    NoContentLacksUpperZ();
    Text.MissingCharLower(m, "401", '4');
    Text.MissingCharLower(m, "unauthorized", 'z');
  }

  lemma NoContentNotNotFound()
    ensures !Text.Contains(Text.Lower(NoContentMessage), "404")
    ensures !Text.Contains(Text.Lower(NoContentMessage), "not found")
  {
    var m := NoContentMessage;
    NoContentLacksFour();
    Text.MissingCharLower(m, "404", '4');
    NoContentLacksLowerF();
    NoContentLacksUpperF();
    Text.MissingCharLower(m, "not found", 'f');
  }

  /** `IndexError` for a reply without choices takes the generic branch. */
  lemma NoChoicesIsOtherError()
    ensures Classify(NoChoicesMessage) == OtherError
  {
    NoChoicesNotRateLimit();
    NoChoicesNotUnauthorized();
    NoChoicesNotNotFound();
    NoKeywordIsOtherError(NoChoicesMessage);
  }

  /** `AttributeError` for a choice without content takes the generic branch. */
  lemma NoContentIsOtherError()
    ensures Classify(NoContentMessage) == OtherError
  {
    NoContentNotRateLimit();
    NoContentNotUnauthorized();
    NoContentNotNotFound();
    NoKeywordIsOtherError(NoContentMessage);
  }

  /** A reply with no choices, or with no content, is retried like any other error. */
  lemma MalformedReplyRetried(a: Attempt)
    requires a.Reply? && (a.choices == [] || a.choices[0].None?)
    ensures Retryable(a)
  {
    NoChoicesIsOtherError();
    NoContentIsOtherError();
  }
}
