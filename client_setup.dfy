/**
 * `initialize_client`: the placeholder-key check, the model-name warning
 * and the connection probe, which retries like the call loop but ends the
 * program (an `Exit`) instead of returning `None`.
 */
module ClientSetup {
  import opened Wrappers
  import Text
  import opened Retry

  /** The default of `Config.API_KEY` when `OPENAI_API_KEY` is not set. */
  const PlaceholderKey := "YOUR_OPENAI_API_KEY_HERE"

  /** `Config.SUPPORTED_MODELS`. */
  const SupportedModels := ["gpt-4", "gpt-4-turbo", "gpt-3.5-turbo", "gpt-4o", "gpt-4o-mini"]

  /** The model the program is configured with. */
  const DefaultModel := "gpt-4"

  /** The exception the probe raises itself for an empty reply. */
  const InvalidStructureMessage := "Invalid response structure from API"

  /** Why `initialize_client` calls `sys.exit(1)`. */
  datatype ExitReason =
    | PlaceholderApiKey     // the key was never set
    | AuthenticationFailed  // a 401 / unauthorized error
    | EndpointNotFound      // a 404 / not found error
    | AllAttemptsFailed     // a generic error on the last attempt
    | NotEstablished        // the loop ran out (the last attempt was rate-limited)

  /** What `initialize_client` ends with: a working client, or an exit. */
  datatype Probe = Connected | Exit(reason: ExitReason)

  /**
   * Reading the probe reply: `response.choices` must be non-empty and the
   * first content non-empty; otherwise the probe raises its own exception.
   */
  function ReadProbe(a: Attempt): Read {
    match a
    case Raise(m) => Failed(m)
    case Reply(choices) =>
      if choices != [] && choices[0].Some? && choices[0].value != "" then Content(choices[0].value)
      else Failed(InvalidStructureMessage)
  }

  /** The decision the probe loop body makes for attempt `attempt`. */
  function ProbeStep(cfg: RetryConfig, attempt: nat, a: Attempt): Step<Probe> {
    match ReadProbe(a)
    case Content(_) => Finish(Connected)
    case Failed(m) => ProbeFailure(cfg, attempt, m)
  }

  /** The `except` block of the probe loop for an exception with message `m`. */
  function ProbeFailure(cfg: RetryConfig, attempt: nat, m: string): Step<Probe> {
    match Classify(m)
    case RateLimited => Sleep(RateLimitDelay(cfg, attempt))
    case Unauthorized => Finish(Exit(AuthenticationFailed))
    case NotFound => Finish(Exit(EndpointNotFound))
    case OtherError =>
      if attempt < cfg.maxRetries - 1 then Sleep(Backoff(cfg, attempt)) else Finish(Exit(AllAttemptsFailed))
  }

  /** The decisions of the first `n` probe attempts. */
  function ProbeSteps(cfg: RetryConfig, service: seq<Attempt>, n: nat): (steps: seq<Step<Probe>>)
    requires n <= |service|
    ensures |steps| == n
  {
    if n == 0 then [] else ProbeSteps(cfg, service, n - 1) + [ProbeStep(cfg, n - 1, service[n - 1])]
  }

  lemma {:induction false} ProbeStepAt(cfg: RetryConfig, service: seq<Attempt>, n: nat, a: nat)
    requires a < n <= |service|
    ensures ProbeSteps(cfg, service, n)[a] == ProbeStep(cfg, a, service[a])
  {
    if a < n - 1 {
      ProbeStepAt(cfg, service, n - 1, a);
    }
  }

  /** What the probe loop does against this service. */
  function ProbeSpec(cfg: RetryConfig, service: seq<Attempt>): (t: Trace<Probe>)
    requires |service| >= cfg.maxRetries
    ensures t.attempts <= cfg.maxRetries
    ensures cfg.maxRetries > 0 ==> t.attempts >= 1
  {
    Run(ProbeSteps(cfg, service, cfg.maxRetries), Exit(NotEstablished), 0)
  }

  /** What `initialize_client` shows: the model warning, the outcome, the attempts and the sleeps. */
  datatype Startup = Startup(modelWarning: bool, outcome: Probe, attempts: nat, waits: seq<nat>)

  function StartupSpec(cfg: RetryConfig, apiKey: string, model: string, service: seq<Attempt>): Startup
    requires |service| >= cfg.maxRetries
  {
    if apiKey == PlaceholderKey then Startup(false, Exit(PlaceholderApiKey), 0, [])
    else
      var t := ProbeSpec(cfg, service);
      Startup(model !in SupportedModels, t.result, t.attempts, t.waits)
  }

  /** `initialize_client`, branch for branch. */
  method InitializeClient(cfg: RetryConfig, apiKey: string, model: string, service: seq<Attempt>)
    returns (modelWarning: bool, outcome: Probe, attempts: nat, waits: seq<nat>)
    requires |service| >= cfg.maxRetries
    ensures Startup(modelWarning, outcome, attempts, waits) == StartupSpec(cfg, apiKey, model, service)
  {
    waits := [];
    if apiKey == PlaceholderKey {
      return false, Exit(PlaceholderApiKey), 0, waits;
    }
    modelWarning := model !in SupportedModels;
    ghost var steps := ProbeSteps(cfg, service, cfg.maxRetries);
    var attempt := 0;
    while attempt < cfg.maxRetries
      invariant attempt <= cfg.maxRetries
      invariant forall j :: 0 <= j < attempt ==> !steps[j].Finish?
      invariant waits == SleepsBefore(steps, attempt)
    {
      ProbeStepAt(cfg, service, cfg.maxRetries, attempt);
      match ReadProbe(service[attempt]) {
        case Content(_) =>
          RunStopsAt(steps, Exit(NotEstablished), attempt);
          return modelWarning, Connected, attempt + 1, waits;
        case Failed(message) =>
          match Classify(message) {
            case RateLimited =>
              waits := waits + [RateLimitDelay(cfg, attempt)];
            case Unauthorized =>
              RunStopsAt(steps, Exit(NotEstablished), attempt);
              return modelWarning, Exit(AuthenticationFailed), attempt + 1, waits;
            case NotFound =>
              RunStopsAt(steps, Exit(NotEstablished), attempt);
              return modelWarning, Exit(EndpointNotFound), attempt + 1, waits;
            case OtherError =>
              if attempt < cfg.maxRetries - 1 {
                waits := waits + [Backoff(cfg, attempt)];
              } else {
                RunStopsAt(steps, Exit(NotEstablished), attempt);
                return modelWarning, Exit(AllAttemptsFailed), attempt + 1, waits;
              }
          }
      }
      attempt := attempt + 1;
    }
    RunExhausts(steps, Exit(NotEstablished));
    outcome, attempts := Exit(NotEstablished), attempt;
  }

  // ---------------------------------------------------------------------
  // What the probe promises
  // ---------------------------------------------------------------------

  /** A failed probe attempt after which the loop goes on. */
  predicate ProbeContinues(cfg: RetryConfig, attempt: nat, a: Attempt) {
    ReadProbe(a).Failed?
    && (Classify(ReadProbe(a).message) == RateLimited
        || (Classify(ReadProbe(a).message) == OtherError && attempt < cfg.maxRetries - 1))
  }

  /** One probe attempt: each kind of reply and error ends the loop as the `except` clause says. */
  lemma ProbeStepFacts(cfg: RetryConfig, attempt: nat, a: Attempt)
    ensures ProbeStep(cfg, attempt, a).Finish? <==> !ProbeContinues(cfg, attempt, a)
    ensures ProbeStep(cfg, attempt, a) == Finish(Connected) <==> ReadProbe(a).Content?
    ensures ProbeStep(cfg, attempt, a) == Finish(Exit(AuthenticationFailed)) <==>
      ReadProbe(a).Failed? && Classify(ReadProbe(a).message) == Unauthorized
    ensures ProbeStep(cfg, attempt, a) == Finish(Exit(EndpointNotFound)) <==>
      ReadProbe(a).Failed? && Classify(ReadProbe(a).message) == NotFound
    ensures ProbeStep(cfg, attempt, a) == Finish(Exit(AllAttemptsFailed)) <==>
      ReadProbe(a).Failed? && Classify(ReadProbe(a).message) == OtherError && attempt >= cfg.maxRetries - 1
    ensures ProbeStep(cfg, attempt, a) != Finish(Exit(NotEstablished))
    ensures ProbeStep(cfg, attempt, a) != Finish(Exit(PlaceholderApiKey))
  {
    match ReadProbe(a)
    case Content(_) =>
    case Failed(m) => ProbeFailureFacts(cfg, attempt, m);
  }

  /** Each kind of exception ends the probe loop, or not, as its `except` clause says. */
  lemma ProbeFailureFacts(cfg: RetryConfig, attempt: nat, m: string)
    ensures ProbeFailure(cfg, attempt, m).Finish? <==>
      !(Classify(m) == RateLimited || (Classify(m) == OtherError && attempt < cfg.maxRetries - 1))
    ensures ProbeFailure(cfg, attempt, m) != Finish(Connected)
    ensures ProbeFailure(cfg, attempt, m) == Finish(Exit(AuthenticationFailed)) <==> Classify(m) == Unauthorized
    ensures ProbeFailure(cfg, attempt, m) == Finish(Exit(EndpointNotFound)) <==> Classify(m) == NotFound
    ensures ProbeFailure(cfg, attempt, m) == Finish(Exit(AllAttemptsFailed)) <==>
      Classify(m) == OtherError && attempt >= cfg.maxRetries - 1
    ensures ProbeFailure(cfg, attempt, m) != Finish(Exit(NotEstablished))
    ensures ProbeFailure(cfg, attempt, m) != Finish(Exit(PlaceholderApiKey))
  {
  }

  /** `ProbeStepFacts` for every attempt the probe may make. */
  lemma ProbeStepsFacts(cfg: RetryConfig, service: seq<Attempt>)
    requires |service| >= cfg.maxRetries
    ensures forall j :: 0 <= j < cfg.maxRetries ==>
      && (ProbeSteps(cfg, service, cfg.maxRetries)[j].Finish? <==> !ProbeContinues(cfg, j, service[j]))
      && ProbeSteps(cfg, service, cfg.maxRetries)[j] != Finish(Exit(NotEstablished))
      && ProbeSteps(cfg, service, cfg.maxRetries)[j] != Finish(Exit(PlaceholderApiKey))
      && ProbeSteps(cfg, service, cfg.maxRetries)[j] == ProbeStep(cfg, j, service[j])
  {
    forall j | 0 <= j < cfg.maxRetries
      ensures ProbeSteps(cfg, service, cfg.maxRetries)[j] == ProbeStep(cfg, j, service[j])
    {
      ProbeStepAt(cfg, service, cfg.maxRetries, j);
    }
    forall j | 0 <= j < cfg.maxRetries
      ensures ProbeStep(cfg, j, service[j]).Finish? <==> !ProbeContinues(cfg, j, service[j])
      ensures ProbeStep(cfg, j, service[j]) != Finish(Exit(NotEstablished))
      ensures ProbeStep(cfg, j, service[j]) != Finish(Exit(PlaceholderApiKey))
    {
      ProbeStepFacts(cfg, j, service[j]);
    }
  }

  /**
   * Every probe attempt but the last failed in a way the loop retries, and
   * the loop stopped early only on an attempt it does not retry.
   */
  lemma ProbeSpecRetried(cfg: RetryConfig, service: seq<Attempt>)
    requires |service| >= cfg.maxRetries
    ensures var t := ProbeSpec(cfg, service);
      && (forall j :: 0 <= j < t.attempts - 1 ==> ProbeContinues(cfg, j, service[j]))
      && (0 < t.attempts < cfg.maxRetries ==> !ProbeContinues(cfg, t.attempts - 1, service[t.attempts - 1]))
  {
    RunShape(ProbeSteps(cfg, service, cfg.maxRetries), Exit(NotEstablished));
    ProbeStepsFacts(cfg, service);
  }

  /**
   * The probe ends with the decision of its last attempt, or with
   * `NotEstablished` when that attempt was retried.
   */
  lemma ProbeSpecLast(cfg: RetryConfig, service: seq<Attempt>)
    requires |service| >= cfg.maxRetries
    ensures var t := ProbeSpec(cfg, service);
      && (t.attempts >= 1 && !ProbeContinues(cfg, t.attempts - 1, service[t.attempts - 1]) ==>
            Finish(t.result) == ProbeStep(cfg, t.attempts - 1, service[t.attempts - 1]))
      && (t.attempts == 0 || ProbeContinues(cfg, t.attempts - 1, service[t.attempts - 1]) ==>
            t.result == Exit(NotEstablished) && t.attempts == cfg.maxRetries)
  {
    RunShape(ProbeSteps(cfg, service, cfg.maxRetries), Exit(NotEstablished));
    ProbeStepsFacts(cfg, service);
  }

  /** The client is returned exactly when the last attempt got a non-empty reply. */
  lemma ConnectedIff(cfg: RetryConfig, service: seq<Attempt>)
    requires |service| >= cfg.maxRetries
    ensures var t := ProbeSpec(cfg, service);
      t.result == Connected <==> t.attempts >= 1 && ReadProbe(service[t.attempts - 1]).Content?
  {
    var t := ProbeSpec(cfg, service);
    ProbeSpecLast(cfg, service);
    if t.attempts >= 1 {
      ProbeStepFacts(cfg, t.attempts - 1, service[t.attempts - 1]);
    }
  }

  /**
   * "Could not be established" is reached only by using up every attempt,
   * the last of them on a rate-limit error.
   */
  lemma NotEstablishedOnlyAfterRateLimit(cfg: RetryConfig, service: seq<Attempt>)
    requires |service| >= cfg.maxRetries
    ensures var t := ProbeSpec(cfg, service);
      t.result == Exit(NotEstablished) ==>
        && t.attempts == cfg.maxRetries
        && (cfg.maxRetries > 0 ==>
              ReadProbe(service[cfg.maxRetries - 1]).Failed?
              && Classify(ReadProbe(service[cfg.maxRetries - 1]).message) == RateLimited)
  {
    var t := ProbeSpec(cfg, service);
    ProbeSpecLast(cfg, service);
    if t.attempts >= 1 {
      ProbeStepFacts(cfg, t.attempts - 1, service[t.attempts - 1]);
    }
  }

  /** An authentication error ends the program at once, after the earlier retried attempts. */
  lemma AuthErrorExits(cfg: RetryConfig, service: seq<Attempt>, k: nat)
    requires k < cfg.maxRetries <= |service|
    requires forall j :: 0 <= j < k ==> ProbeContinues(cfg, j, service[j])
    requires service[k].Raise? && Classify(service[k].message) == Unauthorized
    ensures ProbeSpec(cfg, service)
      == Trace(Exit(AuthenticationFailed), k + 1, SleepsBefore(ProbeSteps(cfg, service, cfg.maxRetries), k))
  {
    var steps := ProbeSteps(cfg, service, cfg.maxRetries);
    ProbeStepsFacts(cfg, service);
    RunStopsAt(steps, Exit(NotEstablished), k);
  }

  /** A generic error on the last attempt ends the program with "all attempts failed". */
  lemma LastGenericErrorExits(cfg: RetryConfig, service: seq<Attempt>)
    requires 0 < cfg.maxRetries <= |service|
    requires forall j :: 0 <= j < cfg.maxRetries - 1 ==> ProbeContinues(cfg, j, service[j])
    requires service[cfg.maxRetries - 1].Raise? && Classify(service[cfg.maxRetries - 1].message) == OtherError
    ensures ProbeSpec(cfg, service).result == Exit(AllAttemptsFailed)
    ensures ProbeSpec(cfg, service).attempts == cfg.maxRetries
  {
    var steps := ProbeSteps(cfg, service, cfg.maxRetries);
    ProbeStepsFacts(cfg, service);
    RunStopsAt(steps, Exit(NotEstablished), cfg.maxRetries - 1);
  }

  /** With the placeholder key the program exits before any attempt and without the model warning. */
  lemma PlaceholderKeyExits(cfg: RetryConfig, model: string, service: seq<Attempt>)
    requires |service| >= cfg.maxRetries
    ensures StartupSpec(cfg, PlaceholderKey, model, service) == Startup(false, Exit(PlaceholderApiKey), 0, [])
  {
  }

  /**
   * With a real key the warning is given exactly for a model outside the
   * supported list, and the outcome is the probe's; the placeholder exit
   * cannot happen.
   */
  lemma RealKeyProbes(cfg: RetryConfig, apiKey: string, model: string, service: seq<Attempt>)
    requires |service| >= cfg.maxRetries
    requires apiKey != PlaceholderKey
    ensures StartupSpec(cfg, apiKey, model, service).modelWarning <==> model !in SupportedModels
    ensures StartupSpec(cfg, apiKey, model, service).outcome == ProbeSpec(cfg, service).result
    ensures StartupSpec(cfg, apiKey, model, service).outcome != Exit(PlaceholderApiKey)
  {
    var steps := ProbeSteps(cfg, service, cfg.maxRetries);
    var t := Run(steps, Exit(NotEstablished), 0);
    RunShape(steps, Exit(NotEstablished));
    ProbeStepsFacts(cfg, service);
    if 0 < t.attempts && steps[t.attempts - 1].Finish? {
      assert steps[t.attempts - 1] != Finish(Exit(PlaceholderApiKey));
      assert t.result == steps[t.attempts - 1].r;
    }
  }

  /** With the configured model, a real key starts the probe without the unsupported-model warning. */
  lemma DefaultModelSupported(cfg: RetryConfig, apiKey: string, service: seq<Attempt>)
    requires |service| >= cfg.maxRetries
    requires apiKey != PlaceholderKey
    ensures DefaultModel in SupportedModels
    ensures !StartupSpec(cfg, apiKey, DefaultModel, service).modelWarning
    ensures StartupSpec(cfg, apiKey, DefaultModel, service).outcome == ProbeSpec(cfg, service).result
  {
    RealKeyProbes(cfg, apiKey, DefaultModel, service);
  }

  // Characters "Invalid response structure from API" lacks, one fact per lemma
  // (kept apart for the same reason as in module Retry).
  lemma InvalidLacksFour() ensures '4' !in InvalidStructureMessage {}
  lemma InvalidLacksLowerQ() ensures 'q' !in InvalidStructureMessage {}
  lemma InvalidLacksUpperQ() ensures 'Q' !in InvalidStructureMessage {}
  lemma InvalidLacksLowerZ() ensures 'z' !in InvalidStructureMessage {}
  lemma InvalidLacksUpperZ() ensures 'Z' !in InvalidStructureMessage {}
  lemma InvalidOneF()
    ensures InvalidStructureMessage[27] == 'f'
    ensures 'f' !in InvalidStructureMessage[..27] && 'F' !in InvalidStructureMessage[..27]
    ensures 'f' !in InvalidStructureMessage[28..] && 'F' !in InvalidStructureMessage[28..]
  {}

  lemma InvalidNotRateLimit()
    ensures !Text.Contains(Text.Lower(InvalidStructureMessage), "429")
    ensures !Text.Contains(Text.Lower(InvalidStructureMessage), "too many requests")
  {
    InvalidLacksFour();
    InvalidLacksLowerQ();
    InvalidLacksUpperQ();
    Text.MissingCharLower(InvalidStructureMessage, "429", '4');
    Text.MissingCharLower(InvalidStructureMessage, "too many requests", 'q');
  }

  lemma InvalidNotUnauthorized()
    ensures !Text.Contains(Text.Lower(InvalidStructureMessage), "401")
    ensures !Text.Contains(Text.Lower(InvalidStructureMessage), "unauthorized")
  {
    InvalidLacksFour();
    InvalidLacksLowerZ();
    InvalidLacksUpperZ();
    Text.MissingCharLower(InvalidStructureMessage, "401", '4');
    Text.MissingCharLower(InvalidStructureMessage, "unauthorized", 'z');
  }

  lemma InvalidNotNotFound()
    ensures !Text.Contains(Text.Lower(InvalidStructureMessage), "404")
    ensures !Text.Contains(Text.Lower(InvalidStructureMessage), "not found")
  {
    InvalidLacksFour();
    Text.MissingCharLower(InvalidStructureMessage, "404", '4');
    InvalidLacksNotFound();
  }

  /** The only `f` of the message is not preceded by "not ", so "not found" is not in it. */
  lemma InvalidLacksNotFound()
    ensures !Text.Contains(Text.Lower(InvalidStructureMessage), "not found")
  {
    InvalidOneF();
    InvalidNoNBeforeF();
    LoneFNotFound(InvalidStructureMessage, 27);
  }

  lemma InvalidNoNBeforeF()
    ensures Text.Lower(InvalidStructureMessage)[23] != 'n'
  {
    assert Text.Lower(InvalidStructureMessage)[23] == Text.LowerChar(InvalidStructureMessage[23]) == 'u';
  }

  /** The probe's own "invalid response" exception takes the generic branch. */
  lemma InvalidStructureIsOtherError()
    ensures Classify(InvalidStructureMessage) == OtherError
  {
    InvalidNotRateLimit();
    InvalidNotUnauthorized();
    InvalidNotNotFound();
    NoKeywordIsOtherError(InvalidStructureMessage);
  }

  /** An empty or missing reply is retried, except on the last attempt, where it ends the program. */
  lemma EmptyReplyIsGenericFailure(cfg: RetryConfig, attempt: nat, a: Attempt)
    requires a.Reply? && (a.choices == [] || a.choices[0] == None || a.choices[0] == Some(""))
    ensures ProbeStep(cfg, attempt, a)
      == if attempt < cfg.maxRetries - 1 then Sleep(Backoff(cfg, attempt)) else Finish(Exit(AllAttemptsFailed))
  {
    InvalidStructureIsOtherError();
    assert ReadProbe(a) == Failed(InvalidStructureMessage);
    GenericFailure(cfg, attempt, InvalidStructureMessage);
  }

  /** An exception of no known kind is retried, except on the last attempt. */
  lemma GenericFailure(cfg: RetryConfig, attempt: nat, m: string)
    requires Classify(m) == OtherError
    ensures ProbeFailure(cfg, attempt, m)
      == if attempt < cfg.maxRetries - 1 then Sleep(Backoff(cfg, attempt)) else Finish(Exit(AllAttemptsFailed))
  {
  }
}
