/**
 The model client's circuit breakers: one per provider, opened by consecutive transient
 failures, probed again after a reset window.
 */
module Breaker {
  import opened Results

  /** The monotonic clock, in seconds. */
  type Time = real

  datatype Settings = Settings(failThreshold: int, resetS: int)

  datatype Reply = Success | Transient | Permanent | Unexpected

  /** One completion: when it began, what the provider would answer, and when that was recorded. */
  datatype Call = Call(start: Time, reply: Reply, end: Time)

  datatype BreakerState = BreakerState(failures: nat, openedAt: Option<Time>)

  const FRESH := BreakerState(0, None)

  predicate IsOpen(s: Settings, b: BreakerState, now: Time) {
    b.openedAt.Some? && now - b.openedAt.value < s.resetS as real
  }

  function AfterFailure(s: Settings, b: BreakerState, now: Time): BreakerState {
    BreakerState(b.failures + 1, if b.failures + 1 >= s.failThreshold then Some(now) else b.openedAt)
  }

  /** A call that finds the circuit open never reaches the provider. */
  function AfterCall(s: Settings, b: BreakerState, c: Call): BreakerState {
    if IsOpen(s, b, c.start) then b else
    match c.reply
    case Success => FRESH
    case Transient => AfterFailure(s, b, c.end)
    case Permanent => b
    case Unexpected => b
  }

  /** The breaker after the first n calls to its provider. */
  function After(s: Settings, calls: seq<Call>, n: nat): BreakerState
    requires n <= |calls|
  {
    if n == 0 then FRESH else AfterCall(s, After(s, calls, n - 1), calls[n - 1])
  }

  /* ---------- the client ---------- */

  datatype CallRecord = CallRecord(provider: string, outcome: Reply)

  datatype Answer = Answered | TransientError | PermanentError | UnexpectedError | CircuitOpen

  function SlashAt(model: string): (i: nat)
    ensures i <= |model| && (i < |model| ==> model[i] == '/') && '/' !in model[..i]
  {
    if model == "" || model[0] == '/' then 0 else
      var i := 1 + SlashAt(model[1..]);
      assert model[..i] == [model[0]] + model[1..][..i - 1];
      i
  }

  function ProviderOf(model: string): string {
    if SlashAt(model) < |model| then model[..SlashAt(model)] else "unknown"
  }

  type Breakers = map<string, BreakerState>

  function StateOf(m: Breakers, provider: string): BreakerState { if provider in m then m[provider] else FRESH }

  function AfterComplete(s: Settings, m: Breakers, provider: string, c: Call): Breakers {
    m[provider := AfterCall(s, StateOf(m, provider), c)]
  }

  function AnswerOf(s: Settings, b: BreakerState, c: Call): Answer {
    if IsOpen(s, b, c.start) then CircuitOpen else
    match c.reply
    case Success => Answered
    case Transient => TransientError
    case Permanent => PermanentError
    case Unexpected => UnexpectedError
  }

  lemma {:induction false} OpenStays(s: Settings, b: BreakerState, c: Call)
    ensures IsOpen(s, b, c.start) <==> AnswerOf(s, b, c) == CircuitOpen
    ensures IsOpen(s, b, c.start) ==> AfterCall(s, b, c) == b
  {
  }

  class CircuitBreaker {
    const settings: Settings
    var consecutiveFailures: nat
    var openedAt: Option<Time>

    constructor (settings: Settings)
      ensures this.settings == settings && State() == FRESH
    {
      this.settings := settings;
      consecutiveFailures, openedAt := 0, None;
    }

    function State(): BreakerState
      reads this
    {
      BreakerState(consecutiveFailures, openedAt)
    }

    predicate Open(now: Time)
      reads this
      ensures Open(now) <==> IsOpen(settings, State(), now)
    {
      if openedAt.None? then false else now - openedAt.value < settings.resetS as real
    }

    method RecordSuccess()
      modifies this
      ensures State() == FRESH
    {
      consecutiveFailures, openedAt := 0, None;
    }

    method RecordFailure(now: Time)
      modifies this
      ensures State() == AfterFailure(settings, old(State()), now)
    {
      consecutiveFailures := consecutiveFailures + 1;
      if consecutiveFailures >= settings.failThreshold { openedAt := Some(now); }
    }
  }

  class LLMClient {
    const settings: Settings
    var breakers: map<string, CircuitBreaker>
    var callLog: seq<CallRecord>

    /** No two providers share a breaker. */
    ghost predicate Valid()
      reads this
    {
      && (forall p | p in breakers :: breakers[p].settings == settings)
      && (forall p, q | p in breakers && q in breakers && p != q :: breakers[p] != breakers[q])
    }

    ghost function States(): Breakers
      reads this, breakers.Values
    {
      map p | p in breakers :: breakers[p].State()
    }

    constructor (settings: Settings)
      ensures Valid() && this.settings == settings && States() == map[] && callLog == []
      ensures breakers == map[]
    {
      this.settings := settings;
      breakers, callLog := map[], [];
    }

    method BreakerFor(provider: string) returns (b: CircuitBreaker)
      requires Valid()
      modifies this`breakers
      ensures Valid() && provider in breakers && breakers[provider] == b
      ensures b.State() == StateOf(old(States()), provider)
      ensures States() == old(States())[provider := b.State()]
      ensures provider in old(breakers) ==> breakers == old(breakers)
      ensures provider !in old(breakers) ==> fresh(b) && breakers == old(breakers)[provider := b]
    {
      if provider !in breakers {
        var created := new CircuitBreaker(settings);
        breakers := breakers[provider := created];
      }
      b := breakers[provider];
    }

    method Complete(model: string, c: Call) returns (answer: Answer)
      requires Valid()
      modifies this, breakers.Values
      ensures Valid() && fresh(breakers.Values - old(breakers.Values))
      ensures States() == AfterComplete(settings, old(States()), ProviderOf(model), c)
      ensures answer == AnswerOf(settings, StateOf(old(States()), ProviderOf(model)), c)
      ensures callLog == old(callLog)
                + if answer == CircuitOpen || answer == UnexpectedError then []
                    else [CallRecord(ProviderOf(model), c.reply)]
    {
      hide AfterCall, AnswerOf, IsOpen, StateOf, ProviderOf;
      var provider := ProviderOf(model);
      var breaker := BreakerFor(provider);
      ghost var b := breaker.State();
      OpenStays(settings, b, c);
      if breaker.Open(c.start) { return CircuitOpen; }
      answer := Settle(provider, breaker, c);
    }

    /** What a call that reached the provider does to its breaker, and to no other. */
    method Settle(provider: string, breaker: CircuitBreaker, c: Call) returns (answer: Answer)
      requires Valid() && provider in breakers && breakers[provider] == breaker
      requires !IsOpen(settings, breaker.State(), c.start)
      modifies this`callLog, breaker
      ensures Valid() && States() == old(States())[provider := AfterCall(settings, old(breaker.State()), c)]
      ensures answer == AnswerOf(settings, old(breaker.State()), c)
      ensures callLog == old(callLog) + if answer == UnexpectedError then [] else [CallRecord(provider, c.reply)]
    {
      match c.reply {
        case Unexpected =>
          return UnexpectedError;
        case Transient =>
          breaker.RecordFailure(c.end);
          callLog := callLog + [CallRecord(provider, Transient)];
          return TransientError;
        case Permanent =>
          callLog := callLog + [CallRecord(provider, Permanent)];
          return PermanentError;
        case Success =>
          breaker.RecordSuccess();
          callLog := callLog + [CallRecord(provider, Success)];
          return Answered;
      }
    }
  }
}
