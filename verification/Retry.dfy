/** Exponential backoff with a cap and jitter. Durations are whole nanoseconds; the
    intermediate values are real numbers. */
module Backoff {
  import opened Clock

  function Pow(base: real, exponent: nat): real
  {
    if exponent == 0 then 1.0 else base * Pow(base, exponent - 1)
  }

  /** Parameters of a backoff; `initial` and `max` are durations. */
  datatype Params = Params(initial: int, max: int, multiplier: real)

  predicate Positive(p: Params)
  {
    0 < p.initial && 0 < p.max && 0.0 < p.multiplier
  }

  /** The exponential value before jitter, capped. */
  function Base(p: Params, attempt: nat): real
    requires 1 <= attempt
  {
    Cap(p.initial as real * Pow(p.multiplier, attempt - 1), p.max as real)
  }

  function Cap(backoff: real, max: real): real
  {
    if backoff > max then max else backoff
  }

  /** The clock's nanoseconds modulo 100 pick one of a hundred jitter slots. */
  function Slot(nanos: nat): nat
  {
    nanos % 100
  }

  /** The wait before a retry: jitter is applied after the cap, then truncated. */
  function Wait(p: Params, attempt: nat, nanos: nat): int
    requires 1 <= attempt
  {
    Jittered(Base(p, attempt), Slot(nanos))
  }

  function Jittered(backoff: real, slot: nat): int
  {
    var jitter := backoff * 0.25;
    (backoff - jitter + 2.0 * jitter * slot as real / 100.0).Floor
  }

  /** No wait is longer: 1.245 times the configured maximum. */
  function Longest(p: Params): (bound: real)
    ensures 0 <= p.max ==> 0.0 <= bound
  {
    1.245 * p.max as real
  }

  ghost predicate IsWait(p: Params, attempt: nat, wait: int)
    requires 1 <= attempt
  {
    exists nanos: nat :: wait == Wait(p, attempt, nanos)
  }

  /** The waits before retries 1, 2, and so on. */
  ghost predicate AreWaits(p: Params, waits: seq<int>)
  {
    forall k :: 0 <= k < |waits| ==> IsWaitAt(p, waits, k)
  }

  ghost predicate IsWaitAt(p: Params, waits: seq<int>, k: nat)
    requires k < |waits|
  {
    IsWait(p, k + 1, waits[k])
  }

  lemma NextWait(p: Params, waits: seq<int>, nanos: nat)
    requires AreWaits(p, waits)
    ensures AreWaits(p, waits + [Wait(p, |waits| + 1, nanos)])
  {
    var next := waits + [Wait(p, |waits| + 1, nanos)];
    assert IsWaitAt(p, next, |waits|);
    forall k | 0 <= k < |waits| ensures IsWaitAt(p, next, k) {
      assert IsWaitAt(p, waits, k);
    }
  }

  lemma {:induction false} PowPositive(base: real, exponent: nat)
    requires 0.0 < base
    ensures 0.0 < Pow(base, exponent)
  {
    if exponent != 0 {
      PowPositive(base, exponent - 1);
    }
  }

  lemma BaseInRange(p: Params, attempt: nat)
    requires Positive(p) && 1 <= attempt
    ensures 0.0 < Base(p, attempt) <= p.max as real
  {
    PowPositive(p.multiplier, attempt - 1);
  }

  function Scaled(backoff: real, slot: real): real
  {
    backoff * (150.0 + slot) / 200.0
  }

  /** The wait in closed form: (150 + slot) / 200 of the base, truncated. */
  lemma JitterInSlots(backoff: real, slot: nat)
    ensures Jittered(backoff, slot) == Scaled(backoff, slot as real).Floor
  {
    var s := slot as real;
    assert backoff - backoff * 0.25 + 2.0 * (backoff * 0.25) * s / 100.0 == backoff * (150.0 + s) / 200.0;
  }

  lemma ScaleBounds(b: real, s: real)
    requires 0.0 < b && 0.0 <= s <= 99.0
    ensures 0.75 * b <= Scaled(b, s) <= 1.245 * b
  {
    var x := b * s;
    assert b * (150.0 + s) == 150.0 * b + x;
    assert 0.0 <= x <= b * 99.0;
  }

  lemma FloorBounds(x: real, lo: real, hi: real)
    requires lo <= x <= hi
    ensures lo.Floor <= x.Floor && x.Floor as real <= hi
  {
  }

  lemma JitterBounds(backoff: real, slot: nat)
    requires 0.0 < backoff && slot < 100
    ensures (0.75 * backoff).Floor <= Jittered(backoff, slot)
    ensures Jittered(backoff, slot) as real <= 1.245 * backoff
  {
    JitterInSlots(backoff, slot);
    ScaleBounds(backoff, slot as real);
    FloorBounds(Scaled(backoff, slot as real), 0.75 * backoff, 1.245 * backoff);
  }

  /** Every wait is between three quarters of the capped value, truncated, and 1.245 times it. */
  lemma WaitBounds(p: Params, attempt: nat, nanos: nat)
    requires Positive(p) && 1 <= attempt
    ensures (0.75 * Base(p, attempt)).Floor <= Wait(p, attempt, nanos)
    ensures Wait(p, attempt, nanos) as real <= 1.245 * Base(p, attempt) <= 1.245 * p.max as real
  {
    BaseInRange(p, attempt);
    JitterBounds(Base(p, attempt), Slot(nanos));
  }

  lemma IsWaitBound(p: Params, attempt: nat, wait: int)
    requires Positive(p) && 1 <= attempt && IsWait(p, attempt, wait)
    ensures wait as real <= Longest(p)
  {
    var nanos: nat :| wait == Wait(p, attempt, nanos);
    WaitBounds(p, attempt, nanos);
  }

  lemma ScaleUp(x: real, power: real, m: real)
    requires 0.0 <= x && 0.0 <= power && 1.0 <= m
    ensures x * power <= x * (m * power)
  {
    assert power <= m * power by {
      assert (m - 1.0) * power >= 0.0;
    }
    assert x * (m * power - power) >= 0.0;
  }

  lemma CapStep(x: real, power: real, m: real, max: real)
    requires 0.0 <= x && 0.0 <= power && 1.0 <= m
    ensures Cap(x * power, max) <= Cap(x * (m * power), max)
  {
    ScaleUp(x, power, m);
  }

  lemma BaseStep(p: Params, attempt: nat)
    requires Positive(p) && 1.0 <= p.multiplier && 1 <= attempt
    ensures Base(p, attempt) <= Base(p, attempt + 1)
  {
    PowPositive(p.multiplier, attempt - 1);
    CapStep(p.initial as real, Pow(p.multiplier, attempt - 1), p.multiplier, p.max as real);
  }

  /** The capped value does not decrease from one attempt to a later one. */
  lemma {:induction false} BaseMonotone(p: Params, attempt: nat, later: nat)
    requires Positive(p) && 1.0 <= p.multiplier && 1 <= attempt <= later
    ensures Base(p, attempt) <= Base(p, later)
    decreases later - attempt
  {
    if attempt < later {
      BaseMonotone(p, attempt, later - 1);
      BaseStep(p, later - 1);
    }
  }

  /** A wait respects the configured maximum exactly when its jitter slot is small enough for
      the capped value. */
  lemma WaitWithinMaxExactlyWhen(p: Params, attempt: nat, nanos: nat)
    requires 1 <= attempt
    ensures Wait(p, attempt, nanos) <= p.max <==>
              Base(p, attempt) * (150.0 + Slot(nanos) as real) < 200.0 * (p.max + 1) as real
  {
    JitterInSlots(Base(p, attempt), Slot(nanos));
  }

  /** A capped value leaves room for the largest jitter. */
  predicate LeavesRoom(p: Params, attempt: nat)
    requires 1 <= attempt
  {
    Base(p, attempt) * 249.0 < 200.0 * (p.max + 1) as real
  }

  lemma SlotLeavesRoom(base: real, slot: real, bound: real)
    requires 0.0 < base && slot <= 99.0 && base * 249.0 < bound
    ensures base * (150.0 + slot) < bound
  {
    assert 0.0 <= base * (99.0 - slot);
  }

  lemma WaitWithinMax(p: Params, attempt: nat, nanos: nat)
    requires Positive(p) && 1 <= attempt && LeavesRoom(p, attempt)
    ensures Wait(p, attempt, nanos) <= p.max
  {
    BaseInRange(p, attempt);
    SlotLeavesRoom(Base(p, attempt), Slot(nanos) as real, 200.0 * (p.max + 1) as real);
    WaitWithinMaxExactlyWhen(p, attempt, nanos);
  }

  /** The configured maximum is not a maximum. Whatever the clock shows, the waits before a
      retry respect it exactly when the capped value leaves room for the largest jitter. */
  lemma EveryWaitWithinMaxExactlyWhen(p: Params, attempt: nat)
    requires Positive(p) && 1 <= attempt
    ensures (forall nanos: nat :: Wait(p, attempt, nanos) <= p.max) <==> LeavesRoom(p, attempt)
  {
    WaitWithinMaxExactlyWhen(p, attempt, 99);
    if LeavesRoom(p, attempt) {
      forall nanos: nat ensures Wait(p, attempt, nanos) <= p.max {
        WaitWithinMax(p, attempt, nanos);
      }
    }
  }

  /** Before any of the first `retries` retries, and whatever the clock shows, the wait respects
      the configured maximum. */
  ghost predicate StaysWithinMax(p: Params, retries: int)
  {
    forall attempt: nat, nanos: nat :: 1 <= attempt <= retries ==> Wait(p, attempt, nanos) <= p.max
  }

  lemma ScaleDown(x: real, power: real, m: real)
    requires 0.0 <= x && 0.0 <= power && m <= 1.0
    ensures x * (m * power) <= x * power
  {
    assert m * power <= power by {
      assert (1.0 - m) * power >= 0.0;
    }
    assert x * (power - m * power) >= 0.0;
  }

  lemma CapStepDown(x: real, power: real, m: real, max: real)
    requires 0.0 <= x && 0.0 <= power && m <= 1.0
    ensures Cap(x * (m * power), max) <= Cap(x * power, max)
  {
    ScaleDown(x, power, m);
  }

  lemma BaseStepDown(p: Params, attempt: nat)
    requires Positive(p) && p.multiplier <= 1.0 && 1 <= attempt
    ensures Base(p, attempt + 1) <= Base(p, attempt)
  {
    PowPositive(p.multiplier, attempt - 1);
    CapStepDown(p.initial as real, Pow(p.multiplier, attempt - 1), p.multiplier, p.max as real);
  }

  lemma {:induction false} BaseAtMostFirst(p: Params, attempt: nat)
    requires Positive(p) && p.multiplier <= 1.0 && 1 <= attempt
    ensures Base(p, attempt) <= Base(p, 1)
  {
    if 1 < attempt {
      BaseAtMostFirst(p, attempt - 1);
      BaseStepDown(p, attempt - 1);
    }
  }

  /** For every accepted configuration: all the waits of a request or of a heartbeat round
      respect the maximum exactly when the capped values of the first and of the last retry
      leave room for the jitter. With a multiplier of at least 1 the last retry decides. */
  lemma StaysWithinMaxExactlyWhen(p: Params, retries: int)
    requires Positive(p)
    ensures StaysWithinMax(p, retries) <==> retries < 1 || (LeavesRoom(p, 1) && LeavesRoom(p, retries))
    ensures 1.0 <= p.multiplier && 1 <= retries ==> (StaysWithinMax(p, retries) <==> LeavesRoom(p, retries))
  {
    if 1 <= retries {
      EveryWaitWithinMaxExactlyWhen(p, 1);
      EveryWaitWithinMaxExactlyWhen(p, retries);
      if 1.0 <= p.multiplier {
        BaseMonotone(p, 1, retries);
      }
      if LeavesRoom(p, 1) && LeavesRoom(p, retries) {
        forall attempt: nat, nanos: nat | 1 <= attempt <= retries
          ensures Wait(p, attempt, nanos) <= p.max
        {
          RetryWithinMax(p, attempt, retries);
        }
      }
    }
  }

  lemma RetryWithinMax(p: Params, attempt: nat, retries: nat)
    requires Positive(p) && 1 <= attempt <= retries
    requires LeavesRoom(p, 1) && LeavesRoom(p, retries)
    ensures forall nanos: nat :: Wait(p, attempt, nanos) <= p.max
  {
    if 1.0 <= p.multiplier {
      BaseMonotone(p, attempt, retries);
    } else {
      BaseAtMostFirst(p, attempt);
    }
    assert LeavesRoom(p, attempt);
    forall nanos: nat ensures Wait(p, attempt, nanos) <= p.max {
      WaitWithinMax(p, attempt, nanos);
    }
  }

  /** The client's default backoff, and the heartbeat's. */
  const CLIENT_BACKOFF := Params(100 * MILLISECOND, 30 * SECOND, 2.0)
  const HEARTBEAT_BACKOFF := Params(1 * SECOND, 5 * MINUTE, 2.0)

  lemma PowersOfTwo()
    ensures Pow(2.0, 7) == 128.0 && Pow(2.0, 8) == 256.0 && Pow(2.0, 9) == 512.0
  {
    assert Pow(2.0, 3) == 8.0;
    assert Pow(2.0, 6) == 64.0;
  }

  /** Both keep to their maximum exactly up to eight retries; so with the three retries both
      are shipped with, they do. */
  lemma ShippedBackoffsStayWithinMax(p: Params, retries: int)
    requires p == CLIENT_BACKOFF || p == HEARTBEAT_BACKOFF
    ensures StaysWithinMax(p, retries) <==> retries <= 8
  {
    PowersOfTwo();
    assert LeavesRoom(p, 8) && !LeavesRoom(p, 9);
    if 1 <= retries <= 8 {
      BaseMonotone(p, retries, 8);
    } else if 9 <= retries {
      BaseMonotone(p, 9, retries);
    }
    StaysWithinMaxExactlyWhen(p, retries);
  }
}

/** A request with retries. */
module RequestRetry {
  import opened Clock
  import opened Wrappers
  import opened Backoff

  datatype RetryConfig = RetryConfig(maxRetries: int, backoff: Params, retryableStatusCodes: set<int>)

  function DefaultRetryConfig(): RetryConfig
  {
    RetryConfig(3, CLIENT_BACKOFF, {408, 429, 500, 502, 503, 504})
  }

  /** A provided configuration merged with the defaults; `None` codes are the nil map. */
  function MergedConfig(maxRetries: int, backoff: Params, codes: Option<set<int>>): (config: RetryConfig)
    ensures Positive(config.backoff) && 0 < config.maxRetries
    ensures 0 < maxRetries ==> config.maxRetries == maxRetries
    ensures 0 < backoff.initial ==> config.backoff.initial == backoff.initial
    ensures 0 < backoff.max ==> config.backoff.max == backoff.max
    ensures 0.0 < backoff.multiplier ==> config.backoff.multiplier == backoff.multiplier
    ensures codes.Some? ==> config.retryableStatusCodes == codes.value
    ensures maxRetries <= 0 && backoff == Params(0, 0, 0.0) && codes.None? ==> config == DefaultRetryConfig()
  {
    var d := DefaultRetryConfig();
    RetryConfig(
      if 0 < maxRetries then maxRetries else d.maxRetries,
      Params(if 0 < backoff.initial then backoff.initial else d.backoff.initial,
             if 0 < backoff.max then backoff.max else d.backoff.max,
             if 0.0 < backoff.multiplier then backoff.multiplier else d.backoff.multiplier),
      if codes.Some? then codes.value else d.retryableStatusCodes)
  }

  /** A configuration the client accepts under which a wait exceeds the maximum: ten retries,
      all else default. The wait before the tenth can be 37.35 s, the maximum being 30 s. */
  lemma WaitCanExceedMax()
    ensures var config := MergedConfig(10, Params(0, 0, 0.0), None);
            && config.maxRetries == 10 && config.backoff == CLIENT_BACKOFF
            && Wait(config.backoff, config.maxRetries, 99) == 37_350 * MILLISECOND > config.backoff.max
  {
    PowersOfTwo();
    JitterInSlots(Base(CLIENT_BACKOFF, 10), 99);
  }

  /** Without a configuration of its own, no request waits longer than the maximum. */
  lemma DefaultsStayWithinMax()
    ensures StaysWithinMax(DefaultRetryConfig().backoff, DefaultRetryConfig().maxRetries)
  {
    ShippedBackoffsStayWithinMax(CLIENT_BACKOFF, DefaultRetryConfig().maxRetries);
  }

  datatype SendError = APIError(statusCode: int) | RequestError | OtherError

  datatype SendResult = Success | Failure(error: SendError)

  predicate IsRetryable(config: RetryConfig, error: SendError)
  {
    match error
    case APIError(code) => code in config.retryableStatusCodes
    case RequestError => true
    case OtherError => false
  }

  predicate IsRetryableFailure(config: RetryConfig, r: SendResult)
  {
    r.Failure? && IsRetryable(config, r.error)
  }

  /** What `doRequest` returns: nil, the error of a send, the wrapped last error (none if there
      was no send), or the context's error. */
  datatype Outcome = Nil | Aborted(error: SendError) | Exhausted(last: Option<SendError>) | ContextDone

  /** The network: every send made, in order, with its arbitrary result. */
  class Transport {
    var sends: seq<SendResult>

    constructor ()
      ensures sends == []
    {
      sends := [];
    }

    method ExecuteRequest() returns (r: SendResult)
      modifies this
      ensures sends == old(sends) + [r]
    {
      r := *;
      sends := sends + [r];
    }
  }

  function Last<T>(xs: seq<T>): T
    requires xs != []
  {
    xs[|xs| - 1]
  }

  /** What a call's sends, the number of waits between them and its outcome look like together.
      A request that was sent at least once and fails short of its last retry does so only
      because of a non-retryable error or a done context. */
  ghost predicate RequestTrace(config: RetryConfig, made: seq<SendResult>, waits: nat, outcome: Outcome)
  {
    && |made| <= (if config.maxRetries < 0 then 0 else config.maxRetries + 1)
    && (forall i :: 0 <= i < |made| - 1 ==> IsRetryableFailure(config, made[i]))
    && (outcome.Nil? <==> made != [] && Last(made).Success?)
    && (outcome.Aborted? ==> made != [] && Last(made) == Failure(outcome.error) && !IsRetryable(config, outcome.error))
    && (outcome.Exhausted? || outcome.ContextDone? ==> made == [] || IsRetryableFailure(config, Last(made)))
    && (outcome.Exhausted? ==>
          && |made| == (if config.maxRetries < 0 then 0 else config.maxRetries + 1)
          && (if made == [] then outcome.last.None? else outcome.last == Some(Last(made).error)))
    && (outcome.ContextDone? ==> 0 < |made| <= config.maxRetries)
    && waits == (if made == [] then 0 else if outcome.ContextDone? then |made| else |made| - 1)
  }

  /** Which failures are retried: those of the network, and answers with one of the configured
      status codes. So every send but the last failed in one of these ways, and a request is
      aborted by exactly the others. */
  lemma RetriesByCode(config: RetryConfig, made: seq<SendResult>, waits: nat, outcome: Outcome)
    requires RequestTrace(config, made, waits, outcome)
    ensures forall i :: 0 <= i < |made| - 1 || (0 <= i < |made| && (outcome.Exhausted? || outcome.ContextDone?)) ==>
              && made[i].Failure?
              && (made[i].error.RequestError?
                  || (made[i].error.APIError? && made[i].error.statusCode in config.retryableStatusCodes))
    ensures outcome.Aborted? ==>
              && made != [] && made[|made| - 1] == Failure(outcome.error)
              && (outcome.error.OtherError?
                  || (outcome.error.APIError? && outcome.error.statusCode !in config.retryableStatusCodes))
    ensures outcome.Nil? <==> made != [] && made[|made| - 1] == Success
    ensures 0 <= config.maxRetries ==> 0 < |made| <= config.maxRetries + 1
  {
  }

  /** The codes retried unless configured otherwise. */
  lemma DefaultCodes(code: int)
    ensures IsRetryable(DefaultRetryConfig(), APIError(code)) <==>
              code == 408 || code == 429 || code == 500 || 502 <= code <= 504
  {
  }

  /** The retry loop. The context may be done, and the clock may show anything, whenever they
      are looked at. */
  method DoRequest(config: RetryConfig, transport: Transport) returns (outcome: Outcome, ghost waits: seq<int>)
    modifies transport
    ensures old(transport.sends) <= transport.sends
    ensures RequestTrace(config, transport.sends[|old(transport.sends)|..], |waits|, outcome)
    ensures AreWaits(config.backoff, waits)
  {
    ghost var made: seq<SendResult> := [];
    var lastErr: Option<SendError> := None;
    waits := [];
    var attempt := 0;
    while attempt <= config.maxRetries
      invariant 0 <= attempt <= (if config.maxRetries < 0 then 0 else config.maxRetries + 1)
      invariant transport.sends == old(transport.sends) + made
      invariant |made| == attempt && (attempt == 0 ==> waits == []) && (0 < attempt ==> |waits| == attempt - 1)
      invariant forall i :: 0 <= i < |made| ==> IsRetryableFailure(config, made[i])
      invariant if made == [] then lastErr.None? else lastErr == Some(Last(made).error)
      invariant AreWaits(config.backoff, waits)
      decreases config.maxRetries - attempt
    {
      if 0 < attempt {
        var nanos: nat := *;
        NextWait(config.backoff, waits, nanos);
        waits := waits + [Wait(config.backoff, attempt, nanos)];
        var done: bool := *;
        if done {
          return ContextDone, waits;
        }
      }
      var r := transport.ExecuteRequest();
      made := made + [r];
      if r.Success? {
        return Nil, waits;
      }
      lastErr := Some(r.error);
      if !IsRetryable(config, r.error) {
        return Aborted(r.error), waits;
      }
      attempt := attempt + 1;
    }
    return Exhausted(lastErr), waits;
  }

  function Total(waits: seq<int>): int
  {
    if waits == [] then 0 else Total(waits[..|waits| - 1]) + Last(waits)
  }

  ghost predicate AllAtMost(waits: seq<int>, bound: real)
  {
    forall k :: 0 <= k < |waits| ==> waits[k] as real <= bound
  }

  lemma {:induction false} TotalWithin(waits: seq<int>, bound: real, count: nat)
    requires 0.0 <= bound && |waits| <= count && AllAtMost(waits, bound)
    ensures Total(waits) as real <= bound * count as real
    decreases count
  {
    if count == 0 {
      assert waits == [];
    } else {
      assert bound * count as real == bound * (count - 1) as real + bound;
      TotalWithin(if waits == [] then waits else waits[..|waits| - 1], bound, count - 1);
    }
  }

  /** No wait of a request or a heartbeat round is longer than 1.245 times the maximum. */
  lemma WaitsBounded(p: Params, waits: seq<int>)
    requires Positive(p) && AreWaits(p, waits)
    ensures forall k :: 0 <= k < |waits| ==> waits[k] as real <= 1.245 * p.max as real
    ensures AllAtMost(waits, Longest(p))
  {
    forall k | 0 <= k < |waits| ensures waits[k] as real <= Longest(p) {
      assert IsWaitAt(p, waits, k);
      IsWaitBound(p, k + 1, waits[k]);
    }
  }

  lemma SleepWithin(p: Params, waits: seq<int>, count: nat)
    requires Positive(p) && AreWaits(p, waits) && |waits| <= count
    ensures Total(waits) as real <= Longest(p) * count as real
  {
    WaitsBounded(p, waits);
    TotalWithin(waits, Longest(p), count);
  }

  /** All the sleeping of one request is at most the number of retries times the longest wait. */
  lemma TotalSleepBound(config: RetryConfig, made: seq<SendResult>, waits: seq<int>, outcome: Outcome)
    requires Positive(config.backoff) && 0 <= config.maxRetries
    requires RequestTrace(config, made, |waits|, outcome) && AreWaits(config.backoff, waits)
    ensures Total(waits) as real <= 1.245 * config.backoff.max as real * config.maxRetries as real
  {
    SleepWithin(config.backoff, waits, config.maxRetries);
  }
}
