/** Retrying with backoff, and failing over between gateways (js/storage/ipfs.js, js/core/refusals.js). */
module Retry {
  import opened Numbers
  import opened PlainObject
  import opened Validate
  import opened Wrappers

  // ----- Which failures are worth another attempt -----

  datatype Failure = Failure(isAbort: bool, code: Option<string>, status: Option<int>, retryAfterMs: Option<nat>)

  const ABORTED := Failure(true, None, None, None)

  const WORTH_A_RETRY: set<string> := {"rate_limited", "busy"}

  const NOT_WORTH_A_RETRY: set<string> := {"client_quota", "gateway_budget", "unauthorized", "forbidden", "bad_request"}

  /**
   * Whether a refusal code says to try again; `None` for a code the table has nothing under.  The table is a plain
   * object: what is inherited is advice without the word to retry.
   */
  function RefusalAdvice(code: Option<string>): Option<bool> {
    if code.None? then None
    else if code.value in WORTH_A_RETRY then Some(true)
    else if code.value in NOT_WORTH_A_RETRY || code.value in INHERITED then Some(false)
    else None
  }

  predicate IsRetryable(e: Failure) {
    if e.isAbort then false
    else if RefusalAdvice(e.code).Some? then RefusalAdvice(e.code).value
    else if e.status.Some? then e.status.value == 408 || e.status.value == 429 || e.status.value >= 500
    else true
  }

  /**
   * Which codes stop a retry that the failure would get without one: exactly those that say so, and every name a plain
   * object inherits, which no gateway means as advice.
   */
  lemma CodesThatStopRetries(e: Failure, code: string)
    requires IsRetryable(e.(code := None))
    ensures !IsRetryable(e.(code := Some(code))) <==> code in NOT_WORTH_A_RETRY + INHERITED
  {
    assert WORTH_A_RETRY !! NOT_WORTH_A_RETRY + INHERITED;
  }

  /** Which codes gain a retry the failure would not get without one: only those that say so, and never an abort. */
  lemma CodesThatGainRetries(e: Failure, code: string)
    requires !IsRetryable(e.(code := None))
    ensures IsRetryable(e.(code := Some(code))) <==> !e.isAbort && code in WORTH_A_RETRY
  {
  }

  /** Which failures get another attempt, case by case: what the code says goes before what the status says. */
  lemma RetryableExactly(e: Failure)
    ensures IsRetryable(e) <==>
      !e.isAbort
      && (e.code == Some("rate_limited") || e.code == Some("busy")
          || ((e.code.None?
               || e.code.value !in {"client_quota", "gateway_budget", "unauthorized", "forbidden", "bad_request"}
                  + INHERITED)
              && (e.status.None? || e.status == Some(408) || e.status == Some(429) || e.status.value >= 500)))
  {
    assert WORTH_A_RETRY !! NOT_WORTH_A_RETRY + INHERITED;
  }

  // ----- withRetry -----

  datatype Config = Config(maxAttempts: nat, backoffBaseMs: nat, maxBackoffMs: nat, maxRetryAfterMs: nat)

  const DEFAULT_CONFIG := Config(4, 250, 8000, 30000)

  /** What the world does: each attempt's outcome, each random draw, when the signal is found aborted. */
  datatype World<T> = World(outcome: nat -> Result<T, Failure>, draw: nat -> real,
                            abortedBefore: nat -> bool, abortedAsleep: nat -> bool)

  ghost predicate FairDraws<T>(w: World<T>) {
    forall attempt :: 0.0 <= w.draw(attempt) < 1.0
  }

  /** A failure of `None` is the undefined error thrown when no attempt was allowed at all. */
  datatype Ending<T> = Returned(value: T) | Threw(error: Option<Failure>)

  datatype Trace<T> = Trace(ending: Ending<T>, calls: nat, delays: seq<int>)

  function Ceiling(c: Config, attempt: nat): nat
    requires attempt > 0
  {
    Min(c.backoffBaseMs * Pow2(attempt - 1), c.maxBackoffMs)
  }

  function Jitter(draw: real, ceiling: int): int {
    (draw * ceiling as real).Floor
  }

  function Delay(c: Config, attempt: nat, draw: real, e: Failure): int
    requires attempt > 0
  {
    match e.retryAfterMs
    case None => Jitter(draw, Ceiling(c, attempt))
    case Some(asked) => asked + Jitter(draw, Min(Ceiling(c, attempt), 1000))
  }

  /** Whether a failed attempt ends the loop: the last one, a hopeless one, or one that asks for too long a wait. */
  predicate GivesUp(c: Config, attempt: nat, e: Failure) {
    attempt >= c.maxAttempts || !IsRetryable(e) || (e.retryAfterMs.Some? && e.retryAfterMs.value > c.maxRetryAfterMs)
  }

  function After<T>(delay: int, rest: Trace<T>): Trace<T> {
    rest.(calls := rest.calls + 1, delays := [delay] + rest.delays)
  }

  /** What happens from an attempt on. */
  function RetryFrom<T>(c: Config, w: World<T>, attempt: nat): Trace<T>
    requires attempt > 0
    decreases c.maxAttempts + 1 - attempt
  {
    if attempt > c.maxAttempts then Trace(Threw(None), 0, [])
    else if w.abortedBefore(attempt) then Trace(Threw(Some(ABORTED)), 0, [])
    else
      match w.outcome(attempt) {
        case Ok(value) => Trace(Returned(value), 1, [])
        case Err(e) =>
          if GivesUp(c, attempt, e) then Trace(Threw(Some(e)), 1, [])
          else
            var delay := Delay(c, attempt, w.draw(attempt), e);
            if w.abortedAsleep(attempt) then Trace(Threw(Some(ABORTED)), 1, [delay])
            else After(delay, RetryFrom(c, w, attempt + 1))
      }
  }

  function Prefixed<T>(calls: nat, delays: seq<int>, rest: Trace<T>): Trace<T> {
    rest.(calls := calls + rest.calls, delays := delays + rest.delays)
  }

  lemma WaitingExtends<T>(calls: nat, delays: seq<int>, delay: int, rest: Trace<T>)
    ensures Prefixed(calls, delays, After(delay, rest)) == Prefixed(calls + 1, delays + [delay], rest)
  {
  }

  lemma EndingExtends<T>(calls: nat, delays: seq<int>, ending: Ending<T>, more: nat, last: seq<int>)
    ensures Prefixed(calls, delays, Trace(ending, more, last)) == Trace(ending, calls + more, delays + last)
  {
  }

  method WithRetry<T(0)>(c: Config, w: World<T>) returns (ending: Ending<T>, ghost calls: nat, ghost delays: seq<int>)
    ensures ending == RetryFrom(c, w, 1).ending
    ensures calls == RetryFrom(c, w, 1).calls && delays == RetryFrom(c, w, 1).delays
  {
    var lastError: Option<Failure> := None;
    calls, delays := 0, [];
    for attempt := 1 to c.maxAttempts + 1
      invariant Prefixed(calls, delays, RetryFrom(c, w, attempt)) == RetryFrom(c, w, 1)
      invariant attempt > 1 ==> attempt <= c.maxAttempts
      invariant attempt == 1 ==> lastError.None?
    {
      if w.abortedBefore(attempt) {
        EndingExtends<T>(calls, delays, Threw(Some(ABORTED)), 0, []);
        return Threw(Some(ABORTED)), calls, delays;
      }
      var outcome := w.outcome(attempt);
      calls := calls + 1;
      if outcome.Ok? {
        EndingExtends(calls - 1, delays, Returned(outcome.value), 1, []);
        return Returned(outcome.value), calls, delays;
      }
      var error := outcome.error;
      lastError := Some(error);
      EndingExtends<T>(calls - 1, delays, Threw(Some(error)), 1, []);
      if attempt == c.maxAttempts || !IsRetryable(error) {
        return Threw(Some(error)), calls, delays;
      }
      if error.retryAfterMs.Some? && error.retryAfterMs.value > c.maxRetryAfterMs {
        return Threw(Some(error)), calls, delays;
      }
      var delay := BackOff(c, attempt, w.draw(attempt), error);
      if w.abortedAsleep(attempt) {
        EndingExtends<T>(calls - 1, delays, Threw(Some(ABORTED)), 1, [delay]);
        delays := delays + [delay];
        return Threw(Some(ABORTED)), calls, delays;
      }
      WaitingExtends(calls - 1, delays, delay, RetryFrom(c, w, attempt + 1));
      delays := delays + [delay];
    }
    EndingExtends<T>(calls, delays, Threw(lastError), 0, []);
    return Threw(lastError), calls, delays;
  }

  method BackOff(c: Config, attempt: nat, draw: real, error: Failure) returns (delay: int)
    requires attempt > 0
    ensures delay == Delay(c, attempt, draw, error)
  {
    var ceiling := Min(c.backoffBaseMs * Pow2(attempt - 1), c.maxBackoffMs);
    delay := Jitter(draw, ceiling);
    if error.retryAfterMs.Some? {
      delay := error.retryAfterMs.value + Jitter(draw, Min(ceiling, 1000));
    }
  }

  // ----- What a run of attempts is bound by -----

  /**
   * At most maxAttempts calls; every attempt before the last failed with something worth retrying; a value returned
   * is the outcome of the last call, hence of the first success.
   */
  lemma {:induction false} RetriesOnlyWhatMayPass<T>(c: Config, w: World<T>, attempt: nat)
    requires 0 < attempt
    ensures var t := RetryFrom(c, w, attempt);
      (attempt <= c.maxAttempts ==> attempt + t.calls <= c.maxAttempts + 1)
      && (attempt > c.maxAttempts ==> t.calls == 0)
      && (forall k :: attempt <= k < attempt + t.calls - 1 ==>
            w.outcome(k).Err? && IsRetryable(w.outcome(k).error))
      && (t.ending.Returned? ==> t.calls > 0 && w.outcome(attempt + t.calls - 1) == Ok(t.ending.value))
      && t.calls - 1 <= |t.delays| <= t.calls
    decreases c.maxAttempts + 1 - attempt
  {
    if Continues(c, w, attempt) {
      RetriesOnlyWhatMayPass(c, w, attempt + 1);
    }
  }

  /** The wait that follows an attempt which failed with something worth another attempt. */
  predicate IsDue<T>(c: Config, w: World<T>, attempt: nat, delay: int) {
    attempt > 0 && w.outcome(attempt).Err? && !GivesUp(c, attempt, w.outcome(attempt).error)
    && delay == Delay(c, attempt, w.draw(attempt), w.outcome(attempt).error)
  }

  /** Each wait is the one due after its own attempt. */
  lemma {:induction false} WaitsAreDue<T>(c: Config, w: World<T>, attempt: nat, delays: seq<int>)
    requires 0 < attempt && delays == RetryFrom(c, w, attempt).delays
    ensures forall k :: 0 <= k < |delays| ==> IsDue(c, w, attempt + k, delays[k])
    decreases c.maxAttempts + 1 - attempt
  {
    if Continues(c, w, attempt) {
      WaitsAreDue(c, w, attempt + 1, delays[1..]);
      OneMoreIsDue(c, w, attempt, delays);
    }
  }

  lemma OneMoreIsDue<T>(c: Config, w: World<T>, attempt: nat, delays: seq<int>)
    requires delays != [] && IsDue(c, w, attempt, delays[0])
    requires forall k :: 0 <= k < |delays[1..]| ==> IsDue(c, w, attempt + 1 + k, delays[1..][k])
    ensures forall k :: 0 <= k < |delays| ==> IsDue(c, w, attempt + k, delays[k])
  {
    forall k | 0 < k < |delays| ensures IsDue(c, w, attempt + k, delays[k]) {
      var earlier := k - 1;
      assert delays[k] == delays[1..][earlier] && attempt + 1 + earlier == attempt + k;
    }
  }

  /** An error thrown is that of the last attempt, unless it is an abort or no attempt was allowed. */
  lemma {:induction false} LastErrorIsThrown<T>(c: Config, w: World<T>, attempt: nat)
    requires 0 < attempt
    ensures var t := RetryFrom(c, w, attempt);
      t.ending.Threw? ==>
        (t.ending.error.None? <==> attempt > c.maxAttempts)
        && (t.ending.error.Some? && t.ending.error != Some(ABORTED) ==>
              t.calls > 0 && w.outcome(attempt + t.calls - 1) == Err(t.ending.error.value)
              && GivesUp(c, attempt + t.calls - 1, t.ending.error.value))
    decreases c.maxAttempts + 1 - attempt
  {
    if Continues(c, w, attempt) {
      LastErrorIsThrown(c, w, attempt + 1);
    }
  }

  /** Once the caller's signal is found aborted no call is made any more, and the abort is what is thrown. */
  lemma {:induction false} AbortStops<T>(c: Config, w: World<T>, attempt: nat, k: nat)
    requires 0 < attempt <= k
    ensures w.abortedBefore(k) ==> RetryFrom(c, w, attempt).calls <= k - attempt
    ensures w.abortedAsleep(k) ==> RetryFrom(c, w, attempt).calls <= k - attempt + 1
    ensures w.abortedBefore(k) && k <= c.maxAttempts && (forall j :: attempt <= j < k ==> Continues(c, w, j)) ==>
      RetryFrom(c, w, attempt).ending == Threw(Some(ABORTED))
    decreases k - attempt
  {
    if attempt < k && Continues(c, w, attempt) {
      AbortStops(c, w, attempt + 1, k);
    }
  }

  predicate Continues<T>(c: Config, w: World<T>, attempt: nat) {
    attempt <= c.maxAttempts && !w.abortedBefore(attempt) && w.outcome(attempt).Err?
    && !GivesUp(c, attempt, w.outcome(attempt).error) && !w.abortedAsleep(attempt)
  }

  /** Nothing that can succeed is given up: with patience allowed and no abort, the first success is returned. */
  lemma {:induction false} FirstSuccessIsReturned<T>(c: Config, w: World<T>, attempt: nat, success: nat)
    requires 0 < attempt <= success <= c.maxAttempts && w.outcome(success).Ok?
    requires forall k :: attempt <= k <= success ==> !w.abortedBefore(k)
    requires forall k :: attempt <= k < success ==>
      w.outcome(k).Err? && !GivesUp(c, k, w.outcome(k).error) && !w.abortedAsleep(k)
    ensures RetryFrom(c, w, attempt).ending == Returned(w.outcome(success).value)
    ensures RetryFrom(c, w, attempt).calls == success - attempt + 1
    decreases success - attempt
  {
    if attempt < success {
      FirstSuccessIsReturned(c, w, attempt + 1, success);
    }
  }

  function Sum(delays: seq<int>): int {
    if delays == [] then 0 else delays[0] + Sum(delays[1..])
  }

  /** The most that a draw below one can add. */
  function MaxJitter(ceiling: nat): nat {
    if ceiling == 0 then 0 else ceiling - 1
  }

  lemma JitterWithin(draw: real, ceiling: nat)
    requires 0.0 <= draw < 1.0
    ensures 0 <= Jitter(draw, ceiling) <= MaxJitter(ceiling)
  {
    var top := ceiling as real;
    ProductBelow(draw, top);
    assert draw * top == draw * ceiling as real;
  }

  lemma ProductBelow(x: real, y: real)
    requires 0.0 <= x < 1.0 && 0.0 <= y
    ensures 0.0 <= x * y <= y && (y > 0.0 ==> x * y < y)
  {
    var gap := (1.0 - x) * y;
    assert 0.0 <= x * y && 0.0 <= gap && (y > 0.0 ==> gap > 0.0);
    assert gap == y - x * y;
  }

  lemma MaxJitterIsDrawn(ceiling: nat) returns (draw: real)
    ensures 0.0 <= draw < 1.0 && Jitter(draw, ceiling) == MaxJitter(ceiling)
  {
    if ceiling == 0 {
      draw := 0.0;
    } else {
      var top := ceiling as real;
      draw := (top - 1.0) / top;
      assert draw * top == top - 1.0;
    }
  }

  ghost predicate NoRetryAfter<T>(w: World<T>) {
    forall k :: w.outcome(k).Err? ==> w.outcome(k).error.retryAfterMs.None?
  }

  /** Without Retry-After the waits from an attempt on add up to no more than the doubling backoff, nor the ceiling. */
  lemma {:induction false} BackoffAddsUp<T>(c: Config, w: World<T>, attempt: nat)
    requires 0 < attempt <= c.maxAttempts && FairDraws(w) && NoRetryAfter(w)
    ensures var total := Sum(RetryFrom(c, w, attempt).delays);
      0 <= total <= c.backoffBaseMs * (Pow2(c.maxAttempts - 1) - Pow2(attempt - 1))
    ensures Sum(RetryFrom(c, w, attempt).delays) <= (c.maxAttempts - attempt) * c.maxBackoffMs
    decreases c.maxAttempts - attempt
  {
    Pow2Grows(attempt - 1, c.maxAttempts - 1);
    Products(c, attempt);
    if attempt < c.maxAttempts && !w.abortedBefore(attempt) && w.outcome(attempt).Err?
      && !GivesUp(c, attempt, w.outcome(attempt).error) {
      var delay := Delay(c, attempt, w.draw(attempt), w.outcome(attempt).error);
      JitterWithin(w.draw(attempt), Ceiling(c, attempt));
      Pow2Grows(attempt, c.maxAttempts - 1);
      if w.abortedAsleep(attempt) {
        assert Sum([delay]) == delay + Sum([]);
        Products(c, attempt + 1);
      } else {
        BackoffAddsUp(c, w, attempt + 1);
        var rest := RetryFrom(c, w, attempt + 1).delays;
        assert ([delay] + rest)[1..] == rest;
      }
    }
  }

  lemma Products(c: Config, attempt: nat)
    requires 0 < attempt <= c.maxAttempts
    ensures 0 <= c.backoffBaseMs * (Pow2(c.maxAttempts - 1) - Pow2(attempt - 1))
    ensures 0 <= (c.maxAttempts - attempt) * c.maxBackoffMs
    ensures attempt < c.maxAttempts ==>
      c.backoffBaseMs * (Pow2(c.maxAttempts - 1) - Pow2(attempt - 1))
      == c.backoffBaseMs * (Pow2(c.maxAttempts - 1) - Pow2(attempt)) + c.backoffBaseMs * Pow2(attempt - 1)
    ensures (c.maxAttempts - attempt) * c.maxBackoffMs
         == (c.maxAttempts - attempt - 1) * c.maxBackoffMs + c.maxBackoffMs
  {
    Pow2Grows(attempt - 1, c.maxAttempts - 1);
    var top: int, low: int := Pow2(c.maxAttempts - 1), Pow2(attempt - 1);
    ProductIsNat(c.backoffBaseMs, top - low);
    ProductIsNat(c.maxAttempts - attempt, c.maxBackoffMs);
    Distribute(c.maxBackoffMs, c.maxAttempts - attempt - 1, 1);
    if attempt < c.maxAttempts {
      assert Pow2(attempt) == 2 * low;
      Distribute(c.backoffBaseMs, top - 2 * low, low);
    }
  }

  lemma ProductIsNat(a: nat, b: nat)
    ensures 0 <= a * b
  {
  }

  lemma Distribute(a: int, x: int, y: int)
    ensures a * (x + y) == a * x + a * y
  {
  }

  /** With Retry-After each wait is what was asked, which is capped, and less than min(ceiling, 1000) more. */
  lemma RetryAfterIsAFloor<T>(c: Config, w: World<T>, attempt: nat, asked: nat)
    requires 0 < attempt && FairDraws(w) && w.outcome(attempt).Err?
    requires w.outcome(attempt).error.retryAfterMs == Some(asked)
    requires !GivesUp(c, attempt, w.outcome(attempt).error)
    ensures var delay := Delay(c, attempt, w.draw(attempt), w.outcome(attempt).error);
      asked <= delay <= asked + MaxJitter(Min(Ceiling(c, attempt), 1000)) && asked <= c.maxRetryAfterMs
  {
    JitterWithin(w.draw(attempt), Min(Ceiling(c, attempt), 1000));
  }

  /** Whatever is drawn, the wait stays within the cap on Retry-After. */
  ghost predicate StaysWithinCap(c: Config, attempt: nat, e: Failure)
    requires attempt > 0
  {
    forall draw :: 0.0 <= draw < 1.0 ==> Delay(c, attempt, draw, e) <= c.maxRetryAfterMs
  }

  /** Exactly when the cap bounds the wait and not only what was asked: when there is room left for the jitter. */
  lemma CapHoldsExactly(c: Config, attempt: nat, e: Failure, asked: nat)
    requires attempt > 0 && e.retryAfterMs == Some(asked)
    ensures StaysWithinCap(c, attempt, e) <==>
      asked + MaxJitter(Min(Ceiling(c, attempt), 1000)) <= c.maxRetryAfterMs
  {
    var ceiling := Min(Ceiling(c, attempt), 1000);
    if asked + MaxJitter(ceiling) <= c.maxRetryAfterMs {
      forall draw | 0.0 <= draw < 1.0 ensures Delay(c, attempt, draw, e) <= c.maxRetryAfterMs {
        JitterWithin(draw, ceiling);
      }
    } else {
      var draw := MaxJitterIsDrawn(ceiling);
      assert Delay(c, attempt, draw, e) > c.maxRetryAfterMs;
    }
  }

  /** Every wait that is granted with a Retry-After, at any attempt and whatever is drawn, stays within the cap. */
  ghost predicate KeepsCap(c: Config) {
    forall attempt, e ::
      0 < attempt && !GivesUp(c, attempt, e) && e.retryAfterMs.Some? ==> StaysWithinCap(c, attempt, e)
  }

  /** So a configuration keeps the cap exactly if it never retries or even its last retry leaves no room for jitter. */
  lemma CapHoldsForAllExactly(c: Config)
    ensures KeepsCap(c) <==> c.maxAttempts <= 1 || Ceiling(c, c.maxAttempts - 1) <= 1
  {
    if c.maxAttempts <= 1 || Ceiling(c, c.maxAttempts - 1) <= 1 {
      forall attempt, e | 0 < attempt && !GivesUp(c, attempt, e) && e.retryAfterMs.Some?
        ensures StaysWithinCap(c, attempt, e)
      {
        CeilingGrows(c, attempt, c.maxAttempts - 1);
        CapHoldsExactly(c, attempt, e, e.retryAfterMs.value);
      }
    } else {
      var e := Failure(false, None, None, Some(c.maxRetryAfterMs));
      CapHoldsExactly(c, c.maxAttempts - 1, e, c.maxRetryAfterMs);
      assert !GivesUp(c, c.maxAttempts - 1, e) && !StaysWithinCap(c, c.maxAttempts - 1, e);
    }
  }

  lemma CeilingGrows(c: Config, attempt: nat, later: nat)
    requires 0 < attempt <= later
    ensures Ceiling(c, attempt) <= Ceiling(c, later)
  {
    Pow2Grows(attempt - 1, later - 1);
    ProductGrows(c.backoffBaseMs, Pow2(attempt - 1), Pow2(later - 1));
  }

  lemma ProductGrows(a: nat, x: nat, y: nat)
    requires x <= y
    ensures a * x <= a * y
  {
  }

  /** The wait itself may pass the cap on Retry-After: the jitter comes on top of what was asked. */
  lemma WaitMayPassTheCap()
    ensures var e := Failure(false, None, Some(503), Some(30000));
      !GivesUp(DEFAULT_CONFIG, 1, e) && Delay(DEFAULT_CONFIG, 1, 0.5, e) > DEFAULT_CONFIG.maxRetryAfterMs
  {
    var e := Failure(false, None, Some(503), Some(30000));
    assert Ceiling(DEFAULT_CONFIG, 1) == 250;
    assert Jitter(0.5, 250) == 125;
    assert !GivesUp(DEFAULT_CONFIG, 1, e) && Delay(DEFAULT_CONFIG, 1, 0.5, e) == 30125;
  }

  // ----- Gateways -----

  datatype Fetched<T> = Found(value: T) | Stopped(error: Failure) | NotFound(gateways: nat) | Unsafe

  datatype Failover<T> = Failover(result: Fetched<T>, requests: nat)

  /** An abort ends the search; any other failure moves on to the next gateway. */
  function FailoverFrom<T>(c: Config, gateways: seq<World<T>>, g: nat): Failover<T>
    requires g <= |gateways|
    decreases |gateways| - g
  {
    if g == |gateways| then Failover(NotFound(|gateways|), 0)
    else
      var t := RetryFrom(c, gateways[g], 1);
      match t.ending {
        case Returned(value) => Failover(Found(value), t.calls)
        case Threw(Some(error)) =>
          if error.isAbort then Failover(Stopped(error), t.calls)
          else
            var rest := FailoverFrom(c, gateways, g + 1);
            rest.(requests := rest.requests + t.calls)
        case Threw(None) =>
          var rest := FailoverFrom(c, gateways, g + 1);
          rest.(requests := rest.requests + t.calls)
      }
  }

  method FetchFromGateways<T(0)>(c: Config, cid: string, gateways: seq<World<T>>)
    returns (r: Fetched<T>, ghost requests: nat)
    ensures r == if IsLocation(cid) then FailoverFrom(c, gateways, 0).result else Unsafe
    ensures requests == if IsLocation(cid) then FailoverFrom(c, gateways, 0).requests else 0
  {
    requests := 0;
    if !IsLocation(cid) {
      return Unsafe, requests;
    }
    for g := 0 to |gateways|
      invariant var rest := FailoverFrom(c, gateways, g);
        rest.(requests := rest.requests + requests) == FailoverFrom(c, gateways, 0)
    {
      var ending, calls, delays := WithRetry(c, gateways[g]);
      requests := requests + calls;
      match ending
      case Returned(value) => return Found(value), requests;
      case Threw(error) =>
        if error.Some? && error.value.isAbort {
          return Stopped(error.value), requests;
        }
    }
    return NotFound(|gateways|), requests;
  }

  /** At most gateways times maxAttempts requests. */
  lemma {:induction false} RequestsAreBounded<T>(c: Config, gateways: seq<World<T>>, g: nat)
    requires g <= |gateways|
    ensures FailoverFrom(c, gateways, g).requests <= (|gateways| - g) * c.maxAttempts
    decreases |gateways| - g
  {
    if g < |gateways| {
      RetriesOnlyWhatMayPass(c, gateways[g], 1);
      RequestsAreBounded(c, gateways, g + 1);
      OneMore(|gateways| - g - 1, c.maxAttempts);
    }
  }

  lemma OneMore(n: nat, each: nat)
    ensures (n + 1) * each == n * each + each && n * each >= 0
  {
  }

  /** What ends the search at a gateway: the block, or the caller's abort.  No other failure does. */
  predicate Decides<T>(ending: Ending<T>) {
    ending.Returned? || (ending.error.Some? && ending.error.value.isAbort)
  }

  /** The first gateway from `g` on whose turn decides. */
  predicate FirstToDecide<T>(c: Config, gateways: seq<World<T>>, g: nat, k: nat) {
    g <= k < |gateways| && Decides(RetryFrom(c, gateways[k], 1).ending)
    && forall j :: g <= j < k ==> !Decides(RetryFrom(c, gateways[j], 1).ending)
  }

  ghost predicate AnswersWith<T>(f: Fetched<T>, ending: Ending<T>) {
    match ending
    case Returned(value) => f == Found(value)
    case Threw(error) => error.Some? && error.value.isAbort && f == Stopped(error.value)
  }

  /** The answer is that of the first gateway, in order, that has the block or at which the caller aborts. */
  lemma {:induction false} FirstGatewayWins<T>(c: Config, gateways: seq<World<T>>, g: nat, k: nat)
    requires FirstToDecide(c, gateways, g, k)
    ensures AnswersWith(FailoverFrom(c, gateways, g).result, RetryFrom(c, gateways[k], 1).ending)
    decreases k - g
  {
    OneGateway(c, gateways, g);
    if k > g {
      LaterDecides(c, gateways, g, k);
      FirstGatewayWins(c, gateways, g + 1, k);
    }
  }

  /** If there is none, nothing is found: every other failure moves on to the next gateway. */
  lemma {:induction false} NoGatewayDecides<T>(c: Config, gateways: seq<World<T>>, g: nat)
    requires g <= |gateways|
    requires forall k :: g <= k < |gateways| ==> !Decides(RetryFrom(c, gateways[k], 1).ending)
    ensures FailoverFrom(c, gateways, g).result == NotFound(|gateways|)
    decreases |gateways| - g
  {
    if g < |gateways| {
      OneGateway(c, gateways, g);
      NoGatewayDecides(c, gateways, g + 1);
    }
  }

  lemma OneGateway<T>(c: Config, gateways: seq<World<T>>, g: nat)
    requires g < |gateways|
    ensures var f, ending := FailoverFrom(c, gateways, g).result, RetryFrom(c, gateways[g], 1).ending;
      if Decides(ending) then AnswersWith(f, ending) else f == FailoverFrom(c, gateways, g + 1).result
  {
  }

  lemma LaterDecides<T>(c: Config, gateways: seq<World<T>>, g: nat, k: nat)
    requires FirstToDecide(c, gateways, g, k) && k > g
    ensures FirstToDecide(c, gateways, g + 1, k) && !Decides(RetryFrom(c, gateways[g], 1).ending)
  {
  }

  lemma {:induction false} SomeGatewayDecides<T>(c: Config, gateways: seq<World<T>>, g: nat, d: nat) returns (k: nat)
    requires g <= d < |gateways| && Decides(RetryFrom(c, gateways[d], 1).ending)
    ensures FirstToDecide(c, gateways, g, k)
    decreases d - g
  {
    k := g;
    if !Decides(RetryFrom(c, gateways[g], 1).ending) {
      k := SomeGatewayDecides(c, gateways, g + 1, d);
    }
  }

  /**
   * So a value is found exactly if some gateway returns it and none before it returns or ends in an abort; only an
   * abort stops the search, and nothing is found only if no gateway decides.
   */
  lemma FoundExactly<T>(c: Config, gateways: seq<World<T>>, f: Fetched<T>)
    requires f == FailoverFrom(c, gateways, 0).result
    ensures forall value :: f == Found(value) <==>
      exists k: nat :: FirstToDecide(c, gateways, 0, k) && RetryFrom(c, gateways[k], 1).ending == Returned(value)
    ensures f.Stopped? ==> f.error.isAbort
    ensures f.NotFound? <==> forall k :: 0 <= k < |gateways| ==> !Decides(RetryFrom(c, gateways[k], 1).ending)
  {
    if d: nat :| d < |gateways| && Decides(RetryFrom(c, gateways[d], 1).ending) {
      var k := SomeGatewayDecides(c, gateways, 0, d);
      FirstGatewayWins(c, gateways, 0, k);
      forall j: nat | FirstToDecide(c, gateways, 0, j) ensures j == k {
        OneFirst(c, gateways, j, k);
      }
    } else {
      NoGatewayDecides(c, gateways, 0);
    }
  }

  lemma OneFirst<T>(c: Config, gateways: seq<World<T>>, j: nat, k: nat)
    requires FirstToDecide(c, gateways, 0, j) && FirstToDecide(c, gateways, 0, k)
    ensures j == k
  {
  }
}
