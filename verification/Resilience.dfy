/**
 The circuit breaker of app/core/resilience.py.

 `View` is the breaker's own state and `BeforeCall`, `AfterSuccess`, `AfterFailure` are the three sections
 the source runs under its lock. `CircuitBreaker` is the object that updates its fields in place; each of
 its methods is proved to be one of those functions. Any number of calls interleave between those sections,
 so the properties are about `System`: the breaker together with the calls in flight, driven by an
 arbitrary sequence of events.
 */
module Resilience {
  import opened Wrappers

  datatype CircuitState = Closed | Open | HalfOpen

  datatype Config = Config(failureThreshold: int, cooldown: real)

  datatype View = View(state: CircuitState, failures: nat, openedAt: Option<real>)

  const FRESH := View(Closed, 0, None)

  /** How long the OPEN breaker still has to wait; a missing timestamp counts as an elapsed cooldown. */
  function Remaining(cfg: Config, v: View, now: real): real {
    cfg.cooldown - (if v.openedAt.Some? then now - v.openedAt.value else cfg.cooldown)
  }

  predicate Admits(cfg: Config, v: View, now: real) {
    v.state == Closed || (v.state == Open && Remaining(cfg, v, now) <= 0.0)
  }

  function BeforeCall(cfg: Config, v: View, now: real): View {
    if v.state == Open && Remaining(cfg, v, now) <= 0.0 then v.(state := HalfOpen) else v
  }

  function AfterSuccess(v: View): View {
    FRESH
  }

  function AfterFailure(cfg: Config, v: View, now: real): View {
    if v.state == HalfOpen || v.failures + 1 >= cfg.failureThreshold
    then View(Open, v.failures + 1, Some(now))
    else v.(failures := v.failures + 1)
  }

  /** The breaker object: three fields, updated in place, one method per lock acquisition of the source. */
  class CircuitBreaker {
    const cfg: Config
    var failures: nat
    var openedAt: Option<real>
    var state: CircuitState

    function AsView(): View
      reads this
    {
      View(state, failures, openedAt)
    }

    constructor (cfg: Config)
      ensures this.cfg == cfg && AsView() == FRESH
    {
      this.cfg := cfg;
      failures, openedAt, state := 0, None, Closed;
    }

    method Admit(now: real) returns (admitted: bool)
      modifies this`state
      ensures AsView() == BeforeCall(cfg, old(AsView()), now)
      ensures admitted == Admits(cfg, old(AsView()), now)
    {
      if state == Closed {
        return true;
      }
      if state == HalfOpen {
        return false;
      }
      var elapsed := match openedAt case Some(at) => now - at case None => cfg.cooldown;
      if cfg.cooldown - elapsed > 0.0 {
        return false;
      }
      state := HalfOpen;
      return true;
    }

    method RecordSuccess()
      modifies this
      ensures AsView() == AfterSuccess(old(AsView()))
    {
      failures := 0;
      openedAt := None;
      state := Closed;
    }

    method RecordFailure(now: real)
      modifies this
      ensures AsView() == AfterFailure(cfg, old(AsView()), now)
    {
      var wasHalfOpen := state == HalfOpen;
      failures := failures + 1;
      if wasHalfOpen || failures >= cfg.failureThreshold {
        openedAt := Some(now);
        state := Open;
      }
    }
  }

  // ---- The retry loop inside one call -----------------------------------------------------------------

  /** What one invocation of the wrapped function does, relative to the caller's `retry_on`. */
  datatype Outcome<T> = Returned(value: T) | Listed(what: string) | Unlisted(what: string)

  datatype CallEnd<T> = Finished(outcome: Outcome<T>) | BadAttempts

  function Pow2(n: nat): (p: int)
    ensures p >= 1
  {
    if n == 0 then 1 else 2 * Pow2(n - 1)
  }

  /** The backoff before jitter after the `attempt`-th try, counted from 1. */
  function Backoff(attempt: nat, baseDelay: real, maxDelay: real): (d: real)
    requires attempt >= 1
    ensures d <= maxDelay
  {
    var d := baseDelay * Pow2(attempt - 1) as real;
    if d <= maxDelay then d else maxDelay
  }

  /** The backoff with no cap: `baseDelay` after the first try, and twice as much after each further one. */
  function Doubled(attempt: nat, baseDelay: real): real
    requires attempt >= 1
  {
    if attempt == 1 then baseDelay else 2.0 * Doubled(attempt - 1, baseDelay)
  }

  lemma {:induction false} DoubledIsPow2(attempt: nat, baseDelay: real)
    requires attempt >= 1
    ensures baseDelay * Pow2(attempt - 1) as real == Doubled(attempt, baseDelay)
  {
    if attempt > 1 {
      DoubledIsPow2(attempt - 1, baseDelay);
      Twice(baseDelay, Pow2(attempt - 2));
    }
  }

  lemma Twice(a: real, p: int)
    ensures a * (2 * p) as real == 2.0 * (a * p as real)
  {
  }

  /** The backoff doubles from try to try until it reaches the cap, which it then is. */
  lemma BackoffDoubles(attempt: nat, baseDelay: real, maxDelay: real)
    requires attempt >= 1
    ensures var plain := Doubled(attempt, baseDelay);
            Backoff(attempt, baseDelay, maxDelay) == if plain <= maxDelay then plain else maxDelay
  {
    DoubledIsPow2(attempt, baseDelay);
  }

  /**
   The sleep after the `attempt`-th try, `j` being the fraction of random jitter added to the backoff: between
   the backoff and 1.25 times it, and no more than a quarter above a cap that is not negative.
   */
  function Delay(attempt: nat, j: real, baseDelay: real, maxDelay: real): (d: real)
    requires attempt >= 1 && 0.0 <= j <= 0.25
    ensures var plain := Backoff(attempt, baseDelay, maxDelay);
            if plain >= 0.0 then plain <= d <= 1.25 * plain else 1.25 * plain <= d <= plain
    ensures d <= if maxDelay >= 0.0 then 1.25 * maxDelay else maxDelay
  {
    Jittered(Backoff(attempt, baseDelay, maxDelay), j)
  }

  function Jittered(plain: real, j: real): (d: real)
    requires 0.0 <= j <= 0.25
    ensures if plain >= 0.0 then plain <= d <= 1.25 * plain else 1.25 * plain <= d <= plain
  {
    JitterBounds(plain, j);
    plain * (1.0 + j)
  }

  /**
   `outcomes(k)` is what the k-th invocation (from 1) does and `jitter(k)` the random factor drawn after it.
   The loop stops at the first outcome that is not a listed failure, or at the last permitted try; it sleeps
   once between consecutive tries, never longer than 1.25 times the longest backoff (the contract of `Delay`).
   */
  method Retry<T>(outcomes: nat -> Outcome<T>, jitter: nat -> real, attempts: int, baseDelay: real, maxDelay: real)
    returns (end: CallEnd<T>, tries: nat, delays: seq<real>)
    requires forall k: nat :: 0.0 <= jitter(k) <= 0.25
    ensures end.BadAttempts? <==> attempts < 1
    ensures end.BadAttempts? ==> tries == 0 && delays == []
    ensures end.Finished? ==>
              && 1 <= tries <= attempts
              && end.outcome == outcomes(tries)
              && (forall k: nat :: 1 <= k < tries ==> outcomes(k).Listed?)
              && (outcomes(tries).Listed? ==> tries == attempts)
              && |delays| == tries - 1
    ensures forall k: nat :: k < |delays| ==> delays[k] == Delay(k + 1, jitter(k + 1), baseDelay, maxDelay)
  {
    delays, tries := [], 0;
    if attempts < 1 {
      return BadAttempts, 0, [];
    }
    tries := 1;
    while true
      invariant 1 <= tries <= attempts
      invariant forall k: nat :: 1 <= k < tries ==> outcomes(k).Listed?
      invariant |delays| == tries - 1
      invariant forall k: nat :: k < |delays| ==> delays[k] == Delay(k + 1, jitter(k + 1), baseDelay, maxDelay)
      decreases attempts - tries
    {
      var outcome := outcomes(tries);
      if !outcome.Listed? || tries == attempts {
        return Finished(outcome), tries, delays;
      }
      delays := delays + [Delay(tries, jitter(tries), baseDelay, maxDelay)];
      tries := tries + 1;
    }
  }

  lemma NonNegativeProduct(a: real, b: real)
    requires a >= 0.0 && b >= 0.0
    ensures a * b >= 0.0
  {
  }

  lemma JitterBounds(plain: real, j: real)
    requires 0.0 <= j <= 0.25
    ensures if plain >= 0.0 then plain <= plain * (1.0 + j) <= 1.25 * plain
            else 1.25 * plain <= plain * (1.0 + j) <= plain
  {
    var size := if plain >= 0.0 then plain else -plain;
    NonNegativeProduct(size, j);
    NonNegativeProduct(size, 0.25 - j);
    assert plain * (1.0 + j) == plain + plain * j;
    assert size * (0.25 - j) == 0.25 * size - size * j;
  }
}
