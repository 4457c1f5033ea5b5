/** The opt-in session-retry loop: bounded attempts, bounded waiting, jittered exponential backoff. */
module Retry {
  import opened Bytes

  /** What one attempt ends with. `retryAfter` is the server's delay in seconds, when it sent one. */
  datatype Outcome<+T> = Returned(value: T) | Raised(error: Error)

  datatype Error = Error(retryable: bool, retryAfter: Option<real>)

  datatype Config = Config(budget: real, baseDelay: real, maxDelay: real, maxAttempts: int)

  /** How the loop ends: with the last attempt's outcome, or because `sleep` refused a negative delay. */
  datatype Ending<+T> = Ended(outcome: Outcome<T>) | SleepRefused

  /** `base * 2 ** n`. */
  function Doubled(base: real, n: nat): (r: real)
    ensures base >= 0.0 ==> r >= base
  {
    if n == 0 then base else 2.0 * Doubled(base, n - 1)
  }

  function Min(x: real, y: real): (r: real) {
    if x <= y then x else y
  }

  /** A share of `y`: the jitter is drawn from [0, 1). */
  function Share(x: real, y: real): (r: real)
    ensures 0.0 <= x < 1.0 && 0.0 <= y ==> 0.0 <= r <= y
  {
    if 0.0 <= x < 1.0 && 0.0 <= y then ProperShare(x, y); x * y else x * y
  }

  lemma ProperShare(x: real, y: real)
    requires 0.0 <= x < 1.0 && 0.0 <= y
    ensures 0.0 <= x * y <= y
  {
    assert (1.0 - x) * y >= 0.0;
  }

  function Cap(cfg: Config, attempt: nat): (r: real)
    requires attempt >= 1
  {
    Min(cfg.maxDelay, Doubled(cfg.baseDelay, attempt - 1))
  }

  function Backoff(cfg: Config, error: Error, attempt: nat, jitter: real): (r: real)
    requires attempt >= 1
  {
    (if error.retryAfter.Some? then error.retryAfter.value else 0.0)
    + Share(jitter, Cap(cfg, attempt))
  }

  /** The delay before the next attempt, or None when the error must be raised. */
  function NextDelay(cfg: Config, error: Error, attempt: nat, waited: real, jitter: real): (r: Option<real>)
    requires attempt >= 1
  {
    if !error.retryable || attempt >= cfg.maxAttempts then None
    else
      var delay := Backoff(cfg, error, attempt, jitter);
      if waited + delay > cfg.budget then None else Some(delay)
  }

  lemma CapRange(cfg: Config, attempt: nat)
    requires attempt >= 1 && 0.0 <= cfg.baseDelay && 0.0 <= cfg.maxDelay
    ensures 0.0 <= Cap(cfg, attempt) <= cfg.maxDelay
  {
  }

  /** Full jitter over a capped exponential, on top of the server's own delay. */
  lemma BackoffRange(cfg: Config, error: Error, attempt: nat, jitter: real)
    requires attempt >= 1 && 0.0 <= jitter < 1.0 && 0.0 <= cfg.baseDelay && 0.0 <= cfg.maxDelay
    ensures var floor := if error.retryAfter.Some? then error.retryAfter.value else 0.0;
            floor <= Backoff(cfg, error, attempt, jitter) <= floor + Cap(cfg, attempt) <= floor + cfg.maxDelay
  {
    CapRange(cfg, attempt);
  }

  /** The cap starts at the base delay and doubles from attempt to attempt, up to the longest delay. */
  lemma CapDoubles(cfg: Config, attempt: nat)
    requires attempt >= 1 && 0.0 <= cfg.baseDelay && 0.0 <= cfg.maxDelay
    ensures Cap(cfg, 1) == if cfg.baseDelay <= cfg.maxDelay then cfg.baseDelay else cfg.maxDelay
    ensures Cap(cfg, attempt + 1) == if 2.0 * Cap(cfg, attempt) <= cfg.maxDelay then 2.0 * Cap(cfg, attempt) else cfg.maxDelay
  {
  }

  /** The jitter runs evenly over the whole of it: from the server's own delay to the cap above it. */
  lemma JitterIsFull(cfg: Config, error: Error, attempt: nat, jitter: real)
    requires attempt >= 1
    ensures Backoff(cfg, error, attempt, 0.0) == if error.retryAfter.Some? then error.retryAfter.value else 0.0
    ensures Backoff(cfg, error, attempt, 1.0) == Backoff(cfg, error, attempt, 0.0) + Cap(cfg, attempt)
    ensures Backoff(cfg, error, attempt, jitter) == Backoff(cfg, error, attempt, 0.0) + jitter * Cap(cfg, attempt)
  {
  }

  // ── The loop, attempt by attempt ──────────────────────────────────────────────────────────────

  /** The waiting the loop has on its books before attempt `n`. */
  ghost function Waited<T>(cfg: Config, call: nat -> Outcome<T>, rng: nat -> real, n: nat): (w: real)
    requires n >= 1
  {
    if n == 1 || !call(n - 1).Raised? then 0.0
    else Waited(cfg, call, rng, n - 1) + Backoff(cfg, call(n - 1).error, n - 1, rng(n - 1))
  }

  /** The time actually slept: a coroutine sleep of a negative delay returns at once. */
  ghost function Slept<T>(cfg: Config, call: nat -> Outcome<T>, rng: nat -> real, n: nat): (w: real)
    requires n >= 1
  {
    if n == 1 || !call(n - 1).Raised? then 0.0
    else
      var d := Backoff(cfg, call(n - 1).error, n - 1, rng(n - 1));
      Slept(cfg, call, rng, n - 1) + if d > 0.0 then d else 0.0
  }

  /** Attempt `n` is followed by another one: its error may be retried, attempts are left, and the waiting then
      booked is within the budget. */
  ghost predicate Continues<T>(cfg: Config, call: nat -> Outcome<T>, rng: nat -> real, n: nat)
    requires n >= 1
  {
    call(n).Raised? && call(n).error.retryable && n < cfg.maxAttempts && Waited(cfg, call, rng, n + 1) <= cfg.budget
  }

  /** Runs `call` until an attempt returns, its error may not be retried, the attempts are used up or
      the next delay would overrun the budget. `strictSleep` is the thread client's `time.sleep`, which
      refuses a negative delay; the coroutine client's does not. */
  method WithSessionRetry<T>(call: nat -> Outcome<T>, rng: nat -> real, cfg: Config, strictSleep: bool)
    returns (ending: Ending<T>, attempts: nat, waited: real, slept: real)
    ensures 1 <= attempts <= if cfg.maxAttempts > 1 then cfg.maxAttempts else 1
    ensures forall k :: 1 <= k < attempts ==> Continues(cfg, call, rng, k)
    ensures ending.Ended? ==> ending.outcome == call(attempts) && !Continues(cfg, call, rng, attempts)
    ensures ending.SleepRefused? ==>
            strictSleep && Continues(cfg, call, rng, attempts) && Backoff(cfg, call(attempts).error, attempts, rng(attempts)) < 0.0
    ensures waited == Waited(cfg, call, rng, attempts) && slept == Slept(cfg, call, rng, attempts)
    ensures waited <= if cfg.budget > 0.0 then cfg.budget else 0.0
    ensures strictSleep ==> slept == waited
  {
    attempts, waited, slept := 1, 0.0, 0.0;
    while true
      invariant 1 <= attempts <= if cfg.maxAttempts > 1 then cfg.maxAttempts else 1
      invariant forall k :: 1 <= k < attempts ==> Continues(cfg, call, rng, k)
      invariant waited == Waited(cfg, call, rng, attempts) && slept == Slept(cfg, call, rng, attempts)
      invariant waited <= if cfg.budget > 0.0 then cfg.budget else 0.0
      invariant strictSleep ==> slept == waited
      decreases cfg.maxAttempts - attempts
    {
      var outcome := call(attempts);
      if outcome.Returned? {
        return Ended(outcome), attempts, waited, slept;
      }
      var delay := NextDelay(cfg, outcome.error, attempts, waited, rng(attempts));
      if delay.None? {
        return Ended(outcome), attempts, waited, slept;
      }
      if strictSleep && delay.value < 0.0 {
        return SleepRefused, attempts, waited, slept;
      }
      slept := slept + if delay.value > 0.0 then delay.value else 0.0;
      waited := waited + delay.value;
      attempts := attempts + 1;
    }
  }

  /** No delay before attempt `n` is below `low`. */
  ghost predicate DelaysAtLeast<T>(low: real, cfg: Config, call: nat -> Outcome<T>, rng: nat -> real, n: nat) {
    forall k :: 1 <= k < n && call(k).Raised? ==> Backoff(cfg, call(k).error, k, rng(k)) >= low
  }

  /** The loop gets as far as attempt `n`. */
  ghost predicate Reaches<T>(cfg: Config, call: nat -> Outcome<T>, rng: nat -> real, n: nat) {
    n >= 1 && forall k :: 1 <= k < n ==> Continues(cfg, call, rng, k)
  }

  /** The coroutine loop never sleeps less than it books, and exactly that much if and only if no delay
      was negative. */
  lemma {:induction false} SleepsWhatItBooks<T>(cfg: Config, call: nat -> Outcome<T>, rng: nat -> real, n: nat)
    requires n >= 1 && forall k :: 1 <= k < n ==> call(k).Raised?
    ensures Slept(cfg, call, rng, n) >= Waited(cfg, call, rng, n)
    ensures Slept(cfg, call, rng, n) == Waited(cfg, call, rng, n) <==> DelaysAtLeast(0.0, cfg, call, rng, n)
  {
    if n > 1 {
      SleepsWhatItBooks(cfg, call, rng, n - 1);
      assert call(n - 1).Raised?;
    }
  }

  /** With no negative delay, or with at most one delay, the time slept stays within the budget. */
  lemma SleepsWithinBudget<T>(cfg: Config, call: nat -> Outcome<T>, rng: nat -> real, n: nat)
    requires Reaches(cfg, call, rng, n)
    requires DelaysAtLeast(0.0, cfg, call, rng, n) || cfg.maxAttempts <= 2
    ensures Slept(cfg, call, rng, n) <= if cfg.budget > 0.0 then cfg.budget else 0.0
  {
    if n > 1 {
      assert Continues(cfg, call, rng, n - 1);
      if DelaysAtLeast(0.0, cfg, call, rng, n) {
        forall k | 1 <= k < n ensures call(k).Raised? {
          assert Continues(cfg, call, rng, k);
        }
        SleepsWhatItBooks(cfg, call, rng, n);
      }
    }
  }

  /** Whatever the budget and however small the negative delay, three attempts are enough to sleep past
      the budget by just that much. */
  lemma NegativeDelayOverruns(cfg: Config, d: real) returns (call: nat -> Outcome<int>, rng: nat -> real)
    requires cfg.maxAttempts >= 3 && cfg.budget >= 0.0 && d > 0.0
    ensures Reaches(cfg, call, rng, 3) && DelaysAtLeast(-d, cfg, call, rng, 3)
    ensures Slept(cfg, call, rng, 3) == cfg.budget + d
  {
    call := n => Raised(Error(true, Some(if n == 1 then -d else cfg.budget + d)));
    rng := n => 0.0;
    assert Backoff(cfg, call(1).error, 1, rng(1)) == -d;
    assert Backoff(cfg, call(2).error, 2, rng(2)) == cfg.budget + d;
    assert Waited(cfg, call, rng, 1) == 0.0;
    assert Waited(cfg, call, rng, 2) == -d;
    assert Continues(cfg, call, rng, 1) && Continues(cfg, call, rng, 2);
    assert Slept(cfg, call, rng, 2) == 0.0;
    assert Slept(cfg, call, rng, 3) == cfg.budget + d;
  }

  /** The coroutine loop, against servers whose delays are never below `-d`, always sleeps within its
      budget if and only if no delay can be negative or there is at most one delay. */
  lemma BudgetKeptIff(cfg: Config, d: real)
    requires cfg.budget >= 0.0 && d >= 0.0
    ensures (forall call: nat -> Outcome<int>, rng: nat -> real, n: nat ::
               Reaches(cfg, call, rng, n) && DelaysAtLeast(-d, cfg, call, rng, n) ==> Slept(cfg, call, rng, n) <= cfg.budget)
            <==> d == 0.0 || cfg.maxAttempts <= 2
  {
    if d == 0.0 || cfg.maxAttempts <= 2 {
      forall call: nat -> Outcome<int>, rng: nat -> real, n: nat | Reaches(cfg, call, rng, n) && DelaysAtLeast(-d, cfg, call, rng, n)
        ensures Slept(cfg, call, rng, n) <= cfg.budget
      {
        SleepsWithinBudget(cfg, call, rng, n);
      }
    } else {
      var call, rng := NegativeDelayOverruns(cfg, d);
    }
  }
}
