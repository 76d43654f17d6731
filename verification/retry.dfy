/**
 * The bounded retry loop with linear backoff that wraps the three stage
 * calls and the summarisation call (`invoke_with_retry` in
 * src/models/ai_models.py); the session-title calls do not go through it. The model endpoint is
 * abstract: `chain(k)` is what attempt k (0-based) does. Sleeping is not
 * performed but recorded in a trace, next to every invocation.
 */
module Retry {
  import opened Wrappers
  import Settings

  /** What one invocation of the chain does: return a completion or raise. */
  datatype Attempt = Returned(text: string) | Threw(error: string)

  /** One observable step of the loop. */
  datatype Event<I> = Invoked(input: I) | Slept(seconds: int)

  /** How the loop ends: with a result, by re-raising the last error, or without any attempt. */
  datatype Outcome = Succeeded(value: string) | Raised(error: string) | NoAttempt

  /** `max_retries or config.api_max_retries`: `None` and `0` fall back to the configured count. */
  function AttemptBudget(maxRetries: Option<int>, configured: int): (n: int)
    ensures maxRetries.Some? && maxRetries.value != 0 ==> n == maxRetries.value
    ensures maxRetries.None? || maxRetries.value == 0 ==> n == configured
  {
    match maxRetries
    case None => configured
    case Some(m) => if m == 0 then configured else m
  }

  /** Index of the first successful attempt in `k..n`, or `n` when attempts `k..n-1` all raise. */
  function FirstSuccess(chain: nat -> Attempt, n: nat, k: nat): (j: nat)
    requires k <= n
    ensures k <= j <= n
    ensures forall i :: k <= i < j ==> chain(i).Threw?
    ensures j < n ==> chain(j).Returned?
    decreases n - k
  {
    if k == n || chain(k).Returned? then k else FirstSuccess(chain, n, k + 1)
  }

  /**
   * The trace of `k` failed attempts, each followed by its wait: the i-th
   * (0-based) invocation receives the unchanged input and is followed by a
   * sleep of `delay * (i + 1)` seconds.
   */
  function Backoff<I>(input: I, delay: int, k: nat): (t: seq<Event<I>>)
    ensures |t| == 2 * k
    ensures forall i :: 0 <= i < k ==> t[2 * i] == Invoked(input) && t[2 * i + 1] == Slept(delay * (i + 1))
  {
    if k == 0 then [] else Backoff(input, delay, k - 1) + [Invoked(input), Slept(delay * k)]
  }

  /** The completion a call settles on with a budget of `n` attempts; `None` when it raises or never runs. */
  function Settle(chain: nat -> Attempt, n: int): (r: Option<string>)
    ensures n <= 0 ==> r == None
    ensures n > 0 ==> (r.Some? <==> exists j :: 0 <= j < n && chain(j).Returned?)
  {
    if n <= 0 then None
    else
      var j := FirstSuccess(chain, n, 0);
      if j < n then Some(chain(j).text) else None
  }

  /** The completion settled on is the text of the first attempt that returned; nothing means every attempt raised. */
  lemma SettleIsFirstSuccess(chain: nat -> Attempt, n: int)
    ensures Settle(chain, n).Some? ==>
      exists j :: 0 <= j < n && chain(j) == Returned(Settle(chain, n).value) && forall i :: 0 <= i < j ==> chain(i).Threw?
    ensures Settle(chain, n).None? ==> forall j :: 0 <= j < n ==> chain(j).Threw?
  {
    if n > 0 {
      var j := FirstSuccess(chain, n, 0);
      assert j < n ==> chain(j) == Returned(chain(j).text);
    }
  }

  /**
   * The retry loop. With a budget of n attempts (`max_retries`, or the
   * configured count when it is `None` or 0):
   * - no attempt at all when n <= 0 (the loop body never runs);
   * - the first successful attempt j < n ends the loop with its result,
   *   after j failed attempts each followed by its backoff sleep;
   * - when all n attempts raise, the last error is re-raised, with no sleep
   *   after the final attempt.
   */
  method InvokeWithRetry<I>(chain: nat -> Attempt, input: I, maxRetries: Option<int>, config: Settings.Config)
    returns (r: Outcome, trace: seq<Event<I>>)
    ensures var n := AttemptBudget(maxRetries, config.apiMaxRetries);
      && (n <= 0 ==> r == NoAttempt && trace == [])
      && (n > 0 ==>
            var j := FirstSuccess(chain, n, 0);
            && (j < n ==> r == Succeeded(chain(j).text) && trace == Backoff(input, config.apiRetryDelay, j) + [Invoked(input)])
            && (j == n ==> r == Raised(chain(n - 1).error) && trace == Backoff(input, config.apiRetryDelay, n - 1) + [Invoked(input)]))
    ensures Settle(chain, AttemptBudget(maxRetries, config.apiMaxRetries)) == (if r.Succeeded? then Some(r.value) else None)
  {
    var n := AttemptBudget(maxRetries, config.apiMaxRetries);
    trace := [];
    var attempt := 0;
    while attempt < n
      invariant n > 0 ==> attempt <= FirstSuccess(chain, n, 0)
      invariant n > 0 ==> attempt < n
      invariant n <= 0 ==> attempt == 0
      invariant trace == Backoff(input, config.apiRetryDelay, attempt)
      decreases n - attempt
    {
      match chain(attempt) {
        case Returned(text) =>
          trace := trace + [Invoked(input)];
          r := Succeeded(text);
          return;
        case Threw(error) =>
          trace := trace + [Invoked(input)];
          if attempt < n - 1 {
            trace := trace + [Slept(config.apiRetryDelay * (attempt + 1))];
          } else {
            r := Raised(error);
            return;
          }
      }
      attempt := attempt + 1;
    }
    r := NoAttempt;
  }

  /** Number of invocations in a trace. */
  function Invocations<I>(t: seq<Event<I>>): nat {
    if t == [] then 0 else Invocations(t[..|t| - 1]) + (if t[|t| - 1].Invoked? then 1 else 0)
  }

  /** Total seconds slept in a trace. */
  function TotalSleep<I>(t: seq<Event<I>>): int {
    if t == [] then 0 else TotalSleep(t[..|t| - 1]) + (if t[|t| - 1].Slept? then t[|t| - 1].seconds else 0)
  }

  /**
   * After j failed attempts and one final invocation the chain has been
   * invoked j + 1 times and the loop has slept delay * j * (j + 1) / 2 seconds.
   */
  lemma {:induction false} BackoffTotals<I>(input: I, delay: int, j: nat)
    ensures Invocations(Backoff(input, delay, j) + [Invoked(input)]) == j + 1
    ensures TotalSleep(Backoff(input, delay, j) + [Invoked(input)]) == delay * j * (j + 1) / 2
  {
    var t := Backoff(input, delay, j) + [Invoked(input)];
    assert t[..|t| - 1] == Backoff(input, delay, j);
    BackoffSums(input, delay, j);
  }

  lemma {:induction false} BackoffSums<I>(input: I, delay: int, j: nat)
    ensures Invocations(Backoff(input, delay, j)) == j
    ensures TotalSleep(Backoff(input, delay, j)) * 2 == delay * j * (j + 1)
  {
    if j > 0 {
      var t := Backoff(input, delay, j);
      var p := Backoff(input, delay, j - 1);
      var q := p + [Invoked(input)];
      assert t[..|t| - 1] == q;
      assert q[..|q| - 1] == p;
      BackoffSums(input, delay, j - 1);
      TriangleStep(delay, j, TotalSleep(p));
    }
  }

  /** One more wait of `delay * j` seconds extends the sum of the first `j - 1` waits to the first `j`. */
  lemma TriangleStep(delay: int, j: int, sum: int)
    requires sum * 2 == delay * (j - 1) * j
    ensures (sum + delay * j) * 2 == delay * j * (j + 1)
  {
    assert delay * (j - 1) * j == delay * j * j - delay * j;
    assert delay * j * (j + 1) == delay * j * j + delay * j;
  }

  /** With a positive base delay the waits strictly grow from one failed attempt to the next. */
  lemma BackoffGrows<I>(input: I, delay: int, k: nat, a: nat, b: nat)
    requires delay > 0 && a < b < k
    ensures Backoff(input, delay, k)[2 * a + 1].seconds < Backoff(input, delay, k)[2 * b + 1].seconds
  {
    assert delay * (a + 1) < delay * (b + 1) by {
      assert delay * (b + 1) - delay * (a + 1) == delay * (b - a);
    }
  }

  /**
   * The configured loop (3 attempts, 2 seconds base delay) that fails twice
   * and then succeeds has invoked the chain three times and slept 2 + 4 seconds.
   */
  lemma DefaultScheduleExample<I>(input: I, config: Settings.Config, chain: nat -> Attempt)
    requires config == Settings.Load(config.deepseekApiKey, config.kimiApiKey, config.dashscopeApiKey)
    requires chain(0).Threw? && chain(1).Threw? && chain(2).Returned?
    ensures Settle(chain, config.apiMaxRetries) == Some(chain(2).text)
    ensures Backoff(input, config.apiRetryDelay, 2) == [Invoked(input), Slept(2), Invoked(input), Slept(4)]
  {
    assert FirstSuccess(chain, 3, 0) == 2 by {
      assert FirstSuccess(chain, 3, 2) == 2;
    }
  }
}
