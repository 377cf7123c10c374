/** Retry with exponential backoff.  Delays are computed over ideal reals and
    truncated to whole nanoseconds; "" is the nil error. */
module Retry {
  import opened Common

  datatype Config = Config(maxAttempts: int, initialDelay: int, maxDelay: int, factor: real, jitter: bool,
                           retryIf: Option<string -> bool>)

  const DEFAULT := Config(3, 100_000_000, 10_000_000_000, 2.0, true, None)
  const MAX_INT64 := 0x7fff_ffff_ffff_ffff

  /** Without a positive attempt count the whole configuration is replaced. */
  function Normalize(cfg: Config): (c: Config)
    ensures c.maxAttempts >= 1
  {
    if cfg.maxAttempts <= 0 then DEFAULT else cfg
  }

  /** The other settings are ignored if and only if the attempt count is not
      positive; otherwise every one of them is kept. */
  lemma SettingsIgnoredIff(cfg: Config)
    ensures (forall other: Config :: other.maxAttempts == cfg.maxAttempts ==> Normalize(other) == Normalize(cfg))
            <==> cfg.maxAttempts <= 0
    ensures Normalize(cfg) == cfg <==> cfg.maxAttempts >= 1
    ensures cfg.maxAttempts <= 0 ==> Normalize(cfg) == Config(3, 100_000_000, 10_000_000_000, 2.0, true, None)
  {
    var other := cfg.(initialDelay := cfg.initialDelay + 1);
    assert other != cfg;
  }

  function Pow(b: real, n: nat): real {
    if n == 0 then 1.0 else b * Pow(b, n - 1)
  }

  /** Conversion of a real to an integer truncates towards zero. */
  function Trunc(x: real): int {
    if x >= 0.0 then x.Floor else -((-x).Floor)
  }

  function Min(a: real, b: real): real {
    if a > b then b else a
  }

  function Base(cfg: Config, attempt: nat): real
    requires attempt >= 1
  {
    cfg.initialDelay as real * Pow(cfg.factor, attempt - 1)
  }

  function Jittered(cfg: Config, base: real, draw: real): real {
    if cfg.jitter then base * (1.0 + draw * 0.5) else base
  }

  function Capped(cfg: Config, delay: real): int {
    Trunc(Min(Min(delay, cfg.maxDelay as real), MAX_INT64 as real))
  }

  /** `draw` is the random number, taken from [0, 1). */
  function Delay(cfg: Config, attempt: nat, draw: real): int
    requires attempt >= 1
  {
    Capped(cfg, Jittered(cfg, Base(cfg, attempt), draw))
  }

  /** Sleeping a non-positive time returns at once. */
  function Slept(d: int): nat {
    if d < 0 then 0 else d
  }

  function Total(delays: seq<int>): nat {
    if delays == [] then 0 else Total(delays[..|delays| - 1]) + Slept(delays[|delays| - 1])
  }

  /** Only positive delays count. */
  lemma TotalAdds(delays: seq<int>, d: int)
    ensures Total([]) == 0 && Total(delays + [d]) == Total(delays) + if d > 0 then d else 0
  {
    assert (delays + [d])[..|delays|] == delays;
  }

  /** initialDelay * (1 + factor + ... + factor^(n-1)) */
  function Geometric(cfg: Config, n: nat): real {
    if n == 0 then 0.0 else Geometric(cfg, n - 1) + Base(cfg, n)
  }

  /** The backoff grows by the factor from pause to pause. */
  lemma BackoffGrows(cfg: Config, attempt: nat)
    requires attempt >= 1
    ensures Base(cfg, 1) == cfg.initialDelay as real
    ensures Base(cfg, attempt + 1) == cfg.factor * Base(cfg, attempt)
  {
    Reorder(cfg.initialDelay as real, cfg.factor, Pow(cfg.factor, attempt - 1));
  }

  lemma Reorder(d: real, f: real, p: real)
    ensures d * (f * p) == f * (d * p)
  {
  }

  /** The power is the repeated product: the law of exponents. */
  lemma {:induction false} PowerLaw(b: real, m: nat, n: nat)
    ensures Pow(b, 0) == 1.0 && Pow(b, 1) == b && Pow(b, m + n) == Pow(b, m) * Pow(b, n)
  {
    assert Pow(b, 1) == b * Pow(b, 0);
    if m > 0 {
      PowerLaw(b, m - 1, n);
      Associate(b, Pow(b, m - 1), Pow(b, n));
    }
  }

  lemma Associate(a: real, b: real, c: real)
    ensures a * (b * c) == (a * b) * c
  {
  }

  /** The geometric sum in closed form. */
  lemma {:induction false} GeometricClosed(cfg: Config, n: nat)
    ensures Geometric(cfg, n) * (cfg.factor - 1.0) == cfg.initialDelay as real * (Pow(cfg.factor, n) - 1.0)
  {
    if n > 0 {
      GeometricClosed(cfg, n - 1);
      GeometricStep(cfg, n);
      ClosedStep(cfg.initialDelay as real, cfg.factor, Pow(cfg.factor, n - 1), Geometric(cfg, n - 1));
    }
  }

  lemma GeometricStep(cfg: Config, n: nat)
    requires n > 0
    ensures Geometric(cfg, n) == Geometric(cfg, n - 1) + cfg.initialDelay as real * Pow(cfg.factor, n - 1)
    ensures Pow(cfg.factor, n) == cfg.factor * Pow(cfg.factor, n - 1)
  {
  }

  lemma ClosedStep(d: real, f: real, p: real, g: real)
    requires g * (f - 1.0) == d * (p - 1.0)
    ensures (g + d * p) * (f - 1.0) == d * (f * p - 1.0)
  {
    assert (g + d * p) * (f - 1.0) == g * (f - 1.0) + d * p * (f - 1.0);
    assert d * p * (f - 1.0) == d * (f * p) - d * p;
  }

  /** A delay is its backoff, stretched by a share of one half with jitter, then cut
      at maxDelay and at the largest 64-bit integer and truncated: never less than
      the plain backoff cut. */
  lemma DelayIsCutBackoff(cfg: Config, attempt: nat, draw: real)
    requires attempt >= 1 && 0.0 <= draw < 1.0 && cfg.initialDelay >= 0 && cfg.factor >= 0.0
    ensures var b, d := Base(cfg, attempt), Delay(cfg, attempt, draw);
            var x := if cfg.jitter then b + b * draw * 0.5 else b;
            && b <= x <= 1.5 * b
            && (if x <= cfg.maxDelay as real && x <= 0x7fff_ffff_ffff_ffff as real then d as real <= x < d as real + 1.0
                else d == if cfg.maxDelay <= 0x7fff_ffff_ffff_ffff then cfg.maxDelay else 0x7fff_ffff_ffff_ffff)
    ensures Delay(cfg, attempt, draw) >= Capped(cfg, Base(cfg, attempt))
  {
    BaseNonNegative(cfg, attempt);
    var b := Base(cfg, attempt);
    JitterBounds(cfg, b, draw);
    Stretch(b, draw);
    CappedMonotone(cfg, b, Jittered(cfg, b, draw));
    CappedIsCut(cfg, Jittered(cfg, b, draw));
  }

  lemma Stretch(b: real, draw: real)
    ensures b * (1.0 + draw * 0.5) == b + b * draw * 0.5
  {
  }

  lemma CappedIsCut(cfg: Config, x: real)
    requires x >= 0.0
    ensures var d := Capped(cfg, x);
            if x <= cfg.maxDelay as real && x <= MAX_INT64 as real then d as real <= x < d as real + 1.0
            else d == if cfg.maxDelay <= MAX_INT64 then cfg.maxDelay else MAX_INT64
  {
    TruncWhole(cfg.maxDelay);
    TruncWhole(MAX_INT64);
  }

  lemma TruncWhole(n: int)
    ensures Trunc(n as real) == n
  {
    assert -(n as real) == (-n) as real;
  }

  ghost predicate Draws(draw: nat -> real) {
    forall k: nat :: 0.0 <= draw(k) < 1.0
  }

  /** The delays before the attempts 2, 3, ..., n + 1. */
  function Schedule(cfg: Config, draw: nat -> real, n: nat): (ds: seq<int>)
    ensures |ds| == n
  {
    seq(n, k requires 0 <= k < n => Delay(cfg, k + 1, draw(k)))
  }

  lemma {:induction false} PowNonNegative(b: real, n: nat)
    requires b >= 0.0
    ensures Pow(b, n) >= 0.0
  {
    if n > 0 {
      PowNonNegative(b, n - 1);
    }
  }

  lemma BaseNonNegative(cfg: Config, attempt: nat)
    requires attempt >= 1 && cfg.initialDelay >= 0 && cfg.factor >= 0.0
    ensures Base(cfg, attempt) >= 0.0
  {
    PowNonNegative(cfg.factor, attempt - 1);
  }

  lemma JitterBounds(cfg: Config, base: real, draw: real)
    requires base >= 0.0 && 0.0 <= draw < 1.0
    ensures base <= Jittered(cfg, base, draw) <= 1.5 * base
  {
    var x := draw * 0.5;
    assert 0.0 <= base * x;
    assert base * x <= base * 0.5;
    assert base * (1.0 + x) == base + base * x;
  }

  /** Every delay is at most maxDelay and, for non-negative settings, at most
      one and a half times its unjittered backoff. */
  lemma DelayBounds(cfg: Config, attempt: nat, draw: real)
    requires attempt >= 1 && 0.0 <= draw < 1.0
    ensures Slept(Delay(cfg, attempt, draw)) <= Slept(cfg.maxDelay)
    ensures cfg.initialDelay >= 0 && cfg.factor >= 0.0 ==>
              Slept(Delay(cfg, attempt, draw)) as real <= 1.5 * Base(cfg, attempt)
  {
    if cfg.initialDelay >= 0 && cfg.factor >= 0.0 {
      BaseNonNegative(cfg, attempt);
      JitterBounds(cfg, Base(cfg, attempt), draw);
    }
  }

  lemma TotalSnoc(cfg: Config, draw: nat -> real, n: nat)
    requires n >= 1
    ensures Total(Schedule(cfg, draw, n)) == Total(Schedule(cfg, draw, n - 1)) + Slept(Delay(cfg, n, draw(n - 1)))
  {
    var ds := Schedule(cfg, draw, n);
    assert ds[..n - 1] == Schedule(cfg, draw, n - 1);
  }

  lemma OneMoreTimes(n: nat, m: nat)
    requires n >= 1
    ensures n * m == (n - 1) * m + m
  {
  }

  /** Total sleep over n pauses. */
  lemma {:induction false} TotalBounds(cfg: Config, draw: nat -> real, n: nat)
    requires Draws(draw)
    ensures Total(Schedule(cfg, draw, n)) <= n * Slept(cfg.maxDelay)
    ensures cfg.initialDelay >= 0 && cfg.factor >= 0.0 ==>
              Total(Schedule(cfg, draw, n)) as real <= 1.5 * Geometric(cfg, n)
  {
    if n > 0 {
      TotalBounds(cfg, draw, n - 1);
      TotalSnoc(cfg, draw, n);
      DelayBounds(cfg, n, draw(n - 1));
      OneMoreTimes(n, Slept(cfg.maxDelay));
    }
  }

  lemma {:induction false} GeometricGrows(cfg: Config, m: nat, n: nat)
    requires m <= n && cfg.initialDelay >= 0 && cfg.factor >= 0.0
    ensures Geometric(cfg, m) <= Geometric(cfg, n)
  {
    if m < n {
      GeometricGrows(cfg, m, n - 1);
      BaseNonNegative(cfg, n);
    }
  }

  /** Without jitter and with a factor of at least one the delays never shrink. */
  lemma DelaysNeverShrink(cfg: Config, attempt: nat, draw: real, draw': real)
    requires attempt >= 1 && !cfg.jitter && cfg.factor >= 1.0 && cfg.initialDelay >= 0
    ensures Delay(cfg, attempt, draw) <= Delay(cfg, attempt + 1, draw')
  {
    PowNonNegative(cfg.factor, attempt - 1);
    var p, q := Pow(cfg.factor, attempt - 1), Pow(cfg.factor, attempt);
    GrowByFactor(p, cfg.factor);
    assert q == cfg.factor * p;
    ScaleLe(p, q, cfg.initialDelay as real);
    CappedMonotone(cfg, Base(cfg, attempt), Base(cfg, attempt + 1));
  }

  lemma GrowByFactor(p: real, f: real)
    requires p >= 0.0 && f >= 1.0
    ensures p <= f * p
  {
    assert (f - 1.0) * p >= 0.0;
  }

  lemma ScaleLe(p: real, q: real, k: real)
    requires p <= q && k >= 0.0
    ensures k * p <= k * q
  {
    assert k * (q - p) >= 0.0;
  }

  lemma CappedMonotone(cfg: Config, x: real, y: real)
    requires x <= y
    ensures Capped(cfg, x) <= Capped(cfg, y)
  {
    var m := cfg.maxDelay as real;
  }

  predicate Retryable(cfg: Config, err: string) {
    cfg.retryIf.None? || (cfg.retryIf.value)(err)
  }

  predicate FailedRetryably(cfg: Config, outcome: nat -> string, calls: nat) {
    forall k: nat :: 1 <= k <= calls ==> outcome(k) != "" && Retryable(cfg, outcome(k))
  }

  /** The pauses so far are the delays before the attempts 2, 3, ... */
  ghost predicate OnSchedule(cfg: Config, draw: nat -> real, delays: seq<int>) {
    delays == Schedule(cfg, draw, |delays|)
  }

  /** The total sleep is at most maxDelay per pause and, for non-negative settings,
      one and a half times the geometric sum of the backoffs. */
  predicate SleepsWithin(cfg: Config, delays: seq<int>)
    requires cfg.maxAttempts >= 1
  {
    && Total(delays) <= (cfg.maxAttempts - 1) * (if cfg.maxDelay > 0 then cfg.maxDelay else 0)
    && (cfg.initialDelay >= 0 && cfg.factor >= 0.0 ==>
          Total(delays) as real <= 1.5 * Geometric(cfg, cfg.maxAttempts - 1))
  }

  lemma TotalWithin(cfg: Config, draw: nat -> real, delays: seq<int>)
    requires Draws(draw) && OnSchedule(cfg, draw, delays) && |delays| < cfg.maxAttempts
    ensures SleepsWithin(cfg, delays)
  {
    TotalBounds(cfg, draw, |delays|);
    MulLe(|delays|, cfg.maxAttempts - 1, Slept(cfg.maxDelay));
    if cfg.initialDelay >= 0 && cfg.factor >= 0.0 {
      GeometricGrows(cfg, |delays|, cfg.maxAttempts - 1);
    }
  }

  /** The two ceilings, maxDelay first. */
  method CutDelay(cfg: Config, given: real) returns (d: int)
    ensures d == Capped(cfg, given)
  {
    var delay := given;
    if delay > cfg.maxDelay as real {
      delay := cfg.maxDelay as real;
    }
    if delay > MAX_INT64 as real {
      delay := MAX_INT64 as real;
    }
    d := Trunc(delay);
  }

  method CalculateDelay(cfg: Config, attempt: nat, draw: real) returns (d: int)
    requires attempt >= 1
    ensures d == Delay(cfg, attempt, draw)
  {
    var delay := Base(cfg, attempt);
    if cfg.jitter {
      delay := delay * (1.0 + draw * 0.5);
    }
    assert delay == Jittered(cfg, Base(cfg, attempt), draw);
    d := CutDelay(cfg, delay);
  }

  /** The pause after a failed attempt joins the earlier ones. */
  method Pause(cfg: Config, attempt: nat, draw: nat -> real, earlier: seq<int>) returns (pauses: seq<int>)
    requires attempt == |earlier| + 1 && OnSchedule(cfg, draw, earlier)
    ensures OnSchedule(cfg, draw, pauses) && |pauses| == attempt
  {
    var delay := CalculateDelay(cfg, attempt, draw(attempt - 1));
    pauses := earlier + [delay];
  }

  /** `outcome(k)` is what the k-th call of the function returns: all calls but the
      last failed with an error worth retrying, and one before the last allowed
      succeeded or failed with an error that is not. */
  method RetryCall(given: Config, outcome: nat -> string, draw: nat -> real)
      returns (err: string, calls: nat, slept: seq<int>)
    requires Draws(draw)
    ensures var cfg := Normalize(given);
            && 1 <= calls <= cfg.maxAttempts && err == outcome(calls)
            && (forall k: nat :: 1 <= k < calls ==>
                  outcome(k) != "" && (cfg.retryIf.Some? ==> (cfg.retryIf.value)(outcome(k))))
            && (calls < cfg.maxAttempts ==> err == "" || (cfg.retryIf.Some? && !(cfg.retryIf.value)(err)))
            && |slept| == calls - 1 && (forall k: nat :: k < |slept| ==> slept[k] == Delay(cfg, k + 1, draw(k)))
            && Total(slept) <= (cfg.maxAttempts - 1) * (if cfg.maxDelay > 0 then cfg.maxDelay else 0)
            && (cfg.initialDelay >= 0 && cfg.factor >= 0.0 ==>
                  Total(slept) as real <= 1.5 * Geometric(cfg, cfg.maxAttempts - 1))
  {
    var cfg := Normalize(given);
    var attempt := 1;
    var lastErr := "";
    calls, slept, err := 0, [], "";
    while attempt <= cfg.maxAttempts
      invariant 1 <= attempt <= cfg.maxAttempts + 1 && calls == attempt - 1
      invariant FailedRetryably(cfg, outcome, calls)
      invariant OnSchedule(cfg, draw, slept)
      invariant |slept| == if attempt <= cfg.maxAttempts then attempt - 1 else attempt - 2
      invariant attempt > 1 ==> lastErr == outcome(attempt - 1)
    {
      err := outcome(attempt);
      calls := calls + 1;
      if err == "" {
        TotalWithin(cfg, draw, slept);
        return;
      }
      lastErr := err;
      if cfg.retryIf.Some? && !(cfg.retryIf.value)(err) {
        TotalWithin(cfg, draw, slept);
        return;
      }
      if attempt < cfg.maxAttempts {
        slept := Pause(cfg, attempt, draw, slept);
      }
      attempt := attempt + 1;
    }
    err := lastErr;
    TotalWithin(cfg, draw, slept);
  }

  /** With a context: `before(k)` says whether it is done when attempt k starts,
      `during(k)` whether it ends the pause after attempt k; `pauses` are the
      pauses begun. */
  method RetryWithContext(given: Config, outcome: nat -> string, draw: nat -> real,
                          before: nat -> bool, during: nat -> bool, ctxErr: string)
      returns (err: string, calls: nat, cancelled: bool, pauses: seq<int>)
    requires Draws(draw) && ctxErr != ""
    ensures var cfg := Normalize(given);
            && (forall k: nat :: 1 <= k <= calls ==> !before(k)) && (forall k: nat :: 1 <= k < calls ==> !during(k))
            && (if cancelled then
                  && err == ctxErr && calls < cfg.maxAttempts && FailedRetryably(cfg, outcome, calls)
                  && (before(calls + 1) || (calls >= 1 && during(calls)))
                else
                  && 1 <= calls <= cfg.maxAttempts && err == outcome(calls) && FailedRetryably(cfg, outcome, calls - 1)
                  && (calls < cfg.maxAttempts ==> err == "" || (cfg.retryIf.Some? && !(cfg.retryIf.value)(err))))
            && (err == "" ==> calls >= 1 && outcome(calls) == "")
            && pauses == Schedule(cfg, draw, if cancelled then calls else calls - 1)
            && SleepsWithin(cfg, pauses)
  {
    var cfg := Normalize(given);
    var attempt := 1;
    var lastErr := "";
    calls, err, cancelled, pauses := 0, "", false, [];
    while attempt <= cfg.maxAttempts
      invariant 1 <= attempt <= cfg.maxAttempts + 1 && calls == attempt - 1 && !cancelled
      invariant FailedRetryably(cfg, outcome, calls)
      invariant (forall k: nat :: 1 <= k <= calls ==> !before(k)) && (forall k: nat :: 1 <= k < calls ==> !during(k))
      invariant 1 < attempt <= cfg.maxAttempts ==> !during(attempt - 1)
      invariant OnSchedule(cfg, draw, pauses)
      invariant |pauses| == if attempt <= cfg.maxAttempts then attempt - 1 else attempt - 2
      invariant attempt > 1 ==> lastErr == outcome(attempt - 1)
    {
      if before(attempt) {
        err, cancelled := ctxErr, true;
        break;
      }
      err := outcome(attempt);
      calls := calls + 1;
      if err == "" {
        break;
      }
      lastErr := err;
      if cfg.retryIf.Some? && !(cfg.retryIf.value)(err) {
        break;
      }
      if attempt < cfg.maxAttempts {
        pauses := Pause(cfg, attempt, draw, pauses);
        if during(attempt) {
          err, cancelled := ctxErr, true;
          break;
        }
      }
      attempt := attempt + 1;
    }
    if attempt > cfg.maxAttempts {
      err := lastErr;
    }
    TotalWithin(cfg, draw, pauses);
  }
}
