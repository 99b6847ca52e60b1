/** The retry policy of a batch, and the exponential backoff with jitter computed from it. */
module BatchBackoff {
  import opened Common

  datatype RawPolicy = RawPolicy(
    maxRetries: int, initialDelaySeconds: int, backoffMultiplier: int, maxDelaySeconds: int)
  {
    /** The ranges the custom resource definition enforces. */
    predicate InRange() {
      0 <= maxRetries <= 10 && 1 <= initialDelaySeconds <= 3600 &&
      1 <= backoffMultiplier <= 10 && 1 <= maxDelaySeconds <= 7200
    }
  }

  type RetryPolicy = p: RawPolicy | p.InRange() witness DEFAULT_POLICY

  const DEFAULT_POLICY := RawPolicy(3, 30, 2, 600)

  /** One past the largest Duration. */
  const DURATION_LIMIT: int := 0x8000_0000_0000_0000

  /** What converting a float outside Duration's range yields on amd64, where Go leaves the result open. */
  const OUT_OF_RANGE: int := -0x8000_0000_0000_0000

  function Pow(b: int, e: nat): int {
    if e == 0 then 1 else b * Pow(b, e - 1)
  }

  /** time.Duration(x): truncation for the values that a Duration holds. */
  function ToDuration(x: real): int {
    if 0.0 <= x < DURATION_LIMIT as real then x.Floor else OUT_OF_RANGE
  }

  /** Initial * Multiplier^k in nanoseconds, before any bound is applied. */
  function Exponential(p: RetryPolicy, k: nat): int {
    p.initialDelaySeconds * SECOND * Pow(p.backoffMultiplier, k)
  }

  predicate Fits(p: RetryPolicy, k: nat) {
    Exponential(p, k) < DURATION_LIMIT
  }

  /** min(Initial * Multiplier^k, Max): the delay that attempt k is meant to have before jitter. */
  function Base(p: RetryPolicy, k: nat): int {
    Min(Exponential(p, k), p.maxDelaySeconds * SECOND)
  }

  /** The delay as computed, for a random draw u in [0, 1). */
  function RetryDelay(p: RetryPolicy, k: nat, u: real): int {
    Jittered(Exponential(p, k), p.maxDelaySeconds * SECOND, u)
  }

  function Jittered(raw: int, maxDelay: int, u: real): int {
    var delay := if ToDuration(raw as real) > maxDelay then maxDelay as real else raw as real;
    ToDuration(WithJitter(delay, u))
  }

  lemma {:induction false} PowPositive(b: int, e: nat)
    requires b >= 1
    ensures Pow(b, e) >= 1
  {
    if e > 0 {
      PowPositive(b, e - 1);
    }
  }

  lemma {:induction false} PowMonotone(b: int, e: nat, f: nat)
    requires b >= 1 && e <= f
    ensures Pow(b, e) <= Pow(b, f)
  {
    if e < f {
      PowMonotone(b, e, f - 1);
      PowPositive(b, f - 1);
    }
  }

  /** The intended delays are positive and never shrink from one attempt to a later one. */
  lemma BaseMonotone(p: RetryPolicy, j: nat, k: nat)
    requires j <= k
    ensures 0 < Base(p, j) <= Base(p, k) <= p.maxDelaySeconds * SECOND
  {
    PowPositive(p.backoffMultiplier, j);
    PowMonotone(p.backoffMultiplier, j, k);
    var c := p.initialDelaySeconds * SECOND;
    ScaledMonotone(c, Pow(p.backoffMultiplier, j), Pow(p.backoffMultiplier, k));
  }

  lemma ScaledMonotone(c: int, x: int, y: int)
    requires c >= 1 && 1 <= x <= y
    ensures 1 <= c * x <= c * y
  {
  }

  /** The scheduled delay, jitter included, lies in [Base, 1.25 * Base]. */
  predicate InBand(p: RetryPolicy, k: nat, u: real) {
    Base(p, k) <= RetryDelay(p, k, u) && 4 * RetryDelay(p, k, u) <= 5 * Base(p, k)
  }

  /** The scheduled delay is in its band exactly when Initial * Multiplier^k is below the range of a Duration. */
  lemma DelayInBandIffFits(p: RetryPolicy, k: nat, u: real)
    requires 0.0 <= u < 1.0
    ensures InBand(p, k, u) <==> Fits(p, k)
    ensures !Fits(p, k) ==> RetryDelay(p, k, u) < 0
  {
    PowPositive(p.backoffMultiplier, k);
    ScaledMonotone(p.initialDelaySeconds * SECOND, 1, Pow(p.backoffMultiplier, k));
    JitteredInBandIff(Exponential(p, k), p.maxDelaySeconds * SECOND, u);
  }

  lemma JitteredInBandIff(raw: int, maxDelay: int, u: real)
    requires raw >= 1 && 1 <= maxDelay <= 7200 * SECOND && 0.0 <= u < 1.0
    ensures var total := Jittered(raw, maxDelay, u); var base := Min(raw, maxDelay);
      if raw < DURATION_LIMIT then base <= total && 4 * total <= 5 * base else total < 0
  {
    hide WithJitter;
    var delay := if raw < DURATION_LIMIT then Min(raw, maxDelay) else raw;
    WithJitterTruncates(delay, WithJitter(delay as real, u));
  }

  function WithJitter(d: real, u: real): (r: real)
    ensures d >= 0.0 && 0.0 <= u < 1.0 ==> d <= r <= 1.25 * d
  {
    assert d >= 0.0 && 0.0 <= u < 1.0 ==> 0.0 <= u * d <= d;
    d + u * d * 0.25
  }

  lemma WithJitterTruncates(d: int, x: real)
    requires d >= 1 && d as real <= x <= 1.25 * d as real
    ensures 4 * d < 3 * DURATION_LIMIT ==> d <= ToDuration(x) && 4 * ToDuration(x) <= 5 * d
    ensures d >= DURATION_LIMIT ==> ToDuration(x) < 0
  {
  }

  /** Such a policy passes the custom resource validation: its eighth retry is scheduled in the past. */
  lemma OverflowIsReachable()
    ensures var p: RetryPolicy := RawPolicy(10, 3600, 10, 7200);
      7 < p.maxRetries && !Fits(p, 7) && forall u: real | 0.0 <= u < 1.0 :: RetryDelay(p, 7, u) < 0
  {
    var p: RetryPolicy := RawPolicy(10, 3600, 10, 7200);
    assert Pow(10, 7) == 10_000_000 by {
      assert Pow(10, 3) == 1000;
      assert Pow(10, 5) == 100_000;
    }
    assert !Fits(p, 7);
    forall u: real | 0.0 <= u < 1.0 ensures RetryDelay(p, 7, u) < 0 {
      DelayInBandIffFits(p, 7, u);
    }
  }
}
