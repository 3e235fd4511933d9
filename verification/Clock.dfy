/** Go's time arithmetic: instants in nanoseconds and 64-bit durations. */
module Clock {

  /** Nanoseconds since Go's zero time, which `IsZero` recognizes. */
  type Instant = int

  const ZERO_INSTANT: Instant := 0

  const MIN_DURATION: int := -0x8000_0000_0000_0000
  const MAX_DURATION: int := 0x7FFF_FFFF_FFFF_FFFF
  const MODULUS: int := 0x1_0000_0000_0000_0000
  const NANOS_PER_SECOND: int := 1_000_000_000

  type Duration = d: int | MIN_DURATION <= d <= MAX_DURATION witness 0

  /** `t.Sub(u)`: the elapsed time, saturating at the two ends of Duration. */
  function Sub(t: Instant, u: Instant): Duration {
    if t - u > MAX_DURATION then MAX_DURATION
    else if t - u < MIN_DURATION then MIN_DURATION
    else t - u
  }

  /** Two's complement wrap-around of a 64-bit product. */
  function Wrap64(x: int): Duration {
    (x - MIN_DURATION) % MODULUS + MIN_DURATION
  }

  /** `time.Duration(n) * time.Second`. */
  function OfSeconds(n: int): Duration {
    Wrap64(n * NANOS_PER_SECOND)
  }

  /** `d.Seconds()`. */
  function InSeconds(d: Duration): real {
    d as real / NANOS_PER_SECOND as real
  }

  /** Between two clock readings, seconds count 10^9 nanoseconds each, up to about 292 years. */
  lemma SecondsBetween(t: Instant, u: Instant)
    requires t > u
    ensures var seconds := InSeconds(Sub(t, u));
            && seconds > 0.0
            && (t - u <= 9_223_372_036_854_775_807 ==>
                  seconds * 1_000_000_000.0 == (t - u) as real)
            && (t - u > 9_223_372_036_854_775_807 ==>
                  seconds * 1_000_000_000.0 == 9_223_372_036_854_775_807.0)
  {
  }

  /** Wrapping keeps the remainder modulo 2^64, read as a signed number. */
  lemma WrapsToRemainder(x: nat)
    ensures var r := x % MODULUS;
            Wrap64(x) == if r <= MAX_DURATION then r else r - MODULUS
  {
    var q, r := x / MODULUS, x % MODULUS;
    assert x - MIN_DURATION == q * MODULUS + (r - MIN_DURATION);
    if r <= MAX_DURATION {
      RemainderOf(x - MIN_DURATION, q, r - MIN_DURATION);
    } else {
      RemainderOf(x - MIN_DURATION, q + 1, r - MIN_DURATION - MODULUS);
    }
  }

  lemma RemainderOf(x: int, q: int, r: int)
    requires x == q * MODULUS + r && 0 <= r < MODULUS
    ensures x % MODULUS == r
  {
  }

  /**
   * A configured cooldown is honoured to the nanosecond exactly up to 9223372036 seconds. Beyond
   * that only the remainder of its nanoseconds modulo 2^64 counts: the window is positive, and
   * then as long as that remainder, exactly when the remainder lies between 1 and the largest
   * Duration; otherwise the damper is off.
   */
  lemma CooldownWindowExact(seconds: nat)
    ensures OfSeconds(seconds) == seconds * NANOS_PER_SECOND <==> seconds <= 9_223_372_036
    ensures var remainder := seconds * NANOS_PER_SECOND % MODULUS;
            && (OfSeconds(seconds) > 0 <==> 0 < remainder <= MAX_DURATION)
            && (OfSeconds(seconds) > 0 ==> OfSeconds(seconds) == remainder)
  {
    var x := seconds * NANOS_PER_SECOND;
    WrapsToRemainder(x);
    hide Wrap64;
    if seconds <= 9_223_372_036 {
      RemainderOf(x, 0, x);
    }
  }

  /** One second too many switches the damper off; twice as many leave less than a second. */
  lemma LongCooldowns()
    ensures OfSeconds(9_223_372_037) < 0
    ensures 0 < OfSeconds(18_446_744_074) < NANOS_PER_SECOND
  {
  }
}
