/**
 * Go `time.Time` values, as instants in UTC counted in nanoseconds since the
 * Unix epoch.
 */
module Timestamps {
  import Text

  type Time = int

  const NanosPerSecond: int := 1_000_000_000

  /** `time.Time{}`: January 1 of year 1, 00:00:00 UTC. */
  const ZeroTime: Time := -62_135_596_800 * NanosPerSecond

  /** `t.Unix()`: whole seconds, rounded towards the past. */
  function UnixSeconds(t: Time): int {
    t / NanosPerSecond
  }

  /**
   * `t.Format(time.RFC3339)`. The text is stood in for by the decimal count of
   * whole seconds: what matters to the callers is that the layout has second
   * precision and that distinct seconds print differently.
   */
  function Rfc3339(t: Time): string {
    Text.FormatDecimal(UnixSeconds(t))
  }

  /** Two instants format alike exactly when they fall in the same second. */
  lemma Rfc3339SecondPrecision(a: Time, b: Time)
    ensures Rfc3339(a) == Rfc3339(b) <==> UnixSeconds(a) == UnixSeconds(b)
  {
    Text.FormatDecimalInjective(UnixSeconds(a), UnixSeconds(b));
  }
}
