/** The retention rule both job services use. */
module Retention {
  const SECOND := 1_000_000_000

  /** In nanoseconds. Negative: never expire; zero: the service's default. */
  function EffectiveTTL(retentionSeconds: int, defaultTTL: int): int {
    if retentionSeconds < 0 then -1
    else if retentionSeconds > 0 then retentionSeconds * SECOND
    else defaultTTL
  }
}
