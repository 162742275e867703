/** Lengths of time in microseconds, the resolution of a Python datetime. */
module Durations {
  const SECOND := 1_000_000
  const DAY := 86_400 * SECOND
}
