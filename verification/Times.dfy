/** Instants are whole nanoseconds since 1970; cursors keep microseconds. */
module Times {
  const SECOND := 1_000_000_000

  /** `trunc_subsecs(6)`, as a number of microseconds (rounded down, as chrono counts). */
  function Micros(nanos: int): int {
    nanos / 1000
  }
}
