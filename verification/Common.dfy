/** What several parts share: the two database dialects, durations, and the smaller and the larger of two numbers. */
module Common {
  datatype Dialect = Postgres | SQLite

  /** Durations are integers in nanoseconds. */
  const SECOND: int := 1_000_000_000
  const MINUTE: int := 60 * SECOND
  const HOUR: int := 60 * MINUTE

  function Min(a: int, b: int): int {
    if a < b then a else b
  }

  function Max(a: int, b: int): int {
    if a < b then b else a
  }
}
