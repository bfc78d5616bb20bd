/**
 * The single `leaderboard` table: `user_id INTEGER PRIMARY KEY`,
 * `points INTEGER NOT NULL`, `wins INTEGER NOT NULL`.
 */
module Schema {

  /** SQLite stores an INTEGER in at most eight bytes, signed. */
  const INT64_MIN: int := -0x8000_0000_0000_0000
  const INT64_MAX: int := 0x7FFF_FFFF_FFFF_FFFF

  /** Whether Python's sqlite3 module can bind `x` as an INTEGER parameter. */
  predicate InInt64(x: int) {
    INT64_MIN <= x <= INT64_MAX
  }

  /** The non-key columns of one row. */
  datatype Stats = Stats(points: int, wins: int)

  /** Whether both columns of a row can be written. */
  predicate Storable(s: Stats) {
    InInt64(s.points) && InInt64(s.wins)
  }

  /** One row of the table, as a `SELECT user_id, points, wins` returns it. */
  datatype Entry = Entry(id: int, stats: Stats)

}
