# Leaderboard bot core in Dafny

This project models the core of a Discord bot that keeps a points leaderboard. The bot stores its
data in one SQLite table, `leaderboard(user_id INTEGER PRIMARY KEY, points INTEGER, wins INTEGER)`.
It has three commands that touch that table:

- `=add @member points` adds `points` to the member's row and one win, creating the row on the first
  award. It then reports the member's position in the ranking.
- `=leaderboard` lists all rows by points, numbered from 1. It is limited to one use per 15 seconds
  per guild. A rejected call shows a notice that counts down once per second and is then deleted.
- `=reset` deletes every row.

`add` and `reset` run only for callers who hold one configured role. Everyone else gets a
"Permission Denied" reply.

Modules, one per concern of `leaderboard.py`:

- `Schema`: the table's row type and the 64-bit range an SQLite INTEGER can hold.
- `Gate`: `has_role`, a search of the caller's roles for `REQUIRED_ROLE_ID`.
- `Ranking`: `ORDER BY points DESC` as an insertion sort, the position lookup of `add` and the
  numbered listing of `leaderboard`.
- `Store`: the table as a `map` from user id to `Stats(points, wins)`. It holds the upsert as a
  specification function with lemmas about runs of awards, and a class `Board` whose `table` field
  `Award` and `Reset` update in place. `Snapshot` reads the table in no particular order.
- `Countdown`: the cooldown notice loop of `leaderboard_error`.
- `Commands`: the three commands with the role check in front and the reply each one sends. It ends
  with a verified session: 42 gets 10 points, then 7 gets 15 points, then the board is reset.
- `Sets` and `Wrappers`: picking a member of a set, and `Option`.

Modelling choices:

- **Tie-break.** SQLite leaves the order of rows with equal points open. The model lists them by
  ascending `user_id`, which is the order SQLite scans a table keyed by its rowid.
  `Store.RankCanonical` proves the ranking is then the same whatever order the table is read in.
- **Integer overflow.** Python's sqlite3 raises OverflowError when it binds an integer outside
  64 bits. So an award whose new points (or wins, or user id) do not fit writes nothing. The error
  handler of `add` only answers a failed role check, so no reply is sent either. The code raises no
  distinct overflow error and sends nothing; the model does the same.
- **Replies.** The code's messages carry the awarded delta and the position, so
  `Commands.PointsAwarded` does too; the new totals are in `Store.AwardOutcome`. The DM to the member
  is sent before the channel message; when Discord refuses the DM, `add` stops after the write and
  nothing is sent to the channel. `Commands.Add` takes whether the DM was delivered as a parameter.
- **Position lookup.** The code takes `[...][0]` of a comprehension, which raises IndexError when the
  user has no row. The model returns `None` there. `Store.PositionDetermined` proves this never happens
  after a successful award.
- **Countdown start.** The code counts down from `int(retry_after)`, which truncates, and so does
  the model.

## Model

| member | source | states |
|---|---|---|
| Gate.FindRole | leaderboard.py:29 | the first role whose id matches, or None exactly when no role matches |
| Gate.HasRole | leaderboard.py:28-30 | true iff some role of the caller carries `REQUIRED_ROLE_ID` |
| Ranking.Insert | leaderboard.py:68 | inserting one row gives the old rows plus that row, as a multiset |
| Ranking.InsertRanked | leaderboard.py:68 | inserting into a ranked sequence keeps it ranked |
| Ranking.InsertDistinct | leaderboard.py:17-18 | inserting a row with a new user id keeps user ids distinct |
| Ranking.Rank | leaderboard.py:68 | the ranking is a permutation of the snapshot, ordered by points descending and then by ascending user id |
| Ranking.RankIsOrderBy | leaderboard.py:68 | the ranking has the snapshot's length and its rows, points never increase down it, and user ids stay distinct |
| Ranking.RankedUnique | leaderboard.py:68 | two ranked sequences with distinct ids and the same rows are equal, so the order leaves nothing open |
| Ranking.PositionOf | leaderboard.py:52 | the 1-based index of the first row with the id, in 1..n; None exactly when no row has it |
| Ranking.Listing | leaderboard.py:77 | one line per ranked row; line i is numbered i+1 and carries that row's id, wins and points |
| Ranking.ListingAgreesWithPosition | leaderboard.py:77 | line i of the listing is numbered i+1, which is the position the lookup gives for that line's user |
| Store.Upsert | leaderboard.py:36-45 | an award adds the id to the keys and leaves every other row unchanged; a new row is (delta, 1) and one more row; an existing row gains delta points and one win |
| Store.UpsertLookup | leaderboard.py:38-45 | with a missing row read as zero, one award adds (delta, 1) to the target and changes no one else |
| Store.AwardsAccumulate | leaderboard.py:38-45 | after any run of awards in any interleaving, a user's points grow by the sum of its deltas and its wins by the number of its awards; it has a row iff it had one or was awarded |
| Store.AwardsAfterReset | leaderboard.py:42-45 | starting from the empty table, a user has a row iff it was awarded, with points equal to the sum of its deltas and wins equal to its award count |
| Store.RankCanonical | leaderboard.py:50 | any two snapshots of the same table rank to the same sequence |
| Store.PositionConsistent | leaderboard.py:50-52 | for every user with a row, the ranking at that user's position minus one is that user's row |
| Store.PositionDetermined | leaderboard.py:48-52 | the position reported after an award exists, lies in 1..number of rows, and is the same for every snapshot |
| Store.Board.constructor | leaderboard.py:15-21 | a freshly created table is empty and satisfies the row invariant |
| Store.Board.Snapshot | leaderboard.py:68-69 | the rows read are the table's rows: one per key, with that key's points and wins, and ids distinct |
| Store.Board.Award | leaderboard.py:34-52 | if the new values fit in 64 bits the table becomes the upsert, with the new totals and the target's position reported; otherwise the table is unchanged; every row keeps storable values and at least one win |
| Store.Board.Reset | leaderboard.py:89 | the table is empty afterwards |
| Countdown.Truncate | leaderboard.py:120 | `int()` rounds toward zero: for a non-negative wait the result n has n <= x < n+1 |
| Countdown.TicksCountDown | leaderboard.py:121-123 | the countdown from k has max(k, 0) edits; edit j shows k-j; the values strictly decrease and stay at least 1 |
| Countdown.RunCountdown | leaderboard.py:121-124 | the loop emits the edits k, ..., 1 and then one delete |
| Countdown.OnCooldown | leaderboard.py:117-124 | one post, then edits showing int(retry_after) down to 1, then one delete, and nothing else |
| Commands.Add | leaderboard.py:32-63 | without the role: Permission Denied and no change; on overflow: no reply and no change; otherwise the upsert, and if the DM was delivered a reply carrying the delta and the member's position, else no reply |
| Commands.Reset | leaderboard.py:85-95 | without the role: Permission Denied and no change; with it: the table is emptied and the reset is confirmed |
| Commands.Leaderboard | leaderboard.py:64-83 | "empty" exactly when the table has no rows; otherwise one line per row, numbered from 1, in ranking order, the same for any read order |
| Commands.OneAward | leaderboard.py:50-52 | after the first award of 10 points to 42 on an empty table, 42 is at position 1 |
| Commands.TwoAwards | leaderboard.py:50-52 | after 7 then gets 15 points, 7 is at position 1 and 42 at position 2 |

## Left out

- Discord itself is not modelled: the client, intents, `bot.run`, embed and DM rendering, the help
  command and the exact message texts. Replies are reduced to which message is sent.
- The role lookup is not modelled. The caller's roles arrive as a sequence of role ids.
- aiosqlite connections, `commit` and durability are not modelled. The table is an in-memory map.
  `Store.Board.constructor` models a database with no table yet; reopening a database that already
  has rows is not modelled.
- Concurrency is not modelled. `add` reads and writes across `await` points on two connections, so
  it is not atomic with respect to other commands. The model runs each command to completion.
- The cooldown bucket (`commands.cooldown(1, 15, guild)`) is not modelled, because it is
  discord.py's code. `Commands.Leaderboard` models a call the bucket let through, and
  `Countdown.OnCooldown` models the handler of a rejected call.
- The one-second sleeps and the `:.1f` formatting of the countdown are not modelled, because they
  are wall-clock time and float rendering. The model keeps the sequence of operations on the notice.
- Discord's conversion of the `member` and `points` arguments is not modelled, nor its errors. Like
  overflow, those errors reach the error handler of `add`, which sends nothing for them.
- Store.AwardsAccumulate: stated for runs in which every award fits in 64 bits. An award that
  overflows leaves the table unchanged (`Store.Board.Award`), so it drops out of the sums.
