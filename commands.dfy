/**
 * The three commands of the bot that touch the leaderboard, with the role
 * check in front of `add` and `reset` and the replies they send. Discord
 * delivers each reply; the model only says which one is sent.
 */
module Commands {
  import opened Wrappers
  import opened Schema
  import opened Gate
  import opened Ranking
  import opened Store

  /** What a command sends back to the channel (and, for `add`, to the member). */
  datatype Reply =
    | PointsAwarded(member: int, points: int, position: nat)  // embed and DM of `add`
    | PermissionDenied                                        // `role_error` on a failed check
    | Unanswered                                              // any other error: `role_error` sends nothing
    | LeaderboardEmpty
    | LeaderboardListing(lines: seq<Line>)
    | LeaderboardReset

  /**
   * `=add @member points`. Without the role nothing is read or written and
   * the caller is told so; a value SQLite cannot hold aborts the command
   * before any write and no reply is sent; otherwise the row is upserted.
   * The DM to the member goes out first: if Discord refuses it
   * (`dmDelivered` false) the command stops there and nothing reaches the
   * channel; else the reply carries the awarded points and the new position.
   */
  method Add(board: Board, roles: seq<Role>, member: int, points: int, dmDelivered: bool)
    returns (reply: Reply)
    requires board.Valid()
    modifies board
    ensures board.Valid()
    ensures !HasRole(roles) ==> reply == PermissionDenied && board.table == old(board.table)
    ensures HasRole(roles) && !AwardFits(old(board.table), member, points) ==>
              reply == Unanswered && board.table == old(board.table)
    ensures HasRole(roles) && AwardFits(old(board.table), member, points) ==>
              && board.table == Upsert(old(board.table), member, points)
              && (!dmDelivered ==> reply == Unanswered)
              && (dmDelivered ==> reply.PointsAwarded? && reply.member == member && reply.points == points)
              && (dmDelivered ==> 1 <= reply.position <= |board.table|)
              && (dmDelivered ==>
                    forall rows :: IsSnapshotOf(rows, board.table) ==> PositionOf(Rank(rows), member) == Some(reply.position))
  {
    if !HasRole(roles) {
      return PermissionDenied;
    }
    var outcome := board.Award(member, points);
    match outcome
    case TooLarge =>
      reply := Unanswered;
    case Awarded(_, _, position) =>
      reply := if dmDelivered then PointsAwarded(member, points, position) else Unanswered;
  }

  /** `=reset`: without the role the table is untouched; with it, emptied. */
  method Reset(board: Board, roles: seq<Role>) returns (reply: Reply)
    requires board.Valid()
    modifies board
    ensures board.Valid()
    ensures !HasRole(roles) ==> reply == PermissionDenied && board.table == old(board.table)
    ensures HasRole(roles) ==> reply == LeaderboardReset && board.table == map[]
  {
    if !HasRole(roles) {
      return PermissionDenied;
    }
    board.Reset();
    reply := LeaderboardReset;
  }

  /**
   * `=leaderboard` once its cooldown lets it through: "empty" exactly when
   * the table has no row, otherwise the ranking numbered from 1, the same
   * whatever order the table is read in.
   */
  method Leaderboard(board: Board) returns (reply: Reply)
    ensures reply == LeaderboardEmpty <==> board.table == map[]
    ensures reply.LeaderboardEmpty? || reply.LeaderboardListing?
    ensures reply.LeaderboardListing? ==>
              |reply.lines| == |board.table|
              && forall rows :: IsSnapshotOf(rows, board.table) ==> reply.lines == Listing(Rank(rows))
  {
    var rows := board.Snapshot();
    if rows == [] {
      reply := LeaderboardEmpty;
    } else {
      RankIsOrderBy(rows);
      forall other | IsSnapshotOf(other, board.table)
        ensures Listing(Rank(other)) == Listing(Rank(rows))
      {
        RankCanonical(rows, other, board.table);
      }
      reply := LeaderboardListing(Listing(Rank(rows)));
    }
  }

  /**
   * A session on a fresh table: 42 gets 10 points and is first; 7 gets 15
   * and is first, pushing 42 to second; a caller without the role cannot
   * reset; after a reset the board is empty.
   */
  method Session() {
    var board := new Board();
    var moderator := [Role(REQUIRED_ROLE_ID)];

    var first := Add(board, moderator, 42, 10, true);
    assert board.table == map[42 := Stats(10, 1)];
    OneAward();
    assert first == PointsAwarded(42, 10, 1);

    var second := Add(board, moderator, 7, 15, true);
    assert board.table == map[42 := Stats(10, 1), 7 := Stats(15, 1)];
    TwoAwards();
    assert second == PointsAwarded(7, 15, 1);

    var denied := Reset(board, []);
    assert denied == PermissionDenied && 42 in board.table;

    var done := Reset(board, moderator);
    var listing := Leaderboard(board);
    assert listing == LeaderboardEmpty;
  }

  /** The table after the first award of the session, and its ranking. */
  lemma OneAward()
    ensures var rows := [Entry(42, Stats(10, 1))];
            IsSnapshotOf(rows, map[42 := Stats(10, 1)]) && PositionOf(Rank(rows), 42) == Some(1)
  {
    var rows := [Entry(42, Stats(10, 1))];
    assert Rank(rows) == rows;
  }

  /** The table after the second award: 7 first with 15, 42 second with 10. */
  lemma TwoAwards()
    ensures var rows := [Entry(42, Stats(10, 1)), Entry(7, Stats(15, 1))];
            && IsSnapshotOf(rows, map[42 := Stats(10, 1), 7 := Stats(15, 1)])
            && PositionOf(Rank(rows), 7) == Some(1)
            && PositionOf(Rank(rows), 42) == Some(2)
  {
    var rows := [Entry(42, Stats(10, 1)), Entry(7, Stats(15, 1))];
    assert Rank(rows[1..]) == [Entry(7, Stats(15, 1))];
    assert Rank(rows) == [Entry(7, Stats(15, 1)), Entry(42, Stats(10, 1))];
  }

}
