/**
 * The error handler of the `leaderboard` command when the command is on
 * cooldown: post a notice, edit it once per second with the seconds left,
 * then delete it. The sleeps between the edits are not modelled; only the
 * sequence of operations on the notice is.
 */
module Countdown {

  /** One operation on the notice message. */
  datatype NoticeOp =
    | Post(retryAfter: real)   // `ctx.send` of the first notice
    | Edit(seconds: int)       // `msg.edit` showing `seconds`
    | Delete                   // `msg.delete`

  /** Python's `int(x)`: drop the fraction, rounding toward zero. */
  function Truncate(x: real): (n: int)
    ensures 0.0 <= x ==> 0 <= n && n as real <= x < n as real + 1.0
    ensures x < 0.0 ==> n <= 0 && n as real - 1.0 < x <= n as real
  {
    if x >= 0.0 then x.Floor else -((-x).Floor)
  }

  /** The edits of `for i in range(k, 0, -1)`: k, k-1, ..., 1. */
  function Ticks(k: int): seq<NoticeOp>
    decreases k
  {
    if k <= 0 then [] else [Edit(k)] + Ticks(k - 1)
  }

  /**
   * The countdown from `k` edits exactly max(k, 0) times, showing k, k-1, ...,
   * 1 in that order, strictly decreasing and never below 1; nothing when
   * k <= 0.
   */
  lemma {:induction false} TicksCountDown(k: int)
    ensures |Ticks(k)| == if k <= 0 then 0 else k
    ensures forall j :: 0 <= j < |Ticks(k)| ==> Ticks(k)[j] == Edit(k - j)
    ensures forall i, j :: 0 <= i < j < |Ticks(k)| ==> Ticks(k)[i].seconds > Ticks(k)[j].seconds >= 1
    decreases k
  {
    if k > 0 {
      TicksCountDown(k - 1);
      assert forall j :: 1 <= j < |Ticks(k)| ==> Ticks(k)[j] == Ticks(k - 1)[j - 1];
    }
  }

  /**
   * The loop of `leaderboard_error` after the truncation: one edit per value
   * from `k` down to 1, then the deletion of the notice.
   */
  method RunCountdown(k: int) returns (ops: seq<NoticeOp>)
    ensures ops == Ticks(k) + [Delete]
  {
    ops := [];
    var i := k;
    while i > 0
      invariant ops + Ticks(i) == Ticks(k)
    {
      ops := ops + [Edit(i)];
      assert Ticks(i) == [Edit(i)] + Ticks(i - 1);
      i := i - 1;
    }
    ops := ops + [Delete];
  }

  /**
   * `leaderboard_error` on a cooldown rejection: post the notice, count down
   * from the truncated wait k, delete the notice. Exactly one post and one
   * delete, and between them the edits k, ..., 1 (none when k <= 0).
   */
  method OnCooldown(retryAfter: real) returns (ops: seq<NoticeOp>)
    ensures var k := Truncate(retryAfter);
            |ops| == (if k <= 0 then 0 else k) + 2
    ensures ops[0] == Post(retryAfter) && ops[|ops| - 1] == Delete
    ensures forall j :: 1 <= j < |ops| - 1 ==> ops[j] == Edit(Truncate(retryAfter) - j + 1)
  {
    var countdown := RunCountdown(Truncate(retryAfter));
    TicksCountDown(Truncate(retryAfter));
    ops := [Post(retryAfter)] + countdown;
  }

}
