/**
 * The leaderboard table as an in-memory map from user id to its row, the
 * read-modify-write of the `add` command and the `DELETE` of `reset`.
 */
module Store {
  import opened Wrappers
  import opened Schema
  import opened Ranking
  import Sets

  /** The row of `id`, reading a missing row as zero points and zero wins. */
  function Lookup(t: map<int, Stats>, id: int): Stats {
    if id in t then t[id] else Stats(0, 0)
  }

  /**
   * The table after one award of `delta` points to `id`: the UPDATE of an
   * existing row or the INSERT of a new one.
   */
  function Upsert(t: map<int, Stats>, id: int, delta: int): (r: map<int, Stats>)
    ensures r.Keys == t.Keys + {id}
    ensures forall k :: k in t && k != id ==> r[k] == t[k]
    ensures id !in t ==> |r| == |t| + 1 && r[id] == Stats(delta, 1)
    ensures id in t ==> |r| == |t| && r[id] == Stats(t[id].points + delta, t[id].wins + 1)
  {
    if id in t then
      t[id := Stats(t[id].points + delta, t[id].wins + 1)]
    else
      t[id := Stats(delta, 1)]
  }

  /** Whether `add` can write the row it computes (and bind the user id). */
  predicate AwardFits(t: map<int, Stats>, id: int, delta: int) {
    InInt64(id) && Storable(Upsert(t, id, delta)[id])
  }

  /** One invocation of the `add` command that got past the role check. */
  datatype AwardCall = AwardCall(target: int, delta: int)

  /** The table after a run of awards, all of which could be written. */
  function ApplyAll(t: map<int, Stats>, calls: seq<AwardCall>): map<int, Stats>
    decreases calls
  {
    if calls == [] then t
    else ApplyAll(Upsert(t, calls[0].target, calls[0].delta), calls[1..])
  }

  /** The sum of the deltas awarded to `id` in `calls`. */
  function PointsFor(calls: seq<AwardCall>, id: int): int {
    if calls == [] then 0
    else (if calls[0].target == id then calls[0].delta else 0) + PointsFor(calls[1..], id)
  }

  /** How many of `calls` award `id`. */
  function CountFor(calls: seq<AwardCall>, id: int): nat {
    if calls == [] then 0
    else (if calls[0].target == id then 1 else 0) + CountFor(calls[1..], id)
  }

  /**
   * After any run of awards, interleaved with awards to other users in any
   * way, a user's points have grown by the sum of its deltas and its wins by
   * the number of its awards; it has a row iff it had one or was awarded.
   */
  lemma {:induction false} AwardsAccumulate(t: map<int, Stats>, calls: seq<AwardCall>, id: int)
    ensures id in ApplyAll(t, calls) <==> id in t || CountFor(calls, id) > 0
    ensures Lookup(ApplyAll(t, calls), id)
         == Stats(Lookup(t, id).points + PointsFor(calls, id), Lookup(t, id).wins + CountFor(calls, id))
    decreases calls
  {
    if calls != [] {
      var c := calls[0];
      var next := Upsert(t, c.target, c.delta);
      var final := ApplyAll(next, calls[1..]);
      assert ApplyAll(t, calls) == final;
      AwardsAccumulate(next, calls[1..], id);
      UpsertLookup(t, c.target, c.delta, id);
      var points, count := PointsFor(calls[1..], id), CountFor(calls[1..], id);
      if c.target == id {
        assert PointsFor(calls, id) == c.delta + points;
        assert CountFor(calls, id) == 1 + count;
      } else {
        assert PointsFor(calls, id) == points;
        assert CountFor(calls, id) == count;
      }
    }
  }

  /** What one award does to the row of any user. */
  lemma UpsertLookup(t: map<int, Stats>, target: int, delta: int, id: int)
    ensures id in Upsert(t, target, delta) <==> id in t || id == target
    ensures id == target ==>
              Lookup(Upsert(t, target, delta), id) == Stats(Lookup(t, id).points + delta, Lookup(t, id).wins + 1)
    ensures id != target ==> Lookup(Upsert(t, target, delta), id) == Lookup(t, id)
  {
  }

  /**
   * After `reset`, a user has a row iff it was awarded since, and then its
   * points are the sum of its deltas and its wins the number of its awards;
   * the first award after `reset` creates the row afresh.
   */
  lemma AwardsAfterReset(calls: seq<AwardCall>, id: int)
    ensures id in ApplyAll(map[], calls) <==> CountFor(calls, id) > 0
    ensures id in ApplyAll(map[], calls) ==>
              ApplyAll(map[], calls)[id] == Stats(PointsFor(calls, id), CountFor(calls, id))
  {
    AwardsAccumulate(map[], calls, id);
  }

  /** `rows` is what one `SELECT` over the whole table returns, in some order. */
  ghost predicate IsSnapshotOf(rows: seq<Entry>, t: map<int, Stats>) {
    && |rows| == |t|
    && DistinctIds(rows)
    && (forall i :: 0 <= i < |rows| ==> rows[i].id in t && t[rows[i].id] == rows[i].stats)
    && (forall k :: k in t ==> Entry(k, t[k]) in rows)
  }

  /** Whatever order the table is read in, `ORDER BY` gives the same ranking. */
  lemma RankCanonical(a: seq<Entry>, b: seq<Entry>, t: map<int, Stats>)
    requires IsSnapshotOf(a, t) && IsSnapshotOf(b, t)
    ensures Rank(a) == Rank(b)
  {
    RankIsOrderBy(a);
    RankIsOrderBy(b);
    forall e ensures e in a <==> e in b {
      if e in a {
        var i :| 0 <= i < |a| && a[i] == e;
      }
      if e in b {
        var i :| 0 <= i < |b| && b[i] == e;
      }
    }
    RankedUnique(Rank(a), Rank(b));
  }

  /**
   * Every row of a snapshot is found at the position the lookup of its user
   * gives: `Rank(rows)[PositionOf(id) - 1]` is that user's row.
   */
  lemma PositionConsistent(rows: seq<Entry>, t: map<int, Stats>, id: int)
    requires IsSnapshotOf(rows, t) && id in t
    ensures PositionOf(Rank(rows), id).Some?
    ensures var p := PositionOf(Rank(rows), id).value;
            p <= |t| && Rank(rows)[p - 1] == Entry(id, t[id])
  {
    var ranking := Rank(rows);
    RankIsOrderBy(rows);
    assert Entry(id, t[id]) in ranking;
    var p := PositionOf(ranking, id).value;
    assert ranking[p - 1] in rows;
  }

  /**
   * The position `add` reports exists, lies in 1..n, and does not depend on
   * the order in which the table happened to be read.
   */
  lemma PositionDetermined(rows: seq<Entry>, t: map<int, Stats>, id: int)
    requires IsSnapshotOf(rows, t) && id in t
    ensures PositionOf(Rank(rows), id).Some?
    ensures 1 <= PositionOf(Rank(rows), id).value <= |t|
    ensures forall other :: IsSnapshotOf(other, t) ==> PositionOf(Rank(other), id) == PositionOf(Rank(rows), id)
  {
    PositionConsistent(rows, t, id);
    forall other | IsSnapshotOf(other, t)
      ensures PositionOf(Rank(other), id) == PositionOf(Rank(rows), id)
    {
      RankCanonical(rows, other, t);
    }
  }

  /** The table of one bot, shared by all its commands. */
  class Board {
    var table: map<int, Stats>

    /** Every row was written by `add`: storable values, at least one win. */
    ghost predicate Valid()
      reads this
    {
      forall k :: k in table ==> InInt64(k) && Storable(table[k]) && table[k].wins >= 1
    }

    /** `create_db` on a database that holds no table yet. */
    constructor ()
      ensures Valid() && table == map[]
    {
      table := map[];
    }

    /** `SELECT user_id, points, wins FROM leaderboard`, in storage order. */
    method Snapshot() returns (rows: seq<Entry>)
      ensures IsSnapshotOf(rows, table)
    {
      rows := [];
      var pending := table.Keys;
      while pending != {}
        invariant pending <= table.Keys
        invariant |rows| + |pending| == |table|
        invariant DistinctIds(rows)
        invariant forall i :: 0 <= i < |rows| ==>
                    rows[i].id in table && rows[i].id !in pending && table[rows[i].id] == rows[i].stats
        invariant forall id :: id in table ==> id in pending || Entry(id, table[id]) in rows
        decreases pending
      {
        var k := Sets.Pick(pending);
        rows := rows + [Entry(k, table[k])];
        pending := pending - {k};
      }
    }

    /**
     * The `add` command past its role check: read the row, write it back with
     * `delta` more points and one more win (or insert it), then look up the
     * user's position in the new ranking. A value sqlite3 cannot bind raises
     * OverflowError before anything is written.
     */
    method Award(id: int, delta: int) returns (outcome: AwardOutcome)
      requires Valid()
      modifies this
      ensures Valid()
      ensures outcome.TooLarge? <==> !AwardFits(old(table), id, delta)
      ensures outcome.TooLarge? ==> table == old(table)
      ensures outcome.Awarded? ==> table == Upsert(old(table), id, delta)
      ensures outcome.Awarded? ==> outcome.points == table[id].points && outcome.wins == table[id].wins
      ensures outcome.Awarded? ==> 1 <= outcome.position <= |table|
      ensures outcome.Awarded? ==>
                forall rows :: IsSnapshotOf(rows, table) ==> PositionOf(Rank(rows), id) == Some(outcome.position)
    {
      if !InInt64(id) {
        return TooLarge;
      }
      var newPoints, newWins;
      if id in table {
        newPoints, newWins := table[id].points + delta, table[id].wins + 1;
      } else {
        newPoints, newWins := delta, 1;
      }
      if !Storable(Stats(newPoints, newWins)) {
        return TooLarge;
      }
      table := table[id := Stats(newPoints, newWins)];

      var rows := Snapshot();
      PositionDetermined(rows, table, id);
      var position := PositionOf(Rank(rows), id).value;
      outcome := Awarded(newPoints, newWins, position);
    }

    /** `DELETE FROM leaderboard`. */
    method Reset()
      modifies this
      ensures Valid() && table == map[]
    {
      table := map[];
    }
  }

  /** What `add` computes past its role check. */
  datatype AwardOutcome =
    | Awarded(points: int, wins: int, position: nat)
    | TooLarge

}
