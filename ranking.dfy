/**
 * `ORDER BY points DESC` over a snapshot of the table, the 1-based position
 * of a user in that order, and the numbered listing the `leaderboard`
 * command shows.
 *
 * SQLite leaves the order of rows with equal points open. The model fixes it:
 * equal points are listed by ascending `user_id`, the order in which SQLite
 * scans a table whose INTEGER PRIMARY KEY is its rowid.
 */
module Ranking {
  import opened Wrappers
  import opened Schema

  /** `a` is listed no lower than `b`: more points first, then the smaller id. */
  predicate AtOrAbove(a: Entry, b: Entry) {
    a.stats.points > b.stats.points || (a.stats.points == b.stats.points && a.id <= b.id)
  }

  /** Every row is listed no lower than the rows after it. */
  predicate Ranked(s: seq<Entry>) {
    forall i, j :: 0 <= i < j < |s| ==> AtOrAbove(s[i], s[j])
  }

  /** No user id occurs twice (the primary key). */
  predicate DistinctIds(s: seq<Entry>) {
    forall i, j :: 0 <= i < j < |s| ==> s[i].id != s[j].id
  }

  /** Puts `e` into a ranked sequence at its place. */
  function Insert(e: Entry, s: seq<Entry>): (r: seq<Entry>)
    ensures multiset(r) == multiset(s) + multiset{e}
  {
    if s == [] || AtOrAbove(e, s[0]) then
      [e] + s
    else
      assert s == [s[0]] + s[1..];
      [s[0]] + Insert(e, s[1..])
  }

  /** The rows of a snapshot in the order the `leaderboard` command lists them. */
  function Rank(rows: seq<Entry>): (r: seq<Entry>)
    ensures Ranked(r)
    ensures multiset(r) == multiset(rows)
  {
    if rows == [] then
      []
    else
      var rest := Rank(rows[1..]);
      InsertRanked(rows[0], rest);
      assert rows == [rows[0]] + rows[1..];
      Insert(rows[0], rest)
  }

  /**
   * The ranking lists every row of the snapshot once, with points never
   * increasing down the list, and no user twice.
   */
  lemma {:induction false} RankIsOrderBy(rows: seq<Entry>)
    ensures |Rank(rows)| == |rows|
    ensures forall e :: e in Rank(rows) <==> e in rows
    ensures forall i, j :: 0 <= i < j < |Rank(rows)| ==> Rank(rows)[i].stats.points >= Rank(rows)[j].stats.points
    ensures DistinctIds(rows) ==> DistinctIds(Rank(rows))
  {
    var r := Rank(rows);
    assert |r| == |multiset(r)| == |multiset(rows)| == |rows|;
    forall e ensures e in r <==> e in rows {
      assert e in r <==> e in multiset(r);
    }
    if rows != [] {
      RankIsOrderBy(rows[1..]);
      DistinctTail(rows);
      if DistinctIds(rows) {
        InsertDistinct(rows[0], Rank(rows[1..]));
      }
    }
  }

  /** Insertion keeps a sequence ranked. */
  lemma {:induction false} InsertRanked(e: Entry, s: seq<Entry>)
    requires Ranked(s)
    ensures Ranked(Insert(e, s))
  {
    if s != [] && !AtOrAbove(e, s[0]) {
      var rest := Insert(e, s[1..]);
      InsertRanked(e, s[1..]);
      forall x | x in rest ensures AtOrAbove(s[0], x) {
        assert x in multiset(rest);
      }
      RankedCons(s[0], rest);
    } else {
      RankedCons(e, s);
    }
  }

  /** Insertion of a row whose id is new keeps ids distinct. */
  lemma {:induction false} InsertDistinct(e: Entry, s: seq<Entry>)
    requires DistinctIds(s) && forall x :: x in s ==> x.id != e.id
    ensures DistinctIds(Insert(e, s))
  {
    if s != [] && !AtOrAbove(e, s[0]) {
      var rest := Insert(e, s[1..]);
      InsertDistinct(e, s[1..]);
      forall x | x in rest ensures x.id != s[0].id {
        assert x in multiset(rest);
      }
      DistinctCons(s[0], rest);
    } else {
      DistinctCons(e, s);
    }
  }

  /** A row listed no lower than every row of a ranked sequence can go in front. */
  lemma RankedCons(h: Entry, t: seq<Entry>)
    requires Ranked(t) && forall x :: x in t ==> AtOrAbove(h, x)
    ensures Ranked([h] + t)
  {
  }

  /** A row whose id is new can go in front without repeating an id. */
  lemma DistinctCons(h: Entry, t: seq<Entry>)
    requires DistinctIds(t) && forall x :: x in t ==> x.id != h.id
    ensures DistinctIds([h] + t)
  {
  }

  /** Dropping the head keeps ids distinct, and the head's id is not in the rest. */
  lemma DistinctTail(s: seq<Entry>)
    requires s != []
    ensures DistinctIds(s) ==> DistinctIds(s[1..]) && forall x :: x in s[1..] ==> x.id != s[0].id
  {
  }

  /**
   * The 1-based index of the first row carrying `id`, or None when no row
   * does (where the list comprehension of `add` would raise IndexError).
   */
  function PositionOf(ranking: seq<Entry>, id: int): (p: Option<nat>)
    ensures p.None? <==> forall i :: 0 <= i < |ranking| ==> ranking[i].id != id
    ensures p.Some? ==> 1 <= p.value <= |ranking| && ranking[p.value - 1].id == id
    ensures p.Some? ==> forall i :: 0 <= i < p.value - 1 ==> ranking[i].id != id
  {
    if ranking == [] then None
    else if ranking[0].id == id then Some(1)
    else
      match PositionOf(ranking[1..], id)
      case None => None
      case Some(q) => Some(q + 1)
  }

  /** One line `#position <@id>: wins wins, points points` of the listing. */
  datatype Line = Line(position: nat, id: int, wins: int, points: int)

  /** The listing of a ranking, numbered from 1. */
  function Listing(ranking: seq<Entry>): (lines: seq<Line>)
    ensures |lines| == |ranking|
  {
    seq(|ranking|, i requires 0 <= i < |ranking| =>
      Line(i + 1, ranking[i].id, ranking[i].stats.wins, ranking[i].stats.points))
  }

  /**
   * Two rankings of the same rows are the same sequence: the order above
   * leaves nothing open once user ids are distinct.
   */
  lemma {:induction false} RankedUnique(a: seq<Entry>, b: seq<Entry>)
    requires Ranked(a) && Ranked(b) && DistinctIds(a) && DistinctIds(b)
    requires |a| == |b|
    requires forall e :: e in a <==> e in b
    ensures a == b
  {
    if a != [] {
      assert a[0] in b;
      assert b[0] in a;
      SameIdSameRow(a, a[0], b[0]);
      forall e ensures e in a[1..] <==> e in b[1..] {
        TailMembers(a, e);
        TailMembers(b, e);
      }
      RankedUnique(a[1..], b[1..]);
    }
  }

  /** With distinct ids, a row is fixed by its id. */
  lemma SameIdSameRow(s: seq<Entry>, x: Entry, y: Entry)
    requires DistinctIds(s) && x in s && y in s && x.id == y.id
    ensures x == y
  {
  }

  /** With distinct ids, the tail holds every row but the head. */
  lemma TailMembers(s: seq<Entry>, e: Entry)
    requires DistinctIds(s) && s != []
    ensures e in s[1..] <==> e in s && e != s[0]
  {
  }

  /**
   * Every row of the listing sits at the position `add` reports for its user:
   * the numbering 1..n is the position lookup, with no gap and no repeat.
   */
  lemma ListingAgreesWithPosition(ranking: seq<Entry>, i: nat)
    requires DistinctIds(ranking) && i < |ranking|
    ensures PositionOf(ranking, Listing(ranking)[i].id) == Some(Listing(ranking)[i].position)
    ensures Listing(ranking)[i].position == i + 1
  {
  }

}
