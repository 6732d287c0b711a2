/** Cross-source duplicate candidates (app/services/overseer.py). */
module Overseer {
  import opened Wrappers
  import opened Schema

  const PROXIMITY: int := 12 * HOUR

  datatype Row = Row(id: EventId, source: string, title: Option<string>, startAt: Time)

  /** The stored row qualifies for the scan: live, canonical, real and starting soon. */
  predicate Eligible(e: Event, now: Time, windowDays: int) {
    && e.archivedAt.None? && e.redirectTo.None? && !e.placeholder
    && e.startAt.Some? && now <= e.startAt.value <= now + windowDays * DAY
  }

  /** The row is an event that qualifies, with that event's own values. */
  predicate RowOf(r: Row, t: Table, now: Time, windowDays: int) {
    && r.id in t && Eligible(t[r.id], now, windowDays)
    && r == Row(r.id, t[r.id].source, Some(t[r.id].title), t[r.id].startAt.value)
  }

  ghost predicate Listed(rows: seq<Row>, id: EventId) {
    exists k :: 0 <= k < |rows| && rows[k].id == id
  }

  /** What the ordered query may return: the qualifying rows, each once, by start time. */
  ghost predicate IsQueryResult(rows: seq<Row>, t: Table, now: Time, windowDays: int) {
    && (forall r | r in rows :: RowOf(r, t, now, windowDays))
    && (forall id | id in t && Eligible(t[id], now, windowDays) :: Listed(rows, id))
    && (forall i, j | 0 <= i < j < |rows| :: rows[i].id != rows[j].id)
    && TimeSorted(rows)
  }

  ghost predicate TimeSorted(rows: seq<Row>) {
    forall i, j | 0 <= i < j < |rows| :: rows[i].startAt <= rows[j].startAt
  }

  /** Different sources, starting at most twelve hours apart, titles similar enough. */
  predicate Matches(similarity: (Option<string>, Option<string>) -> real, threshold: real, a: Row, b: Row) {
    a.source != b.source && b.startAt - a.startAt <= PROXIMITY && similarity(a.title, b.title) >= threshold
  }

  datatype Pair = Pair(i: nat, j: nat)

  /** The pair names two rows, earlier one first, that match. */
  predicate IsMatch(
    similarity: (Option<string>, Option<string>) -> real, threshold: real, rows: seq<Row>, p: Pair) {
    p.i < p.j < |rows| && Matches(similarity, threshold, rows[p.i], rows[p.j])
  }

  ghost predicate InRange(rows: seq<Row>, ps: seq<Pair>) {
    forall p | p in ps :: p.i < |rows| && p.j < |rows|
  }

  function RowPairs(rows: seq<Row>, ps: seq<Pair>): seq<(Row, Row)>
    requires InRange(rows, ps)
  {
    seq(|ps|, k requires 0 <= k < |ps| => assert ps[k] in ps; (rows[ps[k].i], rows[ps[k].j]))
  }

  /** All matching pairs (i, j) with i < j < hi, j ascending. */
  function PartnersOf(
    similarity: (Option<string>, Option<string>) -> real, threshold: real, rows: seq<Row>, i: nat, hi: nat)
    : (ps: seq<Pair>)
    requires i < |rows| && hi <= |rows|
    ensures InRange(rows, ps)
  {
    if hi <= i + 1 then []
    else if IsMatch(similarity, threshold, rows, Pair(i, hi - 1)) then
      PartnersOf(similarity, threshold, rows, i, hi - 1) + [Pair(i, hi - 1)]
    else PartnersOf(similarity, threshold, rows, i, hi - 1)
  }

  /** The plain all-pairs filter over the first `hi` rows, without any early exit. */
  function AllPairs(
    similarity: (Option<string>, Option<string>) -> real, threshold: real, rows: seq<Row>, hi: nat)
    : (ps: seq<Pair>)
    requires hi <= |rows|
    ensures InRange(rows, ps)
  {
    if hi == 0 then []
    else AllPairs(similarity, threshold, rows, hi - 1) + PartnersOf(similarity, threshold, rows, hi - 1, |rows|)
  }

  predicate Precedes(p: Pair, q: Pair) { p.i < q.i || (p.i == q.i && p.j < q.j) }

  ghost predicate Lexicographic(ps: seq<Pair>) {
    forall x, y | 0 <= x < y < |ps| :: Precedes(ps[x], ps[y])
  }

  lemma {:induction false} PartnersMembers(
    similarity: (Option<string>, Option<string>) -> real, threshold: real, rows: seq<Row>, i: nat, hi: nat, p: Pair)
    requires i < |rows| && hi <= |rows|
    ensures p in PartnersOf(similarity, threshold, rows, i, hi)
      <==> (p.i == i && p.j < hi && IsMatch(similarity, threshold, rows, p))
  {
    if hi > i + 1 { PartnersMembers(similarity, threshold, rows, i, hi - 1, p); }
  }

  lemma {:induction false} PartnersOrdered(
    similarity: (Option<string>, Option<string>) -> real, threshold: real, rows: seq<Row>, i: nat, hi: nat)
    requires i < |rows| && hi <= |rows|
    ensures Lexicographic(PartnersOf(similarity, threshold, rows, i, hi))
  {
    if hi > i + 1 {
      PartnersOrdered(similarity, threshold, rows, i, hi - 1);
      var front := PartnersOf(similarity, threshold, rows, i, hi - 1);
      forall x | 0 <= x < |front| ensures Precedes(front[x], Pair(i, hi - 1)) {
        assert front[x] in front;
        PartnersMembers(similarity, threshold, rows, i, hi - 1, front[x]);
      }
    }
  }

  lemma LexicographicConcat(front: seq<Pair>, last: seq<Pair>)
    requires Lexicographic(front) && Lexicographic(last)
    requires forall p, q | p in front && q in last :: p.i < q.i
    ensures Lexicographic(front + last)
  {
    forall x, y | 0 <= x < |front| && 0 <= y < |last| ensures Precedes(front[x], last[y]) {
      assert front[x] in front && last[y] in last;
    }
  }

  /** The all-pairs list holds exactly the matching pairs. */
  lemma {:induction false} AllPairsMembers(
    similarity: (Option<string>, Option<string>) -> real, threshold: real, rows: seq<Row>, hi: nat, p: Pair)
    requires hi <= |rows|
    ensures p in AllPairs(similarity, threshold, rows, hi)
      <==> (p.i < hi && IsMatch(similarity, threshold, rows, p))
  {
    if hi > 0 {
      AllPairsMembers(similarity, threshold, rows, hi - 1, p);
      PartnersMembers(similarity, threshold, rows, hi - 1, |rows|, p);
    }
  }

  /** It holds them once each, in lexicographic order. */
  lemma {:induction false} AllPairsOrdered(
    similarity: (Option<string>, Option<string>) -> real, threshold: real, rows: seq<Row>, hi: nat)
    requires hi <= |rows|
    ensures Lexicographic(AllPairs(similarity, threshold, rows, hi))
  {
    if hi > 0 {
      AllPairsOrdered(similarity, threshold, rows, hi - 1);
      PartnersOrdered(similarity, threshold, rows, hi - 1, |rows|);
      var front := AllPairs(similarity, threshold, rows, hi - 1);
      var last := PartnersOf(similarity, threshold, rows, hi - 1, |rows|);
      forall p, q | p in front && q in last ensures p.i < q.i {
        AllPairsMembers(similarity, threshold, rows, hi - 1, p);
        PartnersMembers(similarity, threshold, rows, hi - 1, |rows|, q);
      }
      LexicographicConcat(front, last);
    }
  }

  /** Nothing is lost by stopping at the first row that is too late. */
  lemma {:induction false} TooLateEndsPartners(
    similarity: (Option<string>, Option<string>) -> real, threshold: real, rows: seq<Row>, i: nat, j: nat, hi: nat)
    requires TimeSorted(rows) && i < j <= hi <= |rows|
    requires j < |rows| && rows[j].startAt - rows[i].startAt > PROXIMITY
    ensures PartnersOf(similarity, threshold, rows, i, hi) == PartnersOf(similarity, threshold, rows, i, j)
  {
    if hi > j {
      TooLateEndsPartners(similarity, threshold, rows, i, j, hi - 1);
      assert rows[j].startAt <= rows[hi - 1].startAt;
    }
  }

  /** The inner loop: the partners of row `i`, with its same-source `continue` and its `break`. */
  method ScanPartners(
    similarity: (Option<string>, Option<string>) -> real, threshold: real, rows: seq<Row>, i: nat)
    returns (pairs: seq<(Row, Row)>)
    requires TimeSorted(rows) && i < |rows|
    ensures pairs == RowPairs(rows, PartnersOf(similarity, threshold, rows, i, |rows|))
  {
    pairs := [];
    var a := rows[i];
    var j := i + 1;
    while j < |rows|
      invariant i < j <= |rows|
      invariant pairs == RowPairs(rows, PartnersOf(similarity, threshold, rows, i, j))
    {
      var b := rows[j];
      if a.source == b.source {
        j := j + 1;
        continue;
      }
      if b.startAt - a.startAt > PROXIMITY {
        TooLateEndsPartners(similarity, threshold, rows, i, j, |rows|);
        break;
      }
      if similarity(a.title, b.title) < threshold {
        j := j + 1;
        continue;
      }
      pairs := pairs + [(a, b)];
      j := j + 1;
    }
  }

  /** The time-sorted sweep with early exit returns the all-pairs filter, in order, for any
      similarity function. */
  method FindCandidatePairs(
    similarity: (Option<string>, Option<string>) -> real, threshold: real, rows: seq<Row>)
    returns (pairs: seq<(Row, Row)>)
    requires TimeSorted(rows)
    ensures pairs == RowPairs(rows, AllPairs(similarity, threshold, rows, |rows|))
  {
    pairs := [];
    var i := 0;
    while i < |rows|
      invariant 0 <= i <= |rows|
      invariant pairs == RowPairs(rows, AllPairs(similarity, threshold, rows, i))
    {
      var more := ScanPartners(similarity, threshold, rows, i);
      pairs := pairs + more;
      i := i + 1;
    }
  }

  /** Seen from the table: two qualifying events of different sources, at most twelve hours apart,
      whose titles are similar enough in start order, are always among the candidates. */
  lemma EveryCloseTwinIsFound(
    similarity: (Option<string>, Option<string>) -> real, threshold: real,
    rows: seq<Row>, t: Table, now: Time, windowDays: int, a: EventId, b: EventId)
    requires IsQueryResult(rows, t, now, windowDays)
    requires a in t && b in t && a != b && Eligible(t[a], now, windowDays) && Eligible(t[b], now, windowDays)
    requires t[a].source != t[b].source
    requires -PROXIMITY <= t[b].startAt.value - t[a].startAt.value <= PROXIMITY
    requires similarity(Some(t[a].title), Some(t[b].title)) >= threshold
    requires similarity(Some(t[b].title), Some(t[a].title)) >= threshold
    ensures exists p | p in AllPairs(similarity, threshold, rows, |rows|) :: Joins(rows, p, a, b)
  {
    var x := PositionOf(rows, t, now, windowDays, a);
    var y := PositionOf(rows, t, now, windowDays, b);
    var p := if x < y then Pair(x, y) else Pair(y, x);
    assert IsMatch(similarity, threshold, rows, p);
    AllPairsMembers(similarity, threshold, rows, |rows|, p);
    assert Joins(rows, p, a, b);
  }

  /** The candidates, spelled out over the table: the earlier row first, both live, canonical, real and starting
      within the window, of different sources, at most twelve hours apart, and similar in that order. */
  lemma CandidatesExactly(
    similarity: (Option<string>, Option<string>) -> real, threshold: real,
    rows: seq<Row>, t: Table, now: Time, windowDays: int, p: Pair)
    requires IsQueryResult(rows, t, now, windowDays)
    ensures p in AllPairs(similarity, threshold, rows, |rows|)
       <==> && p.i < p.j < |rows| && rows[p.i].source != rows[p.j].source
            && rows[p.j].startAt - rows[p.i].startAt <= 43_200_000_000
            && similarity(rows[p.i].title, rows[p.j].title) >= threshold
    ensures forall r | r in rows ::
              && r.id in t && r.source == t[r.id].source && r.title == Some(t[r.id].title)
              && t[r.id].archivedAt.None? && t[r.id].redirectTo.None? && !t[r.id].placeholder
              && t[r.id].startAt == Some(r.startAt) && 0 <= r.startAt - now <= windowDays * 86_400_000_000
  {
    AllPairsMembers(similarity, threshold, rows, |rows|, p);
  }

  predicate Joins(rows: seq<Row>, p: Pair, a: EventId, b: EventId) {
    p.i < |rows| && p.j < |rows| && {rows[p.i].id, rows[p.j].id} == {a, b}
  }

  lemma PositionOf(rows: seq<Row>, t: Table, now: Time, windowDays: int, id: EventId) returns (x: nat)
    requires IsQueryResult(rows, t, now, windowDays) && id in t && Eligible(t[id], now, windowDays)
    ensures x < |rows| && rows[x] == Row(id, t[id].source, Some(t[id].title), t[id].startAt.value)
  {
    assert Listed(rows, id);
    x :| 0 <= x < |rows| && rows[x].id == id;
    assert rows[x] in rows;
  }
}
