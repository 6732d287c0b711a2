/** Persistence of a sieve verdict (app/decisionmaker/decisionmaker.py). */
module Decisionmaker {
  import opened Wrappers
  import opened Text
  import opened Schema
  import opened Database
  import opened Identity
  import opened Sieve

  /** The two clocks of a run: `ts` stamps `last_seen_at`, `wall` stamps `updated_at`. */
  datatype Clock = Clock(ts: Time, wall: Time)

  datatype Report = Report(inserted: nat, updated: nat, unchangedCount: nat, removed: nat)

  // ---- rows ------------------------------------------------------------

  function NewRow(source: string, c: Classified, clock: Clock): Event {
    var e := c.event;
    Event(
      source, e.uid, e.title, e.description, e.location, e.url, e.images, e.startAt, e.endAt,
      e.timezone, e.allDay, e.rrule, e.recurrenceId, e.exdates, None, None,
      DumpCategories(e.categories), c.contentHash, Some(clock.ts), None, None, false, false, clock.wall)
  }

  function UpdatedRow(row: Event, c: Classified, clock: Clock): Event {
    var e := c.event;
    row.(
      uid := e.uid, title := e.title, description := e.description, location := e.location, url := e.url,
      images := e.images, startAt := e.startAt, endAt := e.endAt, timezone := e.timezone, allDay := e.allDay,
      rrule := e.rrule, recurrenceId := e.recurrenceId, exdates := e.exdates,
      categories := DumpCategories(e.categories), contentHash := c.contentHash,
      lastSeenAt := Some(clock.ts), updatedAt := clock.wall)
  }

  function Stamped(row: Event, clock: Clock): Event {
    row.(lastSeenAt := Some(clock.ts))
  }

  // ---- the write loops, on tables --------------------------------------

  function InsertAll(t: Table, source: string, cs: seq<Classified>, clock: Clock): Table {
    if cs == [] then t
    else InsertAll(t, source, Front(cs), clock)[Last(cs).id := NewRow(source, Last(cs), clock)]
  }

  function UpdateAll(t: Table, source: string, cs: seq<Classified>, clock: Clock): Table {
    if cs == [] then t
    else
      var t' := UpdateAll(t, source, Front(cs), clock);
      var c := Last(cs);
      t'[c.id := if c.id in t' then UpdatedRow(t'[c.id], c, clock) else NewRow(source, c, clock)]
  }

  function StampAll(t: Table, ids: seq<EventId>, clock: Clock): Table {
    if ids == [] then t
    else
      var t' := StampAll(t, Front(ids), clock);
      if Last(ids) in t' then t'[Last(ids) := Stamped(t'[Last(ids)], clock)] else t'
  }

  function ApplyEvents(t: Table, source: string, r: SieveResult, clock: Clock): Table {
    StampAll(
      StampAll(UpdateAll(InsertAll(t, source, r.added, clock), source, r.updated, clock), r.unchangedIds, clock),
      Ids(r.conflicts), clock)
  }

  // ---- conflicts -------------------------------------------------------

  predicate PendingFor(c: Conflict, id: EventId) {
    c.eventId == id && c.status == Pending
  }

  /** The first pending conflict of an event, if any. */
  function PendingIndex(conflicts: seq<Conflict>, id: EventId): (r: Option<nat>)
    ensures r.Some? ==> r.value < |conflicts| && PendingFor(conflicts[r.value], id)
    ensures r.None? ==> forall i :: 0 <= i < |conflicts| ==> !PendingFor(conflicts[i], id)
  {
    if conflicts == [] then None
    else
      var front := PendingIndex(Front(conflicts), id);
      if front.Some? then front
      else if PendingFor(Last(conflicts), id) then Some(|conflicts| - 1) else None
  }

  function Upsert(conflicts: seq<Conflict>, c: Classified, wall: Time): seq<Conflict> {
    match PendingIndex(conflicts, c.id)
    case None => conflicts + [Conflict(c.id, c.event, c.changedFields, Pending, wall, None)]
    case Some(i) =>
      conflicts[i := conflicts[i].(incoming := c.event, changedFields := c.changedFields, updatedAt := wall)]
  }

  function UpsertAll(conflicts: seq<Conflict>, t: Table, cs: seq<Classified>, wall: Time): seq<Conflict> {
    if cs == [] then conflicts
    else
      var before := UpsertAll(conflicts, t, Front(cs), wall);
      if Last(cs).id in t then Upsert(before, Last(cs), wall) else before
  }

  // ---- removed at the source -------------------------------------------

  predicate Stale(row: Event, source: string, ts: Time) {
    row.source == source && row.archivedAt.None? && row.lastSeenAt != Some(ts)
  }

  function StaleIds(t: Table, source: string, ts: Time): set<EventId> {
    set id | id in t && Stale(t[id], source, ts)
  }

  // ---- apply -----------------------------------------------------------

  function FetchedSource(source: Source, clock: Clock): Source {
    source.(lastFetchedAt := Some(clock.ts))
  }

  function ApplyState(s: State, name: string, r: SieveResult, clock: Clock): State
    requires name in s.sources
  {
    var events := ApplyEvents(s.events, name, r, clock);
    State(
      events, s.sources[name := FetchedSource(s.sources[name], clock)],
      UpsertAll(s.conflicts, events, r.conflicts, clock.wall))
  }

  lemma {:induction false} StampPointwise(t: Table, ids: seq<EventId>, clock: Clock)
    ensures StampAll(t, ids, clock).Keys == t.Keys
    ensures forall id :: id in t ==> StampAll(t, ids, clock)[id] == if id in ids then Stamped(t[id], clock) else t[id]
  {
    if ids != [] {
      StampPointwise(t, Front(ids), clock);
      assert ids == Front(ids) + [Last(ids)];
    }
  }

  ghost predicate SameAt(t: Table, t': Table, id: EventId) {
    (id in t <==> id in t') && (id in t ==> t'[id] == t[id])
  }

  lemma {:induction false} InsertElsewhere(t: Table, source: string, cs: seq<Classified>, clock: Clock, id: EventId)
    requires id !in Ids(cs)
    ensures SameAt(t, InsertAll(t, source, cs, clock), id)
  {
    if cs != [] {
      assert Ids(cs) == Ids(Front(cs)) + [Last(cs).id];
      InsertElsewhere(t, source, Front(cs), clock, id);
    }
  }

  lemma {:induction false} UpdateElsewhere(t: Table, source: string, cs: seq<Classified>, clock: Clock, id: EventId)
    requires id !in Ids(cs)
    ensures SameAt(t, UpdateAll(t, source, cs, clock), id)
  {
    if cs != [] {
      assert Ids(cs) == Ids(Front(cs)) + [Last(cs).id];
      UpdateElsewhere(t, source, Front(cs), clock, id);
    }
  }

  lemma DistinctFront(cs: seq<Classified>)
    requires cs != [] && DistinctClassified(cs)
    ensures DistinctClassified(Front(cs)) && Last(cs).id !in Ids(Front(cs))
    ensures cs == Front(cs) + [Last(cs)]
  {
  }

  lemma {:induction false} InsertAt(t: Table, source: string, cs: seq<Classified>, clock: Clock, c: Classified)
    requires DistinctClassified(cs) && c in cs
    ensures var t' := InsertAll(t, source, cs, clock); c.id in t' && t'[c.id] == NewRow(source, c, clock)
  {
    DistinctFront(cs);
    if c in Front(cs) {
      InsertAt(t, source, Front(cs), clock, c);
      var k :| 0 <= k < |Front(cs)| && Front(cs)[k] == c;
      assert Ids(Front(cs))[k] == c.id;
    }
  }

  lemma {:induction false} UpdateAt(t: Table, source: string, cs: seq<Classified>, clock: Clock, c: Classified)
    requires DistinctClassified(cs) && c in cs && c.id in t
    ensures var t' := UpdateAll(t, source, cs, clock); c.id in t' && t'[c.id] == UpdatedRow(t[c.id], c, clock)
  {
    DistinctFront(cs);
    if c in Front(cs) {
      UpdateAt(t, source, Front(cs), clock, c);
      var k :| 0 <= k < |Front(cs)| && Front(cs)[k] == c;
      assert Ids(Front(cs))[k] == c.id;
    } else {
      UpdateElsewhere(t, source, Front(cs), clock, c.id);
    }
  }

  /** The row a run leaves at the id of a kept event, by the event's verdict. */
  function RowAfter(t: Table, name: string, e: ScrapedEvent, clock: Clock): Event {
    var id, c := StableId(name, e), Annotated(t, name, e);
    match VerdictOf(t, name, e)
    case New => NewRow(name, c, clock)
    case Changed => UpdatedRow(t[id], c, clock)
    case Frozen => t[id]
    case _ => Stamped(t[id], clock)
  }

  /** The row holds the event's content, its uid and its hash. */
  ghost predicate Written(row: Event, e: ScrapedEvent) {
    && row.uid == e.uid && row.title == e.title && row.description == e.description && row.location == e.location
    && row.url == e.url && row.images == e.images && row.startAt == e.startAt && row.endAt == e.endAt
    && row.timezone == e.timezone && row.allDay == e.allDay && row.rrule == e.rrule
    && row.recurrenceId == e.recurrenceId && row.exdates == e.exdates
    && row.categories == DumpCategories(e.categories) && row.contentHash == ContentHash(e)
  }

  /** The row a listed event leaves, column by column.  A new one is live, not pinned and no placeholder; an
      archived one is untouched; one with the event's hash, or pinned, is stamped and nothing else; any
      other takes the event's content, and keeps its owner, pin, placeholder and archive marks and what
      an admin alone sets. */
  lemma ListedRowExactly(t: Table, name: string, e: ScrapedEvent, clock: Clock)
    ensures var id, row := StableId(name, e), RowAfter(t, name, e, clock);
      if id !in t then
        && Written(row, e) && row.source == name && row.lastSeenAt == Some(clock.ts) && row.updatedAt == clock.wall
        && row.archivedAt.None? && row.archivedReason.None? && !row.pinned && !row.placeholder
        && row.redirectTo.None? && row.priority.None?
      else if t[id].archivedAt.Some? then row == t[id]
      else if t[id].contentHash == ContentHash(e) || t[id].pinned then row == t[id].(lastSeenAt := Some(clock.ts))
      else
        && Written(row, e) && row.source == t[id].source && row.lastSeenAt == Some(clock.ts)
        && row.updatedAt == clock.wall && row.archivedAt.None? && row.archivedReason == t[id].archivedReason
        && !row.pinned && row.placeholder == t[id].placeholder && row.redirectTo == t[id].redirectTo
        && row.priority == t[id].priority
  {
    hide StableId, ContentHash, DumpCategories;
  }

  /** Raising a conflict touches one entry of the table.  Where the event has none pending, a new one is added
      at the end; where it has, that one takes the new content, fields and time, and stays pending. */
  lemma RaisedExactly(conflicts: seq<Conflict>, c: Classified, wall: Time)
    ensures var after := Upsert(conflicts, c, wall);
      if forall k | 0 <= k < |conflicts| :: !(conflicts[k].eventId == c.id && conflicts[k].status == Pending)
      then |after| == |conflicts| + 1 && after[..|conflicts|] == conflicts
           && after[|conflicts|] == Conflict(c.id, c.event, c.changedFields, Pending, wall, None)
      else |after| == |conflicts|
           && exists k | 0 <= k < |conflicts| ::
                && conflicts[k].eventId == c.id && conflicts[k].status == Pending
                && after == conflicts[k := Conflict(c.id, c.event, c.changedFields, Pending, wall,
                                                    conflicts[k].resolvedAt)]
  {
    var r := PendingIndex(conflicts, c.id);
    if r.Some? {
      var k := r.value;
      assert conflicts[k].eventId == c.id && conflicts[k].status == Pending;
      assert Upsert(conflicts, c, wall)
          == conflicts[k := Conflict(c.id, c.event, c.changedFields, Pending, wall, conflicts[k].resolvedAt)];
    } else {
      forall k | 0 <= k < |conflicts| ensures !(conflicts[k].eventId == c.id && conflicts[k].status == Pending) {
        assert !PendingFor(conflicts[k], c.id);
      }
    }
  }

  /** The insert and update loops: a new row, an updated row, or nothing at all. */
  lemma WritesListed(t: Table, name: string, kept: seq<ScrapedEvent>, clock: Clock, e: ScrapedEvent)
    requires DistinctIds(name, kept) && e in kept
    ensures
      var id, v, c := StableId(name, e), VerdictOf(t, name, e), Annotated(t, name, e);
      var t1 := InsertAll(t, name, Pick(t, name, kept, {New}), clock);
      var t' := UpdateAll(t1, name, Pick(t, name, kept, {Changed}), clock);
      && id in t'
      && t'[id] == if v == New then NewRow(name, c, clock)
                   else if v == Changed then UpdatedRow(t[id], c, clock) else t[id]
  {
    var id, c, v := StableId(name, e), Annotated(t, name, e), VerdictOf(t, name, e);
    var added, changed := Pick(t, name, kept, {New}), Pick(t, name, kept, {Changed});
    PickById(t, name, kept, {New}, e);
    PickById(t, name, kept, {Changed}, e);
    var t1 := InsertAll(t, name, added, clock);
    if v == New {
      PickDistinct(t, name, kept, {New});
      InsertAt(t, name, added, clock, c);
    } else {
      InsertElsewhere(t, name, added, clock, id);
    }
    if v == Changed {
      PickDistinct(t, name, kept, {Changed});
      UpdateAt(t1, name, changed, clock, c);
    } else {
      UpdateElsewhere(t1, name, changed, clock, id);
    }
  }

  /** What the four write loops together leave at the id of a kept event. */
  lemma ApplyListed(t: Table, name: string, kept: seq<ScrapedEvent>, dropped: nat, clock: Clock, e: ScrapedEvent)
    requires DistinctIds(name, kept) && e in kept
    ensures var id, t' := StableId(name, e), ApplyEvents(t, name, Verdicts(t, name, kept, dropped), clock);
      id in t' && t'[id] == RowAfter(t, name, e, clock)
  {
    WritesListed(t, name, kept, clock, e);
    PickById(t, name, kept, {Disputed, Same}, e);
    PickById(t, name, kept, {Disputed}, e);
    var t1 := InsertAll(t, name, Pick(t, name, kept, {New}), clock);
    var t2 := UpdateAll(t1, name, Pick(t, name, kept, {Changed}), clock);
    var seen := Ids(Pick(t, name, kept, {Disputed, Same}));
    StampPointwise(t2, seen, clock);
    StampPointwise(StampAll(t2, seen, clock), Ids(Pick(t, name, kept, {Disputed})), clock);
  }

  /** A run leaves every id its kept events do not name exactly as it was. */
  lemma ApplyUnlisted(t: Table, name: string, kept: seq<ScrapedEvent>, dropped: nat, clock: Clock, id: EventId)
    requires !Lists(name, kept, id)
    ensures SameAt(t, ApplyEvents(t, name, Verdicts(t, name, kept, dropped), clock), id)
  {
    PickUnlisted(t, name, kept, {New}, id);
    PickUnlisted(t, name, kept, {Changed}, id);
    PickUnlisted(t, name, kept, {Disputed, Same}, id);
    PickUnlisted(t, name, kept, {Disputed}, id);
    var t1 := InsertAll(t, name, Pick(t, name, kept, {New}), clock);
    var t2 := UpdateAll(t1, name, Pick(t, name, kept, {Changed}), clock);
    var t3 := StampAll(t2, Ids(Pick(t, name, kept, {Disputed, Same})), clock);
    InsertElsewhere(t, name, Pick(t, name, kept, {New}), clock, id);
    UpdateElsewhere(t1, name, Pick(t, name, kept, {Changed}), clock, id);
    StampPointwise(t2, Ids(Pick(t, name, kept, {Disputed, Same})), clock);
    StampPointwise(t3, Ids(Pick(t, name, kept, {Disputed})), clock);
  }

  // ---- the writing method ----------------------------------------------

  method InsertNew(store: Store, name: string, cs: seq<Classified>, clock: Clock) returns (inserted: nat)
    modifies store`events
    ensures store.events == InsertAll(old(store.events), name, cs, clock)
    ensures inserted == |cs|
  {
    inserted := 0;
    while inserted < |cs|
      invariant inserted <= |cs|
      invariant store.events == InsertAll(old(store.events), name, cs[..inserted], clock)
    {
      assert Front(cs[..inserted + 1]) == cs[..inserted];
      store.events := store.events[cs[inserted].id := NewRow(name, cs[inserted], clock)];
      inserted := inserted + 1;
    }
    assert cs[..inserted] == cs;
  }

  method UpdateChanged(store: Store, name: string, cs: seq<Classified>, clock: Clock)
    returns (inserted: nat, updated: nat)
    modifies store`events
    ensures store.events == UpdateAll(old(store.events), name, cs, clock)
    ensures inserted + updated == |cs|
    ensures (forall c :: c in cs ==> c.id in old(store.events)) ==> updated == |cs|
  {
    inserted, updated := 0, 0;
    var i := 0;
    while i < |cs|
      invariant 0 <= i <= |cs| && inserted + updated == i
      invariant store.events == UpdateAll(old(store.events), name, cs[..i], clock)
      invariant old(store.events).Keys <= store.events.Keys
      invariant (forall c :: c in cs ==> c.id in old(store.events)) ==> updated == i
    {
      assert Front(cs[..i + 1]) == cs[..i];
      var c := cs[i];
      if c.id in store.events {
        store.events := store.events[c.id := UpdatedRow(store.events[c.id], c, clock)];
        updated := updated + 1;
      } else {
        store.events := store.events[c.id := NewRow(name, c, clock)];
        inserted := inserted + 1;
      }
      i := i + 1;
    }
    assert cs[..i] == cs;
  }

  method StampSeen(store: Store, ids: seq<EventId>, clock: Clock)
    modifies store`events
    ensures store.events == StampAll(old(store.events), ids, clock)
  {
    var i := 0;
    while i < |ids|
      invariant 0 <= i <= |ids|
      invariant store.events == StampAll(old(store.events), ids[..i], clock)
    {
      assert Front(ids[..i + 1]) == ids[..i];
      if ids[i] in store.events {
        store.events := store.events[ids[i] := Stamped(store.events[ids[i]], clock)];
      }
      i := i + 1;
    }
    assert ids[..i] == ids;
  }

  method RaiseConflicts(store: Store, cs: seq<Classified>, clock: Clock)
    modifies store`events, store`conflicts
    ensures store.events == StampAll(old(store.events), Ids(cs), clock)
    ensures store.conflicts == UpsertAll(old(store.conflicts), store.events, cs, clock.wall)
  {
    ghost var ids := Ids(cs);
    ghost var after := StampAll(store.events, ids, clock);
    StampPointwise(store.events, ids, clock);
    var i := 0;
    while i < |cs|
      invariant 0 <= i <= |cs|
      invariant store.events == StampAll(old(store.events), ids[..i], clock)
      invariant store.events.Keys == after.Keys
      invariant store.conflicts == UpsertAll(old(store.conflicts), after, cs[..i], clock.wall)
    {
      assert Front(cs[..i + 1]) == cs[..i] && Front(ids[..i + 1]) == ids[..i];
      var c := cs[i];
      assert c.id in store.events <==> c.id in after.Keys;
      if c.id in store.events {
        store.events := store.events[c.id := Stamped(store.events[c.id], clock)];
        store.conflicts := Upsert(store.conflicts, c, clock.wall);
      }
      i := i + 1;
    }
    assert cs[..i] == cs && ids[..i] == ids;
  }

  /** The write half of a run.  The caller owns the transaction. */
  method Apply(store: Store, name: string, permanent: bool, r: SieveResult, clock: Clock) returns (report: Report)
    requires name in store.sources
    modifies store
    ensures store.Snapshot() == ApplyState(old(store.Snapshot()), name, r, clock)
    ensures report.unchangedCount == r.unchangedCount
    ensures report.inserted + report.updated == |r.added| + |r.updated|
    ensures (forall c :: c in r.updated ==> c.id in old(store.events)) ==> report.updated == |r.updated|
    ensures report.removed == if permanent then 0 else |StaleIds(store.events, name, clock.ts)|
  {
    var inserted := InsertNew(store, name, r.added, clock);
    InsertKeepsKeys(old(store.events), name, r.added, clock);
    var late, updated := UpdateChanged(store, name, r.updated, clock);
    StampSeen(store, r.unchangedIds, clock);
    RaiseConflicts(store, r.conflicts, clock);
    store.sources := store.sources[name := FetchedSource(store.sources[name], clock)];
    var stale := StaleIds(store.events, name, clock.ts);
    report := Report(inserted + late, updated, r.unchangedCount, if permanent then 0 else |stale|);
  }

  lemma {:induction false} InsertKeepsKeys(t: Table, source: string, cs: seq<Classified>, clock: Clock)
    ensures t.Keys <= InsertAll(t, source, cs, clock).Keys
  {
    if cs != [] { InsertKeepsKeys(t, source, Front(cs), clock); }
  }
}
