/** Soft deletion and its undo (app/services/archive.py). */
module Archive {
  import opened Wrappers
  import opened Schema
  import opened Database
  import opened Identity
  import opened Expiry

  predicate RemovedCandidate(row: Event, fetchedAt: Option<Time>, now: Time, graceHours: Option<int>) {
    if graceHours.None? then false
    else if row.lastSeenAt.None? then true
    else if fetchedAt.Some? && row.lastSeenAt == fetchedAt then false
    else now - row.lastSeenAt.value >= graceHours.value * HOUR
  }

  function FetchedAt(sources: map<string, Source>, name: string): Option<Time> {
    if name in sources then sources[name].lastFetchedAt else None
  }

  predicate Permanent(settings: Settings, sources: map<string, Source>, name: string) {
    name in sources && settings.permanent(sources[name].gatherer)
  }

  /** Why a sweep at `now` archives a row, or None when it leaves it alone. */
  function SweepReason(settings: Settings, sources: map<string, Source>, row: Event, now: Time): Option<Reason> {
    if row.archivedAt.Some? then None
    else if RowExpired(settings, row, now) then Some(Expired)
    else if !Permanent(settings, sources, row.source)
         && RemovedCandidate(row, FetchedAt(sources, row.source), now, settings.archiveGraceHours) then Some(Removed)
    else None
  }

  function SweptRow(settings: Settings, sources: map<string, Source>, row: Event, now: Time): Event {
    var why := SweepReason(settings, sources, row, now);
    if why.Some? then row.(archivedAt := Some(now), archivedReason := why) else row
  }

  function SweptTable(settings: Settings, sources: map<string, Source>, t: Table, now: Time): Table {
    map id | id in t :: SweptRow(settings, sources, t[id], now)
  }

  function SweepState(settings: Settings, s: State, now: Time): State {
    s.(events := SweptTable(settings, s.sources, s.events, now))
  }

  function SweptFor(settings: Settings, sources: map<string, Source>, t: Table, now: Time, why: Reason): set<EventId> {
    set id | id in t && SweepReason(settings, sources, t[id], now) == Some(why)
  }

  /** The candidates are exactly the rows a sweep has a reason to archive. */
  ghost predicate CollectedFrom(
    candidates: map<EventId, Reason>, done: set<EventId>,
    settings: Settings, sources: map<string, Source>, t: Table, now: Time)
  {
    && candidates.Keys <= t.Keys * done
    && forall id :: id in t && id in done ==>
         SweepReason(settings, sources, t[id], now) == if id in candidates then Some(candidates[id]) else None
  }

  method Collect(store: Store, settings: Settings, now: Time) returns (candidates: map<EventId, Reason>)
    ensures CollectedFrom(candidates, store.events.Keys, settings, store.sources, store.events, now)
  {
    candidates := map[];
    var todo := store.events.Keys;
    while todo != {}
      invariant todo <= store.events.Keys
      invariant CollectedFrom(candidates, store.events.Keys - todo, settings, store.sources, store.events, now)
      decreases todo
    {
      var id :| id in todo;
      todo := todo - {id};
      var row := store.events[id];
      if row.archivedAt.None? {
        if RowExpired(settings, row, now) {
          candidates := candidates[id := Expired];
        } else if !Permanent(settings, store.sources, row.source)
               && RemovedCandidate(row, FetchedAt(store.sources, row.source), now, settings.archiveGraceHours) {
          candidates := candidates[id := Removed];
        }
      }
    }
  }

  lemma SweptIsMarked(
    candidates: map<EventId, Reason>, settings: Settings, sources: map<string, Source>, t: Table, now: Time)
    requires CollectedFrom(candidates, t.Keys, settings, sources, t, now)
    ensures SweptTable(settings, sources, t, now) == map id | id in t :: Marked(t[id], candidates, id, now)
    ensures forall why ::
              (set id | id in candidates && candidates[id] == why) == SweptFor(settings, sources, t, now, why)
  {
    forall id | id in t ensures SweptRow(settings, sources, t[id], now) == Marked(t[id], candidates, id, now) {
      assert SweepReason(settings, sources, t[id], now) == if id in candidates then Some(candidates[id]) else None;
    }
  }

  /** First collect the candidates, then, unless it is a preview, stamp them. */
  method Sweep(store: Store, settings: Settings, now: Time, dryRun: bool) returns (expired: nat, removed: nat)
    modifies store
    ensures store.Snapshot()
         == if dryRun then old(store.Snapshot()) else SweepState(settings, old(store.Snapshot()), now)
    ensures expired == |SweptFor(settings, old(store.sources), old(store.events), now, Expired)|
    ensures removed == |SweptFor(settings, old(store.sources), old(store.events), now, Removed)|
  {
    var candidates := Collect(store, settings, now);
    SweptIsMarked(candidates, settings, store.sources, store.events, now);
    expired := |set id | id in candidates && candidates[id] == Expired|;
    removed := |set id | id in candidates && candidates[id] == Removed|;
    if !dryRun {
      StampCandidates(store, candidates, now);
    }
  }

  method StampCandidates(store: Store, candidates: map<EventId, Reason>, now: Time)
    requires candidates.Keys <= store.events.Keys
    modifies store`events
    ensures store.events == map id | id in old(store.events) :: Marked(old(store.events)[id], candidates, id, now)
  {
    ghost var was := store.events;
    var todo := candidates.Keys;
    while todo != {}
      invariant todo <= candidates.Keys && store.events.Keys == was.Keys
      invariant forall id :: id in was ==>
        store.events[id] == if id in todo then was[id] else Marked(was[id], candidates, id, now)
      decreases todo
    {
      var id :| id in todo;
      todo := todo - {id};
      store.events := store.events[id := Marked(store.events[id], candidates, id, now)];
    }
  }

  function Marked(row: Event, candidates: map<EventId, Reason>, id: EventId, now: Time): Event {
    if id in candidates then row.(archivedAt := Some(now), archivedReason := Some(candidates[id])) else row
  }

  /** `restore`: back to the live set, with missing hosted images fetched again by `rehost`. */
  function RestoreState(s: State, id: EventId, rehost: seq<ImageRef> -> seq<ImageRef>): State {
    if id in s.events && s.events[id].archivedAt.Some? then
      var row := s.events[id];
      s.(events := s.events[id := row.(archivedAt := None, archivedReason := None, images := rehost(row.images))])
    else s
  }

  method Restore(store: Store, id: EventId, rehost: seq<ImageRef> -> seq<ImageRef>) returns (done: bool)
    modifies store
    ensures store.Snapshot() == RestoreState(old(store.Snapshot()), id, rehost)
    ensures done == (id in old(store.events) && old(store.events)[id].archivedAt.Some?)
  {
    if id !in store.events || store.events[id].archivedAt.None? {
      return false;
    }
    var row := store.events[id].(archivedAt := None, archivedReason := None);
    store.events := store.events[id := row.(images := rehost(row.images))];
    return true;
  }

  /** What a restore leaves: an archived row live, without a reason and with its images re-hosted, and nothing
      else moved; any other row and every other row as it was. */
  lemma RestoredExactly(s: State, id: EventId, rehost: seq<ImageRef> -> seq<ImageRef>)
    ensures var s' := RestoreState(s, id, rehost);
      && s'.sources == s.sources && s'.conflicts == s.conflicts && s'.events.Keys == s.events.Keys
      && (forall other | other in s.events && (other != id || s.events[other].archivedAt.None?) ::
            s'.events[other] == s.events[other])
      && (id in s.events && s.events[id].archivedAt.Some? ==>
            var row, row' := s.events[id], s'.events[id];
            && row'.archivedAt.None? && row'.archivedReason.None? && row'.images == rehost(row.images)
            && row' == row.(archivedAt := None, archivedReason := None, images := row'.images))
  {
  }

  /** Restoring keeps a coherent row coherent exactly when re-hosting keeps its image addresses. */
  lemma RestoreKeepsHash(s: State, id: EventId, rehost: seq<ImageRef> -> seq<ImageRef>)
    requires id in s.events && s.events[id].archivedAt.Some? && Coherent(s.events[id])
    ensures var row := RestoreState(s, id, rehost).events[id];
      Coherent(row) <==> ImageUrls(row.images) == ImageUrls(s.events[id].images)
  {
    var row, was := RestoreState(s, id, rehost).events[id], s.events[id];
    assert ReadBack(row) == ReadBack(was).(images := row.images);
    assert ContentHash(ReadBack(was)).payload.imageUrls == ImageUrls(was.images);
    assert ContentHash(ReadBack(row)).payload
        == ContentHash(ReadBack(was)).payload.(imageUrls := ImageUrls(row.images));
  }
}
