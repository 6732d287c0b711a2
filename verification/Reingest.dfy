/** What one fetch does to the store: what it counts as removed, what survives the archive pass
    that follows, and what a second fetch of the same batch finds. */
module Reingest {
  import opened Wrappers
  import opened Schema
  import opened Identity
  import opened Expiry
  import opened Sieve
  import opened Decisionmaker
  import opened Ingest
  import opened Archive
  import Categorize

  // ---- marking by timestamp is a set difference -------------------------

  /** The ids a sieve result stamps. */
  ghost predicate Stamps(r: SieveResult, id: EventId) {
    id in Ids(r.added) || id in Ids(r.updated) || id in r.unchangedIds
  }

  lemma UnseenInNoBucket(env: Env, t: Table, f: Fetch, vs: set<Verdict>, id: EventId)
    requires !Sees(env, f, id)
    ensures id !in Ids(Bucket(env, t, f, vs))
  {
    var cs := Bucket(env, t, f, vs);
    forall k | 0 <= k < |cs| ensures Ids(cs)[k] != id {
      BucketOrigin(env, t, f, vs, cs[k]);
      var e :| ComesFrom(env, t, f, cs[k], e);
      IncomingKeeps(env, f, t, e);
    }
  }

  /** The verdict a fetch gives the event it lists under `id`. */
  ghost function SeenVerdict(env: Env, t: Table, f: Fetch, id: EventId): Verdict
    requires Sees(env, f, id)
  {
    VerdictOf(t, f.cfg.name, Incoming(env, f, t, SeenEvent(env, f, id)))
  }

  lemma InBucket(env: Env, t: Table, f: Fetch, vs: set<Verdict>, id: EventId)
    requires Proper(f)
    ensures id in Ids(Bucket(env, t, f, vs)) <==> Sees(env, f, id) && SeenVerdict(env, t, f, id) in vs
  {
    if Sees(env, f, id) {
      BucketById(env, t, f, vs, SeenEvent(env, f, id));
    } else {
      UnseenInNoBucket(env, t, f, vs, id);
    }
  }

  /** A listed id is stamped unless its row is archived. */
  lemma StampedIds(env: Env, t: Table, f: Fetch, id: EventId)
    requires Proper(f)
    ensures Stamps(SieveFetch(env, t, f), id) <==> Sees(env, f, id) && !Archived(t, id)
  {
    FetchBuckets(env, t, f);
    InBucket(env, t, f, {New}, id);
    InBucket(env, t, f, {Changed}, id);
    InBucket(env, t, f, {Disputed, Same}, id);
    if Sees(env, f, id) {
      IncomingKeeps(env, f, t, SeenEvent(env, f, id));
    }
  }

  /** The source's rows that were live before the fetch and that it did not stamp. */
  ghost function MissingRows(env: Env, t: Table, f: Fetch): set<EventId> {
    set id | id in t && t[id].source == f.cfg.name && t[id].archivedAt.None? && !Stamps(SieveFetch(env, t, f), id)
  }

  lemma RowAfterNotStale(t: Table, name: string, e: ScrapedEvent, clock: Clock)
    ensures !Stale(RowAfter(t, name, e, clock), name, clock.ts)
  {
  }

  lemma RowStaleness(env: Env, t: Table, f: Fetch, t': Table, id: EventId)
    requires RowFollows(env, t, f, t', id)
    ensures id in t' && Stale(t'[id], f.cfg.name, f.clock.ts)
       <==> && id in t && t[id].source == f.cfg.name && t[id].archivedAt.None?
            && !(Sees(env, f, id) && !Archived(t, id)) && t[id].lastSeenAt != Some(f.clock.ts)
  {
    if Sees(env, f, id) {
      IncomingKeeps(env, f, t, SeenEvent(env, f, id));
      RowAfterNotStale(t, f.cfg.name, Incoming(env, f, t, SeenEvent(env, f, id)), f.clock);
    }
  }

  /** What `apply` counts as removed, whatever the stored stamps are: the missing rows whose
      old stamp is not this very run's. */
  lemma StaleIsMissing(env: Env, s: State, f: Fetch)
    requires Proper(f)
    ensures StaleIds(FetchState(env, s, f).events, f.cfg.name, f.clock.ts)
         == set id | id in MissingRows(env, s.events, f) && s.events[id].lastSeenAt != Some(f.clock.ts)
  {
    FetchRows(env, s, f);
    MissingByRows(env, s.events, f, FetchState(env, s, f).events);
  }

  lemma MissingByRows(env: Env, t: Table, f: Fetch, t': Table)
    requires Proper(f) && forall id :: RowFollows(env, t, f, t', id)
    ensures StaleIds(t', f.cfg.name, f.clock.ts)
         == set id | id in MissingRows(env, t, f) && t[id].lastSeenAt != Some(f.clock.ts)
  {
    forall id ensures id in StaleIds(t', f.cfg.name, f.clock.ts)
                 <==> id in MissingRows(env, t, f) && t[id].lastSeenAt != Some(f.clock.ts)
    {
      assert RowFollows(env, t, f, t', id);
      StampedIds(env, t, f, id);
      RowStaleness(env, t, f, t', id);
    }
  }

  /** When the run's timestamp is new, marking by timestamp is exactly the set difference. */
  lemma RemovedIsSetDifference(env: Env, s: State, f: Fetch)
    requires Proper(f)
    requires forall id :: id in s.events ==> s.events[id].lastSeenAt != Some(f.clock.ts)
    ensures StaleIds(FetchState(env, s, f).events, f.cfg.name, f.clock.ts) == MissingRows(env, s.events, f)
  {
    StaleIsMissing(env, s, f);
  }

  // ---- survival --------------------------------------------------------

  /** Unless pinned, a listed event's row carries the event's own dates afterwards: if the hash
      says "unchanged", coherence says the stored dates are the incoming ones. */
  lemma RowAfterDates(t: Table, name: string, e: ScrapedEvent, clock: Clock)
    requires var id := StableId(name, e);
      id in t ==> t[id].archivedAt.None? && !t[id].pinned && Coherent(t[id])
    ensures var row := RowAfter(t, name, e, clock);
      row.startAt == e.startAt && row.endAt == e.endAt && row.rrule == e.rrule
  {
    var id := StableId(name, e);
    if VerdictOf(t, name, e) == Same {
      assert ContentHash(ReadBack(t[id])).payload == ContentHash(e).payload;
    }
  }

  lemma RowAfterStamped(t: Table, name: string, e: ScrapedEvent, clock: Clock)
    requires var id := StableId(name, e); id in t ==> t[id].archivedAt.None? && t[id].source == name
    ensures var id, row := StableId(name, e), RowAfter(t, name, e, clock);
      && row.source == name && row.archivedAt.None? && row.lastSeenAt == Some(clock.ts)
      && row.pinned == (id in t && t[id].pinned)
      && (row.pinned ==> row.startAt == t[id].startAt && row.endAt == t[id].endAt && row.rrule == t[id].rrule)
  {
  }

  /** A row stamped by its source's latest fetch can only be archived as expired. */
  lemma StampedRowNotRemoved(settings: Settings, sources: map<string, Source>, row: Event, now: Time)
    requires row.archivedAt.None? && row.lastSeenAt.Some? && FetchedAt(sources, row.source) == row.lastSeenAt
    ensures SweepReason(settings, sources, row, now) == if RowExpired(settings, row, now) then Some(Expired) else None
  {
  }

  lemma FetchStampsSource(env: Env, s: State, f: Fetch)
    ensures FetchedAt(FetchState(env, s, f).sources, f.cfg.name) == Some(f.clock.ts)
    ensures forall name :: name != f.cfg.name ==>
      FetchedAt(FetchState(env, s, f).sources, name) == FetchedAt(s.sources, name)
  {
  }

  /** With one clock value for a whole run, a relevant event of a source that is neither archived
      nor pinned is live after gather, sieve, decide and archive.  A pinned one is live exactly
      when its own frozen dates are not expired. */
  lemma ListedEventsSurvive(env: Env, s: State, f: Fetch, e: ScrapedEvent)
    requires Proper(f) && e in f.raw && EventRelevant(env.settings, e, f.now)
    requires var id := StableId(f.cfg.name, e);
      id in s.events ==> s.events[id].archivedAt.None? && s.events[id].source == f.cfg.name && Coherent(s.events[id])
    ensures var id, s' := StableId(f.cfg.name, e), SweepState(env.settings, FetchState(env, s, f), f.now);
      && id in s'.events
      && (s'.events[id].archivedAt.None?
          <==> !(id in s.events && s.events[id].pinned && RowExpired(env.settings, s.events[id], f.now)))
  {
    var id, s1 := StableId(f.cfg.name, e), FetchState(env, s, f);
    FetchSeen(env, s, f, e);
    FetchStampsSource(env, s, f);
    SurvivingRow(env, s.events, f, e, s1.sources);
    assert s1.events[id] == RowAfter(s.events, f.cfg.name, Incoming(env, f, s.events, e), f.clock);
  }

  lemma SurvivingRow(env: Env, t: Table, f: Fetch, e: ScrapedEvent, sources: map<string, Source>)
    requires EventRelevant(env.settings, e, f.now) && FetchedAt(sources, f.cfg.name) == Some(f.clock.ts)
    requires var id := StableId(f.cfg.name, e);
      id in t ==> t[id].archivedAt.None? && t[id].source == f.cfg.name && Coherent(t[id])
    ensures var id, row := StableId(f.cfg.name, e), RowAfter(t, f.cfg.name, Incoming(env, f, t, e), f.clock);
      SweptRow(env.settings, sources, row, f.now).archivedAt.None?
      <==> !(id in t && t[id].pinned && RowExpired(env.settings, t[id], f.now))
  {
    var id, e' := StableId(f.cfg.name, e), Incoming(env, f, t, e);
    IncomingKeeps(env, f, t, e);
    RowAfterStamped(t, f.cfg.name, e', f.clock);
    StampedRowNotRemoved(env.settings, sources, RowAfter(t, f.cfg.name, e', f.clock), f.now);
    if !(id in t && t[id].pinned) {
      RowAfterDates(t, f.cfg.name, e', f.clock);
    }
  }

  // ---- fetching the same batch again ------------------------------------

  /** The same gathered batch under the same configuration, with the same events still relevant and
      their images hosted alike. */
  ghost predicate SameBatch(env: Env, f: Fetch, f': Fetch) {
    f'.cfg == f.cfg && f'.raw == f.raw
    && (forall e :: e in f.raw ==> EventRelevant(env.settings, e, f'.now) == EventRelevant(env.settings, e, f.now))
    && (forall e :: e in f.raw && EventRelevant(env.settings, e, f.now) ==> f'.host(e) == f.host(e))
  }

  lemma SameBatchSees(env: Env, f: Fetch, f': Fetch, id: EventId)
    requires SameBatch(env, f, f')
    ensures Sees(env, f', id) == Sees(env, f, id)
  {
  }

  /** After a fetch, each listed event is prepared as before and finds its own content stored. */
  lemma SecondVerdict(env: Env, t: Table, f: Fetch, t': Table, f': Fetch, e: ScrapedEvent)
    requires var id, e' := StableId(f.cfg.name, e), Incoming(env, f, t, e);
      id in t' && t'[id] == RowAfter(t, f.cfg.name, e', f.clock)
    requires f'.cfg == f.cfg && f'.host(e) == f.host(e)
    ensures var first := VerdictOf(t, f.cfg.name, Incoming(env, f, t, e));
      && Incoming(env, f', t', e) == Incoming(env, f, t, e)
      && VerdictOf(t', f.cfg.name, Incoming(env, f', t', e)) == if first in {New, Changed} then Same else first
  {
    var id, e' := StableId(f.cfg.name, e), Incoming(env, f, t, e);
    IncomingKeeps(env, f, t, e);
    SecondVerdictOf(t, f.cfg.name, e', f.clock, t');
    assert Archived(t', id) == Archived(t, id);
    assert Hosted(f', t', e) == Hosted(f, t, e);
  }

  /** What two fetches of one configuration compare for a gathered event differs in its images alone. */
  lemma OnlyHostingDiffers(env: Env, t: Table, f: Fetch, t': Table, f': Fetch, e: ScrapedEvent)
    requires f'.cfg == f.cfg
    ensures Incoming(env, f', t', e) == Incoming(env, f, t, e).(images := Hosted(f', t', e).images)
  {
    var images := Hosted(f', t', e).images;
    assert Hosted(f', t', e) == Hosted(f, t, e).(images := images);
    Categorize.RulesIgnoreImages(env.intake, f.cfg.rules, Hosted(f, t, e), images);
  }

  lemma ImagesInHash(e: ScrapedEvent, images: seq<ImageRef>)
    ensures ContentHash(e.(images := images)) == ContentHash(e) <==> ImageUrls(images) == ImageUrls(e.images)
  {
    assert ContentHash(e).payload.imageUrls == ImageUrls(e.images);
    assert ContentHash(e.(images := images)).payload == ContentHash(e).payload.(imageUrls := ImageUrls(images));
  }

  /** A later fetch that brings an event again, neither archived nor pinned, finds it unchanged exactly
      when its gallery is hosted at the same addresses; a download that failed once and succeeds
      later, or the other way round, is one reported update. */
  lemma HostedAlikeExactly(env: Env, s: State, f: Fetch, f': Fetch, e: ScrapedEvent)
    requires Proper(f) && Proper(f') && f'.cfg == f.cfg && e in f.raw && e in f'.raw
    requires EventRelevant(env.settings, e, f.now) && EventRelevant(env.settings, e, f'.now)
    requires var id := StableId(f.cfg.name, e);
      id in s.events ==> s.events[id].archivedAt.None? && !s.events[id].pinned
    ensures var id, r' := StableId(f.cfg.name, e), SieveFetch(env, FetchState(env, s, f).events, f');
      && (id in r'.unchangedIds <==> ImageUrls(f'.host(e)) == ImageUrls(f.host(e)))
      && (id in Ids(r'.updated) <==> ImageUrls(f'.host(e)) != ImageUrls(f.host(e)))
  {
    hide FetchState, SieveFetch, Bucket, EventRelevant;
    var t, t' := s.events, FetchState(env, s, f).events;
    FetchSeen(env, s, f, e);
    LaterVerdict(env, t, f, t', f', e);
    FetchBuckets(env, t', f');
    BucketById(env, t', f', {Changed}, e);
    BucketById(env, t', f', {Disputed, Same}, e);
  }

  lemma LaterVerdict(env: Env, t: Table, f: Fetch, t': Table, f': Fetch, e: ScrapedEvent)
    requires f'.cfg == f.cfg
    requires var id := StableId(f.cfg.name, e);
      && (id in t ==> t[id].archivedAt.None? && !t[id].pinned)
      && id in t' && t'[id] == RowAfter(t, f.cfg.name, Incoming(env, f, t, e), f.clock)
    ensures VerdictOf(t', f.cfg.name, Incoming(env, f', t', e))
         == if ImageUrls(f'.host(e)) == ImageUrls(f.host(e)) then Same else Changed
  {
    hide Incoming;
    var id, was, now := StableId(f.cfg.name, e), Incoming(env, f, t, e), Incoming(env, f', t', e);
    IncomingKeeps(env, f, t, e);
    IncomingKeeps(env, f', t', e);
    OnlyHostingDiffers(env, t, f, t, f, e);
    OnlyHostingDiffers(env, t, f, t', f', e);
    HoldsLatest(t, f.cfg.name, was, f.clock);
    ImagesInHash(was, f'.host(e));
  }

  lemma HoldsLatest(t: Table, name: string, e: ScrapedEvent, clock: Clock)
    requires var id := StableId(name, e); id in t ==> t[id].archivedAt.None? && !t[id].pinned
    ensures var row := RowAfter(t, name, e, clock);
      row.contentHash == ContentHash(e) && row.archivedAt.None? && !row.pinned
  {
  }

  lemma SecondVerdictOf(t: Table, name: string, e: ScrapedEvent, clock: Clock, t': Table)
    requires var id := StableId(name, e); id in t' && t'[id] == RowAfter(t, name, e, clock)
    ensures var id, first := StableId(name, e), VerdictOf(t, name, e);
      && VerdictOf(t', name, e) == (if first in {New, Changed} then Same else first)
      && (id in t' && t'[id].archivedAt.Some?) == (id in t && t[id].archivedAt.Some?)
  {
  }

  lemma SecondRowAfter(t: Table, name: string, e: ScrapedEvent, clock: Clock, t': Table, again: Clock)
    requires var id := StableId(name, e); id in t' && t'[id] == RowAfter(t, name, e, clock)
    ensures var id, row := StableId(name, e), RowAfter(t', name, e, again);
      row == t'[id].(lastSeenAt := row.lastSeenAt)
  {
    SecondVerdictOf(t, name, e, clock, t');
  }

  /** A second fetch of the same batch only refreshes stamps. */
  lemma SecondRow(env: Env, t: Table, f: Fetch, t': Table, f': Fetch, t'': Table, id: EventId)
    requires Proper(f) && SameBatch(env, f, f')
    requires RowFollows(env, t, f, t', id) && RowFollows(env, t', f', t'', id)
    ensures id in t' <==> id in t''
    ensures id in t' ==> t''[id] == t'[id].(lastSeenAt := t''[id].lastSeenAt)
  {
    SameBatchSees(env, f, f', id);
    if Sees(env, f, id) {
      var e := SeenEvent(env, f, id);
      SeenEventUnique(env, f', e);
      IncomingKeeps(env, f, t, e);
      SecondVerdict(env, t, f, t', f', e);
      SecondRowAfter(t, f.cfg.name, Incoming(env, f, t, e), f.clock, t', f'.clock);
    }
  }

  lemma SecondBuckets(env: Env, t: Table, f: Fetch, t': Table, f': Fetch, id: EventId, vs: set<Verdict>)
    requires Proper(f) && SameBatch(env, f, f') && RowFollows(env, t, f, t', id)
    ensures id in Ids(Bucket(env, t', f', vs))
       <==> && Sees(env, f, id)
            && var v := SeenVerdict(env, t, f, id);
               (if v in {New, Changed} then Same else v) in vs
  {
    InBucket(env, t', f', vs, id);
    SameBatchSees(env, f, f', id);
    if Sees(env, f, id) {
      var e := SeenEvent(env, f, id);
      SeenEventUnique(env, f', e);
      SecondVerdict(env, t, f, t', f', e);
    }
  }

  lemma EmptyBucket(env: Env, t: Table, f: Fetch, vs: set<Verdict>)
    requires forall id :: id !in Ids(Bucket(env, t, f, vs))
    ensures Bucket(env, t, f, vs) == []
  {
    if Bucket(env, t, f, vs) != [] {
      FirstId(Bucket(env, t, f, vs));
      assert false;
    }
  }

  lemma FirstId(cs: seq<Classified>)
    requires cs != []
    ensures exists id :: id in Ids(cs)
  {
    assert Ids(cs)[0] in Ids(cs);
  }

  /** Fetching the same batch again finds nothing new and nothing changed, and disputes and
      freezes the same ids as before. */
  lemma ReingestFindsNothing(env: Env, s: State, f: Fetch, f': Fetch)
    requires Proper(f) && SameBatch(env, f, f')
    ensures var r, r' := SieveFetch(env, s.events, f), SieveFetch(env, FetchState(env, s, f).events, f');
      && r'.added == [] && r'.updated == []
      && (forall id :: id in Ids(r'.conflicts) <==> id in Ids(r.conflicts))
      && (forall id :: id in r'.archivedIds <==> id in r.archivedIds)
      && (forall id :: id in r'.unchangedIds <==> Sees(env, f, id) && !Archived(s.events, id))
  {
    var t, t' := s.events, FetchState(env, s, f).events;
    FetchRows(env, s, f);
    FetchBuckets(env, t, f);
    FetchBuckets(env, t', f');
    SecondSieve(env, t, f, t', f');
  }

  lemma SecondSieve(env: Env, t: Table, f: Fetch, t': Table, f': Fetch)
    requires Proper(f) && SameBatch(env, f, f') && forall id :: RowFollows(env, t, f, t', id)
    ensures Bucket(env, t', f', {New}) == [] && Bucket(env, t', f', {Changed}) == []
    ensures forall id :: id in Ids(Bucket(env, t', f', {Disputed})) <==> id in Ids(Bucket(env, t, f, {Disputed}))
    ensures forall id :: id in Ids(Bucket(env, t', f', {Frozen})) <==> id in Ids(Bucket(env, t, f, {Frozen}))
    ensures forall id :: id in Ids(Bucket(env, t', f', {Disputed, Same})) <==> Sees(env, f, id) && !Archived(t, id)
  {
    hide Bucket, SameBatch, Archived;
    NothingAgain(env, t, f, t', f', {New});
    NothingAgain(env, t, f, t', f', {Changed});
    StableAgain(env, t, f, t', f', {Disputed});
    StableAgain(env, t, f, t', f', {Frozen});
    forall id ensures id in Ids(Bucket(env, t', f', {Disputed, Same})) <==> Sees(env, f, id) && !Archived(t, id) {
      SeenAgain(env, t, f, t', f', id);
    }
  }

  lemma SeenAgain(env: Env, t: Table, f: Fetch, t': Table, f': Fetch, id: EventId)
    requires Proper(f) && SameBatch(env, f, f') && RowFollows(env, t, f, t', id)
    ensures id in Ids(Bucket(env, t', f', {Disputed, Same})) <==> Sees(env, f, id) && !Archived(t, id)
  {
    SecondBuckets(env, t, f, t', f', id, {Disputed, Same});
    if Sees(env, f, id) { IncomingKeeps(env, f, t, SeenEvent(env, f, id)); }
  }

  lemma NothingAgain(env: Env, t: Table, f: Fetch, t': Table, f': Fetch, vs: set<Verdict>)
    requires Proper(f) && SameBatch(env, f, f') && forall id :: RowFollows(env, t, f, t', id)
    requires vs <= {New, Changed}
    ensures Bucket(env, t', f', vs) == []
  {
    forall id ensures id !in Ids(Bucket(env, t', f', vs)) {
      assert RowFollows(env, t, f, t', id);
      SecondBuckets(env, t, f, t', f', id, vs);
    }
    EmptyBucket(env, t', f', vs);
  }

  lemma StaysInBucket(env: Env, t: Table, f: Fetch, t': Table, f': Fetch, vs: set<Verdict>, id: EventId)
    requires Proper(f) && SameBatch(env, f, f') && RowFollows(env, t, f, t', id) && vs <= {Disputed, Frozen}
    ensures id in Ids(Bucket(env, t', f', vs)) <==> id in Ids(Bucket(env, t, f, vs))
  {
    hide Bucket, Ids, SameBatch, SeenVerdict, RowFollows, Proper;
    SecondBuckets(env, t, f, t', f', id, vs);
    InBucket(env, t, f, vs, id);
  }

  lemma StableAgain(env: Env, t: Table, f: Fetch, t': Table, f': Fetch, vs: set<Verdict>)
    requires Proper(f) && SameBatch(env, f, f') && forall id :: RowFollows(env, t, f, t', id)
    requires vs <= {Disputed, Frozen}
    ensures forall id :: id in Ids(Bucket(env, t', f', vs)) <==> id in Ids(Bucket(env, t, f, vs))
  {
    hide Bucket, Ids, SameBatch, RowFollows, Proper;
    forall id ensures id in Ids(Bucket(env, t', f', vs)) <==> id in Ids(Bucket(env, t, f, vs)) {
      StaysInBucket(env, t, f, t', f', vs, id);
    }
  }

  /** Fetching the same batch again adds no row and moves no row's content: only stamps differ. */
  lemma ReingestIsFixpoint(env: Env, s: State, f: Fetch, f': Fetch)
    requires Proper(f) && SameBatch(env, f, f')
    ensures var s' := FetchState(env, s, f);
      var s'' := FetchState(env, s', f');
      forall id :: (id in s'.events <==> id in s''.events)
        && (id in s'.events ==> s''.events[id] == s'.events[id].(lastSeenAt := s''.events[id].lastSeenAt))
  {
    var s' := FetchState(env, s, f);
    FetchRows(env, s, f);
    FetchRows(env, s', f');
    SecondRows(env, s.events, f, s'.events, f', FetchState(env, s', f').events);
  }

  lemma SecondRows(env: Env, t: Table, f: Fetch, t': Table, f': Fetch, t'': Table)
    requires Proper(f) && SameBatch(env, f, f')
    requires forall id :: RowFollows(env, t, f, t', id)
    requires forall id :: RowFollows(env, t', f', t'', id)
    ensures forall id ::
              (id in t' <==> id in t'') && (id in t' ==> t''[id] == t'[id].(lastSeenAt := t''[id].lastSeenAt))
  {
    forall id ensures (id in t' <==> id in t'') && (id in t' ==> t''[id] == t'[id].(lastSeenAt := t''[id].lastSeenAt)) {
      assert RowFollows(env, t, f, t', id) && RowFollows(env, t', f', t'', id);
      SecondRow(env, t, f, t', f', t'', id);
    }
  }
}
