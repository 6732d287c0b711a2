/** When a row may be archived as "removed at the source", over whole runs, and what a listed event
    can be lost to. */
module Removal {
  import opened Wrappers
  import opened Text
  import opened Schema
  import opened Identity
  import opened Expiry
  import opened Sieve
  import opened Decisionmaker
  import opened Ingest
  import opened Archive
  import opened Lifecycle
  import opened Reingest
  import opened Freezing
  import Placeholders

  // ---- whose row it is --------------------------------------------------

  /** The source a step belongs to. */
  function SourceOf(step: Step): Option<string> {
    match step
    case Fetched(_, f) => Some(f.cfg.name)
    case PostFetched(cfg, _) => Some(cfg.name)
    case Materialized(_, cfg, _) => Some(cfg.name)
    case _ => None
  }

  /** The step lists the id. */
  ghost predicate ListedBy(step: Step, id: EventId) {
    step.Fetched? && Sees(step.env, step.f, id)
  }

  /** Every other source with a step in the run is named apart from this one. */
  ghost predicate ApartSteps(steps: seq<Step>, source: string) {
    forall k | 0 <= k < |steps| && SourceOf(steps[k]).Some? && SourceOf(steps[k]).value != source ::
      Apart(SourceOf(steps[k]).value, source)
  }

  /** No id twice in a batch, and the source that makes the id named apart from the others. */
  ghost predicate Ordinary(steps: seq<Step>, source: string, id: EventId) {
    ProperSteps(steps) && ApartSteps(steps, source) && MadeBy(source, id)
  }

  lemma OrdinaryFront(steps: seq<Step>, source: string, id: EventId)
    requires steps != [] && Ordinary(steps, source, id)
    ensures Ordinary(Front(steps), source, id) && (Last(steps).Fetched? ==> Proper(Last(steps).f))
  {
  }

  lemma SeriesIdMadeBy(reader: Placeholders.Reader, cfg: SourceConfig, id: EventId)
    requires Placeholders.LastDecl(reader, cfg.name, cfg.recurrences, id).Some?
    ensures MadeBy(cfg.name, id)
  {
    var d := Placeholders.LastDecl(reader, cfg.name, cfg.recurrences, id).value;
    Placeholders.LastDeclIsDeclared(reader, cfg.name, cfg.recurrences, id);
    var p := reader.parse(d).value;
    Placeholders.SeriesIdIsStable(reader, cfg.name, d, p);
    assert StableId(cfg.name, Placeholders.Scraped(reader, cfg.name, d, p)) == id;
  }

  /** Only its own source lists an id or declares a series at it. */
  lemma OthersCannotTouch(steps: seq<Step>, source: string, id: EventId, k: nat)
    requires Ordinary(steps, source, id) && k < |steps| && SourceOf(steps[k]) != Some(source)
    ensures !ListedBy(steps[k], id) && !Redeclares(steps[k], id)
  {
    hide StableId;
    if ListedBy(steps[k], id) {
      var env, f := steps[k].env, steps[k].f;
      assert StableId(f.cfg.name, SeenEvent(env, f, id)) == id;
      OneMaker(f.cfg.name, source, id);
    }
    if Redeclares(steps[k], id) {
      SeriesIdMadeBy(steps[k].reader, steps[k].cfg, id);
      OneMaker(steps[k].cfg.name, source, id);
    }
  }

  /** Owner, archive mark and stamp of the row a listed event leaves. */
  lemma RowAfterBookkeeping(t: Table, name: string, e: ScrapedEvent, clock: Clock)
    ensures var id, row := StableId(name, e), RowAfter(t, name, e, clock);
      && row.source == (if id in t then t[id].source else name)
      && row.archivedAt == (if id in t then t[id].archivedAt else None)
      && row.lastSeenAt == if id in t && t[id].archivedAt.Some? then t[id].lastSeenAt else Some(clock.ts)
  {
    var id, v := StableId(name, e), VerdictOf(t, name, e);
    assert v == New <==> id !in t;
    assert v == Frozen <==> id in t && t[id].archivedAt.Some?;
    match v
    case New =>
    case Changed =>
    case Frozen =>
    case _ => assert RowAfter(t, name, e, clock) == Stamped(t[id], clock);
  }

  /** What one fetch does to a row's owner, archive mark and stamp. */
  lemma FetchedRow(env: Env, t: Table, f: Fetch, t': Table, id: EventId)
    requires RowFollows(env, t, f, t', id) && id in t'
    ensures id !in t ==> Sees(env, f, id)
    ensures t'[id].source == if id in t then t[id].source else f.cfg.name
    ensures t'[id].archivedAt == if id in t then t[id].archivedAt else None
    ensures t'[id].lastSeenAt == if Sees(env, f, id) && !Archived(t, id) then Some(f.clock.ts) else t[id].lastSeenAt
  {
    if Sees(env, f, id) {
      var e := Incoming(env, f, t, SeenEvent(env, f, id));
      IncomingKeeps(env, f, t, SeenEvent(env, f, id));
      RowAfterBookkeeping(t, f.cfg.name, e, f.clock);
    }
  }

  lemma FetchedRowAt(env: Env, s: State, f: Fetch, id: EventId)
    requires Proper(f) && id in FetchState(env, s, f).events
    ensures var row := FetchState(env, s, f).events[id];
      && (id !in s.events ==> Sees(env, f, id))
      && row.source == (if id in s.events then s.events[id].source else f.cfg.name)
      && row.archivedAt == (if id in s.events then s.events[id].archivedAt else None)
      && row.lastSeenAt
         == if Sees(env, f, id) && !Archived(s.events, id) then Some(f.clock.ts) else s.events[id].lastSeenAt
  {
    hide FetchState;
    FetchRows(env, s, f);
    assert RowFollows(env, s.events, f, FetchState(env, s, f).events, id);
    FetchedRow(env, s.events, f, FetchState(env, s, f).events, id);
  }

  /** A row keeps its owner over the whole run. */
  lemma {:induction false} RowKeepsOwner(s0: State, steps: seq<Step>, source: string, id: EventId)
    requires Ordinary(steps, source, id) && (id in s0.events ==> s0.events[id].source == source)
    ensures var t := Run(s0, steps).events; id in t ==> t[id].source == source
  {
    hide Next, ListedBy, Redeclares;
    if steps != [] {
      OrdinaryFront(steps, source, id);
      RowKeepsOwner(s0, Front(steps), source, id);
      var s, step := Run(s0, Front(steps)), Last(steps);
      if SourceOf(step) != Some(source) { OthersCannotTouch(steps, source, id, |steps| - 1); }
      if id in Next(s, step).events { StepKeepsOwner(s, step, source, id); }
    }
  }

  lemma StepKeepsOwner(s: State, step: Step, source: string, id: EventId)
    requires (step.Fetched? ==> Proper(step.f)) && id in Next(s, step).events
    requires id in s.events ==> s.events[id].source == source
    requires SourceOf(step) == Some(source) || (!ListedBy(step, id) && !Redeclares(step, id))
    ensures Next(s, step).events[id].source == source
  {
    hide FetchState, SweepState, Placeholders.MaterializeTable, Placeholders.GoesIn, Sees;
    match step
    case Fetched(env, f) => FetchedRowAt(env, s, f, id);
    case FetchFailed(_) =>
    case PostFetched(cfg, ts) => PostedKeepsRows(s, cfg, ts);
    case Swept(settings, now) => SweptAt(settings, s, now, id);
    case Materialized(reader, cfg, after) =>
      Placeholders.MaterializedKeys(s.events, reader, cfg.name, cfg.recurrences, after, id);
      var _ := Placeholders.MaterializedRow(s.events, reader, cfg.name, cfg.recurrences, after, id);
    case _ => AttendedRow(s, step, id);
  }

  // ---- the history a run leaves ----------------------------------------

  /** The clock reading of a step. */
  function StampOf(step: Step): Time {
    match step
    case Fetched(_, f) => f.clock.ts
    case PostFetched(_, ts) => ts
    case Materialized(_, _, after) => after.now
    case Swept(_, now) => now
    case _ => 0
  }

  /** The step stamps the row at `id`: it declares the series there, or lists the id while the row is
      not archived. */
  ghost predicate Stamping(t: Table, step: Step, id: EventId) {
    Redeclares(step, id) || (ListedBy(step, id) && !Archived(t, id))
  }

  /** When the run last listed `id` while its row was not archived, or declared the series at it;
      before the run, the row's own stamp. */
  ghost function LastSeen(s0: State, steps: seq<Step>, id: EventId): Option<Time> {
    if steps == [] then (if id in s0.events then s0.events[id].lastSeenAt else None)
    else if Stamping(Run(s0, Front(steps)).events, Last(steps), id) then Some(StampOf(Last(steps)))
    else LastSeen(s0, Front(steps), id)
  }

  /** The step is a committed fetch of this source's events or posts. */
  predicate Fetches(step: Step, source: string) {
    (step.Fetched? || step.PostFetched?) && SourceOf(step) == Some(source)
  }

  /** When the run last fetched this source; before the run, the source's own stamp. */
  function LastFetch(s0: State, steps: seq<Step>, source: string): Option<Time> {
    if steps == [] then FetchedAt(s0.sources, source)
    else if Fetches(Last(steps), source) then Some(StampOf(Last(steps)))
    else LastFetch(s0, Front(steps), source)
  }

  lemma PostStampsSource(s: State, cfg: SourceConfig, ts: Time, source: string)
    ensures FetchedAt(PostedState(s, cfg, ts).sources, source)
         == if source == cfg.name then Some(ts) else FetchedAt(s.sources, source)
  {
  }

  lemma StepStampsSource(s: State, step: Step, source: string)
    ensures FetchedAt(Next(s, step).sources, source)
         == if Fetches(step, source) then Some(StampOf(step)) else FetchedAt(s.sources, source)
  {
    hide FetchState, SweepState, Placeholders.MaterializeTable, PostedState;
    match step
    case Fetched(env, f) => FetchStampsSource(env, s, f);
    case FetchFailed(_) =>
    case PostFetched(cfg, ts) => PostStampsSource(s, cfg, ts, source);
    case Swept(settings, now) => SweptAt(settings, s, now, IdOf(""));
    case Materialized(_, _, _) =>
    case _ => AttendedRow(s, step, IdOf(""));
  }

  /** A source's stamp is when the run last fetched it. */
  lemma {:induction false} SourceStampIsLastFetch(s0: State, steps: seq<Step>, source: string)
    ensures FetchedAt(Run(s0, steps).sources, source) == LastFetch(s0, steps, source)
  {
    hide Next, Fetches;
    if steps != [] {
      SourceStampIsLastFetch(s0, Front(steps), source);
      StepStampsSource(Run(s0, Front(steps)), Last(steps), source);
    }
  }

  /** What a step did to a row's stamp. */
  lemma StepStampsRow(s: State, step: Step, id: EventId)
    requires (step.Fetched? ==> Proper(step.f)) && id in Next(s, step).events
    ensures var row := Next(s, step).events[id];
      if Stamping(s.events, step, id) then row.lastSeenAt == Some(StampOf(step))
      else id in s.events && row.lastSeenAt == s.events[id].lastSeenAt
  {
    hide FetchState, SweepState, Placeholders.MaterializeTable, Placeholders.GoesIn, Sees;
    match step
    case Fetched(env, f) => FetchedRowAt(env, s, f, id);
    case FetchFailed(_) =>
    case PostFetched(cfg, ts) => PostedKeepsRows(s, cfg, ts);
    case Swept(settings, now) => SweptAt(settings, s, now, id);
    case Materialized(reader, cfg, after) =>
      Placeholders.MaterializedKeys(s.events, reader, cfg.name, cfg.recurrences, after, id);
      var _ := Placeholders.MaterializedRow(s.events, reader, cfg.name, cfg.recurrences, after, id);
    case _ => AttendedRow(s, step, id);
  }

  /** After any run, attended or not, every row's stamp is when the run last listed it while it was not
      archived, or declared its series. */
  lemma {:induction false} RowStampIsLastSeen(s0: State, steps: seq<Step>, id: EventId)
    requires ProperSteps(steps) && id in Run(s0, steps).events
    ensures Run(s0, steps).events[id].lastSeenAt == LastSeen(s0, steps, id)
  {
    hide Next, Stamping;
    if steps != [] {
      ProperFront(steps);
      StepStampsRow(Run(s0, Front(steps)), Last(steps), id);
      if !Stamping(Run(s0, Front(steps)).events, Last(steps), id) {
        RowStampIsLastSeen(s0, Front(steps), id);
      }
    }
  }

  /** The stamp is not the source's latest fetch, and the grace period has passed since. */
  predicate StampIsOld(stamp: Time, fetched: Option<Time>, now: Time, grace: int) {
    Some(stamp) != fetched && now - stamp >= grace
  }

  /** After any run, attended or not, an archive pass takes a live row as removed exactly when it is not
      expired, its source is not permanent, and the run's own history says so: never seen, or last
      seen at another time than the source's latest fetch and at least the grace period ago. */
  lemma RemovalIsExact(s0: State, steps: seq<Step>, settings: Settings, now: Time, id: EventId)
    requires ProperSteps(steps)
    requires var t := Run(s0, steps).events; id in t && t[id].archivedAt.None?
    ensures var s := Run(s0, steps);
      var row, seen, grace := s.events[id], LastSeen(s0, steps, id), settings.archiveGraceHours;
      var fetched := LastFetch(s0, steps, row.source);
      SweepReason(settings, s.sources, row, now) == Some(Removed)
      <==> && grace.Some? && !RowExpired(settings, row, now) && !Permanent(settings, s.sources, row.source)
           && (seen.None? || StampIsOld(seen.value, fetched, now, grace.value * HOUR))
  {
    hide Run, LastSeen, LastFetch;
    var s := Run(s0, steps);
    RowStampIsLastSeen(s0, steps, id);
    SourceStampIsLastFetch(s0, steps, s.events[id].source);
  }

  /** The history says the row is gone at its source: never seen, or last seen at another time than the
      source's latest fetch and at least the grace period, in hours, ago. */
  predicate GoneAtSource(seen: Option<Time>, fetched: Option<Time>, now: Time, graceHours: int) {
    seen.None? || (seen != fetched && now - seen.value >= graceHours * 3_600_000_000)
  }

  /** The row but for its archive mark. */
  ghost predicate SameButMark(row: Event, row': Event) {
    row' == row.(archivedAt := row'.archivedAt, archivedReason := row'.archivedReason)
  }

  /** What an archive pass leaves after any run, attended or not.  No row appears or disappears, and an
      archived one is as it was.  A live one is marked as expired at that instant exactly when it is
      expired; as removed exactly when it is not, its source is not permanent, and the run's own
      history says it is gone; and otherwise it is as it was.  Nothing but the mark moves. */
  lemma PassMarksExactly(s0: State, steps: seq<Step>, settings: Settings, now: Time, id: EventId)
    requires ProperSteps(steps)
    ensures var s, s' := Run(s0, steps), Run(s0, steps + [Swept(settings, now)]);
      && (id in s'.events <==> id in s.events)
      && (Archived(s.events, id) ==> s'.events[id] == s.events[id])
      && (id in s.events && s.events[id].archivedAt.None? ==>
            var row, row' := s.events[id], s'.events[id];
            var permanent := row.source in s.sources && settings.permanent(s.sources[row.source].gatherer);
            var expired := !NotOver(settings, FinalInstant(settings, row.startAt, row.endAt, row.rrule), now);
            var gone := settings.archiveGraceHours.Some?
                        && GoneAtSource(LastSeen(s0, steps, id), LastFetch(s0, steps, row.source), now,
                                        settings.archiveGraceHours.value);
            && SameButMark(row, row')
            && (row'.archivedAt == Some(now) && row'.archivedReason == Some(Expired) <==> expired)
            && (row'.archivedAt == Some(now) && row'.archivedReason == Some(Removed)
                <==> !expired && !permanent && gone)
            && (row' == row <==> !expired && (permanent || !gone)))
  {
    hide LastSeen, LastFetch, Run, RowExpired;
    var s := Run(s0, steps);
    RunConcat(s0, steps, [Swept(settings, now)]);
    RunOne(s, Swept(settings, now));
    SweptAt(settings, s, now, id);
    if id in s.events && s.events[id].archivedAt.None? {
      ExpiredMeaning(settings, s.events[id], now);
      RemovalIsExact(s0, steps, settings, now, id);
    }
  }

  // ---- outages ---------------------------------------------------------

  /** The source has no committed step in the run. */
  ghost predicate NoTurnOf(steps: seq<Step>, source: string) {
    forall k | 0 <= k < |steps| :: SourceOf(steps[k]) != Some(source)
  }

  /** The row carries its source's latest stamp and is not archived as removed. */
  ghost predicate Fresh(s: State, id: EventId, source: string, stamp: Time) {
    && id in s.events && s.events[id].source == source
    && s.events[id].lastSeenAt == Some(stamp) == FetchedAt(s.sources, source)
    && (s.events[id].archivedAt.Some? ==> s.events[id].archivedReason == Some(Expired))
  }

  /** The row is as it was, or only archived as expired. */
  ghost predicate KeptOrExpired(row: Event, row': Event) {
    row' == row || (row'.archivedReason == Some(Expired) && Unmarked(row') == Unmarked(row) && row'.archivedAt.Some?)
  }

  /** Another source's step leaves the row exactly as it is. */
  lemma OtherStepLeavesRow(s: State, step: Step, id: EventId)
    requires Automatic(step) && !step.Swept? && (step.Fetched? ==> Proper(step.f))
    requires id in s.events && SourceOf(step) != Some(s.events[id].source)
    requires !ListedBy(step, id) && !Redeclares(step, id)
    ensures var t' := Next(s, step).events; id in t' && t'[id] == s.events[id]
  {
    hide FetchState, Placeholders.MaterializeTable, Placeholders.GoesIn, Sees;
    match step
    case Fetched(env, f) => FetchUnseen(env, s, f, id);
    case PostFetched(cfg, ts) => PostedKeepsRows(s, cfg, ts);
    case Materialized(reader, cfg, after) =>
      var _ := Placeholders.MaterializedRow(s.events, reader, cfg.name, cfg.recurrences, after, id);
    case _ =>
  }

  lemma SweepLeavesFreshRow(settings: Settings, s: State, now: Time, id: EventId)
    requires id in s.events
    requires s.events[id].lastSeenAt.Some? && s.events[id].lastSeenAt == FetchedAt(s.sources, s.events[id].source)
    ensures var t' := SweepState(settings, s, now).events;
      id in t' && KeptOrExpired(s.events[id], t'[id]) && t'[id].lastSeenAt == s.events[id].lastSeenAt
  {
    SweptAt(settings, s, now, id);
    if s.events[id].archivedAt.None? { StampedRowNotRemoved(settings, s.sources, s.events[id], now); }
  }

  lemma NoTurnFront(steps: seq<Step>, source: string)
    requires steps != [] && NoTurnOf(steps, source)
    ensures NoTurnOf(Front(steps), source) && SourceOf(Last(steps)) != Some(source)
  {
    assert Last(steps) == steps[|steps| - 1];
  }

  lemma StepKeepsFresh(s: State, step: Step, id: EventId, source: string, stamp: Time)
    requires (step.Fetched? ==> Proper(step.f)) && SourceOf(step) != Some(source)
    requires !ListedBy(step, id) && !Redeclares(step, id) && Fresh(s, id, source, stamp)
    ensures Fresh(Next(s, step), id, source, stamp)
    ensures Automatic(step) ==> KeptOrExpired(s.events[id], Next(s, step).events[id])
  {
    hide Next;
    StepStampsSource(s, step, source);
    if step.Swept? {
      SweepIsNext(s, step);
      SweepLeavesFreshRow(step.settings, s, step.now, id);
    } else if Automatic(step) {
      OtherStepLeavesRow(s, step, id);
    } else {
      AttendedRow(s, step, id);
    }
  }

  lemma SweepIsNext(s: State, step: Step)
    requires step.Swept?
    ensures Next(s, step) == SweepState(step.settings, s, step.now)
  {
  }

  /** However long a source then fails, a row stamped by its latest successful fetch is never archived
      as removed, whatever happens to the other sources and whoever edits, restores or resolves; and
      while nobody does, it stays exactly as it was, or expires. */
  lemma {:induction false} OutageRemovesNothing(s: State, steps: seq<Step>, id: EventId, source: string, stamp: Time)
    requires Ordinary(steps, source, id) && NoTurnOf(steps, source) && Fresh(s, id, source, stamp)
    ensures Fresh(Run(s, steps), id, source, stamp)
    ensures Unattended(steps) ==> KeptOrExpired(s.events[id], Run(s, steps).events[id])
  {
    hide Next, ListedBy, Redeclares, Unmarked;
    if steps != [] {
      var s1 := Run(s, Front(steps));
      OrdinaryFront(steps, source, id);
      NoTurnFront(steps, source);
      OutageRemovesNothing(s, Front(steps), id, source, stamp);
      OthersCannotTouch(steps, source, id, |steps| - 1);
      StepKeepsFresh(s1, Last(steps), id, source, stamp);
      if Unattended(steps) {
        UnattendedFront(steps);
        if s1.events[id].archivedAt.Some? { StepFreezesArchived(s1, Last(steps), id); }
      }
    }
  }

  // ---- removed means missing -------------------------------------------

  /** The steps a source takes read a clock that does not run backwards, and each of its fetches
      reads a later time than any before it and than the row's stamp at the start. */
  ghost predicate Increasing(s0: State, steps: seq<Step>, source: string, id: EventId) {
    && (forall i, j | 0 <= i < j < |steps| && SourceOf(steps[i]) == Some(source) == SourceOf(steps[j]) ::
          Follows(StampOf(steps[i]), steps[j]))
    && (forall k | 0 <= k < |steps| && SourceOf(steps[k]) == Some(source) :: StartsAfter(s0, id, steps[k]))
  }

  predicate Follows(stamp: Time, step: Step) {
    if step.Materialized? then stamp <= StampOf(step) else stamp < StampOf(step)
  }

  predicate StartsAfter(s0: State, id: EventId, step: Step) {
    id in s0.events && s0.events[id].lastSeenAt.Some? ==> Follows(s0.events[id].lastSeenAt.value, step)
  }

  lemma IncreasingFront(s0: State, steps: seq<Step>, source: string, id: EventId)
    requires steps != [] && Increasing(s0, steps, source, id)
    ensures Increasing(s0, Front(steps), source, id)
  {
    assert forall k | 0 <= k < |Front(steps)| :: Front(steps)[k] == steps[k];
  }

  /** Step `k` of the run stamps the row at `id`. */
  ghost predicate StampedAt(s0: State, steps: seq<Step>, id: EventId, k: nat) {
    k < |steps| && Stamping(Run(s0, steps[..k]).events, steps[k], id)
  }

  lemma StampedAtFront(s0: State, steps: seq<Step>, id: EventId, k: nat)
    requires k < |steps|
    ensures StampedAt(s0, steps, id, k)
         == if k == |steps| - 1 then Stamping(Run(s0, Front(steps)).events, Last(steps), id)
            else StampedAt(s0, Front(steps), id, k)
  {
    hide Run, Stamping;
    if k == |steps| - 1 {
      assert steps[..k] == Front(steps);
    } else {
      assert steps[..k] == Front(steps)[..k] && steps[k] == Front(steps)[k];
    }
  }

  /** Whatever stamps the row is a step of its own source. */
  lemma StampedByOwner(s0: State, steps: seq<Step>, source: string, id: EventId, k: nat)
    requires Ordinary(steps, source, id) && StampedAt(s0, steps, id, k)
    ensures SourceOf(steps[k]) == Some(source)
  {
    hide Run, ListedBy, Redeclares;
    if SourceOf(steps[k]) != Some(source) { OthersCannotTouch(steps, source, id, k); }
  }

  /** Every step that stamped the row did so no later than `LastSeen`. */
  lemma {:induction false} LastSeenIsLatest(s0: State, steps: seq<Step>, source: string, id: EventId, k: nat)
    requires Ordinary(steps, source, id) && Increasing(s0, steps, source, id) && StampedAt(s0, steps, id, k)
    ensures LastSeen(s0, steps, id).Some? && StampOf(steps[k]) <= LastSeen(s0, steps, id).value
  {
    hide Run, Stamping, StampedAt, StampOf;
    StampedAtLength(s0, steps, id, k);
    OrdinaryFront(steps, source, id);
    IncreasingFront(s0, steps, source, id);
    StampedByOwner(s0, steps, source, id, k);
    StampedAtFront(s0, steps, id, k);
    StampedAtFront(s0, steps, id, |steps| - 1);
    if StampedAt(s0, steps, id, |steps| - 1) {
      StampedByOwner(s0, steps, source, id, |steps| - 1);
      assert k < |steps| - 1 ==> Follows(StampOf(steps[k]), steps[|steps| - 1]);
    } else {
      LastSeenIsLatest(s0, Front(steps), source, id, k);
    }
  }

  lemma StampedAtLength(s0: State, steps: seq<Step>, id: EventId, k: nat)
    requires StampedAt(s0, steps, id, k)
    ensures k < |steps|
  {
  }

  /** `k` is the run's latest fetch of this source. */
  ghost predicate LatestFetchOf(steps: seq<Step>, source: string, k: nat) {
    && k < |steps| && Fetches(steps[k], source)
    && forall j | k < j < |steps| :: !Fetches(steps[j], source)
  }

  /** Nothing declares the series at the id after step `k`. */
  ghost predicate NotRedeclaredSince(steps: seq<Step>, id: EventId, k: nat) {
    forall j | k < j < |steps| :: !Redeclares(steps[j], id)
  }

  /** The latest fetch of the id's source stamped its row exactly when the two stamps agree, unless its
      series was declared since. */
  lemma {:induction false} StampsAgreeIffListed(s0: State, steps: seq<Step>, source: string, id: EventId, k: nat)
    requires Ordinary(steps, source, id) && Increasing(s0, steps, source, id)
    requires LatestFetchOf(steps, source, k) && NotRedeclaredSince(steps, id, k)
    ensures LastFetch(s0, steps, source) == Some(StampOf(steps[k]))
    ensures StampedAt(s0, steps, id, k) <==> LastSeen(s0, steps, id) == LastFetch(s0, steps, source)
  {
    hide Run, Stamping, StampedAt, Redeclares, StampOf;
    OrdinaryFront(steps, source, id);
    IncreasingFront(s0, steps, source, id);
    StampedAtFront(s0, steps, id, k);
    assert forall j | 0 <= j < |Front(steps)| :: Front(steps)[j] == steps[j];
    if k == |steps| - 1 {
      if !StampedAt(s0, steps, id, k) { SeenBefore(s0, Front(steps), source, id, steps[k]); }
    } else {
      StampsAgreeIffListed(s0, Front(steps), source, id, k);
      StampedAtFront(s0, steps, id, |steps| - 1);
      if StampedAt(s0, steps, id, |steps| - 1) {
        StampedByOwner(s0, steps, source, id, |steps| - 1);
        StampedByFetch(s0, steps, source, id, |steps| - 1);
      }
    }
  }

  lemma StampedByFetch(s0: State, steps: seq<Step>, source: string, id: EventId, k: nat)
    requires StampedAt(s0, steps, id, k) && SourceOf(steps[k]) == Some(source) && !Redeclares(steps[k], id)
    ensures Fetches(steps[k], source)
  {
  }

  /** Whatever stamped the row before a fetch of its source did so at an earlier time. */
  lemma {:induction false} SeenBefore(s0: State, steps: seq<Step>, source: string, id: EventId, fetch: Step)
    requires Ordinary(steps, source, id) && Fetches(fetch, source) && StartsAfter(s0, id, fetch)
    requires forall k | 0 <= k < |steps| && SourceOf(steps[k]) == Some(source) :: Follows(StampOf(steps[k]), fetch)
    ensures var seen := LastSeen(s0, steps, id); seen.Some? ==> seen.value < StampOf(fetch)
  {
    hide Run, Stamping, StampedAt, StampOf;
    if steps != [] {
      OrdinaryFront(steps, source, id);
      StampedAtFront(s0, steps, id, |steps| - 1);
      if StampedAt(s0, steps, id, |steps| - 1) {
        StampedByOwner(s0, steps, source, id, |steps| - 1);
        assert Follows(StampOf(steps[|steps| - 1]), fetch);
      } else {
        assert forall k | 0 <= k < |Front(steps)| :: Front(steps)[k] == steps[k];
        SeenBefore(s0, Front(steps), source, id, fetch);
      }
    }
  }

  /** With increasing times, whatever an archive pass takes as removed, after any run, attended or not,
      was missing from its source's latest fetch or archived then, unless its series was declared
      since; and everything that ever stamped it is at least the grace period past. */
  lemma RemovedMeansMissing(
    s0: State, steps: seq<Step>, settings: Settings, now: Time, source: string, id: EventId)
    requires Ordinary(steps, source, id) && Increasing(s0, steps, source, id)
    requires id in s0.events ==> s0.events[id].source == source
    requires var s := Run(s0, steps);
      id in s.events && SweepReason(settings, s.sources, s.events[id], now) == Some(Removed)
    ensures settings.archiveGraceHours.Some?
    ensures forall k: nat | LatestFetchOf(steps, source, k) && NotRedeclaredSince(steps, id, k) ::
              !StampedAt(s0, steps, id, k)
    ensures forall k: nat | k < |steps| && StampedAt(s0, steps, id, k) ::
              now - StampOf(steps[k]) >= settings.archiveGraceHours.value * HOUR
  {
    hide Run, LastSeen, LastFetch, StampedAt, Redeclares, StampOf;
    RowKeepsOwner(s0, steps, source, id);
    RemovalIsExact(s0, steps, settings, now, id);
    forall k: nat | LatestFetchOf(steps, source, k) && NotRedeclaredSince(steps, id, k)
      ensures !StampedAt(s0, steps, id, k)
    {
      StampsAgreeIffListed(s0, steps, source, id, k);
    }
    forall k: nat | k < |steps| && StampedAt(s0, steps, id, k)
      ensures now - StampOf(steps[k]) >= settings.archiveGraceHours.value * HOUR
    {
      LastSeenIsLatest(s0, steps, source, id, k);
    }
  }

  /** An archived row that is live later in an unattended run was declared in between. */
  lemma RevivedMeansDeclared(s0: State, steps: seq<Step>, id: EventId, k: nat)
    requires ProperSteps(steps) && Unattended(steps) && k <= |steps|
    requires Archived(Run(s0, steps[..k]).events, id) && !Archived(Run(s0, steps).events, id)
    ensures exists j :: k <= j < |steps| && Redeclares(steps[j], id)
  {
    hide Run, Redeclares;
    assert steps == steps[..k] + steps[k..];
    RunConcat(s0, steps[..k], steps[k..]);
    if NeverRedeclared(steps[k..], id) {
      ArchivedRowsAreFrozen(Run(s0, steps[..k]), steps[k..], id);
      assert false;
    }
    var j :| 0 <= j < |steps[k..]| && Redeclares(steps[k..][j], id);
    assert steps[k..][j] == steps[k + j];
  }

  /** A step that touched a row without stamping it, in an unattended run after which the row is live, was
      followed by a declaration of its series. */
  lemma UnstampedMeansDeclared(s0: State, steps: seq<Step>, source: string, id: EventId, k: nat)
    requires Ordinary(steps, source, id) && Increasing(s0, steps, source, id) && Unattended(steps)
    requires k < |steps| && (ListedBy(steps[k], id) || Redeclares(steps[k], id)) && !StampedAt(s0, steps, id, k)
    requires !Archived(Run(s0, steps).events, id)
    ensures exists j ::
      && k < j < |steps| && Redeclares(steps[j], id) && StampedAt(s0, steps, id, j)
      && StampOf(steps[k]) <= StampOf(steps[j])
  {
    hide Run, ListedBy, Redeclares, StampOf;
    RevivedMeansDeclared(s0, steps, id, k);
    var j :| k <= j < |steps| && Redeclares(steps[j], id);
    assert StampedAt(s0, steps, id, j);
    StampedByOwner(s0, steps, source, id, j);
    if SourceOf(steps[k]) != Some(source) { OthersCannotTouch(steps, source, id, k); }
    assert j > k && Follows(StampOf(steps[k]), steps[j]);
    FollowsIsLater(StampOf(steps[k]), steps[j]);
  }

  /** So in an unattended run whatever is taken as removed was not listed by its source's latest fetch,
      unless its series was declared since, and every listing and every declaration is at least the
      grace period past. */
  lemma RemovedMeansUnlisted(
    s0: State, steps: seq<Step>, settings: Settings, now: Time, source: string, id: EventId)
    requires Ordinary(steps, source, id) && Increasing(s0, steps, source, id) && Unattended(steps)
    requires id in s0.events ==> s0.events[id].source == source
    requires var s := Run(s0, steps);
      id in s.events && SweepReason(settings, s.sources, s.events[id], now) == Some(Removed)
    ensures settings.archiveGraceHours.Some?
    ensures forall k: nat | LatestFetchOf(steps, source, k) && NotRedeclaredSince(steps, id, k) ::
              !ListedBy(steps[k], id)
    ensures forall k: nat | k < |steps| && (ListedBy(steps[k], id) || Redeclares(steps[k], id)) ::
              now - StampOf(steps[k]) >= settings.archiveGraceHours.value * HOUR
  {
    hide Run, ListedBy, Redeclares, StampOf, StampedAt, Ordinary, Increasing, Unattended;
    RemovedMeansMissing(s0, steps, settings, now, source, id);
    var grace := settings.archiveGraceHours.value * HOUR;
    forall k: nat | k < |steps| && (ListedBy(steps[k], id) || Redeclares(steps[k], id))
      ensures now - StampOf(steps[k]) >= grace
      ensures LatestFetchOf(steps, source, k) && NotRedeclaredSince(steps, id, k) ==> !ListedBy(steps[k], id)
    {
      if !StampedAt(s0, steps, id, k) {
        UnstampedMeansDeclared(s0, steps, source, id, k);
      }
    }
  }

  lemma FollowsIsLater(stamp: Time, step: Step)
    requires Follows(stamp, step)
    ensures stamp <= StampOf(step)
  {
  }

  // ---- when a shared id is lost ------------------------------------------

  /** Where two sources do share an id, the other one's fetch moves the row's stamp away from its
      owner's, and an archive pass takes the row as removed although its owner's latest fetch listed
      it: exactly when the grace period has passed since the other source listed it. */
  lemma SharedIdIsRemovedWhileListed(env: Env, s: State, f: Fetch, now: Time, id: EventId)
    requires Proper(f) && Sees(env, f, id) && id in s.events && s.events[id].archivedAt.None?
    requires s.events[id].source != f.cfg.name && FetchedAt(s.sources, s.events[id].source) == s.events[id].lastSeenAt
    ensures var s', owner := FetchState(env, s, f), s.events[id].source;
      && id in s'.events
      && FetchedAt(s'.sources, owner) == FetchedAt(s.sources, owner)
      && (SweepReason(env.settings, s'.sources, s'.events[id], now) == Some(Removed)
          <==> && env.settings.archiveGraceHours.Some? && !RowExpired(env.settings, s'.events[id], now)
               && !Permanent(env.settings, s'.sources, owner)
               && StampIsOld(f.clock.ts, FetchedAt(s.sources, owner), now,
                             env.settings.archiveGraceHours.value * HOUR))
  {
    hide FetchState;
    FetchSeen(env, s, f, SeenEvent(env, f, id));
    FetchStampsSource(env, s, f);
    FetchedRowAt(env, s, f, id);
  }

  /** For instance a source "a" that lists uid "b:u" and a source "a:b" that lists uid "u". */
  lemma ColonLosesListedRow(env: Env, fa: Fetch, fb: Fetch, e: ScrapedEvent, now: Time)
    requires fa.cfg.name == "a" && fa.raw == [e.(uid := Some("b:u"))]
    requires fb.cfg.name == "a:b" && fb.raw == [e.(uid := Some("u"))]
    requires EventRelevant(env.settings, e, fa.now) && EventRelevant(env.settings, e, fb.now)
    ensures var id := StableId("a", e.(uid := Some("b:u")));
      var s1 := FetchState(env, State(map[], map[], []), fa);
      var s2 := FetchState(env, s1, fb);
      && Sees(env, fa, id) && id in s2.events && s2.events[id].source == "a"
      && FetchedAt(s2.sources, "a") == Some(fa.clock.ts)
      && (SweepReason(env.settings, s2.sources, s2.events[id], now) == Some(Removed)
          <==> && env.settings.archiveGraceHours.Some? && !RowExpired(env.settings, s2.events[id], now)
               && !Permanent(env.settings, s2.sources, "a")
               && StampIsOld(fb.clock.ts, Some(fa.clock.ts), now, env.settings.archiveGraceHours.value * HOUR))
  {
    hide FetchState;
    var ea, eb := e.(uid := Some("b:u")), e.(uid := Some("u"));
    var id, s0 := StableId("a", ea), State(map[], map[], []);
    var s1 := FetchState(env, s0, fa);
    SharedColonId(e);
    assert ea in fa.raw && eb in fb.raw;
    assert Sees(env, fa, id) && Sees(env, fb, id);
    FetchSeen(env, s0, fa, ea);
    FetchStampsSource(env, s0, fa);
    FetchedRowAt(env, s0, fa, id);
    SharedIdIsRemovedWhileListed(env, s1, fb, now, id);
    FetchedRowAt(env, s1, fb, id);
  }

  lemma SharedColonId(e: ScrapedEvent)
    ensures StableId("a", e.(uid := Some("b:u"))) == StableId("a:b", e.(uid := Some("u")))
  {
    assert "a:b" + ":" + "u" == "a" + ":" + "b:u";
  }

  /** Restoring by hand opens a gap: while archived, a row is not stamped even though its source
      lists it, so after a restore an archive pass before the next fetch takes it as removed
      although the latest fetch listed it, exactly when the stamp it was archived with is old. */
  lemma RestoredRowRemovedWhileListed(
    env: Env, s: State, f: Fetch, rehost: seq<ImageRef> -> seq<ImageRef>, now: Time, id: EventId)
    requires Proper(f) && Sees(env, f, id) && Archived(s.events, id) && s.events[id].source == f.cfg.name
    ensures var s' := RestoreState(FetchState(env, s, f), id, rehost);
      var was, grace := s.events[id], env.settings.archiveGraceHours;
      && id in s'.events
      && (SweepReason(env.settings, s'.sources, s'.events[id], now) == Some(Removed)
          <==> && grace.Some? && !RowExpired(env.settings, was, now)
               && !Permanent(env.settings, FetchState(env, s, f).sources, f.cfg.name)
               && (was.lastSeenAt.None? || StampIsOld(was.lastSeenAt.value, Some(f.clock.ts), now, grace.value * HOUR)))
  {
    FetchFreezesArchived(env, s, f, id);
    FetchStampsSource(env, s, f);
    RestoredGap(env, FetchState(env, s, f), f, rehost, now, id);
  }

  lemma RestoredGap(
    env: Env, s1: State, f: Fetch, rehost: seq<ImageRef> -> seq<ImageRef>, now: Time, id: EventId)
    requires Archived(s1.events, id) && s1.events[id].source == f.cfg.name
    requires FetchedAt(s1.sources, f.cfg.name) == Some(f.clock.ts)
    ensures var s', was, grace := RestoreState(s1, id, rehost), s1.events[id], env.settings.archiveGraceHours;
      && id in s'.events
      && (SweepReason(env.settings, s'.sources, s'.events[id], now) == Some(Removed)
          <==> && grace.Some? && !RowExpired(env.settings, was, now) && !Permanent(env.settings, s1.sources, f.cfg.name)
               && (was.lastSeenAt.None? || StampIsOld(was.lastSeenAt.value, Some(f.clock.ts), now, grace.value * HOUR)))
  {
  }
}
