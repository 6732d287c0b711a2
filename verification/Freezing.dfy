/** What the unattended part of a deployment's life can change: archived rows, pinned rows, and
    exactly when. */
module Freezing {
  import opened Wrappers
  import opened Text
  import opened Schema
  import opened Identity
  import opened Expiry
  import opened Decisionmaker
  import opened Ingest
  import opened Archive
  import opened Lifecycle
  import Conflicts
  import Events
  import Placeholders

  // ---- unattended steps -------------------------------------------------

  predicate Automatic(step: Step) {
    step.Fetched? || step.FetchFailed? || step.PostFetched? || step.Materialized? || step.Swept?
  }

  /** What happens without an edit, a restore or a resolution: sources' turns, failed or not,
      declarations, and archive passes. */
  ghost predicate Unattended(steps: seq<Step>) {
    forall k :: 0 <= k < |steps| ==> Automatic(steps[k])
  }

  lemma UnattendedFront(steps: seq<Step>)
    requires steps != [] && Unattended(steps)
    ensures Unattended(Front(steps)) && Automatic(Last(steps))
  {
  }

  /** The declaration a step materialises at this id: the last one of the series that parses. */
  function Declared(step: Step, id: EventId): Option<Placeholders.Decl> {
    if step.Materialized? then Placeholders.LastDecl(step.reader, step.cfg.name, step.cfg.recurrences, id) else None
  }

  predicate Redeclares(step: Step, id: EventId) {
    Declared(step, id).Some?
  }

  /** Source, uid, stamp and placeholder mark: out of reach of an admin. */
  ghost predicate SameOrigin(a: Event, b: Event) {
    a.source == b.source && a.uid == b.uid && a.lastSeenAt == b.lastSeenAt && a.placeholder == b.placeholder
  }

  /** What an admin's step leaves of a row: its origin, and its archive mark unless it is restored. */
  lemma AttendedRow(s: State, step: Step, id: EventId)
    requires !Automatic(step)
    ensures var s' := Next(s, step);
      && s'.sources == s.sources && (id in s'.events <==> id in s.events)
      && (id in s.events ==>
            && SameOrigin(s'.events[id], s.events[id])
            && (s'.events[id].archivedAt.None?
                || (s'.events[id].archivedAt == s.events[id].archivedAt
                    && s'.events[id].archivedReason == s.events[id].archivedReason))
            && (s.events[id].archivedAt.None? ==> s'.events[id].archivedAt.None?))
  {
    hide Events.UpdateEventState, Conflicts.ResolveState;
    match step
    case Edited(at, edits, pinned, wall) => EditedOrigin(s, at, edits, pinned, wall, id);
    case Resolved(k, action, wall) => ResolvedOrigin(s, k, action, wall, id);
    case _ =>
  }

  /** Origin and archive mark stay. */
  ghost predicate SameStanding(t: Table, t': Table, id: EventId) {
    && (id in t' <==> id in t)
    && (id in t ==>
          && SameOrigin(t'[id], t[id]) && t'[id].archivedAt == t[id].archivedAt
          && t'[id].archivedReason == t[id].archivedReason)
  }

  lemma EditedOrigin(s: State, at: EventId, edits: seq<Events.Edit>, pinned: bool, wall: Time, id: EventId)
    ensures var s' := Events.UpdateEventState(s, at, edits, pinned, wall);
      s'.sources == s.sources && SameStanding(s.events, s'.events, id)
  {
    hide Events.EditedRow;
    if at in s.events { Events.EditCannotForge(s.events[at], edits, pinned, wall); }
  }

  lemma ResolvedOrigin(s: State, k: nat, action: Conflicts.Action, wall: Time, id: EventId)
    ensures var s' := Conflicts.ResolveState(s, k, action, wall);
      s'.sources == s.sources && SameStanding(s.events, s'.events, id)
  {
    hide Events.EditedRow, ContentHash;
    if Conflicts.Resolvable(s, k, action) && action.Syncretize? && s.conflicts[k].eventId in s.events {
      var at, fields := s.conflicts[k].eventId, Conflicts.MergeableOnly(action.merged);
      Events.EditCannotForge(s.events[at], fields, true, wall);
    }
  }

  lemma SweptAt(settings: Settings, s: State, now: Time, id: EventId)
    ensures var t' := SweepState(settings, s, now).events;
      (id in t' <==> id in s.events) && (id in t' ==> t'[id] == SweptRow(settings, s.sources, s.events[id], now))
    ensures SweepState(settings, s, now).sources == s.sources
  {
  }

  // ---- archived rows ----------------------------------------------------

  lemma FetchFreezesArchived(env: Env, s: State, f: Fetch, id: EventId)
    requires Proper(f) && Archived(s.events, id)
    ensures var t' := FetchState(env, s, f).events; id in t' && t'[id] == s.events[id]
  {
    FetchRows(env, s, f);
    assert RowFollows(env, s.events, f, FetchState(env, s, f).events, id);
    if Sees(env, f, id) { IncomingKeeps(env, f, s.events, SeenEvent(env, f, id)); }
  }

  lemma StepFreezesArchived(s: State, step: Step, id: EventId)
    requires Automatic(step) && (step.Fetched? ==> Proper(step.f))
    requires Archived(s.events, id) && !Redeclares(step, id)
    ensures var t' := Next(s, step).events; id in t' && t'[id] == s.events[id]
  {
    hide FetchState, SweepState, Placeholders.MaterializeTable, Placeholders.GoesIn;
    match step
    case Fetched(env, f) => FetchFreezesArchived(env, s, f, id);
    case Swept(settings, now) => SweptAt(settings, s, now, id);
    case Materialized(reader, cfg, after) =>
      var _ := Placeholders.MaterializedRow(s.events, reader, cfg.name, cfg.recurrences, after, id);
    case _ =>
  }

  ghost predicate NeverRedeclared(steps: seq<Step>, id: EventId) {
    forall k | 0 <= k < |steps| :: !Redeclares(steps[k], id)
  }

  lemma NeverRedeclaredFront(steps: seq<Step>, id: EventId)
    requires steps != []
    ensures NeverRedeclared(steps, id)
       <==> NeverRedeclared(Front(steps), id) && !Redeclares(Last(steps), id)
  {
    assert forall k | 0 <= k < |Front(steps)| :: Front(steps)[k] == steps[k];
    assert Last(steps) == steps[|steps| - 1];
  }

  /** An archived row never changes in any field while nothing declares the series at its id. */
  lemma {:induction false} ArchivedRowsAreFrozen(s: State, steps: seq<Step>, id: EventId)
    requires ProperSteps(steps) && Unattended(steps) && Archived(s.events, id)
    requires NeverRedeclared(steps, id)
    ensures var t := Run(s, steps).events; id in t && t[id] == s.events[id]
  {
    hide Next, Redeclares;
    if steps != [] {
      ProperFront(steps);
      UnattendedFront(steps);
      NeverRedeclaredFront(steps, id);
      ArchivedRowsAreFrozen(s, Front(steps), id);
      StepFreezesArchived(Run(s, Front(steps)), Last(steps), id);
    }
  }

  /** If the step declares the series at the row's id, the row is that series' own master. */
  ghost predicate OwnMaster(row: Event, step: Step, id: EventId) {
    var d := Declared(step, id);
    d.Some? ==>
      row.source == step.cfg.name && row.uid == Some(Placeholders.SeriesUid(step.reader, step.cfg.name, d.value))
  }

  ghost predicate OwnMasters(row: Event, steps: seq<Step>, id: EventId) {
    forall k | 0 <= k < |steps| :: OwnMaster(row, steps[k], id)
  }

  lemma RedeclaringRevives(s: State, step: Step, id: EventId)
    requires Redeclares(step, id) && id in s.events && OwnMaster(s.events[id], step, id)
    ensures var t' := Next(s, step).events; id in t' && t'[id].archivedAt.None?
  {
    hide Placeholders.MaterializeTable, Placeholders.GoesIn;
    var reader, cfg, after := step.reader, step.cfg, step.after;
    Placeholders.DeclaredNeverGoes(s.events, reader, cfg.name, cfg.recurrences, after, id);
    var _ := Placeholders.MaterializedRow(s.events, reader, cfg.name, cfg.recurrences, after, id);
  }

  /** The clock has moved since the row was archived. */
  ghost predicate ArchivedEarlier(row: Event, steps: seq<Step>) {
    forall k | 0 <= k < |steps| && steps[k].Materialized? :: row.archivedAt != Some(steps[k].after.now)
  }

  lemma RedeclaringChanges(s: State, step: Step, id: EventId)
    requires Redeclares(step, id) && Archived(s.events, id)
    requires OwnMaster(s.events[id], step, id) || s.events[id].archivedAt != Some(step.after.now)
    ensures var t' := Next(s, step).events; id in t' && t'[id] != s.events[id]
  {
    hide Placeholders.MaterializeTable, Placeholders.GoesIn, OwnMaster;
    if OwnMaster(s.events[id], step, id) {
      RedeclaringRevives(s, step, id);
    } else {
      var cfg := step.cfg;
      var _ := Placeholders.MaterializedRow(s.events, step.reader, cfg.name, cfg.recurrences, step.after, id);
    }
  }

  /** The row is the same after every step of the run. */
  ghost predicate UnchangedThroughout(s: State, steps: seq<Step>, id: EventId)
    requires id in s.events
  {
    steps != [] ==>
      && UnchangedThroughout(s, Front(steps), id)
      && id in Run(s, steps).events && Run(s, steps).events[id] == s.events[id]
  }

  lemma UnchangedSoFar(s: State, steps: seq<Step>, id: EventId)
    requires id in s.events && UnchangedThroughout(s, steps, id)
    ensures id in Run(s, steps).events && Run(s, steps).events[id] == s.events[id]
  {
    hide Next;
  }

  /** An archived row changes in an unattended run exactly when a step declares, parseably, the series
      at its id. */
  lemma {:induction false} ArchivedRowChangesExactly(s: State, steps: seq<Step>, id: EventId)
    requires ProperSteps(steps) && Unattended(steps) && Archived(s.events, id)
    requires OwnMasters(s.events[id], steps, id) || ArchivedEarlier(s.events[id], steps)
    ensures UnchangedThroughout(s, steps, id) <==> NeverRedeclared(steps, id)
  {
    hide Next, Redeclares, OwnMaster;
    if steps != [] {
      ProperFront(steps);
      UnattendedFront(steps);
      NeverRedeclaredFront(steps, id);
      assert OwnMasters(s.events[id], steps, id) ==>
        OwnMasters(s.events[id], Front(steps), id) && OwnMaster(s.events[id], Last(steps), id);
      assert ArchivedEarlier(s.events[id], steps) ==>
        ArchivedEarlier(s.events[id], Front(steps))
        && (Last(steps).Materialized? ==> s.events[id].archivedAt != Some(Last(steps).after.now));
      ArchivedRowChangesExactly(s, Front(steps), id);
      if UnchangedThroughout(s, Front(steps), id) {
        UnchangedSoFar(s, Front(steps), id);
        var before := Run(s, Front(steps));
        if Redeclares(Last(steps), id) {
          RedeclaredIsMaterialized(Last(steps), id);
          RedeclaringChanges(before, Last(steps), id);
        } else {
          StepFreezesArchived(before, Last(steps), id);
        }
      }
    }
  }

  lemma RedeclaredIsMaterialized(step: Step, id: EventId)
    requires Redeclares(step, id)
    ensures step.Materialized?
  {
  }

  // ---- pinned rows -------------------------------------------------------

  /** The row up to its stamps and its archive mark. */
  function Unmarked(row: Event): Event {
    row.(lastSeenAt := None, archivedAt := None, archivedReason := None, updatedAt := 0)
  }

  /** The pinned row already holds the declaration. */
  predicate HoldsDecl(row: Event, reader: Placeholders.Reader, name: string, d: Placeholders.Decl) {
    && reader.parse(d).Some?
    && var p := reader.parse(d).value;
    && row.title == d.title && row.description == d.description && row.location == d.location
    && row.timezone == d.timezone && row.startAt == p.startAt && row.rrule == Some(p.rrule)
    && row.contentHash == ContentHash(Placeholders.Scraped(reader, name, d, p)) && row.placeholder
  }

  /** The step declares, parseably, the series at this id with other content than the row holds. */
  predicate Rewrites(row: Event, step: Step, id: EventId) {
    var d := Declared(step, id);
    d.Some? && !HoldsDecl(row, step.reader, step.cfg.name, d.value)
  }

  lemma PinnedRowFollows(env: Env, t: Table, f: Fetch, t': Table, id: EventId)
    requires RowFollows(env, t, f, t', id) && id in t && t[id].pinned
    ensures id in t' && Unmarked(t'[id]) == Unmarked(t[id])
  {
    hide Incoming, StableId, ContentHash;
    if Sees(env, f, id) { IncomingKeeps(env, f, t, SeenEvent(env, f, id)); }
  }

  lemma FetchFreezesPinned(env: Env, s: State, f: Fetch, id: EventId)
    requires Proper(f) && id in s.events && s.events[id].pinned
    ensures var t' := FetchState(env, s, f).events; id in t' && Unmarked(t'[id]) == Unmarked(s.events[id])
  {
    FetchRows(env, s, f);
    PinnedRowFollows(env, s.events, f, FetchState(env, s, f).events, id);
  }

  lemma UpsertedPinnedRow(
    t: Table, reader: Placeholders.Reader, name: string, d: Placeholders.Decl, c: Placeholders.Now, id: EventId,
    row: Event)
    requires id in t && t[id].pinned && Placeholders.IsUpserted(t, reader, name, d, c, id, row)
    ensures Unmarked(row) == Unmarked(t[id]) <==> HoldsDecl(t[id], reader, name, d)
  {
    if Unmarked(row) == Unmarked(t[id]) {
      UnmarkedAgree(row, t[id]);
    }
  }

  lemma UnmarkedAgree(a: Event, b: Event)
    requires Unmarked(a) == Unmarked(b)
    ensures a.title == b.title && a.description == b.description && a.location == b.location
    ensures a.timezone == b.timezone && a.startAt == b.startAt && a.rrule == b.rrule
    ensures a.contentHash == b.contentHash && a.pinned == b.pinned && a.placeholder == b.placeholder
    ensures a.source == b.source && a.endAt == b.endAt
  {
    assert a.title == Unmarked(a).title && a.description == Unmarked(a).description;
    assert a.location == Unmarked(a).location && a.timezone == Unmarked(a).timezone;
    assert a.startAt == Unmarked(a).startAt && a.rrule == Unmarked(a).rrule && a.pinned == Unmarked(a).pinned;
    assert a.contentHash == Unmarked(a).contentHash && a.placeholder == Unmarked(a).placeholder;
    assert a.source == Unmarked(a).source && a.endAt == Unmarked(a).endAt;
  }

  /** One step leaves a pinned row's content alone exactly when it does not rewrite it. */
  lemma StepOnPinned(s: State, step: Step, id: EventId)
    requires Automatic(step) && (step.Fetched? ==> Proper(step.f))
    requires id in s.events && s.events[id].pinned
    ensures var t' := Next(s, step).events;
      id in t' && (Unmarked(t'[id]) == Unmarked(s.events[id]) <==> !Rewrites(s.events[id], step, id))
  {
    hide FetchState, SweepState, Placeholders.MaterializeTable, Placeholders.GoesIn, HoldsDecl, Placeholders.IsUpserted;
    match step
    case Fetched(env, f) => FetchFreezesPinned(env, s, f, id);
    case Swept(settings, now) => SweptAt(settings, s, now, id);
    case Materialized(reader, cfg, after) =>
      var row := Placeholders.MaterializedRow(s.events, reader, cfg.name, cfg.recurrences, after, id);
      assert Unmarked(Placeholders.Retired(row, after)) == Unmarked(row);
      var d := Declared(step, id);
      if d.Some? { UpsertedPinnedRow(s.events, reader, cfg.name, d.value, after, id, row); }
    case _ =>
  }

  ghost predicate NeverRewritten(row: Event, steps: seq<Step>, id: EventId) {
    forall k | 0 <= k < |steps| :: !Rewrites(row, steps[k], id)
  }

  lemma NeverRewrittenFront(row: Event, steps: seq<Step>, id: EventId)
    requires steps != []
    ensures NeverRewritten(row, steps, id)
       <==> NeverRewritten(row, Front(steps), id) && !Rewrites(row, Last(steps), id)
  {
    assert forall k | 0 <= k < |Front(steps)| :: Front(steps)[k] == steps[k];
    assert Last(steps) == steps[|steps| - 1];
  }

  lemma RewritesIgnoresMarks(a: Event, b: Event, step: Step, id: EventId)
    requires Unmarked(a) == Unmarked(b)
    ensures Rewrites(a, step, id) == Rewrites(b, step, id) && a.pinned == b.pinned
  {
    UnmarkedAgree(a, b);
  }

  /** The row keeps its content, its hash and its pin after every step of the run. */
  ghost predicate KeptThroughout(s: State, steps: seq<Step>, id: EventId)
    requires id in s.events
  {
    steps != [] ==>
      && KeptThroughout(s, Front(steps), id)
      && id in Run(s, steps).events && Unmarked(Run(s, steps).events[id]) == Unmarked(s.events[id])
  }

  lemma KeptSoFar(s: State, steps: seq<Step>, id: EventId)
    requires id in s.events && KeptThroughout(s, steps, id)
    ensures id in Run(s, steps).events && Unmarked(Run(s, steps).events[id]) == Unmarked(s.events[id])
  {
    hide Next;
  }

  /** A pinned row changes in content in an unattended run exactly when a step declares,
      parseably, the series at its id with other content than the row holds. */
  lemma {:induction false} PinnedRowChangesExactly(s: State, steps: seq<Step>, id: EventId)
    requires ProperSteps(steps) && Unattended(steps) && id in s.events && s.events[id].pinned
    ensures KeptThroughout(s, steps, id) <==> NeverRewritten(s.events[id], steps, id)
  {
    hide Next, Rewrites, Unmarked;
    if steps != [] {
      ProperFront(steps);
      UnattendedFront(steps);
      NeverRewrittenFront(s.events[id], steps, id);
      PinnedRowChangesExactly(s, Front(steps), id);
      if KeptThroughout(s, Front(steps), id) {
        KeptSoFar(s, Front(steps), id);
        var before := Run(s, Front(steps));
        RewritesIgnoresMarks(before.events[id], s.events[id], Last(steps), id);
        StepOnPinned(before, Last(steps), id);
      }
    }
  }

  /** So a pinned row keeps every content field, its hash and its pin: only its stamps and its archive
      mark ever move. */
  lemma PinnedRowsAreFrozen(s: State, steps: seq<Step>, id: EventId)
    requires ProperSteps(steps) && Unattended(steps) && id in s.events && s.events[id].pinned
    requires NeverRewritten(s.events[id], steps, id)
    ensures var t := Run(s, steps).events; id in t && Unmarked(t[id]) == Unmarked(s.events[id])
  {
    hide Next, Rewrites, Unmarked;
    PinnedRowChangesExactly(s, steps, id);
    KeptSoFar(s, steps, id);
  }

  /** Freezing rests on what the sieve emits: handed a verdict that names an archived row as
      updated, `apply` overwrites it. */
  lemma ApplyAloneThaws(s: State, name: string, c: Classified, clock: Clock)
    requires name in s.sources && Archived(s.events, c.id)
    requires ContentHash(c.event) != s.events[c.id].contentHash && c.contentHash == ContentHash(c.event)
    ensures var r := SieveResult([], [c], 0, [], [], [], 0);
      ApplyState(s, name, r, clock).events[c.id] != s.events[c.id]
  {
    var r := SieveResult([], [c], 0, [], [], [], 0);
    assert Front(r.updated) == [] && Last(r.updated) == c;
    assert UpdateAll(s.events, name, [c], clock) == s.events[c.id := UpdatedRow(s.events[c.id], c, clock)];
    assert ApplyEvents(s.events, name, r, clock) == s.events[c.id := UpdatedRow(s.events[c.id], c, clock)];
  }
}
