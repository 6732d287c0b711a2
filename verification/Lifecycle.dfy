/** What every run of the event store keeps: the pipeline, the archive pass, admin edits and
    conflict resolution, interleaved in any order. */
module Lifecycle {
  import opened Wrappers
  import opened Text
  import opened Schema
  import opened Identity
  import opened Expiry
  import opened Sieve
  import opened Decisionmaker
  import opened Ingest
  import opened Archive
  import Events
  import Conflicts
  import Placeholders

  // ---- runs ------------------------------------------------------------

  /** One change to the store, with what it reads: the deployment's settings and how images are hosted
      may differ from step to step.  A source's turn in a run is a fetch of events or posts followed
      by its declarations; approving a series materialises them too.  `FetchFailed` is a turn that
      was rolled back. */
  datatype Step =
    | Fetched(env: Env, f: Fetch)
    | FetchFailed(f: Fetch)
    | PostFetched(cfg: SourceConfig, ts: Time)
    | Materialized(reader: Placeholders.Reader, cfg: SourceConfig, after: Placeholders.Now)
    | Swept(settings: Settings, now: Time)
    | Edited(id: EventId, edits: seq<Events.Edit>, pinned: bool, wall: Time)
    | PinSet(id: EventId, pinned: bool)
    | Restored(id: EventId, rehost: seq<ImageRef> -> seq<ImageRef>)
    | Resolved(k: nat, action: Conflicts.Action, wall: Time)

  /** The source's own row exists. */
  function Known(s: State, cfg: SourceConfig): State {
    s.(sources := EnsureSource(s.sources, cfg))
  }

  function Next(s: State, step: Step): State {
    match step
    case Fetched(env, f) => FetchState(env, s, f)
    case FetchFailed(_) => s
    case PostFetched(cfg, ts) => PostedState(s, cfg, ts)
    case Materialized(reader, cfg, after) => DeclaredState(Known(s, cfg), reader, cfg, after)
    case Swept(settings, now) => SweepState(settings, s, now)
    case Edited(id, edits, pinned, wall) => Events.UpdateEventState(s, id, edits, pinned, wall)
    case PinSet(id, pinned) => Events.SetPinnedState(s, id, pinned)
    case Restored(id, rehost) => RestoreState(s, id, rehost)
    case Resolved(k, action, wall) => Conflicts.ResolveState(s, k, action, wall)
  }

  function Run(s: State, steps: seq<Step>): State {
    if steps == [] then s else Next(Run(s, Front(steps)), Last(steps))
  }

  /** Fetches list no id twice. */
  ghost predicate ProperSteps(steps: seq<Step>) {
    forall k :: 0 <= k < |steps| && steps[k].Fetched? ==> Proper(steps[k].f)
  }

  lemma ProperFront(steps: seq<Step>)
    requires steps != [] && ProperSteps(steps)
    ensures ProperSteps(Front(steps)) && (Last(steps).Fetched? ==> Proper(Last(steps).f))
  {
  }

  // ---- the run loop is a run --------------------------------------------

  /** The changes a source's declarations make at the end of its turn. */
  function StepsPlaced(env: Env, cfg: SourceConfig, after: Placeholders.Now): seq<Step> {
    if cfg.recurrences == [] then [] else [Materialized(env.reader, cfg, after)]
  }

  /** The changes a source's turn commits. */
  function StepsOf(env: Env, turn: Turn): seq<Step> {
    match turn
    case Gathered(f, after) => [Fetched(env, f)] + StepsPlaced(env, f.cfg, after)
    case Posted(cfg, ts, after) => [PostFetched(cfg, ts)] + StepsPlaced(env, cfg, after)
    case _ => []
  }

  function StepsOfAll(env: Env, turns: seq<Turn>): seq<Step> {
    if turns == [] then [] else StepsOfAll(env, Front(turns)) + StepsOf(env, Last(turns))
  }

  lemma {:induction false} RunConcat(s: State, a: seq<Step>, b: seq<Step>)
    ensures Run(s, a + b) == Run(Run(s, a), b)
  {
    hide Next;
    if b == [] {
      assert a + b == a;
    } else {
      assert Front(a + b) == a + Front(b) && Last(a + b) == Last(b);
      RunConcat(s, a, Front(b));
    }
  }

  lemma RunOne(s: State, step: Step)
    ensures Run(s, [step]) == Next(s, step)
  {
    hide Next;
    assert Front([step]) == [] && Last([step]) == step;
  }

  lemma PlacedIsSteps(env: Env, s: State, cfg: SourceConfig, after: Placeholders.Now)
    requires cfg.name in s.sources
    ensures Placed(env, s, cfg, after) == Run(s, StepsPlaced(env, cfg, after))
  {
    hide DeclaredState;
    if cfg.recurrences != [] { RunOne(s, Materialized(env.reader, cfg, after)); }
  }

  lemma TurnIsSteps(env: Env, s: State, turn: Turn)
    ensures TurnState(env, s, turn) == Run(s, StepsOf(env, turn))
  {
    hide Placed, StepsPlaced, DeclaredState;
    match turn
    case Gathered(f, after) =>
      assert f.cfg.name in FetchState(env, s, f).sources;
      RunOne(s, Fetched(env, f));
      RunConcat(s, [Fetched(env, f)], StepsPlaced(env, f.cfg, after));
      PlacedIsSteps(env, FetchState(env, s, f), f.cfg, after);
    case Posted(cfg, ts, after) =>
      RunOne(s, PostFetched(cfg, ts));
      RunConcat(s, [PostFetched(cfg, ts)], StepsPlaced(env, cfg, after));
      PlacedIsSteps(env, PostedState(s, cfg, ts), cfg, after);
    case _ =>
  }

  /** A run of turns is the run of the changes they commit. */
  lemma {:induction false} TurnsAreSteps(env: Env, s: State, turns: seq<Turn>)
    ensures TurnsState(env, s, turns) == Run(s, StepsOfAll(env, turns))
  {
    hide TurnState, Next;
    if turns != [] {
      TurnsAreSteps(env, s, Front(turns));
      TurnIsSteps(env, TurnsState(env, s, Front(turns)), Last(turns));
      RunConcat(s, StepsOfAll(env, Front(turns)), StepsOf(env, Last(turns)));
    }
  }

  /** So everything proved of runs holds of the run loop and the archive pass that ends it, and of
      such runs one after another, whatever changes in between. */
  lemma RunLockedIsARun(env: Env, s: State, turns: seq<Turn>, now: Time)
    ensures SweepState(env.settings, TurnsState(env, s, turns), now)
         == Run(s, StepsOfAll(env, turns) + [Swept(env.settings, now)])
  {
    hide SweepState, TurnState;
    TurnsAreSteps(env, s, turns);
    RunConcat(s, StepsOfAll(env, turns), [Swept(env.settings, now)]);
    RunOne(Run(s, StepsOfAll(env, turns)), Swept(env.settings, now));
  }

  // ---- hash coherence --------------------------------------------------

  /** The row holds the event's content. */
  ghost predicate Holds(row: Event, e: ScrapedEvent) {
    && row.title == e.title && row.description == e.description && row.location == e.location && row.url == e.url
    && row.images == e.images && row.startAt == e.startAt && row.endAt == e.endAt && row.timezone == e.timezone
    && row.allDay == e.allDay && row.rrule == e.rrule && row.recurrenceId == e.recurrenceId
    && row.exdates == e.exdates && row.categories == DumpCategories(e.categories)
  }

  lemma HoldsIsCoherent(row: Event, e: ScrapedEvent)
    requires Holds(row, e) && Clean(e.categories) && row.contentHash == ContentHash(e)
    ensures Coherent(row)
  {
    CategoriesRoundTrip(e.categories);
    assert ReadBack(row) == e.(uid := None);
  }

  /** Only content and hash matter to coherence. */
  lemma CoherenceIgnoresBookkeeping(row: Event, row': Event)
    requires Coherent(row) && ReadBack(row') == ReadBack(row) && row'.contentHash == row.contentHash
    ensures Coherent(row')
  {
  }

  ghost predicate AllCoherent(t: Table) {
    forall id :: id in t ==> Coherent(t[id])
  }

  ghost predicate CleanConflicts(conflicts: seq<Conflict>) {
    forall c :: c in conflicts ==> Clean(c.incoming.categories)
  }

  /** Re-hosting finds the gallery of this row at its own addresses. */
  ghost predicate KeepsAddresses(rehost: seq<ImageRef> -> seq<ImageRef>, t: Table, id: EventId) {
    id in t && t[id].archivedAt.Some? ==> ImageUrls(rehost(t[id].images)) == ImageUrls(t[id].images)
  }

  /** The columns a declaration does not set are as a new master has them. */
  predicate Plain(row: Event) {
    && row.url.None? && row.images == [] && row.endAt.None? && !row.allDay && row.exdates == []
    && LoadCategories(row.categories) == []
  }

  /** Every stored row a declaration of this source refreshes is plain. */
  ghost predicate DeclaresPlain(reader: Placeholders.Reader, t: Table, cfg: SourceConfig) {
    forall id | id in t && Placeholders.LastDecl(reader, cfg.name, cfg.recurrences, id).Some? :: Plain(t[id])
  }

  /** The step leaves hashes alone: a restore finds its images unmoved (module Images says when that
      is so), and declarations only refresh plain masters. */
  ghost predicate Harmless(t: Table, step: Step) {
    match step
    case Restored(id, rehost) => KeepsAddresses(rehost, t, id)
    case Materialized(reader, cfg, _) => DeclaresPlain(reader, t, cfg)
    case _ => true
  }

  ghost predicate HarmlessThroughout(s: State, steps: seq<Step>) {
    steps != [] ==>
      HarmlessThroughout(s, Front(steps)) && Harmless(Run(s, Front(steps)).events, Last(steps))
  }

  ghost predicate CoherentThroughout(s: State, steps: seq<Step>) {
    AllCoherent(Run(s, steps).events) && (steps != [] ==> CoherentThroughout(s, Front(steps)))
  }

  /** A master's hash is right exactly when the columns no declaration sets are plain. */
  lemma MasterCoherentExactly(row: Event, reader: Placeholders.Reader, name: string, d: Placeholders.Decl)
    requires Placeholders.MasterOf(row, reader, name, d)
    ensures Coherent(row) <==> Plain(row)
  {
    var back, p := ReadBack(row), reader.parse(d).value;
    var want := Placeholders.Scraped(reader, name, d, p);
    if Coherent(row) {
      assert ContentHash(back).payload == ContentHash(want).payload;
      assert |ImageUrls(back.images)| == |ImageUrls(want.images)| == 0;
      assert |multiset(back.exdates)| == |multiset(want.exdates)| == 0;
      assert |multiset(back.categories)| == |multiset(want.categories)| == 0;
    }
  }

  lemma RetiredSameContent(row: Event, c: Placeholders.Now)
    ensures Coherent(Placeholders.Retired(row, c)) <==> Coherent(row)
  {
    assert ReadBack(Placeholders.Retired(row, c)) == ReadBack(row);
  }

  lemma MaterializedRowCoherentExactly(
    reader: Placeholders.Reader, t: Table, cfg: SourceConfig, after: Placeholders.Now, id: EventId)
    requires id in t ==> Coherent(t[id])
    ensures var t' := Placeholders.MaterializeTable(t, reader, cfg.name, cfg.recurrences, after);
      id in t' ==>
      (Coherent(t'[id])
       <==> (id in t && Placeholders.LastDecl(reader, cfg.name, cfg.recurrences, id).Some? ==> Plain(t[id])))
  {
    hide Coherent, Placeholders.MaterializeTable, Placeholders.GoesIn;
    var last := Placeholders.LastDecl(reader, cfg.name, cfg.recurrences, id);
    Placeholders.MaterializedKeys(t, reader, cfg.name, cfg.recurrences, after, id);
    if id in t || last.Some? {
      var row := Placeholders.MaterializedRow(t, reader, cfg.name, cfg.recurrences, after, id);
      RetiredSameContent(row, after);
      if last.Some? {
        MasterCoherentExactly(row, reader, cfg.name, last.value);
        PlainAsBefore(t, row, reader, cfg.name, last.value, id);
      }
    }
  }

  lemma PlainAsBefore(
    t: Table, row: Event, reader: Placeholders.Reader, name: string, d: Placeholders.Decl, id: EventId)
    requires Placeholders.BaseOf(t, row, reader, name, d, id)
    ensures Plain(row) <==> (id in t ==> Plain(t[id]))
  {
    assert Split(',', "") == [""] && NonEmpty([""]) == NonEmpty([""][1..]) == [];
  }

  /** Materialising the declarations of a source keeps the table coherent exactly when every row they
      refresh is plain. */
  lemma MaterializeCoherentExactly(
    reader: Placeholders.Reader, t: Table, cfg: SourceConfig, after: Placeholders.Now)
    requires AllCoherent(t)
    ensures AllCoherent(Placeholders.MaterializeTable(t, reader, cfg.name, cfg.recurrences, after))
       <==> DeclaresPlain(reader, t, cfg)
  {
    hide Coherent, Placeholders.MaterializeTable, Placeholders.GoesIn, Placeholders.LastDecl;
    var t' := Placeholders.MaterializeTable(t, reader, cfg.name, cfg.recurrences, after);
    forall id ensures id in t' ==>
      (Coherent(t'[id])
       <==> (id in t && Placeholders.LastDecl(reader, cfg.name, cfg.recurrences, id).Some? ==> Plain(t[id])))
    {
      MaterializedRowCoherentExactly(reader, t, cfg, after, id);
    }
    forall id | id in t ensures id in t' {
      Placeholders.MaterializedKeys(t, reader, cfg.name, cfg.recurrences, after, id);
    }
  }

  lemma RowAfterCoherent(t: Table, name: string, e: ScrapedEvent, clock: Clock)
    requires Clean(e.categories)
    requires StableId(name, e) in t ==> Coherent(t[StableId(name, e)])
    ensures Coherent(RowAfter(t, name, e, clock))
  {
    var id, row := StableId(name, e), RowAfter(t, name, e, clock);
    match VerdictOf(t, name, e)
    case New => HoldsIsCoherent(row, e);
    case Changed => HoldsIsCoherent(row, e);
    case Frozen =>
    case _ => CoherenceIgnoresBookkeeping(t[id], row);
  }

  lemma FetchCoherent(env: Env, s: State, f: Fetch)
    requires Proper(f) && AllCoherent(s.events)
    ensures AllCoherent(FetchState(env, s, f).events)
  {
    var t' := FetchState(env, s, f).events;
    forall id | id in t' ensures Coherent(t'[id]) {
      if Sees(env, f, id) {
        var e :| e in f.raw && EventRelevant(env.settings, e, f.now) && StableId(f.cfg.name, e) == id;
        FetchSeen(env, s, f, e);
        IncomingKeeps(env, f, s.events, e);
        RowAfterCoherent(s.events, f.cfg.name, Incoming(env, f, s.events, e), f.clock);
      } else {
        FetchUnseen(env, s, f, id);
      }
    }
  }

  lemma {:induction false} UpsertAllClean(conflicts: seq<Conflict>, t: Table, cs: seq<Classified>, wall: Time)
    requires CleanConflicts(conflicts) && forall c :: c in cs ==> Clean(c.event.categories)
    ensures CleanConflicts(UpsertAll(conflicts, t, cs, wall))
  {
    if cs != [] {
      assert cs == Front(cs) + [Last(cs)];
      UpsertAllClean(conflicts, t, Front(cs), wall);
    }
  }

  lemma FetchKeepsConflictsClean(env: Env, s: State, f: Fetch)
    requires CleanConflicts(s.conflicts)
    ensures CleanConflicts(FetchState(env, s, f).conflicts)
  {
    FetchBuckets(env, s.events, f);
    var cs := Bucket(env, s.events, f, {Disputed});
    forall c | c in cs ensures Clean(c.event.categories) {
      BucketOrigin(env, s.events, f, {Disputed}, c);
      var e :| ComesFrom(env, s.events, f, c, e);
      IncomingKeeps(env, f, s.events, e);
    }
    UpsertAllClean(s.conflicts, FetchState(env, s, f).events, cs, f.clock.wall);
  }

  lemma SweepCoherent(settings: Settings, s: State, now: Time)
    requires AllCoherent(s.events)
    ensures AllCoherent(SweepState(settings, s, now).events)
  {
    forall id | id in s.events ensures Coherent(SweptRow(settings, s.sources, s.events[id], now)) {
      CoherenceIgnoresBookkeeping(s.events[id], SweptRow(settings, s.sources, s.events[id], now));
    }
  }

  lemma WriteCoherent(t: Table, id: EventId, row: Event)
    requires AllCoherent(t) && Coherent(row)
    ensures AllCoherent(t[id := row])
  {
  }

  lemma ResolveCoherent(s: State, k: nat, action: Conflicts.Action, wall: Time)
    requires AllCoherent(s.events) && CleanConflicts(s.conflicts)
    ensures AllCoherent(Conflicts.ResolveState(s, k, action, wall).events)
    ensures CleanConflicts(Conflicts.ResolveState(s, k, action, wall).conflicts)
  {
    if Conflicts.Resolvable(s, k, action) {
      var c := s.conflicts[k];
      assert c in s.conflicts;
      if c.eventId in s.events {
        ResolvedEventsCoherent(s.events, c, wall);
      }
    }
  }

  lemma ResolvedEventsCoherent(t: Table, c: Conflict, wall: Time)
    requires AllCoherent(t) && Clean(c.incoming.categories) && c.eventId in t
    ensures AllCoherent(t[c.eventId := Conflicts.AdoptedRow(t[c.eventId], c.incoming, wall)])
    ensures forall edits :: AllCoherent(t[c.eventId := Events.EditedRow(t[c.eventId], edits, true, wall)])
  {
    var row := t[c.eventId];
    HoldsIsCoherent(Conflicts.AdoptedRow(row, c.incoming, wall), c.incoming);
    WriteCoherent(t, c.eventId, Conflicts.AdoptedRow(row, c.incoming, wall));
    forall edits ensures AllCoherent(t[c.eventId := Events.EditedRow(row, edits, true, wall)]) {
      Events.EditCannotForge(row, edits, true, wall);
      WriteCoherent(t, c.eventId, Events.EditedRow(row, edits, true, wall));
    }
  }

  lemma EditCoherent(s: State, id: EventId, edits: seq<Events.Edit>, pinned: bool, wall: Time)
    requires AllCoherent(s.events)
    ensures AllCoherent(Events.UpdateEventState(s, id, edits, pinned, wall).events)
  {
    if id in s.events {
      Events.EditCannotForge(s.events[id], edits, pinned, wall);
      WriteCoherent(s.events, id, Events.EditedRow(s.events[id], edits, pinned, wall));
    }
  }

  lemma PinCoherent(s: State, id: EventId, pinned: bool)
    requires AllCoherent(s.events)
    ensures AllCoherent(Events.SetPinnedState(s, id, pinned).events)
  {
    if id in s.events {
      CoherenceIgnoresBookkeeping(s.events[id], s.events[id].(pinned := pinned));
      WriteCoherent(s.events, id, s.events[id].(pinned := pinned));
    }
  }

  /** A restore keeps the table coherent exactly when it finds the row's images unmoved. */
  lemma RestoreCoherent(s: State, id: EventId, rehost: seq<ImageRef> -> seq<ImageRef>)
    requires AllCoherent(s.events)
    ensures AllCoherent(RestoreState(s, id, rehost).events) <==> KeepsAddresses(rehost, s.events, id)
  {
    if id in s.events && s.events[id].archivedAt.Some? {
      RestoreKeepsHash(s, id, rehost);
      var row := RestoreState(s, id, rehost).events[id];
      if Coherent(row) { WriteCoherent(s.events, id, row); }
    }
  }

  /** One step keeps every row coherent exactly when it is harmless; only restores and declarations
      can harm. */
  lemma StepCoherent(s: State, step: Step)
    requires step.Fetched? ==> Proper(step.f)
    requires AllCoherent(s.events) && CleanConflicts(s.conflicts)
    ensures AllCoherent(Next(s, step).events) <==> Harmless(s.events, step)
    ensures CleanConflicts(Next(s, step).conflicts)
  {
    hide AllCoherent, DeclaresPlain, KeepsAddresses, FetchState, SweepState, PostedState,
      Placeholders.MaterializeTable, Conflicts.ResolveState;
    match step
    case Fetched(env, f) => FetchCoherent(env, s, f); FetchKeepsConflictsClean(env, s, f);
    case FetchFailed(_) =>
    case PostFetched(cfg, ts) => PostedKeepsRows(s, cfg, ts);
    case Materialized(reader, cfg, after) => MaterializeCoherentExactly(reader, s.events, cfg, after);
    case Swept(settings, now) => SweepCoherent(settings, s, now); SweepKeepsConflicts(settings, s, now);
    case Resolved(k, action, wall) => ResolveCoherent(s, k, action, wall);
    case Edited(id, edits, pinned, wall) => EditCoherent(s, id, edits, pinned, wall);
    case PinSet(id, pinned) => PinCoherent(s, id, pinned);
    case Restored(id, rehost) => RestoreCoherent(s, id, rehost);
  }

  lemma PostedKeepsRows(s: State, cfg: SourceConfig, ts: Time)
    ensures PostedState(s, cfg, ts).events == s.events && PostedState(s, cfg, ts).conflicts == s.conflicts
  {
  }

  lemma SweepKeepsConflicts(settings: Settings, s: State, now: Time)
    ensures SweepState(settings, s, now).conflicts == s.conflicts
  {
  }

  lemma {:induction false} CoherentExactly(s: State, steps: seq<Step>)
    requires ProperSteps(steps) && AllCoherent(s.events) && CleanConflicts(s.conflicts)
    ensures HarmlessThroughout(s, steps) <==> CoherentThroughout(s, steps)
    ensures CoherentThroughout(s, steps) ==> CleanConflicts(Run(s, steps).conflicts)
  {
    hide AllCoherent, CleanConflicts, Harmless, Next;
    if steps != [] {
      ProperFront(steps);
      CoherentExactly(s, Front(steps));
      if CoherentThroughout(s, Front(steps)) {
        CoherentAtEnd(s, Front(steps));
        StepCoherent(Run(s, Front(steps)), Last(steps));
      }
    }
  }

  lemma CoherentAtEnd(s: State, steps: seq<Step>)
    requires CoherentThroughout(s, steps)
    ensures AllCoherent(Run(s, steps).events)
  {
  }

  /** Hash coherence along a run: whatever is fetched, declared, edited, pinned, archived, restored or
      resolved, each row's hash is the hash of what the row holds at every point of the run exactly
      when no restore moves an image and no declaration refreshes a master with other content. */
  lemma RunsStayCoherent(s: State, steps: seq<Step>)
    requires ProperSteps(steps) && AllCoherent(s.events) && CleanConflicts(s.conflicts)
    ensures CoherentThroughout(s, steps) <==> HarmlessThroughout(s, steps)
    ensures HarmlessThroughout(s, steps) ==> AllCoherent(Run(s, steps).events)
  {
    hide AllCoherent, CleanConflicts, Harmless, Next;
    CoherentExactly(s, steps);
    if CoherentThroughout(s, steps) { CoherentAtEnd(s, steps); }
  }

  /** Hence along such runs no update and no conflict is ever reported without a changed field. */
  lemma ReportedChangesAreReal(s: State, steps: seq<Step>, env: Env, f: Fetch)
    requires ProperSteps(steps) && HarmlessThroughout(s, steps)
    requires AllCoherent(s.events) && CleanConflicts(s.conflicts)
    ensures var r := SieveFetch(env, Run(s, steps).events, f);
      forall c :: c in r.updated || c in r.conflicts ==> c.changedFields != []
  {
    RunsStayCoherent(s, steps);
    var t := Run(s, steps).events;
    FetchBuckets(env, t, f);
    forall c | c in Bucket(env, t, f, {Changed}) || c in Bucket(env, t, f, {Disputed}) ensures c.changedFields != [] {
      var v := if c in Bucket(env, t, f, {Changed}) then Changed else Disputed;
      ReportHasAField(env, t, f, v, c);
    }
  }

  lemma ReportHasAField(env: Env, t: Table, f: Fetch, v: Verdict, c: Classified)
    requires v == Changed || v == Disputed
    requires c in Bucket(env, t, f, {v}) && forall id :: id in t ==> Coherent(t[id])
    ensures c.changedFields != []
  {
    BucketOrigin(env, t, f, {v}, c);
    var e :| ComesFrom(env, t, f, c, e) && VerdictOf(t, f.cfg.name, Incoming(env, f, t, e)) in {v};
    IncomingKeeps(env, f, t, e);
    ChangeHasAField(Incoming(env, f, t, e), t[c.id]);
  }
}
