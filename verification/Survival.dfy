/** What becomes of a listed event by the end of the run that lists it: its own source's turn, the
    other sources' turns, and the archive pass. */
module Survival {
  import opened Wrappers
  import opened Text
  import opened Schema
  import opened Identity
  import opened Expiry
  import opened Ingest
  import opened Archive
  import opened Lifecycle
  import opened Reingest
  import opened Freezing
  import opened Removal
  import Placeholders

  // ---- the other sources' turns -----------------------------------------

  /** The source a turn belongs to, if the turn commits. */
  function CommittedFor(turn: Turn): Option<string> {
    match turn
    case Gathered(f, _) => Some(f.cfg.name)
    case Posted(cfg, _, _) => Some(cfg.name)
    case _ => None
  }

  /** Committed turns list no id twice and belong to sources named apart from this one. */
  ghost predicate OfOthers(turns: seq<Turn>, source: string) {
    forall k | 0 <= k < |turns| ::
      && (turns[k].Gathered? ==> Proper(turns[k].f))
      && (CommittedFor(turns[k]).Some? ==> Apart(CommittedFor(turns[k]).value, source))
  }

  predicate NoSweep(steps: seq<Step>) {
    forall k | 0 <= k < |steps| :: !steps[k].Swept?
  }

  /** The changes others' turns commit. */
  ghost predicate ByOthers(steps: seq<Step>, source: string) {
    && ProperSteps(steps) && Unattended(steps) && NoSweep(steps) && NoTurnOf(steps, source)
    && ApartSteps(steps, source)
  }

  lemma OthersConcat(a: seq<Step>, b: seq<Step>, source: string)
    requires ByOthers(a, source) && ByOthers(b, source)
    ensures ByOthers(a + b, source)
  {
    forall k | 0 <= k < |a + b|
      ensures (a + b)[k] == if k < |a| then a[k] else b[k - |a|]
    {
    }
  }

  lemma {:induction false} OthersTurns(env: Env, turns: seq<Turn>, source: string)
    requires OfOthers(turns, source)
    ensures ByOthers(StepsOfAll(env, turns), source)
  {
    if turns != [] {
      assert forall k | 0 <= k < |Front(turns)| :: Front(turns)[k] == turns[k];
      OthersTurns(env, Front(turns), source);
      assert Last(turns) == turns[|turns| - 1];
      OthersTurn(env, Last(turns), source);
      OthersConcat(StepsOfAll(env, Front(turns)), StepsOf(env, Last(turns)), source);
    }
  }

  lemma OthersTurn(env: Env, turn: Turn, source: string)
    requires turn.Gathered? ==> Proper(turn.f)
    requires CommittedFor(turn).Some? ==> Apart(CommittedFor(turn).value, source)
    ensures ByOthers(StepsOf(env, turn), source)
  {
  }

  lemma ByOthersFront(steps: seq<Step>, source: string)
    requires steps != [] && ByOthers(steps, source)
    ensures ByOthers(Front(steps), source) && Automatic(Last(steps)) && !Last(steps).Swept?
    ensures Last(steps).Fetched? ==> Proper(Last(steps).f)
  {
    assert forall k | 0 <= k < |Front(steps)| :: Front(steps)[k] == steps[k];
    assert Last(steps) == steps[|steps| - 1];
  }

  /** They leave a row of this source, and the source's stamp, exactly as they are. */
  lemma {:induction false} OthersLeaveRow(s: State, steps: seq<Step>, id: EventId)
    requires id in s.events && MadeBy(s.events[id].source, id) && ByOthers(steps, s.events[id].source)
    ensures var s' := Run(s, steps);
      && id in s'.events && s'.events[id] == s.events[id]
      && FetchedAt(s'.sources, s.events[id].source) == FetchedAt(s.sources, s.events[id].source)
  {
    hide Next, Fetches, ListedBy, Redeclares;
    if steps != [] {
      var s1, step, source := Run(s, Front(steps)), Last(steps), s.events[id].source;
      ByOthersFront(steps, source);
      OthersLeaveRow(s, Front(steps), id);
      NoTurnFront(steps, source);
      OthersCannotTouch(steps, source, id, |steps| - 1);
      StepStampsSource(s1, step, source);
      OthersDoNotFetch(step, source);
      OtherStepLeavesRow(s1, step, id);
    }
  }

  lemma OthersDoNotFetch(step: Step, source: string)
    requires SourceOf(step) != Some(source)
    ensures !Fetches(step, source)
  {
  }

  // ---- the source's own turn --------------------------------------------

  /** The row goes at the end of the source's turn: it is an undeclared live master of the source or a
      live override of one.  A turn of a source without declarations retires nothing. */
  ghost predicate GoesAt(env: Env, t: Table, cfg: SourceConfig, after: Placeholders.Now, id: EventId) {
    cfg.recurrences != [] && Placeholders.GoesIn(t, env.reader, cfg.name, cfg.recurrences, after, id)
  }

  /** What the end of a source's turn leaves at an id that is stored. */
  lemma PlacedRow(env: Env, s: State, cfg: SourceConfig, after: Placeholders.Now, id: EventId) returns (row: Event)
    requires id in s.events
    ensures
      match Declared(Materialized(env.reader, cfg, after), id)
      case None => row == s.events[id]
      case Some(d) => Placeholders.IsUpserted(s.events, env.reader, cfg.name, d, after, id, row)
    ensures var t' := Placed(env, s, cfg, after).events;
      id in t' && t'[id] == if GoesAt(env, s.events, cfg, after, id) then Placeholders.Retired(row, after) else row
    ensures GoesAt(env, s.events, cfg, after, id) ==> row.source == cfg.name && row.archivedAt.None?
    ensures Placed(env, s, cfg, after).sources == s.sources
  {
    hide Placeholders.MaterializeTable, Placeholders.GoesIn;
    if cfg.recurrences == [] {
      row := s.events[id];
    } else {
      row := Placeholders.MaterializedRow(s.events, env.reader, cfg.name, cfg.recurrences, after, id);
    }
  }

  lemma FetchLeavesFreshRow(env: Env, s: State, f: Fetch, e: ScrapedEvent)
    requires Proper(f) && e in f.raw && EventRelevant(env.settings, e, f.now)
    requires var id := StableId(f.cfg.name, e);
      id in s.events ==> s.events[id].archivedAt.None? && s.events[id].source == f.cfg.name
    ensures var id, s' := StableId(f.cfg.name, e), FetchState(env, s, f);
      && id in s'.events && s'.events[id].source == f.cfg.name && s'.events[id].archivedAt.None?
      && s'.events[id].lastSeenAt == Some(f.clock.ts) == FetchedAt(s'.sources, f.cfg.name)
  {
    hide FetchState;
    FetchSeen(env, s, f, e);
    FetchStampsSource(env, s, f);
    IncomingKeeps(env, f, s.events, e);
    RowAfterStamped(s.events, f.cfg.name, Incoming(env, f, s.events, e), f.clock);
  }

  lemma FreshRowNotExpired(env: Env, s: State, f: Fetch, e: ScrapedEvent)
    requires Proper(f) && e in f.raw && EventRelevant(env.settings, e, f.now)
    requires var id := StableId(f.cfg.name, e);
      id in s.events ==> s.events[id].archivedAt.None? && !s.events[id].pinned && Coherent(s.events[id])
    ensures var id, s' := StableId(f.cfg.name, e), FetchState(env, s, f);
      id in s'.events && !RowExpired(env.settings, s'.events[id], f.now)
  {
    hide FetchState;
    FetchSeen(env, s, f, e);
    IncomingKeeps(env, f, s.events, e);
    RowAfterDates(s.events, f.cfg.name, Incoming(env, f, s.events, e), f.clock);
  }

  /** The whole of the source's turn: the row is stamped with the turn's clock, live unless the
      declared placeholders take it. */
  lemma TurnLeavesRow(env: Env, s1: State, f: Fetch, after: Placeholders.Now, id: EventId)
    requires id in s1.events && s1.events[id].source == f.cfg.name && s1.events[id].archivedAt.None?
    requires s1.events[id].lastSeenAt == Some(f.clock.ts) == FetchedAt(s1.sources, f.cfg.name)
    requires after.now == f.clock.ts
    ensures var s2 := Placed(env, s1, f.cfg, after);
      && id in s2.events && s2.events[id].source == f.cfg.name
      && (s2.events[id].archivedAt.None? <==> !GoesAt(env, s1.events, f.cfg, after, id))
      && s2.events[id].lastSeenAt == Some(f.clock.ts) == FetchedAt(s2.sources, f.cfg.name)
      && (Declared(Materialized(env.reader, f.cfg, after), id).None? && s2.events[id].archivedAt.None? ==>
            s2.events[id] == s1.events[id])
  {
    hide Placed, GoesAt;
    var _ := PlacedRow(env, s1, f.cfg, after, id);
  }

  // ---- the end of the run ------------------------------------------------

  lemma EndOfRun(env: Env, s2: State, later: seq<Turn>, now: Time, id: EventId)
    requires id in s2.events && MadeBy(s2.events[id].source, id) && OfOthers(later, s2.events[id].source)
    requires s2.events[id].lastSeenAt.Some? && s2.events[id].lastSeenAt == FetchedAt(s2.sources, s2.events[id].source)
    ensures var final := SweepState(env.settings, TurnsState(env, s2, later), now);
      && id in final.events
      && (final.events[id].archivedAt.None?
          <==> s2.events[id].archivedAt.None? && !RowExpired(env.settings, s2.events[id], now))
      && (final.events[id].archivedAt.None? ==> final.events[id] == s2.events[id])
  {
    hide TurnState, Next;
    var s3 := TurnsState(env, s2, later);
    TurnsAreSteps(env, s2, later);
    OthersTurns(env, later, s2.events[id].source);
    OthersLeaveRow(s2, StepsOfAll(env, later), id);
    SweptAt(env.settings, s3, now, id);
    if s3.events[id].archivedAt.None? {
      StampedRowNotRemoved(env.settings, s3.sources, s3.events[id], now);
    }
  }

  /** On one clock, an event a source lists is live at the end of the run exactly when its row does not
      go with the source's declared placeholders and is not expired, whatever the other sources list
      and however many of them fail. */
  lemma ListedEventsSurviveTheRun(
    env: Env, s: State, f: Fetch, after: Placeholders.Now, later: seq<Turn>, now: Time, e: ScrapedEvent)
    requires Proper(f) && e in f.raw && EventRelevant(env.settings, e, now)
    requires f.now == now && f.clock.ts == now && after.now == now
    requires var id := StableId(f.cfg.name, e);
      id in s.events ==> s.events[id].archivedAt.None? && s.events[id].source == f.cfg.name
    requires OfOthers(later, f.cfg.name)
    ensures var id, s1 := StableId(f.cfg.name, e), FetchState(env, s, f);
      var row := Placed(env, s1, f.cfg, after).events;
      var final := SweepState(env.settings, TurnsState(env, TurnState(env, s, Gathered(f, after)), later), now);
      && id in row && id in final.events
      && (final.events[id].archivedAt.None?
          <==> !GoesAt(env, s1.events, f.cfg, after, id) && !RowExpired(env.settings, row[id], now))
      && (final.events[id].archivedAt.None? ==> final.events[id] == row[id])
  {
    hide FetchState, Placed, GoesAt, SweepState, TurnsState, StableId;
    var id, s1 := StableId(f.cfg.name, e), FetchState(env, s, f);
    assert MadeBy(f.cfg.name, id);
    FetchLeavesFreshRow(env, s, f, e);
    TurnLeavesRow(env, s1, f, after, id);
    EndOfRun(env, Placed(env, s1, f.cfg, after), later, now, id);
  }

  /** So an event that is not pinned and not itself a declared series is lost in exactly one way: its
      row is a live override of a master the source no longer declares, or such a master. */
  lemma OnlyPlaceholdersTakeListedEvents(
    env: Env, s: State, f: Fetch, after: Placeholders.Now, later: seq<Turn>, now: Time, e: ScrapedEvent)
    requires Proper(f) && e in f.raw && EventRelevant(env.settings, e, now)
    requires f.now == now && f.clock.ts == now && after.now == now
    requires var id := StableId(f.cfg.name, e);
      id in s.events ==>
        && s.events[id].archivedAt.None? && s.events[id].source == f.cfg.name
        && !s.events[id].pinned && Coherent(s.events[id])
    requires Declared(Materialized(env.reader, f.cfg, after), StableId(f.cfg.name, e)).None?
    requires OfOthers(later, f.cfg.name)
    ensures var id, s1 := StableId(f.cfg.name, e), FetchState(env, s, f);
      var final := SweepState(env.settings, TurnsState(env, TurnState(env, s, Gathered(f, after)), later), now);
      && id in final.events
      && (final.events[id].archivedAt.None? <==> !GoesAt(env, s1.events, f.cfg, after, id))
  {
    hide FetchState, Placed, GoesAt, SweepState, TurnsState, TurnState, StableId;
    var id, s1 := StableId(f.cfg.name, e), FetchState(env, s, f);
    ListedEventsSurviveTheRun(env, s, f, after, later, now, e);
    FetchLeavesFreshRow(env, s, f, e);
    FreshRowNotExpired(env, s, f, e);
    TurnLeavesRow(env, s1, f, after, id);
  }

  /** What going means, spelled out over the table the declarations have been written to. */
  lemma GoingSpelled(env: Env, t: Table, cfg: SourceConfig, after: Placeholders.Now, id: EventId)
    ensures var u := Placeholders.UpsertAll(t, env.reader, cfg.name, cfg.recurrences, after);
      GoesAt(env, t, cfg, after, id)
      <==> && cfg.recurrences != [] && id in u
           && exists m | Placeholders.Undeclared(u, env.reader, cfg.name, cfg.recurrences, m) ::
                Placeholders.GoesWith(u, cfg.name, m, id)
  {
    Placeholders.RetiredExactly(t, env.reader, cfg.name, cfg.recurrences, after, id);
  }

  /** For instance: a feed lists, for the first time, an occurrence under the uid of a live master that
      the source no longer declares.  The same turn that inserts the event archives it. */
  lemma ListedOverrideGoes(
    env: Env, s: State, f: Fetch, after: Placeholders.Now, e: ScrapedEvent, m: EventId)
    requires Proper(f) && e in f.raw && EventRelevant(env.settings, e, f.now) && StableId(f.cfg.name, e) !in s.events
    requires !Sees(env, f, m) && f.cfg.recurrences != []
    requires Placeholders.Undeclared(s.events, env.reader, f.cfg.name, f.cfg.recurrences, m)
    requires Declared(Materialized(env.reader, f.cfg, after), m).None?
    requires Declared(Materialized(env.reader, f.cfg, after), StableId(f.cfg.name, e)).None?
    requires e.uid == s.events[m].uid && e.recurrenceId.Some?
    ensures GoesAt(env, FetchState(env, s, f).events, f.cfg, after, StableId(f.cfg.name, e))
  {
    hide FetchState, GoesAt, StableId;
    var id, t := StableId(f.cfg.name, e), FetchState(env, s, f).events;
    FetchSeen(env, s, f, e);
    IncomingKeeps(env, f, s.events, e);
    FetchUnseen(env, s, f, m);
    Placeholders.UpsertedRow(t, env.reader, f.cfg.name, f.cfg.recurrences, after, id);
    Placeholders.UpsertedRow(t, env.reader, f.cfg.name, f.cfg.recurrences, after, m);
    GoingSpelled(env, t, f.cfg, after, id);
    var u := Placeholders.UpsertAll(t, env.reader, f.cfg.name, f.cfg.recurrences, after);
    assert Placeholders.Undeclared(u, env.reader, f.cfg.name, f.cfg.recurrences, m);
    assert Placeholders.GoesWith(u, f.cfg.name, m, id);
  }

  /** The table one declaration of a source leaves when it is the first ever. */
  function FirstDeclared(reader: Placeholders.Reader, name: string, d: Placeholders.Decl, p: Placeholders.Parsed,
                         c: Placeholders.Now): State {
    State(map[Placeholders.IdOfDecl(reader, name, d) := Placeholders.NewMaster(reader, name, d, p, c)], map[], [])
  }

  /** So it is lost by the end of the run that lists it: a source declared one series, then another
      one instead, while its feed lists an occurrence of the first. */
  lemma RepublishedSeriesLosesOccurrence(
    env: Env, f: Fetch, was: Placeholders.Decl, before: Placeholders.Now, after: Placeholders.Now, e: ScrapedEvent)
    requires f.raw == [e] && EventRelevant(env.settings, e, f.now) && f.now == f.clock.ts == after.now
    requires env.reader.parse(was).Some? && f.cfg.recurrences != []
    requires var u := Placeholders.SeriesUid(env.reader, f.cfg.name, was);
      && e.uid == Some(u) && e.recurrenceId.Some?
      && forall d | d in f.cfg.recurrences ::
           var v := Placeholders.SeriesUid(env.reader, f.cfg.name, d); v != u && v != u + Suffix(e.recurrenceId)
    ensures var s := FirstDeclared(env.reader, f.cfg.name, was, env.reader.parse(was).value, before);
      var final := SweepState(env.settings, TurnsState(env, s, [Gathered(f, after)]), f.now);
      StableId(f.cfg.name, e) in final.events && final.events[StableId(f.cfg.name, e)].archivedAt.Some?
  {
    hide FetchState, TurnState, GoesAt, SweepState;
    var name, u := f.cfg.name, Placeholders.SeriesUid(env.reader, f.cfg.name, was);
    var s := FirstDeclared(env.reader, name, was, env.reader.parse(was).value, before);
    var m, id, turn := Placeholders.SeriesId(name, u), StableId(name, e), Gathered(f, after);
    OverrideIdIsSeriesId(name, u, e);
    assert u + Suffix(e.recurrenceId) != u;
    if id == m { Placeholders.SeriesIdInjective(name, u + Suffix(e.recurrenceId), u); }
    NotDeclaredAt(env, f.cfg, after, u);
    NotDeclaredAt(env, f.cfg, after, u + Suffix(e.recurrenceId));
    assert e in f.raw && !Sees(env, f, m);
    ListedOverrideGoes(env, s, f, after, e, m);
    ListedEventsSurviveTheRun(env, s, f, after, [], f.now, e);
    assert Front([turn]) == [] && Last([turn]) == turn;
    assert TurnsState(env, s, [turn]) == TurnState(env, s, turn) == TurnsState(env, TurnState(env, s, turn), []);
  }

  lemma OverrideIdIsSeriesId(name: string, u: string, e: ScrapedEvent)
    requires e.uid == Some(u) && u != ""
    ensures StableId(name, e) == Placeholders.SeriesId(name, u + Suffix(e.recurrenceId))
  {
    assert name + ":" + u + Suffix(e.recurrenceId) == name + ":" + (u + Suffix(e.recurrenceId));
  }

  lemma NotDeclaredAt(env: Env, cfg: SourceConfig, after: Placeholders.Now, u: string)
    requires forall d | d in cfg.recurrences :: Placeholders.SeriesUid(env.reader, cfg.name, d) != u
    ensures Declared(Materialized(env.reader, cfg, after), Placeholders.SeriesId(cfg.name, u)).None?
  {
    var id := Placeholders.SeriesId(cfg.name, u);
    var last := Placeholders.LastDecl(env.reader, cfg.name, cfg.recurrences, id);
    Placeholders.LastDeclIsDeclared(env.reader, cfg.name, cfg.recurrences, id);
    if last.Some? {
      Placeholders.SeriesIdInjective(cfg.name, Placeholders.SeriesUid(env.reader, cfg.name, last.value), u);
    }
  }
}
