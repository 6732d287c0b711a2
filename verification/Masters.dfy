/** The placeholder masters of a source over whole runs: where they can sit, and which of them are
    live once the declarations have been materialised. */
module Masters {
  import opened Wrappers
  import opened Text
  import opened Schema
  import opened Identity
  import opened Expiry
  import opened Sieve
  import opened Decisionmaker
  import opened Ingest
  import opened Archive
  import opened Lifecycle
  import opened Freezing
  import opened Removal
  import P = Placeholders

  // ---- who can sit at a series' id ----------------------------------------

  /** The id is where the source's declared series with this uid goes. */
  predicate IsSlot(name: string, uid: string, id: EventId) {
    P.SeriesLike(uid) && P.SeriesId(name, uid) == id
  }

  /** What a run keeps of the row at `id`, seen from one source: the source's rows carry ids it makes,
      its placeholders sit at their own series' ids, and nothing else sits at such an id. */
  ghost predicate MasterRow(name: string, id: EventId, row: Event) {
    && (row.source == name ==> MadeBy(name, id))
    && (row.source == name && row.placeholder ==> row.uid.Some? && IsSlot(name, row.uid.value, id))
    && (forall uid | IsSlot(name, uid, id) :: row.source == name && row.uid == Some(uid))
  }

  ghost predicate Mastered(t: Table, name: string) {
    forall id | id in t :: MasterRow(name, id, t[id])
  }

  lemma NoDashOrBar(uid: string)
    requires P.SeriesLike(uid)
    ensures '-' !in uid && '|' !in uid && uid != ""
  {
    assert uid == P.MARK + uid[|P.MARK|..];
  }

  /** The only gathered event that goes to a series' id is one that carries the series' uid and no
      override: no other uid, no title and no instant spells such a uid. */
  lemma SlotHolder(name: string, uid: string, e: ScrapedEvent)
    requires IsSlot(name, uid, StableId(name, e))
    ensures e.uid == Some(uid) && e.recurrenceId.None?
  {
    NoDashOrBar(uid);
    var body, end := Body(e), Suffix(e.recurrenceId);
    assert (name + ":") + (body + end) == (name + ":") + uid by {
      assert StableId(name, e).key == (name + ":") + (body + end);
    }
    assert body + end == ((name + ":") + (body + end))[|name| + 1..] == uid;
    DashInSuffix(body, e.recurrenceId);
    TitleHasBar(e);
  }

  lemma TitleHasBar(e: ScrapedEvent)
    ensures !Truthy(e.uid) ==> '|' in Body(e)
  {
    if !Truthy(e.uid) { assert Body(e)[|e.title|] == '|'; }
  }

  lemma DashInSuffix(body: string, override: Option<Time>)
    ensures override.Some? ==> '-' in body + Suffix(override)
    ensures override.None? ==> body + Suffix(override) == body
  {
    if override.Some? {
      var t: Time := override.value;
      assert '-' in ISO(t);
      assert body + Suffix(override) == (body + ":") + ISO(t);
    }
  }

  lemma SlotIsMade(name: string, uid: string)
    ensures P.SeriesLike(uid) ==> MadeBy(name, P.SeriesId(name, uid))
  {
    if P.SeriesLike(uid) {
      NoDashOrBar(uid);
      var e := ScrapedEvent(Some(uid), "", None, None, None, [], None, None, None, false, None, None, [], []);
      assert name + ":" + uid + "" == name + ":" + uid;
      assert StableId(name, e) == P.SeriesId(name, uid);
    }
  }

  /** What a source named apart makes is no id of this one, a series' id least of all. */
  lemma NoSlotOfOthers(other: string, name: string, id: EventId)
    requires Apart(other, name) && MadeBy(other, id)
    ensures !MadeBy(name, id) && forall uid :: !IsSlot(name, uid, id)
  {
    if MadeBy(name, id) { OneMaker(other, name, id); }
    forall uid ensures !IsSlot(name, uid, id) {
      SlotIsMade(name, uid);
    }
  }

  // ---- one step --------------------------------------------------------

  lemma SameOriginKeeps(name: string, id: EventId, a: Event, b: Event)
    requires MasterRow(name, id, a) && SameOrigin(a, b)
    ensures MasterRow(name, id, b)
  {
  }

  /** The row a listed event of this source leaves. */
  lemma OwnListingKeeps(t: Table, name: string, e: ScrapedEvent, clock: Clock)
    requires StableId(name, e) in t ==> MasterRow(name, StableId(name, e), t[StableId(name, e)])
    ensures MasterRow(name, StableId(name, e), RowAfter(t, name, e, clock))
  {
    var id, row := StableId(name, e), RowAfter(t, name, e, clock);
    assert MadeBy(name, id);
    ListedOrigin(t, name, e, clock);
    forall uid | IsSlot(name, uid, id) ensures row.source == name && row.uid == Some(uid) {
      SlotHolder(name, uid, e);
    }
    if row.source == name && row.placeholder {
      SlotHolder(name, t[id].uid.value, e);
    }
  }

  lemma ListedOrigin(t: Table, name: string, e: ScrapedEvent, clock: Clock)
    ensures var id, row := StableId(name, e), RowAfter(t, name, e, clock);
      && row.source == (if id in t then t[id].source else name)
      && row.placeholder == (id in t && t[id].placeholder)
      && (row.uid == e.uid || (id in t && row.uid == t[id].uid))
  {
    var v := VerdictOf(t, name, e);
    assert v == New <==> StableId(name, e) !in t;
  }

  /** The row a listed event of a source named apart leaves. */
  lemma OtherListingKeeps(t: Table, other: string, e: ScrapedEvent, clock: Clock, name: string)
    requires Apart(other, name)
    requires StableId(other, e) in t ==> MasterRow(name, StableId(other, e), t[StableId(other, e)])
    ensures MasterRow(name, StableId(other, e), RowAfter(t, other, e, clock))
  {
    var id, row := StableId(other, e), RowAfter(t, other, e, clock);
    ListedOrigin(t, other, e, clock);
    assert MadeBy(other, id);
    NoSlotOfOthers(other, name, id);
  }

  lemma FetchKeepsMasters(env: Env, s: State, f: Fetch, name: string)
    requires Proper(f) && Mastered(s.events, name) && (f.cfg.name == name || Apart(f.cfg.name, name))
    ensures Mastered(FetchState(env, s, f).events, name)
  {
    hide FetchState, MasterRow;
    var t' := FetchState(env, s, f).events;
    FetchRows(env, s, f);
    forall id | id in t' ensures MasterRow(name, id, t'[id]) {
      assert RowFollows(env, s.events, f, t', id);
      if Sees(env, f, id) {
        var e := Incoming(env, f, s.events, SeenEvent(env, f, id));
        IncomingKeeps(env, f, s.events, SeenEvent(env, f, id));
        if f.cfg.name == name {
          OwnListingKeeps(s.events, name, e, f.clock);
        } else {
          OtherListingKeeps(s.events, f.cfg.name, e, f.clock, name);
        }
      }
    }
  }

  lemma RetiredOrigin(row: Event, c: P.Now)
    ensures SameOrigin(row, P.Retired(row, c))
  {
  }

  /** The row materialising leaves, before anything goes. */
  lemma DeclaringKeeps(
    t: Table, reader: P.Reader, cfg: SourceConfig, c: P.Now, id: EventId, row: Event, name: string, d: P.Decl)
    requires P.LastDecl(reader, cfg.name, cfg.recurrences, id) == Some(d)
    requires P.IsUpserted(t, reader, cfg.name, d, c, id, row) && (cfg.name == name || Apart(cfg.name, name))
    requires id in t ==> MasterRow(name, id, t[id])
    ensures MasterRow(name, id, row)
  {
    hide StableId, P.SeriesLike;
    var u := P.SeriesUid(reader, cfg.name, d);
    P.LastDeclIsDeclared(reader, cfg.name, cfg.recurrences, id);
    P.SeriesUidIsSeriesLike(reader, cfg.name, d);
    SlotIsMade(cfg.name, u);
    if cfg.name == name {
      assert IsSlot(name, u, id);
      forall uid | IsSlot(name, uid, id) ensures row.source == name && row.uid == Some(uid) {
        P.SeriesIdInjective(name, u, uid);
      }
    } else {
      NoSlotOfOthers(cfg.name, name, id);
    }
  }

  lemma MaterializeKeepsMasters(reader: P.Reader, t: Table, cfg: SourceConfig, after: P.Now, name: string)
    requires Mastered(t, name) && (cfg.name == name || Apart(cfg.name, name))
    ensures Mastered(P.MaterializeTable(t, reader, cfg.name, cfg.recurrences, after), name)
  {
    hide P.MaterializeTable, P.GoesIn, P.IsUpserted, P.LastDecl, MasterRow, SameOrigin;
    var t' := P.MaterializeTable(t, reader, cfg.name, cfg.recurrences, after);
    forall id | id in t' ensures MasterRow(name, id, t'[id]) {
      P.MaterializedKeys(t, reader, cfg.name, cfg.recurrences, after, id);
      var row := P.MaterializedRow(t, reader, cfg.name, cfg.recurrences, after, id);
      var last := P.LastDecl(reader, cfg.name, cfg.recurrences, id);
      if last.Some? { DeclaringKeeps(t, reader, cfg, after, id, row, name, last.value); }
      RetiredOrigin(row, after);
      SameOriginKeeps(name, id, row, P.Retired(row, after));
    }
  }

  /** The step belongs to no source, to this one, or to one named apart from it. */
  predicate ApartStep(step: Step, name: string) {
    SourceOf(step).Some? && SourceOf(step).value != name ==> Apart(SourceOf(step).value, name)
  }

  lemma StepKeepsMasters(s: State, step: Step, name: string)
    requires (step.Fetched? ==> Proper(step.f)) && ApartStep(step, name) && Mastered(s.events, name)
    ensures Mastered(Next(s, step).events, name)
  {
    hide FetchState, SweepState, PostedState, P.MaterializeTable, MasterRow, SameOrigin;
    match step
    case Fetched(env, f) => FetchKeepsMasters(env, s, f, name);
    case FetchFailed(_) =>
    case PostFetched(cfg, ts) => PostedKeepsRows(s, cfg, ts);
    case Materialized(reader, cfg, after) => MaterializeKeepsMasters(reader, s.events, cfg, after, name);
    case Swept(settings, now) =>
      forall id | id in SweepState(settings, s, now).events
        ensures MasterRow(name, id, SweepState(settings, s, now).events[id])
      {
        SweptAt(settings, s, now, id);
        SweptOrigin(settings, s.sources, s.events[id], now);
        SameOriginKeeps(name, id, s.events[id], SweepState(settings, s, now).events[id]);
      }
    case _ => AttendedKeepsMasters(s, step, name);
  }

  lemma SweptOrigin(settings: Settings, sources: map<string, Source>, row: Event, now: Time)
    ensures SameOrigin(row, SweptRow(settings, sources, row, now))
  {
  }

  lemma AttendedKeepsMasters(s: State, step: Step, name: string)
    requires !Automatic(step) && Mastered(s.events, name)
    ensures Mastered(Next(s, step).events, name)
  {
    hide Next, Automatic, MasterRow;
    var t' := Next(s, step).events;
    forall id | id in t' ensures MasterRow(name, id, t'[id]) {
      AttendedRow(s, step, id);
      assert SameOrigin(s.events[id], t'[id]);
      SameOriginKeeps(name, id, s.events[id], t'[id]);
    }
  }

  // ---- whole runs ------------------------------------------------------

  lemma ApartStepsFront(steps: seq<Step>, name: string)
    requires steps != [] && ApartSteps(steps, name)
    ensures ApartSteps(Front(steps), name) && ApartStep(Last(steps), name)
  {
    assert forall k | 0 <= k < |Front(steps)| :: Front(steps)[k] == steps[k];
    assert Last(steps) == steps[|steps| - 1];
  }

  /** An empty table is in order. */
  lemma EmptyIsMastered(name: string)
    ensures Mastered(map[], name)
  {
  }

  /** Whatever is fetched, declared, archived, edited, restored and resolved, and whatever the feeds
      list: as long as the other sources are named apart from it, a source's placeholders sit at
      their own series' ids and nothing else ever does. */
  lemma {:induction false} MastersStay(s0: State, steps: seq<Step>, name: string)
    requires ProperSteps(steps) && ApartSteps(steps, name) && Mastered(s0.events, name)
    ensures Mastered(Run(s0, steps).events, name)
  {
    hide Next, Mastered;
    if steps != [] {
      ProperFront(steps);
      ApartStepsFront(steps, name);
      MastersStay(s0, Front(steps), name);
      StepKeepsMasters(Run(s0, Front(steps)), Last(steps), name);
    }
  }

  /** Such a table meets what the theorems about one call ask for. */
  lemma MasteredIsReady(t: Table, reader: P.Reader, name: string, decls: seq<P.Decl>)
    requires Mastered(t, name)
    ensures P.MastersKeyed(t, name) && P.SlotsOwned(t, reader, name, decls)
  {
    hide P.SeriesId, P.SeriesLike, P.SeriesUid;
    forall id | id in t && t[id].source == name && t[id].placeholder
      ensures t[id].uid.Some? && id == P.SeriesId(name, t[id].uid.value)
    {
      assert MasterRow(name, id, t[id]);
    }
    forall d | d in decls && P.IdOfDecl(reader, name, d) in t
      ensures var row := t[P.IdOfDecl(reader, name, d)];
        row.source == name && row.uid == Some(P.SeriesUid(reader, name, d))
    {
      var id := P.IdOfDecl(reader, name, d);
      P.SeriesUidIsSeriesLike(reader, name, d);
      assert IsSlot(name, P.SeriesUid(reader, name, d), id);
      assert MasterRow(name, id, t[id]);
    }
  }

  /** The source's live masters are its declared series: each sits at a declared id, and every
      declaration that parses has one, with its content. */
  ghost predicate ExactlyDeclared(t: Table, reader: P.Reader, name: string, decls: seq<P.Decl>) {
    && (forall id | id in t && P.LiveMaster(t[id], name) :: exists d :: d in decls && id == P.IdOfDecl(reader, name, d))
    && (forall d | d in decls && reader.parse(d).Some? ::
          P.Realised(t, reader, name, decls, P.IdOfDecl(reader, name, d)))
  }

  lemma DeclaredExactly(t: Table, reader: P.Reader, name: string, decls: seq<P.Decl>, c: P.Now)
    requires Mastered(t, name)
    ensures ExactlyDeclared(P.MaterializeTable(t, reader, name, decls, c), reader, name, decls)
  {
    hide P.MaterializeTable, P.Realised, P.LiveMaster, P.IdOfDecl, Mastered;
    MasteredIsReady(t, reader, name, decls);
    P.MaterializeConverges(t, reader, name, decls, c);
  }

  /** After any run that ends in materialising a source's declarations, as a turn or an approval does,
      the source's live masters are exactly the declared ones. */
  lemma RunsConverge(s0: State, steps: seq<Step>, reader: P.Reader, cfg: SourceConfig, after: P.Now)
    requires ProperSteps(steps) && ApartSteps(steps, cfg.name) && Mastered(s0.events, cfg.name)
    ensures var s := Run(s0, steps + [Materialized(reader, cfg, after)]);
      ExactlyDeclared(s.events, reader, cfg.name, cfg.recurrences)
  {
    hide Run, ExactlyDeclared, Mastered, P.MaterializeTable;
    var step := Materialized(reader, cfg, after);
    MastersStay(s0, steps, cfg.name);
    RunConcat(s0, steps, [step]);
    RunOne(Run(s0, steps), step);
    DeclaredExactly(Run(s0, steps).events, reader, cfg.name, cfg.recurrences, after);
  }

  /** No two declarations of the list have the same text, and SHA-256 does not collide on them. */
  ghost predicate Distinct(reader: P.Reader, name: string, decls: seq<P.Decl>) {
    forall i, j | 0 <= i < j < |decls| ::
      P.DeclText(decls[i]) != P.DeclText(decls[j]) && P.CollisionFree(reader, name, decls[i], decls[j])
  }

  lemma DistinctFront(reader: P.Reader, name: string, decls: seq<P.Decl>)
    requires decls != [] && Distinct(reader, name, decls)
    ensures Distinct(reader, name, Front(decls))
    ensures forall d | d in Front(decls) :: P.IdOfDecl(reader, name, d) != P.IdOfDecl(reader, name, Last(decls))
  {
    forall d | d in Front(decls) ensures P.IdOfDecl(reader, name, d) != P.IdOfDecl(reader, name, Last(decls)) {
      var k :| 0 <= k < |Front(decls)| && Front(decls)[k] == d;
      assert decls[k] == d;
      P.SharedSeriesExactly(reader, name, decls[k], decls[|decls| - 1]);
    }
  }

  /** The ids of the declared series that parse. */
  ghost function ParsedIds(reader: P.Reader, name: string, decls: seq<P.Decl>): set<EventId> {
    set d | d in decls && reader.parse(d).Some? :: P.IdOfDecl(reader, name, d)
  }

  /** Distinct declarations do not hide each other: each is the last one at its own id. */
  lemma {:induction false} DistinctStayApart(reader: P.Reader, name: string, decls: seq<P.Decl>, d: P.Decl)
    requires Distinct(reader, name, decls) && d in decls && reader.parse(d).Some?
    ensures P.LastDecl(reader, name, decls, P.IdOfDecl(reader, name, d)) == Some(d)
  {
    hide P.IdOfDecl, Distinct;
    var front, last := Front(decls), Last(decls);
    assert decls == front + [last];
    DistinctFront(reader, name, decls);
    if d in front { DistinctStayApart(reader, name, front, d); }
  }

  /** And there are as many ids as declarations that parse. */
  lemma {:induction false} DistinctCount(reader: P.Reader, name: string, decls: seq<P.Decl>)
    requires Distinct(reader, name, decls)
    ensures |ParsedIds(reader, name, decls)| == P.ParsedCount(reader, decls)
  {
    hide P.IdOfDecl, Distinct;
    if decls != [] {
      var front, last := Front(decls), Last(decls);
      assert decls == front + [last];
      DistinctFront(reader, name, decls);
      DistinctCount(reader, name, front);
      var before, more := ParsedIds(reader, name, front), P.IdOfDecl(reader, name, last);
      assert more !in before;
      assert ParsedIds(reader, name, decls) == if reader.parse(last).Some? then before + {more} else before;
    }
  }

  /** The declaration has its own live master, with its own uid and content. */
  ghost predicate HasItsMaster(t: Table, reader: P.Reader, name: string, d: P.Decl) {
    var id := P.IdOfDecl(reader, name, d);
    && id in t && P.LiveMaster(t[id], name) && t[id].uid == Some(P.SeriesUid(reader, name, d))
    && P.MasterOf(t[id], reader, name, d)
  }

  /** So after any run that ends in materialising declarations with different texts, each one that parses
      has its own live master, and the source has exactly as many of them as declarations that parse:
      a live master beyond those is of a declaration that no longer parses. */
  lemma EachDeclarationHasItsMaster(s0: State, steps: seq<Step>, reader: P.Reader, cfg: SourceConfig, after: P.Now)
    requires ProperSteps(steps) && ApartSteps(steps, cfg.name) && Mastered(s0.events, cfg.name)
    requires Distinct(reader, cfg.name, cfg.recurrences)
    ensures var t := Run(s0, steps + [Materialized(reader, cfg, after)]).events;
      var parsed := ParsedIds(reader, cfg.name, cfg.recurrences);
      var own := set id | id in t && P.LiveMaster(t[id], cfg.name) && id in parsed;
      && (forall d | d in cfg.recurrences && reader.parse(d).Some? :: HasItsMaster(t, reader, cfg.name, d))
      && |own| == P.ParsedCount(reader, cfg.recurrences)
      && (forall id | id in t && P.LiveMaster(t[id], cfg.name) && id !in own ::
            exists d :: d in cfg.recurrences && reader.parse(d).None? && id == P.IdOfDecl(reader, cfg.name, d))
  {
    hide Run, Mastered, P.MaterializeTable, P.LastDecl, P.IdOfDecl, P.MasterOf, P.LiveMaster;
    var step, name, decls := Materialized(reader, cfg, after), cfg.name, cfg.recurrences;
    var t := Run(s0, steps + [step]).events;
    RunsConverge(s0, steps, reader, cfg, after);
    assert ApartSteps(steps + [step], name);
    MastersStay(s0, steps + [step], name);
    DistinctCount(reader, name, decls);
    forall d | d in decls && reader.parse(d).Some? ensures HasItsMaster(t, reader, name, d) {
      DistinctStayApart(reader, name, decls, d);
      assert P.Realised(t, reader, name, decls, P.IdOfDecl(reader, name, d));
      MasteredUid(t, reader, name, d);
    }
    assert ParsedIds(reader, name, decls)
        == set id | id in t && P.LiveMaster(t[id], name) && id in ParsedIds(reader, name, decls);
  }

  lemma MasteredUid(t: Table, reader: P.Reader, name: string, d: P.Decl)
    requires Mastered(t, name) && P.IdOfDecl(reader, name, d) in t
    ensures t[P.IdOfDecl(reader, name, d)].uid == Some(P.SeriesUid(reader, name, d))
  {
    var id := P.IdOfDecl(reader, name, d);
    P.SeriesUidIsSeriesLike(reader, name, d);
    assert IsSlot(name, P.SeriesUid(reader, name, d), id);
    assert MasterRow(name, id, t[id]);
  }

  /** In particular after any committed turn of a source that declares anything. */
  lemma TurnsConverge(s0: State, steps: seq<Step>, env: Env, turn: Turn, cfg: SourceConfig)
    requires ProperSteps(steps) && ApartSteps(steps, cfg.name) && Mastered(s0.events, cfg.name)
    requires match turn
             case Gathered(f, _) => Proper(f) && f.cfg == cfg
             case Posted(c, _, _) => c == cfg
             case _ => false
    requires cfg.recurrences != []
    ensures ExactlyDeclared(TurnState(env, Run(s0, steps), turn).events, env.reader, cfg.name, cfg.recurrences)
  {
    hide Run, ExactlyDeclared, Mastered, P.MaterializeTable, FetchState, PostedState;
    var s := Run(s0, steps);
    MastersStay(s0, steps, cfg.name);
    match turn
    case Gathered(f, after) =>
      FetchKeepsMasters(env, s, f, cfg.name);
      DeclaredExactly(FetchState(env, s, f).events, env.reader, cfg.name, cfg.recurrences, after);
    case Posted(_, ts, after) =>
      PostedKeepsRows(s, cfg, ts);
      DeclaredExactly(s.events, env.reader, cfg.name, cfg.recurrences, after);
    case _ =>
  }

  /** After any run, materialising twice in a row leaves the second time nothing to do but stamp. */
  lemma RunsSettle(s0: State, steps: seq<Step>, reader: P.Reader, cfg: SourceConfig, after: P.Now, later: P.Now)
    requires ProperSteps(steps) && ApartSteps(steps, cfg.name) && Mastered(s0.events, cfg.name)
    ensures var s1 := Run(s0, steps + [Materialized(reader, cfg, after)]);
      var s2 := Next(s1, Materialized(reader, cfg, later));
      forall id :: (id in s2.events <==> id in s1.events)
                   && (id in s1.events ==> P.SameButTime(s1.events[id], s2.events[id]))
  {
    hide Run, Mastered, P.MaterializeTable, P.SameButTime;
    var step := Materialized(reader, cfg, after);
    MastersStay(s0, steps, cfg.name);
    RunConcat(s0, steps, [step]);
    RunOne(Run(s0, steps), step);
    MasteredIsReady(Run(s0, steps).events, reader, cfg.name, cfg.recurrences);
    P.MaterializeIdempotent(Run(s0, steps).events, reader, cfg.name, cfg.recurrences, after, later);
  }

  /** After any run, a placeholder just declared is then taken as removed exactly when an archive pass
      runs the grace period later without another declaration. */
  lemma RunsLosePlaceholders(
    s0: State, steps: seq<Step>, reader: P.Reader, cfg: SourceConfig, after: P.Now, settings: Settings, d: P.Decl,
    later: Time)
    requires ProperSteps(steps) && ApartSteps(steps, cfg.name) && Mastered(s0.events, cfg.name)
    requires d in cfg.recurrences && reader.parse(d).Some?
    ensures var s, id := Run(s0, steps + [Materialized(reader, cfg, after)]), P.IdOfDecl(reader, cfg.name, d);
      && id in s.events
      && (SweepReason(settings, s.sources, s.events[id], later) == Some(Removed)
          <==> && settings.archiveGraceHours.Some? && later - after.now >= settings.archiveGraceHours.value * HOUR
               && FetchedAt(s.sources, cfg.name) != Some(after.now)
               && !Permanent(settings, s.sources, cfg.name) && !RowExpired(settings, s.events[id], later))
  {
    hide Run, Mastered, P.MaterializeTable, SweepReason, RowExpired;
    var step := Materialized(reader, cfg, after);
    MastersStay(s0, steps, cfg.name);
    RunConcat(s0, steps, [step]);
    RunOne(Run(s0, steps), step);
    var s := Run(s0, steps + [step]);
    MasteredIsReady(Run(s0, steps).events, reader, cfg.name, cfg.recurrences);
    P.OutageRemovesPlaceholders(
      settings, s.sources, Run(s0, steps).events, reader, cfg.name, cfg.recurrences, after, d, later);
  }

  // ---- archived masters --------------------------------------------------

  /** A declaration that goes to the id of a source's row finds its own master there. */
  lemma DeclaredOwnMaster(row: Event, step: Step, source: string, id: EventId)
    requires MasterRow(source, id, row) && row.source == source && ApartStep(step, source)
    ensures OwnMaster(row, step, id)
  {
    hide P.SeriesLike;
    if Redeclares(step, id) {
      var reader, name, decls := step.reader, step.cfg.name, step.cfg.recurrences;
      var d := Declared(step, id).value;
      P.LastDeclIsDeclared(reader, name, decls, id);
      SeriesIdMadeBy(reader, step.cfg, id);
      if name != source { OneMaker(name, source, id); }
      P.SeriesUidIsSeriesLike(reader, name, d);
      assert IsSlot(source, P.SeriesUid(reader, name, d), id);
    }
  }

  /** So after any run, an archived row of the source changes in an unattended run that follows exactly
      when a step of it declares, parseably, the series at the row's id. */
  lemma ArchivedRowsAfterRuns(s0: State, steps: seq<Step>, more: seq<Step>, source: string, id: EventId)
    requires ProperSteps(steps) && ApartSteps(steps, source) && Mastered(s0.events, source)
    requires Archived(Run(s0, steps).events, id) && Run(s0, steps).events[id].source == source
    requires ProperSteps(more) && ApartSteps(more, source) && Unattended(more)
    ensures UnchangedThroughout(Run(s0, steps), more, id) <==> NeverRedeclared(more, id)
  {
    hide Run, Redeclares, OwnMaster, MasterRow, UnchangedThroughout;
    var s := Run(s0, steps);
    MastersStay(s0, steps, source);
    assert MasterRow(source, id, s.events[id]);
    forall k | 0 <= k < |more| ensures OwnMaster(s.events[id], more[k], id) {
      DeclaredOwnMaster(s.events[id], more[k], source, id);
    }
    ArchivedRowChangesExactly(s, more, id);
  }
}
