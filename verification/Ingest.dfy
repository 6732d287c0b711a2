/** The ingest orchestrator (app/ingest.py): gather, host, categorize, sieve, decide, archive. */
module Ingest {
  import opened Wrappers
  import opened Text
  import opened Schema
  import opened Database
  import opened Identity
  import opened Expiry
  import opened Sieve
  import opened Decisionmaker
  import Archive
  import Categorize
  import Placeholders

  /** One configured source; `rules` is its resolved rule list. */
  datatype SourceConfig = SourceConfig(
    name: string, gatherer: string, defaultLocation: Option<string>, rules: seq<Categorize.Rule>,
    recurrences: seq<Placeholders.Decl>)

  /** What a step reads of the deployment: settings, intake, and the declarations' reader. */
  datatype Env = Env(
    settings: Settings, intake: Categorize.Intake, reader: Placeholders.Reader)

  /** One gathered batch: `host` is what hosting made of each event's gallery this time (module Images
      says what that is), `now` judges relevance, `clock` stamps. */
  datatype Fetch = Fetch(
    cfg: SourceConfig, raw: seq<ScrapedEvent>, host: ScrapedEvent -> seq<ImageRef>, now: Time, clock: Clock)

  // ---- from gathered to sieved -----------------------------------------

  predicate Archived(t: Table, id: EventId) {
    id in t && t[id].archivedAt.Some?
  }

  function Hosted(f: Fetch, t: Table, e: ScrapedEvent): ScrapedEvent {
    if Archived(t, StableId(f.cfg.name, e)) then e else e.(images := f.host(e))
  }

  function Prepared(env: Env, f: Fetch, t: Table, e: ScrapedEvent): ScrapedEvent {
    Categorize.Categorized(env.intake, f.cfg.rules, Hosted(f, t, e))
  }

  function PreparedAll(env: Env, f: Fetch, t: Table, raw: seq<ScrapedEvent>): seq<ScrapedEvent> {
    seq(|raw|, i requires 0 <= i < |raw| => Prepared(env, f, t, raw[i]))
  }

  /** What the sieve compares for a gathered event. */
  function Incoming(env: Env, f: Fetch, t: Table, e: ScrapedEvent): ScrapedEvent {
    Located(f.cfg.defaultLocation, Prepared(env, f, t, e))
  }

  function EnsureSource(sources: map<string, Source>, cfg: SourceConfig): map<string, Source> {
    if cfg.name in sources then sources else sources[cfg.name := Source(cfg.gatherer, None)]
  }

  function SieveFetch(env: Env, t: Table, f: Fetch): SieveResult {
    SieveOf(env.settings, f.cfg.name, f.cfg.defaultLocation, f.now, t, PreparedAll(env, f, t, f.raw))
  }

  /** The state after one source ran through the pipeline. */
  function FetchState(env: Env, s: State, f: Fetch): State {
    ApplyState(s.(sources := EnsureSource(s.sources, f.cfg)), f.cfg.name, SieveFetch(env, s.events, f), f.clock)
  }

  /** Host the images of events that are not archived, then categorize. */
  method Prepare(env: Env, f: Fetch, t: Table) returns (batch: array<ScrapedEvent>)
    ensures fresh(batch) && batch[..] == PreparedAll(env, f, t, f.raw)
  {
    hide StableId;
    batch := new ScrapedEvent[|f.raw|](i requires 0 <= i < |f.raw| => f.raw[i]);
    var i := 0;
    while i < batch.Length
      invariant 0 <= i <= batch.Length
      invariant forall k :: 0 <= k < i ==> batch[k] == Hosted(f, t, f.raw[k])
      invariant forall k :: i <= k < batch.Length ==> batch[k] == f.raw[k]
    {
      if !Archived(t, StableId(f.cfg.name, batch[i])) {
        batch[i] := batch[i].(images := f.host(batch[i]));
      }
      i := i + 1;
    }
    Categorize.Apply(env.intake, f.cfg.rules, batch);
  }

  method ProcessSource(store: Store, env: Env, f: Fetch, dryRun: bool)
    returns (sieved: SieveResult, report: Option<Report>)
    modifies store
    ensures sieved == SieveFetch(env, old(store.events), f)
    ensures store.Snapshot() == if dryRun then old(store.Snapshot()) else FetchState(env, old(store.Snapshot()), f)
    ensures report.Some? <==> !dryRun
    ensures report.Some? ==>
      report.value.removed
      == if env.settings.permanent(EnsureSource(old(store.sources), f.cfg)[f.cfg.name].gatherer) then 0
         else |StaleIds(store.events, f.cfg.name, f.clock.ts)|
  {
    var batch := Prepare(env, f, store.events);
    sieved := Classify(env.settings, f.cfg.name, f.cfg.defaultLocation, f.now, store.events, batch[..]);
    report := None;
    if !dryRun {
      store.sources := EnsureSource(store.sources, f.cfg);
      var permanent := env.settings.permanent(store.sources[f.cfg.name].gatherer);
      var written := Apply(store, f.cfg.name, permanent, sieved, f.clock);
      report := Some(written);
    }
  }

  // ---- a whole run -----------------------------------------------------

  /** How a source's turn ends: an event source's batch, a post source's batch (its posts go to the
      queue, see PostQueue), or an error raised before or after the writes. */
  datatype Turn =
    | Gathered(f: Fetch, after: Placeholders.Now)
    | Posted(cfg: SourceConfig, ts: Time, after: Placeholders.Now)
    | RaisedEarly(cfg: SourceConfig)
    | RaisedLate(f: Fetch, after: Placeholders.Now)

  predicate Commits(turn: Turn) { turn.Gathered? || turn.Posted? }

  /** A source's declarations, materialised. */
  function DeclaredState(s: State, reader: Placeholders.Reader, cfg: SourceConfig, after: Placeholders.Now): State {
    s.(events := Placeholders.MaterializeTable(s.events, reader, cfg.name, cfg.recurrences, after))
  }

  /** The end of a source's turn: its declarations, if it has any. */
  function Placed(env: Env, s: State, cfg: SourceConfig, after: Placeholders.Now): State {
    if cfg.recurrences == [] then s else DeclaredState(s, env.reader, cfg, after)
  }

  function PostedState(s: State, cfg: SourceConfig, ts: Time): State {
    var sources := EnsureSource(s.sources, cfg);
    s.(sources := sources[cfg.name := sources[cfg.name].(lastFetchedAt := Some(ts))])
  }

  function TurnState(env: Env, s: State, turn: Turn): State {
    match turn
    case Gathered(f, after) => Placed(env, FetchState(env, s, f), f.cfg, after)
    case Posted(cfg, ts, after) => Placed(env, PostedState(s, cfg, ts), cfg, after)
    case _ => s
  }

  function TurnsState(env: Env, s: State, turns: seq<Turn>): State {
    if turns == [] then s else TurnState(env, TurnsState(env, s, Front(turns)), Last(turns))
  }

  method PlaceRecurrences(store: Store, env: Env, cfg: SourceConfig, after: Placeholders.Now)
    modifies store`events
    ensures store.Snapshot() == Placed(env, old(store.Snapshot()), cfg, after)
  {
    if cfg.recurrences != [] {
      var _, _, _, _ := Placeholders.Materialize(store, env.reader, cfg.name, cfg.recurrences, after);
    }
  }

  /** One source's turn: whatever an error left half done is rolled back. */
  method TakeTurn(store: Store, env: Env, turn: Turn) returns (committed: bool)
    modifies store
    ensures store.Snapshot() == TurnState(env, old(store.Snapshot()), turn)
    ensures committed == Commits(turn)
  {
    var last := store.Snapshot();
    committed := false;
    match turn {
      case RaisedEarly(_) =>
      case Gathered(f, after) =>
        var _, _ := ProcessSource(store, env, f, false);
        PlaceRecurrences(store, env, f.cfg, after);
        committed := true;
      case Posted(cfg, ts, after) =>
        store.sources := EnsureSource(store.sources, cfg);
        store.sources := store.sources[cfg.name := store.sources[cfg.name].(lastFetchedAt := Some(ts))];
        PlaceRecurrences(store, env, cfg, after);
        committed := true;
      case RaisedLate(f, after) =>
        var _, _ := ProcessSource(store, env, f, false);
        PlaceRecurrences(store, env, f.cfg, after);
    }
    if !committed {
      store.events, store.sources, store.conflicts := last.events, last.sources, last.conflicts;
    }
  }

  /** Every source in turn with commit or rollback; tells which ones committed. */
  method TakeTurns(store: Store, env: Env, turns: seq<Turn>) returns (summaries: seq<bool>)
    modifies store
    ensures store.Snapshot() == TurnsState(env, old(store.Snapshot()), turns)
    ensures |summaries| == |turns| && forall k | 0 <= k < |turns| :: summaries[k] == Commits(turns[k])
  {
    hide TurnState;
    summaries := [];
    while |summaries| < |turns|
      invariant |summaries| <= |turns|
      invariant store.Snapshot() == TurnsState(env, old(store.Snapshot()), turns[..|summaries|])
      invariant forall k | 0 <= k < |summaries| :: summaries[k] == Commits(turns[k])
    {
      assert Front(turns[..|summaries| + 1]) == turns[..|summaries|];
      var committed := TakeTurn(store, env, turns[|summaries|]);
      summaries := summaries + [committed];
    }
    assert turns[..|summaries|] == turns;
  }

  /** A whole run: every source's turn, then one archive pass. */
  method RunLocked(store: Store, env: Env, turns: seq<Turn>, now: Time) returns (summaries: seq<bool>)
    modifies store
    ensures store.Snapshot() == Archive.SweepState(env.settings, TurnsState(env, old(store.Snapshot()), turns), now)
    ensures |summaries| == |turns| && forall k | 0 <= k < |turns| :: summaries[k] == Commits(turns[k])
  {
    summaries := TakeTurns(store, env, turns);
    var _, _ := Archive.Sweep(store, env.settings, now, false);
  }

  // ---- raw and sieved events agree on identity and dates ----------------

  lemma IncomingKeeps(env: Env, f: Fetch, t: Table, e: ScrapedEvent)
    ensures var e' := Incoming(env, f, t, e);
      && StableId(f.cfg.name, e') == StableId(f.cfg.name, e) && e'.uid == e.uid && e'.recurrenceId == e.recurrenceId
      && e'.startAt == e.startAt && e'.endAt == e.endAt && e'.rrule == e.rrule
      && Clean(e'.categories)
  {
    Categorize.CategorizedMeaning(env.intake, f.cfg.rules, Hosted(f, t, e));
  }

  /** What the sieve is shown of a gathered event: its images hosted, unless its row is archived, the source's
      location where it brings none, its categories assigned, and everything else as gathered. */
  lemma IncomingExactly(env: Env, f: Fetch, t: Table, e: ScrapedEvent)
    ensures var id, e' := StableId(f.cfg.name, e), Incoming(env, f, t, e);
      && e'.images == (if id in t && t[id].archivedAt.Some? then e.images else f.host(e))
      && e'.location == (if (e.location.Some? && !AllSpace(e.location.value)) || !Truthy(f.cfg.defaultLocation)
                         then e.location else f.cfg.defaultLocation)
      && e' == e.(images := e'.images, location := e'.location, categories := e'.categories)
  {
    LocationKept(f.cfg.defaultLocation, Prepared(env, f, t, e));
  }

  /** A source's own row is created once, with its gatherer and no stamp; after a fetch of its posts it
      carries that fetch's time.  No other source's row moves, and no event or conflict. */
  lemma PostedExactly(s: State, cfg: SourceConfig, ts: Time)
    ensures var s' := PostedState(s, cfg, ts);
      && s'.events == s.events && s'.conflicts == s.conflicts && s'.sources.Keys == s.sources.Keys + {cfg.name}
      && (forall name | name in s.sources && name != cfg.name :: s'.sources[name] == s.sources[name])
      && s'.sources[cfg.name].lastFetchedAt == Some(ts)
      && s'.sources[cfg.name].gatherer == if cfg.name in s.sources then s.sources[cfg.name].gatherer else cfg.gatherer
  {
  }

  /** The same of a fetch of events. */
  lemma FetchedSourceExactly(env: Env, s: State, f: Fetch)
    ensures var sources' := FetchState(env, s, f).sources;
      && sources'.Keys == s.sources.Keys + {f.cfg.name}
      && (forall name | name in s.sources && name != f.cfg.name :: sources'[name] == s.sources[name])
      && sources'[f.cfg.name].lastFetchedAt == Some(f.clock.ts)
      && sources'[f.cfg.name].gatherer
         == if f.cfg.name in s.sources then s.sources[f.cfg.name].gatherer else f.cfg.gatherer
  {
  }

  function IncomingAll(env: Env, f: Fetch, t: Table, events: seq<ScrapedEvent>): seq<ScrapedEvent> {
    seq(|events|, i requires 0 <= i < |events| => Incoming(env, f, t, events[i]))
  }

  lemma PreparedCons(env: Env, f: Fetch, t: Table, e: ScrapedEvent, rest: seq<ScrapedEvent>)
    ensures PreparedAll(env, f, t, [e] + rest) == [Prepared(env, f, t, e)] + PreparedAll(env, f, t, rest)
  {
    hide Prepared;
    var all := PreparedAll(env, f, t, [e] + rest);
    forall k | 0 < k < |all| ensures all[k] == PreparedAll(env, f, t, rest)[k - 1] {
      assert ([e] + rest)[k] == rest[k - 1];
    }
  }

  /** Filtering before or after preparing makes no difference. */
  lemma {:induction false} RelevantPrepared(env: Env, f: Fetch, t: Table, now: Time, raw: seq<ScrapedEvent>)
    ensures Relevant(env.settings, now, PreparedAll(env, f, t, raw))
         == PreparedAll(env, f, t, Relevant(env.settings, now, raw))
  {
    if raw != [] {
      var e, rest := raw[0], raw[1..];
      RelevantPrepared(env, f, t, now, rest);
      assert raw == [e] + rest;
      PreparedCons(env, f, t, e, rest);
      PreparedCons(env, f, t, e, Relevant(env.settings, now, rest));
      PreparedKeepsRelevance(env, f, t, now, e);
      RelevantCons(env.settings, now, e, rest);
      RelevantCons(env.settings, now, Prepared(env, f, t, e), PreparedAll(env, f, t, rest));
    }
  }

  lemma RelevantCons(settings: Settings, now: Time, e: ScrapedEvent, rest: seq<ScrapedEvent>)
    ensures Relevant(settings, now, [e] + rest)
         == if EventRelevant(settings, e, now) then [e] + Relevant(settings, now, rest)
            else Relevant(settings, now, rest)
  {
    assert ([e] + rest)[1..] == rest;
  }

  lemma PreparedKeepsRelevance(env: Env, f: Fetch, t: Table, now: Time, e: ScrapedEvent)
    ensures EventRelevant(env.settings, Prepared(env, f, t, e), now) == EventRelevant(env.settings, e, now)
  {
  }

  lemma KeptIsIncoming(env: Env, t: Table, f: Fetch)
    ensures Kept(env.settings, f.cfg.defaultLocation, f.now, PreparedAll(env, f, t, f.raw))
         == IncomingAll(env, f, t, Relevant(env.settings, f.now, f.raw))
  {
    RelevanceIsFilter(env.settings, f.now, PreparedAll(env, f, t, f.raw));
    RelevantPrepared(env, f, t, f.now, f.raw);
  }

  /** The fetch lists this id with an event that passes the relevance filter. */
  ghost predicate Sees(env: Env, f: Fetch, id: EventId) {
    exists e :: e in f.raw && EventRelevant(env.settings, e, f.now) && StableId(f.cfg.name, e) == id
  }

  /** A batch the pipeline is promised to handle: no id twice. */
  ghost predicate Proper(f: Fetch) {
    DistinctIds(f.cfg.name, f.raw)
  }

  lemma {:induction false} RelevantDistinct(settings: Settings, name: string, now: Time, raw: seq<ScrapedEvent>)
    requires DistinctIds(name, raw)
    ensures DistinctIds(name, Relevant(settings, now, raw))
  {
    hide EventRelevant, StableId;
    if raw != [] {
      RelevantDistinct(settings, name, now, raw[1..]);
      RelevanceIsFilter(settings, now, raw[1..]);
      var rest := Relevant(settings, now, raw[1..]);
      forall j | 0 <= j < |rest| ensures StableId(name, rest[j]) != StableId(name, raw[0]) {
        assert rest[j] in rest;
        var k :| 0 <= k < |raw[1..]| && raw[1..][k] == rest[j];
        assert raw[k + 1] == rest[j];
      }
    }
  }

  lemma IncomingDistinct(env: Env, t: Table, f: Fetch)
    requires Proper(f)
    ensures DistinctIds(f.cfg.name, IncomingAll(env, f, t, Relevant(env.settings, f.now, f.raw)))
  {
    var relevant := Relevant(env.settings, f.now, f.raw);
    RelevantDistinct(env.settings, f.cfg.name, f.now, f.raw);
    forall i | 0 <= i < |relevant|
      ensures StableId(f.cfg.name, Incoming(env, f, t, relevant[i])) == StableId(f.cfg.name, relevant[i])
    {
      IncomingKeeps(env, f, t, relevant[i]);
    }
  }

  /** The one row a fetch leaves at the id of a relevant gathered event. */
  lemma FetchSeen(env: Env, s: State, f: Fetch, e: ScrapedEvent)
    requires Proper(f) && e in f.raw && EventRelevant(env.settings, e, f.now)
    ensures var id, t' := StableId(f.cfg.name, e), FetchState(env, s, f).events;
      id in t' && t'[id] == RowAfter(s.events, f.cfg.name, Incoming(env, f, s.events, e), f.clock)
  {
    var relevant := Relevant(env.settings, f.now, f.raw);
    var kept := IncomingAll(env, f, s.events, relevant);
    KeptIsIncoming(env, s.events, f);
    IncomingDistinct(env, s.events, f);
    RelevanceIsFilter(env.settings, f.now, f.raw);
    var k :| 0 <= k < |relevant| && relevant[k] == e;
    assert kept[k] == Incoming(env, f, s.events, e);
    IncomingKeeps(env, f, s.events, e);
    RelevanceIsFilter(env.settings, f.now, PreparedAll(env, f, s.events, f.raw));
    ApplyListed(s.events, f.cfg.name, kept, SieveFetch(env, s.events, f).dropped, f.clock, kept[k]);
  }

  /** A fetch leaves every other id exactly as it was. */
  lemma FetchUnseen(env: Env, s: State, f: Fetch, id: EventId)
    requires !Sees(env, f, id)
    ensures SameAt(s.events, FetchState(env, s, f).events, id)
  {
    var relevant := Relevant(env.settings, f.now, f.raw);
    var kept := IncomingAll(env, f, s.events, relevant);
    KeptIsIncoming(env, s.events, f);
    RelevanceIsFilter(env.settings, f.now, f.raw);
    forall e | e in kept ensures StableId(f.cfg.name, e) != id {
      var k :| 0 <= k < |kept| && kept[k] == e;
      IncomingKeeps(env, f, s.events, relevant[k]);
      assert relevant[k] in relevant;
    }
    RelevanceIsFilter(env.settings, f.now, PreparedAll(env, f, s.events, f.raw));
    ApplyUnlisted(s.events, f.cfg.name, kept, SieveFetch(env, s.events, f).dropped, f.clock, id);
  }

  /** The sieve's buckets for a fetch, over the events it keeps. */
  ghost function Bucket(env: Env, t: Table, f: Fetch, vs: set<Verdict>): seq<Classified> {
    Pick(t, f.cfg.name, IncomingAll(env, f, t, Relevant(env.settings, f.now, f.raw)), vs)
  }

  lemma FetchBuckets(env: Env, t: Table, f: Fetch)
    ensures var r := SieveFetch(env, t, f);
      && r.added == Bucket(env, t, f, {New}) && r.updated == Bucket(env, t, f, {Changed})
      && r.conflicts == Bucket(env, t, f, {Disputed}) && r.archivedIds == Ids(Bucket(env, t, f, {Frozen}))
      && r.unchangedIds == Ids(Bucket(env, t, f, {Disputed, Same})) && r.unchangedCount == |Bucket(env, t, f, {Same})|
  {
    KeptIsIncoming(env, t, f);
    RelevanceIsFilter(env.settings, f.now, PreparedAll(env, f, t, f.raw));
  }

  /** A gathered event that passes the filter, under the id it was annotated with. */
  ghost predicate ComesFrom(env: Env, t: Table, f: Fetch, c: Classified, e: ScrapedEvent) {
    && e in f.raw && EventRelevant(env.settings, e, f.now)
    && c == Annotated(t, f.cfg.name, Incoming(env, f, t, e))
  }

  lemma BucketOrigin(env: Env, t: Table, f: Fetch, vs: set<Verdict>, c: Classified)
    requires c in Bucket(env, t, f, vs)
    ensures exists e :: ComesFrom(env, t, f, c, e) && VerdictOf(t, f.cfg.name, Incoming(env, f, t, e)) in vs
  {
    var relevant := Relevant(env.settings, f.now, f.raw);
    var kept := IncomingAll(env, f, t, relevant);
    PickMembers(t, f.cfg.name, kept, vs);
    RelevanceIsFilter(env.settings, f.now, f.raw);
    var e' :| e' in kept && VerdictOf(t, f.cfg.name, e') in vs && c == Annotated(t, f.cfg.name, e');
    var k :| 0 <= k < |kept| && kept[k] == e';
    assert relevant[k] in relevant;
    assert ComesFrom(env, t, f, c, relevant[k]);
  }

  /** A relevant gathered event's id is in a bucket exactly when its verdict belongs there. */
  lemma BucketById(env: Env, t: Table, f: Fetch, vs: set<Verdict>, e: ScrapedEvent)
    requires Proper(f) && e in f.raw && EventRelevant(env.settings, e, f.now)
    ensures var e' := Incoming(env, f, t, e);
      && (StableId(f.cfg.name, e) in Ids(Bucket(env, t, f, vs)) <==> VerdictOf(t, f.cfg.name, e') in vs)
      && (Annotated(t, f.cfg.name, e') in Bucket(env, t, f, vs) <==> VerdictOf(t, f.cfg.name, e') in vs)
  {
    var relevant := Relevant(env.settings, f.now, f.raw);
    var kept := IncomingAll(env, f, t, relevant);
    IncomingDistinct(env, t, f);
    RelevanceIsFilter(env.settings, f.now, f.raw);
    IncomingKeeps(env, f, t, e);
    var k :| 0 <= k < |relevant| && relevant[k] == e;
    assert kept[k] == Incoming(env, f, t, e);
    PickById(t, f.cfg.name, kept, vs, kept[k]);
  }

  /** An event the fetch lists under this id, if it lists one that passes the filter. */
  ghost function SeenEvent(env: Env, f: Fetch, id: EventId): (e: ScrapedEvent)
    requires Sees(env, f, id)
    ensures e in f.raw && EventRelevant(env.settings, e, f.now) && StableId(f.cfg.name, e) == id
  {
    var e :| e in f.raw && EventRelevant(env.settings, e, f.now) && StableId(f.cfg.name, e) == id;
    e
  }

  /** `row` is what a fetch may leave at `id`: the row its listed event calls for, or the old row. */
  ghost predicate RowFollows(env: Env, t: Table, f: Fetch, t': Table, id: EventId) {
    if Sees(env, f, id)
    then id in t' && t'[id] == RowAfter(t, f.cfg.name, Incoming(env, f, t, SeenEvent(env, f, id)), f.clock)
    else SameAt(t, t', id)
  }

  /** The whole effect of a fetch on the event table, row by row. */
  lemma FetchRows(env: Env, s: State, f: Fetch)
    requires Proper(f)
    ensures forall id :: RowFollows(env, s.events, f, FetchState(env, s, f).events, id)
  {
    forall id ensures RowFollows(env, s.events, f, FetchState(env, s, f).events, id) {
      if Sees(env, f, id) {
        FetchSeen(env, s, f, SeenEvent(env, f, id));
      } else {
        FetchUnseen(env, s, f, id);
      }
    }
  }

  lemma SeenEventUnique(env: Env, f: Fetch, e: ScrapedEvent)
    requires Proper(f) && e in f.raw && EventRelevant(env.settings, e, f.now)
    ensures Sees(env, f, StableId(f.cfg.name, e)) && SeenEvent(env, f, StableId(f.cfg.name, e)) == e
  {
    SameIdSameEvent(f.cfg.name, f.raw, SeenEvent(env, f, StableId(f.cfg.name, e)), e);
  }
}
