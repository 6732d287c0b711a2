/** Pending conflicts over whole runs: at most one per event, holding the latest disputed
    content, and settled for good by adopting it. */
module ConflictQueue {
  import opened Wrappers
  import opened Text
  import opened Schema
  import opened Identity
  import opened Sieve
  import opened Decisionmaker
  import opened Ingest
  import opened Archive
  import opened Lifecycle
  import opened Reingest
  import opened Freezing
  import Conflicts
  import Placeholders

  ghost predicate BothPending(a: Conflict, b: Conflict) {
    a.status == Pending && b.status == Pending && a.eventId == b.eventId
  }

  ghost predicate AtMostOnePending(conflicts: seq<Conflict>) {
    forall i, j :: 0 <= i < j < |conflicts| ==> !BothPending(conflicts[i], conflicts[j])
  }

  /** The incoming content an event's pending conflict holds. */
  ghost function PendingContent(conflicts: seq<Conflict>, id: EventId): Option<ScrapedEvent> {
    match PendingIndex(conflicts, id)
    case Some(i) => Some(conflicts[i].incoming)
    case None => None
  }

  lemma OnlyPending(conflicts: seq<Conflict>, id: EventId, i: nat)
    requires AtMostOnePending(conflicts) && i < |conflicts| && PendingFor(conflicts[i], id)
    ensures PendingIndex(conflicts, id) == Some(i)
  {
    var r := PendingIndex(conflicts, id);
    assert r.Some?;
    if r.value != i {
      assert BothPending(conflicts[i], conflicts[r.value]);
    }
  }

  lemma NonePending(conflicts: seq<Conflict>, id: EventId)
    requires forall i :: 0 <= i < |conflicts| ==> !PendingFor(conflicts[i], id)
    ensures PendingIndex(conflicts, id) == None
  {
    var _ := PendingIndex(conflicts, id);
  }

  /** A table that changed only in rows of other events has the same pending content. */
  lemma OthersUntouched(before: seq<Conflict>, after: seq<Conflict>, id: EventId)
    requires AtMostOnePending(before) && AtMostOnePending(after) && |before| <= |after|
    requires forall i :: 0 <= i < |before| ==>
      (PendingFor(before[i], id) || PendingFor(after[i], id) ==> before[i] == after[i])
    requires forall i :: |before| <= i < |after| ==> !PendingFor(after[i], id)
    ensures PendingContent(after, id) == PendingContent(before, id)
  {
    var r := PendingIndex(before, id);
    if r.Some? {
      OnlyPending(after, id, r.value);
    } else {
      NonePending(after, id);
    }
  }

  // ---- raising ---------------------------------------------------------

  lemma UpsertKeepsOne(conflicts: seq<Conflict>, c: Classified, wall: Time)
    requires AtMostOnePending(conflicts)
    ensures AtMostOnePending(Upsert(conflicts, c, wall))
  {
    var after := Upsert(conflicts, c, wall);
    forall i, j | 0 <= i < j < |after| ensures !BothPending(after[i], after[j]) {
      if j == |conflicts| {
        assert !PendingFor(conflicts[i], c.id);
      } else {
        assert !BothPending(conflicts[i], conflicts[j]);
      }
    }
  }

  lemma UpsertPending(conflicts: seq<Conflict>, c: Classified, wall: Time)
    requires AtMostOnePending(conflicts)
    ensures PendingContent(Upsert(conflicts, c, wall), c.id) == Some(c.event)
    ensures forall id :: id != c.id ==> PendingContent(Upsert(conflicts, c, wall), id) == PendingContent(conflicts, id)
  {
    var after, r := Upsert(conflicts, c, wall), PendingIndex(conflicts, c.id);
    UpsertKeepsOne(conflicts, c, wall);
    OnlyPending(after, c.id, if r.None? then |conflicts| else r.value);
    forall id | id != c.id ensures PendingContent(after, id) == PendingContent(conflicts, id) {
      OthersUntouched(conflicts, after, id);
    }
  }

  lemma {:induction false} UpsertAllPending(conflicts: seq<Conflict>, t: Table, cs: seq<Classified>, wall: Time)
    requires AtMostOnePending(conflicts) && DistinctClassified(cs) && forall c :: c in cs ==> c.id in t
    ensures AtMostOnePending(UpsertAll(conflicts, t, cs, wall))
    ensures forall c :: c in cs ==> PendingContent(UpsertAll(conflicts, t, cs, wall), c.id) == Some(c.event)
    ensures forall id | id !in Ids(cs) ::
              PendingContent(UpsertAll(conflicts, t, cs, wall), id) == PendingContent(conflicts, id)
  {
    if cs != [] {
      DistinctFront(cs);
      UpsertAllPending(conflicts, t, Front(cs), wall);
      var before, c := UpsertAll(conflicts, t, Front(cs), wall), Last(cs);
      UpsertKeepsOne(before, c, wall);
      UpsertPending(before, c, wall);
      forall c' | c' in cs ensures PendingContent(Upsert(before, c, wall), c'.id) == Some(c'.event) {
        if c' in Front(cs) {
          var k :| 0 <= k < |Front(cs)| && Front(cs)[k] == c';
          assert Ids(Front(cs))[k] == c'.id;
        }
      }
      assert Ids(cs) == Ids(Front(cs)) + [c.id];
    }
  }

  lemma DisputedStored(env: Env, s: State, f: Fetch)
    requires Proper(f)
    ensures DistinctClassified(Bucket(env, s.events, f, {Disputed}))
    ensures forall c :: c in Bucket(env, s.events, f, {Disputed}) ==> c.id in FetchState(env, s, f).events
  {
    IncomingDistinct(env, s.events, f);
    var kept := IncomingAll(env, f, s.events, Relevant(env.settings, f.now, f.raw));
    PickDistinct(s.events, f.cfg.name, kept, {Disputed});
    forall c | c in Bucket(env, s.events, f, {Disputed}) ensures c.id in FetchState(env, s, f).events {
      BucketOrigin(env, s.events, f, {Disputed}, c);
      var e :| ComesFrom(env, s.events, f, c, e);
      IncomingKeeps(env, f, s.events, e);
      FetchSeen(env, s, f, e);
    }
  }

  /** What a fetch's conflict bucket says of an event. */
  lemma DisputedContent(env: Env, t: Table, f: Fetch, id: EventId)
    requires Proper(f)
    ensures var cs := Bucket(env, t, f, {Disputed});
      if Sees(env, f, id) && SeenVerdict(env, t, f, id) == Disputed
      then exists c :: c in cs && c.id == id && c.event == Incoming(env, f, t, SeenEvent(env, f, id))
      else id !in Ids(cs)
  {
    InBucket(env, t, f, {Disputed}, id);
    if Sees(env, f, id) && SeenVerdict(env, t, f, id) == Disputed {
      BucketById(env, t, f, {Disputed}, SeenEvent(env, f, id));
      IncomingKeeps(env, f, t, SeenEvent(env, f, id));
      var c := Annotated(t, f.cfg.name, Incoming(env, f, t, SeenEvent(env, f, id)));
      assert c in Bucket(env, t, f, {Disputed}) && c.id == id;
    }
  }

  /** A fetch leaves, for each event, the content it disputes; otherwise what was pending. */
  lemma FetchPending(env: Env, s: State, f: Fetch, id: EventId)
    requires Proper(f) && AtMostOnePending(s.conflicts)
    ensures AtMostOnePending(FetchState(env, s, f).conflicts)
    ensures PendingContent(FetchState(env, s, f).conflicts, id)
         == if Sees(env, f, id) && SeenVerdict(env, s.events, f, id) == Disputed
            then Some(Incoming(env, f, s.events, SeenEvent(env, f, id))) else PendingContent(s.conflicts, id)
  {
    FetchBuckets(env, s.events, f);
    DisputedStored(env, s, f);
    UpsertAllPending(s.conflicts, FetchState(env, s, f).events, Bucket(env, s.events, f, {Disputed}), f.clock.wall);
    DisputedContent(env, s.events, f, id);
  }

  // ---- resolving -------------------------------------------------------

  lemma ResolvePending(s: State, k: nat, action: Conflicts.Action, wall: Time, id: EventId)
    requires AtMostOnePending(s.conflicts)
    ensures var s' := Conflicts.ResolveState(s, k, action, wall);
      && AtMostOnePending(s'.conflicts)
      && PendingContent(s'.conflicts, id)
         == if Conflicts.Resolvable(s, k, action) && s.conflicts[k].eventId == id then None
            else PendingContent(s.conflicts, id)
  {
    if Conflicts.Resolvable(s, k, action) {
      var status := if action.Ignore? then Ignored else if action.Adopt? then Applied else Merged;
      ClosePending(s.conflicts, k, status, wall, id);
    }
  }

  lemma ClosePending(conflicts: seq<Conflict>, k: nat, status: ConflictStatus, wall: Time, id: EventId)
    requires AtMostOnePending(conflicts) && k < |conflicts| && conflicts[k].status == Pending && status != Pending
    ensures var after := conflicts[k := Conflicts.Closed(conflicts[k], status, wall)];
      && AtMostOnePending(after)
      && PendingContent(after, id) == if conflicts[k].eventId == id then None else PendingContent(conflicts, id)
  {
    var after := conflicts[k := Conflicts.Closed(conflicts[k], status, wall)];
    forall i, j | 0 <= i < j < |after| ensures !BothPending(after[i], after[j]) {
      assert !BothPending(conflicts[i], conflicts[j]);
    }
    if conflicts[k].eventId == id {
      forall i | 0 <= i < |after| ensures !PendingFor(after[i], id) {
        if i < k { assert !BothPending(conflicts[i], conflicts[k]); }
        if k < i { assert !BothPending(conflicts[k], conflicts[i]); }
      }
      NonePending(after, id);
    } else {
      OthersUntouched(conflicts, after, id);
    }
  }

  // ---- whole runs ------------------------------------------------------

  /** The content most recently disputed for an event and not resolved since. */
  ghost function LatestDispute(s0: State, steps: seq<Step>, id: EventId): Option<ScrapedEvent> {
    if steps == [] then PendingContent(s0.conflicts, id)
    else
      var s, step := Run(s0, Front(steps)), Last(steps);
      if step.Fetched? && Sees(step.env, step.f, id) && SeenVerdict(step.env, s.events, step.f, id) == Disputed
      then Some(Incoming(step.env, step.f, s.events, SeenEvent(step.env, step.f, id)))
      else if step.Resolved? && Conflicts.Resolvable(s, step.k, step.action) && s.conflicts[step.k].eventId == id
      then None
      else LatestDispute(s0, Front(steps), id)
  }

  lemma OthersKeepConflicts(s: State, step: Step)
    requires !step.Fetched? && !step.Resolved?
    ensures Next(s, step).conflicts == s.conflicts
  {
    hide Placeholders.MaterializeTable, SweptTable;
  }

  /** What one step makes of an event's pending content. */
  lemma StepPending(s: State, step: Step, id: EventId)
    requires AtMostOnePending(s.conflicts) && (step.Fetched? ==> Proper(step.f))
    ensures AtMostOnePending(Next(s, step).conflicts)
    ensures PendingContent(Next(s, step).conflicts, id)
         == if step.Fetched? && Sees(step.env, step.f, id) && SeenVerdict(step.env, s.events, step.f, id) == Disputed
            then Some(Incoming(step.env, step.f, s.events, SeenEvent(step.env, step.f, id)))
            else if step.Resolved? && Conflicts.Resolvable(s, step.k, step.action) && s.conflicts[step.k].eventId == id
            then None
            else PendingContent(s.conflicts, id)
  {
    hide FetchState, Conflicts.ResolveState, Incoming;
    if step.Fetched? {
      FetchPending(step.env, s, step.f, id);
    } else if step.Resolved? {
      ResolvePending(s, step.k, step.action, step.wall, id);
    } else {
      OthersKeepConflicts(s, step);
    }
  }

  /** Under every interleaving of fetches, declared placeholders, archive passes, admin edits and
      resolutions, an event has at most one pending conflict, and it holds the latest disputed source
      content. */
  lemma {:induction false} PendingIsLatestDispute(s0: State, steps: seq<Step>, id: EventId)
    requires ProperSteps(steps) && AtMostOnePending(s0.conflicts)
    ensures AtMostOnePending(Run(s0, steps).conflicts)
    ensures PendingContent(Run(s0, steps).conflicts, id) == LatestDispute(s0, steps, id)
  {
    hide Next, Incoming;
    if steps != [] {
      ProperFront(steps);
      PendingIsLatestDispute(s0, Front(steps), id);
      StepPending(Run(s0, Front(steps)), Last(steps), id);
    }
  }

  // ---- a dispute, from fetch to fetch ------------------------------------

  /** The fetch lists the id, and its row is pinned and holds other content. */
  ghost predicate Disputes(env: Env, t: Table, f: Fetch, id: EventId) {
    Sees(env, f, id) && SeenVerdict(env, t, f, id) == Disputed
  }

  /** The content a fetch brings for an id, as the sieve compares it. */
  ghost function Brought(env: Env, t: Table, f: Fetch, id: EventId): ScrapedEvent
    requires Sees(env, f, id)
  {
    Incoming(env, f, t, SeenEvent(env, f, id))
  }

  lemma DisputeMeans(env: Env, t: Table, f: Fetch, id: EventId)
    requires Sees(env, f, id)
    ensures StableId(f.cfg.name, Brought(env, t, f, id)) == id
    ensures Disputes(env, t, f, id)
       <==> && id in t && t[id].archivedAt.None? && t[id].pinned
            && t[id].contentHash != ContentHash(Brought(env, t, f, id))
    ensures id in t && t[id].archivedAt.None? && t[id].pinned && !Disputes(env, t, f, id) ==>
      SeenVerdict(env, t, f, id) == Same
  {
    IncomingKeeps(env, f, t, SeenEvent(env, f, id));
  }

  /** How a fetch prepares an event depends on the table only through the archive mark of its row, and
      on the deployment only through the intake and the hosting of that one gallery. */
  lemma PreparedAlike(env: Env, t: Table, f: Fetch, env': Env, t': Table, f': Fetch, e: ScrapedEvent)
    requires env'.intake == env.intake && f'.cfg == f.cfg && f'.host(e) == f.host(e)
    requires Archived(t, StableId(f.cfg.name, e)) == Archived(t', StableId(f.cfg.name, e))
    ensures Incoming(env', f', t', e) == Incoming(env, f, t, e)
  {
    assert Hosted(f', t', e) == Hosted(f, t, e);
  }

  /** Adopting a dispute leaves the row live and pinned, with the disputed content. */
  lemma AdoptedRowHolds(s: State, k: nat, wall: Time, id: EventId)
    requires Conflicts.Resolvable(s, k, Conflicts.Adopt) && s.conflicts[k].eventId == id && id in s.events
    ensures var t := Conflicts.ResolveState(s, k, Conflicts.Adopt, wall).events;
      && id in t && t[id].pinned && Holds(t[id], s.conflicts[k].incoming)
      && t[id].contentHash == ContentHash(s.conflicts[k].incoming) && t[id].archivedAt == s.events[id].archivedAt
  {
  }

  /** What the fetch that disputes an id leaves: its row as it was up to the stamp, and one pending
      conflict with the content it brought. */
  lemma DisputeRaises(env: Env, s: State, f: Fetch, id: EventId)
    requires Proper(f) && AtMostOnePending(s.conflicts) && Disputes(env, s.events, f, id)
    ensures var s' := FetchState(env, s, f);
      && AtMostOnePending(s'.conflicts) && PendingContent(s'.conflicts, id) == Some(Brought(env, s.events, f, id))
      && id in s'.events && s'.events[id] == Stamped(s.events[id], f.clock)
  {
    hide FetchState;
    FetchPending(env, s, f, id);
    DisputeMeans(env, s.events, f, id);
    FetchSeen(env, s, f, SeenEvent(env, f, id));
  }

  /** A later fetch brings for the id the same gathered event, prepared under the same intake and
      configuration and with its gallery hosted alike. */
  ghost predicate BringsAgain(env: Env, f: Fetch, env': Env, f': Fetch, id: EventId) {
    && Sees(env, f, id) && Sees(env', f', id) && SeenEvent(env', f', id) == SeenEvent(env, f, id)
    && env'.intake == env.intake && f'.cfg == f.cfg && f'.host(SeenEvent(env, f, id)) == f.host(SeenEvent(env, f, id))
  }

  /** Adopting settles a dispute for good: a fetch disputes an event, its pending conflict is adopted,
      an unattended run follows in which nothing declares other content at the id; then, as long as
      the row is live, a fetch that brings the same event again finds it unchanged and raises no
      conflict for it. */
  lemma AdoptSettles(
    env: Env, s: State, f: Fetch, k: nat, wall: Time, run: seq<Step>, env': Env, f': Fetch, id: EventId)
    requires Proper(f) && Proper(f') && AtMostOnePending(s.conflicts) && Disputes(env, s.events, f, id)
    requires var s1 := FetchState(env, s, f);
      Conflicts.Resolvable(s1, k, Conflicts.Adopt) && s1.conflicts[k].eventId == id
    requires ProperSteps(run) && Unattended(run)
    requires var s2 := Conflicts.ResolveState(FetchState(env, s, f), k, Conflicts.Adopt, wall);
      && (id in s2.events ==> NeverRewritten(s2.events[id], run, id))
      && !Archived(Run(s2, run).events, id)
    requires BringsAgain(env, f, env', f', id)
    ensures var s2 := Conflicts.ResolveState(FetchState(env, s, f), k, Conflicts.Adopt, wall);
      var t := Run(s2, run).events;
      && id in s2.events && s2.events[id].pinned && Holds(s2.events[id], Brought(env, s.events, f, id))
      && id !in Ids(SieveFetch(env', t, f').conflicts) && id in SieveFetch(env', t, f').unchangedIds
  {
    hide FetchState, Conflicts.ResolveState, Run, SieveFetch, Rewrites, Incoming, StableId;
    var s1 := FetchState(env, s, f);
    var s2 := Conflicts.ResolveState(s1, k, Conflicts.Adopt, wall);
    var t := Run(s2, run).events;
    DisputeRaises(env, s, f, id);
    DisputeMeans(env, s.events, f, id);
    OnlyPending(s1.conflicts, id, k);
    AdoptedRowHolds(s1, k, wall, id);
    PinnedRowsAreFrozen(s2, run, id);
    UnmarkedAgree(t[id], s2.events[id]);
    PreparedAlike(env, s.events, f, env', t, f', SeenEvent(env, f, id));
    UnchangedWhenSame(env', t, f', id);
  }

  lemma UnchangedWhenSame(env: Env, t: Table, f: Fetch, id: EventId)
    requires Proper(f) && Sees(env, f, id) && id in t && t[id].archivedAt.None?
    requires t[id].contentHash == ContentHash(Brought(env, t, f, id))
    ensures id !in Ids(SieveFetch(env, t, f).conflicts) && id in SieveFetch(env, t, f).unchangedIds
  {
    hide SieveFetch;
    IncomingKeeps(env, f, t, SeenEvent(env, f, id));
    FetchBuckets(env, t, f);
    InBucket(env, t, f, {Disputed}, id);
    InBucket(env, t, f, {Disputed, Same}, id);
  }

  // ---- a dispute the source withdraws -------------------------------------

  /** The id's pinned row and its pending conflict hold different content. */
  ghost predicate DisputeStands(s: State, id: EventId) {
    && AtMostOnePending(s.conflicts) && id in s.events && s.events[id].pinned
    && PendingContent(s.conflicts, id).Some?
    && ContentHash(PendingContent(s.conflicts, id).value) != s.events[id].contentHash
  }

  lemma FetchKeepsDispute(env: Env, s: State, f: Fetch, id: EventId)
    requires Proper(f) && DisputeStands(s, id)
    ensures DisputeStands(FetchState(env, s, f), id)
  {
    hide FetchState, ContentHash;
    FetchPending(env, s, f, id);
    FetchFreezesPinned(env, s, f, id);
    UnmarkedAgree(FetchState(env, s, f).events[id], s.events[id]);
    if Sees(env, f, id) { DisputeMeans(env, s.events, f, id); }
  }

  lemma StepKeepsDispute(s: State, step: Step, id: EventId)
    requires Automatic(step) && (step.Fetched? ==> Proper(step.f))
    requires DisputeStands(s, id) && !Rewrites(s.events[id], step, id)
    ensures DisputeStands(Next(s, step), id)
  {
    hide FetchState, SweepState, PostedState, Placeholders.MaterializeTable, ContentHash, Rewrites;
    if step.Fetched? {
      FetchKeepsDispute(step.env, s, step.f, id);
    } else {
      StepOnPinned(s, step, id);
      UnmarkedAgree(Next(s, step).events[id], s.events[id]);
      OthersKeepConflicts(s, step);
    }
  }

  /** Nothing but a resolution or an edit ends a dispute: whatever the source then lists, a pending
      conflict stays and differs from the pinned row. */
  lemma {:induction false} DisputeOutlastsRuns(s: State, steps: seq<Step>, id: EventId)
    requires ProperSteps(steps) && Unattended(steps) && DisputeStands(s, id)
    requires NeverRewritten(s.events[id], steps, id)
    ensures DisputeStands(Run(s, steps), id)
  {
    hide Next, Rewrites, DisputeStands, Unmarked;
    if steps != [] {
      ProperFront(steps);
      UnattendedFront(steps);
      DisputedRow(s, id);
      NeverRewrittenFront(s.events[id], steps, id);
      DisputeOutlastsRuns(s, Front(steps), id);
      PinnedRowsAreFrozen(s, Front(steps), id);
      RewritesIgnoresMarks(Run(s, Front(steps)).events[id], s.events[id], Last(steps), id);
      StepKeepsDispute(Run(s, Front(steps)), Last(steps), id);
    }
  }

  lemma DisputedRow(s: State, id: EventId)
    requires DisputeStands(s, id)
    ensures id in s.events && s.events[id].pinned
  {
  }

  /** Once an event is in dispute, its pending conflict holds what a later fetch of its live row lists
      exactly when that fetch disputes it too: when the source goes back to the pinned content, the
      withdrawn content stays pending. */
  lemma PendingIsListedExactly(s: State, run: seq<Step>, env: Env, f: Fetch, id: EventId)
    requires ProperSteps(run) && Unattended(run) && DisputeStands(s, id)
    requires NeverRewritten(s.events[id], run, id)
    requires Proper(f) && Sees(env, f, id) && !Archived(Run(s, run).events, id)
    ensures var s1 := Run(s, run);
      var pending := PendingContent(FetchState(env, s1, f).conflicts, id);
      && pending.Some?
      && (pending.value == Brought(env, s1.events, f, id) <==> Disputes(env, s1.events, f, id))
      && (!Disputes(env, s1.events, f, id) ==> pending == PendingContent(s1.conflicts, id))
  {
    hide FetchState, Run, Incoming, ContentHash, Rewrites;
    var s1 := Run(s, run);
    DisputeOutlastsRuns(s, run, id);
    FetchPending(env, s1, f, id);
    DisputeMeans(env, s1.events, f, id);
  }
}
