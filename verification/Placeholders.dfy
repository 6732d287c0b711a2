/** Declarative recurring placeholders (app/services/placeholders.py). */
module Placeholders {
  import opened Wrappers
  import opened Text
  import opened Schema
  import opened Database
  import opened Identity
  import opened Expiry
  import Archive

  /** One declared series, as written in the intake file. */
  datatype Decl = Decl(
    title: string, rrule: string, startAt: string, timezone: Option<string>,
    location: Option<string>, description: Option<string>)

  datatype Parsed = Parsed(startAt: Option<Time>, rrule: string)

  ghost predicate Digests(sha: string -> string) {
    forall s: string :: HexDigest(sha(s))
  }

  function Zeros(s: string): string {
    seq(64, _ => '0')
  }

  /** SHA-256 in hexadecimal; all zeros shows that the type has values. */
  type Sha = sha: string -> string | Digests(sha) witness Zeros

  /** `parse` reads the start and normalises the rule, None when that raises. */
  datatype Reader = Reader(parse: Decl -> Option<Parsed>, sha: Sha)

  datatype Now = Now(now: Time, wall: Time)

  /** How the uid of every declared series starts. */
  const MARK := "recurrence:"

  function SeriesUid(reader: Reader, name: string, d: Decl): string {
    MARK + reader.sha(name + ":" + d.title + ":" + d.rrule + ":" + d.startAt)
  }

  /** The shape of such a uid. */
  predicate SeriesLike(uid: string) {
    MARK <= uid && HexDigest(uid[|MARK|..])
  }

  lemma SeriesUidIsSeriesLike(reader: Reader, name: string, d: Decl)
    ensures SeriesLike(SeriesUid(reader, name, d))
  {
    var digest := reader.sha(name + ":" + d.title + ":" + d.rrule + ":" + d.startAt);
    assert (MARK + digest)[|MARK|..] == digest;
  }

  function Scraped(reader: Reader, name: string, d: Decl, p: Parsed): ScrapedEvent {
    ScrapedEvent(
      Some(SeriesUid(reader, name, d)), d.title, d.description, d.location, None, [], p.startAt, None,
      d.timezone, false, Some(p.rrule), None, [], [])
  }

  /** The id of a series: it depends on the uid alone. */
  function SeriesId(name: string, uid: string): EventId {
    IdOf(name + ":" + uid)
  }

  lemma SeriesIdIsStable(reader: Reader, name: string, d: Decl, p: Parsed)
    ensures StableId(name, Scraped(reader, name, d, p)) == SeriesId(name, SeriesUid(reader, name, d))
  {
    var uid := SeriesUid(reader, name, d);
    assert uid[0] == 'r';
    assert name + ":" + uid + "" == name + ":" + uid;
  }

  lemma SeriesIdInjective(name: string, u: string, v: string)
    requires SeriesId(name, u) == SeriesId(name, v)
    ensures u == v
  {
    assert u == (name + ":" + u)[|name| + 1..] && v == (name + ":" + v)[|name| + 1..];
  }

  /** What tells two declarations of a source apart. */
  function DeclText(d: Decl): string {
    d.title + ":" + d.rrule + ":" + d.startAt
  }

  /** SHA-256 does not collide on what these two declarations of the source are hashed as. */
  ghost predicate CollisionFree(reader: Reader, name: string, a: Decl, b: Decl) {
    reader.sha(name + ":" + DeclText(a)) == reader.sha(name + ":" + DeclText(b)) ==> DeclText(a) == DeclText(b)
  }

  /** Two declarations of a source are the same series exactly when their texts agree. */
  lemma SharedSeriesExactly(reader: Reader, name: string, a: Decl, b: Decl)
    requires CollisionFree(reader, name, a, b)
    ensures IdOfDecl(reader, name, a) == IdOfDecl(reader, name, b) <==> DeclText(a) == DeclText(b)
  {
    HashedText(reader, name, a);
    HashedText(reader, name, b);
    if IdOfDecl(reader, name, a) == IdOfDecl(reader, name, b) {
      SeriesIdInjective(name, SeriesUid(reader, name, a), SeriesUid(reader, name, b));
      assert SeriesUid(reader, name, a)[|MARK|..] == SeriesUid(reader, name, b)[|MARK|..];
    }
  }

  lemma HashedText(reader: Reader, name: string, d: Decl)
    ensures SeriesUid(reader, name, d) == MARK + reader.sha(name + ":" + DeclText(d))
    ensures SeriesUid(reader, name, d)[|MARK|..] == reader.sha(name + ":" + DeclText(d))
  {
    assert name + ":" + d.title + ":" + d.rrule + ":" + d.startAt == name + ":" + DeclText(d);
  }

  // ---- upserting the declarations ----------------------------------------

  function NewMaster(reader: Reader, name: string, d: Decl, p: Parsed, c: Now): Event {
    Event(
      name, Some(SeriesUid(reader, name, d)), d.title, d.description, d.location, None, [], p.startAt, None,
      d.timezone, false, Some(p.rrule), None, [], None, None, "", ContentHash(Scraped(reader, name, d, p)),
      Some(c.now), None, None, true, true, c.wall)
  }

  function RefreshedMaster(row: Event, reader: Reader, name: string, d: Decl, p: Parsed, c: Now): Event {
    row.(
      title := d.title, description := d.description, location := d.location, timezone := d.timezone,
      startAt := p.startAt, rrule := Some(p.rrule), contentHash := ContentHash(Scraped(reader, name, d, p)),
      lastSeenAt := Some(c.now), pinned := true, placeholder := true, archivedAt := None,
      archivedReason := None, updatedAt := c.wall)
  }

  function IdOfDecl(reader: Reader, name: string, d: Decl): EventId {
    SeriesId(name, SeriesUid(reader, name, d))
  }

  function UpsertOne(t: Table, reader: Reader, name: string, d: Decl, c: Now): Table {
    match reader.parse(d)
    case None => t
    case Some(p) =>
      var id := IdOfDecl(reader, name, d);
      t[id := if id in t then RefreshedMaster(t[id], reader, name, d, p, c) else NewMaster(reader, name, d, p, c)]
  }

  function UpsertAll(t: Table, reader: Reader, name: string, decls: seq<Decl>, c: Now): Table {
    if decls == [] then t else UpsertOne(UpsertAll(t, reader, name, Front(decls), c), reader, name, Last(decls), c)
  }

  function KeptUids(reader: Reader, name: string, decls: seq<Decl>): set<string> {
    set d | d in decls :: SeriesUid(reader, name, d)
  }

  // ---- archiving what is no longer declared -------------------------------

  predicate LiveMaster(row: Event, name: string) {
    row.source == name && row.placeholder && row.archivedAt.None?
  }

  predicate Kept(kept: set<string>, uid: Option<string>) {
    uid.Some? && uid.value in kept
  }

  function Doomed(t: Table, name: string, kept: set<string>): set<EventId> {
    set id | id in t && LiveMaster(t[id], name) && !Kept(kept, t[id].uid)
  }

  predicate OverrideOf(row: Event, name: string, uid: Option<string>) {
    row.source == name && row.uid == uid && row.recurrenceId.Some? && row.archivedAt.None?
  }

  function Retired(row: Event, c: Now): Event {
    row.(archivedAt := Some(c.now), archivedReason := Some(Removed), updatedAt := c.wall)
  }

  /** The row goes: it is a doomed master or a live override of one. */
  predicate Goes(t: Table, name: string, doomed: set<EventId>, id: EventId)
    requires id in t && doomed <= t.Keys
  {
    id in doomed || exists m :: m in doomed && OverrideOf(t[id], name, t[m].uid)
  }

  function RetireAll(t: Table, name: string, doomed: set<EventId>, c: Now): Table
    requires doomed <= t.Keys
  {
    map id | id in t :: if Goes(t, name, doomed, id) then Retired(t[id], c) else t[id]
  }

  function MaterializeTable(t: Table, reader: Reader, name: string, decls: seq<Decl>, c: Now): Table {
    var upserted := UpsertAll(t, reader, name, decls, c);
    RetireAll(upserted, name, Doomed(upserted, name, KeptUids(reader, name, decls)), c)
  }

  /** One declaration; tells whether it was written, and whether as a new row. */
  method UpsertDecl(store: Store, reader: Reader, name: string, d: Decl, c: Now) returns (written: bool, created: bool)
    modifies store`events
    ensures store.events == UpsertOne(old(store.events), reader, name, d, c)
    ensures written == reader.parse(d).Some? && (created ==> written)
    ensures |store.events| == |old(store.events)| + if created then 1 else 0
  {
    match reader.parse(d) {
      case None =>
        return false, false;
      case Some(p) =>
        SeriesIdIsStable(reader, name, d, p);
        var id := StableId(name, Scraped(reader, name, d, p));
        if id !in store.events {
          store.events := store.events[id := NewMaster(reader, name, d, p, c)];
          return true, true;
        }
        store.events := store.events[id := RefreshedMaster(store.events[id], reader, name, d, p, c)];
        return true, false;
    }
  }

  /** How many declarations parse. */
  function ParsedCount(reader: Reader, decls: seq<Decl>): nat {
    if decls == [] then 0 else ParsedCount(reader, Front(decls)) + if reader.parse(Last(decls)).Some? then 1 else 0
  }

  lemma KeptSnoc(reader: Reader, name: string, decls: seq<Decl>, i: nat)
    requires i < |decls|
    ensures KeptUids(reader, name, decls[..i + 1])
         == KeptUids(reader, name, decls[..i]) + {SeriesUid(reader, name, decls[i])}
    ensures Front(decls[..i + 1]) == decls[..i] && Last(decls[..i + 1]) == decls[i]
  {
    assert decls[..i + 1] == decls[..i] + [decls[i]];
  }

  method UpsertDeclared(store: Store, reader: Reader, name: string, decls: seq<Decl>, c: Now)
    returns (kept: set<string>, created: nat, updated: nat)
    modifies store`events
    ensures store.events == UpsertAll(old(store.events), reader, name, decls, c)
    ensures kept == KeptUids(reader, name, decls)
    ensures |store.events| == |old(store.events)| + created && created + updated == ParsedCount(reader, decls)
  {
    kept, created, updated := {}, 0, 0;
    var i := 0;
    while i < |decls|
      invariant 0 <= i <= |decls| && created + updated == ParsedCount(reader, decls[..i])
      invariant store.events == UpsertAll(old(store.events), reader, name, decls[..i], c)
      invariant kept == KeptUids(reader, name, decls[..i])
      invariant |store.events| == |old(store.events)| + created
    {
      KeptSnoc(reader, name, decls, i);
      kept := kept + {SeriesUid(reader, name, decls[i])};
      var written, isNew := UpsertDecl(store, reader, name, decls[i], c);
      if isNew {
        created := created + 1;
      } else if written {
        updated := updated + 1;
      }
      i := i + 1;
    }
    assert decls[..i] == decls;
  }

  function RetiredIn(t: Table, ids: set<EventId>, c: Now): Table {
    map id | id in t :: if id in ids then Retired(t[id], c) else t[id]
  }

  function Overrides(t: Table, name: string, uid: Option<string>): set<EventId> {
    set id | id in t && OverrideOf(t[id], name, uid)
  }

  lemma RetireInMore(t: Table, ids: set<EventId>, id: EventId, c: Now)
    requires id in t && id !in ids
    ensures RetiredIn(t, ids + {id}, c) == RetiredIn(t, ids, c)[id := Retired(RetiredIn(t, ids, c)[id], c)]
  {
  }

  method RetireOverrides(store: Store, name: string, uid: Option<string>, c: Now) returns (archived: nat)
    modifies store`events
    ensures store.events == RetiredIn(old(store.events), Overrides(old(store.events), name, uid), c)
    ensures archived == |Overrides(old(store.events), name, uid)|
  {
    ghost var was := store.events;
    var overrides := Overrides(store.events, name, uid);
    archived := |overrides|;
    var todo := overrides;
    while todo != {}
      invariant todo <= overrides
      invariant store.events == RetiredIn(was, overrides - todo, c)
      decreases todo
    {
      var id :| id in todo;
      RetireInMore(was, overrides - todo, id, c);
      assert overrides - (todo - {id}) == (overrides - todo) + {id};
      todo := todo - {id};
      store.events := store.events[id := Retired(store.events[id], c)];
    }
    assert overrides - todo == overrides;
  }

  /** The rows that go. */
  function Going(t: Table, name: string, doomed: set<EventId>): set<EventId>
    requires doomed <= t.Keys
  {
    set id | id in t && Goes(t, name, doomed, id)
  }

  /** How many masters of the list were retired as overrides of an earlier one before their own turn. */
  function TwiceCount(t: Table, name: string, order: seq<EventId>): nat
    requires forall m :: m in order ==> m in t
  {
    if order == [] then 0
    else
      TwiceCount(t, name, Front(order))
      + if exists m | m in Front(order) :: OverrideOf(t[Last(order)], name, t[m].uid) then 1 else 0
  }

  /** None is, when no undeclared master is an override of another. */
  lemma {:induction false} NoneTwice(t: Table, name: string, order: seq<EventId>)
    requires forall m :: m in order ==> m in t
    requires forall i, j | 0 <= i < j < |order| :: !OverrideOf(t[order[j]], name, t[order[i]].uid)
    ensures TwiceCount(t, name, order) == 0
  {
    if order != [] { NoneTwice(t, name, Front(order)); }
  }

  lemma GoesWithMore(t: Table, name: string, done: set<EventId>, m: EventId, id: EventId)
    requires done <= t.Keys && m in t && id in t
    ensures Goes(t, name, done + {m}, id) <==> Goes(t, name, done, id) || id == m || OverrideOf(t[id], name, t[m].uid)
  {
  }

  /** Where one more master's retirement leaves one row. */
  lemma RetireOneMoreAt(t: Table, name: string, done: set<EventId>, m: EventId, c: Now, id: EventId)
    requires done <= t.Keys && m in t && id in t
    ensures var cur := RetireAll(t, name, done, c);
      var marked := cur[m := Retired(cur[m], c)];
      (if Goes(t, name, done + {m}, id) then Retired(t[id], c) else t[id])
      == if OverrideOf(marked[id], name, t[m].uid) then Retired(marked[id], c) else marked[id]
  {
    GoesWithMore(t, name, done, m, id);
  }

  lemma RetireOneMore(t: Table, name: string, done: set<EventId>, m: EventId, c: Now)
    requires done <= t.Keys && m in t
    ensures var cur := RetireAll(t, name, done, c);
      var marked := cur[m := Retired(cur[m], c)];
      RetireAll(t, name, done + {m}, c) == RetiredIn(marked, Overrides(marked, name, t[m].uid), c)
  {
    var cur := RetireAll(t, name, done, c);
    var marked := cur[m := Retired(cur[m], c)];
    var more, next := RetireAll(t, name, done + {m}, c), RetiredIn(marked, Overrides(marked, name, t[m].uid), c);
    assert more.Keys == next.Keys;
    forall id | id in t ensures more[id] == next[id] {
      RetireOneMoreAt(t, name, done, m, c, id);
    }
  }

  /** One more master takes itself, unless it had gone already, and the overrides still live with it. */
  lemma OneMoreGoes(t: Table, name: string, done: set<EventId>, m: EventId, c: Now)
    requires done <= t.Keys && m in t && m !in done
    ensures var cur := RetireAll(t, name, done, c);
      |Going(t, name, done + {m})| + (if Goes(t, name, done, m) then 1 else 0)
      == |Going(t, name, done)| + 1 + |Overrides(cur[m := Retired(cur[m], c)], name, t[m].uid)|
  {
    var cur := RetireAll(t, name, done, c);
    var live, gone := Overrides(cur[m := Retired(cur[m], c)], name, t[m].uid), Going(t, name, done);
    forall id ensures id in Going(t, name, done + {m}) <==> id in (gone + {m}) + live {
      if id in t {
        GoesWithMore(t, name, done, m, id);
      }
    }
    assert Going(t, name, done + {m}) == (gone + {m}) + live;
    assert (gone + {m}) !! live;
    assert m in gone ==> gone + {m} == gone;
  }

  /** The undeclared masters in the order they were taken. */
  ghost predicate Lists(order: seq<EventId>, masters: set<EventId>) {
    |order| == |masters| && forall m :: m in order <==> m in masters
  }

  lemma OneMoreListed(t: Table, name: string, order: seq<EventId>, done: set<EventId>, m: EventId)
    requires done <= t.Keys && Lists(order, done) && m in t && m !in done
    ensures Lists(order + [m], done + {m})
    ensures TwiceCount(t, name, order + [m]) == TwiceCount(t, name, order) + if Goes(t, name, done, m) then 1 else 0
  {
    assert Front(order + [m]) == order && Last(order + [m]) == m;
  }

  /** How far the retiring loop has come. */
  ghost predicate RetiredSoFar(
    t: Table, name: string, done: set<EventId>, c: Now, now: Table, order: seq<EventId>, archived: nat)
  {
    && done <= t.Keys && now == RetireAll(t, name, done, c) && Lists(order, done)
    && archived == |Going(t, name, done)| + TwiceCount(t, name, order)
  }

  function RetiredWith(t: Table, name: string, m: EventId, c: Now): Table
    requires m in t
  {
    var marked := t[m := Retired(t[m], c)];
    RetiredIn(marked, Overrides(marked, name, t[m].uid), c)
  }

  function CountedWith(t: Table, name: string, m: EventId, c: Now): nat
    requires m in t
  {
    1 + |Overrides(t[m := Retired(t[m], c)], name, t[m].uid)|
  }

  lemma RetireStep(
    t: Table, name: string, done: set<EventId>, m: EventId, c: Now, now: Table, order: seq<EventId>, archived: nat)
    requires RetiredSoFar(t, name, done, c, now, order, archived) && m in t && m !in done
    ensures m in now
    ensures RetiredSoFar(t, name, done + {m}, c, RetiredWith(now, name, m, c), order + [m],
                         archived + CountedWith(now, name, m, c))
  {
    assert now[m].uid == t[m].uid;
    RetireOneMore(t, name, done, m, c);
    OneMoreGoes(t, name, done, m, c);
    OneMoreListed(t, name, order, done, m);
  }

  /** One undeclared master and its live overrides. */
  method RetireMaster(store: Store, name: string, m: EventId, c: Now) returns (archived: nat)
    requires m in store.events
    modifies store`events
    ensures store.events == RetiredWith(old(store.events), name, m, c)
    ensures archived == CountedWith(old(store.events), name, m, c)
  {
    var uid := store.events[m].uid;
    store.events := store.events[m := Retired(store.events[m], c)];
    var overrides := RetireOverrides(store, name, uid, c);
    archived := 1 + overrides;
  }

  lemma RetiredNone(t: Table, name: string, c: Now)
    ensures RetiredSoFar(t, name, {}, c, t, [], 0)
  {
    assert t == RetireAll(t, name, {}, c) && Going(t, name, {}) == {};
  }

  method RetireEach(store: Store, name: string, masters: set<EventId>, c: Now)
    returns (archived: nat, ghost order: seq<EventId>)
    requires masters <= store.events.Keys
    modifies store`events
    ensures RetiredSoFar(old(store.events), name, masters, c, store.events, order, archived)
  {
    hide *;
    ghost var was, done := store.events, {};
    var todo := masters;
    archived, order := 0, [];
    RetiredNone(was, name, c);
    while todo != {}
      invariant todo !! done && todo + done == masters
      invariant RetiredSoFar(was, name, done, c, store.events, order, archived)
      decreases todo
    {
      var m :| m in todo;
      RetireStep(was, name, done, m, c, store.events, order, archived);
      var more := RetireMaster(store, name, m, c);
      todo, done, order, archived := todo - {m}, done + {m}, order + [m], archived + more;
    }
    assert done == masters;
  }

  method RetireUndeclared(store: Store, name: string, kept: set<string>, c: Now)
    returns (archived: nat, ghost order: seq<EventId>)
    modifies store`events
    ensures store.events == RetireAll(old(store.events), name, Doomed(old(store.events), name, kept), c)
    ensures Lists(order, Doomed(old(store.events), name, kept))
    ensures archived == |Going(old(store.events), name, Doomed(old(store.events), name, kept))|
                        + TwiceCount(old(store.events), name, order)
  {
    archived, order := RetireEach(store, name, Doomed(store.events, name, kept), c);
  }

  method Materialize(store: Store, reader: Reader, name: string, decls: seq<Decl>, c: Now)
    returns (created: nat, updated: nat, archived: nat, ghost order: seq<EventId>)
    modifies store`events
    ensures store.events == MaterializeTable(old(store.events), reader, name, decls, c)
    ensures |store.events| == |old(store.events)| + created
    ensures created + updated == ParsedCount(reader, decls)
    ensures var u := UpsertAll(old(store.events), reader, name, decls, c);
      var doomed := Doomed(u, name, KeptUids(reader, name, decls));
      Lists(order, doomed) && archived == |Going(u, name, doomed)| + TwiceCount(u, name, order)
  {
    var kept;
    kept, created, updated := UpsertDeclared(store, reader, name, decls, c);
    RetireKeepsSize(store.events, name, Doomed(store.events, name, kept), c);
    archived, order := RetireUndeclared(store, name, kept, c);
  }

  lemma RetireKeepsSize(t: Table, name: string, doomed: set<EventId>, c: Now)
    requires doomed <= t.Keys
    ensures |RetireAll(t, name, doomed, c)| == |t|
  {
    assert RetireAll(t, name, doomed, c).Keys == t.Keys;
  }

  // ---- convergence -----------------------------------------------------

  /** The last declaration that parses to a series, if any. */
  function LastDecl(reader: Reader, name: string, decls: seq<Decl>, id: EventId): Option<Decl> {
    if decls == [] then None
    else if reader.parse(Last(decls)).Some? && IdOfDecl(reader, name, Last(decls)) == id then Some(Last(decls))
    else LastDecl(reader, name, Front(decls), id)
  }

  /** The row is the master of declaration `d`: live, pinned, and with the declared content. */
  ghost predicate MasterOf(row: Event, reader: Reader, name: string, d: Decl) {
    && reader.parse(d).Some?
    && var p := reader.parse(d).value;
    && row.title == d.title && row.description == d.description && row.location == d.location
    && row.timezone == d.timezone && row.startAt == p.startAt && row.rrule == Some(p.rrule)
    && row.contentHash == ContentHash(Scraped(reader, name, d, p))
    && row.pinned && row.placeholder && row.archivedAt.None? && row.archivedReason.None?
  }

  /** Same row but for its stamps. */
  ghost predicate SameButTime(a: Event, b: Event) {
    b == a.(lastSeenAt := b.lastSeenAt, updatedAt := b.updatedAt)
  }

  /** Every placeholder of the source is stored under its series id. */
  ghost predicate MastersKeyed(t: Table, name: string) {
    forall id :: id in t && t[id].source == name && t[id].placeholder ==>
      t[id].uid.Some? && id == SeriesId(name, t[id].uid.value)
  }

  /** Nothing but a master of the source sits where a declaration would go. */
  ghost predicate SlotsOwned(t: Table, reader: Reader, name: string, decls: seq<Decl>) {
    forall d :: d in decls && IdOfDecl(reader, name, d) in t ==>
      && t[IdOfDecl(reader, name, d)].source == name
      && t[IdOfDecl(reader, name, d)].uid == Some(SeriesUid(reader, name, d))
  }

  lemma {:induction false} LastDeclIsDeclared(reader: Reader, name: string, decls: seq<Decl>, id: EventId)
    ensures var r := LastDecl(reader, name, decls, id);
      && (r.Some? ==> r.value in decls && reader.parse(r.value).Some? && IdOfDecl(reader, name, r.value) == id)
      && (r.None? ==> forall d :: d in decls && reader.parse(d).Some? ==> IdOfDecl(reader, name, d) != id)
  {
    if decls != [] {
      assert decls == Front(decls) + [Last(decls)];
      LastDeclIsDeclared(reader, name, Front(decls), id);
    }
  }

  /** What the upsert loop leaves at an id: its last declaration's master, or the old row. */
  lemma {:induction false} UpsertedRow(t: Table, reader: Reader, name: string, decls: seq<Decl>, c: Now, id: EventId)
    ensures var t', last := UpsertAll(t, reader, name, decls, c), LastDecl(reader, name, decls, id);
      match last
      case None => (id in t' <==> id in t) && (id in t ==> t'[id] == t[id])
      case Some(d) =>
        && id in t' && MasterOf(t'[id], reader, name, d) && BaseOf(t, t'[id], reader, name, d, id)
        && t'[id].lastSeenAt == Some(c.now) && t'[id].updatedAt == c.wall
  {
    if decls != [] {
      UpsertedRow(t, reader, name, Front(decls), c, id);
      var before, d := UpsertAll(t, reader, name, Front(decls), c), Last(decls);
      if reader.parse(d).Some? && IdOfDecl(reader, name, d) == id {
        LastDeclIsDeclared(reader, name, Front(decls), id);
        var earlier := LastDecl(reader, name, Front(decls), id);
        if earlier.Some? { SameUid(reader, name, d, earlier.value); }
      }
    }
  }

  lemma SameUid(reader: Reader, name: string, a: Decl, b: Decl)
    requires IdOfDecl(reader, name, a) == IdOfDecl(reader, name, b)
    ensures SeriesUid(reader, name, a) == SeriesUid(reader, name, b)
  {
    SeriesIdInjective(name, SeriesUid(reader, name, a), SeriesUid(reader, name, b));
  }

  /** Source, uid and the columns no declaration sets: from the old row, or as a new master has them. */
  ghost predicate BaseOf(t: Table, row: Event, reader: Reader, name: string, d: Decl, id: EventId) {
    if id in t
    then row == t[id].(
      title := row.title, description := row.description, location := row.location, timezone := row.timezone,
      startAt := row.startAt, rrule := row.rrule, contentHash := row.contentHash, lastSeenAt := row.lastSeenAt,
      pinned := row.pinned, placeholder := row.placeholder, archivedAt := row.archivedAt,
      archivedReason := row.archivedReason, updatedAt := row.updatedAt)
    else
      && row.source == name && row.uid == Some(SeriesUid(reader, name, d)) && row.url.None? && row.images == []
      && row.endAt.None? && !row.allDay && row.recurrenceId.None? && row.exdates == [] && row.redirectTo.None?
      && row.priority.None? && row.categories == ""
  }

  /** The row goes in this call: it is an undeclared live master or a live override of one. */
  ghost predicate GoesIn(t: Table, reader: Reader, name: string, decls: seq<Decl>, c: Now, id: EventId) {
    var u := UpsertAll(t, reader, name, decls, c);
    id in u && Goes(u, name, Doomed(u, name, KeptUids(reader, name, decls)), id)
  }

  /** What the whole call leaves at an id: its last declaration's master or the old row, as it is or
      retired; nothing where there was neither. */
  lemma MaterializedRow(t: Table, reader: Reader, name: string, decls: seq<Decl>, c: Now, id: EventId)
    returns (row: Event)
    requires id in t || LastDecl(reader, name, decls, id).Some?
    ensures
      match LastDecl(reader, name, decls, id)
      case None => id in t && row == t[id]
      case Some(d) => IsUpserted(t, reader, name, d, c, id, row)
    ensures var t' := MaterializeTable(t, reader, name, decls, c);
      id in t' && t'[id] == if GoesIn(t, reader, name, decls, c, id) then Retired(row, c) else row
    ensures GoesIn(t, reader, name, decls, c, id) ==> row.source == name && row.archivedAt.None?
  {
    UpsertedRow(t, reader, name, decls, c, id);
    row := UpsertAll(t, reader, name, decls, c)[id];
  }

  lemma MaterializedKeys(t: Table, reader: Reader, name: string, decls: seq<Decl>, c: Now, id: EventId)
    ensures id in MaterializeTable(t, reader, name, decls, c) <==> id in t || LastDecl(reader, name, decls, id).Some?
  {
    UpsertedRow(t, reader, name, decls, c, id);
  }

  /** `row` is the master of `d` a call writes at `id`. */
  ghost predicate IsUpserted(t: Table, reader: Reader, name: string, d: Decl, c: Now, id: EventId, row: Event) {
    && MasterOf(row, reader, name, d) && BaseOf(t, row, reader, name, d, id)
    && row.lastSeenAt == Some(c.now) && row.updatedAt == c.wall
  }

  /** A live placeholder master of the source whose series is not among its declarations. */
  ghost predicate Undeclared(u: Table, reader: Reader, name: string, decls: seq<Decl>, m: EventId) {
    && m in u && u[m].source == name && u[m].placeholder && u[m].archivedAt.None?
    && forall d | d in decls :: u[m].uid != Some(SeriesUid(reader, name, d))
  }

  /** The row goes with the master: it is the master, or a live override under the master's uid. */
  ghost predicate GoesWith(u: Table, name: string, m: EventId, id: EventId)
    requires m in u && id in u
  {
    m == id || (u[id].source == name && u[id].uid == u[m].uid && u[id].recurrenceId.Some? && u[id].archivedAt.None?)
  }

  /** What going means over the table the declarations have been written to, and what it leaves: a row goes
      exactly with an undeclared live master of the source, and is then archived at that instant as
      removed, with nothing else but its update time moved; any other row stays. */
  lemma RetiredExactly(t: Table, reader: Reader, name: string, decls: seq<Decl>, c: Now, id: EventId)
    ensures var u, t' := UpsertAll(t, reader, name, decls, c), MaterializeTable(t, reader, name, decls, c);
      && (id in t' <==> id in u)
      && (GoesIn(t, reader, name, decls, c, id)
          <==> id in u && exists m | Undeclared(u, reader, name, decls, m) :: GoesWith(u, name, m, id))
      && (id in u && GoesIn(t, reader, name, decls, c, id) ==>
            t'[id] == u[id].(archivedAt := Some(c.now), archivedReason := Some(Removed), updatedAt := c.wall))
      && (id in u && !GoesIn(t, reader, name, decls, c, id) ==> t'[id] == u[id])
  {
    var u := UpsertAll(t, reader, name, decls, c);
    var doomed := Doomed(u, name, KeptUids(reader, name, decls));
    forall m ensures m in doomed <==> Undeclared(u, reader, name, decls, m) {
      if m in u { UndeclaredIsNotKept(u, reader, name, decls, m); }
    }
    if GoesIn(t, reader, name, decls, c, id) {
      if id in doomed {
        assert Undeclared(u, reader, name, decls, id) && GoesWith(u, name, id, id);
      } else {
        var m :| m in doomed && OverrideOf(u[id], name, u[m].uid);
        assert Undeclared(u, reader, name, decls, m) && GoesWith(u, name, m, id);
      }
    } else if id in u {
      forall m | Undeclared(u, reader, name, decls, m) ensures !GoesWith(u, name, m, id) {
        assert m in doomed;
      }
    }
  }

  lemma UndeclaredIsNotKept(u: Table, reader: Reader, name: string, decls: seq<Decl>, m: EventId)
    requires m in u
    ensures Kept(KeptUids(reader, name, decls), u[m].uid)
       <==> exists d | d in decls :: u[m].uid == Some(SeriesUid(reader, name, d))
  {
  }

  lemma UpsertKeepsKeyed(t: Table, reader: Reader, name: string, decls: seq<Decl>, c: Now)
    requires MastersKeyed(t, name) && SlotsOwned(t, reader, name, decls)
    ensures MastersKeyed(UpsertAll(t, reader, name, decls, c), name)
    ensures SlotsOwned(UpsertAll(t, reader, name, decls, c), reader, name, decls)
  {
    var u := UpsertAll(t, reader, name, decls, c);
    forall id | id in u && u[id].source == name && u[id].placeholder
      ensures u[id].uid.Some? && id == SeriesId(name, u[id].uid.value)
    {
      UpsertedRow(t, reader, name, decls, c, id);
      LastDeclIsDeclared(reader, name, decls, id);
    }
    forall d | d in decls && IdOfDecl(reader, name, d) in u
      ensures var row := u[IdOfDecl(reader, name, d)];
        row.source == name && row.uid == Some(SeriesUid(reader, name, d))
    {
      var id := IdOfDecl(reader, name, d);
      UpsertedRow(t, reader, name, decls, c, id);
      LastDeclIsDeclared(reader, name, decls, id);
      var last := LastDecl(reader, name, decls, id);
      if last.Some? { SameUid(reader, name, d, last.value); }
    }
  }

  /** A kept row never goes: neither as a master nor as somebody's override. */
  lemma KeptNeverGoes(u: Table, name: string, kept: set<string>, id: EventId)
    requires id in u && Kept(kept, u[id].uid)
    ensures !Goes(u, name, Doomed(u, name, kept), id)
  {
  }

  /** A live master of the source with the content of the series' last declaration. */
  ghost predicate Realised(t: Table, reader: Reader, name: string, decls: seq<Decl>, id: EventId) {
    && id in t && LiveMaster(t[id], name)
    && var d := LastDecl(reader, name, decls, id);
    && d.Some? && MasterOf(t[id], reader, name, d.value)
  }

  /** A declared series whose row carries its uid never goes in the same call. */
  lemma DeclaredNeverGoes(t: Table, reader: Reader, name: string, decls: seq<Decl>, c: Now, id: EventId)
    requires LastDecl(reader, name, decls, id).Some?
    requires id in t ==> t[id].uid == Some(SeriesUid(reader, name, LastDecl(reader, name, decls, id).value))
    ensures !GoesIn(t, reader, name, decls, c, id)
  {
    var u := UpsertAll(t, reader, name, decls, c);
    UpsertedRow(t, reader, name, decls, c, id);
    LastDeclIsDeclared(reader, name, decls, id);
    assert u[id].uid.value in KeptUids(reader, name, decls);
    KeptNeverGoes(u, name, KeptUids(reader, name, decls), id);
  }

  /** `materialize` converges: afterwards the live placeholder masters of the source are exactly the
      declared series that parse (a series whose declaration does not parse keeps the master it
      had), each with its declared content, revived if it had been archived. */
  lemma MaterializeConverges(t: Table, reader: Reader, name: string, decls: seq<Decl>, c: Now)
    requires MastersKeyed(t, name) && SlotsOwned(t, reader, name, decls)
    ensures var t' := MaterializeTable(t, reader, name, decls, c);
      && (forall id | id in t' && LiveMaster(t'[id], name) ::
            exists d :: d in decls && id == IdOfDecl(reader, name, d))
      && (forall d | d in decls && reader.parse(d).Some? ::
            Realised(t', reader, name, decls, IdOfDecl(reader, name, d)))
  {
    var u, kept := UpsertAll(t, reader, name, decls, c), KeptUids(reader, name, decls);
    var t' := MaterializeTable(t, reader, name, decls, c);
    UpsertKeepsKeyed(t, reader, name, decls, c);
    forall id | id in t' && LiveMaster(t'[id], name) ensures exists d :: d in decls && id == IdOfDecl(reader, name, d) {
      assert !Goes(u, name, Doomed(u, name, kept), id) && t'[id] == u[id];
      var d :| d in decls && SeriesUid(reader, name, d) == u[id].uid.value;
    }
    forall d | d in decls && reader.parse(d).Some?
      ensures Realised(t', reader, name, decls, IdOfDecl(reader, name, d))
    {
      DeclaredStays(t, reader, name, decls, c, d);
    }
  }

  lemma DeclaredStays(t: Table, reader: Reader, name: string, decls: seq<Decl>, c: Now, d: Decl)
    requires MastersKeyed(t, name) && SlotsOwned(t, reader, name, decls) && d in decls && reader.parse(d).Some?
    ensures var t', id := MaterializeTable(t, reader, name, decls, c), IdOfDecl(reader, name, d);
      Realised(t', reader, name, decls, id) && t'[id].lastSeenAt == Some(c.now)
  {
    var u, id, kept := UpsertAll(t, reader, name, decls, c), IdOfDecl(reader, name, d), KeptUids(reader, name, decls);
    UpsertKeepsKeyed(t, reader, name, decls, c);
    UpsertedRow(t, reader, name, decls, c, id);
    LastDeclIsDeclared(reader, name, decls, id);
    assert u[id].uid == Some(SeriesUid(reader, name, d)) && SeriesUid(reader, name, d) in kept;
    KeptNeverGoes(u, name, kept, id);
  }

  /** No live override is left of a master archived in the call, and nothing that is neither
      declared, doomed nor an override of a doomed master is touched: in particular an override that
      went with its master stays archived when the series is declared again. */
  lemma MaterializeRetires(t: Table, reader: Reader, name: string, decls: seq<Decl>, c: Now)
    ensures var u := UpsertAll(t, reader, name, decls, c);
      var doomed, t' := Doomed(u, name, KeptUids(reader, name, decls)), MaterializeTable(t, reader, name, decls, c);
      && (forall m :: m in doomed ==> m in t' && t'[m] == Retired(u[m], c))
      && (forall m, id :: m in doomed && id in t' ==> !OverrideOf(t'[id], name, u[m].uid))
      && (forall id | id in t && t[id].archivedAt.Some? && LastDecl(reader, name, decls, id).None? ::
            id in t' && t'[id] == t[id])
  {
    var u := UpsertAll(t, reader, name, decls, c);
    var t' := MaterializeTable(t, reader, name, decls, c);
    forall id | id in t && t[id].archivedAt.Some? && LastDecl(reader, name, decls, id).None?
      ensures id in t' && t'[id] == t[id]
    {
      UpsertedRow(t, reader, name, decls, c, id);
    }
  }

  /** A table the declarations have already been materialised in. */
  ghost predicate Settled(t: Table, reader: Reader, name: string, decls: seq<Decl>) {
    && (forall id :: id in t && LiveMaster(t[id], name) ==> Kept(KeptUids(reader, name, decls), t[id].uid))
    && (forall id :: LastDecl(reader, name, decls, id).Some? ==>
          id in t && MasterOf(t[id], reader, name, LastDecl(reader, name, decls, id).value))
  }

  lemma MaterializeSettles(t: Table, reader: Reader, name: string, decls: seq<Decl>, c: Now)
    requires MastersKeyed(t, name) && SlotsOwned(t, reader, name, decls)
    ensures Settled(MaterializeTable(t, reader, name, decls, c), reader, name, decls)
  {
    var t' := MaterializeTable(t, reader, name, decls, c);
    forall id | LastDecl(reader, name, decls, id).Some?
      ensures id in t' && MasterOf(t'[id], reader, name, LastDecl(reader, name, decls, id).value)
    {
      LastDeclIsDeclared(reader, name, decls, id);
      DeclaredStays(t, reader, name, decls, c, LastDecl(reader, name, decls, id).value);
    }
  }

  lemma UpsertSettled(t: Table, reader: Reader, name: string, decls: seq<Decl>, c: Now, id: EventId)
    requires Settled(t, reader, name, decls)
    ensures var u := UpsertAll(t, reader, name, decls, c);
      (id in u <==> id in t) && (id in t ==> SameButTime(t[id], u[id]))
  {
    UpsertedRow(t, reader, name, decls, c, id);
  }

  /** A second call changes nothing but timestamps: nothing is created, nothing archived. */
  lemma MaterializeIdempotent(t: Table, reader: Reader, name: string, decls: seq<Decl>, c: Now, later: Now)
    requires MastersKeyed(t, name) && SlotsOwned(t, reader, name, decls)
    ensures var t' := MaterializeTable(t, reader, name, decls, c);
      var t'' := MaterializeTable(t', reader, name, decls, later);
      forall id :: (id in t'' <==> id in t') && (id in t' ==> SameButTime(t'[id], t''[id]))
  {
    var t' := MaterializeTable(t, reader, name, decls, c);
    MaterializeSettles(t, reader, name, decls, c);
    SettledStays(t', reader, name, decls, later);
  }

  lemma SettledStays(t: Table, reader: Reader, name: string, decls: seq<Decl>, c: Now)
    requires Settled(t, reader, name, decls)
    ensures var t' := MaterializeTable(t, reader, name, decls, c);
      forall id :: (id in t' <==> id in t) && (id in t ==> SameButTime(t[id], t'[id]))
  {
    var u, kept := UpsertAll(t, reader, name, decls, c), KeptUids(reader, name, decls);
    forall id ensures (id in u <==> id in t) && (id in t ==> SameButTime(t[id], u[id])) {
      UpsertSettled(t, reader, name, decls, c, id);
    }
    assert Doomed(u, name, kept) == {};
  }

  // ---- placeholders and outages -------------------------------------------

  /** Placeholders fall outside the outage guarantee of fetched events: their stamp is the clock of
      `materialize`, never the fetch's, so a live placeholder is taken as removed exactly when the
      archive pass runs the grace period later without another `materialize`. */
  lemma OutageRemovesPlaceholders(
    settings: Settings, sources: map<string, Source>, t: Table, reader: Reader, name: string, decls: seq<Decl>, c: Now,
    d: Decl, later: Time)
    requires MastersKeyed(t, name) && SlotsOwned(t, reader, name, decls) && d in decls && reader.parse(d).Some?
    ensures var t', id := MaterializeTable(t, reader, name, decls, c), IdOfDecl(reader, name, d);
      && id in t'
      && (Archive.SweepReason(settings, sources, t'[id], later) == Some(Removed)
          <==> && settings.archiveGraceHours.Some? && later - c.now >= settings.archiveGraceHours.value * HOUR
               && Archive.FetchedAt(sources, name) != Some(c.now)
               && !Archive.Permanent(settings, sources, name) && !RowExpired(settings, t'[id], later))
  {
    DeclaredStays(t, reader, name, decls, c, d);
  }
}
