/** Change detection against the database (app/sieve/sieve.py). */
module Sieve {
  import opened Wrappers
  import opened Text
  import opened Schema
  import opened Identity
  import opened Expiry

  // ---- relevance and default location ----------------------------------

  function Relevant(settings: Settings, now: Time, events: seq<ScrapedEvent>): seq<ScrapedEvent> {
    if events == [] then []
    else (if EventRelevant(settings, events[0], now) then [events[0]] else []) + Relevant(settings, now, events[1..])
  }

  /** `_relevance`: with both limits off the list passes through untouched. */
  function Relevance(settings: Settings, now: Time, events: seq<ScrapedEvent>): seq<ScrapedEvent> {
    if settings.expirePastDays.None? && settings.expireFutureDays.None? then events
    else Relevant(settings, now, events)
  }

  /** The shortcut for a disabled window agrees with the filter. */
  lemma {:induction false} RelevanceIsFilter(settings: Settings, now: Time, events: seq<ScrapedEvent>)
    ensures Relevance(settings, now, events) == Relevant(settings, now, events)
    ensures forall e :: e in Relevant(settings, now, events) <==> e in events && EventRelevant(settings, e, now)
    ensures |Relevant(settings, now, events)| <= |events|
  {
    if events != [] {
      RelevanceIsFilter(settings, now, events[1..]);
      assert events == [events[0]] + events[1..];
    }
  }

  /** What passes the window, limit by limit: an event is kept exactly when it was gathered, does not start
      too far ahead, and has not ended too long ago. */
  lemma WindowExactly(settings: Settings, now: Time, events: seq<ScrapedEvent>, e: ScrapedEvent)
    ensures e in Relevance(settings, now, events)
       <==> && e in events
            && NotTooEarly(settings, e.startAt, now)
            && NotOver(settings, FinalInstant(settings, e.startAt, e.endAt, e.rrule), now)
  {
    RelevanceIsFilter(settings, now, events);
    RelevantMeaning(settings, e, now);
  }

  /** One limit is at least as wide as another; no limit is the widest. */
  predicate AtLeast(wide: Option<int>, narrow: Option<int>) {
    wide.None? || (narrow.Some? && wide.value >= narrow.value)
  }

  /** Wider limits never drop more. */
  lemma WiderWindowKeepsMore(settings: Settings, wider: Settings, now: Time, events: seq<ScrapedEvent>)
    requires wider.lastOccurrence == settings.lastOccurrence
    requires AtLeast(wider.expirePastDays, settings.expirePastDays)
    requires AtLeast(wider.expireFutureDays, settings.expireFutureDays)
    ensures forall e | e in Relevance(settings, now, events) :: e in Relevance(wider, now, events)
  {
    forall e | e in Relevance(settings, now, events) ensures e in Relevance(wider, now, events) {
      WindowExactly(settings, now, events, e);
      WindowExactly(wider, now, events, e);
    }
  }

  /** Being too early is undone by time: without a past limit an event that passes once passes ever
      after, and every gathered event passes from its start less the future limit on.  Nothing else
      is: without a future limit what was dropped stays dropped. */
  lemma TimeOpensTheFuture(settings: Settings, now: Time, later: Time, events: seq<ScrapedEvent>, e: ScrapedEvent)
    requires now <= later && e in events
    ensures settings.expirePastDays.None? ==>
      && (e in Relevance(settings, now, events) ==> e in Relevance(settings, later, events))
      && (e.startAt.Some? && settings.expireFutureDays.Some?
          && later >= e.startAt.value - settings.expireFutureDays.value * 86_400_000_000 ==>
            e in Relevance(settings, later, events))
    ensures settings.expireFutureDays.None? && e in Relevance(settings, later, events) ==>
      e in Relevance(settings, now, events)
  {
    WindowExactly(settings, now, events, e);
    WindowExactly(settings, later, events, e);
  }

  function Located(default: Option<string>, e: ScrapedEvent): ScrapedEvent {
    if Truthy(default) && (e.location.None? || Strip(e.location.value) == "") then e.(location := default) else e
  }

  /** A location with anything but white space in it is kept, any other becomes the default, if there is
      one; nothing else of the event moves. */
  lemma LocationKept(default: Option<string>, e: ScrapedEvent)
    ensures var given := e.location.Some? && !AllSpace(e.location.value);
      var e' := Located(default, e);
      && e'.location == (if given || default.None? || default.value == "" then e.location else default)
      && e' == e.(location := e'.location)
  {
    if e.location.Some? { BlankExactly(e.location.value); }
  }

  function LocatedAll(default: Option<string>, events: seq<ScrapedEvent>): seq<ScrapedEvent> {
    seq(|events|, i requires 0 <= i < |events| => Located(default, events[i]))
  }

  method MergeDefaultLocation(events: seq<ScrapedEvent>, default: Option<string>) returns (out: seq<ScrapedEvent>)
    ensures out == LocatedAll(default, events)
  {
    out := events;
    if !Truthy(default) {
      return;
    }
    var i := 0;
    while i < |out|
      invariant 0 <= i <= |out| == |events|
      invariant out[..i] == LocatedAll(default, events)[..i] && out[i..] == events[i..]
    {
      if out[i].location.None? || Strip(out[i].location.value) == "" {
        out := out[i := out[i].(location := default)];
      }
      i := i + 1;
    }
  }

  // ---- field diffing ---------------------------------------------------

  const CHANGED_FIELDS: seq<FieldName> :=
    [FTitle, FDescription, FLocation, FUrl, FImages, FStartAt, FEndAt, FTimezone, FAllDay, FRrule, FExdates,
     FCategories]

  predicate Differs(field: FieldName, e: ScrapedEvent, stored: Event) {
    match field
    case FTitle => e.title != stored.title
    case FDescription => e.description != stored.description
    case FLocation => e.location != stored.location
    case FUrl => e.url != stored.url
    case FImages => e.images != stored.images
    case FStartAt => e.startAt != stored.startAt
    case FEndAt => e.endAt != stored.endAt
    case FTimezone => e.timezone != stored.timezone
    case FAllDay => e.allDay != stored.allDay
    case FRrule => e.rrule != stored.rrule
    case FExdates => e.exdates != stored.exdates
    case FCategories =>
      multiset(e.categories) != multiset(if stored.categories != "" then Split(',', stored.categories) else [])
  }

  function Diff(fields: seq<FieldName>, e: ScrapedEvent, stored: Event): seq<FieldName> {
    if fields == [] then []
    else Diff(Front(fields), e, stored) + if Differs(Last(fields), e, stored) then [Last(fields)] else []
  }

  method ChangedFields(e: ScrapedEvent, stored: Event) returns (changed: seq<FieldName>)
    ensures changed == Diff(CHANGED_FIELDS, e, stored)
  {
    changed := [];
    var i := 0;
    while i < |CHANGED_FIELDS|
      invariant 0 <= i <= |CHANGED_FIELDS|
      invariant changed == Diff(CHANGED_FIELDS[..i], e, stored)
    {
      assert Front(CHANGED_FIELDS[..i + 1]) == CHANGED_FIELDS[..i];
      if Differs(CHANGED_FIELDS[i], e, stored) {
        changed := changed + [CHANGED_FIELDS[i]];
      }
      i := i + 1;
    }
    assert CHANGED_FIELDS[..i] == CHANGED_FIELDS;
  }

  lemma {:induction false} DiffMembers(fields: seq<FieldName>, e: ScrapedEvent, stored: Event)
    ensures forall f :: f in Diff(fields, e, stored) <==> f in fields && Differs(f, e, stored)
  {
    if fields != [] {
      DiffMembers(Front(fields), e, stored);
      assert fields == Front(fields) + [Last(fields)];
    }
  }

  /** The event brings what the columns hold, to the letter, captions and the order of exceptions included;
      only the order of categories does not count. */
  ghost predicate SameColumns(e: ScrapedEvent, stored: Event) {
    && e.title == stored.title && e.description == stored.description && e.location == stored.location
    && e.url == stored.url && e.images == stored.images && e.startAt == stored.startAt && e.endAt == stored.endAt
    && e.timezone == stored.timezone && e.allDay == stored.allDay && e.rrule == stored.rrule
    && e.exdates == stored.exdates
    && multiset(e.categories) == multiset(if stored.categories == "" then [] else Split(',', stored.categories))
  }

  /** No field is reported exactly then. */
  lemma NothingReportedExactly(e: ScrapedEvent, stored: Event)
    ensures Diff(CHANGED_FIELDS, e, stored) == [] <==> SameColumns(e, stored)
  {
    DiffMembers(CHANGED_FIELDS, e, stored);
    if Diff(CHANGED_FIELDS, e, stored) == [] {
      forall f ensures !Differs(f, e, stored) { EveryFieldListed(f); }
      AllFieldsAgree(e, stored);
    } else {
      var f := Diff(CHANGED_FIELDS, e, stored)[0];
      assert f in Diff(CHANGED_FIELDS, e, stored) && Differs(f, e, stored);
    }
  }

  lemma AllFieldsAgree(e: ScrapedEvent, stored: Event)
    requires forall f :: !Differs(f, e, stored)
    ensures SameColumns(e, stored)
  {
    hide Split;
    assert e.title == stored.title by { assert !Differs(FTitle, e, stored); }
    assert e.description == stored.description by { assert !Differs(FDescription, e, stored); }
    assert e.location == stored.location by { assert !Differs(FLocation, e, stored); }
    assert e.url == stored.url by { assert !Differs(FUrl, e, stored); }
    assert e.images == stored.images by { assert !Differs(FImages, e, stored); }
    assert e.startAt == stored.startAt by { assert !Differs(FStartAt, e, stored); }
    assert e.endAt == stored.endAt by { assert !Differs(FEndAt, e, stored); }
    assert e.timezone == stored.timezone by { assert !Differs(FTimezone, e, stored); }
    assert e.allDay == stored.allDay by { assert !Differs(FAllDay, e, stored); }
    assert e.rrule == stored.rrule by { assert !Differs(FRrule, e, stored); }
    assert e.exdates == stored.exdates by { assert !Differs(FExdates, e, stored); }
    assert !Differs(FCategories, e, stored);
  }

  lemma EveryFieldListed(f: FieldName)
    ensures f in CHANGED_FIELDS
  {
    var c := CHANGED_FIELDS;
    assert c[0] == FTitle && c[1] == FDescription && c[2] == FLocation && c[3] == FUrl && c[4] == FImages
        && c[5] == FStartAt && c[6] == FEndAt && c[7] == FTimezone && c[8] == FAllDay && c[9] == FRrule
        && c[10] == FExdates && c[11] == FCategories;
  }

  lemma {:induction false} NonEmptySplitClean(parts: seq<string>, names: seq<string>)
    requires multiset(parts) == multiset(names) && "" !in names
    ensures NonEmpty(parts) == parts
  {
    assert forall p :: p in parts <==> p in multiset(parts);
    assert forall p :: p in names <==> p in multiset(names);
    NonEmptyOfClean(parts);
  }

  lemma CategoriesAgree(e: ScrapedEvent, stored: Event)
    requires Clean(e.categories) && !Differs(FCategories, e, stored)
    ensures multiset(LoadCategories(stored.categories)) == multiset(e.categories)
  {
    if stored.categories != "" {
      NonEmptySplitClean(Split(',', stored.categories), e.categories);
    } else {
      assert Split(',', "") == [""] && NonEmpty([""]) == NonEmpty([""][1..]) == [];
    }
  }

  /** A changed hash always has a field to show for it: on a coherent row, an incoming event
      with no differing field has the row's own hash. */
  lemma ChangeHasAField(e: ScrapedEvent, stored: Event)
    requires Coherent(stored) && Clean(e.categories)
    ensures stored.contentHash != ContentHash(e) ==> Diff(CHANGED_FIELDS, e, stored) != []
  {
    if Diff(CHANGED_FIELDS, e, stored) == [] {
      DiffMembers(CHANGED_FIELDS, e, stored);
      forall f ensures !Differs(f, e, stored) { EveryFieldListed(f); }
      CategoriesAgree(e, stored);
      SameFieldsSameHash(e, stored);
    }
  }

  lemma SameFieldsSameHash(e: ScrapedEvent, stored: Event)
    requires multiset(LoadCategories(stored.categories)) == multiset(e.categories)
    requires forall f :: !Differs(f, e, stored)
    ensures ContentHash(e) == ContentHash(ReadBack(stored))
  {
    AllFieldsAgree(e, stored);
  }

  // ---- verdicts --------------------------------------------------------

  datatype Verdict = New | Frozen | Disputed | Changed | Same

  function VerdictOf(table: Table, name: string, e: ScrapedEvent): Verdict {
    var id := StableId(name, e);
    if id !in table then New
    else if table[id].archivedAt.Some? then Frozen
    else if table[id].contentHash == ContentHash(e) then Same
    else if table[id].pinned then Disputed
    else Changed
  }

  /** The verdict on an event, case by case.  On a row whose hash is right, "same" means that the event
      brings what the row holds, as far as the hash sees it. */
  lemma VerdictExactly(table: Table, name: string, e: ScrapedEvent)
    ensures var id, v := StableId(name, e), VerdictOf(table, name, e);
      && (v == New <==> id !in table)
      && (v == Frozen <==> id in table && table[id].archivedAt.Some?)
      && (id in table && table[id].archivedAt.None? && Coherent(table[id]) ==>
            && (v == Same <==> SameHashed(e, ReadBack(table[id])))
            && (v == Disputed <==> !SameHashed(e, ReadBack(table[id])) && table[id].pinned)
            && (v == Changed <==> !SameHashed(e, ReadBack(table[id])) && !table[id].pinned))
  {
    hide StableId, ContentHash, SameHashed, ReadBack;
    if StableId(name, e) in table { HashExactly(e, ReadBack(table[StableId(name, e)])); }
  }

  function Annotated(table: Table, name: string, e: ScrapedEvent): Classified {
    var id := StableId(name, e);
    var changed := if VerdictOf(table, name, e) in {Disputed, Changed} then Diff(CHANGED_FIELDS, e, table[id]) else [];
    Classified(id, ContentHash(e), e, changed)
  }

  /** The events given one of the verdicts `vs`, annotated, in order. */
  function Pick(table: Table, name: string, kept: seq<ScrapedEvent>, vs: set<Verdict>): seq<Classified> {
    if kept == [] then []
    else Pick(table, name, Front(kept), vs)
         + if VerdictOf(table, name, Last(kept)) in vs then [Annotated(table, name, Last(kept))] else []
  }

  function Ids(cs: seq<Classified>): seq<EventId> {
    seq(|cs|, i requires 0 <= i < |cs| => cs[i].id)
  }

  function EventIds(name: string, events: seq<ScrapedEvent>): seq<EventId> {
    seq(|events|, i requires 0 <= i < |events| => StableId(name, events[i]))
  }

  function Verdicts(table: Table, name: string, kept: seq<ScrapedEvent>, dropped: nat): SieveResult {
    SieveResult(
      Pick(table, name, kept, {New}), Pick(table, name, kept, {Changed}),
      |Pick(table, name, kept, {Same})|, Ids(Pick(table, name, kept, {Disputed, Same})),
      Ids(Pick(table, name, kept, {Frozen})), Pick(table, name, kept, {Disputed}), dropped)
  }

  /** A sieve result with one more annotated event filed under verdict `v`. */
  ghost function Filed(r: SieveResult, v: Verdict, c: Classified): SieveResult {
    match v
    case New => r.(added := r.added + [c])
    case Frozen => r.(archivedIds := r.archivedIds + [c.id])
    case Disputed => r.(conflicts := r.conflicts + [c], unchangedIds := r.unchangedIds + [c.id])
    case Changed => r.(updated := r.updated + [c])
    case Same => r.(unchangedCount := r.unchangedCount + 1, unchangedIds := r.unchangedIds + [c.id])
  }

  lemma IdsSnoc(cs: seq<Classified>, c: Classified)
    ensures Ids(cs + [c]) == Ids(cs) + [c.id]
    ensures multiset(Ids(cs + [c])) == multiset(Ids(cs)) + multiset{c.id}
  {
    assert Ids(cs + [c]) == Ids(cs) + [c.id];
  }

  lemma PickSnoc(table: Table, name: string, kept: seq<ScrapedEvent>, vs: set<Verdict>)
    requires kept != []
    ensures var before, c := Pick(table, name, Front(kept), vs), Annotated(table, name, Last(kept));
      && Pick(table, name, kept, vs) == (if VerdictOf(table, name, Last(kept)) in vs then before + [c] else before)
      && Ids(Pick(table, name, kept, vs))
         == (if VerdictOf(table, name, Last(kept)) in vs then Ids(before) + [c.id] else Ids(before))
  {
    IdsSnoc(Pick(table, name, Front(kept), vs), Annotated(table, name, Last(kept)));
    assert Pick(table, name, Front(kept), vs) + [] == Pick(table, name, Front(kept), vs);
  }

  lemma VerdictsSnoc(table: Table, name: string, kept: seq<ScrapedEvent>, dropped: nat)
    requires kept != []
    ensures var before, e := Verdicts(table, name, Front(kept), dropped), Last(kept);
      Verdicts(table, name, kept, dropped) == Filed(before, VerdictOf(table, name, e), Annotated(table, name, e))
  {
    hide VerdictOf, Annotated, Pick, Ids;
    PickSnoc(table, name, kept, {New});
    PickSnoc(table, name, kept, {Changed});
    PickSnoc(table, name, kept, {Same});
    PickSnoc(table, name, kept, {Disputed});
    PickSnoc(table, name, kept, {Frozen});
    PickSnoc(table, name, kept, {Disputed, Same});
  }

  /** What survives relevance filtering, with locations filled in. */
  function Kept(settings: Settings, default: Option<string>, now: Time, events: seq<ScrapedEvent>): seq<ScrapedEvent> {
    LocatedAll(default, Relevance(settings, now, events))
  }

  function SieveOf(
    settings: Settings, name: string, default: Option<string>, now: Time, table: Table, events: seq<ScrapedEvent>)
    : SieveResult
  {
    RelevanceIsFilter(settings, now, events);
    Verdicts(table, name, Kept(settings, default, now, events), |events| - |Relevance(settings, now, events)|)
  }

  /** One round of the classification loop: file the event under its bucket. */
  method FileEvent(table: Table, name: string, e: ScrapedEvent, r: SieveResult) returns (r': SieveResult)
    ensures r' == Filed(r, VerdictOf(table, name, e), Annotated(table, name, e))
  {
    var id := StableId(name, e);
    var digest := ContentHash(e);
    if id !in table {
      r' := r.(added := r.added + [Classified(id, digest, e, [])]);
    } else if table[id].archivedAt.Some? {
      r' := r.(archivedIds := r.archivedIds + [id]);
    } else if table[id].pinned {
      if table[id].contentHash != digest {
        var changed := ChangedFields(e, table[id]);
        r' := r.(
          conflicts := r.conflicts + [Classified(id, digest, e, changed)], unchangedIds := r.unchangedIds + [id]);
      } else {
        r' := r.(unchangedCount := r.unchangedCount + 1, unchangedIds := r.unchangedIds + [id]);
      }
    } else {
      if table[id].contentHash != digest {
        var changed := ChangedFields(e, table[id]);
        r' := r.(updated := r.updated + [Classified(id, digest, e, changed)]);
      } else {
        r' := r.(unchangedCount := r.unchangedCount + 1, unchangedIds := r.unchangedIds + [id]);
      }
    }
  }

  method FileAll(table: Table, name: string, kept: seq<ScrapedEvent>, dropped: nat) returns (r: SieveResult)
    ensures r == Verdicts(table, name, kept, dropped)
  {
    r := SieveResult([], [], 0, [], [], [], dropped);
    var i := 0;
    while i < |kept|
      invariant 0 <= i <= |kept|
      invariant r == Verdicts(table, name, kept[..i], dropped)
    {
      assert Front(kept[..i + 1]) == kept[..i];
      VerdictsSnoc(table, name, kept[..i + 1], dropped);
      r := FileEvent(table, name, kept[i], r);
      i := i + 1;
    }
    assert kept[..i] == kept;
  }

  method Classify(
    settings: Settings, name: string, default: Option<string>, now: Time, table: Table, events: seq<ScrapedEvent>)
    returns (r: SieveResult)
    ensures r == SieveOf(settings, name, default, now, table, events)
  {
    RelevanceIsFilter(settings, now, events);
    var relevant := Relevance(settings, now, events);
    var kept := MergeDefaultLocation(relevant, default);
    r := FileAll(table, name, kept, |events| - |relevant|);
  }

  // ---- what the buckets hold -------------------------------------------

  ghost predicate DistinctIds(name: string, events: seq<ScrapedEvent>) {
    forall i, j :: 0 <= i < j < |events| ==> StableId(name, events[i]) != StableId(name, events[j])
  }

  /** The batch lists an event with this id. */
  ghost predicate Lists(name: string, events: seq<ScrapedEvent>, id: EventId) {
    exists e :: e in events && StableId(name, e) == id
  }

  lemma {:induction false} PickMembers(table: Table, name: string, kept: seq<ScrapedEvent>, vs: set<Verdict>)
    ensures forall c :: c in Pick(table, name, kept, vs)
                   <==> exists e :: e in kept && VerdictOf(table, name, e) in vs && c == Annotated(table, name, e)
  {
    if kept != [] {
      PickMembers(table, name, Front(kept), vs);
      assert kept == Front(kept) + [Last(kept)];
    }
  }

  ghost predicate DistinctClassified(cs: seq<Classified>) {
    forall i, j :: 0 <= i < j < |cs| ==> cs[i].id != cs[j].id
  }

  lemma {:induction false} PickDistinct(table: Table, name: string, kept: seq<ScrapedEvent>, vs: set<Verdict>)
    requires DistinctIds(name, kept)
    ensures DistinctClassified(Pick(table, name, kept, vs))
  {
    if kept != [] {
      PickDistinct(table, name, Front(kept), vs);
      PickMembers(table, name, Front(kept), vs);
      var front := Pick(table, name, Front(kept), vs);
      forall i | 0 <= i < |front| ensures front[i].id != StableId(name, Last(kept)) {
        assert front[i] in front;
        var e :| e in Front(kept) && front[i] == Annotated(table, name, e);
        var k :| 0 <= k < |Front(kept)| && Front(kept)[k] == e;
        assert kept[k] == e;
      }
    }
  }

  /** A kept event's id shows up in the picked list exactly when its verdict was picked. */
  lemma PickById(table: Table, name: string, kept: seq<ScrapedEvent>, vs: set<Verdict>, e: ScrapedEvent)
    requires DistinctIds(name, kept) && e in kept
    ensures StableId(name, e) in Ids(Pick(table, name, kept, vs)) <==> VerdictOf(table, name, e) in vs
    ensures Annotated(table, name, e) in Pick(table, name, kept, vs) <==> VerdictOf(table, name, e) in vs
  {
    PickMembers(table, name, kept, vs);
    var cs, id := Pick(table, name, kept, vs), StableId(name, e);
    if VerdictOf(table, name, e) in vs {
      assert Annotated(table, name, e) in cs;
      var k :| 0 <= k < |cs| && cs[k] == Annotated(table, name, e);
      assert Ids(cs)[k] == id;
    }
    if id in Ids(cs) || Annotated(table, name, e) in cs {
      var k :| 0 <= k < |cs| && cs[k].id == id;
      assert cs[k] in cs;
      var e' :| e' in kept && VerdictOf(table, name, e') in vs && cs[k] == Annotated(table, name, e');
      SameIdSameEvent(name, kept, e, e');
    }
  }

  lemma SameIdSameEvent(name: string, kept: seq<ScrapedEvent>, e: ScrapedEvent, e': ScrapedEvent)
    requires DistinctIds(name, kept) && e in kept && e' in kept && StableId(name, e) == StableId(name, e')
    ensures e == e'
  {
    var i :| 0 <= i < |kept| && kept[i] == e;
    var j :| 0 <= j < |kept| && kept[j] == e';
  }

  lemma PickUnlisted(table: Table, name: string, kept: seq<ScrapedEvent>, vs: set<Verdict>, id: EventId)
    requires !Lists(name, kept, id)
    ensures id !in Ids(Pick(table, name, kept, vs))
  {
    PickMembers(table, name, kept, vs);
    var cs := Pick(table, name, kept, vs);
    forall k | 0 <= k < |cs| ensures Ids(cs)[k] != id {
      assert cs[k] in cs;
    }
  }

  /** The ids picked, with multiplicity. */
  ghost function PickedIds(table: Table, name: string, kept: seq<ScrapedEvent>, vs: set<Verdict>): multiset<EventId> {
    multiset(Ids(Pick(table, name, kept, vs)))
  }

  lemma PickedIdsSnoc(table: Table, name: string, kept: seq<ScrapedEvent>, vs: set<Verdict>)
    requires kept != []
    ensures PickedIds(table, name, kept, vs) == PickedIds(table, name, Front(kept), vs)
              + if VerdictOf(table, name, Last(kept)) in vs then multiset{StableId(name, Last(kept))} else multiset{}
  {
    IdsSnoc(Pick(table, name, Front(kept), vs), Annotated(table, name, Last(kept)));
    assert Pick(table, name, Front(kept), vs) + [] == Pick(table, name, Front(kept), vs);
  }

  /** Picking two disjoint sets of verdicts at once is picking them one after the other. */
  lemma {:induction false} PickUnion(
    table: Table, name: string, kept: seq<ScrapedEvent>, a: set<Verdict>, b: set<Verdict>)
    requires a !! b
    ensures PickedIds(table, name, kept, a + b) == PickedIds(table, name, kept, a) + PickedIds(table, name, kept, b)
  {
    if kept != [] {
      PickUnion(table, name, Front(kept), a, b);
      PickedIdsSnoc(table, name, kept, a + b);
      PickedIdsSnoc(table, name, kept, a);
      PickedIdsSnoc(table, name, kept, b);
    }
  }

  lemma {:induction false} PickEverything(table: Table, name: string, kept: seq<ScrapedEvent>, vs: set<Verdict>)
    requires forall v: Verdict :: v in vs
    ensures PickedIds(table, name, kept, vs) == multiset(EventIds(name, kept))
  {
    if kept != [] {
      PickEverything(table, name, Front(kept), vs);
      PickedIdsSnoc(table, name, kept, vs);
      assert EventIds(name, kept) == EventIds(name, Front(kept)) + [StableId(name, Last(kept))];
    }
  }

  /** The picked ids of the five verdicts, together, are the batch's ids. */
  lemma PicksPartition(
    table: Table, name: string, kept: seq<ScrapedEvent>,
    a: set<Verdict>, b: set<Verdict>, c: set<Verdict>, d: set<Verdict>)
    requires a !! b !! c !! d && forall v: Verdict :: v in a + (b + (c + d))
    ensures PickedIds(table, name, kept, a)
              + (PickedIds(table, name, kept, b) + (PickedIds(table, name, kept, c) + PickedIds(table, name, kept, d)))
         == multiset(EventIds(name, kept))
  {
    PickUnion(table, name, kept, c, d);
    PickUnion(table, name, kept, b, c + d);
    PickUnion(table, name, kept, a, b + (c + d));
    PickEverything(table, name, kept, a + (b + (c + d)));
  }

  /** Every kept event lands in exactly one bucket: the buckets' ids are the kept ids, each as
      often as it was gathered; and `unchangedIds` is the unchanged events plus the conflicts. */
  lemma BucketsPartition(table: Table, name: string, kept: seq<ScrapedEvent>, dropped: nat)
    ensures var r := Verdicts(table, name, kept, dropped);
      && multiset(Ids(r.added)) + (multiset(Ids(r.updated)) + (multiset(r.archivedIds) + multiset(r.unchangedIds)))
         == multiset(EventIds(name, kept))
      && multiset(r.unchangedIds) == multiset(Ids(r.conflicts)) + PickedIds(table, name, kept, {Same})
  {
    forall v: Verdict ensures v in {New} + ({Changed} + ({Frozen} + {Disputed, Same})) {
      match v { case New => case Changed => case Frozen => case Disputed => case Same => }
    }
    PicksPartition(table, name, kept, {New}, {Changed}, {Frozen}, {Disputed, Same});
    PickUnion(table, name, kept, {Disputed}, {Same});
    assert {Disputed} + {Same} == {Disputed, Same};
  }

  lemma {:induction false} BucketCounts(table: Table, name: string, kept: seq<ScrapedEvent>, dropped: nat)
    ensures var r := Verdicts(table, name, kept, dropped);
      && |r.added| + |r.updated| + |r.archivedIds| + |r.conflicts| + r.unchangedCount == |kept|
      && |r.unchangedIds| == r.unchangedCount + |r.conflicts|
  {
    if kept != [] {
      BucketCounts(table, name, Front(kept), dropped);
      VerdictsSnoc(table, name, kept, dropped);
    }
  }

  /** The six buckets, counts included, account for every gathered event. */
  lemma SieveAccountsForAll(
    settings: Settings, name: string, default: Option<string>, now: Time, table: Table, events: seq<ScrapedEvent>)
    ensures var r := SieveOf(settings, name, default, now, table, events);
      && r.dropped + |r.added| + |r.updated| + r.unchangedCount + |r.archivedIds| + |r.conflicts| == |events|
      && r.dropped == |events| - |Relevant(settings, now, events)|
      && multiset(Ids(r.added)) + (multiset(Ids(r.updated)) + (multiset(r.archivedIds) + multiset(r.unchangedIds)))
         == multiset(EventIds(name, Relevant(settings, now, events)))
  {
    RelevanceIsFilter(settings, now, events);
    var kept := Kept(settings, default, now, events);
    KeptIds(settings, name, default, now, events);
    BucketsPartition(table, name, kept, |events| - |Relevant(settings, now, events)|);
    BucketCounts(table, name, kept, |events| - |Relevant(settings, now, events)|);
  }

  lemma KeptIds(settings: Settings, name: string, default: Option<string>, now: Time, events: seq<ScrapedEvent>)
    ensures EventIds(name, Kept(settings, default, now, events)) == EventIds(name, Relevant(settings, now, events))
  {
    RelevanceIsFilter(settings, now, events);
    var relevant := Relevant(settings, now, events);
    forall i | 0 <= i < |relevant|
      ensures StableId(name, LocatedAll(default, relevant)[i]) == StableId(name, relevant[i])
    {
      LocatedKeepsId(name, default, relevant[i]);
    }
  }

  lemma LocatedKeepsId(name: string, default: Option<string>, e: ScrapedEvent)
    ensures StableId(name, Located(default, e)) == StableId(name, e)
  {
  }
}
