/** The data that flows through the pipeline (app/schema.py, app/models.py).
    A time is a naive-UTC instant in microseconds.  JSON text columns are held as
    the lists they load to. */
module Schema {
  import opened Wrappers
  import opened Text

  type Time = int
  const HOUR: int := 3_600_000_000
  const DAY: int := 24 * HOUR

  datatype ImageRef = ImageRef(url: string, alt: Option<string>, sourceUrl: Option<string>)

  datatype ScrapedEvent = ScrapedEvent(
    uid: Option<string>, title: string, description: Option<string>, location: Option<string>,
    url: Option<string>, images: seq<ImageRef>, startAt: Option<Time>, endAt: Option<Time>,
    timezone: Option<string>, allDay: bool, rrule: Option<string>, recurrenceId: Option<Time>,
    exdates: seq<Time>, categories: seq<string>)

  /** What is known of `isoformat`: its texts hold a dash and no bar, two instants never share one,
      and none ends in a colon and another instant's text. */
  ghost predicate IsoLike(iso: Time -> string) {
    && (forall a: Time :: '-' in iso(a) && '|' !in iso(a))
    && (forall a: Time, b: Time :: iso(a) == iso(b) ==> a == b)
    && (forall a: Time, b: Time :: !EndsWith(iso(a), ":" + iso(b)))
  }

  predicate EndsWith(s: string, end: string) {
    |end| <= |s| && s[|s| - |end|..] == end
  }

  /** The instant's distance from zero, counted out; it shows that the type below has values. */
  function Tally(t: Time): string {
    "-" + seq(if t >= 0 then 2 * t else -2 * t - 1, _ => '1')
  }

  type IsoFormat = iso: Time -> string | IsoLike(iso) witness (TallyIsIsoLike(); Tally)

  lemma NoColonNoEnd(s: string, end: string)
    requires ':' !in s
    ensures !EndsWith(s, ":" + end)
  {
    var colon := ":" + end;
    if |colon| <= |s| { assert s[|s| - |colon|..][0] != colon[0]; }
  }

  lemma TallyIsIsoLike()
    ensures IsoLike(Tally)
  {
    forall a: Time ensures '-' in Tally(a) && '|' !in Tally(a) && ':' !in Tally(a) {
      assert Tally(a)[0] == '-';
    }
    forall a: Time, b: Time | Tally(a) == Tally(b) ensures a == b {
      assert |Tally(a)| == |Tally(b)|;
    }
    forall a: Time, b: Time ensures !EndsWith(Tally(a), ":" + Tally(b)) {
      NoColonNoEnd(Tally(a), Tally(b));
    }
  }

  /** `isoformat`: some such function. */
  const ISO: IsoFormat

  /** `stable_id`: the SHA-256 of a key, kept as the key itself (collision-free). */
  datatype EventId = IdOf(key: string)

  /** The canonical payload `content_hash` fingerprints.  A sorted list is held as a
      multiset: two lists sort to the same list exactly when their multisets agree. */
  datatype Payload = Payload(
    title: string, description: Option<string>, location: Option<string>, url: Option<string>,
    imageUrls: seq<string>, startAt: Option<Time>, endAt: Option<Time>, timezone: Option<string>,
    allDay: bool, rrule: Option<string>, exdates: multiset<Time>, categories: multiset<string>)

  /** `content_hash`: the SHA-256 of a payload, kept as the payload itself. */
  datatype Digest = Sha256(payload: Payload)

  datatype Reason = Expired | Removed | Cancelled

  /** A row of the Event table. */
  datatype Event = Event(
    source: string, uid: Option<string>, title: string, description: Option<string>,
    location: Option<string>, url: Option<string>, images: seq<ImageRef>, startAt: Option<Time>,
    endAt: Option<Time>, timezone: Option<string>, allDay: bool, rrule: Option<string>,
    recurrenceId: Option<Time>, exdates: seq<Time>, redirectTo: Option<EventId>,
    priority: Option<int>, categories: string, contentHash: Digest, lastSeenAt: Option<Time>,
    archivedAt: Option<Time>, archivedReason: Option<Reason>, pinned: bool, placeholder: bool,
    updatedAt: Time)

  datatype Source = Source(gatherer: string, lastFetchedAt: Option<Time>)

  datatype FieldName =
    | FTitle | FDescription | FLocation | FUrl | FImages | FStartAt | FEndAt
    | FTimezone | FAllDay | FRrule | FExdates | FCategories

  datatype ConflictStatus = Pending | Ignored | Applied | Merged

  /** A row of the EventConflict table; its id is its position in the table. */
  datatype Conflict = Conflict(
    eventId: EventId, incoming: ScrapedEvent, changedFields: seq<FieldName>,
    status: ConflictStatus, updatedAt: Time, resolvedAt: Option<Time>)

  /** An incoming event annotated by the sieve. */
  datatype Classified = Classified(
    id: EventId, contentHash: Digest, event: ScrapedEvent, changedFields: seq<FieldName>)

  datatype SieveResult = SieveResult(
    added: seq<Classified>, updated: seq<Classified>, unchangedCount: nat, unchangedIds: seq<EventId>,
    archivedIds: seq<EventId>, conflicts: seq<Classified>, dropped: nat)

  type Table = map<EventId, Event>

  /** The committed database. */
  datatype State = State(
    events: Table, sources: map<string, Source>, conflicts: seq<Conflict>)

  /** `if value:` on an optional string. */
  predicate Truthy(s: Option<string>) {
    s.Some? && s.value != ""
  }

  function NonEmpty(parts: seq<string>): seq<string> {
    if parts == [] then []
    else (if parts[0] == "" then [] else [parts[0]]) + NonEmpty(parts[1..])
  }

  /** `[c for c in (categories or "").split(",") if c]`. */
  function LoadCategories(text: string): seq<string> {
    NonEmpty(Split(',', text))
  }

  /** `",".join(sorted(set(categories)))`. */
  function DumpCategories(names: seq<string>): string {
    Join(',', SortedSet(names))
  }

  /** What the categorize stage guarantees: sorted, distinct, comma-free, non-empty names. */
  ghost predicate Clean(names: seq<string>) {
    StrictlySorted(names) && forall c :: c in names ==> c != "" && ',' !in c
  }

  lemma {:induction false} NonEmptyOfClean(parts: seq<string>)
    requires "" !in parts
    ensures NonEmpty(parts) == parts
  {
    if parts != [] {
      NonEmptyOfClean(parts[1..]);
    }
  }

  /** Clean names survive the trip through the comma-joined column, as a list. */
  lemma CategoriesRoundTrip(names: seq<string>)
    requires Clean(names)
    ensures LoadCategories(DumpCategories(names)) == names
    ensures DumpCategories(names) == "" <==> names == []
    ensures names != [] ==> Split(',', DumpCategories(names)) == names
  {
    SortedSetOfSorted(names);
    if names == [] {
      assert Split(',', "") == [""];
      assert NonEmpty([""]) == NonEmpty([""][1..]) == [];
    } else {
      SplitJoin(',', names);
      NonEmptyOfClean(names);
      assert names[0] in names;
      assert DumpCategories(names) == "" ==> Split(',', DumpCategories(names)) == [""];
    }
  }
}

/** The database session every stage writes through. */
module Database {
  import opened Schema

  class Store {
    var events: Table
    var sources: map<string, Source>
    var conflicts: seq<Conflict>

    constructor ()
      ensures Snapshot() == State(map[], map[], [])
    {
      events, sources, conflicts := map[], map[], [];
    }

    function Snapshot(): State
      reads this
    {
      State(events, sources, conflicts)
    }
  }
}
