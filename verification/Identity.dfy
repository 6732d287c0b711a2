/** Stable identity and change detection (app/identity.py). */
module Identity {
  import opened Wrappers
  import opened Schema

  function StartText(e: ScrapedEvent): string {
    if e.startAt.Some? then ISO(e.startAt.value) else ""
  }

  /** What an event is keyed by within its source, without a recurrence override. */
  function Body(e: ScrapedEvent): string {
    if Truthy(e.uid) then e.uid.value else e.title + "|" + StartText(e)
  }

  function Suffix(recurrenceId: Option<Time>): string {
    if recurrenceId.Some? then ":" + ISO(recurrenceId.value) else ""
  }

  function StableId(source: string, e: ScrapedEvent): EventId {
    IdOf(source + ":" + Body(e) + Suffix(e.recurrenceId))
  }

  function ImageUrls(images: seq<ImageRef>): seq<string> {
    seq(|images|, i requires 0 <= i < |images| => images[i].url)
  }

  function ContentHash(e: ScrapedEvent): Digest {
    Sha256(Payload(
      e.title, e.description, e.location, e.url, ImageUrls(e.images), e.startAt, e.endAt,
      e.timezone, e.allDay, e.rrule, multiset(e.exdates), multiset(e.categories)))
  }

  /** What the hash sees of an event: everything but its uid, its override, its captions, where its images
      came from, and the order of its exceptions and categories. */
  ghost predicate SameHashed(a: ScrapedEvent, b: ScrapedEvent) {
    && a.title == b.title && a.description == b.description && a.location == b.location && a.url == b.url
    && |a.images| == |b.images| && (forall i | 0 <= i < |a.images| :: a.images[i].url == b.images[i].url)
    && a.startAt == b.startAt && a.endAt == b.endAt && a.timezone == b.timezone && a.allDay == b.allDay
    && a.rrule == b.rrule && multiset(a.exdates) == multiset(b.exdates)
    && multiset(a.categories) == multiset(b.categories)
  }

  lemma HashExactly(a: ScrapedEvent, b: ScrapedEvent)
    ensures ContentHash(a) == ContentHash(b) <==> SameHashed(a, b)
  {
    var u, v := ImageUrls(a.images), ImageUrls(b.images);
    if SameHashed(a, b) { assert u == v; }
    if ContentHash(a) == ContentHash(b) {
      assert ContentHash(a).payload == ContentHash(b).payload && u == v;
      forall i | 0 <= i < |a.images| ensures a.images[i].url == b.images[i].url {
        assert u[i] == v[i];
      }
    }
  }

  /** A stored row read back as a scraped event. */
  function ReadBack(row: Event): ScrapedEvent {
    ScrapedEvent(
      None, row.title, row.description, row.location, row.url, row.images, row.startAt, row.endAt,
      row.timezone, row.allDay, row.rrule, row.recurrenceId, row.exdates,
      LoadCategories(row.categories))
  }

  /** A row's stored hash is the hash of what the row holds. */
  ghost predicate Coherent(row: Event) {
    row.contentHash == ContentHash(ReadBack(row))
  }

  /** The id is one the source can produce. */
  ghost predicate MadeBy(source: string, id: EventId) {
    exists e :: StableId(source, e) == id
  }

  /** `longer` is `name`, a colon, and more. */
  predicate Extends(longer: string, name: string) {
    name + ":" <= longer
  }

  /** The names can produce no id in common. */
  predicate Apart(n1: string, n2: string) {
    n1 != n2 && !Extends(n1, n2) && !Extends(n2, n1)
  }

  lemma SameKeyExtends(name: string, longer: string, rest: string, rest': string)
    requires name + ":" + rest == longer + ":" + rest' && |name| <= |longer| && name != longer
    ensures Extends(longer, name)
  {
    var key := name + ":" + rest;
    assert key[..|name|] == name && key[|name|] == ':' && key[..|longer|] == longer;
    assert |name| == |longer| ==> name == longer;
    assert longer[..|name|] == key[..|name|] && longer[|name|] == ':';
    assert longer[..|name| + 1] == name + ":";
  }

  lemma ExtendedNameCollides(name: string, longer: string, e: ScrapedEvent)
    requires Extends(longer, name)
    ensures var rest := longer[|name| + 1..];
      StableId(longer, e.(uid := Some("u"))) == StableId(name, e.(uid := Some(rest + ":u")))
  {
    var rest := longer[|name| + 1..];
    assert longer == name + ":" + rest;
    assert longer + ":" + "u" == name + ":" + (rest + ":u");
  }

  lemma ApartNeverMeet(n1: string, e1: ScrapedEvent, n2: string, e2: ScrapedEvent)
    requires Apart(n1, n2)
    ensures StableId(n1, e1) != StableId(n2, e2)
  {
    if StableId(n1, e1) == StableId(n2, e2) {
      var r1, r2 := Body(e1) + Suffix(e1.recurrenceId), Body(e2) + Suffix(e2.recurrenceId);
      assert n1 + ":" + Body(e1) + Suffix(e1.recurrenceId) == n1 + ":" + r1;
      assert n2 + ":" + Body(e2) + Suffix(e2.recurrenceId) == n2 + ":" + r2;
      if |n1| <= |n2| { SameKeyExtends(n1, n2, r1, r2); } else { SameKeyExtends(n2, n1, r2, r1); }
    }
  }

  /** Two different sources can share an id exactly when one is named as the other, a colon, and more. */
  lemma CollisionsAreColonExtensions(n1: string, n2: string)
    requires n1 != n2
    ensures (exists id :: MadeBy(n1, id) && MadeBy(n2, id)) <==> Extends(n1, n2) || Extends(n2, n1)
  {
    if id :| MadeBy(n1, id) && MadeBy(n2, id) {
      var e1 :| StableId(n1, e1) == id;
      var e2 :| StableId(n2, e2) == id;
      if Apart(n1, n2) { ApartNeverMeet(n1, e1, n2, e2); }
    }
    if Extends(n1, n2) { ExtendedNameMeets(n2, n1); }
    if Extends(n2, n1) { ExtendedNameMeets(n1, n2); }
  }

  lemma ExtendedNameMeets(name: string, longer: string)
    requires Extends(longer, name)
    ensures exists id :: MadeBy(name, id) && MadeBy(longer, id)
  {
    var e := ScrapedEvent(None, "", None, None, None, [], None, None, None, false, None, None, [], []);
    ExtendedNameCollides(name, longer, e);
    var id := StableId(longer, e.(uid := Some("u")));
    assert MadeBy(longer, id) && MadeBy(name, id);
  }

  /** The text before the first colon. */
  function NamePrefix(key: string): string {
    if key == "" || key[0] == ':' then "" else [key[0]] + NamePrefix(key[1..])
  }

  lemma {:induction false} NamePrefixOf(name: string, rest: string)
    requires ':' !in name
    ensures NamePrefix(name + ":" + rest) == name
  {
    if name != "" {
      assert (name + ":" + rest)[1..] == name[1..] + ":" + rest;
      NamePrefixOf(name[1..], rest);
    }
  }

  /** A colon-free source name can be read off every id it produces. */
  lemma IdNamesSource(name: string, e: ScrapedEvent)
    requires ':' !in name
    ensures NamePrefix(StableId(name, e).key) == name
  {
    assert StableId(name, e).key == name + ":" + (Body(e) + Suffix(e.recurrenceId));
    NamePrefixOf(name, Body(e) + Suffix(e.recurrenceId));
  }

  /** Two colon-free sources never share an id. */
  lemma SourcesDoNotCollide(n1: string, e1: ScrapedEvent, n2: string, e2: ScrapedEvent)
    requires ':' !in n1 && ':' !in n2
    ensures StableId(n1, e1) == StableId(n2, e2) ==> n1 == n2
  {
    IdNamesSource(n1, e1);
    IdNamesSource(n2, e2);
  }

  /** Sources named apart never share an id. */
  lemma OneMaker(n1: string, n2: string, id: EventId)
    requires MadeBy(n1, id) && MadeBy(n2, id)
    ensures !Apart(n1, n2)
  {
    var e1 :| StableId(n1, e1) == id;
    var e2 :| StableId(n2, e2) == id;
    if Apart(n1, n2) { ApartNeverMeet(n1, e1, n2, e2); }
  }

  // ---- events of one source ---------------------------------------------

  /** What keys the first event is what keys the second, a colon, and the text of the override the
      second event has and the first lacks. */
  predicate SpellsOverride(a: ScrapedEvent, b: ScrapedEvent) {
    a.recurrenceId.None? && b.recurrenceId.Some? && Body(a) == Body(b) + Suffix(b.recurrenceId)
  }

  lemma SameTail(u: string, v: string, s: string, t: string)
    requires u + s == v + t && |s| <= |t|
    ensures EndsWith(t, s) && (|s| == |t| ==> u == v && s == t)
  {
    var whole := u + s;
    assert whole[|whole| - |s|..] == s && whole[|whole| - |t|..] == t;
    assert t[|t| - |s|..] == whole[|whole| - |t|..][|t| - |s|..] == whole[|whole| - |s|..];
    if |s| == |t| { assert u == whole[..|whole| - |s|] == v; }
  }

  lemma TailOfRest(rest: string, end: string)
    requires EndsWith(":" + rest, end) && |end| <= |rest|
    ensures EndsWith(rest, end)
  {
    assert rest[|rest| - |end|..] == (":" + rest)[|rest| + 1 - |end|..];
  }

  lemma OverridesAgree(u: string, v: string, a: Time, b: Time)
    requires u + (":" + ISO(a)) == v + (":" + ISO(b)) && |ISO(a)| <= |ISO(b)|
    ensures u == v && a == b
  {
    SameTail(u, v, ":" + ISO(a), ":" + ISO(b));
    var s, t := ":" + ISO(a), ":" + ISO(b);
    if |s| == |t| {
      assert ISO(a) == s[1..] && ISO(b) == t[1..];
    } else {
      TailOfRest(ISO(b), s);
    }
  }

  lemma SameKey(source: string, a: ScrapedEvent, b: ScrapedEvent)
    ensures StableId(source, a) == StableId(source, b)
       <==> Body(a) + Suffix(a.recurrenceId) == Body(b) + Suffix(b.recurrenceId)
  {
    var ka, kb := StableId(source, a).key, StableId(source, b).key;
    assert ka == (source + ":") + (Body(a) + Suffix(a.recurrenceId));
    assert kb == (source + ":") + (Body(b) + Suffix(b.recurrenceId));
    assert ka[|source| + 1..] == Body(a) + Suffix(a.recurrenceId);
    assert kb[|source| + 1..] == Body(b) + Suffix(b.recurrenceId);
  }

  /** Within one source, events share an id exactly when what keys them and their override agree, or
      when one is keyed by text that spells the other's key and override. */
  lemma SharedIdExactly(source: string, a: ScrapedEvent, b: ScrapedEvent)
    ensures StableId(source, a) == StableId(source, b)
       <==> || (Body(a) == Body(b) && a.recurrenceId == b.recurrenceId)
            || SpellsOverride(a, b) || SpellsOverride(b, a)
  {
    SameKey(source, a, b);
    var u, v := Body(a), Body(b);
    assert u + "" == u && v + "" == v;
    if StableId(source, a) == StableId(source, b) && a.recurrenceId.Some? && b.recurrenceId.Some? {
      var s, t := a.recurrenceId.value, b.recurrenceId.value;
      if |ISO(s)| <= |ISO(t)| { OverridesAgree(u, v, s, t); } else { OverridesAgree(v, u, t, s); }
    }
  }

  /** Events that carry a uid share an id exactly when uid and recurrence override agree, or when one
      uid spells the other's uid and override. */
  lemma UidIdentity(source: string, a: ScrapedEvent, b: ScrapedEvent)
    requires Truthy(a.uid) && Truthy(b.uid)
    ensures StableId(source, a) == StableId(source, b)
       <==> || (a.uid == b.uid && a.recurrenceId == b.recurrenceId)
            || SpellsOverride(a, b) || SpellsOverride(b, a)
  {
    SharedIdExactly(source, a, b);
  }

  lemma IsoText(t: Time)
    ensures ISO(t) != "" && '|' !in ISO(t)
    ensures forall s: Time :: !EndsWith(ISO(t), ":" + ISO(s))
  {
  }

  lemma IsoInjective(s: Time, t: Time)
    ensures ISO(s) == ISO(t) ==> s == t
  {
  }

  lemma NoBarInStart(e: ScrapedEvent)
    ensures '|' !in StartText(e) && (StartText(e) == "" <==> e.startAt.None?)
  {
    if e.startAt.Some? { IsoText(e.startAt.value); }
  }

  lemma BarInTail(u: string, s: string, v: string, t: string)
    requires u + "|" + s == v + t && |s| < |t|
    ensures '|' in t
  {
    var whole := u + "|" + s;
    assert whole[|u|] == '|' && whole == v + t;
    assert whole[|u|] == t[|u| - |v|];
  }

  /** The text after the last bar is found again. */
  lemma LastBar(u: string, s: string, v: string, t: string)
    requires u + "|" + s == v + "|" + t && '|' !in s && '|' !in t
    ensures u == v && s == t
  {
    if |t| < |s| { BarInTail(v, t, u + "|", s); }
    if |s| < |t| { BarInTail(u, s, v + "|", t); }
    assert u == (u + "|" + s)[..|u|] && s == (u + "|" + s)[|u| + 1..];
  }

  /** An event without a uid spells nobody's override. */
  lemma TitlesSpellNothing(a: ScrapedEvent, b: ScrapedEvent)
    requires !Truthy(a.uid)
    ensures !SpellsOverride(a, b)
  {
    if SpellsOverride(a, b) {
      IsoText(b.recurrenceId.value);
      var end := Suffix(b.recurrenceId);
      var whole := Body(a);
      assert whole == (a.title + "|") + StartText(a) == Body(b) + end;
      if |end| <= |StartText(a)| {
        if a.startAt.Some? { IsoText(a.startAt.value); }
        SameTail(Body(b), a.title + "|", end, StartText(a));
      } else {
        BarInTail(a.title, StartText(a), Body(b), end);
      }
    }
  }

  /** Events without a uid share an id exactly when title, start and override agree. */
  lemma TitleIdentity(source: string, a: ScrapedEvent, b: ScrapedEvent)
    requires !Truthy(a.uid) && !Truthy(b.uid)
    ensures StableId(source, a) == StableId(source, b)
       <==> a.title == b.title && a.startAt == b.startAt && a.recurrenceId == b.recurrenceId
  {
    SharedIdExactly(source, a, b);
    TitlesSpellNothing(a, b);
    TitlesSpellNothing(b, a);
    NoBarInStart(a);
    NoBarInStart(b);
    if Body(a) == Body(b) {
      LastBar(a.title, StartText(a), b.title, StartText(b));
      if a.startAt.Some? && b.startAt.Some? { IsoInjective(a.startAt.value, b.startAt.value); }
    }
  }

  /** An event with a uid shares an id with one without exactly when the uid is the other's title, a bar
      and its start, under the same override, or is that and the override it lacks. */
  lemma UidAgainstTitle(source: string, a: ScrapedEvent, b: ScrapedEvent)
    requires Truthy(a.uid) && !Truthy(b.uid)
    ensures var key := b.title + "|" + StartText(b);
      StableId(source, a) == StableId(source, b)
      <==> || (a.uid.value == key && a.recurrenceId == b.recurrenceId)
           || (a.recurrenceId.None? && b.recurrenceId.Some? && a.uid.value == key + Suffix(b.recurrenceId))
  {
    SharedIdExactly(source, a, b);
    TitlesSpellNothing(b, a);
  }

  /** So a series whose uid ends in a colon and an instant can take the place of an override: the
      calendar formats this reads put no limit on a uid. */
  lemma SpelledOverrideCollides(source: string, e: ScrapedEvent, t: Time)
    ensures StableId(source, e.(uid := Some("x:" + ISO(t)), recurrenceId := None))
         == StableId(source, e.(uid := Some("x"), recurrenceId := Some(t)))
  {
    assert source + ":" + ("x:" + ISO(t)) + "" == source + ":" + "x" + (":" + ISO(t));
  }
}
