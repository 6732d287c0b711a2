/** Resolution of pinned-event conflicts (app/services/conflicts.py). */
module Conflicts {
  import opened Wrappers
  import opened Text
  import opened Schema
  import opened Database
  import opened Identity
  import opened Events

  /** `Syncretize` carries the fields the language model's answer sets, if it was usable. */
  datatype Action = Ignore | Adopt | Syncretize(merged: seq<Edit>) | Unknown

  /** The fields a merge may set, each with a string. */
  predicate Mergeable(edit: Edit) {
    match edit
    case SetTitle(_) => true
    case SetDescription(t) => t.Some?
    case SetLocation(t) => t.Some?
    case SetUrl(t) => t.Some?
    case SetTimezone(t) => t.Some?
    case _ => false
  }

  function MergeableOnly(edits: seq<Edit>): seq<Edit> {
    if edits == [] then []
    else MergeableOnly(Front(edits)) + if Mergeable(Last(edits)) then [Last(edits)] else []
  }

  /** `_write_incoming`. */
  function AdoptedRow(row: Event, e: ScrapedEvent, wall: Time): Event {
    row.(
      title := e.title, description := e.description, location := e.location, url := e.url,
      images := e.images, startAt := e.startAt, endAt := e.endAt, timezone := e.timezone, allDay := e.allDay,
      rrule := e.rrule, recurrenceId := e.recurrenceId, exdates := e.exdates,
      categories := DumpCategories(e.categories), contentHash := ContentHash(e),
      pinned := true, updatedAt := wall)
  }

  function Closed(c: Conflict, status: ConflictStatus, wall: Time): Conflict {
    c.(status := status, resolvedAt := Some(wall), updatedAt := wall)
  }

  predicate Resolvable(s: State, k: nat, action: Action) {
    action != Unknown && k < |s.conflicts| && s.conflicts[k].status == Pending
  }

  function ResolveState(s: State, k: nat, action: Action, wall: Time): State {
    if !Resolvable(s, k, action) then s
    else
      var c := s.conflicts[k];
      var present := c.eventId in s.events;
      match action
      case Ignore => s.(conflicts := s.conflicts[k := Closed(c, Ignored, wall)])
      case Adopt =>
        var events :=
          if present then s.events[c.eventId := AdoptedRow(s.events[c.eventId], c.incoming, wall)] else s.events;
        State(events, s.sources, s.conflicts[k := Closed(c, Applied, wall)])
      case Syncretize(merged) =>
        var fields := MergeableOnly(merged);
        var events :=
          if present && fields != [] then s.events[c.eventId := EditedRow(s.events[c.eventId], fields, true, wall)]
          else s.events;
        State(events, s.sources, s.conflicts[k := Closed(c, Merged, wall)])
      case Unknown => s
  }

  // ---- what an action leaves ---------------------------------------------

  /** The columns a merge may write. */
  const MERGED: set<Column> := {CTitle, CDescription, CLocation, CUrl, CTimezone}

  function GivenString(edit: Edit): Option<(Column, string)> {
    match Entry(edit)
    case Some((column, Text(t))) => Some((column, t))
    case Some((column, MaybeText(Some(t)))) => Some((column, t))
    case _ => None
  }

  /** The last string the model's answer gives for a column. */
  function LastString(merged: seq<Edit>, c: Column): Option<string> {
    if merged == [] then None
    else match GivenString(Last(merged))
      case Some((column, t)) => if column == c then Some(t) else LastString(Front(merged), c)
      case None => LastString(Front(merged), c)
  }

  function AsValue(c: Column, t: string): Value {
    if c == CTitle then Text(t) else MaybeText(Some(t))
  }

  /** An entry is kept for a merge exactly when it gives a string for one of those columns. */
  lemma MergeableExactly(edit: Edit)
    ensures Mergeable(edit) <==> GivenString(edit).Some? && GivenString(edit).value.0 in MERGED
    ensures Mergeable(edit) ==>
      Entry(edit) == Some((GivenString(edit).value.0, AsValue(GivenString(edit).value.0, GivenString(edit).value.1)))
  {
  }

  lemma LastGivenSnoc(kept: seq<Edit>, edit: Edit, c: Column)
    ensures LastGiven(kept + [edit], c)
         == match Entry(edit)
            case Some((column, value)) => if column == c then Some(value) else LastGiven(kept, c)
            case None => LastGiven(kept, c)
  {
    assert Front(kept + [edit]) == kept && Last(kept + [edit]) == edit;
  }

  lemma {:induction false} MergeGivesStrings(merged: seq<Edit>, c: Column)
    ensures LastGiven(MergeableOnly(merged), c)
         == if c in MERGED && LastString(merged, c).Some? then Some(AsValue(c, LastString(merged, c).value)) else None
  {
    hide Mergeable, GivenString, Entry, AsValue, MERGED, LastGiven;
    if merged == [] {
      NothingGiven(c);
    } else {
      var kept := MergeableOnly(Front(merged));
      MergeGivesStrings(Front(merged), c);
      MergeableExactly(Last(merged));
      if Mergeable(Last(merged)) {
        LastGivenSnoc(kept, Last(merged), c);
      } else {
        assert kept + [] == kept;
      }
    }
  }

  lemma NothingGiven(c: Column)
    ensures LastGiven([], c) == None
  {
  }

  /** A merge writes, of title, description, location, address and timezone, what the model's answer last
      gives a string for, and no other column. */
  lemma MergeByColumn(row: Event, merged: seq<Edit>, wall: Time, c: Column)
    ensures At(EditedRow(row, MergeableOnly(merged), true, wall), c)
         == if c in MERGED && LastString(merged, c).Some? then AsValue(c, LastString(merged, c).value) else At(row, c)
  {
    EditedRowByColumn(row, MergeableOnly(merged), true, wall, c);
    MergeGivesStrings(merged, c);
  }

  /** The answer gives a string for some column a merge may write. */
  ghost predicate GivesAny(merged: seq<Edit>) {
    exists c | c in MERGED :: LastString(merged, c).Some?
  }

  lemma {:induction false} MergesAnyExactly(merged: seq<Edit>)
    ensures MergeableOnly(merged) != [] <==> GivesAny(merged)
  {
    hide Mergeable, GivenString, MERGED;
    if merged != [] {
      MergesAnyExactly(Front(merged));
      MergeableExactly(Last(merged));
      if Mergeable(Last(merged)) {
        assert LastString(merged, GivenString(Last(merged)).value.0).Some?;
      } else {
        assert forall c | c in MERGED :: LastString(merged, c) == LastString(Front(merged), c);
      }
    }
  }

  /** The closed status an action leaves. */
  predicate ClosesAs(action: Action, status: ConflictStatus) {
    || (action.Ignore? && status == Ignored) || (action.Adopt? && status == Applied)
    || (action.Syncretize? && status == Merged)
  }

  /** What resolving leaves, conflict by conflict and row by row: a pending conflict is closed in its
      action's status, at that time, and keeps what it held; every other conflict stays; ignoring
      touches no row, and the other actions at most the conflict's own. */
  lemma ResolvedExactly(s: State, k: nat, action: Action, wall: Time)
    requires k < |s.conflicts|
    ensures var c, s' := s.conflicts[k], ResolveState(s, k, action, wall);
      && |s'.conflicts| == |s.conflicts| && s'.sources == s.sources && s'.events.Keys == s.events.Keys
      && (forall j | 0 <= j < |s.conflicts| && j != k :: s'.conflicts[j] == s.conflicts[j])
      && (c.status != Pending || action == Unknown ==> s' == s)
      && (c.status == Pending && action != Unknown ==>
            && ClosesAs(action, s'.conflicts[k].status)
            && s'.conflicts[k].resolvedAt == Some(wall) && s'.conflicts[k].updatedAt == wall
            && s'.conflicts[k].eventId == c.eventId && s'.conflicts[k].incoming == c.incoming
            && s'.conflicts[k].changedFields == c.changedFields)
      && (forall id | id in s.events && (id != c.eventId || action == Ignore) :: s'.events[id] == s.events[id])
  {
    hide EditedRow, ContentHash;
  }

  /** Adopting writes the whole incoming content, pins it and leaves the bookkeeping alone. */
  lemma AdoptWrites(s: State, k: nat, wall: Time)
    requires k < |s.conflicts| && s.conflicts[k].status == Pending && s.conflicts[k].eventId in s.events
    ensures var e, was := s.conflicts[k].incoming, s.events[s.conflicts[k].eventId];
      var row := ResolveState(s, k, Adopt, wall).events[s.conflicts[k].eventId];
      && row.title == e.title && row.description == e.description && row.location == e.location && row.url == e.url
      && row.images == e.images && row.startAt == e.startAt && row.endAt == e.endAt && row.timezone == e.timezone
      && row.allDay == e.allDay && row.rrule == e.rrule && row.recurrenceId == e.recurrenceId
      && row.exdates == e.exdates && row.categories == DumpCategories(e.categories)
      && row.contentHash == ContentHash(e) && row.pinned && row.updatedAt == wall
      && SameBookkeeping(row, was) && row.redirectTo == was.redirectTo && row.priority == was.priority
  {
  }

  /** Merging writes the strings the answer gives, pins the row and keeps its hash right; an answer that
      gives none leaves the row as it was. */
  lemma MergeWrites(s: State, k: nat, merged: seq<Edit>, wall: Time)
    requires k < |s.conflicts| && s.conflicts[k].status == Pending && s.conflicts[k].eventId in s.events
    ensures var was := s.events[s.conflicts[k].eventId];
      var row := ResolveState(s, k, Syncretize(merged), wall).events[s.conflicts[k].eventId];
      && SameBookkeeping(row, was)
      && (if GivesAny(merged) then row.pinned && Coherent(row) && row.updatedAt == wall else row == was)
      && forall column ::
           At(row, column)
           == if column in MERGED && LastString(merged, column).Some?
              then AsValue(column, LastString(merged, column).value) else At(was, column)
  {
    hide At, EditedRow, LastString, MergeableOnly, MERGED;
    var was := s.events[s.conflicts[k].eventId];
    var row := ResolveState(s, k, Syncretize(merged), wall).events[s.conflicts[k].eventId];
    MergesAnyExactly(merged);
    EditCannotForge(was, MergeableOnly(merged), true, wall);
    EditedRowByColumn(was, MergeableOnly(merged), true, wall, CTitle);
    forall column ensures
      At(row, column)
      == if column in MERGED && LastString(merged, column).Some?
         then AsValue(column, LastString(merged, column).value) else At(was, column)
    {
      MergeByColumn(was, merged, wall, column);
    }
  }

  method Resolve(store: Store, k: nat, action: Action, wall: Time) returns (resolved: bool)
    modifies store
    ensures store.Snapshot() == ResolveState(old(store.Snapshot()), k, action, wall)
    ensures resolved == Resolvable(old(store.Snapshot()), k, action)
  {
    if action == Unknown {
      return false;
    }
    if k >= |store.conflicts| || store.conflicts[k].status != Pending {
      return false;
    }
    var c := store.conflicts[k];
    match action {
      case Ignore =>
        c := c.(status := Ignored);
      case Adopt =>
        if c.eventId in store.events {
          store.events := store.events[c.eventId := AdoptedRow(store.events[c.eventId], c.incoming, wall)];
        }
        c := c.(status := Applied);
      case Syncretize(merged) =>
        var fields := MergeableOnly(merged);
        if c.eventId in store.events && fields != [] {
          var _ := UpdateEvent(store, c.eventId, fields, true, wall);
        }
        c := c.(status := Merged);
    }
    c := c.(resolvedAt := Some(wall), updatedAt := wall);
    store.conflicts := store.conflicts[k := c];
    return true;
  }
}
