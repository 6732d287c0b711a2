/** Admin edits of one event (app/services/events.py). */
module Events {
  import opened Wrappers
  import opened Text
  import opened Schema
  import opened Database
  import opened Identity

  /** One entry of the `fields` mapping; the values arrive already coerced. */
  datatype Edit =
    | SetTitle(title: string) | SetDescription(text: Option<string>) | SetLocation(text: Option<string>)
    | SetUrl(text: Option<string>) | SetImages(images: seq<ImageRef>) | SetStartAt(time: Option<Time>)
    | SetEndAt(time: Option<Time>) | SetTimezone(text: Option<string>) | SetAllDay(allDay: bool)
    | SetRrule(text: Option<string>) | SetRecurrenceId(time: Option<Time>) | SetExdates(exdates: seq<Time>)
    | SetRedirectTo(target: Option<EventId>) | SetPriority(priority: Option<int>)
    | SetCategories(joined: string) | NotEditable(key: string)

  function Edited(row: Event, edit: Edit): Event {
    match edit
    case SetTitle(v) => row.(title := v)
    case SetDescription(v) => row.(description := v)
    case SetLocation(v) => row.(location := v)
    case SetUrl(v) => row.(url := v)
    case SetImages(v) => row.(images := v)
    case SetStartAt(v) => row.(startAt := v)
    case SetEndAt(v) => row.(endAt := v)
    case SetTimezone(v) => row.(timezone := v)
    case SetAllDay(v) => row.(allDay := v)
    case SetRrule(v) => row.(rrule := v)
    case SetRecurrenceId(v) => row.(recurrenceId := v)
    case SetExdates(v) => row.(exdates := v)
    case SetRedirectTo(v) => row.(redirectTo := v)
    case SetPriority(v) => row.(priority := v)
    case SetCategories(v) => row.(categories := v)
    case NotEditable(_) => row
  }

  function EditedAll(row: Event, edits: seq<Edit>): Event {
    if edits == [] then row else Edited(EditedAll(row, Front(edits)), Last(edits))
  }

  /** The edited row, pinned as asked, with its hash recomputed from what it now holds. */
  function EditedRow(row: Event, edits: seq<Edit>, pinned: bool, wall: Time): Event {
    var r := EditedAll(row, edits).(pinned := pinned, updatedAt := wall);
    r.(contentHash := ContentHash(ReadBack(r)))
  }

  /** The columns no edit can reach. */
  ghost predicate SameBookkeeping(a: Event, b: Event) {
    && a.source == b.source && a.uid == b.uid && a.lastSeenAt == b.lastSeenAt
    && a.archivedAt == b.archivedAt && a.archivedReason == b.archivedReason && a.placeholder == b.placeholder
  }

  lemma EditKeepsBookkeeping(row: Event, edit: Edit)
    ensures SameBookkeeping(Edited(row, edit), row)
  {
  }

  lemma {:induction false} EditsKeepBookkeeping(row: Event, edits: seq<Edit>)
    ensures SameBookkeeping(EditedAll(row, edits), row)
  {
    if edits != [] {
      var before := EditedAll(row, Front(edits));
      var after := Edited(before, Last(edits));
      EditsKeepBookkeeping(row, Front(edits));
      EditKeepsBookkeeping(before, Last(edits));
      assert SameBookkeeping(after, row);
    }
  }

  /** An edit leaves the row coherent and pinned as asked, and cannot reach its bookkeeping. */
  lemma EditCannotForge(row: Event, edits: seq<Edit>, pinned: bool, wall: Time)
    ensures var r := EditedRow(row, edits, pinned, wall); Coherent(r) && r.pinned == pinned && SameBookkeeping(r, row)
  {
    EditsKeepBookkeeping(row, edits);
    var r := EditedAll(row, edits).(pinned := pinned, updatedAt := wall);
    assert ReadBack(r.(contentHash := ContentHash(ReadBack(r)))) == ReadBack(r);
  }

  // ---- column by column --------------------------------------------------

  datatype Column =
    | CTitle | CDescription | CLocation | CUrl | CImages | CStartAt | CEndAt | CTimezone | CAllDay | CRrule
    | CRecurrenceId | CExdates | CRedirectTo | CPriority | CCategories

  datatype Value =
    | Text(text: string) | MaybeText(maybeText: Option<string>) | Gallery(images: seq<ImageRef>)
    | MaybeTime(maybeTime: Option<Time>) | Flag(flag: bool) | Times(times: seq<Time>)
    | MaybeId(maybeId: Option<EventId>) | MaybeInt(maybeInt: Option<int>)

  /** What a row holds in an editable column. */
  function At(row: Event, c: Column): Value {
    match c
    case CTitle => Text(row.title)
    case CDescription => MaybeText(row.description)
    case CLocation => MaybeText(row.location)
    case CUrl => MaybeText(row.url)
    case CImages => Gallery(row.images)
    case CStartAt => MaybeTime(row.startAt)
    case CEndAt => MaybeTime(row.endAt)
    case CTimezone => MaybeText(row.timezone)
    case CAllDay => Flag(row.allDay)
    case CRrule => MaybeText(row.rrule)
    case CRecurrenceId => MaybeTime(row.recurrenceId)
    case CExdates => Times(row.exdates)
    case CRedirectTo => MaybeId(row.redirectTo)
    case CPriority => MaybeInt(row.priority)
    case CCategories => Text(row.categories)
  }

  /** The column an entry names, with the value it gives. */
  function Entry(edit: Edit): Option<(Column, Value)> {
    match edit
    case SetTitle(v) => Some((CTitle, Text(v)))
    case SetDescription(v) => Some((CDescription, MaybeText(v)))
    case SetLocation(v) => Some((CLocation, MaybeText(v)))
    case SetUrl(v) => Some((CUrl, MaybeText(v)))
    case SetImages(v) => Some((CImages, Gallery(v)))
    case SetStartAt(v) => Some((CStartAt, MaybeTime(v)))
    case SetEndAt(v) => Some((CEndAt, MaybeTime(v)))
    case SetTimezone(v) => Some((CTimezone, MaybeText(v)))
    case SetAllDay(v) => Some((CAllDay, Flag(v)))
    case SetRrule(v) => Some((CRrule, MaybeText(v)))
    case SetRecurrenceId(v) => Some((CRecurrenceId, MaybeTime(v)))
    case SetExdates(v) => Some((CExdates, Times(v)))
    case SetRedirectTo(v) => Some((CRedirectTo, MaybeId(v)))
    case SetPriority(v) => Some((CPriority, MaybeInt(v)))
    case SetCategories(v) => Some((CCategories, Text(v)))
    case NotEditable(_) => None
  }

  /** The value the last entry for a column gives, if any entry names it. */
  function LastGiven(edits: seq<Edit>, c: Column): Option<Value> {
    if edits == [] then None
    else match Entry(Last(edits))
      case Some((column, value)) => if column == c then Some(value) else LastGiven(Front(edits), c)
      case None => LastGiven(Front(edits), c)
  }

  lemma OneEntry(row: Event, edit: Edit, c: Column)
    ensures At(Edited(row, edit), c)
         == match Entry(edit)
            case Some((column, value)) => if column == c then value else At(row, c)
            case None => At(row, c)
  {
  }

  lemma {:induction false} EditsByColumn(row: Event, edits: seq<Edit>, c: Column)
    ensures At(EditedAll(row, edits), c) == LastGiven(edits, c).GetOr(At(row, c))
  {
    hide At, Entry, Edited;
    if edits != [] {
      EditsByColumn(row, Front(edits), c);
      OneEntry(EditedAll(row, Front(edits)), Last(edits), c);
    }
  }

  /** The edited row, column by column: each editable column holds what the last entry for it gives, or what
      it held; a key that is not editable changes nothing; and the update time is the clock's. */
  lemma EditedRowByColumn(row: Event, edits: seq<Edit>, pinned: bool, wall: Time, c: Column)
    ensures At(EditedRow(row, edits, pinned, wall), c) == LastGiven(edits, c).GetOr(At(row, c))
    ensures EditedRow(row, edits, pinned, wall).updatedAt == wall
  {
    EditsByColumn(row, edits, c);
  }

  function UpdateEventState(s: State, id: EventId, edits: seq<Edit>, pinned: bool, wall: Time): State {
    if id in s.events then s.(events := s.events[id := EditedRow(s.events[id], edits, pinned, wall)]) else s
  }

  method UpdateEvent(store: Store, id: EventId, edits: seq<Edit>, pinned: bool, wall: Time) returns (found: bool)
    modifies store
    ensures store.Snapshot() == UpdateEventState(old(store.Snapshot()), id, edits, pinned, wall)
    ensures found == (id in old(store.events))
  {
    if id !in store.events {
      return false;
    }
    var row := store.events[id];
    ghost var was := row;
    var i := 0;
    while i < |edits|
      invariant 0 <= i <= |edits| && row == EditedAll(was, edits[..i])
    {
      assert Front(edits[..i + 1]) == edits[..i];
      row := Edited(row, edits[i]);
      i := i + 1;
    }
    assert edits[..i] == edits;
    row := row.(pinned := pinned, updatedAt := wall);
    row := row.(contentHash := ContentHash(ReadBack(row)));
    store.events := store.events[id := row];
    return true;
  }

  function SetPinnedState(s: State, id: EventId, pinned: bool): State {
    if id in s.events then s.(events := s.events[id := s.events[id].(pinned := pinned)]) else s
  }

  /** Setting a pin moves that one pin, and nothing else anywhere. */
  lemma PinnedExactly(s: State, id: EventId, pinned: bool)
    ensures var s' := SetPinnedState(s, id, pinned);
      && s'.sources == s.sources && s'.conflicts == s.conflicts && s'.events.Keys == s.events.Keys
      && (forall other | other in s.events && other != id :: s'.events[other] == s.events[other])
      && (id in s.events ==>
            s'.events[id].pinned == pinned && s'.events[id].(pinned := s.events[id].pinned) == s.events[id])
  {
  }

  method SetPinned(store: Store, id: EventId, pinned: bool) returns (found: bool)
    modifies store
    ensures store.Snapshot() == SetPinnedState(old(store.Snapshot()), id, pinned)
    ensures found == (id in old(store.events))
  {
    found := id in store.events;
    if found {
      store.events := store.events[id := store.events[id].(pinned := pinned)];
    }
  }
}
