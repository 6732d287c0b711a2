/** The relevance window (app/services/expiry.py). */
module Expiry {
  import opened Wrappers
  import opened Schema

  /** The settings the pipeline reads.  `lastOccurrence(rule, start)` is the recurrence
      library's answer for a bounded rule; `permanent` is a gatherer's capability flag. */
  datatype Settings = Settings(
    expirePastDays: Option<int>, expireFutureDays: Option<int>, archiveGraceHours: Option<int>,
    lastOccurrence: (string, Time) -> Option<Time>, permanent: string -> bool)

  function LastOccurrence(settings: Settings, rrule: Option<string>, startAt: Option<Time>): Option<Time> {
    if !Truthy(rrule) || startAt.None? then None else settings.lastOccurrence(rrule.value, startAt.value)
  }

  predicate IsPastExpired(endAt: Option<Time>, startAt: Option<Time>, now: Time, days: Option<int>) {
    && days.Some?
    && var end := if endAt.Some? then endAt else startAt;
       end.Some? && end.value < now - days.value * DAY
  }

  predicate IsFutureExpired(startAt: Option<Time>, now: Time, days: Option<int>) {
    days.Some? && startAt.Some? && startAt.value > now + days.value * DAY
  }

  predicate IsExpired(
    settings: Settings, startAt: Option<Time>, endAt: Option<Time>, rrule: Option<string>, now: Time) {
    if Truthy(rrule) then
      var last := LastOccurrence(settings, rrule, startAt);
      if last.None? || settings.expirePastDays.None? then false
      else
        var lastEnd :=
          if endAt.Some? && startAt.Some? then last.value + (endAt.value - startAt.value) else last.value;
        lastEnd < now - settings.expirePastDays.value * DAY
    else IsPastExpired(endAt, startAt, now, settings.expirePastDays)
  }

  predicate IsRelevant(
    settings: Settings, startAt: Option<Time>, endAt: Option<Time>, rrule: Option<string>, now: Time) {
    !IsFutureExpired(startAt, now, settings.expireFutureDays) && !IsExpired(settings, startAt, endAt, rrule, now)
  }

  predicate EventRelevant(settings: Settings, e: ScrapedEvent, now: Time) {
    IsRelevant(settings, e.startAt, e.endAt, e.rrule, now)
  }

  predicate RowExpired(settings: Settings, row: Event, now: Time) {
    IsExpired(settings, row.startAt, row.endAt, row.rrule, now)
  }

  /** When the last instant of an event lies, if that can be told. */
  ghost function FinalInstant(
    settings: Settings, startAt: Option<Time>, endAt: Option<Time>, rrule: Option<string>): Option<Time>
  {
    if rrule.None? || rrule.value == "" then (if endAt.Some? then endAt else startAt)
    else if startAt.None? then None
    else match settings.lastOccurrence(rrule.value, startAt.value)
      case None => None
      case Some(last) => if endAt.Some? then Some(last + (endAt.value - startAt.value)) else Some(last)
  }

  /** The instant is no further back than the past limit's days of 24 hours, if both are known. */
  ghost predicate NotOver(settings: Settings, final: Option<Time>, now: Time) {
    settings.expirePastDays.Some? && final.Some? ==>
      now - final.value <= settings.expirePastDays.value * 86_400_000_000
  }

  /** The start is no further ahead than the future limit's days of 24 hours, if both are known. */
  ghost predicate NotTooEarly(settings: Settings, startAt: Option<Time>, now: Time) {
    settings.expireFutureDays.Some? && startAt.Some? ==>
      startAt.value - now <= settings.expireFutureDays.value * 86_400_000_000
  }

  /** A row is expired exactly when its final instant is known and further back than the window;
      so an event with no determinable end is kept for ever, and expiry is never undone by time. */
  lemma ExpiredMeaning(settings: Settings, row: Event, now: Time)
    ensures RowExpired(settings, row, now)
       <==> !NotOver(settings, FinalInstant(settings, row.startAt, row.endAt, row.rrule), now)
    ensures forall later :: now <= later && RowExpired(settings, row, now) ==> RowExpired(settings, row, later)
  {
  }

  /** A gathered event is relevant exactly when it neither starts too far ahead nor has ended too long
      ago; each limit counts only where it is set and what it measures is known. */
  lemma RelevantMeaning(settings: Settings, e: ScrapedEvent, now: Time)
    ensures EventRelevant(settings, e, now)
       <==> && NotTooEarly(settings, e.startAt, now)
            && NotOver(settings, FinalInstant(settings, e.startAt, e.endAt, e.rrule), now)
  {
  }
}
