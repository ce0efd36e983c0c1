/** The past-events filter of the gallery component (components/gallery.tsx).

    Dates are instants on an integer clock. `today` is the instant of this
    day's local midnight, and `parse` is the `Date` constructor applied to an
    event's date string: `None` stands for an Invalid Date, which compares
    false against everything. */
module Gallery {
  import opened EventTypes
  import opened Subsequences

  /** `event.date ? new Date(event.date) : new Date(0)`: a missing or empty
      date is the epoch. */
  function EventInstant(e: PastEvent, parse: string -> Option<int>): (t: Option<int>)
    ensures e.date.None? || e.date.value == "" ==> t == Some(0)
  {
    if e.date.None? || e.date.value == "" then Some(0) else parse(e.date.value)
  }

  /** `eventDate < today`. */
  predicate IsPast(e: PastEvent, today: int, parse: string -> Option<int>) {
    var t := EventInstant(e, parse);
    t.Some? && t.value < today
  }

  /** The events the gallery shows. */
  function PastEvents(eventsData: seq<PastEvent>, today: int, parse: string -> Option<int>): (r: seq<PastEvent>)
    ensures |r| <= |eventsData|
  {
    Filter(eventsData, e => IsPast(e, today, parse))
  }

  /** The shown events keep the input's order, each is strictly before
      today's midnight, and every input event left out is dated at or after
      midnight (or has a date that does not parse). */
  lemma PastEventsSpec(eventsData: seq<PastEvent>, today: int, parse: string -> Option<int>)
    ensures IsSubsequence(PastEvents(eventsData, today, parse), eventsData)
    ensures forall e :: e in PastEvents(eventsData, today, parse) ==>
              e in eventsData && EventInstant(e, parse).Some? && EventInstant(e, parse).value < today
    ensures forall e :: e in eventsData && e !in PastEvents(eventsData, today, parse) ==>
              EventInstant(e, parse).None? || EventInstant(e, parse).value >= today
  {
    var p := e => IsPast(e, today, parse);
    FilterIsSubsequence(eventsData, p);
    FilterSound(eventsData, p);
    FilterComplete(eventsData, p);
  }

  /** An event at exactly midnight is not past; an undated one is, as long
      as today is after the epoch. */
  lemma Boundaries(e: PastEvent, today: int, parse: string -> Option<int>)
    ensures EventInstant(e, parse) == Some(today) ==> PastEvents([e], today, parse) == []
    ensures e.date.None? && today > 0 ==> PastEvents([e], today, parse) == [e]
  {
  }

  /** Three events the day before, at, and the day after midnight: only the
      first is shown. */
  lemma DayBeforeOnly(a: PastEvent, b: PastEvent, c: PastEvent, today: int, day: nat,
                      parse: string -> Option<int>)
    requires EventInstant(a, parse) == Some(today - day)
    requires EventInstant(b, parse) == Some(today)
    requires EventInstant(c, parse) == Some(today + day)
    requires day > 0
    ensures PastEvents([a, b, c], today, parse) == [a]
  {
    var s := [a, b, c];
    var p := e => IsPast(e, today, parse);
    assert s[1..] == [b, c] && s[1..][1..] == [c] && [c][1..] == [];
    assert Filter([c], p) == [];
    assert Filter([b, c], p) == [];
    assert Filter(s, p) == [a] + Filter([b, c], p);
  }
}
