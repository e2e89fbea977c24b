/** The parsed calendar structure the converter works on: a VCALENDAR's
    top-level properties and its components, with each VEVENT reduced to the
    properties the converter reads or writes. Text parsing, line folding and
    escaping belong to the iCalendar library and are not part of this model. */
module ICal {
  import opened Wrappers
  import opened Gregorian

  type Hour = h: int | 0 <= h < 24
  type Minute = m: int | 0 <= m < 60
  type Second = s: int | 0 <= s < 60
  type Microsecond = u: int | 0 <= u < 1000000

  /** The value of a DTSTART or DTEND property: either a plain calendar date
      (an all-day value) or a date-time, which may carry a time zone. The
      zone is an opaque tag: the converter never converts between zones. */
  datatype Temporal =
    | PlainDate(date: Date)
    | DateTime(date: Date, hour: Hour, minute: Minute, second: Second,
               microsecond: Microsecond, tz: Option<string>)

  /** A DURATION value, kept opaque. */
  datatype Duration = Duration(seconds: int)

  /** Any property the converter does not touch (SUMMARY, DESCRIPTION, UID,
      DTSTAMP, ...), kept as name and raw value. */
  datatype Property = Property(name: string, value: string)

  /** A VEVENT: its DTSTART, DTEND and DURATION, plus every other property
      in order. Each of the three may be absent. */
  datatype Event = Event(
    dtstart: Option<Temporal>,
    dtend: Option<Temporal>,
    duration: Option<Duration>,
    others: seq<Property>)

  /** A top-level component of a VCALENDAR: a VEVENT, or any other kind
      (VTIMEZONE, VTODO, ...) given by its name and properties. */
  datatype Component =
    | VEvent(event: Event)
    | OtherComponent(name: string, props: seq<Property>)

  /** A VCALENDAR: its top-level properties (PRODID, VERSION, ...) in order,
      and its components in order. */
  datatype Calendar = Calendar(props: seq<Property>, components: seq<Component>)

  /** The VEVENTs of a calendar's components, in document order. */
  function Events(cs: seq<Component>): (es: seq<Event>)
    ensures |es| <= |cs|
    ensures forall e :: e in es <==> VEvent(e) in cs
  {
    if |cs| == 0 then []
    else if cs[0].VEvent? then [cs[0].event] + Events(cs[1..])
    else Events(cs[1..])
  }

  /** Wraps each event as a VEVENT component, keeping their order. */
  function AsComponents(es: seq<Event>): (cs: seq<Component>)
    ensures |cs| == |es|
    ensures forall i :: 0 <= i < |es| ==> cs[i] == VEvent(es[i])
  {
    seq(|es|, i requires 0 <= i < |es| => VEvent(es[i]))
  }

  /** Reading back the VEVENTs of wrapped events gives the events. */
  lemma {:induction false} EventsOfComponents(es: seq<Event>)
    ensures Events(AsComponents(es)) == es
  {
    if |es| > 0 {
      assert AsComponents(es)[1..] == AsComponents(es[1..]);
      EventsOfComponents(es[1..]);
    }
  }

  /** An all-day event in the sense of section 3.6.1 of RFC 5545: DTSTART
      and DTEND are both plain dates, DTEND (exclusive) is the next day, and
      there is no DURATION alongside DTEND. */
  predicate AllDay(e: Event) {
    && e.dtstart.Some? && e.dtstart.value.PlainDate?
    && e.dtend.Some? && e.dtend.value.PlainDate?
    && Ordinal(e.dtend.value.date) == Ordinal(e.dtstart.value.date) + 1
    && e.duration.None?
  }
}
