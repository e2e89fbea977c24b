/** The event rewrite of the Schoology calendar converter: every VEVENT due
    at 23:59 becomes an all-day event on the same calendar date, every other
    VEVENT is kept as it is, and the top-level calendar properties are copied
    over. */
module Converter {
  import opened Wrappers
  import opened Gregorian
  import opened ICal

  /** Why a conversion stops. Either one aborts the whole run, and nothing is
      written. */
  datatype Error =
    | MissingStart      // a VEVENT has no DTSTART, so reading its value fails
    | DateOutOfRange    // the day after a 23:59 event's date is past 9999-12-31

  /** A DTSTART value the converter rewrites: a date-time (never a plain
      date) whose hour is 23 and minute is 59, whatever its seconds and zone. */
  predicate DueAt2359(t: Temporal) {
    t.DateTime? && t.hour == 23 && t.minute == 59
  }

  predicate Qualifies(e: Event) {
    e.dtstart.Some? && DueAt2359(e.dtstart.value)
  }

  /** The 23:59 test reads only the hour and minute of a date-time: the
      seconds, microseconds and zone never change its verdict, and a plain
      date never passes it. */
  lemma DueAt2359IgnoresSecondsAndZone(t: Temporal, s: Second, u: Microsecond, z: Option<string>)
    ensures t.PlainDate? ==> !DueAt2359(t)
    ensures t.DateTime? ==>
      (DueAt2359(t) <==> DueAt2359(t.(second := s, microsecond := u, tz := z)))
    ensures t.DateTime? ==>
      (DueAt2359(t) <==> t.hour == 23 && t.minute == 59)
  {
  }

  /** One event after the rewrite, with whether it was converted. */
  datatype Rewrite = Rewrite(event: Event, converted: bool)

  /** The per-event rule. A qualifying event keeps the calendar date of its
      DTSTART (no zone shift), loses its DTEND and DURATION, and gains a DTEND
      one day later; any other event passes through unchanged. */
  function RewriteEvent(e: Event): (r: Result<Rewrite, Error>)
    ensures r == Failure(MissingStart) <==> e.dtstart.None?
    ensures r == Failure(DateOutOfRange) <==> Qualifies(e) && e.dtstart.value.date == MaxDate
    ensures r.Success? ==> (r.value.converted <==> Qualifies(e))
    ensures r.Success? && !r.value.converted ==> r.value.event == e
    ensures r.Success? && r.value.converted ==>
      && AllDay(r.value.event)
      && r.value.event.dtstart == Some(PlainDate(e.dtstart.value.date))
      && r.value.event.others == e.others
  {
    match e.dtstart
    case None => Failure(MissingStart)
    case Some(start) =>
      if DueAt2359(start) then
        var day := start.date;
        match NextDay(day)
        case None => Failure(DateOutOfRange)
        case Some(after) =>
          NextDayIsSuccessor(day);
          Success(Rewrite(e.(dtstart := Some(PlainDate(day)),
                             dtend := Some(PlainDate(after)),
                             duration := None), true))
      else
        Success(Rewrite(e, false))
  }

  /** The number of qualifying events in `es`. */
  function CountQualifying(es: seq<Event>): (n: nat)
    ensures n <= |es|
  {
    if |es| == 0 then 0
    else (if Qualifies(es[0]) then 1 else 0) + CountQualifying(es[1..])
  }

  /** Every event of `es` can be rewritten. */
  predicate AllSucceed(es: seq<Event>) {
    forall i :: 0 <= i < |es| ==> RewriteEvent(es[i]).Success?
  }

  /** The converter's loop over the VEVENTs in order, with its counter. It
      stops at the first event whose rewrite fails; otherwise it yields one
      rewritten event per input event, in the same order, and the number of
      conversions. */
  function ConvertEvents(es: seq<Event>): (r: Result<(seq<Event>, nat), Error>)
    ensures r.Success? <==> AllSucceed(es)
    ensures r.Success? ==>
      && |r.value.0| == |es|
      && (forall i :: 0 <= i < |es| ==> RewriteEvent(es[i]).value.event == r.value.0[i])
      && r.value.1 == CountQualifying(es)
  {
    if |es| == 0 then Success(([], 0))
    else
      match RewriteEvent(es[0])
      case Failure(err) => Failure(err)
      case Success(head) =>
        match ConvertEvents(es[1..])
        case Failure(err) => Failure(err)
        case Success(rest) =>
          Success(([head.event] + rest.0, (if head.converted then 1 else 0) + rest.1))
  }

  /** The loop stops at the first failing event: a failed run reports the
      error of an event all of whose predecessors convert. */
  lemma {:induction false} ConvertEventsFailsFirst(es: seq<Event>)
    requires ConvertEvents(es).Failure?
    ensures exists k :: 0 <= k < |es| && AllSucceed(es[..k])
                     && RewriteEvent(es[k]) == Failure(ConvertEvents(es).error)
  {
    if RewriteEvent(es[0]).Failure? {
      assert AllSucceed(es[..0]);
    } else {
      var tail := es[1..];
      ConvertEventsFailsFirst(tail);
      var k :| 0 <= k < |tail| && AllSucceed(tail[..k])
               && RewriteEvent(tail[k]) == Failure(ConvertEvents(tail).error);
      assert es[..k + 1] == [es[0]] + tail[..k];
      assert es[k + 1] == tail[k];
    }
  }

  /** The outcome of a successful run: the new calendar and how many events
      were converted. */
  datatype Converted = Converted(calendar: Calendar, count: nat)

  /** The whole conversion of a parsed calendar: the top-level properties
      are copied in order, and the new calendar holds the rewritten VEVENTs
      in order and no other component. */
  function ConvertCalendar(cal: Calendar): (r: Result<Converted, Error>)
    ensures r.Success? <==>
      forall e :: e in Events(cal.components) ==> RewriteEvent(e).Success?
    ensures r.Success? ==>
      var ins := Events(cal.components);
      var outs := r.value.calendar.components;
      && r.value.calendar.props == cal.props
      && |outs| == |ins|
      && (forall i :: 0 <= i < |outs| ==> outs[i] == VEvent(RewriteEvent(ins[i]).value.event))
      && r.value.count == CountQualifying(ins)
  {
    var ins := Events(cal.components);
    match ConvertEvents(ins)
    case Failure(err) => Failure(err)
    case Success(done) =>
      Success(Converted(Calendar(cal.props, AsComponents(done.0)), done.1))
  }

  /** A converted event no longer qualifies, so converting it again keeps it
      unchanged and counts nothing. */
  lemma RewriteIdempotent(e: Event)
    requires RewriteEvent(e).Success?
    ensures RewriteEvent(RewriteEvent(e).value.event) == Success(Rewrite(RewriteEvent(e).value.event, false))
  {
  }

  /** No event that `ConvertEvents` outputs is due at 23:59 any more. */
  lemma ConvertedEventsDoNotQualify(es: seq<Event>)
    requires ConvertEvents(es).Success?
    ensures forall i :: 0 <= i < |es| ==> !Qualifies(ConvertEvents(es).value.0[i])
  {
  }

  lemma {:induction false} CountQualifyingNone(es: seq<Event>)
    requires forall i :: 0 <= i < |es| ==> !Qualifies(es[i])
    ensures CountQualifying(es) == 0
  {
    if |es| > 0 {
      CountQualifyingNone(es[1..]);
    }
  }

  /** Events that every pass leaves alone come out of the loop as they went
      in, with a count of zero. */
  lemma FixedPointEvents(es: seq<Event>)
    requires forall i :: 0 <= i < |es| ==> RewriteEvent(es[i]) == Success(Rewrite(es[i], false))
    ensures ConvertEvents(es) == Success((es, 0))
  {
    var r := ConvertEvents(es).value;
    assert r.0 == es;
    CountQualifyingNone(es);
  }

  /** Running the loop over its own output changes nothing and converts no
      event. */
  lemma ConvertEventsIdempotent(es: seq<Event>)
    requires ConvertEvents(es).Success?
    ensures ConvertEvents(ConvertEvents(es).value.0) == Success((ConvertEvents(es).value.0, 0))
  {
    var outs := ConvertEvents(es).value.0;
    forall i | 0 <= i < |outs|
      ensures RewriteEvent(outs[i]) == Success(Rewrite(outs[i], false))
    {
      RewriteIdempotent(es[i]);
    }
    FixedPointEvents(outs);
  }

  /** Converting a converted calendar changes nothing and converts no event. */
  lemma ConvertIdempotent(cal: Calendar)
    requires ConvertCalendar(cal).Success?
    ensures ConvertCalendar(ConvertCalendar(cal).value.calendar)
         == Success(Converted(ConvertCalendar(cal).value.calendar, 0))
  {
    var outs := ConvertEvents(Events(cal.components)).value.0;
    EventsOfComponents(outs);
    ConvertEventsIdempotent(Events(cal.components));
  }

  /** Worked case: a leap-year February 28th due at 23:59, with seconds and
      a zone (both ignored), becomes an all-day event ending on February 29th;
      its old DTEND and DURATION are gone. */
  lemma LeapDayExample()
    ensures
      var due := Event(Some(DateTime(YearMonthDay(2024, 2, 28), 23, 59, 30, 0, Some("UTC"))),
                       Some(DateTime(YearMonthDay(2024, 2, 29), 0, 0, 0, 0, Some("UTC"))),
                       Some(Duration(60)), [Property("SUMMARY", "Essay")]);
      RewriteEvent(due) == Success(Rewrite(
        Event(Some(PlainDate(YearMonthDay(2024, 2, 28))), Some(PlainDate(YearMonthDay(2024, 2, 29))),
              None, [Property("SUMMARY", "Essay")]), true))
  {
  }

  /** Worked case: New Year's Eve due at 23:59 ends on January 1st of the
      next year. */
  lemma YearEndExample()
    ensures
      var due := Event(Some(DateTime(YearMonthDay(2023, 12, 31), 23, 59, 0, 0, None)), None, None, []);
      RewriteEvent(due) == Success(Rewrite(
        Event(Some(PlainDate(YearMonthDay(2023, 12, 31))), Some(PlainDate(YearMonthDay(2024, 1, 1))),
              None, []), true))
  {
  }

  /** Worked cases: a 23:59 event on 9999-12-31 aborts the run, and an event
      due at 23:58 passes through. */
  lemma EdgeExamples()
    ensures
      var last := Event(Some(DateTime(MaxDate, 23, 59, 0, 0, None)), None, None, []);
      RewriteEvent(last) == Failure(DateOutOfRange)
    ensures
      var early := Event(Some(DateTime(YearMonthDay(2024, 3, 15), 23, 58, 0, 0, None)), None, None, []);
      RewriteEvent(early) == Success(Rewrite(early, false))
  {
  }
}
