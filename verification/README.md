# Schoology calendar reformatter — Dafny model

This project models the core of `convert_schoology_ics` in `MAIN.py`. It
takes a calendar exported from Schoology and turns every assignment due at
23:59 into an all-day event on its due date, so a consumer calendar shows it
as one whole-day marker.

The model works on the parsed calendar structure:

- `ICal` holds the data model. A `Calendar` is its top-level properties plus
  its components. An `Event` (a VEVENT) has an optional `DTSTART`, `DTEND`
  and `DURATION`, and keeps every other property opaque and in order. A
  `DTSTART`/`DTEND` value is a `Temporal`: either a plain date, or a
  date-time with hour, minute, second, microsecond and an opaque zone tag.
- `Gregorian` holds dates as Python's `datetime.date` represents them
  (years 1 to 9999). `Ordinal` numbers days from 0001-01-01 as a
  year-by-year sum, and is proved equal to the closed form Python uses. This
  ordinal is how Python adds a `timedelta` to a date. `NextDay` is the direct
  month-length and leap-year rule. The lemmas prove that `NextDay` gives the
  unique date whose ordinal is one higher.
- `Converter` holds the rewrite itself:
  - `DueAt2359` / `Qualifies` is the 23:59 test.
  - `RewriteEvent` rewrites one VEVENT.
  - `ConvertEvents` is the loop with its `converted_count`.
  - `ConvertCalendar` is the whole pass over a parsed calendar.
- `Wrappers` holds `Option` and `Result`.

The code's two failure paths are modelled as `Converter.Error`. Either one
aborts the run before anything is written:

- A VEVENT without `DTSTART` (`MissingStart`). Reading `.dt` of the missing
  property raises.
- A 23:59 event dated 9999-12-31 (`DateOutOfRange`). Adding one day to it
  overflows Python's date range.

The loop stops at the first such event. `ConvertEventsFailsFirst` states
this: the reported error belongs to an event whose predecessors all
succeed.

The code only rewrites 23:59 events, takes the calendar date in whatever
zone the value carries, keeps UIDs, and copies top-level properties.

## Model

| member | source | states |
|---|---|---|
| Gregorian.DaysInMonth | MAIN.py:37 | Month lengths lie between 28 and 31. February has 29 days exactly in leap years, and no other month ever has 29. |
| Gregorian.NextDay | MAIN.py:37 | The day after a date fails (Python's `OverflowError`) exactly for 9999-12-31. Otherwise it is a later date in calendar order. |
| Gregorian.NextDayIsSuccessor | MAIN.py:37 | `NextDay` agrees with Python's ordinal-based `date + timedelta(days=1)`: its result's ordinal is one more than the input's. |
| Gregorian.MaxDateHasNoSuccessor | MAIN.py:37 | No representable date has the ordinal one past `MaxOrdinal` (9999-12-31), so the overflow case has no answer. |
| Gregorian.NextDayIsUnique | MAIN.py:37 | Any date whose ordinal is one past a date's (other than 9999-12-31) is that date's `NextDay`. So "the day after" is well defined. |
| Gregorian.ClosedFormAgrees | MAIN.py:37 | Python's closed-form count of days before a year (365 per year plus the leap years counted by the 4/100/400 rule) equals the year-by-year sum of year lengths. |
| Gregorian.DaysBeforeYearMonotone | MAIN.py:37 | A later year starts no earlier than the end of an earlier year. |
| Gregorian.OrdinalWithinYear | MAIN.py:37 | A date's ordinal lies after the days before its year and no later than the end of its year. |
| Gregorian.DaysBeforeMonthStep | MAIN.py:37 | The cumulative month table grows by each month's length, and December ends at the year's length. |
| Gregorian.OrdinalMonotone | MAIN.py:37 | A date earlier in calendar order has a smaller ordinal. |
| Gregorian.OrdinalInjective | MAIN.py:37 | Two dates with the same ordinal are the same date. |
| Gregorian.OrdinalRange | MAIN.py:37 | Every representable date's ordinal lies between 1 and `MaxOrdinal` = 3652059. Only 9999-12-31 reaches that bound. |
| Gregorian.YearEndsInRange | MAIN.py:37 | Every year from 1 to 9999 ends at or before ordinal 3652059, and year 9999 ends exactly there. |
| Gregorian.ClosedFormStep | MAIN.py:37 | Python's closed-form day count grows by exactly one year's length, 365 or 366, from one year to the next. |
| ICal.Events | MAIN.py:21 | The VEVENTs walked from a calendar are exactly the VEVENT components. There are no more of them than components. |
| ICal.EventsOfComponents | MAIN.py:41 | Walking the VEVENTs of a calendar built by adding events gives back those events, in order. |
| Converter.DueAt2359IgnoresSecondsAndZone | MAIN.py:24 | The 23:59 test looks only at the hour and minute of a date-time. Changing its seconds, microseconds or zone does not change the verdict. A plain date never qualifies. |
| Converter.RewriteEvent | MAIN.py:22-39 | An event is converted iff its DTSTART is a date-time at hour 23, minute 59. The converted event's DTSTART is that value's own calendar date, with no zone shift. Its DTEND is the next day, as a plain date. It has no DURATION, and all other properties are unchanged. Any other event comes out identical. A missing DTSTART fails. A qualifying event on 9999-12-31 fails. |
| Converter.CountQualifying | MAIN.py:39 | The number of qualifying events never exceeds the number of events. |
| Converter.ConvertEvents | MAIN.py:19-41 | The loop succeeds iff every event's rewrite succeeds. It then yields one output event per input, in the same order, each the rewrite of its input, and `converted_count` equals the number of qualifying events. |
| Converter.ConvertEventsFailsFirst | MAIN.py:21-41 | A failed run reports the error of an event whose predecessors all convert. The loop stops at the first exception. |
| Converter.ConvertCalendar | MAIN.py:14-41 | The new calendar copies the top-level properties in order. It holds the rewritten VEVENTs in their original order and no other component. The count is the number of qualifying VEVENTs. It fails iff some VEVENT's rewrite fails. |
| Converter.RewriteIdempotent | MAIN.py:24-37 | Rewriting an already rewritten event leaves it unchanged and does not count it, because its DTSTART is now a plain date. |
| Converter.ConvertedEventsDoNotQualify | MAIN.py:24-36 | No event produced by the loop is still due at 23:59. |
| Converter.CountQualifyingNone | MAIN.py:39 | With no qualifying event the counter stays at zero. |
| Converter.FixedPointEvents | MAIN.py:24-41 | A sequence of events that the rule passes through comes out of the loop unchanged, with a count of zero. |
| Converter.ConvertEventsIdempotent | MAIN.py:21-41 | Running the loop over its own output gives the same events back, with a count of zero. |
| Converter.ConvertIdempotent | MAIN.py:16-41 | Converting an already converted calendar returns it unchanged, with a count of zero. |
| Converter.LeapDayExample | MAIN.py:24-37 | Worked case: 2024-02-28 at 23:59:30 UTC, with a DTEND and a DURATION, becomes an all-day 2024-02-28 with DTEND 2024-02-29 and no DURATION. Its SUMMARY is kept. |
| Converter.YearEndExample | MAIN.py:24-37 | Worked case: 2023-12-31 at 23:59 becomes an all-day event with DTEND 2024-01-01. |
| Converter.EdgeExamples | MAIN.py:24-37 | Worked cases: a 23:59 event on 9999-12-31 aborts the run with the overflow error. An event at 23:58 passes through unconverted. |

## Left out

- File reading and writing (MAIN.py:11-12, 43-44): I/O. The model starts from the parsed calendar and ends with the calendar to be serialised.
- Parsing and serialising with the `icalendar` library (`Calendar.from_ical`, `to_ical`): text syntax, line folding and escaping belong to that library, which is not part of this model.
- ICal.Events: models `walk('VEVENT')` over top-level components only. `walk` also descends into nested components, which this model does not represent. Its contract states membership and a length bound. Document order is carried by its definition, not stated.
- Property parameters such as `TZID` or `VALUE=DATE` on `DTSTART`/`DTEND`: the code only replaces the `.dt` value. What parameters the library then writes is outside the model.
- Order of properties within a VEVENT: the code re-adds `DTEND` after the other properties. The model keeps `DTSTART`, `DTEND` and `DURATION` as fields and the other properties in order.
- The console messages and the two exception handlers (MAIN.py:46-52): reporting only. A run that fails is the `Failure` result. File-not-found is I/O and is not modelled.
- `DTSTART` values that are neither a date nor a date-time (a time, a duration or a period): the code passes such events through unchanged, because the date-time test fails. `Temporal` cannot represent them.
- Exceptions other than a missing `DTSTART` and the date overflow, for example a repeated `DTSTART`: the library then holds a list, and reading its value raises. The model's `Event` has at most one `DTSTART`.
- An event's own subcomponents (for example VALARM): the code carries them through with the event. `Event` does not represent them.
- The `__main__` block with its fixed file names (MAIN.py:55-59).
- Time-zone semantics: the code never converts zones, so the zone is an opaque tag and `.date()` takes the date the value carries.
- The in-place mutation of the input calendar's components: nothing reads the input calendar after the loop, so the model builds a new value.
