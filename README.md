# HABS appointment scheduling core, in Dafny

HABS is a desktop booking application: a user picks a date, a time and the
symptoms that are the reasons for an appointment, and the booking page stores the
appointment in the user's list. This project models the rules behind that page,
the `Booking` class of `project.py`:

- **Severity resolver** (`getSeverity`). The symptom table is a list of categories.
  Each category is a list of `{tag: severity}` entries. The resolver returns the
  highest severity of an entry whose tag is one of the appointment's reasons. It
  starts from 0, so unknown tags and an empty reason list give 0.
- **Reschedule policy** (the arithmetic in `sortAppointment`). Let `dayDiff` be the
  number of days between the requested date and today. When
  `dayDiff + 2 * severity > 20`, the date is pulled in by `dayDiff - (11 - severity)`
  days. Otherwise the date is kept. A new date outside years 1 to 9999 raises
  `OverflowError`.
- **Merge by date** (`mergeAppointments`). The merge finds the first stored
  appointment on the same date and replaces its reasons with the set union of both
  reason lists. If no stored appointment has that date, the new one is appended. A
  missing or empty list gives back the bare record, not a one-entry list. A bare
  record already in the store makes the next merge fail, because indexing it by
  position raises `KeyError`.
- **Field checks** (`verifyTime`, `verifyDate`). The `Edit` page has identical
  copies at project.py:1193-1217, and the same model covers both.
  - `verifyTime` is the regular expression `^[012]*\d{1}:\d{2}$`. It does no
    range check on hours or minutes.
  - `verifyDate` strips the text and reads three integer fields. It rejects a date
    whose year and month are each at most today's and whose day is below today's.
    It then rejects a triple that is not a Gregorian calendar date. Finally it
    requires the text to match `^\d{4}-\d{1,2}-\d{1,2}$`.

Dates in the scheduler are day ordinals, as Python's `date.toordinal()` numbers them
(0001-01-01 is day 1). `today` is a parameter. The symptom table and the stored
appointments are values passed in.

Modules, one per component: `Text` (strip, split, int of a numeral), `Calendar`,
`SymptomSeverity`, `ReschedulePolicy`, `Appointments` (records, store shapes,
merge), `Validate` (the two field checks) and `Booking` (`sortAppointment`).
`Outcomes` holds the result and exception types they share.

`GetSeverity` and `MergeAppointments` keep the loops of the source. `GetSeverity` is
a triple loop with a running maximum. `MergeAppointments` is an index scan with a
`merged` flag that overwrites one entry or appends. Each is proved equal to a
specification function (`Severity`, `MergeStored`). The properties are proved
about those functions.

## Model

| member | source | states |
|---|---|---|
| `Text.Strip` | project.py:785 | `str.strip()`: no white space (Python's `isspace` set) is left at either end; text without white space is returned unchanged |
| `Text.StripKeepsMiddle` | project.py:785 | `strip()` keeps one contiguous run of the text, the characters right after the leading ones `lstrip()` removes |
| `Text.StripRemovesOnlySpace` | project.py:785 | every character `strip()` drops, before or after the run it keeps, is white space |
| `Text.StripLeadingSpace` | project.py:785 | a leading space does not change what `strip()` returns, and the padded text is not its own stripped form |
| `Text.Split` | project.py:786 | `split("-")`: at least one field, no field contains a dash, and joining the fields with dashes gives back the text |
| `Text.SplitThreeFields` | project.py:786 | three dash-free fields joined by dashes split into exactly those three fields |
| `Text.DigitsValue` | project.py:786 | `int()` of an n-digit ASCII numeral is a natural number below 10^n |
| `Text.DigitsValueAppend` | project.py:786 | `int()` reads base 10: the value of a numeral a followed by b is value(a) * 10^len(b) + value(b) |
| `Text.LeadingZeroIgnored` | project.py:786 | a leading zero does not change the value `int()` reads ("07" and "7" are both 7) |
| `Calendar.DaysInMonth` | project.py:793-796 | months have 28 to 31 days; February has 29 exactly in leap years (every fourth year, except centuries not divisible by 400) |
| `Calendar.IsCalendarDate` | project.py:793-796 | what `datetime(year, month, day)` accepts: years 1 to 9999, months 1 to 12, days within the month, so never above 31 and never above 29 in February |
| `Calendar.Ordinal` | project.py:820-830 | a date's day number lies in its year's block: after every day of the earlier years, and at most the length of its own year beyond them |
| `Calendar.OrdinalMonotone` | project.py:820-824 | day ordinals order calendar dates chronologically, both directions |
| `Calendar.FirstOrdinal` | project.py:830 | 0001-01-01 is a calendar date and is day 1 |
| `Calendar.LastOrdinal` | project.py:830 | 9999-12-31 is a calendar date and is day 3652059 |
| `Calendar.OrdinalInRange` | project.py:830 | every calendar date of years 1 to 9999 has an ordinal between 1 and 3652059 |
| `Calendar.NextDateOrdinal` | project.py:830 | the day after a date (next day of the month, first of the next month, or January 1 of the next year) is a calendar date whose ordinal is one more, so `timedelta(days=k)` moves the ordinal by exactly k |
| `Calendar.EveryOrdinalIsADate` | project.py:830 | every ordinal from 1 to 3652059 is the ordinal of some calendar date, so `date - timedelta` succeeds whenever the result is in that range |
| `SymptomSeverity.Severity` | project.py:865-873 | the resolved severity is never negative |
| `SymptomSeverity.SeverityIsHighest` | project.py:865-873 | the severity is at least that of every table entry whose tag is a reason, and it is 0 or equal to one such entry's severity |
| `SymptomSeverity.GetSeverity` | project.py:863-873 | the triple loop over reasons, categories and entries returns the highest matching severity, starting from 0 |
| `SymptomSeverity.HighestIsUnique` | project.py:871-872 | at most one value meets the highest-severity characterisation |
| `SymptomSeverity.SeverityDependsOnTagSet` | project.py:868 | reason lists with the same tags, in any order and with any repetition, get the same severity |
| `SymptomSeverity.SeverityOfUnion` | project.py:868-873 | the severity of two reason lists together is the larger of their two severities |
| `SymptomSeverity.UnknownReasonsGiveZero` | project.py:865-873 | reasons no entry lists, including an empty reason list, give severity 0 |
| `ReschedulePolicy.DayDifference` | project.py:824 | the day difference is the non-negative distance between the two dates |
| `ReschedulePolicy.Reschedule` | project.py:824-832 | if the distance plus twice the severity is at most 20, the date is kept; a triggered date on or after today lands 11 - severity days after today; a triggered past date lands at twice its offset plus 11 - severity |
| `ReschedulePolicy.NeverMovedLater` | project.py:827-830 | for severities 0 to 11 the shift is never negative, so an appointment is never moved later |
| `ReschedulePolicy.FutureDateStaysAhead` | project.py:824-830 | for severities 0 to 11 a date on or after today stays between today and the requested date |
| `ReschedulePolicy.MovedFutureDateComesCloser` | project.py:824-830 | for severities 0 to 9 a triggered future date ends strictly closer to today |
| `ReschedulePolicy.TriggeredWithoutMoving` | project.py:827-830 | at severity 10, one day out, the rule fires but the date does not move |
| `ReschedulePolicy.PastDateMovesFurtherBack` | project.py:824-830 | a triggered date before today is moved further into the past, never closer |
| `ReschedulePolicy.HighSeverityLandsBeforeToday` | project.py:824-830 | a severity above 11 pulls a date on or after today to before today |
| `Appointments.Dedup` | project.py:853 | `list(set(s))`: exactly the elements of s, each once |
| `Appointments.UnionReasons` | project.py:853 | the merged reasons are exactly the tags of either list, without duplicates |
| `Appointments.FirstWithDate` | project.py:849-851 | the index found is the first entry on the date; none is found only when no entry has that date |
| `Appointments.MergedList` | project.py:849-857 | the merged list either keeps its length (an entry absorbed the appointment) or is the old list with the appointment appended; its dates are the old dates plus the incoming one |
| `Appointments.MergeStored` | project.py:843-858 | KeyError exactly when the store holds a bare record; a missing or empty list gives back the bare incoming record; a non-empty list stays a list whose dates are the old ones plus the incoming date |
| `Appointments.MergeAppointments` | project.py:843-858 | the scan with the merged flag gives the bare record for a missing or empty list, KeyError on a stored bare record, and otherwise the merged list |
| `Appointments.MergeIntoSameDate` | project.py:849-855 | only the first same-date entry changes; its reasons become the union, its date and time stay, the incoming time is dropped, and the length and all other entries are unchanged |
| `Appointments.MergeAppendsNewDate` | project.py:856-857 | with no entry on that date the appointment is appended and every earlier entry is unchanged |
| `Appointments.MergeKeepsOnePerDate` | project.py:849-857 | merging into a list with at most one appointment per date keeps it so, and the entry on the new date lists all the new reasons |
| `Appointments.MergeTwiceSameReasons` | project.py:849-857 | merging the same appointment a second time keeps length, dates, times and reason sets |
| `Appointments.CoughFeverExample` | project.py:849-855 | a cough entry merged with a fever appointment on the same date becomes one entry listing both, on the old time |
| `Appointments.EmptyListGivesBareRecord` | project.py:846-848 | a missing or empty list gives back the incoming record itself, not a one-entry list |
| `Appointments.BareRecordCannotBeMerged` | project.py:846-851 | after an empty list gives back a bare record, merging into that record raises KeyError |
| `Validate.VerifyTime` | project.py:805-807 | `verifyTime` accepts exactly the strings of 0s, 1s and 2s followed by a digit, a colon and two digits, optionally followed by one newline (Python's `$`) |
| `Validate.MatchClockIsClockShape` | project.py:805-807 | the regular-expression matcher for `[012]*\d{1}:\d{2}` accepts exactly that shape |
| `Validate.VerifyTimeSamples` | project.py:805-807 | accepts 9:30, 09:30, 29:99, 2229:00 and 9:30 followed by a newline; rejects 930, 9:3, 39:30 and the empty string |
| `Validate.VerifyDate` | project.py:783-800 | `verifyDate` accepts exactly the stripped text of three fields of 4, 1-2 and 1-2 digits that name a calendar date and are not component-wise in the past |
| `Validate.DateCheck` | project.py:785-786 | the first lines of `verifyDate` read the fields in order: ValueError on the first field `int()` cannot read, IndexError exactly when every field present is a numeral but there are fewer than three, and `verifyDate`'s answer when there are three numeric fields |
| `Validate.DateCheckMissingDay` | project.py:786 | a year and a month joined by one dash raise IndexError |
| `Validate.DateCheckEmpty` | project.py:786 | the empty text raises ValueError |
| `Validate.DateCheckOtherSeparator` | project.py:786 | "20/3", a date with another separator, raises ValueError |
| `Validate.DateBodySplits` | project.py:798-800 | text matching the date pattern splits into its year, month and day digits |
| `Validate.FieldsFormDateBody` | project.py:798-800 | three numerals of 4, 1-2 and 1-2 digits joined by dashes match the date pattern |
| `Validate.DatePatternIsFieldShape` | project.py:798-800 | on stripped text with numeric fields, the date pattern holds exactly when there are three fields of 4, 1-2 and 1-2 digits |
| `Validate.SpellingIsWellFormed` | project.py:785-800 | numerals of 4, 1-2 and 1-2 digits naming a calendar date, joined by dashes, are their own stripped form, read back as the date they spell, and well-formed date text |
| `Validate.SampleDateSpellings` | project.py:786 | "2024-02-20" and "2024-2-20" both spell 2024-02-20 |
| `Validate.ComponentwisePastIsPast` | project.py:787-790 | whatever the component-wise check rejects is before today |
| `Validate.VerifyDateAcceptsPastDate` | project.py:787-790 | in today's year, a date of an earlier month whose day is at least today's passes the check although it is before today (2024-02-20 on 2024-03-15) |
| `Validate.VerifyDateCorrected` | project.py:783-800 | the corrected check accepts exactly the well-formed dates on or after today, and only text the original accepts |
| `Validate.CorrectedDateNotBeforeToday` | project.py:783-790 | a date the corrected check accepts has an ordinal at or after today's |
| `Booking.BookedDate` | project.py:824-832 | the booked date differs from the requested one only when the reschedule rule fires for the appointment's severity |
| `Booking.Booked` | project.py:812-838 | OverflowError exactly when the booked date leaves years 1 to 9999, KeyError exactly when it does not and the store holds a bare record, and no other failure; a bare result is the appointment on its booked date, and a list result holds an entry on the booked date |
| `Booking.SortAppointment` | project.py:812-838 | severity, then reschedule, then merge; OverflowError when the new date leaves years 1 to 9999 |
| `Booking.BookedDateBounds` | project.py:814-832 | with table severities 0 to 11 the booked date is never later than requested, and never before today for a date on or after today |
| `Booking.BookingKeepsOnePerDate` | project.py:835-857 | booking into a list with one appointment per date keeps one per date, and the booked date's entry lists all new reasons |
| `Booking.FeverExample` | project.py:812-838 | on 2024-01-01 a fever (severity 5) appointment for 2024-01-25 is moved to 2024-01-07 |
| `Booking.CorrectedCheckBooksAhead` | project.py:783-832 | with the corrected date check and severities 0 to 11, the date read from the checked text is booked no earlier than today |
| `Booking.AsWrittenCheckBooksInPast` | project.py:787-790 | with the check as written, 2024-02-20 (either spelling) passes on 2024-03-15 and is booked for 2024-02-07 at severity 0 |
| `Booking.BookDateText` | project.py:822 | booking the date text as `bookAppointment` (project.py:745) passes it raises ValueError exactly when the text is not its own stripped form; otherwise it books the date the text names |
| `Booking.BookDateTextCorrected` | project.py:822 | booking the stripped text fails only with OverflowError or KeyError, never ValueError |
| `Booking.PaddedDateTextRaises` | project.py:822 | whenever some date text passes `verifyDate`, the same text with a leading space passes too, and booking it raises ValueError |
| `Booking.CorrectedBookingIgnoresPadding` | project.py:822 | the corrected booking agrees with the original on unpadded text, and books padded text as the text it pads |

## Findings

| source | as written | input that shows it | evidently intended | confidence | as-written member | corrected member |
|---|---|---|---|---|---|---|
| project.py:787-790 | a date is "in the past" only if its year, its month and its day are each at most today's (the day strictly below) | today 2024-03-15, date text 2024-02-20: accepted; the reschedule then books it for 2024-02-07 | reject every date before today in calendar order, as the method's comment says | high; not executed | `Validate.VerifyDateAcceptsPastDate` (and `Booking.AsWrittenCheckBooksInPast`) | `Validate.VerifyDateCorrected` (and `Booking.CorrectedCheckBooksAhead`) |
| project.py:822 | `verifyDate` strips the date text before checking it, but `bookAppointment` passes the unstripped text on and `strptime` needs the whole text to be the date | today 2024-02-10, date text " 2024-02-20": accepted by the check, then `strptime` raises ValueError | book the date the check accepted, read from the stripped text | high; not executed | `Booking.PaddedDateTextRaises` (with `Booking.BookDateText`) | `Booking.BookDateTextCorrected` (and `Booking.CorrectedBookingIgnoresPadding`) |

`Validate.VerifyDate` models the check as written. `Validate.VerifyDateCorrected` is
the intended check. `Booking.BookDateText` models booking the typed text as written,
and `Booking.BookDateTextCorrected` books the stripped text. Both bookings pass
the date as an ordinal to `Booking.Booked`, which `Booking.SortAppointment` is proved
equal to.

## Left out

- The Qt pages and their wiring (`Window`, `LogIn`, `SignUp`, `SignUp1`, `DashBoard`, `Month`, `Day`, `Symptoms`, `Symptoms1`, `ViewAppointments`, `Edit`, `Settings`), including `verifyFields`: they only move text between widgets and the modelled checks. `bookAppointment`'s hand-over of the date text is `Booking.BookDateText`.
- JSON and CSV access (`readQSS`, `readFileJSON`, `writeFileJSON`, `readFileJSON_Appointment`, `writeFileJSON_Appointment`, `deleteApointmentJSON`, the postal-code lookup). The symptom table and the stored appointments are parameters. `sortAppointment` reads the store once without using it, and the model has a single store argument. Whether a record is written back wrapped in a list is decided by the file helper, which is not modelled.
- `datetime.today()`, `strftime` and `timedelta`. Dates are ordinals and `today` is a parameter. Stored date text is assumed to be the zero-padded form `strftime` writes, so equal texts are equal ordinals. Date formatting is not modelled.
- `Booking.SortAppointment`: it takes the requested date as a day ordinal, so `strptime` on text that is not a date is not modelled; its only caller runs `verifyDate` first, and the one such text that gets through, padded text, is `Booking.BookDateText`'s ValueError.
- `Booking.CorrectedCheckBooksAhead`: it reads the requested date from the stripped text, as `Booking.BookDateTextCorrected` does; the original raises ValueError on padded text instead (second finding).
- `Validate.DateCheck`: `int()` also accepts signs, underscores, surrounding spaces and non-ASCII digits, which the model reads as ValueError; the other members take `HasNumericFields` (three ASCII numeral fields) as their precondition and leave these spellings out.
- `Validate.VerifyTime`: `\d` is modelled as the ASCII digits only, because Python's `\d` also matches other Unicode decimal digits.
- `Validate.VerifyDate`: `\d` is modelled as the ASCII digits only, for the same reason.
- Symptom table entries with no key or with several keys (the code reads only the first key). Category names are dropped because they do not affect the result. A missing symptom file, which makes the iteration fail, is not modelled.
- `Appointments.UnionReasons`: the order of the merged reasons is not promised, because Python's set iteration order is unspecified. The model keeps first occurrences.
- Editing an appointment (delete then append in `Edit.back`) and deleting one by matching its displayed text: both are whole-file rewrites.
- The regular-expression validators for e-mail, password, user name and name, whose meaning rests on the `re` library. `test.py`, an earlier GUI prototype.
