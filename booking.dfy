/** sortAppointment: resolve the severity of a new appointment, reschedule it,
    and merge it into what the store holds for the user. */
module Booking {
  import opened Calendar
  import opened SymptomSeverity
  import opened ReschedulePolicy
  import opened Outcomes
  import opened Appointments
  import Text
  import Validate

  /** The date the appointment ends up on: it differs from the requested date only
      when the reschedule rule fires for the appointment's severity. */
  function BookedDate(table: Table, appointment: Appointment, today: int): (date: int)
    ensures date != appointment.date ==> Triggers(appointment.date, today, Severity(table, appointment.reasons))
  {
    Reschedule(appointment.date, today, Severity(table, appointment.reasons))
  }

  /** What sortAppointment returns for the store to save: OverflowError exactly when
      the new date falls outside years 1 to 9999, else KeyError exactly when the store
      holds a bare record, else the merge of the rescheduled appointment. */
  function Booked(table: Table, stored: Stored, appointment: Appointment, today: int): (r: Result<Stored>)
    ensures r.Err? ==> r.error == OverflowError || r.error == KeyError
    ensures r == Err(OverflowError) <==> !(1 <= BookedDate(table, appointment, today) <= MaxOrdinal)
    ensures r == Err(KeyError) <==> 1 <= BookedDate(table, appointment, today) <= MaxOrdinal && stored.Single?
    ensures r.Ok? && r.value.Single? ==> r.value.record == appointment.(date := BookedDate(table, appointment, today))
    ensures r.Ok? && r.value.Many? ==> BookedDate(table, appointment, today) in DateSet(r.value.items)
  {
    var date := BookedDate(table, appointment, today);
    if date < 1 || date > MaxOrdinal then Err(OverflowError)
    else MergeStored(stored, appointment.(date := date))
  }

  /** sortAppointment: the severity scan, the reschedule rule applied to the
      appointment's date, then mergeAppointments on the user's stored entry. */
  method SortAppointment(table: Table, stored: Stored, appointment: Appointment, today: int)
    returns (r: Result<Stored>)
    requires 1 <= appointment.date <= MaxOrdinal
    ensures r == Booked(table, stored, appointment, today)
  {
    var severity := GetSeverity(table, appointment.reasons);
    var newDate := Reschedule(appointment.date, today, severity);
    if newDate < 1 || newDate > MaxOrdinal {
      return Err(OverflowError);
    }
    r := MergeAppointments(stored, appointment.(date := newDate));
  }

  /** A table whose severities all lie between 0 and 11. */
  predicate SeveritiesUpTo11(table: Table) {
    forall c, k :: 0 <= c < |table| && 0 <= k < |table[c]| ==> 0 <= table[c][k].severity <= 11
  }

  /** With such a table an appointment is never moved later, and one on or after
      today stays on or after today. */
  lemma BookedDateBounds(table: Table, appointment: Appointment, today: int)
    requires SeveritiesUpTo11(table)
    ensures BookedDate(table, appointment, today) <= appointment.date
    ensures appointment.date >= today ==> BookedDate(table, appointment, today) >= today
  {
    var severity := Severity(table, appointment.reasons);
    SeverityIsHighest(table, appointment.reasons);
    assert severity <= 11;
    NeverMovedLater(appointment.date, today, severity);
    if appointment.date >= today {
      FutureDateStaysAhead(appointment.date, today, severity);
    }
  }

  /** Booking into a list with one appointment per date keeps one per date, and the
      entry on the booked date lists every reason of the new appointment. */
  lemma BookingKeepsOnePerDate(table: Table, items: seq<Appointment>, appointment: Appointment, today: int)
    requires OnePerDate(items) && items != []
    requires Booked(table, Many(items), appointment, today).Ok?
    ensures var booked := Booked(table, Many(items), appointment, today).value;
      && booked.Many? && OnePerDate(booked.items)
      && exists i :: 0 <= i < |booked.items| && booked.items[i].date == BookedDate(table, appointment, today)
                     && ReasonSet(appointment) <= ReasonSet(booked.items[i])
  {
    var date := BookedDate(table, appointment, today);
    var moved := appointment.(date := date);
    assert ReasonSet(moved) == ReasonSet(appointment);
    MergeKeepsOnePerDate(items, moved);
  }

  /** The worked example: on 2024-01-01 an appointment for 2024-01-25 for a fever of
      severity 5 is 24 days out, 24 + 10 > 20, and it is moved to 2024-01-07. */
  lemma FeverExample()
    ensures var table := [[Entry("fever", 5)]];
      var appointment := Appointment(Ordinal(CivilDate(2024, 1, 25)), "09:00", ["fever"]);
      Booked(table, Missing, appointment, Ordinal(CivilDate(2024, 1, 1)))
        == Ok(Single(appointment.(date := Ordinal(CivilDate(2024, 1, 7)))))
  {
    var table := [[Entry("fever", 5)]];
    SeverityIsHighest(table, ["fever"]);
    assert IsHighestSeverity(table, ["fever"], 5) by {
      assert table[0][0].tag in ["fever"];
    }
    HighestIsUnique(table, ["fever"], 5, Severity(table, ["fever"]));
  }

  /** With the corrected date check and a table of severities 0 to 11, the booked
      date is never before today. */
  lemma CorrectedCheckBooksAhead(table: Table, text: string, today: CivilDate, time: string, reasons: seq<string>)
    requires Validate.HasNumericFields(Text.Strip(text)) && IsCalendarDate(today)
    requires Validate.VerifyDateCorrected(text, today) && SeveritiesUpTo11(table)
    ensures var requested := Validate.FieldsOf(Text.Strip(text));
      && IsCalendarDate(requested)
      && BookedDate(table, Appointment(Ordinal(requested), time, reasons), Ordinal(today)) >= Ordinal(today)
  {
    var requested := Validate.FieldsOf(Text.Strip(text));
    Validate.CorrectedDateNotBeforeToday(text, today);
    BookedDateBounds(table, Appointment(Ordinal(requested), time, reasons), Ordinal(today));
  }

  /** With the check as written, the text 2024-02-20 (either spelling) passes on
      2024-03-15 and, at severity 0, is booked for 2024-02-07, more than a month
      before today. */
  lemma AsWrittenCheckBooksInPast(y: string, m: string, d: string, time: string, reasons: seq<string>)
    requires Validate.IsDateSpelling(y, m, d) && Validate.SpelledDate(y, m, d) == CivilDate(2024, 2, 20)
    ensures var s := y + "-" + m + "-" + d;
      && Validate.HasNumericFields(Text.Strip(s))
      && Validate.VerifyDate(s, CivilDate(2024, 3, 15))
      && IsCalendarDate(Validate.FieldsOf(Text.Strip(s)))
      && BookedDate([], Appointment(Ordinal(Validate.FieldsOf(Text.Strip(s))), time, reasons), Ordinal(CivilDate(2024, 3, 15)))
           == Ordinal(CivilDate(2024, 2, 7))
      && Ordinal(CivilDate(2024, 2, 7)) < Ordinal(CivilDate(2024, 3, 15))
  {
    Validate.SpellingIsWellFormed(y, m, d);
    Validate.VerifyDateAcceptsPastDate(y, m, d, CivilDate(2024, 3, 15));
    UnknownReasonsGiveZero([], reasons);
  }

  /** bookAppointment's call of sortAppointment on the date text as typed, once
      verifyDate has accepted it. verifyDate strips the text before it reads it, but
      the stored text is not stripped, and strptime("%Y-%m-%d") needs the whole text
      to be the date: padded text raises ValueError. Text equal to its stripped form
      is booked on the date it names. */
  function BookDateText(table: Table, stored: Stored, text: string, time: string, reasons: seq<string>,
                        today: CivilDate): (r: Result<Stored>)
    requires IsCalendarDate(today)
    requires Validate.HasNumericFields(Text.Strip(text)) && Validate.VerifyDate(text, today)
    ensures r == Err(ValueError) <==> Text.Strip(text) != text
    ensures Text.Strip(text) == text ==>
      r == Booked(table, stored, Appointment(Ordinal(Validate.FieldsOf(text)), time, reasons), Ordinal(today))
  {
    if Text.Strip(text) != text then Err(ValueError)
    else Booked(table, stored, Appointment(Ordinal(Validate.FieldsOf(text)), time, reasons), Ordinal(today))
  }

  /** Booking that reads the date from the stripped text, as verifyDate does: text the
      check accepted never raises ValueError. */
  function BookDateTextCorrected(table: Table, stored: Stored, text: string, time: string, reasons: seq<string>,
                                 today: CivilDate): (r: Result<Stored>)
    requires IsCalendarDate(today)
    requires Validate.HasNumericFields(Text.Strip(text)) && Validate.VerifyDate(text, today)
    ensures r.Err? ==> r.error == OverflowError || r.error == KeyError
  {
    Booked(table, stored, Appointment(Ordinal(Validate.FieldsOf(Text.Strip(text))), time, reasons), Ordinal(today))
  }

  /** Finding, as written: whenever verifyDate accepts some date text, it also accepts
      that text with a leading space, and booking the padded text raises ValueError. */
  lemma PaddedDateTextRaises(table: Table, stored: Stored, s: string, time: string, reasons: seq<string>,
                             today: CivilDate)
    requires IsCalendarDate(today)
    requires Validate.HasNumericFields(Text.Strip(s)) && Validate.VerifyDate(s, today)
    ensures Validate.HasNumericFields(Text.Strip(" " + s)) && Validate.VerifyDate(" " + s, today)
    ensures BookDateText(table, stored, " " + s, time, reasons, today) == Err(ValueError)
  {
    Text.StripLeadingSpace(s);
  }

  /** The corrected booking agrees with the original on text without padding, and
      books padded text exactly as the text it pads. */
  lemma CorrectedBookingIgnoresPadding(table: Table, stored: Stored, s: string, time: string, reasons: seq<string>,
                                       today: CivilDate)
    requires IsCalendarDate(today) && Text.Strip(s) == s
    requires Validate.HasNumericFields(s) && Validate.VerifyDate(s, today)
    ensures Validate.HasNumericFields(Text.Strip(" " + s)) && Validate.VerifyDate(" " + s, today)
    ensures BookDateTextCorrected(table, stored, s, time, reasons, today) == BookDateText(table, stored, s, time, reasons, today)
    ensures BookDateTextCorrected(table, stored, " " + s, time, reasons, today)
         == BookDateText(table, stored, s, time, reasons, today)
  {
    Text.StripLeadingSpace(s);
  }
}
