/** The reschedule policy of sortAppointment, on day ordinals: a requested date
    that is far from today relative to the urgency of its reasons is pulled in. */
module ReschedulePolicy {

  /** The number of whole days between the two dates, whichever comes first. */
  function DayDifference(requested: int, today: int): (n: nat)
    ensures n == requested - today || n == today - requested
  {
    if requested >= today then requested - today else today - requested
  }

  /** The rule that moves an appointment: distance plus twice the severity above 20. */
  predicate Triggers(requested: int, today: int, severity: int) {
    DayDifference(requested, today) + 2 * severity > 20
  }

  /** The date the appointment is booked on. A triggered future date lands
      11 - severity days after today; a date that does not trigger stays. */
  function Reschedule(requested: int, today: int, severity: int): (r: int)
    ensures !Triggers(requested, today, severity) ==> r == requested
    ensures Triggers(requested, today, severity) && requested >= today ==> r == today + (11 - severity)
    ensures Triggers(requested, today, severity) && requested < today
            ==> r - today == 2 * (requested - today) + (11 - severity)
  {
    var dayDifference := DayDifference(requested, today);
    if dayDifference + severity * 2 > 20 then requested - (dayDifference - (11 - severity))
    else requested
  }

  /** For severities 0 to 11 the shift is never negative: an appointment is never moved later. */
  lemma NeverMovedLater(requested: int, today: int, severity: int)
    requires 0 <= severity <= 11
    ensures Reschedule(requested, today, severity) <= requested
  {
  }

  /** For severities 0 to 11 a date on or after today stays on or after today,
      and a moved one ends up no farther from today than it was. */
  lemma FutureDateStaysAhead(requested: int, today: int, severity: int)
    requires 0 <= severity <= 11 && requested >= today
    ensures today <= Reschedule(requested, today, severity) <= requested
  {
  }

  /** The distance to today shrinks strictly when a future date is moved with a severity up to 9. */
  lemma MovedFutureDateComesCloser(requested: int, today: int, severity: int)
    requires 0 <= severity <= 9 && requested >= today && Triggers(requested, today, severity)
    ensures DayDifference(Reschedule(requested, today, severity), today) < DayDifference(requested, today)
  {
  }

  /** At severity 10 and one day out the rule fires but the date does not move,
      so the distance to today does not always shrink when the rule fires. */
  lemma TriggeredWithoutMoving(today: int)
    ensures Triggers(today + 1, today, 10) && Reschedule(today + 1, today, 10) == today + 1
  {
  }

  /** A date before today that fires the rule is moved further into the past. */
  lemma PastDateMovesFurtherBack(requested: int, today: int, severity: int)
    requires 0 <= severity <= 11 && requested < today && Triggers(requested, today, severity)
    ensures Reschedule(requested, today, severity) <= requested < today
    ensures DayDifference(Reschedule(requested, today, severity), today) >= DayDifference(requested, today)
  {
  }

  /** A severity above 11 pulls every future date that fires the rule to before today. */
  lemma HighSeverityLandsBeforeToday(requested: int, today: int, severity: int)
    requires severity >= 12 && requested >= today
    ensures Reschedule(requested, today, severity) < today
  {
  }
}
