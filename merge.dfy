/** Appointments as the store keeps them, and mergeAppointments: an appointment on
    a date the user already has is folded into that entry, otherwise appended. */
module Appointments {
  import opened Outcomes

  /** One stored appointment. `date` is a day ordinal (date.toordinal()); the store
      keeps dates as zero-padded text, so equal texts are equal ordinals. */
  datatype Appointment = Appointment(date: int, time: string, reasons: seq<string>)

  /** What the store holds under a user name: nothing, a bare record, or a list. */
  datatype Stored = Missing | Single(record: Appointment) | Many(items: seq<Appointment>)

  predicate NoDuplicates(s: seq<string>) {
    forall i, j :: 0 <= i < j < |s| ==> s[i] != s[j]
  }

  /** list(set(s)): each element of s once. Python leaves the order of a set
      unspecified; this one keeps first occurrences, and the contract says no more. */
  function Dedup(s: seq<string>): (r: seq<string>)
    ensures forall x :: x in r <==> x in s
    ensures NoDuplicates(r)
  {
    if s == [] then []
    else
      var r := Dedup(s[..|s| - 1]);
      var x := s[|s| - 1];
      assert forall y :: y in s <==> y in s[..|s| - 1] || y == x by {
        assert s == s[..|s| - 1] + [x];
      }
      if x in r then r else r + [x]
  }

  /** The merged reason list of two appointments on the same date: their set union. */
  function UnionReasons(kept: seq<string>, added: seq<string>): (r: seq<string>)
    ensures forall t :: t in r <==> t in kept || t in added
    ensures NoDuplicates(r)
  {
    Dedup(kept + added)
  }

  /** The position of the first appointment on the given date, if any. */
  function FirstWithDate(items: seq<Appointment>, date: int): (found: Option<nat>)
    ensures found.Some? ==> found.value < |items| && items[found.value].date == date
    ensures found.Some? ==> forall j :: 0 <= j < found.value ==> items[j].date != date
    ensures found.None? ==> forall j :: 0 <= j < |items| ==> items[j].date != date
  {
    if items == [] then None
    else if items[0].date == date then Some(0)
    else match FirstWithDate(items[1..], date)
      case None => None
      case Some(k) => Some(k + 1)
  }

  /** The dates a list of appointments occupies. */
  function DateSet(items: seq<Appointment>): set<int> {
    set i | 0 <= i < |items| :: items[i].date
  }

  /** The list after merging: the first same-date entry takes the union of the
      reasons, keeping its date and time; with no such entry the appointment is appended.
      The list grows by at most one entry, and its dates become the old ones plus
      the incoming date. */
  function MergedList(items: seq<Appointment>, incoming: Appointment): (merged: seq<Appointment>)
    ensures |merged| == |items| || merged == items + [incoming]
    ensures DateSet(merged) == DateSet(items) + {incoming.date}
  {
    match FirstWithDate(items, incoming.date)
    case Some(i) =>
      var merged := items[i := items[i].(reasons := UnionReasons(items[i].reasons, incoming.reasons))];
      assert forall j :: 0 <= j < |items| ==> merged[j].date == items[j].date;
      assert DateSet(merged) == DateSet(items);
      merged
    case None =>
      var merged := items + [incoming];
      assert merged[|items|] == incoming;
      assert forall j :: 0 <= j < |items| ==> merged[j] == items[j];
      merged
  }

  /** mergeAppointments on what the store holds: a missing or empty list gives back
      the bare record; a bare record already stored fails on its first index; a
      non-empty list stays a list and takes the incoming date. */
  function MergeStored(stored: Stored, incoming: Appointment): (r: Result<Stored>)
    ensures r.Err? <==> stored.Single?
    ensures r.Err? ==> r.error == KeyError
    ensures r.Ok? && r.value.Single? ==> r.value.record == incoming
    ensures stored.Many? && stored.items != [] ==>
      && r.Ok? && r.value.Many?
      && DateSet(r.value.items) == DateSet(stored.items) + {incoming.date}
  {
    match stored
    case Missing => Ok(Single(incoming))
    case Single(_) => Err(KeyError)
    case Many(items) => if items == [] then Ok(Single(incoming)) else Ok(Many(MergedList(items, incoming)))
  }

  /** The set of reasons an appointment lists. */
  function ReasonSet(a: Appointment): set<string> {
    set t | t in a.reasons
  }

  /** Every date occurs at most once: the invariant merging is meant to keep. */
  predicate OnePerDate(items: seq<Appointment>) {
    forall i, j :: 0 <= i < j < |items| ==> items[i].date != items[j].date
  }

  /** mergeAppointments: scan for the first entry on the same date, overwrite its
      reasons in place and stop; if none was merged, append the appointment. */
  method MergeAppointments(stored: Stored, incoming: Appointment) returns (r: Result<Stored>)
    ensures r == MergeStored(stored, incoming)
  {
    if stored.Missing? || stored == Many([]) {
      return Ok(Single(incoming));
    }
    if stored.Single? {
      return Err(KeyError);
    }
    var appointments := stored.items;
    var merged := false;
    var i := 0;
    while i < |appointments|
      invariant 0 <= i <= |appointments|
      invariant appointments == stored.items
      invariant forall j :: 0 <= j < i ==> appointments[j].date != incoming.date
    {
      if incoming.date == appointments[i].date {
        appointments := appointments[i := appointments[i].(reasons := UnionReasons(appointments[i].reasons, incoming.reasons))];
        merged := true;
        break;
      }
      i := i + 1;
    }
    if !merged {
      appointments := appointments + [incoming];
    }
    r := Ok(Many(appointments));
  }

  /** A merge into a same-date entry: only the first such entry changes, its reasons
      become the union, its date and time stay, and the list keeps its length. */
  lemma MergeIntoSameDate(items: seq<Appointment>, incoming: Appointment, i: nat)
    requires i < |items| && items[i].date == incoming.date
    requires forall j :: 0 <= j < i ==> items[j].date != incoming.date
    ensures var merged := MergedList(items, incoming);
      && |merged| == |items|
      && merged[i].date == items[i].date && merged[i].time == items[i].time
      && ReasonSet(merged[i]) == ReasonSet(items[i]) + ReasonSet(incoming)
      && NoDuplicates(merged[i].reasons)
      && forall j :: 0 <= j < |items| && j != i ==> merged[j] == items[j]
  {
    assert FirstWithDate(items, incoming.date) == Some(i);
  }

  /** With no entry on that date the appointment goes at the end and nothing else changes. */
  lemma MergeAppendsNewDate(items: seq<Appointment>, incoming: Appointment)
    requires forall j :: 0 <= j < |items| ==> items[j].date != incoming.date
    ensures MergedList(items, incoming) == items + [incoming]
  {
  }

  /** Merging keeps at most one appointment per date, and afterwards exactly one
      entry is on the incoming date and it lists all the incoming reasons. */
  lemma MergeKeepsOnePerDate(items: seq<Appointment>, incoming: Appointment)
    requires OnePerDate(items)
    ensures var merged := MergedList(items, incoming);
      && OnePerDate(merged)
      && exists i :: 0 <= i < |merged| && merged[i].date == incoming.date
                     && ReasonSet(incoming) <= ReasonSet(merged[i])
  {
    var merged := MergedList(items, incoming);
    match FirstWithDate(items, incoming.date)
    case Some(i) =>
      assert merged[i].date == incoming.date;
      assert ReasonSet(incoming) <= ReasonSet(merged[i]);
    case None =>
      assert merged[|items|] == incoming;
  }

  /** Merging the same appointment twice gives the entries the same dates, times
      and reason sets as merging it once. */
  lemma MergeTwiceSameReasons(items: seq<Appointment>, incoming: Appointment)
    ensures var once := MergedList(items, incoming);
      var twice := MergedList(once, incoming);
      && |twice| == |once|
      && forall j :: 0 <= j < |once| ==>
           && twice[j].date == once[j].date
           && twice[j].time == once[j].time
           && ReasonSet(twice[j]) == ReasonSet(once[j])
  {
    var once := MergedList(items, incoming);
    var twice := MergedList(once, incoming);
    match FirstWithDate(items, incoming.date)
    case Some(i) =>
      MergeIntoSameDate(items, incoming, i);
      MergeIntoSameDate(once, incoming, i);
    case None =>
      assert once[|items|] == incoming;
      assert FirstWithDate(once, incoming.date) == Some(|items|);
  }

  /** The worked example: a cough appointment and a fever appointment on the same
      date become one entry listing both, on the existing entry's time. */
  lemma CoughFeverExample(date: int, time: string, otherTime: string)
    ensures var merged := MergedList([Appointment(date, time, ["cough"])], Appointment(date, otherTime, ["fever"]));
      |merged| == 1 && merged[0].date == date && merged[0].time == time
      && ReasonSet(merged[0]) == {"cough", "fever"}
  {
    MergeIntoSameDate([Appointment(date, time, ["cough"])], Appointment(date, otherTime, ["fever"]), 0);
  }

  /** An empty or missing list gives back the bare record rather than a one-entry list. */
  lemma EmptyListGivesBareRecord(incoming: Appointment)
    ensures MergeStored(Missing, incoming) == Ok(Single(incoming))
    ensures MergeStored(Many([]), incoming) == Ok(Single(incoming))
  {
  }

  /** A bare record once written back cannot be merged into: the next merge fails. */
  lemma BareRecordCannotBeMerged(first: Appointment, second: Appointment)
    ensures MergeStored(Many([]), first).Ok?
    ensures MergeStored(MergeStored(Many([]), first).value, second) == Err(KeyError)
  {
  }
}
