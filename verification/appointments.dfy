/**
 * The appointment scheduler: appointments are appended when their title has
 * something besides whitespace, and are shown in (date, time) order.
 */
module Appointments {
  import opened Replies
  import Text
  import StableSort

  const MicrosPerDay := 86_400_000_000

  /** A time of day in microseconds after midnight, as precise as Python's `datetime.time`. */
  type TimeOfDay = t: int | 0 <= t < MicrosPerDay

  /** `date` is the day's ordinal number. */
  datatype Appointment = Appointment(title: string, date: int, time: TimeOfDay)

  const AddedMessage := "Appointment added successfully!"
  const MissingTitleMessage := "Please provide a title for the appointment."

  /** Adding an appointment: appended at the end exactly when the title is not all whitespace. */
  function Add(appts: seq<Appointment>, title: string, date: int, time: TimeOfDay): (r: (seq<Appointment>, Reply))
    ensures r.1.Success? <==> !Text.AllSpace(title)
    ensures r.1.Success? ==> r.0 == appts + [Appointment(title, date, time)] && r.1.message == AddedMessage
    ensures r.1.Error? ==> r.0 == appts && r.1.message == MissingTitleMessage
  {
    if Text.Strip(title) != [] then
      (appts + [Appointment(title, date, time)], Success(AddedMessage))
    else
      (appts, Error(MissingTitleMessage))
  }

  /** The sort key `(date, time)` as one number: microseconds since the start of day 0. */
  function When(a: Appointment): int
  {
    a.date * MicrosPerDay + a.time
  }

  predicate LexBefore(a: Appointment, b: Appointment)
  {
    a.date < b.date || (a.date == b.date && a.time < b.time)
  }

  lemma DayStartsMonotone(x: int, y: int)
    requires x < y
    ensures x * MicrosPerDay + MicrosPerDay <= y * MicrosPerDay
  {
    assert (y - x) * MicrosPerDay >= MicrosPerDay;
    assert y * MicrosPerDay - x * MicrosPerDay == (y - x) * MicrosPerDay;
  }

  /** Comparing the numbers is comparing the `(date, time)` pairs lexicographically, as Python
      compares tuples. */
  lemma WhenIsLexicographic(a: Appointment, b: Appointment)
    ensures When(a) < When(b) <==> LexBefore(a, b)
    ensures When(a) == When(b) <==> a.date == b.date && a.time == b.time
  {
    if a.date < b.date {
      DayStartsMonotone(a.date, b.date);
    } else if b.date < a.date {
      DayStartsMonotone(b.date, a.date);
    }
  }

  /** The appointments that fall on one moment, in the order they were added. */
  function AtMoment(appts: seq<Appointment>, moment: int): seq<Appointment>
  {
    StableSort.WithKey(appts, When, moment)
  }

  /** The displayed list: the same appointments in lexicographic (date, time) order, those at the
      same moment in the order they were added. */
  function Display(appts: seq<Appointment>): (shown: seq<Appointment>)
    ensures multiset(shown) == multiset(appts)
    ensures forall i, j :: 0 <= i < j < |shown| ==> !LexBefore(shown[j], shown[i])
    ensures forall m :: AtMoment(shown, m) == AtMoment(appts, m)
  {
    StableSort.SortStable(appts, When);
    var shown := StableSort.Sort(appts, When);
    assert forall i, j :: 0 <= i < j < |shown| ==> !LexBefore(shown[j], shown[i]) by {
      forall i, j | 0 <= i < j < |shown|
        ensures !LexBefore(shown[j], shown[i])
      {
        WhenIsLexicographic(shown[j], shown[i]);
      }
    }
    shown
  }

  /** Any arrangement with those three properties is the displayed one. */
  lemma DisplayUnique(appts: seq<Appointment>, shown: seq<Appointment>)
    requires forall i, j :: 0 <= i < j < |shown| ==> !LexBefore(shown[j], shown[i])
    requires forall m :: AtMoment(shown, m) == AtMoment(appts, m)
    ensures shown == Display(appts)
  {
    forall i, j | 0 <= i < j < |shown|
      ensures When(shown[i]) <= When(shown[j])
    {
      WhenIsLexicographic(shown[j], shown[i]);
    }
    forall m
      ensures StableSort.WithKey(shown, When, m) == StableSort.WithKey(appts, When, m)
    {
      assert AtMoment(shown, m) == AtMoment(appts, m);
    }
    StableSort.StableSortIsSort(shown, appts, When);
  }
}
