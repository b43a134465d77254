/**
 * Calendar days as proleptic Gregorian ordinals, the numbering of Python's
 * `date.toordinal()`: 0001-01-01 is day 1 and is a Monday.
 */
module Dates {

  type Date = int

  /** The seven weekday names of the sheet (`WEEKDAYS`), Monday first. */
  const Weekdays: seq<string> := ["Mon", "Tue", "Wed", "Thu", "Fri", "Sat", "Sun"]

  /** One of the seven weekday names. */
  predicate IsWeekday(name: string) {
    name in Weekdays
  }

  /** `date.weekday()`: 0 for Monday through 6 for Sunday. */
  function Weekday(d: Date): (w: nat)
    ensures w < 7
  {
    (d + 6) % 7
  }

  /** `monday_of_week`: the Monday of the week holding `d`. */
  function MondayOfWeek(d: Date): (m: Date)
    ensures Weekday(m) == 0
    ensures m <= d < m + 7
  {
    d - Weekday(d)
  }

  /** A Monday at most six days before `d` is the Monday of its week. */
  lemma MondayOfWeekUnique(d: Date, m: Date)
    requires Weekday(m) == 0 && m <= d < m + 7
    ensures m == MondayOfWeek(d)
  {
    var q := (m + 6) / 7;
    assert m + 6 == 7 * q;
    assert (d + 6) % 7 == d - m by {
      assert d + 6 == 7 * q + (d - m);
    }
  }

  /** The i-th day of a week view (Monday plus i) falls on weekday i, so the
      seven-day loops of the week views visit the weekdays in order. */
  lemma WeekdayOfWeekDay(d: Date, i: nat)
    requires i < 7
    ensures Weekday(MondayOfWeek(d) + i) == i
  {
    var m := MondayOfWeek(d);
    var q := (m + 6) / 7;
    assert m + 6 == 7 * q;
    assert m + i + 6 == 7 * q + i;
  }

  /** The Monday seven days on is the Monday of the week seven days on. */
  lemma NextWeekMonday(d: Date)
    ensures MondayOfWeek(d + 7) == MondayOfWeek(d) + 7
  {
    var m := MondayOfWeek(d) + 7;
    assert Weekday(m) == 0 by {
      assert m + 6 == (MondayOfWeek(d) + 6) + 7;
    }
    MondayOfWeekUnique(d + 7, m);
  }

  /** The window `[monday, monday + 6]` used by the exam week views is exactly the
      set of days in the same week as `d`. */
  lemma SameWeekWindow(d: Date, x: Date)
    ensures MondayOfWeek(d) <= x <= MondayOfWeek(d) + 6 <==> MondayOfWeek(x) == MondayOfWeek(d)
  {
    var m := MondayOfWeek(d);
    if m <= x <= m + 6 {
      MondayOfWeekUnique(x, m);
    }
  }
}
