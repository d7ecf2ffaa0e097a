/** The date-window calculator of the parser (src/nlp_parser.py, lines 30-52).

    Calendar days are proleptic Gregorian ordinals as Python's
    `date.toordinal` numbers them: day 1 is 0001-01-01, a Monday.  The source
    works on `datetime` values and strips the time of day at the end; shifting
    by whole days commutes with that truncation, so the model works on the
    ordinal of the reference instant's date throughout. */
module Dates {
  import opened Wrappers

  type Day = int

  /** Python's `date.weekday()`: Monday is 0, Sunday is 6. */
  function Weekday(d: Day): (w: int)
    ensures 0 <= w < 7
    ensures (d - w - 1) % 7 == 0
  {
    (d + 6) % 7
  }

  /** `_monday_of_week`: the Monday that starts the ISO week holding `d`. */
  function MondayOfWeek(d: Day): (m: Day)
    ensures Weekday(m) == 0
    ensures m <= d <= m + 6
  {
    d - Weekday(d)
  }

  /** `_sunday_of_week`: the Sunday that ends the ISO week holding `d`. */
  function SundayOfWeek(d: Day): (s: Day)
    ensures Weekday(s) == 6
    ensures s - 6 <= d <= s
    ensures s == MondayOfWeek(d) + 6
  {
    MondayOfWeek(d) + 6
  }

  /** A Monday that is at most six days before `d` is the Monday of `d`'s week. */
  lemma MondayIsUnique(d: Day, m: Day)
    requires Weekday(m) == 0 && m <= d <= m + 6
    ensures m == MondayOfWeek(d)
  {
    var m' := MondayOfWeek(d);
    assert (m - 1) % 7 == 0 && (m' - 1) % 7 == 0;
    assert -6 <= m - m' <= 6;
    assert (m - m') % 7 == 0 by {
      assert m - m' == (m - 1) - (m' - 1);
    }
  }

  /** Shifting a day by a whole week shifts its Monday by a whole week. */
  lemma {:induction false} MondayShiftsByWeek(d: Day)
    ensures MondayOfWeek(d - 7) == MondayOfWeek(d) - 7
    ensures MondayOfWeek(d + 7) == MondayOfWeek(d) + 7
  {
    var m := MondayOfWeek(d);
    assert Weekday(m - 7) == 0 && Weekday(m + 7) == 0 by {
      assert (m - 7 + 6) % 7 == (m + 6) % 7;
      assert (m + 7 + 6) % 7 == (m + 6) % 7;
    }
    MondayIsUnique(d - 7, m - 7);
    MondayIsUnique(d + 7, m + 7);
  }

  /** The `date_range` value: its `type`, and the inclusive bounds when set. */
  datatype DateRange = DateRange(kind: Option<string>, start: Option<Day>, end: Option<Day>)

  /** `{"type": None}`: no temporal constraint. */
  const NoRange := DateRange(None, None, None)

  /** The keywords `_compute_range` recognises. */
  const WeekKeywords: set<string> := {"last_week", "this_week", "next_week"}

  /** Python truthiness of `date_range.get("type")`: present and non-empty. */
  predicate Active(dr: DateRange) {
    dr.kind.Some? && dr.kind.value != ""
  }

  /** A whole ISO week, Monday to Sunday, named `keyword`. */
  predicate IsWeek(dr: DateRange, keyword: string) {
    && dr.kind == Some(keyword)
    && dr.start.Some? && dr.end.Some?
    && Weekday(dr.start.value) == 0
    && dr.end.value == dr.start.value + 6
  }

  /** `_compute_range(keyword, now)`. */
  function ComputeRange(keyword: string, now: Day): (r: DateRange)
    ensures keyword in WeekKeywords ==> IsWeek(r, keyword)
    ensures keyword !in WeekKeywords ==> r == NoRange
    ensures keyword == "this_week" ==> r.start.value <= now <= r.end.value
    ensures keyword == "last_week" ==> r.start.value <= now - 7 <= r.end.value
    ensures keyword == "next_week" ==> r.start.value <= now + 7 <= r.end.value
  {
    if keyword == "last_week" then
      var end := SundayOfWeek(now - 7);
      var start := end - 6;
      DateRange(Some("last_week"), Some(start), Some(end))
    else if keyword == "this_week" then
      DateRange(Some("this_week"), Some(MondayOfWeek(now)), Some(SundayOfWeek(now)))
    else if keyword == "next_week" then
      var start := MondayOfWeek(now + 7);
      var end := start + 6;
      DateRange(Some("next_week"), Some(start), Some(end))
    else
      NoRange
  }

  /** Last week ends the day before this week starts, and next week starts
      the day after this week ends; each is seven days long. */
  lemma {:induction false} WeeksAreAdjacent(now: Day)
    ensures ComputeRange("last_week", now).end.value == ComputeRange("this_week", now).start.value - 1
    ensures ComputeRange("last_week", now).start.value == ComputeRange("last_week", now).end.value - 6
    ensures ComputeRange("next_week", now).start.value == ComputeRange("this_week", now).end.value + 1
    ensures ComputeRange("next_week", now).end.value == ComputeRange("next_week", now).start.value + 6
  {
    MondayShiftsByWeek(now);
  }
}
