/** The filter engine of src/query_engine.py: it narrows the (already
    access-scoped) student rows by a parsed query and renders a one-line
    summary of the query.  Each pandas selection `df[mask]` is a `Where`;
    `apply_parsed_filters` is proved equal to a single selection by the
    reference predicate `Admits`. */
module Engine {
  import opened Wrappers
  import opened Text
  import opened Dates
  import opened Query
  import opened Table

  /** The two date columns a range can apply to. */
  datatype DateColumn = QuizDate | SubmissionDate

  function DateOf(x: Row, column: DateColumn): Option<Day> {
    match column
    case QuizDate => x.quizDate
    case SubmissionDate => x.submissionDate
  }

  /** `column >= start`; a missing date (NaT) compares false. */
  predicate OnOrAfter(d: Option<Day>, start: Day) {
    d.Some? && start <= d.value
  }

  /** `column <= end`; a missing date (NaT) compares false. */
  predicate OnOrBefore(d: Option<Day>, end: Day) {
    d.Some? && d.value <= end
  }

  /** A date the range admits: every row when the range is inactive,
      otherwise a present date within the bounds that are given. */
  predicate InWindow(d: Option<Day>, dr: DateRange) {
    !Active(dr)
    || ((dr.start.None? || OnOrAfter(d, dr.start.value))
        && (dr.end.None? || OnOrBefore(d, dr.end.value)))
  }

  function WindowMask(column: DateColumn, dr: DateRange): Row -> bool {
    x => InWindow(DateOf(x, column), dr)
  }

  function StartMask(column: DateColumn, start: Option<Day>): Row -> bool {
    x => start.None? || OnOrAfter(DateOf(x, column), start.value)
  }

  function EndMask(column: DateColumn, end: Option<Day>): Row -> bool {
    x => end.None? || OnOrBefore(DateOf(x, column), end.value)
  }

  /** `if start is not None: df = df[df[column] >= start]`. */
  function FromStart(rows: seq<Row>, column: DateColumn, start: Option<Day>): (r: seq<Row>)
    ensures r == Where(rows, StartMask(column, start))
  {
    if start.Some? then
      var step := (x: Row) => OnOrAfter(DateOf(x, column), start.value);
      WhereSame(rows, step, StartMask(column, start));
      Where(rows, step)
    else
      WhereKeepsAll(rows, StartMask(column, start));
      rows
  }

  /** `if end is not None: df = df[df[column] <= end]`. */
  function UpToEnd(rows: seq<Row>, column: DateColumn, end: Option<Day>): (r: seq<Row>)
    ensures r == Where(rows, EndMask(column, end))
  {
    if end.Some? then
      var step := (x: Row) => OnOrBefore(DateOf(x, column), end.value);
      WhereSame(rows, step, EndMask(column, end));
      Where(rows, step)
    else
      WhereKeepsAll(rows, EndMask(column, end));
      rows
  }

  /** `_apply_date_range`: one selection by the window, and no change at
      all for an inactive range. */
  function ApplyDateRange(rows: seq<Row>, column: DateColumn, dr: DateRange): (r: seq<Row>)
    ensures r == Where(rows, WindowMask(column, dr))
    ensures !Active(dr) ==> r == rows
  {
    if !Active(dr) then
      WhereKeepsAll(rows, WindowMask(column, dr));
      rows
    else
      Narrow(rows, StartMask(column, dr.start), EndMask(column, dr.end), WindowMask(column, dr));
      UpToEnd(FromStart(rows, column, dr.start), column, dr.end)
  }

  /** `[c.upper() for c in classes]`. */
  function UpperEach(cs: seq<string>): (r: seq<string>)
    ensures |r| == |cs|
    ensures forall s :: s in r <==> exists c :: c in cs && Upper(c) == s
  {
    if cs == [] then []
    else
      assert cs[0] in cs;
      assert forall c :: c in cs[1..] ==> c in cs;
      assert forall c :: c in cs ==> c == cs[0] || c in cs[1..];
      [Upper(cs[0])] + UpperEach(cs[1..])
  }

  /** The grade filter, when present, is matched exactly. */
  predicate GradeOk(f: Filters, x: Row) {
    f.grade.None? || x.grade == f.grade.value
  }

  /** A non-empty class list admits the upper-cased codes it names. */
  predicate ClassOk(f: Filters, x: Row) {
    f.classes.None? || f.classes.value == [] || x.classCode in UpperEach(f.classes.value)
  }

  /** The region filter, when present, is matched exactly. */
  predicate RegionOk(f: Filters, x: Row) {
    f.region.None? || x.region == f.region.value
  }

  /** Homework queries compare the submission status lower-cased. */
  predicate StatusOk(q: ParseResult, x: Row) {
    q.intent == "homework" ==>
      (q.filters.homeworkSubmitted.None? || x.homeworkSubmitted == Lower(q.filters.homeworkSubmitted.value))
  }

  /** The date column the range governs: the submission date for homework
      queries asking for status exactly "yes", nothing for other homework
      queries, and the quiz date for every other intent. */
  predicate DateOk(q: ParseResult, x: Row) {
    if q.intent == "homework" then
      q.filters.homeworkSubmitted == Some("yes") ==> InWindow(x.submissionDate, q.dateRange)
    else
      InWindow(x.quizDate, q.dateRange)
  }

  /** The reference definition of the rows a query keeps. */
  predicate Admits(q: ParseResult, x: Row) {
    GradeOk(q.filters, x) && ClassOk(q.filters, x) && RegionOk(q.filters, x)
    && StatusOk(q, x) && DateOk(q, x)
  }

  function AdmitMask(q: ParseResult): Row -> bool {
    x => Admits(q, x)
  }

  /** The rows that pass the grade stage, the stages up to the class filter,
      and so on: each stage's mask is the previous one and its own test. */
  function GradeStage(f: Filters): Row -> bool {
    x => GradeOk(f, x)
  }

  function ClassStage(f: Filters): Row -> bool {
    x => GradeOk(f, x) && ClassOk(f, x)
  }

  function RegionStage(f: Filters): Row -> bool {
    x => GradeOk(f, x) && ClassOk(f, x) && RegionOk(f, x)
  }

  function StatusStage(q: ParseResult): Row -> bool {
    x => GradeOk(q.filters, x) && ClassOk(q.filters, x) && RegionOk(q.filters, x) && StatusOk(q, x)
  }

  /** `apply_parsed_filters`: grade, classes, region, then the status and
      date stage chosen by the intent.  Together they select exactly the rows
      `Admits` accepts, in their original order. */
  function ApplyParsedFilters(rows: seq<Row>, q: ParseResult): (r: seq<Row>)
    ensures r == Where(rows, AdmitMask(q))
  {
    if rows == [] then rows
    else
      var f := q.filters;

      var byGrade :=
        if f.grade.Some? then Where(rows, (x: Row) => x.grade == f.grade.value) else rows;
      assert byGrade == Where(rows, GradeStage(f)) by {
        if f.grade.Some? {
          WhereSame(rows, (x: Row) => x.grade == f.grade.value, GradeStage(f));
        } else {
          WhereKeepsAll(rows, GradeStage(f));
        }
      }

      var byClass :=
        if f.classes.Some? && f.classes.value != [] then
          Where(byGrade, (x: Row) => x.classCode in UpperEach(f.classes.value))
        else byGrade;
      assert byClass == Where(rows, ClassStage(f)) by {
        if f.classes.Some? && f.classes.value != [] {
          Narrow(rows, GradeStage(f), (x: Row) => x.classCode in UpperEach(f.classes.value), ClassStage(f));
        } else {
          WhereSame(rows, GradeStage(f), ClassStage(f));
        }
      }

      var byRegion :=
        if f.region.Some? then Where(byClass, (x: Row) => x.region == f.region.value) else byClass;
      assert byRegion == Where(rows, RegionStage(f)) by {
        if f.region.Some? {
          Narrow(rows, ClassStage(f), (x: Row) => x.region == f.region.value, RegionStage(f));
        } else {
          WhereSame(rows, ClassStage(f), RegionStage(f));
        }
      }

      if q.intent == "homework" then
        var byStatus :=
          if f.homeworkSubmitted.Some? then
            Where(byRegion, (x: Row) => x.homeworkSubmitted == Lower(f.homeworkSubmitted.value))
          else byRegion;
        assert byStatus == Where(rows, StatusStage(q)) by {
          if f.homeworkSubmitted.Some? {
            Narrow(rows, RegionStage(f), (x: Row) => x.homeworkSubmitted == Lower(f.homeworkSubmitted.value),
                   StatusStage(q));
          } else {
            WhereSame(rows, RegionStage(f), StatusStage(q));
          }
        }
        if f.homeworkSubmitted.GetOr("") == "yes" then
          Narrow(rows, StatusStage(q), WindowMask(SubmissionDate, q.dateRange), AdmitMask(q));
          ApplyDateRange(byStatus, SubmissionDate, q.dateRange)
        else
          WhereSame(rows, StatusStage(q), AdmitMask(q));
          byStatus
      else
        Narrow(rows, RegionStage(f), WindowMask(QuizDate, q.dateRange), AdmitMask(q));
        ApplyDateRange(byRegion, QuizDate, q.dateRange)
  }

  /** The rows a query keeps are the input rows it admits, order kept. */
  lemma SelectionIsExact(rows: seq<Row>, q: ParseResult, x: Row)
    ensures x in ApplyParsedFilters(rows, q) <==> x in rows && Admits(q, x)
    ensures IsSubsequence(ApplyParsedFilters(rows, q), rows)
    ensures rows == [] ==> ApplyParsedFilters(rows, q) == []
  {
  }

  /** A query with no filters, no range and a non-homework intent keeps
      every row. */
  lemma {:induction false} EmptyQueryKeepsAll(rows: seq<Row>, intent: string)
    requires intent != "homework"
    ensures ApplyParsedFilters(rows, ParseResult(intent, NoFilters, NoRange)) == rows
  {
    WhereKeepsAll(rows, AdmitMask(ParseResult(intent, NoFilters, NoRange)));
  }

  /** A homework query whose status filter is not exactly "yes" ignores
      its date range entirely. */
  lemma {:induction false} RangeIgnoredUnlessSubmitted(rows: seq<Row>, q: ParseResult, dr: DateRange)
    requires q.intent == "homework"
    requires q.filters.homeworkSubmitted != Some("yes")
    ensures ApplyParsedFilters(rows, q) == ApplyParsedFilters(rows, q.(dateRange := dr))
  {
    WhereSame(rows, AdmitMask(q), AdmitMask(q.(dateRange := dr)));
  }

  /** Under an active range with both bounds, every kept row has a present
      date of the governed column inside the bounds. */
  lemma KeptRowsAreInRange(rows: seq<Row>, q: ParseResult, x: Row)
    requires Active(q.dateRange) && q.dateRange.start.Some? && q.dateRange.end.Some?
    requires x in ApplyParsedFilters(rows, q)
    ensures q.intent != "homework" ==>
      x.quizDate.Some? && q.dateRange.start.value <= x.quizDate.value <= q.dateRange.end.value
    ensures q.intent == "homework" && q.filters.homeworkSubmitted == Some("yes") ==>
      x.submissionDate.Some? && q.dateRange.start.value <= x.submissionDate.value <= q.dateRange.end.value
  {
  }

  /** Python's `sep.join(parts)`. */
  function Join(sep: string, parts: seq<string>): (r: string)
    ensures |parts| == 1 ==> r == parts[0]
    ensures parts == [] ==> r == []
  {
    if parts == [] then ""
    else if |parts| == 1 then parts[0]
    else parts[0] + sep + Join(sep, parts[1..])
  }

  /** Appending a part appends the separator and that part. */
  lemma {:induction false} JoinAppend(sep: string, parts: seq<string>, p: string)
    requires parts != []
    ensures Join(sep, parts + [p]) == Join(sep, parts) + sep + p
  {
    if |parts| > 1 {
      assert (parts + [p])[1..] == parts[1..] + [p];
      JoinAppend(sep, parts[1..], p);
    }
  }

  /** `date_range=<kind>(<start>→<end>)` with `showDay` rendering a bound
      (a date's `str`, or "None"). */
  function RangeText(dr: DateRange, showDay: Option<Day> -> string): string
    requires Active(dr)
  {
    dr.kind.value + "(" + showDay(dr.start) + "\U{2192}" + showDay(dr.end) + ")"
  }

  /** `build_filter_summary`: the intent always, then the filters when the
      dictionary is non-empty and the range when it is active, separated by
      "; ".  `showFilters` stands for the dictionary's `repr`. */
  method BuildFilterSummary(q: ParseResult, showFilters: Filters -> string, showDay: Option<Day> -> string)
    returns (s: string)
    ensures s == "intent=" + q.intent
      + (if HasAny(q.filters) then "; filters=" + showFilters(q.filters) else "")
      + (if Active(q.dateRange) then "; date_range=" + RangeText(q.dateRange, showDay) else "")
  {
    var parts := ["intent=" + q.intent];
    ghost var sofar := "intent=" + q.intent;
    if HasAny(q.filters) {
      var part := "filters=" + showFilters(q.filters);
      JoinAppend("; ", parts, part);
      parts := parts + [part];
      assert "; " + part == "; filters=" + showFilters(q.filters);
      sofar := sofar + ("; " + part);
    }
    assert Join("; ", parts) == sofar;
    if Active(q.dateRange) {
      var part := "date_range=" + RangeText(q.dateRange, showDay);
      JoinAppend("; ", parts, part);
      parts := parts + [part];
      assert "; " + part == "; date_range=" + RangeText(q.dateRange, showDay);
      sofar := sofar + ("; " + part);
    }
    s := Join("; ", parts);
  }
}
