/** The structured query that the parser produces and the filter engine
    consumes: `ParseResult` of src/nlp_parser.py (lines 23-27).  The loosely
    typed `filters` dictionary becomes a record with one optional field per
    key the source reads or writes; a field is `None` exactly when the key is
    absent. */
module Query {
  import opened Wrappers
  import opened Dates

  datatype Filters = Filters(
    grade: Option<string>,
    classes: Option<seq<string>>,
    region: Option<string>,
    homeworkSubmitted: Option<string>)

  /** `{}`. */
  const NoFilters := Filters(None, None, None, None)

  /** Python truthiness of the filters dictionary: some key is present. */
  predicate HasAny(f: Filters) {
    f.grade.Some? || f.classes.Some? || f.region.Some? || f.homeworkSubmitted.Some?
  }

  datatype ParseResult = ParseResult(intent: string, filters: Filters, dateRange: DateRange)

  /** The keys of the filters dictionary. */
  datatype FilterKey = GradeKey | ClassesKey | RegionKey | SubmittedKey

  /** One `k: v` item of a filters dictionary. */
  datatype FilterEntry =
    | GradeEntry(grade: string)
    | ClassesEntry(classes: seq<string>)
    | RegionEntry(region: string)
    | SubmittedEntry(status: string)
  {
    function Key(): FilterKey {
      match this
      case GradeEntry(_) => GradeKey
      case ClassesEntry(_) => ClassesKey
      case RegionEntry(_) => RegionKey
      case SubmittedEntry(_) => SubmittedKey
    }
  }

  /** The item stored under `k`, if the key is present. */
  function Lookup(f: Filters, k: FilterKey): (r: Option<FilterEntry>)
    ensures r.Some? ==> r.value.Key() == k
  {
    match k
    case GradeKey => if f.grade.Some? then Some(GradeEntry(f.grade.value)) else None
    case ClassesKey => if f.classes.Some? then Some(ClassesEntry(f.classes.value)) else None
    case RegionKey => if f.region.Some? then Some(RegionEntry(f.region.value)) else None
    case SubmittedKey => if f.homeworkSubmitted.Some? then Some(SubmittedEntry(f.homeworkSubmitted.value)) else None
  }

  /** `filters[k] = v`. */
  function Store(f: Filters, e: FilterEntry): (r: Filters)
    ensures Lookup(r, e.Key()) == Some(e)
    ensures forall k :: k != e.Key() ==> Lookup(r, k) == Lookup(f, k)
  {
    match e
    case GradeEntry(g) => f.(grade := Some(g))
    case ClassesEntry(cs) => f.(classes := Some(cs))
    case RegionEntry(r) => f.(region := Some(r))
    case SubmittedEntry(s) => f.(homeworkSubmitted := Some(s))
  }
}
