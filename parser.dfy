/** The rule-based parser and the merge step of the optional language-model
    refinement (src/nlp_parser.py, lines 55-164). */
module Parser {
  import opened Wrappers
  import opened Text
  import opened Dates
  import opened Patterns
  import opened Query

  const HomeworkWords: seq<string> :=
    ["homework", "submit", "submission", "submitted", "haven't submitted", "didn't submit"]

  const QuizWords: seq<string> := ["quiz", "quizzes", "score", "performance"]

  /** The negation phrases, with ASCII apostrophes only. */
  const NegationPhrases: seq<string> :=
    ["not submitted", "didn't submit", "didnt submit", "haven't submitted", "havent submitted", "no submission"]

  /** `any(k in t for k in words)`. */
  predicate MentionsAny(t: string, words: seq<string>) {
    exists k :: 0 <= k < |words| && Contains(t, words[k])
  }

  /** `text.strip().lower()`. */
  function Normalize(text: string): (t: string)
    ensures |t| <= |text|
    ensures forall i :: 0 <= i < |t| ==> !IsUpper(t[i])
    ensures |t| == |Strip(text)|
    ensures forall i :: 0 <= i < |t| ==> t[i] == LowerChar(Strip(text)[i])
  {
    Lower(Strip(text))
  }

  // ---- intent ----

  /** The intent chosen by the fixed precedence: homework vocabulary first,
      then "performance", and "quizzes" otherwise.  The quiz vocabulary
      never changes the outcome, since "performance" is part of it. */
  function ClassifyIntent(t: string): (intent: string)
    ensures intent == "homework" <==> MentionsAny(t, HomeworkWords)
    ensures intent == "performance" <==> !MentionsAny(t, HomeworkWords) && Contains(t, "performance")
    ensures intent == "quizzes" <==> !MentionsAny(t, HomeworkWords) && !Contains(t, "performance")
  {
    assert Contains(t, "performance") ==> Contains(t, QuizWords[3]);
    if MentionsAny(t, HomeworkWords) then "homework"
    else if MentionsAny(t, QuizWords) && Contains(t, "performance") then "performance"
    else "quizzes"
  }

  /** The last three homework keywords contain "submit", so the list amounts
      to "homework", "submit" and "submission". */
  lemma HomeworkVocabulary(t: string)
    ensures MentionsAny(t, HomeworkWords)
            <==> Contains(t, "homework") || Contains(t, "submit") || Contains(t, "submission")
  {
    assert Contains(t, "homework") ==> Contains(t, HomeworkWords[0]);
    assert Contains(t, "submit") ==> Contains(t, HomeworkWords[1]);
    assert Contains(t, "submission") ==> Contains(t, HomeworkWords[2]);
    if MentionsAny(t, HomeworkWords) {
      var k :| 0 <= k < |HomeworkWords| && Contains(t, HomeworkWords[k]);
      if k >= 3 {
        assert MatchAt("submitted", "submit", 0) && MatchAt("haven't submitted", "submit", 8);
        assert MatchAt("didn't submit", "submit", 7);
        ContainsTransitive(t, HomeworkWords[k], "submit");
      }
    }
  }

  // ---- homework_submitted ----

  /** The submission status the phrases express: a negation wins over a
      plain "submitted". */
  function SubmissionStatus(t: string): (r: Option<string>)
    ensures r == Some("no") <==> MentionsAny(t, NegationPhrases)
    ensures r == Some("yes") <==> !MentionsAny(t, NegationPhrases) && Contains(t, "submitted")
    ensures r.None? <==> !MentionsAny(t, NegationPhrases) && !Contains(t, "submitted")
  {
    if MentionsAny(t, NegationPhrases) then Some("no")
    else if Contains(t, "submitted") then Some("yes")
    else None
  }

  /** Every phrase that sets a status also selects the homework intent, so the
      guard `intent == "homework"` never hides a status. */
  lemma StatusImpliesHomework(t: string)
    requires SubmissionStatus(t).Some?
    ensures ClassifyIntent(t) == "homework"
  {
    HomeworkVocabulary(t);
    if MentionsAny(t, NegationPhrases) {
      var k :| 0 <= k < |NegationPhrases| && Contains(t, NegationPhrases[k]);
      if k < 5 {
        assert MatchAt("not submitted", "submit", 4) && MatchAt("didn't submit", "submit", 7);
        assert MatchAt("didnt submit", "submit", 6) && MatchAt("haven't submitted", "submit", 8);
        assert MatchAt("havent submitted", "submit", 7);
        ContainsTransitive(t, NegationPhrases[k], "submit");
      } else {
        assert MatchAt("no submission", "submission", 3);
        ContainsTransitive(t, NegationPhrases[k], "submission");
      }
    } else {
      assert MatchAt("submitted", "submit", 0);
      ContainsTransitive(t, "submitted", "submit");
    }
  }

  // ---- grade, classes, region ----

  /** `filters["grade"]`: "Grade " followed by the digits after the leftmost
      "grade". */
  function GradeFilter(t: string): (r: Option<string>)
    ensures r.Some? <==> exists i :: MatchesAt(GradeNumber, t, i)
    ensures r.Some? ==> |r.value| > 6 && r.value[..6] == "Grade "
                        && forall m :: 6 <= m < |r.value| ==> IsDigit(r.value[m])
    ensures r.Some? ==> exists i: nat :: MatchesAt(GradeNumber, t, i)
                                       && (forall j: nat :: j < i ==> !MatchesAt(GradeNumber, t, j))
                                       && r.value == "Grade " + GradeDigits(t, i)
  {
    match Search(GradeNumber, t)
    case None => None
    case Some(i) => Some("Grade " + Group(GradeNumber, t, i))
  }

  /** `filters["classes"]`: a one-element list holding the leftmost class code,
      upper-cased: one or two digits and an upper-case letter. */
  function ClassFilter(t: string): (r: Option<seq<string>>)
    ensures r.Some? <==> exists i :: MatchesAt(ClassToken, t, i)
    ensures r.Some? ==> |r.value| == 1 && IsClassCode(r.value[0])
    ensures r.Some? ==> exists i: nat :: MatchesAt(ClassToken, t, i)
                                       && (forall j: nat :: j < i ==> !MatchesAt(ClassToken, t, j))
                                       && r.value == [Upper(ClassCode(t, i))]
  {
    match Search(ClassToken, t)
    case None => None
    case Some(i) => Some([] + [Upper(Group(ClassToken, t, i))])
  }

  /** One or two digits followed by one upper-case letter. */
  predicate IsClassCode(c: string) {
    && (|c| == 2 || |c| == 3)
    && (forall m :: 0 <= m < |c| - 1 ==> IsDigit(c[m]))
    && IsUpper(c[|c| - 1])
  }

  const Regions: set<string> := {"North", "South", "East", "West"}

  /** `filters["region"]`: the leftmost whole-word direction, capitalised. */
  function RegionFilter(t: string): (r: Option<string>)
    ensures r.Some? <==> exists i :: MatchesAt(Direction, t, i)
    ensures r.Some? ==> r.value in Regions
    ensures r.Some? ==> exists i: nat :: MatchesAt(Direction, t, i)
                                       && (forall j: nat :: j < i ==> !MatchesAt(Direction, t, j))
                                       && r.value == Capitalize(RegionWord(t, i))
  {
    match Search(Direction, t)
    case None => None
    case Some(i) =>
      var w := Group(Direction, t, i);
      CapitalizedDirection(w);
      Some(Capitalize(w))
  }

  lemma CapitalizedDirection(w: string)
    requires w in RegionWords
    ensures Capitalize(w) in Regions
  {
    assert Capitalize("north") == "North" && Capitalize("south") == "South";
    assert Capitalize("east") == "East" && Capitalize("west") == "West";
  }

  // ---- date range ----

  /** The date window named in the text: "last week", then "this week", then
      "next week", wherever each occurs. */
  function DateRangeFor(t: string, now: Day): (r: DateRange)
    ensures r.kind == Some("last_week") <==> Contains(t, "last week")
    ensures r.kind == Some("this_week") <==> !Contains(t, "last week") && Contains(t, "this week")
    ensures r.kind == Some("next_week") <==> !Contains(t, "last week") && !Contains(t, "this week") && Contains(t, "next week")
    ensures r.kind.None? ==> r == NoRange
    ensures r.kind.Some? ==> IsWeek(r, r.kind.value)
    ensures r.kind.Some? ==> r == ComputeRange(r.kind.value, now)
  {
    if Contains(t, "last week") then ComputeRange("last_week", now)
    else if Contains(t, "this week") then ComputeRange("this_week", now)
    else if Contains(t, "next week") then ComputeRange("next_week", now)
    else NoRange
  }

  // ---- the whole rule-based parse ----

  /** What `_rule_based_parse(text)` returns when the clock reads `now`. */
  function RuleBasedResult(text: string, now: Day): (r: ParseResult)
    ensures r.intent == "homework" || r.intent == "performance" || r.intent == "quizzes"
    ensures r.filters.homeworkSubmitted.Some?
            <==> MentionsAny(Normalize(text), NegationPhrases) || Contains(Normalize(text), "submitted")
    ensures r.dateRange == NoRange || (r.dateRange.kind.Some? && IsWeek(r.dateRange, r.dateRange.kind.value))
  {
    var t := Normalize(text);
    assert SubmissionStatus(t).Some? ==> ClassifyIntent(t) == "homework" by {
      if SubmissionStatus(t).Some? {
        StatusImpliesHomework(t);
      }
    }
    var intent := ClassifyIntent(t);
    ParseResult(
      intent,
      Filters(
        GradeFilter(t),
        ClassFilter(t),
        RegionFilter(t),
        if intent == "homework" then SubmissionStatus(t) else None),
      DateRangeFor(t, now))
  }

  /** `_rule_based_parse`, step by step as the source builds its dictionary. */
  method RuleBasedParse(text: string, now: Day) returns (q: ParseResult)
    ensures q == RuleBasedResult(text, now)
  {
    var t := Normalize(text);

    var intent: string;
    if MentionsAny(t, HomeworkWords) {
      intent := "homework";
    } else if MentionsAny(t, QuizWords) {
      intent := "quizzes";
      if Contains(t, "performance") {
        intent := "performance";
      }
    } else {
      intent := "quizzes";
    }
    assert intent == ClassifyIntent(t);

    var filters := NoFilters;

    if intent == "homework" {
      if MentionsAny(t, NegationPhrases) {
        filters := filters.(homeworkSubmitted := Some("no"));
      } else if Contains(t, "submitted") {
        filters := filters.(homeworkSubmitted := Some("yes"));
      }
    }
    assert filters == NoFilters.(homeworkSubmitted := if intent == "homework" then SubmissionStatus(t) else None);

    var gradeMatch := Search(GradeNumber, t);
    if gradeMatch.Some? {
      filters := filters.(grade := Some("Grade " + Group(GradeNumber, t, gradeMatch.value)));
    }
    assert filters.grade == GradeFilter(t);

    var classMatch := Search(ClassToken, t);
    if classMatch.Some? {
      // filters.setdefault("classes", []).append(...)
      var classes := filters.classes.GetOr([]);
      filters := filters.(classes := Some(classes + [Upper(Group(ClassToken, t, classMatch.value))]));
    }
    assert filters.classes == ClassFilter(t);

    var regionMatch := Search(Direction, t);
    if regionMatch.Some? {
      filters := filters.(region := Some(Capitalize(Group(Direction, t, regionMatch.value))));
    }
    assert filters.region == RegionFilter(t);

    var dateRange: DateRange;
    if Contains(t, "last week") {
      dateRange := ComputeRange("last_week", now);
    } else if Contains(t, "this week") {
      dateRange := ComputeRange("this_week", now);
    } else if Contains(t, "next week") {
      dateRange := ComputeRange("next_week", now);
    } else {
      dateRange := NoRange;
    }
    assert dateRange == DateRangeFor(t, now);

    q := ParseResult(intent, filters, dateRange);
  }

  // ---- properties of the rule-based parse ----

  /** The intent: homework vocabulary wins even when "performance" occurs;
      otherwise "performance" selects performance; anything else, the empty
      text included, is a quiz listing. */
  lemma ParsedIntent(text: string, now: Day)
    ensures var t := Normalize(text);
            var intent := RuleBasedResult(text, now).intent;
            && (intent == "homework"
                <==> Contains(t, "homework") || Contains(t, "submit") || Contains(t, "submission"))
            && (intent == "performance" <==> intent != "homework" && Contains(t, "performance"))
            && (intent == "quizzes" <==> intent != "homework" && !Contains(t, "performance"))
  {
    HomeworkVocabulary(Normalize(text));
  }

  /** The `homework_submitted` key: present only under the homework intent;
      "no" for a negation phrase, whatever else occurs; "yes" for a plain
      "submitted"; absent otherwise.  Since every such phrase selects the
      homework intent, the key is present exactly when a phrase occurs. */
  lemma ParsedSubmissionStatus(text: string, now: Day)
    ensures var t := Normalize(text);
            var q := RuleBasedResult(text, now);
            var s := q.filters.homeworkSubmitted;
            && (s.Some? ==> q.intent == "homework")
            && (s == Some("no") <==> MentionsAny(t, NegationPhrases))
            && (s == Some("yes") <==> !MentionsAny(t, NegationPhrases) && Contains(t, "submitted"))
            && (s.None? <==> !MentionsAny(t, NegationPhrases) && !Contains(t, "submitted"))
  {
    var t := Normalize(text);
    if SubmissionStatus(t).Some? {
      StatusImpliesHomework(t);
    }
  }

  /** Text with nothing but white space parses to a quiz listing with no
      filters and no date window. */
  lemma BlankTextParse(text: string, now: Day)
    requires forall i :: 0 <= i < |text| ==> IsSpace(text[i])
    ensures RuleBasedResult(text, now) == ParseResult("quizzes", NoFilters, NoRange)
  {
    assert Normalize(text) == [];
    NothingInEmptyText(now);
  }

  lemma NothingInEmptyText(now: Day)
    ensures ClassifyIntent([]) == "quizzes"
    ensures GradeFilter([]) == None && ClassFilter([]) == None && RegionFilter([]) == None
    ensures DateRangeFor([], now) == NoRange
  {
    var t: string := [];
    assert ClassifyIntent(t) == "quizzes" by {
      assert !MentionsAny(t, HomeworkWords);
      assert !Contains(t, "performance");
    }
    NoMatchInEmptyText(GradeNumber);
    NoMatchInEmptyText(ClassToken);
    NoMatchInEmptyText(Direction);
  }

  /** None of the three patterns matches anywhere in the empty text. */
  lemma NoMatchInEmptyText(re: Regex)
    ensures forall i: nat :: !MatchesAt(re, [], i)
  {
    forall i: nat
      ensures !MatchesAt(re, [], i)
    {
      if re == Direction && i == 0 {
        assert FirstAlternative([], 0, RegionWords[3..]) == None;
        assert FirstAlternative([], 0, RegionWords[2..]) == None;
        assert FirstAlternative([], 0, RegionWords[1..]) == None;
      }
    }
  }

  // ---- language-model refinement ----

  /** The model's reply once decoded: the `intent` value if the key is
      present, the items of `filters` in order, and `date_range` if it is a
      string. */
  datatype Reply = Reply(intent: Option<string>, filters: seq<FilterEntry>, dateRange: Option<string>)

  /** The last item of `items` whose key is `k`. */
  function LastFor(items: seq<FilterEntry>, k: FilterKey): (r: Option<FilterEntry>)
    ensures r.Some? ==> r.value in items && r.value.Key() == k
    ensures r.None? ==> forall e :: e in items ==> e.Key() != k
    ensures r.Some? ==> exists i :: 0 <= i < |items| && items[i] == r.value
                                    && forall j :: i < j < |items| ==> items[j].Key() != k
  {
    if items == [] then None
    else if items[|items| - 1].Key() == k then Some(items[|items| - 1])
    else LastFor(items[..|items| - 1], k)
  }

  /** `filters = seed.copy()` followed by `filters[k] = v` for each item:
      every key the items name holds the last value given for it, and every
      other key keeps the seed's value. */
  function MergeFilters(seed: Filters, items: seq<FilterEntry>): (r: Filters)
    ensures forall k :: Lookup(r, k) == if LastFor(items, k).Some? then LastFor(items, k) else Lookup(seed, k)
  {
    if items == [] then seed
    else Store(MergeFilters(seed, items[..|items| - 1]), items[|items| - 1])
  }

  /** `_llm_enhance(text, seed)` given the API key and the model's reply; the
      reply is `None` when the libraries are missing, the call fails or the
      answer cannot be decoded. */
  function Enhance(seed: ParseResult, apiKey: string, reply: Option<Reply>, now: Day): (r: ParseResult)
    ensures apiKey == "" || reply.None? ==> r == seed
    ensures forall k :: Lookup(seed.filters, k).Some? ==> Lookup(r.filters, k).Some?
    ensures r.dateRange == seed.dateRange
            || (r.dateRange.kind.Some? && r.dateRange.kind.value in WeekKeywords
                && r.dateRange == ComputeRange(r.dateRange.kind.value, now))
    ensures apiKey != "" && reply.Some? ==>
      && r.intent == reply.value.intent.GetOr(seed.intent)
      && (forall k :: Lookup(r.filters, k)
                      == if LastFor(reply.value.filters, k).Some? then LastFor(reply.value.filters, k)
                         else Lookup(seed.filters, k))
      && (reply.value.dateRange.Some? && reply.value.dateRange.value in WeekKeywords
          ==> r.dateRange == ComputeRange(reply.value.dateRange.value, now))
      && (!(reply.value.dateRange.Some? && reply.value.dateRange.value in WeekKeywords)
          ==> r.dateRange == seed.dateRange)
  {
    if apiKey == "" then seed
    else match reply
      case None => seed
      case Some(parsed) =>
        ParseResult(
          parsed.intent.GetOr(seed.intent),
          MergeFilters(seed.filters, parsed.filters),
          if parsed.dateRange.Some? && parsed.dateRange.value in WeekKeywords
          then ComputeRange(parsed.dateRange.value, now)
          else seed.dateRange)
  }

  /** `_llm_enhance`, with the merge loop of the source. */
  method LlmEnhance(seed: ParseResult, apiKey: string, reply: Option<Reply>, now: Day) returns (r: ParseResult)
    ensures r == Enhance(seed, apiKey, reply, now)
  {
    if apiKey == "" {
      return seed;
    }
    if reply.None? {
      return seed;
    }
    var parsed := reply.value;
    var intent := parsed.intent.GetOr(seed.intent);
    var filters := seed.filters;
    for i := 0 to |parsed.filters|
      invariant filters == MergeFilters(seed.filters, parsed.filters[..i])
    {
      assert parsed.filters[..i + 1][..i] == parsed.filters[..i];
      filters := Store(filters, parsed.filters[i]);
    }
    assert parsed.filters[..|parsed.filters|] == parsed.filters;
    var dateRange: DateRange;
    if parsed.dateRange.Some? && parsed.dateRange.value in WeekKeywords {
      dateRange := ComputeRange(parsed.dateRange.value, now);
    } else {
      dateRange := seed.dateRange;
    }
    r := ParseResult(intent, filters, dateRange);
  }

  /** `parse_natural_language`: the rule-based parse, then the refinement. */
  method ParseNaturalLanguage(text: string, now: Day, apiKey: string, reply: Option<Reply>) returns (q: ParseResult)
    ensures q == Enhance(RuleBasedResult(text, now), apiKey, reply, now)
    ensures apiKey == "" ==> q == RuleBasedResult(text, now)
  {
    var seed := RuleBasedParse(text, now);
    q := LlmEnhance(seed, apiKey, reply, now);
  }
}
