/** The worked examples of the query pipeline, proved about the model:
    three questions through the rule-based parser, one row through the
    access scope, and one homework query through the filter engine. */
module Scenarios {
  import opened Wrappers
  import opened Text
  import opened Dates
  import opened Patterns
  import opened Query
  import opened Parser
  import opened Table
  import opened Engine
  import opened Rbac

  // ---- what a question does not mention ----

  lemma NoGradeFilter(t: string)
    requires !Contains(t, "grade")
    ensures GradeFilter(t) == None
  {
    forall i: nat ensures !MatchesAt(GradeNumber, t, i) {
      assert !MatchAt(t, "grade", i);
    }
  }

  lemma GradeFilterAt(t: string, i: nat, digits: string)
    requires MatchesAt(GradeNumber, t, i) && GradeDigits(t, i) == digits
    requires forall j: nat :: j < i ==> !MatchesAt(GradeNumber, t, j)
    ensures GradeFilter(t) == Some("Grade " + digits)
  {
    SearchFindsLeftmost(GradeNumber, t, i);
  }

  lemma NoClassFilter(t: string)
    requires forall i :: 0 <= i < |t| ==> !IsDigit(t[i])
    ensures ClassFilter(t) == None
  {
    forall i: nat ensures !MatchesAt(ClassToken, t, i) {
      assert ClassCodeLength(t, i) == 0;
    }
  }

  lemma NoRegionFilter(t: string)
    requires !Contains(t, "north") && !Contains(t, "south") && !Contains(t, "east") && !Contains(t, "west")
    ensures RegionFilter(t) == None
  {
    forall i: nat ensures !MatchesAt(Direction, t, i) {
      forall w | w in RegionWords ensures !MatchAt(t, w, i) {
      }
    }
  }

  lemma NoHomeworkWords(t: string)
    requires !Contains(t, "homework") && !Contains(t, "submit") && !Contains(t, "submission")
    ensures !MentionsAny(t, HomeworkWords)
  {
    HomeworkVocabulary(t);
  }

  // ---- "haven't submitted", with each kind of apostrophe ----

  const TypographicQuestion := "Which students haven\U{2019}t submitted homework?"
  const TypographicText := "which students haven\U{2019}t submitted homework?"

  lemma TypographicNormalized()
    ensures Normalize(TypographicQuestion) == TypographicText
  {
    var raw := TypographicQuestion;
    assert !IsSpace(raw[0]) && !IsSpace(raw[|raw| - 1]);
    LowerOf(raw, TypographicText);
  }

  lemma TypographicIntent()
    ensures ClassifyIntent(TypographicText) == "homework"
  {
    assert MatchAt(TypographicText, "homework", 33);
    assert Contains(TypographicText, HomeworkWords[0]);
  }

  lemma TypographicNegationsAbsent1()
    ensures !Contains(TypographicText, "not submitted")
    ensures !Contains(TypographicText, "no submission")
  {
    MissingPairRulesOut(TypographicText, "not submitted", 0, 'n', 'o');
    MissingPairRulesOut(TypographicText, "no submission", 0, 'n', 'o');
  }

  lemma TypographicNegationsAbsent2()
    ensures !Contains(TypographicText, "didn't submit")
    ensures !Contains(TypographicText, "didnt submit")
  {
    MissingPairRulesOut(TypographicText, "didn't submit", 0, 'd', 'i');
    MissingPairRulesOut(TypographicText, "didnt submit", 0, 'd', 'i');
  }

  lemma TypographicNegationsAbsent3()
    ensures !Contains(TypographicText, "haven't submitted")
  {
    MissingCharRulesOut(TypographicText, "haven't submitted", '\'');
  }

  const BeforeApostrophe := "which students haven"
  const AfterApostrophe := "t submitted homework?"

  lemma TypographicTextSplits()
    ensures TypographicText == BeforeApostrophe + ['\U{2019}'] + AfterApostrophe
  {
  }

  lemma HalvesLackHaventSubmitted()
    ensures !Contains(BeforeApostrophe, "havent submitted")
    ensures !Contains(AfterApostrophe, "havent submitted")
  {
    MissingCharRulesOut(BeforeApostrophe, "havent submitted", 'b');
    MissingCharRulesOut(AfterApostrophe, "havent submitted", 'n');
  }

  lemma TypographicNegationsAbsent4()
    ensures !Contains(TypographicText, "havent submitted")
  {
    TypographicTextSplits();
    HalvesLackHaventSubmitted();
    SplitAtMissingChar(BeforeApostrophe, '\U{2019}', AfterApostrophe, "havent submitted");
  }

  lemma TypographicStatus()
    ensures SubmissionStatus(TypographicText) == Some("yes")
  {
    TypographicNegationsAbsent1();
    TypographicNegationsAbsent2();
    TypographicNegationsAbsent3();
    TypographicNegationsAbsent4();
    assert !MentionsAny(TypographicText, NegationPhrases);
    assert MatchAt(TypographicText, "submitted", 23);
  }

  lemma TypographicNoRegion()
    ensures RegionFilter(TypographicText) == None
  {
    MissingPairRulesOut(TypographicText, "north", 0, 'n', 'o');
    MissingPairRulesOut(TypographicText, "south", 0, 's', 'o');
    MissingPairRulesOut(TypographicText, "east", 0, 'e', 'a');
    MissingPairRulesOut(TypographicText, "west", 0, 'w', 'e');
    NoRegionFilter(TypographicText);
  }

  lemma TypographicNoWeek(now: Day)
    ensures DateRangeFor(TypographicText, now) == NoRange
  {
    MissingPairRulesOut(TypographicText, "last week", 5, 'w', 'e');
    MissingPairRulesOut(TypographicText, "this week", 5, 'w', 'e');
    MissingPairRulesOut(TypographicText, "next week", 5, 'w', 'e');
  }

  lemma TypographicNoGrade()
    ensures GradeFilter(TypographicText) == None
  {
    MissingCharRulesOut(TypographicText, "grade", 'g');
    NoGradeFilter(TypographicText);
  }

  lemma TypographicNoClass()
    ensures ClassFilter(TypographicText) == None
  {
    NoClassFilter(TypographicText);
  }

  /** The question written with a typographic apostrophe matches none of
      the negation phrases, which spell the apostrophe in ASCII, and the
      plain "submitted" in it makes the status "yes". */
  lemma TypographicApostropheReadsAsSubmitted(now: Day)
    ensures RuleBasedResult(TypographicQuestion, now)
         == ParseResult("homework", NoFilters.(homeworkSubmitted := Some("yes")), NoRange)
  {
    TypographicNormalized();
    TypographicIntent();
    TypographicStatus();
    TypographicNoGrade();
    TypographicNoClass();
    TypographicNoRegion();
    TypographicNoWeek(now);
  }

  /** Through the filter engine the typographic question lists the students
      who did submit. */
  lemma TypographicQuestionListsSubmitters(rows: seq<Row>, q: ParseResult, x: Row)
    requires q == ParseResult("homework", NoFilters.(homeworkSubmitted := Some("yes")), NoRange)
    ensures x in ApplyParsedFilters(rows, q) <==> x in rows && x.homeworkSubmitted == "yes"
  {
    LowerOf("yes", "yes");
    SelectionIsExact(rows, q, x);
  }

  const AsciiQuestion := "Which students haven't submitted homework?"
  const AsciiText := "which students haven't submitted homework?"

  lemma AsciiNormalized()
    ensures Normalize(AsciiQuestion) == AsciiText
  {
    var raw := AsciiQuestion;
    assert !IsSpace(raw[0]) && !IsSpace(raw[|raw| - 1]);
    LowerOf(raw, AsciiText);
  }

  lemma AsciiIntentAndStatus()
    ensures ClassifyIntent(AsciiText) == "homework"
    ensures SubmissionStatus(AsciiText) == Some("no")
  {
    assert MatchAt(AsciiText, "homework", 33);
    assert Contains(AsciiText, HomeworkWords[0]);
    MatchAtByChars(AsciiText, "haven't submitted", 15);
    assert Contains(AsciiText, NegationPhrases[3]);
  }

  lemma AsciiNoGrade()
    ensures GradeFilter(AsciiText) == None
  {
    MissingCharRulesOut(AsciiText, "grade", 'g');
    NoGradeFilter(AsciiText);
  }

  lemma AsciiNoClass()
    ensures ClassFilter(AsciiText) == None
  {
    NoClassFilter(AsciiText);
  }

  lemma AsciiNoRegion()
    ensures RegionFilter(AsciiText) == None
  {
    MissingPairRulesOut(AsciiText, "north", 0, 'n', 'o');
    MissingPairRulesOut(AsciiText, "south", 0, 's', 'o');
    MissingPairRulesOut(AsciiText, "east", 0, 'e', 'a');
    MissingPairRulesOut(AsciiText, "west", 0, 'w', 'e');
    NoRegionFilter(AsciiText);
  }

  lemma AsciiNoWeek(now: Day)
    ensures DateRangeFor(AsciiText, now) == NoRange
  {
    MissingPairRulesOut(AsciiText, "last week", 5, 'w', 'e');
    MissingPairRulesOut(AsciiText, "this week", 5, 'w', 'e');
    MissingPairRulesOut(AsciiText, "next week", 5, 'w', 'e');
  }

  /** With an ASCII apostrophe the negation phrase matches and the status
      is "no"; no date window is chosen, so none applies. */
  lemma AsciiApostropheReadsAsNotSubmitted(now: Day)
    ensures RuleBasedResult(AsciiQuestion, now)
         == ParseResult("homework", NoFilters.(homeworkSubmitted := Some("no")), NoRange)
  {
    AsciiNormalized();
    AsciiIntentAndStatus();
    AsciiNoGrade();
    AsciiNoClass();
    AsciiNoRegion();
    AsciiNoWeek(now);
  }

  // ---- "Show performance for Grade 8 last week" ----

  const PerformanceQuestion := "Show performance for Grade 8 last week"
  const PerformanceText := "show performance for grade 8 last week"

  lemma PerformanceNormalized()
    ensures Normalize(PerformanceQuestion) == PerformanceText
  {
    var raw := PerformanceQuestion;
    assert !IsSpace(raw[0]) && !IsSpace(raw[|raw| - 1]);
    LowerOf(raw, PerformanceText);
  }

  lemma PerformanceNoHomework()
    ensures !MentionsAny(PerformanceText, HomeworkWords)
  {
    var t := PerformanceText;
    MissingPairRulesOut(t, "homework", 1, 'o', 'm');
    MissingCharRulesOut(t, "submit", 'b');
    MissingCharRulesOut(t, "submission", 'b');
    NoHomeworkWords(t);
  }

  lemma PerformanceIntent()
    ensures ClassifyIntent(PerformanceText) == "performance"
  {
    PerformanceNoHomework();
    MatchAtByChars(PerformanceText, "performance", 5);
  }

  lemma PerformanceGradeAt()
    ensures MatchesAt(GradeNumber, PerformanceText, 21)
    ensures GradeDigits(PerformanceText, 21) == "8"
  {
    var t := PerformanceText;
    assert IsSpace(t[26]) && !IsSpace(t[27]);
    assert SkipSpaces(t, 26) == 27;
    assert IsDigit(t[27]) && !IsDigit(t[28]);
    assert DigitRunEnd(t, 27) == 28;
    MatchAtByChars(t, "grade", 21);
  }

  lemma PerformanceNoEarlierGrade()
    ensures forall j: nat :: j < 21 ==> !MatchesAt(GradeNumber, PerformanceText, j)
  {
    var t := PerformanceText;
    forall j: nat | j < 21 ensures !MatchesAt(GradeNumber, t, j) {
      assert t[j] != 'g';
      assert t[j..j + 5][0] == t[j];
    }
  }

  /** "grade 8" is the leftmost and only match of `grade\s*(\d+)`. */
  lemma PerformanceGrade()
    ensures GradeFilter(PerformanceText) == Some("Grade 8")
  {
    PerformanceGradeAt();
    PerformanceNoEarlierGrade();
    GradeFilterAt(PerformanceText, 21, "8");
    assert "Grade " + "8" == "Grade 8";
  }

  lemma PerformanceDigits()
    ensures forall i :: 0 <= i < |PerformanceText| && i != 27 ==> !IsDigit(PerformanceText[i])
    ensures !IsDigit(PerformanceText[28]) && !IsLower(PerformanceText[28])
  {
  }

  lemma PerformanceNoClass()
    ensures ClassFilter(PerformanceText) == None
  {
    PerformanceDigits();
    forall i: nat ensures !MatchesAt(ClassToken, PerformanceText, i) {
    }
  }

  lemma PerformanceNoRegion()
    ensures RegionFilter(PerformanceText) == None
  {
    MissingPairRulesOut(PerformanceText, "north", 0, 'n', 'o');
    MissingPairRulesOut(PerformanceText, "south", 0, 's', 'o');
    MissingPairRulesOut(PerformanceText, "east", 0, 'e', 'a');
    MissingPairRulesOut(PerformanceText, "west", 1, 'e', 's');
    NoRegionFilter(PerformanceText);
  }

  lemma PerformanceWeek(now: Day)
    ensures DateRangeFor(PerformanceText, now) == ComputeRange("last_week", now)
  {
    assert MatchAt(PerformanceText, "last week", 29);
  }

  /** Performance over grade 8 in the week before the one holding `now`. */
  lemma PerformanceQuestionParse(now: Day)
    ensures RuleBasedResult(PerformanceQuestion, now)
         == ParseResult("performance", NoFilters.(grade := Some("Grade 8")), ComputeRange("last_week", now))
  {
    PerformanceNormalized();
    PerformanceIntent();
    PerformanceGrade();
    PerformanceNoClass();
    PerformanceNoRegion();
    PerformanceWeek(now);
  }

  /** Its answer: the grade 8 rows whose quiz date falls in last week. */
  lemma PerformanceQuestionRows(rows: seq<Row>, q: ParseResult, now: Day, x: Row)
    requires q == ParseResult("performance", NoFilters.(grade := Some("Grade 8")), ComputeRange("last_week", now))
    ensures var w := ComputeRange("last_week", now);
            x in ApplyParsedFilters(rows, q)
            <==> x in rows && x.grade == "Grade 8"
                 && x.quizDate.Some? && w.start.value <= x.quizDate.value <= w.end.value
  {
    SelectionIsExact(rows, q, x);
  }

  // ---- "List upcoming quizzes for next week" ----

  const UpcomingQuestion := "List upcoming quizzes for next week"
  const UpcomingText := "list upcoming quizzes for next week"

  lemma UpcomingNormalized()
    ensures Normalize(UpcomingQuestion) == UpcomingText
  {
    var raw := UpcomingQuestion;
    assert !IsSpace(raw[0]) && !IsSpace(raw[|raw| - 1]);
    LowerOf(raw, UpcomingText);
  }

  lemma UpcomingNoHomework()
    ensures !MentionsAny(UpcomingText, HomeworkWords)
  {
    var t := UpcomingText;
    MissingCharRulesOut(t, "homework", 'h');
    MissingCharRulesOut(t, "submit", 'b');
    MissingCharRulesOut(t, "submission", 'b');
    NoHomeworkWords(t);
  }

  lemma UpcomingIntent()
    ensures ClassifyIntent(UpcomingText) == "quizzes"
  {
    UpcomingNoHomework();
    MissingCharRulesOut(UpcomingText, "performance", 'a');
  }

  lemma UpcomingNoGrade()
    ensures GradeFilter(UpcomingText) == None
  {
    MissingCharRulesOut(UpcomingText, "grade", 'a');
    NoGradeFilter(UpcomingText);
  }

  lemma UpcomingNoClass()
    ensures ClassFilter(UpcomingText) == None
  {
    NoClassFilter(UpcomingText);
  }

  const BeforeX := "list upcoming quizzes for ne"
  const AfterX := "t week"

  lemma UpcomingLacksWest()
    ensures !Contains(UpcomingText, "west")
  {
    assert UpcomingText == BeforeX + ['x'] + AfterX;
    MissingCharRulesOut(BeforeX, "west", 'w');
    MissingCharRulesOut(AfterX, "west", 's');
    SplitAtMissingChar(BeforeX, 'x', AfterX, "west");
  }

  lemma UpcomingNoRegion()
    ensures RegionFilter(UpcomingText) == None
  {
    MissingCharRulesOut(UpcomingText, "north", 'h');
    MissingCharRulesOut(UpcomingText, "south", 'h');
    MissingCharRulesOut(UpcomingText, "east", 'a');
    UpcomingLacksWest();
    NoRegionFilter(UpcomingText);
  }

  lemma UpcomingWeek(now: Day)
    ensures DateRangeFor(UpcomingText, now) == ComputeRange("next_week", now)
  {
    MissingCharRulesOut(UpcomingText, "last week", 'a');
    MissingCharRulesOut(UpcomingText, "this week", 'h');
    assert MatchAt(UpcomingText, "next week", 26);
  }

  /** Quizzes, no filters, the week after the one holding `now`. */
  lemma UpcomingQuestionParse(now: Day)
    ensures RuleBasedResult(UpcomingQuestion, now)
         == ParseResult("quizzes", NoFilters, ComputeRange("next_week", now))
  {
    UpcomingNormalized();
    UpcomingIntent();
    UpcomingNoGrade();
    UpcomingNoClass();
    UpcomingNoRegion();
    UpcomingWeek(now);
  }

  // ---- the access scope and the homework date gate ----

  /** A grade 9 row in an allowed class and the right region is still out
      of the scope of an admin allowed only grade 8. */
  lemma GradeMismatchIsExcluded(name: string, x: Row)
    requires x.grade == "Grade 9" && x.classCode == "8A" && x.region == "East"
    ensures FilterByAdminScope([x], Admin(name, ["Grade 8"], ["8A", "8B"], "East")) == []
  {
    var admin := Admin(name, ["Grade 8"], ["8A", "8B"], "East");
    assert !InScope(admin, x);
    ScopeIsSelection([x], admin);
  }

  /** A homework query with no status filter ignores last week's window and
      keeps every row. */
  lemma HomeworkWithoutStatusKeepsAll(rows: seq<Row>, now: Day)
    ensures ApplyParsedFilters(rows, ParseResult("homework", NoFilters, ComputeRange("last_week", now))) == rows
  {
    WhereKeepsAll(rows, AdmitMask(ParseResult("homework", NoFilters, ComputeRange("last_week", now))));
  }
}
