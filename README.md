# dumroo query pipeline, modelled in Dafny

This project models the query pipeline of the dumroo admin assistant.
A school administrator types a question in plain English.
The question is parsed into a structured query: an intent, a set of filters and a date window.
The student table is first cut down to the administrator's access scope, and the query then selects rows from what remains.

The model covers three source files:

- **The parser** (`src/nlp_parser.py`).
  - The ISO-week calculator: `_monday_of_week`, `_sunday_of_week` and `_compute_range`.
  - The rule-based parser: intent precedence, the submission status, the three regular expressions and the date keyword.
  - The merge step of the optional language-model refinement.
  - `parse_natural_language`.
- **The filter engine** (`src/query_engine.py`): `_apply_date_range`, `apply_parsed_filters` and `build_filter_summary`.
- **The access scope** (`src/rbac.py`): `Admin` and `filter_by_admin_scope`.

Modelling choices:

- Calendar days are integers, numbered as Python's `date.toordinal` numbers them (day 1 is a Monday).
- The clock reading `now` is a parameter.
- Text is a `string` with ASCII case rules.
- The three regular expressions are written out as scanners; `Search` finds the leftmost match, as `re.search` does.
- Each pandas selection `df[mask]` is `Table.Where`, a filter that keeps order.
- `apply_parsed_filters` is proved equal to one selection by a reference predicate, `Engine.Admits`. Its properties are proved about that predicate.
- The language model's reply is an optional value supplied by the caller.

Code that builds its result step by step is written as a Dafny method with the same steps, proved equal to a specification function:

- the `filters` dictionary built in `_rule_based_parse`;
- the merge loop in `_llm_enhance`;
- the `parts` list in `build_filter_summary`.

The mask chains of the engine and the scope filter only rebind `df`, so they are functions.

Three behaviours of the code that are easy to miss, all modelled as written:

- **The typographic apostrophe.** The negation phrases (src/nlp_parser.py:74) spell the apostrophe in ASCII. So "Which students haven’t submitted homework?", with a typographic apostrophe, matches none of them. The plain "submitted" then sets the status to "yes". `Scenarios.TypographicApostropheReadsAsSubmitted` proves this. `Scenarios.AsciiApostropheReadsAsNotSubmitted` proves that the ASCII spelling gives "no".
- **Status comparison.** The status filter compares each row with the lower-cased filter value (src/query_engine.py:61). A reply value "Yes" therefore selects the rows holding "yes".
- **The date gate.** The docstring of `apply_parsed_filters` (src/query_engine.py:37-43) says the homework window applies when filtering for submitted homework. The test at src/query_engine.py:63 compares the raw filter value with exactly "yes". So a value "Yes" selects the submitted rows (line 61) but skips the window (line 63).

## Model

| member | source | states |
|---|---|---|
| Dates.Weekday | src/nlp_parser.py:31 | `weekday()` is in 0..6, and subtracting it from a day lands on a Monday (an ordinal ≡ 1 mod 7) |
| Dates.MondayOfWeek | src/nlp_parser.py:30-31 | the result is a Monday, on or before the day and at most six days before it |
| Dates.SundayOfWeek | src/nlp_parser.py:34-35 | the result is a Sunday, on or after the day and at most six days after it, and is that week's Monday + 6 |
| Dates.MondayIsUnique | src/nlp_parser.py:30-31 | any Monday at most six days before a day is that day's Monday, so the week is well defined |
| Dates.MondayShiftsByWeek | src/nlp_parser.py:41 | moving a day by ±7 moves its Monday by ±7 |
| Dates.ComputeRange | src/nlp_parser.py:38-52 | each of the three keywords gives a Monday–Sunday week holding now, now − 7 or now + 7; any other keyword gives `{type: None}` with no bounds |
| Dates.WeeksAreAdjacent | src/nlp_parser.py:40-51 | last week ends the day before this week starts; next week starts the day after this week ends; both are seven days long |
| Text.Lower | src/nlp_parser.py:56 | `lower()` keeps the length and lower-cases each character |
| Text.Upper | src/nlp_parser.py:87 | `upper()` keeps the length and upper-cases each character |
| Text.Capitalize | src/nlp_parser.py:92 | `capitalize()` upper-cases the first character and lower-cases the rest |
| Text.Strip | src/nlp_parser.py:56 | `strip()` returns the slice `s[a..b]` where everything before `a` and from `b` on is white space and the slice neither starts nor ends with white space; so it is the whole text when its ends are not white space, and empty when all of it is |
| Patterns.GradeAtIsRegex | src/nlp_parser.py:80 | `grade\s*(\d+)` matches at a position iff "grade" starts there and is followed by white space up to a digit |
| Patterns.GradeDigits | src/nlp_parser.py:80-82 | group 1 of `grade\s*(\d+)` is a non-empty run of digits, found after "grade" and the spaces, that cannot be extended |
| Patterns.ClassCodeLength | src/nlp_parser.py:85 | the class group has length 3 exactly when the two-digit shape matches, length 2 exactly when the one-digit shape does, and there is no match otherwise |
| Patterns.ClassAtIsRegex | src/nlp_parser.py:85 | `\b(\d{1,2}[a-z])\b` matches at a position iff a word boundary, one or two digits, a lower-case letter and a word boundary follow |
| Patterns.ClassCode | src/nlp_parser.py:85-87 | group 1 of `\b(\d{1,2}[a-z])\b` is one or two digits then a lower-case letter, standing as a whole word |
| Patterns.RegionAtIsRegex | src/nlp_parser.py:90 | `\b(north\|south\|east\|west)\b` matches at a position iff a word boundary is there and some direction starts there and ends on a word boundary |
| Patterns.RegionWord | src/nlp_parser.py:90-92 | group 1 of `\b(north\|south\|east\|west)\b` is one of the four directions, as a whole word |
| Patterns.FirstAlternative | src/nlp_parser.py:90 | the alternation reports a direction that matches and ends on a word boundary, and no earlier direction in the list does; it reports none only when no direction does |
| Patterns.SearchFrom | src/nlp_parser.py:80-90 | scanning from a position reports the first match at or after it, or none when nothing matches there |
| Patterns.Search | src/nlp_parser.py:80-90 | `re.search` reports the leftmost position where the pattern matches, or none when it matches nowhere |
| Patterns.SearchFindsLeftmost | src/nlp_parser.py:80-90 | a match with no earlier match is the one `re.search` reports |
| Patterns.Group | src/nlp_parser.py:82-92 | each captured group is non-empty; the grade group starts after "grade" and its spaces, the class and region groups start at the match |
| Query.Store | src/nlp_parser.py:146 | `filters[k] = v` sets key k to v and leaves every other key as it was |
| Parser.Normalize | src/nlp_parser.py:56 | the normalised text is the stripped text with each character lower-cased: same length, character by character, and no upper-case letter |
| Parser.ClassifyIntent | src/nlp_parser.py:58-68 | intent is homework iff a homework word occurs; performance iff none does and "performance" occurs; quizzes otherwise |
| Parser.HomeworkVocabulary | src/nlp_parser.py:59 | the six homework words amount to "homework", "submit" or "submission" occurring |
| Parser.SubmissionStatus | src/nlp_parser.py:74-77 | the status is "no" iff a negation phrase occurs; "yes" iff none does and "submitted" occurs; absent iff neither occurs |
| Parser.StatusImpliesHomework | src/nlp_parser.py:59-77 | every phrase that sets a status also selects the homework intent |
| Parser.GradeFilter | src/nlp_parser.py:80-82 | the grade key is present iff the pattern matches somewhere; its value is "Grade " followed by the digits of the leftmost match |
| Parser.ClassFilter | src/nlp_parser.py:85-87 | the classes key is present iff a class token occurs; it is the one-element list holding the upper-cased code of the leftmost token: digits plus an upper-case letter |
| Parser.RegionFilter | src/nlp_parser.py:90-92 | the region key is present iff a direction occurs as a word; its value is the capitalised leftmost direction, one of North, South, East or West |
| Parser.CapitalizedDirection | src/nlp_parser.py:92 | capitalising a direction gives one of the four region names |
| Parser.DateRangeFor | src/nlp_parser.py:95-102 | "last week" wins, then "this week", then "next week", wherever they occur; the chosen window is `_compute_range` of that keyword at `now`, a whole ISO week; otherwise `{type: None}` |
| Parser.RuleBasedResult | src/nlp_parser.py:55-104 | the rule-based parse has one of the three intents; it has a status key iff a negation phrase or "submitted" occurs; its window is a whole ISO week of the keyword it names, or none |
| Parser.RuleBasedParse | src/nlp_parser.py:55-104 | building the dictionary step by step yields exactly `RuleBasedResult` |
| Parser.ParsedIntent | src/nlp_parser.py:58-68 | homework wins even when "performance" occurs; otherwise "performance" gives performance; anything else, the empty text included, gives quizzes |
| Parser.ParsedSubmissionStatus | src/nlp_parser.py:72-77 | the status key exists only under the homework intent; "no" for a negation phrase whatever else occurs, "yes" for a plain "submitted", absent otherwise |
| Parser.BlankTextParse | src/nlp_parser.py:55-104 | blank text parses to quizzes with no filters and no date window |
| Parser.NoMatchInEmptyText | src/nlp_parser.py:80-92 | none of the three patterns matches anywhere in the empty text |
| Parser.LastFor | src/nlp_parser.py:145-146 | the item a key ends up with is an item of the reply with that key and no later item has that key; no item means the key was not mentioned |
| Parser.MergeFilters | src/nlp_parser.py:144-146 | after copying the seed and assigning every reply item, each key holds the reply's last value for it, or the seed's when the reply does not name it |
| Parser.Enhance | src/nlp_parser.py:107-154 | with no key or no usable reply the seed is returned; otherwise the intent is the reply's or the seed's, each key holds the reply's last value for it or the seed's, and the window is the recomputed week of a recognised keyword or the seed's |
| Parser.LlmEnhance | src/nlp_parser.py:143-152 | the merge loop yields exactly `Enhance` |
| Parser.ParseNaturalLanguage | src/nlp_parser.py:157-163 | the result is the refined rule-based parse; with no API key it is the rule-based parse |
| Table.Where | src/query_engine.py:19-21 | `df[mask]` is an order-preserving subsequence of the input that holds each row the mask accepts as many times as the input does, and no other row |
| Table.WhereCommutes | src/query_engine.py:50-57 | two selections applied in either order give the same rows |
| Engine.FromStart | src/query_engine.py:18-19 | the lower bound, when given, keeps exactly the rows with a present date on or after it |
| Engine.UpToEnd | src/query_engine.py:20-21 | the upper bound, when given, keeps exactly the rows with a present date on or before it |
| Engine.ApplyDateRange | src/query_engine.py:13-22 | an inactive range returns the rows unchanged; otherwise it is one selection of the rows whose date is present and within the given bounds |
| Engine.UpperEach | src/query_engine.py:54 | the upper-cased class list holds exactly the upper-cased names of the listed classes |
| Engine.ApplyParsedFilters | src/query_engine.py:36-69 | the grade, class, region and status/date stages together select exactly the rows `Admits` accepts, in input order |
| Engine.SelectionIsExact | src/query_engine.py:44-69 | empty input gives empty output; a row is kept iff it is an input row the query admits; the result is an order-preserving subsequence |
| Engine.EmptyQueryKeepsAll | src/query_engine.py:47-67 | a non-homework query with no filters and no window keeps every row |
| Engine.RangeIgnoredUnlessSubmitted | src/query_engine.py:59-64 | under homework intent with a status other than exactly "yes", changing the date range changes nothing |
| Engine.KeptRowsAreInRange | src/query_engine.py:59-67 | with both bounds active, kept rows have a present quiz date (non-homework) or submission date (homework, "yes") inside them |
| Engine.Join | src/query_engine.py:33 | joining one part gives that part; joining none gives the empty string |
| Engine.JoinAppend | src/query_engine.py:33 | appending a part appends the separator and the part |
| Engine.BuildFilterSummary | src/query_engine.py:25-33 | the summary is `intent=…`, then `; filters=…` exactly when filters are non-empty, then `; date_range=kind(start→end)` exactly when the type is truthy |
| Rbac.FilterByAdminScope | src/rbac.py:18-31 | the result is an order-preserving subsequence; every kept row is in scope (sound); every in-scope input row is kept (complete) |
| Rbac.ScopeIsSelection | src/rbac.py:27-31 | the three masks combined are one selection by grade ∈ allowed, class ∈ allowed and region equal |
| Rbac.EmptyAllowListSeesNothing | src/rbac.py:27-28 | an empty grade or class allow-list gives an empty result |
| Rbac.NameIsIrrelevant | src/rbac.py:18-31 | the admin's name does not affect the result |
| Rbac.ScopeIsIdempotent | src/rbac.py:18-31 | scoping twice equals scoping once |
| Rbac.WiderScopeSeesMore | src/rbac.py:27-31 | widening the allow-lists never hides a visible row |
| Pipeline.ScopedAnswer | src/app.py:58-66 | scoping and then filtering shows exactly the input rows that are in scope and admitted by the query, in order |
| Pipeline.AnswerStaysInScope | src/app.py:58-66 | no query can produce a row outside the admin's scope: re-scoping the answer changes nothing |
| Pipeline.ScopeAndQueryCommute | src/app.py:58-66 | scoping before or after filtering gives the same answer |
| Scenarios.TypographicApostropheReadsAsSubmitted | src/quick_test.py:22 | "Which students haven’t submitted homework?" parses to homework with status "yes" and no window |
| Scenarios.TypographicQuestionListsSubmitters | src/query_engine.py:59-64 | that parse selects exactly the rows with status "yes" |
| Scenarios.AsciiApostropheReadsAsNotSubmitted | src/nlp_parser.py:73-75 | with an ASCII apostrophe the same question gives status "no" |
| Scenarios.PerformanceQuestionParse | src/quick_test.py:23 | "Show performance for Grade 8 last week" parses to performance, grade "Grade 8" and last week's window |
| Scenarios.PerformanceQuestionRows | src/query_engine.py:50-67 | that query keeps exactly the grade 8 rows whose quiz date lies in last week |
| Scenarios.UpcomingQuestionParse | src/quick_test.py:24 | "List upcoming quizzes for next week" parses to quizzes, no filters, next week's window |
| Scenarios.GradeMismatchIsExcluded | src/rbac.py:27-31 | a Grade 9 row of class 8A in East is outside the scope of an East admin allowed Grade 8 and classes 8A and 8B |
| Scenarios.HomeworkWithoutStatusKeepsAll | src/query_engine.py:59-64 | a homework query with no status filter ignores last week's window and keeps every row |

## Left out

- The language-model call (src/nlp_parser.py:114-142) is not modelled: the library imports, the prompt, the network request and the JSON decoding. The decoded reply is a parameter, and `None` stands for a missing library, a failed call or an undecodable answer.
- Parser.Reply holds a string intent and typed items for the four known filter keys. A reply with a null or non-string intent, an unknown filter key, or a value of another type (classes given as a string, say) is not represented.
- Parser.ParseNaturalLanguage reads one `now` for the whole parse. The source reads the clock separately in each `_compute_range` call, so a call that straddles midnight is not modelled.
- Dates.ComputeRange works on whole days. Its range is unbounded, so Python's `OverflowError` near year 1 or year 9999 is not modelled.
- Engine.ApplyDateRange compares whole days. Bounds are midnight timestamps in the source; a stored time of day, which would put a row on the end date outside the window, is not modelled.
- Text.Lower, Text.Upper and Text.Capitalize map ASCII letters only, as do the `\d`, `\s` and `\b` classes in the scanners. Text.Strip treats the ASCII white space and the separators U+001C–U+001F as white space. Python's Unicode-wide case mapping and character classes are not modelled.
- Engine.BuildFilterSummary takes the `repr` of the filters dictionary and the `str` of a bound as function parameters. The exact Python rendering is not modelled.
- Row columns: `student_name` and `quiz_score` are carried but no core operation reads them. Loading, dtype coercion and date parsing (src/loader.py) are not modelled; rows arrive already normalised.
- The user interface (src/app.py) is not modelled, including its result sorting, and neither is the configuration (src/config.py). Only the order in which src/app.py:58-66 calls the core is modelled.
- The engine handles only the date-range types the parser produces: one of the three weeks, or none. The `custom` type named in the source's docstring is never produced, so it is not modelled beyond `Active`.
