/** The three regular expressions of `_rule_based_parse`
    (src/nlp_parser.py, lines 80, 85 and 90), written out as scanners over
    lower-cased text.  Each `...At(t, i)` says that the pattern matches at
    index `i`; `Search` is `re.search`: the leftmost such index. */
module Patterns {
  import opened Wrappers
  import opened Text

  /** The end of the run of digits that starts at `j`. */
  function DigitRunEnd(t: string, j: nat): (k: nat)
    requires j <= |t|
    decreases |t| - j
    ensures j <= k <= |t|
    ensures forall m :: j <= m < k ==> IsDigit(t[m])
    ensures k < |t| ==> !IsDigit(t[k])
  {
    if j < |t| && IsDigit(t[j]) then DigitRunEnd(t, j + 1) else j
  }

  // ---- grade\s*(\d+) ----

  /** `grade\s*(\d+)` matches at `i`: "grade", any white space, then at least
      one digit.  Backing off `\s*` cannot help, since a white-space
      character is never a digit. */
  predicate GradeAt(t: string, i: nat) {
    && MatchAt(t, "grade", i)
    && var j := SkipSpaces(t, i + 5);
    && j < |t| && IsDigit(t[j])
  }

  /** `GradeAt` is the regular expression's meaning: "grade", then some
      white space ending at a digit. */
  lemma GradeAtIsRegex(t: string, i: nat)
    ensures GradeAt(t, i)
            <==> MatchAt(t, "grade", i)
                 && exists j :: i + 5 <= j < |t| && IsDigit(t[j])
                                && forall k :: i + 5 <= k < j ==> IsSpace(t[k])
  {
    if MatchAt(t, "grade", i) {
      var a := SkipSpaces(t, i + 5);
      if j :| i + 5 <= j < |t| && IsDigit(t[j]) && forall k :: i + 5 <= k < j ==> IsSpace(t[k]) {
        assert !IsSpace(t[j]);
        assert a == j;
      }
    }
  }

  /** Group 1 of a match at `i`: the whole run of digits after the spaces. */
  function GradeDigits(t: string, i: nat): (g: string)
    requires GradeAt(t, i)
    ensures |g| > 0
    ensures forall m :: 0 <= m < |g| ==> IsDigit(g[m])
    ensures MatchAt(t, g, SkipSpaces(t, i + 5))
    ensures SkipSpaces(t, i + 5) + |g| < |t| ==> !IsDigit(t[SkipSpaces(t, i + 5) + |g|])
  {
    var j := SkipSpaces(t, i + 5);
    t[j..DigitRunEnd(t, j)]
  }

  // ---- \b(\d{1,2}[a-z])\b ----

  /** `\b` before a word character at `i`. */
  predicate BoundaryBefore(t: string, i: nat) {
    i == 0 || (i <= |t| && !IsWordChar(t[i - 1]))
  }

  /** `\b` after a word character that ends at `k`. */
  predicate BoundaryAfter(t: string, k: nat) {
    k == |t| || (k < |t| && !IsWordChar(t[k]))
  }

  /** `\b`, `d` digits, one lower-case letter, `\b`, starting at `i`. */
  predicate CodeShapeAt(t: string, i: nat, d: nat) {
    && BoundaryBefore(t, i)
    && i + d < |t|
    && (forall m :: i <= m < i + d ==> IsDigit(t[m]))
    && IsLower(t[i + d])
    && BoundaryAfter(t, i + d + 1)
  }

  /** The length of group 1 when `\b(\d{1,2}[a-z])\b` matches at `i`, else 0.
      The greedy `\d{1,2}` tries two digits first and backs off to one; the
      two shapes exclude each other, since the second character is a digit
      in one and a letter in the other. */
  function ClassCodeLength(t: string, i: nat): (n: nat)
    ensures n == 3 <==> CodeShapeAt(t, i, 2)
    ensures n == 2 <==> CodeShapeAt(t, i, 1)
    ensures n == 0 <==> !CodeShapeAt(t, i, 1) && !CodeShapeAt(t, i, 2)
  {
    if !(i < |t| && IsDigit(t[i]) && BoundaryBefore(t, i)) then 0
    else if i + 2 < |t| && IsDigit(t[i + 1]) && IsLower(t[i + 2]) && BoundaryAfter(t, i + 3) then 3
    else if i + 1 < |t| && IsLower(t[i + 1]) && BoundaryAfter(t, i + 2) then 2
    else 0
  }

  predicate ClassAt(t: string, i: nat) {
    ClassCodeLength(t, i) > 0
  }

  /** `\b(\d{1,2}[a-z])\b` matches at `i` iff one of its two shapes does. */
  lemma ClassAtIsRegex(t: string, i: nat)
    ensures ClassAt(t, i) <==> CodeShapeAt(t, i, 1) || CodeShapeAt(t, i, 2)
  {
  }

  /** Group 1 of a match at `i`: one or two digits, then one lower-case letter,
      standing as a whole word. */
  function ClassCode(t: string, i: nat): (c: string)
    requires ClassAt(t, i)
    ensures |c| == 2 || |c| == 3
    ensures forall m :: 0 <= m < |c| - 1 ==> IsDigit(c[m])
    ensures IsLower(c[|c| - 1])
    ensures MatchAt(t, c, i) && BoundaryBefore(t, i) && BoundaryAfter(t, i + |c|)
  {
    t[i..i + ClassCodeLength(t, i)]
  }

  // ---- \b(north|south|east|west)\b ----

  const RegionWords: seq<string> := ["north", "south", "east", "west"]

  /** Alternative `w` matches at `i` and ends on a word boundary. */
  predicate Fits(t: string, w: string, i: nat) {
    MatchAt(t, w, i) && BoundaryAfter(t, i + |w|)
  }

  /** The first alternative of `words` that matches at `i` and ends on a
      word boundary; alternatives are tried in order. */
  function FirstAlternative(t: string, i: nat, words: seq<string>): (r: Option<string>)
    ensures r.Some? ==> r.value in words && Fits(t, r.value, i)
    ensures r.None? ==> forall w :: w in words ==> !Fits(t, w, i)
    ensures r.Some? ==> exists k :: 0 <= k < |words| && words[k] == r.value
                                    && forall j :: 0 <= j < k ==> !Fits(t, words[j], i)
  {
    if words == [] then None
    else if Fits(t, words[0], i) then Some(words[0])
    else
      var rest := FirstAlternative(t, i, words[1..]);
      assert rest.Some? ==> exists k :: 0 <= k < |words| && words[k] == rest.value
                                         && forall j :: 0 <= j < k ==> !Fits(t, words[j], i) by {
        if rest.Some? {
          var k :| 0 <= k < |words[1..]| && words[1..][k] == rest.value
                   && forall j :: 0 <= j < k ==> !Fits(t, words[1..][j], i);
          assert words[k + 1] == rest.value;
          forall j | 0 < j < k + 1
            ensures !Fits(t, words[j], i)
          {
            assert words[j] == words[1..][j - 1];
          }
        }
      }
      rest
  }

  /** `\b(north|south|east|west)\b` matches at `i`. */
  predicate RegionAt(t: string, i: nat) {
    BoundaryBefore(t, i) && FirstAlternative(t, i, RegionWords).Some?
  }

  /** `RegionAt` is the regular expression's meaning: a word boundary, then
      some direction that ends on a word boundary. */
  lemma RegionAtIsRegex(t: string, i: nat)
    ensures RegionAt(t, i)
            <==> BoundaryBefore(t, i)
                 && exists w :: w in RegionWords && MatchAt(t, w, i) && BoundaryAfter(t, i + |w|)
  {
  }

  /** Group 1 of a match at `i`: one of the four directions, as a whole word. */
  function RegionWord(t: string, i: nat): (w: string)
    requires RegionAt(t, i)
    ensures w in RegionWords
    ensures MatchAt(t, w, i) && BoundaryBefore(t, i) && BoundaryAfter(t, i + |w|)
  {
    FirstAlternative(t, i, RegionWords).value
  }

  // ---- re.search ----

  /** The three patterns of the parser. */
  datatype Regex =
    | GradeNumber   // grade\s*(\d+)
    | ClassToken    // \b(\d{1,2}[a-z])\b
    | Direction     // \b(north|south|east|west)\b

  predicate MatchesAt(re: Regex, t: string, i: nat) {
    match re
    case GradeNumber => GradeAt(t, i)
    case ClassToken => ClassAt(t, i)
    case Direction => RegionAt(t, i)
  }

  /** Group 1 of a match of `re` at `i`. */
  function Group(re: Regex, t: string, i: nat): (g: string)
    requires MatchesAt(re, t, i)
    ensures |g| > 0
    ensures re == GradeNumber ==> MatchAt(t, g, SkipSpaces(t, i + 5))
    ensures re != GradeNumber ==> MatchAt(t, g, i)
  {
    match re
    case GradeNumber => GradeDigits(t, i)
    case ClassToken => ClassCode(t, i)
    case Direction => RegionWord(t, i)
  }

  /** The leftmost index at or after `from` where `re` matches. */
  function SearchFrom(re: Regex, t: string, from: nat): (r: Option<nat>)
    decreases |t| + 1 - from
    ensures r.Some? ==> from <= r.value <= |t| && MatchesAt(re, t, r.value)
                        && forall j :: from <= j < r.value ==> !MatchesAt(re, t, j)
    ensures r.None? ==> forall j :: from <= j ==> !MatchesAt(re, t, j)
  {
    if from > |t| then None
    else if MatchesAt(re, t, from) then Some(from)
    else SearchFrom(re, t, from + 1)
  }

  /** `re.search(pattern, t)`: the position of the leftmost match, if any. */
  function Search(re: Regex, t: string): (r: Option<nat>)
    ensures r.Some? ==> r.value <= |t| && MatchesAt(re, t, r.value)
                        && forall j: nat :: j < r.value ==> !MatchesAt(re, t, j)
    ensures r.None? ==> forall j: nat :: !MatchesAt(re, t, j)
  {
    SearchFrom(re, t, 0)
  }

  /** A match with no match before it is the one `re.search` reports. */
  lemma SearchFindsLeftmost(re: Regex, t: string, i: nat)
    requires MatchesAt(re, t, i)
    requires forall j: nat :: j < i ==> !MatchesAt(re, t, j)
    ensures Search(re, t) == Some(i)
  {
  }
}
