/** Character classes, ASCII case mapping, `str.strip` and the substring test
    `p in t`.

    Text is a sequence of characters.  Case mapping and the regex character
    classes cover ASCII; every other character is left unchanged by case
    mapping and is neither a letter, a digit nor a word character. */
module Text {
  import opened Wrappers

  predicate IsUpper(c: char) { 'A' <= c <= 'Z' }

  predicate IsLower(c: char) { 'a' <= c <= 'z' }

  /** `\d` on ASCII. */
  predicate IsDigit(c: char) { '0' <= c <= '9' }

  /** `\s` and `str.isspace` on ASCII: space, tab, line feed, carriage
      return, form feed, vertical tab and the four separators 0x1C-0x1F. */
  predicate IsSpace(c: char) {
    c == ' ' || c == '\t' || c == '\n' || c == '\r' || c == '\U{000B}' || c == '\U{000C}'
    || ('\U{001C}' <= c <= '\U{001F}')
  }

  /** `\w` on ASCII. */
  predicate IsWordChar(c: char) { IsLower(c) || IsUpper(c) || IsDigit(c) || c == '_' }

  function LowerChar(c: char): (r: char)
    ensures !IsUpper(r)
    ensures IsUpper(c) ==> IsLower(r)
    ensures !IsUpper(c) ==> r == c
  {
    if IsUpper(c) then (c as int + 32) as char else c
  }

  function UpperChar(c: char): (r: char)
    ensures !IsLower(r)
    ensures IsLower(c) ==> IsUpper(r)
    ensures !IsLower(c) ==> r == c
  {
    if IsLower(c) then (c as int - 32) as char else c
  }

  /** `str.lower()`. */
  function Lower(s: string): (r: string)
    ensures |r| == |s|
    ensures forall i :: 0 <= i < |s| ==> r[i] == LowerChar(s[i])
  {
    if s == [] then [] else [LowerChar(s[0])] + Lower(s[1..])
  }

  /** `str.upper()`. */
  function Upper(s: string): (r: string)
    ensures |r| == |s|
    ensures forall i :: 0 <= i < |s| ==> r[i] == UpperChar(s[i])
  {
    if s == [] then [] else [UpperChar(s[0])] + Upper(s[1..])
  }

  /** `str.capitalize()`: first character upper case, the rest lower case. */
  function Capitalize(s: string): (r: string)
    ensures |r| == |s|
    ensures s != [] ==> r[0] == UpperChar(s[0]) && r[1..] == Lower(s[1..])
  {
    if s == [] then [] else [UpperChar(s[0])] + Lower(s[1..])
  }

  /** The first index at or after `i` that does not hold white space. */
  function SkipSpaces(s: string, i: nat): (a: nat)
    requires i <= |s|
    decreases |s| - i
    ensures i <= a <= |s|
    ensures forall k :: i <= k < a ==> IsSpace(s[k])
    ensures a < |s| ==> !IsSpace(s[a])
  {
    if i < |s| && IsSpace(s[i]) then SkipSpaces(s, i + 1) else i
  }

  /** The end of `s[a..b]` once its trailing white space is dropped. */
  function TrimEnd(s: string, a: nat, b: nat): (e: nat)
    requires a <= b <= |s|
    decreases b
    ensures a <= e <= b
    ensures forall k :: e <= k < b ==> IsSpace(s[k])
    ensures a < e ==> !IsSpace(s[e - 1])
  {
    if a < b && IsSpace(s[b - 1]) then TrimEnd(s, a, b - 1) else b
  }

  /** `str.strip()`: `s` without its leading and trailing white space. */
  function Strip(s: string): (r: string)
    ensures Contains(s, r)
    ensures r != [] ==> !IsSpace(r[0]) && !IsSpace(r[|r| - 1])
    ensures s != [] && !IsSpace(s[0]) && !IsSpace(s[|s| - 1]) ==> r == s
    ensures (forall k :: 0 <= k < |s| ==> IsSpace(s[k])) ==> r == []
    ensures exists a, b :: 0 <= a <= b <= |s| && r == s[a..b]
                           && (forall k :: 0 <= k < a ==> IsSpace(s[k]))
                           && (forall k :: b <= k < |s| ==> IsSpace(s[k]))
  {
    var a := SkipSpaces(s, 0);
    var b := TrimEnd(s, a, |s|);
    assert MatchAt(s, s[a..b], a);
    s[a..b]
  }

  /** `p` occurs in `t` starting at index `i`. */
  predicate MatchAt(t: string, p: string, i: nat) {
    i + |p| <= |t| && t[i..i + |p|] == p
  }

  /** `p` occurs at `i` when it agrees with `t` character by character. */
  lemma MatchAtByChars(t: string, p: string, i: nat)
    requires i + |p| <= |t|
    requires forall k :: i <= k < i + |p| ==> t[k] == p[k - i]
    ensures MatchAt(t, p, i)
  {
    assert t[i..i + |p|] == p;
  }

  /** Python's `p in t` on strings. */
  predicate Contains(t: string, p: string) {
    exists i :: 0 <= i <= |t| - |p| && MatchAt(t, p, i)
  }

  /** An occurrence of `q` inside an occurrence of `p` is an occurrence of `q`. */
  lemma ContainsTransitive(t: string, p: string, q: string)
    requires Contains(t, p) && Contains(p, q)
    ensures Contains(t, q)
  {
    var i :| 0 <= i <= |t| - |p| && MatchAt(t, p, i);
    var j :| 0 <= j <= |p| - |q| && MatchAt(p, q, j);
    forall k | i + j <= k < i + j + |q| ensures t[k] == q[k - i - j] {
      assert t[i..i + |p|][k - i] == t[k];
      assert p[j..j + |q|][k - i - j] == p[k - i];
    }
    assert t[i + j..i + j + |q|] == q;
    assert MatchAt(t, q, i + j);
  }

  /** `t[i]` is `a` and `t[i + 1]` is `b`. */
  predicate PairAt(t: string, a: char, b: char, i: nat) {
    i + 1 < |t| && t[i] == a && t[i + 1] == b
  }

  /** Two adjacent characters of `p` that never stand side by side in `t`
      rule out `p in t`. */
  lemma MissingPairRulesOut(t: string, p: string, k: nat, a: char, b: char)
    requires k + 1 < |p| && p[k] == a && p[k + 1] == b
    requires forall i :: !PairAt(t, a, b, i)
    ensures !Contains(t, p)
  {
    forall i | 0 <= i <= |t| - |p| ensures !MatchAt(t, p, i) {
      assert !PairAt(t, a, b, i + k);
      assert t[i..i + |p|][k] == t[i + k] && t[i..i + |p|][k + 1] == t[i + k + 1];
    }
  }

  /** `r` is `s` lower-cased, character by character. */
  lemma LowerOf(s: string, r: string)
    requires |r| == |s|
    requires forall i :: 0 <= i < |s| ==> LowerChar(s[i]) == r[i]
    ensures Lower(s) == r
  {
  }

  /** A character of `p` that does not occur in `t` rules out `p in t`. */
  lemma MissingCharRulesOut(t: string, p: string, c: char)
    requires c in p && c !in t
    ensures !Contains(t, p)
  {
    var k :| 0 <= k < |p| && p[k] == c;
    forall i | 0 <= i <= |t| - |p| ensures !MatchAt(t, p, i) {
      assert t[i..i + |p|][k] == t[i + k];
      assert t[i + k] in t;
    }
  }

  /** When `c` is not a character of `p`, an occurrence of `p` in
      `a + [c] + b` would lie within `a` or within `b`; so ruling out both
      rules out the whole. */
  lemma SplitAtMissingChar(a: string, c: char, b: string, p: string)
    requires c !in p
    requires !Contains(a, p) && !Contains(b, p)
    ensures !Contains(a + [c] + b, p)
  {
    var t := a + [c] + b;
    assert t[|a|] == c;
    forall i | 0 <= i <= |t| - |p| ensures !MatchAt(t, p, i) {
      if i + |p| <= |a| {
        assert a[i..i + |p|] == t[i..i + |p|];
        assert !MatchAt(a, p, i);
      } else if i <= |a| {
        assert t[i..i + |p|][|a| - i] == c;
      } else {
        assert b[i - |a| - 1..i - |a| - 1 + |p|] == t[i..i + |p|];
        assert !MatchAt(b, p, i - |a| - 1);
      }
    }
  }
}
