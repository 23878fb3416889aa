/** Option, as used for the scanner's "no match here" and for formatAnalysis's null result. */
module Wrappers {
  datatype Option<T> = None | Some(value: T)
}

/**
 * The string primitives formatAnalysis relies on, as JavaScript defines them:
 * the `\s` character class, String.prototype.trim, and split/join on "\n".
 * Strings are sequences of Unicode scalar values; every character these
 * operations inspect lies in the Basic Multilingual Plane, so working per
 * scalar value gives the same results as JavaScript's UTF-16 code units.
 */
module TextOps {

  /**
   * ECMAScript WhiteSpace plus LineTerminator (ECMA-262, "White Space" and
   * "Line Terminators"). Both the regular-expression class `\s` and
   * String.prototype.trim use exactly this set.
   */
  predicate IsWhitespace(c: char) {
    || c == '\t' || c == '\n' || c == '\U{000B}' || c == '\U{000C}' || c == '\r'
    || c == ' ' || c == '\U{00A0}' || c == '\U{1680}'
    || ('\U{2000}' <= c <= '\U{200A}')
    || c == '\U{2028}' || c == '\U{2029}' || c == '\U{202F}' || c == '\U{205F}'
    || c == '\U{3000}' || c == '\U{FEFF}'
  }

  /** The regular-expression class `\d`: ASCII digits only. */
  predicate IsDigit(c: char) {
    '0' <= c <= '9'
  }

  predicate AllWhitespace(s: string) {
    forall i :: 0 <= i < |s| ==> IsWhitespace(s[i])
  }

  /** The end of the longest run of characters satisfying `p` that starts at `i`. */
  function SkipWhile(p: char -> bool, s: string, i: nat): (j: nat)
    requires i <= |s|
    ensures i <= j <= |s|
    ensures forall k :: i <= k < j ==> p(s[k])
    ensures j < |s| ==> !p(s[j])
    decreases |s| - i
  {
    if i < |s| && p(s[i]) then SkipWhile(p, s, i + 1) else i
  }

  /** The start of the longest run of whitespace that ends at `j`. */
  function TrimEndIndex(s: string, j: nat): (b: nat)
    requires j <= |s|
    ensures b <= j
    ensures forall k :: b <= k < j ==> IsWhitespace(s[k])
    ensures b > 0 ==> !IsWhitespace(s[b - 1])
  {
    if j > 0 && IsWhitespace(s[j - 1]) then TrimEndIndex(s, j - 1) else j
  }

  /**
   * String.prototype.trim: `s` with its leading and trailing whitespace removed.
   * The result is the part of `s` that starts at the first non-whitespace
   * character, and everything of `s` after it is whitespace.
   */
  function Trim(s: string): (r: string)
    ensures r == "" <==> AllWhitespace(s)
    ensures r != "" ==> !IsWhitespace(r[0]) && !IsWhitespace(r[|r| - 1])
    ensures SkipWhile(IsWhitespace, s, 0) + |r| <= |s|
    ensures r == s[SkipWhile(IsWhitespace, s, 0)..SkipWhile(IsWhitespace, s, 0) + |r|]
    ensures AllWhitespace(s[SkipWhile(IsWhitespace, s, 0) + |r|..])
  {
    var a := SkipWhile(IsWhitespace, s, 0);
    if a == |s| then "" else s[a..TrimEndIndex(s, |s|)]
  }

  /** The index of the first `c` at or after `i`, or `|s|` when there is none. */
  function IndexOf(s: string, c: char, i: nat): (k: nat)
    requires i <= |s|
    ensures i <= k <= |s|
    ensures k < |s| ==> s[k] == c
    ensures forall m :: i <= m < k ==> s[m] != c
    decreases |s| - i
  {
    if i == |s| || s[i] == c then i else IndexOf(s, c, i + 1)
  }

  /** Array.prototype.join with separator "\n"; the empty array joins to "". */
  function JoinLines(lines: seq<string>): string {
    if lines == [] then ""
    else if |lines| == 1 then lines[0]
    else lines[0] + "\n" + JoinLines(lines[1..])
  }

  /**
   * String.prototype.split("\n"): the pieces between the newlines, never
   * fewer than one ("" splits to [""]); joining them again gives back `s`.
   */
  function SplitLines(s: string): (lines: seq<string>)
    ensures |lines| >= 1
    ensures forall i :: 0 <= i < |lines| ==> '\n' !in lines[i]
    ensures JoinLines(lines) == s
    decreases |s|
  {
    var k := IndexOf(s, '\n', 0);
    if k == |s| then [s]
    else
      var rest := SplitLines(s[k + 1..]);
      assert s == s[..k] + "\n" + s[k + 1..];
      [s[..k]] + rest
  }

  /** The first line of `s` is everything before its first newline. */
  lemma FirstLine(s: string)
    ensures SplitLines(s)[0] == s[..IndexOf(s, '\n', 0)]
    ensures IndexOf(s, '\n', 0) < |s| ==> SplitLines(s)[1..] == SplitLines(s[IndexOf(s, '\n', 0) + 1..])
  {
  }

  /** Splitting undoes joining, for lines that hold no newline themselves. */
  lemma {:induction false} SplitJoinLines(lines: seq<string>)
    requires |lines| >= 1
    requires forall i :: 0 <= i < |lines| ==> '\n' !in lines[i]
    ensures SplitLines(JoinLines(lines)) == lines
    decreases |lines|
  {
    if |lines| > 1 {
      var s := JoinLines(lines);
      var n := |lines[0]|;
      assert s == lines[0] + "\n" + JoinLines(lines[1..]);
      assert s[n] == '\n';
      assert forall m :: 0 <= m < n ==> s[m] == lines[0][m];
      var k := IndexOf(s, '\n', 0);
      assert k == n;
      assert s[..n] == lines[0];
      assert s[n + 1..] == JoinLines(lines[1..]);
      SplitJoinLines(lines[1..]);
      assert lines == [lines[0]] + lines[1..];
    } else {
      assert JoinLines(lines) == lines[0];
      assert IndexOf(lines[0], '\n', 0) == |lines[0]|;
    }
  }
}
