/**
 * The section split of formatAnalysis: `text.split(/\n\s*\d+\./)`.
 *
 * Because `\s`, `\d` and `.` are pairwise disjoint, the backtracking regular
 * expression matches at a newline exactly when the longest whitespace run
 * after it is followed by the longest digit run, which is non-empty and
 * followed by a period. MarkerEnd scans that way; MarkerEndIsMatch proves it
 * agrees with the pattern's own meaning, MatchesAt.
 */
module Markers {
  import opened Wrappers
  import opened TextOps

  /**
   * `s[q..d + 1]` has the shape of the pattern: a newline at q, whitespace on
   * `[q + 1, w)`, at least one digit on `[w, d)`, and a period at d.
   */
  ghost predicate MarkerShape(s: string, q: nat, w: nat, d: nat) {
    && q + 1 <= w < d < |s|
    && s[q] == '\n'
    && (forall k :: q + 1 <= k < w ==> IsWhitespace(s[k]))
    && (forall k :: w <= k < d ==> IsDigit(s[k]))
    && s[d] == '.'
  }

  /** The pattern `\n\s*\d+\.` matches `s` from q up to e, under some choice of runs. */
  ghost predicate MatchesAt(s: string, q: nat, e: nat) {
    exists w: nat, d: nat :: MarkerShape(s, q, w, d) && e == d + 1
  }

  /** The end of the match of `\n\s*\d+\.` that starts exactly at q, if there is one. */
  function MarkerEnd(s: string, q: nat): (r: Option<nat>)
    requires q <= |s|
    ensures r.Some? ==> q + 3 <= r.value <= |s|
  {
    if q < |s| && s[q] == '\n' then
      var w := SkipWhile(IsWhitespace, s, q + 1);
      var d := SkipWhile(IsDigit, s, w);
      if w < d < |s| && s[d] == '.' then Some(d + 1) else None
    else None
  }

  /** The scanner finds a match exactly where the pattern matches, and with the same end. */
  lemma MarkerEndIsMatch(s: string, q: nat, e: nat)
    requires q <= |s|
    ensures MarkerEnd(s, q) == Some(e) <==> MatchesAt(s, q, e)
  {
    if MarkerEnd(s, q) == Some(e) {
      var w := SkipWhile(IsWhitespace, s, q + 1);
      var d := SkipWhile(IsDigit, s, w);
      assert MarkerShape(s, q, w, d);
    }
    if MatchesAt(s, q, e) {
      var w: nat, d: nat :| MarkerShape(s, q, w, d) && e == d + 1;
      SkipWhileUnique(IsWhitespace, s, q + 1, w);
      SkipWhileUnique(IsDigit, s, w, d);
    }
  }

  /** The end of a run is determined by the run: SkipWhile finds it. */
  lemma {:induction false} SkipWhileUnique(p: char -> bool, s: string, i: nat, j: nat)
    requires i <= j <= |s|
    requires forall k :: i <= k < j ==> p(s[k])
    requires j < |s| ==> !p(s[j])
    ensures SkipWhile(p, s, i) == j
    decreases j - i
  {
    if i < j {
      SkipWhileUnique(p, s, i + 1, j);
    }
  }

  /** A match holds a digit. */
  lemma MatchHasDigit(s: string, q: nat, e: nat) returns (d: nat)
    requires MatchesAt(s, q, e)
    ensures d < |s| && IsDigit(s[d])
  {
    var w: nat, d': nat :| MarkerShape(s, q, w, d') && e == d' + 1;
    d := w;
  }

  /** A match shifted into a larger string that holds the same characters. */
  lemma MatchInContext(s: string, p: nat, t: nat, k: nat, e: nat)
    requires p <= t <= |s|
    requires MatchesAt(s[p..t], k, e)
    ensures MatchesAt(s, p + k, p + e)
  {
    var sub := s[p..t];
    var w: nat, d: nat :| MarkerShape(sub, k, w, d) && e == d + 1;
    assert forall i :: 0 <= i < |sub| ==> sub[i] == s[p + i];
    assert forall i :: p + k + 1 <= i < p + w ==> IsWhitespace(s[i]) by {
      forall i | p + k + 1 <= i < p + w ensures IsWhitespace(s[i]) {
        assert s[i] == sub[i - p];
      }
    }
    assert forall i :: p + w <= i < p + d ==> IsDigit(s[i]) by {
      forall i | p + w <= i < p + d ensures IsDigit(s[i]) {
        assert s[i] == sub[i - p];
      }
    }
    assert MarkerShape(s, p + k, p + w, p + d);
  }

  /**
   * The leftmost match starting at or after `from`, as the split loop of
   * RegExp.prototype[@@split] finds it: its start q and end e.
   */
  function NextMarker(s: string, from: nat): (r: Option<(nat, nat)>)
    requires from <= |s|
    ensures r.Some? ==> from <= r.value.0 <= |s| && MarkerEnd(s, r.value.0) == Some(r.value.1)
    ensures r.Some? ==> forall k :: from <= k < r.value.0 ==> MarkerEnd(s, k).None?
    ensures r.None? ==> forall k :: from <= k <= |s| ==> MarkerEnd(s, k).None?
    decreases |s| - from
  {
    if from == |s| then None
    else match MarkerEnd(s, from)
      case Some(e) => Some((from, e))
      case None => NextMarker(s, from + 1)
  }

  /** The pieces of `s[p..]` between the matches, delimiters dropped. */
  function SplitFrom(s: string, p: nat): (segments: seq<string>)
    requires p <= |s|
    decreases |s| - p
  {
    match NextMarker(s, p)
    case None => [s[p..]]
    case Some((q, e)) => [s[p..q]] + SplitFrom(s, e)
  }

  /** The delimiters that SplitFrom drops, in order. */
  function DelimitersFrom(s: string, p: nat): (delimiters: seq<string>)
    requires p <= |s|
    decreases |s| - p
  {
    match NextMarker(s, p)
    case None => []
    case Some((q, e)) => [s[q..e]] + DelimitersFrom(s, e)
  }

  /** `text.split(/\n\s*\d+\./)`. */
  function Split(text: string): seq<string> {
    SplitFrom(text, 0)
  }

  /** `segments[0] + delimiters[0] + segments[1] + ... + segments[n]`. */
  function Interleave(segments: seq<string>, delimiters: seq<string>): string
    requires |segments| == |delimiters| + 1
  {
    if delimiters == [] then segments[0]
    else segments[0] + delimiters[0] + Interleave(segments[1..], delimiters[1..])
  }

  lemma SliceConcat(s: string, p: nat, q: nat, e: nat)
    requires p <= q <= e <= |s|
    ensures s[p..] == s[p..q] + s[q..e] + s[e..]
  {
  }

  lemma InterleaveCons(segment: string, delimiter: string, segments: seq<string>, delimiters: seq<string>)
    requires |segments| == |delimiters| + 1
    ensures Interleave([segment] + segments, [delimiter] + delimiters)
         == segment + delimiter + Interleave(segments, delimiters)
  {
    assert ([segment] + segments)[1..] == segments;
    assert ([delimiter] + delimiters)[1..] == delimiters;
  }

  /**
   * Splitting loses nothing: there is one more segment than delimiters, and
   * putting the delimiters back between the segments rebuilds the text.
   */
  lemma {:induction false} SplitReassembles(s: string, p: nat)
    requires p <= |s|
    ensures |SplitFrom(s, p)| == |DelimitersFrom(s, p)| + 1
    ensures Interleave(SplitFrom(s, p), DelimitersFrom(s, p)) == s[p..]
    decreases |s| - p
  {
    match NextMarker(s, p)
    case None =>
    case Some((q, e)) =>
      SplitReassembles(s, e);
      var segments, delimiters := SplitFrom(s, e), DelimitersFrom(s, e);
      assert SplitFrom(s, p) == [s[p..q]] + segments;
      assert DelimitersFrom(s, p) == [s[q..e]] + delimiters;
      InterleaveCons(s[p..q], s[q..e], segments, delimiters);
      SliceConcat(s, p, q, e);
  }

  /** Every dropped delimiter is, on its own, a whole match of the pattern. */
  lemma {:induction false} DelimitersMatch(s: string, p: nat)
    requires p <= |s|
    ensures forall i :: 0 <= i < |DelimitersFrom(s, p)| ==>
      MatchesAt(DelimitersFrom(s, p)[i], 0, |DelimitersFrom(s, p)[i]|)
    decreases |s| - p
  {
    match NextMarker(s, p)
    case None =>
    case Some((q, e)) =>
      DelimitersMatch(s, e);
      MarkerEndIsMatch(s, q, e);
      var w: nat, d: nat :| MarkerShape(s, q, w, d) && e == d + 1;
      var m := s[q..e];
      assert MarkerShape(m, 0, w - q, d - q) by {
        assert forall k :: 0 <= k < |m| ==> m[k] == s[q + k];
      }
      assert MatchesAt(m, 0, |m|);
  }

  /** No segment contains a delimiter: each match of the pattern was cut out. */
  lemma {:induction false} SegmentsHoldNoMarker(s: string, p: nat)
    requires p <= |s|
    ensures forall seg, k: nat, e: nat :: seg in SplitFrom(s, p) ==> !MatchesAt(seg, k, e)
    decreases |s| - p
  {
    match NextMarker(s, p)
    case None =>
      SegmentHoldsNoMarker(s, p, |s|);
      assert s[p..|s|] == s[p..];
    case Some((q, e)) =>
      SegmentHoldsNoMarker(s, p, q);
      SegmentsHoldNoMarker(s, e);
      assert SplitFrom(s, p) == [s[p..q]] + SplitFrom(s, e);
  }

  /** A stretch of text in which no match starts holds no match of its own. */
  lemma SegmentHoldsNoMarker(s: string, p: nat, end: nat)
    requires p <= end <= |s|
    requires forall k :: p <= k < end ==> MarkerEnd(s, k).None?
    ensures forall k: nat, e: nat :: !MatchesAt(s[p..end], k, e)
  {
    forall k: nat, e: nat | MatchesAt(s[p..end], k, e) ensures false {
      MatchInContext(s, p, end, k, e);
      var w: nat, d: nat :| MarkerShape(s[p..end], k, w, d) && e == d + 1;
      MarkerEndIsMatch(s, p + k, p + e);
    }
  }

  /** Text in which the pattern matches nowhere splits into itself alone. */
  lemma NoMarkerOneSegment(s: string)
    requires forall q: nat, e: nat :: !MatchesAt(s, q, e)
    ensures Split(s) == [s]
  {
    match NextMarker(s, 0)
    case None =>
    case Some((q, e)) =>
      MarkerEndIsMatch(s, q, e);
  }

  /**
   * A match needs a newline in front of its digits, so text that does not
   * start with a newline (for instance "1. Summary") keeps its first
   * character in the first segment: a number at offset 0 is no delimiter.
   */
  lemma LeadingTextStaysInFirstSegment(s: string)
    requires |s| > 0 && s[0] != '\n'
    ensures |Split(s)[0]| > 0 && Split(s)[0] == s[..|Split(s)[0]|]
  {
  }
}
