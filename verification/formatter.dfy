/**
 * formatAnalysis: the report text, re-parsed on every render into titled
 * sections. The JSX it produces is reduced to the data it shows: one
 * Section per kept segment, holding its heading and its paragraph lines.
 */
module Formatter {
  import opened Wrappers
  import opened TextOps
  import opened Markers

  datatype Section = Section(title: string, lines: seq<string>)

  /** The bullet glyph U+2022 that replaces a leading dash. */
  const BulletGlyph: char := '\U{2022}'

  /** `line.startsWith('-') ? '• ' + line.substring(1) : line` */
  function BulletLine(line: string): (r: string)
    ensures |line| > 0 && line[0] == '-' ==>
      |r| == |line| + 1 && r[..2] == [BulletGlyph, ' '] && r[2..] == line[1..]
    ensures (|line| == 0 || line[0] != '-') ==> r == line
    ensures |r| > 0 ==> r[0] != '-'
  {
    if |line| > 0 && line[0] == '-' then [BulletGlyph, ' '] + line[1..] else line
  }

  /** Whether `.filter(section => section.trim() !== '')` keeps a segment. */
  predicate IsKept(segment: string) {
    Trim(segment) != ""
  }

  /** Array.prototype.filter. */
  function Filter<T>(keep: T -> bool, xs: seq<T>): seq<T> {
    if xs == [] then []
    else (if keep(xs[0]) then [xs[0]] else []) + Filter(keep, xs[1..])
  }

  /**
   * One section: the first line of the trimmed segment is the title; the
   * other lines are joined and trimmed, and become the paragraphs.
   */
  function SectionOf(segment: string): Section {
    var all := SplitLines(Trim(segment));
    Section(all[0], Paragraphs(Trim(JoinLines(all[1..]))))
  }

  /** `contentText.split('\n')`, each line with a leading dash turned into a bullet. */
  function Paragraphs(contentText: string): seq<string> {
    var content := SplitLines(contentText);
    seq(|content|, i requires 0 <= i < |content| => BulletLine(content[i]))
  }

  /** The sections of a report: one per non-blank segment of the split, in order. */
  function Sections(text: string): seq<Section> {
    var kept := Filter(IsKept, Split(text));
    seq(|kept|, i requires 0 <= i < |kept| => SectionOf(kept[i]))
  }

  /** formatAnalysis: null for the empty string, otherwise the sections. */
  function FormatAnalysis(text: string): Option<seq<Section>> {
    if text == "" then None else Some(Sections(text))
  }

  /** The filter keeps exactly the elements that pass, and adds none. */
  lemma {:induction false} FilterKeeps<T>(keep: T -> bool, xs: seq<T>)
    ensures |Filter(keep, xs)| <= |xs|
    ensures forall x :: x in Filter(keep, xs) <==> x in xs && keep(x)
    decreases |xs|
  {
    if xs != [] {
      FilterKeeps(keep, xs[1..]);
      assert xs == [xs[0]] + xs[1..];
    }
  }

  /** The filter keeps order: filtering a concatenation filters each part. */
  lemma {:induction false} FilterAppend<T>(keep: T -> bool, a: seq<T>, b: seq<T>)
    ensures Filter(keep, a + b) == Filter(keep, a) + Filter(keep, b)
    decreases |a|
  {
    if a != [] {
      assert (a + b)[0] == a[0];
      assert (a + b)[1..] == a[1..] + b;
      FilterAppend(keep, a[1..], b);
    } else {
      assert a + b == b;
    }
  }

  /**
   * The title is the first line of the trimmed segment: it holds no newline,
   * and in the trimmed segment it is followed by a newline or by nothing.
   */
  lemma TitleIsFirstLine(segment: string)
    ensures var t, title := Trim(segment), SectionOf(segment).title;
      && '\n' !in title
      && |title| <= |t| && title == t[..|title|]
      && (|title| < |t| ==> t[|title|] == '\n')
  {
    FirstLine(Trim(segment));
  }

  /**
   * The paragraphs are the rest of the trimmed segment after its first
   * line (nothing, when it has one line only), trimmed again.
   */
  lemma ContentIsRest(segment: string)
    ensures var t, sec := Trim(segment), SectionOf(segment);
      sec.lines == Paragraphs(Trim(if '\n' in t then t[|sec.title| + 1..] else ""))
  {
    var t := Trim(segment);
    FirstLine(t);
    var k := IndexOf(t, '\n', 0);
    if k < |t| {
      assert JoinLines(SplitLines(t)[1..]) == t[k + 1..];
    } else {
      assert SplitLines(t)[1..] == [];
    }
  }

  /** A segment of a single line is all title, with exactly one paragraph, and it is empty. */
  lemma SingleLineSection(segment: string)
    requires '\n' !in Trim(segment)
    ensures SectionOf(segment).title == Trim(segment)
    ensures SectionOf(segment).lines == [""]
  {
    var t := Trim(segment);
    FirstLine(t);
    assert IndexOf(t, '\n', 0) == |t|;
    assert SplitLines(t)[1..] == [];
    assert Trim("") == "";
    assert SplitLines("") == [""];
  }

  /**
   * The paragraphs are the pieces of `contentText.split('\n')`, one each and
   * in order: a dash-led piece shows with the bullet in place of its dash,
   * and any other piece shows as it is.
   */
  lemma ParagraphsPerLine(contentText: string)
    ensures var pieces, shown := SplitLines(contentText), Paragraphs(contentText);
      && |shown| == |pieces|
      && (forall i :: 0 <= i < |pieces| && |pieces[i]| > 0 && pieces[i][0] == '-' ==>
            shown[i] == [BulletGlyph, ' '] + pieces[i][1..])
      && (forall i :: 0 <= i < |pieces| && (|pieces[i]| == 0 || pieces[i][0] != '-') ==>
            shown[i] == pieces[i])
  {
  }

  /** Content in which no line starts with a dash shows verbatim: its paragraphs join back to it. */
  lemma ParagraphsWithoutDashes(contentText: string)
    requires forall i :: 0 <= i < |SplitLines(contentText)| ==>
      |SplitLines(contentText)[i]| == 0 || SplitLines(contentText)[i][0] != '-'
    ensures JoinLines(Paragraphs(contentText)) == contentText
  {
    assert Paragraphs(contentText) == SplitLines(contentText);
  }

  /** Only the dash is replaced, so the space after it stays: "- Python" shows with two spaces. */
  lemma BulletExample()
    ensures BulletLine("- Python") == "\U{2022}  Python"
    ensures BulletLine("Python") == "Python"
  {
  }

  /** The empty report renders nothing at all: formatAnalysis returns null. */
  lemma EmptyTextNoSections()
    ensures FormatAnalysis("") == None
    ensures Sections("") == []
  {
    assert Split("") == [""] by {
      assert NextMarker("", 0) == None;
    }
    assert !IsKept("");
  }

  /** A report of whitespace only has no section. */
  lemma BlankTextNoSections(text: string)
    requires AllWhitespace(text)
    ensures Sections(text) == []
  {
    forall q: nat, e: nat | MatchesAt(text, q, e) ensures false {
      var d := MatchHasDigit(text, q, e);
    }
    NoMarkerOneSegment(text);
    assert Filter(IsKept, [text]) == [] by {
      assert !IsKept(text);
      assert [text][1..] == [];
    }
  }

  /**
   * A non-blank report with no newline-led numbered marker is one section:
   * nothing is dropped as a preamble.
   */
  lemma NoMarkerOneSection(text: string)
    requires !AllWhitespace(text)
    requires forall q: nat, e: nat :: !MatchesAt(text, q, e)
    ensures Sections(text) == [SectionOf(text)]
  {
    NoMarkerOneSegment(text);
    assert Filter(IsKept, [text]) == [text] by {
      assert IsKept(text);
      assert [text][1..] == [];
    }
  }

  /** When the first segment of the split is not blank, it gives the first section. */
  lemma FirstSegmentFirstSection(text: string)
    requires IsKept(Split(text)[0])
    ensures |Sections(text)| > 0 && Sections(text)[0] == SectionOf(Split(text)[0])
  {
    var segments := Split(text);
    assert segments == [segments[0]] + segments[1..];
    assert Filter(IsKept, segments)[0] == segments[0];
  }

  /** A segment that starts with a visible character is kept, and its title is a non-empty prefix of it. */
  lemma VisibleStartTitle(segment: string)
    requires |segment| > 0 && !IsWhitespace(segment[0])
    ensures IsKept(segment)
    ensures var title := SectionOf(segment).title;
      0 < |title| <= |segment| && title == segment[..|title|]
  {
    var t := Trim(segment);
    TrimVisibleStart(segment);
    FirstLine(t);
    PrefixOfPrefix(SplitLines(t)[0], t, segment);
  }

  /** Trimming a segment that starts with a visible character only cuts its end. */
  lemma TrimVisibleStart(segment: string)
    requires |segment| > 0 && !IsWhitespace(segment[0])
    ensures var t := Trim(segment);
      0 < |t| <= |segment| && t == segment[..|t|] && t[0] == segment[0]
  {
    assert SkipWhile(IsWhitespace, segment, 0) == 0;
  }

  lemma PrefixOfPrefix(a: string, b: string, c: string)
    requires |a| <= |b| <= |c| && a == b[..|a|] && b == c[..|b|]
    ensures a == c[..|a|]
  {
  }

  /**
   * A report that starts with a visible character (such as "1. Summary")
   * has a first section whose title is a non-empty prefix of the report:
   * the leading number is not a delimiter and stays in the title.
   */
  lemma LeadingNumberStaysInTitle(text: string)
    requires |text| > 0 && !IsWhitespace(text[0])
    ensures |Sections(text)| > 0
    ensures var title := Sections(text)[0].title;
      0 < |title| <= |text| && title == text[..|title|]
  {
    LeadingTextStaysInFirstSegment(text);
    var first := Split(text)[0];
    assert first[0] == text[0];
    VisibleStartTitle(first);
    FirstSegmentFirstSection(text);
    PrefixOfPrefix(SectionOf(first).title, first, text);
  }
}
