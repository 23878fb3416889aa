# Resume Analyzer page: a Dafny model

This project models the client-side logic of the Resume Analyzer page
(`resume-frontend/app/page.tsx`). The page lets a user pick a PDF, send it for
analysis and watch the streamed report appear. The model covers two parts:

* **The page state and its handlers.** The state is three fields: the selected
  `file`, the `analysis` text and the `isLoading` flag. The handlers are
  `handleFileChange` and `handleAnalyze`, plus the two conditions the markup
  derives from the state: when the Analyze button is enabled and when the
  results panel is shown. `Analyzer.ResumeAnalyzer` is a class with these
  fields. `handleAnalyze` is an async function, and each point where it
  resumes becomes an event method:
  * `StartAnalyze`: the synchronous part, up to the first `await`.
  * `OnResponse`: `fetch` has settled.
  * `OnChunk`: a read delivered bytes.
  * `OnStreamEnd`: a read reported `done`.
  * `OnFailure`: the `catch`/`finally` path.

  `HandleAnalyze` replays one whole run from a scripted fetch result and a
  scripted list of read results. Its `while` loop is the source's read loop.
  Two ghost fields track where the suspended handler is (`phase`) and which
  chunks it has read (`received`). They are not React state.
* **The report formatter `formatAnalysis`** is modelled as pure functions.
  * The regular expression `/\n\s*\d+\./` becomes an explicit scanner,
    `Markers.MarkerEnd`. It is proved equivalent to what the pattern means,
    `Markers.MatchesAt`: some split of the text into a newline, whitespace, at
    least one digit and a period.
  * `Markers.Split` is JavaScript's `split` with that pattern: cut at each
    leftmost match, scanning left to right.
  * `Formatter.Filter`, with `Formatter.IsKept` as its test, is the `filter`.
  * `Formatter.SectionOf` takes the title, the paragraph lines and the bullets.
  * `Formatter.Sections` and `Formatter.FormatAnalysis` put these together.
  * `TextOps.IsWhitespace` is the one whitespace set used by both `\s` and
    `trim()`: ECMAScript's WhiteSpace plus LineTerminator (ECMA-262, the
    "White Space" and "Line Terminators" clauses).

Behaviour of the code that a reader might not expect, and that the model keeps:

* Non-blank text before the first numbered marker is kept as a section, not
  dropped. A blank preamble is dropped by the filter, like any blank segment.
* A non-blank report with no newline-led marker is one section. A report of
  whitespace only has no sections, and the empty report gives `null`.
* A marker at offset 0 is not a delimiter, because the pattern starts with a
  newline. A report that starts "1. Summary" therefore has the title
  "1. Summary", not "Summary".
* A line "- Python" is shown as "•  Python" with two spaces. Only the dash is
  replaced; the space after it stays.
* Any failure replaces `analysis` with the fixed message. The partial text is
  not kept, and after a non-ok response `analysis` holds the message, not "".
* Each chunk is decoded on its own (`decoder.decode(value)` with no
  `{stream: true}`), so a multi-byte character split across two chunks is not
  carried over. The model does not claim that such characters survive.
* There is no separate status field. "Completed" and "Failed" differ only in
  the text left in `analysis`.

## Model

| member | source | states |
|---|---|---|
| `TextOps.SkipWhile` | resume-frontend/app/page.tsx:65 | the index it returns ends the longest run of matching characters from `i`: all before it match and the one at it does not. This is the greedy `\s*` and `\d+`, and the left side of `trim()` |
| `TextOps.TrimEndIndex` | resume-frontend/app/page.tsx:65 | the start of the longest whitespace run ending at `j`: the right side of `trim()` |
| `TextOps.Trim` | resume-frontend/app/page.tsx:65-69 | `trim()`: the result is empty iff the input is all whitespace. Otherwise it starts and ends with non-whitespace, it is the input from its first non-whitespace character, and only whitespace follows it |
| `TextOps.IndexOf` | resume-frontend/app/page.tsx:68 | the first index of a character at or after `i`, or the length when there is none |
| `TextOps.SplitLines` | resume-frontend/app/page.tsx:68 | `split('\n')` gives at least one piece, no piece contains a newline, and joining the pieces with newlines gives back the input |
| `TextOps.SplitJoinLines` | resume-frontend/app/page.tsx:68-69 | the other round trip: splitting the join of newline-free lines gives back the lines |
| `Markers.MarkerEnd` | resume-frontend/app/page.tsx:65 | the scanner for `\n\s*\d+\.` at one position: a match found there spans at least three characters and stays inside the text |
| `Markers.MarkerEndIsMatch` | resume-frontend/app/page.tsx:65 | the scanner reports a match ending at `e` iff the pattern matches from `q` to `e` under some split into whitespace and digit runs (both directions) |
| `Markers.NextMarker` | resume-frontend/app/page.tsx:65 | `split` finds the leftmost match at or after the current position; no match starts before it, and none at all when it returns nothing |
| `Markers.SplitReassembles` | resume-frontend/app/page.tsx:65 | there is one more segment than delimiters, and putting the delimiters back between the segments rebuilds the text exactly |
| `Markers.DelimitersMatch` | resume-frontend/app/page.tsx:65 | every delimiter removed by the split is, on its own, a whole match of the pattern |
| `Markers.SegmentsHoldNoMarker` | resume-frontend/app/page.tsx:65 | no segment of the split contains a match of the pattern |
| `Markers.NoMarkerOneSegment` | resume-frontend/app/page.tsx:65 | text in which the pattern matches nowhere splits into itself alone |
| `Markers.LeadingTextStaysInFirstSegment` | resume-frontend/app/page.tsx:65 | text that does not start with a newline keeps its start in a non-empty first segment: a number at offset 0 is no delimiter |
| `Formatter.BulletLine` | resume-frontend/app/page.tsx:76 | a dash-led line becomes the bullet glyph and a space followed by the rest of the line after the dash; any other line is unchanged; no result starts with a dash |
| `Formatter.ParagraphsPerLine` | resume-frontend/app/page.tsx:74-76 | there is one paragraph per piece of `contentText.split('\n')`, in order; a dash-led piece has its dash replaced by the bullet and a space, and every other piece is shown unchanged |
| `Formatter.ParagraphsWithoutDashes` | resume-frontend/app/page.tsx:74-76 | when no line of the content starts with a dash, the paragraphs joined with newlines give back the content exactly |
| `Formatter.BulletExample` | resume-frontend/app/page.tsx:76 | "- Python" becomes "•  Python" with two spaces; "Python" stays as it is |
| `Formatter.FilterKeeps` | resume-frontend/app/page.tsx:65 | the filter keeps exactly the elements that pass its test (for the sections: the segments whose trim is non-empty) and adds none |
| `Formatter.FilterAppend` | resume-frontend/app/page.tsx:65 | the filter keeps order: filtering a concatenation is concatenating the filtered parts |
| `Formatter.TitleIsFirstLine` | resume-frontend/app/page.tsx:68 | the title is the first line of the trimmed segment: a newline-free prefix of it, followed there by a newline or by nothing |
| `Formatter.ContentIsRest` | resume-frontend/app/page.tsx:68-76 | the paragraphs are the part of the trimmed segment after its first newline, trimmed again, split at newlines and bulleted; with no newline that part is "" |
| `Formatter.SingleLineSection` | resume-frontend/app/page.tsx:68-74 | a one-line segment is all title and has exactly one paragraph, the empty string |
| `Formatter.EmptyTextNoSections` | resume-frontend/app/page.tsx:62-65 | `formatAnalysis("")` is null, and the empty text has no sections |
| `Formatter.BlankTextNoSections` | resume-frontend/app/page.tsx:65 | a report of whitespace only has no sections |
| `Formatter.NoMarkerOneSection` | resume-frontend/app/page.tsx:65-68 | a non-blank report in which the pattern matches nowhere is exactly one section: the whole text |
| `Formatter.FirstSegmentFirstSection` | resume-frontend/app/page.tsx:65-67 | when the first segment of the split is not blank, it gives the first section: text before the first marker is kept |
| `Formatter.TrimVisibleStart` | resume-frontend/app/page.tsx:68 | `trim()` of a segment that starts with a visible character only cuts its end: the result is a non-empty prefix of the segment with the same first character |
| `Formatter.VisibleStartTitle` | resume-frontend/app/page.tsx:68 | a segment that starts with a visible character is kept by the filter, and its title is a non-empty prefix of that segment |
| `Formatter.LeadingNumberStaysInTitle` | resume-frontend/app/page.tsx:65-68 | a report that starts with a visible character (such as "1. Summary") has a first section whose title is a non-empty prefix of the report |
| `Analyzer.DecodedAppend` | resume-frontend/app/page.tsx:45-50 | concatenating decoded chunks distributes over concatenating chunk lists |
| `Analyzer.StreamCompletes` | resume-frontend/app/page.tsx:45-50 | chunks followed by `done` complete the run with exactly the decoded chunks appended, in arrival order, each once. Nothing after `done` is read |
| `Analyzer.StreamFails` | resume-frontend/app/page.tsx:45-54 | a rejected read after any number of chunks fails the run, whatever had been appended |
| `Analyzer.StreamPending` | resume-frontend/app/page.tsx:45-50 | while no read has ended the stream, the text is the decoded chunks so far |
| `Analyzer.ResumeAnalyzer.constructor` | resume-frontend/app/page.tsx:6-8 | the initial state: no file, empty analysis, not loading |
| `Analyzer.ResumeAnalyzer.HandleFileChange` | resume-frontend/app/page.tsx:16-21 | the first selected file replaces `file`; an empty selection keeps the previous `file`; nothing else changes |
| `Analyzer.ResumeAnalyzer.AnalyzeEnabled` | resume-frontend/app/page.tsx:150 | the button is enabled iff a file is selected and no run of handleAnalyze is in flight |
| `Analyzer.ResumeAnalyzer.ResultsVisible` | resume-frontend/app/page.tsx:167 | the results panel shows iff nothing is loading and `formatAnalysis(analysis)` is not null |
| `Analyzer.ResumeAnalyzer.StartAnalyze` | resume-frontend/app/page.tsx:23-27 | with no file, nothing changes at all. Otherwise `isLoading` becomes true and `analysis` becomes "" before anything is read; the file is kept |
| `Analyzer.ResumeAnalyzer.OnResponse` | resume-frontend/app/page.tsx:33-40 | the read loop starts iff fetch gave an ok response with a body, and then nothing has been read yet. A rejection, a non-ok status or a missing body gives the error message and ends loading |
| `Analyzer.ResumeAnalyzer.OnChunk` | resume-frontend/app/page.tsx:46-49 | the decoded chunk is appended to `analysis` and recorded as received; loading continues |
| `Analyzer.ResumeAnalyzer.OnStreamEnd` | resume-frontend/app/page.tsx:46-47 | loading ends, and `analysis` is unchanged and equals the decoded received chunks in order |
| `Analyzer.ResumeAnalyzer.OnFailure` | resume-frontend/app/page.tsx:52-57 | `analysis` becomes exactly "Something went wrong while analyzing the resume.", discarding any partial text, and loading ends |
| `Analyzer.ResumeAnalyzer.HandleAnalyze` | resume-frontend/app/page.tsx:23-58 | with no file, nothing changes. Otherwise the final state is the one `Run` gives: the decoded text with loading off on completion, the error message with loading off on any failure, or the text so far with loading on while the stream is still open. The file is unchanged |

## Left out

- Networking: `fetch`, `FormData` and the endpoint URL (page.tsx:29-36) are not modelled. A run takes the fetch result as a parameter: a rejection, or a response with its `ok` flag and whether it has a body.
- Decoding: `TextDecoder` (page.tsx:43, 48) is a library call. It is a function-valued field, `decode`, given to the constructor and applied to each chunk on its own. Nothing is claimed about characters split across chunks.
- Logging: `console.error` (page.tsx:53) is output only and is left out.
- React: the scheduling and batching of state updates are not modelled. Each event method commits its updates at once.
- Unused code: the empty `useEffect` (page.tsx:12-14) and the unused router (page.tsx:9) do nothing and are left out.
- Markup: JSX, CSS classes, the spinner and the selected-file line are presentation only. A rendered section is reduced to its title and its paragraph lines.
- Other files: the backend (`resume-backend/main.py`) is not part of this model. Neither is the page layout (`resume-frontend/app/layout.tsx`).
- Analyzer.ResumeAnalyzer.StartAnalyze: requires that no run is in flight. Its only caller is the button, and `disabled` (page.tsx:150) stops that. Two overlapping runs of handleAnalyze are not modelled.
- Analyzer.ResumeAnalyzer.HandleAnalyze: a run reads a finite scripted list of read results. When the list ends without `done` or an error, the run is left pending with loading on. A stream that never ends is not modelled beyond that.
- Text: strings are sequences of Unicode scalar values, not UTF-16 code units. Every character the formatter inspects is in the Basic Multilingual Plane, so results agree.
- Purity: formatAnalysis is pure and deterministic. Dafny functions are so by construction, so no lemma states it.
- A whole two-section report, evaluated character by character, is not proved end to end. Its parts are covered by `Formatter.LeadingNumberStaysInTitle`, `Formatter.BulletExample` and `Formatter.ContentIsRest`.
