/**
 * The ResumeAnalyzer page's state: the selected `file`, the `analysis`
 * text and the `isLoading` flag, and the handlers that change them.
 *
 * handleAnalyze is an async function that suspends at `fetch` and at each
 * `reader.read()`. Here each resumption is an event method of the class:
 * StartAnalyze (the synchronous prefix), OnResponse (fetch settled),
 * OnChunk (a read delivered bytes), OnStreamEnd (a read reported done) and
 * OnFailure (any failure in the try block, page.tsx:32-51, caught at
 * 52-54: fetch rejected, a non-ok response, no body, or a rejected read).
 * HandleAnalyze replays one whole run from a scripted response and a
 * scripted sequence of results, with the source's read loop as a while
 * loop.
 */
module Analyzer {
  import opened Wrappers
  import Formatter

  type Bytes = seq<bv8>

  /** The selected File object: its name and contents (never inspected here). */
  datatype File = File(name: string, content: Bytes)

  /** How `fetch` settled: rejected (network failure), or a response with its `ok` and body. */
  datatype FetchResult = NetworkError | Response(ok: bool, hasBody: bool)

  /** What one `reader.read()` gave: a chunk of bytes, `done`, or a rejection. */
  datatype ReadResult = Chunk(value: Bytes) | Done | ReadError

  /** Where the suspended handleAnalyze is: not running, awaiting fetch, or in the read loop. */
  datatype Phase = Idle | AwaitingResponse | Streaming

  /** How a run ends: the stream finished, something failed, or results are still awaited. */
  datatype Outcome = Completed(text: string) | Failed | Pending(text: string)

  /** The text shown after any failure. */
  const ErrorMessage: string := "Something went wrong while analyzing the resume."

  /** The decoded chunks, concatenated in arrival order, each decoded on its own. */
  function Decoded(decode: Bytes -> string, chunks: seq<Bytes>): string {
    if chunks == [] then "" else decode(chunks[0]) + Decoded(decode, chunks[1..])
  }

  /** Decoding distributes over concatenation of chunk sequences. */
  lemma {:induction false} DecodedAppend(decode: Bytes -> string, a: seq<Bytes>, b: seq<Bytes>)
    ensures Decoded(decode, a + b) == Decoded(decode, a) + Decoded(decode, b)
    decreases |a|
  {
    if a != [] {
      assert (a + b)[0] == a[0];
      assert (a + b)[1..] == a[1..] + b;
      DecodedAppend(decode, a[1..], b);
    } else {
      assert a + b == b;
    }
  }

  /** The read loop from text `acc` onwards, over the remaining results. */
  function Consume(decode: Bytes -> string, results: seq<ReadResult>, acc: string): Outcome {
    if results == [] then Pending(acc)
    else match results[0]
      case Done => Completed(acc)
      case ReadError => Failed
      case Chunk(v) => Consume(decode, results[1..], acc + decode(v))
  }

  /** A whole run of handleAnalyze once a file is selected: the response check, then the read loop. */
  function Run(decode: Bytes -> string, fetched: FetchResult, results: seq<ReadResult>): Outcome {
    if fetched.NetworkError? || !fetched.ok || !fetched.hasBody then Failed
    else Consume(decode, results, "")
  }

  /** Reads that deliver each of `chunks` in order. */
  function Chunks(chunks: seq<Bytes>): (results: seq<ReadResult>)
    ensures |results| == |chunks|
    ensures forall i :: 0 <= i < |chunks| ==> results[i] == Chunk(chunks[i])
  {
    seq(|chunks|, i requires 0 <= i < |chunks| => Chunk(chunks[i]))
  }

  /**
   * A stream that delivers some chunks and then reports done completes with
   * exactly the decoded chunks appended, in arrival order, each once; what
   * would follow the end is never read.
   */
  lemma {:induction false} StreamCompletes(decode: Bytes -> string, chunks: seq<Bytes>, later: seq<ReadResult>, acc: string)
    ensures Consume(decode, Chunks(chunks) + [Done] + later, acc) == Completed(acc + Decoded(decode, chunks))
    decreases |chunks|
  {
    var results := Chunks(chunks) + [Done] + later;
    if chunks == [] {
      assert results[0] == Done;
    } else {
      assert results[0] == Chunk(chunks[0]);
      assert results[1..] == Chunks(chunks[1..]) + [Done] + later;
      StreamCompletes(decode, chunks[1..], later, acc + decode(chunks[0]));
      assert acc + decode(chunks[0]) + Decoded(decode, chunks[1..]) == acc + Decoded(decode, chunks);
    }
  }

  /** A read that is rejected after any number of chunks fails the run. */
  lemma {:induction false} StreamFails(decode: Bytes -> string, chunks: seq<Bytes>, later: seq<ReadResult>, acc: string)
    ensures Consume(decode, Chunks(chunks) + [ReadError] + later, acc) == Failed
    decreases |chunks|
  {
    var results := Chunks(chunks) + [ReadError] + later;
    if chunks == [] {
      assert results[0] == ReadError;
    } else {
      assert results[0] == Chunk(chunks[0]);
      assert results[1..] == Chunks(chunks[1..]) + [ReadError] + later;
      StreamFails(decode, chunks[1..], later, acc + decode(chunks[0]));
    }
  }

  /** While no read has ended the stream, the text is the decoded chunks so far. */
  lemma {:induction false} StreamPending(decode: Bytes -> string, chunks: seq<Bytes>, acc: string)
    ensures Consume(decode, Chunks(chunks), acc) == Pending(acc + Decoded(decode, chunks))
    decreases |chunks|
  {
    if chunks != [] {
      assert Chunks(chunks)[1..] == Chunks(chunks[1..]);
      StreamPending(decode, chunks[1..], acc + decode(chunks[0]));
      assert acc + decode(chunks[0]) + Decoded(decode, chunks[1..]) == acc + Decoded(decode, chunks);
    }
  }

  class ResumeAnalyzer {
    var file: Option<File>
    var analysis: string
    var isLoading: bool
    /** TextDecoder('utf-8').decode, applied to each chunk on its own. */
    const decode: Bytes -> string
    /** The position of a running handleAnalyze, and the chunks it has read so far. */
    ghost var phase: Phase
    ghost var received: seq<Bytes>

    ghost predicate Valid()
      reads this
    {
      && (isLoading <==> phase != Idle)
      && (phase == AwaitingResponse ==> received == [] && analysis == "")
      && (phase == Streaming ==> analysis == Decoded(decode, received))
    }

    /** The initial state: no file, no analysis, not loading. */
    constructor (decode: Bytes -> string)
      ensures Valid() && this.decode == decode
      ensures file == None && analysis == "" && !isLoading && phase == Idle
    {
      this.decode := decode;
      file := None;
      analysis := "";
      isLoading := false;
      phase := Idle;
      received := [];
    }

    /** handleFileChange: the first selected file replaces `file`; no selection keeps it. */
    method HandleFileChange(files: seq<File>)
      requires Valid()
      modifies this
      ensures Valid()
      ensures file == if |files| > 0 then Some(files[0]) else old(file)
      ensures analysis == old(analysis) && isLoading == old(isLoading)
      ensures phase == old(phase) && received == old(received)
    {
      if |files| > 0 {
        file := Some(files[0]);
      }
    }

    /** The Analyze button is enabled (`disabled={!file || isLoading}`) exactly when a file is chosen and no run is in flight. */
    function AnalyzeEnabled(): (enabled: bool)
      reads this
      requires Valid()
      ensures enabled <==> file.Some? && phase == Idle
    {
      file.Some? && !isLoading
    }

    /** The results panel (`analysis && !isLoading`) shows exactly when nothing is loading and formatAnalysis does not return null. */
    function ResultsVisible(): (visible: bool)
      reads this
      ensures visible <==> !isLoading && Formatter.FormatAnalysis(analysis).Some?
    {
      analysis != "" && !isLoading
    }

    /**
     * The synchronous start of handleAnalyze: with no file it returns and
     * changes nothing; otherwise loading starts and the analysis is cleared
     * before anything is read.
     */
    method StartAnalyze() returns (started: bool)
      requires Valid() && phase == Idle
      modifies this
      ensures Valid()
      ensures started <==> old(file).Some?
      ensures !started ==> unchanged(this)
      ensures started ==> isLoading && analysis == "" && phase == AwaitingResponse && file == old(file)
    {
      if file.None? {
        return false;
      }
      isLoading := true;
      analysis := "";
      phase := AwaitingResponse;
      received := [];
      return true;
    }

    /**
     * The catch and finally blocks: the analysis becomes the error message,
     * whatever had been read, and loading ends.
     */
    method OnFailure()
      requires Valid() && phase != Idle
      modifies this
      ensures Valid()
      ensures analysis == ErrorMessage && !isLoading && phase == Idle
      ensures file == old(file)
    {
      analysis := ErrorMessage;
      isLoading := false;
      phase := Idle;
      received := [];
    }

    /**
     * `fetch` settled: a rejection, a non-ok status or a missing body fails
     * the run; otherwise the read loop starts with nothing read yet.
     */
    method OnResponse(fetched: FetchResult) returns (streaming: bool)
      requires Valid() && phase == AwaitingResponse
      modifies this
      ensures Valid() && file == old(file)
      ensures streaming <==> fetched.Response? && fetched.ok && fetched.hasBody
      ensures streaming ==> phase == Streaming && isLoading && analysis == "" && received == []
      ensures !streaming ==> phase == Idle && !isLoading && analysis == ErrorMessage
    {
      if fetched.NetworkError? || !fetched.ok || !fetched.hasBody {
        OnFailure();
        return false;
      }
      phase := Streaming;
      return true;
    }

    /** A read delivered bytes: their decoding is appended to the analysis. */
    method OnChunk(value: Bytes)
      requires Valid() && phase == Streaming
      modifies this
      ensures Valid() && phase == Streaming && isLoading && file == old(file)
      ensures analysis == old(analysis) + decode(value)
      ensures received == old(received) + [value]
    {
      DecodedAppend(decode, received, [value]);
      assert Decoded(decode, [value]) == decode(value) + Decoded(decode, []);
      analysis := analysis + decode(value);
      received := received + [value];
    }

    /** A read reported done: loading ends and the analysis is the decoded chunks, in order. */
    method OnStreamEnd()
      requires Valid() && phase == Streaming
      modifies this
      ensures Valid() && phase == Idle && !isLoading && file == old(file)
      ensures analysis == old(analysis) == Decoded(decode, old(received))
    {
      isLoading := false;
      phase := Idle;
      received := [];
    }

    /**
     * handleAnalyze, run to the end of the scripted results: with no file
     * nothing changes; otherwise the state is the one Run describes, and
     * loading has ended unless the stream is still open.
     */
    method HandleAnalyze(fetched: FetchResult, results: seq<ReadResult>)
      requires Valid() && phase == Idle
      modifies this
      ensures Valid() && file == old(file)
      ensures old(file).None? ==> analysis == old(analysis) && isLoading == old(isLoading) && phase == Idle
      ensures old(file).Some? ==> match Run(decode, fetched, results)
        case Completed(text) => analysis == text && !isLoading
        case Failed => analysis == ErrorMessage && !isLoading
        case Pending(text) => analysis == text && isLoading && phase == Streaming
    {
      var started := StartAnalyze();
      if !started {
        return;
      }
      var streaming := OnResponse(fetched);
      if !streaming {
        return;
      }
      var i := 0;
      while i < |results|
        invariant 0 <= i <= |results|
        invariant Valid() && phase == Streaming && file == old(file)
        invariant Run(decode, fetched, results) == Consume(decode, results[i..], analysis)
      {
        assert results[i..][1..] == results[i + 1..];
        match results[i]
        case Done =>
          OnStreamEnd();
          return;
        case ReadError =>
          OnFailure();
          return;
        case Chunk(value) =>
          OnChunk(value);
        i := i + 1;
      }
    }
  }

  /** A client of the page state: a run that fails. It uses the contracts above alone. */
  method ExampleFailedRun(decode: Bytes -> string)
  {
    var page := new ResumeAnalyzer(decode);
    assert !page.AnalyzeEnabled() && !page.ResultsVisible();
    page.HandleFileChange([]);
    assert page.file == None;
    page.HandleFileChange([File("resume.pdf", [])]);
    assert page.AnalyzeEnabled();
    page.HandleAnalyze(Response(false, true), [Done]);
    assert page.analysis == ErrorMessage && !page.isLoading;
    assert page.ResultsVisible();
  }

  /** A client of the page state: a stream that ends at once shows no results panel. */
  method ExampleEmptyRun(decode: Bytes -> string)
  {
    var page := new ResumeAnalyzer(decode);
    page.HandleFileChange([File("resume.pdf", [])]);
    page.HandleAnalyze(Response(true, true), [Done]);
    assert page.analysis == "" && !page.isLoading;
    assert !page.ResultsVisible();
  }
}
