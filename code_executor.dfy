/** `executeCode` in server/lib/codeExecutor.ts, from the point where the
    child process runs: its stdout and stderr arrive as a sequence of data
    chunks followed by `close`, each stream is collected into a capped
    buffer, and the result is shaped on close. Process spawning, the
    temporary file and the kill timer are not part of this model; a failure
    to prepare the file is the `setupError` parameter and the two
    `Date.now()` readings are `start` and end. */
module CodeExecutor {
  import opened Outcomes
  import opened Text

  /** A buffer takes more data only while it is shorter than this. */
  const MaxBufferSize: nat := 1024 * 1024

  datatype Stream = StdoutStream | StderrStream

  /** One `data` event: which stream it came from and its text. */
  datatype Chunk = Chunk(stream: Stream, data: string)

  datatype ExecutionResult = ExecutionResult(output: string, error: Option<string>, executionTime: int)

  /** The guarded append of one data callback. */
  function Feed(buffer: string, data: string): string
  {
    if |buffer| < MaxBufferSize then buffer + data else buffer
  }

  /** The buffer of `stream` after the events, oldest first. It is always a
      prefix of everything the stream sent, since chunks are kept whole and
      in order until the first one dropped, and below the cap nothing was
      dropped. */
  function Accumulate(events: seq<Chunk>, stream: Stream): (r: string)
    ensures r <= AllData(events, stream)
    ensures |r| < MaxBufferSize ==> r == AllData(events, stream)
    decreases |events|
  {
    if events == [] then ""
    else
      var last := events[|events| - 1];
      var buffer := Accumulate(events[..|events| - 1], stream);
      if last.stream == stream then Feed(buffer, last.data) else buffer
  }

  /** Everything `stream` sent, in order, with no cap. */
  function AllData(events: seq<Chunk>, stream: Stream): string
    decreases |events|
  {
    if events == [] then ""
    else
      var last := events[|events| - 1];
      var front := AllData(events[..|events| - 1], stream);
      if last.stream == stream then front + last.data else front
  }

  /** The length of the last chunk `stream` actually appended, 0 when none. */
  function LastAppended(events: seq<Chunk>, stream: Stream): nat
    decreases |events|
  {
    if events == [] then 0
    else
      var last := events[|events| - 1];
      var front := events[..|events| - 1];
      if last.stream == stream && |Accumulate(front, stream)| < MaxBufferSize then |last.data|
      else LastAppended(front, stream)
  }

  /** The chunks of one stream, in order. */
  function Only(events: seq<Chunk>, stream: Stream): (r: seq<Chunk>)
    ensures forall i :: 0 <= i < |r| ==> r[i].stream == stream
    decreases |events|
  {
    if events == [] then []
    else
      var front := Only(events[..|events| - 1], stream);
      if events[|events| - 1].stream == stream then front + [events[|events| - 1]] else front
  }

  lemma {:induction false} SplitLast(events: seq<Chunk>, more: seq<Chunk>)
    requires more != []
    ensures (events + more)[..|events + more| - 1] == events + more[..|more| - 1]
    ensures (events + more)[|events + more| - 1] == more[|more| - 1]
  {
  }

  /** A buffer only grows at its end: what it held earlier is a prefix of
      what it holds later. */
  lemma {:induction false} AccumulateGrows(events: seq<Chunk>, more: seq<Chunk>, stream: Stream)
    ensures Accumulate(events, stream) <= Accumulate(events + more, stream)
    decreases |more|
  {
    if more != [] {
      SplitLast(events, more);
      AccumulateGrows(events, more[..|more| - 1], stream);
    } else {
      assert events + more == events;
    }
  }

  /** Once a buffer has reached the cap every later chunk is dropped. */
  lemma {:induction false} DroppedAtCap(events: seq<Chunk>, more: seq<Chunk>, stream: Stream)
    requires |Accumulate(events, stream)| >= MaxBufferSize
    ensures Accumulate(events + more, stream) == Accumulate(events, stream)
    decreases |more|
  {
    if more != [] {
      SplitLast(events, more);
      DroppedAtCap(events, more[..|more| - 1], stream);
    } else {
      assert events + more == events;
    }
  }

  /** The cap is overshot by at most one chunk: the final length is below
      the cap plus the length of the last chunk appended. */
  lemma {:induction false} OvershootBound(events: seq<Chunk>, stream: Stream)
    ensures |Accumulate(events, stream)| < MaxBufferSize + LastAppended(events, stream)
    decreases |events|
  {
    if events != [] {
      OvershootBound(events[..|events| - 1], stream);
    }
  }

  /** Each buffer depends only on the chunks of its own stream. */
  lemma {:induction false} StreamsIndependent(events: seq<Chunk>, stream: Stream)
    ensures Accumulate(events, stream) == Accumulate(Only(events, stream), stream)
    decreases |events|
  {
    if events != [] {
      var front := events[..|events| - 1];
      var last := events[|events| - 1];
      StreamsIndependent(front, stream);
      if last.stream == stream {
        var only := Only(front, stream) + [last];
        assert only[..|only| - 1] == Only(front, stream);
      }
    }
  }

  /** The result `close` resolves with: trimmed stdout, and trimmed stderr
      unless that is empty, in which case no error. */
  function CloseResult(stdout: string, stderr: string, executionTime: int): (r: ExecutionResult)
    ensures r.output == Trim(stdout) && IsTrimmed(r.output)
    ensures r.error.None? <==> Trim(stderr) == ""
    ensures r.error.Some? ==> r.error.value == Trim(stderr) && IsTrimmed(r.error.value)
    ensures r.executionTime == executionTime
  {
    var error := Trim(stderr);
    ExecutionResult(Trim(stdout), if error == "" then None else Some(error), executionTime)
  }

  const ExecutionErrorPrefix: string := "Execution error: "

  /** The data callbacks: each chunk is appended to its stream's buffer
      while that buffer is below the cap. */
  method Collect(events: seq<Chunk>) returns (stdout: string, stderr: string)
    ensures stdout == Accumulate(events, StdoutStream)
    ensures stderr == Accumulate(events, StderrStream)
  {
    stdout := "";
    stderr := "";
    for i := 0 to |events|
      invariant stdout == Accumulate(events[..i], StdoutStream)
      invariant stderr == Accumulate(events[..i], StderrStream)
    {
      assert events[..i + 1][..i] == events[..i];
      var chunk := events[i];
      match chunk.stream
      case StdoutStream =>
        if |stdout| < MaxBufferSize {
          stdout := stdout + chunk.data;
        }
      case StderrStream =>
        if |stderr| < MaxBufferSize {
          stderr := stderr + chunk.data;
        }
    }
    assert events[..|events|] == events;
  }

  /** `executeCode`: when preparing the file fails, no output and the error
      text; otherwise the shaped buffers. Nothing is thrown; the time is
      end minus start either way. */
  method ExecuteCode(setupError: Option<string>, events: seq<Chunk>, start: int, end: int)
    returns (result: ExecutionResult)
    ensures setupError.Some? ==>
      result.output == "" && result.error == Some(ExecutionErrorPrefix + setupError.value)
    ensures setupError.None? ==>
      result == CloseResult(Accumulate(events, StdoutStream), Accumulate(events, StderrStream), end - start)
    ensures result.executionTime == end - start
  {
    if setupError.Some? {
      result := ExecutionResult("", Some(ExecutionErrorPrefix + setupError.value), end - start);
      return;
    }
    var stdout, stderr := Collect(events);
    result := CloseResult(stdout, stderr, end - start);
  }
}
