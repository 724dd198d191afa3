/** The Python backend's `get_ai_response` (backend/huggingface.py): the
    generated text is scanned with `re.finditer` over the python-fence
    expression, each capture is stripped into `code_blocks`, every
    occurrence of each matched span is removed from `content` with
    `str.replace`, and the remaining "```" are deleted before a final strip.
    The hosted-model call is the `Generation` parameter. */
module HuggingFacePy {
  import opened Outcomes
  import opened Text
  import opened Fences
  import opened Messages

  /** The loop's state after handling the matches `done`: the blocks and
      prose reflect exactly `done`. */
  ghost predicate Handled(text: string, done: seq<Match>, codeBlocks: seq<string>, content: string) {
    && AllInText(text, done)
    && codeBlocks == BlocksOf(text, done)
    && content == EveryRemoved(text, done)
  }

  /** Handling one more match keeps the loop's state. */
  lemma {:induction false} HandleNext(text: string, done: seq<Match>, codeBlocks: seq<string>, content: string, m: Match)
    requires Handled(text, done, codeBlocks, content) && InText(text, m)
    ensures Handled(text, done + [m], codeBlocks + [Trim(Inner(text, m))], ReplaceAll(content, Whole(text, m)))
  {
    ScanStep(text, done, m);
  }

  /** The `for match in matches` loop and the cleanup after it. */
  method Extract(text: string) returns (reply: AiReply)
    ensures reply.codeBlocks == CodeBlocks(text)
    ensures reply.content == PyContent(text)
  {
    var codeBlocks: seq<string> := [];
    var content := text;
    var matches := Matches(text, 0);
    for i := 0 to |matches|
      invariant Handled(text, matches[..i], codeBlocks, content)
    {
      var m := matches[i];
      HandleNext(text, matches[..i], codeBlocks, content, m);
      assert matches[..i + 1] == matches[..i] + [m];
      codeBlocks := codeBlocks + [Trim(Inner(text, m))];
      content := ReplaceAll(content, Whole(text, m));
    }
    assert matches[..|matches|] == matches;
    content := Trim(ReplaceAll(content, Fence));
    reply := AiReply(content, codeBlocks);
  }

  /** The prefix every failure detail of the Python backends starts with. */
  const FailurePrefix: string := "Failed to get AI response: "

  /** The text `get_ai_response` raises when the model call fails. */
  function FailureMessage(reason: string): (r: string)
    ensures StartsWith(r, FailurePrefix)
    ensures r[|FailurePrefix|..] == reason
  {
    FailurePrefix + reason
  }

  /** `get_ai_response`: the extracted reply, or the exception it raises
      when the model call fails. */
  method GetAiResponse(generation: Generation) returns (r: Result<AiReply, string>)
    ensures generation.Generated? ==>
      r == Success(AiReply(PyContent(generation.text), CodeBlocks(generation.text)))
    ensures generation.GenerationFailed? ==> r == Failure(FailureMessage(generation.reason))
  {
    match generation
    case GenerationFailed(reason) =>
      r := Failure(FailureMessage(reason));
    case Generated(text) =>
      var reply := Extract(text);
      r := Success(reply);
  }
}
