/** The TypeScript server's `chat` (server/lib/huggingface.ts): the
    generated text is scanned with the global python-fence expression, each
    capture is trimmed into `codeBlocks`, the first occurrence of each
    matched span is removed from `content`, and the remaining "```" are
    deleted before a final trim. The hosted-model call is the `Generation`
    parameter. */
module HuggingFaceTs {
  import opened Outcomes
  import opened Text
  import opened Fences
  import opened Messages

  /** The loop's state after handling the matches `done`: `lastIndex` is
      where `exec` resumes, and the blocks and prose reflect exactly `done`. */
  ghost predicate Scanned(text: string, lastIndex: nat, done: seq<Match>, codeBlocks: seq<string>, content: string) {
    && lastIndex <= |text|
    && AllInText(text, done)
    && Matches(text, 0) == done + Matches(text, lastIndex)
    && codeBlocks == BlocksOf(text, done)
    && content == FirstRemoved(text, done)
  }

  /** Handling the match `exec` returns keeps the loop's state. */
  lemma {:induction false} ScanAdvance(text: string, lastIndex: nat, done: seq<Match>, codeBlocks: seq<string>, content: string, m: Match)
    requires Scanned(text, lastIndex, done, codeBlocks, content)
    requires NextMatch(text, lastIndex) == Some(m)
    ensures lastIndex < m.close + |Fence|
    ensures Scanned(text, m.close + |Fence|, done + [m],
                    codeBlocks + [Trim(Inner(text, m))], ReplaceFirst(content, Whole(text, m)))
  {
    ScanStep(text, done, m);
    assert Matches(text, 0) == (done + [m]) + Matches(text, m.close + |Fence|) by {
      MatchesStep(text, lastIndex, m);
      AppendAssoc(done, [m], Matches(text, m.close + |Fence|));
    }
  }

  /** When `exec` finds nothing more, `done` holds every match. */
  lemma {:induction false} ScanFinish(text: string, lastIndex: nat, done: seq<Match>, codeBlocks: seq<string>, content: string)
    requires Scanned(text, lastIndex, done, codeBlocks, content)
    requires NextMatch(text, lastIndex).None?
    ensures codeBlocks == CodeBlocks(text)
    ensures Trim(ReplaceAll(content, Fence)) == TsContent(text)
  {
    assert Matches(text, lastIndex) == [];
    assert Matches(text, 0) == done;
  }

  /** The `while (match = exec(text))` loop and the cleanup after it. */
  method Extract(text: string) returns (reply: AiReply)
    ensures reply.codeBlocks == CodeBlocks(text)
    ensures reply.content == TsContent(text)
  {
    var codeBlocks: seq<string> := [];
    var content := text;
    var lastIndex: nat := 0;
    ghost var done: seq<Match> := [];
    assert Matches(text, 0) == done + Matches(text, lastIndex);
    while true
      invariant Scanned(text, lastIndex, done, codeBlocks, content)
      decreases |text| - lastIndex
    {
      var found := NextMatch(text, lastIndex);
      if found.None? {
        ScanFinish(text, lastIndex, done, codeBlocks, content);
        break;
      }
      var m := found.value;
      ScanAdvance(text, lastIndex, done, codeBlocks, content, m);
      codeBlocks := codeBlocks + [Trim(Inner(text, m))];
      content := ReplaceFirst(content, Whole(text, m));
      done := done + [m];
      lastIndex := m.close + |Fence|;
    }
    content := Trim(ReplaceAll(content, Fence));
    reply := AiReply(content, codeBlocks);
  }

  /** `chat`: the extracted reply, or the error it throws when the model
      call fails. */
  method Chat(generation: Generation) returns (r: Result<AiReply, string>)
    ensures generation.Generated? ==>
      r == Success(AiReply(TsContent(generation.text), CodeBlocks(generation.text)))
    ensures generation.GenerationFailed? ==>
      r == Failure("Failed to get response: " + generation.reason)
  {
    match generation
    case GenerationFailed(reason) =>
      r := Failure("Failed to get response: " + reason);
    case Generated(text) =>
      var reply := Extract(text);
      r := Success(reply);
  }
}
