/** The code-block extraction that all three copies of the model client
    share: the global regular expression /```python([\s\S]*?)```/ run
    left to right over the generated text, the text of each match trimmed into
    a list of code blocks, the matched spans removed from the prose, and then
    every remaining "```" deleted and the prose trimmed.

    A match is the leftmost "```python" at or after the position where the
    previous match ended, closed by the first "```" after it (the lazy
    capture), even when that "```" begins another "```python". An opener with
    no later "```" ends the scan: no later opener can have one either. */
module Fences {
  import opened Outcomes
  import opened Text

  const Fence: string := "```"
  const Opener: string := "```python"

  /** A match whose opener starts at `start` and whose closer starts at `close`. */
  datatype Match = Match(start: nat, close: nat)

  /** The opener and the closer of `m` lie inside `text`, in that order. */
  predicate InText(text: string, m: Match) {
    m.start + |Opener| <= m.close && m.close + |Fence| <= |text|
  }

  predicate AllInText(text: string, ms: seq<Match>) {
    forall i :: 0 <= i < |ms| ==> InText(text, ms[i])
  }

  /** `m` is a fence of `text`: an opener, then a capture holding no "```",
      then a closer. */
  predicate IsFence(text: string, m: Match) {
    && InText(text, m)
    && OccursAt(text, Opener, m.start)
    && OccursAt(text, Fence, m.close)
    && NoFenceIn(text, m.start + |Opener|, m.close)
  }

  /** No "```" starts at an index in [lo, hi). */
  predicate NoFenceIn(text: string, lo: int, hi: int) {
    forall k :: lo <= k < hi ==> !OccursAt(text, Fence, k)
  }

  /** The captured group: the text between the opener and the closer. */
  function Inner(text: string, m: Match): string
    requires InText(text, m)
  {
    text[m.start + |Opener|..m.close]
  }

  /** The whole match, delimiters included. */
  function Whole(text: string, m: Match): string
    requires InText(text, m)
  {
    text[m.start..m.close + |Fence|]
  }

  /** One `exec` of the global regular expression from index `from`: a match
      starting at or after `from` (`NextMatchIsFence` and
      `NextMatchIsLeftmost` say which one). */
  function NextMatch(text: string, from: nat): (r: Option<Match>)
    ensures r.Some? ==> InText(text, r.value) && from <= r.value.start
  {
    match FindFrom(text, Opener, from)
    case None => None
    case Some(o) =>
      match FindFrom(text, Fence, o + |Opener|)
      case None => None
      case Some(c) => Some(Match(o, c))
  }

  /** What `exec` returns is a fence: "```python", a capture without "```",
      and the "```" that closes it. */
  lemma {:induction false} NextMatchIsFence(text: string, from: nat)
    ensures NextMatch(text, from).Some? ==> IsFence(text, NextMatch(text, from).value)
  {
    match FindFrom(text, Opener, from)
    case None =>
    case Some(o) =>
      match FindFrom(text, Fence, o + |Opener|)
      case None =>
      case Some(c) =>
        FindFromFindsLeftmost(text, Opener, from);
        FindFromFindsLeftmost(text, Fence, o + |Opener|);
  }

  /** `exec` finds the leftmost opener at or after `from`; it fails only when
      no opener from there on has a closer after it. */
  lemma {:induction false} NextMatchIsLeftmost(text: string, from: nat)
    ensures var r := NextMatch(text, from);
      && (r.Some? ==> forall k :: from <= k < r.value.start ==> !OccursAt(text, Opener, k))
      && (r.None? ==> forall o, c :: from <= o && o + |Opener| <= c && OccursAt(text, Opener, o)
                                     ==> !OccursAt(text, Fence, c))
  {
    FindFromFindsLeftmost(text, Opener, from);
    match FindFrom(text, Opener, from)
    case None =>
    case Some(o) =>
      FindFromFindsLeftmost(text, Fence, o + |Opener|);
      if FindFrom(text, Fence, o + |Opener|).None? {
        forall o', c | from <= o' && o' + |Opener| <= c && OccursAt(text, Opener, o')
          ensures !OccursAt(text, Fence, c)
        {
          assert o <= o';
        }
      }
  }

  /** Every match found from `from` onwards, in the order `exec` returns them. */
  function Matches(text: string, from: nat): (r: seq<Match>)
    ensures AllInText(text, r)
    decreases |text| - from
  {
    match NextMatch(text, from)
    case None => []
    case Some(m) => [m] + Matches(text, m.close + |Fence|)
  }

  /** The matches are fences, in left-to-right order, none overlapping the
      next. */
  lemma {:induction false} MatchesAreOrderedFences(text: string, from: nat)
    ensures var r := Matches(text, from);
      && AllFences(text, r)
      && (forall i :: 0 <= i < |r| ==> from <= r[i].start)
      && (forall i :: 0 <= i < |r| - 1 ==> r[i].close + |Fence| <= r[i + 1].start)
    decreases |text| - from
  {
    match NextMatch(text, from)
    case None =>
    case Some(m) =>
      var next := m.close + |Fence|;
      MatchesAreOrderedFences(text, next);
      NextMatchIsFence(text, from);
      MatchesStep(text, from, m);
      ConsOrderedFences(text, from, m, Matches(text, next));
  }

  /** A fence placed before ordered fences that start after it ends gives
      ordered fences. */
  lemma {:induction false} ConsOrderedFences(text: string, from: nat, m: Match, rest: seq<Match>)
    requires IsFence(text, m) && from <= m.start
    requires AllFences(text, rest)
    requires forall i :: 0 <= i < |rest| ==> m.close + |Fence| <= rest[i].start
    requires forall i :: 0 <= i < |rest| - 1 ==> rest[i].close + |Fence| <= rest[i + 1].start
    ensures var r := [m] + rest;
      && AllFences(text, r)
      && (forall i :: 0 <= i < |r| ==> from <= r[i].start)
      && (forall i :: 0 <= i < |r| - 1 ==> r[i].close + |Fence| <= r[i + 1].start)
  {
    var r := [m] + rest;
    forall i | 0 <= i < |r| ensures IsFence(text, r[i]) && from <= r[i].start {
      if i > 0 {
        assert r[i] == rest[i - 1];
      }
    }
    forall i | 0 <= i < |r| - 1 ensures r[i].close + |Fence| <= r[i + 1].start {
      assert r[i + 1] == rest[i];
      if i > 0 {
        assert r[i] == rest[i - 1];
      }
    }
  }

  predicate AllFences(text: string, ms: seq<Match>) {
    forall i :: 0 <= i < |ms| ==> IsFence(text, ms[i])
  }

  /** The code blocks of the matches `ms`: each capture, trimmed, in order. */
  function BlocksOf(text: string, ms: seq<Match>): (r: seq<string>)
    requires AllInText(text, ms)
  {
    seq(|ms|, i requires 0 <= i < |ms| => Trim(Inner(text, ms[i])))
  }

  /** The prose of the TypeScript copy before cleanup: for each match in
      turn, the first occurrence of its text is removed. */
  function FirstRemoved(text: string, ms: seq<Match>): string
    requires AllInText(text, ms)
  {
    if ms == [] then text
    else ReplaceFirst(FirstRemoved(text, ms[..|ms| - 1]), Whole(text, ms[|ms| - 1]))
  }

  /** The prose of the Python copies before cleanup: for each match in turn,
      every occurrence of its text is removed. */
  function EveryRemoved(text: string, ms: seq<Match>): string
    requires AllInText(text, ms)
  {
    if ms == [] then text
    else ReplaceAll(EveryRemoved(text, ms[..|ms| - 1]), Whole(text, ms[|ms| - 1]))
  }

  /** The final cleanup: delete every "```", then trim. */
  function Cleanup(prose: string): string {
    Trim(ReplaceAll(prose, Fence))
  }

  /** The code blocks every copy returns for `text`. */
  function CodeBlocks(text: string): seq<string> {
    BlocksOf(text, Matches(text, 0))
  }

  /** The content the TypeScript copy returns for `text`. */
  function TsContent(text: string): string {
    Cleanup(FirstRemoved(text, Matches(text, 0)))
  }

  /** The content the Python copies return for `text`. */
  function PyContent(text: string): string {
    Cleanup(EveryRemoved(text, Matches(text, 0)))
  }

  /** One more `exec`: the matches from `from` are the one it finds
      followed by those from where that one ends. */
  lemma {:induction false} MatchesStep(text: string, from: nat, m: Match)
    requires NextMatch(text, from) == Some(m)
    ensures Matches(text, from) == [m] + Matches(text, m.close + |Fence|)
  {
  }

  /** Adding one more match to those already handled adds its trimmed
      capture to the blocks and removes its text from the prose. */
  lemma {:induction false} ScanStep(text: string, done: seq<Match>, m: Match)
    requires AllInText(text, done) && InText(text, m)
    ensures AllInText(text, done + [m])
    ensures BlocksOf(text, done + [m]) == BlocksOf(text, done) + [Trim(Inner(text, m))]
    ensures FirstRemoved(text, done + [m]) == ReplaceFirst(FirstRemoved(text, done), Whole(text, m))
    ensures EveryRemoved(text, done + [m]) == ReplaceAll(EveryRemoved(text, done), Whole(text, m))
  {
    var ms := done + [m];
    assert ms[..|ms| - 1] == done;
    assert AllInText(text, ms);
  }

  /** Where the scan resumes after the `i`-th match (or `from` before the first). */
  function ResumeAt(ms: seq<Match>, i: nat, from: nat): nat
    requires i <= |ms|
  {
    if i == 0 then from else ms[i - 1].close + |Fence|
  }

  /** Each match is what `exec` returns from the index where the previous
      match ended. */
  lemma {:induction false} MatchIsNextExec(text: string, from: nat, i: nat)
    requires i < |Matches(text, from)|
    ensures var ms := Matches(text, from);
      NextMatch(text, ResumeAt(ms, i, from)) == Some(ms[i])
    decreases |text| - from
  {
    var ms := Matches(text, from);
    match NextMatch(text, from)
    case Some(m) =>
      var next := m.close + |Fence|;
      var rest := Matches(text, next);
      if i == 0 {
        assert ms[0] == m by {
          assert ms == [m] + rest;
        }
      } else {
        assert ms[i] == rest[i - 1] && ResumeAt(ms, i, from) == ResumeAt(rest, i - 1, next) by {
          assert ms == [m] + rest;
          if i > 1 {
            assert ms[i - 1] == rest[i - 2];
          }
        }
        MatchIsNextExec(text, next, i - 1);
      }
  }

  /** No "```python" starts between the index where the scan resumes and
      the next match: the scan skips no opener. */
  lemma {:induction false} NoOpenerSkipped(text: string, from: nat, i: nat)
    requires i < |Matches(text, from)|
    ensures var ms := Matches(text, from);
      forall k :: ResumeAt(ms, i, from) <= k < ms[i].start ==> !OccursAt(text, Opener, k)
  {
    MatchIsNextExec(text, from, i);
    NextMatchIsLeftmost(text, ResumeAt(Matches(text, from), i, from));
  }

  /** After the last match no "```python" has a "```" after it: the scan
      misses no fence. */
  lemma {:induction false} NothingAfterLastMatch(text: string, from: nat)
    ensures var ms := Matches(text, from);
      forall o, c :: ResumeAt(ms, |ms|, from) <= o && o + |Opener| <= c && OccursAt(text, Opener, o)
                     ==> !OccursAt(text, Fence, c)
    decreases |text| - from
  {
    var ms := Matches(text, from);
    match NextMatch(text, from)
    case None =>
      NextMatchIsLeftmost(text, from);
    case Some(m) =>
      var next := m.close + |Fence|;
      var rest := Matches(text, next);
      NothingAfterLastMatch(text, next);
      assert ms == [m] + rest;
      assert ResumeAt(ms, |ms|, from) == ResumeAt(rest, |rest|, next);
  }

  /** Deleting "```" left to right leaves no "```": a kept backtick is never
      followed by two more. */
  lemma {:induction false} ReplaceAllLeavesNoFence(s: string)
    ensures !Contains(ReplaceAll(s, Fence), Fence)
    decreases |s|
  {
    var r := ReplaceAll(s, Fence);
    if |s| < |Fence| {
    } else if s[..|Fence|] == Fence {
      ReplaceAllLeavesNoFence(s[|Fence|..]);
    } else {
      var t := s[1..];
      var r' := ReplaceAll(t, Fence);
      ReplaceAllLeavesNoFence(t);
      ReplaceAllKeepsLeadingTicks(t);
      assert r == [s[0]] + r';
      forall p | 0 <= p <= |r| && OccursAt(r, Fence, p) ensures false {
        if p >= 1 {
          assert r[p..p + 3] == r'[p - 1..p + 2];
          assert OccursAt(r', Fence, p - 1);
        } else {
          assert false;
        }
      }
    }
  }

  /** Two backticks at the head of the result were at the head of the input. */
  lemma {:induction false} ReplaceAllKeepsLeadingTicks(t: string)
    ensures var r := ReplaceAll(t, Fence);
      |r| >= 2 && r[0] == '`' && r[1] == '`' ==> |t| >= 2 && t[0] == '`' && t[1] == '`'
  {
    if |t| >= |Fence| && t[..|Fence|] != Fence {
      ReplaceAllKeepsLeadingTick(t[1..]);
    } else if |t| >= |Fence| {
      assert t[0] == Fence[0] && t[1] == Fence[1];
    }
  }

  /** A backtick at the head of the result was at the head of the input. */
  lemma {:induction false} ReplaceAllKeepsLeadingTick(u: string)
    ensures var r := ReplaceAll(u, Fence);
      |r| >= 1 && r[0] == '`' ==> |u| >= 1 && u[0] == '`'
  {
    if |u| >= |Fence| && u[..|Fence|] == Fence {
      assert u[0] == Fence[0];
    }
  }

  /** The cleanup step always returns trimmed text containing no "```". */
  lemma {:induction false} CleanupLeavesNoFence(prose: string)
    ensures !Contains(Cleanup(prose), Fence)
    ensures IsTrimmed(Cleanup(prose))
  {
    ReplaceAllLeavesNoFence(prose);
    TrimKeepsAbsence(ReplaceAll(prose, Fence), Fence);
  }

  /** Both copies return content with no "```" and no surrounding
      whitespace, whatever the model generated. */
  lemma {:induction false} ContentHasNoFence(text: string)
    ensures !Contains(TsContent(text), Fence) && IsTrimmed(TsContent(text))
    ensures !Contains(PyContent(text), Fence) && IsTrimmed(PyContent(text))
  {
    CleanupLeavesNoFence(FirstRemoved(text, Matches(text, 0)));
    CleanupLeavesNoFence(EveryRemoved(text, Matches(text, 0)));
  }

  /** The capture stops at the first closer, so it holds no "```". */
  lemma {:induction false} InnerHasNoFence(text: string, m: Match)
    requires IsFence(text, m)
    ensures !Contains(Inner(text, m), Fence)
  {
    var lo := m.start + |Opener|;
    var r := Inner(text, m);
    forall k | 0 <= k <= |r| && OccursAt(r, Fence, k) ensures false {
      OccursInSlice(text, Fence, lo, m.close, k);
    }
  }

  /** Every code block is trimmed and contains no "```". */
  lemma {:induction false} CodeBlocksHaveNoFence(text: string)
    ensures forall i :: 0 <= i < |CodeBlocks(text)| ==>
      !Contains(CodeBlocks(text)[i], Fence) && IsTrimmed(CodeBlocks(text)[i])
  {
    var ms := Matches(text, 0);
    MatchesAreOrderedFences(text, 0);
    forall i | 0 <= i < |ms|
      ensures !Contains(CodeBlocks(text)[i], Fence) && IsTrimmed(CodeBlocks(text)[i])
    {
      InnerHasNoFence(text, ms[i]);
      TrimKeepsAbsence(Inner(text, ms[i]), Fence);
    }
  }

  /** Without a "```python" that has a "```" after it there is no match:
      no code blocks, and the content is the whole text with every "```"
      deleted, trimmed. */
  lemma {:induction false} NoFenceNoBlocks(text: string)
    requires forall o, c :: OccursAt(text, Opener, o) && o + |Opener| <= c ==> !OccursAt(text, Fence, c)
    ensures CodeBlocks(text) == []
    ensures TsContent(text) == Cleanup(text) && PyContent(text) == Cleanup(text)
  {
    NextMatchIsFence(text, 0);
    assert NextMatch(text, 0).None?;
  }

  /** The text of a fence with no "```python" before it does not occur
      before it: an earlier occurrence would be an earlier "```python". */
  lemma {:induction false} FirstMatchTextFirst(text: string, m: Match)
    requires IsFence(text, m)
    requires forall k :: 0 <= k < m.start ==> !OccursAt(text, Opener, k)
    ensures OccursAt(text, Whole(text, m), m.start)
    ensures forall k :: 0 <= k < m.start ==> !OccursAt(text, Whole(text, m), k)
  {
    var w := Whole(text, m);
    assert StartsWith(w, Opener);
    forall k | 0 <= k < m.start ensures !OccursAt(text, w, k) {
      PrefixOccurs(text, w, Opener, k);
    }
  }

  /** The first match has no "```python" before it. */
  lemma {:induction false} FirstMatchIsFirst(text: string, m: Match)
    requires NextMatch(text, 0) == Some(m)
    ensures IsFence(text, m)
    ensures forall k :: 0 <= k < m.start ==> !OccursAt(text, Opener, k)
  {
    NextMatchIsLeftmost(text, 0);
    NextMatchIsFence(text, 0);
  }

  /** The TypeScript copy's first `replace` removes exactly the matched span. */
  lemma {:induction false} FirstReplaceRemovesSpan(text: string, m: Match)
    requires NextMatch(text, 0) == Some(m)
    ensures ReplaceFirst(text, Whole(text, m)) == text[..m.start] + text[m.close + |Fence|..]
  {
    FirstMatchIsFirst(text, m);
    LeadingFenceReplaceFirst(text, m);
  }

  lemma {:induction false} LeadingFenceReplaceFirst(text: string, m: Match)
    requires IsFence(text, m)
    requires forall k :: 0 <= k < m.start ==> !OccursAt(text, Opener, k)
    ensures ReplaceFirst(text, Whole(text, m)) == text[..m.start] + text[m.close + |Fence|..]
  {
    FirstMatchTextFirst(text, m);
    ReplaceFirstAt(text, Whole(text, m), m.start, m.close + |Fence|);
  }

  /** For the first match the Python copies' `replace` keeps the text before
      the span, drops the span, and goes on replacing after it. */
  lemma {:induction false} FirstReplaceAllRemovesSpan(text: string, m: Match)
    requires NextMatch(text, 0) == Some(m)
    ensures ReplaceAll(text, Whole(text, m))
        == text[..m.start] + ReplaceAll(text[m.close + |Fence|..], Whole(text, m))
  {
    FirstMatchIsFirst(text, m);
    LeadingFenceReplaceAll(text, m);
  }

  lemma {:induction false} LeadingFenceReplaceAll(text: string, m: Match)
    requires IsFence(text, m)
    requires forall k :: 0 <= k < m.start ==> !OccursAt(text, Opener, k)
    ensures ReplaceAll(text, Whole(text, m))
        == text[..m.start] + ReplaceAll(text[m.close + |Fence|..], Whole(text, m))
  {
    FirstMatchTextFirst(text, m);
    ReplaceAllAt(text, Whole(text, m), m.start, m.close + |Fence|);
  }

  /** A copy of the last match's text after it would itself be a match. */
  lemma {:induction false} NoCopyAfterLastMatch(text: string, m: Match)
    requires IsFence(text, m) && NextMatch(text, m.close + |Fence|) == None
    ensures !Contains(text[m.close + |Fence|..], Whole(text, m))
  {
    var next := m.close + |Fence|;
    var w := Whole(text, m);
    NextMatchIsLeftmost(text, next);
    assert text[next..] == text[next..|text|];
    forall k | 0 <= k <= |text| - next && OccursAt(text[next..], w, k) ensures false {
      OccursInSlice(text, w, next, |text|, k);
      CopyHasCloser(text, m, next + k);
    }
  }

  /** Where the text of a match occurs, a "```python" starts that has a
      "```" after it. */
  lemma {:induction false} CopyHasCloser(text: string, m: Match, p: nat)
    requires IsFence(text, m) && OccursAt(text, Whole(text, m), p)
    ensures OccursAt(text, Opener, p)
    ensures var c := p + m.close - m.start;
      p + |Opener| <= c && OccursAt(text, Fence, c)
  {
    var w := Whole(text, m);
    assert StartsWith(w, Opener);
    PrefixOccurs(text, w, Opener, p);
    var c := p + m.close - m.start;
    assert text[c..c + |Fence|] == w[|w| - |Fence|..];
  }

  /** With exactly one python fence, its trimmed capture is the only code
      block. */
  lemma {:induction false} SingleFenceBlocks(text: string, m: Match)
    requires NextMatch(text, 0) == Some(m) && NextMatch(text, m.close + |Fence|) == None
    ensures CodeBlocks(text) == [Trim(text[m.start + |Opener|..m.close])]
  {
    assert Matches(text, 0) == [m] by {
      assert Matches(text, m.close + |Fence|) == [];
    }
    assert BlocksOf(text, [m]) == [Trim(Inner(text, m))] by {
      var blocks := BlocksOf(text, [m]);
      assert |blocks| == 1 && blocks[0] == Trim(Inner(text, m));
    }
  }

  /** With exactly one python fence, both copies return the text around it
      with the remaining "```" deleted, trimmed: the Python copies' removal
      of every copy of the fence finds no second copy. The two contents
      agree because both trims here share one whitespace predicate. */
  lemma {:induction false} SingleFenceContent(text: string, m: Match)
    requires NextMatch(text, 0) == Some(m) && NextMatch(text, m.close + |Fence|) == None
    ensures TsContent(text) == Cleanup(text[..m.start] + text[m.close + |Fence|..])
    ensures PyContent(text) == TsContent(text)
  {
    var ms := Matches(text, 0);
    var rest := text[m.close + |Fence|..];
    assert ms == [m] by {
      assert Matches(text, m.close + |Fence|) == [];
    }
    assert FirstRemoved(text, ms) == text[..m.start] + rest by {
      assert ms[..0] == [];
      FirstReplaceRemovesSpan(text, m);
    }
    assert EveryRemoved(text, ms) == text[..m.start] + rest by {
      assert ms[..0] == [];
      FirstReplaceAllRemovesSpan(text, m);
      NextMatchIsFence(text, 0);
      NoCopyAfterLastMatch(text, m);
      ReplaceAllNoOccurrence(rest, Whole(text, m));
    }
  }

  const PythonFenceText: string := "```python\nprint(1)\n```"
  const OtherFenceText: string := "```js\nx = 1\n```"

  lemma {:induction false} PythonFenceMatch()
    ensures NextMatch(PythonFenceText, 0) == Some(Match(0, 19))
    ensures NextMatch(PythonFenceText, 22) == None
  {
    var text := PythonFenceText;
    assert FindFrom(text, Opener, 0) == Some(0);
    forall k | 9 <= k < 19 ensures !OccursAt(text, Fence, k) {
      OccursAtChar(text, Fence, k, 0);
    }
    FindFromAt(text, Fence, 9, 19);
  }

  lemma {:induction false} PrintBlock()
    ensures Trim(PythonFenceText[9..19]) == "print(1)"
  {
    var s := "\nprint(1)\n";
    assert PythonFenceText[9..19] == s;
    var t := s[1..];
    assert Trim(s) == Trim(t) by {
      assert IsSpace(s[0]);
    }
    var u := t[..|t| - 1];
    assert Trim(t) == Trim(u) by {
      assert !IsSpace(t[0]) && IsSpace(t[|t| - 1]);
    }
    assert Trim(u) == u by {
      assert !IsSpace(u[0]) && !IsSpace(u[|u| - 1]);
    }
  }

  /** A single python fence and nothing else: one code block, empty content. */
  lemma {:induction false} PythonFenceExample()
    ensures CodeBlocks(PythonFenceText) == ["print(1)"]
    ensures TsContent(PythonFenceText) == ""
    ensures PyContent(PythonFenceText) == ""
  {
    var text := PythonFenceText;
    var m := Match(0, 19);
    assert CodeBlocks(text) == ["print(1)"] by {
      PythonFenceMatch();
      SingleFenceBlocks(text, m);
      PrintBlock();
    }
    assert TsContent(text) == "" && PyContent(text) == "" by {
      PythonFenceMatch();
      SingleFenceContent(text, m);
      assert text[..0] + text[22..] == "";
    }
  }

  lemma {:induction false} NoPythonInOther()
    ensures forall o :: !OccursAt(OtherFenceText, Opener, o)
  {
    forall o ensures !OccursAt(OtherFenceText, Opener, o) {
      OccursAtChar(OtherFenceText, Opener, o, 3);
    }
  }

  lemma {:induction false} OtherFenceBackticks()
    ensures ReplaceAll(OtherFenceText, Fence) == "js\nx = 1\n"
  {
    var text := OtherFenceText;
    var t := text[3..];
    forall j | 0 <= j < 9 ensures !OccursAt(t, Fence, j) {
      OccursAtChar(t, Fence, j, 0);
    }
    ReplaceAllAt(text, Fence, 0, 3);
    ReplaceAllAt(t, Fence, 9, 12);
    assert t[..9] == "js\nx = 1\n" && t[12..] == [];
  }

  lemma {:induction false} OtherFenceTrim()
    ensures Trim("js\nx = 1\n") == "js\nx = 1"
  {
    var s := "js\nx = 1\n";
    var u := s[..|s| - 1];
    assert Trim(s) == Trim(u) by {
      assert !IsSpace(s[0]) && IsSpace(s[|s| - 1]);
    }
    assert Trim(u) == u by {
      assert !IsSpace(u[0]) && !IsSpace(u[|u| - 1]);
    }
  }

  /** A fence tagged with another language is not extracted: only its
      backticks are deleted and its code stays in the content. */
  lemma {:induction false} OtherLanguageFenceExample()
    ensures CodeBlocks(OtherFenceText) == []
    ensures TsContent(OtherFenceText) == "js\nx = 1"
    ensures PyContent(OtherFenceText) == "js\nx = 1"
  {
    NoPythonInOther();
    NoFenceNoBlocks(OtherFenceText);
    OtherFenceBackticks();
    OtherFenceTrim();
  }
}
