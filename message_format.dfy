/** `formatText` in client/src/components/chat/message.tsx: the chat text is
    split around inline code spans (a backtick, one or more other
    characters, a backtick); a part that starts and ends with a backtick is
    shown as inline code, any other part line by line, a line whose trimmed
    text starts with '#' as a comment line and every other line as text
    followed by a line break unless it is the part's last line. The JSX
    elements become tagged segments. */
module MessageFormat {
  import opened Outcomes
  import opened Text

  /** What the `/(`[^`]+`)/` expression matches. */
  predicate IsCodeSpan(s: string) {
    && |s| >= 3 && s[0] == '`' && s[|s| - 1] == '`'
    && forall i :: 1 <= i < |s| - 1 ==> s[i] != '`'
  }

  /** No code span starts anywhere inside `s`. */
  predicate NoSpanIn(s: string) {
    forall k, e :: 0 <= k < e <= |s| ==> !IsCodeSpan(s[k..e])
  }

  /** The first backtick at or after `from`, or the end of the text. */
  function NextTick(text: string, from: nat): (j: nat)
    requires from <= |text|
    ensures from <= j <= |text|
    ensures j < |text| ==> text[j] == '`'
    ensures forall k :: from <= k < j ==> text[k] != '`'
    decreases |text| - from
  {
    if from == |text| || text[from] == '`' then from else NextTick(text, from + 1)
  }

  /** The expression tried at position `q`: the end of the code span that
      starts there, if one does. There is at most one, since a span ends at
      the first backtick after its opening one. */
  function SpanAt(text: string, q: nat): (r: Option<nat>)
    requires q < |text|
    ensures r.Some? ==> q + 3 <= r.value <= |text|
  {
    if text[q] != '`' then None
    else
      var j := NextTick(text, q + 1);
      if q + 2 <= j < |text| then Some(j + 1) else None
  }

  /** `SpanAt` finds the code span starting at `q` exactly when there is
      one. */
  lemma {:induction false} SpanAtMatches(text: string, q: nat)
    requires q < |text|
    ensures SpanAt(text, q).Some? ==> IsCodeSpan(text[q..SpanAt(text, q).value])
    ensures SpanAt(text, q).None? ==> forall e :: q < e <= |text| ==> !IsCodeSpan(text[q..e])
  {
  }

  /** `split` with a capturing expression, from the end `p` of the last
      match, trying a match at every `q`: each match contributes the text
      before it and the match itself, and the text after the last match
      closes the list. */
  function SplitFrom(text: string, p: nat, q: nat): seq<string>
    requires p <= q <= |text|
    decreases |text| - q
  {
    if q == |text| then [text[p..]]
    else
      match SpanAt(text, q)
      case None => SplitFrom(text, p, q + 1)
      case Some(e) => [text[p..q], text[q..e]] + SplitFrom(text, e, e)
  }

  /** `text.split(/(`[^`]+`)/)`: nothing is lost or reordered, since the
      parts concatenate back to the text, and they alternate between text
      holding no code span and a captured code span, each span being the
      leftmost one left to find. */
  function Parts(text: string): (r: seq<string>)
    ensures Concat(r) == text
    ensures Alternates(r)
    ensures Leftmost(r)
  {
    SplitFromConcat(text, 0, 0);
    SplitFromAlternates(text, 0, 0);
    SplitFromLeftmost(text, 0, 0);
    SplitFrom(text, 0, 0)
  }

  function Concat(parts: seq<string>): string {
    if parts == [] then "" else parts[0] + Concat(parts[1..])
  }

  lemma {:induction false} ConcatPair(a: string, b: string, rest: seq<string>)
    ensures Concat([a, b] + rest) == a + (b + Concat(rest))
  {
    var parts := [a, b] + rest;
    assert parts[1..] == [b] + rest;
    assert parts[1..][1..] == rest;
  }

  lemma {:induction false} SliceAppend(s: string, i: nat, j: nat)
    requires i <= j <= |s|
    ensures s[i..] == s[i..j] + s[j..]
  {
  }

  lemma {:induction false} SplitFromConcat(text: string, p: nat, q: nat)
    requires p <= q <= |text|
    ensures Concat(SplitFrom(text, p, q)) == text[p..]
    decreases |text| - q
  {
    if q < |text| {
      match SpanAt(text, q)
      case None =>
        SplitFromConcat(text, p, q + 1);
      case Some(e) =>
        SplitFromConcat(text, e, e);
        ConcatPair(text[p..q], text[q..e], SplitFrom(text, e, e));
        SliceAppend(text, q, e);
        SliceAppend(text, p, q);
    } else {
      assert Concat([text[p..]][1..]) == "";
    }
  }

  /** The parts alternate: text without code spans, a code span, text
      without code spans, and so on, starting and ending with text. */
  predicate Alternates(parts: seq<string>) {
    && |parts| % 2 == 1
    && (forall i :: 0 <= i < |parts| && i % 2 == 1 ==> IsCodeSpan(parts[i]))
    && (forall i :: 0 <= i < |parts| && i % 2 == 0 ==> NoSpanIn(parts[i]))
  }

  lemma {:induction false} NoSpanBetween(text: string, p: nat, q: nat)
    requires p <= q <= |text|
    requires forall k :: p <= k < q ==> SpanAt(text, k).None?
    ensures NoSpanIn(text[p..q])
  {
    forall k, e | 0 <= k < e <= q - p
      ensures !IsCodeSpan(text[p..q][k..e])
    {
      var part := text[p..q];
      assert forall j :: 0 <= j < e - k ==> part[k..e][j] == text[p + k..p + e][j];
      assert part[k..e] == text[p + k..p + e];
      assert SpanAt(text, p + k).None?;
      SpanAtMatches(text, p + k);
    }
  }

  lemma {:induction false} AlternatesCons(a: string, b: string, rest: seq<string>)
    requires NoSpanIn(a) && IsCodeSpan(b) && Alternates(rest)
    ensures Alternates([a, b] + rest)
  {
    var parts := [a, b] + rest;
    forall i | 2 <= i < |parts|
      ensures parts[i] == rest[i - 2]
    {
    }
  }

  lemma {:induction false} SplitFromAlternates(text: string, p: nat, q: nat)
    requires p <= q <= |text|
    requires forall k :: p <= k < q ==> SpanAt(text, k).None?
    ensures Alternates(SplitFrom(text, p, q))
    decreases |text| - q
  {
    if q == |text| {
      NoSpanBetween(text, p, q);
      assert text[p..] == text[p..q];
    } else {
      match SpanAt(text, q)
      case None =>
        SplitFromAlternates(text, p, q + 1);
      case Some(e) =>
        SpanAtMatches(text, q);
        NoSpanBetween(text, p, q);
        SplitFromAlternates(text, e, e);
        AlternatesCons(text[p..q], text[q..e], SplitFrom(text, e, e));
    }
  }

  /** Each span is the leftmost one: no code span starts in the text before
      it, even one ending at the span's opening backtick. */
  predicate Leftmost(parts: seq<string>) {
    forall i :: 0 <= i < |parts| - 1 && i % 2 == 0 && |parts[i + 1]| >= 1 ==>
      NoSpanIn(parts[i] + parts[i + 1][..1])
  }

  /** As `NoSpanBetween`, with the backtick that follows the text. */
  lemma {:induction false} NoSpanUpToTick(text: string, p: nat, q: nat)
    requires p <= q < |text|
    requires forall k :: p <= k < q ==> SpanAt(text, k).None?
    ensures NoSpanIn(text[p..q + 1])
  {
    var part := text[p..q + 1];
    forall k, e | 0 <= k < e <= |part|
      ensures !IsCodeSpan(part[k..e])
    {
      assert forall j :: 0 <= j < e - k ==> part[k..e][j] == text[p + k..p + e][j];
      assert part[k..e] == text[p + k..p + e];
      if p + k < q {
        SpanAtMatches(text, p + k);
      }
    }
  }

  lemma {:induction false} LeftmostCons(a: string, b: string, rest: seq<string>)
    requires |b| >= 1 && NoSpanIn(a + b[..1]) && Leftmost(rest)
    ensures Leftmost([a, b] + rest)
  {
    var parts := [a, b] + rest;
    forall i | 2 <= i < |parts|
      ensures parts[i] == rest[i - 2]
    {
    }
  }

  lemma {:induction false} SplitFromLeftmost(text: string, p: nat, q: nat)
    requires p <= q <= |text|
    requires forall k :: p <= k < q ==> SpanAt(text, k).None?
    ensures Leftmost(SplitFrom(text, p, q))
    decreases |text| - q
  {
    if q < |text| {
      match SpanAt(text, q)
      case None =>
        SplitFromLeftmost(text, p, q + 1);
      case Some(e) =>
        NoSpanUpToTick(text, p, q);
        assert text[p..q] + text[q..e][..1] == text[p..q + 1];
        SplitFromLeftmost(text, e, e);
        LeftmostCons(text[p..q], text[q..e], SplitFrom(text, e, e));
    }
  }

  /** "`a`b`" splits at its first span, leaving "b`" as text, and the last
      backtick is shown in that text. */
  lemma {:induction false} LeftmostSpanExample()
    ensures Parts("`a`b`") == ["", "`a`", "b`"]
  {
    var text := "`a`b`";
    assert SpanAt(text, 0) == Some(3);
    assert SpanAt(text, 3) == None;
    assert SpanAt(text, 4) == None;
    assert SplitFrom(text, 3, 5) == ["b`"];
    assert SplitFrom(text, 3, 3) == SplitFrom(text, 3, 4) == SplitFrom(text, 3, 5);
    assert SplitFrom(text, 0, 0) == [text[0..0], text[0..3]] + SplitFrom(text, 3, 3);
    assert text[0..3] == "`a`";
  }

  /** What `formatText` renders: an inline `code` element, a comment line
      `div`, or a text `span` with or without a trailing `br`. */
  datatype Segment =
    | InlineCode(code: string)
    | CommentLine(line: string)
    | TextLine(line: string, br: bool)

  /** `part.split('\n')`: the text between newlines, at least one line. */
  function Lines(s: string): (r: seq<string>)
    ensures |r| >= 1
    ensures forall i :: 0 <= i < |r| ==> '\n' !in r[i]
    decreases |s|
  {
    if s == [] then [""]
    else
      var rest := Lines(s[1..]);
      if s[0] == '\n' then [""] + rest else [[s[0]] + rest[0]] + rest[1..]
  }

  /** The lines put back together with newlines between them. */
  function JoinLines(lines: seq<string>): string
    requires |lines| >= 1
    decreases |lines|
  {
    if |lines| == 1 then lines[0] else lines[0] + "\n" + JoinLines(lines[1..])
  }

  lemma {:induction false} JoinLinesHead(c: char, lines: seq<string>)
    requires |lines| >= 1
    ensures JoinLines([[c] + lines[0]] + lines[1..]) == [c] + JoinLines(lines)
  {
    var joined := [[c] + lines[0]] + lines[1..];
    if |lines| > 1 {
      assert joined[1..] == lines[1..];
    }
  }

  /** Splitting into lines loses nothing: joining them gives the part back. */
  lemma {:induction false} LinesJoin(s: string)
    ensures JoinLines(Lines(s)) == s
    decreases |s|
  {
    if s != [] {
      var rest := Lines(s[1..]);
      LinesJoin(s[1..]);
      if s[0] == '\n' {
        assert ([""] + rest)[1..] == rest;
      } else {
        JoinLinesHead(s[0], rest);
      }
      assert s == [s[0]] + s[1..];
    }
  }

  /** `line.trim().startsWith('#')`. */
  predicate IsCommentLine(line: string) {
    StartsWith(Trim(line), "#")
  }

  function LineSegment(line: string, isLast: bool): Segment {
    if IsCommentLine(line) then CommentLine(line) else TextLine(line, !isLast)
  }

  /** The lines of a non-code part: comment lines, and text lines with a
      break after every one but the last. */
  function FormatLines(lines: seq<string>): (r: seq<Segment>)
    ensures |r| == |lines|
    ensures forall i :: 0 <= i < |lines| ==> (r[i].CommentLine? <==> IsCommentLine(lines[i]))
    ensures forall i :: 0 <= i < |lines| ==> !r[i].InlineCode? && r[i].line == lines[i]
    ensures forall i :: 0 <= i < |lines| && r[i].TextLine? ==> (r[i].br <==> i < |lines| - 1)
  {
    seq(|lines|, i requires 0 <= i < |lines| => LineSegment(lines[i], i == |lines| - 1))
  }

  /** `part.startsWith('`') && part.endsWith('`')`. */
  predicate IsInlineCode(part: string) {
    |part| >= 1 && part[0] == '`' && part[|part| - 1] == '`'
  }

  /** `part.slice(1, -1)`: empty when the part is a single character. */
  function Unquote(part: string): string
  {
    if |part| >= 2 then part[1..|part| - 1] else ""
  }

  function FormatPart(part: string): seq<Segment> {
    if IsInlineCode(part) then [InlineCode(Unquote(part))] else FormatLines(Lines(part))
  }

  /** Every character is a backtick. */
  predicate AllTicks(s: string) {
    forall i :: 0 <= i < |s| ==> s[i] == '`'
  }

  /** The last backtick before `m`, given that `s` starts with one. */
  function PrevTick(s: string, m: nat): (k: nat)
    requires 0 < m <= |s| && s[0] == '`'
    ensures k < m && s[k] == '`'
    ensures forall x :: k < x < m ==> s[x] != '`'
    decreases m
  {
    if s[m - 1] == '`' then m - 1 else PrevTick(s, m - 1)
  }

  /** A character other than a backtick, inside text that starts and ends
      with one, lies in a code span: from the last backtick before it to the
      first one after it. */
  lemma {:induction false} SpanAround(s: string, m: nat) returns (k: nat, e: nat)
    requires IsInlineCode(s) && m < |s| && s[m] != '`'
    ensures k < e <= |s| && IsCodeSpan(s[k..e])
  {
    k := PrevTick(s, m);
    var close := NextTick(s, m + 1);
    e := close + 1;
    var span := s[k..e];
    assert forall x :: 1 <= x < |span| - 1 ==> span[x] == s[k + x];
  }

  /** A part that holds no code span but starts and ends with a backtick is
      made of backticks only. */
  lemma {:induction false} OnlyTicks(s: string)
    requires NoSpanIn(s) && IsInlineCode(s)
    ensures AllTicks(s)
  {
    forall m | 0 <= m < |s|
      ensures s[m] == '`'
    {
      if s[m] != '`' {
        var k, e := SpanAround(s, m);
        assert false;
      }
    }
  }

  /** How each kind of part is shown. */
  lemma {:induction false} FormatPartCases(part: string)
    ensures IsCodeSpan(part) ==> FormatPart(part) == [InlineCode(part[1..|part| - 1])]
    ensures NoSpanIn(part) && (part == "" || !AllTicks(part)) ==> FormatPart(part) == FormatLines(Lines(part))
  {
    if NoSpanIn(part) && IsInlineCode(part) {
      OnlyTicks(part);
    }
  }

  lemma {:induction false} FormatAlternating(parts: seq<string>)
    requires Alternates(parts)
    ensures forall i :: 0 <= i < |parts| && i % 2 == 1 ==>
      FormatPart(parts[i]) == [InlineCode(parts[i][1..|parts[i]| - 1])]
    ensures forall i :: 0 <= i < |parts| && i % 2 == 0 && (parts[i] == "" || !AllTicks(parts[i])) ==>
      FormatPart(parts[i]) == FormatLines(Lines(parts[i]))
  {
    forall i | 0 <= i < |parts|
      ensures i % 2 == 1 ==> FormatPart(parts[i]) == [InlineCode(parts[i][1..|parts[i]| - 1])]
      ensures i % 2 == 0 && (parts[i] == "" || !AllTicks(parts[i])) ==> FormatPart(parts[i]) == FormatLines(Lines(parts[i]))
    {
      FormatPartCases(parts[i]);
    }
  }

  /** `formatText`: one list of segments per part. Every code span is shown
      as one inline code element holding the text between its backticks,
      and every other part, unless it is a non-empty run of backticks, is
      shown line by line. */
  function FormatText(text: string): (r: seq<seq<Segment>>)
    ensures |r| == |Parts(text)|
    ensures forall i :: 0 <= i < |r| && i % 2 == 1 ==>
      IsCodeSpan(Parts(text)[i]) && r[i] == [InlineCode(Parts(text)[i][1..|Parts(text)[i]| - 1])]
    ensures forall i :: 0 <= i < |r| && i % 2 == 0 && (Parts(text)[i] == "" || !AllTicks(Parts(text)[i])) ==>
      r[i] == FormatLines(Lines(Parts(text)[i]))
  {
    var parts := Parts(text);
    FormatAlternating(parts);
    seq(|parts|, i requires 0 <= i < |parts| => FormatPart(parts[i]))
  }

  /** The stray-backtick case: a text part is shown as inline code only when
      it is made of backticks only ("`" or "``" between two code spans, say),
      and then the code shown is that run without its two end backticks. */
  lemma {:induction false} StrayBackticks(text: string, i: nat)
    requires i < |Parts(text)| && i % 2 == 0
    ensures FormatText(text)[i] != FormatLines(Lines(Parts(text)[i])) ==> Parts(text)[i] != "" && AllTicks(Parts(text)[i])
    ensures IsInlineCode(Parts(text)[i]) ==>
      AllTicks(Parts(text)[i]) && |FormatText(text)[i]| == 1 && FormatText(text)[i][0].InlineCode?
      && AllTicks(FormatText(text)[i][0].code)
    ensures IsInlineCode(Parts(text)[i]) ==>
      |FormatText(text)[i][0].code| == (if |Parts(text)[i]| >= 2 then |Parts(text)[i]| - 2 else 0)
  {
    var part := Parts(text)[i];
    if IsInlineCode(part) {
      OnlyTicks(part);
      assert FormatText(text)[i] == FormatPart(part);
    }
  }

  /** An empty text part, which stands before a leading code span, after a
      trailing one and between two adjacent ones, is shown as one empty text
      line without a break. */
  lemma {:induction false} EmptyTextPart(text: string, i: nat)
    requires i < |Parts(text)| && i % 2 == 0 && Parts(text)[i] == ""
    ensures FormatText(text)[i] == [TextLine("", false)]
  {
    assert Lines("") == [""];
    assert Trim("") == "";
  }

  /** Every code span of the text is shown as inline code: its inner text,
      which is not empty and holds no backtick. */
  lemma {:induction false} CodeSpansShownAsCode(text: string, i: nat)
    requires i < |Parts(text)| && i % 2 == 1
    ensures IsCodeSpan(Parts(text)[i])
    ensures |FormatText(text)[i]| == 1 && FormatText(text)[i][0].InlineCode?
    ensures FormatText(text)[i][0].code == Parts(text)[i][1..|Parts(text)[i]| - 1]
    ensures var code := FormatText(text)[i][0].code;
      |code| >= 1 && forall k :: 0 <= k < |code| ==> code[k] != '`'
  {
  }

  /** A lone backtick is no code span, but as a part of its own it starts
      and ends with a backtick, so it is shown as empty inline code. */
  lemma {:induction false} LoneBacktick()
    ensures FormatText("`") == [[InlineCode("")]]
  {
    assert SpanAt("`", 0).None?;
    assert Parts("`") == ["`"];
  }
}
