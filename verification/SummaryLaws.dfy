/** Which ranges are summarised, what the estimate counts, and which words end up in place of the range. */
module SummaryLaws {
  import opened Text
  import opened Transcript
  import opened Truncation
  import opened Compaction
  import opened Summary

  // ----- Ranges -----

  /** A result of message `i` answers a call of the message before it. */
  ghost predicate AnswerAcross(ms: seq<Message>, i: nat) {
    0 < i < |ms| && exists a, b ::
      a in ms[i - 1].content && b in ms[i].content && a.ToolUse? && b.ToolResult? && a.id == b.toolUseId
  }

  lemma AnswerAcrossIff(ms: seq<Message>, i: nat)
    requires i < |ms|
    ensures AnswersPrevious(ms, i) <==> AnswerAcross(ms, i)
  {
    if AnswersPrevious(ms, i) {
      var id :| id in ResultIds(ms[i].content) * UseIds(ms[i - 1].content);
      var a :| a in ms[i - 1].content && a.ToolUse? && a.id == id;
      var b :| b in ms[i].content && b.ToolResult? && b.toolUseId == id;
      assert AnswerAcross(ms, i);
    }
    if AnswerAcross(ms, i) {
      var a, b :| a in ms[i - 1].content && b in ms[i].content && a.ToolUse? && b.ToolResult? && a.id == b.toolUseId;
      assert a.id in ResultIds(ms[i].content) * UseIds(ms[i - 1].content);
    }
  }

  /** The range spares the first message and separates no result from its call at either end. */
  ghost predicate Replaceable(ms: seq<Message>, start: nat, end: nat) {
    0 < start < end <= |ms| && !AnswerAcross(ms, start) && !AnswerAcross(ms, end)
  }

  lemma ReplaceableIff(ms: seq<Message>, start: nat, end: nat)
    ensures MayReplace(ms, start, end) <==> Replaceable(ms, start, end)
  {
    hide AnswersPrevious, AnswerAcross;
    if start < |ms| {
      AnswerAcrossIff(ms, start);
    }
    if end < |ms| {
      AnswerAcrossIff(ms, end);
    } else {
      NoAnswerBeyond(ms, end);
    }
  }

  lemma NoAnswerBeyond(ms: seq<Message>, i: nat)
    requires i >= |ms|
    ensures !AnswerAcross(ms, i)
  {
  }

  /** A summary is accepted exactly when it has a character to show and its range is replaceable. */
  lemma AcceptedExactly(ms: seq<Message>, text: string, start: nat, end: nat)
    ensures Accepts(ms, text, start, end) <==>
      (exists i :: 0 <= i < |text| && !IsWhitespace(text[i])) && Replaceable(ms, start, end)
  {
    hide IsWhitespace, MayReplace, Replaceable;
    ReplaceableIff(ms, start, end);
  }

  /** A candidate spares the last two messages too and has at least four messages. */
  ghost predicate Candidate(ms: seq<Message>, start: nat, end: nat) {
    Replaceable(ms, start, end) && end + 2 <= |ms| && start + 4 <= end
  }

  /** The range selected is a candidate that holds all candidates, and none is selected exactly when there is none. */
  lemma SelectedExactly(ms: seq<Message>)
    ensures match SelectRange(ms)
      case Some((s, e)) =>
        Candidate(ms, s, e) && forall start: nat, end: nat :: Candidate(ms, start, end) ==> s <= start && end <= e
      case None => forall start: nat, end: nat :: !Candidate(ms, start, end)
  {
    hide SelectRange, MayReplace, Replaceable;
    if SelectRange(ms).Some? {
      SelectedRangeIsReplaceable(ms);
      var (s, e) := SelectRange(ms).value;
      ReplaceableIff(ms, s, e);
    }
    forall start: nat, end: nat | Candidate(ms, start, end)
      ensures SelectRange(ms).Some? && SelectRange(ms).value.0 <= start && end <= SelectRange(ms).value.1
    {
      ReplaceableIff(ms, start, end);
      SelectedRangeIsWidest(ms, start, end);
    }
  }

  // ----- The estimate -----

  /** What a block counts: its text, thinking, written input, written result or image data, in bytes. */
  ghost function Weight(render: Json -> string, b: Block): nat {
    match b
    case TextBlock(text) => ByteLen(text)
    case Thinking(thinking, _) => ByteLen(thinking)
    case Image(_, _, data) => ByteLen(data)
    case ToolUse(_, _, input) => ByteLen(render(input))
    case ToolResult(_, PlainText(text), _) => ByteLen(text)
    case ToolResult(_, JsonValue(value), _) => ByteLen(render(value))
  }

  ghost function TotalWeight(render: Json -> string, said: seq<Said>): nat {
    if said == [] then 0 else TotalWeight(render, said[..|said| - 1]) + Weight(render, said[|said| - 1].block)
  }

  lemma {:induction false} TotalWeightConcat(render: Json -> string, a: seq<Said>, b: seq<Said>)
    ensures TotalWeight(render, a + b) == TotalWeight(render, a) + TotalWeight(render, b)
  {
    hide Weight;
    if b == [] {
      assert a + b == a;
    } else {
      var n := |b| - 1;
      assert (a + b)[..|a + b| - 1] == a + b[..n];
      TotalWeightConcat(render, a, b[..n]);
    }
  }

  lemma {:induction false} ContentWeight(render: Json -> string, role: Role, blocks: seq<Block>)
    ensures ContentChars(render, blocks) == TotalWeight(render, SaidBy(role, blocks))
  {
    if blocks != [] {
      var n := |blocks| - 1;
      ContentWeight(render, role, blocks[..n]);
      assert SaidBy(role, blocks)[..n] == SaidBy(role, blocks[..n]);
      assert BlockChars(render, blocks[n]) == Weight(render, blocks[n]);
    }
  }

  /** The estimate of a history is the sum over everything said in it. */
  lemma {:induction false} EstimateIsTotal(render: Json -> string, ms: seq<Message>)
    ensures EstimateChars(render, ms) == TotalWeight(render, Spoken(ms))
  {
    if ms != [] {
      var n := |ms| - 1;
      EstimateIsTotal(render, ms[..n]);
      ContentWeight(render, ms[n].role, ms[n].content);
      TotalWeightConcat(render, Spoken(ms[..n]), SaidBy(ms[n].role, ms[n].content));
      hide TotalWeight, ContentChars;
    }
  }

  // ----- The words of the summary -----

  ghost function Clamped(x: int, lo: nat, hi: nat): nat
    requires lo <= hi
  {
    if x < lo then lo else if x > hi then hi else x
  }

  /** The text itself if it fits, and otherwise a third of the limit from each end around the note. */
  ghost function Fitted(text: string, max: nat): string {
    if ByteLen(text) <= max then text else Cut(text, max / 3, max / 3)
  }

  lemma FittedIs(text: string, max: nat)
    ensures TruncateContent(text, max, None, None) == Fitted(text, max)
  {
    if ByteLen(text) > max {
      TruncationIs(text, max, None, None);
      DefaultBudget(max);
      hide TruncateContent, Budget, Cut, ByteLen;
    } else {
      FittingIsKept(text, max);
      hide TruncateContent, ByteLen;
    }
  }

  /** `w` is `s` without the whitespace at its ends. */
  ghost predicate Stripped(s: string, w: string) {
    && (exists a, b :: s == a + w + b && IsBlank(a) && IsBlank(b))
    && (w != "" ==> !IsWhitespace(w[0]) && !IsWhitespace(w[|w| - 1]))
  }

  lemma {:induction false} TrimStartDrops(s: string)
    ensures IsBlank(s[..|s| - |TrimStart(s)|])
  {
    if s != "" && IsWhitespace(s[0]) {
      TrimStartDrops(s[1..]);
      var t := TrimStart(s[1..]);
      var dropped := s[..|s| - |t|];
      assert forall i :: 0 < i < |dropped| ==> dropped[i] == s[1..][..|s| - 1 - |t|][i - 1];
    }
  }

  lemma {:induction false} TrimEndDrops(s: string)
    ensures IsBlank(s[|TrimEnd(s)|..])
  {
    if s != "" && IsWhitespace(s[|s| - 1]) {
      var n := |s| - 1;
      TrimEndDrops(s[..n]);
      var t := TrimEnd(s[..n]);
      assert s[|t|..] == s[..n][|t|..] + [s[n]];
    }
  }

  lemma ThreeParts(s: string, t: string, w: string)
    requires |t| <= |s| && t == s[|s| - |t|..] && |w| <= |t| && w == t[..|w|]
    ensures s == s[..|s| - |t|] + w + t[|w|..]
  {
    assert s == s[..|s| - |t|] + t && t == w + t[|w|..];
  }

  lemma TrimmedInk(s: string)
    ensures
      var w := Trim(s);
      w != "" ==> !IsWhitespace(w[0]) && !IsWhitespace(w[|w| - 1])
  {
    hide TrimStart, TrimEnd, IsWhitespace;
    var t := TrimStart(s);
    var w := TrimEnd(t);
    if w != "" {
      assert w[0] == t[0];
    }
  }

  lemma TrimStrips(s: string)
    ensures Stripped(s, Trim(s))
  {
    hide TrimStart, TrimEnd, IsWhitespace;
    var t := TrimStart(s);
    var w := TrimEnd(t);
    TrimStartDrops(s);
    TrimEndDrops(t);
    hide IsBlank;
    ThreeParts(s, t, w);
    TrimmedInk(s);
  }

  /** The prefix and the stripped words of the fitted summary. */
  ghost predicate Prefixed(removed: nat, text: string, first: string) {
    exists words :: Stripped(Fitted(text, Clamped(removed - 1, 256, 12_000)), words) && first == WithPrefix(words)
  }

  ghost function WithPrefix(words: string): string {
    "[summary of compacted prior conversation]\n\n" + words
  }

  /** The spliced text: the prefixed words if they are shorter than what was removed, or else a cut of them. */
  ghost predicate Worded(removed: nat, text: string, final: string) {
    exists first :: Prefixed(removed, text, first)
      && final == if ByteLen(first) < removed then first else Fitted(first, Clamped(removed / 4, 128, 4_000))
  }

  /**
   * An accepted summary replaces the range by one assistant message with the summary's words behind the prefix: whole
   * if they fit in what was removed, and cut where they do not.
   */
  lemma SummaryIs(render: Json -> string, ms: seq<Message>, text: string, start: nat, end: nat)
    requires Accepts(ms, text, start, end)
    ensures
      var out, removed := ApplySummary(render, ms, text, start, end), EstimateChars(render, ms[start..end]);
      exists final :: Worded(removed, text, final)
        && out == ms[..start] + [Message(Assistant, [TextBlock(final)])] + ms[end..]
  {
    hide EstimateChars, ByteLen, TruncateContent, Fitted, SummaryText, Prefixed, IsBlank;
    var removed := EstimateChars(render, ms[start..end]);
    FinalIsWorded(render, ms, text, start, end);
    hide Worded, FinalText;
    assert ApplySummary(render, ms, text, start, end) ==
      ms[..start] + [Message(Assistant, [TextBlock(FinalText(render, ms, text, start, end))])] + ms[end..];
  }

  lemma FinalIsWorded(render: Json -> string, ms: seq<Message>, text: string, start: nat, end: nat)
    requires start <= end <= |ms|
    ensures Worded(EstimateChars(render, ms[start..end]), text, FinalText(render, ms, text, start, end))
  {
    hide EstimateChars, ByteLen, TruncateContent, Fitted, SummaryText, Prefixed, Spliced;
    var removed := EstimateChars(render, ms[start..end]);
    var first := SummaryText(removed, text);
    SpliceEstimate(render, ms, start, end, first);
    WordsOf(removed, text);
    FittedIs(first, Clamped(removed / 4, 128, 4_000));
    assert Prefixed(removed, text, first);
  }

  lemma WordsOf(removed: nat, text: string)
    ensures Prefixed(removed, text, SummaryText(removed, text))
  {
    var clamped := ClampedText(removed, text);
    PrefixIs(Trim(clamped));
    hide Stripped, ByteLen, TruncateContent, Fitted, Trim, WithPrefix;
    FittedIs(text, Clamped(removed - 1, 256, 12_000));
    TrimStrips(clamped);
    assert SummaryText(removed, text) == WithPrefix(Trim(clamped));
  }

  lemma PrefixIs(words: string)
    ensures SUMMARY_PREFIX + words == WithPrefix(words)
  {
  }
}
