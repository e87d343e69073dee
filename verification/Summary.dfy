/** Replacing the middle of a history by a summary: choosing the range, splicing, and its size. */
module Summary {
  import opened Sequences
  import opened Text
  import opened Transcript
  import opened Truncation
  import opened Compaction
  import opened Sanitize

  // ----- Where a history may be cut -----

  /** Some result at `i` answers a call of the message before it. */
  predicate AnswersPrevious(ms: seq<Message>, i: nat)
    requires i < |ms|
  {
    i > 0 && ResultIds(ms[i].content) * UseIds(ms[i - 1].content) != {}
  }

  /** Cutting just before `end` would separate a call from its result. */
  predicate SplitsPair(ms: seq<Message>, end: nat) {
    end < |ms| && AnswersPrevious(ms, end)
  }

  predicate MayReplace(ms: seq<Message>, start: nat, end: nat) {
    1 <= start < end <= |ms| && !AnswersPrevious(ms, start) && !SplitsPair(ms, end)
  }

  /** The first position from `i` on where the range may start, or `hi`. */
  function FirstCut(ms: seq<Message>, i: nat, hi: nat): (r: nat)
    requires i <= hi <= |ms|
    ensures i <= r <= hi
    ensures r < hi ==> !AnswersPrevious(ms, r)
    ensures forall k :: i <= k < r ==> AnswersPrevious(ms, k)
    decreases hi - i
  {
    if i < hi && AnswersPrevious(ms, i) then FirstCut(ms, i + 1, hi) else i
  }

  /** The last position up to `i` where the range may end, or `lo`. */
  function LastCut(ms: seq<Message>, lo: nat, i: nat): (r: nat)
    requires lo <= i <= |ms|
    ensures lo <= r <= i
    ensures lo < r ==> !SplitsPair(ms, r)
    ensures forall k :: r < k <= i ==> SplitsPair(ms, k)
    decreases i
  {
    if lo < i && SplitsPair(ms, i) then LastCut(ms, lo, i - 1) else i
  }

  function SelectRange(ms: seq<Message>): Option<(nat, nat)> {
    if |ms| <= MICRO.preserveRecent + 2 then None
    else
      var start := FirstCut(ms, 1, |ms| - MICRO.preserveRecent);
      var end := LastCut(ms, start, |ms| - MICRO.preserveRecent);
      if end - start >= 4 then Some((start, end)) else None
  }

  method SelectSummaryRange(ms: seq<Message>) returns (range: Option<(nat, nat)>)
    ensures range == SelectRange(ms)
  {
    if |ms| <= MICRO.preserveRecent + 2 {
      return None;
    }
    var start := 1;
    var end := |ms| - MICRO.preserveRecent;
    while start < end && AnswersPrevious(ms, start)
      invariant 1 <= start <= end
      invariant FirstCut(ms, start, end) == FirstCut(ms, 1, end)
    {
      start := start + 1;
    }
    ghost var hi := end;
    while start < end && SplitsPair(ms, end)
      invariant start <= end <= hi
      invariant LastCut(ms, start, end) == LastCut(ms, start, hi)
    {
      end := end - 1;
    }
    return if end - start >= 4 then Some((start, end)) else None;
  }

  /** The choice is the widest replaceable range that spares the first and the last two messages. */
  lemma SelectedRangeIsWidest(ms: seq<Message>, start: nat, end: nat)
    requires |ms| > 4 && MayReplace(ms, start, end) && end <= |ms| - 2
    ensures SelectRange(ms).None? ==> end - start < 4
    ensures SelectRange(ms).Some? ==>
      var (s, e) := SelectRange(ms).value;
      s <= start && end <= e && e - s >= 4
  {
    var s := FirstCut(ms, 1, |ms| - 2);
    assert s <= start;
    var e := LastCut(ms, s, |ms| - 2);
    assert end <= e;
  }

  lemma SelectedRangeIsReplaceable(ms: seq<Message>)
    requires SelectRange(ms).Some?
    ensures
      var (s, e) := SelectRange(ms).value;
      MayReplace(ms, s, e) && e <= |ms| - 2 && e - s >= 4
  {
  }

  // ----- Size estimate -----

  function BlockChars(render: Json -> string, b: Block): nat {
    match b
    case TextBlock(text) => ByteLen(text)
    case Thinking(thinking, _) => ByteLen(thinking)
    case ToolUse(_, _, input) => ByteLen(render(input))
    case ToolResult(_, content, _) => ByteLen(Rendered(render, content))
    case Image(_, _, data) => ByteLen(data)
  }

  function ContentChars(render: Json -> string, blocks: seq<Block>): nat {
    if blocks == [] then 0
    else ContentChars(render, blocks[..|blocks| - 1]) + BlockChars(render, blocks[|blocks| - 1])
  }

  function EstimateChars(render: Json -> string, ms: seq<Message>): nat {
    if ms == [] then 0
    else EstimateChars(render, ms[..|ms| - 1]) + ContentChars(render, ms[|ms| - 1].content)
  }

  lemma {:induction false} EstimateConcat(render: Json -> string, a: seq<Message>, b: seq<Message>)
    ensures EstimateChars(render, a + b) == EstimateChars(render, a) + EstimateChars(render, b)
  {
    if b == [] {
      assert a + b == a;
    } else {
      assert (a + b)[..|a + b| - 1] == a + b[..|b| - 1];
      EstimateConcat(render, a, b[..|b| - 1]);
    }
  }

  // ----- Splicing the summary in -----

  const SUMMARY_PREFIX := "[summary of compacted prior conversation]\n\n"

  function Clamp(x: nat, lo: nat, hi: nat): (r: nat)
    requires lo <= hi
    ensures lo <= r <= hi
  {
    if x < lo then lo else if x > hi then hi else x
  }

  function ClampedText(removed: nat, text: string): string {
    TruncateContent(text, Clamp(SaturatingSub(removed, 1), 256, 12_000), None, None)
  }

  function SummaryText(removed: nat, text: string): string {
    SUMMARY_PREFIX + Trim(ClampedText(removed, text))
  }

  function FallbackText(removed: nat, text: string): string {
    TruncateContent(SummaryText(removed, text), Clamp(removed / 4, 128, 4_000), None, None)
  }

  function Spliced(ms: seq<Message>, start: nat, end: nat, text: string): seq<Message>
    requires start <= end <= |ms|
  {
    ms[..start] + [Message(Assistant, [TextBlock(text)])] + ms[end..]
  }

  lemma SplicedAgain(ms: seq<Message>, start: nat, end: nat, first: string, second: string)
    requires start <= end <= |ms|
    ensures Spliced(ms, start, end, first)[start := Message(Assistant, [TextBlock(second)])]
         == Spliced(ms, start, end, second)
  {
  }

  predicate Accepts(ms: seq<Message>, text: string, start: nat, end: nat) {
    !IsBlank(text) && MayReplace(ms, start, end)
  }

  /** The text that ends up in place of the range. */
  function FinalText(render: Json -> string, ms: seq<Message>, text: string, start: nat, end: nat): string
    requires start <= end <= |ms|
  {
    var removed := EstimateChars(render, ms[start..end]);
    var first := SummaryText(removed, text);
    if EstimateChars(render, Spliced(ms, start, end, first)) >= EstimateChars(render, ms)
    then FallbackText(removed, text)
    else first
  }

  function ApplySummary(render: Json -> string, ms: seq<Message>, text: string, start: nat, end: nat): seq<Message> {
    if Accepts(ms, text, start, end)
    then Spliced(ms, start, end, FinalText(render, ms, text, start, end))
    else ms
  }

  datatype Report = Report(beforeChars: nat, afterChars: nat, applied: bool)

  method ApplyMessageSummary(log: MessageLog, render: Json -> string, text: string, start: nat, end: nat)
    returns (report: Report)
    modifies log
    ensures log.messages == ApplySummary(render, old(log.messages), text, start, end)
    ensures report.beforeChars == EstimateChars(render, old(log.messages))
    ensures report.afterChars == EstimateChars(render, log.messages)
    ensures report.applied <==> Accepts(old(log.messages), text, start, end)
  {
    var before := EstimateChars(render, log.messages);
    if IsBlank(text) || start == 0 || start >= end || end > |log.messages|
       || AnswersPrevious(log.messages, start) || SplitsPair(log.messages, end)
    {
      return Report(before, before, false);
    }
    var removed := EstimateChars(render, log.messages[start..end]);
    ghost var was := log.messages;
    var first := SummaryText(removed, text);
    log.messages := Spliced(log.messages, start, end, first);
    var after := EstimateChars(render, log.messages);
    if after >= before && |log.messages| > start {
      var fallback := TruncateContent(first, Clamp(removed / 4, 128, 4_000), None, None);
      SplicedAgain(was, start, end, first, fallback);
      log.messages := log.messages[start := Message(Assistant, [TextBlock(fallback)])];
      after := EstimateChars(render, log.messages);
    }
    return Report(before, after, true);
  }

  /** Whatever the range chosen, a non-blank summary of it is accepted. */
  lemma SelectedRangeIsAccepted(ms: seq<Message>, text: string)
    requires SelectRange(ms).Some? && !IsBlank(text)
    ensures Accepts(ms, text, SelectRange(ms).value.0, SelectRange(ms).value.1)
  {
    SelectedRangeIsReplaceable(ms);
  }

  /** The first message and everything outside the range stay verbatim. */
  lemma SummaryKeepsOutside(render: Json -> string, ms: seq<Message>, text: string, start: nat, end: nat)
    requires Accepts(ms, text, start, end)
    ensures
      var out := ApplySummary(render, ms, text, start, end);
      && |out| == |ms| - (end - start) + 1
      && out[..start] == ms[..start] && out[0] == ms[0]
      && out[start].role == Assistant && |out[start].content| == 1 && out[start].content[0].TextBlock?
      && out[start + 1..] == ms[end..]
  {
    SplicedOutside(ms, start, end, FinalText(render, ms, text, start, end));
  }

  lemma SplicedOutside(ms: seq<Message>, start: nat, end: nat, text: string)
    requires 1 <= start <= end <= |ms|
    ensures
      var out := Spliced(ms, start, end, text);
      && |out| == |ms| - (end - start) + 1
      && out[..start] == ms[..start] && out[0] == ms[0]
      && out[start] == Message(Assistant, [TextBlock(text)])
      && out[start + 1..] == ms[end..]
  {
  }

  // ----- The splice shrinks the estimate -----

  lemma SpliceEstimate(render: Json -> string, ms: seq<Message>, start: nat, end: nat, text: string)
    requires start <= end <= |ms|
    ensures EstimateChars(render, Spliced(ms, start, end, text)) + EstimateChars(render, ms[start..end])
         == EstimateChars(render, ms) + ByteLen(text)
  {
    var m := Message(Assistant, [TextBlock(text)]);
    SliceEstimate(render, ms, end);
    SliceEstimate(render, ms[..end], start);
    assert ms[..end][..start] == ms[..start] && ms[..end][start..] == ms[start..end];
    EstimateConcat(render, ms[..start], [m]);
    EstimateConcat(render, ms[..start] + [m], ms[end..]);
    TextEstimate(render, text);
  }

  lemma SliceEstimate(render: Json -> string, ms: seq<Message>, k: nat)
    requires k <= |ms|
    ensures EstimateChars(render, ms) == EstimateChars(render, ms[..k]) + EstimateChars(render, ms[k..])
  {
    assert ms == ms[..k] + ms[k..];
    EstimateConcat(render, ms[..k], ms[k..]);
  }

  lemma TextEstimate(render: Json -> string, text: string)
    ensures EstimateChars(render, [Message(Assistant, [TextBlock(text)])]) == ByteLen(text)
  {
    var m := Message(Assistant, [TextBlock(text)]);
    assert [m][..0] == [] && m.content[..0] == [];
    assert ContentChars(render, m.content) == ContentChars(render, []) + ByteLen(text);
    assert EstimateChars(render, [m]) == EstimateChars(render, []) + ContentChars(render, m.content);
  }

  lemma SliceBytes(s: string, k: nat)
    requires k <= |s|
    ensures ByteLen(s) == ByteLen(s[..k]) + ByteLen(s[k..])
  {
    assert s == s[..k] + s[k..];
    ByteLenConcat(s[..k], s[k..]);
  }

  lemma TrimmedIsShorter(s: string)
    ensures ByteLen(Trim(s)) <= ByteLen(s)
  {
    var t := TrimStart(s);
    var u := TrimEnd(t);
    SliceBytes(s, |s| - |t|);
    SliceBytes(t, |u|);
  }

  /** Bytes of a truncated text with the default budget: at most four per kept character. */
  lemma TruncatedBytes(text: string, max: nat)
    requires ByteLen(text) > max && ByteLen(text) < USIZE
    ensures ByteLen(TruncateContent(text, max, None, None))
         <= 8 * (max / 3) + 46 + |Decimal(ByteLen(text) - 2 * (max / 3))|
    ensures ByteLen(TruncateContent(text, max, None, None)) >= 47
  {
    hide ByteLen, Decimal, Mark, TruncateContent, OneByte;
    var third := max / 3;
    OverLimitDefault(text, max);
    ThreePartBytes(First(text, third), Mark(ByteLen(text) - 2 * third), Last(text, third));
  }

  lemma ThreePartBytes(a: string, b: string, c: string)
    requires OneByte(b)
    ensures |b| <= ByteLen(a + b + c) <= 4 * |a| + |b| + 4 * |c|
  {
    ByteLenConcat(a + b, c);
    ByteLenConcat(a, b);
    ByteLenBounds(a);
    ByteLenBounds(b);
    ByteLenBounds(c);
  }

  lemma PrefixIsPlain()
    ensures |SUMMARY_PREFIX| == 43 && OneByte(SUMMARY_PREFIX)
  {
  }

  lemma PrefixBytes(s: string)
    ensures ByteLen(SUMMARY_PREFIX + s) == 43 + ByteLen(s)
  {
    PrefixIsPlain();
    hide OneByte, ByteLen;
    ByteLenConcat(SUMMARY_PREFIX, s);
    ByteLenBounds(SUMMARY_PREFIX);
  }

  /** The clamped text, in bytes. */
  lemma ClampedBytes(removed: nat, text: string)
    requires ByteLen(text) < USIZE
    ensures
      var cap := Clamp(SaturatingSub(removed, 1), 256, 12_000);
      ByteLen(ClampedText(removed, text)) <= 8 * (cap / 3) + 66
  {
    hide ByteLen, TruncateContent, Decimal;
    var cap := Clamp(SaturatingSub(removed, 1), 256, 12_000);
    if ByteLen(text) > cap {
      TruncatedBytes(text, cap);
      UsizeDigits(ByteLen(text) - 2 * (cap / 3));
    } else {
      FittingIsKept(text, cap);
    }
  }

  lemma FittingIsKept(text: string, cap: nat)
    requires ByteLen(text) <= cap
    ensures TruncateContent(text, cap, None, None) == text
  {
    hide ByteLen;
  }

  /** The clamp bounds the summary text, whatever its length and characters. */
  lemma SummaryTextBytes(removed: nat, text: string)
    requires ByteLen(text) < USIZE
    ensures
      var cap := Clamp(SaturatingSub(removed, 1), 256, 12_000);
      ByteLen(SummaryText(removed, text)) <= 8 * (cap / 3) + 109
    ensures ByteLen(SummaryText(removed, text)) <= 32_109
  {
    hide ByteLen, ClampedText, Trim;
    var clamped := ClampedText(removed, text);
    ClampedBytes(removed, text);
    TrimmedIsShorter(clamped);
    PrefixBytes(Trim(clamped));
  }

  lemma CutBehindPrefix(prefix: string, ink: string)
    requires |prefix| == 43 && OneByte(prefix) && 128 < ByteLen(prefix + ink)
    ensures
      var first := prefix + ink;
      && ByteLen(TruncateContent(first, 128, None, None))
           == 88 + |Decimal(ByteLen(first) - 84)| + ByteLen(Last(first, 42))
      && ByteLen(Last(first, 42)) <= 168
  {
    hide *;
    var first := prefix + ink;
    HeadOfPrefix(prefix, ink);
    OverLimitDefault(first, 128);
    var head, mark, tail := First(first, 42), Mark(ByteLen(first) - 84), Last(first, 42);
    assert |head| == 42;
    PartBytes(head, mark, tail);
  }

  lemma HeadOfPrefix(prefix: string, ink: string)
    requires |prefix| == 43 && OneByte(prefix)
    ensures First(prefix + ink, 42) == prefix[..42] && OneByte(prefix[..42]) && |Last(prefix + ink, 42)| == 42
  {
  }

  /** One-byte head and mark, and a tail of any characters. */
  lemma PartBytes(head: string, mark: string, tail: string)
    requires OneByte(head) && OneByte(mark)
    ensures ByteLen(head + mark + tail) == |head| + |mark| + ByteLen(tail) && ByteLen(tail) <= 4 * |tail|
  {
    hide ByteLen, OneByte;
    ByteLenConcat(head + mark, tail);
    ByteLenConcat(head, mark);
    ByteLenBounds(head);
    ByteLenBounds(mark);
    ByteLenBounds(tail);
  }

  /** The prefix fills the head of the fallback, so only the tail can be wide. */
  lemma ShortFallbackBytes(ink: string)
    requires 128 < ByteLen(SUMMARY_PREFIX + ink)
    ensures
      var first := SUMMARY_PREFIX + ink;
      && |first| >= 43
      && ByteLen(TruncateContent(first, 128, None, None))
           == 88 + |Decimal(ByteLen(first) - 84)| + ByteLen(Last(first, 42))
      && ByteLen(Last(first, 42)) <= 168
  {
    PrefixIsPlain();
    CutBehindPrefix(SUMMARY_PREFIX, ink);
  }

  lemma ShortFallbackShrinks(removed: nat, text: string)
    requires ByteLen(text) < USIZE && 260 <= removed < 388
    requires ByteLen(SummaryText(removed, text)) >= removed
    ensures ByteLen(FallbackText(removed, text)) < removed
  {
    hide ByteLen, TruncateContent, ClampedText, Trim, Decimal;
    var first := SummaryText(removed, text);
    SummaryTextBytes(removed, text);
    ShortFallbackBytes(Trim(ClampedText(removed, text)));
    if removed == 260 {
      SmallNumeral(ByteLen(first) - 84, 3);
    } else {
      SmallNumeral(ByteLen(first) - 84, 4);
    }
  }

  lemma SmallNumeral(n: nat, k: nat)
    requires (k == 3 && n < 1000) || (k == 4 && n < 10_000) || (k == 5 && n < 100_000)
    ensures |Decimal(n)| <= k
  {
    hide Decimal;
    assert Pow10(3) == 1000;
    assert Pow10(4) == 10 * Pow10(3);
    assert Pow10(5) == 10 * Pow10(4);
    DecimalLength(n, k);
  }

  lemma FallbackArithmetic(removed: nat)
    requires removed >= 388
    ensures
      var cap := Clamp(removed / 4, 128, 4_000);
      cap < removed && 8 * (cap / 3) + 46 + 5 < removed
  {
  }

  /** A text of at most 32109 bytes, cut to `cap`. */
  lemma CutBytes(first: string, cap: nat)
    requires cap < ByteLen(first) <= 32_109
    ensures ByteLen(TruncateContent(first, cap, None, None)) <= 8 * (cap / 3) + 46 + 5
  {
    hide ByteLen, TruncateContent, Decimal;
    TruncatedBytes(first, cap);
    SmallNumeral(ByteLen(first) - 2 * (cap / 3), 5);
  }

  lemma FallbackBytes(removed: nat, text: string)
    requires ByteLen(text) < USIZE && removed >= 260
    requires ByteLen(SummaryText(removed, text)) >= removed
    ensures ByteLen(FallbackText(removed, text)) < removed
  {
    hide ByteLen, TruncateContent, SummaryText;
    if removed < 388 {
      ShortFallbackShrinks(removed, text);
    } else {
      SummaryTextBytes(removed, text);
      FallbackArithmetic(removed);
      CutBytes(SummaryText(removed, text), Clamp(removed / 4, 128, 4_000));
    }
  }

  /**
   * An accepted splice that removes at least 260 bytes strictly shrinks the estimate, for every
   * summary text that fits in memory, through the clamp and the fallback.
   */
  lemma SummaryShrinks(render: Json -> string, ms: seq<Message>, text: string, start: nat, end: nat)
    requires Accepts(ms, text, start, end) && ByteLen(text) < USIZE
    requires EstimateChars(render, ms[start..end]) >= 260
    ensures EstimateChars(render, ApplySummary(render, ms, text, start, end)) < EstimateChars(render, ms)
  {
    hide EstimateChars, Spliced, SummaryText, FallbackText, ByteLen, IsBlank;
    var removed := EstimateChars(render, ms[start..end]);
    var first := SummaryText(removed, text);
    SpliceEstimate(render, ms, start, end, first);
    SpliceEstimate(render, ms, start, end, FallbackText(removed, text));
    if ByteLen(first) >= removed {
      FallbackBytes(removed, text);
    }
  }

  // ----- 260 is the least such size -----

  const WIDE: char := '\U{1F600}'

  function Repeated(c: char, n: nat): (s: string)
    ensures |s| == n && forall i :: 0 <= i < n ==> s[i] == c
  {
    seq(n, _ => c)
  }

  lemma {:induction false} WideBytes(s: string)
    requires forall i :: 0 <= i < |s| ==> s[i] == WIDE
    ensures ByteLen(s) == 4 * |s|
  {
    if s != "" {
      WideBytes(s[..|s| - 1]);
    }
  }

  /** A summary of 64 four-byte characters is not clamped, and its fallback still has 259 bytes. */
  lemma WideSummaryBytes(removed: nat)
    requires removed <= 259
    ensures
      var text := Repeated(WIDE, 64);
      && ByteLen(SummaryText(removed, text)) == 299
      && ByteLen(FallbackText(removed, text)) == 259
  {
    var text := Repeated(WIDE, 64);
    WideBytes(text);
    InkIsNotTrimmed(text);
    hide ByteLen, Trim, TruncateContent;
    FittingIsKept(text, Clamp(SaturatingSub(removed, 1), 256, 12_000));
    var first := SUMMARY_PREFIX + text;
    PrefixBytes(text);
    ShortFallbackBytes(text);
    WideTail(text);
    ThreeDigits();
  }

  lemma ThreeDigits()
    ensures |Decimal(215)| == 3
  {
    assert Decimal(21) == Decimal(2) + ['1'];
    assert Decimal(215) == Decimal(21) + ['5'];
  }

  lemma WideTail(text: string)
    requires |text| >= 42 && forall i :: 0 <= i < |text| ==> text[i] == WIDE
    ensures ByteLen(Last(SUMMARY_PREFIX + text, 42)) == 168
  {
    hide ByteLen;
    var tail := Last(SUMMARY_PREFIX + text, 42);
    assert tail == text[|text| - 42..];
    WideBytes(tail);
  }

  lemma WideIsAccepted(ms: seq<Message>, start: nat, end: nat)
    requires MayReplace(ms, start, end)
    ensures Accepts(ms, Repeated(WIDE, 64), start, end) && ByteLen(Repeated(WIDE, 64)) < USIZE
  {
    var text := Repeated(WIDE, 64);
    assert !IsWhitespace(text[0]);
    WideBytes(text);
  }

  ghost predicate ShrinksWith(render: Json -> string, ms: seq<Message>, start: nat, end: nat, text: string) {
    !IsBlank(text) && ByteLen(text) < USIZE ==>
      EstimateChars(render, ApplySummary(render, ms, text, start, end)) < EstimateChars(render, ms)
  }

  lemma WideSummaryGrows(render: Json -> string, ms: seq<Message>, start: nat, end: nat)
    requires MayReplace(ms, start, end) && EstimateChars(render, ms[start..end]) <= 259
    ensures !ShrinksWith(render, ms, start, end, Repeated(WIDE, 64))
  {
    hide EstimateChars, Spliced, SummaryText, FallbackText, ByteLen, IsBlank, Repeated;
    var text := Repeated(WIDE, 64);
    var removed := EstimateChars(render, ms[start..end]);
    WideIsAccepted(ms, start, end);
    WideSummaryBytes(removed);
    SpliceEstimate(render, ms, start, end, SummaryText(removed, text));
    SpliceEstimate(render, ms, start, end, FallbackText(removed, text));
  }

  /** A range can be replaced by every summary text to a smaller estimate exactly when it has 260 bytes or more. */
  lemma AlwaysShrinksIff(render: Json -> string, ms: seq<Message>, start: nat, end: nat)
    requires MayReplace(ms, start, end)
    ensures (forall text :: ShrinksWith(render, ms, start, end, text)) <==> EstimateChars(render, ms[start..end]) >= 260
  {
    hide EstimateChars, ApplySummary, ByteLen, IsBlank;
    if EstimateChars(render, ms[start..end]) >= 260 {
      forall text
        ensures ShrinksWith(render, ms, start, end, text)
      {
        if !IsBlank(text) && ByteLen(text) < USIZE {
          SummaryShrinks(render, ms, text, start, end);
        }
      }
    } else {
      WideSummaryGrows(render, ms, start, end);
    }
  }

  lemma TruncatedIsNotBlank(text: string, cap: nat)
    requires ByteLen(text) > cap
    ensures !IsBlank(TruncateContent(text, cap, None, None))
  {
    hide *;
    OverLimitDefault(text, cap);
    var third := cap / 3;
    MarkHasInk(ByteLen(text) - 2 * third);
    BlankParts(First(text, third), Mark(ByteLen(text) - 2 * third), Last(text, third));
  }

  lemma MarkHasInk(omitted: nat)
    ensures !IsBlank(Mark(omitted))
  {
    hide Decimal;
    assert Mark(omitted)[2] == MARK_OPEN[2] == '[';
  }

  lemma BlankParts(a: string, b: string, c: string)
    requires !IsBlank(b)
    ensures !IsBlank(a + b + c)
  {
    hide IsWhitespace;
    var i :| 0 <= i < |b| && !IsWhitespace(b[i]);
    assert (a + b + c)[|a| + i] == b[i];
  }

  lemma ClampedIsNotBlank(removed: nat, text: string)
    requires !IsBlank(text) && ByteLen(text) < USIZE
    ensures Trim(ClampedText(removed, text)) != ""
  {
    hide ByteLen, Trim, TruncateContent, IsBlank;
    var cap := Clamp(SaturatingSub(removed, 1), 256, 12_000);
    if ByteLen(text) > cap {
      TruncatedIsNotBlank(text, cap);
    } else {
      FittingIsKept(text, cap);
    }
    BlankIffTrimmedEmpty(ClampedText(removed, text));
  }

  /** Removing 43 bytes or fewer can only grow the estimate: the prefix alone is 43. */
  lemma SummaryGrowsWhenLittleIsRemoved(render: Json -> string, ms: seq<Message>, text: string, start: nat, end: nat)
    requires Accepts(ms, text, start, end) && ByteLen(text) < USIZE
    requires EstimateChars(render, ms[start..end]) <= 43
    ensures EstimateChars(render, ApplySummary(render, ms, text, start, end)) > EstimateChars(render, ms)
  {
    hide EstimateChars, Spliced, ByteLen, IsBlank, TruncateContent, Trim, ClampedText;
    var removed := EstimateChars(render, ms[start..end]);
    var first := SummaryText(removed, text);
    ClampedIsNotBlank(removed, text);
    var ink := Trim(ClampedText(removed, text));
    PrefixBytes(ink);
    ByteLenBounds(ink);
    SpliceEstimate(render, ms, start, end, first);
    SpliceEstimate(render, ms, start, end, FallbackText(removed, text));
    if ByteLen(first) > 128 {
      SummaryTextBytes(removed, text);
      TruncatedBytes(first, 128);
    } else {
      FittingIsKept(first, 128);
    }
  }
}
