/** What tiered compaction does to every block, told without its own functions. */
module CompactionLaws {
  import opened Text
  import opened Transcript
  import opened Truncation
  import opened Compaction

  /** The characters kept at the head and at the tail: two thirds and the rest in micro, a third each elsewhere. */
  ghost predicate KeptEnds(tier: Tier, max: nat, h: nat, t: nat) {
    if tier.preserveRecent == 2 && tier.toolResultMax == 200 then
      if max < 9000 then h == max * 6000 / 9000 && t == max - h else h == 6000 && t == 3000
    else h == max / 3 && t == max / 3
  }

  /** `out` is `text` cut to the limit, or `text` itself if it is within. */
  ghost predicate CutTo(tier: Tier, max: nat, text: string, out: string) {
    if ByteLen(text) <= max then out == text
    else exists h: nat, t: nat :: KeptEnds(tier, max, h, t) && h + t <= max && out == Cut(text, h, t)
  }

  lemma BudgetIsKept(tier: Tier, max: nat)
    ensures var (h, t) := Budget(max, HeadChars(tier), TailChars(tier)); KeptEnds(tier, max, h, t)
  {
    BudgetShares(max, HeadChars(tier), TailChars(tier));
    hide Budget;
  }

  lemma TruncatedIsCut(tier: Tier, max: nat, text: string)
    ensures CutTo(tier, max, text,
      if ByteLen(text) > max then TruncateContent(text, max, HeadChars(tier), TailChars(tier)) else text)
  {
    if ByteLen(text) > max {
      TruncationIs(text, max, HeadChars(tier), TailChars(tier));
      BudgetIsKept(tier, max);
      hide ByteLen, TruncateContent, Budget, KeptEnds, Cut;
      var (h, t) := Budget(max, HeadChars(tier), TailChars(tier));
    }
  }

  ghost function TextOf(render: Json -> string, content: ToolResultContent): string {
    match content
    case PlainText(text) => text
    case JsonValue(value) => render(value)
  }

  /** The stub that stands for an image. */
  ghost function Stub(mediaType: string, data: string): string {
    "[image removed during context compaction: " + mediaType + ", ~" + Decimal(ByteLen(data) / 1024) + " KB base64]"
  }

  /** What becomes of a block of an older message. */
  ghost predicate Shortened(render: Json -> string, tier: Tier, was: Block, now: Block) {
    match was
    case TextBlock(text) => now.TextBlock? && CutTo(tier, tier.textMax, text, now.text)
    case ToolResult(id, content, isError) =>
      if ByteLen(TextOf(render, content)) <= tier.toolResultMax then now == was
      else
        && now.ToolResult? && now.toolUseId == id && now.isError == isError && now.content.PlainText?
        && CutTo(tier, tier.toolResultMax, TextOf(render, content), now.content.text)
    case Image(_, mediaType, data) => now.TextBlock? && CutTo(tier, tier.textMax, Stub(mediaType, data), now.text)
    case _ => now == was
  }

  /** What becomes of a block of the first message: only images go. */
  ghost predicate Stubbed(was: Block, now: Block) {
    if was.Image? then now == TextBlock(Stub(was.mediaType, was.data)) else now == was
  }

  lemma BlockIsShortened(render: Json -> string, tier: Tier, b: Block)
    ensures Shortened(render, tier, b, CompactBlock(render, tier, StubImage(b)))
  {
    hide ByteLen, TruncateContent, CutTo, Decimal;
    match b
    case TextBlock(text) => TruncatedIsCut(tier, tier.textMax, text);
    case ToolResult(_, content, _) => TruncatedIsCut(tier, tier.toolResultMax, TextOf(render, content));
    case Image(_, mediaType, data) =>
      StubIs(mediaType, data);
      TruncatedIsCut(tier, tier.textMax, Stub(mediaType, data));
    case _ =>
  }

  lemma StubIs(mediaType: string, data: string)
    ensures ImageStub(mediaType, data) == Stub(mediaType, data)
  {
    hide ByteLen, Decimal;
  }

  /** The recent messages, the first one, and the older ones in between. */
  ghost predicate Compacted(render: Json -> string, tier: Tier, ms: seq<Message>, out: seq<Message>, i: nat)
    requires i < |ms| && i < |out|
  {
    if |ms| <= tier.preserveRecent + 1 || i + tier.preserveRecent >= |ms| then out[i] == ms[i]
    else
      && out[i].role == ms[i].role && |out[i].content| == |ms[i].content|
      && forall j :: 0 <= j < |ms[i].content| ==>
           if i == 0 then Stubbed(ms[i].content[j], out[i].content[j])
           else Shortened(render, tier, ms[i].content[j], out[i].content[j])
  }

  /**
   * Every message of a history: the recent ones are untouched, the first loses its images only, and in the others each
   * text and tool result over its limit is cut to head, note and tail, and each image becomes a stub.
   */
  lemma CompactionIs(render: Json -> string, tier: Tier, ms: seq<Message>, i: nat)
    requires i < |ms|
    ensures |CompactOlder(render, tier, ms)| == |ms|
    ensures Compacted(render, tier, ms, CompactOlder(render, tier, ms), i)
  {
    hide Shortened, CompactBlock, ImageStub, Stub;
    var out := CompactOlder(render, tier, ms);
    if |ms| > tier.preserveRecent + 1 && i + tier.preserveRecent < |ms| {
      forall j | 0 <= j < |ms[i].content|
        ensures
          if i == 0 then Stubbed(ms[i].content[j], out[i].content[j])
          else Shortened(render, tier, ms[i].content[j], out[i].content[j])
      {
        var b := ms[i].content[j];
        assert out[i].content[j] == CompactBlockAt(render, tier, b, i);
        BlockIsShortened(render, tier, b);
        if b.Image? {
          StubIs(b.mediaType, b.data);
        }
      }
    }
  }

  /** No image is left outside the recent messages. */
  lemma NoImageIsLeft(render: Json -> string, tier: Tier, ms: seq<Message>, i: nat, j: nat)
    requires |ms| > tier.preserveRecent + 1 && i + tier.preserveRecent < |ms| && j < |ms[i].content|
    ensures
      var out := CompactOlder(render, tier, ms);
      |out| == |ms| && j < |out[i].content| && !out[i].content[j].Image?
  {
    CompactionIs(render, tier, ms, i);
    hide CompactOlder, CutTo, ByteLen;
  }

  /** The first `h` characters, the note with the true count of what is left out, and the last `t` characters. */
  ghost predicate ExactCut(text: string, h: nat, t: nat, out: string) {
    h + t <= |text| && out == text[..h] + Note(|text| - h - t) + text[|text| - t..]
  }

  lemma NoteLength(n: nat)
    ensures |Note(n)| == 46 + |Decimal(n)| && OneByte(Note(n))
  {
    hide Decimal;
    assert OneByte("\n\n[...content truncated (") && OneByte(" chars omitted)...]\n\n") && OneByte(Decimal(n));
    OneByteParts("\n\n[...content truncated (", Decimal(n), " chars omitted)...]\n\n");
  }

  lemma CutOfOneByte(text: string, h: nat, t: nat)
    requires OneByte(text) && h + t <= |text|
    ensures h + t <= ByteLen(text) && ExactCut(text, h, t, Cut(text, h, t)) && OneByte(Cut(text, h, t))
    ensures |Cut(text, h, t)| == h + t + 46 + |Decimal(|text| - h - t)|
  {
    hide ByteLen, Note, Decimal;
    ByteLenBounds(text);
    NoteLength(|text| - h - t);
    OneByteParts(text[..h], Note(|text| - h - t), text[|text| - t..]);
  }

  /** One-byte text: the cut is exact, and where the tier leaves room for the note it fits the limit. */
  lemma CutIsExact(tier: Tier, max: nat, text: string, out: string)
    requires CutTo(tier, max, text, out) && OneByte(text) && max < |text| < USIZE
    ensures exists h: nat, t: nat :: KeptEnds(tier, max, h, t) && h + t <= max && ExactCut(text, h, t, out)
    ensures OneByte(out)
    ensures !(tier.preserveRecent == 2 && tier.toolResultMax == 200) && Roomy(max) ==> |out| <= max
  {
    ByteLenBounds(text);
    hide ByteLen, Cut, OneByte, ExactCut, Decimal;
    var h: nat, t: nat :| KeptEnds(tier, max, h, t) && h + t <= max && out == Cut(text, h, t);
    CutOfOneByte(text, h, t);
    UsizeDigits(|text| - h - t);
  }

  /** In a roomy tier every older text and tool result of a one-byte history fits its limit. */
  lemma OlderBlocksFit(render: Json -> string, tier: Tier, ms: seq<Message>, i: nat, j: nat)
    requires RoomyTier(tier) && PlainHistory(render, ms)
    requires |ms| > tier.preserveRecent + 1 && 0 < i && i + tier.preserveRecent < |ms| && j < |ms[i].content|
    ensures
      var out := CompactOlder(render, tier, ms);
      && |out| == |ms| && j < |out[i].content|
      && match out[i].content[j]
         case TextBlock(text) => ByteLen(text) <= tier.textMax
         case ToolResult(_, content, _) => ByteLen(TextOf(render, content)) <= tier.toolResultMax
         case _ => true
  {
    CompactionIs(render, tier, ms, i);
    var was, now := ms[i].content[j], CompactOlder(render, tier, ms)[i].content[j];
    assert PlainBlock(render, was);
    hide CompactOlder, Compacted, CutTo, ByteLen, ImageStub, Stub;
    assert Shortened(render, tier, was, now);
    match was
    case TextBlock(text) => CutFits(tier, tier.textMax, text, now.text);
    case ToolResult(_, content, _) =>
      if ByteLen(TextOf(render, content)) > tier.toolResultMax {
        CutFits(tier, tier.toolResultMax, TextOf(render, content), now.content.text);
      }
    case Image(_, mediaType, data) =>
      StubIs(mediaType, data);
      ImageStubIsOneByte(mediaType, data);
      CutFits(tier, tier.textMax, Stub(mediaType, data), now.text);
    case _ =>
  }

  lemma CutFits(tier: Tier, max: nat, text: string, out: string)
    requires CutTo(tier, max, text, out) && OneByte(text) && |text| < USIZE
    requires !IsMicro(tier) && Roomy(max)
    ensures ByteLen(out) <= max
  {
    ByteLenBounds(text);
    if |text| > max {
      CutIsExact(tier, max, text, out);
      ByteLenBounds(out);
    }
  }

  // ----- Tiers -----

  /** Pressure picks the tier: five thresholds, and for each the limits and the number of recent messages spared. */
  lemma TierTable(pressure: real)
    ensures TierFor(pressure) ==
      if pressure < 0.15 then None
      else if pressure < 0.30 then Some(Tier(1500, 2000, 6))
      else if pressure < 0.60 then Some(Tier(3000, 4000, 8))
      else if pressure < 0.70 then Some(Tier(1000, 1500, 6))
      else if pressure < 0.85 then Some(Tier(500, 800, 4))
      else Some(Tier(200, 400, 2))
  {
  }
}
