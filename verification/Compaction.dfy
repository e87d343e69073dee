/** Tiered truncation of the older part of a history. */
module Compaction {
  import opened Text
  import opened Transcript
  import opened Truncation

  datatype Tier = Tier(toolResultMax: nat, textMax: nat, preserveRecent: nat)

  const MICRO := Tier(200, 400, 2)
  const AGGRESSIVE := Tier(500, 800, 4)
  const MODERATE := Tier(1000, 1500, 6)
  const LIGHT := Tier(3000, 4000, 8)
  const HISTORY := Tier(1500, 2000, 6)

  /** The tier for a pressure between 0 and 1. */
  function TierFor(pressure: real): Option<Tier> {
    if pressure >= 0.85 then Some(MICRO)
    else if pressure >= 0.70 then Some(AGGRESSIVE)
    else if pressure >= 0.60 then Some(MODERATE)
    else if pressure >= 0.30 then Some(LIGHT)
    else if pressure >= 0.15 then Some(HISTORY)
    else None
  }

  predicate IsMicro(tier: Tier) {
    tier.preserveRecent == MICRO.preserveRecent && tier.toolResultMax == MICRO.toolResultMax
  }

  function HeadChars(tier: Tier): Option<nat> {
    if IsMicro(tier) then Some(6000) else None
  }

  function TailChars(tier: Tier): Option<nat> {
    if IsMicro(tier) then Some(3000) else None
  }

  /** The text of a tool result; `render` is the JSON writer. */
  function Rendered(render: Json -> string, content: ToolResultContent): string {
    match content
    case PlainText(t) => t
    case JsonValue(v) => render(v)
  }

  function CompactBlock(render: Json -> string, tier: Tier, b: Block): Block {
    match b
    case ToolResult(id, content, isError) =>
      var text := Rendered(render, content);
      if ByteLen(text) > tier.toolResultMax
      then ToolResult(id, PlainText(TruncateContent(text, tier.toolResultMax, HeadChars(tier), TailChars(tier))), isError)
      else b
    case TextBlock(text) =>
      if ByteLen(text) > tier.textMax
      then TextBlock(TruncateContent(text, tier.textMax, HeadChars(tier), TailChars(tier)))
      else b
    case _ => b
  }

  const STUB_OPEN := "[image removed during context compaction: "
  const STUB_SIZE := ", ~"
  const STUB_CLOSE := " KB base64]"

  function ImageStub(mediaType: string, data: string): string {
    STUB_OPEN + mediaType + STUB_SIZE + Decimal(ByteLen(data) / 1024) + STUB_CLOSE
  }

  lemma StubWordsAreOneByte()
    ensures OneByte(STUB_OPEN) && OneByte(STUB_SIZE) && OneByte(STUB_CLOSE)
  {
  }

  lemma ImageStubIsOneByte(mediaType: string, data: string)
    requires OneByte(mediaType)
    ensures OneByte(ImageStub(mediaType, data))
  {
    StubWordsAreOneByte();
    hide Decimal, ByteLen;
    var digits := Decimal(ByteLen(data) / 1024);
    assert OneByte(digits);
    OneByteParts(STUB_OPEN, mediaType, STUB_SIZE);
    OneByteParts(STUB_OPEN + mediaType + STUB_SIZE, digits, STUB_CLOSE);
  }

  function StubImage(b: Block): Block {
    if b.Image? then TextBlock(ImageStub(b.mediaType, b.data)) else b
  }

  function MapBlocks(f: Block -> Block, m: Message): Message {
    Message(m.role, seq(|m.content|, j requires 0 <= j < |m.content| => f(m.content[j])))
  }

  /** What becomes of a block of the message at `i`: the first message loses its images only. */
  function CompactBlockAt(render: Json -> string, tier: Tier, b: Block, i: nat): Block {
    if i == 0 then StubImage(b) else CompactBlock(render, tier, StubImage(b))
  }

  function CompactAt(render: Json -> string, tier: Tier, m: Message, i: nat, end: nat): Message {
    if i >= end then m else MapBlocks(b => CompactBlockAt(render, tier, b, i), m)
  }

  function CompactOlder(render: Json -> string, tier: Tier, ms: seq<Message>): seq<Message> {
    if |ms| <= tier.preserveRecent + 1 then ms
    else seq(|ms|, i requires 0 <= i < |ms| => CompactAt(render, tier, ms[i], i, |ms| - tier.preserveRecent))
  }

  method CompactOlderMessages(log: MessageLog, render: Json -> string, tier: Tier)
    modifies log
    ensures log.messages == CompactOlder(render, tier, old(log.messages))
  {
    ghost var was := log.messages;
    if |log.messages| <= tier.preserveRecent + 1 {
      return;
    }
    var end := |log.messages| - tier.preserveRecent;
    for i := 0 to end
      invariant |log.messages| == |was|
      invariant forall k :: 0 <= k < i ==> log.messages[k] == MapBlocks(StubImage, was[k])
      invariant forall k :: i <= k < |was| ==> log.messages[k] == was[k]
    {
      log.messages := log.messages[i := MapBlocks(StubImage, log.messages[i])];
    }
    var compact := (b: Block) => CompactBlock(render, tier, b);
    for i := 1 to end
      invariant |log.messages| == |was|
      invariant forall k :: 0 <= k < i ==> log.messages[k] == CompactAt(render, tier, was[k], k, end)
      invariant forall k :: i <= k < end ==> log.messages[k] == MapBlocks(StubImage, was[k])
      invariant forall k :: end <= k < |was| ==> log.messages[k] == was[k]
    {
      log.messages := log.messages[i := MapBlocks(compact, log.messages[i])];
      assert log.messages[i] == CompactAt(render, tier, was[i], i, end);
    }
    assert log.messages == CompactOlder(render, tier, was);
  }

  // ----- What compaction leaves alone -----

  lemma MapKeepsShapes(f: Block -> Block, m: Message)
    requires forall b :: SameShape(b, f(b))
    ensures SameShapes(m.content, MapBlocks(f, m).content)
  {
  }

  /** Roles, block counts, calls, result ids and error flags survive, and so does the recent tail. */
  lemma CompactionKeepsSkeleton(render: Json -> string, tier: Tier, ms: seq<Message>)
    ensures SameSkeleton(ms, CompactOlder(render, tier, ms))
    ensures forall i :: 0 <= i < |ms| && i >= |ms| - tier.preserveRecent ==> CompactOlder(render, tier, ms)[i] == ms[i]
  {
    var out := CompactOlder(render, tier, ms);
    forall i | 0 <= i < |ms|
      ensures SameSkeletonAt(ms, out, i)
    {
      MapKeepsShapes(b => CompactBlockAt(render, tier, b, i), ms[i]);
      assert out[i] == ms[i] || out[i] == MapBlocks(b => CompactBlockAt(render, tier, b, i), ms[i]);
    }
  }

  // ----- Idempotence -----

  /** The texts compaction looks at are one byte per character and of representable length. */
  predicate PlainBlock(render: Json -> string, b: Block) {
    match b
    case TextBlock(text) => OneByte(text) && |text| < USIZE
    case ToolResult(_, content, _) => OneByte(Rendered(render, content)) && |Rendered(render, content)| < USIZE
    case Image(_, mediaType, data) => OneByte(mediaType) && |ImageStub(mediaType, data)| < USIZE
    case _ => true
  }

  ghost predicate PlainHistory(render: Json -> string, ms: seq<Message>) {
    forall i, j :: 0 <= i < |ms| && 0 <= j < |ms[i].content| ==> PlainBlock(render, ms[i].content[j])
  }

  ghost predicate RoomyTier(tier: Tier) {
    !IsMicro(tier) && Roomy(tier.toolResultMax) && Roomy(tier.textMax)
  }

  /** Every named tier but micro leaves room for the truncation mark. */
  lemma NamedTiersAreRoomy(pressure: real)
    ensures TierFor(pressure).Some? && pressure < 0.85 ==> RoomyTier(TierFor(pressure).value)
    ensures pressure >= 0.85 ==> TierFor(pressure) == Some(MICRO)
    ensures FillsLimit(MICRO.toolResultMax, HeadChars(MICRO), TailChars(MICRO))
    ensures FillsLimit(MICRO.textMax, HeadChars(MICRO), TailChars(MICRO))
  {
  }

  lemma StubIsPlain(render: Json -> string, b: Block)
    requires PlainBlock(render, b)
    ensures PlainBlock(render, StubImage(b)) && !StubImage(b).Image?
  {
    if b.Image? {
      ImageStubIsOneByte(b.mediaType, b.data);
    }
  }

  lemma CompactBlockAtIdempotent(render: Json -> string, tier: Tier, b: Block, i: nat)
    requires RoomyTier(tier) && PlainBlock(render, b)
    ensures
      var once := CompactBlockAt(render, tier, b, i);
      CompactBlockAt(render, tier, once, i) == once
  {
    StubIsPlain(render, b);
    CompactBlockIdempotent(render, tier, StubImage(b));
  }

  /** A roomy tier applied to a compacted block changes nothing. */
  lemma CompactBlockIdempotent(render: Json -> string, tier: Tier, b: Block)
    requires RoomyTier(tier) && PlainBlock(render, b)
    ensures
      var once := CompactBlock(render, tier, b);
      CompactBlock(render, tier, once) == once
  {
    match b
    case ToolResult(_, content, _) =>
      var text := Rendered(render, content);
      RoomyTruncationFits(text, tier.toolResultMax);
      ByteLenBounds(TruncateContent(text, tier.toolResultMax, None, None));
    case TextBlock(text) =>
      RoomyTruncationFits(text, tier.textMax);
      ByteLenBounds(TruncateContent(text, tier.textMax, None, None));
    case _ =>
  }

  lemma CompactAtIdempotent(render: Json -> string, tier: Tier, m: Message, i: nat, end: nat)
    requires RoomyTier(tier)
    requires forall j :: 0 <= j < |m.content| ==> PlainBlock(render, m.content[j])
    ensures
      var once := CompactAt(render, tier, m, i, end);
      CompactAt(render, tier, once, i, end) == once
  {
    var once := CompactAt(render, tier, m, i, end);
    var twice := CompactAt(render, tier, once, i, end);
    forall j | 0 <= j < |m.content|
      ensures twice.content[j] == once.content[j]
    {
      CompactBlockAtIdempotent(render, tier, m.content[j], i);
    }
  }

  /** In every tier but micro, compacting a one-byte history again changes nothing. */
  lemma CompactionIdempotent(render: Json -> string, tier: Tier, ms: seq<Message>)
    requires RoomyTier(tier) && PlainHistory(render, ms)
    ensures
      var once := CompactOlder(render, tier, ms);
      CompactOlder(render, tier, once) == once
  {
    if |ms| > tier.preserveRecent + 1 {
      var once := CompactOlder(render, tier, ms);
      forall i | 0 <= i < |ms|
        ensures CompactOlder(render, tier, once)[i] == once[i]
      {
        CompactAtIdempotent(render, tier, ms[i], i, |ms| - tier.preserveRecent);
      }
    }
  }

  /** The micro tier rewrites any text it has truncated before, unless it was exactly 48 characters over. */
  lemma MicroRewritesItsOwnMark(render: Json -> string, text: string)
    requires OneByte(text) && |text| < USIZE
    ensures
      var once := CompactBlock(render, MICRO, TextBlock(text));
      CompactBlock(render, MICRO, once) == once <==> |text| <= 400 || |text| == 448
  {
    ByteLenBounds(text);
    NamedTiersAreRoomy(0.9);
    if |text| > 400 {
      FullTruncationOnce(text, 400, HeadChars(MICRO), TailChars(MICRO));
      FullTruncationFixedPoint(text, 400, HeadChars(MICRO), TailChars(MICRO));
      ByteLenBounds(TruncateContent(text, 400, HeadChars(MICRO), TailChars(MICRO)));
    }
  }
}
