/** Conversation history: messages of content blocks, and what is said in them. */
module Transcript {
  import opened Sequences
  import opened Text

  datatype Json =
    | Null
    | Boolean(truth: bool)
    | Natural(n: nat)
    | OtherNumber(numeral: string)
    | String(s: string)
    | Array(items: seq<Json>)
    | Object(fields: map<string, Json>)

  datatype Role = User | Assistant

  datatype ToolResultContent = PlainText(text: string) | JsonValue(value: Json)

  datatype Block =
    | TextBlock(text: string)
    | Thinking(thinking: string, signature: Option<string>)
    | Image(sourceType: string, mediaType: string, data: string)
    | ToolUse(id: string, name: string, input: Json)
    | ToolResult(toolUseId: string, content: ToolResultContent, isError: bool)

  datatype Message = Message(role: Role, content: seq<Block>)

  /** The `&mut Vec<Message>` that the passes update in place. */
  class MessageLog {
    var messages: seq<Message>

    constructor (initial: seq<Message>)
      ensures messages == initial
    {
      messages := initial;
    }
  }

  /** Ids of the tool calls made in `blocks`. */
  function UseIds(blocks: seq<Block>): set<string> {
    set b | b in blocks && b.ToolUse? :: b.id
  }

  /** Ids of the tool calls answered in `blocks`. */
  function ResultIds(blocks: seq<Block>): set<string> {
    set b | b in blocks && b.ToolResult? :: b.toolUseId
  }

  lemma IdsConcat(a: seq<Block>, b: seq<Block>)
    ensures UseIds(a + b) == UseIds(a) + UseIds(b)
    ensures ResultIds(a + b) == ResultIds(a) + ResultIds(b)
  {
  }

  /** Tool calls of the message before position `i`: the ones a result at `i` may answer. */
  function UsesBefore(ms: seq<Message>, i: nat): set<string>
    requires i < |ms|
  {
    if i == 0 then {} else UseIds(ms[i - 1].content)
  }

  /** Results of the user message after position `i`: the ones that answer a call at `i`. */
  function AnswersAfter(ms: seq<Message>, i: nat): set<string>
    requires i < |ms|
  {
    if i + 1 < |ms| && ms[i + 1].role == User then ResultIds(ms[i + 1].content) else {}
  }

  /** A block together with the speaker of the message that holds it. */
  datatype Said = Said(role: Role, block: Block)

  function SaidBy(role: Role, blocks: seq<Block>): seq<Said> {
    seq(|blocks|, i requires 0 <= i < |blocks| => Said(role, blocks[i]))
  }

  /** Everything said, in order, without the message boundaries. */
  function Spoken(ms: seq<Message>): seq<Said> {
    if ms == [] then []
    else Spoken(ms[..|ms| - 1]) + SaidBy(ms[|ms| - 1].role, ms[|ms| - 1].content)
  }

  lemma {:induction false} SpokenConcat(a: seq<Message>, b: seq<Message>)
    ensures Spoken(a + b) == Spoken(a) + Spoken(b)
  {
    if b == [] {
      assert a + b == a;
    } else {
      assert (a + b)[..|a + b| - 1] == a + b[..|b| - 1];
      SpokenConcat(a, b[..|b| - 1]);
    }
  }

  lemma SaidByConcat(role: Role, a: seq<Block>, b: seq<Block>)
    ensures SaidBy(role, a + b) == SaidBy(role, a) + SaidBy(role, b)
  {
  }

  /** Something is said exactly when some message holds it under its own role. */
  lemma {:induction false} SpokenIff(ms: seq<Message>, x: Said)
    ensures x in Spoken(ms) <==> exists m :: m in ms && m.role == x.role && x.block in m.content
  {
    if ms != [] {
      var init, last := ms[..|ms| - 1], ms[|ms| - 1];
      assert ms == init + [last];
      SpokenIff(init, x);
      var tail := SaidBy(last.role, last.content);
      if last.role == x.role && x.block in last.content {
        var k :| 0 <= k < |last.content| && last.content[k] == x.block;
        assert tail[k] == x;
      }
    }
  }

  // ----- Rewriting contents without touching the tool-call structure -----

  /** `b` may replace `a`: calls are untouched, results keep their id and error flag. */
  predicate SameShape(a: Block, b: Block) {
    match a
    case ToolUse(_, _, _) => b == a
    case ToolResult(id, _, isError) => b.ToolResult? && b.toolUseId == id && b.isError == isError
    case _ => !b.ToolUse? && !b.ToolResult?
  }

  ghost predicate SameShapes(a: seq<Block>, b: seq<Block>) {
    |a| == |b| && forall j :: 0 <= j < |a| ==> SameShape(a[j], b[j])
  }

  ghost predicate SameSkeletonAt(a: seq<Message>, b: seq<Message>, i: nat)
    requires i < |a| && i < |b|
  {
    a[i].role == b[i].role && SameShapes(a[i].content, b[i].content)
  }

  /** Same messages by the same speakers, with the same calls and the same results answering them. */
  ghost predicate SameSkeleton(a: seq<Message>, b: seq<Message>) {
    |a| == |b| && forall i :: 0 <= i < |a| ==> SameSkeletonAt(a, b, i)
  }

  lemma SameShapesSameIds(a: seq<Block>, b: seq<Block>)
    requires SameShapes(a, b)
    ensures UseIds(a) == UseIds(b) && ResultIds(a) == ResultIds(b)
  {
    forall x | x in a
      ensures exists y :: y in b && SameShape(x, y)
    {
      var j :| 0 <= j < |a| && a[j] == x;
      assert b[j] in b && SameShape(x, b[j]);
    }
    forall y | y in b
      ensures exists x :: x in a && SameShape(x, y)
    {
      var j :| 0 <= j < |b| && b[j] == y;
      assert a[j] in a && SameShape(a[j], y);
    }
  }

  lemma SameSkeletonTransitive(a: seq<Message>, b: seq<Message>, c: seq<Message>)
    requires SameSkeleton(a, b) && SameSkeleton(b, c)
    ensures SameSkeleton(a, c)
  {
    forall i | 0 <= i < |a|
      ensures SameSkeletonAt(a, c, i)
    {
      assert SameSkeletonAt(a, b, i) && SameSkeletonAt(b, c, i);
      forall j | 0 <= j < |a[i].content|
        ensures SameShape(a[i].content[j], c[i].content[j])
      {
        assert SameShape(a[i].content[j], b[i].content[j]);
      }
    }
  }
}
