/** Folding of repeated read-only tool results into markers, keeping the newest copy. */
module Dedup {
  import opened Text
  import opened Transcript
  import opened Compaction

  /** The JSON writer and reader and the content hash, all outside the model. */
  datatype Codec = Codec(render: Json -> string, parse: string -> Option<Json>, hash: string -> string)

  const READ_ONLY_TOOLS := {"read_file", "list_files", "stat_file", "find_files", "search_code"}

  datatype Key = Key(tool: string, hash: string)

  // ----- The index of tool calls -----

  /** Id to tool name over `blocks`; a later call with the same id wins. */
  function NamesIn(blocks: seq<Block>): map<string, string> {
    if blocks == [] then map[]
    else
      var b := blocks[|blocks| - 1];
      var names := NamesIn(blocks[..|blocks| - 1]);
      if b.ToolUse? then names[b.id := b.name] else names
  }

  function ToolNames(ms: seq<Message>): map<string, string> {
    if ms == [] then map[] else ToolNames(ms[..|ms| - 1]) + NamesIn(ms[|ms| - 1].content)
  }

  /** Input of the first call in `blocks` with the given id. */
  function FirstInputIn(blocks: seq<Block>, id: string): Option<Json> {
    if blocks == [] then None
    else if blocks[0].ToolUse? && blocks[0].id == id then Some(blocks[0].input)
    else FirstInputIn(blocks[1..], id)
  }

  function FirstInput(ms: seq<Message>, id: string): Option<Json> {
    if ms == [] then None
    else if FirstInputIn(ms[0].content, id).Some? then FirstInputIn(ms[0].content, id)
    else FirstInput(ms[1..], id)
  }

  /** The `path` argument of the first call with the given id, or the empty string. */
  function PathOf(ms: seq<Message>, id: string): string {
    match FirstInput(ms, id)
    case Some(Object(fields)) =>
      if "path" in fields && fields["path"].String? then fields["path"].s else ""
    case _ => ""
  }

  // ----- Markers and keys -----

  predicate IsMarker(value: Json) {
    value.Object? && "_redacted" in value.fields && value.fields["_redacted"].String?
    && value.fields["_redacted"].s in READ_ONLY_TOOLS
  }

  predicate IsMarkerText(codec: Codec, text: string) {
    var parsed := codec.parse(text);
    parsed.Some? && IsMarker(parsed.value)
  }

  function Marker(key: Key, path: string): Json {
    Object(map["_redacted" := String(key.tool), "path" := String(path),
               "content_hash" := String(key.hash), "note" := String("see later identical read")])
  }

  /** Reading a marker back gives the marker: an object of four strings, which JSON text keeps. */
  ghost predicate RoundTrips(codec: Codec) {
    forall key: Key, path: string :: key.tool in READ_ONLY_TOOLS ==> ReadsBack(codec, Marker(key, path))
  }

  ghost predicate ReadsBack(codec: Codec, value: Json) {
    codec.parse(codec.render(value)) == Some(value)
  }

  /** What a block is compared by: nothing unless it is an unmarked result of a read-only tool. */
  function KeyOf(codec: Codec, names: map<string, string>, b: Block): (k: Option<Key>)
    ensures k.Some? ==> b.ToolResult? && k.value.tool in READ_ONLY_TOOLS
  {
    if !b.ToolResult? then None
    else
      var text := Rendered(codec.render, b.content);
      if IsMarkerText(codec, text) then None
      else if b.toolUseId !in names || names[b.toolUseId] !in READ_ONLY_TOOLS then None
      else Some(Key(names[b.toolUseId], codec.hash(text)))
  }

  function FoldedBlock(codec: Codec, ms: seq<Message>, b: Block, key: Key): Block
    requires b.ToolResult?
  {
    ToolResult(b.toolUseId, PlainText(codec.render(Marker(key, PathOf(ms, b.toolUseId)))), b.isError)
  }

  // ----- The declarative specification -----

  predicate Position(ms: seq<Message>, i: int, j: int) {
    0 <= i < |ms| && 0 <= j < |ms[i].content|
  }

  function KeyAt(codec: Codec, ms: seq<Message>, i: nat, j: nat): Option<Key>
    requires Position(ms, i, j)
  {
    KeyOf(codec, ToolNames(ms), ms[i].content[j])
  }

  ghost predicate SameKey(codec: Codec, ms: seq<Message>, i: nat, j: nat, k: nat, l: nat)
    requires Position(ms, i, j) && Position(ms, k, l)
  {
    KeyAt(codec, ms, i, j).Some? && KeyAt(codec, ms, i, j) == KeyAt(codec, ms, k, l)
  }

  /** Another copy sits in a later message, or earlier in the same message. */
  ghost predicate IsRepeat(codec: Codec, ms: seq<Message>, i: nat, j: nat)
    requires Position(ms, i, j)
  {
    exists k, l :: Position(ms, k, l) && (k > i || (k == i && l < j)) && SameKey(codec, ms, i, j, k, l)
  }

  ghost function DedupBlock(codec: Codec, ms: seq<Message>, i: nat, j: nat): Block
    requires Position(ms, i, j)
  {
    var b := ms[i].content[j];
    if IsRepeat(codec, ms, i, j) then FoldedBlock(codec, ms, b, KeyAt(codec, ms, i, j).value) else b
  }

  ghost function DedupMessage(codec: Codec, ms: seq<Message>, i: nat): (m: Message)
    requires i < |ms|
    ensures m.role == ms[i].role && |m.content| == |ms[i].content|
    ensures forall j :: 0 <= j < |m.content| ==> m.content[j] == DedupBlock(codec, ms, i, j)
  {
    Message(ms[i].role, seq(|ms[i].content|, j requires 0 <= j < |ms[i].content| => DedupBlock(codec, ms, i, j)))
  }

  ghost function Deduped(codec: Codec, ms: seq<Message>): seq<Message> {
    seq(|ms|, i requires 0 <= i < |ms| => DedupMessage(codec, ms, i))
  }

  /** The positions from message `from` on whose block is folded. */
  ghost function FoldedFrom(codec: Codec, ms: seq<Message>, from: nat): set<(nat, nat)> {
    set i: nat, j: nat | from <= i < |ms| && 0 <= j < |ms[i].content| && IsRepeat(codec, ms, i, j) :: (i, j)
  }

  ghost function FoldedPositions(codec: Codec, ms: seq<Message>): set<(nat, nat)> {
    FoldedFrom(codec, ms, 0)
  }

  // ----- The one-pass algorithm -----

  /** `seen` holds exactly the keys met from message `from` on. */
  ghost predicate SeenFrom(codec: Codec, ms: seq<Message>, from: nat, seen: set<Key>) {
    forall key :: key in seen <==> MetFrom(codec, ms, from, key)
  }

  ghost predicate MetFrom(codec: Codec, ms: seq<Message>, from: nat, key: Key) {
    exists k, l :: Position(ms, k, l) && from <= k && KeyAt(codec, ms, k, l) == Some(key)
  }

  /** `key` is met in the first `j` blocks. */
  ghost predicate MetIn(codec: Codec, names: map<string, string>, blocks: seq<Block>, j: nat, key: Key) {
    exists l :: 0 <= l < j && l < |blocks| && KeyOf(codec, names, blocks[l]) == Some(key)
  }

  /** Block `j` of a message repeats a key of `seen` or of an earlier block. */
  ghost predicate RepeatsIn(codec: Codec, names: map<string, string>, blocks: seq<Block>, seen: set<Key>, j: nat)
    requires j < |blocks|
  {
    var key := KeyOf(codec, names, blocks[j]);
    key.Some? && (key.value in seen || MetIn(codec, names, blocks, j, key.value))
  }

  ghost function RepeatsBefore(codec: Codec, names: map<string, string>, blocks: seq<Block>, seen: set<Key>, j: nat)
    : set<nat>
    requires j <= |blocks|
  {
    set l: nat | 0 <= l < j && RepeatsIn(codec, names, blocks, seen, l)
  }

  lemma RepeatsBeforeStep(codec: Codec, names: map<string, string>, blocks: seq<Block>, seen: set<Key>, j: nat)
    requires j < |blocks|
    ensures |RepeatsBefore(codec, names, blocks, seen, j + 1)| ==
      |RepeatsBefore(codec, names, blocks, seen, j)| + if RepeatsIn(codec, names, blocks, seen, j) then 1 else 0
  {
    var before := RepeatsBefore(codec, names, blocks, seen, j);
    if RepeatsIn(codec, names, blocks, seen, j) {
      assert RepeatsBefore(codec, names, blocks, seen, j + 1) == before + {j};
    } else {
      assert RepeatsBefore(codec, names, blocks, seen, j + 1) == before;
    }
  }

  ghost function FoldAt(codec: Codec, names: map<string, string>, ms: seq<Message>, blocks: seq<Block>,
                        seen: set<Key>, j: nat): Block
    requires j < |blocks|
  {
    if RepeatsIn(codec, names, blocks, seen, j)
    then FoldedBlock(codec, ms, blocks[j], KeyOf(codec, names, blocks[j]).value)
    else blocks[j]
  }

  /** `now` is `seen` and the keys met in the first `j` blocks. */
  ghost predicate SeenBefore(codec: Codec, names: map<string, string>, blocks: seq<Block>, seen: set<Key>,
                             j: nat, now: set<Key>) {
    forall key :: key in now <==> key in seen || MetIn(codec, names, blocks, j, key)
  }

  lemma SeenStep(codec: Codec, names: map<string, string>, blocks: seq<Block>, seen: set<Key>, j: nat, now: set<Key>)
    requires j < |blocks| && SeenBefore(codec, names, blocks, seen, j, now)
    ensures
      var key := KeyOf(codec, names, blocks[j]);
      && (RepeatsIn(codec, names, blocks, seen, j) <==> key.Some? && key.value in now)
      && SeenBefore(codec, names, blocks, seen, j + 1, if key.Some? then now + {key.value} else now)
  {
    var next := KeyOf(codec, names, blocks[j]);
    var now' := if next.Some? then now + {next.value} else now;
    forall key
      ensures key in now' <==> key in seen || MetIn(codec, names, blocks, j + 1, key)
    {
      if next == Some(key) {
        assert MetIn(codec, names, blocks, j + 1, key);
      }
    }
  }

  lemma FoldAtShapes(codec: Codec, names: map<string, string>, ms: seq<Message>, blocks: seq<Block>,
                     seen: set<Key>, out: seq<Block>)
    requires |out| == |blocks|
    requires forall j :: 0 <= j < |blocks| ==> out[j] == FoldAt(codec, names, ms, blocks, seen, j)
    ensures SameShapes(blocks, out)
  {
  }

  lemma FoldAtIs(codec: Codec, names: map<string, string>, ms: seq<Message>, blocks: seq<Block>, seen: set<Key>, j: nat)
    requires j < |blocks|
    ensures
      var key := KeyOf(codec, names, blocks[j]);
      FoldAt(codec, names, ms, blocks, seen, j) ==
        if RepeatsIn(codec, names, blocks, seen, j) && key.Some? then FoldedBlock(codec, ms, blocks[j], key.value)
        else blocks[j]
  {
    hide KeyOf, FoldedBlock;
  }

  /** The inner loop: one message, its blocks in order. */
  method FoldMessage(codec: Codec, names: map<string, string>, ms: seq<Message>, blocks: seq<Block>, seen: set<Key>)
    returns (out: seq<Block>, seen': set<Key>, folded: nat)
    ensures |out| == |blocks| && SameShapes(blocks, out)
    ensures forall j :: 0 <= j < |blocks| ==> out[j] == FoldAt(codec, names, ms, blocks, seen, j)
    ensures SeenBefore(codec, names, blocks, seen, |blocks|, seen')
    ensures folded == |RepeatsBefore(codec, names, blocks, seen, |blocks|)|
  {
    out, seen', folded := blocks, seen, 0;
    for j := 0 to |blocks|
      invariant |out| == |blocks|
      invariant forall l :: 0 <= l < j ==> out[l] == FoldAt(codec, names, ms, blocks, seen, l)
      invariant forall l :: j <= l < |blocks| ==> out[l] == blocks[l]
      invariant SeenBefore(codec, names, blocks, seen, j, seen')
      invariant folded == |RepeatsBefore(codec, names, blocks, seen, j)|
    {
      hide KeyOf, RepeatsIn, SeenBefore, RepeatsBefore, FoldedBlock, FoldAt;
      var key := KeyOf(codec, names, out[j]);
      FoldAtIs(codec, names, ms, blocks, seen, j);
      SeenStep(codec, names, blocks, seen, j, seen');
      RepeatsBeforeStep(codec, names, blocks, seen, j);
      if key.Some? {
        if key.value in seen' {
          out := out[j := FoldedBlock(codec, ms, out[j], key.value)];
          folded := folded + 1;
          assert seen' + {key.value} == seen';
        } else {
          seen' := seen' + {key.value};
        }
      }
    }
    FoldAtShapes(codec, names, ms, blocks, seen, out);
  }

  /** Repetition as the loop sees it is repetition as specified. */
  lemma RepeatsInIffRepeat(codec: Codec, ms: seq<Message>, i: nat, seen: set<Key>, j: nat)
    requires Position(ms, i, j) && SeenFrom(codec, ms, i + 1, seen)
    ensures RepeatsIn(codec, ToolNames(ms), ms[i].content, seen, j) <==> IsRepeat(codec, ms, i, j)
  {
    var names, blocks := ToolNames(ms), ms[i].content;
    var key := KeyAt(codec, ms, i, j);
    if key.Some? {
      if MetFrom(codec, ms, i + 1, key.value) {
        var k, l :| Position(ms, k, l) && i + 1 <= k && KeyAt(codec, ms, k, l) == key;
        assert SameKey(codec, ms, i, j, k, l);
      }
      if MetIn(codec, names, blocks, j, key.value) {
        var l :| 0 <= l < j && KeyOf(codec, names, blocks[l]) == key;
        assert Position(ms, i, l) && SameKey(codec, ms, i, j, i, l);
      }
      if IsRepeat(codec, ms, i, j) {
        var k, l :| Position(ms, k, l) && (k > i || (k == i && l < j)) && SameKey(codec, ms, i, j, k, l);
        assert KeyAt(codec, ms, k, l) == Some(key.value);
        if k == i {
          assert KeyOf(codec, names, blocks[l]) == Some(key.value);
        }
      }
    }
  }

  lemma MetFromStep(codec: Codec, ms: seq<Message>, i: nat, seen: set<Key>, seen': set<Key>)
    requires i < |ms| && SeenFrom(codec, ms, i + 1, seen)
    requires SeenBefore(codec, ToolNames(ms), ms[i].content, seen, |ms[i].content|, seen')
    ensures SeenFrom(codec, ms, i, seen')
  {
    forall key
      ensures key in seen' <==> MetFrom(codec, ms, i, key)
    {
      if MetFrom(codec, ms, i, key) {
        var k, l :| Position(ms, k, l) && i <= k && KeyAt(codec, ms, k, l) == Some(key);
        if k == i {
          assert KeyOf(codec, ToolNames(ms), ms[i].content[l]) == Some(key);
        } else {
          assert MetFrom(codec, ms, i + 1, key);
        }
      }
      if MetIn(codec, ToolNames(ms), ms[i].content, |ms[i].content|, key) {
        var l :| 0 <= l < |ms[i].content| && KeyOf(codec, ToolNames(ms), ms[i].content[l]) == Some(key);
        assert Position(ms, i, l) && KeyAt(codec, ms, i, l) == Some(key);
      }
    }
  }

  /** The folds of one message, added to those of the messages after it. */
  lemma CountStep(codec: Codec, ms: seq<Message>, i: nat, seen: set<Key>)
    requires i < |ms| && SeenFrom(codec, ms, i + 1, seen)
    ensures |FoldedFrom(codec, ms, i)| == |FoldedFrom(codec, ms, i + 1)|
      + |RepeatsBefore(codec, ToolNames(ms), ms[i].content, seen, |ms[i].content|)|
  {
    var js := RepeatsBefore(codec, ToolNames(ms), ms[i].content, seen, |ms[i].content|);
    forall j | 0 <= j < |ms[i].content|
      ensures j in js <==> IsRepeat(codec, ms, i, j)
    {
      RepeatsInIffRepeat(codec, ms, i, seen, j);
    }
    PairWithSize(i, js);
    FoldedFromStep(codec, ms, i, js);
  }

  lemma FoldedFromStep(codec: Codec, ms: seq<Message>, i: nat, js: set<nat>)
    requires i < |ms|
    requires forall j :: j in js ==> 0 <= j < |ms[i].content|
    requires forall j :: 0 <= j < |ms[i].content| ==> (j in js <==> IsRepeat(codec, ms, i, j))
    ensures |FoldedFrom(codec, ms, i)| == |FoldedFrom(codec, ms, i + 1)| + |PairWith(i, js)|
  {
    var later, here := FoldedFrom(codec, ms, i + 1), PairWith(i, js);
    forall p | p in FoldedFrom(codec, ms, i)
      ensures p in later + here
    {
      if p.0 == i {
        assert p.1 in js;
      }
    }
    assert FoldedFrom(codec, ms, i) == later + here;
    assert later !! here;
  }

  ghost function PairWith(i: nat, js: set<nat>): set<(nat, nat)> {
    set j | j in js :: (i, j)
  }

  lemma {:induction false} PairWithSize(i: nat, js: set<nat>)
    ensures |PairWith(i, js)| == |js|
  {
    if js != {} {
      var j :| j in js;
      PairWithSize(i, js - {j});
      assert PairWith(i, js) == PairWith(i, js - {j}) + {(i, j)};
    }
  }

  /** Before the loop nothing is seen and nothing folded. */
  lemma DedupStart(codec: Codec, ms: seq<Message>)
    ensures SameSkeleton(ms, ms) && SeenFrom(codec, ms, |ms|, {}) && |FoldedFrom(codec, ms, |ms|)| == 0
  {
    assert FoldedFrom(codec, ms, |ms|) == {};
  }

  lemma DedupEnd(codec: Codec, was: seq<Message>, ms: seq<Message>)
    requires |ms| == |was| && forall k :: 0 <= k < |was| ==> ms[k] == DedupMessage(codec, was, k)
    ensures ms == Deduped(codec, was) && FoldedFrom(codec, was, 0) == FoldedPositions(codec, was)
  {
    hide DedupMessage, FoldedFrom;
  }

  method DedupReadResults(log: MessageLog, codec: Codec) returns (folded: nat)
    modifies log
    ensures log.messages == Deduped(codec, old(log.messages))
    ensures folded == |FoldedPositions(codec, old(log.messages))|
  {
    hide ToolNames, SeenFrom, FoldedFrom, SameSkeleton, DedupMessage, Deduped, SeenBefore, RepeatsBefore;
    ghost var was := log.messages;
    folded := 0;
    DedupStart(codec, was);
    if log.messages == [] {
      DedupEnd(codec, was, was);
      return;
    }
    var names := ToolNames(log.messages);
    var seen: set<Key> := {};
    var i := |log.messages|;
    while i > 0
      invariant 0 <= i <= |was| && |log.messages| == |was|
      invariant SameSkeleton(was, log.messages)
      invariant forall k :: 0 <= k < i ==> log.messages[k] == was[k]
      invariant forall k :: i <= k < |was| ==> log.messages[k] == DedupMessage(codec, was, k)
      invariant SeenFrom(codec, was, i, seen)
      invariant folded == |FoldedFrom(codec, was, i)|
    {
      i := i - 1;
      CountStep(codec, was, i, seen);
      var out, seen', count := FoldMessage(codec, names, log.messages, log.messages[i].content, seen);
      MessageStep(codec, was, log.messages, i, seen, out);
      MetFromStep(codec, was, i, seen, seen');
      SkeletonUpdate(was, log.messages, i, out);
      seen, folded := seen', folded + count;
      log.messages := log.messages[i := Message(log.messages[i].role, out)];
    }
    DedupEnd(codec, was, log.messages);
  }

  lemma SkeletonUpdate(a: seq<Message>, b: seq<Message>, i: nat, out: seq<Block>)
    requires SameSkeleton(a, b) && i < |a| && SameShapes(a[i].content, out)
    ensures SameSkeleton(a, b[i := Message(b[i].role, out)])
  {
    var c := b[i := Message(b[i].role, out)];
    forall k | 0 <= k < |a|
      ensures SameSkeletonAt(a, c, k)
    {
      assert SameSkeletonAt(a, b, k);
    }
  }

  /** The inner loop turns message `i` into the specified one. */
  lemma MessageStep(codec: Codec, was: seq<Message>, ms: seq<Message>, i: nat, seen: set<Key>, out: seq<Block>)
    requires i < |was| && SameSkeleton(was, ms) && SeenFrom(codec, was, i + 1, seen)
    requires |out| == |was[i].content|
    requires forall j :: 0 <= j < |out| ==> out[j] == FoldAt(codec, ToolNames(was), ms, was[i].content, seen, j)
    ensures Message(was[i].role, out) == DedupMessage(codec, was, i)
  {
    forall j | 0 <= j < |out|
      ensures out[j] == DedupBlock(codec, was, i, j)
    {
      RepeatsInIffRepeat(codec, was, i, seen, j);
      if was[i].content[j].ToolResult? {
        SkeletonKeepsPath(was, ms, was[i].content[j].toolUseId);
      }
    }
    assert out == DedupMessage(codec, was, i).content;
  }

  // ----- The index depends on the skeleton only -----

  lemma {:induction false} ShapesKeepFirstInput(a: seq<Block>, b: seq<Block>, id: string)
    requires SameShapes(a, b)
    ensures FirstInputIn(a, id) == FirstInputIn(b, id)
  {
    if a != [] {
      assert SameShape(a[0], b[0]);
      ShapesKeepFirstInput(a[1..], b[1..], id);
    }
  }

  lemma {:induction false} SkeletonKeepsPath(a: seq<Message>, b: seq<Message>, id: string)
    requires SameSkeleton(a, b)
    ensures FirstInput(a, id) == FirstInput(b, id) && PathOf(a, id) == PathOf(b, id)
  {
    if a != [] {
      assert SameSkeletonAt(a, b, 0);
      ShapesKeepFirstInput(a[0].content, b[0].content, id);
      SkeletonSlice(a, b, 1, |a|);
      assert a[1..|a|] == a[1..] && b[1..|a|] == b[1..];
      SkeletonKeepsPath(a[1..], b[1..], id);
    }
  }

  lemma SkeletonSlice(a: seq<Message>, b: seq<Message>, lo: nat, hi: nat)
    requires SameSkeleton(a, b) && lo <= hi <= |a|
    ensures SameSkeleton(a[lo..hi], b[lo..hi])
  {
    forall i | 0 <= i < hi - lo
      ensures SameSkeletonAt(a[lo..hi], b[lo..hi], i)
    {
      assert SameSkeletonAt(a, b, i + lo);
    }
  }

  lemma {:induction false} ShapesKeepNames(a: seq<Block>, b: seq<Block>)
    requires SameShapes(a, b)
    ensures NamesIn(a) == NamesIn(b)
  {
    if a != [] {
      assert SameShape(a[|a| - 1], b[|b| - 1]);
      ShapesKeepNames(a[..|a| - 1], b[..|b| - 1]);
    }
  }

  lemma {:induction false} SkeletonKeepsNames(a: seq<Message>, b: seq<Message>)
    requires SameSkeleton(a, b)
    ensures ToolNames(a) == ToolNames(b)
  {
    if a != [] {
      var n := |a| - 1;
      assert SameSkeletonAt(a, b, n);
      ShapesKeepNames(a[n].content, b[n].content);
      SkeletonSlice(a, b, 0, n);
      SkeletonKeepsNames(a[..n], b[..n]);
    }
  }

  // ----- Properties -----

  lemma DedupBlockShape(codec: Codec, ms: seq<Message>, i: nat, j: nat)
    requires Position(ms, i, j)
    ensures SameShape(ms[i].content[j], DedupBlock(codec, ms, i, j))
  {
  }

  /** Only contents of folded results change: roles, ids, error flags and all other blocks stay. */
  lemma DedupKeepsSkeleton(codec: Codec, ms: seq<Message>)
    ensures SameSkeleton(ms, Deduped(codec, ms))
  {
    forall i | 0 <= i < |ms|
      ensures SameSkeletonAt(ms, Deduped(codec, ms), i)
    {
      forall j | 0 <= j < |ms[i].content|
        ensures SameShape(ms[i].content[j], DedupMessage(codec, ms, i).content[j])
      {
        DedupBlockShape(codec, ms, i, j);
      }
    }
  }

  lemma MarkersAreMarked(codec: Codec, key: Key, path: string)
    requires RoundTrips(codec) && key.tool in READ_ONLY_TOOLS
    ensures IsMarkerText(codec, codec.render(Marker(key, path)))
  {
    assert ReadsBack(codec, Marker(key, path));
  }

  /** A block changes exactly when it is folded, so the count returned is the number of changed blocks. */
  lemma DedupChangesExactlyRepeats(codec: Codec, ms: seq<Message>, i: nat, j: nat)
    requires RoundTrips(codec) && Position(ms, i, j)
    ensures Deduped(codec, ms)[i].content[j] != ms[i].content[j] <==> (i, j) in FoldedPositions(codec, ms)
  {
    if IsRepeat(codec, ms, i, j) {
      var key := KeyAt(codec, ms, i, j).value;
      MarkersAreMarked(codec, key, PathOf(ms, ms[i].content[j].toolUseId));
    }
  }

  /** For every folded result an untouched copy with the same tool and hash is visited before it. */
  lemma {:induction false} ACopySurvives(codec: Codec, ms: seq<Message>, i: nat, j: nat) returns (k: nat, l: nat)
    requires Position(ms, i, j) && IsRepeat(codec, ms, i, j)
    ensures Position(ms, k, l) && (k > i || (k == i && l < j))
    ensures SameKey(codec, ms, i, j, k, l)
    ensures Deduped(codec, ms)[k].content[l] == ms[k].content[l]
    decreases |ms| - i, j
  {
    k, l :| Position(ms, k, l) && (k > i || (k == i && l < j)) && SameKey(codec, ms, i, j, k, l);
    if IsRepeat(codec, ms, k, l) {
      k, l := ACopySurvives(codec, ms, k, l);
    }
  }

  /** Hashing tells the texts of this history apart. */
  ghost predicate Separates(codec: Codec, ms: seq<Message>) {
    forall i, j, k, l :: Position(ms, i, j) && Position(ms, k, l) ==> HashTells(codec, ms[i].content[j], ms[k].content[l])
  }

  ghost predicate HashTells(codec: Codec, a: Block, b: Block) {
    a.ToolResult? && b.ToolResult? ==>
      var s, t := Rendered(codec.render, a.content), Rendered(codec.render, b.content);
      codec.hash(s) == codec.hash(t) ==> s == t
  }

  /** With a hash that separates the texts at hand, the text of every folded result survives verbatim. */
  lemma NoTextIsLost(codec: Codec, ms: seq<Message>, i: nat, j: nat) returns (k: nat, l: nat)
    requires Separates(codec, ms)
    requires Position(ms, i, j) && ms[i].content[j].ToolResult?
    ensures Position(ms, k, l) && Deduped(codec, ms)[k].content[l].ToolResult?
    ensures Rendered(codec.render, Deduped(codec, ms)[k].content[l].content)
         == Rendered(codec.render, ms[i].content[j].content)
  {
    k, l := i, j;
    if IsRepeat(codec, ms, i, j) {
      k, l := ACopySurvives(codec, ms, i, j);
      assert HashTells(codec, ms[i].content[j], ms[k].content[l]);
    }
  }

  /** Keys after a run: gone where a marker was put, unchanged elsewhere. */
  lemma KeyAfterDedup(codec: Codec, ms: seq<Message>, i: nat, j: nat)
    requires RoundTrips(codec) && Position(ms, i, j)
    ensures Position(Deduped(codec, ms), i, j)
    ensures KeyAt(codec, Deduped(codec, ms), i, j) ==
      if IsRepeat(codec, ms, i, j) then None else KeyAt(codec, ms, i, j)
  {
    DedupKeepsSkeleton(codec, ms);
    SkeletonKeepsNames(ms, Deduped(codec, ms));
    if IsRepeat(codec, ms, i, j) {
      MarkersAreMarked(codec, KeyAt(codec, ms, i, j).value, PathOf(ms, ms[i].content[j].toolUseId));
    }
  }

  lemma NoRepeatsAfterDedup(codec: Codec, ms: seq<Message>, i: nat, j: nat)
    requires RoundTrips(codec) && Position(ms, i, j)
    ensures Position(Deduped(codec, ms), i, j) && !IsRepeat(codec, Deduped(codec, ms), i, j)
  {
    var out := Deduped(codec, ms);
    KeyAfterDedup(codec, ms, i, j);
    if IsRepeat(codec, out, i, j) {
      var k, l :| Position(out, k, l) && (k > i || (k == i && l < j)) && SameKey(codec, out, i, j, k, l);
      KeyAfterDedup(codec, ms, k, l);
      assert SameKey(codec, ms, i, j, k, l);
      assert false;
    }
  }

  /** A second run folds nothing: markers are not folded again. */
  lemma DedupIdempotent(codec: Codec, ms: seq<Message>)
    requires RoundTrips(codec)
    ensures Deduped(codec, Deduped(codec, ms)) == Deduped(codec, ms)
    ensures FoldedPositions(codec, Deduped(codec, ms)) == {}
  {
    var out := Deduped(codec, ms);
    forall i, j | Position(ms, i, j)
      ensures Position(out, i, j) && !IsRepeat(codec, out, i, j)
    {
      NoRepeatsAfterDedup(codec, ms, i, j);
    }
    forall i | 0 <= i < |out|
      ensures DedupMessage(codec, out, i) == out[i]
    {
      forall j | 0 <= j < |out[i].content|
        ensures DedupBlock(codec, out, i, j) == out[i].content[j]
      {
        assert Position(ms, i, j);
      }
      assert DedupMessage(codec, out, i).content == out[i].content;
    }
    assert forall i, j :: Position(out, i, j) ==> Position(ms, i, j);
  }
}
