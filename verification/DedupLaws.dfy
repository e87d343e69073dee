/** Which read results are folded, and into what, told from the history alone. */
module DedupLaws {
  import opened Text
  import opened Transcript
  import opened Dedup

  predicate ReadOnly(tool: string) {
    tool in {"read_file", "list_files", "stat_file", "find_files", "search_code"}
  }

  // ----- Calls in the history -----

  ghost predicate CallAt(ms: seq<Message>, id: string, k: nat, l: nat) {
    Position(ms, k, l) && ms[k].content[l].ToolUse? && ms[k].content[l].id == id
  }

  predicate After(k: nat, l: nat, i: nat, j: nat) {
    k > i || (k == i && l > j)
  }

  /** The last call of the history with this id. */
  ghost predicate LastCall(ms: seq<Message>, id: string, k: nat, l: nat) {
    CallAt(ms, id, k, l) && forall i: nat, j: nat :: CallAt(ms, id, i, j) ==> !After(i, j, k, l)
  }

  /** The first call of the history with this id. */
  ghost predicate FirstCall(ms: seq<Message>, id: string, k: nat, l: nat) {
    CallAt(ms, id, k, l) && forall i: nat, j: nat :: CallAt(ms, id, i, j) ==> !After(k, l, i, j)
  }

  ghost predicate CallIn(blocks: seq<Block>, id: string, l: nat) {
    l < |blocks| && blocks[l].ToolUse? && blocks[l].id == id
  }

  ghost predicate LastIn(blocks: seq<Block>, id: string, l: nat) {
    CallIn(blocks, id, l) && forall j: nat :: l < j < |blocks| ==> !CallIn(blocks, id, j)
  }

  ghost predicate FirstIn(blocks: seq<Block>, id: string, l: nat) {
    CallIn(blocks, id, l) && forall j: nat :: j < l ==> !CallIn(blocks, id, j)
  }

  lemma {:induction false} LastNameIn(blocks: seq<Block>, id: string) returns (l: nat)
    ensures id in NamesIn(blocks) <==> exists j: nat :: CallIn(blocks, id, j)
    ensures id in NamesIn(blocks) ==> LastIn(blocks, id, l) && NamesIn(blocks)[id] == blocks[l].name
  {
    l := 0;
    if blocks != [] {
      var n := |blocks| - 1;
      var init := blocks[..n];
      l := LastNameIn(init, id);
      assert forall j: nat :: j < n ==> (CallIn(init, id, j) <==> CallIn(blocks, id, j));
      if CallIn(blocks, id, n) {
        l := n;
      }
    }
  }

  lemma CallAtSnoc(ms: seq<Message>, id: string, k: nat, l: nat)
    requires ms != []
    ensures
      var n := |ms| - 1;
      CallAt(ms, id, k, l) <==> CallAt(ms[..n], id, k, l) || (k == n && CallIn(ms[n].content, id, l))
  {
    var n := |ms| - 1;
    assert k < n ==> ms[..n][k] == ms[k];
  }

  /** The index names, for every id called at all, the tool of the last call with that id. */
  lemma {:induction false} LastName(ms: seq<Message>, id: string) returns (k: nat, l: nat)
    ensures id in ToolNames(ms) <==> exists i: nat, j: nat :: CallAt(ms, id, i, j)
    ensures id in ToolNames(ms) ==> LastCall(ms, id, k, l) && ToolNames(ms)[id] == ms[k].content[l].name
  {
    k, l := 0, 0;
    if ms != [] {
      var n := |ms| - 1;
      var last := ms[n].content;
      k, l := LastName(ms[..n], id);
      var l' := LastNameIn(last, id);
      forall i: nat, j: nat
        ensures CallAt(ms, id, i, j) <==> CallAt(ms[..n], id, i, j) || (i == n && CallIn(last, id, j))
        ensures CallAt(ms[..n], id, i, j) ==> i < n
      {
        CallAtSnoc(ms, id, i, j);
      }
      hide CallAt, NamesIn;
      if id in NamesIn(last) {
        k, l := n, l';
        assert CallAt(ms, id, n, l');
      } else if id in ToolNames(ms[..n]) {
        assert CallAt(ms, id, k, l);
        assert ms[..n][k] == ms[k];
      }
    }
  }

  lemma LastCallIsUnique(ms: seq<Message>, id: string, k: nat, l: nat, i: nat, j: nat)
    requires LastCall(ms, id, k, l) && LastCall(ms, id, i, j)
    ensures k == i && l == j
  {
  }

  lemma {:induction false} FirstInputFound(blocks: seq<Block>, id: string) returns (l: nat)
    ensures FirstInputIn(blocks, id).Some? <==> exists j: nat :: CallIn(blocks, id, j)
    ensures FirstInputIn(blocks, id).Some? ==>
      FirstIn(blocks, id, l) && FirstInputIn(blocks, id) == Some(blocks[l].input)
  {
    l := 0;
    if blocks != [] && !CallIn(blocks, id, 0) {
      var rest := blocks[1..];
      l := FirstInputFound(rest, id);
      assert forall j: nat :: j < |rest| ==> (CallIn(rest, id, j) <==> CallIn(blocks, id, j + 1));
      assert forall j: nat :: 0 < j < |blocks| ==> (CallIn(blocks, id, j) <==> CallIn(rest, id, j - 1));
      l := l + 1;
    }
  }

  lemma CallAtCons(ms: seq<Message>, id: string, k: nat, l: nat)
    requires ms != []
    ensures CallAt(ms, id, k, l) <==> if k == 0 then CallIn(ms[0].content, id, l) else CallAt(ms[1..], id, k - 1, l)
  {
    assert 0 < k < |ms| ==> ms[1..][k - 1] == ms[k];
  }

  lemma {:induction false} FirstInputIs(ms: seq<Message>, id: string) returns (k: nat, l: nat)
    ensures FirstInput(ms, id).Some? <==> exists i: nat, j: nat :: CallAt(ms, id, i, j)
    ensures FirstInput(ms, id).Some? ==>
      FirstCall(ms, id, k, l) && FirstInput(ms, id) == Some(ms[k].content[l].input)
  {
    k, l := 0, 0;
    if ms != [] {
      var l' := FirstInputFound(ms[0].content, id);
      var k0, l0 := FirstInputIs(ms[1..], id);
      forall i: nat, j: nat
        ensures CallAt(ms, id, i, j) <==> if i == 0 then CallIn(ms[0].content, id, j) else CallAt(ms[1..], id, i - 1, j)
      {
        CallAtCons(ms, id, i, j);
      }
      hide CallAt, FirstInputIn;
      if FirstInputIn(ms[0].content, id).Some? {
        k, l := 0, l';
        assert CallAt(ms, id, 0, l');
      } else if FirstInput(ms[1..], id).Some? {
        k, l := k0 + 1, l0;
        assert CallAt(ms, id, k, l);
        assert ms[1..][k0] == ms[k];
      } else {
        LaterCalls(ms, id);
      }
    }
  }

  lemma LaterCalls(ms: seq<Message>, id: string)
    requires ms != []
    ensures (exists i: nat, j: nat :: CallAt(ms, id, i, j)) ==>
      (exists j: nat :: CallIn(ms[0].content, id, j)) || exists i: nat, j: nat :: CallAt(ms[1..], id, i, j)
  {
    if i: nat, j: nat :| CallAt(ms, id, i, j) {
      CallAtCons(ms, id, i, j);
      if i > 0 {
        assert CallAt(ms[1..], id, i - 1, j);
      }
    }
  }

  // ----- Read results -----

  ghost function TextOf(codec: Codec, content: ToolResultContent): string {
    match content
    case PlainText(text) => text
    case JsonValue(value) => codec.render(value)
  }

  /** The text parses as an object whose `_redacted` field names a read-only tool. */
  ghost predicate SaysRedacted(codec: Codec, text: string) {
    match codec.parse(text)
    case Some(Object(fields)) =>
      "_redacted" in fields && fields["_redacted"].String? && ReadOnly(fields["_redacted"].s)
    case _ => false
  }

  /** At (i, j) stands a result, not folded yet, whose last call was of the read-only tool `tool`. */
  ghost predicate ReadResult(codec: Codec, ms: seq<Message>, i: nat, j: nat, tool: string, text: string) {
    && Position(ms, i, j) && ms[i].content[j].ToolResult?
    && text == TextOf(codec, ms[i].content[j].content) && !SaysRedacted(codec, text)
    && ReadOnly(tool)
    && exists k: nat, l: nat :: LastCall(ms, ms[i].content[j].toolUseId, k, l) && ms[k].content[l].name == tool
  }

  /** A block has a key exactly when it is a read result, and the key is its tool and the hash of its text. */
  lemma KeyIff(codec: Codec, ms: seq<Message>, i: nat, j: nat, tool: string, hash: string)
    requires Position(ms, i, j)
    ensures KeyAt(codec, ms, i, j) == Some(Key(tool, hash)) <==>
      exists text :: ReadResult(codec, ms, i, j, tool, text) && hash == codec.hash(text)
  {
    var b := ms[i].content[j];
    if b.ToolResult? {
      var k, l := LastName(ms, b.toolUseId);
      hide ToolNames;
      var text := TextOf(codec, b.content);
      forall k': nat, l': nat | LastCall(ms, b.toolUseId, k', l')
        ensures k' == k && l' == l && b.toolUseId in ToolNames(ms)
      {
        assert CallAt(ms, b.toolUseId, k', l');
        LastCallIsUnique(ms, b.toolUseId, k, l, k', l');
      }
      hide LastCall;
      assert ReadResult(codec, ms, i, j, tool, text) <==>
        !SaysRedacted(codec, text) && ReadOnly(tool) && b.toolUseId in ToolNames(ms) && ToolNames(ms)[b.toolUseId] == tool;
    }
  }

  // ----- Folding -----

  /** (k, l) holds the same read as (i, j), by tool and hash of the text. */
  ghost predicate SameRead(codec: Codec, ms: seq<Message>, i: nat, j: nat, k: nat, l: nat) {
    exists tool, text, text' ::
      ReadResult(codec, ms, i, j, tool, text) && ReadResult(codec, ms, k, l, tool, text')
      && codec.hash(text) == codec.hash(text')
  }

  lemma SameReadIff(codec: Codec, ms: seq<Message>, i: nat, j: nat, k: nat, l: nat)
    requires Position(ms, i, j) && Position(ms, k, l)
    ensures SameKey(codec, ms, i, j, k, l) <==> SameRead(codec, ms, i, j, k, l)
  {
    hide KeyAt, ReadResult;
    if SameKey(codec, ms, i, j, k, l) {
      var key := KeyAt(codec, ms, i, j).value;
      KeyIff(codec, ms, i, j, key.tool, key.hash);
      KeyIff(codec, ms, k, l, key.tool, key.hash);
      var text :| ReadResult(codec, ms, i, j, key.tool, text) && key.hash == codec.hash(text);
      var text' :| ReadResult(codec, ms, k, l, key.tool, text') && key.hash == codec.hash(text');
      assert SameRead(codec, ms, i, j, k, l);
    }
    if SameRead(codec, ms, i, j, k, l) {
      var tool, text, text' :|
        ReadResult(codec, ms, i, j, tool, text) && ReadResult(codec, ms, k, l, tool, text')
        && codec.hash(text) == codec.hash(text');
      KeyIff(codec, ms, i, j, tool, codec.hash(text));
      KeyIff(codec, ms, k, l, tool, codec.hash(text));
    }
  }

  /** The same read stands in a later message, or earlier in the same message. */
  ghost predicate ReadAgain(codec: Codec, ms: seq<Message>, i: nat, j: nat) {
    exists k: nat, l: nat :: (k > i || (k == i && l < j)) && SameRead(codec, ms, i, j, k, l)
  }

  lemma RepeatIff(codec: Codec, ms: seq<Message>, i: nat, j: nat)
    requires Position(ms, i, j)
    ensures IsRepeat(codec, ms, i, j) <==> ReadAgain(codec, ms, i, j)
  {
    hide SameKey, ReadResult;
    forall k: nat, l: nat | Position(ms, k, l)
      ensures SameKey(codec, ms, i, j, k, l) <==> SameRead(codec, ms, i, j, k, l)
    {
      SameReadIff(codec, ms, i, j, k, l);
    }
    forall k: nat, l: nat | SameRead(codec, ms, i, j, k, l)
      ensures Position(ms, k, l)
    {
      ReadIsThere(codec, ms, i, j, k, l);
    }
  }

  lemma ReadIsThere(codec: Codec, ms: seq<Message>, i: nat, j: nat, k: nat, l: nat)
    requires SameRead(codec, ms, i, j, k, l)
    ensures Position(ms, k, l)
  {
  }

  /** The `path` argument of the first call with the id, or nothing if it has none. */
  ghost predicate PathArgument(ms: seq<Message>, id: string, path: string) {
    exists k: nat, l: nat :: FirstCall(ms, id, k, l) &&
      path == match ms[k].content[l].input
        case Object(fields) => if "path" in fields && fields["path"].String? then fields["path"].s else ""
        case _ => ""
  }

  /** What a folded read becomes. */
  ghost predicate FoldedInto(codec: Codec, ms: seq<Message>, was: Block, now: Block, tool: string, text: string) {
    && was.ToolResult?
    && exists path :: PathArgument(ms, was.toolUseId, path) && now == ToolResult(was.toolUseId, PlainText(codec.render(
         Object(map["_redacted" := String(tool), "path" := String(path), "content_hash" := String(codec.hash(text)),
                    "note" := String("see later identical read")]))), was.isError)
  }

  /**
   * Deduplication changes a block if and only if it is a read result and the same read stands in a later message or
   * earlier in the same one; it then becomes a marker with its tool, the path of the first call, and its hash.
   */
  lemma FoldedIff(codec: Codec, ms: seq<Message>, i: nat, j: nat)
    requires RoundTrips(codec) && Position(ms, i, j)
    ensures
      var was, now := ms[i].content[j], Deduped(codec, ms)[i].content[j];
      && (now != was <==> ReadAgain(codec, ms, i, j))
      && (now != was ==> exists tool, text :: ReadResult(codec, ms, i, j, tool, text) && FoldedInto(codec, ms, was, now, tool, text))
  {
    DedupChangesExactlyRepeats(codec, ms, i, j);
    RepeatIff(codec, ms, i, j);
    var was := ms[i].content[j];
    if IsRepeat(codec, ms, i, j) {
      var key := KeyAt(codec, ms, i, j).value;
      KeyIff(codec, ms, i, j, key.tool, key.hash);
      var text :| ReadResult(codec, ms, i, j, key.tool, text) && key.hash == codec.hash(text);
      MarkerIs(codec, ms, i, j, key.tool, text);
    }
  }

  lemma MarkerIs(codec: Codec, ms: seq<Message>, i: nat, j: nat, tool: string, text: string)
    requires ReadResult(codec, ms, i, j, tool, text)
    ensures
      var was := ms[i].content[j];
      FoldedInto(codec, ms, was, FoldedBlock(codec, ms, was, Key(tool, codec.hash(text))), tool, text)
  {
    var was := ms[i].content[j];
    var k, l := FirstInputIs(ms, was.toolUseId);
    var k', l' :| LastCall(ms, was.toolUseId, k', l');
    assert CallAt(ms, was.toolUseId, k', l');
    hide FirstInput, LastCall, CallAt;
    assert PathArgument(ms, was.toolUseId, PathOf(ms, was.toolUseId));
  }

  /** The count returned is the number of changed blocks. */
  lemma CountIsChanges(codec: Codec, ms: seq<Message>, i: nat, j: nat)
    requires RoundTrips(codec)
    ensures (i, j) in FoldedPositions(codec, ms) <==>
      Position(ms, i, j) && Deduped(codec, ms)[i].content[j] != ms[i].content[j]
  {
    if Position(ms, i, j) {
      DedupChangesExactlyRepeats(codec, ms, i, j);
    }
  }
}
