/** What repair makes up for lost tool results, block by block. */
module MadeUpResults {
  import opened Sequences
  import opened Transcript
  import opened Sanitize

  /** The calls among `blocks` that no result of `reply` answers, in call order. */
  ghost function LostCalls(blocks: seq<Block>, reply: seq<Block>): seq<Block> {
    Filter((b: Block) => b.ToolUse? && b.id !in ResultIds(reply), blocks)
  }

  /** One failed result for each lost call, in call order. */
  ghost predicate StandIn(made: seq<Block>, lost: seq<Block>) {
    && |made| == |lost|
    && forall k :: 0 <= k < |made| ==>
         && lost[k].ToolUse?
         && made[k] == ToolResult(lost[k].id, PlainText("[Tool result was lost during context compaction]"), true)
  }

  lemma {:induction false} LostCallsAreCalls(blocks: seq<Block>, reply: seq<Block>)
    ensures forall k :: 0 <= k < |LostCalls(blocks, reply)| ==>
      LostCalls(blocks, reply)[k].ToolUse? && LostCalls(blocks, reply)[k].id !in ResultIds(reply)
  {
    var lost := LostCalls(blocks, reply);
    FilterMembers((b: Block) => b.ToolUse? && b.id !in ResultIds(reply), blocks);
    hide Filter;
    forall k | 0 <= k < |lost|
      ensures lost[k].ToolUse? && lost[k].id !in ResultIds(reply)
    {
      assert lost[k] in lost;
    }
  }

  lemma LostSnoc(blocks: seq<Block>, b: Block, reply: seq<Block>)
    ensures LostCalls(blocks + [b], reply) ==
      LostCalls(blocks, reply) + if b.ToolUse? && b.id !in ResultIds(reply) then [b] else []
  {
    hide Filter;
    FilterSnoc((b: Block) => b.ToolUse? && b.id !in ResultIds(reply), blocks, b);
  }

  lemma UnansweredSnoc(blocks: seq<Block>, b: Block, answers: set<string>)
    ensures Unanswered(blocks + [b], answers) ==
      Unanswered(blocks, answers) + if b.ToolUse? && b.id !in answers then [b.id] else []
  {
    var ids := UseIdList(blocks);
    assert (blocks + [b])[..|blocks|] == blocks;
    assert UseIdList(blocks + [b]) == ids + if b.ToolUse? then [b.id] else [];
    hide UseIdList, Filter;
    if b.ToolUse? {
      FilterSnoc(id => id !in answers, ids, b.id);
    } else {
      assert ids + [] == ids;
    }
  }

  lemma {:induction false} PatchStandsIn(blocks: seq<Block>, reply: seq<Block>)
    ensures StandIn(Patch(blocks, ResultIds(reply)), LostCalls(blocks, reply))
  {
    var answers := ResultIds(reply);
    if blocks == [] {
      assert UseIdList(blocks) == [];
      assert Unanswered(blocks, answers) == [];
      assert LostCalls(blocks, reply) == [];
    } else {
      var init, b := blocks[..|blocks| - 1], blocks[|blocks| - 1];
      assert blocks == init + [b];
      PatchStandsIn(init, reply);
      UnansweredSnoc(init, b, answers);
      LostSnoc(init, b, reply);
      hide Unanswered, LostCalls, ResultIds;
      var made, lost := Patch(init, answers), LostCalls(init, reply);
      assert Patch(blocks, answers) == made + if b.ToolUse? && b.id !in answers then [SyntheticResult(b.id)] else [];
    }
  }

  /** What pass 4 does to the message at `i` of an alternating history. */
  ghost predicate AnsweredFor(ms: seq<Message>, i: nat, out: Message)
    requires i < |ms|
  {
    && out.role == ms[i].role
    && exists made :: StandsBefore(ms, i, made) && out.content == made + ms[i].content
  }

  ghost predicate StandsBefore(ms: seq<Message>, i: nat, made: seq<Block>)
    requires i < |ms|
  {
    StandIn(made, if i > 0 && ms[i].role == User then LostCalls(ms[i - 1].content, ms[i].content) else [])
  }

  lemma PatchAtStandsIn(ms: seq<Message>, i: nat)
    requires Alternates(ms) && i < |ms|
    ensures StandsBefore(ms, i, PatchAt(ms, i))
  {
    hide Patch, LostCalls, ResultIds;
    if i > 0 && ms[i].role == User {
      assert TurnChangesAt(ms, i);
      PatchStandsIn(ms[i - 1].content, ms[i].content);
    }
  }

  /**
   * On an alternating history, pass 4 leaves every message where it is and puts before the blocks of user message `i`,
   * one for one and in call order, a failed result for each call of message `i - 1` that message `i` does not answer.
   * A message is appended exactly when the last one is the assistant's and makes calls: a result for each of them.
   */
  lemma LostResultsAreMadeUp(ms: seq<Message>)
    requires Alternates(ms)
    ensures
      var out := PairUses(ms);
      && |out| >= |ms|
      && (forall i :: 0 <= i < |ms| ==> AnsweredFor(ms, i, out[i]))
      && var open := if ms != [] && ms[|ms| - 1].role == Assistant then LostCalls(ms[|ms| - 1].content, []) else [];
         if open == [] then |out| == |ms|
         else |out| == |ms| + 1 && out[|ms|].role == User && StandIn(out[|ms|].content, open)
  {
    PairUsesOfAlternating(ms);
    var out := PairUses(ms);
    forall i | 0 <= i < |ms|
      ensures AnsweredFor(ms, i, out[i])
    {
      PatchAtStandsIn(ms, i);
      assert out[i] == Patched(ms)[i];
    }
    if ms != [] {
      PatchStandsIn(ms[|ms| - 1].content, []);
      assert ResultIds([]) == {};
    }
  }

  // ----- No id is answered twice -----

  ghost predicate CallsOnce(blocks: seq<Block>) {
    forall i, j :: 0 <= i < j < |blocks| && blocks[i].ToolUse? && blocks[j].ToolUse? ==> blocks[i].id != blocks[j].id
  }

  ghost predicate AnswersOnce(blocks: seq<Block>) {
    forall i, j :: 0 <= i < j < |blocks| && blocks[i].ToolResult? && blocks[j].ToolResult? ==>
      blocks[i].toolUseId != blocks[j].toolUseId
  }

  lemma {:induction false} LostCallsOnce(blocks: seq<Block>, reply: seq<Block>)
    requires CallsOnce(blocks)
    ensures CallsOnce(LostCalls(blocks, reply))
    ensures forall b :: b in LostCalls(blocks, reply) ==> b in blocks
  {
    if blocks == [] {
      assert LostCalls(blocks, reply) == [];
    } else {
      var init, b := blocks[..|blocks| - 1], blocks[|blocks| - 1];
      assert blocks == init + [b];
      assert forall i :: 0 <= i < |init| ==> init[i] == blocks[i];
      LostCallsOnce(init, reply);
      LostSnoc(init, b, reply);
      hide LostCalls, ResultIds;
      assert forall c :: c in init && c.ToolUse? && b.ToolUse? ==> c.id != b.id;
    }
  }

  lemma MadeUpOnce(made: seq<Block>, calls: seq<Block>, reply: seq<Block>)
    requires CallsOnce(calls) && AnswersOnce(reply) && StandIn(made, LostCalls(calls, reply))
    ensures AnswersOnce(made + reply)
  {
    LostCallsOnce(calls, reply);
    LostCallsAreCalls(calls, reply);
    var lost, all := LostCalls(calls, reply), made + reply;
    hide LostCalls;
    forall i, j | 0 <= i < j < |all| && all[i].ToolResult? && all[j].ToolResult?
      ensures all[i].toolUseId != all[j].toolUseId
    {
      if j < |made| {
        assert lost[i].id != lost[j].id;
      } else if i < |made| {
        assert all[j] == reply[j - |made|] && all[j] in reply;
        assert all[j].toolUseId in ResultIds(reply);
      } else {
        assert all[i] == reply[i - |made|] && all[j] == reply[j - |made|];
      }
    }
  }

  /** If no settled message calls or answers an id twice, no repaired message answers an id twice. */
  lemma NoIdIsAnsweredTwice(ms: seq<Message>)
    requires forall m :: m in Settled(ms) ==> CallsOnce(m.content) && AnswersOnce(m.content)
    ensures forall m :: m in Repair(ms) ==> AnswersOnce(m.content)
  {
    var settled := Settled(ms);
    SettledIsTethered(ms);
    hide Settled, PairUses, CallsOnce, AnswersOnce, Tethered;
    forall m | m in PairUses(settled)
      ensures AnswersOnce(m.content)
    {
      PairingAnswersOnce(settled, m);
    }
    PrefaceAnswersOnce(PairUses(settled));
  }

  lemma PrefaceAnswersOnce(ms: seq<Message>)
    ensures forall m :: m in Preface(ms) ==> AnswersOnce(m.content)
  {
  }

  lemma PairingAnswersOnce(ms: seq<Message>, m: Message)
    requires Alternates(ms) && m in PairUses(ms)
    requires forall m :: m in ms ==> CallsOnce(m.content) && AnswersOnce(m.content)
    ensures AnswersOnce(m.content)
  {
    hide PairUses, LostCalls, CallsOnce, AnswersOnce, AnsweredFor, StandIn, Alternates;
    LostResultsAreMadeUp(ms);
    var out := PairUses(ms);
    var i :| 0 <= i < |out| && out[i] == m;
    if i < |ms| {
      assert AnsweredFor(ms, i, out[i]);
      PairedOnce(ms, i, m);
    } else {
      assert i == |ms| && ms != [] && ms[|ms| - 1] in ms;
      ClosedOnce(ms, m);
    }
  }

  lemma ClosedOnce(ms: seq<Message>, m: Message)
    requires ms != [] && CallsOnce(ms[|ms| - 1].content) && StandIn(m.content, LostCalls(ms[|ms| - 1].content, []))
    ensures AnswersOnce(m.content)
  {
    hide LostCalls;
    MadeUpOnce(m.content, ms[|ms| - 1].content, []);
    assert m.content + [] == m.content;
  }

  lemma PairedOnce(ms: seq<Message>, i: nat, out: Message)
    requires i < |ms| && AnsweredFor(ms, i, out)
    requires forall m :: m in ms ==> CallsOnce(m.content) && AnswersOnce(m.content)
    ensures AnswersOnce(out.content)
  {
    hide LostCalls;
    var made :| StandsBefore(ms, i, made) && out.content == made + ms[i].content;
    assert ms[i] in ms;
    if i > 0 && ms[i].role == User {
      assert ms[i - 1] in ms;
      MadeUpOnce(made, ms[i - 1].content, ms[i].content);
    } else {
      assert made + ms[i].content == ms[i].content;
    }
  }
}
