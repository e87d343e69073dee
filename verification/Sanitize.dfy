/** Repair of a message history so that it meets the positional rule of the Anthropic Messages API. */
module Sanitize {
  import opened Sequences
  import opened Text
  import opened Transcript

  // ----- What the API demands -----

  ghost predicate TurnChangesAt(ms: seq<Message>, i: nat)
    requires 0 < i < |ms|
  {
    ms[i - 1].role != ms[i].role
  }

  ghost predicate Alternates(ms: seq<Message>) {
    forall i :: 0 < i < |ms| ==> TurnChangesAt(ms, i)
  }

  ghost predicate AnchoredAt(ms: seq<Message>, i: nat)
    requires i < |ms|
  {
    ResultIds(ms[i].content) <= UsesBefore(ms, i)
  }

  /** Every tool result answers a tool call of the message right before it. */
  ghost predicate ResultsAnchored(ms: seq<Message>) {
    forall i :: 0 <= i < |ms| ==> AnchoredAt(ms, i)
  }

  ghost predicate AnsweredAt(ms: seq<Message>, i: nat)
    requires i < |ms|
  {
    ms[i].role == Assistant ==> UseIds(ms[i].content) <= AnswersAfter(ms, i)
  }

  /** Every assistant tool call is answered in the user message right after it. */
  ghost predicate UsesAnswered(ms: seq<Message>) {
    forall i :: 0 <= i < |ms| ==> AnsweredAt(ms, i)
  }

  ghost predicate ApiValid(ms: seq<Message>) {
    && ms != []
    && ms[0].role == User
    && Alternates(ms)
    && ResultsAnchored(ms)
    && UsesAnswered(ms)
  }

  // ----- Pass 1 -----

  predicate IsBlankText(b: Block) {
    b.TextBlock? && IsBlank(b.text)
  }

  /** Some block of the message is more than blank text. */
  predicate HasSubstance(m: Message) {
    exists b :: b in m.content && !IsBlankText(b)
  }

  function WithoutBlank(ms: seq<Message>): seq<Message> {
    Filter(HasSubstance, ms)
  }

  method RemoveEmptyMessages(log: MessageLog)
    modifies log
    ensures log.messages == WithoutBlank(old(log.messages))
  {
    var kept: seq<Message> := [];
    for i := 0 to |log.messages|
      invariant kept == WithoutBlank(log.messages[..i])
      invariant log.messages == old(log.messages)
    {
      assert log.messages[..i + 1][..i] == log.messages[..i];
      if HasSubstance(log.messages[i]) {
        kept := kept + [log.messages[i]];
      }
    }
    assert log.messages[..|log.messages|] == log.messages;
    log.messages := kept;
  }

  // ----- Pass 2 -----

  /** `done` followed by `m`, or with `m` folded into its last message when the speaker is the same. */
  function Extend(done: seq<Message>, m: Message): seq<Message> {
    if done != [] && done[|done| - 1].role == m.role
    then done[..|done| - 1] + [Message(m.role, done[|done| - 1].content + m.content)]
    else done + [m]
  }

  function Merge(ms: seq<Message>): seq<Message> {
    if ms == [] then [] else Extend(Merge(ms[..|ms| - 1]), ms[|ms| - 1])
  }

  /** The list with the message after position `i` folded into the one at `i`. */
  function FoldNext(ms: seq<Message>, i: nat): (r: seq<Message>)
    requires i + 1 < |ms|
    ensures |r| == |ms| - 1
    ensures ms[i].role == ms[i + 1].role ==> r[..i + 1] == Extend(ms[..i + 1], ms[i + 1])
    ensures r[i + 1..] == ms[i + 2..]
  {
    var grown := Message(ms[i].role, ms[i].content + ms[i + 1].content);
    assert ms[..i + 1][..i] == ms[..i];
    ms[..i] + [grown] + ms[i + 2..]
  }

  /** The merge loop is at `i`: what it has passed is merged, the rest of `was` is untouched. */
  ghost predicate Merging(was: seq<Message>, ms: seq<Message>, i: nat) {
    && i < |ms| <= |was|
    && ms[..i + 1] == Merge(was[..|was| - |ms| + i + 1])
    && ms[i + 1..] == was[|was| - |ms| + i + 1..]
  }

  lemma MergeOneMore(was: seq<Message>, ms: seq<Message>, i: nat)
    requires Merging(was, ms, i) && i + 1 < |ms|
    ensures
      var taken := |was| - |ms| + i + 1;
      && Merge(was[..taken + 1]) == Extend(ms[..i + 1], ms[i + 1])
      && ms[i + 2..] == was[taken + 1..]
  {
    var taken := |was| - |ms| + i + 1;
    assert was[..taken + 1][..taken] == was[..taken];
    assert ms[i + 1] == ms[i + 1..][0] == was[taken..][0];
    assert ms[i + 2..] == ms[i + 1..][1..] == was[taken..][1..];
  }

  lemma FoldedIsExtended(ms: seq<Message>, i: nat)
    requires i + 1 < |ms| && ms[i].role == ms[i + 1].role
    ensures FoldNext(ms, i)[..i + 1] == Extend(ms[..i + 1], ms[i + 1])
    ensures FoldNext(ms, i)[i + 1..] == ms[i + 2..]
  {
    var r, done := FoldNext(ms, i), ms[..i + 1];
    assert done[..|done| - 1] == ms[..i];
    assert r[..i + 1] == ms[..i] + [r[i]];
  }

  lemma MergeStep(was: seq<Message>, ms: seq<Message>, i: nat)
    requires Merging(was, ms, i) && i + 1 < |ms|
    ensures if ms[i].role == ms[i + 1].role then Merging(was, FoldNext(ms, i), i) else Merging(was, ms, i + 1)
  {
    hide Merge;
    MergeOneMore(was, ms, i);
    if ms[i].role == ms[i + 1].role {
      FoldedIsExtended(ms, i);
    } else {
      assert ms[..i + 2] == ms[..i + 1] + [ms[i + 1]];
    }
  }

  lemma MergeStart(was: seq<Message>)
    requires was != []
    ensures Merging(was, was, 0)
  {
    assert was[..1][..0] == [] && was[..1] == [was[0]];
  }

  lemma MergeEnd(was: seq<Message>, ms: seq<Message>, i: nat)
    requires Merging(was, ms, i) && i + 1 == |ms|
    ensures ms == Merge(was)
  {
    assert ms[..i + 1] == ms && was[..|was|] == was;
  }

  method MergeConsecutiveSameRole(log: MessageLog)
    modifies log
    ensures log.messages == Merge(old(log.messages))
  {
    ghost var was := log.messages;
    if |log.messages| < 2 {
      if |was| == 1 {
        MergeStart(was);
        MergeEnd(was, was, 0);
      }
      return;
    }
    MergeStart(was);
    var i := 0;
    while i + 1 < |log.messages|
      invariant Merging(was, log.messages, i)
      decreases |log.messages| - i
    {
      MergeStep(was, log.messages, i);
      if log.messages[i].role == log.messages[i + 1].role {
        log.messages := FoldNext(log.messages, i);
      } else {
        i := i + 1;
      }
    }
    MergeEnd(was, log.messages, i);
  }

  // ----- Pass 3 -----

  /** The blocks left when results that answer none of `uses` are dropped. */
  function KeepAnswering(blocks: seq<Block>, uses: set<string>): seq<Block> {
    Filter((b: Block) => b.ToolResult? ==> b.toolUseId in uses, blocks)
  }

  /** Every message without the results that answer nothing in the message before it. */
  function Anchor(ms: seq<Message>): seq<Message> {
    seq(|ms|, i requires 0 <= i < |ms| => Message(ms[i].role, KeepAnswering(ms[i].content, UsesBefore(ms, i))))
  }

  predicate HasContent(m: Message) {
    m.content != []
  }

  function DropOrphans(ms: seq<Message>): seq<Message> {
    Filter(HasContent, Anchor(ms))
  }

  lemma AnchorAt(ms: seq<Message>)
    ensures |Anchor(ms)| == |ms|
    ensures forall i :: 0 <= i < |ms| ==>
      Anchor(ms)[i] == Message(ms[i].role, KeepAnswering(ms[i].content, UsesBefore(ms, i)))
  {
  }

  method FixOrphanToolResults(log: MessageLog)
    modifies log
    ensures log.messages == DropOrphans(old(log.messages))
  {
    hide KeepAnswering, UseIds, ResultIds, Filter, Anchor;
    ghost var was := log.messages;
    AnchorAt(was);
    for i := 0 to |log.messages|
      invariant |log.messages| == |was| == |Anchor(was)|
      invariant forall k :: 0 <= k < i ==> log.messages[k] == Anchor(was)[k]
      invariant forall k :: i <= k < |was| ==> log.messages[k] == was[k]
    {
      if i > 0 {
        KeepAnsweringKeepsUses(was[i - 1].content, UsesBefore(was, i - 1));
      }
      var previousUses := UsesBefore(log.messages, i);
      var kept := KeepAnswering(log.messages[i].content, previousUses);
      log.messages := log.messages[i := Message(log.messages[i].role, kept)];
    }
    assert log.messages == Anchor(was);
    RetainNonEmpty(log);
  }

  method RetainNonEmpty(log: MessageLog)
    modifies log
    ensures log.messages == Filter(HasContent, old(log.messages))
  {
    var kept: seq<Message> := [];
    for i := 0 to |log.messages|
      invariant log.messages == old(log.messages)
      invariant kept == Filter(HasContent, log.messages[..i])
    {
      assert log.messages[..i + 1][..i] == log.messages[..i];
      if log.messages[i].content != [] {
        kept := kept + [log.messages[i]];
      }
    }
    assert log.messages[..|log.messages|] == log.messages;
    log.messages := kept;
  }

  // ----- Pass 4 -----

  function UseIdList(blocks: seq<Block>): (ids: seq<string>)
    ensures forall id :: id in ids <==> id in UseIds(blocks)
  {
    if blocks == [] then []
    else
      var init, last := blocks[..|blocks| - 1], blocks[|blocks| - 1];
      IdsConcat(init, [last]);
      assert blocks == init + [last];
      UseIdList(init) + if last.ToolUse? then [last.id] else []
  }

  /** Calls in `blocks` that `answers` leaves open, in call order. */
  function Unanswered(blocks: seq<Block>, answers: set<string>): (ids: seq<string>)
    ensures forall id :: id in ids <==> id in UseIds(blocks) - answers
  {
    var open := id => id !in answers;
    FilterMembers(open, UseIdList(blocks));
    Filter(open, UseIdList(blocks))
  }

  const LOST_RESULT := "[Tool result was lost during context compaction]"

  function SyntheticResult(id: string): Block {
    ToolResult(id, PlainText(LOST_RESULT), true)
  }

  function SyntheticResults(ids: seq<string>): seq<Block> {
    seq(|ids|, i requires 0 <= i < |ids| => SyntheticResult(ids[i]))
  }

  /** The results pass 4 makes up for an assistant message followed by `answers`. */
  function Patch(blocks: seq<Block>, answers: set<string>): seq<Block> {
    SyntheticResults(Unanswered(blocks, answers))
  }

  function PairUses(ms: seq<Message>): seq<Message> {
    if ms == [] then []
    else if ms[0].role != Assistant then [ms[0]] + PairUses(ms[1..])
    else
      var patch := Patch(ms[0].content, AnswersAfter(ms, 0));
      if patch == [] then [ms[0]] + PairUses(ms[1..])
      else if |ms| > 1 && ms[1].role == User then
        [ms[0], Message(User, patch + ms[1].content)] + PairUses(ms[2..])
      else [ms[0], Message(User, patch)] + PairUses(ms[1..])
  }

  /** The list after the pairing loop has looked at position `i`. */
  function PairAt(ms: seq<Message>, i: nat): (r: seq<Message>)
    requires i < |ms|
    ensures |r| > i && r[..i + 1] == ms[..i + 1]
  {
    var patch := if ms[i].role == Assistant then Patch(ms[i].content, AnswersAfter(ms, i)) else [];
    if patch == [] then ms
    else if i + 1 < |ms| && ms[i + 1].role == User then
      ms[i + 1 := Message(User, patch + ms[i + 1].content)]
    else ms[..i + 1] + [Message(User, patch)] + ms[i + 1..]
  }

  lemma PairStep(ms: seq<Message>, i: nat)
    requires i < |ms|
    ensures PairUses(ms[i..]) == [ms[i]] + PairUses(PairAt(ms, i)[i + 1..])
  {
    hide Patch, UseIds, ResultIds;
    var here, next := ms[i..], PairAt(ms, i)[i + 1..];
    assert AnswersAfter(ms, i) == AnswersAfter(here, 0);
    var patch := if ms[i].role == Assistant then Patch(ms[i].content, AnswersAfter(ms, i)) else [];
    if patch == [] {
      assert here[1..] == next;
    } else {
      assert PairUses(next) == [next[0]] + PairUses(next[1..]);
      if i + 1 < |ms| && ms[i + 1].role == User {
        assert next[1..] == here[2..];
      } else {
        assert next[1..] == here[1..];
      }
    }
  }

  /** The pairing loop is at `i`: what it has passed is final. */
  ghost predicate Pairing(was: seq<Message>, ms: seq<Message>, i: nat) {
    && i <= |ms| <= |PairUses(was)|
    && ms[..i] + PairUses(ms[i..]) == PairUses(was)
  }

  lemma PairingStart(was: seq<Message>)
    ensures Pairing(was, was, 0)
  {
    PairUsesGrows(was);
    assert was[0..] == was && was[..0] == [];
  }

  lemma PairingStep(was: seq<Message>, ms: seq<Message>, i: nat)
    requires Pairing(was, ms, i) && i < |ms|
    ensures Pairing(was, PairAt(ms, i), i + 1)
  {
    hide PairUses, PairAt;
    PairStep(ms, i);
    var next := PairAt(ms, i);
    assert next[..i + 1] == ms[..i] + [ms[i]];
    Associative(ms[..i], [ms[i]], PairUses(next[i + 1..]));
    PairUsesGrows(next[i + 1..]);
  }

  lemma PairingEnd(was: seq<Message>, ms: seq<Message>)
    requires Pairing(was, ms, |ms|)
    ensures ms == PairUses(was)
  {
    assert ms[..|ms|] == ms && PairUses(ms[|ms|..]) == [];
  }

  method FixUnpairedToolUses(log: MessageLog)
    modifies log
    ensures log.messages == PairUses(old(log.messages))
  {
    ghost var was := log.messages;
    PairingStart(was);
    var i := 0;
    while i < |log.messages|
      invariant Pairing(was, log.messages, i)
      decreases |PairUses(was)| - i
    {
      PairingStep(was, log.messages, i);
      if log.messages[i].role == Assistant {
        var patch := Patch(log.messages[i].content, AnswersAfter(log.messages, i));
        if patch != [] {
          if i + 1 < |log.messages| && log.messages[i + 1].role == User {
            var content := InsertFront(patch, log.messages[i + 1].content);
            log.messages := log.messages[i + 1 := Message(User, content)];
          } else {
            log.messages := log.messages[..i + 1] + [Message(User, patch)] + log.messages[i + 1..];
          }
        }
      }
      i := i + 1;
    }
    PairingEnd(was, log.messages);
  }

  /** Inserting `patch` block by block at positions 0, 1, 2, ... puts it in front of `content`. */
  method InsertFront(patch: seq<Block>, content: seq<Block>) returns (r: seq<Block>)
    ensures r == patch + content
  {
    r := content;
    for offset := 0 to |patch|
      invariant r == patch[..offset] + content
    {
      r := r[..offset] + [patch[offset]] + r[offset..];
    }
  }

  lemma {:induction false} PairUsesGrows(ms: seq<Message>)
    ensures |PairUses(ms)| >= |ms|
    decreases |ms|
  {
    if ms != [] {
      PairUsesGrows(ms[1..]);
      if |ms| > 1 {
        PairUsesGrows(ms[2..]);
      }
    }
  }

  // ----- Pass 5 -----

  const PLACEHOLDER := "[System: conversation context]"

  function Preface(ms: seq<Message>): seq<Message> {
    if ms == [] || ms[0].role != User then [Message(User, [TextBlock(PLACEHOLDER)])] else []
  }

  method EnsureStartsWithUser(log: MessageLog)
    modifies log
    ensures log.messages == Preface(old(log.messages)) + old(log.messages)
  {
    if log.messages == [] || log.messages[0].role != User {
      log.messages := [Message(User, [TextBlock(PLACEHOLDER)])] + log.messages;
    }
  }

  // ----- The pipeline -----

  /** The history after passes 1 to 3 and the second merge: what the pairing pass starts from. */
  function Settled(ms: seq<Message>): seq<Message> {
    Merge(DropOrphans(Merge(WithoutBlank(ms))))
  }

  function Repair(ms: seq<Message>): seq<Message> {
    var paired := PairUses(Settled(ms));
    Preface(paired) + paired
  }

  method ValidateAndRepair(log: MessageLog)
    modifies log
    ensures log.messages == Repair(old(log.messages))
    ensures ApiValid(log.messages)
  {
    RepairIsValid(log.messages);
    RemoveEmptyMessages(log);
    MergeConsecutiveSameRole(log);
    FixOrphanToolResults(log);
    MergeConsecutiveSameRole(log);
    FixUnpairedToolUses(log);
    EnsureStartsWithUser(log);
  }

  // ----- Merging -----

  lemma {:induction false} MergeAlternates(ms: seq<Message>)
    ensures Alternates(Merge(ms))
    ensures (ms == []) == (Merge(ms) == [])
    ensures ms != [] ==> Merge(ms)[|Merge(ms)| - 1].role == ms[|ms| - 1].role
  {
    if ms != [] {
      var done := Merge(ms[..|ms| - 1]);
      MergeAlternates(ms[..|ms| - 1]);
      assert Merge(ms) == Extend(done, ms[|ms| - 1]);
      hide Merge;
      ExtendAlternates(done, ms[|ms| - 1]);
    }
  }

  lemma ExtendAlternates(done: seq<Message>, m: Message)
    requires Alternates(done)
    ensures Alternates(Extend(done, m))
    ensures var r := Extend(done, m); r != [] && r[|r| - 1].role == m.role
  {
    var r := Extend(done, m);
    forall i | 0 < i < |r|
      ensures TurnChangesAt(r, i)
    {
      assert i < |done| ==> TurnChangesAt(done, i);
    }
  }

  lemma {:induction false} MergeKeepsSpoken(ms: seq<Message>)
    ensures Spoken(Merge(ms)) == Spoken(ms)
  {
    if ms != [] {
      var init, m := ms[..|ms| - 1], ms[|ms| - 1];
      MergeKeepsSpoken(init);
      ExtendKeepsSpoken(Merge(init), m);
    }
  }

  lemma ExtendKeepsSpoken(done: seq<Message>, m: Message)
    ensures Spoken(Extend(done, m)) == Spoken(done) + SaidBy(m.role, m.content)
  {
    if done != [] && done[|done| - 1].role == m.role {
      var init, last := done[..|done| - 1], done[|done| - 1];
      var grown := Message(m.role, last.content + m.content);
      SaidByConcat(m.role, last.content, m.content);
      assert (init + [grown])[..|init|] == init;
    } else {
      assert (done + [m])[..|done|] == done;
    }
  }

  lemma MergeUnfolds(ms: seq<Message>)
    requires ms != []
    ensures Merge(ms) == Extend(Merge(ms[..|ms| - 1]), ms[|ms| - 1])
  {
  }

  lemma {:induction false} MergeOfAlternating(ms: seq<Message>)
    requires Alternates(ms)
    ensures Merge(ms) == ms
  {
    if ms != [] {
      MergeUnfolds(ms);
      hide Merge;
      var init, last := ms[..|ms| - 1], ms[|ms| - 1];
      AlternatesInit(ms);
      MergeOfAlternating(init);
      assert init != [] ==> init[|init| - 1].role != last.role;
      assert ms == init + [last];
    }
  }

  lemma AlternatesInit(ms: seq<Message>)
    requires Alternates(ms) && ms != []
    ensures Alternates(ms[..|ms| - 1]) && (|ms| > 1 ==> ms[|ms| - 2].role != ms[|ms| - 1].role)
  {
    var init := ms[..|ms| - 1];
    forall i | 0 < i < |init|
      ensures TurnChangesAt(init, i)
    {
      assert TurnChangesAt(ms, i);
    }
    assert |ms| > 1 ==> TurnChangesAt(ms, |ms| - 1);
  }

  lemma {:induction false} MergeKeepsContent(ms: seq<Message>)
    requires forall m :: m in ms ==> m.content != []
    ensures forall m :: m in Merge(ms) ==> m.content != []
  {
    if ms != [] {
      MergeKeepsContent(ms[..|ms| - 1]);
    }
  }

  // ----- Dropping orphans -----

  lemma KeepAnsweringKeepsUses(blocks: seq<Block>, uses: set<string>)
    ensures UseIds(KeepAnswering(blocks, uses)) == UseIds(blocks)
    ensures ResultIds(KeepAnswering(blocks, uses)) == ResultIds(blocks) * uses
  {
    var kept := KeepAnswering(blocks, uses);
    FilterMembers((b: Block) => b.ToolResult? ==> b.toolUseId in uses, blocks);
    assert forall b :: b in kept <==> b in blocks && (b.ToolResult? ==> b.toolUseId in uses);
    forall id | id in ResultIds(blocks) * uses
      ensures id in ResultIds(kept)
    {
      var b :| b in blocks && b.ToolResult? && b.toolUseId == id;
      assert b in kept;
    }
  }

  ghost predicate TetheredAt(ms: seq<Message>, i: nat)
    requires i < |ms|
  {
    || ResultIds(ms[i].content) == {}
    || (i > 0 && TurnChangesAt(ms, i) && ResultIds(ms[i].content) <= UseIds(ms[i - 1].content))
  }

  /** A message with results follows, under the other role, the message whose calls they answer. */
  ghost predicate Tethered(ms: seq<Message>) {
    forall i :: 0 <= i < |ms| ==> TetheredAt(ms, i)
  }

  lemma TetheredPrefix(ms: seq<Message>, k: nat)
    requires Tethered(ms) && k <= |ms|
    ensures Tethered(ms[..k])
  {
    forall i | 0 <= i < k
      ensures TetheredAt(ms[..k], i)
    {
      assert TetheredAt(ms, i);
    }
  }

  lemma TetheredExtended(init: seq<Message>, m: Message)
    requires Tethered(init) && TetheredAt(init + [m], |init|)
    ensures Tethered(init + [m])
  {
    forall i | 0 <= i < |init|
      ensures TetheredAt(init + [m], i)
    {
      assert TetheredAt(init, i);
    }
  }

  lemma AnchorTethers(ms: seq<Message>)
    requires Alternates(ms)
    ensures Tethered(Anchor(ms))
  {
    var a := Anchor(ms);
    forall i | 0 <= i < |a|
      ensures TetheredAt(a, i)
    {
      KeepAnsweringKeepsUses(ms[i].content, UsesBefore(ms, i));
      if i > 0 {
        assert TurnChangesAt(ms, i);
        KeepAnsweringKeepsUses(ms[i - 1].content, UsesBefore(ms, i - 1));
      }
    }
  }

  /** Dropping emptied messages cuts no tether: a message with calls is not empty. */
  lemma {:induction false} DroppingEmptiedKeepsTethers(ms: seq<Message>)
    requires Tethered(ms)
    ensures Tethered(Filter(HasContent, ms))
    ensures ms != [] && ms[|ms| - 1].content != [] ==>
      var kept := Filter(HasContent, ms); kept != [] && kept[|kept| - 1] == ms[|ms| - 1]
  {
    if ms != [] {
      var init, last := ms[..|ms| - 1], ms[|ms| - 1];
      TetheredPrefix(ms, |ms| - 1);
      DroppingEmptiedKeepsTethers(init);
      if last.content != [] {
        assert TetheredAt(ms, |init|);
        TetheredExtended(Filter(HasContent, init), last);
      } else {
        assert Filter(HasContent, ms) == Filter(HasContent, init);
      }
    }
  }

  /** The last message of `done` makes every call that the message before `m` made. */
  lemma ExtendKeepsTethers(done: seq<Message>, m: Message, calls: set<string>)
    requires Tethered(done) && (done == [] ==> calls == {})
    requires done != [] ==> calls <= UseIds(done[|done| - 1].content)
    requires ResultIds(m.content) != {} ==>
      done != [] && done[|done| - 1].role != m.role && ResultIds(m.content) <= calls
    ensures Tethered(Extend(done, m))
    ensures var r := Extend(done, m); r != [] && r[|r| - 1].role == m.role && UseIds(m.content) <= UseIds(r[|r| - 1].content)
  {
    hide UseIds, ResultIds;
    if done != [] && done[|done| - 1].role == m.role {
      var last := done[|done| - 1];
      IdsConcat(last.content, m.content);
      TetheredPrefix(done, |done| - 1);
      assert TetheredAt(done, |done| - 1);
      TetheredExtended(done[..|done| - 1], Message(m.role, last.content + m.content));
    } else {
      TetheredExtended(done, m);
    }
  }

  lemma {:induction false} MergeKeepsTethers(ms: seq<Message>)
    requires Tethered(ms)
    ensures Tethered(Merge(ms)) && (ms == [] ==> Merge(ms) == [])
    ensures ms != [] ==>
      var merged := Merge(ms);
      && merged != []
      && merged[|merged| - 1].role == ms[|ms| - 1].role
      && UseIds(ms[|ms| - 1].content) <= UseIds(merged[|merged| - 1].content)
  {
    if ms != [] {
      MergeUnfolds(ms);
      hide UseIds, ResultIds, Merge, Extend;
      var init, m := ms[..|ms| - 1], ms[|ms| - 1];
      TetheredPrefix(ms, |ms| - 1);
      MergeKeepsTethers(init);
      assert TetheredAt(ms, |init|);
      ExtendKeepsTethers(Merge(init), m, if init == [] then {} else UseIds(init[|init| - 1].content));
    }
  }

  lemma SettledIsTethered(ms: seq<Message>)
    ensures Alternates(Settled(ms)) && Tethered(Settled(ms))
    ensures forall m :: m in Settled(ms) ==> m.content != []
  {
    var merged := Merge(WithoutBlank(ms));
    MergeAlternates(WithoutBlank(ms));
    AnchorTethers(merged);
    DroppingEmptiedKeepsTethers(Anchor(merged));
    MergeKeepsTethers(DropOrphans(merged));
    MergeAlternates(DropOrphans(merged));
    FilterMembers(HasContent, Anchor(merged));
    MergeKeepsContent(DropOrphans(merged));
  }

  // ----- Pairing -----

  /** The answers put in front of the message at `i`. */
  function PatchAt(ms: seq<Message>, i: nat): seq<Block>
    requires i < |ms|
  {
    if i > 0 && ms[i - 1].role == Assistant && ms[i].role == User
    then Patch(ms[i - 1].content, ResultIds(ms[i].content))
    else []
  }

  function Patched(ms: seq<Message>): seq<Message> {
    seq(|ms|, i requires 0 <= i < |ms| => Message(ms[i].role, PatchAt(ms, i) + ms[i].content))
  }

  /** The message that answers a trailing assistant message. */
  function Closing(ms: seq<Message>): seq<Message> {
    if ms != [] && ms[|ms| - 1].role == Assistant && Patch(ms[|ms| - 1].content, {}) != []
    then [Message(User, Patch(ms[|ms| - 1].content, {}))]
    else []
  }

  /** On alternating histories the loop patches every message once and appends at most one. */
  lemma {:induction false} PairUsesOfAlternating(ms: seq<Message>)
    requires Alternates(ms)
    ensures PairUses(ms) == Patched(ms) + Closing(ms)
    decreases |ms|
  {
    if |ms| == 1 {
      PatchedHead(ms);
    } else if |ms| > 1 {
      PatchedHead(ms);
      assert TurnChangesAt(ms, 1);
      var k := if ms[0].role == Assistant then 2 else 1;
      hide PairUses, Patched, Closing;
      AlternatesSuffix(ms, k);
      PairUsesOfAlternating(ms[k..]);
      PairUsesHead(ms, k);
      PatchedSplit(ms, k);
      Associative(Patched(ms)[..k], Patched(ms[k..]), Closing(ms[k..]));
    }
  }

  lemma PatchedHead(ms: seq<Message>)
    requires ms != []
    ensures Patched(ms)[..1] == [ms[0]]
    ensures |ms| > 1 ==> Patched(ms)[..2] == [ms[0], Message(ms[1].role, PatchAt(ms, 1) + ms[1].content)]
  {
    assert Patched(ms)[0] == ms[0];
  }

  lemma AlternatesSuffix(ms: seq<Message>, k: nat)
    requires Alternates(ms) && k <= |ms|
    ensures Alternates(ms[k..])
  {
    forall i | 0 < i < |ms[k..]|
      ensures TurnChangesAt(ms[k..], i)
    {
      assert TurnChangesAt(ms, i + k);
    }
  }

  lemma PairUsesHead(ms: seq<Message>, k: nat)
    requires |ms| > 1 && ms[0].role != ms[1].role && k == if ms[0].role == Assistant then 2 else 1
    ensures PairUses(ms) == Patched(ms)[..k] + PairUses(ms[k..])
  {
    PatchedHead(ms);
    if k == 2 {
      SplitTwo(ms);
      PairUsesTurn(ms[0], ms[1], ms[2..]);
      assert PatchAt(ms, 1) == Patch(ms[0].content, ResultIds(ms[1].content));
    } else {
      assert PairUses(ms) == [ms[0]] + PairUses(ms[1..]);
    }
  }

  /** One assistant turn and the user turn that answers it. */
  lemma PairUsesTurn(a: Message, u: Message, rest: seq<Message>)
    requires a.role == Assistant && u.role == User
    ensures PairUses([a, u] + rest) ==
      [a, Message(User, Patch(a.content, ResultIds(u.content)) + u.content)] + PairUses(rest)
  {
    var ms := [a, u] + rest;
    var patch := Patch(a.content, ResultIds(u.content));
    assert ms[2..] == rest && ms[1..] == [u] + rest && ([u] + rest)[1..] == rest;
    if patch == [] {
      assert PairUses([u] + rest) == [u] + PairUses(rest);
      assert patch + u.content == u.content;
    }
  }

  lemma PatchedSplit(ms: seq<Message>, k: nat)
    requires 1 <= k <= |ms| && ms[k - 1].role == User
    ensures Patched(ms) == Patched(ms)[..k] + Patched(ms[k..])
    ensures Closing(ms[k..]) == Closing(ms)
  {
    hide Patch, ResultIds, UseIds;
    var rest := ms[k..];
    var all, tail := Patched(ms), Patched(rest);
    forall i | 0 <= i < |rest|
      ensures all[i + k] == tail[i]
    {
      assert rest[i] == ms[i + k];
      assert i > 0 ==> rest[i - 1] == ms[i + k - 1];
      assert PatchAt(rest, i) == PatchAt(ms, i + k);
    }
    hide PatchAt, Patched;
    assert all[k..] == tail;
    assert k < |ms| ==> rest[|rest| - 1] == ms[|ms| - 1];
  }

  lemma PatchIds(blocks: seq<Block>, answers: set<string>)
    ensures UseIds(Patch(blocks, answers)) == {}
    ensures ResultIds(Patch(blocks, answers)) == UseIds(blocks) - answers
    ensures Patch(blocks, answers) == [] <==> UseIds(blocks) <= answers
  {
    var ids := Unanswered(blocks, answers);
    var p := Patch(blocks, answers);
    forall id | id in UseIds(blocks) - answers
      ensures id in ResultIds(p)
    {
      var k :| 0 <= k < |ids| && ids[k] == id;
      assert p[k] == SyntheticResult(id);
    }
    if ids != [] {
      assert ids[0] in ids;
    } else {
      forall id | id in UseIds(blocks)
        ensures id in answers
      {
        assert id !in ids;
      }
    }
  }

  /** The ids of one message after pairing. */
  lemma PatchedIds(ms: seq<Message>, i: nat)
    requires i < |ms|
    ensures UseIds(Patched(ms)[i].content) == UseIds(ms[i].content)
    ensures ResultIds(Patched(ms)[i].content) == ResultIds(ms[i].content) +
      if i > 0 && ms[i - 1].role == Assistant && ms[i].role == User then UseIds(ms[i - 1].content) else {}
  {
    IdsConcat(PatchAt(ms, i), ms[i].content);
    if i > 0 {
      PatchIds(ms[i - 1].content, ResultIds(ms[i].content));
    }
  }

  /** The message at `i` after pairing, when `out` is the paired history. */
  lemma PairedAt(ms: seq<Message>, i: nat)
    requires Alternates(ms) && i < |PairUses(ms)|
    ensures |ms| <= |PairUses(ms)| <= |ms| + 1
    ensures
      var m := PairUses(ms)[i];
      if i == |ms| then
        && ms != [] && ms[i - 1].role == Assistant && m.role == User
        && UseIds(m.content) == {} && ResultIds(m.content) == UseIds(ms[i - 1].content)
      else
        && m.role == ms[i].role && UseIds(m.content) == UseIds(ms[i].content)
        && ResultIds(m.content) == ResultIds(ms[i].content) +
             if i > 0 && ms[i].role == User then UseIds(ms[i - 1].content) else {}
  {
    PairUsesOfAlternating(ms);
    if i == |ms| {
      PatchIds(ms[i - 1].content, {});
    } else {
      assert i > 0 ==> TurnChangesAt(ms, i);
      PatchedIds(ms, i);
    }
  }

  /** A trailing assistant message keeps no call open. */
  lemma PairedLast(ms: seq<Message>)
    requires Alternates(ms) && ms != [] && ms[|ms| - 1].role == Assistant && |PairUses(ms)| == |ms|
    ensures UseIds(ms[|ms| - 1].content) == {}
  {
    PairUsesOfAlternating(ms);
    PatchIds(ms[|ms| - 1].content, {});
  }

  lemma PairingIsSound(ms: seq<Message>)
    requires Alternates(ms) && Tethered(ms)
    ensures Alternates(PairUses(ms)) && ResultsAnchored(PairUses(ms)) && UsesAnswered(PairUses(ms))
  {
    var out := PairUses(ms);
    forall i | 0 <= i < |out|
      ensures i > 0 ==> TurnChangesAt(out, i)
      ensures AnchoredAt(out, i)
    {
      PairedAt(ms, i);
      if i < |ms| {
        assert TetheredAt(ms, i);
      }
      if i > 0 {
        PairedAt(ms, i - 1);
        assert i < |ms| ==> TurnChangesAt(ms, i);
      }
    }
    forall i | 0 <= i < |out|
      ensures AnsweredAt(out, i)
    {
      PairedAt(ms, i);
      if i + 1 < |out| {
        PairedAt(ms, i + 1);
        assert TurnChangesAt(out, i + 1);
      } else if i < |ms| && ms[i].role == Assistant {
        PairedLast(ms);
      }
    }
  }

  /** Putting a message without tool blocks in front breaks nothing. */
  lemma PrefaceIsSound(ms: seq<Message>)
    requires Alternates(ms) && ResultsAnchored(ms) && UsesAnswered(ms)
    ensures ApiValid(Preface(ms) + ms)
  {
    var out := Preface(ms) + ms;
    if Preface(ms) != [] {
      forall i | 0 <= i < |out|
        ensures i > 0 ==> TurnChangesAt(out, i)
        ensures AnchoredAt(out, i) && AnsweredAt(out, i)
      {
        if i > 0 {
          assert AnchoredAt(ms, i - 1) && AnsweredAt(ms, i - 1);
          assert i > 1 ==> TurnChangesAt(ms, i - 1);
        }
      }
    } else {
      assert out == ms;
    }
  }

  /**
   * Whatever the input, the repaired history is non-empty, starts with the user, alternates, and
   * pairs calls and results positionally in both directions.
   */
  lemma RepairIsValid(ms: seq<Message>)
    ensures ApiValid(Repair(ms))
  {
    SettledIsTethered(ms);
    PairingIsSound(Settled(ms));
    PrefaceIsSound(PairUses(Settled(ms)));
  }
}
