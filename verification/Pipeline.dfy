/** Compaction followed by repair: what happens to tool calls and their results end to end. */
module Pipeline {
  import opened Sequences
  import opened Text
  import opened Transcript
  import opened Sanitize
  import opened RepairLaws
  import opened Compaction
  import opened Dedup
  import opened Summary

  // ----- Pairing without the demand that roles alternate -----

  /** Only the assistant calls tools and only the user message carries results. */
  ghost predicate Disciplined(m: Message) {
    if m.role == User then UseIds(m.content) == {} else ResultIds(m.content) == {}
  }

  ghost predicate PairingValid(ms: seq<Message>) {
    && (forall i :: 0 <= i < |ms| ==> Disciplined(ms[i]))
    && ResultsAnchored(ms)
    && UsesAnswered(ms)
  }

  ghost predicate LinkedAt(ms: seq<Message>, i: nat)
    requires i < |ms|
  {
    Disciplined(ms[i]) && ResultIds(ms[i].content) == UsesBefore(ms, i)
  }

  /** Each message answers exactly the calls of the one before it. */
  ghost predicate Linked(ms: seq<Message>) {
    forall i :: 0 <= i < |ms| ==> LinkedAt(ms, i)
  }

  /** Calls of the last message: the ones nothing answers yet. */
  ghost function OpenCalls(ms: seq<Message>): set<string> {
    if ms == [] then {} else UseIds(ms[|ms| - 1].content)
  }

  lemma PairingIsLinkage(ms: seq<Message>)
    ensures PairingValid(ms) <==> Linked(ms) && OpenCalls(ms) == {}
  {
    if PairingValid(ms) {
      forall i | 0 <= i < |ms|
        ensures LinkedAt(ms, i)
      {
        assert AnchoredAt(ms, i);
        if i > 0 {
          assert AnsweredAt(ms, i - 1) && Disciplined(ms[i - 1]) && Disciplined(ms[i]);
        }
      }
      if ms != [] {
        assert AnsweredAt(ms, |ms| - 1) && Disciplined(ms[|ms| - 1]);
      }
    }
    if Linked(ms) && OpenCalls(ms) == {} {
      forall i | 0 <= i < |ms|
        ensures Disciplined(ms[i]) && AnchoredAt(ms, i) && AnsweredAt(ms, i)
      {
        assert LinkedAt(ms, i);
        assert i + 1 < |ms| ==> LinkedAt(ms, i + 1);
      }
    }
  }

  lemma LinkedPrefix(ms: seq<Message>, k: nat)
    requires Linked(ms) && k <= |ms|
    ensures Linked(ms[..k])
  {
    forall i | 0 <= i < k
      ensures LinkedAt(ms[..k], i)
    {
      assert LinkedAt(ms, i);
    }
  }

  /** Appending a message that answers exactly the open calls. */
  lemma LinkedExtended(ms: seq<Message>, m: Message)
    requires Linked(ms) && Disciplined(m) && ResultIds(m.content) == OpenCalls(ms)
    ensures Linked(ms + [m]) && OpenCalls(ms + [m]) == UseIds(m.content)
  {
    forall i | 0 <= i < |ms| + 1
      ensures LinkedAt(ms + [m], i)
    {
      assert i < |ms| ==> LinkedAt(ms, i);
    }
  }

  /** Rewriting contents over the same skeleton keeps the pairing. */
  lemma SkeletonKeepsPairing(a: seq<Message>, b: seq<Message>)
    requires SameSkeleton(a, b) && PairingValid(a)
    ensures PairingValid(b)
  {
    PairingIsLinkage(a);
    PairingIsLinkage(b);
    hide UseIds, ResultIds, SameShapes, PairingValid;
    forall i | 0 <= i < |b|
      ensures LinkedAt(b, i) && UseIds(b[i].content) == UseIds(a[i].content)
    {
      assert LinkedAt(a, i) && SameSkeletonAt(a, b, i);
      SameShapesSameIds(a[i].content, b[i].content);
      if i > 0 {
        assert SameSkeletonAt(a, b, i - 1);
        SameShapesSameIds(a[i - 1].content, b[i - 1].content);
      }
    }
  }

  lemma SplicedLinks(ms: seq<Message>, start: nat, end: nat, text: string, i: nat)
    requires Linked(ms) && MayReplace(ms, start, end) && i < |Spliced(ms, start, end, text)|
    ensures LinkedAt(Spliced(ms, start, end, text), i)
  {
    var out := Spliced(ms, start, end, text);
    var m := out[start];
    assert UseIds(m.content) == {} && ResultIds(m.content) == {};
    assert LinkedAt(ms, start);
    if i < start {
      assert LinkedAt(ms, i);
    } else if i > start {
      var k := i - 1 - start + end;
      assert out[i] == ms[k] && LinkedAt(ms, k);
      assert i > start + 1 ==> out[i - 1] == ms[k - 1];
    }
  }

  /** Any accepted splice of a paired history is paired. */
  lemma SplicedKeepsPairing(ms: seq<Message>, start: nat, end: nat, text: string)
    requires PairingValid(ms) && MayReplace(ms, start, end)
    ensures PairingValid(Spliced(ms, start, end, text))
  {
    var out := Spliced(ms, start, end, text);
    PairingIsLinkage(ms);
    forall i | 0 <= i < |out|
      ensures LinkedAt(out, i)
    {
      SplicedLinks(ms, start, end, text, i);
    }
    if end < |ms| {
      assert out[|out| - 1] == ms[|ms| - 1];
    } else {
      assert UseIds(out[start].content) == {};
    }
    PairingIsLinkage(out);
  }

  lemma SummaryKeepsPairing(render: Json -> string, ms: seq<Message>, text: string, start: nat, end: nat)
    requires PairingValid(ms)
    ensures PairingValid(ApplySummary(render, ms, text, start, end))
  {
    if Accepts(ms, text, start, end) {
      SplicedKeepsPairing(ms, start, end, FinalText(render, ms, text, start, end));
    }
  }

  // ----- Repair of a paired history -----

  predicate IsToolBlock(x: Said) {
    x.block.ToolUse? || x.block.ToolResult?
  }

  lemma NoSubstanceNoTools(m: Message)
    requires !HasSubstance(m)
    ensures UseIds(m.content) == {} && ResultIds(m.content) == {}
    ensures HeardIn(IsToolBlock, m) == []
  {
    forall x | x in SaidBy(m.role, m.content)
      ensures !IsToolBlock(x)
    {
      assert x.block in m.content;
    }
    FilterNone(IsToolBlock, SaidBy(m.role, m.content));
  }

  lemma {:induction false} WithoutBlankKeepsLinks(ms: seq<Message>)
    requires Linked(ms)
    ensures Linked(WithoutBlank(ms)) && OpenCalls(WithoutBlank(ms)) == OpenCalls(ms)
  {
    if ms != [] {
      var init, last := ms[..|ms| - 1], ms[|ms| - 1];
      assert ms == init + [last];
      LinkedPrefix(ms, |init|);
      WithoutBlankKeepsLinks(init);
      FilterSnoc(HasSubstance, init, last);
      assert LinkedAt(ms, |init|);
      if HasSubstance(last) {
        LinkedExtended(WithoutBlank(init), last);
      } else {
        NoSubstanceNoTools(last);
      }
    }
  }

  lemma {:induction false} MergeKeepsLinks(ms: seq<Message>)
    requires Linked(ms)
    ensures Linked(Merge(ms)) && OpenCalls(Merge(ms)) == OpenCalls(ms)
  {
    if ms != [] {
      var init, m := ms[..|ms| - 1], ms[|ms| - 1];
      assert ms == init + [m];
      LinkedPrefix(ms, |init|);
      MergeKeepsLinks(init);
      var done := Merge(init);
      assert LinkedAt(ms, |init|);
      if done != [] && done[|done| - 1].role == m.role {
        MergedMessageLinks(done, m);
      } else {
        LinkedExtended(done, m);
      }
    }
  }

  lemma MergedMessageLinks(done: seq<Message>, m: Message)
    requires Linked(done) && done != [] && done[|done| - 1].role == m.role
    requires Disciplined(m) && ResultIds(m.content) == OpenCalls(done)
    ensures Linked(Extend(done, m)) && OpenCalls(Extend(done, m)) == UseIds(m.content)
  {
    var n := |done| - 1;
    var last := done[n];
    var grown := Message(m.role, last.content + m.content);
    assert LinkedAt(done, n);
    IdsConcat(last.content, m.content);
    LinkedPrefix(done, n);
    assert OpenCalls(done[..n]) == UsesBefore(done, n);
    LinkedExtended(done[..n], grown);
  }

  /** After the first merge a paired history needs no further pass: nothing is dropped or made up. */
  lemma PairedHistorySettles(ms: seq<Message>)
    requires PairingValid(ms)
    ensures PairUses(Settled(ms)) == Merge(WithoutBlank(ms))
  {
    var clean := WithoutBlank(ms);
    var merged := Merge(clean);
    PairingIsLinkage(ms);
    WithoutBlankKeepsLinks(ms);
    MergeKeepsLinks(clean);
    PairingIsLinkage(merged);
    AnchorOfAnchored(merged);
    FilterMembers(HasSubstance, ms);
    MergeKeepsContent(clean);
    FilterAll(HasContent, merged);
    MergeAlternates(clean);
    MergeOfAlternating(merged);
    PairUsesOfAnswered(merged);
  }

  lemma PrefaceHasNoTools(ms: seq<Message>)
    ensures Heard(IsToolBlock, Preface(ms)) == []
  {
    var m := Message(User, [TextBlock(PLACEHOLDER)]);
    HeardOne(IsToolBlock, m);
    FilterNone(IsToolBlock, SaidBy(m.role, m.content));
  }

  /** Repair of a paired history neither drops nor makes up a tool call or a result. */
  lemma RepairKeepsToolBlocks(ms: seq<Message>)
    requires PairingValid(ms)
    ensures Heard(IsToolBlock, Repair(ms)) == Heard(IsToolBlock, ms)
  {
    hide Heard, HeardIn, WithoutBlank, Settled, PairUses, Filter, HasSubstance, Merge, Preface;
    PairedHistorySettles(ms);
    var paired := PairUses(Settled(ms));
    HeardConcat(IsToolBlock, Preface(paired), paired);
    PrefaceHasNoTools(paired);
    MergeKeeps(IsToolBlock, WithoutBlank(ms));
    WithoutBlankIs(ms);
    forall m | m in ms && !HasSubstance(m)
      ensures HeardIn(IsToolBlock, m) == []
    {
      NoSubstanceNoTools(m);
    }
    DroppingKeeps(IsToolBlock, HasSubstance, ms);
  }

  // ----- The whole pipeline -----

  /** Dedup, then tier truncation, as `compact_messages` runs them. */
  ghost function CompactedBy(codec: Codec, tier: Tier, ms: seq<Message>): seq<Message> {
    CompactOlder(codec.render, tier, Deduped(codec, ms))
  }

  /** Local compaction keeps the skeleton, hence the pairing, of every history. */
  lemma LocalCompactionKeepsPairing(codec: Codec, tier: Tier, ms: seq<Message>)
    ensures SameSkeleton(ms, CompactedBy(codec, tier, ms))
    ensures PairingValid(ms) ==> PairingValid(CompactedBy(codec, tier, ms))
  {
    DedupKeepsSkeleton(codec, ms);
    CompactionKeepsSkeleton(codec.render, tier, Deduped(codec, ms));
    SameSkeletonTransitive(ms, Deduped(codec, ms), CompactedBy(codec, tier, ms));
    if PairingValid(ms) {
      SkeletonKeepsPairing(ms, CompactedBy(codec, tier, ms));
    }
  }

  lemma SplicedToolBlocks(ms: seq<Message>, start: nat, end: nat, text: string)
    requires start <= end <= |ms|
    ensures Heard(IsToolBlock, Spliced(ms, start, end, text)) ==
      Heard(IsToolBlock, ms[..start]) + Heard(IsToolBlock, ms[end..])
  {
    var m := Message(Assistant, [TextBlock(text)]);
    HeardConcat(IsToolBlock, ms[..start] + [m], ms[end..]);
    HeardSnoc(IsToolBlock, ms[..start], m);
    FilterNone(IsToolBlock, SaidBy(Assistant, m.content));
    assert Heard(IsToolBlock, ms[..start]) + [] == Heard(IsToolBlock, ms[..start]);
  }

  /** An accepted summary of a paired history, then repair. */
  lemma SummariseRepair(render: Json -> string, ms: seq<Message>, text: string, start: nat, end: nat)
    requires PairingValid(ms) && Accepts(ms, text, start, end)
    ensures
      var repaired := Repair(ApplySummary(render, ms, text, start, end));
      && ApiValid(repaired)
      && Heard(IsToolBlock, repaired) == Heard(IsToolBlock, ms[..start]) + Heard(IsToolBlock, ms[end..])
  {
    var summarised := ApplySummary(render, ms, text, start, end);
    SummaryKeepsPairing(render, ms, text, start, end);
    RepairIsValid(summarised);
    RepairKeepsToolBlocks(summarised);
    SplicedToolBlocks(ms, start, end, FinalText(render, ms, text, start, end));
  }

  /**
   * Compaction, summary of the selected range and repair, from any paired history: the result is
   * valid for the API, and its tool blocks are exactly those outside the summarised range.
   */
  lemma CompactSummariseRepair(codec: Codec, tier: Tier, ms: seq<Message>, text: string)
    requires PairingValid(ms) && !IsBlank(text)
    requires SelectRange(CompactedBy(codec, tier, ms)).Some?
    ensures
      var compacted := CompactedBy(codec, tier, ms);
      var (start, end) := SelectRange(compacted).value;
      var repaired := Repair(ApplySummary(codec.render, compacted, text, start, end));
      && start <= end <= |compacted|
      && ApiValid(repaired)
      && Heard(IsToolBlock, repaired) ==
           Heard(IsToolBlock, compacted[..start]) + Heard(IsToolBlock, compacted[end..])
  {
    var compacted := CompactedBy(codec, tier, ms);
    var (start, end) := SelectRange(compacted).value;
    LocalCompactionKeepsPairing(codec, tier, ms);
    SelectedRangeIsAccepted(compacted, text);
    SummariseRepair(codec.render, compacted, text, start, end);
  }

  /**
   * In a paired history at most one message at either end of the candidate range is spared, so a
   * range is found as soon as there are nine messages.
   */
  lemma PairedHistoryHasRange(ms: seq<Message>)
    requires PairingValid(ms) && |ms| >= 9
    ensures SelectRange(ms).Some?
    ensures SelectRange(ms).value.0 <= 2 && SelectRange(ms).value.1 >= |ms| - 3
  {
    PairingIsLinkage(ms);
    NoTwoAnswersInARow(ms, 1);
    NoTwoAnswersInARow(ms, |ms| - 3);
    assert FirstCut(ms, 1, |ms| - 2) <= 2;
    assert LastCut(ms, FirstCut(ms, 1, |ms| - 2), |ms| - 2) >= |ms| - 3;
  }

  lemma NoTwoAnswersInARow(ms: seq<Message>, i: nat)
    requires Linked(ms) && i + 1 < |ms|
    ensures !AnswersPrevious(ms, i) || !AnswersPrevious(ms, i + 1)
  {
    assert LinkedAt(ms, i) && LinkedAt(ms, i + 1);
  }
}
