/** What repair keeps of a history, and exactly which histories it leaves alone. */
module RepairLaws {
  import opened Sequences
  import opened Text
  import opened Transcript
  import opened Sanitize

  predicate IsNotResult(x: Said) {
    !x.block.ToolResult?
  }

  /** More than blank text, and not a tool result. */
  predicate IsSolid(x: Said) {
    !x.block.ToolResult? && !IsBlankText(x.block)
  }

  predicate IsOriginalResult(x: Said) {
    x.block.ToolResult? && x.block != SyntheticResult(x.block.toolUseId)
  }

  /** Not one of the results that pass 4 makes up. */
  predicate IsOriginal(x: Said) {
    x.block.ToolResult? ==> x.block != SyntheticResult(x.block.toolUseId)
  }

  /** Everything said that satisfies `p`, in order. */
  function Heard(p: Said -> bool, ms: seq<Message>): seq<Said> {
    Filter(p, Spoken(ms))
  }

  function HeardIn(p: Said -> bool, m: Message): seq<Said> {
    Filter(p, SaidBy(m.role, m.content))
  }

  lemma HeardConcat(p: Said -> bool, a: seq<Message>, b: seq<Message>)
    ensures Heard(p, a + b) == Heard(p, a) + Heard(p, b)
  {
    SpokenConcat(a, b);
    FilterConcat(p, Spoken(a), Spoken(b));
  }

  lemma HeardOne(p: Said -> bool, m: Message)
    ensures Heard(p, [m]) == HeardIn(p, m)
  {
    assert [m][..0] == [];
    assert Spoken([m]) == Spoken([]) + SaidBy(m.role, m.content);
    assert Spoken([]) == [];
    assert [] + SaidBy(m.role, m.content) == SaidBy(m.role, m.content);
  }

  lemma HeardSnoc(p: Said -> bool, ms: seq<Message>, m: Message)
    ensures Heard(p, ms + [m]) == Heard(p, ms) + HeardIn(p, m)
  {
    HeardConcat(p, ms, [m]);
    HeardOne(p, m);
  }

  lemma HeardCons(p: Said -> bool, m: Message, ms: seq<Message>)
    ensures Heard(p, [m] + ms) == HeardIn(p, m) + Heard(p, ms)
  {
    HeardConcat(p, [m], ms);
    HeardOne(p, m);
  }

  lemma HeardInConcat(p: Said -> bool, role: Role, a: seq<Block>, b: seq<Block>)
    ensures HeardIn(p, Message(role, a + b)) == HeardIn(p, Message(role, a)) + HeardIn(p, Message(role, b))
  {
    SaidByConcat(role, a, b);
    FilterConcat(p, SaidBy(role, a), SaidBy(role, b));
  }

  // ----- What each pass keeps of the blocks that satisfy a predicate -----

  /** Dropping messages in which nothing satisfies `p` loses nothing that satisfies `p`. */
  lemma {:induction false} DroppingKeeps(p: Said -> bool, q: Message -> bool, ms: seq<Message>)
    requires forall m :: m in ms && !q(m) ==> HeardIn(p, m) == []
    ensures Heard(p, Filter(q, ms)) == Heard(p, ms)
  {
    if ms != [] {
      var init, last := ms[..|ms| - 1], ms[|ms| - 1];
      assert ms == init + [last];
      DroppingKeeps(p, q, init);
      HeardSnoc(p, init, last);
      FilterSnoc(q, init, last);
      HeardSnoc(p, Filter(q, init), last);
    }
  }

  /** How `KeepAnswering` treats one block. */
  lemma KeepAnsweringSnoc(blocks: seq<Block>, b: Block, uses: set<string>)
    ensures KeepAnswering(blocks + [b], uses) ==
      if b.ToolResult? && b.toolUseId !in uses then KeepAnswering(blocks, uses)
      else KeepAnswering(blocks, uses) + [b]
  {
    FilterSnoc((b: Block) => b.ToolResult? ==> b.toolUseId in uses, blocks, b);
  }

  lemma {:induction false} KeepAnsweringKeeps(p: Said -> bool, role: Role, blocks: seq<Block>, uses: set<string>)
    requires forall x :: p(x) ==> !x.block.ToolResult?
    ensures HeardIn(p, Message(role, KeepAnswering(blocks, uses))) == HeardIn(p, Message(role, blocks))
  {
    if blocks != [] {
      var init, last := blocks[..|blocks| - 1], blocks[|blocks| - 1];
      assert blocks == init + [last];
      KeepAnsweringKeeps(p, role, init, uses);
      HeardInConcat(p, role, init, [last]);
      KeepAnsweringSnoc(init, last, uses);
      if last.ToolResult? && last.toolUseId !in uses {
        assert KeepAnswering(blocks, uses) == KeepAnswering(init, uses);
        FilterNone(p, SaidBy(role, [last]));
      } else {
        HeardInConcat(p, role, KeepAnswering(init, uses), [last]);
      }
    }
  }

  lemma AnchorSnoc(ms: seq<Message>, m: Message)
    ensures Anchor(ms + [m]) ==
      Anchor(ms) + [Message(m.role, KeepAnswering(m.content, UsesBefore(ms + [m], |ms|)))]
  {
    forall i | 0 <= i < |ms|
      ensures Anchor(ms + [m])[i] == Anchor(ms)[i]
    {
      assert UsesBefore(ms + [m], i) == UsesBefore(ms, i);
    }
  }

  lemma {:induction false} AnchorKeeps(p: Said -> bool, ms: seq<Message>)
    requires forall x :: p(x) ==> !x.block.ToolResult?
    ensures Heard(p, Anchor(ms)) == Heard(p, ms)
  {
    if ms != [] {
      var init, last := ms[..|ms| - 1], ms[|ms| - 1];
      assert ms == init + [last];
      AnchorKeeps(p, init);
      AnchorSnoc(init, last);
      HeardSnoc(p, init, last);
      var kept := KeepAnswering(last.content, UsesBefore(ms, |init|));
      HeardSnoc(p, Anchor(init), Message(last.role, kept));
      KeepAnsweringKeeps(p, last.role, last.content, UsesBefore(ms, |init|));
    }
  }

  lemma DroppingEmptiedKeeps(p: Said -> bool, ms: seq<Message>)
    ensures Heard(p, Filter(HasContent, ms)) == Heard(p, ms)
  {
    DroppingKeeps(p, HasContent, ms);
  }

  lemma MergeKeeps(p: Said -> bool, ms: seq<Message>)
    ensures Heard(p, Merge(ms)) == Heard(p, ms)
  {
    MergeKeepsSpoken(ms);
  }

  /** Nothing that pass 4 makes up satisfies `p`. */
  ghost predicate NeverSynthetic(p: Said -> bool) {
    forall id :: !p(Said(User, SyntheticResult(id)))
  }

  lemma PatchUnheard(p: Said -> bool, blocks: seq<Block>, answers: set<string>)
    requires NeverSynthetic(p)
    ensures HeardIn(p, Message(User, Patch(blocks, answers))) == []
  {
    FilterNone(p, SaidBy(User, Patch(blocks, answers)));
  }

  lemma {:induction false} PairUsesKeeps(p: Said -> bool, ms: seq<Message>)
    requires NeverSynthetic(p)
    ensures Heard(p, PairUses(ms)) == Heard(p, ms)
    decreases |ms|
  {
    if ms != [] {
      var m, rest := ms[0], ms[1..];
      var patch := Patch(m.content, AnswersAfter(ms, 0));
      PairUsesKeeps(p, rest);
      if m.role == Assistant && |ms| > 1 && ms[1].role == User {
        PairUsesKeeps(p, ms[2..]);
        SplitTwo(ms);
        PairTurnKeeps(p, m, ms[1], ms[2..]);
      } else {
        assert ms == [m] + rest;
        HeardCons(p, m, rest);
        if m.role != Assistant || patch == [] {
          HeardCons(p, m, PairUses(rest));
        } else {
          PatchUnheard(p, m.content, AnswersAfter(ms, 0));
          UnheardSecond(p, m, Message(User, patch), PairUses(rest));
        }
      }
    }
  }

  lemma UnheardSecond(p: Said -> bool, a: Message, u: Message, rest: seq<Message>)
    requires HeardIn(p, u) == []
    ensures Heard(p, [a, u] + rest) == HeardIn(p, a) + Heard(p, rest)
  {
    HeardTwo(p, a, u, rest);
    assert [] + Heard(p, rest) == Heard(p, rest);
  }

  lemma HeardTwo(p: Said -> bool, a: Message, u: Message, rest: seq<Message>)
    ensures Heard(p, [a, u] + rest) == HeardIn(p, a) + (HeardIn(p, u) + Heard(p, rest))
  {
    assert [a, u] + rest == [a] + ([u] + rest);
    HeardCons(p, a, [u] + rest);
    HeardCons(p, u, rest);
  }

  /** Putting made-up results in front of a user turn adds nothing that satisfies `p`. */
  lemma PatchedUnheard(p: Said -> bool, blocks: seq<Block>, answers: set<string>, content: seq<Block>)
    requires NeverSynthetic(p)
    ensures HeardIn(p, Message(User, Patch(blocks, answers) + content)) == HeardIn(p, Message(User, content))
  {
    var patch := Patch(blocks, answers);
    PatchUnheard(p, blocks, answers);
    HeardInConcat(p, User, patch, content);
    assert [] + HeardIn(p, Message(User, content)) == HeardIn(p, Message(User, content));
  }

  lemma PairTurnKeeps(p: Said -> bool, a: Message, u: Message, rest: seq<Message>)
    requires NeverSynthetic(p)
    requires a.role == Assistant && u.role == User
    requires Heard(p, PairUses(rest)) == Heard(p, rest)
    ensures Heard(p, PairUses([a, u] + rest)) == Heard(p, [a, u] + rest)
  {
    var u' := Message(User, Patch(a.content, ResultIds(u.content)) + u.content);
    PairUsesTurn(a, u, rest);
    PatchedUnheard(p, a.content, ResultIds(u.content), u.content);
    HeardTwo(p, a, u, rest);
    HeardTwo(p, a, u', PairUses(rest));
  }

  // ----- Conservation -----

  /** What repair puts in front of the history. */
  function Opening(ms: seq<Message>): seq<Said> {
    Spoken(Preface(PairUses(Settled(ms))))
  }

  lemma OpeningIsPlaceholder(ms: seq<Message>)
    ensures Opening(ms) == [] || Opening(ms) == [Said(User, TextBlock("[System: conversation context]"))]
    ensures Opening(ms) == [] <==> PairUses(Settled(ms)) != [] && PairUses(Settled(ms))[0].role == User
  {
    var m := Message(User, [TextBlock(PLACEHOLDER)]);
    SpokenConcat([], [m]);
    assert [m][..0] == [];
    assert SaidBy(User, m.content) == [Said(User, TextBlock(PLACEHOLDER))];
  }

  /** Conservation for any kind of block that pass 4 never makes up. */
  lemma RepairKeepsAnchored(p: Said -> bool, ms: seq<Message>)
    requires NeverSynthetic(p)
    ensures Heard(p, Repair(ms)) == Filter(p, Opening(ms)) + Heard(p, Anchor(Merge(WithoutBlank(ms))))
  {
    var merged := Merge(WithoutBlank(ms));
    var paired := PairUses(Settled(ms));
    HeardConcat(p, Preface(paired), paired);
    PairUsesKeeps(p, Settled(ms));
    MergeKeeps(p, DropOrphans(merged));
    DroppingEmptiedKeeps(p, Anchor(merged));
  }

  lemma RepairKeeps(p: Said -> bool, ms: seq<Message>)
    requires forall x :: p(x) ==> !x.block.ToolResult?
    ensures Heard(p, Repair(ms)) == Filter(p, Opening(ms)) + Heard(p, WithoutBlank(ms))
  {
    RepairKeepsAnchored(p, ms);
    AnchorKeeps(p, Merge(WithoutBlank(ms)));
    MergeKeeps(p, WithoutBlank(ms));
  }

  /**
   * Blocks other than tool results: the output says exactly what the messages surviving pass 1
   * said, in the same order and by the same speakers, after at most one placeholder.
   */
  lemma RepairConservesContent(ms: seq<Message>)
    ensures Heard(IsNotResult, Repair(ms)) == Opening(ms) + Heard(IsNotResult, WithoutBlank(ms))
  {
    hide Heard, Opening, Repair, WithoutBlank;
    RepairKeeps(IsNotResult, ms);
    OpeningIsPlaceholder(ms);
    FilterAll(IsNotResult, Opening(ms));
  }

  lemma BlankMessageSaysNothingSolid(m: Message)
    requires !HasSubstance(m)
    ensures HeardIn(IsSolid, m) == []
  {
    forall x | x in SaidBy(m.role, m.content)
      ensures !IsSolid(x)
    {
      assert x.block in m.content;
    }
    FilterNone(IsSolid, SaidBy(m.role, m.content));
  }

  lemma PlaceholderIsSolid()
    ensures !IsBlank(PLACEHOLDER) && PLACEHOLDER == "[System: conversation context]"
  {
    assert PLACEHOLDER[0] == '[';
  }

  lemma OpeningIsSolid(ms: seq<Message>)
    ensures Filter(IsSolid, Opening(ms)) == Opening(ms)
  {
    hide Filter, Opening, IsBlank;
    PlaceholderIsSolid();
    OpeningIsPlaceholder(ms);
    FilterAll(IsSolid, Opening(ms));
  }

  lemma WithoutBlankIs(ms: seq<Message>)
    ensures WithoutBlank(ms) == Filter(HasSubstance, ms)
  {
  }

  /** No block that is neither blank text nor a tool result is ever lost, on any input. */
  lemma RepairLosesNothingSolid(ms: seq<Message>)
    ensures Heard(IsSolid, Repair(ms)) == Opening(ms) + Heard(IsSolid, ms)
  {
    hide Repair, Heard, HeardIn, Opening, WithoutBlank, Filter, IsBlank, HasSubstance;
    RepairKeeps(IsSolid, ms);
    OpeningIsSolid(ms);
    WithoutBlankIs(ms);
    forall m | m in ms && !HasSubstance(m)
      ensures HeardIn(IsSolid, m) == []
    {
      BlankMessageSaysNothingSolid(m);
    }
    DroppingKeeps(IsSolid, HasSubstance, ms);
  }

  /**
   * Tool results: leaving out the ones pass 4 makes up, the output says exactly what was said
   * after the first merge less the results that answer nothing in the message before them.
   */
  lemma RepairKeepsAnchoredResults(ms: seq<Message>)
    ensures Heard(IsOriginal, Repair(ms)) == Opening(ms) + Heard(IsOriginal, Anchor(Merge(WithoutBlank(ms))))
  {
    hide Heard, Opening, Repair, WithoutBlank;
    RepairKeepsAnchored(IsOriginal, ms);
    OpeningIsPlaceholder(ms);
    FilterAll(IsOriginal, Opening(ms));
  }

  // ----- Order of the results that are kept -----

  ghost predicate IsSubsequence<T>(a: seq<T>, b: seq<T>)
    decreases |b|
  {
    || a == []
    || (b != [] && IsSubsequence(a, b[..|b| - 1]))
    || (b != [] && a[|a| - 1] == b[|b| - 1] && IsSubsequence(a[..|a| - 1], b[..|b| - 1]))
  }

  lemma {:induction false} SubsequenceSelf<T>(a: seq<T>)
    ensures IsSubsequence(a, a)
  {
    if a != [] {
      SubsequenceSelf(a[..|a| - 1]);
    }
  }

  lemma {:induction false} SubsequenceConcat<T>(a: seq<T>, b: seq<T>, c: seq<T>, d: seq<T>)
    requires IsSubsequence(a, b) && IsSubsequence(c, d)
    ensures IsSubsequence(a + c, b + d)
    decreases |d|
  {
    if d == [] {
      assert a + c == a && b + d == b;
    } else {
      var init := d[..|d| - 1];
      assert (b + d)[..|b + d| - 1] == b + init;
      if IsSubsequence(c, init) {
        SubsequenceConcat(a, b, c, init);
      } else {
        var front := c[..|c| - 1];
        assert (a + c)[..|a + c| - 1] == a + front;
        SubsequenceConcat(a, b, front, init);
      }
    }
  }

  lemma {:induction false} SubsequenceTransitive<T>(a: seq<T>, b: seq<T>, c: seq<T>)
    requires IsSubsequence(a, b) && IsSubsequence(b, c)
    ensures IsSubsequence(a, c)
    decreases |c|
  {
    if a != [] {
      var init := c[..|c| - 1];
      if IsSubsequence(b, init) {
        SubsequenceTransitive(a, b, init);
      } else {
        var front := b[..|b| - 1];
        if IsSubsequence(a, front) {
          SubsequenceTransitive(a, front, init);
        } else {
          SubsequenceTransitive(a[..|a| - 1], front, init);
        }
      }
    }
  }

  lemma {:induction false} SubsequenceFilter<T>(p: T -> bool, a: seq<T>, b: seq<T>)
    requires IsSubsequence(a, b)
    ensures IsSubsequence(Filter(p, a), Filter(p, b))
    decreases |b|
  {
    if a != [] {
      var init, last := b[..|b| - 1], b[|b| - 1];
      var tail := if p(last) then [last] else [];
      if IsSubsequence(a, init) {
        SubsequenceFilter(p, a, init);
        SubsequenceConcat(Filter(p, a), Filter(p, init), [], tail);
        assert Filter(p, a) + [] == Filter(p, a);
      } else {
        SubsequenceFilter(p, a[..|a| - 1], init);
        SubsequenceSelf(tail);
        SubsequenceConcat(Filter(p, a[..|a| - 1]), Filter(p, init), tail, tail);
      }
    }
  }

  lemma {:induction false} FilterIsSubsequence<T>(p: T -> bool, xs: seq<T>)
    ensures IsSubsequence(Filter(p, xs), xs)
  {
    if xs != [] {
      var init, last := xs[..|xs| - 1], xs[|xs| - 1];
      FilterIsSubsequence(p, init);
      var tail := if p(last) then [last] else [];
      assert [last][..0] == [];
      assert IsSubsequence(tail, [last]);
      SubsequenceConcat(Filter(p, init), init, tail, [last]);
      assert xs == init + [last];
    }
  }

  lemma {:induction false} SaidBySubsequence(role: Role, a: seq<Block>, b: seq<Block>)
    requires IsSubsequence(a, b)
    ensures IsSubsequence(SaidBy(role, a), SaidBy(role, b))
    decreases |b|
  {
    if a != [] {
      var sb := SaidBy(role, b);
      assert sb[..|sb| - 1] == SaidBy(role, b[..|b| - 1]);
      if IsSubsequence(a, b[..|b| - 1]) {
        SaidBySubsequence(role, a, b[..|b| - 1]);
      } else {
        SaidBySubsequence(role, a[..|a| - 1], b[..|b| - 1]);
        var sa := SaidBy(role, a);
        assert sa[..|sa| - 1] == SaidBy(role, a[..|a| - 1]);
      }
    }
  }

  lemma {:induction false} SpokenSubsequence(a: seq<Message>, b: seq<Message>)
    requires IsSubsequence(a, b)
    ensures IsSubsequence(Spoken(a), Spoken(b))
    decreases |b|
  {
    if a != [] {
      var init, last := b[..|b| - 1], b[|b| - 1];
      var tail := SaidBy(last.role, last.content);
      if IsSubsequence(a, init) {
        SpokenSubsequence(a, init);
        SubsequenceConcat(Spoken(a), Spoken(init), [], tail);
        assert Spoken(a) + [] == Spoken(a);
      } else {
        SpokenSubsequence(a[..|a| - 1], init);
        SubsequenceSelf(tail);
        SubsequenceConcat(Spoken(a[..|a| - 1]), Spoken(init), tail, tail);
      }
    }
  }

  lemma {:induction false} AnchorSubsequence(ms: seq<Message>)
    ensures IsSubsequence(Spoken(Anchor(ms)), Spoken(ms))
  {
    if ms != [] {
      var init, last := ms[..|ms| - 1], ms[|ms| - 1];
      assert ms == init + [last];
      AnchorSubsequence(init);
      AnchorSnoc(init, last);
      var uses := UsesBefore(ms, |init|);
      var kept := KeepAnswering(last.content, uses);
      FilterIsSubsequence((b: Block) => b.ToolResult? ==> b.toolUseId in uses, last.content);
      SaidBySubsequence(last.role, kept, last.content);
      SubsequenceConcat(Spoken(Anchor(init)), Spoken(init), SaidBy(last.role, kept), SaidBy(last.role, last.content));
      var m := Message(last.role, kept);
      assert (Anchor(init) + [m])[..|init|] == Anchor(init);
    }
  }

  lemma RepairKeepsOriginalResults(ms: seq<Message>)
    ensures Heard(IsOriginalResult, Repair(ms)) == Heard(IsOriginalResult, Anchor(Merge(WithoutBlank(ms))))
  {
    hide Heard, Opening, Repair, WithoutBlank;
    RepairKeepsAnchored(IsOriginalResult, ms);
    OpeningIsPlaceholder(ms);
    FilterNone(IsOriginalResult, Opening(ms));
    var kept := Heard(IsOriginalResult, Anchor(Merge(WithoutBlank(ms))));
    assert [] + kept == kept;
  }

  /** The original results that repair keeps stay in order, each with its content and speaker. */
  lemma RepairKeepsResultOrder(ms: seq<Message>)
    ensures IsSubsequence(Heard(IsOriginalResult, Repair(ms)), Heard(IsOriginalResult, ms))
  {
    var merged := Merge(WithoutBlank(ms));
    RepairKeepsOriginalResults(ms);
    AnchorSubsequence(merged);
    MergeKeepsSpoken(WithoutBlank(ms));
    FilterIsSubsequence(HasSubstance, ms);
    SpokenSubsequence(WithoutBlank(ms), ms);
    SubsequenceTransitive(Spoken(Anchor(merged)), Spoken(WithoutBlank(ms)), Spoken(ms));
    SubsequenceFilter(IsOriginalResult, Spoken(Anchor(merged)), Spoken(ms));
  }

  // ----- Fixed points -----

  ghost predicate AllHaveSubstance(ms: seq<Message>) {
    forall m :: m in ms ==> HasSubstance(m)
  }

  lemma AnchorOfAnchored(ms: seq<Message>)
    requires ResultsAnchored(ms)
    ensures Anchor(ms) == ms
  {
    forall i | 0 <= i < |ms|
      ensures Anchor(ms)[i] == ms[i]
    {
      assert AnchoredAt(ms, i);
      var uses := UsesBefore(ms, i);
      forall b | b in ms[i].content && b.ToolResult?
        ensures b.toolUseId in uses
      {
        assert b.toolUseId in ResultIds(ms[i].content);
      }
      FilterAll((b: Block) => b.ToolResult? ==> b.toolUseId in uses, ms[i].content);
    }
  }

  lemma PairUsesOfAnswered(ms: seq<Message>)
    requires Alternates(ms) && UsesAnswered(ms)
    ensures PairUses(ms) == ms
  {
    PairUsesOfAlternating(ms);
    forall i | 0 <= i < |ms|
      ensures Patched(ms)[i] == ms[i]
    {
      if i > 0 {
        assert AnsweredAt(ms, i - 1);
        PatchIds(ms[i - 1].content, ResultIds(ms[i].content));
      }
      assert [] + ms[i].content == ms[i].content;
    }
    if ms != [] {
      assert AnsweredAt(ms, |ms| - 1);
      PatchIds(ms[|ms| - 1].content, {});
    }
  }

  /** A valid history without blank messages comes out untouched. */
  lemma RepairLeavesValidAlone(ms: seq<Message>)
    requires ApiValid(ms) && AllHaveSubstance(ms)
    ensures Repair(ms) == ms
  {
    FilterAll(HasSubstance, ms);
    MergeOfAlternating(ms);
    AnchorOfAnchored(ms);
    FilterAll(HasContent, ms);
    PairUsesOfAnswered(ms);
  }

  lemma RepairedHaveContent(ms: seq<Message>)
    ensures forall m :: m in Repair(ms) ==> m.content != []
  {
    SettledIsTethered(ms);
    PairUsesHasContent(Settled(ms));
  }

  lemma {:induction false} PairUsesHasContent(ms: seq<Message>)
    requires forall m :: m in ms ==> m.content != []
    ensures forall m :: m in PairUses(ms) ==> m.content != []
    decreases |ms|
  {
    if ms != [] {
      PairUsesHasContent(ms[1..]);
      if |ms| > 1 {
        PairUsesHasContent(ms[2..]);
      }
    }
  }

  lemma DroppingStep(p: Said -> bool, q: Message -> bool, init: seq<Message>, last: Message)
    ensures |Heard(p, init + [last])| == |Heard(p, init)| + |HeardIn(p, last)|
    ensures |Heard(p, Filter(q, init + [last]))| == |Heard(p, Filter(q, init))| + if q(last) then |HeardIn(p, last)| else 0
  {
    hide Heard, Filter, HeardIn;
    FilterSnoc(q, init, last);
    HeardSnoc(p, init, last);
    HeardSnoc(p, Filter(q, init), last);
  }

  lemma {:induction false} DroppingNeverAdds(p: Said -> bool, q: Message -> bool, ms: seq<Message>)
    ensures |Heard(p, Filter(q, ms))| <= |Heard(p, ms)|
  {
    if ms != [] {
      var init, last := ms[..|ms| - 1], ms[|ms| - 1];
      hide Heard, Filter, HeardIn;
      assert ms == init + [last];
      DroppingNeverAdds(p, q, init);
      DroppingStep(p, q, init, last);
    }
  }

  /** Dropping a message in which something satisfies `p` shows. */
  lemma {:induction false} DroppingShows(p: Said -> bool, q: Message -> bool, ms: seq<Message>, k: nat)
    requires k < |ms| && !q(ms[k]) && HeardIn(p, ms[k]) != []
    ensures |Heard(p, Filter(q, ms))| < |Heard(p, ms)|
  {
    hide Heard, Filter, HeardIn;
    var init, last := ms[..|ms| - 1], ms[|ms| - 1];
    DroppingStep(p, q, init, last);
    assert ms == init + [last];
    if k < |init| {
      assert init[k] == ms[k];
      DroppingShows(p, q, init, k);
    } else {
      DroppingNeverAdds(p, q, init);
    }
  }

  lemma BlankMessageShows(m: Message)
    requires !HasSubstance(m) && m.content != []
    ensures HeardIn(IsNotResult, m) != []
  {
    assert IsBlankText(m.content[0]);
    FilterMembers(IsNotResult, SaidBy(m.role, m.content));
    assert SaidBy(m.role, m.content)[0] in HeardIn(IsNotResult, m);
  }

  lemma FixedPointHasSubstance(ms: seq<Message>)
    requires Repair(ms) == ms
    ensures AllHaveSubstance(ms)
  {
    RepairLosesNothingSolid(ms);
    RepairConservesContent(ms);
    RepairedHaveContent(ms);
    OpeningIsPlaceholder(ms);
    assert Opening(ms) == [];
    if !AllHaveSubstance(ms) {
      var k :| 0 <= k < |ms| && !HasSubstance(ms[k]);
      BlankMessageShows(ms[k]);
      DroppingShows(IsNotResult, HasSubstance, ms, k);
      assert false;
    }
  }

  /** Exactly the valid histories without blank-only messages are left alone. */
  lemma RepairFixedPoints(ms: seq<Message>)
    ensures Repair(ms) == ms <==> ApiValid(ms) && AllHaveSubstance(ms)
  {
    if Repair(ms) == ms {
      RepairIsValid(ms);
      FixedPointHasSubstance(ms);
    }
    if ApiValid(ms) && AllHaveSubstance(ms) {
      RepairLeavesValidAlone(ms);
    }
  }

  /**
   * The message at `i`, as pass 4 finds it, will not be blank: it is more than blank text already,
   * or the assistant message before it makes calls, which are then answered here.
   */
  ghost predicate StaysSolidAt(ms: seq<Message>, i: nat)
    requires i < |ms|
  {
    HasSubstance(ms[i]) || (i > 0 && ms[i].role == User && UseIds(ms[i - 1].content) != {})
  }

  lemma SubstanceConcat(role: Role, a: seq<Block>, b: seq<Block>)
    ensures HasSubstance(Message(role, a + b)) <==> HasSubstance(Message(role, a)) || HasSubstance(Message(role, b))
  {
    assert forall x :: x in a + b <==> x in a || x in b;
  }

  lemma PatchHasSubstance(role: Role, blocks: seq<Block>, answers: set<string>)
    ensures HasSubstance(Message(role, Patch(blocks, answers))) <==> Patch(blocks, answers) != []
  {
    var p := Patch(blocks, answers);
    if p != [] {
      assert p[0] in p && p[0].ToolResult?;
    }
  }

  lemma BlankAnswersNothing(m: Message)
    requires !HasSubstance(m)
    ensures ResultIds(m.content) == {}
  {
  }

  lemma PatchedSubstance(ms: seq<Message>, i: nat)
    requires Alternates(ms) && i < |ms|
    ensures HasSubstance(Patched(ms)[i]) <==> StaysSolidAt(ms, i)
  {
    hide HasSubstance, Patch, UseIds, ResultIds;
    var patch := PatchAt(ms, i);
    SubstanceConcat(ms[i].role, patch, ms[i].content);
    if i > 0 && ms[i].role == User {
      assert TurnChangesAt(ms, i);
      var uses, answers := UseIds(ms[i - 1].content), ResultIds(ms[i].content);
      PatchHasSubstance(User, ms[i - 1].content, answers);
      PatchIds(ms[i - 1].content, answers);
      if !HasSubstance(ms[i]) {
        BlankAnswersNothing(ms[i]);
      }
    } else {
      EmptyIsBlank(ms[i].role);
    }
  }

  lemma EmptyIsBlank(role: Role)
    ensures !HasSubstance(Message(role, []))
  {
  }

  lemma PrefaceHasSubstance(ms: seq<Message>)
    ensures AllHaveSubstance(Preface(ms))
  {
    PlaceholderIsSolid();
    SolidTextHasSubstance(PLACEHOLDER);
  }

  lemma SolidTextHasSubstance(text: string)
    requires !IsBlank(text)
    ensures HasSubstance(Message(User, [TextBlock(text)]))
  {
    hide IsBlank;
    var b := TextBlock(text);
    assert b in [b];
  }

  lemma ClosingHasSubstance(ms: seq<Message>)
    ensures AllHaveSubstance(Closing(ms))
  {
    if ms != [] {
      PatchHasSubstance(User, ms[|ms| - 1].content, {});
    }
  }

  lemma AllHaveSubstanceConcat(a: seq<Message>, b: seq<Message>)
    ensures AllHaveSubstance(a + b) <==> AllHaveSubstance(a) && AllHaveSubstance(b)
  {
    hide HasSubstance;
    assert forall m :: m in a + b <==> m in a || m in b;
  }

  lemma RepairedSubstance(ms: seq<Message>)
    ensures AllHaveSubstance(Repair(ms)) <==>
      forall i :: 0 <= i < |Settled(ms)| ==> StaysSolidAt(Settled(ms), i)
  {
    hide HasSubstance, Settled, PairUses, Closing, Preface, StaysSolidAt;
    var settled := Settled(ms);
    SettledIsTethered(ms);
    PairUsesOfAlternating(settled);
    var paired := PairUses(settled);
    PrefaceHasSubstance(paired);
    AllHaveSubstanceConcat(Preface(paired), paired);
    ClosingHasSubstance(settled);
    AllHaveSubstanceConcat(Patched(settled), Closing(settled));
    forall i | 0 <= i < |settled|
      ensures HasSubstance(Patched(settled)[i]) <==> StaysSolidAt(settled, i)
    {
      PatchedSubstance(settled, i);
    }
  }

  /**
   * A second repair changes nothing exactly when pass 4 finds no blank message that it leaves blank:
   * the orphan pass can strip a message down to blank text, and nothing looks for that afterwards.
   */
  lemma RepairTwice(ms: seq<Message>)
    ensures Repair(Repair(ms)) == Repair(ms) <==>
      forall i :: 0 <= i < |Settled(ms)| ==> StaysSolidAt(Settled(ms), i)
  {
    hide Repair, Settled, AllHaveSubstance, ApiValid, StaysSolidAt;
    RepairIsValid(ms);
    RepairFixedPoints(Repair(ms));
    RepairedSubstance(ms);
  }

  /** Nothing blank comes in, so nothing blank goes out. */
  lemma RepairMakesNoBlank(ms: seq<Message>, m: Message)
    requires forall m, b :: m in ms && b in m.content ==> !IsBlankText(b)
    requires m in Repair(ms)
    ensures HasSubstance(m)
  {
    RepairConservesContent(ms);
    RepairedHaveContent(ms);
    PlaceholderIsSolid();
    OpeningIsPlaceholder(ms);
    FilterMembers(IsNotResult, Spoken(Repair(ms)));
    FilterMembers(IsNotResult, Spoken(WithoutBlank(ms)));
    FilterMembers(HasSubstance, ms);
    hide Repair, Opening, Filter, Spoken, IsBlank;
    var x := Said(m.role, m.content[0]);
    if IsBlankText(x.block) {
      SpokenIff(Repair(ms), x);
      assert x in Filter(IsNotResult, Spoken(Repair(ms)));
      SpokenIff(WithoutBlank(ms), x);
      assert false;
    }
  }

  lemma RepairIdempotent(ms: seq<Message>)
    requires forall m, b :: m in ms && b in m.content ==> !IsBlankText(b)
    ensures Repair(Repair(ms)) == Repair(ms)
  {
    hide Repair, ApiValid, IsBlankText, HasSubstance;
    forall m | m in Repair(ms)
      ensures HasSubstance(m)
    {
      RepairMakesNoBlank(ms, m);
    }
    RepairIsValid(ms);
    RepairFixedPoints(Repair(ms));
  }

  /**
   * Pass 3 can leave a message with nothing but blank text, which pass 1 of a second repair drops:
   * a lone user message of any orphaned result and any blank text.
   */
  lemma RepairTwiceCanDiffer(orphan: Block, blank: string)
    requires orphan.ToolResult? && IsBlank(blank)
    ensures
      var ms := [Message(User, [orphan, TextBlock(blank)])];
      Repair(Repair(ms)) != Repair(ms)
  {
    hide Repair, ApiValid, IsBlank;
    var ms := [Message(User, [orphan, TextBlock(blank)])];
    RepairLeavesBlank(orphan, blank);
    var left := Message(User, [TextBlock(blank)]);
    assert left in Repair(ms) && !HasSubstance(left);
    RepairFixedPoints(Repair(ms));
  }

  lemma RepairLeavesBlank(orphan: Block, blank: string)
    requires orphan.ToolResult?
    ensures Repair([Message(User, [orphan, TextBlock(blank)])]) == [Message(User, [TextBlock(blank)])]
  {
    var m, left := Message(User, [orphan, TextBlock(blank)]), Message(User, [TextBlock(blank)]);
    hide Filter, Merge, PairUses, KeepAnswering, Preface;
    assert m.content[0] in m.content && HasSubstance(m);
    FilterAll(HasSubstance, [m]);
    MergeOfAlternating([m]);
    OrphanIsDropped(orphan, TextBlock(blank));
    assert Anchor([m]) == [left];
    LoneUserMessage(left);
  }

  lemma LoneUserMessage(m: Message)
    requires m.role == User && m.content != []
    ensures Merge(Filter(HasContent, [m])) == [m] && PairUses([m]) == [m] && Preface([m]) == []
  {
    hide Filter, Merge, PairUses;
    FilterAll(HasContent, [m]);
    MergeOfAlternating([m]);
    assert UsesAnswered([m]);
    PairUsesOfAnswered([m]);
  }

  lemma OrphanIsDropped(orphan: Block, b: Block)
    requires orphan.ToolResult? && !b.ToolResult?
    ensures KeepAnswering([orphan, b], {}) == [b]
  {
    KeepAnsweringSnoc([], orphan, {});
    KeepAnsweringSnoc([orphan], b, {});
    assert [] + [orphan] == [orphan] && [orphan] + [b] == [orphan, b];
  }
}
