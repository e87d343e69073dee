/** Head-and-tail truncation of text, with byte lengths and character counts mixed as in the code. */
module Truncation {
  import opened Text

  const MARK_OPEN := "\n\n[...content truncated ("
  const MARK_CLOSE := " chars omitted)...]\n\n"

  function Min(a: nat, b: nat): nat {
    if a < b then a else b
  }

  function SaturatingSub(a: nat, b: nat): nat {
    if a < b then 0 else a - b
  }

  function SaturatingMul(a: nat, b: nat): nat {
    Min(a * b, USIZE - 1)
  }

  /** Characters asked for at each end: a third of the limit unless given, scaled down to the limit. */
  function Budget(max: nat, head: Option<nat>, tail: Option<nat>): (r: (nat, nat))
    ensures r.0 + r.1 <= max
  {
    var h := if head.Some? then head.value else max / 3;
    var t := if tail.Some? then tail.value else max / 3;
    if h + t > max then
      var scaled := Scaled(max, h, h + t);
      (scaled, max - scaled)
    else (h, t)
  }

  /** The share `h / total` of the limit. */
  function Scaled(max: nat, h: nat, total: nat): (r: nat)
    requires 0 < total && h <= total
    ensures r <= max
  {
    var p := SaturatingMul(max, h);
    ProductMonotone(max, h, total);
    assert (p / total) * total <= p;
    AtMostByProduct(p / total, max, total);
    p / total
  }

  lemma ProductMonotone(a: nat, b: nat, c: nat)
    requires b <= c
    ensures a * b <= a * c
  {
  }

  lemma AtMostByProduct(a: nat, b: nat, c: nat)
    requires 0 < c && a * c <= b * c
    ensures a <= b
  {
  }

  function First(s: string, n: nat): string {
    s[..Min(n, |s|)]
  }

  function Last(s: string, n: nat): string {
    s[|s| - Min(n, |s|)..]
  }

  /** The note left where `omitted` characters were taken out. */
  function Mark(omitted: nat): (r: string)
    ensures |r| == 46 + |Decimal(omitted)| && OneByte(r)
  {
    var digits := Decimal(omitted);
    MARK_OPEN + digits + MARK_CLOSE
  }

  /** The text that replaces `content`: `h` characters, the mark, `t` characters. */
  function Clip(content: string, h: nat, t: nat): string {
    First(content, h) + Mark(SaturatingSub(ByteLen(content), h + t)) + Last(content, t)
  }

  function TruncateContent(content: string, max: nat, head: Option<nat>, tail: Option<nat>): string {
    if ByteLen(content) <= max then content
    else
      var (h, t) := Budget(max, head, tail);
      var h' := Min(h, ByteLen(content));
      Clip(content, h', Min(t, SaturatingSub(ByteLen(content), h')))
  }

  /** Over the limit, the budget is available in full: the two `min`s do nothing. */
  lemma OverLimitUsesBudget(content: string, max: nat, head: Option<nat>, tail: Option<nat>)
    requires ByteLen(content) > max
    ensures
      var (h, t) := Budget(max, head, tail);
      TruncateContent(content, max, head, tail) == Clip(content, h, t)
  {
    hide ByteLen, Budget, Clip;
  }

  /**
   * The head asks for `h` characters and the tail for `t`, by default a third of the limit each. Requests that fit are
   * granted; otherwise the head gets its share `h / (h + t)` of the limit and the tail the rest.
   */
  lemma BudgetShares(max: nat, head: Option<nat>, tail: Option<nat>)
    ensures
      var h := if head == None then max / 3 else head.value;
      var t := if tail == None then max / 3 else tail.value;
      && (h + t <= max ==> Budget(max, head, tail) == (h, t))
      && (h + t > max && max * h < 0x1_0000_0000_0000_0000 ==>
            max * h / (h + t) <= max && Budget(max, head, tail) == (max * h / (h + t), max - max * h / (h + t)))
  {
    var h := if head == None then max / 3 else head.value;
    var t := if tail == None then max / 3 else tail.value;
    if h + t > max {
      ScaledIs(max, h, h + t);
    }
    hide Scaled;
  }

  lemma ScaledIs(max: nat, h: nat, total: nat)
    requires 0 < total && h <= total
    ensures max * h < USIZE ==> Scaled(max, h, total) == max * h / total
  {
  }

  ghost function Note(omitted: nat): string {
    "\n\n[...content truncated (" + Decimal(omitted) + " chars omitted)...]\n\n"
  }

  /** The first `h` and the last `t` characters of the text, as far as it has them, and the note in between. */
  ghost function Cut(text: string, h: nat, t: nat): string
    requires h + t <= ByteLen(text)
  {
    var head, tail := if h < |text| then h else |text|, if t < |text| then |text| - t else 0;
    text[..head] + Note(ByteLen(text) - h - t) + text[tail..]
  }

  lemma MarkIs(omitted: nat)
    ensures Mark(omitted) == Note(omitted)
  {
    hide Decimal;
  }

  lemma ClipIsCut(text: string, h: nat, t: nat)
    requires h + t <= ByteLen(text)
    ensures Clip(text, h, t) == Cut(text, h, t)
  {
    hide ByteLen, Mark, Note;
    MarkIs(ByteLen(text) - h - t);
  }

  /** Every text over the limit is cut to its budget, which is at most the limit. */
  lemma TruncationIs(content: string, max: nat, head: Option<nat>, tail: Option<nat>)
    requires ByteLen(content) > max
    ensures
      var (h, t) := Budget(max, head, tail);
      h + t <= max && TruncateContent(content, max, head, tail) == Cut(content, h, t)
  {
    hide *;
    OverLimitUsesBudget(content, max, head, tail);
    var (h, t) := Budget(max, head, tail);
    ClipIsCut(content, h, t);
  }

  lemma DefaultBudget(max: nat)
    ensures Budget(max, None, None) == (max / 3, max / 3)
  {
    hide Scaled;
  }

  /** With the default budget: a third of the limit at either end. */
  lemma OverLimitDefault(content: string, max: nat)
    requires ByteLen(content) > max
    ensures
      var third := max / 3;
      && 2 * third < ByteLen(content)
      && TruncateContent(content, max, None, None)
           == First(content, third) + Mark(ByteLen(content) - 2 * third) + Last(content, third)
  {
    hide *;
    OverLimitUsesBudget(content, max, None, None);
    DefaultBudget(max);
    ClipIs(content, max / 3);
  }

  lemma ClipIs(content: string, third: nat)
    requires 2 * third <= ByteLen(content)
    ensures Clip(content, third, third) == First(content, third) + Mark(ByteLen(content) - 2 * third) + Last(content, third)
  {
    hide ByteLen, Mark, First, Last;
  }

  /** Whatever the text, at most `max` of its characters are kept beside the 46 of the marker and the digits. */
  lemma TruncatedAtMost(content: string, max: nat, head: Option<nat>, tail: Option<nat>)
    requires ByteLen(content) > max
    ensures
      var (h, t) := Budget(max, head, tail);
      |TruncateContent(content, max, head, tail)| <= max + 46 + |Decimal(ByteLen(content) - h - t)|
  {
    OverLimitUsesBudget(content, max, head, tail);
  }

  /** Head, middle and tail partition the text. */
  lemma ClipPartitions(content: string, h: nat, t: nat)
    requires h + t <= |content|
    ensures |First(content, h)| == h && |Last(content, t)| == t
    ensures content == First(content, h) + content[h..|content| - t] + Last(content, t)
  {
  }

  /** How many characters are shown neither at the head nor at the tail. */
  function Missing(content: string, h: nat, t: nat): nat {
    SaturatingSub(|content|, |First(content, h)| + |Last(content, t)|)
  }

  /** For every text over the limit, the count in the mark is the true one exactly when every character is one byte. */
  lemma OmittedCountIsTrue(content: string, max: nat, head: Option<nat>, tail: Option<nat>)
    requires ByteLen(content) > max
    ensures
      var (h, t) := Budget(max, head, tail);
      var count := ByteLen(content) - h - t;
      && count > 0
      && TruncateContent(content, max, head, tail) == First(content, h) + Mark(count) + Last(content, t)
      && (count == Missing(content, h, t) <==> OneByte(content))
  {
    hide ByteLen, Budget, Mark, OneByte, TruncateContent, Missing, First, Last;
    OverLimitUsesBudget(content, max, head, tail);
    var (h, t) := Budget(max, head, tail);
    CountIsMissing(content, h, t);
  }

  lemma CountIsMissing(content: string, h: nat, t: nat)
    requires h + t < ByteLen(content)
    ensures ByteLen(content) - h - t == Missing(content, h, t) <==> OneByte(content)
  {
    hide ByteLen, OneByte;
    ByteLenBounds(content);
    if !OneByte(content) {
      WideIsLonger(content);
    }
  }

  lemma {:induction false} WideIsLonger(s: string)
    requires !OneByte(s)
    ensures ByteLen(s) > |s|
  {
    var init := s[..|s| - 1];
    ByteLenBounds(init);
    if !OneByte(init) {
      WideIsLonger(init);
    } else {
      var i :| 0 <= i < |s| && s[i] >= '\U{0080}';
      assert i == |s| - 1;
    }
  }

  /** One-byte text: the truncation is a true partition. */
  lemma TruncationPartitions(content: string, max: nat, head: Option<nat>, tail: Option<nat>)
    requires OneByte(content) && ByteLen(content) > max
    ensures
      var (h, t) := Budget(max, head, tail);
      var omitted := |content| - h - t;
      && omitted > 0
      && TruncateContent(content, max, head, tail) == content[..h] + Mark(omitted) + content[h + omitted..]
      && |TruncateContent(content, max, head, tail)| == h + t + 46 + |Decimal(omitted)|
      && OneByte(TruncateContent(content, max, head, tail))
  {
    ByteLenBounds(content);
    OverLimitUsesBudget(content, max, head, tail);
    hide ByteLen, Budget, TruncateContent, Mark, Decimal;
    var (h, t) := Budget(max, head, tail);
    var omitted := |content| - h - t;
    assert First(content, h) == content[..h] && Last(content, t) == content[h + omitted..];
    OneByteParts(content[..h], Mark(omitted), content[h + omitted..]);
  }

  lemma OneByteParts(a: string, b: string, c: string)
    requires OneByte(a) && OneByte(b) && OneByte(c)
    ensures OneByte(a + b + c)
  {
  }

  lemma EndsCoverAll(s: string, n: nat)
    requires |s| <= n
    ensures First(s, n) == s && Last(s, n) == s
  {
  }

  /**
   * A text with fewer characters than the budget but more bytes than the limit comes out twice,
   * both ends being the whole text.
   */
  lemma WideTextIsDuplicated(s: string, max: nat)
    requires |s| <= max / 3 && ByteLen(s) > max
    ensures TruncateContent(s, max, None, None) == s + Mark(ByteLen(s) - 2 * (max / 3)) + s
  {
    hide *;
    OverLimitDefault(s, max);
    EndsCoverAll(s, max / 3);
  }

  // ----- Fitting the limit -----

  /** A third of the limit is room enough for the marker and twenty digits. */
  predicate Roomy(max: nat) {
    max - 2 * (max / 3) >= 66
  }

  /** With the default budget and a roomy limit, a truncated one-byte text fits. */
  lemma RoomyTruncationFits(content: string, max: nat)
    requires OneByte(content) && |content| < USIZE && Roomy(max)
    ensures OneByte(TruncateContent(content, max, None, None))
    ensures |TruncateContent(content, max, None, None)| <= max
    ensures |TruncateContent(content, max, None, None)| <= |content|
  {
    ByteLenBounds(content);
    if ByteLen(content) > max {
      TruncationPartitions(content, max, None, None);
      UsizeDigits(|content| - 2 * (max / 3));
    }
  }

  lemma RoomyTruncationIdempotent(content: string, max: nat)
    requires OneByte(content) && |content| < USIZE && Roomy(max)
    ensures
      var once := TruncateContent(content, max, None, None);
      TruncateContent(once, max, None, None) == once
  {
    RoomyTruncationFits(content, max);
    ByteLenBounds(TruncateContent(content, max, None, None));
  }

  // ----- A budget that fills the limit -----

  predicate FillsLimit(max: nat, head: Option<nat>, tail: Option<nat>) {
    Budget(max, head, tail).0 + Budget(max, head, tail).1 == max
  }

  lemma {:induction false} DecimalInjective(a: nat, b: nat)
    requires Decimal(a) == Decimal(b)
    ensures a == b
  {
    if a < 10 || b < 10 {
      assert a >= 10 ==> |Decimal(a)| >= 2;
      assert b >= 10 ==> |Decimal(b)| >= 2;
      assert Decimal(a)[0] == Decimal(b)[0];
    } else {
      var x, y := Decimal(a / 10), Decimal(b / 10);
      assert x == Decimal(a)[..|Decimal(a)| - 1];
      assert y == Decimal(b)[..|Decimal(b)| - 1];
      DecimalInjective(a / 10, b / 10);
      assert Decimal(a)[|x|] == Decimal(b)[|y|];
    }
  }

  lemma DecimalOfTwo(n: nat)
    requires 10 <= n < 100
    ensures |Decimal(n)| == 2
  {
  }

  lemma Ends(front: string, middle: string, back: string)
    ensures
      var s := front + middle + back;
      s[..|front|] == front && s[|s| - |back|..] == back
  {
  }

  lemma FullTruncationOnce(s: string, max: nat, head: Option<nat>, tail: Option<nat>)
    requires FillsLimit(max, head, tail) && OneByte(s) && max < |s| < USIZE
    ensures
      var (h, t) := Budget(max, head, tail);
      var once := TruncateContent(s, max, head, tail);
      && h <= |s| && t <= |s|
      && once == s[..h] + Mark(|s| - max) + s[|s| - t..]
      && OneByte(once) && |once| == max + 46 + |Decimal(|s| - max)| && |Decimal(|s| - max)| <= 20
  {
    hide TruncateContent, Mark, Decimal;
    ByteLenBounds(s);
    UsizeDigits(|s| - max);
    TruncationPartitions(s, max, head, tail);
  }

  /** A full truncation applied again only rewrites the omitted count. */
  lemma FullTruncationAgain(s: string, max: nat, head: Option<nat>, tail: Option<nat>)
    requires FillsLimit(max, head, tail) && OneByte(s) && max < |s| < USIZE && max + 66 < USIZE
    ensures
      var (h, t) := Budget(max, head, tail);
      var once := TruncateContent(s, max, head, tail);
      && h <= |s| && t <= |s|
      && TruncateContent(once, max, head, tail)
           == s[..h] + Mark(46 + |Decimal(|s| - max)|) + s[|s| - t..]
  {
    hide TruncateContent, Mark, Decimal, Budget, OneByte, FillsLimit;
    var (h, t) := Budget(max, head, tail);
    FullTruncationOnce(s, max, head, tail);
    var once := TruncateContent(s, max, head, tail);
    Ends(s[..h], Mark(|s| - max), s[|s| - t..]);
    assert once[..h] == s[..h] && once[|once| - t..] == s[|s| - t..];
    FullTruncationOnce(once, max, head, tail);
  }

  /**
   * When head and tail fill the limit, truncating again changes nothing exactly when the text was
   * 48 characters over the limit.
   */
  lemma FullTruncationFixedPoint(s: string, max: nat, head: Option<nat>, tail: Option<nat>)
    requires FillsLimit(max, head, tail) && OneByte(s) && max < |s| < USIZE && max + 66 < USIZE
    ensures
      var once := TruncateContent(s, max, head, tail);
      TruncateContent(once, max, head, tail) == once <==> |s| == max + 48
  {
    hide TruncateContent, Mark, Decimal, Budget, OneByte, FillsLimit;
    FullTruncationOnce(s, max, head, tail);
    FullTruncationAgain(s, max, head, tail);
    var (h, t) := Budget(max, head, tail);
    var digits := |Decimal(|s| - max)|;
    DecimalOfTwo(46 + digits);
    if TruncateContent(TruncateContent(s, max, head, tail), max, head, tail) == TruncateContent(s, max, head, tail) {
      SameMiddle(s[..h], Mark(|s| - max), Mark(46 + digits), s[|s| - t..]);
      MarkInjective(|s| - max, 46 + digits);
    }
    if |s| == max + 48 {
      DecimalOfTwo(48);
    }
  }

  lemma MarkInjective(m: nat, n: nat)
    requires Mark(m) == Mark(n)
    ensures m == n
  {
    SameMiddle(MARK_OPEN, Decimal(m), Decimal(n), MARK_CLOSE);
    DecimalInjective(m, n);
  }

  lemma SameMiddle(front: string, a: string, b: string, back: string)
    requires front + a + back == front + b + back
    ensures a == b
  {
    assert |front + a + back| == |front + b + back|;
    assert a == (front + a + back)[|front|..|front| + |a|];
    assert b == (front + b + back)[|front|..|front| + |b|];
  }

  lemma FullTruncationTwice(s: string, max: nat, head: Option<nat>, tail: Option<nat>)
    requires FillsLimit(max, head, tail) && OneByte(s) && max < |s| < USIZE && max + 66 < USIZE
    ensures
      var twice := TruncateContent(TruncateContent(s, max, head, tail), max, head, tail);
      OneByte(twice) && |twice| == max + 48
  {
    FullTruncationOnce(s, max, head, tail);
    FullTruncationOnce(TruncateContent(s, max, head, tail), max, head, tail);
    DecimalOfTwo(46 + |Decimal(|s| - max)|);
  }

  lemma FullTruncationStabilises(s: string, max: nat, head: Option<nat>, tail: Option<nat>)
    requires FillsLimit(max, head, tail) && OneByte(s) && |s| < USIZE && max + 66 < USIZE
    ensures
      var twice := TruncateContent(TruncateContent(s, max, head, tail), max, head, tail);
      var thrice := TruncateContent(twice, max, head, tail);
      TruncateContent(thrice, max, head, tail) == thrice
  {
    ByteLenBounds(s);
    if |s| > max {
      FullTruncationTwice(s, max, head, tail);
      FullTruncationFixedPoint(
        TruncateContent(TruncateContent(s, max, head, tail), max, head, tail), max, head, tail);
    }
  }
}
