/** What a whole MERGE, EVOLVE or INSIGHT line says, and what the store holds after it. */
module EvolutionLaws {
  import opened Sequences
  import opened Text
  import opened Transcript
  import opened Evolution

  // ----- Values in a line -----

  /** `rest` is what follows the first occurrence of `marker`. */
  ghost predicate Behind(text: string, marker: string, rest: string) {
    exists k: nat :: FirstAt(text, marker, k) && k + |marker| <= |text| && rest == text[k + |marker|..]
  }

  ghost predicate OccursAt(text: string, marker: string, i: nat) {
    i + |marker| <= |text| && text[i..i + |marker|] == marker
  }

  ghost predicate FirstAt(text: string, marker: string, k: nat) {
    OccursAt(text, marker, k) && forall i: nat :: i < k ==> !OccursAt(text, marker, i)
  }

  lemma OccursLater(text: string, marker: string, i: nat)
    requires text != ""
    ensures OccursAt(text, marker, i + 1) <==> OccursAt(text[1..], marker, i)
  {
    var tail := text[1..];
    if i + |marker| <= |tail| {
      assert tail[i..i + |marker|] == text[i + 1..i + 1 + |marker|];
    }
  }

  lemma OccursFirst(text: string, marker: string)
    ensures OccursAt(text, marker, 0) <==> StartsWith(text, marker)
  {
    assert |marker| <= |text| ==> text[0..|marker|] == text[..|marker|];
  }

  lemma {:induction false} AfterIs(text: string, marker: string) returns (k: nat)
    ensures After(text, marker).Some? ==>
      FirstAt(text, marker, k) && k + |marker| <= |text| && After(text, marker) == Some(text[k + |marker|..])
    ensures After(text, marker).None? ==> forall i: nat :: !OccursAt(text, marker, i)
  {
    OccursFirst(text, marker);
    k := 0;
    if StartsWith(text, marker) {
      assert text[0 + |marker|..] == text[|marker|..];
    } else if text != "" {
      var tail := text[1..];
      k := AfterIs(tail, marker);
      forall i: nat | i > 0
        ensures OccursAt(text, marker, i) <==> OccursAt(tail, marker, i - 1)
      {
        OccursLater(text, marker, i - 1);
      }
      if After(tail, marker).Some? {
        SuffixOfTail(text, k + |marker|);
        hide OccursAt, StartsWith, After;
        k := k + 1;
        assert OccursAt(text, marker, k);
      }
    }
  }

  lemma SuffixOfTail(text: string, k: nat)
    requires text != "" && k <= |text| - 1
    ensures text[1..][k..] == text[k + 1..]
  {
  }

  /** A value in quotes, or one word without them. */
  ghost predicate Spelled(rest: string, value: string) {
    if rest != "" && rest[0] == '"' then
      && '"' !in value && |value| + 2 <= |rest| && rest[1..|value| + 1] == value && rest[|value| + 1] == '"'
    else
      && |value| <= |rest| && rest[..|value|] == value
      && (forall i :: 0 <= i < |value| ==> !IsWhitespace(value[i])) && AtWordEnd(rest[|value|..])
  }

  /** What the line gives for `marker`: nothing if it does not occur or its quotes are not closed. */
  ghost predicate Gives(text: string, marker: string, value: Option<string>) {
    match value
    case Some(v) => exists rest :: Behind(text, marker, rest) && Spelled(rest, v)
    case None => forall rest :: Behind(text, marker, rest) ==> rest != "" && rest[0] == '"' && '"' !in rest[1..]
  }

  lemma BehindIsUnique(text: string, marker: string, a: string, b: string)
    requires Behind(text, marker, a) && Behind(text, marker, b)
    ensures a == b
  {
    hide OccursAt;
    var i: nat :| FirstAt(text, marker, i) && a == text[i + |marker|..];
    var j: nat :| FirstAt(text, marker, j) && b == text[j + |marker|..];
    assert OccursAt(text, marker, i) && OccursAt(text, marker, j);
  }

  /** What is read after a marker is what the line gives for it. */
  lemma ExtractGives(text: string, marker: string)
    ensures Gives(text, marker, ExtractQuoted(text, marker))
  {
    var k := AfterIs(text, marker);
    hide After, StartsWith, OccursAt;
    if After(text, marker).Some? {
      var rest := After(text, marker).value;
      assert FirstAt(text, marker, k) && k + |marker| <= |text| && rest == text[k + |marker|..];
      assert Behind(text, marker, rest);
      RestGives(rest);
      forall other | Behind(text, marker, other)
        ensures other == rest
      {
        BehindIsUnique(text, marker, rest, other);
      }
    }
  }

  function ReadRest(rest: string): Option<string> {
    if rest != "" && rest[0] == '"' then
      var stripped := rest[1..];
      var k := IndexOf(stripped, c => c == '"');
      if k == |stripped| then None else Some(stripped[..k])
    else Some(rest[..IndexOf(rest, IsWhitespace)])
  }

  lemma RestGives(rest: string)
    ensures match ReadRest(rest)
      case Some(v) => Spelled(rest, v)
      case None => rest != "" && rest[0] == '"' && '"' !in rest[1..]
  {
    if rest != "" && rest[0] == '"' {
      var stripped := rest[1..];
      var k := IndexOf(stripped, c => c == '"');
      hide IndexOf;
      if k < |stripped| {
        var v := stripped[..k];
        assert rest[1..|v| + 1] == v && rest[|v| + 1] == stripped[k];
      }
    }
  }

  // ----- Lines -----

  /** The line has nothing to trim at its end. */
  ghost predicate Tight(s: string) {
    s == "" || !IsWhitespace(s[|s| - 1])
  }

  /** The line consists of a word and what comes after it. */
  ghost predicate Headed(line: string, word: string, rest: string) {
    StartsWith(line, word) && line[|word|..] == rest
  }

  lemma HeadedIsTrimmed(line: string, word: string, rest: string)
    requires Headed(line, word, rest) && word != "" && !IsWhitespace(word[0]) && rest != "" && Tight(rest)
    ensures Trim(line) == line
  {
    assert line[0] == line[..|word|][0] && line[|line| - 1] == rest[|rest| - 1];
    InkIsNotTrimmed(line);
  }

  /** A line that starts with one word does not start with another. */
  lemma OtherWord(line: string, word: string, other: string)
    requires StartsWith(line, word) && word != "" && other != "" && word[0] != other[0]
    ensures !StartsWith(line, other)
  {
    assert line[0] == line[..|word|][0];
    if |other| <= |line| {
      assert line[0] == line[..|other|][0];
    }
  }

  /** The text after `MERGE `: two numbers, and then what is to be said of the merged fact. */
  ghost function MergeRest(src: nat, dst: nat, tail: string): string {
    Decimal(src + 1) + " " + Decimal(dst + 1) + tail
  }

  lemma TightRest(front: string, n: nat, tail: string)
    requires Tight(tail)
    ensures Tight(front + Decimal(n) + tail) && front + Decimal(n) + tail != ""
  {
    DigitsAreInk(n);
    hide Decimal, IsWhitespace;
    var s := front + Decimal(n) + tail;
    if tail == "" {
      assert s[|s| - 1] == Decimal(n)[|Decimal(n)| - 1];
    } else {
      assert s[|s| - 1] == tail[|tail| - 1];
    }
  }

  /** The three words differ in length and in their first letter, none of which is whitespace. */
  lemma Words()
    ensures |"MERGE "| == 6 && "MERGE "[0] == 'M' && !IsWhitespace("MERGE "[0])
    ensures |"EVOLVE "| == 7 && "EVOLVE "[0] == 'E' && !IsWhitespace("EVOLVE "[0])
    ensures |"INSIGHT "| == 8 && "INSIGHT "[0] == 'I' && !IsWhitespace("INSIGHT "[0])
  {
  }

  lemma MergeWord(line: string, rest: string)
    requires Headed(line, "MERGE ", rest) && rest != "" && Tight(rest)
    ensures Trim(line) == line && StartsWith(line, "MERGE ") && |line| >= 6 && line[6..] == rest
  {
    Words();
    HeadedIsTrimmed(line, "MERGE ", rest);
    hide Trim, IsWhitespace;
  }

  lemma EvolveWord(line: string, rest: string)
    requires Headed(line, "EVOLVE ", rest) && rest != "" && Tight(rest)
    ensures Trim(line) == line && !StartsWith(line, "MERGE ") && StartsWith(line, "EVOLVE ")
    ensures |line| >= 7 && line[7..] == rest
  {
    Words();
    HeadedIsTrimmed(line, "EVOLVE ", rest);
    OtherWord(line, "EVOLVE ", "MERGE ");
    hide Trim, IsWhitespace;
  }

  lemma InsightWord(line: string, rest: string)
    requires Headed(line, "INSIGHT ", rest) && rest != "" && Tight(rest)
    ensures Trim(line) == line && !StartsWith(line, "MERGE ") && !StartsWith(line, "EVOLVE ")
    ensures StartsWith(line, "INSIGHT ") && |line| >= 8 && line[8..] == rest
  {
    Words();
    HeadedIsTrimmed(line, "INSIGHT ", rest);
    OtherWord(line, "INSIGHT ", "MERGE ");
    OtherWord(line, "INSIGHT ", "EVOLVE ");
    hide Trim, IsWhitespace;
  }

  /** What is read from a MERGE line. */
  lemma ReadsMerge(parse: string -> Option<real>, line: string, rest: string, n: nat)
    requires Headed(line, "MERGE ", rest) && rest != "" && Tight(rest)
    ensures ParseLine(parse, line, n) == match ParseMergeIndices(rest, n)
      case Some((src, dst)) => Merge(src, dst, ExtractQuoted(rest, "value="), ExtractQuoted(rest, "key="))
      case None => Nothing
  {
    hide ParseMergeIndices, ParseSingleIndex, ExtractQuoted, ExtractFloat, Trim, StartsWith, Headed, Tight;
    MergeWord(line, rest);
  }

  lemma ReadsEvolve(parse: string -> Option<real>, line: string, rest: string, n: nat)
    requires Headed(line, "EVOLVE ", rest) && rest != "" && Tight(rest)
    ensures ParseLine(parse, line, n) == match ParseSingleIndex(rest, n)
      case Some(index) => Evolve(index, ExtractQuoted(rest, "value="), ExtractFloat(parse, rest, "confidence="))
      case None => Nothing
  {
    hide ParseMergeIndices, ParseSingleIndex, ExtractQuoted, ExtractFloat, Trim, StartsWith, Headed, Tight;
    EvolveWord(line, rest);
  }

  lemma ReadsInsight(parse: string -> Option<real>, line: string, rest: string, n: nat)
    requires Headed(line, "INSIGHT ", rest) && rest != "" && Tight(rest)
    ensures ParseLine(parse, line, n) == match (ExtractQuoted(rest, "key="), ExtractQuoted(rest, "value="))
      case (Some(k), Some(v)) => Insight(k, v)
      case _ => Nothing
  {
    hide ParseMergeIndices, ParseSingleIndex, ExtractQuoted, ExtractFloat, Trim, StartsWith, Headed, Tight;
    InsightWord(line, rest);
  }

  /** A MERGE line: its first number is the fact that goes, its second the fact that stays. */
  lemma MergeLine(parse: string -> Option<real>, line: string, src: nat, dst: nat, tail: string, n: nat)
    requires src + 1 < USIZE && dst + 1 < USIZE && AtWordEnd(tail) && Tight(tail)
    requires Headed(line, "MERGE ", MergeRest(src, dst, tail))
    ensures
      var rest := MergeRest(src, dst, tail);
      match ParseLine(parse, line, n)
      case Merge(s, d, value, key) =>
        && src < n && dst < n && src != dst && s == src && d == dst
        && Gives(rest, "value=", value) && Gives(rest, "key=", key)
      case Nothing => src >= n || dst >= n || src == dst
      case _ => false
  {
    var rest := MergeRest(src, dst, tail);
    MergeRestIsTight(src, dst, tail);
    MergeIndicesRead(src, dst, tail, n);
    hide *;
    ReadsMerge(parse, line, rest, n);
    ExtractGives(rest, "value=");
    ExtractGives(rest, "key=");
  }

  lemma MergeRestIsTight(src: nat, dst: nat, tail: string)
    requires Tight(tail)
    ensures Tight(MergeRest(src, dst, tail)) && MergeRest(src, dst, tail) != ""
  {
    TightRest(Decimal(src + 1) + " ", dst + 1, tail);
  }

  /** The digits and points that follow the first occurrence of `marker`. */
  ghost predicate GivesNumber(parse: string -> Option<real>, text: string, marker: string, number: Option<real>) {
    if exists rest :: Behind(text, marker, rest) then
      exists rest, k: nat :: Behind(text, marker, rest) && NumeralEnds(rest, k) && number == parse(rest[..k])
    else number == None
  }

  ghost predicate NumeralEnds(rest: string, k: nat) {
    && k <= |rest| && (forall i :: 0 <= i < k ==> IsDigit(rest[i]) || rest[i] == '.')
    && (k < |rest| ==> !IsDigit(rest[k]) && rest[k] != '.')
  }

  lemma FloatGives(parse: string -> Option<real>, text: string, marker: string)
    ensures GivesNumber(parse, text, marker, ExtractFloat(parse, text, marker))
  {
    var k := AfterIs(text, marker);
    hide After, StartsWith;
    if After(text, marker).Some? {
      var rest := After(text, marker).value;
      var n := IndexOf(rest, c => !('0' <= c <= '9') && c != '.');
      assert Behind(text, marker, rest) && NumeralEnds(rest, n);
    }
  }

  /** An EVOLVE line: the fact, its new value and its new confidence. */
  lemma EvolveLine(parse: string -> Option<real>, line: string, index: nat, tail: string, n: nat)
    requires index + 1 < USIZE && AtWordEnd(tail) && Tight(tail)
    requires Headed(line, "EVOLVE ", Decimal(index + 1) + tail)
    ensures
      var rest := Decimal(index + 1) + tail;
      match ParseLine(parse, line, n)
      case Evolve(i, value, confidence) =>
        index < n && i == index && Gives(rest, "value=", value) && GivesNumber(parse, rest, "confidence=", confidence)
      case Nothing => index >= n
      case _ => false
  {
    var rest := Decimal(index + 1) + tail;
    TightRest("", index + 1, tail);
    assert "" + Decimal(index + 1) + tail == rest;
    EvolveIndexReads(index, tail, n);
    hide *;
    ReadsEvolve(parse, line, rest, n);
    ExtractGives(rest, "value=");
    FloatGives(parse, rest, "confidence=");
  }

  /** An INSIGHT line: a key and a value, both needed. */
  lemma InsightLine(parse: string -> Option<real>, line: string, rest: string, n: nat)
    requires Headed(line, "INSIGHT ", rest) && rest != "" && Tight(rest)
    ensures match ParseLine(parse, line, n)
      case Insight(key, value) => Gives(rest, "key=", Some(key)) && Gives(rest, "value=", Some(value))
      case Nothing => Gives(rest, "key=", None) || Gives(rest, "value=", None)
      case _ => false
  {
    hide *;
    ReadsInsight(parse, line, rest, n);
    ExtractGives(rest, "value=");
    ExtractGives(rest, "key=");
  }

  // ----- The store after an action -----

  /** A merge that is not skipped: the source is to be deleted, and the target is stored with what the line gave. */
  lemma MergeStores(cx: Context, p: Progress, src: nat, dst: nat, value: Option<string>, key: Option<string>)
    requires cx.facts != [] && src < |cx.facts| && dst < |cx.facts| && src != dst
    ensures
      var p', f := Act(cx, p, Merge(src, dst, value, key)), cx.facts[dst];
      if src in p.toDelete || dst in p.toDelete then p' == p
      else
        && p'.toDelete == p.toDelete + [src] && p'.evolved == p.evolved && p'.insights == p.insights
        && p'.merged == p.merged + 1
        && p'.store == p.store[f.id := Fact(
             f.id, if key.Some? then key.value else f.key, if value.Some? then String(value.value) else f.value,
             f.confidence, f.importance, Consolidated, f.accessCount, f.lastAccessed, f.createdAt, cx.now, f.continuity)]
  {
  }

  /** An evolution that is not skipped: the fact is stored with the new value and confidence. */
  lemma EvolveStores(cx: Context, p: Progress, index: nat, value: Option<string>, confidence: Option<real>)
    requires cx.facts != [] && index < |cx.facts|
    ensures
      var p', f := Act(cx, p, Evolve(index, value, confidence)), cx.facts[index];
      if index in p.evolved || index in p.toDelete then p' == p
      else
        && p'.toDelete == p.toDelete && p'.evolved == p.evolved + [index] && p'.insights == p.insights
        && p'.merged == p.merged
        && p'.store == p.store[f.id := Fact(
             f.id, f.key, if value.Some? then String(value.value) else f.value,
             if confidence.Some? then confidence.value else f.confidence, f.importance, Consolidated,
             f.accessCount, f.lastAccessed, f.createdAt, cx.now, f.continuity)]
  {
  }

  /** An insight: a new fact under a new id, half important, fairly certain, and never accessed. */
  lemma InsightStores(cx: Context, p: Progress, key: string, value: string)
    requires cx.facts != []
    ensures
      var p', id, c := Act(cx, p, Insight(key, value)), cx.newId(p.insights), cx.facts[0].continuity;
      && p'.toDelete == p.toDelete && p'.evolved == p.evolved && p'.insights == p.insights + 1 && p'.merged == p.merged
      && p'.store == p.store[id := Fact(
           id, key, String(value), 0.7, 0.5, Consolidated, 0, cx.now, cx.now, cx.now,
           Continuity(c.scope, true, true, false, c.projectId, c.userId, None))]
  {
  }

  // ----- Numbers -----

  /** A number may carry a plus sign; nothing else but digits is accepted, and nothing that overflows. */
  lemma NumberIff(word: string, n: nat)
    ensures ParseUsize(word) == Some(n) <==>
      exists digits :: (word == digits || word == "+" + digits) && AllDigits(digits)
        && DigitsValue(digits) == n && n < 0x1_0000_0000_0000_0000
  {
    hide DigitsValue;
    var digits := if word != "" && word[0] == '+' then word[1..] else word;
    assert word != "" && word[0] == '+' ==> word == "+" + digits;
    forall other | (word == other || word == "+" + other) && AllDigits(other)
      ensures other == digits
    {
      if word == other {
        assert other[0] != '+';
      } else {
        assert ("+" + other)[1..] == other;
      }
    }
  }
}
