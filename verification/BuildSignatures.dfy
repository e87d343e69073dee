/** Signatures of build errors, which tell errors already in the baseline from new ones. */
module BuildSignatures {
  import opened Sequences
  import opened Text

  // ----- Line and column numbers -----

  function AfterDigits(s: string): (r: string)
    ensures |r| <= |s|
    ensures r == "" || !IsDigit(r[0])
  {
    if s != "" && IsDigit(s[0]) then AfterDigits(s[1..]) else s
  }

  predicate NumberAt(s: string, i: nat) {
    i + 1 < |s| && s[i] == ':' && IsDigit(s[i + 1])
  }

  /** The text with every number after a colon replaced by `N`. */
  function Mask(s: string): string
    decreases |s|
  {
    if s == "" then ""
    else if NumberAt(s, 0) then ":N" + Mask(AfterDigits(s[1..]))
    else [s[0]] + Mask(s[1..])
  }

  /** `strip_line_col`. */
  method StripLineCol(line: string) returns (result: string)
    ensures result == Mask(line)
  {
    result := "";
    var i := 0;
    while i < |line|
      invariant 0 <= i <= |line|
      invariant result + Mask(line[i..]) == Mask(line)
    {
      var start := i;
      ghost var before := result;
      ghost var rest := line[i..];
      assert rest[1..] == line[i + 1..];
      if line[i] == ':' && i + 1 < |line| && IsDigit(line[i + 1]) {
        result := result + ":N";
        i := i + 1;
        while i < |line| && IsDigit(line[i])
          invariant start < i <= |line|
          invariant AfterDigits(line[i..]) == AfterDigits(line[start + 1..])
        {
          assert line[i..][1..] == line[i + 1..];
          i := i + 1;
        }
        assert AfterDigits(line[i..]) == line[i..];
        assert Mask(rest) == ":N" + Mask(line[i..]);
        Associative(before, ":N", Mask(line[i..]));
      } else {
        result := result + [line[i]];
        i := i + 1;
        assert Mask(rest) == [line[start]] + Mask(line[i..]);
        Associative(before, [line[start]], Mask(line[i..]));
      }
    }
    assert line[i..] == "";
  }

  lemma {:induction false} AfterDigitsSplit(x: string, y: string)
    requires y == "" || !IsDigit(y[0])
    ensures AfterDigits(x + y) == AfterDigits(x) + y
  {
    if x == "" {
      assert x + y == y;
    } else {
      assert (x + y)[1..] == x[1..] + y;
      if IsDigit(x[0]) {
        AfterDigitsSplit(x[1..], y);
      }
    }
  }

  lemma {:induction false} AfterAllDigits(d: string, y: string)
    requires forall i :: 0 <= i < |d| ==> IsDigit(d[i])
    ensures AfterDigits(d + y) == AfterDigits(y)
  {
    if d == "" {
      assert d + y == y;
    } else {
      assert (d + y)[1..] == d[1..] + y;
      AfterAllDigits(d[1..], y);
    }
  }

  /** Masking works on both sides of a character that neither starts nor continues a number. */
  lemma {:induction false} MaskSplit(x: string, w: char, y: string)
    requires !IsDigit(w) && w != ':'
    ensures Mask(x + [w] + y) == Mask(x) + [w] + Mask(y)
    decreases |x|
  {
    hide Mask;
    var tail := [w] + y;
    assert x + [w] + y == x + tail;
    MaskCons(w, y);
    MaskStep(x);
    if x == "" {
      assert x + tail == tail;
    } else if NumberAt(x, 0) {
      var rest := AfterDigits(x[1..]);
      MaskSplit(rest, w, y);
      MaskAfterNumber(x, tail);
      assert rest + tail == rest + [w] + y;
      assert ":N" + (Mask(rest) + [w] + Mask(y)) == (":N" + Mask(rest)) + [w] + Mask(y);
    } else {
      MaskSplit(x[1..], w, y);
      assert x + tail == [x[0]] + (x[1..] + tail);
      assert x[1..] + tail == x[1..] + [w] + y;
      MaskCons(x[0], x[1..] + tail);
      assert [x[0]] + (Mask(x[1..]) + [w] + Mask(y)) == ([x[0]] + Mask(x[1..])) + [w] + Mask(y);
    }
  }

  lemma MaskSnoc(x: string, w: char)
    requires !IsDigit(w) && w != ':'
    ensures Mask(x + [w]) == Mask(x) + [w]
  {
    assert x + [w] + "" == x + [w];
    MaskSplit(x, w, "");
  }

  /** Characters other than digits and the mark itself are kept. */
  lemma {:induction false} MaskMembers(x: string, c: char)
    requires !IsDigit(c) && c != 'N'
    ensures c in Mask(x) <==> c in x
    decreases |x|
  {
    if x != "" {
      assert x == [x[0]] + x[1..];
      if NumberAt(x, 0) {
        MaskMembers(AfterDigits(x[1..]), c);
        AfterDigitsMembers(x[1..], c);
      } else {
        MaskMembers(x[1..], c);
      }
    }
  }

  lemma {:induction false} AfterDigitsMembers(x: string, c: char)
    requires !IsDigit(c)
    ensures c in AfterDigits(x) <==> c in x
  {
    if x != "" && IsDigit(x[0]) {
      assert x == [x[0]] + x[1..];
      AfterDigitsMembers(x[1..], c);
    }
  }

  lemma MaskFirst(x: string)
    ensures Mask(x) == "" <==> x == ""
    ensures x != "" ==> Mask(x)[0] == x[0]
  {
  }

  lemma {:induction false} AfterDigitsLast(x: string)
    requires x != ""
    ensures var rest := AfterDigits(x);
      if rest == "" then IsDigit(x[|x| - 1]) else rest[|rest| - 1] == x[|x| - 1]
  {
    if IsDigit(x[0]) && |x| > 1 {
      AfterDigitsLast(x[1..]);
    }
  }

  lemma {:induction false} MaskLast(x: string)
    requires x != ""
    ensures Mask(x) != ""
    ensures var last := Mask(x)[|Mask(x)| - 1];
      last == x[|x| - 1] || (IsDigit(x[|x| - 1]) && last == 'N')
    decreases |x|
  {
    if NumberAt(x, 0) {
      AfterDigitsLast(x[1..]);
      if AfterDigits(x[1..]) != "" {
        MaskLast(AfterDigits(x[1..]));
      }
    } else if |x| > 1 {
      MaskLast(x[1..]);
    }
  }

  /** A masked text has no number after a colon, so masking leaves it alone. */
  lemma {:induction false} MaskTwice(x: string)
    ensures Mask(Mask(x)) == Mask(x)
    decreases |x|
  {
    if x != "" {
      if NumberAt(x, 0) {
        MaskTwice(AfterDigits(x[1..]));
        MaskMark(Mask(AfterDigits(x[1..])));
      } else {
        MaskTwice(x[1..]);
        MaskFirst(x[1..]);
        MaskCons(x[0], Mask(x[1..]));
      }
    }
  }

  lemma MaskCons(c: char, y: string)
    requires c != ':' || y == "" || !IsDigit(y[0])
    ensures Mask([c] + y) == [c] + Mask(y)
  {
    assert ([c] + y)[1..] == y;
  }

  lemma MaskMark(y: string)
    ensures Mask(":N" + y) == ":N" + Mask(y)
  {
    hide Mask;
    MaskCons('N', y);
    MaskCons(':', ['N'] + y);
    assert ":N" + y == [':'] + (['N'] + y);
    assert ":N" + Mask(y) == [':'] + (['N'] + Mask(y));
  }

  // ----- Renumbering -----

  predicate Numeral(d: string) {
    d != "" && forall i :: 0 <= i < |d| ==> IsDigit(d[i])
  }

  /** Replacing any digits that follow a colon by any other digits does not show in the masked text. */
  lemma RenumberingIsMasked(before: string, d: string, e: string, after: string)
    requires Numeral(d) && Numeral(e)
    ensures Mask(before + ":" + d + after) == Mask(before + ":" + e + after)
  {
    MaskNumber(before, d, after);
    MaskNumber(before, e, after);
  }

  lemma {:induction false} MaskNumber(before: string, d: string, after: string)
    requires Numeral(d)
    ensures Mask(before + ":" + d + after) == Mask(before) + ":N" + Mask(AfterDigits(after))
    decreases |before|
  {
    hide Mask;
    var number := ":" + d + after;
    assert before + ":" + d + after == before + number;
    var masked := ":N" + Mask(AfterDigits(after));
    if before == "" {
      assert number[1..] == d + after;
      AfterAllDigits(d, after);
      MaskStep(number);
      MaskStep("");
      assert before + number == number;
    } else if NumberAt(before, 0) {
      MaskNumber(AfterDigits(before[1..]), d, after);
      MaskAfterNumber(before, number);
      MaskStep(before);
      NumberCarried(":N", AfterDigits(before[1..]), d, after);
    } else {
      MaskNumber(before[1..], d, after);
      MaskStep(before);
      assert before == [before[0]] + before[1..];
      assert before + number == [before[0]] + (before[1..] + number);
      MaskCons(before[0], before[1..] + number);
      NumberCarried([before[0]], before[1..], d, after);
    }
  }

  lemma MaskStep(s: string)
    ensures s == "" ==> Mask(s) == ""
    ensures NumberAt(s, 0) ==> Mask(s) == ":N" + Mask(AfterDigits(s[1..]))
    ensures s != "" && !NumberAt(s, 0) ==> Mask(s) == [s[0]] + Mask(s[1..])
  {
  }

  /** A number at the head ends before the text that is put behind it. */
  lemma MaskAfterNumber(x: string, y: string)
    requires NumberAt(x, 0) && y != "" && !IsDigit(y[0])
    ensures Mask(x + y) == ":N" + Mask(AfterDigits(x[1..]) + y)
  {
    hide Mask;
    assert (x + y)[1..] == x[1..] + y;
    AfterDigitsSplit(x[1..], y);
    MaskStep(x + y);
  }

  lemma NumberCarried(head: string, x: string, d: string, after: string)
    requires Mask(x + ":" + d + after) == Mask(x) + ":N" + Mask(AfterDigits(after))
    ensures head + Mask(x + (":" + d + after)) == head + Mask(x) + ":N" + Mask(AfterDigits(after))
  {
    hide Mask;
    assert x + (":" + d + after) == x + ":" + d + after;
  }

  /** Masking works on both sides of any place that is not before a digit. */
  lemma {:induction false} MaskConcat(x: string, y: string)
    requires y == "" || !IsDigit(y[0])
    ensures Mask(x + y) == Mask(x) + Mask(y)
    decreases |x|
  {
    hide Mask;
    MaskStep(x);
    if x == "" {
      assert x + y == y;
    } else if y == "" {
      assert x + y == x;
      MaskStep(y);
    } else if NumberAt(x, 0) {
      var rest := AfterDigits(x[1..]);
      MaskAfterNumber(x, y);
      MaskConcat(rest, y);
      Associative(":N", Mask(rest), Mask(y));
    } else {
      assert x + y == [x[0]] + (x[1..] + y);
      MaskConcat(x[1..], y);
      MaskCons(x[0], x[1..] + y);
      Associative([x[0]], Mask(x[1..]), Mask(y));
    }
  }

  /** A literal `:N` is not told apart from a number, wherever it stands. */
  lemma LiteralMarkReadsAsNumber(before: string, d: string, after: string)
    requires Numeral(d) && (after == "" || !IsDigit(after[0]))
    ensures Mask(before + ":N" + after) == Mask(before + ":" + d + after)
  {
    hide Mask;
    MaskNumber(before, d, after);
    assert before + ":N" + after == before + (":N" + after);
    MaskConcat(before, ":N" + after);
    MaskMark(after);
    Associative(Mask(before), ":N", Mask(after));
  }

  // ----- Masking commutes with reading lines -----

  lemma {:induction false} MaskTrimStart(x: string)
    ensures TrimStart(Mask(x)) == Mask(TrimStart(x))
  {
    MaskFirst(x);
    if x != "" && IsWhitespace(x[0]) {
      MaskTrimStart(x[1..]);
      assert Mask(x)[1..] == Mask(x[1..]);
    }
  }

  lemma {:induction false} MaskTrimEnd(x: string)
    ensures TrimEnd(Mask(x)) == Mask(TrimEnd(x))
  {
    if x != "" {
      var init, w := x[..|x| - 1], x[|x| - 1];
      assert x == init + [w];
      if IsWhitespace(w) {
        MaskSnoc(init, w);
        MaskTrimEnd(init);
        hide Mask;
        assert Mask(x)[..|Mask(x)| - 1] == Mask(init);
      } else {
        MaskLast(x);
      }
    }
  }

  lemma MaskTrim(x: string)
    ensures Trim(Mask(x)) == Mask(Trim(x))
  {
    hide Mask;
    MaskTrimStart(x);
    MaskTrimEnd(TrimStart(x));
  }

  lemma MaskStripCr(x: string)
    ensures StripCr(Mask(x)) == Mask(StripCr(x))
  {
    if x != "" {
      var init, w := x[..|x| - 1], x[|x| - 1];
      assert x == init + [w];
      if w == '\r' {
        MaskSnoc(init, w);
        hide Mask;
        assert (Mask(init) + [w])[..|Mask(init)|] == Mask(init);
      } else {
        MaskLast(x);
      }
    }
  }

  function MaskEach(lines: seq<string>): (r: seq<string>)
    ensures |r| == |lines|
  {
    seq(|lines|, i requires 0 <= i < |lines| => Mask(lines[i]))
  }

  lemma {:induction false} MaskLines(s: string)
    ensures Lines(Mask(s)) == MaskEach(Lines(s))
    decreases |s|
  {
    hide Mask, Lines;
    MaskFirst(s);
    if s == "" {
      NoLines();
    } else if NewlineAt(s) == |s| {
      MaskMembers(s, '\n');
      LastLine(s);
      LastLine(Mask(s));
      assert MaskEach([s]) == [Mask(s)];
    } else {
      var k := NewlineAt(s);
      var line, rest := s[..k], s[k + 1..];
      MaskFirstLine(s);
      FirstLine(s);
      FirstLine(Mask(s));
      MaskStripCr(line);
      hide NewlineAt, StripCr;
      MaskLines(rest);
      assert MaskEach([StripCr(line)] + Lines(rest)) == [Mask(StripCr(line))] + MaskEach(Lines(rest));
    }
  }

  lemma MaskFirstLine(s: string)
    requires NewlineAt(s) < |s|
    ensures
      var k := NewlineAt(s);
      var m, n := Mask(s), |Mask(s[..k])|;
      m != "" && NewlineAt(m) == n && n < |m| && m[..n] == Mask(s[..k]) && m[n + 1..] == Mask(s[k + 1..])
  {
    hide Mask;
    var k := NewlineAt(s);
    var line, rest := s[..k], s[k + 1..];
    assert s == line + ['\n'] + rest;
    MaskSplit(line, '\n', rest);
    MaskMembers(line, '\n');
    NewlineFound(Mask(line), Mask(rest));
  }

  /** No colon of the prefix has a digit or the mark right after it. */
  predicate Plain(prefix: string) {
    forall i :: 0 <= i < |prefix| - 1 && prefix[i] == ':' ==> !IsDigit(prefix[i + 1]) && prefix[i + 1] != 'N'
  }

  lemma {:induction false} MaskStartsWith(x: string, prefix: string)
    requires Plain(prefix)
    ensures StartsWith(Mask(x), prefix) <==> StartsWith(x, prefix)
  {
    if x != "" && prefix != "" {
      StartsWithStep(x, prefix);
      StartsWithStep(Mask(x), prefix);
      if NumberAt(x, 0) {
        if |prefix| > 1 && prefix[0] == ':' {
          StartsWithStep(x[1..], prefix[1..]);
          StartsWithStep(Mask(x)[1..], prefix[1..]);
          assert prefix[1] == prefix[1..][0];
        }
      } else {
        assert Mask(x)[1..] == Mask(x[1..]);
        var p := prefix[1..];
        assert forall i :: 0 <= i < |p| ==> p[i] == prefix[i + 1];
        MaskStartsWith(x[1..], p);
      }
    }
  }

  lemma StartsWithStep(x: string, prefix: string)
    requires x != "" && prefix != ""
    ensures StartsWith(x, prefix) <==> x[0] == prefix[0] && StartsWith(x[1..], prefix[1..])
  {
    if |prefix| <= |x| {
      assert x[..|prefix|] == [x[0]] + x[1..][..|prefix| - 1];
      assert prefix == [prefix[0]] + prefix[1..];
    }
  }

  // ----- One line of an error -----

  predicate HasCode(t: string) { StartsWith(t, "error[E") }
  predicate IsError(t: string) { StartsWith(t, "error:") }
  predicate IsAborting(t: string) { StartsWith(t, "error: aborting") }
  predicate IsMoreInfo(t: string) { StartsWith(t, "For more information") }
  predicate IsHelp(t: string) { StartsWith(t, "help:") }
  predicate IsLocation(t: string) { StartsWith(t, "-->") }

  predicate StartsError(t: string) {
    HasCode(t) || (IsError(t) && !IsAborting(t))
  }

  predicate IsStart(line: string) {
    StartsError(TrimStart(line))
  }

  predicate IsUnderline(c: char) {
    c == '^' || c == '-' || c == ' ' || c == '~' || c == '+'
  }

  predicate OnlyUnderlines(s: string) {
    forall i :: 0 <= i < |s| ==> IsUnderline(s[i])
  }

  /** What a line adds to the signature of its block. */
  function NormalLine(line: string): Option<string> {
    var trimmed := Trim(line);
    if trimmed == "" || IsMoreInfo(trimmed) || IsHelp(trimmed) then None
    else if IsLocation(trimmed) then Some("-->LOCATION")
    else if IsDigit(trimmed[0]) && '|' in trimmed then None
    else if OnlyUnderlines(trimmed) then None
    else
      var normalized := Mask(trimmed);
      if normalized != "" then Some(normalized) else None
  }

  lemma MaskHeads(t: string)
    ensures HasCode(Mask(t)) <==> HasCode(t)
    ensures IsError(Mask(t)) <==> IsError(t)
    ensures IsAborting(Mask(t)) <==> IsAborting(t)
  {
    hide Mask, StartsWith;
    MaskStartsWith(t, "error[E");
    MaskStartsWith(t, "error:");
    MaskStartsWith(t, "error: aborting");
  }

  lemma MaskStartsError(t: string)
    ensures StartsError(Mask(t)) <==> StartsError(t)
  {
    hide Mask, HasCode, IsError, IsAborting;
    MaskHeads(t);
  }

  lemma NotesArePlain()
    ensures Plain("For more information") && Plain("help:") && Plain("-->")
  {
  }

  lemma MaskNotes(t: string)
    ensures IsMoreInfo(Mask(t)) <==> IsMoreInfo(t)
    ensures IsHelp(Mask(t)) <==> IsHelp(t)
    ensures IsLocation(Mask(t)) <==> IsLocation(t)
  {
    hide Mask, StartsWith, Plain;
    NotesArePlain();
    MaskStartsWith(t, "For more information");
    MaskStartsWith(t, "help:");
    MaskStartsWith(t, "-->");
  }

  lemma IsStartOf(line: string)
    ensures IsStart(line) <==> StartsError(TrimStart(line))
  {
  }

  lemma MaskIsStart(line: string)
    ensures IsStart(Mask(line)) <==> IsStart(line)
  {
    hide *;
    var t := TrimStart(line);
    MaskTrimStart(line);
    MaskStartsError(t);
    IsStartOf(line);
    IsStartOf(Mask(line));
  }

  lemma MaskOnlyUnderlines(x: string)
    ensures OnlyUnderlines(Mask(x)) <==> OnlyUnderlines(x)
  {
    MaskMembers(x, ':');
    if ':' in x {
      assert !OnlyUnderlines(x) && !OnlyUnderlines(Mask(x));
    } else {
      NothingToMask(x);
    }
  }

  lemma {:induction false} NothingToMask(x: string)
    requires ':' !in x
    ensures Mask(x) == x
  {
    if x != "" {
      NothingToMask(x[1..]);
    }
  }

  lemma MaskNormalLine(line: string)
    ensures NormalLine(Mask(line)) == NormalLine(line)
  {
    hide Mask, OnlyUnderlines, IsMoreInfo, IsHelp, IsLocation, Trim;
    var t := Trim(line);
    MaskTrim(line);
    MaskFirst(t);
    MaskNotes(t);
    MaskMembers(t, '|');
    MaskOnlyUnderlines(t);
    MaskTwice(t);
  }

  // ----- The signature of a block -----

  function NormalLines(lines: seq<string>): seq<string> {
    if lines == [] then []
    else
      NormalLines(lines[..|lines| - 1]) +
      match NormalLine(lines[|lines| - 1]) case Some(n) => [n] case None => []
  }

  function Insert(sorted: seq<string>, x: string): seq<string> {
    if sorted == [] || Less(x, sorted[0]) then [x] + sorted else [sorted[0]] + Insert(sorted[1..], x)
  }

  /** `sort`. */
  function Sort(xs: seq<string>): seq<string> {
    if xs == [] then [] else Insert(Sort(xs[..|xs| - 1]), xs[|xs| - 1])
  }

  /** `dedup`: drop every element equal to its neighbour. */
  function Dedup(xs: seq<string>): seq<string> {
    if |xs| < 2 then xs
    else if xs[0] == xs[1] then Dedup(xs[1..])
    else [xs[0]] + Dedup(xs[1..])
  }

  function Join(lines: seq<string>): string {
    if lines == [] then ""
    else if |lines| == 1 then lines[0]
    else lines[0] + "\n" + Join(lines[1..])
  }

  function Signature(lines: seq<string>): string {
    Join(Dedup(Sort(NormalLines(lines))))
  }

  lemma NormalLinesSnoc(lines: seq<string>, i: nat)
    requires i < |lines|
    ensures NormalLines(lines[..i + 1]) ==
      NormalLines(lines[..i]) + match NormalLine(lines[i]) case Some(n) => [n] case None => []
  {
    hide NormalLine;
    var upto := lines[..i + 1];
    assert upto[..i] == lines[..i] && upto[i] == lines[i];
  }

  /** `normalize_block`. */
  method NormalizeBlock(block: string) returns (r: string)
    ensures r == Signature(Lines(block))
  {
    hide Mask, OnlyUnderlines, IsMoreInfo, IsHelp, IsLocation, Trim, Join, Dedup, Sort;
    var lines: seq<string> := [];
    var all := Lines(block);
    for i := 0 to |all|
      invariant lines == NormalLines(all[..i])
    {
      hide NormalLines, Lines;
      var trimmed := Trim(all[i]);
      NormalLinesSnoc(all, i);
      if trimmed == "" || IsMoreInfo(trimmed) || IsHelp(trimmed) {
        continue;
      }
      if IsLocation(trimmed) {
        lines := lines + ["-->LOCATION"];
        continue;
      }
      if IsDigit(trimmed[0]) && '|' in trimmed {
        continue;
      }
      if OnlyUnderlines(trimmed) {
        continue;
      }
      var normalized := StripLineCol(trimmed);
      if normalized != "" {
        lines := lines + [normalized];
      }
    }
    assert all[..|all|] == all;
    r := Join(Dedup(Sort(lines)));
  }

  // ----- Sorting and deduplicating leave a set -----

  ghost predicate Ascending(xs: seq<string>) {
    forall i, j :: 0 <= i < j < |xs| ==> Less(xs[i], xs[j])
  }

  predicate AtMost(a: string, b: string) {
    a == b || Less(a, b)
  }

  ghost predicate Sorted(xs: seq<string>) {
    forall i, j :: 0 <= i < j < |xs| ==> AtMost(xs[i], xs[j])
  }

  ghost predicate SameElements(a: seq<string>, b: seq<string>) {
    forall x :: x in a <==> x in b
  }

  lemma AtMostTransitive(a: string, b: string, c: string)
    requires AtMost(a, b) && AtMost(b, c)
    ensures AtMost(a, c)
  {
    if a != b && b != c {
      LessIsTransitive(a, b, c);
    }
  }

  lemma SortedCons(x: string, xs: seq<string>)
    requires Sorted(xs) && (xs != [] ==> AtMost(x, xs[0]))
    ensures Sorted([x] + xs)
  {
    var ys := [x] + xs;
    forall i, j | 0 <= i < j < |ys|
      ensures AtMost(ys[i], ys[j])
    {
      assert ys[j] == xs[j - 1];
      if i > 0 {
        assert ys[i] == xs[i - 1];
      } else if j > 1 {
        AtMostTransitive(x, xs[0], xs[j - 1]);
      }
    }
  }

  lemma {:induction false} InsertSorts(sorted: seq<string>, x: string)
    requires Sorted(sorted)
    ensures Sorted(Insert(sorted, x))
    ensures forall y :: y in Insert(sorted, x) <==> y == x || y in sorted
    ensures Insert(sorted, x) != [] && (Insert(sorted, x)[0] == x || (sorted != [] && Insert(sorted, x)[0] == sorted[0]))
  {
    hide Less;
    if sorted == [] || Less(x, sorted[0]) {
      SortedCons(x, sorted);
    } else {
      LessIsTotal(x, sorted[0]);
      var rest := sorted[1..];
      assert sorted == [sorted[0]] + rest;
      assert forall i :: 0 <= i < |rest| ==> rest[i] == sorted[i + 1];
      InsertSorts(rest, x);
      SortedCons(sorted[0], Insert(rest, x));
    }
  }

  lemma {:induction false} SortSorts(xs: seq<string>)
    ensures Sorted(Sort(xs)) && SameElements(Sort(xs), xs)
  {
    hide Insert;
    if xs != [] {
      var init, last := xs[..|xs| - 1], xs[|xs| - 1];
      SortSorts(init);
      InsertSorts(Sort(init), last);
      assert xs == init + [last];
    }
  }

  lemma {:induction false} DedupAscends(xs: seq<string>)
    requires Sorted(xs)
    ensures Ascending(Dedup(xs)) && SameElements(Dedup(xs), xs)
    ensures xs != [] ==> Dedup(xs) != [] && Dedup(xs)[0] == xs[0]
  {
    hide Less;
    if |xs| >= 2 {
      var rest := xs[1..];
      assert xs == [xs[0]] + rest;
      assert forall i :: 0 <= i < |rest| ==> rest[i] == xs[i + 1];
      DedupAscends(rest);
      if xs[0] != xs[1] {
        AscendingCons(xs[0], Dedup(rest));
      }
    }
  }

  lemma AscendingCons(x: string, xs: seq<string>)
    requires Ascending(xs) && (xs != [] ==> Less(x, xs[0]))
    ensures Ascending([x] + xs)
  {
    hide Less;
    var ys := [x] + xs;
    forall i, j | 0 <= i < j < |ys|
      ensures Less(ys[i], ys[j])
    {
      assert ys[j] == xs[j - 1];
      if i > 0 {
        assert ys[i] == xs[i - 1];
      } else if j > 1 {
        LessIsTransitive(x, xs[0], xs[j - 1]);
      }
    }
  }

  /** Strictly ascending lists with the same elements are equal. */
  lemma {:induction false} AscendingIsUnique(a: seq<string>, b: seq<string>)
    requires Ascending(a) && Ascending(b) && SameElements(a, b)
    ensures a == b
  {
    hide Less;
    assert a == [] <==> b == [] by {
      assert a != [] ==> a[0] in a;
      assert b != [] ==> b[0] in b;
    }
    if a != [] {
      FirstIsLeast(a, b);
      FirstIsLeast(b, a);
      LessIsTotal(a[0], b[0]);
      TailElements(a, b);
      AscendingIsUnique(a[1..], b[1..]);
      assert a == [a[0]] + a[1..] && b == [b[0]] + b[1..];
    }
  }

  lemma FirstIsLeast(a: seq<string>, b: seq<string>)
    requires Ascending(a) && SameElements(a, b) && b != []
    ensures a != [] && AtMost(a[0], b[0])
  {
    hide Less;
    assert b[0] in a;
  }

  lemma TailElements(a: seq<string>, b: seq<string>)
    requires Ascending(a) && Ascending(b) && SameElements(a, b) && a != [] && b != [] && a[0] == b[0]
    ensures SameElements(a[1..], b[1..]) && Ascending(a[1..]) && Ascending(b[1..])
  {
    hide Less;
    FirstNotInTail(a);
    FirstNotInTail(b);
  }

  lemma FirstNotInTail(a: seq<string>)
    requires Ascending(a) && a != []
    ensures Ascending(a[1..])
    ensures forall x :: x in a[1..] <==> x in a && x != a[0]
  {
    hide Less;
    LessIsTotal(a[0], a[0]);
    var rest := a[1..];
    assert forall i :: 0 <= i < |rest| ==> rest[i] == a[i + 1];
    assert a == [a[0]] + rest;
  }

  // ----- Joined lines can be told apart -----

  ghost predicate Separate(lines: seq<string>) {
    forall i :: 0 <= i < |lines| ==> lines[i] != "" && '\n' !in lines[i]
  }

  lemma JoinFirst(lines: seq<string>)
    requires Separate(lines) && lines != []
    ensures Join(lines) != "" && NewlineAt(Join(lines)) == |lines[0]| && Join(lines)[..|lines[0]|] == lines[0]
    ensures |lines| == 1 <==> |Join(lines)| == |lines[0]|
    ensures |lines| > 1 ==> Join(lines)[|lines[0]| + 1..] == Join(lines[1..])
  {
    NewlineFound(lines[0], Join(lines[1..]));
    if |lines| > 1 {
      assert Join(lines) == lines[0] + "\n" + Join(lines[1..]);
    }
  }

  lemma {:induction false} JoinIsInjective(a: seq<string>, b: seq<string>)
    requires Separate(a) && Separate(b) && Join(a) == Join(b)
    ensures a == b
  {
    if a != [] {
      JoinFirst(a);
    }
    if b != [] {
      JoinFirst(b);
    }
    if a != [] && b != [] {
      assert a == [a[0]] + a[1..] && b == [b[0]] + b[1..];
      if |a| > 1 {
        hide Join, NewlineAt;
        JoinIsInjective(a[1..], b[1..]);
      }
    }
  }

  lemma {:induction false} NormalLinesAreSeparate(lines: seq<string>)
    requires forall i :: 0 <= i < |lines| ==> '\n' !in lines[i]
    ensures Separate(NormalLines(lines))
  {
    if lines != [] {
      var init, last := lines[..|lines| - 1], lines[|lines| - 1];
      NormalLinesAreSeparate(init);
      NormalLineIsSeparate(last);
      hide NormalLine;
      assert Separate(NormalLines(init));
    }
  }

  lemma NormalLineIsSeparate(line: string)
    requires '\n' !in line
    ensures NormalLine(line).Some? ==> NormalLine(line).value != "" && '\n' !in NormalLine(line).value
  {
    var t := Trim(line);
    assert '\n' !in TrimStart(line);
    assert '\n' !in t;
    MaskMembers(t, '\n');
    hide Mask, OnlyUnderlines, Trim, IsMoreInfo, IsHelp, IsLocation;
  }

  /** The signature of a block says which normalized lines it has, not how often or in which order. */
  lemma SignatureIsSet(a: seq<string>, b: seq<string>)
    requires forall i :: 0 <= i < |a| ==> '\n' !in a[i]
    requires forall i :: 0 <= i < |b| ==> '\n' !in b[i]
    ensures Signature(a) == Signature(b) <==> SameElements(NormalLines(a), NormalLines(b))
  {
    hide NormalLines, Sort, Dedup, Join, Less;
    CanonicalLines(a);
    CanonicalLines(b);
    var c, d := Dedup(Sort(NormalLines(a))), Dedup(Sort(NormalLines(b)));
    if SameElements(NormalLines(a), NormalLines(b)) {
      AscendingIsUnique(c, d);
    }
    if Signature(a) == Signature(b) {
      JoinIsInjective(c, d);
    }
  }

  lemma CanonicalLines(lines: seq<string>)
    requires forall i :: 0 <= i < |lines| ==> '\n' !in lines[i]
    ensures
      var c := Dedup(Sort(NormalLines(lines)));
      Ascending(c) && SameElements(c, NormalLines(lines)) && Separate(c)
  {
    hide NormalLines, Sort, Dedup, Less;
    var n := NormalLines(lines);
    SortSorts(n);
    DedupAscends(Sort(n));
    NormalLinesAreSeparate(lines);
    var c := Dedup(Sort(n));
    forall i | 0 <= i < |c|
      ensures c[i] != "" && '\n' !in c[i]
    {
      assert c[i] in c;
      assert c[i] in n;
    }
  }

  // ----- All the errors of a build -----

  /** Signatures found so far, and the lines of the error being read. */
  datatype Scan = Scan(signatures: seq<string>, block: seq<string>)

  function Emit(signatures: seq<string>, block: seq<string>): seq<string> {
    var sig := Signature(block);
    if sig == "" then signatures else signatures + [sig]
  }

  function ScanLine(scan: Scan, line: string): Scan {
    var start := IsStart(line);
    var closed := if start && scan.block != [] then Scan(Emit(scan.signatures, scan.block), []) else scan;
    if closed.block != [] || start then closed.(block := closed.block + [line]) else closed
  }

  function ScanAll(lines: seq<string>): Scan {
    if lines == [] then Scan([], []) else ScanLine(ScanAll(lines[..|lines| - 1]), lines[|lines| - 1])
  }

  function Closed(scan: Scan): seq<string> {
    if scan.block == [] then scan.signatures else Emit(scan.signatures, scan.block)
  }

  function Signatures(output: string): seq<string> {
    Closed(ScanAll(Lines(output)))
  }

  /** A block as text, each line ended by a newline. */
  function Unlines(lines: seq<string>): string {
    if lines == [] then "" else Unlines(lines[..|lines| - 1]) + lines[|lines| - 1] + "\n"
  }

  /** The error block that has been read is normalized and its signature, if any, is kept. */
  method CloseBlock(signatures: seq<string>, block: string, ghost lines: seq<string>) returns (r: seq<string>)
    requires block == Unlines(lines) && NoNewlines(lines)
    ensures r == Emit(signatures, lines)
  {
    hide Unlines, Signature;
    BlockSignature(lines);
    var sig := NormalizeBlock(block);
    r := if sig != "" then signatures + [sig] else signatures;
  }

  ghost predicate NoNewlines(lines: seq<string>) {
    forall i :: 0 <= i < |lines| ==> '\n' !in lines[i]
  }

  /** `extract_signatures`. */
  method ExtractSignatures(output: string) returns (signatures: seq<string>)
    ensures signatures == Signatures(output)
  {
    hide IsStart, Signature, Emit, Unlines;
    signatures := [];
    var block := "";
    var lines := Lines(output);
    ghost var scan := ScanAll([]);
    LinesHaveNoNewline(output);
    UnlinesEmpty([]);
    for i := 0 to |lines|
      invariant scan == ScanAll(lines[..i])
      invariant signatures == scan.signatures && block == Unlines(scan.block) && NoNewlines(scan.block)
    {
      hide ScanAll, Lines, NoNewlines;
      var isStart := IsStart(lines[i]);
      ScanSnoc(lines, i);
      UnlinesEmpty(scan.block);
      ghost var closed := scan;
      if isStart && block != "" {
        signatures := CloseBlock(signatures, block, scan.block);
        block := "";
        closed := Scan(signatures, []);
      }
      ClosedBlock(lines, i, closed.block);
      UnlinesEmpty(closed.block);
      if block != "" || isStart {
        UnlinesSnoc(closed.block, lines[i]);
        block := block + lines[i] + "\n";
      }
      scan := ScanLine(scan, lines[i]);
    }
    assert lines[..|lines|] == lines;
    UnlinesEmpty(scan.block);
    if block != "" {
      signatures := CloseBlock(signatures, block, scan.block);
    }
  }

  lemma ClosedBlock(lines: seq<string>, i: nat, block: seq<string>)
    requires NoNewlines(lines) && i < |lines| && (block == [] || NoNewlines(block))
    ensures NoNewlines(block) && NoNewlines(block + [lines[i]])
  {
  }

  lemma ScanSnoc(lines: seq<string>, i: nat)
    requires i < |lines|
    ensures ScanAll(lines[..i + 1]) == ScanLine(ScanAll(lines[..i]), lines[i])
  {
    hide ScanLine;
    var upto := lines[..i + 1];
    assert upto[..i] == lines[..i] && upto[i] == lines[i];
  }

  lemma UnlinesEmpty(lines: seq<string>)
    ensures Unlines(lines) == "" <==> lines == []
  {
  }

  lemma UnlinesSnoc(lines: seq<string>, line: string)
    ensures Unlines(lines + [line]) == Unlines(lines) + line + "\n"
  {
    var longer := lines + [line];
    assert longer[..|lines|] == lines;
  }

  lemma {:induction false} LinesHaveNoNewline(s: string)
    ensures NoNewlines(Lines(s))
    decreases |s|
  {
    hide Lines;
    if s == "" {
      NoLines();
    } else if NewlineAt(s) == |s| {
      LastLine(s);
    } else {
      FirstLine(s);
      LinesHaveNoNewline(s[NewlineAt(s) + 1..]);
    }
  }

  // ----- Reading a block back -----

  function StripEach(lines: seq<string>): (r: seq<string>)
    ensures |r| == |lines|
  {
    seq(|lines|, i requires 0 <= i < |lines| => StripCr(lines[i]))
  }

  /** Text ended by a newline splits there. */
  lemma {:induction false} LinesConcat(s: string, line: string)
    requires '\n' !in line && (s == "" || s[|s| - 1] == '\n')
    ensures Lines(s + line + "\n") == Lines(s) + [StripCr(line)]
    decreases |s|
  {
    hide Lines;
    var t := s + line + "\n";
    if s == "" {
      assert t == line + "\n" + "";
      NewlineFound(line, "");
      FirstLine(t);
      NoLines();
      assert t[..|line|] == line && t[|line| + 1..] == "";
    } else {
      var k := NewlineAt(s);
      assert k < |s|;
      var first, rest := s[..k], s[k + 1..];
      assert t == first + "\n" + (rest + line + "\n");
      NewlineFound(first, rest + line + "\n");
      FirstLine(s);
      FirstLine(t);
      hide NewlineAt, StripCr;
      assert t[..k] == first && t[k + 1..] == rest + line + "\n";
      LinesConcat(rest, line);
      Associative([StripCr(first)], Lines(rest), [StripCr(line)]);
    }
  }

  lemma {:induction false} LinesOfUnlines(lines: seq<string>)
    requires forall i :: 0 <= i < |lines| ==> '\n' !in lines[i]
    ensures Lines(Unlines(lines)) == StripEach(lines)
  {
    hide Lines, StripCr;
    if lines == [] {
      NoLines();
    } else {
      var init, last := lines[..|lines| - 1], lines[|lines| - 1];
      LinesOfUnlines(init);
      LinesConcat(Unlines(init), last);
      assert StripEach(lines) == StripEach(init) + [StripCr(last)];
    }
  }

  lemma {:induction false} TrimStartSnoc(x: string, w: char)
    requires IsWhitespace(w)
    ensures TrimStart(x + [w]) == if TrimStart(x) == "" then "" else TrimStart(x) + [w]
  {
    var s := x + [w];
    if x == "" {
      assert s[1..] == "";
    } else if IsWhitespace(x[0]) {
      assert s[1..] == x[1..] + [w];
      TrimStartSnoc(x[1..], w);
    }
  }

  lemma TrimEndSnoc(x: string, w: char)
    requires IsWhitespace(w)
    ensures TrimEnd(x + [w]) == TrimEnd(x)
  {
    assert (x + [w])[..|x|] == x;
  }

  lemma NothingToTrim()
    ensures TrimEnd("") == ""
  {
  }

  lemma TrimStripCr(x: string)
    ensures Trim(StripCr(x)) == Trim(x)
  {
    hide TrimStart, TrimEnd;
    if x != "" && x[|x| - 1] == '\r' {
      var init := x[..|x| - 1];
      assert x == init + ['\r'];
      TrimStartSnoc(init, '\r');
      TrimEndSnoc(TrimStart(init), '\r');
      NothingToTrim();
    }
  }

  lemma NormalLineStripped(line: string)
    ensures NormalLine(StripCr(line)) == NormalLine(line)
  {
    TrimStripCr(line);
    hide Mask, OnlyUnderlines, IsMoreInfo, IsHelp, IsLocation, Trim, StripCr;
  }

  lemma NormalLinesUnfold(lines: seq<string>)
    requires lines != []
    ensures NormalLines(lines) ==
      NormalLines(lines[..|lines| - 1]) + match NormalLine(lines[|lines| - 1]) case Some(n) => [n] case None => []
  {
    hide NormalLine;
  }

  lemma {:induction false} NormalLinesStripped(lines: seq<string>)
    ensures NormalLines(StripEach(lines)) == NormalLines(lines)
  {
    if lines == [] {
      assert StripEach(lines) == lines;
    } else {
      hide NormalLine, StripCr, NormalLines;
      var init, last := lines[..|lines| - 1], lines[|lines| - 1];
      NormalLinesUnfold(lines);
      NormalLinesUnfold(StripEach(lines));
      NormalLineStripped(last);
      NormalLinesStripped(init);
      assert StripEach(lines)[..|lines| - 1] == StripEach(init);
    }
  }

  /** Writing a block as text and splitting it again does not change its signature. */
  lemma BlockSignature(block: seq<string>)
    requires forall i :: 0 <= i < |block| ==> '\n' !in block[i]
    ensures Signature(Lines(Unlines(block))) == Signature(block)
  {
    hide Lines, Unlines, NormalLines, Sort, Dedup, Join;
    LinesOfUnlines(block);
    NormalLinesStripped(block);
  }

  // ----- Signatures see the masked text only -----

  lemma {:induction false} MaskNormalLines(lines: seq<string>)
    ensures NormalLines(MaskEach(lines)) == NormalLines(lines)
  {
    if lines == [] {
      assert MaskEach(lines) == lines;
    } else {
      hide NormalLine, Mask, NormalLines;
      var init, last := lines[..|lines| - 1], lines[|lines| - 1];
      NormalLinesUnfold(lines);
      NormalLinesUnfold(MaskEach(lines));
      MaskNormalLine(last);
      MaskNormalLines(init);
      assert MaskEach(lines)[..|lines| - 1] == MaskEach(init);
    }
  }

  lemma MaskEmit(signatures: seq<string>, block: seq<string>)
    ensures Emit(signatures, MaskEach(block)) == Emit(signatures, block)
  {
    hide Mask, NormalLines, Sort, Dedup, Join;
    MaskNormalLines(block);
  }

  lemma MaskScanLine(scan: Scan, line: string)
    ensures ScanLine(Scan(scan.signatures, MaskEach(scan.block)), Mask(line)) ==
      Scan(ScanLine(scan, line).signatures, MaskEach(ScanLine(scan, line).block))
  {
    hide Mask, Emit, IsStart;
    MaskIsStart(line);
    MaskEmit(scan.signatures, scan.block);
    assert MaskEach(scan.block + [line]) == MaskEach(scan.block) + [Mask(line)];
    assert MaskEach([line]) == [Mask(line)];
  }

  lemma {:induction false} MaskScanAll(lines: seq<string>)
    ensures ScanAll(MaskEach(lines)) == Scan(ScanAll(lines).signatures, MaskEach(ScanAll(lines).block))
  {
    if lines != [] {
      hide Mask, ScanLine;
      var init, last := lines[..|lines| - 1], lines[|lines| - 1];
      MaskScanAll(init);
      MaskScanLine(ScanAll(init), last);
      assert MaskEach(lines)[..|lines| - 1] == MaskEach(init);
    }
  }

  /** The signatures of an output are those of the same output with its numbers masked. */
  lemma SignaturesOfMasked(output: string)
    ensures Signatures(Mask(output)) == Signatures(output)
  {
    hide Mask, Lines, ScanAll, Emit;
    MaskLines(output);
    MaskScanAll(Lines(output));
    var scan := ScanAll(Lines(output));
    MaskEmit(scan.signatures, scan.block);
  }

  // ----- Chains of renumberings -----

  predicate NoDigitAhead(s: string) {
    s == "" || !IsDigit(s[0])
  }

  /** What stands for a number after a colon: digits and, if `literal`, an `N` that no digit follows. */
  predicate Number(d: string, after: string, literal: bool) {
    Numeral(d) || (literal && d == "N" && NoDigitAhead(after))
  }

  ghost predicate RenumberedBy(
    a: string, b: string, literal: bool, before: string, d: string, e: string, after: string) {
    && Number(d, after, literal) && Number(e, after, literal)
    && a == before + ":" + d + after && b == before + ":" + e + after
  }

  /** One number after a colon is replaced by another. */
  ghost predicate Renumbered(a: string, b: string, literal: bool) {
    exists before, d, e, after :: RenumberedBy(a, b, literal, before, d, e, after)
  }

  /** Each output in turn changes one number after a colon of the one before. */
  ghost predicate Renumberings(outputs: seq<string>, literal: bool) {
    forall i :: 0 < i < |outputs| ==> Renumbered(outputs[i - 1], outputs[i], literal)
  }

  ghost predicate ChainFrom(outputs: seq<string>, a: string, b: string, literal: bool) {
    outputs != [] && outputs[0] == a && outputs[|outputs| - 1] == b && Renumberings(outputs, literal)
  }

  lemma RenumberedOnce(a: string, b: string, literal: bool)
    requires Renumbered(a, b, literal)
    ensures Mask(a) == Mask(b)
  {
    var before, d, e, after :| RenumberedBy(a, b, literal, before, d, e, after);
    hide Mask;
    NumberIsMasked(before, d, after, literal);
    NumberIsMasked(before, e, after, literal);
  }

  lemma NumberIsMasked(before: string, d: string, after: string, literal: bool)
    requires Number(d, after, literal)
    ensures Mask(before + ":" + d + after) == Mask(before + ":0" + after)
  {
    hide Mask;
    assert before + ":0" + after == before + ":" + "0" + after;
    if Numeral(d) {
      RenumberingIsMasked(before, d, "0", after);
    } else {
      assert before + ":" + "N" + after == before + ":N" + after;
      LiteralMarkReadsAsNumber(before, "0", after);
    }
  }

  lemma {:induction false} RenumberedOften(outputs: seq<string>, literal: bool, k: nat)
    requires Renumberings(outputs, literal) && k < |outputs|
    ensures Mask(outputs[k]) == Mask(outputs[0])
  {
    hide Mask, Renumbered;
    if k > 0 {
      RenumberedOften(outputs, literal, k - 1);
      RenumberedOnce(outputs[k - 1], outputs[k], literal);
    }
  }

  /** Each text of a chain, behind the same words. */
  function Behind(words: string, outputs: seq<string>): (r: seq<string>)
    ensures |r| == |outputs|
  {
    seq(|outputs|, i requires 0 <= i < |outputs| => words + outputs[i])
  }

  lemma RenumberedBehind(words: string, a: string, b: string, literal: bool)
    requires Renumbered(a, b, literal)
    ensures Renumbered(words + a, words + b, literal)
  {
    hide Number;
    var before, d, e, after :| RenumberedBy(a, b, literal, before, d, e, after);
    assert words + a == (words + before) + ":" + d + after;
    assert words + b == (words + before) + ":" + e + after;
    assert RenumberedBy(words + a, words + b, literal, words + before, d, e, after);
  }

  lemma ChainGrows(words: string, outputs: seq<string>, a: string, b: string, literal: bool)
    requires ChainFrom(outputs, a, b, literal)
    ensures ChainFrom(Behind(words, outputs), words + a, words + b, literal)
  {
    hide Renumbered;
    forall i | 0 < i < |outputs|
      ensures Renumbered(Behind(words, outputs)[i - 1], Behind(words, outputs)[i], literal)
    {
      assert Renumbered(outputs[i - 1], outputs[i], literal);
      RenumberedBehind(words, outputs[i - 1], outputs[i], literal);
    }
  }

  lemma ChainSnoc(outputs: seq<string>, a: string, c: string, b: string, literal: bool)
    requires ChainFrom(outputs, a, c, literal) && Renumbered(c, b, literal)
    ensures ChainFrom(outputs + [b], a, b, literal)
  {
    hide Renumbered;
    var longer := outputs + [b];
    forall i | 0 < i < |longer|
      ensures Renumbered(longer[i - 1], longer[i], literal)
    {
      assert i < |outputs| ==> Renumbered(outputs[i - 1], outputs[i], literal);
    }
  }

  // ----- Nothing but renumbering is masked -----

  /** The text does not spell out the mark that stands for a number. */
  ghost predicate NoLiteralMark(s: string) {
    forall i :: 0 <= i < |s| - 1 && s[i] == ':' ==> s[i + 1] != 'N'
  }

  /** Unless an `N` counts as a number, there is none after a colon. */
  ghost predicate Fair(s: string, literal: bool) {
    literal || NoLiteralMark(s)
  }

  lemma FairSuffix(s: string, k: nat, literal: bool)
    requires Fair(s, literal) && k <= |s|
    ensures Fair(s[k..], literal)
  {
    var t := s[k..];
    assert forall i :: 0 <= i < |t| ==> t[i] == s[k + i];
  }

  /** The text starts with a colon and a number. */
  predicate NumberHead(s: string, literal: bool) {
    NumberAt(s, 0) || (literal && |s| > 1 && s[0] == ':' && s[1] == 'N' && NoDigitAhead(s[2..]))
  }

  function DigitsOf(s: string): (d: string)
    ensures |d| <= |s| && s == d + AfterDigits(s)
    ensures forall i :: 0 <= i < |d| ==> IsDigit(d[i])
    ensures s != "" && IsDigit(s[0]) ==> d != ""
  {
    if s != "" && IsDigit(s[0]) then
      var d := [s[0]] + DigitsOf(s[1..]);
      assert s == [s[0]] + s[1..];
      d
    else ""
  }

  lemma DigitsBehind(a: string)
    requires NumberAt(a, 0)
    ensures
      var d := DigitsOf(a[1..]);
      Numeral(d) && a == ":" + d + AfterDigits(a[1..])
  {
    var d := DigitsOf(a[1..]);
    assert a == [':'] + a[1..];
    assert a[1..][0] == a[1];
  }

  /** The number at the head of a text, and the text behind it. */
  lemma NumberParts(a: string, literal: bool) returns (d: string, x: string)
    requires NumberHead(a, literal)
    ensures a == ":" + d + x && |x| < |a| && NoDigitAhead(x)
    ensures Numeral(d) || (literal && d == "N")
    ensures Mask(a) == ":N" + Mask(x)
  {
    hide Mask;
    if NumberAt(a, 0) {
      d, x := DigitsOf(a[1..]), AfterDigits(a[1..]);
      DigitsBehind(a);
      MaskStep(a);
    } else {
      d, x := "N", a[2..];
      assert a == ":N" + x && ":N" + x == ":" + "N" + x;
      MaskMark(x);
    }
  }

  /** Of two texts with the same masked text, either both start with a number or none does. */
  lemma HeadsAgree(a: string, b: string, literal: bool)
    requires NumberHead(a, literal) && Mask(a) == Mask(b) && Fair(b, literal)
    ensures NumberHead(b, literal)
  {
    hide Mask;
    var d, x := NumberParts(a, literal);
    MaskFirst(b);
    MaskStep(b);
    if !NumberAt(b, 0) {
      assert Mask(b)[1..] == Mask(b[1..]) && Mask(a)[1..] == "N" + Mask(x);
      MaskFirst(b[1..]);
      MaskStep(b[1..]);
      assert b[1..][1..] == b[2..];
      assert ("N" + Mask(x))[1..] == Mask(x) && Mask(b[1..])[1..] == Mask(b[2..]);
      MaskFirst(x);
      MaskFirst(b[2..]);
    }
  }

  lemma NumberHop(d: string, e: string, y: string, literal: bool)
    requires Number(d, y, literal) && Number(e, y, literal)
    ensures Renumbered(":" + d + y, ":" + e + y, literal)
  {
    hide Number;
    assert "" + ":" + d + y == ":" + d + y && "" + ":" + e + y == ":" + e + y;
    assert RenumberedBy(":" + d + y, ":" + e + y, literal, "", d, e, y);
  }

  /** Texts with the same masked text are joined by renumberings. */
  lemma {:induction false} SameMaskIsRenumbered(a: string, b: string, literal: bool) returns (outputs: seq<string>)
    requires Mask(a) == Mask(b) && Fair(a, literal) && Fair(b, literal)
    ensures ChainFrom(outputs, a, b, literal)
    decreases |a|
  {
    hide Mask, NumberHead, Fair, Renumbered;
    MaskFirst(a);
    MaskFirst(b);
    if a == "" {
      outputs := [a];
    } else if NumberHead(a, literal) || NumberHead(b, literal) {
      if NumberHead(a, literal) {
        HeadsAgree(a, b, literal);
      } else {
        HeadsAgree(b, a, literal);
      }
      outputs := JoinNumbers(a, b, literal);
    } else {
      NotNumberAt(a, literal);
      NotNumberAt(b, literal);
      FairSuffix(a, 1, literal);
      FairSuffix(b, 1, literal);
      var rest := SameMaskIsRenumbered(a[1..], b[1..], literal);
      ChainGrows([a[0]], rest, a[1..], b[1..], literal);
      outputs := Behind([a[0]], rest);
      assert a == [a[0]] + a[1..] && b == [b[0]] + b[1..];
    }
  }

  lemma NotNumberAt(a: string, literal: bool)
    requires a != "" && !NumberHead(a, literal)
    ensures Mask(a) != "" && Mask(a)[1..] == Mask(a[1..])
  {
    MaskStep(a);
    hide Mask;
  }

  lemma {:induction false} JoinNumbers(a: string, b: string, literal: bool) returns (outputs: seq<string>)
    requires Mask(a) == Mask(b) && Fair(a, literal) && Fair(b, literal)
    requires NumberHead(a, literal) && NumberHead(b, literal)
    ensures ChainFrom(outputs, a, b, literal)
    decreases |a|, 0
  {
    hide Mask, Renumberings, Renumbered, Fair, NumberHead, Numeral, NoDigitAhead;
    var d, x := NumberParts(a, literal);
    var e, y := NumberParts(b, literal);
    assert Mask(x) == Mask(a)[2..] && Mask(y) == Mask(b)[2..];
    assert a[|a| - |x|..] == x && b[|b| - |y|..] == y;
    FairSuffix(a, |a| - |x|, literal);
    FairSuffix(b, |b| - |y|, literal);
    var rest := SameMaskIsRenumbered(x, y, literal);
    ChainGrows(":" + d, rest, x, y, literal);
    NumberHop(d, e, y, literal);
    ChainSnoc(Behind(":" + d, rest), a, ":" + d + y, b, literal);
    outputs := Behind(":" + d, rest) + [b];
  }

  lemma ChainIsMasked(outputs: seq<string>, a: string, b: string, literal: bool)
    requires ChainFrom(outputs, a, b, literal)
    ensures Mask(a) == Mask(b)
  {
    hide Mask, Renumberings;
    RenumberedOften(outputs, literal, |outputs| - 1);
  }

  /**
   * Masked texts are equal if and only if a chain of renumberings leads from one text to the other, where an `N`
   * that no digit follows counts as a number: masking hides the numbers after colons and nothing else.
   */
  lemma SameMaskIff(a: string, b: string)
    ensures Mask(a) == Mask(b) <==> exists outputs :: ChainFrom(outputs, a, b, true)
  {
    hide Mask, ChainFrom;
    if Mask(a) == Mask(b) {
      var outputs := SameMaskIsRenumbered(a, b, true);
    }
    if outputs :| ChainFrom(outputs, a, b, true) {
      ChainIsMasked(outputs, a, b, true);
    }
  }

  /** For texts that do not spell out the mark, digits are changed for digits all the way. */
  lemma PlainSameMaskIff(a: string, b: string)
    requires NoLiteralMark(a) && NoLiteralMark(b)
    ensures Mask(a) == Mask(b) <==> exists outputs :: ChainFrom(outputs, a, b, false)
  {
    hide Mask, ChainFrom;
    if Mask(a) == Mask(b) {
      var outputs := SameMaskIsRenumbered(a, b, false);
    }
    if outputs :| ChainFrom(outputs, a, b, false) {
      ChainIsMasked(outputs, a, b, false);
    }
  }

  // ----- A literal mark is no number -----

  function Ns(s: string): nat {
    multiset(s)['N']
  }

  lemma NsOfNumber(before: string, d: string, after: string)
    requires Numeral(d)
    ensures Ns(before + ":" + d + after) == Ns(before) + Ns(after)
  {
    assert 'N' !in d;
  }

  /** Changing digits for digits keeps the number of `N` characters. */
  lemma RenumberedKeepsNs(a: string, b: string)
    requires Renumbered(a, b, false)
    ensures Ns(a) == Ns(b)
  {
    var before, d, e, after :| RenumberedBy(a, b, false, before, d, e, after);
    hide Ns;
    NsOfNumber(before, d, after);
    NsOfNumber(before, e, after);
  }

  lemma {:induction false} ChainKeepsNs(outputs: seq<string>, k: nat)
    requires Renumberings(outputs, false) && k < |outputs|
    ensures Ns(outputs[k]) == Ns(outputs[0])
  {
    hide Renumbered, Ns;
    if k > 0 {
      ChainKeepsNs(outputs, k - 1);
      RenumberedKeepsNs(outputs[k - 1], outputs[k]);
    }
  }

  /** The masked texts of a literal `:N` and of a number agree, yet no change of digits leads from one to the other. */
  lemma LiteralMarkIsNoRenumbering(before: string, d: string, after: string)
    requires Numeral(d) && NoDigitAhead(after)
    ensures Mask(before + ":N" + after) == Mask(before + ":" + d + after)
    ensures !exists outputs :: ChainFrom(outputs, before + ":N" + after, before + ":" + d + after, false)
  {
    LiteralMarkReadsAsNumber(before, d, after);
    NsOfNumber(before, d, after);
    var a, b := before + ":N" + after, before + ":" + d + after;
    assert Ns(a) == Ns(before) + 1 + Ns(after);
    hide Mask, Ns, Renumberings;
    forall outputs
      ensures !ChainFrom(outputs, a, b, false)
    {
      if ChainFrom(outputs, a, b, false) {
        ChainKeepsNs(outputs, |outputs| - 1);
      }
    }
  }

  /** However many numbers after colons change, the signatures do not. */
  lemma RenumberingKeepsSignatures(outputs: seq<string>, literal: bool)
    requires Renumberings(outputs, literal) && outputs != []
    ensures Signatures(outputs[|outputs| - 1]) == Signatures(outputs[0])
  {
    hide Mask, Signatures;
    RenumberedOften(outputs, literal, |outputs| - 1);
    SignaturesOfMasked(outputs[0]);
    SignaturesOfMasked(outputs[|outputs| - 1]);
  }

  // ----- Comparing with the baseline -----

  function Header(newCount: nat, preexisting: nat): string {
    "[BASELINE] " + Decimal(newCount) + " error(s) are NEW (introduced by your changes), " + Decimal(preexisting) +
    " error(s) are PRE-EXISTING (ignore them). Focus only on the new errors.\n\n"
  }

  function NewOnes(baseline: seq<string>, signatures: seq<string>): seq<string> {
    Filter((sig: string) => sig !in baseline, signatures)
  }

  /** The header counts the signatures outside and inside the baseline; it is left out when none is inside. */
  function Annotated(baseline: seq<string>, output: string): string {
    var current := Signatures(output);
    var n := |NewOnes(baseline, current)|;
    if n >= |current| then output else Header(n, |current| - n) + output
  }

  /** `annotate`. */
  method Annotate(baseline: seq<string>, output: string) returns (r: string)
    ensures r == Annotated(baseline, output)
  {
    hide Signatures, Header, Filter;
    var isNew := (sig: string) => sig !in baseline;
    if baseline == [] {
      FilterAll(isNew, Signatures(output));
      return output;
    }
    var current := ExtractSignatures(output);
    if current == [] {
      return output;
    }
    var newCount, preexisting := 0, 0;
    FilterNone(isNew, []);
    for i := 0 to |current|
      invariant newCount == |NewOnes(baseline, current[..i])| && newCount + preexisting == i
    {
      assert current[..i + 1] == current[..i] + [current[i]];
      FilterSnoc(isNew, current[..i], current[i]);
      if current[i] in baseline {
        preexisting := preexisting + 1;
      } else {
        newCount := newCount + 1;
      }
    }
    assert current[..|current|] == current;
    if preexisting == 0 {
      return output;
    }
    r := Header(newCount, preexisting) + output;
  }

  /** Comparing a renumbered copy with the output it came from reports no new error and all the old ones. */
  lemma RenumberedCopyHasNothingNew(outputs: seq<string>, literal: bool)
    requires Renumberings(outputs, literal) && outputs != []
    ensures
      var baseline, copy := Signatures(outputs[0]), outputs[|outputs| - 1];
      Annotated(baseline, copy) == if baseline == [] then copy else Header(0, |baseline|) + copy
  {
    hide Signatures, Header, Filter;
    RenumberingKeepsSignatures(outputs, literal);
    var baseline := Signatures(outputs[0]);
    FilterNone((sig: string) => sig !in baseline, baseline);
  }

  ghost function CountOutside(baseline: seq<string>, signatures: seq<string>): nat {
    if signatures == [] then 0
    else
      var n := |signatures| - 1;
      CountOutside(baseline, signatures[..n]) + if signatures[n] in baseline then 0 else 1
  }

  lemma {:induction false} NewOnesCounted(baseline: seq<string>, signatures: seq<string>)
    ensures |NewOnes(baseline, signatures)| == CountOutside(baseline, signatures) <= |signatures|
  {
    var isNew := (sig: string) => sig !in baseline;
    hide Filter;
    if signatures == [] {
      FilterNone(isNew, signatures);
    } else {
      var n := |signatures| - 1;
      assert signatures == signatures[..n] + [signatures[n]];
      NewOnesCounted(baseline, signatures[..n]);
      FilterSnoc(isNew, signatures[..n], signatures[n]);
    }
  }

  /** What an annotated output says in front: how many errors are new and how many are not, unless all are new. */
  lemma AnnotationReads(baseline: seq<string>, output: string)
    ensures
      var current := Signatures(output);
      var unseen := CountOutside(baseline, current);
      && unseen <= |current|
      && Annotated(baseline, output) == if unseen == |current| then output
         else "[BASELINE] " + Decimal(unseen) + " error(s) are NEW (introduced by your changes), " + Decimal(|current| - unseen)
              + " error(s) are PRE-EXISTING (ignore them). Focus only on the new errors.\n\n" + output
  {
    NewOnesCounted(baseline, Signatures(output));
    hide Signatures, Decimal, CountOutside, NewOnes;
  }
}
