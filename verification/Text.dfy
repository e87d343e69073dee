/** Text as the Rust code sees it: UTF-8 byte lengths, whitespace, trimming and decimal numerals. */
module Text {
  datatype Option<+T> = None | Some(value: T)

  /** `char::is_whitespace`: the Unicode White_Space property. */
  predicate IsWhitespace(c: char) {
    || '\U{0009}' <= c <= '\U{000D}'
    || c == ' '
    || c == '\U{0085}'
    || c == '\U{00A0}'
    || c == '\U{1680}'
    || '\U{2000}' <= c <= '\U{200A}'
    || c == '\U{2028}'
    || c == '\U{2029}'
    || c == '\U{202F}'
    || c == '\U{205F}'
    || c == '\U{3000}'
  }

  /** Below 128 that is the space and the five control characters from tab to carriage return. */
  lemma AsciiWhitespace(c: char)
    requires c as int < 128
    ensures IsWhitespace(c) <==> c == ' ' || 9 <= c as int <= 13
  {
  }

  /** `text.trim().is_empty()`. */
  predicate IsBlank(s: string) {
    forall i :: 0 <= i < |s| ==> IsWhitespace(s[i])
  }

  function TrimStart(s: string): (r: string)
    ensures |r| <= |s| && r == s[|s| - |r|..]
    ensures r != "" ==> !IsWhitespace(r[0])
  {
    if s != "" && IsWhitespace(s[0]) then TrimStart(s[1..]) else s
  }

  function TrimEnd(s: string): (r: string)
    ensures |r| <= |s| && r == s[..|r|]
    ensures r != "" ==> !IsWhitespace(r[|r| - 1])
  {
    if s != "" && IsWhitespace(s[|s| - 1]) then TrimEnd(s[..|s| - 1]) else s
  }

  /** `str::trim`. */
  function Trim(s: string): string {
    TrimEnd(TrimStart(s))
  }

  /** Bytes of one character in UTF-8. */
  function CharBytes(c: char): (n: nat)
    ensures 1 <= n <= 4
  {
    if c < '\U{0080}' then 1
    else if c < '\U{0800}' then 2
    else if c < '\U{10000}' then 3
    else 4
  }

  /** `str::len`: the length in bytes. */
  function ByteLen(s: string): nat {
    if s == "" then 0 else ByteLen(s[..|s| - 1]) + CharBytes(s[|s| - 1])
  }

  /** The widths of UTF-8. */
  lemma ByteLenOfChar(c: char)
    ensures
      var code := c as int;
      ByteLen([c]) == if code < 0x80 then 1 else if code < 0x800 then 2 else if code < 0x1_0000 then 3 else 4
  {
    assert [c][..0] == "";
    assert ByteLen("") == 0;
  }

  predicate OneByte(s: string) {
    forall i :: 0 <= i < |s| ==> s[i] < '\U{0080}'
  }

  lemma {:induction false} ByteLenBounds(s: string)
    ensures |s| <= ByteLen(s) <= 4 * |s|
    ensures OneByte(s) ==> ByteLen(s) == |s|
  {
    if s != "" {
      ByteLenBounds(s[..|s| - 1]);
      assert s == s[..|s| - 1] + [s[|s| - 1]];
    }
  }

  lemma {:induction false} ByteLenConcat(a: string, b: string)
    ensures ByteLen(a + b) == ByteLen(a) + ByteLen(b)
  {
    if b == "" {
      assert a + b == a;
    } else {
      assert (a + b)[..|a + b| - 1] == a + b[..|b| - 1];
      ByteLenConcat(a, b[..|b| - 1]);
    }
  }

  /** The decimal numeral that `format!("{n}")` writes. */
  function Decimal(n: nat): (r: string)
    ensures |r| >= 1
    ensures forall i :: 0 <= i < |r| ==> '0' <= r[i] <= '9'
  {
    if n < 10 then ['0' + n as char] else Decimal(n / 10) + ['0' + (n % 10) as char]
  }

  function Pow10(k: nat): (p: nat)
    ensures p >= 1
  {
    if k == 0 then 1 else 10 * Pow10(k - 1)
  }

  /** A number below 10^k is written with at most k digits. */
  lemma {:induction false} DecimalLength(n: nat, k: nat)
    requires 1 <= k && n < Pow10(k)
    ensures |Decimal(n)| <= k
  {
    if n >= 10 {
      DecimalLength(n / 10, k - 1);
    }
  }

  /** The exclusive bound of `usize` on a 64-bit target. */
  const USIZE: nat := 0x1_0000_0000_0000_0000

  lemma UsizeDigits(n: nat)
    requires n < USIZE
    ensures |Decimal(n)| <= 20
  {
    assert Pow10(5) == 100_000;
    assert Pow10(10) == 100_000 * Pow10(5);
    assert Pow10(15) == 100_000 * Pow10(10);
    assert Pow10(20) == 100_000 * Pow10(15);
    DecimalLength(n, 20);
  }

  lemma InkIsNotTrimmed(s: string)
    requires s != "" && !IsWhitespace(s[0]) && !IsWhitespace(s[|s| - 1])
    ensures Trim(s) == s
  {
  }

  lemma BlankIffTrimmedEmpty(s: string)
    ensures IsBlank(s) <==> Trim(s) == ""
  {
    var t := TrimStart(s);
    if !IsBlank(s) {
      TrimStartKeepsInk(s);
      TrimEndKeepsInk(t);
    }
  }

  lemma {:induction false} TrimStartKeepsInk(s: string)
    ensures IsBlank(TrimStart(s)) ==> IsBlank(s)
  {
    if s != "" && IsWhitespace(s[0]) {
      TrimStartKeepsInk(s[1..]);
      assert forall i :: 0 < i < |s| ==> s[i] == s[1..][i - 1];
    }
  }

  lemma {:induction false} TrimEndKeepsInk(s: string)
    ensures IsBlank(TrimEnd(s)) ==> IsBlank(s)
  {
    if s != "" && IsWhitespace(s[|s| - 1]) {
      TrimEndKeepsInk(s[..|s| - 1]);
      assert s == s[..|s| - 1] + [s[|s| - 1]];
    }
  }

  predicate IsDigit(c: char) {
    '0' <= c <= '9'
  }

  predicate StartsWith(s: string, prefix: string) {
    |prefix| <= |s| && s[..|prefix|] == prefix
  }

  /** Position of the first character satisfying `stop`, or the length. */
  function IndexOf(s: string, stop: char -> bool): (k: nat)
    ensures k <= |s|
    ensures k < |s| ==> stop(s[k])
    ensures forall i :: 0 <= i < k ==> !stop(s[i])
  {
    if s == "" || stop(s[0]) then 0 else 1 + IndexOf(s[1..], stop)
  }

  lemma {:induction false} IndexOfStops(s: string, rest: string, stop: char -> bool)
    requires forall i :: 0 <= i < |s| ==> !stop(s[i])
    requires rest == "" || stop(rest[0])
    ensures IndexOf(s + rest, stop) == |s|
  {
    if s == "" {
      assert s + rest == rest;
    } else {
      assert (s + rest)[1..] == s[1..] + rest;
      IndexOfStops(s[1..], rest, stop);
    }
  }

  function NewlineAt(s: string): (k: nat)
    ensures k <= |s|
    ensures k < |s| ==> s[k] == '\n'
    ensures forall i :: 0 <= i < k ==> s[i] != '\n'
  {
    IndexOf(s, c => c == '\n')
  }

  lemma NewlineFound(line: string, rest: string)
    requires '\n' !in line
    ensures NewlineAt(line + "\n" + rest) == |line|
    ensures NewlineAt(line) == |line|
  {
    var s := line + "\n" + rest;
    assert s[|line|] == '\n';
    assert forall i :: 0 <= i < |line| ==> s[i] == line[i];
  }

  /** The carriage return of a CRLF line end belongs to the line end. */
  function StripCr(line: string): string {
    if line != "" && line[|line| - 1] == '\r' then line[..|line| - 1] else line
  }

  /** `str::lines`. */
  function Lines(s: string): seq<string>
    decreases |s|
  {
    if s == "" then []
    else
      var k := NewlineAt(s);
      if k == |s| then [s] else [StripCr(s[..k])] + Lines(s[k + 1..])
  }

  lemma NoLines()
    ensures Lines("") == []
  {
  }

  lemma FirstLine(s: string)
    requires NewlineAt(s) < |s|
    ensures
      var k := NewlineAt(s);
      Lines(s) == [StripCr(s[..k])] + Lines(s[k + 1..])
  {
    hide NewlineAt, StripCr;
  }

  lemma LastLine(s: string)
    requires s != "" && '\n' !in s
    ensures Lines(s) == [s]
  {
    NewlineFound(s, "");
    hide NewlineAt;
  }

  /** The order of `str`, by code point. */
  predicate Less(a: string, b: string) {
    b != "" && (a == "" || a[0] < b[0] || (a[0] == b[0] && Less(a[1..], b[1..])))
  }

  lemma {:induction false} LessIsTotal(a: string, b: string)
    ensures a == b || Less(a, b) || Less(b, a)
    ensures !(Less(a, b) && Less(b, a))
  {
    if a != "" && b != "" && a[0] == b[0] {
      LessIsTotal(a[1..], b[1..]);
      assert a == [a[0]] + a[1..] && b == [b[0]] + b[1..];
    }
  }

  lemma {:induction false} LessIsTransitive(a: string, b: string, c: string)
    requires Less(a, b) && Less(b, c)
    ensures Less(a, c)
  {
    if a != "" && a[0] == b[0] == c[0] {
      LessIsTransitive(a[1..], b[1..], c[1..]);
    }
  }

  /** The first difference decides: a smaller character, or the end of the shorter text. */
  lemma {:induction false} LessIff(a: string, b: string) returns (k: nat)
    ensures Less(a, b) <==> DiffersAt(a, b, k)
    ensures forall i: nat :: DiffersAt(a, b, i) ==> Less(a, b)
  {
    k := 0;
    if a != "" && b != "" && a[0] == b[0] {
      k := LessIff(a[1..], b[1..]);
      forall i: nat
        ensures DiffersAt(a, b, i + 1) <==> DiffersAt(a[1..], b[1..], i)
      {
        DiffersLater(a, b, i);
      }
      assert !DiffersAt(a, b, 0);
      forall i: nat | DiffersAt(a, b, i)
        ensures Less(a, b)
      {
        assert DiffersAt(a[1..], b[1..], i - 1);
      }
      k := k + 1;
    } else {
      assert a[..0] == b[..0];
      forall i: nat | DiffersAt(a, b, i)
        ensures Less(a, b)
      {
        DiffersHead(a, b, i);
      }
    }
  }

  /** The texts agree up to `k`, where `a` ends or has the smaller character. */
  ghost predicate DiffersAt(a: string, b: string, k: nat) {
    k <= |a| && k < |b| && a[..k] == b[..k] && (k < |a| ==> a[k] < b[k])
  }

  lemma DiffersHead(a: string, b: string, i: nat)
    requires DiffersAt(a, b, i)
    ensures i > 0 ==> a != "" && b != "" && a[0] == b[0]
  {
    if i > 0 {
      assert a[..i][0] == a[0] && b[..i][0] == b[0];
    }
  }

  lemma DiffersLater(a: string, b: string, i: nat)
    requires a != "" && b != "" && a[0] == b[0]
    ensures DiffersAt(a, b, i + 1) <==> DiffersAt(a[1..], b[1..], i)
  {
    if i + 1 <= |a| && i + 1 <= |b| {
      assert a[..i + 1] == [a[0]] + a[1..][..i] && b[..i + 1] == [b[0]] + b[1..][..i];
      assert a[1..][..i] == a[..i + 1][1..] && b[1..][..i] == b[..i + 1][1..];
    }
  }
}
