/** Scrubbing of error strings before they are logged or shown. */
module RedactError {
  import opened Sequences
  import opened Text

  predicate IsHex(c: char) {
    '0' <= c <= '9' || 'a' <= c <= 'f' || 'A' <= c <= 'F'
  }

  predicate IsLetter(c: char) {
    'a' <= c <= 'z' || 'A' <= c <= 'Z'
  }

  function Lower(c: char): char {
    if 'A' <= c <= 'Z' then c - 'A' + 'a' else c
  }

  // ----- UUIDs -----

  const UUID_MARK := "<UUID>"

  predicate IsDashAt(k: nat) {
    k == 8 || k == 13 || k == 18 || k == 23
  }

  predicate FitsUuid(c: char, k: nat) {
    if IsDashAt(k) then c == '-' else IsHex(c)
  }

  /** The first `n` of the 36 characters from `start` on fit 8-4-4-4-12. */
  predicate UuidPrefix(s: string, start: nat, n: nat) {
    start + n <= |s| && forall i :: start <= i < start + n ==> FitsUuid(s[i], i - start)
  }

  predicate UuidAt(s: string, start: nat) {
    UuidPrefix(s, start, 36)
  }

  const GROUPS := [8, 4, 4, 4, 12]

  /** Where group `g` starts, counting the dashes. */
  function GroupStart(g: nat): nat
    requires g <= 5
  {
    if g == 0 then 0 else if g == 1 then 9 else if g == 2 then 14 else if g == 3 then 19 else if g == 4 then 24 else 36
  }

  method MatchUuid(s: string, start: nat) returns (end: Option<nat>)
    ensures end == if UuidAt(s, start) then Some(start + 36) else None
  {
    if |s| < start + 36 {
      return None;
    }
    var i := start;
    for g := 0 to 5
      invariant i == start + GroupStart(g) && UuidPrefix(s, start, GroupStart(g))
    {
      ghost var from := i;
      for n := 0 to GROUPS[g]
        invariant i == from + n && UuidPrefix(s, start, i - start)
      {
        assert !IsDashAt(i - start);
        if !IsHex(s[i]) {
          assert !FitsUuid(s[i], i - start);
          return None;
        }
        i := i + 1;
      }
      if g < 4 {
        assert IsDashAt(i - start);
        if s[i] != '-' {
          assert !FitsUuid(s[i], i - start);
          return None;
        }
        i := i + 1;
      }
    }
    return Some(i);
  }

  function WithoutUuids(s: string): string {
    if s == "" then ""
    else if UuidAt(s, 0) then UUID_MARK + WithoutUuids(s[36..])
    else [s[0]] + WithoutUuids(s[1..])
  }

  method RedactUuids(s: string) returns (out: string)
    ensures out == WithoutUuids(s)
  {
    out := "";
    var i := 0;
    while i < |s|
      invariant i <= |s|
      invariant out + WithoutUuids(s[i..]) == WithoutUuids(s)
    {
      hide WithoutUuids, UuidPrefix;
      var end := MatchUuid(s, i);
      UuidStageStep(s, i);
      if end.Some? {
        Associative(out, UUID_MARK, WithoutUuids(s[i + 36..]));
        out := out + UUID_MARK;
        i := end.value;
      } else {
        Associative(out, [s[i]], WithoutUuids(s[i + 1..]));
        out := out + [s[i]];
        i := i + 1;
      }
    }
    assert s[i..] == "";
  }

  lemma UuidStageStep(s: string, i: nat)
    requires i < |s|
    ensures UuidAt(s, i) ==> i + 36 <= |s| && WithoutUuids(s[i..]) == UUID_MARK + WithoutUuids(s[i + 36..])
    ensures !UuidAt(s, i) ==> WithoutUuids(s[i..]) == [s[i]] + WithoutUuids(s[i + 1..])
  {
    ShiftUuid(s, i, 0);
    var rest := s[i..];
    assert rest[1..] == s[i + 1..];
    if UuidAt(s, i) {
      assert rest[36..] == s[i + 36..];
    }
  }

  lemma ShiftUuid(s: string, i: nat, p: nat)
    requires i <= |s|
    ensures UuidAt(s[i..], p) <==> UuidAt(s, i + p)
  {
    if UuidAt(s[i..], p) {
      forall k | i + p <= k < i + p + 36
        ensures FitsUuid(s[k], k - (i + p))
      {
        assert s[k] == s[i..][k - i];
      }
    }
  }

  ghost predicate NoUuid(s: string) {
    forall p :: 0 <= p <= |s| ==> !UuidAt(s, p)
  }

  /** Characters that can occur in a match of either stage. */
  predicate Matchable(c: char) {
    IsHex(c) || c == '-'
  }

  /** A stretch of matchable characters at the front of the output was copied from the input. */
  lemma {:induction false} UuidStageCopies(s: string, k: nat)
    requires k <= |WithoutUuids(s)|
    requires forall i :: 0 <= i < k ==> Matchable(WithoutUuids(s)[i])
    ensures k <= |s| && WithoutUuids(s)[..k] == s[..k]
  {
    if k > 0 {
      var r := WithoutUuids(s);
      assert Matchable(r[0]);
      assert UUID_MARK[0] == '<';
      var rest := WithoutUuids(s[1..]);
      assert r == [s[0]] + rest;
      assert forall i :: 0 <= i < k - 1 ==> rest[i] == r[i + 1];
      UuidStageCopies(s[1..], k - 1);
      assert r[..k] == [s[0]] + rest[..k - 1];
      assert s[..k] == [s[0]] + s[1..][..k - 1];
    }
  }

  lemma CopiedUuid(r: string, s: string)
    requires UuidAt(r, 0) && 36 <= |s| && r[..36] == s[..36]
    ensures UuidAt(s, 0)
  {
    forall k | 0 <= k < 36
      ensures FitsUuid(s[k], k - 0)
    {
      assert r[..36][k] == s[..36][k];
      assert FitsUuid(r[k], k - 0);
    }
  }

  lemma UuidIsMatchable(s: string, p: nat, k: nat)
    requires UuidAt(s, p) && k < 36
    ensures Matchable(s[p + k])
  {
    var i := p + k;
    assert FitsUuid(s[i], i - p);
  }

  lemma {:induction false} UuidsGone(s: string, p: nat)
    ensures !UuidAt(WithoutUuids(s), p)
  {
    if s != "" {
      var r := WithoutUuids(s);
      if UuidAt(s, 0) {
        var rest := WithoutUuids(s[36..]);
        assert r == UUID_MARK + rest && r[5] == '>';
        if p <= 5 {
          if UuidAt(r, p) {
            UuidIsMatchable(r, p, 5 - p);
          }
        } else {
          UuidsGone(s[36..], p - 6);
          assert r[6..] == rest;
          ShiftUuid(r, 6, p - 6);
        }
      } else {
        var rest := WithoutUuids(s[1..]);
        if p == 0 {
          if UuidAt(r, 0) {
            forall i | 0 <= i < 36
              ensures Matchable(r[i])
            {
              UuidIsMatchable(r, 0, i);
            }
            UuidStageCopies(s, 36);
            CopiedUuid(r, s);
          }
        } else {
          UuidsGone(s[1..], p - 1);
          assert r[1..] == rest;
          ShiftUuid(r, 1, p - 1);
        }
      }
    }
  }

  lemma {:induction false} UuidStageFixed(s: string)
    requires NoUuid(s)
    ensures WithoutUuids(s) == s
  {
    if s != "" {
      assert !UuidAt(s, 0);
      NoUuidSuffix(s, 1);
      UuidStageFixed(s[1..]);
    }
  }

  lemma NoUuidSuffix(s: string, k: nat)
    requires NoUuid(s) && k <= |s|
    ensures NoUuid(s[k..])
  {
    forall p | 0 <= p <= |s[k..]|
      ensures !UuidAt(s[k..], p)
    {
      ShiftUuid(s, k, p);
    }
  }

  // ----- Long hex runs -----

  const HEX_MARK := "<HEX>"
  const MIN_HEX_RUN := 32

  /** Length of the run of hex digits at the front. */
  function HexRun(s: string): (n: nat)
    ensures n <= |s|
    ensures forall i :: 0 <= i < n ==> IsHex(s[i])
    ensures n < |s| ==> !IsHex(s[n])
  {
    if s == "" || !IsHex(s[0]) then 0 else 1 + HexRun(s[1..])
  }

  function WithoutLongHex(s: string): string
    decreases |s|
  {
    var n := HexRun(s);
    if s == "" then ""
    else if n == 0 then [s[0]] + WithoutLongHex(s[1..])
    else if n >= MIN_HEX_RUN then HEX_MARK + WithoutLongHex(s[n..])
    else s[..n] + WithoutLongHex(s[n..])
  }

  method RedactLongHex(s: string) returns (out: string)
    ensures out == WithoutLongHex(s)
  {
    out := "";
    var i := 0;
    while i < |s|
      invariant i <= |s|
      invariant out + WithoutLongHex(s[i..]) == WithoutLongHex(s)
    {
      hide WithoutLongHex, HexRun;
      if IsHex(s[i]) {
        var runStart := i;
        while i < |s| && IsHex(s[i])
          invariant runStart <= i <= |s|
          invariant forall k :: runStart <= k < i ==> IsHex(s[k])
          decreases |s| - i
        {
          i := i + 1;
        }
        HexStageRun(s, runStart, i);
        var written := if i - runStart >= MIN_HEX_RUN then HEX_MARK else s[runStart..i];
        Associative(out, written, WithoutLongHex(s[i..]));
        out := out + written;
      } else {
        HexStageOther(s, i);
        Associative(out, [s[i]], WithoutLongHex(s[i + 1..]));
        out := out + [s[i]];
        i := i + 1;
      }
    }
  }

  /** One maximal run of hex digits, from `lo` to `hi`. */
  lemma HexStageRun(s: string, lo: nat, hi: nat)
    requires lo < hi <= |s| && (forall k :: lo <= k < hi ==> IsHex(s[k])) && (hi < |s| ==> !IsHex(s[hi]))
    ensures WithoutLongHex(s[lo..]) == (if hi - lo >= MIN_HEX_RUN then HEX_MARK else s[lo..hi]) + WithoutLongHex(s[hi..])
  {
    var here := s[lo..];
    HexRunIs(here, hi - lo);
    assert here[hi - lo..] == s[hi..] && here[..hi - lo] == s[lo..hi];
  }

  lemma HexStageOther(s: string, i: nat)
    requires i < |s| && !IsHex(s[i])
    ensures WithoutLongHex(s[i..]) == [s[i]] + WithoutLongHex(s[i + 1..])
  {
    HexRunIs(s[i..], 0);
    assert s[i..][1..] == s[i + 1..];
  }

  lemma {:induction false} HexRunIs(s: string, n: nat)
    requires n <= |s| && (forall i :: 0 <= i < n ==> IsHex(s[i])) && (n < |s| ==> !IsHex(s[n]))
    ensures HexRun(s) == n
  {
    if n > 0 {
      HexRunIs(s[1..], n - 1);
    }
  }

  ghost predicate HexRunAt(s: string, p: nat) {
    p + MIN_HEX_RUN <= |s| && forall i :: p <= i < p + MIN_HEX_RUN ==> IsHex(s[i])
  }

  ghost predicate NoLongHex(s: string) {
    forall p :: 0 <= p <= |s| ==> !HexRunAt(s, p)
  }

  lemma ShiftHex(a: string, b: string, p: nat)
    ensures HexRunAt(a + b, |a| + p) <==> HexRunAt(b, p)
  {
    var s := a + b;
    assert forall i :: 0 <= i < |b| ==> s[|a| + i] == b[i];
    if HexRunAt(s, |a| + p) {
      forall i | p <= i < p + MIN_HEX_RUN
        ensures IsHex(b[i])
      {
        assert IsHex(s[|a| + i]);
      }
    }
  }

  lemma FirstOfHexStage(s: string)
    requires s != "" && !IsHex(s[0])
    ensures WithoutLongHex(s) != "" && WithoutLongHex(s)[0] == s[0]
  {
    HexRunIs(s, 0);
  }

  lemma {:induction false} LongHexGone(s: string, p: nat)
    ensures !HexRunAt(WithoutLongHex(s), p)
    decreases |s|
  {
    if s != "" {
      var out, n := WithoutLongHex(s), HexRun(s);
      if n == 0 {
        assert out == [s[0]] + WithoutLongHex(s[1..]);
        if p > 0 {
          LongHexGone(s[1..], p - 1);
          ShiftHex([s[0]], WithoutLongHex(s[1..]), p - 1);
        } else {
          assert out[0] == s[0];
        }
      } else if n >= MIN_HEX_RUN {
        var rest := WithoutLongHex(s[n..]);
        assert out == HEX_MARK + rest && out[4] == '>' && !IsHex('>');
        if p >= 5 {
          LongHexGone(s[n..], p - 5);
          ShiftHex(HEX_MARK, rest, p - 5);
        }
      } else {
        if p < n {
          LongHexGoneShort(s, p, n);
        } else {
          LongHexGone(s[n..], p - n);
          ShiftHex(s[..n], WithoutLongHex(s[n..]), p - n);
        }
      }
    }
  }

  /** A run that is kept is short and followed by something that is not hex. */
  lemma LongHexGoneShort(s: string, p: nat, n: nat)
    requires s != "" && n == HexRun(s) && 0 < n < MIN_HEX_RUN && p < n
    ensures !HexRunAt(WithoutLongHex(s), p)
  {
    var out, rest := WithoutLongHex(s), WithoutLongHex(s[n..]);
    assert out == s[..n] + rest;
    if n < |s| {
      FirstOfHexStage(s[n..]);
      assert out[n] == rest[0] == s[n];
    } else {
      assert s[n..] == "" && rest == "";
    }
  }

  lemma {:induction false} HexStageFixed(s: string)
    requires NoLongHex(s)
    ensures WithoutLongHex(s) == s
    decreases |s|
  {
    if s != "" {
      var n := HexRun(s);
      if n >= MIN_HEX_RUN {
        assert HexRunAt(s, 0);
      }
      var k := if n == 0 then 1 else n;
      NoLongHexSuffix(s, k);
      HexStageFixed(s[k..]);
      assert s == s[..k] + s[k..] && s[..1] == [s[0]];
    }
  }

  lemma NoLongHexSuffix(s: string, k: nat)
    requires NoLongHex(s) && k <= |s|
    ensures NoLongHex(s[k..])
  {
    forall p | 0 <= p <= |s[k..]|
      ensures !HexRunAt(s[k..], p)
    {
      assert s == s[..k] + s[k..];
      ShiftHex(s[..k], s[k..], p);
      assert !HexRunAt(s, k + p);
    }
  }

  ghost predicate AllMatchable(s: string, k: nat) {
    k <= |s| && forall i :: 0 <= i < k ==> Matchable(s[i])
  }

  lemma AllMatchableTail(c: char, s: string, k: nat)
    requires k > 0 && AllMatchable([c] + s, k)
    ensures AllMatchable(s, k - 1)
  {
    assert forall i :: 0 <= i < |s| ==> s[i] == ([c] + s)[i + 1];
  }

  lemma ConsPrefix(c: char, a: string, b: string, k: nat)
    requires 0 < k <= |a| + 1 && k <= |b| + 1 && a[..k - 1] == b[..k - 1]
    ensures ([c] + a)[..k] == ([c] + b)[..k]
  {
    assert ([c] + a)[..k] == [c] + a[..k - 1];
    assert ([c] + b)[..k] == [c] + b[..k - 1];
  }

  lemma {:induction false} HexStageCopies(s: string, k: nat)
    requires AllMatchable(WithoutLongHex(s), k)
    ensures k <= |s| && k <= |WithoutLongHex(s)| && WithoutLongHex(s)[..k] == s[..k]
  {
    if k > 0 {
      assert Matchable(WithoutLongHex(s)[0]);
      assert HEX_MARK[0] == '<';
      assert HexRun(s) < MIN_HEX_RUN;
      HexStageTail(s);
      hide WithoutLongHex, HexRun, AllMatchable;
      AllMatchableTail(s[0], WithoutLongHex(s[1..]), k);
      HexStageCopies(s[1..], k - 1);
      ConsPrefix(s[0], WithoutLongHex(s[1..]), s[1..], k);
      assert s == [s[0]] + s[1..];
    }
  }

  /** The hex stage makes no UUID. */
  lemma {:induction false} HexStageMakesNoUuid(s: string, p: nat)
    requires NoUuid(s)
    ensures !UuidAt(WithoutLongHex(s), p)
    decreases |s|
  {
    if s != "" {
      var r, n := WithoutLongHex(s), HexRun(s);
      if n >= MIN_HEX_RUN {
        var rest := WithoutLongHex(s[n..]);
        assert r == HEX_MARK + rest && r[4] == '>';
        if p <= 4 {
          if UuidAt(r, p) {
            UuidIsMatchable(r, p, 4 - p);
          }
        } else {
          NoUuidSuffix(s, n);
          HexStageMakesNoUuid(s[n..], p - 5);
          assert r[5..] == rest;
          ShiftUuid(r, 5, p - 5);
        }
      } else if p == 0 {
        NoUuidAtFront(s, r);
      } else {
        HexStageTail(s);
        NoUuidSuffix(s, 1);
        HexStageMakesNoUuid(s[1..], p - 1);
        ShiftUuid(r, 1, p - 1);
      }
    }
  }

  lemma NoUuidAtFront(s: string, r: string)
    requires NoUuid(s) && r == WithoutLongHex(s)
    ensures !UuidAt(r, 0)
  {
    if UuidAt(r, 0) {
      forall i | 0 <= i < 36
        ensures Matchable(r[i])
      {
        UuidIsMatchable(r, 0, i);
      }
      HexStageCopies(s, 36);
      CopiedUuid(r, s);
    }
  }

  /** Below the threshold the scan of the tail is the tail of the scan. */
  lemma HexStageTail(s: string)
    requires s != "" && HexRun(s) < MIN_HEX_RUN
    ensures WithoutLongHex(s) == [s[0]] + WithoutLongHex(s[1..])
  {
    hide WithoutLongHex, HexRun;
    var n := HexRun(s);
    assert s[0..] == s;
    if n == 0 {
      HexStageOther(s, 0);
    } else {
      HexStageRun(s, 0, n);
      if n > 1 {
        HexStageRun(s, 1, n);
        assert s[0..n] == [s[0]] + s[1..n];
        Associative([s[0]], s[1..n], WithoutLongHex(s[n..]));
      } else {
        assert s[0..1] == [s[0]];
      }
    }
  }

  // ----- The cap -----

  const MAX_LEN := 200
  const ELLIPSIS := "\U{2026}"

  function Capped(s: string): string {
    if |s| <= MAX_LEN then s else s[..MAX_LEN] + ELLIPSIS
  }

  lemma CapKeepsClean(s: string)
    requires NoUuid(s) && NoLongHex(s)
    ensures NoUuid(Capped(s)) && NoLongHex(Capped(s))
  {
    var r := Capped(s);
    if |s| > MAX_LEN {
      assert r[200] == ELLIPSIS[0] && !Matchable(r[200]);
      forall p | 0 <= p <= |r|
        ensures !UuidAt(r, p) && !HexRunAt(r, p)
      {
        CapMakesNothing(s, p);
      }
    }
  }

  lemma CapMakesNothing(s: string, p: nat)
    requires NoUuid(s) && NoLongHex(s) && |s| > MAX_LEN
    ensures !UuidAt(Capped(s), p) && !HexRunAt(Capped(s), p)
  {
    var r := Capped(s);
    assert |r| == 201 && r[200] == ELLIPSIS[0] && !Matchable(r[200]);
    assert forall i :: 0 <= i < 200 ==> r[i] == s[i];
    if p <= |s| {
      assert !UuidAt(s, p) && !HexRunAt(s, p);
    }
    assert p <= 200 ==> !FitsUuid(r[200], 200 - p);
  }

  // ----- The three stages together -----

  function Stages(s: string): string {
    Capped(WithoutLongHex(WithoutUuids(s)))
  }

  /** No UUID and no run of 32 hex digits is left anywhere, in at most 201 characters. */
  lemma StagesClean(s: string)
    ensures NoUuid(Stages(s)) && NoLongHex(Stages(s)) && |Stages(s)| <= 201
  {
    var u := WithoutUuids(s);
    var h := WithoutLongHex(u);
    forall p | 0 <= p <= |u|
      ensures !UuidAt(u, p)
    {
      UuidsGone(s, p);
    }
    forall p | 0 <= p <= |h|
      ensures !UuidAt(h, p) && !HexRunAt(h, p)
    {
      HexStageMakesNoUuid(u, p);
      LongHexGone(u, p);
    }
    CapKeepsClean(h);
  }

  /** Clean text of capped length comes out as it went in: inserted markers never make new matches. */
  lemma StagesIdempotent(s: string)
    ensures Stages(Stages(s)) == Stages(s)
  {
    var r := Stages(s);
    StagesClean(s);
    UuidStageFixed(r);
    HexStageFixed(r);
    var h := WithoutLongHex(WithoutUuids(s));
    if |h| > MAX_LEN {
      assert (h[..MAX_LEN] + ELLIPSIS)[..MAX_LEN] == h[..MAX_LEN];
    }
  }

  // ----- Home directories -----

  const HOME_MARK := "<USER_HOME>"

  function LowerAll(s: string): string {
    seq(|s|, i requires 0 <= i < |s| => Lower(s[i]))
  }

  /** The end of the name that starts at `i`: the next separator or the end of the text. */
  function NameEnd(s: string, i: nat, separator: char): (end: nat)
    requires i <= |s|
    ensures i <= end <= |s|
    ensures forall k :: i <= k < end ==> s[k] != separator
    ensures end < |s| ==> s[end] == separator
    decreases |s| - i
  {
    if i < |s| && s[i] != separator then NameEnd(s, i + 1, separator) else i
  }

  method FindNameEnd(s: string, i: nat, separator: char) returns (end: nat)
    requires i <= |s|
    ensures end == NameEnd(s, i, separator)
  {
    end := i;
    while end < |s| && s[end] != separator
      invariant i <= end <= |s|
      invariant NameEnd(s, end, separator) == NameEnd(s, i, separator)
    {
      end := end + 1;
    }
  }

  /** `<letter>:\\Users\\<name>`, any case, a name of at least one character. */
  function WindowsHome(s: string, start: nat): (end: Option<nat>)
    ensures end.Some? ==> start + 9 < end.value <= |s| && IsLetter(s[start])
  {
    if |s| < start + 9 || !IsLetter(s[start]) || s[start + 1] != ':' || s[start + 2] != '\\'
       || LowerAll(s[start + 3..start + 8]) != "users" || s[start + 8] != '\\'
    then None
    else
      var end := NameEnd(s, start + 9, '\\');
      if end == start + 9 then None else Some(end)
  }

  /** `/Users/<name>` or `/home/<name>`, any case. */
  function UnixHome(s: string, start: nat): (end: Option<nat>)
    ensures end.Some? ==> start + 6 < end.value <= |s| && s[start] == '/'
  {
    if |s| <= start || s[start] != '/' then None
    else
      var prefix :=
        if |s| >= start + 7 && LowerAll(s[start + 1..start + 7]) == "users/" then 6
        else if |s| >= start + 6 && LowerAll(s[start + 1..start + 6]) == "home/" then 5
        else 0;
      if prefix == 0 then None
      else
        var nameStart := start + 1 + prefix;
        var end := NameEnd(s, nameStart, '/');
        if end == nameStart then None else Some(end)
  }

  function HomeAt(s: string, start: nat): (end: Option<nat>)
    ensures end.Some? ==> start + 6 < end.value <= |s| && s[start] != '<'
  {
    if WindowsHome(s, start).Some? then WindowsHome(s, start) else UnixHome(s, start)
  }

  function WithoutHomes(s: string, i: nat): string
    requires i <= |s|
    decreases |s| - i
  {
    if i == |s| then ""
    else match HomeAt(s, i)
      case Some(end) => HOME_MARK + WithoutHomes(s, end)
      case None => [s[i]] + WithoutHomes(s, i + 1)
  }

  method MatchWindowsHome(s: string, start: nat) returns (end: Option<nat>)
    ensures end == WindowsHome(s, start)
  {
    if |s| < start + 9 || !IsLetter(s[start]) || s[start + 1] != ':' || s[start + 2] != '\\' {
      return None;
    }
    if LowerAll(s[start + 3..start + 8]) != "users" || s[start + 8] != '\\' {
      return None;
    }
    var i := FindNameEnd(s, start + 9, '\\');
    return if i == start + 9 then None else Some(i);
  }

  method MatchUnixHome(s: string, start: nat) returns (end: Option<nat>)
    ensures end == UnixHome(s, start)
  {
    if |s| <= start || s[start] != '/' {
      return None;
    }
    var nameStart;
    if |s| >= start + 7 && LowerAll(s[start + 1..start + 7]) == "users/" {
      nameStart := start + 7;
    } else if |s| >= start + 6 && LowerAll(s[start + 1..start + 6]) == "home/" {
      nameStart := start + 6;
    } else {
      return None;
    }
    var i := FindNameEnd(s, nameStart, '/');
    return if i == nameStart then None else Some(i);
  }

  method RedactHomeDirs(s: string) returns (out: string)
    ensures out == WithoutHomes(s, 0)
  {
    out := "";
    var i := 0;
    while i < |s|
      invariant i <= |s|
      invariant out + WithoutHomes(s, i) == WithoutHomes(s, 0)
      decreases |s| - i
    {
      var home := MatchWindowsHome(s, i);
      if home.None? {
        home := MatchUnixHome(s, i);
      }
      if home.Some? {
        Associative(out, HOME_MARK, WithoutHomes(s, home.value));
        out := out + HOME_MARK;
        i := home.value;
      } else {
        Associative(out, [s[i]], WithoutHomes(s, i + 1));
        out := out + [s[i]];
        i := i + 1;
      }
    }
  }

  /** The text before the cap. */
  function Uncapped(s: string): string {
    WithoutLongHex(WithoutUuids(WithoutHomes(s, 0)))
  }

  /** `redact_error`: homes first, then UUIDs, then long hex, then the cap. */
  function Redacted(s: string): string {
    Stages(WithoutHomes(s, 0))
  }

  method Redact(s: string) returns (out: string)
    ensures out == Redacted(s)
    ensures NoUuid(out) && NoLongHex(out) && |out| <= 201
  {
    StagesClean(WithoutHomes(s, 0));
    out := RedactHomeDirs(s);
    out := RedactUuids(out);
    out := RedactLongHex(out);
    out := Capped(out);
  }

  ghost predicate NoHome(s: string) {
    forall p :: 0 <= p < |s| ==> HomeAt(s, p).None?
  }

  lemma {:induction false} HomeStageFixed(s: string, i: nat)
    requires i <= |s| && forall p :: i <= p < |s| ==> HomeAt(s, p).None?
    ensures WithoutHomes(s, i) == s[i..]
    decreases |s| - i
  {
    if i < |s| {
      HomeStageFixed(s, i + 1);
      assert s[i..] == [s[i]] + s[i + 1..];
    }
  }

  /** Up to the first match the text is copied; there the marker begins. */
  lemma {:induction false} HomeStagePrefix(s: string, i: nat, p: nat)
    requires i <= p < |s| && HomeAt(s, p).Some? && forall q :: i <= q < p ==> HomeAt(s, q).None?
    ensures WithoutHomes(s, i) == s[i..p] + (HOME_MARK + WithoutHomes(s, HomeAt(s, p).value))
    decreases p - i
  {
    hide HomeAt;
    if i < p {
      HomeStagePrefix(s, i + 1, p);
      assert s[i..p] == [s[i]] + s[i + 1..p];
      Associative([s[i]], s[i + 1..p], HOME_MARK + WithoutHomes(s, HomeAt(s, p).value));
    }
  }

  lemma {:induction false} UuidStagePrefix(s: string, p: nat)
    requires p <= |s| && forall q :: 0 <= q < p ==> !UuidAt(s, q)
    ensures WithoutUuids(s) == s[..p] + WithoutUuids(s[p..])
  {
    if p == 0 {
      assert s[0..] == s;
    } else {
      forall q | 0 <= q < p - 1
        ensures !UuidAt(s[1..], q)
      {
        ShiftUuid(s, 1, q);
      }
      UuidStagePrefix(s[1..], p - 1);
      assert !UuidAt(s, 0);
      assert s[1..][p - 1..] == s[p..] && s[..p] == [s[0]] + s[1..][..p - 1];
      Associative([s[0]], s[1..][..p - 1], WithoutUuids(s[p..]));
    }
  }

  lemma {:induction false} HexStagePrefix(s: string, p: nat)
    requires p < |s| && !IsHex(s[p]) && forall q :: 0 <= q < p ==> !HexRunAt(s, q)
    ensures WithoutLongHex(s) == s[..p] + WithoutLongHex(s[p..])
  {
    if p == 0 {
      assert s[0..] == s;
    } else {
      assert !HexRunAt(s, 0);
      assert HexRun(s) < MIN_HEX_RUN;
      forall q | 0 <= q < p - 1
        ensures !HexRunAt(s[1..], q)
      {
        assert s == [s[0]] + s[1..];
        ShiftHex([s[0]], s[1..], q);
        assert !HexRunAt(s, q + 1);
      }
      HexStagePrefix(s[1..], p - 1);
      HexStageTail(s);
      assert s[1..][p - 1..] == s[p..] && s[..p] == [s[0]] + s[1..][..p - 1];
      Associative([s[0]], s[1..][..p - 1], WithoutLongHex(s[p..]));
    }
  }

  lemma MarkThroughUuids(t: string, rest: string)
    requires NoUuid(t) && NoLongHex(t) && rest != "" && rest[0] == '<'
    ensures WithoutUuids(t + rest) == t + WithoutUuids(rest)
    ensures WithoutUuids(rest) != "" && WithoutUuids(rest)[0] == '<'
  {
    var s, p := t + rest, |t|;
    forall q | 0 <= q < p
      ensures !UuidAt(s, q)
    {
      NothingAcrossMark(t, rest, q);
    }
    UuidStagePrefix(s, p);
    assert s[p..] == rest && s[..p] == t;
    assert !FitsUuid(rest[0], 0 - 0);
  }

  lemma MarkThroughHex(t: string, rest: string)
    requires NoUuid(t) && NoLongHex(t) && rest != "" && rest[0] == '<'
    ensures WithoutLongHex(t + rest) == t + WithoutLongHex(rest)
    ensures WithoutLongHex(rest) != "" && WithoutLongHex(rest)[0] == '<'
  {
    var s, p := t + rest, |t|;
    forall q | 0 <= q < p
      ensures !HexRunAt(s, q)
    {
      NothingAcrossMark(t, rest, q);
    }
    hide WithoutLongHex;
    HexStagePrefix(s, p);
    assert s[p..] == rest && s[..p] == t;
    FirstOfHexStage(rest);
  }

  /** A '<' after clean text stays where it is through the three stages. */
  lemma MarkSurvives(t: string, rest: string)
    requires NoUuid(t) && NoLongHex(t) && |t| < MAX_LEN && rest != "" && rest[0] == '<'
    ensures |Stages(t + rest)| > |t| && Stages(t + rest)[|t|] == '<'
  {
    MarkThroughUuids(t, rest);
    MarkThroughHex(t, WithoutUuids(rest));
  }

  lemma NothingAcrossMark(t: string, rest: string, q: nat)
    requires NoUuid(t) && NoLongHex(t) && q < |t| && rest != "" && rest[0] == '<'
    ensures !UuidAt(t + rest, q) && !HexRunAt(t + rest, q)
  {
    var s, p := t + rest, |t|;
    assert s[p] == '<' && !Matchable(s[p]);
    assert forall i :: 0 <= i < p ==> s[i] == t[i];
    assert !FitsUuid(s[p], p - q);
    assert !UuidAt(t, q) && !HexRunAt(t, q);
  }

  lemma NoLongHexPrefix(s: string, k: nat)
    requires NoUuid(s) && NoLongHex(s) && k <= |s|
    ensures NoUuid(s[..k]) && NoLongHex(s[..k])
  {
    forall p | 0 <= p <= k
      ensures !UuidAt(s[..k], p) && !HexRunAt(s[..k], p)
    {
      assert !UuidAt(s, p) && !HexRunAt(s, p);
      assert forall i :: 0 <= i < k ==> s[i] == s[..k][i];
    }
  }

  lemma {:induction false} FirstHome(s: string, i: nat) returns (p: nat)
    requires i < |s| && exists q :: i <= q < |s| && HomeAt(s, q).Some?
    ensures i <= p < |s| && HomeAt(s, p).Some? && forall q :: i <= q < p ==> HomeAt(s, q).None?
    decreases |s| - i
  {
    hide HomeAt;
    if HomeAt(s, i).Some? {
      p := i;
    } else {
      p := FirstHome(s, i + 1);
    }
  }
}
