/** When redacting an error a second time changes nothing, exactly, and what goes wrong otherwise. */
module RedactLaws {
  import opened Sequences
  import opened Text
  import opened RedactError

  // ----- Prefixes of home directories -----

  /** What comes before the name in a home directory, and the character that ends the name. */
  datatype Prefix = Prefix(len: nat, separator: char)

  const WINDOWS := Prefix(9, '\\')
  const USERS := Prefix(7, '/')
  const HOME := Prefix(6, '/')

  /** `<letter>:\\Users\\`, `/Users/` or `/home/`, any case. */
  predicate IsPrefix(w: string, x: Prefix) {
    match x.len
    case 9 =>
      && x == WINDOWS && |w| == 9 && IsLetter(w[0]) && w[1] == ':' && w[2] == '\\'
      && LowerAll(w[3..8]) == "users" && w[8] == '\\'
    case 7 => x == USERS && |w| == 7 && w[0] == '/' && LowerAll(w[1..7]) == "users/"
    case _ => x == HOME && |w| == 6 && w[0] == '/' && LowerAll(w[1..6]) == "home/"
  }

  predicate PrefixAt(s: string, p: nat, x: Prefix) {
    p + x.len <= |s| && IsPrefix(s[p..p + x.len], x)
  }

  /** The name after the prefix is not empty. */
  predicate Named(s: string, p: nat, x: Prefix) {
    PrefixAt(s, p, x) && p + x.len < |s| && s[p + x.len] != x.separator
  }

  lemma SubSlice(s: string, p: nat, n: nat, a: nat, b: nat)
    requires a <= b <= n && p + n <= |s|
    ensures s[p..p + n][a..b] == s[p + a..p + b]
  {
    var w := s[p..p + n];
    assert forall i :: 0 <= i < n ==> w[i] == s[p + i];
    assert forall i :: 0 <= i < b - a ==> w[a..b][i] == w[a + i] && s[p + a..p + b][i] == s[p + a + i];
  }

  lemma NamedIsHome(s: string, p: nat, x: Prefix)
    requires Named(s, p, x)
    ensures HomeAt(s, p).Some?
  {
    var w := s[p..p + x.len];
    assert forall i :: 0 <= i < x.len ==> w[i] == s[p + i];
    if x == WINDOWS {
      SubSlice(s, p, 9, 3, 8);
    } else if x == USERS {
      SubSlice(s, p, 7, 1, 7);
    } else {
      SubSlice(s, p, 6, 1, 6);
      HomeIsNotUsers(s, p);
    }
  }

  lemma HomeIsNotUsers(s: string, p: nat)
    requires p + 6 <= |s| && LowerAll(s[p + 1..p + 6]) == "home/"
    ensures |s| >= p + 7 ==> LowerAll(s[p + 1..p + 7]) != "users/"
  {
    assert Lower(s[p + 1]) == LowerAll(s[p + 1..p + 6])[0] == 'h';
    if |s| >= p + 7 {
      assert LowerAll(s[p + 1..p + 7])[0] == Lower(s[p + 1]);
      assert "users/"[0] == 'u';
    }
  }

  lemma HomeIsNamed(s: string, p: nat) returns (x: Prefix)
    requires HomeAt(s, p).Some?
    ensures Named(s, p, x)
  {
    if WindowsHome(s, p).Some? {
      x := WINDOWS;
      SubSlice(s, p, 9, 3, 8);
    } else if |s| >= p + 7 && LowerAll(s[p + 1..p + 7]) == "users/" {
      x := USERS;
      SubSlice(s, p, 7, 1, 7);
    } else {
      x := HOME;
      SubSlice(s, p, 6, 1, 6);
    }
  }

  /** A place where a prefix can start: a slash, or something before a colon that is not a mark's end. */
  predicate HeadAt(s: string, p: nat) {
    p < |s| && (s[p] == '/' || (IsLetter(s[p]) && p + 1 < |s| && s[p + 1] == ':'))
  }

  lemma PrefixHead(s: string, p: nat, x: Prefix)
    requires PrefixAt(s, p, x)
    ensures HeadAt(s, p)
  {
    var w := s[p..p + x.len];
    assert w[0] == s[p] && w[1] == s[p + 1];
  }

  /** Neither the start of a mark nor the ellipsis is part of a prefix. */
  predicate Foreign(c: char) {
    c == '<' || c == ELLIPSIS[0]
  }

  lemma PrefixChars(w: string, x: Prefix)
    requires IsPrefix(w, x)
    ensures |w| == x.len && (forall i :: 0 <= i < x.len ==> !Foreign(w[i]))
    ensures x == WINDOWS || x == USERS || x == HOME
    ensures x.len == 6 || x.len == 7 || x.len == 9
  {
    if x == WINDOWS {
      LowerChars(w[3..8], "users");
      assert forall i :: 3 <= i < 8 ==> w[i] == w[3..8][i - 3];
    } else if x == USERS {
      LowerChars(w[1..7], "users/");
      assert forall i :: 1 <= i < 7 ==> w[i] == w[1..7][i - 1];
    } else {
      LowerChars(w[1..6], "home/");
      assert forall i :: 1 <= i < 6 ==> w[i] == w[1..6][i - 1];
    }
  }

  lemma LowerChars(w: string, low: string)
    requires LowerAll(w) == low && forall i :: 0 <= i < |low| ==> !Foreign(low[i])
    ensures forall i :: 0 <= i < |w| ==> !Foreign(w[i])
  {
    forall i | 0 <= i < |w|
      ensures !Foreign(w[i])
    {
      assert LowerAll(w)[i] == Lower(w[i]) == low[i];
    }
  }

  // ----- A stage that copies, or replaces matches by marks -----

  /** At the front of `s` the stage copies one character, or puts a mark for a match. */
  ghost predicate StageStep(f: string -> string, s: string)
    requires s != ""
  {
    || f(s) == [s[0]] + f(s[1..])
    || (Matchable(s[0]) && exists n :: 0 < n <= |s| && (f(s) == UUID_MARK + f(s[n..]) || f(s) == HEX_MARK + f(s[n..])))
  }

  ghost predicate IsStage(f: string -> string) {
    f("") == "" && forall s :: s != "" ==> StageStep(f, s)
  }

  lemma UuidsIsStage()
    ensures IsStage(WithoutUuids)
  {
    forall s: string | s != ""
      ensures StageStep(WithoutUuids, s)
    {
      if UuidAt(s, 0) {
        assert FitsUuid(s[0], 0);
      }
    }
  }

  lemma LongHexIsStage()
    ensures IsStage(WithoutLongHex)
  {
    forall s: string | s != ""
      ensures StageStep(WithoutLongHex, s)
    {
      if HexRun(s) < MIN_HEX_RUN {
        HexStageTail(s);
      } else {
        assert IsHex(s[0]);
      }
    }
  }

  /** A place in the output where a prefix can start was copied, and the rest of the output is that of the rest. */
  lemma {:induction false} StageAlign(f: string -> string, s: string, p: nat) returns (q: nat)
    requires IsStage(f) && HeadAt(f(s), p)
    ensures q < |s| && f(s)[p..] == f(s[q..])
    decreases |s|
  {
    assert StageStep(f, s);
    if f(s) == [s[0]] + f(s[1..]) {
      if p == 0 {
        q := 0;
        assert s[0..] == s;
      } else {
        HeadBehind([s[0]], f(s[1..]), p);
        q := StageAlign(f, s[1..], p - 1);
        assert s[1..][q..] == s[q + 1..];
        assert f(s)[p..] == f(s[1..])[p - 1..];
        q := q + 1;
      }
    } else {
      var n :| 0 < n <= |s| && (f(s) == UUID_MARK + f(s[n..]) || f(s) == HEX_MARK + f(s[n..]));
      var mark := if f(s) == UUID_MARK + f(s[n..]) then UUID_MARK else HEX_MARK;
      NoHeadInMark(mark, f(s[n..]), p);
      HeadBehind(mark, f(s[n..]), p);
      q := StageAlign(f, s[n..], p - |mark|);
      assert s[n..][q..] == s[q + n..];
      assert f(s)[p..] == f(s[n..])[p - |mark|..];
      q := q + n;
    }
  }

  lemma HeadBehind(front: string, rest: string, p: nat)
    requires HeadAt(front + rest, p) && p >= |front|
    ensures HeadAt(rest, p - |front|) && p < |front| + |rest|
  {
  }

  /** Within a mark there is no slash, and no letter before a colon. */
  lemma NoHeadInMark(mark: string, rest: string, p: nat)
    requires mark == UUID_MARK || mark == HEX_MARK || mark == HOME_MARK
    requires HeadAt(mark + rest, p)
    ensures p >= |mark|
  {
    var s := mark + rest;
    assert forall i :: 0 <= i < |mark| ==> s[i] == mark[i];
  }

  /** Output without a mark's start was copied. */
  lemma {:induction false} StageCopies(f: string -> string, s: string, n: nat)
    requires IsStage(f) && n <= |f(s)| && forall i :: 0 <= i < n ==> f(s)[i] != '<'
    ensures n <= |s| && f(s) == s[..n] + f(s[n..])
  {
    if n == 0 {
      assert s[0..] == s;
    } else {
      assert StageStep(f, s);
      assert f(s)[0] != '<';
      assert UUID_MARK[0] == '<' && HEX_MARK[0] == '<';
      var rest := f(s[1..]);
      assert f(s) == [s[0]] + rest;
      assert forall i :: 0 <= i < n - 1 ==> rest[i] == f(s)[i + 1];
      StageCopies(f, s[1..], n - 1);
      assert s[1..][n - 1..] == s[n..] && s[..n] == [s[0]] + s[1..][..n - 1];
      Associative([s[0]], s[1..][..n - 1], f(s[n..]));
    }
  }

  /** The stage copies a character that cannot be in a match, or that the next one keeps from being in one. */
  ghost predicate PassesAt(f: string -> string, c: char, t: string) {
    !Matchable(c) || (t != "" && !Matchable(t[0])) ==> f([c] + t) == [c] + f(t)
  }

  ghost predicate Passes(f: string -> string) {
    forall c, t :: PassesAt(f, c, t)
  }

  predicate LooseAt(w: string, i: nat)
    requires i < |w|
  {
    !Matchable(w[i]) || (i + 1 < |w| && !Matchable(w[i + 1]))
  }

  /** No two neighbours of the word can be in a match, nor its last character. */
  predicate Loose(w: string) {
    forall i :: 0 <= i < |w| ==> LooseAt(w, i)
  }

  lemma {:induction false} WordPasses(f: string -> string, w: string, rest: string)
    requires Passes(f) && Loose(w)
    ensures f(w + rest) == w + f(rest)
  {
    if w == "" {
      assert w + rest == rest;
    } else {
      var t := w[1..];
      forall i | 0 <= i < |t|
        ensures LooseAt(t, i)
      {
        assert LooseAt(w, i + 1);
      }
      assert w + rest == [w[0]] + (t + rest);
      assert |w| > 1 ==> (t + rest)[0] == w[1];
      assert LooseAt(w, 0) && PassesAt(f, w[0], t + rest);
      WordPasses(f, t, rest);
      assert w + f(rest) == [w[0]] + (t + f(rest));
    }
  }

  lemma HomeMarkIsLoose()
    ensures Loose(HOME_MARK)
  {
  }

  predicate MarkedAt(s: string, p: nat) {
    p <= |s| && StartsWith(s[p..], HOME_MARK)
  }

  /** A prefix in the output of a stage was copied, and what follows it is the stage of what follows there. */
  lemma StagePrefix(f: string -> string, s: string, p: nat, x: Prefix) returns (q: nat)
    requires IsStage(f) && PrefixAt(f(s), p, x)
    ensures PrefixAt(s, q, x) && f(s)[p + x.len..] == f(s[q + x.len..])
  {
    var r, n := f(s), x.len;
    PrefixHead(r, p, x);
    q := StageAlign(f, s, p);
    var s', r' := s[q..], r[p..];
    var w := r[p..p + n];
    PrefixChars(w, x);
    hide IsPrefix;
    assert forall i :: 0 <= i < n ==> r'[i] == w[i];
    StageCopies(f, s', n);
    hide IsStage;
    assert r'[..n] == w && r'[n..] == f(s'[n..]) && s'[..n] == w;
    assert s[q..q + n] == w && s'[n..] == s[q + n..] && r'[n..] == r[p + n..];
  }

  lemma StageMarks(f: string -> string, rest: string)
    requires Passes(f) && StartsWith(rest, HOME_MARK)
    ensures StartsWith(f(rest), HOME_MARK)
  {
    var behind := rest[|HOME_MARK|..];
    assert rest == HOME_MARK + behind;
    HomeMarkIsLoose();
    WordPasses(f, HOME_MARK, behind);
    hide Passes;
    assert (HOME_MARK + f(behind))[..|HOME_MARK|] == HOME_MARK;
  }

  /** A home directory in the output of a stage stood in its input, and if a mark was its name there, so it is here. */
  lemma StageHomes(f: string -> string, s: string, p: nat, x: Prefix) returns (q: nat)
    requires IsStage(f) && Passes(f) && Named(f(s), p, x)
    ensures Named(s, q, x)
    ensures MarkedAt(s, q + x.len) ==> MarkedAt(f(s), p + x.len)
  {
    var r, n := f(s), x.len;
    q := StagePrefix(f, s, p, x);
    PrefixSeparator(s[q..q + n], x);
    hide IsPrefix, Passes;
    var rest := s[q + n..];
    assert r[p + n..][0] == r[p + n];
    StageKeepsSeparator(f, rest, x.separator);
    assert rest[0] == s[q + n];
    hide IsStage;
    if MarkedAt(s, q + n) {
      StageMarks(f, rest);
    }
  }

  lemma PrefixSeparator(w: string, x: Prefix)
    requires IsPrefix(w, x)
    ensures !Matchable(x.separator)
  {
    PrefixChars(w, x);
  }

  lemma StageKeepsSeparator(f: string -> string, s: string, separator: char)
    requires IsStage(f) && f(s) != "" && f(s)[0] != separator && !Matchable(separator)
    ensures s != "" && s[0] != separator
  {
    if s != "" {
      assert StageStep(f, s);
    }
  }

  lemma UuidsPass()
    ensures Passes(WithoutUuids)
  {
    forall c: char, t: string
      ensures PassesAt(WithoutUuids, c, t)
    {
      var s := [c] + t;
      assert s[0] == c && s[1..] == t;
      assert UuidAt(s, 0) ==> FitsUuid(s[0], 0) && FitsUuid(s[1], 1);
    }
  }

  lemma LongHexPass()
    ensures Passes(WithoutLongHex)
  {
    forall c: char, t: string
      ensures PassesAt(WithoutLongHex, c, t)
    {
      var s := [c] + t;
      assert s[0] == c && s[1..] == t;
      if !Matchable(c) || (t != "" && !Matchable(t[0])) {
        assert HexRun(s) < 2;
        hide WithoutLongHex;
        HexStageTail(s);
      }
    }
  }

  // ----- The home stage itself -----

  lemma {:induction false} HomeAlign(s: string, i: nat, p: nat) returns (q: nat)
    requires i <= |s| && HeadAt(WithoutHomes(s, i), p)
    ensures i <= q < |s| && HomeAt(s, q).None? && WithoutHomes(s, i)[p..] == WithoutHomes(s, q)
    decreases |s| - i
  {
    hide HomeAt, WithoutHomes, HeadAt;
    NonEmptyStage(s, i, p);
    HomeSteps(s, i);
    var r := WithoutHomes(s, i);
    match HomeAt(s, i)
    case None =>
      if p == 0 {
        q := i;
        assert r[0..] == r;
      } else {
        HeadBehind([s[i]], WithoutHomes(s, i + 1), p);
        q := HomeAlign(s, i + 1, p - 1);
        TailOf([s[i]], WithoutHomes(s, i + 1), p);
      }
    case Some(end) =>
      var rest := WithoutHomes(s, end);
      NoHeadInMark(HOME_MARK, rest, p);
      HeadBehind(HOME_MARK, rest, p);
      q := HomeAlign(s, end, p - |HOME_MARK|);
      TailOf(HOME_MARK, rest, p);
  }

  lemma TailOf(front: string, rest: string, p: nat)
    requires |front| <= p <= |front| + |rest|
    ensures (front + rest)[p..] == rest[p - |front|..]
  {
  }

  lemma NonEmptyStage(s: string, i: nat, p: nat)
    requires i <= |s| && HeadAt(WithoutHomes(s, i), p)
    ensures i < |s| && p < |WithoutHomes(s, i)|
  {
    hide HomeAt;
  }

  lemma HomeSteps(s: string, i: nat)
    requires i < |s|
    ensures WithoutHomes(s, i) == match HomeAt(s, i)
      case Some(end) => HOME_MARK + WithoutHomes(s, end)
      case None => [s[i]] + WithoutHomes(s, i + 1)
  {
    hide HomeAt;
  }

  lemma HomeStep(s: string, i: nat)
    requires i <= |s| && WithoutHomes(s, i) != "" && WithoutHomes(s, i)[0] != '<'
    ensures i < |s| && WithoutHomes(s, i) == [s[i]] + WithoutHomes(s, i + 1)
  {
    hide HomeAt;
    assert HOME_MARK[0] == '<';
  }

  lemma TailHasNoMark(c: char, rest: string, n: nat)
    requires 0 < n <= |rest| + 1 && forall k :: 0 <= k < n ==> ([c] + rest)[k] != '<'
    ensures forall k :: 0 <= k < n - 1 ==> rest[k] != '<'
  {
    forall k | 0 <= k < n - 1
      ensures rest[k] != '<'
    {
      assert ([c] + rest)[k + 1] == rest[k];
    }
  }

  lemma {:induction false} HomeCopies(s: string, i: nat, n: nat)
    requires i <= |s| && n <= |WithoutHomes(s, i)| && forall k :: 0 <= k < n ==> WithoutHomes(s, i)[k] != '<'
    ensures i + n <= |s| && WithoutHomes(s, i) == s[i..i + n] + WithoutHomes(s, i + n)
    decreases n
  {
    if n > 0 {
      var r := WithoutHomes(s, i);
      assert r[0] != '<';
      HomeStep(s, i);
      hide WithoutHomes, HomeAt;
      var rest := WithoutHomes(s, i + 1);
      TailHasNoMark(s[i], rest, n);
      HomeCopies(s, i + 1, n - 1);
      assert s[i..i + n] == [s[i]] + s[i + 1..i + n];
      Associative([s[i]], s[i + 1..i + n], WithoutHomes(s, i + n));
    }
  }

  /** A bare prefix with a home directory right behind it. */
  ghost predicate BareBeforeHome(s: string, q: nat, x: Prefix) {
    PrefixAt(s, q, x) && q + x.len < |s| && s[q + x.len] == x.separator && HomeAt(s, q + x.len).Some?
  }

  lemma {:induction false} PrefixWasCopied(s: string, p: nat, x: Prefix) returns (q: nat)
    requires PrefixAt(WithoutHomes(s, 0), p, x)
    ensures PrefixAt(s, q, x) && HomeAt(s, q).None?
    ensures WithoutHomes(s, 0)[p + x.len..] == WithoutHomes(s, q + x.len)
  {
    hide WithoutHomes, HomeAt;
    var r, n := WithoutHomes(s, 0), x.len;
    PrefixHead(r, p, x);
    q := HomeAlign(s, 0, p);
    var w := r[p..p + n];
    PrefixChars(w, x);
    hide IsPrefix;
    var r' := r[p..];
    assert forall i :: 0 <= i < n ==> r'[i] == w[i];
    HomeCopies(s, q, n);
    assert r'[..n] == w && r'[n..] == r[p + n..];
    assert s[q..q + n] == w;
  }

  /** A home directory in the output of the home stage is a bare Unix prefix and the mark of the next one. */
  lemma HomeStageHomes(s: string, p: nat, x: Prefix) returns (q: nat)
    requires Named(WithoutHomes(s, 0), p, x)
    ensures x != WINDOWS && MarkedAt(WithoutHomes(s, 0), p + x.len)
    ensures BareBeforeHome(s, q, x)
  {
    hide WithoutHomes, HomeAt, IsPrefix, BareBeforeHome;
    var r, n := WithoutHomes(s, 0), p + x.len;
    q := PrefixWasCopied(s, p, x);
    assert r[n..][0] == r[n];
    NameIsMark(s, q, x);
    assert r[n..][0..] == r[n..];
  }

  lemma NameIsMark(s: string, q: nat, x: Prefix)
    requires PrefixAt(s, q, x) && HomeAt(s, q).None?
    requires WithoutHomes(s, q + x.len) != "" && WithoutHomes(s, q + x.len)[0] != x.separator
    ensures x != WINDOWS && BareBeforeHome(s, q, x) && MarkedAt(WithoutHomes(s, q + x.len), 0)
  {
    var n := q + x.len;
    PrefixChars(s[q..n], x);
    if Named(s, q, x) {
      NamedIsHome(s, q, x);
    }
    var r := WithoutHomes(s, n);
    assert s[n] == x.separator && HomeAt(s, n).Some?;
    var y := HomeIsNamed(s, n);
    PrefixHead(s, n, y);
    assert r == HOME_MARK + WithoutHomes(s, HomeAt(s, n).value);
    assert r[0..] == r;
  }

  // ----- The text before the cap -----

  /** Whatever reads as a home directory before the cap is a bare Unix prefix and the mark of the home behind it. */
  lemma UncappedHomes(s: string, p: nat, x: Prefix) returns (q: nat)
    requires Named(Uncapped(s), p, x)
    ensures x != WINDOWS && MarkedAt(Uncapped(s), p + x.len)
    ensures BareBeforeHome(s, q, x)
  {
    hide WithoutHomes, WithoutUuids, WithoutLongHex, HomeAt, IsPrefix, BareBeforeHome, Passes, IsStage, MarkedAt;
    var h := WithoutHomes(s, 0);
    UuidsIsStage();
    UuidsPass();
    LongHexIsStage();
    LongHexPass();
    var i := StageHomes(WithoutLongHex, WithoutUuids(h), p, x);
    var j := StageHomes(WithoutUuids, h, i, x);
    q := HomeStageHomes(s, j, x);
  }

  /** Inside the cap, a mark stands right behind a Unix prefix. */
  ghost predicate MarkReadsAsName(t: string) {
    exists p: nat, x :: MarkedPrefixAt(t, p, x)
  }

  ghost predicate MarkedPrefixAt(t: string, p: nat, x: Prefix) {
    x != WINDOWS && PrefixAt(t, p, x) && p + x.len < MAX_LEN && MarkedAt(t, p + x.len)
  }

  /** The cap cuts right behind a prefix, so that the ellipsis stands where a name would. */
  ghost predicate CutReadsAsName(t: string) {
    |t| > MAX_LEN && exists p: nat, x :: PrefixAt(t, p, x) && p + x.len == MAX_LEN
  }

  lemma CappedPrefix(t: string, p: nat, x: Prefix)
    ensures PrefixAt(Capped(t), p, x) <==> PrefixAt(t, p, x) && p + x.len <= |Capped(t)| && (|t| > MAX_LEN ==> p + x.len <= MAX_LEN)
  {
    var r := Capped(t);
    if |t| > MAX_LEN {
      assert forall i :: 0 <= i < MAX_LEN ==> r[i] == t[i];
      assert r[MAX_LEN] == ELLIPSIS[0];
      if p + x.len <= MAX_LEN {
        assert r[p..p + x.len] == t[p..p + x.len];
      } else if p + x.len == MAX_LEN + 1 && x.len > 0 {
        var w := r[p..p + x.len];
        assert w[x.len - 1] == r[MAX_LEN];
        if IsPrefix(w, x) {
          PrefixChars(w, x);
        }
      }
    }
  }

  lemma MarkIsName(t: string, p: nat, x: Prefix)
    requires PrefixAt(t, p, x) && MarkedAt(t, p + x.len)
    ensures Named(t, p, x)
  {
    PrefixChars(t[p..p + x.len], x);
    assert t[p + x.len] == t[p + x.len..][0] == HOME_MARK[0];
  }

  lemma CapCausesHome(t: string)
    requires MarkReadsAsName(t) || CutReadsAsName(t)
    ensures !NoHome(Capped(t))
  {
    var r := Capped(t);
    var p: nat, x: Prefix;
    if MarkReadsAsName(t) {
      p, x :| MarkedPrefixAt(t, p, x);
      MarkIsName(t, p, x);
    } else {
      p, x :| PrefixAt(t, p, x) && p + x.len == MAX_LEN;
      PrefixChars(t[p..p + x.len], x);
      assert r[MAX_LEN] == ELLIPSIS[0];
    }
    CappedPrefix(t, p, x);
    assert Named(r, p, x);
    NamedIsHome(r, p, x);
  }

  lemma HomeHasCause(s: string, p: nat)
    requires HomeAt(Redacted(s), p).Some?
    ensures MarkReadsAsName(Uncapped(s)) || CutReadsAsName(Uncapped(s))
  {
    hide Uncapped, HomeAt, IsPrefix, MarkedAt;
    var t, r := Uncapped(s), Redacted(s);
    RedactedIsCapped(s);
    var x := HomeIsNamed(r, p);
    CappedPrefix(t, p, x);
    if p + x.len < MAX_LEN {
      assert r[p + x.len] == t[p + x.len];
      var q := UncappedHomes(s, p, x);
      assert MarkedPrefixAt(t, p, x);
    }
  }

  lemma RedactedIsCapped(s: string)
    ensures Redacted(s) == Capped(Uncapped(s))
  {
  }

  lemma SecondPass(s: string)
    ensures Redacted(Redacted(s)) == Redacted(s) <==> NoHome(Redacted(s))
  {
    var t := Redacted(s);
    StagesClean(WithoutHomes(s, 0));
    if NoHome(t) {
      HomeStageFixed(t, 0);
      assert t[0..] == t;
      StagesIdempotent(WithoutHomes(s, 0));
    } else {
      var p := FirstHome(t, 0);
      HomeStagePrefix(t, 0, p);
      NoLongHexPrefix(t, p);
      var rest := HOME_MARK + WithoutHomes(t, HomeAt(t, p).value);
      assert rest[0] == '<' && t[0..p] == t[..p];
      MarkSurvives(t[..p], rest);
      assert Redacted(t)[p] == '<' && t[p] != '<';
    }
  }

  /**
   * Redacting a second time changes nothing exactly when, in the text before the cap, no mark inside the
   * cap stands right behind a Unix prefix and the cap does not cut right behind a Unix or Windows prefix.
   */
  lemma RedactTwice(s: string)
    ensures Redacted(Redacted(s)) == Redacted(s) <==>
      !MarkReadsAsName(Uncapped(s)) && !CutReadsAsName(Uncapped(s))
  {
    hide Redacted, Uncapped, HomeAt, MarkReadsAsName, CutReadsAsName;
    SecondPass(s);
    RedactedIsCapped(s);
    if !NoHome(Redacted(s)) {
      var p :| 0 <= p < |Redacted(s)| && HomeAt(Redacted(s), p).Some?;
      HomeHasCause(s, p);
    } else if MarkReadsAsName(Uncapped(s)) || CutReadsAsName(Uncapped(s)) {
      CapCausesHome(Uncapped(s));
    }
  }

  /** The first cause needs a bare Unix prefix directly before a home directory in the input. */
  lemma MarkNeedsBarePrefix(s: string) returns (q: nat, x: Prefix)
    requires MarkReadsAsName(Uncapped(s))
    ensures x != WINDOWS && BareBeforeHome(s, q, x)
  {
    hide Uncapped, HomeAt, IsPrefix, MarkedAt, BareBeforeHome;
    var t := Uncapped(s);
    var p: nat;
    p, x :| MarkedPrefixAt(t, p, x);
    MarkIsName(t, p, x);
    q := UncappedHomes(s, p, x);
  }

  // ----- One family of inputs for each cause -----

  /** Text with nothing to redact is only capped. */
  lemma CleanIsOnlyCapped(s: string)
    requires NoHome(s) && NoUuid(s) && NoLongHex(s)
    ensures Uncapped(s) == s
  {
    hide WithoutHomes, WithoutUuids, WithoutLongHex, HomeAt;
    HomeStageFixed(s, 0);
    assert s[0..] == s;
    UuidStageFixed(s);
    HexStageFixed(s);
  }

  /** For text with nothing to redact the ellipsis is the only cause. */
  lemma CleanRedactTwice(s: string)
    requires NoHome(s) && NoUuid(s) && NoLongHex(s)
    ensures Redacted(Redacted(s)) == Redacted(s) <==> !CutReadsAsName(s)
  {
    hide Redacted, Uncapped, HomeAt, CutReadsAsName, NoUuid, NoLongHex, IsPrefix;
    CleanIsOnlyCapped(s);
    RedactTwice(s);
    if MarkReadsAsName(s) {
      var p, x :| MarkedPrefixAt(s, p, x);
      MarkIsName(s, p, x);
      NamedIsHome(s, p, x);
    }
  }

  function Padding(n: nat): (r: string)
    ensures |r| == n && forall i :: 0 <= i < n ==> r[i] == 'x'
  {
    seq(n, _ => 'x')
  }

  /** A bare prefix that ends where the cap cuts, and one separator behind it. */
  function CutText(w: string, x: Prefix): string
    requires IsPrefix(w, x)
  {
    PrefixChars(w, x);
    Padding(MAX_LEN - x.len) + w + [x.separator]
  }

  lemma CutTextChars(w: string, x: Prefix)
    requires IsPrefix(w, x)
    ensures
      var s, k := CutText(w, x), MAX_LEN - x.len;
      && |s| == MAX_LEN + 1 && k >= 191 && s[k..MAX_LEN] == w && s[MAX_LEN] == x.separator
      && (forall i :: 0 <= i < k ==> s[i] == 'x')
      && (forall i :: k <= i < MAX_LEN ==> s[i] == w[i - k])
  {
    PrefixChars(w, x);
  }

  /** No character after the first of a prefix, five or more before its end, starts another prefix. */
  lemma NoInnerHead(w: string, x: Prefix, i: nat)
    requires IsPrefix(w, x) && 0 < i && i + 5 < x.len
    ensures w[i] != '/' && !(IsLetter(w[i]) && w[i + 1] == ':')
  {
    PrefixChars(w, x);
    if x == WINDOWS {
      if i == 3 {
        assert LowerAll(w[3..8])[0] == Lower(w[3]) && LowerAll(w[3..8])[1] == Lower(w[4]);
        assert "users"[0] == 'u' && "users"[1] == 's';
      }
    } else if x == USERS {
      assert LowerAll(w[1..7])[0] == Lower(w[1]) && LowerAll(w[1..7])[1] == Lower(w[2]);
      assert "users/"[0] == 'u' && "users/"[1] == 's';
    }
  }

  lemma SamePrefix(s: string, p: nat, x: Prefix, y: Prefix)
    requires PrefixAt(s, p, x) && PrefixAt(s, p, y)
    ensures x == y
  {
    PrefixChars(s[p..p + x.len], x);
    PrefixChars(s[p..p + y.len], y);
    assert s[p..p + x.len][0] == s[p] == s[p..p + y.len][0];
    if x != y && x != WINDOWS && y != WINDOWS {
      SubSlice(s, p, 6, 1, 6);
      SubSlice(s, p, 7, 1, 7);
      HomeIsNotUsers(s, p);
      assert false;
    }
  }

  lemma CutTextHasNoHome(w: string, x: Prefix, p: nat)
    requires IsPrefix(w, x) && p < MAX_LEN + 1
    ensures HomeAt(CutText(w, x), p).None?
  {
    hide HomeAt, CutText, IsLetter;
    CutTextChars(w, x);
    var s, k := CutText(w, x), MAX_LEN - x.len;
    if HomeAt(s, p).Some? {
      var y := HomeIsNamed(s, p);
      PrefixChars(s[p..p + y.len], y);
      PrefixHead(s, p, y);
      hide IsPrefix;
      if p == k {
        SamePrefix(s, p, x, y);
      } else if p < k {
        XIsNoHead(w, x);
        assert false;
      } else {
        NoInnerHead(w, x, p - k);
        assert false;
      }
    }
  }

  lemma XIsNoHead(w: string, x: Prefix)
    requires IsPrefix(w, x)
    ensures |w| > 0 && w[0] != ':'
  {
    PrefixChars(w, x);
  }

  lemma CutTextIsClean(w: string, x: Prefix)
    requires IsPrefix(w, x)
    ensures var s := CutText(w, x); NoHome(s) && NoUuid(s) && NoLongHex(s)
  {
    hide HomeAt, CutText, IsPrefix;
    CutTextChars(w, x);
    var s := CutText(w, x);
    forall p | 0 <= p < |s|
      ensures HomeAt(s, p).None?
    {
      CutTextHasNoHome(w, x, p);
    }
    forall p | 0 <= p <= |s|
      ensures !UuidAt(s, p) && !HexRunAt(s, p)
    {
      if p + 32 <= |s| {
        assert s[p] == 'x' && !FitsUuid(s[p], 0);
      }
    }
  }

  /**
   * The second cause: text without any home directory, in which the cap turns a bare prefix into one.
   * Every Unix or Windows prefix, in any spelling, ending at the cap does it.
   */
  lemma CutCanReadAsName(w: string, x: Prefix)
    requires IsPrefix(w, x)
    ensures var s := CutText(w, x); NoHome(s) && Redacted(Redacted(s)) != Redacted(s)
  {
    hide HomeAt, CutText, IsPrefix, Redacted, NoUuid, NoLongHex, NoHome;
    CutTextIsClean(w, x);
    CutTextChars(w, x);
    var s, k := CutText(w, x), MAX_LEN - x.len;
    CleanRedactTwice(s);
    assert PrefixAt(s, k, x) && k + x.len == MAX_LEN;
  }

  /** After `/home/` any name is a home directory, and only a name. */
  lemma UnixHomeAfterPrefix(s: string, i: nat)
    requires i + 6 <= |s| && s[i] == '/' && s[i + 1..i + 6] == "home/"
    ensures HomeAt(s, i).Some? <==> i + 6 < |s| && s[i + 6] != '/'
  {
    var low := LowerAll(s[i + 1..i + 6]);
    assert low == "home/";
    assert s[i + 1] == s[i + 1..i + 6][0] == 'h';
    if |s| >= i + 7 {
      assert LowerAll(s[i + 1..i + 7])[0] == 'h' && "users/"[0] == 'u';
    }
  }

  lemma NotHome(s: string, i: nat)
    requires i + 2 < |s| && s[i] != '/' && s[i + 1] != ':'
    ensures HomeAt(s, i).None?
  {
  }

  /**
   * The first cause: for every name without a slash, `/home//home/<name>` is redacted to `/home/` and
   * the mark, which the next redaction takes for a home directory.
   */
  lemma MarkCanReadAsName(name: string)
    requires name != "" && '/' !in name
    ensures
      var s := "/home//home/" + name;
      Redacted(s) == "/home/" + HOME_MARK && Redacted(Redacted(s)) != Redacted(s)
  {
    hide HomeAt, NoHome, WithoutHomes, WithoutUuids, WithoutLongHex, UuidAt, HexRunAt;
    var s, t := "/home//home/" + name, "/home/" + HOME_MARK;
    DoubledPrefix(name);
    ShortIsClean(t);
    UuidStageFixed(t);
    HexStageFixed(t);
    assert Redacted(s) == t;
    SecondPass(s);
    MarkAfterHome();
  }

  lemma ShortIsClean(t: string)
    requires |t| < 32
    ensures NoUuid(t) && NoLongHex(t)
  {
  }

  lemma DoubledPrefix(name: string)
    requires name != "" && '/' !in name
    ensures WithoutHomes("/home//home/" + name, 0) == "/home/" + HOME_MARK
  {
    hide HomeAt;
    var front := "/home/";
    var s := front + front + name;
    assert "/home//home/" == front + front;
    assert s[0..6] == front && s[1..6] == "home/" && s[6] == '/' && s[5] == '/';
    assert s[7..12] == "home/" && s[12..] == name && s[12] == name[0];
    UnixHomeAfterPrefix(s, 0);
    NotHome(s, 1);
    NotHome(s, 2);
    NotHome(s, 3);
    NotHome(s, 4);
    SlashBeforeSlash(s, 5);
    UnixHomeAfterPrefix(s, 6);
    WholeName(s, 6);
    HomeStagePrefix(s, 0, 6);
    assert WithoutHomes(s, |s|) == "";
  }

  lemma SlashBeforeSlash(s: string, i: nat)
    requires i + 7 < |s| && s[i] == '/' && s[i + 1] == '/'
    ensures HomeAt(s, i).None?
  {
    assert LowerAll(s[i + 1..i + 7])[0] == '/' && "users/"[0] == 'u';
    assert LowerAll(s[i + 1..i + 6])[0] == '/' && "home/"[0] == 'h';
  }

  lemma WholeName(s: string, i: nat)
    requires i + 6 < |s| && s[i] == '/' && s[i + 1..i + 6] == "home/" && '/' !in s[i + 6..]
    ensures HomeAt(s, i) == Some(|s|)
  {
    forall k | i + 6 <= k < |s|
      ensures s[k] != '/'
    {
      assert s[k] == s[i + 6..][k - (i + 6)];
    }
    UnixHomeAfterPrefix(s, i);
    assert LowerAll(s[i + 1..i + 6]) == "home/";
    assert s[i + 1] == s[i + 1..i + 6][0] == 'h';
    assert LowerAll(s[i + 1..i + 7])[0] == 'h' && "users/"[0] == 'u';
  }

  lemma MarkAfterHome()
    ensures !NoHome("/home/" + HOME_MARK)
  {
    var t := "/home/" + HOME_MARK;
    assert t[1..6] == "home/" && t[6] == '<';
    UnixHomeAfterPrefix(t, 0);
  }

  // ----- The prefixes, spelled out -----

  /** The same text, but for capital letters. */
  predicate AnyCase(w: string, word: string) {
    |w| == |word| && forall i :: 0 <= i < |w| ==>
      w[i] == word[i] || ('a' <= word[i] <= 'z' && w[i] as int + 32 == word[i] as int)
  }

  lemma LowerIff(w: string, word: string)
    requires forall i :: 0 <= i < |word| ==> !('A' <= word[i] <= 'Z')
    ensures LowerAll(w) == word <==> AnyCase(w, word)
  {
    if |w| == |word| {
      forall i | 0 <= i < |w|
        ensures Lower(w[i]) == word[i] <==>
          w[i] == word[i] || ('a' <= word[i] <= 'z' && w[i] as int + 32 == word[i] as int)
      {
        LowerCharIff(w[i], word[i]);
      }
      if LowerAll(w) == word {
        forall i | 0 <= i < |w|
          ensures w[i] == word[i] || ('a' <= word[i] <= 'z' && w[i] as int + 32 == word[i] as int)
        {
          assert LowerAll(w)[i] == Lower(w[i]);
        }
      }
    }
  }

  lemma LowerCharIff(c: char, l: char)
    requires !('A' <= l <= 'Z')
    ensures Lower(c) == l <==> c == l || ('a' <= l <= 'z' && c as int + 32 == l as int)
  {
    if 'A' <= c <= 'Z' {
      assert (c - 'A' + 'a') as int == c as int + 32;
    }
  }

  /** A drive letter and `:\\Users\\`, or `/Users/`, or `/home/`, in any case. */
  lemma PrefixSpelled(w: string, x: Prefix)
    ensures IsPrefix(w, x) <==>
      || (&& x == Prefix(9, '\\') && |w| == 9 && ('a' <= w[0] <= 'z' || 'A' <= w[0] <= 'Z')
          && w[1] == ':' && w[2] == '\\' && AnyCase(w[3..8], "users") && w[8] == '\\')
      || (x == Prefix(7, '/') && |w| == 7 && w[0] == '/' && AnyCase(w[1..7], "users/"))
      || (x == Prefix(6, '/') && |w| == 6 && w[0] == '/' && AnyCase(w[1..6], "home/"))
  {
    if |w| == 9 {
      LowerIff(w[3..8], "users");
    } else if |w| == 7 {
      LowerIff(w[1..7], "users/");
    } else if |w| == 6 {
      LowerIff(w[1..6], "home/");
    }
    hide LowerAll, AnyCase;
  }

  // ----- The stages, spelled out -----

  predicate HexDigit(c: char) {
    '0' <= c <= '9' || 'a' <= c <= 'f' || 'A' <= c <= 'F'
  }

  /** 36 characters: groups of 8, 4, 4, 4 and 12 hex digits with dashes between them. */
  predicate Uuid(w: string) {
    |w| == 36 && forall k :: 0 <= k < 36 ==> if k in {8, 13, 18, 23} then w[k] == '-' else HexDigit(w[k])
  }

  lemma UuidIff(s: string, p: nat)
    ensures UuidAt(s, p) <==> p + 36 <= |s| && Uuid(s[p..p + 36])
  {
    if p + 36 <= |s| {
      var w := s[p..p + 36];
      if UuidAt(s, p) {
        forall k | 0 <= k < 36
          ensures if k in {8, 13, 18, 23} then w[k] == '-' else HexDigit(w[k])
        {
          assert w[k] == s[p + k] && FitsUuid(s[p + k], p + k - p);
        }
      }
      if Uuid(w) {
        forall i | p <= i < p + 36
          ensures FitsUuid(s[i], i - p)
        {
          assert w[i - p] == s[i];
        }
      }
    }
  }

  lemma UuidUnfold(s: string)
    requires s != ""
    ensures WithoutUuids("") == ""
    ensures UuidAt(s, 0) ==> |s| >= 36 && WithoutUuids(s) == UUID_MARK + WithoutUuids(s[36..])
    ensures !UuidAt(s, 0) ==> WithoutUuids(s) == [s[0]] + WithoutUuids(s[1..])
  {
  }

  /** The UUID stage: from the left, each UUID becomes its mark, and every other character is copied. */
  lemma UuidStage(s: string)
    requires s != ""
    ensures WithoutUuids("") == "" && UUID_MARK == "<UUID>"
    ensures |s| >= 36 && Uuid(s[..36]) ==> WithoutUuids(s) == UUID_MARK + WithoutUuids(s[36..])
    ensures !(|s| >= 36 && Uuid(s[..36])) ==> WithoutUuids(s) == [s[0]] + WithoutUuids(s[1..])
  {
    UuidUnfold(s);
    UuidIff(s, 0);
    hide UuidAt, Uuid, WithoutUuids;
    assert |s| >= 36 ==> s[0..36] == s[..36];
  }

  /** The hex stage: a whole run of hex digits becomes its mark if it has 32 or more, and is copied otherwise. */
  lemma HexStage(run: string, rest: string)
    requires run != "" && (forall i :: 0 <= i < |run| ==> HexDigit(run[i])) && (rest == "" || !HexDigit(rest[0]))
    ensures WithoutLongHex(run + rest) == (if |run| >= 32 then "<HEX>" else run) + WithoutLongHex(rest)
  {
    var s := run + rest;
    assert forall i :: 0 <= i < |run| ==> s[i] == run[i];
    assert rest != "" ==> s[|run|] == rest[0];
    HexRunIs(s, |run|);
    assert s[|run|..] == rest && s[..|run|] == run;
  }

  lemma HexStageCopy(c: char, rest: string)
    requires !HexDigit(c)
    ensures WithoutLongHex("") == "" && WithoutLongHex([c] + rest) == [c] + WithoutLongHex(rest)
  {
    var s := [c] + rest;
    assert s[1..] == rest;
  }

  /** The home stage: from the left, a prefix and its name become the mark, and every other character is copied. */
  lemma HomeStage(s: string, i: nat)
    requires i < |s|
    ensures (forall x :: !Named(s, i, x)) ==> WithoutHomes(s, i) == [s[i]] + WithoutHomes(s, i + 1)
    ensures forall x, end: nat :: Named(s, i, x) && NamedUpTo(s, i, x, end) ==>
      WithoutHomes(s, i) == "<USER_HOME>" + WithoutHomes(s, end)
  {
    hide WithoutHomes;
    if HomeAt(s, i).Some? {
      var x := HomeIsNamed(s, i);
    }
    HomeUnfold(s, i);
    forall x, end: nat | Named(s, i, x) && NamedUpTo(s, i, x, end)
      ensures WithoutHomes(s, i) == "<USER_HOME>" + WithoutHomes(s, end)
    {
      NamedIsHome(s, i, x);
      HomeEnds(s, i, x, end);
    }
  }

  /** The name goes up to the next separator or the end of the text. */
  ghost predicate NamedUpTo(s: string, p: nat, x: Prefix, end: nat) {
    && p + x.len <= end <= |s| && (forall k :: p + x.len <= k < end ==> s[k] != x.separator)
    && (end < |s| ==> s[end] == x.separator)
  }

  lemma HomeUnfold(s: string, i: nat)
    requires i < |s|
    ensures WithoutHomes(s, |s|) == ""
    ensures WithoutHomes(s, i) == match HomeAt(s, i)
      case Some(end) => "<USER_HOME>" + WithoutHomes(s, end)
      case None => [s[i]] + WithoutHomes(s, i + 1)
  {
    hide HomeAt;
  }

  lemma HomeEnds(s: string, p: nat, x: Prefix, end: nat)
    requires Named(s, p, x) && NamedUpTo(s, p, x, end)
    ensures HomeAt(s, p) == Some(end)
  {
    NamedIsHome(s, p, x);
    var w := s[p..p + x.len];
    PrefixChars(w, x);
    assert w[0] == s[p];
    NameEndIs(s, p + x.len, x.separator, end);
    if x == WINDOWS {
      SubSlice(s, p, 9, 3, 8);
    } else if x == USERS {
      SubSlice(s, p, 7, 1, 7);
    } else {
      SubSlice(s, p, 6, 1, 6);
      HomeIsNotUsers(s, p);
    }
  }

  lemma NameEndIs(s: string, i: nat, separator: char, end: nat)
    requires i <= end <= |s| && (forall k :: i <= k < end ==> s[k] != separator) && (end < |s| ==> s[end] == separator)
    ensures NameEnd(s, i, separator) == end
  {
    var n := NameEnd(s, i, separator);
    assert !(n < end) && !(end < n);
  }

  /** The cap: at most 200 characters, and an ellipsis if there were more. */
  lemma CapIs(s: string)
    ensures Capped(s) == if |s| <= 200 then s else s[..200] + "\U{2026}"
  {
  }

  /** Whatever the input, no UUID and no 32 hex digits in a row are left anywhere. */
  lemma NothingIsLeft(s: string, p: nat)
    ensures |Redacted(s)| <= 201
    ensures p + 36 <= |Redacted(s)| ==> !Uuid(Redacted(s)[p..p + 36])
    ensures p + 32 <= |Redacted(s)| ==> exists k :: p <= k < p + 32 && !HexDigit(Redacted(s)[k])
  {
    var r := Redacted(s);
    StagesClean(WithoutHomes(s, 0));
    hide Redacted;
    UuidIff(r, p);
    if p + 32 <= |r| {
      assert !HexRunAt(r, p);
    }
  }
}
