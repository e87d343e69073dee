/** What the refresh protocol guarantees its callers, event by event, and when exactly it does not. */
module RefreshLaws {
  import opened Text
  import opened Refresh

  lemma {:induction false} EventWasOk(initial: Option<Tokens>, id: LinkId, log: seq<Event>, k: nat)
    requires HistoryOk(initial, id, log) && k < |log|
    ensures EventOk(initial, id, log[..k], log[k])
  {
    hide EventOk;
    if k < |log| - 1 {
      EventWasOk(initial, id, log[..|log| - 1], k);
      assert log[..|log| - 1][..k] == log[..k];
    }
  }

  /** What every event of a run satisfies, for the link it concerns. */
  lemma EventOfRun(init: State, steps: seq<Step>, m: nat)
    requires Init(init) && Exec(init, steps).Some? && m < |Exec(init, steps).value.log|
    ensures
      var log := Exec(init, steps).value.log;
      var id := log[m].linkId;
      EventOk(Lookup(init.tokens, id), id, log[..m], log[m])
  {
    hide EventOk, Exec, Init;
    RunsAreSafe(init, steps);
    var s := Exec(init, steps).value;
    var id := s.log[m].linkId;
    assert Consistent(Lookup(init.tokens, id), id, ViewOf(s, id));
    EventWasOk(Lookup(init.tokens, id), id, s.log, m);
  }

  // ----- One refresh at a time -----

  /** At most one refresh per link is in flight. */
  lemma OneRefreshInFlight(init: State, steps: seq<Step>, t: TaskId, u: TaskId)
    requires Init(init) && Exec(init, steps).Some?
    requires
      var s := Exec(init, steps).value;
      && IsWorking(s, t) && s.tasks[t].stage.Refreshing?
      && IsWorking(s, u) && s.tasks[u].stage.Refreshing?
      && s.tasks[t].linkId == s.tasks[u].linkId
    ensures t == u
  {
    hide Exec, Init;
    RunsAreSafe(init, steps);
    var s := Exec(init, steps).value;
    OneWorker(s, t, u, s.tasks[t].linkId);
  }

  // ----- Replaced tokens -----

  ghost predicate GrantAt(log: seq<Event>, id: LinkId, k: nat) {
    k < |log| && log[k].Granted? && log[k].linkId == id
  }

  /** The grant at `k` replaced the link's refresh token. */
  ghost predicate RotationAt(log: seq<Event>, id: LinkId, k: nat) {
    GrantAt(log, id, k) && Rotates(log[k])
  }

  ghost predicate LastRotation(log: seq<Event>, id: LinkId, k: nat) {
    RotationAt(log, id, k) && forall i: nat :: k < i < |log| ==> !RotationAt(log, id, i)
  }

  /** `k` is the last grant of the link up to position `n`. */
  ghost predicate LatestUpTo(log: seq<Event>, id: LinkId, k: nat, n: nat) {
    GrantAt(log, id, k) && k < n <= |log| && forall i: nat :: k < i < n ==> !GrantAt(log, id, i)
  }

  /** The event at `j` is the failed save of the grant at `k`. */
  ghost predicate SaveFailedAt(log: seq<Event>, id: LinkId, k: nat, j: nat) {
    j < |log| && log[j] == SaveFailed(id) && LatestUpTo(log, id, k, j)
  }

  ghost predicate LostAt(log: seq<Event>, id: LinkId, k: nat) {
    LastRotation(log, id, k) && exists j: nat :: SaveFailedAt(log, id, k, j)
  }

  /** The save of the last grant that replaced the refresh token failed. */
  ghost predicate RotationLost(log: seq<Event>, id: LinkId) {
    exists k: nat :: LostAt(log, id, k)
  }

  ghost predicate LatestRotates(log: seq<Event>, id: LinkId) {
    exists k: nat :: LatestUpTo(log, id, k, |log|) && Rotates(log[k])
  }

  lemma LatestSnoc(log: seq<Event>, e: Event, id: LinkId, k: nat, n: nat)
    requires n <= |log|
    ensures LatestUpTo(log + [e], id, k, n) <==> LatestUpTo(log, id, k, n)
  {
    var log' := log + [e];
    assert forall i: nat :: i < |log| ==> log'[i] == log[i];
    assert forall i: nat :: i < n ==> (GrantAt(log', id, i) <==> GrantAt(log, id, i));
  }

  lemma LatestRotatesSnoc(log: seq<Event>, e: Event, id: LinkId)
    ensures LatestRotates(log + [e], id) <==>
      if e.Granted? && e.linkId == id then Rotates(e) else LatestRotates(log, id)
  {
    var log', n := log + [e], |log|;
    assert log'[n] == e;
    assert forall i: nat :: i < n ==> log'[i] == log[i];
    assert GrantAt(log', id, n) <==> e.Granted? && e.linkId == id;
    if GrantAt(log', id, n) {
      assert LatestUpTo(log', id, n, |log'|);
      assert forall k: nat :: k < n ==> !LatestUpTo(log', id, k, |log'|);
    } else {
      forall k: nat | k < n
        ensures LatestUpTo(log', id, k, |log'|) <==> LatestUpTo(log, id, k, n)
      {
        LatestSnoc(log, e, id, k, n);
      }
    }
  }

  lemma LastRotationSnoc(log: seq<Event>, e: Event, id: LinkId, k: nat)
    requires k < |log|
    ensures LastRotation(log + [e], id, k) <==> LastRotation(log, id, k) && !(Rotates(e) && e.linkId == id)
  {
    var log', n := log + [e], |log|;
    assert log'[n] == e;
    assert forall i: nat :: i < n ==> (RotationAt(log', id, i) <==> RotationAt(log, id, i));
    assert RotationAt(log', id, n) <==> Rotates(e) && e.linkId == id;
  }

  lemma SaveFailedSnoc(log: seq<Event>, e: Event, id: LinkId, k: nat, j: nat)
    requires j < |log|
    ensures SaveFailedAt(log + [e], id, k, j) <==> SaveFailedAt(log, id, k, j)
  {
    LatestSnoc(log, e, id, k, j);
    assert (log + [e])[j] == log[j];
  }

  /** How one more event changes whether the save at `k` is the lost one. */
  lemma LostSnoc(log: seq<Event>, e: Event, id: LinkId, k: nat)
    requires k < |log|
    ensures LostAt(log + [e], id, k) <==>
      && !(Rotates(e) && e.linkId == id)
      && (LostAt(log, id, k) || (e == SaveFailed(id) && LastRotation(log, id, k) && LatestUpTo(log, id, k, |log|)))
  {
    hide LastRotation, LatestUpTo, SaveFailedAt;
    var log', n := log + [e], |log|;
    LastRotationSnoc(log, e, id, k);
    forall j: nat | j < n
      ensures SaveFailedAt(log', id, k, j) <==> SaveFailedAt(log, id, k, j)
    {
      SaveFailedSnoc(log, e, id, k, j);
    }
    LastSaveFailed(log, e, id, k);
    SaveFailedInLog(log, id, k);
    SaveFailedInLog(log', id, k);
  }

  lemma SaveFailedInLog(log: seq<Event>, id: LinkId, k: nat)
    ensures forall j: nat :: SaveFailedAt(log, id, k, j) ==> j < |log|
  {
  }

  lemma LastSaveFailed(log: seq<Event>, e: Event, id: LinkId, k: nat)
    ensures SaveFailedAt(log + [e], id, k, |log|) <==> e == SaveFailed(id) && LatestUpTo(log, id, k, |log|)
  {
    LatestSnoc(log, e, id, k, |log|);
  }

  /** A latest grant that replaces the token is the last that does. */
  lemma LatestIsLast(log: seq<Event>, id: LinkId, k: nat)
    requires LatestUpTo(log, id, k, |log|) && Rotates(log[k])
    ensures LastRotation(log, id, k)
  {
  }

  lemma RotationLostSnoc(log: seq<Event>, e: Event, id: LinkId)
    ensures RotationLost(log + [e], id) <==>
      && !(Rotates(e) && e.linkId == id)
      && (RotationLost(log, id) || (e == SaveFailed(id) && LatestRotates(log, id)))
  {
    hide LostAt, LatestUpTo, LastRotation;
    var log', n := log + [e], |log|;
    forall k: nat | k < n
      ensures LostAt(log', id, k) <==>
        && !(Rotates(e) && e.linkId == id)
        && (LostAt(log, id, k) || (e == SaveFailed(id) && LastRotation(log, id, k) && LatestUpTo(log, id, k, n)))
    {
      LostSnoc(log, e, id, k);
    }
    LostInLog(log, id);
    LostInLog(log', id);
    if e == SaveFailed(id) && LatestRotates(log, id) {
      var k: nat :| LatestUpTo(log, id, k, n) && Rotates(log[k]);
      LatestIsLast(log, id, k);
      assert LostAt(log', id, k);
    }
  }

  lemma LostInLog(log: seq<Event>, id: LinkId)
    ensures forall k: nat :: LostAt(log, id, k) ==> k + 1 < |log|
    ensures forall k: nat :: LastRotation(log, id, k) ==> k < |log| && Rotates(log[k])
    ensures forall k: nat, n: nat :: LatestUpTo(log, id, k, n) ==> k < |log|
  {
  }

  /** The ledger's flags say what they are meant to say. */
  lemma {:induction false} LedgerFlags(initial: Option<Tokens>, log: seq<Event>, id: LinkId)
    ensures Books(initial, log, id).lost <==> RotationLost(log, id)
    ensures Books(initial, log, id).rotated <==> LatestRotates(log, id)
  {
    if log != [] {
      hide RotationLost, LatestRotates;
      var init, e := log[..|log| - 1], log[|log| - 1];
      assert log == init + [e];
      LedgerFlags(initial, init, id);
      LatestRotatesSnoc(init, e, id);
      RotationLostSnoc(init, e, id);
    }
  }

  lemma {:induction false} RetiredIff(log: seq<Event>, id: LinkId, token: Token)
    ensures token in Retired(log, id) <==> exists k: nat :: RotationAt(log, id, k) && log[k].used == token
  {
    if log != [] {
      var n := |log| - 1;
      RetiredIff(log[..n], id, token);
      assert forall k: nat :: k < n ==> (RotationAt(log, id, k) <==> RotationAt(log[..n], id, k));
      assert RotationAt(log, id, n) <==> Rotates(log[n]) && log[n].linkId == id;
    }
  }

  /** A token presented for one link was never the one replaced at another. */
  lemma TokensStayWithTheirLink(init: State, steps: seq<Step>, k: nat, m: nat)
    requires Init(init) && Exec(init, steps).Some?
    requires
      var log := Exec(init, steps).value.log;
      k < |log| && m < |log| && Rotates(log[k]) && log[m].Attempt? && log[m].presented == Some(log[k].used)
    ensures
      var log := Exec(init, steps).value.log;
      log[k].linkId == log[m].linkId
  {
    RunsAreSafe(init, steps);
    hide Exec, Init, HistoryOk, Current, Tallied, Books;
    var s := Exec(init, steps).value;
    var log, id, id' := s.log, s.log[k].linkId, s.log[m].linkId;
    assert Consistent(Lookup(init.tokens, id), id, ViewOf(s, id));
    assert Consistent(Lookup(init.tokens, id'), id', ViewOf(s, id'));
    assert RotationAt(log, id, k);
    RetiredIff(log, id, log[k].used);
    assert log[m] in log;
    assert Mine(ViewOf(s, id), id, Some(log[k].used)) && Mine(ViewOf(s, id'), id', log[m].presented);
  }

  /**
   * A caller presents a refresh token that some refresh replaced if and only if the save of the last
   * grant that replaced the link's token failed.
   */
  lemma ReplacedTokenPresentedIff(init: State, steps: seq<Step>, m: nat)
    requires Init(init) && Exec(init, steps).Some?
    requires m < |Exec(init, steps).value.log| && Exec(init, steps).value.log[m].Attempt?
    ensures
      var log := Exec(init, steps).value.log;
      (exists k: nat :: k < m && Rotates(log[k]) && log[m].presented == Some(log[k].used)) <==>
        RotationLost(log[..m], log[m].linkId)
  {
    EventOfRun(init, steps, m);
    hide Exec, Init, Books, Retired, RotationLost;
    var log := Exec(init, steps).value.log;
    var id, before := log[m].linkId, log[..m];
    LedgerFlags(Lookup(init.tokens, id), before, id);
    assert forall k: nat :: k < m ==> before[k] == log[k];
    if log[m].presented.Some? {
      var token := log[m].presented.value;
      RetiredIff(before, id, token);
      forall k: nat | k < m && Rotates(log[k]) && log[k].used == token
        ensures RotationAt(before, id, k)
      {
        TokensStayWithTheirLink(init, steps, k, m);
      }
    }
  }

  /** No refresh token is presented after a refresh replaced it, unless a save of that link failed in between. */
  lemma ReplacedTokenIsNeverPresented(init: State, steps: seq<Step>, k: nat, m: nat)
    requires Init(init) && Exec(init, steps).Some?
    requires
      var log := Exec(init, steps).value.log;
      && k < m < |log| && Rotates(log[k]) && log[m].Attempt?
      && (forall j :: k < j < m ==> log[j] != SaveFailed(log[k].linkId))
    ensures
      var log := Exec(init, steps).value.log;
      log[m].presented != Some(log[k].used)
  {
    hide Exec, Init, RotationLost;
    var log := Exec(init, steps).value.log;
    if log[m].presented == Some(log[k].used) {
      TokensStayWithTheirLink(init, steps, k, m);
      ReplacedTokenPresentedIff(init, steps, m);
      NotLostWithoutFailure(log[..m], log[k].linkId, k);
    }
  }

  lemma NotLostWithoutFailure(log: seq<Event>, id: LinkId, k: nat)
    requires RotationAt(log, id, k) && forall j :: k < j < |log| ==> log[j] != SaveFailed(id)
    ensures !RotationLost(log, id)
  {
    forall i: nat
      ensures !LostAt(log, id, i)
    {
      assert i < k ==> !LastRotation(log, id, i);
      assert i >= k ==> forall j: nat :: !SaveFailedAt(log, id, i, j);
    }
  }

  // ----- One refresh serves all -----

  /** Unless its save failed, the last grant is what the vault holds. */
  lemma {:induction false} LastGrantIsStored(initial: Option<Tokens>, log: seq<Event>, id: LinkId, k: nat)
    requires LatestUpTo(log, id, k, |log|) && forall j :: k < j < |log| ==> log[j] != SaveFailed(id)
    ensures Books(initial, log, id).stored == Some(log[k].tokens)
  {
    var n := |log| - 1;
    if k < n {
      var init := log[..n];
      assert log == init + [log[n]] && !GrantAt(log, id, n);
      LatestSnoc(init, log[n], id, k, n);
      LastGrantIsStored(initial, init, id, k);
    }
  }

  /**
   * A further refresh presents the token granted last, and happens only once the clock has reached the
   * margin before the expiry it was granted, unless the save of that grant failed.
   */
  lemma RefreshedOnceUntilMargin(init: State, steps: seq<Step>, k: nat, m: nat)
    requires Init(init) && Exec(init, steps).Some?
    requires
      var log := Exec(init, steps).value.log;
      && m < |log| && log[m].Attempt? && LatestUpTo(log, log[m].linkId, k, m)
      && (forall j :: k < j < m ==> log[j] != SaveFailed(log[m].linkId))
    ensures
      var log := Exec(init, steps).value.log;
      && log[m].presented == log[k].tokens.refresh
      && log[m].now >= log[k].tokens.expiresAt - REFRESH_MARGIN_SECS
  {
    EventOfRun(init, steps, m);
    hide Exec, Init, Books, Retired;
    var log := Exec(init, steps).value.log;
    var id := log[m].linkId;
    LatestPrefix(log, id, k, m);
    LastGrantIsStored(Lookup(init.tokens, id), log[..m], id, k);
  }

  lemma LatestPrefix(log: seq<Event>, id: LinkId, k: nat, m: nat)
    requires m <= |log| && LatestUpTo(log, id, k, m)
    ensures LatestUpTo(log[..m], id, k, m)
  {
    assert forall i: nat :: i < m ==> (GrantAt(log[..m], id, i) <==> GrantAt(log, id, i));
  }

  /** What a caller that holds the lock finds, by the history. */
  lemma HolderSees(init: State, steps: seq<Step>, t: TaskId)
    requires Init(init) && Exec(init, steps).Some?
    requires var s := Exec(init, steps).value; IsWorking(s, t) && s.tasks[t].stage == Holding
    ensures
      var s := Exec(init, steps).value;
      var id := s.tasks[t].linkId;
      && HistoryOk(Lookup(init.tokens, id), id, s.log)
      && var ledger := Books(Lookup(init.tokens, id), s.log, id);
         && (id in s.tokens ==> Some(s.tokens[id]) == ledger.stored)
         && (ledger.writes.Some? ==>
               if ledger.writes.value == (true, true)
               then id in s.tokens && id in s.links && s.links[id].status == Active && s.links[id].planEnabled
               else id !in s.tokens || (id in s.links && s.links[id].status == ReauthRequired))
  {
    RunsAreSafe(init, steps);
    hide Exec, Init, HistoryOk, Owned, Tallied, Books, Retired, StageOn;
    var s := Exec(init, steps).value;
    var id := s.tasks[t].linkId;
    assert Consistent(Lookup(init.tokens, id), id, ViewOf(s, id));
    StageOfWorker(s, t);
  }

  /**
   * However many callers came with the same expiring token: one that reads the clock before the margin of the
   * last grant, whose save did not fail, makes no refresh, and gets the granted token if the link is in use.
   */
  lemma CallersShareOneRefresh(init: State, steps: seq<Step>, t: TaskId, now: int, k: nat)
    requires Init(init) && Exec(init, steps).Some?
    requires
      var s := Exec(init, steps).value;
      && IsWorking(s, t) && s.tasks[t].stage == Holding
      && LatestUpTo(s.log, s.tasks[t].linkId, k, |s.log|)
      && (forall j :: k < j < |s.log| ==> s.log[j] != SaveFailed(s.tasks[t].linkId))
      && now + REFRESH_MARGIN_SECS < s.log[k].tokens.expiresAt
    ensures
      var s := Exec(init, steps).value;
      var s', id := Apply(s, Reread(t, now)), s.tasks[t].linkId;
      && s'.log == s.log && s'.tasks[t].Done?
      && (id in s.tokens && id in s.links && s.links[id].status == Active && s.links[id].planEnabled ==>
            s'.tasks[t].result == Credential(s.log[k].tokens.access))
  {
    hide Exec, Init, Books, LatestUpTo;
    var s := Exec(init, steps).value;
    HolderSees(init, steps, t);
    LastGrantIsStored(Lookup(init.tokens, s.tasks[t].linkId), s.log, s.tasks[t].linkId, k);
  }

  // ----- Revocation -----

  ghost predicate AttemptAt(log: seq<Event>, id: LinkId, k: nat) {
    k < |log| && log[k].Attempt? && log[k].linkId == id
  }

  /** No attempt on the link from position `k` up to `n`. */
  ghost predicate Quiet(log: seq<Event>, id: LinkId, k: nat, n: nat) {
    forall i: nat :: k <= i < n ==> !AttemptAt(log, id, i)
  }

  /** Until the next attempt the ledger tells which of the two writes of a revocation failed. */
  lemma {:induction false} WritesAre(initial: Option<Tokens>, id: LinkId, log: seq<Event>, k: nat)
    requires HistoryOk(initial, id, log) && k < |log| && log[k] == Revoked(id) && Quiet(log, id, k, |log|)
    ensures Books(initial, log, id).writes == Some((MarkFailed(id) in log[k..], ClearFailed(id) in log[k..]))
  {
    var n := |log| - 1;
    var init, e := log[..n], log[n];
    if k == n {
      assert log[k..] == [e];
    } else {
      assert forall i: nat :: i < n ==> (AttemptAt(init, id, i) <==> AttemptAt(log, id, i));
      assert !AttemptAt(log, id, n);
      WritesAre(initial, id, init, k);
      assert log[k..] == init[k..] + [e];
    }
  }

  lemma {:induction false} FirstAttempt(log: seq<Event>, id: LinkId, k: nat, m: nat) returns (n: nat)
    requires k <= m && AttemptAt(log, id, m)
    ensures k <= n <= m && AttemptAt(log, id, n) && Quiet(log, id, k, n)
    decreases m - k
  {
    if AttemptAt(log, id, k) {
      n := k;
    } else {
      n := FirstAttempt(log, id, k + 1, m);
    }
  }

  /**
   * After the provider revoked a grant, a further attempt means that between the revocation and the next
   * attempt both writes that record it failed.
   */
  lemma NoRefreshAfterRevocation(init: State, steps: seq<Step>, k: nat, m: nat) returns (n: nat)
    requires Init(init) && Exec(init, steps).Some?
    requires
      var log := Exec(init, steps).value.log;
      k < m < |log| && log[k].Revoked? && AttemptAt(log, log[k].linkId, m)
    ensures
      var log := Exec(init, steps).value.log;
      var id := log[k].linkId;
      && k < n <= m && AttemptAt(log, id, n) && Quiet(log, id, k, n)
      && MarkFailed(id) in log[k..n] && ClearFailed(id) in log[k..n]
  {
    hide Exec, Init, Books, HistoryOk, Retired;
    var s := Exec(init, steps).value;
    var log, id := s.log, s.log[k].linkId;
    n := FirstAttempt(log, id, k, m);
    EventOfRun(init, steps, n);
    HistoryPrefixOk(init, steps, id, n);
    var before := log[..n];
    assert forall i: nat :: i < n ==> (AttemptAt(before, id, i) <==> AttemptAt(log, id, i));
    assert before[k..] == log[k..n];
    WritesAre(Lookup(init.tokens, id), id, before, k);
  }

  lemma HistoryPrefixOk(init: State, steps: seq<Step>, id: LinkId, n: nat)
    requires Init(init) && Exec(init, steps).Some? && n <= |Exec(init, steps).value.log|
    ensures HistoryOk(Lookup(init.tokens, id), id, Exec(init, steps).value.log[..n])
  {
    RunsAreSafe(init, steps);
    hide Exec, Init, EventOk;
    var s := Exec(init, steps).value;
    assert Consistent(Lookup(init.tokens, id), id, ViewOf(s, id));
    HistoryPrefix(Lookup(init.tokens, id), id, s.log, n);
  }

  lemma {:induction false} HistoryPrefix(initial: Option<Tokens>, id: LinkId, log: seq<Event>, n: nat)
    requires HistoryOk(initial, id, log) && n <= |log|
    ensures HistoryOk(initial, id, log[..n])
  {
    hide EventOk;
    if n < |log| {
      HistoryPrefix(initial, id, log[..|log| - 1], n);
      assert log[..|log| - 1][..n] == log[..n];
    } else {
      assert log[..n] == log;
    }
  }

  /**
   * A revoked grant is tried again exactly when both writes that record the revocation failed: stated of the
   * next caller to hold the lock at a time when the stored token, if any, is due.
   */
  lemma RevocationRetriedIff(init: State, steps: seq<Step>, t: TaskId, now: int, k: nat)
    requires Init(init) && Exec(init, steps).Some?
    requires
      var s := Exec(init, steps).value;
      && IsWorking(s, t) && s.tasks[t].stage == Holding
      && var id := s.tasks[t].linkId;
      && k < |s.log| && s.log[k] == Revoked(id) && Quiet(s.log, id, k, |s.log|)
      && (id in s.tokens ==> s.tokens[id].ExpiresWithin(now, REFRESH_MARGIN_SECS))
    ensures
      var s := Exec(init, steps).value;
      var s', id := Apply(s, Reread(t, now)), s.tasks[t].linkId;
      (IsWorking(s', t) && s'.tasks[t].stage.Refreshing?) <==>
        MarkFailed(id) in s.log[k..] && ClearFailed(id) in s.log[k..]
  {
    hide Exec, Init, Books, HistoryOk, Quiet;
    var s := Exec(init, steps).value;
    HolderSees(init, steps, t);
    WritesAre(Lookup(init.tokens, s.tasks[t].linkId), s.tasks[t].linkId, s.log, k);
  }

  // ----- No caller waits for ever on a lock nobody holds -----

  ghost predicate HeldKept(s: State) {
    forall lock :: lock in s.held ==> IsWorking(s, s.held[lock]) && s.tasks[s.held[lock]].lock == lock
  }

  lemma HeldKeptByStep(s: State, step: Step)
    requires HeldKept(s) && Enabled(s, step)
    ensures HeldKept(Apply(s, step))
  {
    var s', t := Apply(s, step), step.task;
    if step.Begin? || step.GetLock? || step.Acquire? {
      hide RereadStep, RespondStep;
    } else {
      WorkingStepMoves(s, step);
      hide Apply, Enabled;
      HeldKeptMoving(s, s', t);
    }
  }

  lemma HeldKeptMoving(s: State, s': State, t: TaskId)
    requires HeldKept(s) && MovesOn(s, s', t)
    ensures HeldKept(s')
  {
    if stage :| Advances(s, s', t, stage) {
    } else {
      var result :| Finishes(s, s', t, result);
    }
  }

  lemma {:induction false} HeldKeptByRun(init: State, steps: seq<Step>)
    requires Init(init) && Exec(init, steps).Some?
    ensures HeldKept(Exec(init, steps).value)
  {
    if steps != [] {
      hide HeldKept, Apply, Enabled, Init;
      HeldKeptByRun(init, steps[..|steps| - 1]);
      HeldKeptByStep(Exec(init, steps[..|steps| - 1]).value, steps[|steps| - 1]);
    }
  }

  /** While a call is unfinished some caller under way can take a step: the protocol never locks up. */
  lemma NeverStuck(init: State, steps: seq<Step>, t: TaskId) returns (step: Step)
    requires Init(init) && Exec(init, steps).Some?
    requires t in Exec(init, steps).value.tasks && !Exec(init, steps).value.tasks[t].Done?
    ensures !step.Begin? && Enabled(Exec(init, steps).value, step)
  {
    HeldKeptByRun(init, steps);
    hide Exec, Init;
    var s := Exec(init, steps).value;
    match s.tasks[t]
    case Targeting(_) => step := GetLock(t);
    case Waiting(_, lock) =>
      if lock in s.held {
        step := WorkerStep(s, s.held[lock]);
      } else {
        step := Acquire(t);
      }
    case Working(_, _, _) => step := WorkerStep(s, t);
  }

  lemma WorkerStep(s: State, t: TaskId) returns (step: Step)
    requires IsWorking(s, t)
    ensures !step.Begin? && Enabled(s, step)
  {
    match s.tasks[t].stage
    case Holding => step := Reread(t, 0);
    case Refreshing(_, _, _) => step := Respond(t, Fail);
    case Saving(_, _, _) => step := SaveTokens(t, true);
    case Updating(_, _, _) => step := UpdateLink(t, true);
    case Marking(_) => step := MarkReauth(t, true);
    case Clearing => step := ClearTokens(t, true);
  }

  // ----- Why the saves matter -----

  lemma ExecSnoc(init: State, steps: seq<Step>, step: Step)
    requires Exec(init, steps).Some? && Enabled(Exec(init, steps).value, step)
    ensures Exec(init, steps + [step]) == Some(Apply(Exec(init, steps).value, step))
  {
    assert (steps + [step])[..|steps|] == steps;
  }

  /** A caller that comes alone to a free link gets its lock. */
  lemma ReachHolding(init: State, steps: seq<Step>, t: TaskId, id: LinkId) returns (longer: seq<Step>)
    requires Exec(init, steps).Some?
    requires var s := Exec(init, steps).value; t !in s.tasks && s.held == map[] && id in s.links
    ensures
      var s := Exec(init, steps).value;
      && Exec(init, longer).Some?
      && var s' := Exec(init, longer).value;
         && IsWorking(s', t) && s'.tasks[t].linkId == id && s'.tasks[t].stage == Holding
         && s'.held == map[s'.tasks[t].lock := t]
         && s' == s.(tasks := s'.tasks, held := s'.held, lockTable := s'.lockTable, nextLock := s'.nextLock)
         && s'.tasks == s.tasks[t := s'.tasks[t]]
  {
    hide Exec, RereadStep, RespondStep;
    var s := Exec(init, steps).value;
    ExecSnoc(init, steps, Begin(t, id));
    var s1 := Apply(s, Begin(t, id));
    ExecSnoc(init, steps + [Begin(t, id)], GetLock(t));
    var s2 := Apply(s1, GetLock(t));
    ExecSnoc(init, steps + [Begin(t, id)] + [GetLock(t)], Acquire(t));
    longer := steps + [Begin(t, id)] + [GetLock(t)] + [Acquire(t)];
  }

  /** ... and, when its token is due, to the point of refreshing. */
  lemma ReachRefreshing(init: State, steps: seq<Step>, t: TaskId, id: LinkId, now: int) returns (longer: seq<Step>)
    requires Exec(init, steps).Some?
    requires
      var s := Exec(init, steps).value;
      && t !in s.tasks && s.held == map[]
      && id in s.links && s.links[id].status == Active && s.links[id].planEnabled
      && id in s.tokens && s.tokens[id].ExpiresWithin(now, REFRESH_MARGIN_SECS)
    ensures
      var s := Exec(init, steps).value;
      && Exec(init, longer).Some?
      && var s' := Exec(init, longer).value;
         && IsWorking(s', t) && s'.tasks[t].linkId == id
         && s'.tasks[t].stage == Refreshing(s.links[id], s.tokens[id], now)
         && s'.held == map[s'.tasks[t].lock := t]
         && s' == s.(tasks := s'.tasks, held := s'.held, lockTable := s'.lockTable, nextLock := s'.nextLock, log := s'.log)
         && s'.tasks == s.tasks[t := s'.tasks[t]]
         && s'.log == s.log + [Attempt(id, s.tokens[id].refresh, s.tokens[id].expiresAt, now)]
  {
    hide Exec, RespondStep;
    longer := ReachHolding(init, steps, t, id);
    ExecSnoc(init, longer, Reread(t, now));
    longer := longer + [Reread(t, now)];
  }

  /** After a failed save the vault still holds the replaced token, and the next caller presents it. */
  lemma LostSaveReplaysToken(init: State, id: LinkId, unused: Token, now: int) returns (steps: seq<Step>)
    requires Init(init) && id in init.links && init.links[id].status == Active && init.links[id].planEnabled
    requires id in init.tokens && init.tokens[id].refresh.Some? && unused !in init.issued
    requires init.tokens[id].ExpiresWithin(now, REFRESH_MARGIN_SECS)
    ensures Exec(init, steps).Some?
    ensures
      var log := Exec(init, steps).value.log;
      && |log| == 4
      && log[1].Granted? && log[1].tokens.refresh == Some(unused) && unused != log[1].used && log[2] == SaveFailed(id)
      && log[3].Attempt? && log[3].presented == Some(log[1].used)
  {
    steps := ReachRefreshing(init, [], 0, id, now);
    hide Exec;
    var s := Exec(init, steps).value;
    var granted := Respond(0, Grant(Tokens(0, Some(unused), now + 1000), true));
    ExecSnoc(init, steps, granted);
    var s1 := Apply(s, granted);
    ExecSnoc(init, steps + [granted], SaveTokens(0, false));
    var s2 := Apply(s1, SaveTokens(0, false));
    assert s2.held == map[];
    steps := ReachRefreshing(init, steps + [granted] + [SaveTokens(0, false)], 1, id, now);
  }

  /** A refreshing caller is told that the grant is revoked, and both writes that record it fail. */
  lemma LoseRevocation(init: State, steps: seq<Step>, t: TaskId) returns (longer: seq<Step>)
    requires Exec(init, steps).Some?
    requires
      var s := Exec(init, steps).value;
      IsWorking(s, t) && s.tasks[t].stage.Refreshing? && s.held == map[s.tasks[t].lock := t]
    ensures
      var s := Exec(init, steps).value;
      var id := s.tasks[t].linkId;
      && Exec(init, longer).Some?
      && var s' := Exec(init, longer).value;
         && s'.held == map[] && s'.tasks.Keys == s.tasks.Keys && s'.links == s.links && s'.tokens == s.tokens
         && s'.log == s.log + [Revoked(id), MarkFailed(id), ClearFailed(id)]
  {
    hide Exec, RereadStep;
    var s := Exec(init, steps).value;
    ExecSnoc(init, steps, Respond(t, Revoke));
    var s1 := Apply(s, Respond(t, Revoke));
    hide RespondStep;
    ExecSnoc(init, steps + [Respond(t, Revoke)], MarkReauth(t, false));
    var s2 := Apply(s1, MarkReauth(t, false));
    ExecSnoc(init, steps + [Respond(t, Revoke)] + [MarkReauth(t, false)], ClearTokens(t, false));
    longer := steps + [Respond(t, Revoke)] + [MarkReauth(t, false)] + [ClearTokens(t, false)];
    assert Apply(s2, ClearTokens(t, false)).held == map[];
  }

  /** When both writes that record a revocation fail, the next caller tries the refresh again. */
  lemma LostRevocationRetries(init: State, id: LinkId, now: int) returns (steps: seq<Step>)
    requires Init(init) && id in init.links && init.links[id].status == Active && init.links[id].planEnabled
    requires id in init.tokens && init.tokens[id].ExpiresWithin(now, REFRESH_MARGIN_SECS)
    ensures Exec(init, steps).Some?
    ensures
      var log := Exec(init, steps).value.log;
      && |log| == 5
      && log[1] == Revoked(id) && log[2] == MarkFailed(id) && log[3] == ClearFailed(id)
      && log[4].Attempt? && log[4].linkId == id
  {
    steps := ReachRefreshing(init, [], 0, id, now);
    hide Exec, Apply, Enabled;
    steps := LoseRevocation(init, steps, 0);
    steps := ReachRefreshing(init, steps, 1, id, now);
  }
}
