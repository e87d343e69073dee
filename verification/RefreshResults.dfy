/** What each call of the refresh protocol returns, and what it leaves in the vault, told from the vault and the log. */
module RefreshResults {
  import opened Text
  import opened Refresh
  import opened RefreshLaws

  // ----- The last events of a link -----

  /** The last attempt on the link. */
  ghost predicate LastAttempt(log: seq<Event>, id: LinkId, m: nat) {
    AttemptAt(log, id, m) && forall i: nat :: m < i < |log| ==> !AttemptAt(log, id, i)
  }

  /** The last grant of the link. */
  ghost predicate LastGrant(log: seq<Event>, id: LinkId, k: nat) {
    LatestUpTo(log, id, k, |log|)
  }

  lemma {:induction false} TriedIsLast(initial: Option<Tokens>, log: seq<Event>, id: LinkId) returns (m: nat)
    requires Books(initial, log, id).tried.Some?
    ensures LastAttempt(log, id, m) && Books(initial, log, id).tried == Some((log[m].expiresAt, log[m].now))
  {
    var n := |log| - 1;
    var init, e := log[..n], log[n];
    if e.Attempt? && e.linkId == id {
      m := n;
    } else {
      assert Books(initial, log, id).tried == Books(initial, init, id).tried;
      m := TriedIsLast(initial, init, id);
      hide Books;
      assert forall i: nat :: i < n ==> (AttemptAt(init, id, i) <==> AttemptAt(log, id, i));
      assert !AttemptAt(log, id, n);
    }
  }

  lemma {:induction false} GrantedIsLast(initial: Option<Tokens>, log: seq<Event>, id: LinkId) returns (k: nat)
    requires Books(initial, log, id).granted.Some?
    ensures LastGrant(log, id, k)
    ensures Books(initial, log, id).granted == Some((log[k].tokens, log[k].planEnabled))
  {
    var n := |log| - 1;
    var init, e := log[..n], log[n];
    if e.Granted? && e.linkId == id {
      k := n;
    } else {
      assert Books(initial, log, id).granted == Books(initial, init, id).granted;
      k := GrantedIsLast(initial, init, id);
      hide Books;
      assert forall i: nat :: i < n ==> (GrantAt(init, id, i) <==> GrantAt(log, id, i));
      assert !GrantAt(log, id, n);
    }
  }

  lemma LastIsUnique(log: seq<Event>, id: LinkId, i: nat, j: nat)
    ensures LastAttempt(log, id, i) && LastAttempt(log, id, j) ==> i == j
    ensures LastGrant(log, id, i) && LastGrant(log, id, j) ==> i == j
  {
  }

  // ----- Results -----

  /** The step ends the call of its task with this result. */
  ghost predicate Ends(s: State, step: Step, r: Credential) {
    match step
    case Begin(_, id) => id !in s.links && r == NotLinked
    case GetLock(_) => false
    case Acquire(_) => false
    case Reread(t, now) =>
      && IsWorking(s, t)
      && var id := s.tasks[t].linkId;
         if id !in s.links then r == NotLinked
         else if s.links[id].status == ReauthRequired || !s.links[id].planEnabled || id !in s.tokens then r == NeedsReauth
         else now + 60 < s.tokens[id].expiresAt && r == Credential(s.tokens[id].access)
    case Respond(t, response) =>
      && IsWorking(s, t) && response == Fail
      && exists m: nat :: LastAttempt(s.log, s.tasks[t].linkId, m) && FailsWith(s, s.tasks[t].linkId, s.log[m], r)
    case SaveTokens(_, ok) => !ok && r == StorageFailed
    case UpdateLink(t, ok) =>
      && IsWorking(s, t)
      && if !ok then r == StorageFailed
         else exists k: nat :: LastGrant(s.log, s.tasks[t].linkId, k) && GrantEndsWith(s.log[k], r)
    case MarkReauth(_, _) => false
    case ClearTokens(_, _) => r == NeedsReauth
  }

  /** A failed refresh: the stored token if it had not expired when the caller read the clock. */
  ghost predicate FailsWith(s: State, id: LinkId, attempt: Event, r: Credential)
    requires attempt.Attempt?
  {
    if attempt.now < attempt.expiresAt then id in s.tokens && r == Credential(s.tokens[id].access) else r == Unavailable
  }

  /** A granted refresh: the granted token if the plan allows it. */
  ghost predicate GrantEndsWith(grant: Event, r: Credential)
    requires grant.Granted?
  {
    r == if grant.planEnabled then Credential(grant.tokens.access) else NeedsReauth
  }

  /** What a caller past the lock holds agrees with the vault and the log. */
  lemma WorkerSees(init: State, steps: seq<Step>, t: TaskId)
    requires Init(init) && Exec(init, steps).Some? && IsWorking(Exec(init, steps).value, t)
    ensures
      var s := Exec(init, steps).value;
      var id := s.tasks[t].linkId;
      Current(Books(Lookup(init.tokens, id), s.log, id), Retired(s.log, id), ViewOf(s, id))
      && ViewOf(s, id).stage == Some(s.tasks[t].stage)
  {
    RunsAreSafe(init, steps);
    hide Exec, Init, HistoryOk, Owned, Tallied, Books, Retired, Current, StageOn;
    var s := Exec(init, steps).value;
    var id := s.tasks[t].linkId;
    assert Consistent(Lookup(init.tokens, id), id, ViewOf(s, id));
    StageOfWorker(s, t);
  }

  lemma FailureResult(init: State, steps: seq<Step>, t: TaskId, r: Credential)
    requires Init(init) && Exec(init, steps).Some? && Enabled(Exec(init, steps).value, Respond(t, Fail))
    ensures
      var s := Exec(init, steps).value;
      Apply(s, Respond(t, Fail)).tasks[t] == Done(r) <==> Ends(s, Respond(t, Fail), r)
  {
    WorkerSees(init, steps, t);
    hide Exec, Init, Books, Retired, StageOn, LastAttempt, RereadStep;
    var s := Exec(init, steps).value;
    var id := s.tasks[t].linkId;
    var m := TriedIsLast(Lookup(init.tokens, id), s.log, id);
    forall i: nat | LastAttempt(s.log, id, i)
      ensures i == m
    {
      LastIsUnique(s.log, id, i, m);
    }
    AttemptIs(s.log, id, m);
  }

  lemma AttemptIs(log: seq<Event>, id: LinkId, m: nat)
    requires LastAttempt(log, id, m)
    ensures m < |log| && log[m].Attempt?
  {
  }

  lemma GrantIs(log: seq<Event>, id: LinkId, k: nat)
    requires LastGrant(log, id, k)
    ensures k < |log| && log[k].Granted?
  {
  }

  /** What the update of a link is made from. */
  lemma UpdaterSees(init: State, steps: seq<Step>, t: TaskId) returns (k: nat)
    requires Init(init) && Exec(init, steps).Some?
    requires var s := Exec(init, steps).value; IsWorking(s, t) && s.tasks[t].stage.Updating?
    ensures
      var s := Exec(init, steps).value;
      var id, stage := s.tasks[t].linkId, s.tasks[t].stage;
      && LastGrant(s.log, id, k) && k < |s.log| && s.log[k].Granted?
      && stage.grant == s.log[k].tokens && stage.planEnabled == s.log[k].planEnabled
      && id in s.links && s.links[id] == stage.link
      && id in s.tokens && s.tokens[id] == s.log[k].tokens
  {
    WorkerSees(init, steps, t);
    hide Exec, Init, Books, Retired, StageOn, LastGrant;
    var s := Exec(init, steps).value;
    var id := s.tasks[t].linkId;
    k := GrantedIsLast(Lookup(init.tokens, id), s.log, id);
    GrantIs(s.log, id, k);
  }

  lemma UpdateResult(init: State, steps: seq<Step>, t: TaskId, ok: bool, r: Credential)
    requires Init(init) && Exec(init, steps).Some? && Enabled(Exec(init, steps).value, UpdateLink(t, ok))
    ensures
      var s := Exec(init, steps).value;
      Apply(s, UpdateLink(t, ok)).tasks[t] == Done(r) <==> Ends(s, UpdateLink(t, ok), r)
  {
    var k := UpdaterSees(init, steps, t);
    hide Exec, Init, LastGrant, RereadStep, RespondStep;
    var s := Exec(init, steps).value;
    var id := s.tasks[t].linkId;
    forall i: nat | LastGrant(s.log, id, i)
      ensures i == k
    {
      LastIsUnique(s.log, id, i, k);
    }
  }

  lemma RereadResult(s: State, t: TaskId, now: int, r: Credential)
    requires Enabled(s, Reread(t, now))
    ensures Apply(s, Reread(t, now)).tasks[t] == Done(r) <==> Ends(s, Reread(t, now), r)
  {
    RereadTask(s, t, now);
    hide RespondStep, RereadStep;
  }

  lemma RereadTask(s: State, t: TaskId, now: int)
    requires IsWorking(s, t) && s.tasks[t].stage.Holding?
    ensures
      var id := s.tasks[t].linkId;
      RereadStep(s, t, now).tasks[t] ==
        if id !in s.links then Done(NotLinked)
        else if s.links[id].status == ReauthRequired || !s.links[id].planEnabled || id !in s.tokens then Done(NeedsReauth)
        else if now + 60 < s.tokens[id].expiresAt then Done(Credential(s.tokens[id].access))
        else s.tasks[t].(stage := Refreshing(s.links[id], s.tokens[id], now))
  {
  }

  /** A step ends its call with exactly the result that vault and log call for. */
  lemma ResultOfStep(init: State, steps: seq<Step>, step: Step, r: Credential)
    requires Init(init) && Exec(init, steps).Some? && Enabled(Exec(init, steps).value, step)
    ensures
      var s := Exec(init, steps).value;
      && step.task in Apply(s, step).tasks
      && (Apply(s, step).tasks[step.task] == Done(r) <==> Ends(s, step, r))
  {
    var s := Exec(init, steps).value;
    match step
    case Reread(t, now) => RereadResult(s, t, now, r);
    case UpdateLink(t, ok) => UpdateResult(init, steps, t, ok, r);
    case Respond(t, response) =>
      if response == Fail {
        FailureResult(init, steps, t, r);
      } else {
        hide Exec, RereadStep, Init;
      }
    case _ => hide Exec, RereadStep, RespondStep, Init;
  }

  // ----- Whole runs -----

  /** Step `j` of the run ends the call of `t` with `r`. */
  ghost predicate EndsAt(init: State, steps: seq<Step>, j: nat, t: TaskId, r: Credential)
    requires j < |steps|
  {
    var before := Exec(init, steps[..j]);
    before.Some? && steps[j].task == t && Ends(before.value, steps[j], r)
  }

  lemma StepOfTask(s: State, step: Step, t: TaskId)
    requires Enabled(s, step)
    ensures step.task != t ==> (t in Apply(s, step).tasks <==> t in s.tasks)
    ensures step.task != t && t in s.tasks ==> Apply(s, step).tasks[t] == s.tasks[t]
    ensures t in s.tasks && s.tasks[t].Done? ==> step.task != t
  {
    if step.Begin? || step.GetLock? || step.Acquire? {
      hide RereadStep, RespondStep;
    } else {
      hide Apply;
      WorkingStepMoves(s, step);
    }
  }

  /** A call has ended with a result exactly when some step of the run ended it so. */
  lemma {:induction false} ResultIff(init: State, steps: seq<Step>, t: TaskId, r: Credential)
    requires Init(init) && Exec(init, steps).Some?
    ensures
      var s := Exec(init, steps).value;
      t in s.tasks && s.tasks[t] == Done(r) <==> exists j: nat :: j < |steps| && EndsAt(init, steps, j, t, r)
  {
    if steps != [] {
      var n := |steps| - 1;
      var init', step := steps[..n], steps[n];
      var s := Exec(init, init').value;
      ResultIff(init, init', t, r);
      ResultOfStep(init, init', step, r);
      StepOfTask(s, step, t);
      assert Exec(init, steps) == Some(Apply(s, step));
      hide Apply, Enabled, Ends, Init;
      EarlierEnds(init, steps, t, r);
      assert EndsAt(init, steps, n, t, r) <==> step.task == t && Ends(s, step, r);
      if step.task == t && exists j: nat :: j < n && EndsAt(init, steps, j, t, r) {
        var j: nat :| j < n && EndsAt(init, steps, j, t, r);
        assert EndsAt(init, init', j, t, r);
      }
    }
  }

  lemma EarlierEnds(init: State, steps: seq<Step>, t: TaskId, r: Credential)
    requires steps != []
    ensures
      var n := |steps| - 1;
      forall j: nat :: j < n ==> (EndsAt(init, steps, j, t, r) <==> EndsAt(init, steps[..n], j, t, r))
  {
    hide Exec, Ends;
    var n := |steps| - 1;
    forall j: nat | j < n
      ensures EndsAt(init, steps, j, t, r) <==> EndsAt(init, steps[..n], j, t, r)
    {
      assert steps[..n][..j] == steps[..j];
    }
  }

  // ----- Credentials -----

  /** The three ways to a credential. */
  ghost predicate Earns(s: State, step: Step, t: TaskId, a: nat) {
    && IsWorking(s, t)
    && var id := s.tasks[t].linkId;
       || (&& step.Reread? && id in s.links && s.links[id].status == Active && s.links[id].planEnabled
           && id in s.tokens && step.now + 60 < s.tokens[id].expiresAt && a == s.tokens[id].access)
       || (&& step == Respond(t, Fail)
           && exists m: nat :: LastAttempt(s.log, id, m) && s.log[m].now < s.log[m].expiresAt
                && id in s.tokens && a == s.tokens[id].access)
       || (&& step == UpdateLink(t, true)
           && exists k: nat :: LastGrant(s.log, id, k) && s.log[k].planEnabled && a == s.log[k].tokens.access)
  }

  lemma EarnsIff(s: State, step: Step, a: nat)
    requires Enabled(s, step)
    ensures Ends(s, step, Credential(a)) <==> Earns(s, step, step.task, a)
  {
    hide LastAttempt, LastGrant;
    forall m: nat, id | LastAttempt(s.log, id, m)
      ensures m < |s.log| && s.log[m].Attempt?
    {
      AttemptIs(s.log, id, m);
    }
    forall k: nat, id | LastGrant(s.log, id, k)
      ensures k < |s.log| && s.log[k].Granted?
    {
      GrantIs(s.log, id, k);
    }
  }

  lemma {:induction false} PrefixRuns(init: State, steps: seq<Step>, j: nat)
    requires Exec(init, steps).Some? && j < |steps|
    ensures Exec(init, steps[..j]).Some? && Enabled(Exec(init, steps[..j]).value, steps[j])
  {
    var n := |steps| - 1;
    hide Apply, Enabled;
    if j < n {
      PrefixRuns(init, steps[..n], j);
      assert steps[..n][..j] == steps[..j];
    }
  }

  /**
   * In every run, a call ends with a credential if and only if the caller read the clock before the margin of the stored
   * token, and the credential is that token's; or its refresh failed, its attempt read the clock before the token expired,
   * and the credential is still that of the stored token; or its grant was saved with the plan enabled and the link was
   * updated, and the credential is the granted one.
   */
  lemma CredentialIff(init: State, steps: seq<Step>, t: TaskId, a: nat)
    requires Init(init) && Exec(init, steps).Some?
    ensures
      var s := Exec(init, steps).value;
      t in s.tasks && s.tasks[t] == Done(Credential(a)) <==>
        exists j: nat :: j < |steps| && EarnsAt(init, steps, j, t, a)
  {
    ResultIff(init, steps, t, Credential(a));
    hide Exec, Init, Ends, Earns;
    forall j: nat | j < |steps|
      ensures EndsAt(init, steps, j, t, Credential(a)) <==> EarnsAt(init, steps, j, t, a)
    {
      PrefixRuns(init, steps, j);
      EarnsIff(Exec(init, steps[..j]).value, steps[j], a);
    }
  }

  ghost predicate EarnsAt(init: State, steps: seq<Step>, j: nat, t: TaskId, a: nat)
    requires j < |steps|
  {
    var before := Exec(init, steps[..j]);
    before.Some? && steps[j].task == t && Earns(before.value, steps[j], t, a)
  }

  /** When the caller read the clock before it was answered. */
  ghost predicate ReadAt(s: State, step: Step, now: int) {
    || (step.Reread? && now == step.now)
    || (&& step.Respond? && IsWorking(s, step.task)
        && exists m: nat :: LastAttempt(s.log, s.tasks[step.task].linkId, m) && now == s.log[m].now)
  }

  /** No credential handed out from the vault had expired when its caller read the clock. */
  lemma VaultCredentialIsFresh(init: State, steps: seq<Step>, step: Step, a: nat) returns (now: int)
    requires Init(init) && Exec(init, steps).Some? && Enabled(Exec(init, steps).value, step)
    requires !step.UpdateLink? && Ends(Exec(init, steps).value, step, Credential(a))
    ensures
      var s := Exec(init, steps).value;
      && ReadAt(s, step, now) && IsWorking(s, step.task)
      && var id := s.tasks[step.task].linkId;
         id in s.tokens && s.tokens[id].access == a && now < s.tokens[id].expiresAt
  {
    var s := Exec(init, steps).value;
    EarnsIff(s, step, a);
    if step.Reread? {
      now := step.now;
    } else {
      now := FailureIsFresh(init, steps, step.task);
    }
  }

  lemma FailureIsFresh(init: State, steps: seq<Step>, t: TaskId) returns (now: int)
    requires Init(init) && Exec(init, steps).Some? && Enabled(Exec(init, steps).value, Respond(t, Fail))
    ensures
      var s := Exec(init, steps).value;
      var id := s.tasks[t].linkId;
      && ReadAt(s, Respond(t, Fail), now) && id in s.tokens
      && exists m: nat :: LastAttempt(s.log, id, m) && s.log[m].now == now && s.log[m].expiresAt == s.tokens[id].expiresAt
    ensures
      var s := Exec(init, steps).value;
      var id := s.tasks[t].linkId;
      (exists m: nat :: LastAttempt(s.log, id, m) && s.log[m].now < s.log[m].expiresAt) ==> now < s.tokens[id].expiresAt
  {
    WorkerSees(init, steps, t);
    hide Exec, Init, Books, Retired, StageOn, LastAttempt;
    var s := Exec(init, steps).value;
    var id := s.tasks[t].linkId;
    var m := TriedIsLast(Lookup(init.tokens, id), s.log, id);
    AttemptIs(s.log, id, m);
    now := s.log[m].now;
    forall i: nat | LastAttempt(s.log, id, i)
      ensures i == m
    {
      LastIsUnique(s.log, id, i, m);
    }
  }

  // ----- The vault -----

  /** What a step of `t` leaves in the vault, told from the vault before and the log. */
  ghost predicate VaultAfter(s: State, step: Step, s': State) {
    match step
    case SaveTokens(t, true) =>
      && IsWorking(s, t) && s'.links == s.links
      && exists k: nat :: LastGrant(s.log, s.tasks[t].linkId, k) && s'.tokens == s.tokens[s.tasks[t].linkId := s.log[k].tokens]
    case UpdateLink(t, true) =>
      && IsWorking(s, t) && s'.tokens == s.tokens
      && var id := s.tasks[t].linkId;
         && id in s.links
         && exists k: nat :: LastGrant(s.log, id, k) && s'.links == s.links[id :=
              s.links[id].(expiresAt := s.log[k].tokens.expiresAt, planEnabled := s.log[k].planEnabled)]
    case MarkReauth(t, true) =>
      && IsWorking(s, t) && s'.tokens == s.tokens
      && var id := s.tasks[t].linkId;
         id in s.links && s'.links == s.links[id := s.links[id].(status := ReauthRequired)]
    case ClearTokens(t, true) => IsWorking(s, t) && s'.links == s.links && s'.tokens == s.tokens - {s.tasks[t].linkId}
    case _ => s'.links == s.links && s'.tokens == s.tokens
  }

  /** Only a save, an update, a mark or a clear that succeeds changes the vault, and each as the last grant calls for. */
  lemma VaultOfStep(init: State, steps: seq<Step>, step: Step)
    requires Init(init) && Exec(init, steps).Some? && Enabled(Exec(init, steps).value, step)
    ensures VaultAfter(Exec(init, steps).value, step, Apply(Exec(init, steps).value, step))
  {
    var s := Exec(init, steps).value;
    match step
    case Reread(_, _) => VaultKept(s, step);
    case Respond(_, _) => VaultKept(s, step);
    case SaveTokens(t, ok) => SaveVault(init, steps, t, ok);
    case UpdateLink(t, ok) =>
      var k := UpdaterSees(init, steps, t);
      hide Exec, Init, RereadStep, RespondStep, LastGrant;
    case MarkReauth(t, ok) => MarkVault(init, steps, t, ok);
    case _ => hide Exec, Init, RereadStep, RespondStep;
  }

  lemma SaveVault(init: State, steps: seq<Step>, t: TaskId, ok: bool)
    requires Init(init) && Exec(init, steps).Some? && Enabled(Exec(init, steps).value, SaveTokens(t, ok))
    ensures
      var s := Exec(init, steps).value;
      VaultAfter(s, SaveTokens(t, ok), Apply(s, SaveTokens(t, ok)))
  {
    WorkerSees(init, steps, t);
    hide Exec, Init, Books, Retired, StageOn, LastGrant, RereadStep, RespondStep;
    var s := Exec(init, steps).value;
    var id := s.tasks[t].linkId;
    var k := GrantedIsLast(Lookup(init.tokens, id), s.log, id);
    GrantIs(s.log, id, k);
  }

  lemma MarkVault(init: State, steps: seq<Step>, t: TaskId, ok: bool)
    requires Init(init) && Exec(init, steps).Some? && Enabled(Exec(init, steps).value, MarkReauth(t, ok))
    ensures
      var s := Exec(init, steps).value;
      VaultAfter(s, MarkReauth(t, ok), Apply(s, MarkReauth(t, ok)))
  {
    WorkerSees(init, steps, t);
    hide Exec, Init, Books, Retired, StageOn, RereadStep, RespondStep;
  }

  // ----- The log -----

  /** The event a step puts on record, told from the vault and the provider's answer. */
  ghost predicate Records(s: State, step: Step, log': seq<Event>) {
    if step.Begin? || step.GetLock? || step.Acquire? then log' == s.log
    else
      && IsWorking(s, step.task)
      && var id := s.tasks[step.task].linkId;
         match step
         case Reread(_, now) =>
           if id in s.links && s.links[id].status == Active && s.links[id].planEnabled && id in s.tokens
              && s.tokens[id].expiresAt <= now + 60
           then log' == s.log + [Attempt(id, s.tokens[id].refresh, s.tokens[id].expiresAt, now)]
           else log' == s.log
         case Respond(_, Grant(tokens, plan)) =>
           && id in s.tokens && s.tokens[id].refresh.Some?
           && log' == s.log + [Granted(id, s.tokens[id].refresh.value, tokens, plan)]
         case Respond(_, Revoke) => log' == s.log + [Revoked(id)]
         case Respond(_, Fail) => log' == s.log + [Failed(id)]
         case SaveTokens(_, ok) => log' == if ok then s.log else s.log + [SaveFailed(id)]
         case MarkReauth(_, ok) => log' == if ok then s.log else s.log + [MarkFailed(id)]
         case ClearTokens(_, ok) => log' == if ok then s.log else s.log + [ClearFailed(id)]
         case _ => log' == s.log
  }

  /** Every step records what happened, and a refresh is attempted exactly when the stored token is due. */
  lemma LogOfStep(init: State, steps: seq<Step>, step: Step)
    requires Init(init) && Exec(init, steps).Some? && Enabled(Exec(init, steps).value, step)
    ensures Records(Exec(init, steps).value, step, Apply(Exec(init, steps).value, step).log)
  {
    match step
    case Reread(t, now) => hide Exec, Init, RespondStep;
    case Respond(t, response) =>
      WorkerSees(init, steps, t);
      hide Exec, Init, Books, Retired, StageOn, RereadStep;
    case _ => hide Exec, Init, RereadStep, RespondStep;
  }
}
