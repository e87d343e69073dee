/**
 * The token refresh protocol: any number of concurrent callers, one lock per link, a re-read under
 * the lock, a refresh grant (section 6 of RFC 6749) whose token may rotate, then a save.
 */
module Refresh {
  import opened Text

  type TaskId = nat
  type LinkId = nat
  type LockId = nat
  type Token = nat

  /** Refresh access tokens this close to expiry. */
  const REFRESH_MARGIN_SECS := 60

  datatype Tokens = Tokens(access: nat, refresh: Option<Token>, expiresAt: int) {
    predicate ExpiresWithin(now: int, seconds: int) {
      expiresAt <= now + seconds
    }
  }

  datatype LinkStatus = Active | ReauthRequired

  datatype Link = Link(status: LinkStatus, planEnabled: bool, expiresAt: int)

  datatype Credential = Credential(access: nat) | NotLinked | NeedsReauth | StorageFailed | Unavailable

  /** Where a caller that holds the lock stands. */
  datatype Stage =
    | Holding
    | Refreshing(link: Link, tokens: Tokens, now: int)
    | Saving(link: Link, grant: Tokens, planEnabled: bool)
    | Updating(link: Link, grant: Tokens, planEnabled: bool)
    | Marking(link: Link)
    | Clearing

  datatype Task =
    | Targeting(linkId: LinkId)
    | Waiting(linkId: LinkId, lock: LockId)
    | Working(linkId: LinkId, lock: LockId, stage: Stage)
    | Done(result: Credential)

  datatype Event =
    | Attempt(linkId: LinkId, presented: Option<Token>, expiresAt: int, now: int)
    | Granted(linkId: LinkId, used: Token, tokens: Tokens, planEnabled: bool)
    | Revoked(linkId: LinkId)
    | Failed(linkId: LinkId)
    | SaveFailed(linkId: LinkId)
    | MarkFailed(linkId: LinkId)
    | ClearFailed(linkId: LinkId)

  datatype State = State(
    links: map<LinkId, Link>,
    tokens: map<LinkId, Tokens>,
    lockTable: map<LinkId, LockId>,
    nextLock: LockId,
    held: map<LockId, TaskId>,
    tasks: map<TaskId, Task>,
    issued: map<Token, LinkId>,
    log: seq<Event>)

  datatype Response = Grant(tokens: Tokens, planEnabled: bool) | Revoke | Fail

  datatype Step =
    | Begin(task: TaskId, linkId: LinkId)
    | GetLock(task: TaskId)
    | Acquire(task: TaskId)
    | Reread(task: TaskId, now: int)
    | Respond(task: TaskId, response: Response)
    | SaveTokens(task: TaskId, ok: bool)
    | UpdateLink(task: TaskId, ok: bool)
    | MarkReauth(task: TaskId, ok: bool)
    | ClearTokens(task: TaskId, ok: bool)

  // ----- The steps -----

  predicate IsWorking(s: State, t: TaskId) {
    t in s.tasks && s.tasks[t].Working?
  }

  /** The provider's answer is possible: a grant needs a token, and a new token is one never issued before. */
  predicate Possible(s: State, presented: Option<Token>, response: Response) {
    match response
    case Grant(tokens, _) =>
      presented.Some? && tokens.refresh.Some? && (tokens.refresh == presented || tokens.refresh.value !in s.issued)
    case _ => true
  }

  predicate Enabled(s: State, step: Step) {
    match step
    case Begin(t, _) => t !in s.tasks
    case GetLock(t) => t in s.tasks && s.tasks[t].Targeting?
    case Acquire(t) => t in s.tasks && s.tasks[t].Waiting? && s.tasks[t].lock !in s.held
    case Reread(t, _) => IsWorking(s, t) && s.tasks[t].stage.Holding?
    case Respond(t, response) =>
      IsWorking(s, t) && s.tasks[t].stage.Refreshing? && Possible(s, s.tasks[t].stage.tokens.refresh, response)
    case SaveTokens(t, _) => IsWorking(s, t) && s.tasks[t].stage.Saving?
    case UpdateLink(t, _) => IsWorking(s, t) && s.tasks[t].stage.Updating?
    case MarkReauth(t, _) => IsWorking(s, t) && s.tasks[t].stage.Marking?
    case ClearTokens(t, _) => IsWorking(s, t) && s.tasks[t].stage.Clearing?
  }

  function Become(s: State, t: TaskId, task: Task): State {
    s.(tasks := s.tasks[t := task])
  }

  /** Advance a working task to its next stage. */
  function Advance(s: State, t: TaskId, stage: Stage): State
    requires IsWorking(s, t)
  {
    Become(s, t, s.tasks[t].(stage := stage))
  }

  /** Return from the call, which drops the lock guard. */
  function Finish(s: State, t: TaskId, result: Credential): State
    requires IsWorking(s, t)
  {
    s.(tasks := s.tasks[t := Done(result)], held := s.held - {s.tasks[t].lock})
  }

  function Note(s: State, e: Event): State {
    s.(log := s.log + [e])
  }

  /** `refresh_lock`: the lock of a link, made on first use and never replaced. */
  function LockFor(s: State, linkId: LinkId): (r: (State, LockId)) {
    if linkId in s.lockTable then (s, s.lockTable[linkId])
    else (s.(lockTable := s.lockTable[linkId := s.nextLock], nextLock := s.nextLock + 1), s.nextLock)
  }

  function RereadStep(s: State, t: TaskId, now: int): State
    requires IsWorking(s, t) && s.tasks[t].stage.Holding?
  {
    var id := s.tasks[t].linkId;
    if id !in s.links then Finish(s, t, NotLinked)
    else if s.links[id].status.ReauthRequired? then Finish(s, t, NeedsReauth)
    else if !s.links[id].planEnabled then Finish(s, t, NeedsReauth)
    else if id !in s.tokens then Finish(s, t, NeedsReauth)
    else
      var tokens := s.tokens[id];
      if !tokens.ExpiresWithin(now, REFRESH_MARGIN_SECS) then Finish(s, t, Credential(tokens.access))
      else Note(Advance(s, t, Refreshing(s.links[id], tokens, now)), Attempt(id, tokens.refresh, tokens.expiresAt, now))
  }

  /** Record the link a new token is issued for; a token granted again keeps its owner. */
  function Issue(issued: map<Token, LinkId>, token: Token, id: LinkId): map<Token, LinkId> {
    if token in issued then issued else issued[token := id]
  }

  function RespondStep(s: State, t: TaskId, response: Response): State
    requires IsWorking(s, t) && s.tasks[t].stage.Refreshing? && Possible(s, s.tasks[t].stage.tokens.refresh, response)
  {
    var id := s.tasks[t].linkId;
    var stage := s.tasks[t].stage;
    match response
    case Grant(tokens, planEnabled) =>
      Note(Advance(s, t, Saving(stage.link, tokens, planEnabled)).(issued := Issue(s.issued, tokens.refresh.value, id)),
           Granted(id, stage.tokens.refresh.value, tokens, planEnabled))
    case Revoke => Note(Advance(s, t, Marking(stage.link)), Revoked(id))
    case Fail =>
      Note(Finish(s, t, if stage.tokens.ExpiresWithin(stage.now, 0) then Unavailable else Credential(stage.tokens.access)),
           Failed(id))
  }

  function Apply(s: State, step: Step): State
    requires Enabled(s, step)
  {
    match step
    case Begin(t, id) => Become(s, t, if id in s.links then Targeting(id) else Done(NotLinked))
    case GetLock(t) =>
      var (s', lock) := LockFor(s, s.tasks[t].linkId);
      Become(s', t, Waiting(s.tasks[t].linkId, lock))
    case Acquire(t) =>
      Become(s, t, Working(s.tasks[t].linkId, s.tasks[t].lock, Holding)).(held := s.held[s.tasks[t].lock := t])
    case Reread(t, now) => RereadStep(s, t, now)
    case Respond(t, response) => RespondStep(s, t, response)
    case SaveTokens(t, ok) =>
      var id, stage := s.tasks[t].linkId, s.tasks[t].stage;
      if ok
      then Advance(s, t, Updating(stage.link, stage.grant, stage.planEnabled)).(tokens := s.tokens[id := stage.grant])
      else Note(Finish(s, t, StorageFailed), SaveFailed(id))
    case UpdateLink(t, ok) =>
      var id, stage := s.tasks[t].linkId, s.tasks[t].stage;
      if ok
      then Finish(s, t, if stage.planEnabled then Credential(stage.grant.access) else NeedsReauth)
             .(links := s.links[id := stage.link.(expiresAt := stage.grant.expiresAt, planEnabled := stage.planEnabled)])
      else Finish(s, t, StorageFailed)
    case MarkReauth(t, ok) =>
      var id, stage := s.tasks[t].linkId, s.tasks[t].stage;
      if ok
      then Advance(s, t, Clearing).(links := s.links[id := stage.link.(status := ReauthRequired)])
      else Note(Advance(s, t, Clearing), MarkFailed(id))
    case ClearTokens(t, ok) =>
      var id := s.tasks[t].linkId;
      if ok
      then Finish(s, t, NeedsReauth).(tokens := s.tokens - {id})
      else Note(Finish(s, t, NeedsReauth), ClearFailed(id))
  }

  // ----- Runs -----

  /** No call under way, no history, and every stored refresh token issued for its own link. */
  ghost predicate Init(s: State) {
    && s.lockTable == map[] && s.held == map[] && s.tasks == map[] && s.log == []
    && forall id :: id in s.tokens && s.tokens[id].refresh.Some? ==> Owns(s, id, s.tokens[id].refresh.value)
  }

  ghost predicate Owns(s: State, id: LinkId, token: Token) {
    token in s.issued && s.issued[token] == id
  }

  /** The state after the steps in order, when each is enabled in its turn. */
  function Exec(init: State, steps: seq<Step>): Option<State> {
    if steps == [] then Some(init)
    else
      var prev := Exec(init, steps[..|steps| - 1]);
      var step := steps[|steps| - 1];
      if prev.Some? && Enabled(prev.value, step) then Some(Apply(prev.value, step)) else None
  }

  // ----- Locking -----

  ghost predicate LockedAt(s: State, t: TaskId)
    requires t in s.tasks
  {
    match s.tasks[t]
    case Waiting(id, lock) => id in s.lockTable && s.lockTable[id] == lock
    case Working(id, lock, _) => id in s.lockTable && s.lockTable[id] == lock && lock in s.held && s.held[lock] == t
    case _ => true
  }

  /** A link's lock is the one in the table, and whoever works on a link holds it. */
  ghost predicate LocksKept(s: State) {
    && (forall t :: t in s.tasks ==> LockedAt(s, t))
    && (forall id :: id in s.lockTable ==> s.lockTable[id] < s.nextLock)
    && (forall id, id' :: id in s.lockTable && id' in s.lockTable && s.lockTable[id] == s.lockTable[id'] ==> id == id')
  }

  /** `t` moves on while keeping its lock. */
  ghost predicate Advances(s: State, s': State, t: TaskId, stage: Stage) {
    && IsWorking(s, t)
    && s'.tasks == s.tasks[t := s.tasks[t].(stage := stage)]
    && s'.lockTable == s.lockTable && s'.nextLock == s.nextLock && s'.held == s.held
  }

  /** `t` returns and lets its lock go. */
  ghost predicate Finishes(s: State, s': State, t: TaskId, result: Credential) {
    && IsWorking(s, t)
    && s'.tasks == s.tasks[t := Done(result)]
    && s'.lockTable == s.lockTable && s'.nextLock == s.nextLock && s'.held == s.held - {s.tasks[t].lock}
  }

  lemma LocksAdvance(s: State, s': State, t: TaskId, stage: Stage)
    requires LocksKept(s) && Advances(s, s', t, stage)
    ensures LocksKept(s')
  {
    forall u | u in s'.tasks
      ensures LockedAt(s', u)
    {
      assert LockedAt(s, u);
    }
  }

  lemma LocksFinish(s: State, s': State, t: TaskId, result: Credential)
    requires LocksKept(s) && Finishes(s, s', t, result)
    ensures LocksKept(s')
  {
    forall u | u in s'.tasks
      ensures LockedAt(s', u)
    {
      assert LockedAt(s, u) && LockedAt(s, t);
    }
  }

  lemma LocksBegin(s: State, t: TaskId, task: Task)
    requires LocksKept(s) && (task.Targeting? || task.Done?)
    ensures LocksKept(Become(s, t, task))
  {
    forall u | u in Become(s, t, task).tasks
      ensures LockedAt(Become(s, t, task), u)
    {
      assert u in s.tasks ==> LockedAt(s, u);
    }
  }

  lemma GetLockIs(s: State, t: TaskId)
    requires Enabled(s, GetLock(t))
    ensures
      var s', id := Apply(s, GetLock(t)), s.tasks[t].linkId;
      && s'.held == s.held && s'.tasks == s.tasks[t := s'.tasks[t]]
      && id in s'.lockTable && s'.tasks[t] == Waiting(id, s'.lockTable[id])
      && (if id in s.lockTable then s'.lockTable == s.lockTable && s'.nextLock == s.nextLock
          else s'.lockTable == s.lockTable[id := s.nextLock] && s'.nextLock == s.nextLock + 1)
  {
    hide RereadStep, RespondStep;
  }

  lemma LocksGetLock(s: State, t: TaskId)
    requires LocksKept(s) && Enabled(s, GetLock(t))
    ensures LocksKept(Apply(s, GetLock(t)))
  {
    var s', id := Apply(s, GetLock(t)), s.tasks[t].linkId;
    GetLockIs(s, t);
    hide Apply, Enabled;
    forall u | u in s'.tasks
      ensures LockedAt(s', u)
    {
      assert LockedAt(s, u);
    }
  }

  lemma LocksAcquire(s: State, t: TaskId)
    requires LocksKept(s) && Enabled(s, Acquire(t))
    ensures LocksKept(Apply(s, Acquire(t)))
  {
    var s' := Apply(s, Acquire(t));
    forall u | u in s'.tasks
      ensures LockedAt(s', u)
    {
      assert LockedAt(s, u);
    }
  }

  /** Past the lock a step either advances its caller or finishes it. */
  ghost predicate MovesOn(s: State, s': State, t: TaskId) {
    || (exists stage :: Advances(s, s', t, stage))
    || (exists result :: Finishes(s, s', t, result))
  }

  lemma AdvanceMoves(s: State, s': State, t: TaskId, stage: Stage)
    requires IsWorking(s, t) && s' == Advance(s, t, stage).(links := s'.links, tokens := s'.tokens, issued := s'.issued, log := s'.log)
    ensures MovesOn(s, s', t)
  {
    assert Advances(s, s', t, stage);
  }

  lemma FinishMoves(s: State, s': State, t: TaskId, result: Credential)
    requires IsWorking(s, t) && s' == Finish(s, t, result).(links := s'.links, tokens := s'.tokens, log := s'.log)
    ensures MovesOn(s, s', t)
  {
    assert Finishes(s, s', t, result);
  }

  lemma RereadMoves(s: State, t: TaskId, now: int)
    requires Enabled(s, Reread(t, now))
    ensures MovesOn(s, Apply(s, Reread(t, now)), t)
  {
    hide MovesOn, RespondStep;
    var s', id := Apply(s, Reread(t, now)), s.tasks[t].linkId;
    if s'.tasks[t].Done? {
      FinishMoves(s, s', t, s'.tasks[t].result);
    } else {
      AdvanceMoves(s, s', t, Refreshing(s.links[id], s.tokens[id], now));
    }
  }

  lemma RespondMoves(s: State, t: TaskId, response: Response)
    requires Enabled(s, Respond(t, response))
    ensures MovesOn(s, Apply(s, Respond(t, response)), t)
  {
    hide MovesOn;
    var s', stage := Apply(s, Respond(t, response)), s.tasks[t].stage;
    match response
    case Grant(tokens, planEnabled) => AdvanceMoves(s, s', t, Saving(stage.link, tokens, planEnabled));
    case Revoke => AdvanceMoves(s, s', t, Marking(stage.link));
    case Fail => FinishMoves(s, s', t, s'.tasks[t].result);
  }

  lemma WorkingStepMoves(s: State, step: Step)
    requires Enabled(s, step) && !step.Begin? && !step.GetLock? && !step.Acquire?
    ensures MovesOn(s, Apply(s, step), step.task)
  {
    hide MovesOn;
    var s', t := Apply(s, step), step.task;
    var stage := s.tasks[t].stage;
    match step
    case Reread(_, now) => RereadMoves(s, t, now);
    case Respond(_, response) => RespondMoves(s, t, response);
    case SaveTokens(_, ok) =>
      if ok {
        AdvanceMoves(s, s', t, Updating(stage.link, stage.grant, stage.planEnabled));
      } else {
        FinishMoves(s, s', t, StorageFailed);
      }
    case UpdateLink(_, ok) => FinishMoves(s, s', t, s'.tasks[t].result);
    case MarkReauth(_, ok) => AdvanceMoves(s, s', t, Clearing);
    case ClearTokens(_, ok) => FinishMoves(s, s', t, NeedsReauth);
  }

  lemma LocksKeptByStep(s: State, step: Step)
    requires LocksKept(s) && Enabled(s, step)
    ensures LocksKept(Apply(s, step))
  {
    hide LocksKept;
    match step
    case Begin(t, id) => LocksBegin(s, t, if id in s.links then Targeting(id) else Done(NotLinked));
    case GetLock(t) => LocksGetLock(s, t);
    case Acquire(t) => LocksAcquire(s, t);
    case _ =>
      var s', t := Apply(s, step), step.task;
      WorkingStepMoves(s, step);
      if stage :| Advances(s, s', t, stage) {
        LocksAdvance(s, s', t, stage);
      } else {
        var result :| Finishes(s, s', t, result);
        LocksFinish(s, s', t, result);
      }
  }

  ghost predicate WorksOn(s: State, t: TaskId, id: LinkId) {
    t in s.tasks && s.tasks[t].Working? && s.tasks[t].linkId == id
  }

  /** At most one caller at a time is past the lock of a link. */
  lemma OneWorker(s: State, t: TaskId, u: TaskId, id: LinkId)
    requires LocksKept(s) && WorksOn(s, t, id) && WorksOn(s, u, id)
    ensures t == u
  {
    assert LockedAt(s, t) && LockedAt(s, u);
  }

  // ----- One link at a time -----

  /** The stage of the caller that works on a link, if any. */
  ghost function StageOn(s: State, id: LinkId): Option<Stage> {
    if exists t :: WorksOn(s, t, id) then
      var t :| WorksOn(s, t, id);
      Some(s.tasks[t].stage)
    else None
  }

  lemma StageOfWorker(s: State, t: TaskId)
    requires LocksKept(s) && IsWorking(s, t)
    ensures StageOn(s, s.tasks[t].linkId) == Some(s.tasks[t].stage)
  {
    var id := s.tasks[t].linkId;
    assert WorksOn(s, t, id);
    forall u | WorksOn(s, u, id)
      ensures u == t
    {
      OneWorker(s, t, u, id);
    }
  }

  /** What concerns one link: its vault entries, who works on it, the tokens issued and the history. */
  datatype View = View(link: Option<Link>, tokens: Option<Tokens>, stage: Option<Stage>,
                       issued: map<Token, LinkId>, log: seq<Event>)

  function Lookup<K, V>(m: map<K, V>, k: K): Option<V> {
    if k in m then Some(m[k]) else None
  }

  ghost function ViewOf(s: State, id: LinkId): View {
    View(Lookup(s.links, id), Lookup(s.tokens, id), StageOn(s, id), s.issued, s.log)
  }

  /** How a step can change the view of a link. */
  datatype Move =
    | Enter
    | Leave
    | Start(now: int)
    | TakeGrant(grant: Tokens, planEnabled: bool)
    | TakeRevoke
    | TakeFailure
    | Save(saved: bool)
    | Update(updated: bool)
    | Mark(marked: bool)
    | Clear(cleared: bool)
    | Elsewhere(events: seq<Event>, issued: map<Token, LinkId>)

  ghost predicate CanMove(id: LinkId, v: View, move: Move) {
    match move
    case Enter => v.stage.None?
    case Leave => v.stage == Some(Holding)
    case Start(now) =>
      && v.stage == Some(Holding) && v.link.Some? && v.tokens.Some?
      && v.link.value.status == Active && v.link.value.planEnabled
      && v.tokens.value.ExpiresWithin(now, REFRESH_MARGIN_SECS)
    case TakeGrant(grant, _) =>
      && v.stage.Some? && v.stage.value.Refreshing? && v.stage.value.tokens.refresh.Some? && grant.refresh.Some?
      && (grant.refresh == v.stage.value.tokens.refresh || grant.refresh.value !in v.issued)
    case TakeRevoke => v.stage.Some? && v.stage.value.Refreshing?
    case TakeFailure => v.stage.Some? && v.stage.value.Refreshing?
    case Save(_) => v.stage.Some? && v.stage.value.Saving?
    case Update(_) => v.stage.Some? && v.stage.value.Updating?
    case Mark(_) => v.stage.Some? && v.stage.value.Marking?
    case Clear(_) => v.stage == Some(Clearing)
    case Elsewhere(events, issued) =>
      && |events| <= 1 && (forall e :: e in events ==> e.linkId != id)
      && (forall token :: token in v.issued && v.issued[token] == id ==> token in issued && issued[token] == id)
  }

  ghost function Moved(id: LinkId, v: View, move: Move): View
    requires CanMove(id, v, move)
  {
    match move
    case Enter => v.(stage := Some(Holding))
    case Leave => v.(stage := None)
    case Start(now) =>
      var tokens := v.tokens.value;
      v.(stage := Some(Refreshing(v.link.value, tokens, now)),
         log := v.log + [Attempt(id, tokens.refresh, tokens.expiresAt, now)])
    case TakeGrant(grant, planEnabled) =>
      var stage := v.stage.value;
      v.(stage := Some(Saving(stage.link, grant, planEnabled)),
         issued := Issue(v.issued, grant.refresh.value, id),
         log := v.log + [Granted(id, stage.tokens.refresh.value, grant, planEnabled)])
    case TakeRevoke => v.(stage := Some(Marking(v.stage.value.link)), log := v.log + [Revoked(id)])
    case TakeFailure => v.(stage := None, log := v.log + [Failed(id)])
    case Save(saved) =>
      var stage := v.stage.value;
      if saved
      then v.(stage := Some(Updating(stage.link, stage.grant, stage.planEnabled)), tokens := Some(stage.grant))
      else v.(stage := None, log := v.log + [SaveFailed(id)])
    case Update(updated) =>
      var stage := v.stage.value;
      if updated
      then v.(stage := None,
              link := Some(stage.link.(expiresAt := stage.grant.expiresAt, planEnabled := stage.planEnabled)))
      else v.(stage := None)
    case Mark(marked) =>
      if marked
      then v.(stage := Some(Clearing), link := Some(v.stage.value.link.(status := ReauthRequired)))
      else v.(stage := Some(Clearing), log := v.log + [MarkFailed(id)])
    case Clear(cleared) =>
      if cleared then v.(stage := None, tokens := None) else v.(stage := None, log := v.log + [ClearFailed(id)])
    case Elsewhere(events, issued) => v.(issued := issued, log := v.log + events)
  }

  // ----- What the history says -----

  /**
   * What the events of a link add up to: the tokens the vault holds (or is about to hold) and held before the
   * last grant; whether the last grant replaced the refresh token; whether the save of the last replacing grant
   * failed; for a revocation after the last attempt, whether marking and clearing failed; what the last grant gave,
   * saved or not; and the expiry and the clock reading of the last attempt.
   */
  datatype Ledger = Ledger(stored: Option<Tokens>, previous: Option<Tokens>, rotated: bool, lost: bool,
                           writes: Option<(bool, bool)>, granted: Option<(Tokens, bool)>, tried: Option<(int, int)>)

  predicate Rotates(e: Event) {
    e.Granted? && e.tokens.refresh != Some(e.used)
  }

  ghost function Entered(ledger: Ledger, e: Event): Ledger {
    match e
    case Attempt(_, _, expiresAt, now) => ledger.(writes := None, tried := Some((expiresAt, now)))
    case Granted(_, _, tokens, planEnabled) =>
      ledger.(stored := Some(tokens), previous := ledger.stored, rotated := Rotates(e), lost := !Rotates(e) && ledger.lost,
              granted := Some((tokens, planEnabled)))
    case Revoked(_) => ledger.(writes := Some((false, false)))
    case Failed(_) => ledger
    case SaveFailed(_) => ledger.(stored := ledger.previous, lost := ledger.lost || ledger.rotated)
    case MarkFailed(_) => if ledger.writes.Some? then ledger.(writes := Some((true, ledger.writes.value.1))) else ledger
    case ClearFailed(_) => if ledger.writes.Some? then ledger.(writes := Some((ledger.writes.value.0, true))) else ledger
  }

  ghost function Books(initial: Option<Tokens>, log: seq<Event>, id: LinkId): Ledger {
    if log == [] then Ledger(initial, None, false, false, None, None, None)
    else
      var init, e := log[..|log| - 1], log[|log| - 1];
      if e.linkId == id then Entered(Books(initial, init, id), e) else Books(initial, init, id)
  }

  /** Refresh tokens that a successful refresh of the link replaced by another. */
  ghost function Retired(log: seq<Event>, id: LinkId): set<Token> {
    if log == [] then {}
    else
      var e := log[|log| - 1];
      Retired(log[..|log| - 1], id) + if Rotates(e) && e.linkId == id then {e.used} else {}
  }

  lemma HistoryGrows(initial: Option<Tokens>, log: seq<Event>, e: Event, id: LinkId)
    ensures Books(initial, log + [e], id) ==
      if e.linkId == id then Entered(Books(initial, log, id), e) else Books(initial, log, id)
    ensures Retired(log + [e], id) == Retired(log, id) + if Rotates(e) && e.linkId == id then {e.used} else {}
    ensures forall x :: x in log + [e] <==> x in log || x == e
  {
    hide Entered;
    assert (log + [e])[..|log|] == log;
  }

  /** What must hold when `e` happens after `before`. */
  ghost predicate EventOk(initial: Option<Tokens>, id: LinkId, before: seq<Event>, e: Event) {
    var ledger := Books(initial, before, id);
    e.linkId == id ==>
      match e
      case Attempt(_, presented, expiresAt, now) =>
        && expiresAt <= now + REFRESH_MARGIN_SECS
        && ledger.stored.Some?
        && presented == ledger.stored.value.refresh
        && expiresAt == ledger.stored.value.expiresAt
        && (ledger.lost <==> presented.Some? && presented.value in Retired(before, id))
        && (ledger.writes == None || ledger.writes == Some((true, true)))
      case Revoked(_) => ledger.writes == None
      case _ => true
  }

  ghost predicate HistoryOk(initial: Option<Tokens>, id: LinkId, log: seq<Event>) {
    log == [] || (HistoryOk(initial, id, log[..|log| - 1]) && EventOk(initial, id, log[..|log| - 1], log[|log| - 1]))
  }

  lemma HistoryOkGrows(initial: Option<Tokens>, id: LinkId, log: seq<Event>, e: Event)
    requires HistoryOk(initial, id, log) && EventOk(initial, id, log, e)
    ensures HistoryOk(initial, id, log + [e])
  {
    hide EventOk;
    assert (log + [e])[..|log|] == log;
  }

  // ----- The invariant of one link -----

  ghost predicate Mine(v: View, id: LinkId, token: Option<Token>) {
    token.Some? ==> token.value in v.issued && v.issued[token.value] == id
  }

  /** Every refresh token of the link was issued for it. */
  ghost predicate Owned(id: LinkId, v: View) {
    && (v.tokens.Some? ==> Mine(v, id, v.tokens.value.refresh))
    && (v.stage.Some? && v.stage.value.Refreshing? ==> Mine(v, id, v.stage.value.tokens.refresh))
    && (v.stage.Some? && v.stage.value.Saving? ==> Mine(v, id, v.stage.value.grant.refresh))
    && (forall token :: token in Retired(v.log, id) ==> Mine(v, id, Some(token)))
    && (forall e :: e in v.log && e.Attempt? && e.linkId == id ==> Mine(v, id, e.presented))
  }

  /** A caller that finds the stored token expiring will refresh it. */
  ghost predicate Ready(v: View) {
    v.tokens.Some? && v.link.Some? && v.link.value.status == Active && v.link.value.planEnabled
  }

  /** No caller gets to refresh. */
  ghost predicate Blocked(v: View) {
    v.tokens.None? || (v.link.Some? && v.link.value.status == ReauthRequired)
  }

  /** Vault and caller hold what the history says, at every stage of the caller. */
  ghost predicate Current(ledger: Ledger, retired: set<Token>, v: View) {
    match v.stage
    case Some(Refreshing(link, tokens, now)) =>
      && ledger.stored == Some(tokens) && v.tokens == Some(tokens) && Ready(v) && ledger.writes == None
      && v.link == Some(link) && ledger.tried == Some((tokens.expiresAt, now))
    case Some(Saving(link, grant, plan)) =>
      && v.link == Some(link) && ledger.granted == Some((grant, plan))
      && ledger.stored == Some(grant) && ledger.previous == v.tokens && v.tokens.Some? && ledger.writes == None
      && (if ledger.rotated then v.tokens.value.refresh.Some? && v.tokens.value.refresh.value in retired
          else v.tokens.value.refresh == grant.refresh)
    case Some(Updating(link, grant, plan)) =>
      && v.tokens == Some(grant) && ledger.stored == Some(grant) && ledger.writes == None
      && v.link == Some(link) && ledger.granted == Some((grant, plan))
    case Some(Marking(link)) =>
      v.link == Some(link) && v.tokens == ledger.stored && Ready(v) && ledger.writes == Some((false, false))
    case Some(Clearing) =>
      && v.tokens == ledger.stored && v.tokens.Some? && v.link.Some?
      && ledger.writes.Some? && !ledger.writes.value.1
      && (if ledger.writes.value.0 then Ready(v) else v.link.value.status == ReauthRequired)
    case _ =>
      && (v.tokens.Some? ==> v.tokens == ledger.stored)
      && (ledger.writes.Some? ==> if ledger.writes.value == (true, true) then Ready(v) else Blocked(v))
  }

  /** The stored refresh token is one already replaced exactly when the save of the last replacing grant failed. */
  ghost predicate Tallied(ledger: Ledger, retired: set<Token>) {
    ledger.lost <==>
      ledger.stored.Some? && ledger.stored.value.refresh.Some? && ledger.stored.value.refresh.value in retired
  }

  ghost predicate Consistent(initial: Option<Tokens>, id: LinkId, v: View) {
    && HistoryOk(initial, id, v.log)
    && Owned(id, v)
    && Current(Books(initial, v.log, id), Retired(v.log, id), v)
    && Tallied(Books(initial, v.log, id), Retired(v.log, id))
  }

  /** The history grows by one event or stays. */
  lemma MovedLog(initial: Option<Tokens>, id: LinkId, v: View, move: Move)
    requires CanMove(id, v, move)
    ensures
      var log, log' := v.log, Moved(id, v, move).log;
      log' == log || (|log'| == |log| + 1 && log' == log + [log'[|log|]])
  {
  }

  lemma OwnedByMove(initial: Option<Tokens>, id: LinkId, v: View, move: Move)
    requires Owned(id, v) && CanMove(id, v, move)
    ensures Owned(id, Moved(id, v, move))
  {
    hide Retired, Books;
    var v' := Moved(id, v, move);
    MovedLog(initial, id, v, move);
    if v'.log != v.log {
      HistoryGrows(initial, v.log, v'.log[|v.log|], id);
    }
  }

  lemma CurrentByMove(initial: Option<Tokens>, id: LinkId, v: View, move: Move)
    requires Owned(id, v) && CanMove(id, v, move)
    requires Current(Books(initial, v.log, id), Retired(v.log, id), v)
    ensures
      var v' := Moved(id, v, move);
      Current(Books(initial, v'.log, id), Retired(v'.log, id), v')
  {
    hide Retired, Books;
    var v' := Moved(id, v, move);
    MovedLog(initial, id, v, move);
    if v'.log != v.log {
      HistoryGrows(initial, v.log, v'.log[|v.log|], id);
    }
  }

  lemma TalliedByMove(initial: Option<Tokens>, id: LinkId, v: View, move: Move)
    requires Owned(id, v) && CanMove(id, v, move)
    requires Current(Books(initial, v.log, id), Retired(v.log, id), v)
    requires Tallied(Books(initial, v.log, id), Retired(v.log, id))
    ensures
      var v' := Moved(id, v, move);
      Tallied(Books(initial, v'.log, id), Retired(v'.log, id))
  {
    hide Retired, Books;
    var v' := Moved(id, v, move);
    MovedLog(initial, id, v, move);
    if v'.log != v.log {
      HistoryGrows(initial, v.log, v'.log[|v.log|], id);
    }
  }

  lemma HistoryOkByMove(initial: Option<Tokens>, id: LinkId, v: View, move: Move)
    requires Consistent(initial, id, v) && CanMove(id, v, move)
    ensures HistoryOk(initial, id, Moved(id, v, move).log)
  {
    hide HistoryOk, Retired, Books;
    var v' := Moved(id, v, move);
    MovedLog(initial, id, v, move);
    if v'.log != v.log {
      HistoryOkGrows(initial, id, v.log, v'.log[|v.log|]);
    }
  }

  lemma ConsistentByMove(initial: Option<Tokens>, id: LinkId, v: View, move: Move)
    requires Consistent(initial, id, v) && CanMove(id, v, move)
    ensures Consistent(initial, id, Moved(id, v, move))
  {
    HistoryOkByMove(initial, id, v, move);
    hide HistoryOk, Owned, Current, Tallied, Books, Retired, Moved;
    OwnedByMove(initial, id, v, move);
    CurrentByMove(initial, id, v, move);
    TalliedByMove(initial, id, v, move);
  }

  // ----- Every step is a move of one link and happens elsewhere for the others -----

  lemma NoWorkerNoStage(s: State, id: LinkId)
    requires forall t :: !WorksOn(s, t, id)
    ensures StageOn(s, id) == None
  {
  }

  /** A step of a caller that does not work on `id`, before or after, leaves the stage there alone. */
  lemma StageElsewhere(s: State, s': State, t: TaskId, id: LinkId)
    requires LocksKept(s) && LocksKept(s')
    requires forall u :: u != t ==> (u in s.tasks <==> u in s'.tasks)
    requires forall u :: u != t && u in s.tasks ==> s'.tasks[u] == s.tasks[u]
    requires !WorksOn(s, t, id) && !WorksOn(s', t, id)
    ensures StageOn(s', id) == StageOn(s, id)
  {
    if u :| WorksOn(s, u, id) {
      assert WorksOn(s', u, id);
      StageOfWorker(s, u);
      StageOfWorker(s', u);
    } else if u :| WorksOn(s', u, id) {
      assert WorksOn(s, u, id);
    } else {
      NoWorkerNoStage(s, id);
      NoWorkerNoStage(s', id);
    }
  }

  lemma StageAfterFinish(s: State, s': State, t: TaskId, result: Credential)
    requires LocksKept(s) && Finishes(s, s', t, result)
    ensures StageOn(s', s.tasks[t].linkId) == None
  {
    var id := s.tasks[t].linkId;
    forall u
      ensures !WorksOn(s', u, id)
    {
      if WorksOn(s', u, id) {
        assert WorksOn(s, u, id) && WorksOn(s, t, id);
        OneWorker(s, t, u, id);
        assert false;
      }
    }
  }

  lemma FreeLockNoWorker(s: State, t: TaskId)
    requires LocksKept(s) && Enabled(s, Acquire(t))
    ensures StageOn(s, s.tasks[t].linkId) == None
  {
    var id := s.tasks[t].linkId;
    assert LockedAt(s, t);
    forall u
      ensures !WorksOn(s, u, id)
    {
      if u in s.tasks {
        assert LockedAt(s, u);
      }
    }
  }

  /** The move a step makes on the link its caller targets. */
  ghost function MoveOf(s: State, step: Step): Move
    requires Enabled(s, step) && (IsWorking(s, step.task) || step.Acquire?)
  {
    match step
    case Acquire(_) => Enter
    case Reread(t, now) => if Apply(s, step).log == s.log then Leave else Start(now)
    case Respond(_, Grant(tokens, planEnabled)) => TakeGrant(tokens, planEnabled)
    case Respond(_, Revoke) => TakeRevoke
    case Respond(_, Fail) => TakeFailure
    case SaveTokens(_, ok) => Save(ok)
    case UpdateLink(_, ok) => Update(ok)
    case MarkReauth(_, ok) => Mark(ok)
    case ClearTokens(_, ok) => Clear(ok)
  }

  /** The stage on the caller's own link after the step. */
  lemma StageHere(s: State, step: Step)
    requires Enabled(s, step) && LocksKept(s) && LocksKept(Apply(s, step)) && IsWorking(s, step.task)
    ensures
      var s', t := Apply(s, step), step.task;
      && t in s'.tasks
      && StageOn(s, s.tasks[t].linkId) == Some(s.tasks[t].stage)
      && StageOn(s', s.tasks[t].linkId) == (if s'.tasks[t].Working? then Some(s'.tasks[t].stage) else None)
      && (s'.tasks[t].Working? ==> s'.tasks[t].linkId == s.tasks[t].linkId)
  {
    hide LocksKept;
    var s', t := Apply(s, step), step.task;
    StageOfWorker(s, t);
    WorkingStepMoves(s, step);
    if stage :| Advances(s, s', t, stage) {
      StageOfWorker(s', t);
    } else {
      var result :| Finishes(s, s', t, result);
      StageAfterFinish(s, s', t, result);
    }
  }

  /** The stages on the caller's own link before and after are those of the caller. */
  ghost predicate Tracked(s: State, s': State, t: TaskId) {
    && IsWorking(s, t) && t in s'.tasks
    && StageOn(s, s.tasks[t].linkId) == Some(s.tasks[t].stage)
    && StageOn(s', s.tasks[t].linkId) == (if s'.tasks[t].Working? then Some(s'.tasks[t].stage) else None)
  }

  /** `step` moves the view of its own link as `MoveOf` says. */
  ghost predicate Tracks(s: State, step: Step)
    requires Enabled(s, step) && (IsWorking(s, step.task) || step.Acquire?)
  {
    var id := s.tasks[step.task].linkId;
    && CanMove(id, ViewOf(s, id), MoveOf(s, step))
    && ViewOf(Apply(s, step), id) == Moved(id, ViewOf(s, id), MoveOf(s, step))
  }

  /** Either the caller is done and nothing else happened, or the attempt is on record. */
  lemma RereadEnds(s: State, t: TaskId, now: int)
    requires IsWorking(s, t) && s.tasks[t].stage.Holding?
    ensures
      var s', id := RereadStep(s, t, now), s.tasks[t].linkId;
      && t in s'.tasks
      && if s'.tasks[t].Done? then s'.log == s.log
         else
           && id in s.links && id in s.tokens && s.links[id].status == Active && s.links[id].planEnabled
           && s.tokens[id].ExpiresWithin(now, REFRESH_MARGIN_SECS)
           && s'.tasks[t].Working? && s'.tasks[t].stage == Refreshing(s.links[id], s.tokens[id], now)
           && s'.log == s.log + [Attempt(id, s.tokens[id].refresh, s.tokens[id].expiresAt, now)]
  {
  }

  lemma RereadTracks(s: State, t: TaskId, now: int)
    requires Enabled(s, Reread(t, now)) && Tracked(s, Apply(s, Reread(t, now)), t)
    ensures Tracks(s, Reread(t, now))
  {
    hide StageOn, RespondStep;
    var s', id := Apply(s, Reread(t, now)), s.tasks[t].linkId;
    RereadKeepsVault(s, t, now);
    RereadEnds(s, t, now);
    hide RereadStep;
  }

  lemma RespondTracks(s: State, t: TaskId, response: Response)
    requires Enabled(s, Respond(t, response)) && Tracked(s, Apply(s, Respond(t, response)), t)
    ensures Tracks(s, Respond(t, response))
  {
    hide StageOn;
  }

  lemma SaveTracks(s: State, t: TaskId, ok: bool)
    requires Enabled(s, SaveTokens(t, ok)) && Tracked(s, Apply(s, SaveTokens(t, ok)), t)
    ensures Tracks(s, SaveTokens(t, ok))
  {
    hide StageOn;
  }

  lemma UpdateTracks(s: State, t: TaskId, ok: bool)
    requires Enabled(s, UpdateLink(t, ok)) && Tracked(s, Apply(s, UpdateLink(t, ok)), t)
    ensures Tracks(s, UpdateLink(t, ok))
  {
    hide StageOn;
  }

  lemma MarkTracks(s: State, t: TaskId, ok: bool)
    requires Enabled(s, MarkReauth(t, ok)) && Tracked(s, Apply(s, MarkReauth(t, ok)), t)
    ensures Tracks(s, MarkReauth(t, ok))
  {
    hide StageOn;
  }

  lemma ClearTracks(s: State, t: TaskId, ok: bool)
    requires Enabled(s, ClearTokens(t, ok)) && Tracked(s, Apply(s, ClearTokens(t, ok)), t)
    ensures Tracks(s, ClearTokens(t, ok))
  {
    hide StageOn;
  }

  lemma AcquireTracks(s: State, t: TaskId)
    requires Enabled(s, Acquire(t)) && LocksKept(s) && LocksKept(Apply(s, Acquire(t)))
    ensures Tracks(s, Acquire(t))
  {
    hide StageOn, LocksKept;
    FreeLockNoWorker(s, t);
    StageOfWorker(Apply(s, Acquire(t)), t);
  }

  lemma OwnLinkMoves(s: State, step: Step)
    requires Enabled(s, step) && LocksKept(s) && LocksKept(Apply(s, step))
    requires IsWorking(s, step.task) || step.Acquire?
    ensures Tracks(s, step)
  {
    hide LocksKept, StageOn, Tracks;
    if step.Acquire? {
      AcquireTracks(s, step.task);
    } else {
      StageHere(s, step);
      hide Apply;
      match step
      case Reread(t, now) => RereadTracks(s, t, now);
      case Respond(t, response) => RespondTracks(s, t, response);
      case SaveTokens(t, ok) => SaveTracks(s, t, ok);
      case UpdateLink(t, ok) => UpdateTracks(s, t, ok);
      case MarkReauth(t, ok) => MarkTracks(s, t, ok);
      case ClearTokens(t, ok) => ClearTracks(s, t, ok);
    }
  }

  /** Reading and talking to the provider leave the vault alone. */
  lemma VaultKept(s: State, step: Step)
    requires Enabled(s, step) && (step.Reread? || step.Respond?)
    ensures Apply(s, step).links == s.links && Apply(s, step).tokens == s.tokens
  {
    hide RereadStep, RespondStep;
    match step
    case Reread(t, now) => RereadKeepsVault(s, t, now);
    case Respond(t, response) => RespondKeepsVault(s, t, response);
  }

  lemma RereadKeepsVault(s: State, t: TaskId, now: int)
    requires IsWorking(s, t) && s.tasks[t].stage.Holding?
    ensures RereadStep(s, t, now).links == s.links && RereadStep(s, t, now).tokens == s.tokens
    ensures RereadStep(s, t, now).issued == s.issued
  {
  }

  lemma RespondKeepsVault(s: State, t: TaskId, response: Response)
    requires IsWorking(s, t) && s.tasks[t].stage.Refreshing? && Possible(s, s.tasks[t].stage.tokens.refresh, response)
    ensures RespondStep(s, t, response).links == s.links && RespondStep(s, t, response).tokens == s.tokens
  {
  }

  /** A step touches the vault entries of its own link only. */
  lemma OtherLinkVault(s: State, step: Step, id: LinkId)
    requires Enabled(s, step) && (IsWorking(s, step.task) ==> s.tasks[step.task].linkId != id)
    ensures Lookup(Apply(s, step).links, id) == Lookup(s.links, id)
    ensures Lookup(Apply(s, step).tokens, id) == Lookup(s.tokens, id)
  {
    if step.Reread? || step.Respond? {
      VaultKept(s, step);
    } else {
      hide RereadStep, RespondStep;
    }
  }

  lemma OtherLinkIssued(s: State, step: Step, id: LinkId)
    requires Enabled(s, step) && (IsWorking(s, step.task) ==> s.tasks[step.task].linkId != id)
    ensures forall token :: token in s.issued && s.issued[token] == id ==>
      token in Apply(s, step).issued && Apply(s, step).issued[token] == id
  {
    hide RereadStep, RespondStep;
    match step
    case Reread(t, now) => RereadKeepsVault(s, t, now);
    case Respond(t, response) => RespondIssues(s, t, response, id);
    case _ =>
  }

  lemma RespondIssues(s: State, t: TaskId, response: Response, id: LinkId)
    requires IsWorking(s, t) && s.tasks[t].stage.Refreshing? && Possible(s, s.tasks[t].stage.tokens.refresh, response)
    requires s.tasks[t].linkId != id
    ensures forall token :: token in s.issued && s.issued[token] == id ==>
      token in RespondStep(s, t, response).issued && RespondStep(s, t, response).issued[token] == id
  {
  }

  /** The history gains at most one event, about the given link. */
  ghost predicate AddsEvent(log: seq<Event>, log': seq<Event>, id: LinkId) {
    || log' == log
    || (|log'| == |log| + 1 && log' == log + [log'[|log|]] && log'[|log|].linkId == id)
  }

  lemma NoteAddsEvent(log: seq<Event>, e: Event)
    ensures AddsEvent(log, log + [e], e.linkId)
  {
  }

  lemma RespondAddsEvent(s: State, t: TaskId, response: Response)
    requires Enabled(s, Respond(t, response))
    ensures AddsEvent(s.log, RespondStep(s, t, response).log, s.tasks[t].linkId)
  {
    hide AddsEvent;
    var id := s.tasks[t].linkId;
    match response
    case Grant(tokens, plan) => NoteAddsEvent(s.log, Granted(id, s.tasks[t].stage.tokens.refresh.value, tokens, plan));
    case Revoke => NoteAddsEvent(s.log, Revoked(id));
    case Fail => NoteAddsEvent(s.log, Failed(id));
  }

  lemma StepEvents(s: State, step: Step)
    requires Enabled(s, step)
    ensures
      if IsWorking(s, step.task) then AddsEvent(s.log, Apply(s, step).log, s.tasks[step.task].linkId)
      else Apply(s, step).log == s.log
  {
    hide RespondStep;
    var t := step.task;
    match step
    case Respond(_, response) => RespondAddsEvent(s, t, response);
    case _ =>
  }

  lemma OtherLinkEvents(s: State, step: Step, id: LinkId)
    requires Enabled(s, step) && (IsWorking(s, step.task) ==> s.tasks[step.task].linkId != id)
    ensures
      var s' := Apply(s, step);
      && |s.log| <= |s'.log| <= |s.log| + 1
      && s'.log == s.log + s'.log[|s.log|..]
      && (forall e :: e in s'.log[|s.log|..] ==> e.linkId != id)
  {
    StepEvents(s, step);
    hide Apply, Enabled;
    var s' := Apply(s, step);
    assert IsWorking(s, step.task) ==> AddsEvent(s.log, s'.log, s.tasks[step.task].linkId);
    if s'.log == s.log {
      assert s'.log[|s.log|..] == [];
    } else {
      assert s'.log[|s.log|..] == [s'.log[|s.log|]];
    }
  }

  /** Only the caller that takes the step changes, and it works on no link it did not target before. */
  ghost predicate OthersKept(s: State, s': State, t: TaskId, id: LinkId) {
    && (forall u :: u != t ==> (u in s.tasks <==> u in s'.tasks))
    && (forall u :: u != t && u in s.tasks ==> s'.tasks[u] == s.tasks[u])
    && !WorksOn(s', t, id)
  }

  lemma MovingKeepsOthers(s: State, s': State, t: TaskId, id: LinkId)
    requires MovesOn(s, s', t) && IsWorking(s, t) && s.tasks[t].linkId != id
    ensures OthersKept(s, s', t, id)
  {
    if stage :| Advances(s, s', t, stage) {
      assert OthersKept(s, s', t, id);
    } else {
      var result :| Finishes(s, s', t, result);
      assert OthersKept(s, s', t, id);
    }
  }

  lemma OtherTasksKept(s: State, step: Step, id: LinkId)
    requires Enabled(s, step)
    requires (IsWorking(s, step.task) || step.Acquire?) ==> s.tasks[step.task].linkId != id
    ensures OthersKept(s, Apply(s, step), step.task, id)
  {
    var s', t := Apply(s, step), step.task;
    if IsWorking(s, t) {
      hide Apply, Enabled, OthersKept;
      WorkingStepMoves(s, step);
      MovingKeepsOthers(s, s', t, id);
    } else {
      hide RereadStep, RespondStep;
    }
  }

  lemma OtherLinkMoves(s: State, step: Step, id: LinkId)
    requires Enabled(s, step) && LocksKept(s) && LocksKept(Apply(s, step))
    requires (IsWorking(s, step.task) || step.Acquire?) ==> s.tasks[step.task].linkId != id
    ensures
      var s' := Apply(s, step);
      var move := Elsewhere(if |s.log| <= |s'.log| then s'.log[|s.log|..] else [], s'.issued);
      && CanMove(id, ViewOf(s, id), move)
      && ViewOf(s', id) == Moved(id, ViewOf(s, id), move)
  {
    hide LocksKept, StageOn, Apply, Enabled;
    OtherLinkVault(s, step, id);
    OtherLinkIssued(s, step, id);
    OtherLinkEvents(s, step, id);
    OtherTasksKept(s, step, id);
    StageElsewhere(s, Apply(s, step), step.task, id);
  }

  // ----- Safety of every run -----

  ghost predicate Safe(init: State, s: State) {
    && LocksKept(s)
    && forall id :: Consistent(Lookup(init.tokens, id), id, ViewOf(s, id))
  }

  lemma SafeAtStart(init: State)
    requires Init(init)
    ensures Safe(init, init)
  {
    forall id
      ensures Consistent(Lookup(init.tokens, id), id, ViewOf(init, id))
    {
      NoWorkerNoStage(init, id);
    }
  }

  lemma SafeByStep(init: State, s: State, step: Step)
    requires Safe(init, s) && Enabled(s, step)
    ensures Safe(init, Apply(s, step))
  {
    hide LocksKept, Consistent, ViewOf, CanMove, Moved;
    var s' := Apply(s, step);
    LocksKeptByStep(s, step);
    forall id
      ensures Consistent(Lookup(init.tokens, id), id, ViewOf(s', id))
    {
      var initial := Lookup(init.tokens, id);
      if (IsWorking(s, step.task) || step.Acquire?) && s.tasks[step.task].linkId == id {
        OwnLinkMoves(s, step);
        ConsistentByMove(initial, id, ViewOf(s, id), MoveOf(s, step));
      } else {
        OtherLinkMoves(s, step, id);
        ConsistentByMove(initial, id, ViewOf(s, id),
          Elsewhere(if |s.log| <= |s'.log| then s'.log[|s.log|..] else [], s'.issued));
      }
    }
  }

  /** Every run of any number of callers, in any interleaving, stays safe. */
  lemma {:induction false} RunsAreSafe(init: State, steps: seq<Step>)
    requires Init(init) && Exec(init, steps).Some?
    ensures Safe(init, Exec(init, steps).value)
  {
    if steps == [] {
      SafeAtStart(init);
    } else {
      RunsAreSafe(init, steps[..|steps| - 1]);
      SafeByStep(init, Exec(init, steps[..|steps| - 1]).value, steps[|steps| - 1]);
    }
  }
}
