/** The replay checker of the audit log: recomputing every context hash over a sliding window. */
module Replay {
  import opened Sequences
  import opened Text

  /** What an effect payload parses as. */
  datatype Payload = Opaque | Inline | Summary(fullHash: string, fullLen: nat)

  datatype Entry<Tx, Hash, Decision> =
    Entry(seqNo: nat, tx: Tx, contextHash: Hash, decision: Decision, effects: seq<Payload>)

  datatype Lookup = Found(bytes: seq<bv8>) | Missing | Backend(message: string)

  datatype ReplayError<Hash> =
    | ContextDivergence(seqNo: nat, expected: Hash, actual: Hash)
    | SnapshotMissing(seqNo: nat, fullHash: string)
    | LengthMismatch(seqNo: nat, fullHash: string)
    | DigestMismatch(seqNo: nat, fullHash: string)
    | SnapshotBackend(seqNo: nat, message: string)

  datatype Report<Hash, Decision> = Report(replayedSeqs: seq<nat>, decisions: seq<Decision>, finalStateHash: Hash)

  datatype Outcome<Hash, Decision> =
    | Accepted(report: Report<Hash, Decision>)
    | Rejected(error: ReplayError<Hash>)

  /** The context hash of a transaction over the context hashes of the entries before it. */
  type Hasher<!Tx, !Hash> = (Tx, seq<Hash>) -> Hash

  datatype Consumer<!Tx, !Hash, Decision> = Consumer(
    log: seq<Entry<Tx, Hash, Decision>>,
    hash: Hasher<Tx, Hash>,
    zero: Hash,
    snapshot: string -> Lookup,
    digest: seq<bv8> -> string,
    fromSeq: nat,
    windowSize: nat)

  // ----- The store -----

  ghost predicate GapFree<Tx, Hash, Decision>(log: seq<Entry<Tx, Hash, Decision>>) {
    forall i :: 0 <= i < |log| ==> log[i].seqNo == i + 1
  }

  function Minus(a: nat, b: nat): nat {
    if a < b then 0 else a - b
  }

  function Least(a: nat, b: nat): nat {
    if a < b then a else b
  }

  /** `scan_record`: ascending from `from`, at most `limit` entries of a gap-free log. */
  function Scan<Tx, Hash, Decision>(log: seq<Entry<Tx, Hash, Decision>>, from: nat, limit: nat)
    : seq<Entry<Tx, Hash, Decision>>
  {
    var lo := Least(Minus(from, 1), |log|);
    log[lo..Least(lo + limit, |log|)]
  }

  function Hashes<Tx, Hash, Decision>(entries: seq<Entry<Tx, Hash, Decision>>): seq<Hash> {
    seq(|entries|, i requires 0 <= i < |entries| => entries[i].contextHash)
  }

  // ----- Validating entries -----

  /** The entries the hash of entry `seqNo` is recomputed over. */
  function PriorWindow<Tx, Hash, Decision>(log: seq<Entry<Tx, Hash, Decision>>, windowSize: nat, seqNo: nat)
    : seq<Entry<Tx, Hash, Decision>>
  {
    Filter((e: Entry<Tx, Hash, Decision>) => e.seqNo < seqNo, Scan(log, Minus(seqNo, windowSize), windowSize))
  }

  function ValidateEntry<Tx, Hash(==), Decision>(c: Consumer<Tx, Hash, Decision>, e: Entry<Tx, Hash, Decision>)
    : Option<ReplayError<Hash>>
  {
    var recomputed := c.hash(e.tx, Hashes(PriorWindow(c.log, c.windowSize, e.seqNo)));
    if recomputed != e.contextHash then Some(ContextDivergence(e.seqNo, e.contextHash, recomputed)) else None
  }

  function ResolveEffect<Tx, Hash, Decision>(c: Consumer<Tx, Hash, Decision>, seqNo: nat, payload: Payload)
    : Option<ReplayError<Hash>>
  {
    if !payload.Summary? then None
    else match c.snapshot(payload.fullHash)
      case Found(bytes) =>
        if |bytes| != payload.fullLen then Some(LengthMismatch(seqNo, payload.fullHash))
        else if c.digest(bytes) != payload.fullHash then Some(DigestMismatch(seqNo, payload.fullHash))
        else None
      case Missing => Some(SnapshotMissing(seqNo, payload.fullHash))
      case Backend(message) => Some(SnapshotBackend(seqNo, message))
  }

  function ResolveSnapshots<Tx, Hash, Decision>(c: Consumer<Tx, Hash, Decision>, seqNo: nat, effects: seq<Payload>)
    : Option<ReplayError<Hash>>
  {
    if effects == [] then None
    else if ResolveEffect(c, seqNo, effects[0]).Some? then ResolveEffect(c, seqNo, effects[0])
    else ResolveSnapshots(c, seqNo, effects[1..])
  }

  function Check<Tx, Hash(==), Decision>(c: Consumer<Tx, Hash, Decision>, e: Entry<Tx, Hash, Decision>)
    : Option<ReplayError<Hash>>
  {
    if ValidateEntry(c, e).Some? then ValidateEntry(c, e) else ResolveSnapshots(c, e.seqNo, e.effects)
  }

  function ReportOf<Tx, Hash, Decision>(zero: Hash, es: seq<Entry<Tx, Hash, Decision>>): Report<Hash, Decision> {
    Report(
      seq(|es|, i requires 0 <= i < |es| => es[i].seqNo),
      seq(|es|, i requires 0 <= i < |es| => es[i].decision),
      if es == [] then zero else es[|es| - 1].contextHash)
  }

  /** The first failing entry from position `i` on decides. */
  function FirstFailure<Tx, Hash(==), Decision>(c: Consumer<Tx, Hash, Decision>, es: seq<Entry<Tx, Hash, Decision>>, i: nat)
    : Option<ReplayError<Hash>>
    requires i <= |es|
    decreases |es| - i
  {
    if i == |es| then None
    else if Check(c, es[i]).Some? then Check(c, es[i])
    else FirstFailure(c, es, i + 1)
  }

  /** No failure means every entry passes. */
  lemma {:induction false} NoFailureIff<Tx, Hash, Decision>(
    c: Consumer<Tx, Hash, Decision>, es: seq<Entry<Tx, Hash, Decision>>, i: nat)
    requires i <= |es|
    ensures FirstFailure(c, es, i).None? <==> forall k :: i <= k < |es| ==> Check(c, es[k]).None?
    decreases |es| - i
  {
    hide Check;
    if i < |es| {
      NoFailureIff(c, es, i + 1);
    }
  }

  /** The failure reported is that of the least failing entry. */
  lemma {:induction false} LeastFailure<Tx, Hash, Decision>(
    c: Consumer<Tx, Hash, Decision>, es: seq<Entry<Tx, Hash, Decision>>, i: nat, k: nat)
    requires i <= k < |es| && Check(c, es[k]).Some?
    requires forall j :: i <= j < k ==> Check(c, es[j]).None?
    ensures FirstFailure(c, es, i) == Check(c, es[k])
    decreases |es| - i
  {
    hide Check;
    if i < k {
      LeastFailure(c, es, i + 1, k);
    }
  }

  function Swept<Tx, Hash, Decision>(c: Consumer<Tx, Hash, Decision>): seq<Entry<Tx, Hash, Decision>> {
    if c.fromSeq > |c.log| then []
    else
      var start := if c.fromSeq < 1 then 1 else c.fromSeq;
      Scan(c.log, start, Minus(|c.log|, start) + 1)
  }

  function Replayed<Tx, Hash(==), Decision>(c: Consumer<Tx, Hash, Decision>): Outcome<Hash, Decision> {
    match FirstFailure(c, Swept(c), 0)
    case Some(error) => Rejected(error)
    case None => Accepted(ReportOf(c.zero, Swept(c)))
  }

  method Run<Tx, Hash(==), Decision>(c: Consumer<Tx, Hash, Decision>) returns (r: Outcome<Hash, Decision>)
    ensures r == Replayed(c)
  {
    var head := |c.log|;
    if c.fromSeq > head {
      assert ReportOf(c.zero, Swept(c)) == Report([], [], c.zero);
      return Accepted(Report([], [], c.zero));
    }
    var start := if c.fromSeq < 1 then 1 else c.fromSeq;
    var entries := Scan(c.log, start, Minus(head, start) + 1);
    assert ReportOf(c.zero, entries[..0]) == Report([], [], c.zero);
    var replayedSeqs: seq<nat>, decisions: seq<Decision>, finalStateHash := [], [], c.zero;
    assert entries == Swept(c);
    hide Check, ReportOf, Scan, Swept;
    for i := 0 to |entries|
      invariant FirstFailure(c, entries, i) == FirstFailure(c, entries, 0)
      invariant ReportOf(c.zero, entries[..i]) == Report(replayedSeqs, decisions, finalStateHash)
    {
      var failure := Check(c, entries[i]);
      if failure.Some? {
        return Rejected(failure.value);
      }
      ReportSnoc(c.zero, entries, i);
      replayedSeqs := replayedSeqs + [entries[i].seqNo];
      decisions := decisions + [entries[i].decision];
      finalStateHash := entries[i].contextHash;
    }
    assert entries[..|entries|] == entries;
    return Accepted(Report(replayedSeqs, decisions, finalStateHash));
  }

  lemma ReportSnoc<Tx, Hash, Decision>(zero: Hash, es: seq<Entry<Tx, Hash, Decision>>, i: nat)
    requires i < |es|
    ensures
      var r, r' := ReportOf(zero, es[..i]), ReportOf(zero, es[..i + 1]);
      && r'.replayedSeqs == r.replayedSeqs + [es[i].seqNo]
      && r'.decisions == r.decisions + [es[i].decision]
      && r'.finalStateHash == es[i].contextHash
  {
    assert es[..i + 1] == es[..i] + [es[i]];
  }

  // ----- What the window is -----

  lemma TakeSnoc<T>(xs: seq<T>, m: nat)
    requires xs != []
    ensures
      var n := |xs| - 1;
      xs[..Least(m, |xs|)] == xs[..n][..Least(m, n)] + if n < m then [xs[n]] else []
  {
    var n := |xs| - 1;
    if n < m {
      assert xs[..n][..n] == xs[..n] && xs == xs[..n] + [xs[n]];
    } else {
      assert xs[..n][..m] == xs[..m];
    }
  }

  lemma {:induction false} FilterBelow<Tx, Hash, Decision>(es: seq<Entry<Tx, Hash, Decision>>, base: nat, seqNo: nat)
    requires forall i :: 0 <= i < |es| ==> es[i].seqNo == base + i
    ensures Filter((e: Entry<Tx, Hash, Decision>) => e.seqNo < seqNo, es) == es[..Least(Minus(seqNo, base), |es|)]
  {
    var below := (e: Entry<Tx, Hash, Decision>) => e.seqNo < seqNo;
    if es != [] {
      hide Filter;
      var n := |es| - 1;
      FilterBelow(es[..n], base, seqNo);
      assert es == es[..n] + [es[n]];
      FilterSnoc(below, es[..n], es[n]);
      TakeSnoc(es, Minus(seqNo, base));
    }
  }

  /** The scan behind a window starts at the right entry and reaches at least the one before `i`. */
  lemma WindowScan<Tx, Hash, Decision>(log: seq<Entry<Tx, Hash, Decision>>, windowSize: nat, i: nat)
    requires i < |log|
    ensures
      var lo := Minus(i, windowSize);
      var es := Scan(log, Minus(i + 1, windowSize), windowSize);
      && i - lo <= |es| && lo + |es| <= |log| && es == log[lo..lo + |es|]
  {
  }

  lemma SliceSeqNos<Tx, Hash, Decision>(
    log: seq<Entry<Tx, Hash, Decision>>, es: seq<Entry<Tx, Hash, Decision>>, lo: nat)
    requires GapFree(log) && lo + |es| <= |log| && es == log[lo..lo + |es|]
    ensures forall k :: 0 <= k < |es| ==> es[k].seqNo == lo + 1 + k
  {
  }

  lemma SlicePrefix<T>(xs: seq<T>, lo: nat, n: nat, i: nat)
    requires lo <= i <= lo + n <= |xs|
    ensures xs[lo..lo + n][..i - lo] == xs[lo..i]
  {
  }

  /** The last `min(windowSize, seqNo - 1)` entries before `seqNo`, wherever replay starts. */
  lemma WindowIsSuffix<Tx, Hash, Decision>(log: seq<Entry<Tx, Hash, Decision>>, windowSize: nat, i: nat)
    requires GapFree(log) && i < |log|
    ensures PriorWindow(log, windowSize, i + 1) == log[Minus(i, windowSize)..i]
  {
    hide Filter, Scan;
    var lo := Minus(i, windowSize);
    var es := Scan(log, Minus(i + 1, windowSize), windowSize);
    WindowScan(log, windowSize, i);
    SliceSeqNos(log, es, lo);
    hide GapFree;
    FilterBelow(es, lo + 1, i + 1);
    SlicePrefix(log, lo, |es|, i);
  }

  /**
   * A store that returns one entry even for limit 0 makes no difference: the extra entry is the one
   * being validated, or one after it, and is filtered out.
   */
  lemma ZeroLimitMakesNoDifference<Tx, Hash, Decision>(log: seq<Entry<Tx, Hash, Decision>>, i: nat)
    requires GapFree(log) && i < |log|
    ensures Filter((e: Entry<Tx, Hash, Decision>) => e.seqNo < i + 1, Scan(log, i + 1, 1)) == PriorWindow(log, 0, i + 1)
  {
    assert Scan(log, i + 1, 1) == [log[i]];
    FilterBelow([log[i]], i + 1, i + 1);
    WindowIsSuffix(log, 0, i);
  }

  // ----- Which logs are accepted -----

  function Window<Tx, Hash, Decision>(log: seq<Entry<Tx, Hash, Decision>>, windowSize: nat, i: nat): seq<Hash>
    requires i <= |log|
  {
    Hashes(log[Minus(i, windowSize)..i])
  }

  ghost predicate HashedAt<Tx, Hash, Decision>(c: Consumer<Tx, Hash, Decision>, i: nat)
    requires i < |c.log|
  {
    c.log[i].contextHash == c.hash(c.log[i].tx, Window(c.log, c.windowSize, i))
  }

  ghost predicate ResolvedAt<Tx, Hash, Decision>(c: Consumer<Tx, Hash, Decision>, i: nat)
    requires i < |c.log|
  {
    forall p :: p in c.log[i].effects ==> Resolves(c, p)
  }

  /** A summarised payload is in the snapshot store, with the recorded length and digest. */
  ghost predicate Resolves<Tx, Hash, Decision>(c: Consumer<Tx, Hash, Decision>, p: Payload) {
    p.Summary? ==>
      var found := c.snapshot(p.fullHash);
      found.Found? && |found.bytes| == p.fullLen && c.digest(found.bytes) == p.fullHash
  }

  lemma ResolveEffectIff<Tx, Hash, Decision>(c: Consumer<Tx, Hash, Decision>, seqNo: nat, p: Payload)
    ensures ResolveEffect(c, seqNo, p).None? <==> Resolves(c, p)
  {
  }

  lemma {:induction false} ResolvesIff<Tx, Hash, Decision>(c: Consumer<Tx, Hash, Decision>, seqNo: nat, effects: seq<Payload>)
    ensures ResolveSnapshots(c, seqNo, effects).None? <==> forall p :: p in effects ==> Resolves(c, p)
  {
    if effects != [] {
      ResolveEffectIff(c, seqNo, effects[0]);
      ResolvesIff(c, seqNo, effects[1..]);
      assert effects == [effects[0]] + effects[1..];
    }
  }

  lemma CheckIff<Tx, Hash, Decision>(c: Consumer<Tx, Hash, Decision>, i: nat)
    requires GapFree(c.log) && i < |c.log|
    ensures ValidateEntry(c, c.log[i]).None? <==> HashedAt(c, i)
    ensures Check(c, c.log[i]).None? <==> HashedAt(c, i) && ResolvedAt(c, i)
  {
    WindowIsSuffix(c.log, c.windowSize, i);
    ResolvesIff(c, c.log[i].seqNo, c.log[i].effects);
  }

  lemma SweptIsSuffix<Tx, Hash, Decision>(c: Consumer<Tx, Hash, Decision>)
    ensures Swept(c) == c.log[Least(Minus(c.fromSeq, 1), |c.log|)..]
  {
  }

  /**
   * Replay accepts exactly the logs in which every entry from the start on was hashed over its last
   * min(window, seq - 1) predecessors and every snapshot resolves; the report is then the suffix.
   */
  lemma AcceptedIff<Tx, Hash, Decision>(c: Consumer<Tx, Hash, Decision>)
    requires GapFree(c.log)
    ensures Replayed(c).Accepted? <==>
      forall i :: Minus(c.fromSeq, 1) <= i < |c.log| ==> HashedAt(c, i) && ResolvedAt(c, i)
    ensures Replayed(c).Accepted? ==>
      Replayed(c).report == ReportOf(c.zero, c.log[Least(Minus(c.fromSeq, 1), |c.log|)..])
  {
    hide Check, FirstFailure, HashedAt, ResolvedAt, ReportOf, Swept;
    SweptIsSuffix(c);
    var lo := Least(Minus(c.fromSeq, 1), |c.log|);
    var es := Swept(c);
    NoFailureIff(c, es, 0);
    forall i | lo <= i < |c.log|
      ensures c.log[i] == es[i - lo] && (Check(c, es[i - lo]).None? <==> HashedAt(c, i) && ResolvedAt(c, i))
    {
      CheckIff(c, i);
    }
    assert forall k :: 0 <= k < |es| ==> es[k] == c.log[k + lo];
  }

  // ----- What is reported -----

  /** An accepted replay reports every entry from the start on, in order: its seq, its decision and the last hash. */
  lemma AcceptedReport<Tx, Hash, Decision>(c: Consumer<Tx, Hash, Decision>)
    requires GapFree(c.log) && Replayed(c).Accepted?
    ensures
      var r, lo := Replayed(c).report, if c.fromSeq == 0 then 0 else c.fromSeq - 1;
      && |r.replayedSeqs| == |r.decisions| == (if lo < |c.log| then |c.log| - lo else 0)
      && (forall k :: 0 <= k < |r.replayedSeqs| ==> r.replayedSeqs[k] == lo + k + 1)
      && (forall k :: 0 <= k < |r.decisions| ==> r.decisions[k] == c.log[lo + k].decision)
      && r.finalStateHash == if lo < |c.log| then c.log[|c.log| - 1].contextHash else c.zero
  {
    hide Replayed, HashedAt, ResolvedAt;
    AcceptedIff(c);
  }

  /** The error that a payload which does not resolve is rejected with. */
  ghost predicate Explains<Tx, Hash, Decision>(
    c: Consumer<Tx, Hash, Decision>, seqNo: nat, p: Payload, error: ReplayError<Hash>) {
    && p.Summary?
    && match c.snapshot(p.fullHash)
       case Missing => error == SnapshotMissing(seqNo, p.fullHash)
       case Backend(message) => error == SnapshotBackend(seqNo, message)
       case Found(bytes) =>
         || (|bytes| != p.fullLen && error == LengthMismatch(seqNo, p.fullHash))
         || (|bytes| == p.fullLen && c.digest(bytes) != p.fullHash && error == DigestMismatch(seqNo, p.fullHash))
  }

  /** `j` is the first effect of entry `i` that does not resolve, and `error` says why. */
  ghost predicate FirstUnresolved<Tx, Hash, Decision>(
    c: Consumer<Tx, Hash, Decision>, seqNo: nat, effects: seq<Payload>, j: nat, error: ReplayError<Hash>) {
    && j < |effects|
    && (forall k :: 0 <= k < j ==> Resolves(c, effects[k]))
    && Explains(c, seqNo, effects[j], error)
  }

  lemma {:induction false} SnapshotFailure<Tx, Hash, Decision>(
    c: Consumer<Tx, Hash, Decision>, seqNo: nat, effects: seq<Payload>) returns (j: nat)
    requires ResolveSnapshots(c, seqNo, effects).Some?
    ensures FirstUnresolved(c, seqNo, effects, j, ResolveSnapshots(c, seqNo, effects).value)
  {
    ResolveEffectIff(c, seqNo, effects[0]);
    if ResolveEffect(c, seqNo, effects[0]).Some? {
      j := 0;
    } else {
      j := SnapshotFailure(c, seqNo, effects[1..]);
      j := j + 1;
    }
  }

  /**
   * A rejection is that of the least entry from the start on that fails: a divergence, with the recorded hash as the
   * expected one and the recomputed hash as the actual one, or else the reason of its first effect that does not resolve.
   */
  lemma RejectedBecause<Tx, Hash, Decision>(c: Consumer<Tx, Hash, Decision>) returns (i: nat, j: nat)
    requires GapFree(c.log) && Replayed(c).Rejected?
    ensures Minus(c.fromSeq, 1) <= i < |c.log|
    ensures forall k :: Minus(c.fromSeq, 1) <= k < i ==> HashedAt(c, k) && ResolvedAt(c, k)
    ensures
      var e, error := c.log[i], Replayed(c).error;
      var recomputed := c.hash(e.tx, Window(c.log, c.windowSize, i));
      if e.contextHash != recomputed then error == ContextDivergence(i + 1, e.contextHash, recomputed)
      else FirstUnresolved(c, i + 1, e.effects, j, error)
  {
    i := LeastFailing(c);
    var e := c.log[i];
    WindowIsSuffix(c.log, c.windowSize, i);
    j := 0;
    if ValidateEntry(c, e).None? {
      j := SnapshotFailure(c, e.seqNo, e.effects);
    }
  }

  lemma LeastFailing<Tx, Hash, Decision>(c: Consumer<Tx, Hash, Decision>) returns (i: nat)
    requires GapFree(c.log) && Replayed(c).Rejected?
    ensures Minus(c.fromSeq, 1) <= i < |c.log| && c.log[i].seqNo == i + 1
    ensures forall k :: Minus(c.fromSeq, 1) <= k < i ==> HashedAt(c, k) && ResolvedAt(c, k)
    ensures Check(c, c.log[i]) == Some(Replayed(c).error)
  {
    hide Check, HashedAt, ResolvedAt, ReportOf, Swept;
    SweptIsSuffix(c);
    var lo := Least(Minus(c.fromSeq, 1), |c.log|);
    var es := Swept(c);
    var k := FirstFailing(c, es, 0);
    i := lo + k;
    assert es[k] == c.log[i];
    forall m | lo <= m < i
      ensures HashedAt(c, m) && ResolvedAt(c, m)
    {
      assert es[m - lo] == c.log[m];
      CheckIff(c, m);
    }
  }

  lemma {:induction false} FirstFailing<Tx, Hash, Decision>(
    c: Consumer<Tx, Hash, Decision>, es: seq<Entry<Tx, Hash, Decision>>, i: nat) returns (k: nat)
    requires i <= |es| && FirstFailure(c, es, i).Some?
    ensures i <= k < |es| && Check(c, es[k]) == FirstFailure(c, es, i)
    ensures forall j :: i <= j < k ==> Check(c, es[j]).None?
    decreases |es| - i
  {
    hide Check;
    if Check(c, es[i]).Some? {
      k := i;
    } else {
      k := FirstFailing(c, es, i + 1);
    }
  }

  lemma SameChecks<Tx, Hash, Decision>(c: Consumer<Tx, Hash, Decision>, d: Consumer<Tx, Hash, Decision>, i: nat)
    requires i < |c.log| && d == c.(fromSeq := d.fromSeq)
    ensures HashedAt(d, i) == HashedAt(c, i) && ResolvedAt(d, i) == ResolvedAt(c, i)
  {
    forall p
      ensures Resolves(c, p) == Resolves(d, p)
    {
    }
  }

  lemma ReportSuffix<Tx, Hash, Decision>(zero: Hash, es: seq<Entry<Tx, Hash, Decision>>, lo: nat)
    requires lo <= |es|
    ensures
      var full, later := ReportOf(zero, es), ReportOf(zero, es[lo..]);
      && |full.replayedSeqs| == |full.decisions| == |es|
      && later.replayedSeqs == full.replayedSeqs[lo..]
      && later.decisions == full.decisions[lo..]
      && (lo < |es| || es == [] ==> later.finalStateHash == full.finalStateHash)
  {
  }

  /** Starting later only shortens the report: same decisions, same final hash. */
  lemma StartIndependent<Tx, Hash, Decision>(c: Consumer<Tx, Hash, Decision>, from: nat)
    requires GapFree(c.log) && c.fromSeq <= 1 && Replayed(c).Accepted?
    ensures
      var later := Replayed(c.(fromSeq := from));
      var full := Replayed(c).report;
      var lo := Least(Minus(from, 1), |c.log|);
      && later.Accepted?
      && |full.replayedSeqs| == |full.decisions| == |c.log|
      && later.report.replayedSeqs == full.replayedSeqs[lo..]
      && later.report.decisions == full.decisions[lo..]
      && (from <= |c.log| ==> later.report.finalStateHash == full.finalStateHash)
  {
    hide Replayed, HashedAt, ResolvedAt, ReportOf;
    var c' := c.(fromSeq := from);
    AcceptedIff(c);
    AcceptedIff(c');
    assert c.log[0..] == c.log;
    ReportSuffix(c.zero, c.log, Least(Minus(from, 1), |c.log|));
    forall i | 0 <= i < |c.log|
      ensures HashedAt(c', i) && ResolvedAt(c', i)
    {
      SameChecks(c, c', i);
    }
  }

  // ----- Logs written by the kernel -----

  /** What the kernel appends: the transaction hashed over `load_window(next_seq)`. */
  function Commit<Tx, Hash, Decision>(hash: Hasher<Tx, Hash>, windowSize: nat, log: seq<Entry<Tx, Hash, Decision>>,
                                      tx: Tx, decision: Decision, effects: seq<Payload>)
    : seq<Entry<Tx, Hash, Decision>>
  {
    var seqNo := |log| + 1;
    var window := Scan(log, Minus(seqNo, windowSize), windowSize);
    log + [Entry(seqNo, tx, hash(tx, Hashes(window)), decision, effects)]
  }

  ghost predicate WellHashed<Tx, Hash, Decision>(hash: Hasher<Tx, Hash>, windowSize: nat, log: seq<Entry<Tx, Hash, Decision>>) {
    && GapFree(log)
    && forall i :: 0 <= i < |log| ==> log[i].contextHash == hash(log[i].tx, Window(log, windowSize, i))
  }

  /** Every commit keeps the log acceptable, so every log written by commits alone is. */
  lemma CommitKeepsWellHashed<Tx, Hash, Decision>(hash: Hasher<Tx, Hash>, windowSize: nat, log: seq<Entry<Tx, Hash, Decision>>,
                                                  tx: Tx, decision: Decision, effects: seq<Payload>)
    requires WellHashed(hash, windowSize, log)
    ensures WellHashed(hash, windowSize, Commit(hash, windowSize, log, tx, decision, effects))
  {
    var log' := Commit(hash, windowSize, log, tx, decision, effects);
    var n := |log|;
    assert Scan(log, Minus(n + 1, windowSize), windowSize) == log[Minus(n, windowSize)..n];
    forall i | 0 <= i <= n
      ensures log'[Minus(i, windowSize)..i] == log[Minus(i, windowSize)..i]
    {
    }
    forall i | 0 <= i < n + 1
      ensures log'[i].seqNo == i + 1 && log'[i].contextHash == hash(log'[i].tx, Window(log', windowSize, i))
    {
      assert i < n ==> log'[i] == log[i];
    }
  }

  datatype Committed<Tx, Decision> = Committed(tx: Tx, decision: Decision, effects: seq<Payload>)

  function CommitAll<Tx, Hash, Decision>(hash: Hasher<Tx, Hash>, windowSize: nat, history: seq<Committed<Tx, Decision>>)
    : (log: seq<Entry<Tx, Hash, Decision>>)
  {
    if history == [] then []
    else
      var h := history[|history| - 1];
      Commit(hash, windowSize, CommitAll(hash, windowSize, history[..|history| - 1]), h.tx, h.decision, h.effects)
  }

  lemma {:induction false} CommitAllIsWellHashed<Tx, Hash, Decision>(hash: Hasher<Tx, Hash>, windowSize: nat,
                                                                     history: seq<Committed<Tx, Decision>>)
    ensures WellHashed(hash, windowSize, CommitAll(hash, windowSize, history))
  {
    if history != [] {
      var h := history[|history| - 1];
      var init := history[..|history| - 1];
      CommitAllIsWellHashed(hash, windowSize, init);
      CommitKeepsWellHashed(hash, windowSize, CommitAll(hash, windowSize, init), h.tx, h.decision, h.effects);
    }
  }

  /** Completeness: whatever was committed, replay with the same window accepts it from every start. */
  lemma CommittedLogsReplay<Tx, Hash, Decision>(c: Consumer<Tx, Hash, Decision>, history: seq<Committed<Tx, Decision>>)
    requires c.log == CommitAll(c.hash, c.windowSize, history)
    requires forall i :: 0 <= i < |c.log| ==> ResolvedAt(c, i)
    ensures Replayed(c).Accepted?
  {
    CommitAllIsWellHashed(c.hash, c.windowSize, history);
    AcceptedIff(c);
    forall i | 0 <= i < |c.log|
      ensures HashedAt(c, i)
    {
    }
  }

  // ----- The final hash fingerprints the history -----

  ghost predicate Injective<Tx(!new), Hash(!new)>(hash: Hasher<Tx, Hash>) {
    forall t, u, v, w :: hash(t, v) == hash(u, w) ==> t == u && v == w
  }

  lemma WindowEnds<Tx, Hash, Decision>(log: seq<Entry<Tx, Hash, Decision>>, windowSize: nat, i: nat)
    requires i < |log| && windowSize >= 1
    ensures
      var w := Window(log, windowSize, i);
      |w| == Least(windowSize, i) && (i > 0 ==> w != [] && w[|w| - 1] == log[i - 1].contextHash)
  {
  }

  /** The window holds the context hashes of the last `min(windowSize, i)` entries before `i`, in log order. */
  lemma WindowHolds<Tx, Hash, Decision>(log: seq<Entry<Tx, Hash, Decision>>, windowSize: nat, i: nat)
    requires i < |log|
    ensures
      var w, n := Window(log, windowSize, i), if i < windowSize then i else windowSize;
      |w| == n && forall k :: 0 <= k < n ==> w[k] == log[i - n + k].contextHash
  {
  }

  lemma SameHashSameEntry<Tx(!new), Hash(!new), Decision>(
    hash: Hasher<Tx, Hash>, windowSize: nat,
    a: seq<Entry<Tx, Hash, Decision>>, b: seq<Entry<Tx, Hash, Decision>>, i: nat, j: nat)
    requires Injective(hash) && WellHashed(hash, windowSize, a) && WellHashed(hash, windowSize, b)
    requires i < |a| && j < |b| && a[i].contextHash == b[j].contextHash
    ensures a[i].tx == b[j].tx && Window(a, windowSize, i) == Window(b, windowSize, j)
  {
    hide Window;
    assert hash(a[i].tx, Window(a, windowSize, i)) == hash(b[j].tx, Window(b, windowSize, j));
  }

  /** Equal last hashes at `i` and `j` force equal positions and equal transactions all the way back. */
  lemma {:induction false} LastHashDecides<Tx(!new), Hash(!new), Decision>(
    hash: Hasher<Tx, Hash>, windowSize: nat,
    a: seq<Entry<Tx, Hash, Decision>>, b: seq<Entry<Tx, Hash, Decision>>, i: nat, j: nat)
    requires Injective(hash) && windowSize >= 1
    requires WellHashed(hash, windowSize, a) && WellHashed(hash, windowSize, b)
    requires i < |a| && j < |b| && a[i].contextHash == b[j].contextHash
    ensures i == j
    ensures forall k :: 0 <= k <= i ==> a[k].tx == b[k].tx
    decreases i
  {
    SameHashSameEntry(hash, windowSize, a, b, i, j);
    hide WellHashed, Injective, Window;
    WindowEnds(a, windowSize, i);
    WindowEnds(b, windowSize, j);
    if i > 0 {
      LastHashDecides(hash, windowSize, a, b, i - 1, j - 1);
    }
  }

  lemma AcceptedHashes<Tx, Hash, Decision>(c: Consumer<Tx, Hash, Decision>)
    requires GapFree(c.log) && c.fromSeq <= 1 && Replayed(c).Accepted?
    ensures forall i :: 0 <= i < |c.log| ==> HashedAt(c, i)
    ensures Replayed(c).report == ReportOf(c.zero, c.log)
  {
    hide Replayed, HashedAt, ResolvedAt, ReportOf, GapFree;
    AcceptedIff(c);
    assert c.log[0..] == c.log;
  }

  lemma HashedIsWellHashed<Tx, Hash, Decision>(c: Consumer<Tx, Hash, Decision>)
    requires GapFree(c.log) && forall i :: 0 <= i < |c.log| ==> HashedAt(c, i)
    ensures WellHashed(c.hash, c.windowSize, c.log)
  {
    hide Window;
    forall i | 0 <= i < |c.log|
      ensures c.log[i].contextHash == c.hash(c.log[i].tx, Window(c.log, c.windowSize, i))
    {
      assert HashedAt(c, i);
    }
  }

  lemma FinalHashOf<Tx, Hash, Decision>(zero: Hash, es: seq<Entry<Tx, Hash, Decision>>)
    ensures ReportOf(zero, es).finalStateHash == if es == [] then zero else es[|es| - 1].contextHash
  {
  }

  lemma AcceptedIsWellHashed<Tx, Hash, Decision>(c: Consumer<Tx, Hash, Decision>)
    requires GapFree(c.log) && c.fromSeq <= 1 && Replayed(c).Accepted?
    ensures WellHashed(c.hash, c.windowSize, c.log)
    ensures c.log != [] ==> Replayed(c).report.finalStateHash == c.log[|c.log| - 1].contextHash
    ensures c.log == [] ==> Replayed(c).report.finalStateHash == c.zero
  {
    hide Replayed, HashedAt, ReportOf, WellHashed, GapFree;
    AcceptedHashes(c);
    HashedIsWellHashed(c);
    FinalHashOf(c.zero, c.log);
  }

  /**
   * Two logs both accepted from the start with the same final hash have the same length and the
   * same transaction at every seq, when the window is not empty and the hash is injective (and, if
   * one of the logs may be empty, never the all-zero hash that stands for an empty replay).
   */
  lemma FinalHashIsFingerprint<Tx(!new), Hash(!new), Decision>(c: Consumer<Tx, Hash, Decision>, d: Consumer<Tx, Hash, Decision>)
    requires c.hash == d.hash && c.windowSize == d.windowSize >= 1 && c.zero == d.zero
    requires Injective(c.hash) && ((c.log != [] && d.log != []) || forall t, w :: c.hash(t, w) != c.zero)
    requires GapFree(c.log) && GapFree(d.log) && c.fromSeq <= 1 && d.fromSeq <= 1
    requires Replayed(c).Accepted? && Replayed(d).Accepted?
    requires Replayed(c).report.finalStateHash == Replayed(d).report.finalStateHash
    ensures |c.log| == |d.log|
    ensures forall k :: 0 <= k < |c.log| ==> c.log[k].tx == d.log[k].tx && c.log[k].contextHash == d.log[k].contextHash
  {
    hide Replayed;
    AcceptedIsWellHashed(c);
    AcceptedIsWellHashed(d);
    hide WellHashed, Injective;
    if c.log != [] && d.log != [] {
      LastHashDecides(c.hash, c.windowSize, c.log, d.log, |c.log| - 1, |d.log| - 1);
      SameTransactionsSameHashes(c.hash, c.windowSize, c.log, d.log, |c.log|);
    }
  }

  lemma {:induction false} SameTransactionsSameHashes<Tx, Hash, Decision>(
    hash: Hasher<Tx, Hash>, windowSize: nat,
    a: seq<Entry<Tx, Hash, Decision>>, b: seq<Entry<Tx, Hash, Decision>>, n: nat)
    requires WellHashed(hash, windowSize, a) && WellHashed(hash, windowSize, b)
    requires n <= |a| && n <= |b| && forall k :: 0 <= k < n ==> a[k].tx == b[k].tx
    ensures forall k :: 0 <= k < n ==> a[k].contextHash == b[k].contextHash
  {
    if n > 0 {
      SameTransactionsSameHashes(hash, windowSize, a, b, n - 1);
      assert Window(a, windowSize, n - 1) == Window(b, windowSize, n - 1);
    }
  }

  /** With window size 0 the hash covers the last transaction only: the last entry alone replays alike. */
  lemma EmptyWindowForgetsHistory<Tx, Hash, Decision>(c: Consumer<Tx, Hash, Decision>)
    requires GapFree(c.log) && c.windowSize == 0 && c.fromSeq <= 1 && c.log != [] && Replayed(c).Accepted?
    ensures
      var d := c.(log := [c.log[|c.log| - 1].(seqNo := 1)]);
      Replayed(d).Accepted? && Replayed(d).report.finalStateHash == Replayed(c).report.finalStateHash
  {
    var last := c.log[|c.log| - 1];
    var d := c.(log := [last.(seqNo := 1)]);
    AcceptedIsWellHashed(c);
    AcceptedIff(c);
    assert Window(c.log, 0, |c.log| - 1) == [] == Window(d.log, 0, 0);
    assert ResolvedAt(c, |c.log| - 1);
    forall p | p in last.effects
      ensures Resolves(d, p)
    {
      assert Resolves(c, p);
    }
    assert HashedAt(d, 0) && ResolvedAt(d, 0);
    AcceptedIff(d);
    AcceptedIsWellHashed(d);
  }

  // ----- Tampering -----

  function Forge<Tx, Hash, Decision>(c: Consumer<Tx, Hash, Decision>, k: nat, tx: Tx): Consumer<Tx, Hash, Decision>
    requires k < |c.log|
  {
    c.(log := c.log[k := c.log[k].(tx := tx)])
  }

  /** Of the entries that passed before, exactly the changed one fails. */
  lemma ForgedEntry<Tx(!new), Hash(!new), Decision>(c: Consumer<Tx, Hash, Decision>, k: nat, tx: Tx, i: nat)
    requires Injective(c.hash) && GapFree(c.log) && k < |c.log| && i < |c.log| && tx != c.log[k].tx
    requires HashedAt(c, i) && ResolvedAt(c, i)
    ensures OnlyForgedFails(Check(Forge(c, k, tx), Forge(c, k, tx).log[i]), i, k)
  {
    var forged := Forge(c, k, tx);
    assert Window(forged.log, c.windowSize, i) == Window(c.log, c.windowSize, i);
    CheckIff(forged, i);
    if i != k {
      forall p | p in forged.log[i].effects
        ensures Resolves(forged, p)
      {
        assert Resolves(c, p);
      }
    }
  }

  /**
   * Changing the transaction at one seq of an accepted log is caught exactly when replay starts at
   * or before it, as a divergence at that very seq.
   */
  lemma ChangedTransactionIsCaught<Tx(!new), Hash(!new), Decision>(c: Consumer<Tx, Hash, Decision>, k: nat, tx: Tx)
    requires Injective(c.hash) && GapFree(c.log) && k < |c.log| && tx != c.log[k].tx
    requires forall i :: 0 <= i < |c.log| ==> HashedAt(c, i) && ResolvedAt(c, i)
    ensures
      var replayed := Replayed(Forge(c, k, tx));
      if c.fromSeq <= k + 1
      then replayed.Rejected? && replayed.error.ContextDivergence? && replayed.error.seqNo == k + 1
      else replayed.Accepted?
  {
    hide Check, HashedAt, ResolvedAt, Injective, ReportOf, FirstFailure, Swept;
    var forged := Forge(c, k, tx);
    var lo := Least(Minus(c.fromSeq, 1), |c.log|);
    var es := Swept(forged);
    SweptIsSuffix(forged);
    forall j | 0 <= j < |es|
      ensures OnlyForgedFails(Check(forged, es[j]), j + lo, k)
    {
      ForgedEntry(c, k, tx, j + lo);
    }
    if c.fromSeq <= k + 1 {
      assert OnlyForgedFails(Check(forged, es[k - lo]), k, k);
      LeastFailure(forged, es, 0, k - lo);
    } else {
      NoFailureIff(forged, es, 0);
    }
  }

  ghost predicate OnlyForgedFails<Hash>(failure: Option<ReplayError<Hash>>, i: nat, k: nat) {
    if i == k then failure.Some? && failure.value.ContextDivergence? && failure.value.seqNo == k + 1
    else failure.None?
  }

  function Redecide<Tx, Hash, Decision>(c: Consumer<Tx, Hash, Decision>, k: nat, decision: Decision)
    : Consumer<Tx, Hash, Decision>
    requires k < |c.log|
  {
    c.(log := c.log[k := c.log[k].(decision := decision)])
  }

  lemma RedecidedEntry<Tx, Hash, Decision>(c: Consumer<Tx, Hash, Decision>, k: nat, decision: Decision, i: nat)
    requires k < |c.log| && i < |c.log| && HashedAt(c, i) && ResolvedAt(c, i)
    ensures HashedAt(Redecide(c, k, decision), i) && ResolvedAt(Redecide(c, k, decision), i)
  {
    var altered := Redecide(c, k, decision);
    assert Window(altered.log, c.windowSize, i) == Window(c.log, c.windowSize, i);
    forall p | p in altered.log[i].effects
      ensures Resolves(altered, p)
    {
      assert Resolves(c, p);
    }
  }

  /** Decisions are outside the fingerprint: replacing one changes neither acceptance nor the final hash. */
  lemma DecisionsAreNotCovered<Tx, Hash, Decision>(c: Consumer<Tx, Hash, Decision>, k: nat, decision: Decision)
    requires GapFree(c.log) && k < |c.log| && Replayed(c).Accepted?
    ensures
      var altered := Replayed(Redecide(c, k, decision));
      altered.Accepted? && altered.report.finalStateHash == Replayed(c).report.finalStateHash
  {
    hide Replayed, HashedAt, ResolvedAt;
    var altered := Redecide(c, k, decision);
    AcceptedIff(c);
    forall i | Minus(c.fromSeq, 1) <= i < |c.log|
      ensures HashedAt(altered, i) && ResolvedAt(altered, i)
    {
      RedecidedEntry(c, k, decision, i);
    }
    AcceptedIff(altered);
  }

  // ----- Entries hashed over an empty window -----

  /** An entry hashed over no predecessors, as the spawn hook appends it, validates only at seq 1 or with window 0. */
  lemma SpawnEntryValidates<Tx(!new), Hash(!new), Decision>(c: Consumer<Tx, Hash, Decision>, i: nat)
    requires Injective(c.hash) && GapFree(c.log) && i < |c.log|
    requires c.log[i].contextHash == c.hash(c.log[i].tx, [])
    ensures ValidateEntry(c, c.log[i]).None? <==> i == 0 || c.windowSize == 0
  {
    CheckIff(c, i);
    assert |Window(c.log, c.windowSize, i)| == Least(c.windowSize, i);
  }
}
