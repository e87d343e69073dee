/** A stream wrapper that records the outcome of a streaming model call exactly once. */
module RecordingStream {
  import opened Text

  datatype StopReason = EndTurn | ToolUse | MaxTokens | StopSequence

  datatype ContentType = TextContent | ThinkingContent | ToolUseContent(id: string, name: string)

  datatype StreamEvent =
    | MessageStart(messageId: string, model: string, inputTokens: Option<nat>,
                   cacheCreation: Option<nat>, cacheRead: Option<nat>)
    | ContentBlockStart(index: nat, contentType: ContentType)
    | TextDelta(text: string)
    | ThinkingDelta(thinking: string)
    | SignatureDelta(signature: string)
    | InputJsonDelta(partialJson: string)
    | ContentBlockStop(index: nat)
    | MessageDelta(stopReason: Option<StopReason>, outputTokens: nat)
    | MessageStop
    | Ping
    | ErrorEvent(message: string, requestId: Option<string>)
    | HttpMeta(requestId: Option<string>)

  /** What polling the inner stream gives; a transport error is shown by its text. */
  datatype Polled = Pending | End | Event(event: StreamEvent) | Broken(error: string)

  datatype Usage = Usage(input: nat, output: nat, cacheCreation: Option<nat>, cacheRead: Option<nat>)

  /** One call of the handle's `record_completed` or `record_failed`. */
  datatype Attempt =
    | Completed(model: string, stopReason: StopReason, usage: Usage, toolUses: seq<string>,
                thinking: string, thinkingMs: Option<nat>)
    | Failed(reason: string)

  const DROPPED: string := "stream dropped before completion"

  /** The accumulator, as far as the record needs it. */
  datatype Accumulator = Accumulator(
    model: string, thinking: string, toolUses: seq<string>, currentTool: Option<string>,
    stopReason: Option<StopReason>, usage: Usage)

  const FRESH: Accumulator := Accumulator("", "", [], None, None, Usage(0, 0, None, None))

  function Process(acc: Accumulator, event: StreamEvent): Accumulator {
    match event
    case MessageStart(_, model, input, creation, read) =>
      acc.(model := model,
           usage := Usage(if input.Some? then input.value else acc.usage.input, acc.usage.output, creation, read))
    case ContentBlockStart(_, ToolUseContent(_, name)) => acc.(currentTool := Some(name))
    case ThinkingDelta(thinking) => acc.(thinking := acc.thinking + thinking)
    case ContentBlockStop(_) =>
      if acc.currentTool.Some? then acc.(toolUses := acc.toolUses + [acc.currentTool.value], currentTool := None) else acc
    case MessageDelta(stop, output) => acc.(stopReason := stop, usage := acc.usage.(output := output))
    case _ => acc
  }

  const U64_MAX: nat := 0xFFFF_FFFF_FFFF_FFFF

  /** Milliseconds between two instants, as a `u64`. */
  function Elapsed(first: int, last: int): nat {
    if last <= first then 0 else if last - first <= U64_MAX then last - first else U64_MAX
  }

  function CompletedRecord(acc: Accumulator, span: Option<(int, int)>): Attempt {
    Completed(
      if acc.model == "" then "unknown" else acc.model,
      if acc.stopReason.Some? then acc.stopReason.value else EndTurn,
      acc.usage, acc.toolUses, acc.thinking,
      match span case Some((first, last)) => Some(Elapsed(first, last)) case None => None)
  }

  // ----- The wrapper -----

  /** The record kept by the kernel: every attempt made through a handle. */
  class Kernel {
    var attempts: seq<Attempt>

    constructor ()
      ensures attempts == []
    {
      attempts := [];
    }
  }

  datatype State = State(open: bool, acc: Accumulator, span: Option<(int, int)>, attempts: seq<Attempt>)

  function Finalized(st: State, attempt: Attempt): State {
    if st.open then st.(open := false, attempts := st.attempts + [attempt]) else st
  }

  /** One poll at instant `now`. */
  function Step(st: State, polled: Polled, now: int): State {
    match polled
    case Pending => st
    case End => Finalized(st, CompletedRecord(st.acc, st.span))
    case Broken(error) => Finalized(st, Failed(error))
    case Event(event) =>
      var span := if event.ThinkingDelta? then Some((if st.span.Some? then st.span.value.0 else now, now)) else st.span;
      var seen := st.(acc := Process(st.acc, event), span := span);
      match event
      case MessageStop => Finalized(seen, CompletedRecord(seen.acc, seen.span))
      case ErrorEvent(message, _) => Finalized(seen, Failed(message))
      case _ => seen
  }

  class Recorder {
    const kernel: Kernel
    var handle: Option<Kernel>
    var accumulator: Accumulator
    var thinkingSpan: Option<(int, int)>

    ghost predicate Valid()
      reads this
    {
      handle == None || handle == Some(kernel)
    }

    ghost function Now(): State
      reads this, kernel
    {
      State(handle.Some?, accumulator, thinkingSpan, kernel.attempts)
    }

    constructor (k: Kernel)
      ensures Valid() && kernel == k && Now() == State(true, FRESH, None, k.attempts)
    {
      kernel, handle, accumulator, thinkingSpan := k, Some(k), FRESH, None;
    }

    method FinalizeCompleted()
      requires Valid()
      modifies this, kernel
      ensures Valid() && Now() == Finalized(old(Now()), CompletedRecord(old(accumulator), old(thinkingSpan)))
    {
      var taken := handle;
      handle := None;
      if taken.None? {
        return;
      }
      var model := if accumulator.model == "" then "unknown" else accumulator.model;
      var stopReason := if accumulator.stopReason.Some? then accumulator.stopReason.value else EndTurn;
      var thinkingMs := None;
      if thinkingSpan.Some? {
        thinkingMs := Some(Elapsed(thinkingSpan.value.0, thinkingSpan.value.1));
      }
      taken.value.attempts := taken.value.attempts +
        [Completed(model, stopReason, accumulator.usage, accumulator.toolUses, accumulator.thinking, thinkingMs)];
    }

    method FinalizeFailed(reason: string)
      requires Valid()
      modifies this, kernel
      ensures Valid() && Now() == Finalized(old(Now()), Failed(reason))
    {
      var taken := handle;
      handle := None;
      if taken.Some? {
        taken.value.attempts := taken.value.attempts + [Failed(reason)];
      }
    }

    /** `poll_next`: `polled` is what the inner stream gave, and it is passed on as it is. */
    method PollNext(polled: Polled, now: int) returns (item: Polled)
      requires Valid()
      modifies this, kernel
      ensures Valid() && item == polled
      ensures Now() == Step(old(Now()), polled, now)
    {
      item := polled;
      match polled
      case Pending =>
      case End =>
        if handle.Some? {
          FinalizeCompleted();
        }
      case Broken(error) =>
        FinalizeFailed(error);
      case Event(event) =>
        accumulator := Process(accumulator, event);
        if event.ThinkingDelta? {
          thinkingSpan := Some((if thinkingSpan.Some? then thinkingSpan.value.0 else now, now));
        }
        match event
        case MessageStop => FinalizeCompleted();
        case ErrorEvent(message, _) => FinalizeFailed(message);
        case _ =>
    }

    method Drop()
      requires Valid()
      modifies this, kernel
      ensures Valid() && Now() == Finalized(old(Now()), Failed(DROPPED))
    {
      if handle.Some? {
        FinalizeFailed(DROPPED);
      }
    }
  }

  // ----- Whole runs -----

  type Poll = (Polled, int)

  function Run(start: seq<Attempt>, polls: seq<Poll>): State {
    if polls == [] then State(true, FRESH, None, start)
    else
      var (polled, now) := polls[|polls| - 1];
      Step(Run(start, polls[..|polls| - 1]), polled, now)
  }

  function Dropped(st: State): State {
    Finalized(st, Failed(DROPPED))
  }

  /** Items that decide how the call ended. */
  predicate Terminal(polled: Polled) {
    match polled
    case Pending => false
    case End => true
    case Broken(_) => true
    case Event(event) => event.MessageStop? || event.ErrorEvent?
  }

  /** The first terminal item, or the length. */
  function FirstTerminal(polls: seq<Poll>): (k: nat)
    ensures k <= |polls|
    ensures k < |polls| ==> Terminal(polls[k].0)
    ensures forall i :: 0 <= i < k ==> !Terminal(polls[i].0)
  {
    if polls == [] || Terminal(polls[0].0) then 0 else 1 + FirstTerminal(polls[1..])
  }

  // What the items before the terminal one say, each part read on its own.

  function Thought(polls: seq<Poll>): string {
    if polls == [] then ""
    else
      Thought(polls[..|polls| - 1]) +
      match polls[|polls| - 1].0 case Event(ThinkingDelta(t)) => t case _ => ""
  }

  predicate Thinks(poll: Poll) {
    poll.0.Event? && poll.0.event.ThinkingDelta?
  }

  /** Time from the first thinking delta to the last. */
  ghost predicate ThinkingTime(polls: seq<Poll>, ms: Option<nat>) {
    if exists i :: 0 <= i < |polls| && Thinks(polls[i]) then
      exists i, j :: SpanEnds(polls, i, j) && ms == Some(
        var d := polls[j].1 - polls[i].1;
        if d <= 0 then 0 else if d < 0x1_0000_0000_0000_0000 then d else 0xFFFF_FFFF_FFFF_FFFF)
    else ms == None
  }

  /** `i` and `j` are the first and the last thinking delta. */
  ghost predicate SpanEnds(polls: seq<Poll>, i: int, j: int) {
    && 0 <= i <= j < |polls|
    && Thinks(polls[i]) && Thinks(polls[j])
    && forall k :: 0 <= k < i || j < k < |polls| ==> !Thinks(polls[k])
  }

  function LastModel(polls: seq<Poll>): string {
    if polls == [] then "unknown"
    else match polls[|polls| - 1].0
      case Event(MessageStart(_, model, _, _, _)) => if model == "" then "unknown" else model
      case _ => LastModel(polls[..|polls| - 1])
  }

  function LastStopReason(polls: seq<Poll>): StopReason {
    if polls == [] then EndTurn
    else match polls[|polls| - 1].0
      case Event(MessageDelta(stop, _)) => if stop.Some? then stop.value else EndTurn
      case _ => LastStopReason(polls[..|polls| - 1])
  }

  /** The latest counts reported; a message start without an input count leaves the earlier one. */
  function Reported(polls: seq<Poll>): Usage {
    if polls == [] then Usage(0, 0, None, None)
    else
      var before := Reported(polls[..|polls| - 1]);
      match polls[|polls| - 1].0
      case Event(MessageStart(_, _, Some(input), creation, read)) => Usage(input, before.output, creation, read)
      case Event(MessageStart(_, _, None, creation, read)) => Usage(before.input, before.output, creation, read)
      case Event(MessageDelta(_, output)) => before.(output := output)
      case _ => before
  }

  /** The tool block that has started and not stopped. */
  function OpenTool(polls: seq<Poll>): Option<string> {
    if polls == [] then None
    else match polls[|polls| - 1].0
      case Event(ContentBlockStart(_, ToolUseContent(_, name))) => Some(name)
      case Event(ContentBlockStop(_)) => None
      case _ => OpenTool(polls[..|polls| - 1])
  }

  /** The tools whose blocks were finished, in order. */
  function FinishedTools(polls: seq<Poll>): seq<string> {
    if polls == [] then []
    else
      var init := polls[..|polls| - 1];
      match polls[|polls| - 1].0
      case Event(ContentBlockStop(_)) =>
        FinishedTools(init) + (match OpenTool(init) case Some(name) => [name] case None => [])
      case _ => FinishedTools(init)
  }

  /** The record says what the items said. */
  ghost predicate Tells(polls: seq<Poll>, attempt: Attempt) {
    && attempt.Completed?
    && attempt.thinking == Thought(polls)
    && ThinkingTime(polls, attempt.thinkingMs)
    && attempt.model == LastModel(polls)
    && attempt.stopReason == LastStopReason(polls)
    && attempt.usage == Reported(polls)
    && attempt.toolUses == FinishedTools(polls)
  }

  /** Before any terminal item nothing is recorded; after one, nothing more. */
  lemma {:induction false} RecordedAtFirstTerminal(start: seq<Attempt>, polls: seq<Poll>)
    ensures
      var k := FirstTerminal(polls);
      var st := Run(start, polls);
      if k == |polls| then st.open && st.attempts == start
      else
        && !st.open
        && st.attempts == start + [Verdict(Run(start, polls[..k]), polls[k])]
  {
    if polls != [] {
      var n := |polls| - 1;
      var init := polls[..n];
      RecordedAtFirstTerminal(start, init);
      FirstTerminalSnoc(polls);
      var k := FirstTerminal(init);
      if k < n {
        assert init[..k] == polls[..k];
      }
    }
  }

  lemma FirstTerminalSnoc(polls: seq<Poll>)
    requires polls != []
    ensures
      var n := |polls| - 1;
      var k := FirstTerminal(polls[..n]);
      FirstTerminal(polls) == if k < n then k else if Terminal(polls[n].0) then n else |polls|
  {
    var n := |polls| - 1;
    var init := polls[..n];
    assert forall i :: 0 <= i < n ==> init[i] == polls[i];
    var k, l := FirstTerminal(init), FirstTerminal(polls);
    assert l < n ==> !(l < k);
  }

  /** What a terminal item records, given the state it arrives in. */
  function Verdict(before: State, poll: Poll): Attempt
    requires Terminal(poll.0)
  {
    match poll.0
    case End => CompletedRecord(before.acc, before.span)
    case Broken(error) => Failed(error)
    case Event(event) =>
      if event.MessageStop? then CompletedRecord(before.acc, before.span) else Failed(event.message)
  }

  /**
   * For every sequence of items followed by drop there is exactly one attempt, and the first terminal
   * item decides it: completed, with what the items before it said, for `MessageStop` or the end of the
   * stream; failed with the error's own text for an error; failed with the dropped reason if none came.
   */
  lemma ExactlyOneAttempt(start: seq<Attempt>, polls: seq<Poll>) returns (attempt: Attempt)
    ensures Dropped(Run(start, polls)).attempts == start + [attempt]
    ensures
      var k := FirstTerminal(polls);
      if k == |polls| then attempt == Failed("stream dropped before completion")
      else match polls[k].0
        case Broken(error) => attempt == Failed(error)
        case Event(ErrorEvent(message, _)) => attempt == Failed(message)
        case _ => Tells(polls[..k], attempt)
  {
    hide Run, Tells, Process;
    RecordedAtFirstTerminal(start, polls);
    var k := FirstTerminal(polls);
    if k == |polls| {
      attempt := Failed(DROPPED);
    } else {
      attempt := Verdict(Run(start, polls[..k]), polls[k]);
      CompletedTells(start, polls[..k]);
    }
  }

  lemma CompletedTells(start: seq<Attempt>, polls: seq<Poll>)
    ensures var st := Run(start, polls); Tells(polls, CompletedRecord(st.acc, st.span))
  {
    hide Run;
    AccumulatorTells(start, polls);
    SpanTells(start, polls);
  }

  lemma {:induction false} AccumulatorTells(start: seq<Attempt>, polls: seq<Poll>)
    ensures
      var st := Run(start, polls);
      var r := CompletedRecord(st.acc, st.span);
      && r.thinking == Thought(polls) && r.model == LastModel(polls)
      && r.stopReason == LastStopReason(polls) && r.usage == Reported(polls)
      && r.toolUses == FinishedTools(polls) && st.acc.currentTool == OpenTool(polls)
  {
    if polls != [] {
      hide Step, NextAcc;
      var n := |polls| - 1;
      var st := Run(start, polls[..n]);
      AccumulatorTells(start, polls[..n]);
      StepAcc(st, polls[n]);
      NextAccTells(st.acc, polls[n]);
      NextAccTools(st.acc, polls[n]);
    }
  }

  function NextAcc(acc: Accumulator, poll: Poll): Accumulator {
    match poll.0
    case Event(event) => Process(acc, event)
    case _ => acc
  }

  lemma StepAcc(st: State, poll: Poll)
    ensures Step(st, poll.0, poll.1).acc == NextAcc(st.acc, poll)
  {
    hide Process;
  }

  lemma NextAccTells(acc: Accumulator, poll: Poll)
    ensures
      var next := NextAcc(acc, poll);
      && next.thinking == acc.thinking + (match poll.0 case Event(ThinkingDelta(t)) => t case _ => "")
      && next.model == (match poll.0 case Event(MessageStart(_, model, _, _, _)) => model case _ => acc.model)
      && next.stopReason == (match poll.0 case Event(MessageDelta(stop, _)) => stop case _ => acc.stopReason)
      && next.usage == match poll.0
           case Event(MessageStart(_, _, Some(input), creation, read)) => Usage(input, acc.usage.output, creation, read)
           case Event(MessageStart(_, _, None, creation, read)) =>
             Usage(acc.usage.input, acc.usage.output, creation, read)
           case Event(MessageDelta(_, output)) => acc.usage.(output := output)
           case _ => acc.usage
  {
  }

  lemma NextAccTools(acc: Accumulator, poll: Poll)
    ensures
      var next := NextAcc(acc, poll);
      match poll.0
      case Event(ContentBlockStart(_, ToolUseContent(_, name))) =>
        next.currentTool == Some(name) && next.toolUses == acc.toolUses
      case Event(ContentBlockStop(_)) =>
        && next.currentTool == None
        && next.toolUses == acc.toolUses + (match acc.currentTool case Some(name) => [name] case None => [])
      case _ => next.currentTool == acc.currentTool && next.toolUses == acc.toolUses
  {
  }

  ghost predicate SpanIs(polls: seq<Poll>, span: Option<(int, int)>) {
    match span
    case Some((first, last)) => exists i, j :: SpanEnds(polls, i, j) && first == polls[i].1 && last == polls[j].1
    case None => forall i :: 0 <= i < |polls| ==> !Thinks(polls[i])
  }

  lemma SpanTells(start: seq<Attempt>, polls: seq<Poll>)
    ensures
      var r := CompletedRecord(Run(start, polls).acc, Run(start, polls).span);
      ThinkingTime(polls, r.thinkingMs)
  {
    hide Run;
    SpanKept(start, polls);
  }

  lemma {:induction false} SpanKept(start: seq<Attempt>, polls: seq<Poll>)
    ensures SpanIs(polls, Run(start, polls).span)
  {
    if polls != [] {
      var n := |polls| - 1;
      var st := Run(start, polls[..n]);
      SpanKept(start, polls[..n]);
      hide Run;
      SpanSnoc(polls, st.span);
      StepSpan(st, polls[n]);
    }
  }

  function NextSpan(span: Option<(int, int)>, poll: Poll): Option<(int, int)> {
    if Thinks(poll) then Some((if span.Some? then span.value.0 else poll.1, poll.1)) else span
  }

  lemma StepSpan(st: State, poll: Poll)
    ensures Step(st, poll.0, poll.1).span == NextSpan(st.span, poll)
  {
    hide Process;
  }

  lemma SpanSnoc(polls: seq<Poll>, span: Option<(int, int)>)
    requires polls != [] && SpanIs(polls[..|polls| - 1], span)
    ensures SpanIs(polls, NextSpan(span, polls[|polls| - 1]))
  {
    var n := |polls| - 1;
    var init := polls[..n];
    assert forall i :: 0 <= i < n ==> init[i] == polls[i];
    if span.Some? {
      var i, j :| SpanEnds(init, i, j) && span.value.0 == init[i].1 && span.value.1 == init[j].1;
      if Thinks(polls[n]) {
        assert SpanEnds(polls, i, n);
      } else {
        assert SpanEnds(polls, i, j);
      }
    } else if Thinks(polls[n]) {
      assert SpanEnds(polls, n, n);
    }
  }
}
