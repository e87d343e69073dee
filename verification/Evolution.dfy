/** Applying model-recommended MERGE, EVOLVE and INSIGHT lines to the fact store. */
module Evolution {
  import opened Sequences
  import opened Text
  import opened Transcript

  type FactId = nat

  datatype FactSource = Observed | Consolidated

  datatype Continuity = Continuity(scope: nat, active: bool, normal: bool, pinned: bool,
                                   projectId: Option<string>, userId: Option<string>, supersededBy: Option<string>)

  datatype Fact = Fact(id: FactId, key: string, value: Json, confidence: real, importance: real,
                       source: FactSource, accessCount: nat, lastAccessed: int, createdAt: int, updatedAt: int,
                       continuity: Continuity)

  /** Only approved, non-sensitive facts are offered for consolidation. */
  predicate Consolidatable(c: Continuity) {
    c.active && c.normal
  }

  /** What a new insight inherits from the first fact of the snapshot. */
  function ConsolidatedContinuity(c: Continuity): (r: Continuity)
    ensures Consolidatable(r) && r.scope == c.scope && !r.pinned && r.supersededBy == None
  {
    Continuity(c.scope, true, true, false, c.projectId, c.userId, None)
  }

  // ----- Reading a response -----

  /** The first word and what follows it. */
  function NextWord(s: string): (string, string) {
    var t := TrimStart(s);
    var k := IndexOf(t, IsWhitespace);
    (t[..k], t[k..])
  }

  predicate AllDigits(s: string) {
    s != "" && forall i :: 0 <= i < |s| ==> '0' <= s[i] <= '9'
  }

  function DigitsValue(s: string): nat
    requires forall i :: 0 <= i < |s| ==> '0' <= s[i] <= '9'
  {
    if s == "" then 0 else 10 * DigitsValue(s[..|s| - 1]) + (s[|s| - 1] as int - '0' as int)
  }

  /** `str::parse::<usize>`: an optional plus sign, digits, no overflow. */
  function ParseUsize(s: string): Option<nat> {
    var digits := if s != "" && s[0] == '+' then s[1..] else s;
    if AllDigits(digits) && DigitsValue(digits) < USIZE then Some(DigitsValue(digits)) else None
  }

  /** A 1-based index in the text, as a 0-based one below `max`. */
  function ParseIndex(word: string, max: nat): (r: Option<nat>)
    ensures r.Some? ==> r.value < max
  {
    match ParseUsize(word)
    case Some(n) => if 1 <= n <= max then Some(n - 1) else None
    case None => None
  }

  function ParseMergeIndices(text: string, max: nat): (r: Option<(nat, nat)>)
    ensures r.Some? ==> r.value.0 < max && r.value.1 < max && r.value.0 != r.value.1
  {
    var (first, rest) := NextWord(text);
    var (second, _) := NextWord(rest);
    match (ParseIndex(first, max), ParseIndex(second, max))
    case (Some(src), Some(dst)) => if src != dst then Some((src, dst)) else None
    case _ => None
  }

  function ParseSingleIndex(text: string, max: nat): (r: Option<nat>)
    ensures r.Some? ==> r.value < max
  {
    ParseIndex(NextWord(text).0, max)
  }

  /** What follows the first occurrence of `prefix`. */
  function After(s: string, prefix: string): Option<string> {
    if StartsWith(s, prefix) then Some(s[|prefix|..])
    else if s == "" then None
    else After(s[1..], prefix)
  }

  /** A quoted value, or a bare one up to the next whitespace. */
  function ExtractQuoted(text: string, prefix: string): Option<string> {
    match After(text, prefix)
    case None => None
    case Some(rest) =>
      if rest != "" && rest[0] == '"' then
        var stripped := rest[1..];
        var k := IndexOf(stripped, c => c == '"');
        if k == |stripped| then None else Some(stripped[..k])
      else Some(rest[..IndexOf(rest, IsWhitespace)])
  }

  function ExtractFloat(parse: string -> Option<real>, text: string, prefix: string): Option<real> {
    match After(text, prefix)
    case None => None
    case Some(rest) => parse(rest[..IndexOf(rest, c => !('0' <= c <= '9') && c != '.')])
  }

  datatype Action =
    | Merge(src: nat, dst: nat, value: Option<string>, key: Option<string>)
    | Evolve(index: nat, value: Option<string>, confidence: Option<real>)
    | Insight(newKey: string, newValue: string)
    | Nothing

  /** Indices of an action point into the snapshot, and a merge joins two different facts. */
  predicate InRange(a: Action, n: nat) {
    match a
    case Merge(src, dst, _, _) => src < n && dst < n && src != dst
    case Evolve(index, _, _) => index < n
    case _ => true
  }

  function ParseLine(parse: string -> Option<real>, line: string, n: nat): (a: Action)
    ensures InRange(a, n)
  {
    var trimmed := Trim(line);
    if StartsWith(trimmed, "MERGE ") then
      var rest := trimmed[6..];
      match ParseMergeIndices(rest, n)
      case Some((src, dst)) => Merge(src, dst, ExtractQuoted(rest, "value="), ExtractQuoted(rest, "key="))
      case None => Nothing
    else if StartsWith(trimmed, "EVOLVE ") then
      var rest := trimmed[7..];
      match ParseSingleIndex(rest, n)
      case Some(index) => Evolve(index, ExtractQuoted(rest, "value="), ExtractFloat(parse, rest, "confidence="))
      case None => Nothing
    else if StartsWith(trimmed, "INSIGHT ") then
      var rest := trimmed[8..];
      match (ExtractQuoted(rest, "key="), ExtractQuoted(rest, "value="))
      case (Some(k), Some(v)) => Insight(k, v)
      case _ => Nothing
    else Nothing
  }

  function ParseAll(parse: string -> Option<real>, lines: seq<string>, n: nat): (actions: seq<Action>)
    ensures |actions| == |lines|
    ensures forall i :: 0 <= i < |actions| ==> InRange(actions[i], n)
  {
    seq(|lines|, i requires 0 <= i < |lines| => ParseLine(parse, lines[i], n))
  }

  // ----- What is written is read back -----

  /** Reading a decimal numeral gives the number back. */
  lemma {:induction false} DecimalReads(n: nat)
    ensures AllDigits(Decimal(n)) && DigitsValue(Decimal(n)) == n
  {
    if n >= 10 {
      DecimalReads(n / 10);
      var d := Decimal(n);
      assert d[..|d| - 1] == Decimal(n / 10);
    } else {
      var d := Decimal(n);
      assert d[..0] == "";
    }
  }

  lemma ParseIndexReads(n: nat, max: nat)
    requires n + 1 < USIZE
    ensures ParseIndex(Decimal(n + 1), max) == if n < max then Some(n) else None
  {
    DecimalReads(n + 1);
    hide Decimal, DigitsValue;
    assert Decimal(n + 1)[0] != '+';
  }

  /** No word is in progress: the text has ended, or whitespace follows. */
  predicate AtWordEnd(s: string) {
    s == "" || IsWhitespace(s[0])
  }

  lemma NextWordIs(word: string, rest: string)
    requires word != "" && (forall i :: 0 <= i < |word| ==> !IsWhitespace(word[i])) && AtWordEnd(rest)
    ensures NextWord(word + rest) == (word, rest)
    ensures NextWord(" " + word + rest) == (word, rest)
  {
    var t := word + rest;
    assert t[0] == word[0];
    assert TrimStart(t) == t;
    assert (" " + word + rest)[1..] == t;
    assert TrimStart(" " + word + rest) == t;
    IndexOfStops(word, rest, IsWhitespace);
    assert t[..|word|] == word && t[|word|..] == rest;
  }

  lemma DigitsAreInk(n: nat)
    ensures forall i :: 0 <= i < |Decimal(n)| ==> !IsWhitespace(Decimal(n)[i])
  {
    hide Decimal;
    var d := Decimal(n);
    forall i | 0 <= i < |d|
      ensures !IsWhitespace(d[i])
    {
      assert '0' <= d[i] <= '9';
    }
  }

  /** The two numbers of a MERGE line are read in order, and refused together when out of range or equal. */
  lemma MergeIndicesRead(src: nat, dst: nat, tail: string, max: nat)
    requires src + 1 < USIZE && dst + 1 < USIZE && AtWordEnd(tail)
    ensures ParseMergeIndices(Decimal(src + 1) + " " + Decimal(dst + 1) + tail, max)
         == if src < max && dst < max && src != dst then Some((src, dst)) else None
  {
    hide Decimal, NextWord, ParseIndex;
    var first, second := Decimal(src + 1), Decimal(dst + 1);
    DigitsAreInk(src + 1);
    DigitsAreInk(dst + 1);
    var rest := " " + second + tail;
    assert first + " " + second + tail == first + rest;
    NextWordIs(first, rest);
    NextWordIs(second, tail);
    ParseIndexReads(src, max);
    ParseIndexReads(dst, max);
  }

  lemma EvolveIndexReads(index: nat, tail: string, max: nat)
    requires index + 1 < USIZE && AtWordEnd(tail)
    ensures ParseSingleIndex(Decimal(index + 1) + tail, max) == if index < max then Some(index) else None
  {
    hide Decimal, NextWord, ParseIndex;
    DigitsAreInk(index + 1);
    NextWordIs(Decimal(index + 1), tail);
    ParseIndexReads(index, max);
  }

  lemma {:induction false} AfterFirst(before: string, prefix: string, rest: string)
    requires forall i :: 0 <= i < |before| ==> !StartsWith((before + prefix + rest)[i..], prefix)
    ensures After(before + prefix + rest, prefix) == Some(rest)
  {
    var t := before + prefix + rest;
    if before == "" {
      assert t[..|prefix|] == prefix && t[|prefix|..] == rest;
    } else {
      assert t[0..] == t;
      var u := before[1..] + prefix + rest;
      assert t[1..] == u;
      forall i | 0 <= i < |before[1..]|
        ensures !StartsWith(u[i..], prefix)
      {
        assert t[i + 1..] == u[i..];
      }
      AfterFirst(before[1..], prefix, rest);
    }
  }

  /** A value without quotes, written in quotes after its first marker, is read back whole. */
  lemma QuotedReads(before: string, prefix: string, value: string, after: string)
    requires forall i :: 0 <= i < |value| ==> value[i] != '"'
    requires var text := before + prefix + ("\"" + value + "\"" + after);
      forall i :: 0 <= i < |before| ==> !StartsWith(text[i..], prefix)
    ensures ExtractQuoted(before + prefix + ("\"" + value + "\"" + after), prefix) == Some(value)
  {
    var rest := "\"" + value + "\"" + after;
    AfterFirst(before, prefix, rest);
    hide After, StartsWith;
    var close := "\"" + after;
    assert rest[1..] == value + close;
    IndexOfStops(value, close, c => c == '"');
    assert (value + close)[..|value|] == value;
  }

  // ----- Applying the actions -----

  /** The snapshot the response talks about, the clock and the source of fresh ids. */
  datatype Context = Context(facts: seq<Fact>, now: int, newId: nat -> FactId)

  datatype Progress = Progress(
    store: map<FactId, Fact>, toDelete: seq<nat>, into: seq<nat>, evolved: seq<nat>, merged: nat, insights: nat)

  function MergedFact(target: Fact, value: Option<string>, key: Option<string>, now: int): Fact {
    target.(value := if value.Some? then String(value.value) else target.value,
            key := if key.Some? then key.value else target.key,
            source := Consolidated, updatedAt := now)
  }

  function EvolvedFact(fact: Fact, value: Option<string>, confidence: Option<real>, now: int): Fact {
    fact.(value := if value.Some? then String(value.value) else fact.value,
          confidence := if confidence.Some? then confidence.value else fact.confidence,
          source := Consolidated, updatedAt := now)
  }

  function NewInsight(cx: Context, id: FactId, key: string, value: string): Fact
    requires cx.facts != []
  {
    Fact(id, key, String(value), 0.7, 0.5, Consolidated, 0, cx.now, cx.now, cx.now,
         ConsolidatedContinuity(cx.facts[0].continuity))
  }

  /** The line is acted on, not skipped because its facts are already merged away or evolved. */
  predicate Takes(p: Progress, a: Action) {
    match a
    case Merge(src, dst, _, _) => src !in p.toDelete && dst !in p.toDelete
    case Evolve(index, _, _) => index !in p.evolved && index !in p.toDelete
    case Insight(_, _) => true
    case Nothing => false
  }

  function Act(cx: Context, p: Progress, a: Action): Progress
    requires InRange(a, |cx.facts|) && cx.facts != []
  {
    if !Takes(p, a) then p
    else match a
      case Merge(src, dst, value, key) =>
        p.(toDelete := p.toDelete + [src], into := p.into + [dst], merged := p.merged + 1,
           store := p.store[cx.facts[dst].id := MergedFact(cx.facts[dst], value, key, cx.now)])
      case Evolve(index, value, confidence) =>
        p.(evolved := p.evolved + [index],
           store := p.store[cx.facts[index].id := EvolvedFact(cx.facts[index], value, confidence, cx.now)])
      case Insight(key, value) =>
        p.(insights := p.insights + 1,
           store := p.store[cx.newId(p.insights) := NewInsight(cx, cx.newId(p.insights), key, value)])
      case Nothing => p
  }

  predicate AllInRange(actions: seq<Action>, n: nat) {
    forall i :: 0 <= i < |actions| ==> InRange(actions[i], n)
  }

  function ActAll(cx: Context, store: map<FactId, Fact>, actions: seq<Action>): Progress
    requires AllInRange(actions, |cx.facts|) && cx.facts != []
  {
    if actions == [] then Progress(store, [], [], [], 0, 0)
    else Act(cx, ActAll(cx, store, actions[..|actions| - 1]), actions[|actions| - 1])
  }

  /** Delete the facts at the given snapshot positions. */
  function DeleteAll(facts: seq<Fact>, store: map<FactId, Fact>, indices: seq<nat>): map<FactId, Fact>
    requires forall i :: 0 <= i < |indices| ==> indices[i] < |facts|
  {
    if indices == [] then store
    else DeleteAll(facts, store, indices[..|indices| - 1]) - {facts[indices[|indices| - 1]].id}
  }

  lemma {:induction false} DeletesInRange(cx: Context, store: map<FactId, Fact>, actions: seq<Action>)
    requires AllInRange(actions, |cx.facts|) && cx.facts != []
    ensures
      var p := ActAll(cx, store, actions);
      && |p.into| == |p.toDelete| == p.merged
      && (forall i :: 0 <= i < |p.toDelete| ==> p.toDelete[i] < |cx.facts| && p.into[i] < |cx.facts|)
  {
    if actions != [] {
      assert InRange(actions[|actions| - 1], |cx.facts|);
      DeletesInRange(cx, store, actions[..|actions| - 1]);
    }
  }

  class FactStore {
    var facts: map<FactId, Fact>

    constructor (initial: map<FactId, Fact>)
      ensures facts == initial
    {
      facts := initial;
    }
  }

  lemma ActAllSnoc(cx: Context, store: map<FactId, Fact>, actions: seq<Action>, i: nat)
    requires AllInRange(actions, |cx.facts|) && cx.facts != [] && i < |actions|
    ensures AllInRange(actions[..i], |cx.facts|) && AllInRange(actions[..i + 1], |cx.facts|)
    ensures ActAll(cx, store, actions[..i + 1]) == Act(cx, ActAll(cx, store, actions[..i]), actions[i])
  {
    var upto := actions[..i + 1];
    assert upto[..i] == actions[..i] && upto[i] == actions[i];
    assert forall j :: 0 <= j < |upto| ==> upto[j] == actions[j];
    assert forall j :: 0 <= j < i ==> actions[..i][j] == actions[j];
  }

  lemma DeleteAllSnoc(facts: seq<Fact>, store: map<FactId, Fact>, indices: seq<nat>, k: nat)
    requires (forall i :: 0 <= i < |indices| ==> indices[i] < |facts|) && k < |indices|
    ensures DeleteAll(facts, store, indices[..k + 1]) == DeleteAll(facts, store, indices[..k]) - {facts[indices[k]].id}
  {
    var upto := indices[..k + 1];
    assert upto[..k] == indices[..k] && upto[k] == indices[k];
  }

  method ApplyLine(store: FactStore, action: Action, cx: Context, ghost p: Progress,
                   toDelete: seq<nat>, evolvedIndices: seq<nat>, insights: nat)
    returns (toDelete': seq<nat>, evolvedIndices': seq<nat>, insights': nat)
    requires cx.facts != [] && InRange(action, |cx.facts|)
    requires p.store == store.facts && p.toDelete == toDelete && p.evolved == evolvedIndices && p.insights == insights
    modifies store
    ensures
      var q := Act(cx, p, action);
      q.store == store.facts && q.toDelete == toDelete' && q.evolved == evolvedIndices' && q.insights == insights'
  {
    toDelete', evolvedIndices', insights' := toDelete, evolvedIndices, insights;
    match action
    case Merge(src, dst, value, key) =>
      if src !in toDelete && dst !in toDelete {
        toDelete' := toDelete + [src];
        store.facts := store.facts[cx.facts[dst].id := MergedFact(cx.facts[dst], value, key, cx.now)];
      }
    case Evolve(index, value, confidence) =>
      if index !in evolvedIndices && index !in toDelete {
        evolvedIndices' := evolvedIndices + [index];
        store.facts := store.facts[cx.facts[index].id := EvolvedFact(cx.facts[index], value, confidence, cx.now)];
      }
    case Insight(key, value) =>
      var id := cx.newId(insights);
      store.facts := store.facts[id := NewInsight(cx, id, key, value)];
      insights' := insights + 1;
    case Nothing =>
  }

  method DeleteMerged(store: FactStore, facts: seq<Fact>, toDelete: seq<nat>)
    requires forall i :: 0 <= i < |toDelete| ==> toDelete[i] < |facts|
    modifies store
    ensures store.facts == DeleteAll(facts, old(store.facts), toDelete)
  {
    for k := 0 to |toDelete|
      invariant store.facts == DeleteAll(facts, old(store.facts), toDelete[..k])
    {
      hide DeleteAll;
      DeleteAllSnoc(facts, old(store.facts), toDelete, k);
      store.facts := store.facts - {facts[toDelete[k]].id};
    }
    assert toDelete[..|toDelete|] == toDelete;
  }

  /** `apply_evolution`: the lines in order, then the deletions, and the three counters. */
  method ApplyEvolution(store: FactStore, parse: string -> Option<real>, response: string, cx: Context)
    returns (merged: nat, evolved: nat, insights: nat)
    requires cx.facts != []
    modifies store
    ensures
      var actions := ParseAll(parse, Lines(response), |cx.facts|);
      var p := ActAll(cx, old(store.facts), actions);
      && (forall i :: 0 <= i < |p.toDelete| ==> p.toDelete[i] < |cx.facts|)
      && store.facts == DeleteAll(cx.facts, p.store, p.toDelete)
      && merged == p.merged && evolved == |p.evolved| && insights == p.insights
  {
    hide ParseLine, Act, DeleteAll;
    ghost var was := store.facts;
    var lines := Lines(response);
    var toDelete: seq<nat>, evolvedIndices: seq<nat> := [], [];
    insights := 0;
    ghost var actions := ParseAll(parse, lines, |cx.facts|);
    ghost var p := ActAll(cx, was, []);
    for i := 0 to |lines|
      invariant AllInRange(actions[..i], |cx.facts|) && p == ActAll(cx, was, actions[..i])
      invariant p.store == store.facts && p.toDelete == toDelete && p.evolved == evolvedIndices && p.insights == insights
    {
      hide ActAll;
      var action := ParseLine(parse, lines[i], |cx.facts|);
      ActAllSnoc(cx, was, actions, i);
      toDelete, evolvedIndices, insights := ApplyLine(store, action, cx, p, toDelete, evolvedIndices, insights);
      p := Act(cx, p, action);
    }
    assert actions[..|lines|] == actions;
    DeletesInRange(cx, was, actions);
    merged, evolved := |toDelete|, |evolvedIndices|;
    DeleteMerged(store, cx.facts, toDelete);
  }

  // ----- What every run of the actions keeps -----

  /** The snapshot was read from the store, one fact per id, and generated ids are new. */
  ghost predicate Snapshot(cx: Context, store: map<FactId, Fact>) {
    && cx.facts != []
    && (forall i :: 0 <= i < |cx.facts| ==> cx.facts[i].id in store)
    && (forall i, j :: 0 <= i < j < |cx.facts| ==> cx.facts[i].id != cx.facts[j].id)
    && (forall k: nat :: cx.newId(k) !in store)
    && (forall k: nat, l: nat :: cx.newId(k) == cx.newId(l) ==> k == l)
  }

  /** Each merge takes a fact still there into another still there: no fact is merged away twice. */
  ghost predicate Forest(n: nat, toDelete: seq<nat>, into: seq<nat>) {
    && |into| == |toDelete|
    && (forall i :: 0 <= i < |toDelete| ==> toDelete[i] < n && into[i] < n)
    && (forall i, j :: 0 <= i < j < |toDelete| ==> toDelete[i] != toDelete[j])
    && (forall i, j :: 0 <= i <= j < |toDelete| ==> into[j] != toDelete[i])
  }

  lemma {:induction false} MergesFormForest(cx: Context, store: map<FactId, Fact>, actions: seq<Action>)
    requires AllInRange(actions, |cx.facts|) && cx.facts != []
    ensures
      var p := ActAll(cx, store, actions);
      Forest(|cx.facts|, p.toDelete, p.into) && p.merged == |p.toDelete|
  {
    if actions != [] {
      var init, a := actions[..|actions| - 1], actions[|actions| - 1];
      assert InRange(a, |cx.facts|);
      MergesFormForest(cx, store, init);
      var p := ActAll(cx, store, init);
      if a.Merge? && Takes(p, a) {
        ForestGrows(|cx.facts|, p.toDelete, p.into, a.src, a.dst);
      }
    }
  }

  lemma ForestGrows(n: nat, toDelete: seq<nat>, into: seq<nat>, src: nat, dst: nat)
    requires Forest(n, toDelete, into) && src < n && dst < n && src != dst
    requires src !in toDelete && dst !in toDelete
    ensures Forest(n, toDelete + [src], into + [dst])
  {
  }

  /** `edges` names merges, each later than the one before, that carry fact `i` step by step into fact `r`. */
  ghost predicate Chain(toDelete: seq<nat>, into: seq<nat>, i: nat, edges: seq<nat>, r: nat)
    requires |into| == |toDelete|
  {
    && (forall e :: 0 <= e < |edges| ==> edges[e] < |toDelete|)
    && (forall e, f :: 0 <= e < f < |edges| ==> edges[e] < edges[f])
    && (forall e :: 0 < e < |edges| ==> into[edges[e - 1]] == toDelete[edges[e]])
    && (if edges == [] then r == i else toDelete[edges[0]] == i && into[edges[|edges| - 1]] == r)
  }

  /** A merge target is merged away, if at all, by a later merge: chains of merges cannot close into a cycle. */
  lemma MergeTargetsAreLater(n: nat, toDelete: seq<nat>, into: seq<nat>, j: nat, k: nat)
    requires Forest(n, toDelete, into) && j < |into| && k < |toDelete| && into[j] == toDelete[k]
    ensures j < k
  {
  }

  /** Following merges from position `from` on, a fact not yet merged away reaches a surviving one. */
  lemma {:induction false} Survivor(n: nat, toDelete: seq<nat>, into: seq<nat>, i: nat, from: nat)
    returns (edges: seq<nat>, r: nat)
    requires Forest(n, toDelete, into) && i < n && from <= |toDelete| && i !in toDelete[..from]
    ensures r < n && r !in toDelete && Chain(toDelete, into, i, edges, r)
    ensures forall e :: 0 <= e < |edges| ==> edges[e] >= from
    decreases |toDelete| - from
  {
    if from == |toDelete| {
      assert toDelete[..from] == toDelete;
      edges, r := [], i;
    } else {
      assert toDelete[..from + 1] == toDelete[..from] + [toDelete[from]];
      if toDelete[from] == i {
        IntoIsLater(n, toDelete, into, from);
        var rest;
        rest, r := Survivor(n, toDelete, into, into[from], from + 1);
        edges := [from] + rest;
        ChainGrows(toDelete, into, from, rest, r);
      } else {
        edges, r := Survivor(n, toDelete, into, i, from + 1);
      }
    }
  }

  lemma ChainGrows(toDelete: seq<nat>, into: seq<nat>, from: nat, rest: seq<nat>, r: nat)
    requires |into| == |toDelete| && from < |toDelete| && Chain(toDelete, into, into[from], rest, r)
    requires forall e :: 0 <= e < |rest| ==> rest[e] > from
    ensures Chain(toDelete, into, toDelete[from], [from] + rest, r)
  {
    var edges := [from] + rest;
    assert forall e :: 0 < e < |edges| ==> edges[e] == rest[e - 1];
  }

  lemma IntoIsLater(n: nat, toDelete: seq<nat>, into: seq<nat>, k: nat)
    requires Forest(n, toDelete, into) && k < |toDelete|
    ensures into[k] !in toDelete[..k + 1]
  {
    var front := toDelete[..k + 1];
    assert forall i :: 0 <= i < |front| ==> front[i] == toDelete[i];
  }

  /** Every fact leads, through ever later merges, to one that survives; a surviving fact leads to itself. */
  lemma DeletedLeadsToSurvivor(cx: Context, store: map<FactId, Fact>, actions: seq<Action>, i: nat)
    returns (edges: seq<nat>, r: nat)
    requires AllInRange(actions, |cx.facts|) && cx.facts != [] && i < |cx.facts|
    ensures
      var p := ActAll(cx, store, actions);
      && |p.into| == |p.toDelete|
      && r < |cx.facts| && r !in p.toDelete
      && Chain(p.toDelete, p.into, i, edges, r)
      && (edges == [] <==> i !in p.toDelete)
  {
    MergesFormForest(cx, store, actions);
    var p := ActAll(cx, store, actions);
    edges, r := Survivor(|cx.facts|, p.toDelete, p.into, i, 0);
  }

  // ----- The store -----

  ghost function SnapshotIds(cx: Context): set<FactId> {
    set i | 0 <= i < |cx.facts| :: cx.facts[i].id
  }

  ghost function InsightIds(cx: Context, k: nat): set<FactId> {
    if k == 0 then {} else InsightIds(cx, k - 1) + {cx.newId(k - 1)}
  }

  lemma {:induction false} InsightIdsAre(cx: Context, store: map<FactId, Fact>, k: nat)
    requires Snapshot(cx, store)
    ensures |InsightIds(cx, k)| == k
    ensures forall id :: id in InsightIds(cx, k) ==> id !in store
    ensures forall l: nat :: l >= k ==> cx.newId(l) !in InsightIds(cx, k)
  {
    if k > 0 {
      InsightIdsAre(cx, store, k - 1);
    }
  }

  /** The ids present, and every fact outside the snapshot untouched. */
  ghost predicate Wrote(cx: Context, store: map<FactId, Fact>, p: Progress) {
    && p.store.Keys == store.Keys + InsightIds(cx, p.insights)
    && forall id :: id in store && id !in SnapshotIds(cx) ==> p.store[id] == store[id]
  }

  lemma {:induction false} WritesKept(cx: Context, store: map<FactId, Fact>, actions: seq<Action>)
    requires AllInRange(actions, |cx.facts|) && Snapshot(cx, store)
    ensures Wrote(cx, store, ActAll(cx, store, actions))
  {
    if actions != [] {
      var init, a := actions[..|actions| - 1], actions[|actions| - 1];
      assert InRange(a, |cx.facts|);
      WritesKept(cx, store, init);
      WriteStep(cx, store, ActAll(cx, store, init), a);
    }
  }

  lemma WriteStep(cx: Context, store: map<FactId, Fact>, p: Progress, a: Action)
    requires Snapshot(cx, store) && InRange(a, |cx.facts|) && Wrote(cx, store, p)
    ensures Wrote(cx, store, Act(cx, p, a))
  {
    var p' := Act(cx, p, a);
    if Takes(p, a) {
      match a
      case Merge(_, dst, _, _) =>
        assert cx.facts[dst].id in SnapshotIds(cx);
        assert p'.store.Keys == p.store.Keys;
      case Evolve(index, _, _) =>
        assert cx.facts[index].id in SnapshotIds(cx);
        assert p'.store.Keys == p.store.Keys;
      case Insight(_, _) =>
        assert p'.store.Keys == p.store.Keys + {cx.newId(p.insights)};
      case Nothing =>
    }
  }

  ghost predicate InDeleted(cx: Context, toDelete: seq<nat>, id: FactId)
    requires forall i :: 0 <= i < |toDelete| ==> toDelete[i] < |cx.facts|
  {
    exists i :: 0 <= i < |toDelete| && cx.facts[toDelete[i]].id == id
  }

  /** Deleting removes exactly the ids at those positions and changes nothing else. */
  lemma {:induction false} DeletedExactly(cx: Context, store: map<FactId, Fact>, toDelete: seq<nat>)
    requires forall i :: 0 <= i < |toDelete| ==> toDelete[i] < |cx.facts|
    ensures
      var out := DeleteAll(cx.facts, store, toDelete);
      && (forall id :: id in out <==> id in store && !InDeleted(cx, toDelete, id))
      && (forall id :: id in out ==> out[id] == store[id])
  {
    if toDelete != [] {
      var k := |toDelete| - 1;
      DeletedExactly(cx, store, toDelete[..k]);
      forall id
        ensures InDeleted(cx, toDelete, id) <==> InDeleted(cx, toDelete[..k], id) || id == cx.facts[toDelete[k]].id
      {
        InDeletedSnoc(cx, toDelete, id);
      }
    }
  }

  lemma InDeletedSnoc(cx: Context, toDelete: seq<nat>, id: FactId)
    requires toDelete != [] && forall i :: 0 <= i < |toDelete| ==> toDelete[i] < |cx.facts|
    ensures
      var k := |toDelete| - 1;
      InDeleted(cx, toDelete, id) <==> InDeleted(cx, toDelete[..k], id) || id == cx.facts[toDelete[k]].id
  {
    var init := toDelete[..|toDelete| - 1];
    assert forall i :: 0 <= i < |init| ==> init[i] == toDelete[i];
  }

  /** Distinct snapshot positions hold distinct stored ids, so each deletion removes one fact. */
  lemma {:induction false} DeletedSize(cx: Context, store: map<FactId, Fact>, written: map<FactId, Fact>, toDelete: seq<nat>)
    requires Snapshot(cx, store) && store.Keys <= written.Keys
    requires forall i :: 0 <= i < |toDelete| ==> toDelete[i] < |cx.facts|
    requires forall i, j :: 0 <= i < j < |toDelete| ==> toDelete[i] != toDelete[j]
    ensures |DeleteAll(cx.facts, written, toDelete)| == |written| - |toDelete|
  {
    if toDelete != [] {
      var k := |toDelete| - 1;
      var init, gone := toDelete[..k], cx.facts[toDelete[k]].id;
      assert toDelete[..k + 1] == toDelete;
      DeleteAllSnoc(cx.facts, written, toDelete, k);
      NotYetDeleted(cx, store, toDelete);
      hide DeleteAll, Snapshot;
      DeletedSize(cx, store, written, init);
      DeletedExactly(cx, written, init);
      MinusOne(DeleteAll(cx.facts, written, init), gone);
    }
  }

  lemma NotYetDeleted(cx: Context, store: map<FactId, Fact>, toDelete: seq<nat>)
    requires Snapshot(cx, store) && toDelete != []
    requires forall i :: 0 <= i < |toDelete| ==> toDelete[i] < |cx.facts|
    requires forall i, j :: 0 <= i < j < |toDelete| ==> toDelete[i] != toDelete[j]
    ensures
      var k := |toDelete| - 1;
      var id := cx.facts[toDelete[k]].id;
      id in store && !InDeleted(cx, toDelete[..k], id)
  {
    var k := |toDelete| - 1;
    var init := toDelete[..k];
    assert forall i :: 0 <= i < |init| ==> init[i] == toDelete[i];
    assert forall i :: 0 <= i < k ==> toDelete[i] != toDelete[k];
    assert forall i, j :: 0 <= i < |cx.facts| && 0 <= j < |cx.facts| && cx.facts[i].id == cx.facts[j].id ==> i == j;
  }

  lemma MinusOne(m: map<FactId, Fact>, id: FactId)
    requires id in m
    ensures |m - {id}| == |m| - 1
  {
    assert (m - {id}).Keys == m.Keys - {id};
  }

  /**
   * Whatever the response: the store ends with exactly before - merged + insights facts, no fact
   * outside the snapshot changes, and at least one snapshot fact is left.
   */
  lemma EvolutionConserves(cx: Context, store: map<FactId, Fact>, parse: string -> Option<real>, response: string)
    requires Snapshot(cx, store)
    ensures
      var p := ActAll(cx, store, ParseAll(parse, Lines(response), |cx.facts|));
      && Forest(|cx.facts|, p.toDelete, p.into)
      && var out := DeleteAll(cx.facts, p.store, p.toDelete);
         && |out| == |store| - p.merged + p.insights
         && (forall id :: id in store && id !in SnapshotIds(cx) ==> id in out && out[id] == store[id])
         && (exists i :: 0 <= i < |cx.facts| && cx.facts[i].id in out)
         && p.merged < |cx.facts|
  {
    var actions := ParseAll(parse, Lines(response), |cx.facts|);
    ActionsConserve(cx, store, actions);
  }

  lemma ActionsConserve(cx: Context, store: map<FactId, Fact>, actions: seq<Action>)
    requires Snapshot(cx, store) && AllInRange(actions, |cx.facts|)
    ensures
      var p := ActAll(cx, store, actions);
      && Forest(|cx.facts|, p.toDelete, p.into)
      && var out := DeleteAll(cx.facts, p.store, p.toDelete);
         && |out| == |store| - p.merged + p.insights
         && (forall id :: id in store && id !in SnapshotIds(cx) ==> id in out && out[id] == store[id])
         && (exists i :: 0 <= i < |cx.facts| && cx.facts[i].id in out)
         && p.merged < |cx.facts|
  {
    assert cx.facts != [];
    hide ActAll, DeleteAll, Snapshot;
    var p := ActAll(cx, store, actions);
    MergesFormForest(cx, store, actions);
    WritesKept(cx, store, actions);
    WrittenSize(cx, store, p);
    ForestSize(cx, store, p);
    OutsideKept(cx, store, p);
    var _, r := DeletedLeadsToSurvivor(cx, store, actions, 0);
    FewerThanAll(|cx.facts|, p.toDelete, p.into, r);
    SurvivorStays(cx, store, p, r);
  }

  lemma ForestSize(cx: Context, store: map<FactId, Fact>, p: Progress)
    requires Snapshot(cx, store) && store.Keys <= p.store.Keys && Forest(|cx.facts|, p.toDelete, p.into)
    ensures |DeleteAll(cx.facts, p.store, p.toDelete)| == |p.store| - |p.toDelete|
  {
    DeletedSize(cx, store, p.store, p.toDelete);
  }

  lemma OutsideKept(cx: Context, store: map<FactId, Fact>, p: Progress)
    requires Wrote(cx, store, p) && Forest(|cx.facts|, p.toDelete, p.into)
    ensures
      var out := DeleteAll(cx.facts, p.store, p.toDelete);
      forall id :: id in store && id !in SnapshotIds(cx) ==> id in out && out[id] == store[id]
  {
    hide DeleteAll;
    DeletedExactly(cx, p.store, p.toDelete);
    assert forall id :: InDeleted(cx, p.toDelete, id) ==> id in SnapshotIds(cx);
  }

  lemma SurvivorStays(cx: Context, store: map<FactId, Fact>, p: Progress, r: nat)
    requires Snapshot(cx, store) && store.Keys <= p.store.Keys && Forest(|cx.facts|, p.toDelete, p.into)
    requires r < |cx.facts| && r !in p.toDelete
    ensures cx.facts[r].id in DeleteAll(cx.facts, p.store, p.toDelete)
  {
    hide DeleteAll;
    DeletedExactly(cx, p.store, p.toDelete);
    assert forall i, j :: 0 <= i < |cx.facts| && 0 <= j < |cx.facts| && cx.facts[i].id == cx.facts[j].id ==> i == j;
    assert !InDeleted(cx, p.toDelete, cx.facts[r].id);
  }

  lemma WrittenSize(cx: Context, store: map<FactId, Fact>, p: Progress)
    requires Snapshot(cx, store) && Wrote(cx, store, p)
    ensures |p.store| == |store| + p.insights && store.Keys <= p.store.Keys
  {
    InsightIdsAre(cx, store, p.insights);
    assert store.Keys !! InsightIds(cx, p.insights);
    assert |p.store.Keys| == |store.Keys| + |InsightIds(cx, p.insights)|;
  }

  ghost function Below(n: nat): set<nat> {
    if n == 0 then {} else Below(n - 1) + {n - 1}
  }

  lemma {:induction false} BelowSize(n: nat)
    ensures |Below(n)| == n
    ensures forall i: nat :: i in Below(n) <==> i < n
  {
    if n > 0 {
      BelowSize(n - 1);
    }
  }

  ghost function Elements(xs: seq<nat>): set<nat> {
    set i | 0 <= i < |xs| :: xs[i]
  }

  lemma {:induction false} DistinctSize(xs: seq<nat>)
    requires forall i, j :: 0 <= i < j < |xs| ==> xs[i] != xs[j]
    ensures |Elements(xs)| == |xs|
  {
    if xs != [] {
      var init, last := xs[..|xs| - 1], xs[|xs| - 1];
      DistinctSize(init);
      assert forall i :: 0 <= i < |init| ==> init[i] == xs[i];
      assert Elements(xs) == Elements(init) + {last};
    }
  }

  /** Distinct positions that leave one out are fewer than all. */
  lemma FewerThanAll(n: nat, toDelete: seq<nat>, into: seq<nat>, r: nat)
    requires Forest(n, toDelete, into) && r < n && r !in toDelete
    ensures |toDelete| < n
  {
    DistinctSize(toDelete);
    BelowSize(n);
    assert Elements(toDelete) <= Below(n) - {r};
    SubsetSize(Elements(toDelete), Below(n) - {r});
  }

  lemma {:induction false} SubsetSize(a: set<nat>, b: set<nat>)
    requires a <= b
    ensures |a| <= |b|
  {
    if a != {} {
      var x :| x in a;
      SubsetSize(a - {x}, b - {x});
    }
  }

  // ----- What may be consolidated stays so -----

  /** Read from the store as it is now, and approved for consolidation. */
  ghost predicate Approved(cx: Context, store: map<FactId, Fact>) {
    forall i :: 0 <= i < |cx.facts| ==>
      cx.facts[i].id in store && store[cx.facts[i].id] == cx.facts[i] && Consolidatable(cx.facts[i].continuity)
  }

  /** A fact made from an INSIGHT line: in the scope of the snapshot, and itself open to consolidation. */
  predicate IsInsight(cx: Context, f: Fact)
    requires cx.facts != []
  {
    && Consolidatable(f.continuity) && !f.continuity.pinned && f.continuity.supersededBy == None
    && f.continuity.scope == cx.facts[0].continuity.scope
    && f.continuity.projectId == cx.facts[0].continuity.projectId
    && f.continuity.userId == cx.facts[0].continuity.userId
    && f.source == Consolidated
  }

  ghost predicate KeptAt(cx: Context, store: map<FactId, Fact>, now: map<FactId, Fact>, id: FactId)
    requires cx.facts != [] && id in now
  {
    && now[id].id == (if id in store then store[id].id else id)
    && (if id in store then now[id].continuity == store[id].continuity else IsInsight(cx, now[id]))
  }

  /** No fact changes its id or its continuity, and every fact that is new is an insight. */
  ghost predicate KeepsContinuity(cx: Context, store: map<FactId, Fact>, now: map<FactId, Fact>)
    requires cx.facts != []
  {
    forall id :: id in now ==> KeptAt(cx, store, now, id)
  }

  lemma ContinuityStep(cx: Context, store: map<FactId, Fact>, p: Progress, a: Action)
    requires Snapshot(cx, store) && Approved(cx, store) && InRange(a, |cx.facts|)
    requires KeepsContinuity(cx, store, p.store)
    ensures KeepsContinuity(cx, store, Act(cx, p, a).store)
  {
    var now := Act(cx, p, a).store;
    forall id | id in now
      ensures KeptAt(cx, store, now, id)
    {
      assert id in p.store ==> KeptAt(cx, store, p.store, id);
    }
  }

  lemma {:induction false} ContinuityKept(cx: Context, store: map<FactId, Fact>, actions: seq<Action>)
    requires Snapshot(cx, store) && Approved(cx, store) && AllInRange(actions, |cx.facts|)
    ensures KeepsContinuity(cx, store, ActAll(cx, store, actions).store)
  {
    if actions != [] {
      var init, a := actions[..|actions| - 1], actions[|actions| - 1];
      assert InRange(a, |cx.facts|);
      hide Act, KeepsContinuity, Snapshot, Approved;
      ContinuityKept(cx, store, init);
      ContinuityStep(cx, store, ActAll(cx, store, init), a);
    }
  }

  /**
   * For every response: facts that stay keep their id, scope, sensitivity, status and provenance; facts that are
   * new are approved, in the scope of the snapshot and neither pinned nor superseded. So a later round over what
   * is left of the snapshot and the insights is offered only facts that may be consolidated.
   */
  lemma EvolutionKeepsApproval(cx: Context, store: map<FactId, Fact>, parse: string -> Option<real>, response: string)
    requires Snapshot(cx, store) && Approved(cx, store)
    ensures
      var p := ActAll(cx, store, ParseAll(parse, Lines(response), |cx.facts|));
      && (forall i :: 0 <= i < |p.toDelete| ==> p.toDelete[i] < |cx.facts|)
      && var out := DeleteAll(cx.facts, p.store, p.toDelete);
         && KeepsContinuity(cx, store, out)
         && (forall id :: id in out && (id !in store || id in SnapshotIds(cx)) ==> Consolidatable(out[id].continuity))
  {
    var actions := ParseAll(parse, Lines(response), |cx.facts|);
    var p := ActAll(cx, store, actions);
    MergesFormForest(cx, store, actions);
    ContinuityKept(cx, store, actions);
    DeletedExactly(cx, p.store, p.toDelete);
    hide ActAll, DeleteAll, Snapshot, ParseAll;
    var out := DeleteAll(cx.facts, p.store, p.toDelete);
    forall id | id in out
      ensures KeptAt(cx, store, out, id)
    {
      assert KeptAt(cx, store, p.store, id);
    }
  }

  // ----- The last line about a fact decides -----

  /** What a line writes for the fact at position `i`: always built on the snapshot, never on the store. */
  function Written(cx: Context, a: Action, i: nat): Option<Fact>
    requires i < |cx.facts| && InRange(a, |cx.facts|)
  {
    match a
    case Merge(_, dst, value, key) => if dst == i then Some(MergedFact(cx.facts[i], value, key, cx.now)) else None
    case Evolve(index, value, confidence) =>
      if index == i then Some(EvolvedFact(cx.facts[i], value, confidence, cx.now)) else None
    case _ => None
  }

  /** The fact at position `i` after the actions: what the last accepted line about it wrote. */
  ghost function LastWritten(cx: Context, store: map<FactId, Fact>, actions: seq<Action>, i: nat): Option<Fact>
    requires AllInRange(actions, |cx.facts|) && cx.facts != [] && i < |cx.facts|
  {
    if actions == [] then None
    else
      var init, a := actions[..|actions| - 1], actions[|actions| - 1];
      if Takes(ActAll(cx, store, init), a) && Written(cx, a, i).Some? then Written(cx, a, i)
      else LastWritten(cx, store, init, i)
  }

  lemma {:induction false} LastLineDecides(cx: Context, store: map<FactId, Fact>, actions: seq<Action>, i: nat)
    requires AllInRange(actions, |cx.facts|) && Snapshot(cx, store) && i < |cx.facts|
    ensures
      var p := ActAll(cx, store, actions);
      var id := cx.facts[i].id;
      && id in p.store
      && p.store[id] == match LastWritten(cx, store, actions, i) case Some(f) => f case None => store[id]
  {
    if actions != [] {
      var init, a := actions[..|actions| - 1], actions[|actions| - 1];
      assert InRange(a, |cx.facts|);
      LastLineDecides(cx, store, init, i);
      var p := ActAll(cx, store, init);
      assert cx.newId(p.insights) != cx.facts[i].id;
    }
  }

  /** A merge's new value is lost when a later line evolves the merge target without a value of its own. */
  lemma EvolvingForgetsMerge(cx: Context, store: map<FactId, Fact>, value: string, confidence: Option<real>)
    requires Snapshot(cx, store) && |cx.facts| >= 2
    ensures
      var actions := [Merge(0, 1, Some(value), None), Evolve(1, None, confidence)];
      var p := ActAll(cx, store, actions);
      p.merged == 1 && cx.facts[1].id in p.store && p.store[cx.facts[1].id].value == cx.facts[1].value
  {
    var m, e := Merge(0, 1, Some(value), None), Evolve(1, None, confidence);
    assert [m, e][..1] == [m] && [m][..0] == [];
    var p1 := ActAll(cx, store, [m]);
    assert p1 == Act(cx, ActAll(cx, store, []), m);
    assert ActAll(cx, store, [m, e]) == Act(cx, p1, e);
  }
}
