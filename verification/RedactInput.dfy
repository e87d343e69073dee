/** Shrinking an oversized tool input by removing its largest string fields and recording what was removed. */
module RedactInput {
  import opened Sequences
  import opened Text
  import opened Transcript

  const MARK: string := "_redacted"
  const KIND: string := "aura_compaction_redaction"

  // ----- The marker -----

  function Entry(field: string, bytes: nat): Json {
    Object(map["kind" := String(KIND), "version" := Natural(1), "field" := String(field), "bytes" := Natural(bytes)])
  }

  function EntryWithoutKind(field: string, bytes: nat): Json {
    Object(map["field" := String(field), "bytes" := Natural(bytes)])
  }

  function ManyEntries(entries: seq<Json>): Json {
    Object(map["kind" := String(KIND), "version" := Natural(1), "fields" := Array(entries)])
  }

  function Get(fields: map<string, Json>, key: string): Option<Json> {
    if key in fields then Some(fields[key]) else None
  }

  /** The `_redacted` value after one more field is recorded. */
  function Recorded(prior: Option<Json>, field: string, bytes: nat): Json {
    match prior
    case None => Entry(field, bytes)
    case Some(Object(existing)) => (
      match Get(existing, "fields")
      case Some(Array(entries)) => ManyEntries(entries + [EntryWithoutKind(field, bytes)])
      case _ =>
        match (Get(existing, "field"), Get(existing, "bytes"))
        case (Some(String(f)), Some(Natural(n))) =>
          ManyEntries([EntryWithoutKind(f, n), EntryWithoutKind(field, bytes)])
        case _ => Entry(field, bytes)
    )
    case Some(other) => other
  }

  /** `RedactionMarker::mark`. */
  function Mark(input: Json, field: string, bytes: nat): Json {
    if !input.Object? then input
    else Object((input.fields - {field})[MARK := Recorded(Get(input.fields - {field}, MARK), field, bytes)])
  }

  /** `RedactionMarker::is_marker`. */
  predicate IsMarker(value: Json) {
    value.Object? &&
    if MARK in value.fields then IsMarker(value.fields[MARK])
    else
      && Get(value.fields, "kind") == Some(String(KIND))
      && (|| (match Get(value.fields, "field") case Some(String(_)) => true case _ => false)
          || (match Get(value.fields, "fields") case Some(Array(_)) => true case _ => false))
  }

  // ----- Which field goes first -----

  /** Fields that may be removed: non-empty strings at the top level. */
  predicate Candidate(fields: map<string, Json>, k: string) {
    k in fields && k != MARK && fields[k].String? && fields[k].s != ""
  }

  /** `a` goes before `b`: it is longer, or as long and later in key order. */
  predicate Before(fields: map<string, Json>, a: string, b: string)
    requires Candidate(fields, a) && Candidate(fields, b)
  {
    var m, n := ByteLen(fields[a].s), ByteLen(fields[b].s);
    m > n || (m == n && Less(b, a))
  }

  lemma BeforeIsTotal(fields: map<string, Json>, a: string, b: string)
    requires Candidate(fields, a) && Candidate(fields, b)
    ensures a == b || Before(fields, a, b) || Before(fields, b, a)
    ensures !(Before(fields, a, b) && Before(fields, b, a))
  {
    hide ByteLen, Less;
    LessIsTotal(a, b);
  }

  lemma BeforeIsTransitive(fields: map<string, Json>, a: string, b: string, c: string)
    requires Candidate(fields, a) && Candidate(fields, b) && Candidate(fields, c)
    requires Before(fields, a, b) && Before(fields, b, c)
    ensures Before(fields, a, c)
  {
    hide ByteLen, Less;
    if Less(b, a) && Less(c, b) {
      LessIsTransitive(c, b, a);
    }
  }

  predicate Largest(fields: map<string, Json>, k: string) {
    Candidate(fields, k) && forall j :: j in fields && Candidate(fields, j) && j != k ==> Before(fields, k, j)
  }

  /**
   * `max_by_key` over the fields in key order keeps the last of several longest strings,
   * so comparing length and then key gives the same field in any visiting order.
   */
  method LargestField(fields: map<string, Json>) returns (r: Option<string>)
    ensures r.None? ==> forall k :: k in fields ==> !Candidate(fields, k)
    ensures r.Some? ==> Largest(fields, r.value)
  {
    r := None;
    var todo := fields.Keys;
    while todo != {}
      invariant todo <= fields.Keys
      invariant r.None? ==> forall k :: k in fields && k !in todo ==> !Candidate(fields, k)
      invariant r.Some? ==> Candidate(fields, r.value) && r.value !in todo
      invariant r.Some? ==>
        forall k :: k in fields && k !in todo && Candidate(fields, k) && k != r.value ==> Before(fields, r.value, k)
      decreases |todo|
    {
      hide Before;
      var k :| k in todo;
      if Candidate(fields, k) {
        if r.None? {
          r := Some(k);
        } else {
          BeforeIsTotal(fields, k, r.value);
          if Before(fields, k, r.value) {
            TakesOver(fields, todo, r.value, k);
            r := Some(k);
          }
        }
      }
      todo := todo - {k};
    }
  }

  lemma TakesOver(fields: map<string, Json>, todo: set<string>, best: string, k: string)
    requires Candidate(fields, best) && Candidate(fields, k) && Before(fields, k, best)
    requires forall j :: j in fields && j !in todo && Candidate(fields, j) && j != best ==> Before(fields, best, j)
    ensures forall j :: j in fields && j !in todo && Candidate(fields, j) ==> Before(fields, k, j)
  {
    hide Before;
    forall j | j in fields && j !in todo && Candidate(fields, j)
      ensures Before(fields, k, j)
    {
      if j != best {
        BeforeIsTransitive(fields, k, best, j);
      }
    }
  }

  // ----- A run of removals -----

  function Length(fields: map<string, Json>, k: string): nat {
    if k in fields && fields[k].String? then ByteLen(fields[k].s) else 0
  }

  /** The input after the listed fields are removed one by one. */
  function MarkAll(input: Json, removed: seq<string>): Json
    requires input.Object?
  {
    if removed == [] then input
    else
      var k := removed[|removed| - 1];
      Mark(MarkAll(input, removed[..|removed| - 1]), k, Length(input.fields, k))
  }

  /** Everything but the marker: the original fields without the removed ones, values unchanged. */
  ghost predicate Keeps(input: Json, removed: seq<string>, out: Json)
    requires input.Object?
  {
    && out.Object?
    && (forall k :: k != MARK ==> (k in out.fields <==> k in input.fields && k !in removed))
    && (forall k :: k != MARK && k in out.fields ==> k in input.fields && out.fields[k] == input.fields[k])
  }

  lemma {:induction false} MarkAllKeeps(input: Json, removed: seq<string>)
    requires input.Object?
    ensures Keeps(input, removed, MarkAll(input, removed))
  {
    if removed != [] {
      var init, k := removed[..|removed| - 1], removed[|removed| - 1];
      MarkAllKeeps(input, init);
      assert removed == init + [k];
    }
  }

  /** The removed fields come in descending order, and every field still there comes after all of them. */
  ghost predicate Ranked(fields: map<string, Json>, removed: seq<string>) {
    && (forall i :: 0 <= i < |removed| ==> Candidate(fields, removed[i]))
    && (forall i, j :: 0 <= i < j < |removed| ==> Before(fields, removed[i], removed[j]))
    && (forall i, k :: 0 <= i < |removed| && k in fields && Candidate(fields, k) && k !in removed ==> Before(fields, removed[i], k))
  }

  ghost predicate Exhausted(fields: map<string, Json>, removed: seq<string>) {
    forall k :: k in fields && Candidate(fields, k) ==> k in removed
  }

  function SizeAfter(size: Json -> nat, input: Json, removed: seq<string>): nat
    requires input.Object?
  {
    size(MarkAll(input, removed))
  }

  /** Before removal `i` the input was still too large, and the removal before it had made it smaller. */
  ghost predicate GoesOn(size: Json -> nat, cap: nat, input: Json, removed: seq<string>, i: nat)
    requires input.Object? && i < |removed|
  {
    && SizeAfter(size, input, removed[..i]) > cap
    && (i > 0 ==> SizeAfter(size, input, removed[..i]) < SizeAfter(size, input, removed[..i - 1]))
  }

  /** Why a run ends: the input fits, nothing is left to remove, or the last removal gained nothing. */
  ghost predicate Stops(size: Json -> nat, cap: nat, input: Json, removed: seq<string>)
    requires input.Object?
  {
    || SizeAfter(size, input, removed) <= cap
    || Exhausted(input.fields, removed)
    || (removed != [] && SizeAfter(size, input, removed) >= SizeAfter(size, input, removed[..|removed| - 1]))
  }

  /** The fields that a run removes, in order. */
  ghost predicate Run(size: Json -> nat, cap: nat, input: Json, removed: seq<string>)
    requires input.Object?
  {
    && Ranked(input.fields, removed)
    && (forall i :: 0 <= i < |removed| ==> GoesOn(size, cap, input, removed, i))
    && Stops(size, cap, input, removed)
  }

  /** The `&mut Value` that is shrunk in place. */
  class JsonCell {
    var value: Json

    constructor (initial: Json)
      ensures value == initial
    {
      value := initial;
    }
  }

  ghost function Unremoved(fields: map<string, Json>): set<string> {
    fields.Keys - {MARK}
  }

  /** `redact_oversized_tool_use_input`; `size` is the length of the serialized value. */
  method RedactOversized(cell: JsonCell, size: Json -> nat, cap: nat) returns (ghost removed: seq<string>)
    modifies cell
    ensures
      var was := old(cell.value);
      if was.Object? && !IsMarker(was)
      then Run(size, cap, was, removed) && cell.value == MarkAll(was, removed)
      else removed == [] && cell.value == was
  {
    removed := [];
    if !cell.value.Object? {
      return;
    }
    if IsMarker(cell.value) {
      return;
    }
    hide IsMarker, Mark, Stops, GoesOn, Ranked;
    ghost var was := cell.value;
    StartRanked(was.fields);
    var serializedLen := size(cell.value);
    MarkAllKeeps(was, removed);
    while serializedLen > cap
      invariant Keeps(was, removed, cell.value) && cell.value == MarkAll(was, removed)
      invariant serializedLen == SizeAfter(size, was, removed)
      invariant Ranked(was.fields, removed)
      invariant forall i :: 0 <= i < |removed| ==> GoesOn(size, cap, was, removed, i)
      invariant removed != [] ==> SizeAfter(size, was, removed) < SizeAfter(size, was, removed[..|removed| - 1])
      decreases |Unremoved(cell.value.fields)|
    {
      hide MarkAll, SizeAfter, Keeps, Largest;
      var largest := LargestField(cell.value.fields);
      if largest.None? {
        StopsExhausted(size, cap, was, removed, cell.value);
        return;
      }
      var field := largest.value;
      LargestIsNext(was, removed, cell.value, field);
      MarkAllSnoc(was, removed, field);
      GoesOnSnoc(size, cap, was, removed, field);
      MarkAllKeeps(was, removed + [field]);
      FewerLeft(cell.value, field, Length(was.fields, field));
      ghost var before := removed;
      removed := removed + [field];
      cell.value := Mark(cell.value, field, Length(cell.value.fields, field));
      var newLen := size(cell.value);
      SizeNow(size, was, removed, cell.value);
      assert removed[..|removed| - 1] == before;
      if newLen >= serializedLen {
        StopsUseless(size, cap, was, removed);
        return;
      }
      serializedLen := newLen;
    }
    StopsFitting(size, cap, was, removed);
  }

  lemma StartRanked(fields: map<string, Json>)
    ensures Ranked(fields, [])
  {
  }

  lemma SizeNow(size: Json -> nat, was: Json, removed: seq<string>, now: Json)
    requires was.Object? && now.Object? && now == MarkAll(was, removed)
    ensures size(now) == SizeAfter(size, was, removed)
  {
  }

  lemma MarkAllSnoc(was: Json, removed: seq<string>, k: string)
    requires was.Object?
    ensures MarkAll(was, removed + [k]) == Mark(MarkAll(was, removed), k, Length(was.fields, k))
  {
    var next := removed + [k];
    assert next[..|next| - 1] == removed;
  }

  lemma FewerLeft(now: Json, field: string, bytes: nat)
    requires now.Object? && Candidate(now.fields, field)
    ensures Mark(now, field, bytes).Object?
    ensures |Unremoved(Mark(now, field, bytes).fields)| < |Unremoved(now.fields)|
  {
    assert Unremoved(Mark(now, field, bytes).fields) == Unremoved(now.fields) - {field};
  }

  lemma StopsExhausted(size: Json -> nat, cap: nat, was: Json, removed: seq<string>, now: Json)
    requires was.Object? && Keeps(was, removed, now) && forall k :: k in now.fields ==> !Candidate(now.fields, k)
    ensures Stops(size, cap, was, removed)
  {
    hide SizeAfter;
    assert forall k :: k in was.fields && Candidate(was.fields, k) && k !in removed ==> k in now.fields;
  }

  lemma StopsUseless(size: Json -> nat, cap: nat, was: Json, removed: seq<string>)
    requires was.Object? && removed != []
    requires SizeAfter(size, was, removed) >= SizeAfter(size, was, removed[..|removed| - 1])
    ensures Stops(size, cap, was, removed)
  {
    hide SizeAfter;
  }

  lemma StopsFitting(size: Json -> nat, cap: nat, was: Json, removed: seq<string>)
    requires was.Object? && SizeAfter(size, was, removed) <= cap
    ensures Stops(size, cap, was, removed)
  {
    hide SizeAfter;
  }

  lemma GoesOnSnoc(size: Json -> nat, cap: nat, was: Json, removed: seq<string>, k: string)
    requires was.Object? && SizeAfter(size, was, removed) > cap
    requires forall i :: 0 <= i < |removed| ==> GoesOn(size, cap, was, removed, i)
    requires removed != [] ==> SizeAfter(size, was, removed) < SizeAfter(size, was, removed[..|removed| - 1])
    ensures forall i :: 0 <= i < |removed + [k]| ==> GoesOn(size, cap, was, removed + [k], i)
  {
    hide SizeAfter;
    var next := removed + [k];
    forall i | 0 <= i < |next|
      ensures GoesOn(size, cap, was, next, i)
    {
      assert next[..|removed|] == removed;
      if i < |removed| {
        assert GoesOn(size, cap, was, removed, i);
        assert next[..i] == removed[..i];
      }
      if i > 0 {
        assert next[..i - 1] == removed[..i - 1];
      }
    }
  }

  /** The largest field of what is left comes next in the order of the original. */
  lemma LargestIsNext(was: Json, removed: seq<string>, now: Json, field: string)
    requires was.Object? && Keeps(was, removed, now) && Ranked(was.fields, removed) && Largest(now.fields, field)
    ensures Candidate(now.fields, field) && Ranked(was.fields, removed + [field])
    ensures Length(now.fields, field) == Length(was.fields, field)
  {
    hide ByteLen, Less;
    var next := removed + [field];
    assert field in was.fields && field !in removed;
    forall k | k in was.fields && Candidate(was.fields, k) && k !in next
      ensures Before(was.fields, field, k)
    {
      assert k !in removed && k in now.fields && Candidate(now.fields, k);
      assert Before(now.fields, field, k);
    }
    RankedSnoc(was.fields, removed, field);
  }

  lemma RankedSnoc(fields: map<string, Json>, removed: seq<string>, field: string)
    requires Ranked(fields, removed) && Candidate(fields, field) && field !in removed
    requires forall k :: k in fields && Candidate(fields, k) && k !in removed + [field] ==> Before(fields, field, k)
    ensures Ranked(fields, removed + [field])
  {
    hide Before;
  }

  // ----- What a run leaves -----

  /** The record of `removed`: one entry alone, several as a list, in order, with their true lengths. */
  function Record(fields: map<string, Json>, removed: seq<string>): Json
    requires removed != []
  {
    if |removed| == 1 then Entry(removed[0], Length(fields, removed[0]))
    else ManyEntries(Entries(fields, removed))
  }

  function Entries(fields: map<string, Json>, removed: seq<string>): (r: seq<Json>)
    ensures |r| == |removed|
  {
    seq(|removed|, i requires 0 <= i < |removed| => EntryWithoutKind(removed[i], Length(fields, removed[i])))
  }

  /** The entries a prior `_redacted` object already lists, if it can be read as a list or as a single entry. */
  function PriorEntries(prior: Option<Json>): Option<seq<Json>> {
    match prior
    case Some(Object(existing)) => (
      match Get(existing, "fields")
      case Some(Array(entries)) => Some(entries)
      case _ =>
        match (Get(existing, "field"), Get(existing, "bytes"))
        case (Some(String(f)), Some(Natural(n))) => Some([EntryWithoutKind(f, n)])
        case _ => None
    )
    case _ => None
  }

  /** The prior entries, if any, and then the removed fields in order, with their true lengths. */
  function FullRecord(prior: Option<Json>, fields: map<string, Json>, removed: seq<string>): Json
    requires removed != []
  {
    match PriorEntries(prior)
    case Some(entries) => ManyEntries(entries + Entries(fields, removed))
    case None => Record(fields, removed)
  }

  /**
   * The marker lists exactly the entries that a prior `_redacted` object listed and, after them, the removed fields;
   * without a prior field, or with an object that lists nothing, the removed fields alone.
   */
  lemma {:induction false} RecordIsExact(input: Json, removed: seq<string>)
    requires input.Object? && (MARK in input.fields ==> input.fields[MARK].Object?) && removed != [] && MARK !in removed
    ensures
      var out := MarkAll(input, removed);
      && out.Object?
      && Get(out.fields, MARK) == Some(FullRecord(Get(input.fields, MARK), input.fields, removed))
  {
    var init, k := removed[..|removed| - 1], removed[|removed| - 1];
    var prior := Get(input.fields, MARK);
    assert removed == init + [k];
    MarkAllSnoc(input, init, k);
    hide FullRecord, Recorded, MarkAll;
    if init == [] {
      NothingRemoved(input);
      FirstRecord(prior, input.fields, k);
      assert init + [k] == [k];
    } else {
      RecordIsExact(input, init);
      RecordSnoc(prior, input.fields, init, k);
    }
  }

  lemma FirstRecord(prior: Option<Json>, fields: map<string, Json>, k: string)
    requires prior.Some? ==> prior.value.Object?
    ensures Recorded(prior, k, Length(fields, k)) == FullRecord(prior, fields, [k])
  {
    hide Length;
    var only := EntryWithoutKind(k, Length(fields, k));
    assert Entries(fields, [k]) == [only];
    if prior.Some? {
      var existing := prior.value.fields;
      match (Get(existing, "field"), Get(existing, "bytes"))
      case (Some(String(f)), Some(Natural(n))) =>
        assert [EntryWithoutKind(f, n)] + [only] == [EntryWithoutKind(f, n), only];
      case _ =>
    }
  }

  /** A record can be read, and one more field is put at its end. */
  lemma RecordSnoc(prior: Option<Json>, fields: map<string, Json>, removed: seq<string>, k: string)
    requires removed != []
    ensures Recorded(Some(FullRecord(prior, fields, removed)), k, Length(fields, k))
         == FullRecord(prior, fields, removed + [k])
  {
    hide Length, PriorEntries;
    EntriesSnoc(fields, removed, k);
    var last := EntryWithoutKind(k, Length(fields, k));
    match PriorEntries(prior)
    case Some(entries) =>
      Associative(entries, Entries(fields, removed), [last]);
    case None =>
      if |removed| == 1 {
        var only := EntryWithoutKind(removed[0], Length(fields, removed[0]));
        assert Entries(fields, removed) == [only] && [only] + [last] == [only, last];
      }
  }

  lemma EntriesSnoc(fields: map<string, Json>, removed: seq<string>, k: string)
    ensures Entries(fields, removed + [k]) == Entries(fields, removed) + [EntryWithoutKind(k, Length(fields, k))]
  {
    hide Length;
  }

  /** A prior `_redacted` value that is not an object stays, and nothing is recorded. */
  lemma {:induction false} PriorValueHidesRecord(input: Json, removed: seq<string>)
    requires input.Object? && MARK in input.fields && !input.fields[MARK].Object? && MARK !in removed
    ensures
      var out := MarkAll(input, removed);
      out.Object? && Get(out.fields, MARK) == Some(input.fields[MARK])
  {
    if removed != [] {
      var init, k := removed[..|removed| - 1], removed[|removed| - 1];
      assert removed == init + [k];
      PriorValueHidesRecord(input, init);
    }
  }

  /** What the `_redacted` field is after the removals. */
  ghost predicate MarkedAs(input: Json, removed: seq<string>, out: Json)
    requires input.Object? && out.Object?
  {
    var prior := Get(input.fields, MARK);
    Get(out.fields, MARK) ==
      if removed == [] || (prior.Some? && !prior.value.Object?) then prior
      else Some(FullRecord(prior, input.fields, removed))
  }

  /**
   * What a run does to any object: it stays an object; only top-level non-empty strings go; what stays is
   * unchanged; the removed fields come longest first and no string that stays is longer than one that went; and the
   * `_redacted` field lists what it listed before and then exactly the removed fields, unless it held no object.
   */
  lemma RunIsFaithful(size: Json -> nat, cap: nat, input: Json, removed: seq<string>)
    requires input.Object? && Run(size, cap, input, removed)
    ensures
      var out := MarkAll(input, removed);
      && Keeps(input, removed, out)
      && MarkedAs(input, removed, out)
      && (forall i :: 0 <= i < |removed| ==> Candidate(input.fields, removed[i]))
      && (forall i, j :: 0 <= i < j < |removed| ==>
            removed[i] != removed[j] && Length(input.fields, removed[i]) >= Length(input.fields, removed[j]))
      && (forall i, k :: 0 <= i < |removed| && k != MARK && k in out.fields ==>
            Length(out.fields, k) <= Length(input.fields, removed[i]))
  {
    hide ByteLen, Less, MarkAll, FullRecord, GoesOn, Stops;
    var out := MarkAll(input, removed);
    MarkAllKeeps(input, removed);
    assert MARK !in removed;
    RunMarks(input, removed);
    RankedLengths(input.fields, removed);
    forall i, k | 0 <= i < |removed| && k != MARK && k in out.fields
      ensures Length(out.fields, k) <= Length(input.fields, removed[i])
    {
      assert k in input.fields && k !in removed;
      RestIsShorter(input.fields, removed, i, k);
    }
  }

  lemma RunMarks(input: Json, removed: seq<string>)
    requires input.Object? && MARK !in removed
    ensures MarkAll(input, removed).Object? && MarkedAs(input, removed, MarkAll(input, removed))
  {
    hide MarkAll, FullRecord;
    MarkAllKeeps(input, removed);
    if removed == [] {
      NothingRemoved(input);
    } else if MARK in input.fields && !input.fields[MARK].Object? {
      PriorValueHidesRecord(input, removed);
    } else {
      RecordIsExact(input, removed);
    }
  }

  lemma NothingRemoved(input: Json)
    requires input.Object?
    ensures MarkAll(input, []) == input
  {
  }

  lemma RankedLengths(fields: map<string, Json>, removed: seq<string>)
    requires Ranked(fields, removed)
    ensures forall i, j :: 0 <= i < j < |removed| ==>
      removed[i] != removed[j] && Length(fields, removed[i]) >= Length(fields, removed[j])
  {
    hide ByteLen, Less;
    forall i, j | 0 <= i < j < |removed|
      ensures removed[i] != removed[j] && Length(fields, removed[i]) >= Length(fields, removed[j])
    {
      assert Before(fields, removed[i], removed[j]);
      LessIsTotal(removed[i], removed[i]);
    }
  }

  lemma RestIsShorter(fields: map<string, Json>, removed: seq<string>, i: nat, k: string)
    requires Ranked(fields, removed) && i < |removed| && k in fields && k !in removed && k != MARK
    ensures Length(fields, k) <= Length(fields, removed[i])
  {
    hide Less;
    if Candidate(fields, k) {
      assert Before(fields, removed[i], k);
    }
  }

  // ----- A run is determined by its input -----

  lemma NextIsDetermined(fields: map<string, Json>, a: seq<string>, b: seq<string>, i: nat)
    requires Ranked(fields, a) && Ranked(fields, b) && i < |a| && i < |b| && a[..i] == b[..i]
    ensures a[i] == b[i]
  {
    hide Before;
    if a[i] != b[i] {
      Precedes(fields, a, b, i);
      Precedes(fields, b, a, i);
      BeforeIsTotal(fields, a[i], b[i]);
    }
  }

  lemma Precedes(fields: map<string, Json>, a: seq<string>, b: seq<string>, i: nat)
    requires Ranked(fields, a) && Ranked(fields, b) && i < |a| && i < |b| && a[..i] == b[..i] && a[i] != b[i]
    ensures Before(fields, a[i], b[i])
  {
    hide Before;
    if b[i] in a {
      var j :| 0 <= j < |a| && a[j] == b[i];
      if j < i {
        assert a[..i][j] == b[..i][j];
        assert Before(fields, b[j], b[i]);
        BeforeIsTotal(fields, b[i], b[i]);
      }
    }
  }

  lemma {:induction false} PrefixIsDetermined(fields: map<string, Json>, a: seq<string>, b: seq<string>, i: nat)
    requires Ranked(fields, a) && Ranked(fields, b) && i <= |a| && i <= |b|
    ensures a[..i] == b[..i]
  {
    hide Ranked;
    if i > 0 {
      PrefixIsDetermined(fields, a, b, i - 1);
      NextIsDetermined(fields, a, b, i - 1);
      assert a[..i] == a[..i - 1] + [a[i - 1]] && b[..i] == b[..i - 1] + [b[i - 1]];
    }
  }

  lemma NotLonger(size: Json -> nat, cap: nat, input: Json, a: seq<string>, b: seq<string>)
    requires input.Object? && Run(size, cap, input, a) && Run(size, cap, input, b)
    ensures |a| >= |b|
  {
    hide SizeAfter, Before;
    if |a| < |b| {
      var n := |a|;
      PrefixIsDetermined(input.fields, a, b, n);
      assert a[..n] == a;
      assert GoesOn(size, cap, input, b, n);
      if n > 0 {
        assert b[..n - 1] == b[..n][..n - 1];
      }
      NotAmongEarlier(input.fields, b, n);
    }
  }

  lemma NotAmongEarlier(fields: map<string, Json>, b: seq<string>, n: nat)
    requires Ranked(fields, b) && n < |b|
    ensures b[n] in fields && Candidate(fields, b[n]) && b[n] !in b[..n]
  {
    hide Before;
    BeforeIsTotal(fields, b[n], b[n]);
    assert forall i :: 0 <= i < n ==> b[..n][i] == b[i];
  }

  /** Two runs over the same input remove the same fields in the same order. */
  lemma RunIsDetermined(size: Json -> nat, cap: nat, input: Json, a: seq<string>, b: seq<string>)
    requires input.Object? && Run(size, cap, input, a) && Run(size, cap, input, b)
    ensures a == b
  {
    NotLonger(size, cap, input, a, b);
    NotLonger(size, cap, input, b, a);
    hide GoesOn, Stops, Ranked;
    PrefixIsDetermined(input.fields, a, b, |a|);
    assert a[..|a|] == a && b[..|a|] == b;
  }

  /** Every record is recognised as a marker, whatever it carries over. */
  lemma RecordIsMarker(prior: Option<Json>, fields: map<string, Json>, removed: seq<string>)
    requires removed != []
    ensures IsMarker(FullRecord(prior, fields, removed))
  {
    hide Length, Entries, PriorEntries;
    var marker := FullRecord(prior, fields, removed);
    assert MARK !in marker.fields;
  }

  /** What a second pass removes. */
  ghost predicate Again(size: Json -> nat, cap: nat, out: Json, again: seq<string>) {
    if out.Object? && !IsMarker(out) then Run(size, cap, out, again) else again == []
  }

  /** After a removal the result is a marker exactly when a marker could be put there. */
  lemma RemovedIsMarked(input: Json, removed: seq<string>)
    requires input.Object? && MARK !in removed && removed != []
    ensures IsMarker(MarkAll(input, removed)) <==> (MARK in input.fields ==> input.fields[MARK].Object?)
  {
    hide MarkAll, FullRecord;
    RunMarks(input, removed);
    RecordIsMarker(Get(input.fields, MARK), input.fields, removed);
  }

  lemma SameCandidates(input: Json, removed: seq<string>, out: Json)
    requires input.Object? && Keeps(input, removed, out)
    ensures Exhausted(out.fields, []) <==> Exhausted(input.fields, removed)
  {
  }

  /** For any size at all: a second pass goes on only where the first stopped for want of gain and left no marker. */
  lemma SecondPassIff(size: Json -> nat, cap: nat, input: Json, removed: seq<string>, again: seq<string>)
    requires input.Object? && !IsMarker(input) && Run(size, cap, input, removed)
    requires Again(size, cap, MarkAll(input, removed), again)
    ensures again == [] <==>
      || removed == []
      || (MARK in input.fields ==> input.fields[MARK].Object?)
      || SizeAfter(size, input, removed) <= cap
      || Exhausted(input.fields, removed)
  {
    var out := MarkAll(input, removed);
    MarkAllKeeps(input, removed);
    assert MARK !in removed;
    if removed == [] {
      NothingRemoved(input);
      RunIsDetermined(size, cap, input, removed, again);
    } else {
      RemovedIsMarked(input, removed);
      if !IsMarker(out) {
        SameCandidates(input, removed, out);
        hide IsMarker, Ranked, Exhausted;
        EmptyRunIff(size, cap, out, again);
        assert SizeAfter(size, out, []) == SizeAfter(size, input, removed) by { NothingRemoved(out); }
      }
    }
  }

  lemma EmptyRunIff(size: Json -> nat, cap: nat, input: Json, removed: seq<string>)
    requires input.Object? && Run(size, cap, input, removed)
    ensures removed == [] <==> SizeAfter(size, input, []) <= cap || Exhausted(input.fields, [])
  {
    hide SizeAfter;
    if removed != [] {
      assert GoesOn(size, cap, input, removed, 0);
      assert removed[..0] == [];
      NotAmongEarlier(input.fields, removed, 0);
    }
  }

  // ----- Sizes of written values -----

  /** An object without one of its fields is written shorter. */
  ghost predicate FieldsTakeRoom(size: Json -> nat) {
    forall m: map<string, Json>, k: string :: k in m ==> Shorter(size, m, k)
  }

  ghost predicate Shorter(size: Json -> nat, m: map<string, Json>, k: string) {
    size(Object(m - {k})) < size(Object(m))
  }

  /** Beside a value that is no object, removing a field leaves nothing in its place. */
  lemma RemovalBesideValue(before: Json, k: string, bytes: nat)
    requires before.Object? && MARK in before.fields && !before.fields[MARK].Object? && k != MARK
    ensures Mark(before, k, bytes) == Object(before.fields - {k})
  {
    var rest := before.fields - {k};
    assert rest[MARK := rest[MARK]] == rest;
  }

  /** ... so the last removal of a run made the input smaller. */
  lemma LastRemovalGains(size: Json -> nat, input: Json, removed: seq<string>)
    requires FieldsTakeRoom(size) && input.Object? && MARK in input.fields && !input.fields[MARK].Object?
    requires Ranked(input.fields, removed) && removed != []
    ensures SizeAfter(size, input, removed) < SizeAfter(size, input, removed[..|removed| - 1])
  {
    var n := |removed| - 1;
    var init, k := removed[..n], removed[n];
    assert removed == init + [k] && MARK !in init && k != MARK;
    NotAmongEarlier(input.fields, removed, n);
    MarkAllSnoc(input, init, k);
    MarkAllKeeps(input, init);
    PriorValueHidesRecord(input, init);
    hide MarkAll, Ranked;
    var before := MarkAll(input, init);
    RemovalBesideValue(before, k, Length(input.fields, k));
    assert k in before.fields && Shorter(size, before.fields, k);
  }

  /** Redaction is idempotent on every object, whatever its `_redacted` field held: a second pass removes nothing. */
  lemma RedactTwice(size: Json -> nat, cap: nat, input: Json, removed: seq<string>, again: seq<string>)
    requires FieldsTakeRoom(size)
    requires input.Object? && !IsMarker(input) && Run(size, cap, input, removed)
    requires Again(size, cap, MarkAll(input, removed), again)
    ensures again == []
  {
    SecondPassIff(size, cap, input, removed, again);
    hide IsMarker, MarkAll, SizeAfter, Again, FieldsTakeRoom, GoesOn;
    if removed != [] && MARK in input.fields && !input.fields[MARK].Object? {
      LastRemovalGains(size, input, removed);
    }
  }
}
