/** A run of redaction over a tool input, told in terms of its fields and of the written record alone. */
module RedactInputLaws {
  import opened Text
  import opened Transcript
  import opened RedactInput

  /** A top-level string with something in it, other than the marker's own field. */
  ghost predicate Redactable(fields: map<string, Json>, k: string) {
    k in fields && k != "_redacted" && fields[k].String? && |fields[k].s| > 0
  }

  /** `a` goes before `b`: it has more bytes, or as many and the greater key. */
  ghost predicate GoesFirst(fields: map<string, Json>, a: string, b: string)
    requires Redactable(fields, a) && Redactable(fields, b)
  {
    var m, n := ByteLen(fields[a].s), ByteLen(fields[b].s);
    m > n || (m == n && exists k: nat :: DiffersAt(b, a, k))
  }

  lemma GoesFirstIff(fields: map<string, Json>, a: string, b: string)
    requires Redactable(fields, a) && Redactable(fields, b)
    ensures Before(fields, a, b) <==> GoesFirst(fields, a, b)
  {
    var k := LessIff(b, a);
    hide ByteLen, Less, DiffersAt;
  }

  /** Largest first, and every field that stays after all that go. */
  lemma RemovedInOrder(fields: map<string, Json>, removed: seq<string>)
    requires Ranked(fields, removed)
    ensures forall i :: 0 <= i < |removed| ==> Redactable(fields, removed[i])
    ensures forall i, j :: 0 <= i < j < |removed| ==> GoesFirst(fields, removed[i], removed[j])
    ensures forall i, k :: 0 <= i < |removed| && Redactable(fields, k) && k !in removed ==> GoesFirst(fields, removed[i], k)
  {
    hide Before, GoesFirst;
    forall i, j | 0 <= i < j < |removed|
      ensures GoesFirst(fields, removed[i], removed[j])
    {
      GoesFirstIff(fields, removed[i], removed[j]);
    }
    forall i, k | 0 <= i < |removed| && Redactable(fields, k) && k !in removed
      ensures GoesFirst(fields, removed[i], k)
    {
      GoesFirstIff(fields, removed[i], k);
    }
  }

  /** A run stops only when the input fits, no redactable string is left, or the last removal gained nothing. */
  lemma StoppedBecause(size: Json -> nat, cap: nat, input: Json, removed: seq<string>)
    requires input.Object? && Run(size, cap, input, removed)
    ensures
      || size(MarkAll(input, removed)) <= cap
      || (forall k :: Redactable(input.fields, k) ==> k in removed)
      || (removed != [] && size(MarkAll(input, removed)) >= size(MarkAll(input, removed[..|removed| - 1])))
    ensures forall i :: 0 <= i < |removed| ==> size(MarkAll(input, removed[..i])) > cap
    ensures forall i :: 0 < i < |removed| ==>
      size(MarkAll(input, removed[..i])) < size(MarkAll(input, removed[..i - 1]))
  {
    hide MarkAll, Ranked;
    forall i | 0 <= i < |removed|
      ensures size(MarkAll(input, removed[..i])) > cap
      ensures i > 0 ==> size(MarkAll(input, removed[..i])) < size(MarkAll(input, removed[..i - 1]))
    {
      assert GoesOn(size, cap, input, removed, i);
    }
  }

  // ----- The record as written -----

  /** One removed field, in a list of several. */
  ghost function Item(field: string, bytes: nat): Json {
    Object(map["field" := String(field), "bytes" := Natural(bytes)])
  }

  ghost predicate Lists(items: seq<Json>, from: nat, fields: map<string, Json>, removed: seq<string>) {
    && |items| == from + |removed|
    && forall i :: 0 <= i < |removed| ==>
         Redactable(fields, removed[i]) && items[from + i] == Item(removed[i], ByteLen(fields[removed[i]].s))
  }

  /** The record of a run that found nothing to carry over: one field alone, or a list. */
  ghost predicate RecordReads(fields: map<string, Json>, removed: seq<string>, record: Json) {
    if |removed| == 1 then
      Redactable(fields, removed[0]) && record == Object(map[
        "kind" := String("aura_compaction_redaction"), "version" := Natural(1),
        "field" := String(removed[0]), "bytes" := Natural(ByteLen(fields[removed[0]].s))])
    else exists items :: Lists(items, 0, fields, removed) && ListRecord(record, items)
  }

  ghost predicate ListRecord(record: Json, items: seq<Json>) {
    record == Object(map[
      "kind" := String("aura_compaction_redaction"), "version" := Natural(1), "fields" := Array(items)])
  }

  lemma RecordIs(fields: map<string, Json>, removed: seq<string>)
    requires removed != [] && forall i :: 0 <= i < |removed| ==> Redactable(fields, removed[i])
    ensures RecordReads(fields, removed, Record(fields, removed))
  {
    hide ByteLen;
    if |removed| > 1 {
      assert Lists(Entries(fields, removed), 0, fields, removed);
      assert ListRecord(Record(fields, removed), Entries(fields, removed));
    }
  }

  /** A prior list goes on with the removed fields. */
  lemma PriorListGoesOn(items: seq<Json>, prior: map<string, Json>, fields: map<string, Json>, removed: seq<string>)
    requires removed != [] && forall i :: 0 <= i < |removed| ==> Redactable(fields, removed[i])
    requires "fields" in prior && prior["fields"] == Array(items)
    ensures
      var record := FullRecord(Some(Object(prior)), fields, removed);
      exists all :: Lists(all, |items|, fields, removed) && all[..|items|] == items && ListRecord(record, all)
  {
    hide ByteLen;
    var all := items + Entries(fields, removed);
    assert Lists(all, |items|, fields, removed) && all[..|items|] == items;
    assert ListRecord(FullRecord(Some(Object(prior)), fields, removed), all);
  }

  /** A prior single field becomes the first of the list. */
  lemma PriorFieldComesFirst(f: string, n: nat, prior: map<string, Json>, fields: map<string, Json>, removed: seq<string>)
    requires removed != [] && forall i :: 0 <= i < |removed| ==> Redactable(fields, removed[i])
    requires "fields" in prior ==> !prior["fields"].Array?
    requires "field" in prior && prior["field"] == String(f) && "bytes" in prior && prior["bytes"] == Natural(n)
    ensures
      var record := FullRecord(Some(Object(prior)), fields, removed);
      exists all :: Lists(all, 1, fields, removed) && all[0] == Item(f, n) && ListRecord(record, all)
  {
    hide ByteLen;
    var all := [EntryWithoutKind(f, n)] + Entries(fields, removed);
    assert Lists(all, 1, fields, removed) && all[0] == Item(f, n);
    assert ListRecord(FullRecord(Some(Object(prior)), fields, removed), all);
  }

  /** A marker: an object of the right kind with a field or a list of fields, behind any number of `_redacted` fields. */
  lemma MarkerIff(fields: map<string, Json>)
    ensures "_redacted" in fields ==> (IsMarker(Object(fields)) <==> IsMarker(fields["_redacted"]))
    ensures "_redacted" !in fields ==> (IsMarker(Object(fields)) <==>
      && "kind" in fields && fields["kind"] == String("aura_compaction_redaction")
      && (("field" in fields && fields["field"].String?) || ("fields" in fields && fields["fields"].Array?)))
  {
  }
}
