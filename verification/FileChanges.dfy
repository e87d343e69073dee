/** Folding the file mutations of a turn into one net entry per path. */
module FileChanges {
  import opened Sequences
  import opened Text

  datatype FileChangeKind = Create | Modify | Delete

  /** A `u32` line count. */
  type Count = n: nat | n < 0x1_0000_0000 witness 0

  const COUNT_MAX: nat := 0xFFFF_FFFF

  datatype FileChange = FileChange(path: string, kind: FileChangeKind, linesAdded: Count, linesRemoved: Count)

  /** The value of a sum that stops at the largest `u32`. */
  function Saturated(n: nat): Count {
    if n <= COUNT_MAX then n else COUNT_MAX
  }

  /** The kind after one more change; `None` when the entry is dropped. */
  function NetKind(existing: FileChangeKind, next: FileChangeKind): Option<FileChangeKind> {
    match (existing, next)
    case (Create, Modify) => Some(Create)
    case (Create, Delete) => None
    case (Modify, Modify) => Some(Modify)
    case (Modify, Delete) => Some(Delete)
    case (Delete, Create) => Some(Modify)
    case (Delete, Modify) => Some(Modify)
    case (_, _) => Some(next)
  }

  /** An entry merged with a further change to the same path. */
  function Merged(existing: FileChange, change: FileChange): Option<FileChange> {
    match NetKind(existing.kind, change.kind)
    case None => None
    case Some(kind) =>
      Some(FileChange(existing.path, kind,
                      Saturated(existing.linesAdded + change.linesAdded),
                      Saturated(existing.linesRemoved + change.linesRemoved)))
  }

  /** Where the entry of `path` is, or the length when there is none. */
  function Position(changes: seq<FileChange>, path: string): (i: nat)
    ensures i <= |changes|
    ensures i < |changes| ==> changes[i].path == path
    ensures forall j :: 0 <= j < i ==> changes[j].path != path
  {
    if changes == [] || changes[0].path == path then 0 else 1 + Position(changes[1..], path)
  }

  function Without(changes: seq<FileChange>, path: string): seq<FileChange> {
    Filter((c: FileChange) => c.path != path, changes)
  }

  function Recorded(changes: seq<FileChange>, change: FileChange): seq<FileChange> {
    var i := Position(changes, change.path);
    if i == |changes| then changes + [change]
    else match Merged(changes[i], change)
      case Some(entry) => changes[i := entry]
      case None => Without(changes, change.path)
  }

  class ChangeLog {
    var fileChanges: seq<FileChange>

    constructor ()
      ensures fileChanges == []
    {
      fileChanges := [];
    }

    /** `record_file_change`. */
    method Record(change: FileChange)
      modifies this
      ensures fileChanges == Recorded(old(fileChanges), change)
    {
      var i := 0;
      while i < |fileChanges| && fileChanges[i].path != change.path
        invariant 0 <= i <= |fileChanges|
        invariant forall j :: 0 <= j < i ==> fileChanges[j].path != change.path
      {
        i := i + 1;
      }
      assert i == Position(fileChanges, change.path);
      if i < |fileChanges| {
        var existing := fileChanges[i];
        var kind := existing.kind;
        match (existing.kind, change.kind) {
          case (Create, Modify) =>
          case (Create, Delete) =>
            fileChanges := Without(fileChanges, change.path);
            return;
          case (Modify, Modify) =>
          case (Modify, Delete) => kind := Delete;
          case (Delete, Create) => kind := Modify;
          case (Delete, Modify) => kind := Modify;
          case (_, _) => kind := change.kind;
        }
        var entry := FileChange(existing.path, kind,
                                Saturated(existing.linesAdded + change.linesAdded),
                                Saturated(existing.linesRemoved + change.linesRemoved));
        fileChanges := fileChanges[i := entry];
      } else {
        fileChanges := fileChanges + [change];
      }
    }
  }

  ghost predicate InPlace(changes: seq<FileChange>, path: string, i: nat, kept: seq<FileChange>, out: seq<FileChange>) {
    && i < |changes| && changes[i].path == path && |kept| <= 1
    && out == changes[..i] + kept + changes[i + 1..]
  }

  /** A new path comes last; the entry of a known path stays in its place or goes, and the others keep their order. */
  lemma RecordedInPlace(changes: seq<FileChange>, change: FileChange)
    requires OnePerPath(changes)
    ensures
      var out := Recorded(changes, change);
      if forall i :: 0 <= i < |changes| ==> changes[i].path != change.path then out == changes + [change]
      else exists i: nat, kept :: InPlace(changes, change.path, i, kept, out)
  {
    var i := Position(changes, change.path);
    if i < |changes| {
      WithoutOne(changes, i);
      hide OnePerPath, Without, Merged;
      match Merged(changes[i], change)
      case Some(entry) =>
        ReplacedInPlace(changes, i, entry);
        assert InPlace(changes, change.path, i, [entry], Recorded(changes, change));
      case None =>
        assert changes[..i] + [] == changes[..i];
        assert InPlace(changes, change.path, i, [], Recorded(changes, change));
    }
  }

  lemma ReplacedInPlace(changes: seq<FileChange>, i: nat, entry: FileChange)
    requires i < |changes|
    ensures changes[i := entry] == changes[..i] + [entry] + changes[i + 1..]
  {
  }

  lemma WithoutOne(changes: seq<FileChange>, i: nat)
    requires OnePerPath(changes) && i < |changes|
    ensures Without(changes, changes[i].path) == changes[..i] + changes[i + 1..]
  {
    var path := changes[i].path;
    var front, back := changes[..i], changes[i + 1..];
    WithoutOther(front, path);
    WithoutOther(back, path);
    SplitAround(changes, i);
    hide Filter, OnePerPath;
    var p := (c: FileChange) => c.path != path;
    FilterConcat(p, front + [changes[i]], back);
    FilterSnoc(p, front, changes[i]);
  }

  lemma SplitAround(changes: seq<FileChange>, i: nat)
    requires i < |changes|
    ensures changes == changes[..i] + [changes[i]] + changes[i + 1..]
  {
  }

  lemma WithoutOther(changes: seq<FileChange>, path: string)
    requires forall i :: 0 <= i < |changes| ==> changes[i].path != path
    ensures Without(changes, path) == changes
  {
    hide Filter;
    FilterAll((c: FileChange) => c.path != path, changes);
  }

  /** The list after a whole history of changes. */
  function RecordAll(history: seq<FileChange>): seq<FileChange> {
    if history == [] then []
    else Recorded(RecordAll(history[..|history| - 1]), history[|history| - 1])
  }

  // ----- One entry per path -----

  ghost predicate OnePerPath(changes: seq<FileChange>) {
    forall i, j :: 0 <= i < j < |changes| ==> changes[i].path != changes[j].path
  }

  /** The entry of `path`, if there is one. */
  function EntryOf(changes: seq<FileChange>, path: string): Option<FileChange> {
    var i := Position(changes, path);
    if i < |changes| then Some(changes[i]) else None
  }

  lemma EntryIs(changes: seq<FileChange>, i: nat)
    requires OnePerPath(changes) && i < |changes|
    ensures EntryOf(changes, changes[i].path) == Some(changes[i])
  {
    var k := Position(changes, changes[i].path);
    assert k <= i;
  }

  lemma NoEntry(changes: seq<FileChange>, path: string)
    requires forall i :: 0 <= i < |changes| ==> changes[i].path != path
    ensures EntryOf(changes, path) == None
  {
  }

  lemma WithoutMembers(changes: seq<FileChange>, path: string)
    ensures forall c :: c in Without(changes, path) <==> c in changes && c.path != path
  {
    hide Filter;
    FilterMembers((c: FileChange) => c.path != path, changes);
  }

  lemma {:induction false} WithoutKeeps(changes: seq<FileChange>, path: string)
    requires OnePerPath(changes)
    ensures OnePerPath(Without(changes, path))
  {
    hide Filter;
    if changes != [] {
      var init, last := changes[..|changes| - 1], changes[|changes| - 1];
      assert changes == init + [last];
      assert forall i :: 0 <= i < |init| ==> init[i] == changes[i];
      WithoutKeeps(init, path);
      FilterSnoc((c: FileChange) => c.path != path, init, last);
      WithoutMembers(init, path);
      OnePerPathSnoc(Without(init, path), last);
    } else {
      FilterNone((c: FileChange) => c.path != path, changes);
    }
  }

  lemma OnePerPathSnoc(changes: seq<FileChange>, last: FileChange)
    requires OnePerPath(changes) && forall c :: c in changes ==> c.path != last.path
    ensures OnePerPath(changes + [last])
  {
  }

  lemma WithoutEntry(changes: seq<FileChange>, path: string, other: string)
    requires OnePerPath(changes)
    ensures EntryOf(Without(changes, path), other) == if other == path then None else EntryOf(changes, other)
  {
    hide Filter;
    WithoutKeeps(changes, path);
    WithoutMembers(changes, path);
    var rest := Without(changes, path);
    assert forall i :: 0 <= i < |rest| ==> rest[i] in rest;
    var i := Position(changes, other);
    if other != path && i < |changes| {
      assert changes[i] in rest;
      var j :| 0 <= j < |rest| && rest[j] == changes[i];
      EntryIs(rest, j);
    } else {
      assert forall j :: 0 <= j < |rest| ==> rest[j] in changes;
      NoEntry(rest, other);
    }
  }

  /** What one change does to the entry of its path. */
  function NextEntry(entry: Option<FileChange>, change: FileChange): Option<FileChange> {
    match entry
    case None => Some(change)
    case Some(existing) => Merged(existing, change)
  }

  function EntryAfter(changes: seq<FileChange>, change: FileChange, path: string): Option<FileChange> {
    if path == change.path then NextEntry(EntryOf(changes, path), change) else EntryOf(changes, path)
  }

  /** One change keeps one entry per path, updates its own path's entry and leaves the others alone. */
  lemma RecordedEntries(changes: seq<FileChange>, change: FileChange)
    requires OnePerPath(changes)
    ensures OnePerPath(Recorded(changes, change))
    ensures forall path :: EntryOf(Recorded(changes, change), path) == EntryAfter(changes, change, path)
  {
    var i := Position(changes, change.path);
    WithoutKeeps(changes, change.path);
    forall path
      ensures EntryOf(Recorded(changes, change), path) == EntryAfter(changes, change, path)
    {
      if i == |changes| {
        PushedEntry(changes, change, path);
      } else {
        match Merged(changes[i], change)
        case None => WithoutEntry(changes, change.path, path);
        case Some(entry) => ReplacedEntry(changes, i, entry, path);
      }
    }
  }

  lemma PushedEntry(changes: seq<FileChange>, change: FileChange, path: string)
    requires OnePerPath(changes) && forall i :: 0 <= i < |changes| ==> changes[i].path != change.path
    ensures EntryOf(changes + [change], path) == if path == change.path then Some(change) else EntryOf(changes, path)
  {
    var longer := changes + [change];
    SameEntries(changes, longer, path);
    if path == change.path {
      EntryIs(longer, |changes|);
    }
  }

  /** Two lists that agree on every position of `path`, or have none, have the same entry. */
  lemma SameEntries(a: seq<FileChange>, b: seq<FileChange>, path: string)
    requires |a| <= |b|
    requires forall i :: 0 <= i < |a| ==> a[i].path == b[i].path
    requires forall i :: 0 <= i < |a| && a[i].path == path ==> a[i] == b[i]
    ensures Position(a, path) < |a| ==> EntryOf(a, path) == EntryOf(b, path)
    ensures (forall i :: |a| <= i < |b| ==> b[i].path != path) ==> EntryOf(a, path) == EntryOf(b, path)
  {
    var i, j := Position(a, path), Position(b, path);
    if i < |a| {
      assert j <= i;
      assert a[j].path == b[j].path;
    } else {
      assert forall k :: 0 <= k < |a| ==> b[k].path != path;
    }
  }

  lemma ReplacedEntry(changes: seq<FileChange>, i: nat, entry: FileChange, path: string)
    requires OnePerPath(changes) && i < |changes| && entry.path == changes[i].path
    ensures EntryOf(changes[i := entry], path) == if path == entry.path then Some(entry) else EntryOf(changes, path)
  {
    var updated := changes[i := entry];
    if path == entry.path {
      EntryIs(updated, i);
    } else {
      SameEntries(changes, updated, path);
    }
  }

  /** The entry of `path` after a history, from the changes to that path alone. */
  function Entry(history: seq<FileChange>, path: string): Option<FileChange> {
    if history == [] then None
    else
      var init, last := history[..|history| - 1], history[|history| - 1];
      if last.path == path then NextEntry(Entry(init, path), last) else Entry(init, path)
  }

  /** After any history: at most one entry per path, and each path's entry depends only on its own changes. */
  lemma {:induction false} OneEntryPerPath(history: seq<FileChange>)
    ensures OnePerPath(RecordAll(history))
    ensures forall path :: EntryOf(RecordAll(history), path) == Entry(history, path)
  {
    hide Recorded, NextEntry, EntryOf;
    if history != [] {
      OneEntryPerPath(history[..|history| - 1]);
      RecordedEntries(RecordAll(history[..|history| - 1]), history[|history| - 1]);
    } else {
      forall path ensures EntryOf(RecordAll([]), path) == None {
        NoEntry([], path);
      }
    }
  }

  // ----- The net effect -----

  /** Whether the file exists after the history, given whether it did before. */
  function Exists(before: bool, history: seq<FileChange>, path: string): bool {
    if history == [] then before
    else
      var init, last := history[..|history| - 1], history[|history| - 1];
      if last.path == path then last.kind != Delete else Exists(before, init, path)
  }

  /** Files are created when absent, and modified and deleted when present. */
  ghost predicate Consistent(before: bool, history: seq<FileChange>, path: string) {
    forall i :: 0 <= i < |history| && history[i].path == path ==>
      (history[i].kind == Create <==> !Exists(before, history[..i], path))
  }

  predicate Touched(history: seq<FileChange>, path: string) {
    exists i :: 0 <= i < |history| && history[i].path == path
  }

  /** What comparing the file before and after the history shows. */
  function NetEffect(before: bool, touched: bool, after: bool): Option<FileChangeKind> {
    if !before && after then Some(Create)
    else if before && !after then Some(Delete)
    else if before && after && touched then Some(Modify)
    else None
  }

  lemma ConsistentInit(before: bool, history: seq<FileChange>, path: string)
    requires Consistent(before, history, path) && history != []
    ensures Consistent(before, history[..|history| - 1], path)
  {
    hide Exists;
    var n := |history| - 1;
    var init := history[..n];
    forall i | 0 <= i < n && init[i].path == path
      ensures init[i].kind == Create <==> !Exists(before, init[..i], path)
    {
      assert history[i].path == path;
      assert init[..i] == history[..i];
    }
  }

  lemma TouchedSnoc(history: seq<FileChange>, path: string)
    requires history != []
    ensures Touched(history, path) <==> Touched(history[..|history| - 1], path) || history[|history| - 1].path == path
  {
    var init := history[..|history| - 1];
    assert forall i :: 0 <= i < |init| ==> init[i] == history[i];
  }

  lemma {:induction false} KindIsNetEffect(before: bool, history: seq<FileChange>, path: string)
    requires Consistent(before, history, path)
    ensures
      var kind := match Entry(history, path) case Some(e) => Some(e.kind) case None => None;
      kind == NetEffect(before, Touched(history, path), Exists(before, history, path))
  {
    if history != [] {
      var init, last := history[..|history| - 1], history[|history| - 1];
      ConsistentInit(before, history, path);
      KindIsNetEffect(before, init, path);
      UntouchedStays(before, init, path);
      assert last.path == path ==> (last.kind == Create <==> !Exists(before, init, path));
      TouchedSnoc(history, path);
      hide Consistent, Touched;
    }
  }

  lemma {:induction false} UntouchedStays(before: bool, history: seq<FileChange>, path: string)
    ensures !Touched(history, path) ==> Exists(before, history, path) == before
  {
    if history != [] {
      var n := |history| - 1;
      var init := history[..n];
      assert forall i :: 0 <= i < n ==> init[i] == history[i];
      UntouchedStays(before, init, path);
    }
  }

  /** For histories that agree with what exists, the recorded list is the net effect of the turn. */
  lemma RecordedListIsNetEffect(before: bool, history: seq<FileChange>, path: string)
    requires Consistent(before, history, path)
    ensures
      var effect := NetEffect(before, Touched(history, path), Exists(before, history, path));
      match EntryOf(RecordAll(history), path)
      case Some(e) => e.path == path && effect == Some(e.kind)
      case None => effect == None
  {
    hide RecordAll, Entry, Exists, Touched;
    OneEntryPerPath(history);
    KindIsNetEffect(before, history, path);
  }

  // ----- Line counts -----

  /** The changes to `path` from position `k` of the history on. */
  function Added(history: seq<FileChange>, path: string, k: nat): nat
    requires k <= |history|
  {
    if |history| == k then 0
    else
      var init, last := history[..|history| - 1], history[|history| - 1];
      Added(init, path, k) + if last.path == path then last.linesAdded else 0
  }

  function Removed(history: seq<FileChange>, path: string, k: nat): nat
    requires k <= |history|
  {
    if |history| == k then 0
    else
      var init, last := history[..|history| - 1], history[|history| - 1];
      Removed(init, path, k) + if last.path == path then last.linesRemoved else 0
  }

  /** The last moment of the history at which `path` has no entry. */
  ghost predicate LastAbsent(history: seq<FileChange>, path: string, k: nat) {
    && k <= |history|
    && Entry(history[..k], path) == None
    && forall j :: k < j <= |history| ==> Entry(history[..j], path).Some?
  }

  /** The entry's counts are the saturating sums of the changes since the path last entered the list. */
  lemma {:induction false} CountsSinceEntered(history: seq<FileChange>, path: string) returns (k: nat)
    ensures LastAbsent(history, path, k)
    ensures match Entry(history, path)
      case Some(e) =>
        && e.linesAdded == Saturated(Added(history, path, k))
        && e.linesRemoved == Saturated(Removed(history, path, k))
      case None => k == |history|
  {
    assert history[..|history|] == history;
    if Entry(history, path) == None {
      k := |history|;
    } else {
      var n := |history| - 1;
      var init := history[..n];
      k := CountsSinceEntered(init, path);
      assert forall j :: 0 <= j <= n ==> init[..j] == history[..j];
      LastAbsentGrows(history, path, k);
    }
  }

  /** The same, of the recorded list. */
  lemma RecordedCounts(history: seq<FileChange>, path: string) returns (k: nat)
    ensures LastAbsent(history, path, k)
    ensures match EntryOf(RecordAll(history), path)
      case Some(e) =>
        && e.linesAdded == (if Added(history, path, k) < 0x1_0000_0000 then Added(history, path, k) else 0xFFFF_FFFF)
        && e.linesRemoved == (if Removed(history, path, k) < 0x1_0000_0000 then Removed(history, path, k) else 0xFFFF_FFFF)
      case None => k == |history|
  {
    hide RecordAll, Entry, Added, Removed;
    OneEntryPerPath(history);
    k := CountsSinceEntered(history, path);
  }

  lemma LastAbsentGrows(history: seq<FileChange>, path: string, k: nat)
    requires history != [] && Entry(history, path).Some?
    requires LastAbsent(history[..|history| - 1], path, k)
    ensures LastAbsent(history, path, k)
  {
    hide Entry;
    var n := |history| - 1;
    var init := history[..n];
    assert init[..k] == history[..k];
    forall j | k < j <= |history|
      ensures Entry(history[..j], path).Some?
    {
      if j <= n {
        assert init[..j] == history[..j];
      } else {
        assert history[..j] == history;
      }
    }
  }

  // ----- Exactly which histories are reported as their net effect -----

  /** `j` is the last change to `path` at or after `k` and before `n`. */
  ghost predicate Latest(history: seq<FileChange>, path: string, k: nat, n: nat, j: nat) {
    && k <= j < n <= |history| && history[j].path == path
    && forall i :: j < i < n ==> history[i].path != path
  }

  /** A creation at `i` that does not follow a deletion recorded since `k`. */
  ghost predicate CreatedAt(history: seq<FileChange>, path: string, k: nat, i: nat) {
    && k <= i < |history| && history[i].path == path && history[i].kind == Create
    && forall j: nat :: Latest(history, path, k, i, j) ==> history[j].kind != Delete
  }

  /** Since `k` the path was created, other than over a deletion. */
  ghost predicate CreatedSince(history: seq<FileChange>, path: string, k: nat) {
    exists i: nat :: CreatedAt(history, path, k, i)
  }

  ghost predicate DeletedLast(history: seq<FileChange>, path: string, k: nat) {
    exists j: nat :: Latest(history, path, k, |history|, j) && history[j].kind == Delete
  }

  lemma LatestPrefix(history: seq<FileChange>, path: string, k: nat, n: nat, j: nat)
    requires history != [] && n < |history|
    ensures Latest(history, path, k, n, j) <==> Latest(history[..|history| - 1], path, k, n, j)
  {
    var init := history[..|history| - 1];
    assert forall i :: 0 <= i < n ==> init[i] == history[i];
  }

  lemma CreatedPrefix(history: seq<FileChange>, path: string, k: nat, i: nat)
    requires history != [] && i + 1 < |history|
    ensures CreatedAt(history, path, k, i) <==> CreatedAt(history[..|history| - 1], path, k, i)
  {
    hide Latest;
    var init := history[..|history| - 1];
    assert init[i] == history[i];
    forall j: nat
      ensures Latest(history, path, k, i, j) <==> Latest(init, path, k, i, j)
      ensures Latest(init, path, k, i, j) ==> j < |init| && init[j] == history[j]
    {
      LatestPrefix(history, path, k, i, j);
      LatestInside(init, path, k, i, j);
    }
  }

  lemma LatestInside(history: seq<FileChange>, path: string, k: nat, n: nat, j: nat)
    ensures Latest(history, path, k, n, j) ==> k <= j < n <= |history|
  {
  }

  /** How the last change of a history bears on the two questions. */
  lemma CreatedSnoc(history: seq<FileChange>, path: string, k: nat)
    requires history != [] && k < |history|
    ensures
      var n := |history| - 1;
      var init, last := history[..n], history[n];
      CreatedSince(history, path, k) <==>
        CreatedSince(init, path, k) || (last.path == path && last.kind == Create && !DeletedLast(init, path, k))
  {
    hide Latest, CreatedAt;
    var n := |history| - 1;
    var init := history[..n];
    forall i: nat | i < n
      ensures CreatedAt(history, path, k, i) <==> CreatedAt(init, path, k, i)
    {
      CreatedPrefix(history, path, k, i);
    }
    CreatedAtLast(history, path, k);
    CreatedInside(history, path, k);
    CreatedInside(init, path, k);
  }

  lemma CreatedInside(history: seq<FileChange>, path: string, k: nat)
    ensures forall i: nat :: CreatedAt(history, path, k, i) ==> i < |history|
  {
  }

  lemma CreatedAtLast(history: seq<FileChange>, path: string, k: nat)
    requires history != [] && k < |history|
    ensures
      var n := |history| - 1;
      CreatedAt(history, path, k, n) <==>
        history[n].path == path && history[n].kind == Create && !DeletedLast(history[..n], path, k)
  {
    hide Latest;
    var n := |history| - 1;
    var init := history[..n];
    forall j: nat
      ensures Latest(history, path, k, n, j) <==> Latest(init, path, k, n, j)
      ensures Latest(init, path, k, n, j) ==> j < n && init[j] == history[j]
    {
      LatestPrefix(history, path, k, n, j);
      LatestInside(init, path, k, n, j);
    }
  }

  lemma DeletedSnoc(history: seq<FileChange>, path: string, k: nat)
    requires history != [] && k < |history|
    ensures
      var n := |history| - 1;
      DeletedLast(history, path, k) <==>
        if history[n].path == path then history[n].kind == Delete else DeletedLast(history[..n], path, k)
  {
    var n := |history| - 1;
    var init := history[..n];
    if history[n].path == path {
      assert Latest(history, path, k, n + 1, n);
      assert forall j: nat :: j < n ==> !Latest(history, path, k, |history|, j);
    } else {
      assert forall i :: 0 <= i < n ==> init[i] == history[i];
      assert forall j: nat :: Latest(history, path, k, |history|, j) <==> Latest(init, path, k, |init|, j);
    }
  }

  /** A surviving entry is a creation, or a deletion, exactly as the changes since it last entered say. */
  lemma {:induction false} KindSinceEntered(history: seq<FileChange>, path: string, k: nat)
    requires LastAbsent(history, path, k) && Entry(history, path).Some?
    ensures Entry(history, path).value.kind == Create <==> CreatedSince(history, path, k)
    ensures Entry(history, path).value.kind == Delete <==> DeletedLast(history, path, k)
  {
    assert history[..|history|] == history;
    var n := |history| - 1;
    var init, last := history[..n], history[n];
    LastAbsentShrinks(history, path, k);
    CreatedSnoc(history, path, k);
    DeletedSnoc(history, path, k);
    hide CreatedSince, DeletedLast, LastAbsent;
    if Entry(init, path).None? {
      AbsentNow(init, path, k);
    } else {
      KindSinceEntered(init, path, k);
    }
  }

  lemma LastAbsentShrinks(history: seq<FileChange>, path: string, k: nat)
    requires LastAbsent(history, path, k) && Entry(history, path).Some?
    ensures k < |history| && LastAbsent(history[..|history| - 1], path, k)
  {
    hide Entry;
    assert history[..|history|] == history;
    var n := |history| - 1;
    assert forall j :: 0 <= j <= n ==> history[..n][..j] == history[..j];
  }

  lemma AbsentNow(history: seq<FileChange>, path: string, k: nat)
    requires LastAbsent(history, path, k) && Entry(history, path).None?
    ensures k == |history| && !CreatedSince(history, path, k) && !DeletedLast(history, path, k)
  {
    assert history[..|history|] == history;
  }

  function KindOf(entry: Option<FileChange>): Option<FileChangeKind> {
    match entry case Some(e) => Some(e.kind) case None => None
  }

  /** Deletion is reported last or not at all, whatever came before. */
  lemma {:induction false} KindAfter(before: bool, history: seq<FileChange>, path: string)
    ensures
      var after := Exists(before, history, path);
      match Entry(history, path)
      case Some(e) => Touched(history, path) && (e.kind == Delete <==> !after)
      case None => Touched(history, path) ==> !after
  {
    if history != [] {
      KindAfter(before, history[..|history| - 1], path);
      TouchedSnoc(history, path);
      hide Touched;
    }
  }

  /**
   * Over all histories, consistent or not: what is reported is the net effect exactly when a surviving entry
   * was created since it entered, other than over a deletion, just if the file was absent at first; and, if no
   * entry survives, when the path was untouched or absent at first.
   */
  lemma NetEffectIff(before: bool, history: seq<FileChange>, path: string, k: nat)
    requires LastAbsent(history, path, k)
    ensures
      var entry := EntryOf(RecordAll(history), path);
      KindOf(entry) == NetEffect(before, Touched(history, path), Exists(before, history, path)) <==>
        if entry.Some? then CreatedSince(history, path, k) <==> !before else !Touched(history, path) || !before
  {
    hide RecordAll, Entry, Exists, Touched, CreatedSince, DeletedLast, LastAbsent, EntryOf;
    OneEntryPerPath(history);
    KindAfter(before, history, path);
    UntouchedStays(before, history, path);
    if Entry(history, path).Some? {
      KindSinceEntered(history, path, k);
    }
  }

  // ----- What the gateway records -----

  /** The kind recorded for a tool call; whether the path existed is known only with a base path. */
  function InferredKind(tool: string, existed: Option<bool>): Option<FileChangeKind> {
    if tool == "write_file" then Some(if existed == Some(false) then Create else Modify)
    else if tool == "edit_file" then Some(Modify)
    else if tool == "delete_file" then if existed == Some(false) then None else Some(Delete)
    else None
  }

  /** All changes to the path were recorded without a base path, as the kernel gateway does. */
  ghost predicate FromGateway(history: seq<FileChange>, path: string) {
    forall i :: 0 <= i < |history| && history[i].path == path ==>
      exists tool :: InferredKind(tool, None) == Some(history[i].kind)
  }

  lemma {:induction false} GatewayNeverDrops(history: seq<FileChange>, path: string)
    requires forall i :: 0 <= i < |history| && history[i].path == path ==> history[i].kind != Create
    ensures match Entry(history, path)
      case Some(e) => Touched(history, path) && e.kind != Create
      case None => !Touched(history, path)
  {
    if history != [] {
      var n := |history| - 1;
      assert forall i :: 0 <= i < n ==> history[..n][i] == history[i];
      GatewayNeverDrops(history[..n], path);
      TouchedSnoc(history, path);
      assert history[n].path == path ==> history[n].kind != Create;
      hide Touched;
    }
  }

  /** Through the gateway a path is reported as its net effect exactly when it was untouched or there before. */
  lemma GatewayNetEffectIff(before: bool, history: seq<FileChange>, path: string)
    requires FromGateway(history, path)
    ensures
      KindOf(EntryOf(RecordAll(history), path)) == NetEffect(before, Touched(history, path), Exists(before, history, path))
      <==> before || !Touched(history, path)
  {
    forall i | 0 <= i < |history| && history[i].path == path
      ensures history[i].kind != Create
    {
      var tool :| InferredKind(tool, None) == Some(history[i].kind);
    }
    hide RecordAll, Entry, Exists, Touched, EntryOf, FromGateway;
    OneEntryPerPath(history);
    GatewayNeverDrops(history, path);
    KindAfter(before, history, path);
    UntouchedStays(before, history, path);
  }

  /** A new file written through the gateway, and there at the end, is reported as modified. */
  lemma NewFileReadsAsModified(history: seq<FileChange>, path: string)
    requires FromGateway(history, path) && Touched(history, path) && Exists(false, history, path)
    ensures KindOf(EntryOf(RecordAll(history), path)) == Some(Modify)
    ensures NetEffect(false, Touched(history, path), Exists(false, history, path)) == Some(Create)
  {
    forall i | 0 <= i < |history| && history[i].path == path
      ensures history[i].kind != Create
    {
      var tool :| InferredKind(tool, None) == Some(history[i].kind);
    }
    hide RecordAll, Entry, Exists, Touched, EntryOf, FromGateway;
    OneEntryPerPath(history);
    GatewayNeverDrops(history, path);
    KindAfter(false, history, path);
  }
}
