/** Where an error starts and ends in build output, and which of its lines count. */
module SignatureLaws {
  import opened Sequences
  import opened Text
  import opened BuildSignatures

  // ----- Lines -----

  /** The line drops out: empty, a note, a line of source, or a line of underlines. */
  predicate Dropped(w: string) {
    || w == ""
    || StartsWith(w, "For more information")
    || StartsWith(w, "help:")
    || (!StartsWith(w, "-->") && '0' <= w[0] <= '9' && '|' in w)
    || (!StartsWith(w, "-->") && forall c :: c in w ==> c in {'^', '-', ' ', '~', '+'})
  }

  lemma UnderlinesOnly(w: string)
    ensures OnlyUnderlines(w) <==> forall c :: c in w ==> c in {'^', '-', ' ', '~', '+'}
  {
    if OnlyUnderlines(w) {
      forall c | c in w
        ensures c in {'^', '-', ' ', '~', '+'}
      {
        var i :| 0 <= i < |w| && w[i] == c;
        assert IsUnderline(w[i]);
      }
    }
    if forall c :: c in w ==> c in {'^', '-', ' ', '~', '+'} {
      forall i | 0 <= i < |w|
        ensures IsUnderline(w[i])
      {
        assert w[i] in w;
      }
    }
  }

  /** A line counts, without the whitespace around it, as a location, as its masked text, or not at all. */
  lemma LineCounts(line: string)
    ensures
      var w := Trim(line);
      NormalLine(line) ==
        if Dropped(w) then None else if StartsWith(w, "-->") then Some("-->LOCATION") else Some(Mask(w))
  {
    var w := Trim(line);
    MaskFirst(w);
    UnderlinesOnly(w);
    hide Mask, StartsWith, Trim, OnlyUnderlines;
  }

  ghost predicate CountsAs(lines: seq<string>, i: nat, n: string) {
    i < |lines| && NormalLine(lines[i]) == Some(n)
  }

  lemma NoNormalLines()
    ensures NormalLines([]) == []
  {
  }

  /** The normalized lines of a block are what its lines count as. */
  lemma {:induction false} NormalLinesAre(lines: seq<string>, n: string)
    ensures n in NormalLines(lines) <==> exists i: nat :: CountsAs(lines, i, n)
  {
    hide NormalLine, NormalLines;
    if lines == [] {
      NoNormalLines();
    } else {
      var k := |lines| - 1;
      var init := lines[..k];
      NormalLinesUnfold(lines);
      NormalLinesAre(init, n);
      assert forall i: nat :: i < k ==> (CountsAs(lines, i, n) <==> CountsAs(init, i, n));
      assert CountsAs(lines, k, n) <==> NormalLine(lines[k]) == Some(n);
    }
  }

  // ----- Blocks -----

  /** The line begins an error: `error[E` or `error:`, but not the closing `error: aborting`. */
  predicate BeginsError(line: string) {
    var t := TrimStart(line);
    StartsWith(t, "error[E") || (StartsWith(t, "error:") && !StartsWith(t, "error: aborting"))
  }

  lemma BeginsErrorIff(line: string)
    ensures IsStart(line) <==> BeginsError(line)
  {
    hide StartsWith, TrimStart;
  }

  /** The positions at which errors begin, in order. */
  ghost function Starts(lines: seq<string>): seq<nat> {
    if lines == [] then []
    else
      var n := |lines| - 1;
      Starts(lines[..n]) + if BeginsError(lines[n]) then [n] else []
  }

  ghost predicate Ordered(lines: seq<string>, starts: seq<nat>) {
    && (forall k :: 0 <= k < |starts| ==> starts[k] < |lines|)
    && (forall k, l :: 0 <= k < l < |starts| ==> starts[k] < starts[l])
  }

  lemma StartsUnfold(lines: seq<string>)
    requires lines != []
    ensures
      var n := |lines| - 1;
      Starts(lines) == Starts(lines[..n]) + if BeginsError(lines[n]) then [n] else []
  {
    hide BeginsError;
  }

  lemma NoStarts()
    ensures Starts([]) == []
  {
  }

  lemma {:induction false} StartsOrdered(lines: seq<string>)
    ensures Ordered(lines, Starts(lines))
  {
    hide BeginsError, Starts;
    if lines == [] {
      NoStarts();
    } else {
      StartsUnfold(lines);
      StartsOrdered(lines[..|lines| - 1]);
    }
  }

  /** They are exactly the lines that begin an error. */
  lemma {:induction false} StartsAre(lines: seq<string>, i: nat)
    ensures i in Starts(lines) <==> i < |lines| && BeginsError(lines[i])
  {
    hide BeginsError, Starts;
    if lines == [] {
      NoStarts();
    } else {
      var n := |lines| - 1;
      StartsUnfold(lines);
      StartsAre(lines[..n], i);
      assert i < n ==> lines[..n][i] == lines[i];
    }
  }

  /** An error goes on until the next one begins or the output ends. */
  ghost function BlockAt(lines: seq<string>, starts: seq<nat>, k: nat): seq<string>
    requires k < |starts| && (forall i :: 0 <= i < |starts| ==> starts[i] <= |lines|)
    requires k + 1 < |starts| ==> starts[k] <= starts[k + 1]
  {
    lines[starts[k]..if k + 1 < |starts| then starts[k + 1] else |lines|]
  }

  /** The signatures of the first `m` errors, leaving out empty ones. */
  ghost function FirstSignatures(lines: seq<string>, starts: seq<nat>, m: nat): seq<string>
    requires Ordered(lines, starts) && m <= |starts|
  {
    if m == 0 then []
    else
      var sig := Signature(BlockAt(lines, starts, m - 1));
      FirstSignatures(lines, starts, m - 1) + if sig == "" then [] else [sig]
  }

  lemma SameBlock(lines: seq<string>, starts: seq<nat>, more: seq<string>, starts': seq<nat>, k: nat)
    requires Ordered(lines, starts) && Ordered(more, starts') && |lines| <= |more| && more[..|lines|] == lines
    requires |starts| <= |starts'| && starts'[..|starts|] == starts
    requires k + 1 < |starts| || (k + 1 == |starts| && k + 1 < |starts'| && starts'[k + 1] == |lines|)
    ensures BlockAt(lines, starts, k) == BlockAt(more, starts', k)
  {
    assert starts'[k] == starts'[..|starts|][k] == starts[k];
    assert k + 1 < |starts| ==> starts'[k + 1] == starts'[..|starts|][k + 1] == starts[k + 1];
    var lo, hi := starts[k], if k + 1 < |starts| then starts[k + 1] else |lines|;
    assert lines[lo..hi] == more[..|lines|][lo..hi] == more[lo..hi];
  }

  lemma {:induction false} EarlierSignatures(lines: seq<string>, starts: seq<nat>, more: seq<string>, starts': seq<nat>, m: nat)
    requires Ordered(lines, starts) && Ordered(more, starts') && |lines| <= |more| && more[..|lines|] == lines
    requires |starts| <= |starts'| && starts'[..|starts|] == starts
    requires m < |starts| || (m == |starts| && m < |starts'| && starts'[m] == |lines|)
    ensures FirstSignatures(lines, starts, m) == FirstSignatures(more, starts', m)
  {
    hide Signature;
    if m > 0 {
      EarlierSignatures(lines, starts, more, starts', m - 1);
      SameBlock(lines, starts, more, starts', m - 1);
    }
  }

  ghost predicate Scanned(lines: seq<string>, starts: seq<nat>, scan: Scan) {
    && Ordered(lines, starts)
    && if starts == [] then scan == Scan([], [])
       else
         && scan.block == lines[starts[|starts| - 1]..]
         && scan.signatures == FirstSignatures(lines, starts, |starts| - 1)
  }

  /** One more line that begins no error belongs to the error being read, if any. */
  lemma ScanMore(lines: seq<string>, starts: seq<nat>, scan: Scan, line: string)
    requires Scanned(lines, starts, scan) && !IsStart(line)
    ensures Scanned(lines + [line], starts, ScanLine(scan, line))
  {
    hide Signature, IsStart, Emit;
    var more := lines + [line];
    if starts != [] {
      var m := |starts| - 1;
      assert more[..|lines|] == lines && starts[..|starts|] == starts;
      EarlierSignatures(lines, starts, more, starts, m);
      hide FirstSignatures;
      assert more[starts[m]..] == lines[starts[m]..] + [line];
    }
  }

  lemma StartsGrow(lines: seq<string>, starts: seq<nat>, line: string)
    requires Ordered(lines, starts)
    ensures
      var more, starts' := lines + [line], starts + [|lines|];
      && Ordered(more, starts') && more[|lines|..] == [line] && more[..|lines|] == lines
      && starts'[..|starts|] == starts && starts'[|starts|] == |lines|
  {
  }

  /** A line that begins an error closes the one being read. */
  lemma ScanStart(lines: seq<string>, starts: seq<nat>, scan: Scan, line: string)
    requires Scanned(lines, starts, scan) && IsStart(line)
    ensures Scanned(lines + [line], starts + [|lines|], ScanLine(scan, line))
  {
    hide Signature, IsStart, FirstSignatures, Emit;
    var more, starts' := lines + [line], starts + [|lines|];
    StartsGrow(lines, starts, line);
    if starts == [] {
      NoErrors(more, starts');
    } else {
      LastBlockCloses(lines, starts);
      EarlierSignatures(lines, starts, more, starts', |starts|);
    }
  }

  lemma LastBlockCloses(lines: seq<string>, starts: seq<nat>)
    requires Ordered(lines, starts) && starts != []
    ensures
      var m := |starts| - 1;
      FirstSignatures(lines, starts, |starts|) == Emit(FirstSignatures(lines, starts, m), lines[starts[m]..])
  {
    hide Signature;
    var m := |starts| - 1;
    assert BlockAt(lines, starts, m) == lines[starts[m]..];
  }

  lemma NothingScanned()
    ensures Scanned([], Starts([]), ScanAll([]))
  {
    hide BeginsError;
  }

  lemma ScanUnfold(lines: seq<string>)
    requires lines != []
    ensures ScanAll(lines) == ScanLine(ScanAll(lines[..|lines| - 1]), lines[|lines| - 1])
  {
    hide ScanLine;
  }

  /** The scan has closed all errors but the last, and holds the lines of that one. */
  lemma {:induction false} ScanIs(lines: seq<string>)
    ensures Scanned(lines, Starts(lines), ScanAll(lines))
  {
    hide Starts, ScanAll, Scanned, ScanLine, IsStart, BeginsError;
    if lines == [] {
      NothingScanned();
    } else {
      var n := |lines| - 1;
      var init, line := lines[..n], lines[n];
      assert lines == init + [line];
      StartsUnfold(lines);
      ScanUnfold(lines);
      ScanIs(init);
      BeginsErrorIff(line);
      if IsStart(line) {
        ScanStart(init, Starts(init), ScanAll(init), line);
      } else {
        ScanMore(init, Starts(init), ScanAll(init), line);
        assert Starts(init) + [] == Starts(init);
      }
    }
  }

  /**
   * The signatures of an output: one for each line that begins an error, taken over the lines from there to the next
   * such line or the end, in order, leaving out the empty ones. Lines before the first error belong to none.
   */
  lemma SignaturesAre(output: string)
    ensures
      var lines := Lines(output);
      var starts := Starts(lines);
      Ordered(lines, starts) && Signatures(output) == FirstSignatures(lines, starts, |starts|)
  {
    var lines := Lines(output);
    ScanIs(lines);
    hide Signature, Lines, Starts, ScanAll, FirstSignatures, Emit;
    var starts := Starts(lines);
    if starts != [] {
      LastBlockCloses(lines, starts);
    } else {
      NoErrors(lines, starts);
    }
  }

  lemma NoErrors(lines: seq<string>, starts: seq<nat>)
    requires Ordered(lines, starts)
    ensures FirstSignatures(lines, starts, 0) == []
  {
  }
}
