/** What the startup check finds: it ends without a fault exactly on a card of accepted rows. */
module HistoryFacts {
  import opened Core
  import opened HistoryRecovery

  // ---- One file ----

  /** A log that the check finds no fault with: accepted rows, and perhaps an unfinished one that can be cut off. */
  ghost predicate Passes(c: string, e: Entry, accepts: Check) {
    && !e.unreadable && e.closes
    && exists f: OwnFile :: Owns(f, e, accepts) && c == Joined(f.rows) + f.tail && Cuttable(f.tail, e)
  }

  predicate Cuttable(tail: string, e: Entry) {
    tail != "" ==> e.trim == Cut && e.closesAgain
  }

  /** A file that is not broken consists of accepted rows, all of them counted, and what follows the last newline. */
  lemma {:induction false} RowsOf(c: string, pos: nat, row: nat, e: Entry, accepts: Check) returns (rows: seq<string>)
    requires pos <= |c| && Judge(c, pos, row, e, accepts).0 != Broken && row <= e.told
    ensures forall r | r in rows :: OwnRow(r, accepts)
    ensures var (verdict, end) := Judge(c, pos, row, e, accepts);
            && c[pos..end] == Joined(rows) && '\n' !in c[end..] && |c| - end < BUFFER - 1 && !e.unreadable
            && (verdict == Torn <==> end < |c|) && row + |rows| <= e.told
            && RowsFrom(c, pos, row, e, accepts) == |rows|
    decreases |c| - pos
  {
    hide NewlineAfter, Sound, OwnRow;
    match NewlineAfter(c, pos)
    case None =>
      rows := [];
    case Some(next) =>
      var first := c[pos..next];
      var later := RowsOf(c, next, row + 1, e, accepts);
      NewlineEnds(c, pos);
      OwnRowIs(first, accepts);
      rows := [first] + later;
      var end := Judge(c, pos, row, e, accepts).1;
      assert rows[1..] == later;
      assert c[pos..end] == first + c[next..end];
  }

  lemma NewlineEnds(c: string, pos: nat)
    requires pos <= |c| && NewlineAfter(c, pos).Some?
    ensures var row := c[pos..NewlineAfter(c, pos).value];
            row != "" && row[|row| - 1] == '\n' && '\n' !in row[..|row| - 1]
  {
  }

  lemma FaultIs(c: string, e: Entry, accepts: Check)
    ensures Fault(e, Judge(c, 0, 0, e, accepts).0, false) <==> !Passes(c, e, accepts)
  {
    hide Judge, Joined, OwnRow;
    var (verdict, end) := Judge(c, 0, 0, e, accepts);
    if !Fault(e, verdict, false) {
      var rows := RowsOf(c, 0, 0, e, accepts);
      var f := OwnFile(rows, c[end..]);
      assert c == c[0..end] + c[end..];
      assert Owns(f, e, accepts) && c == Joined(f.rows) + f.tail && Cuttable(f.tail, e);
    }
    if Passes(c, e, accepts) {
      var f: OwnFile :| Owns(f, e, accepts) && c == Joined(f.rows) + f.tail && Cuttable(f.tail, e);
      OwnFileJudged(f, e, accepts);
    }
  }

  // ---- The whole card ----

  ghost predicate LogPasses(c: string, e: Entry, accepts: Check) {
    e.isLog ==> e.fits && e.opens && Passes(c, e, accepts)
  }

  ghost predicate Faultless(disk: seq<string>, dir: Directory, accepts: Check, k: nat, files: nat)
    requires |disk| == |dir.entries| && k <= |disk|
  {
    && !dir.fails && dir.closes && files + Logs(dir, k, |disk|) <= 4096
    && forall i | k <= i < |disk| :: LogPasses(disk[i], dir.entries[i], accepts)
  }

  lemma {:induction false} StaysReadOnly(disk: seq<string>, dir: Directory, accepts: Check, k: nat, files: nat)
    requires |disk| == |dir.entries| && k <= |disk|
    ensures Reference(disk, dir, accepts, k, true, files).1
    decreases |disk| - k
  {
    hide Judge, Fault, Cuts;
    if k < |disk| {
      var e := dir.entries[k];
      StaysReadOnly(disk, dir, accepts, k + 1, files);
      StaysReadOnly(disk, dir, accepts, k + 1, files + 1);
      var (verdict, end) := Judge(disk[k], 0, 0, e, accepts);
      StaysReadOnly(disk[k := disk[k][..end]], dir, accepts, k + 1, files + 1);
    }
  }

  lemma FaultlessNext(disk: seq<string>, other: seq<string>, dir: Directory, accepts: Check, k: nat, files: nat)
    requires |disk| == |other| == |dir.entries| && k < |disk| && other[k + 1..] == disk[k + 1..] && files <= 4096
    ensures var e := dir.entries[k];
            Faultless(disk, dir, accepts, k, files)
            <==> LogPasses(disk[k], e, accepts) && (e.isLog ==> files < 4096)
                 && Faultless(other, dir, accepts, k + 1, if e.isLog then files + 1 else files)
  {
    hide LogPasses;
    forall i | k < i < |disk| ensures other[i] == disk[i] {
      assert other[i] == other[k + 1..][i - k - 1] == disk[k + 1..][i - k - 1];
    }
  }

  lemma {:induction false} ReferenceFaultless(disk: seq<string>, dir: Directory, accepts: Check, k: nat, files: nat)
    requires |disk| == |dir.entries| && k <= |disk| && files <= 4096
    ensures Reference(disk, dir, accepts, k, false, files).1 <==> !Faultless(disk, dir, accepts, k, files)
    decreases |disk| - k
  {
    hide Judge, Fault, Cuts, Passes, Faultless;
    if k == |disk| {
      FaultlessAtEnd(disk, dir, accepts, files);
    } else {
      var e := dir.entries[k];
      var (verdict, end) := Judge(disk[k], 0, 0, e, accepts);
      var after := if e.isLog && e.fits && e.opens && Cuts(e, verdict, false) then disk[k := disk[k][..end]] else disk;
      FaultIs(disk[k], e, accepts);
      FaultlessNext(disk, after, dir, accepts, k, files);
      if !e.isLog {
        ReferenceFaultless(disk, dir, accepts, k + 1, files);
      } else if files < 4096 {
        ReferenceFaultless(after, dir, accepts, k + 1, files + 1);
        StaysReadOnly(after, dir, accepts, k + 1, files + 1);
      }
    }
  }

  lemma FaultlessAtEnd(disk: seq<string>, dir: Directory, accepts: Check, files: nat)
    requires |disk| == |dir.entries| && files <= 4096
    ensures Faultless(disk, dir, accepts, |disk|, files) <==> !dir.fails && dir.closes
  {
  }

  // ---- The check ----

  /** Every fault is counted, and only faults are. */
  predicate Counts(s: Scan, r: Scan) {
    r.errors >= s.errors && (r.readOnly <==> s.readOnly || r.errors > s.errors)
  }

  lemma FinishCounts(s: Scan, dir: Directory, failed: bool, partial: bool)
    requires |s.disk| == |dir.entries| && s.input.Some? && s.input.value.file < |s.disk|
    ensures Counts(s, FinishFile(s, dir, failed, partial))
  {
    hide Repair;
    var e := dir.entries[s.input.value.file];
    var read := CloseInput(if failed then Faulty(s) else s, e.closes);
    RepairCounts(read, s.input, s.input.value.file, e);
  }

  lemma RepairCounts(s: Scan, reader: Option<Input>, f: nat, e: Entry)
    requires f < |s.disk|
    ensures Counts(s, Repair(s, reader, f, e))
  {
  }

  lemma EntryCounts(s: Scan, dir: Directory)
    requires |s.disk| == |dir.entries| && s.next <= |dir.entries| && s.input.None?
    ensures Counts(s, NextEntry(s, dir))
  {
  }

  lemma RowCounts(s: Scan, dir: Directory, accepts: Check)
    requires Fitting(s, dir) && s.input.Some?
    ensures Counts(s, NextRow(s, dir, accepts))
  {
    hide FinishFile, StrLen, Taken;
    var i := s.input.value;
    var n := Taken(s.disk[i.file], i.pos, BUFFER - 1);
    var read := s.(input := Some(i.(pos := i.pos + n, row := i.row + 1)));
    FinishCounts(s, dir, dir.entries[i.file].unreadable, false);
    FinishCounts(read, dir, false, true);
    FinishCounts(Faulty(read), dir, true, false);
    FinishCounts(Faulty(read), dir, false, false);
  }

  lemma TickCounts(s: Scan, dir: Directory, accepts: Check)
    requires Fitting(s, dir) && s.active
    ensures Counts(s, Tick(s, dir, accepts))
  {
    hide NextEntry, NextRow, Counts;
    if s.input.None? {
      EntryCounts(s, dir);
    } else {
      RowCounts(s, dir, accepts);
    }
  }

  lemma {:induction false} FaultsCounted(s: Scan, dir: Directory, accepts: Check)
    requires Fitting(s, dir)
    ensures Counts(s, RunAll(s, dir, accepts))
    decreases Left(s, dir)
  {
    hide Tick, Left;
    if s.active {
      TickProgress(s, dir, accepts);
      TickCounts(s, dir, accepts);
      FaultsCounted(Tick(s, dir, accepts), dir, accepts);
    }
  }

  /**
   * The card stays writable exactly if the directory can be read, has at most 4096 logs, and each of them can be
   * opened and closed, holds rows that are all accepted, and ends in at most a short unfinished one that was cut off.
   */
  lemma WritableExactly(disk: seq<string>, dir: Directory, accepts: Check)
    requires |disk| == |dir.entries|
    ensures var r := RunAll(Begun(disk), dir, accepts);
            && (!r.readOnly <==> Faultless(disk, dir, accepts, 0, 0))
            && (!r.readOnly <==> r.errors == 0)
  {
    hide Faultless, Reference, RunAll;
    RunsReference(Begun(disk), dir, accepts);
    FaultsCounted(Begun(disk), dir, accepts);
    ReferenceFaultless(disk, dir, accepts, 0, 0);
  }

  function AllRows(own: seq<OwnFile>, dir: Directory, k: nat): nat
    requires |own| == |dir.entries| && k <= |own|
    decreases |own| - k
  {
    if k == |own| then 0 else (if dir.entries[k].isLog then |own[k].rows| else 0) + AllRows(own, dir, k + 1)
  }

  lemma {:induction false} OwnRowsRead(disk: seq<string>, own: seq<OwnFile>, dir: Directory, accepts: Check, k: nat,
      files: nat)
    requires OwnDisk(disk, own, dir, accepts, k) && Smooth(dir) && k <= |disk|
    requires files + Logs(dir, k, |disk|) <= FILES_MAX
    ensures RowsRead(disk, dir, accepts, k, files) == AllRows(own, dir, k)
    decreases |disk| - k
  {
    hide RowsFrom, OwnRow, Joined, Judge;
    if k < |disk| {
      var e := dir.entries[k];
      assert e in dir.entries;
      if e.isLog {
        OwnRowsCounted("", own[k].rows, own[k].tail, 0, e, accepts);
        assert "" + Joined(own[k].rows) + own[k].tail == disk[k];
        OwnRowsRead(disk, own, dir, accepts, k + 1, files + 1);
      } else {
        OwnRowsRead(disk, own, dir, accepts, k + 1, files);
      }
    }
  }

  lemma {:induction false} OwnRowsCounted(head: string, rows: seq<string>, tail: string, row: nat, e: Entry,
      accepts: Check)
    requires forall r | r in rows :: OwnRow(r, accepts)
    requires '\n' !in tail && row + |rows| <= e.told
    ensures RowsFrom(head + Joined(rows) + tail, |head|, row, e, accepts) == |rows|
    decreases |rows|
  {
    hide Sound, NewlineAfter;
    var c := head + Joined(rows) + tail;
    if rows == [] {
      assert c == head + tail;
      NoNewline(head, tail);
    } else {
      assert rows[0] in rows;
      OwnRowFirst(head, rows[0], Joined(rows[1..]), tail, accepts);
      OwnRowsCounted(head + rows[0], rows[1..], tail, row + 1, e, accepts);
    }
  }

  /** On a card of the firmware's own logs every file and every complete row is counted, and no error. */
  lemma OwnCardCounted(disk: seq<string>, own: seq<OwnFile>, dir: Directory, accepts: Check)
    requires OwnDisk(disk, own, dir, accepts, 0) && Smooth(dir) && Logs(dir, 0, |disk|) <= FILES_MAX
    ensures var r := RunAll(Begun(disk), dir, accepts);
            r.rows == AllRows(own, dir, 0) && r.files == Logs(dir, 0, |disk|) && r.errors == 0
  {
    hide OwnDisk, Smooth, Joined, Reference, RunAll, RowsRead;
    OwnDiskFits(disk, own, dir, accepts);
    RunsReference(Begun(disk), dir, accepts);
    OwnRowsRead(disk, own, dir, accepts, 0, 0);
    OwnCardKept(disk, own, dir, accepts);
    FaultsCounted(Begun(disk), dir, accepts);
  }
}
