/** The startup check of the log files, in small steps. */
module HistoryRecovery {
  // What it leaves on the card does not depend on how the work is cut into steps, and it only ever removes an
  // unfinished last row. accepts stands for valid_log_record; the outcome of every file operation is part of the
  // directory.

  import opened Core

  const BUFFER: nat := 2048
  const FILES_MAX: nat := 4096
  const NUL: char := 0 as char

  type Check = string -> bool

  /** How the repair of a file ends: it does not open, is not cut, is cut but not surely stored, or is done. */
  datatype Trim = NotOpened | NotCut | NotStored | Cut

  /**
   * A directory entry. unreadable: reading fails where the readable content ends; told: for how many rows the
   * position can be asked; closes, closesAgain: whether closing after reading and after the repair works.
   */
  datatype Entry = Entry(isLog: bool, fits: bool, opens: bool, unreadable: bool, told: nat, closes: bool,
                         trim: Trim, closesAgain: bool)

  /** fails: readdir ends with an error; closes: closedir works. */
  datatype Directory = Directory(entries: seq<Entry>, fails: bool, closes: bool)

  datatype Input = Input(file: nat, pos: nat, row: nat)

  datatype Scan = Scan(active: bool, next: nat, input: Option<Input>, good: nat, readOnly: bool, closeFailed: bool,
                       files: nat, rows: nat, errors: nat, disk: seq<string>)

  // ---- fgets ----

  /** How many characters fgets takes at pos. */
  function Taken(c: string, pos: nat, room: nat): (n: nat)
    requires pos <= |c|
    ensures n <= room && pos + n <= |c| && (n == 0 <==> room == 0 || pos == |c|)
    decreases room
  {
    if room == 0 || pos == |c| then 0
    else if c[pos] == '\n' then 1
    else 1 + Taken(c, pos + 1, room - 1)
  }

  /** The number of characters in front of the terminator. */
  function StrLen(t: string): (n: nat)
    ensures n <= |t|
  {
    if t == "" || t[0] == NUL then 0 else 1 + StrLen(t[1..])
  }

  // ---- One turn of the loop ----

  function Faulty(s: Scan): Scan {
    s.(readOnly := true, errors := s.errors + 1)
  }

  function CloseInput(s: Scan, closes: bool): Scan {
    if s.input.None? then s
    else if closes then s.(input := None)
    else Faulty(s).(closeFailed := true, input := None)
  }

  function Cancel(s: Scan, dir: Directory, closes: bool): Scan {
    var closed := CloseInput(s, closes);
    if !closed.active then closed
    else if dir.closes then closed.(active := false)
    else Faulty(closed).(closeFailed := true, active := false)
  }

  ghost predicate Fitting(s: Scan, dir: Directory) {
    && |s.disk| == |dir.entries| && s.next <= |dir.entries|
    && (s.input.Some? ==> s.input.value.file < s.next && s.input.value.pos <= |s.disk[s.input.value.file]|)
  }

  /** failed: a read has hit an error. */
  function FinishFile(s: Scan, dir: Directory, failed: bool, partial: bool): Scan
    requires |s.disk| == |dir.entries| && s.input.Some? && s.input.value.file < |s.disk|
  {
    var f := s.input.value.file;
    var e := dir.entries[f];
    var read := CloseInput(if failed then Faulty(s) else s, e.closes);
    if !partial || read.readOnly then read else Repair(read, s.input, f, e)
  }

  /** Opens the file again and cuts off what stands behind its good rows. */
  function Repair(s: Scan, reader: Option<Input>, f: nat, e: Entry): Scan
    requires f < |s.disk|
  {
    if e.trim == NotOpened then Faulty(s)
    else
      var open := s.(input := reader);
      var cut := if e.trim == NotCut || s.good > |s.disk[f]| then open
          else open.(disk := s.disk[f := s.disk[f][..s.good]]);
      CloseInput(if e.trim == Cut then cut else Faulty(cut.(closeFailed := true)), e.closesAgain)
  }

  /** The next directory entry. */
  function NextEntry(s: Scan, dir: Directory): Scan
    requires |s.disk| == |dir.entries| && s.next <= |dir.entries|
  {
    if s.next == |dir.entries| then Cancel(if dir.fails then Faulty(s) else s, dir, true)
    else
      var e, after := dir.entries[s.next], s.(next := s.next + 1);
      if !e.isLog then after
      else
        var counted := after.(files := s.files + 1);
        if counted.files > FILES_MAX then Cancel(Faulty(counted), dir, true)
        else if !e.fits || !e.opens then Faulty(counted)
        else counted.(input := Some(Input(s.next, 0, 0)), good := 0)
  }

  /** The next row of the open file. */
  function NextRow(s: Scan, dir: Directory, accepts: Check): Scan
    requires Fitting(s, dir) && s.input.Some?
  {
    var i := s.input.value;
    var c, e := s.disk[i.file], dir.entries[i.file];
    var n := Taken(c, i.pos, BUFFER - 1);
    var line := c[i.pos..i.pos + n];
    var read := s.(input := Some(i.(pos := i.pos + n, row := i.row + 1)));
    if n == 0 then FinishFile(s, dir, e.unreadable, false)
    else
      var size := StrLen(line);
      if size == 0 || line[size - 1] != '\n' then
        // The end of the file is noticed only by a read that wants more than there is.
        var end := n < BUFFER - 1 && line[n - 1] != '\n';
        var partial := end && !e.unreadable;
        FinishFile(if partial then read else Faulty(read), dir, end && e.unreadable, partial)
      else if !accepts(line[..size]) || i.row >= e.told then FinishFile(Faulty(read), dir, false, false)
      else read.(good := i.pos + n, rows := s.rows + 1)
  }

  function Tick(s: Scan, dir: Directory, accepts: Check): Scan
    requires Fitting(s, dir)
  {
    if s.input.None? then NextEntry(s, dir) else NextRow(s, dir, accepts)
  }

  /** A step: as many turns as the budget allows. */
  function Step(s: Scan, dir: Directory, accepts: Check, budget: nat): (r: Scan)
    requires Fitting(s, dir)
    ensures Fitting(r, dir)
    decreases budget
  {
    if !s.active || budget == 0 then s
    else
      TickFits(s, dir, accepts);
      Step(Tick(s, dir, accepts), dir, accepts, budget - 1)
  }

  lemma FinishParts(s: Scan, dir: Directory, failed: bool, partial: bool)
    requires |s.disk| == |dir.entries| && s.input.Some? && s.input.value.file < |s.disk|
    ensures var r, f := FinishFile(s, dir, failed, partial), s.input.value.file;
            && r.input.None? && r.next == s.next && r.active == s.active && r.files == s.files && r.rows == s.rows
            && (r.disk == s.disk
                || (partial && !s.readOnly && s.good <= |s.disk[f]| && r.disk == s.disk[f := s.disk[f][..s.good]]))
  {
  }

  lemma RowParts(s: Scan, dir: Directory, accepts: Check)
    requires Fitting(s, dir) && s.input.Some?
    ensures var r, f := NextRow(s, dir, accepts), s.input.value.file;
            && r.next == s.next && r.active == s.active && r.files == s.files
            && (if r.input.Some? then
                  && r.disk == s.disk && r.input.value.file == f && s.input.value.pos < r.input.value.pos <= |s.disk[f]|
                else
                  r.disk == s.disk || (s.good <= |s.disk[f]| && r.disk == s.disk[f := s.disk[f][..s.good]]))
  {
    hide FinishFile, StrLen, Taken;
    var i := s.input.value;
    var n := Taken(s.disk[i.file], i.pos, BUFFER - 1);
    var read := s.(input := Some(i.(pos := i.pos + n, row := i.row + 1)));
    FinishParts(s, dir, dir.entries[i.file].unreadable, false);
    FinishParts(read, dir, false, true);
    FinishParts(Faulty(read), dir, true, false);
    FinishParts(Faulty(read), dir, false, false);
  }

  lemma EntryParts(s: Scan, dir: Directory)
    requires |s.disk| == |dir.entries| && s.next <= |dir.entries| && s.input.None? && s.active
    ensures var r := NextEntry(s, dir);
            && r.disk == s.disk
            && (r.active ==> s.active && r.next == s.next + 1 <= |dir.entries|)
            && (r.active && r.input.Some? ==> r.input == Some(Input(s.next, 0, 0)))
            && (!r.active ==> r.input.None? && s.next <= r.next <= |dir.entries|)
            && (s.active && s.next == |dir.entries| ==> !r.active)
  {
  }

  lemma TickFits(s: Scan, dir: Directory, accepts: Check)
    requires Fitting(s, dir) && s.active
    ensures Fitting(Tick(s, dir, accepts), dir)
  {
    hide NextEntry, NextRow;
    if s.input.None? {
      EntryParts(s, dir);
    } else {
      RowParts(s, dir, accepts);
    }
  }

  // ---- The budget does not matter ----

  /** step(a) and then step(b) is step(a + b). */
  lemma {:induction false} StepsAdd(s: Scan, dir: Directory, accepts: Check, a: nat, b: nat)
    requires Fitting(s, dir)
    ensures Step(Step(s, dir, accepts, a), dir, accepts, b) == Step(s, dir, accepts, a + b)
    decreases a
  {
    hide Tick;
    if s.active && a > 0 {
      TickFits(s, dir, accepts);
      StepsAdd(Tick(s, dir, accepts), dir, accepts, a - 1, b);
    }
  }

  /** How much is left to do: entries, then characters of the open file. */
  function Left(s: Scan, dir: Directory): (n: nat)
    requires Fitting(s, dir)
  {
    if !s.active then 0
    else
      2 + LeftEntries(s.disk, s.next)
      + if s.input.None? then 0 else 1 + |s.disk[s.input.value.file]| - s.input.value.pos
  }

  function LeftEntries(disk: seq<string>, next: nat): nat
    requires next <= |disk|
    decreases |disk| - next
  {
    if next == |disk| then 0 else 2 + |disk[next]| + LeftEntries(disk, next + 1)
  }

  lemma {:induction false} LeftUnder(disk: seq<string>, next: nat, f: nat, c: string)
    requires f < next <= |disk|
    ensures LeftEntries(disk[f := c], next) == LeftEntries(disk, next)
    decreases |disk| - next
  {
    if next < |disk| {
      LeftUnder(disk, next + 1, f, c);
    }
  }

  /** Every turn of an active check makes progress. */
  lemma TickProgress(s: Scan, dir: Directory, accepts: Check)
    requires Fitting(s, dir) && s.active
    ensures Fitting(Tick(s, dir, accepts), dir) && Left(Tick(s, dir, accepts), dir) < Left(s, dir)
  {
    hide NextEntry, NextRow;
    TickFits(s, dir, accepts);
    if s.input.None? {
      EntryParts(s, dir);
    } else {
      RowParts(s, dir, accepts);
      var f := s.input.value.file;
      if s.good <= |s.disk[f]| {
        LeftUnder(s.disk, s.next, f, s.disk[f][..s.good]);
      }
    }
  }

  /** The check run to its end. */
  function RunAll(s: Scan, dir: Directory, accepts: Check): (r: Scan)
    requires Fitting(s, dir)
    ensures Fitting(r, dir) && !r.active
    decreases Left(s, dir)
  {
    if !s.active then s
    else
      TickProgress(s, dir, accepts);
      RunAll(Tick(s, dir, accepts), dir, accepts)
  }

  /** Enough steps of any size end the check, always in the same way. */
  lemma {:induction false} StepsReachEnd(s: Scan, dir: Directory, accepts: Check, budget: nat)
    requires Fitting(s, dir) && budget >= Left(s, dir)
    ensures Step(s, dir, accepts, budget) == RunAll(s, dir, accepts)
    decreases budget
  {
    hide Tick, Left;
    if s.active {
      TickProgress(s, dir, accepts);
      LeftPositive(s, dir);
      StepsReachEnd(Tick(s, dir, accepts), dir, accepts, budget - 1);
    }
  }

  lemma LeftPositive(s: Scan, dir: Directory)
    requires Fitting(s, dir) && s.active
    ensures Left(s, dir) > 0
  {
  }

  /** Cancelling, wherever the check stands, writes nothing. */
  lemma CancelWritesNothing(s: Scan, dir: Directory, closes: bool)
    ensures var r := Cancel(s, dir, closes);
            !r.active && r.input.None? && r.disk == s.disk
                && (r.closeFailed <==> s.closeFailed || (s.input.Some? && !closes) || (s.active && !dir.closes))
  {
  }

  // ---- What a file holds, without buffers and positions ----

  function NewlineAfter(c: string, pos: nat): (end: Option<nat>)
    requires pos <= |c|
    ensures end.Some? ==> pos < end.value <= |c| && c[end.value - 1] == '\n' && forall i | pos <= i < end.value - 1 ::
        c[i] != '\n'
    ensures end.None? ==> forall i | pos <= i < |c| :: c[i] != '\n'
    decreases |c| - pos
  {
    if pos == |c| then None else if c[pos] == '\n' then Some(pos + 1) else NewlineAfter(c, pos + 1)
  }

  /** A complete row that the check passes. */
  predicate Sound(row: string, accepts: Check) {
    |row| < BUFFER && NUL !in row && accepts(row)
  }

  datatype Verdict = Clean | Torn | Broken

  /** Reading on from pos, where a row begins: the verdict on the file, and where its complete rows end. */
  function Judge(c: string, pos: nat, row: nat, e: Entry, accepts: Check): (r: (Verdict, nat))
    requires pos <= |c|
    ensures pos <= r.1 <= |c|
    decreases |c| - pos
  {
    match NewlineAfter(c, pos)
    case None =>
      (if e.unreadable then Broken else if pos == |c| then Clean else if |c| - pos < BUFFER - 1 then Torn
          else Broken, pos)
    case Some(next) =>
      if Sound(c[pos..next], accepts) && row < e.told then Judge(c, next, row + 1, e, accepts) else (Broken, pos)
  }

  /** How many rows are passed. */
  function RowsFrom(c: string, pos: nat, row: nat, e: Entry, accepts: Check): nat
    requires pos <= |c|
    decreases |c| - pos
  {
    match NewlineAfter(c, pos)
    case None => 0
    case Some(next) =>
      if Sound(c[pos..next], accepts) && row < e.told then 1 + RowsFrom(c, next, row + 1, e, accepts) else 0
  }

  /** Whether a torn file is cut, and whether anything went wrong with it. */
  predicate Cuts(e: Entry, verdict: Verdict, readOnly: bool) {
    verdict == Torn && !readOnly && e.closes && (e.trim == NotStored || e.trim == Cut)
  }

  predicate Fault(e: Entry, verdict: Verdict, readOnly: bool) {
    verdict == Broken || !e.closes || (verdict == Torn && !readOnly && (e.trim != Cut || !e.closesAgain))
  }

  // ---- fgets against rows ----

  lemma {:induction false} TakenRow(c: string, pos: nat, room: nat)
    requires pos <= |c|
    ensures var n := Taken(c, pos, room);
            match NewlineAfter(c, pos)
            case None => n == Min(room, |c| - pos) && forall i | pos <= i < pos + n :: c[i] != '\n'
            case Some(next) =>
              n == Min(room, next - pos) && (next - pos > room ==> forall i | pos <= i < pos + n :: c[i] != '\n')
    decreases room
  {
    if room > 0 && pos < |c| && c[pos] != '\n' {
      TakenRow(c, pos + 1, room - 1);
    }
  }

  lemma {:induction false} StrLenIs(t: string)
    ensures forall i | 0 <= i < StrLen(t) :: t[i] != NUL
    ensures if NUL in t then StrLen(t) < |t| else StrLen(t) == |t|
  {
    if t != "" && t[0] != NUL {
      StrLenIs(t[1..]);
    }
  }

  /** What the loop sees of the next line is what Judge sees of the next row. */
  lemma LineIs(c: string, pos: nat)
    requires pos < |c|
    ensures var n := Taken(c, pos, BUFFER - 1);
            var line := c[pos..pos + n];
            var size, next := StrLen(line), NewlineAfter(c, pos);
            var whole := !(size == 0 || line[size - 1] != '\n');
            && n > 0
            && (whole <==> next.Some? && next.value - pos < BUFFER && NUL !in c[pos..next.value])
            && (whole ==> size == n && pos + n == next.value && line[..size] == c[pos..next.value])
            && (!whole ==> (n < BUFFER - 1 && line[n - 1] != '\n' <==> next.None? && |c| - pos < BUFFER - 1))
  {
    hide Taken, StrLen, NewlineAfter;
    var n := Taken(c, pos, BUFFER - 1);
    TakenRow(c, pos, BUFFER - 1);
    StrLenIs(c[pos..pos + n]);
  }

  // ---- One file ----

  /** What finishing a file at its good position does, by verdict. */
  lemma FinishIs(s: Scan, dir: Directory, failed: bool, partial: bool)
    requires |s.disk| == |dir.entries| && s.input.Some? && s.input.value.file < |s.disk|
    requires s.good <= |s.disk[s.input.value.file]| && (partial ==> !failed)
    ensures var r, f := FinishFile(s, dir, failed, partial), s.input.value.file;
            var e, verdict := dir.entries[f], if partial then Torn else Clean;
            && r.disk == (if Cuts(e, verdict, s.readOnly) then s.disk[f := s.disk[f][..s.good]] else s.disk)
            && r.readOnly == (s.readOnly || failed || Fault(e, verdict, s.readOnly))
  {
    hide Repair;
    var f := s.input.value.file;
    var e := dir.entries[f];
    RepairIs(CloseInput(if failed then Faulty(s) else s, e.closes), s.input, f, e);
  }

  lemma RepairIs(s: Scan, reader: Option<Input>, f: nat, e: Entry)
    requires f < |s.disk| && s.good <= |s.disk[f]| && reader.Some?
    ensures var r := Repair(s, reader, f, e);
            && r.disk == (if e.trim == NotStored || e.trim == Cut then s.disk[f := s.disk[f][..s.good]] else s.disk)
            && r.readOnly == (s.readOnly || e.trim != Cut || !e.closesAgain)
  {
  }

  /** One turn of the loop on an open file: a complete line. */
  lemma CompleteRow(s: Scan, dir: Directory, accepts: Check)
    requires Fitting(s, dir) && s.active && s.input.Some?
        && NewlineAfter(s.disk[s.input.value.file], s.input.value.pos).Some?
    ensures var r, i := NextRow(s, dir, accepts), s.input.value;
            var c, e, next := s.disk[i.file], dir.entries[i.file], NewlineAfter(s.disk[i.file], i.pos).value;
            if Sound(c[i.pos..next], accepts) && i.row < e.told
            then r == s.(input := Some(Input(i.file, next, i.row + 1)), good := next, rows := s.rows + 1)
            else r.input.None? && r.disk == s.disk && r.readOnly && r.rows == s.rows
  {
    hide FinishFile, StrLen, Taken, NewlineAfter;
    var i := s.input.value;
    var n := Taken(s.disk[i.file], i.pos, BUFFER - 1);
    var read := s.(input := Some(i.(pos := i.pos + n, row := i.row + 1)));
    LineIs(s.disk[i.file], i.pos);
    BrokenIs(read, dir);
  }

  lemma BrokenIs(s: Scan, dir: Directory)
    requires |s.disk| == |dir.entries| && s.input.Some? && s.input.value.file < |s.disk|
    ensures var r := FinishFile(Faulty(s), dir, false, false);
            r.input.None? && r.disk == s.disk && r.readOnly && r.rows == s.rows
    ensures var r := FinishFile(Faulty(s), dir, true, false);
            r.input.None? && r.disk == s.disk && r.readOnly && r.rows == s.rows
  {
  }

  /** One turn of the loop on an open file: no more complete lines. */
  lemma LastRow(s: Scan, dir: Directory, accepts: Check)
    requires Fitting(s, dir) && s.active && s.input.Some?
        && NewlineAfter(s.disk[s.input.value.file], s.input.value.pos).None?
    requires s.good == s.input.value.pos
    ensures var r, i := NextRow(s, dir, accepts), s.input.value;
            var c, e := s.disk[i.file], dir.entries[i.file];
            var verdict := Judge(c, i.pos, i.row, e, accepts).0;
            && r.input.None? && r.rows == s.rows && r.readOnly == (s.readOnly || Fault(e, verdict, s.readOnly))
            && r.disk == (if Cuts(e, verdict, s.readOnly) then s.disk[i.file := c[..i.pos]] else s.disk)
  {
    hide FinishFile, StrLen, Taken, NewlineAfter;
    var i := s.input.value;
    var c, e := s.disk[i.file], dir.entries[i.file];
    var n := Taken(c, i.pos, BUFFER - 1);
    var read := s.(input := Some(i.(pos := i.pos + n, row := i.row + 1)));
    if i.pos < |c| {
      LineIs(c, i.pos);
      BrokenIs(read, dir);
      FinishIs(read, dir, false, true);
      FinishParts(read, dir, false, true);
    } else {
      FinishIs(s, dir, e.unreadable, false);
      FinishParts(s, dir, e.unreadable, false);
    }
  }

  /** Running on from inside a file is running on behind it, with the file treated as its verdict says. */
  lemma {:induction false} FileRuns(s: Scan, dir: Directory, accepts: Check) returns (r: Scan)
    requires Fitting(s, dir) && s.active && s.input.Some? && s.good == s.input.value.pos
    ensures Fitting(r, dir) && r.active && r.input.None? && r.next == s.next && r.files == s.files
    ensures RunAll(s, dir, accepts) == RunAll(r, dir, accepts)
    ensures var i := s.input.value;
            var e, (verdict, end) := dir.entries[i.file],
                Judge(s.disk[i.file], i.pos, i.row, dir.entries[i.file], accepts);
            && r.disk == (if Cuts(e, verdict, s.readOnly) then s.disk[i.file := s.disk[i.file][..end]] else s.disk)
            && r.readOnly == (s.readOnly || Fault(e, verdict, s.readOnly))
            && r.rows == s.rows + RowsFrom(s.disk[i.file], i.pos, i.row, e, accepts)
    decreases |s.disk[s.input.value.file]| - s.input.value.pos
  {
    hide NextRow, NewlineAfter, Sound, FinishFile;
    var i := s.input.value;
    TickFits(s, dir, accepts);
    RowParts(s, dir, accepts);
    var t := Tick(s, dir, accepts);
    if NewlineAfter(s.disk[i.file], i.pos).None? {
      LastRow(s, dir, accepts);
      r := t;
    } else {
      CompleteRow(s, dir, accepts);
      if t.input.Some? {
        r := FileRuns(t, dir, accepts);
      } else {
        r := t;
      }
    }
  }

  // ---- The whole directory, one file at a time ----

  /** Reference: the card and the read-only state after the entries from k on; files were counted before. */
  function Reference(disk: seq<string>, dir: Directory, accepts: Check, k: nat, readOnly: bool, files: nat)
      : (r: (seq<string>, bool))
    requires |disk| == |dir.entries| && k <= |disk|
    ensures |r.0| == |disk|
    decreases |disk| - k
  {
    if k == |disk| then (disk, readOnly || dir.fails || !dir.closes)
    else
      var e := dir.entries[k];
      if !e.isLog then Reference(disk, dir, accepts, k + 1, readOnly, files)
      else if files >= FILES_MAX then (disk, true)
      else if !e.fits || !e.opens then Reference(disk, dir, accepts, k + 1, true, files + 1)
      else
        var (verdict, end) := Judge(disk[k], 0, 0, e, accepts);
        Reference(if Cuts(e, verdict, readOnly) then disk[k := disk[k][..end]] else disk, dir, accepts, k + 1,
                  readOnly || Fault(e, verdict, readOnly), files + 1)
  }

  /** Reference: the rows that are passed in the files of the entries from k on. */
  function RowsRead(disk: seq<string>, dir: Directory, accepts: Check, k: nat, files: nat): nat
    requires |disk| == |dir.entries| && k <= |disk|
    decreases |disk| - k
  {
    if k == |disk| then 0
    else
      var e := dir.entries[k];
      if !e.isLog then RowsRead(disk, dir, accepts, k + 1, files)
      else if files >= FILES_MAX then 0
      else
        (if e.fits && e.opens then RowsFrom(disk[k], 0, 0, e, accepts) else 0)
        + RowsRead(disk, dir, accepts, k + 1, files + 1)
  }

  lemma {:induction false} RowsLater(disk: seq<string>, other: seq<string>, dir: Directory, accepts: Check, k: nat,
      files: nat)
    requires |disk| == |other| == |dir.entries| && k <= |disk| && disk[k..] == other[k..]
    ensures RowsRead(disk, dir, accepts, k, files) == RowsRead(other, dir, accepts, k, files)
    decreases |disk| - k
  {
    hide RowsFrom;
    if k < |disk| {
      assert disk[k] == disk[k..][0] == other[k..][0] == other[k];
      assert disk[k + 1..] == disk[k..][1..] == other[k + 1..];
      RowsLater(disk, other, dir, accepts, k + 1, files);
      RowsLater(disk, other, dir, accepts, k + 1, files + 1);
    }
  }

  lemma EntryIs(s: Scan, dir: Directory)
    requires Fitting(s, dir) && s.active && s.input.None?
    ensures var r := NextEntry(s, dir);
            if s.next == |dir.entries| then
              && !r.active && r.disk == s.disk && r.readOnly == (s.readOnly || dir.fails || !dir.closes)
              && r.rows == s.rows && r.files == s.files
            else
              var e := dir.entries[s.next];
              if !e.isLog then r == s.(next := s.next + 1)
              else if s.files >= FILES_MAX then
                !r.active && r.disk == s.disk && r.readOnly && r.rows == s.rows && r.files == s.files + 1
              else if !e.fits || !e.opens then
                r == s.(next := s.next + 1, files := s.files + 1, readOnly := true, errors := s.errors + 1)
              else r == s.(next := s.next + 1, files := s.files + 1, good := 0, input := Some(Input(s.next, 0, 0)))
  {
  }

  /** The check, in steps of whatever size, treats the card file by file. */
  lemma {:induction false} RunsReference(s: Scan, dir: Directory, accepts: Check)
    requires Fitting(s, dir) && s.active && s.input.None?
    ensures var r := RunAll(s, dir, accepts);
            && (r.disk, r.readOnly) == Reference(s.disk, dir, accepts, s.next, s.readOnly, s.files)
            && r.rows == s.rows + RowsRead(s.disk, dir, accepts, s.next, s.files)
            && (s.files <= FILES_MAX ==> r.files == Min(FILES_MAX + 1, s.files + Logs(dir, s.next, |s.disk|)))
    decreases |dir.entries| - s.next
  {
    hide NextEntry, NextRow, Judge, Cuts, Fault, Left, RowsFrom;
    TickFits(s, dir, accepts);
    EntryIs(s, dir);
    var t := Tick(s, dir, accepts);
    if t.active {
      if t.input.Some? {
        var r := FileRuns(t, dir, accepts);
        assert r.disk[t.next..] == s.disk[t.next..];
        RowsLater(r.disk, s.disk, dir, accepts, t.next, t.files);
        RunsReference(r, dir, accepts);
      } else {
        RunsReference(t, dir, accepts);
      }
    }
  }

  // ---- What the reference leaves on the card ----

  /** Some fault was recorded before entry i is looked at. */
  predicate FaultBefore(disk: seq<string>, dir: Directory, accepts: Check, k: nat, readOnly: bool, i: nat)
    requires |disk| == |dir.entries| && k <= i <= |disk|
    decreases i - k
  {
    if k == i then readOnly
    else
      var e := dir.entries[k];
      FaultBefore(disk, dir, accepts, k + 1,
                  readOnly || (e.isLog && (!e.fits || !e.opens
                      || Fault(e, Judge(disk[k], 0, 0, e, accepts).0, readOnly))), i)
  }

  /** The log files among the first n entries. */
  function Logs(dir: Directory, k: nat, n: nat): nat
    requires k <= n <= |dir.entries|
    decreases n - k
  {
    if k == n then 0 else (if dir.entries[k].isLog then 1 else 0) + Logs(dir, k + 1, n)
  }

  /** File i is cut: it is reached, no fault came before it, and all that is wrong with it is an unfinished last row. */
  predicate IsCut(disk: seq<string>, dir: Directory, accepts: Check, k: nat, readOnly: bool, files: nat, i: nat)
    requires |disk| == |dir.entries| && k <= i < |disk|
  {
    var e := dir.entries[i];
    && e.isLog && files + Logs(dir, k, i) < FILES_MAX && e.fits && e.opens
    && Cuts(e, Judge(disk[i], 0, 0, e, accepts).0, FaultBefore(disk, dir, accepts, k, readOnly, i))
  }

  lemma {:induction false} FaultsLater(disk: seq<string>, other: seq<string>, dir: Directory, accepts: Check, k: nat,
      readOnly: bool, i: nat)
    requires |disk| == |other| == |dir.entries| && k <= i <= |disk| && disk[k..] == other[k..]
    ensures FaultBefore(disk, dir, accepts, k, readOnly, i) == FaultBefore(other, dir, accepts, k, readOnly, i)
    decreases i - k
  {
    hide Judge, Fault;
    if k < i {
      assert disk[k] == disk[k..][0] == other[k..][0] == other[k];
      assert disk[k + 1..] == disk[k..][1..] == other[k + 1..];
      var e := dir.entries[k];
      FaultsLater(disk, other, dir, accepts, k + 1,
                  readOnly || (e.isLog && (!e.fits || !e.opens
                      || Fault(e, Judge(disk[k], 0, 0, e, accepts).0, readOnly))), i);
    }
  }

  /** Exactly the files that IsCut names lose their unfinished last row; nothing else changes. */
  lemma {:induction false} ReferenceCuts(disk: seq<string>, dir: Directory, accepts: Check, k: nat, readOnly: bool,
      files: nat, i: nat)
    requires |disk| == |dir.entries| && k <= |disk| && i < |disk|
    ensures Reference(disk, dir, accepts, k, readOnly, files).0[i]
         == if i >= k && IsCut(disk, dir, accepts, k, readOnly, files, i)
            then disk[i][..Judge(disk[i], 0, 0, dir.entries[i], accepts).1] else disk[i]
    decreases |disk| - k
  {
    hide Judge, Fault, Cuts;
    if k < |disk| {
      var e := dir.entries[k];
      if !e.isLog {
        ReferenceCuts(disk, dir, accepts, k + 1, readOnly, files, i);
      } else if files >= FILES_MAX {
      } else if !e.fits || !e.opens {
        ReferenceCuts(disk, dir, accepts, k + 1, true, files + 1, i);
      } else {
        var (verdict, end) := Judge(disk[k], 0, 0, e, accepts);
        var after := if Cuts(e, verdict, readOnly) then disk[k := disk[k][..end]] else disk;
        ReferenceCuts(after, dir, accepts, k + 1, readOnly || Fault(e, verdict, readOnly), files + 1, i);
        if i > k {
          assert after[k + 1..] == disk[k + 1..];
          FaultsLater(after, disk, dir, accepts, k + 1, readOnly || Fault(e, verdict, readOnly), i);
        }
      }
    }
  }

  /** A torn file: its complete rows, then a last one that is neither empty nor complete nor overlong. */
  lemma {:induction false} TornMeans(c: string, pos: nat, row: nat, e: Entry, accepts: Check)
    requires pos <= |c| && Judge(c, pos, row, e, accepts).0 == Torn
    ensures var end := Judge(c, pos, row, e, accepts).1;
            && 0 < |c| - end < BUFFER - 1 && '\n' !in c[end..] && (end > pos ==> c[end - 1] == '\n') && !e.unreadable
    ensures var end := Judge(c, pos, row, e, accepts).1; Judge(c[..end], pos, row, e, accepts) == (Clean, end)
    decreases |c| - pos
  {
    hide Sound;
    var end := Judge(c, pos, row, e, accepts).1;
    match NewlineAfter(c, pos)
    case None =>
    case Some(next) =>
      TornMeans(c, next, row + 1, e, accepts);
      NewlineInPrefix(c, pos, end);
      assert c[..end][pos..next] == c[pos..next];
  }

  lemma {:induction false} NewlineInPrefix(c: string, pos: nat, end: nat)
    requires pos <= end <= |c| && NewlineAfter(c, pos).Some? && NewlineAfter(c, pos).value <= end
    ensures NewlineAfter(c[..end], pos) == NewlineAfter(c, pos)
    decreases |c| - pos
  {
    if c[pos] != '\n' {
      NewlineInPrefix(c, pos + 1, end);
    }
  }

  /** A file that is checked again after its repair needs no second one. */
  lemma RepairLasts(c: string, e: Entry, accepts: Check)
    requires Judge(c, 0, 0, e, accepts).0 == Torn
    ensures var end := Judge(c, 0, 0, e, accepts).1; Judge(c[..end], 0, 0, e, accepts) == (Clean, end)
  {
    TornMeans(c, 0, 0, e, accepts);
  }

  // ---- The log the firmware writes ----

  /** One row: accepted, and ended by its only newline. */
  ghost predicate OwnRow(row: string, accepts: Check) {
    && accepts(row) && 0 < |row| < 2048 && 0 as char !in row
    && row[|row| - 1] == '\n' && '\n' !in row[..|row| - 1]
  }

  lemma OwnRowIs(row: string, accepts: Check)
    ensures OwnRow(row, accepts)
        <==> Sound(row, accepts) && row != "" && row[|row| - 1] == '\n' && '\n' !in row[..|row| - 1]
  {
  }

  function Joined(rows: seq<string>): string {
    if rows == [] then "" else rows[0] + Joined(rows[1..])
  }

  lemma {:induction false} FirstNewline(head: string, row: string, rest: string, k: nat)
    requires row != "" && row[|row| - 1] == '\n' && '\n' !in row[..|row| - 1] && k < |row|
    ensures NewlineAfter(head + row + rest, |head| + k) == Some(|head| + |row|)
    decreases |row| - k
  {
    var c := head + row + rest;
    assert c[|head| + k] == row[k];
    if k < |row| - 1 {
      assert row[k] in row[..|row| - 1];
      FirstNewline(head, row, rest, k + 1);
    }
  }

  /** A log of own rows, cut off anywhere in the next one, is clean or torn, and keeps every complete row. */
  lemma {:induction false} OwnLogJudged(head: string, rows: seq<string>, tail: string, row: nat, e: Entry,
      accepts: Check)
    requires forall r | r in rows :: OwnRow(r, accepts)
    requires '\n' !in tail && |tail| < BUFFER - 1 && !e.unreadable && row + |rows| <= e.told
    ensures Judge(head + Joined(rows) + tail, |head|, row, e, accepts)
         == (if tail == "" then Clean else Torn, |head| + |Joined(rows)|)
    decreases |rows|
  {
    hide Sound, NewlineAfter;
    var c := head + Joined(rows) + tail;
    if rows == [] {
      assert c == head + tail;
      NoNewline(head, tail);
    } else {
      assert rows[0] in rows;
      OwnRowFirst(head, rows[0], Joined(rows[1..]), tail, accepts);
      OwnLogJudged(head + rows[0], rows[1..], tail, row + 1, e, accepts);
    }
  }

  lemma NoNewline(head: string, tail: string)
    requires '\n' !in tail
    ensures NewlineAfter(head + tail, |head|).None?
  {
    var c := head + tail;
    assert forall i | |head| <= i < |c| :: c[i] == tail[i - |head|];
  }

  lemma OwnRowFirst(head: string, first: string, rest: string, tail: string, accepts: Check)
    requires OwnRow(first, accepts)
    ensures var c := head + (first + rest) + tail;
            && c == (head + first) + rest + tail && NewlineAfter(c, |head|) == Some(|head| + |first|)
            && Sound(c[|head|..|head| + |first|], accepts)
  {
    hide Sound, NewlineAfter, OwnRow;
    OwnRowIs(first, accepts);
    Regrouped(head, first, rest, tail);
    FirstNewline(head, first, rest + tail, 0);
  }

  lemma Regrouped(head: string, first: string, rest: string, tail: string)
    ensures var c := head + (first + rest) + tail;
            c == (head + first) + rest + tail == head + first + (rest + tail) && c[|head|..|head| + |first|] == first
  {
    var c := head + (first + rest) + tail;
    assert forall i | 0 <= i < |first| :: c[|head| + i] == first[i];
  }

  // ---- A card that holds only the firmware's own logs ----

  /** Every log file can be read, closed and repaired, and so can the directory. */
  predicate Smooth(dir: Directory) {
    && !dir.fails && dir.closes
    && forall e | e in dir.entries && e.isLog ::
         e.fits && e.opens && !e.unreadable && e.closes && e.closesAgain && e.trim == Cut
  }

  /** A log of own rows, with the beginning of another one behind them. */
  datatype OwnFile = OwnFile(rows: seq<string>, tail: string)

  ghost predicate Owns(f: OwnFile, e: Entry, accepts: Check) {
    && (forall r | r in f.rows :: OwnRow(r, accepts)) && '\n' !in f.tail && |f.tail| < 2047 && |f.rows| <= e.told
  }

  /** From entry k on, log file i of the disk is own[i]. */
  ghost predicate OwnDisk(disk: seq<string>, own: seq<OwnFile>, dir: Directory, accepts: Check, k: nat) {
    && |disk| == |own| == |dir.entries|
    && forall i | k <= i < |disk| && dir.entries[i].isLog ::
         disk[i] == Joined(own[i].rows) + own[i].tail && Owns(own[i], dir.entries[i], accepts)
  }

  lemma OwnFileJudged(f: OwnFile, e: Entry, accepts: Check)
    requires Owns(f, e, accepts) && !e.unreadable
    ensures Judge(Joined(f.rows) + f.tail, 0, 0, e, accepts) == (if f.tail == "" then Clean else Torn, |Joined(f.rows)|)
  {
    OwnLogJudged("", f.rows, f.tail, 0, e, accepts);
    assert "" + Joined(f.rows) + f.tail == Joined(f.rows) + f.tail;
  }

  /** Without I/O faults, every log of own rows ends as its complete rows, and the card stays writable. */
  lemma {:induction false} OwnDiskKept(disk: seq<string>, own: seq<OwnFile>, dir: Directory, accepts: Check, k: nat,
      files: nat)
    requires OwnDisk(disk, own, dir, accepts, k) && Smooth(dir) && k <= |disk|
    requires files + Logs(dir, k, |disk|) <= FILES_MAX
    ensures var r := Reference(disk, dir, accepts, k, false, files);
            && !r.1 && |r.0| == |disk|
            && forall i | 0 <= i < |disk| ::
                 r.0[i] == if i >= k && dir.entries[i].isLog then Joined(own[i].rows) else disk[i]
    decreases |disk| - k
  {
    hide Judge, OwnRow, Joined;
    if k < |disk| {
      var e := dir.entries[k];
      assert e in dir.entries;
      if !e.isLog {
        OwnDiskKept(disk, own, dir, accepts, k + 1, files);
      } else {
        OwnFileJudged(own[k], e, accepts);
        var rows := Joined(own[k].rows);
        assert disk[k][..|rows|] == rows && (own[k].tail == "" ==> disk[k] == rows);
        var after := if own[k].tail == "" then disk else disk[k := rows];
        OwnDiskKept(after, own, dir, accepts, k + 1, files + 1);
      }
    }
  }

  /** The check as it begins. */
  function Begun(disk: seq<string>): Scan {
    Scan(true, 0, None, 0, false, false, 0, 0, 0, disk)
  }

  /** So a whole check of such a card, however its steps are cut, keeps every complete row and finds no fault. */
  lemma OwnCardKept(disk: seq<string>, own: seq<OwnFile>, dir: Directory, accepts: Check)
    requires OwnDisk(disk, own, dir, accepts, 0) && Smooth(dir) && Logs(dir, 0, |disk|) <= FILES_MAX
    ensures var r := RunAll(Begun(disk), dir, accepts);
            && !r.readOnly && |r.disk| == |disk|
            && forall i | 0 <= i < |disk| :: r.disk[i] == if dir.entries[i].isLog then Joined(own[i].rows) else disk[i]
  {
    hide OwnDisk, Smooth, Joined, Reference, RunAll;
    OwnDiskFits(disk, own, dir, accepts);
    RunsReference(Begun(disk), dir, accepts);
    OwnDiskKept(disk, own, dir, accepts, 0, 0);
  }

  lemma OwnDiskFits(disk: seq<string>, own: seq<OwnFile>, dir: Directory, accepts: Check)
    requires OwnDisk(disk, own, dir, accepts, 0)
    ensures Fitting(Begun(disk), dir)
  {
  }

  // ---- The check as an object ----

  class HistoryCheck {
    const disk: array<string>
    var active: bool
    var next: nat
    var input: Option<Input>
    var good: nat
    var readOnly: bool
    var closeFailed: bool
    var files: nat
    var rows: nat
    var errors: nat

    ghost function State(): Scan
      reads this, disk
    {
      Scan(active, next, input, good, readOnly, closeFailed, files, rows, errors, disk[..])
    }

    constructor (contents: array<string>, begun: bool)
      ensures disk == contents && Fitting(State(), Directory(Repeat(ANY, disk.Length), false, true))
      ensures active == begun && next == 0 && input == None && files == 0 && readOnly == !begun
    {
      disk := contents;
      active, next, input, good, closeFailed := begun, 0, None, 0, false;
      readOnly, files, rows, errors := !begun, 0, 0, if begun then 0 else 1;
    }

    method Error()
      modifies this`readOnly, this`errors
      ensures State() == Faulty(old(State()))
    {
      readOnly, errors := true, errors + 1;
    }

    method CloseReader(closes: bool)
      modifies this`input, this`readOnly, this`errors, this`closeFailed
      ensures State() == CloseInput(old(State()), closes)
    {
      if input.Some? {
        if !closes {
          closeFailed := true;
          Error();
        }
        input := None;
      }
    }

    method Stop(dir: Directory, closes: bool) returns (ok: bool)
      modifies this
      ensures State() == Cancel(old(State()), dir, closes) && ok == !closeFailed
    {
      CloseReader(closes);
      if active {
        if !dir.closes {
          closeFailed := true;
          Error();
        }
        active := false;
      }
      ok := !closeFailed;
    }

    method Finish(dir: Directory, failed: bool, partial: bool)
      requires disk.Length == |dir.entries| && input.Some? && input.value.file < disk.Length
      modifies this, disk
      ensures State() == FinishFile(old(State()), dir, failed, partial)
    {
      hide CloseInput, Faulty, Repair;
      var f := input.value.file;
      var e := dir.entries[f];
      var reader := input;
      if failed {
        Error();
      }
      CloseReader(e.closes);
      if partial && !readOnly {
        RepairFile(reader, f, e);
      }
    }

    method RepairFile(reader: Option<Input>, f: nat, e: Entry)
      requires f < disk.Length
      modifies this, disk
      ensures State() == Repair(old(State()), reader, f, e)
    {
      hide CloseInput, Faulty;
      if e.trim == NotOpened {
        Error();
        return;
      }
      input := reader;
      if e.trim != NotCut && good <= |disk[f]| {
        disk[f] := disk[f][..good];
        assert disk[..] == old(disk[..])[f := old(disk[f])[..good]];
      }
      if e.trim != Cut {
        closeFailed := true;
        Error();
      }
      CloseReader(e.closesAgain);
    }

    method ReadEntry(dir: Directory)
      requires Fitting(State(), dir) && active && input.None?
      modifies this
      ensures State() == NextEntry(old(State()), dir)
    {
      hide Cancel, Faulty;
      var ok;
      if next == |dir.entries| {
        if dir.fails {
          Error();
        }
        ok := Stop(dir, true);
        return;
      }
      var e := dir.entries[next];
      next := next + 1;
      if !e.isLog {
        return;
      }
      files := files + 1;
      if files > FILES_MAX {
        Error();
        ok := Stop(dir, true);
      } else if !e.fits || !e.opens {
        Error();
      } else {
        input, good := Some(Input(next - 1, 0, 0)), 0;
      }
    }

    method ReadRow(dir: Directory, accepts: Check)
      requires Fitting(State(), dir) && input.Some?
      modifies this, disk
      ensures State() == NextRow(old(State()), dir, accepts)
    {
      hide FinishFile, Faulty, Taken, StrLen;
      var i := input.value;
      var c, e := disk[i.file], dir.entries[i.file];
      var n := Taken(c, i.pos, BUFFER - 1);
      if n == 0 {
        Finish(dir, e.unreadable, false);
        return;
      }
      var line := c[i.pos..i.pos + n];
      input := Some(i.(pos := i.pos + n, row := i.row + 1));
      var size := StrLen(line);
      if size == 0 || line[size - 1] != '\n' {
        var end := n < BUFFER - 1 && line[n - 1] != '\n';
        if !end || e.unreadable {
          Error();
        }
        Finish(dir, end && e.unreadable, end && !e.unreadable);
      } else if !accepts(line[..size]) || i.row >= e.told {
        Error();
        Finish(dir, false, false);
      } else {
        good, rows := i.pos + n, rows + 1;
      }
    }

    /** At most budget entries or rows. */
    method Advance(dir: Directory, accepts: Check, budget: nat)
      requires Fitting(State(), dir)
      modifies this, disk
      ensures Fitting(State(), dir) && State() == Step(old(State()), dir, accepts, budget)
    {
      hide NextEntry, NextRow;
      var left := budget;
      while active && left > 0
        invariant Fitting(State(), dir)
        invariant Step(State(), dir, accepts, left) == Step(old(State()), dir, accepts, budget)
      {
        TickFits(State(), dir, accepts);
        if input.None? {
          ReadEntry(dir);
        } else {
          ReadRow(dir, accepts);
        }
        left := left - 1;
      }
    }
  }

  const ANY: Entry := Entry(false, false, false, false, 0, false, NotOpened, false)
}
