/** The storage worker: its loop, and what each message may do. */
module Worker {
  // Results of card and flash calls are arbitrary.

  import opened Snapshots

  const LOG_MAX: nat := 4 * 1024 * 1024
  const LINE_MAX: nat := 2048
  const FLUSH_ROWS: nat := 10
  const FLUSH_MS: nat := 5000

  datatype BackupStatus = Waiting | Unavailable | Checking | Saved | NoCard | Ejected | ReadOnly | Failed |
      InternalError

  /**
   * What the worker needs of a message: n is the length of the row that write_record makes of a record; stored says
   * whether the flash will take the state.
   */
  datatype Request =
    | Row(demo: bool, n: nat)
    | SaveState(slot: nat, manual: bool, stored: bool)
    | ExportRows
    | EjectCard
    | CrashReport
    | PlaySound
    | ClearLogs
    | SleepNow(slot: nat, stored: bool)

  predicate Proper(r: Request) {
    match r
    case Row(_, n) => n <= LINE_MAX
    case SaveState(slot, _, _) => slot < SLOTS
    case SleepNow(slot, _) => slot < SLOTS
    case _ => true
  }

  /** An access to the card, and how it ended. */
  datatype Act = Act(op: CardOp, ok: bool)

  datatype CardOp = Mount | Check | Stop | Flush | Close | Open | Write(n: nat) | Space | Publish | Reopen | Unlink |
      Backup | Crash

  datatype Health = Health(
    mounted: bool, failed: bool, ejected: bool, readOnly: bool, checking: bool, sleepFailed: bool, ejectFailed: bool,
    errors: nat, manualBackups: nat, backup: BackupStatus)
  {
    /** The card may be used. */
    predicate Usable() {
      mounted && !ejected && !readOnly
    }

    function Faulty(): Health {
      this.(failed := true, errors := errors + 1)
    }

    /** After an eject; ok: everything could be closed. */
    function Removed(ok: bool, manual: bool): (h: Health)
      ensures h.ejected && h.ejectFailed == !ok && (!ok ==> h.failed) && h.mounted == mounted && h.backup == Ejected
      ensures h.manualBackups == manualBackups + if manual then 1 else 0
    {
      (if ok then this else Faulty()).(checking := false, ejectFailed := !ok, backup := Ejected, ejected := true,
                                       manualBackups := manualBackups + if manual then 1 else 0)
    }
  }

  datatype Log = Log(open: bool, size: nat, pending: nat, rotation: nat, lastFlush: nat) {
    predicate Valid() {
      pending <= FLUSH_ROWS && (pending > 0 ==> open) && size <= LOG_MAX
    }
  }

  /** The snapshot slots and the deferred backup. */
  datatype Slots = Slots(busy: seq<bool>, deferred: int, manual: bool) {
    predicate Valid() {
      |busy| == SLOTS && -1 <= deferred < SLOTS && (deferred == NONE_DEFERRED ==> !manual)
    }

    function Dropped(): (r: Slots)
      ensures Valid() ==> r.Valid() && r.deferred == NONE_DEFERRED
    {
      Slots(Freed(busy, deferred), NONE_DEFERRED, false)
    }

    function Released(slot: nat): (r: Slots)
      ensures (Valid() ==> r.Valid()) && r.deferred == deferred && r.manual == manual
    {
      this.(busy := Freed(busy, slot))
    }

    /** The snapshot takes the place of the deferred one. */
    function Retained(slot: nat, asked: bool): (r: Slots)
      ensures Valid() && slot < SLOTS ==> r.Valid()
    {
      Slots(Freed(busy, deferred), slot, manual || asked)
    }

    /** After a message; checking: the card is still being checked. */
    function After(r: Request, checking: bool, ejected: bool): Slots {
      match r
      case SaveState(slot, asked, stored) => if stored && checking then Retained(slot, asked) else Released(slot)
      case SleepNow(slot, _) => Dropped().Released(slot)
      case EjectCard => if ejected then this else Dropped()
      case _ => this
    }
  }

  /** What a step of the history check brings. */
  datatype Progress = Progress(goesOn: bool, found: nat, stuck: bool)

  class StorageWorker {
    var health: Health
    var log: Log
    var slots: Slots
    /** The history check runs; it has found so many faults, of which so many are in the error count. */
    var recovering: bool
    var faults: nat
    var counted: nat
    /** Something of the check could not be closed. */
    var closeFailed: bool
    var initialized: bool
    var asleep: bool

    /** How many rows, saves, failed saves, exports and clearings there have been. */
    var writes: nat
    var saves: nat
    var saveErrors: nat
    var exports: nat
    var clears: nat

    /** Every access to the card. */
    ghost var acts: seq<Act>
    /** A manual backup has been received and its completion not been counted. */
    ghost var unanswered: bool
    /** A sleep has thrown a deferred manual backup away. */
    ghost var lost: bool

    ghost predicate Valid()
      reads this
    {
      && log.Valid() && slots.Valid()
      && (health.ejected ==> Closed())
      && (initialized ==> !recovering && slots.deferred == NONE_DEFERRED)
      && (recovering ==> health.mounted) && (log.open ==> initialized && health.mounted)
      && (unanswered <==> slots.manual || lost) && counted <= faults
    }

    /** Nothing on the card is open, and nothing is left to write. */
    ghost predicate Closed()
      reads this
    {
      !log.open && !recovering && log.pending == 0 && initialized && slots.deferred == NONE_DEFERRED
    }

    /** Between two messages. */
    ghost predicate Settled()
      reads this
    {
      Valid() && log.pending < FLUSH_ROWS && (recovering || initialized)
    }

    /** begun: the directory of the logs could be opened. */
    constructor (card: bool, dirs: bool, begun: bool)
      ensures Valid() && log == Log(false, 0, 0, 0, 0) && !asleep && !unanswered && !lost && !initialized
      ensures slots == Slots([false, false], NONE_DEFERRED, false) && !closeFailed && counted == 0
      ensures recovering == (card && dirs && begun) && faults == if card && dirs && !begun then 1 else 0
      ensures health == Health(card, card && !dirs, false, false, true, false, false, 0, 0, Checking)
    {
      health := Health(card, card && !dirs, false, false, true, false, false, 0, 0, Checking);
      log := Log(false, 0, 0, 0, 0);
      slots := Slots([false, false], NONE_DEFERRED, false);
      recovering, faults, counted := card && dirs && begun, if card && dirs && !begun then 1 else 0, 0;
      closeFailed, initialized, asleep := false, false, false;
      writes, saves, saveErrors, exports, clears := 0, 0, 0, 0, 0;
      acts, unanswered, lost := [Act(Mount, card)], false, false;
    }

    /** One access to the card, with an arbitrary outcome. */
    method Attempt(op: CardOp) returns (ok: bool)
      modifies this`acts
      ensures acts == old(acts) + [Act(op, ok)]
    {
      ok := *;
      acts := acts + [Act(op, ok)];
    }

    // ---- The log ----

    method FlushLog(now: nat) returns (ok: bool)
      requires log.Valid()
      modifies this`health, this`log, this`acts
      ensures log.Valid() && health == if ok then old(health) else old(health).Faulty()
      ensures if old(log.open) then acts == old(acts) + [Act(Flush, ok)]
                  && log == old(log).(pending := 0, lastFlush := now)
              else ok && acts == old(acts) && log == old(log)
    {
      if !log.open {
        return true;
      }
      ok := Attempt(Flush);
      if !ok {
        health := health.Faulty();
      }
      log := log.(pending := 0, lastFlush := now);
    }

    /** Closes the writer, whatever becomes of its last bytes. */
    method CloseLog() returns (ok: bool)
      modifies this`log, this`acts
      ensures log == old(log).(open := false)
      ensures if old(log.open) then acts == old(acts) + [Act(Close, ok)] else ok && acts == old(acts)
    {
      if !log.open {
        return true;
      }
      ok := Attempt(Close);
      log := log.(open := false);
    }

    /** A new log; an existing one is never opened for it. */
    method OpenFile() returns (ok: bool)
      requires !log.open
      modifies this`health, this`log, this`acts
      ensures acts == old(acts) + [Act(Open, ok)]
      ensures log == if ok then old(log).(open := true, size := 0) else old(log)
      ensures health == if ok then old(health) else old(health).Faulty()
    {
      ok := Attempt(Open);
      if !ok {
        health := health.Faulty();
        return;
      }
      log := log.(open := true, size := 0);
    }

    /** What is open is flushed, and then closed. */
    method ShutLog(now: nat) returns (ghost did: seq<Act>)
      requires log.Valid()
      modifies this`health, this`log, this`acts
      ensures log.Valid() && acts == old(acts) + did
      ensures if old(log.open) then
                && |did| == 2 && did[0].op == Flush && did[1].op == Close
                && log == old(log).(open := false, pending := 0, lastFlush := now)
                && health == if did[0].ok then old(health) else old(health).Faulty()
              else did == [] && log == old(log) && health == old(health)
    {
      did := [];
      var open := log.open;
      var flushed := FlushLog(now);
      var closed := CloseLog();
      if open {
        did := [Act(Flush, flushed), Act(Close, closed)];
      }
    }

    /** A log that is full gives way to the next one: it is flushed and closed before that is opened. */
    method Rotate(n: nat, now: nat) returns (ok: bool, ghost did: seq<Act>)
      requires log.Valid() && log.open && log.size + n > LOG_MAX
      modifies this`health, this`log, this`acts
      ensures log.Valid() && acts == old(acts) + did && ok == log.open
      ensures |did| == 3 && did[0].op == Flush && did[1].op == Close && did[2] == Act(Open, ok)
      ensures log == Log(ok, if ok then 0 else old(log.size), 0, old(log.rotation) + 1, now)
      ensures health == old(health).(failed := old(health.failed) || !did[0].ok || !ok,
          errors := old(health.errors) + (if did[0].ok then 0 else 1) + (if ok then 0 else 1))
    {
      did := ShutLog(now);
      log := log.(rotation := log.rotation + 1);
      ok := OpenFile();
      did := did + [Act(Open, ok)];
    }

    /** A row for which there is room. */
    method WriteRow(n: nat, now: nat) returns (ghost did: seq<Act>)
      requires log.Valid() && log.open && log.size + n <= LOG_MAX && log.pending < FLUSH_ROWS
      modifies this`health, this`log, this`acts, this`writes
      ensures log.Valid() && log.pending < FLUSH_ROWS && acts == old(acts) + did
      ensures |did| >= 1 && did[0].op == Write(n) && log.open && log.rotation == old(log.rotation)
      ensures if !did[0].ok then |did| == 1 && log == old(log) && writes == old(writes)
              else
                && log.size == old(log.size) + n && writes == old(writes) + 1
                && if old(log.pending) + 1 < 10 then |did| == 1 && log.pending == old(log.pending) + 1
                   else |did| == 2 && did[1].op == Flush && log.pending == 0 && log.lastFlush == now
      ensures health == old(health).(failed := health.failed, errors := health.errors)
      ensures health.failed <==> old(health.failed) || !did[0].ok || (|did| == 2 && !did[1].ok)
    {
      var written := Attempt(Write(n));
      did := [Act(Write(n), written)];
      if !written {
        health := health.Faulty();
        return;
      }
      log := log.(size := log.size + n, pending := log.pending + 1);
      writes := writes + 1;
      if log.pending >= FLUSH_ROWS {
        var flushed := FlushLog(now);
        did := did + [Act(Flush, flushed)];
      }
    }

    /**
     * A row that is accepted is written behind the others, into the next log if this one is full, and counted; the
     * tenth that waits is flushed. What fails is a fault. turned: what the turn to the next log took.
     */
    method Append(demo: bool, n: nat, now: nat) returns (ghost turned: seq<Act>, ghost did: seq<Act>)
      requires Settled() && n <= LINE_MAX
      modifies this`health, this`log, this`acts, this`writes
      ensures Settled() && acts == old(acts) + turned + did
      ensures health == old(health).(failed := health.failed, errors := health.errors)
      ensures if !old(log.open) || old(health.failed) || health.ejected || health.readOnly || demo || n == 0 then
                turned == did == [] && log == old(log) && health == old(health) && writes == old(writes)
              else
                && (if old(log.size) + n <= 4194304 then turned == []
                    else |turned| == 3 && turned[0].op == Flush && turned[1].op == Close && turned[2].op == Open)
                && log.rotation == old(log.rotation) + (if turned == [] then 0 else 1)
                && if turned != [] && !turned[2].ok
                   then did == [] && !log.open && writes == old(writes) && health.failed
                   else
                     && |did| >= 1 && did[0].op == Write(n) && log.open
                     && Wrote(if turned == [] then old(log.size) else 0, if turned == [] then old(log.pending) else 0,
                              n, did, log, writes - old(writes))
                     && (!did[0].ok ==> health.failed)
    {
      hide Slots.Valid, Slots.Dropped, Freed;
      turned, did := [], [];
      if demo || !log.open || health.failed || health.ejected || health.readOnly || n == 0 {
        return;
      }
      if log.size + n > LOG_MAX {
        var room;
        room, turned := Rotate(n, now);
        if !room {
          return;
        }
      }
      did := WriteRow(n, now);
    }

    /** The row went into a log of this size, with so many waiting; if it got there it counts; the tenth is flushed. */
    static predicate Wrote(size: nat, pending: nat, n: nat, did: seq<Act>, after: Log, counted: int)
      requires |did| >= 1
    {
      if !did[0].ok then |did| == 1 && after.size == size && after.pending == pending && counted == 0
      else
        && after.size == size + n && counted == 1
        && if pending + 1 < 10 then |did| == 1 && after.pending == pending + 1
           else |did| == 2 && did[1].op == Flush && after.pending == 0
    }

    /**
     * The log is flushed, closed for the time of the export, and opened again, never created or truncated; the export
     * counts only if all of that works.
     */
    method ExportLogs(now: nat) returns (ghost did: seq<Act>)
      requires Settled()
      modifies this`health, this`log, this`acts, this`exports
      ensures Settled() && acts == old(acts) + did
      ensures health == old(health).(failed := health.failed, errors := health.errors)
      ensures if !old(health).Usable() || old(health.failed) then did == [] && log == old(log) && health == old(health)
              else if !old(log.open) then did == [] && log == old(log) && health == old(health).Faulty()
              else
                && 1 <= |did| <= 4 && did[0].op == Flush && log.pending == 0 && log.size == old(log.size)
                && log.rotation == old(log.rotation)
                && (|did| > 1 <==> did[0].ok) && (|did| > 1 ==> did[1].op == Close)
                && (|did| > 2 <==> did[0].ok && did[1].ok)
                && (|did| > 2 ==> |did| == 4 && did[2].op == Publish && did[3].op == Reopen)
                && (log.open <==> |did| == 1 || (|did| == 4 && did[3].ok))
                && exports == old(exports) + (if |did| == 4 && did[2].ok && did[3].ok then 1 else 0)
                && (health.failed <==> exports == old(exports))
    {
      did := [];
      if !health.Usable() || health.failed {
        return;
      }
      if !log.open {
        health := health.Faulty();
        return;
      }
      var flushed := FlushLog(now);
      did := [Act(Flush, flushed)];
      if !flushed {
        return;
      }
      var ok := CloseLog();
      did := did + [Act(Close, ok)];
      if ok {
        ok := Attempt(Publish);
        did := did + [Act(Publish, ok)];
        var again := Attempt(Reopen);
        did := did + [Act(Reopen, again)];
        log := log.(open := again);
        ok := ok && again;
      }
      if ok {
        exports := exports + 1;
      } else {
        health := health.Faulty();
      }
    }

    /** All logs are removed, after the open one is flushed and closed, and a first one is opened. */
    method Clear(now: nat) returns (ghost did: seq<Act>)
      requires Settled()
      modifies this`health, this`log, this`acts, this`clears
      ensures Settled() && acts == old(acts) + did
      ensures health == old(health).(failed := health.failed, errors := health.errors)
      ensures var at := if old(log.open) then 2 else 0;
              if recovering || !old(health).Usable() then did == [] && log == old(log) && health == old(health)
              else
                && |did| >= at + 2 && (at == 2 ==> did[0].op == Flush && did[1].op == Close)
                && did[at].op == Unlink && did[|did| - 1].op == Space && log.pending == 0
                && (if did[at].ok then
                      && |did| == at + 3 && did[at + 1].op == Open && log.open == did[at + 1].ok
                      && log.rotation == 0 && (log.open ==> log.size == 0) && clears == old(clears) + 1
                    else |did| == at + 2 && !log.open && log.rotation == old(log.rotation) && clears == old(clears))
                && (health.failed <==> old(health.failed) || (at == 2 && !did[0].ok) || !log.open)
    {
      did := [];
      if recovering || !health.Usable() {
        return;
      }
      did := ShutLog(now);
      ghost var more := Empty();
      did := did + more;
    }

    /** The logs are removed, and a first one is opened. */
    method Empty() returns (ghost did: seq<Act>)
      requires log.Valid() && !log.open
      modifies this`health, this`log, this`acts, this`clears
      ensures log.Valid() && acts == old(acts) + did && |did| >= 2 && did[0].op == Unlink && did[|did| - 1].op == Space
      ensures if did[0].ok then
                && |did| == 3 && did[1].op == Open && clears == old(clears) + 1
                && log == (if did[1].ok then old(log).(open := true, size := 0) else old(log)).(rotation := 0)
                && health == if did[1].ok then old(health) else old(health).Faulty()
              else |did| == 2 && log == old(log) && clears == old(clears) && health == old(health).Faulty()
    {
      var removed := Attempt(Unlink);
      did := [Act(Unlink, removed)];
      if removed {
        log := log.(rotation := 0);
        var created := OpenFile();
        did := did + [Act(Open, created)];
        clears := clears + 1;
      } else {
        health := health.Faulty();
      }
      var told := Attempt(Space);
      did := did + [Act(Space, told)];
    }

    // ---- The ignore list's copy on the card ----

    /** same: the list is the one that was backed up last. */
    method BackupIgnores(force: bool, same: bool) returns (ghost did: seq<Act>)
      modifies this`health, this`acts
      ensures acts == old(acts) + did && health == old(health).(backup := health.backup)
      ensures if !health.mounted then did == [] && health.backup == NoCard
              else if health.ejected then did == [] && health.backup == Ejected
              else if health.readOnly then did == [] && health.backup == ReadOnly
              else if health.failed then did == [] && health.backup == Failed
              else if !force && old(health.backup) == Saved && same then did == [] && health.backup == Saved
              else |did| == 1 && did[0].op == Backup && health.backup == if did[0].ok then Saved else Failed
    {
      did := [];
      if !health.mounted {
        health := health.(backup := NoCard);
      } else if health.ejected {
        health := health.(backup := Ejected);
      } else if health.readOnly {
        health := health.(backup := ReadOnly);
      } else if health.failed {
        health := health.(backup := Failed);
      } else if force || health.backup != Saved || !same {
        var written := Attempt(Backup);
        did := [Act(Backup, written)];
        health := health.(backup := if written then Saved else Failed);
      }
    }

    method FinishBackup(manual: bool, same: bool) returns (ghost did: seq<Act>)
      modifies this`health, this`acts
      ensures acts == old(acts) + did
      ensures health == old(health).(backup := health.backup, manualBackups := health.manualBackups)
      ensures health.manualBackups == old(health.manualBackups) + if manual then 1 else 0
      ensures if health.Usable() && !health.failed && (manual || old(health.backup) != Saved || !same) then
                |did| == 1 && did[0].op == Backup && health.backup == if did[0].ok then Saved else Failed
              else did == [] && (health.backup == Saved ==> health.Usable() && !health.failed)
    {
      did := BackupIgnores(manual, same);
      if manual {
        health := health.(manualBackups := health.manualBackups + 1);
      }
    }

    // ---- The history check ----

    /** What a step of the check brings: whether it goes on, new faults, and whether something did not close. */
    method RecoveryStep(step: Progress)
      requires counted <= faults
      modifies this`health, this`recovering, this`faults, this`counted, this`closeFailed, this`acts
      ensures recovering == (old(recovering) && step.goesOn)
      ensures if old(recovering) then acts == old(acts) + [Act(Check, true)] && faults == old(faults) + step.found
                                      && closeFailed == (old(closeFailed) || step.stuck)
              else acts == old(acts) && faults == old(faults) && closeFailed == old(closeFailed)
      ensures counted == faults && health.readOnly == (faults > 0)
      ensures health.errors == old(health.errors) + faults - old(counted)
      ensures health == old(health).(readOnly := health.readOnly, errors := health.errors)
    {
      if recovering {
        acts := acts + [Act(Check, true)];
        recovering, faults, closeFailed := step.goesOn, faults + step.found, closeFailed || step.stuck;
      }
      CountFaults();
    }

    /** The faults found since the last time are errors. */
    method CountFaults()
      requires counted <= faults
      modifies this`health, this`counted
      ensures counted == faults && health.readOnly == (faults > 0)
      ensures health.errors == old(health.errors) + faults - old(counted)
      ensures health == old(health).(readOnly := health.readOnly, errors := health.errors)
    {
      health := health.(readOnly := faults > 0, errors := health.errors + faults - counted);
      counted := faults;
    }

    /** Closes the reader and the directory; each may fail. What fails is counted at the top of the next loop. */
    method CancelRecovery() returns (ok: bool)
      modifies this`recovering, this`faults, this`closeFailed, this`acts
      ensures !recovering && ok == !closeFailed && old(faults) <= faults <= old(faults) + 2
      ensures if old(recovering) then
                exists closed: bool :: acts == old(acts) + [Act(Stop, closed)]
                  && closeFailed == (old(closeFailed) || !closed)
                  && (faults == old(faults) <==> closed)
              else acts == old(acts) && closeFailed == old(closeFailed) && faults == old(faults)
    {
      if recovering {
        var closed := Attempt(Stop);
        if !closed {
          var found: nat :| 1 <= found <= 2;
          faults, closeFailed := faults + found, true;
        }
        recovering := false;
      }
      ok := !closeFailed;
    }

    // ---- The loop ----

    /**
     * The top of the loop, up to the receive. When the check is over, a log is opened if the card may be used, and the
     * deferred backup is done.
     */
    method LoopTop(step: Progress, same: bool) returns (ghost did: seq<Act>)
      requires Valid() && log.pending < FLUSH_ROWS && !asleep
      modifies this`health, this`log, this`slots, this`recovering, this`faults, this`counted, this`closeFailed,
               this`initialized, this`acts, this`unanswered
      ensures Settled() && health.ejected == old(health.ejected) && recovering == (old(recovering) && step.goesOn)
      ensures acts == old(acts) + did && (health.ejected ==> did == [])
      ensures counted == faults == old(faults) + (if old(recovering) then step.found else 0)
      ensures health.readOnly == (faults > 0) && health.errors >= old(health.errors) + faults - old(counted)
      ensures initialized == (old(initialized) || !recovering)
      ensures slots == if initialized && !old(initialized) then old(slots).Dropped() else old(slots)
      ensures health.manualBackups == old(health.manualBackups) + if old(slots.manual) && !slots.manual then 1 else 0
      ensures var at := if old(recovering) then 1 else 0;
              && (at == 1 ==> |did| >= 1 && did[0].op == Check)
              && if initialized && !old(initialized) && health.Usable() && !old(health.failed) then
                   && |did| > at && did[at].op == Open
                   && (if did[at].ok then log == old(log).(open := true, size := 0) && log.pending == 0
                       else log == old(log) && health.failed)
                   && (if old(slots.deferred) >= 0 && did[at].ok
                          && (old(slots.manual) || old(health.backup) != Saved || !same)
                       then |did| == at + 2 && did[at + 1].op == Backup else |did| == at + 1)
                 else |did| == at && log == old(log) && health.failed == old(health.failed)
    {
      did := if recovering then [Act(Check, true)] else [];
      RecoveryStep(step);
      if !initialized && !recovering {
        ghost var more := CheckDone(same);
        did := did + more;
      }
    }

    /** When the check is over the log is opened, and the deferred backup is done. */
    method CheckDone(same: bool) returns (ghost did: seq<Act>)
      requires Valid() && log.pending < FLUSH_ROWS && !initialized && !recovering
      modifies this`health, this`log, this`slots, this`initialized, this`acts, this`unanswered
      ensures Settled() && initialized && slots == old(slots).Dropped() && acts == old(acts) + did
      ensures health.ejected == old(health.ejected) && health.readOnly == old(health.readOnly)
      ensures health.mounted == old(health.mounted) && health.errors >= old(health.errors)
      ensures health.manualBackups == old(health.manualBackups) + if old(slots.manual) then 1 else 0
      ensures if health.Usable() && !old(health.failed) then
                && |did| >= 1 && did[0].op == Open
                && (if did[0].ok then log == old(log).(open := true, size := 0) && log.pending == 0
                    else log == old(log) && health.failed)
                && (if old(slots.deferred) >= 0 && did[0].ok
                       && (old(slots.manual) || old(health.backup) != Saved || !same)
                    then |did| == 2 && did[1].op == Backup else |did| == 1)
              else did == [] && log == old(log) && health.failed == old(health.failed)
    {
      hide Slots.Dropped, Slots.Valid, Freed;
      did := [];
      initialized := true;
      health := health.(checking := false);
      if health.Usable() && !health.failed {
        var created := OpenFile();
        did := [Act(Open, created)];
      }
      ghost var more := FinishDeferred(same);
      did := did + more;
    }

    /** The deferred backup, if there is one. */
    method FinishDeferred(same: bool) returns (ghost did: seq<Act>)
      requires slots.Valid() && (unanswered <==> slots.manual || lost)
      modifies this`health, this`slots, this`acts, this`unanswered
      ensures slots == old(slots).Dropped() && slots.Valid() && slots.deferred == NONE_DEFERRED
      ensures acts == old(acts) + did
      ensures (unanswered <==> slots.manual || lost) && !slots.manual
      ensures health == old(health).(backup := health.backup, manualBackups := health.manualBackups)
      ensures health.manualBackups == old(health.manualBackups) + if old(slots.manual) then 1 else 0
      ensures if old(slots.deferred) >= 0 && health.Usable() && !health.failed
                 && (old(slots.manual) || old(health.backup) != Saved || !same)
              then |did| == 1 && did[0].op == Backup else did == []
    {
      hide Slots.Dropped;
      did := [];
      if slots.deferred < 0 {
        DroppedNone(slots);
      } else {
        did := FinishBackup(slots.manual, same);
        slots := slots.Dropped();
        unanswered := lost;
      }
    }

    /** What a message does. Nothing that follows an eject touches the card. */
    method Handle(r: Request, now: nat) returns (ghost did: seq<Act>)
      requires Settled() && Proper(r) && !asleep
      modifies this
      ensures Settled() && acts == old(acts) + did && (old(health.ejected) ==> did == [])
      ensures health.ejected <==> old(health.ejected) || r.EjectCard?
      ensures lost <==> old(lost) || (r.SleepNow? && old(slots.manual))
      ensures slots == old(slots).After(r, old(recovering), old(health.ejected))
      ensures r.SaveState? ==> recovering == old(recovering) && !asleep
      ensures r.SaveState? && r.stored && recovering ==> health.manualBackups == old(health.manualBackups)
      ensures r.SleepNow? ==> health.manualBackups == old(health.manualBackups) && (asleep || health.sleepFailed)
      ensures r.SleepNow? && !r.stored ==> !asleep
      ensures r.Row? && !r.demo && r.n > 0 && old(log.open) && !old(health.failed) && !health.ejected
              && !health.readOnly ==>
                if old(log.size) + r.n <= LOG_MAX then |did| >= 1 && did[0].op == Write(r.n)
                else |did| >= 3 && did[2].op == Open && (did[2].ok ==> |did| >= 4 && did[3].op == Write(r.n))
      ensures r.ClearLogs? && !old(recovering) && old(health).Usable() ==> exists a :: a in did && a.op == Unlink
      ensures r.ExportRows? && old(log.open) && old(health).Usable() && !old(health.failed) ==>
                |did| >= 1 && did[0].op == Flush && (exports > old(exports) ==> Act(Publish, true) in did)
      ensures r.CrashReport? && !old(recovering) && old(health).Usable() ==> |did| == 1 && did[0].op == Crash
      ensures r.SaveState? ==>
                saves + saveErrors == old(saves) + old(saveErrors) + 1 && (saves > old(saves) <==> r.stored)
      ensures r.EjectCard? && !old(health.ejected) && old(log.open) ==> |did| >= 1 && did[|did| - 1].op == Close
    {
      hide Valid, Closed, Settled, Slots.Dropped, Slots.Retained, Slots.Released;
      did := [];
      // Whether the list of a save is the one backed up last.
      var same: bool := *;
      match r
      case Row(demo, n) =>
        ghost var turned;
        turned, did := Append(demo, n, now);
        did := turned + did;
      case SaveState(slot, manual, stored) => did := Save(slot, manual, stored, same);
      case ExportRows =>
        did := ExportAll(now);
        Within(did, 2);
      case EjectCard => did := Eject();
      case CrashReport => did := ReportCrash();
      case PlaySound =>
      case ClearLogs =>
        did := Clear(now);
        Within(did, if old(log.open) then 2 else 0);
      case SleepNow(slot, stored) => did := PrepareSleep(slot, stored, same, now);
    }

    method ExportAll(now: nat) returns (ghost did: seq<Act>)
      requires Settled()
      modifies this`health, this`log, this`acts, this`exports
      ensures Settled() && health.ejected == old(health.ejected) && acts == old(acts) + did
      ensures if health.mounted && !health.ejected then |did| >= 1 && did[|did| - 1].op == Space else did == []
      ensures old(log.open) && old(health).Usable() && !old(health.failed) ==>
                && |did| >= 1 && did[0].op == Flush
                && (exports > old(exports) ==> |did| >= 4 && did[2] == Act(Publish, true))
    {
      did := ExportLogs(now);
      if health.mounted && !health.ejected {
        var told := Attempt(Space);
        did := did + [Act(Space, told)];
      }
    }

    method ReportCrash() returns (ghost did: seq<Act>)
      requires Settled()
      modifies this`health, this`acts
      ensures Settled() && acts == old(acts) + did
      ensures if !recovering && old(health).Usable() then
                && |did| == 1 && did[0].op == Crash
                && health == old(health).(errors := old(health.errors) + if did[0].ok then 0 else 1)
              else did == [] && health == old(health)
    {
      did := [];
      if !recovering && health.Usable() {
        var written := Attempt(Crash);
        did := [Act(Crash, written)];
        health := health.(errors := health.errors + if written then 0 else 1);
      }
    }

    /**
     * A save counts as one or as an error, and frees its slot; unless the card is still being checked: then it is kept,
     * in place of an earlier one.
     */
    method Save(slot: nat, manual: bool, stored: bool, same: bool) returns (ghost did: seq<Act>)
      requires Settled() && slot < SLOTS
      modifies this`health, this`slots, this`acts, this`unanswered, this`saves, this`saveErrors
      ensures Settled() && health.ejected == old(health.ejected) && acts == old(acts) + did
      ensures slots == if stored && recovering then old(slots).Retained(slot, manual) else old(slots).Released(slot)
      ensures saves == old(saves) + (if stored then 1 else 0)
      ensures saveErrors == old(saveErrors) + (if stored then 0 else 1)
      ensures health.manualBackups
           == old(health.manualBackups) + if manual && !(stored && recovering) then 1 else 0
      ensures !stored ==> did == [] && health.failed && health.backup == InternalError
      ensures stored ==> health.failed == old(health.failed)
      ensures stored && recovering ==> did == [] && health.backup == Checking
      ensures stored && !recovering ==>
                if health.Usable() && !health.failed && (manual || old(health.backup) != Saved || !same) then
                  |did| == 1 && did[0].op == Backup && health.backup == if did[0].ok then Saved else Failed
                else did == []
    {
      did := [];
      if stored {
        saves := saves + 1;
      } else {
        saveErrors := saveErrors + 1;
      }
      if stored && recovering {
        slots := slots.Retained(slot, manual);
        health := health.(backup := Checking);
        unanswered := unanswered || manual;
        return;
      }
      if stored {
        did := FinishBackup(manual, same);
      } else {
        health := health.(backup := InternalError, failed := true,
            manualBackups := health.manualBackups + if manual then 1 else 0);
      }
      slots := slots.Released(slot);
    }

    /**
     * Before the device sleeps the check is given up, the state saved and backed up, and the log flushed and closed. If
     * the save, the closing of the check or the flush fails, it stays awake and says so.
     */
    method PrepareSleep(slot: nat, stored: bool, same: bool, now: nat) returns (ghost did: seq<Act>)
      requires Settled() && slot < SLOTS && !asleep
      modifies this
      ensures Settled() && initialized && health.ejected == old(health.ejected) && acts == old(acts) + did
      ensures old(health.ejected) ==> did == []
      ensures slots == old(slots).Dropped().Released(slot) && health.manualBackups == old(health.manualBackups)
      ensures if asleep then stored && !closeFailed && !log.open else health.sleepFailed && log.open == old(log.open)
      ensures lost <==> old(lost) || old(slots.manual)
      ensures old(recovering) ==> |did| >= 1 && did[0].op == Stop
      ensures stored && !closeFailed && !old(recovering) && old(health).Usable() && !old(health.failed) && !same ==>
                |did| >= 1 && did[0].op == Backup
      ensures stored && !closeFailed && old(log.open) ==> exists a :: a in did && a.op == Flush && (asleep <==> a.ok)
      ensures stored && !closeFailed && !old(log.open) ==> asleep
    {
      hide Slots.Dropped, Slots.Released, Slots.Valid, Freed;
      var checking := recovering;
      var closed;
      closed, did := StopWaiting();
      ghost var more := SwitchOff(slot, stored && closed, checking, same, now);
      did := did + more;
    }

    /** The backup, the slot and the log, unless the save or the closing of the check failed. */
    method SwitchOff(slot: nat, saved: bool, checking: bool, same: bool, now: nat) returns (ghost did: seq<Act>)
      requires Settled() && initialized && !asleep
      modifies this`health, this`log, this`slots, this`asleep, this`acts
      ensures Settled() && acts == old(acts) + did && (health.ejected ==> did == [])
      ensures slots == old(slots).Released(slot)
      ensures health.ejected == old(health.ejected) && health.manualBackups == old(health.manualBackups)
      ensures if asleep then saved && !log.open else health.sleepFailed && log.open == old(log.open)
      ensures saved && !checking && old(health).Usable() && !old(health.failed) && !same ==>
                |did| >= 1 && did[0].op == Backup
      ensures saved && old(log.open) ==> exists a :: a in did && a.op == Flush && (asleep <==> a.ok)
      ensures saved && !old(log.open) ==> asleep
    {
      hide Slots.Valid, Slots.Released;
      did := [];
      if saved && !checking {
        did := BackupIgnores(false, same);
      }
      slots := slots.Released(slot);
      ghost var more := PowerOff(saved, now);
      if |more| > 0 {
        assert more[0] in did + more;
      }
      did := did + more;
    }

    /** Before a sleep the check is given up, and with it the backup that waits for it. */
    method StopWaiting() returns (closed: bool, ghost did: seq<Act>)
      requires Settled()
      modifies this`health, this`slots, this`recovering, this`faults, this`closeFailed, this`initialized, this`acts,
               this`lost
      ensures Settled() && initialized && slots == old(slots).Dropped() && (lost <==> old(lost) || old(slots.manual))
      ensures health == old(health).(checking := false) && acts == old(acts) + did && closed == !closeFailed
      ensures if old(recovering) then |did| == 1 && did[0].op == Stop else did == []
    {
      did := [];
      var checking := recovering;
      closed := CancelRecovery();
      if checking {
        did := [acts[|acts| - 1]];
      }
      initialized := true;
      lost := lost || slots.manual;
      slots := slots.Dropped();
      health := health.(checking := false);
    }

    method PowerOff(saved: bool, now: nat) returns (ghost did: seq<Act>)
      requires log.Valid() && !asleep
      modifies this`health, this`log, this`asleep, this`acts
      ensures log.Valid() && log.pending <= old(log.pending) && acts == old(acts) + did
      ensures if asleep then saved && !log.open else health.sleepFailed && log.open == old(log.open)
      ensures health.mounted == old(health.mounted) && health.ejected == old(health.ejected)
      ensures health.manualBackups == old(health.manualBackups)
      ensures if saved && old(log.open) then
                |did| >= 1 && did[0].op == Flush && (asleep <==> did[0].ok)
                && (if asleep then |did| == 2 && did[1].op == Close else |did| == 1)
              else did == [] && asleep == saved
    {
      did := [];
      var ok, open := saved, log.open;
      if ok {
        ok := FlushLog(now);
        if open {
          did := [Act(Flush, ok)];
        }
      }
      if ok {
        var done := CloseLog();
        if open {
          did := did + [Act(Close, done)];
        }
        asleep := true;
      } else {
        health := health.(sleepFailed := true);
      }
    }

    /** Everything on the card is closed. */
    ghost predicate Shutdown()
      reads this
    {
      !log.open && !recovering && log.pending == 0
    }

    /** Closes whatever is open on the card, the startup reader as well. */
    method Shut() returns (ok: bool, ghost did: seq<Act>)
      requires Settled() && !health.ejected
      modifies this`log, this`recovering, this`faults, this`closeFailed, this`acts
      ensures Shutdown() && log.Valid() && faults >= old(faults) && acts == old(acts) + did
      ensures log == old(log).(open := false, pending := 0)
      ensures |did| == (if old(recovering) then 1 else 0) + (if old(log.open) then 1 else 0)
      ensures old(recovering) ==> did[0].op == Stop
      ensures old(log.open) ==> did[|did| - 1].op == Close
      ensures ok <==> !closeFailed && (old(log.open) ==> did[|did| - 1].ok)
    {
      did := [];
      var checking, open := recovering, log.open;
      ok := CancelRecovery();
      if checking {
        did := [acts[|acts| - 1]];
      }
      var closed := CloseLog();
      if open {
        did := did + [Act(Close, closed)];
      }
      ok := ok && closed;
      log := log.(pending := 0);
    }

    /** Stops all future card access, even when closing fails; a second eject changes nothing. */
    method Eject() returns (ghost did: seq<Act>)
      requires Settled()
      modifies this
      ensures Settled() && health.ejected && asleep == old(asleep) && lost == old(lost) && acts == old(acts) + did
      ensures old(health.ejected) ==> did == [] && health == old(health) && slots == old(slots)
      ensures !old(health.ejected) ==>
                && slots == old(slots).Dropped() && !log.open && !recovering && log.pending == 0
                && |did| == (if old(recovering) then 1 else 0) + (if old(log.open) then 1 else 0)
                && (old(recovering) ==> did[0].op == Stop) && (old(log.open) ==> did[|did| - 1].op == Close)
                && (health.ejectFailed <==> closeFailed || (old(log.open) && !did[|did| - 1].ok))
                && (health.ejectFailed ==> health.failed)
                && health.manualBackups == old(health.manualBackups) + if old(slots.manual) then 1 else 0
    {
      did := [];
      if health.ejected {
        return;
      }
      var ok;
      ok, did := Shut();
      SafeToRemove(ok);
    }

    /** Says so once everything is closed; a backup that still waits is answered. */
    method SafeToRemove(ok: bool)
      requires log.Valid() && slots.Valid() && Shutdown() && counted <= faults && (unanswered <==> slots.manual || lost)
      requires !health.ejected
      modifies this`health, this`slots, this`initialized, this`unanswered
      ensures Settled() && health.ejected && health.ejectFailed == !ok && (!ok ==> health.failed)
      ensures slots == old(slots).Dropped()
      ensures health.manualBackups == old(health.manualBackups) + if old(slots.manual) then 1 else 0
    {
      hide Freed, Slots.Dropped, Health.Removed;
      initialized := true;
      health := health.Removed(ok, slots.manual);
      slots := slots.Dropped();
      unanswered := lost;
    }

    /** The end of the loop body: rows that have waited for 5 s are flushed. */
    method LoopTail(now: nat) returns (ghost did: seq<Act>)
      requires Settled()
      modifies this`health, this`log, this`acts
      ensures Settled() && acts == old(acts) + did
      ensures if old(log.pending) > 0 && now >= old(log.lastFlush) + 5000 then
                && |did| == 2 && did[0].op == Flush && did[1].op == Space
                && log == old(log).(pending := 0, lastFlush := now)
                && health == if did[0].ok then old(health) else old(health).Faulty()
              else did == [] && log == old(log) && health == old(health)
    {
      did := [];
      if log.pending > 0 && now >= log.lastFlush + FLUSH_MS {
        var flushed := FlushLog(now);
        var told := Attempt(Space);
        did := [Act(Flush, flushed), Act(Space, told)];
      }
    }

    // ---- Every run ----

    /** Once ejected, whatever messages follow: the card is not touched again, and nothing of it is open. */
    method RunAfterEject(requests: seq<Request>, times: seq<nat>)
      requires Settled() && health.ejected && !asleep && |times| == 2 * |requests|
      requires forall i | 0 <= i < |requests| :: Proper(requests[i])
      modifies this
      ensures Valid() && health.ejected && Closed() && acts == old(acts)
    {
      for i := 0 to |requests|
        invariant Settled() && health.ejected && Closed() && acts == old(acts) && !asleep
      {
        ghost var did := LoopTop(Progress(false, 0, false), false);
        did := Handle(requests[i], times[2 * i]);
        if asleep {
          return;
        }
        did := LoopTail(times[2 * i + 1]);
      }
    }
  }

  lemma Within(did: seq<Act>, i: nat)
    ensures i < |did| ==> did[i] in did
  {
  }

  lemma DroppedNone(s: Slots)
    requires s.Valid() && s.deferred < 0
    ensures s.Dropped() == s
  {
  }

  /** A run in which a sleep that fails leaves a manual backup without an answer. */
  method SleepLosesBackup() returns (w: StorageWorker)
    ensures w.Settled() && !w.asleep && w.health.sleepFailed && w.slots == Slots([false, false], NONE_DEFERRED, false)
    ensures w.unanswered && w.health.manualBackups == 0
  {
    w := new StorageWorker(true, true, true);
    ghost var did := w.LoopTop(Progress(true, 0, false), false);
    // The sender claims the slots of its messages.
    w.slots := w.slots.(busy := [true, true]);
    did := w.Handle(SaveState(0, true, true), 0);
    did := w.LoopTop(Progress(true, 0, false), false);
    did := w.Handle(SleepNow(1, false), 0);
  }

  // ---- The slots of the worker are those of the interleaving ----

  /** What the worker sees of the system of both tasks. */
  function Seen<T>(s: System<T>): Slots {
    Slots(s.busy, s.deferred.slot, s.deferred.manual)
  }

  /** A message of the system, as the worker is told of it. */
  function Told<T>(m: Message<T>, stored: bool): Request {
    match m.op
    case Save => SaveState(m.value, false, stored)
    case BackupIgnores => SaveState(m.value, true, stored)
    case Sleep => SleepNow(m.value, stored)
    case Eject => EjectCard
    case Record => Row(true, 0)
    case Export => ExportRows
    case Diagnostics => CrashReport
    case Sound => PlaySound
    case Clear => ClearLogs
  }

  /** n actions of the worker in a row, while the sender does nothing. */
  function Actions<T>(s: System<T>, ok: bool, n: nat): (r: System<T>)
    requires |s.busy| == |s.state| == SLOTS
    ensures |r.busy| == |r.state| == SLOTS
  {
    if n == 0 then s else Next(Actions(s, ok, n - 1), WorkerStep(false, ok))
  }

  lemma {:induction false} ActionsRun<T>(s: System<T>, ok: bool, n: nat)
    requires |s.busy| == |s.state| == SLOTS
    ensures Actions(s, ok, n) == Run(s, Repeated(ok, n))
  {
    hide Next;
    if n > 0 {
      ActionsRun(s, ok, n - 1);
      assert Repeated<T>(ok, n)[..n - 1] == Repeated(ok, n - 1);
    }
  }

  function Repeated<T>(ok: bool, n: nat): (events: seq<Event<T>>)
    ensures |events| == n && forall i | 0 <= i < n :: events[i] == WorkerStep(false, ok)
  {
    seq(n, i => WorkerStep(false, ok))
  }

  /** How many actions the handling of a message takes. */
  function Length<T>(m: Message<T>, ok: bool, checking: bool, ejected: bool): (n: nat)
    ensures n >= 1
  {
    match m.op
    case Save => if ok && checking then 4 else 3
    case BackupIgnores => if ok && checking then 4 else 3
    case Sleep => 5
    case Eject => if ejected then 1 else 3
    case _ => 1
  }

  lemma OneMore<T>(s: System<T>, ok: bool, n: nat)
    requires |s.busy| == |s.state| == SLOTS
    ensures Actions(s, ok, 0) == s && Actions(s, ok, n + 1) == WorkerNext(Actions(s, ok, n), false, ok)
  {
    hide WorkerNext;
  }

  lemma SaveActions<T>(s: System<T>, m: Message<T>, ok: bool)
    requires |s.busy| == |s.state| == SLOTS && s.worker == Persisting(m) && m.value < SLOTS
    requires m.op == Save || m.op == BackupIgnores
    ensures var r := Actions(s, ok, Length(m, ok, s.active, s.ejected) - 1);
            && Seen(r) == Seen(s).After(Told(m, ok), s.active, s.ejected) && r.queue == s.queue && r.worker.Top?
  {
    hide Actions;
    OneMore(s, ok, 0);
    OneMore(s, ok, 1);
    OneMore(s, ok, 2);
  }

  lemma SleepActions<T>(s: System<T>, m: Message<T>, ok: bool)
    requires |s.busy| == |s.state| == SLOTS && s.worker == Dropping(Sleeping(m)) && m.value < SLOTS && m.op == Sleep
    ensures var r := Actions(s, ok, 4);
            && Seen(r) == Seen(s).Dropped().Released(m.value) && r.queue == s.queue
            && (r.worker.Top? || (ok && r.worker.Asleep?))
  {
    hide Actions, Slots.Dropped, Freed;
    DropActions(s, Sleeping(m), ok);
    OneMore(s, ok, 2);
    OneMore(s, ok, 3);
  }

  lemma DropActions<T>(s: System<T>, after: Phase<T>, ok: bool)
    requires |s.busy| == |s.state| == SLOTS && s.worker == Dropping(after)
    ensures var r := Actions(s, ok, 2); Seen(r) == Seen(s).Dropped() && r.queue == s.queue && r.worker == after
  {
    hide Actions;
    OneMore(s, ok, 0);
    OneMore(s, ok, 1);
  }

  lemma {:induction false} AfterFirst<T>(s: System<T>, ok: bool, n: nat)
    requires |s.busy| == |s.state| == SLOTS
    ensures var next := WorkerNext(s, false, ok);
            |next.busy| == |next.state| == SLOTS && Actions(s, ok, n + 1) == Actions(next, ok, n)
  {
    OneMore(s, ok, 0);
    OneMore(s, ok, n);
    hide WorkerNext;
    if n > 0 {
      AfterFirst(s, ok, n - 1);
      OneMore(WorkerNext(s, false, ok), ok, n - 1);
    } else {
      OneMore(WorkerNext(s, false, ok), ok, 0);
    }
  }

  lemma FirstReceives<T>(s: System<T>, ok: bool)
    requires |s.busy| == |s.state| == SLOTS && s.worker.Receiving? && s.queue != []
    ensures WorkerNext(s, false, ok) == Received(s.(queue := s.queue[1..]), s.queue[0])
  {
  }

  /**
   * The atomic actions of the worker on a message have the effect on the slots that Handle states for it. So what
   * holds of the slots in every interleaving holds of the worker's.
   */
  lemma MessageIsActions<T>(s: System<T>, ok: bool)
    requires |s.busy| == |s.state| == SLOTS && s.worker.Receiving? && s.queue != []
    requires Carries(s.queue[0].op) ==> s.queue[0].value < SLOTS
    ensures var m := s.queue[0];
            var r := Actions(s, ok, Length(m, ok, s.active, s.ejected));
            && Seen(r) == Seen(s).After(Told(m, ok), s.active, s.ejected) && r.queue == s.queue[1..]
            && (r.worker.Top? || (m.op == Sleep && ok && r.worker.Asleep?))
  {
    hide Actions, WorkerNext, Received, Told, Slots.After, Length;
    var m, tail := s.queue[0], s.(queue := s.queue[1..]);
    FirstReceives(s, ok);
    AfterFirst(s, ok, Length(m, ok, s.active, s.ejected) - 1);
    ReceivedActions(tail, m, ok);
  }

  /** The system once the message is handled. */
  ghost predicate Handled<T>(s: System<T>, m: Message<T>, ok: bool, r: System<T>) {
    && Seen(r) == Seen(s).After(Told(m, ok), s.active, s.ejected) && r.queue == s.queue
    && (r.worker.Top? || (m.op == Sleep && ok && r.worker.Asleep?))
  }

  lemma SaveHandled<T>(s: System<T>, m: Message<T>, ok: bool)
    requires |s.busy| == |s.state| == SLOTS && (m.op == Save || m.op == BackupIgnores) && m.value < SLOTS
    ensures Handled(s, m, ok, Actions(Received(s, m), ok, Length(m, ok, s.active, s.ejected) - 1))
  {
    hide Actions, WorkerNext, Slots.Dropped, Slots.Released, Slots.Retained;
    SaveActions(Received(s, m), m, ok);
  }

  lemma SleepHandled<T>(s: System<T>, m: Message<T>, ok: bool)
    requires |s.busy| == |s.state| == SLOTS && m.op == Sleep && m.value < SLOTS
    ensures Handled(s, m, ok, Actions(Received(s, m), ok, Length(m, ok, s.active, s.ejected) - 1))
  {
    hide Actions, WorkerNext, Slots.Dropped, Slots.Released, Slots.Retained;
    SleepActions(Received(s, m), m, ok);
  }

  lemma EjectHandled<T>(s: System<T>, m: Message<T>, ok: bool)
    requires |s.busy| == |s.state| == SLOTS && m.op == Eject
    ensures Handled(s, m, ok, Actions(Received(s, m), ok, Length(m, ok, s.active, s.ejected) - 1))
  {
    hide Actions, WorkerNext, Slots.Dropped, Slots.Released, Slots.Retained;
    OneMore(Received(s, m), ok, 0);
    if !s.ejected {
      DropActions(Received(s, m), Top, ok);
    }
  }

  lemma OtherHandled<T>(s: System<T>, m: Message<T>, ok: bool)
    requires |s.busy| == |s.state| == SLOTS && !Carries(m.op) && m.op != Eject
    ensures Handled(s, m, ok, Actions(Received(s, m), ok, Length(m, ok, s.active, s.ejected) - 1))
  {
    hide Actions, WorkerNext, Slots.Dropped, Slots.Released, Slots.Retained;
    OneMore(Received(s, m), ok, 0);
  }

  /** The rest of the handling, once the message is received. */
  lemma ReceivedActions<T>(s: System<T>, m: Message<T>, ok: bool)
    requires |s.busy| == |s.state| == SLOTS && (Carries(m.op) ==> m.value < SLOTS)
    ensures Handled(s, m, ok, Actions(Received(s, m), ok, Length(m, ok, s.active, s.ejected) - 1))
  {
    hide Handled, Actions, Received, Length;
    if m.op == Save || m.op == BackupIgnores {
      SaveHandled(s, m, ok);
    } else if m.op == Sleep {
      SleepHandled(s, m, ok);
    } else if m.op == Eject {
      EjectHandled(s, m, ok);
    } else {
      OtherHandled(s, m, ok);
    }
  }

  /** And those at the top of the loop, that of LoopTop. recovered: the step of the check was its last one. */
  lemma TopIsActions<T>(s: System<T>, recovered: bool, ok: bool)
    requires |s.busy| == |s.state| == SLOTS && s.worker.Top? && Seen(s).Valid()
    ensures var drops := !s.initialized && !(s.active && !recovered);
            var next := WorkerNext(s, recovered, ok);
            var r := Actions(next, ok, if drops && s.deferred.slot >= 0 then 2 else 0);
            Seen(r) == (if drops then Seen(s).Dropped() else Seen(s)) && r.worker.Receiving?
  {
    hide Actions;
    var next := WorkerNext(s, recovered, ok);
    OneMore(next, ok, 0);
    if next.worker.Dropping? {
      DropActions(next, Receiving, ok);
    }
  }

  lemma ReceivedInRange<T>(s: System<T>)
    requires Snapshots.Valid(s) && s.queue != []
    ensures |s.busy| == |s.state| == SLOTS && (Carries(s.queue[0].op) ==> s.queue[0].value < SLOTS)
  {
  }

  /** So in every run of both tasks the worker's handling of a message keeps one owner to each busy slot. */
  lemma HandledKeepsOwners<T>(s: System<T>, ok: bool, k: nat)
    requires Snapshots.Valid(s) && s.worker.Receiving? && s.queue != [] && k < SLOTS
    ensures var r := Actions(s, ok, Length(s.queue[0], ok, s.active, s.ejected));
            && Snapshots.Valid(r) && Seen(r) == Seen(s).After(Told(s.queue[0], ok), s.active, s.ejected)
            && Owners(r, k) == if Seen(r).busy[k] then 1 else 0
  {
    hide Actions, Length, Run, Told, Faithful, Controlled, Pending, Owners;
    var n := Length(s.queue[0], ok, s.active, s.ejected);
    ActionsRun(s, ok, n);
    RunKeeps(s, Repeated(ok, n));
    ReceivedInRange(s);
    MessageIsActions(s, ok);
  }
}
