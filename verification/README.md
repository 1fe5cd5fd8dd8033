# Surveillance Hound: proofs about its stateful cores

Surveillance Hound is firmware for a handheld passive-radio detector. This project models the parts of it that keep
state and need no hardware, and proves properties of those models for all inputs and all runs:

- **Crash-safe persistence.** `Crc32`, `StateRecords` and `StateStore` model the saved state: five blobs in two
  alternating slots each, published by one generation word. A power cut or a write failure may fall on any step and
  leave anything in the slot being written. `IgnoreBackup` models the second protocol, two authenticated files on the
  card, byte by byte. `StateFacts` says field by field what saves of every version are found as, `CompanionBook` how the
  companion's part of the state grows.
- **The storage worker.** `Snapshots` is the interleaving of the UI task and the worker over the two snapshot slots,
  one atomic action at a time, `SnapshotFacts` that it makes progress. `Worker` is the worker's loop and its handling of
  every message, with every access to the card. `HistoryRecovery` is the incremental check of the log files at startup,
  `HistoryFacts` what it finds.
- **The detection engine.** `Engine` (cache, fused evidence, scores, reports), `Burst` (deauthentication bursts),
  `AccessPoints` (networks that are open here and protected there), `RecentCounts` (identities seen lately),
  `MealGuard` (feeding cooldowns, also across a restart) and `TagWatch` (Travel Watch). `EngineFacts` and `TagPresence`
  say what their entries mean for the sightings behind them.
- **JSON and log records.** `JsonText` is the grammar. `JsonParser` and `JsonExact` are the parser as functions, and
  its exact language; `JsonFacts` says what strings stand for. `JsonTokens` and `JsonReader` are the token table and the
  reader that fills it in place. `JsonWriter` is the bounded writer. `JsonFields`, `LogRecord` and `RecordWriter` make a
  log record, `LogCheck` and `LogReader` check one, `LogExport` rewrites one for others, `Calendar` and `CalendarFacts`
  agree on time. `RecordFacts` says what a reader of a record gets back, `ExportCheck` which exports pass the check that
  comes with the project. `LogChain` connects them from the engine's report to the next startup.

Code that changes things step by step is a class or a method with loops, proved against functions over its state;
what the source promises is then proved about those functions, or stated directly in the methods' contracts. Where a
class has a `ghost` history (awards, sightings, frames, card accesses), the code keeps none: it is what the invariant
is about. The I/O results of flash, card and random calls are parameters or arbitrary choices, so every statement holds
for all of them.

## Results that qualify what the program promises

- **A failed final commit can tear the next save.** `persist` leaves the generation in RAM unchanged when the last
  commit fails (`components/storage/state_store.cpp:141-145`), even if the word had reached the flash. The next save
  in the same session then writes the slots a boot would read. `StateStore.FailedCommitLags` gives the run and the
  mixed state; `StateStore.CutSafeExactly` says exactly when a save survives a cut at any step: when the next
  generation's parity is not that of the published one (or no further generation exists).
- **A torn first ignore backup ends all backups.** `backup_ignores` refuses to write when a file exists and none is
  valid (`components/storage/ignore_backup.cpp:120-122`). If the first backup is cut short, no later one is ever
  written (`IgnoreBackup.StuckForever`); `IgnoreBackup.StuckExactly` says when a step ends there.
- **"Same identity" is not transitive.** Samsung entries are compared by broadcast ID with each other, but by address
  with others (`components/sniffer_core/engine.cpp:314-317`). One entry of another kind can stand in for two tags
  (`RecentCounts.SharedAddressLoses`). No bucket ever counts too many, and the counts are complete if and only if no
  entry that stands for its identity, the first of its best score, is beaten by an entry of another identity
  (`RecentCounts.CountsExactly`).
- **Evidence can come back after 2^32 milliseconds.** Evidence times are kept in 32 bits, so evidence is taken for fresh
  if and only if its age is at most 30 s up to multiples of 2^32 ms (`Engine.FreshIsRecent`). `Engine.WrapMakesFresh`
  runs the engine on an identity that is hit once by one rule and from then on seen every 30 s through another rule of
  its category: after seven weeks the evidence of that one hit is fresh again.
- **A failed sleep can leave a backup request unanswered.** `Sleep` drops a deferred manual backup without counting it
  as completed (`components/storage/storage.cpp:332`); `Worker.StorageWorker.Handle` states that this is the only way,
  and `Worker.SleepLosesBackup` is a run in which the device then stays awake.
- **Cooldowns after eviction.** A source that was fed may be forgotten, but only after 128 later meals of others, so
  never within 645 s (`MealGuard.NeverFedEarly`); `MealGuard.FedAgainEarly` is a run that feeds a source again after
  exactly 645 s. Without DEAUTH meals, a source that was fed is refused if and only if its last meal is less than 1800
  s ago and it is among the 128 sources fed last (`MealGuard.CoolingExactly`). A DEAUTH meal's own cooldown is only
  600 s. After a restart each restored source takes a slot from the start, and only the 32 longest of 128 cooldowns
  are carried over (`MealGuard.RestartKeepsCooling`).
- **A crowd of access points can hide a clash.** The table holds the 24 heard last. A security rule fires if and only
  if the other access point is one of them (`AccessPoints.ApTable.Fires`, `AccessPoints.KeptExactly`);
  `AccessPoints.CrowdHidesClash` is a run in which 24 others make it miss a clash. It never misfires.
- **Exports with a time of day fail the project's own check.** The exporter copies the time and its quality
  (`components/sniffer_core/records.cpp:341-352`), as the export schema allows; `tools/validate_export.py:53-58`
  asks for rows without. So the export of one of the firmware's records passes that check if and only if the clock was
  not set when the record was made (`ExportCheck.OwnExportPasses`). `ExportCheck.RowPassesExactly` is the exact
  condition for every valid record.

## Model

| member | source | states |
|---|---|---|
| Crc32.Checksum | components/storage/state_store.cpp:11-19 | the byte and bit loops compute the checksum function |
| Crc32.BitUnstepUndoes | components/storage/state_store.cpp:15-16 | the bit step is invertible: no two registers give the same next one |
| Crc32.BurstDetected | components/storage/state_store.cpp:11-19 | inputs of equal length that differ only within four consecutive bytes never have the same checksum |
| Crc32.CheckValue | components/storage/state_store.cpp:11-19 | the checksum of "123456789" is 0xcbf43926, the check value of CRC-32 |
| StateRecords.UnlockKeepsValid | components/sniffer_core/include/sniffer/companion.hpp:97-105 | unlocking outfits never makes valid companion data invalid |
| CompanionBook.ScentTells | components/sniffer_core/include/sniffer/companion.hpp:84-96 | after any detections a scent tells how many there were, the first and the last time, the last and best score and the strongest signal |
| CompanionBook.Book.Observe | components/sniffer_core/include/sniffer/companion.hpp:84-96 | a detection is noted in the scent of its category, and nothing else changes |
| CompanionBook.Book.IsIgnored | components/sniffer_core/include/sniffer/companion.hpp:105-112 | a device is ignored exactly if its hash is listed, never for the hash 0 |
| CompanionBook.Book.Ignore | components/sniffer_core/include/sniffer/companion.hpp:113-124 | a device is listed afterwards exactly if it was, or there was room for it; none is ever put out of the list |
| StateFacts.UnlockMeans | components/sniffer_core/include/sniffer/companion.hpp:97-104 | which experience and how many discoveries unlock each outfit; none is taken away |
| StateFacts.DiscoveriesCount | components/sniffer_core/include/sniffer/companion.hpp:78-83 | the discoveries are the categories that were observed |
| StateFacts.GuardPromises | components/storage/include/state.hpp:50-90 | what a state that passes the guard promises of its settings, pet, cooldowns, companion, battery and appearance |
| StateFacts.ChoicesStayValid | components/storage/include/state.hpp:50-90 | any choice of settings and appearance, and any pet, within those limits leaves a state valid |
| StateStore.SavedReadsBack | components/storage/state_store.cpp:41-113 | a valid state whose five parts were written is read back from that generation unchanged |
| StateFacts.GenerationFound | components/storage/state_store.cpp:71-113 | a generation of the current version, with a companion and an appearance of any version, is found exactly as the state with the fields of its parts, if that is valid |
| StateFacts.Generation4Found | components/storage/state_store.cpp:77-93 | one of version 4 is found with the default appearance |
| StateFacts.Generation3Found | components/storage/state_store.cpp:94-101 | one of version 3 is found with a new companion that has the outfits earned by experience |
| StateFacts.V2Found | components/storage/include/state.hpp:91-108 | a V2 save is found with each of its fields, and hides a V1 save |
| StateFacts.V1Found | components/storage/include/state.hpp:109-136 | a V1 save is found with each of its fields, and the alerts that its one switch stood for |
| StateFacts.NothingFound | components/storage/state_store.cpp:170-181 | a board is fresh exactly if no save exists; a save of the wrong size is refused |
| StateFacts.DamagedRefused | components/storage/state_store.cpp:71-76 | a generation of which a part is missing, damaged or of another save is not found |
| StateStore.SavedExactly | components/storage/state_store.cpp:125-146 | a save succeeds if and only if the state is valid, a generation is left and every write works; then a boot finds exactly that state |
| StateStore.BootKeeps | components/storage/state_store.cpp:147-185 | a boot that succeeds leaves the state it found, with one more boot, the reset reason and a decay clock of 0, or the defaults and the given key on a fresh board; it succeeds whenever something readable or nothing is found, a generation is left, and all writes work |
| StateStore.PersistAtomic | components/storage/state_store.cpp:125-146 | while the live slots are spared, a save leaves what a boot finds either unchanged or equal to the new state, whatever fails or is cut, and success means published |
| StateStore.RunAtomic | components/storage/state_store.cpp:71-185 | over every run of saves, failures, cuts, boots and migrations, from any flash contents, a boot finds what one atomic cell would hold, if no save is tried while the RAM generation lags behind the published word |
| StateStore.RestartsDisciplined | components/storage/state_store.cpp:125-185 | that is so in every run in which the device is restarted or switched off between a final commit that failed with its word visible and the next save |
| StateStore.NeverMixed | components/storage/state_store.cpp:71-185 | that cell only ever holds its first content or a whole state that some save or boot of the run set out to store |
| StateStore.LiveSlotsTear | components/storage/state_store.cpp:128-137 | when the next generation shares the live slots, some save and some cut leave a mixed or unreadable state |
| StateStore.CutSafeExactly | components/storage/state_store.cpp:125-146 | every save survives every cut if and only if the next generation's slots are not the live ones, or there is no next generation |
| StateStore.FailedCommitLags | components/storage/state_store.cpp:141-145 | after a final commit that fails although its word is visible, the next save can be torn into a mixed state |
| StateStore.Store.PersistState | components/storage/state_store.cpp:125-146 | the method changes flash and RAM generation exactly as the save function says |
| StateStore.Store.LoadState | components/storage/state_store.cpp:147-185 | the method boots exactly as the load function says, and leaves what was found, field by field, but for the boot count, the reset reason and the decay clock |
| IgnoreBackup.DecodesImage | components/storage/ignore_backup.cpp:22-49 | decoding the image of a valid list and generation gives them back |
| IgnoreBackup.OnlyImageDecodes | components/storage/ignore_backup.cpp:22-49 | whatever decodes is byte for byte the image of what it decodes to |
| IgnoreBackup.Encode | components/storage/ignore_backup.cpp:125-137 | the buffer is filled with exactly the image |
| IgnoreBackup.DecodeBytes | components/storage/ignore_backup.cpp:22-49 | the tag, generation and entry loops compute the decoding function |
| IgnoreBackup.BackupAtomic | components/storage/ignore_backup.cpp:73-153 | the newest valid file is never opened for writing; afterwards a read finds the old pair or the new one with the next generation; success means new, unchanged means nothing written |
| IgnoreBackup.RunAtomic | components/storage/ignore_backup.cpp:73-153 | over every run a read finds the first pair or a list some attempt was given, and each acknowledged write raised the generation |
| IgnoreBackup.StuckForever | components/storage/ignore_backup.cpp:120-122 | once a file exists and none is valid, no run of backups changes anything |
| IgnoreBackup.StuckExactly | components/storage/ignore_backup.cpp:118-153 | a backup ends in that state if and only if it is the first, gets as far as writing, and is stopped short of the image |
| IgnoreBackup.NewestIs | components/storage/ignore_backup.cpp:73-88 | the newest backup is the authentic one of the highest generation, the first file's of two equal ones |
| IgnoreBackup.BackupAnswers | components/storage/ignore_backup.cpp:114-153 | every backup of a list that is not the newest one is written with the next generation if the write goes through; the same list is left alone; nothing else is answered unless the key, the list, a read fault, the stuck state or the last generation keeps it from being tried |
| IgnoreBackup.IgnoreFiles.FindLatest | components/storage/ignore_backup.cpp:73-88 | the running best over both files is the newest valid one |
| IgnoreBackup.IgnoreFiles.Backup | components/storage/ignore_backup.cpp:114-153 | the method changes the files and answers exactly as the backup function says |
| Snapshots.StepKeeps | components/storage/storage.cpp:206-412 | every atomic action of either task keeps ownership, contents, control and order |
| Snapshots.OneOwner | components/storage/include/storage_message.hpp:35-78 | in every interleaving a busy slot has exactly one owner among sender, queue, message in hand and deferred backup, and a free slot none |
| Snapshots.StateStands | components/storage/include/storage_message.hpp:44-56 | no action writes a slot's state except the copying sender that owns it alone |
| Snapshots.PersistsAccepted | components/storage/storage.cpp:227-250 | in every interleaving the states handed to persist are the accepted ones, in order, unchanged, none lost and none twice |
| Snapshots.NothingLeaks | components/storage/storage.cpp:215-250 | with both tasks idle and the queue empty a slot is free; after the startup check both are |
| SnapshotFacts.SendEnds | components/storage/storage.cpp:392-412 | undisturbed, a send is over within six actions; it succeeds if and only if a slot is free and the queue has room, with the state in the first free slot, and leaves nothing claimed otherwise |
| SnapshotFacts.ServesAll | components/storage/storage.cpp:206-412 | left alone, the worker hands every accepted state to persist within ten actions for each queued message and eight more, unless it falls asleep |
| SnapshotSlots.Slots.Claim | components/storage/include/storage_message.hpp:44-53 | claims the first free slot with the given state, or changes nothing |
| SnapshotSlots.DeferredBackup.Retain | components/storage/include/storage_message.hpp:66-71 | the new snapshot takes the place of the deferred one, whose slot becomes free; a manual request is remembered |
| SnapshotSlots.DeferredBackup.Release | components/storage/include/storage_message.hpp:72-77 | the deferred slot becomes free and nothing is deferred |
| Worker.StorageWorker.Append | components/storage/storage.cpp:251-281 | exactly when the log is open and healthy, a row that is not a demonstration is written behind the others, after a log of 4 MiB has been flushed, closed and given way to the next; it counts if the write succeeds, the tenth that waits is flushed, and what fails is a fault; the accesses to the card are exactly these |
| Worker.StorageWorker.Eject | components/storage/storage.cpp:347-370 | everything on the card is closed and nothing waits, even when closing fails, which is then shown; a backup that waits is answered; a second eject changes nothing |
| Worker.StorageWorker.PrepareSleep | components/storage/storage.cpp:327-346 | the check is given up, the snapshot and any deferred slot are freed on every branch, the list is backed up unless the check was running, the log flushed; the device sleeps with the log closed exactly if the save, the closing of the check and the flush work, else the failure is shown |
| Worker.StorageWorker.Handle | components/storage/storage.cpp:227-382 | what each message does to the card, the slots and the counts; no message after an eject touches the card; only Eject ejects; a manual backup is left unanswered only by a sleep that drops it |
| Worker.StorageWorker.LoopTop | components/storage/storage.cpp:206-224 | when the check is over, an empty log is opened if the card may be used, or the fault is shown, and the deferred backup is done; in all other cases the log is as it was; every fault of the check found since the last time, also by a cancel, goes to the error count; an ejected card is not touched |
| Worker.StorageWorker.Save | components/storage/storage.cpp:228-250 | a save counts as one or as an error and frees its slot; while the card is checked it is kept for a backup in place of an earlier one, else the list is backed up if asked for, changed or not yet there |
| Worker.StorageWorker.ExportLogs | components/storage/storage.cpp:109-140 | the log is flushed, closed while the export is made, and opened again; the export counts exactly if all of that works |
| Worker.StorageWorker.Clear | components/storage/storage.cpp:290-326 | all logs are removed after the open one is flushed and closed, and the first one is opened |
| Worker.StorageWorker.LoopTail | components/storage/storage.cpp:385-389 | rows that have waited for 5 s are flushed |
| Worker.StorageWorker.RunAfterEject | components/storage/storage.cpp:206-390 | over every run of messages after an eject the card is not accessed and nothing on it is open |
| Worker.SleepLosesBackup | components/storage/storage.cpp:327-346 | a run in which a sleep that fails leaves a manual backup unanswered |
| Worker.MessageIsActions | components/storage/storage.cpp:227-370 | the effect of a message on the slots that the worker's methods state is that of the worker's atomic actions in the interleaving with the UI |
| Worker.TopIsActions | components/storage/storage.cpp:206-224 | so is that of the loop top |
| Worker.HandledKeepsOwners | components/storage/include/storage_message.hpp:35-78 | so, in every interleaving, handling a message as the worker's methods do keeps exactly one owner to each busy slot and none to a free one |
| HistoryRecovery.StepsAdd | components/storage/history_recovery.cpp:56-114 | a step of a and then one of b is a step of a + b |
| HistoryRecovery.TickProgress | components/storage/history_recovery.cpp:56-114 | every turn of an active check decreases a measure of the work left |
| HistoryRecovery.StepsReachEnd | components/storage/history_recovery.cpp:56-114 | enough budget, however it is cut, ends the check in one and the same state |
| HistoryRecovery.RunsReference | components/storage/history_recovery.cpp:38-114 | the check treats the card as the file-by-file reference does, which knows no buffers or positions |
| HistoryFacts.RowsOf | components/storage/history_recovery.cpp:81-112 | a file that is not broken is accepted rows, all of them counted, and a short rest without newline |
| HistoryFacts.WritableExactly | components/storage/history_recovery.cpp:38-114 | the card stays writable if and only if the directory can be read, has at most 4096 logs, and each of them can be opened and closed, holds only accepted rows, and ends in at most a short unfinished one that was cut off; that is, no error is counted |
| HistoryRecovery.ReferenceCuts | components/storage/history_recovery.cpp:38-55 | a file is cut, to its complete rows, if and only if it is reached, no fault came before, and all that is wrong is an unfinished last row; no other file changes |
| HistoryRecovery.TornMeans | components/storage/history_recovery.cpp:89-100 | what is cut off is nonempty, has no newline and is shorter than the buffer, and the rest is clean |
| HistoryRecovery.RepairLasts | components/storage/history_recovery.cpp:38-55 | a repaired file is clean when it is checked again |
| HistoryRecovery.OwnCardKept | components/storage/history_recovery.cpp:38-114 | a card of logs of accepted rows, each with the beginning of another row, and no I/O fault: the check ends without a fault and leaves every complete row and nothing else |
| HistoryFacts.OwnCardCounted | components/storage/history_recovery.cpp:61-112 | on such a card every file and every complete row is counted |
| HistoryRecovery.CancelWritesNothing | components/storage/history_recovery.cpp:27-37 | cancelling anywhere closes and changes no file |
| HistoryRecovery.HistoryCheck.Advance | components/storage/history_recovery.cpp:56-114 | the method's fields follow the step function |
| HistoryRecovery.HistoryCheck.Finish | components/storage/history_recovery.cpp:38-55 | the method finishes and repairs a file as the function says |
| MealGuard.Guard.AwardMeal | components/sniffer_core/engine.cpp:362-383 | a meal is awarded exactly when the score, the global, category and source cooldowns allow; it takes its source's slot or the one with the earliest deadline, and the cooldown laws keep holding |
| MealGuard.EvictedLongAgo | components/sniffer_core/engine.cpp:371-379 | a source whose slot is taken was fed at least 128 meals ago or is past its cooldown |
| MealGuard.NeverFedEarly | components/sniffer_core/engine.cpp:362-383 | two meals of a source that is not fed as DEAUTH between are at least 645 s apart, because losing its slot takes 128 other meals; 5 s less for each source that was restored at boot |
| MealGuard.CoolingExactly | components/sniffer_core/engine.cpp:362-383 | without DEAUTH meals, a source cools down if and only if its last meal is less than 1800 s ago and at most 128 sources were fed from then on; one that was restored and not fed since cools down whenever this holds |
| MealGuard.FedAgainEarly | components/sniffer_core/engine.cpp:362-383 | a run of 130 meals that feeds the first source again after 645 s |
| MealGuard.Guard.Snapshot | components/sniffer_core/engine.cpp:393-402 | what is saved are the 32 latest deadlines, as time left |
| MealGuard.SavedFrom | components/sniffer_core/engine.cpp:393-402 | the saved sources are distinct sources still cooling down, and none that has longer to go than a saved one is missing |
| MealGuard.Guard.Restore | components/sniffer_core/engine.cpp:384-392 | the table holds the saved sources with whole cooldowns, and the cooldown laws hold from there on if they are distinct |
| MealGuard.RestartKeepsCooling | components/sniffer_core/engine.cpp:384-402 | a restart invents no cooldown and shortens none that it carries over; it drops one only if 32 saved ones have at least as long to go |
| TagWatch.MinutesNeedTime | components/sniffer_core/include/sniffer/tag_watch.hpp:96-98 | the minute count is the number of occupied minutes of an unbroken chain, which bounds its length |
| TagWatch.FreshNeverDisplaced | components/sniffer_core/include/sniffer/tag_watch.hpp:79-89 | a sighting of another identity never displaces or changes an entry that is still fresh |
| TagWatch.Watch.Observe | components/sniffer_core/include/sniffer/tag_watch.hpp:60-101 | every entry stays backed by a chain of accepted sightings since the start, and the table changes as stated |
| TagWatch.Watch.Warning | components/sniffer_core/include/sniffer/tag_watch.hpp:102-108 | a warning has a chain of sightings over at least 600 s with gaps of at most 120 s in at least 8 minutes; without one there is no such entry |
| TagPresence.NearIsTracked | components/sniffer_core/include/sniffer/tag_watch.hpp:60-101 | an identity that stays near, and finds room when first seen, is tracked with its exact first and last time, occupied minutes and last score, whatever else is observed between |
| TagPresence.WarnsExactly | components/sniffer_core/include/sniffer/tag_watch.hpp:24-31 | such an identity is ready for a warning if and only if it was seen over 600 s in 8 minutes, and last within 120 s |
| Burst.PushRings | components/sniffer_core/engine.cpp:126-129 | the ring always holds the latest frames of the slot's history |
| Burst.FiresExactly | components/sniffer_core/engine.cpp:126-130 | on ordered frames it fires if and only if this frame and the 19 before it span at most 10 s |
| Burst.BurstTable.Frame | components/sniffer_core/engine.cpp:104-131 | a frame is recorded in the only slot of its address and channel, else in a free or least recent one, and fires exactly on a burst there |
| AccessPoints.KeptExactly | components/sniffer_core/engine.cpp:160-181 | on a clock that moves on, the table holds exactly the 24 access points heard last, each with its newest beacon |
| AccessPoints.KeptIfFew | components/sniffer_core/engine.cpp:160-181 | also with beacons of the same time: an access point is kept if no more than 24 were heard from its time on |
| AccessPoints.LostIfMany | components/sniffer_core/engine.cpp:160-181 | and it is kept only if fewer than 24 were heard later |
| AccessPoints.FewAllKnown | components/sniffer_core/engine.cpp:136-157 | while at most 24 are heard within 30 s, every newest beacon that a rule asks for is one it can know |
| AccessPoints.SuspectIs | components/sniffer_core/engine.cpp:136-157 | what makes two access points clash, and that two of four differences corroborate it |
| AccessPoints.ApTable.Fires | components/sniffer_core/engine.cpp:132-157 | a security rule fires if and only if a clashing access point is in the table; that is, among the 24 heard last, by its newest beacon; beacons of the same time leave open only the order among them |
| AccessPoints.ApTable.Remember | components/sniffer_core/engine.cpp:160-181 | each announcement replaces the one of its access point, else the first unused slot, else the first of those heard longest ago; what is forgotten is never newer than what is kept |
| AccessPoints.CrowdHidesClash | components/sniffer_core/engine.cpp:132-181 | a run of 25 access points after which a rule stays silent on a clash with the first |
| RecentCounts.Counts | components/sniffer_core/engine.cpp:298-327 | the loops count the entries that no active entry of the same identity beats |
| RecentCounts.NoneTwice | components/sniffer_core/engine.cpp:309-322 | two counted entries are never the same identity |
| RecentCounts.CountsExactly | components/sniffer_core/engine.cpp:298-327 | for every cache, no bucket counts more than the identities whose best score lies in it; the counts are these numbers, and add up to all identities, if and only if no entry that stands for its identity is beaten by one of another |
| RecentCounts.CountsAreIdentities | components/sniffer_core/engine.cpp:298-327 | in particular they are while no tag shares its address with another kind |
| RecentCounts.SharedAddressLoses | components/sniffer_core/engine.cpp:314-317 | with a shared address one entry can hide two other identities |
| RecentCounts.CountsTell | components/sniffer_core/engine.cpp:298-327 | some enabled identity of at least 80, 50 or 20 was seen within 90 s if and only if the counts down to there are not all zero |
| Engine.SeenConsistent | components/sniffer_core/engine.cpp:222-238 | the signal sum stays between the extremes times the count, also at the saturated counter |
| Engine.FreshIsRecent | components/sniffer_core/engine.cpp:240-251 | evidence is taken for fresh if and only if its age is at most 30 s up to multiples of 2^32 ms, and its identity was seen without a gap all that time |
| Engine.WrapMakesFresh | components/sniffer_core/engine.cpp:182-297 | a run of the engine for any span: an identity hit once by this rule, and then seen every 30 s through another rule of its category, shows that evidence as fresh exactly if the span is at most 30 s up to multiples of 2^32 ms; so after 2^32 ms, and not one millisecond earlier |
| Engine.ScoreBounded | components/sniffer_core/engine.cpp:258-279 | a score is between 1 and 100 and at most the cap of some fused rule |
| Engine.ScoreJustified | components/sniffer_core/engine.cpp:244-279 | the score is at most the cap of a rule that matched within 30 s, or since whose match the identity was seen without a gap for 2^32 ms |
| Engine.ScoredFairly | components/sniffer_core/engine.cpp:255-279 | the score is the strength of the only fresh rule, or the largest strength and a quarter of the next if neither is generic, cut at the largest cap; a contradiction lowers it by 20, to no less than 1; without one it is at least every fresh rule's strength; the rules shown are the strongest, each once |
| EngineFacts.StrengthIs | components/sniffer_core/engine.cpp:25-34 | the strength of a rule is the largest that its score, its cap and the limits for weak and for named clues allow |
| EngineFacts.GroupsShared | components/sniffer_core/engine.cpp:21-24 | exact and prefix rules of network names share their evidence, those of device names theirs, and no others do |
| EngineFacts.JoiningIs | components/sniffer_core/engine.cpp:184-190 | the rules that join are exactly those that hit, of a category that is switched on |
| EngineFacts.SightedTally | components/sniffer_core/engine.cpp:213-238 | the tally of an identity over any sightings: how often, the sum and the extremes of the signal, the first time, and when and where it was seen last |
| EngineFacts.FoundAgain | components/sniffer_core/engine.cpp:191-202 | an identity is found again exactly by category, radio, and its identifier, if that is readable both times, else its address |
| EngineFacts.DueAgain | components/sniffer_core/engine.cpp:280-293 | after a report the next is due after 30 s, or when the grade rises or the tag claims another state, and not before |
| Engine.VictimUntouched | components/sniffer_core/engine.cpp:203-212 | with 128 slots and 19 categories the slot given up is never one this call has touched |
| Engine.GatheredStrongest | components/sniffer_core/engine.cpp:240-242 | after the rules of a category have joined, each group holds the strongest of its still fresh clue and the ones that joined, and is fresh if any joined |
| Engine.MergedNext | components/sniffer_core/engine.cpp:184-242 | one more rule, whatever its category and whatever slot is given up for it, leaves every touched slot as the rules of its own category alone would make it |
| Engine.Engine.Match | components/sniffer_core/engine.cpp:184-242 | exactly the enabled categories that are hit get a slot, their identity's or the least recently seen; on a clock that moved on the slots are separate, each holds what the rules of its category alone make of it, and the rest of the cache is untouched; entries stay unique outside Samsung tags |
| Engine.Engine.Report | components/sniffer_core/engine.cpp:244-296 | every touched entry is scored fairly; the first one that is due is reported and marked, if the last report is 100 ms ago, and nothing else changes |
| Engine.Engine.Ingest | components/sniffer_core/engine.cpp:182-297 | an observation is gathered and answered as above, keeps the cache sound, leaves every touched entry fairly scored, and what it reports is consistent and scored 1 to 100 |
| JsonParser.ValueSound | components/sniffer_core/json.cpp:81-202 | whatever the parser accepts is the text of a well-formed tree within the bounds |
| JsonExact.ValueComplete | components/sniffer_core/json.cpp:81-202 | every text of a well-formed tree within the bounds is accepted, and gives that tree |
| JsonExact.ParseExactly | components/sniffer_core/json.cpp:203-212 | the parser accepts exactly RFC 8259 sections 2 to 7 within its bounds, with distinct readable keys, and the tree is the only one |
| JsonTokens.NodeNested | components/sniffer_core/json.cpp:81-202 | the token list is a preorder: a later token lies inside an earlier one exactly when the earlier link passes it |
| JsonTokens.MemberDescribed | components/sniffer_core/json.cpp:62-73 | key and value tokens of a member stand next to each other, span their texts, and link to the next member |
| JsonReader.Reader.Value | components/sniffer_core/json.cpp:81-202 | the reader accepts what the parser function accepts, and appends exactly the tokens of its tree |
| JsonReader.Reader.Parse | components/sniffer_core/json.cpp:203-212 | a text is accepted exactly as the parser says, and the table describes its tree |
| JsonReader.Reader.Taken | components/sniffer_core/json.cpp:107-112 | following the links finds a duplicate key exactly when there is one |
| JsonReader.Reader.Member | components/sniffer_core/json.cpp:62-73 | the token of the one value with that name is found, or there is none |
| JsonReader.Reader.StringAt | components/sniffer_core/json.cpp:15-61 | a string token's value is copied exactly when it is nonzero ASCII and fits with its terminator |
| JsonFacts.PlainDecodes | components/sniffer_core/json.cpp:55-58 | a plain character of a string stands for itself |
| JsonFacts.EscapeDecodes | components/sniffer_core/json.cpp:22-53 | which character each escape stands for, and that there are no other escapes |
| JsonFacts.UnicodeDecodes | components/sniffer_core/json.cpp:40-50 | four hexadecimal digits stand for the character of that number, which is taken from 1 to 127 |
| JsonReader.FromChars | components/sniffer_core/json.cpp:74-80 | the digit loop with its overflow test accepts exactly a sign and digits whose value fits in 64 bits, and yields that value |
| JsonWriter.StringRoundTrip | components/sniffer_core/records.cpp:27-44 | a string of characters 1 to 127 that is written is accepted by the reader and read back unchanged |
| JsonWriter.DecimalReads | components/sniffer_core/records.cpp:22-26 | every 64-bit number that is written is a number of the grammar and is read back |
| JsonWriter.Writer.Text | components/sniffer_core/records.cpp:13-21 | output is all of what was offered or marked failed for good |
| JsonWriter.JsonEscape | components/sniffer_core/records.cpp:55-61 | the length and text of the quoted string, or 0 exactly when it does not fit with its terminator |
| Calendar.ParsesFormatted | components/sniffer_core/utilities.cpp:34-71 | a printed time has the validator's shape and is parsed back to its minute, from 2020 through 2099 |
| Calendar.ReadUtc | components/sniffer_core/utilities.cpp:34-60 | the loops accept exactly the valid minutes and compute their seconds |
| CalendarFacts.DatesFollow | components/sniffer_core/utilities.cpp:50-56 | day 0 is 1970-01-01, and each later day has the date after, by the lengths of the months |
| CalendarFacts.PrintedYears | components/sniffer_core/utilities.cpp:60-71 | a time is printed exactly from 2020 through 2099 |
| LogRecord.AverageBetween | components/sniffer_core/records.cpp:119-120 | the mean, divided towards zero, lies between the extremes |
| LogRecord.RecordValid | components/sniffer_core/records.cpp:62-140 | a record of a consistent detection passes every check of the validator |
| LogRecord.WrittenAccepted | components/sniffer_core/records.cpp:304-307 | the line of such a record is accepted by valid_log_record |
| RecordFacts.EventNames | components/sniffer_core/records.cpp:75-79 | an event id is the session and, after hyphens, the time, the category and the count as numerals |
| RecordFacts.SameEvent | components/sniffer_core/records.cpp:75-79 | records with the same event id agree in all four |
| RecordFacts.AverageTruncates | components/sniffer_core/records.cpp:119-120 | the mean signal is the sum divided by the count, cut towards zero |
| RecordFacts.LineTells | components/sniffer_core/records.cpp:62-140 | what the reader gets back from a written line: every field, in terms of the detection |
| RecordWriter.WriteRecord | components/sniffer_core/records.cpp:62-140 | writes exactly the record's line, or 0 when it is refused or does not fit |
| LogReader.ValidLogRecord | components/sniffer_core/records.cpp:201-307 | the checks over the token table accept exactly the valid lines |
| LogReader.CheckRuled | components/sniffer_core/records.cpp:289-300 | the walk over the list's tokens accepts exactly one to four rule ids |
| LogExport.ExportParses | components/sniffer_core/records.cpp:308-365 | an export line is accepted by the same reader |
| LogExport.ExportSound | components/sniffer_core/records.cpp:308-365 | its copied fields have the source's values, its identifiers the new ones |
| LogExport.ExportKeys | components/sniffer_core/records.cpp:341-363 | the fields are the fixed 25, each once |
| LogExport.ExportOnly | tools/validate_export.py:10-12 | an export line answers to no name outside the fixed set |
| LogExport.IdentityKept | components/sniffer_core/records.cpp:313-340 | two exported records share their new session exactly if they shared the session, and the new identifier exactly if they shared session and identifier, as far as the digests of those tell them apart |
| LogExport.Encode | components/sniffer_core/records.cpp:321-333 | the register loop yields the digest's first twenty groups of five bits, in the token alphabet |
| LogExport.ExportLogRecord | components/sniffer_core/records.cpp:308-365 | writes exactly the export of a valid line, or 0 when it is invalid, unkeyed or does not fit |
| ExportCheck.RowPassesExactly | tools/validate_export.py:40-111 | the exported row of a valid record passes the row check that comes with the project if and only if the record has no time of day, its firmware and pack names have the usual form, and its rule ids are different names of at least two characters that begin with a letter |
| ExportCheck.ExportPassesExactly | components/sniffer_core/records.cpp:308-365 | so does the line that the exporter completes, when it is read again |
| ExportCheck.OwnExportPasses | tools/validate_export.py:53-58 | so the export of one of the firmware's own records passes if and only if the clock was not set |
| LogChain.ReportedAccepted | components/sniffer_core/records.cpp:62-140 | whatever the engine reports may be written, and if its line fits it is a valid log record |
| LogChain.OwnLogSurvives | components/storage/history_recovery.cpp:89-112 | a log of written records, cut off anywhere in the next one, is never taken for corrupt and keeps every complete record |
| LogChain.OwnCardSurvives | components/storage/history_recovery.cpp:38-114 | the startup check of a card of such logs ends writable, with every complete record of every log and nothing else |

## Left out

- Radio frame parsers, and the matching of rules to them: observations and which rules they hit are inputs of the engine; `Burst` and `AccessPoints` decide the behaviour rules on their own.
- UI, drawing, touch, pet needs, outfits, display timeouts and the sound driver: mostly one-branch facts.
- LogExport.IdentityKept: assumes that the digests of the sessions and identities in question differ where they are cut.
- HMAC, SHA-256 and random numbers: arbitrary functions; an unfinished backup file is assumed not to authenticate, and failing digest calls are modelled only where the exporter handles them.
- NVS, FatFs and stdio: named blobs, byte strings and arbitrary results; the layout of blobs in bytes is not modelled, and a matching checksum is one flag of a blob.
- The memory model of the two tasks: snapshot actions are atomic and in program order.
- Save retries of the UI (`components/sniffer_core/include/sniffer/save_retry.hpp`): two timestamps and a flag.
- The files an export writes around its rows (directory, summary, manifest); the worker knows only that the log is closed and reopened.
- The file checks of `tools/validate_export.py` (manifest, hashes, row count): `ExportCheck` is its check of one row, read by the firmware's own reader.
- write_export_record: the same writer and fields as write_record and the exporter; it would add only easy members.
- Burst.BurstTable.Frame: the guard for a clock that goes back is kept, but the exact window is stated for ordered frames.
- Engine.Engine.Match: requires a clock that never goes back, as the firmware's is; separate slots are proved when it has moved on since the last call.
- AccessPoints.ApTable.Fires: in terms of what was heard it is exact if no two beacons were remembered at the same time; else the slots decide among those.
- AccessPoints.ApTable.Remember: requires a clock that never goes back.
- MealGuard.CoolingExactly: with DEAUTH meals only the bound of MealGuard.NeverFedEarly is proved: a DEAUTH meal takes a slot even when its deadline is earlier than one that was given up, so the table holds neither the last meals nor the latest deadlines.
- StateStore.RunAtomic: a save while the RAM generation lags behind a visible word is outside; StateStore.FailedCommitLags says what happens then.
- Worker.StorageWorker.RecoveryStep: an arbitrary step of the check here; its exact behaviour is in `HistoryRecovery`.
