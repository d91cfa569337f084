# EchoLink server: a verified model

EchoLink is a voice server in C. This project models the parts of it whose correctness is
hardest to see from the code, and proves what they promise:

- the **write-ahead log** and the room file it protects (`CText`, `RoomRecord`, `Wal`, `WalCrash`,
  `WalEpochs`, `WalRollback`, `WalMixed`, `WalInterleave`, `FileDb`);
- the **room registry**: a heap-allocated doubly linked list, participant arrays, client
  back-pointers and the mirror on disk, over restarts and crashes (`Registry`, `RegistryOutcome`,
  `RegistryRestart`, `RegistryCrash`, `RoomManager`);
- the **life of a client object** and its reference count, the client table and the task queue
  (`Lifetime`, `ClientTable`, `TaskQueue`);
- the **jitter buffer** and the **mixer** (`Jitter`, `JitterOrder`, `JitterSorted`, `JitterBuffer`,
  `Mixer`, `MixerContent`, `MixerOrder`);
- the **shared audio ring** with its two semaphores (`Ring`, `RingBuffer`);
- **users and roles** (`Auth`, `Credentials`, `UserStore`), and the handlers over sessions and rooms
  together (`Server`);
- the **order of the locks** on every path of every thread (`LockOrder`).

`Common` holds what they share. `dafny verify dfyconfig.toml` checks all of it.

## How the model is built

Where the C code updates state in place, the model has a class or a method on an array, and its
contract ties the new state to a function of the old one; the theorems are about that function.
Where threads interleave, the model is a state machine whose steps are the critical sections, and
the theorems hold after every run of it.

- **Log.** The log is text: lines are printed as `snprintf` prints them, split as `strtok` splits
  them (first 512 lines only) and scanned as `sscanf` scans them, white space, field widths and
  partial matches included. A crash is a killed process: completed writes survive it, the record
  being written may hold anything. Names and passwords are free of white space, because the
  command handlers read them with `%s`.
- **Registry.** Each command is one atomic step and record writes succeed. A process starts with an
  empty list over whatever room file it finds: rooms are not reloaded, so records it finds active
  stay active beside those of its own rooms.
- **Lifetime.** Steps are the sections under `clients_mutex`, `task_mutex` and the room locks, and
  the use of a KICK target, which no lock and no reference covers. A worker looks at its client once,
  when it takes the command; what it does after that may come after the client's disconnection.
  A blank command handled while its client is active skips the decrement; the accounting carries it
  as a leak.
- **Audio.** A packet's `payload_size` is the length of its payload, so it never exceeds the
  2048-byte array. Samples are 16-bit and payloads little-endian.
- **Roles.** The password hash is an arbitrary function from passwords to 64 digits.
- **Locks.** Each function is a path built from sequence, choice, repetition and locked regions;
  what a path can do to the locks is the set of its traces.

Where the code and its comments disagree the model follows the code:

- `wal_rollback` is commented as finding the transaction for the record. It finds the first one in
  the log, not the one that failed (`WalRollback.RollbackReturnsToLogStart`,
  `WalRollback.RollbackExact`).
- The search for a terminator is commented as finding the matching COMMIT or ROLLBACK. It stops at
  the next BEGIN and takes any terminator of the record for its own, so interleaved transactions
  come out wrong (`WalInterleave.UndoesIff`, `WalInterleave.LeftAloneIffSerial`).
- A room without a password does not survive its own OLD line, since `sscanf` skips the empty
  field (`RoomRecord.OldLineRoundTrip`, `RoomRecord.OldLineKeepsVisible`).
- "Buffer is full. Find the oldest packet" holds if and only if the held sequence numbers lie
  within half the number circle (`JitterOrder.PopIsOldestIff`, `JitterOrder.EvictedIsOldestIff`).
- "Save room name before room_leave" guards KICK against a deleted room. Its target can be freed
  under it all the same (`Lifetime.KickTargetCanBeFreedIff`), and a JOIN that finishes after its
  client's disconnection leaves a freed client among the participants (`Lifetime.LateJoin`).
- Room ids are used as indices into 32 semaphores, which holds in every run if and only if the
  process found no active record below index 32 (`RegistryRestart.IdsStaySmallIff`).

## Model

| member | source | states |
|---|---|---|
| CText.ScanShownInt | src/server/file_db.c:385-388 | scanning a printed 32-bit number after white space gives that number and stops where it ends |
| CText.ScanToken | src/server/file_db.c:385-388 | a width-limited `%s` reads back a token no longer than its width and free of white space |
| CText.TokensOfUnlines | src/server/file_db.c:283-287 | splitting a log of newline-free lines gives those lines back |
| RoomRecord.OldLineLooksNull | src/server/file_db.c:353-355 | an OLD line contains "OLD NULL" if and only if the name ends in OLD and the password starts with NULL |
| RoomRecord.ReadOldLine | src/server/file_db.c:176-185 | what the OLD line of any record free of white space parses to, empty fields and over-long shifts included |
| RoomRecord.OldLineRoundTrip | src/server/file_db.c:353-388 | a record comes back unchanged from its OLD line if and only if both strings are non-empty and free of white space and the line does not look like "OLD NULL" |
| RoomRecord.OldLineKeepsVisible | src/server/file_db.c:68-73 | exactly which records a reader of the room file still sees unchanged after they went through the log |
| RoomRecord.NewLineRoundTrip | src/server/file_db.c:187-188 | the NEW line holds the new record: its fields parse back to it |
| RoomRecord.LinesFitBuffer | src/server/file_db.c:170-188 | every OLD and NEW line fits the 512-byte buffer with newline and terminator |
| Wal.Put | src/server/file_db.c:96-98 | writing a record changes that record only, and past the end leaves inactive records in between |
| Wal.ReplayAfterPrefix | src/server/file_db.c:347-412 | starting a batch of restores over after any part of it was done gives the file one pass gives |
| Wal.RecoverRestartable | src/server/file_db.c:292-345 | recovery stopped after any number of restores and run again gives the same room file as one undisturbed run |
| WalCrash.RunReadsLastCommitted | src/server/file_db.c:76-112 | after a run of writes every record reads as the last value committed to it |
| WalCrash.ReadRun | src/server/file_db.c:168-199 | recovery reads the log of any serial run as that run's transactions, four lines each |
| WalCrash.TxnLogsNew | src/server/file_db.c:187-188 | the third line of a transaction is about the record written, not the one replaced |
| WalCrash.RecoverInWindow | src/server/file_db.c:292-333 | with at most 127 transactions before it, recovery restores the unfinished transaction's record if its OLD line was out and it had not committed, and writes nothing else |
| WalCrash.RecoverBeyondWindow | src/server/file_db.c:280-287 | with 128 transactions or more before it, recovery never sees the unfinished one |
| WalCrash.CrashAtomicity | src/server/file_db.c:254-345 | a crash at any step of a write that the log copes with, leaving its record arbitrary during the data write, is recovered from: every record reads as its last committed value |
| WalCrash.CrashAtomicityExact | src/server/file_db.c:280-388 | for each step, every crash image is recovered from if and only if the log copes: during the data write at most 127 earlier transactions and a replaced record that survives its OLD line, after the OLD line alone the second where recovery sees it, otherwise always |
| WalEpochs.AttemptsDoNotMatter | src/server/file_db.c:292-345 | any number of interrupted recoveries before a complete one makes no difference |
| WalEpochs.EpochAtomic | src/server/file_db.c:254-345 | a run of writes, a crash and interrupted recoveries leave every record at its last committed value |
| WalEpochs.LifetimeAtomicity | src/server/file_db.c:76-345 | over any number of runs, crashes and interrupted recoveries every record reads as the last write of it that ever committed |
| WalRollback.RollbackReturnsToLogStart | src/server/file_db.c:201-252 | a failed write takes its record back to what it was when the log was last emptied, whatever the short write left, and no other record changes |
| WalRollback.RollbackExact | src/server/file_db.c:239-248 | a failed write is undone in every case if and only if the search finds a transaction on the record and the record now reads as the first OLD line restores it |
| WalRollback.FirstWriteRollsBackIff | src/server/file_db.c:239-248 | the first write of a record since the log was emptied is undone in every case if and only if the record it replaces survives its OLD line |
| WalRollback.RollbackDeletesCommittedRoom | src/server/file_db.c:239-248 | rolling back the second write of a room deletes the room, although its first write had committed, whatever the short write left |
| WalRollback.CrashBeforeUndoIsKept | src/server/file_db.c:204-206 | a crash between the ROLLBACK line and the undo leaves whatever the short write left, for good |
| WalMixed.MixReads | src/server/file_db.c:76-112 | after any mix of successful and failed writes every record reads as its last successful write since its last failure, and after a failure as the first OLD line on it restores it |
| WalMixed.RollbackFinds | src/server/file_db.c:228-249 | in any such log the rollback finds the value at log start if and only if a transaction on the record is among the first 128 |
| WalMixed.MixCrashAtomicity | src/server/file_db.c:254-345 | the same values are read after a crash at any step of one more write that the log copes with |
| WalMixed.MixCrashExact | src/server/file_db.c:280-388 | and for every crash image if and only if the log copes |
| WalInterleave.CompletedIff | src/server/file_db.c:297-321 | a transaction counts as completed if and only if a COMMIT or ROLLBACK with its id, whoever wrote it, stands before the next BEGIN |
| WalInterleave.UndoRecordIs | src/server/file_db.c:349-388 | the record put back is that of the first OLD line before the next BEGIN |
| WalInterleave.UndoesIff | src/server/file_db.c:292-331 | in any log, recovery undoes the transaction begun at a line if and only if an OLD line but no terminator of its record stands before the next BEGIN |
| WalInterleave.RecoveryUndoesIff | src/server/file_db.c:254-345 | of any readable log, recovery restores exactly the records of such transactions |
| WalInterleave.LeftAloneIff | src/server/file_db.c:292-333 | exactly which logs make recovery write nothing |
| WalInterleave.SerialIsLeftAlone | src/server/file_db.c:300-321 | any merge of committed transactions in which none begins inside another is left alone |
| WalInterleave.MergeIsLeftAloneIff | src/server/file_db.c:300-321 | for any merge of any number of committed transactions, all are left alone if and only if each one with some OLD line before the next BEGIN has some COMMIT of its record there too |
| WalInterleave.LeftAloneIffSerial | src/server/file_db.c:300-331 | where each OLD line follows its BEGIN directly, that is the case if and only if none begins inside another; otherwise recovery takes a committed transaction back |
| WalInterleave.NestedYetLeftAlone | src/server/file_db.c:349-353 | with two BEGIN lines in a row it is not: the transactions overlap, yet nothing is undone |
| WalInterleave.SerialLogIsLeftAlone | src/server/file_db.c:279-333 | recovery from the text of a serial log of committed transactions changes nothing |
| WalInterleave.InterleavedCommitIsUndone | src/server/file_db.c:300-304 | of two interleaved transactions that both committed, on two records or on one, recovery undoes the first |
| WalInterleave.BorrowedCommit | src/server/file_db.c:306-312 | of two writers of one record, the committed one is undone and the unfinished one passes for complete on the other's COMMIT |
| WalInterleave.UnfinishedIsKept | src/server/file_db.c:306-331 | with two BEGIN lines in a row, a COMMIT of the first writer makes recovery keep whatever the second one's torn write left |
| FileDb.FindOld | src/server/file_db.c:349-353 | the first OLD record after a BEGIN, if one comes before the next BEGIN |
| FileDb.Database.NextFreeRoomId | src/server/file_db.c:134-148 | the least index without an active record, the end of the file included |
| FileDb.Database.WalBegin | src/server/file_db.c:168-191 | appends the BEGIN, OLD and NEW lines of the transaction |
| FileDb.Database.WalRestoreOld | src/server/file_db.c:347-412 | writes back the undo record of the transaction and nothing else |
| FileDb.FindEnd | src/server/file_db.c:300-321 | whether a COMMIT or ROLLBACK with the id comes before the next BEGIN |
| FileDb.Database.IsCompleted | src/server/file_db.c:297-321 | the same for the transaction that begins at a line of the log |
| FileDb.Database.WalRecover | src/server/file_db.c:254-345 | leaves the room file that the recovery function gives, and an empty log |
| FileDb.Database.WalRollback | src/server/file_db.c:201-252 | logs ROLLBACK, then restores from the first transaction on the record |
| FileDb.Database.WriteRoom | src/server/file_db.c:76-112 | a full write leaves the new record and a committed transaction, a short one the rolled back file and a failed transaction |
| FileDb.RunWrites | src/server/file_db.c:76-112 | a run of successful writes leaves exactly the file and the log text the crash theorems start from |
| FileDb.RunAttempts | src/server/file_db.c:76-112 | a run of successful and failed writes leaves exactly the file and the log text those theorems speak of |
| Registry.NextFree | src/server/file_db.c:134-148 | the index found is free and all before it hold active records |
| Registry.WithoutRemoves | src/server/room_manager.c:198-217 | removal from a participant list takes out that client only and keeps the others distinct |
| Registry.LeastFreeIsSmall | src/server/file_db.c:134-148 | by pigeonhole, the least free record index is at most the number of live rooms and of records found active |
| Registry.ClearMeansSmall | src/server/room_manager.c:17-22 | where no active record was found below index 32, a room that may be created gets an id below 32 |
| Registry.CreateKeeps | src/server/room_manager.c:10-76 | creating a room keeps the registry consistent over any room file, and over one found clear below index 32 its id is a valid index of the speaker semaphores |
| Registry.LeaveKeeps | src/server/room_manager.c:187-236 | leaving keeps the registry consistent and always clears the client's pointer |
| Registry.MembersAreConnected | src/server/room_manager.c:164-168 | by pigeonhole over at most fifty connected clients, a room someone else wants to join has a free place |
| Registry.JoinKeeps | src/server/room_manager.c:125-185 | joining keeps the registry consistent, never reports a full room, and a join that fails leaves the client in no room |
| Registry.JoinOutcome | src/server/room_manager.c:125-185 | the result of a join told from the state before it: -2 exactly when the room does not outlast the client's leaving, -3 exactly for a wrong password, else success with the client listed last |
| Registry.CreateOutcome | src/server/room_manager.c:12-22 | -1 if and only if a live room has the name, -2 if and only if the name is free and 32 rooms are live, else a room under an id no live room has; otherwise nothing changes |
| Registry.RejoinAsLastMember | src/server/room_manager.c:132-149 | the last member of a room that joins it again loses it: the room is deleted and the join fails |
| Registry.DisconnectKeeps | src/server/network.c:304-343 | disconnecting a client keeps the registry consistent |
| Registry.CommandKeeps | src/server/client_handler.c:239-455 | every command keeps the registry consistent: disk and list agree field by field, names differ, each client is listed once and where it points |
| RegistryOutcome.MirrorSays | src/server/room_manager.c:40-47 | a reader of the room file sees of each live room its id, name, password and number of participants, and of any other record what the process found |
| RegistryOutcome.LeaveOutcome | src/server/client_handler.c:360-376 | LEAVE takes that client out of its room: a room it was alone in goes, the others keep their participants in order, nobody else moves |
| RegistryOutcome.KickOutcome | src/server/client_handler.c:452-452 | KICK does that to the target, and the client that gave it stays |
| RegistryOutcome.DropOutcome | src/server/network.c:319-326 | disconnection does that to the client and takes it out of the table |
| RegistryOutcome.ConnectOutcome | src/server/network.c:190-200 | a new client is in no room |
| RegistryOutcome.JoinRoomOutcome | src/server/client_handler.c:331-338 | JOIN by name: nothing without such a room; else the client ends up in it, last, exactly where the room outlasts its leaving and the password is right, and otherwise in no room |
| RegistryOutcome.JoinLeaves | src/server/room_manager.c:132-135 | the other rooms see the client of a JOIN go |
| RegistryOutcome.CreateRoomOutcome | src/server/client_handler.c:288-288 | CREATE makes an empty room with that name and password under the least id without an active record, exactly when the name is free and fewer than 32 rooms are live |
| Registry.RegistryConsistent | src/server/room_manager.c:3-236 | from any room file, the registry is consistent after every run of connect, create, join, leave, logout, kick and disconnect, and records found active are as they were found |
| RegistryRestart.IdsStaySmallIff | src/server/audio_mixer.c:125-125 | every id any run ever allocates is below 32 if and only if the process found no active record below index 32 |
| RegistryRestart.RestartWithLiveRoom | src/server/room_manager.c:3-8 | one live room when a process ends is enough for the next one to allocate an id past the semaphores |
| RegistryRestart.RestartWithFullFile | src/server/file_db.c:134-148 | with 32 records still active the first room created gets id 32 |
| RegistryCrash.CommandChained | src/server/room_manager.c:187-236 | every command is a chain of record writes, each of which leaves the file a mirror of a registry again |
| RegistryCrash.RunChained | src/server/room_manager.c:10-236 | so is every run of commands, and it ends with the file the run leaves |
| RegistryCrash.CrashInsideCommand | src/server/file_db.c:76-112 | after a crash at any step of any record write of any run that the log copes with, recovery leaves a file that reads as the mirror of the registry right before that write, or right after it where it had committed |
| RegistryCrash.CrashInsideCommandExact | src/server/file_db.c:280-388 | for every run, write and step: that holds for every crash image if and only if the log copes, so in the data write if and only if at most 127 writes went before and the record replaced survives its OLD line |
| RegistryCrash.RoomSurvivesIff | src/server/file_db.c:178-178 | a live room's record survives its OLD line if and only if it has a name and a password that do not read as "OLD NULL" |
| RegistryCrash.OpenRoomIsLost | src/server/client_handler.c:277-288 | the plain run outside that condition: connect, create a room without a password, join, and die in the join's data write |
| RoomManager.Room.Add | src/server/room_manager.c:170-171 | puts a client at the end of the participants |
| RoomManager.Room.CloseGap | src/server/room_manager.c:203-209 | shifting in place removes exactly the participant at that place and keeps the order |
| RoomManager.Room.Remove | src/server/room_manager.c:304-321 | takes the client out of the participant array, and says whether it was there |
| RoomManager.RoomManager.constructor | src/server/room_manager.c:3-8 | an empty list over any room file and an emptied log is a consistent start |
| RoomManager.Enlist | src/server/room_manager.c:170-171 | adding a participant changes that room and no other |
| RoomManager.Delist | src/server/room_manager.c:304-321 | removing a participant changes that room and no other |
| RoomManager.RoomManager.FindById | src/server/room_manager.c:257-272 | finds the room with an id if and only if it is live |
| RoomManager.RoomManager.FindByName | src/server/room_manager.c:239-254 | finds the room with a name if and only if it is live |
| RoomManager.RoomManager.Append | src/server/room_manager.c:56-69 | puts a room at the tail and keeps the list acyclic with mirrored links |
| RoomManager.RoomManager.Unlink | src/server/room_manager.c:93-105 | takes a room off head, middle or tail and keeps the list acyclic with mirrored links |
| RoomManager.RoomManager.CountsRooms | src/server/room_manager.c:70-107 | the room counter is the number of live rooms |
| RoomManager.RoomManager.Create | src/server/room_manager.c:10-76 | does on the heap what creation does to the registry, with the same result code |
| RoomManager.RoomManager.DeleteRoom | src/server/room_manager.c:78-123 | does on the heap what deletion does to the registry, with the same result code |
| RoomManager.RoomManager.LeaveRoom | src/server/room_manager.c:187-236 | does on the heap what leaving does to the registry, with the same result code |
| RoomManager.RoomManager.JoinRoom | src/server/room_manager.c:125-185 | does on the heap what joining does to the registry, with the same result code |
| RoomManager.RoomManager.DropClient | src/server/room_manager.c:295-336 | does on the heap what a disconnection does to the registry |
| RoomManager.RoomManager.Store | src/server/room_manager.c:176-181 | a record write goes through the write-ahead log, and the log stays that of the run of writes so far |
| RoomManager.RoomManager.Serve | src/server/room_manager.c:10-336 | every run of commands on the heap refines the run on the registry, and ends with list, arrays, pointers, counter, room file and log all consistent |
| Lifetime.NoUseAfterFree | src/server/network.c:244-292 | the epoll thread and the workers never reach a freed client through the table (commands, UDP, PROMOTE, disconnection), the queue or a reference of their own |
| Lifetime.ListedIsSafe | src/server/audio_mixer.c:117-152 | where every JOIN finishes while its client is connected, no participant array ever holds a freed client, so the mixer and the searches of KICK and MUTE are safe |
| Lifetime.ListedAndFreed | src/server/room_manager.c:170-172 | a listed client is out of the table if and only if it was listed after its disconnection; only such a one can be freed |
| Lifetime.LateJoin | src/server/room_manager.c:170-172 | a run after which a participant array holds a freed client: the JOIN finishes after the disconnection |
| Lifetime.KickTargetCanBeFreedIff | src/server/client_handler.c:424-452 | once a worker has found a KICK target, the other threads can go on so that it is freed before it is used if and only if it is not the worker's own client and no blank command of its leaked |
| Lifetime.KickAfterFree | src/server/client_handler.c:424-452 | a run in which a KICK target is freed between being found and being used |
| Lifetime.StepKeeps | src/server/network.c:244-263 | every step keeps the count exact: table entry, queued tasks, tasks in work, epoll's reference and leaks |
| Lifetime.HandleStep | src/server/client_handler.c:96-102 | a worker drops a command of a client that has gone, leaks the reference of a blank one, and carries out any other |
| Lifetime.QueueStep | src/server/client_handler.c:51-71 | commands are taken in the order they were queued, at most 256 wait, and one more is rejected |
| Lifetime.QueueBounded | src/server/client_handler.c:52-60 | never more than 256 commands wait |
| Lifetime.ListedStepIs | src/server/room_manager.c:170-172 | JOIN lists its client, and LEAVE, KICK and disconnection take theirs off |
| Lifetime.LifetimeSafety | src/server/client_handler.c:48-159 | the accounting holds after every interleaving of the epoll thread and any number of workers |
| Lifetime.FreedOnceAndUnheld | src/server/network.c:335-341 | a client is freed at most once and never while anyone holds it |
| Lifetime.FreedUnlessLeaked | src/server/client_handler.c:102-102 | a client nobody holds has been freed if and only if no blank command of its was handled while it was active |
| Lifetime.LeakedForever | src/server/client_handler.c:99-102 | one such blank command keeps the client allocated in every later state |
| Lifetime.LeakHappens | src/server/client_handler.c:91-102 | a run after which nobody holds a client and it is still allocated |
| ClientTable.ClientTable.FreeSlot | src/server/network.c:164-179 | after the capacity check the search for a slot always succeeds: the "no slot" branch cannot be reached |
| ClientTable.ClientTable.Accept | src/server/network.c:154-208 | a connection is accepted if and only if fewer than fifty slots are occupied, and takes the lowest free one; table, map and count stay in step |
| ClientTable.ClientTable.Lookup | src/server/network.c:244-255 | for every descriptor the map covers, the lookup finds what a linear scan of the table finds |
| ClientTable.ClientTable.Disconnect | src/server/network.c:304-343 | removes that client and no other; table, map and count stay in step |
| ClientTable.ScanUnique | src/server/network.c:316-318 | with no descriptor open twice, a scan finds the client in the mapped slot |
| ClientTable.MapIsCompleteIff | src/server/network.c:203-206 | the map agrees with the scan for every descriptor if and only if no open descriptor lies beyond it |
| TaskQueue.TaskQueue.Enqueue | src/server/client_handler.c:48-72 | queues the task last, or changes nothing when 256 are waiting |
| TaskQueue.TaskQueue.Dequeue | src/server/client_handler.c:91-93 | takes the task that has waited longest |
| Jitter.PushKeeps | src/server/audio_mixer.c:220-251 | a push keeps the count exact, evicts if and only if the buffer is full, and trades only the evicted packet for the new one |
| Jitter.PopKeeps | src/server/audio_mixer.c:253-286 | a pop succeeds if and only if the gate is open, so "not found" cannot be reached, and takes out one packet |
| Jitter.Conservation | src/server/audio_mixer.c:220-286 | over every run, what was held and pushed is as a multiset what was popped, evicted and is still held |
| Jitter.CountInRange | src/server/audio_mixer.c:242-284 | the count stays between 0 and 20 in every run |
| JitterOrder.PrecedesInWindow | src/server/audio_mixer.c:234-234 | within half the number circle the wrap-around comparison is the order of distance from the window's start |
| JitterOrder.PrecedesIsSignBit | src/server/audio_mixer.c:234-234 | the comparison is the sign of the 32-bit difference |
| JitterOrder.PopIsSerialMinimum | src/server/audio_mixer.c:267-284 | a pop returns the serial minimum of a window narrower than 2^31 |
| JitterOrder.ScanFindsOldestIff | src/server/audio_mixer.c:271-278 | the packet the scan settles on is one that no held packet precedes if and only if the held packets lie within half the number circle |
| JitterOrder.PopIsOldestIff | src/server/audio_mixer.c:267-284 | a pop returns an oldest packet if and only if the held packets lie within half the number circle |
| JitterOrder.EvictedIsOldestIff | src/server/audio_mixer.c:229-239 | a push into a full buffer drops an oldest packet if and only if the held packets lie within half the number circle |
| JitterOrder.NoMinimumAroundTheCircle | src/server/audio_mixer.c:271-284 | a buffer of three packets that precede each other in a circle: the pop returns one that a packet still held precedes |
| JitterOrder.AThirdApart | src/server/audio_mixer.c:273-273 | it happens for the numbers 0, 0x60000000 and 0xB0000000 |
| JitterOrder.PushRefines | src/server/audio_mixer.c:220-251 | a push appends to the queue the buffer stands for, and a full push drops its front |
| JitterOrder.PopRefines | src/server/audio_mixer.c:253-286 | a pop returns and removes the front of that queue, or nothing while the gate is closed |
| JitterOrder.RefinesFifo | src/server/audio_mixer.c:220-286 | over every run of in-order pushes and pops the unordered buffer behaves as a 20-place drop-oldest queue |
| JitterOrder.NumberedIsOrderly | src/server/audio_mixer.c:234-273 | consecutive sequence numbers, wrapping past 2^32 any number of times, are in order |
| JitterSorted.PushSorted | src/server/audio_mixer.c:220-251 | a push, in whatever order packets arrive, puts its number in its serial place, and a full push drops the front |
| JitterSorted.PopSorted | src/server/audio_mixer.c:253-286 | a pop takes a packet with the front number, or nothing while the gate is closed |
| JitterSorted.RefinesSorted | src/server/audio_mixer.c:220-286 | over every run of arrivals in any order, repeats included, that fit half the number circle, the unordered buffer refines a serially sorted queue of twenty places |
| JitterOrder.ClosedUntilCushion | src/server/audio_mixer.c:253-265 | once a pop found the buffer empty, every pop fails until one sees five packets |
| JitterOrder.OpenUntilEmpty | src/server/audio_mixer.c:259-286 | once open, every pop succeeds until one finds the buffer empty |
| JitterOrder.StockLasts | src/server/audio_mixer.c:242-284 | a stock of packets lasts for as many pops, whatever pushes come between |
| JitterOrder.PlayoutGate | src/server/audio_mixer.c:253-286 | the whole cycle: silence until five packets are there, then at least five successful pops |
| JitterBuffer.JitterBuffer.FindOldest | src/server/audio_mixer.c:267-278 | the loop settles on the slot the scan function gives |
| JitterBuffer.JitterBuffer.Push | src/server/audio_mixer.c:220-251 | does in place what the push function does to the buffer as a value |
| JitterBuffer.JitterBuffer.Pop | src/server/audio_mixer.c:253-286 | returns and does in place what the pop functions say |
| Mixer.TruncDivTowardsZero | src/server/audio_mixer.c:174-178 | division towards zero: magnitude and sign of the quotient |
| Mixer.SameSignSum | src/server/audio_mixer.c:163-171 | for samples of one sign the saturating sum is the clamp of the true sum |
| Mixer.QuietSum | src/server/audio_mixer.c:167-169 | for absolute values that total at most 32767 the saturating sum is exact |
| Mixer.MonotoneSum | src/server/audio_mixer.c:289-294 | the saturating sum is monotone in every speaker's sample |
| Mixer.NonexpansiveSum | src/server/audio_mixer.c:167-169 | a change of the samples never changes the sum by more than its own total |
| MixerOrder.OrderIsIrrelevantIff | src/server/audio_mixer.c:163-171 | every order of the speakers gives the same sum if and only if the samples share a sign, or the positive ones total at most 32767 and the negative ones at least -32768 |
| MixerOrder.SortingDecides | src/server/audio_mixer.c:289-294 | otherwise positive samples first and positive samples last give different sums |
| MixerOrder.OrderMatters | src/server/audio_mixer.c:163-169 | two orders of 20000, 20000 and -20000 and their different sums |
| Mixer.AddSpeaker | src/server/audio_mixer.c:167-169 | adds one speaker's samples in place with saturation |
| Mixer.Normalize | src/server/audio_mixer.c:174-178 | divides every sample in place towards zero |
| Mixer.Mix | src/server/audio_mixer.c:156-182 | the loops leave, at each of 320 places, the sum over everyone but the listener, divided by their number when there are several |
| Mixer.MixWithinShare | src/server/audio_mixer.c:174-178 | with n >= 2 speakers a mixed sample has magnitude at most 32768/n |
| Mixer.CollectSpeakers | src/server/audio_mixer.c:119-142 | the loop gives what the collecting function gives |
| MixerContent.CollectIsExactly | src/server/audio_mixer.c:119-142 | for participants with slots of their own a tick collects, in their order, exactly the packets popped from the buffers of those unmuted and active |
| MixerContent.CollectPops | src/server/audio_mixer.c:128-131 | each such buffer is popped once, and no other is touched |
| MixerContent.PcmSamples | src/server/audio_mixer.c:132-135 | a payload holds a sample for every two bytes, at most 320, each the 16-bit number its bytes stand for |
| MixerContent.HeardIsExactly | src/server/audio_mixer.c:163-171 | the samples summed for a listener are, in order, exactly those of every speaker with another slot, silence past a speaker's end |
| MixerContent.MixIs | src/server/audio_mixer.c:160-178 | nobody gives silence, one speaker its own sample, several the clipped sum divided by their number towards zero |
| Mixer.NonInterference | src/server/audio_mixer.c:156-182 | rounds that differ only in the listener's own presence, mute flag or jitter buffer give it the same samples |
| MixerOrder.QuietInAnyOrder | src/server/audio_mixer.c:163-178 | quiet speakers may come in any order: the mix is their exact sum divided by their number |
| Ring.PermitsStep | src/server/ipc_manager.c:49-50 | every step keeps free permits + pushers before the copy + ring count + poppers before the post at 128 |
| Ring.NoOverwrite | src/server/ipc_manager.c:87-92 | a copy in never lands on an unread packet |
| Ring.TakesOldest | src/server/ipc_manager.c:102-107 | a copy out takes the oldest packet not yet taken |
| Ring.RingSafety | src/server/ipc_manager.c:77-110 | for any number of interleaved producers and consumers, permits add up and packets come out in the order they went in |
| Ring.QuiescentSemaphores | src/server/ipc_manager.c:49-50 | when no thread is inside, the semaphores are the free and the occupied places |
| Ring.PushTakesPermit | src/server/ipc_manager.c:82-91 | a push that finds a permit takes it and copies its own packet in; one that finds none drops it |
| Ring.PopTakesPermit | src/server/ipc_manager.c:99-106 | a pop that finds a permit takes it and the oldest packet; one that finds none changes nothing |
| RingBuffer.RingBuffer.Push | src/server/ipc_manager.c:77-95 | appends the packet, or drops it if and only if 128 are waiting |
| RingBuffer.RingBuffer.Pop | src/server/ipc_manager.c:97-110 | takes the oldest packet, or fails if and only if there is none |
| Auth.Find | src/server/auth.c:42-49 | the first active record with a name, or none in the whole file |
| Auth.PermissionsGrow | src/server/auth.c:79-101 | a more privileged role may do whatever a less privileged one may |
| Credentials.PermissionTable | src/server/auth.c:79-101 | PROMOTE is for ADMIN alone, CREATE, KICK and MUTE for ADMIN and MODERATOR alone, the rest for everyone |
| Credentials.AuthenticateIff | src/server/auth.c:36-77 | a login is accepted if and only if an active record has the name and the hash of the password, and gets that record's role |
| Credentials.LoginOutcome | src/server/client_handler.c:164-205 | LOGIN changes something exactly for a guest with a right name and password, and then that session only |
| Credentials.SessionOutcome | src/server/client_handler.c:239-258 | LOGOUT, connecting and disconnecting change that session, and no other |
| Credentials.RegisterOutcome | src/server/client_handler.c:207-237 | REGISTER by a guest under a free name appends a plain user with that name and the hash of that password; otherwise nothing changes |
| Credentials.AddedCanLogIn | src/server/auth.c:121-127 | a new user logs in exactly with a password of that hash, everyone else as before |
| Credentials.RegisteredLogsIn | src/server/auth.c:36-138 | whoever registers logs in, to the end of any run, exactly with a password of the same hash |
| Credentials.FoundUserLogsIn | src/server/auth.c:36-77 | a user found in the file keeps its password through any run |
| Credentials.AdminLogsIn | src/server/auth.c:17-23 | the seeded administrator logs in exactly with a password of the hash of its first one |
| Credentials.MayPromoteIff | src/server/client_handler.c:533-562 | PROMOTE goes through if and only if it comes from a client logged in as ADMIN and names a user and one of the three roles in any case |
| Credentials.PromoteOutcome | src/server/client_handler.c:569-579 | it then sets that record's role and that of the user's sessions, and nothing else |
| Credentials.PromoteNobody | src/server/auth.c:158-158 | a PROMOTE of a name nobody has changes nothing |
| Credentials.RoleSpellings | src/server/client_handler.c:559-567 | spellings that are accepted and what is stored, and words that are not accepted |
| Auth.RoleNamesAreThree | src/server/client_handler.c:559-567 | a role name that passes the case-insensitive check is stored as ADMIN, MODERATOR or USER |
| Auth.AddedUnique | src/server/auth.c:103-138 | registration keeps active names unique |
| Auth.PromotedUser | src/server/auth.c:140-172 | a promotion sets that user's role and nobody else's |
| Auth.CommandKeeps | src/server/client_handler.c:164-258 | every command keeps active names unique and each session's role equal to the file's |
| Auth.RolesAreCached | src/server/client_handler.c:531-585 | that holds after every run of connect, register, login, logout, promote and disconnect, from the seeded file or any other with unique active names |
| Auth.RoleHistory | src/server/client_handler.c:531-569 | the exact history of every role in the file: that of the last PROMOTE that took effect on the record, made by a client that was then ADMIN, else the one the record came with, USER for a registration |
| Auth.SeededProvenance | src/server/auth.c:17-23 | from the seeded file on, every privileged role but the administrator's first was so granted |
| Auth.PrivilegeDescendsFromAdmin | src/server/client_handler.c:539-543 | while nobody logs in as the administrator, nobody is ever more than a plain user |
| UserStore.SafeMemcmp | src/common/utils.c:76-86 | the result is 0 if and only if the compared bytes are equal |
| UserStore.UserStore.constructor | src/server/auth.c:4-34 | opens the file as found, or seeds it with one administrator |
| UserStore.UserStore.Authenticate | src/server/auth.c:36-77 | returns the file's role if and only if name and password are right |
| UserStore.UserStore.AddUser | src/server/auth.c:103-138 | appends the new user with the number of active users as id, or changes nothing when the name is taken |
| UserStore.UserStore.PromoteUser | src/server/auth.c:140-172 | rewrites the role of the first active record with the name, or changes nothing |
| UserStore.UserStore.Login | src/server/client_handler.c:164-205 | sets the session from the file when name and password are right, otherwise changes nothing |
| UserStore.UserStore.Register | src/server/client_handler.c:207-237 | adds a plain user, only for a client that is not logged in |
| UserStore.UserStore.Logout | src/server/client_handler.c:239-258 | makes the session a guest's |
| UserStore.UserStore.Refresh | src/server/client_handler.c:571-579 | gives every connected client with the name the new role, and no other |
| UserStore.UserStore.Promote | src/server/client_handler.c:531-585 | changes file and sessions together, only for a logged in administrator and a valid role |
| UserStore.UserStore.Serve | src/server/client_handler.c:164-585 | every run of commands on the store does what it does to the state as a value, and leaves each session with the role the file gives its user |
| Server.StartHolds | src/server/main.c:52-59 | the server starts consistent over any users file with unique active names and any room file |
| Server.StepKeeps | src/server/client_handler.c:164-585 | every request keeps sessions, users file and registry consistent together: the same clients are known, and who is in a room is logged in |
| Server.RefusedWithoutPrivilege | src/server/client_handler.c:262-272 | CREATE, KICK and MUTE of a client not logged in as ADMIN or MODERATOR change nothing at all |
| Server.CreateByPrivileged | src/server/client_handler.c:288-288 | a privileged client is not refused: the room is created wherever name and number allow |
| Server.KickByPrivileged | src/server/client_handler.c:424-452 | KICK by a privileged client takes out the first participant of its room with the user name, and nobody else |
| Server.MuteByPrivileged | src/server/client_handler.c:489-502 | MUTE by a privileged client switches that participant's mute flag, and no other |
| Server.LoginRequest | src/server/client_handler.c:164-205 | LOGIN lets in whoever gives the right name and password, and moves nobody |
| Server.AccountRequest | src/server/client_handler.c:207-237 | REGISTER and PROMOTE change users file and sessions as they do alone, and move nobody |
| Server.LogoutRequest | src/server/client_handler.c:239-258 | LOGOUT takes the client out of its room and makes it a guest |
| Server.JoinRequest | src/server/client_handler.c:310-338 | JOIN takes a client that is logged in to the room with the name, where that admits it |
| Server.LeaveRequest | src/server/client_handler.c:360-376 | LEAVE takes a client that is logged in out of its room |
| Server.GuestsStayOut | src/server/client_handler.c:312-316 | a client that is not logged in can neither join nor leave |
| Server.ConnectionRequest | src/server/network.c:181-200 | a connection takes a free slot and a disconnection frees it, in sessions, registry and mute flags |
| Server.RoomsAreCreatedByPrivileged | src/server/client_handler.c:268-288 | every live room of every run was created, under its name and password, by a client then logged in as ADMIN or MODERATOR |
| Server.KicksAndMutesAreByPrivileged | src/server/client_handler.c:399-452 | in every run, whoever is taken out of its room unasked, or muted, was so by a client then in the same room and logged in as ADMIN or MODERATOR |
| Server.PrivilegeIsTheFiles | src/server/auth.c:63-74 | the role a privileged client acts with is the one the users file gives its user |
| LockOrder.PathDisciplined | src/server/client_handler.c:489-520 | a path whose locks are nested in rising rank only ever takes a lock above all it holds, and gives all back |
| LockOrder.TurnsOrdered | src/server/network.c:304-343 | every path of every thread nests its locks in rising rank: clients, rooms, one room, log |
| LockOrder.MuteHoldsTwo | src/server/client_handler.c:489-512 | MUTE can log with the room locked |
| LockOrder.MixerHoldsTwo | src/server/audio_mixer.c:77-85 | a mixer tick locks one room after the other with the list locked |
| LockOrder.DisconnectHoldsTwo | src/server/network.c:306-338 | disconnecting the last participant locks the room, the list and the log in turn with the client table locked |
| LockOrder.StepKeeps | src/server/audio_mixer.c:77-152 | every step of every thread keeps locks exclusive and each thread's locks in strictly rising rank |
| LockOrder.NoCycle | src/server/room_manager.c:295-335 | threads never wait for each other in a cycle |
| LockOrder.SomeoneCanGo | src/server/client_handler.c:75-159 | while some thread is in the middle of a turn, some thread can go on |
| LockOrder.OneRoomAtATime | src/server/audio_mixer.c:117-152 | no thread holds the locks of two rooms |
| LockOrder.DeadlockFree | src/server/network.c:304-343 | all of this in every state that any number of interleaved threads can reach |

## Left out

- Power loss: the room file is never fsynced, so the crash theorems are about a killed process only.
- Torn log lines: a log line is written whole or not at all.
- Unreadable log lines: a BEGIN, COMMIT or ROLLBACK line without a number makes the C code use an indeterminate id; recovery requires a log without such lines, which every log the server writes is.
- Negative room ids: no caller produces one.
- WalCrash.CrashAtomicity: is about serial transactions; `WalInterleave` says what recovery does with interleaved ones.
- WalRollback.RollbackExact: both halves are about short data writes; a failing log write is not modelled.
- JitterOrder.NumberedIsOrderly: gives one class of runs that `JitterOrder.RefinesFifo` covers; gaps and losses in the numbering are covered by that lemma directly.
- Sockets, epoll, ALSA, the emergency FIFO, the shared memory mapping and signals: calls into the operating system with no logic of their own.
- Replies to clients and their status codes, the console display, LIST and log messages: output only.
- `active_speakers` and the per-room speaker semaphores: the first is overwritten by the mixer on every tick, the second never refuses the only mixer thread.
- The toy hash behind `sha256_hash`: treated as an arbitrary function.
- Handlers that race on one room or on the users file: registry and role commands are atomic steps here.
- The mixer's use of its participant snapshot after it released the room lock, which no reference covers either; of such accesses only the KICK target is modelled.
- Lifetime.ListedIsSafe: which room a client is listed in does not matter there, so the rooms' participant arrays are one set.
- Room files of more than about 2^31 records: room ids are C integers.
- Failed allocations and failed record writes inside room commands (result codes -3 and -4 of room creation).
- Server shutdown, which frees clients whatever their count, and real-time scheduling.
- The client program.
