# SilOS: a verified model of its storage, editor, scheduler and Lisp

SilOS is a small operating system in Rust. This project models four of its parts in Dafny and proves what they promise.

* **Storage** (`Bytes`, `Arithmetic`, `Disk`, `Layout`, `FatTable`, `Chains`, `Directory`, `Volume`, `Storage`,
  `FileSystem`, `Format`, `Space`, `Ledger`, `Refinement`, `Runs`). The drive is a mutable sequence of 512-byte sectors. The file
  system is a class whose methods read, patch and rewrite those sectors in the order of the source. `Volume.Inv` says that a disk
  image is consistent: every used directory slot heads a complete, acyclic cluster chain that lies on the drive, and no two slots
  share a cluster. `Volume.Files` is the ordered list of files the bytes stand for. Creation and overwriting are proved to update
  that list, to take the smallest free clusters, to succeed exactly when there is room, and to leave every other file alone in
  *every* image the drive passes through. The drive records its images in `history`, so the statements about power loss between
  two writes are statements about `history`. On top of that, `Ledger` is the file system without bytes: files, chains, sizes and
  the free list, with every operation a function that also gives its outcome. The bytes refine it (`Refinement`), so for every run
  of operations the ledger predicts every outcome, everything that can be read, and every cluster that is lost (`Runs`).
* **Editor** (`Text`, `Editor`, `SaveReopen`). The vector of lines with a two-dimensional cursor is proved to behave like one
  flat text with one offset, and saving through the file system and reopening is characterised exactly.
* **Scheduler** (`Wakeup`, `Executor`). The executor, the keyboard task and the keyboard interrupt are one step system in
  which an interrupt may fall between any two atomic steps; a class models the executor for tasks that yield, endless ones such as
  the shell included.
* **Lisp** (`Lisp`, `Tokenizer`, `Reader`, `RoundTrip`, `Evaluator`, `EvaluatorFuel`, `EvaluatorFrame`, `EvaluatorUnfold`,
  `EvaluatorLaws`, `EvaluatorForms`). Tokenizer, reader, printer and evaluator, with numbers, builtin functions and system calls as
  parameters. Every form has a law that says, without fuel, what it evaluates to in terms of what its parts evaluate to.

`Basics` holds what all parts share.

Check everything with `dafny verify dfyconfig.toml`.

## Findings

Properties that do not hold of the code as it is, each with the exact condition under which they do:

* A file just created is found by a lookup exactly when its name does not start with 0x00 or 0xE5 and no earlier file has the
  same name (`Runs.CreatedIsFound`, `Runs.ReservedNameIsLost`). Creating it leaves every other readable file readable exactly when
  it does not put an entry that starts with 0x00 in front of it (`Runs.OthersStillRead`).
* An operation loses clusters for good exactly when a guard on the volume before it holds (`Ledger.WillLeak`, `Runs.LeakIff`):
  a creation, when there is a slot and either some but too few clusters are free or the name is reserved; an overwrite, when the
  free clusters and its own do not suffice and one of them is smaller than its first. Which clusters are lost is exact
  (`Ledger.LeakedBy`). One file too large for an empty formatted volume makes that volume useless until it is formatted again
  (`Runs.OversizedFileBricks`).
* An overwrite that runs out of space leaves the old entry pointing into the middle of the new data (`Storage.OverwriteFails`).
* The first write of every overwrite makes the volume inconsistent. From then on every image is consistent exactly when the old
  first cluster is not free (`Storage.MidwayIsTorn`, `FileSystem.Fat16FileSystem.OverwriteFile`).
* The table written by formatting describes 39 clusters that a drive of 65536 sectors, the size the user guide asks for, does
  not have (`Format.ClustersOnSmallDrive`).
* Interrupts alone can overflow the ready queue (`Wakeup.InterruptsCanOverflow`). A run panics exactly when it pushes to a full
  queue (`Wakeup.PanicsExactly`), and the queue is bounded by the number of tasks plus the pushes of two kinds: interrupts while
  the keyboard task runs with its waker registered, and second wakes in one poll (`Wakeup.NoiseBoundsQueue`). Without these, and
  only without, every task is queued at most once (`Wakeup.OneEntryIffQuiet`).
* `run_ready_tasks` returns exactly when no task is endless (`Executor.RunsEmpty`); with the shell spawned it never does.
* Reading a text panics exactly when it is cut off right behind an opening quote and what precedes is blank or an open list
  (`Reader.ReadingPanicsExactly`).
* Printed data is read back exactly when it holds no string (`RoundTrip.RoundTripsExactly`).
* Saving and reopening a text is the identity exactly when no line but the last ends in a carriage return and the last of several
  lines is not empty (`SaveReopen.ReopenIsIdentity`).

## Hypotheses

* `Layout.GoodBpb` lists the geometries for which no 16-bit product of the source overflows and the regions do not overlap; the
  source checks the sector size only.
* `Ledger.Answered`, which is `Storage.WriteStaysOnDisk` seen on the ledger, says that the clusters an operation is about to take
  exist on the drive.
  It always holds on a drive that has every cluster of the table (`Runs.LargeDriveAnswers`).
* A sector read returns what was last written to that sector.
* Text in the editor is ASCII, so that a byte index is a character index.

## Model

| member | source | states |
|---|---|---|
| Layout.ParseEncodeBpb | src/fat16.rs:7-19 | The boot-sector fields laid down in order are the ones mounting reads back, whatever follows them in the sector |
| Layout.ClusterBehindMetadata | src/fat16.rs:67-75 | Clusters never meet the boot sector, the FATs or the root directory |
| Layout.ClustersDisjoint | src/fat16.rs:67-75 | Distinct cluster numbers occupy disjoint sector ranges |
| FatTable.SetThenGet | src/fat16.rs:107-146 | The bytes of the table refine a sequence of 16-bit numbers: setting an entry changes that entry and no other |
| FatTable.SetTouchesFatOnly | src/fat16.rs:133-146 | Setting an entry leaves the boot sector, the root directory and all clusters alone |
| FatTable.FreeClustersAreFree | src/fat16.rs:117-131 | The free list holds exactly the entries with value zero, in ascending order |
| FatTable.TakeFirstFree | src/fat16.rs:184-187 | Marking the first free cluster removes exactly it from the front of the free list |
| Chains.ChainIsUnique | src/fat16.rs:77-105 | A complete chain is determined by its first cluster, and walking the links recovers it |
| Chains.LinkExtendsChain | src/fat16.rs:187-193 | Closing a free cluster and linking it behind a chain gives the chain that is one longer |
| Chains.FullTableStays | src/fat16.rs:425-433 | With every 16-bit entry addressable the freeing loop is defined, hence ends, on every table, cycles included |
| Chains.FreeWalkReleases | src/fat16.rs:425-433 | On a complete chain the freeing loop frees exactly the clusters of the chain |
| Chains.ReleasedCount | src/fat16.rs:425-433 | Freeing a chain adds exactly its length to the number of free clusters |
| Directory.DecodeEncode | src/fat16.rs:221-241 | An entry written to a slot is the entry read from it |
| Directory.EncodeDecode | src/fat16.rs:343-346 | Every 32 bytes are the encoding of the entry read from them |
| Directory.DecodeLayout | src/fat16.rs:21-36 | Every field of the entry read from a slot, by byte position and with numbers low byte first |
| Directory.EncodeLayout | src/fat16.rs:21-36 | The same for the bytes written for an entry |
| Directory.SlotIsRaw | src/fat16.rs:148-169 | On which sector and at which offset slot i lies, in the fields of the boot sector |
| Volume.ClusterIsRaw | src/fat16.rs:67-75 | On which sector and at which offset byte k of a cluster lies, in the fields of the boot sector |
| Directory.SlotUpdate | src/fat16.rs:237-243 | Rewriting a slot inside its sector changes that slot and no other |
| Directory.LookupIsFirstMatch | src/fat16.rs:313-351 | A lookup yields a slot exactly when it is the first match and no end-of-directory slot precedes it |
| Volume.ExtendsKeepsFiles | src/fat16.rs:184-219 | While only free clusters are linked and filled, the volume stays consistent and every file reads as before |
| Volume.PublishSlot | src/fat16.rs:237-243 | An entry that names a chain of its own may replace any slot: the result is consistent and only that file changes |
| Storage.AnyTableIsReadable | src/fat16.rs:77-105 | From any cluster of a set on the drive that links never leave except to an end mark, cycles included, a read of any length is defined, hence ends |
| Storage.ReadableIffClosed | src/fat16.rs:77-105 | Reads of every length from a cluster end exactly when such a set exists |
| Storage.AllocatedIsReadable | src/fat16.rs:77-105 | On a first FAT whose allocated entries link to allocated entries or end marks, cross-linked and cyclic or not, every read from an allocated cluster ends |
| Storage.ReadFrom | src/fat16.rs:77-105 | A read never yields more bytes than the size in the entry |
| Storage.ReadFollowsChain | src/fat16.rs:77-105 | On a complete chain a read yields the first bytes of the concatenated clusters |
| Storage.ClustersNeededIsLeast | src/fat16.rs:179-219 | The number of clusters taken is the least positive number that holds the data |
| Storage.AllocateStep | src/fat16.rs:184-193 | One round of the write loop keeps the chain equal to the smallest free clusters, ascending, linked in order and closed |
| Storage.FillStep | src/fat16.rs:195-214 | Filling the next cluster extends the part of the data stored in the chain by one chunk |
| Storage.WrittenChainReads | src/fat16.rs:221-235 | An entry that points at a completely written chain reads as the data, cut to 32 bits of length |
| Storage.CreateCommits | src/fat16.rs:221-243 | The directory write is the step that makes the new file visible, complete, on the smallest free clusters |
| Storage.FreedKeeps | src/fat16.rs:363-365 | Freeing the old chain keeps every entry of every other file and frees exactly its length |
| Storage.OverwriteCommits | src/fat16.rs:409-420 | The directory write of an overwrite changes one file and keeps every other slot, chain and content |
| Storage.OverwrittenBytes | src/fat16.rs:409-420 | Of the 32 bytes of an overwritten slot exactly the last six may change: first cluster and size |
| Storage.RoundIsMidway | src/fat16.rs:187-214 | In every image of one round of the write loop the clusters taken so far are linked, except perhaps the last, and filled, the last one up to some sector |
| Storage.FreeStartIsUnsound | src/fat16.rs:425-433 | While its first cluster is free the entry being overwritten makes the image inconsistent |
| Storage.MidwayIsTorn | src/fat16.rs:363-407 | An image in the middle of an overwrite is consistent exactly when the old first cluster is in use again; the old entry then heads the part of the new chain from that cluster on and reads as exactly that part of the new data, followed in the cluster being filled by what was there before |
| Storage.OldEntryStaysSound | src/fat16.rs:372-373 | When an overwrite runs out of space all freed clusters are in use again, so the old entry heads a complete chain of its own |
| Storage.OverwriteFails | src/fat16.rs:372-373 | What a failed overwrite leaves: no free cluster, all other files intact, and the exact bytes the damaged file reads as |
| FileSystem.Fat16FileSystem.GetFatEntry | src/fat16.rs:107-115 | Returns the table entry: the two bytes at its place, low byte first |
| FileSystem.Fat16FileSystem.SetFatEntry | src/fat16.rs:133-146 | The new image is the old one with the two bytes of that entry set, in one sector write |
| FileSystem.Fat16FileSystem.FindFreeCluster | src/fat16.rs:117-131 | Returns the smallest free cluster, or nothing exactly when none is free |
| FileSystem.Fat16FileSystem.FirstZeroEntry | src/fat16.rs:123-128 | The first zero entry of one sector of the table |
| FileSystem.Fat16FileSystem.FindEmptyRootSlot | src/fat16.rs:148-169 | Returns the place of the first unused or deleted slot, or nothing if there is none |
| FileSystem.Fat16FileSystem.ScanForEmpty | src/fat16.rs:159-166 | The first unused or deleted slot of a sector |
| FileSystem.Fat16FileSystem.ScanSector | src/fat16.rs:328-348 | The first slot of a sector that matches or ends the directory |
| FileSystem.Fat16FileSystem.FindFileLocation | src/fat16.rs:313-351 | Returns the place and entry of the first file of that name, each field from its bytes |
| FileSystem.Fat16FileSystem.FindFile | src/fat16.rs:435-468 | Returns the entry of the first file of that name, each field from its bytes |
| FileSystem.Fat16FileSystem.ReadCluster | src/fat16.rs:83-95 | Appends the bytes of one cluster, at most as many as are left |
| FileSystem.Fat16FileSystem.ReadFile | src/fat16.rs:77-105 | Returns the bytes along the links, on any table whose links stay on the drive |
| FileSystem.Fat16FileSystem.FreeClusterChain | src/fat16.rs:425-433 | Ends on every table; every intermediate image differs from the first only in entries that end up free, and has the start entry free already |
| FileSystem.Fat16FileSystem.FillCluster | src/fat16.rs:195-211 | The cluster starts with the chunk; in every intermediate image no sector outside the cluster has changed, its first sectors hold the front of the chunk and the others what they held |
| FileSystem.Fat16FileSystem.LinkCluster | src/fat16.rs:187-193 | The table gains one link, cluster contents do not change, and the one or two images it goes through are known exactly |
| FileSystem.Fat16FileSystem.StoreChunk | src/fat16.rs:185-214 | One round of the write loop keeps the loop invariant with one more cluster |
| FileSystem.Fat16FileSystem.WriteChain | src/fat16.rs:184-219 | Stores the data on the smallest free clusters; succeeds exactly when enough clusters are free; every image is midway: nothing in use changes, and a known number of clusters is taken, linked and filled |
| FileSystem.Fat16FileSystem.WriteNewFile | src/fat16.rs:171-246 | Exact outcome; the new file list, chain and free list, and all 32 bytes of the new slot; until the last write every image is consistent and holds the old files |
| FileSystem.Fat16FileSystem.ReplaceChain | src/fat16.rs:363-407 | Frees the old clusters and stores the new data; in every image all other files keep their chains and contents, and what the slot itself holds is known |
| FileSystem.Fat16FileSystem.OverwriteFile | src/fat16.rs:353-423 | Exact outcome; the new file list and free list, or the exact damage; all other files are kept in every image; the first image is inconsistent, and each later one is consistent exactly when the first cluster of the entry is not free, in which case the bytes the entry reads as are given exactly |
| Format.MakeBootSector | src/fat16.rs:260-275 | Every byte of the boot sector, and that it parses to the formatted geometry |
| Format.FormatDrive | src/fat16.rs:248-311 | Writes the boot sector, two fresh FATs and an empty root directory, and nothing else |
| Format.Mount | src/fat16.rs:46-64 | Yields the geometry of the boot sector, each field from its bytes, exactly when its sector size is 512 |
| Format.FreshVolumeIsEmpty | src/fat16.rs:279-304 | A formatted volume is consistent, holds no file and has all 16382 clusters free in order |
| Format.ClustersOnSmallDrive | src/fat16.rs:251-258 | On 65536 sectors exactly the clusters up to 16344 of the formatted table exist |
| Format.ClustersOnLargeDrive | src/fat16.rs:251-258 | From 65689 sectors on every cluster of the formatted table exists |
| Space.CreateLeaks | src/fat16.rs:171-246 | A successful creation leaks a cluster only if the name makes the entry count as no file |
| Space.FailedCreateLeaks | src/fat16.rs:184-185 | A creation that runs out of space leaks exactly what was free |
| Space.OverwriteLeaks | src/fat16.rs:353-423 | A successful overwrite leaks nothing |
| Space.FailedOverwriteLeaks | src/fat16.rs:372-373 | A failed overwrite leaks exactly the free clusters in front of the old first cluster |
| Ledger.PoolIs | src/fat16.rs:363-374 | The clusters an overwrite may use are those of the free list and the old chain, in ascending order |
| Ledger.SameAscending | src/fat16.rs:117-131 | A free list is determined by which clusters are free |
| Ledger.LeaksExactlyWhen | src/fat16.rs:171-246 | The guard, on the state before an operation, under which it loses clusters, as an if-and-only-if |
| Ledger.BrickedForever | src/fat16.rs:184-185 | A volume with no file and no free cluster stays that way under any operations |
| Refinement.ScansAgree | src/fat16.rs:148-169 | Scanning the bytes of the directory finds what scanning the list of files finds |
| Refinement.FreedIsPool | src/fat16.rs:425-433 | Freeing the old chain leaves exactly the pool of the ledger free |
| Refinement.RefinesCreate | src/fat16.rs:171-246 | A successful creation on the drive is the creation on the ledger |
| Refinement.RefinesFailedCreate | src/fat16.rs:184-185 | A creation that runs out of space changes nothing in the ledger but the free list, which becomes empty |
| Refinement.RefinesOverwrite | src/fat16.rs:353-423 | A successful overwrite on the drive is the overwrite on the ledger |
| Refinement.RefinesFailedOverwrite | src/fat16.rs:372-373 | A failed overwrite on the drive is the failed overwrite on the ledger, down to the bytes the damaged file reads as |
| Refinement.AnsweredMeans | src/fat16.rs:117-131 | When the drive is asked only for clusters it has, in terms of the ledger |
| Refinement.CreateLeaksExactly | src/fat16.rs:171-246 | Beside earlier losses, a successful creation loses exactly the clusters the ledger names |
| Refinement.FailedCreateLeaksExactly | src/fat16.rs:184-185 | The same for a creation that runs out of space |
| Refinement.OverwriteLeaksExactly | src/fat16.rs:353-423 | The same for a successful overwrite |
| Refinement.FailedOverwriteLeaksExactly | src/fat16.rs:372-373 | The same for an overwrite that runs out of space |
| Runs.CreatedIsFound | src/fat16.rs:435-468 | When a new file is the one a lookup finds, as an if-and-only-if |
| Runs.ReservedNameIsLost | src/fat16.rs:163-164 | On every volume with an empty slot: no file whose name starts with a reserved byte is found, before or after it has been created |
| Runs.ReservedNameLeaks | src/fat16.rs:163-164 | On a formatted volume such a creation succeeds, the file is not found, and cluster 2 is lost |
| Runs.ReadsOwnWrite | src/fat16.rs:435-468 | What was just stored, by a creation under a fresh name or an overwrite, is what is read by name |
| Runs.OthersStillRead | src/fat16.rs:435-468 | Whatever the outcome, another file reads as before, except exactly when a name that starts with 0x00 is put in front of it |
| Runs.Fetch | src/fat16.rs:435-468 | Finding and reading returns the contents of the first file of that name |
| Runs.ApplyConserves | src/fat16.rs:353-423 | Free clusters, clusters of files and clusters lost by the operation add up, whatever the outcome |
| Runs.LeakIff | src/fat16.rs:171-246 | Some cluster is newly lost exactly when the guard held before the operation |
| Runs.Perform | src/fat16.rs:171-246 | One operation on the drive: outcome and ledger as predicted, and lost clusters exactly as predicted |
| Runs.LargeDriveAnswers | src/fat16.rs:117-131 | On a drive with all clusters no operation asks for a cluster that is not there |
| Runs.Run | src/fat16.rs:171-246 | For any operations, each outcome is decided by the ledger before it, the final volume is the final ledger, exactly the predicted clusters are lost and all clusters add up; it stops early only where the drive lacks a cluster |
| Runs.Session | src/fat16.rs:248-311 | Format, mount, any operations, then read any name: every outcome, the bytes read and every lost cluster are those of the ledger that starts with 512 unused slots and clusters 2 to 16383 free |
| Runs.FreshVolumeLedger | src/fat16.rs:279-304 | The ledger of a formatted volume |
| Runs.OversizedFileBricks | src/fat16.rs:184-185 | On a formatted volume, creating a file longer than 16382 clusters fails, loses every cluster, and no later operation ever succeeds |
| Runs.CyclicFileEnds | src/fat16.rs:77-105 | On a formatted drive with two clusters linked to each other a read of any length ends |
| Text.JoinAround | src/editor/mod.rs:64-66 | The joined text is the lines before, the line, and the lines after |
| Editor.Press | src/editor/mod.rs:178-266 | Every key keeps the cursor of a flat text in bounds |
| Editor.InsertInLine | src/editor/mod.rs:185-186 | Inserting into a line is inserting at the flat offset |
| Editor.BreakLine | src/editor/mod.rs:189-196 | Splitting a line is inserting a line feed at the flat offset |
| Editor.DeleteInLine | src/editor/mod.rs:199-201 | Removing from a line is deleting in front of the flat offset |
| Editor.MergeLines | src/editor/mod.rs:202-209 | Merging two lines is deleting the line feed in front of the flat offset |
| Editor.MoveUpward | src/editor/mod.rs:247-255 | Up goes to the same column of the line above, clamped to its length |
| Editor.MoveDownward | src/editor/mod.rs:257-265 | Down goes to the same column of the line below, clamped to its length |
| Editor.MoveHorizontally | src/editor/mod.rs:228-245 | Left and right move the flat offset by one, clamped to the text |
| Editor.Editor.InsertChar | src/editor/mod.rs:179-187 | Typing a character, line feed included, splices it into the flat text |
| Editor.Editor.BackspaceKey | src/editor/mod.rs:198-210 | Backspace deletes the character in front of the flat offset, or nothing at the start |
| Editor.Editor.Edit | src/editor/mod.rs:57-100 | Any sequence of keys keeps the cursor in bounds and acts like the same keys on a flat text |
| SaveReopen.SplitJoin | src/editor/mod.rs:160-175 | What is left of joined lines once they have been split again |
| SaveReopen.ReopenIsIdentity | src/editor/mod.rs:64-77 | Exactly when saving and reopening gives the same lines |
| SaveReopen.ReopenDropsOneLine | src/editor/mod.rs:160-168 | Otherwise, carriage returns apart, exactly the empty last line is dropped |
| SaveReopen.ReopenExactly | src/editor/mod.rs:160-168 | What reopening gives, line by line: exactly a final carriage return before the last line and an empty last of several lines are dropped |
| SaveReopen.SaveSucceeds | src/editor/mod.rs:64-77 | A save succeeds exactly when there is room, the old clusters of the file included |
| SaveReopen.SaveStores | src/editor/mod.rs:64-77 | A successful save changes exactly one entry of the file list and makes it hold the contents |
| SaveReopen.Save | src/editor/mod.rs:64-77 | The outcome and the whole new volume; on success the file list differs in one entry, and unless the name is reserved reading it yields the joined text, one byte per character with its code |
| SaveReopen.Open | src/editor/mod.rs:30-42 | The editor starts with the lines of the first file of that name, or of nothing, cursor at the start |
| SaveReopen.SaveThenOpen | src/editor/mod.rs:64-77 | If there is room, and then only, the save succeeds and the text comes back as the lines that joining and splitting leaves; otherwise what the failed save left is opened |
| Wakeup.ExecInv | src/task/executor.rs:75-90 | Every interleaving that does not panic keeps the invariant of the protocol |
| Wakeup.NoLostWakeup | src/task/keyboard.rs:52-68 | A waiting scancode has the keyboard task running or ready; the processor halts only when nothing is ready and nothing waits |
| Wakeup.AcceptedExactly | src/task/keyboard.rs:24-34 | What a run accepts is the codes of exactly the unmasked key interrupts that find the queue there with fewer than 100 codes, in order, whatever the waker |
| Wakeup.NothingLost | src/task/keyboard.rs:24-34 | What has been delivered followed by what waits is exactly those codes |
| Wakeup.DeliveredInOrder | src/task/keyboard.rs:24-34 | Accepted scancodes are delivered once and in order |
| Wakeup.AlwaysDeliverable | src/task/executor.rs:103-129 | From every state a run reaches without a panic, running on undisturbed delivers everything that waits |
| Wakeup.PopPollsFront | src/task/executor.rs:111-120 | The front of the ready queue is polled if it is a live task and skipped otherwise |
| Wakeup.HaltsWhenIdle | src/task/executor.rs:81-90 | With nothing ready the executor halts, and any interrupt resumes it |
| Wakeup.DoneIsRemoved | src/task/executor.rs:121-125 | A finished task and its cached waker are removed, and no others |
| Wakeup.PollDrains | src/task/keyboard.rs:72-86 | Left alone, one poll delivers everything that waits, registers the waker and suspends |
| Wakeup.ReadyQueueIsFair | src/task/executor.rs:103-129 | The task at position k of the ready queue is popped after exactly k other pops, whatever is pushed meanwhile |
| Wakeup.SpareRoundEffect | src/task/keyboard.rs:61-66 | An interrupt between registration and second pop leaves one spare id in the ready queue |
| Wakeup.InterruptsCanOverflow | src/task/executor.rs:36-38 | A run with one task that panics with a full ready queue |
| Wakeup.PanicsExactly | src/task/executor.rs:36-38 | A run panics exactly when one of its actions pushes to a ready queue that is full by then |
| Wakeup.NoiseBoundsQueue | src/task/executor.rs:36-38 | The ready queue never holds more ids than tasks at the start plus noisy pushes; a panic takes more of these than there is room |
| Wakeup.NoiseBoundIsMet | src/task/keyboard.rs:61-66 | For every number of spare wakes up to the capacity a run reaches that bound |
| Wakeup.OneEntryIffQuiet | src/task/executor.rs:103-129 | At every moment each task is queued at most once, and the running keyboard task not at all, exactly when the run makes no noisy push |
| Executor.QueueIsRoundRobin | src/task/executor.rs:103-129 | For any number of turns, polling the front and requeueing at the back makes the first polls of rounds over the live tasks, endless or not |
| Executor.RoundLeaves | src/task/executor.rs:103-129 | After a whole round the queue holds what was behind it, then the tasks that go on, in the same order |
| Executor.PolledOncePerRound | src/task/executor.rs:103-129 | A round polls no task twice, and polls a task exactly when it has that many polls to come; an endless task is polled once in every round |
| Executor.RunsEmpty | src/task/executor.rs:103-129 | The queue runs empty exactly when every task has an end, after all their polls and not earlier |
| Executor.PolledAsDue | src/task/executor.rs:103-129 | In any number of turns a task is polled at most as often as it has polls to come, and is gone exactly when it has been polled that often |
| Executor.Executor.Spawn | src/task/executor.rs:95-101 | Panics exactly on a known id or a full queue; otherwise the task is last in the queue |
| Executor.Executor.Poll | src/task/executor.rs:17-28 | In terms of the fields of the task: it is done exactly when no yield is pending or to come; otherwise it has used up its pending yield or the next one, and has woken itself once |
| Executor.Executor.RunReadyTasks | src/task/executor.rs:103-129 | After any number of turns, with at most 100 tasks of which any may be endless, the queue has not overflowed, each live task has one entry, the polls made are the first of the rounds, a task with m yields to come is gone exactly when it has been polled m + 1 times (m + 2 if it waits in an unpolled yield), and an endless one never |
| Tokenizer.Tokenize | src/parser.rs:27-92 | The loop with its two flags computes the tokens of the three-mode machine |
| Tokenizer.SpaceSeparates | src/parser.rs:66-84 | Outside strings and comments each White_Space character separates tokens and leaves none, and a parenthesis is a token of its own |
| Tokenizer.SpacesAreWhite | src/parser.rs:75 | A character is white space exactly if it is one of the 25 White_Space code points |
| Tokenizer.TokensConserve | src/parser.rs:27-92 | The tokens laid end to end are the text minus comments and whitespace outside strings |
| Tokenizer.TokensShape | src/parser.rs:27-92 | Tokens are words, parentheses or closed strings; the last one is an open string exactly when the text ends inside one |
| Tokenizer.CommentIsSpace | src/parser.rs:34-59 | A closed comment outside strings acts like one space |
| Reader.ParseTokens | src/parser.rs:94-103 | Computes the specified reading |
| Reader.ReadSequence | src/parser.rs:105-119 | The loop computes the specified reading of a list |
| Reader.AtomPanics | src/parser.rs:121-137 | An atom panics exactly if it is a lone quote |
| Reader.AtomReads | src/parser.rs:121-137 | Every other atom: a quoted text reads as that text, a numeral as its number, anything else as a symbol |
| Reader.ClosingIsFirst | src/parser.rs:105-119 | The closing position is the first place where the nesting depth is back at zero |
| Reader.ParseExactly | src/parser.rs:94-119 | Exactly when reading succeeds or panics, and that it takes exactly the shortest balanced prefix |
| Reader.ParseIgnoresRest | src/parser.rs:94-119 | Tokens appended behind an expression do not change how it is read |
| Reader.ReadingPanicsExactly | src/parser.rs:121-128 | Exactly which texts make the reader panic |
| RoundTrip.PrintedList | src/parser.rs:940-961 | A list prints as its printed elements with one space between neighbours, in parentheses |
| RoundTrip.PrintThenRead | src/parser.rs:940-961 | Nested lists of booleans and legal symbols are read back from their printed form with nothing left over |
| RoundTrip.RoundTripsExactly | src/parser.rs:940-961 | With strings allowed, data is read back exactly when it holds no string |
| EvaluatorFuel.MoreFuel | src/parser.rs:420-880 | An evaluation that has ended gives the same result with any amount of fuel on top |
| EvaluatorFrame.EvaluationIsFramed | src/parser.rs:420-880 | No evaluation removes a binding, and variables not named by a mutating form stay exactly as they were |
| EvaluatorFrame.CallFrame | src/parser.rs:839-871 | A call changes only what its head and arguments change, whatever the closure does |
| EvaluatorFrame.ErrorFrame | src/parser.rs:796-833 | Raising an error changes only what its message changes, whatever the handler does |
| EvaluatorUnfold.AndUnfolds | src/parser.rs:550-567 | `and` equals its unfolding into `if`, in value, environment, world and success, both ways |
| EvaluatorUnfold.OrUnfolds | src/parser.rs:568-585 | `or` equals its unfolding into `if`, in value, environment, world and success, both ways |
| EvaluatorUnfold.ForUnfolds | src/parser.rs:586-609 | `for` equals its unfolding into `if` and `do`, in value, environment, world and success, both ways |
| EvaluatorLaws.YieldsOnce | src/parser.rs:420-880 | An evaluation ends in one way only, however much fuel it is given |
| EvaluatorLaws.LogicLaw | src/parser.rs:550-585 | `and` and `or` for any number of arguments and every way to end: all arguments in turn, or the first that decides, fails or is no boolean |
| EvaluatorLaws.AndIsTrue | src/parser.rs:550-567 | `and` is true exactly when all its arguments, evaluated in turn, are true, the empty list included |
| EvaluatorLaws.AndIsFalse | src/parser.rs:550-567 | `and` is false exactly when the first argument that is not true is false |
| EvaluatorLaws.OrIsFalse | src/parser.rs:568-585 | `or` is false exactly when all its arguments are false, the empty list included |
| EvaluatorLaws.OrIsTrue | src/parser.rs:568-585 | `or` is true exactly when the first argument that is not false is true |
| EvaluatorForms.BindAllScope | src/parser.rs:882-901 | In the environment of a call each parameter has its argument, the last of equal parameters wins, other names have the captured value or else that of the caller |
| EvaluatorForms.ScopeIsUnique | src/parser.rs:882-901 | That determines the environment |
| EvaluatorForms.ClosureCall | src/parser.rs:849-871 | The call of a closure ends exactly when its body ends in that environment, with the result and world of the body and the environment the arguments left |
| EvaluatorForms.BadClosureCall | src/parser.rs:887-894 | With another number of arguments, or parameters that are no list of symbols, the call fails and the body does not run |
| EvaluatorForms.BuiltinCall | src/parser.rs:842-848 | A builtin function gets the values of the arguments in order |
| EvaluatorForms.BadHead | src/parser.rs:840-871 | A head that fails or is no function ends the call before any argument is evaluated |
| EvaluatorForms.BadArgument | src/parser.rs:843-853 | The first argument that fails ends the call |
| EvaluatorForms.AtomLaw | src/parser.rs:426-431 | Booleans, numbers, strings and maps stand for themselves, a bound symbol for its value |
| EvaluatorForms.UnboundLaw | src/parser.rs:429-431 | An unbound symbol fails |
| EvaluatorForms.QuoteLaw | src/parser.rs:544-549 | `quote` yields its first form unevaluated |
| EvaluatorForms.FnLaw | src/parser.rs:920-938 | `fn` makes a closure that keeps the environment |
| EvaluatorForms.IfLaw | src/parser.rs:442-464 | `if` ends exactly as the branch chosen by its condition does |
| EvaluatorForms.BadIf | src/parser.rs:452-462 | A condition that is no boolean or a missing branch fails after the condition |
| EvaluatorForms.DefLaw | src/parser.rs:465-488 | `def` binds the value in the environment its evaluation leaves and yields the symbol |
| EvaluatorForms.AppendLaw | src/parser.rs:611-651 | `append` adds the value behind the list the variable holds by then and yields the longer list |
| EvaluatorForms.AppendToNoList | src/parser.rs:630-644 | `append` to anything but a list fails after evaluating the value |
| EvaluatorForms.PopLaw | src/parser.rs:653-691 | `pop` takes the last element off the list and yields it |
| EvaluatorForms.PopOfNothing | src/parser.rs:667-684 | `pop` from anything but a non-empty list fails and changes nothing |
| EvaluatorForms.PopUndoesAppend | src/parser.rs:611-691 | `pop` gives back what `append` added and restores the variable |
| EvaluatorForms.MsetLaw | src/parser.rs:693-738 | `mset` evaluates key, then value, stores the value under the key and yields it |
| EvaluatorForms.MsetOfNoKey | src/parser.rs:713-715 | `mset` with a value that cannot be a key fails before its value is evaluated |
| EvaluatorForms.MsetOfNoMap | src/parser.rs:717-732 | `mset` on anything but a map fails after evaluating key and value |
| EvaluatorForms.MdelLaw | src/parser.rs:740-780 | `mdel` removes the key and yields true |
| EvaluatorForms.MdelOfNoMap | src/parser.rs:757-774 | `mdel` with no key or no map fails after evaluating the key |
| EvaluatorForms.DoLaw | src/parser.rs:782-794 | `do` evaluates its forms in turn and yields the value of the last, or the empty list |
| EvaluatorForms.BadDo | src/parser.rs:789-791 | The first form of a `do` that fails ends it |
| EvaluatorForms.SysLaw | src/parser.rs:492-542 | `sys` runs the command whose words its arguments evaluate to, in the world they leave, and yields it or its error |
| EvaluatorForms.ErrorLaw | src/parser.rs:796-833 | `error` runs a one-parameter closure bound to `error` on the message, keeps only the world it leaves, and fails with the message |
| EvaluatorForms.PlainErrorLaw | src/parser.rs:796-833 | Without such a closure it just fails with the message |
| EvaluatorForms.MalformedFails | src/parser.rs:442-610 | Forms with missing or extra parts fail before anything is evaluated |
| EvaluatorForms.MalformedBindingFails | src/parser.rs:465-486 | So do `def` and `pop` without a symbol or with the wrong number of forms |
| EvaluatorForms.MalformedStoreFails | src/parser.rs:611-757 | So do `append`, `mset` and `mdel` |

## Left out

- The port-level ATA protocol (`src/ide.rs`): busy-waiting on hardware; only read-after-write is kept.
- The second copy of the FAT after formatting: the source never updates it, so nothing is claimed about it.
- Subdirectories, long names and deletion: not implemented by the source.
- Clusters past the end of the drive: the real drive does not answer there, so `Ledger.Answered` excludes such operations.
- FileSystem.Fat16FileSystem.WriteNewFile: stated for consistent volumes with a supported geometry, because the source checks neither.
- Eval: the evaluator is a function with fuel that threads the environment and the world as values, because `for` may not end; updating the environment in place through an exclusive reference is not modelled, and non-termination shows as running out of fuel.
- The text of errors: the number of arguments is not printed in one message, and the two kinds of failed system calls share one form.
- Floating-point arithmetic, number parsing and printing, and the builtin functions of the Lisp: opaque parameters.
- Printing of maps, closures and system calls: an opaque parameter of `Print`.
- `interpret`: splitting a script at semicolons and injecting its arguments.
- Wakeup: the two queues, the waker and the executor are one state value that step functions update, so that interrupts can be interleaved; the steps inside a waker registration and inside a queue operation are atomic, as the libraries the source uses promise.
- Executor: the class covers tasks that wake themselves through `yield_now`; other wakers are covered by the step system. The endless loop of `run_ready_tasks` appears as a loop of any number of turns.
- SaveReopen.Open: a file that is not ASCII yields no editor, where the source replaces invalid bytes and opens it; the editor model is about ASCII text only.
- Text outside ASCII in the editor, where byte steps and characters differ, and the drawing of the screen.
- Decoding scancodes into key events, the queue of decoded keys, shell commands, memory management and device output.
