# A verified model of the kernel's core

This project models the central mechanisms of a small i386 Unix kernel (Linux 0.01 with file encryption added)
in Dafny and proves what they promise. Each subsystem is an object or a set of in-place routines written in the
shape of the source, proved against a plain specification, with theorems about whole runs on top:

- **Memory** (`Paging`, `PagingSteps`, `PageManager`, `FlatMemory`, `TaskMemory`): reference-counted frames,
  two-level page tables, copy-on-write at fork and demand-zero pages refine a flat memory per task that fork copies
  eagerly. The frame table, directory and page contents are arrays changed in place.
- **Files** (`Zones`, `ZoneSteps`, `FileSystem`, `Truncate`, `FileRuns`): zone bitmap and direct, indirect and
  double-indirect blocks refine flat byte sequences; marked zones are exactly the reachable ones.
- **Encryption** (`Cipher`, `Transposition`, `EncryptedFiles`, `EncryptedRuns`): quicksort of an index array by key,
  column transposition in both directions, the decrypt/encrypt bracket around file reads and writes, and histories of
  both on marked and unmarked files.
- **Buffer cache**: hash chains and free ring as linked structures (`BufferLists`, `BufferQueues`, `BufferIds`), the
  write-back cache as a refinement of an array of blocks (`BufferCache`), and the protocol of getblk, bread and brelse
  with its locks and transfers under every interleaving: identities and counts (`BufferProtocol`), the ring itself
  (`BufferRing`), contents (`BufferCoherence`). `BufferRuns` defines the runs in which tasks are switched only where
  the kernel sleeps; the failing runs of `BufferRingLoss` and `BufferStale` are of that kind.
- **Tasks** (`WaitQueues`, `Scheduler`): sleep_on and wake_up over chains of saved pointers; counters, epochs and
  proportional share.
- **Console** (`Terminal`, `TerminalLaws`, `TerminalCommands`, `Console`): the escape-sequence parser and the moving
  display origin refine a 25 by 80 terminal without video memory, which in turn shows the end of an endless page; and
  what each control sequence does is stated in rows and columns over the bytes written.
- **Exec stack** (`ExecArgs`, `ExecStack`): argument strings copied downwards into pages taken on demand, and the
  tables of "Process Initialization" in chapter 3 of the System V ABI Intel386 supplement, without the auxiliary
  vector.
- **Pipes and descriptors** (`Rings`, `Pipe`, `Descriptors`): what goes in comes out, and what is counted is there.
- **Terminal queues**: the line discipline (`LineDiscipline`), echo that the console may answer (`Echoes`), the rings
  as they are used, with nothing checked and each routine calling the others again (`Overruns`, `Tty`), and when
  that comes to the same (`InStep`, `ConsoleRuns`); `Replay` shows what happens when it does not.

Page frames are sequences of 32-bit words, video memory is an array of 16-bit cells; files, blocks and the memory a
new program sees are bytes. Integers wrap exactly where the source relies on it (console parameters and
cursor motion are taken modulo 2^32, block hashing on 32-bit words). A panic that data can cause is a result value;
one that only a wrong call inside the kernel can cause is a precondition. Allocation failure, a full table or a full
device is an ordinary outcome of every operation that can meet it. The theorems about runs say of every operation
exactly what came of it, in the state it met.

## What the code does not keep

Some promises do not hold of the code as it is. The model keeps the code and states exactly when the promise holds:

- remove_from_queues on a ring of one buffer leaves free_list at that buffer, and the buffers inserted afterwards are
  not on one ring. A ring stays whole if and only if another buffer is queued (`BufferRing.TakeKeepsRing`), and in
  every run if and only if there are fewer tasks than buffers (`BufferRingLoss.RingWholeIff`): the kernel has 64 task
  slots, and as many buffers as fit below BUFFER_END.
- getblk takes a dirty buffer off the hash queues before sync_dev has written it. A lookup of the old block in
  between reads the disk and gets old data (`BufferStale.StaleReadHappens`), if and only if the dirty contents differ
  from the disk (`BufferCoherence.RaceIsStale`). A store into a buffer whose write is ending is taken for written
  (`BufferCoherence.StoreMeetsWrite`). Without these two races contents are coherent in every interleaving
  (`BufferCoherence.ExecCoherent`).
- file_read returns early for count <= 0 after it has decrypted a marked file (`EncryptedFiles.ReadFile`,
  `EncryptedFiles.EarlyReturnChangesFile`). Its one caller, sys_read (fs/read_write.c:68-70), never passes such a
  count, so no system call comes to this.
- con_write takes the number of bytes to show once, and is called again by the echo of an answer or of a key; what the
  inner call has shown the outer one takes again, from beyond the head of write_q. This happens if and only if
  something is echoed before the last byte of a write has been taken (`ConsoleRuns.OverrunIff`): ESC Z before the last
  byte (`ConsoleRuns.WriteClashes`), or a key typed meanwhile (`ConsoleRuns.KeyGoesPast`). Then old output is shown and
  answered again at every echo, and typing loses the cooked queue (`Replays.OverrunLoses`).
- The console's answer to ESC Z runs copy_to_cooked again inside an echo, and the byte being echoed is then put into
  a queue that may be full by now (`Echoes.AnswerLoses`, `Echoes.OneKeyLoses`, `Replays.LosesInStep`).
- sys_pipe stores the two descriptors without verify_area (fs/pipe.c:89-90). The store stays in the task's own memory
  if and only if the page is absent or its count is 1 (`PageManagers.UnverifiedKeepsIff`); after a fork another
  task's memory changes.
- Cursor motion is computed modulo 2^32: a distance within a screen of 2^32 moves the cursor the other way
  (`TerminalCommands.MovesByRows`, `TerminalCommands.MovesByColumns`).
- tolower adds the two letters' codes instead of their difference (`LineDiscipline.ToLower`): under IUCLC every
  upper-case letter becomes a byte below zero, and no other byte changes.
- tty_read in canonical mode does not stop at the end of a line (`LineDiscipline.OneLineIff`,
  `LineDiscipline.ReadsTwoLines`).
- ESC 7 and ESC 8 test the cursor column instead of the byte (`TerminalLaws.EscSevenSaves`,
  `TerminalLaws.EscEightRestores`).
- copy_strings compares an unsigned difference with 0, a first call that fails does not stop the second, and strings
  that fill the 32 pages exactly count as a failure (`ExecArgs.ArgPages.CopyArgs`).
- dup2 of a descriptor onto itself closes it (`Descriptors.FileTable.SysDup2`).

## Model

| member | source | states |
|---|---|---|
| `Paging.CountIsReferences` | mm/memory.c:78-119 | `mem_map` of every counted frame is the number of present user page-table entries naming it, plus directory entries using it as a table, plus one when the kernel holds the page itself |
| `Paging.SharedIsReadOnly` | mm/memory.c:151-173 | a frame named by two or more entries is read-only in all of them |
| `Paging.SoleMapper` | mm/memory.c:208-217 | count 1 on a mapped frame means exactly one entry names it, which is what lets un_wp_page just set the write bit |
| `Paging.CountFits` | mm/memory.c:166-171 | no frame ever has more mappers than there are tasks, so the 16-bit count cannot wrap |
| `Paging.MappersChange` | mm/memory.c:109-112 | changing one table word moves every frame's mapper count by exactly what the old and new words name |
| `Paging.ClearWriteDecodes` | mm/memory.c:165-167 | clearing the write bit keeps presence and frame number and makes the word read-only |
| `PagingSteps.PteAfterSetPte` | mm/memory.c:162-172 | a store to one table word changes that word of that table and no other slot of any task |
| `PagingSteps.AllocKeeps` | mm/memory.c:52-71 | taking a frame of count 0 keeps the invariant and changes no task's view of memory |
| `PagingSteps.InstallTableKeeps` | mm/memory.c:195-203 | a fresh zeroed table shows the same zeros as the missing one did |
| `PagingSteps.InstallPageKeeps` | mm/memory.c:203-205 | a held page becomes the sole writable mapping of its slot; no other view changes |
| `PagingSteps.ShareKeeps` | mm/memory.c:162-172 | sharing a slot read-only and counting it once more keeps the invariant; source and copy show the same bytes |
| `PagingSteps.ShareLowKeeps` | mm/memory.c:162-172 | the same for a frame below 1 MB, which is mapped read-only and not counted |
| `PagingSteps.UnshareKeeps` | mm/memory.c:208-223 | the private copy shows the writer the same bytes, and every other task's view is untouched |
| `PagingSteps.MakeWritableKeeps` | mm/memory.c:213-217 | turning the write bit on for a sole mapper changes no view |
| `PagingSteps.StoreKeeps` | mm/memory.c:208-249 | a store through a writable mapping changes one word of one view and nothing else |
| `PagingSteps.DropTableKeeps` | mm/memory.c:113-115 | giving back an emptied table keeps the invariant and every view |
| `PageManagers.PageManager.GetFreePage` | mm/memory.c:52-71 | the highest frame of count 0, zeroed and counted once; 0 exactly when none is free; no view changes |
| `PageManagers.PageManager.FreePage` | mm/memory.c:78-89 | the count goes down by one; low addresses are ignored; a free page or one beyond memory is the panic; and the one address HIGH_MEMORY, which the test lets through, is the entry past mem_map |
| `PageManagers.PageManager.DropSlot` | mm/memory.c:109-112 | one mapping is dropped, its frame's count goes down and never underflows; other slots keep their views |
| `PageManagers.PageManager.FreePageTables` | mm/memory.c:94-119 | every page and table under the range is released, each once; the range reads as zero and everything else as before |
| `PageManagers.PageManager.ShareSlot` | mm/memory.c:162-172 | after one turn of the copy loop the target slot shows what the source slot shows, both read-only |
| `PageManagers.PageManager.CopyTable` | mm/memory.c:157-172 | a new table through which the target shows what the source shows, or no frame was free |
| `PageManagers.PageManager.CopyPageTables` | mm/memory.c:138-177 | 0: the target range shows exactly what the source range shows; -1 if and only if there are fewer free frames than the source range has tables; either way no view of an existing task changes |
| `PageManagers.PageManager.NeedTable` | mm/memory.c:195-203 | the page table of an address is there afterwards, or no frame was free; no view changes |
| `PageManagers.PageManager.PutPage` | mm/memory.c:185-206 | the held page becomes the mapping of the address; 0 when no table could be had |
| `PageManagers.PageManager.DoNoPage` | mm/memory.c:251-259 | a zero page appears where there was none, no view changes; the one failing path leaves its page counted, and that is stated |
| `PageManagers.PageManager.UnWpPage` | mm/memory.c:208-223 | afterwards the page is private and writable, with the same bytes in every view |
| `PageManagers.PageManager.WriteVerify` | mm/memory.c:238-249 | a kernel store to user memory finds the page private; no view changes |
| `PageManagers.PageManager.Load` | mm/memory.c:251-259 | a load returns the word of the task's own view, through the fault handler when needed |
| `PageManagers.PageManager.Store` | mm/memory.c:208-259 | a store by user code changes that word of that task's view and no other word of any task |
| `PageManagers.PageManager.KernelStore` | mm/memory.c:238-249 | the same for put_fs_byte after verify_area, which the processor's write protection does not guard |
| `PageManagers.PageManager.UnverifiedStore` | fs/pipe.c:89-90 | put_fs_long without verify_area: a missing page faults and only the task's own view changes; a page that is there is written in place |
| `PageManagers.UnverifiedKeepsIff` | fs/pipe.c:89-90 | such a store to a page that is there stays in the task's own view if and only if its frame is counted and the count is 1 |
| `FlatMemory.Isolation` | mm/memory.c:130-177 | in the flat memory nothing another task does later changes what a task recalls |
| `FlatMemory.ForkSnapshot` | mm/memory.c:130-177 | a child recalls its parent's contents at fork time, whatever the parent does afterwards |
| `FlatMemory.OwnStore` | mm/memory.c:208-259 | a task recalls its own last store |
| `FlatMemory.VacatedIsZero` | kernel/exit.c:68-69 | a space given up by exec or exit holds zeros until its task stores into it |
| `TaskMemory.CountsRestored` | kernel/fork.c:49-52 | a fork that ran out of page tables and was undone leaves every frame count as before |
| `TaskMemory.AgreesForked` | kernel/fork.c:33-54 | after a fork the machine again agrees with the flat memory in which the child's space was copied eagerly |
| `TaskMemory.ReachesPages` | fs/exec.c:143-149 | a task reaches exactly the pages below its data limit: a child of task 0 the first 160 |
| `TaskMemory.Kernel.FindEmptyProcess` | kernel/fork.c:136-139 | the first free task slot from 1 on, if there is one |
| `TaskMemory.Kernel.CopyMem` | kernel/fork.c:33-54 | the child's space shows the parent's, if and only if there are frames for its page tables; otherwise the attempt is undone and every count restored |
| `TaskMemory.Kernel.CopyProcess` | kernel/fork.c:61-126 | fork succeeds if and only if there are free frames for the task page and its page tables, with the parent's contents; otherwise all counts are as before the call; the child takes over the parent's two segment limits |
| `TaskMemory.Kernel.FreeSpace` | kernel/exit.c:68-69 | both ranges of a task are released and read as zero; other tasks are untouched |
| `TaskMemory.Kernel.DoExit` | kernel/exit.c:64-92 | an exiting task's space is released and reads as zero; its slot is free if it is an orphan and a zombie's if not |
| `TaskMemory.Kernel.DoExec` | fs/exec.c:437-438 | exec gives up the old space and the new one reads as zero until written; its data limit is 64 MB and its code limit the text size rounded up to a page |
| `TaskMemory.Kernel.DoLoad` | mm/memory.c:251-259 | a load returns what the history of the task says, or the task dies for lack of memory; with two free frames it does not |
| `TaskMemory.Kernel.DoStore` | mm/memory.c:208-259 | a store extends exactly the storing task's history |
| `TaskMemory.Kernel.Step` | mm/memory.c:138-259 | every operation keeps counting, sharing and agreement with the flat memory, and its outcome is exact: refused if and only if it does not apply, a fork if and only if there is no slot or too few frames; a load or store kills only without two free frames; and the task table after it is exact, slot by slot and limit by limit |
| `TaskMemory.Kernel.Run` | mm/memory.c:138-259 | refinement over every run of forks, loads, stores, execs and exits: all loads are those of per-task flat memories with eager fork, every event is the exact outcome of its operation in the state it met, the task table (slots and segment limits) moves exactly as the operation says, and the counting and sharing invariant holds at the end |
| `Zones.NoCrossLink` | fs/inode.c:49-115 | no two recording places, of one file or of two, hold the same zone |
| `Zones.MarkedIsReachable` | fs/bitmap.c:39-97 | a zone is marked in the bitmap if and only if some inode reaches it |
| `Zones.DataSlotInjective` | fs/inode.c:58-115 | the direct/indirect/double-indirect arithmetic gives every logical block its own recording place |
| `Zones.ZonePlaces` | fs/inode.c:58-114 | blocks 0 to 6 are found in the inode, 512 through the block in zone 7, and block 519 + 512*i + j through entry j of the block named by entry i of the one in zone 8 |
| `Zones.EntryBytes` | fs/inode.c:75-113 | entry i of an indirect block is the little-endian word at bytes 2i and 2i+1; zone z has bit z - firstdatazone + 1 of the zone map |
| `ZoneSteps.ValAfterRecord` | fs/inode.c:58-114 | recording a fresh block fills one place and leaves every other mapping unchanged |
| `ZoneSteps.RecordKeeps` | fs/inode.c:58-114 | recording keeps marked == reachable, disjointly |
| `ZoneSteps.RecordContents` | fs/inode.c:58-114 | allocating a block changes no file's contents: a hole and a fresh block both read as zeros |
| `ZoneSteps.WriteKeeps` | fs/file_dev.c:163-176 | overwriting a data block changes that block of that file and nothing else |
| `FileSystems.FileSystem.FindFirstZero` | fs/bitmap.c:23-37 | the lowest clear bit of a map block, or 8192 |
| `FileSystems.FileSystem.FirstClearBit` | fs/bitmap.c:75-81 | the lowest clear bit of the whole map, or its length |
| `FileSystems.FileSystem.NewBlock` | fs/bitmap.c:67-97 | the lowest free zone, now marked and zero-filled; 0 exactly when there is none; no file changes |
| `FileSystems.FileSystem.FreeBlock` | fs/bitmap.c:39-65 | the bit is cleared; clearing a clear bit is the panic |
| `FileSystems.FileSystem.Fill` | fs/inode.c:58-114 | the create-if-empty step that all levels repeat: afterwards the place holds a zone unless none was left |
| `FileSystems.FileSystem.BMap` | fs/inode.c:49-125 | the zone of a logical block (where `Zones.ZonePlaces` says), created on demand; no other mapping and no file's contents change |
| `FileSystems.FileSystem.BMapDouble` | fs/inode.c:86-114 | the double-indirect case of the same |
| `FileSystems.FileSystem.FileRead` | fs/file_dev.c:93-120 | returns the bytes of the flat file from pos on, holes as zeros, and changes nothing |
| `FileSystems.BytePlace` | fs/file_dev.c:101-116 | byte 1024*b + r of the flat file is byte r of the zone of block b, and 0 in a hole |
| `FileSystems.FileSystem.PutData` | fs/file_dev.c:163-176 | one block's worth of bytes is a splice of the flat file |
| `FileSystems.FileSystem.WriteChunk` | fs/file_dev.c:159-176 | one turn of the loop splices exactly the chunk that fits the block |
| `FileSystems.FileSystem.FileWrite` | fs/file_dev.c:154-187 | the i bytes completed are spliced at pos, size becomes max(size, pos+i), no other file changes and no other file's zones; i is short only when the device is full, or at the end of the largest file, which is the panic |
| `Truncation.FreeInd` | fs/truncate.c:5-21 | frees each zone of an indirect block and the block, each once and none twice |
| `Truncation.FreeDind` | fs/truncate.c:23-39 | the same for the double-indirect tree |
| `Truncation.FreeDirect` | fs/truncate.c:47-51 | the same for the seven direct zones |
| `Truncation.Truncate` | fs/truncate.c:41-58 | clears exactly the file's own zones, each once, never panicking; the file is empty and all others unchanged; other inode kinds are left alone |
| `Truncation.EmptiedKeeps` | fs/truncate.c:41-58 | truncation keeps marked == reachable, the file reads as zeros, others as before |
| `Truncation.AllFreed` | fs/truncate.c:41-58 | every zone the file reached is among those freed, and no other |
| `FileRuns.ZeroPastEnd` | fs/file_dev.c:154-187 | bytes beyond a file's size read as zero in every history |
| `FileRuns.Runner.Step` | fs/file_dev.c:93-187 | each write, read or truncate moves the flat file as it moves the disk; it is skipped if and only if it does not apply, and a write is short only on a full device |
| `FileRuns.Runner.Run` | fs/file_dev.c:93-187 | over every run all reads are those of flat byte sequences, every event is the exact outcome of its operation between the states around it, and marked zones stay exactly the reachable ones |
| `Cipher.SortLockstep` | kernel/sys.c:503-545 | quicksort keeps the index array a permutation in step with the key |
| `Cipher.SortAscending` | kernel/sys.c:503-545 | quicksort orders the key between low and high and moves nothing outside |
| `Cipher.PartitionSplits` | kernel/sys.c:514-545 | partition leaves smaller-or-equal values before the pivot and larger ones after it |
| `Cipher.ColumnOrderSorts` | kernel/sys.c:187-202 | the column order is a permutation of the columns that reads the lower-cased key in ascending order |
| `Cipher.CaseIgnored` | kernel/sys.c:547-557 | writing a letter of the key small does not change the column order |
| `Cipher.SmallKeySorts` | kernel/sys.c:187-202 | a key without upper-case letters is itself read in ascending order by the column order |
| `Cipher.EqualLetters` | kernel/sys.c:514-545 | with all letters equal the columns stay in their order |
| `Transposition.WalkIsPermutation` | kernel/sys.c:203-215 | the column walk visits each position exactly once and ends with counter == len, for every length and every non-empty key |
| `Transposition.DecryptsEncrypted` | kernel/sys.c:187-216 | decryption undoes encryption for every key and buffer length |
| `Transposition.EncryptsDecrypted` | kernel/sys.c:465-494 | encryption undoes decryption for every key and buffer length |
| `Transposition.CipherPlaces` | kernel/sys.c:465-494 | position by position: row r of the i-th column in the key's order comes from order[i] + r*|key| and goes behind all cells of the columns before it; decryption takes it back |
| `Transposition.CipherIgnoresCase` | kernel/sys.c:547-557 | upper and lower case of a key give the same encryption and decryption |
| `Transposition.ToLowerCase` | kernel/sys.c:547-557 | each character of the key, with 32 added to those from 65 to 90 and no others |
| `Transposition.Partition` | kernel/sys.c:514-545 | the in-place loop computes the specified partition of both arrays |
| `Transposition.SortIndexAndGlobal` | kernel/sys.c:503-512 | the in-place recursion computes the specified sort of both arrays |
| `Transposition.IndexArray` | kernel/sys.c:469-480 | index array and local key, sorted, give the column order |
| `Transposition.BufferEncr` | kernel/sys.c:465-494 | the buffer becomes its column-wise transposition, in place |
| `Transposition.BufferDecr` | kernel/sys.c:187-216 | the buffer becomes the inverse transposition, in place |
| `EncryptedFiles.HoleFreeBound` | kernel/sys.c:162-185 | the block loop of file_decr ends at a hole before the block number bmap panics on |
| `EncryptedFiles.CodeFile` | kernel/sys.c:441-463 | exactly the maximal hole-free block prefix of the file is transposed, block by block; nothing else changes |
| `EncryptedFiles.CodeBlock` | kernel/sys.c:176-181 | one block is transposed in its buffer and written back |
| `EncryptedFiles.DecodedIsPlain` | kernel/sys.c:162-185 | file_decr on a stored file exposes its plaintext |
| `EncryptedFiles.EncodedIsStored` | kernel/sys.c:441-463 | file_encr on plaintext establishes the stored form |
| `EncryptedFiles.RecodedIsSame` | fs/file_dev.c:83-119 | decrypt then encrypt leaves every block of every file as it was |
| `EncryptedFiles.ReadFile` | fs/file_dev.c:70-121 | a read of a marked file returns plaintext bytes and every file stays stored as it was; all contents are unchanged if and only if the file is number 133, count > 0, no key is set, the file is not marked, or decrypting changes nothing in it |
| `EncryptedFiles.WriteMarkedFile` | fs/file_dev.c:123-188 | the plaintext gets the completed bytes spliced in and the stored form is re-established, also across appended blocks and a filled first hole; other files do not change |
| `EncryptedFiles.Rewritten` | fs/file_dev.c:139-186 | decrypt, splice, encrypt is a splice of the plaintext under the stored form |
| `EncryptedFiles.EarlyReturnHarmless` | fs/file_dev.c:83-97 | a decryption that is not undone leaves contents as they were if and only if every block of the hole-free prefix is its own transposition |
| `EncryptedFiles.EarlyReturnChangesFile` | fs/file_dev.c:83-97 | a device in good order whose one file such a read changes, under the key "ba" |
| `EncryptedFiles.StoredKept` | fs/file_dev.c:70-121 | whatever keeps contents and zones keeps the stored form of every file |
| `EncryptedRuns.StoredFromTheStart` | kernel/sys.c:162-185 | every state of a device is the stored form of the plaintexts that decrypting the hole-free prefixes of its marked files gives |
| `EncryptedRuns.DoRead` | fs/file_dev.c:70-121 | a read on a device of stored files: the plaintext bytes asked for, refused if and only if it does not apply, every file stored as before |
| `EncryptedRuns.DoWrite` | fs/file_dev.c:123-188 | a write on such a device: exactly its bytes are spliced into one plaintext and every file is stored again |
| `EncryptedRuns.Run` | fs/file_dev.c:70-188 | over every history of reads and writes on marked and unmarked files, each read returns the last bytes written to the plaintext, and at the end every marked file is stored with exactly its hole-free prefix transposed |
| `BufferQueues.RemoveKeeps` | fs/buffer.c:71-87 | unlinking keeps the ring one cycle and every chain a doubly linked list of exactly the queued buffers hashing there, without the buffer removed |
| `BufferQueues.InsertKeeps` | fs/buffer.c:89-104 | linking puts the buffer last in the ring and first in its chain and keeps all of them well formed |
| `BufferQueues.RenameKeeps` | fs/buffer.c:190-193 | giving a new identity to a buffer off the queues changes no queue |
| `BufferIds.HashFnIsHash` | fs/buffer.c:68-69 | _hashfn, on 32-bit two's-complement numbers, always names one of the 307 chains |
| `BufferCaches.Unlink` | fs/buffer.c:74-86 | the pointer stores of remove_from_queues, in their order |
| `BufferCaches.Link` | fs/buffer.c:92-103 | the pointer stores of insert_into_queues, with the back link guarded |
| `BufferQueues.InitialLinked` | fs/buffer.c:225-254 | buffer_init builds one ring and empty chains |
| `BufferCaches.ReuseKeeps` | fs/buffer.c:167-193 | turning a clean, unused buffer over to a block nobody carries keeps the cache coherent |
| `BufferCaches.WriteOutKeeps` | fs/buffer.c:52-66 | writing a buffer out changes what is on disk and not what the cache means |
| `BufferCaches.BufferCache.FindBuffer` | fs/buffer.c:106-114 | the chain walk finds a buffer if and only if a scan of all queued buffers does |
| `BufferCaches.BufferCache.RemoveFromQueues` | fs/buffer.c:71-87 | the object's links satisfy the unlinking specification |
| `BufferCaches.BufferCache.InsertIntoQueues` | fs/buffer.c:89-104 | the object's links satisfy the linking specification |
| `BufferCaches.BufferCache.SyncDev` | fs/buffer.c:52-66 | every dirty buffer of the device is clean afterwards and the disk holds its data |
| `BufferCaches.BufferCache.FindUnused` | fs/buffer.c:151-159 | the first unused buffer in ring order from free_list, if there is one |
| `BufferCaches.BufferCache.GetBlk` | fs/buffer.c:144-194 | a buffer carrying the block, counted once more; dirty data of the one evicted is on disk first; none only when all are in use for other blocks; a block not cached takes the first unused buffer of the ring, which goes to its end, so the oldest is evicted first; if that was dirty its whole device is written out |
| `BufferCaches.BufferCache.BRead` | fs/buffer.c:210-223 | the buffer holds the last contents stored to the block |
| `BufferCaches.BufferCache.Modify` | fs/buffer.c:210-223 | a store into a held buffer is a store to its block |
| `BufferCaches.BufferCache.BRelse` | fs/buffer.c:196-204 | the use count goes down by one, and nothing else changes |
| `BufferCaches.BufferCache.Sync` | fs/buffer.c:37-50 | afterwards the disk itself is the abstract store |
| `BufferCaches.BufferCache.Run` | fs/buffer.c:144-223 | over every run of bread, store, brelse and sync by any holders of any number of buffers, each bread returns the last contents stored to its block and fails exactly when all buffers are in use for other blocks; a store reaches exactly the block its buffer is held for |
| `BufferProtocol.StepKeeps` | fs/buffer.c:123-204 | every atomic step between sleep points keeps: one queued carrier per block, counts equal users, locks held by transfers, only evicted buffers off the queues |
| `BufferProtocol.ExecKeeps` | fs/buffer.c:123-204 | the same over every interleaving of any number of tasks |
| `BufferRing.TakeKeepsRing` | fs/buffer.c:71-87 | taking a buffer leaves the ring one cycle of the queued buffers if and only if another buffer is queued |
| `BufferRing.AnotherQueued` | fs/buffer.c:144-194 | with fewer tasks than buffers, a task that takes a buffer finds another one queued |
| `BufferRing.ExecAll` | fs/buffer.c:71-204 | with fewer tasks than buffers, protocol invariant, one call per task and the linked ring hold over every interleaving |
| `BufferRing.Safety` | fs/buffer.c:71-204 | from buffer_init on, with fewer tasks than buffers, every interleaving has at most one hashed buffer per block, b_next_free one cycle of the queued buffers, every unused buffer on it, holders' buffers theirs |
| `BufferRingLoss.RingLost` | fs/buffer.c:71-104 | for any number of buffers from two on and at least as many tasks, a run on two devices, with switches only where the kernel sleeps, after which an unused buffer is not on the ring |
| `BufferRingLoss.RingWholeIff` | fs/buffer.c:71-104 | unused buffers are on the ring in every run if and only if there are fewer tasks than buffers |
| `BufferProtocol.HolderKeepsIdentity` | fs/buffer.c:116-142 | a buffer with a holder changes its block under no step of anybody |
| `BufferCoherence.StepCoherent` | fs/buffer.c:167-223 | a step that is neither of the two races keeps contents coherent |
| `BufferCoherence.ExecCoherent` | fs/buffer.c:167-223 | in every race-free interleaving a holder of an up-to-date buffer sees the last contents stored |
| `BufferCoherence.RaceIsStale` | fs/buffer.c:167-193 | when a block is looked up while its dirty buffer is off the queues and not yet written, the next read is stale if and only if the dirty contents differ from the disk |
| `BufferCoherence.HoldersSeeLast` | fs/buffer.c:144-223 | from buffer_init on, over every run without the two races, each holder of an up-to-date buffer sees the last contents stored, and what no dirty buffer carries is right on the disk |
| `BufferCoherence.StoreMeetsWrite` | kernel/hd.c:281-298 | a store into a buffer whose write is just ending is taken for written: the disk is right if and only if the store changed nothing |
| `BufferStale.StaleReadHappens` | fs/buffer.c:167-223 | a run of three buffers and two tasks, with switches only where the kernel sleeps, in which bread returns old contents |
| `WaitQueues.StepKeeps` | kernel/sched.c:114-157 | sleep_on, wake_up and resumption keep every sleeper reachable through saved links from exactly one place |
| `WaitQueues.ExecKeeps` | kernel/sched.c:114-157 | the same over every run |
| `WaitQueues.NoneLost` | kernel/sched.c:114-157 | in every reachable state each sleeper hangs from one queue head or one woken task still inside sleep_on |
| `WaitQueues.SleeperHasRoot` | kernel/sched.c:114-128 | the links from a sleeper upwards end at such a root |
| `WaitQueues.WakeMovesRoot` | kernel/sched.c:151-157 | wake_up turns the queue's chain, links unchanged, into one rooted at the woken task |
| `WaitQueues.WokenProgress` | kernel/sched.c:120-127 | each resume of the root brings a task of the chain one link closer; no other step moves it back |
| `WaitQueues.AwakeAfterLinks` | kernel/sched.c:114-157 | after one resume per link the task is runnable, whatever else happens in between |
| `WaitQueues.WakeReachesAll` | kernel/sched.c:151-157 | every task on the queue at wake_up is runnable after one resume per link |
| `Scheduler.ChooseIsLargest` | kernel/sched.c:92-97 | the scan picks a runnable task of largest counter, the highest slot among equals, and -1 exactly when none is runnable |
| `Scheduler.ScheduleKeepsBound` | kernel/sched.c:99-102 | recharging keeps every counter at most 2*priority-1 that was so before |
| `Scheduler.RechargeOnce` | kernel/sched.c:87-103 | after one recharge the largest runnable counter is not 0 |
| `Scheduler.Machine.Select` | kernel/sched.c:88-97 | the loop computes that choice |
| `Scheduler.Machine.Recharge` | kernel/sched.c:99-102 | every task but task 0, runnable or not, gets its priority plus half of what it had left, rounded down: 2*(new - priority) is the old counter or one less |
| `Scheduler.Machine.Schedule` | kernel/sched.c:87-104 | schedule's loop recharges at most once, exactly when all runnable counters were 0, and switches to the choice; a recharge gives every task but 0 its priority plus half of what it had left, and without one no counter changes |
| `Scheduler.Machine.DoTimer` | kernel/sched.c:159-169 | a tick counts the current task down and reschedules exactly when its time is used up in user mode |
| `Scheduler.Machine.SysNice` | kernel/sched.c:207-212 | the priority is lowered when it stays positive and kept otherwise |
| `Scheduler.BoundKept` | kernel/sched.c:87-104 | over any number of ticks counters stay at most 2*priority-1 while priorities do not change |
| `Scheduler.TickInEpoch` | kernel/sched.c:159-169 | a tick that leaves time to some runnable task recharges nothing and keeps ran + counter == priority |
| `Scheduler.LastTick` | kernel/sched.c:159-169 | the tick that uses up the last counter recharges, when every runnable task has run exactly its priority |
| `Scheduler.SleeperTick` | kernel/sched.c:99-102 | through one tick what a sleeping task lacks of 2*priority-1 halves, rounded down, when all are recharged, and stays otherwise |
| `Scheduler.SleeperRun` | kernel/sched.c:87-104 | over any run what a sleeping task lacks has been halved once per recharge |
| `Scheduler.SleeperFills` | kernel/sched.c:87-104 | a sleeping task's counter rises with every recharge until it is 2*priority-1, which it is if and only if 2^recharges is more than what it lacked |
| `Scheduler.ProportionalShare` | kernel/sched.c:87-104 | between consecutive recharges each runnable task runs exactly `priority` ticks, and the epoch lasts the sum of the priorities |
| `Consoles.RegionUpShows` | kernel/console.c:128-143 | the region copy shows as the plain row shift |
| `Consoles.MovedBackShows` | kernel/console.c:96-115 | the wrap-around copy to the start of video memory shows as the plain row shift |
| `Consoles.RowAppendedShows` | kernel/console.c:116-126 | moving the origin and blanking one row shows as the plain row shift |
| `Consoles.RegionDownShows` | kernel/console.c:146-163 | the downward copy shows as the mirrored row shift |
| `Consoles.Console.constructor` | kernel/console.c:581-585 | the boot position is accepted if and only if it is on the screen; otherwise `pos` stays unset |
| `Consoles.Console.PlaceCursor` | kernel/console.c:71-78 | pos == origin + y*columns + x for a position on the screen, otherwise nothing moves |
| `Consoles.Console.MoveOrigin` | kernel/console.c:92-127 | the two whole-screen forms drop row 0, shift up and blank row 24, keep scr_end == origin + one screen within video memory and store only in the new window |
| `Consoles.Console.ScrUp` | kernel/console.c:90-144 | all three forms mean: drop row top, shift up, blank row bottom-1, wherever the origin is |
| `Consoles.Console.ScrDown` | kernel/console.c:146-163 | drop row bottom-1, shift down, blank row top; stores only in the window |
| `Consoles.Console.Lf` | kernel/console.c:165-173 | line feed of the abstract terminal |
| `Consoles.Console.Ri` | kernel/console.c:175-183 | reverse line feed of the abstract terminal |
| `Consoles.Console.Del` | kernel/console.c:191-198 | the character before the cursor is blanked, inside the window |
| `Consoles.Console.Put` | kernel/console.c:430-432 | the one store into video memory: the cell lies in the window at `origin`, or in the one the screen is being moved back to, and the store is logged with `origin` as it is |
| `Consoles.Console.PutPrintable` | kernel/console.c:423-434 | prints at the cursor, wrapping first when the line is full; every store in its window |
| `Consoles.Console.PutTab` | kernel/console.c:448-458 | moves to the next multiple of 8, wrapping past column 80; every store in its window |
| `Consoles.Console.CsiJ` | kernel/console.c:200-228 | erases from the cursor, to the cursor, or all, inside the window |
| `Consoles.Console.CsiK` | kernel/console.c:230-260 | the same within the line, also with the cursor beyond its last column (in rows and columns: `TerminalCommands.ErasesInLine`) |
| `Consoles.Console.InsChar1` | kernel/console.c:299-311 | the rest of the row moves right, a blank enters |
| `Consoles.Console.DelChar1` | kernel/console.c:326-339 | the rest of the row moves left, a blank enters at its end |
| `Consoles.Console.InsLine1` | kernel/console.c:313-324 | rows from the cursor down move down; the scroll region is restored |
| `Consoles.Console.DelLine1` | kernel/console.c:341-352 | rows below the cursor move up, also when that moves the origin |
| `Consoles.Console.EditTimes` | kernel/console.c:354-392 | the repeat counts: 0 means 1, larger ones (compared unsigned) stop at the limit; every store in the window of its time, also when the origin moves in between |
| `Consoles.Console.CsiM` | kernel/console.c:262-274 | attributes applied parameter by parameter |
| `Consoles.Console.MoveCmd` | kernel/console.c:495-531 | the motion commands, computed modulo 2^32 and ignored off the screen (in rows and columns: `TerminalCommands`) |
| `Consoles.Console.RegionCmd` | kernel/console.c:553-561 | sets the scroll region only to 0 <= top < bottom <= lines |
| `Consoles.Console.OnByte` | kernel/console.c:420-569 | one byte moves the console as it moves the abstract terminal, keeps every position invariant, and stores only in the window at `origin` or, while that has run off video memory, in the one at its start |
| `Consoles.Console.ConWrite` | kernel/console.c:412-572 | for every byte stream the screen shows what the abstract terminal shows, every store falls in the window at `origin` or in the one the screen is being moved back to, and x <= columns, y < lines, top < bottom <= lines, npar < NPAR, pos and scr_end stay consistent |
| `TerminalLaws.UpByRows` | kernel/console.c:90-144 | scrolling up as an operation on rows |
| `TerminalLaws.DownIsMirroredUp` | kernel/console.c:146-163 | scrolling down is scrolling up seen upside down |
| `TerminalLaws.DownAfterUp` | kernel/console.c:146-163 | scrolling down after up loses only the dropped row |
| `TerminalLaws.ReadsDecimal` | kernel/console.c:488-490 | reading the decimal digits of n leaves n modulo 2^32 in the current parameter |
| `TerminalLaws.ControlSequence` | kernel/console.c:477-494 | ESC [ n1 ; ... ; nk c, for up to 16 numbers of which any may be empty, runs command c on exactly those parameters, the others 0; a 16th semicolon ends the sequence |
| `TerminalLaws.ClearKept` | kernel/console.c:477-494 | the parameters are clear whenever none is being read, over every byte stream: the laws below need no more than that no sequence is under way |
| `TerminalLaws.EscSevenSaves` | kernel/console.c:472-473 | ESC 7 saves the cursor if and only if it stands in column 55 or was saved there already |
| `TerminalLaws.EscEightRestores` | kernel/console.c:474-475 | ESC 8 restores it if and only if it stands in column 56 or is there already |
| `TerminalLaws.AnswersEscZ` | kernel/console.c:468-469 | the terminal answers exactly ESC Z, decided by the parser that the terminal queue is driven by |
| `TerminalLaws.RunShows` | kernel/console.c:422-459 | for every text without escapes the screen is the last 25 rows of an endless page on which nothing scrolls |
| `TerminalLaws.TextIsTyped` | kernel/console.c:423-434 | printable text appears on that page from the cursor on, in order, wrapped at the last column, with nothing before it changed |
| `TerminalCommands.ErasesInLine` | kernel/console.c:230-260 | ESC [ p K blanks exactly the columns from the cursor on (p absent or 0), before it (1), or all (2) of its row, and nothing else; any other p does nothing |
| `TerminalCommands.ErasesInDisplay` | kernel/console.c:200-228 | ESC [ p J blanks exactly the cells from the cursor on, before it, or all of the screen |
| `TerminalCommands.MovesByRows` | kernel/console.c:499-506 | ESC [ n A and B (or e) move n rows up and down, absent and 0 meaning 1; off the screen, or behind the last column, nothing moves; a distance near 2^32 goes the other way |
| `TerminalCommands.MovesByColumns` | kernel/console.c:507-514 | ESC [ n C (or a) and D move n columns right and left, or not at all when that is off the screen |
| `TerminalCommands.MovesToLineStart` | kernel/console.c:515-522 | ESC [ n E and F move to column 0, n rows down and up, or not at all |
| `TerminalCommands.MovesToColumn` | kernel/console.c:495-498 | ESC [ n G (or `) moves to column n counted from 1, or not at all |
| `TerminalCommands.MovesToRow` | kernel/console.c:523-526 | ESC [ n d moves to row n counted from 1, or not at all |
| `TerminalCommands.CursorPosition` | kernel/console.c:527-531 | ESC [ row ; column H (or f) moves there, absent and 0 meaning 1, or not at all when that is off the screen |
| `TerminalCommands.InsertsLines` | kernel/console.c:313-324 | ESC [ n L: row r at or below the cursor's shows what row r - n showed, and n rows are blank, for every n |
| `TerminalCommands.DeletesLines` | kernel/console.c:341-352 | ESC [ n M: row r from the cursor's on shows what row r + n showed, and the last n rows are blank |
| `TerminalCommands.InsertsChars` | kernel/console.c:299-311 | ESC [ n @: in the cursor's row n blanks come in at the cursor and the cells behind move right by n |
| `TerminalCommands.DeletesChars` | kernel/console.c:326-339 | ESC [ n P: in the cursor's row n cells go at the cursor, the cells behind move left by n, and blanks follow |
| `TerminalCommands.SelectsAttribute` | kernel/console.c:262-274 | ESC [ ... m: the last parameter selects attribute 7 (0, 27), 15 (1, 4) or 0x70 (7); any other leaves what the sequence without it selects |
| `TerminalCommands.SetsRegion` | kernel/console.c:553-561 | ESC [ top ; bottom r sets the scroll region if and only if top - 1 < bottom <= 25, absent and 0 meaning 1 and 25 |
| `TerminalCommands.SavesCursor` | kernel/console.c:562-564 | ESC [ s saves the cursor and does nothing else |
| `TerminalCommands.RestoresCursor` | kernel/console.c:565-567 | ESC [ u puts the cursor where it was saved |
| `TerminalCommands.OthersIgnored` | kernel/console.c:494-568 | any other final byte does nothing |
| `TerminalCommands.PrivateRuns` | kernel/console.c:477-482 | ESC [ ? ... runs the same command as ESC [ ... |
| `TerminalCommands.FeedsLine` | kernel/console.c:165-173 | line feed, 11, 12 and ESC D: one row down above the end of the region; from there on the cursor stays, the region's rows move up by one, the last is blank and the rows outside stay |
| `TerminalCommands.FeedsBack` | kernel/console.c:175-183 | ESC M: one row up below the top of the region; from there on the region's rows move down by one |
| `TerminalCommands.NextLine` | kernel/console.c:464-465 | ESC E: to the start of the next row if there is one, and never scrolls |
| `TerminalCommands.EscapesElse` | kernel/console.c:460-476 | any other byte after ESC saves the cursor in column 55, restores it in column 56, and does nothing elsewhere |
| `TerminalCommands.PrintsHere` | kernel/console.c:423-434 | a printable character sets exactly the cursor's cell and moves on; behind the last column it acts as after a line feed to column 0 |
| `TerminalCommands.TabStops` | kernel/console.c:448-458 | a tab goes to the next multiple of 8, or behind the last column to column 8 of the next line |
| `TerminalCommands.ErasesBack` | kernel/console.c:191-198 | the erase character blanks exactly the cell before the cursor and moves there |
| `TerminalCommands.OtherCodes` | kernel/console.c:439-447 | carriage return and backspace move the cursor in its row, and every other byte does nothing |
| `ExecArgs.FlatStore` | fs/exec.c:128-132 | a store at p/4096, p%4096 is a store at p of the flat argument memory |
| `ExecArgs.ArgPages.TakePages` | fs/exec.c:121-126 | takes exactly the missing pages, or fails when they are not to be had |
| `ExecArgs.ArgPages.CopyDown` | fs/exec.c:127-133 | the bytes of one string, across page boundaries, and no others |
| `ExecArgs.ArgPages.CopyString` | fs/exec.c:115-133 | the string and its NUL below p; fails exactly when a page is missing or p runs below 0 |
| `ExecArgs.ArgPages.CopyStrings` | fs/exec.c:106-136 | all strings one after the other, byte-exact, if and only if they fit and the pages they need are free; no page if and only if pages run out before a string fails to fit; p runs below 0 otherwise |
| `ExecArgs.ArgPages.FreeAll` | fs/exec.c:423-428 | every page taken is given back |
| `ExecArgs.ArgPages.CopyArgs` | fs/exec.c:419-428 | ready if and only if arguments and environment take less than 32 pages and those pages are free; a clean failure gives all pages back; p runs below 0, and the copy leaves the page array or panics at a page not taken, if and only if the environment runs out of pages and there is an argument, or the strings do not fit and pages last until that shows |
| `ExecStacks.UserMemory.PutLong` | fs/exec.c:72-82 | a 32-bit word, lowest byte first, and no other byte |
| `ExecStacks.UserMemory.Skip` | fs/exec.c:75-75 | stops just after the string's NUL |
| `ExecStacks.UserMemory.FillTable` | fs/exec.c:73-77 | one pointer per string and a null; nothing outside the table changes |
| `ExecStacks.UserMemory.CreateTables` | fs/exec.c:60-84 | argc, argument pointers, null, environment pointers, null; each pointer names a byte-exact copy of its string; sp is aligned |
| `ExecStacks.UserMemory.PlacePages` | fs/exec.c:154-159 | every argument page appears at its place below the top of user memory |
| `ExecStacks.BuildStack` | fs/exec.c:419-451 | the whole path from input strings to the new stack, with the exact condition under which it succeeds |
| `Rings.PutContents` | include/linux/fs.h:105-111 | a byte put into a ring that is not full is appended |
| `Rings.GetContents` | include/linux/tty.h:31-32 | a byte taken is the oldest one |
| `Rings.PushedRing` | include/linux/tty.h:33-34 | PUTCH on the array, full or not, is the unchecked put on contents and old cells |
| `Rings.PulledRing` | include/linux/tty.h:31-32 | GETCH on the array, empty or not, takes the oldest byte or the oldest old cell |
| `Rings.UnpushedRing` | include/linux/tty.h:25-28 | DEC and LAST take back the newest byte, and on an empty ring the newest old cell |
| `Rings.PutIntoFull` | include/linux/tty.h:33-34 | a byte put into a full ring makes it look empty |
| `Pipes.Pipe.Take` | fs/pipe.c:17-21 | delivers the oldest bytes, as many as asked for or held |
| `Pipes.Pipe.ReadPipe` | fs/pipe.c:7-24 | sleeps exactly when the pipe is empty and both ends are open, and otherwise takes exactly the oldest bytes, as many as asked for or held; end of file only when the writer has gone |
| `Pipes.Pipe.WritePipe` | fs/pipe.c:26-50 | accepts the data in order up to exactly the room there is; then sleeps, or fails when the reader has gone; a first call that finds the reader gone is broken and writes nothing, and any other is broken if and only if the reader has gone and not everything fits |
| `Pipes.Pipe.CloseEnd` | fs/inode.c:134-143 | closing an end leaves nobody asleep |
| `Pipes.Pipe.Step` | fs/pipe.c:7-50 | every event does exactly what the specification of its call says, and keeps first in, first out, and the queue discipline |
| `Pipes.Pipe.Run` | fs/pipe.c:7-50 | over every interleaving, every call doing exactly what it should, bytes delivered are a prefix of bytes written, at most 4095 are under way, and reader and writer are never both asleep; a sleeping reader has missed nothing |
| `Pipes.Pipe.AnyTasks` | fs/pipe.c:17-48 | the same order of bytes for any number of readers and writers in any interleaving |
| `Descriptors.Attached` | fs/fcntl.c:26-26 | setting a descriptor and raising f_count keeps every count equal to its descriptors |
| `Descriptors.Detached` | fs/open.c:184-188 | clearing a descriptor and lowering f_count does too, and the count was positive, so close cannot panic |
| `Descriptors.FreeIsUnreferenced` | fs/open.c:136-140 | f_count is 0 if and only if no descriptor of any task points at the slot |
| `Descriptors.RefsUpdate` | fs/open.c:164-165 | changing one file slot moves the inode counts by exactly what it refers to |
| `Descriptors.OutcomeKeepsMarks` | fs/fcntl.c:49-57 | no call leaves a closed descriptor marked close-on-exec, so that the descriptors of sys_pipe, which clears no mark, are unmarked too |
| `Descriptors.RunKeepsMarks` | fs/exec.c:432-435 | marks stay on open descriptors over every run |
| `Descriptors.NewSurvivesExec` | fs/exec.c:432-435 | a descriptor made by open, dup, dup2 or pipe survives an exec; an open one does so if and only if it is not marked, and exec leaves no mark |
| `Descriptors.FileTable.SysClose` | fs/open.c:175-191 | one descriptor goes; the inode is released if and only if it was the last one on the file slot |
| `Descriptors.FileTable.SysOpen` | fs/open.c:123-168 | the lowest free descriptor on the lowest free file slot; fails, with no descriptor changed, if and only if the file is not opened or one of the tables is full; the lowest free descriptor loses its close-on-exec mark and no other does |
| `Descriptors.FileTable.OpenAt` | fs/open.c:141-168 | the descriptor taken first is given back when the open fails |
| `Descriptors.FileTable.DupFd` | fs/fcntl.c:12-28 | the lowest free descriptor from arg on, unmarked, with each error exactly when it applies; all other marks are kept |
| `Descriptors.FileTable.SysDup` | fs/fcntl.c:36-39 | the lowest free descriptor becomes another one on the file; each error exactly when it applies |
| `Descriptors.FileTable.SysDup2` | fs/fcntl.c:30-34 | succeeds if and only if oldfd is open, newfd in range and the two differ; newfd is closed and unmarked in any case |
| `Descriptors.FileTable.SetFd` | fs/fcntl.c:45-57 | F_SETFD marks or unmarks exactly an open descriptor |
| `Descriptors.FileTable.TakeFiles` | fs/pipe.c:59-66 | the lowest two free file slots if and only if there are two, otherwise none taken |
| `Descriptors.FileTable.SysPipe` | fs/pipe.c:52-92 | the lowest two descriptors on the lowest two files, both of one inode of count 2, if and only if there are two file slots, two descriptors and an inode; otherwise everything as before |
| `Descriptors.FileTable.CopyFiles` | kernel/fork.c:115-117 | the child's descriptors and marks are the parent's, each file counted once more |
| `Descriptors.FileTable.CloseAll` | kernel/exit.c:73-75 | exit closes every descriptor, exec exactly the marked ones, and exec leaves no mark |
| `Descriptors.FileTable.ExitFiles` | kernel/exit.c:64-92 | the exiting task keeps no descriptor; other tasks keep theirs |
| `Descriptors.FileTable.Run` | fs/open.c:123-191 | over every run of open, dup, dup2, close, F_SETFD, pipe, fork, exec and exit, f_count is the number of descriptors, each inode is held once per file slot in use, and every call comes to exactly what it should in the state it met |
| `LineDiscipline.CookedKeeps` | kernel/tty_io.c:134-190 | every input byte keeps `data` equal to the number of newlines and EOF characters queued |
| `LineDiscipline.EraseUndoes` | kernel/tty_io.c:146-159 | an ordinary key and then erase leave queue and count as they were |
| `LineDiscipline.ErasesUndo` | kernel/tty_io.c:146-159 | n ordinary keys and n erases leave queue and count as they were |
| `LineDiscipline.ReturnKey` | kernel/tty_io.c:135-140 | carriage return joins the line as a newline and ends it under ICRNL, is dropped under IGNCR without it, and is a byte of the line otherwise; `Joined` says what is queued, counted and echoed |
| `LineDiscipline.NewlineKey` | kernel/tty_io.c:141-142 | newline ends the line, but under INLCR it joins it as a carriage return |
| `LineDiscipline.OtherKey` | kernel/tty_io.c:175-190 | every other byte joins the line as itself: printable bytes are echoed as they are, control bytes as ^X under ECHOCTL and not at all without it |
| `LineDiscipline.EraseKey` | kernel/tty_io.c:146-159 | erase takes back the last byte of an unfinished line and nothing at its start or after a line end; two rub-outs for a control byte, one for any other |
| `LineDiscipline.SignalKeys` | kernel/tty_io.c:160-174 | stop, start and interrupt characters change the stop flag or send the signal; nothing is queued or echoed |
| `LineDiscipline.ReadableIsLongest` | kernel/tty_io.c:226-237 | a read delivers the longest prefix without EOF within its count, across ends of lines |
| `LineDiscipline.OneLineIff` | kernel/tty_io.c:226-237 | a canonical read delivers at most one line if and only if it asks for nothing beyond the first newline, nothing follows it, or an EOF comes no later than just after it |
| `LineDiscipline.ReadsTwoLines` | kernel/tty_io.c:226-237 | an input of which one read delivers two lines |
| `LineDiscipline.ToLower` | include/ctype.h:31-31 | tolower turns each upper-case letter into a byte below zero, never into its lower-case letter, and keeps every other byte |
| `Ttys.Tty.ConWrite` | kernel/console.c:412-420 | takes as many bytes from write_q as it held at the beginning, whatever answers and echoes come in between |
| `Ttys.Tty.TakeTurn` | kernel/tty_io.c:134-190 | one turn of the loop: mapping, editing, flow control, interrupt, count and echo of one byte, with everything the echo sets off before the byte is queued |
| `Ttys.Tty.PutResponse` | kernel/console.c:286-296 | respond puts seven bytes into the raw queue, without regard to its room |
| `Ttys.Tty.CopyToCooked` | kernel/tty_io.c:129-193 | the three in-place rings do what the specification of copy_to_cooked does, re-entry through echo and answer included, and it ends |
| `Ttys.Tty.TakeCooked` | kernel/tty_io.c:226-237 | delivers the prefix a read may have, swallows an EOF that stopped it, keeps the count right |
| `Ttys.Tty.Write` | kernel/tty_io.c:256-290 | one round of tty_write: as much as goes into write_q is put there and shown, keys coming in between |
| `Ttys.Tty.Run` | kernel/tty_io.c:129-290 | over every run of keys, cooking, reads and output with keys in between: write_q is read past its head if and only if some output clashes; until then `data` is the number of delimiters queued unless a byte was put into the full queue, and none is when every cooking had the room it demands |
| `Overruns.EchoShortens` | kernel/tty_io.c:176-188 | every echo comes closer to the end of what can still be answered, so copy_to_cooked and con_write end, also when old bytes are shown again |
| `InSteps.CookInStep` | kernel/tty_io.c:129-193 | with write_q empty copy_to_cooked is that of module Echoes and leaves write_q empty |
| `InSteps.CookLoud` | kernel/console.c:418-420 | copy_to_cooked that echoes while bytes are being shown shows all of write_q |
| `ConsoleRuns.OverrunIff` | kernel/console.c:418-420 | con_write of a program's output goes past the head of write_q if and only if, before its last byte has been taken, copy_to_cooked echoes, for an answer or for a key; and otherwise the queues are those of module Echoes |
| `ConsoleRuns.WriteClashes` | kernel/console.c:418-420 | with echo on, room and no key in between: if and only if a byte other than the last is answered |
| `ConsoleRuns.MuteNeverClashes` | kernel/console.c:418-420 | with echo off never |
| `ConsoleRuns.KeyGoesPast` | kernel/console.c:418-420 | an ordinary key between two bytes of output is enough |
| `ConsoleRuns.RunIff` | kernel/tty_io.c:129-290 | over every run the tail of write_q has passed its head if and only if some output took it there, and until then the run is one of module Echoes |
| `ConsoleRuns.RunKept` | kernel/tty_io.c:129-290 | until then the count of delimiters is right unless a byte went into the full queue, and none does when every cooking had room for all that could come |
| `Replays.OverrunLoses` | kernel/console.c:418-420 | a run in which the program's output is ESC Z x y: one plain key later, with room for it in the cooked queue, the queue is lost |
| `Replays.LosesInStep` | kernel/console.c:286-297 | a run that stays in step and loses the queue to an answer, with `data` counting a line that is gone |
| `Echoes.CalmIsCooked` | kernel/tty_io.c:129-193 | without an answer copy_to_cooked is the line discipline on a prefix of the raw bytes: all of them unless the cooked queue is full |
| `Echoes.RunRight` | kernel/tty_io.c:129-254 | over every run in step, as long as nothing was put into the full queue, `data` is the number of delimiters queued |
| `Echoes.RunFits` | kernel/tty_io.c:129-254 | over every run in step in which each cooking finds room for the raw bytes and for a response to each `Z` among them, nothing is put into the full queue |
| `Echoes.AnswerLoses` | kernel/console.c:286-297 | an answer during the echo of `Z` loses the queue if and only if the response and the raw bytes waiting take all the room that was left |
| `Echoes.OneKeyLoses` | kernel/console.c:286-297 | for a single `Z` after ESC: the queue is lost if and only if LEFT(secondary) is at most 7 |
| `Echoes.LosesQueue` | kernel/console.c:286-297 | a run from the start that loses the queue and leaves `data` counting a line that is gone |

## Left out

- Hardware: disk controller, interrupts, ports, keyboard, serial lines. ll_rw_block is an atomic block transfer on an
  error-free disk; set_origin and set_cursor only program the display and have no state here.
- Segments, task-state segments, traps, FPU state and system-call entry.
- The list of encrypted files (mark, unmark, check_for_encr): whether a file is encrypted is a parameter.
- sys_generate_key_, sys_set_key and the 100-byte limit of global_key: the key is a sequence of any length from 1 up.
- The ELF loader and raw block devices.
- interruptible_sleep_on, signals and alarms; the waits of tty_read around its reading loop.
- The console's file browser and clipboard, path walking and permissions.
- The inode bitmap, iput's write-back and the inode cache; inode counts appear only as far as file slots hold them.
- Task 0's own stores to its low pages, which the kernel shares with every task on purpose.
- PageManagers.PageManager.PutPage: the slot is empty before the call, as at every call in the source; put_page itself would overwrite an entry and keep its frame counted.
- TaskMemory.Kernel.DoExec: the pages that change_ldt places are represented by later kernel stores, and put_page's result is ignored as in the source.
- FileSystems.FileSystem.FreeBlock: does not model the invalidation of a cached buffer of the freed zone, because the disk is modelled below the cache.
- EncryptedFiles.WriteMarkedFile: a write that would run past the largest file is a precondition, because _bmap panics there and the run ends; `FileSystems.FileSystem.FileWrite` has that outcome. The histories of `FileRuns` and `EncryptedRuns` likewise end before a panic.
- BufferCaches.BufferCache.GetBlk: the sequential cache reports "all buffers in use" where the source sleeps; sleeping is in `BufferProtocol`. The 8-bit wrap of b_count is not modelled.
- BufferCaches.BufferCache.BRead: the same; a transfer is one step in the sequential cache.
- BufferCaches.BufferCache.Sync: does not model sync_inodes, which the inode cache would be needed for.
- BufferProtocol.StepKeeps: which of several woken tasks runs first is left open, as are the queue of disk requests and its order; a transfer is the step that moves the data and the step that ends it. (In the runs of `BufferRingLoss` and `BufferStale` the disk ends its transfers in the order in which they began.)
- BufferCaches.Link: the store through an empty chain's null pointer (fs/buffer.c:103) is modelled guarded.
- Scheduler.Machine.DoTimer: does not model the accounting of user and system time.
- Consoles.Console.ConWrite: takes the bytes as a sequence; the answer to ESC Z is counted here, and what it does to the terminal's queues is in `Echoes`, `Overruns` and `Ttys`.
- Ttys.Tty.ConWrite: after write_q has been read past its head, and with ECHOCTL off, the console is taken to answer no more; otherwise the rings are followed to any depth, which the kernel's stack would not allow.
- Ttys.Tty.Write: keys come between the bytes that con_write takes for a program, not inside copy_to_cooked or while write_q is being filled. The mapping of output (OPOST) comes before it. A full write_q puts the writer to sleep for good, since nothing wakes it.
- LineDiscipline.ToLower: bytes of 128 and more index the ctype table before its start; they are taken to be no letters.
- Pipes.Pipe.AnyTasks: with several readers or writers only the bytes are modelled, not who sleeps on the pipe's queue.
- sys_fcntl apart from F_DUPFD and F_SETFD, which have their own operations.
- Descriptors.FileTable.SysOpen: the result of open_namei, including the checks on terminals, is a parameter.
- ExecStacks.UserMemory.PlacePages: placing a page copies its bytes to its address instead of entering it in a page table.
- ExecStacks.BuildStack: its condition counts the argument pages, not the page tables put_page takes nor the pages that the pointer tables fault in; both belong to `PageManagers`.
