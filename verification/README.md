# xv6: a verified model

A Dafny model of the parts of this xv6 (x86, with a round-robin scheduler, tick statistics and semaphores) whose
correctness is not visible in any one function: the redo log over the buffer cache, sleep and wakeup, the process
table, the block maps and directories of the file system, physical pages and page tables, the user allocator,
pipes, the shell's parser and grep's matcher. `dafny verify dfyconfig.toml` checks all of it.

How things are modelled:

- Code that updates state in place is a class whose methods change its fields and are proved against functions of
  the old state. The properties are then proved about those functions.
- Code that several processes run at once is a step machine: one step per critical section, any number of
  processes, any order. `Run` or `Trace` describes a run, and the main lemmas speak of every state of every run.
- `panic` is an unreachable state where a property says so, and otherwise halts: the step or method has no result
  to speak of (`None`, `Halted`, `Panicked`, `Full`).

| file | what it models |
|---|---|
| Blocks, Bio | disk blocks and their words; the buffer cache over the in-memory disk |
| Journal, Log | disk images and recovery; commit, installation and recovery on the cache |
| Reservation | begin_op, end_op and log_write as interleaved steps |
| Semaphores | sleep, wakeup, semaphores and sleep locks as interleaved steps |
| Procs, ProcRuns, Lifecycles | the process table; its runs on any number of CPUs; what each step of a process's life means |
| Ticks | timer ticks and statistics on one CPU |
| FsSpec, FileSys | who owns which block and what a file contains; bmap, readi, writei, itrunc, filewrite |
| Durable | the on-disk form of inodes and bitmap; what a crash during filewrite leaves of the files |
| Links, LinkRuns, Naming | link counts and directory entries; sys_link, sys_unlink, create; what names mean after them |
| Frames, Spaces, Sizes | frames, page tables and who owns them; building address spaces; growing, shrinking and copying them |
| Needs | how many free frames each of those takes, exactly |
| Vm, VmRuns, Junk | the procedures of vm.c and kalloc.c; their runs; what free pages hold |
| Sbrk, Heap | sbrk as the allocator sees it; the allocator of umalloc.c |
| Pipes, PipeRuns | the ring buffer with wrapping counters; readers and writers in any order |
| Regex | grep's matcher against the meaning of patterns |
| Shell, Parser, Words, Appending | tokens, grammar and round trip; the parser's loops and in-place termination; no word is lost; what `>>` means |

## What turned out not to hold

Each of these is proved together with the exact condition under which the code does what it should.

- The log reserves ten blocks per operation (`MAXOPBLOCKS`), but three operations that log ten blocks each reach
  the panic in log_write: mkfs makes the log 30 blocks long with its header included, and the size check runs
  before absorption. No run panics if and only if operations log at most nine (`Reservation.NoPanicIff`).
- A writer that finds the pipe full and has been killed returns without waking readers, so a reader can stay
  asleep although the pipe has bytes for it. A step does this to a reader exactly when a killed writer fills the pipe
  (`PipeRuns.StrandedIff`). A step leaves a reader so with no write under way exactly when the last writer under way is
  killed with more left than there is room for, be it one byte on a pipe that an earlier killed writer has filled
  (`PipeRuns.StuckIff`, `PipeRuns.TwoWritersRun`).
- morecore's byte count is an unsigned 32-bit product that sbrk takes for a signed number. malloc works as it should
  exactly outside of requests above 0x7ffffff0 and up to 0xfffffff8 bytes; beyond those the rounding overflows and the
  block has no room (`Heap.RoomIff`). Within that range sbrk never gives the memory (`Heap.SbrkGives`), and there are
  three outcomes (`Heap.Allocator.Malloc`). If the product and the process size make up 2^32, sbrk fails, malloc returns
  null, and all pages of the process are gone (`Heap.GoneRequest`). Otherwise sbrk succeeds, and morecore writes a header
  at the old end of the process: if no page is there, always so for a size in whole pages, the process is killed
  (`Sbrk.EndCovered`), and else malloc goes on with a block that the process does not have.
- growproc takes deallocuvm's result 0 for a failure, so a process that gives up all its memory keeps its old size
  with no pages behind it (`Sizes.GrowprocSizedIff`), and copyuvm panics for its page directory. In every reachable
  state the pages of a process match its size if and only if it has never done that, and copyuvm panics for it if and
  only if it has and there are frames enough to get as far (`VmRuns.PagesMatchIff`, `VmRuns.GaveUpRun`).
- The three tick statistics of a process do not always add up to the ticks handled: a timer interrupt that finds the
  running process killed calls exit before its accounting, so this tick is charged to nobody. The sum is exact if and
  only if no tick has sent the process into exit (`Ticks.TicksAreConserved`, `Ticks.TickGoesMissing`).
- A process can be marked killed at birth. kill(0) matches unused slots, whose pid is 0, and marks the first; a process
  killed while fork is making it leaves its mark when fork gives up; and no new process clears the mark. These are the
  only two ways (`Lifecycles.UnusedMarkedIff`, `Lifecycles.BornAsMarked`, `Lifecycles.BornMarkedRun`).
- The shell accepts `>>` but does not append: putting `>` and a blank for it never changes what a line is parsed to
  (`Appending.AppendIsOutput`).

## Model

| member | source | states |
|---|---|---|
| Bio.Cache.constructor | bio.c:38-56 | the boot-time ring holds every buffer once and nothing is cached, so a reader sees the disk |
| Bio.LinkedUnlink | bio.c:132-133 | taking a buffer out of the prev/next ring leaves the ring of the remaining ones, in the same order |
| Bio.LinkedPushFront | bio.c:134-137 | putting it at the head gives the ring with that buffer first |
| Bio.FrontByRelease | bio.c:129-138 | moving a finally released buffer to the front keeps the list sorted by time of last final release |
| Bio.Cache.Lookup | bio.c:69-76 | finds the buffer of a block if and only if one holds it |
| Bio.Cache.Victim | bio.c:81-91 | picks, among unreferenced buffers that the log has not pinned, the one released longest ago; none exactly when there is none |
| Bio.Cache.Ref | bio.c:61-93 | at most one buffer per block; recycling never takes a referenced or pinned buffer and changes no block's contents as readers see them |
| Bio.Cache.Acquire | sleeplock.c:22-32 | the step at which acquiresleep finds the lock free: the locked set gains exactly this block and contents are unchanged |
| Bio.Cache.AcquireSleep | sleeplock.c:22-32 | waits, others running, until the lock is free: the buffer still holds the block it was referred to for, and if clean equals the disk; gives up only if the others never free it |
| Bio.Cache.Bget | bio.c:61-93 | with other processes running between its critical sections, the locked buffer holds the block asked for: the reference keeps it from being recycled before the lock is taken |
| Bio.Cache.Iderw | memide.c:38-60 | a dirty buffer's bytes reach the disk, an invalid buffer gets the disk's; what readers see is unchanged |
| Bio.Cache.Bread | bio.c:96-106 | with other processes running between all steps, the block's current contents: the last logged value if it is pinned, otherwise the disk's; what any reader sees is unchanged |
| Bio.Cache.Bwrite | bio.c:109-116 | one disk write of exactly this block, others running before it; the buffer becomes clean and readers see the same |
| Bio.Cache.Pin | log.c:231-231 | the buffer becomes dirty, hence not recyclable, and readers see the same |
| Bio.Cache.Brelse | bio.c:120-141 | with others running between unlocking and dropping the reference, coherence and contents are kept, exactly one own reference goes, and a last one moves the buffer to the front |
| Bio.Cache.Unlock | sleeplock.c:34-42 | unlocking a buffer whose bytes are on disk or logged changes nothing a reader sees |
| Bio.Cache.Deref | bio.c:127-140 | the critical section of brelse: one own reference less, and only the last moves the buffer to the front |
| Bio.Cache.Others | bio.c:61-141 | any number of steps of other readers, each one critical section, change neither the disk, nor what is pinned, nor what readers see, nor the caller's references, the block of a buffer it refers to, or a buffer it has locked |
| Bio.Cache.MoveToFront | bio.c:129-138 | the relinking keeps the ring a permutation of all buffers in order of last final release |
| Bio.CleanView | bio.c:96-106 | a block that is neither pinned nor locked reads as what is on disk |
| Bio.RefViews | bio.c:61-93 | neither a hit nor recycling a clean unreferenced buffer changes what any reader sees |
| Journal.InstallAgrees | log.c:69-82 | installation depends only on the log blocks and on home blocks it does not overwrite, so repeating it is harmless |
| Journal.RecoveryStateRecovers | log.c:115-122 | a crash after any write of a recovery leaves an image that recovers to the same home blocks |
| Journal.RecoveryChainRecovers | log.c:115-122 | so do any number of crashes of successive recoveries |
| Journal.EmptyHeaderRecovers | log.c:85-96 | with an empty on-disk header recovery changes no home block |
| Journal.FullHeaderRecovers | log.c:115-122 | with the header written over complete log blocks recovery gives all the new home blocks |
| Logging.ToLog | log.c:182-188 | with others running between all steps, inside bread, bwrite and brelse too, copies the cached home block to its log block in one disk write, keeping no lock or reference, or is blocked having written nothing |
| Logging.FromLog | log.c:74-80 | the same from a log block to its home block |
| Logging.CopyHeld | log.c:76-80 | copying between two locked buffers, writing and releasing: one disk write, readers see exactly the written block change, and no lock or reference is left |
| Logging.Log.LogWrite | log.c:213-233 | a block joins the header once (absorption), is pinned with the caller's bytes, and pinned blocks stay exactly the logged ones |
| Logging.Log.WriteLog | log.c:177-190 | every image it leaves has the old home blocks and the old header; at the end each log block holds its home block's cached contents |
| Logging.Log.WriteHead | log.c:101-113 | one write, after which the on-disk header lists exactly the logged blocks |
| Logging.Log.ReadHead | log.c:85-96 | the in-memory header becomes the on-disk one |
| Logging.Log.InstallTrans | log.c:69-82 | its t-th write leaves exactly the image with the first t log blocks installed |
| Logging.Log.InstallAndClear | log.c:198-200 | a crash at any point of it is a crash of a recovery from the image it started from |
| Logging.Log.RecoverFromLog | log.c:115-122 | every image it leaves can be recovered again, and on completion the disk is the recovered image |
| Logging.Log.Commit | log.c:192-202 | with other readers running at every point, the image after each of its writes recovers to all old home blocks before the header write and to all new ones from it on, however far it gets; when it ends nothing is pinned and contents are unchanged |
| Logging.CrashAtomic | log.c:177-202 | crash before, between or after the writes of commit, then any number of crashes while recovering: a completed recovery gives all old or all new home blocks, new exactly when the header write reached the disk |
| Reservation.StepInv | log.c:125-174 | every interleaved step of begin_op, log_write, end_op and commit keeps: committing implies nothing outstanding, and header count plus unused reservations within the log |
| Reservation.RunInv | log.c:125-174 | hence every reachable state of every run of any number of processes |
| Reservation.CommitAlone | log.c:145-174 | while a process commits, the flag is set and no operation is outstanding |
| Reservation.NoPanicIff | log.c:213-233 | no run reaches either panic of log_write if and only if operations log fewer than MAXOPBLOCKS distinct blocks |
| Reservation.PanicRun | log.c:213-233 | a run of three operations of ten blocks each, the documented allowance, that panics |
| Reservation.WaitersWillBeWoken | log.c:125-143 | anyone asleep in begin_op really has to wait, and some process has an operation outstanding or is committing |
| Reservation.LastOpCommits | log.c:145-174 | the step that ends the last operation sets the flag and starts a commit with the whole header |
| Reservation.HeaderGrows | log.c:213-233 | the header only grows, except where a commit clears it |
| Reservation.HeaderStays | log.c:192-202 | while a commit runs nothing joins the header, so it clears what it began with |
| Reservation.LoggedUntilCommitted | log.c:145-233 | in every run, whatever the limit, a block that an operation has logged is in the header until a commit that has it in the header clears it |
| Reservation.NothingDropped | log.c:145-174 | while the header lists a block, an operation or a commit is under way |
| Semaphores.StepInv | proc.c:833-930 | every step at lock granularity of sleep, wakeup, sem_wait, sem_signal, acquiresleep and releasesleep keeps the invariant, for any number of processes |
| Semaphores.TraceInv | proc.c:833-930 | hence every reachable state of every interleaving |
| Semaphores.NoWakeupIsLost | proc.c:1327-1384 | if a value is positive while a process sleeps on it or is committed to sleeping, some signaller holds the lock with its wakeup still to come |
| Semaphores.ValuesAreConserved | proc.c:1327-1384 | a value is always initial + signals - completed waits, and never below min(initial, 0) |
| Semaphores.TraceActs | proc.c:833-930 | every interleaving is one of calls, their steps, dispatches and kills in some order, which can then be counted |
| Semaphores.CallsAreCounted | proc.c:1327-1384 | in every interleaving the sem_wait calls on a value are the values taken plus the processes still waiting, so a call that has returned has taken exactly one; likewise for sem_signal |
| Semaphores.SleepLockExcludes | sleeplock.c:22-42 | at most one process has a sleep lock, whatever other sleep locks it has, and a lock that is held is marked locked |
| Semaphores.AcquiredMeansHeld | sleeplock.c:22-42 | a process not inside acquiresleep has the lock if and only if its last call for it was acquiresleep or a releasesleep that has not given it back |
| Semaphores.QuiescentMeansWaiting | sleeplock.c:22-42 | when nothing can run, every process is between calls or sleeps on a value that is not positive, and a sleep lock slept on is held by some process |
| Procs.ProcTable.constructor | proc.c:63-77 | an empty table of NPROC slots |
| Procs.ProcTable.Schedule | proc.c:645-693 | dispatches the first runnable slot from rr_next round the circle, moves rr_next just past it; nothing exactly when no slot is runnable |
| Procs.ProcTable.Wakeup1 | proc.c:893-915 | exactly the sleepers on the channel become runnable with a fresh quantum |
| Procs.ProcTable.UpdateSleepStats | proc.c:1202-1217 | each sleeping or runnable process is charged one tick of its kind |
| Procs.ProcTable.Tick | trap.c:219-246 | charges the running process and says whether its quantum expired |
| Procs.ProcTable.Exit | proc.c:466-490 | parent woken, children passed to init (woken if one is a zombie), then zombie |
| Procs.ProcTable.PassChildren | proc.c:474-486 | the loop over the table does this to every child and to nobody else |
| Procs.ProcTable.Wait | proc.c:518-587 | reaps the first zombie child; fails exactly without children or when killed; otherwise sleeps |
| Procs.ProcTable.Kill | proc.c:937-976 | marks the first process with the pid and makes it runnable if it slept |
| Procs.ProcTable.SetQuantum | proc.c:1070-1112 | accepts 1..100 for an existing process and restarts its quantum |
| Procs.ProcTable.AllocProc | proc.c:146-179 | the first unused slot becomes an embryo with the next pid |
| ProcRuns.ExitedAt | proc.c:466-490 | what exit does to each slot, and that whoever still sleeps was not owed a wakeup |
| ProcRuns.StepTree | proc.c:339-587 | every critical section of ptable.lock, on any number of CPUs, keeps the process tree in order |
| ProcRuns.RunTree | proc.c:339-587 | hence every reachable state |
| ProcRuns.ProcessTree | proc.c:339-587 | pids in use are distinct; every non-init process that is live or a zombie has a live parent; a process asleep in wait has a child and no zombie child |
| ProcRuns.ReapedOnce | proc.c:515-587 | no exited process is reaped twice |
| ProcRuns.TowardsSlot | proc.c:645-674 | while a slot stays runnable, rr_next only moves towards it and each dispatch is of a slot passed on the way |
| ProcRuns.BoundedWaiting | proc.c:645-674 | so fewer than NPROC dispatches happen before it, on all CPUs together, and no slot is dispatched twice |
| ProcRuns.RunQuantum | trap.c:219-246 | in every reachable state the quantum counters are consistent |
| ProcRuns.QuantumAccounting | trap.c:219-246 | since its quantum q was set: 0 <= ticks_used < q, preemptions*q + ticks_used <= cpu ticks <= q*dispatches (less q - ticks_used while running), so preemptions <= dispatches |
| Lifecycles.ForkMeans | proc.c:339-420 | a completed child is runnable, has the forking process as parent, empty statistics, the default quantum, and a pid that nobody has and nobody reaped had |
| Lifecycles.EmbryoWaits | proc.c:339-420 | until fork is done with it an embryo keeps its maker, pid and state |
| Lifecycles.ExitMeans | proc.c:466-490 | a zombie is left, exactly its children are passed to init, and neither the parent nor an init that got a zombie is left asleep in wait; nobody else is woken |
| Lifecycles.ZombieWaits | proc.c:518-587 | a zombie stays one until a wait by its parent returns its pid |
| Lifecycles.SleepMeans | proc.c:833-888 | who sleeps, or waits for a child, is asleep on the channel that will wake it; nobody else notices |
| Lifecycles.WakeupMeans | proc.c:893-930 | nobody is left asleep on the channel and nobody else is touched |
| Lifecycles.SleepsUntilWoken | proc.c:833-976 | a sleeper is woken only by a wakeup of its channel, by a kill, or in wait by an exit |
| Lifecycles.KillMeans | proc.c:937-976 | the process with the pid is marked and awake, nobody else is touched |
| Lifecycles.KilledStays | proc.c:518-587 | the mark stays until the process has been reaped |
| Lifecycles.QuantumIsSet | proc.c:1070-1112 | a live process has the quantum last set for it, or the default |
| Lifecycles.BornAsMarked | proc.c:146-179 | fork never clears the mark of a slot |
| Lifecycles.UnusedMarkedIff | proc.c:937-976 | an unused slot is marked if and only if kill was called for pid 0 while it was the first unused one, or a process killed while fork was making it was given up |
| Lifecycles.BornMarkedRun | proc.c:946-952 | a run in which a process is born marked although nobody called kill for its pid |
| Ticks.BetweenConserves | proc.c:409-416 | between timer interrupts no step changes what a process has been charged |
| Ticks.TickConserves | trap.c:77-92 | one timer interrupt, with the wakeups and the preemption inside it, charges each live process exactly one tick, except a killed process that it sends into exit, which it does not charge |
| Ticks.RunConserves | trap.c:185-246 | hence in every run on one CPU: charges plus the ticks missed equal the ticks handled |
| Ticks.TicksAreConserved | proc.c:1202-1217 | cpu + sleep + runnable ticks equal the timer ticks handled since the process became runnable if and only if no tick has sent it into exit; otherwise exactly that one tick is missing |
| Ticks.StatisticsAreTrue | trap.c:77-92 | in every run on one CPU sleep, runnable and cpu ticks are the numbers of ticks that found the process asleep, runnable and running (those that sent it into exit aside), switches the times it was put on the CPU and preemptions the times a tick took it off |
| Ticks.TickGoesMissing | trap.c:185-189 | such a run exists: a killed process sleeps in exit, live and one tick short |
| FsSpec.RefsDistinct | fs.c:372-400 | all direct, indirect and indirect-listed block references of all inodes are pairwise distinct and marked in use |
| FsSpec.AllocAddrOwned | fs.c:378-388 | giving a free block to a direct address or as indirect block keeps ownership exact |
| FsSpec.AllocEntryOwned | fs.c:389-396 | so does listing one in the indirect block |
| FsSpec.ExtendsContent | fs.c:372-400 | mapping new blocks changes no file's contents and opens no holes |
| FsSpec.WriteBlockBytes | fs.c:498-504 | writing one file block changes exactly that block's bytes of that file, of no other |
| FsSpec.FreeSlot | fs.c:81-95 | at every block itrunc frees the bit is still set: "freeing free block" is unreachable |
| FsSpec.TruncatedOk | fs.c:407-435 | after truncation the file is empty, ownership is exact and other files are unchanged |
| FsSpec.WritingEnd | fs.c:481-511 | when the write loop is done the file is the old one with the bytes replaced or appended; others are unchanged |
| FileSys.FileSystem.Balloc | fs.c:56-78 | the lowest free block, marked and zeroed; none exactly when all are used |
| FileSys.FileSystem.Bfree | fs.c:81-95 | clears exactly that bit |
| FileSys.FileSystem.Iupdate | fs.c:220-236 | the inode on disk follows the one in memory |
| FileSys.FileSystem.BmapAddr | fs.c:378-388 | a direct or indirect address is kept if there, otherwise a fresh block extends the file system without touching anything owned |
| FileSys.FileSystem.BmapEntry | fs.c:389-396 | the same for a word of the indirect block |
| FileSys.FileSystem.Bmap | fs.c:372-400 | the block of a file block; mapping is idempotent and only ever extends |
| FileSys.FileSystem.Readi | fs.c:452-476 | returns exactly content[off..min(off+n, size)]; fails exactly past the end or on 32-bit overflow |
| FileSys.FileSystem.WriteChunk | fs.c:498-504 | one pass of the loop maps one block and patches its bytes |
| FileSys.FileSystem.Writei | fs.c:481-511 | content becomes the old one with [off, off+n) replaced or appended; rejects exactly past the end, on overflow or beyond the largest file; other files unchanged; every block, bitmap bit and inode it changes is on a block handed to log_write |
| FileSys.FileSystem.FileWrite | file.c:117-156 | after t transactions exactly the first t chunks are in the file and other files are unchanged, each transaction hands every block it changed to log_write, and none logs more blocks than the log can take; all data on success |
| FileSys.FileSystem.Itrunc | fs.c:407-435 | frees exactly the blocks of its own inode and empties it |
| FileSys.FileSystem.FreeDirect | fs.c:414-419 | the direct addresses' blocks are freed, no others |
| FileSys.FileSystem.FreeIndirect | fs.c:421-431 | then the indirect block and everything it lists |
| FileSys.ChunkFits | file.c:126-141 | a chunk logs at most seven blocks when one bitmap block covers the disk |
| Durable.CrashedWrite | file.c:117-156 | a crash at any point of the commit after t committed chunks, then any number of crashes while recovering: the files read off the recovered disk are the old ones with exactly t chunks written, or t + 1 if the header write had reached the disk |
| Durable.StoredShows | fs.c:220-236 | storing just the blocks handed to log_write gives an image of the new file system, inodes and bitmap in their on-disk form |
| Durable.FilesSame | fs.h:28-48 | the files read off an image are those of the file system it represents |
| Durable.HomeRepresents | fs.h:8-22 | what an image represents does not depend on the log |
| Durable.PutInodeOk | fs.c:220-236 | iupdate's stores change that inode's on-disk form and no other in the block |
| Durable.StoredBit | fs.c:62-67 | a bitmap block stored from the bits reads back as those bits |
| Links.LinkStartInv | sysfile.c:140-142 | raising the count ahead of the entry keeps count = references + links in progress |
| Links.LinkFinishInv | sysfile.c:144-152 | writing the entry, or undoing the count when the name exists, keeps it |
| Links.LinkAbortInv | sysfile.c:158-164 | so does the failure path |
| Links.CreateFileInv | sysfile.c:241-283 | creating a file keeps the counts, unique names and the tree |
| Links.CreateDirectoryInv | sysfile.c:241-283 | a new directory has one link, its parent one more for its "..", and the tree stays a tree |
| Links.LastLink | sysfile.c:207-216 | a directory that sys_unlink removes has exactly one link left |
| Links.ParentLinks | sysfile.c:221-224 | its parent keeps at least one link of its own |
| Links.UnlinkInv | sysfile.c:184-238 | removing an entry, with the parent's link for a directory, keeps counts, unique names and the tree |
| Links.ReclaimInv | fs.c:331-352 | an inode without links can be freed |
| LinkRuns.FileTree.Dirlookup | fs.c:524-548 | the first entry in use with the name, or none |
| LinkRuns.FileTree.AddEntry | fs.c:551-578 | fails exactly when the name is there; otherwise the first free entry, or a new one, holds it |
| LinkRuns.FileTree.IsEmpty | sysfile.c:168-181 | true exactly when no entry after the dots is in use |
| LinkRuns.FileTree.FindInode | fs.c:194-214 | the lowest free inode; none exactly when all are in use |
| LinkRuns.FileTree.Link | sysfile.c:118-164 | on failure everything is as before; it fails exactly for a directory, a missing parent or a name that exists; on success the invariant holds |
| LinkRuns.FileTree.Unlink | sysfile.c:184-238 | fails exactly for the dots, an unknown name or a directory with entries, changing nothing; its panic cannot happen |
| LinkRuns.FileTree.Create | sysfile.c:241-283 | a new inode, an existing file, a refusal that changes nothing, or a panic, as the specification says |
| LinkRuns.UnlinkReady | sysfile.c:203-212 | a name that is found has an inode with at least one link |
| LinkRuns.StepInv | sysfile.c:118-283 | every step keeps the invariant, with other calls running between the parts of sys_link |
| LinkRuns.ImageInv | mkfs.c:117-165 | the image mkfs makes of any programs with distinct names satisfies it |
| LinkRuns.LinkCounts | sysfile.c:118-283 | in every reachable state nlink is the number of entries naming the inode in linked directories, own "." aside, plus links in progress; names are unique |
| Naming.CreateMeans | sysfile.c:241-283 | the lowest free inode, of the kind asked for and with one link, is found under the name in dp; all other names everywhere mean what they did; a new directory has its dots; found, refused and panicking cases are exact |
| Naming.LinkMeans | sysfile.c:118-164 | the name in dp is found as the inode, which has one more link; nothing else changes; if the name is there nothing changes at all |
| Naming.FinishMeans | sysfile.c:144-152 | the same of the last part alone, other calls having run in between |
| Naming.UnlinkMeans | sysfile.c:184-238 | the name is not found in dp any more, all other names mean what they did, and the links are lowered exactly |
| Naming.ReclaimMeans | fs.c:331-352 | an inode without links becomes free for create again; no name meant it and nothing else changes |
| Naming.NoDanglingNames | sysfile.c:118-283 | in every reachable state a name in a linked directory means an inode in use |
| Frames.KallocOwned | kalloc.c:82-95 | taking a page keeps frame ownership exact |
| Frames.KfreeOwned | kalloc.c:59-77 | returning a page that nobody maps keeps it, once on the free list |
| Frames.AddTableOwned | vm.c:35-55 | a new page table belongs to one directory entry and changes no mapping |
| Frames.PutPteOwned | vm.c:60-80 | setting an entry changes that entry of that directory only; a user frame gets one owner |
| Frames.UnmapPagesOwned | vm.c:255-280 | exactly the user pages of the range are freed and their entries cleared |
| Frames.SkipTable | vm.c:266-268 | pages under an absent directory entry need no visit |
| Frames.FreevmOwned | vm.c:283-299 | frees exactly the directory, its tables and its user pages |
| Spaces.MapPagesEffect | vm.c:60-80 | maps the whole range and nothing else, taking only page tables from the free list |
| Spaces.SetupkvmBuilds | vm.c:118-137 | maps exactly the kernel's table of mappings in free frames, or gives every frame back |
| Spaces.AllocPagesEffect | vm.c:221-249 | adds zeroed pages; on failure all entries are as before and only page tables of the space stay allocated |
| Sizes.AllocuvmSized | vm.c:221-249 | the space has the new size, or the old one and 0 is returned, or nothing changes for a smaller size; nothing outside changes; also for a space that lacks pages |
| Sizes.DeallocuvmSized | vm.c:255-280 | the space has the smaller of the two sizes and exactly the pages between are freed |
| Spaces.CopyPagesEffect | vm.c:325-339 | every page copied, or the whole child given back |
| Sizes.CopyuvmCopies | vm.c:315-345 | equal bytes and flags in disjoint frames, the kernel mapped as always; on failure every frame is given back; a panic only if the parent lacks a page below its size; no other space changes |
| Sizes.GrowprocSizedIff | proc.c:295-332 | size and pages agree afterwards if and only if the process did not give up all its memory at once |
| Sizes.GrowprocBounded | proc.c:295-332 | whatever it is asked and whatever pages the space has, no other space changes, nothing is mapped beyond the recorded size, and a failure records the old size |
| Needs.MapPagesNeeds | vm.c:60-80 | mapping a kernel range succeeds if and only if there is a free frame for every missing page table |
| Needs.SetupkvmNeeds | vm.c:118-137 | succeeds if and only if there are 65 free frames: a directory and 64 page tables |
| Needs.AllocPagesNeeds | vm.c:232-247 | the loop succeeds if and only if there is a free frame for every page and every missing page table |
| Needs.AllocuvmNeeds | vm.c:221-249 | succeeds if and only if the new size is below KERNBASE and there are that many free frames |
| Needs.CopyPagesNeeds | vm.c:325-339 | the copy loop needs a frame for every page and every page table of the child, exactly |
| Needs.CopyuvmNeeds | vm.c:315-345 | which of success, failure and panic it comes to, from the number of free frames and the first page the parent lacks |
| Vm.PhysicalMemory.constructor | kalloc.c:31-37 | before kinit no page belongs to the allocator |
| Vm.PhysicalMemory.Kfree | kalloc.c:59-77 | the page is junk-filled and first on the free list |
| Vm.PhysicalMemory.Kalloc | kalloc.c:82-95 | the first free page; fails exactly when there is none |
| Vm.PhysicalMemory.Freerange | kalloc.c:46-53 | exactly the pages of the range become free and are junk-filled |
| Vm.PhysicalMemory.Walkpgdir | vm.c:35-55 | the table of the page; absent exactly when it is not to be made or memory is out |
| Vm.PhysicalMemory.MapOne | vm.c:68-74 | find or make the table and set the entry; the remap panic excluded |
| Vm.PhysicalMemory.Mappages | vm.c:60-80 | the loop over a range, stopping where memory runs out |
| Vm.PhysicalMemory.Setupkvm | vm.c:118-137 | the loop over kmap with its rollback |
| Vm.PhysicalMemory.Deallocuvm | vm.c:255-280 | with its directory skip it leaves exactly the memory of the page-by-page walk |
| Vm.PhysicalMemory.Allocuvm | vm.c:221-249 | the loop with both rollback paths leaves exactly the specified memory |
| Vm.PhysicalMemory.Freevm | vm.c:283-299 | the walk over user pages, then tables, then the directory |
| Vm.PhysicalMemory.Copyuvm | vm.c:315-345 | the copy loop with its rollback; it panics exactly where the specification does |
| Vm.PhysicalMemory.CopyOne | vm.c:326-338 | one page with its rollback |
| Vm.PhysicalMemory.Growproc | proc.c:295-332 | grows or shrinks and takes a returned 0 for failure |
| Vm.SkipToTable | vm.c:266-268 | the jump to the next directory entry loses no page |
| VmRuns.StepInv | vm.c:118-345 | making, copying, resizing (giving up everything included) and freeing spaces, and taking and returning pages, keep ownership and sizes |
| VmRuns.RunInv | vm.c:118-345 | hence in every reachable state |
| VmRuns.FramesAreExclusive | vm.c:118-345 | in every reachable state user frames, page tables of both halves and directories are each used in one place of one space, are all different and are off the free list |
| Junk.FreePagesAreJunk | kalloc.c:59-77 | in every reachable state every page on the free list is filled with junk (the word that links the list aside), so nothing of its former use is left |
| VmRuns.PagesMatchIff | vm.c:325-330 | in every reachable state the pages of a process match its size if and only if it never gave up all its memory, and copyuvm panics for it if and only if it did and 65 frames are free |
| VmRuns.GaveUpRun | proc.c:316-320 | a run to such a state: size 1, no page, and copyuvm panics |
| Heap.Allocator.constructor | umalloc.c:20-22 | no free list yet |
| Heap.Allocator.Search | umalloc.c:30-32 | ends within one turn of the ring at the block after which the freed one belongs |
| Heap.Allocator.JoinUpper | umalloc.c:33-37 | absorbs the next free block exactly when the block reaches it; the free units are the same plus the block's |
| Heap.Allocator.JoinLower | umalloc.c:38-42 | is absorbed by the previous one exactly when that reaches it; the list is ordered and fully coalesced |
| Heap.Allocator.Free | umalloc.c:24-44 | the block's units, and no others, become free |
| Heap.Allocator.MoreCore | umalloc.c:46-61 | the new units join the free list, or there is no memory and nothing changes, if and only if the block's size in bytes is a positive int; otherwise sbrk fails and takes all pages, or succeeds without the block and the header write faults or not, each with its exact condition |
| Heap.Allocator.Take | umalloc.c:75-84 | the whole block, or its last units, become live |
| Heap.Allocator.Malloc | umalloc.c:63-90 | a new live block of the right size disjoint from all others and within the process, asking sbrk at most once, or null only without memory, if and only if not 0x7ffffff0 < nbytes <= 0xfffffff8; in that range null with all pages gone, killed, or going on with a block the process does not have, each with its exact condition; a block has room if and only if nbytes <= 0x7ffffff0 |
| Heap.MergeUpper | umalloc.c:33-37 | merging forward keeps order and coalescing and the set of free units |
| Heap.MergeLower | umalloc.c:38-40 | so does merging backward |
| Heap.InsertAlone | umalloc.c:41-42 | a block that touches neither neighbour keeps the list fully coalesced |
| Heap.TakenOk | umalloc.c:63-90 | free plus live units stay exactly the units obtained |
| Heap.RoomIff | umalloc.c:69-69 | the block's size field covers the bytes asked for if and only if rounding up does not overflow 32 bits |
| Sbrk.SbrkIsGrowproc | sysproc.c:64-78 | size, success and completeness of pages after sbrk are those that growproc leaves on the page tables |
| Heap.SbrkGives | umalloc.c:54-54 | sbrk either gives exactly the bytes of n units or refuses and changes nothing, if and only if 8n is a positive int; otherwise it fails and takes all pages if and only if 8n + sz = 2^32, and else succeeds with the size left alone or shrunk |
| Heap.HugeIff | umalloc.c:69-69 | which requests round up to that many units |
| Heap.LostRequests | umalloc.c:54-56 | concrete requests at which sbrk gives nothing, and one at which it takes 24 bytes away |
| Heap.GoneRequest | umalloc.c:54-56 | for every process size, the request at which sbrk takes all pages away and malloc returns null |
| Sbrk.EndCovered | umalloc.c:57-58 | the page at the old end of a process that has not grown is missing if its size was in whole pages, and for an unchanged size only then, so the header write faults |
| Sbrk.EndPage | sysproc.c:64-78 | after an sbrk that succeeds the page at the old end is mapped if and only if the new size covers it |
| Heap.NoHugeBlock | umalloc.c:75-84 | a free list within the process cannot serve such a request, so malloc always asks sbrk for it |
| Pipes.CounterTests | pipe.c:86-86 | the full and empty tests are right although the counters wrap at 2^32 |
| Pipes.Counter | pipe.c:15-16 | wrapping a counter does not move its buffer index |
| Pipes.PipeBuffer.constructor | pipe.c:22-47 | an empty open pipe |
| Pipes.PipeBuffer.Put | pipe.c:94-94 | the byte joins the accepted bytes |
| Pipes.PipeBuffer.Get | pipe.c:116-116 | the byte delivered is the oldest not delivered |
| Pipes.PipeBuffer.Write | pipe.c:78-98 | up to where it returns or sleeps, accepts exactly what fits of the data |
| Pipes.PipeBuffer.Read | pipe.c:100-121 | delivers the oldest bytes, as many as there are up to n; sleeps or fails only on an empty pipe |
| Pipes.PipeBuffer.Close | pipe.c:59-75 | closes one end |
| PipeRuns.RunInv | pipe.c:59-121 | the invariant in every interleaving of readers, writers, closes and kills |
| PipeRuns.PipeIsFifo | pipe.c:59-121 | delivered bytes are a prefix of accepted ones, at most PIPESIZE apart, and a reader and a writer are never both asleep |
| PipeRuns.RunRecords | pipe.c:59-121 | every run has such a record |
| PipeRuns.WritesArrive | pipe.c:78-98 | in every run, with a record of who put each byte: a write under way at i has put exactly its first i bytes in order, one that returned success all of them and returns their number, one that failed a prefix |
| PipeRuns.OneWriter | pipe.c:78-121 | with one writer the accepted bytes are its writes one after the other, and what reads returned, one after the other, is a prefix of them |
| PipeRuns.ReadReturns | pipe.c:100-121 | a read returns the oldest unread bytes, as many as asked for or there are; none only if none are asked for or the pipe is empty and closed |
| PipeRuns.StrandedIff | pipe.c:87-90 | a step leaves a reader asleep with bytes in the pipe if and only if a killed writer fails on the full pipe |
| PipeRuns.StuckIff | pipe.c:87-90 | a step leaves a reader asleep with bytes in the pipe and no write under way if and only if the last writer under way, killed, has more left than the pipe has room for |
| PipeRuns.StrandedRun | pipe.c:87-90 | a run that ends so: a reader asleep, bytes in the pipe, no write under way |
| PipeRuns.TwoWritersRun | pipe.c:87-90 | a run in which a second killed writer, with one byte left, makes a stranded reader stuck |
| Regex.MatchHere | grep.c:85-96 | true exactly when some prefix of the text satisfies the pattern's meaning |
| Regex.MatchStar | grep.c:99-106 | true exactly when some number of fitting characters is followed by a match of the rest |
| Regex.Match | grep.c:72-82 | true exactly when some substring satisfies the pattern, anchored if it starts with ^ |
| Regex.HereStar | grep.c:99-106 | the declarative meaning of a starred item, unfolded |
| Regex.HereOne | grep.c:93-94 | the declarative meaning of a single item, unfolded |
| Shell.GetToken | sh.c:265-308 | the next token, its ends and where the following one starts, as the lexical grammar says |
| Shell.SkipLoop | sh.c:270-271 | the first position that is not blank, everything before it being blank |
| Parser.Peek | sh.c:310-320 | skips blanks and tells whether the character comes next |
| Parser.ParseRedirs | sh.c:374-397 | the loop wraps exactly the redirections the grammar finds, innermost first |
| Appending.AppendIsOutput | sh.c:374-397 | an operator >> and a > with a blank parse alike, in every line: the same command with the same word positions, or none for both |
| Parser.ParseExecLoop | sh.c:415-446 | the loop that fills argv under a growing chain of redirections gives the grammar's command |
| Parser.ParseBlockLoop | sh.c:399-412 | parenthesised lines with their redirections |
| Parser.ParsePipeLoop | sh.c:361-371 | pipelines, to the right |
| Parser.ParseLineLoop | sh.c:344-358 | background marks in a loop, then lists |
| Shell.ExecRoundTrip | sh.c:415-446 | the canonical text of a simple or parenthesised command parses back to it and stops right after it |
| Shell.PipeRoundTrip | sh.c:361-371 | the same for pipelines |
| Shell.LineRoundTrip | sh.c:344-358 | the same for lines |
| Shell.ParseRender | sh.c:327-342 | parsing the canonical rendering of any command tree with at most nine arguments per command returns that tree |
| Parser.LineIsOk | sh.c:344-446 | every token of any successful parse is a maximal word of the line |
| Words.NoWordIsLost | sh.c:344-446 | of every line that parses, the arguments of the tree are exactly its words that follow no redirection symbol, in order, and its redirections exactly those of the line, in order, with file and direction |
| Parser.ParseIsStable | sh.c:327-342 | the tree of any line that parses has at most nine arguments to a command, and its canonical rendering parses to the same tree |
| Parser.NulTerminate | sh.c:449-493 | writes NUL at exactly the ends of the command's tokens |
| Parser.StringsAreTokens | sh.c:449-493 | afterwards every argv and file string is exactly its token, and no cut damaged another |
| Parser.Strlen | sh.c:333-333 | the line is what comes before the first NUL |
| Parser.ParseCommand | sh.c:327-342 | the grammar's command with its strings cut out in place; a line that is none leaves the buffer alone; the rendering of a tree gives that tree |

## Left out

- Hardware and start-up: port I/O, interrupt controllers, boot code, context-switch assembly, segment and trap-frame
  layout. The disk is the in-memory one of memide.c, and a block write is atomic.
- Spin locks are atomic: memory ordering and interrupt disabling inside spinlock.c are not modelled.
- exec, system-call argument fetching, path resolution (skipelem, namex), device switch, console and formatting.
  sys_link, sys_unlink and create take the inodes that resolution finds.
- sh's runcmd and getcmd, and grep's reading loop.
- Integer width is modelled where it decides something (pipe counters, offsets in readi and writei, sizes in growproc,
  malloc's rounding, header words). Semaphore values, pids, tick statistics, reference counts and nlink are unbounded;
  a 1000-block disk cannot hold enough entries to overflow a 16-bit nlink.
- sem_init and the checks of semaphore ids.
- Operations on a parent directory that has itself been unlinked.
- FileSys keeps the bitmap as one boolean per block and inodes as values; Durable gives their form on disk. That the
  buffer cache holds that form at the end of a transaction is a premise of Durable.CrashedWrite (`Shows`), met by storing
  the blocks handed to log_write (Durable.StoredShows).
- Device inodes in readi and writei.
- The inode cache (iget, ilock, reference counts); an inode without links may be reclaimed at any later step.
- clearpteu, inituvm, loaduvm, copyout: one entry or one page each.
- User instructions between system calls. A process without pages gets to its next call only while old address
  translations are still cached; the runs of VmRuns allow that call.
- Logging.Log.Commit: the other processes running meanwhile read; none can write, as no operation is outstanding
  (Reservation.CommitAlone). If they never free a lock that it waits for, what it has written so far is covered.
- Bio.Cache.Acquire: is the step at which the lock is free; Bio.Cache.AcquireSleep waits for it.
- Bio.Cache.Brelse: a buffer whose bytes were changed has been logged or written, as the callers do.
- Durable.CrashedWrite: each chunk is a commit of its own; a commit that several system calls share is not modelled.
- Logging.Log.LogWrite: takes log_write's size panic as a precondition; that it is met is Reservation.NoPanicIff.
- FileSys.FileSystem.FileWrite: the bound on logged blocks is for disks that one bitmap block covers, as mkfs makes them.
- Heap.Allocator.MoreCore: the size of the process is a multiple of the header's 8 bytes, and whether there are frames
  is a parameter (Needs.AllocuvmNeeds says when). `Lost` is where the model stops and the code goes on, the header
  written beyond the end of the process.
- Heap.Allocator.Malloc: stops likewise (`LostBlock`).
- Heap.Allocator.Free: its argument is a block that malloc returned and that has not been freed, as the interface demands.
- Vm.PhysicalMemory.Kfree: the free list is a sequence; the link kept in the first word of a free page is not modelled.
- Vm.PhysicalMemory.Mappages: addresses and sizes are whole pages and more than one page is mapped only above KERNBASE, as
  at every call.
- Spaces.AllocPagesEffect: on failure the page tables made on the way stay with the address space, as in the code, so
  the free set is restored up to those.
- Parser.ParseExecLoop: commands are values, so filling argv through a pointer while redirections wrap it is a
  replacement at the heart of the chain.
- Ticks.TicksAreConserved: one CPU, as ticks are counted on CPU 0 only. A killed process running in the kernel exits at
  the end of its call; only the exit that a timer interrupt calls can lose a tick.
