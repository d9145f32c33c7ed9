# Verified model of the JOS kernel, its user library and its tools

A Dafny model of the stateful core of this JOS kernel (`lab8`): physical pages and four-level page
tables, address spaces and their teardown, pipes, the user heap, environments, the scheduler, the
spinlock, the DWARF interpreters, the disk image builder and the argument-stack builder. The model
does what the C code does, wrap-around and all; the theorems say what that code keeps over every run
and every input. Where a property one would expect of the code is false, the project has a concrete
input that shows it and the exact condition under which the property holds.

`dafny verify dfyconfig.toml` checks the whole project.

## How it is organised

| files | subject | form |
|---|---|---|
| `Mmu`, `FreeList`, `PhysMem`, `TableOps`, `WalkOps`, `Pmap` | kern/pmap.c | a state with one invariant; the class `Pmap` (module `PmapCode`) has the code, each method proved against the state functions |
| `Reclaim`, `EnvSpace`, `PageRuns`, `Ept` | address spaces of kern/env.c, whole runs, teardown of vmm/ept.c | methods on the same class |
| `PipeEof`, `PipeRing`, `Spinlock`, `Sched` | lib/pipe.c with lib/fd.c, kern/spinlock.c, kern/sched.c | interleaved steps with an invariant over all runs |
| `Malloc`, `MallocCode`, `MallocRuns` | lib/malloc.c | heap transitions, the class that carries them out, and whole runs |
| `EnvTable` | the environment table of kern/env.c | state functions, runs, and the class |
| `Leb128`, `DwarfRead`, `LineProgram`, `LineAsm`, `CallFrame`, `CallAsm` | kern/libdwarf_rw.c, _lineno.c, _frame.c | one-step functions, whole-table references, the loops, and programs as lists of instructions |
| `FsImage`, `FsFormat`, `FsCode`, `FsMain` | fs/fsformat.c, fs/fs.c | image contents, and the class that builds them |
| `InitStack` | lib/spawn.c | a page of bytes, filled by loops and read back |

## Main results

* **Pages and tables.** One invariant (`PhysMem.Inv`) is kept by allocation, walks, insertion,
  removal, address-space setup and teardown: every count equals the present entries that name the
  page plus the explicit holds, the free list is a finite list without repetition, and no free page is
  reachable. The tree refines a plain map from (root, virtual page) to (frame, permissions):
  `page_lookup` reads it, `page_insert` updates one key, `page_remove` deletes one, a creating walk
  changes none, and a failed walk changes nothing at all, whichever level ran out.
* **Whole runs of the allocator.** From `page_init` on, in every state of every sequence of allocations,
  frees, insertions, removals, walks, address-space setups and teardowns by clients that only use what
  they were given, every page is free, handed out or referred to, never two of these; every count is
  the entries that name the page, plus one if it was in use at boot, plus one if it is an address
  space; each operation changes the translation map as it should. Once a teardown has lost references
  the counts are still never below that sum. When every address space has been ended without loss and
  every page given back, exactly the pages free at boot are free again.
* **Teardown.** `env_free` keeps the invariant, frees every page that loses its last reference, and loses
  no reference if and only if nothing is mapped in the slots its loops skip. Tearing down an EPT tree
  lowers every count by exactly the number of slots that name the page.
* **Pipes.** On one processor, in every run with fewer than 2^16 mappings of the pipe, `_pipeisclosed`
  answers true if and only if nothing but this end of the pipe is mapped, or was lost with an
  environment that was taken down; the exact condition for any number of mappings is there too. With
  several processors the answer is exact if nothing of the pipe is mapped or unmapped between the two
  reads, and a run shows that it can be wrong otherwise. In every run dup and close do what they
  should to the descriptors. In every interleaving the bytes read are a prefix of the bytes written,
  and what a read or a write has done when it returns is exact.
* **Heap.** In every state of every sequence of calls blocks are disjoint, mapped, and cover no reference
  word, each reference word counts exactly its holders, and a block stays until it is freed.
* **Environments, scheduler, lock.** Ids, the free list and stale ids over every run; no environment on
  two processors in any run of kernel entries from boot, each entry being one step; on one processor
  every environment that can run is current within NENV yields; mutual exclusion in every interleaving
  and panics exactly for misuse.
* **DWARF.** Both early-exit interpreters equal "build the whole table, then search it", on every program
  on which they come back. A turn fails to move the read pointer forward exactly at an operand whose
  length wraps it round; without such a turn a program ends within one turn for each byte, and a line
  program that is not stopped ends at all if and only if it ends within that many turns. Run on the
  bytes of a list of instructions the interpreters come back and find the row that the meaning of those
  instructions gives, for every line program and for every call-frame program that keeps a condition
  one can read off the list (no nested remembering, no rule restored after it); there the reference is
  a machine with a stack of remembered states. LEB128 round trips have their exact ranges among all
  64-bit values.
* **Disk image and first stack page.** The image is built if and only if the arguments fit, the blocks
  below the high-water mark are exactly those the inputs and directories need, each once, and every
  input reads back from the root directory; the stack page reads back exactly.

## Where the code falls short, and exactly when

* Freeing a free page twice goes unnoticed exactly for the last page of the free list, and ties the
  list into a cycle (`PmapCode.Pmap.PageFree`, `FreeList.PushTailIsCyclic`).
* `pp_ref` has sixteen bits: an insertion keeps the invariant exactly while the count is below 65535
  (`TableOps.InsertLeafIff`).
* `env_free` leaks exactly if an entry was present in a slot it does not visit (`EnvSpace.EnvFree`). The
  stack page and every file descriptor's pages are there (`EnvSpace.StackSkipped`,
  `EnvSpace.DescriptorsSkipped`), so taking down an environment that still has them loses them
  (`EnvSpace.SkippedLeaks`).
* For that reason a writer that is taken down with its end open keeps the reader waiting: no check by a
  reader ever answers true again (`PipeEof.EndOfFileNeverComes`, `PipeEof.KilledWriter`).
* `user_mem_check` also refuses a range that ends exactly at ULIM, although its comment asks for
  addresses below ULIM (`PmapCode.Pmap.UserMemCheck`, `PmapCode.RefusedBelowUlim`).
* `malloc` serves sizes above 2^64 - 4 as requests for nothing (`MallocCode.RoundedIff`).
* Once its search starts at the end of the region (`MallocCode.StartsAtEnd` has such a heap) the wrap test
  does not fire: the rounds fail until the request's end address wraps round 2^64, the address found
  there is refused, and the cursor stays lost; a request of less than a page goes on to address 0
  (`MallocCode.LostBeyondEnd`, `MallocCode.Allocator.Alloc`).
* A page's reference word has 32 bits: a block in the current page keeps the invariant exactly while it
  does not wrap (`Malloc.InPageIff`).
* A check for end of file is wrong if another processor closes a descriptor between the two reads
  (`PipeEof.SecondProcessorBreaksCheck`, `PipeEof.QuietBetweenReads`), or if more than 2^16 mappings make the
  sixteen-bit counts agree (`PipeEof.PageRefs`).
* `env_destroy` of an environment that is dying on another processor breaks the exclusion of processors
  (`Sched.DestroyIff`, `Sched.DestroyedTwice`); the system calls that would do so only panic in this tree.
* Kernel entries must be one step, or two processors can choose the same environment
  (`Sched.WithoutLock`). `trap` takes the big kernel lock only after a halt, and `env_run` unlocks a lock it
  then does not hold, which panics (`Spinlock.MisuseCaught`).
* `restore` after `remember_state` uses the remembered rules, because both share one shadow table
  (`CallFrame.RestoreIff`, `CallFrame.SharedShadow`).
* Line and call-frame programs can move their read pointer back and never end, exactly through an
  unknown extended opcode or a block whose length wraps it round (`LineProgram.AdvancesIff`,
  `LineProgram.NeverReturns`, `CallFrame.AdvancesIff`, `CallFrame.NeverReturns`).
* Both LEB128 decoders shift in an int: unsigned values read back exactly below 2^31 and in the last
  eight, signed ones exactly in [-2^31, 2^31) (`Leb128.UlebRoundTrip`, `Leb128.SlebRoundTrip`).
* An empty directory in the disk image claims a block of another directory (`FsMain.Format`).
* `init_stack` accepts argument lists whose addresses wrap below zero
  (`InitStack.Build`, `InitStack.ManyEmptyStrings`).

## Model

| member | source | states |
|---|---|---|
| `Mmu.SplitRoundTrip` | lab8/inc/mmu.h:30-51 | PGADDR of the five parts of an address gives back its low 48 bits |
| `Mmu.JoinRoundTrip` | lab8/inc/mmu.h:30-51 | the five macros take PGADDR apart again |
| `Mmu.SameWalkIffSameVpn` | lab8/inc/mmu.h:30-51 | two addresses have the same four indices if and only if they are in the same virtual page |
| `Mmu.SamePageSameSplit` | lab8/inc/mmu.h:30-51 | addresses in one page take the same walk |
| `FreeList.Pop` | lab8/kern/pmap.c:463-476 | taking the head leaves a list of the remaining pages in order, without the one taken |
| `FreeList.Push` | lab8/kern/pmap.c:492-505 | pushing a page not on the list gives the list with it in front |
| `FreeList.PushTailIsCyclic` | lab8/kern/pmap.c:492-505 | pushing the last page of the list again leaves links that no finite list follows |
| `PhysMem.FreePageUnreachable` | lab8/kern/pmap.c:463-516 | under the invariant a free page is no live table, is held by nobody and named by no entry |
| `PhysMem.PathLevels` | lab8/kern/pmap.c:543-627 | a walk goes from a root through live tables of levels 3, 2 and 1 |
| `PhysMem.UniquePath` | lab8/kern/pmap.c:543-627 | two walks that reach the same last-level table have the same root and the same three indices |
| `TableOps.WidenEntry` | lab8/kern/pmap.c:694-698 | adding permission bits to an upper-level entry keeps the invariant, every walk and every translation |
| `TableOps.NewTableInv` | lab8/kern/pmap.c:548-562 | linking a fresh table keeps the invariant |
| `TableOps.NewTableView` | lab8/kern/pmap.c:548-562 | linking a fresh table changes no translation of any address space |
| `TableOps.NewTableEntry` | lab8/kern/pmap.c:548-562 | the parent's entry names the new table with user and write permission, the table is empty, and no other entry changes |
| `TableOps.InsertLeafInv` | lab8/kern/pmap.c:706-709 | counting a page and writing it into an empty last-level slot keeps the invariant |
| `TableOps.InsertLeafIff` | lab8/kern/pmap.c:706-709 | with the sixteen-bit count it does so if and only if the count was below 65535 |
| `TableOps.RewriteLeaf` | lab8/kern/pmap.c:699-702 | rewriting the permissions of the page already mapped changes that one translation and no count |
| `TableOps.RemoveLeafInv` | lab8/kern/pmap.c:756-766 | clearing a last-level slot and giving up its reference keeps the invariant |
| `TableOps.LeafView` | lab8/kern/pmap.c:686-766 | changing one last-level entry changes the translation of exactly the page its walk came for |
| `WalkOps.KeptInv` | lab8/kern/pmap.c:543-627 | a walk that kept everything a caller can observe keeps the invariant and every translation |
| `WalkOps.RollbackKept` | lab8/kern/pmap.c:554-558 | undoing the link of a new table after the walk below failed restores counts, links, free list and its order |
| `WalkOps.WalkedNew` | lab8/kern/pmap.c:543-598 | a successful walk below a new table is a successful walk from above it, which took one page more |
| `WalkOps.WalkedPresent` | lab8/kern/pmap.c:562-564 | a walk through a present entry does what the walk below it does |
| `PmapCode.PoppedInv` | lab8/kern/pmap.c:463-476 | handing out a page keeps the invariant and every translation |
| `PmapCode.LinkUndone` | lab8/kern/pmap.c:549-558 | taking a page for a table and giving it back restores counts, links and free list exactly |
| `PmapCode.FreePagesBelow` | lab8/kern/pmap.c:397-427 | the boot-time free list holds exactly the pages not in use |
| `PmapCode.InUseIs` | lab8/kern/pmap.c:399-411 | a page is not in use exactly if it is outside the boot page tables and either past the kernel, or in base memory and neither page 0 nor the start-up page |
| `PmapCode.BootInv` | lab8/kern/pmap.c:386-427 | a well-formed free list with boot counts held satisfies the invariant |
| `PmapCode.SamePageAccess` | lab8/kern/pmap.c:852-859 | access to one address of a page is access to all of them |
| `PmapCode.RefusedBelowUlim` | lab8/kern/pmap.c:843-851 | the last page below ULIM is refused in a memory where all of it is accessible |
| `PmapCode.CheckAccepts` | lab8/kern/pmap.c:843-861 | a range is accepted if and only if it ends below ULIM without wrapping and every address in it has a present entry that lacks none of the permissions asked for |
| `PmapCode.InsertAndCheck` | lab8/kern/pmap.c:686-861 | a page just mapped with p passes a check for q if and only if q asks for nothing that p lacks |
| `PmapCode.PermitsMeans` | lab8/kern/pmap.c:694-698 | a path said to permit some bits misses none of them in any of its three upper-level entries |
| `PmapCode.PermitsKept` | lab8/kern/pmap.c:693-709 | writing a last-level table leaves the permissions of the levels above as they are |
| `PmapCode.Pmap.PageAlloc` | lab8/kern/pmap.c:463-476 | takes the first page of the free list, every entry of it zero if asked, or changes nothing if there is none |
| `PmapCode.Pmap.PageFree` | lab8/kern/pmap.c:492-505 | returns an unreferenced page to the front; notices a second free of every free page but the last, and otherwise makes the list cyclic |
| `PmapCode.Pmap.PageDecref` | lab8/kern/pmap.c:511-516 | lowers the count and frees the page exactly at zero; a count of zero wraps to 65535 |
| `PmapCode.Pmap.LinkTable` | lab8/kern/pmap.c:549-552 | links a fresh zeroed table in a slot, or changes nothing if no page is left |
| `PmapCode.Pmap.UnlinkTable` | lab8/kern/pmap.c:555-559 | takes the table back so that everything observable is as before |
| `PmapCode.Pmap.PgdirWalk` | lab8/kern/pmap.c:607-627 | finds or makes the last-level table, or is a no-op |
| `PmapCode.Pmap.PdpeWalk` | lab8/kern/pmap.c:574-598 | the same from a page directory pointer table |
| `PmapCode.Pmap.Pml4eWalk` | lab8/kern/pmap.c:543-567 | the same from a root: it succeeds exactly if enough pages are free, changes no translation, and is a no-op if it fails |
| `PmapCode.Pmap.PageLookup` | lab8/kern/pmap.c:727-739 | reads the map and changes nothing |
| `PmapCode.Pmap.PageRemove` | lab8/kern/pmap.c:756-766 | deletes one key of the map; the page loses one reference and is freed exactly if it was the last |
| `PmapCode.Pmap.WidenPath` | lab8/kern/pmap.c:694-698 | all three upper-level entries get the permissions; no walk or translation changes |
| `PmapCode.Pmap.WriteFresh` | lab8/kern/pmap.c:706-709 | an empty slot: one more reference and one key set |
| `PmapCode.Pmap.WriteOver` | lab8/kern/pmap.c:703-709 | a slot with another page: that one loses a reference, the new one gains one, one key is set |
| `PmapCode.Pmap.SetPte` | lab8/kern/pmap.c:699-709 | whatever the slot held, one key is set and only the two pages' counts move |
| `PmapCode.Pmap.PageInsert` | lab8/kern/pmap.c:686-714 | succeeds exactly if both arguments exist and enough pages are free; updates one key, counts as prescribed, grants the permissions at every level, and leaves every page that is no table as it was; a failure keeps everything a caller can observe, free list and its order included |
| `PmapCode.Pmap.UserMemCheck` | lab8/kern/pmap.c:843-861 | accepts exactly the ranges that end below ULIM without wrapping and are accessible throughout with the permissions asked for and PTE_P; otherwise reports the first bad address |
| `PmapCode.Pmap.PageInit` | lab8/kern/pmap.c:386-427 | builds the ascending free list of exactly the pages outside the boot page tables that are past the kernel, or in base memory and neither page 0 nor the start-up page; the invariant holds |
| `PmapCode.Pmap.AddLast` | lab8/kern/pmap.c:419-425 | appends one page to the list |
| `Reclaim.ReleaseInv` | lab8/kern/env.c:637-640 | giving up a hold keeps the invariant and every translation |
| `Reclaim.EdgeToHoldInv` | lab8/kern/env.c:623-625 | clearing an entry while still owing its reference keeps the invariant |
| `Reclaim.OrphanInv` | lab8/kern/env.c:623-633 | a table that stops being live keeps the invariant if the references of its entries are counted as lost |
| `Reclaim.NewRootInv` | lab8/kern/env.c:175-215 | a new root with the kernel's and its own slot keeps the invariant and every translation |
| `EnvSpace.NoOtherParent` | lab8/kern/env.c:601-633 | a live table below a root is named by exactly one entry |
| `EnvSpace.DroppedInv` | lab8/kern/env.c:623-633 | dropping the table in a slot keeps the invariant |
| `EnvSpace.DroppedHolds` | lab8/kern/env.c:623-633 | it loses references exactly if the dropped table still had entries |
| `EnvSpace.DroppedOthers` | lab8/kern/env.c:601-633 | it changes no translation of another address space |
| `EnvSpace.Limits` | lab8/kern/env.c:605-617 | the three loop bounds, from the addresses they are taken from |
| `EnvSpace.DropTable` | lab8/kern/env.c:623-625 | clears a slot and gives up the table it named |
| `EnvSpace.EnvSetupVm` | lab8/kern/env.c:175-215 | a new address space translates nothing and disturbs no other, its root has the kernel's entry in slot 1, itself in slot 2 and nothing else, or nothing changes |
| `EnvSpace.EmptyPt` | lab8/kern/env.c:616-621 | every entry of a page table but the last is removed |
| `EnvSpace.SweepPgdir` | lab8/kern/env.c:607-626 | the directory's entries below the limit are gone; a reference was lost exactly if a page table still had its last entry |
| `EnvSpace.ClearPdpt` | lab8/kern/env.c:601-631 | the first four directories are gone, with the exact condition for losing nothing |
| `EnvSpace.DropRoot` | lab8/kern/env.c:635-640 | the root is given up; nothing is lost exactly if it had no entry left |
| `EnvSpace.EnvFree` | lab8/kern/env.c:571-646 | the invariant holds, other address spaces are as before, no count falls below its references, the free list grows by exactly the pages that lost their last reference, page tables that are not visited keep their entries, and no reference is lost if and only if the skipped slots were empty |
| `EnvSpace.SkippedLeaks` | lab8/kern/env.c:599-633 | a page mapped at a skipped address is still referred to after the teardown, which therefore leaks |
| `EnvSpace.StackSkipped` | lab8/kern/env.c:601-617 | the stack page of an environment is at such an address |
| `EnvSpace.DescriptorsSkipped` | lab8/lib/fd.c:8-16 | so are the descriptor page and the data page of every file descriptor |
| `PageRuns.FineMeans` | lab8/kern/pmap.c:463-516 | what the run invariant says of every page: it is free, handed out or referred to, and only one of these; its count covers the entries that name it, the reference since boot and the address space's, and is their sum while nothing has leaked |
| `PageRuns.TakePage` | lab8/kern/pmap.c:463-476 | allocation keeps it, hands out the first free page and changes no count or translation |
| `PageRuns.GivePageBack` | lab8/kern/pmap.c:492-505 | freeing a page in hand keeps it and puts the page in front of the list |
| `PageRuns.Insert` | lab8/kern/pmap.c:686-714 | mapping keeps it: one key of the map is set and the page leaves the hand, or the free list does not cover the missing tables and nothing changes |
| `PageRuns.SharePage` | lab8/kern/pmap.c:686-739 | mapping in one address space what is mapped in another keeps it and sets one key |
| `PageRuns.UnmapPage` | lab8/kern/pmap.c:756-766 | unmapping keeps it and deletes one key |
| `PageRuns.MakeTablesFor` | lab8/kern/pmap.c:543-567 | a creating walk keeps it and every translation; the table is then there unless the free list was too short |
| `PageRuns.StartSpace` | lab8/kern/env.c:175-215 | a new address space keeps it and takes the first free page, which was none before, as its root |
| `PageRuns.EndAddressSpace` | lab8/kern/env.c:571-646 | a teardown keeps it, leaves other address spaces as they are, and counts stay exact if and only if they were and the skipped slots are empty |
| `PageRuns.Perform` | lab8/kern/pmap.c:386-766 | so does every operation, with what it does to translations, free list, pages in hand and address spaces |
| `PageRuns.Run` | lab8/kern/pmap.c:386-766 | it holds in every state of every run from page_init, neighbouring states being what the operation between them makes |
| `PageRuns.ExactUntilEnd` | lab8/kern/pmap.c:386-766 | counts are exact in every state before the first teardown |
| `PageRuns.ReservedStays` | lab8/kern/pmap.c:397-427 | in every state of every run page 0, the start-up page, the pages from base memory to the kernel's end and the boot page tables are not free, handed out, a table or an address space |
| `PageRuns.RunGivesBack` | lab8/kern/pmap.c:386-766 | in every run, once all address spaces are ended without loss and all pages given back, no table is left and the free pages are those of boot |
| `Ept.DropAllIs` | lab8/kern/pmap.c:511-516 | giving up a sequence of references lowers each count by its occurrences and frees exactly the pages that reach zero |
| `Ept.DropAllConcat` | lab8/vmm/ept.c:97-112 | giving up one sequence after another is giving up their concatenation |
| `Ept.DropsAreFrames` | lab8/vmm/ept.c:93-114 | the teardown gives up exactly the frames named in the slots it visits |
| `Ept.PresentIff` | lab8/vmm/ept.c:28-31 | an entry is present exactly if it lets the guest read, write or execute |
| `Ept.VisitsIff` | lab8/vmm/ept.c:93-114 | the teardown visits exactly the present slots that some path of present entries leads to |
| `Ept.VisitsDistinct` | lab8/vmm/ept.c:93-114 | if only one path leads to each, it visits none twice |
| `Ept.TreeDrops` | lab8/vmm/ept.c:93-121 | in such a tree each page is given up as often as slots on a path name it |
| `Ept.FreeEptLevel` | lab8/vmm/ept.c:93-114 | the recursive loop gives up those references and changes nothing else |
| `Ept.FreeGuest` | lab8/vmm/ept.c:118-121 | after the root is dropped too, every count has fallen by the slots that name the page and exactly the pages at zero are free |
| `PipeEof.StepInv` | lab8/lib/fd.c:174-202 | every step of dup, close and a check keeps "a mapped descriptor page has its data page mapped" and what each step relies on |
| `PipeEof.EqualRefs` | lab8/lib/pipe.c:75-89 | the data count is at least the sum of both descriptor counts, and equals one of them if and only if nothing but that end is mapped or lost |
| `PipeEof.PageRefs` | lab8/lib/pipe.c:75-89 | the sixteen-bit counts agree if and only if their true difference is a multiple of 2^16; below 2^16 mappings, if and only if only this end is left |
| `PipeEof.FinishExact` | lab8/lib/pipe.c:80-86 | a check that saw no switch gives the answer of the counts at the moment it ends |
| `PipeEof.RunInv` | lab8/lib/pipe.c:75-89 | the invariant holds in every state of every run |
| `PipeEof.DupResult` | lab8/lib/fd.c:174-202 | in every run, whatever other environments do meanwhile, a dup that is over has left the new descriptor alone if the old one was closed, has closed it if it is the old one itself or a mapping was refused, has made it what the old one is otherwise, and has touched no other |
| `PipeEof.CloseResult` | lab8/lib/pipe.c:185-190 | likewise a close that is over has closed that descriptor and touched no other |
| `PipeEof.WholeRun` | lab8/lib/fd.c:174-202 | in every state each descriptor of a live environment is wholly open or wholly closed, but for the one its call is changing |
| `PipeEof.SyscallProgress` | lab8/lib/fd.c:174-202 | every system call of a dup or close brings it nearer to its end |
| `PipeEof.EndOfFileIsReal` | lab8/lib/pipe.c:75-89 | in every run, true is returned if and only if the mappings that do not go with this end are a multiple of 2^16; below 2^16, if and only if nothing but this end is mapped or lost, and then no descriptor of the other end is mapped anywhere |
| `PipeEof.OnlyEndIff` | lab8/lib/pipe.c:75-89 | that is: nobody alive has anything else of the pipe, and no environment was taken down with anything else of it |
| `PipeEof.LostForever` | lab8/kern/env.c:599-633 | what an environment had mapped when it was taken down stays counted in every later state |
| `PipeEof.EndOfFileNeverComes` | lab8/lib/pipe.c:75-89 | once the other end was lost in that way no check of this end answers true, while there are fewer than 2^16 mappings |
| `PipeEof.KilledWriter` | lab8/lib/pipe.c:75-89 | a run in which the only writer is killed and the reader is told the pipe is open |
| `PipeEof.SecondProcessorBreaksCheck` | lab8/lib/pipe.c:75-89 | with another processor acting between the two reads, true is returned although a writer is open |
| `PipeEof.QuietBetweenReads` | lab8/lib/pipe.c:75-89 | on any number of processors and in either order of the reads the answer is exact for the second read if nothing of the pipe is mapped or unmapped between them |
| `PipeRing.StoreHitsFreeSlot` | lab8/lib/pipe.c:152-169 | the slot about to be written holds no byte still to be read |
| `PipeRing.StepInv` | lab8/lib/pipe.c:104-172 | every memory access of reader and writer keeps the ring invariant |
| `PipeRing.PrefixDelivered` | lab8/lib/pipe.c:104-172 | in every interleaving the bytes delivered are a prefix of those accepted, with at most PIPEBUFSIZ in flight |
| `PipeRing.ReadResult` | lab8/lib/pipe.c:104-140 | in every run a read that returns has all it asked for, or found the ring empty and has some bytes or was told the pipe is closed |
| `PipeRing.WriteResult` | lab8/lib/pipe.c:142-172 | in every run a write that returns has sent all its bytes, or found the ring full and was told the pipe is closed |
| `PipeRing.ReaderTakes` | lab8/lib/pipe.c:118-137 | from every state a byte in the ring reaches a reader that waits for one within its next four accesses |
| `PipeRing.WriterPuts` | lab8/lib/pipe.c:156-169 | from every state with room a byte enters the ring within the writer's next four accesses |
| `PipeRing.Waits` | lab8/lib/pipe.c:118-131 | an open pipe that is empty keeps a reader with nothing waiting, and a full one a writer |
| `PipeRing.GivesUp` | lab8/lib/pipe.c:118-127 | a reader that has bytes, or is told the pipe is closed, returns as soon as the ring is empty, and a writer as soon as it is full and closed |
| `PipeRing.ByteDelivered` | lab8/lib/pipe.c:104-172 | a byte written into an empty idle pipe is what the next read returns |
| `Malloc.NoRefWordCovered` | lab8/lib/malloc.c:95-111 | no live block covers a reference word |
| `Malloc.FreshInv` | lab8/lib/malloc.c:49-50 | the empty heap satisfies the invariant |
| `Malloc.InPageIff` | lab8/lib/malloc.c:57-69 | a block in the current page keeps the invariant if and only if the page's 32-bit reference word does not wrap |
| `Malloc.FreshBlockInv` | lab8/lib/malloc.c:95-111 | a block on fresh pages keeps the invariant |
| `Malloc.UnrefInv` | lab8/lib/malloc.c:136-138 | giving up one reference unmaps the page exactly if it was the last, and keeps the invariant |
| `Malloc.DropCursorInv` | lab8/lib/malloc.c:73-74 | leaving a page drops the cursor's reference and keeps the invariant |
| `Malloc.MoveInv` | lab8/lib/malloc.c:84-93 | moving the cursor between page boundaries keeps the invariant |
| `Malloc.FreeInv` | lab8/lib/malloc.c:124-138 | freeing a block, continued pages and all, keeps the invariant |
| `Malloc.FreeZeroInv` | lab8/lib/malloc.c:124-138 | freeing a zero-sized block keeps the invariant |
| `MallocCode.RoundedIff` | lab8/lib/malloc.c:52-55 | rounding gives at least the request if and only if it is at most 2^64 - 4; larger ones become zero |
| `MallocCode.LostBeyondEnd` | lab8/lib/malloc.c:83-93 | from the end of the region on the wrap test does not fire and a round succeeds if and only if the request's end address wraps round 2^64; below a page none does, and the cursor comes to address 0 |
| `MallocCode.StartsAtEnd` | lab8/lib/malloc.c:57-74 | a heap that satisfies the invariant and from which the next request starts there |
| `MallocCode.Allocator.CheckFree` | lab8/lib/malloc.c:29-39 | true exactly if all the pages are below the end and unmapped, or the end address wraps |
| `MallocCode.Allocator.FreePages` | lab8/lib/malloc.c:124-138 | the loop unmaps the continued pages; the last page loses a reference |
| `MallocCode.Allocator.Free` | lab8/lib/malloc.c:114-139 | removes exactly the block given and keeps the invariant |
| `MallocCode.Allocator.AllocPages` | lab8/lib/malloc.c:98-105 | maps all the pages with the right continuation bits, or none; none from UTOP on |
| `MallocCode.Allocator.TakeInPage` | lab8/lib/malloc.c:63-69 | one more block at the cursor; the invariant is kept unless the reference word wraps |
| `MallocCode.Allocator.LeavePage` | lab8/lib/malloc.c:73-74 | the cursor moves to the next page and no block changes |
| `MallocCode.Allocator.Search` | lab8/lib/malloc.c:83-93 | ends within two wraps; finds free pages, or there is no room anywhere in the region; from beyond the region it ends at an address whose request wraps |
| `MallocCode.Allocator.AllocHere` | lab8/lib/malloc.c:95-111 | one new block, or nothing changes for lack of memory |
| `MallocCode.Allocator.Alloc` | lab8/lib/malloc.c:41-112 | one new block disjoint from the others, in the current page if it fits there; it fails only for size, room, memory or a cursor beyond the region, and then no block changes; the invariant is kept unless a reference word wraps |
| `MallocRuns.Call` | lab8/lib/malloc.c:41-139 | one call of malloc or free keeps the invariant and changes the live blocks as it should |
| `MallocRuns.Run` | lab8/lib/malloc.c:41-139 | the invariant holds in every state of every sequence of calls |
| `MallocRuns.BlockStays` | lab8/lib/malloc.c:41-139 | a block is where it was, with its size, in every later state until it is freed |
| `EnvTable.IdsAre` | lab8/kern/env.c:358-362 | the id of a slot after n allocations |
| `EnvTable.IdComesBack` | lab8/kern/env.c:358-362 | an id comes back exactly after a multiple of 2^19 - 1 allocations |
| `EnvTable.LiveIdsDistinct` | lab8/kern/env.c:358-362 | the index of a live id is its slot, so live ids are distinct |
| `EnvTable.FindExact` | lab8/kern/env.c:84-118 | id zero finds the current environment; any other finds a slot if and only if the slot is live, has that id and, where asked, is the caller or its child |
| `EnvTable.AllocInv` | lab8/kern/env.c:344-407 | allocation makes the first free slot a runnable environment with the given parent and changes no other; a failed one changes nothing; the free list is exactly the free slots |
| `EnvTable.NewEnvFound` | lab8/kern/env.c:358-367 | the caller finds its new child by id with permission checked, and live environments are found as before |
| `EnvTable.ReleaseInv` | lab8/kern/env.c:642-645 | freeing puts the slot in front of the list, changes no other slot and no id, and keeps all that |
| `EnvTable.StepInv` | lab8/kern/env.c:344-407 | so does every operation on the table |
| `EnvTable.RunIds` | lab8/kern/env.c:344-407 | over every run the table stays well formed and an id depends only on how often its slot was allocated |
| `EnvTable.StaleIdIff` | lab8/kern/env.c:95-104 | whatever happens in between, an old id is accepted if and only if its slot is live and was allocated a multiple of 2^19 - 1 times since |
| `EnvTable.EnvArray.constructor` | lab8/kern/env.c:126-137 | all slots are free, in the order of the array |
| `EnvTable.EnvArray.EnvAlloc` | lab8/kern/env.c:344-407 | the code computes that allocation |
| `EnvTable.EnvArray.EnvFree` | lab8/kern/env.c:642-645 | the code computes that release |
| `Sched.SearchNearest` | lab8/kern/sched.c:51-85 | the search gives the cyclically nearest runnable slot, or there is none |
| `Sched.SearchCloser` | lab8/kern/sched.c:51-85 | a runnable environment that is passed over is closer afterwards |
| `Sched.Dispatched` | lab8/kern/sched.c:51-106 | an environment that stays runnable is dispatched within its distance, at most NENV yields |
| `Sched.StartsOver` | lab8/kern/sched.c:51-58 | with no current environment the search starts at slot 1 whoever has waited |
| `Sched.EnvRunSwitches` | lab8/kern/env.c:701-727 | env_run makes the environment running, the one that ran before runnable, and changes no other status or processor; going back to the current one changes nothing |
| `Sched.SwitchInv` | lab8/kern/env.c:701-727 | switching to a runnable environment keeps the processors apart, and its assertion holds |
| `Sched.YieldInv` | lab8/kern/sched.c:29-106 | so does yielding |
| `Sched.YieldMeans` | lab8/kern/sched.c:29-106 | a yield is such a switch to the nearest runnable environment; with none nothing changes |
| `Sched.Fair` | lab8/kern/sched.c:29-106 | on one processor, from every state with a current environment, any number of yields leaves an environment that can run able to run, and within NENV of them it is the current one |
| `Sched.EntryMeans` | lab8/kern/trap.c:238-278 | a trap with nothing to do returns to the environment, a new environment is runnable and nothing else changes |
| `Sched.DestroyMeans` | lab8/kern/env.c:653-669 | env_destroy frees an environment that runs nowhere or here, marks one that runs elsewhere dying, and changes nothing else |
| `Sched.ZombieGone` | lab8/kern/trap.c:247-251 | a dying environment is free after the next kernel entry of its processor, whatever that is for |
| `Sched.DestroyIff` | lab8/kern/env.c:653-669 | destroying keeps the processors apart if and only if the environment is not dying on another processor |
| `Sched.EnterInv` | lab8/kern/trap.c:238-278 | every kernel entry keeps the processors apart and never fails env_run's assertion |
| `Sched.RunInv` | lab8/kern/trap.c:238-278 | in every run no environment is current on two processors, and running or dying means current on exactly one |
| `Sched.BootRuns` | lab8/kern/init.c:104-133 | in every state reached from boot, with env_create on processors that have no environment yet, that holds |
| `Sched.BothRun` | lab8/kern/init.c:113-133 | such a run in which two environments are created and both processors run one |
| `Sched.WithoutLock` | lab8/kern/sched.c:51-106 | if two processors search before either switches, both run the same environment |
| `Sched.DestroyedTwice` | lab8/kern/env.c:653-669 | destroying a dying environment leads to one slot current on two processors |
| `Sched.Machine.EnvRun` | lab8/kern/env.c:701-727 | the code computes that switch |
| `Sched.Machine.SchedYield` | lab8/kern/sched.c:29-133 | the loop computes that choice; the monitor is entered exactly if no environment is left |
| `Spinlock.StepInv` | lab8/kern/spinlock.c:38-124 | every access keeps: at most one holder, the lock word set exactly if there is one, the owner null or the holder |
| `Spinlock.HolderSees` | lab8/kern/spinlock.c:38-43 | a processor finds itself as owner exactly while it is recorded as holder |
| `Spinlock.XchgWins` | lab8/kern/spinlock.c:71-72 | an xchg on a free lock makes its caller the holder, and one on a taken lock changes nothing |
| `Spinlock.LockAndUnlock` | lab8/kern/spinlock.c:60-124 | a processor that finds the lock free and is undisturbed holds it after four accesses, and five more leave everything as it was |
| `Spinlock.RunInv` | lab8/kern/spinlock.c:38-124 | that holds after every interleaving |
| `Spinlock.MutualExclusion` | lab8/kern/spinlock.c:60-124 | from the initial lock no interleaving has two holders |
| `Spinlock.MisuseCaught` | lab8/kern/spinlock.c:63-107 | locking twice and unlocking what one does not hold always end in a panic |
| `Spinlock.BracketedNeverPanics` | lab8/kern/spinlock.c:60-124 | callers that lock and unlock in turn never panic |
| `Leb128.ReadUleb` | lab8/kern/libdwarf_rw.c:196-214 | the offset-based unsigned decoder computes the common decoding of the bytes at the offset |
| `Leb128.ReadSleb` | lab8/kern/libdwarf_rw.c:173-194 | the same for signed numbers |
| `Leb128.DecodeUleb` | lab8/kern/libdwarf_rw.c:239-257 | the pointer-based unsigned decoder computes the same decoding |
| `Leb128.DecodeSleb` | lab8/kern/libdwarf_rw.c:216-237 | the same for signed numbers |
| `Leb128.GroupsFold` | lab8/kern/libdwarf_rw.c:246-252 | the loop reads exactly to the first byte without continuation bit |
| `Leb128.FoldU` | lab8/kern/libdwarf_rw.c:246-252 | decoding an encoding of up to five bytes keeps the low 32 bits as an int |
| `Leb128.FoldRanged` | lab8/kern/libdwarf_rw.c:246-252 | whatever the bytes, the decoded value is in the range of an int |
| `Leb128.FoldTop` | lab8/kern/libdwarf_rw.c:246-252 | a value from 2^64 - 2^31 on decodes to its lowest three bits under ones |
| `Leb128.UlebRoundTrip` | lab8/kern/libdwarf_rw.c:239-257 | for every 64-bit value decoding consumes exactly the encoding, and undoes it if and only if the value is below 2^31 or one of the last eight |
| `Leb128.SlebRoundTrip` | lab8/kern/libdwarf_rw.c:216-237 | for every 64-bit value decoding consumes exactly the encoding, and undoes it if and only if the value is in [-2^31, 2^31) |
| `DwarfRead.FixedBound` | lab8/kern/libdwarf_rw.c:45-171 | a fixed-size operand is a 64-bit number |
| `DwarfRead.FixedOperand` | lab8/kern/libdwarf_rw.c:45-171 | a number of 1, 2, 4 or 8 bytes reads back in either byte order |
| `DwarfRead.UnsignedOperand` | lab8/kern/libdwarf_rw.c:239-257 | an unsigned operand below 2^31 reads back and its bytes are consumed |
| `DwarfRead.SignedOperand` | lab8/kern/libdwarf_rw.c:216-237 | a signed operand in [-2^31, 2^31) reads back and its bytes are consumed |
| `DwarfRead.ReversedBytes` | lab8/kern/libdwarf_rw.c:45-171 | reading most significant byte first is reading the reversed bytes least significant first |
| `LineProgram.SpecialOpcode` | lab8/kern/libdwarf_lineno.c:90-91 | the opcode made for a line and an address advance gives exactly these back |
| `LineProgram.FusedFinds` | lab8/kern/libdwarf_lineno.c:50-211 | after any number of turns the interpreter has the last row and the length of the longest prefix of the row sequence at or below pc |
| `LineProgram.FoundForGood` | lab8/kern/libdwarf_lineno.c:74-88 | once it has returned, a longer table gives the same |
| `LineProgram.AdvancesIff` | lab8/kern/libdwarf_lineno.c:102-199 | a turn moves the read pointer forward if and only if it is not at an unknown extended opcode whose size wraps the pointer to it or before it |
| `LineProgram.ForwardEnds` | lab8/kern/libdwarf_lineno.c:102-199 | a run without such a turn ends within one turn for each byte left; a run that never ends has one |
| `LineProgram.ReturnsIff` | lab8/kern/libdwarf_lineno.c:102-199 | for a pc no row is beyond, a program comes back if and only if it does within as many turns as its end address, since the pointer depends on the bytes alone |
| `LineProgram.RunProgram` | lab8/kern/libdwarf_lineno.c:50-211 | on every program on which it comes back the loop leaves what a search of the whole table finds |
| `LineProgram.EndlessProgram` | lab8/kern/libdwarf_lineno.c:128-131 | a seven-byte program that brings the machine back to its state |
| `LineProgram.NeverReturns` | lab8/kern/libdwarf_lineno.c:102-131 | on those bytes it never comes back, whatever pc is asked for |
| `LineAsm.StepMeans` | lab8/kern/libdwarf_lineno.c:102-199 | one turn on the bytes of an instruction does to registers and rows what the instruction means, and consumes exactly its bytes |
| `LineAsm.RowsRun` | lab8/kern/libdwarf_lineno.c:102-199 | the table built from the bytes of a program is the table the program means, and the run ends within one turn for each instruction |
| `LineAsm.Lookup` | lab8/kern/libdwarf_lineno.c:50-211 | given the bytes of any program, the interpreter comes back and leaves what a search of that table finds |
| `CallFrame.OneRule` | lab8/kern/libdwarf_frame.c:146-363 | an instruction other than restore_state changes at most one register's rule |
| `CallFrame.FailsIff` | lab8/kern/libdwarf_frame.c:146-363 | an instruction fails with an execution error if and only if its opcode is none of the standard's, with a register error if and only if it names a register beyond the table, and fails an assertion if and only if it restores a state when none was remembered |
| `CallFrame.ScaledIs` | lab8/kern/libdwarf_frame.c:146-363 | a factored operand is the 64-bit word that differs from the product by a multiple of 2^64 |
| `CallFrame.MovedKeepsRow` | lab8/kern/libdwarf_frame.c:158-208 | a move changes only the location |
| `CallFrame.EarlyIsPick` | lab8/kern/libdwarf_frame.c:146-366 | stopping early leaves the row of the full table that a search for the request picks, and fails exactly if the full run fails before it |
| `CallFrame.PickIsLast` | lab8/kern/libdwarf_frame.c:158-208 | with increasing locations that is the last row at or before the request |
| `CallFrame.LargestNeverStops` | lab8/kern/libdwarf_frame.c:403-411 | the request used for the CIE never stops its program |
| `CallFrame.EarlyForGood` | lab8/kern/libdwarf_frame.c:365-366 | a run that has ended stays as it is |
| `CallFrame.RowsSized` | lab8/kern/libdwarf_frame.c:127-135 | every row of every run has a rule for each register of the table |
| `CallFrame.ProperInst` | lab8/kern/libdwarf_frame.c:172-177 | where the side condition holds, an instruction does what the standard's stack machine does |
| `CallFrame.ProperRows` | lab8/kern/libdwarf_frame.c:146-363 | a program that meets it throughout has the rows the stack machine gives it |
| `CallFrame.ShadowHolds` | lab8/kern/libdwarf_frame.c:141-143 | in every run the one shadow table is the table at the last remember_state, or the initial rules if there was none |
| `CallFrame.RestoreIff` | lab8/kern/libdwarf_frame.c:172-177 | in every run, restore and restore_extended fail exactly for a register beyond the table, and give back the initial rule if and only if nothing was remembered or the table remembered last has that rule |
| `CallFrame.RestoreStateGives` | lab8/kern/libdwarf_frame.c:247-253 | in every run, restoring a state gives back the whole table remembered last; it fails an assertion if and only if there is none |
| `CallFrame.SharedShadow` | lab8/kern/libdwarf_frame.c:81-94 | a four-byte program on which the shared shadow gives another rule than the standard |
| `CallAsm.ApplyMeans` | lab8/kern/libdwarf_frame.c:146-363 | the bytes of every instruction other than remember_state move the location or set the rule that the instruction means |
| `CallAsm.StackMeans` | lab8/kern/libdwarf_frame.c:146-363 | the same for the stack machine, remembering included |
| `CallAsm.RowsMean` | lab8/kern/libdwarf_frame.c:146-363 | the rows made of the bytes of a program are the rows the program means |
| `CallAsm.DisciplinedProper` | lab8/kern/libdwarf_frame.c:247-253 | the condition on the list of instructions gives the side condition of every turn |
| `CallAsm.LookupMeans` | lab8/kern/libdwarf_frame.c:111-373 | for every disciplined program the interpreter stopped at a request leaves the row picked from the rows the program means |
| `CallAsm.EncodedReturns` | lab8/kern/libdwarf_frame.c:146-366 | on the bytes of any program, disciplined or not, a run ends within one turn for each instruction |
| `CallAsm.Lookup` | lab8/kern/libdwarf_frame.c:111-373 | the same of the code itself: on the bytes of every disciplined program it comes back with the picked row and status |
| `CallFrame.AdvancesIff` | lab8/kern/libdwarf_frame.c:146-363 | an instruction moves the read pointer forward if and only if it has no block whose length wraps the pointer to it or before it |
| `CallFrame.ForwardEnds` | lab8/kern/libdwarf_frame.c:146-366 | a run without such an instruction ends within one turn for each byte left; a run that never ends has one |
| `CallFrame.NeverReturns` | lab8/kern/libdwarf_frame.c:281-288 | a six-byte program from which the interpreter never comes back |
| `CallFrame.RegtableCopy` | lab8/kern/libdwarf_frame.c:81-109 | copies the common rules and makes the rest undefined; with equal sizes a full copy |
| `CallFrame.Frames.RunInst` | lab8/kern/libdwarf_frame.c:111-373 | on every program on which it comes back the loop leaves the picked row of the full table, or the full run's error |
| `CallFrame.Frames.GetInternalTable` | lab8/kern/libdwarf_frame.c:375-427 | if both programs come back: the CIE's whole run makes the initial rules, and the FDE's rows for the request are picked from a run that starts with them |
| `FsImage.SetBitOnly` | lab8/fs/fs.c:28-46 | changing the bit of one block changes no other block's bit |
| `FsImage.FreeBlock` | lab8/fs/fs.c:38-46 | frees that block and no other, and refuses block 0 |
| `FsImage.CheckSuper` | lab8/fs/fs.c:10-20 | accepts exactly if the magic number is right and every block the super-block counts has its place inside the disk map |
| `FsImage.CheckBitmap` | lab8/fs/fs.c:72-86 | accepts exactly if blocks 0, 1 and the bitmap are in use |
| `FsImage.Rounding` | lab8/fs/fsformat.c:34-34 | ROUNDUP on unsigned numbers and on ints: both whole blocks, but the int zero becomes one block |
| `FsImage.ReadBack` | lab8/fs/fsformat.c:140-154 | a finished file reads back block by block through its slots |
| `FsFormat.DirAtIs` | lab8/fs/fsformat.c:257-267 | an input goes to the directory of the last switch before it, and to the root if there is none |
| `FsFormat.RecordsFrom` | lab8/fs/fsformat.c:175-184 | a finished directory reads back as its list of records |
| `FsCode.FinishedFile` | lab8/fs/fsformat.c:140-154 | a data run and the slots finishfile writes make up the file |
| `FsCode.Disk.Alloc` | lab8/fs/fsformat.c:87-95 | takes whole blocks, and panics exactly if the disk is then full |
| `FsCode.Disk.FinishFile` | lab8/fs/fsformat.c:140-154 | direct slots, and an indirect block from ten blocks on, name the run in order |
| `FsCode.Disk.PutData` | lab8/fs/fsformat.c:211-212 | the input's blocks go to the run and nowhere else |
| `FsFormat.OwnedFile` | lab8/fs/fsformat.c:210-213 | a finished file adds exactly the blocks its input needs |
| `FsFormat.OwnedDir` | lab8/fs/fsformat.c:175-184 | a finished directory adds exactly the blocks its records need |
| `FsCode.Disk.WriteFile` | lab8/fs/fsformat.c:210-213 | one more file on fresh blocks, every block still with one owner; it fails exactly if the blocks do not suffice |
| `FsCode.Disk.FinishDir` | lab8/fs/fsformat.c:175-184 | the records on fresh blocks; an empty directory claims the next block without taking it |
| `FsCode.Disk.FinishDisk` | lab8/fs/fsformat.c:128-138 | exactly the blocks from the high-water mark on are free |
| `FsCode.Disk.constructor` | lab8/fs/fsformat.c:97-126 | boot block, super-block and bitmap |
| `FsMain.Refused` | lab8/fs/fsformat.c:186-215 | an input that is refused does not fit |
| `FsMain.FinishSub` | lab8/fs/fsformat.c:285-287 | one subdirectory, finished while the earlier ones stay |
| `FsMain.Finish` | lab8/fs/fsformat.c:285-290 | the four directories and the bitmap; a non-empty directory is on the disk, an empty one claims another's block |
| `FsMain.Format` | lab8/fs/fsformat.c:224-291 | an image is made if and only if the arguments fit; every block below the exact high-water mark is needed by an input or a directory and no two by the same, all inputs are listed, the rest is free, and both mount checks accept |
| `FsMain.Partition` | lab8/fs/fsformat.c:224-291 | of such an image: a block that an input, a directory or the file system needs is below the high-water mark exactly once, and nothing else is |
| `FsMain.InputReadable` | lab8/fs/fsformat.c:224-291 | every input is found from the root directory and reads back |
| `FsMain.InputPlaced` | lab8/fs/fsformat.c:140-154 | every block an input needs, its indirect block included, is below the high-water mark |
| `FsMain.DirPlaced` | lab8/fs/fsformat.c:175-184 | so is every block a directory's records need |
| `InitStack.ComputedWraps` | lab8/lib/spawn.c:204-212 | the checked address is the lowest one used, or wraps beyond the page if that is negative |
| `InitStack.Store` | lab8/lib/spawn.c:235-244 | writes the bytes in place and nothing else, or faults exactly if they do not lie in the page |
| `InitStack.Fill` | lab8/lib/spawn.c:235-246 | the stores make up the whole stack page, or the first of them faults exactly if the addresses wrap |
| `InitStack.FillOne` | lab8/lib/spawn.c:235-239 | one pointer and one string more, the earlier ones untouched |
| `InitStack.Build` | lab8/lib/spawn.c:185-246 | the page is built exactly if it fits and memory is there; the first store faults exactly if the addresses wrap; the closing assertion holds |
| `InitStack.ReadBack` | lab8/lib/spawn.c:219-246 | through child addresses argc, argv, every string and the null pointer read back exactly |
| `InitStack.ManyEmptyStrings` | lab8/lib/spawn.c:204-212 | half a million empty strings pass the check although their addresses are negative |

## Left out

- PmapCode.Pmap.PageInsert: asks that the page is not free and not a live table and, unless it is mapped there already, has a count below 65535; `TableOps.InsertLeafIff` says what happens at 65535.
- PageRuns.Run: clients map only pages they have in hand or find mapped, and share none whose count is 65535.
- PipeEof.EndOfFileIsReal: what the kernel itself does to a page mapped 2^16 times is not part of this model.
- MallocRuns.Run: a request whose reference word would wrap, or whose search would come round to address 0, is not made.
- PmapCode.Pmap.Pml4eWalk: addresses in the two slots every root shares with the kernel are outside the user map; the kernel's own mapping is not modelled.
- PmapCode.Pmap.PageLookup: the same.
- PmapCode.Pmap.PageRemove: the same.
- MallocCode.Allocator.Alloc: asks that no request of less than a page is searched for from the end of the region on; its cursor comes round to address 0 (`MallocCode.LostBeyondEnd`), and the pages there are the program's, not the heap's.
- MallocCode.Allocator.Search: the same.
- MallocCode.StartsAtEnd: says that the heap satisfies the invariant, not which requests lead to it.
- Ept.FreeGuest: asks that one path leads to each slot and that the counts cover the slots; guest insertion does not keep such counts, so nothing is claimed about it.
- LineProgram.RunProgram: a run that never comes back has no result, so the method asks that it does (`LineProgram.Returns`); a pc test can also end a program that jumps back.
- LineProgram.AdvancesIff: memory ends at least 64 bytes before the last address.
- CallFrame.AdvancesIff: the same.
- CallFrame.Frames.RunInst: asks that the run comes back (`CallFrame.Returns`), as above.
- CallFrame.Frames.GetInternalTable: the same for both its runs.
- LineAsm.StepMeans: LEB128 operands are below 2^31, or in the signed range that reads back.
- CallAsm.ApplyMeans: LEB128 operands are below 2^31, or in the signed range that reads back.
- PipeRing.PrefixDelivered: positions stay below 2^31, the range in which the int counters do not overflow.
- InitStack.Build: a store outside the page at UTEMP is taken to fault; the strings take less than 2^63 bytes and there are fewer than 2^28 of them; mapping the page into the child is left out.
- Sched.EnterInv: takes each kernel entry as one step, which the lock as this tree takes it does not guarantee; guest environments, and statuses set by system calls that only panic in this tree, are left out.
- FsMain.Format: file names and types, and the contents of a block beyond which block of which file it is, are left out.
- boot_map_region, the TLB and the page tables' effect on hardware: no state of the model depends on them.
- Section headers, CIE and FDE parsing and pointer encodings of the DWARF reader: input plumbing.
- EPT lookup and insertion: the code indexes the returned entry again, so there is no map to agree with.
- VMCS setup, traps, interrupt controllers, disk, network and console drivers: hardware.
- lwIP, the network server, the shell, the monitor and the test programs.
- Functions that only panic: most system calls, fork, block allocation in the file server.
