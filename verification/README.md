# A verified model of the harness's core algorithms

The harness runs litmus tests on bare hardware, so it brings its own locks, barriers, heap, page
tables, string matcher, hash and devicetree reader, and it decides where in memory a test runs and
what its outcomes were. This project models these parts in Dafny and proves what the rest of the
harness relies on. `dafny verify dfyconfig.toml` checks everything.

| file | models |
|---|---|
| `Lamport.dfy` | the bakery lock, one memory access at a time, for any number of CPUs |
| `Barrier.dfy` | the reusable barrier `bwait` over a lock, one access at a time |
| `BakeryBarrier.dfy` | the barrier over the bakery lock, interleaving single accesses of both |
| `VallocRegions.dfy` | the heap as sets of regions: the invariant that makes coalescing work |
| `Valloc.dfy` | the allocator as functions on the bar, the free list and the allocations |
| `Words.dfy`, `FreeList.dfy`, `AllocList.dfy`, `Mempool.dfy` | the allocator in place: free-list headers in the bytes of the free memory, allocation records on two linked lists, and the pool, each method proved equal to its function in `Valloc.dfy` |
| `Descriptors.dfy` | page-table descriptors as bit fields of a 64-bit word |
| `PageTables.dfy` | the tree of table pages and the code that extends it, walks it and maps ranges |
| `Tlb.dfy` | break-before-make: `vmm_update_pte` interleaved with table walks that fill the TLB |
| `Glob.dfy` | the backtracking glob matcher against a declarative meaning of patterns |
| `Concretize.dfy` | the random concretizer of test variables against the independent postchecks |
| `Aliases.dfy` | the translator's search that orients page-table aliases and fills in values |
| `HashVector.dfy`, `HashWriter.dfy` | the vector of a test: what it holds, that a test can be read back from it, and the code that writes it |
| `VectorExample.dfy` | the vector of an example test, byte by byte |
| `Sha1.dfy`, `Sha1Example.dfy` | SHA-1 and its padding against FIPS 180-4, and the standard's own example step by step |
| `Results.dfy` | the histogram of outcomes with its lookup table, against counting without one |
| `Devicetree.dfy` | the walkers over a flattened devicetree, against the tree |
| `Bits.dfy` | the arithmetic of the alignment macros |

How to read it:

- Concurrent code is a state machine: a program counter per CPU or thread, one shared-memory access
  per step, sequential consistency (the barriers of the code are no-ops). A run is a schedule, and
  the theorems quantify over every schedule. `Lamport.dfy`, `Barrier.dfy` and `Tlb.dfy` end in a class
  that holds the same state in fields and takes the same steps.
- 64-bit words are naturals. `Step32`, `NoWrap`, `IsAddress` and the `LIMIT` preconditions say where
  the width matters.
- A call that stops the machine (`fail`, `abort`) returns `ok == false`, `Failed` or a status; what
  memory looks like afterwards is not specified.
- Bytes are `Byte` in the heap and `char` where the code reads them as text. Random choices, the
  order of hash maps and the attempts of the concretizer are parameters or arbitrary choices.
- Where the code does not do what its comments or names promise, the model does what the code does,
  and a lemma says exactly when the promise holds: `AgreesExactly`, `StackSafeExactly`,
  `AlignmentKeptExactly`, `FreeableExactly`, `RoundTripExactly`, `SplitBlock`, `VmmPaExactly`,
  `ExactlyAdequate`, `OneStateExactly`, `LookupFitsExactly`, `NamestackExactly`.

Where code and documentation differ:

- The comment of `re.c` describes wildcards that match anything. In the code a wildcard that ends the
  pattern must match at least one character, and two wildcards in a row never match
  (`lib/re/re.c:140-158`, `207-213`).
- `alloc_with_alignment` forgets the requested alignment when the size is below that of a free-list
  header (`lib/valloc/valloc.c:99-102`).
- `free` is meant to take the start of a block. For an address inside a block it takes the block off the
  allocations, but gives back the bytes that start at the address (`lib/valloc/valloc.c:145-157`).
- The checks for overlapping regions in `update_table_from_vmregion_map` compare with a previous region
  that is never updated, so they never fail (`lib/arch/vmm/vmm_pgtable.c:234-248`).
- `vmm_ensure_level` is meant to split a block, but repeats the block's own descriptor
  (`lib/arch/vmm/vmm.c:83-89`).
- `vmm_pa` takes one bit too many of the virtual address (`lib/arch/vmm/vmm.c:185`).
- The vector of a test also holds the name of each variable, which its description leaves out
  (`lib/litmus_test/litmus_test_hash.c:26-32`, `180`).
- The translator declares a symbolic address that has aliases but no value unmapped twice
  (`tools/litmus-toml-translator/src/litmus.rs:574-582`).
- The lookup table of the histogram has 200 entries, so with four registers or more an outcome can
  have an index outside it (`lib/litmus_test/litmus_test_ctx.c:71-75`).
- At level 3 the attribute `nT` and the output address share bit 16
  (`lib/arch/vmm/vmm_entries.c:11`, `70`).

## Model

| member | source | states |
|---|---|---|
| Lamport.Step | lib/arch/sync.c:32-70 | one shared-memory access of `lamport_lock`, `get_ticket`, `lex_less` or `lamport_unlock` by one CPU, keeping the number of CPUs and the loop indices in range; SmallestTicketInside, InTicketOrder and SecondReadCounts say in which order the steps let CPUs in and what a scan reads |
| Lamport.MutualExclusion | lib/arch/sync.c:47-70 | after any schedule of single accesses, any two CPUs that hold the lock are the same CPU, although `get_ticket` reads each number twice |
| Lamport.FirstComeFirstServed | lib/arch/sync.c:49-62 | a CPU that has left its doorway before another begins its own enters first: the other never gets in while the first has not been in |
| Lamport.SmallestTicketInside | lib/arch/sync.c:43-62 | whoever holds the lock has the smallest ticket of all CPUs that hold one, and of equal tickets that of the lowest CPU |
| Lamport.InTicketOrder | lib/arch/sync.c:43-62 | of two CPUs that hold tickets, the one with the smaller ticket, or the lower one of equal tickets, enters first: the other never gets in while it has not been in |
| Lamport.SecondReadCounts | lib/arch/sync.c:33-38 | when a slot beats the running maximum, the new maximum is what the slot holds by its second read, whatever the other CPUs have done since the first |
| Lamport.NoDeadlock | lib/arch/sync.c:54-62 | whenever some CPU wants the lock and none holds it, the CPUs that want it have a finite run, in which nobody else moves, that lets one of them in |
| Lamport.NumbersCountTickets | lib/arch/sync.c:32-41 | no ticket or running maximum ever exceeds the number of tickets published so far |
| Lamport.NoWrapAround | lib/arch/sync.c:32-41 | with tickets in 32 bits every run is the same as with unbounded ones until 2^32 - 2 tickets have been taken |
| Lamport.Lock.Advance | lib/arch/sync.c:32-70 | the lock in its arrays: one access by CPU i changes memory and program counter as the state machine says |
| Lamport.Lock.Execute | lib/arch/sync.c:32-70 | a whole schedule on the lock in its arrays is the run of the state machine |
| Barrier.Step | lib/arch/sync.c:165-226 | one access of `bwait` by one thread, with the decrement done atomically or under the lock |
| Barrier.NoEarlyReturn | lib/arch/sync.c:165-226 | no thread has returned from its r-th call before every thread has begun its r-th call |
| Barrier.OneRoundAhead | lib/arch/sync.c:173-189 | no thread has begun more than one call more than another |
| Barrier.InnerWaitNeverSpins | lib/arch/sync.c:177-185 | with exactly sz participants a thread that tests `waiting` at the start of a new round finds it zero |
| Barrier.WaitingCounts | lib/arch/sync.c:191-215 | `waiting` is always the number of threads counted in and not yet out, and is never decremented below zero |
| Barrier.NeverDeadlocks | lib/arch/sync.c:165-226 | from every reachable state, the threads can be run so that all of them complete any given number of calls |
| Barrier.Arrival | lib/arch/sync.c:171-205 | a thread that arrives, undisturbed, while the round is being filled counts itself in under the lock, lets go of it, and only then reads the iteration |
| Barrier.LastArrival | lib/arch/sync.c:191-205 | the last to arrive opens the barrier before it lets go of the lock |
| Barrier.Reopening | lib/arch/sync.c:177-191 | a thread that arrives after a drained round raises the iteration and then closes the barrier, without letting go of the lock before it counts itself in |
| Barrier.InnerWait | lib/arch/sync.c:178-185 | while the last round is not drained, the lock is handed out and taken again, and nothing else changes |
| Barrier.Departure | lib/arch/sync.c:206-210 | with page tables on, a thread counts itself out of an open barrier in one access |
| Barrier.LockedDeparture | lib/arch/sync.c:211-215 | without page tables it does so in a read and a write under the lock |
| Barrier.FinalWait | lib/arch/sync.c:224-225 | the last loop is left exactly when the next round has begun or this one is drained, and otherwise looks again |
| BakeryBarrier.RunRefines | lib/arch/sync.c:9-27 | every run of the barrier over the bakery lock is a run of the barrier over an atomic lock, and a run of the bakery lock |
| BakeryBarrier.NoEarlyReturn | lib/arch/sync.c:165-226 | with the page tables off, no thread has returned from its r-th call before every thread has begun its own, whatever single accesses of lock and barrier are interleaved |
| BakeryBarrier.NeverDeadlocks | lib/arch/sync.c:165-226 | from every reachable state of the threads in the barrier and inside the lock, they can be run so that all complete any given number of calls |
| Barrier.Bar.Advance | lib/arch/sync.c:165-226 | the barrier in its fields: one access by a thread changes them as the state machine says |
| Barrier.Bar.Execute | lib/arch/sync.c:165-226 | a whole schedule on the barrier in its fields is the run of the state machine |
| Bits.AlignPow2Spec | inc/bitwise.h:24 | `ALIGN_POW2` never goes up, and for a power of two lands on the multiple just below |
| Bits.AlignUpToSpec | inc/bitwise.h:26 | `ALIGN_UP_TO` keeps a multiple of a power of two, and moves any other number to the second multiple above it |
| VallocRegions.CarveSettled | lib/valloc/valloc_freelist.c:61-86 | carving a block out of a free chunk keeps all regions disjoint and a block between any two free chunks and between the bar and each of them |
| VallocRegions.MergeSettledBut | lib/valloc/valloc_freelist.c:106-125 | merging two chunks with no block between them, one of which is being coalesced, swallows no other region and leaves only the merged chunk to be coalesced |
| VallocRegions.RaiseLayout | lib/valloc/valloc_freelist.c:160-176 | when no block starts between the bar and the lowest chunk, moving the bar past that chunk settles the heap |
| VallocRegions.NothingLive | lib/valloc/valloc_freelist.c:178-181 | coalescing is complete: a settled heap without blocks has an empty free list |
| Valloc.AllocFailsExactly | lib/valloc/valloc.c:63-93 | an allocation stops the machine exactly when all 1024 records are in use, or no free chunk reaches beyond the first aligned address in it plus the size and what is below the bar does not suffice |
| Valloc.AllocReuses | lib/valloc/valloc_freelist.c:26-86 | whenever a chunk has room, the bar stays and the block is at the first aligned address of the smallest such chunk, the earliest of them in the list; what is left on either side stays free if it is more than 24 bytes |
| Valloc.AllocLowersBar | lib/valloc/valloc.c:75-92 | when no chunk has room, the free list stays and the block is everything from the next aligned address below up to the old bar |
| Valloc.AllocIs | lib/valloc/valloc.c:118-143 | `alloc` allocates the smallest power of two that is at least the size and at least 32, on a multiple of 8 |
| Valloc.AllocAlignedIs | lib/valloc/valloc.c:95-116 | `alloc_with_alignment` allocates what it is asked for, except that sizes below 24 become 32 on a multiple of 64, and alignments below 32 become 64 |
| Valloc.AllocBlockKeepsInv | lib/valloc/valloc.c:63-93 | an allocation adds one block, inside the heap, disjoint from all blocks, of at least the size, aligned for a power of two, and keeps the heap settled |
| Valloc.FreeKeepsInv | lib/valloc/valloc.c:145-157 | for an address that is not inside a block, free takes away exactly the block that starts there and leaves the heap settled; it stops the machine exactly when there is none |
| Valloc.FreeGivesBack | lib/valloc/valloc.c:145-157 | free gives back every byte of the block, and every byte that could be handed out before still can: it is below the bar or in a free chunk |
| Valloc.FreeableExactly | lib/valloc/valloc.c:145-157 | free stops the machine exactly when no block starts at the address, on exactly the addresses that are not inside a block |
| Valloc.FreeInsideBreaks | lib/valloc/valloc.c:145-157 | for every address inside the lower of two touching blocks, free goes on and leaves a heap that is not settled any more |
| Valloc.EveryRunSettled | lib/valloc/valloc.c:10-157 | over every run of `alloc`, `alloc_with_alignment` and `free` from an empty heap the regions are disjoint, inside the heap and coalesced, and with no block left the free list is empty |
| Valloc.AlignmentKeptExactly | lib/valloc/valloc.c:95-116 | `alloc_with_alignment` returns aligned blocks on every heap exactly when the size is at least that of a header or the alignment at most 64 |
| Valloc.FreeUndoesAlloc | lib/valloc/valloc.c:75-92 | freeing a block just taken from above the bar gives back exactly the heap there was |
| Words.DecodeEncode | lib/valloc/valloc_freelist.c:16-24 | a 64-bit word stored in little-endian bytes is read back |
| Headers.PushedIsList | lib/valloc/valloc_freelist.c:16-24 | the four stores of a push make a doubly linked list with the new chunk in front and every other chunk as it was |
| Headers.UnlinkedIsList | lib/valloc/valloc_freelist.c:90-97 | the two stores of a removal leave the doubly linked list of all other chunks |
| Headers.UnlinkedSizes | lib/valloc/valloc_freelist.c:69-73 | a removed chunk's own size can still be read |
| FreeMemory.HeadersKept | lib/valloc/valloc.c:188-199 | writing outside the headers changes nothing in the free list |
| FreeMemory.FreeList.Push | lib/valloc/valloc_freelist.c:16-24 | adds exactly this chunk in front, writing to no byte but those of headers |
| FreeMemory.FreeList.Remove | lib/valloc/valloc_freelist.c:90-97 | takes exactly the k-th chunk out, writing to no byte but those of headers |
| FreeMemory.FreeList.FindBest | lib/valloc/valloc_freelist.c:30-48 | the loop returns the chunk at the position `Valloc.Best`, or NULL if there is none |
| FreeMemory.FreeList.Split | lib/valloc/valloc_freelist.c:61-86 | puts the block and what is worth keeping on either side on the list, in the code's order, writing only inside the old chunks; fails exactly when the block does not fit |
| FreeMemory.FreeList.Possibility | lib/valloc/valloc_freelist.c:106-125 | merges and goes on coalescing exactly when the chunks touch or no block starts between them |
| FreeMemory.FreeList.CompactTogether | lib/valloc/valloc_freelist.c:127-142 | the mutually recursive coalescing terminates and leaves the list that `Valloc.Compact` computes |
| FreeMemory.FreeList.NextFreeChunk | lib/valloc/valloc_freelist.c:144-156 | returns the chunk with the lowest address, or NULL exactly when the list is empty |
| FreeMemory.FreeList.ShiftTop | lib/valloc/valloc_freelist.c:160-176 | leaves the bar and the list that `Valloc.ShiftTop` computes |
| FreeMemory.FreeList.Memset | lib/valloc/valloc.c:188-199 | fills exactly the given bytes, and leaves the free list alone if they are not free |
| AllocRecords.Unlinked | lib/valloc/valloc_alloclist.c:4-16 | the first half of `swap` leaves the list of all other records and touches no other record |
| AllocRecords.LinkedIn | lib/valloc/valloc_alloclist.c:18-27 | the second half of `swap` makes a list with the record in front |
| AllocRecords.PartitionMoved | lib/valloc/valloc_alloclist.c:4-36 | moving a record keeps all 1024 records on exactly one of the two lists |
| AllocRecords.AllocList.constructor | lib/valloc/valloc.c:10-31 | the loop of `init_valloc` puts all 1024 records on the spare list |
| AllocRecords.AllocList.Swap | lib/valloc/valloc_alloclist.c:4-28 | moves exactly this record from one list to the front of the other, keeping every block |
| AllocRecords.AllocList.Find | lib/valloc/valloc_alloclist.c:38-50 | returns the record of the first block around the address, or NULL exactly when there is none |
| AllocRecords.AllocList.Alloc | lib/valloc/valloc_alloclist.c:64-91 | puts this block in front of the allocations; fails exactly when all 1024 records are in use |
| AllocRecords.AllocList.Dealloc | lib/valloc/valloc_alloclist.c:52-58 | takes exactly the first block around the address out of the allocations; fails exactly when there is none |
| AllocRecords.AllocList.IsRegionAllocated | lib/valloc/valloc_alloclist.c:96-108 | says whether there is a block whose start lies between the two addresses, both included |
| Pool.TestPow2 | lib/valloc/valloc.c:41-51 | decides whether the number is a power of two |
| Pool.FindNextPow2 | lib/valloc/valloc.c:53-61 | finds a power of two above the number and at most twice it |
| Pool.Mempool.constructor | lib/valloc/valloc.c:10-31 | an empty settled heap |
| Pool.Mempool.AllocBlock | lib/valloc/valloc.c:63-93 | the pool in place does what `Valloc.AllocBlock` says, and writes only to bytes that were free |
| Pool.Mempool.Alloc | lib/valloc/valloc.c:118-143 | the pool becomes what `Valloc.Alloc` says, all of the rounded size of the block is zero, and no byte of any other block has changed |
| Pool.Mempool.AllocAligned | lib/valloc/valloc.c:95-116 | the same for `alloc_with_alignment` and the size it settles on |
| Pool.Mempool.Free | lib/valloc/valloc.c:145-157 | the pool becomes what `Valloc.Free` says, and no byte of any remaining block has changed |
| Pool.BlocksUntouched | lib/valloc/valloc.c:63-73 | what is written only to free bytes is written to no block |
| BitFields.ReadBack | lib/arch/vmm/vmm_entries.c:64-79 | or-ing together fields that do not overlap loses none of them |
| Descriptors.ReadWriteAttrs | lib/arch/vmm/vmm_entries.c:5-79 | `read_attrs` recovers all nine attributes from `write_attrs` |
| Descriptors.ReadTable | lib/arch/vmm/vmm_entries.c:21-102 | `read_desc` recovers a table's address from `write_desc` |
| Descriptors.ReadBlock | lib/arch/vmm/vmm_entries.c:21-102 | what `read_desc` makes of a block or page from `write_desc`, with bit 16 shared at level 3 |
| Descriptors.RoundTripExactly | lib/arch/vmm/vmm_entries.c:11-70 | a block or page survives being written and read exactly when it is not at level 3 or nT equals bit 16 of its address |
| Descriptors.MakeDescMaps | lib/arch/vmm/vmm_pgtable.c:90-101 | reading the entry back gives a block with the attributes that MakeDescWord spells out, which maps the aligned address exactly when it is not at level 3, nT is not set, or bit 16 of the address is set |
| Descriptors.MakeDescWord | lib/arch/vmm/vmm_pgtable.c:90-101 | the word that `vmm_make_desc` gives, bit by bit: valid, a block above level 3 and a page at level 3, access flag and not-global set, inner shareable, secure, with the access permissions, memory attributes and execute-never bits of the protection |
| Descriptors.TableWord | lib/arch/vmm/vmm_entries.c:82-102 | a table entry is the address of the table plus 3 |
| Descriptors.ReadOneDown | lib/arch/vmm/vmm_entries.c:21-62 | a block entry of level 1 or 2 read one level further down still is a block, at the same address but for nT, which is bit 16 of the address at level 3 |
| TableTree.PathCovered | lib/arch/vmm/vmm.c:113-139 | every table that a walk goes through covers the address at its level |
| TableTree.NodesDistinct | lib/arch/vmm/vmm.c:42-107 | no two pages of the tree serve the same addresses at the same level |
| TableTree.LeafKeepsTree | lib/arch/vmm/vmm_pgtable.c:103-112 | writing a leaf keeps the pages a tree |
| TableTree.LeafTranslates | lib/arch/vmm/vmm_pgtable.c:103-112 | writing a leaf changes the walk of exactly the addresses that go through it |
| TableTree.TableKeepsTree | lib/arch/vmm/vmm.c:97-103 | hanging a new page of leaves into an entry keeps the pages a tree |
| TableTree.TableTranslates | lib/arch/vmm/vmm.c:65-103 | a new empty table in an invalid entry changes no translation |
| PageTables.OffsIsIndex | inc/vmm/vmm_tables.h:5-14 | the offset macros give the 9-bit index at each level for 48-bit addresses |
| PageTables.Vmm.UpdatePte | lib/arch/vmm/vmm.c:15-40 | changes exactly the one entry |
| PageTables.Vmm.Zalloc | lib/valloc/valloc_pgtable.c:37-49 | a page that was not in use, filled with zeros; fails exactly when none are left |
| PageTables.Vmm.Hang | lib/arch/vmm/vmm.c:65-103 | the new page holds 512 copies of the entry's own descriptor, and the entry points to the page |
| PageTables.Vmm.EnsureLevel | lib/arch/vmm/vmm.c:42-107 | succeeds exactly when there are pages for the tables missing on the way to the address; then no address is translated differently, the walk reaches the level, and exactly these tables have been added, one page each |
| PageTables.Vmm.SplitBlock | lib/arch/vmm/vmm.c:79-90 | the Block arm succeeds exactly when a page is left; then an address is translated as before exactly when it is outside the block or in one of its 512 parts: the first, or the seventeenth at level 2 with nT set |
| PageTables.Vmm.TranslationWalk | lib/arch/vmm/vmm.c:113-143 | the loop returns where the walk ends |
| PageTables.Vmm.SetBlockOrPage | lib/arch/vmm/vmm_pgtable.c:103-112 | mapping succeeds exactly when there are pages for the missing tables; then exactly the span of the entry is translated to the block, and no other address is translated differently |
| PageTables.Vmm.ClearBlockOrPage | lib/arch/vmm/vmm_pgtable.c:103-112 | unmapping succeeds exactly when there are pages for the missing tables; then exactly the span of the entry that is found is no longer translated |
| PageTables.NeedMeets | lib/arch/vmm/vmm_pgtable.c:130-187 | every table that mapping a range needs serves an address of the range |
| PageTables.NeedExactly | lib/arch/vmm/vmm_pgtable.c:114-187 | a range needs exactly the tables down to the level of the largest block around each of its addresses: the largest whose size divides the distance from virtual to physical address and that lies inside the range |
| PageTables.Vmm.SetRange | lib/arch/vmm/vmm_pgtable.c:114-187 | is done exactly when the ends are aligned and there are pages for the missing tables; then every address of the range is translated to its offset from pa_start with the requested attributes, by the largest block that fits around it, no other address is translated differently, and exactly these tables have been added; the misalignment failure is never reached |
| PageTables.Vmm.PtableMap | lib/arch/vmm/vmm_pgtable.c:194-199 | the same for a region, by the largest blocks: each address to its own offset from the region's physical address, or to itself if it has none, with the access flag set, not global, inner shareable, secure, and the other attributes those of protection and memory attribute or-ed together |
| PageTables.NoTableElsewhere | lib/arch/vmm/vmm_pgtable.c:231-255 | mapping one range puts no table inside a range that does not overlap it, so that can be mapped too |
| PageTables.Vmm.UpdateTable | lib/arch/vmm/vmm_pgtable.c:231-255 | for regions that do not overlap, it is done exactly when all ends are aligned and there are pages for the missing tables of all regions together; then each address of each region is translated to its own offset in the region's physical memory, by the largest block that fits, with the region's attributes, and every other address as before |
| PageTables.Vmm.constructor | lib/arch/vmm/vmm_pgtable.c:305-307 | an empty root table translates nothing |
| PageTables.AllocTable | lib/arch/vmm/vmm_pgtable.c:305-434 | a new table translates exactly the addresses of its regions, each to its own offset, with the region's attributes and by the largest block that fits; it is done exactly when all ends are aligned and there are pages for the root and all tables needed |
| PageTables.VmmPaExactly | lib/arch/vmm/vmm.c:177-192 | on a mapped address `vmm_pa` is the translation exactly when the extra bit is clear in the address or set in the output address |
| Tlb.NothingInvented | lib/arch/vmm/vmm.c:15-40 | over every run, memory, walks and the TLB only ever hold words for an entry that were there before or that a call was asked to store in this very entry |
| Tlb.BreakBeforeMake | lib/arch/vmm/vmm.c:15-40 | over every run of updates with adequate invalidations, among any walks, the TLB never holds two different valid descriptors of one entry, and between updates only what is in memory |
| Tlb.ExactlyAdequate | lib/arch/vmm/vmm.c:23-32 | replacing a valid descriptor is safe for every behaviour of the hardware exactly when the invalidation reaches every ASID the entry is walked under |
| Tlb.SafeExactly | lib/arch/vmm/vmm_tlbs.c:4-31 | in terms of the tlbi instructions: it is safe exactly when all is invalidated, or the entry is walked under no ASID but the one given, of which 8 bits count, or it is walked for the 4K page of the address given, or not walked at all |
| Tlb.CallForgets | lib/arch/vmm/vmm.c:15-40 | a call that is forced or finds the entry non-zero leaves nothing in the TLB that its invalidation reaches, but for what a walk has cached again after the tlbi instruction |
| Tlb.Machine.Flush | lib/arch/vmm/vmm_tlbs.c:33-58 | barrier, invalidation and barrier are those steps of the state machine |
| Tlb.Machine.UpdatePte | lib/arch/vmm/vmm.c:15-40 | with any walks between its accesses, the function does a run of the state machine that makes this one call |
| GlobSpec.GlobIsCodeMatch | lib/re/re.c:129-226 | the recursive and the declarative meaning of patterns agree: fill each wildcard with a string, the last one not empty, none next to another |
| GlobSpec.CodeMatchIsMatches | lib/re/re.c:5-226 | in the characters of the pattern: the input falls into parts, `*` and `?` standing for any part and every other character for itself; no two of `*` and `?` are adjacent, and one at the end stands for at least one character |
| GlobSpec.AgreesExactly | lib/re/re.c:129-226 | the code's matching is the usual one exactly for patterns without adjacent wildcards that do not end in one |
| Re.Regex.Compile | lib/re/re.c:5-51 | links the states of the pattern, one per character, in order |
| Matcher.NextMoveIsRight | lib/re/re.c:129-217 | one round of the matcher gives the right answer or keeps the question the same and makes progress |
| Matcher.StackFits | lib/re/re.c:129-200 | the backtrack stack is never deeper than the number of wildcards before the current position |
| Matcher.StackSafeExactly | lib/re/re.c:129-200 | a stack of a given size suffices for all inputs exactly when no more wildcards before the first two adjacent ones are followed by a character; otherwise the literal characters of the pattern overflow it |
| Matcher.ReMatches | lib/re/re.c:219-226 | on the patterns that cannot overflow the stack of 100 entries it terminates and returns true exactly when the declarative glob relation holds |
| Concretize.SameRegion | lib/litmus_test/concretization/region_checks.c:3-5 | comparing masked addresses decides exactly whether one lies in the region around the other |
| Concretize.PointsDecide | lib/litmus_test/concretization/litmus_test_random_concretization.c:29-46 | two regions that do not contain each other's address have no address in common: testing points is enough |
| Concretize.RegionsDisjoint | lib/litmus_test/concretization/litmus_test_random_concretization.c:66-79 | once every variable is validated, whole owned regions are pairwise disjoint |
| Concretize.ApartIsDistinct | lib/litmus_test/concretization/litmus_test_random_concretization.c:29-79 | a placement is accepted exactly when no address has the same number, counted in regions of the size that a variable owns, as that variable's own address |
| Concretize.IdentityIsPhysical | lib/litmus_test/litmus_regions.c:39-48 | the macro that turns virtual into physical addresses takes each place to the same offset in the same 8M region of physical memory |
| Concretize.VaIsAddress | lib/litmus_test/litmus_regions.c:39-48 | a variable gets the virtual address of its place, or its physical address if it is identity mapped, both written out in numbers |
| Concretize.ShiftIsSize | lib/litmus_test/litmus_test_concretization.c:36-44 | the shift of each level is the logarithm of its size |
| Concretize.AdjustedSum | lib/litmus_test/concretization/litmus_test_random_concretization.c:117-124 | the mask and the or take over exactly the low bits of the other address and keep the rest |
| Concretize.AdjustedGood | lib/litmus_test/concretization/litmus_test_random_concretization.c:114-136 | taking over the low bits of an aligned address stays inside the region and aligned |
| Concretize.LeftOverCyclic | lib/litmus_test/concretization/litmus_test_random_concretization.c:255-272 | where no variable can be picked any more, from each one left over the offsets never end |
| Concretize.OnePlacement | lib/litmus_test/concretization/litmus_test_random_concretization.c:255-267 | the random places determine every address, whatever order the offsets are picked in |
| Concretize.PlacementIs | lib/litmus_test/concretization/litmus_test_random_concretization.c:114-172 | every variable is in the region drawn for it: at the offset drawn, rounded down to 16 bytes, or with an offset at the remainder of the other variable's address; the address is the virtual or, identity mapped, the physical one |
| Concretize.AcceptedPasses | lib/litmus_test/concretization/litmus_test_random_concretization.c:222-285 | every placement that the generator accepts passes the three postchecks |
| Concretize.PostcheckExactly | lib/litmus_test/litmus_test_concretization_checker.c:23-98 | the three postchecks in numbers: no other address in the region a heap variable owns, equal remainders for addresses related by an offset, and multiples of 8 |
| Concretize.CheckNoOverlapOwned | lib/litmus_test/litmus_test_concretization_checker.c:23-53 | the nested loops decide whether no other variable is in the region a heap variable owns |
| Concretize.CheckRelatedSameBits | lib/litmus_test/litmus_test_concretization_checker.c:57-85 | decides whether each variable shares the low bits of the one that its offset refers to |
| Concretize.CheckAligned | lib/litmus_test/litmus_test_concretization_checker.c:89-98 | decides whether all addresses are multiples of 8 |
| Concretize.Concretizer.PickOneRegion | lib/litmus_test/concretization/litmus_test_random_concretization.c:157-172 | gives this variable the random place, aligned, and changes nothing else |
| Concretize.Concretizer.TryPickOneOffset | lib/litmus_test/concretization/litmus_test_random_concretization.c:114-136 | picks exactly when the variable referred to has been picked, and then with its low bits |
| Concretize.Concretizer.PickOffsets | lib/litmus_test/concretization/litmus_test_random_concretization.c:255-267 | the loop ends, and everything is picked exactly when the offsets have no cycle |
| Concretize.Concretizer.ValidateSelection | lib/litmus_test/concretization/litmus_test_random_concretization.c:66-79 | accepts exactly when this variable is in no region that another one owns |
| Concretize.Concretizer.ConcretizeRandomOne | lib/litmus_test/concretization/litmus_test_random_concretization.c:222-285 | fails exactly when the offsets have a cycle; otherwise it ends with the first attempt whose addresses, those of the regions and offsets drawn as PlacementIs spells out, are in no region that another variable owns, and that passes the postchecks; the attempts before it all lead to addresses that clash |
| Aliases.BuildGraph | tools/litmus-toml-translator/src/litmus.rs:487-507 | the loop builds the graph in which each alias leads both ways |
| Aliases.Filler.Dfs | tools/litmus-toml-translator/src/litmus.rs:509-533 | fails exactly when two linked roots have different states; otherwise everything linked to the address gets its state, and each newly found address one direction |
| Aliases.Filler.SearchGiven | tools/litmus-toml-translator/src/litmus.rs:549-553 | searching from the given addresses fails exactly when two linked ones were given different states, in any order of the map |
| Aliases.Filler.SearchPhysical | tools/litmus-toml-translator/src/litmus.rs:561-567 | searching from the physical addresses without a state never fails |
| Aliases.NoClash | tools/litmus-toml-translator/src/litmus.rs:509-533 | when the search is over, two linked roots have the same state |
| Aliases.SeenIsBacked | tools/litmus-toml-translator/src/litmus.rs:549-567 | exactly the addresses linked to a given or physical one have a state |
| Aliases.DirectionResolves | tools/litmus-toml-translator/src/litmus.rs:584-586 | the aliases of the output lead back from each address to a root with its state, so they form a forest without cycles |
| Aliases.LinkedToGiven | tools/litmus-toml-translator/src/litmus.rs:475-589 | every address linked to a given one leads to the state given there |
| Aliases.LinkedToPhysical | tools/litmus-toml-translator/src/litmus.rs:559-567 | every address linked to a physical address, and to no given one, leads to zero |
| Aliases.GivenIsLast | tools/litmus-toml-translator/src/litmus.rs:535-547 | the state given for an address is that of the last entry for it |
| Aliases.OneStateExactly | tools/litmus-toml-translator/src/litmus.rs:573-586 | no address is declared twice exactly when every symbolic address with aliases is backed |
| Aliases.FillUnbackedAddrs | tools/litmus-toml-translator/src/litmus.rs:475-589 | fails exactly when two linked addresses were given different states, and otherwise returns the list described by the lemmas above |
| HashVector.BigEndianInjective | lib/bits.c:28-51 | different numbers have different bytes |
| HashVector.TypeStrInjective | lib/litmus_test/litmus_test_def.c:93-120 | the names of the types of initial states tell them apart |
| HashVector.NamedLevelCancel | lib/litmus_test/litmus_test_def.c:74-91 | the names of levels tell them apart, with whatever follows |
| HashVector.StateCancel | lib/litmus_test/litmus_test_hash.c:179-223 | the value of an initial state can be read back once its type is known |
| HashVector.UniquelyDecodable | lib/litmus_test/litmus_test_hash.c:303-309 | tests with the same vector agree in everything that is hashed, and no vector is the beginning of another |
| HashVector.VectorsEqualExactly | lib/litmus_test/litmus_test_hash.c:303-309 | vectors are equal exactly for tests with the same name, initial states, payloads of threads and handlers, and final condition, where a null name is "<NULL>" and null code is empty |
| VectorExample.VectorOfExample | lib/litmus_test/litmus_test_hash.c:303-309 | the vector of a test with six variables of different types and two threads: its parts in their order, the numbers of variables and threads before them, and the bytes of each part as the lemmas beside it spell them out |
| VectorExample.PayloadExamples | lib/litmus_test/litmus_test_hash.c:93-135 | the payload of code between two hints is the instructions between them, and that of code with a return alone is the return |
| HashWriter.WriteBe | lib/bits.c:28-51 | the loop stores the bytes highest first and touches no other |
| HashWriter.FindPayload | lib/litmus_test/litmus_test_hash.c:93-135 | the loops find what is between two hints, or everything up to the first return |
| HashWriter.ThreadCodeHasHint | lib/litmus_test/litmus_test_hash.c:137-151 | stops the machine exactly when there is neither hint nor return in the first page |
| HashWriter.BlitVarstate | lib/litmus_test/litmus_test_hash.c:179-223 | writes the bytes of an initial state at the cursor and nothing else, or only advances as far |
| HashWriter.BlitThread | lib/litmus_test/litmus_test_hash.c:153-177 | the same for a thread and its handlers |
| HashWriter.BlitTest | lib/litmus_test/litmus_test_hash.c:303-309 | the dry run advances exactly as far as the real run, which writes exactly the vector, inside the buffer |
| HashWriter.TestVector | lib/litmus_test/litmus_test_hash.c:311-322 | the buffer sized by the dry run is filled with exactly the vector |
| Sha1.ZeroBitsSmallest | lib/hashlib.c:18-42 | the padding is the smallest that section 5.1.1 of FIPS 180-4 allows |
| Sha1.PaddedBlocks | lib/hashlib.c:18-42 | the padded message is made of whole blocks, and no more than needed |
| Sha1.PaddedInjective | lib/hashlib.c:18-42 | different messages give different padded messages |
| Sha1.PaddedSize | lib/hashlib.c:19-21 | rounding up the number of bits gives exactly the room that the padding takes |
| Sha1.Preprocess | lib/hashlib.c:18-42 | fills a buffer with exactly the padding of section 5.1.1, never outside it |
| Sha1.RotlStandard | lib/hashlib.c:46-52 | rotating bit by bit is the rotation of the standard by 1, 5 and 30 |
| Sha1.HashSha1 | lib/hashlib.c:162-224 | computes the function of section 6.1.2 of FIPS 180-4 |
| Sha1Example.HashExample | lib/hashlib.c:162-224 | the printed hash of "abc" is the one that the standard gives |
| Sha1Example.TwoBlocksExample | lib/hashlib.c:162-224 | the hash values after a second block go on from those after the first |
| Sha1.LitmusTestHash | lib/litmus_test/litmus_test_hash.c:311-327 | the hash of a test is SHA-1 of its vector |
| Sha1.HexInjective | lib/hashlib.c:122-130 | different digests are printed differently |
| Sha1.Hexdigest | lib/hashlib.c:122-130 | prints two digits for each byte and ends the string |
| Results.IxFromValues | lib/litmus_test/litmus_test_results.c:41-53 | the loop computes the outcome as a number in base 4, or -1 |
| Results.IndexInjective | lib/litmus_test/litmus_test_results.c:41-53 | two outcomes of a test with the same index are the same |
| Results.IndexDigits | lib/litmus_test/litmus_test_results.c:41-53 | the values of an outcome are the base-4 digits of its index, the first register's the highest |
| Results.HasIndex | lib/litmus_test/litmus_test_results.c:41-53 | an outcome has an index exactly when all of its values are below 4 |
| Results.LookupFitsExactly | lib/litmus_test/litmus_test_ctx.c:71-75 | every outcome has its index inside the lookup table exactly when there are at most three registers |
| Results.HistogramRight | lib/litmus_test/litmus_test_results.c:65-100 | no two rows have the same outcome, each counter is the number of runs with it, and each row is marked exactly when its outcome is interesting |
| Results.HistogramTotals | lib/litmus_test/litmus_test_results.c:202-235 | the counters add up to the number of runs, and the marked ones to the runs with an interesting outcome |
| Results.CountsAre | lib/litmus_test/litmus_test_results.c:202-235 | the counts are the multiplicity of the outcome among the runs and the number of runs that end in an interesting outcome |
| Results.RowsAreOutcomes | lib/litmus_test/litmus_test_results.c:78-100 | there are as many rows as different outcomes |
| Results.LookupIsRow | lib/litmus_test/litmus_test_results.c:56-63 | the lookup table leads to the row that going through the table finds |
| Results.Hist.MatchesInteresting | lib/litmus_test/litmus_test_results.c:12-39 | the nested loops decide whether the outcome is interesting |
| Results.Hist.AddResults | lib/litmus_test/litmus_test_results.c:55-101 | with the lookup table the rows become what they become without one; it stops the machine exactly when the outcome is new and the table full |
| Results.Hist.AddAll | lib/litmus_test/litmus_test_results.c:55-122 | over all runs of a test; it stops the machine exactly when there are more outcomes than rows |
| Results.Report | lib/litmus_test/litmus_test_results.c:197-249 | Positive and Negative count the runs with and without an interesting outcome, and Never, Always and Sometimes say the truth about them |
| Devicetree.AlignIsMacro | lib/arch/device.c:152 | what `FDT_ALIGN` masks is the next multiple of 4 |
| Devicetree.ReadPiece | lib/arch/device.c:175-216 | returns the token and the address of the next piece, after the name or value |
| Devicetree.StrcmpIsEqual | lib/string.c:52-60 | the recursive comparison is 1 exactly for equal strings |
| Devicetree.Step | lib/arch/device.c:223-246 | one piece of a walk leads on through the tree, or is the first one wanted |
| Devicetree.MakeTrip | lib/arch/device.c:261-293 | a walk visits the pieces of a node in order, with the names of the nodes around it, and ends |
| Devicetree.FirstIsFirst | lib/arch/device.c:413-458 | the first wanted property or node is one that is wanted, with none before it |
| Devicetree.NamestackExactly | lib/arch/device.c:258-270 | a walk stays inside its stack of 100 names exactly when, up to the first node or property that is wanted, no node begins with 100 nodes around it |
| Devicetree.DepthHasRoom | lib/arch/device.c:258-270 | in a tree nested at most 100 deep every walk stays inside it |
| Devicetree.FdtFindNode | lib/arch/device.c:218-251 | returns the first node with this name, in the order in which nodes begin |
| Devicetree.FdtReadNode | lib/arch/device.c:253-300 | returns the first node with this name in the subtree of a node |
| Devicetree.FdtReadProp | lib/arch/device.c:302-351 | returns the first property with this name of the node itself, never one of a node below it |
| Devicetree.FdtFindProp | lib/arch/device.c:413-458 | returns the first property with this name that belongs directly to a node with that name |
| Devicetree.FoundIsLaid | lib/arch/device.c:587-592 | a node that was found is laid out at its address and nested no deeper than the tree, so it can be given to the walks over one node |
| Devicetree.FlatIsBlob | lib/arch/device.c:175-216 | the flattening of a tree by section 5.4 of the Devicetree Specification v0.4 is what the walks expect |
| Devicetree.HeaderLeadsTo | lib/arch/device.c:156-216 | a blob with the big-endian addresses of structure block and names at bytes 8 and 12 of its header is read as the tree and the names stored there |
| Devicetree.FlatExample | lib/arch/device.c:146-150 | the flattening of a node with one property, byte by byte |

## Left out

- Matcher.ReMatches: requires a pattern that cannot overflow the code's stack of 100 entries, which is not checked; StackSafeExactly says which patterns these are.
- Pool.Mempool.Alloc: requires requests for which the 64-bit sums do not wrap around, as the code does.
- Pool.Mempool.AllocBlock: requires the same, and so does AllocAligned.
- Valloc.FreeKeepsInv: requires that the address is the start of a block or outside every block, because the code frees the wrong bytes for a pointer into the middle of a block (FreeableExactly, FreeInsideBreaks).
- Pool.Mempool.Free: requires the same.
- PageTables.Vmm.EnsureLevel: requires that no block lies above the level on the walk; SplitBlock says what the code does to one.
- PageTables.Vmm.SetRange: requires a free range with no table inside it, a page-aligned physical address and a protection without nT; NoTableElsewhere says that ranges that do not overlap stay free of tables. The alternative with `unmap` set is never called.
- Weak memory: the steps of the state machines are sequentially consistent; exclusives are atomic steps. In Tlb.dfy a walk may still see the overwritten descriptor until the next barrier.
- Barrier.Step: takes the lock in one step; BakeryBarrier has the lock's own accesses in its place.
- Barriers other than the one being waited at, and threads that do not take part: `bwait_lock` is shared between barriers in the code.
- realloc, arenas, `valloc_free_size`, `free_all`, checkpoints of the page-table allocator: no property beyond the ones above.
- The addresses of the regions that the harness maps, switching tables, ASIDs in TTBR and MMU control: hardware effects.
- The errata workarounds in the TLB flushes, which repeat invalidations and barriers.
- Concretize.Concretizer.ConcretizeRandomOne: models tests without pinned variables, with page tables on and offsets shared up to 2M; the random places of each attempt are given, and cache lines are at most a page.
- Aliases.FillUnbackedAddrs: takes the initial states as they are after parsing; where the code goes through a hash map, the order is arbitrary.
- HashWriter.TestVector: takes the text of the final condition as given, and requires lengths that fit in 32 bits, as the code does.
- Sha1.Preprocess: requires messages of at most 2^32 - 9 bytes, because the code counts bytes in 32 bits.
- Results.Hist.AddResults: requires an index inside the lookup table, which the code does not check; LookupFitsExactly says when that always holds. Counters do not wrap around. AddAll and Report require the same of every run.
- Devicetree.FdtReadNode: requires that the walk stays inside the code's stack of 100 names, which is not checked; NamestackExactly says when it does, and the same holds for FdtReadProp and FdtFindProp. NOP tokens, which the code does not know, are not part of the trees.
- `fdt_find_node_with_prop_with_index` restarts in the middle of a tree and has no meaning in terms of it.
- Printing, argument parsing, drivers, exception vectors and the litmus tests themselves.
