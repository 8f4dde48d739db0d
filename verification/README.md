# Hedron, modelled and proved in Dafny

Hedron is a microhypervisor. This project models the parts of it whose logic does not depend on the
x86 side, and proves what they are for: page tables and memory delegation, the capability mapping
database and its AVL trees, the buddy and slab allocators, RCU grace periods, the ready queues, the
ticket lock, MTRR decoding and the lock-free replacement of read-only pages.

`dafny verify dfyconfig.toml` checks the whole project.

| files | what they model |
|---|---|
| `Radix.dfy`, `Bits.dfy` | address arithmetic of nine-bit levels, bit operations on machine words |
| `PageTableModel.dfy`, `PageTables.dfy` | table memory, its tree shape and meaning; splitting, filling, reclamation, `update` |
| `ConcurrentTables.dfy`, `ConcurrentProgress.dfy` | any number of `update` and `lookup` calls on one table, interleaved at every memory access |
| `MemorySpace.dfy`, `DeepCopies.dfy` | memory delegation and revocation; `deep_copy` |
| `MemoryTypes.dfy`, `HostTables.dfy` | `memtype`, the cursor of the loop in `insert_root`; `map_typed_range`, `insert_root` |
| `ReadonlyPages.dfy` | concurrent `replace_readonly_page`, `Space_obj::walk` and `page_fault` on one slot |
| `Options.dfy`, `Rings.dfy` | values that may be missing, circular doubly linked lists |
| `Derivation.dfy`, `MappingModel.dfy`, `MappingDb.dfy` | derivation lists, rights, capability slots; `insert_root`, `addreg`, `delegate`, `revoke` |
| `MappingSlots.dfy` | what these do to the capability table and the port bitmaps, cell by cell |
| `MappingWindows.dfy` | the windows that `delegate` and `revoke` treat as intervals |
| `AvlModel.dfy`, `AvlHeap.dfy`, `AvlRemoval.dfy`, `AvlCutting.dfy`, `AvlTrees.dfy` | AVL trees as values and as linked nodes; `lookup`, `insert`, `remove` |
| `BuddyLayout.dfy`, `BuddyAllocator.dfy` | the buddy allocator: layouts of a pool, free lists and tags |
| `SlabCache.dfy` | the slab cache: elements, free lists, the ordered list of slabs |
| `Rcu.dfy`, `TicketLock.dfy` | state machines over all interleavings of any number of CPUs |
| `RcuProgress.dfy` | why grace periods end |
| `RcuLists.dfy` | the linked lists of RCU callbacks |
| `Scheduler.dfy` | the ready queues and the remote queue of one CPU |

Classes mirror the objects the kernel updates in place; table pages, list pointers, tree links and
descriptors are fields or maps that the methods reassign. What such a method leaves behind is stated as a
function or predicate of plain values (`Translate`, `Preorder`, `Insert`, `Layout`, ...), and the laws are
lemmas about those. Protocols are step functions over a state, with theorems about every state of every run, and about
how every run can go on.

Where code and expectation part, the code is kept, a concrete input is given, and the exact condition is proved:

- A valid user window may end at the canonical boundary, one page beyond `USER_ADDR`
  (`MemorySpace.UserWindow`, `MemorySpace.UserWindowExample`).
- The loop of `insert_root` need not end. It ends if and only if the range, and which variable ranges start at 0 or end
  at the reach 2^w of the masks, meet one condition (`MemoryTypes.TerminationIff`); with two ranges that halve the
  address space it never ends for any range that crosses 2^w (`MemoryTypes.HalvesLoop`). The reason is that, from an
  address beyond the reach, `memtype` may return a `next` that lies behind it: it advances if and only if the address
  is in reach or matches nothing (`MemoryTypes.NextAdvances`, `MemoryTypes.NextGoesBack`).
- With one element to a slab a cache keeps more than one unused slab: two allocations and two releases leave two
  (`SlabCache.TwoUnused`), and refilling keeps at most one unused if and only if slabs have more than one element
  (`SlabCache.RefillIff`).
- `deep_copy` from inside an unmapped block can miss pages: from 0x1000 it hops to 0x201000, over a page at 0x200000
  (`DeepCopies.MissesPage`). It is exact, and asserts nothing, if and only if `DeepCopies.DeepCopyIff` says so; from a
  mapping boundary, exactly if `end` cuts no mapping.
- `revoke` and `delegate` compare blocks, so that a window whose base is not aligned by its order stands for another
  block: `MappingWindows.RevokeWindowIff` and `MappingWindows.DelegateWindowIff` say that alignment is exactly what makes
  them right.
- `Rcu_list::enqueue` accepts the last element of a list a second time and counts it twice, with the list unchanged
  (`RcuLists.CountedTwice`); every other queued element is refused.

## Model

| member | source | states |
|---|---|---|
| `PageTableModel.LookupFacts` | include/generic_page_table.hpp:159-174 | `lookup` returns an aligned mapping around the address, and the same mapping for every address in it |
| `PageTableModel.SplitMeaning` | include/generic_page_table.hpp:178-189 | the entries that replace a superpage translate every address as the superpage did |
| `PageTableModel.HungMeaning` | include/generic_page_table.hpp:192-246 | hanging in a prepared table changes no translation anywhere |
| `PageTableModel.CutShape` | include/generic_page_table.hpp:279-342 | replacing an entry by a leaf cuts off exactly the tables below it and keeps the tree shape |
| `PageTableModel.CutLookup` | include/generic_page_table.hpp:279-342 | after a leaf is written, its block translates by it and every other address as before |
| `PageTableModel.HangShape` | include/generic_page_table.hpp:192-246 | hanging a table of leaves into a leaf slot keeps the tree shape |
| `PageTableModel.ReachableIsPlaced` | include/generic_page_table.hpp:159-174 | the tables reachable from the root are exactly those the shape invariant places |
| `PageTableModel.RunInWindow` | include/generic_page_table.hpp:279-342 | tables below the entries an update rewrites translate addresses of its window only |
| `PageTableModel.GrantIsLookup` | include/generic_page_table.hpp:215-222 | tables on the way restrict nothing: intersecting the rights of all levels, as the hardware does, gives the rights that `lookup` returns |
| `PageTables.PageTable.constructor` | include/generic_page_table.hpp:515-519 | a new table is well formed and maps nothing |
| `PageTables.PageTable.FillFromSuperpage` | include/generic_page_table.hpp:178-189 | the new table holds the split entries of the superpage |
| `PageTables.PageTable.MakeTable` | include/generic_page_table.hpp:192-246 | splits or creates a table below an entry with no change to any translation, one level further down and with full rights on the way; fails only with the pool empty, and then changes nothing |
| `PageTables.PageTable.WalkDown` | include/generic_page_table.hpp:192-246 | reaches the table of the level, changes no translation at any step, takes pages only for tables on the way, flushes only for a split; finds nothing, or lacks memory, if and only if the level of the leaf a lookup finds, the rights asked for and the number of pages say so |
| `PageTables.PageTable.CleanupEntry` | include/generic_page_table.hpp:252-263 | hands over exactly the tables below the entry, each once, children first, and asks for a flush if it was present |
| `PageTables.PageTable.CleanupTable` | include/generic_page_table.hpp:267-276 | the same for a table and all below it |
| `PageTables.PageTable.FillEntries` | include/generic_page_table.hpp:279-342 | the run of blocks translates as asked, all else as before; frees and takes exactly the tables below the run; fails if and only if fewer pages are left than tables are missing |
| `PageTables.PageTable.Update` | include/generic_page_table.hpp:413-444 | on success the window translates as asked and all else as before; after every single write each address shows its old or its new translation; the outcome (success, out of memory, panic) and the pages taken are determined by the tables that are missing on the way and below; out of memory changes nothing; exactly the tables that left the tree are freed, once, children first; a flush is asked for whenever due and only for a reason |
| `PageTables.PageTable.Destroy` | include/generic_page_table.hpp:523-534 | frees exactly the reachable tables, once, children first |
| `ConcurrentTables.StepInv` | include/generic_page_table.hpp:192-342 | every read, compare-and-swap and exchange of every `update` or `lookup` in progress keeps the invariant: the tables form a tree, tables cut off meanwhile hold only addresses that others have claimed |
| `ConcurrentTables.Interleaved` | include/generic_page_table.hpp:43-48 | in every run of any number of concurrent updates the tables form a tree at any time, each address translates as at the start or as one of the updates that cover it asks, and once one of these is done as one of them asks |
| `ConcurrentTables.Undisturbed` | include/generic_page_table.hpp:43-48 | an update whose window overlaps no other has, once done, exactly its own effect there |
| `ConcurrentTables.LookupSeesWhole` | include/generic_page_table.hpp:159-174 | a concurrent `lookup` sees its page as at the start or as one of the updates asks, even in tables cut off meanwhile |
| `ConcurrentTables.HangInv` | include/generic_page_table.hpp:215-240 | a successful compare-and-swap keeps all translations and tables in order, also in a part that was cut off between read and swap |
| `ConcurrentTables.WriteInv` | include/generic_page_table.hpp:304-313 | an exchange claims its block, in the tree or in a part cut off meanwhile, and takes no claim away |
| `ConcurrentProgress.FailsOnly` | include/generic_page_table.hpp:213-240 | in every run an update fails only where it needs a table and the allocator has none, never for a lost compare-and-swap |
| `ConcurrentProgress.UpdateEnds` | include/generic_page_table.hpp:192-342 | from every state of every run an update that goes on alone, with a page for each table, gets done |
| `MemorySpace.DowngradeNarrows` | src/hpt.cpp:109-133 | rights only shrink and frame, type and other attributes stay |
| `MemorySpace.UnderMaskFrom` | src/hpt.cpp:109-133 | by the number of the rights mask: the receiver may write or execute exactly if the page and bit 1 or bit 2 of the mask allow it, in the host and in the guest table; frame and memory type are kept |
| `MemorySpace.ClampFacts` | include/generic_page_table.hpp:86-101 | `clamp` gives the naturally aligned part of the mapping inside the window, same translation |
| `MemorySpace.MoveFacts` | include/generic_page_table.hpp:108-116 | between aligned windows `move_by` neither wraps nor shrinks and keeps alignment |
| `MemorySpace.ValidWindow` | src/space_mem.cpp:37-42 | a valid window is aligned and lies below the canonical boundary |
| `MemorySpace.ValidIff` | src/space_mem.cpp:37-42 | the accepted windows in plain arithmetic: below USER_ADDR, at most 2^46, aligned |
| `MemorySpace.UserWindow` | src/space_mem.cpp:37-42 | a valid window lies in user space if and only if it does not end at the canonical boundary |
| `MemorySpace.UserWindowExample` | src/space_mem.cpp:37-42 | a valid window that ends beyond user space |
| `MemorySpace.EmptyFacts` | src/space_mem.cpp:44-57 | the stand-in for what must not be delegated is an aligned block from the cursor inside the window |
| `MemorySpace.AdjustFacts` | src/space_mem.cpp:44-57 | the mapping with adjusted rights means the downgraded translation, or nothing |
| `MemorySpace.RoundFacts` | src/space_mem.cpp:60-127 | one round covers the cursor, stays in the window, advances, and fits `update` |
| `MemorySpace.MemSpace.UpdateTables` | src/space_mem.cpp:60-127 | puts one mapping into the chosen host and guest tables; fails only with no page left where a table is missing or the block is above the leaf levels |
| `MemorySpace.MemSpace.Delegate` | src/space_mem.cpp:60-127 | receives only the sender's frames at the same offset, writable and executable exactly as page and rights mask allow, mapped exactly if the sender's page is when all pages are open to users; host and guest agree; frames stay below MAXPHYADDR; partial outcomes hold only old or granted translations; nothing outside changes; each failure has its reason in the sender's window or the receiver's tables; all processors are marked stale if a present mapping changed, per table; terminates, also when sender and receiver are one table |
| `MemorySpace.MemSpace.Revoke` | src/space_mem.cpp:129-141 | nothing of the window stays mapped in either table, nothing else changes, and processors are marked stale if anything was mapped |
| `HostTables.TopOrder` | src/space_mem.cpp:206-222 | the chosen block is aligned, at least a page, ends within the range, and stays below the limit of `update` |
| `HostTables.MapTypedRange` | src/space_mem.cpp:206-222 | the range maps to itself with the attributes, nothing else changes; fails only for want of pages |
| `HostTables.InsertRoot` | src/space_mem.cpp:224-238 | after any number of rounds exactly the addresses the cursor passed map to themselves and nothing else changes; when the loop is through, exactly the range, open to users, writable and executable by bits 1 and 2 of the rights, each page with the memory type its registers give; fails only for want of pages |
| `DeepCopies.FromBoundary` | src/hpt.cpp:25-49 | from a mapping boundary the loop goes from boundary to boundary, asserts nothing and skips nothing, exactly if `end` cuts no mapping |
| `DeepCopies.ClearUpdate` | src/hpt.cpp:25-49 | mapping into an unmapped window frees nothing, needs no flush and leaves no table empty |
| `DeepCopies.DeepCopy` | src/hpt.cpp:25-49 | for every range: asserts exactly if a mapping it visits is cut by the range; else the copy has exactly what the loop visits; the assertion on the flush holds; fails only for want of pages |
| `DeepCopies.CopyExact` | src/hpt.cpp:25-49 | the copy agrees with the source on the range exactly if everything mapped there is visited |
| `DeepCopies.DeepCopyIff` | src/hpt.cpp:25-49 | when the loop asserts nothing and copies exactly, for every range; from a boundary, if and only if `end` cuts no mapping |
| `DeepCopies.MissesPage` | src/hpt.cpp:25-49 | a table and a range for which a mapped page is missed and no assertion fires |
| `MemoryTypes.MatchIsRange` | include/generic_mtrr.hpp:107-112 | within reach of a contiguous mask, the mask test holds exactly for the addresses of the range |
| `MemoryTypes.NextKeeps` | include/generic_mtrr.hpp:106-116 | up to the next change every address has the same best type |
| `MemoryTypes.NextAdvances` | include/generic_mtrr.hpp:103-116 | the search moves forward if and only if the address is in reach of the masks or matches nothing |
| `MemoryTypes.NextGoesBack` | include/generic_mtrr.hpp:103-116 | a regular range and an address for which the search goes back |
| `MemoryTypes.TopMatches` | include/generic_mtrr.hpp:107-112 | the address 2^w matches a range exactly if the range starts at 0 |
| `MemoryTypes.TerminationIff` | src/space_mem.cpp:224-238 | the loop of `insert_root` ends if and only if the condition on range and variable ranges holds, for all inputs |
| `MemoryTypes.HalvesLoop` | src/space_mem.cpp:224-238 | for every width a state with which the loop never ends, whatever range across 2^w is asked for |
| `MemoryTypes.ReachedAll` | src/space_mem.cpp:224-238 | if the loop starts well and ends, it has covered exactly its range |
| `MemoryTypes.ReachedBelow` | src/space_mem.cpp:224-238 | otherwise it covers addresses before its start |
| `MemoryTypes.BestIsLeast` | include/generic_mtrr.hpp:106-116 | the type found is the least of those of all matching ranges, and one of them |
| `MemoryTypes.TypeIs` | include/generic_mtrr.hpp:82-119 | below 1 MB the byte of the fixed-range word that stands for the address; above, the least type of all variable ranges from start to end that hold the address, or the default |
| `MemoryTypes.VarType` | include/generic_mtrr.hpp:103-116 | the loop computes the least type of the matching ranges and the nearest change |
| `MemoryTypes.Memtype` | include/generic_mtrr.hpp:82-119 | returns the type the registers stand for, by section 11.11 of the Intel SDM, volume 3; every address up to `next` has that type; `next` is a page boundary |
| `ReadonlyPages.StepInv` | include/generic_page_table.hpp:469-493 | every read, compare-and-swap, allocation and free keeps the invariant of slot, callers and pages |
| `ReadonlyPages.WritableStays` | include/generic_page_table.hpp:469-493 | in every run a writable entry is never replaced |
| `ReadonlyPages.OneFrame` | src/space_obj.cpp:26-46 | all callers that want a writable page return the one installed frame, whenever they return |
| `ReadonlyPages.PagesConserved` | src/space_obj.cpp:26-46 | each page is free, held by one caller or installed; in the end all but the installed one are free again, once |
| `ReadonlyPages.PagePresent` | src/space_obj.cpp:85-90 | once a caller has returned, a page stays in the slot |
| `ReadonlyPages.CallerEnds` | include/generic_page_table.hpp:469-493 | from any state a caller that goes on alone returns, if there is a page for it |
| `Derivation.SubtreeIsRun` | src/mdb.cpp:27-43 | the nodes derived from a node are exactly the deeper nodes directly behind it |
| `Derivation.DerivedNarrows` | src/mdb.cpp:27-43 | derived nodes have no rights their origin lacks |
| `Derivation.AdoptPreorder` | src/mdb.cpp:27-43 | `insert_node` keeps the list a preorder with narrowing rights |
| `Derivation.RemovePreorder` | src/mdb.cpp:52-69 | `remove_node` keeps it |
| `Derivation.HitCarried` | src/pd.cpp:134-149 | carrying the demote flag along the list decides for each node as its ancestor among the children does |
| `MappingModel.MeetsIsOverlap` | src/pd.cpp:184-192 | `clamp` succeeds exactly if the aligned ranges share an address, and yields exactly the shared ones |
| `MappingModel.SelectedMeaning` | src/pd.cpp:119-169 | what `revoke` selects, address by address, with and without `self` |
| `MappingModel.StripForest` | src/mdb.cpp:45-50 | demoting a derivation-closed set keeps every list in preorder with narrowing rights |
| `MappingModel.ForestWithout` | src/mdb.cpp:52-69 | unlinking a node without children keeps all lists |
| `MappingModel.ImageFacts` | src/pd.cpp:78-83 | a delegated part is aligned, inside node and window, keeps its offset, and belongs to the receiver and the subspaces asked for |
| `MappingModel.ImagesApart` | src/pd.cpp:75-105 | parts delegated from different nodes do not overlap |
| `MappingModel.LookupApart` | src/pd.cpp:122-128 | once the node found misses the window, no further node meets it |
| `MappingModel.PickedNotKernel` | src/space_pio.cpp:58-62 | no node that `revoke` strips belongs to the kernel's space, unless the window does: the assertion in `update` holds |
| `MappingSlots.DelegateCells` | src/pd.cpp:70-108 | a cell that changed lies in the receiver's window, in a table asked for, and shows the sender's object with exactly the intersected rights, or its port, at the same offset; every node not refused shows so |
| `MappingSlots.RevokeCells` | src/pd.cpp:119-169 | the cells of the selected nodes keep their object and lose exactly the mask; all others are as they were |
| `MappingWindows.RevokeWindowIff` | src/pd.cpp:119-169 | `revoke` selects by the indices of the window in every valid database, with and without `self`, if and only if its base is aligned by its order |
| `MappingWindows.DelegateWindowIff` | src/pd.cpp:70-108 | `delegate` finds exactly the nodes that overlap the window and copies exactly their parts, aligned, if and only if the sender's base is aligned, and for ports the receiver's |
| `MappingDb.Mdb.Show` | src/space_pio.cpp:58-75 | exactly the slots of the node's range and subspaces show the new rights; for an object its one slot, whatever its subspaces |
| `MappingDb.Mdb.StripOne` | src/space_obj.cpp:66-72 | exactly the cells of the node now show its object without the mask; every slot equals the rights of the node that covers it |
| `MappingDb.Mdb.Demote` | src/pd.cpp:129-149 | the forward walk strips exactly the picked nodes of the subtree and ends at its last node |
| `MappingDb.Mdb.RemoveNode` | src/mdb.cpp:52-69 | unlinks exactly if the node has neither rights nor children, and keeps lists, trees and slots right |
| `MappingDb.Mdb.Prune` | src/pd.cpp:157-165 | the backward walk unlinks exactly the nodes without rights and ends at the node it began for |
| `MappingDb.Mdb.RevokeBelow` | src/pd.cpp:129-167 | one round, with the three assertions shown to hold |
| `MappingDb.Mdb.TreeLookup` | src/space.cpp:26-30 | the node that holds the index, else the first one above |
| `MappingDb.Mdb.AddRoot` | src/space.cpp:32-36 | a new root, of any rights, unless its range is taken; exactly its cells show its object and rights, none for the kernel; lists, trees and slots stay right |
| `MappingDb.Mdb.InsertRoot` | src/space_obj.cpp:74-83 | fails exactly if the index is taken; else adds one root and, outside the kernel, the slot shows the object with its rights; no other slot changes |
| `MappingDb.Mdb.AddReg` | src/space.cpp:44-50 | adds only roots of aligned blocks inside the range, covers every port of a range that was free, and changes no slot |
| `MappingDb.Mdb.InsertChild` | src/pd.cpp:82-104 | adds a child exactly if its range is free and rights remain, with the parent's rights intersected; exactly its cells show it |
| `MappingDb.Mdb.Delegate` | src/pd.cpp:70-108 | below every node of the window exactly one copy at the same offset, unless refused, and no other change; the cells change as `DelegateCells` says; terminates |
| `MappingDb.Mdb.Revoke` | src/pd.cpp:119-169 | for any window: strips exactly the selected nodes, removes exactly those left without rights and the bare roots it meets, keeps lists and trees right; the cells change as `RevokeCells` says; terminates |
| `AvlModel.LeanToBalanced` | src/avl.cpp:95-96 | if no node on the way leant, leaning all of them balances a tree that is higher by one |
| `AvlModel.DoubleOrder` | src/avl.cpp:36-58 | the double rotation keeps the order |
| `AvlModel.FixBalanced` | src/avl.cpp:77-93 | at the lowest uneven node the rotations restore balance and height |
| `AvlModel.InsertFacts` | src/avl.cpp:60-99 | the insertion keeps order and balance and grows the height only if no node on the way leant |
| `AvlModel.PutOrder` | src/avl.cpp:60-73 | the new leaf keeps search order and adds exactly one node |
| `AvlHeap.PutRep` | src/avl.cpp:73 | writing the node where the search ends puts the leaf into the represented tree |
| `AvlHeap.RotateRep` | src/avl.cpp:22-34 | the pointer writes of the single rotation produce the rotated tree and touch nothing else |
| `AvlHeap.Rotate2Rep` | src/avl.cpp:36-58 | the same for the double rotation |
| `AvlHeap.InsertRep` | src/avl.cpp:60-99 | rebalancing at the kept pointer makes memory represent the inserted tree |
| `AvlRemoval.SettleBalanced` | src/avl.cpp:123-153 | one rebalancing step restores balance; height is kept exactly at an absorbing node |
| `AvlRemoval.CutBalanced` | src/avl.cpp:116-153 | rebalancing from the lowest absorbing node suffices |
| `AvlRemoval.LastIsPredecessor` | src/avl.cpp:106-118 | the way to a member ends at the member or its predecessor |
| `AvlRemoval.RemoveFacts` | src/avl.cpp:101-164 | removal keeps order and balance and takes out exactly the node |
| `AvlCutting.CutAllRep` | src/avl.cpp:123-158 | rebalancing on the way down and then cutting leaves the cut tree in memory |
| `AvlCutting.RemoveRep` | src/avl.cpp:101-164 | all pointer writes together leave the tree without the node in memory, also when a rotation moved it |
| `AvlTrees.PathClashIs` | include/mdb.hpp:65-70 | a member that meets the new range is always met on the way |
| `AvlTrees.AvlTree.Lookup` | include/mdb.hpp:86-101 | agrees with a linear scan: the containing range, else the least above |
| `AvlTrees.AvlTree.Rotate` | src/avl.cpp:22-34 | the subtree at the pointer is rotated, nothing else changes |
| `AvlTrees.AvlTree.Rotate2` | src/avl.cpp:36-58 | the same for the double rotation, with the balance fields and the subtree to go on with |
| `AvlTrees.AvlTree.LeanDown` | src/avl.cpp:95-96 | every node on the way leans towards the new one |
| `AvlTrees.AvlTree.Rebalance` | src/avl.cpp:75-96 | the subtree at the lowest uneven node is rebalanced in place |
| `AvlTrees.AvlTree.Insert` | src/avl.cpp:60-99 | fails exactly if the range meets a member; else the members grow by exactly the node, order, balance and balance fields hold |
| `AvlTrees.AvlTree.SettleStep` | src/avl.cpp:123-153 | one step of the removal's rebalancing loop, pointer by pointer |
| `AvlTrees.AvlTree.Remove` | src/avl.cpp:101-164 | succeeds exactly for members; the members shrink by exactly the node, order, balance and balance fields hold; memory outside the tree is untouched |
| `BuddyLayout.BuddyIsStart` | src/buddy.cpp:152-175 | the buddy of a block is the start of a block whenever its tag is consulted, so stale tags do no harm |
| `BuddyLayout.RunIsHeld` | src/buddy.cpp:134-185 | without free buddies, every aligned free run lies in one free block |
| `BuddyLayout.FreeBlocksDetermined` | src/buddy.cpp:134-185 | the set of free blocks is a function of the set of free pages |
| `BuddyLayout.RunIffBlock` | src/buddy.cpp:85-123 | an aligned run of free pages exists if and only if a free block of at least that order does |
| `BuddyLayout.MergeGood` | src/buddy.cpp:152-175 | merging two buddies keeps the partition |
| `BuddyLayout.SplitGood` | src/buddy.cpp:100-106 | splitting a block keeps the partition and adds one free half |
| `BuddyAllocator.Buddy.SplitDown` | src/buddy.cpp:100-106 | cutting down overwrites only empty lists and drops no free block |
| `BuddyAllocator.Buddy.TryAlloc` | src/buddy.cpp:85-123 | fails if and only if no aligned free run exists; else takes exactly such a run out of the free pages, other blocks in use stay |
| `BuddyAllocator.Buddy.FreeBlockAt` | src/buddy.cpp:134-185 | frees exactly the pages of the block, coalesces fully, other blocks in use stay |
| `BuddyAllocator.Buddy.Populate` | src/buddy.cpp:65-69 | releasing page by page ends with all pages free and coalesced |
| `BuddyAllocator.AllocThenFree` | src/buddy.cpp:85-185 | allocating a block and freeing it restores every free block |
| `SlabCache.LayoutIsBest` | src/slab.cpp:86-91 | an element is large enough and aligned, a page holds n of them if and only if n is at most the computed number, and the layout is sound exactly if one fits |
| `SlabCache.ElemsApart` | src/slab.cpp:27-36 | elements lie in their page behind the header, and do not overlap |
| `SlabCache.LiveApart` | src/slab.cpp:102-130 | so do all elements in use at any time |
| `SlabCache.TwoUnused` | src/slab.cpp:102-202 | two allocations and two releases with one element to a slab end with two unused slabs |
| `SlabCache.RefillIff` | src/slab.cpp:151-172 | refilling a slab keeps the order with at most one unused slab, for all lists, if and only if slabs have more than one element |
| `SlabCache.OrderedRefill` | src/slab.cpp:151-172 | moving a refilled slab behind the others with free elements keeps the order |
| `SlabCache.Cache.NewSlab` | src/slab.cpp:27-36 | a new slab lists all its elements as free, other slabs are untouched |
| `SlabCache.Cache.TakeElem` | src/slab.cpp:38-45 | takes the first free element |
| `SlabCache.Cache.GiveElem` | src/slab.cpp:47-54 | puts an element in use back |
| `SlabCache.Cache.Enqueue` | src/slab.cpp:56-73 | inserts between neighbours, with both adjacency assertions shown |
| `SlabCache.Cache.Dequeue` | src/slab.cpp:75-84 | takes a slab out of the list |
| `SlabCache.Cache.Grow` | src/slab.cpp:93-100 | a fresh slab in front; nothing else is in use than before |
| `SlabCache.Cache.Alloc` | src/slab.cpp:102-130 | returns an element not in use; exactly it becomes used; the invariant and both assertions hold |
| `SlabCache.Cache.Requeue` | src/slab.cpp:151-172 | a refilled slab becomes the last one with free elements |
| `SlabCache.Cache.Retire` | src/slab.cpp:173-201 | an unused slab stays or becomes the first, or goes away exactly if another is unused already |
| `SlabCache.Cache.Free` | src/slab.cpp:132-202 | exactly the element stops being used; slabs with free elements first, `curr` the last of them; with more than one element to a slab at most one unused and in front; a slab is given back exactly if it became unused and another was |
| `Rcu.InvStep` | src/rcu.cpp:34-100 | every step of every CPU keeps the invariant of state word, count, batches and lists |
| `Rcu.GracePeriod` | src/rcu.cpp:64-100 | in every run a callback runs only after every CPU has been quiet since the call |
| `Rcu.CallbackOrder` | src/rcu.cpp:34-43 | callbacks run in the order of the calls, none twice and none dropped |
| `Rcu.QueuedOnce` | include/rcu.hpp:63-69 | in every run an element stands in at most one place of the lists of all CPUs |
| `RcuLists.Lists.Enqueue` | include/rcu_list.hpp:71-100 | pointer by pointer: an unused element joins the end, a queued one is refused unless it is the last of the same list, then only the count grows |
| `RcuLists.Lists.Append` | include/rcu_list.hpp:61-69 | one list goes behind the other, and the result is a ring |
| `RcuLists.Lists.InvokeBatch` | src/rcu.cpp:34-43 | each element of the ring is visited once, in order, and is unused from then on |
| `RcuLists.CountedTwice` | include/rcu_list.hpp:71-100 | an element enqueued twice in a row is counted twice and stands in the list once |
| `Rcu.OneStarter` | src/rcu.cpp:45-62 | each batch is started by one CPU, alone, after every CPU was quiet in the last one |
| `Rcu.WordComplete` | include/rcu.hpp:49-52 | wrap-around of the 64-bit words never changes the answer of `complete` |
| `RcuProgress.LiveStep` | src/rcu.cpp:34-100 | every step keeps the protocol going: a batch nobody is waited for is complete or about to be reported, both flags mean that somebody starts the next batch, and whoever needs it has asked for it |
| `RcuProgress.CompletionReported` | src/rcu.cpp:45-67 | in every run, when nobody is waited for and nobody is reporting or starting, the batch has been reported complete |
| `RcuProgress.ThreeRounds` | src/rcu.cpp:70-100 | when each CPU in turn updates and answers its hazard, three rounds run all of `curr` and move `next` into its place |
| `RcuProgress.GracePeriodEnds` | src/rcu.cpp:34-100 | every run goes on, by finished calls and six such rounds, to a state in which a given queued element has run |
| `RcuProgress.CallRuns` | include/rcu.hpp:63-69 | so every call for an element that is not queued leads to its callback |
| `TicketLock.StepInv` | include/spinlock.hpp:46-66 | every atomic step keeps tickets in queue order, modulo 256 |
| `TicketLock.MutualExclusion` | include/spinlock.hpp:46-66 | in every run at most one CPU is inside |
| `TicketLock.LockedAtUnlock` | include/spinlock.hpp:56-66 | the assertion in `unlock` holds |
| `TicketLock.AdmittedAfter` | include/spinlock.hpp:46-66 | a CPU with k others ahead enters after exactly k releases |
| `TicketLock.MayEnter` | include/spinlock.hpp:46-54 | and after k releases its next look lets it in |
| `TicketLock.LockTaken` | include/spinlock.hpp:46-66 | every run goes on to a state in which a given CPU is inside |
| `Scheduler.AppendAllIs` | src/sc.cpp:152-171 | each queue grows by exactly its share, in order |
| `Scheduler.ReadyList.ReadyEnqueue` | src/sc.cpp:46-77 | the context joins the end of its queue, `prio_top` stays the highest priority in use, a higher priority asks for rescheduling |
| `Scheduler.ReadyList.ReadyDequeue` | src/sc.cpp:79-98 | exactly the context leaves its queue, `prio_top` stays the highest priority in use |
| `Scheduler.ReadyList.LowerTop` | src/sc.cpp:92-93 | finds the highest priority in use, or 0 |
| `Scheduler.ReadyList.Schedule` | src/sc.cpp:100-121 | the longest-waiting context of the highest priority runs; the assertion on it holds |
| `Scheduler.ReadyList.RemoteEnqueue` | src/sc.cpp:123-150 | the context joins the end of the remote queue; the hazard is raised exactly if the queue was empty |
| `Scheduler.ReadyList.RrqHandler` | src/sc.cpp:152-171 | all remote contexts join their queues in order, none lost or duplicated; rescheduling is asked for exactly if one outranks the running context |
| `Scheduler.RunsAfter` | src/sc.cpp:100-121 | with k peers ahead and nothing of higher priority arriving, a context runs after k further scheduling decisions |

## Left out

- Packing of entries into 64-bit words: entries are decoded records of frame, attributes and superpage bit.
- Levels of other than nine bits: every instantiation in the kernel uses nine.
- PageTables.PageTable.Update: one writer; what holds for concurrent writers, with the compare-and-swap retries, is `ConcurrentTables.Interleaved`, which does not say which pages and flushes they hand over.
- PageTables.PageTable.WalkDown: one writer, as for `Update`.
- PageTables.PageTable.MakeTable: one writer, as for `Update`.
- PageTables.PageTable.FillEntries: one writer, as for `Update`.
- Address bits above the reach of a table, and 64-bit overflow of addresses in the mapping database.
- The immediate free in `Tlb_cleanup::free_later`: pages are deferred, as its comment intends and as `Generic_page_table` demands of its clients.
- RcuProgress.GracePeriodEnds: shows one continuation, in which each CPU takes its turn; other fair schedules are not considered. The same goes for `TicketLock.LockTaken`, `ConcurrentProgress.UpdateEnds` and `ReadonlyPages.CallerEnds`.
- The HZD_IDL acceleration of RCU, which reports quiescence without a batch notice: its absence is an assumption of `Rcu`.
- Rcu.CallbackOrder: the three lists of a CPU are sequences; their pointers are in `RcuLists`.
- The storage-layout arithmetic of the `Buddy` constructor: the allocator starts from a given index range with zeroed tags.
- Splitting and freeing under concurrent users of one allocator or cache: each runs under its lock.
- The AVL tree behind the mapping database: `MappingDb.Mdb` keeps the members of all trees as one set, with `TreeLookup` as a scan; `AvlTrees` proves the tree against the same predicate.
- Wrap-around of selectors at the table size.
- 16-bit wrap-around of the derivation depth.
- MappingDb.Mdb.Delegate: windows are aligned as `DelegateWindowIff` requires, because a copy at an unaligned place ends the invariant; within one space an unaligned receiver's window lies apart from the sender's; the receiver is not the kernel, as `update` asserts.
- MappingDb.Mdb.Revoke: with `self` the space is not the kernel's, as `update` asserts.
- RcuLists.Lists.Append: the appended list is not empty, as the caller checks, and the other is empty or a ring.
- HostTables.InsertRoot: stops after a given number of rounds, because the loop need not end; the types are those of MTRRs, at most 7.
- MemoryTypes.Memtype: reads of model-specific registers are the fields of a given state.
- Scheduler.ReadyList.RrqHandler: the head of the remote queue follows the loop instead of being cleared at its end; the queue is locked throughout.
- Reference counts and time accounting in the scheduler, object destruction, IPC, system calls, CRD packing and `xlt_crd`, TLB shootdown, NMI handling, boot code and device drivers.
