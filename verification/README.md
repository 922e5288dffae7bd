# A verified model of the emulator core

This project models the machine core of the QEMU tree in this repository and proves what it keeps, for all inputs
and over all runs. The parts build on each other:

* **Memory map** (`RegionGraph`, `FlatView`, `TopologyDiff`, `Memory`, `PhysMap`, `Dispatch`, `PhysicalMemory`). A graph
  of regions with aliases, priorities, clipping and inherited read-only flags is rendered into a flat view, compared with
  the old view, and loaded into a radix tree with sub-page tables. After a commit every physical address reaches what a
  direct recursive lookup over the graph gives, or the sub-page RAM handler exactly where that is RAM whose page is not
  shown whole and in step with its region. Nested transactions and every mutator of regions are covered, and each
  mutator that can move a root says, of the state before the call, exactly when the maps stay right.
* **Kernel slots** (`KvmSlots`). The bounded slot table as a second listener on the same differences, with the exact
  condition under which it aborts and the exact condition under which a section's whole pages become a slot.
* **The whole of guest memory** (`Machine`). Graph, maps, page tables and slots over any run of calls: unless a table
  overflows, the listeners follow the maps after every call, and between transactions every access and every slot agrees
  with the graph wherever the maps are up to date, which is after every call exactly if every call is noticed.
* **RAM migration** (`MigrationStream`, `Migration`). The byte stream and its loader, the circular scan of the dirty
  bitmap, and safety over whole runs with guest stores at any time and with changes of the block list.
* **Block layer** (`BlockRequests`, `BlockAccess`). Serialisation of copy-on-read under every interleaving, byte access
  through sectors with faults, and committing an image into its backing file.
* **RAM blocks, TLB, bottom halves, GDB packets** (`RamBlocks`, `Tlb`, `BottomHalves`, `GdbFraming`).

`Prelude` and `Arithmetic` hold shared definitions. State that the source updates in place is a class whose methods
carry the source's loops; where a proof is about values, the class has a function that gives its state as a value
(`Tree`, `State`, `Places`) and the lemmas are about that. Preconditions are those of the source: its assertions, and the
invariants its own operations keep. Where an operation aborts, the method returns a flag or an option and the contract says
when.

Parameters stand for what the source asks of its surroundings: fault sequences for failed transfers, the contents of
guest stores and when they happen, what callbacks do, which run of sectors a driver reports, where RAM lies in host memory.

Three promises fail in the code, each with a concrete case and the exact condition:

* `Memory.MissedRootMove`, `Memory.MissedAddressMove` and `Memory.RootMoveShows`: the root of an address space moves
  without an update being asked for, because it is linked below a disabled region, or has a disabled parent, or has none.
* `KvmSlots.WholePageWithoutSlot` and `KvmSlots.SlotIsWholePages`: the start of a section is advanced by what its size lacks
  to whole pages, although the comment speaks of unaligned starts.
* `Migration.ScanNeverEnds`, `Migration.ScanEndsIff` and `Migration.ReachStuck`: the scan for the next page, without a
  starting point and without a marked page, which a changed block list leads to. The contracts of the callers say exactly
  when, as `stuck`.

## Model

| member | source | states |
|---|---|---|
| FlatViews.FlatView.Insert | qemu/memory.c:253-264 | The range is placed at the position; the others keep their order. |
| FlatViews.FlatView.FillGaps | qemu/memory.c:519-558 | Exactly the gaps of the view inside the clip are filled, with the right region offset; owned addresses keep their owner and the view stays sorted. |
| FlatViews.FlatView.RenderSubregions | qemu/memory.c:510-513 | Each address takes the first subregion that answers for it, unless it already had an owner. |
| FlatViews.FlatView.Render | qemu/memory.c:474-559 | For any acyclic graph, sorted view, base, clip and inherited read-only flag: the view stays sorted and disjoint, and every address has its old owner, else the answer of the recursive resolver inside the clip. |
| FlatViews.FlatView.MergeRun | qemu/memory.c:289-294 | The inner loop merges one maximal run of mergeable ranges and stops where the next range does not merge. |
| FlatViews.FlatView.Simplify | qemu/memory.c:284-301 | Lookup is unchanged at every address and no two neighbours can be merged any more. |
| FlatViews.SimplifiedIsUnique | qemu/memory.c:271-301 | Canonical form: two sorted, simplified views that show the same owner at every address are equal as sequences. |
| FlatViews.RenderingIsUnique | qemu/memory.c:562-575 | The rendering of a graph is determined by what the graph shows. |
| FlatViews.GenerateTopology | qemu/memory.c:562-575 | The result is the rendering of the graph: sorted, simplified, and equal to the direct lookup at every address. |
| RegionGraph.VisibleByRank | qemu/memory.c:474-575 | What an address space shows is the recursive lookup from its root, under any ranking. |
| TopologyDiff.UpdateTopologyPass | qemu/memory.c:657-717 | The two-cursor merge emits exactly the events of the plain search: one del for each old range that no new range equals up to its mask, one nop or add for each new range, in order, with log start or stop exactly where the mask becomes non-zero or zero. |
| TopologyDiff.DeletionsAre | qemu/memory.c:681-692 | The delete pass, said without the comparison of the code: in order, one del for each old range that is no new range but for its mask, and nothing else. |
| TopologyDiff.AdditionsAre | qemu/memory.c:693-715 | The add pass likewise: in order, an add for each new range that is no old range but for its mask, else a nop and exactly the change of its logging. |
| TopologyDiff.DeletePass | qemu/memory.c:657-717 | The delete pass leaves a listener with exactly the kept ranges, its sections disjoint after every event. |
| TopologyDiff.AddPass | qemu/memory.c:657-717 | The add pass then brings it from the kept ranges to the new view, masks included. |
| TopologyDiff.DiffIsExact | qemu/memory.c:657-731 | For any two sorted views, delete pass then add pass turn a listener that holds exactly the old view into one that holds exactly the new one; every event is sensible and every intermediate state disjoint. |
| TopologyDiff.DeletionsReloadNothing | qemu/memory.c:681-692 | The delete pass hands the dispatch listener nothing to map. |
| TopologyDiff.AdditionsReloadAll | qemu/memory.c:693-715 | The add pass hands it every range of the new view, in order, as an add or a nop. |
| PhysMap.PhysPageMap.NodeReserve | qemu/exec.c:107-117 | There is room for the nodes asked for; an array that was too small at least doubles. |
| PhysMap.PhysPageMap.NodeAlloc | qemu/exec.c:119-132 | A fresh node hangs off the empty slot, all its entries empty, or unassigned leaves at the last level. |
| PhysMap.PhysPageMap.EnsureNode | qemu/exec.c:145-159 | The node below a slot exists afterwards and stands for that slot; no page of any space changes its section. It fails only when the new index would be the nil index. |
| PhysMap.PhysPageMap.SetSlot | qemu/exec.c:161-171 | One slot of the loop: exactly the pages of the range below that slot take the section, within the allocation bound for the slot, unless the node indices run out. |
| PhysMap.PhysPageMap.SetLevel | qemu/exec.c:140-173 | Exactly the part of the range below the given slot takes the section; what is left of the range comes back; nodes outside are untouched; allocation stays within the bound for the slot. It fails only when the indices run out before that bound. |
| PhysMap.PhysPageMap.PageSet | qemu/exec.c:175-183 | Refines a flat page map: the new section exactly on the range, the old answer for every other page of every space; at most 2 * levels - 1 nodes are allocated, so reserving 3 * levels is enough for the capacity assertion, and the nil assertion is the only one that can fail. |
| PhysMap.PhysPageMap.PageFind | qemu/exec.c:185-203 | The walk returns the section the map holds for the page. |
| PhysMap.PhysPageMap.Begin | qemu/exec.c:679-704 | Afterwards no page of any space is mapped and all nodes are free. |
| PhysMap.GrownAt | qemu/exec.c:145-156 | Allocating a node changes the answer for no page. |
| PhysMap.PutLeaf | qemu/exec.c:163-167 | Writing a leaf changes exactly the pages under the slot. |
| PhysMap.CapBelow | qemu/exec.c:140-173 | While the loop of a level goes on, the nodes spent so far plus the bound for the next slot stay within the bound of the level. |
| Dispatch.PhysDispatch.SectionAdd | qemu/exec.c:706-717 | Adding a section changes no answer; it is reported when the index does not fit the 15 bits of an entry. |
| Dispatch.PhysDispatch.SubpageRegister | qemu/exec.c:1606-1629 | The bytes of the range point at the section, retagged if it is RAM; out-of-range arguments change nothing; no index outgrows 15 bits. |
| Dispatch.PhysDispatch.TableFor | qemu/exec.c:722-744 | The page has a sub-page table afterwards and no answer changes; the assertion of register_subpage on the existing section holds. It fails only when the indices run out. |
| Dispatch.PhysDispatch.RegisterSubpage | qemu/exec.c:722-747 | Exactly the addresses of the section reach its region at the right offset; every other address of every space answers as before; the page stays open to further pieces. |
| Dispatch.PhysDispatch.RegisterMultipage | qemu/exec.c:750-762 | The same for whole pages, with one new section and at most 2 * levels - 1 nodes. |
| Dispatch.PhysDispatch.MemAdd | qemu/exec.c:764-796 | Cutting a section into head, pages and tail maps exactly the section: each address reaches its region at its offset, through the sub-page RAM handler where RAM does not fill a page in step. It fails only when a section or node index no longer fits, and never while there is room for every piece. |
| Dispatch.PhysDispatch.Begin | qemu/exec.c:1681-1696 | All spaces are vacant and only the four fixed sections are left. |
| Dispatch.PhysDispatch.Replay | qemu/exec.c:764-796 | Replaying the events of a topology update into a vacant space maps exactly the ranges the events carry, and changes no other space. It fails only when a range leaves the physical span or the indices run out. |
| Dispatch.PhysDispatch.Access | qemu/exec.c:1542-1546 | Radix walk, then sub-page table: the section that answers for an address. |
| Dispatch.ExpectedIsLookup | qemu/exec.c:764-796 | What loading a sorted, simplified view gives at an address is exactly the view's own lookup there, except that RAM is reached through the sub-page RAM handler if, and only if, the view does not show its whole page in step with the region. |
| Dispatch.WholeIsShown | qemu/exec.c:764-796 | In a simplified view, one range fills a page in step with its region if, and only if, the view shows that page as one piece. |
| Memory.MemoryCore.TransactionBegin | qemu/memory.c:733-737 | Nesting deepens; maps that are up to date stay so, and no others become so. |
| Memory.MemoryCore.UpdateTopology | qemu/memory.c:720-731 | The map becomes the rendering of the graph and listeners hear exactly the difference. |
| Memory.MemoryCore.TransactionCommit | qemu/memory.c:739-755 | Closing the outermost transaction with an update pending brings every map up to date, whatever was missed before, and the listeners of each space hear the difference; otherwise nothing changes. |
| Memory.MemoryCore.SetEnabled | qemu/memory.c:1384-1393 | An update is asked for exactly when the field changes; maps that were up to date stay so. |
| Memory.MemoryCore.SetLog | qemu/memory.c:1059-1067 | An update is asked for exactly when the region is enabled, and otherwise the maps are still right. |
| Memory.MemoryCore.SetReadonly | qemu/memory.c:1114-1122 | As for set_log, and only on a change. |
| Memory.MemoryCore.SetReadable | qemu/memory.c:1124-1132 | As for set_log, and only on a change. |
| Memory.MemoryCore.SetAliasOffset | qemu/memory.c:1416-1428 | As for set_log, and only on a change. |
| Memory.MemoryCore.AddSubregionCommon | qemu/memory.c:1309-1351 | The region is linked after exactly those of strictly higher priority, the others keep their order, and it is moved; an update is asked for exactly when both regions are enabled. From maps that are up to date: they stay so if, and only if, an update was asked for or pending already, or the move is hidden, which is said of the graph before the call. |
| Memory.MemoryCore.AddSubregion | qemu/memory.c:1354-1371 | Overlap and priority are set, then the region is linked, with the same exact condition. |
| Memory.MemoryCore.DelSubregion | qemu/memory.c:1373-1382 | Exactly this region leaves the list of its parent, the others keep their order, and no other region and no other field changes; the flag is never too weak. |
| Memory.MemoryCore.SetAddress | qemu/memory.c:1395-1414 | A region without parent is moved in place; one with a parent is unlinked and linked again inside one transaction, its priority kept if it may overlap and zero otherwise, with nothing but the list of its parent changed besides. The maps stay up to date if, and only if, an update was asked for or pending already, or the move is hidden. |
| Memory.MemoryCore.Relink | qemu/memory.c:1405-1413 | The second case of set_address: two nested transactions in one, with the same exact condition. |
| Memory.MaskOnlyClient | qemu/memory.c:1061-1064 | Setting or clearing one client's logging bit leaves the others alone. |
| Memory.InsertOrdered | qemu/memory.c:1341-1347 | Linking a region keeps the subregions in descending priority. |
| Memory.AddedPlaced | qemu/memory.c:1341-1347 | In the new list exactly the subregions of strictly higher priority come before the new one, so that it obscures those of its own priority. |
| Memory.NewerObscures | qemu/memory.c:1341-1347 | Where no subregion of strictly higher priority answers, the new region answers if it can. |
| Memory.FieldShape | qemu/memory.c:1119-1129 | Changing attributes of a disabled region changes nothing that is shown. |
| Memory.AddShape | qemu/memory.c:1349 | Linking below a disabled region, or linking a disabled one, changes nothing that is shown. |
| Memory.RemoveShape | qemu/memory.c:1380 | Unlinking likewise. |
| Memory.SameVisible | qemu/memory.c:474-575 | Graphs of the same shape show the same owner everywhere. |
| Memory.MissedRootMove | qemu/memory.c:1309-1351 | The flag can be too weak: linking the root of an address space below a disabled region moves what the space shows and asks for no update. |
| Memory.MissedAddressMove | qemu/memory.c:1395-1404 | The second way: setting the address of a root that has no parent moves what the space shows and asks for no update. |
| Memory.RootMoveShows | qemu/memory.c:1309-1351 | Exactly when a moved root goes unnoticed, told from the graph before the move: its address does not change, or from the lower of the two addresses on nothing of it lies below the end of the address space. |
| Memory.MoveAgrees | qemu/memory.c:1309-1414 | Over all address spaces: after a move that asked for no update the maps are right if, and only if, the region is the root of no space or the move changes nothing that it shows. |
| PhysicalMemory.UpdateReloads | qemu/memory.c:720-731 | An update reloads exactly the new view. |
| PhysicalMemory.LoadedServes | qemu/exec.c:764-796 | Loaded page tables over maps that agree with the graph: for every space and every address in the span an access reaches exactly the region and offset that the graph shows, or the sub-page RAM handler exactly where the graph shows RAM whose page is not shown whole and in step. |
| PhysicalMemory.ReloadAll | qemu/exec.c:1681-1696 | Told of an update, the listeners of all spaces clear the tables and build them again: every access then reaches what the new view of its space shows. It fails only when a view leaves the physical span or the indices run out. |
| PhysicalMemory.CommitPhysical | qemu/memory.c:739-755 | End to end: after a commit with an update pending, for every space and every address in the physical span, radix walk and sub-page table reach exactly the region and offset of the direct recursive lookup over the region graph, with the sub-page RAM handler in place of RAM exactly where its page is not shown whole and in step, unless a table overflows. |
| KvmSlots.KvmState.constructor | qemu/kvm-all.c:72-74 | All slots free, nothing mapped. |
| KvmSlots.KvmState.AllocSlot | qemu/kvm-all.c:119-131 | The first free slot; one is found exactly when fewer than 32 are used. |
| KvmSlots.KvmState.LookupOverlappingSlot | qemu/kvm-all.c:154-176 | The overlapping live slot with the lowest start, or none if no slot overlaps. |
| KvmSlots.KvmState.RegisterSlot | qemu/kvm-all.c:643-661 | A free slot takes the new contents; it fails exactly when all slots are used. |
| KvmSlots.KvmState.CutSlot | qemu/kvm-all.c:598-682 | One turn of the loop: exactly the part of the slot inside the range disappears; it fails only if the result needs more than 32 slots. |
| KvmSlots.KvmState.CutAll | qemu/kvm-all.c:583-683 | The loop terminates, stops early exactly when one slot already holds the section, and otherwise leaves no slot in the range and everything outside it unchanged. |
| KvmSlots.KvmState.SetPhysMem | qemu/kvm-all.c:552-702 | Live slots stay disjoint; the guest-to-host map changes exactly on the effective range; the new set of slots is given exactly; the call aborts if, and only if, the slots left outside the range, plus one for an addition, exceed 32 and no slot held the section already. |
| KvmSlots.OneSplitAtMost | qemu/kvm-all.c:642-682 | Cutting a range out of disjoint slots needs at most one slot more than were used. |
| KvmSlots.TwoFreeSuffice | qemu/kvm-all.c:119-131 | Two free slots are enough for any call. |
| KvmSlots.SlotIsWholePages | qemu/kvm-all.c:564-575 | The effective range is exactly the whole pages of the section if, and only if, start and size are off a page boundary by the same amount or no whole page exists. |
| KvmSlots.WholePageWithoutSlot | qemu/kvm-all.c:564-575 | A concrete section with a whole page that gets no slot. |
| KvmSlots.KvmState.Follow | qemu/kvm-all.c:704-714 | Over any sensible run of events the live slots are exactly those of the sections held; it aborts if, and only if, at some point more than 32 would be needed. |
| KvmSlots.KvmState.FollowCommit | qemu/kvm-all.c:704-714 | Over a whole commit: from the slots of the old view to exactly those of the new one, aborting if, and only if, the new view has more than 32 sections to map. |
| KvmSlots.GuestSeesTheGraph | qemu/kvm-all.c:552-702 | Whatever the guest reaches through the slots is RAM that the region graph shows at that address, at the right offset. |
| KvmSlots.GuestSeesAllRam | qemu/kvm-all.c:552-702 | With RAM in whole pages the guest reaches all of it and nothing else. |
| Machine.Call | qemu/memory.c:733-1428 | Any one call on regions or transactions: the next graph, nesting and flag, what the listeners hear, when the maps are rendered afresh and when they stay; and up-to-date maps stay so if, and only if, the call is noticed. |
| Machine.Listeners.Hear | qemu/memory.c:720-755 | Page tables and slots that hold the old views hold the new ones after what they hear; they fail only when a table overflows. |
| Machine.SlotsServe | qemu/kvm-all.c:552-702 | Slots that follow a map that agrees with the graph give the guest only RAM that the graph shows there, and all of it when RAM fills whole pages. |
| Machine.FollowersServe | qemu/memory.c:739-755 | Where the maps are up to date and no update is pending, page tables and slots that follow them agree with the region graph at every access and in every slot. |
| Machine.Machine.Perform | qemu/memory.c:733-1428 | One call and what all listeners make of it keeps the machine's invariant, unless a table overflows; the maps are rendered afresh exactly when an update is due. |
| Machine.Machine.Run | qemu/memory.c:733-1428 | Safety along all runs of calls that overflow no table, for the trace of maps, page tables and slots: each call renders the maps afresh exactly when an update is due; after every call the listeners follow the maps; between transactions every access and every slot agrees with the graph wherever the maps are up to date; and they are up to date after every call if, and only if, every call of the run is noticed. |
| MigrationStream.GetPut | qemu/arch_init.c:273 | Big-endian words come back as written. |
| MigrationStream.CheckTableBack | qemu/arch_init.c:788-824 | The block list in the stream is accepted if, and only if, the destination has every block at the same length. |
| MigrationStream.LoadStepBack | qemu/arch_init.c:268-283 | Each record the sender writes has exactly its meaning to the loader, because the loader's remembered block is the block the sender last sent whenever the continue flag appears. |
| MigrationStream.StreamBack | qemu/arch_init.c:769-875 | Any stream of complete sections loads to the state obtained by applying its records in order, also when a continued block spans sections. |
| MigrationStream.MismatchRefused | qemu/arch_init.c:804-820 | A destination without the sender's blocks refuses the stream. |
| MigrationStream.RamLoader.LookupBlock | qemu/arch_init.c:760-763 | The first block of that name. |
| MigrationStream.RamLoader.SyncBlockList | qemu/arch_init.c:788-824 | The loop computes the check of the block list, 64-bit wrap-around included. |
| MigrationStream.RamLoader.HostFromStreamOffset | qemu/arch_init.c:739-767 | The remembered block under the continue flag, else the named block, which is remembered. |
| MigrationStream.RamLoader.ReadPage | qemu/arch_init.c:826-852 | A duplicate page is filled, a full page copied, into the named place only. |
| MigrationStream.RamLoader.Load | qemu/arch_init.c:769-875 | The loop loads one section as specified, or refuses it. |
| Migration.FindNextBit | qemu/arch_init.c:359 | The first set bit at or after the start, else the size. |
| Migration.IsDupPage | qemu/arch_init.c:167-180 | True exactly when all bytes of the page are equal. |
| Migration.LastRamPage | qemu/exec.c:941-950 | The greatest end of any block. |
| Migration.AllocatedApart | qemu/arch_init.c:354-356 | The allocator's list gives migration blocks of whole pages that share none. |
| Migration.RamSaver.FindAndResetDirty | qemu/arch_init.c:351-366 | The next marked page of the block is unmarked and the counter still equals the number of marks. |
| Migration.RamSaver.SetDirty | qemu/arch_init.c:368-380 | The page is marked and the counter still equals the number of marks. |
| Migration.RamSaver.BitmapSync | qemu/arch_init.c:382-420 | Every logged page of every block becomes marked and its log bit is cleared; nothing else changes; safety is kept. |
| Migration.RamSaver.SendPage | qemu/arch_init.c:455-495 | One record with the page as it is now, as a single byte exactly if all its bytes are equal, with the continue flag exactly if the last page sent was of this block. |
| Migration.RamSaver.SaveBlock | qemu/arch_init.c:429-498 | The circular scan sends nothing only if no page of any block is marked; otherwise the first mark in circular order from the last position is cleared, and only that, and its page is sent, also if the guest writes in between. It is stuck if, and only if, there is no scan position and no mark. |
| Migration.RamSaver.SendMarked | qemu/arch_init.c:455-495 | The page on its way is sent as it is, whatever the guest writes meanwhile. |
| Migration.ScanDone | qemu/arch_init.c:443-447 | On the second visit to the starting block no mark at or after the starting offset can be found, so none is lost. |
| Migration.ScanNeverEnds | qemu/arch_init.c:438-455 | With no scan position and no marked page the loop of ram_save_block is never left, whatever the number of turns. |
| Migration.ScanEndsIff | qemu/arch_init.c:435-492 | The loop is left, within two rounds of the list, if and only if there is a scan position or a marked page. |
| Migration.ReachStuck | qemu/arch_init.c:604-626 | From every configuration a run without any guest store reaches the scan that is never left: everything sent, a block come and gone, one more iteration. |
| Migration.StuckExample | qemu/arch_init.c:613-626 | Such a run on one block of one page, and the state it ends in. |
| Migration.RamSaver.RamBytesTotal | qemu/arch_init.c:517-526 | The sum of the block lengths. |
| Migration.RamSaver.PutBlockList | qemu/arch_init.c:590-596 | The list the loader checks. |
| Migration.RamSaver.ResetGlobals | qemu/arch_init.c:551-557 | The scan position and the last block sent are forgotten, and the version of the list is taken; stream and counter stay right. |
| Migration.RamSaver.MarkAll | qemu/arch_init.c:561-588 | Every page is marked and none has been sent. |
| Migration.RamSaver.Setup | qemu/arch_init.c:561-602 | Every page is marked, no scan position is set, and the stream holds the block list. |
| Migration.RamSaver.SaveIterate | qemu/arch_init.c:604-657 | As many pages as allowed, or all that are marked, with exactly the guest's stores that fall to those pages in between; the section is closed and safety kept. It is stuck if, and only if, a page is asked for, none is marked, and there is no scan position or the block list has changed. |
| Migration.RamSaver.SaveComplete | qemu/arch_init.c:659-683 | With the guest stopped the loop terminates and every page has been sent as it is, unless there is no scan position and neither a mark nor a logged page. |
| Migration.RamSaver.Migrate | qemu/arch_init.c:561-683 | Safety over whole runs: for any interleaving of guest stores, syncs, iterations and changes of the block list that leave it as it was, each action does what it says along the trace, memory is changed by exactly the guest's stores in their order, the stream has a closed section for every iteration with as many pages as stores fell to, and at the end every page has been sent as it is. A run gets stuck only after a change of the list. |
| Migration.DestinationHolds | qemu/arch_init.c:769-875 | A destination that applied the records holds, for each page, the contents last sent for it, else its own. |
| Migration.StreamDelivers | qemu/arch_init.c:769-875 | Any matching destination that loads the bytes of such a stream holds the source's memory. |
| Migration.CleanPageDelivered | qemu/arch_init.c:769-875 | At the end of any section, a page that is neither marked nor logged is the same at every matching destination that has loaded the stream so far. |
| Migration.MigrateTo | qemu/arch_init.c:561-875 | Sender and loader together: after any run that is not stuck the destination's memory is the source's, which is what it was at the start and the guest's stores. |
| BlockRequests.RoundedIsClusters | qemu/block.c:1676-1692 | The rounded request is exactly the sectors of the clusters it touches. |
| BlockRequests.OneSideIsEnough | qemu/block.c:1694-1705 | Rounding only one side of the overlap test finds exactly the requests that share a cluster. |
| BlockRequests.BlockDevice.FindOverlap | qemu/block.c:1707-1741 | A tracked request that shares a cluster, or none if there is none. |
| BlockRequests.BlockDevice.Begin | qemu/block.c:1655-1671 | The request is tracked; no tracked copy-on-read shares a cluster with another tracked request. |
| BlockRequests.BlockDevice.WaitOrBegin | qemu/block.c:1707-1741 | The request is tracked if no tracked request shares a cluster, else it sleeps on one that does. |
| BlockRequests.BlockDevice.Submit | qemu/block.c:2256-2267 | A request is tracked at once exactly if no copy-on-read is in flight or no tracked request shares a cluster with it, else it sleeps on one that does; counting copy-on-read requests before they wait is enough to keep every other request in line. |
| BlockRequests.BlockDevice.Resume | qemu/block.c:1728-1741 | A restarted coroutine looks again. |
| BlockRequests.BlockDevice.Complete | qemu/block.c:1646-1650 | The request goes; everyone asleep on it is restarted with its request, every other sleeper sleeps on, nobody else moves, and the counter follows. |
| BlockRequests.BlockDevice.ReadSector | qemu/block.c:2283 | A tracked read gets the guest's last store, a copy-on-read from its bounce buffer. |
| BlockRequests.BlockDevice.CopySector | qemu/block.c:2198-2199 | What a copy-on-read holds in its bounce buffer is current and stays so. |
| BlockRequests.BlockDevice.WriteBack | qemu/block.c:2204-2213 | Writing the bounce buffer back changes nothing the guest sees. |
| BlockRequests.BlockDevice.WriteSector | qemu/block.c:2375-2379 | A guest store changes exactly its sector and makes no bounce buffer stale. |
| BlockRequests.NoWaitCycle | qemu/block.c:1714-1741 | Whoever is waited for is tracked and waits for nobody, so there is no wait cycle; with nothing tracked nobody waits. |
| BlockRequests.AllAccounted | qemu/block.c:1646-1650 | At every point of a run exactly the requests that have arrived and not ended are tracked, asleep or restarted, each in one place and with what it asked for. |
| BlockRequests.Perform | qemu/block.c:2167-2396 | Any one step is the step of the device as a relation between snapshots of places, image and bounce buffers, and keeps all of this; only a tracked write adds to the guest's stores, and a read gets the last store. |
| BlockRequests.Run | qemu/block.c:2167-2396 | For every schedule, along the whole trace of snapshots: each step is a step of the device; every request that has arrived and not ended is in one place; no copy-on-read shares a cluster with another tracked request and no waits form a cycle; every read gets the last store made before it; and at the end the device shows exactly the stores of the tracked writes, in order: no copy-on-read loses one. |
| BlockAccess.SectorDevice.ReadSectors | qemu/block.c:2017-2021 | The bytes of those sectors, or an error for a failed or out-of-range transfer. |
| BlockAccess.SectorDevice.WriteSectors | qemu/block.c:2043-2047 | Exactly those sectors change; a transfer that fails on the way leaves a front part of them written and nothing else changed. |
| BlockAccess.SectorDevice.WritePart | qemu/block.c:2109-2113 | Read, patch and write back changes just the part of the sector, or nothing. |
| BlockAccess.SectorDevice.Pread | qemu/block.c:2049-2092 | Exactly the bytes asked for; in range and without a fault it succeeds. |
| BlockAccess.SectorDevice.Pwrite | qemu/block.c:2094-2141 | Exactly the bytes of the range become the buffer; on a failure some front part has been written and nothing else has changed. |
| BlockAccess.PutThenGot | qemu/block.c:2049-2141 | What was written is what is read back. |
| BlockAccess.PutBytes | qemu/block.c:2094-2141 | Byte by byte: the part written is the buffer, every other byte is as before. |
| BlockAccess.CowImage.IsAllocated | qemu/block.c:2706-2727 | A non-empty run in one state, clamped to the device; without a map all counts as allocated. |
| BlockAccess.CowImage.CopyAll | qemu/block.c:1581-1594 | What the guest sees is the same after every turn and on every error exit, also after a write that failed halfway; on success the backing file has every allocated sector. |
| BlockAccess.CowImage.Commit | qemu/block.c:1546-1616 | What the guest sees never changes; on success the backing file alone shows it; the read-only state is restored; each early error, from a missing medium on, is reported exactly when its condition holds. |
| RamBlocks.RamList.FindRamOffset | qemu/exec.c:908-939 | The end of the block followed by the tightest gap that fits, first in the list among equals; zero for an empty list; it fails if, and only if, no gap fits. |
| RamBlocks.RamList.NextAfter | qemu/exec.c:917-925 | The next block start at or after the end, else the address limit. |
| RamBlocks.RamList.Alloc | qemu/exec.c:1018-1088 | Blocks stay disjoint, page aligned and listed by non-increasing length; the new block takes the best gap and comes before the first shorter one; the cache is dropped; it fails if, and only if, no gap fits. |
| RamBlocks.RamList.Free | qemu/exec.c:1095-1154 | The block at the address goes, if there is one, and the others keep their order. |
| RamBlocks.RamList.AllocThenFree | qemu/exec.c:1068-1123 | A block that comes and goes leaves the list exactly as it was, and the version two further on. |
| RamBlocks.RamList.GetRamPtr | qemu/exec.c:1226-1259 | Lookup through the most recently used block equals plain search: the only block that contains the address, or none. |
| RamBlocks.HitIsContains | qemu/exec.c:1232-1236 | The unsigned comparison is containment. |
| RamBlocks.GapIsFree | qemu/exec.c:916-930 | The space after a block up to the next start overlaps no block. |
| Tlb.Widen | qemu/cputlb.c:215-234 | The mask-widening loop terminates with the smallest aligned region that holds the old region and the whole new page. |
| Tlb.TlbState.Flush | qemu/cputlb.c:55-79 | Every entry is empty and no region is tracked. |
| Tlb.TlbState.AddLargePage | qemu/cputlb.c:215-234 | Every large page installed since the last full flush lies inside the tracked region, which grows no further than it must. |
| Tlb.TlbState.SetPage | qemu/cputlb.c:239-311 | For each permitted access the slot serves exactly the addresses of the page, and for any other access none; reads go to the I/O callback exactly for I/O and watched pages, stores for those and read-only memory, code for I/O memory; stores are recorded exactly for RAM that is still clean; other slots are unchanged; a large page is tracked. |
| Tlb.EntryFlags | qemu/cputlb.c:285-310 | Which flags the three tags carry, in terms of what the section is, and that they carry no other. |
| Tlb.TlbState.FlushPage | qemu/cputlb.c:93-122 | Afterwards no entry serves the page and no installed large page contains the address; without a forced flush every other entry is unchanged. |
| Tlb.TlbState.FlushEntry | qemu/cputlb.c:81-91 | The entry is emptied exactly if one of its tags is for the page; afterwards none of its three tags serves the page. |
| Tlb.TagShows | qemu/cputlb.c:262-306 | A tag carries the I/O and not-dirty flags exactly as asked, beside the page address. |
| Tlb.CoversPage | qemu/cputlb.c:101-110 | An address in a tracked large page always forces the full flush. |
| Tlb.IndexBits | qemu/cputlb.c:116-116 | Two addresses share a slot exactly if the eight bits above the page offset agree. |
| Tlb.PageBits | qemu/cputlb.c:115-115 | The page of an address drops the low twelve bits and nothing else. |
| Tlb.EntryServes | qemu/cputlb.c:279-310 | Each of the three tags serves every address of the page and no other if its access is permitted, and no address otherwise. |
| Tlb.EntryServesItsPage | qemu/cputlb.c:81-91 | An entry serves only the page it was filled for, and only from that page's slot. |
| BottomHalves.AioContext.BhNew | qemu/async.c:42-52 | A new bottom half at the head of the list, not scheduled. |
| BottomHalves.AioContext.BhSchedule | qemu/async.c:92-107 | Asking again changes nothing. |
| BottomHalves.AioContext.BhCancel | qemu/async.c:109-118 | The request is withdrawn; deletion marks it for removal. |
| BottomHalves.AioContext.Visit | qemu/async.c:62-71 | It runs exactly if scheduled and not deleted: one request is taken, and then the next callback is carried out in full. |
| BottomHalves.AioContext.WalkAll | qemu/async.c:62-71 | Saved next pointers stay good under any re-entrant callbacks, so that the walk over pointers is a walk over the list as it was when it began, the k-th callback going to the k-th bottom half that runs. |
| BottomHalves.AioContext.Perform | qemu/async.c:42-118 | One action of a callback does to the bottom halves exactly what it does to a plain list with flags; whatever it is, nothing is unlinked while a walk is on. |
| BottomHalves.AioContext.Execute | qemu/async.c:42-118 | A whole callback does its actions one after the other, nested polls included. |
| BottomHalves.AioContext.BhPoll | qemu/async.c:54-90 | The pointer walk refines the poll of a plain list: the bottom halves that were there when it began are visited in order and run exactly if pending; deleted bottom halves never run again; requests asked equal requests run, dropped or pending; every request pending at the start is settled; the outermost poll unlinks exactly the deleted ones; the result is true exactly if a visit found a request that was not idle. |
| BottomHalves.AioContext.Sweep | qemu/async.c:75-87 | Exactly the deleted bottom halves are unlinked and freed. |
| BottomHalves.LinkedUnlink | qemu/async.c:79-83 | Unlinking one element through a pointer to its predecessor's link leaves the others as they were. |
| GdbFraming.MemToHex | qemu/gdbstub.c:418-429 | The hex spelling, which reads back to the same bytes. |
| GdbFraming.HexToMem | qemu/gdbstub.c:431-439 | The bytes the digits spell. |
| GdbFraming.HexRoundTrip | qemu/gdbstub.c:418-439 | Hex round trip, free of end marks. |
| GdbFraming.HexDigits | qemu/gdbstub.c:398-416 | Digits are written in lower case and read in either; anything else counts as zero. |
| GdbFraming.MemToX | qemu/gdbstub.c:1799-1817 | The escaped form: free of end marks, at most twice as long, and it unescapes to the input. |
| GdbFraming.FlipIsXor | qemu/gdbstub.c:1805-1814 | Each of the four special characters goes out as the escape followed by its exclusive or with 0x20; every other byte goes out as it is. |
| GdbFraming.EscapeRoundTrip | qemu/gdbstub.c:1799-1817 | Unescaping undoes escaping, and no special character but the escape itself is left. |
| GdbFraming.Checksum | qemu/gdbstub.c:452-455 | The sum of the bytes. |
| GdbFraming.GdbStub.PutPacketBinary | qemu/gdbstub.c:442-474 | The frame is sent and remembered for retransmission. |
| GdbFraming.GdbStub.ReadByte | qemu/gdbstub.c:2656-2730 | One byte: retransmission and acknowledgement while waiting, stopping a running machine, else one step of the parser. |
| GdbFraming.FramedPayload | qemu/gdbstub.c:2689-2725 | A framed payload with any two checksum characters is handed over and acknowledged exactly when they spell its checksum; otherwise nothing is handed over and it is refused. |
| GdbFraming.PacketsOk | qemu/gdbstub.c:2696-2704 | Whatever arrives, only lines that fit the buffer and have no end mark are handed over. |
| GdbFraming.FrameRoundTrip | qemu/gdbstub.c:442-474 | A frame gets its payload across if, and only if, the payload has at most 4095 bytes and no end mark. |
| GdbFraming.GdbStub.ReceiveFrame | qemu/gdbstub.c:2656-2730 | Byte by byte from idle with the machine stopped: the payload is delivered once and answered with a plus. |

## Left out

- Memory.MemoryCore.AddSubregionCommon: the overlap warnings are debugging output.
- Dispatch.PhysDispatch.SectionAdd: the source does not check that an index fits 15 bits; the model stops there with a result that is not `ok`, as it does where the source asserts.
- Dispatch.PhysDispatch.Replay: a range outside the physical span ends the replay, where the source drops the high bits of the page number.
- Dispatch.PhysDispatch.MemAdd: what RAM reads and writes do behind the sub-page RAM handler is not modelled.
- Machine.Machine.Run: the order in which several listeners hear one event is not modelled, since none of them looks at another; after an overflow the run ends.
- FlatViews.FlatView.Render: sizes and offsets are unbounded integers; the abort on turning a 2^64-byte size into 64 bits is not modelled.
- KvmSlots.KvmState.SetPhysMem: the branch for kernels that cannot join regions, dirty-log flags, failing ioctls and wrap-around at the end of the 64-bit space are not modelled.
- Migration.RamSaver.SaveBlock: guest stores may fall between clearing a mark and reading the page, but not inside the reading of one page.
- Migration.RamSaver.SaveIterate: rate limit and clock are the length of its argument; the return for a failed file is not modelled.
- Migration.RamSaver.Migrate: the block list may change between iterations only so that it is as before; delta compression (XBZRLE) is off; dirty-rate statistics are not modelled.
- MigrationStream.RamLoader.Load: a truncated stream is refused at once, where the source reads zeros and reports the error a little later; an offset beyond the block counts as refused, where the source trusts it; section headers between the sections and madvise are not modelled.
- BlockRequests.BlockDevice.FindOverlap: which of several overlapping requests is found is left open, so that every order of the list is covered; fairness between waiters is not modelled.
- BlockRequests.BlockDevice.Submit: throttling, read-only and range checks, and requests nested in one coroutine are not modelled.
- BlockRequests.BlockDevice.WriteSector: flushes, the dirty bitmap and the highest written sector are not modelled; writing zeros is a store of zeros.
- BlockAccess.CowImage.Commit: reopening either succeeds or fails as its argument says; a sector is written whole or not at all.
- RamBlocks.RamList.Alloc: host memory, Xen, merging and the dirty bytes are not modelled.
- Tlb.TlbState.SetPage: 64-bit addresses and 4096-byte pages; the host addend, the I/O table and the jump cache are not modelled.
- BottomHalves.AioContext.Perform: a callback cannot name a bottom half that has been freed; notifying the event loop is not modelled.
- GdbFraming.GdbStub.ReadByte: what a packet asks for is not modelled, only that it is handed over; user-mode emulation waits for the acknowledgement differently.
- I/O event notifiers, coalesced MMIO and log synchronisation in memory.c: bookkeeping beside the memory map.
- address_space_init and address_space_destroy: the model starts from registered spaces, with maps that agree with the graph.
- multiwrite_merge, I/O throttling, block-migration.c and memory_mapping.c: merging of requests, rates and completion order, and a separate mapping list.
- Monitor and option front ends, disassembly, device trees, devices and signals: plumbing around this core.
- The switch, its packet processing and its tests in the rest of the repository.
