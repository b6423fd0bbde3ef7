# Flash translation layers of the SSD simulator: a verified model

The simulator maps logical pages to pages of a flash device whose pages must be erased before
they are written again. This project models three of its flash translation layers (FTLs) over
one device, the block manager they share, the address routing and the bus channel, and proves
that they do what a drive is for: after any run of writes, trims, collections, evictions and
merges, a logical page holds what was last written to it.

| file | what it holds |
|---|---|
| `Flash.dfy` | blocks and devices as values: page states, payloads, per-block summaries |
| `Device.dfy` | the classes `Block` (arrays of states and payloads, counters) and `Ssd` |
| `Address.dfy` | splitting and recomposing linear addresses |
| `BlockManager.dfy` | virgin area, free list, invalid list, activity counters |
| `MnftlSpec.dfy`, `Mnftl.dfy` | MNFTL: PMD and PMT, the reverse index of revision 3, relocation |
| `BastSpec.dfy`, `Bast.dfy` | BAST: block map, log blocks, switch merges and full merges |
| `BastBound.dfy` | how many blocks a BAST drive needs |
| `BastPages.dfy` | which pages BAST's writes and trims leave VALID, and which blocks trims give back |
| `DftlSpec.dfy`, `PatchRuns.dfy`, `Dftl.dfy` | DFTL: page map and its inverse, cached entries, deferred patching |
| `DftlGc.dfy` | when DFTL collects, what it cleans, when it stops, and which page a write gets |
| `Channel.dfy` | the bus channel's table of time slots |

Each FTL is written twice. The class does what the C++ object does, field by field, on a device
object. The `Spec` module says what each operation means as a function on values. Every host
operation is proved to take the abstraction of its object to the state that function gives, and to
change the contents of the drive the way a plain map changes. In DFTL, where a read or a write
evicts and collects on the way, it returns the run of steps of the `Spec` module that leads to its
state. The lemmas of the `Spec` module then cover all runs.

How things are represented:

- A physical page is a pair (block, page). `Addresses.LinearIsPair` shows that this loses nothing.
  The value -1 of the program is `None`.
- A block holds `P` (`BLOCK_SIZE`) pages. `pages_valid` is never counted down by an invalidation,
  so it appears as `programmed`, the pages programmed since the last erase.
- The virgin area is counted in blocks (`simpleCurrentFree / BLOCK_SIZE`).
- `ok == false` stands for a run the program does not survive: the failed assertion that the free
  list is not empty, or the `bad_alloc` on too many log blocks. In DFTL it also stands for a
  collection that would enter `insert_events` a second time.
- The test `ratio < 0.90` is a parameter `gc`, and the victim `random()` picks in BAST is a
  parameter `victim`: the theorems hold for every choice. So do they for every order in which
  `std::map` scans the PMT and `std::sort` leaves equal keys.
- Every block has erases remaining, and every write carries a payload.

Where the code does not do what one would expect, the model follows the code and a lemma says so:

- MNFTL's trim clears the mapping but leaves the page VALID. Collection copies such pages for
  ever: there are always exactly as many of them as there were trims of live pages
  (`MnSpec.RunRefines`).
- DFTL's trim of a cached entry counts the entry out of the cache and then writes back a copy of it
  whose cached flag is still set, so the counter falls behind, by exactly the number of such trims
  (`DftlSpec.TrimCounts`, `DftlSpec.RunRefines`, `DftlSpec.WriteThenTrim`).
- BAST's read does not turn a read of an absent page into a no-op. It goes to page 0 of the device,
  or to an EMPTY page, and returns the live data of another logical page exactly when the offset
  has no page or an INVALID one and page 0 is live (`BastSpec.AbsentRead`, `BastSpec.ReadsAnother`).
- BAST's overwrite of a page in the log block leaves the old log page VALID, though nothing maps it
  any more, exactly when the data block has a page for the offset that is not EMPTY
  (`BastPages.LogWriteReplaces`, `BastPages.RunTidy`).
- The block manager's counters do not follow `LOG_SEQ` blocks, nor the blocks phase-two collection
  frees (`Pools.PoolConservation`).
- `Plane::get_free_page` looks at the page numbered `pages_valid`. That is the page a scan would find
  exactly when no page below it is EMPTY and it is EMPTY itself (`Flash.FreePageExact`). In a block
  written only at that page, this means that it was not invalidated since the last erase
  (`Flash.FreePageAfterRun`).
- The bus channel grants overlapping slots when a request starts before an expired slot ended, or
  after a duration of zero (`Channels.SafeStart`, `Channels.DurationsMustBePositive`). A grant of
  duration zero is not the earliest one when an entry begins at its start (`Channels.GrantFits`).

## Model

| member | source | states |
|---|---|---|
| Flash.WriteKeepsSound | ssd_block.cpp:106-120 | programming an EMPTY page keeps the invalid count and the block state true of the pages, and an append-only block append-only |
| Flash.InvalidateKeepsSound | ssd_block.cpp:213-237 | so does invalidating any page, already INVALID or not; INACTIVE is reached exactly when every page is INVALID |
| Flash.EraseKeepsSound | ssd_block.cpp:132-163 | an erased block is wholly EMPTY, FREE and counts nothing |
| Flash.SummariesMatch | ssd_block.cpp:106-237 | over every run of writes to EMPTY pages, invalidations and erases: `pages_invalid` counts the INVALID pages, INACTIVE and FREE mean what they say, and `pages_valid` counts the non-EMPTY pages exactly when no EMPTY page was invalidated since the last erase |
| Flash.IssueWriteEffect | ssd_controller.cpp:88-147 | a WRITE event programs its page with its payload, makes the replaced page INVALID and leaves every other page of the device alone |
| Flash.DiscardEffect | ssd_block.cpp:213-237 | invalidating one page changes no payload and no other state of the device |
| Flash.IssueWriteAppends | ssd_controller.cpp:111-120 | a WRITE event at the append point keeps every append-only block append-only and advances only the written one |
| Flash.FreePageIsScan | ssd_plane.cpp:346-354 | in an append-only block `Plane::get_free_page` gives the same page as the scan of `Block::get_next_page` |
| Flash.FreePageExact | ssd_plane.cpp:346-354 | in any block the two agree if and only if no page below `pages_valid` is EMPTY and the page at it, if there is one, is EMPTY |
| Flash.FreePageAfterRun | ssd_plane.cpp:346-354 | after any run that writes only at `pages_valid`, they agree if and only if the page offered was not invalidated since the last erase |
| Flash.FreePageCanMiss | ssd_plane.cpp:346-354 | a block whose only page was invalidated before it was written: the scan finds nothing, the counter still offers page 0 |
| Device.Block.Write | ssd_block.cpp:106-120 | the object does to its view what `WritePage` says; it asks for an EMPTY page |
| Device.Block.InvalidatePage | ssd_block.cpp:213-237 | the same for an invalidation |
| Device.Block.Erase | ssd_block.cpp:132-163 | the same for an erase, page by page |
| Device.Block.GetNextPage | ssd_block.cpp:246-259 | the scan returns the first EMPTY page, or none |
| Device.Block.GetFreePage | ssd_plane.cpp:346-354 | returns the page numbered `pages_valid`, which is the one the scan finds exactly under that condition |
| Device.Ssd.Issue | ssd_controller.cpp:88-147 | the device programs first and then invalidates the replaced page; all other blocks keep their pages |
| Device.Ssd.Write | ssd_page.cpp:78-97 | programming one page of the device stores the payload there and nowhere else; the page must be EMPTY |
| Device.Ssd.Read | ssd_page.cpp:66-76 | a read returns the payload of the page and changes nothing |
| Device.Ssd.Erase | ssd_plane.cpp:149-165 | erasing one block leaves the other blocks alone |
| Addresses.DigitsCompose | ssd_address.cpp:149-162 | the fields `set_linear_address` computes recompose to the address modulo the device size |
| Addresses.DigitsThenCompose | ssd_address.cpp:149-162 | below the device size they recompose to the address itself |
| Addresses.RoutingIsInjective | ssd_address.cpp:149-162 | two addresses below the device size have the same fields exactly when they are equal |
| Addresses.ComposeThenDigits | ssd_address.cpp:149-162 | every in-range combination of fields is the routing of an address below the device size |
| Addresses.LinearIsPair | ssd_bm.cpp:325-329 | an address n is routed to the block whose physical_address is n - n % BLOCK_SIZE, the (n / BLOCK_SIZE)-th constructed, the position `update_block` computes |
| Addresses.PhysicalIsBuild | ssd_plane.cpp:92-95 | the strides of the constructors put the k-th constructed block at k * BLOCK_SIZE |
| Addresses.Address.SetLinearAddress | ssd_address.cpp:149-162 | the object's fields are the digits of the address it was given |
| Addresses.Address.Advance | ssd_address.cpp:185-189 | `operator+=` moves the linear address by i and keeps the fields its digits |
| Pools.TakeEffect | ssd_bm.cpp:78-102 | an allocation removes one block from the pool, the one it returns, and keeps the lists free of duplicates |
| Pools.TakeExactly | ssd_bm.cpp:78-102 | the virgin area is used up first, then the free list from its front; only the latter clears `out_of_blocks`; the block taken becomes the one being written and is counted in by type |
| Pools.ReleaseEffect | ssd_bm.cpp:292-315 | an erased block the caller owned joins the pool and nothing else changes there |
| Pools.ReleaseExactly | ssd_bm.cpp:292-315 | it goes to the end of the free list, and the counter of its type goes down by one |
| Pools.RetireEffect | ssd_bm.cpp:151-166 | an invalidated block the caller owned is afterwards last in the invalid list, neither owned nor in the pool, and no other block changes place; a DATA block lowers `data_active` only, a LOG block `log_active` only, a LOG_SEQ block neither |
| Pools.DrainEffect | ssd_bm.cpp:185-199 | the invalid-list phase moves up to five blocks to the free list and keeps the balance |
| Pools.DrainExactly | ssd_bm.cpp:185-199 | these are the last blocks of the invalid list, and they come to the end of the free list last block first |
| Pools.CollectedExactly | ssd_bm.cpp:91-95 | an allocation collects if and only if the virgin area is used up, at most one block is free and `out_of_blocks` is not set, and it sets it then |
| Pools.PoolStepEffect | ssd_bm.cpp:78-315 | every operation keeps the lists in order and changes the balance of blocks against counters by its drift, zero for DATA and LOG |
| Pools.PoolStepCounts | ssd_bm.cpp:114-315 | what every operation does to `data_active` and to `log_active` |
| Pools.PoolConservation | ssd_bm.cpp:78-315 | over every run virgin + free + invalid + data_active + log_active is max_blocks plus the total drift, so exactly max_blocks when no LOG_SEQ block and no phase-two cleaning unbalances it; the lists never hold a block twice |
| Pools.DrainCellsEffect | ssd_bm.cpp:185-199 | the blocks that phase moves are erased and no other block of the device is touched |
| Managers.BlockManager.InsertEvents | ssd_bm.cpp:172-199 | the loop over the invalid list erases the blocks it moves, last first, at most five |
| Managers.BlockManager.GetPageBlock | ssd_bm.cpp:78-102 | virgin area first, then the front of the free list, collecting once when it runs short; fails exactly when no block is left after that; the device changes only by what was collected |
| Managers.BlockManager.GetFreeBlock | ssd_bm.cpp:245-267 | the same with the block counted by type, failing also where bad_alloc is thrown; the device changes only by what was collected |
| Managers.BlockManager.PromoteBlock | ssd_bm.cpp:114-126 | a promotion moves one block from the log count to the data count or back |
| Managers.BlockManager.Invalidate | ssd_bm.cpp:151-166 | the block is appended to the invalid list and counted out |
| Managers.BlockManager.EraseAndInvalidate | ssd_bm.cpp:292-315 | the block is erased, appended to the free list and counted out by type |
| Managers.BlockManager.EraseAndFree | ssd_bm.cpp:221-229 | phase two erases and frees the victim and counts nothing |
| MnMaps.SlotInjective | mn_ftl.cpp:66-75 | two logical pages with the same logical block, PMD index and map slot are the same page |
| MnMaps.SlotDigits | mn_ftl.cpp:66-75 | logical block, PMD index and map slot are the digits of the logical page |
| MnMaps.EnoughPmts | mn_ftl.cpp:13-15 | `num_pmd` PMTs hold the pages of a logical block, and one fewer would not |
| MnMaps.BindOk | mn_ftl_v3.cpp:138-153 | storing a mapping keeps the reverse index the exact inverse of the PMT and every anchor in order |
| MnMaps.UnbindOk | mn_ftl_v3.cpp:157-185 | so does clearing one |
| MnMaps.IndexEqualsScan | mn_ftl_v2.cpp:188-199 | whatever a scan of the PMT for a page finds is what the reverse index holds, so both remaps build the same PMT and PMD |
| MnMaps.AnchorHoldsPmt | mn_ftl.cpp:83-96 | the spare area of an anchor holds the PMT in RAM exactly when the PMT was not trimmed since one of its pages was programmed |
| MnSpec.OpenOk | ssd_page.cpp:90-94 | a current block is missing exactly when the pool is empty and none is open or it is full; otherwise the page a write or a copy is sent to is EMPTY, and opening a block changes no read |
| MnSpec.OpenExactly | mn_ftl.cpp:33-45 | the current block serves until its last page is used; then the next block of the pool does, from offset 0 |
| MnSpec.ProgramOk | mn_ftl.cpp:155-166 | that page is mapped by nobody and orphan of no trim; programming it makes it VALID, invalidates the replaced page, turns no other page and keeps the pool and the append order |
| MnSpec.PlaceOk | mn_ftl.cpp:110-172 | a host write makes its slot read the payload and no other slot read anything else |
| MnSpec.CopyOk | mn_ftl.cpp:232-281 | relocating one page keeps the invariant and what every slot reads, trimmed or mapped |
| MnSpec.RelocateOk | mn_ftl.cpp:202-296 | the relocation loop keeps this at every iteration and leaves the victim without a VALID page |
| MnSpec.RelocateCost | mn_ftl.cpp:202-296 | it takes a new block exactly when the current one has no room for the VALID pages left, at most one, and fails only where that block is missing |
| MnSpec.RelocatePool | mn_ftl.cpp:202-296 | the block it takes, if any, is the next one, counted as a data block |
| MnSpec.CollectPool | ssd_bm.cpp:216-232 | after a collection the victim is last in the free list and no counter has counted it out |
| MnSpec.VictimLive | ssd_bm.cpp:210-210 | a victim has fewer VALID pages than its erase gives back |
| MnSpec.CollectProgress | mn_ftl.cpp:202-296 | a collection completes if and only if the current block has room for the victim's VALID pages or the pool has a block, and it never shrinks the pool |
| MnSpec.CollectRefines | mn_ftl.cpp:202-296 | a collection and the erase change nothing a logical page reads and return the victim, wholly EMPTY, to the pool |
| MnSpec.WriteRefines | mn_ftl.cpp:110-172 | a write fails exactly when a block is needed and none is left, and else updates one logical page |
| MnSpec.WriteTakes | mn_ftl.cpp:110-166 | the page a write takes is the next of the current block while there is one, else the first of the next block; it is mapped by its slot and becomes the anchor |
| MnSpec.TrimRefines | mn_ftl.cpp:175-199 | a trim empties one logical page and, if it held data, adds one VALID page nobody maps |
| MnSpec.TrimLeaves | mn_ftl.cpp:175-199 | a trim touches no page of the device, no block of the pool and no PMD entry |
| MnSpec.RunRefines | mn_ftl.cpp:63-296 | after every run of writes, trims and collections each logical page reads what a plain map holds; the unmapped VALID pages number the trims of live pages |
| MnSpec.AnchorSound | mn_ftl.cpp:83-96 | an untrimmed PMT's anchor is a VALID page mapped by that PMT and its spare area equals it; after a trim it never does |
| MnSpec.TrimBreaksAnchor | mn_ftl.cpp:175-199 | after a trim of a live page its PMT has an anchor, and the spare area of that anchor differs from the PMT |
| MnSpec.AnchorsWithoutTrims | mn_ftl.cpp:142-166 | on runs without trims every anchor stays a VALID page mapped by its PMT, with a spare area equal to the PMT, through every collection |
| MnSpec.SoundIffUntrimmed | mn_ftl.cpp:142-199 | every anchor is sound if and only if no PMT was trimmed since one of its pages was programmed |
| Mnftls.Mnftl.constructor | mn_ftl.cpp:10-25 | a new drive is in order and holds nothing |
| Mnftls.Mnftl.AllocateNewCurrentBlock | mn_ftl.cpp:33-45 | takes the next block of the pool and starts it at offset 0; fails exactly when the pool is empty |
| Mnftls.Mnftl.AllocPageInCurrentBlock | mn_ftl.cpp:49-61 | the page offered is the first EMPTY one and lies at `current_page_offset` |
| Mnftls.Mnftl.Read | mn_ftl.cpp:63-107 | returns what the drive holds at the page, nothing if unmapped |
| Mnftls.Mnftl.Write | mn_ftl.cpp:110-172 | afterwards the drive holds the payload at the page and what it held elsewhere |
| Mnftls.Mnftl.Trim | mn_ftl.cpp:175-199 | afterwards the drive holds nothing at the page and what it held elsewhere |
| Mnftls.Mnftl.Scan | mn_ftl_v2.cpp:188-199 | the nested loops find a slot that maps the page, or there is none |
| Mnftls.Mnftl.RemapPage | mn_ftl_v3.cpp:221-230 | by index or by scan, the tables become those of `Remap` |
| Mnftls.Mnftl.CopyPage | mn_ftl.cpp:232-281 | the payload read is the payload written, and the source is invalidated |
| Mnftls.Mnftl.CleanupBlock | mn_ftl.cpp:202-296 | the loop does what `Relocate` says, the same by index and by scan, and changes the contents of no logical page |
| BastSpec.CopyEffect | FTLs/bast_ftl.cpp:332-362 | the merge loop puts the data of each VALID source at its own offset of the new block and leaves blocks that hold no source alone |
| BastSpec.LocalOk | FTLs/bast_ftl.cpp:134-389 | a step that touches only one logical block's own blocks and the pool keeps every block singly owned and every other logical block's content |
| BastSpec.SwitchOk | FTLs/bast_ftl.cpp:280-314 | a switch merge changes no content and keeps the invariant and the reserve |
| BastSpec.MergeCells | FTLs/bast_ftl.cpp:316-389 | after a full merge the new block holds the live pages, the old log and data blocks are erased, the rest of the device is as before |
| BastSpec.MergeOk | FTLs/bast_ftl.cpp:316-389 | a full merge changes no content and gives back at least the block it took |
| BastSpec.EvictOk | FTLs/bast_ftl.cpp:280-389 | evicting any log block changes no content, and succeeds whenever a block is left |
| BastSpec.EvictInOrder | FTLs/bast_ftl.cpp:280-314 | a log block with offset j at page j, for every j, is evicted whatever the pool holds: it becomes the data block as it is, and the old data block is erased and freed |
| BastSpec.EvictOutOfOrder | FTLs/bast_ftl.cpp:280-389 | any other log block is evicted exactly when a block is left: that block becomes the data block, the old log block and then the old data block are erased and freed, no other block is touched |
| BastSpec.NewLogOk | FTLs/bast_ftl.cpp:248-272 | the new log block is EMPTY; making room evicts without losing content |
| BastSpec.LogWriteSupersedes | FTLs/bast_ftl.cpp:155-176 | after a write the data block holds no VALID page for the offset |
| BastSpec.LogWriteOk | FTLs/bast_ftl.cpp:150-192 | an append stores the payload at one offset and changes no other |
| BastPages.LogWriteReplaces | FTLs/bast_ftl.cpp:153-176 | the old log page of an overwritten offset becomes INVALID if and only if the data block has no page for it or an EMPTY one; otherwise it stays VALID; it is mapped no more either way |
| BastPages.RunTidy | FTLs/bast_ftl.cpp:99-389 | on every run, while a logical block has no data block, the VALID pages of its log block are exactly the mapped ones |
| BastPages.WriteEvicts | FTLs/bast_ftl.cpp:142-177 | a write evicts the full log block of its own logical block, or the victim when it needs a log block at the limit, and else none |
| BastSpec.TrimLogOk | FTLs/bast_ftl.cpp:194-222 | the log half of a trim unmaps one offset and changes no other, also when it erases the log block |
| BastSpec.TrimDataOk | FTLs/bast_ftl.cpp:224-236 | the data half leaves nothing at the offset and changes no other, also when it erases the data block |
| BastPages.TrimLogExactly | FTLs/bast_ftl.cpp:194-222 | the page becomes INVALID and unmapped; if every other page of the log block is INVALID, the block is erased, freed and forgotten instead |
| BastPages.TrimDataExactly | FTLs/bast_ftl.cpp:224-236 | the data half does the same to the page and the block there |
| BastSpec.WriteRefines | FTLs/bast_ftl.cpp:134-192 | a write stores its payload and nothing else, whatever it evicts or merges; it completes whenever a block is left |
| BastSpec.WriteFailsExactly | FTLs/bast_ftl.cpp:142-177 | a write finds no block if and only if the pool is empty, the log block has no room and the eviction it makes, if any, is not a switch that gives back a data block |
| BastSpec.EvictExact | FTLs/bast_ftl.cpp:280-389 | an eviction fails exactly when the pool is empty and the log block is not in order, and leaves the pool empty exactly when it gives nothing back |
| BastSpec.TrimRefines | FTLs/bast_ftl.cpp:194-245 | a trim empties one offset and nothing else |
| BastSpec.ReadResolves | FTLs/bast_ftl.cpp:99-132 | a read of live data is sent to the VALID page that holds it; any other read to the EMPTY page at its place in the data block, or to page 0 when it has no page or an INVALID one |
| BastSpec.AbsentRead | FTLs/bast_ftl.cpp:117-131 | a read of an absent page returns the live data of a logical page, always another one, if and only if the offset has no page or an INVALID one and page 0 is live |
| BastSpec.ReadsAnother | FTLs/bast_ftl.cpp:117-131 | it happens: after one write on a new drive, reading a block never written returns what was written |
| BastSpec.RunRefines | FTLs/bast_ftl.cpp:99-389 | after every run of writes and trims, with any victims, each logical page holds what a plain map holds |
| BastSpec.RunReads | FTLs/bast_ftl.cpp:99-389 | what read() returns after every run: the plain map's data where it has some, and elsewhere another page's data exactly under the condition above |
| BastSpec.OneOwner | FTLs/bast_ftl.cpp:248-389 | every block has exactly one owner: the pool, one log entry or one data entry |
| BastSpec.LogSlotIsScan | ssd_plane.cpp:346-354 | the page a log append takes is the one the first-EMPTY scan finds |
| BastBound.ReserveIs | ssd_bm.cpp:245-315 | in every state the pool holds exactly the blocks that are neither log nor data blocks, and is empty exactly when these are all blocks |
| BastBound.ReserveBound | ssd_bm.cpp:245-267 | with n logical blocks in use and log limit L there are at most min(n, L) log blocks and n data blocks, and the pool holds at least the rest |
| BastBound.WrittenLogs | FTLs/bast_ftl.cpp:134-192 | a write puts one page into the log block of its logical block, its own if it had room and else a new one, unmaps no data block and changes no other log block |
| BastBound.NeverDry | ssd_bm.cpp:96-96 | with more than n + min(n, L) blocks no run on n logical blocks ever finds the pool empty; exactly that many are enough for one-page blocks in order |
| BastBound.Exhaust | ssd_bm.cpp:96-96 | with fewer blocks some run finds it empty: from any state, mapping each logical block, taking every log block and filling one out of order |
| BastBound.NeverDryExactly | ssd_bm.cpp:96-96 | from any state, no run finds the pool empty if and only if there are enough blocks |
| BastBound.NewDriveExactly | ssd_bm.cpp:96-96 | a new drive of `total` blocks never finds the pool empty if and only if total is at least n + min(n, L), plus one if a block has several pages |
| Basts.BastFtl.Read | FTLs/bast_ftl.cpp:99-132 | the address is the one `ReadAddress` names, live data is returned, and for an absent page the data is another page's live data exactly under the condition above |
| Basts.BastFtl.Write | FTLs/bast_ftl.cpp:134-192 | afterwards the drive holds the payload at the page and what it held elsewhere; fails only with an empty pool |
| Basts.BastFtl.Trim | FTLs/bast_ftl.cpp:194-245 | afterwards the drive holds nothing at the page and what it held elsewhere |
| Basts.BastFtl.AllocateNewLogblock | FTLs/bast_ftl.cpp:248-272 | below the limit a new log block, at the limit the victim is evicted first |
| Basts.BastFtl.TrySwitch | FTLs/bast_ftl.cpp:280-314 | the loop finds whether page j holds offset j for every j, and switches exactly then |
| Basts.BastFtl.RandomMerge | FTLs/bast_ftl.cpp:316-389 | the full merge, device and lists, is that of `Merge` |
| Basts.BastFtl.CopyLoop | FTLs/bast_ftl.cpp:332-362 | the copy loop leaves the device as `CopyFrom` says |
| Basts.BastFtl.EraseLog | FTLs/bast_ftl.cpp:274-278 | the log block is erased, freed and forgotten |
| DftlSpec.BindPages | FTLs/dftl_ftl.cpp:77-101 | programming the allocated page and invalidating the replaced one turns exactly these two pages |
| DftlSpec.AllocatedOk | FTLs/dftl_parent.cpp:127-138 | allocating a page for a host write changes no content and leaves the open block ready to take it at its append point |
| DftlSpec.DirectExactly | ssd_bm.cpp:82-97 | a block can be taken without a collection if and only if there is one and `get_page_block` would not call `insert_events` |
| DftlSpec.AdvanceExactly | FTLs/dftl_parent.cpp:127-138 | during a collection the page offered is the next one of the open block while there is one, else the first of the next block |
| PatchRuns.QuietRun | FTLs/dftl_parent.cpp:145-234 | a run of visits, misses, evictions and cleanings changes the content of no page |
| DftlSpec.BindOk | FTLs/dftl_parent.cpp:284-288 | storing a payload changes one logical page and keeps mapped pages and VALID pages paired through the map and its inverse |
| DftlSpec.CacheStep | FTLs/dftl_parent.cpp:145-234 | caching and evicting change no physical page and no content |
| DftlSpec.SomeCached | FTLs/dftl_parent.cpp:188-195 | while the counter is at the limit there is an entry to evict |
| PatchRuns.OwnerKnown | FTLs/dftl_ftl.cpp:137-183 | in the middle of a collection the unpatched inverse still names the owner of the next page, and no two copied pages collide in the batch |
| PatchRuns.CopyFollowsMove | FTLs/dftl_ftl.cpp:137-183 | each iteration of the copy loop follows the run that patches page by page |
| PatchRuns.PatchStep | FTLs/dftl_ftl.cpp:193-214 | patching the entries in any order leads from the unpatched to the patched map, inverse and counter |
| PatchRuns.PatchDone | FTLs/dftl_ftl.cpp:193-214 | the batch ends where moving and patching page by page ends |
| DftlSpec.MoveAllOk | FTLs/dftl_ftl.cpp:129-216 | a collection changes no content, empties the victim of VALID pages and takes one block exactly when the open block lacks room; it completes if and only if there is room or a block can be taken without a second collection |
| DftlSpec.VictimSwept | ssd_bm.cpp:210-227 | a block phase two may clean is fully written, so neither free nor virgin, and its live pages are its size less the INVALID ones |
| DftlSpec.NoEmpty | FTLs/dftl_ftl.cpp:139-139 | a fully written append-only block has no EMPTY page, so the assertion of the copy loop holds for every victim |
| DftlSpec.CollectOk | ssd_bm.cpp:203-242 | cleaning a victim returns it EMPTY, never shrinks the pool and raises the number of EMPTY pages by its INVALID count; it completes if and only if the open block has room for its live pages or a block can be taken directly, for which two blocks in reserve are enough |
| DftlSpec.CollectPool | ssd_bm.cpp:216-232 | after it the victim is last in the free list and counted out by no counter; a block was taken exactly when the open one lacked room |
| DftlGc.CollectEntries | FTLs/dftl_ftl.cpp:193-214 | it moves every entry of its victim elsewhere and caches it, renews no visit and changes no other entry |
| DftlGc.CleansDirtiest | ssd_bm.cpp:206-240 | if a block not being written is fully written and has more INVALID pages than any other such block, `insert_events` cleans it first, as long as the block being written has fewer or could be cleaned itself |
| DftlGc.StopsClean | ssd_bm.cpp:206-240 | after fewer than four cleanings such a block is not fully written or has no INVALID page |
| DftlGc.CleaningGains | ssd_bm.cpp:206-240 | every cleaning of a run gains at least one EMPTY page and the pool never shrinks |
| DftlGc.WrittenEntry | FTLs/dftl_ftl.cpp:77-101 | after the cleanings of its allocation and the write, the entry is still cached, was visited when looked up, and maps the next page of the open block or the first of the block taken |
| DftlSpec.TrimOk | FTLs/dftl_ftl.cpp:103-127 | a trim empties one logical page and keeps the invariant |
| DftlSpec.TrimCounts | FTLs/dftl_parent.cpp:236-282 | the cache counter is exact after a trim if and only if it was before and the entry was not both mapped and cached |
| DftlSpec.ApplyOk | FTLs/dftl_ftl.cpp:57-216 | every step keeps the invariant and does to the contents what it does to a plain map |
| DftlSpec.RunRefines | FTLs/dftl_ftl.cpp:57-216 | after every run of writes, trims, misses, evictions and collections each logical page holds what a plain map holds, and the counter falls behind the number of cached entries by exactly the trims that met a mapped and cached entry |
| DftlSpec.NoTrimsNoDrift | FTLs/dftl_parent.cpp:145-234 | runs without trims have no such trim, so the counter stays exact |
| DftlSpec.WriteThenTrim | FTLs/dftl_ftl.cpp:103-127 | on a new drive one write and one trim leave an entry cached and the counter at zero |
| PatchRuns.WriteRuns | FTLs/dftl_ftl.cpp:77-101 | a write is right even when the collection its allocation starts moves the page being overwritten |
| PatchRuns.WriteIsRun | FTLs/dftl_ftl.cpp:77-101 | resolving, collecting and writing are one run of the step machine, with one write, at the end, and no trim, so the counter drifts no further |
| Dftls.DftlFtl.AdvancePage | FTLs/dftl_parent.cpp:127-138 | the next page of the open block or the first of a new one |
| Dftls.DftlFtl.CleanupBlock | FTLs/dftl_ftl.cpp:129-216 | copying all VALID pages first and patching the map afterwards ends in the state of moving them one by one |
| Dftls.DftlFtl.PatchMap | FTLs/dftl_ftl.cpp:193-214 | the batch update reaches the patched map whatever the order |
| Dftls.DftlFtl.PickVictim | ssd_bm.cpp:206-240 | the victim has the most INVALID pages, after the first turn among blocks not being written |
| Dftls.DftlFtl.InsertEvents | ssd_bm.cpp:172-243 | below the ratio it does nothing; above it takes up to five turns, a turn on the block being written only as the first, and fewer only if the next choice may not be cleaned, so the dirtiest cleanable block is cleaned first; it fails only where a cleaning finds no page, never with two blocks in reserve; the reserve does not shrink |
| Dftls.DftlFtl.CollectBlocks | ssd_bm.cpp:203-242 | the loop itself, by the same terms |
| Dftls.DftlFtl.RefillPool | ssd_bm.cpp:91-95 | it collects exactly when the free list is short and no collection is under way, and leaves the pool alone otherwise |
| Dftls.DftlFtl.TakePage | FTLs/dftl_parent.cpp:132-135 | a block is opened if and only if the open one has no page left; it fails only where that block cannot be had |
| Dftls.DftlFtl.GetFreeDataPage | FTLs/dftl_parent.cpp:127-138 | while the open block has a page left, that is the page and nothing is collected; else it is a collection and then a page, from the open block if the collection left one with room; it fails only where a cleaning or the allocation cannot complete, never with two blocks in reserve |
| Dftls.DftlFtl.FindLru | FTLs/dftl_parent.cpp:54-60 | a least recently visited cached entry |
| Dftls.DftlFtl.EvictPages | FTLs/dftl_parent.cpp:188-234 | the loop ends below the limit, evicts only least recently visited entries and touches no uncached one |
| Dftls.DftlFtl.ResolveMapping | FTLs/dftl_parent.cpp:145-186 | the entry ends up cached and visited now; a hit evicts nothing; after a miss the counter is within the limit; no content changes |
| Dftls.DftlFtl.Read | FTLs/dftl_ftl.cpp:57-75 | returns what the drive holds and changes the contents of no page; the state is that of the lookup it returns, after which the entry is cached and visited now |
| Dftls.DftlFtl.Write | FTLs/dftl_ftl.cpp:77-101 | afterwards the drive holds the payload at the page and what it held elsewhere; the state is that of the run it returns, a lookup, an allocation and the write, without trims, so the counter is as exact as before; the entry is cached, visited now and maps the open page; it fails only where the allocation does, never while the open block has a page left or two blocks are in reserve |
| Dftls.DftlFtl.Trim | FTLs/dftl_ftl.cpp:103-127 | afterwards the drive holds nothing at the page and what it held elsewhere |
| Slots.LiveChain | ssd_channel.cpp:195-213 | dropping expired entries of a disjoint table and sorting the rest by lock time leaves them one after another |
| Slots.SlotIsEarliest | ssd_channel.cpp:131-176 | for every positive duration the scheduled time is the least one from the start on at which the bus is free for the whole duration |
| Slots.EarliestExactly | ssd_channel.cpp:131-176 | for zero durations too the scheduled slot is free; it is the earliest one if and only if the duration is positive or no entry begins at the start |
| Slots.EarliestFitIsUnique | ssd_channel.cpp:131-176 | that time depends on the entries only, not on the order they are kept in |
| Slots.WaitBound | ssd_channel.cpp:149-173 | the wait is at most the lengths of the n unexpired entries plus n durations |
| Channels.GrantFits | ssd_channel.cpp:123-190 | from every disjoint table, whatever was granted before and in whatever order: the grant is free of every unexpired entry, waits no longer than the bound, and is the earliest fit if and only if its duration is positive or no entry begins at its start |
| Channels.GrantIsEarliest | ssd_channel.cpp:123-190 | from every disjoint table a positive duration gets the earliest fit and leaves the table disjoint |
| Channels.GrantKeepsReady | ssd_channel.cpp:182-183 | every grant, from any table and of any duration, keeps `ready_at` the latest end of any grant |
| Channels.RunReady | ssd_channel.cpp:123-218 | over every run, starts in any order and durations of any length, `ready_at` is the latest end ever granted |
| Channels.RunTable | ssd_channel.cpp:123-209 | over every run with positive durations, starts in any order, the table stays disjoint |
| Channels.RunIsEarliest | ssd_channel.cpp:123-209 | every grant of such a run is the earliest fit among the unexpired entries and within the wait bound |
| Channels.GrantOk | ssd_channel.cpp:123-190 | a grant whose start is not before the end of a purged slot keeps all grants ever made disjoint |
| Channels.SafeStart | ssd_channel.cpp:195-209 | where all grants are disjoint so far, a start is safe for every duration if and only if no purged slot ends after it |
| Channels.RunExclusion | ssd_channel.cpp:123-218 | over every run in which no request starts before the end of a purged slot, all intervals ever granted, purged or not, are disjoint, as long as asked and not early |
| Channels.RunInOrder | ssd_channel.cpp:123-218 | so over every run with starts in order |
| Channels.StartInThePast | ssd_channel.cpp:195-209 | a run with a start in the past that is granted an overlap |
| Channels.ZeroDuration | ssd_channel.cpp:146-176 | a run with a zero duration after which a later grant overlaps |
| Channels.DurationsMustBePositive | ssd_channel.cpp:123-209 | a lower bound on durations guarantees a disjoint table on every run, and disjoint grants on every run with starts in order, if and only if it is positive |
| Channels.Channel.Unlock | ssd_channel.cpp:195-209 | the table becomes its unexpired entries, sorted by lock time |
| Channels.Channel.Schedule | ssd_channel.cpp:137-176 | the scan for a gap finds the slot `Slot` defines |
| Channels.Channel.Lock | ssd_channel.cpp:123-190 | the grant, the wait and the time taken; from every disjoint table the slot is free, within the wait bound and the earliest one but for a zero duration at the start of an entry; a positive duration leaves the table disjoint |
| Channels.Channel.ReadyTime | ssd_channel.cpp:215-218 | the time returned is the latest end of any grant, -1 before the first |

## Left out

- FAST (`FTLs/fast_ftl.cpp`): its read returns the oldest log match and its trim can free a log block that is still listed, so reading back the last write is not a theorem about it.
- BDFTL (`FTLs/bdftl_ftl.cpp`): turning a block into page mapping patches only entries already mapped, so refinement fails there too.
- `FTLs/mn_ftl.cpp`, `FTLs/page_ftl.cpp`, `ssd_ftl.cpp`, `ssd_gc.cpp`, `ssd_wl.cpp`: undeclared variants and stubs.
- `Plane::_merge`: no FTL modelled here issues MERGE events.
- `Address::compare`, `Address::check_valid`: bookkeeping of how many leading fields are in use, which no theorem here needs.
- Wear statistics, erases remaining, latencies, statistics counters and printing: the model has no time except in `Channel.dfy`.
- `get_num_free_blocks`, `BML` and `current_blocks`: bookkeeping that is unused or not consistent in the program.
- Translation pages, `modified_ts` and `create_ts` of DFTL: their writes are no-ops on the device; only the visit time that orders evictions is kept.
- Write-back timing, RAID, configuration files, `mmap` and the benchmark drivers.
- Integer widths and floating-point rounding: sizes are unbounded and channel times are `real`.
- Payload pointers of revisions 2 and 3: they set none when they relocate a page; all revisions are given the data movement of revision 1.
- How collection is triggered for MNFTL: `insert_events` never calls its `cleanup_block`, so a collection is a step of the environment, under the victim conditions of phase two.
- Connecting to and disconnecting from the bus channel, and its maximum number of connections.
- Mnftls.Mnftl.CleanupBlock: revisions differ only in how the moved slot is found; the model takes the order of their other effects from revision 1.
- Basts.BastFtl.AllocateNewLogblock: log blocks are values in the map, so aliasing of `LogPageBlock` pointers is not modelled; the C++ code keeps exactly one pointer to each.
- Dftls.DftlFtl.AdvancePage: a collection that would start inside another one counts as a failure; what the program does then is not modelled.
- Dftls.DftlFtl.Trim: the write of `reverse_trans_map[-1]`, which lies outside the map, is left out.
