# InkDB: pages and page-table latches in Dafny

InkDB stores a B-link tree in 4096-byte slotted pages and finds pages through a mapping table whose
entries are latches. This project models both and proves what they promise.

**Pages.** A page is 4096 bytes: a 24-byte header, a slot directory growing up, cells growing down and,
on index pages, a 16-byte special area at the end.

- `Wrappers.dfy` and `Bytes.dfy` have the option type, the little-endian codec and `Splice`, the overwriting of a byte range.
- `SlottedPage.dfy` writes each operation of `SlottedPageMut` as a function from all 4096 bytes to the
  bytes left behind and the status returned, states the page invariant `Holds` (the bytes represent a
  slot-ordered list of cells, which lie end to end in the order they were added) and proves what one add
  does to it.
- `SlottedRun.dfy` takes this to whole runs: refinement to a list, tiling, conservation, capacity.
- `SlottedPageObject.dfy` is the class over a byte array, with the overlapping directory shift as a
  backward loop and the directory iterator; each method equals the function it carries out.
- `IndexPage.dfy` and `NodeHistory.dfy` read a page as a B-link node and follow it through every run;
  `NodeSpace.dfy` has tiling, failures, conservation and capacity over those runs.
- `Router.dfy` is where a search key goes, and how that changes when a separator is inserted.
- `IndexPageObject.dfy` is the index page class, with `find_child_ptr` proved against the router on every
  page that holds index cells.

**Latches.** `PageTableLatch::load` is a transition system over any number of threads in release/acquire
memory: a modification order of messages with views, stale loads, stores and exchanges that may go
anywhere in the order that the memory model allows, and a data cell whose writes and reads take time.

- `Latch.dfy` has the steps and the invariant every step keeps.
- `LatchSafety.dfy` states what holds in every run, `LatchPeek.dfy` what exactly `peek` returns and when it is safe,
  `LatchProgress.dfy` what happens in every infinite fair run.
- `MappingTable.dfy` composes many latches under the table; `MappingSchedules.dfy` says which schedules of
  table operations load no page twice.

Where code and comments differ, the code is modelled. Each such place became a result with its exact
condition: `peek` says its read is safe because of the load before it, but it can meet or miss the loader's
write (`LoadingPeekCanRace`, `OnDiskPeekCanRace`, and `PeekIsSafeIff` for when it cannot);
`cell_slice_from_entry` asserts more than `cell_slice_from_id` checks, which fails on pages of `init_new`
(`DebugAssertHoldsIff`, `DebugAssertFailsAfterInitNew`); the size assertion of `IndexCellOwned::new` admits
cells no page can hold (`FirstCellFitsIff`, `OversizedCellNeverFits`); `set_right_sibling` drops its write
without a special area (`SiblingSurvivesIff`); `insert` replaces an entry that others may hold, so that a
page can be loaded twice (`OneLoadIff`).

## Model

| member | source | states |
|---|---|---|
| SlottedRun.RunRefines | src/page/slotted_page.rs:345-409 | for every run of appends, inserts, type and LSN writes from a page that holds a list: the same status at every step as on the list (`s + [c]`, `s[..i] + [c] + s[i..]`), bytes that represent the resulting list, special area untouched |
| SlottedRun.RunFromInitNew | src/page/slotted_page.rs:89-108 | from any raw bytes through `init_new` and any run, every slot id reads the list's cell or the right error |
| SlottedRun.FailedStepChangesNothing | src/page/slotted_page.rs:345-409 | at any point of any run a failing operation leaves all 4096 bytes as they were, and only NoContiguousSpace and SlotIndexNotInRange can come out |
| SlottedRun.CellsTileThePage | src/page/slotted_page.rs:345-409 | in every reached page each byte from `free_end` to the end of the cell area lies in exactly one slot's cell and no cell reaches outside; directory, gap and cells follow one another |
| SlottedRun.DebugAssertHoldsIff | src/page/slotted_page.rs:581-592 | the debug assertion of `cell_slice_from_entry` holds for all slots of a reached page if and only if the cell area ends below 4096 or there is no cell |
| SlottedRun.DebugAssertFailsAfterInitNew | src/page/slotted_page.rs:581-592 | it fails after `init_new` and any one append that fits |
| SlottedRun.EntryAndIdAgree | src/page/slotted_page.rs:545-592 | in every reached page the i-th directory entry finds the cell that slot id i finds |
| SlottedRun.SpaceIsConserved | src/page/slotted_page.rs:121-123 | free gap + 4 per slot + cell bytes is the same at every point of every run |
| SlottedRun.CapacityIsOrderFree | src/page/slotted_page.rs:353-372 | adds at valid indices all succeed if and only if the sum of (len + 4) fits the gap, whatever the order and the slots |
| SlottedRun.ListCapacity | src/page/slotted_page.rs:383-406 | the same condition on the list that a page represents |
| SlottedRun.InitNewCapacity | src/page/slotted_page.rs:89-108 | after `init_new` adds at valid indices all succeed if and only if the sum of (len + 4) is at most 4072 |
| SlottedPage.AddCellRefines | src/page/slotted_page.rs:377-409 | one add on a page that holds a list: one of two errors with nothing changed, or the longer list with the newest cell lowest; no cast loses bits, and `free_start` stays at or below `free_end` |
| SlottedPage.AppendIsInsertAtEnd | src/page/slotted_page.rs:345-375 | appending a cell and inserting it at the slot count give the same bytes and status, on every page with a sane header |
| SlottedPage.InsertSlotEntryInserts | src/page/slotted_page.rs:271-321 | through the overlapping shift the decoded directory becomes the old one with the entry inserted; bytes outside directory and `free_start` stay |
| SlottedPage.ShiftedBytes | src/page/slotted_page.rs:303-315 | entries below the insertion point stay, the new one is in the hole, those above move up by one |
| SlottedPage.EntryRoundTrip | src/page/slotted_page.rs:245-268 | an entry is four bytes, offset then length, low byte first, and decodes to itself |
| SlottedPage.CellFromIdReads | src/page/slotted_page.rs:545-579 | on a page that holds a list every slot id, in range or not, reads exactly the list's answer |
| SlottedPage.CellFromIdOnAnyPage | src/page/slotted_page.rs:545-579 | on any page, damaged or not: a cell comes out if and only if the entry of its slot stores it inside the page; CorruptCell if and only if the entry of a slot in range can store nothing |
| SlottedPage.InitNewHolds | src/page/slotted_page.rs:89-108 | `init_new` makes an empty page with 4096 as cell end, sets the type, and keeps the old LSN and special offset |
| SlottedPage.InitNewBytes | src/page/slotted_page.rs:89-108 | the 4096 bytes after `init_new`: the type at 10, 24, 0, 0, 16 at 12 to 15, every other byte as before |
| SlottedPage.HeaderSettersKeep | src/page/slotted_page.rs:110-113 | a write outside `free_start`, `free_end`, directory and cells keeps the stored list |
| SlottedPage.SlotsInArea | src/page/slotted_page.rs:357-406 | every cell lies between `free_end` and the end of the cell area |
| SlottedPageObject.SlottedPageMut.MoveUp | src/page/slotted_page.rs:303-307 | the backward loop moves overlapping bytes as if through a copy |
| SlottedPageObject.SlottedPageMut.CopyIn | src/page/slotted_page.rs:366-369 | the copy overwrites exactly the target range |
| SlottedPageObject.SlottedPageMut.WipePage | src/page/slotted_page.rs:84-86 | all bytes become zero |
| SlottedPageObject.SlottedPageMut.InitNewPage | src/page/slotted_page.rs:89-108 | leaves the bytes of `InitNew` |
| SlottedPageObject.SlottedPageMut.IncrementFreeStartBy | src/page/slotted_page.rs:167-184 | bytes and status of `IncrementFreeStart`, error case included |
| SlottedPageObject.SlottedPageMut.WriteFreeEnd | src/page/slotted_page.rs:187-200 | bytes and status of `SetFreeEnd`, error case included |
| SlottedPageObject.SlottedPageMut.AppendEntry | src/page/slotted_page.rs:245-268 | bytes and status of `AppendSlotEntry` |
| SlottedPageObject.SlottedPageMut.InsertEntry | src/page/slotted_page.rs:271-321 | bytes and status of `InsertSlotEntry` |
| SlottedPageObject.SlottedPageMut.AddCellAppendSlotEntry | src/page/slotted_page.rs:345-375 | bytes and status of `AddCellAppend` |
| SlottedPageObject.SlottedPageMut.AddCellAtSlotEntryIndex | src/page/slotted_page.rs:377-409 | bytes and status of `AddCellAt` |
| SlottedPageObject.SlottedPageMut.CellSliceFromId | src/page/slotted_page.rs:545-579 | result of `CellFromId`, all errors included |
| SlottedPageObject.SlotDirIter.NextEntry | src/page/slotted_page.rs:677-698 | the next directory entry, or nothing exactly when all have been handed out |
| SlottedPageObject.CollectEntries | src/page/slotted_page.rs:643-706 | driving the iterator ends after `slot_count` entries and yields the whole directory in order |
| Bytes.U16RoundTrip | src/page/mod.rs:48-57 | two stored bytes read back as the value modulo 2^16, so exactly when it fits |
| Bytes.U64RoundTrip | src/page/mod.rs:59-68 | eight stored bytes read back as the value |
| Bytes.U64BytesAre | src/page/mod.rs:59-68 | the eight bytes are the value divided by 1, 2^8, ..., 2^56, each modulo 256, in that order |
| Bytes.ToLeFromLe | src/page/mod.rs:59-68 | re-encoding what was decoded gives the same bytes |
| IndexPage.CellRoundTrip | src/page/internal_page.rs:250-277 | a cell built from a key and a child decodes to that key and that child |
| IndexPage.CellBytes | src/page/internal_page.rs:40-49 | low byte of the child at 0 and its high byte at 7, key length at 8 and 9, the key from 10 to the end |
| IndexPageObject.NewIndexCell | src/page/internal_page.rs:40-49 | the built cell has 10 + key bytes and decodes to the key and child it was given |
| IndexPage.TypeBits | src/page/mod.rs:149-185 | kind and level are independent halves of the type byte; `set_level` keeps the kind and four bits of the level |
| IndexPage.KindOfEveryByte | src/page/mod.rs:116-170 | of the 16 low halves of a type byte seven name kinds and all others, 255 among them, read as Undefined; the level is the high half |
| IndexPage.InitInPlaceIsEmptyNode | src/page/internal_page.rs:69-91 | `init_in_place` succeeds and makes an empty internal node, level 0, no sibling, the given LSN |
| IndexPage.InitInPlaceBytes | src/page/internal_page.rs:69-91 | all 4096 bytes of the new page: the LSN in 0 to 7, 2 at 10, 24, 0 at 12, F0, 0F at 14 and again at 16, every other byte 0 |
| IndexPage.SiblingBytes | src/page/internal_page.rs:117-124 | a sibling id takes bytes 4088 to 4095 of an index page, low byte first, and no other byte changes |
| IndexPage.NodeRunRefines | src/page/internal_page.rs:97-150 | every run of cell adds and sibling, level, kind and LSN setters on the bytes is the same run on the node, statuses included |
| IndexPage.NodeReads | src/page/internal_page.rs:195-223 | a node's page gives every cell by slot id, and no sibling exactly when the id written is 0 |
| NodeHistory.RunFromInitInPlace | src/page/internal_page.rs:69-91 | after `init_in_place` and any run: all statuses, all cells by slot id, and all fields are the node's |
| NodeHistory.StoredCellIsDurable | src/page/internal_page.rs:134-150 | a cell stored with Ok decodes to its key and child after any later operations, at its slot shifted by later inserts at or before it |
| NodeHistory.FieldsReadLastWrite | src/page/internal_page.rs:97-132 | sibling, LSN, kind and level each read their last written value under any interleaving with adds; a kind write resets the level |
| NodeHistory.SettersKeepSeparators | src/page/internal_page.rs:97-132 | dropping all setters from a run changes neither the cells nor their order |
| NodeHistory.FirstCellFitsIff | src/page/internal_page.rs:38-42 | an empty index page takes a cell if and only if it is at most 4052 bytes long |
| NodeHistory.OversizedCellNeverFits | src/page/internal_page.rs:38-42 | a longer cell is refused on every reachable index page |
| NodeHistory.SiblingSurvivesIff | src/page/internal_page.rs:117-124 | a nonzero sibling id written reads back if and only if the page has a special offset; without one nothing changes |
| NodeHistory.SiblingAfterInitNew | src/page/slotted_page.rs:89-108 | after `init_new` and any run that holds if and only if the raw bytes carried a special offset |
| NodeSpace.IndexCellsTileThePage | src/page/internal_page.rs:69-91 | on every page reached from `init_in_place` the cells partition the bytes from `free_end` to 4080, directory and gap lie before, the special area after, every slot meets the debug assertion and is found alike by entry and id |
| NodeSpace.IndexFailureChangesNothing | src/page/internal_page.rs:134-150 | a failing operation on such a page leaves all 4096 bytes, and only two errors can come out |
| NodeSpace.IndexSpaceIsConserved | src/page/internal_page.rs:79-85 | on such a page gap + 4 per slot + cell bytes is 4056 |
| NodeSpace.IndexCapacityIsOrderFree | src/page/internal_page.rs:134-150 | a run from `init_in_place` goes through if and only if the sum of (len + 4) of its cells is at most 4056, whatever the order, the slots and the setters in between |
| IndexPageObject.IndexPageMut.InitIndexPage | src/page/internal_page.rs:69-91 | bytes and status of `InitInPlace`, whatever the buffer held |
| IndexPageObject.IndexPageMut.SetLevel | src/page/internal_page.rs:109-113 | only the type byte changes, to the old one with the new level in its high half |
| IndexPageObject.IndexPageMut.SetKind | src/page/internal_page.rs:97-99 | only the type byte changes, to the bare kind |
| IndexPageObject.IndexPageMut.LinkRightSibling | src/page/internal_page.rs:117-124 | the bytes of `SetRightSibling`, nothing without a special area |
| IndexPageObject.IndexPageMut.AppendIndexCell | src/page/internal_page.rs:134-139 | bytes and status of `AddCellAppend` on the encoded cell |
| IndexPageObject.IndexPageMut.InsertIndexCell | src/page/internal_page.rs:141-150 | bytes and status of `AddCellAt` on the encoded cell |
| IndexPageObject.IndexPageMut.HasSibling | src/page/internal_page.rs:195-201 | whether the eight sibling bytes are not all zero |
| IndexPageObject.IndexPageMut.Sibling | src/page/internal_page.rs:215-223 | the sibling id, none for 0 or without a special area |
| IndexPageObject.IndexPageMut.FindChildPtr | src/page/internal_page.rs:168-191 | on every page whose slots hold index cells: EmptySlotDir exactly when there is a sibling but no slot; strictly above the key in slot 0 of a page with a sibling, the sibling id in the bytes; at or below it, the child of the first slot from 1 on whose key is above, or none; without a sibling the same from slot 0 |
| IndexPageObject.NodeIsSearchable | src/page/internal_page.rs:168-191 | every index node is such a page |
| IndexPageObject.HoldingPageIsSearchable | src/page/internal_page.rs:163-191 | so is any page that holds index cells |
| IndexPageObject.InitNewPageIsSearchable | src/page/slotted_page.rs:89-108 | so is a page made by `init_new` over zeroed bytes, after any run that left index cells in it |
| IndexPageObject.NodeMeetsDebugAssert | src/page/slotted_page.rs:581-592 | on index nodes a search also meets the debug assertion |
| IndexPageObject.IndexPageMut.ScanSlots | src/page/internal_page.rs:183-190 | the loop over the directory returns the child of the first separator above the key, past the high key |
| IndexPageObject.SearchableAfterFirstCell | src/page/internal_page.rs:168-179 | once a page has a cell, no later run makes a search fail |
| Router.FirstAbove | src/page/internal_page.rs:183-190 | the slot found is above the key and no slot between start and it is |
| Router.TargetIsSearchResult | src/page/internal_page.rs:168-191 | the router answers by these cases |
| Router.SearchResultIsTarget | src/page/internal_page.rs:168-191 | and nothing else fits them |
| Router.LessIsFirstDifference | src/page/internal_page.rs:176-186 | keys are compared as byte slices: one is less if and only if at the first place where they differ it has the smaller byte or has ended |
| Router.LessTransitive | src/page/internal_page.rs:176-186 | this order is transitive |
| Router.LessTotal | src/page/internal_page.rs:176-186 | any two keys are equal or ordered |
| Router.RoutingIsMonotone | src/page/internal_page.rs:168-191 | on any node, sorted or not, a larger key is never routed to an earlier place, with none after all slots and the sibling last |
| Router.SortedRoutingIsBinarySearch | src/page/internal_page.rs:181-190 | on sorted separators the scan finds what binary search finds |
| Router.InsertReroutesOneRange | src/page/internal_page.rs:141-150 | a separator that keeps the node sorted takes over exactly the keys from the previous separator up to itself, not above the high key; all other keys keep their target |
| Latch.RunKeepsInv | src/buffer/page_table_latch.rs:56-118 | every interleaving of load and peek steps with stale reads keeps the latch invariant |
| Latch.InitInv | src/buffer/page_table_latch.rs:25-30 | a new latch satisfies it |
| Latch.CasWinsOnce | src/buffer/page_table_latch.rs:73-80 | an exchange succeeds only on the first message, when it is the only one |
| Latch.WorkErrKeepsInv | src/buffer/page_table_latch.rs:82-82 | a failing `work` leaves LOADING without an owner (that it returns the error is `FailedLoadReturns`) |
| LatchSafety.FailedLoadReturns | src/buffer/page_table_latch.rs:82-82 | over every run each thread is returned as many errors as its `work` calls have failed, and right after such a failure its last return is the error and it is out of `load` |
| LatchSafety.CallsReturnOnce | src/buffer/page_table_latch.rs:48-118 | at any point of any run the loads and the peeks a thread has begun are those returned to it plus the one it is in |
| LatchSafety.ReturnsAreEndings | src/buffer/page_table_latch.rs:48-118 | the returns of a run are, in order, the calls its schedule ends: with a value after a data read or a publishing store, with an error after a failed `work`, or a peek; no others |
| LatchSafety.LoadsAgree | src/buffer/page_table_latch.rs:56-118 | every load that returns Ok returns the output of the one `work` call of the run, which was given the initial data |
| LatchSafety.OneLoader | src/buffer/page_table_latch.rs:65-103 | state takes the path ON_DISK, LOADING, IN_MEMORY; one successful exchange, one finished `work`, one owner at most; the invalid arm is never taken |
| LatchSafety.CasAtMostOncePerCall | src/buffer/page_table_latch.rs:73-94 | one call of load makes at most one compare-exchange |
| LatchSafety.FastPathDoesNotRace | src/buffer/page_table_latch.rs:69-90 | a reader on the fast path has the loader's write in its view, no write overlaps it or can follow; no load has returned Ok while a write is in progress |
| LatchPeek.PeekIsSafeIff | src/buffer/page_table_latch.rs:48-54 | from the state a peek starts in, with another thread about: every continuation that ends it returns a clean value if and only if its thread knows of the last data write and no further one can come (loaded, or failed) |
| LatchPeek.UnsettledPeekCanRace | src/buffer/page_table_latch.rs:48-54 | from any other state some continuation ends the peek with a racy value |
| LatchPeek.PeekReturnsWhatItRead | src/buffer/page_table_latch.rs:48-54 | in every continuation that ends a peek: the state reported is the value of the message its state load read; the data is clean if and only if its thread knew of the last write when the data read began and no write was or came in between, and then it is the last value written |
| LatchPeek.PeekReportsInMemoryIff | src/buffer/page_table_latch.rs:48-54 | in every run a peek reports IN_MEMORY if and only if it read the third message, and then it returns the output of the one `work` call |
| LatchPeek.PeekAfterOwnLoad | src/buffer/page_table_latch.rs:48-54 | after a thread's own load returned Ok, each of its peeks returns exactly IN_MEMORY and the loaded value |
| LatchPeek.PeekInMemoryIsFinal | src/buffer/page_table_latch.rs:48-54 | every IN_MEMORY among the returns of a run comes with the loaded value (when it is reported: `PeekReportsInMemoryIff`) |
| LatchPeek.LoadingPeekCanRace | src/buffer/page_table_latch.rs:48-54 | a run in which `peek` reports LOADING and reads while the loader writes |
| LatchPeek.OnDiskPeekCanRace | src/buffer/page_table_latch.rs:48-54 | a run in which `peek` by a stale thread reports ON_DISK and misses a finished write |
| LatchSafety.FailureIsForever | src/buffer/page_table_latch.rs:82-98 | after a failed `work` the latch stays LOADING and no load, waiting or new, returns in any continuation |
| LatchSafety.FailedIffWorkFailed | src/buffer/page_table_latch.rs:82-98 | the latch is in that state if and only if a `work` call of the run failed |
| LatchSafety.SpinNeverMatters | src/buffer/page_table_latch.rs:105-116 | the wrapping back-off counter changes neither which steps are possible nor what is returned |
| LatchProgress.EveryLoadReturns | src/buffer/page_table_latch.rs:56-118 | on every infinite fair run without a failing `work`, every load returns the common value |
| LatchProgress.NeverStuck | src/buffer/page_table_latch.rs:61-117 | a thread inside load or peek always has a step that fairness allows: no failing `work`, no missed message |
| LatchProgress.FairRunExists | src/buffer/page_table_latch.rs:56-118 | for any number of threads and any values there is a fair run with a load in it |
| MappingTable.OneLoadPerPage | src/buffer/page_table.rs:62-93 | if all inserts of a page id carry one handle, every run of table and latches calls `work` at most once per id and all Ok loads of an id agree |
| MappingSchedules.OneLoadIff | src/buffer/page_table.rs:86-93 | a schedule of entries made and inserted loads no page twice, in any run that carries it out, if and only if no id is given two handles |
| MappingSchedules.TwoHandlesLoadTwice | src/buffer/page_table.rs:90-92 | for every schedule that gives an id two handles, some run with exactly those operations loads the page twice |
| MappingTable.WorkGetsDiskOffset | src/buffer/page_table.rs:62-68 | over every run there is one entry per `PageTableEntry::new` of the schedule, and each `work` on the k-th is given `Disk` of the offset of the k-th id: 4096 times the id, for ids below 2^52 |
| MappingTable.DiskRangeLoadedOnce | src/buffer/page_table.rs:62-68 | with one handle per id, each entry inserted under the id of the schedule it was made for and ids below 2^52, no 4096-byte disk range is given to `work` twice |
| MappingTable.LogsAreComplete | src/buffer/page_table_latch.rs:69-91 | the records on which that rests miss no load: each won exchange and each Ok return is logged with its id, entry and result |
| MappingTable.DiskRangesDisjointIff | src/page/mod.rs:20-22 | the 4096-byte disk ranges of two ids are disjoint if and only if the ids differ modulo 2^52 |
| MappingTable.NaiveMappingTable.Insert | src/buffer/page_table.rs:90-92 | leaves the table of the system's insert step, replacing any earlier entry |
| MappingTable.NaiveMappingTable.Get | src/buffer/page_table.rs:87-89 | finds an entry exactly when the system's lookup step is possible, and the handle that step hands out |

## Left out

- `PageFrame`, its guards and `BaseFileCache`: wrappers over locks and maps with no logic of their own.
- `BInner::traverse`, the meta page, transactions and the pager: stubs.
- `free_fragmented_space`, `memory_used`: unfinished in the source.
- `PageFlags`, `PageStates`, `set_flags`, checksum, version and transaction-id bytes: not used by any modelled operation.
- `state` and `current_state` of the latch: an acquire load each, covered by the reading half of `peek`.
- Raw `set_free_start`, `set_free_end` and `append_slot_entry` as steps of a run: callers can break the page with them.
- `load` as a method with a loop: concurrent steps are modelled as a transition system, so its loop is the cycle of program counters from `AtState` through `AtBackoff`.
- Spinning, yielding and sleeping, printing, and a panic inside `work`; overflow of `spin_count` is taken to wrap.
- A read that finishes before a later write begins is not flagged as a race with that write; this concerns `peek` only, since no load reads before the write.
- MappingTable.OneLoadPerPage: covers loads on entries obtained from the table by page id, since a load on an entry nobody looked up belongs to no id; table operations are atomic, as under the `RwLock`, and one thread may be inside loads of several entries, as when `work` itself loads.
- IndexPageObject.IndexPageMut.FindChildPtr: covers pages whose slots hold index cells, since on any other cell the source asserts or reads out of bounds; a debug build also stops at the debug assertion on `init_new` pages.
- MappingTable.NaiveMappingTable.Insert: entries are numbers standing for shared latches; reference counting is not modelled.
- Lifetimes, pointer provenance and `Drop`: array indexing takes their place.
