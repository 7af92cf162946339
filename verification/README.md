# Verification of the CS444 allocator, random generator and thread protocols

This project models, in Dafny, the parts of the CS444 repository where a mistake would be hardest
to see, and proves what they are for:

* **the SLOB page allocator** (`CS444_project4_46/slob.c`), with its best-fit search: the free list
  written into the free memory itself, the page lists above it, and `kmalloc`, `kfree`, `ksize` and
  the two counter system calls on top;
* **MT19937** (`CS444_project1_46/mt19937ar.c`): seeding, the in-place generation of 624 words at a
  time, and tempering;
* **three thread protocols**: search/insert/delete with light switches
  (`Concurrency3/prob2_conc3.c`), the dining philosophers (`Concurrency2/concurrency2.c`) and the
  resource that three threads share (`Concurrency3/prob1_conc3.c`);
* **the SSTF request queue** (`CS444_project2_46/sstf-iosched.c`).

`dafny verify dfyconfig.toml` checks everything.

## What is proved

**SLOB.** A page is an array of units, and a pointer is an offset into it. A unit has two bytes or four
(`SLOB_UNIT`), as the build chooses, and the number of units in a page, `U`, is arbitrary within what a
`slobidx_t` can hold. The free list is never stored beside the page: `Decode` reads it from the
units, as the C code does. `SlobPage.Page` has the C code's loops and writes; every one of its methods is
proved to do to the page what `Handout` or `Giveback` says, and these keep one invariant: the list in
memory is address-ordered, inside the page, with no two blocks touching, its blocks and the live ones
share out the page exactly, and `units` is its total. Because a list that is coalesced to the maximum is
determined by the units it covers (`Canonical`), the list depends only on which blocks are live. From
that come history independence, frees in any order, and allocation followed by freeing as a round trip.
`SlobAllocator.Allocator` adds the three page lists; its methods are proved against the step relation
`HeapStep`, and what holds over whole histories is proved about runs of `HeapStep`. One step is one locked
region that changes something: `slob_alloc` has two, and a history may have other steps in between, so a
new page can be set up although a listed one has got room by then.
`SlobLaws` says what all this means to somebody who counts bytes: a page turns a request down exactly when
it has no aligned run of free units that is long enough (`RoomIff`), which list serves which sizes, and in
what order a list is left. `SlobCounters` shows that the free counter misses nothing, and how far each step
moves it.

**MT19937.** The specification is the infinite recurrence of section 26.5.3.2 of ISO/IEC 14882:2011
(`X`), on 32-bit words. The implementation works on 64-bit words, as `unsigned long` is on a 64-bit
machine, and every call of `GenrandInt32` is proved to return the tempered next term of `X`; so the width
of `unsigned long` makes no difference. The recurrence, as a step on the 19937 bits that matter, is
injective, and so a generator seeded by either routine is never all zero. `MtLaws` states the recurrence,
tempering and the turns of the three seeding loops with every number written out, and that keys of one
length which first differ at some word lead to different words in the turn that reads it.

**Protocols.** Each protocol is a step relation over any number of threads: one step is one semaphore or
mutex operation, or one access to a shared variable. `LightStep` gives the steps of
`Concurrency3/prob2_conc3.c:42-50`, `76-81`, `98-107` and `126-131`, `DeleterStep` those of `145-147` and
`181-183`; `DiningPhilosophers.Step` gives `Concurrency2/concurrency2.c:81-170`, and
`SharedResource.StepAt` gives `Concurrency3/prob1_conc3.c:46-89`. Safety is proved for all runs from the
start; freedom from deadlock is proved for every reachable state, and more than that: the search/insert/
delete protocol drains to its initial state under every schedule without arrivals, every thread of it can
be brought to the list from every reachable state, and every philosopher can be brought to eat. Who can be
where at the same time is settled in both directions (`MeetIff`, `SideBySideIff`, `EatTogetherIff`).

**SSTF.** The queue is kept in dispatch order. Greedy nearest-next order is kept by an insertion exactly
under the condition of `GreedyKept`, at any distances. With all requests on one side of the head, and near
enough, greedy order is going outward, and an insertion leaves that as it was.

## Where the code differs from what is said about it

* The comment at the top of `slob.c` calls the allocator first-fit. `USE_BEST_FIT` is 1 (line 106), so the
  best-fit branch runs; both branches are modelled, and succeed on the same requests (`PoliciesAgree`).
* `CS444_project2_46.tex` says each dispatched request is the one nearest to the head. With requests on both
  sides of the head it need not be: `GreedySpoilt` is an example, `GreedyKept` the exact condition. It
  covers truncation too: a distance of 2^32 sectors or more is kept in an unsigned int, and where that makes
  it look shorter than the first request's, the order is always lost (`TooFar`).
* It is not enough that the requests are on one side of `end_sector` at every add. When the side changes,
  the queue is in order after the adds that follow exactly if no two different sectors were queued at the
  change (`SideChange`); `SidesMatter` is a run of three adds that fails.
* In `prob1_conc3.c` `waiting` is decremented but never incremented. So nobody is ever woken
  (`ParkedForGood`); a thread can come to wait for good exactly when there are three threads or more
  (`ParkIffThree`), and then all but one can (`AllButOnePark`).
* The light switch of the inserters does not keep them from each other, and the code in between does not
  either: two of them can be at the list at once, from every reachable state, exactly when there are two
  (`OverlapIffTwo`).
* With a single philosopher both forks are the same one, and it never eats (`EatIffTwo`).

## Model

| member | source | states |
|---|---|---|
| `SlobCode.RoundTrip` | CS444_project4_46/slob.c:92-201 | for units of either width, size at least 1 and a later successor: the size, the successor and whether the block is last are read back as they were written |
| `SlobCode.LinkedReads` | CS444_project4_46/slob.c:173-201 | at every block of a linked list, a walk reads that block's length, the next block's offset, and "last" exactly at the end |
| `SlobCode.DecodeLinked` | CS444_project4_46/slob.c:183-201 | the walk from `freelist` visits exactly the linked blocks, and ends, because offsets only grow |
| `SlobCode.LinkedFrame` | CS444_project4_46/slob.c:84-91 | the list in a page depends on the units of its free blocks only |
| `SlobList.Canonical` | CS444_project4_46/slob.c:480-506 | two maximally coalesced lists that cover the same units are the same list |
| `SlobFit.DeltaExact` | CS444_project4_46/slob.c:248-251 | what is skipped to align is a whole number of units, for every power of two and both widths |
| `SlobFit.DeltaAligns` | CS444_project4_46/slob.c:248-251 | what is carved begins at an aligned address, wherever the page lies |
| `SlobFit.AlignBaseIrrelevant` | CS444_project4_46/slob.c:249-250 | aligning an address and aligning its offset in the page skip the same distance |
| `SlobFit.BestFitUnique` | CS444_project4_46/slob.c:252-265 | the least leftover, lowest address first, names one block |
| `SlobFit.PoliciesAgree` | CS444_project4_46/slob.c:238-351 | best fit and first fit have a candidate for exactly the same requests: when some block has room |
| `SlobFit.FilterIsSafe` | CS444_project4_46/slob.c:383-385 | a page skipped by the filter on `units` has no block with room |
| `SlobFit.FreshPageFits` | CS444_project4_46/slob.c:412-418 | a new page has room exactly for the requests no larger than a page, whatever the alignment |
| `SlobLaws.FitsMeans` | CS444_project4_46/slob.c:247-252 | a block has room exactly when some aligned run of the units asked for lies in it; the lowest such run is the one carved, also with no alignment |
| `SlobLaws.RoomIff` | CS444_project4_46/slob.c:238-305 | a page turns a request down exactly when no aligned run of that many units is free of blocks in use |
| `SlobLaws.BestFitMeans` | CS444_project4_46/slob.c:252-265 | best fit is the lowest aligned run in the block that has the least left behind it, the lowest address first |
| `SlobLaws.PageLayout` | CS444_project4_46/slob.c:158-168 | what each free block's first units hold: size and next offset, or the offset negated in a block of one unit |
| `SlobLaws.PageSizes` | CS444_project4_46/slob.c:92-96 | units of two bytes serve pages of up to 65534 bytes |
| `SlobPage.Page.constructor` | CS444_project4_46/slob.c:412-416 | a new page decodes to one free block that is the whole page |
| `SlobPage.Page.TakeFront` | CS444_project4_46/slob.c:283-295 | takes units off the front of a free block, unlinking or shortening it |
| `SlobPage.Page.CutFront` | CS444_project4_46/slob.c:274-281 | splits a free block at the aligned unit |
| `SlobPage.Page.Relink` | CS444_project4_46/slob.c:270-295 | both together: what is left of the block before and behind is linked in its place |
| `SlobPage.Page.CarveOut` | CS444_project4_46/slob.c:270-299 | and the count of free units goes down, the flag with the last of them |
| `SlobPage.Page.Carve` | CS444_project4_46/slob.c:270-300 | carving keeps the page invariant; exactly the block handed out leaves the free units, and no unit in use is written |
| `SlobPage.Page.ScanBestFit` | CS444_project4_46/slob.c:238-273 | finds the lowest-address block with the least leftover, or reports none exactly when none has room |
| `SlobPage.Page.ScanFirstFit` | CS444_project4_46/slob.c:310-350 | finds the first block with room, or reports none exactly when none has room |
| `SlobPage.Page.AllocBestFit` | CS444_project4_46/slob.c:230-305 | NULL exactly when no block has `avail >= units + delta`, and then nothing changes; otherwise the aligned units of the best-fit block are handed out |
| `SlobPage.Page.AllocFirstFit` | CS444_project4_46/slob.c:230-351 | the same for the first-fit branch |
| `SlobPage.Page.FindPlace` | CS444_project4_46/slob.c:488-493 | the walk stops between the free blocks on either side of the freed one |
| `SlobPage.Page.FreeFront` | CS444_project4_46/slob.c:480-486 | the freed block becomes the first, merged with the old first when they touch |
| `SlobPage.Page.WriteFreed` | CS444_project4_46/slob.c:495-499 | merges to the right exactly when the blocks touch |
| `SlobPage.Page.JoinPrev` | CS444_project4_46/slob.c:501-505 | merges to the left exactly when the blocks touch |
| `SlobPage.Page.FreeBetween` | CS444_project4_46/slob.c:495-506 | both, in one list |
| `SlobPage.Page.Free` | CS444_project4_46/slob.c:429-509 | freeing keeps the page invariant; exactly the freed units join the free ones, and no unit of another block is written |
| `SlobPage.Page.Reinsert` | CS444_project4_46/slob.c:474-506 | the same, for a page that is partially free already |
| `SlobSteps.FreshInv` | CS444_project4_46/slob.c:412-416 | a new page satisfies the page invariant |
| `SlobSteps.HandoutInv` | CS444_project4_46/slob.c:270-300 | handing out keeps free and live units a partition of the page, and `units` their count |
| `SlobSteps.GivebackInv` | CS444_project4_46/slob.c:457-506 | so does giving back |
| `SlobSteps.ClientWriteInv` | CS444_project4_46/slob.c:158-193 | whatever clients write into their blocks, the decoded free list stays the same |
| `SlobRuns.RunInv` | CS444_project4_46/slob.c:230-509 | the page invariant holds at every point of every history of allocations, frees and client writes |
| `SlobRuns.LiveDecides` | CS444_project4_46/slob.c:230-509 | equal live blocks mean equal free lists, counts, and answers to the next request |
| `SlobRuns.HistoryIndependence` | CS444_project4_46/slob.c:230-509 | two pages whose histories end with the same live blocks hold the same free list |
| `SlobRuns.AllocThenFree` | CS444_project4_46/slob.c:284-506 | freeing the block just allocated restores list and count, also when the page had become full |
| `SlobRuns.FreesAnyOrder` | CS444_project4_46/slob.c:446-506 | the order of frees leaves no trace |
| `SlobRuns.BlockKept` | CS444_project4_46/slob.c:230-509 | a block that stays live keeps its contents through any history in which nobody stores into it |
| `SlobHeap.AfterAllocKeeps` | CS444_project4_46/slob.c:297-299 | a page list stays a list of its pages, each once, without the one that became full |
| `SlobHeap.AfterAllocPermutes` | CS444_project4_46/slob.c:388-398 | serving a request only permutes the list, apart from a page that became full; a page that served and has room left is first |
| `SlobLaws.AfterAllocOrder` | CS444_project4_46/slob.c:388-398 | the list goes round: place j afterwards holds what was at place k + j, or k + 1 + j if page k became full, modulo the length |
| `SlobLaws.ServedFromList` | CS444_project4_46/slob.c:365-401 | a request under 256 bytes, under 1024, or larger is served from the first, second or third list, the list goes round from the page that served, and nothing else changes |
| `SlobLaws.ServedFirst` | CS444_project4_46/slob.c:374-391 | no page before it on that list has an aligned run of free units for the request |
| `SlobLaws.ServedFromFresh` | CS444_project4_46/slob.c:404-420 | a new page goes in front of the list of the request's byte range, unless the request fills it |
| `SlobLaws.GivenBack` | CS444_project4_46/slob.c:446-472 | a page goes exactly with its last block, off the list of the block's byte range; a page that was full goes in front of that list; any other stays in place |
| `SlobLaws.NoRoomMeans` | CS444_project4_46/slob.c:365-404 | a new page is asked for exactly when no page on the list of the byte range has an aligned run of free units for the request |
| `SlobHeap.AllocListedOk` | CS444_project4_46/slob.c:365-401 | an allocation from a listed page keeps the heap invariant |
| `SlobHeap.AllocFreshOk` | CS444_project4_46/slob.c:404-420 | so does the set-up of a new page, whatever has become of the listed ones meanwhile |
| `SlobHeap.FreeBlockOk` | CS444_project4_46/slob.c:429-509 | so does a free, with the page going or being listed again |
| `SlobHeap.LastBlock` | CS444_project4_46/slob.c:446-455 | the test for returning the page holds exactly when its last live block is freed |
| `SlobHeapRuns.HeapRunOk` | CS444_project4_46/slob.c:357-509 | at every point of every history: every page satisfies the page invariant, no wholly free page is kept, all blocks of a page are of the size class whose list it belongs to (`ListsByBytes` gives the classes in bytes), and each list has exactly the flagged pages of its class, once each |
| `SlobLaws.ListsByBytes` | CS444_project4_46/slob.c:111-115 | in every history all blocks on the pages of the first list are under 256 bytes, of the second 256 to 1023, of the third 1024 or more |
| `SlobLaws.PagesByBytes` | CS444_project4_46/slob.c:365-370 | and all blocks of one page, listed or full, are in one of these ranges |
| `SlobHeapRuns.ListedIff` | CS444_project4_46/slob.c:117-135 | a page is on the list of its class, and on no other, exactly while it has both free and used units |
| `SlobHeapRuns.HeapStepKeepsBlock` | CS444_project4_46/slob.c:357-509 | one step anywhere in the allocator leaves a live block alone unless it frees it or stores into it |
| `SlobHeapRuns.HeapBlockKept` | CS444_project4_46/slob.c:357-509 | and so does a whole history |
| `SlobHeapRuns.CounterGap` | CS444_project4_46/slob.c:736-800 | pages times their size less their free units is what live blocks occupy on them |
| `SlobCounters.ListsMissNothing` | CS444_project4_46/slob.c:772-800 | what the free counter adds up over the three lists is every free unit of every page in use |
| `SlobCounters.FreeUnitsStep` | CS444_project4_46/slob.c:357-509 | each step moves that by the units of the block, and by a page when one comes or goes |
| `SlobAllocator.Allocator.constructor` | CS444_project4_46/slob.c:113-115 | no page is listed at first |
| `SlobAllocator.Allocator.TryPage` | CS444_project4_46/slob.c:383-391 | filter and page together fail exactly when no block of the page has room |
| `SlobAllocator.Allocator.Search` | CS444_project4_46/slob.c:374-400 | the first page of the list that has room serves, and no other page is touched |
| `SlobAllocator.Allocator.SearchClass` | CS444_project4_46/slob.c:365-400 | the same, for the whole table of pages in use |
| `SlobAllocator.Allocator.Relist` | CS444_project4_46/slob.c:388-398 | the list after the search: it goes round from position k, or from the next page if page k became full |
| `SlobAllocator.Allocator.AllocFromLists` | CS444_project4_46/slob.c:365-401 | the first locked region: serves from the first page of the class that has room, and changes nothing exactly if none has (in bytes: `ServedFromList`, `ServedFirst`, `NoRoomMeans`) |
| `SlobAllocator.Allocator.MoveServed` | CS444_project4_46/slob.c:388-398 | afterwards the list goes round from the page that served, without it if it became full, and the heap invariant holds |
| `SlobAllocator.Allocator.ServeFresh` | CS444_project4_46/slob.c:405-418 | a new page always serves: `BUG_ON(!b)` is unreachable |
| `SlobAllocator.Allocator.AllocFromFresh` | CS444_project4_46/slob.c:404-420 | the second locked region, whatever the lists are by then: the new page serves, and goes in front of its list unless the request filled it (in bytes: `ServedFromFresh`) |
| `SlobAllocator.Allocator.SlobAlloc` | CS444_project4_46/slob.c:357-424 | undisturbed between its two regions: NULL exactly when no listed page has room and no new page can be had; otherwise one step hands out a block of the size, from a new page exactly when no listed one has room |
| `SlobAllocator.Allocator.Unlist` | CS444_project4_46/slob.c:131-135 | removes the page from its list |
| `SlobAllocator.Allocator.SlobFree` | CS444_project4_46/slob.c:429-509 | one step of the allocator gives the block back; nothing happens for NULL |
| `SlobAllocator.Allocator.FreePage` | CS444_project4_46/slob.c:446-455 | the page goes with its last block, off its list if it was on one |
| `SlobAllocator.Allocator.FreeWithin` | CS444_project4_46/slob.c:457-508 | otherwise the page stays, in front of its list if it was full, else where it was (in bytes: `GivenBack`) |
| `SlobAllocator.Allocator.StoreUnit` | CS444_project4_46/slob.c:534-535 | a store by a block's holder changes that unit only, and keeps the heap invariant |
| `SlobAllocator.Allocator.CountPages` | CS444_project4_46/slob.c:747-760 | counts the pages of a list |
| `SlobAllocator.Allocator.CountFree` | CS444_project4_46/slob.c:783-795 | adds up the free units of a list |
| `SlobAllocator.Allocator.AmountTotal` | CS444_project4_46/slob.c:736-767 | units of all listed pages |
| `SlobAllocator.Allocator.AmountFree` | CS444_project4_46/slob.c:772-800 | free units of all listed pages, and so of all pages in use |
| `SlobAllocator.Allocator.AmountsDiffer` | CS444_project4_46/slob.c:736-800 | the two counters differ by exactly the live units on listed pages |
| `SlobKmalloc.HeaderRoundTrip` | CS444_project4_46/slob.c:534-587 | the 32-bit header, in one unit or in two, reads back as the size that was stored |
| `SlobKmalloc.HeaderLayout` | CS444_project4_46/slob.c:534 | the header is the size as an unsigned number, low 16 bits first where units have two bytes, and nothing else is stored |
| `SlobKmalloc.HeaderSurvives` | CS444_project4_46/slob.c:534-535 | a client that writes from its pointer on leaves the header alone |
| `SlobKmalloc.KSizeFits` | CS444_project4_46/slob.c:594-611 | `ksize` covers the request and stays inside the block |
| `SlobKmalloc.Kmalloc` | CS444_project4_46/slob.c:515-552 | whole pages are asked for exactly when size and header come to a page or more, a block of one page for anything less but 0 bytes, which get the zero-size token; NULL exactly when what is asked for cannot be had. A block handed out holds its header and the bytes asked for, inside its page |
| `SlobKmalloc.KmallocBlock` | CS444_project4_46/slob.c:526-535 | one allocation of size plus header, then the stores of the header into that block, and nothing else |
| `SlobKmalloc.WriteHeader` | CS444_project4_46/slob.c:534 | afterwards the block's header is the size, and nothing but its units has been stored to |
| `SlobKmalloc.Kfree` | CS444_project4_46/slob.c:573-590 | gives back exactly the block that `kmalloc` took, by its header |
| `SlobKmalloc.Ksize` | CS444_project4_46/slob.c:594-611 | at least the bytes asked for, and from the client's pointer never past the block |
| `MtWords.TemperBijective` | CS444_project1_46/mt19937ar.c:130-134 | tempering is a bijection on 32-bit words, with its inverse |
| `MtWords.MatrixInjective` | CS444_project1_46/mt19937ar.c:115-116 | the twist loses nothing of the joined word |
| `MtWords.StepBack` | CS444_project1_46/mt19937ar.c:114-123 | a new word, and the word it was combined with, give back the top bit and the lower bits |
| `MtWords.TwistStep64` | CS444_project1_46/mt19937ar.c:115-116 | on 64-bit words the step gives the 32-bit result, with nothing above it |
| `MtWords.TemperCarry` | CS444_project1_46/mt19937ar.c:131-134 | so does tempering |
| `MtWords.SeedNext64` | CS444_project1_46/mt19937ar.c:61-64 | the low 32 bits of the 64-bit seeding step are the 32-bit step's |
| `MtWords.KeyNext64` | CS444_project1_46/mt19937ar.c:83-84 | likewise for the first pass over the key |
| `MtWords.IndexNext64` | CS444_project1_46/mt19937ar.c:91-92 | likewise for the second pass |
| `MtRecurrence.ShiftInjective` | CS444_project1_46/mt19937ar.c:114-123 | one step of the recurrence is injective on the 19937 bits, and depends on no others |
| `MtRecurrence.StateInjective` | CS444_project1_46/mt19937ar.c:114-123 | so is any number of steps |
| `MtRecurrence.NeverZero` | CS444_project1_46/mt19937ar.c:98-123 | the state becomes all zero exactly if it was from the start |
| `MtRecurrence.SeedStateNotZero` | CS444_project1_46/mt19937ar.c:57-70 | no seed gives the all-zero state |
| `MtRecurrence.KeyStateNotZero` | CS444_project1_46/mt19937ar.c:76-99 | no key gives the all-zero state |
| `MtRecurrence.OutputsTellState` | CS444_project1_46/mt19937ar.c:128-136 | 624 outputs in a row determine the state, and so the seed's 19937 bits |
| `MtLaws.TermInNumbers` | CS444_project1_46/mt19937ar.c:114-123 | term n + 624 from terms n, n + 1 and n + 397, with all masks and constants written out |
| `MtLaws.RefillInNumbers` | CS444_project1_46/mt19937ar.c:114-123 | each word of one refill, from old words and, from word 227 on, from a new one |
| `MtLaws.TemperInNumbers` | CS444_project1_46/mt19937ar.c:130-134 | tempering, line by line, with its constants |
| `MtLaws.OfNatDigits` | CS444_project1_46/mt19937ar.c:61-63 | an int added to a word is that number, modulo 2^32 |
| `MtLaws.SeedInNumbers` | CS444_project1_46/mt19937ar.c:57-70 | the words of a seeded state, with multiplier and shift written out |
| `MtLaws.FirstLoopInNumbers` | CS444_project1_46/mt19937ar.c:79-89 | turn t of the first pass over the key, from the state of seed 19650218: which word it stores, what it stores, with the key word and its position in it, and that it stores nothing else but the copy of word 623 to word 0 |
| `MtLaws.SecondLoopStart` | CS444_project1_46/mt19937ar.c:81-90 | the first pass takes 624 turns, or as many as the key has words, and the second goes on from there |
| `MtLaws.SecondLoopInNumbers` | CS444_project1_46/mt19937ar.c:90-96 | the same for the turns of the second pass |
| `MtLaws.KeyStateInNumbers` | CS444_project1_46/mt19937ar.c:90-98 | the state is what 623 of these turns leave, with word 0 set |
| `MtLaws.KeysTellApart` | CS444_project1_46/mt19937ar.c:80-89 | keys of one length that first differ at word d give equal states up to turn d, which stores different words |
| `Mt19937.StatesFollow` | CS444_project1_46/mt19937ar.c:114-123 | each word of the next state comes from old words and, past the wrap-around, from new ones, as `RefillInNumbers` writes out |
| `Mt19937.MersenneTwister.constructor` | CS444_project1_46/mt19937ar.c:53-54 | the state starts out as not initialised |
| `Mt19937.MersenneTwister.InitGenrand` | CS444_project1_46/mt19937ar.c:57-70 | the array holds the state of the seed's low 32 bits, each word below 2^32 |
| `Mt19937.MersenneTwister.InitByArray` | CS444_project1_46/mt19937ar.c:76-99 | the array holds the state of the key's low 32 bits, which `FirstLoopInNumbers` to `KeyStateInNumbers` describe turn by turn |
| `Mt19937.MersenneTwister.KeyLoop` | CS444_project1_46/mt19937ar.c:80-89 | the first pass, on 64-bit words, takes the turns that it takes on 32-bit words |
| `Mt19937.MersenneTwister.IndexLoop` | CS444_project1_46/mt19937ar.c:90-96 | so does the second pass |
| `Mt19937.MersenneTwister.Twists` | CS444_project1_46/mt19937ar.c:114-123 | two loops and a last word, in place, turn the words of one state into those of the next |
| `Mt19937.MersenneTwister.Refill` | CS444_project1_46/mt19937ar.c:108-126 | the array holds the next 624 terms of the recurrence |
| `Mt19937.MersenneTwister.GenrandInt32` | CS444_project1_46/mt19937ar.c:102-137 | every call returns the tempered next term of the recurrence (`TermInNumbers`, `TemperInNumbers`), seeding with 5489 first if nobody did |
| `Mt19937.MersenneTwister.ArrayNotZero` | CS444_project1_46/mt19937ar.c:98-126 | once seeded, the array is never all zero in the bits that matter |
| `SearchInsertDelete.StartInv` | Concurrency3/prob2_conc3.c:196-206 | the invariant holds at the start, for any number of threads |
| `SearchInsertDelete.StepInv` | Concurrency3/prob2_conc3.c:40-184 | every step keeps it: tokens of every semaphore add up, counters count, a light switch holds its semaphore while somebody is past it |
| `SearchInsertDelete.RunInv` | Concurrency3/prob2_conc3.c:40-184 | so does every run |
| `SearchInsertDelete.DeleterAlone` | Concurrency3/prob2_conc3.c:145-183 | while a deleter is at the list, no searcher, inserter or second deleter is |
| `SearchInsertDelete.SwitchExact` | Concurrency3/prob2_conc3.c:42-131 | a group holds its semaphore while somebody of it is inside and, with the counter free, exactly then; the counter then counts those inside |
| `SearchInsertDelete.OverlapIffTwo` | Concurrency3/prob2_conc3.c:42-107 | from every reachable state two of a group can come to be at the list at once exactly if the program has two |
| `SearchInsertDelete.MeetIff` | Concurrency3/prob2_conc3.c:40-184 | from every reachable state any set of threads can come to be at the list at once exactly if there is no deleter in it, or nobody else |
| `SearchInsertDelete.SideBySideIff` | Concurrency3/prob2_conc3.c:145-183 | at which places of a deleter a searcher, or an inserter, can be at the list: from every reachable state, at all but those between its wait for the group's semaphore and its post of it |
| `SearchInsertDelete.Progress` | Concurrency3/prob2_conc3.c:40-184 | no deadlock: in every reachable state some thread can step, one on its way in or out if there is one; and when all rest, all can |
| `SearchInsertDelete.EveryRunDrains` | Concurrency3/prob2_conc3.c:40-184 | without arrivals every schedule ends, after a bounded number of steps, with everybody outside and every semaphore and counter as at the start |
| `SearchInsertDelete.CanDrain` | Concurrency3/prob2_conc3.c:40-184 | and from every reachable state there is such a run |
| `SearchInsertDelete.GetsToList` | Concurrency3/prob2_conc3.c:40-184 | from every reachable state every thread can be brought to the list |
| `DiningPhilosophers.StepInv` | Concurrency2/concurrency2.c:80-182 | a lock is owned by a philosopher exactly when its place in the code says so |
| `DiningPhilosophers.NeighboursExclude` | Concurrency2/concurrency2.c:94-144 | neighbours never eat at the same time |
| `DiningPhilosophers.PutsWhatItTook` | Concurrency2/concurrency2.c:112-170 | `get_forks` ends with exactly the forks i and i + 1 modulo the seats, `put_forks` with none, and nobody unlocks what it does not own |
| `DiningPhilosophers.Round` | Concurrency2/concurrency2.c:80-182 | the sixteen lock and unlock operations of a round, in order, with the locks they are about |
| `DiningPhilosophers.Ascending` | Concurrency2/concurrency2.c:116-143 | whoever holds a lock waits only for higher-numbered ones |
| `DiningPhilosophers.ChainsEnd` | Concurrency2/concurrency2.c:116-143 | chains of waiting philosophers have no repetition and bounded length |
| `DiningPhilosophers.EndOfChain` | Concurrency2/concurrency2.c:80-182 | somebody can always step: a philosopher or a lock owner it waits for, directly or not |
| `DiningPhilosophers.GetsToEat` | Concurrency2/concurrency2.c:172-182 | from every reachable state every philosopher can be brought to eat |
| `DiningPhilosophers.EatTogetherIff` | Concurrency2/concurrency2.c:112-182 | from every reachable state any set of philosophers can be brought to eat at the same time exactly if no two of them are neighbours |
| `DiningPhilosophers.EatIffTwo` | Concurrency2/concurrency2.c:112-144 | a philosopher can ever eat exactly when there are two seats or more |
| `SharedResource.StepInv` | Concurrency3/prob1_conc3.c:44-91 | every step keeps the invariant of the two semaphores and the three globals |
| `SharedResource.AtMostThree` | Concurrency3/prob1_conc3.c:54-89 | `active` is the number of threads at the resource and at most 3; `mutex`, `blocker` and the holders add up to 1 |
| `SharedResource.DrainsAfterThree` | Concurrency3/prob1_conc3.c:48-80 | once `active` is 3 nobody enters until it is 0 |
| `SharedResource.ParkedForGood` | Concurrency3/prob1_conc3.c:48-84 | a thread that waits for `blocker` never goes on |
| `SharedResource.NeverStuck` | Concurrency3/prob1_conc3.c:44-91 | but some thread that is not waiting for it always can |
| `SharedResource.AllButOnePark` | Concurrency3/prob1_conc3.c:46-89 | with three threads or more a run leaves all but one waiting for good |
| `SharedResource.ParkIffThree` | Concurrency3/prob1_conc3.c:46-89 | a thread can come to wait for `blocker` exactly when there are three or more |
| `Sstf.StopUnique` | CS444_project2_46/sstf-iosched.c:83-132 | the place of insertion is determined by where the scan first fails to pass |
| `Sstf.AddedInNumbers` | CS444_project2_46/sstf-iosched.c:83-132 | which requests a new one passes and which it is put in front of, as comparisons of distances modulo 2^32 |
| `Sstf.Scheduler.AddRequest` | CS444_project2_46/sstf-iosched.c:57-134 | the request goes in front of the first one that is no nearer to what comes before it |
| `Sstf.Scheduler.Dispatch` | CS444_project2_46/sstf-iosched.c:32-55 | the first request goes out; nothing, if there is none |
| `Sstf.DispatchGreedy` | CS444_project2_46/sstf-iosched.c:32-55 | from a queue in greedy order the nearest request goes out, and the rest is in greedy order from there |
| `Sstf.GreedyKept` | CS444_project2_46/sstf-iosched.c:83-132 | at any distances, adding keeps the greedy order exactly if no truncated comparison misplaced the request and the one put behind it is the nearest to it of all that follow |
| `Sstf.GreedyKeptNear` | CS444_project2_46/sstf-iosched.c:83-132 | with distances below 2^32 the second half alone decides |
| `Sstf.GreedySpoilt` | CS444_project2_46/sstf-iosched.c:118-127 | a request for which it does not |
| `Sstf.TooFar` | CS444_project2_46/sstf-iosched.c:90-112 | a request at 2^32 or more goes first exactly if its truncated distance is no longer than the first one's distance, and then the order is lost |
| `Sstf.OutwardIsGreedy` | CS444_project2_46/sstf-iosched.c:93-127 | on one side of the head, the greedy order and going outward are the same |
| `Sstf.AddOutwardIff` | CS444_project2_46/sstf-iosched.c:76-133 | after an add on that side the queue goes outward exactly if it did before |
| `Sstf.RunOutward` | CS444_project2_46/sstf-iosched.c:32-134 | over every run with its adds on one side the queue goes outward, and each request dispatched is the nearest of those queued for every head on the inner side |
| `Sstf.AddsOutwardIff` | CS444_project2_46/sstf-iosched.c:76-133 | adds on one side never bring a queue into order, nor out of it |
| `Sstf.SideChange` | CS444_project2_46/sstf-iosched.c:32-134 | after a change of side, and adds on the new one, the queue is in greedy order exactly if no two different sectors were queued at the change |
| `Sstf.SidesMatter` | CS444_project2_46/sstf-iosched.c:62-127 | a run of three adds from the empty queue that fails so |
| `Sstf.RunConserves` | CS444_project2_46/sstf-iosched.c:32-134 | over every run, no request is lost or doubled |
| `Sstf.BatchHead` | CS444_project2_46/sstf-iosched.c:76-133 | any batch added with one end sector becomes a permutation of itself whose head has the shortest distance, as an unsigned int, to that sector |
| `Sstf.BatchNearest` | CS444_project2_46/sstf-iosched.c:76-133 | and, with distances below 2^32, is the nearest to it |

## Left out

- slob.c: NUMA node matching, allocations of whole pages by order, `kmem_cache` calls, constructors, zeroing, tracing and kmemleak. `slob_new_pages` becomes a flag that says whether the pages can be had; each locked region is one atomic step, and `kmalloc` stores its header outside any.
- The RCU footer (slob.c:680-697), whose place may fall between two units; finding the block again is one subtraction that undoes one addition.
- SlobKmalloc.Kmalloc: requires pages of at most 4 GiB, so that a size fits the 32-bit header; the code does not look.
- SlobAllocator.Allocator.SlobAlloc: requires a size of at most a page, as its callers see to; the code itself would reach `BUG_ON` with a larger one (`FreshPageFits`).
- SlobAllocator.Allocator.SlobFree: requires a live block and the size it was allocated with, which the code does not check.
- SlobKmalloc.Ksize: leaves out pointers to whole pages, whose order belongs to the page allocator; on NULL the code stops with `BUG_ON`.
- The page lists are sequences of pages, not linked `list_head` cells.
- mt19937ar.c: `genrand_int31`, the floating-point outputs, and the commented-out main program.
- Mt19937.MersenneTwister.InitByArray: requires a non-empty key; with an empty one the code reads outside it.
- The list code of `insert`, `search` and `delete` between their entry and exit sections. Two inserters at the end of the list are not linearised by the code, and nothing is claimed about them.
- Starvation: no protocol here has a fairness assumption, so nothing is said about every thread being served in the end.
- Sleeping, printing and random numbers in the thread programs, and the creation and joining of threads.
- sstf-iosched.c: merging, the neighbour queries, `elv_dispatch_sort`, and how `end_sector` comes to change; it is a parameter of each add.
- Sstf.AddOutwardIff: assumes distances below 2^32 sectors; what truncation does is in `GreedyKept` and `TooFar`.
- `Concurrency1/concurrency.c` (a bounded stack under one mutex), `CS444_project3_46/brdd.c` (an encrypting block device; the cipher is foreign code), the measurement programs, and the documents.
