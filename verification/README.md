# iibmalloc, verified model

iibmalloc is a per-thread memory allocator. This project models its parts and the tester that drives
it. Three parts are proved together as one heap, over all runs, and the heap is proved to be an
allocator the tester can rely on; the collection and the page cache are proved each on its own.

* `BulkAllocator` hands out runs of pages from large blocks. Chunks of a block are chained by packed
  headers, and the free ones sit on doubly linked lists selected by page count. Chunks are split
  and merged.
* `SoundingAddressPageAllocator` hands out single pages and groups of pages for size classes
  ("buckets"), so that the bucket can be read off the address of any byte.
* `SerializableAllocatorBase` serves small requests from lists of items threaded through such pages
  and everything else from the bulk allocator. `deallocate` gets nothing but an address.
* `CollectionInPages` and `PageAllocatorWithCaching` keep records in pages of their own and cache
  free blocks.

The main results, each for all parameters, all inputs and all runs:

1. **The whole heap is safe** (`HeapRuns.RunIsSafe`, `HeapRuns.AllocateKeeps`,
   `HeapRuns.DeallocateKeeps`, `HeapBulk.HeldApartFromFreeItem`,
   `HeapBulk.HeldApartFromFreeChunk`): in every run of `allocate`, `deallocate` and writes by clients,
   held memory is never null, large enough, pairwise disjoint and disjoint from every free item and
   free chunk; no call writes a word or a header inside it; `deallocate` routes every address back
   exactly. Every call has exactly its effect on the lists a walk through memory finds
   (`HeapEffects.AllocateEffect`, `HeapEffects.DeallocateEffect`): no item is lost, and the item given
   back last is handed out first (`HeapEffects.NoItemLost`, `HeapEffects.ItemComesBack`).
2. **The bulk allocator is consistent once three updates are added** (`BulkRuns.RunIsSafe`,
   `BulkRuns.BlocksPartitioned`): every run is a run of a model of chunk sizes and list contents, with
   no headers and no links, in which no page is ever lost (`BulkModel.RunFollows`). As written all this
   holds **exactly** as long as no chunk is freed in front of a live chunk that is flagged free
   (`BulkRuns.LiteralDeallocateIff`, `HeapRuns.LiteralFreeIff`). For every instance with `max_pages`
   above 0, the shipped one included, there is a run of legal calls in which the code as written hands
   out memory that is still held (`BulkLiteral.DoubleGrant`).
3. **Pages never repeat and are committed once** (`PagerSpec.PagesNeverRepeat`,
   `PagerSpec.GetPageCommits`), so no commit wipes a page in use; a bucket's pages come in order
   (`PagerSpec.PagesInOrder`), and a group of pages forms at most two runs, as long as possible
   (`Multipage.AtMostTwoRuns`, `Multipage.GetMultipageKeeps`).
4. **The imperative classes refine these step machines**: every method of `BulkAllocator`,
   `SoundingAddressPageAllocator` and `SerializableAllocator` is proved to take exactly the step its
   specification takes, and to fail none of the asserts in the original.
5. **The checking tester cannot fail** with any allocator that gives disjoint blocks and leaves them
   alone (`AllocatorTester.RandomPosRandomSize`), and in every run the heap is such an allocator
   (`TesterOnHeap.RunServesTester`). What it does is a function of its random numbers: every block
   filled is checked exactly once (`TesterModel.AllChecked`), and a slot's use follows the parity of its
   picks (`TesterModel.Parity`).

## How the files fit together

* `Arith`, `Lists`, `Sums`: arithmetic of shifts and masks; linked lists in memory; sums over maps.
* `SizeClasses`: the two size-class schemes. `FreeItems`: the items a block is cut into.
* `PageAddress`, `PagerSpec`, `Multipage`: address encoding; `getPage` and `getMultipage` as steps on
  values. `PageAllocator`: the class over linked descriptors.
* `BulkSpec`: the bulk allocator as steps on a map of chunk headers, and its invariant. `BulkLists`,
  `BulkTiling`, `BulkSteps`, `BulkFrame`: free lists, tiling of blocks, the invariant step by step,
  what a step leaves alone. `BulkRuns`: runs. `BulkLiteral`: the code as written. `ChunkHeader`,
  `BulkAllocator`: packed headers and the class.
  `BulkModel`: the same steps on chunk sizes and list contents alone, which every run follows.
* `HeapSpec`, `HeapItems`, `HeapSteps`, `HeapBulk`, `HeapRuns`: the whole allocator as steps on
  values, its invariant, and runs. `HeapEffects`: what a call does to the lists.
  `SerializableAllocator`: the class.
* `CollectionInPages`, `BlockList`, `PageCache`: the classes of the same names, in place.
* `SegmentCheck`, `RandomSize`, `AllocatorTester`: the tester. `TesterModel`: what it does with its
  slots, given its random numbers. `TesterOnHeap`:
  the heap as an allocator of blocks of bytes.
* `VirtualMemory`, `Regions`: what is assumed of the operating system, and which regions belong to
  whom.

Template parameters stay symbolic; only the static asserts of the source and what its asserts at
src/iibmalloc/iibmalloc.h:465 and 634 need are assumed (`Params.Valid`, `Geometry.Valid`,
`Config.Valid`). The page size is 4096.

A `hide` statement in a proof takes definitions the proof does not need away from the solver, to keep
every obligation small; it adds no assumption.

## Where the code and its own promises part

* Three updates that the validators at src/iibmalloc/iibmalloc.h:509-577 need are missing: an exact
  pop does not clear the free bit (665-673), a free without a merge does not set it (723-731), and
  neither split nor merge updates the back-link of the chunk behind (642, 710, 720;
  `setPrevInBlock` is never called). One flag, `repaired`, adds all three; every place it does is
  marked DEPARTURE in `BulkSpec` and `BulkAllocator`. With the flag off the steps are the code as
  written, and every theorem says which of the two it is about.
* As written only the last chunk of a block is ever flagged, so the merge with the previous chunk
  never happens and back-links stay exact although nothing updates them. This ends when a flagged tail
  is handed out by an exact pop and the chunk in front of it is freed: the live chunk is merged into a
  free one, and two requests later it is handed out again.
* The assert at src/iibmalloc/iibmalloc.h:528 compares the free bits of a chunk and the one in front of
  it, and fails for two neighbours that are both live, where no merge was missed. `dbgValidateAllBlocks`
  starts from the first chunk of a block, which has no chunk in front of it.
* Above 2^63 bytes the page count computed at src/iibmalloc/iibmalloc.h:612 is wrong
  (`BulkSpec.PageCount64Exact`): the size is negative when read as `intptr_t`.
* The assert at src/iibmalloc/iibmalloc.h:708 reads the chunk before the previous one; the property
  proved is that the previous chunk ends where the freed one starts.
* The assert at src/iibmalloc/iibmalloc.h:1017 compares a byte offset with a count; the property proved
  is that the skipped item is not the last one.
* A refill overwrites the list of the first segment when the second one formats
  (src/iibmalloc/iibmalloc.h:1050-1051): the items of the first segment are on no list. What is proved is
  which list remains.
* `deinitialize` leaves the bucket heads as they were (src/iibmalloc/iibmalloc.h:1216-1230): a run ends
  there or starts again with `initialize`.
* The main generator of the tester is never seeded (src/allocator_tester.h:293; `rnd_seed` is only
  printed), and from a seed of 0 it yields zeros: the tester as written uses one slot only
  (`TesterModel.OwnGenerator`).

## Model

| member | source | states |
|---|---|---|
| HeapRuns.RunIsSafe | src/iibmalloc/iibmalloc.h:1111-1195 | In every state of every run of `allocate`, `deallocate` and client writes: held addresses are not null; the bytes asked for are disjoint from each other, from every item on a bucket list and from every chunk on a free list; `deallocate` finds its way back from the address alone. In every step a grant is new, no word or header is written inside anything held before and after, and the call does what `HeapEffects.AllocateEffect` and `HeapEffects.DeallocateEffect` say. Unconditional for the repaired bulk allocator, and for the code as written while no hazard is freed |
| HeapRuns.AllocateKeeps | src/iibmalloc/iibmalloc.h:1111-1143 | One `allocate` keeps the invariant of the whole heap, returns a new non-null address, takes the first item of the list and leaves the rest on it (or is served by pages or a chunk), and writes no word and no header inside any item or chunk that is held; of the header in front of a chunk it may change the back-link |
| HeapRuns.GrantFits | src/iibmalloc/iibmalloc.h:1082-1143 | What is granted has room for the size asked for and no more than is needed: the least bucket that fits, or less than a page too much; nothing else that is held changes hands or size |
| HeapRuns.DeallocateKeeps | src/iibmalloc/iibmalloc.h:1145-1195 | One `deallocate` of something held keeps the invariant, puts an item in front of the list it came from, and writes no word and no header inside anything still held |
| HeapRuns.RoutingExact | src/iibmalloc/iibmalloc.h:1164-1183 | An address goes to the bulk side if and only if it was handed out there, and otherwise back to the very bucket `sizeToIndex` chose when it was allocated |
| HeapRuns.LiteralFreeIff | src/iibmalloc/iibmalloc.h:703-731 | As written, one `deallocate` leaves a correct heap if and only if it does not free a chunk in front of a live chunk that is flagged free |
| HeapRuns.WriteItemKeeps | src/iibmalloc/iibmalloc.h:1126-1138 | A client may write any word of its items without disturbing a bucket list |
| HeapRuns.ShippedConfigIsValid | src/iibmalloc/iibmalloc.h:773-792 | The shipped template parameters satisfy all that the theorems assume |
| HeapBulk.HeldApart | src/iibmalloc/iibmalloc.h:1082-1143 | Any two held pieces of memory, items or chunks, are disjoint |
| HeapBulk.HeldApartFromFreeItem | src/iibmalloc/iibmalloc.h:1111-1143 | Held memory is disjoint from every item on a bucket list |
| HeapBulk.HeldApartFromFreeChunk | src/iibmalloc/iibmalloc.h:1082-1109 | Held memory is disjoint from every chunk on a free list of the bulk allocator |
| HeapBulk.AllocateBulkKeeps | src/iibmalloc/iibmalloc.h:1082-1109 | A request served by the bulk allocator keeps the heap invariant; the chunk is new and page aligned, and no header is written inside any item or chunk that is held |
| HeapBulk.DeallocateBulkKeeps | src/iibmalloc/iibmalloc.h:1173-1183 | Giving a chunk back keeps the heap invariant, and writes no header inside any item or chunk still held |
| HeapBulk.BulkAddress | src/iibmalloc/iibmalloc.h:1092-1109 | An address behind a chunk header has the forbidden offset and leads back to the start of its page |
| HeapSteps.RefillKeeps | src/iibmalloc/iibmalloc.h:1031-1054 | A refill keeps the heap invariant, always yields an item, and writes only first words of items, none of them inside an item that is held; with `HeapBulk.ItemStepKept` none inside a held chunk either |
| HeapBulk.ItemStepKept | src/iibmalloc/iibmalloc.h:1031-1054 | A step that writes only first words of items writes nothing inside held chunks |
| HeapSteps.RefillLeaves | src/iibmalloc/iibmalloc.h:1049-1053 | The list a refill leaves is exactly that of the last segment that holds an item; the items of the other segment are on no list |
| HeapSteps.OneIsUsable | src/iibmalloc/iibmalloc.h:1049-1052 | One of the two segments of a group holds an item of any bucket, so the head read at line 1052 is not null |
| HeapSteps.PopKeeps | src/iibmalloc/iibmalloc.h:1125-1138 | Popping an item keeps the invariant, for the book in which the list has lost its first item and nothing else has changed; the item is new to the clients and carries its bucket in its address |
| HeapSteps.PushKeeps | src/iibmalloc/iibmalloc.h:1164-1172 | Pushing an item back keeps the invariant, for the book in which it is in front of the list of the bucket it came from and nothing else has changed, and writes the first word of that item only, which lies in no item still held; with `HeapBulk.ItemStepKept` in no held chunk either |
| HeapSteps.InitialInv | src/iibmalloc/iibmalloc.h:1209-1214 | An initialized heap satisfies the invariant |
| HeapEffects.FirstIsTaken | src/iibmalloc/iibmalloc.h:1113-1138 | `allocate` returns the first item of the bucket's list and leaves exactly the rest on it; other lists, pages and bulk allocator are as they were |
| HeapEffects.RefillIsTaken | src/iibmalloc/iibmalloc.h:1031-1054 | On an empty list `allocate` returns the first item of the last usable run of a new group of pages and leaves exactly the rest of its items; other lists and the bulk allocator are as they were |
| HeapEffects.ItemGivenBack | src/iibmalloc/iibmalloc.h:1164-1172 | `deallocate` puts an item in front of the list of the bucket it was allocated from; other lists, pages and bulk allocator are as they were |
| HeapEffects.NoItemLost | src/iibmalloc/iibmalloc.h:1164-1172 | Giving an item back loses none: held or listed before if and only if held or listed after |
| HeapEffects.ItemComesBack | src/iibmalloc/iibmalloc.h:1111-1195 | After `deallocate` the next `allocate` of any size of that bucket returns the same item, and all lists are as they were before both |
| HeapEffects.AllocateEffect | src/iibmalloc/iibmalloc.h:1111-1143 | Any `allocate`: which of the three cases applies, and what it does to lists, pages and chunks |
| HeapEffects.DeallocateEffect | src/iibmalloc/iibmalloc.h:1145-1195 | Any `deallocate`: null changes nothing, an item goes to its list, a chunk to the bulk allocator |
| HeapEffects.ServedByBlock | src/iibmalloc/iibmalloc.h:1082-1094 | A request is served from a block if and only if size and header fit into `max_pages` pages |
| HeapItems.ItemsApart | src/iibmalloc/iibmalloc.h:982-1029 | Two items never overlap, whatever buckets and segments they come from |
| HeapItems.ByteOfSegment | src/iibmalloc/iibmalloc.h:252-259 | Every byte of a segment lies in a page handed out for its bucket, and its address gives the bucket |
| HeapItems.FormattedLists | src/iibmalloc/iibmalloc.h:982-1029 | Formatting a new segment keeps all bucket lists well formed and makes its items the list of its bucket |
| SerializableAllocatorClass.SerializableAllocator.constructor | src/iibmalloc/iibmalloc.h:1209-1214 | A new allocator is valid and holds nothing, whatever else has been reserved and committed by others |
| SerializableAllocatorClass.SerializableAllocator.Allocate | src/iibmalloc/iibmalloc.h:1111-1143 | The imperative `allocate` takes exactly the specified step: the first item of the list, the rest of which is kept, or a new list or a chunk of no page too many; the result is new, not null, large enough and disjoint from everything held, and no word or header is written inside anything held |
| SerializableAllocatorClass.SerializableAllocator.Deallocate | src/iibmalloc/iibmalloc.h:1145-1195 | The imperative `deallocate` takes exactly the specified step: an item is in front of its list afterwards, every other list as it was; no word or header is written inside anything still held; null is ignored |
| SerializableAllocatorClass.SerializableAllocator.AllocateInCaseNoFreeBucket | src/iibmalloc/iibmalloc.h:1031-1054 | A group of pages is taken; the result is the first item of its last usable run, the list left is the rest of that run's items, and the other lists are as they were |
| SerializableAllocatorClass.SerializableAllocator.AllocateInCaseTooLargeForBucket | src/iibmalloc/iibmalloc.h:1082-1109 | The bulk side of `allocate`, exactly as specified: the fewest pages with room for size and header, and what the client then holds |
| SerializableAllocatorClass.SerializableAllocator.FormatAllocatedPageAlignedBlock | src/iibmalloc/iibmalloc.h:982-1029 | Memory after formatting is the threading of exactly the allowed items, in address order and null terminated; false and no change for a null or too small block |
| SerializableAllocatorClass.SerializableAllocator.ThreadAllowed | src/iibmalloc/iibmalloc.h:1007-1025 | The loop that skips forbidden items never skips the last one (the intent of the assert at line 1017) |
| SerializableAllocatorClass.SerializableAllocator.ThreadAll | src/iibmalloc/iibmalloc.h:989-1002 | For bucket sizes that are multiples of 32 no item is at the forbidden offset (assert in the loop) |
| SerializableAllocatorClass.SerializableAllocator.Deinitialize | src/iibmalloc/iibmalloc.h:1216-1230 | Every reservation and every block goes back to the operating system, once; large chunks still held do not; the bucket heads stay as they were; the parts are valid and empty |
| SerializableAllocatorClass.SerializableAllocator.Initialize | src/iibmalloc/iibmalloc.h:1209-1214 | After `deinitialize` the allocator can be initialized again: it is valid, with empty buckets and no pages, and large chunks that were still held still are |
| FreeItems.ItemsExact | src/iibmalloc/iibmalloc.h:982-1029 | The items of a block are exactly the multiples of the bucket size inside it whose offset in the page is not the forbidden one |
| FreeItems.ItemsFromOrdered | src/iibmalloc/iibmalloc.h:1011-1021 | The items are listed in address order |
| FreeItems.LastNotForbidden | src/iibmalloc/iibmalloc.h:1017-1022 | The last item of a whole number of pages is never forbidden, for every bucket size of the tables |
| FreeItems.NextAllowed | src/iibmalloc/iibmalloc.h:1013-1020 | No two items in a row are forbidden |
| FreeItems.NoneForbidden | src/iibmalloc/iibmalloc.h:989-996 | For a multiple of 32 no item is forbidden |
| Lists.ThreadedLinked | src/iibmalloc/iibmalloc.h:994-999 | Threading items makes a list of exactly these items that ends in null |
| Lists.LinkedPush | src/iibmalloc/iibmalloc.h:1170-1171 | Writing the old head into a new item and making it the head pushes it |
| SizeClasses.HalfExpLeastFit | src/iibmalloc/iibmalloc.h:930-944 | Half-exponent scheme: the bucket at the computed index is the least that fits, for every representable size; above 16 bytes it is at most 1.5 times `sz - 1` |
| SizeClasses.IndexHalfExpIsLeast | src/iibmalloc/iibmalloc.h:930-944 | Half-exponent scheme: the bucket at the computed index fits and the one before does not, for sizes of any magnitude; above 16 bytes it is at most 1.5 times `sz - 1` |
| SizeClasses.IndexQuarterExpIsLeast | src/iibmalloc/iibmalloc.h:946-959 | Quarter-exponent scheme: the bucket at the computed index fits and the one before does not |
| SizeClasses.HalfExpMonotone | src/iibmalloc/iibmalloc.h:930-944 | Half-exponent scheme: larger sizes get no smaller index |
| SizeClasses.HalfExpTooLarge | src/iibmalloc/iibmalloc.h:930-944 | Half-exponent scheme: sizes above 3 * 2^62, which no 64-bit bucket fits, get an index past the last representable one |
| SizeClasses.QuarterExpLeastFit | src/iibmalloc/iibmalloc.h:946-959 | Quarter-exponent scheme: the bucket at the computed index is the least that fits |
| SizeClasses.QuarterExpMonotone | src/iibmalloc/iibmalloc.h:946-959 | Quarter-exponent scheme: larger sizes get no smaller index |
| SizeClasses.QuarterExpTooLarge | src/iibmalloc/iibmalloc.h:946-959 | Quarter-exponent scheme: the same above 7 * 2^61 |
| SizeClasses.BucketForRequest | src/iibmalloc/iibmalloc.h:1113-1124 | Every size up to `MaxBucketSize` gets one of the first 21 buckets, with room for it and of at most `MaxBucketSize` bytes |
| SizeClasses.HalfExpMultipleOf32OrSmall | src/iibmalloc/iibmalloc.h:825-829 | Every half-exponent bucket size is a multiple of 32 or at most 48, which is what formatting relies on |
| SizeClasses.QuarterExpMultipleOf32OrSmall | src/iibmalloc/iibmalloc.h:832-838 | Every quarter-exponent bucket size is a multiple of 32 or at most 128 |
| SizeClasses.RawQuarterExpShifts | src/iibmalloc/iibmalloc.h:832-838 | The shifts of the quarter-exponent scheme add up to 5, 6, 7 or 8 times a power of two |
| Arith.AlignUpExpIsCeil | src/iibmalloc/iibmalloc_common.h:121-130 | `alignUpExp` by negation and arithmetic shift gives the least multiple not below, in 64-bit arithmetic, and agrees with `alignUpMask` |
| Arith.IsAlignedIffMultiple | src/iibmalloc/iibmalloc_common.h:109-119 | `isAlignedExp` holds exactly of the multiples |
| PageAddress.AddressRoundTrip | src/iibmalloc/iibmalloc.h:252-274 | From any byte of the page of a bucket and index, wherever the reservation starts, the address gives back bucket, index, page and offset, and the page lies inside the reservation |
| PageAddress.AddressCovers | src/iibmalloc/iibmalloc.h:252-274 | Every page of a reservation is the page of its own bucket and index |
| PageAddress.AddressInjective | src/iibmalloc/iibmalloc.h:260-274 | Different buckets or indices have different pages |
| PageAddress.AdjacentUnlessWrap | src/iibmalloc/iibmalloc.h:260-274 | Consecutive pages of a bucket are adjacent exactly where the ring does not close |
| PageAddress.ShippedInstance | src/iibmalloc/iibmalloc.h:160-178 | The shipped exponents satisfy the static asserts and give 64 buckets of 32 pages, commits of 16 and groups of 8 |
| PagerSpec.GetPageKeeps | src/iibmalloc/iibmalloc.h:308-358 | `getPage` keeps the invariant; the page was never handed out, is committed, and carries its bucket in its address |
| PagerSpec.GetPageTakes | src/iibmalloc/iibmalloc.h:308-358 | `getPage` moves one cursor of one reservation by one; the asserts at 314, 322, 339, 343, 344 and 350 |
| PagerSpec.GetPageCommits | src/iibmalloc/iibmalloc.h:315-319 | `getPage` commits only pages that were not committed, and the committed pages are exactly those below the commit cursors |
| PagerSpec.CommitsWhenNeeded | src/iibmalloc/iibmalloc.h:315-319 | A page that is committed costs no commit; for one that is not, `commit_page_cnt` pages starting with it are committed |
| PagerSpec.PagesInOrder | src/iibmalloc/iibmalloc.h:308-358 | A bucket's pages are handed out in order, reservation by reservation; a new reservation is made if and only if every page of the bucket is handed out in all there are |
| PagerSpec.RunKeeps | src/iibmalloc/iibmalloc.h:308-358 | Over any run of `getPage` the invariant holds: reservations before a bucket's head are used up, those behind it untouched |
| PagerSpec.PagesNeverRepeat | src/iibmalloc/iibmalloc.h:308-358 | For any interleaving over the buckets no page is handed out twice |
| PagerSpec.PageAtUnique | src/iibmalloc/iibmalloc.h:252-274 | An address says which reservation, bucket and index it belongs to |
| Multipage.GetMultipageKeeps | src/iibmalloc/iibmalloc.h:360-407 | The pages of a group are the next ones of the bucket in one reservation, all new. The first run starts with the first page and ends where the next page does not follow; the second run, if any, is the rest and starts where the reservation does; there is none if and only if all pages follow each other |
| Multipage.GroupFits | src/iibmalloc/iibmalloc.h:360-386 | A group starts at a multiple of its size and ends in the same reservation |
| Multipage.AtMostTwoRuns | src/iibmalloc/iibmalloc.h:362-405 | Consecutive pages of a bucket form at most two contiguous runs, the note at line 363 |
| PageAllocatorClass.SoundingAddressPageAllocator.GetPage | src/iibmalloc/iibmalloc.h:308-358 | The imperative `getPage` over the linked descriptors takes exactly the specified step and fails no assert; the page it returns is committed, and no page committed before loses its contents, by whomever it is used |
| PageAllocatorClass.SoundingAddressPageAllocator.GetMultipage | src/iibmalloc/iibmalloc.h:360-407 | The imperative `getMultipage` returns the runs so specified, in order and as long as possible |
| PageAllocatorClass.SoundingAddressPageAllocator.CommitRangeOfPageIndexes | src/iibmalloc/iibmalloc.h:285-306 | Exactly the requested pages are committed, none of them a second time, in one or two calls |
| PageAllocatorClass.SoundingAddressPageAllocator.AppendBlock | src/iibmalloc/iibmalloc.h:202-212 | A new descriptor at the end of the list |
| PageAllocatorClass.SoundingAddressPageAllocator.Deinitialize | src/iibmalloc/iibmalloc.h:415-432 | Every reservation goes back once, with what was committed of it; the lists are reset and the allocator is valid again; pages committed by others stay committed |
| PageAllocatorClass.SoundingAddressPageAllocator.constructor | src/iibmalloc/iibmalloc.h:278-283 | A new page allocator is valid and owns nothing, whatever others have reserved and committed |
| BulkSteps.AllocateKeeps | src/iibmalloc/iibmalloc.h:603-690 | Every `allocate` of the bulk allocator (split, exact pop, new block, large region), repaired or as written, keeps the invariant and returns a new page-aligned chunk of the right size |
| BulkSteps.DeallocateKeeps | src/iibmalloc/iibmalloc.h:692-737 | Every `deallocate` of a chunk, merging with neither, one or both neighbours, keeps the invariant: always when repaired, as written unless a hazard is freed |
| BulkSteps.DeallocateLargeKeeps | src/iibmalloc/iibmalloc.h:738-742 | Returning a large region keeps the invariant; its size is where the header keeps it |
| BulkSteps.SplitKeeps | src/iibmalloc/iibmalloc.h:637-663 | Cutting the front off a chunk keeps tiling, lists and flags |
| BulkSteps.ExactPopKeeps | src/iibmalloc/iibmalloc.h:665-673 | An exact pop keeps tiling, lists and flags |
| BulkSteps.MergePrevKeeps | src/iibmalloc/iibmalloc.h:703-712 | Merging into the previous chunk keeps them |
| BulkSteps.MergeNextKeeps | src/iibmalloc/iibmalloc.h:713-721 | Merging the next chunk keeps them |
| BulkSteps.FinishKeeps | src/iibmalloc/iibmalloc.h:723-731 | Listing the merged chunk completes the step |
| BulkSteps.HeadFacts | src/iibmalloc/iibmalloc.h:633-635 | The asserts before a pop hold: the head exists, has the right page count and no predecessor |
| BulkLists.RemoveKeepsLists | src/iibmalloc/iibmalloc.h:485-507 | Removal from the head or the middle of a list leaves all lists well formed without the removed chunk |
| BulkLists.PushKeepsLists | src/iibmalloc/iibmalloc.h:723-731 | A push puts the chunk on the one list its page count selects and leaves all lists well formed |
| BulkLists.PopRemoves | src/iibmalloc/iibmalloc.h:637-640 | A pop is the removal of the head |
| BulkLists.NeighboursOnList | src/iibmalloc/iibmalloc.h:489-504 | The list neighbours of a chunk select the same list: the asserts at 489, 497 and 504 |
| BulkTiling.AllChunksApart | src/iibmalloc/iibmalloc.h:509-543 | Chunks never overlap, in one block or in different ones |
| BulkTiling.ChunkOf | src/iibmalloc/iibmalloc.h:514-526 | Walking a block from one of its chunks reaches the chunk of any later address |
| BulkTiling.SplitTiling | src/iibmalloc/iibmalloc.h:641-646 | A split keeps forward and backward links mutually inverse and the chunks abutting |
| BulkTiling.MergeTiling | src/iibmalloc/iibmalloc.h:710-720 | So does a merge |
| BulkFrame.AllocateKeepsContents | src/iibmalloc/iibmalloc.h:603-690 | `allocate` writes no header inside held chunks and large regions, new headers included, and of the headers of held chunks at most the back-link |
| BulkFrame.DeallocateKeepsContents | src/iibmalloc/iibmalloc.h:692-744 | Nor does `deallocate` inside the chunks and large regions still held |
| BulkRuns.RunIsSafe | src/iibmalloc/iibmalloc.h:603-744 | Every state of every run is consistent and held chunks are disjoint: of the repaired allocator always, as written under its hypothesis |
| BulkModel.AllocateRefines | src/iibmalloc/iibmalloc.h:603-688 | `allocate` takes the first chunk of the list of that page count; if there is none, the front of the first chunk on the last list, the rest of which goes to the list of its own size; if that is empty, the front of a new block; above `max_pages` a region of its own. No other chunk and no other list changes |
| BulkModel.DeallocateRefines | src/iibmalloc/iibmalloc.h:692-744 | `deallocate` joins the chunk with exactly those neighbours in the block that are listed (as written: flagged), takes these off their lists and puts the result in front of the list of its size. No other chunk and no other list changes |
| BulkModel.RunFollows | src/iibmalloc/iibmalloc.h:603-744 | Every run without a hazard, call by call, is a run of this model of blocks, chunk sizes and list contents, which has no headers and no links; in every state the sizes of the chunks add up to the pages of all blocks |
| BulkModel.GiveConserves | src/iibmalloc/iibmalloc.h:703-731 | Joining loses no page and makes none |
| BulkModel.TakeConserves | src/iibmalloc/iibmalloc.h:603-688 | Splitting loses no page; a new block adds its own pages and no other allocation adds any |
| BulkRuns.BlocksPartitioned | src/iibmalloc/iibmalloc.h:509-543 | Every address of a block lies in exactly one chunk, which is either live or on the one list its page count selects |
| BulkRuns.FreeListsApart | src/iibmalloc/iibmalloc.h:556-577 | Held memory is disjoint from every listed chunk |
| BulkRuns.StepGrants | src/iibmalloc/iibmalloc.h:603-690 | A grant is new; whoever held something keeps it, and no header is written inside it |
| BulkRuns.LiteralFacts | src/iibmalloc/iibmalloc.h:703-721 | As written every flagged chunk is the last of its block, the merge with the previous chunk never happens, and all back-links are exact |
| BulkRuns.LiteralDeallocateIff | src/iibmalloc/iibmalloc.h:703-731 | As written one `deallocate` keeps the invariant if and only if the chunk behind is not both live and flagged free |
| BulkRuns.HazardBreaks | src/iibmalloc/iibmalloc.h:713-721 | Freeing a hazard leaves a chunk that is still live inside a chunk at the head of a free list, and a state that no bookkeeping makes consistent |
| BulkLiteral.UnflaggedRunIsSafe | src/iibmalloc/iibmalloc.h:637-673 | As written every run is safe in which no exact pop returns a chunk whose free bit is set |
| BulkLiteral.LiteralKeepsBackLinks | src/iibmalloc/iibmalloc.h:703-731 | As written, deallocation changes the back-link of no chunk at all |
| BulkLiteral.BreakingRun | src/iibmalloc/iibmalloc.h:665-721 | For every instance with `max_pages` above 0 there is a run of legal calls after which the code as written is inconsistent: the only chunk on a free list contains the start of one that is still live |
| BulkLiteral.DoubleGrant | src/iibmalloc/iibmalloc.h:633-721 | For every such instance there is a run of legal calls of the code as written whose last `allocate` returns a chunk that is still held; the run is consistent up to the `deallocate` three calls before |
| BulkLiteral.ShippedInstanceBreaks | src/iibmalloc/iibmalloc.h:783-786 | The shipped instance hands out held memory in such a run |
| BulkSpec.PageCountIsCeil | src/iibmalloc/iibmalloc.h:612-612 | Negation and shift give the least page count that holds the size, on integers |
| BulkSpec.PageCount64Exact | src/iibmalloc/iibmalloc.h:612-612 | In 64-bit words, with the casts to `intptr_t` and the arithmetic shift, the result is that page count if and only if the size is at most 2^63 |
| ChunkHeader.SetUnpacks | src/iibmalloc/iibmalloc.h:454-468 | Packing page count and free bit into the links loses nothing for aligned links and counts below 4096 |
| ChunkHeader.SetPrevUnpacks | src/iibmalloc/iibmalloc.h:458-458 | `setPrevInBlock` changes the back-link and nothing else |
| ChunkHeader.SetSpills | src/iibmalloc/iibmalloc.h:459-466 | A page count of 4096 spills into the back-link: why the count must stay below the page size |
| BulkAllocatorClass.BulkAllocator.constructor | src/iibmalloc/iibmalloc.h:590-601 | A new bulk allocator is valid and empty |
| BulkAllocatorClass.BulkAllocator.Allocate | src/iibmalloc/iibmalloc.h:603-690 | The imperative `allocate` over packed headers takes exactly the specified step, fails no assert and returns enough pages that nobody holds |
| BulkAllocatorClass.BulkAllocator.Deallocate | src/iibmalloc/iibmalloc.h:692-744 | The imperative `deallocate` takes exactly the specified step and fails no assert |
| BulkAllocatorClass.BulkAllocator.RemoveFromFreeList | src/iibmalloc/iibmalloc.h:485-507 | The imperative removal, with its three asserts |
| BulkAllocatorClass.BulkAllocator.DbgValidateBlock | src/iibmalloc/iibmalloc.h:509-543 | With the three updates, on any chunk: of the asserts of `dbgValidateBlock` only the one at line 528 can fail, exactly when the chunk and the one in front of it are both live, and otherwise the counts add up to the block; on block starts, where it is called, none fails |
| BulkAllocatorClass.BulkAllocator.DbgValidateFreeList | src/iibmalloc/iibmalloc.h:556-577 | With the three updates, on any node of a free list, none of the asserts of `dbgValidateFreeList` can fail, and its two walks visit every node of the list, the given one twice |
| BulkAllocatorClass.BulkAllocator.Deinitialize | src/iibmalloc/iibmalloc.h:746-764 | Every block goes back, large chunks still held do not |
| Regions.ReservationsAfterGroup | src/iibmalloc/iibmalloc.h:198-222 | A group takes at most one new reservation |
| Regions.RegionsGrow | src/iibmalloc/iibmalloc.h:621-631 | A new block adds exactly its region |
| CollectionInPagesClass.CollectionInPages.CreateNew | src/iibmalloc/iibmalloc.h:102-127 | The first free item becomes the newest in use and the rest stays free; without a free item exactly one page is added, its first slot is the item and its other slots, in order, the free ones; used and free items stay a partition of all slots of all pages |
| CollectionInPagesClass.CollectionInPages.DoForEach | src/iibmalloc/iibmalloc.h:128-137 | Every item in use is visited once, newest first |
| CollectionInPagesClass.CollectionInPages.CollectPageStarts | src/iibmalloc/iibmalloc.h:78-93 | Rewriting links while walking moves exactly the page starts of the list over, reversed, and leaves other links alone |
| CollectionInPagesClass.CollectionInPages.Deinitialize | src/iibmalloc/iibmalloc.h:138-153 | Every page goes back exactly once and `pageCnt` reaches 0; afterwards no page is left for a second call |
| CollectionInPagesClass.AlignedSlotIsPage | src/iibmalloc/iibmalloc.h:83-83 | Only the first slot of a page is page aligned |
| CollectionInPagesClass.EveryPageOnce | src/iibmalloc/iibmalloc.h:140-142 | The page starts on the two lists are the pages, each once |
| CollectionInPagesClass.PageStartsIn | src/iibmalloc/iibmalloc.h:78-93 | The collected nodes are exactly the aligned ones, without repetition |
| BlockList.MemoryBlockListItem.ListInsertNext | src/iibmalloc/page_allocator.h:101-110 | Insertion behind any node keeps the ring |
| BlockList.MemoryBlockListItem.RemoveFromList | src/iibmalloc/page_allocator.h:134-145 | Removal of any node keeps the ring |
| BlockList.MemoryBlockList.PushFront | src/iibmalloc/page_allocator.h:183-187 | The block becomes the front; `count` stays the length |
| BlockList.MemoryBlockList.PopFront | src/iibmalloc/page_allocator.h:190-199 | The front is removed and is in no list any more |
| BlockList.MemoryBlockList.PopBack | src/iibmalloc/page_allocator.h:202-211 | The back is removed |
| BlockList.MemoryBlockList.Remove | src/iibmalloc/page_allocator.h:214-218 | A block anywhere in the list is removed |
| PageCache.PageAllocatorWithCaching.GetFreeBlock | src/iibmalloc/page_allocator.h:392-425 | A block nobody holds, of the size asked for: the front of the cache of that size if there is one, the rest of which stays, else a new region; the other caches are as they were, and places and the byte balance are kept |
| PageCache.PageAllocatorWithCaching.FreeChunk | src/iibmalloc/page_allocator.h:445-474 | In front of the cache of its size while there is room (32 or 4), otherwise back to the operating system; nothing else moves |
| PageCache.PageAllocatorWithCaching.Deinitialize | src/iibmalloc/page_allocator.h:376-390 | Every cache is emptied and its regions returned; what clients hold stays theirs |
| PageCache.PageAllocatorWithCaching.BalanceSplits | src/iibmalloc/page_allocator.h:223-274 | `sysAllocSize - sysDeallocSize` equals the bytes clients hold plus the bytes cached, and the cached blocks are exactly those on the lists |
| PageCache.CacheIxExact | src/iibmalloc/page_allocator.h:398-398 | A cache index stands for exactly one size; in 64-bit arithmetic size 0 belongs to no cache |
| PageCache.PageAllocatorWithCaching.CachesDisjoint | src/iibmalloc/page_allocator.h:359-359 | Different caches share no block |
| AllocatorTester.RandomPosRandomSize | src/allocator_tester.h:247-440 | In check mode, for any allocator that gives disjoint blocks, any generator and any choice of slots: no check fails; setup, the rounds made, the blocks allocated and the checks are exactly those the random numbers stand for, with every block left at the end checked too; every block is given back, blocks live before keep their bytes, and the sizes reported are those the allocator saw outstanding: after the setup, and the largest after an allocation of the main loop; size exponents of 32 and more are rejected |
| TesterOnHeap.RunServesTester | src/iibmalloc/iibmalloc.h:1111-1195 | In every run the heap is an allocator the tester can rely on: blocks at new non-null addresses, disjoint, and no byte of a live block changed by the words and headers a call writes |
| AllocatorTester.Round | src/allocator_tester.h:337-396 | One round checks and frees the block of the slot if it is in use, and otherwise fills it with a block of the size of the next random number; other slots stay; `allocatedSz` stays the bytes outstanding |
| AllocatorTester.MainLoop | src/allocator_tester.h:332-403 | Exactly 32 * (iterCount / 32) rounds, on the slots that the random numbers stand for, ending in the state the simulation ends in; the maximum is that of the bytes outstanding after each of its allocations, as the allocator counts them |
| AllocatorTester.MostOutstanding | src/allocator_tester.h:391-394 | The maximum bounds all of these totals and is one of them, or 0 if there is none |
| AllocatorTester.Setup | src/allocator_tester.h:295-324 | One word for every 32 slots; a slot is filled if and only if its bit is set, with a size that its 32-bit field holds, and what is allocated is counted |
| AllocatorTester.CheckAndFree | src/allocator_tester.h:342-367 | The check fails if and only if the block does not hold its data; if it succeeds the block is given back, and otherwise nothing is |
| AllocatorTester.FreeAll | src/allocator_tester.h:405-432 | The exit loop checks and gives back every block that is left, in slot order |
| TesterModel.Parity | src/allocator_tester.h:332-396 | After any rounds a slot is in use if and only if its use before differs by the parity of how often it was picked; a slot not picked is as it was |
| TesterModel.SizeDrawn | src/allocator_tester.h:372-374 | A slot in use has the size of the random number of the last round that picked it |
| TesterModel.Counts | src/allocator_tester.h:332-396 | Every round fills or checks one block; the number a block gets counts the blocks filled, modulo 2^32 |
| TesterModel.SetupFills | src/allocator_tester.h:295-324 | After setup a slot is in use if and only if its bit was set, and the slots behind the last whole 32 are free |
| TesterModel.HeldIsSum | src/allocator_tester.h:332-396 | The bytes counted are always those of the blocks in the slots, on top of what was there before |
| TesterModel.AllChecked | src/allocator_tester.h:295-432 | In a whole run every block filled is checked exactly once |
| TesterModel.OwnGenerator | src/allocator_tester.h:293-396 | With the tester's own generator and its seed of 0, setup allocates nothing and every round picks the same slot: odd rounds allocate 5 bytes, even rounds give them back |
| AllocatorTester.OwnOutcome | src/allocator_tester.h:293-403 | So the tester as written reports the size of its table after setup, and that plus 5 as the maximum if it makes a round |
| AllocatorTester.TableKept | src/allocator_tester.h:277-282 | Slots keep their data whatever happens outside their blocks |
| AllocatorTester.BaseIsLess | src/allocator_tester.h:364-366 | The subtraction from `allocatedSz` does not go below zero |
| SegmentCheck.FillSegmentWithRandomData | src/allocator_tester.h:206-221 | Afterwards every byte of the segment is the one its generator gives, and nothing outside has changed |
| SegmentCheck.CheckSegment | src/allocator_tester.h:222-245 | The check fails if and only if some byte is not what was filled in; every check made is recorded |
| SegmentCheck.WordOfExact | src/allocator_tester.h:225-230 | Comparing 32-bit words is comparing their bytes |
| SegmentCheck.DefaultSeedYieldsZeros | src/allocator_tester.h:57-93 | A generator with the default seed 0 returns nothing but zeros |
| RandomSize.SizeInRange | src/allocator_tester.h:102-122 | Sizes lie between 5 and 2^maxSizeExp, and the assert on the class holds |
| RandomSize.SizeFits32 | src/allocator_tester.h:304-304 | The cast of a size to 32 bits loses nothing for exponents below 32 |
| RandomSize.EverySizeComesUp | src/allocator_tester.h:102-122 | Every size in that range comes up for some 64-bit random number |
| RandomSize.SizeExactly | src/allocator_tester.h:102-122 | Exactly which random numbers give a size: the class is the number of low zero bits, the place in it the bits above |
| VirtualMemoryModel.VirtualMemory.Allocate | src/iibmalloc/page_allocator.h:56-74 | The assumption on the operating system: a new region, page aligned, not null, apart from all others |
| VirtualMemoryModel.VirtualMemory.CommitMemory | src/iibmalloc/page_allocator_linux.cpp:129-143 | Committing puts zero pages in place of whatever was there, so it may be called only on mapped pages none of which was committed before |

## Left out

- Failure of the operating system: `mmap` and its relatives are assumed to succeed (`VirtualMemory`); the `bad_alloc` paths are not modelled.
- Addresses are natural numbers: nothing wraps past 2^64, in particular not `sz + memStart` for sizes near 2^64 (src/iibmalloc/iibmalloc.h:1094). The allocators use the page count on integers, which is that of the words up to 2^63 (`BulkSpec.PageCount64Exact`).
- Memory is typed: words of items, chunk headers with the two words behind them, collection links and bytes of the tester's blocks are separate maps. That they do not overlap in one address space is what the disjointness theorems say; the rest of a client's bytes is not represented in the heap model; `TesterOnHeap` lays words and headers over bytes.
- BulkAllocatorClass.BulkAllocator.Allocate: the recorded blocks are a sequence; that `CollectionInPages` keeps such a sequence is proved on its own, and the pages it takes are not among the regions of the bulk allocator.
- PageAllocatorClass.SoundingAddressPageAllocator.GetPage: descriptors are objects; the pages of the collection they live in are not among the reservations. Cursors are natural numbers, and the 16-bit bound of the static assert is part of `Geometry.Valid`.
- BulkRuns.RunIsSafe: clients write only the first two words behind a chunk header, the only ones a free chunk uses.
- PageCache.PageAllocatorWithCaching.GetFreeBlock: a request of size 0 reaches the operating system, which refuses it, and is left out; counters do not wrap. `getFreeBlockNoCache` and `freeChunkNoCache` do not touch the caches and would add only easy members.
- AllocatorTester.RandomPosRandomSize: modes `none`, `single` and `full` only read or write single bytes and are left out; the slot is any function of two random numbers with values below `maxItems`, which covers `Pareto_80_20_6_Rand` where its range is not empty (it divides by zero where it is); the generator is any deterministic one, from seed 0. The table of slots is an array, not bytes of the block allocated for it.
- SegmentCheck.FillSegmentWithRandomData: stated for any deterministic generator; the xorshift generator of the source is one of them.
- `BlockStats` for `SoundingAddressPageAllocator`: reservations are not registered as system allocations but their release is, so no balance holds.
- Timing, resident set size, printing, threads and `main`: measurement and input/output. The allocator is thread-local.
- `USE_ITEM_HEADER`, the branches without sounding addresses, the plain exponent scheme, `PageAllocator`, `PageAllocatorNoCachingForTestPurposes` and the void and new/delete wrappers: compiled out, test-only or easy.
- The "test write" increments on fresh pages stand for the requirement that a page is committed before it is handed out.
