/** The SerializableAllocatorBase class (src/iibmalloc/iibmalloc.h:770-1240) over its two page
    allocators, proved to take exactly the steps of HeapSpec and to keep what it promises. */
module SerializableAllocatorClass {
  import opened Arith
  import opened Lists
  import opened SizeClasses
  import opened FreeItems
  import opened PageAddress
  import opened VirtualMemoryModel
  import opened Regions
  import opened HeapSpec
  import opened HeapItems
  import opened HeapSteps
  import opened HeapBulk
  import opened HeapEffects
  import opened HeapRuns
  import opened PageAllocatorClass
  import opened BulkAllocatorClass
  import B = BulkSpec
  import BulkSteps
  import P = PagerSpec
  import M = Multipage

  class SerializableAllocator {
    const c: Config
    const os: VirtualMemory
    const buckets: array<nat>
    const pageAllocator: SoundingAddressPageAllocator
    const bulkAllocator: BulkAllocator
    /** The words of memory that link the items of the bucket lists. */
    var link: map<nat, nat>
    /** What the clients hold, and the proof's bookkeeping. */
    ghost var small: map<nat, nat>
    ghost var home: map<nat, Segment>
    ghost var free: seq<seq<nat>>

    ghost function State(): Heap
      reads this`link, buckets, pageAllocator`view, bulkAllocator`mem, bulkAllocator`blocks, bulkAllocator.freeListBegin
    {
      Heap(buckets[..], link, pageAllocator.view, bulkAllocator.State())
    }

    ghost function Held(): Client
      reads this`small, bulkAllocator`ledger
    {
      Client(small, bulkAllocator.ledger)
    }

    ghost function Records(): Book
      reads this`home, this`free, bulkAllocator`book
    {
      Book(home, free, bulkAllocator.book)
    }

    /** Everything got from the operating system. */
    ghost function Owned(): set<Region>
      reads pageAllocator`view, bulkAllocator`blocks, bulkAllocator`ledger
    {
      pageAllocator.Owned() + bulkAllocator.Owned()
    }

    /** The parts agree on the parameters and share one operating system. */
    ghost predicate Wired() {
      && pageAllocator.g == c.g && bulkAllocator.p == c.p && bulkAllocator.repaired == c.repaired
      && pageAllocator.os == os && bulkAllocator.os == os
      && buckets != bulkAllocator.freeListBegin
    }

    ghost predicate Parts()
      reads pageAllocator, pageAllocator.nodes, bulkAllocator, bulkAllocator.freeListBegin, os
    {
      && Wired()
      && pageAllocator.Valid() && bulkAllocator.Valid()
      && pageAllocator.Owned() !! bulkAllocator.Owned()
    }

    ghost predicate Valid()
      reads this, buckets, pageAllocator, pageAllocator.nodes, bulkAllocator, bulkAllocator.freeListBegin, os
    {
      && Parts()
      && Inv(c, State(), Held(), Records())
    }

    /** initialize (lines 1209-1214) */
    constructor (c: Config, os: VirtualMemory)
      requires c.Valid() && os.Valid()
      ensures Valid() && this.c == c && this.os == os
      ensures State() == Initial(c) && Held() == Client(map[], B.Ledger(map[], map[]))
    {
      hide B.Inv, HeapSpec.Inv, SoundingAddressPageAllocator.Valid, OthersCommitted, RegionsOf;
      var pages := new SoundingAddressPageAllocator(c.g, os);
      label PagesReady:
      var bulk := new BulkAllocator(c.p, c.repaired, os);
      pages.StillValid@PagesReady();
      this.c, this.os, pageAllocator, bulkAllocator := c, os, pages, bulk;
      buckets := new nat[c.g.BucketCnt()](_ => 0);
      link, small, home, free := map[], map[], map[], seq(c.g.BucketCnt(), i => []);
      new;
      IsInitial(c, buckets[..], bulkAllocator.State());
      InitiallyValid();
    }

    lemma InitiallyValid()
      requires c.Valid() && Parts() && State() == Initial(c) && small == map[] && home == map[]
      requires free == seq(c.g.BucketCnt(), i => []) && bulkAllocator.ledger == B.Ledger(map[], map[])
      requires bulkAllocator.book == B.Book(map[], seq(c.p.maxPages + 1, i => []))
      ensures Valid()
    {
      InitialInv(c);
    }

    /** The loop of formatAllocatedPageAlignedBlock for a bucket size that is a multiple of 32
        (lines 991-999): no item lies at the forbidden offset. */
    method ThreadAll(block: nat, blockSz: nat, bucketSz: nat)
      requires bucketSz > 0 && bucketSz % 32 == 0 && bucketSz <= blockSz && block % PAGE_SIZE == 0
      modifies this`link
      ensures link == Threaded(old(link), Items(block, blockSz, bucketSz), 0)
    {
      hide Forbidden;
      ghost var link0 := link;
      var itemCnt := ItemCnt(blockSz, bucketSz);
      var i: nat := 0;
      ghost var m: nat := 0;
      while i < (itemCnt - 1) * bucketSz
        invariant m <= itemCnt - 1 && i == m * bucketSz
        invariant link == Threaded(link0, ItemsFrom(block, bucketSz, 0, m), block + i)
        decreases itemCnt - m
      {
        StepsLeft(m, itemCnt - 1, bucketSz);
        NoneForbidden(bucketSz, m);
        NoneForbidden(bucketSz, m + 1);
        assert !Forbidden(i + bucketSz);
        ThreadNext(link0, block, bucketSz, m, block + i + bucketSz);
        link := link[block + i := block + i + bucketSz];
        i := i + bucketSz;
        m := m + 1;
      }
      StepsLeft(m, itemCnt - 1, bucketSz);
      NoneForbidden(bucketSz, m);
      ThreadNext(link0, block, bucketSz, m, 0);
      link := link[block + (itemCnt - 1) * bucketSz := 0];
    }

    /** The loop for the other bucket sizes (lines 1008-1022): an item at the forbidden offset is left
        out. It is never the last one. */
    method ThreadAllowed(block: nat, blockSz: nat, bucketSz: nat)
      requires Formattable(bucketSz) && bucketSz % 32 != 0 && bucketSz <= blockSz && block % PAGE_SIZE == 0
      requires blockSz % PAGE_SIZE == 0
      modifies this`link
      ensures link == Threaded(old(link), Items(block, blockSz, bucketSz), 0)
    {
      assert !Forbidden(0) && link == Threaded(link, ItemsFrom(block, bucketSz, 0, 0), block);
      hide Forbidden, Formattable, Threaded, ItemsFrom;
      ghost var link0 := link;
      var itemCnt := ItemCnt(blockSz, bucketSz);
      LastNotForbidden(blockSz, bucketSz);
      var i: nat := 0;
      ghost var m: nat := 0;
      while i < (itemCnt - 1) * bucketSz
        invariant m <= itemCnt - 1 && i == m * bucketSz && !Forbidden(i)
        invariant link == Threaded(link0, ItemsFrom(block, bucketSz, 0, m), block + i)
        decreases itemCnt - m
      {
        StepsLeft(m, itemCnt - 1, bucketSz);
        StepsLeft(m + 1, itemCnt - 1, bucketSz);
        if !Forbidden(i + bucketSz) {
          ThreadNext(link0, block, bucketSz, m, block + i + bucketSz);
          link := link[block + i := block + i + bucketSz];
        } else {
          assert m + 1 != itemCnt - 1;
          ThreadOver(link0, block, bucketSz, m);
          link := link[block + i := block + i + bucketSz + bucketSz];
          i := i + bucketSz;
          m := m + 1;
        }
        i := i + bucketSz;
        m := m + 1;
      }
      StepsLeft(m, itemCnt - 1, bucketSz);
      ThreadNext(link0, block, bucketSz, m, 0);
      link := link[block + (itemCnt - 1) * bucketSz := 0];
    }

    /** formatAllocatedPageAlignedBlock (lines 982-1029): thread the items of the block, in address
        order, into the list of the bucket. */
    method FormatAllocatedPageAlignedBlock(block: nat, blockSz: nat, bucketSz: nat, bucketidx: nat) returns (done: bool)
      requires Formattable(bucketSz) && bucketidx < buckets.Length
      requires block % PAGE_SIZE == 0 && blockSz % PAGE_SIZE == 0
      modifies this`link, buckets
      ensures done == (block != 0 && ItemCnt(blockSz, bucketSz) > 0)
      ensures link == if done then Threaded(old(link), Items(block, blockSz, bucketSz), 0) else old(link)
      ensures buckets[..] == if done then old(buckets[..])[bucketidx := block] else old(buckets[..])
    {
      if block == 0 {
        return false;
      }
      var itemCnt := ItemCnt(blockSz, bucketSz);
      if itemCnt == 0 {
        return false;
      }
      if bucketSz % (2 * MEM_FORBIDDEN) == 0 {
        ThreadAll(block, blockSz, bucketSz);
      } else {
        ThreadAllowed(block, blockSz, bucketSz);
      }
      buckets[bucketidx] := block;
      return true;
    }

    method TakeGroup(szidx: nat) returns (mpData: M.MultipageData, ghost osPage: nat)
      requires Parts() && szidx < c.g.BucketCnt() && M.Grouped(c.g, pageAllocator.view)
      modifies pageAllocator, pageAllocator.nodes, os
      ensures Parts() && fresh(pageAllocator.nodes - old(pageAllocator.nodes))
      ensures P.NeedsReservation(c.g, old(pageAllocator.view), szidx) ==>
                FreshRegionAt(old(os.regions), osPage, c.g.ReservationSize())
      ensures (pageAllocator.view, mpData) == M.GetMultipage(c.g, old(pageAllocator.view), szidx, osPage)
      ensures AlignedRuns(mpData)
    {
      ghost var pages, regions, owned := pageAllocator.view, os.regions, pageAllocator.Owned();
      mpData, osPage := pageAllocator.GetMultipage(szidx);
      SegmentsAligned(c.g, pages, szidx, osPage);
      OthersStay(regions, owned, os.regions, pageAllocator.Owned(), bulkAllocator.Owned());
      bulkAllocator.StillValid();
    }

    /** Thread both segments of a group (lines 1050-1051 of allocateInCaseNoFreeBucket). */
    method FormatBoth(mpData: M.MultipageData, bucketSz: nat, szidx: nat)
      requires szidx < buckets.Length && Formattable(bucketSz) && buckets != bulkAllocator.freeListBegin
      requires AlignedRuns(mpData)
      modifies this`link, buckets
      ensures var h1 := Format(old(State()), mpData.ptr1, mpData.sz1, bucketSz, szidx);
              State() == Format(h1, mpData.ptr2, mpData.sz2, bucketSz, szidx)
    {
      var done := FormatAllocatedPageAlignedBlock(mpData.ptr1, mpData.sz1, bucketSz, szidx);
      done := FormatAllocatedPageAlignedBlock(mpData.ptr2, mpData.sz2, bucketSz, szidx);
    }

    method FormatNewPages(szidx: nat) returns (ghost osPage: nat)
      requires Parts() && szidx <= LAST_BUCKET && Shaped(c, State()) && M.Grouped(c.g, pageAllocator.view)
      modifies this`link, buckets, pageAllocator, pageAllocator.nodes, os
      ensures Parts() && fresh(pageAllocator.nodes - old(pageAllocator.nodes))
      ensures BucketSize(szidx) > 0
      ensures P.NeedsReservation(c.g, old(pageAllocator.view), szidx) ==>
                FreshRegionAt(old(os.regions), osPage, c.g.ReservationSize())
      ensures State() == HeapSpec.Refill(c, old(State()), szidx, osPage)
    {
      hide B.Inv, SoundingAddressPageAllocator.Valid;
      BucketSizeFacts(szidx);
      var mpData;
      mpData, osPage := TakeGroup(szidx);
      FormatBoth(mpData, BucketSize(szidx), szidx);
    }

    /** Take the head off a list (lines 1052-1053 and 1127-1128). */
    method Pop(szidx: nat) returns (ret: nat)
      requires szidx < buckets.Length && buckets[szidx] in link && buckets != bulkAllocator.freeListBegin
      modifies buckets
      ensures old(State()).buckets[szidx] in old(State()).link
      ensures (State(), ret) == HeapSpec.Pop(old(State()), szidx)
    {
      ret := buckets[szidx];
      buckets[szidx] := link[buckets[szidx]];
    }

    /** allocateInCaseNoFreeBucket (lines 1031-1054) */
    method AllocateInCaseNoFreeBucket(szidx: nat) returns (ret: nat, ghost osPage: nat)
      requires Valid() && szidx <= LAST_BUCKET && buckets[szidx] == 0
      modifies this`link, buckets, pageAllocator, pageAllocator.nodes, os
      ensures Parts() && fresh(pageAllocator.nodes - old(pageAllocator.nodes))
      ensures BucketSize(szidx) > 0
      ensures P.NeedsReservation(c.g, old(State()).pages, szidx) ==>
                FreshRegionAt(AllRegions(c, old(State()), old(Held()).ledger), osPage, c.g.ReservationSize())
      ensures var h := HeapSpec.Refill(c, old(State()), szidx, osPage);
              h.buckets[szidx] in h.link && (State(), ret) == HeapSpec.Pop(h, szidx)
      ensures RefilledAndTaken(c, old(State()), szidx, osPage, State(), ret)
    {
      hide B.Inv, Format, HeapSpec.Refill, P.Inv, RefilledAndTaken;
      ghost var h, cl, b := State(), Held(), Records();
      osPage := FormatNewPages(szidx);
      RefillThenPop(c, h, cl, b, szidx, osPage);
      ret := Pop(szidx);
    }

    /** allocate for a size that has a bucket (lines 1113-1138) */
    method AllocateItem(sz: nat) returns (ret: nat, ghost osPage: nat)
      requires Valid() && sz <= MAX_BUCKET_SIZE
      modifies this`link, buckets, pageAllocator, pageAllocator.nodes, os
      ensures Parts() && fresh(pageAllocator.nodes - old(pageAllocator.nodes))
      ensures OsGrants(c, old(State()), old(Held()).ledger, sz, osPage, 0)
      ensures CanAllocate(c, old(State()), sz, osPage, 0)
      ensures (State(), ret) == HeapSpec.Allocate(c, old(State()), sz, osPage, 0)
    {
      hide B.Inv, SoundingAddressPageAllocator.Valid;
      BucketForRequest(sz);
      var szidx: nat := SizeToIndexHalfExp(sz);
      BucketSizeFacts(szidx);
      assert szidx < buckets.Length;
      if buckets[szidx] != 0 {
        osPage := 0;
        PopLists(link, buckets[..], free, szidx);
        ret := Pop(szidx);
      } else {
        ret, osPage := AllocateInCaseNoFreeBucket(szidx);
      }
    }

    /** A call of the bulk allocator leaves the other parts. */
    twostate lemma PartsAfterBulk()
      requires old(Parts()) && bulkAllocator.Valid()
      requires unchanged(pageAllocator) && unchanged(pageAllocator.nodes)
      requires OthersCommitted(old(os.regions), os.regions, old(os.committed), os.committed)
      requires os.regions - bulkAllocator.Owned() == old(os.regions - bulkAllocator.Owned())
      ensures Parts()
    {
      OthersStay(old(os.regions), old(bulkAllocator.Owned()), os.regions, bulkAllocator.Owned(), pageAllocator.Owned());
      pageAllocator.StillValid();
    }

    method BulkAllocate(sz: nat) returns (block: nat, ghost osBulk: nat)
      requires Parts()
      modifies bulkAllocator, bulkAllocator.freeListBegin, os`regions
      ensures Parts()
      ensures var pc := BulkPages(sz);
              && var r := BulkRegion(c, pc, osBulk);
              && FreshRegionAt(old(os.regions), r.start, r.size) && B.CanAllocate(c.p, old(bulkAllocator.State()), pc)
              && (bulkAllocator.State(), block) == B.Allocate(c.p, c.repaired, old(bulkAllocator.State()), pc, osBulk)
              && bulkAllocator.ledger == BulkSteps.Granted(c.p, old(bulkAllocator.ledger), block, pc)
    {
      hide B.Inv, SoundingAddressPageAllocator.Valid;
      block, osBulk := bulkAllocator.Allocate(sz + MEM_FORBIDDEN);
      PartsAfterBulk();
    }

    method BulkDeallocate(block: nat)
      requires Parts() && (block in bulkAllocator.ledger.live || block in bulkAllocator.ledger.large)
      requires Harmless(c, bulkAllocator.State(), bulkAllocator.ledger, block)
      modifies bulkAllocator, bulkAllocator.freeListBegin, os`regions, os`committed
      ensures Parts()
      ensures block in old(bulkAllocator.State()).hdr && |old(bulkAllocator.State()).heads| == c.p.maxPages + 1
      ensures bulkAllocator.State() == B.Deallocate(c.p, c.repaired, old(bulkAllocator.State()), block)
      ensures bulkAllocator.ledger == Without(old(bulkAllocator.ledger), block)
    {
      hide B.Inv, SoundingAddressPageAllocator.Valid;
      bulkAllocator.Deallocate(block);
      PartsAfterBulk();
    }

    /** allocateInCaseTooLargeForBucket (lines 1082-1109) */
    method AllocateInCaseTooLargeForBucket(sz: nat) returns (ret: nat, ghost osBulk: nat)
      requires Parts() && sz > MAX_BUCKET_SIZE
      modifies bulkAllocator, bulkAllocator.freeListBegin, os`regions
      ensures Parts()
      ensures OsGrants(c, old(State()), old(Held()).ledger, sz, 0, osBulk)
      ensures CanAllocate(c, old(State()), sz, 0, osBulk)
      ensures (State(), ret) == HeapSpec.Allocate(c, old(State()), sz, 0, osBulk)
      ensures Held() == Granted(c, old(Held()), sz, ret)
    {
      var block;
      block, osBulk := BulkAllocate(sz);
      ret := block + MEM_FORBIDDEN;
    }

    /** The two sides of allocate. */
    method Take(sz: nat) returns (ret: nat, ghost osPage: nat, ghost osBulk: nat)
      requires Valid()
      modifies this`link, buckets, pageAllocator, pageAllocator.nodes, bulkAllocator, bulkAllocator.freeListBegin, os
      ensures Parts() && fresh(pageAllocator.nodes - old(pageAllocator.nodes))
      ensures OsGrants(c, old(State()), old(Held()).ledger, sz, osPage, osBulk)
      ensures CanAllocate(c, old(State()), sz, osPage, osBulk)
      ensures (State(), ret) == HeapSpec.Allocate(c, old(State()), sz, osPage, osBulk)
      ensures bulkAllocator.ledger == Granted(c, old(Held()), sz, ret).ledger
    {
      hide B.Inv, SoundingAddressPageAllocator.Valid;
      osPage, osBulk := 0, 0;
      if sz <= MAX_BUCKET_SIZE {
        ret, osPage := AllocateItem(sz);
      } else {
        ret, osBulk := AllocateInCaseTooLargeForBucket(sz);
      }
    }

    /** Record a step in the bookkeeping. */
    ghost method Adopt(cl: Client, b: Book)
      requires Parts() && Inv(c, State(), cl, b) && cl.ledger == bulkAllocator.ledger
      modifies this`small, this`home, this`free
      ensures Valid() && Held() == cl
    {
      hide B.Inv, HeapSpec.Inv;
      ghost var h := State();
      SwapBulkBook(c, h, cl, b, bulkAllocator.book);
      small, home, free := cl.small, b.home, b.free;
      pageAllocator.StillValid();
      bulkAllocator.StillValid();
      assert State() == h && Held() == cl && Records() == b.(bulk := bulkAllocator.book);
    }

    /** allocate (lines 1111-1143): an address nobody holds, not null, with at least sz bytes that are
        apart from everything held, all of which keeps its contents. */
    method Allocate(sz: nat) returns (ret: nat, ghost osPage: nat, ghost osBulk: nat)
      requires Valid()
      modifies this, buckets, pageAllocator, pageAllocator.nodes, bulkAllocator, bulkAllocator.freeListBegin, os
      ensures Valid() && fresh(pageAllocator.nodes - old(pageAllocator.nodes))
      ensures CanAllocate(c, old(State()), sz, osPage, osBulk)
      ensures (State(), ret) == HeapSpec.Allocate(c, old(State()), sz, osPage, osBulk)
      ensures Held() == Granted(c, old(Held()), sz, ret)
      ensures AllocateDoes(c, old(State()), sz, osPage, osBulk, State(), ret)
      ensures ret != 0 && !Holds(old(Held()), ret) && Holds(Held(), ret) && sz <= Owns(Held(), ret)
      ensures sz > MAX_BUCKET_SIZE ==> Owns(Held(), ret) < sz + PAGE_SIZE
      ensures sz <= MAX_BUCKET_SIZE ==>
                forall j: nat :: j <= LAST_BUCKET && sz <= BucketSize(j) ==> Owns(Held(), ret) <= BucketSize(j)
      ensures forall x :: Holds(old(Held()), x) ==>
                Holds(Held(), x) && ApartBytes(x, Owns(Held(), x), ret, Owns(Held(), ret))
      ensures Kept(old(State()), State(), old(Held()))
    {
      hide B.Inv, HeapSpec.Inv, Parts;
      ghost var h, cl, b := State(), Held(), Records();
      ret, osPage, osBulk := Take(sz);
      ghost var b' := AllocateKeeps(c, h, cl, b, sz, osPage, osBulk);
      Adopt(Granted(c, cl, sz, ret), b');
      GrantApart(c, State(), cl, Records(), sz, ret);
    }

    /** deallocate of an item (lines 1167-1172) */
    method DeallocateItem(ptr: nat)
      requires Parts() && ptr != 0 && !GoesToBulk(ptr) && AddressToIdx(c.g, ptr) < buckets.Length
      modifies this`link, buckets
      ensures Parts()
      ensures CanDeallocate(c, old(State()), ptr)
      ensures State() == HeapSpec.Deallocate(c, old(State()), ptr)
    {
      var idx := AddressToIdx(c.g, ptr);
      link := link[ptr := buckets[idx]];
      buckets[idx] := ptr;
    }

    /** deallocate of anything else (lines 1173-1183) */
    method DeallocateChunk(ptr: nat)
      requires Parts() && Holds(Held(), ptr) && ptr !in small
      requires GoesToBulk(ptr) && PtrToPageStart(ptr) == ptr - MEM_FORBIDDEN
      requires Harmless(c, State().bulk, Held().ledger, ptr - MEM_FORBIDDEN)
      modifies bulkAllocator, bulkAllocator.freeListBegin, os`regions, os`committed
      ensures Parts()
      ensures CanDeallocate(c, old(State()), ptr)
      ensures State() == HeapSpec.Deallocate(c, old(State()), ptr)
      ensures Held() == Returned(old(Held()), ptr)
    {
      hide B.Inv, SoundingAddressPageAllocator.Valid;
      var pageStart: nat := PtrToPageStart(ptr);
      BulkDeallocate(pageStart);
    }

    /** deallocate (lines 1145-1195): null is ignored; what is still held keeps its contents. */
    method Deallocate(ptr: nat)
      requires Valid() && (ptr == 0 || Holds(Held(), ptr))
      requires ptr != 0 && ptr !in small ==> Harmless(c, State().bulk, Held().ledger, ptr - MEM_FORBIDDEN)
      modifies this, buckets, bulkAllocator, bulkAllocator.freeListBegin, os`regions, os`committed
      ensures Valid()
      ensures CanDeallocate(c, old(State()), ptr)
      ensures State() == HeapSpec.Deallocate(c, old(State()), ptr)
      ensures Held() == if ptr == 0 then old(Held()) else Returned(old(Held()), ptr)
      ensures DeallocateDoes(c, old(State()), old(Held()), ptr, State())
      ensures Kept(old(State()), State(), Held())
    {
      hide B.Inv, Parts, Kept, HeapSpec.Inv;
      ghost var h, cl, b := State(), Held(), Records();
      if ptr == 0 {
        ItemStepKept(c, h, h, cl, cl, b);
        return;
      }
      GiveBack(ptr);
      ghost var b' := DeallocateKeeps(c, h, cl, b, ptr);
      Adopt(Returned(cl, ptr), b');
    }

    /** The two sides of deallocate. */
    method GiveBack(ptr: nat)
      requires Valid() && Holds(Held(), ptr)
      requires ptr !in small ==> Harmless(c, State().bulk, Held().ledger, ptr - MEM_FORBIDDEN)
      modifies this`link, buckets, bulkAllocator, bulkAllocator.freeListBegin, os`regions, os`committed
      ensures Parts()
      ensures CanDeallocate(c, old(State()), ptr)
      ensures State() == HeapSpec.Deallocate(c, old(State()), ptr)
      ensures bulkAllocator.ledger == Returned(old(Held()), ptr).ledger
    {
      hide B.Inv, Parts, P.Inv, FreeOk;
      RoutingExact(c, State(), Held(), Records(), ptr);
      if GetOffsetInPage(ptr) != MEM_FORBIDDEN {
        DeallocateItem(ptr);
      } else {
        DeallocateChunk(ptr);
      }
    }

    /** deinitialize (lines 1216-1230): the reservations and the blocks go back to the operating
        system, each once; large chunks that are still held do not, and the heads of the bucket lists
        are left as they are. */
    method Deinitialize()
      requires Valid()
      modifies pageAllocator, pageAllocator.pageBlockListStart, bulkAllocator, bulkAllocator.freeListBegin
      modifies os`regions, os`committed
      ensures Parts() && Empty()
      ensures os.regions
           == old(os.regions) - old(pageAllocator.Owned()) - RegionsOf(c.p, old(bulkAllocator.blocks), map[])
      ensures bulkAllocator.ledger.large == old(Held()).ledger.large
      ensures LargeRegions(old(Held()).ledger.large) <= os.regions
      ensures buckets[..] == old(buckets[..]) && link == old(link)
    {
      hide B.Inv, SoundingAddressPageAllocator.Valid;
      ghost var regions, owned := os.regions, pageAllocator.Owned();
      pageAllocator.Deinitialize();
      OthersStay(regions, owned, os.regions, pageAllocator.Owned(), bulkAllocator.Owned());
      bulkAllocator.StillValid();
      label PagesGone:
      bulkAllocator.Deinitialize();
      pageAllocator.StillValid@PagesGone();
    }

    /** Nothing is reserved, no block is recorded and no chunk of a block is held. */
    ghost predicate Empty()
      reads pageAllocator`view, bulkAllocator`blocks, bulkAllocator`ledger, buckets
    {
      && c.Valid() && buckets.Length == c.g.BucketCnt()
      && pageAllocator.view == P.Initial(c.g) && bulkAllocator.blocks == [] && bulkAllocator.ledger.live == map[]
    }

    /** initialize after deinitialize (lines 1209-1214): the bucket heads are cleared, and the allocator is
        ready again; large chunks that were still held still are. */
    method Initialize()
      requires Parts() && Empty()
      modifies this, buckets
      ensures Valid() && buckets[..] == Initial(c).buckets
      ensures Held() == Client(map[], B.Ledger(map[], bulkAllocator.ledger.large))
    {
      hide B.Inv, P.Inv, HeapSpec.Inv, SoundingAddressPageAllocator.Valid;
      forall i | 0 <= i < buckets.Length { buckets[i] := 0; }
      small, home, free := map[], map[], seq(c.g.BucketCnt(), i => []);
      assert buckets[..] == Initial(c).buckets;
      RestartInv(c, State(), Held(), Records());
    }
  }

  /** Empty buckets and pages in front of any consistent bulk allocator. */
  lemma RestartInv(c: Config, h: Heap, cl: Client, b: Book)
    requires c.Valid() && h.buckets == Initial(c).buckets && h.pages == P.Initial(c.g)
    requires B.Inv(c.p, c.repaired, h.bulk, cl.ledger, b.bulk)
    requires cl.small == map[] && b.home == map[] && b.free == seq(c.g.BucketCnt(), i => [])
    ensures Inv(c, h, cl, b)
  {
    P.InitialInv(c.g);
    M.InitialGrouped(c.g);
    forall i | 0 <= i < |h.buckets| ensures ListOk(h.link, h.buckets[i], b.free[i]) {}
  }

  lemma IsInitial(c: Config, buckets: seq<nat>, bulk: B.Bulk)
    requires |buckets| == c.g.BucketCnt() && forall i :: 0 <= i < |buckets| ==> buckets[i] == 0
    requires bulk == B.Bulk(map[], seq(c.p.maxPages + 1, i => 0), [])
    ensures Heap(buckets, map[], P.Initial(c.g), bulk) == Initial(c)
  {}

  lemma GrantApart(c: Config, h: Heap, cl: Client, b: Book, sz: nat, ret: nat)
    requires !Holds(cl, ret) && Holds(Granted(c, cl, sz, ret), ret) && Inv(c, h, Granted(c, cl, sz, ret), b)
    ensures var cl' := Granted(c, cl, sz, ret);
            && sz <= Owns(cl', ret)
            && (sz > MAX_BUCKET_SIZE ==> Owns(cl', ret) < sz + PAGE_SIZE)
            && (sz <= MAX_BUCKET_SIZE ==>
                  forall j: nat :: j <= LAST_BUCKET && sz <= BucketSize(j) ==> Owns(cl', ret) <= BucketSize(j))
            && forall x :: Holds(cl, x) ==> Holds(cl', x) && ApartBytes(x, Owns(cl', x), ret, Owns(cl', ret))
  {
    var cl' := Granted(c, cl, sz, ret);
    GrantFits(c, cl, sz, ret);
    forall x | Holds(cl, x) ensures Holds(cl', x) && ApartBytes(x, Owns(cl', x), ret, Owns(cl', ret)) {
      HeldApart(c, h, cl', b, x, ret);
    }
  }

  /** The bulk allocator's own bookkeeping does as well as any other. */
  lemma SwapBulkBook(c: Config, h: Heap, cl: Client, b: Book, bulk: B.Book)
    requires Inv(c, h, cl, b) && B.Inv(c.p, c.repaired, h.bulk, cl.ledger, bulk)
    ensures Inv(c, h, cl, b.(bulk := bulk))
  {
    assert FreeOk(h.link, h.buckets, b.(bulk := bulk), cl.small);
  }

  /** When one owner's regions change and the rest do not, another owner keeps its regions. */
  lemma OthersStay(regions: set<Region>, owned: set<Region>, regions': set<Region>, owned': set<Region>,
                   other: set<Region>)
    requires regions' - owned' == regions - owned && other <= regions && owned !! other
    ensures other <= regions' && owned' !! other
  {
    assert other <= regions - owned;
  }

  /** The runs of a group are made of whole pages. */
  predicate AlignedRuns(d: M.MultipageData) {
    d.ptr1 % PAGE_SIZE == 0 && d.sz1 % PAGE_SIZE == 0 && d.ptr2 % PAGE_SIZE == 0 && d.sz2 % PAGE_SIZE == 0
  }

  lemma SegmentsAligned(g: Geometry, pages: P.Pager, idx: nat, osPage: nat)
    requires P.Inv(g, pages) && M.Grouped(g, pages) && idx < g.BucketCnt()
    requires P.NeedsReservation(g, pages, idx) ==> P.FreshReservation(g, pages, osPage)
    ensures var d := M.GetMultipage(g, pages, idx, osPage).1;
            AlignedRuns(d)
  {
    M.GetMultipageKeeps(g, pages, idx, osPage);
    assert M.SegmentsOk(M.GetMultipage(g, pages, idx, osPage).1,
                        M.GetPages(g, pages, idx, osPage, g.MultipagePages()).1);
  }

  // ---------------------------------------------------------------------------------------
  // Facts for the loops

  lemma StepsLeft(m: nat, n: int, b: nat)
    requires b > 0
    ensures m * b < n * b <==> m < n
    ensures m + 1 <= n ==> (m + 1) * b == m * b + b
  {
    MulMono(n, m, b);
    MulMono(m + 1, n, b);
    MulDistrib(m, 1, b);
  }

  /** One item more is threaded. */
  lemma ThreadNext(link: map<nat, nat>, block: nat, b: nat, m: nat, tail: nat)
    requires b > 0 && !Forbidden(m * b)
    ensures Threaded(link, ItemsFrom(block, b, 0, m + 1), tail)
         == Threaded(link, ItemsFrom(block, b, 0, m), block + m * b)[block + m * b := tail]
  {
    var l := ItemsFrom(block, b, 0, m);
    ItemsSnoc(block, b, 0, m);
    ItemsFromBounds(block, b, 0, m);
    assert block + m * b !in l;
    ThreadedSnoc(link, l, block + m * b, tail);
  }

  /** The next item is forbidden: the one after it is threaded instead. */
  lemma ThreadOver(link: map<nat, nat>, block: nat, b: nat, m: nat)
    requires Formattable(b) && b % 32 != 0 && !Forbidden(m * b) && Forbidden(m * b + b)
    ensures !Forbidden(m * b + b + b)
    ensures Threaded(link, ItemsFrom(block, b, 0, m + 2), block + m * b + b + b)
         == Threaded(link, ItemsFrom(block, b, 0, m), block + m * b)[block + m * b := block + m * b + b + b]
  {
    StepsLeft(m, m + 1, b);
    ThreadNext(link, block, b, m, block + m * b + b + b);
    ThreadSkip(block, b, m + 1);
    NextAllowed(b, m * b + b);
  }

  /** A forbidden item adds nothing. */
  lemma ThreadSkip(block: nat, b: nat, m: nat)
    requires Forbidden(m * b)
    ensures ItemsFrom(block, b, 0, m + 1) == ItemsFrom(block, b, 0, m)
  {
    ItemsSnoc(block, b, 0, m);
  }
}
