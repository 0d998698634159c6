/** The whole allocator over arbitrary runs (src/iibmalloc/iibmalloc.h:1111-1195). */
module HeapRuns {
  import opened Arith
  import opened Lists
  import opened FreeItems
  import opened PageAddress
  import opened SizeClasses
  import opened VirtualMemoryModel
  import opened HeapSpec
  import opened HeapItems
  import opened HeapSteps
  import opened HeapBulk
  import opened HeapEffects
  import B = BulkSpec
  import BulkSteps
  import BulkTiling
  import BulkFrame
  import BulkRuns
  import P = PagerSpec

  /** deallocate tells from the address alone where it belongs: to the bulk side exactly if it came
      from there, and otherwise to the very bucket it was allocated from. */
  lemma RoutingExact(c: Config, h: Heap, cl: Client, b: Book, ptr: nat)
    requires Inv(c, h, cl, b) && Holds(cl, ptr)
    ensures ptr != 0
    ensures GoesToBulk(ptr) <==> ptr !in cl.small
    ensures ptr in cl.small ==> AddressToIdx(c.g, ptr) == cl.small[ptr] <= LAST_BUCKET
    ensures ptr !in cl.small ==> PtrToPageStart(ptr) == ptr - MEM_FORBIDDEN
  {
    hide B.Inv;
    if ptr in cl.small {
      HomeFacts(c, h, cl, b, ptr);
    } else {
      var r := ChunkRegion(c, h, cl, b, ptr - MEM_FORBIDDEN);
      BulkAddress(ptr - MEM_FORBIDDEN);
    }
  }

  lemma HeldReadable(c: Config, h: Heap, cl: Client, b: Book, x: nat)
    requires Inv(c, h, cl, b) && Holds(cl, x)
    ensures CanDeallocate(c, h, x)
  {
    RoutingExact(c, h, cl, b, x);
    if x !in cl.small {
      var block := x - MEM_FORBIDDEN;
      if block in cl.ledger.live { BulkTiling.InBlock(c.p, h.bulk.hdr, b.bulk.home, block); }
    }
  }

  lemma ItemNotHeld(c: Config, h: Heap, cl: Client, b: Book, ptr: nat)
    requires Inv(c, h, cl, b) && !GoesToBulk(ptr) && ptr !in cl.small
    ensures !Holds(cl, ptr)
  {
    if Holds(cl, ptr) { RoutingExact(c, h, cl, b, ptr); }
  }

  lemma ChunkNotHeld(c: Config, h: Heap, cl: Client, b: Book, block: nat)
    requires Inv(c, h, cl, b) && block % PAGE_SIZE == 0 && block !in cl.ledger.live && block !in cl.ledger.large
    ensures !Holds(cl, block + MEM_FORBIDDEN)
  {
    BulkAddress(block);
    if block + MEM_FORBIDDEN in cl.small { RoutingExact(c, h, cl, b, block + MEM_FORBIDDEN); }
  }

  /** A request for a bucket. */
  lemma AllocateSmallKeeps(c: Config, h: Heap, cl: Client, b: Book, sz: nat, osPage: nat, osBulk: nat)
    returns (b': Book)
    requires Inv(c, h, cl, b) && sz <= MAX_BUCKET_SIZE && OsGrants(c, h, cl.ledger, sz, osPage, osBulk)
    ensures CanAllocate(c, h, sz, osPage, osBulk)
    ensures var (h', ptr) := Allocate(c, h, sz, osPage, osBulk);
            && Inv(c, h', Granted(c, cl, sz, ptr), b')
            && ptr != 0 && !Holds(cl, ptr)
            && Kept(h, h', cl)
  {
    BucketForRequest(sz);
    var idx: nat := SizeToIndexHalfExp(sz);
    BucketSizeFacts(idx);
    b' := b;
    if h.buckets[idx] == 0 {
      b' := RefillKeeps(c, h, cl, b, idx, osPage);
    }
    b' := PopKeeps(c, Filled(c, h, idx, osPage), cl, b', idx);
    var (h', ptr) := Allocate(c, h, sz, osPage, osBulk);
    ItemNotHeld(c, h, cl, b, ptr);
    ItemStepKept(c, h, h', cl, Granted(c, cl, sz, ptr), b');
  }

  /** A request for the bulk allocator. */
  lemma AllocateLargeKeeps(c: Config, h: Heap, cl: Client, b: Book, sz: nat, osPage: nat, osBulk: nat)
    returns (b': Book)
    requires Inv(c, h, cl, b) && sz > MAX_BUCKET_SIZE && OsGrants(c, h, cl.ledger, sz, osPage, osBulk)
    ensures CanAllocate(c, h, sz, osPage, osBulk)
    ensures var (h', ptr) := Allocate(c, h, sz, osPage, osBulk);
            && Inv(c, h', Granted(c, cl, sz, ptr), b')
            && ptr > MEM_FORBIDDEN && !Holds(cl, ptr)
            && Kept(h, h', cl)
  {
    hide B.Inv;
    b' := AllocateBulkKeeps(c, h, cl, b, sz, osBulk);
    var block := Allocate(c, h, sz, osPage, osBulk).1 - MEM_FORBIDDEN;
    ChunkNotHeld(c, h, cl, b, block);
  }

  /** allocate: a new address, not null, with at least sz bytes, and nothing anyone holds changes. */
  lemma AllocateKeeps(c: Config, h: Heap, cl: Client, b: Book, sz: nat, osPage: nat, osBulk: nat) returns (b': Book)
    requires Inv(c, h, cl, b) && OsGrants(c, h, cl.ledger, sz, osPage, osBulk)
    ensures CanAllocate(c, h, sz, osPage, osBulk)
    ensures var (h', ptr) := Allocate(c, h, sz, osPage, osBulk);
            var cl' := Granted(c, cl, sz, ptr);
            && Inv(c, h', cl', b')
            && ptr != 0 && !Holds(cl, ptr) && Holds(cl', ptr)
            && Kept(h, h', cl)
            && AllocateDoes(c, h, sz, osPage, osBulk, h', ptr)
  {
    hide B.Inv, AllocateDoes;
    if sz <= MAX_BUCKET_SIZE {
      b' := AllocateSmallKeeps(c, h, cl, b, sz, osPage, osBulk);
    } else {
      b' := AllocateLargeKeeps(c, h, cl, b, sz, osPage, osBulk);
    }
    GrantHolds(c, cl, sz, Allocate(c, h, sz, osPage, osBulk).1);
    AllocateEffect(c, h, cl, b, sz, osPage, osBulk);
  }

  lemma GrantHolds(c: Config, cl: Client, sz: nat, ptr: nat)
    requires sz > MAX_BUCKET_SIZE ==> ptr >= MEM_FORBIDDEN
    ensures Holds(Granted(c, cl, sz, ptr), ptr)
  {}

  /** The new address is the only change in what is held, and there is room for the request, but no more
      than there need be: no bucket with room is smaller, and not a whole page of a chunk is left over. */
  lemma GrantFits(c: Config, cl: Client, sz: nat, ptr: nat)
    requires !Holds(cl, ptr) && Holds(Granted(c, cl, sz, ptr), ptr)
    ensures sz <= Owns(Granted(c, cl, sz, ptr), ptr)
    ensures sz > MAX_BUCKET_SIZE ==> Owns(Granted(c, cl, sz, ptr), ptr) < sz + PAGE_SIZE
    ensures sz <= MAX_BUCKET_SIZE ==>
              forall j: nat :: j <= LAST_BUCKET && sz <= BucketSize(j) ==>
                Owns(Granted(c, cl, sz, ptr), ptr) <= BucketSize(j)
    ensures forall x :: x != ptr ==> (Holds(Granted(c, cl, sz, ptr), x) <==> Holds(cl, x))
    ensures forall x :: Holds(cl, x) ==>
              x != ptr && Holds(Granted(c, cl, sz, ptr), x) && Owns(Granted(c, cl, sz, ptr), x) == Owns(cl, x)
  {
    if sz <= MAX_BUCKET_SIZE {
      BucketForRequest(sz);
      forall j: nat | j <= LAST_BUCKET && sz <= BucketSize(j)
        ensures BucketSize(SizeToIndexHalfExp(sz)) <= BucketSize(j)
      {
        LeastBucket(sz, j);
      }
    }
  }

  lemma LeastBucket(sz: nat, j: nat)
    requires sz <= MAX_BUCKET_SIZE && j <= LAST_BUCKET && sz <= BucketSize(j)
    ensures 0 <= SizeToIndexHalfExp(sz) <= LAST_BUCKET && BucketSize(SizeToIndexHalfExp(sz)) <= BucketSize(j)
  {
    BucketForRequest(sz);
    Pow2Mono(12, 62);
    PageIs12();
    if sz > 0 {
      HalfExpLeastFit(sz, j);
    } else {
      HalfExpLeastFit(1, j);
      BucketSizeFacts(j);
    }
  }

  /** An address is held as one thing only. */
  predicate OneOf(cl: Client, ptr: nat) {
    ptr >= MEM_FORBIDDEN ==>
      var block := ptr - MEM_FORBIDDEN;
      && (ptr in cl.small ==> block !in cl.ledger.live && block !in cl.ledger.large)
      && !(block in cl.ledger.live && block in cl.ledger.large)
  }

  lemma ReturnFits(cl: Client, ptr: nat)
    requires Holds(cl, ptr) && OneOf(cl, ptr)
    ensures !Holds(Returned(cl, ptr), ptr)
    ensures forall x :: x != ptr && Holds(cl, x) ==>
              Holds(Returned(cl, ptr), x) && Owns(Returned(cl, ptr), x) == Owns(cl, x)
    ensures forall x :: Holds(Returned(cl, ptr), x) ==> Holds(cl, x)
  {}

  lemma ReturnItem(c: Config, h: Heap, cl: Client, b: Book, ptr: nat) returns (b': Book)
    requires Inv(c, h, cl, b) && ptr in cl.small
    ensures CanDeallocate(c, h, ptr)
    ensures var h' := Deallocate(c, h, ptr);
            && Inv(c, h', cl.(small := cl.small - {ptr}), b')
            && Kept(h, h', cl.(small := cl.small - {ptr}))
  {
    b' := PushKeeps(c, h, cl, b, ptr);
    var cl' := cl.(small := cl.small - {ptr});
    ItemStepKept(c, h, Push(h, cl.small[ptr], ptr), cl', cl', b');
  }

  /** What deallocate does with the address of a chunk. */
  lemma DeallocateIsBulk(c: Config, h: Heap, ptr: nat, block: nat)
    requires ptr == block + MEM_FORBIDDEN && block % PAGE_SIZE == 0
    requires block in h.bulk.hdr && |h.bulk.heads| == c.p.maxPages + 1
    ensures CanDeallocate(c, h, ptr)
    ensures Deallocate(c, h, ptr) == h.(bulk := B.Deallocate(c.p, c.repaired, h.bulk, block))
  {
    BulkAddress(block);
  }

  lemma AsDeallocated(c: Config, h: Heap, cl': Client, b': Book, ptr: nat, block: nat)
    requires ptr == block + MEM_FORBIDDEN && block % PAGE_SIZE == 0
    requires block in h.bulk.hdr && |h.bulk.heads| == c.p.maxPages + 1
    requires var h' := h.(bulk := B.Deallocate(c.p, c.repaired, h.bulk, block)); Inv(c, h', cl', b') && Kept(h, h', cl')
    ensures CanDeallocate(c, h, ptr)
    ensures Inv(c, Deallocate(c, h, ptr), cl', b') && Kept(h, Deallocate(c, h, ptr), cl')
  {
    DeallocateIsBulk(c, h, ptr, block);
  }

  /** deallocate of something held. */
  lemma DeallocateKeeps(c: Config, h: Heap, cl: Client, b: Book, ptr: nat) returns (b': Book)
    requires Inv(c, h, cl, b) && Holds(cl, ptr)
    requires ptr !in cl.small ==> Harmless(c, h.bulk, cl.ledger, ptr - MEM_FORBIDDEN)
    ensures CanDeallocate(c, h, ptr)
    ensures var h' := Deallocate(c, h, ptr);
            && Inv(c, h', Returned(cl, ptr), b')
            && Kept(h, h', Returned(cl, ptr))
            && DeallocateDoes(c, h, cl, ptr, h')
  {
    hide B.Inv, DeallocateDoes;
    if ptr in cl.small {
      b' := ReturnItem(c, h, cl, b, ptr);
    } else {
      var block := ptr - MEM_FORBIDDEN;
      b' := DeallocateBulkKeeps(c, h, cl, b, block);
      AsDeallocated(c, h, Returned(cl, ptr), b', ptr, block);
    }
    DeallocateEffect(c, h, cl, b, ptr);
  }

  // ---------------------------------------------------------------------------------------
  // Client writes

  /** The word at x lies inside an item somebody holds. */
  ghost predicate InHeldItem(cl: Client, x: nat) {
    exists a: nat :: a in cl.small && cl.small[a] <= LAST_BUCKET && a <= x && x + 8 <= a + BucketSize(cl.small[a])
  }

  lemma WriteItemKeeps(c: Config, h: Heap, cl: Client, b: Book, x: nat, v: nat)
    requires Inv(c, h, cl, b) && InHeldItem(cl, x)
    ensures Inv(c, h.(link := h.link[x := v]), cl, b)
  {
    hide B.Inv, P.Inv;
    forall i | 0 <= i < |h.buckets| ensures ListOk(h.link[x := v], h.buckets[i], b.free[i]) {
      assert ListOk(h.link, h.buckets[i], b.free[i]);
      WordNotListed(c, h, cl, b, x, i);
      LinkedKeys(h.link, h.buckets[i], b.free[i]);
      LinkedFrame(h.link, h.link[x := v], h.buckets[i], b.free[i]);
    }
    assert ListsOk(h.link[x := v], h.buckets, b.free);
  }

  lemma WordNotListed(c: Config, h: Heap, cl: Client, b: Book, x: nat, i: nat)
    requires Inv(c, h, cl, b) && InHeldItem(cl, x) && i < |b.free|
    ensures x !in b.free[i]
  {
    var a: nat :| a in cl.small && cl.small[a] <= LAST_BUCKET && a <= x && x + 8 <= a + BucketSize(cl.small[a]);
    if x in b.home {
      BucketSizeFacts(b.home[x].idx);
      if x != a { ItemsApart(c, h.pages, b.home, a, x); }
    }
  }

  /** The heap after a client has written the first two words of its chunk. */
  function WithWords(h: Heap, block: nat, word1: nat, word2: nat): Heap
    requires block in h.bulk.hdr
  {
    var header := h.bulk.hdr[block].(prevFree := word1, nextFree := word2);
    h.(bulk := h.bulk.(hdr := h.bulk.hdr[block := header]))
  }

  lemma WriteChunkKeeps(c: Config, h: Heap, cl: Client, b: Book, block: nat, word1: nat, word2: nat)
    requires Inv(c, h, cl, b) && (block in cl.ledger.live || block in cl.ledger.large)
    ensures block in h.bulk.hdr
    ensures Inv(c, WithWords(h, block, word1, word2), cl, b)
  {
    if block in cl.ledger.live { BulkTiling.InBlock(c.p, h.bulk.hdr, b.bulk.home, block); }
    var header := h.bulk.hdr[block].(prevFree := word1, nextFree := word2);
    BulkRuns.WriteKeeps(c.p, c.repaired, h.bulk, cl.ledger, b.bulk, block, header);
  }

  // ---------------------------------------------------------------------------------------
  // Runs

  /** The calls a client can make, and its writes to memory it holds: to a word inside an item, or
      to the first two words of a chunk, where a free chunk keeps its list links. */
  datatype Op =
    | Alloc(sz: nat, osPage: nat, osBulk: nat)
    | Free(ptr: nat)
    | WriteItem(x: nat, v: nat)
    | WriteChunk(block: nat, word1: nat, word2: nat)

  /** asked: what the clients hold, with the sizes they asked for. */
  datatype Machine = Machine(h: Heap, cl: Client, asked: map<nat, nat>)

  function Start(c: Config): Machine {
    Machine(Initial(c), Client(map[], B.Ledger(map[], map[])), map[])
  }

  /** What the clients and the operating system owe: null or something held is given back, and new
      regions are apart from those in use. */
  ghost predicate Legal(c: Config, m: Machine, op: Op) {
    match op
    case Alloc(sz, osPage, osBulk) => OsGrants(c, m.h, m.cl.ledger, sz, osPage, osBulk)
    case Free(ptr) => ptr == 0 || ptr in m.asked
    case WriteItem(x, v) => InHeldItem(m.cl, x)
    case WriteChunk(block, _, _) => block in m.cl.ledger.live || block in m.cl.ledger.large
  }

  /** What the code as written needs besides. */
  predicate NoHazard(c: Config, m: Machine, op: Op) {
    op.Free? && op.ptr >= MEM_FORBIDDEN && GoesToBulk(op.ptr) ==>
      Harmless(c, m.h.bulk, m.cl.ledger, op.ptr - MEM_FORBIDDEN)
  }

  predicate CanStep(c: Config, m: Machine, op: Op) {
    match op
    case Alloc(sz, osPage, osBulk) => CanAllocate(c, m.h, sz, osPage, osBulk)
    case Free(ptr) => CanDeallocate(c, m.h, ptr) && (ptr != 0 ==> Holds(m.cl, ptr))
    case WriteItem(_, _) => true
    case WriteChunk(block, _, _) => block in m.h.bulk.hdr
  }

  function Step(c: Config, m: Machine, op: Op): Machine
    requires CanStep(c, m, op)
  {
    match op
    case Alloc(sz, osPage, osBulk) =>
      var (h', ptr) := Allocate(c, m.h, sz, osPage, osBulk);
      Machine(h', Granted(c, m.cl, sz, ptr), m.asked[ptr := sz])
    case Free(ptr) =>
      if ptr == 0 then m else Machine(Deallocate(c, m.h, ptr), Returned(m.cl, ptr), m.asked - {ptr})
    case WriteItem(x, v) =>
      m.(h := m.h.(link := m.h.link[x := v]))
    case WriteChunk(block, word1, word2) =>
      m.(h := WithWords(m.h, block, word1, word2))
  }

  ghost predicate AskedOk(cl: Client, asked: map<nat, nat>) {
    && (forall x :: x in asked <==> Holds(cl, x))
    && (forall x :: x in asked ==> asked[x] <= Owns(cl, x))
  }

  ghost predicate Ok(c: Config, m: Machine) {
    AskedOk(m.cl, m.asked) && exists b :: Inv(c, m.h, m.cl, b)
  }

  lemma StartOk(c: Config)
    requires c.Valid()
    ensures Ok(c, Start(c))
  {
    InitialInv(c);
  }

  lemma AskedAfterGrant(c: Config, cl: Client, asked: map<nat, nat>, sz: nat, ptr: nat)
    requires AskedOk(cl, asked) && !Holds(cl, ptr) && Holds(Granted(c, cl, sz, ptr), ptr)
    ensures ptr !in asked && AskedOk(Granted(c, cl, sz, ptr), asked[ptr := sz])
  {
    GrantFits(c, cl, sz, ptr);
  }

  lemma AllocStep(c: Config, m: Machine, sz: nat, osPage: nat, osBulk: nat)
    requires Ok(c, m) && Legal(c, m, Alloc(sz, osPage, osBulk))
    ensures CanStep(c, m, Alloc(sz, osPage, osBulk))
    ensures var m' := Step(c, m, Alloc(sz, osPage, osBulk));
            var ptr := Allocate(c, m.h, sz, osPage, osBulk).1;
            && Ok(c, m') && ptr != 0 && ptr !in m.asked && Kept(m.h, m'.h, m.cl)
  {
    var b :| Inv(c, m.h, m.cl, b);
    var b' := AllocateKeeps(c, m.h, m.cl, b, sz, osPage, osBulk);
    AskedAfterGrant(c, m.cl, m.asked, sz, Allocate(c, m.h, sz, osPage, osBulk).1);
  }

  lemma HeldOnce(c: Config, h: Heap, cl: Client, b: Book, ptr: nat)
    requires Inv(c, h, cl, b) && Holds(cl, ptr)
    ensures OneOf(cl, ptr)
  {
    hide FreeOk, ItemsOk;
    RoutingExact(c, h, cl, b, ptr);
    if ptr >= MEM_FORBIDDEN {
      var block := ptr - MEM_FORBIDDEN;
      if block in cl.ledger.live || block in cl.ledger.large {
        var r := ChunkRegion(c, h, cl, b, block);
        BulkAddress(block);
      }
      if block in cl.ledger.live {
        BulkTiling.InBlock(c.p, h.bulk.hdr, b.bulk.home, block);
        BulkSteps.LargeIsNoChunk(c.p, h.bulk, cl.ledger.large, b.bulk.home, block, block);
      }
    }
  }

  lemma AskedAfterReturn(cl: Client, asked: map<nat, nat>, ptr: nat)
    requires AskedOk(cl, asked) && Holds(cl, ptr) && OneOf(cl, ptr)
    ensures AskedOk(Returned(cl, ptr), asked - {ptr})
  {
    ReturnFits(cl, ptr);
  }

  lemma FreeHeld(c: Config, h: Heap, cl: Client, b: Book, asked: map<nat, nat>, ptr: nat) returns (b': Book)
    requires Inv(c, h, cl, b) && AskedOk(cl, asked) && ptr in asked
    requires ptr >= MEM_FORBIDDEN && GoesToBulk(ptr) ==> Harmless(c, h.bulk, cl.ledger, ptr - MEM_FORBIDDEN)
    ensures ptr != 0 && Holds(cl, ptr) && CanDeallocate(c, h, ptr)
    ensures var h' := Deallocate(c, h, ptr);
            && Inv(c, h', Returned(cl, ptr), b') && Kept(h, h', Returned(cl, ptr))
            && AskedOk(Returned(cl, ptr), asked - {ptr})
  {
    RoutingExact(c, h, cl, b, ptr);
    HeldOnce(c, h, cl, b, ptr);
    b' := DeallocateKeeps(c, h, cl, b, ptr);
    AskedAfterReturn(cl, asked, ptr);
  }

  lemma FreeStep(c: Config, m: Machine, ptr: nat)
    requires Ok(c, m) && ptr in m.asked && NoHazard(c, m, Free(ptr))
    ensures CanStep(c, m, Free(ptr))
    ensures var m' := Step(c, m, Free(ptr)); Ok(c, m') && Kept(m.h, m'.h, m'.cl) && m'.asked == m.asked - {ptr}
  {
    var b :| Inv(c, m.h, m.cl, b);
    var b' := FreeHeld(c, m.h, m.cl, b, m.asked, ptr);
  }

  lemma StepKeeps(c: Config, m: Machine, op: Op)
    requires Ok(c, m) && Legal(c, m, op) && NoHazard(c, m, op)
    ensures CanStep(c, m, op) && Ok(c, Step(c, m, op))
  {
    match op {
      case Alloc(sz, osPage, osBulk) => AllocStep(c, m, sz, osPage, osBulk);
      case Free(ptr) => if ptr != 0 { FreeStep(c, m, ptr); }
      case WriteItem(x, v) =>
        var b :| Inv(c, m.h, m.cl, b);
        WriteItemKeeps(c, m.h, m.cl, b, x, v);
      case WriteChunk(block, word1, word2) =>
        var b :| Inv(c, m.h, m.cl, b);
        WriteChunkKeeps(c, m.h, m.cl, b, block, word1, word2);
    }
  }

  /** ms are the machines before, between and after the calls ops, starting from an initialized
      allocator. */
  ghost predicate IsRun(c: Config, ms: seq<Machine>, ops: seq<Op>) {
    && |ms| == |ops| + 1
    && ms[0] == Start(c)
    && forall i {:trigger ops[i]} :: 0 <= i < |ops| ==>
         && Legal(c, ms[i], ops[i]) && NoHazard(c, ms[i], ops[i])
         && (CanStep(c, ms[i], ops[i]) ==> ms[i + 1] == Step(c, ms[i], ops[i]))
  }

  /** What every held address is promised: it is not null, the bytes asked for are disjoint from
      those of every other, and deallocate will find its way back from the address alone. */
  ghost predicate Safe(c: Config, m: Machine) {
    && (forall x, y :: x in m.asked && y in m.asked && x != y ==> ApartBytes(x, m.asked[x], y, m.asked[y]))
    && (forall x :: x in m.asked ==>
        x != 0 && CanDeallocate(c, m.h, x) && Holds(m.cl, x) && (GoesToBulk(x) <==> x !in m.cl.small))
    && (forall x :: x in m.asked && x in m.cl.small ==> AddressToIdx(c.g, x) == m.cl.small[x])
  }

  lemma OkIsSafe(c: Config, m: Machine)
    requires Ok(c, m)
    ensures Safe(c, m)
  {
    var b :| Inv(c, m.h, m.cl, b);
    forall x, y | x in m.asked && y in m.asked && x != y ensures ApartBytes(x, m.asked[x], y, m.asked[y]) {
      HeldApart(c, m.h, m.cl, b, x, y);
    }
    forall x | x in m.asked
      ensures x != 0 && CanDeallocate(c, m.h, x) && (GoesToBulk(x) <==> x !in m.cl.small)
      ensures x in m.cl.small ==> AddressToIdx(c.g, x) == m.cl.small[x]
    {
      RoutingExact(c, m.h, m.cl, b, x);
      HeldReadable(c, m.h, m.cl, b, x);
    }
  }

  /** Held memory is disjoint from every item on a bucket list and every chunk on a free list. */
  ghost predicate ApartFromFree(m: Machine, b: Book) {
    && (forall x, i, f :: x in m.asked && 0 <= i < |b.free| && f in b.free[i] ==>
          i <= LAST_BUCKET && ApartBytes(x, m.asked[x], f, BucketSize(i)))
    && (forall x, i, f :: x in m.asked && 0 <= i < |b.bulk.lists| && f in b.bulk.lists[i] ==>
          f in m.h.bulk.hdr && ApartBytes(x, m.asked[x], f, m.h.bulk.hdr[f].count * PAGE_SIZE))
  }

  lemma OkIsApart(c: Config, m: Machine) returns (b: Book)
    requires Ok(c, m)
    ensures Inv(c, m.h, m.cl, b) && ApartFromFree(m, b)
  {
    b :| Inv(c, m.h, m.cl, b);
    forall x, i, f | x in m.asked && 0 <= i < |b.free| && f in b.free[i]
      ensures i <= LAST_BUCKET && ApartBytes(x, m.asked[x], f, BucketSize(i))
    {
      HeldApartFromFreeItem(c, m.h, m.cl, b, x, i, f);
    }
    forall x, i, f | x in m.asked && 0 <= i < |b.bulk.lists| && f in b.bulk.lists[i]
      ensures f in m.h.bulk.hdr && ApartBytes(x, m.asked[x], f, m.h.bulk.hdr[f].count * PAGE_SIZE)
    {
      HeldApartFromFreeChunk(c, m.h, m.cl, b, x, i, f);
    }
  }

  /** What a call promises: a grant is new and not null, everything held before and after keeps its
      contents, and the lists change as they should. */
  ghost predicate StepPromise(c: Config, m: Machine, op: Op)
    requires CanStep(c, m, op)
  {
    match op
    case Alloc(sz, osPage, osBulk) =>
      var (h', ptr) := Allocate(c, m.h, sz, osPage, osBulk);
      && ptr != 0 && ptr !in m.asked && Kept(m.h, h', m.cl)
      && AllocateDoes(c, m.h, sz, osPage, osBulk, h', ptr)
    case Free(ptr) =>
      && (ptr != 0 ==> Kept(m.h, Deallocate(c, m.h, ptr), Returned(m.cl, ptr)))
      && DeallocateDoes(c, m.h, m.cl, ptr, Deallocate(c, m.h, ptr))
    case WriteItem(_, _) => true
    case WriteChunk(_, _, _) => true
  }

  lemma StepPromised(c: Config, m: Machine, op: Op)
    requires Ok(c, m) && Legal(c, m, op) && NoHazard(c, m, op)
    ensures CanStep(c, m, op) && StepPromise(c, m, op)
  {
    var b :| Inv(c, m.h, m.cl, b);
    match op {
      case Alloc(sz, osPage, osBulk) =>
        AllocStep(c, m, sz, osPage, osBulk);
        AllocateEffect(c, m.h, m.cl, b, sz, osPage, osBulk);
      case Free(ptr) =>
        if ptr != 0 { FreeStep(c, m, ptr); }
        DeallocateEffect(c, m.h, m.cl, b, ptr);
      case WriteItem(_, _) =>
      case WriteChunk(_, _, _) => StepKeeps(c, m, op);
    }
  }

  lemma {:induction false} RunOk(c: Config, ms: seq<Machine>, ops: seq<Op>, n: nat)
    requires c.Valid() && IsRun(c, ms, ops) && n <= |ops|
    ensures Ok(c, ms[n])
  {
    hide Inv;
    if n == 0 {
      StartOk(c);
    } else {
      RunOk(c, ms, ops, n - 1);
      assert ops[n - 1] == ops[n - 1];
      StepKeeps(c, ms[n - 1], ops[n - 1]);
    }
  }

  /** Every state and every step of every run is safe: of the repaired allocator without condition, of
      the allocator as written if it frees no chunk in front of a live chunk that is flagged free. */
  lemma RunIsSafe(c: Config, ms: seq<Machine>, ops: seq<Op>, n: nat) returns (b: Book)
    requires c.Valid() && IsRun(c, ms, ops) && n <= |ops|
    ensures Ok(c, ms[n]) && Safe(c, ms[n])
    ensures Inv(c, ms[n].h, ms[n].cl, b) && ApartFromFree(ms[n], b)
    ensures n < |ops| ==> CanStep(c, ms[n], ops[n]) && ms[n + 1] == Step(c, ms[n], ops[n])
    ensures n < |ops| ==> StepPromise(c, ms[n], ops[n])
  {
    RunOk(c, ms, ops, n);
    OkIsSafe(c, ms[n]);
    b := OkIsApart(c, ms[n]);
    if n < |ops| { StepPromised(c, ms[n], ops[n]); }
  }

  /** As written, giving back one address leaves a correct allocator exactly when it is not a chunk
      in front of a live chunk that is flagged free. */
  lemma LiteralFreeIff(c: Config, m: Machine, ptr: nat)
    requires !c.repaired && Ok(c, m) && ptr in m.asked
    ensures CanStep(c, m, Free(ptr))
    ensures Ok(c, Step(c, m, Free(ptr))) <==> NoHazard(c, m, Free(ptr))
  {
    hide AllocateDoes, DeallocateDoes;
    var b :| Inv(c, m.h, m.cl, b);
    RoutingExact(c, m.h, m.cl, b, ptr);
    HeldReadable(c, m.h, m.cl, b, ptr);
    if NoHazard(c, m, Free(ptr)) {
      FreeStep(c, m, ptr);
    } else {
      forall b' ensures !Inv(c, Step(c, m, Free(ptr)).h, Returned(m.cl, ptr), b') {
        HazardStaysBroken(c, m.h, m.cl, b, ptr, b');
      }
    }
  }

  lemma HazardStaysBroken(c: Config, h: Heap, cl: Client, b: Book, ptr: nat, b': Book)
    requires !c.repaired && Inv(c, h, cl, b) && Holds(cl, ptr) && ptr !in cl.small
    requires !Harmless(c, h.bulk, cl.ledger, ptr - MEM_FORBIDDEN)
    ensures CanDeallocate(c, h, ptr) && !Inv(c, Deallocate(c, h, ptr), Returned(cl, ptr), b')
  {
    var block := ptr - MEM_FORBIDDEN;
    var r := ChunkRegion(c, h, cl, b, block);
    BulkStaysBroken(c, h.bulk, cl.ledger, b.bulk, block, b'.bulk);
    DeallocateIsBulk(c, h, ptr, block);
  }

  lemma BulkStaysBroken(c: Config, s: B.Bulk, l: B.Ledger, b: B.Book, block: nat, b': B.Book)
    requires !c.repaired && B.Inv(c.p, false, s, l, b) && !Harmless(c, s, l, block)
    ensures block in s.hdr && |s.heads| == c.p.maxPages + 1
    ensures !B.Inv(c.p, false, B.Deallocate(c.p, false, s, block), Without(l, block), b')
  {
    BulkRuns.HazardBreaks(c.p, BulkRuns.Machine(s, l), b, block, b');
  }

  /** The shipped instance is one the theorems cover. */
  lemma ShippedConfigIsValid(repaired: bool)
    ensures Config(PageAddress.SHIPPED, B.SHIPPED, repaired).Valid()
  {
    ShippedInstance();
  }
}
