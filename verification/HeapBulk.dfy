/** The bulk side of the allocator, and what separates all the memory clients hold
    (src/iibmalloc/iibmalloc.h:1082-1183). */
module HeapBulk {
  import opened Arith
  import opened FreeItems
  import opened PageAddress
  import opened VirtualMemoryModel
  import opened Regions
  import opened SizeClasses
  import opened HeapSpec
  import opened HeapItems
  import opened HeapSteps
  import B = BulkSpec
  import BulkSteps
  import BulkTiling
  import BulkFrame
  import BulkRuns
  import P = PagerSpec

  /** An address handed out for a bulk chunk is told by its offset, and leads back to the chunk. */
  lemma BulkAddress(block: nat)
    requires block % PAGE_SIZE == 0
    ensures GoesToBulk(block + MEM_FORBIDDEN) && PtrToPageStart(block + MEM_FORBIDDEN) == block
  {}

  lemma BlocksAfterAllocate(p: B.Params, repaired: bool, s: B.Bulk, pc: nat, osBulk: nat)
    requires B.CanAllocate(p, s, pc) && osBulk != 0
    ensures var s' := B.Allocate(p, repaired, s, pc, osBulk).0;
            s'.blocks == s.blocks || (pc <= p.maxPages && s'.blocks == [osBulk] + s.blocks)
    ensures pc > p.maxPages ==> B.Allocate(p, repaired, s, pc, osBulk).1 == osBulk
  {}

  lemma RegionsAfterAllocate(c: Config, s: B.Bulk, l: B.Ledger, pc: nat, osBulk: nat)
    requires B.CanAllocate(c.p, s, pc) && osBulk != 0
    ensures var (s', block) := B.Allocate(c.p, c.repaired, s, pc, osBulk);
            RegionsOf(c.p, s'.blocks, BulkSteps.Granted(c.p, l, block, pc).large)
              <= RegionsOf(c.p, s.blocks, l.large) + {BulkRegion(c, pc, osBulk)}
  {
    BlocksAfterAllocate(c.p, c.repaired, s, pc, osBulk);
    var (s', block) := B.Allocate(c.p, c.repaired, s, pc, osBulk);
    var large' := BulkSteps.Granted(c.p, l, block, pc).large;
    forall x | x in LargeRegions(large') ensures x in LargeRegions(l.large) || x == BulkRegion(c, pc, osBulk) {
      var a :| a in large' && x == Region(a, large'[a] * PAGE_SIZE);
      if a in l.large { assert Region(a, l.large[a] * PAGE_SIZE) in LargeRegions(l.large); }
    }
  }

  // ---------------------------------------------------------------------------------------
  // The steps

  /** allocateInCaseTooLargeForBucket */
  lemma AllocateBulkKeeps(c: Config, h: Heap, cl: Client, b: Book, sz: nat, osBulk: nat) returns (b': Book)
    requires Inv(c, h, cl, b)
    requires var r := BulkRegion(c, BulkPages(sz), osBulk); FreshRegionAt(AllRegions(c, h, cl.ledger), r.start, r.size)
    ensures B.CanAllocate(c.p, h.bulk, BulkPages(sz)) && osBulk != 0
    ensures var (bulk', block) := B.Allocate(c.p, c.repaired, h.bulk, BulkPages(sz), osBulk);
            && Inv(c, h.(bulk := bulk'), cl.(ledger := BulkSteps.Granted(c.p, cl.ledger, block, BulkPages(sz))), b')
            && block != 0 && block % PAGE_SIZE == 0 && block !in cl.ledger.live && block !in cl.ledger.large
            && Kept(h, h.(bulk := bulk'), cl)
  {
    var pc := BulkPages(sz);
    FreshForUs(c.p, h.bulk, cl.ledger, AllRegions(c, h, cl.ledger), osBulk,
               if pc <= c.p.maxPages then c.p.blockPages else pc);
    var bulk1 := BulkSteps.AllocateKeeps(c.p, c.repaired, h.bulk, cl.ledger, b.bulk, pc, osBulk);
    BulkFrame.AllocateKeepsContents(c.p, c.repaired, h.bulk, cl.ledger, b.bulk, pc, osBulk);
    RegionsAfterAllocate(c, h.bulk, cl.ledger, pc, osBulk);
    b' := b.(bulk := bulk1);
    var (bulk', block) := B.Allocate(c.p, c.repaired, h.bulk, pc, osBulk);
    var l' := BulkSteps.Granted(c.p, cl.ledger, block, pc);
    StillApart(c, h, cl.ledger, h.(bulk := bulk'), l', BulkRegion(c, pc, osBulk));
    BulkStepKept(c, h, h.(bulk := bulk'), cl, l', b');
  }

  lemma StillApart(c: Config, h: Heap, l: B.Ledger, h': Heap, l': B.Ledger, r: Region)
    requires RegionsApart(c, h, l) && h'.pages == h.pages
    requires RegionsOf(c.p, h'.bulk.blocks, l'.large) <= RegionsOf(c.p, h.bulk.blocks, l.large) + {r}
    requires FreshRegionAt(AllRegions(c, h, l), r.start, r.size)
    ensures RegionsApart(c, h', l')
  {}

  /** The code as written must not free a chunk in front of a live chunk that is flagged free. */
  predicate Harmless(c: Config, s: B.Bulk, l: B.Ledger, block: nat) {
    c.repaired || (block in l.live && block in s.hdr ==> !BulkSteps.Hazard(s, l, block))
  }

  lemma BulkDeallocateKeeps(c: Config, s: B.Bulk, l: B.Ledger, b: B.Book, block: nat) returns (b': B.Book)
    requires B.Inv(c.p, c.repaired, s, l, b) && (block in l.live || block in l.large) && Harmless(c, s, l, block)
    ensures block in s.hdr && |s.heads| == c.p.maxPages + 1
    ensures var s' := B.Deallocate(c.p, c.repaired, s, block);
            && B.Inv(c.p, c.repaired, s', Without(l, block), b') && s'.blocks == s.blocks
            && BulkFrame.ContentsKept(s.hdr, s'.hdr, Without(l, block))
            && BulkFrame.HeadersInside(c.p, s.blocks, Without(l, block).large, s.hdr, s'.hdr)
  {
    if block in l.live {
      BulkTiling.InBlock(c.p, s.hdr, b.home, block);
      b' := BulkSteps.DeallocateKeeps(c.p, c.repaired, s, l, b, block);
      BulkFrame.DeallocateKeepsContents(c.p, c.repaired, s, l, b, block);
    } else {
      b' := b;
      BulkSteps.DeallocateLargeKeeps(c.p, c.repaired, s, l, b, block);
      BulkFrame.NothingWritten(c.p, s.blocks, Without(l, block).large, s.hdr, Without(l, block));
    }
  }

  /** Every word written lies outside the chunks. */
  ghost predicate WordsMissChunks(link: map<nat, nat>, link': map<nat, nat>, l: B.Ledger) {
    && (forall x, d :: WordWritten(link, link', x) && d in l.live ==> WordMisses(x, d, l.live[d] * PAGE_SIZE))
    && (forall x, a :: WordWritten(link, link', x) && a in l.large ==> WordMisses(x, a, l.large[a] * PAGE_SIZE))
  }

  /** Every header written lies outside the items. */
  ghost predicate HeadersMissItems(hdr: map<nat, B.Header>, hdr': map<nat, B.Header>, small: map<nat, nat>) {
    forall x: nat, a :: BulkFrame.Written(hdr, hdr', x) && a in small && small[a] <= LAST_BUCKET ==>
      x + BulkFrame.HEADER_SIZE <= a || a + BucketSize(small[a]) <= x
  }

  /** What the clients hold keeps its contents: no word and no header is written inside an item or a
      chunk anyone holds, but for back-links in the headers of chunks. */
  ghost predicate Kept(h: Heap, h': Heap, cl: Client) {
    && WritesOutside(h.link, h'.link, cl.small)
    && WordsMissChunks(h.link, h'.link, cl.ledger)
    && BulkFrame.ContentsKept(h.bulk.hdr, h'.bulk.hdr, cl.ledger)
    && HeadersMissItems(h.bulk.hdr, h'.bulk.hdr, cl.small)
  }

  /** A step of the bucket side; cl' are the clients after it. */
  lemma ItemStepKept(c: Config, h: Heap, h': Heap, cl: Client, cl': Client, b': Book)
    requires Inv(c, h', cl', b') && cl'.ledger == cl.ledger && h'.bulk == h.bulk
    requires WritesOutside(h.link, h'.link, cl.small) && WritesInItems(c, h'.pages, h.link, h'.link)
    ensures Kept(h, h', cl)
  {
    BulkFrame.NothingWritten(c.p, h.bulk.blocks, cl.ledger.large, h.bulk.hdr, cl.ledger);
    forall x, d | WordWritten(h.link, h'.link, x) && d in cl.ledger.live
      ensures WordMisses(x, d, cl.ledger.live[d] * PAGE_SIZE)
    {
      WordMissesChunk(c, h', cl', b', x, d);
    }
    forall x, a | WordWritten(h.link, h'.link, x) && a in cl.ledger.large
      ensures WordMisses(x, a, cl.ledger.large[a] * PAGE_SIZE)
    {
      WordMissesChunk(c, h', cl', b', x, a);
    }
  }

  lemma WordMissesChunk(c: Config, h: Heap, cl: Client, b: Book, x: nat, block: nat)
    requires Inv(c, h, cl, b) && (exists s :: ItemOk(c, h.pages, x, s))
    requires block in cl.ledger.live || block in cl.ledger.large
    ensures block in cl.ledger.live ==> WordMisses(x, block, cl.ledger.live[block] * PAGE_SIZE)
    ensures block in cl.ledger.large ==> WordMisses(x, block, cl.ledger.large[block] * PAGE_SIZE)
  {
    var s :| ItemOk(c, h.pages, x, s);
    BucketSizeFacts(s.idx);
    RegionsNotEmpty(c, h.bulk, cl.ledger, b.bulk);
    if block in cl.ledger.live {
      var r := ChunkRegion(c, h, cl, b, block);
      SegmentItemApart(c, h, cl, s, x, r);
    }
    if block in cl.ledger.large {
      SegmentItemApart(c, h, cl, s, x, Region(block, cl.ledger.large[block] * PAGE_SIZE));
    }
  }

  /** A step of the bulk side; l' is the ledger after it. */
  lemma BulkStepKept(c: Config, h: Heap, h': Heap, cl: Client, l': B.Ledger, b': Book)
    requires Inv(c, h', cl.(ledger := l'), b') && h'.link == h.link
    requires BulkFrame.ContentsKept(h.bulk.hdr, h'.bulk.hdr, cl.ledger)
    requires BulkFrame.HeadersInside(c.p, h'.bulk.blocks, l'.large, h.bulk.hdr, h'.bulk.hdr)
    ensures Kept(h, h', cl)
  {
    forall x: nat, a | BulkFrame.Written(h.bulk.hdr, h'.bulk.hdr, x) && a in cl.small && cl.small[a] <= LAST_BUCKET
      ensures x + BulkFrame.HEADER_SIZE <= a || a + BucketSize(cl.small[a]) <= x
    {
      var r := HeaderRegion(c.p, h'.bulk, l'.large, x);
      RegionsNotEmpty(c, h'.bulk, l', b'.bulk);
      ItemApartFromRegion(c, h', cl.(ledger := l'), b', a, r);
    }
  }

  lemma RegionsNotEmpty(c: Config, s: B.Bulk, l: B.Ledger, b: B.Book)
    requires B.Inv(c.p, c.repaired, s, l, b)
    ensures forall a :: a in l.large ==> l.large[a] > 0
    ensures forall r :: r in RegionsOf(c.p, s.blocks, l.large) ==> r.size > 0
  {}

  lemma HeaderRegion(p: B.Params, s: B.Bulk, large: map<nat, nat>, x: nat) returns (r: Region)
    requires BulkFrame.InBlocks(p, s.blocks, x) || x in large
    ensures r in RegionsOf(p, s.blocks, large)
    ensures r.start <= x && (x + PAGE_SIZE <= r.start + r.size || (x in large && r == Region(x, large[x] * PAGE_SIZE)))
  {
    if x in large {
      r := Region(x, large[x] * PAGE_SIZE);
    } else {
      var b :| b in s.blocks && b <= x && x + PAGE_SIZE <= b + p.blockPages * PAGE_SIZE;
      r := Region(b, p.blockPages * PAGE_SIZE);
    }
  }

  /** A chunk given back to the bulk allocator. */
  lemma DeallocateBulkKeeps(c: Config, h: Heap, cl: Client, b: Book, block: nat) returns (b': Book)
    requires Inv(c, h, cl, b) && (block in cl.ledger.live || block in cl.ledger.large)
    requires Harmless(c, h.bulk, cl.ledger, block)
    ensures block in h.bulk.hdr && |h.bulk.heads| == c.p.maxPages + 1 && block % PAGE_SIZE == 0
    ensures var bulk' := B.Deallocate(c.p, c.repaired, h.bulk, block);
            var cl' := cl.(ledger := Without(cl.ledger, block));
            Inv(c, h.(bulk := bulk'), cl', b') && Kept(h, h.(bulk := bulk'), cl')
  {
    if block in cl.ledger.live { BulkTiling.InBlock(c.p, h.bulk.hdr, b.bulk.home, block); }
    var bulk1 := BulkDeallocateKeeps(c, h.bulk, cl.ledger, b.bulk, block);
    b' := b.(bulk := bulk1);
    FewerRegions(c.p, h.bulk.blocks, cl.ledger.large, Without(cl.ledger, block).large);
    var l' := Without(cl.ledger, block);
    BulkStepKept(c, h, h.(bulk := B.Deallocate(c.p, c.repaired, h.bulk, block)), cl.(ledger := l'), l', b');
  }

  lemma FewerRegions(p: B.Params, blocks: seq<nat>, large: map<nat, nat>, large': map<nat, nat>)
    requires forall a :: a in large' ==> a in large && large'[a] == large[a]
    ensures RegionsOf(p, blocks, large') <= RegionsOf(p, blocks, large)
  {
    forall x | x in LargeRegions(large') ensures x in LargeRegions(large) {
      var a :| a in large' && x == Region(a, large'[a] * PAGE_SIZE);
      assert a in large;
    }
  }

  // ---------------------------------------------------------------------------------------
  // Extents

  predicate ApartBytes(x: nat, n: int, y: nat, m: int) {
    x + n <= y || y + m <= x
  }

  /** The chunk behind a held bulk address: its region, and its bytes inside it. */
  lemma ChunkRegion(c: Config, h: Heap, cl: Client, b: Book, block: nat) returns (r: Region)
    requires Inv(c, h, cl, b) && (block in cl.ledger.live || block in cl.ledger.large)
    ensures r in RegionsOf(c.p, h.bulk.blocks, cl.ledger.large)
    ensures var pages := if block in cl.ledger.live then cl.ledger.live[block] else cl.ledger.large[block];
            0 < pages && 0 < r.start <= block && block + pages * PAGE_SIZE <= r.start + r.size && block % PAGE_SIZE == 0
  {
    if block in cl.ledger.live {
      BulkTiling.InBlock(c.p, h.bulk.hdr, b.bulk.home, block);
      r := Region(b.bulk.home[block], c.p.blockPages * PAGE_SIZE);
    } else {
      r := Region(block, cl.ledger.large[block] * PAGE_SIZE);
    }
  }

  lemma ByteNotInRegion(c: Config, h: Heap, cl: Client, s: Segment, x: nat, r: Region)
    requires P.Inv(c.g, h.pages) && RegionsApart(c, h, cl.ledger) && SegmentOk(c, h.pages, s)
    requires s.start <= x < s.start + s.size && r in RegionsOf(c.p, h.bulk.blocks, cl.ledger.large)
    ensures !(r.start <= x < r.start + r.size)
  {
    var j := ByteOfSegment(c, h.pages, s, x);
    var t := Region(h.pages.blocks[j].addr, c.g.ReservationSize());
    assert t in ReservationsOf(c.g, h.pages);
    assert DisjointRegions(t, r);
  }

  /** Items never overlap memory of the bulk allocator. */
  lemma SegmentItemApart(c: Config, h: Heap, cl: Client, s: Segment, a: nat, r: Region)
    requires P.Inv(c.g, h.pages) && RegionsApart(c, h, cl.ledger) && ItemOk(c, h.pages, a, s)
    requires r in RegionsOf(c.p, h.bulk.blocks, cl.ledger.large) && r.size > 0
    ensures ApartBytes(a, BucketSize(s.idx), r.start, r.size)
  {
    ItemInSegment(c, h.pages, a, s);
    BucketSizeFacts(s.idx);
    ByteNotInRegion(c, h, cl, s, a, r);
    if a <= r.start < a + BucketSize(s.idx) { ByteNotInRegion(c, h, cl, s, r.start, r); }
  }

  lemma ItemApartFromRegion(c: Config, h: Heap, cl: Client, b: Book, a: nat, r: Region)
    requires Inv(c, h, cl, b) && a in b.home && r in RegionsOf(c.p, h.bulk.blocks, cl.ledger.large)
    ensures b.home[a].idx <= LAST_BUCKET && ApartBytes(a, BucketSize(b.home[a].idx), r.start, r.size)
  {
    RegionsNotEmpty(c, h.bulk, cl.ledger, b.bulk);
    SegmentItemApart(c, h, cl, b.home[a], a, r);
  }

  lemma ItemApartFromChunk(c: Config, h: Heap, cl: Client, b: Book, a: nat, y: nat)
    requires Inv(c, h, cl, b) && a in b.home && Holds(cl, y) && y !in cl.small
    ensures b.home[a].idx <= LAST_BUCKET && ApartBytes(a, BucketSize(b.home[a].idx), y, Owns(cl, y))
  {
    hide B.Inv;
    var r := ChunkRegion(c, h, cl, b, y - MEM_FORBIDDEN);
    ItemApartFromRegion(c, h, cl, b, a, r);
  }

  /** Any two held pieces of memory are disjoint. */
  lemma HeldApart(c: Config, h: Heap, cl: Client, b: Book, x: nat, y: nat)
    requires Inv(c, h, cl, b) && Holds(cl, x) && Holds(cl, y) && x != y
    ensures ApartBytes(x, Owns(cl, x), y, Owns(cl, y))
  {
    hide B.Inv;
    if x in cl.small && y in cl.small {
      ItemsApart(c, h.pages, b.home, x, y);
    } else if x in cl.small {
      ItemApartFromChunk(c, h, cl, b, x, y);
    } else if y in cl.small {
      ItemApartFromChunk(c, h, cl, b, y, x);
    } else {
      ChunksHeldApart(c, h.bulk, cl.ledger, b.bulk, x - MEM_FORBIDDEN, y - MEM_FORBIDDEN);
    }
  }

  lemma ChunksHeldApart(c: Config, s: B.Bulk, l: B.Ledger, b: B.Book, x: nat, y: nat)
    requires B.Inv(c.p, c.repaired, s, l, b) && x != y
    requires (x in l.live || x in l.large) && (y in l.live || y in l.large)
    ensures B.Apart(x, if x in l.live then l.live[x] else l.large[x], y, if y in l.live then l.live[y] else l.large[y])
  {
    assert BulkRuns.Ok(c.p, c.repaired, BulkRuns.Machine(s, l));
    BulkRuns.OkIsSafe(c.p, c.repaired, BulkRuns.Machine(s, l));
  }

  /** Held memory is disjoint from every item on a bucket list ... */
  lemma HeldApartFromFreeItem(c: Config, h: Heap, cl: Client, b: Book, x: nat, i: nat, f: nat)
    requires Inv(c, h, cl, b) && Holds(cl, x) && i < |b.free| && f in b.free[i]
    ensures i <= LAST_BUCKET && ApartBytes(x, Owns(cl, x), f, BucketSize(i))
  {
    HomeFacts(c, h, cl, b, f);
    if x in cl.small {
      ItemsApart(c, h.pages, b.home, x, f);
    } else {
      ItemApartFromChunk(c, h, cl, b, f, x);
    }
  }

  /** ... and from every chunk on a list of the bulk allocator. */
  lemma HeldApartFromFreeChunk(c: Config, h: Heap, cl: Client, b: Book, x: nat, i: nat, f: nat)
    requires Inv(c, h, cl, b) && Holds(cl, x) && i <= c.p.maxPages && f in b.bulk.lists[i]
    ensures f in h.bulk.hdr && ApartBytes(x, Owns(cl, x), f, h.bulk.hdr[f].count * PAGE_SIZE)
  {
    hide ItemsOk, RegionsApart;
    BulkTiling.InBlock(c.p, h.bulk.hdr, b.bulk.home, f);
    if x in cl.small {
      ItemApartFromRegion(c, h, cl, b, x, Region(b.bulk.home[f], c.p.blockPages * PAGE_SIZE));
    } else {
      BulkRuns.FreeListsApart(c.p, c.repaired, BulkRuns.Machine(h.bulk, cl.ledger), b.bulk, i, f, x - MEM_FORBIDDEN);
    }
  }
}
