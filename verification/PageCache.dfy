/** PageAllocatorWithCaching (src/iibmalloc/page_allocator.h:352-474): bounded caches of free
    blocks, one for each size of up to 20 pages, in front of the operating system. */
module PageCache {
  import opened Arith
  import opened Sums
  import opened BlockList
  import opened VirtualMemoryModel

  const MAX_CACHED_SIZE: nat := 20
  const SINGLE_PAGE_CACHE_SIZE: nat := 32
  const MULTI_PAGE_CACHE_SIZE: nat := 4

  datatype BlockStats = BlockStats(
    sysAllocCount: nat, sysAllocSize: nat, sysDeallocCount: nat, sysDeallocSize: nat,
    allocRequestCount: nat, allocRequestSize: nat, deallocRequestCount: nat, deallocRequestSize: nat)
  {
    function RegisterAllocRequest(sz: nat): BlockStats {
      this.(allocRequestSize := allocRequestSize + sz, allocRequestCount := allocRequestCount + 1)
    }

    function RegisterDeallocRequest(sz: nat): BlockStats {
      this.(deallocRequestSize := deallocRequestSize + sz, deallocRequestCount := deallocRequestCount + 1)
    }

    function RegisterSysAlloc(sz: nat): BlockStats {
      this.(sysAllocSize := sysAllocSize + sz, sysAllocCount := sysAllocCount + 1)
    }

    function RegisterSysDealloc(sz: nat): BlockStats {
      this.(sysDeallocSize := sysDeallocSize + sz, sysDeallocCount := sysDeallocCount + 1)
    }
  }

  /** The cache a size belongs to, in 64-bit arithmetic: 0 wraps to an index beyond every cache. */
  function CacheIx(blockSizeExp: nat, sz: nat): (ix: nat) {
    Word64(sz / Pow2(blockSizeExp) - 1)
  }

  /** A cache index determines the size of its blocks. */
  lemma CacheIxExact(blockSizeExp: nat, sz: nat, ix: nat)
    requires sz % Pow2(blockSizeExp) == 0 && sz < WORD && ix < MAX_CACHED_SIZE
    ensures CacheIx(blockSizeExp, sz) == ix <==> sz == (ix + 1) * Pow2(blockSizeExp)
  {
    var d := Pow2(blockSizeExp);
    Euclid(sz, d);
    QuotientBound(sz, d);
    if sz == (ix + 1) * d { DivModUnique(sz, d, ix + 1, 0); }
  }

  lemma QuotientBound(sz: nat, d: nat)
    requires d > 0
    ensures 0 <= sz / d <= sz
  {
    Euclid(sz, d);
    MulMono(sz / d, -1, d);
    if sz / d > sz { MulMono(sz + 1, sz / d, d); MulMono(1, d, sz + 1); }
  }

  /** A size getFreeBlock accepts: a 64-bit number, aligned to the block size and to pages. */
  predicate BlockSized(blockSizeExp: nat, sz: nat) {
    sz < WORD && sz % Pow2(blockSizeExp) == 0 && sz % PAGE_SIZE == 0
  }

  function CacheLimit(ix: nat): nat {
    if ix == 0 then SINGLE_PAGE_CACHE_SIZE
    else if ix < MAX_CACHED_SIZE then MULTI_PAGE_CACHE_SIZE
    else 0
  }

  class PageAllocatorWithCaching {
    const blockSizeExp: nat
    const os: VirtualMemory
    const freeBlocks: seq<MemoryBlockList>
    var stats: BlockStats
    /** Every block got from the operating system and not given back, with its size; those that
        clients hold. */
    ghost var owned: map<MemoryBlockListItem, nat>
    ghost var held: set<MemoryBlockListItem>
    /** The lists, their sentinels and the owned blocks. */
    ghost var nodes: set<object>

    /** The caches are separate objects. */
    ghost predicate Separate()
      reads this`owned, this`nodes
    {
      && |freeBlocks| == MAX_CACHED_SIZE + 1 && this !in nodes && os !in nodes
      && (forall i, j :: 0 <= i < j < |freeBlocks| ==>
          freeBlocks[i] != freeBlocks[j] && freeBlocks[i].lst != freeBlocks[j].lst)
      && (forall i :: 0 <= i < |freeBlocks| ==>
          freeBlocks[i] in nodes && freeBlocks[i].lst in nodes && freeBlocks[i].lst !in owned)
      && (forall x :: x in owned ==> x in nodes)
    }

    /** A cache is a well-formed list of at most CacheLimit blocks, all free and of its own size. */
    ghost predicate CacheOk(ix: nat)
      requires Separate() && ix < |freeBlocks|
      reads this`owned, this`held, this`nodes, nodes
    {
      var l := freeBlocks[ix];
      && (forall x :: x in l.items ==> x in owned && x !in held)
      && l.Valid()
      && |l.items| <= CacheLimit(ix)
      && (forall x :: x in l.items ==> owned[x] == x.size == (ix + 1) * Pow2(blockSizeExp))
    }

    /** Every owned block is a region of its own. */
    ghost predicate RegionsOk()
      reads this`owned, os
    {
      && os.Valid()
      && (forall x :: x in owned ==> Region(x.address, owned[x]) in os.regions && BlockSized(blockSizeExp, owned[x]))
      && (forall x, y :: x in owned && y in owned && x != y ==> x.address != y.address)
    }

    ghost predicate CachesOk()
      reads this`owned, this`held, this`nodes, nodes
    {
      && 12 <= blockSizeExp && Separate()
      && forall ix {:trigger CacheOk(ix)} :: 0 <= ix < |freeBlocks| ==> CacheOk(ix)
    }

    /** Owned blocks are held by clients or in the cache of their size. */
    ghost predicate Placed()
      reads this`owned, this`held, this`nodes, nodes
    {
      && Separate()
      && held <= owned.Keys
      && forall x :: x in owned && x !in held ==>
           CacheIx(blockSizeExp, owned[x]) < |freeBlocks| && x in freeBlocks[CacheIx(blockSizeExp, owned[x])].items
    }

    /** The blocks of every cache, in order. */
    ghost function CachedLists(): seq<seq<MemoryBlockListItem>>
      reads freeBlocks
    {
      seq(|freeBlocks|, j requires 0 <= j < |freeBlocks| reads freeBlocks => freeBlocks[j].items)
    }

    /** Bytes got from the operating system and not given back. */
    ghost predicate Balanced()
      reads this`owned, this`stats
    {
      stats.sysAllocSize - stats.sysDeallocSize == SumOf(owned)
    }

    ghost predicate Valid()
      reads this, nodes, os
    {
      CachesOk() && Placed() && RegionsOk() && Balanced()
    }

    /** initialize: all caches empty */
    constructor (blockSizeExp: nat, os: VirtualMemory)
      requires 12 <= blockSizeExp && os.Valid()
      ensures Valid() && owned == map[] && held == {} && this.blockSizeExp == blockSizeExp && this.os == os
      ensures fresh(nodes)
    {
      this.blockSizeExp, this.os := blockSizeExp, os;
      var l: seq<MemoryBlockList> := [];
      ghost var all: set<object> := {};
      while |l| <= MAX_CACHED_SIZE
        invariant |l| <= MAX_CACHED_SIZE + 1
        invariant forall i :: 0 <= i < |l| ==> l[i] in all && l[i].lst in all
        invariant fresh(all) && forall x :: x in all ==> x is MemoryBlockList || x is MemoryBlockListItem
        invariant forall i :: 0 <= i < |l| ==> fresh(l[i]) && fresh(l[i].lst) && l[i].Valid() && l[i].items == []
        invariant forall i, j :: 0 <= i < j < |l| ==> l[i] != l[j] && l[i].lst != l[j].lst
      {
        var cache := new MemoryBlockList();
        l := l + [cache];
        all := all + {cache, cache.lst};
      }
      freeBlocks := l;
      stats := BlockStats(0, 0, 0, 0, 0, 0, 0, 0);
      owned, held, nodes := map[], {}, all;
    }

    /** What was got from the operating system and not given back is what clients hold plus what is
        cached, and the cached blocks are exactly those on the lists. */
    lemma BalanceSplits()
      requires Valid()
      ensures stats.sysAllocSize - stats.sysDeallocSize == SumOf(owned - (owned.Keys - held)) + SumOf(owned - held)
      ensures forall x :: x in owned - held <==> exists ix :: 0 <= ix < |freeBlocks| && x in freeBlocks[ix].items
    {
      SumSplit(owned, held);
      forall x, ix | 0 <= ix < |freeBlocks| && x in freeBlocks[ix].items ensures x in owned - held {
        assert CacheOk(ix);
      }
    }

    /** Different caches have no block in common. */
    lemma CachesDisjoint(i: nat, j: nat)
      requires CachesOk() && i < |freeBlocks| && j < |freeBlocks| && i != j
      ensures forall x :: x in freeBlocks[i].items ==> x !in freeBlocks[j].items
    {
      assert CacheOk(i) && CacheOk(j);
      var d := Pow2(blockSizeExp);
      MultiplesDiffer(i + 1, j + 1, d);
    }

    lemma AllDisjoint(i: nat)
      requires CachesOk() && i < |freeBlocks|
      ensures forall j, x :: 0 <= j < |freeBlocks| && j != i && x in freeBlocks[i].items ==> x !in freeBlocks[j].items
    {
      forall j | 0 <= j < |freeBlocks| && j != i
        ensures forall x :: x in freeBlocks[i].items ==> x !in freeBlocks[j].items
      {
        CachesDisjoint(i, j);
      }
    }

    /** The front of a cache. */
    method TakeFront(ix: nat) returns (chk: MemoryBlockListItem)
      requires CachesOk() && ix < |freeBlocks| && freeBlocks[ix].items != []
      modifies freeBlocks[ix], freeBlocks[ix].lst, freeBlocks[ix].items
      ensures CachesOk()
      ensures old(freeBlocks[ix].items) == [chk] + freeBlocks[ix].items && !chk.IsInList()
      ensures CachedLists() == old(CachedLists())[ix := freeBlocks[ix].items]
      ensures chk in owned && chk !in held && chk.size == old(chk.size)
      ensures owned[chk] == chk.size == (ix + 1) * Pow2(blockSizeExp)
      ensures forall j :: 0 <= j < |freeBlocks| ==> chk !in freeBlocks[j].items
    {
      AllDisjoint(ix);
      assert CacheOk(ix);
      ghost var front := freeBlocks[ix].items;
      chk := freeBlocks[ix].PopFront();
      assert chk == front[0] && chk in front;
      forall j | 0 <= j < |freeBlocks| ensures CacheOk(j) && chk !in freeBlocks[j].items {
        assert old(CacheOk(j));
        if j != ix {
          assert freeBlocks[j].items == old(freeBlocks[j].items);
          forall x | x in freeBlocks[j].items ensures x !in front {
            assert x in old(freeBlocks[j].items);
          }
          ListUntouched(freeBlocks[j]);
        }
      }
    }

    /** Hand a block that is on no list to a client. */
    method HandOut(chk: MemoryBlockListItem, sz: nat, ix: nat)
      requires CachesOk() && chk in owned && forall j :: 0 <= j < |freeBlocks| ==> chk !in freeBlocks[j].items
      modifies chk, this`held
      ensures CachesOk() && held == old(held) + {chk} && CachedLists() == old(CachedLists())
      ensures chk.size == sz && chk.sizeIndex == ix && !chk.IsInList()
    {
      chk.Initialize(sz, ix);
      held := held + {chk};
      forall j | 0 <= j < |freeBlocks| ensures CacheOk(j) {
        assert old(CacheOk(j));
        ListUntouched(freeBlocks[j]);
      }
    }

    /** Take a block from a cache that has one (lines 401-408). */
    method PopCached(ix: nat, sz: nat) returns (chk: MemoryBlockListItem)
      requires Valid() && ix < |freeBlocks| && freeBlocks[ix].items != []
      modifies this`held, nodes
      ensures Valid() && owned == old(owned)
      ensures old(freeBlocks[ix].items) == [chk] + freeBlocks[ix].items
      ensures CachedLists() == old(CachedLists())[ix := freeBlocks[ix].items]
      ensures chk !in old(held) && held == old(held) + {chk}
      ensures chk.size == sz && chk.sizeIndex == ix && !chk.IsInList()
      ensures owned[chk] == (ix + 1) * Pow2(blockSizeExp)
    {
      assert CacheOk(ix);
      chk := TakeFront(ix);
      HandOut(chk, sz, ix);
    }

    /** A new block from the operating system (lines 411-421). */
    method NewBlock(sz: nat, ix: nat) returns (chk: MemoryBlockListItem)
      requires Valid() && sz > 0 && BlockSized(blockSizeExp, sz)
      modifies this`held, this`owned, this`nodes, this`stats, os`regions
      ensures Valid() && fresh(chk) && fresh(nodes - old(nodes))
      ensures owned == old(owned)[chk := sz] && held == old(held) + {chk}
      ensures chk.size == sz && chk.sizeIndex == ix && !chk.IsInList()
      ensures stats == old(stats).RegisterSysAlloc(sz)
      ensures os.regions == old(os.regions) + {Region(chk.address, sz)}
    {
      ghost var regions := os.regions;
      chk := Reserve(sz, ix);
      stats := stats.RegisterSysAlloc(sz);
      forall x | x in owned ensures x.address != chk.address {
        NotFresh(regions, chk.address, sz, x.address, owned[x]);
      }
      SumAdd(owned, chk, sz);
      HandOutNew(chk, sz);
    }

    /** Memory from the operating system, with the header of a block in front. */
    method Reserve(sz: nat, ix: nat) returns (chk: MemoryBlockListItem)
      requires os.Valid() && sz > 0
      modifies os`regions
      ensures os.Valid() && os.regions == old(os.regions) + {Region(chk.address, sz)}
      ensures FreshRegionAt(old(os.regions), chk.address, sz)
      ensures fresh(chk) && chk.size == sz && chk.sizeIndex == ix && !chk.IsInList()
    {
      var ptr := os.Allocate(sz);
      chk := new MemoryBlockListItem(ptr);
      chk.Initialize(sz, ix);
    }

    /** Record a new block as held. */
    ghost method HandOutNew(chk: MemoryBlockListItem, sz: nat)
      requires CachesOk() && Placed() && chk !in owned && chk !in nodes
      requires forall j :: 0 <= j < |freeBlocks| ==> chk != freeBlocks[j].lst
      modifies this`held, this`owned, this`nodes
      ensures CachesOk() && Placed()
      ensures owned == old(owned)[chk := sz] && held == old(held) + {chk} && nodes == old(nodes) + {chk}
    {
      owned, held, nodes := owned[chk := sz], held + {chk}, nodes + {chk};
      forall j | 0 <= j < |freeBlocks| ensures CacheOk(j) {
        assert old(CacheOk(j));
        ListUntouched(freeBlocks[j]);
      }
    }

    /** getFreeBlock (lines 392-425): a block nobody holds, of the size asked for; from the cache of
        that size if it has one. */
    method GetFreeBlock(sz: nat) returns (chk: MemoryBlockListItem)
      requires Valid() && sz > 0 && BlockSized(blockSizeExp, sz)
      modifies this, nodes, os`regions
      ensures Valid() && fresh(nodes - old(nodes))
      ensures chk in owned && owned[chk] == sz && chk !in old(held) && held == old(held) + {chk}
      ensures chk.size == sz && chk.sizeIndex == CacheIx(blockSizeExp, sz) && !chk.IsInList()
      ensures var ix := CacheIx(blockSizeExp, sz);
              if ix < MAX_CACHED_SIZE && old(freeBlocks[ix].items) != [] then
                && old(freeBlocks[ix].items) == [chk] + freeBlocks[ix].items
                && CachedLists() == old(CachedLists())[ix := freeBlocks[ix].items]
                && os.regions == old(os.regions) && owned == old(owned)
                && stats == old(stats).RegisterAllocRequest(sz)
              else
                && chk !in old(owned) && os.regions == old(os.regions) + {Region(chk.address, sz)}
                && CachedLists() == old(CachedLists()) && owned == old(owned)[chk := sz]
                && stats == old(stats).RegisterAllocRequest(sz).RegisterSysAlloc(sz)
    {
      hide Placed, CacheLimit, RegionsOk, CacheIx;
      stats := stats.RegisterAllocRequest(sz);
      var ix := CacheIx(blockSizeExp, sz);
      if ix < MAX_CACHED_SIZE {
        assert CacheOk(ix);
        if !freeBlocks[ix].Empty() {
          CacheIxExact(blockSizeExp, sz, ix);
          chk := PopCached(ix, sz);
          return;
        }
      }
      chk := NewBlock(sz, ix);
    }

    /** Put a block into the cache of its size (lines 459 and 466). */
    method PushCached(ix: nat, chk: MemoryBlockListItem)
      requires Valid() && ix < MAX_CACHED_SIZE && |freeBlocks[ix].items| < CacheLimit(ix)
      requires chk in held && !chk.IsInList() && chk.size == owned[chk] && ix == CacheIx(blockSizeExp, owned[chk])
      modifies this`held, nodes
      ensures Valid() && held == old(held) - {chk}
      ensures CachedLists() == old(CachedLists())[ix := [chk] + old(freeBlocks[ix].items)]
    {
      hide SumOf;
      CacheIxExact(blockSizeExp, owned[chk], ix);
      assert CacheOk(ix);
      PutFront(ix, chk);
    }

    method PutFront(ix: nat, chk: MemoryBlockListItem)
      requires CachesOk() && ix < MAX_CACHED_SIZE && |freeBlocks[ix].items| < CacheLimit(ix)
      requires chk in held && chk in owned && !chk.IsInList() && owned[chk] == chk.size == (ix + 1) * Pow2(blockSizeExp)
      modifies this`held, chk, freeBlocks[ix], freeBlocks[ix].lst, freeBlocks[ix].items
      ensures CachesOk() && held == old(held) - {chk} && freeBlocks[ix].items == [chk] + old(freeBlocks[ix].items)
      ensures CachedLists() == old(CachedLists())[ix := freeBlocks[ix].items]
    {
      hide SumOf, CacheLimit;
      AllDisjoint(ix);
      assert CacheOk(ix);
      forall j | 0 <= j < |freeBlocks| ensures chk !in freeBlocks[j].items { assert CacheOk(j); }
      ghost var items := freeBlocks[ix].items;
      freeBlocks[ix].PushFront(chk);
      held := held - {chk};
      forall j | 0 <= j < |freeBlocks| ensures CacheOk(j) {
        assert old(CacheOk(j));
        if j != ix {
          assert freeBlocks[j].items == old(freeBlocks[j].items);
          forall x | x in freeBlocks[j].items ensures x !in items {
            assert x in old(freeBlocks[j].items);
          }
          ListUntouched(freeBlocks[j]);
        }
      }
    }

    /** Give a block that is on no list back to the operating system. */
    method ReleaseBlock(chk: MemoryBlockListItem, sz: nat)
      requires CachesOk() && RegionsOk() && Balanced() && chk in owned && sz == owned[chk]
      requires forall j :: 0 <= j < |freeBlocks| ==> chk !in freeBlocks[j].items
      modifies this`held, this`owned, this`stats, os`regions, os`committed
      ensures CachesOk() && RegionsOk() && Balanced()
      ensures held == old(held) - {chk} && owned == old(owned) - {chk}
      ensures stats == old(stats).RegisterSysDealloc(old(owned)[chk])
      ensures os.regions == old(os.regions) - {Region(chk.address, old(owned)[chk])}
    {
      hide SumOf;
      SumRemove(owned, chk);
      os.Deallocate(chk.address, sz);
      stats := stats.RegisterSysDealloc(sz);
      owned, held := owned - {chk}, held - {chk};
      forall j | 0 <= j < |freeBlocks| ensures CacheOk(j) {
        assert old(CacheOk(j));
        ListUntouched(freeBlocks[j]);
      }
    }

    /** freeChunk (lines 445-474): into the cache of its size while there is room, otherwise back to the
        operating system. The client has left size and links of the header alone. */
    method FreeChunk(chk: MemoryBlockListItem)
      requires Valid() && chk in held && chk.size == owned[chk] && !chk.IsInList()
      modifies this, nodes, os`regions, os`committed
      ensures Valid() && held == old(held) - {chk}
      ensures var ix := CacheIx(blockSizeExp, old(owned)[chk]);
              if ix < MAX_CACHED_SIZE && |old(freeBlocks[ix].items)| < CacheLimit(ix) then
                && CachedLists() == old(CachedLists())[ix := [chk] + old(freeBlocks[ix].items)] && owned == old(owned)
                && os.regions == old(os.regions)
                && stats == old(stats).RegisterDeallocRequest(old(owned)[chk])
              else
                && CachedLists() == old(CachedLists())
                && owned == old(owned) - {chk} && os.regions == old(os.regions) - {Region(chk.address, old(owned)[chk])}
                && stats == old(stats).RegisterDeallocRequest(old(owned)[chk]).RegisterSysDealloc(old(owned)[chk])
    {
      hide SumOf, RegionsOk;
      var sz := chk.size;
      stats := stats.RegisterDeallocRequest(sz);
      var ix := CacheIx(blockSizeExp, sz);
      if ix < |freeBlocks| { assert CacheOk(ix); }
      if ix == 0 {
        if freeBlocks[ix].count < SINGLE_PAGE_CACHE_SIZE {
          PushCached(ix, chk);
          return;
        }
      } else if ix < MAX_CACHED_SIZE && freeBlocks[ix].count < MULTI_PAGE_CACHE_SIZE {
        PushCached(ix, chk);
        return;
      }
      forall j | 0 <= j < |freeBlocks| ensures chk !in freeBlocks[j].items { assert CacheOk(j); }
      ReleaseBlock(chk, sz);
    }

    /** One round of the inner loop of deinitialize (lines 382-387). */
    method ReleaseFront(ix: nat)
      requires Valid() && ix < |freeBlocks| && freeBlocks[ix].items != []
      modifies this`owned, this`stats, this`held, nodes, os`regions, os`committed
      ensures Valid() && held == old(held)
      ensures old(freeBlocks[ix].items) == [old(freeBlocks[ix].items)[0]] + freeBlocks[ix].items
      ensures forall j :: 0 <= j < |freeBlocks| && j != ix ==> freeBlocks[j].items == old(freeBlocks[j].items)
      ensures var chk := old(freeBlocks[ix].items)[0];
              && chk in old(owned) && chk !in held && owned == old(owned) - {chk}
              && os.regions == old(os.regions) - {Region(chk.address, old(owned)[chk])}
    {
      hide Balanced, CacheLimit;
      assert CacheOk(ix);
      var chk := TakeFront(ix);
      var sz := chk.size;
      ReleaseBlock(chk, sz);
    }

    /** The regions of the blocks that are cached. */
    ghost function CachedRegions(): set<Region>
      reads this
    {
      set x | x in owned && x !in held :: Region(x.address, owned[x])
    }

    /** The inner loop of deinitialize (lines 380-388). */
    method DrainCache(ix: nat)
      requires Valid() && ix < |freeBlocks|
      modifies this`owned, this`stats, this`held, nodes, os`regions, os`committed
      ensures Valid() && held == old(held) && freeBlocks[ix].items == []
      ensures forall j :: 0 <= j < |freeBlocks| && j != ix ==> freeBlocks[j].items == old(freeBlocks[j].items)
      ensures os.regions - CachedRegions() == old(os.regions - CachedRegions())
    {
      hide SumOf, CacheLimit;
      assert CacheOk(ix);
      while !freeBlocks[ix].Empty()
        invariant Valid() && held == old(held)
        invariant forall j :: 0 <= j < |freeBlocks| && j != ix ==> freeBlocks[j].items == old(freeBlocks[j].items)
        invariant os.regions - CachedRegions() == old(os.regions - CachedRegions())
        decreases |freeBlocks[ix].items|
      {
        assert CacheOk(ix);
        ghost var owned0, regions := owned, os.regions;
        ReleaseFront(ix);
        assert CacheOk(ix);
      }
      assert CacheOk(ix);
    }

    /** deinitialize (lines 376-390) empties every cache; what clients hold stays theirs. */
    method Deinitialize()
      requires Valid()
      modifies this`owned, this`stats, this`held, nodes, os`regions, os`committed
      ensures Valid() && held == old(held) && owned.Keys == held
      ensures forall ix :: 0 <= ix < |freeBlocks| ==> freeBlocks[ix].items == []
      ensures os.regions == old(os.regions - CachedRegions())
    {
      for ix := 0 to MAX_CACHED_SIZE + 1
        invariant Valid() && held == old(held)
        invariant forall j :: 0 <= j < ix ==> freeBlocks[j].items == []
        invariant os.regions - CachedRegions() == old(os.regions - CachedRegions())
      {
        DrainCache(ix);
      }
      assert CachedRegions() == {};
    }
  }

  lemma NotFresh(regions: set<Region>, ptr: nat, sz: nat, a: nat, n: nat)
    requires FreshRegionAt(regions, ptr, sz) && sz > 0 && Region(a, n) in regions && n > 0
    ensures a != ptr
  {
    assert DisjointRegions(Region(a, n), Region(ptr, sz));
  }

  lemma MultiplesDiffer(i: nat, j: nat, d: nat)
    requires i != j && d > 0
    ensures i * d != j * d
  {
    MulMono(i + 1, j, d);
    MulMono(j + 1, i, d);
    MulDistrib(i, 1, d);
    MulDistrib(j, 1, d);
  }
}
