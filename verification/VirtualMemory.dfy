/** What the allocator assumes of the operating system (VirtualMemory,
    src/iibmalloc/page_allocator.h:56-74): regions it hands out are page aligned, not null and
    disjoint; which address it picks is left open. */
module VirtualMemoryModel {
  import opened Arith

  datatype Region = Region(start: nat, size: nat)

  predicate DisjointRegions(a: Region, b: Region) {
    a.start + a.size <= b.start || b.start + b.size <= a.start
  }

  predicate FreshRegionAt(regions: set<Region>, addr: nat, size: nat) {
    0 < addr && addr % PAGE_SIZE == 0 && forall r :: r in regions ==> DisjointRegions(r, Region(addr, size))
  }

  /** The pages of a range of memory. */
  function PagesIn(addr: nat, size: nat): (r: set<nat>)
    ensures forall q :: q in r <==> addr <= q < addr + size && q % PAGE_SIZE == 0
  {
    set q: nat | addr <= q < addr + size && q % PAGE_SIZE == 0
  }

  /** There is always room further up. */
  lemma {:induction false} RoomAbove(regions: set<Region>) returns (addr: nat)
    ensures addr > 0 && addr % PAGE_SIZE == 0
    ensures forall r :: r in regions ==> r.start + r.size <= addr
    decreases regions
  {
    if regions == {} {
      addr := PAGE_SIZE;
    } else {
      var r :| r in regions;
      var a := RoomAbove(regions - {r});
      var end := r.start + r.size;
      addr := if end <= a then a else (end / PAGE_SIZE + 1) * PAGE_SIZE;
      assert forall x :: x in regions ==> x == r || x in regions - {r};
    }
  }

  /** The page at q lies in a region. */
  ghost predicate Mapped(regions: set<Region>, q: nat) {
    q % PAGE_SIZE == 0 && exists r :: r in regions && r.start <= q < r.start + r.size
  }

  /** Of every region in both sets the same pages are committed. */
  ghost predicate OthersCommitted(regions: set<Region>, regions': set<Region>, committed: set<nat>,
                                  committed': set<nat>)
  {
    forall r, q :: r in regions && r in regions' && r.start <= q < r.start + r.size ==>
      (q in committed <==> q in committed')
  }

  /** The contents of these pages are the same in both memories. */
  ghost predicate DataKept(pages: set<nat>, data: map<nat, nat>, data': map<nat, nat>) {
    forall q :: q in pages ==> (q in data <==> q in data') && (q in data ==> data'[q] == data[q])
  }

  /** What committing does to the contents: zero pages take the place of whatever was there. */
  function Erased(data: map<nat, nat>, pages: set<nat>): (r: map<nat, nat>)
    ensures forall q :: q in pages ==> q in r && r[q] == 0
  {
    data + map q | q in pages :: 0
  }

  lemma ErasedKeeps(data: map<nat, nat>, pages: set<nat>, others: set<nat>)
    requires others !! pages
    ensures DataKept(others, data, Erased(data, pages))
  {}

  lemma DataKeptTransitive(pages: set<nat>, data: map<nat, nat>, data1: map<nat, nat>, data2: map<nat, nat>)
    requires DataKept(pages, data, data1) && DataKept(pages, data1, data2)
    ensures DataKept(pages, data, data2)
  {}

  class VirtualMemory {
    /** What is mapped or reserved. */
    var regions: set<Region>
    /** The pages made accessible by CommitMemory, and their contents as far as written. */
    var committed: set<nat>
    var data: map<nat, nat>
    /** How often CommitMemory was called. */
    ghost var commits: nat

    constructor ()
      ensures Valid() && regions == {} && committed == {}
    {
      regions, committed, data, commits := {}, {}, map[], 0;
    }

    ghost predicate Valid()
      reads this
    {
      && (forall r :: r in regions ==> 0 < r.start && r.start % PAGE_SIZE == 0 && 0 < r.size)
      && (forall a, b :: a in regions && b in regions && a != b ==> DisjointRegions(a, b))
      && (forall q :: q in committed ==> Mapped(regions, q))
    }

    /** allocate and AllocateAddressSpace: a new region, apart from all the others. */
    method Allocate(size: nat) returns (addr: nat)
      requires Valid() && size > 0
      modifies this`regions
      ensures Valid() && regions == old(regions) + {Region(addr, size)}
      ensures FreshRegionAt(old(regions), addr, size)
    {
      ghost var above := RoomAbove(regions);
      assert FreshRegionAt(regions, above, size);
      addr :| FreshRegionAt(regions, addr, size);
      assert FreshRegionAt(regions, addr, size);
      regions := regions + {Region(addr, size)};
    }

    /** deallocate: the whole of a region goes back, with what was committed of it. */
    method Deallocate(addr: nat, size: nat)
      requires Valid() && Region(addr, size) in regions && size % PAGE_SIZE == 0
      modifies this`regions, this`committed
      ensures Valid() && regions == old(regions) - {Region(addr, size)}
      ensures committed == old(committed) - PagesIn(addr, size)
      ensures OthersCommitted(old(regions), regions, old(committed), committed)
    {
      committed := committed - PagesIn(addr, size);
      regions := regions - {Region(addr, size)};
      forall q | q in committed ensures Mapped(regions, q) {
        var r :| r in old(regions) && r.start <= q < r.start + r.size;
        assert r in regions;
      }
    }

    /** CommitMemory maps fresh zero pages over the range. On pages already committed that would
        wipe live data, so callers must show it never happens. */
    method CommitMemory(addr: nat, size: nat)
      requires Valid() && PagesIn(addr, size) !! committed
      requires forall q :: q in PagesIn(addr, size) ==> Mapped(regions, q)
      modifies this`committed, this`commits, this`data
      ensures Valid()
      ensures committed == old(committed) + PagesIn(addr, size) && commits == old(commits) + 1
      ensures data == Erased(old(data), PagesIn(addr, size))
    {
      committed := committed + PagesIn(addr, size);
      commits := commits + 1;
      data := Erased(data, PagesIn(addr, size));
    }
  }
}
