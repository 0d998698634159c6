/** The SoundingAddressPageAllocator class (src/iibmalloc/iibmalloc.h:157-434) over its linked
    list of descriptors, proved to take exactly the steps of PagerSpec and Multipage, to commit
    every page once before it is handed out, and never to fail one of its asserts. */
module PageAllocatorClass {
  import opened Arith
  import opened PageAddress
  import opened PagerSpec
  import opened Multipage
  import opened VirtualMemoryModel
  import opened Regions

  class PageBlockDescriptor {
    var next: PageBlockDescriptor?
    var blockAddress: nat
    var nextToUse: seq<nat>
    var nextToCommit: seq<nat>

    constructor (blockAddress: nat, nextToUse: seq<nat>, nextToCommit: seq<nat>)
      ensures next == null && Value() == Block(blockAddress, nextToUse, nextToCommit)
    {
      next := null;
      this.blockAddress, this.nextToUse, this.nextToCommit := blockAddress, nextToUse, nextToCommit;
    }

    ghost function Value(): Block
      reads this
    {
      Block(blockAddress, nextToUse, nextToCommit)
    }
  }

  function Successor(l: seq<PageBlockDescriptor>, j: nat): PageBlockDescriptor?
    requires j < |l|
  {
    if j + 1 < |l| then l[j + 1] else null
  }

  /** Descriptor j is linked to the next and stands for blocks[j]. */
  ghost predicate NodeOk(l: seq<PageBlockDescriptor>, blocks: seq<Block>, j: nat)
    requires j < |l| && j < |blocks|
    reads l[j]
  {
    l[j].next == Successor(l, j) && l[j].Value() == blocks[j]
  }

  /** Pages first up to end of the bucket lie one behind the other, from `start` on. */
  ghost predicate InARow(g: Geometry, block: nat, i: nat, first: nat, end: nat, start: nat) {
    forall x :: first <= x < end ==> IdxToPageAddr(g, block, i, x) == start + (x - first) * PAGE_SIZE
  }

  /** Contiguous pages of a bucket are a range of memory. */
  lemma RunIsRange(g: Geometry, block: nat, i: nat, first: nat, end: nat, start: nat)
    requires start % PAGE_SIZE == 0 && first <= end && InARow(g, block, i, first, end, start)
    ensures PagesIn(start, (end - first) * PAGE_SIZE) == RangePages(g, block, i, first, end - first)
  {
    var pages, range := PagesIn(start, (end - first) * PAGE_SIZE), RangePages(g, block, i, first, end - first);
    forall q | q in pages ensures q in range {
      PageDistance(start, q);
      var x := first + (q - start) / PAGE_SIZE;
      assert IdxToPageAddr(g, block, i, x) == q;
    }
  }

  /** The state of the loop: the row starts at `start`, and its last page at `last`. */
  ghost predicate RowOk(g: Geometry, block: nat, i: nat, first: nat, end: nat, start: nat, last: nat) {
    && first < end && start % PAGE_SIZE == 0 && last == start + (end - 1 - first) * PAGE_SIZE
    && InARow(g, block, i, first, end, start)
  }

  lemma FirstInRow(g: Geometry, block: nat, i: nat, k: nat)
    requires g.Valid() && block % PAGE_SIZE == 0 && i < g.BucketCnt() && k < g.PagesPerBucket()
    ensures var page := IdxToPageAddr(g, block, i, k); RowOk(g, block, i, k, k + 1, page, page)
  {
    AddressRoundTrip(g, block, i, k, 0);
  }

  /** The next page of the bucket either continues the row or is where the ring closes. */
  lemma NextInRow(g: Geometry, block: nat, i: nat, first: nat, k: nat, start: nat, last: nat)
    requires g.Valid() && block % PAGE_SIZE == 0 && i < g.BucketCnt() && first < k < g.PagesPerBucket()
    requires RowOk(g, block, i, first, k, start, last)
    ensures var next := IdxToPageAddr(g, block, i, k);
            && (next - last == PAGE_SIZE ==> RowOk(g, block, i, first, k + 1, start, next))
            && (next - last != PAGE_SIZE ==> WrapsAt(g, block, i, k))
            && RowOk(g, block, i, k, k + 1, next, next)
  {
    AdjacentUnlessWrap(g, block, i, k);
    FirstInRow(g, block, i, k);
    assert IdxToPageAddr(g, block, i, k - 1) == start + (k - 1 - first) * PAGE_SIZE;
  }

  /** The range of one CommitMemory call: the pages of the run, all in the reservation and none of them
      committed. */
  lemma RunFacts(g: Geometry, block: nat, i: nat, pageIdx: nat, first: nat, end: nat, rangeSize: nat, start: nat,
                 last: nat,
                 before: set<nat>, regions: set<Region>)
    requires g.Valid() && block % PAGE_SIZE == 0 && i < g.BucketCnt()
    requires pageIdx <= first < end <= pageIdx + rangeSize <= g.PagesPerBucket()
    requires RowOk(g, block, i, first, end, start, last) && Region(block, g.ReservationSize()) in regions
    requires RangePages(g, block, i, pageIdx, rangeSize) !! before
    ensures var pages := PagesIn(start, last - start + PAGE_SIZE);
            && pages !! before + RangePages(g, block, i, pageIdx, first - pageIdx)
            && RangePages(g, block, i, pageIdx, first - pageIdx) + pages
                == RangePages(g, block, i, pageIdx, end - pageIdx)
            && forall q :: q in pages ==> Mapped(regions, q)
  {
    hide RangePages;
    RunIsRange(g, block, i, first, end, start);
    assert last - start + PAGE_SIZE == (end - first) * PAGE_SIZE;
    RangeSplit(g, block, i, pageIdx, first - pageIdx, end - first);
    RangeSplit(g, block, i, pageIdx, end - pageIdx, pageIdx + rangeSize - end);
    RangesDisjoint(g, block, i, pageIdx, first - pageIdx, end - first);
    RangeMapped(g, block, i, first, end - first, regions);
  }

  lemma RangeSplit(g: Geometry, block: nat, i: nat, k: nat, m: nat, n: nat)
    ensures RangePages(g, block, i, k, m + n) == RangePages(g, block, i, k, m) + RangePages(g, block, i, k + m, n)
  {}

  lemma RangeMapped(g: Geometry, block: nat, i: nat, k: nat, n: nat, regions: set<Region>)
    requires g.Valid() && block % PAGE_SIZE == 0 && i < g.BucketCnt() && k + n <= g.PagesPerBucket()
    requires Region(block, g.ReservationSize()) in regions
    ensures forall q :: q in RangePages(g, block, i, k, n) ==> Mapped(regions, q)
    ensures forall q :: q in RangePages(g, block, i, k, n) ==> block <= q < block + g.ReservationSize()
  {
    var range := RangePages(g, block, i, k, n);
    forall q | q in range ensures Mapped(regions, q) && block <= q < block + g.ReservationSize() {
      var x :| k <= x < k + n && q == IdxToPageAddr(g, block, i, x);
      AddressRoundTrip(g, block, i, x, 0);
    }
  }

  lemma RangesDisjoint(g: Geometry, block: nat, i: nat, k: nat, m: nat, n: nat)
    requires g.Valid() && block % PAGE_SIZE == 0 && i < g.BucketCnt() && k + m + n <= g.PagesPerBucket()
    ensures RangePages(g, block, i, k, m) !! RangePages(g, block, i, k + m, n)
  {
    forall q | q in RangePages(g, block, i, k, m) && q in RangePages(g, block, i, k + m, n) ensures false {
      var x :| k <= x < k + m && q == IdxToPageAddr(g, block, i, x);
      var y :| k + m <= y < k + m + n && q == IdxToPageAddr(g, block, i, y);
      AddressInjective(g, block, i, x, i, y);
    }
  }

  class SoundingAddressPageAllocator {
    const g: Geometry
    const os: VirtualMemory
    const pageBlockListStart: PageBlockDescriptor
    var pageBlockListCurrent: PageBlockDescriptor
    var indexHead: seq<PageBlockDescriptor>
    /** The descriptors in list order, and the state they stand for. */
    ghost var list: seq<PageBlockDescriptor>
    ghost var view: Pager
    ghost var nodes: set<PageBlockDescriptor>

    /** The reservations this allocator got from the operating system. */
    ghost function Owned(): set<Region>
      reads this`view
    {
      ReservationsOf(g, view)
    }

    ghost predicate ListOk()
      reads this, nodes
    {
      && 0 < |list| == |view.blocks| && list[0] == pageBlockListStart
      && (forall j :: 0 <= j < |list| ==> list[j] in nodes)
      && (forall i, j :: 0 <= i < j < |list| ==> list[i] != list[j])
      && (forall j {:trigger NodeOk(list, view.blocks, j)} :: 0 <= j < |list| ==> NodeOk(list, view.blocks, j))
      && pageBlockListCurrent == list[|list| - 1]
      && |indexHead| == |view.head|
      && (forall i :: 0 <= i < |indexHead| ==> view.head[i] < |list| && indexHead[i] == list[view.head[i]])
    }

    ghost predicate Valid()
      reads this, nodes, os
    {
      && ListOk()
      && os.Valid()
      && Inv(g, view)
      && Owned() <= os.regions
      && CommittedIs(g, view, os.committed)
    }

    /** What others do with other regions does not matter here. */
    twostate lemma StillValid()
      requires old(Valid()) && unchanged(this) && unchanged(nodes)
      requires os.Valid() && Owned() <= os.regions
      requires OthersCommitted(old(os.regions), os.regions, old(os.committed), os.committed)
      ensures Valid()
    {
      SameReserved(g, view, old(os.regions), os.regions, old(os.committed), os.committed);
    }

    constructor (g: Geometry, os: VirtualMemory)
      requires g.Valid() && os.Valid()
      ensures Valid() && view == Initial(g) && Grouped(g, view) && Owned() == {}
      ensures this.g == g && this.os == os && fresh(nodes)
    {
      var full := seq(g.BucketCnt(), i => g.PagesPerBucket());
      var start := new PageBlockDescriptor(0, full, full);
      this.g, this.os := g, os;
      pageBlockListStart, pageBlockListCurrent := start, start;
      indexHead := seq(g.BucketCnt(), i => start);
      list, view, nodes := [start], Initial(g), {start};
      new;
      InitialInv(g);
      InitialGrouped(g);
    }

    /** The run-merging loop (lines 285-306): exactly the pages asked for are committed, each once,
        in at most two calls. */
    method CommitRangeOfPageIndexes(block: nat, bucketIdx: nat, pageIdx: nat, rangeSize: nat)
      requires g.Valid() && block % PAGE_SIZE == 0 && bucketIdx < g.BucketCnt()
      requires 0 < rangeSize && pageIdx + rangeSize <= g.PagesPerBucket()
      requires os.Valid() && Region(block, g.ReservationSize()) in os.regions
      requires RangePages(g, block, bucketIdx, pageIdx, rangeSize) !! os.committed
      modifies os`committed, os`commits, os`data
      ensures os.Valid() && DataKept(old(os.committed), old(os.data), os.data)
      ensures os.committed == old(os.committed) + RangePages(g, block, bucketIdx, pageIdx, rangeSize)
      ensures 1 <= os.commits - old(os.commits) <= 2
    {
      hide IdxToPageAddr, RowOk;
      ghost var before, data0 := os.committed, os.data;
      var start: nat := IdxToPageAddr(g, block, bucketIdx, pageIdx);
      var prevNext: nat := start;
      ghost var first := pageIdx;
      FirstInRow(g, block, bucketIdx, pageIdx);
      for i := 1 to rangeSize
        invariant pageIdx <= first < pageIdx + i && os.Valid()
        invariant RowOk(g, block, bucketIdx, first, pageIdx + i, start, prevNext)
        invariant DataKept(before, data0, os.data)
        invariant os.committed == before + RangePages(g, block, bucketIdx, pageIdx, first - pageIdx)
        invariant if os.commits == old(os.commits) then first == pageIdx
                  else os.commits == old(os.commits) + 1 && WrapsAt(g, block, bucketIdx, first)
      {
        var next: nat := IdxToPageAddr(g, block, bucketIdx, pageIdx + i);
        NextInRow(g, block, bucketIdx, first, pageIdx + i, start, prevNext);
        if next - prevNext == PAGE_SIZE {
          prevNext := next;
        } else {
          CommitRun(block, bucketIdx, pageIdx, first, pageIdx + i, rangeSize, start, prevNext, before, data0);
          start, prevNext, first := next, next, pageIdx + i;
        }
      }
      CommitRun(block, bucketIdx, pageIdx, first, pageIdx + rangeSize, rangeSize, start, prevNext, before, data0);
    }

    /** One CommitMemory call, for the run from page `first` up to page `end`. */
    method CommitRun(block: nat, bucketIdx: nat, ghost pageIdx: nat, ghost first: nat, ghost end: nat,
                     ghost rangeSize: nat,
                     start: nat, prevNext: nat, ghost before: set<nat>, ghost data0: map<nat, nat>)
      requires g.Valid() && block % PAGE_SIZE == 0 && bucketIdx < g.BucketCnt()
      requires pageIdx <= first < end <= pageIdx + rangeSize <= g.PagesPerBucket()
      requires RowOk(g, block, bucketIdx, first, end, start, prevNext)
      requires os.Valid() && Region(block, g.ReservationSize()) in os.regions
      requires RangePages(g, block, bucketIdx, pageIdx, rangeSize) !! before && DataKept(before, data0, os.data)
      requires os.committed == before + RangePages(g, block, bucketIdx, pageIdx, first - pageIdx)
      modifies os`committed, os`commits, os`data
      ensures os.Valid() && DataKept(before, data0, os.data)
      ensures os.committed == before + RangePages(g, block, bucketIdx, pageIdx, end - pageIdx)
      ensures os.commits == old(os.commits) + 1
    {
      ghost var data1, pages := os.data, PagesIn(start, prevNext - start + PAGE_SIZE);
      RunFacts(g, block, bucketIdx, pageIdx, first, end, rangeSize, start, prevNext, before, os.regions);
      os.CommitMemory(start, prevNext - start + PAGE_SIZE);
      ErasedKeeps(data1, pages, before);
      DataKeptTransitive(before, data0, data1, os.data);
    }

    /** Update the cursors of bucket idx in the descriptor at position j of the list. */
    method SetCursors(d: PageBlockDescriptor, ghost j: nat, idx: nat, use: nat, commit: nat)
      requires ListOk() && j < |list| && d == list[j]
      requires idx < |view.blocks[j].nextToUse| && idx < |view.blocks[j].nextToCommit|
      modifies d, this`view
      ensures ListOk()
      ensures view == old(view).(blocks := old(view).blocks[j := Block(d.blockAddress,
                old(view).blocks[j].nextToUse[idx := use], old(view).blocks[j].nextToCommit[idx := commit])])
      ensures d.blockAddress == old(d.blockAddress)
    {
      ghost var l := list;
      assert NodeOk(l, view.blocks, j);
      assert forall k :: 0 <= k < |l| && l[k] == d ==> k == j;
      d.nextToUse := d.nextToUse[idx := use];
      d.nextToCommit := d.nextToCommit[idx := commit];
      view := view.(blocks := view.blocks[j := d.Value()]);
      forall k | 0 <= k < |l| ensures NodeOk(l, view.blocks, k) {
        assert old(NodeOk(l, view.blocks, k));
        if k != j { assert l[k].Value() == old(l[k].Value()); }
      }
    }

    /** createNextBlockAndGetPage up to its commit (lines 202-212): a new reservation at the end of
        the list. */
    method AppendBlock(addr: nat, use: seq<nat>, commit: seq<nat>)
      requires ListOk()
      modifies this`list, this`nodes, this`view, this`pageBlockListCurrent, pageBlockListCurrent
      ensures ListOk() && fresh(pageBlockListCurrent) && list == old(list) + [pageBlockListCurrent]
      ensures nodes == old(nodes) + {pageBlockListCurrent}
      ensures view == old(view).(blocks := old(view).blocks + [Block(addr, use, commit)])
    {
      var pb := new PageBlockDescriptor(addr, use, commit);
      ghost var n := |list|;
      assert forall j :: 0 <= j < n ==> list[j] != pb;
      assert forall j :: 0 <= j < n - 1 ==> list[j] != list[n - 1];
      pageBlockListCurrent.next := pb;
      pageBlockListCurrent := pb;
      list, nodes, view := list + [pb], nodes + {pb}, view.(blocks := view.blocks + [Block(addr, use, commit)]);
      assert list[n] == pb && forall j :: 0 <= j < n ==> list[j] == old(list)[j];
      forall j | 0 <= j < |list| ensures NodeOk(list, view.blocks, j) {
        if j < n {
          assert old(NodeOk(list, view.blocks, j));
          assert list[j].Value() == old(list[j].Value());
        }
      }
    }

    method SetHead(idx: nat, d: PageBlockDescriptor, ghost h: nat)
      requires ListOk() && idx < |indexHead| && h < |list| && d == list[h]
      modifies this`indexHead, this`view
      ensures ListOk() && indexHead == old(indexHead)[idx := d]
      ensures view == old(view).(head := old(view).head[idx := h])
    {
      indexHead := indexHead[idx := d];
      view := view.(head := view.head[idx := h]);
    }

    /** The commit, if due, that precedes handing out a page of the head (lines 315-319). */
    method CommitIfDue(d: PageBlockDescriptor, idx: nat) returns (commit: nat)
      requires HeadReady(g, view, idx) && d.Value() == view.blocks[view.head[idx]]
      requires os.Valid() && Owned() <= os.regions && CommitOf(g, view, idx, 0) !! os.committed
      modifies os`committed, os`commits, os`data
      ensures var b := view.blocks[view.head[idx]];
              commit == if b.nextToUse[idx] == b.nextToCommit[idx] then b.nextToCommit[idx] + g.CommitPages()
                        else b.nextToCommit[idx]
      ensures os.Valid() && DataKept(old(os.committed), old(os.data), os.data)
      ensures os.committed == old(os.committed) + CommitOf(g, view, idx, 0)
    {
      commit := d.nextToCommit[idx];
      assert d.nextToUse[idx] <= commit;
      if d.nextToUse[idx] == commit {
        assert Region(d.blockAddress, g.ReservationSize()) in Owned();
        CommitRangeOfPageIndexes(d.blockAddress, idx, commit, g.CommitPages());
        commit := commit + g.CommitPages();
      }
    }

    /** The head still has pages (lines 312-326). */
    method PageFromHead(idx: nat) returns (ret: nat)
      requires ListOk() && HeadReady(g, view, idx)
      requires os.Valid() && Owned() <= os.regions && CommitOf(g, view, idx, 0) !! os.committed
      modifies indexHead[idx], this`view, os`committed, os`commits, os`data
      ensures ListOk() && os.Valid() && DataKept(old(os.committed), old(os.data), os.data)
      ensures (view, ret) == FromHead(g, old(view), idx)
      ensures os.committed == old(os.committed) + CommitOf(g, old(view), idx, 0)
    {
      ghost var s, h := view, view.head[idx];
      var d := indexHead[idx];
      assert NodeOk(list, s.blocks, h);
      var commit := CommitIfDue(d, idx);
      var use := d.nextToUse[idx];
      ret := IdxToPageAddr(g, d.blockAddress, idx, use);
      assert use + 1 <= commit;
      SetCursors(d, h, idx, use + 1, commit);
    }

    /** The last reservation is used up for the bucket: get another (lines 198-222 and 327-335). */
    method PageFromNewBlock(idx: nat) returns (ret: nat, addr: nat)
      requires ListOk() && NewBlockReady(g, view, idx) && os.Valid() && 0 < g.ReservationSize()
      requires forall a: nat :: FreshRegionAt(os.regions, a, g.ReservationSize()) ==>
                 CommitOf(g, view, idx, a) !! os.committed
      modifies this`list, this`nodes, this`view, this`pageBlockListCurrent, this`indexHead, pageBlockListCurrent, os
      ensures ListOk() && os.Valid() && fresh(nodes - old(nodes))
      ensures DataKept(old(os.committed), old(os.data), os.data)
      ensures FreshRegionAt(old(os.regions), addr, g.ReservationSize())
      ensures os.regions == old(os.regions) + {Region(addr, g.ReservationSize())}
      ensures (view, ret) == FromNewBlock(g, old(view), idx, addr)
      ensures os.committed == old(os.committed) + CommitOf(g, old(view), idx, addr)
    {
      assert indexHead[idx] == pageBlockListCurrent;
      addr := os.Allocate(g.ReservationSize());
      ret := IdxToPageAddr(g, addr, idx, 0);
      CommitRangeOfPageIndexes(addr, idx, 0, g.CommitPages());
      AppendBlock(addr, Zeros(g.BucketCnt())[idx := 1], Zeros(g.BucketCnt())[idx := g.CommitPages()]);
      SetHead(idx, pageBlockListCurrent, |view.blocks| - 1);
      assert NodeOk(list, view.blocks, |list| - 1);
      assert indexHead[idx].next == null;
    }

    /** The next reservation is used by the bucket for the first time (lines 336-357). */
    method PageFromNextBlock(idx: nat) returns (ret: nat)
      requires ListOk() && NextBlockReady(g, view, idx)
      requires os.Valid() && Owned() <= os.regions && CommitOf(g, view, idx, 0) !! os.committed
      modifies this`view, this`indexHead, nodes, os`committed, os`commits, os`data
      ensures ListOk() && os.Valid() && DataKept(old(os.committed), old(os.data), os.data)
      ensures (view, ret) == FromNextBlock(g, old(view), idx)
      ensures os.committed == old(os.committed) + CommitOf(g, old(view), idx, 0)
    {
      ghost var h := view.head[idx] + 1;
      assert NodeOk(list, view.blocks, h - 1) && NodeOk(list, view.blocks, h);
      var d := indexHead[idx].next;
      assert d != null && d == list[h];
      assert d.blockAddress != 0;
      assert d.nextToUse[idx] == 0 && d.nextToCommit[idx] == 0;
      assert Region(d.blockAddress, g.ReservationSize()) in Owned();
      CommitRangeOfPageIndexes(d.blockAddress, idx, 0, g.CommitPages());
      ret := IdxToPageAddr(g, d.blockAddress, idx, d.nextToUse[idx]);
      SetCursors(d, h, idx, 1, g.CommitPages());
      SetHead(idx, d, h);
    }

    /** The three cases of getPage (lines 308-358). */
    method TakePage(idx: nat) returns (ret: nat, ghost osAddr: nat)
      requires ListOk() && os.Valid() && Owned() <= os.regions && GetReady(g, view, idx)
      requires !NeedsReservation(g, view, idx) ==> CommitOf(g, view, idx, 0) !! os.committed
      requires forall a: nat :: FreshRegionAt(os.regions, a, g.ReservationSize()) ==>
                 CommitOf(g, view, idx, a) !! os.committed
      modifies this, nodes, os
      ensures ListOk() && os.Valid() && fresh(nodes - old(nodes))
      ensures DataKept(old(os.committed), old(os.data), os.data)
      ensures (view, ret) == PagerSpec.GetPage(g, old(view), idx, osAddr)
      ensures os.committed == old(os.committed) + CommitOf(g, old(view), idx, osAddr)
      ensures if NeedsReservation(g, old(view), idx) then
                FreshRegionAt(old(os.regions), osAddr, g.ReservationSize())
                && os.regions == old(os.regions) + {Region(osAddr, g.ReservationSize())}
              else os.regions == old(os.regions)
    {
      osAddr := 0;
      var d := indexHead[idx];
      assert NodeOk(list, view.blocks, view.head[idx]);
      if d.nextToUse[idx] < g.PagesPerBucket() {
        ret := PageFromHead(idx);
      } else if d.next == null {
        ret, osAddr := PageFromNewBlock(idx);
      } else {
        ret := PageFromNextBlock(idx);
      }
    }

    /** getPage: a page nobody has, committed, with the bucket in its address; no page that was committed
        before loses its contents. */
    method GetPage(idx: nat) returns (ret: nat, ghost osAddr: nat)
      requires Valid() && idx < g.BucketCnt()
      modifies this, nodes, os
      ensures Valid() && fresh(nodes - old(nodes))
      ensures NeedsReservation(g, old(view), idx) ==> FreshReservation(g, old(view), osAddr)
      ensures NeedsReservation(g, old(view), idx) ==> FreshRegionAt(old(os.regions), osAddr, g.ReservationSize())
      ensures (view, ret) == PagerSpec.GetPage(g, old(view), idx, osAddr)
      ensures ret in os.committed && old(os.committed) <= os.committed
      ensures DataKept(old(os.committed), old(os.data), os.data)
      ensures os.regions - Owned() == old(os.regions - Owned())
    {
      ghost var s, regions, committed := view, os.regions, os.committed;
      IsReady(g, s, idx);
      CommitsAreNew(g, s, idx, regions, committed);
      ret, osAddr := TakePage(idx);
      if NeedsReservation(g, s, idx) { FreshForPager(g, s, regions, osAddr); }
      PagerAfter(g, s, idx, osAddr, regions, committed);
      OwnedAfter(g, s, idx, osAddr, regions);
    }

    /** The pages taken so far for a group that started in state s. */
    ghost predicate Taking(s: Pager, idx: nat, osAddr: nat, qs: seq<nat>)
      reads this, nodes, os
    {
      && Valid() && Inv(g, s) && Grouped(g, s) && idx < g.BucketCnt()
      && (NeedsReservation(g, s, idx) ==> FreshReservation(g, s, osAddr))
      && 1 <= |qs| <= g.MultipagePages()
      && (view, qs) == GetPages(g, s, idx, osAddr, |qs|)
    }

    /** One more page of the group. */
    method NextPage(idx: nat, ghost s: Pager, ghost osAddr: nat, ghost qs: seq<nat>) returns (ret: nat)
      requires Taking(s, idx, osAddr, qs) && |qs| < g.MultipagePages()
      modifies this, nodes, os
      ensures Taking(s, idx, osAddr, qs + [ret]) && fresh(nodes - old(nodes))
      ensures os.regions - Owned() == old(os.regions - Owned())
      ensures ret != 0
      ensures var q := qs + [ret]; var m := RunLength(q, 0); m < |q| ==> m + RunLength(q, m) == |q|
    {
      ghost var v := view;
      ghost var a: nat;
      ret, a := GetPage(idx);
      NextTaken(g, s, idx, osAddr, v, qs, a);
    }

    /** The first loop of getMultipage (lines 377-386): pages as long as they follow each other.
        When it stops early, nextPage is the page that did not. */
    method FirstRun(idx: nat, ptr1: nat, ghost s: Pager, ghost osAddr: nat)
      returns (i: nat, sz1: nat, nextPage: nat, ghost qs: seq<nat>)
      requires Taking(s, idx, osAddr, [ptr1])
      modifies this, nodes, os
      ensures Taking(s, idx, osAddr, qs) && fresh(nodes - old(nodes))
      ensures os.regions - Owned() == old(os.regions - Owned())
      ensures 1 <= i <= g.MultipagePages() && sz1 == i * PAGE_SIZE && qs[0] == ptr1 && RunLength(qs, 0) == i
      ensures if i == g.MultipagePages() then |qs| == i else |qs| == i + 1 && qs[i] == nextPage != 0
    {
      hide Taking, Grouped;
      qs := [ptr1];
      nextPage, i, sz1 := 0, 1, PAGE_SIZE;
      while i < g.MultipagePages()
        invariant 1 <= i <= g.MultipagePages() && |qs| == i && qs[0] == ptr1 && sz1 == i * PAGE_SIZE
        invariant Taking(s, idx, osAddr, qs) && fresh(nodes - old(nodes))
        invariant os.regions - Owned() == old(os.regions - Owned())
        invariant forall k :: 0 <= k < i ==> qs[k] == ptr1 + k * PAGE_SIZE
      {
        nextPage := NextPage(idx, s, osAddr, qs);
        qs := qs + [nextPage];
        if ptr1 + sz1 == nextPage {
          sz1 := sz1 + PAGE_SIZE;
        } else {
          RunLengthIs(qs, 0, i);
          return;
        }
        i := i + 1;
      }
      RunLengthIs(qs, 0, i);
    }

    /** The second loop (lines 396-404): it always gets to the end of the group. */
    method SecondRun(idx: nat, m: nat, ghost s: Pager, ghost osAddr: nat, ghost qs0: seq<nat>, ptr2: nat)
      returns (sz2: nat, ghost qs: seq<nat>)
      requires Taking(s, idx, osAddr, qs0) && 1 <= m && |qs0| == m + 1 && qs0[m] == ptr2 && RunLength(qs0, 0) == m
      modifies this, nodes, os
      ensures Taking(s, idx, osAddr, qs) && fresh(nodes - old(nodes))
      ensures os.regions - Owned() == old(os.regions - Owned())
      ensures |qs| == g.MultipagePages() && qs[..m + 1] == qs0
      ensures RunLength(qs, 0) == m && RunLength(qs, m) == |qs| - m && sz2 == (|qs| - m) * PAGE_SIZE
    {
      hide Valid, Shape, RunLength;
      qs := qs0;
      var i := m + 1;
      sz2 := PAGE_SIZE;
      while i < g.MultipagePages()
        invariant m < i <= g.MultipagePages() && |qs| == i && qs[..m + 1] == qs0 && sz2 == (i - m) * PAGE_SIZE
        invariant Taking(s, idx, osAddr, qs) && fresh(nodes - old(nodes))
        invariant os.regions - Owned() == old(os.regions - Owned())
        invariant forall k :: m <= k < i ==> qs[k] == ptr2 + (k - m) * PAGE_SIZE
      {
        var nextPage := NextPage(idx, s, osAddr, qs);
        ghost var before := qs;
        qs := qs + [nextPage];
        SamePrefixRun(qs0, qs, m);
        assert qs[m] == before[m];
        assert qs[i] == qs[m] + (i - m) * PAGE_SIZE;
        if ptr2 + sz2 == nextPage {
          sz2 := sz2 + PAGE_SIZE;
        } else {
          assert false;
        }
        i := i + 1;
      }
      SamePrefixRun(qs0, qs, m);
      RunLengthIs(qs, m, i - m);
    }

    /** getMultipage after its first page (lines 376-406). */
    method Collect(idx: nat, ptr1: nat, ghost s: Pager, ghost osAddr: nat)
      returns (mpData: MultipageData, ghost qs: seq<nat>)
      requires Taking(s, idx, osAddr, [ptr1])
      modifies this, nodes, os
      ensures Taking(s, idx, osAddr, qs) && fresh(nodes - old(nodes))
      ensures |qs| == g.MultipagePages() && mpData == Segments(qs)
      ensures mpData.sz1 + mpData.sz2 == g.MultipagePages() * PAGE_SIZE
      ensures os.regions - Owned() == old(os.regions - Owned())
    {
      hide Inv;
      var i, sz1, nextPage;
      i, sz1, nextPage, qs := FirstRun(idx, ptr1, s, osAddr);
      if i == g.MultipagePages() {
        mpData := MultipageData(ptr1, sz1, 0, 0);
      } else {
        var ptr2, sz2 := nextPage, 0;
        ghost var qs0 := qs;
        sz2, qs := SecondRun(idx, i, s, osAddr, qs, ptr2);
        mpData := MultipageData(ptr1, sz1, ptr2, sz2);
        assert qs[0] == qs[..i + 1][0] && qs[i] == qs[..i + 1][i];
      }
    }

    method FirstPage(idx: nat) returns (ptr1: nat, ghost osAddr: nat)
      requires Valid() && Grouped(g, view) && idx < g.BucketCnt()
      modifies this, nodes, os
      ensures Taking(old(view), idx, osAddr, [ptr1]) && fresh(nodes - old(nodes))
      ensures NeedsReservation(g, old(view), idx) ==> FreshRegionAt(old(os.regions), osAddr, g.ReservationSize())
      ensures os.regions - Owned() == old(os.regions - Owned())
    {
      ghost var s := view;
      ptr1, osAddr := GetPage(idx);
      FirstTaken(g, s, idx, osAddr);
    }

    /** getMultipage (lines 360-407). */
    method GetMultipage(idx: nat) returns (mpData: MultipageData, ghost osAddr: nat)
      requires Valid() && Grouped(g, view) && idx < g.BucketCnt()
      modifies this, nodes, os
      ensures Valid() && Grouped(g, view) && fresh(nodes - old(nodes))
      ensures NeedsReservation(g, old(view), idx) ==> FreshReservation(g, old(view), osAddr)
      ensures NeedsReservation(g, old(view), idx) ==> FreshRegionAt(old(os.regions), osAddr, g.ReservationSize())
      ensures (view, mpData) == Multipage.GetMultipage(g, old(view), idx, osAddr)
      ensures SegmentsOk(mpData, GetPages(g, old(view), idx, osAddr, g.MultipagePages()).1)
      ensures os.regions - Owned() == old(os.regions - Owned())
    {
      hide Inv;
      ghost var s := view;
      var ptr1;
      ptr1, osAddr := FirstPage(idx);
      ghost var qs;
      mpData, qs := Collect(idx, ptr1, s, osAddr);
      GetMultipageKeeps(g, s, idx, osAddr);
    }

    /** deinitialize (lines 415-432): every reservation goes back, once, and the lists are reset. */
    method Deinitialize()
      requires Valid()
      modifies this, pageBlockListStart, os`regions, os`committed
      ensures Valid() && view == Initial(g) && Grouped(g, view) && Owned() == {}
      ensures os.regions == old(os.regions) - old(Owned())
      ensures OthersCommitted(old(os.regions), os.regions, old(os.committed), os.committed)
    {
      ReleaseReservations();
      ResetLists();
      InitialInv(g);
      InitialGrouped(g);
    }

    method ReleaseReservations()
      requires Valid()
      modifies os`regions, os`committed
      ensures os.Valid() && os.regions == old(os.regions) - Owned()
      ensures OthersCommitted(old(os.regions), os.regions, old(os.committed), os.committed)
    {
      ghost var s, l := view, list;
      ghost var j := 1;
      ReleaseFacts(g, s, os.regions);
      assert NodeOk(l, s.blocks, 0);
      var next := pageBlockListStart.next;
      while next != null
        invariant 1 <= j <= |l| && next == (if j < |l| then l[j] else null)
        invariant os.Valid() && os.regions == old(os.regions) - Released(g, s, j)
        invariant OthersCommitted(old(os.regions), os.regions, old(os.committed), os.committed)
        decreases |l| - j
      {
        assert NodeOk(l, s.blocks, j);
        assert ReleaseOk(g, s, old(os.regions), j);
        assert next.blockAddress != 0;
        os.Deallocate(next.blockAddress, g.ReservationSize());
        next := next.next;
        j := j + 1;
      }
    }

    /** resetLists (lines 224-236) */
    method ResetLists()
      modifies this, pageBlockListStart
      ensures ListOk() && view == Initial(g)
    {
      var full := seq(g.BucketCnt(), i => g.PagesPerBucket());
      var start := pageBlockListStart;
      start.blockAddress, start.nextToUse, start.nextToCommit, start.next := 0, full, full, null;
      pageBlockListCurrent := start;
      indexHead := seq(g.BucketCnt(), i => start);
      list, view, nodes := [start], Initial(g), {start};
    }
  }

  /** The reservations of the first j descriptors. */
  ghost function Released(g: Geometry, s: Pager, j: nat): set<Region>
    requires j <= |s.blocks|
  {
    set k | 1 <= k < j :: Region(s.blocks[k].addr, g.ReservationSize())
  }

  /** The reservation of descriptor j is still there when its turn comes. */
  ghost predicate ReleaseOk(g: Geometry, s: Pager, regions: set<Region>, j: nat)
    requires j < |s.blocks|
  {
    var r := Region(s.blocks[j].addr, g.ReservationSize());
    && s.blocks[j].addr != 0
    && r in regions - Released(g, s, j)
    && (regions - Released(g, s, j)) - {r} == regions - Released(g, s, j + 1)
  }

  lemma ReleaseFacts(g: Geometry, s: Pager, regions: set<Region>)
    requires Inv(g, s) && ReservationsOf(g, s) <= regions
    ensures forall j :: 1 <= j < |s.blocks| ==> ReleaseOk(g, s, regions, j)
    ensures regions - Released(g, s, 1) == regions && Released(g, s, |s.blocks|) == ReservationsOf(g, s)
    ensures g.ReservationSize() % PAGE_SIZE == 0
  {
    RingIsBucketsTimesPages(g);
    assert Released(g, s, 1) == {};
    forall j | 1 <= j < |s.blocks| ensures ReleaseOk(g, s, regions, j) {
      forall k | 1 <= k < j ensures s.blocks[k].addr != s.blocks[j].addr {
        assert ApartBlocks(g, s.blocks[k].addr, s.blocks[j].addr);
      }
      assert Released(g, s, j + 1) == Released(g, s, j) + {Region(s.blocks[j].addr, g.ReservationSize())};
      assert Region(s.blocks[j].addr, g.ReservationSize()) in ReservationsOf(g, s);
    }
  }

  lemma FirstTaken(g: Geometry, s: Pager, idx: nat, osAddr: nat)
    requires g.Valid() && Shape(g, s) && idx < g.BucketCnt()
    ensures var (s', q) := PagerSpec.GetPage(g, s, idx, osAddr); GetPages(g, s, idx, osAddr, 1) == (s', [q])
    ensures 1 <= g.MultipagePages()
  {
    var q := PagerSpec.GetPage(g, s, idx, osAddr).1;
    assert GetPages(g, s, idx, osAddr, 0) == (s, []);
    assert [] + [q] == [q];
  }

  lemma SamePrefixRun(qs0: seq<nat>, qs: seq<nat>, m: nat)
    requires 1 <= m < |qs0| <= |qs| && qs[..m + 1] == qs0[..m + 1] && RunLength(qs0, 0) == m
    ensures RunLength(qs, 0) == m && qs[m] == qs0[m]
  {
    assert forall k :: 0 <= k <= m ==> qs[k] == qs[..m + 1][k] == qs0[k];
    RunLengthIs(qs, 0, m);
  }

  ghost predicate GetReady(g: Geometry, s: Pager, idx: nat) {
    && Shape(g, s) && idx < g.BucketCnt() && g.ReservationSize() > 0
    && if s.blocks[s.head[idx]].nextToUse[idx] < g.PagesPerBucket() then HeadReady(g, s, idx)
       else if NeedsReservation(g, s, idx) then NewBlockReady(g, s, idx)
       else NextBlockReady(g, s, idx)
  }

  lemma IsReady(g: Geometry, s: Pager, idx: nat)
    requires Inv(g, s) && idx < g.BucketCnt()
    ensures GetReady(g, s, idx)
  {
    HeadUsedUp(g, s, idx);
    if s.blocks[s.head[idx]].nextToUse[idx] < g.PagesPerBucket() {
      HeadIsReady(g, s, idx);
    } else {
      NextIsReady(g, s, idx);
    }
  }

  /** The address lies in one of the reservations. */
  ghost predicate Reserved(g: Geometry, s: Pager, q: nat) {
    exists j {:trigger s.blocks[j]} ::
      1 <= j < |s.blocks| && s.blocks[j].addr <= q < s.blocks[j].addr + g.ReservationSize()
  }

  /** Of the reservations exactly the pages below the commit cursors are committed. */
  ghost predicate CommittedIs(g: Geometry, s: Pager, committed: set<nat>) {
    forall q :: Reserved(g, s, q) ==> (q in committed <==> exists i :: Committed(g, s, i, q))
  }

  lemma CommittedReserved(g: Geometry, s: Pager, i: nat, q: nat)
    requires Inv(g, s) && Committed(g, s, i, q)
    ensures Reserved(g, s, q)
  {
    var j, k :| 1 <= j < |s.blocks| && 0 <= k < s.blocks[j].nextToCommit[i] && PageAt(g, s, j, i, k) == q;
    assert OrderOk(g, s, j, i);
    InReservation(g, s, j, i, k);
  }

  lemma SameReserved(g: Geometry, s: Pager, regions: set<Region>, regions': set<Region>, committed: set<nat>,
                     committed': set<nat>)
    requires CommittedIs(g, s, committed) && ReservationsOf(g, s) <= regions && ReservationsOf(g, s) <= regions'
    requires OthersCommitted(regions, regions', committed, committed')
    ensures CommittedIs(g, s, committed')
  {
    forall q: nat | Reserved(g, s, q) ensures q in committed' <==> q in committed {
      var j :| 1 <= j < |s.blocks| && s.blocks[j].addr <= q < s.blocks[j].addr + g.ReservationSize();
      assert Region(s.blocks[j].addr, g.ReservationSize()) in ReservationsOf(g, s);
    }
  }

  /** What is committed lies in regions the operating system has given out. */
  ghost predicate InRegions(regions: set<Region>, committed: set<nat>) {
    forall q :: q in committed ==> Mapped(regions, q)
  }

  lemma FreshNotCommitted(g: Geometry, regions: set<Region>, committed: set<nat>, a: nat, q: nat)
    requires InRegions(regions, committed) && FreshRegionAt(regions, a, g.ReservationSize())
    requires a <= q < a + g.ReservationSize()
    ensures q !in committed
  {
    forall r | r in regions ensures !(r.start <= q < r.start + r.size) {
      assert DisjointRegions(r, Region(a, g.ReservationSize()));
    }
  }

  lemma CommitReserved(g: Geometry, s: Pager, idx: nat, osAddr: nat, q: nat)
    requires Inv(g, s) && idx < g.BucketCnt() && (NeedsReservation(g, s, idx) ==> FreshReservation(g, s, osAddr))
    requires q in CommitOf(g, s, idx, osAddr)
    ensures NeedsReservation(g, s, idx) ==> osAddr <= q < osAddr + g.ReservationSize()
    ensures !NeedsReservation(g, s, idx) ==> Reserved(g, s, q)
  {
    GetPageTakes(g, s, idx, osAddr);
    GetPageCommits(g, s, idx, osAddr);
    var s' := PagerSpec.GetPage(g, s, idx, osAddr).0;
    HeadUsedUp(g, s, idx);
    if NeedsReservation(g, s, idx) {
      CommitDividesBucket(g);
      RangeMapped(g, osAddr, idx, 0, g.CommitPages(), {Region(osAddr, g.ReservationSize())});
    } else {
      CommittedReserved(g, s', idx, q);
      assert |s'.blocks| == |s.blocks|;
    }
  }

  /** Whatever address the operating system would give, the commit of the next getPage touches
      nothing committed. */
  lemma CommitsAreNew(g: Geometry, s: Pager, idx: nat, regions: set<Region>, committed: set<nat>)
    requires Inv(g, s) && idx < g.BucketCnt() && ReservationsOf(g, s) <= regions
    requires CommittedIs(g, s, committed) && InRegions(regions, committed)
    ensures !NeedsReservation(g, s, idx) ==> CommitOf(g, s, idx, 0) !! committed
    ensures forall a: nat :: FreshRegionAt(regions, a, g.ReservationSize()) ==> CommitOf(g, s, idx, a) !! committed
  {
    if !NeedsReservation(g, s, idx) { CommitIsNew(g, s, idx, 0, regions, committed); }
    forall a: nat | FreshRegionAt(regions, a, g.ReservationSize()) ensures CommitOf(g, s, idx, a) !! committed {
      CommitIsNew(g, s, idx, a, regions, committed);
    }
  }

  lemma CommitIsNew(g: Geometry, s: Pager, idx: nat, a: nat, regions: set<Region>, committed: set<nat>)
    requires Inv(g, s) && idx < g.BucketCnt() && ReservationsOf(g, s) <= regions
    requires CommittedIs(g, s, committed) && InRegions(regions, committed)
    requires NeedsReservation(g, s, idx) ==> FreshRegionAt(regions, a, g.ReservationSize())
    ensures CommitOf(g, s, idx, a) !! committed
  {
    if NeedsReservation(g, s, idx) { FreshForPager(g, s, regions, a); }
    GetPageCommits(g, s, idx, a);
    var range := CommitOf(g, s, idx, a);
    forall q | q in range ensures q !in committed {
      CommitReserved(g, s, idx, a, q);
      if NeedsReservation(g, s, idx) { FreshNotCommitted(g, regions, committed, a, q); }
    }
  }

  /** The state after a getPage, for the committed pages. */
  lemma PagerAfter(g: Geometry, s: Pager, idx: nat, osAddr: nat, regions: set<Region>, committed: set<nat>)
    requires Inv(g, s) && idx < g.BucketCnt() && CommittedIs(g, s, committed) && InRegions(regions, committed)
    requires ReservationsOf(g, s) <= regions
    requires NeedsReservation(g, s, idx) ==> FreshRegionAt(regions, osAddr, g.ReservationSize())
    ensures var (s', q) := PagerSpec.GetPage(g, s, idx, osAddr);
            var committed' := committed + CommitOf(g, s, idx, osAddr);
            Inv(g, s') && CommittedIs(g, s', committed') && q in committed'
  {
    if NeedsReservation(g, s, idx) { FreshForPager(g, s, regions, osAddr); }
    GetPageKeeps(g, s, idx, osAddr);
    GetPageTakes(g, s, idx, osAddr);
    GetPageCommits(g, s, idx, osAddr);
    var (s', q) := PagerSpec.GetPage(g, s, idx, osAddr);
    var committed' := committed + CommitOf(g, s, idx, osAddr);
    forall x | Reserved(g, s', x) ensures x in committed' <==> exists i :: Committed(g, s', i, x) {
      AfterCommit(g, s, s', idx, osAddr, regions, committed, x);
    }
    CommittedReserved(g, s', idx, q);
  }

  lemma AfterCommit(g: Geometry, s: Pager, s': Pager, idx: nat, osAddr: nat, regions: set<Region>, committed: set<nat>,
                    x: nat)
    requires Inv(g, s) && idx < g.BucketCnt() && CommittedIs(g, s, committed) && InRegions(regions, committed)
    requires s' == PagerSpec.GetPage(g, s, idx, osAddr).0 && |s.blocks| <= |s'.blocks|
    requires forall j :: 0 <= j < |s.blocks| ==> s'.blocks[j].addr == s.blocks[j].addr
    requires forall i, r :: Committed(g, s', i, r) <==>
               Committed(g, s, i, r) || (i == idx && r in CommitOf(g, s, idx, osAddr))
    requires NeedsReservation(g, s, idx) ==> FreshRegionAt(regions, osAddr, g.ReservationSize())
    requires Reserved(g, s', x)
    ensures x in committed || x in CommitOf(g, s, idx, osAddr) <==> exists i :: Committed(g, s', i, x)
  {
    HeadUsedUp(g, s, idx);
    if Reserved(g, s, x) {
      if x in committed { var i :| Committed(g, s, i, x); assert Committed(g, s', i, x); }
    } else {
      var j :| 1 <= j < |s'.blocks| && s'.blocks[j].addr <= x < s'.blocks[j].addr + g.ReservationSize();
      FreshNotCommitted(g, regions, committed, osAddr, x);
      forall i: nat | Committed(g, s, i, x) ensures false { CommittedReserved(g, s, i, x); }
    }
    if x in CommitOf(g, s, idx, osAddr) { assert Committed(g, s', idx, x); }
  }

  /** The bucket is out of pages and its head is the last reservation. */
  ghost predicate NewBlockReady(g: Geometry, s: Pager, idx: nat) {
    && g.Valid() && Shape(g, s) && idx < g.BucketCnt() && 1 <= g.CommitPages() <= g.PagesPerBucket()
    && NeedsReservation(g, s, idx)
  }

  /** The bucket is out of pages in its head and has not touched the next reservation. */
  ghost predicate NextBlockReady(g: Geometry, s: Pager, idx: nat) {
    && g.Valid() && Shape(g, s) && idx < g.BucketCnt() && 1 <= g.CommitPages() <= g.PagesPerBucket()
    && s.head[idx] + 1 < |s.blocks| && s.blocks[s.head[idx]].nextToUse[idx] >= g.PagesPerBucket()
    && var b := s.blocks[s.head[idx] + 1];
    && b.addr != 0 && b.addr % PAGE_SIZE == 0 && b.nextToUse[idx] == 0 && b.nextToCommit[idx] == 0
  }

  lemma NextIsReady(g: Geometry, s: Pager, idx: nat)
    requires Inv(g, s) && idx < g.BucketCnt() && s.blocks[s.head[idx]].nextToUse[idx] >= g.PagesPerBucket()
    ensures NeedsReservation(g, s, idx) || NextBlockReady(g, s, idx)
    ensures 1 <= g.CommitPages() <= g.PagesPerBucket()
  {
    CommitDividesBucket(g);
    if s.head[idx] + 1 < |s.blocks| { assert OrderOk(g, s, s.head[idx] + 1, idx); }
  }

  /** The head of the bucket has a page left, and room to commit it. */
  ghost predicate HeadReady(g: Geometry, s: Pager, idx: nat) {
    && g.Valid() && Shape(g, s) && idx < g.BucketCnt() && g.CommitPages() >= 1
    && 1 <= s.head[idx]
    && var b := s.blocks[s.head[idx]];
    && b.addr % PAGE_SIZE == 0 && b.nextToUse[idx] < g.PagesPerBucket()
    && b.nextToUse[idx] <= b.nextToCommit[idx]
    && (b.nextToUse[idx] == b.nextToCommit[idx] ==> b.nextToCommit[idx] + g.CommitPages() <= g.PagesPerBucket())
  }

  lemma HeadIsReady(g: Geometry, s: Pager, idx: nat)
    requires Inv(g, s) && idx < g.BucketCnt() && s.blocks[s.head[idx]].nextToUse[idx] < g.PagesPerBucket()
    ensures HeadReady(g, s, idx)
  {
    var h := s.head[idx];
    assert OrderOk(g, s, h, idx);
    CommitDividesBucket(g);
    NextCommit(s.blocks[h].nextToCommit[idx], g.CommitPages(), g.PagesPerBucket());
  }
}
