/** CollectionInPages (src/iibmalloc/iibmalloc.h:67-154): a growing collection whose items lie in
    pages of their own, next to the links that list them. */
module CollectionInPagesClass {
  import opened Arith
  import opened Lists
  import opened VirtualMemoryModel

  /** How many list items a page holds. */
  function SlotCnt(itemSz: nat): (n: nat)
    requires 0 < itemSz <= PAGE_SIZE
    ensures n > 0 && n * itemSz <= PAGE_SIZE
  {
    Euclid(PAGE_SIZE, itemSz);
    MulMono(PAGE_SIZE / itemSz, 0, itemSz);
    PAGE_SIZE / itemSz
  }

  function Slot(page: nat, itemSz: nat, k: nat): nat {
    page + k * itemSz
  }

  function Slots(page: nat, itemSz: nat, n: nat): seq<nat> {
    seq(n, k requires 0 <= k => Slot(page, itemSz, k))
  }

  ghost predicate IsSlot(pages: set<nat>, itemSz: nat, a: nat)
    requires 0 < itemSz <= PAGE_SIZE
  {
    exists p, k: nat {:trigger Slot(p, itemSz, k)} :: p in pages && k < SlotCnt(itemSz) && a == Slot(p, itemSz, k)
  }

  lemma SlotInPage(page: nat, itemSz: nat, k: nat)
    requires 0 < itemSz <= PAGE_SIZE && k < SlotCnt(itemSz)
    ensures page <= Slot(page, itemSz, k) && Slot(page, itemSz, k) + itemSz <= page + PAGE_SIZE
    ensures k > 0 ==> Slot(page, itemSz, k) >= page + itemSz
    ensures Slot(page, itemSz, 0) == page
  {
    MulMono(k + 1, SlotCnt(itemSz), itemSz);
    MulDistrib(k, 1, itemSz);
    MulMono(1, k, itemSz);
  }

  lemma SlotsDistinct(page: nat, itemSz: nat, j: nat, k: nat)
    requires 0 < itemSz && j < k
    ensures Slot(page, itemSz, j) < Slot(page, itemSz, k)
  {
    MulMono(j + 1, k, itemSz);
    MulDistrib(j, 1, itemSz);
  }

  /** Only the first slot of a page is page aligned: how deinitialize finds the pages. */
  lemma AlignedSlotIsPage(page: nat, itemSz: nat, k: nat)
    requires 0 < itemSz <= PAGE_SIZE && k < SlotCnt(itemSz) && page % PAGE_SIZE == 0
    ensures Slot(page, itemSz, k) % PAGE_SIZE == 0 <==> k == 0
  {
    SlotInPage(page, itemSz, k);
    if k > 0 { InsidePage(page, Slot(page, itemSz, k)); }
  }

  lemma InsidePage(page: nat, a: nat)
    requires page % PAGE_SIZE == 0 && page < a < page + PAGE_SIZE
    ensures a % PAGE_SIZE != 0
  {}

  /** The page starts among the nodes of a list, last first. */
  ghost function PageStarts(l: seq<nat>): seq<nat> {
    if l == [] then []
    else PageStarts(l[1..]) + if l[0] % PAGE_SIZE == 0 then [l[0]] else []
  }

  lemma PageStartsStep(rest: seq<nat>, done: seq<nat>)
    requires rest != []
    ensures PageStarts(rest) + done
         == PageStarts(rest[1..]) + if rest[0] % PAGE_SIZE == 0 then [rest[0]] + done else done
  {}

  lemma {:induction false} PageStartsIn(l: seq<nat>)
    ensures forall a :: a in PageStarts(l) <==> a in l && a % PAGE_SIZE == 0
    ensures Distinct(l) ==> Distinct(PageStarts(l))
  {
    if l != [] {
      PageStartsIn(l[1..]);
      assert forall a :: a in l <==> a == l[0] || a in l[1..];
      if Distinct(l) { assert l[0] !in l[1..]; }
    }
  }

  /** A list without repetition has as many members as its set. */
  lemma {:induction false} DistinctSize(l: seq<nat>, s: set<nat>)
    requires Distinct(l) && forall a :: a in l <==> a in s
    ensures |l| == |s|
  {
    if l == [] {
      assert s == {};
    } else {
      assert l[0] in l && l[0] !in l[1..];
      assert forall a :: a in l <==> a == l[0] || a in l[1..];
      DistinctSize(l[1..], s - {l[0]});
    }
  }

  ghost function PageRegions(pages: set<nat>): set<Region> {
    set p | p in pages :: Region(p, PAGE_SIZE)
  }

  /** The list from head and the one from freeList partition the slots of the pages. */
  ghost predicate Partition(itemSz: nat, pages: set<nat>, next: map<nat, nat>, head: nat, used: seq<nat>,
                            freeList: nat, free: seq<nat>)
    requires 0 < itemSz <= PAGE_SIZE
  {
    && Linked(next, head, used) && Linked(next, freeList, free)
    && Distinct(used + free)
    && forall a :: a in used + free <==> IsSlot(pages, itemSz, a)
  }

  class CollectionInPages {
    const itemSz: nat
    const os: VirtualMemory
    var head: nat
    var freeList: nat
    var pageCnt: nat
    /** The words after the items, by which they are listed. */
    var next: map<nat, nat>
    /** The items in use, newest first, and the free ones; the pages they lie in. */
    ghost var used: seq<nat>
    ghost var free: seq<nat>
    ghost var pages: set<nat>

    /** The two lists partition the slots of all the pages. */
    ghost predicate Valid()
      reads this, os
    {
      && 0 < itemSz <= PAGE_SIZE
      && Partition(itemSz, pages, next, head, used, freeList, free)
      && pageCnt == |pages|
      && (forall p :: p in pages ==> 0 < p && p % PAGE_SIZE == 0)
      && os.Valid() && PageRegions(pages) <= os.regions
    }

    /** initialize */
    constructor (itemSz: nat, os: VirtualMemory)
      requires 0 < itemSz <= PAGE_SIZE && os.Valid()
      ensures Valid() && used == [] && pages == {} && this.itemSz == itemSz && this.os == os
    {
      this.itemSz, this.os := itemSz, os;
      head, freeList, pageCnt, next := 0, 0, 0, map[];
      used, free, pages := [], [], {};
    }

    /** A free list of all the slots of a page (lines 108-116). */
    method ThreadPage(page: nat)
      requires 0 < itemSz <= PAGE_SIZE
      modifies this`next
      ensures next == Threaded(old(next), Slots(page, itemSz, SlotCnt(itemSz)), 0)
    {
      ghost var next0, all := next, Slots(page, itemSz, SlotCnt(itemSz));
      var item := page;
      var itemCnt := SlotCnt(itemSz);
      assert Slot(page, itemSz, 0) == page;
      for i := 0 to itemCnt - 1
        invariant item == Slot(page, itemSz, i)
        invariant next == Threaded(next0, all[..i], item)
      {
        ThreadSlot(next0, page, itemSz, i, Slot(page, itemSz, i + 1));
        MulDistrib(i, 1, itemSz);
        next := next[item := item + itemSz];
        item := next[item];
      }
      ThreadSlot(next0, page, itemSz, itemCnt - 1, 0);
      next := next[item := 0];
      assert all[..itemCnt] == all;
    }

    /** A new page, all of it free (lines 104-117). */
    method AddPage()
      requires Valid() && freeList == 0
      modifies this`freeList, this`next, this`pageCnt, this`free, this`pages, os`regions
      ensures Valid() && freeList != 0 && freeList !in old(pages) && pages == old(pages) + {freeList}
      ensures free == Slots(freeList, itemSz, SlotCnt(itemSz))
      ensures os.regions == old(os.regions) + {Region(freeList, PAGE_SIZE)}
      ensures os.regions - PageRegions(pages) == old(os.regions - PageRegions(pages))
    {
      hide Partition, PageRegions;
      ghost var regions := os.regions;
      var page := os.Allocate(PAGE_SIZE);
      PagePartition(itemSz, pages, next, head, used, free, regions, page);
      freeList := page;
      pageCnt := pageCnt + 1;
      ThreadPage(page);
      free, pages := Slots(page, itemSz, SlotCnt(itemSz)), pages + {page};
    }

    /** createNew (lines 102-127): one more item in use, the first free one; if there is none, the first
        of one new page. The others stay where they are. */
    method CreateNew() returns (item: nat)
      requires Valid()
      modifies this, os`regions
      ensures Valid()
      ensures used == [item] + old(used) && item !in old(used) && IsSlot(pages, itemSz, item)
      ensures if old(freeList) != 0 then
                old(free) == [item] + free && pages == old(pages) && os.regions == old(os.regions)
              else
                && item !in old(pages) && pages == old(pages) + {item}
                    && [item] + free == Slots(item, itemSz, SlotCnt(itemSz))
                && os.regions == old(os.regions) + {Region(item, PAGE_SIZE)}
      ensures os.regions - PageRegions(pages) == old(os.regions - PageRegions(pages))
    {
      if freeList == 0 {
        AddPage();
      }
      assert freeList != 0;
      ghost var a, next0 := freeList, next;
      assert free == [a] + free[1..];
      assert a in used + free;
      MoveFacts(used, free);
      var tmp := head;
      var nextFree := next[freeList];
      head := freeList;
      next := next[head := tmp];
      freeList := nextFree;
      LinkedPush(next0, tmp, used, a);
      LinkedKeys(next0, nextFree, free[1..]);
      LinkedFrame(next0, next, nextFree, free[1..]);
      used, free := [a] + used, free[1..];
      return head;
    }

    /** doForEach (lines 128-137) visits every item in use, once. */
    method DoForEach() returns (visited: seq<nat>)
      requires Valid()
      ensures visited == used
    {
      visited := [];
      var curr := head;
      while curr != 0
        invariant |visited| <= |used| && visited == used[..|visited|]
        invariant Linked(next, curr, used[|visited|..])
        decreases |used| - |visited|
      {
        assert used[|visited|..][1..] == used[|visited| + 1..];
        visited := visited + [curr];
        curr := next[curr];
      }
    }

    /** collectPageStarts (lines 78-93): move the page starts of a list over to another, rewriting the
        links while walking. */
    method CollectPageStarts(pageStartHead: nat, fromList: nat, ghost l: seq<nat>, ghost starts: seq<nat>)
      returns (h: nat)
      requires Linked(next, fromList, l) && Linked(next, pageStartHead, starts) && Distinct(l)
      requires forall a :: a in starts ==> a !in l
      modifies this`next
      ensures Linked(next, h, PageStarts(l) + starts)
      ensures forall a :: a in old(next) && a !in l ==> a in next && next[a] == old(next)[a]
    {
      h := pageStartHead;
      var curr: nat := fromList;
      ghost var rest, done := l, starts;
      while curr != 0
        invariant Linked(next, curr, rest) && Linked(next, h, done) && PageStarts(rest) + done == PageStarts(l) + starts
        invariant Distinct(rest) && (forall a :: a in rest ==> a in l) && (forall a :: a in done ==> a !in rest)
        invariant forall a :: a in old(next) && a !in l ==> a in next && next[a] == old(next)[a]
        decreases rest
      {
        PageStartsStep(rest, done);
        var tmp: nat := next[curr];
        if curr % PAGE_SIZE == 0 {
          MoveNode(next, h, done, curr, rest);
          next := next[curr := h];
          h := curr;
          done := [curr] + done;
        }
        curr := tmp;
        rest := rest[1..];
      }
      assert rest == [] && PageStarts(rest) + done == done;
    }

    /** Both lists are searched. */
    method CollectAll() returns (pageStartHead: nat)
      requires Linked(next, head, used) && Linked(next, freeList, free) && Distinct(used) && Distinct(free)
      requires forall a :: a in used ==> a !in free
      modifies this`next
      ensures Linked(next, pageStartHead, PageStarts(free) + PageStarts(used))
    {
      PageStartsIn(used);
      LinkedKeys(next, freeList, free);
      ghost var next0 := next;
      pageStartHead := CollectPageStarts(0, head, used, []);
      assert PageStarts(used) + [] == PageStarts(used);
      LinkedFrame(next0, next, freeList, free);
      pageStartHead := CollectPageStarts(pageStartHead, freeList, free, PageStarts(used));
    }

    /** The collected pages go back, one by one (lines 144-149). */
    method ReleasePages(first: nat, ghost starts: seq<nat>)
      requires Linked(next, first, starts) && Distinct(starts) && pageCnt == |starts|
      requires os.Valid() && PageRegions(SetOf(starts)) <= os.regions
      modifies this`pageCnt, os`regions, os`committed
      ensures os.Valid() && os.regions == old(os.regions) - PageRegions(SetOf(starts)) && pageCnt == 0
    {
      var pageStartHead: nat := first;
      ghost var k: nat, regions := 0, os.regions;
      assert starts[0..] == starts;
      assert PageRegions(SetOf(starts[..0])) == {};
      while pageStartHead != 0
        invariant k <= |starts| && Linked(next, pageStartHead, starts[k..]) && pageCnt == |starts| - k
        invariant os.Valid() && os.regions == regions - PageRegions(SetOf(starts[..k]))
        decreases |starts| - k
      {
        assert starts[k..][1..] == starts[k + 1..];
        OneMore(starts, k);
        var tmp: nat := next[pageStartHead];
        os.Deallocate(pageStartHead, PAGE_SIZE);
        pageCnt := pageCnt - 1;
        pageStartHead := tmp;
        k := k + 1;
      }
      assert starts[..k] == starts;
    }

    /** deinitialize (lines 138-153): every page goes back to the operating system, once; a second call
        finds no page and releases nothing. */
    method Deinitialize()
      requires Valid()
      modifies this, os`regions, os`committed
      ensures Valid() && used == [] && free == [] && pages == {}
      ensures os.regions == old(os.regions) - PageRegions(old(pages))
    {
      ghost var starts := PageStarts(free) + PageStarts(used);
      EveryPageOnce(pages, itemSz, used, free);
      var pageStartHead := CollectAll();
      ReleasePages(pageStartHead, starts);
      assert pageCnt == 0;
      head, freeList := 0, 0;
      used, free, pages := [], [], {};
    }
  }

  // ---------------------------------------------------------------------------------------
  // Facts for the methods

  lemma ThreadSlot(next: map<nat, nat>, page: nat, itemSz: nat, i: nat, tail: nat)
    requires 0 < itemSz <= PAGE_SIZE && i < SlotCnt(itemSz)
    ensures var l := Slots(page, itemSz, SlotCnt(itemSz));
            Threaded(next, l[..i + 1], tail)
                == Threaded(next, l[..i], Slot(page, itemSz, i))[Slot(page, itemSz, i) := tail]
  {
    var l := Slots(page, itemSz, SlotCnt(itemSz));
    assert l[..i + 1] == l[..i] + [l[i]];
    forall j | 0 <= j < i ensures l[j] != l[i] { SlotsDistinct(page, itemSz, j, i); }
    ThreadedSnoc(next, l[..i], l[i], tail);
  }

  /** A page fresh from the operating system holds none of the slots in use. */
  lemma NewPageFacts(pages: set<nat>, used: seq<nat>, itemSz: nat, regions: set<Region>, page: nat)
    requires 0 < itemSz <= PAGE_SIZE && PageRegions(pages) <= regions && FreshRegionAt(regions, page, PAGE_SIZE)
    requires Distinct(used) && forall a :: a in used <==> IsSlot(pages, itemSz, a)
    ensures page !in pages && Region(page, PAGE_SIZE) !in regions
    ensures var slots := Slots(page, itemSz, SlotCnt(itemSz));
            && slots != [] && slots[0] == page && Distinct(slots) && 0 !in slots && Distinct(used + slots)
            && (forall a :: a in slots ==> a !in used)
            && (forall a :: a in used + slots <==> IsSlot(pages + {page}, itemSz, a))
    ensures PageRegions(pages + {page}) == PageRegions(pages) + {Region(page, PAGE_SIZE)}
  {
    var slots := Slots(page, itemSz, SlotCnt(itemSz));
    FreshApart(regions, page, page);
    assert slots[0] == Slot(page, itemSz, 0) == page;
    forall j, k | 0 <= j < k < |slots| ensures slots[j] != slots[k] { SlotsDistinct(page, itemSz, j, k); }
    forall k | 0 <= k < |slots| ensures slots[k] != 0 && slots[k] !in used {
      NewSlot(pages, itemSz, regions, page, k);
    }
    SlotsGrow(pages, itemSz, page);
  }

  /** A new page joins a collection that has no free item: its slots become the free list. */
  lemma PagePartition(itemSz: nat, pages: set<nat>, next: map<nat, nat>, head: nat, used: seq<nat>, free: seq<nat>,
                      regions: set<Region>, page: nat)
    requires 0 < itemSz <= PAGE_SIZE && Partition(itemSz, pages, next, head, used, 0, free)
    requires PageRegions(pages) <= regions && FreshRegionAt(regions, page, PAGE_SIZE)
    ensures page !in pages && Region(page, PAGE_SIZE) !in regions
    ensures PageRegions(pages + {page}) == PageRegions(pages) + {Region(page, PAGE_SIZE)}
    ensures var slots := Slots(page, itemSz, SlotCnt(itemSz));
            Partition(itemSz, pages + {page}, Threaded(next, slots, 0), head, used, page, slots)
  {
    assert free == [] && used + free == used;
    NewPageFacts(pages, used, itemSz, regions, page);
    UsedStays(next, head, used, Slots(page, itemSz, SlotCnt(itemSz)));
  }

  /** Threading new slots leaves the items in use listed. */
  lemma UsedStays(next: map<nat, nat>, head: nat, used: seq<nat>, slots: seq<nat>)
    requires Linked(next, head, used) && Distinct(slots) && 0 !in slots && forall a :: a in slots ==> a !in used
    ensures Linked(Threaded(next, slots, 0), head, used) && Linked(Threaded(next, slots, 0), First(slots), slots)
  {
    ThreadedLinked(next, slots);
    ThreadedKeys(next, slots, 0);
    LinkedKeys(next, head, used);
    LinkedFrame(next, Threaded(next, slots, 0), head, used);
  }

  lemma SlotsGrow(pages: set<nat>, itemSz: nat, page: nat)
    requires 0 < itemSz <= PAGE_SIZE
    ensures forall a :: IsSlot(pages + {page}, itemSz, a) <==>
              IsSlot(pages, itemSz, a) || a in Slots(page, itemSz, SlotCnt(itemSz))
  {
    var slots := Slots(page, itemSz, SlotCnt(itemSz));
    forall a | a in slots ensures IsSlot(pages + {page}, itemSz, a) {
      var k :| 0 <= k < |slots| && slots[k] == a;
      assert a == Slot(page, itemSz, k);
    }
    forall a: nat | IsSlot(pages + {page}, itemSz, a) && !IsSlot(pages, itemSz, a) ensures a in slots {
      var p, k: nat :| p in pages + {page} && k < SlotCnt(itemSz) && a == Slot(p, itemSz, k);
      assert slots[k] == Slot(page, itemSz, k);
    }
  }

  lemma NewSlot(pages: set<nat>, itemSz: nat, regions: set<Region>, page: nat, k: nat)
    requires 0 < itemSz <= PAGE_SIZE && PageRegions(pages) <= regions && FreshRegionAt(regions, page, PAGE_SIZE)
    requires k < SlotCnt(itemSz)
    ensures Slot(page, itemSz, k) != 0 && !IsSlot(pages, itemSz, Slot(page, itemSz, k))
  {
    SlotInPage(page, itemSz, k);
    if IsSlot(pages, itemSz, Slot(page, itemSz, k)) {
      var p, j: nat :| p in pages && j < SlotCnt(itemSz) && Slot(page, itemSz, k) == Slot(p, itemSz, j);
      SlotInPage(p, itemSz, j);
      FreshApart(regions, page, p);
    }
  }

  lemma FreshApart(regions: set<Region>, page: nat, p: nat)
    requires FreshRegionAt(regions, page, PAGE_SIZE)
    ensures Region(p, PAGE_SIZE) in regions ==> p + PAGE_SIZE <= page || page + PAGE_SIZE <= p
  {}

  /** Moving the head of one list to the front of the other changes no membership. */
  lemma MoveFacts(used: seq<nat>, free: seq<nat>)
    requires Distinct(used + free)
    ensures Distinct(used) && Distinct(free) && forall a :: a in used ==> a !in free
    ensures free != [] ==>
              && Distinct([free[0]] + used + free[1..])
              && (forall a :: a in [free[0]] + used + free[1..] <==> a in used + free)
              && free[0] !in free[1..] && free[0] !in used
  {
    var l := used + free;
    assert forall j :: 0 <= j < |used| ==> l[j] == used[j];
    assert forall j :: 0 <= j < |free| ==> l[|used| + j] == free[j];
    if free != [] { assert free == [free[0]] + free[1..]; }
  }

  /** The page starts among the slots are the pages. */
  lemma PagesAreStarts(pages: set<nat>, itemSz: nat, l: seq<nat>)
    requires 0 < itemSz <= PAGE_SIZE && (forall p :: p in pages ==> p % PAGE_SIZE == 0)
    requires forall a :: a in l <==> IsSlot(pages, itemSz, a)
    ensures forall a :: a in l && a % PAGE_SIZE == 0 <==> a in pages
  {
    forall a | a in pages ensures a in l {
      SlotInPage(a, itemSz, 0);
      assert a == Slot(a, itemSz, 0);
    }
    forall a | a in l && a % PAGE_SIZE == 0 ensures a in pages {
      var p, k: nat :| p in pages && k < SlotCnt(itemSz) && a == Slot(p, itemSz, k);
      AlignedSlotIsPage(p, itemSz, k);
    }
  }

  /** Moving the head of one list to the front of another. */
  lemma MoveNode(next: map<nat, nat>, h: nat, done: seq<nat>, curr: nat, rest: seq<nat>)
    requires Linked(next, h, done) && Linked(next, curr, rest) && rest != []
    requires Distinct(rest) && forall a :: a in done ==> a !in rest
    ensures curr in next && Linked(next[curr := h], curr, [curr] + done)
    ensures Linked(next[curr := h], next[curr], rest[1..])
    ensures forall a :: a in [curr] + done ==> a !in rest[1..]
  {
    assert rest[0] == curr && curr in rest && curr !in rest[1..];
    LinkedPush(next, h, done, curr);
    LinkedKeys(next, next[curr], rest[1..]);
    LinkedFrame(next, next[curr := h], next[curr], rest[1..]);
  }

  /** The page starts on the two lists are the pages, each once. */
  lemma EveryPageOnce(pages: set<nat>, itemSz: nat, used: seq<nat>, free: seq<nat>)
    requires 0 < itemSz <= PAGE_SIZE && (forall p :: p in pages ==> p % PAGE_SIZE == 0)
    requires Distinct(used + free) && forall a :: a in used + free <==> IsSlot(pages, itemSz, a)
    ensures Distinct(used) && Distinct(free) && forall a :: a in used ==> a !in free
    ensures var starts := PageStarts(free) + PageStarts(used);
            Distinct(starts) && SetOf(starts) == pages && |starts| == |pages|
  {
    MoveFacts(used, free);
    PagesAreStarts(pages, itemSz, used + free);
    PageStartsIn(used);
    PageStartsIn(free);
    var starts := PageStarts(free) + PageStarts(used);
    assert forall a :: a in starts <==> a in pages;
    DistinctAppend(PageStarts(free), PageStarts(used));
    DistinctSize(starts, pages);
  }

  lemma OneMore(starts: seq<nat>, k: nat)
    requires k < |starts| && Distinct(starts)
    ensures starts[k] !in starts[..k]
    ensures SetOf(starts[..k + 1]) == SetOf(starts[..k]) + {starts[k]}
    ensures PageRegions(SetOf(starts[..k + 1])) == PageRegions(SetOf(starts[..k])) + {Region(starts[k], PAGE_SIZE)}
    ensures Region(starts[k], PAGE_SIZE) !in PageRegions(SetOf(starts[..k]))
    ensures Region(starts[k], PAGE_SIZE) in PageRegions(SetOf(starts))
  {
    assert starts[..k + 1] == starts[..k] + [starts[k]];
  }
}
