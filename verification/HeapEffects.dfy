/** What a call of the allocator does, in terms of the item lists a walk through memory finds: who gets
    which item, and which lists are left (src/iibmalloc/iibmalloc.h:1031-1195). */
module HeapEffects {
  import opened Arith
  import opened Lists
  import opened FreeItems
  import opened PageAddress
  import opened SizeClasses
  import opened VirtualMemoryModel
  import opened HeapSpec
  import opened HeapItems
  import opened HeapSteps
  import opened HeapBulk
  import B = BulkSpec
  import P = PagerSpec
  import M = Multipage

  /** l is the list of bucket i. */
  ghost predicate HasList(h: Heap, i: nat, l: seq<nat>) {
    i < |h.buckets| && Linked(h.link, h.buckets[i], l)
  }

  /** a is on some list. */
  ghost predicate Listed(h: Heap, a: nat) {
    exists i, l :: HasList(h, i, l) && a in l
  }

  /** Every bucket but idx has the list it had. */
  ghost predicate OtherListsKept(h: Heap, h': Heap, idx: nat) {
    |h'.buckets| == |h.buckets| && forall i, l :: i != idx && HasList(h, i, l) ==> HasList(h', i, l)
  }

  /** Pages and bulk allocator are not touched. */
  ghost predicate OnlyItems(h: Heap, h': Heap) {
    h'.pages == h.pages && h'.bulk == h.bulk
  }

  /** Bucket lists and pages are not touched. */
  ghost predicate OnlyBulk(h: Heap, h': Heap) {
    h'.buckets == h.buckets && h'.link == h.link && h'.pages == h.pages
  }

  /** The item goes to the front of its list. */
  ghost predicate GivenBack(h: Heap, ptr: nat, idx: nat, h': Heap) {
    && (forall l :: HasList(h, idx, l) ==> HasList(h', idx, [ptr] + l))
    && OtherListsKept(h, h', idx) && OnlyItems(h, h')
  }

  /** The first item of the list is handed out, and the rest is the list. */
  ghost predicate FirstTaken(h: Heap, idx: nat, h': Heap, ptr: nat) {
    && (forall l :: HasList(h, idx, l) ==> l != [] && ptr == l[0] && HasList(h', idx, l[1..]))
    && OtherListsKept(h, h', idx) && OnlyItems(h, h')
  }

  /** The list is empty: a group of pages is taken, the first item of its last run that holds one is
      handed out, and the rest of that run's items is the list. */
  ghost predicate RefilledAndTaken(c: Config, h: Heap, idx: nat, osPage: nat, h': Heap, ptr: nat)
    requires Shaped(c, h) && idx <= LAST_BUCKET && BucketSize(idx) > 0
  {
    var (pages', d) := M.GetMultipage(c.g, h.pages, idx, osPage);
    var kept := KeptSegment(d, idx);
    var items := Items(kept.start, kept.size, BucketSize(idx));
    && items != [] && ptr == items[0] && HasList(h', idx, items[1..])
    && OtherListsKept(h, h', idx) && h'.pages == pages' && h'.bulk == h.bulk
  }

  // ---------------------------------------------------------------------------------------
  // Lists and books

  /** The lists of a book are those a walk finds. */
  lemma ListIs(h: Heap, b: Book, i: nat)
    requires ListsOk(h.link, h.buckets, b.free)
    ensures i < |h.buckets| ==> HasList(h, i, b.free[i])
    ensures forall l :: HasList(h, i, l) ==> l == b.free[i]
  {
    if i < |h.buckets| {
      assert ListOk(h.link, h.buckets[i], b.free[i]);
      forall l | HasList(h, i, l) ensures l == b.free[i] {
        LinkedUnique(h.link, h.buckets[i], l, b.free[i]);
      }
    }
  }

  lemma SameOtherLists(h: Heap, b: Book, h': Heap, b': Book, idx: nat)
    requires ListsOk(h.link, h.buckets, b.free) && ListsOk(h'.link, h'.buckets, b'.free)
    requires |h'.buckets| == |h.buckets| && forall i :: 0 <= i < |b.free| && i != idx ==> b'.free[i] == b.free[i]
    ensures OtherListsKept(h, h', idx)
  {
    forall i, l | i != idx && HasList(h, i, l) ensures HasList(h', i, l) {
      ListIs(h, b, i);
      ListIs(h', b', i);
    }
  }

  lemma InvLists(c: Config, h: Heap, cl: Client, b: Book)
    requires Inv(c, h, cl, b)
    ensures ListsOk(h.link, h.buckets, b.free) && LAST_BUCKET < |h.buckets| && Shaped(c, h)
    ensures forall a :: a in cl.small ==> cl.small[a] < |h.buckets|
  {
    forall a | a in cl.small ensures cl.small[a] < |h.buckets| { HomeFacts(c, h, cl, b, a); }
  }

  // ---------------------------------------------------------------------------------------
  // allocate of an item

  /** A request for a bucket whose list is not empty. */
  lemma FirstIsTaken(c: Config, h: Heap, cl: Client, b: Book, sz: nat, osPage: nat, osBulk: nat)
    requires Inv(c, h, cl, b) && sz <= MAX_BUCKET_SIZE
    requires var idx := SizeToIndexHalfExp(sz); 0 <= idx < |h.buckets| && h.buckets[idx] != 0
    ensures CanAllocate(c, h, sz, osPage, osBulk)
    ensures var (h', ptr) := Allocate(c, h, sz, osPage, osBulk); FirstTaken(h, SizeToIndexHalfExp(sz), h', ptr)
  {
    BucketForRequest(sz);
    var idx: nat := SizeToIndexHalfExp(sz);
    BucketSizeFacts(idx);
    InvLists(c, h, cl, b);
    hide Inv;
    PoppedLists(h, b, idx);
  }

  lemma PoppedLists(h: Heap, b: Book, idx: nat)
    requires ListsOk(h.link, h.buckets, b.free) && idx < |h.buckets| && h.buckets[idx] != 0
    ensures h.buckets[idx] in h.link && b.free[idx] != []
    ensures var (h', a) := Pop(h, idx);
            FirstTaken(h, idx, h', a) && a == b.free[idx][0] && HasList(h', idx, b.free[idx][1..])
  {
    PopLists(h.link, h.buckets, b.free, idx);
    var h' := Pop(h, idx).0;
    ListIs(h, b, idx);
    ListIs(h', Popped(b, idx), idx);
    SameOtherLists(h, b, h', Popped(b, idx), idx);
  }

  /** allocateInCaseNoFreeBucket */
  lemma RefillThenPop(c: Config, h: Heap, cl: Client, b: Book, idx: nat, osPage: nat)
    requires Inv(c, h, cl, b) && idx <= LAST_BUCKET && h.buckets[idx] == 0
    requires P.NeedsReservation(c.g, h.pages, idx) ==>
               FreshRegionAt(AllRegions(c, h, cl.ledger), osPage, c.g.ReservationSize())
    ensures BucketSize(idx) > 0
    ensures var h1 := Refill(c, h, idx, osPage);
            && h1.buckets[idx] in h1.link
            && RefilledAndTaken(c, h, idx, osPage, Pop(h1, idx).0, Pop(h1, idx).1)
  {
    hide B.Inv, P.Inv;
    BucketSizeFacts(idx);
    var b1 := RefillKeeps(c, h, cl, b, idx, osPage);
    var h1 := Refill(c, h, idx, osPage);
    RefillLists(c, h, cl, b, idx, osPage, b1);
    InvLists(c, h1, cl, b1);
    PoppedLists(h1, b1, idx);
  }

  /** A request for a bucket whose list is empty. */
  lemma RefillIsTaken(c: Config, h: Heap, cl: Client, b: Book, sz: nat, osPage: nat, osBulk: nat)
    requires Inv(c, h, cl, b) && sz <= MAX_BUCKET_SIZE && OsGrants(c, h, cl.ledger, sz, osPage, osBulk)
    requires var idx := SizeToIndexHalfExp(sz); 0 <= idx < |h.buckets| && h.buckets[idx] == 0
    ensures CanAllocate(c, h, sz, osPage, osBulk) && Shaped(c, h)
    ensures var idx := SizeToIndexHalfExp(sz); idx <= LAST_BUCKET && BucketSize(idx) > 0
    ensures var (h', ptr) := Allocate(c, h, sz, osPage, osBulk);
            RefilledAndTaken(c, h, SizeToIndexHalfExp(sz), osPage, h', ptr)
  {
    hide B.Inv, P.Inv, RefilledAndTaken;
    BucketForRequest(sz);
    var idx: nat := SizeToIndexHalfExp(sz);
    RefillThenPop(c, h, cl, b, idx, osPage);
  }

  /** The lists after a refill, before the pop. */
  lemma RefillLists(c: Config, h: Heap, cl: Client, b: Book, idx: nat, osPage: nat, b1: Book)
    requires Inv(c, h, cl, b) && idx <= LAST_BUCKET && BucketSize(idx) > 0 && idx < |b.free| && h.buckets[idx] == 0
    requires var d := M.GetMultipage(c.g, h.pages, idx, osPage).1;
             b1 == Tried(Tried(b, FirstSegment(d, idx)), SecondSegment(d, idx)) && Usable(KeptSegment(d, idx))
    requires Inv(c, Refill(c, h, idx, osPage), cl, b1)
    ensures var (pages', d) := M.GetMultipage(c.g, h.pages, idx, osPage);
            var kept := KeptSegment(d, idx);
            && b1.free[idx] == Items(kept.start, kept.size, BucketSize(idx))
            && OtherListsKept(h, Refill(c, h, idx, osPage), idx)
            && Refill(c, h, idx, osPage).pages == pages'
  {
    hide B.Inv, P.Inv;
    var h1 := Refill(c, h, idx, osPage);
    InvLists(c, h, cl, b);
    InvLists(c, h1, cl, b1);
    hide Inv;
    SameOtherLists(h, b, h1, b1, idx);
  }

  // ---------------------------------------------------------------------------------------
  // deallocate of an item

  lemma ItemGivenBack(c: Config, h: Heap, cl: Client, b: Book, ptr: nat)
    requires Inv(c, h, cl, b) && ptr in cl.small
    ensures CanDeallocate(c, h, ptr) && GivenBack(h, ptr, cl.small[ptr], Deallocate(c, h, ptr))
  {
    hide B.Inv, P.Inv;
    HomeFacts(c, h, cl, b, ptr);
    InvLists(c, h, cl, b);
    assert forall i :: 0 <= i < |b.free| ==> ptr !in b.free[i];
    hide Inv;
    PushedLists(h, b, cl.small[ptr], ptr);
  }

  lemma PushedLists(h: Heap, b: Book, idx: nat, a: nat)
    requires ListsOk(h.link, h.buckets, b.free) && idx < |h.buckets| && a != 0
    requires forall i :: 0 <= i < |b.free| ==> a !in b.free[i]
    ensures GivenBack(h, a, idx, Push(h, idx, a))
  {
    var h' := Push(h, idx, a);
    PushLists(h.link, h.buckets, b.free, idx, a);
    ListIs(h, b, idx);
    ListIs(h', Pushed(b, idx, a), idx);
    SameOtherLists(h, b, h', Pushed(b, idx, a), idx);
  }

  /** Giving an item back loses none: what was held or listed still is, and nothing else. */
  lemma NoItemLost(c: Config, h: Heap, cl: Client, b: Book, ptr: nat, a: nat)
    requires Inv(c, h, cl, b) && ptr in cl.small
    ensures CanDeallocate(c, h, ptr)
    ensures var h' := Deallocate(c, h, ptr);
            a in cl.small || Listed(h, a) <==> a in cl.small - {ptr} || Listed(h', a)
  {
    hide B.Inv;
    ItemGivenBack(c, h, cl, b, ptr);
    var idx, h' := cl.small[ptr], Deallocate(c, h, ptr);
    InvLists(c, h, cl, b);
    hide Inv, Deallocate;
    GivenBackLists(h, b, idx, ptr, h', a);
  }

  lemma GivenBackLists(h: Heap, b: Book, idx: nat, ptr: nat, h': Heap, a: nat)
    requires ListsOk(h.link, h.buckets, b.free) && idx < |h.buckets| && GivenBack(h, ptr, idx, h')
    ensures Listed(h', a) <==> a == ptr || Listed(h, a)
  {
    hide Linked;
    ListIs(h, b, idx);
    assert HasList(h', idx, [ptr] + b.free[idx]);
    if a == ptr { assert a in [ptr] + b.free[idx]; }
    if Listed(h, a) {
      var i: nat, l :| HasList(h, i, l) && a in l;
      if i == idx { assert HasList(h', idx, [ptr] + l) && a in [ptr] + l; } else { assert HasList(h', i, l); }
    }
    if Listed(h', a) && a != ptr {
      var i: nat, l' :| HasList(h', i, l') && a in l';
      ListIs(h, b, i);
      var m := if i == idx then [ptr] + b.free[i] else b.free[i];
      assert HasList(h', i, m);
      LinkedUnique(h'.link, h'.buckets[i], l', m);
      assert a in b.free[i];
    }
  }

  /** The next request of a size that selects the bucket gets the item, and all lists are as they were. */
  lemma ItemComesBack(c: Config, h: Heap, cl: Client, b: Book, ptr: nat, sz: nat, osPage: nat, osBulk: nat)
    requires Inv(c, h, cl, b) && ptr in cl.small && sz <= MAX_BUCKET_SIZE && SizeToIndexHalfExp(sz) == cl.small[ptr]
    ensures CanDeallocate(c, h, ptr)
    ensures var h1 := Deallocate(c, h, ptr);
            && CanAllocate(c, h1, sz, osPage, osBulk)
            && var (h2, ptr2) := Allocate(c, h1, sz, osPage, osBulk);
            && ptr2 == ptr && OnlyItems(h, h2) && |h2.buckets| == |h.buckets|
            && forall i, l :: HasList(h, i, l) ==> HasList(h2, i, l)
  {
    hide B.Inv, P.Inv;
    ItemGivenBack(c, h, cl, b, ptr);
    var b1 := PushKeeps(c, h, cl, b, ptr);
    var idx, h1, cl1 := cl.small[ptr], Deallocate(c, h, ptr), cl.(small := cl.small - {ptr});
    assert Inv(c, h1, cl1, b1);
    FirstIsTaken(c, h1, cl1, b1, sz, osPage, osBulk);
    hide Inv, Deallocate, Allocate, CanAllocate;
    ListIs(h, b, idx) by { InvLists(c, h, cl, b); }
    forall i, l | HasList(h, i, l) ensures HasList(Allocate(c, h1, sz, osPage, osBulk).0, i, l) {
      if i == idx {
        assert HasList(h1, idx, [ptr] + l);
        assert ([ptr] + l)[1..] == l;
      } else {
        assert HasList(h1, i, l);
      }
    }
  }

  // ---------------------------------------------------------------------------------------
  // Any call

  /** What allocate does: the first item of the bucket's list, or of a new one; or a chunk of the fewest
      pages that hold the request and its header, from the bulk allocator. */
  ghost predicate AllocateDoes(c: Config, h: Heap, sz: nat, osPage: nat, osBulk: nat, h': Heap, ptr: nat) {
    if sz <= MAX_BUCKET_SIZE then
      var idx := SizeToIndexHalfExp(sz);
      && Shaped(c, h) && 0 <= idx <= LAST_BUCKET && BucketSize(idx) > 0
      && if h.buckets[idx] != 0 then FirstTaken(h, idx, h', ptr) else RefilledAndTaken(c, h, idx, osPage, h', ptr)
    else
      && OnlyBulk(h, h') && osBulk != 0 && ptr >= MEM_FORBIDDEN && B.CanAllocate(c.p, h.bulk, BulkPages(sz))
      && (h'.bulk, ptr - MEM_FORBIDDEN) == B.Allocate(c.p, c.repaired, h.bulk, BulkPages(sz), osBulk)
  }

  /** What deallocate does: nothing for null, an item to the front of the list it was allocated from, a
      chunk to the bulk allocator. */
  ghost predicate DeallocateDoes(c: Config, h: Heap, cl: Client, ptr: nat, h': Heap) {
    if ptr == 0 then h' == h
    else if ptr in cl.small then GivenBack(h, ptr, cl.small[ptr], h')
    else
      && OnlyBulk(h, h') && ptr >= MEM_FORBIDDEN && ptr - MEM_FORBIDDEN in h.bulk.hdr
          && |h.bulk.heads| == c.p.maxPages + 1
      && h'.bulk == B.Deallocate(c.p, c.repaired, h.bulk, ptr - MEM_FORBIDDEN)
  }

  lemma AllocateEffect(c: Config, h: Heap, cl: Client, b: Book, sz: nat, osPage: nat, osBulk: nat)
    requires Inv(c, h, cl, b) && OsGrants(c, h, cl.ledger, sz, osPage, osBulk) && CanAllocate(c, h, sz, osPage, osBulk)
    ensures var (h', ptr) := Allocate(c, h, sz, osPage, osBulk); AllocateDoes(c, h, sz, osPage, osBulk, h', ptr)
  {
    if sz <= MAX_BUCKET_SIZE {
      BucketForRequest(sz);
      var idx: nat := SizeToIndexHalfExp(sz);
      InvLists(c, h, cl, b);
      BucketSizeFacts(idx);
      hide Inv, Allocate, FirstTaken, RefilledAndTaken;
      if h.buckets[idx] != 0 {
        FirstIsTaken(c, h, cl, b, sz, osPage, osBulk);
      } else {
        RefillIsTaken(c, h, cl, b, sz, osPage, osBulk);
      }
    }
  }

  lemma DeallocateEffect(c: Config, h: Heap, cl: Client, b: Book, ptr: nat)
    requires Inv(c, h, cl, b) && (ptr == 0 || Holds(cl, ptr)) && CanDeallocate(c, h, ptr)
    ensures DeallocateDoes(c, h, cl, ptr, Deallocate(c, h, ptr))
  {
    hide B.Inv;
    if ptr != 0 {
      if ptr in cl.small {
        ItemGivenBack(c, h, cl, b, ptr);
      } else {
        var r := ChunkRegion(c, h, cl, b, ptr - MEM_FORBIDDEN);
        BulkAddress(ptr - MEM_FORBIDDEN);
      }
    }
  }

  /** Which side of maxPages a request falls on. */
  lemma ServedByBlock(c: Config, sz: nat)
    ensures BulkPages(sz) <= c.p.maxPages <==> sz + MEM_FORBIDDEN <= c.p.maxPages * PAGE_SIZE
  {}
}
