/** SerializableAllocatorBase (src/iibmalloc/iibmalloc.h:770-1240) as steps on its whole state: the
    bucket lists, the pages behind them and the bulk allocator. */
module HeapSpec {
  import opened Arith
  import opened Lists
  import opened SizeClasses
  import opened FreeItems
  import opened PageAddress
  import opened VirtualMemoryModel
  import opened Regions
  import B = BulkSpec
  import BulkSteps
  import P = PagerSpec
  import M = Multipage

  /** The template parameters, and whether the bulk allocator is the repaired one. */
  datatype Config = Config(g: Geometry, p: B.Params, repaired: bool) {

    /** Beside what the parts need: there is a bucket for every index sizeToIndex gives, and half a
        group of pages holds an item of any bucket. */
    ghost predicate Valid() {
      && g.Valid() && p.Valid()
      && LAST_BUCKET < g.BucketCnt()
      && 2 * MAX_BUCKET_SIZE <= g.MultipagePages() * PAGE_SIZE
    }
  }

  /** The largest index sizeToIndexHalfExp gives for a size up to MaxBucketSize. */
  const LAST_BUCKET: nat := 20

  /** buckets: heads of the item lists; link: the words items are linked by; pages and bulk: the
      two allocators behind. */
  datatype Heap = Heap(buckets: seq<nat>, link: map<nat, nat>, pages: P.Pager, bulk: B.Bulk)

  function BucketSize(idx: nat): (b: nat)
    requires idx <= LAST_BUCKET
  {
    BucketSizeHalfExp(idx);
    IndexToBucketSizeHalfExp(idx)
  }

  /** initialize */
  function Initial(c: Config): Heap {
    Heap(seq(c.g.BucketCnt(), i => 0), map[], P.Initial(c.g), B.Bulk(map[], seq(c.p.maxPages + 1, i => 0), []))
  }

  /** formatAllocatedPageAlignedBlock */
  function Format(h: Heap, block: nat, blockSz: nat, b: nat, idx: nat): (r: Heap)
    requires b > 0 && idx < |h.buckets|
    ensures |r.buckets| == |h.buckets| && r.pages == h.pages && r.bulk == h.bulk
  {
    if block == 0 || ItemCnt(blockSz, b) == 0 then h
    else h.(link := Threaded(h.link, Items(block, blockSz, b), 0), buckets := h.buckets[idx := block])
  }

  predicate Shaped(c: Config, h: Heap) {
    |h.buckets| == c.g.BucketCnt() && LAST_BUCKET < c.g.BucketCnt() && P.Shape(c.g, h.pages)
  }

  /** The refill of allocateInCaseNoFreeBucket: what formats second replaces the list of what
      formatted first. */
  function Refill(c: Config, h: Heap, idx: nat, osPage: nat): (r: Heap)
    requires Shaped(c, h) && idx <= LAST_BUCKET && BucketSize(idx) > 0
    ensures |r.buckets| == |h.buckets| && r.bulk == h.bulk
  {
    var (pages', d) := M.GetMultipage(c.g, h.pages, idx, osPage);
    var h1 := Format(h.(pages := pages'), d.ptr1, d.sz1, BucketSize(idx), idx);
    Format(h1, d.ptr2, d.sz2, BucketSize(idx), idx)
  }

  function Pop(h: Heap, idx: nat): (r: (Heap, nat))
    requires idx < |h.buckets| && h.buckets[idx] in h.link
  {
    (h.(buckets := h.buckets[idx := h.link[h.buckets[idx]]]), h.buckets[idx])
  }

  /** The list an item is popped from, refilled first if it is empty. */
  function Filled(c: Config, h: Heap, idx: nat, osPage: nat): (r: Heap)
    requires Shaped(c, h) && idx <= LAST_BUCKET && BucketSize(idx) > 0
    ensures |r.buckets| == |h.buckets| && r.bulk == h.bulk
  {
    if h.buckets[idx] != 0 then h else Refill(c, h, idx, osPage)
  }

  /** The fewest pages for a request that goes to the bulk allocator, header included. */
  function BulkPages(sz: nat): (pc: nat)
    ensures 0 < pc && sz + MEM_FORBIDDEN <= pc * PAGE_SIZE < sz + MEM_FORBIDDEN + PAGE_SIZE
  {
    B.PageCountIsCeil(sz + MEM_FORBIDDEN);
    B.PageCount(sz + MEM_FORBIDDEN)
  }

  predicate CanAllocate(c: Config, h: Heap, sz: nat, osPage: nat, osBulk: nat) {
    if sz <= MAX_BUCKET_SIZE then
      var idx := SizeToIndexHalfExp(sz);
      && Shaped(c, h) && 0 <= idx <= LAST_BUCKET && BucketSize(idx) > 0
      && Filled(c, h, idx, osPage).buckets[idx] in Filled(c, h, idx, osPage).link
    else
      B.CanAllocate(c.p, h.bulk, BulkPages(sz)) && osBulk != 0
  }

  /** allocate; osPage and osBulk are the addresses the operating system gives if asked. */
  function Allocate(c: Config, h: Heap, sz: nat, osPage: nat, osBulk: nat): (r: (Heap, nat))
    requires CanAllocate(c, h, sz, osPage, osBulk)
  {
    if sz <= MAX_BUCKET_SIZE then
      var idx := SizeToIndexHalfExp(sz);
      Pop(Filled(c, h, idx, osPage), idx)
    else
      var (bulk', block) := B.Allocate(c.p, c.repaired, h.bulk, BulkPages(sz), osBulk);
      (h.(bulk := bulk'), block + MEM_FORBIDDEN)
  }

  /** Where deallocate sends an address. */
  predicate GoesToBulk(ptr: nat) {
    GetOffsetInPage(ptr) == MEM_FORBIDDEN
  }

  predicate CanDeallocate(c: Config, h: Heap, ptr: nat) {
    ptr != 0 ==>
      if GoesToBulk(ptr) then
        PtrToPageStart(ptr) in h.bulk.hdr && |h.bulk.heads| == c.p.maxPages + 1
      else
        AddressToIdx(c.g, ptr) < |h.buckets|
  }

  function Push(h: Heap, idx: nat, ptr: nat): Heap
    requires idx < |h.buckets|
  {
    h.(link := h.link[ptr := h.buckets[idx]], buckets := h.buckets[idx := ptr])
  }

  function Deallocate(c: Config, h: Heap, ptr: nat): Heap
    requires CanDeallocate(c, h, ptr)
  {
    if ptr == 0 then h
    else if GoesToBulk(ptr) then
      h.(bulk := B.Deallocate(c.p, c.repaired, h.bulk, PtrToPageStart(ptr)))
    else
      Push(h, AddressToIdx(c.g, ptr), ptr)
  }

  // ---------------------------------------------------------------------------------------
  // Invariant

  /** What the clients hold: items, each with the bucket chosen when it was allocated, and what the
      bulk allocator granted. */
  datatype Client = Client(small: map<nat, nat>, ledger: B.Ledger)

  /** A contiguous run of pages that was cut into the items of one bucket. */
  datatype Segment = Segment(start: nat, size: nat, idx: nat)

  /** home: the segment of every item that is held or listed; free: the contents of the bucket
      lists. */
  datatype Book = Book(home: map<nat, Segment>, free: seq<seq<nat>>, bulk: B.Book)

  ghost predicate SegmentOk(c: Config, pages: P.Pager, s: Segment) {
    && s.idx <= LAST_BUCKET
    && 0 < s.start && s.start % PAGE_SIZE == 0
    && forall q :: M.InSegment(s.start, s.size, q) ==> P.Issued(c.g, pages, s.idx, q)
  }

  ghost predicate ItemOk(c: Config, pages: P.Pager, a: nat, s: Segment) {
    && SegmentOk(c, pages, s)
    && BucketSize(s.idx) > 0
    && IsItem(s.start, s.size, BucketSize(s.idx), a)
  }

  ghost predicate ApartSegments(s: Segment, t: Segment) {
    s.start + s.size <= t.start || t.start + t.size <= s.start
  }

  ghost predicate ItemsOk(c: Config, pages: P.Pager, home: map<nat, Segment>) {
    && (forall a :: a in home ==> ItemOk(c, pages, a, home[a]))
    && (forall a, a' :: a in home && a' in home && home[a] != home[a'] ==> ApartSegments(home[a], home[a']))
  }

  ghost predicate ListOk(link: map<nat, nat>, head: nat, l: seq<nat>) {
    Linked(link, head, l) && Distinct(l)
  }

  ghost predicate ListsOk(link: map<nat, nat>, buckets: seq<nat>, free: seq<seq<nat>>) {
    && |free| == |buckets|
    && forall i {:trigger free[i]} :: 0 <= i < |buckets| ==> ListOk(link, buckets[i], free[i])
  }

  /** The bucket lists are well formed, and every item is either held under the bucket of its
      segment or on the list of that bucket. */
  ghost predicate FreeOk(link: map<nat, nat>, buckets: seq<nat>, b: Book, small: map<nat, nat>) {
    && ListsOk(link, buckets, b.free)
    && (forall i, a {:trigger a in b.free[i]} :: 0 <= i < |buckets| && a in b.free[i] ==>
          a in b.home && b.home[a].idx == i && a !in small)
    && (forall a :: a in small ==> a in b.home && b.home[a].idx == small[a])
    && (forall a :: a in b.home && a !in small ==> b.home[a].idx < |buckets| && a in b.free[b.home[a].idx])
  }

  ghost function AllRegions(c: Config, h: Heap, l: B.Ledger): set<Region> {
    ReservationsOf(c.g, h.pages) + RegionsOf(c.p, h.bulk.blocks, l.large)
  }

  /** The region a request of pc pages is served from, if a new one is needed. */
  ghost function BulkRegion(c: Config, pc: nat, osBulk: nat): Region {
    Region(osBulk, (if pc <= c.p.maxPages then c.p.blockPages else pc) * PAGE_SIZE)
  }

  /** The operating system's promise to a request: a new region, if one is needed, is apart from all
      regions in use. */
  ghost predicate OsGrants(c: Config, h: Heap, l: B.Ledger, sz: nat, osPage: nat, osBulk: nat) {
    if sz <= MAX_BUCKET_SIZE then
      var idx := SizeToIndexHalfExp(sz);
      Shaped(c, h) && 0 <= idx <= LAST_BUCKET && h.buckets[idx] == 0 && P.NeedsReservation(c.g, h.pages, idx) ==>
        FreshRegionAt(AllRegions(c, h, l), osPage, c.g.ReservationSize())
    else
      var r := BulkRegion(c, BulkPages(sz), osBulk);
      FreshRegionAt(AllRegions(c, h, l), r.start, r.size)
  }

  ghost predicate RegionsApart(c: Config, h: Heap, l: B.Ledger) {
    forall r, t :: r in ReservationsOf(c.g, h.pages) && t in RegionsOf(c.p, h.bulk.blocks, l.large) ==>
      DisjointRegions(r, t)
  }

  ghost predicate Inv(c: Config, h: Heap, cl: Client, b: Book) {
    && c.Valid() && Shaped(c, h)
    && P.Inv(c.g, h.pages) && M.Grouped(c.g, h.pages)
    && B.Inv(c.p, c.repaired, h.bulk, cl.ledger, b.bulk)
    && RegionsApart(c, h, cl.ledger)
    && ItemsOk(c, h.pages, b.home)
    && FreeOk(h.link, h.buckets, b, cl.small)
  }

  // ---------------------------------------------------------------------------------------
  // What a client holds

  /** The addresses handed to clients and not yet given back. */
  predicate Holds(cl: Client, ptr: nat) {
    || ptr in cl.small
    || (ptr >= MEM_FORBIDDEN && (ptr - MEM_FORBIDDEN in cl.ledger.live || ptr - MEM_FORBIDDEN in cl.ledger.large))
  }

  /** The bytes that belong to a held address. */
  function Owns(cl: Client, ptr: nat): int
    requires Holds(cl, ptr)
  {
    if ptr in cl.small then if cl.small[ptr] <= LAST_BUCKET then BucketSize(cl.small[ptr]) else 0
    else
      var block := ptr - MEM_FORBIDDEN;
      (if block in cl.ledger.live then cl.ledger.live[block] else cl.ledger.large[block]) * PAGE_SIZE - MEM_FORBIDDEN
  }

  /** The client after an allocate that returned ptr. */
  function Granted(c: Config, cl: Client, sz: nat, ptr: nat): Client {
    if sz <= MAX_BUCKET_SIZE then
      var idx := SizeToIndexHalfExp(sz);
      cl.(small := cl.small[ptr := if idx >= 0 then idx else 0])
    else if ptr >= MEM_FORBIDDEN then
      cl.(ledger := BulkSteps.Granted(c.p, cl.ledger, ptr - MEM_FORBIDDEN, BulkPages(sz)))
    else cl
  }

  /** The ledger without one of its entries. */
  function Without(l: B.Ledger, block: nat): B.Ledger {
    if block in l.live then l.(live := l.live - {block}) else l.(large := l.large - {block})
  }

  /** The client after it gave ptr back. */
  function Returned(cl: Client, ptr: nat): Client
    requires Holds(cl, ptr)
  {
    if ptr in cl.small then cl.(small := cl.small - {ptr})
    else cl.(ledger := Without(cl.ledger, ptr - MEM_FORBIDDEN))
  }

  /** Whatever is written at x: a word that was not there, one that is gone, one that differs. */
  ghost predicate WordWritten(link: map<nat, nat>, link': map<nat, nat>, x: nat) {
    (x in link || x in link') && !(x in link && x in link' && link'[x] == link[x])
  }

  /** The bytes of a word are 8. */
  ghost predicate WordMisses(x: nat, start: nat, size: int) {
    x + 8 <= start || start + size <= x
  }

  /** Every word written lies outside the items. */
  ghost predicate WritesOutside(link: map<nat, nat>, link': map<nat, nat>, small: map<nat, nat>) {
    forall x, a :: WordWritten(link, link', x) && a in small && small[a] <= LAST_BUCKET ==>
      WordMisses(x, a, BucketSize(small[a]))
  }

  /** Every word written is the first of an item. */
  ghost predicate WritesInItems(c: Config, pages: P.Pager, link: map<nat, nat>, link': map<nat, nat>) {
    forall x :: WordWritten(link, link', x) ==> exists s :: ItemOk(c, pages, x, s)
  }
}
