/** The address arithmetic of SoundingAddressPageAllocator (src/iibmalloc/iibmalloc.h:159-276):
    the bucket of a page is encoded in its address, and the pages of one reservation form a
    ring that starts wherever the operating system placed the reservation. */
module PageAddress {
  import opened Arith

  /** The template parameters, kept symbolic. */
  datatype Geometry = Geometry(bucketExp: nat, reservationExp: nat, commitExp: nat, multipageExp: nat) {

    /** The static_asserts of the class. */
    ghost predicate Valid() {
      && bucketExp + 12 <= reservationExp
      && multipageExp <= commitExp
      && bucketExp + 12 + commitExp <= reservationExp
      && PagesPerBucket() < 65535
    }

    function BucketCnt(): nat {
      Pow2(bucketExp)
    }

    function PagesPerBucketExp(): nat {
      if bucketExp + 12 <= reservationExp then reservationExp - bucketExp - 12 else 0
    }

    function PagesPerBucket(): nat {
      Pow2(PagesPerBucketExp())
    }

    /** Pages in a reservation. */
    function RingPages(): nat {
      Pow2(bucketExp + PagesPerBucketExp())
    }

    function ReservationSize(): nat {
      Pow2(reservationExp)
    }

    function CommitPages(): nat {
      Pow2(commitExp)
    }

    function MultipagePages(): nat {
      Pow2(multipageExp)
    }
  }

  /** The instance of src/iibmalloc/iibmalloc.h:785-790. */
  const SHIPPED := Geometry(6, 23, 4, 3)

  function AddressToIdx(g: Geometry, ptr: nat): nat {
    ((ptr / PAGE_SIZE) % g.RingPages()) / g.PagesPerBucket()
  }

  function GetOffsetInPage(ptr: nat): nat {
    ptr % PAGE_SIZE
  }

  function PtrToPageStart(ptr: nat): nat {
    (ptr / PAGE_SIZE) * PAGE_SIZE
  }

  function BasePage(g: Geometry, block: nat): nat {
    ((block / PAGE_SIZE) / g.RingPages()) * g.RingPages()
  }

  function RingOffset(g: Geometry, block: nat): int {
    block / PAGE_SIZE - BasePage(g, block)
  }

  /** The page with ring position `pos`: positions below the one where the reservation starts
      belong to the next lap. */
  function PageOfPosition(g: Geometry, block: nat, pos: nat): nat {
    BasePage(g, block) + pos + if pos < RingOffset(g, block) then g.RingPages() else 0
  }

  function IdxToPageAddr(g: Geometry, block: nat, idx: nat, pagesUsed: nat): nat {
    PageOfPosition(g, block, idx * g.PagesPerBucket() + pagesUsed) * PAGE_SIZE
  }

  /** The page index inside its bucket, the other half of the inverse of IdxToPageAddr. */
  function PageIndexInBucket(g: Geometry, ptr: nat): nat {
    (ptr / PAGE_SIZE) % g.PagesPerBucket()
  }

  // ---------------------------------------------------------------------------------------

  lemma RingIsBucketsTimesPages(g: Geometry)
    requires g.Valid()
    ensures g.RingPages() == g.BucketCnt() * g.PagesPerBucket()
    ensures g.ReservationSize() == g.RingPages() * PAGE_SIZE
  {
    Pow2Sum(g.bucketExp, g.PagesPerBucketExp());
    Pow2Sum(g.bucketExp + g.PagesPerBucketExp(), 12);
    PageIs12();
  }

  lemma PositionBounds(g: Geometry, idx: nat, k: nat)
    requires g.Valid() && idx < g.BucketCnt() && k < g.PagesPerBucket()
    ensures idx * g.PagesPerBucket() + k < g.RingPages()
  {
    RingIsBucketsTimesPages(g);
    MulMono(idx + 1, g.BucketCnt(), g.PagesPerBucket());
  }

  lemma RingOffsetBounds(g: Geometry, block: nat)
    ensures 0 <= RingOffset(g, block) < g.RingPages()
    ensures BasePage(g, block) % g.RingPages() == 0
  {
    var q, r := block / PAGE_SIZE, g.RingPages();
    assert q == (q / r) * r + q % r;
    DivModUnique((q / r) * r, r, q / r, 0);
  }

  lemma PositionOfPage(g: Geometry, block: nat, pos: nat)
    requires pos < g.RingPages()
    ensures PageOfPosition(g, block, pos) % g.RingPages() == pos
    ensures block / PAGE_SIZE <= PageOfPosition(g, block, pos) < block / PAGE_SIZE + g.RingPages()
  {
    RingOffsetBounds(g, block);
    var r := g.RingPages();
    var lap := block / PAGE_SIZE / r + if pos < RingOffset(g, block) then 1 else 0;
    assert PageOfPosition(g, block, pos) == lap * r + pos;
    DivModUnique(PageOfPosition(g, block, pos), r, lap, pos);
  }

  /** Inside the reservation, wherever it starts, the address of page `k` of bucket `idx` gives
      back its bucket and its index from any of its bytes: the asserts at lines 271-272. */
  lemma AddressRoundTrip(g: Geometry, block: nat, idx: nat, k: nat, off: nat)
    requires g.Valid() && idx < g.BucketCnt() && k < g.PagesPerBucket()
    requires block % PAGE_SIZE == 0 && off < PAGE_SIZE
    ensures var a := IdxToPageAddr(g, block, idx, k);
            && a % PAGE_SIZE == 0
            && block <= a && a + PAGE_SIZE <= block + g.ReservationSize()
            && AddressToIdx(g, a + off) == idx
            && PageIndexInBucket(g, a + off) == k
            && PtrToPageStart(a + off) == a
            && GetOffsetInPage(a + off) == off
  {
    RingPageRoundTrip(g, block, idx, k);
    var page := PageOfPosition(g, block, idx * g.PagesPerBucket() + k);
    assert page * PAGE_SIZE == IdxToPageAddr(g, block, idx, k);
    InPage(page, off);
    InPage(page, 0);
  }

  lemma RingPageRoundTrip(g: Geometry, block: nat, idx: nat, k: nat)
    requires g.Valid() && idx < g.BucketCnt() && k < g.PagesPerBucket()
    ensures var page := PageOfPosition(g, block, idx * g.PagesPerBucket() + k);
            && (page % g.RingPages()) / g.PagesPerBucket() == idx
            && page % g.PagesPerBucket() == k
            && block / PAGE_SIZE <= page < block / PAGE_SIZE + g.RingPages()
            && g.ReservationSize() == g.RingPages() * PAGE_SIZE
  {
    RingIsBucketsTimesPages(g);
    PositionBounds(g, idx, k);
    var pos := idx * g.PagesPerBucket() + k;
    var page := PageOfPosition(g, block, pos);
    PositionOfPage(g, block, pos);
    MixedBaseOfRemainder(page, g.RingPages(), g.BucketCnt(), g.PagesPerBucket(), idx, k);
  }

  lemma InPage(page: nat, off: nat)
    requires off < PAGE_SIZE
    ensures (page * PAGE_SIZE + off) / PAGE_SIZE == page
    ensures (page * PAGE_SIZE + off) % PAGE_SIZE == off
  {}

  /** Every page of the reservation is the page of its own bucket and index: with
      AddressRoundTrip, IdxToPageAddr is a bijection onto the reservation. */
  lemma AddressCovers(g: Geometry, block: nat, page: nat)
    requires g.Valid() && block % PAGE_SIZE == 0 && page % PAGE_SIZE == 0
    requires block <= page < block + g.ReservationSize()
    ensures AddressToIdx(g, page) < g.BucketCnt()
    ensures PageIndexInBucket(g, page) < g.PagesPerBucket()
    ensures IdxToPageAddr(g, block, AddressToIdx(g, page), PageIndexInBucket(g, page)) == page
  {
    RingIsBucketsTimesPages(g);
    var q := page / PAGE_SIZE;
    var pos := q % g.RingPages();
    BucketOfPosition(pos, g.BucketCnt(), g.PagesPerBucket());
    MixedBaseOfRemainder(q, g.RingPages(), g.BucketCnt(), g.PagesPerBucket(),
                         pos / g.PagesPerBucket(), pos % g.PagesPerBucket());
    SamePage(g, block, q, pos);
  }

  lemma BucketOfPosition(pos: nat, b: nat, p: nat)
    requires p > 0 && pos < b * p
    ensures pos / p < b
    ensures pos == (pos / p) * p + pos % p
  {
    MulMono(b, pos / p, p);
  }

  lemma SamePage(g: Geometry, block: nat, q: nat, pos: nat)
    requires pos < g.RingPages() && q % g.RingPages() == pos
    requires block / PAGE_SIZE <= q < block / PAGE_SIZE + g.RingPages()
    ensures q == PageOfPosition(g, block, pos)
  {
    PositionOfPage(g, block, pos);
    SameRemainderInWindow(q, PageOfPosition(g, block, pos), g.RingPages());
  }

  lemma SameRemainderInWindow(x: int, y: int, d: int)
    requires d > 0 && x % d == y % d && -d < x - y < d
    ensures x == y
  {
    MulMono(x / d + 1, y / d, d);
    MulMono(y / d + 1, x / d, d);
  }

  /** Two pages of one reservation coincide only if bucket and index do. */
  lemma AddressInjective(g: Geometry, block: nat, idx: nat, k: nat, idx': nat, k': nat)
    requires g.Valid() && block % PAGE_SIZE == 0
    requires idx < g.BucketCnt() && k < g.PagesPerBucket()
    requires idx' < g.BucketCnt() && k' < g.PagesPerBucket()
    requires IdxToPageAddr(g, block, idx, k) == IdxToPageAddr(g, block, idx', k')
    ensures idx == idx' && k == k'
  {
    AddressRoundTrip(g, block, idx, k, 0);
    AddressRoundTrip(g, block, idx', k', 0);
  }

  /** True when the ring closes between pages k - 1 and k of the bucket: page k is where the
      reservation starts. */
  predicate WrapsAt(g: Geometry, block: nat, idx: nat, k: nat) {
    idx * g.PagesPerBucket() + k == RingOffset(g, block)
  }

  /** Consecutive pages of a bucket are adjacent in memory, except across the one place where
      the ring closes. */
  lemma AdjacentUnlessWrap(g: Geometry, block: nat, idx: nat, k: nat)
    requires g.Valid() && block % PAGE_SIZE == 0
    requires idx < g.BucketCnt() && 0 < k < g.PagesPerBucket()
    ensures IdxToPageAddr(g, block, idx, k) == IdxToPageAddr(g, block, idx, k - 1) + PAGE_SIZE
            <==> !WrapsAt(g, block, idx, k)
    ensures WrapsAt(g, block, idx, k) ==> IdxToPageAddr(g, block, idx, k) == block
  {
    RingOffsetBounds(g, block);
  }

  lemma ShippedInstance()
    ensures SHIPPED.Valid()
    ensures SHIPPED.BucketCnt() == 64 && SHIPPED.PagesPerBucket() == 32 && SHIPPED.RingPages() == 2048
    ensures SHIPPED.CommitPages() == 16 && SHIPPED.MultipagePages() == 8
    ensures SHIPPED.ReservationSize() == 2048 * PAGE_SIZE
  {
    assert Pow2(3) == 8 && Pow2(4) == 16 && Pow2(5) == 32 && Pow2(6) == 64;
    Pow2Sum(6, 5);
    Pow2Sum(11, 12);
    PageIs12();
  }
}
