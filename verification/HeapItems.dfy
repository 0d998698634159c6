/** Segments and items of the bucket side: where they lie, and what formatting does to them
    (src/iibmalloc/iibmalloc.h:982-1054). */
module HeapItems {
  import opened Arith
  import opened Lists
  import opened SizeClasses
  import opened FreeItems
  import opened PageAddress
  import opened VirtualMemoryModel
  import opened Regions
  import opened HeapSpec
  import B = BulkSpec
  import P = PagerSpec
  import M = Multipage

  /** What formatting relies on. */
  lemma BucketSizeFacts(idx: nat)
    requires idx <= LAST_BUCKET
    ensures 8 <= BucketSize(idx) <= MAX_BUCKET_SIZE && Formattable(BucketSize(idx))
  {
    BucketSizeHalfExp(idx);
    HalfExpMultipleOf32OrSmall(idx);
    LastBucketSize();
    RawHalfExpMono(AlignedHalfExp(idx), LAST_BUCKET);
    RawHalfExpMono(0, AlignedHalfExp(idx));
  }

  lemma LastBucketSize()
    ensures RawHalfExp(LAST_BUCKET) == MAX_BUCKET_SIZE && RawHalfExp(0) == 8
  {
    assert Pow2(3) == 8;
    PageIs12();
    assert Pow2(13) == 2 * Pow2(12);
  }

  /** Page-aligned ranges without a common page are apart. */
  lemma RangesApart(a: nat, n: nat, b: nat, m: nat)
    requires a % PAGE_SIZE == 0 && b % PAGE_SIZE == 0 && n > 0 && m > 0
    requires forall q :: !(M.InSegment(a, n, q) && M.InSegment(b, m, q))
    ensures a + n <= b || b + m <= a
  {
    if a <= b < a + n { assert M.InSegment(a, n, b) && M.InSegment(b, m, b); }
    else if b <= a < b + m { assert M.InSegment(a, n, a) && M.InSegment(b, m, a); }
  }

  lemma PageOf(x: nat, start: nat, size: nat)
    requires start <= x < start + size && start % PAGE_SIZE == 0
    ensures M.InSegment(start, size, PtrToPageStart(x)) && PtrToPageStart(x) <= x < PtrToPageStart(x) + PAGE_SIZE
  {}

  /** Every byte of a segment lies in a page handed out for its bucket; the bucket can be told from
      the address. */
  lemma ByteOfSegment(c: Config, pages: P.Pager, s: Segment, x: nat) returns (j: nat)
    requires P.Inv(c.g, pages) && SegmentOk(c, pages, s) && s.start <= x < s.start + s.size
    ensures AddressToIdx(c.g, x) == s.idx
    ensures 1 <= j < |pages.blocks|
    ensures pages.blocks[j].addr <= x < pages.blocks[j].addr + c.g.ReservationSize()
  {
    PageOf(x, s.start, s.size);
    var q := PtrToPageStart(x);
    assert P.Issued(c.g, pages, s.idx, q);
    var k;
    j, k :| 1 <= j < |pages.blocks| && 0 <= k < pages.blocks[j].nextToUse[s.idx]
            && P.PageAt(c.g, pages, j, s.idx, k) == q;
    assert P.OrderOk(c.g, pages, j, s.idx);
    P.InReservation(c.g, pages, j, s.idx, k);
    SamePageSameBucket(c.g, x, q);
  }

  lemma SamePageSameBucket(g: Geometry, x: nat, q: nat)
    requires q == PtrToPageStart(x)
    ensures AddressToIdx(g, x) == AddressToIdx(g, q)
  {
    assert q / PAGE_SIZE == x / PAGE_SIZE;
  }

  /** An item lies inside its segment. */
  lemma ItemInSegment(c: Config, pages: P.Pager, a: nat, s: Segment)
    requires ItemOk(c, pages, a, s)
    ensures s.start <= a && a + BucketSize(s.idx) <= s.start + s.size
    ensures a != 0 && !GoesToBulk(a)
  {
    OffsetFromPage(a, s.start);
  }

  lemma OffsetFromPage(a: nat, start: nat)
    requires start <= a && start % PAGE_SIZE == 0
    ensures a % PAGE_SIZE == (a - start) % PAGE_SIZE
  {}

  /** Items do not overlap. */
  lemma ItemsApart(c: Config, pages: P.Pager, home: map<nat, Segment>, a: nat, a': nat)
    requires ItemsOk(c, pages, home) && a in home && a' in home && a != a'
    ensures home[a].idx <= LAST_BUCKET && home[a'].idx <= LAST_BUCKET
    ensures a + BucketSize(home[a].idx) <= a' || a' + BucketSize(home[a'].idx) <= a
  {
    ItemInSegment(c, pages, a, home[a]);
    ItemInSegment(c, pages, a', home[a']);
    if home[a] == home[a'] {
      var s := home[a];
      var b := BucketSize(s.idx);
      MultiplesApart(a - s.start, a' - s.start, b);
      MultiplesApart(a' - s.start, a - s.start, b);
    }
  }

  /** More pages handed out leave the items as they are. */
  lemma ItemsOkGrows(c: Config, pages: P.Pager, pages': P.Pager, home: map<nat, Segment>)
    requires ItemsOk(c, pages, home)
    requires forall i, q :: P.Issued(c.g, pages, i, q) ==> P.Issued(c.g, pages', i, q)
    ensures ItemsOk(c, pages', home)
  {
    forall a | a in home ensures ItemOk(c, pages', a, home[a]) {
      assert ItemOk(c, pages, a, home[a]);
    }
  }

  // ---------------------------------------------------------------------------------------
  // Formatting

  /** The book after formatting a segment: its items are the list of its bucket, and what was on
      that list before is lost. */
  ghost function Formatted(b: Book, s: Segment): Book
    requires s.idx < |b.free| && s.idx <= LAST_BUCKET && BucketSize(s.idx) > 0
  {
    var items := Items(s.start, s.size, BucketSize(s.idx));
    var home := map a | a in b.home && a !in b.free[s.idx] :: b.home[a];
    b.(home := home + map a | a in items :: s, free := b.free[s.idx := items])
  }

  /** A segment that can be formatted: handed out, and apart from those in use. */
  ghost predicate NewSegment(c: Config, pages: P.Pager, home: map<nat, Segment>, s: Segment) {
    && SegmentOk(c, pages, s)
    && forall a :: a in home ==> ApartSegments(s, home[a])
  }

  lemma FormattedItems(c: Config, pages: P.Pager, b: Book, s: Segment)
    requires ItemsOk(c, pages, b.home) && NewSegment(c, pages, b.home, s) && s.idx < |b.free| && BucketSize(s.idx) > 0
    ensures ItemsOk(c, pages, Formatted(b, s).home)
    ensures forall a :: a in Items(s.start, s.size, BucketSize(s.idx)) ==>
              ItemOk(c, pages, a, s) && a !in b.home && a != 0
    ensures Distinct(Items(s.start, s.size, BucketSize(s.idx)))
  {
    var size := BucketSize(s.idx);
    var items := Items(s.start, s.size, size);
    ItemsFromOrdered(s.start, size, 0, ItemCnt(s.size, size));
    forall a | a in items ensures ItemOk(c, pages, a, s) && a !in b.home && a != 0 {
      ItemsExact(s.start, s.size, size, a);
      assert ItemOk(c, pages, a, s);
      ItemInSegment(c, pages, a, s);
      if a in b.home { ItemInSegment(c, pages, a, b.home[a]); }
    }
  }

  /** A freshly threaded list takes the place of the list of its bucket. */
  lemma NewList(link: map<nat, nat>, buckets: seq<nat>, free: seq<seq<nat>>, idx: nat, items: seq<nat>)
    requires ListsOk(link, buckets, free) && idx < |buckets|
    requires Distinct(items) && 0 !in items && items != []
    requires forall i, a :: 0 <= i < |free| && a in free[i] ==> a !in items
    ensures ListsOk(Threaded(link, items, 0), buckets[idx := items[0]], free[idx := items])
  {
    var link' := Threaded(link, items, 0);
    ThreadedLinked(link, items);
    ThreadedKeys(link, items, 0);
    forall i | 0 <= i < |buckets| && i != idx ensures ListOk(link', buckets[i], free[i]) {
      assert ListOk(link, buckets[i], free[i]);
      LinkedKeys(link, buckets[i], free[i]);
      LinkedFrame(link, link', buckets[i], free[i]);
    }
  }

  /** Formatting a segment, for the lists. */
  lemma FormattedLists(c: Config, pages: P.Pager, h: Heap, b: Book, small: map<nat, nat>, s: Segment)
    requires FreeOk(h.link, h.buckets, b, small)
    requires ItemsOk(c, pages, b.home) && NewSegment(c, pages, b.home, s)
    requires s.idx < |h.buckets| && BucketSize(s.idx) > 0 && BucketSize(s.idx) <= s.size
    ensures var h' := Format(h, s.start, s.size, BucketSize(s.idx), s.idx);
            FreeOk(h'.link, h'.buckets, Formatted(b, s), small) && h'.buckets[s.idx] != 0
  {
    var items := Items(s.start, s.size, BucketSize(s.idx));
    FormattedItems(c, pages, b, s);
    FirstItem(s.start, s.size, BucketSize(s.idx));
    NewList(h.link, h.buckets, b.free, s.idx, items);
    NewHome(h.link, h.buckets, b, small, s, items, Threaded(h.link, items, 0));
  }

  lemma NewHome(link: map<nat, nat>, buckets: seq<nat>, b: Book, small: map<nat, nat>, s: Segment, items: seq<nat>,
                link': map<nat, nat>)
    requires FreeOk(link, buckets, b, small) && s.idx < |buckets| && s.idx <= LAST_BUCKET && BucketSize(s.idx) > 0
    requires items == Items(s.start, s.size, BucketSize(s.idx)) && items != []
    requires forall a :: a in items ==> a !in b.home
    requires ListsOk(link', buckets[s.idx := items[0]], b.free[s.idx := items])
    ensures FreeOk(link', buckets[s.idx := items[0]], Formatted(b, s), small)
  {
    var b' := Formatted(b, s);
    forall i, a | 0 <= i < |buckets| && a in b'.free[i] ensures a in b'.home && b'.home[a].idx == i && a !in small {
      if i != s.idx { assert a in b.free[i]; }
    }
    forall a | a in small ensures a in b'.home && b'.home[a].idx == small[a] {
      assert a !in b.free[s.idx];
    }
    forall a | a in b'.home && a !in small ensures b'.home[a].idx < |buckets| && a in b'.free[b'.home[a].idx] {
      if a !in items { assert a in b.free[b.home[a].idx]; }
    }
  }

  /** Formatting writes items of the segment only. */
  lemma FormatWrites(c: Config, pages: P.Pager, h: Heap, home: map<nat, Segment>, small: map<nat, nat>, s: Segment)
    requires ItemsOk(c, pages, home) && NewSegment(c, pages, home, s) && s.idx < |h.buckets| && s.idx <= LAST_BUCKET
    requires forall a :: a in small ==> a in home && home[a].idx == small[a]
    requires BucketSize(s.idx) >= 8
    ensures WritesOutside(h.link, Format(h, s.start, s.size, BucketSize(s.idx), s.idx).link, small)
    ensures WritesInItems(c, pages, h.link, Format(h, s.start, s.size, BucketSize(s.idx), s.idx).link)
  {
    hide AlignUpExp, IndexToBucketSizeHalfExp;
    var size := BucketSize(s.idx);
    var items := Items(s.start, s.size, size);
    ThreadedKeys(h.link, items, 0);
    forall x | x in items ensures ItemOk(c, pages, x, s) {
      ItemsExact(s.start, s.size, size, x);
    }
    forall x, a | x in items && a in small ensures WordMisses(x, a, BucketSize(home[a].idx)) {
      assert ItemOk(c, pages, x, s);
      ItemInSegment(c, pages, x, s);
      ItemInSegment(c, pages, a, home[a]);
    }
  }
}
