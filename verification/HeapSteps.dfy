/** Every step of the allocator keeps its invariant (src/iibmalloc/iibmalloc.h:1031-1195). */
module HeapSteps {
  import opened Arith
  import opened Lists
  import opened SizeClasses
  import opened FreeItems
  import opened PageAddress
  import opened VirtualMemoryModel
  import opened Regions
  import opened HeapSpec
  import opened HeapItems
  import B = BulkSpec
  import BulkSteps
  import BulkTiling
  import P = PagerSpec
  import M = Multipage

  lemma InitialInv(c: Config)
    requires c.Valid()
    ensures Inv(c, Initial(c), Client(map[], B.Ledger(map[], map[])),
                Book(map[], seq(c.g.BucketCnt(), i => []), B.Book(map[], seq(c.p.maxPages + 1, i => []))))
  {
    P.InitialInv(c.g);
    M.InitialGrouped(c.g);
  }

  // ---------------------------------------------------------------------------------------
  // The bucket side

  /** Formatting a segment nobody uses. */
  lemma FormatKeeps(c: Config, h: Heap, cl: Client, b: Book, s: Segment)
    requires Inv(c, h, cl, b) && NewSegment(c, h.pages, b.home, s) && BucketSize(s.idx) > 0
    requires BucketSize(s.idx) <= s.size
    ensures s.idx < |b.free|
    ensures var h' := Format(h, s.start, s.size, BucketSize(s.idx), s.idx);
            && Inv(c, h', cl, Formatted(b, s))
            && h'.buckets[s.idx] != 0
            && WritesOutside(h.link, h'.link, cl.small) && WritesInItems(c, h.pages, h.link, h'.link)
  {
    BucketSizeFacts(s.idx);
    FormattedItems(c, h.pages, b, s);
    FormattedLists(c, h.pages, h, b, cl.small, s);
    FormatWrites(c, h.pages, h, b.home, cl.small, s);
  }

  /** Taking pages for a refill leaves everything else. */
  lemma TakePagesKeeps(c: Config, h: Heap, cl: Client, b: Book, idx: nat, osPage: nat)
    requires Inv(c, h, cl, b) && idx <= LAST_BUCKET
    requires P.NeedsReservation(c.g, h.pages, idx) ==>
               FreshRegionAt(AllRegions(c, h, cl.ledger), osPage, c.g.ReservationSize())
    ensures P.NeedsReservation(c.g, h.pages, idx) ==> P.FreshReservation(c.g, h.pages, osPage)
    ensures Inv(c, h.(pages := M.GetMultipage(c.g, h.pages, idx, osPage).0), cl, b)
  {
    hide B.Inv, P.Inv, FreeOk, M.RunsInOrder;
    if P.NeedsReservation(c.g, h.pages, idx) { FreshForPager(c.g, h.pages, AllRegions(c, h, cl.ledger), osPage); }
    M.GetMultipageKeeps(c.g, h.pages, idx, osPage);
    P.CommitDividesBucket(c.g);
    ReservationsAfterGroup(c.g, h.pages, idx, osPage, c.g.MultipagePages());
    var pages' := M.GetMultipage(c.g, h.pages, idx, osPage).0;
    ItemsOkGrows(c, h.pages, pages', b.home);
    assert RegionsApart(c, h.(pages := pages'), cl.ledger);
  }

  /** The segments of a refill. */
  function FirstSegment(d: M.MultipageData, idx: nat): Segment {
    Segment(d.ptr1, d.sz1, idx)
  }

  function SecondSegment(d: M.MultipageData, idx: nat): Segment {
    Segment(d.ptr2, d.sz2, idx)
  }

  lemma RefillSegments(c: Config, h: Heap, cl: Client, b: Book, idx: nat, osPage: nat)
    requires Inv(c, h, cl, b) && idx <= LAST_BUCKET
    requires P.NeedsReservation(c.g, h.pages, idx) ==> P.FreshReservation(c.g, h.pages, osPage)
    ensures var (pages', d) := M.GetMultipage(c.g, h.pages, idx, osPage);
            var s, t := FirstSegment(d, idx), SecondSegment(d, idx);
            && NewSegment(c, pages', b.home, s) && s.size > 0
            && (d.ptr2 != 0 ==> NewSegment(c, pages', b.home, t) && t.size > 0 && ApartSegments(t, s))
            && (d.ptr2 == 0 ==> t.size == 0)
            && s.size + t.size == c.g.MultipagePages() * PAGE_SIZE
  {
    hide B.Inv, P.Inv, M.GetPages, ItemOk, P.Issued;
    M.GetMultipageKeeps(c.g, h.pages, idx, osPage);
    var (pages', d) := M.GetMultipage(c.g, h.pages, idx, osPage);
    var qs := M.GetPages(c.g, h.pages, idx, osPage, c.g.MultipagePages()).1;
    assert M.SegmentsOk(d, qs);
    var s, t := FirstSegment(d, idx), SecondSegment(d, idx);
    assert qs[0] == d.ptr1 && qs[0] in qs;
    assert s.size > 0;
    forall a | a in b.home ensures ApartSegments(s, b.home[a]) && (d.ptr2 != 0 ==> ApartSegments(t, b.home[a])) {
      UnissuedApart(c, h.pages, a, b.home[a], s, qs);
      if d.ptr2 != 0 { UnissuedApart(c, h.pages, a, b.home[a], t, qs); }
    }
  }

  /** Pages nobody was given before are apart from every segment in use. */
  lemma UnissuedApart(c: Config, pages: P.Pager, a: nat, s: Segment, t: Segment, qs: seq<nat>)
    requires ItemOk(c, pages, a, s) && t.start % PAGE_SIZE == 0 && t.size > 0
    requires forall q :: M.InSegment(t.start, t.size, q) ==> q in qs
    requires forall i, q :: q in qs ==> !P.Issued(c.g, pages, i, q)
    ensures ApartSegments(t, s)
  {
    ItemInSegment(c, pages, a, s);
    assert s.size > 0;
    RangesApart(t.start, t.size, s.start, s.size);
  }

  /** The segment holds at least one item of its bucket. */
  predicate Usable(s: Segment) {
    s.start != 0 && s.idx <= LAST_BUCKET && BucketSize(s.idx) <= s.size
  }

  /** The book after trying to format a segment. */
  ghost function Tried(b: Book, s: Segment): Book
    requires s.idx < |b.free| && s.idx <= LAST_BUCKET && BucketSize(s.idx) > 0
  {
    if Usable(s) then Formatted(b, s) else b
  }

  lemma TryFormatKeeps(c: Config, h: Heap, cl: Client, b: Book, s: Segment)
    requires Inv(c, h, cl, b) && s.idx <= LAST_BUCKET && (s.start != 0 ==> NewSegment(c, h.pages, b.home, s))
    ensures BucketSize(s.idx) > 0 && s.idx < |b.free| == |h.buckets|
    ensures var h' := Format(h, s.start, s.size, BucketSize(s.idx), s.idx);
            && Inv(c, h', cl, Tried(b, s))
            && (h'.buckets[s.idx] != 0 || (!Usable(s) && h' == h))
            && WritesOutside(h.link, h'.link, cl.small) && WritesInItems(c, h.pages, h.link, h'.link)
  {
    BucketSizeFacts(s.idx);
    if Usable(s) { FormatKeeps(c, h, cl, b, s); }
  }

  lemma WritesTransitive(c: Config, pages: P.Pager, link: map<nat, nat>, link1: map<nat, nat>, link2: map<nat, nat>,
                         small: map<nat, nat>)
    requires WritesOutside(link, link1, small) && WritesOutside(link1, link2, small)
    requires WritesInItems(c, pages, link, link1) && WritesInItems(c, pages, link1, link2)
    ensures WritesOutside(link, link2, small) && WritesInItems(c, pages, link, link2)
  {
    forall x | WordWritten(link, link2, x) ensures WordWritten(link, link1, x) || WordWritten(link1, link2, x) {}
  }

  /** The segment whose items a refill leaves on the list. */
  function KeptSegment(d: M.MultipageData, idx: nat): Segment {
    if Usable(SecondSegment(d, idx)) then SecondSegment(d, idx) else FirstSegment(d, idx)
  }

  /** One of the two segments is large enough for an item of any bucket. */
  lemma OneIsUsable(c: Config, d: M.MultipageData, idx: nat)
    requires c.Valid() && idx <= LAST_BUCKET && d.ptr1 != 0 && (d.ptr2 == 0 ==> d.sz2 == 0)
    requires d.sz1 + d.sz2 == c.g.MultipagePages() * PAGE_SIZE
    ensures Usable(KeptSegment(d, idx))
  {
    BucketSizeFacts(idx);
  }

  lemma RefillTwice(c: Config, h: Heap, cl: Client, b: Book, s: Segment, t: Segment)
    requires Inv(c, h, cl, b) && s.idx == t.idx <= LAST_BUCKET
    requires NewSegment(c, h.pages, b.home, s)
    requires t.start != 0 ==> NewSegment(c, h.pages, b.home, t) && ApartSegments(t, s)
    ensures BucketSize(s.idx) > 0 && s.idx < |b.free| == |h.buckets|
    ensures var h1 := Format(h, s.start, s.size, BucketSize(s.idx), s.idx);
            var h2 := Format(h1, t.start, t.size, BucketSize(t.idx), t.idx);
            && Inv(c, h2, cl, Tried(Tried(b, s), t))
            && (Usable(s) || Usable(t) ==> h2.buckets[s.idx] != 0)
            && WritesOutside(h.link, h2.link, cl.small) && WritesInItems(c, h.pages, h.link, h2.link)
  {
    TryFormatKeeps(c, h, cl, b, s);
    var h1 := Format(h, s.start, s.size, BucketSize(s.idx), s.idx);
    if t.start != 0 { FormattedHome(b, s, t, Tried(b, s)); }
    TryFormatKeeps(c, h1, cl, Tried(b, s), t);
    var h2 := Format(h1, t.start, t.size, BucketSize(t.idx), t.idx);
    WritesTransitive(c, h.pages, h.link, h1.link, h2.link, cl.small);
  }

  /** Refill always yields an item, whatever the two segments look like. */
  lemma RefillKeeps(c: Config, h: Heap, cl: Client, b: Book, idx: nat, osPage: nat) returns (b': Book)
    requires Inv(c, h, cl, b) && idx <= LAST_BUCKET
    requires P.NeedsReservation(c.g, h.pages, idx) ==>
               FreshRegionAt(AllRegions(c, h, cl.ledger), osPage, c.g.ReservationSize())
    ensures BucketSize(idx) > 0 && idx < |b.free|
    ensures var d := M.GetMultipage(c.g, h.pages, idx, osPage).1;
            && b' == Tried(Tried(b, FirstSegment(d, idx)), SecondSegment(d, idx))
            && Usable(KeptSegment(d, idx))
    ensures var h' := Refill(c, h, idx, osPage);
            && Inv(c, h', cl, b')
            && h'.buckets[idx] != 0
            && WritesOutside(h.link, h'.link, cl.small) && WritesInItems(c, h'.pages, h.link, h'.link)
  {
    BucketSizeFacts(idx);
    TakePagesKeeps(c, h, cl, b, idx, osPage);
    RefillSegments(c, h, cl, b, idx, osPage);
    var (pages', d) := M.GetMultipage(c.g, h.pages, idx, osPage);
    RefillTwice(c, h.(pages := pages'), cl, b, FirstSegment(d, idx), SecondSegment(d, idx));
    OneIsUsable(c, d, idx);
    b' := Tried(Tried(b, FirstSegment(d, idx)), SecondSegment(d, idx));
  }

  /** The segment whose items, if any, a refill loses. */
  function OtherSegment(d: M.MultipageData, idx: nat): Segment {
    if Usable(SecondSegment(d, idx)) then FirstSegment(d, idx) else SecondSegment(d, idx)
  }

  lemma UnusableIsEmpty(s: Segment)
    requires s.idx <= LAST_BUCKET && BucketSize(s.idx) > 0 && !Usable(s) && (s.start == 0 ==> s.size == 0)
    ensures Items(s.start, s.size, BucketSize(s.idx)) == []
  {}

  /** The items of the first of two segments that both hold one are on no list afterwards. */
  lemma FirstIsLost(c: Config, pages: P.Pager, h: Heap, b: Book, small: map<nat, nat>, s: Segment, t: Segment, i: nat,
                    a: nat)
    requires ItemsOk(c, pages, b.home) && FreeOk(h.link, h.buckets, b, small) && s.idx == t.idx < |b.free|
    requires NewSegment(c, pages, b.home, s) && ApartSegments(t, s) && Usable(s) && Usable(t) && i < |b.free|
    requires BucketSize(s.idx) > 0 && a in Items(s.start, s.size, BucketSize(s.idx))
    ensures a !in Tried(Tried(b, s), t).free[i]
  {
    ItemsExact(s.start, s.size, BucketSize(s.idx), a);
    ItemsExact(t.start, t.size, BucketSize(t.idx), a);
    if i != s.idx && a in b.free[i] { ItemInSegment(c, pages, a, b.home[a]); }
  }

  /** No item of the segment a refill loses is on a list of its book. */
  lemma OtherIsLost(c: Config, h: Heap, cl: Client, b: Book, idx: nat, osPage: nat, i: nat, a: nat)
    requires Inv(c, h, cl, b) && idx <= LAST_BUCKET && BucketSize(idx) > 0 && i < |b.free|
    requires P.NeedsReservation(c.g, h.pages, idx) ==> P.FreshReservation(c.g, h.pages, osPage)
    requires P.Inv(c.g, M.GetMultipage(c.g, h.pages, idx, osPage).0)
    requires ItemsOk(c, M.GetMultipage(c.g, h.pages, idx, osPage).0, b.home)
    requires var o := OtherSegment(M.GetMultipage(c.g, h.pages, idx, osPage).1, idx);
             a in Items(o.start, o.size, BucketSize(idx))
    ensures var d := M.GetMultipage(c.g, h.pages, idx, osPage).1;
            a !in Tried(Tried(b, FirstSegment(d, idx)), SecondSegment(d, idx)).free[i]
  {
    RefillSegments(c, h, cl, b, idx, osPage);
    var (pages', d) := M.GetMultipage(c.g, h.pages, idx, osPage);
    var s, t := FirstSegment(d, idx), SecondSegment(d, idx);
    if !Usable(t) {
      UnusableIsEmpty(t);
    } else if !Usable(s) {
      UnusableIsEmpty(s);
    } else {
      FirstIsLost(c, pages', h, b, cl.small, s, t, i, a);
    }
  }

  /** The list a refill leaves: exactly the items of the last segment that holds one. Those of the
      other segment are on no list of any bucket. */
  lemma RefillLeaves(c: Config, h: Heap, cl: Client, b: Book, idx: nat, osPage: nat)
    requires Inv(c, h, cl, b) && idx <= LAST_BUCKET && h.buckets[idx] == 0
    requires P.NeedsReservation(c.g, h.pages, idx) ==>
               FreshRegionAt(AllRegions(c, h, cl.ledger), osPage, c.g.ReservationSize())
    ensures BucketSize(idx) > 0
    ensures var h' := Refill(c, h, idx, osPage);
            var d := M.GetMultipage(c.g, h.pages, idx, osPage).1;
            var kept, other := KeptSegment(d, idx), OtherSegment(d, idx);
            && Linked(h'.link, h'.buckets[idx], Items(kept.start, kept.size, BucketSize(idx)))
            && forall i, l, a :: 0 <= i < |h'.buckets| && Linked(h'.link, h'.buckets[i], l) ==>
                 a in Items(other.start, other.size, BucketSize(idx)) ==> a !in l
  {
    hide B.Inv, P.Inv, BucketSize;
    var b' := RefillKeeps(c, h, cl, b, idx, osPage);
    TakePagesKeeps(c, h, cl, b, idx, osPage);
    var h' := Refill(c, h, idx, osPage);
    var other := OtherSegment(M.GetMultipage(c.g, h.pages, idx, osPage).1, idx);
    assert ListOk(h'.link, h'.buckets[idx], b'.free[idx]);
    forall i, l, a | 0 <= i < |h'.buckets| && Linked(h'.link, h'.buckets[i], l)
                     && a in Items(other.start, other.size, BucketSize(idx))
      ensures a !in l
    {
      assert ListOk(h'.link, h'.buckets[i], b'.free[i]);
      LinkedUnique(h'.link, h'.buckets[i], l, b'.free[i]);
      OtherIsLost(c, h, cl, b, idx, osPage, i, a);
    }
  }

  lemma FormattedHome(b: Book, s: Segment, t: Segment, b1: Book)
    requires s.idx < |b.free| && s.idx <= LAST_BUCKET && BucketSize(s.idx) > 0
    requires b1 == b || b1 == Formatted(b, s)
    requires ApartSegments(t, s) && forall a :: a in b.home ==> ApartSegments(t, b.home[a])
    ensures forall a :: a in b1.home ==> ApartSegments(t, b1.home[a])
  {}

  // ---------------------------------------------------------------------------------------
  // Pop and push

  lemma PopLists(link: map<nat, nat>, buckets: seq<nat>, free: seq<seq<nat>>, idx: nat)
    requires ListsOk(link, buckets, free) && idx < |buckets| && buckets[idx] != 0
    ensures free[idx] != [] && buckets[idx] == free[idx][0] && buckets[idx] in link
    ensures ListsOk(link, buckets[idx := link[buckets[idx]]], free[idx := free[idx][1..]])
    ensures buckets[idx] !in free[idx][1..]
  {
    assert ListOk(link, buckets[idx], free[idx]);
  }

  ghost function Popped(b: Book, idx: nat): Book
    requires idx < |b.free| && b.free[idx] != []
  {
    b.(free := b.free[idx := b.free[idx][1..]])
  }

  /** Popping the head of a list that is not empty. */
  lemma PopKeeps(c: Config, h: Heap, cl: Client, b: Book, idx: nat) returns (b': Book)
    requires Inv(c, h, cl, b) && idx <= LAST_BUCKET && h.buckets[idx] != 0
    ensures h.buckets[idx] in h.link
    ensures var (h', a) := Pop(h, idx);
            && a !in cl.small && a != 0 && !GoesToBulk(a) && AddressToIdx(c.g, a) == idx
            && Inv(c, h', cl.(small := cl.small[a := idx]), b')
    ensures b.free[idx] != [] && h.buckets[idx] == b.free[idx][0] && b' == Popped(b, idx)
  {
    PopLists(h.link, h.buckets, b.free, idx);
    var a := h.buckets[idx];
    b' := Popped(b, idx);
    assert a in b.free[idx];
    HomeFacts(c, h, cl, b, a);
    PopHome(h.link, h.buckets, b, cl.small, idx);
  }

  lemma PopHome(link: map<nat, nat>, buckets: seq<nat>, b: Book, small: map<nat, nat>, idx: nat)
    requires FreeOk(link, buckets, b, small) && idx < |buckets| && b.free[idx] != []
    requires var a := b.free[idx][0];
             a in link && a !in b.free[idx][1..] && ListsOk(link, buckets[idx := link[a]], Popped(b, idx).free)
    ensures var a := b.free[idx][0]; FreeOk(link, buckets[idx := link[a]], Popped(b, idx), small[a := idx])
  {
    var a, b' := b.free[idx][0], Popped(b, idx);
    var rest := b.free[idx][1..];
    assert b.free[idx] == [a] + rest;
    assert a in b.free[idx];
    assert forall i, x :: 0 <= i < |buckets| && x in b'.free[i] ==> x in b.free[i];
    forall x | x in b'.home && x !in small[a := idx] ensures x in b'.free[b'.home[x].idx] {
      assert x in b.free[b.home[x].idx];
    }
  }

  /** What is known of an item from its address. */
  lemma HomeFacts(c: Config, h: Heap, cl: Client, b: Book, a: nat)
    requires Inv(c, h, cl, b) && a in b.home
    ensures b.home[a].idx <= LAST_BUCKET && a != 0 && !GoesToBulk(a) && AddressToIdx(c.g, a) == b.home[a].idx
  {
    ItemInSegment(c, h.pages, a, b.home[a]);
    BucketSizeFacts(b.home[a].idx);
    var j := ByteOfSegment(c, h.pages, b.home[a], a);
  }

  ghost function Pushed(b: Book, idx: nat, a: nat): Book
    requires idx < |b.free|
  {
    b.(free := b.free[idx := [a] + b.free[idx]])
  }

  lemma PushLists(link: map<nat, nat>, buckets: seq<nat>, free: seq<seq<nat>>, idx: nat, a: nat)
    requires ListsOk(link, buckets, free) && idx < |buckets| && a != 0
    requires forall i :: 0 <= i < |free| ==> a !in free[i]
    ensures ListsOk(link[a := buckets[idx]], buckets[idx := a], free[idx := [a] + free[idx]])
  {
    var link' := link[a := buckets[idx]];
    forall i | 0 <= i < |buckets| && i != idx ensures ListOk(link', buckets[i], free[i]) {
      assert ListOk(link, buckets[i], free[i]);
      LinkedKeys(link, buckets[i], free[i]);
      LinkedFrame(link, link', buckets[i], free[i]);
    }
    assert ListOk(link, buckets[idx], free[idx]);
    LinkedPush(link, buckets[idx], free[idx], a);
  }

  lemma PushHome(link: map<nat, nat>, buckets: seq<nat>, b: Book, small: map<nat, nat>, a: nat, link': map<nat, nat>,
                 buckets': seq<nat>)
    requires FreeOk(link, buckets, b, small) && a in small && small[a] < |buckets| == |buckets'|
    requires ListsOk(link', buckets', Pushed(b, small[a], a).free)
    ensures FreeOk(link', buckets', Pushed(b, small[a], a), small - {a})
  {
    var idx := small[a];
    var b' := Pushed(b, idx, a);
    assert forall i, x :: 0 <= i < |buckets| && x in b'.free[i] ==> x in b.free[i] || (i == idx && x == a);
    forall x | x in b'.home && x !in small - {a} ensures x in b'.free[b'.home[x].idx] {
      if x != a { assert x in b.free[b.home[x].idx]; }
    }
  }

  /** Giving an item back puts it on the very bucket it came from. */
  lemma PushKeeps(c: Config, h: Heap, cl: Client, b: Book, a: nat) returns (b': Book)
    requires Inv(c, h, cl, b) && a in cl.small
    ensures a != 0 && !GoesToBulk(a) && AddressToIdx(c.g, a) == cl.small[a] <= LAST_BUCKET
    ensures cl.small[a] < |h.buckets|
    ensures var h' := Push(h, cl.small[a], a);
            && Inv(c, h', cl.(small := cl.small - {a}), b')
            && WritesOutside(h.link, h'.link, cl.small - {a}) && WritesInItems(c, h'.pages, h.link, h'.link)
    ensures b' == Pushed(b, cl.small[a], a)
  {
    hide B.Inv, IsItem, IndexToBucketSizeHalfExp;
    HomeFacts(c, h, cl, b, a);
    var idx := cl.small[a];
    b' := Pushed(b, idx, a);
    PushLists(h.link, h.buckets, b.free, idx, a);
    PushHome(h.link, h.buckets, b, cl.small, a, h.link[a := h.buckets[idx]], h.buckets[idx := a]);
    assert ItemOk(c, h.pages, a, b.home[a]);
    forall x | x in cl.small && x != a ensures WordMisses(a, x, BucketSize(cl.small[x])) {
      ItemsApart(c, h.pages, b.home, x, a);
      BucketSizeFacts(idx);
    }
  }
}
