/** SoundingAddressPageAllocator as steps on its list of reservations
    (src/iibmalloc/iibmalloc.h:160-236, 308-358).

    blocks[0] is the list's static start node, which owns no memory and counts as used up.
    nextToUse and nextToCommit are cursors per bucket; head[idx] is the position of
    indexHead[idx]. */
module PagerSpec {
  import opened Arith
  import opened PageAddress

  datatype Block = Block(addr: nat, nextToUse: seq<nat>, nextToCommit: seq<nat>)
  datatype Pager = Pager(blocks: seq<Block>, head: seq<nat>)

  /** resetLists */
  function Initial(g: Geometry): Pager {
    var full := seq(g.BucketCnt(), i => g.PagesPerBucket());
    Pager([Block(0, full, full)], seq(g.BucketCnt(), i => 0))
  }

  function Zeros(n: nat): seq<nat> {
    seq(n, i => 0)
  }

  predicate Shape(g: Geometry, s: Pager) {
    && |s.head| == g.BucketCnt()
    && 0 < |s.blocks|
    && (forall j :: 0 <= j < |s.blocks| ==> |s.blocks[j].nextToUse| == |s.blocks[j].nextToCommit| == g.BucketCnt())
    && (forall i :: 0 <= i < |s.head| ==> s.head[i] < |s.blocks|)
  }

  /** The reservation at the head still has pages for the bucket. */
  function FromHead(g: Geometry, s: Pager, idx: nat): (r: (Pager, nat))
    requires Shape(g, s) && idx < g.BucketCnt()
  {
    var h := s.head[idx];
    var b := s.blocks[h];
    var k := b.nextToUse[idx];
    var commit := if k == b.nextToCommit[idx] then b.nextToCommit[idx] + g.CommitPages() else b.nextToCommit[idx];
    (s.(blocks := s.blocks[h := Block(b.addr, b.nextToUse[idx := k + 1], b.nextToCommit[idx := commit])]),
     IdxToPageAddr(g, b.addr, idx, k))
  }

  /** createNextBlockAndGetPage */
  function FromNewBlock(g: Geometry, s: Pager, idx: nat, osAddr: nat): (r: (Pager, nat))
    requires Shape(g, s) && idx < g.BucketCnt()
  {
    var b := Block(osAddr, Zeros(g.BucketCnt())[idx := 1], Zeros(g.BucketCnt())[idx := g.CommitPages()]);
    (Pager(s.blocks + [b], s.head[idx := |s.blocks|]), IdxToPageAddr(g, osAddr, idx, 0))
  }

  /** The next reservation is used for the first time by this bucket. */
  function FromNextBlock(g: Geometry, s: Pager, idx: nat): (r: (Pager, nat))
    requires Shape(g, s) && idx < g.BucketCnt() && s.head[idx] + 1 < |s.blocks|
  {
    var h := s.head[idx] + 1;
    var b := s.blocks[h];
    (Pager(s.blocks[h := Block(b.addr, b.nextToUse[idx := 1], b.nextToCommit[idx := g.CommitPages()])],
           s.head[idx := h]),
     IdxToPageAddr(g, b.addr, idx, b.nextToUse[idx]))
  }

  /** getPage; osAddr is the reservation the operating system gives if one is needed. */
  function GetPage(g: Geometry, s: Pager, idx: nat, osAddr: nat): (r: (Pager, nat))
    requires Shape(g, s) && idx < g.BucketCnt()
    ensures Shape(g, r.0)
  {
    if s.blocks[s.head[idx]].nextToUse[idx] < g.PagesPerBucket() then FromHead(g, s, idx)
    else if s.head[idx] + 1 == |s.blocks| then FromNewBlock(g, s, idx, osAddr)
    else FromNextBlock(g, s, idx)
  }

  /** The bucket is out of pages in every reservation. */
  predicate NeedsReservation(g: Geometry, s: Pager, idx: nat)
    requires Shape(g, s) && idx < g.BucketCnt()
  {
    s.blocks[s.head[idx]].nextToUse[idx] >= g.PagesPerBucket() && s.head[idx] + 1 == |s.blocks|
  }

  // ---------------------------------------------------------------------------------------
  // Invariant

  ghost predicate ApartBlocks(g: Geometry, a: nat, b: nat) {
    a + g.ReservationSize() <= b || b + g.ReservationSize() <= a
  }

  /** Cursors of one bucket in one reservation. */
  ghost predicate CursorsOk(g: Geometry, b: Block, i: nat)
    requires i < |b.nextToUse| && i < |b.nextToCommit|
  {
    b.nextToUse[i] <= b.nextToCommit[i] <= g.PagesPerBucket() && b.nextToCommit[i] % g.CommitPages() == 0
  }

  /** For every bucket: reservations before its head are used up, those after it untouched. */
  ghost predicate OrderOk(g: Geometry, s: Pager, j: nat, i: nat)
    requires Shape(g, s) && j < |s.blocks| && i < g.BucketCnt()
  {
    && CursorsOk(g, s.blocks[j], i)
    && (j < s.head[i] ==> s.blocks[j].nextToUse[i] == g.PagesPerBucket())
    && (s.head[i] < j ==> s.blocks[j].nextToUse[i] == 0 && s.blocks[j].nextToCommit[i] == 0)
  }

  ghost predicate Inv(g: Geometry, s: Pager) {
    && g.Valid() && Shape(g, s)
    && (forall i :: 0 <= i < g.BucketCnt() ==> s.blocks[0].nextToUse[i] == g.PagesPerBucket())
    && (forall j :: 1 <= j < |s.blocks| ==> 0 < s.blocks[j].addr && s.blocks[j].addr % PAGE_SIZE == 0)
    && (forall j, k :: 1 <= j < k < |s.blocks| ==> ApartBlocks(g, s.blocks[j].addr, s.blocks[k].addr))
    && (forall j, i {:trigger OrderOk(g, s, j, i)} :: 0 <= j < |s.blocks| && 0 <= i < g.BucketCnt() ==>
        OrderOk(g, s, j, i))
  }

  ghost predicate FreshReservation(g: Geometry, s: Pager, osAddr: nat) {
    && 0 < osAddr && osAddr % PAGE_SIZE == 0
    && forall j :: 1 <= j < |s.blocks| ==> ApartBlocks(g, s.blocks[j].addr, osAddr)
  }

  /** Page number k of bucket i in reservation j. */
  function PageAt(g: Geometry, s: Pager, j: nat, i: nat, k: nat): nat
    requires j < |s.blocks|
  {
    IdxToPageAddr(g, s.blocks[j].addr, i, k)
  }

  /** q has been handed out for bucket i. */
  ghost predicate Issued(g: Geometry, s: Pager, i: nat, q: nat) {
    Shape(g, s) && i < g.BucketCnt() &&
    exists j, k {:trigger PageAt(g, s, j, i, k)} ::
      1 <= j < |s.blocks| && 0 <= k < s.blocks[j].nextToUse[i] && PageAt(g, s, j, i, k) == q
  }

  /** q has been committed for bucket i: exactly the pages below nextToCommit are. */
  ghost predicate Committed(g: Geometry, s: Pager, i: nat, q: nat) {
    Shape(g, s) && i < g.BucketCnt() &&
    exists j, k {:trigger PageAt(g, s, j, i, k)} ::
      1 <= j < |s.blocks| && 0 <= k < s.blocks[j].nextToCommit[i] && PageAt(g, s, j, i, k) == q
  }

  // ---------------------------------------------------------------------------------------
  // Lemmas

  lemma InitialInv(g: Geometry)
    requires g.Valid()
    ensures Inv(g, Initial(g))
  {
    var s := Initial(g);
    CommitDividesBucket(g);
    forall j, i | 0 <= j < |s.blocks| && 0 <= i < g.BucketCnt() ensures OrderOk(g, s, j, i) {}
  }

  lemma CommitDividesBucket(g: Geometry)
    requires g.Valid()
    ensures g.PagesPerBucket() % g.CommitPages() == 0 && g.CommitPages() <= g.PagesPerBucket()
    ensures g.CommitPages() % g.MultipagePages() == 0 && g.MultipagePages() <= g.CommitPages()
    ensures g.PagesPerBucket() % g.MultipagePages() == 0 && g.CommitPages() % g.CommitPages() == 0
  {
    PowDivides(g.commitExp, g.commitExp);
    PowDivides(g.commitExp, g.PagesPerBucketExp());
    PowDivides(g.multipageExp, g.commitExp);
    PowDivides(g.multipageExp, g.PagesPerBucketExp());
  }

  lemma PowDivides(a: nat, b: nat)
    requires a <= b
    ensures Pow2(b) % Pow2(a) == 0 && Pow2(a) <= Pow2(b)
  {
    Pow2Sum(b - a, a);
    DivModUnique(Pow2(b), Pow2(a), Pow2(b - a), 0);
    Pow2Mono(a, b);
  }

  /** An address says which reservation, bucket and index it belongs to. */
  lemma PageAtUnique(g: Geometry, s: Pager, j: nat, i: nat, k: nat, j': nat, i': nat, k': nat)
    requires Inv(g, s)
    requires 1 <= j < |s.blocks| && i < g.BucketCnt() && k < g.PagesPerBucket()
    requires 1 <= j' < |s.blocks| && i' < g.BucketCnt() && k' < g.PagesPerBucket()
    requires PageAt(g, s, j, i, k) == PageAt(g, s, j', i', k')
    ensures j == j' && i == i' && k == k'
  {
    InReservation(g, s, j, i, k);
    InReservation(g, s, j', i', k');
    if j == j' {
      AddressInjective(g, s.blocks[j].addr, i, k, i', k');
    }
  }

  lemma InReservation(g: Geometry, s: Pager, j: nat, i: nat, k: nat)
    requires Inv(g, s) && 1 <= j < |s.blocks| && i < g.BucketCnt() && k < g.PagesPerBucket()
    ensures var q := PageAt(g, s, j, i, k);
            && q % PAGE_SIZE == 0 && s.blocks[j].addr <= q && q + PAGE_SIZE <= s.blocks[j].addr + g.ReservationSize()
            && AddressToIdx(g, q) == i && PtrToPageStart(q) == q
  {
    AddressRoundTrip(g, s.blocks[j].addr, i, k, 0);
  }

  /** The step hands out page kk of bucket idx in reservation jj and moves no other cursor. */
  ghost predicate Takes(g: Geometry, s: Pager, s': Pager, idx: nat, jj: nat, kk: nat) {
    && Shape(g, s) && Shape(g, s') && idx < g.BucketCnt()
    && |s.blocks| <= |s'.blocks| && 1 <= jj < |s'.blocks|
    && (forall j :: 0 <= j < |s.blocks| ==> s'.blocks[j].addr == s.blocks[j].addr)
    && (forall j, i :: 0 <= j < |s'.blocks| && 0 <= i < g.BucketCnt() ==>
          s'.blocks[j].nextToUse[i] == if j == jj && i == idx then kk + 1 else Used(g, s, j, i))
    && kk == Used(g, s, jj, idx)
  }

  ghost function Used(g: Geometry, s: Pager, j: nat, i: nat): nat
    requires Shape(g, s) && i < g.BucketCnt()
  {
    if j < |s.blocks| then s.blocks[j].nextToUse[i] else 0
  }

  /** Handing out one page adds that page to the issued ones; nobody had it. */
  lemma TakesIssues(g: Geometry, s: Pager, s': Pager, idx: nat, jj: nat, kk: nat)
    requires Inv(g, s) && Inv(g, s') && Takes(g, s, s', idx, jj, kk)
    ensures var q := PageAt(g, s', jj, idx, kk);
            && (forall i :: !Issued(g, s, i, q))
            && (forall i, r :: Issued(g, s', i, r) <==> Issued(g, s, i, r) || (i == idx && r == q))
            && AddressToIdx(g, q) == idx && q % PAGE_SIZE == 0
  {
    hide IdxToPageAddr, ApartBlocks;
    var q := PageAt(g, s', jj, idx, kk);
    assert OrderOk(g, s', jj, idx);
    InReservation(g, s', jj, idx, kk);
    forall i: nat | Issued(g, s, i, q) ensures false {
      var j, k :| 1 <= j < |s.blocks| && 0 <= k < s.blocks[j].nextToUse[i] && PageAt(g, s, j, i, k) == q;
      assert OrderOk(g, s, j, i);
      assert PageAt(g, s', j, i, k) == q;
      PageAtUnique(g, s', j, i, k, jj, idx, kk);
    }
    forall i: nat, r: nat | Issued(g, s', i, r) && !(i == idx && r == q) ensures Issued(g, s, i, r) {
      var j, k :| 1 <= j < |s'.blocks| && 0 <= k < s'.blocks[j].nextToUse[i] && PageAt(g, s', j, i, k) == r;
      assert PageAt(g, s, j, i, k) == r;
    }
    forall i: nat, r: nat | Issued(g, s, i, r) ensures Issued(g, s', i, r) {
      var j, k :| 1 <= j < |s.blocks| && 0 <= k < s.blocks[j].nextToUse[i] && PageAt(g, s, j, i, k) == r;
      assert PageAt(g, s', j, i, k) == r;
      assert k < s'.blocks[j].nextToUse[i];
    }
    assert Issued(g, s', idx, q);
  }

  /** Where getPage takes its page from. */
  function Source(g: Geometry, s: Pager, idx: nat): (r: (nat, nat))
    requires Shape(g, s) && idx < g.BucketCnt()
  {
    var h := s.head[idx];
    if s.blocks[h].nextToUse[idx] < g.PagesPerBucket() then (h, s.blocks[h].nextToUse[idx]) else (h + 1, 0)
  }

  lemma FromHeadKeeps(g: Geometry, s: Pager, idx: nat)
    requires Inv(g, s) && idx < g.BucketCnt()
    requires s.blocks[s.head[idx]].nextToUse[idx] < g.PagesPerBucket()
    ensures var r := FromHead(g, s, idx);
            var (jj, kk) := Source(g, s, idx);
            && Inv(g, r.0) && Takes(g, s, r.0, idx, jj, kk) && r.1 == PageAt(g, r.0, jj, idx, kk)
            && kk < r.0.blocks[jj].nextToCommit[idx]
  {
    hide IdxToPageAddr;
    var s' := FromHead(g, s, idx).0;
    var h := s.head[idx];
    assert OrderOk(g, s, h, idx);
    CommitDividesBucket(g);
    NextCommit(s.blocks[h].nextToCommit[idx], g.CommitPages(), g.PagesPerBucket());
    forall j, i | 0 <= j < |s'.blocks| && 0 <= i < g.BucketCnt() ensures OrderOk(g, s', j, i) {
      assert OrderOk(g, s, j, i);
    }
  }

  /** A commit cursor that is short of the bucket leaves room for one more commit. */
  lemma NextCommit(c: nat, d: nat, p: nat)
    requires d > 0 && c % d == 0 && p % d == 0
    ensures c < p ==> c + d <= p
    ensures (c + d) % d == 0
  {
    MultiplesApart(c, p, d);
    DivModShift(c, d, 1);
  }

  lemma FromNewBlockKeeps(g: Geometry, s: Pager, idx: nat, osAddr: nat)
    requires Inv(g, s) && idx < g.BucketCnt()
    requires s.blocks[s.head[idx]].nextToUse[idx] == g.PagesPerBucket() && s.head[idx] + 1 == |s.blocks|
    requires FreshReservation(g, s, osAddr)
    ensures var r := FromNewBlock(g, s, idx, osAddr);
            var (jj, kk) := Source(g, s, idx);
            && Inv(g, r.0) && Takes(g, s, r.0, idx, jj, kk) && r.1 == PageAt(g, r.0, jj, idx, kk)
            && kk < r.0.blocks[jj].nextToCommit[idx]
  {
    hide IdxToPageAddr;
    var s' := FromNewBlock(g, s, idx, osAddr).0;
    CommitDividesBucket(g);
    forall j, i | 0 <= j < |s'.blocks| && 0 <= i < g.BucketCnt() ensures OrderOk(g, s', j, i) {
      if j < |s.blocks| { assert OrderOk(g, s, j, i); }
    }
  }

  lemma FromNextBlockKeeps(g: Geometry, s: Pager, idx: nat)
    requires Inv(g, s) && idx < g.BucketCnt()
    requires s.blocks[s.head[idx]].nextToUse[idx] == g.PagesPerBucket() && s.head[idx] + 1 < |s.blocks|
    ensures s.blocks[s.head[idx] + 1].nextToUse[idx] == 0 && s.blocks[s.head[idx] + 1].nextToCommit[idx] == 0
    ensures var r := FromNextBlock(g, s, idx);
            var (jj, kk) := Source(g, s, idx);
            && Inv(g, r.0) && Takes(g, s, r.0, idx, jj, kk) && r.1 == PageAt(g, r.0, jj, idx, kk)
            && kk < r.0.blocks[jj].nextToCommit[idx]
  {
    hide IdxToPageAddr, ApartBlocks;
    var s' := FromNextBlock(g, s, idx).0;
    var h := s.head[idx];
    assert OrderOk(g, s, h + 1, idx);
    CommitDividesBucket(g);
    forall j, i | 0 <= j < |s'.blocks| && 0 <= i < g.BucketCnt() ensures OrderOk(g, s', j, i) {
      assert OrderOk(g, s, j, i);
    }
  }

  lemma HeadUsedUp(g: Geometry, s: Pager, idx: nat)
    requires Inv(g, s) && idx < g.BucketCnt()
    ensures s.blocks[s.head[idx]].nextToUse[idx] <= g.PagesPerBucket()
  {
    assert OrderOk(g, s, s.head[idx], idx);
  }

  /** One call of getPage: the invariant stays, and the page is new, committed, and carries its
      bucket in its address. */
  lemma GetPageKeeps(g: Geometry, s: Pager, idx: nat, osAddr: nat)
    requires Inv(g, s) && idx < g.BucketCnt() && (NeedsReservation(g, s, idx) ==> FreshReservation(g, s, osAddr))
    ensures var (s', q) := GetPage(g, s, idx, osAddr);
            && Inv(g, s')
            && (forall i :: !Issued(g, s, i, q))
            && (forall i, r :: Issued(g, s', i, r) <==> Issued(g, s, i, r) || (i == idx && r == q))
            && Committed(g, s', idx, q)
            && AddressToIdx(g, q) == idx && q % PAGE_SIZE == 0
  {
    HeadUsedUp(g, s, idx);
    GetPageTakes(g, s, idx, osAddr);
    var (jj, kk) := Source(g, s, idx);
    TakesIssues(g, s, GetPage(g, s, idx, osAddr).0, idx, jj, kk);
  }

  lemma GetPageTakes(g: Geometry, s: Pager, idx: nat, osAddr: nat)
    requires Inv(g, s) && idx < g.BucketCnt() && (NeedsReservation(g, s, idx) ==> FreshReservation(g, s, osAddr))
    ensures var r := GetPage(g, s, idx, osAddr);
            var (jj, kk) := Source(g, s, idx);
            && Inv(g, r.0) && Takes(g, s, r.0, idx, jj, kk) && r.1 == PageAt(g, r.0, jj, idx, kk)
            && kk < r.0.blocks[jj].nextToCommit[idx]
  {
    HeadUsedUp(g, s, idx);
    if s.blocks[s.head[idx]].nextToUse[idx] < g.PagesPerBucket() {
      FromHeadKeeps(g, s, idx);
    } else if s.head[idx] + 1 == |s.blocks| {
      FromNewBlockKeeps(g, s, idx, osAddr);
    } else {
      FromNextBlockKeeps(g, s, idx);
    }
  }

  /** The bucket's pages are handed out in order: reservation by reservation, and a new reservation is
      made exactly if every page of the bucket has been handed out in all there are. */
  lemma PagesInOrder(g: Geometry, s: Pager, idx: nat, osAddr: nat)
    requires Inv(g, s) && idx < g.BucketCnt() && (NeedsReservation(g, s, idx) ==> FreshReservation(g, s, osAddr))
    ensures var (s', q) := GetPage(g, s, idx, osAddr);
            var (jj, kk) := Source(g, s, idx);
            && 1 <= jj < |s'.blocks| && q == PageAt(g, s', jj, idx, kk)
            && (forall j: nat, k: nat {:trigger PageAt(g, s, j, idx, k)} ::
                  Before(g, s, j, k, jj, kk) ==> Issued(g, s, idx, PageAt(g, s, j, idx, k)))
            && s'.blocks[jj].addr == (if jj == |s.blocks| then osAddr else s.blocks[jj].addr)
            && |s'.blocks| == |s.blocks| + if AllIssued(g, s, idx) then 1 else 0
  {
    hide IdxToPageAddr, ApartBlocks;
    GetPageTakes(g, s, idx, osAddr);
    var (jj, kk) := Source(g, s, idx);
    HeadUsedUp(g, s, idx);
    forall j: nat, k: nat | Before(g, s, j, k, jj, kk)
      ensures Issued(g, s, idx, PageAt(g, s, j, idx, k))
    {
      assert OrderOk(g, s, j, idx);
    }
    NeedsReservationIff(g, s, idx);
  }

  /** Page k of reservation j comes before page kk of reservation jj. */
  ghost predicate Before(g: Geometry, s: Pager, j: nat, k: nat, jj: nat, kk: nat) {
    1 <= j < |s.blocks| && k < g.PagesPerBucket() && (j < jj || (j == jj && k < kk))
  }

  ghost predicate AllIssued(g: Geometry, s: Pager, idx: nat)
    requires Shape(g, s) && idx < g.BucketCnt()
  {
    forall j :: 0 <= j < |s.blocks| ==> s.blocks[j].nextToUse[idx] == g.PagesPerBucket()
  }

  lemma NeedsReservationIff(g: Geometry, s: Pager, idx: nat)
    requires Inv(g, s) && idx < g.BucketCnt()
    ensures NeedsReservation(g, s, idx) <==> AllIssued(g, s, idx)
  {
    hide IdxToPageAddr, ApartBlocks;
    HeadUsedUp(g, s, idx);
    assert OrderOk(g, s, |s.blocks| - 1, idx) && g.PagesPerBucket() > 0;
    forall j | 0 <= j < |s.blocks| && NeedsReservation(g, s, idx)
      ensures s.blocks[j].nextToUse[idx] == g.PagesPerBucket()
    {
      assert OrderOk(g, s, j, idx);
    }
  }

  // ---------------------------------------------------------------------------------------
  // Committing

  /** The n pages from index k of bucket i of a reservation. */
  function RangePages(g: Geometry, block: nat, i: nat, k: nat, n: nat): (r: set<nat>)
    ensures forall x :: k <= x < k + n ==> IdxToPageAddr(g, block, i, x) in r
  {
    set x | k <= x < k + n :: IdxToPageAddr(g, block, i, x)
  }

  /** The commit, if any, that getPage makes before it hands out its page. */
  function CommitOf(g: Geometry, s: Pager, idx: nat, osAddr: nat): (r: set<nat>)
    requires Shape(g, s) && idx < g.BucketCnt()
  {
    var h := s.head[idx];
    if s.blocks[h].nextToUse[idx] < g.PagesPerBucket() then
      if s.blocks[h].nextToUse[idx] == s.blocks[h].nextToCommit[idx] then
        RangePages(g, s.blocks[h].addr, idx, s.blocks[h].nextToCommit[idx], g.CommitPages())
      else {}
    else RangePages(g, if h + 1 < |s.blocks| then s.blocks[h + 1].addr else osAddr, idx, 0, g.CommitPages())
  }

  /** The step moves the commit cursor of bucket idx in reservation jj from c to c + n. */
  ghost predicate Commits(g: Geometry, s: Pager, s': Pager, idx: nat, jj: nat, c: nat, n: nat) {
    && Shape(g, s) && Shape(g, s') && idx < g.BucketCnt()
    && |s.blocks| <= |s'.blocks| && 1 <= jj < |s'.blocks|
    && (forall j :: 0 <= j < |s.blocks| ==> s'.blocks[j].addr == s.blocks[j].addr)
    && (forall j, i :: 0 <= j < |s'.blocks| && 0 <= i < g.BucketCnt() ==>
          s'.blocks[j].nextToCommit[i] == if j == jj && i == idx then c + n else CommitCursor(g, s, j, i))
    && c == CommitCursor(g, s, jj, idx)
  }

  ghost function CommitCursor(g: Geometry, s: Pager, j: nat, i: nat): nat
    requires Shape(g, s) && i < g.BucketCnt()
  {
    if j < |s.blocks| then s.blocks[j].nextToCommit[i] else 0
  }

  lemma CommitsAdd(g: Geometry, s: Pager, s': Pager, idx: nat, jj: nat, c: nat, n: nat)
    requires Inv(g, s) && Inv(g, s') && Commits(g, s, s', idx, jj, c, n)
    ensures var range := RangePages(g, s'.blocks[jj].addr, idx, c, n);
            && (forall i, r :: r in range ==> !Committed(g, s, i, r))
            && (forall i, r :: Committed(g, s', i, r) <==> Committed(g, s, i, r) || (i == idx && r in range))
  {
    hide IdxToPageAddr;
    var range := RangePages(g, s'.blocks[jj].addr, idx, c, n);
    assert OrderOk(g, s', jj, idx);
    forall i: nat, r: nat | r in range && Committed(g, s, i, r) ensures false {
      var x :| c <= x < c + n && r == IdxToPageAddr(g, s'.blocks[jj].addr, idx, x);
      var j, k :| 1 <= j < |s.blocks| && 0 <= k < s.blocks[j].nextToCommit[i] && PageAt(g, s, j, i, k) == r;
      assert OrderOk(g, s, j, i);
      assert PageAt(g, s', j, i, k) == r == PageAt(g, s', jj, idx, x);
      PageAtUnique(g, s', j, i, k, jj, idx, x);
    }
    forall i: nat, r: nat | Committed(g, s', i, r) && !(i == idx && r in range) ensures Committed(g, s, i, r) {
      var j, k :| 1 <= j < |s'.blocks| && 0 <= k < s'.blocks[j].nextToCommit[i] && PageAt(g, s', j, i, k) == r;
      assert j < |s.blocks| && k < s.blocks[j].nextToCommit[i];
      assert PageAt(g, s, j, i, k) == r;
    }
    forall i: nat, r: nat | Committed(g, s, i, r) || (i == idx && r in range) ensures Committed(g, s', i, r) {
      if Committed(g, s, i, r) {
        var j, k :| 1 <= j < |s.blocks| && 0 <= k < s.blocks[j].nextToCommit[i] && PageAt(g, s, j, i, k) == r;
        assert PageAt(g, s', j, i, k) == r && k < s'.blocks[j].nextToCommit[i];
      } else {
        var x :| c <= x < c + n && r == IdxToPageAddr(g, s'.blocks[jj].addr, idx, x);
        assert PageAt(g, s', jj, idx, x) == r;
      }
    }
  }

  /** getPage commits only pages that were not committed, and afterwards exactly those and the ones
      before are. */
  lemma GetPageCommits(g: Geometry, s: Pager, idx: nat, osAddr: nat)
    requires Inv(g, s) && idx < g.BucketCnt() && (NeedsReservation(g, s, idx) ==> FreshReservation(g, s, osAddr))
    ensures var s' := GetPage(g, s, idx, osAddr).0;
            var range := CommitOf(g, s, idx, osAddr);
            && (forall i, r :: r in range ==> !Committed(g, s, i, r))
            && (forall i, r :: Committed(g, s', i, r) <==> Committed(g, s, i, r) || (i == idx && r in range))
  {
    hide Inv, GetPage, CommitOf, Committed, RangePages;
    var jj, c, n := GetPageMovesCommit(g, s, idx, osAddr);
    CommitsAdd(g, s, GetPage(g, s, idx, osAddr).0, idx, jj, c, n);
  }

  /** A page that is committed costs no commit; for one that is not, the commit starts with it. */
  lemma CommitsWhenNeeded(g: Geometry, s: Pager, idx: nat, osAddr: nat)
    requires Inv(g, s) && idx < g.BucketCnt() && (NeedsReservation(g, s, idx) ==> FreshReservation(g, s, osAddr))
    ensures var (s', q) := GetPage(g, s, idx, osAddr);
            var (jj, kk) := Source(g, s, idx);
            && jj < |s'.blocks| && q == PageAt(g, s', jj, idx, kk)
            && CommitOf(g, s, idx, osAddr)
            == if Committed(g, s, idx, q) then {} else RangePages(g, s'.blocks[jj].addr, idx, kk, g.CommitPages())
  {
    GetPageTakes(g, s, idx, osAddr);
    GetPageCommits(g, s, idx, osAddr);
    var (s', q) := GetPage(g, s, idx, osAddr);
    var (jj, kk) := Source(g, s, idx);
    if jj < |s.blocks| {
      assert OrderOk(g, s, jj, idx);
      assert q == PageAt(g, s, jj, idx, kk);
    }
    hide IdxToPageAddr, ApartBlocks;
    assert CommitOf(g, s, idx, osAddr) != {} ==> q in CommitOf(g, s, idx, osAddr);
  }

  lemma FromHeadCommits(g: Geometry, s: Pager, idx: nat)
    requires Inv(g, s) && idx < g.BucketCnt()
    requires s.blocks[s.head[idx]].nextToUse[idx] < g.PagesPerBucket()
    ensures var b := s.blocks[s.head[idx]];
            var n := if b.nextToUse[idx] == b.nextToCommit[idx] then g.CommitPages() else 0;
            && Commits(g, s, FromHead(g, s, idx).0, idx, s.head[idx], b.nextToCommit[idx], n)
            && RangePages(g, b.addr, idx, b.nextToCommit[idx], 0) == {}
  {}

  lemma FromNewBlockCommits(g: Geometry, s: Pager, idx: nat, osAddr: nat)
    requires Inv(g, s) && idx < g.BucketCnt() && s.head[idx] + 1 == |s.blocks|
    ensures Commits(g, s, FromNewBlock(g, s, idx, osAddr).0, idx, |s.blocks|, 0, g.CommitPages())
  {}

  lemma FromNextBlockCommits(g: Geometry, s: Pager, idx: nat)
    requires Inv(g, s) && idx < g.BucketCnt() && s.head[idx] + 1 < |s.blocks|
    ensures Commits(g, s, FromNextBlock(g, s, idx).0, idx, s.head[idx] + 1, 0, g.CommitPages())
  {
    assert OrderOk(g, s, s.head[idx] + 1, idx);
  }

  /** The commit moves one cursor over the pages it commits. */
  lemma GetPageMovesCommit(g: Geometry, s: Pager, idx: nat, osAddr: nat) returns (jj: nat, c: nat, n: nat)
    requires Inv(g, s) && idx < g.BucketCnt() && (NeedsReservation(g, s, idx) ==> FreshReservation(g, s, osAddr))
    ensures var s' := GetPage(g, s, idx, osAddr).0;
            && Inv(g, s') && Commits(g, s, s', idx, jj, c, n)
            && CommitOf(g, s, idx, osAddr) == RangePages(g, s'.blocks[jj].addr, idx, c, n)
  {
    hide Inv;
    GetPageTakes(g, s, idx, osAddr);
    var h := s.head[idx];
    var b := s.blocks[h];
    if b.nextToUse[idx] < g.PagesPerBucket() {
      FromHeadCommits(g, s, idx);
      jj, c, n := h, b.nextToCommit[idx], if b.nextToUse[idx] == b.nextToCommit[idx] then g.CommitPages() else 0;
    } else if h + 1 == |s.blocks| {
      FromNewBlockCommits(g, s, idx, osAddr);
      jj, c, n := h + 1, 0, g.CommitPages();
    } else {
      FromNextBlockCommits(g, s, idx);
      jj, c, n := h + 1, 0, g.CommitPages();
    }
  }

  // ---------------------------------------------------------------------------------------
  // Runs of getPage over all buckets

  datatype Call = Call(idx: nat, osAddr: nat)

  /** ss are the states before, between and after the calls; qs the pages returned. */
  ghost predicate IsRun(g: Geometry, ss: seq<Pager>, calls: seq<Call>, qs: seq<nat>) {
    && |ss| == |calls| + 1 && |qs| == |calls|
    && ss[0] == Initial(g)
    && forall n {:trigger calls[n]} :: 0 <= n < |calls| ==>
         && calls[n].idx < g.BucketCnt()
         && (Inv(g, ss[n]) ==>
               && (NeedsReservation(g, ss[n], calls[n].idx) ==> FreshReservation(g, ss[n], calls[n].osAddr))
               && (ss[n + 1], qs[n]) == GetPage(g, ss[n], calls[n].idx, calls[n].osAddr))
  }

  lemma {:induction false} RunKeeps(g: Geometry, ss: seq<Pager>, calls: seq<Call>, qs: seq<nat>, n: nat)
    requires g.Valid() && IsRun(g, ss, calls, qs) && n <= |calls|
    ensures Inv(g, ss[n])
    ensures forall m {:trigger qs[m]} :: 0 <= m < n ==> Issued(g, ss[n], calls[m].idx, qs[m])
  {
    hide GetPage;
    if n == 0 {
      InitialInv(g);
    } else {
      RunKeeps(g, ss, calls, qs, n - 1);
      var c := calls[n - 1];
      GetPageKeeps(g, ss[n - 1], c.idx, c.osAddr);
    }
  }

  /** For any interleaving of getPage over the buckets no page is handed out twice, and every page
      carries its bucket in its address. */
  lemma PagesNeverRepeat(g: Geometry, ss: seq<Pager>, calls: seq<Call>, qs: seq<nat>, m: nat, n: nat)
    requires g.Valid() && IsRun(g, ss, calls, qs) && m < n < |calls|
    ensures qs[m] != qs[n]
    ensures AddressToIdx(g, qs[n]) == calls[n].idx
    ensures Committed(g, ss[n + 1], calls[n].idx, qs[n])
  {
    RunKeeps(g, ss, calls, qs, n);
    var c := calls[n];
    GetPageKeeps(g, ss[n], c.idx, c.osAddr);
    assert Issued(g, ss[n], calls[m].idx, qs[m]);
  }
}
