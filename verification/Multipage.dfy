/** getMultipage (src/iibmalloc/iibmalloc.h:360-407): a group of pages for one bucket, as at most
    two contiguous runs. */
module Multipage {
  import opened Arith
  import opened PageAddress
  import opened PagerSpec

  datatype MultipageData = MultipageData(ptr1: nat, sz1: nat, ptr2: nat, sz2: nat)

  /** n calls of getPage for one bucket. */
  function GetPages(g: Geometry, s: Pager, idx: nat, osAddr: nat, n: nat): (r: (Pager, seq<nat>))
    requires Shape(g, s) && idx < g.BucketCnt()
    ensures Shape(g, r.0) && |r.1| == n
  {
    if n == 0 then (s, [])
    else
      var (s1, qs) := GetPages(g, s, idx, osAddr, n - 1);
      var (s2, q) := GetPage(g, s1, idx, osAddr);
      (s2, qs + [q])
  }

  /** How many pages from position i on lie next to each other. */
  function RunLength(qs: seq<nat>, i: nat): (m: nat)
    requires i < |qs|
    ensures 1 <= m <= |qs| - i
    ensures forall k :: i <= k < i + m ==> qs[k] == qs[i] + (k - i) * PAGE_SIZE
    ensures i + m < |qs| ==> qs[i + m] != qs[i] + m * PAGE_SIZE
    decreases |qs| - i
  {
    if i + 1 < |qs| && qs[i + 1] == qs[i] + PAGE_SIZE then
      RunLength(qs, i + 1) + 1
    else 1
  }

  /** The runs the loops of getMultipage form. */
  function Segments(qs: seq<nat>): MultipageData
    requires qs != []
  {
    var m := RunLength(qs, 0);
    if m == |qs| then MultipageData(qs[0], m * PAGE_SIZE, 0, 0)
    else MultipageData(qs[0], m * PAGE_SIZE, qs[m], RunLength(qs, m) * PAGE_SIZE)
  }

  function GetMultipage(g: Geometry, s: Pager, idx: nat, osAddr: nat): (r: (Pager, MultipageData))
    requires Shape(g, s) && idx < g.BucketCnt()
  {
    var (s', qs) := GetPages(g, s, idx, osAddr, g.MultipagePages());
    (s', Segments(qs))
  }

  /** What holds between calls when pages are taken through getMultipage only. */
  ghost predicate Grouped(g: Geometry, s: Pager) {
    forall j, i {:trigger OrderOk(g, s, j, i)} ::
      Shape(g, s) && 0 <= j < |s.blocks| && 0 <= i < g.BucketCnt() ==>
        s.blocks[j].nextToUse[i] % g.MultipagePages() == 0
  }

  lemma InitialGrouped(g: Geometry)
    requires g.Valid()
    ensures Grouped(g, Initial(g))
  {
    CommitDividesBucket(g);
  }

  /** A group starts at a multiple of its size and ends inside the same reservation. */
  lemma GroupFits(g: Geometry, s: Pager, idx: nat)
    requires Inv(g, s) && Grouped(g, s) && idx < g.BucketCnt()
    ensures var (jj, k0) := Source(g, s, idx);
            k0 % g.MultipagePages() == 0 && k0 + g.MultipagePages() <= g.PagesPerBucket()
  {
    CommitDividesBucket(g);
    var h, m := s.head[idx], g.MultipagePages();
    assert OrderOk(g, s, h, idx);
    hide Inv, Grouped;
    DivModUnique(0, m, 0, 0);
    MultiplesApart(s.blocks[h].nextToUse[idx], g.PagesPerBucket(), m);
  }

  /** After n pages of a group: all from the one reservation, consecutive indices, all new. */
  ghost predicate PartOfGroup(g: Geometry, s: Pager, idx: nat, s': Pager, qs: seq<nat>, n: nat)
    requires Shape(g, s) && idx < g.BucketCnt()
  {
    var (jj, k0) := Source(g, s, idx);
    && Inv(g, s') && |qs| == n
    && 1 <= jj < |s'.blocks| && s'.head[idx] == jj && s'.blocks[jj].nextToUse[idx] == k0 + n
    && (forall t :: 0 <= t < n ==> qs[t] == PageAt(g, s', jj, idx, k0 + t))
    && (forall i, r :: Issued(g, s', i, r) <==> Issued(g, s, i, r) || (i == idx && r in qs))
    && (forall i, r :: r in qs ==> !Issued(g, s, i, r))
    && (forall j, i :: 0 <= j < |s'.blocks| && 0 <= i < g.BucketCnt() && !(j == jj && i == idx) ==>
          s'.blocks[j].nextToUse[i] == Used(g, s, j, i))
  }

  lemma OnePage(g: Geometry, s: Pager, idx: nat, osAddr: nat)
    requires Shape(g, s) && idx < g.BucketCnt()
    ensures var (s', q) := GetPage(g, s, idx, osAddr); GetPages(g, s, idx, osAddr, 1) == (s', [q])
  {
    var (s0, qs0) := GetPages(g, s, idx, osAddr, 0);
    assert s0 == s && qs0 == [];
    var (s', q) := GetPage(g, s, idx, osAddr);
    assert qs0 + [q] == [q];
  }

  lemma FirstOfGroup(g: Geometry, s: Pager, idx: nat, osAddr: nat)
    requires Inv(g, s) && idx < g.BucketCnt() && (NeedsReservation(g, s, idx) ==> FreshReservation(g, s, osAddr))
    ensures var (s', qs) := GetPages(g, s, idx, osAddr, 1); PartOfGroup(g, s, idx, s', qs, 1)
  {
    OnePage(g, s, idx, osAddr);
    hide GetPage, GetPages, Issued;
    GetPageTakes(g, s, idx, osAddr);
    GetPageKeeps(g, s, idx, osAddr);
    HeadUsedUp(g, s, idx);
  }

  lemma NextOfGroup(g: Geometry, s: Pager, idx: nat, s1: Pager, qs: seq<nat>, n: nat, osAddr: nat)
    requires Inv(g, s) && idx < g.BucketCnt() && PartOfGroup(g, s, idx, s1, qs, n)
    requires Source(g, s, idx).1 + n < g.PagesPerBucket()
    ensures var (s', q) := GetPage(g, s1, idx, osAddr); PartOfGroup(g, s, idx, s', qs + [q], n + 1)
  {
    GetPageTakes(g, s1, idx, osAddr);
    GetPageKeeps(g, s1, idx, osAddr);
    var (s', q) := GetPage(g, s1, idx, osAddr);
    var (jj, k0) := Source(g, s, idx);
    assert Source(g, s1, idx) == (jj, k0 + n);
    forall t | 0 <= t < n + 1 ensures (qs + [q])[t] == PageAt(g, s', jj, idx, k0 + t) {
      if t < n { assert qs[t] == PageAt(g, s1, jj, idx, k0 + t); }
    }
  }

  lemma {:induction false} GroupSoFar(g: Geometry, s: Pager, idx: nat, osAddr: nat, n: nat)
    requires Inv(g, s) && Grouped(g, s) && idx < g.BucketCnt()
    requires NeedsReservation(g, s, idx) ==> FreshReservation(g, s, osAddr)
    requires 1 <= n <= g.MultipagePages()
    ensures var (s', qs) := GetPages(g, s, idx, osAddr, n); PartOfGroup(g, s, idx, s', qs, n)
  {
    if n == 1 {
      FirstOfGroup(g, s, idx, osAddr);
    } else {
      GroupSoFar(g, s, idx, osAddr, n - 1);
      GroupFits(g, s, idx);
      var (s1, qs) := GetPages(g, s, idx, osAddr, n - 1);
      NextOfGroup(g, s, idx, s1, qs, n - 1, osAddr);
    }
  }

  lemma GroupKeepsGrouped(g: Geometry, s: Pager, idx: nat, s': Pager, qs: seq<nat>)
    requires Inv(g, s) && Grouped(g, s) && idx < g.BucketCnt()
    requires PartOfGroup(g, s, idx, s', qs, g.MultipagePages())
    ensures Grouped(g, s')
  {
    GroupFits(g, s, idx);
    var (jj, k0) := Source(g, s, idx);
    DivModShift(k0, g.MultipagePages(), 1);
    forall j, i | 0 <= j < |s'.blocks| && 0 <= i < g.BucketCnt()
      ensures s'.blocks[j].nextToUse[i] % g.MultipagePages() == 0
    {
      if j < |s.blocks| { assert OrderOk(g, s, j, i); }
      DivModUnique(0, g.MultipagePages(), 0, 0);
    }
  }

  /** Consecutive pages of one bucket break at most once. */
  lemma AtMostTwoRuns(g: Geometry, block: nat, idx: nat, k0: nat, qs: seq<nat>)
    requires g.Valid() && block % PAGE_SIZE == 0 && idx < g.BucketCnt()
    requires 0 < |qs| && k0 + |qs| <= g.PagesPerBucket()
    requires forall t :: 0 <= t < |qs| ==> qs[t] == IdxToPageAddr(g, block, idx, k0 + t)
    ensures var m := RunLength(qs, 0); m < |qs| ==> m + RunLength(qs, m) == |qs|
  {
    var m := RunLength(qs, 0);
    if m < |qs| {
      var m2 := RunLength(qs, m);
      BreakIsWrap(g, block, idx, k0, qs, 0);
      if m + m2 < |qs| {
        BreakIsWrap(g, block, idx, k0, qs, m);
      }
    }
  }

  lemma BreakIsWrap(g: Geometry, block: nat, idx: nat, k0: nat, qs: seq<nat>, i: nat)
    requires g.Valid() && block % PAGE_SIZE == 0 && idx < g.BucketCnt()
    requires i < |qs| && k0 + |qs| <= g.PagesPerBucket()
    requires forall t :: 0 <= t < |qs| ==> qs[t] == IdxToPageAddr(g, block, idx, k0 + t)
    requires i + RunLength(qs, i) < |qs|
    ensures WrapsAt(g, block, idx, k0 + i + RunLength(qs, i))
  {
    var e := i + RunLength(qs, i);
    assert qs[e - 1] == qs[i] + (e - 1 - i) * PAGE_SIZE;
    AdjacentUnlessWrap(g, block, idx, k0 + e);
  }

  /** The pages of a run. */
  ghost predicate InSegment(ptr: nat, sz: nat, q: nat) {
    ptr <= q < ptr + sz && q % PAGE_SIZE == 0
  }

  lemma RunCovers(qs: seq<nat>, i: nat, q: nat)
    requires i < |qs| && (forall t :: 0 <= t < |qs| ==> qs[t] % PAGE_SIZE == 0)
    ensures InSegment(qs[i], RunLength(qs, i) * PAGE_SIZE, q) <==>
            exists t :: i <= t < i + RunLength(qs, i) && qs[t] == q
  {
    var m := RunLength(qs, i);
    if InSegment(qs[i], m * PAGE_SIZE, q) {
      var k := i + (q - qs[i]) / PAGE_SIZE;
      PageDistance(qs[i], q);
      assert qs[k] == qs[i] + (k - i) * PAGE_SIZE;
    }
  }

  lemma PageDistance(a: nat, q: nat)
    requires a <= q && a % PAGE_SIZE == 0 && q % PAGE_SIZE == 0
    ensures q == a + (q - a) / PAGE_SIZE * PAGE_SIZE
  {}

  lemma GroupDistinct(g: Geometry, s: Pager, idx: nat, s': Pager, qs: seq<nat>, t: nat, u: nat)
    requires Inv(g, s) && idx < g.BucketCnt() && PartOfGroup(g, s, idx, s', qs, |qs|)
    requires Source(g, s, idx).1 + |qs| <= g.PagesPerBucket() && t < |qs| && u < |qs| && t != u
    ensures qs[t] != qs[u] && qs[t] % PAGE_SIZE == 0 && qs[t] != 0
  {
    var (jj, k0) := Source(g, s, idx);
    if qs[t] == qs[u] { PageAtUnique(g, s', jj, idx, k0 + t, jj, idx, k0 + u); }
    InReservation(g, s', jj, idx, k0 + t);
  }

  /** The pages up to m follow each other, and page m does not. */
  ghost predicate FirstBreak(qs: seq<nat>, m: nat) {
    && 0 < m < |qs|
    && (forall t :: 0 <= t < m ==> qs[t] == qs[0] + t * PAGE_SIZE)
    && qs[m] != qs[0] + m * PAGE_SIZE
  }

  /** The first run starts at the first page and goes on as long as the pages follow each other; what is
      left is the second run. There is no second run exactly if all of them do. */
  ghost predicate RunsInOrder(d: MultipageData, qs: seq<nat>) {
    && qs != [] && d.ptr1 == qs[0]
    && (d.ptr2 == 0 <==> forall t :: 0 <= t < |qs| ==> qs[t] == qs[0] + t * PAGE_SIZE)
    && (d.ptr2 == 0 ==> d.sz1 == |qs| * PAGE_SIZE && d.sz2 == 0)
    && (d.ptr2 != 0 ==> exists m :: FirstBreak(qs, m) && SecondFrom(d, qs, m))
  }

  ghost predicate SecondFrom(d: MultipageData, qs: seq<nat>, m: nat)
    requires m < |qs|
  {
    && d.sz1 == m * PAGE_SIZE && d.ptr2 == qs[m] != d.ptr1 + d.sz1 && d.sz2 == (|qs| - m) * PAGE_SIZE
    && forall t :: m <= t < |qs| ==> qs[t] == qs[m] + (t - m) * PAGE_SIZE
  }

  lemma SegmentsInOrder(qs: seq<nat>)
    requires qs != [] && (forall t :: 0 <= t < |qs| ==> qs[t] != 0)
    requires var m := RunLength(qs, 0); m < |qs| ==> m + RunLength(qs, m) == |qs|
    ensures RunsInOrder(Segments(qs), qs)
  {
    hide RunLength;
    var d, m := Segments(qs), RunLength(qs, 0);
    if m < |qs| { assert FirstBreak(qs, m) && SecondFrom(d, qs, m); }
  }

  /** The runs found in a group of pages. */
  ghost predicate SegmentsOk(d: MultipageData, qs: seq<nat>) {
    && d.ptr1 != 0 && d.ptr1 % PAGE_SIZE == 0 && d.sz1 % PAGE_SIZE == 0
    && d.ptr2 % PAGE_SIZE == 0 && d.sz2 % PAGE_SIZE == 0 && (d.ptr2 == 0 <==> d.sz2 == 0)
    && d.sz1 + d.sz2 == |qs| * PAGE_SIZE
    && (d.ptr2 != 0 ==> d.ptr1 + d.sz1 <= d.ptr2 || d.ptr2 + d.sz2 <= d.ptr1)
    && (forall q :: q in qs <==> InSegment(d.ptr1, d.sz1, q) || InSegment(d.ptr2, d.sz2, q))
    && RunsInOrder(d, qs)
  }

  lemma SegmentsCover(qs: seq<nat>)
    requires qs != [] && (forall t :: 0 <= t < |qs| ==> qs[t] % PAGE_SIZE == 0 && qs[t] != 0)
    requires forall t, u :: 0 <= t < u < |qs| ==> qs[t] != qs[u]
    requires var m := RunLength(qs, 0); m < |qs| ==> m + RunLength(qs, m) == |qs|
    ensures SegmentsOk(Segments(qs), qs)
  {
    hide RunLength;
    var d := Segments(qs);
    forall q ensures q in qs <==> InSegment(d.ptr1, d.sz1, q) || InSegment(d.ptr2, d.sz2, q) {
      SegmentsCoverPage(qs, q);
    }
    if RunLength(qs, 0) < |qs| { RunsDisjoint(qs, RunLength(qs, 0)); }
    SegmentsInOrder(qs);
  }

  lemma SegmentsCoverPage(qs: seq<nat>, q: nat)
    requires qs != [] && (forall t :: 0 <= t < |qs| ==> qs[t] % PAGE_SIZE == 0 && qs[t] != 0)
    requires var m := RunLength(qs, 0); m < |qs| ==> m + RunLength(qs, m) == |qs|
    ensures var d := Segments(qs); q in qs <==> InSegment(d.ptr1, d.sz1, q) || InSegment(d.ptr2, d.sz2, q)
  {
    var m := RunLength(qs, 0);
    RunCovers(qs, 0, q);
    if m < |qs| { RunCovers(qs, m, q); }
  }

  lemma RunsDisjoint(qs: seq<nat>, m: nat)
    requires (forall t :: 0 <= t < |qs| ==> qs[t] % PAGE_SIZE == 0) && 0 < m < |qs| && m == RunLength(qs, 0)
    requires forall t, u :: 0 <= t < u < |qs| ==> qs[t] != qs[u]
    ensures var m2 := RunLength(qs, m);
            qs[0] + m * PAGE_SIZE <= qs[m] || qs[m] + m2 * PAGE_SIZE <= qs[0]
  {
    var m2 := RunLength(qs, m);
    if qs[0] <= qs[m] < qs[0] + m * PAGE_SIZE {
      RunCovers(qs, 0, qs[m]);
    } else if qs[m] <= qs[0] < qs[m] + m2 * PAGE_SIZE {
      RunCovers(qs, m, qs[0]);
    }
  }

  /** The contract of getMultipage: the two runs together are exactly the pages taken, in order, all new
      and all of bucket idx; their sizes add up to the group (lines 391, 405 and 406). The pages are the
      next ones of the bucket in one reservation, and a second run starts where that reservation does. */
  lemma GetMultipageKeeps(g: Geometry, s: Pager, idx: nat, osAddr: nat)
    requires Inv(g, s) && Grouped(g, s) && idx < g.BucketCnt()
    requires NeedsReservation(g, s, idx) ==> FreshReservation(g, s, osAddr)
    ensures var (s', d) := GetMultipage(g, s, idx, osAddr);
            var qs := GetPages(g, s, idx, osAddr, g.MultipagePages()).1;
            var (jj, k0) := Source(g, s, idx);
            && Inv(g, s') && Grouped(g, s')
            && |qs| == g.MultipagePages() && SegmentsOk(d, qs)
            && 1 <= jj < |s'.blocks| && (d.ptr2 != 0 ==> d.ptr2 == s'.blocks[jj].addr)
            && (forall t :: 0 <= t < |qs| ==> qs[t] == PageAt(g, s', jj, idx, k0 + t))
            && (forall i, q :: Issued(g, s', i, q) <==> Issued(g, s, i, q) || (i == idx && q in qs))
            && (forall i, q :: q in qs ==> !Issued(g, s, i, q))
  {
    GroupSoFar(g, s, idx, osAddr, g.MultipagePages());
    GroupFits(g, s, idx);
    var (s', qs) := GetPages(g, s, idx, osAddr, g.MultipagePages());
    GroupKeepsGrouped(g, s, idx, s', qs);
    GroupSegments(g, s, idx, s', qs);
    SecondStartsReservation(g, s, idx, s', qs);
  }

  lemma SecondStartsReservation(g: Geometry, s: Pager, idx: nat, s': Pager, qs: seq<nat>)
    requires Inv(g, s) && idx < g.BucketCnt() && PartOfGroup(g, s, idx, s', qs, |qs|) && qs != []
    requires Source(g, s, idx).1 + |qs| <= g.PagesPerBucket()
    ensures Segments(qs).ptr2 != 0 ==> Segments(qs).ptr2 == s'.blocks[Source(g, s, idx).0].addr
  {
    hide Issued, RunLength;
    var (jj, k0) := Source(g, s, idx);
    var m := RunLength(qs, 0);
    if m < |qs| {
      BreakIsWrap(g, s'.blocks[jj].addr, idx, k0, qs, 0);
      AdjacentUnlessWrap(g, s'.blocks[jj].addr, idx, k0 + m);
    }
  }

  lemma GroupSegments(g: Geometry, s: Pager, idx: nat, s': Pager, qs: seq<nat>)
    requires Inv(g, s) && idx < g.BucketCnt() && PartOfGroup(g, s, idx, s', qs, |qs|) && qs != []
    requires Source(g, s, idx).1 + |qs| <= g.PagesPerBucket()
    ensures SegmentsOk(Segments(qs), qs)
  {
    var (jj, k0) := Source(g, s, idx);
    forall t | 0 <= t < |qs| ensures qs[t] % PAGE_SIZE == 0 && qs[t] != 0 {
      InReservation(g, s', jj, idx, k0 + t);
    }
    forall t, u | 0 <= t < u < |qs| ensures qs[t] != qs[u] {
      GroupDistinct(g, s, idx, s', qs, t, u);
    }
    AtMostTwoRuns(g, s'.blocks[jj].addr, idx, k0, qs);
    SegmentsCover(qs);
  }

  // ---------------------------------------------------------------------------------------
  // Facts for the loops

  lemma {:induction false} RunLengthIs(qs: seq<nat>, i: nat, m: nat)
    requires i < |qs| && 1 <= m <= |qs| - i
    requires forall k :: i <= k < i + m ==> qs[k] == qs[i] + (k - i) * PAGE_SIZE
    requires i + m < |qs| ==> qs[i + m] != qs[i] + m * PAGE_SIZE
    ensures RunLength(qs, i) == m
    decreases m
  {
    if m > 1 {
      assert qs[i + 1] == qs[i] + PAGE_SIZE;
      RunLengthIs(qs, i + 1, m - 1);
    }
  }

  /** The address offered for a reservation does not matter when none is needed. */
  lemma AddressUnused(g: Geometry, s: Pager, idx: nat, a: nat, a': nat)
    requires Shape(g, s) && idx < g.BucketCnt() && !NeedsReservation(g, s, idx)
    ensures GetPage(g, s, idx, a) == GetPage(g, s, idx, a')
  {}

  /** Inside a group no further reservation is needed. */
  lemma GroupNeedsNone(g: Geometry, s: Pager, idx: nat, s1: Pager, qs: seq<nat>, n: nat)
    requires Inv(g, s) && Grouped(g, s) && idx < g.BucketCnt() && PartOfGroup(g, s, idx, s1, qs, n)
    requires n < g.MultipagePages()
    ensures !NeedsReservation(g, s1, idx)
  {
    GroupFits(g, s, idx);
  }

  /** What has been taken of a group lies in at most two runs. */
  lemma PartHasTwoRuns(g: Geometry, s: Pager, idx: nat, s1: Pager, qs: seq<nat>)
    requires Inv(g, s) && Grouped(g, s) && idx < g.BucketCnt()
    requires qs != [] && PartOfGroup(g, s, idx, s1, qs, |qs|) && |qs| <= g.MultipagePages()
    ensures var m := RunLength(qs, 0); m < |qs| ==> m + RunLength(qs, m) == |qs|
    ensures forall t :: 0 <= t < |qs| ==> qs[t] != 0
  {
    hide Issued;
    GroupFits(g, s, idx);
    var (jj, k0) := Source(g, s, idx);
    forall t | 0 <= t < |qs| ensures qs[t] != 0 {
      InReservation(g, s1, jj, idx, k0 + t);
    }
    AtMostTwoRuns(g, s1.blocks[jj].addr, idx, k0, qs);
  }

  /** One more page of a group. */
  lemma NextTaken(g: Geometry, s: Pager, idx: nat, osAddr: nat, v: Pager, qs: seq<nat>, a: nat)
    requires Inv(g, s) && Grouped(g, s) && idx < g.BucketCnt()
    requires NeedsReservation(g, s, idx) ==> FreshReservation(g, s, osAddr)
    requires 1 <= |qs| < g.MultipagePages() && (v, qs) == GetPages(g, s, idx, osAddr, |qs|)
    ensures var (s', q) := GetPage(g, v, idx, a);
            && (s', qs + [q]) == GetPages(g, s, idx, osAddr, |qs| + 1)
            && q != 0
            && var m := RunLength(qs + [q], 0); m < |qs| + 1 ==> m + RunLength(qs + [q], m) == |qs| + 1
  {
    hide FromNewBlock, Shape, GetPage, PartOfGroup;
    GroupSoFar(g, s, idx, osAddr, |qs|);
    GroupNeedsNone(g, s, idx, v, qs, |qs|);
    AddressUnused(g, v, idx, a, osAddr);
    var (s', q) := GetPage(g, v, idx, a);
    GroupSoFar(g, s, idx, osAddr, |qs| + 1);
    PartHasTwoRuns(g, s, idx, s', qs + [q]);
    assert (qs + [q])[|qs|] == q;
  }
}
