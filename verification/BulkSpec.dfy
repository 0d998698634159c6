/** BulkAllocator (src/iibmalloc/iibmalloc.h:439-764) as steps on a memory of chunk headers.

    A chunk is a run of pages whose first page starts with a header. Chunks of one block are
    chained by prev/next in address order; chunks that are not allocated also sit on one of
    maxPages + 1 doubly linked free lists, selected by their page count.

    Three updates that the allocator's own validators need are missing from the source. The flag
    `repaired` adds them; every place where it does is marked DEPARTURE. With the flag off the
    steps are the code as written. */
module BulkSpec {
  import opened Arith
  import opened Lists

  datatype Params = Params(maxPages: nat, blockPages: nat) {
    /** The static_asserts at lines 442-444, and what lines 465 and 634 assert. */
    ghost predicate Valid() {
      maxPages < blockPages < PAGE_SIZE
    }
  }

  const SHIPPED := Params(32, 2048)

  /** AnyChunkHeader with its packed fields taken apart, and the two links of FreeChunkHeader. */
  datatype Header = Header(prev: nat, next: nat, count: nat, free: bool, prevFree: nat, nextFree: nat)

  /** hdr: memory at page starts; heads: freeListBegin; blocks: the recorded blocks, newest first. */
  datatype Bulk = Bulk(hdr: map<nat, Header>, heads: seq<nat>, blocks: seq<nat>)

  // ---------------------------------------------------------------------------------------
  // Writes to single header fields; a write to an address without a header is dropped

  function SetPrevFree(hdr: map<nat, Header>, a: nat, v: nat): map<nat, Header> {
    if a in hdr then hdr[a := hdr[a].(prevFree := v)] else hdr
  }

  function SetNextFree(hdr: map<nat, Header>, a: nat, v: nat): map<nat, Header> {
    if a in hdr then hdr[a := hdr[a].(nextFree := v)] else hdr
  }

  function SetPrev(hdr: map<nat, Header>, a: nat, v: nat): map<nat, Header> {
    if a in hdr then hdr[a := hdr[a].(prev := v)] else hdr
  }

  // ---------------------------------------------------------------------------------------
  // Free lists

  /** Which list a page count selects; the count is decremented in 16 bits. */
  function ListIdx(p: Params, count: nat): (i: nat)
    ensures i <= p.maxPages
  {
    if count == 0 || count - 1 >= p.maxPages then p.maxPages else count - 1
  }

  function RemoveFromFreeList(p: Params, s: Bulk, item: nat): Bulk
    requires item in s.hdr && |s.heads| == p.maxPages + 1
  {
    var h := s.hdr[item];
    var s1 :=
      if h.prevFree != 0 then
        s.(hdr := SetNextFree(s.hdr, h.prevFree, h.nextFree))
      else
        var heads := s.heads[ListIdx(p, h.count) := h.nextFree];
        s.(heads := heads, hdr := if h.nextFree != 0 then SetPrevFree(s.hdr, h.nextFree, 0) else s.hdr);
    var n := s1.hdr[item].nextFree;
    if n != 0 then s1.(hdr := SetPrevFree(s1.hdr, n, s1.hdr[item].prevFree)) else s1
  }

  function PushFree(p: Params, s: Bulk, h: nat): Bulk
    requires h in s.hdr && |s.heads| == p.maxPages + 1
  {
    var i := ListIdx(p, s.hdr[h].count);
    var hdr := s.hdr[h := s.hdr[h].(prevFree := 0, nextFree := s.heads[i])];
    s.(hdr := if s.heads[i] != 0 then SetPrevFree(hdr, s.heads[i], h) else hdr, heads := s.heads[i := h])
  }

  function PopFree(s: Bulk, i: nat): Bulk
    requires i < |s.heads| && s.heads[i] in s.hdr
  {
    var n := s.hdr[s.heads[i]].nextFree;
    s.(heads := s.heads[i := n], hdr := if n != 0 then SetPrevFree(s.hdr, n, 0) else s.hdr)
  }

  // ---------------------------------------------------------------------------------------
  // allocate

  /** ceil(sz / PAGE_SIZE), computed by negation and arithmetic shift (line 612). */
  function PageCount(sz: nat): int {
    0 - (0 - sz) / PAGE_SIZE
  }

  lemma PageCountIsCeil(sz: nat)
    requires sz > 0
    ensures PageCount(sz) > 0
    ensures sz <= PageCount(sz) * PAGE_SIZE < sz + PAGE_SIZE
  {
    FloorOfNegative(sz, PAGE_SIZE);
  }

  /** The same in 64-bit words: negate, shift arithmetically by 12, negate. */
  function PageCount64(sz: nat): nat
    requires sz < WORD
  {
    Word64(0 - Signed64(Neg64(sz)) / PAGE_SIZE)
  }

  /** Up to 2^63 the words hold the page count. Above, the size is negative when read as intptr_t,
      and the shift gives something else. */
  lemma PageCount64Exact(sz: nat)
    requires 0 < sz < WORD
    ensures PageCount64(sz) == PageCount(sz) <==> sz <= WORD / 2
  {
    PageCountIsCeil(sz);
    assert PageCount(sz) <= sz;
    if sz <= WORD / 2 {
      NegSigned(sz);
      SmallWord(PageCount(sz));
    } else {
      AboveHalf(sz);
    }
  }

  lemma AboveHalf(sz: nat)
    requires WORD / 2 < sz < WORD
    ensures PageCount64(sz) == 0 || PageCount64(sz) > WORD / 2 > PageCount(sz)
  {
    var q := (WORD - sz) / PAGE_SIZE;
    assert PageCount64(sz) == Word64(0 - q);
    assert 0 <= q < WORD / 2;
  }

  /** A fresh block is one free chunk on the last list. */
  function NewBlock(p: Params, s: Bulk, osAddr: nat): Bulk
    requires |s.heads| == p.maxPages + 1
  {
    Bulk(s.hdr[osAddr := Header(0, 0, p.blockPages, true, 0, 0)],
         s.heads[p.maxPages := osAddr],
         [osAddr] + s.blocks)
  }

  /** Cut the first pc pages off chunk c. */
  function SplitChunk(repaired: bool, hdr: map<nat, Header>, c: nat, pc: nat): map<nat, Header>
    requires c in hdr && pc <= hdr[c].count
  {
    var h := hdr[c];
    var u := c + pc * PAGE_SIZE;
    var hdr1 := hdr[u := Header(c, h.next, h.count - pc, true, 0, 0)];
    var hdr2 := hdr1[c := h.(next := u, count := pc, free := false)];
    // DEPARTURE: the source leaves the successor's back-link as it was (line 642)
    if repaired && h.next != 0 then SetPrev(hdr2, h.next, u) else hdr2
  }

  function SplitStep(p: Params, repaired: bool, s: Bulk, pc: nat): (r: (Bulk, nat))
    requires |s.heads| == p.maxPages + 1 && s.heads[p.maxPages] in s.hdr
    requires 0 < pc <= s.hdr[s.heads[p.maxPages]].count
  {
    var c := s.heads[p.maxPages];
    var s1 := PopFree(s, p.maxPages);
    var s2 := s1.(hdr := SplitChunk(repaired, s1.hdr, c, pc));
    (PushFree(p, s2, c + pc * PAGE_SIZE), c)
  }

  function ExactPopStep(repaired: bool, s: Bulk, i: nat): (r: (Bulk, nat))
    requires i < |s.heads| && s.heads[i] in s.hdr
  {
    var c := s.heads[i];
    var s1 := PopFree(s, i);
    // DEPARTURE: the source leaves the free bit of the popped chunk as it was (lines 665-673)
    (if repaired then s1.(hdr := s1.hdr[c := s1.hdr[c].(free := false)]) else s1, c)
  }

  /** More than maxPages pages: a region of its own, marked by a zero count, with its size in the
      place of the back-link. */
  function LargeStep(s: Bulk, pc: nat, osAddr: nat): (r: (Bulk, nat)) {
    (s.(hdr := s.hdr[osAddr := Header(pc * PAGE_SIZE, 0, 0, false, 0, 0)]), osAddr)
  }

  /** What allocate reads before it branches is there to be read. */
  predicate CanAllocate(p: Params, s: Bulk, pc: nat) {
    && |s.heads| == p.maxPages + 1
    && 0 < pc
    && (pc <= p.maxPages ==>
          if s.heads[pc - 1] != 0 then s.heads[pc - 1] in s.hdr
          else s.heads[p.maxPages] != 0 ==>
                 s.heads[p.maxPages] in s.hdr && pc <= s.hdr[s.heads[p.maxPages]].count)
    && p.maxPages < p.blockPages
  }

  /** allocate for pc pages; `osAddr` is the address the operating system gives if asked. */
  function Allocate(p: Params, repaired: bool, s: Bulk, pc: nat, osAddr: nat): (r: (Bulk, nat))
    requires CanAllocate(p, s, pc) && osAddr != 0
  {
    if pc <= p.maxPages then
      if s.heads[pc - 1] == 0 then
        SplitStep(p, repaired, if s.heads[p.maxPages] == 0 then NewBlock(p, s, osAddr) else s, pc)
      else
        ExactPopStep(repaired, s, pc - 1)
    else
      LargeStep(s, pc, osAddr)
  }

  // ---------------------------------------------------------------------------------------
  // deallocate

  predicate FlaggedChunk(hdr: map<nat, Header>, c: nat) {
    c != 0 && c in hdr && hdr[c].free
  }

  /** Chunk a takes over its successor b. */
  function MergeChunks(repaired: bool, hdr: map<nat, Header>, a: nat, b: nat): map<nat, Header>
    requires a in hdr && b in hdr
  {
    var n := hdr[b].next;
    var hdr1 := hdr[a := hdr[a].(next := n, count := hdr[a].count + hdr[b].count, free := true)];
    // DEPARTURE: the source leaves the back-link of the chunk after b as it was (lines 710, 720)
    if repaired && n != 0 then SetPrev(hdr1, n, a) else hdr1
  }

  function MergePrev(p: Params, repaired: bool, s: Bulk, h: nat): (r: (Bulk, nat))
    requires h in s.hdr && |s.heads| == p.maxPages + 1
    ensures r.1 in r.0.hdr && |r.0.heads| == p.maxPages + 1
  {
    var prev := s.hdr[h].prev;
    if FlaggedChunk(s.hdr, prev) then
      var s1 := RemoveFromFreeList(p, s, prev);
      (s1.(hdr := MergeChunks(repaired, s1.hdr, prev, h)), prev)
    else
      (s, h)
  }

  function MergeNext(p: Params, repaired: bool, s: Bulk, h: nat): (r: Bulk)
    requires h in s.hdr && |s.heads| == p.maxPages + 1
    ensures h in r.hdr && |r.heads| == p.maxPages + 1
  {
    var next := s.hdr[h].next;
    if FlaggedChunk(s.hdr, next) then
      var s1 := RemoveFromFreeList(p, s, next);
      s1.(hdr := MergeChunks(repaired, s1.hdr, h, next))
    else
      s
  }

  function MarkFree(repaired: bool, s: Bulk, h: nat): (r: Bulk)
    requires h in s.hdr
  {
    // DEPARTURE: the source sets the free bit only when it merges (lines 723-731)
    if repaired then s.(hdr := s.hdr[h := s.hdr[h].(free := true)]) else s
  }

  function DeallocateChunk(p: Params, repaired: bool, s: Bulk, h: nat): Bulk
    requires h in s.hdr && |s.heads| == p.maxPages + 1
  {
    var (s1, h1) := MergePrev(p, repaired, s, h);
    var s2 := MergeNext(p, repaired, s1, h1);
    PushFree(p, MarkFree(repaired, s2, h1), h1)
  }

  /** A large chunk goes back to the operating system, whole. */
  function Deallocate(p: Params, repaired: bool, s: Bulk, h: nat): Bulk
    requires h in s.hdr && |s.heads| == p.maxPages + 1
  {
    if s.hdr[h].count != 0 then DeallocateChunk(p, repaired, s, h)
    else s
  }

  // ---------------------------------------------------------------------------------------
  // Invariant

  /** What the clients hold: the pages owned by each live chunk and each live large region. */
  datatype Ledger = Ledger(live: map<nat, nat>, large: map<nat, nat>)

  /** Bookkeeping for proofs: the block of each chunk, and the contents of the free lists. */
  datatype Book = Book(home: map<nat, nat>, lists: seq<seq<nat>>)

  ghost predicate Apart(a: nat, n: nat, b: nat, m: nat) {
    a + n * PAGE_SIZE <= b || b + m * PAGE_SIZE <= a
  }

  ghost predicate ChunkOk(p: Params, hdr: map<nat, Header>, home: map<nat, nat>, c: nat)
    requires c in home
  {
    && c in hdr && c % PAGE_SIZE == 0
    && var h, b := hdr[c], home[c];
    && 0 < b <= c && 1 <= h.count && c + h.count * PAGE_SIZE <= b + p.blockPages * PAGE_SIZE
    && (h.prev == 0 <==> c == b)
    && (h.prev != 0 ==> h.prev in home && home[h.prev] == b && h.prev in hdr && hdr[h.prev].next == c)
    && (h.next == 0 <==> c + h.count * PAGE_SIZE == b + p.blockPages * PAGE_SIZE)
    && (h.next != 0 ==> h.next == c + h.count * PAGE_SIZE
                        && h.next in home && home[h.next] == b && h.next in hdr && hdr[h.next].prev == c)
  }

  /** The forward and back links of every block are mutually inverse and its chunks abut. */
  ghost predicate Tiling(p: Params, hdr: map<nat, Header>, home: map<nat, nat>) {
    forall c {:trigger ChunkOk(p, hdr, home, c)} :: c in home ==> ChunkOk(p, hdr, home, c)
  }

  ghost predicate BlocksOk(p: Params, blocks: seq<nat>, home: map<nat, nat>) {
    && (forall c :: c in home ==> home[c] in blocks)
    && (forall b :: b in blocks ==> b in home && home[b] == b)
    && (forall i, j :: 0 <= i < j < |blocks| ==> Apart(blocks[i], p.blockPages, blocks[j], p.blockPages))
  }

  ghost predicate LargeOk(p: Params, s: Bulk, large: map<nat, nat>) {
    && (forall a :: a in large ==>
          && 0 < a && a % PAGE_SIZE == 0 && p.maxPages < large[a]
          && a in s.hdr && s.hdr[a].count == 0 && s.hdr[a].prev == large[a] * PAGE_SIZE)
    && (forall a, b :: a in large && b in s.blocks ==> Apart(a, large[a], b, p.blockPages))
    && (forall a, a' :: a in large && a' in large && a != a' ==> Apart(a, large[a], a', large[a']))
  }

  ghost predicate LiveOk(p: Params, hdr: map<nat, Header>, home: map<nat, nat>, live: map<nat, nat>) {
    forall c :: c in live ==> c in home && c in hdr && hdr[c].count == live[c] && live[c] <= p.maxPages
  }

  /** Repaired: the bit says exactly "not live", and no two neighbours are free.
      Literal: only the last chunk of a block is flagged; long free chunks are. */
  ghost predicate FlagOk(p: Params, repaired: bool, hdr: map<nat, Header>, live: map<nat, nat>, c: nat)
    requires c in hdr
  {
    if repaired then
      && (hdr[c].free <==> c !in live)
      && (c !in live && hdr[c].next != 0 ==> hdr[c].next in live)
    else
      && (hdr[c].free ==> hdr[c].next == 0)
      && (c !in live && hdr[c].count > p.maxPages ==> hdr[c].free)
  }

  ghost predicate FlagsOk(p: Params, repaired: bool, hdr: map<nat, Header>, home: map<nat, nat>, live: map<nat, nat>) {
    forall c {:trigger FlagOk(p, repaired, hdr, live, c)} :: c in home && c in hdr ==> FlagOk(p, repaired, hdr, live, c)
  }

  function Before(l: seq<nat>, j: nat): nat
    requires j < |l|
  {
    if j == 0 then 0 else l[j - 1]
  }

  function After(l: seq<nat>, j: nat): nat
    requires j < |l|
  {
    if j + 1 == |l| then 0 else l[j + 1]
  }

  ghost predicate NodeOk(hdr: map<nat, Header>, l: seq<nat>, j: nat)
    requires j < |l|
  {
    l[j] != 0 && l[j] in hdr && hdr[l[j]].prevFree == Before(l, j) && hdr[l[j]].nextFree == After(l, j)
  }

  /** A doubly linked list with the nodes l, in order. */
  ghost predicate Chain(hdr: map<nat, Header>, head: nat, l: seq<nat>) {
    && head == First(l)
    && Distinct(l)
    && forall j {:trigger NodeOk(hdr, l, j)} :: 0 <= j < |l| ==> NodeOk(hdr, l, j)
  }

  /** The lists are well formed and hold exactly the chunks of `free`, each on the list its page
      count selects. */
  ghost predicate ListsOk(p: Params, hdr: map<nat, Header>, heads: seq<nat>, lists: seq<seq<nat>>, free: set<nat>) {
    && |heads| == |lists| == p.maxPages + 1
    && (forall i {:trigger lists[i]} :: 0 <= i <= p.maxPages ==> Chain(hdr, heads[i], lists[i]))
    && (forall i, a {:trigger a in lists[i]} ::
          0 <= i <= p.maxPages && a in lists[i] ==> a in free && a in hdr && ListIdx(p, hdr[a].count) == i)
    && (forall a :: a in free ==> a in hdr && a in lists[ListIdx(p, hdr[a].count)])
  }

  /** The invariant of the allocator between calls. */
  ghost predicate Inv(p: Params, repaired: bool, s: Bulk, l: Ledger, b: Book) {
    && p.Valid()
    && Tiling(p, s.hdr, b.home)
    && BlocksOk(p, s.blocks, b.home)
    && LargeOk(p, s, l.large)
    && LiveOk(p, s.hdr, b.home, l.live)
    && FlagsOk(p, repaired, s.hdr, b.home, l.live)
    && ListsOk(p, s.hdr, s.heads, b.lists, b.home.Keys - l.live.Keys)
  }

  /** The operating system's promise: page aligned, not null, apart from everything held. */
  ghost predicate FreshRegion(p: Params, s: Bulk, l: Ledger, osAddr: nat, pages: nat) {
    && 0 < osAddr && osAddr % PAGE_SIZE == 0
    && (forall b :: b in s.blocks ==> Apart(osAddr, pages, b, p.blockPages))
    && (forall a :: a in l.large ==> Apart(osAddr, pages, a, l.large[a]))
  }
}
