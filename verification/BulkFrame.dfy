/** What BulkAllocator writes: never the memory of a live chunk, apart from the back-link in its
    header (src/iibmalloc/iibmalloc.h:603-744). */
module BulkFrame {
  import opened Arith
  import opened Lists
  import opened BulkSpec
  import opened BulkLists
  import opened BulkTiling
  import opened BulkSteps

  /** The two headers differ at most in the back-link. prevFree and nextFree are the first two
      words a client of the chunk owns. */
  ghost predicate SameButPrev(h: Header, h': Header) {
    h' == h.(prev := h'.prev)
  }

  /** Whatever is written at x: a header that was not there, one that is gone, one that differs. */
  ghost predicate Written(hdr: map<nat, Header>, hdr': map<nat, Header>, x: nat) {
    (x in hdr || x in hdr') && !(x in hdr && x in hdr' && hdr'[x] == hdr[x])
  }

  /** Nothing is written but chunk headers, and the quiet chunks keep all but the back-link. */
  ghost predicate Frame(hdr: map<nat, Header>, hdr': map<nat, Header>, home: map<nat, nat>, quiet: set<nat>) {
    && (forall x :: Written(hdr, hdr', x) ==> x in home)
    && (forall d :: d in quiet ==> d in hdr && d in hdr' && SameButPrev(hdr[d], hdr'[d]))
  }

  lemma FrameTransitive(hdr: map<nat, Header>, hdr1: map<nat, Header>, hdr2: map<nat, Header>, home: map<nat, nat>,
                        home1: map<nat, nat>, quiet: set<nat>)
    requires Frame(hdr, hdr1, home, quiet) && Frame(hdr1, hdr2, home1, quiet)
    requires home1.Keys <= home.Keys
    ensures Frame(hdr, hdr2, home, quiet)
  {}

  /** A step on the lists touches listed chunks only. */
  lemma ListFrame(hdr: map<nat, Header>, hdr': map<nat, Header>, home: map<nat, nat>, quiet: set<nat>,
                  touched: set<nat>)
    requires OnlyTouched(hdr, hdr', touched) && touched <= home.Keys && touched !! quiet && quiet <= hdr.Keys
    ensures Frame(hdr, hdr', home, quiet)
  {}

  lemma RemoveFrame(p: Params, s: Bulk, large: map<nat, nat>, b: Book, free: set<nat>, item: nat, home: map<nat, nat>,
                    quiet: set<nat>)
    requires Core(p, s, large, b, free) && item in free && item in s.hdr
    requires b.home.Keys <= home.Keys && quiet !! free && quiet <= b.home.Keys
    ensures |s.heads| == p.maxPages + 1
    ensures Frame(s.hdr, RemoveFromFreeList(p, s, item).hdr, home, quiet)
  {
    ChunksInHdr(p, s.hdr, b.home);
    var lists' := RemoveKeepsLists(p, s, b.lists, free, item);
    ListFrame(s.hdr, RemoveFromFreeList(p, s, item).hdr, home, quiet, free - {item});
  }

  lemma PushFrame(p: Params, s: Bulk, large: map<nat, nat>, b: Book, free: set<nat>, h: nat, home: map<nat, nat>,
                  quiet: set<nat>)
    requires Core(p, s, large, b, free) && h !in free && h in b.home && h in s.hdr
    requires b.home.Keys <= home.Keys && quiet !! free + {h} && quiet <= b.home.Keys
    ensures |s.heads| == p.maxPages + 1
    ensures Frame(s.hdr, PushFree(p, s, h).hdr, home, quiet)
  {
    ChunksInHdr(p, s.hdr, b.home);
    InBlock(p, s.hdr, b.home, h);
    var lists' := PushKeepsLists(p, s, b.lists, free, h);
    ListFrame(s.hdr, PushFree(p, s, h).hdr, home, quiet, free + {h});
  }

  lemma MergeFrame(repaired: bool, hdr: map<nat, Header>, home: map<nat, nat>, quiet: set<nat>, a: nat, b: nat)
    requires a in home && a in hdr && b in hdr && a !in quiet && quiet <= hdr.Keys
    requires hdr[b].next == 0 || hdr[b].next in home
    ensures Frame(hdr, MergeChunks(repaired, hdr, a, b), home, quiet)
  {}

  lemma UnlistAndMergeFrame(p: Params, repaired: bool, s: Bulk, large: map<nat, nat>, b: Book, free: set<nat>,
                            quiet: set<nat>, item: nat, x: nat, y: nat)
    requires Core(p, s, large, b, free) && item in free && item in s.hdr
    requires free !! quiet && quiet <= b.home.Keys && x in b.home && x in s.hdr && x !in quiet && y in b.home
    ensures |s.heads| == p.maxPages + 1
    ensures var s1 := RemoveFromFreeList(p, s, item);
            && x in s1.hdr && y in s1.hdr
            && Frame(s.hdr, MergeChunks(repaired, s1.hdr, x, y), b.home, quiet)
  {
    var b1 := RemoveCore(p, s, large, b, free, item);
    var s1 := RemoveFromFreeList(p, s, item);
    RemoveFrame(p, s, large, b, free, item, b.home, quiet);
    ChunksInHdr(p, s1.hdr, b.home);
    assert ChunkOk(p, s1.hdr, b.home, y);
    MergeFrame(repaired, s1.hdr, b.home, quiet, x, y);
    FrameTransitive(s.hdr, s1.hdr, MergeChunks(repaired, s1.hdr, x, y), b.home, b.home, quiet);
  }

  lemma MergePrevFrame(p: Params, repaired: bool, s: Bulk, large: map<nat, nat>, b: Book, rest: map<nat, nat>, h: nat)
    requires Mid(p, repaired, s, large, b, rest, h)
    ensures |s.heads| == p.maxPages + 1
    ensures Frame(s.hdr, MergePrev(p, repaired, s, h).0.hdr, b.home, rest.Keys)
  {
    var a := s.hdr[h].prev;
    assert ChunkOk(p, s.hdr, b.home, h);
    if FlaggedChunk(s.hdr, a) {
      assert ChunkOk(p, s.hdr, b.home, a);
      assert FlagOk(p, repaired, s.hdr, rest[h := 0], a);
      UnlistAndMergeFrame(p, repaired, s, large, b, b.home.Keys - rest.Keys - {h}, rest.Keys, a, a, h);
    }
  }

  lemma MergeNextFrame(p: Params, repaired: bool, s: Bulk, large: map<nat, nat>, b: Book, rest: map<nat, nat>, h: nat)
    requires Mid(p, repaired, s, large, b, rest, h)
    requires repaired || !(FlaggedChunk(s.hdr, s.hdr[h].next) && s.hdr[h].next in rest)
    ensures |s.heads| == p.maxPages + 1
    ensures Frame(s.hdr, MergeNext(p, repaired, s, h).hdr, b.home, rest.Keys)
  {
    var n := s.hdr[h].next;
    assert ChunkOk(p, s.hdr, b.home, h);
    if FlaggedChunk(s.hdr, n) {
      assert ChunkOk(p, s.hdr, b.home, n);
      assert FlagOk(p, repaired, s.hdr, rest[h := 0], n);
      UnlistAndMergeFrame(p, repaired, s, large, b, b.home.Keys - rest.Keys - {h}, rest.Keys, n, h, n);
    }
  }

  lemma MarkFrame(p: Params, repaired: bool, s: Bulk, home: map<nat, nat>, quiet: set<nat>, h: nat)
    requires Tiling(p, s.hdr, home) && h in home && h in s.hdr && h !in quiet && quiet <= home.Keys
    ensures Frame(s.hdr, MarkFree(repaired, s, h).hdr, home, quiet)
  {
    ChunksInHdr(p, s.hdr, home);
  }

  lemma FinishFrame(p: Params, repaired: bool, s: Bulk, large: map<nat, nat>, b: Book, rest: map<nat, nat>, h: nat)
    requires Mid(p, repaired, s, large, b, rest, h)
    ensures |s.heads| == p.maxPages + 1
    ensures Frame(s.hdr, PushFree(p, MarkFree(repaired, s, h), h).hdr, b.home, rest.Keys)
  {
    var free := b.home.Keys - rest.Keys - {h};
    FlagCore(p, s, large, b, free, h, true);
    var s1 := MarkFree(repaired, s, h);
    PushFrame(p, s1, large, b, free, h, b.home, rest.Keys);
    MarkFrame(p, repaired, s, b.home, rest.Keys, h);
    FrameTransitive(s.hdr, s1.hdr, PushFree(p, s1, h).hdr, b.home, b.home, rest.Keys);
  }

  /** deallocate writes chunk headers only, and of the chunks that stay live only back-links. */
  lemma DeallocateFrame(p: Params, repaired: bool, s: Bulk, l: Ledger, b: Book, h: nat)
    requires Inv(p, repaired, s, l, b) && h in l.live
    requires h in s.hdr && (repaired || !Hazard(s, l, h))
    ensures |s.heads| == p.maxPages + 1
    ensures Frame(s.hdr, Deallocate(p, repaired, s, h).hdr, b.home, l.live.Keys - {h})
  {
    hide BlocksOk, Frame, LargeOk;
    InBlock(p, s.hdr, b.home, h);
    InvIsMid(p, repaired, s, l, b, h);
    var rest := l.live - {h};
    MergePrevFrame(p, repaired, s, l.large, b, rest, h);
    var b1 := MergePrevKeeps(p, repaired, s, l.large, b, rest, h);
    var (s1, h1) := MergePrev(p, repaired, s, h);
    MergeNextFrame(p, repaired, s1, l.large, b1, rest, h1);
    var b2 := MergeNextKeeps(p, repaired, s1, l.large, b1, rest, h1);
    var s2 := MergeNext(p, repaired, s1, h1);
    FinishFrame(p, repaired, s2, l.large, b2, rest, h1);
    var s3 := PushFree(p, MarkFree(repaired, s2, h1), h1);
    FrameTransitive(s.hdr, s1.hdr, s2.hdr, b.home, b1.home, rest.Keys);
    FrameTransitive(s.hdr, s2.hdr, s3.hdr, b.home, b2.home, rest.Keys);
  }

  /** The memory of a FreeChunkHeader. */
  const HEADER_SIZE: nat := 32

  /** A header at x lies outside n pages from d on. */
  ghost predicate Misses(x: nat, d: nat, n: nat) {
    x + HEADER_SIZE <= d || d + n * PAGE_SIZE <= x
  }

  /** What the clients hold keeps its contents: no header is written inside it, and of the headers
      of live chunks at most the back-link, which is in front of what the client may use. */
  ghost predicate ContentsKept(hdr: map<nat, Header>, hdr': map<nat, Header>, l: Ledger) {
    && (forall d :: d in l.live ==> d in hdr && d in hdr' && SameButPrev(hdr[d], hdr'[d]))
    && (forall x, d :: Written(hdr, hdr', x) && d in l.live && x != d ==> Misses(x, d, l.live[d]))
    && (forall x, a :: Written(hdr, hdr', x) && a in l.large ==> Misses(x, a, l.large[a]))
  }

  ghost predicate InBlocks(p: Params, blocks: seq<nat>, x: nat) {
    exists b :: b in blocks && b <= x && x + PAGE_SIZE <= b + p.blockPages * PAGE_SIZE
  }

  /** Headers are written inside the blocks or at the start of a large chunk. */
  ghost predicate HeadersInside(p: Params, blocks: seq<nat>, large: map<nat, nat>, hdr: map<nat, Header>,
                                hdr': map<nat, Header>)
  {
    forall x :: Written(hdr, hdr', x) ==> InBlocks(p, blocks, x) || x in large
  }

  /** The page at x belongs to nobody. */
  ghost predicate Clear(l: Ledger, x: nat) {
    && (forall d :: d in l.live ==> d != x && Misses(x, d, l.live[d]))
    && (forall a :: a in l.large ==> Misses(x, a, l.large[a]))
  }

  /** The headers of the chunks that are not live miss everything held. */
  lemma ChunkMisses(p: Params, repaired: bool, s: Bulk, l: Ledger, b: Book, c: nat, x: nat)
    requires Inv(p, repaired, s, l, b) && c in b.home && c in s.hdr
    requires c <= x && x + PAGE_SIZE <= c + s.hdr[c].count * PAGE_SIZE
    ensures forall d :: d in l.live && d != c ==> Misses(x, d, l.live[d])
    ensures forall a :: a in l.large ==> Misses(x, a, l.large[a])
    ensures InBlocks(p, s.blocks, x)
  {
    InBlock(p, s.hdr, b.home, c);
    assert b.home[c] in s.blocks;
    forall d | d in l.live && d != c ensures Misses(x, d, l.live[d]) {
      AllChunksApart(p, s.hdr, s.blocks, b.home, c, d);
    }
    forall a | a in l.large ensures Misses(x, a, l.large[a]) {
      assert Apart(a, l.large[a], b.home[c], p.blockPages);
    }
  }

  lemma FreshIsClear(p: Params, repaired: bool, s: Bulk, l: Ledger, b: Book, x: nat, pages: nat)
    requires Inv(p, repaired, s, l, b) && FreshRegion(p, s, l, x, pages) && pages > 0
    ensures Clear(l, x)
  {
    forall d | d in l.live ensures d != x && Misses(x, d, l.live[d]) {
      InBlock(p, s.hdr, b.home, d);
    }
    forall a | a in l.large ensures Misses(x, a, l.large[a]) {
      assert Apart(x, pages, a, l.large[a]);
    }
  }

  lemma FrameKeepsContents(p: Params, repaired: bool, s: Bulk, s': Bulk, l: Ledger, b: Book, home: map<nat, nat>,
                           l': Ledger, large': map<nat, nat>)
    requires Inv(p, repaired, s, l, b)
    requires l'.live.Keys <= l.live.Keys && (forall d :: d in l'.live ==> l'.live[d] == l.live[d])
    requires l'.large == l.large
    requires Frame(s.hdr, s'.hdr, home, l'.live.Keys) && s'.blocks == s.blocks
    requires forall x :: x in home ==> x in b.home || (Clear(l', x) && InBlocks(p, s.blocks, x))
    ensures ContentsKept(s.hdr, s'.hdr, l') && HeadersInside(p, s'.blocks, large', s.hdr, s'.hdr)
  {
    forall x | Written(s.hdr, s'.hdr, x)
      ensures forall d :: d in l'.live && x != d ==> Misses(x, d, l'.live[d])
      ensures forall a :: a in l'.large ==> Misses(x, a, l'.large[a])
      ensures InBlocks(p, s'.blocks, x)
    {
      if x in b.home {
        InBlock(p, s.hdr, b.home, x);
        ChunkMisses(p, repaired, s, l, b, x, x);
      }
    }
  }

  lemma SplitStepFrame(p: Params, repaired: bool, s: Bulk, large: map<nat, nat>, b: Book, free: set<nat>,
                       quiet: set<nat>, pc: nat)
    requires Core(p, s, large, b, free) && s.heads[p.maxPages] in free && s.heads[p.maxPages] in s.hdr
    requires PopFree(s, p.maxPages) == RemoveFromFreeList(p, s, s.heads[p.maxPages])
    requires 0 < pc < s.hdr[s.heads[p.maxPages]].count
    requires repaired || s.hdr[s.heads[p.maxPages]].next == 0
    requires quiet !! free && quiet <= b.home.Keys
    ensures Frame(s.hdr, SplitStep(p, repaired, s, pc).0.hdr, b.home[s.heads[p.maxPages] + pc * PAGE_SIZE := 0], quiet)
  {
    hide LargeOk, BlocksOk, SplitChunk;
    var c := s.heads[p.maxPages];
    var u := c + pc * PAGE_SIZE;
    var home' := b.home[u := 0];
    InsideIsNoChunk(p, s.hdr, s.blocks, b.home, c, u);
    UnlistAndSplitFrame(p, repaired, s, large, b, free, quiet, c, pc);
    var s2 := AfterSplit(p, repaired, s, pc);
    var b2 := UnlistAndSplit(p, repaired, s, large, b, free, c, pc);
    PushFrame(p, s2, large, b2, free - {c}, u, home', quiet);
    FrameTransitive(s.hdr, s2.hdr, SplitStep(p, repaired, s, pc).0.hdr, home', home', quiet);
  }

  lemma UnlistAndSplitFrame(p: Params, repaired: bool, s: Bulk, large: map<nat, nat>, b: Book, free: set<nat>,
                            quiet: set<nat>, c: nat, pc: nat)
    requires Core(p, s, large, b, free) && c in free && c in s.hdr && pc <= s.hdr[c].count
    requires c + pc * PAGE_SIZE !in b.home
    requires quiet !! free && quiet <= b.home.Keys
    ensures |s.heads| == p.maxPages + 1
    ensures var s1 := RemoveFromFreeList(p, s, c);
            && c in s1.hdr && pc <= s1.hdr[c].count
            && Frame(s.hdr, SplitChunk(repaired, s1.hdr, c, pc), b.home[c + pc * PAGE_SIZE := 0], quiet)
  {
    var home' := b.home[c + pc * PAGE_SIZE := 0];
    var b1 := RemoveCore(p, s, large, b, free, c);
    var s1 := RemoveFromFreeList(p, s, c);
    assert SameTag(s.hdr[c], s1.hdr[c]);
    RemoveFrame(p, s, large, b, free, c, home', quiet);
    CutFrame(p, repaired, s1, large, b1, quiet, c, pc);
    FrameTransitive(s.hdr, s1.hdr, SplitChunk(repaired, s1.hdr, c, pc), home', home', quiet);
  }

  lemma SplitKeepsContents(p: Params, repaired: bool, s: Bulk, l: Ledger, b: Book, pc: nat)
    requires Inv(p, repaired, s, l, b) && 0 < pc <= p.maxPages && s.heads[p.maxPages] != 0
    ensures var c := s.heads[p.maxPages];
            && c in s.hdr && pc <= s.hdr[c].count
            && var s' := SplitStep(p, repaired, s, pc).0;
            && s'.blocks == s.blocks
            && ContentsKept(s.hdr, s'.hdr, l) && HeadersInside(p, s.blocks, l.large, s.hdr, s'.hdr)
  {
    hide LargeOk, BlocksOk, Frame;
    HeadFacts(p, repaired, s, l, b, p.maxPages);
    var c := s.heads[p.maxPages];
    var u := c + pc * PAGE_SIZE;
    assert FlagOk(p, repaired, s.hdr, l.live, c);
    SplitStepFrame(p, repaired, s, l.large, b, FreeChunks(b, l), l.live.Keys, pc);
    ChunkMisses(p, repaired, s, l, b, c, u);
    InsideIsNoChunk(p, s.hdr, s.blocks, b.home, c, u);
    FrameKeepsContents(p, repaired, s, SplitStep(p, repaired, s, pc).0, l, b, b.home[u := 0], l, l.large);
  }

  lemma UnflagFrame(hdr: map<nat, Header>, hdr1: map<nat, Header>, home: map<nat, nat>, quiet: set<nat>, c: nat)
    requires Frame(hdr, hdr1, home, quiet) && c in hdr1 && c in home && c !in quiet
    ensures Frame(hdr, hdr1[c := hdr1[c].(free := false)], home, quiet)
  {}

  /** A header in a new region first, then a step that keeps the contents. */
  lemma NewChunkKeepsContents(p: Params, blocks: seq<nat>, large: map<nat, nat>, hdr: map<nat, Header>, h: Header,
                              hdr': map<nat, Header>, l: Ledger, osAddr: nat)
    requires Clear(l, osAddr) && (InBlocks(p, blocks, osAddr) || osAddr in large)
    requires ContentsKept(hdr[osAddr := h], hdr', l) && HeadersInside(p, blocks, large, hdr[osAddr := h], hdr')
    ensures ContentsKept(hdr, hdr', l) && HeadersInside(p, blocks, large, hdr, hdr')
  {
    forall x | Written(hdr, hdr', x) && x != osAddr ensures Written(hdr[osAddr := h], hdr', x) {}
  }

  lemma NothingWritten(p: Params, blocks: seq<nat>, large: map<nat, nat>, hdr: map<nat, Header>, l: Ledger)
    requires forall d :: d in l.live ==> d in hdr
    ensures ContentsKept(hdr, hdr, l) && HeadersInside(p, blocks, large, hdr, hdr)
  {}

  lemma ExactPopKeepsContents(p: Params, repaired: bool, s: Bulk, l: Ledger, b: Book, pc: nat)
    requires Inv(p, repaired, s, l, b) && 0 < pc <= p.maxPages && s.heads[pc - 1] != 0
    ensures s.heads[pc - 1] in s.hdr
    ensures var s' := ExactPopStep(repaired, s, pc - 1).0;
            && s'.blocks == s.blocks
            && ContentsKept(s.hdr, s'.hdr, l) && HeadersInside(p, s.blocks, l.large, s.hdr, s'.hdr)
  {
    HeadFacts(p, repaired, s, l, b, pc - 1);
    var c := s.heads[pc - 1];
    RemoveFrame(p, s, l.large, b, FreeChunks(b, l), c, b.home, l.live.Keys);
    UnflagFrame(s.hdr, PopFree(s, pc - 1).hdr, b.home, l.live.Keys, c);
    FrameKeepsContents(p, repaired, s, ExactPopStep(repaired, s, pc - 1).0, l, b, b.home, l, l.large);
  }

  lemma CutFrame(p: Params, repaired: bool, s: Bulk, large: map<nat, nat>, b: Book, quiet: set<nat>, c: nat, pc: nat)
    requires Tiling(p, s.hdr, b.home) && quiet <= b.home.Keys && c !in quiet
    requires c in b.home && c in s.hdr && pc <= s.hdr[c].count && c + pc * PAGE_SIZE !in b.home
    ensures Frame(s.hdr, SplitChunk(repaired, s.hdr, c, pc), b.home[c + pc * PAGE_SIZE := 0], quiet)
  {
    ChunksInHdr(p, s.hdr, b.home);
    assert ChunkOk(p, s.hdr, b.home, c);
  }

  lemma NewBlockKeepsContents(p: Params, repaired: bool, s: Bulk, l: Ledger, b: Book, pc: nat, osAddr: nat)
    requires Inv(p, repaired, s, l, b) && 0 < pc <= p.maxPages && s.heads[p.maxPages] == 0
    requires FreshRegion(p, s, l, osAddr, p.blockPages)
    ensures var s' := SplitStep(p, repaired, NewBlock(p, s, osAddr), pc).0;
            && s'.blocks == [osAddr] + s.blocks
            && ContentsKept(s.hdr, s'.hdr, l) && HeadersInside(p, s'.blocks, l.large, s.hdr, s'.hdr)
  {
    var s1 := NewBlock(p, s, osAddr);
    var b1 := NewBlockKeeps(p, repaired, s, l, b, osAddr);
    FreshIsClear(p, repaired, s, l, b, osAddr, p.blockPages);
    SplitKeepsContents(p, repaired, s1, l, b1, pc);
    assert osAddr in s1.blocks && InBlocks(p, s1.blocks, osAddr);
    NewChunkKeepsContents(p, s1.blocks, l.large, s.hdr, s1.hdr[osAddr], SplitStep(p, repaired, s1, pc).0.hdr, l,
                          osAddr);
  }

  lemma LargeKeepsContents(p: Params, repaired: bool, s: Bulk, l: Ledger, b: Book, pc: nat, osAddr: nat)
    requires Inv(p, repaired, s, l, b) && pc > p.maxPages && FreshRegion(p, s, l, osAddr, pc)
    ensures var s' := LargeStep(s, pc, osAddr).0;
            && s'.blocks == s.blocks
            && ContentsKept(s.hdr, s'.hdr, l) && HeadersInside(p, s.blocks, l.large[osAddr := pc], s.hdr, s'.hdr)
  {
    FreshIsClear(p, repaired, s, l, b, osAddr, pc);
    ChunksInHdr(p, s.hdr, b.home);
    var hdr' := LargeStep(s, pc, osAddr).0.hdr;
    NothingWritten(p, s.blocks, l.large[osAddr := pc], hdr', l);
    NewChunkKeepsContents(p, s.blocks, l.large[osAddr := pc], s.hdr, hdr'[osAddr], hdr', l, osAddr);
  }

  /** allocate leaves alone everything a client held. */
  lemma AllocateKeepsContents(p: Params, repaired: bool, s: Bulk, l: Ledger, b: Book, pc: nat, osAddr: nat)
    requires Inv(p, repaired, s, l, b) && pc > 0
    requires FreshRegion(p, s, l, osAddr, if pc <= p.maxPages then p.blockPages else pc)
    ensures CanAllocate(p, s, pc)
    ensures var (s', ptr) := Allocate(p, repaired, s, pc, osAddr);
            && ContentsKept(s.hdr, s'.hdr, l)
            && HeadersInside(p, s'.blocks, Granted(p, l, ptr, pc).large, s.hdr, s'.hdr)
  {
    CanAllocateUnderInv(p, repaired, s, l, b, pc);
    if p.maxPages < pc {
      LargeKeepsContents(p, repaired, s, l, b, pc, osAddr);
    } else if s.heads[pc - 1] != 0 {
      ExactPopKeepsContents(p, repaired, s, l, b, pc);
    } else if s.heads[p.maxPages] != 0 {
      SplitKeepsContents(p, repaired, s, l, b, pc);
    } else {
      NewBlockKeepsContents(p, repaired, s, l, b, pc, osAddr);
    }
  }

  lemma BlocksAfterRemove(p: Params, s: Bulk, h: nat)
    requires h in s.hdr && |s.heads| == p.maxPages + 1
    ensures RemoveFromFreeList(p, s, h).blocks == s.blocks
  {}

  lemma BlocksAfterDeallocate(p: Params, repaired: bool, s: Bulk, h: nat)
    requires h in s.hdr && |s.heads| == p.maxPages + 1
    ensures Deallocate(p, repaired, s, h).blocks == s.blocks
  {
    if s.hdr[h].count != 0 {
      if FlaggedChunk(s.hdr, s.hdr[h].prev) { BlocksAfterRemove(p, s, s.hdr[h].prev); }
      var (s1, h1) := MergePrev(p, repaired, s, h);
      if FlaggedChunk(s1.hdr, s1.hdr[h1].next) { BlocksAfterRemove(p, s1, s1.hdr[h1].next); }
      var s2 := MergeNext(p, repaired, s1, h1);
      assert s2.blocks == s.blocks;
    }
  }

  /** deallocate leaves alone everything the clients still hold. */
  lemma DeallocateKeepsContents(p: Params, repaired: bool, s: Bulk, l: Ledger, b: Book, h: nat)
    requires Inv(p, repaired, s, l, b) && h in l.live
    requires h in s.hdr && (repaired || !Hazard(s, l, h))
    ensures |s.heads| == p.maxPages + 1
    ensures var s' := Deallocate(p, repaired, s, h);
            && s'.blocks == s.blocks
            && ContentsKept(s.hdr, s'.hdr, l.(live := l.live - {h}))
            && HeadersInside(p, s.blocks, l.large, s.hdr, s'.hdr)
  {
    DeallocateFrame(p, repaired, s, l, b, h);
    BlocksAfterDeallocate(p, repaired, s, h);
    FrameKeepsContents(p, repaired, s, Deallocate(p, repaired, s, h), l, b, b.home, l.(live := l.live - {h}), l.large);
  }
}
