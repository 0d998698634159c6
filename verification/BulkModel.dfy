/** The bulk allocator as a simple one on sequences, without headers and links: which chunks there are,
    how many pages each has, and in which order the free ones are listed. Every step of BulkSpec is
    exactly a step of it (src/iibmalloc/iibmalloc.h:603-744). */
module BulkModel {
  import opened Arith
  import opened Lists
  import opened Sums
  import opened BulkSpec
  import opened BulkLists
  import opened BulkTiling
  import opened BulkSteps
  import opened BulkRuns

  /** size: the pages of each chunk; lists: the free chunks, each list in order. */
  datatype Chunks = Chunks(blocks: seq<nat>, size: map<nat, nat>, lists: seq<seq<nat>>)

  function Sizes(hdr: map<nat, Header>, home: map<nat, nat>): map<nat, nat> {
    map c | c in home && c in hdr :: hdr[c].count
  }

  ghost function View(s: Bulk, b: Book): Chunks {
    Chunks(s.blocks, Sizes(s.hdr, b.home), b.lists)
  }

  /** The last list can serve any request. */
  predicate Usable(p: Params, v: Chunks) {
    |v.lists| == p.maxPages + 1 && p.maxPages < p.blockPages
    && (v.lists[p.maxPages] != [] ==>
          v.lists[p.maxPages][0] in v.size && p.maxPages < v.size[v.lists[p.maxPages][0]])
  }

  /** A new block is one chunk, the only one on the last list. */
  function Grown(p: Params, v: Chunks, osAddr: nat): Chunks
    requires Usable(p, v)
  {
    Chunks([osAddr] + v.blocks, v.size[osAddr := p.blockPages], v.lists[p.maxPages := [osAddr]])
  }

  /** The first chunk of the last list gives its first pc pages away; the rest is listed anew. */
  function Cut(p: Params, v: Chunks, pc: nat): (r: (Chunks, nat))
    requires Usable(p, v) && v.lists[p.maxPages] != [] && pc <= p.maxPages
  {
    var c := v.lists[p.maxPages][0];
    var u, n := c + pc * PAGE_SIZE, v.size[c] - pc;
    var lists := v.lists[p.maxPages := v.lists[p.maxPages][1..]];
    (Chunks(v.blocks, v.size[c := pc][u := n], lists[ListIdx(p, n) := [u] + lists[ListIdx(p, n)]]), c)
  }

  /** allocate: the first chunk of exactly pc pages if there is one; otherwise the first pc pages of the
      first longer chunk, or of a new block if there is none; more than maxPages pages are no chunk. */
  function Take(p: Params, v: Chunks, pc: nat, osAddr: nat): (r: (Chunks, nat))
    requires Usable(p, v) && pc > 0
  {
    if pc > p.maxPages then (v, osAddr)
    else if v.lists[pc - 1] != [] then (v.(lists := v.lists[pc - 1 := v.lists[pc - 1][1..]]), v.lists[pc - 1][0])
    else Cut(p, if v.lists[p.maxPages] != [] then v else Grown(p, v, osAddr), pc)
  }

  /** Chunk a grows by chunk c, which is no chunk any more. */
  function Joined(size: map<nat, nat>, a: nat, c: nat): map<nat, nat>
    requires a in size && c in size
  {
    (size - {c})[a := size[a] + size[c]]
  }

  predicate CanGive(p: Params, v: Chunks, a: nat, h: nat, n: nat) {
    && |v.lists| == p.maxPages + 1 && h in v.size && a != h && n != h && (a == n ==> a == 0)
    && (a != 0 ==> a in v.size) && (n != 0 ==> n in v.size)
  }

  /** deallocate: chunk h, joined with the listed chunks a in front of it and n behind it (0 for none),
      goes to the front of the list its size selects. */
  function Give(p: Params, v: Chunks, a: nat, h: nat, n: nat): Chunks
    requires CanGive(p, v, a, h, n)
  {
    var h1 := if a != 0 then a else h;
    var size1 := if a != 0 then Joined(v.size, a, h) else v.size;
    var lists1 := if a != 0 then ListsWithout(p, v.lists, a, v.size[a]) else v.lists;
    var size2 := if n != 0 then Joined(size1, h1, n) else size1;
    var lists2 := if n != 0 then ListsWithout(p, lists1, n, v.size[n]) else lists1;
    Chunks(v.blocks, size2, ListsWith(p, lists2, h1, size2[h1]))
  }

  // ---------------------------------------------------------------------------------------
  // allocate

  lemma InvUsable(p: Params, repaired: bool, s: Bulk, l: Ledger, b: Book)
    requires Inv(p, repaired, s, l, b)
    ensures |s.heads| == |b.lists| == p.maxPages + 1 && Usable(p, View(s, b))
  {
    HeadOf(p, repaired, s, l, b, p.maxPages);
    if b.lists[p.maxPages] != [] { HeadFacts(p, repaired, s, l, b, p.maxPages); }
  }

  lemma HeadOf(p: Params, repaired: bool, s: Bulk, l: Ledger, b: Book, i: nat)
    requires Inv(p, repaired, s, l, b) && i <= p.maxPages
    ensures |s.heads| == |b.lists| == p.maxPages + 1
    ensures s.heads[i] == First(b.lists[i]) && (s.heads[i] == 0 <==> b.lists[i] == [])
  {
    assert Chain(s.hdr, s.heads[i], b.lists[i]);
    if b.lists[i] != [] { assert NodeOk(s.hdr, b.lists[i], 0); }
  }

  lemma SameSizes(hdr: map<nat, Header>, hdr': map<nat, Header>, home: map<nat, nat>)
    requires TagsKept(hdr, hdr')
    ensures Sizes(hdr', home) == Sizes(hdr, home)
  {}

  /** What a pop leaves, in the terms of the model. */
  lemma PopView(p: Params, repaired: bool, s: Bulk, b: Book, i: nat)
    requires |s.heads| == |b.lists| == p.maxPages + 1 && i < p.maxPages && b.lists[i] != [] && s.heads[i] in s.hdr
    requires s.heads[i] == b.lists[i][0] && TagsKept(s.hdr, PopFree(s, i).hdr)
    ensures View(ExactPopStep(repaired, s, i).0, Book(b.home, ListsWithout(p, b.lists, s.heads[i], i + 1)))
         == View(s, b).(lists := b.lists[i := b.lists[i][1..]])
  {
    var s' := ExactPopStep(repaired, s, i).0;
    SameSizes(s.hdr, PopFree(s, i).hdr, b.home);
    assert Sizes(s'.hdr, b.home) == Sizes(PopFree(s, i).hdr, b.home);
  }

  /** A chunk that fits exactly. */
  lemma PopRefines(p: Params, repaired: bool, s: Bulk, l: Ledger, b: Book, pc: nat) returns (b': Book)
    requires Inv(p, repaired, s, l, b) && 0 < pc <= p.maxPages && s.heads[pc - 1] != 0
    ensures Usable(p, View(s, b)) && |s.heads| == |b.lists| == p.maxPages + 1
    ensures b.lists[pc - 1] != [] && s.heads[pc - 1] in s.hdr
    ensures var (s', c) := ExactPopStep(repaired, s, pc - 1);
            && Inv(p, repaired, s', Granted(p, l, c, pc), b')
            && View(s', b') == View(s, b).(lists := b.lists[pc - 1 := b.lists[pc - 1][1..]]) && c == b.lists[pc - 1][0]
  {
    hide Inv, View, ExactPopStep, ListsWithout;
    InvUsable(p, repaired, s, l, b);
    HeadOf(p, repaired, s, l, b, pc - 1);
    b' := ExactPopKeeps(p, repaired, s, l, b, pc);
    HeadFacts(p, repaired, s, l, b, pc - 1);
    RemoveTags(p, s, s.heads[pc - 1]);
    PopView(p, repaired, s, b, pc - 1);
  }

  lemma CutView(p: Params, repaired: bool, s: Bulk, b: Book, pc: nat)
    requires Usable(p, View(s, b)) && b.lists[p.maxPages] != [] && pc > 0
    requires |s.heads| == p.maxPages + 1 && s.heads[p.maxPages] == b.lists[p.maxPages][0]
    requires var c := s.heads[p.maxPages];
             && c in s.hdr && c in b.home && pc <= p.maxPages < s.hdr[c].count
             && TagsKept(SplitChunk(repaired, s.hdr, c, pc), SplitStep(p, repaired, s, pc).0.hdr)
    ensures var c := s.heads[p.maxPages];
            var s' := SplitStep(p, repaired, s, pc).0;
            (View(s', CutBook(p, b, c, pc, s.hdr[c].count)), c) == Cut(p, View(s, b), pc)
  {
    hide SplitChunk, SplitStep;
    var c := s.heads[p.maxPages];
    CutSizes(repaired, s.hdr, SplitStep(p, repaired, s, pc).0.hdr, b.home, c, pc);
    SplitBlocks(p, repaired, s, pc);
    assert Removed(b.lists[p.maxPages], c) == b.lists[p.maxPages][1..];
  }

  /** A longer chunk is cut. */
  lemma CutRefines(p: Params, repaired: bool, s: Bulk, l: Ledger, b: Book, pc: nat) returns (b': Book)
    requires Inv(p, repaired, s, l, b) && 0 < pc <= p.maxPages && s.heads[p.maxPages] != 0
    ensures Usable(p, View(s, b)) && b.lists[p.maxPages] != [] && |s.heads| == p.maxPages + 1
    ensures s.heads[p.maxPages] in s.hdr && pc <= s.hdr[s.heads[p.maxPages]].count
    ensures var (s', c) := SplitStep(p, repaired, s, pc);
            && Inv(p, repaired, s', Granted(p, l, c, pc), b')
            && (View(s', b'), c) == Cut(p, View(s, b), pc)
  {
    hide Inv, SplitChunk, View, Cut, CutBook, TagsKept;
    InvUsable(p, repaired, s, l, b);
    HeadOf(p, repaired, s, l, b, p.maxPages);
    b' := SplitKeeps(p, repaired, s, l, b, pc);
    HeadFacts(p, repaired, s, l, b, p.maxPages);
    CutView(p, repaired, s, b, pc);
  }

  lemma SplitBlocks(p: Params, repaired: bool, s: Bulk, pc: nat)
    requires |s.heads| == p.maxPages + 1 && s.heads[p.maxPages] in s.hdr && 0 < pc <= s.hdr[s.heads[p.maxPages]].count
    ensures SplitStep(p, repaired, s, pc).0.blocks == s.blocks
  {}

  lemma CutSizes(repaired: bool, hdr: map<nat, Header>, hdr': map<nat, Header>, home: map<nat, nat>, c: nat, pc: nat)
    requires c in home && c in hdr && 0 < pc <= hdr[c].count && TagsKept(SplitChunk(repaired, hdr, c, pc), hdr')
    ensures var u := c + pc * PAGE_SIZE;
            Sizes(hdr', home[u := home[c]]) == Sizes(hdr, home)[c := pc][u := hdr[c].count - pc]
  {
    SameSizes(SplitChunk(repaired, hdr, c, pc), hdr', home[c + pc * PAGE_SIZE := home[c]]);
  }

  lemma GrowRefines(p: Params, repaired: bool, s: Bulk, l: Ledger, b: Book, osAddr: nat) returns (b': Book)
    requires Inv(p, repaired, s, l, b) && s.heads[p.maxPages] == 0
    requires FreshRegion(p, s, l, osAddr, p.blockPages)
    ensures Usable(p, View(s, b)) && b.lists[p.maxPages] == []
    ensures var s' := NewBlock(p, s, osAddr);
            Inv(p, repaired, s', l, b') && View(s', b') == Grown(p, View(s, b), osAddr)
  {
    hide Inv, FreshRegion;
    InvUsable(p, repaired, s, l, b);
    HeadOf(p, repaired, s, l, b, p.maxPages);
    b' := NewBlockKeeps(p, repaired, s, l, b, osAddr);
    GrowView(p, s, b, osAddr);
  }

  lemma GrowView(p: Params, s: Bulk, b: Book, osAddr: nat)
    requires Usable(p, View(s, b)) && |s.heads| == p.maxPages + 1 && b.lists[p.maxPages] == []
    ensures View(NewBlock(p, s, osAddr), Book(b.home[osAddr := osAddr], ListsWith(p, b.lists, osAddr, p.blockPages)))
         == Grown(p, View(s, b), osAddr)
  {
    var hdr' := NewBlock(p, s, osAddr).hdr;
    assert Sizes(hdr', b.home[osAddr := osAddr]) == Sizes(s.hdr, b.home)[osAddr := p.blockPages];
    assert [osAddr] + b.lists[p.maxPages] == [osAddr];
  }

  /** allocate of the pointer-level allocator is Take. */
  lemma AllocateRefines(p: Params, repaired: bool, s: Bulk, l: Ledger, b: Book, pc: nat, osAddr: nat) returns (b': Book)
    requires Inv(p, repaired, s, l, b) && pc > 0
    requires FreshRegion(p, s, l, osAddr, if pc <= p.maxPages then p.blockPages else pc)
    ensures CanAllocate(p, s, pc) && Usable(p, View(s, b))
    ensures var (s', ptr) := Allocate(p, repaired, s, pc, osAddr);
            && Inv(p, repaired, s', Granted(p, l, ptr, pc), b')
            && (View(s', b'), ptr) == Take(p, View(s, b), pc, osAddr)
  {
    hide Inv, FreshRegion, Tiling;
    CanAllocateUnderInv(p, repaired, s, l, b, pc);
    InvUsable(p, repaired, s, l, b);
    if pc <= p.maxPages { HeadOf(p, repaired, s, l, b, pc - 1); }
    HeadOf(p, repaired, s, l, b, p.maxPages);
    if p.maxPages < pc {
      LargeKeeps(p, repaired, s, l, b, pc, osAddr);
      b' := b;
      LargeView(s, b, pc, osAddr);
    } else if s.heads[pc - 1] != 0 {
      b' := PopRefines(p, repaired, s, l, b, pc);
    } else {
      b' := CutOrGrow(p, repaired, s, l, b, pc, osAddr);
    }
  }

  lemma LargeView(s: Bulk, b: Book, pc: nat, osAddr: nat)
    requires osAddr !in b.home
    ensures View(LargeStep(s, pc, osAddr).0, b) == View(s, b)
  {}

  lemma CutOrGrow(p: Params, repaired: bool, s: Bulk, l: Ledger, b: Book, pc: nat, osAddr: nat) returns (b': Book)
    requires Inv(p, repaired, s, l, b) && 0 < pc <= p.maxPages && FreshRegion(p, s, l, osAddr, p.blockPages)
    ensures Usable(p, View(s, b))
    ensures var s1 := if s.heads[p.maxPages] == 0 then NewBlock(p, s, osAddr) else s;
            var v1 := if b.lists[p.maxPages] == [] then Grown(p, View(s, b), osAddr) else View(s, b);
            && s1.heads[p.maxPages] in s1.hdr && pc <= s1.hdr[s1.heads[p.maxPages]].count
            && Usable(p, v1) && v1.lists[p.maxPages] != []
            && var (s', c) := SplitStep(p, repaired, s1, pc);
            && Inv(p, repaired, s', Granted(p, l, c, pc), b') && (View(s', b'), c) == Cut(p, v1, pc)
  {
    InvUsable(p, repaired, s, l, b);
    HeadOf(p, repaired, s, l, b, p.maxPages);
    var s1, b1 := s, b;
    if s.heads[p.maxPages] == 0 {
      b1 := GrowRefines(p, repaired, s, l, b, osAddr);
      s1 := NewBlock(p, s, osAddr);
    }
    hide Inv, View, SplitStep, Grown;
    b' := CutRefines(p, repaired, s1, l, b1, pc);
  }

  // ---------------------------------------------------------------------------------------
  // deallocate

  /** Chunk c ends where chunk d of the same block starts. */
  ghost predicate Abut(s: Bulk, b: Book, c: nat, d: nat) {
    c in b.home && d in b.home && b.home[c] == b.home[d] && c in s.hdr && c + s.hdr[c].count * PAGE_SIZE == d
  }

  /** The chunks a freed chunk h is joined with: every neighbour that nobody holds when repaired; as
      written no chunk in front, and the chunk behind exactly if its free bit is set. */
  ghost predicate JoinsWith(repaired: bool, s: Bulk, l: Ledger, b: Book, h: nat, a: nat, n: nat) {
    && (a != 0 ==> Abut(s, b, a, h) && a !in l.live)
    && (n != 0 ==> Abut(s, b, h, n) && n !in l.live)
    && (repaired ==> forall c :: Abut(s, b, c, h) && c !in l.live ==> c == a)
    && (repaired ==> forall c :: Abut(s, b, h, c) && c !in l.live ==> c == n)
    && (!repaired ==> a == 0 && forall c :: c != 0 && Abut(s, b, h, c) ==> (c == n <==> FlaggedChunk(s.hdr, c)))
  }

  /** The flagged neighbours, 0 for none. */
  function FlaggedPrev(hdr: map<nat, Header>, h: nat): nat
    requires h in hdr
  {
    if FlaggedChunk(hdr, hdr[h].prev) then hdr[h].prev else 0
  }

  function FlaggedNext(hdr: map<nat, Header>, h: nat): nat
    requires h in hdr
  {
    if FlaggedChunk(hdr, hdr[h].next) then hdr[h].next else 0
  }

  /** In a tiled block the chunk in front is the one the back-link names. */
  lemma AbutIsPrev(p: Params, s: Bulk, b: Book, c: nat, h: nat)
    requires Tiling(p, s.hdr, b.home) && Abut(s, b, c, h)
    ensures c != 0 && h in s.hdr && s.hdr[h].prev == c && s.hdr[c].next == h
  {
    assert ChunkOk(p, s.hdr, b.home, c);
    assert ChunkOk(p, s.hdr, b.home, h);
    var q := s.hdr[h].prev;
    assert ChunkOk(p, s.hdr, b.home, s.hdr[c].next);
  }

  lemma PrevAbuts(p: Params, s: Bulk, b: Book, h: nat)
    requires Tiling(p, s.hdr, b.home) && h in b.home
    ensures h in s.hdr
    ensures s.hdr[h].prev != 0 ==> Abut(s, b, s.hdr[h].prev, h)
    ensures s.hdr[h].next != 0 ==> Abut(s, b, h, s.hdr[h].next)
  {
    assert ChunkOk(p, s.hdr, b.home, h);
    if s.hdr[h].prev != 0 { assert ChunkOk(p, s.hdr, b.home, s.hdr[h].prev); }
  }

  lemma WhoJoins(p: Params, repaired: bool, s: Bulk, l: Ledger, b: Book, h: nat)
    requires Inv(p, repaired, s, l, b) && h in l.live && h in s.hdr && (repaired || !Hazard(s, l, h))
    ensures JoinsWith(repaired, s, l, b, h, FlaggedPrev(s.hdr, h), FlaggedNext(s.hdr, h))
  {
    PrevAbuts(p, s, b, h);
    assert ChunkOk(p, s.hdr, b.home, h);
    var a, n := s.hdr[h].prev, s.hdr[h].next;
    if a != 0 { assert ChunkOk(p, s.hdr, b.home, a) && FlagOk(p, repaired, s.hdr, l.live, a); }
    if n != 0 { assert ChunkOk(p, s.hdr, b.home, n) && FlagOk(p, repaired, s.hdr, l.live, n); }
    forall c | Abut(s, b, c, h) ensures c == a && c != 0 { AbutIsPrev(p, s, b, c, h); }
    forall c | Abut(s, b, h, c) ensures c == n { AbutIsPrev(p, s, b, h, c); }
  }

  lemma MergedSizes(repaired: bool, hdr: map<nat, Header>, hdr1: map<nat, Header>, home: map<nat, nat>, a: nat, c: nat)
    requires TagsKept(hdr, hdr1) && a in home && c in home && a in hdr && c in hdr && a != c
    ensures Sizes(MergeChunks(repaired, hdr1, a, c), Dropped(home, c)) == Joined(Sizes(hdr, home), a, c)
  {
    SameSizes(hdr, hdr1, home);
  }

  /** The merge with the chunk in front, in the terms of the model; what it leaves of the chunk behind. */
  lemma JoinPrevView(p: Params, repaired: bool, s: Bulk, b: Book, h: nat)
    requires |s.heads| == |b.lists| == p.maxPages + 1 && h in s.hdr && h in b.home
    requires var a := FlaggedPrev(s.hdr, h); a != 0 ==> a in b.home && a != h && s.hdr[h].next != a
    requires s.hdr[h].next != h
    ensures var a := FlaggedPrev(s.hdr, h);
            var (s1, h1) := MergePrev(p, repaired, s, h);
            var b1 := JoinPrevBook(p, s.hdr, b, h);
            && s1.blocks == s.blocks && h1 == (if a != 0 then a else h)
            && b1.lists == (if a != 0 then ListsWithout(p, b.lists, a, Sizes(s.hdr, b.home)[a]) else b.lists)
            && Sizes(s1.hdr, b1.home) == (if a != 0 then Joined(Sizes(s.hdr, b.home), a, h) else Sizes(s.hdr, b.home))
            && FlaggedNext(s1.hdr, h1) == FlaggedNext(s.hdr, h)
            && h1 in b1.home && (s.hdr[h].next in b.home ==> s.hdr[h].next in b1.home)
  {
    var a := FlaggedPrev(s.hdr, h);
    if a != 0 {
      var s0 := RemoveFromFreeList(p, s, a);
      RemoveTags(p, s, a);
      MergedSizes(repaired, s.hdr, s0.hdr, b.home, a, h);
      assert SameTag(s.hdr[h], s0.hdr[h]);
      var n := s.hdr[h].next;
      if n in s.hdr { assert SameTag(s.hdr[n], s0.hdr[n]); }
    }
  }

  lemma JoinNextView(p: Params, repaired: bool, s: Bulk, b: Book, h: nat)
    requires |s.heads| == |b.lists| == p.maxPages + 1 && h in s.hdr && h in b.home
    requires var n := FlaggedNext(s.hdr, h); n != 0 ==> n in b.home && n != h
    ensures var n := FlaggedNext(s.hdr, h);
            var s1 := MergeNext(p, repaired, s, h);
            var b1 := JoinNextBook(p, s.hdr, b, h);
            && s1.blocks == s.blocks && h in b1.home
            && b1.lists == (if n != 0 then ListsWithout(p, b.lists, n, Sizes(s.hdr, b.home)[n]) else b.lists)
            && Sizes(s1.hdr, b1.home) == (if n != 0 then Joined(Sizes(s.hdr, b.home), h, n) else Sizes(s.hdr, b.home))
  {
    var n := FlaggedNext(s.hdr, h);
    if n != 0 {
      RemoveTags(p, s, n);
      MergedSizes(repaired, s.hdr, RemoveFromFreeList(p, s, n).hdr, b.home, h, n);
    }
  }

  lemma FinishView(p: Params, repaired: bool, s: Bulk, home: map<nat, nat>, h: nat)
    requires |s.heads| == p.maxPages + 1 && h in s.hdr
    ensures var s' := PushFree(p, MarkFree(repaired, s, h), h);
            s'.blocks == s.blocks && Sizes(s'.hdr, home) == Sizes(s.hdr, home)
  {
    var s1 := MarkFree(repaired, s, h);
    PushTags(p, s1, h);
    SameSizes(s1.hdr, PushFree(p, s1, h).hdr, home);
    assert Sizes(s1.hdr, home) == Sizes(s.hdr, home);
  }

  lemma GiveView(p: Params, repaired: bool, s: Bulk, b: Book, h: nat)
    requires |s.heads| == |b.lists| == p.maxPages + 1 && h in s.hdr && h in b.home && s.hdr[h].count != 0
    requires var a, n := FlaggedPrev(s.hdr, h), FlaggedNext(s.hdr, h);
             && (a != 0 ==> a in b.home && a < h) && (n != 0 ==> n in b.home)
                 && (s.hdr[h].next != 0 ==> h < s.hdr[h].next)
    requires h > 0
    ensures var a, n := FlaggedPrev(s.hdr, h), FlaggedNext(s.hdr, h);
            && CanGive(p, View(s, b), a, h, n)
            && View(Deallocate(p, repaired, s, h), FreedBook(p, repaired, s, b, h)) == Give(p, View(s, b), a, h, n)
  {
    hide MergePrev, MergeNext, JoinPrevBook, JoinNextBook, ListsWithout, MarkFree, PushFree;
    JoinPrevView(p, repaired, s, b, h);
    var (s1, h1) := MergePrev(p, repaired, s, h);
    var b1 := JoinPrevBook(p, s.hdr, b, h);
    JoinNextView(p, repaired, s1, b1, h1);
    var s2, b2 := MergeNext(p, repaired, s1, h1), JoinNextBook(p, s1.hdr, b1, h1);
    FinishView(p, repaired, s2, b2.home, h1);
    assert Sizes(s2.hdr, b2.home)[h1] == s2.hdr[h1].count;
  }

  /** deallocate of a chunk of the pointer-level allocator is Give, with exactly the neighbours that ought
      to be joined. */
  lemma DeallocateRefines(p: Params, repaired: bool, s: Bulk, l: Ledger, b: Book, h: nat)
    returns (b': Book, a: nat, n: nat)
    requires Inv(p, repaired, s, l, b) && h in l.live
    requires h in s.hdr && (repaired || !Hazard(s, l, h))
    ensures JoinsWith(repaired, s, l, b, h, a, n)
    ensures |s.heads| == p.maxPages + 1 && CanGive(p, View(s, b), a, h, n)
    ensures var s' := Deallocate(p, repaired, s, h);
            && Inv(p, repaired, s', l.(live := l.live - {h}), b')
            && View(s', b') == Give(p, View(s, b), a, h, n)
  {
    WhoJoins(p, repaired, s, l, b, h);
    a, n := FlaggedPrev(s.hdr, h), FlaggedNext(s.hdr, h);
    InBlock(p, s.hdr, b.home, h);
    ChunksInHdr(p, s.hdr, b.home);
    PrevAbuts(p, s, b, h);
    if a != 0 { InBlock(p, s.hdr, b.home, a); }
    b' := DeallocateKeeps(p, repaired, s, l, b, h);
    hide Inv;
    GiveView(p, repaired, s, b, h);
  }

  // ---------------------------------------------------------------------------------------
  // Runs

  /** The call does to the view what the model does. */
  ghost predicate Follows(p: Params, repaired: bool, m: Machine, op: Op, b: Book, m': Machine, b': Book)
    requires CanStep(p, m, op)
  {
    var v, v' := View(m.s, b), View(m'.s, b');
    match op
    case Alloc(pc, osAddr) =>
      Usable(p, v) && pc > 0 && (v', Allocate(p, repaired, m.s, pc, osAddr).1) == Take(p, v, pc, osAddr)
    case Free(ptr) =>
      if ptr in m.l.live then
        exists a, n :: JoinsWith(repaired, m.s, m.l, b, ptr, a, n) && CanGive(p, v, a, ptr, n)
            && v' == Give(p, v, a, ptr, n)
      else v' == v
    case Write(_, _, _) => v' == v
  }

  lemma StepFollows(p: Params, repaired: bool, m: Machine, op: Op, b: Book) returns (b': Book)
    requires Inv(p, repaired, m.s, m.l, b) && Legal(p, m, op) && (repaired || NoHazard(m, op))
    ensures CanStep(p, m, op)
    ensures var m' := Step(p, repaired, m, op);
            Inv(p, repaired, m'.s, m'.l, b') && Follows(p, repaired, m, op, b, m', b')
  {
    assert Ok(p, repaired, m);
    CanStepWhenOk(p, repaired, m, op);
    match op {
      case Alloc(pc, osAddr) =>
        b' := AllocateRefines(p, repaired, m.s, m.l, b, pc, osAddr);
      case Free(ptr) =>
        if ptr in m.l.live {
          var a, n;
          b', a, n := DeallocateRefines(p, repaired, m.s, m.l, b, ptr);
        } else {
          DeallocateLargeKeeps(p, repaired, m.s, m.l, b, ptr);
          b' := b;
        }
      case Write(ptr, word1, word2) =>
        WriteKeeps(p, repaired, m.s, m.l, b, ptr, m.s.hdr[ptr].(prevFree := word1, nextFree := word2));
        b' := b;
        WriteView(m.s, b, ptr, m.s.hdr[ptr].(prevFree := word1, nextFree := word2));
    }
  }

  lemma WriteView(s: Bulk, b: Book, ptr: nat, h: Header)
    requires ptr in s.hdr && SameTag(s.hdr[ptr], h)
    ensures View(s.(hdr := s.hdr[ptr := h]), b) == View(s, b)
  {
    SameSizes(s.hdr, s.hdr[ptr := h], b.home);
  }

  /** Every page of every block is in exactly one chunk's size. */
  ghost predicate Conserved(p: Params, v: Chunks) {
    SumOf(v.size) == |v.blocks| * p.blockPages
  }

  lemma SumSet(m: map<nat, nat>, k: nat, v: nat)
    requires k in m
    ensures SumOf(m[k := v]) == SumOf(m) - m[k] + v
  {
    SumRemove(m, k);
    assert m[k := v] == (m - {k})[k := v];
    SumAdd(m - {k}, k, v);
  }

  lemma JoinedSum(size: map<nat, nat>, a: nat, c: nat)
    requires a in size && c in size && a != c
    ensures SumOf(Joined(size, a, c)) == SumOf(size)
  {
    SumRemove(size, c);
    SumSet(size - {c}, a, size[a] + size[c]);
  }

  lemma GiveConserves(p: Params, v: Chunks, a: nat, h: nat, n: nat)
    requires CanGive(p, v, a, h, n) && Conserved(p, v)
    ensures Conserved(p, Give(p, v, a, h, n))
  {
    if a != 0 { JoinedSum(v.size, a, h); }
    var h1 := if a != 0 then a else h;
    var size1 := if a != 0 then Joined(v.size, a, h) else v.size;
    if n != 0 { JoinedSum(size1, h1, n); }
  }

  lemma CutConserves(p: Params, v: Chunks, pc: nat)
    requires Usable(p, v) && v.lists[p.maxPages] != [] && pc <= p.maxPages && Conserved(p, v)
    requires v.lists[p.maxPages][0] + pc * PAGE_SIZE !in v.size
    ensures Conserved(p, Cut(p, v, pc).0)
  {
    var c := v.lists[p.maxPages][0];
    var u: nat, n: nat := c + pc * PAGE_SIZE, v.size[c] - pc;
    SumSet(v.size, c, pc);
    SumAdd(v.size[c := pc], u, n);
    assert Cut(p, v, pc).0.size == v.size[c := pc][u := n] && Cut(p, v, pc).0.blocks == v.blocks;
  }

  lemma GrownConserves(p: Params, v: Chunks, osAddr: nat)
    requires Usable(p, v) && osAddr !in v.size && Conserved(p, v)
    ensures Conserved(p, Grown(p, v, osAddr))
  {
    SumAdd(v.size, osAddr, p.blockPages);
    MulDistrib(1, |v.blocks|, p.blockPages);
  }

  /** The rest of a cut is a new chunk. */
  lemma RestIsNew(p: Params, repaired: bool, s: Bulk, l: Ledger, b: Book, pc: nat)
    requires Inv(p, repaired, s, l, b) && 0 < pc <= p.maxPages && |b.lists| == p.maxPages + 1
    requires b.lists[p.maxPages] != []
    ensures b.lists[p.maxPages][0] + pc * PAGE_SIZE !in b.home
  {
    HeadOf(p, repaired, s, l, b, p.maxPages);
    HeadFacts(p, repaired, s, l, b, p.maxPages);
    var c := b.lists[p.maxPages][0];
    InsideIsNoChunk(p, s.hdr, s.blocks, b.home, c, c + pc * PAGE_SIZE);
  }

  lemma RestOfBlockIsNew(p: Params, repaired: bool, s: Bulk, l: Ledger, b: Book, pc: nat, osAddr: nat)
    requires Inv(p, repaired, s, l, b) && 0 < pc <= p.maxPages && FreshRegion(p, s, l, osAddr, p.blockPages)
    ensures osAddr !in b.home && osAddr + pc * PAGE_SIZE !in b.home
  {
    FreshIsNoChunk(p, s, l, b.home, osAddr, p.blockPages);
    var u := osAddr + pc * PAGE_SIZE;
    if u in b.home {
      InBlock(p, s.hdr, b.home, u);
    }
  }

  lemma TakeConserves(p: Params, repaired: bool, s: Bulk, l: Ledger, b: Book, pc: nat, osAddr: nat)
    requires Inv(p, repaired, s, l, b) && pc > 0 && Usable(p, View(s, b)) && Conserved(p, View(s, b))
    requires FreshRegion(p, s, l, osAddr, if pc <= p.maxPages then p.blockPages else pc)
    ensures Conserved(p, Take(p, View(s, b), pc, osAddr).0)
  {
    hide Inv, Conserved, FreshRegion, Cut;
    var v := View(s, b);
    if pc <= p.maxPages && v.lists[pc - 1] == [] {
      if v.lists[p.maxPages] == [] {
        RestOfBlockIsNew(p, repaired, s, l, b, pc, osAddr);
        GrownConserves(p, v, osAddr);
        CutConserves(p, Grown(p, v, osAddr), pc);
      } else {
        RestIsNew(p, repaired, s, l, b, pc);
        CutConserves(p, v, pc);
      }
    } else {
      SameConserved(p, v, Take(p, v, pc, osAddr).0);
    }
  }

  lemma SameConserved(p: Params, v: Chunks, v': Chunks)
    requires Conserved(p, v) && v'.size == v.size && v'.blocks == v.blocks
    ensures Conserved(p, v')
  {}

  /** State number i of a run is consistent with book number i, has lost no page, and the call that led to
      it did what the model does. */
  ghost predicate FollowsAt(p: Params, repaired: bool, ms: seq<Machine>, ops: seq<Op>, bs: seq<Book>, i: nat)
    requires i < |ms| && i < |bs| && |ms| == |ops| + 1
  {
    && Inv(p, repaired, ms[i].s, ms[i].l, bs[i]) && Conserved(p, View(ms[i].s, bs[i]))
    && (i > 0 ==> CanStep(p, ms[i - 1], ops[i - 1])
                  && Follows(p, repaired, ms[i - 1], ops[i - 1], bs[i - 1], ms[i], bs[i]))
  }

  /** Every run of the repaired allocator, and every run of the code as written that frees no hazard, is
      step by step a run of the model, from the empty one on; and in all its states the chunks have
      together the pages of the blocks. */
  lemma {:induction false} RunFollows(p: Params, repaired: bool, ms: seq<Machine>, ops: seq<Op>, n: nat)
    returns (bs: seq<Book>)
    requires p.Valid() && IsRun(p, repaired, ms, ops) && n <= |ops|
    requires repaired || forall i {:trigger ops[i]} :: 0 <= i < |ops| ==> NoHazard(ms[i], ops[i])
    ensures |bs| == n + 1 && View(ms[0].s, bs[0]) == Chunks([], map[], seq(p.maxPages + 1, i => []))
    ensures forall i :: 0 <= i <= n ==> FollowsAt(p, repaired, ms, ops, bs, i)
  {
    if n == 0 {
      bs := [Book(map[], seq(p.maxPages + 1, i => []))];
    } else {
      var bs0 := RunFollows(p, repaired, ms, ops, n - 1);
      var b' := NextFollows(p, repaired, ms, ops, bs0, n);
      bs := bs0 + [b'];
      forall i | 0 <= i <= n ensures FollowsAt(p, repaired, ms, ops, bs, i) {
        if i < n { assert FollowsAt(p, repaired, ms, ops, bs0, i); }
      }
    }
  }

  lemma NextFollows(p: Params, repaired: bool, ms: seq<Machine>, ops: seq<Op>, bs: seq<Book>, n: nat) returns (b': Book)
    requires IsRun(p, repaired, ms, ops) && 0 < n <= |ops| && |bs| == n
    requires repaired || NoHazard(ms[n - 1], ops[n - 1])
    requires FollowsAt(p, repaired, ms, ops, bs, n - 1)
    ensures FollowsAt(p, repaired, ms, ops, bs + [b'], n)
  {
    var m, op := ms[n - 1], ops[n - 1];
    assert Legal(p, m, op);
    b' := StepFollows(p, repaired, m, op, bs[n - 1]);
    hide Inv, Conserved, Follows, View;
    StepConserves(p, repaired, m, op, bs[n - 1], ms[n], b');
  }

  lemma StepConserves(p: Params, repaired: bool, m: Machine, op: Op, b: Book, m': Machine, b': Book)
    requires Inv(p, repaired, m.s, m.l, b) && Legal(p, m, op) && CanStep(p, m, op)
    requires Follows(p, repaired, m, op, b, m', b') && Conserved(p, View(m.s, b))
    ensures Conserved(p, View(m'.s, b'))
  {
    match op {
      case Alloc(pc, osAddr) => TakeConserves(p, repaired, m.s, m.l, b, pc, osAddr);
      case Free(ptr) =>
        if ptr in m.l.live {
          var a, n :| JoinsWith(repaired, m.s, m.l, b, ptr, a, n) && CanGive(p, View(m.s, b), a, ptr, n)
                      && View(m'.s, b') == Give(p, View(m.s, b), a, ptr, n);
          GiveConserves(p, View(m.s, b), a, ptr, n);
        }
      case Write(_, _, _) =>
    }
  }
}
