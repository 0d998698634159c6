/** Every step of BulkAllocator keeps its invariant (src/iibmalloc/iibmalloc.h:603-744). */
module BulkSteps {
  import opened Arith
  import opened Lists
  import opened BulkSpec
  import opened BulkLists
  import opened BulkTiling

  /** The part of the invariant that does not mention flags or live chunks: `free` are the chunks
      on the lists. */
  ghost predicate Core(p: Params, s: Bulk, large: map<nat, nat>, b: Book, free: set<nat>) {
    && p.Valid()
    && Tiling(p, s.hdr, b.home)
    && BlocksOk(p, s.blocks, b.home)
    && LargeOk(p, s, large)
    && ListsOk(p, s.hdr, s.heads, b.lists, free)
    && free <= b.home.Keys
  }

  lemma LargeIsNoChunk(p: Params, s: Bulk, large: map<nat, nat>, home: map<nat, nat>, c: nat, x: nat)
    requires p.Valid() && Tiling(p, s.hdr, home) && BlocksOk(p, s.blocks, home) && LargeOk(p, s, large)
    requires c in home && c in s.hdr && c <= x < c + s.hdr[c].count * PAGE_SIZE
    ensures x !in large
  {
    InBlock(p, s.hdr, home, c);
    if x in large {
    }
  }

  lemma LargeFrame(p: Params, s: Bulk, s': Bulk, large: map<nat, nat>)
    requires LargeOk(p, s, large) && s'.blocks == s.blocks
    requires forall a :: a in large && a in s.hdr ==>
               a in s'.hdr && s'.hdr[a].count == s.hdr[a].count && s'.hdr[a].prev == s.hdr[a].prev
    ensures LargeOk(p, s', large)
  {}

  lemma RemoveCore(p: Params, s: Bulk, large: map<nat, nat>, b: Book, free: set<nat>, item: nat) returns (b': Book)
    requires Core(p, s, large, b, free) && item in free
    ensures item in s.hdr && |s.heads| == p.maxPages + 1
    ensures var s' := RemoveFromFreeList(p, s, item);
            && b' == Book(b.home, ListsWithout(p, b.lists, item, s.hdr[item].count))
            && Core(p, s', large, b', free - {item})
            && TagsKept(s.hdr, s'.hdr)
            && OnlyTouched(s.hdr, s'.hdr, free - {item})
  {
    var lists' := RemoveKeepsLists(p, s, b.lists, free, item);
    var s' := RemoveFromFreeList(p, s, item);
    b' := Book(b.home, lists');
    TilingFrame(p, s.hdr, s'.hdr, b.home);
    LargeFrame(p, s, s', large);
  }

  lemma PushCore(p: Params, s: Bulk, large: map<nat, nat>, b: Book, free: set<nat>, h: nat) returns (b': Book)
    requires Core(p, s, large, b, free) && h !in free && h in b.home && h in s.hdr
    ensures |s.heads| == p.maxPages + 1
    ensures var s' := PushFree(p, s, h);
            && b' == Book(b.home, ListsWith(p, b.lists, h, s.hdr[h].count))
            && Core(p, s', large, b', free + {h})
            && TagsKept(s.hdr, s'.hdr)
            && OnlyTouched(s.hdr, s'.hdr, free + {h})
  {
    InBlock(p, s.hdr, b.home, h);
    var lists' := PushKeepsLists(p, s, b.lists, free, h);
    var s' := PushFree(p, s, h);
    b' := Book(b.home, lists');
    TilingFrame(p, s.hdr, s'.hdr, b.home);
    LargeFrame(p, s, s', large);
  }

  lemma SplitCore(p: Params, repaired: bool, s: Bulk, large: map<nat, nat>, b: Book, free: set<nat>, c: nat, pc: nat)
    requires Core(p, s, large, b, free) && c !in free && c in b.home && c in s.hdr
    requires 0 < pc < s.hdr[c].count && (repaired || s.hdr[c].next == 0)
    ensures var u := c + pc * PAGE_SIZE;
            && u !in b.home
            && Core(p, s.(hdr := SplitChunk(repaired, s.hdr, c, pc)), large, Book(b.home[u := b.home[c]], b.lists),
                    free)
  {
    hide BlocksOk;
    var u := c + pc * PAGE_SIZE;
    var s' := s.(hdr := SplitChunk(repaired, s.hdr, c, pc));
    SplitTiling(p, repaired, s.hdr, s.blocks, b.home, c, pc);
    assert ChunkOk(p, s.hdr, b.home, c);
    LargeIsNoChunk(p, s, large, b.home, c, c);
    LargeIsNoChunk(p, s, large, b.home, c, u);
    var n := s.hdr[c].next;
    if n != 0 { InBlock(p, s.hdr, b.home, n); LargeIsNoChunk(p, s, large, b.home, n, n); }
    LargeFrame(p, s, s', large);
    ListsFrame(p, s.hdr, s'.hdr, s.heads, b.lists, free);
  }

  lemma MergeCore(p: Params, repaired: bool, s: Bulk, large: map<nat, nat>, b: Book, free: set<nat>, x: nat, y: nat)
    requires Core(p, s, large, b, free) && x !in free && y !in free && x in b.home && x in s.hdr
    requires y != 0 && s.hdr[x].next == y && y in s.hdr
    requires repaired || s.hdr[y].next == 0
    ensures y in b.home
    ensures Core(p, s.(hdr := MergeChunks(repaired, s.hdr, x, y)), large, Book(Dropped(b.home, y), b.lists), free)
  {
    hide BlocksOk, LargeOk, ListsOk;
    var s' := s.(hdr := MergeChunks(repaired, s.hdr, x, y));
    MergeTiling(p, repaired, s.hdr, s.blocks, b.home, x, y);
    InBlock(p, s.hdr, b.home, x);
    assert ChunkOk(p, s.hdr, b.home, y);
    LargeIsNoChunk(p, s, large, b.home, x, x);
    var n := s.hdr[y].next;
    if n != 0 { InBlock(p, s.hdr, b.home, n); LargeIsNoChunk(p, s, large, b.home, n, n); }
    LargeFrame(p, s, s', large);
    ListsFrame(p, s.hdr, s'.hdr, s.heads, b.lists, free);
  }

  /** Unlist one of two neighbours, then merge them. */
  lemma UnlistAndMerge(p: Params, repaired: bool, s: Bulk, large: map<nat, nat>, b: Book, free: set<nat>, item: nat,
                       x: nat, y: nat)
    returns (b': Book)
    requires Core(p, s, large, b, free) && item in free && (item == x || item == y)
    requires x !in free - {item} && y !in free - {item}
    requires x in b.home && x in s.hdr && y != 0 && s.hdr[x].next == y && y in s.hdr
    requires repaired || s.hdr[y].next == 0
    ensures item in s.hdr && |s.heads| == p.maxPages + 1
    ensures b' == Book(Dropped(b.home, y), ListsWithout(p, b.lists, item, s.hdr[item].count))
    ensures var s1 := RemoveFromFreeList(p, s, item);
            && TagsKept(s.hdr, s1.hdr)
            && Core(p, s1.(hdr := MergeChunks(repaired, s1.hdr, x, y)), large, b', free - {item})
  {
    var b1 := RemoveCore(p, s, large, b, free, item);
    var s1 := RemoveFromFreeList(p, s, item);
    assert SameTag(s.hdr[x], s1.hdr[x]) && SameTag(s.hdr[y], s1.hdr[y]);
    MergeCore(p, repaired, s1, large, b1, free - {item}, x, y);
    b' := Book(Dropped(b.home, y), b1.lists);
  }

  lemma FlagCore(p: Params, s: Bulk, large: map<nat, nat>, b: Book, free: set<nat>, c: nat, f: bool)
    requires Core(p, s, large, b, free) && c in s.hdr
    ensures Core(p, s.(hdr := s.hdr[c := s.hdr[c].(free := f)]), large, b, free)
  {
    var s' := s.(hdr := s.hdr[c := s.hdr[c].(free := f)]);
    TilingFrame(p, s.hdr, s'.hdr, b.home);
    LargeFrame(p, s, s', large);
    ListsFrame(p, s.hdr, s'.hdr, s.heads, b.lists, free);
  }

  // ---------------------------------------------------------------------------------------
  // allocate

  function Granted(p: Params, l: Ledger, ptr: nat, pc: nat): Ledger {
    if pc <= p.maxPages then l.(live := l.live[ptr := pc]) else l.(large := l.large[ptr := pc])
  }

  ghost function FreeChunks(b: Book, l: Ledger): set<nat> {
    b.home.Keys - l.live.Keys
  }

  lemma InvIsCore(p: Params, repaired: bool, s: Bulk, l: Ledger, b: Book)
    requires Inv(p, repaired, s, l, b)
    ensures Core(p, s, l.large, b, FreeChunks(b, l))
  {}

  lemma CoreIsInv(p: Params, repaired: bool, s: Bulk, l: Ledger, b: Book, free: set<nat>)
    requires Core(p, s, l.large, b, free) && free == FreeChunks(b, l)
    requires LiveOk(p, s.hdr, b.home, l.live) && FlagsOk(p, repaired, s.hdr, b.home, l.live)
    ensures Inv(p, repaired, s, l, b)
  {}

  /** What the head of list i is, for the three asserts before a pop. */
  lemma HeadFacts(p: Params, repaired: bool, s: Bulk, l: Ledger, b: Book, i: nat)
    requires Inv(p, repaired, s, l, b) && i <= p.maxPages && s.heads[i] != 0
    ensures var c := s.heads[i];
            && c in s.hdr && c in FreeChunks(b, l)
            && ListIdx(p, s.hdr[c].count) == i
            && (i < p.maxPages ==> s.hdr[c].count == i + 1)
            && (i == p.maxPages ==> s.hdr[c].count > p.maxPages)
            && s.hdr[c].prevFree == 0
            && PopFree(s, i) == RemoveFromFreeList(p, s, c)
  {
    PopRemoves(p, s, b.lists, FreeChunks(b, l), i);
    var c := s.heads[i];
    assert c in b.lists[i];
    InBlock(p, s.hdr, b.home, c);
  }

  lemma CanAllocateUnderInv(p: Params, repaired: bool, s: Bulk, l: Ledger, b: Book, pc: nat)
    requires Inv(p, repaired, s, l, b) && pc > 0
    ensures CanAllocate(p, s, pc)
  {
    if pc <= p.maxPages {
      if s.heads[pc - 1] != 0 { HeadFacts(p, repaired, s, l, b, pc - 1); }
      if s.heads[p.maxPages] != 0 { HeadFacts(p, repaired, s, l, b, p.maxPages); }
    }
  }

  lemma NewBlockLists(p: Params, s: Bulk, b: Book, free: set<nat>, osAddr: nat) returns (lists': seq<seq<nat>>)
    requires ListsOk(p, s.hdr, s.heads, b.lists, free) && free <= b.home.Keys && osAddr !in b.home && osAddr != 0
    requires p.Valid() && s.heads[p.maxPages] == 0
    ensures var s' := NewBlock(p, s, osAddr); ListsOk(p, s'.hdr, s'.heads, lists', free + {osAddr})
    ensures lists' == ListsWith(p, b.lists, osAddr, p.blockPages)
  {
    var s' := NewBlock(p, s, osAddr);
    var s1 := s.(hdr := s'.hdr, blocks := s'.blocks);
    ListsFrame(p, s.hdr, s1.hdr, s.heads, b.lists, free);
    lists' := PushKeepsLists(p, s1, b.lists, free, osAddr);
    assert PushFree(p, s1, osAddr) == s';
  }

  lemma NewBlockFlags(p: Params, repaired: bool, s: Bulk, l: Ledger, b: Book, osAddr: nat)
    requires |s.heads| == p.maxPages + 1 && osAddr !in b.home
    requires LiveOk(p, s.hdr, b.home, l.live) && FlagsOk(p, repaired, s.hdr, b.home, l.live)
    requires Tiling(p, s.hdr, b.home)
    ensures LiveOk(p, NewBlock(p, s, osAddr).hdr, b.home[osAddr := osAddr], l.live)
    ensures FlagsOk(p, repaired, NewBlock(p, s, osAddr).hdr, b.home[osAddr := osAddr], l.live)
  {
    var s' := NewBlock(p, s, osAddr);
    forall c | c in b.home[osAddr := osAddr] && c in s'.hdr ensures FlagOk(p, repaired, s'.hdr, l.live, c) {
      if c != osAddr {
        InBlock(p, s.hdr, b.home, c);
        assert FlagOk(p, repaired, s.hdr, l.live, c);
      }
    }
  }

  lemma NewBlockLarge(p: Params, s: Bulk, l: Ledger, osAddr: nat)
    requires |s.heads| == p.maxPages + 1 && p.Valid()
    requires LargeOk(p, s, l.large) && FreshRegion(p, s, l, osAddr, p.blockPages)
    ensures osAddr !in l.large && LargeOk(p, NewBlock(p, s, osAddr), l.large)
  {
    assert !Apart(osAddr, p.blockPages, osAddr, 1);
  }

  lemma NewBlockKeeps(p: Params, repaired: bool, s: Bulk, l: Ledger, b: Book, osAddr: nat) returns (b': Book)
    requires Inv(p, repaired, s, l, b) && s.heads[p.maxPages] == 0
    requires FreshRegion(p, s, l, osAddr, p.blockPages)
    ensures Inv(p, repaired, NewBlock(p, s, osAddr), l, b')
    ensures b' == Book(b.home[osAddr := osAddr], ListsWith(p, b.lists, osAddr, p.blockPages))
    ensures osAddr !in l.live && osAddr !in l.large
  {
    hide Core;
    NewBlockTiling(p, s, l, b.home, osAddr);
    var lists' := NewBlockLists(p, s, b, FreeChunks(b, l), osAddr);
    NewBlockFlags(p, repaired, s, l, b, osAddr);
    NewBlockLarge(p, s, l, osAddr);
    b' := Book(b.home[osAddr := osAddr], lists');
    assert FreeChunks(b', l) == FreeChunks(b, l) + {osAddr};
  }

  lemma SplitFlags(p: Params, repaired: bool, hdr: map<nat, Header>, hdr': map<nat, Header>, home: map<nat, nat>,
                   live: map<nat, nat>, c: nat, pc: nat)
    requires Tiling(p, hdr, home) && LiveOk(p, hdr, home, live) && FlagsOk(p, repaired, hdr, home, live)
    requires c in home && c !in live && c in hdr && 0 < pc <= p.maxPages < hdr[c].count
    requires c + pc * PAGE_SIZE !in home
    requires TagsKept(SplitChunk(repaired, hdr, c, pc), hdr')
    ensures var u := c + pc * PAGE_SIZE;
            && LiveOk(p, hdr', home[u := home[c]], live[c := pc])
            && FlagsOk(p, repaired, hdr', home[u := home[c]], live[c := pc])
  {
    var u := c + pc * PAGE_SIZE;
    var m := SplitChunk(repaired, hdr, c, pc);
    assert FlagOk(p, repaired, hdr, live, c);
    forall d | d in home[u := home[c]] && d in hdr' ensures FlagOk(p, repaired, hdr', live[c := pc], d) {
      assert SameTag(m[d], hdr'[d]);
      if d != u {
        InBlock(p, hdr, home, d);
        assert FlagOk(p, repaired, hdr, live, d);
      }
    }
    forall d | d in live[c := pc]
      ensures d in home[u := home[c]] && d in hdr' && hdr'[d].count == live[c := pc][d]
      ensures live[c := pc][d] <= p.maxPages
    {
      assert SameTag(m[d], hdr'[d]);
    }
  }

  lemma ListsCount(p: Params, s: Bulk, large: map<nat, nat>, b: Book, free: set<nat>)
    requires Core(p, s, large, b, free)
    ensures |s.heads| == |b.lists| == p.maxPages + 1 && free <= b.home.Keys
  {}

  /** The book after the first pc of the n pages of a listed chunk were cut off. */
  function CutBook(p: Params, b: Book, c: nat, pc: nat, n: nat): Book
    requires c in b.home && |b.lists| == p.maxPages + 1 && pc <= n
  {
    var u := c + pc * PAGE_SIZE;
    Book(b.home[u := b.home[c]], ListsWith(p, ListsWithout(p, b.lists, c, n), u, n - pc))
  }

  lemma SplitStepCore(p: Params, repaired: bool, s: Bulk, large: map<nat, nat>, b: Book, free: set<nat>, pc: nat)
    returns (b': Book)
    requires Core(p, s, large, b, free) && s.heads[p.maxPages] in free && s.heads[p.maxPages] in s.hdr
    requires PopFree(s, p.maxPages) == RemoveFromFreeList(p, s, s.heads[p.maxPages])
    requires 0 < pc < s.hdr[s.heads[p.maxPages]].count
    requires repaired || s.hdr[s.heads[p.maxPages]].next == 0
    ensures var c := s.heads[p.maxPages];
            var u := c + pc * PAGE_SIZE;
            var s' := SplitStep(p, repaired, s, pc).0;
            && u !in b.home && b' == CutBook(p, b, c, pc, s.hdr[c].count)
            && Core(p, s', large, b', free - {c} + {u})
            && TagsKept(SplitChunk(repaired, s.hdr, c, pc), s'.hdr)
  {
    hide Core, SplitChunk, PushFree;
    ListsCount(p, s, large, b, free);
    var c := s.heads[p.maxPages];
    RemoveTags(p, s, c);
    var s2 := AfterSplit(p, repaired, s, pc);
    var b1 := UnlistAndSplit(p, repaired, s, large, b, free, c, pc);
    b' := PushCore(p, s2, large, b1, free - {c}, c + pc * PAGE_SIZE);
    TagsTransitive(SplitChunk(repaired, s.hdr, c, pc), s2.hdr, SplitStep(p, repaired, s, pc).0.hdr);
  }

  /** SplitStep before its push. */
  lemma AfterSplit(p: Params, repaired: bool, s: Bulk, pc: nat) returns (s2: Bulk)
    requires |s.heads| == p.maxPages + 1 && s.heads[p.maxPages] in s.hdr
    requires 0 < pc <= s.hdr[s.heads[p.maxPages]].count
    requires PopFree(s, p.maxPages) == RemoveFromFreeList(p, s, s.heads[p.maxPages])
    ensures var c := s.heads[p.maxPages];
            var s1 := RemoveFromFreeList(p, s, c);
            && c in s1.hdr && pc <= s1.hdr[c].count
            && s2 == s1.(hdr := SplitChunk(repaired, s1.hdr, c, pc))
            && c + pc * PAGE_SIZE in s2.hdr && |s2.heads| == p.maxPages + 1
            && s2.hdr[c + pc * PAGE_SIZE].count == s1.hdr[c].count - pc
            && SplitStep(p, repaired, s, pc) == (PushFree(p, s2, c + pc * PAGE_SIZE), c)
  {
    var s1 := PopFree(s, p.maxPages);
    s2 := s1.(hdr := SplitChunk(repaired, s1.hdr, s.heads[p.maxPages], pc));
  }

  lemma UnlistAndSplit(p: Params, repaired: bool, s: Bulk, large: map<nat, nat>, b: Book, free: set<nat>, c: nat,
                       pc: nat)
    returns (b': Book)
    requires Core(p, s, large, b, free) && c in free && c in s.hdr
    requires 0 < pc < s.hdr[c].count && (repaired || s.hdr[c].next == 0)
    ensures |s.heads| == p.maxPages + 1
    ensures var u := c + pc * PAGE_SIZE;
            var s1 := RemoveFromFreeList(p, s, c);
            && u !in b.home
            && b' == Book(b.home[u := b.home[c]], ListsWithout(p, b.lists, c, s.hdr[c].count))
            && c in s1.hdr && pc <= s1.hdr[c].count
            && TagsKept(SplitChunk(repaired, s.hdr, c, pc), SplitChunk(repaired, s1.hdr, c, pc))
            && Core(p, s1.(hdr := SplitChunk(repaired, s1.hdr, c, pc)), large, b', free - {c})
  {
    var b1 := RemoveCore(p, s, large, b, free, c);
    var s1 := RemoveFromFreeList(p, s, c);
    assert SameTag(s.hdr[c], s1.hdr[c]);
    SplitCore(p, repaired, s1, large, b1, free - {c}, c, pc);
    SplitTags(repaired, s.hdr, s1.hdr, c, pc);
    b' := Book(b.home[c + pc * PAGE_SIZE := b.home[c]], b1.lists);
  }

  /** Splitting the head of the last list. In the code as written that head is always the last
      chunk of its block, so the missing back-link update is not missed. */
  lemma SplitKeeps(p: Params, repaired: bool, s: Bulk, l: Ledger, b: Book, pc: nat) returns (b': Book)
    requires Inv(p, repaired, s, l, b) && 0 < pc <= p.maxPages && s.heads[p.maxPages] != 0
    ensures var c := s.heads[p.maxPages];
            && c in s.hdr && pc <= s.hdr[c].count && c !in l.live && c in b.home
            && var r := SplitStep(p, repaired, s, pc);
            && r.1 == c
            && Inv(p, repaired, r.0, Granted(p, l, c, pc), b')
            && b' == CutBook(p, b, c, pc, s.hdr[c].count)
            && TagsKept(SplitChunk(repaired, s.hdr, c, pc), r.0.hdr)
  {
    hide Core, BlocksOk;
    HeadFacts(p, repaired, s, l, b, p.maxPages);
    var c := s.heads[p.maxPages];
    assert FlagOk(p, repaired, s.hdr, l.live, c);
    InvIsCore(p, repaired, s, l, b);
    b' := SplitStepCore(p, repaired, s, l.large, b, FreeChunks(b, l), pc);
    SplitInv(p, repaired, s, SplitStep(p, repaired, s, pc).0, l, b, b', c, pc);
  }

  lemma SplitInv(p: Params, repaired: bool, s: Bulk, s': Bulk, l: Ledger, b: Book, b': Book, c: nat, pc: nat)
    requires Tiling(p, s.hdr, b.home) && LiveOk(p, s.hdr, b.home, l.live) && FlagsOk(p, repaired, s.hdr, b.home, l.live)
    requires c in FreeChunks(b, l) && c in s.hdr && 0 < pc <= p.maxPages < s.hdr[c].count
    requires var u := c + pc * PAGE_SIZE;
             && u !in b.home && b'.home == b.home[u := b.home[c]]
             && Core(p, s', l.large, b', FreeChunks(b, l) - {c} + {u})
             && TagsKept(SplitChunk(repaired, s.hdr, c, pc), s'.hdr)
    ensures Inv(p, repaired, s', Granted(p, l, c, pc), b')
  {
    SplitFlags(p, repaired, s.hdr, s'.hdr, b.home, l.live, c, pc);
    SplitFree(p, l, b, b', c, c + pc * PAGE_SIZE, pc);
    CoreIsInv(p, repaired, s', Granted(p, l, c, pc), b', FreeChunks(b, l) - {c} + {c + pc * PAGE_SIZE});
  }

  lemma SplitFree(p: Params, l: Ledger, b: Book, b': Book, c: nat, u: nat, pc: nat)
    requires c in b.home && u !in b.home && b'.home == b.home[u := b.home[c]] && u !in l.live && pc <= p.maxPages
    ensures FreeChunks(b, l) - {c} + {u} == FreeChunks(b', Granted(p, l, c, pc))
  {}

  lemma SplitTags(repaired: bool, hdr: map<nat, Header>, hdr1: map<nat, Header>, c: nat, pc: nat)
    requires TagsKept(hdr, hdr1) && c in hdr && pc <= hdr[c].count
    ensures TagsKept(SplitChunk(repaired, hdr, c, pc), SplitChunk(repaired, hdr1, c, pc))
  {}

  lemma ExactPopFlags(p: Params, repaired: bool, hdr: map<nat, Header>, hdr1: map<nat, Header>, home: map<nat, nat>,
                      live: map<nat, nat>, c: nat)
    requires TagsKept(hdr, hdr1) && c in hdr && c in home && c !in live && hdr[c].count <= p.maxPages
    requires LiveOk(p, hdr, home, live) && FlagsOk(p, repaired, hdr, home, live)
    ensures var hdr' := if repaired then hdr1[c := hdr1[c].(free := false)] else hdr1;
            && LiveOk(p, hdr', home, live[c := hdr[c].count])
            && FlagsOk(p, repaired, hdr', home, live[c := hdr[c].count])
  {
    var hdr' := if repaired then hdr1[c := hdr1[c].(free := false)] else hdr1;
    forall d | d in home && d in hdr' ensures FlagOk(p, repaired, hdr', live[c := hdr[c].count], d) {
      assert SameTag(hdr[d], hdr1[d]);
      assert FlagOk(p, repaired, hdr, live, d);
    }
    forall d | d in live ensures d in hdr1 && hdr1[d].count == live[d] {
      assert SameTag(hdr[d], hdr1[d]);
    }
  }

  /** A pop of a chunk that fits exactly. */
  lemma ExactPopKeeps(p: Params, repaired: bool, s: Bulk, l: Ledger, b: Book, pc: nat) returns (b': Book)
    requires Inv(p, repaired, s, l, b) && 0 < pc <= p.maxPages && s.heads[pc - 1] != 0
    ensures var c := s.heads[pc - 1];
            && c in s.hdr && c !in l.live && c in b.home
            && var r := ExactPopStep(repaired, s, pc - 1);
            && r.1 == c
            && Inv(p, repaired, r.0, Granted(p, l, c, pc), b')
            && b' == Book(b.home, ListsWithout(p, b.lists, c, pc))
            && s.hdr[c].count == pc
  {
    hide BlocksOk, LiveOk, OnlyTouched, Core;
    var free := FreeChunks(b, l);
    HeadFacts(p, repaired, s, l, b, pc - 1);
    var c := s.heads[pc - 1];
    InvIsCore(p, repaired, s, l, b);
    b' := RemoveCore(p, s, l.large, b, free, c);
    var s1 := PopFree(s, pc - 1);
    FlagCore(p, s1, l.large, b', free - {c}, c, false);
    ExactPopFlags(p, repaired, s.hdr, s1.hdr, b.home, l.live, c);
    CoreIsInv(p, repaired, ExactPopStep(repaired, s, pc - 1).0, Granted(p, l, c, pc), b', free - {c});
  }

  lemma LargeStepOk(p: Params, s: Bulk, l: Ledger, pc: nat, osAddr: nat)
    requires LargeOk(p, s, l.large) && p.maxPages < pc && FreshRegion(p, s, l, osAddr, pc)
    ensures osAddr !in l.large
    ensures LargeOk(p, LargeStep(s, pc, osAddr).0, l.large[osAddr := pc])
  {
    assert !Apart(osAddr, pc, osAddr, 1);
  }

  lemma FreshIsNoChunk(p: Params, s: Bulk, l: Ledger, home: map<nat, nat>, osAddr: nat, pages: nat)
    requires Tiling(p, s.hdr, home) && BlocksOk(p, s.blocks, home) && FreshRegion(p, s, l, osAddr, pages) && pages > 0
    ensures osAddr !in home
  {
    if osAddr in home { InBlock(p, s.hdr, home, osAddr); }
  }

  lemma FlagsFrame(p: Params, repaired: bool, hdr: map<nat, Header>, hdr': map<nat, Header>, home: map<nat, nat>,
                   live: map<nat, nat>)
    requires LiveOk(p, hdr, home, live) && FlagsOk(p, repaired, hdr, home, live)
    requires forall c :: c in home ==> c in hdr && c in hdr' && SameTag(hdr[c], hdr'[c])
    ensures LiveOk(p, hdr', home, live) && FlagsOk(p, repaired, hdr', home, live)
  {
    forall c | c in home && c in hdr' ensures FlagOk(p, repaired, hdr', live, c) {
      assert FlagOk(p, repaired, hdr, live, c);
    }
  }

  lemma ChunksInHdr(p: Params, hdr: map<nat, Header>, home: map<nat, nat>)
    requires Tiling(p, hdr, home)
    ensures home.Keys <= hdr.Keys
  {
    forall c | c in home ensures c in hdr { assert ChunkOk(p, hdr, home, c); }
  }

  lemma LargeKeeps(p: Params, repaired: bool, s: Bulk, l: Ledger, b: Book, pc: nat, osAddr: nat)
    requires Inv(p, repaired, s, l, b) && p.maxPages < pc && FreshRegion(p, s, l, osAddr, pc)
    ensures osAddr !in b.home && osAddr !in l.large
    ensures Inv(p, repaired, LargeStep(s, pc, osAddr).0, Granted(p, l, osAddr, pc), b)
  {
    hide BlocksOk, LargeOk, ListsOk;
    FreshIsNoChunk(p, s, l, b.home, osAddr, pc);
    LargeStepOk(p, s, l, pc, osAddr);
    ChunksInHdr(p, s.hdr, b.home);
    var hdr' := LargeStep(s, pc, osAddr).0.hdr;
    TilingFrame(p, s.hdr, hdr', b.home);
    ListsFrame(p, s.hdr, hdr', s.heads, b.lists, FreeChunks(b, l));
    FlagsFrame(p, repaired, s.hdr, hdr', b.home, l.live);
  }

  /** allocate keeps the invariant and grants a page-aligned run of pages nobody holds. */
  lemma AllocateKeeps(p: Params, repaired: bool, s: Bulk, l: Ledger, b: Book, pc: nat, osAddr: nat) returns (b': Book)
    requires Inv(p, repaired, s, l, b) && pc > 0
    requires FreshRegion(p, s, l, osAddr, if pc <= p.maxPages then p.blockPages else pc)
    ensures CanAllocate(p, s, pc)
    ensures var (s', ptr) := Allocate(p, repaired, s, pc, osAddr);
            && Inv(p, repaired, s', Granted(p, l, ptr, pc), b')
            && ptr != 0 && ptr % PAGE_SIZE == 0 && ptr !in l.live && ptr !in l.large
  {
    hide Tiling, ListsOk;
    CanAllocateUnderInv(p, repaired, s, l, b, pc);
    var ptr;
    if p.maxPages < pc {
      LargeKeeps(p, repaired, s, l, b, pc, osAddr);
      b', ptr := b, osAddr;
    } else if s.heads[pc - 1] != 0 {
      b' := ExactPopKeeps(p, repaired, s, l, b, pc);
      ptr := s.heads[pc - 1];
      InBlock(p, s.hdr, b.home, ptr);
      LargeIsNoChunk(p, s, l.large, b.home, ptr, ptr);
    } else {
      var s1, b1 := s, b;
      if s.heads[p.maxPages] == 0 {
        b1 := NewBlockKeeps(p, repaired, s, l, b, osAddr);
        s1 := NewBlock(p, s, osAddr);
      }
      b' := SplitKeeps(p, repaired, s1, l, b1, pc);
      ptr := s1.heads[p.maxPages];
      InBlock(p, s1.hdr, b1.home, ptr);
      LargeIsNoChunk(p, s1, l.large, b1.home, ptr, ptr);
    }
  }

  // ---------------------------------------------------------------------------------------
  // deallocate

  /** The situation the code as written does not survive: the chunk after h is flagged free
      although a client holds it. */
  predicate Hazard(s: Bulk, l: Ledger, h: nat)
    requires h in s.hdr
  {
    FlaggedChunk(s.hdr, s.hdr[h].next) && s.hdr[h].next in l.live
  }

  /** The flags in between: h counts as live, and when repaired its own bit does not matter yet. */
  ghost predicate MidFlags(p: Params, repaired: bool, hdr: map<nat, Header>, home: map<nat, nat>, rest: map<nat, nat>,
                           h: nat)
  {
    forall d {:trigger FlagOk(p, repaired, hdr, rest[h := 0], d)} ::
      d in home && d in hdr && (repaired ==> d != h) ==> FlagOk(p, repaired, hdr, rest[h := 0], d)
  }

  /** Between the merges: h is off the lists and not yet on one; `rest` are the chunks that stay
      live. */
  ghost predicate Mid(p: Params, repaired: bool, s: Bulk, large: map<nat, nat>, b: Book, rest: map<nat, nat>, h: nat) {
    && h in b.home && h !in rest && h in s.hdr
    && Core(p, s, large, b, b.home.Keys - rest.Keys - {h})
    && LiveOk(p, s.hdr, b.home, rest)
    && MidFlags(p, repaired, s.hdr, b.home, rest, h)
    && (!repaired && s.hdr[h].count > p.maxPages ==> s.hdr[h].free)
  }

  lemma CoreIsMid(p: Params, repaired: bool, s: Bulk, large: map<nat, nat>, b: Book, rest: map<nat, nat>, h: nat,
                  free: set<nat>)
    requires h in b.home && h !in rest && h in s.hdr
    requires Core(p, s, large, b, free) && free == b.home.Keys - rest.Keys - {h}
    requires LiveOk(p, s.hdr, b.home, rest) && MidFlags(p, repaired, s.hdr, b.home, rest, h)
    requires !repaired && s.hdr[h].count > p.maxPages ==> s.hdr[h].free
    ensures Mid(p, repaired, s, large, b, rest, h)
  {}

  lemma InvIsMid(p: Params, repaired: bool, s: Bulk, l: Ledger, b: Book, h: nat)
    requires Inv(p, repaired, s, l, b) && h in l.live
    ensures Mid(p, repaired, s, l.large, b, l.live - {h}, h)
  {
    hide BlocksOk;
    var rest := l.live - {h};
    assert b.home.Keys - rest.Keys - {h} == FreeChunks(b, l);
    forall d | d in b.home && d in s.hdr ensures FlagOk(p, repaired, s.hdr, rest[h := 0], d) {
      assert FlagOk(p, repaired, s.hdr, l.live, d);
    }
  }

  /** The book after h was merged into the chunk in front of it, if that is flagged ... */
  function JoinPrevBook(p: Params, hdr: map<nat, Header>, b: Book, h: nat): (r: Book)
    requires h in hdr && |b.lists| == p.maxPages + 1
    ensures r.home.Keys <= b.home.Keys && |r.lists| == |b.lists|
  {
    var a := hdr[h].prev;
    if FlaggedChunk(hdr, a) then Book(Dropped(b.home, h), ListsWithout(p, b.lists, a, hdr[a].count)) else b
  }

  /** ... and after the chunk behind was merged into it, if that is flagged. */
  function JoinNextBook(p: Params, hdr: map<nat, Header>, b: Book, h: nat): (r: Book)
    requires h in hdr && |b.lists| == p.maxPages + 1
    ensures r.home.Keys <= b.home.Keys && |r.lists| == |b.lists|
  {
    var n := hdr[h].next;
    if FlaggedChunk(hdr, n) then Book(Dropped(b.home, n), ListsWithout(p, b.lists, n, hdr[n].count)) else b
  }

  /** After the first merge the chunk before h, if any, is live (repaired), and nothing was
      merged at all in the code as written. */
  lemma MergePrevKeeps(p: Params, repaired: bool, s: Bulk, large: map<nat, nat>, b: Book, rest: map<nat, nat>, h: nat)
    returns (b': Book)
    requires Mid(p, repaired, s, large, b, rest, h)
    ensures |s.heads| == p.maxPages + 1
    ensures var (s', h') := MergePrev(p, repaired, s, h);
            && Mid(p, repaired, s', large, b', rest, h')
            && (repaired && s'.hdr[h'].prev != 0 ==> s'.hdr[h'].prev in rest)
            && (!repaired ==> s' == s && h' == h && b' == b)
            && s'.hdr[h'].next == s.hdr[h].next
            && |b.lists| == p.maxPages + 1 && b' == JoinPrevBook(p, s.hdr, b, h)
  {
    assert ChunkOk(p, s.hdr, b.home, h);
    var a := s.hdr[h].prev;
    b' := b;
    if a != 0 {
      assert ChunkOk(p, s.hdr, b.home, a);
      assert FlagOk(p, repaired, s.hdr, rest[h := 0], a);
      if s.hdr[a].free {
        b' := MergePrevFlagged(p, s, large, b, rest, h);
      }
    }
  }

  lemma MergePrevFlagged(p: Params, s: Bulk, large: map<nat, nat>, b: Book, rest: map<nat, nat>, h: nat)
    returns (b': Book)
    requires Mid(p, true, s, large, b, rest, h)
    requires FlaggedChunk(s.hdr, s.hdr[h].prev)
    ensures |s.heads| == p.maxPages + 1
    ensures var (s', h') := MergePrev(p, true, s, h);
            && Mid(p, true, s', large, b', rest, h')
            && (s'.hdr[h'].prev != 0 ==> s'.hdr[h'].prev in rest)
            && s'.hdr[h'].next == s.hdr[h].next
            && |b.lists| == p.maxPages + 1 && b' == JoinPrevBook(p, s.hdr, b, h)
  {
    var a := s.hdr[h].prev;
    var free := b.home.Keys - rest.Keys - {h};
    MergePrevFlags(p, s.hdr, s.hdr, b.home, rest, a, h);
    InBlock(p, s.hdr, b.home, h);
    b' := UnlistAndMerge(p, true, s, large, b, free, a, a, h);
    var s1 := RemoveFromFreeList(p, s, a);
    assert MergePrev(p, true, s, h) == (s1.(hdr := MergeChunks(true, s1.hdr, a, h)), a);
    MergePrevIsMid(p, s.hdr, s1, large, b.home, b', rest, a, h);
  }

  lemma MergePrevIsMid(p: Params, hdr: map<nat, Header>, s1: Bulk, large: map<nat, nat>, home: map<nat, nat>, b': Book,
                       rest: map<nat, nat>, a: nat, h: nat)
    requires TagsKept(hdr, s1.hdr) && Tiling(p, hdr, home) && MidFlags(p, true, hdr, home, rest, h)
    requires LiveOk(p, hdr, home, rest)
    requires h in home && h in hdr && a == hdr[h].prev && a in hdr && a != 0 && hdr[a].free && h !in rest
    requires b'.home == Dropped(home, h)
    requires Core(p, s1.(hdr := MergeChunks(true, s1.hdr, a, h)), large, b', home.Keys - rest.Keys - {h} - {a})
    ensures var s2 := s1.(hdr := MergeChunks(true, s1.hdr, a, h));
            && Mid(p, true, s2, large, b', rest, a)
            && (s2.hdr[a].prev != 0 ==> s2.hdr[a].prev in rest)
            && s2.hdr[a].next == hdr[h].next
  {
    MergePrevFlags(p, hdr, s1.hdr, home, rest, a, h);
    MergedLive(p, true, hdr, s1.hdr, home, rest, a, h);
    assert SameTag(hdr[a], s1.hdr[a]) && SameTag(hdr[h], s1.hdr[h]);
    CoreIsMid(p, true, s1.(hdr := MergeChunks(true, s1.hdr, a, h)), large, b', rest, a,
              home.Keys - rest.Keys - {h} - {a});
  }

  lemma MergePrevFlags(p: Params, hdr: map<nat, Header>, hdr1: map<nat, Header>, home: map<nat, nat>,
                       rest: map<nat, nat>, a: nat, h: nat)
    requires TagsKept(hdr, hdr1) && Tiling(p, hdr, home) && MidFlags(p, true, hdr, home, rest, h)
    requires h in home && h in hdr && a == hdr[h].prev && a in hdr && a != 0 && hdr[a].free && h !in rest
    ensures MidFlags(p, true, MergeChunks(true, hdr1, a, h), Dropped(home, h), rest, a)
    ensures a in home && hdr[a].next == h && a !in rest && hdr[h].next != a
    ensures hdr[a].prev != 0 ==> hdr[a].prev in rest && hdr[a].prev != hdr[h].next
  {
    assert ChunkOk(p, hdr, home, h);
    assert ChunkOk(p, hdr, home, a);
    assert FlagOk(p, true, hdr, rest[h := 0], a);
    var q := hdr[a].prev;
    if q != 0 {
      assert ChunkOk(p, hdr, home, q);
      assert FlagOk(p, true, hdr, rest[h := 0], q);
    }
    var hdr' := MergeChunks(true, hdr1, a, h);
    forall d | d in Dropped(home, h) && d in hdr' && d != a ensures FlagOk(p, true, hdr', rest[a := 0], d) {
      assert ChunkOk(p, hdr, home, d);
      assert SameTag(hdr[d], hdr1[d]) && SameTag(hdr[h], hdr1[h]);
      assert FlagOk(p, true, hdr, rest[h := 0], d);
    }
  }

  lemma MergedLive(p: Params, repaired: bool, hdr: map<nat, Header>, hdr1: map<nat, Header>, home: map<nat, nat>,
                   rest: map<nat, nat>, a: nat, h: nat)
    requires TagsKept(hdr, hdr1) && LiveOk(p, hdr, home, rest) && a !in rest && h !in rest && a in hdr && h in hdr
    ensures LiveOk(p, MergeChunks(repaired, hdr1, a, h), Dropped(home, h), rest)
  {
    forall c | c in rest ensures c in hdr1 && hdr1[c].count == rest[c] {
      assert SameTag(hdr[c], hdr1[c]);
    }
  }

  /** After the second merge the chunk after h, if any, is live (repaired) or h is not followed by
      a flagged chunk at all. */
  lemma MergeNextKeeps(p: Params, repaired: bool, s: Bulk, large: map<nat, nat>, b: Book, rest: map<nat, nat>, h: nat)
    returns (b': Book)
    requires Mid(p, repaired, s, large, b, rest, h)
    requires repaired || !(FlaggedChunk(s.hdr, s.hdr[h].next) && s.hdr[h].next in rest)
    ensures |s.heads| == p.maxPages + 1
    ensures var s' := MergeNext(p, repaired, s, h);
            && Mid(p, repaired, s', large, b', rest, h)
            && (repaired && s'.hdr[h].next != 0 ==> s'.hdr[h].next in rest)
            && s'.hdr[h].prev == s.hdr[h].prev
            && |b.lists| == p.maxPages + 1 && b' == JoinNextBook(p, s.hdr, b, h)
  {
    assert ChunkOk(p, s.hdr, b.home, h);
    var n := s.hdr[h].next;
    b' := b;
    if n != 0 {
      assert ChunkOk(p, s.hdr, b.home, n);
      assert FlagOk(p, repaired, s.hdr, rest[h := 0], n);
      if s.hdr[n].free {
        b' := MergeNextFlagged(p, repaired, s, large, b, rest, h);
      }
    }
  }

  lemma MergeNextFlagged(p: Params, repaired: bool, s: Bulk, large: map<nat, nat>, b: Book, rest: map<nat, nat>, h: nat)
    returns (b': Book)
    requires Mid(p, repaired, s, large, b, rest, h)
    requires FlaggedChunk(s.hdr, s.hdr[h].next)
    requires repaired || s.hdr[h].next !in rest
    ensures |s.heads| == p.maxPages + 1
    ensures var s' := MergeNext(p, repaired, s, h);
            && Mid(p, repaired, s', large, b', rest, h)
            && (repaired && s'.hdr[h].next != 0 ==> s'.hdr[h].next in rest)
            && s'.hdr[h].prev == s.hdr[h].prev
            && |b.lists| == p.maxPages + 1 && b' == JoinNextBook(p, s.hdr, b, h)
  {
    var n := s.hdr[h].next;
    var free := b.home.Keys - rest.Keys - {h};
    MergeNextFlags(p, repaired, s.hdr, s.hdr, b.home, rest, h);
    b' := UnlistAndMerge(p, repaired, s, large, b, free, n, h, n);
    var s1 := RemoveFromFreeList(p, s, n);
    assert MergeNext(p, repaired, s, h) == s1.(hdr := MergeChunks(repaired, s1.hdr, h, n));
    MergeNextIsMid(p, repaired, s.hdr, s1, large, b.home, b', rest, h);
  }

  lemma MergeNextIsMid(p: Params, repaired: bool, hdr: map<nat, Header>, s1: Bulk, large: map<nat, nat>,
                       home: map<nat, nat>, b': Book, rest: map<nat, nat>, h: nat)
    requires TagsKept(hdr, s1.hdr) && Tiling(p, hdr, home) && MidFlags(p, repaired, hdr, home, rest, h)
    requires LiveOk(p, hdr, home, rest)
    requires h in home && h in hdr && h !in rest && FlaggedChunk(hdr, hdr[h].next)
    requires repaired || hdr[h].next !in rest
    requires b'.home == Dropped(home, hdr[h].next)
    requires Core(p, s1.(hdr := MergeChunks(repaired, s1.hdr, h, hdr[h].next)), large, b',
                  home.Keys - rest.Keys - {h} - {hdr[h].next})
    ensures var s2 := s1.(hdr := MergeChunks(repaired, s1.hdr, h, hdr[h].next));
            && Mid(p, repaired, s2, large, b', rest, h)
            && (repaired && s2.hdr[h].next != 0 ==> s2.hdr[h].next in rest)
            && s2.hdr[h].prev == hdr[h].prev
  {
    var n := hdr[h].next;
    MergeNextFlags(p, repaired, hdr, s1.hdr, home, rest, h);
    MergedLive(p, repaired, hdr, s1.hdr, home, rest, h, n);
    assert SameTag(hdr[h], s1.hdr[h]) && SameTag(hdr[n], s1.hdr[n]);
    CoreIsMid(p, repaired, s1.(hdr := MergeChunks(repaired, s1.hdr, h, n)), large, b', rest, h,
              home.Keys - rest.Keys - {h} - {n});
  }

  lemma MergeNextFlags(p: Params, repaired: bool, hdr: map<nat, Header>, hdr1: map<nat, Header>, home: map<nat, nat>,
                       rest: map<nat, nat>, h: nat)
    requires TagsKept(hdr, hdr1) && Tiling(p, hdr, home) && MidFlags(p, repaired, hdr, home, rest, h)
    requires h in home && h in hdr && h !in rest && FlaggedChunk(hdr, hdr[h].next)
    requires repaired || hdr[h].next !in rest
    ensures var n := hdr[h].next;
            && n in home && n != h && n !in rest
            && MidFlags(p, repaired, MergeChunks(repaired, hdr1, h, n), Dropped(home, n), rest, h)
            && (hdr[n].next != 0 ==> repaired && hdr[n].next in rest && hdr[n].next != hdr[h].prev)
  {
    var n := hdr[h].next;
    assert ChunkOk(p, hdr, home, h);
    assert ChunkOk(p, hdr, home, n);
    assert FlagOk(p, repaired, hdr, rest[h := 0], n);
    var nn := hdr[n].next;
    if nn != 0 { assert ChunkOk(p, hdr, home, nn); }
    var hdr' := MergeChunks(repaired, hdr1, h, n);
    assert SameTag(hdr[n], hdr1[n]);
    forall d | d in Dropped(home, n) && d in hdr' && (repaired ==> d != h)
      ensures FlagOk(p, repaired, hdr', rest[h := 0], d)
    {
      assert ChunkOk(p, hdr, home, d);
      assert SameTag(hdr[d], hdr1[d]);
      assert FlagOk(p, repaired, hdr, rest[h := 0], d);
    }
  }

  /** Marking and pushing h ends the step. */
  lemma FinishKeeps(p: Params, repaired: bool, s: Bulk, l: Ledger, b: Book, h: nat) returns (b': Book)
    requires Mid(p, repaired, s, l.large, b, l.live, h)
    requires repaired && s.hdr[h].prev != 0 ==> s.hdr[h].prev in l.live
    requires repaired && s.hdr[h].next != 0 ==> s.hdr[h].next in l.live
    ensures |s.heads| == p.maxPages + 1
    ensures Inv(p, repaired, PushFree(p, MarkFree(repaired, s, h), h), l, b')
    ensures |b.lists| == p.maxPages + 1 && b' == Book(b.home, ListsWith(p, b.lists, h, s.hdr[h].count))
  {
    hide BlocksOk, LargeOk, ListsOk, FlagOk, PushFree;
    ListsCount(p, s, l.large, b, b.home.Keys - l.live.Keys - {h});
    var free := b.home.Keys - l.live.Keys - {h};
    FlagCore(p, s, l.large, b, free, h, true);
    var s1 := MarkFree(repaired, s, h);
    b' := PushCore(p, s1, l.large, b, free, h);
    var s2 := PushFree(p, s1, h);
    FinishFlags(p, repaired, s, s2.hdr, b.home, l.live, h);
    CoreIsInv(p, repaired, s2, l, b', free + {h});
  }

  lemma FinishFlags(p: Params, repaired: bool, s: Bulk, hdr': map<nat, Header>, home: map<nat, nat>,
                    live: map<nat, nat>, h: nat)
    requires h in home && h in s.hdr && h !in live && Tiling(p, s.hdr, home)
    requires TagsKept(MarkFree(repaired, s, h).hdr, hdr')
    requires LiveOk(p, s.hdr, home, live) && MidFlags(p, repaired, s.hdr, home, live, h)
    requires !repaired && s.hdr[h].count > p.maxPages ==> s.hdr[h].free
    requires repaired && s.hdr[h].prev != 0 ==> s.hdr[h].prev in live
    requires repaired && s.hdr[h].next != 0 ==> s.hdr[h].next in live
    ensures LiveOk(p, hdr', home, live) && FlagsOk(p, repaired, hdr', home, live)
  {
    var hdr1 := MarkFree(repaired, s, h).hdr;
    assert ChunkOk(p, s.hdr, home, h);
    forall d | d in home && d in hdr' ensures FlagOk(p, repaired, hdr', live, d) {
      assert ChunkOk(p, s.hdr, home, d);
      assert SameTag(hdr1[d], hdr'[d]);
      if d != h || !repaired { assert FlagOk(p, repaired, s.hdr, live[h := 0], d); }
    }
    forall c | c in live ensures c in hdr' && hdr'[c].count == live[c] {
      assert SameTag(hdr1[c], hdr'[c]);
    }
  }

  /** The book after h was freed. */
  function FreedBook(p: Params, repaired: bool, s: Bulk, b: Book, h: nat): Book
    requires h in s.hdr && |s.heads| == |b.lists| == p.maxPages + 1
  {
    var (s1, h1) := MergePrev(p, repaired, s, h);
    var b2 := JoinNextBook(p, s1.hdr, JoinPrevBook(p, s.hdr, b, h), h1);
    Book(b2.home, ListsWith(p, b2.lists, h1, MergeNext(p, repaired, s1, h1).hdr[h1].count))
  }

  /** deallocate keeps the invariant: always when repaired, and as written whenever the next chunk
      is not a live one flagged free. */
  lemma DeallocateKeeps(p: Params, repaired: bool, s: Bulk, l: Ledger, b: Book, h: nat) returns (b': Book)
    requires Inv(p, repaired, s, l, b) && h in l.live
    requires h in s.hdr && (repaired || !Hazard(s, l, h))
    ensures |s.heads| == p.maxPages + 1
    ensures Inv(p, repaired, Deallocate(p, repaired, s, h), l.(live := l.live - {h}), b')
    ensures |b.lists| == p.maxPages + 1 && b' == FreedBook(p, repaired, s, b, h)
  {
    hide Mid, BlocksOk, LargeOk;
    InBlock(p, s.hdr, b.home, h);
    InvIsMid(p, repaired, s, l, b, h);
    var rest := l.live - {h};
    var b1 := MergePrevKeeps(p, repaired, s, l.large, b, rest, h);
    var (s1, h1) := MergePrev(p, repaired, s, h);
    var b2 := MergeNextKeeps(p, repaired, s1, l.large, b1, rest, h1);
    b' := FinishKeeps(p, repaired, MergeNext(p, repaired, s1, h1), l.(live := rest), b2, h1);
  }

  /** Returning a large region to the operating system. */
  lemma DeallocateLargeKeeps(p: Params, repaired: bool, s: Bulk, l: Ledger, b: Book, h: nat)
    requires Inv(p, repaired, s, l, b) && h in l.large
    ensures h in s.hdr && s.hdr[h].count == 0 && s.hdr[h].prev == l.large[h] * PAGE_SIZE
    ensures |s.heads| == p.maxPages + 1
    ensures Inv(p, repaired, Deallocate(p, repaired, s, h), l.(large := l.large - {h}), b)
  {}
}
