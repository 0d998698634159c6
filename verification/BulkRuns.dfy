/** BulkAllocator over whole runs, repaired and as written
    (src/iibmalloc/iibmalloc.h:603-744). */
module BulkRuns {
  import opened Arith
  import opened Lists
  import opened BulkSpec
  import opened BulkLists
  import opened BulkTiling
  import opened BulkSteps
  import opened BulkFrame

  /** The calls a client can make, and its writes to memory it owns: the first two words of a
      chunk lie where a free chunk keeps its list links. */
  datatype Op =
    | Alloc(pc: nat, osAddr: nat)
    | Free(ptr: nat)
    | Write(ptr: nat, word1: nat, word2: nat)

  datatype Machine = Machine(s: Bulk, l: Ledger)

  function Initial(p: Params): Machine {
    Machine(Bulk(map[], seq(p.maxPages + 1, i => 0), []), Ledger(map[], map[]))
  }

  /** What the client and the operating system owe the allocator. */
  ghost predicate Legal(p: Params, m: Machine, op: Op) {
    match op
    case Alloc(pc, osAddr) =>
      pc > 0 && FreshRegion(p, m.s, m.l, osAddr, if pc <= p.maxPages then p.blockPages else pc)
    case Free(ptr) => ptr in m.l.live || ptr in m.l.large
    case Write(ptr, _, _) => ptr in m.l.live || ptr in m.l.large
  }

  /** Every header the call reads before it writes is there. */
  predicate CanStep(p: Params, m: Machine, op: Op) {
    |m.s.heads| == p.maxPages + 1 &&
    match op
    case Alloc(pc, osAddr) => CanAllocate(p, m.s, pc) && osAddr != 0
    case Free(ptr) => ptr in m.s.hdr
    case Write(ptr, _, _) => ptr in m.s.hdr
  }

  function Step(p: Params, repaired: bool, m: Machine, op: Op): Machine
    requires CanStep(p, m, op)
  {
    match op
    case Alloc(pc, osAddr) =>
      var (s', ptr) := Allocate(p, repaired, m.s, pc, osAddr);
      Machine(s', Granted(p, m.l, ptr, pc))
    case Free(ptr) =>
      Machine(Deallocate(p, repaired, m.s, ptr),
              if ptr in m.l.live then m.l.(live := m.l.live - {ptr}) else m.l.(large := m.l.large - {ptr}))
    case Write(ptr, word1, word2) =>
      m.(s := m.s.(hdr := m.s.hdr[ptr := m.s.hdr[ptr].(prevFree := word1, nextFree := word2)]))
  }

  ghost predicate Ok(p: Params, repaired: bool, m: Machine) {
    exists b :: Inv(p, repaired, m.s, m.l, b)
  }

  /** The one thing the code as written needs besides. */
  predicate NoHazard(m: Machine, op: Op) {
    op.Free? && op.ptr in m.l.live && op.ptr in m.s.hdr ==> !Hazard(m.s, m.l, op.ptr)
  }

  lemma InitialOk(p: Params, repaired: bool)
    requires p.Valid()
    ensures Ok(p, repaired, Initial(p))
  {
    var m := Initial(p);
    var b := Book(map[], seq(p.maxPages + 1, i => []));
    assert Inv(p, repaired, m.s, m.l, b);
  }

  lemma HeldNotListed(p: Params, repaired: bool, s: Bulk, l: Ledger, b: Book, ptr: nat)
    requires Inv(p, repaired, s, l, b) && (ptr in l.live || ptr in l.large)
    ensures ptr !in FreeChunks(b, l)
    ensures forall c :: c in b.home ==> c in s.hdr
  {
    ChunksInHdr(p, s.hdr, b.home);
    if ptr in b.home {
      InBlock(p, s.hdr, b.home, ptr);
      LargeIsNoChunk(p, s, l.large, b.home, ptr, ptr);
    }
  }

  /** A write to words behind a header that is not listed leaves tiling, lists and flags. */
  lemma WriteFrames(p: Params, repaired: bool, s: Bulk, large: map<nat, nat>, live: map<nat, nat>, b: Book,
                    free: set<nat>, ptr: nat, h: Header)
    requires Tiling(p, s.hdr, b.home) && LargeOk(p, s, large)
    requires LiveOk(p, s.hdr, b.home, live) && FlagsOk(p, repaired, s.hdr, b.home, live)
    requires ListsOk(p, s.hdr, s.heads, b.lists, free) && ptr !in free && forall c :: c in b.home ==> c in s.hdr
    requires ptr in s.hdr && SameTag(s.hdr[ptr], h)
    ensures var hdr' := s.hdr[ptr := h];
            && Tiling(p, hdr', b.home) && LargeOk(p, s.(hdr := hdr'), large)
            && LiveOk(p, hdr', b.home, live) && FlagsOk(p, repaired, hdr', b.home, live)
            && ListsOk(p, hdr', s.heads, b.lists, free)
  {
    var hdr' := s.hdr[ptr := h];
    TilingFrame(p, s.hdr, hdr', b.home);
    LargeFrame(p, s, s.(hdr := hdr'), large);
    ListsFrame(p, s.hdr, hdr', s.heads, b.lists, free);
    FlagsFrame(p, repaired, s.hdr, hdr', b.home, live);
  }

  lemma WriteKeeps(p: Params, repaired: bool, s: Bulk, l: Ledger, b: Book, ptr: nat, h: Header)
    requires Inv(p, repaired, s, l, b) && (ptr in l.live || ptr in l.large)
    requires ptr in s.hdr && SameTag(s.hdr[ptr], h)
    ensures Inv(p, repaired, s.(hdr := s.hdr[ptr := h]), l, b)
  {
    HeldNotListed(p, repaired, s, l, b, ptr);
    WriteFrames(p, repaired, s, l.large, l.live, b, FreeChunks(b, l), ptr, h);
  }

  /** Nothing the allocator reads is missing. */
  lemma CanStepWhenOk(p: Params, repaired: bool, m: Machine, op: Op)
    requires Ok(p, repaired, m) && Legal(p, m, op)
    ensures CanStep(p, m, op)
  {
    var b :| Inv(p, repaired, m.s, m.l, b);
    match op {
      case Alloc(pc, osAddr) => CanAllocateUnderInv(p, repaired, m.s, m.l, b, pc);
      case Free(ptr) => if ptr in b.home { InBlock(p, m.s.hdr, b.home, ptr); }
      case Write(ptr, _, _) => if ptr in b.home { InBlock(p, m.s.hdr, b.home, ptr); }
    }
  }

  /** One call keeps the invariant: always when repaired, and as written unless a hazard is
      freed. */
  lemma StepKeeps(p: Params, repaired: bool, m: Machine, op: Op)
    requires Ok(p, repaired, m) && Legal(p, m, op)
    requires repaired || NoHazard(m, op)
    ensures CanStep(p, m, op) && Ok(p, repaired, Step(p, repaired, m, op))
  {
    CanStepWhenOk(p, repaired, m, op);
    var b :| Inv(p, repaired, m.s, m.l, b);
    match op {
      case Alloc(pc, osAddr) =>
        var b' := AllocateKeeps(p, repaired, m.s, m.l, b, pc, osAddr);
      case Free(ptr) =>
        if ptr in m.l.live {
          var b' := DeallocateKeeps(p, repaired, m.s, m.l, b, ptr);
        } else {
          DeallocateLargeKeeps(p, repaired, m.s, m.l, b, ptr);
        }
      case Write(ptr, word1, word2) =>
        WriteKeeps(p, repaired, m.s, m.l, b, ptr, m.s.hdr[ptr].(prevFree := word1, nextFree := word2));
    }
  }

  // ---------------------------------------------------------------------------------------
  // Runs

  /** ms are the machines before, between and after the calls ops, starting from an initialized
      allocator. */
  ghost predicate IsRun(p: Params, repaired: bool, ms: seq<Machine>, ops: seq<Op>) {
    && |ms| == |ops| + 1
    && ms[0] == Initial(p)
    && forall i {:trigger ops[i]} :: 0 <= i < |ops| ==>
         Legal(p, ms[i], ops[i]) && (CanStep(p, ms[i], ops[i]) ==> ms[i + 1] == Step(p, repaired, ms[i], ops[i]))
  }

  /** All that is promised of a state. */
  ghost predicate Safe(m: Machine) {
    && (forall x, y :: x in m.l.live && y in m.l.live && x != y ==> Apart(x, m.l.live[x], y, m.l.live[y]))
    && (forall x, y :: x in m.l.live && y in m.l.large ==> Apart(x, m.l.live[x], y, m.l.large[y]))
    && (forall x, y :: x in m.l.large && y in m.l.large && x != y ==> Apart(x, m.l.large[x], y, m.l.large[y]))
    && (forall x :: x in m.l.live || x in m.l.large ==> x != 0 && x % PAGE_SIZE == 0)
  }

  lemma OkIsSafe(p: Params, repaired: bool, m: Machine)
    requires Ok(p, repaired, m)
    ensures Safe(m)
  {
    var b :| Inv(p, repaired, m.s, m.l, b);
    forall x | x in m.l.live ensures x != 0 && x % PAGE_SIZE == 0 {
      InBlock(p, m.s.hdr, b.home, x);
    }
    forall x, y | x in m.l.live && y in m.l.live && x != y ensures Apart(x, m.l.live[x], y, m.l.live[y]) {
      LiveApart(p, repaired, m.s, m.l, b, x, y);
    }
    forall x, y | x in m.l.live && y in m.l.large ensures Apart(x, m.l.live[x], y, m.l.large[y]) {
      LiveApart(p, repaired, m.s, m.l, b, x, y);
    }
  }

  /** A live chunk is apart from every other held region. */
  lemma LiveApart(p: Params, repaired: bool, s: Bulk, l: Ledger, b: Book, x: nat, y: nat)
    requires Inv(p, repaired, s, l, b) && x in l.live && (y in l.large || (y in l.live && x != y))
    ensures y in l.live && x != y ==> Apart(x, l.live[x], y, l.live[y])
    ensures y in l.large ==> Apart(x, l.live[x], y, l.large[y]) && y !in l.live
  {
    InBlock(p, s.hdr, b.home, x);
    if y in l.large {
      assert Apart(y, l.large[y], b.home[x], p.blockPages);
      if y in l.live {
        InBlock(p, s.hdr, b.home, y);
        LargeIsNoChunk(p, s, l.large, b.home, y, y);
      }
    } else {
      AllChunksApart(p, s.hdr, s.blocks, b.home, x, y);
    }
  }

  /** Held memory is disjoint from every chunk on a free list. */
  lemma FreeListsApart(p: Params, repaired: bool, m: Machine, b: Book, i: nat, f: nat, x: nat)
    requires Inv(p, repaired, m.s, m.l, b) && i <= p.maxPages && f in b.lists[i]
    requires x in m.l.live || x in m.l.large
    ensures f in m.s.hdr
    ensures Apart(f, m.s.hdr[f].count, x, if x in m.l.live then m.l.live[x] else m.l.large[x])
  {
    InBlock(p, m.s.hdr, b.home, f);
    if x in m.l.live {
      AllChunksApart(p, m.s.hdr, m.s.blocks, b.home, f, x);
    } else {
      assert Apart(x, m.l.large[x], b.home[f], p.blockPages);
    }
  }

  /** Live and listed chunks partition the blocks: every address of a block lies in exactly one chunk,
      which is either live or on the one list its page count selects. */
  lemma BlocksPartitioned(p: Params, repaired: bool, s: Bulk, l: Ledger, b: Book, block: nat, q: nat) returns (c: nat)
    requires Inv(p, repaired, s, l, b) && block in s.blocks && block <= q < block + p.blockPages * PAGE_SIZE
    ensures c in b.home && c in s.hdr && c <= q < c + s.hdr[c].count * PAGE_SIZE
    ensures forall d :: d in b.home && d in s.hdr && d <= q < d + s.hdr[d].count * PAGE_SIZE ==> d == c
    ensures c in l.live <==> c !in b.lists[ListIdx(p, s.hdr[c].count)]
    ensures forall i :: 0 <= i <= p.maxPages && c in b.lists[i] ==> i == ListIdx(p, s.hdr[c].count)
  {
    assert block in b.home && b.home[block] == block;
    c := ChunkOf(p, s.hdr, b.home, block, q);
    forall d | d in b.home && d in s.hdr && d <= q < d + s.hdr[d].count * PAGE_SIZE ensures d == c {
      if d != c { AllChunksApart(p, s.hdr, s.blocks, b.home, c, d); }
    }
  }

  /** Every run of the repaired allocator, and every run of the allocator as written that frees no
      chunk in front of a live chunk flagged free, is safe in all its states. */
  lemma {:induction false} RunIsSafe(p: Params, repaired: bool, ms: seq<Machine>, ops: seq<Op>, n: nat)
    requires p.Valid() && IsRun(p, repaired, ms, ops) && n <= |ops|
    requires repaired || forall i {:trigger ops[i]} :: 0 <= i < |ops| ==> NoHazard(ms[i], ops[i])
    ensures Ok(p, repaired, ms[n]) && Safe(ms[n])
    ensures n < |ops| ==> CanStep(p, ms[n], ops[n])
  {
    if n == 0 {
      InitialOk(p, repaired);
    } else {
      RunIsSafe(p, repaired, ms, ops, n - 1);
      assert ops[n - 1] == ops[n - 1];
      StepKeeps(p, repaired, ms[n - 1], ops[n - 1]);
    }
    OkIsSafe(p, repaired, ms[n]);
    if n < |ops| { CanStepWhenOk(p, repaired, ms[n], ops[n]); }
  }

  /** A grant is new: nobody held it, and whoever held something keeps it, contents included. */
  lemma StepGrants(p: Params, repaired: bool, m: Machine, pc: nat, osAddr: nat)
    requires Ok(p, repaired, m) && Legal(p, m, Alloc(pc, osAddr))
    ensures CanStep(p, m, Alloc(pc, osAddr))
    ensures var ptr := Allocate(p, repaired, m.s, pc, osAddr).1;
            var m' := Step(p, repaired, m, Alloc(pc, osAddr));
            && ptr != 0 && ptr !in m.l.live && ptr !in m.l.large
            && m'.l == Granted(p, m.l, ptr, pc)
            && Safe(m')
            && ContentsKept(m.s.hdr, m'.s.hdr, m.l)
  {
    var b :| Inv(p, repaired, m.s, m.l, b);
    var b' := AllocateKeeps(p, repaired, m.s, m.l, b, pc, osAddr);
    AllocateKeepsContents(p, repaired, m.s, m.l, b, pc, osAddr);
    OkIsSafe(p, repaired, Step(p, repaired, m, Alloc(pc, osAddr)));
  }

  // ---------------------------------------------------------------------------------------
  // The code as written

  /** In the code as written every flagged chunk is the last of its block, so the merge with the
      previous chunk never happens and no back-link ever needs an update. */
  lemma LiteralFacts(p: Params, m: Machine, b: Book, c: nat)
    requires Inv(p, false, m.s, m.l, b) && c in b.home
    ensures c in m.s.hdr && |m.s.heads| == p.maxPages + 1
    ensures m.s.hdr[c].free ==> c + m.s.hdr[c].count * PAGE_SIZE == b.home[c] + p.blockPages * PAGE_SIZE
    ensures !FlaggedChunk(m.s.hdr, m.s.hdr[c].prev)
    ensures MergePrev(p, false, m.s, c) == (m.s, c)
    ensures m.s.hdr[c].next != 0 ==> m.s.hdr[c].next in m.s.hdr && m.s.hdr[m.s.hdr[c].next].prev == c
  {
    assert ChunkOk(p, m.s.hdr, b.home, c);
    assert FlagOk(p, false, m.s.hdr, m.l.live, c);
    var a := m.s.hdr[c].prev;
    if a != 0 {
      assert ChunkOk(p, m.s.hdr, b.home, a);
      assert FlagOk(p, false, m.s.hdr, m.l.live, a);
    }
  }

  /** Freeing a hazard breaks the allocator: a chunk that is still live ends up inside a chunk at the
      head of a free list, and whatever bookkeeping one tries, the state does not satisfy the
      invariant. */
  lemma HazardBreaks(p: Params, m: Machine, b: Book, h: nat, b': Book)
    requires Inv(p, false, m.s, m.l, b) && h in m.l.live && h in m.s.hdr
    requires Hazard(m.s, m.l, h)
    ensures |m.s.heads| == p.maxPages + 1
    ensures var s', n := Deallocate(p, false, m.s, h), m.s.hdr[h].next;
            && n in m.l.live && n != h && h in s'.hdr && |s'.heads| == p.maxPages + 1
            && s'.heads[ListIdx(p, s'.hdr[h].count)] == h
            && h < n && n + m.l.live[n] * PAGE_SIZE <= h + s'.hdr[h].count * PAGE_SIZE
    ensures !Inv(p, false, Deallocate(p, false, m.s, h), m.l.(live := m.l.live - {h}), b')
  {
    var n := m.s.hdr[h].next;
    LiteralFacts(p, m, b, h);
    assert ChunkOk(p, m.s.hdr, b.home, h);
    assert FlagOk(p, false, m.s.hdr, m.l.live, n);
    assert ChunkOk(p, m.s.hdr, b.home, n);
    var s' := Deallocate(p, false, m.s, h);
    HazardTags(p, m.s, h);
    if Inv(p, false, s', m.l.(live := m.l.live - {h}), b') {
      BackLinkExact(p, s'.hdr, b'.home, n);
    }
  }

  lemma BackLinkExact(p: Params, hdr: map<nat, Header>, home: map<nat, nat>, c: nat)
    requires Tiling(p, hdr, home) && c in home
    ensures c in hdr && (hdr[c].prev != 0 ==> hdr[c].prev in hdr && hdr[hdr[c].prev].next == c)
  {
    assert ChunkOk(p, hdr, home, c);
  }

  /** The pages of the live chunk n end up inside the free chunk h. */
  lemma HazardTags(p: Params, s: Bulk, h: nat)
    requires h in s.hdr && |s.heads| == p.maxPages + 1 && s.hdr[h].count != 0
    requires !FlaggedChunk(s.hdr, s.hdr[h].prev) && FlaggedChunk(s.hdr, s.hdr[h].next)
    requires var n := s.hdr[h].next; n != h && s.hdr[n].next == 0 && s.hdr[n].prev == h
    ensures var s' := Deallocate(p, false, s, h);
            var n := s.hdr[h].next;
            && h in s'.hdr && s'.hdr[h].next == 0 && s'.hdr[h].count == s.hdr[h].count + s.hdr[n].count
            && n in s'.hdr && s'.hdr[n].prev == h
            && |s'.heads| == p.maxPages + 1 && s'.heads[ListIdx(p, s'.hdr[h].count)] == h
  {
    var n := s.hdr[h].next;
    var s1 := RemoveFromFreeList(p, s, n);
    RemoveTags(p, s, n);
    assert SameTag(s.hdr[h], s1.hdr[h]) && SameTag(s.hdr[n], s1.hdr[n]);
    var s2 := MergeNext(p, false, s, h);
    PushTags(p, s2, h);
    assert SameTag(s2.hdr[h], PushFree(p, s2, h).hdr[h]) && SameTag(s2.hdr[n], PushFree(p, s2, h).hdr[n]);
  }

  /** The exact condition under which one deallocation of the code as written is correct. */
  lemma LiteralDeallocateIff(p: Params, m: Machine, h: nat)
    requires Ok(p, false, m) && h in m.l.live
    ensures h in m.s.hdr && CanStep(p, m, Free(h))
    ensures Ok(p, false, Step(p, false, m, Free(h))) <==> !Hazard(m.s, m.l, h)
  {
    CanStepWhenOk(p, false, m, Free(h));
    if Hazard(m.s, m.l, h) {
      var b :| Inv(p, false, m.s, m.l, b);
      var m' := Step(p, false, m, Free(h));
      forall b' ensures !Inv(p, false, m'.s, m'.l, b') {
        InBlock(p, m.s.hdr, b.home, h);
        HazardBreaks(p, m, b, h, b');
      }
    } else {
      StepKeeps(p, false, m, Free(h));
    }
  }
}
