/** When the code as written is safe, and a run on which it is not
    (src/iibmalloc/iibmalloc.h:637-673, 703-731). */
module BulkLiteral {
  import opened Arith
  import opened Lists
  import opened BulkSpec
  import opened BulkLists
  import opened BulkTiling
  import opened BulkSteps
  import opened BulkFrame
  import opened BulkRuns

  /** The call does not pop, by exact fit, a chunk whose free bit is set. */
  predicate NoFlaggedPop(p: Params, m: Machine, op: Op) {
    op.Alloc? && 0 < op.pc <= p.maxPages && op.pc - 1 < |m.s.heads| && m.s.heads[op.pc - 1] in m.s.hdr
    ==> !m.s.hdr[m.s.heads[op.pc - 1]].free
  }

  ghost predicate LiveUnflagged(m: Machine) {
    forall c :: c in m.l.live && c in m.s.hdr ==> !m.s.hdr[c].free
  }

  lemma UnflaggedIsNoHazard(m: Machine, op: Op)
    requires LiveUnflagged(m)
    ensures NoHazard(m, op)
  {}

  lemma UnflaggedKept(p: Params, m: Machine, op: Op)
    requires Ok(p, false, m) && LiveUnflagged(m) && Legal(p, m, op) && NoFlaggedPop(p, m, op)
    ensures CanStep(p, m, op) && LiveUnflagged(Step(p, false, m, op))
  {
    hide Inv;
    CanStepWhenOk(p, false, m, op);
    match op {
      case Alloc(pc, osAddr) => AllocUnflagged(p, m, pc, osAddr);
      case Free(ptr) => FreeUnflagged(p, m, ptr);
      case Write(ptr, word1, word2) =>
    }
  }

  lemma AllocUnflagged(p: Params, m: Machine, pc: nat, osAddr: nat)
    requires Ok(p, false, m) && LiveUnflagged(m) && Legal(p, m, Alloc(pc, osAddr))
    requires NoFlaggedPop(p, m, Alloc(pc, osAddr))
    ensures CanStep(p, m, Alloc(pc, osAddr)) && LiveUnflagged(Step(p, false, m, Alloc(pc, osAddr)))
  {
    var b :| Inv(p, false, m.s, m.l, b);
    AllocateKeepsContents(p, false, m.s, m.l, b, pc, osAddr);
    GrantUnflagged(p, m.s, m.l, b, pc, osAddr);
    var r := Allocate(p, false, m.s, pc, osAddr);
    forall c | c in Granted(p, m.l, r.1, pc).live && c in r.0.hdr ensures !r.0.hdr[c].free {
      if c != r.1 { assert SameButPrev(m.s.hdr[c], r.0.hdr[c]); }
    }
  }

  lemma FreeUnflagged(p: Params, m: Machine, ptr: nat)
    requires Ok(p, false, m) && LiveUnflagged(m) && Legal(p, m, Free(ptr))
    ensures CanStep(p, m, Free(ptr)) && LiveUnflagged(Step(p, false, m, Free(ptr)))
  {
    CanStepWhenOk(p, false, m, Free(ptr));
    var b :| Inv(p, false, m.s, m.l, b);
    if ptr in m.l.live {
      DeallocateKeepsContents(p, false, m.s, m.l, b, ptr);
      var s' := Deallocate(p, false, m.s, ptr);
      forall c | c in m.l.live - {ptr} && c in s'.hdr ensures !s'.hdr[c].free {
        assert SameButPrev(m.s.hdr[c], s'.hdr[c]);
      }
    } else {
      DeallocateLargeKeeps(p, false, m.s, m.l, b, ptr);
    }
  }

  lemma GrantUnflagged(p: Params, s: Bulk, l: Ledger, b: Book, pc: nat, osAddr: nat)
    requires Inv(p, false, s, l, b) && pc > 0
    requires FreshRegion(p, s, l, osAddr, if pc <= p.maxPages then p.blockPages else pc)
    requires NoFlaggedPop(p, Machine(s, l), Alloc(pc, osAddr))
    ensures CanAllocate(p, s, pc)
    ensures var (s', ptr) := Allocate(p, false, s, pc, osAddr); ptr in s'.hdr && !s'.hdr[ptr].free
  {
    CanAllocateUnderInv(p, false, s, l, b, pc);
    if pc <= p.maxPages {
      var s0 := if s.heads[pc - 1] == 0 && s.heads[p.maxPages] == 0 then NewBlock(p, s, osAddr) else s;
      if s.heads[pc - 1] != 0 {
        HeadFacts(p, false, s, l, b, pc - 1);
        RemoveTags(p, s, s.heads[pc - 1]);
        assert SameTag(s.hdr[s.heads[pc - 1]], PopFree(s, pc - 1).hdr[s.heads[pc - 1]]);
      } else {
        SplitUnflags(p, s0, pc);
      }
    }
  }

  lemma SplitUnflags(p: Params, s: Bulk, pc: nat)
    requires |s.heads| == p.maxPages + 1 && s.heads[p.maxPages] in s.hdr
    requires 0 < pc <= s.hdr[s.heads[p.maxPages]].count
    ensures var (s', c) := SplitStep(p, false, s, pc); c in s'.hdr && !s'.hdr[c].free
  {
    var c := s.heads[p.maxPages];
    var s1 := PopFree(s, p.maxPages);
    var s2 := s1.(hdr := SplitChunk(false, s1.hdr, c, pc));
    PushTags(p, s2, c + pc * PAGE_SIZE);
    assert SameTag(s2.hdr[c], SplitStep(p, false, s, pc).0.hdr[c]);
  }

  /** As long as no exact-fit pop returns a flagged chunk, the code as written is safe in every
      state of every run. */
  lemma {:induction false} UnflaggedRunIsSafe(p: Params, ms: seq<Machine>, ops: seq<Op>, n: nat)
    requires p.Valid() && IsRun(p, false, ms, ops) && n <= |ops|
    requires forall i {:trigger ops[i]} :: 0 <= i < |ops| ==> NoFlaggedPop(p, ms[i], ops[i])
    ensures Ok(p, false, ms[n]) && Safe(ms[n]) && LiveUnflagged(ms[n])
  {
    if n == 0 {
      InitialOk(p, false);
    } else {
      UnflaggedRunIsSafe(p, ms, ops, n - 1);
      assert ops[n - 1] == ops[n - 1];
      UnflaggedIsNoHazard(ms[n - 1], ops[n - 1]);
      UnflaggedKept(p, ms[n - 1], ops[n - 1]);
      StepKeeps(p, false, ms[n - 1], ops[n - 1]);
    }
    OkIsSafe(p, false, ms[n]);
  }

  /** The code as written writes the back-link of no chunk it did not just create: that they stay
      exact is a theorem about the states it can reach. */
  lemma LiteralKeepsBackLinks(p: Params, s: Bulk, h: nat)
    requires h in s.hdr && |s.heads| == p.maxPages + 1
    ensures forall c :: c in s.hdr ==>
              c in Deallocate(p, false, s, h).hdr && Deallocate(p, false, s, h).hdr[c].prev == s.hdr[c].prev
  {
    if s.hdr[h].count != 0 {
      var (s1, h1) := MergePrev(p, false, s, h);
      MergeBackLinks(p, s, h);
      var s2 := MergeNext(p, false, s1, h1);
      MergeNextBackLinks(p, s1, h1);
      PushTags(p, s2, h1);
      var s3 := PushFree(p, s2, h1);
      forall c | c in s.hdr ensures c in s3.hdr && s3.hdr[c].prev == s.hdr[c].prev {
        assert SameTag(s2.hdr[c], s3.hdr[c]);
      }
    }
  }

  lemma MergeBackLinks(p: Params, s: Bulk, h: nat)
    requires h in s.hdr && |s.heads| == p.maxPages + 1
    ensures var s1 := MergePrev(p, false, s, h).0; forall c :: c in s.hdr ==>
              c in s1.hdr && s1.hdr[c].prev == s.hdr[c].prev
  {
    var prev := s.hdr[h].prev;
    if FlaggedChunk(s.hdr, prev) {
      RemoveTags(p, s, prev);
      var s1 := RemoveFromFreeList(p, s, prev);
      forall c | c in s.hdr
        ensures c in s1.hdr && s1.hdr[c].prev == s.hdr[c].prev
      {
        assert SameTag(s.hdr[c], s1.hdr[c]);
      }
    }
  }

  lemma MergeNextBackLinks(p: Params, s: Bulk, h: nat)
    requires h in s.hdr && |s.heads| == p.maxPages + 1
    ensures var s1 := MergeNext(p, false, s, h); forall c :: c in s.hdr ==>
              c in s1.hdr && s1.hdr[c].prev == s.hdr[c].prev
  {
    var next := s.hdr[h].next;
    if FlaggedChunk(s.hdr, next) {
      RemoveTags(p, s, next);
      var s1 := RemoveFromFreeList(p, s, next);
      forall c | c in s.hdr
        ensures c in s1.hdr && s1.hdr[c].prev == s.hdr[c].prev
      {
        assert SameTag(s.hdr[c], s1.hdr[c]);
      }
    }
  }

  // ---------------------------------------------------------------------------------------
  // A run that breaks the code as written: fill a block with chunks of maxPages pages, then free
  // the last but one

  /** The first block starts at page 1; only its last r pages are free, flagged, and they follow a
      live chunk of maxPages pages. */
  ghost predicate Filled(p: Params, m: Machine, r: nat) {
    var end := PAGE_SIZE + p.blockPages * PAGE_SIZE;
    var tail := end - r * PAGE_SIZE;
    var before := tail - p.maxPages * PAGE_SIZE;
    && 0 < r && r + p.maxPages <= p.blockPages
    && m.s.blocks == [PAGE_SIZE] && m.l.large == map[]
    && |m.s.heads| == p.maxPages + 1
    && (forall i :: 0 <= i <= p.maxPages ==> m.s.heads[i] == if i == ListIdx(p, r) then tail else 0)
    && before > 0 && before in m.l.live
    && before in m.s.hdr && m.s.hdr[before].next == tail && m.s.hdr[before].count == p.maxPages
    && tail in m.s.hdr && m.s.hdr[tail].free && m.s.hdr[tail].count == r
    && m.s.hdr[tail].nextFree == 0 && m.s.hdr[tail].prevFree == 0 && m.s.hdr[tail].next == 0
  }

  /** A second block the operating system could give. */
  function SpareBlock(p: Params): nat {
    PAGE_SIZE + p.blockPages * PAGE_SIZE
  }

  function FillCall(p: Params): Op {
    Alloc(p.maxPages, SpareBlock(p))
  }

  lemma FirstFill(p: Params)
    requires p.Valid() && 0 < p.maxPages
    ensures var m := Initial(p);
            var op := Alloc(p.maxPages, PAGE_SIZE);
            && Legal(p, m, op) && CanStep(p, m, op)
            && Filled(p, Step(p, false, m, op), p.blockPages - p.maxPages)
  {
    var m := Initial(p);
    var s1 := NewBlock(p, m.s, PAGE_SIZE);
    var u := PAGE_SIZE + p.maxPages * PAGE_SIZE;
    assert s1.heads[p.maxPages] == PAGE_SIZE && s1.hdr[PAGE_SIZE] == Header(0, 0, p.blockPages, true, 0, 0);
    var s2 := PopFree(s1, p.maxPages);
    assert s2.heads == m.s.heads;
  }

  lemma NextFill(p: Params, m: Machine, r: nat)
    requires p.Valid() && Filled(p, m, r) && p.maxPages < r
    ensures Legal(p, m, FillCall(p)) && CanStep(p, m, FillCall(p))
    ensures p.maxPages > 0 ==> Filled(p, Step(p, false, m, FillCall(p)), r - p.maxPages)
  {
  }

  ghost predicate NoFree(ops: seq<Op>) {
    forall i {:trigger ops[i]} :: 0 <= i < |ops| ==> !ops[i].Free?
  }

  lemma ExtendRun(p: Params, ms: seq<Machine>, ops: seq<Op>, op: Op)
    requires IsRun(p, false, ms, ops) && Legal(p, ms[|ops|], op) && CanStep(p, ms[|ops|], op)
    ensures IsRun(p, false, ms + [Step(p, false, ms[|ops|], op)], ops + [op])
  {
    var ms', ops' := ms + [Step(p, false, ms[|ops|], op)], ops + [op];
    forall i | 0 <= i < |ops'|
      ensures Legal(p, ms'[i], ops'[i])
      ensures CanStep(p, ms'[i], ops'[i]) ==> ms'[i + 1] == Step(p, false, ms'[i], ops'[i])
    {
      if i < |ops| { assert ops'[i] == ops[i] && ms'[i] == ms[i] && ms'[i + 1] == ms[i + 1]; }
    }
  }

  /** A run that leaves at most maxPages flagged pages at the end of the block. */
  lemma {:induction false} FillingRun(p: Params, ms: seq<Machine>, ops: seq<Op>, r: nat)
    returns (ms': seq<Machine>, ops': seq<Op>, r': nat)
    requires p.Valid() && 0 < p.maxPages && IsRun(p, false, ms, ops) && NoFree(ops)
    requires r > 0 && Filled(p, ms[|ops|], r)
    ensures IsRun(p, false, ms', ops') && NoFree(ops') && 0 < r' <= p.maxPages && Filled(p, ms'[|ops'|], r')
    decreases r
  {
    hide Filled;
    if r <= p.maxPages {
      ms', ops', r' := ms, ops, r;
    } else {
      var op := FillCall(p);
      NextFill(p, ms[|ops|], r);
      ExtendRun(p, ms, ops, op);
      ms', ops', r' := FillingRun(p, ms + [Step(p, false, ms[|ops|], op)], ops + [op], r - p.maxPages);
    }
  }

  /** All lists are empty; the last two chunks of the first block are live, maxPages and r pages, and
      the last one is flagged free. */
  ghost predicate Popped(p: Params, m: Machine, h: nat, tail: nat, r: nat) {
    && m.s.blocks == [PAGE_SIZE] && m.l.large == map[] && |m.s.heads| == p.maxPages + 1
    && (forall i :: 0 <= i <= p.maxPages ==> m.s.heads[i] == 0)
    && 0 < h && tail == h + p.maxPages * PAGE_SIZE && 0 < r <= p.maxPages
    && h in m.l.live && h in m.s.hdr && m.s.hdr[h].next == tail && m.s.hdr[h].count == p.maxPages
    && tail in m.l.live && tail in m.s.hdr && m.s.hdr[tail].free && m.s.hdr[tail].count == r
    && m.s.hdr[tail].nextFree == 0 && m.s.hdr[tail].prevFree == 0 && m.s.hdr[tail].next == 0
  }

  /** The pop that hands out a flagged chunk. */
  lemma LastFill(p: Params, m: Machine, r: nat)
    requires p.Valid() && 0 < r <= p.maxPages && Filled(p, m, r)
    ensures var op := Alloc(r, SpareBlock(p));
            && Legal(p, m, op) && CanStep(p, m, op)
            && var tail := PAGE_SIZE + p.blockPages * PAGE_SIZE - r * PAGE_SIZE;
            var h := tail - p.maxPages * PAGE_SIZE;
            h > 0 && Popped(p, Step(p, false, m, op), h, tail, r)
  {}

  /** A run to a state with a live chunk in front of a live chunk that is flagged free. */
  lemma HazardRun(p: Params) returns (ms: seq<Machine>, ops: seq<Op>, h: nat, tail: nat, r: nat)
    requires p.Valid() && 0 < p.maxPages
    ensures IsRun(p, false, ms, ops) && NoFree(ops)
    ensures Popped(p, ms[|ops|], h, tail, r)
  {
    hide Popped;
    var op0 := Alloc(p.maxPages, PAGE_SIZE);
    FirstFill(p);
    ExtendRun(p, [Initial(p)], [], op0);
    ms, ops, r := FillingRun(p, [Initial(p)] + [Step(p, false, Initial(p), op0)], [] + [op0],
                             p.blockPages - p.maxPages);
    LastFill(p, ms[|ops|], r);
    var op := Alloc(r, SpareBlock(p));
    ExtendRun(p, ms, ops, op);
    tail := PAGE_SIZE + p.blockPages * PAGE_SIZE - r * PAGE_SIZE;
    h := tail - p.maxPages * PAGE_SIZE;
    ms, ops := ms + [Step(p, false, ms[|ops|], op)], ops + [op];
  }

  /** The chunk h, free again, has swallowed the live chunk behind it. */
  ghost predicate Swallowed(p: Params, m: Machine, h: nat, tail: nat, r: nat) {
    && m.s.blocks == [PAGE_SIZE] && m.l.large == map[] && |m.s.heads| == p.maxPages + 1
    && (forall i :: 0 <= i <= p.maxPages ==> m.s.heads[i] == if i == p.maxPages then h else 0)
    && 0 < h && tail == h + p.maxPages * PAGE_SIZE && 0 < r <= p.maxPages
    && h in m.s.hdr && m.s.hdr[h].next == 0 && m.s.hdr[h].nextFree == 0 && m.s.hdr[h].count == p.maxPages + r
    && tail in m.l.live
  }

  lemma FreeSwallows(p: Params, m: Machine, h: nat, tail: nat, r: nat)
    requires p.Valid() && Popped(p, m, h, tail, r) && !FlaggedChunk(m.s.hdr, m.s.hdr[h].prev)
    ensures Legal(p, m, Free(h)) && CanStep(p, m, Free(h))
    ensures Swallowed(p, Step(p, false, m, Free(h)), h, tail, r)
  {
    var s1 := RemoveFromFreeList(p, m.s, tail);
    assert s1.heads == m.s.heads && s1.hdr == m.s.hdr;
  }

  /** Asking for maxPages pages cuts them off again and lists the rest, which is the live chunk. */
  ghost predicate Relisted(p: Params, m: Machine, tail: nat, r: nat) {
    && m.s.blocks == [PAGE_SIZE] && m.l.large == map[] && |m.s.heads| == p.maxPages + 1
    && 0 < r <= p.maxPages && m.s.heads[r - 1] == tail && tail != 0 && tail in m.s.hdr && tail in m.l.live
  }

  lemma SplitRelists(p: Params, m: Machine, h: nat, tail: nat, r: nat)
    requires p.Valid() && Swallowed(p, m, h, tail, r)
    ensures Legal(p, m, FillCall(p)) && CanStep(p, m, FillCall(p))
    ensures Relisted(p, Step(p, false, m, FillCall(p)), tail, r)
  {}

  /** Asking for r pages hands out a chunk that somebody still holds. */
  lemma GrantedTwice(p: Params, m: Machine, tail: nat, r: nat)
    requires p.Valid() && Relisted(p, m, tail, r)
    ensures var op := Alloc(r, SpareBlock(p));
            Legal(p, m, op) && CanStep(p, m, op) && Allocate(p, false, m.s, r, SpareBlock(p)).1 == tail
  {}

  /** A run of legal calls of the code as written whose last call hands out memory that is still held:
      fill a block, free its last chunk but one, and ask for as much again. */
  lemma DoubleGrant(p: Params) returns (ms: seq<Machine>, ops: seq<Op>)
    requires p.Valid() && 0 < p.maxPages
    ensures IsRun(p, false, ms, ops) && |ops| > 3
    ensures var f := |ops| - 3; ops[f].Free? && Ok(p, false, ms[f]) && !Ok(p, false, ms[f + 1])
    ensures var m, op := ms[|ops| - 1], ops[|ops| - 1];
            op.Alloc? && CanStep(p, m, op) && Allocate(p, false, m.s, op.pc, op.osAddr).1 in m.l.live
  {
    var h, tail, r;
    ms, ops, h, tail, r := BreakingRun(p);
    SplitRelists(p, ms[|ops|], h, tail, r);
    ExtendRun(p, ms, ops, FillCall(p));
    ms, ops := ms + [Step(p, false, ms[|ops|], FillCall(p))], ops + [FillCall(p)];
    GrantedTwice(p, ms[|ops|], tail, r);
    var op := Alloc(r, SpareBlock(p));
    ExtendRun(p, ms, ops, op);
    ms, ops := ms + [Step(p, false, ms[|ops|], op)], ops + [op];
  }

  /** For every instance there is a run of legal calls after which the code as written is broken: fill
      one block, then free its last chunk but one, and the last one, still live, lies inside it. */
  lemma BreakingRun(p: Params) returns (ms: seq<Machine>, ops: seq<Op>, h: nat, tail: nat, r: nat)
    requires p.Valid() && 0 < p.maxPages
    ensures IsRun(p, false, ms, ops) && |ops| > 1 && ops[|ops| - 1] == Free(h)
    ensures Ok(p, false, ms[|ops| - 1]) && !Ok(p, false, ms[|ops|])
    ensures Swallowed(p, ms[|ops|], h, tail, r)
  {
    ms, ops, h, tail, r := HazardRun(p);
    RunIsSafe(p, false, ms, ops, |ops|);
    var m := ms[|ops|];
    LiteralDeallocateIff(p, m, h);
    var b :| Inv(p, false, m.s, m.l, b);
    LiteralFacts(p, m, b, h);
    FreeSwallows(p, m, h, tail, r);
    ExtendRun(p, ms, ops, Free(h));
    ms, ops := ms + [Step(p, false, m, Free(h))], ops + [Free(h)];
  }

  lemma ShippedInstanceBreaks() returns (ms: seq<Machine>, ops: seq<Op>)
    ensures IsRun(SHIPPED, false, ms, ops) && |ops| > 3
    ensures var m, op := ms[|ops| - 1], ops[|ops| - 1];
            op.Alloc? && CanStep(SHIPPED, m, op) && Allocate(SHIPPED, false, m.s, op.pc, op.osAddr).1 in m.l.live
  {
    ms, ops := DoubleGrant(SHIPPED);
  }
}
