/** The tester's main function in check mode, as a client of any allocator
    (src/allocator_tester.h:247-440). */
module AllocatorTester {
  import opened Arith
  import opened Sums
  import opened SegmentCheck
  import opened RandomSize
  import opened TesterModel

  predicate ApartBlocks(a: nat, n: nat, b: nat, m: nat) {
    a + n <= b || b + m <= a
  }

  /** The bytes of the live blocks are the same in both memories. */
  ghost predicate Untouched(mem: Memory, mem': Memory, live: map<nat, nat>) {
    forall p, a :: p in live && p <= a < p + live[p] && a in mem ==> a in mem' && mem'[a] == mem[a]
  }

  /** No block at address 0, and no two that overlap. */
  ghost predicate DisjointBlocks(live: map<nat, nat>) {
    && 0 !in live
    && forall p, q :: p in live && q in live && p != q ==> ApartBlocks(p, live[p], q, live[q])
  }

  /** What the tester relies on when it allocates ... */
  ghost predicate Grants(live: map<nat, nat>, mem: Memory, ptr: nat, sz: nat, live': map<nat, nat>, mem': Memory) {
    && ptr != 0 && ptr !in live && live' == live[ptr := sz] && DisjointBlocks(live')
    && Untouched(mem, mem', live)
  }

  /** ... and when it deallocates. */
  ghost predicate TakesBack(live: map<nat, nat>, mem: Memory, ptr: nat, live': map<nat, nat>, mem': Memory) {
    && live' == live - {ptr} && DisjointBlocks(live')
    && Untouched(mem, mem', live')
  }

  /** Any allocator the tester can rely on. Which address a block gets, and what happens to the bytes
      outside live blocks, is left open. */
  class AllocatorUnderTest {
    const ram: Ram
    /** The blocks given out and not taken back, with their sizes. */
    var live: map<nat, nat>
    /** The bytes in live blocks. */
    ghost var liveBytes: nat
    /** The same, after each allocation so far. */
    ghost var totals: seq<nat>

    constructor (ram: Ram)
      ensures Valid() && live == map[] && totals == [] && liveBytes == 0 && this.ram == ram
    {
      this.ram, live, totals, liveBytes := ram, map[], [], 0;
    }

    ghost predicate Valid()
      reads this, ram`bytes
    {
      && DisjointBlocks(live) && liveBytes == SumOf(live)
      && (forall p :: p in live ==> Mapped(ram.bytes, p, live[p]))
    }

    method Allocate(sz: nat) returns (ptr: nat)
      requires Valid()
      modifies this, ram`bytes
      ensures Valid()
      ensures Grants(old(live), old(ram.bytes), ptr, sz, live, ram.bytes)
      ensures liveBytes == old(liveBytes) + sz && totals == old(totals) + [liveBytes]
    {
      ghost var top := RoomAbove(live);
      assert FreeAt(live, top, sz);
      ptr :| FreeAt(live, ptr, sz);
      assert FreeAt(live, ptr, sz);
      var noise: Memory := *;
      ram.bytes := Overwritten(ram.bytes, noise, live, ptr, sz);
      SumAdd(live, ptr, sz);
      live := live[ptr := sz];
      liveBytes := liveBytes + sz;
      totals := totals + [liveBytes];
    }

    method Deallocate(ptr: nat)
      requires Valid() && ptr in live
      modifies this, ram`bytes
      ensures Valid() && totals == old(totals)
      ensures TakesBack(old(live), old(ram.bytes), ptr, live, ram.bytes)
      ensures liveBytes == old(liveBytes) - old(live)[ptr]
    {
      SumRemove(live, ptr);
      liveBytes := liveBytes - live[ptr];
      live := live - {ptr};
      var noise: Memory := *;
      ram.bytes := Overwritten(ram.bytes, noise, live, 0, 0);
    }
  }

  predicate FreeAt(live: map<nat, nat>, ptr: nat, sz: nat) {
    ptr != 0 && ptr !in live && forall p :: p in live ==> ApartBlocks(p, live[p], ptr, sz)
  }

  predicate InLive(live: map<nat, nat>, a: nat) {
    exists p :: p in live && p <= a < p + live[p]
  }

  function Zeros(ptr: nat, sz: nat): (m: Memory)
    ensures forall a :: a in m <==> ptr <= a < ptr + sz
  {
    if sz == 0 then map[] else Zeros(ptr, sz - 1)[ptr + sz - 1 := 0]
  }

  /** Anything can happen to bytes outside the live blocks; those of a new block are there. */
  function Overwritten(mem: Memory, noise: Memory, live: map<nat, nat>, ptr: nat, sz: nat): (m: Memory)
    ensures Untouched(mem, m, live) && Mapped(m, ptr, sz)
    ensures forall p :: p in live && Mapped(mem, p, live[p]) ==> Mapped(m, p, live[p])
  {
    Zeros(ptr, sz) + noise + map a | a in mem && InLive(live, a) :: mem[a]
  }

  lemma {:induction false} RoomAbove(live: map<nat, nat>) returns (top: nat)
    ensures top > 0 && forall p :: p in live ==> p < top && p + live[p] <= top
    decreases |live|
  {
    if live == map[] {
      top := 1;
    } else {
      var p :| p in live;
      var t := RoomAbove(live - {p});
      top := t + p + live[p] + 1;
      assert forall q :: q in live ==> q == p || q in live - {p};
    }
  }

  // ---------------------------------------------------------------------------------------
  // The slot table

  datatype TestBin = TestBin(ptr: nat, sz: nat, reincarnation: nat)

  const TEST_BIN_SIZE := 16

  /** A slot in use owns a live block of its own size that holds the data it was filled with. */
  ghost predicate SlotOk(gen: Generator, bin: TestBin, base: map<nat, nat>, live: map<nat, nat>, mem: Memory) {
    bin.ptr != 0 ==>
      && bin.ptr in live && live[bin.ptr] == bin.sz && bin.ptr !in base
      && HoldsPattern(gen, mem, bin.ptr, bin.sz, SeedOf(bin.ptr, bin.sz, bin.reincarnation))
  }

  /** From slot lo on the slots in use own different blocks, and together with the blocks of `base`
      these are all that are live. */
  ghost predicate TableOk(gen: Generator, bins: seq<TestBin>, lo: nat, base: map<nat, nat>, live: map<nat, nat>,
                          mem: Memory)
  {
    && (forall j {:trigger bins[j]} :: lo <= j < |bins| ==> SlotOk(gen, bins[j], base, live, mem))
    && (forall i, j :: lo <= i < j < |bins| && bins[i].ptr != 0 ==> bins[i].ptr != bins[j].ptr)
    && (forall p :: p in base ==> p in live && live[p] == base[p])
    && (forall p :: p in live && p !in base ==> exists j :: lo <= j < |bins| && bins[j].ptr == p)
  }

  /** Data survives whatever leaves its block alone. */
  lemma DataKept(gen: Generator, mem: Memory, mem': Memory, live: map<nat, nat>, ptr: nat, seed: nat)
    requires ptr in live && Untouched(mem, mem', live) && HoldsPattern(gen, mem, ptr, live[ptr], seed)
    ensures HoldsPattern(gen, mem', ptr, live[ptr], seed)
  {
    forall k | 0 <= k < live[ptr] ensures ByteHolds(gen, mem', ptr, seed, k) {
      assert ByteHolds(gen, mem, ptr, seed, k);
    }
  }

  lemma TableKept(gen: Generator, bins: seq<TestBin>, lo: nat, base: map<nat, nat>, live: map<nat, nat>, mem: Memory,
                  mem': Memory)
    requires TableOk(gen, bins, lo, base, live, mem) && Untouched(mem, mem', live)
    ensures TableOk(gen, bins, lo, base, live, mem')
  {
    forall j | lo <= j < |bins| ensures SlotOk(gen, bins[j], base, live, mem') {
      var b := bins[j];
      if b.ptr != 0 { DataKept(gen, mem, mem', live, b.ptr, SeedOf(b.ptr, b.sz, b.reincarnation)); }
    }
  }

  /** Filling a free slot with a new block. */
  lemma TableGrows(gen: Generator, bins: seq<TestBin>, base: map<nat, nat>, live: map<nat, nat>, mem: Memory, idx: nat,
                   bin: TestBin)
    requires TableOk(gen, bins, 0, base, live, mem) && idx < |bins| && bins[idx].ptr == 0
    requires bin.ptr != 0 && bin.ptr !in live && 0 !in live
    requires HoldsPattern(gen, mem, bin.ptr, bin.sz, SeedOf(bin.ptr, bin.sz, bin.reincarnation))
    ensures TableOk(gen, bins[idx := bin], 0, base, live[bin.ptr := bin.sz], mem)
  {
    hide HoldsPattern;
    var bins', live' := bins[idx := bin], live[bin.ptr := bin.sz];
    forall p | p in live' && p !in base ensures exists j :: 0 <= j < |bins'| && bins'[j].ptr == p {
      if p == bin.ptr {
        assert bins'[idx].ptr == p;
      } else {
        var j :| 0 <= j < |bins| && bins[j].ptr == p;
        assert bins'[j].ptr == p;
      }
    }
  }

  /** Freeing the block of a slot and marking the slot free. */
  lemma TableClears(gen: Generator, bins: seq<TestBin>, base: map<nat, nat>, live: map<nat, nat>, mem: Memory, idx: nat)
    requires TableOk(gen, bins, 0, base, live, mem) && idx < |bins| && bins[idx].ptr != 0 && 0 !in live
    ensures TableOk(gen, bins[idx := bins[idx].(ptr := 0)], 0, base, live - {bins[idx].ptr}, mem)
  {
    var bins', live' := bins[idx := bins[idx].(ptr := 0)], live - {bins[idx].ptr};
    forall j | 0 <= j < |bins'| ensures SlotOk(gen, bins'[j], base, live', mem) {
      if j != idx { assert SlotOk(gen, bins[j], base, live, mem); }
    }
    forall p | p in live' && p !in base ensures exists j :: 0 <= j < |bins'| && bins'[j].ptr == p {
      var j :| 0 <= j < |bins| && bins[j].ptr == p;
      assert bins'[j].ptr == p;
    }
  }

  /** Freeing the block of the first slot, which is not looked at again. */
  lemma TableAdvances(gen: Generator, bins: seq<TestBin>, lo: nat, base: map<nat, nat>, live: map<nat, nat>,
                      mem: Memory)
    requires TableOk(gen, bins, lo, base, live, mem) && lo < |bins| && 0 !in live
    ensures TableOk(gen, bins, lo + 1, base, if bins[lo].ptr != 0 then live - {bins[lo].ptr} else live, mem)
  {
    var live' := if bins[lo].ptr != 0 then live - {bins[lo].ptr} else live;
    forall j | lo + 1 <= j < |bins| ensures SlotOk(gen, bins[j], base, live', mem) {
      assert SlotOk(gen, bins[j], base, live, mem);
    }
    forall p | p in live' && p !in base ensures exists j :: lo + 1 <= j < |bins| && bins[j].ptr == p {
      var j :| lo <= j < |bins| && bins[j].ptr == p;
      assert j != lo;
    }
  }

  /** The table as the simulation sees it. */
  function SlotOf(bin: TestBin): Slot {
    if bin.ptr == 0 then Free else Used(bin.sz, bin.reincarnation)
  }

  function SlotsOf(bins: seq<TestBin>): seq<Slot> {
    seq(|bins|, i requires 0 <= i < |bins| => SlotOf(bins[i]))
  }

  lemma SlotsOfUpdate(bins: seq<TestBin>, idx: nat, bin: TestBin)
    requires idx < |bins|
    ensures SlotsOf(bins[idx := bin]) == SlotsOf(bins)[idx := SlotOf(bin)] && SlotsOf(bins)[idx] == SlotOf(bins[idx])
  {}

  /** What was seen outstanding and checked before the simulation starts. */
  datatype Past = Past(totals: seq<int>, checks: seq<Check>)

  /** The tester is in state s of the simulation. */
  ghost predicate InState(al: AllocatorUnderTest, bins: seq<TestBin>, s: Sim, past: Past)
    reads al, al.ram
  {
    && SlotsOf(bins) == s.slots && al.liveBytes == s.held
    && al.totals == past.totals + s.fills && al.ram.checks == past.checks + s.checked
  }

  lemma StateFacts(al: AllocatorUnderTest, bins: seq<TestBin>, s: Sim, past: Past)
    requires InState(al, bins, s, past)
    ensures |s.slots| == |bins| && al.liveBytes == s.held && al.totals == past.totals + s.fills
  {}

  lemma FreeTable(al: AllocatorUnderTest, bins: seq<TestBin>, past: Past)
    requires forall j :: 0 <= j < |bins| ==> bins[j].ptr == 0
    requires al.totals == past.totals && al.ram.checks == past.checks
    ensures InState(al, bins, Start(|bins|, al.liveBytes), past)
  {}

  /** Number k of the main generator comes next. */
  ghost predicate At(rng: PRNG, src: Source, k: nat)
    reads rng
  {
    rng.gen == src.gen && rng.seedVal == SeedAfter(src.gen, 0, k)
  }

  // ---------------------------------------------------------------------------------------
  // The run

  datatype Outcome = Unsupported | Done(allocatedAfterSetupSz: nat, allocatedMax: nat)

  /** The main generator (line 293). */
  method NewGenerator(src: Source) returns (rng: PRNG)
    ensures fresh(rng) && At(rng, src, 0)
  {
    rng := new PRNG(src.gen, 0);
  }

  /** A random size (lines 302-303 and 372). */
  method DrawSize(src: Source, rng: PRNG, maxItemSizeExp: nat, ghost k: nat) returns (sz: nat)
    requires 3 <= maxItemSizeExp < 32 && At(rng, src, k)
    modifies rng
    ensures sz == CalcSizeWithStatsAdjustment(Number64(src, k), maxItemSizeExp) && At(rng, src, k + 2)
    ensures 5 <= sz <= Pow2(maxItemSizeExp) && Word32(sz) == sz
  {
    hide CalcSizeWithStatsAdjustment, Pow2;
    var randNumSz := rng.Rng64();
    assert randNumSz == Number64(src, k);
    sz := CalcSizeWithStatsAdjustment(randNumSz, maxItemSizeExp);
    SizeInRange(randNumSz, maxItemSizeExp);
    SizeFits32(randNumSz, maxItemSizeExp);
  }

  method NextWord(src: Source, rng: PRNG, ghost k: nat) returns (w: nat)
    requires At(rng, src, k)
    modifies rng
    ensures w == Number(src, k) && At(rng, src, k + 1)
  {
    w := rng.Rng32();
  }

  /** A slot picked at random (lines 336-338). */
  method PickSlot(src: Source, rng: PRNG, ghost k: nat) returns (idx: nat)
    requires At(rng, src, k)
    modifies rng
    ensures idx == RoundDraw(src, k).slot && At(rng, src, k + 2)
  {
    var rnum1 := rng.Rng32();
    var rnum2 := rng.Rng32();
    idx := src.pick(rnum1, rnum2);
  }

  /** Get a block of random size for a free slot and fill it (lines 302-318 and 372-387). The cast
      of the size to 32 bits loses nothing. */
  method FillSlot(src: Source, rng: PRNG, al: AllocatorUnderTest, baseBuff: array<TestBin>, idx: nat,
                  maxItemSizeExp: nat, reincarnation: nat, ghost base: map<nat, nat>, ghost s: Sim, ghost past: Past,
                  ghost k: nat)
    returns (sz: nat)
    requires al.Valid() && 3 <= maxItemSizeExp < 32 && idx < baseBuff.Length && baseBuff[idx].ptr == 0
    requires TableOk(src.gen, baseBuff[..], 0, base, al.live, al.ram.bytes)
    requires InState(al, baseBuff[..], s, past) && reincarnation == s.next && At(rng, src, k)
    modifies al, al.ram, baseBuff, rng
    ensures al.Valid() && al.liveBytes == old(al.liveBytes) + sz
    ensures TableOk(src.gen, baseBuff[..], 0, base, al.live, al.ram.bytes)
    ensures s.slots[idx].Free?
    ensures InState(al, baseBuff[..], Fill(s, Draw(idx, Number64(src, k)), maxItemSizeExp), past)
    ensures At(rng, src, k + 2)
    ensures baseBuff[idx].sz == sz && 5 <= sz <= Pow2(maxItemSizeExp)
    ensures forall j :: 0 <= j < baseBuff.Length && j != idx ==> baseBuff[j] == old(baseBuff[j])
    ensures Untouched(old(al.ram.bytes), al.ram.bytes, base)
  {
    hide HoldsPattern, CalcSizeWithStatsAdjustment, TableOk, Untouched, Number64, SeedAfter, Word32, Pow2, At, SumOf;
    ghost var bins, live, mem := baseBuff[..], al.live, al.ram.bytes;
    sz := DrawSize(src, rng, maxItemSizeExp, k);
    var ptr := NewFilled(src.gen, al, sz, reincarnation);
    TableKept(src.gen, bins, 0, base, live, mem, al.ram.bytes);
    UntouchedBase(mem, al.ram.bytes, base, live);
    var bin := TestBin(ptr, Word32(sz), reincarnation);
    assert s.slots[idx] == SlotOf(baseBuff[idx]);
    TableGrows(src.gen, bins, base, live, al.ram.bytes, idx, bin);
    SlotsOfUpdate(bins, idx, bin);
    baseBuff[idx] := bin;
    assert baseBuff[..] == bins[idx := bin];
  }

  /** A new block, filled. */
  method NewFilled(gen: Generator, al: AllocatorUnderTest, sz: nat, reincarnation: nat) returns (ptr: nat)
    requires al.Valid()
    modifies al, al.ram`bytes
    ensures al.Valid() && ptr != 0 && ptr !in old(al.live) && al.live == old(al.live)[ptr := sz]
    ensures al.liveBytes == old(al.liveBytes) + sz && al.totals == old(al.totals) + [al.liveBytes]
    ensures HoldsPattern(gen, al.ram.bytes, ptr, sz, SeedOf(ptr, sz, reincarnation))
    ensures Untouched(old(al.ram.bytes), al.ram.bytes, old(al.live))
  {
    ghost var live, mem := al.live, al.ram.bytes;
    ptr := al.Allocate(sz);
    ghost var mem1 := al.ram.bytes;
    assert ptr in al.live && al.live[ptr] == sz;
    assert forall p :: p in live ==> p in al.live && al.live[p] == live[p] && p != ptr;
    FillSegmentWithRandomData(gen, al.ram, ptr, sz, reincarnation);
    OutsideUntouched(mem1, al.ram.bytes, live, ptr, sz);
  }

  lemma OutsideUntouched(mem: Memory, mem': Memory, live: map<nat, nat>, ptr: nat, sz: nat)
    requires SameOutside(mem, mem', ptr, sz) && forall p :: p in live ==> ApartBlocks(p, live[p], ptr, sz)
    ensures Untouched(mem, mem', live)
  {}

  lemma UntouchedBase(mem: Memory, mem': Memory, base: map<nat, nat>, live: map<nat, nat>)
    requires Untouched(mem, mem', live) && forall p :: p in base ==> p in live && live[p] == base[p]
    ensures Untouched(mem, mem', base)
  {}

  lemma UntouchedSame(mem: Memory, live: map<nat, nat>)
    ensures Untouched(mem, mem, live)
  {}

  lemma UntouchedTwice(mem0: Memory, mem1: Memory, mem2: Memory, live: map<nat, nat>)
    requires Untouched(mem0, mem1, live) && Untouched(mem1, mem2, live)
    ensures Untouched(mem0, mem2, live)
  {}

  lemma BaseIsLive(gen: Generator, bins: seq<TestBin>, lo: nat, base: map<nat, nat>, live: map<nat, nat>, mem: Memory)
    requires TableOk(gen, bins, lo, base, live, mem)
    ensures forall p :: p in base ==> p in live && live[p] == base[p]
    ensures lo == |bins| ==> live == base
  {}

  /** Check a block and give it back (lines 342-367 and 409-431). The check fails exactly if the block
      does not hold its data; then nothing is given back. */
  method CheckAndFree(gen: Generator, al: AllocatorUnderTest, bin: TestBin) returns (ok: bool)
    requires al.Valid() && bin.ptr in al.live && al.live[bin.ptr] == bin.sz
    modifies al, al.ram
    ensures al.Valid()
    ensures ok <==> HoldsPattern(gen, old(al.ram.bytes), bin.ptr, bin.sz, SeedOf(bin.ptr, bin.sz, bin.reincarnation))
    ensures al.ram.checks == old(al.ram.checks) + [Check(bin.sz, bin.reincarnation, ok)]
    ensures al.live == if ok then old(al.live) - {bin.ptr} else old(al.live)
    ensures al.liveBytes == if ok then old(al.liveBytes) - bin.sz else old(al.liveBytes)
    ensures al.totals == old(al.totals) && Untouched(old(al.ram.bytes), al.ram.bytes, al.live)
  {
    ok := CheckSegment(gen, al.ram, bin.ptr, bin.sz, bin.reincarnation);
    if ok { al.Deallocate(bin.ptr); }
  }

  /** The block of a slot holds its data. */
  lemma SlotHolds(gen: Generator, bins: seq<TestBin>, lo: nat, base: map<nat, nat>, live: map<nat, nat>, mem: Memory,
                  idx: nat)
    requires TableOk(gen, bins, lo, base, live, mem) && lo <= idx < |bins| && bins[idx].ptr != 0
    ensures var bin := bins[idx];
            && bin.ptr in live && live[bin.ptr] == bin.sz && bin.ptr !in base
            && HoldsPattern(gen, mem, bin.ptr, bin.sz, SeedOf(bin.ptr, bin.sz, bin.reincarnation))
  {
    assert SlotOk(gen, bins[idx], base, live, mem);
  }

  /** One round of the main loop on a slot in use: the check does not fail. */
  method EmptySlot(gen: Generator, al: AllocatorUnderTest, baseBuff: array<TestBin>, idx: nat,
                   ghost base: map<nat, nat>, ghost s: Sim, ghost past: Past)
    returns (ok: bool)
    requires al.Valid() && idx < baseBuff.Length && baseBuff[idx].ptr != 0
    requires TableOk(gen, baseBuff[..], 0, base, al.live, al.ram.bytes)
    requires InState(al, baseBuff[..], s, past)
    modifies al, al.ram, baseBuff
    ensures ok && al.Valid()
    ensures TableOk(gen, baseBuff[..], 0, base, al.live, al.ram.bytes)
    ensures s.slots[idx].Used? && InState(al, baseBuff[..], Clear(s, idx), past)
    ensures Untouched(old(al.ram.bytes), al.ram.bytes, base)
  {
    hide HoldsPattern;
    ghost var bins, live, mem := baseBuff[..], al.live, al.ram.bytes;
    SlotHolds(gen, bins, 0, base, live, mem, idx);
    ok := CheckAndFree(gen, al, baseBuff[idx]);
    if !ok { return; }
    TableClears(gen, bins, base, live, mem, idx);
    TableKept(gen, bins[idx := bins[idx].(ptr := 0)], 0, base, al.live, mem, al.ram.bytes);
    SlotsOfUpdate(bins, idx, bins[idx].(ptr := 0));
    baseBuff[idx] := baseBuff[idx].(ptr := 0);
    assert baseBuff[..] == bins[idx := bins[idx].(ptr := 0)];
    UntouchedBase(mem, al.ram.bytes, base, al.live);
  }

  /** The setup loops (lines 295-324): one bit drawn for each slot, and a block for those whose bit is
      set. Every slot is met at most once, so it is free. */
  method Setup(src: Source, rng: PRNG, al: AllocatorUnderTest, baseBuff: array<TestBin>, maxItemSizeExp: nat,
               allocatedSz0: nat, ghost base: map<nat, nat>, ghost past: Past)
    returns (allocatedSz: nat, reincarnation: nat)
    requires al.Valid() && 3 <= maxItemSizeExp < 32
    requires TableOk(src.gen, baseBuff[..], 0, base, al.live, al.ram.bytes)
    requires forall j :: 0 <= j < baseBuff.Length ==> baseBuff[j].ptr == 0
    requires al.totals == past.totals && al.ram.checks == past.checks && At(rng, src, 0)
    modifies al, al.ram, baseBuff, rng
    ensures al.Valid() && TableOk(src.gen, baseBuff[..], 0, base, al.live, al.ram.bytes)
    ensures var s := AfterSetup(src, baseBuff.Length, old(al.liveBytes), maxItemSizeExp);
            && InState(al, baseBuff[..], s, past) && reincarnation == s.next
            && al.liveBytes == LastOf(old(al.liveBytes), s.fills)
    ensures al.liveBytes == old(al.liveBytes) + allocatedSz - allocatedSz0
    ensures At(rng, src, SetupPos(baseBuff.Length / 32, SetupDraws(src, baseBuff.Length / 32)))
    ensures Untouched(old(al.ram.bytes), al.ram.bytes, base)
  {
    hide TableOk, Untouched, SimRounds, InState, At, Number64, SumOf, Fill, SetupDraws, WordDraws, Pow2;
    hide AllocatorUnderTest.Valid;
    UntouchedSame(al.ram.bytes, base);
    allocatedSz, reincarnation := allocatedSz0, 0;
    ghost var start, draws := Start(baseBuff.Length, al.liveBytes), [];
    ghost var s := start;
    NothingDrawn(src, start, maxItemSizeExp);
    FreeTable(al, baseBuff[..], past);
    for i := 0 to baseBuff.Length / 32
      invariant al.Valid() && TableOk(src.gen, baseBuff[..], 0, base, al.live, al.ram.bytes)
      invariant al.liveBytes == old(al.liveBytes) + allocatedSz - allocatedSz0
      invariant draws == SetupDraws(src, i) && At(rng, src, SetupPos(i, draws))
      invariant s == SimRounds(start, draws, maxItemSizeExp)
      invariant InState(al, baseBuff[..], s, past) && reincarnation == s.next
      invariant al.liveBytes == LastOf(old(al.liveBytes), s.fills)
      invariant Untouched(old(al.ram.bytes), al.ram.bytes, base)
      invariant forall k :: i * 32 <= k < baseBuff.Length ==> baseBuff[k].ptr == 0
    {
      var randNum := NextWord(src, rng, SetupPos(i, draws));
      ghost var k, before := SetupPos(i, draws) + 1, draws;
      NoBitsYet(src, randNum, 32 * i, k);
      for j := 0 to 32
        invariant al.Valid() && TableOk(src.gen, baseBuff[..], 0, base, al.live, al.ram.bytes)
        invariant al.liveBytes == old(al.liveBytes) + allocatedSz - allocatedSz0
        invariant draws == before + WordDraws(src, randNum, 32 * i, j, k)
        invariant At(rng, src, SetupPos(i, draws) + 1)
        invariant s == SimRounds(start, draws, maxItemSizeExp)
        invariant InState(al, baseBuff[..], s, past) && reincarnation == s.next
        invariant al.liveBytes == LastOf(old(al.liveBytes), s.fills)
        invariant Untouched(old(al.ram.bytes), al.ram.bytes, base)
        invariant forall k :: i * 32 + j <= k < baseBuff.Length ==> baseBuff[k].ptr == 0
      {
        if randNum / Pow2(j) % 2 == 1 {
          ghost var mem, pos := al.ram.bytes, SetupPos(i, draws) + 1;
          var sz := FillSlot(src, rng, al, baseBuff, i * 32 + j, maxItemSizeExp, reincarnation, base, s, past, pos);
          UntouchedTwice(old(al.ram.bytes), mem, al.ram.bytes, base);
          ghost var d := Draw(i * 32 + j, Number64(src, pos));
          StateFacts(al, baseBuff[..], Fill(s, d, maxItemSizeExp), past);
          SimSnoc(start, draws, d, maxItemSizeExp);
          FillFacts(s, d, maxItemSizeExp);
          s, draws := Fill(s, d, maxItemSizeExp), draws + [d];
          reincarnation := (reincarnation + 1) % 0x1_0000_0000;
          allocatedSz := allocatedSz + sz;
        }
        NextBit(src, randNum, 32 * i, j, k);
      }
      NextGroup(src, i);
    }
  }

  /** The last of the totals, `first` if there is none. */
  function LastOf(first: int, totals: seq<int>): int {
    if totals == [] then first else totals[|totals| - 1]
  }

  /** What of a total the tester itself holds, `before` being held before it started. */
  function Outstanding(before: nat, total: int): nat {
    if before <= total then total - before else 0
  }

  function Max(a: nat, b: nat): nat {
    if a < b then b else a
  }

  /** The most the tester held after any of these allocations, 0 if there is none. */
  function MostOutstanding(before: nat, totals: seq<int>): (r: nat)
    ensures forall i :: 0 <= i < |totals| ==> Outstanding(before, totals[i]) <= r
    ensures r == 0 || exists i :: 0 <= i < |totals| && r == Outstanding(before, totals[i])
  {
    if totals == [] then 0
    else Max(MostOutstanding(before, totals[..|totals| - 1]), Outstanding(before, totals[|totals| - 1]))
  }

  /** One round of the main loop (lines 337-396): a slot in use is checked and freed, a free one
      filled. allocatedSz stays the number of bytes the tester has outstanding. */
  method Round(src: Source, rng: PRNG, al: AllocatorUnderTest, baseBuff: array<TestBin>, idx: nat,
               maxItemSizeExp: nat, allocatedSz: nat, allocatedSzMax: nat, reincarnation: nat,
               ghost base: map<nat, nat>, ghost before: nat, ghost s: Sim, ghost past: Past, ghost k: nat)
    returns (allocatedSz': nat, allocatedSzMax': nat, reincarnation': nat)
    requires al.Valid() && 3 <= maxItemSizeExp < 32 && idx < baseBuff.Length
    requires TableOk(src.gen, baseBuff[..], 0, base, al.live, al.ram.bytes)
    requires al.liveBytes == before + allocatedSz && before <= SumOf(base)
    requires InState(al, baseBuff[..], s, past) && reincarnation == s.next && At(rng, src, k)
    modifies al, al.ram, baseBuff, rng
    ensures al.Valid() && TableOk(src.gen, baseBuff[..], 0, base, al.live, al.ram.bytes)
    ensures al.liveBytes == before + allocatedSz'
    ensures Untouched(old(al.ram.bytes), al.ram.bytes, base)
    ensures var s' := SimRound(s, Draw(idx, Number64(src, k)), maxItemSizeExp);
            && InState(al, baseBuff[..], s', past) && reincarnation' == s'.next
    ensures At(rng, src, if s.slots[idx].Used? then k else k + 2)
    ensures allocatedSzMax' == if s.slots[idx].Used? then allocatedSzMax else Max(allocatedSzMax, allocatedSz')
    ensures before + allocatedSz' == SimRound(s, Draw(idx, Number64(src, k)), maxItemSizeExp).held
  {
    hide TableOk, Untouched, CalcSizeWithStatsAdjustment, Number64, SeedAfter, HoldsPattern;
    allocatedSz', allocatedSzMax', reincarnation' := allocatedSz, allocatedSzMax, reincarnation;
    assert s.slots[idx] == SlotOf(baseBuff[idx]);
    if baseBuff[idx].ptr != 0 {
      BaseIsLess(src.gen, baseBuff[..], base, al.live, al.ram.bytes, idx);
      allocatedSz' := allocatedSz - baseBuff[idx].sz;
      var ok := EmptySlot(src.gen, al, baseBuff, idx, base, s, past);
      assert ok;
    } else {
      var sz := FillSlot(src, rng, al, baseBuff, idx, maxItemSizeExp, reincarnation, base, s, past, k);
      reincarnation' := (reincarnation + 1) % 0x1_0000_0000;
      allocatedSz' := allocatedSz + sz;
      if allocatedSzMax < allocatedSz' { allocatedSzMax' := allocatedSz'; }
    }
  }

  /** The bytes of a slot in use come on top of those of the base. */
  lemma BaseIsLess(gen: Generator, bins: seq<TestBin>, base: map<nat, nat>, live: map<nat, nat>, mem: Memory, idx: nat)
    requires TableOk(gen, bins, 0, base, live, mem) && idx < |bins| && bins[idx].ptr != 0
    ensures SumOf(base) + bins[idx].sz <= SumOf(live)
  {
    assert SlotOk(gen, bins[idx], base, live, mem);
    SumRemove(live, bins[idx].ptr);
    SumSplit(live - {bins[idx].ptr}, base.Keys);
    assert (live - {bins[idx].ptr}) - ((live - {bins[idx].ptr}).Keys - base.Keys) == base;
  }

  /** The main loop: 32 times iterCount / 32 rounds on slots picked at random, no more and no less. */
  method MainLoop(src: Source, rng: PRNG, al: AllocatorUnderTest, baseBuff: array<TestBin>, iterCount: nat,
                  maxItemSizeExp: nat, allocatedSz0: nat, reincarnation0: nat, ghost base: map<nat, nat>,
                  ghost before: nat, ghost s: Sim, ghost past: Past, ghost k: nat)
    returns (allocatedMax: nat)
    requires al.Valid() && 3 <= maxItemSizeExp < 32 && (iterCount / 32 > 0 ==> PicksBelow(src, baseBuff.Length))
    requires TableOk(src.gen, baseBuff[..], 0, base, al.live, al.ram.bytes)
    requires al.liveBytes == before + allocatedSz0 && before <= SumOf(base)
    requires InState(al, baseBuff[..], s, past) && reincarnation0 == s.next && s.fills == [] && At(rng, src, k)
    modifies al, al.ram, baseBuff, rng
    ensures al.Valid() && TableOk(src.gen, baseBuff[..], 0, base, al.live, al.ram.bytes)
    ensures Untouched(old(al.ram.bytes), al.ram.bytes, base)
    ensures var draws := MainDraws(src, s, k, 32 * (iterCount / 32), maxItemSizeExp);
            var s' := SimRounds(s, draws, maxItemSizeExp);
            InState(al, baseBuff[..], s', past) && allocatedMax == MostOutstanding(before, s'.fills)
  {
    hide TableOk, Untouched, SimRounds, SimRound, MainDraws, MostOutstanding, InState, At, Number64, SumOf;
    hide AllocatorUnderTest.Valid;
    UntouchedSame(al.ram.bytes, base);
    StateFacts(al, baseBuff[..], s, past);
    var allocatedSz, reincarnation := allocatedSz0, reincarnation0;
    allocatedMax := 0;
    ghost var n, rounds, q := iterCount / 32, 0, s;
    NoRounds(src, s, k, maxItemSizeExp);
    for i := 0 to 32
      invariant rounds == n * i
      invariant al.Valid() && TableOk(src.gen, baseBuff[..], 0, base, al.live, al.ram.bytes)
      invariant al.liveBytes == before + allocatedSz
      invariant q == SimRounds(s, MainDraws(src, s, k, rounds, maxItemSizeExp), maxItemSizeExp)
      invariant InState(al, baseBuff[..], q, past) && reincarnation == q.next
      invariant MainPos(s, q, k, rounds) >= 0 && At(rng, src, MainPos(s, q, k, rounds))
      invariant allocatedMax == MostOutstanding(before, q.fills)
      invariant Untouched(old(al.ram.bytes), al.ram.bytes, base)
    {
      for j := 0 to iterCount / 32
        invariant rounds == n * i + j
        invariant al.Valid() && TableOk(src.gen, baseBuff[..], 0, base, al.live, al.ram.bytes)
        invariant al.liveBytes == before + allocatedSz
        invariant q == SimRounds(s, MainDraws(src, s, k, rounds, maxItemSizeExp), maxItemSizeExp)
        invariant InState(al, baseBuff[..], q, past) && reincarnation == q.next
        invariant MainPos(s, q, k, rounds) >= 0 && At(rng, src, MainPos(s, q, k, rounds))
        invariant allocatedMax == MostOutstanding(before, q.fills)
        invariant Untouched(old(al.ram.bytes), al.ram.bytes, base)
      {
        ghost var mem, pos := al.ram.bytes, MainPos(s, q, k, rounds);
        var idx := PickSlot(src, rng, pos);
        allocatedSz, allocatedMax, reincarnation :=
          Round(src, rng, al, baseBuff, idx, maxItemSizeExp, allocatedSz, allocatedMax, reincarnation, base, before, q,
                past, pos + 2);
        UntouchedTwice(old(al.ram.bytes), mem, al.ram.bytes, base);
        RoundAdvances(src, s, k, rounds, maxItemSizeExp);
        MoreOutstanding(before, q, RoundDraw(src, pos), maxItemSizeExp);
        q, rounds := SimRound(q, RoundDraw(src, pos), maxItemSizeExp), rounds + 1;
      }
    }
  }

  lemma MoreOutstanding(before: nat, q: Sim, d: Draw, maxItemSizeExp: nat)
    requires d.slot < |q.slots| && maxItemSizeExp >= 3
    ensures var q' := SimRound(q, d, maxItemSizeExp);
            MostOutstanding(before, q'.fills) ==
            if q.slots[d.slot].Used? then MostOutstanding(before, q.fills)
            else Max(MostOutstanding(before, q.fills), Outstanding(before, q'.held))
  {
    hide CalcSizeWithStatsAdjustment;
    var q' := SimRound(q, d, maxItemSizeExp);
    assert q'.fills != q.fills ==> q'.fills[..|q'.fills| - 1] == q.fills;
  }

  /** The exit loop (lines 406-432): what is left is checked and freed, slot by slot. */
  method FreeAll(gen: Generator, al: AllocatorUnderTest, baseBuff: array<TestBin>, ghost base: map<nat, nat>)
    requires al.Valid() && TableOk(gen, baseBuff[..], 0, base, al.live, al.ram.bytes)
    modifies al, al.ram
    ensures al.Valid() && al.live == base && al.totals == old(al.totals)
    ensures al.ram.checks == old(al.ram.checks) + Rest(SlotsOf(baseBuff[..]))
    ensures Untouched(old(al.ram.bytes), al.ram.bytes, base)
  {
    hide TableOk, Untouched, HoldsPattern, SeedOf, SumOf;
    UntouchedSame(al.ram.bytes, base);
    ghost var slots := SlotsOf(baseBuff[..]);
    for idx := 0 to baseBuff.Length
      invariant al.Valid() && TableOk(gen, baseBuff[..], idx, base, al.live, al.ram.bytes)
      invariant al.totals == old(al.totals) && al.ram.checks == old(al.ram.checks) + Rest(slots[..idx])
      invariant Untouched(old(al.ram.bytes), al.ram.bytes, base)
    {
      ghost var live, mem := al.live, al.ram.bytes;
      TableAdvances(gen, baseBuff[..], idx, base, live, mem);
      assert slots[..idx + 1][..idx] == slots[..idx];
      if baseBuff[idx].ptr != 0 {
        SlotHolds(gen, baseBuff[..], idx, base, live, mem, idx);
        var ok := CheckAndFree(gen, al, baseBuff[idx]);
        assert ok;
        TableKept(gen, baseBuff[..], idx + 1, base, al.live, mem, al.ram.bytes);
        BaseIsLive(gen, baseBuff[..], idx + 1, base, al.live, al.ram.bytes);
        UntouchedBase(mem, al.ram.bytes, base, al.live);
        UntouchedTwice(old(al.ram.bytes), mem, al.ram.bytes, base);
      }
    }
    assert slots[..baseBuff.Length] == slots;
    BaseIsLive(gen, baseBuff[..], baseBuff.Length, base, al.live, al.ram.bytes);
  }

  /** What the tester reports, in terms of what the allocator saw: `setup` and `main` are the totals
      after the allocations of the setup and of the main loop, `table` the one after that of the table. */
  ghost predicate Reported(r: Outcome, before: nat, table: nat, setup: seq<int>, main: seq<int>) {
    && r.Done?
    && r.allocatedAfterSetupSz == Outstanding(before, LastOf(table, setup))
    && r.allocatedMax == MostOutstanding(before, main)
  }

  /** Of a whole run with n slots: the rounds made, the totals seen and the checks made. */
  ghost predicate Ran(al: AllocatorUnderTest, src: Source, n: nat, rounds: nat, maxItemSizeExp: nat, r: Outcome,
                      before: nat, past: Past)
    requires maxItemSizeExp >= 3 && (rounds > 0 ==> PicksBelow(src, n))
    reads al, al.ram
  {
    var table := before + n * TEST_BIN_SIZE;
    var s := AfterSetup(src, n, table, maxItemSizeExp);
    var q := AfterRounds(src, n, table, rounds, maxItemSizeExp);
    && Reported(r, before, table, s.fills, q.fills)
    && al.totals == past.totals + [table] + s.fills + q.fills
    && al.ram.checks == past.checks + q.checked + Rest(q.slots)
  }

  /** What the tester reports with its own generator, however many rounds it makes: the bytes of the
      table, and 5 more as the maximum if there is a round at all. */
  lemma OwnOutcome(src: Source, n: nat, rounds: nat, maxItemSizeExp: nat, r: Outcome, before: nat, table: nat)
    requires src.gen == XORSHIFT && maxItemSizeExp >= 3 && (rounds > 0 ==> PicksBelow(src, n))
    requires table == before + n * TEST_BIN_SIZE
    requires Reported(r, before, table, AfterSetup(src, n, table, maxItemSizeExp).fills,
                      AfterRounds(src, n, table, rounds, maxItemSizeExp).fills)
    ensures r == Done(n * TEST_BIN_SIZE, if rounds > 0 then n * TEST_BIN_SIZE + 5 else 0)
  {
    OwnGenerator(src, n, table, rounds, maxItemSizeExp);
    hide AfterSetup, AfterRounds;
    var main := AfterRounds(src, n, table, rounds, maxItemSizeExp).fills;
    if rounds > 0 { assert Outstanding(before, main[0]) <= MostOutstanding(before, main); }
  }

  /** Setup, main loop and exit on an empty slot table. */
  method RunOnTable(src: Source, al: AllocatorUnderTest, iterCount: nat, maxItems: nat, maxItemSizeExp: nat,
                    ghost before: nat, ghost past: Past)
    returns (outcome: Outcome)
    requires al.Valid() && 3 <= maxItemSizeExp < 32 && (iterCount / 32 > 0 ==> PicksBelow(src, maxItems))
    requires al.liveBytes == before + maxItems * TEST_BIN_SIZE
    requires al.totals == past.totals + [al.liveBytes] && al.ram.checks == past.checks
    modifies al, al.ram
    ensures al.Valid() && al.live == old(al.live)
    ensures Untouched(old(al.ram.bytes), al.ram.bytes, al.live)
    ensures Ran(al, src, maxItems, 32 * (iterCount / 32), maxItemSizeExp, outcome, before, past)
  {
    hide Untouched, TableOk, SimRounds, MainDraws, SetupDraws, At, MostOutstanding, Rest, LastOf, SumOf;
    var baseBuff := new TestBin[maxItems](_ => TestBin(0, 0, 0));
    var rng := NewGenerator(src);
    ghost var base, table := al.live, al.liveBytes;
    EmptyTable(src.gen, baseBuff[..], base, al.ram.bytes);
    ghost var past1 := Past(al.totals, al.ram.checks);
    var allocatedSz, reincarnation := Setup(src, rng, al, baseBuff, maxItemSizeExp, maxItems * TEST_BIN_SIZE, base,
                                            past1);
    ghost var s, k := AfterSetup(src, maxItems, table, maxItemSizeExp),
                      SetupPos(maxItems / 32, SetupDraws(src, maxItems / 32));
    ghost var mem := al.ram.bytes;
    var allocatedMax := MainLoop(src, rng, al, baseBuff, iterCount, maxItemSizeExp, allocatedSz, reincarnation, base,
                                 before, s.(fills := []), Past(past1.totals + s.fills, past1.checks), k);
    UntouchedTwice(old(al.ram.bytes), mem, al.ram.bytes, base);
    mem := al.ram.bytes;
    FreeAll(src.gen, al, baseBuff, base);
    UntouchedTwice(old(al.ram.bytes), mem, al.ram.bytes, base);
    outcome := Done(allocatedSz, allocatedMax);
  }

  lemma EmptyTable(gen: Generator, bins: seq<TestBin>, live: map<nat, nat>, mem: Memory)
    requires forall j :: 0 <= j < |bins| ==> bins[j].ptr == 0
    ensures TableOk(gen, bins, 0, live, live, mem)
  {}

  /** randomPos_RandomSize in check mode. Whatever the random numbers and whatever addresses the
      allocator picks: no check fails, every block is given back exactly once, blocks that were live
      before keep their bytes, the rounds are those the random numbers stand for, and the sizes reported
      are those the allocator saw outstanding. */
  method RandomPosRandomSize(src: Source, al: AllocatorUnderTest, iterCount: nat, maxItems: nat, maxItemSizeExp: nat)
    returns (outcome: Outcome)
    requires al.Valid() && maxItemSizeExp >= 3 && maxItems < 0x1_0000_0000
    requires iterCount / 32 > 0 ==> PicksBelow(src, maxItems)
    modifies al, al.ram
    ensures al.Valid() && al.live == old(al.live)
    ensures Untouched(old(al.ram.bytes), al.ram.bytes, al.live)
    ensures outcome.Unsupported? <==> maxItemSizeExp >= 32
    ensures outcome.Unsupported? ==> al.totals == old(al.totals) && al.ram.checks == old(al.ram.checks)
    ensures outcome.Done? ==>
              Ran(al, src, maxItems, 32 * (iterCount / 32), maxItemSizeExp, outcome, old(al.liveBytes),
                  Past(old(al.totals), old(al.ram.checks)))
  {
    if maxItemSizeExp >= 32 {
      UntouchedSame(al.ram.bytes, al.live);
      return Unsupported;
    }
    outcome := RunWithTable(src, al, iterCount, maxItems, maxItemSizeExp);
  }

  /** The block for the slot table around it. */
  method RunWithTable(src: Source, al: AllocatorUnderTest, iterCount: nat, maxItems: nat, maxItemSizeExp: nat)
    returns (outcome: Outcome)
    requires al.Valid() && 3 <= maxItemSizeExp < 32 && (iterCount / 32 > 0 ==> PicksBelow(src, maxItems))
    modifies al, al.ram
    ensures al.Valid() && al.live == old(al.live) && outcome.Done?
    ensures Untouched(old(al.ram.bytes), al.ram.bytes, al.live)
    ensures Ran(al, src, maxItems, 32 * (iterCount / 32), maxItemSizeExp, outcome, old(al.liveBytes),
                Past(old(al.totals), old(al.ram.checks)))
  {
    hide AfterSetup, AfterRounds, MostOutstanding;
    ghost var live0, mem0, before, past := al.live, al.ram.bytes, al.liveBytes, Past(al.totals, al.ram.checks);
    var tableSz := maxItems * TEST_BIN_SIZE;
    var basePtr := al.Allocate(tableSz);
    TableBlock(live0, basePtr, tableSz);
    ghost var mem1, base := al.ram.bytes, al.live;
    outcome := RunOnTable(src, al, iterCount, maxItems, maxItemSizeExp, before, past);
    ghost var mem2 := al.ram.bytes;
    UntouchedBase(mem1, mem2, live0, base);
    al.Deallocate(basePtr);
    UntouchedTwice(mem0, mem1, mem2, live0);
    UntouchedTwice(mem0, mem2, al.ram.bytes, live0);
  }

  lemma TableBlock(live: map<nat, nat>, ptr: nat, sz: nat)
    requires ptr !in live
    ensures live[ptr := sz] - {ptr} == live
  {}
}
