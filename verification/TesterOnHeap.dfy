/** The allocator meets what the tester relies on: seen as an allocator of byte blocks, every step of
    the heap is one that AllocatorTester allows (src/iibmalloc/iibmalloc.h:1111-1195). */
module TesterOnHeap {
  import opened Arith
  import opened FreeItems
  import opened SizeClasses
  import opened VirtualMemoryModel
  import opened Regions
  import opened HeapSpec
  import opened HeapItems
  import opened HeapBulk
  import opened HeapRuns
  import opened SegmentCheck
  import B = BulkSpec
  import BulkFrame
  import P = PagerSpec
  import T = AllocatorTester

  /** The bytes written with a header: those of the back-link alone, or all of them. */
  function HeaderBytes(hdr: map<nat, B.Header>, hdr': map<nat, B.Header>, x: nat): nat {
    if x in hdr && x in hdr' && hdr'[x] == hdr[x].(prev := hdr'[x].prev) then 8 else BulkFrame.HEADER_SIZE
  }

  ghost predicate ByteWritten(h: Heap, h': Heap, a: nat) {
    || (exists x: nat :: WordWritten(h.link, h'.link, x) && x <= a < x + 8)
    || (exists x: nat ::
          BulkFrame.Written(h.bulk.hdr, h'.bulk.hdr, x) && x <= a < x + HeaderBytes(h.bulk.hdr, h'.bulk.hdr, x))
  }

  ghost predicate InOwned(c: Config, h: Heap, l: B.Ledger, a: nat) {
    exists r :: r in AllRegions(c, h, l) && r.start <= a < r.start + r.size
  }

  /** The bytes of memory before and after a step: in the regions the allocator has afterwards, only
      those that the step writes with a word or a header may differ. */
  ghost predicate Wrote(c: Config, h: Heap, h': Heap, l': B.Ledger, mem: Memory, mem': Memory) {
    forall a :: a in mem && InOwned(c, h', l', a) && !ByteWritten(h, h', a) ==> a in mem' && mem'[a] == mem[a]
  }

  /** To the tester, whose blocks are what the clients asked for, a call looks as it expects. */
  ghost predicate ServesTester(c: Config, m: Machine, op: Op, mem: Memory, mem': Memory)
    requires CanStep(c, m, op)
  {
    var m' := Step(c, m, op);
    match op
    case Alloc(sz, osPage, osBulk) =>
      var ptr := Allocate(c, m.h, sz, osPage, osBulk).1;
      T.Grants(m.asked, mem, ptr, sz, m'.asked, mem')
    case Free(ptr) => ptr != 0 ==> T.TakesBack(m.asked, mem, ptr, m'.asked, mem')
    case WriteItem(_, _) => true
    case WriteChunk(_, _, _) => true
  }

  /** No byte of what is held is written. */
  lemma HeldNotWritten(h: Heap, h': Heap, cl: Client, p: nat, a: nat)
    requires Kept(h, h', cl) && Holds(cl, p) && p <= a < p + Owns(cl, p)
    ensures !ByteWritten(h, h', a)
  {
    forall x: nat | WordWritten(h.link, h'.link, x) ensures !(x <= a < x + 8) {
      WordAway(h, h', cl, p, x);
    }
    forall x: nat | BulkFrame.Written(h.bulk.hdr, h'.bulk.hdr, x)
      ensures !(x <= a < x + HeaderBytes(h.bulk.hdr, h'.bulk.hdr, x))
    {
      HeaderAway(h, h', cl, p, x);
    }
  }

  lemma WordAway(h: Heap, h': Heap, cl: Client, p: nat, x: nat)
    requires Kept(h, h', cl) && Holds(cl, p) && WordWritten(h.link, h'.link, x)
    ensures Owns(cl, p) > 0 ==> WordMisses(x, p, Owns(cl, p))
  {}

  lemma HeaderAway(h: Heap, h': Heap, cl: Client, p: nat, x: nat)
    requires Kept(h, h', cl) && Holds(cl, p) && BulkFrame.Written(h.bulk.hdr, h'.bulk.hdr, x)
    ensures Owns(cl, p) > 0 ==> x + HeaderBytes(h.bulk.hdr, h'.bulk.hdr, x) <= p || p + Owns(cl, p) <= x
  {}

  /** Every byte of what is held lies in a region of the allocator. */
  lemma HeldInOwned(c: Config, h: Heap, cl: Client, b: Book, p: nat, a: nat)
    requires Inv(c, h, cl, b) && Holds(cl, p) && p <= a < p + Owns(cl, p)
    ensures InOwned(c, h, cl.ledger, a)
  {
    hide B.Inv;
    if p in cl.small {
      var s := b.home[p];
      ItemInSegment(c, h.pages, p, s);
      var j := ByteOfSegment(c, h.pages, s, a);
      assert Region(h.pages.blocks[j].addr, c.g.ReservationSize()) in ReservationsOf(c.g, h.pages);
    } else {
      var r := ChunkRegion(c, h, cl, b, p - MEM_FORBIDDEN);
      assert r in AllRegions(c, h, cl.ledger);
    }
  }

  /** Blocks that somebody holds before and after a step keep their bytes. */
  lemma HeldUntouched(c: Config, h: Heap, h': Heap, cl: Client, cl': Client, b': Book, live: map<nat, nat>,
                      mem: Memory, mem': Memory)
    requires Inv(c, h', cl', b') && Kept(h, h', cl) && Wrote(c, h, h', cl'.ledger, mem, mem')
    requires forall p :: p in live ==> Holds(cl, p) && Holds(cl', p) && live[p] <= Owns(cl, p) == Owns(cl', p)
    ensures T.Untouched(mem, mem', live)
  {
    forall p, a | p in live && p <= a < p + live[p] && a in mem ensures a in mem' && mem'[a] == mem[a] {
      HeldNotWritten(h, h', cl, p, a);
      HeldInOwned(c, h', cl', b', p, a);
    }
  }

  lemma BlocksDisjoint(c: Config, m: Machine)
    requires Ok(c, m)
    ensures T.DisjointBlocks(m.asked)
  {
    OkIsSafe(c, m);
    forall p, q | p in m.asked && q in m.asked && p != q ensures T.ApartBlocks(p, m.asked[p], q, m.asked[q]) {
      assert ApartBytes(p, m.asked[p], q, m.asked[q]);
    }
  }

  lemma AllocServes(c: Config, m: Machine, sz: nat, osPage: nat, osBulk: nat, mem: Memory, mem': Memory)
    requires Ok(c, m) && Legal(c, m, Alloc(sz, osPage, osBulk))
    ensures CanStep(c, m, Alloc(sz, osPage, osBulk))
    ensures var m' := Step(c, m, Alloc(sz, osPage, osBulk));
            Wrote(c, m.h, m'.h, m'.cl.ledger, mem, mem') ==> ServesTester(c, m, Alloc(sz, osPage, osBulk), mem, mem')
  {
    hide B.Inv;
    var b :| Inv(c, m.h, m.cl, b);
    AllocStep(c, m, sz, osPage, osBulk);
    var m' := Step(c, m, Alloc(sz, osPage, osBulk));
    var b' :| Inv(c, m'.h, m'.cl, b');
    BlocksDisjoint(c, m');
    var b1 := AllocateKeeps(c, m.h, m.cl, b, sz, osPage, osBulk);
    GrantFits(c, m.cl, sz, Allocate(c, m.h, sz, osPage, osBulk).1);
    if Wrote(c, m.h, m'.h, m'.cl.ledger, mem, mem') {
      HeldUntouched(c, m.h, m'.h, m.cl, m'.cl, b', m.asked, mem, mem');
    }
  }

  lemma FreeServes(c: Config, m: Machine, ptr: nat, mem: Memory, mem': Memory)
    requires Ok(c, m) && ptr in m.asked && NoHazard(c, m, Free(ptr))
    ensures CanStep(c, m, Free(ptr))
    ensures var m' := Step(c, m, Free(ptr));
            Wrote(c, m.h, m'.h, m'.cl.ledger, mem, mem') ==> ServesTester(c, m, Free(ptr), mem, mem')
  {
    BlocksDisjoint(c, m);
    FreeStep(c, m, ptr);
    var m' := Step(c, m, Free(ptr));
    var b' :| Inv(c, m'.h, m'.cl, b');
    BlocksDisjoint(c, m');
    if Wrote(c, m.h, m'.h, m'.cl.ledger, mem, mem') {
      HeldUntouched(c, m.h, m'.h, m'.cl, m'.cl, b', m'.asked, mem, mem');
    }
  }

  /** In every run the calls of the allocator are calls of an allocator the tester can rely on: blocks
      at new addresses, disjoint and not null, and no byte of a live block changes. */
  lemma RunServesTester(c: Config, ms: seq<Machine>, ops: seq<Op>, n: nat, mem: Memory, mem': Memory)
    requires c.Valid() && IsRun(c, ms, ops) && n < |ops|
    ensures CanStep(c, ms[n], ops[n]) && ms[n + 1] == Step(c, ms[n], ops[n])
    ensures Wrote(c, ms[n].h, ms[n + 1].h, ms[n + 1].cl.ledger, mem, mem') ==> ServesTester(c, ms[n], ops[n], mem, mem')
  {
    RunOk(c, ms, ops, n);
    StepKeeps(c, ms[n], ops[n]);
    match ops[n] {
      case Alloc(sz, osPage, osBulk) => AllocServes(c, ms[n], sz, osPage, osBulk, mem, mem');
      case Free(ptr) => if ptr != 0 { FreeServes(c, ms[n], ptr, mem, mem'); }
      case WriteItem(_, _) =>
      case WriteChunk(_, _, _) =>
    }
  }
}
