/** The BulkAllocator class over raw memory (src/iibmalloc/iibmalloc.h:439-764), proved to take
    exactly the steps of BulkSpec and never to fail one of its asserts. */
module BulkAllocatorClass {
  import opened Arith
  import opened Lists
  import opened BulkSpec
  import opened BulkLists
  import opened BulkTiling
  import opened BulkSteps
  import opened ChunkHeader
  import opened VirtualMemoryModel
  import opened Regions

  class BulkAllocator {
    const p: Params
    /** Whether the three missing updates are made. */
    const repaired: bool
    const os: VirtualMemory
    const freeListBegin: array<nat>
    /** Memory, at the page starts where headers are written. */
    var mem: map<nat, RawHeader>
    /** The recorded blocks; CollectionInPages is modelled on its own. */
    var blocks: seq<nat>
    /** What the clients hold, and the proof's bookkeeping. */
    ghost var ledger: Ledger
    ghost var book: Book

    ghost function State(): Bulk
      reads this`mem, this`blocks, freeListBegin
    {
      Bulk(Headers(mem), freeListBegin[..], blocks)
    }

    /** The regions this allocator got from the operating system. */
    ghost function Owned(): set<Region>
      reads this`blocks, this`ledger
    {
      RegionsOf(p, blocks, ledger.large)
    }

    ghost predicate Valid()
      reads this, freeListBegin, os
    {
      && freeListBegin.Length == p.maxPages + 1
      && os.Valid()
      && Inv(p, repaired, State(), ledger, book)
      && Owned() <= os.regions
    }

    /** What others do with other regions does not matter here. */
    twostate lemma StillValid()
      requires old(Valid()) && unchanged(this) && unchanged(freeListBegin)
      requires os.Valid() && Owned() <= os.regions
      ensures Valid()
    {
      assert State() == old(State());
    }

    constructor (p: Params, repaired: bool, os: VirtualMemory)
      requires p.Valid() && os.Valid()
      ensures Valid() && fresh(freeListBegin)
      ensures this.p == p && this.repaired == repaired && this.os == os
      ensures ledger == Ledger(map[], map[]) && Owned() == {}
      ensures State() == Bulk(map[], seq(p.maxPages + 1, i => 0), [])
      ensures book == Book(map[], seq(p.maxPages + 1, i => []))
    {
      this.p, this.repaired, this.os := p, repaired, os;
      freeListBegin := new nat[p.maxPages + 1](_ => 0);
      mem, blocks := map[], [];
      ledger := Ledger(map[], map[]);
      book := Book(map[], seq(p.maxPages + 1, i => []));
      new;
      assert freeListBegin[..] == seq(p.maxPages + 1, i => 0);
      assert Headers(mem) == map[];
    }

    /** lines 485-507 */
    method RemoveFromFreeList(item: nat, ghost lists: seq<seq<nat>>, ghost free: set<nat>)
      requires freeListBegin.Length == p.maxPages + 1
      requires ListsOk(p, State().hdr, State().heads, lists, free) && item in free
      requires forall a :: a in free ==> a in State().hdr && State().hdr[a].count > 0
      modifies this`mem, freeListBegin
      ensures item in old(State()).hdr
      ensures State() == BulkSpec.RemoveFromFreeList(p, old(State()), item)
    {
      NeighboursOnList(p, State(), lists, free, item);
      ghost var s := State();
      var h := mem[item];
      if h.prevFree != 0 {
        assert GetPageCount(h) == GetPageCount(mem[h.prevFree])
               || (GetPageCount(h) > p.maxPages && GetPageCount(mem[h.prevFree]) > p.maxPages);
        LinksUpdate(mem, h.prevFree, h.nextFree);
        mem := mem[h.prevFree := mem[h.prevFree].(nextFree := h.nextFree)];
      } else {
        var idx := ListIdx(p, GetPageCount(h));
        assert freeListBegin[idx] == item;
        freeListBegin[idx] := h.nextFree;
        if freeListBegin[idx] != 0 {
          LinksUpdate(mem, h.nextFree, 0);
          mem := mem[h.nextFree := mem[h.nextFree].(prevFree := 0)];
        }
      }
      var n := mem[item].nextFree;
      if n != 0 {
        LinksUpdate(mem, n, mem[item].prevFree);
        mem := mem[n := mem[n].(prevFree := mem[item].prevFree)];
      }
    }

    /** Take the head off list i (lines 637-640 and 669-672). */
    method PopFree(i: nat) returns (c: nat)
      requires i < freeListBegin.Length && freeListBegin[i] in mem
      requires mem[freeListBegin[i]].nextFree != 0 ==> mem[freeListBegin[i]].nextFree in mem
      modifies this`mem, freeListBegin
      ensures c == old(freeListBegin[i]) && c in old(mem)
      ensures State() == BulkSpec.PopFree(old(State()), i)
    {
      c := freeListBegin[i];
      freeListBegin[i] := mem[c].nextFree;
      if freeListBegin[i] != 0 {
        LinksUpdate(mem, freeListBegin[i], 0);
        mem := mem[freeListBegin[i] := mem[freeListBegin[i]].(prevFree := 0)];
      }
    }

    /** Put h in front of the list its page count selects (lines 649-663 and 723-731). */
    method PushFree(h: nat)
      requires freeListBegin.Length == p.maxPages + 1 && h in mem
      requires var i := ListIdx(p, GetPageCount(mem[h])); freeListBegin[i] != 0 ==> freeListBegin[i] in mem
      modifies this`mem, freeListBegin
      ensures State() == BulkSpec.PushFree(p, old(State()), h)
    {
      var idx := ListIdx(p, GetPageCount(mem[h]));
      HeadersUpdate(mem, h, mem[h].(prevFree := 0, nextFree := freeListBegin[idx]));
      mem := mem[h := mem[h].(prevFree := 0, nextFree := freeListBegin[idx])];
      if freeListBegin[idx] != 0 {
        LinksUpdate(mem, freeListBegin[idx], h);
        mem := mem[freeListBegin[idx] := mem[freeListBegin[idx]].(prevFree := h)];
      }
      freeListBegin[idx] := h;
    }

    /** set: rewrite a header, leaving the two words behind it. */
    method SetHeader(a: nat, prev: nat, next: nat, count: nat, free: bool)
      requires a in mem && prev % PAGE_SIZE == 0 && next % PAGE_SIZE == 0 && count < PAGE_SIZE
      modifies this`mem
      ensures State() == old(State()).(hdr := old(State()).hdr[a :=
                Header(prev, next, count, free, old(mem)[a].prevFree, old(mem)[a].nextFree)])
    {
      SetUnpacks(mem[a], prev, next, count, free);
      HeadersUpdate(mem, a, Set(mem[a], prev, next, count, free));
      mem := mem[a := Set(mem[a], prev, next, count, free)];
    }

    /** Write a header, and null links behind it, where there was none. */
    method NewHeader(a: nat, prev: nat, next: nat, count: nat, free: bool)
      requires prev % PAGE_SIZE == 0 && next % PAGE_SIZE == 0 && count < PAGE_SIZE
      modifies this`mem
      ensures State() == old(State()).(hdr := old(State()).hdr[a := Header(prev, next, count, free, 0, 0)])
    {
      HeadersUpdate(mem, a, RawHeader(0, 0, 0, 0));
      mem := mem[a := RawHeader(0, 0, 0, 0)];
      SetHeader(a, prev, next, count, free);
    }

    /** setPrevInBlock, which the source declares and never calls. */
    method SetPrevLink(a: nat, prev: nat)
      requires a in mem && prev % PAGE_SIZE == 0
      modifies this`mem
      ensures State() == old(State()).(hdr := SetPrev(old(State()).hdr, a, prev))
    {
      SetPrevUnpacks(mem[a], prev);
      HeadersUpdate(mem, a, SetPrevInBlock(mem[a], prev));
      mem := mem[a := SetPrevInBlock(mem[a], prev)];
    }

    /** A new block becomes one free chunk (lines 623-630). */
    method AddBlock() returns (h: nat)
      requires freeListBegin.Length == p.maxPages + 1 && p.Valid() && os.Valid()
      modifies this`mem, this`blocks, freeListBegin, os`regions
      ensures os.Valid() && FreshRegionAt(old(os.regions), h, p.blockPages * PAGE_SIZE)
      ensures os.regions == old(os.regions) + {Region(h, p.blockPages * PAGE_SIZE)}
      ensures State() == NewBlock(p, old(State()), h)
    {
      h := os.Allocate(p.blockPages * PAGE_SIZE);
      blocks := [h] + blocks;
      freeListBegin[p.maxPages] := h;
      NewHeader(h, 0, 0, p.blockPages, true);
    }

    /** Cut pc pages off the front of c (lines 641-646). */
    method Split(c: nat, pc: nat)
      requires c in mem && c % PAGE_SIZE == 0 && 0 < pc < GetPageCount(mem[c])
      requires NextInBlock(mem[c]) != 0 ==> NextInBlock(mem[c]) in mem
      modifies this`mem
      ensures State() == old(State()).(hdr := SplitChunk(repaired, old(State()).hdr, c, pc))
    {
      hide PrevInBlock, NextInBlock, GetPageCount, IsFree;
      var u := c + pc * PAGE_SIZE;
      var next := NextInBlock(mem[c]);
      Unpacked(mem[c]);
      DivModShift(c, PAGE_SIZE, pc);
      NewHeader(u, c, next, GetPageCount(mem[c]) - pc, true);
      SetHeader(c, PrevInBlock(mem[c]), u, pc, false);
      if repaired && next != 0 {
        // DEPARTURE: not in the source
        SetPrevLink(next, u);
      }
    }

    /** Rewrite the free bit of c. */
    method SetFree(c: nat, f: bool)
      requires c in mem
      modifies this`mem
      ensures State() == old(State()).(hdr := old(State()).hdr[c := old(State()).hdr[c].(free := f)])
    {
      SetHeader(c, PrevInBlock(mem[c]), NextInBlock(mem[c]), GetPageCount(mem[c]), f);
    }

    /** Chunk a takes over its successor b (lines 710 and 720). */
    method Merge(a: nat, b: nat)
      requires a in mem && b in mem && GetPageCount(mem[a]) + GetPageCount(mem[b]) < PAGE_SIZE
      requires a % PAGE_SIZE == 0
      requires NextInBlock(mem[b]) != 0 ==> NextInBlock(mem[b]) in mem
      modifies this`mem
      ensures State() == old(State()).(hdr := MergeChunks(repaired, old(State()).hdr, a, b))
    {
      hide PrevInBlock, NextInBlock, GetPageCount, IsFree;
      Unpacked(mem[a]);
      Unpacked(mem[b]);
      var next := NextInBlock(mem[b]);
      SetHeader(a, PrevInBlock(mem[a]), next, GetPageCount(mem[a]) + GetPageCount(mem[b]), true);
      if repaired && next != 0 {
        // DEPARTURE: not in the source
        SetPrevLink(next, a);
      }
    }

    /** Make sure the last list is not empty (lines 621-631). */
    method EnsureTail() returns (ghost osAddr: nat)
      requires Valid()
      modifies this, freeListBegin, os`regions
      ensures Valid() && freeListBegin[p.maxPages] != 0
      ensures FreshRegion(p, old(State()), old(ledger), osAddr, p.blockPages)
      ensures FreshRegionAt(old(os.regions), osAddr, p.blockPages * PAGE_SIZE)
      ensures State() == if old(freeListBegin[p.maxPages]) == 0 then NewBlock(p, old(State()), osAddr) else old(State())
      ensures ledger == old(ledger) && os.regions - Owned() == old(os.regions - Owned())
    {
      osAddr := RoomAbove(os.regions);
      ghost var s, regions := State(), os.regions;
      if freeListBegin[p.maxPages] == 0 {
        osAddr := AddBlock();
        FreshForUs(p, s, ledger, regions, osAddr, p.blockPages);
        book := NewBlockKeeps(p, repaired, s, ledger, book, osAddr);
        RegionsGrow(p, s.blocks, ledger.large, osAddr, regions);
      } else {
        FreshForUs(p, s, ledger, regions, osAddr, p.blockPages);
      }
    }

    /** Cut the chunk off the head of the last list (lines 633-663). */
    method CutTail(pc: nat, ghost chunks: set<nat>) returns (ret: nat)
      requires 0 < pc <= p.maxPages && Poppable(p, State(), p.maxPages, chunks)
      requires State().hdr[State().heads[p.maxPages]].count > p.maxPages
      requires State().heads[p.maxPages] + pc * PAGE_SIZE !in chunks
      requires freeListBegin.Length == p.maxPages + 1
      modifies this`mem, freeListBegin
      ensures (State(), ret) == SplitStep(p, repaired, old(State()), pc)
    {
      hide BulkSpec.PopFree, BulkSpec.PushFree, GetPageCount, PrevInBlock, NextInBlock, IsFree;
      assert freeListBegin[p.maxPages] != 0;
      assert GetPageCount(mem[freeListBegin[p.maxPages]]) > p.maxPages;
      assert mem[freeListBegin[p.maxPages]].prevFree == 0;
      ret := PopFree(p.maxPages);
      ghost var s1 := State();
      assert SameTag(old(State()).hdr[ret], s1.hdr[ret]);
      Split(ret, pc);
      assert freeListBegin[p.maxPages] != ret + pc * PAGE_SIZE;
      PushFree(ret + pc * PAGE_SIZE);
    }

    /** Pop a chunk that fits exactly (lines 665-673). */
    method ExactFit(pc: nat, ghost chunks: set<nat>) returns (ret: nat)
      requires 0 < pc <= p.maxPages && Poppable(p, State(), pc - 1, chunks)
      requires freeListBegin.Length == p.maxPages + 1
      modifies this`mem, freeListBegin
      ensures (State(), ret) == ExactPopStep(repaired, old(State()), pc - 1)
    {
      assert mem[freeListBegin[pc - 1]].prevFree == 0;
      ret := PopFree(pc - 1);
      if repaired {
        // DEPARTURE: not in the source
        SetFree(ret, false);
      }
    }

    /** More than maxPages pages come from the operating system (lines 678-681). */
    method LargeChunk(pc: nat) returns (ret: nat)
      requires os.Valid() && pc > 0
      modifies this`mem, os`regions
      ensures os.Valid() && FreshRegionAt(old(os.regions), ret, pc * PAGE_SIZE)
      ensures os.regions == old(os.regions) + {Region(ret, pc * PAGE_SIZE)}
      ensures (State(), ret) == LargeStep(old(State()), pc, ret)
    {
      ret := os.Allocate(pc * PAGE_SIZE);
      NewHeader(ret, pc * PAGE_SIZE, 0, 0, false);
      assert GetPageCount(mem[ret]) == 0 by { assert State().hdr[ret].count == 0; }
    }

    /** Unlist one of two neighbours and merge them (lines 709-710 and 719-720). */
    method UnlistAndMerge(item: nat, a: nat, b: nat, ghost lists: seq<seq<nat>>, ghost free: set<nat>)
      requires freeListBegin.Length == p.maxPages + 1
      requires ListsOk(p, State().hdr, State().heads, lists, free) && item in free
      requires forall x :: x in free ==> x in State().hdr && State().hdr[x].count > 0
      requires MergeReady(State().hdr, a, b)
      modifies this`mem, freeListBegin
      ensures item in old(State()).hdr
      ensures var s1 := BulkSpec.RemoveFromFreeList(p, old(State()), item);
              && a in s1.hdr && b in s1.hdr
              && State() == s1.(hdr := MergeChunks(repaired, s1.hdr, a, b))
    {
      ghost var s := State();
      NeighboursOnList(p, s, lists, free, item);
      RemoveTags(p, s, item);
      RemoveFromFreeList(item, lists, free);
      assert SameTag(s.hdr[a], State().hdr[a]) && SameTag(s.hdr[b], State().hdr[b]);
      Merge(a, b);
    }

    /** Merge with the previous chunk if it is flagged (lines 703-712). */
    method MergeWithPrev(h: nat, ghost large: map<nat, nat>, ghost b: Book, ghost rest: map<nat, nat>) returns (h': nat)
      requires freeListBegin.Length == p.maxPages + 1
      requires Mid(p, repaired, State(), large, b, rest, h)
      modifies this`mem, freeListBegin
      ensures (State(), h') == MergePrev(p, repaired, old(State()), h)
    {
      PrevReady(p, repaired, State(), large, b, rest, h);
      var prev: nat := PrevInBlock(mem[h]);
      h' := h;
      if prev != 0 && IsFree(mem[prev]) {
        assert PrevInBlock(mem[prev]) == 0 || !IsFree(mem[PrevInBlock(mem[prev])]);
        assert NextInBlock(mem[prev]) == h;
        assert prev + GetPageCount(mem[prev]) * PAGE_SIZE == h;
        UnlistAndMerge(prev, prev, h, b.lists, b.home.Keys - rest.Keys - {h});
        h' := prev;
      }
    }

    /** Merge with the next chunk if it is flagged (lines 713-721). */
    method MergeWithNext(h: nat, ghost large: map<nat, nat>, ghost b: Book, ghost rest: map<nat, nat>)
      requires freeListBegin.Length == p.maxPages + 1
      requires Mid(p, repaired, State(), large, b, rest, h)
      requires repaired || !(FlaggedChunk(State().hdr, State().hdr[h].next) && State().hdr[h].next in rest)
      modifies this`mem, freeListBegin
      ensures State() == MergeNext(p, repaired, old(State()), h)
    {
      NextReady(p, repaired, State(), large, b, rest, h);
      var next: nat := NextInBlock(mem[h]);
      if next != 0 && IsFree(mem[next]) {
        assert NextInBlock(mem[next]) == 0 || !IsFree(mem[NextInBlock(mem[next])]);
        assert PrevInBlock(mem[next]) == h;
        assert h + GetPageCount(mem[h]) * PAGE_SIZE == next;
        UnlistAndMerge(next, h, next, b.lists, b.home.Keys - rest.Keys - {h});
      }
    }

    /** Mark and list the merged chunk (lines 723-731). */
    method Finish(h: nat, ghost large: map<nat, nat>, ghost b: Book, ghost rest: map<nat, nat>)
      requires freeListBegin.Length == p.maxPages + 1
      requires Mid(p, repaired, State(), large, b, rest, h)
      modifies this`mem, freeListBegin
      ensures State() == BulkSpec.PushFree(p, BulkSpec.MarkFree(repaired, old(State()), h), h)
    {
      HeadsInHdr(p, State().hdr, State().heads, b.lists, b.home.Keys - rest.Keys - {h});
      if repaired {
        // DEPARTURE: not in the source
        SetFree(h, true);
      }
      PushFree(h);
    }

    /** From the lists, or from a new block (lines 614-675). */
    method AllocateSmall(pc: nat) returns (ret: nat, ghost osAddr: nat)
      requires Valid() && 0 < pc <= p.maxPages
      modifies this, freeListBegin, os`regions
      ensures freeListBegin.Length == p.maxPages + 1 && os.Valid() && Owned() <= os.regions
      ensures FreshRegion(p, old(State()), old(ledger), osAddr, p.blockPages) && CanAllocate(p, old(State()), pc)
      ensures FreshRegionAt(old(os.regions), osAddr, p.blockPages * PAGE_SIZE)
      ensures (State(), ret) == BulkSpec.Allocate(p, repaired, old(State()), pc, osAddr)
      ensures ledger == old(ledger) && os.regions - Owned() == old(os.regions - Owned())
    {
      hide Inv, BlocksOk, SplitStep, Headers;
      CanAllocateUnderInv(p, repaired, State(), ledger, book, pc);
      if freeListBegin[pc - 1] == 0 {
        osAddr := EnsureTail();
        ret := FromTail(pc);
      } else {
        osAddr := RoomAbove(os.regions);
        FreshForUs(p, State(), ledger, os.regions, osAddr, p.blockPages);
        ret := FromList(pc);
      }
    }

    method FromTail(pc: nat) returns (ret: nat)
      requires Valid() && 0 < pc <= p.maxPages && freeListBegin[p.maxPages] != 0
      modifies this`mem, freeListBegin
      ensures old(freeListBegin[p.maxPages]) in old(State()).hdr
      ensures pc <= old(State()).hdr[old(freeListBegin[p.maxPages])].count
      ensures (State(), ret) == SplitStep(p, repaired, old(State()), pc)
    {
      hide Inv;
      PopFacts(p, repaired, State(), ledger, book, p.maxPages);
      CutFacts(p, repaired, State(), ledger, book, pc);
      ret := CutTail(pc, book.home.Keys);
    }

    method FromList(pc: nat) returns (ret: nat)
      requires Valid() && 0 < pc <= p.maxPages && freeListBegin[pc - 1] != 0
      modifies this`mem, freeListBegin
      ensures old(freeListBegin[pc - 1]) in old(State()).hdr
      ensures (State(), ret) == ExactPopStep(repaired, old(State()), pc - 1)
    {
      PopFacts(p, repaired, State(), ledger, book, pc - 1);
      ret := ExactFit(pc, book.home.Keys);
    }

    /** A request of at most maxPages pages (lines 614-675). */
    method AllocateChunk(pc: nat) returns (ret: nat, ghost osAddr: nat)
      requires Valid() && 0 < pc <= p.maxPages
      modifies this, freeListBegin, os`regions
      ensures Valid()
      ensures Served(p, repaired, old(State()), old(ledger), old(os.regions), pc, osAddr, p.blockPages, State(), ret)
      ensures ledger == Granted(p, old(ledger), ret, pc)
      ensures os.regions - Owned() == old(os.regions - Owned())
    {
      hide BulkSpec.Allocate, Inv;
      ghost var s, l, b := State(), ledger, book;
      ret, osAddr := AllocateSmall(pc);
      book := AllocateKeeps(p, repaired, s, l, b, pc, osAddr);
      ledger := Granted(p, l, ret, pc);
    }

    /** A larger request (lines 676-681). */
    method AllocateRegion(pc: nat) returns (ret: nat)
      requires Valid() && pc > p.maxPages
      modifies this, os`regions
      ensures Valid()
      ensures Served(p, repaired, old(State()), old(ledger), old(os.regions), pc, ret, pc, State(), ret)
      ensures ledger == Granted(p, old(ledger), ret, pc)
      ensures os.regions - Owned() == old(os.regions - Owned())
    {
      hide Inv;
      ghost var s, regions := State(), os.regions;
      ret := LargeChunk(pc);
      FreshForUs(p, s, ledger, regions, ret, pc);
      CanAllocateUnderInv(p, repaired, s, ledger, book, pc);
      LargeKeeps(p, repaired, s, ledger, book, pc, ret);
      NotHeldIfFresh(p, repaired, s, ledger, book, ret, pc);
      LargeRegion(p, blocks, ledger.large, ret, pc, regions);
      ledger := Granted(p, ledger, ret, pc);
    }

    /** allocate (lines 603-690): pages nobody holds, enough of them, page aligned. */
    method Allocate(szIncludingHeader: nat) returns (ret: nat, ghost osAddr: nat)
      requires Valid() && szIncludingHeader > 0
      modifies this, freeListBegin, os`regions
      ensures Valid()
      ensures PageCount(szIncludingHeader) > 0
      ensures var pc: nat := PageCount(szIncludingHeader);
              && szIncludingHeader <= pc * PAGE_SIZE < szIncludingHeader + PAGE_SIZE
              && FreshRegion(p, old(State()), old(ledger), osAddr, if pc <= p.maxPages then p.blockPages else pc)
              && FreshRegionAt(old(os.regions), osAddr, (if pc <= p.maxPages then p.blockPages else pc) * PAGE_SIZE)
              && CanAllocate(p, old(State()), pc)
              && (State(), ret) == BulkSpec.Allocate(p, repaired, old(State()), pc, osAddr)
              && ledger == Granted(p, old(ledger), ret, pc)
      ensures ret != 0 && ret % PAGE_SIZE == 0 && ret !in old(ledger).live && ret !in old(ledger).large
      ensures os.regions - Owned() == old(os.regions - Owned())
    {
      hide Inv;
      PageCountIsCeil(szIncludingHeader);
      var pc: nat := PageCount(szIncludingHeader);
      if pc <= p.maxPages {
        ret, osAddr := AllocateChunk(pc);
      } else {
        ret := AllocateRegion(pc);
        osAddr := ret;
      }
    }

    /** The chunk case of deallocate (lines 695-731). */
    method DeallocateChunk(ptr: nat, ghost l: Ledger, ghost b: Book)
      requires freeListBegin.Length == p.maxPages + 1
      requires Inv(p, repaired, State(), l, b) && ptr in l.live && ptr in State().hdr
      requires repaired || !Hazard(State(), l, ptr)
      modifies this`mem, freeListBegin
      ensures State() == BulkSpec.DeallocateChunk(p, repaired, old(State()), ptr)
    {
      ghost var s := State();
      ghost var rest := l.live - {ptr};
      InvIsMid(p, repaired, s, l, b, ptr);
      ghost var b1 := MergePrevKeeps(p, repaired, s, l.large, b, rest, ptr);
      var h := MergeWithPrev(ptr, l.large, b, rest);
      ghost var b2 := MergeNextKeeps(p, repaired, State(), l.large, b1, rest, h);
      MergeWithNext(h, l.large, b1, rest);
      Finish(h, l.large, b2, rest);
    }

    /** deallocate (lines 692-744). */
    method Deallocate(ptr: nat)
      requires Valid() && (ptr in ledger.live || ptr in ledger.large)
      requires !repaired && ptr in ledger.live && ptr in State().hdr ==> !Hazard(State(), ledger, ptr)
      modifies this, freeListBegin, os`regions, os`committed
      ensures Valid()
      ensures ptr in old(State()).hdr
      ensures State() == BulkSpec.Deallocate(p, repaired, old(State()), ptr)
      ensures ledger == if ptr in old(ledger).live then old(ledger).(live := old(ledger).live - {ptr})
                        else old(ledger).(large := old(ledger).large - {ptr})
      ensures os.regions - Owned() == old(os.regions - Owned())
      ensures OthersCommitted(old(os.regions), os.regions, old(os.committed), os.committed)
    {
      hide Inv;
      LedgerInHdr(p, repaired, State(), ledger, book, ptr);
      if GetPageCount(mem[ptr]) != 0 {
        assert GetPageCount(mem[ptr]) <= p.maxPages;
        FreeHeld(ptr);
      } else {
        DeallocateRegion(ptr);
      }
    }

    method FreeHeld(ptr: nat)
      requires Valid() && ptr in ledger.live && ptr in State().hdr && State().hdr[ptr].count != 0
      requires repaired || !Hazard(State(), ledger, ptr)
      modifies this`mem, this`book, this`ledger, freeListBegin
      ensures Valid()
      ensures State() == BulkSpec.Deallocate(p, repaired, old(State()), ptr)
      ensures ledger == old(ledger).(live := old(ledger).live - {ptr}) && Owned() == old(Owned())
    {
      hide Inv, State;
      ghost var l := ledger;
      ghost var b' := DeallocateHeld(ptr, l, book);
      ghost var s := State();
      book, ledger := b', l.(live := l.live - {ptr});
      assert State() == s && Owned() == RegionsOf(p, blocks, l.large);
    }

    method DeallocateHeld(ptr: nat, ghost l: Ledger, ghost b: Book) returns (ghost b': Book)
      requires freeListBegin.Length == p.maxPages + 1
      requires Inv(p, repaired, State(), l, b) && ptr in l.live && ptr in State().hdr && State().hdr[ptr].count != 0
      requires repaired || !Hazard(State(), l, ptr)
      modifies this`mem, freeListBegin
      ensures State() == BulkSpec.Deallocate(p, repaired, old(State()), ptr)
      ensures Inv(p, repaired, State(), l.(live := l.live - {ptr}), b')
    {
      b' := DeallocateKeeps(p, repaired, State(), l, b, ptr);
      DeallocateChunk(ptr, l, b);
    }

    /** The large case (lines 738-742). */
    method DeallocateRegion(ptr: nat)
      requires Valid() && ptr in ledger.large
      modifies this, os`regions, os`committed
      ensures Valid()
      ensures State() == old(State()) && ptr in old(State()).hdr && old(State()).hdr[ptr].count == 0
      ensures ledger == old(ledger).(large := old(ledger).large - {ptr})
      ensures os.regions - Owned() == old(os.regions - Owned())
      ensures OthersCommitted(old(os.regions), os.regions, old(os.committed), os.committed)
    {
      hide Inv, RegionsOf;
      LedgerInHdr(p, repaired, State(), ledger, book, ptr);
      DeallocateLargeKeeps(p, repaired, State(), ledger, book, ptr);
      LargeRegionGone(p, blocks, ledger.large, ptr, os.regions);
      os.Deallocate(ptr, PrevInBlock(mem[ptr]));
      ledger := ledger.(large := ledger.large - {ptr});
    }

    /** What dbgValidateBlock asserts of a chunk and the next one (lines 518-524), and where a walk that
        has counted the pages in between stands. */
    method CheckForward(curr: nat, ghost h: nat, ghost szTotal: nat) returns (next: nat, count: nat)
      requires Valid() && repaired && curr in book.home && curr == h + szTotal * PAGE_SIZE
      ensures curr in State().hdr && count == State().hdr[curr].count > 0
      ensures next != 0 ==>
                && next in book.home && book.home[next] == book.home[curr]
                && next == h + (szTotal + count) * PAGE_SIZE
      ensures next == 0 ==> h + (szTotal + count) * PAGE_SIZE == book.home[curr] + p.blockPages * PAGE_SIZE
      ensures curr + count * PAGE_SIZE <= book.home[curr] + p.blockPages * PAGE_SIZE
    {
      ghost var hdr := State().hdr;
      assert ChunkOk(p, hdr, book.home, curr);
      assert FlagOk(p, repaired, hdr, ledger.live, curr);
      count := GetPageCount(mem[curr]);
      next := NextInBlock(mem[curr]);
      if next != 0 {
        assert FlagOk(p, repaired, hdr, ledger.live, next);
        assert next > curr;
        assert !(IsFree(mem[curr]) && IsFree(mem[next]));
        assert PrevInBlock(mem[next]) == curr;
        assert curr + GetPageCount(mem[curr]) * PAGE_SIZE == next;
      }
    }

    /** The same backwards (lines 531-540). */
    method CheckBackward(curr: nat, ghost end: nat) returns (prev: nat, count: nat)
      requires Valid() && repaired && curr in book.home && curr in State().hdr
      requires end == curr + State().hdr[curr].count * PAGE_SIZE
      ensures count == State().hdr[curr].count > 0
      ensures prev != 0 ==> prev in book.home && book.home[prev] == book.home[curr]
                            && prev in State().hdr && curr == prev + State().hdr[prev].count * PAGE_SIZE
      ensures prev == 0 ==> curr == book.home[curr]
    {
      ghost var hdr := State().hdr;
      assert ChunkOk(p, hdr, book.home, curr);
      count := GetPageCount(mem[curr]);
      prev := PrevInBlock(mem[curr]);
      if prev != 0 {
        assert ChunkOk(p, hdr, book.home, prev);
        assert FlagOk(p, repaired, hdr, ledger.live, prev);
        assert FlagOk(p, repaired, hdr, ledger.live, curr);
        assert prev < curr;
        assert !(IsFree(mem[prev]) && IsFree(mem[curr]));
        assert NextInBlock(mem[prev]) == curr;
        assert prev + GetPageCount(mem[prev]) * PAGE_SIZE == curr;
      }
    }

    /** dbgValidateBlock (lines 509-543) on any chunk. Of its asserts only the one at line 528 can fail,
        exactly when the chunk and the one in front of it are both live; otherwise the counts add up to
        the block. dbgValidateAllBlocks calls it on block starts, where nothing fails. */
    method DbgValidateBlock(h: nat) returns (passed: bool)
      requires Valid() && repaired && h in book.home
      ensures h in State().hdr
      ensures passed <==> (var prev := State().hdr[h].prev; h in ledger.live && prev != 0 ==> prev !in ledger.live)
      ensures h in blocks ==> passed
    {
      hide ListsOk;
      var szTotal := WalkForward(h);
      ghost var hdr := State().hdr;
      assert ChunkOk(p, hdr, book.home, h);
      assert FlagOk(p, repaired, hdr, ledger.live, h);
      var curr: nat := PrevInBlock(mem[h]);
      if curr != 0 {
        assert ChunkOk(p, hdr, book.home, curr);
        assert FlagOk(p, repaired, hdr, ledger.live, curr);
        if IsFree(mem[curr]) == IsFree(mem[h]) {
          return false;
        }
      }
      var more := WalkBackward(curr, h);
      assert (szTotal + more) * PAGE_SIZE == p.blockPages * PAGE_SIZE;
      return true;
    }

    /** The pages from h to the end of its block. */
    method WalkForward(h: nat) returns (szTotal: nat)
      requires Valid() && repaired && h in book.home
      ensures h + szTotal * PAGE_SIZE == book.home[h] + p.blockPages * PAGE_SIZE
    {
      szTotal := 0;
      assert ChunkOk(p, State().hdr, book.home, h);
      var curr: nat := h;
      while curr != 0
        invariant curr != 0 ==> curr in book.home && book.home[curr] == book.home[h] && curr == h + szTotal * PAGE_SIZE
        invariant h + szTotal * PAGE_SIZE <= book.home[h] + p.blockPages * PAGE_SIZE
        invariant curr == 0 ==> h + szTotal * PAGE_SIZE == book.home[h] + p.blockPages * PAGE_SIZE
        decreases curr != 0, book.home[h] + p.blockPages * PAGE_SIZE - curr
      {
        var next, count := CheckForward(curr, h, szTotal);
        szTotal := szTotal + count;
        curr := next;
      }
    }

    /** The pages from the start of the block up to h; `first` is the chunk in front of h. */
    method WalkBackward(first: nat, ghost h: nat) returns (szTotal: nat)
      requires Valid() && repaired && h in book.home && h in State().hdr && first == State().hdr[h].prev
      ensures book.home[h] + szTotal * PAGE_SIZE == h
    {
      hide RegionsOf;
      szTotal := 0;
      assert ChunkOk(p, State().hdr, book.home, h);
      if first != 0 { assert ChunkOk(p, State().hdr, book.home, first); }
      var curr: nat := first;
      ghost var end := h;
      while curr != 0
        invariant end + szTotal * PAGE_SIZE == h
        invariant curr != 0 ==> curr in book.home && book.home[curr] == book.home[h] && curr in State().hdr
                                && end == curr + State().hdr[curr].count * PAGE_SIZE
        invariant curr == 0 ==> end == book.home[h]
        decreases curr
      {
        var prev, count := CheckBackward(curr, end);
        szTotal := szTotal + count;
        end := curr;
        curr := prev;
      }
    }

    /** What dbgValidateFreeList asserts of a node (lines 562-565 and 571-574). */
    method CheckNode(curr: nat, ghost i: nat, ghost k: nat) returns (next: nat, prev: nat)
      requires Valid() && repaired && i <= p.maxPages && k < |book.lists[i]| && book.lists[i][k] == curr
      ensures next == After(book.lists[i], k) && prev == Before(book.lists[i], k)
    {
      ghost var s, l := State(), book.lists[i];
      ghost var pageCnt := i + 1;
      assert Chain(s.hdr, s.heads[i], l);
      assert NodeOk(s.hdr, l, k) && l[k] in book.lists[i];
      InBlock(p, s.hdr, book.home, curr);
      assert FlagOk(p, repaired, s.hdr, ledger.live, curr);
      assert GetPageCount(mem[curr]) == pageCnt || (pageCnt > p.maxPages && GetPageCount(mem[curr]) >= pageCnt);
      assert IsFree(mem[curr]);
      next, prev := mem[curr].nextFree, mem[curr].prevFree;
      if k + 1 < |l| { assert NodeOk(s.hdr, l, k + 1); }
      if k > 0 { assert NodeOk(s.hdr, l, k - 1); }
      assert next == 0 || mem[next].prevFree == curr;
      assert prev == 0 || mem[prev].nextFree == curr;
    }

    /** dbgValidateFreeList (lines 556-577) on any node of list i: none of its asserts can fail, and the
        two walks together visit every node, h twice. */
    method DbgValidateFreeList(h: nat, i: nat) returns (ahead: nat, behind: nat)
      requires Valid() && repaired && i <= p.maxPages && h in book.lists[i]
      ensures ahead + behind == |book.lists[i]| + 1
    {
      hide Distinct, BlocksOk, Owned, LiveOk;
      ghost var l := book.lists[i];
      ghost var k :| 0 <= k < |l| && l[k] == h;
      ghost var next, prev;
      NodesNotNull(p, State(), book.lists, book.home.Keys - ledger.live.Keys, i);
      ahead, behind := 0, 0;
      var curr := h;
      while curr != 0
        invariant 0 <= k + ahead <= |l| && curr == if k + ahead < |l| then l[k + ahead] else 0
        decreases |l| - ahead
      {
        curr, prev := CheckNode(curr, i, k + ahead);
        ahead := ahead + 1;
      }
      curr := h;
      while curr != 0
        invariant 0 <= behind <= k + 1 && curr == if behind <= k then l[k - behind] else 0
        decreases k + 1 - behind
      {
        next, curr := CheckNode(curr, i, k - behind);
        behind := behind + 1;
      }
    }

    /** deinitialize (lines 746-764): every block goes back; large chunks still held do not. */
    method Deinitialize()
      requires Valid()
      modifies this, freeListBegin, os`regions, os`committed
      ensures Valid() && blocks == [] && ledger == Ledger(map[], old(ledger).large)
      ensures os.regions == old(os.regions) - set b | b in old(blocks) :: Region(b, p.blockPages * PAGE_SIZE)
      ensures OthersCommitted(old(os.regions), os.regions, old(os.committed), os.committed)
    {
      hide LargeOk, ListsOk, BlocksOk;
      ghost var large := ledger.large;
      EmptiedKeeps(p, repaired, State(), ledger, book);
      LargeStays(p, blocks, large, os.regions);
      ReleaseBlocks();
      blocks := [];
      forall k | 0 <= k < freeListBegin.Length { freeListBegin[k] := 0; }
      ledger := Ledger(map[], large);
      book := Book(map[], seq(p.maxPages + 1, k => []));
      assert freeListBegin[..] == seq(p.maxPages + 1, k => 0);
    }

    method ReleaseBlocks()
      requires os.Valid() && p.blockPages > 0
      requires forall i, j :: 0 <= i < j < |blocks| ==> Apart(blocks[i], p.blockPages, blocks[j], p.blockPages)
      requires forall j :: 0 <= j < |blocks| ==> Region(blocks[j], p.blockPages * PAGE_SIZE) in os.regions
      modifies os`regions, os`committed
      ensures os.Valid()
      ensures os.regions == old(os.regions) - set b | b in blocks :: Region(b, p.blockPages * PAGE_SIZE)
      ensures OthersCommitted(old(os.regions), os.regions, old(os.committed), os.committed)
    {
      ghost var regions := os.regions;
      var i := 0;
      while i < |blocks|
        invariant 0 <= i <= |blocks| && os.Valid()
        invariant forall j :: i <= j < |blocks| ==> Region(blocks[j], p.blockPages * PAGE_SIZE) in os.regions
        invariant os.regions == regions - set b | b in blocks[..i] :: Region(b, p.blockPages * PAGE_SIZE)
        invariant OthersCommitted(old(os.regions), os.regions, old(os.committed), os.committed)
      {
        assert blocks[..i + 1] == blocks[..i] + [blocks[i]];
        forall j | i < j < |blocks| ensures blocks[j] != blocks[i] {
          assert Apart(blocks[i], p.blockPages, blocks[j], p.blockPages);
        }
        os.Deallocate(blocks[i], p.blockPages * PAGE_SIZE);
        i := i + 1;
      }
      assert blocks[..i] == blocks;
    }
  }

  /** A request for pc pages is served by a step of BulkSpec; osAddr is a region of `pages` pages that the
      operating system gives if asked, and ret was held by nobody. */
  ghost predicate Served(p: Params, repaired: bool, s: Bulk, l: Ledger, regions: set<Region>, pc: nat, osAddr: nat,
                         pages: nat,
                         s': Bulk, ret: nat)
  {
    && FreshRegion(p, s, l, osAddr, pages) && FreshRegionAt(regions, osAddr, pages * PAGE_SIZE)
    && CanAllocate(p, s, pc) && (s', ret) == BulkSpec.Allocate(p, repaired, s, pc, osAddr)
    && ret != 0 && ret % PAGE_SIZE == 0 && ret !in l.live && ret !in l.large
  }

  lemma NotHeldIfFresh(p: Params, repaired: bool, s: Bulk, l: Ledger, b: Book, osAddr: nat, pc: nat)
    requires Inv(p, repaired, s, l, b) && pc > 0 && FreshRegion(p, s, l, osAddr, pc)
    ensures osAddr !in l.live && osAddr !in l.large
  {
    FreshIsNoChunk(p, s, l, b.home, osAddr, pc);
  }

  /** Without blocks and free lists, what large chunks are left is still consistent. */
  lemma EmptiedKeeps(p: Params, repaired: bool, s: Bulk, l: Ledger, b: Book)
    requires Inv(p, repaired, s, l, b)
    ensures forall i, j :: 0 <= i < j < |s.blocks| ==> Apart(s.blocks[i], p.blockPages, s.blocks[j], p.blockPages)
    ensures Inv(p, repaired, Bulk(s.hdr, seq(p.maxPages + 1, k => 0), []), Ledger(map[], l.large),
                Book(map[], seq(p.maxPages + 1, k => [])))
    ensures forall a, c :: a in l.large && c in s.blocks ==> Apart(a, l.large[a], c, p.blockPages)
    ensures forall a :: a in l.large ==> l.large[a] > 0
  {}

  /** Releasing the blocks leaves the regions of large chunks. */
  lemma LargeStays(p: Params, blocks: seq<nat>, large: map<nat, nat>, regions: set<Region>)
    requires RegionsOf(p, blocks, large) <= regions && p.blockPages > 0
    requires forall a, c :: a in large && c in blocks ==> Apart(a, large[a], c, p.blockPages)
    requires forall a :: a in large ==> large[a] > 0
    ensures RegionsOf(p, [], large) <= regions - set b | b in blocks :: Region(b, p.blockPages * PAGE_SIZE)
    ensures forall j :: 0 <= j < |blocks| ==> Region(blocks[j], p.blockPages * PAGE_SIZE) in regions
  {
    forall j | 0 <= j < |blocks| ensures Region(blocks[j], p.blockPages * PAGE_SIZE) in regions {
      assert blocks[j] in blocks;
    }
    forall a, c | a in large && c in blocks ensures a != c {
      assert Apart(a, large[a], c, p.blockPages);
    }
  }

  /** What the asserts at 705-708 and 716-718 say of two neighbours about to merge, and what the
      packed header needs. */
  ghost predicate MergeReady(hdr: map<nat, Header>, a: nat, b: nat) {
    && a in hdr && b in hdr && a % PAGE_SIZE == 0
    && hdr[a].next == b && hdr[b].prev == a && a + hdr[a].count * PAGE_SIZE == b
    && hdr[a].count + hdr[b].count < PAGE_SIZE
    && (hdr[b].next != 0 ==> hdr[b].next in hdr)
  }

  lemma NeighboursReady(p: Params, hdr: map<nat, Header>, home: map<nat, nat>, a: nat, b: nat)
    requires p.Valid() && Tiling(p, hdr, home) && a in home && a in hdr && hdr[a].next == b && b != 0
    ensures MergeReady(hdr, a, b)
  {
    assert ChunkOk(p, hdr, home, a);
    assert ChunkOk(p, hdr, home, b);
  }

  lemma ListedCounts(p: Params, s: Bulk, large: map<nat, nat>, b: Book, free: set<nat>)
    requires Core(p, s, large, b, free)
    ensures forall x :: x in free ==> x in s.hdr && s.hdr[x].count > 0
  {
    forall x | x in free ensures x in s.hdr && s.hdr[x].count > 0 { InBlock(p, s.hdr, b.home, x); }
  }

  lemma PrevReady(p: Params, repaired: bool, s: Bulk, large: map<nat, nat>, b: Book, rest: map<nat, nat>, h: nat)
    requires Mid(p, repaired, s, large, b, rest, h)
    ensures s.hdr[h].prev != 0 ==> s.hdr[h].prev in s.hdr
    ensures FlaggedChunk(s.hdr, s.hdr[h].prev) ==>
              var a := s.hdr[h].prev;
              && MergeReady(s.hdr, a, h) && a in b.home.Keys - rest.Keys - {h}
              && (s.hdr[a].prev == 0 || (s.hdr[a].prev in s.hdr && !s.hdr[s.hdr[a].prev].free))
    ensures ListsOk(p, s.hdr, s.heads, b.lists, b.home.Keys - rest.Keys - {h})
    ensures forall x :: x in b.home.Keys - rest.Keys - {h} ==> x in s.hdr && s.hdr[x].count > 0
  {
    ListedCounts(p, s, large, b, b.home.Keys - rest.Keys - {h});
    assert ChunkOk(p, s.hdr, b.home, h);
    var a := s.hdr[h].prev;
    if FlaggedChunk(s.hdr, a) {
      assert ChunkOk(p, s.hdr, b.home, a);
      assert FlagOk(p, repaired, s.hdr, rest[h := 0], a);
      NeighboursReady(p, s.hdr, b.home, a, h);
      var q := s.hdr[a].prev;
      if q != 0 {
        assert ChunkOk(p, s.hdr, b.home, q);
        assert FlagOk(p, repaired, s.hdr, rest[h := 0], q);
      }
    }
  }

  lemma NextReady(p: Params, repaired: bool, s: Bulk, large: map<nat, nat>, b: Book, rest: map<nat, nat>, h: nat)
    requires Mid(p, repaired, s, large, b, rest, h)
    requires repaired || !(FlaggedChunk(s.hdr, s.hdr[h].next) && s.hdr[h].next in rest)
    ensures s.hdr[h].next != 0 ==> s.hdr[h].next in s.hdr
    ensures FlaggedChunk(s.hdr, s.hdr[h].next) ==>
              var n := s.hdr[h].next;
              && MergeReady(s.hdr, h, n) && n in b.home.Keys - rest.Keys - {h}
              && (s.hdr[n].next == 0 || (s.hdr[n].next in s.hdr && !s.hdr[s.hdr[n].next].free))
    ensures ListsOk(p, s.hdr, s.heads, b.lists, b.home.Keys - rest.Keys - {h})
    ensures forall x :: x in b.home.Keys - rest.Keys - {h} ==> x in s.hdr && s.hdr[x].count > 0
  {
    ListedCounts(p, s, large, b, b.home.Keys - rest.Keys - {h});
    assert ChunkOk(p, s.hdr, b.home, h);
    var n := s.hdr[h].next;
    if FlaggedChunk(s.hdr, n) {
      assert ChunkOk(p, s.hdr, b.home, n);
      assert FlagOk(p, repaired, s.hdr, rest[h := 0], n);
      NeighboursReady(p, s.hdr, b.home, h, n);
      var q := s.hdr[n].next;
      if q != 0 {
        assert ChunkOk(p, s.hdr, b.home, q);
        assert FlagOk(p, repaired, s.hdr, rest[h := 0], q);
      }
    }
  }

  lemma NodesNotNull(p: Params, s: Bulk, lists: seq<seq<nat>>, free: set<nat>, i: nat)
    requires ListsOk(p, s.hdr, s.heads, lists, free) && i <= p.maxPages
    ensures i < |lists| && forall k :: 0 <= k < |lists[i]| ==> lists[i][k] != 0
  {
    var l := lists[i];
    assert Chain(s.hdr, s.heads[i], l);
    forall k | 0 <= k < |l| ensures l[k] != 0 { assert NodeOk(s.hdr, l, k); }
  }

  lemma LedgerInHdr(p: Params, repaired: bool, s: Bulk, l: Ledger, b: Book, ptr: nat)
    requires Inv(p, repaired, s, l, b) && (ptr in l.live || ptr in l.large)
    ensures ptr in s.hdr && |s.heads| == p.maxPages + 1
    ensures ptr in l.live ==> 0 < s.hdr[ptr].count <= p.maxPages && ptr !in l.large
    ensures ptr !in l.live ==> s.hdr[ptr].count == 0 && ptr !in s.blocks
  {
    if ptr in l.live {
      InBlock(p, s.hdr, b.home, ptr);
      LargeIsNoChunk(p, s, l.large, b.home, ptr, ptr);
    } else if ptr in s.blocks {
      InBlock(p, s.hdr, b.home, ptr);
      LargeIsNoChunk(p, s, l.large, b.home, ptr, ptr);
    }
  }


  /** List i is not empty, its head is a proper header, and popping it leaves proper heads. */
  ghost predicate Poppable(p: Params, s: Bulk, i: nat, chunks: set<nat>) {
    && i <= p.maxPages && |s.heads| == p.maxPages + 1 && s.heads[i] != 0
    && var c := s.heads[i];
    && c in s.hdr && c in chunks && c % PAGE_SIZE == 0 && s.hdr[c].prevFree == 0
    && (s.hdr[c].nextFree != 0 ==> s.hdr[c].nextFree in s.hdr)
    && (s.hdr[c].next != 0 ==> s.hdr[c].next in s.hdr)
    && var s1 := PopFree(s, i);
    && TagsKept(s.hdr, s1.hdr) && |s1.heads| == p.maxPages + 1
    && forall k :: 0 <= k <= p.maxPages && s1.heads[k] != 0 ==> s1.heads[k] in s1.hdr && s1.heads[k] in chunks
  }

  /** After a pop the other heads are still headers of listed chunks. */
  lemma PopFacts(p: Params, repaired: bool, s: Bulk, l: Ledger, b: Book, i: nat)
    requires Inv(p, repaired, s, l, b) && i <= p.maxPages && s.heads[i] != 0
    ensures Poppable(p, s, i, b.home.Keys)
  {
    HeadFacts(p, repaired, s, l, b, i);
    var c := s.heads[i];
    var free := FreeChunks(b, l);
    NeighboursOnList(p, s, b.lists, free, c);
    assert ChunkOk(p, s.hdr, b.home, c);
    var lists' := RemoveKeepsLists(p, s, b.lists, free, c);
    var s1 := PopFree(s, i);
    HeadsInHdr(p, s1.hdr, s1.heads, lists', free - {c});
    forall k | 0 <= k <= p.maxPages && s1.heads[k] != 0 ensures s1.heads[k] in b.home {
      assert Chain(s1.hdr, s1.heads[k], lists'[k]);
      assert s1.heads[k] in lists'[k];
    }
  }

  lemma CutFacts(p: Params, repaired: bool, s: Bulk, l: Ledger, b: Book, pc: nat)
    requires Inv(p, repaired, s, l, b) && 0 < pc <= p.maxPages && s.heads[p.maxPages] != 0
    ensures var c := s.heads[p.maxPages];
            && c in s.hdr && s.hdr[c].count > p.maxPages
            && c + pc * PAGE_SIZE !in b.home
  {
    HeadFacts(p, repaired, s, l, b, p.maxPages);
    InsideIsNoChunk(p, s.hdr, s.blocks, b.home, s.heads[p.maxPages], s.heads[p.maxPages] + pc * PAGE_SIZE);
  }
}
