/** The regions of the operating system that stand behind the two allocators. */
module Regions {
  import opened Arith
  import opened VirtualMemoryModel
  import opened BulkSpec
  import PageAddress
  import Pages = PagerSpec
  import Multipage

  /** The regions behind the blocks and the large chunks. */
  ghost function RegionsOf(p: Params, blocks: seq<nat>, large: map<nat, nat>): set<Region> {
    (set b | b in blocks :: Region(b, p.blockPages * PAGE_SIZE)) + LargeRegions(large)
  }

  ghost function LargeRegions(large: map<nat, nat>): set<Region> {
    set a | a in large :: Region(a, large[a] * PAGE_SIZE)
  }

  lemma FreshForUs(p: Params, s: Bulk, l: Ledger, regions: set<Region>, addr: nat, pages: nat)
    requires RegionsOf(p, s.blocks, l.large) <= regions && FreshRegionAt(regions, addr, pages * PAGE_SIZE)
    ensures FreshRegion(p, s, l, addr, pages)
  {
    forall b | b in s.blocks ensures Apart(addr, pages, b, p.blockPages) {
      assert Region(b, p.blockPages * PAGE_SIZE) in RegionsOf(p, s.blocks, l.large);
    }
    forall a | a in l.large ensures Apart(addr, pages, a, l.large[a]) {
      assert Region(a, l.large[a] * PAGE_SIZE) in RegionsOf(p, s.blocks, l.large);
    }
  }

  lemma RegionsGrow(p: Params, blocks: seq<nat>, large: map<nat, nat>, addr: nat, regions: set<Region>)
    requires RegionsOf(p, blocks, large) <= regions
    requires p.Valid() && FreshRegionAt(regions, addr, p.blockPages * PAGE_SIZE)
    ensures var r := Region(addr, p.blockPages * PAGE_SIZE);
            && RegionsOf(p, [addr] + blocks, large) == RegionsOf(p, blocks, large) + {r}
            && r !in regions
            && (regions + {r}) - RegionsOf(p, [addr] + blocks, large) == regions - RegionsOf(p, blocks, large)
  {
    var r := Region(addr, p.blockPages * PAGE_SIZE);
    assert !DisjointRegions(r, r);
    assert forall x :: x in RegionsOf(p, [addr] + blocks, large) <==> x in RegionsOf(p, blocks, large) + {r};
  }

  lemma LargeRegionGone(p: Params, blocks: seq<nat>, large: map<nat, nat>, ptr: nat, regions: set<Region>)
    requires ptr in large && ptr !in blocks && RegionsOf(p, blocks, large) <= regions
    ensures var r := Region(ptr, large[ptr] * PAGE_SIZE);
            && r in regions
            && RegionsOf(p, blocks, large - {ptr}) == RegionsOf(p, blocks, large) - {r}
            && (regions - {r}) - RegionsOf(p, blocks, large - {ptr}) == regions - RegionsOf(p, blocks, large)
  {
    var r := Region(ptr, large[ptr] * PAGE_SIZE);
    assert r in RegionsOf(p, blocks, large);
    assert r in LargeRegions(large);
    forall x | x in LargeRegions(large) && x != r ensures x in LargeRegions(large - {ptr}) {
      var a :| a in large && x == Region(a, large[a] * PAGE_SIZE);
      assert a in large - {ptr};
    }
    assert LargeRegions(large - {ptr}) == LargeRegions(large) - {r};
  }

  lemma LargeRegion(p: Params, blocks: seq<nat>, large: map<nat, nat>, addr: nat, pc: nat, regions: set<Region>)
    requires RegionsOf(p, blocks, large) <= regions && pc > 0
    requires FreshRegionAt(regions, addr, pc * PAGE_SIZE) && addr !in large
    ensures var r := Region(addr, pc * PAGE_SIZE);
            && RegionsOf(p, blocks, large[addr := pc]) == RegionsOf(p, blocks, large) + {r}
            && r !in regions
            && (regions + {r}) - RegionsOf(p, blocks, large[addr := pc]) == regions - RegionsOf(p, blocks, large)
  {
    var r := Region(addr, pc * PAGE_SIZE);
    assert !DisjointRegions(r, r);
    var large' := large[addr := pc];
    assert addr in large';
    forall x | x in LargeRegions(large) ensures x in LargeRegions(large') {
      var a :| a in large && x == Region(a, large[a] * PAGE_SIZE);
      assert a in large';
    }
    assert LargeRegions(large') == LargeRegions(large) + {r};
  }

  ghost function ReservationsOf(g: PageAddress.Geometry, s: Pages.Pager): set<Region> {
    set j | 1 <= j < |s.blocks| :: Region(s.blocks[j].addr, g.ReservationSize())
  }

  lemma FreshForPager(g: PageAddress.Geometry, s: Pages.Pager, regions: set<Region>, addr: nat)
    requires ReservationsOf(g, s) <= regions && FreshRegionAt(regions, addr, g.ReservationSize())
    ensures Pages.FreshReservation(g, s, addr)
  {
    forall j | 1 <= j < |s.blocks| ensures Pages.ApartBlocks(g, s.blocks[j].addr, addr) {
      assert Region(s.blocks[j].addr, g.ReservationSize()) in ReservationsOf(g, s);
    }
  }

  lemma OwnedGrows(g: PageAddress.Geometry, s: Pages.Pager, s': Pages.Pager, addr: nat, regions: set<Region>)
    requires |s'.blocks| == |s.blocks| + 1 && 1 <= |s.blocks| && s'.blocks[|s.blocks|].addr == addr
    requires forall j :: 0 <= j < |s.blocks| ==> s'.blocks[j].addr == s.blocks[j].addr
    requires ReservationsOf(g, s) <= regions && FreshRegionAt(regions, addr, g.ReservationSize())
    requires g.ReservationSize() > 0
    ensures var r := Region(addr, g.ReservationSize());
            && r !in regions
            && ReservationsOf(g, s') <= regions + {r}
            && (regions + {r}) - ReservationsOf(g, s') == regions - ReservationsOf(g, s)
  {
    var r := Region(addr, g.ReservationSize());
    assert !DisjointRegions(r, r);
    forall x ensures x in ReservationsOf(g, s') <==> x in ReservationsOf(g, s) || x == r {
      if x == r { assert s'.blocks[|s.blocks|].addr == addr; }
      if x in ReservationsOf(g, s) {
        var j :| 1 <= j < |s.blocks| && x == Region(s.blocks[j].addr, g.ReservationSize());
        assert s'.blocks[j].addr == s.blocks[j].addr;
      }
    }
  }

  /** The reservation a getPage makes, if it needs one. */
  ghost function NewReservation(g: PageAddress.Geometry, s: Pages.Pager, idx: nat, osAddr: nat): set<Region>
    requires Pages.Shape(g, s) && idx < g.BucketCnt()
  {
    if Pages.NeedsReservation(g, s, idx) then {Region(osAddr, g.ReservationSize())} else {}
  }

  /** The reservations after a getPage. */
  lemma OwnedAfter(g: PageAddress.Geometry, s: Pages.Pager, idx: nat, osAddr: nat, regions: set<Region>)
    requires Pages.Inv(g, s) && idx < g.BucketCnt() && ReservationsOf(g, s) <= regions
    requires Pages.NeedsReservation(g, s, idx) ==> FreshRegionAt(regions, osAddr, g.ReservationSize())
    ensures var s' := Pages.GetPage(g, s, idx, osAddr).0;
            var regions' := regions + NewReservation(g, s, idx, osAddr);
            && ReservationsOf(g, s') <= regions'
            && regions' - ReservationsOf(g, s') == regions - ReservationsOf(g, s)
  {
    var s' := Pages.GetPage(g, s, idx, osAddr).0;
    if Pages.NeedsReservation(g, s, idx) {
      OwnedGrows(g, s, s', osAddr, regions);
    } else {
      assert |s'.blocks| == |s.blocks| && forall j :: 0 <= j < |s.blocks| ==> s'.blocks[j].addr == s.blocks[j].addr;
      assert ReservationsOf(g, s') == ReservationsOf(g, s);
    }
  }

  /** The reservations after n pages of a group: at most the first page needs a new one. */
  lemma {:induction false} ReservationsAfterGroup(g: PageAddress.Geometry, s: Pages.Pager, idx: nat, osAddr: nat,
                                                  n: nat)
    requires Pages.Inv(g, s) && Multipage.Grouped(g, s) && idx < g.BucketCnt() && 1 <= n <= g.MultipagePages()
    requires Pages.NeedsReservation(g, s, idx) ==> Pages.FreshReservation(g, s, osAddr)
    ensures var s' := Multipage.GetPages(g, s, idx, osAddr, n).0;
            ReservationsOf(g, s') == ReservationsOf(g, s) + NewReservation(g, s, idx, osAddr)
  {
    var (s1, qs) := Multipage.GetPages(g, s, idx, osAddr, n - 1);
    if n == 1 {
      assert s1 == s;
      ReservationsAfterPage(g, s, idx, osAddr);
    } else {
      ReservationsAfterGroup(g, s, idx, osAddr, n - 1);
      Multipage.GroupSoFar(g, s, idx, osAddr, n - 1);
      Multipage.GroupNeedsNone(g, s, idx, s1, qs, n - 1);
      ReservationsAfterPage(g, s1, idx, osAddr);
    }
  }

  lemma ReservationsAfterPage(g: PageAddress.Geometry, s: Pages.Pager, idx: nat, osAddr: nat)
    requires Pages.Inv(g, s) && idx < g.BucketCnt()
    ensures var s' := Pages.GetPage(g, s, idx, osAddr).0;
            ReservationsOf(g, s') == ReservationsOf(g, s) + NewReservation(g, s, idx, osAddr)
  {
    var s' := Pages.GetPage(g, s, idx, osAddr).0;
    Pages.HeadUsedUp(g, s, idx);
    assert forall j :: 0 <= j < |s.blocks| ==> s'.blocks[j].addr == s.blocks[j].addr;
    forall x ensures x in ReservationsOf(g, s') <==>
                     x in ReservationsOf(g, s) || x in NewReservation(g, s, idx, osAddr)
    {
      if x in ReservationsOf(g, s) {
        var j :| 1 <= j < |s.blocks| && x == Region(s.blocks[j].addr, g.ReservationSize());
        assert s'.blocks[j].addr == s.blocks[j].addr;
      }
      if Pages.NeedsReservation(g, s, idx) { assert s'.blocks[|s.blocks|].addr == osAddr; }
    }
  }
}
