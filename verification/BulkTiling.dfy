/** Splitting and merging keep every block tiled exactly by its chunks
    (src/iibmalloc/iibmalloc.h:509-543, 637-642, 703-720). */
module BulkTiling {
  import opened Arith
  import opened Lists
  import opened BulkSpec
  import opened BulkLists

  /** The links alone force the chunks of a block apart: walking back from the higher chunk one
      meets the lower one or a chunk that ends above it. */
  lemma {:induction false} ChunksApart(p: Params, hdr: map<nat, Header>, home: map<nat, nat>, c: nat, d: nat)
    requires Tiling(p, hdr, home)
    requires c in home && d in home && home[c] == home[d] && c < d
    ensures c in hdr && c + hdr[c].count * PAGE_SIZE <= d
    decreases c + d
  {
    assert ChunkOk(p, hdr, home, c) && ChunkOk(p, hdr, home, d);
    var q := hdr[d].prev;
    assert ChunkOk(p, hdr, home, q);
    if q < c {
      ChunksApart(p, hdr, home, q, c);
    } else if c < q {
      ChunksApart(p, hdr, home, c, q);
    }
  }

  lemma InBlock(p: Params, hdr: map<nat, Header>, home: map<nat, nat>, c: nat)
    requires Tiling(p, hdr, home) && c in home
    ensures c in hdr && c % PAGE_SIZE == 0 && 0 < home[c] <= c && 1 <= hdr[c].count
    ensures c + hdr[c].count * PAGE_SIZE <= home[c] + p.blockPages * PAGE_SIZE
  {
    assert ChunkOk(p, hdr, home, c);
  }

  lemma BlocksApart(p: Params, blocks: seq<nat>, home: map<nat, nat>, x: nat, y: nat)
    requires BlocksOk(p, blocks, home) && x in blocks && y in blocks && x != y
    ensures Apart(x, p.blockPages, y, p.blockPages)
  {
    var i :| 0 <= i < |blocks| && blocks[i] == x;
    var j :| 0 <= j < |blocks| && blocks[j] == y;
    if j < i { assert Apart(blocks[j], p.blockPages, blocks[i], p.blockPages); }
  }

  /** Any two chunks are disjoint. */
  lemma AllChunksApart(p: Params, hdr: map<nat, Header>, blocks: seq<nat>, home: map<nat, nat>, c: nat, d: nat)
    requires Tiling(p, hdr, home) && BlocksOk(p, blocks, home)
    requires c in home && d in home && c != d
    ensures c in hdr && d in hdr && Apart(c, hdr[c].count, d, hdr[d].count)
  {
    InBlock(p, hdr, home, c);
    InBlock(p, hdr, home, d);
    if home[c] == home[d] {
      if c < d { ChunksApart(p, hdr, home, c, d); } else { ChunksApart(p, hdr, home, d, c); }
    } else {
      BlocksApart(p, blocks, home, home[c], home[d]);
    }
  }

  /** Walking a block from one of its chunks finds the chunk of any later address. */
  lemma {:induction false} ChunkOf(p: Params, hdr: map<nat, Header>, home: map<nat, nat>, c: nat, q: nat)
    returns (d: nat)
    requires Tiling(p, hdr, home) && c in home && c <= q < home[c] + p.blockPages * PAGE_SIZE
    ensures d in home && d in hdr && home[d] == home[c] && d <= q < d + hdr[d].count * PAGE_SIZE
    decreases home[c] + p.blockPages * PAGE_SIZE - c
  {
    assert ChunkOk(p, hdr, home, c);
    if q < c + hdr[c].count * PAGE_SIZE {
      d := c;
    } else {
      d := ChunkOf(p, hdr, home, hdr[c].next, q);
    }
  }

  lemma InsideIsNoChunk(p: Params, hdr: map<nat, Header>, blocks: seq<nat>, home: map<nat, nat>, c: nat, u: nat)
    requires Tiling(p, hdr, home) && BlocksOk(p, blocks, home)
    requires c in home && c in hdr && c < u < c + hdr[c].count * PAGE_SIZE
    ensures u !in home
  {
    if u in home {
      AllChunksApart(p, hdr, blocks, home, c, u);
      InBlock(p, hdr, home, u);
    }
  }

  lemma TilingFrame(p: Params, hdr: map<nat, Header>, hdr': map<nat, Header>, home: map<nat, nat>)
    requires Tiling(p, hdr, home)
    requires forall c :: c in home && c in hdr ==>
               c in hdr' && hdr'[c].prev == hdr[c].prev && hdr'[c].next == hdr[c].next && hdr'[c].count == hdr[c].count
    ensures Tiling(p, hdr', home)
  {
    forall c | c in home ensures ChunkOk(p, hdr', home, c) {
      assert ChunkOk(p, hdr, home, c);
    }
  }

  /** Splitting keeps the tiling, provided the successor's back-link is updated or there is no
      successor. */
  lemma SplitTiling(p: Params, repaired: bool, hdr: map<nat, Header>, blocks: seq<nat>, home: map<nat, nat>, c: nat,
                    pc: nat)
    requires Tiling(p, hdr, home) && BlocksOk(p, blocks, home)
    requires c in home && c in hdr && 0 < pc < hdr[c].count
    requires repaired || hdr[c].next == 0
    ensures var u := c + pc * PAGE_SIZE;
            && u !in home
            && Tiling(p, SplitChunk(repaired, hdr, c, pc), home[u := home[c]])
            && BlocksOk(p, blocks, home[u := home[c]])
  {
    var u := c + pc * PAGE_SIZE;
    InsideIsNoChunk(p, hdr, blocks, home, c, u);
    var hdr', home' := SplitChunk(repaired, hdr, c, pc), home[u := home[c]];
    forall d | d in home' ensures ChunkOk(p, hdr', home', d) {
      SplitChunkOk(p, repaired, hdr, home, c, pc, d);
    }
    assert home[c] in blocks && home[home[c]] == home[c];
  }

  lemma SplitChunkOk(p: Params, repaired: bool, hdr: map<nat, Header>, home: map<nat, nat>, c: nat, pc: nat, d: nat)
    requires Tiling(p, hdr, home)
    requires c in home && c in hdr && 0 < pc < hdr[c].count
    requires repaired || hdr[c].next == 0
    requires var u := c + pc * PAGE_SIZE; u !in home && d in home[u := home[c]]
    ensures var u := c + pc * PAGE_SIZE;
            ChunkOk(p, SplitChunk(repaired, hdr, c, pc), home[u := home[c]], d)
  {
    var n, u := hdr[c].next, c + pc * PAGE_SIZE;
    assert ChunkOk(p, hdr, home, c);
    if n != 0 { assert ChunkOk(p, hdr, home, n); }
    if d == u {
      DivModShift(c, PAGE_SIZE, pc);
    } else if d != c {
      assert ChunkOk(p, hdr, home, d);
    }
  }

  function Dropped(home: map<nat, nat>, b: nat): map<nat, nat> {
    map c | c in home && c != b :: home[c]
  }

  /** Merging keeps the tiling, under the same proviso for the chunk after the second one. */
  lemma MergeTiling(p: Params, repaired: bool, hdr: map<nat, Header>, blocks: seq<nat>, home: map<nat, nat>, a: nat,
                    b: nat)
    requires Tiling(p, hdr, home) && BlocksOk(p, blocks, home)
    requires a in home && a in hdr && b != 0 && hdr[a].next == b && b in hdr
    requires repaired || hdr[b].next == 0
    ensures b in home && home[b] == home[a]
    ensures Tiling(p, MergeChunks(repaired, hdr, a, b), Dropped(home, b))
    ensures BlocksOk(p, blocks, Dropped(home, b))
  {
    assert ChunkOk(p, hdr, home, a);
    assert ChunkOk(p, hdr, home, b);
    var hdr', home' := MergeChunks(repaired, hdr, a, b), Dropped(home, b);
    forall d | d in home' ensures ChunkOk(p, hdr', home', d) {
      MergeChunkOk(p, repaired, hdr, home, a, b, d);
    }
    MergeBlocks(p, hdr, blocks, home, b);
  }

  lemma MergeBlocks(p: Params, hdr: map<nat, Header>, blocks: seq<nat>, home: map<nat, nat>, b: nat)
    requires BlocksOk(p, blocks, home) && b in home && home[b] != b
    ensures BlocksOk(p, blocks, Dropped(home, b))
  {
    assert b !in blocks;
  }

  lemma MergeChunkOk(p: Params, repaired: bool, hdr: map<nat, Header>, home: map<nat, nat>, a: nat, b: nat, d: nat)
    requires Tiling(p, hdr, home)
    requires a in home && a in hdr && b != 0 && hdr[a].next == b && b in hdr
    requires repaired || hdr[b].next == 0
    requires d in Dropped(home, b)
    ensures ChunkOk(p, MergeChunks(repaired, hdr, a, b), Dropped(home, b), d)
  {
    assert ChunkOk(p, hdr, home, a);
    assert ChunkOk(p, hdr, home, b);
    var n := hdr[b].next;
    if n != 0 { assert ChunkOk(p, hdr, home, n); }
    assert ChunkOk(p, hdr, home, d);
  }

  /** A fresh block is one chunk. */
  lemma NewBlockTiling(p: Params, s: Bulk, l: Ledger, home: map<nat, nat>, osAddr: nat)
    requires p.Valid() && Tiling(p, s.hdr, home) && BlocksOk(p, s.blocks, home)
    requires FreshRegion(p, s, l, osAddr, p.blockPages)
    requires |s.heads| == p.maxPages + 1
    ensures osAddr !in home
    ensures Tiling(p, NewBlock(p, s, osAddr).hdr, home[osAddr := osAddr])
    ensures BlocksOk(p, [osAddr] + s.blocks, home[osAddr := osAddr])
  {
    if osAddr in home {
      InBlock(p, s.hdr, home, osAddr);
    }
    var hdr' := NewBlock(p, s, osAddr).hdr;
    var home' := home[osAddr := osAddr];
    forall d | d in home' ensures ChunkOk(p, hdr', home', d) {
      if d != osAddr { assert ChunkOk(p, s.hdr, home, d); }
    }
    var blocks' := [osAddr] + s.blocks;
    forall i, j | 0 <= i < j < |blocks'| ensures Apart(blocks'[i], p.blockPages, blocks'[j], p.blockPages) {
      assert blocks'[j] == s.blocks[j - 1];
    }
  }
}
