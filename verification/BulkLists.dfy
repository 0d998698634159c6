/** The free lists of BulkAllocator stay well-formed doubly linked lists under removal from any
    place and under push (src/iibmalloc/iibmalloc.h:485-507, 637-673, 723-731). */
module BulkLists {
  import opened Arith
  import opened Lists
  import opened BulkSpec

  function Without(l: seq<nat>, j: nat): seq<nat>
    requires j < |l|
  {
    l[..j] + l[j + 1..]
  }

  /** The list without one of its members. */
  function Removed(l: seq<nat>, a: nat): seq<nat> {
    if l == [] then [] else if l[0] == a then l[1..] else [l[0]] + Removed(l[1..], a)
  }

  lemma {:induction false} RemovedAt(l: seq<nat>, j: nat)
    requires Distinct(l) && j < |l|
    ensures Removed(l, l[j]) == Without(l, j)
  {
    if j > 0 {
      assert l[0] != l[j] && l[1..][j - 1] == l[j];
      RemovedAt(l[1..], j - 1);
      assert Without(l, j) == [l[0]] + Without(l[1..], j - 1);
    }
  }

  /** The lists when a chunk of n pages goes to the front of the list its page count selects ... */
  function ListsWith(p: Params, lists: seq<seq<nat>>, a: nat, n: nat): (r: seq<seq<nat>>)
    requires |lists| == p.maxPages + 1
    ensures |r| == |lists|
  {
    lists[ListIdx(p, n) := [a] + lists[ListIdx(p, n)]]
  }

  /** ... and when it is taken off that list. */
  function ListsWithout(p: Params, lists: seq<seq<nat>>, a: nat, n: nat): (r: seq<seq<nat>>)
    requires |lists| == p.maxPages + 1
    ensures |r| == |lists|
  {
    lists[ListIdx(p, n) := Removed(lists[ListIdx(p, n)], a)]
  }

  /** Everything of a header except its free-list links. */
  ghost predicate SameTag(h: Header, h': Header) {
    h.prev == h'.prev && h.next == h'.next && h.count == h'.count && h.free == h'.free
  }

  /** The step wrote free-list links only. */
  ghost predicate TagsKept(hdr: map<nat, Header>, hdr': map<nat, Header>) {
    hdr'.Keys == hdr.Keys && forall c :: c in hdr ==> SameTag(hdr[c], hdr'[c])
  }

  lemma TagsTransitive(hdr: map<nat, Header>, hdr1: map<nat, Header>, hdr2: map<nat, Header>)
    requires TagsKept(hdr, hdr1) && TagsKept(hdr1, hdr2)
    ensures TagsKept(hdr, hdr2)
  {}

  lemma RemoveTags(p: Params, s: Bulk, item: nat)
    requires item in s.hdr && |s.heads| == p.maxPages + 1
    ensures TagsKept(s.hdr, RemoveFromFreeList(p, s, item).hdr)
  {}

  lemma PushTags(p: Params, s: Bulk, h: nat)
    requires h in s.hdr && |s.heads| == p.maxPages + 1
    ensures TagsKept(s.hdr, PushFree(p, s, h).hdr)
  {}

  /** The step wrote nothing outside `touched`. */
  ghost predicate OnlyTouched(hdr: map<nat, Header>, hdr': map<nat, Header>, touched: set<nat>) {
    && hdr'.Keys == hdr.Keys
    && forall c :: c in hdr && c !in touched ==> hdr'[c] == hdr[c]
  }

  lemma ChainFrame(hdr: map<nat, Header>, hdr': map<nat, Header>, head: nat, l: seq<nat>)
    requires Chain(hdr, head, l)
    requires forall a :: a in l ==> a in hdr && a in hdr'
                                    && hdr'[a].prevFree == hdr[a].prevFree && hdr'[a].nextFree == hdr[a].nextFree
    ensures Chain(hdr', head, l)
  {
    forall j | 0 <= j < |l| ensures NodeOk(hdr', l, j) {
      assert NodeOk(hdr, l, j);
    }
  }

  /** Memory after unlinking node j of list l. */
  ghost function Unlinked(hdr: map<nat, Header>, l: seq<nat>, j: nat): map<nat, Header>
    requires j < |l|
  {
    var hdr1 := if j > 0 then SetNextFree(hdr, l[j - 1], After(l, j)) else hdr;
    if j + 1 < |l| then SetPrevFree(hdr1, l[j + 1], Before(l, j)) else hdr1
  }

  lemma ChainUnlink(hdr: map<nat, Header>, head: nat, l: seq<nat>, j: nat)
    requires Chain(hdr, head, l) && j < |l|
    ensures Chain(Unlinked(hdr, l, j), First(Without(l, j)), Without(l, j))
  {
    var hdr' := Unlinked(hdr, l, j);
    var l' := Without(l, j);
    forall k | 0 <= k < |l'| ensures NodeOk(hdr', l', k) {
      var k0 := if k < j then k else k + 1;
      assert l'[k] == l[k0];
      assert NodeOk(hdr, l, k0);
      if j > 0 { assert NodeOk(hdr, l, j - 1); }
      if j + 1 < |l| { assert NodeOk(hdr, l, j + 1); }
    }
  }

  lemma UnlinkedKeeps(hdr: map<nat, Header>, l: seq<nat>, j: nat)
    requires j < |l|
    ensures TagsKept(hdr, Unlinked(hdr, l, j))
    ensures forall c :: c in hdr && c !in l ==> Unlinked(hdr, l, j)[c] == hdr[c]
  {}

  lemma HeadsInHdr(p: Params, hdr: map<nat, Header>, heads: seq<nat>, lists: seq<seq<nat>>, free: set<nat>)
    requires ListsOk(p, hdr, heads, lists, free)
    ensures forall i :: 0 <= i <= p.maxPages && heads[i] != 0 ==> heads[i] in hdr
  {
    forall i | 0 <= i <= p.maxPages && heads[i] != 0 ensures heads[i] in hdr {
      assert Chain(hdr, heads[i], lists[i]);
      assert NodeOk(hdr, lists[i], 0);
    }
  }

  /** On a well-formed list, removeFromFreeList unlinks; the asserts at 489, 497 and 504 hold. */
  lemma RemoveUnlinks(p: Params, s: Bulk, lists: seq<seq<nat>>, free: set<nat>, i: nat, j: nat)
    requires ListsOk(p, s.hdr, s.heads, lists, free)
    requires i <= p.maxPages && j < |lists[i]|
    ensures var item := lists[i][j];
            && item in s.hdr && item in free && ListIdx(p, s.hdr[item].count) == i
            && RemoveFromFreeList(p, s, item).hdr == Unlinked(s.hdr, lists[i], j)
            && RemoveFromFreeList(p, s, item).heads == s.heads[i := First(Without(lists[i], j))]
            && RemoveFromFreeList(p, s, item).blocks == s.blocks
  {
    var l := lists[i];
    var item := l[j];
    assert item in lists[i];
    assert Chain(s.hdr, s.heads[i], l);
    assert NodeOk(s.hdr, l, j);
    if j > 0 { assert NodeOk(s.hdr, l, j - 1); }
    if j + 1 < |l| { assert NodeOk(s.hdr, l, j + 1); }
  }

  /** The asserts of removeFromFreeList: neighbours are headers on the same list, and an item
      without a predecessor is the head. */
  lemma NeighboursOnList(p: Params, s: Bulk, lists: seq<seq<nat>>, free: set<nat>, item: nat)
    requires ListsOk(p, s.hdr, s.heads, lists, free) && item in free
    ensures item in s.hdr
    ensures var h := s.hdr[item];
            && (h.prevFree != 0 ==>
                  && h.prevFree in free && h.prevFree in s.hdr
                  && ListIdx(p, s.hdr[h.prevFree].count) == ListIdx(p, h.count))
            && (h.prevFree == 0 ==> s.heads[ListIdx(p, h.count)] == item)
            && (h.nextFree != 0 ==>
                  && h.nextFree in free && h.nextFree in s.hdr
                  && ListIdx(p, s.hdr[h.nextFree].count) == ListIdx(p, h.count)
                  && h.nextFree != item && h.prevFree != item)
  {
    var i := ListIdx(p, s.hdr[item].count);
    var l := lists[i];
    var j :| 0 <= j < |l| && l[j] == item;
    assert Chain(s.hdr, s.heads[i], l);
    assert NodeOk(s.hdr, l, j);
    if j > 0 { assert NodeOk(s.hdr, l, j - 1); assert l[j - 1] in lists[i]; }
    if j + 1 < |l| { assert NodeOk(s.hdr, l, j + 1); assert l[j + 1] in lists[i]; }
  }

  /** Popping the head is removing it. */
  lemma PopRemoves(p: Params, s: Bulk, lists: seq<seq<nat>>, free: set<nat>, i: nat)
    requires ListsOk(p, s.hdr, s.heads, lists, free)
    requires i <= p.maxPages && s.heads[i] != 0
    ensures lists[i] != [] && s.heads[i] == lists[i][0] && s.heads[i] in s.hdr
    ensures s.hdr[s.heads[i]].prevFree == 0
    ensures PopFree(s, i) == RemoveFromFreeList(p, s, s.heads[i])
  {
    var l := lists[i];
    assert Chain(s.hdr, s.heads[i], l);
    assert NodeOk(s.hdr, l, 0);
    assert l[0] in lists[i];
    if 1 < |l| { assert NodeOk(s.hdr, l, 1); }
  }

  /** Removing a listed chunk leaves well-formed lists of the others. */
  lemma RemoveKeepsLists(p: Params, s: Bulk, lists: seq<seq<nat>>, free: set<nat>, item: nat)
    returns (lists': seq<seq<nat>>)
    requires ListsOk(p, s.hdr, s.heads, lists, free) && item in free
    ensures item in s.hdr
    ensures var s' := RemoveFromFreeList(p, s, item);
            && s'.blocks == s.blocks
            && TagsKept(s.hdr, s'.hdr)
            && OnlyTouched(s.hdr, s'.hdr, free - {item})
            && ListsOk(p, s'.hdr, s'.heads, lists', free - {item})
            && lists' == ListsWithout(p, lists, item, s.hdr[item].count)
  {
    var i := ListIdx(p, s.hdr[item].count);
    var l := lists[i];
    var j :| 0 <= j < |l| && l[j] == item;
    RemoveUnlinks(p, s, lists, free, i, j);
    UnlinkedKeeps(s.hdr, l, j);
    lists' := lists[i := Without(l, j)];
    assert Chain(s.hdr, s.heads[i], l);
    RemovedAt(l, j);
    ListsAfterUnlink(p, s, lists, free, i, j);
  }

  lemma ListsAfterUnlink(p: Params, s: Bulk, lists: seq<seq<nat>>, free: set<nat>, i: nat, j: nat)
    requires ListsOk(p, s.hdr, s.heads, lists, free)
    requires i <= p.maxPages && j < |lists[i]|
    ensures OnlyTouched(s.hdr, Unlinked(s.hdr, lists[i], j), free - {lists[i][j]})
    ensures ListsOk(p, Unlinked(s.hdr, lists[i], j), s.heads[i := First(Without(lists[i], j))],
                    lists[i := Without(lists[i], j)], free - {lists[i][j]})
  {
    var l := lists[i];
    var item := l[j];
    var hdr' := Unlinked(s.hdr, l, j);
    var lists' := lists[i := Without(l, j)];
    var free' := free - {item};
    UnlinkedKeeps(s.hdr, l, j);
    WithoutMembers(l, j);
    assert Chain(s.hdr, s.heads[i], l);
    ChainUnlink(s.hdr, s.heads[i], l, j);
    forall k | 0 <= k <= p.maxPages ensures Chain(hdr', s.heads[i := First(Without(l, j))][k], lists'[k]) {
      if k != i { OtherChain(p, s, lists, free, i, hdr', k); }
    }
    forall k, a | 0 <= k <= p.maxPages && a in lists'[k]
      ensures a in free' && a in hdr' && ListIdx(p, hdr'[a].count) == k
    {
      assert a in lists[k] && item in lists[i];
    }
    forall a | a in free' ensures a in hdr' && a in lists'[ListIdx(p, hdr'[a].count)] {
      assert a in lists[ListIdx(p, s.hdr[a].count)];
    }
  }

  lemma WithoutMembers(l: seq<nat>, j: nat)
    requires Distinct(l) && j < |l|
    ensures forall a :: a in Without(l, j) <==> a in l && a != l[j]
  {
    forall a | a in l && a != l[j] ensures a in Without(l, j) {
      var k :| 0 <= k < |l| && l[k] == a;
      assert Without(l, j)[if k < j then k else k - 1] == a;
    }
  }

  /** A write to nodes of list i leaves list k alone. */
  lemma OtherChain(p: Params, s: Bulk, lists: seq<seq<nat>>, free: set<nat>, i: nat, hdr': map<nat, Header>, k: nat)
    requires ListsOk(p, s.hdr, s.heads, lists, free)
    requires i <= p.maxPages && k <= p.maxPages && k != i
    requires forall c :: c in s.hdr && c !in lists[i] ==> c in hdr' && hdr'[c] == s.hdr[c]
    ensures Chain(hdr', s.heads[k], lists[k])
  {
    assert Chain(s.hdr, s.heads[k], lists[k]);
    forall a | a in lists[k]
      ensures a in s.hdr && a in hdr' && hdr'[a].prevFree == s.hdr[a].prevFree && hdr'[a].nextFree == s.hdr[a].nextFree
    {
      if a in lists[i] { assert false; }
    }
    ChainFrame(s.hdr, hdr', s.heads[k], lists[k]);
  }

  /** Pushing an unlisted chunk leaves well-formed lists with that chunk added. */
  lemma PushKeepsLists(p: Params, s: Bulk, lists: seq<seq<nat>>, free: set<nat>, h: nat)
    returns (lists': seq<seq<nat>>)
    requires ListsOk(p, s.hdr, s.heads, lists, free) && h !in free && h != 0 && h in s.hdr
    ensures var s' := PushFree(p, s, h);
            && s'.blocks == s.blocks
            && TagsKept(s.hdr, s'.hdr)
            && OnlyTouched(s.hdr, s'.hdr, free + {h})
            && ListsOk(p, s'.hdr, s'.heads, lists', free + {h})
            && lists' == ListsWith(p, lists, h, s.hdr[h].count)
  {
    var s' := PushFree(p, s, h);
    var i := ListIdx(p, s.hdr[h].count);
    var l := lists[i];
    lists' := lists[i := [h] + l];
    assert Chain(s.hdr, s.heads[i], l);
    if l != [] { assert NodeOk(s.hdr, l, 0); assert l[0] in lists[i]; }
    assert h !in l by { if h in lists[i] { assert false; } }
    ChainPush(s.hdr, s.heads[i], l, h);
    forall k | 0 <= k <= p.maxPages ensures Chain(s'.hdr, s'.heads[k], lists'[k]) {
      if k != i {
        assert h !in lists[k];
        assert Chain(s.hdr, s.heads[k], lists[k]);
        forall a | a in lists[k]
          ensures a in s.hdr && a in s'.hdr && s'.hdr[a].prevFree == s.hdr[a].prevFree
          ensures s'.hdr[a].nextFree == s.hdr[a].nextFree
        {
          if a in lists[i] { assert false; }
        }
        ChainFrame(s.hdr, s'.hdr, s.heads[k], lists[k]);
      }
    }
    PushMembers(p, s, lists, free, h);
  }

  lemma ChainPush(hdr: map<nat, Header>, head: nat, l: seq<nat>, h: nat)
    requires Chain(hdr, head, l) && h in hdr && h !in l && h != 0
    ensures var hdr1 := hdr[h := hdr[h].(prevFree := 0, nextFree := head)];
            Chain(if head != 0 then SetPrevFree(hdr1, head, h) else hdr1, h, [h] + l)
  {
    var hdr1 := hdr[h := hdr[h].(prevFree := 0, nextFree := head)];
    var hdr' := if head != 0 then SetPrevFree(hdr1, head, h) else hdr1;
    var l' := [h] + l;
    if l != [] { assert NodeOk(hdr, l, 0); }
    forall k | 0 <= k < |l'| ensures NodeOk(hdr', l', k) {
      if k > 0 {
        assert NodeOk(hdr, l, k - 1);
        assert l'[k] == l[k - 1];
      }
    }
  }

  lemma PushMembers(p: Params, s: Bulk, lists: seq<seq<nat>>, free: set<nat>, h: nat)
    requires ListsOk(p, s.hdr, s.heads, lists, free) && h !in free && h != 0 && h in s.hdr
    ensures var hdr' := PushFree(p, s, h).hdr;
            var i := ListIdx(p, s.hdr[h].count);
            var lists' := lists[i := [h] + lists[i]];
            && (forall k, a :: 0 <= k <= p.maxPages && a in lists'[k]
                  ==> a in free + {h} && a in hdr' && ListIdx(p, hdr'[a].count) == k)
            && (forall a :: a in free + {h} ==> a in hdr' && a in lists'[ListIdx(p, hdr'[a].count)])
  {
    var hdr' := PushFree(p, s, h).hdr;
    var i := ListIdx(p, s.hdr[h].count);
    var lists' := lists[i := [h] + lists[i]];
    forall k, a | 0 <= k <= p.maxPages && a in lists'[k]
      ensures a in free + {h} && a in hdr' && ListIdx(p, hdr'[a].count) == k
    {
      if a != h { assert a in lists[k]; }
    }
    forall a | a in free + {h} ensures a in hdr' && a in lists'[ListIdx(p, hdr'[a].count)] {
      if a != h { assert a in lists[ListIdx(p, s.hdr[a].count)]; }
    }
  }

  /** Headers may change elsewhere, as long as the listed chunks keep count and links. */
  lemma ListsFrame(p: Params, hdr: map<nat, Header>, hdr': map<nat, Header>, heads: seq<nat>, lists: seq<seq<nat>>,
                   free: set<nat>)
    requires ListsOk(p, hdr, heads, lists, free)
    requires forall a :: a in free && a in hdr ==>
               a in hdr' && hdr'[a].count == hdr[a].count
               && hdr'[a].prevFree == hdr[a].prevFree && hdr'[a].nextFree == hdr[a].nextFree
    ensures ListsOk(p, hdr', heads, lists, free)
  {
    forall i | 0 <= i <= p.maxPages ensures Chain(hdr', heads[i], lists[i]) {
      assert Chain(hdr, heads[i], lists[i]);
      ChainFrame(hdr, hdr', heads[i], lists[i]);
    }
  }
}
