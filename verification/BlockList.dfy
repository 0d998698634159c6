/** MemoryBlockListItem and MemoryBlockList (src/iibmalloc/page_allocator.h:76-221): a circular
    doubly linked list through the first words of free blocks, closed by a sentinel. */
module BlockList {

  /** The header at the start of a block of memory. */
  class MemoryBlockListItem {
    /** Where the block lies. */
    const address: nat
    var next: MemoryBlockListItem?
    var prev: MemoryBlockListItem?
    var size: nat
    var sizeIndex: nat

    constructor (address: nat)
      ensures this.address == address && next == null && prev == null
    {
      this.address := address;
      next, prev, size, sizeIndex := null, null, 0, 0;
    }

    /** lines 86-92 */
    method Initialize(sz: nat, szIndex: nat)
      modifies this
      ensures size == sz && sizeIndex == szIndex && next == null && prev == null
    {
      size, prev, next, sizeIndex := sz, null, null, szIndex;
    }

    method ListInitializeEmpty()
      modifies this
      ensures Ring([this])
      ensures size == old(size) && sizeIndex == old(sizeIndex)
    {
      next, prev := this, this;
    }

    predicate IsInList()
      reads this
    {
      !(prev == null && next == null)
    }

    /** listInsertNext (lines 101-110) behind position k of the ring r. */
    method ListInsertNext(other: MemoryBlockListItem, ghost r: seq<MemoryBlockListItem>, ghost k: nat)
      requires Ring(r) && k < |r| && r[k] == this && other !in r && !other.IsInList()
      modifies r, other
      ensures Ring(r[..k + 1] + [other] + r[k + 1..])
      ensures forall x :: x in r || x == other ==> x.size == old(x.size) && x.sizeIndex == old(x.sizeIndex)
    {
      assert IsInList() by { assert NodeOk(r, k); }
      ghost var s := r[..k + 1] + [other] + r[k + 1..];
      ghost var n := if k + 1 < |r| then k + 1 else 0;
      assert NodeOk(r, k) && NodeOk(r, n);
      other.next := next;
      other.prev := this;
      next.prev := other;
      next := other;
      forall j | 0 <= j < |s| ensures NodeOk(s, j) {
        if j <= k { assert s[j] == r[j] && old(NodeOk(r, j)); }
        else if j > k + 1 { assert s[j] == r[j - 1] && old(NodeOk(r, j - 1)); }
      }
    }

    /** removeFromList (lines 134-145) at position k of the ring r. */
    method RemoveFromList(ghost r: seq<MemoryBlockListItem>, ghost k: nat)
      requires Ring(r) && 0 < k < |r| && r[k] == this
      modifies r
      ensures Ring(r[..k] + r[k + 1..]) && !IsInList()
      ensures forall x :: x in r ==> x.size == old(x.size) && x.sizeIndex == old(x.sizeIndex)
    {
      assert NodeOk(r, k) && NodeOk(r, k - 1);
      ghost var n := if k + 1 < |r| then k + 1 else 0;
      assert NodeOk(r, n);
      assert prev != null;
      assert next != null;
      prev.next := next;
      next.prev := prev;
      next := null;
      prev := null;
      ghost var s := r[..k] + r[k + 1..];
      forall j | 0 <= j < |s| ensures NodeOk(s, j) {
        if j < k { assert s[j] == r[j] && old(NodeOk(r, j)); }
        else { assert s[j] == r[j + 1] && old(NodeOk(r, j + 1)); }
      }
    }
  }

  function NextOf(r: seq<MemoryBlockListItem>, k: nat): MemoryBlockListItem
    requires k < |r|
  {
    if k + 1 < |r| then r[k + 1] else r[0]
  }

  function PrevOf(r: seq<MemoryBlockListItem>, k: nat): MemoryBlockListItem
    requires k < |r|
  {
    if k > 0 then r[k - 1] else r[|r| - 1]
  }

  ghost predicate NodeOk(r: seq<MemoryBlockListItem>, k: nat)
    requires k < |r|
    reads r[k]
  {
    r[k].next == NextOf(r, k) && r[k].prev == PrevOf(r, k)
  }

  ghost predicate DistinctItems(r: seq<MemoryBlockListItem>) {
    forall j, k :: 0 <= j < k < |r| ==> r[j] != r[k]
  }

  /** r lists the nodes of a circular list, in order. */
  ghost predicate Ring(r: seq<MemoryBlockListItem>)
    reads r
  {
    && DistinctItems(r)
    && forall k {:trigger NodeOk(r, k)} :: 0 <= k < |r| ==> NodeOk(r, k)
  }

  class MemoryBlockList {
    var count: nat
    const lst: MemoryBlockListItem
    /** The blocks on the list, front first. */
    ghost var items: seq<MemoryBlockListItem>

    ghost predicate Valid()
      reads this, lst, items
    {
      Ring([lst] + items) && count == |items|
    }

    constructor ()
      ensures Valid() && items == [] && fresh(lst)
    {
      count := 0;
      lst := new MemoryBlockListItem(0);
      items := [];
      new;
      lst.ListInitializeEmpty();
      assert [lst] + items == [lst];
    }

    predicate Empty()
      reads this
    {
      count == 0
    }

    /** Nothing of the headers changes but the links. */
    twostate predicate SizesKept(s: seq<MemoryBlockListItem>)
      reads s
    {
      forall x :: x in s ==> x.size == old(x.size) && x.sizeIndex == old(x.sizeIndex)
    }

    method PushFront(chk: MemoryBlockListItem)
      requires Valid() && chk != lst && chk !in items && !chk.IsInList()
      modifies this, lst, chk, items
      ensures Valid() && items == [chk] + old(items) && SizesKept(items)
    {
      ghost var r := [lst] + items;
      lst.ListInsertNext(chk, r, 0);
      assert r[..1] + [chk] + r[1..] == [lst] + ([chk] + items);
      count := count + 1;
      items := [chk] + items;
    }

    method PopFront() returns (chk: MemoryBlockListItem)
      requires Valid() && !Empty()
      modifies this, lst, items
      ensures Valid() && old(items) == [chk] + items && chk !in items && !chk.IsInList() && SizesKept(old(items))
    {
      ghost var r := [lst] + items;
      assert forall k :: 2 <= k < |r| ==> r[k] != r[1];
      assert NodeOk(r, 0);
      chk := lst.next;
      chk.RemoveFromList(r, 1);
      assert r[..1] + r[2..] == [lst] + items[1..];
      count := count - 1;
      items := items[1..];
    }

    method PopBack() returns (chk: MemoryBlockListItem)
      requires Valid() && !Empty()
      modifies this, lst, items
      ensures Valid() && old(items) == items + [chk] && !chk.IsInList() && SizesKept(old(items))
    {
      ghost var r := [lst] + items;
      assert NodeOk(r, 0);
      chk := lst.prev;
      chk.RemoveFromList(r, |items|);
      assert r[..|items|] + r[|items| + 1..] == [lst] + items[..|items| - 1];
      count := count - 1;
      items := items[..|items| - 1];
    }

    /** The block at position k, wherever that is. */
    method Remove(chk: MemoryBlockListItem, ghost k: nat)
      requires Valid() && k < |items| && items[k] == chk
      modifies this, lst, items
      ensures Valid() && items == old(items)[..k] + old(items)[k + 1..] && !chk.IsInList() && SizesKept(old(items))
    {
      ghost var r := [lst] + items;
      chk.RemoveFromList(r, k + 1);
      assert r[..k + 1] + r[k + 2..] == [lst] + (items[..k] + items[k + 1..]);
      count := count - 1;
      items := items[..k] + items[k + 1..];
    }
  }

  /** A list whose nodes have not been touched is still a list. */
  twostate lemma ListUntouched(l: MemoryBlockList)
    requires allocated(l) && old(l.Valid()) && unchanged(l) && unchanged(l.lst)
    requires forall x :: x in l.items ==> allocated(x) && unchanged(x)
    ensures l.Valid()
  {
    var r := [l.lst] + l.items;
    forall k | 0 <= k < |r| ensures NodeOk(r, k) {
      assert old(NodeOk(r, k));
      if k > 0 { assert r[k] in l.items; }
      assert r[k].next == old(r[k].next) && r[k].prev == old(r[k].prev);
    }
  }
}
