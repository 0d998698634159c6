/** Free lists of bucket items, threaded through raw pages
    (formatAllocatedPageAlignedBlock, src/iibmalloc/iibmalloc.h:982-1029). */
module FreeItems {
  import opened Arith
  import opened Lists

  /** reservedSizeAtPageStart() aligned up to ALIGNMENT: the offset in a page at which bulk pointers
      and nothing else lie. */
  const MEM_FORBIDDEN: nat := 16

  predicate Forbidden(offset: int) {
    offset % PAGE_SIZE == MEM_FORBIDDEN
  }

  /** n items of size b from offset i on, without the forbidden ones. */
  function ItemsFrom(block: nat, b: nat, i: nat, n: nat): seq<nat>
    decreases n
  {
    if n == 0 then []
    else (if Forbidden(i) then [] else [block + i]) + ItemsFrom(block, b, i + b, n - 1)
  }

  /** How many items a block is divided into, the forbidden ones included. */
  function ItemCnt(blockSz: nat, b: nat): (n: nat)
    requires b > 0
    ensures n * b <= blockSz < n * b + b
    ensures n == 0 <==> blockSz < b
  {
    Euclid(blockSz, b);
    MulMono(1, blockSz / b, b);
    MulMono(blockSz / b, 0, b);
    blockSz / b
  }

  /** The items a block of blockSz bytes is cut into. */
  function Items(block: nat, blockSz: nat, b: nat): seq<nat>
    requires b > 0
  {
    ItemsFrom(block, b, 0, ItemCnt(blockSz, b))
  }

  /** An address inside the block, at a multiple of the item size that is not forbidden. */
  ghost predicate IsItem(block: nat, blockSz: nat, b: nat, a: nat)
    requires b > 0
  {
    block <= a && a + b <= block + blockSz && (a - block) % b == 0 && !Forbidden(a - block)
  }

  // ---------------------------------------------------------------------------------------
  // The items of a block

  lemma {:induction false} ItemsSnoc(block: nat, b: nat, i: nat, n: nat)
    ensures ItemsFrom(block, b, i, n + 1) == ItemsFrom(block, b, i, n)
        + if Forbidden(i + n * b) then [] else [block + (i + n * b)]
    decreases n
  {
    if n > 0 {
      ItemsSnoc(block, b, i + b, n - 1);
      MulDistrib(n - 1, 1, b);
    }
  }

  /** An address of one of the n items of size b from offset i on. */
  ghost predicate ItemAddress(block: nat, b: nat, i: nat, n: nat, a: nat)
    requires b > 0
  {
    && block + i <= a && a + b <= block + i + n * b
    && (a - block - i) % b == 0 && !Forbidden(a - block)
  }

  lemma ItemAddressHead(block: nat, b: nat, i: nat, n: nat)
    requires b > 0 && n > 0 && !Forbidden(i)
    ensures ItemAddress(block, b, i, n, block + i)
  {
    MulDistrib(n - 1, 1, b);
    MulMono(0, n - 1, b);
    DivModUnique(0, b, 0, 0);
  }

  lemma ItemAddressTail(block: nat, b: nat, i: nat, n: nat, a: nat)
    requires b > 0 && n > 0 && ItemAddress(block, b, i + b, n - 1, a)
    ensures ItemAddress(block, b, i, n, a)
  {
    MulDistrib(n - 1, 1, b);
    DivModShift(a - block - (i + b), b, 1);
  }

  /** At multiples of the bucket size that are not forbidden, ... */
  lemma {:induction false} ItemsFromBounds(block: nat, b: nat, i: nat, n: nat)
    requires b > 0
    ensures forall a :: a in ItemsFrom(block, b, i, n) ==> ItemAddress(block, b, i, n, a)
    decreases n
  {
    if n > 0 {
      ItemsFromBounds(block, b, i + b, n - 1);
      var r := ItemsFrom(block, b, i + b, n - 1);
      forall a | a in ItemsFrom(block, b, i, n) ensures ItemAddress(block, b, i, n, a) {
        if a in r { ItemAddressTail(block, b, i, n, a); } else { ItemAddressHead(block, b, i, n); }
      }
    }
  }

  /** ... in address order. */
  lemma {:induction false} ItemsFromOrdered(block: nat, b: nat, i: nat, n: nat)
    requires b > 0
    ensures Increasing(ItemsFrom(block, b, i, n))
    decreases n
  {
    if n > 0 {
      ItemsFromOrdered(block, b, i + b, n - 1);
      ItemsFromBounds(block, b, i + b, n - 1);
      IncreasingCons(block + i, ItemsFrom(block, b, i + b, n - 1));
    }
  }

  /** The items are exactly the multiples k * b, k < n, whose offset is not forbidden. */
  lemma {:induction false} ItemsFromComplete(block: nat, b: nat, i: nat, n: nat, k: nat)
    requires k < n && !Forbidden(i + k * b)
    ensures block + (i + k * b) in ItemsFrom(block, b, i, n)
    decreases n
  {
    if k > 0 {
      MulDistrib(k - 1, 1, b);
      ItemsFromComplete(block, b, i + b, n - 1, k - 1);
    }
  }

  lemma ItemIsMultiple(block: nat, blockSz: nat, b: nat, a: nat) returns (k: nat)
    requires b > 0 && IsItem(block, blockSz, b, a)
    ensures k < ItemCnt(blockSz, b) && !Forbidden(k * b) && a == block + k * b
  {
    var n := ItemCnt(blockSz, b);
    Euclid(a - block, b);
    var q := (a - block) / b;
    MulMono(n, q, b);
    MulMono(q, -1, b);
    k := q;
  }

  /** Which addresses are items: exactly the multiples of the bucket size inside the block whose
      offset in the page is not the forbidden one. */
  lemma ItemsExact(block: nat, blockSz: nat, b: nat, a: nat)
    requires b > 0
    ensures a in Items(block, blockSz, b) <==> IsItem(block, blockSz, b, a)
  {
    var n := ItemCnt(blockSz, b);
    ItemsFromBounds(block, b, 0, n);
    if IsItem(block, blockSz, b, a) {
      var k := ItemIsMultiple(block, blockSz, b, a);
      ItemsFromComplete(block, b, 0, n, k);
    }
  }

  /** The bucket sizes formatting is used with: multiples of 8, and small unless a multiple of 32. */
  predicate Formattable(b: nat) {
    8 <= b && b % 8 == 0 && (b % 32 == 0 || b <= 2032)
  }

  /** For a multiple of 32 no item of a page-aligned block is at the forbidden offset. */
  lemma NoneForbidden(b: nat, k: nat)
    requires b % 32 == 0
    ensures !Forbidden(k * b)
  {
    Euclid(b, 32);
    MulAssoc(k, b / 32, 32);
    MultipleOf32NotForbidden(k * (b / 32));
  }

  lemma MultipleOf32NotForbidden(m: int)
    ensures (m * 32) % PAGE_SIZE != MEM_FORBIDDEN
  {}

  /** The last item of a whole number of pages is never the forbidden one: what the assert at line
      1017 is about. */
  lemma LastNotForbidden(blockSz: nat, b: nat)
    requires Formattable(b) && blockSz % PAGE_SIZE == 0 && b <= blockSz
    ensures ItemCnt(blockSz, b) >= 1 && !Forbidden((ItemCnt(blockSz, b) - 1) * b)
  {
    var n := ItemCnt(blockSz, b);
    MulDistrib(n - 1, 1, b);
    if b % 32 == 0 {
      NoneForbidden(b, n - 1);
    } else {
      NearTheEnd(blockSz, (n - 1) * b);
    }
  }

  lemma NearTheEnd(blockSz: nat, i: nat)
    requires blockSz % PAGE_SIZE == 0 && i < blockSz && blockSz - i < PAGE_SIZE - MEM_FORBIDDEN
    ensures !Forbidden(i)
  {
    DivModUnique(i, PAGE_SIZE, blockSz / PAGE_SIZE - 1, i - (blockSz - PAGE_SIZE));
  }

  /** No two items in a row are forbidden. */
  lemma NextAllowed(b: nat, i: nat)
    requires Formattable(b) && Forbidden(i) && b % 32 != 0
    ensures !Forbidden(i + b)
  {}

  /** The first item always is one. */
  lemma FirstItem(block: nat, blockSz: nat, b: nat)
    requires 0 < b <= blockSz
    ensures Items(block, blockSz, b) != [] && Items(block, blockSz, b)[0] == block
  {
  }
}
