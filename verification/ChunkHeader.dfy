/** AnyChunkHeader (src/iibmalloc/iibmalloc.h:448-469): two words that hold page-aligned
    addresses, with the page count packed into the low bits of the first and the free bit into
    those of the second. */
module ChunkHeader {
  import opened Arith
  import opened BulkSpec

  /** The memory of a header, and behind it the two links of FreeChunkHeader. */
  datatype RawHeader = RawHeader(prev: nat, next: nat, prevFree: nat, nextFree: nat)

  function PrevInBlock(r: RawHeader): nat {
    r.prev - r.prev % PAGE_SIZE
  }

  function NextInBlock(r: RawHeader): nat {
    r.next - r.next % PAGE_SIZE
  }

  function GetPageCount(r: RawHeader): nat {
    r.prev % PAGE_SIZE
  }

  predicate IsFree(r: RawHeader) {
    r.next % PAGE_SIZE != 0
  }

  function Set(r: RawHeader, prevInBlock: nat, nextInBlock: nat, pageCount: nat, isFree: bool): RawHeader {
    r.(prev := prevInBlock + pageCount, next := nextInBlock + if isFree then 1 else 0)
  }

  function SetPrevInBlock(r: RawHeader, prev: nat): RawHeader {
    r.(prev := prev - prev % PAGE_SIZE + r.prev % PAGE_SIZE)
  }

  /** What a header means. */
  function Unpack(r: RawHeader): Header {
    Header(PrevInBlock(r), NextInBlock(r), GetPageCount(r), IsFree(r), r.prevFree, r.nextFree)
  }

  /** What unpacks is aligned and small. */
  lemma Unpacked(r: RawHeader)
    ensures PrevInBlock(r) % PAGE_SIZE == 0 && NextInBlock(r) % PAGE_SIZE == 0 && GetPageCount(r) < PAGE_SIZE
  {
    DivModUnique(PrevInBlock(r), PAGE_SIZE, r.prev / PAGE_SIZE, 0);
    DivModUnique(NextInBlock(r), PAGE_SIZE, r.next / PAGE_SIZE, 0);
  }

  /** Packing loses nothing, for page-aligned links and counts below the page size: the asserts at
      463-465. */
  lemma SetUnpacks(r: RawHeader, prev: nat, next: nat, count: nat, free: bool)
    requires prev % PAGE_SIZE == 0 && next % PAGE_SIZE == 0 && count < PAGE_SIZE
    ensures Unpack(Set(r, prev, next, count, free)) == Header(prev, next, count, free, r.prevFree, r.nextFree)
  {
    DivModUnique(prev + count, PAGE_SIZE, prev / PAGE_SIZE, count);
    DivModUnique(next + if free then 1 else 0, PAGE_SIZE, next / PAGE_SIZE, if free then 1 else 0);
  }

  /** A count that does not fit spills into the back-link. */
  lemma SetSpills(r: RawHeader)
    ensures GetPageCount(Set(r, 0, 0, PAGE_SIZE, false)) == 0
    ensures PrevInBlock(Set(r, 0, 0, PAGE_SIZE, false)) == PAGE_SIZE
  {}

  lemma SetPrevUnpacks(r: RawHeader, prev: nat)
    requires prev % PAGE_SIZE == 0
    ensures Unpack(SetPrevInBlock(r, prev)) == Unpack(r).(prev := prev)
  {
    DivModUnique(prev + r.prev % PAGE_SIZE, PAGE_SIZE, prev / PAGE_SIZE, r.prev % PAGE_SIZE);
  }

  function Headers(mem: map<nat, RawHeader>): (hdr: map<nat, Header>)
    ensures hdr.Keys == mem.Keys
  {
    map a | a in mem :: Unpack(mem[a])
  }

  lemma HeadersUpdate(mem: map<nat, RawHeader>, a: nat, r: RawHeader)
    ensures Headers(mem[a := r]) == Headers(mem)[a := Unpack(r)]
  {}

  lemma LinksUpdate(mem: map<nat, RawHeader>, a: nat, v: nat)
    requires a in mem
    ensures Headers(mem[a := mem[a].(prevFree := v)]) == SetPrevFree(Headers(mem), a, v)
    ensures Headers(mem[a := mem[a].(nextFree := v)]) == SetNextFree(Headers(mem), a, v)
  {
    HeadersUpdate(mem, a, mem[a].(prevFree := v));
    HeadersUpdate(mem, a, mem[a].(nextFree := v));
  }
}
