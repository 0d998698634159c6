/** The tester's random data: PRNG, fillSegmentWithRandomData, checkSegment and
    calcSizeWithStatsAdjustment (src/allocator_tester.h:57-100 and 206-246). */
module SegmentCheck {
  import opened Arith

  type Byte = x: nat | x < 0x100
  type Word = x: nat | x < 0x1_0000_0000
  type Memory = map<nat, Byte>

  /** Bitwise exclusive or. */
  function Xor(a: nat, b: nat): nat {
    if a == 0 && b == 0 then 0
    else 2 * Xor(a / 2, b / 2) + (a % 2 + b % 2) % 2
  }

  /** The state after one call of rng32, and what the call returns. */
  function NextSeed(seed: nat): nat {
    var s1 := Xor(seed, seed / 0x800);
    var s2 := Xor(s1, Word64(s1 * 0x8000_0000));
    Xor(s2, s2 / 0x4_0000)
  }

  function Output(seed: nat): Word {
    Word64(seed * 0xd989bcacc137dcd5) / 0x1_0000_0000
  }

  /** A deterministic generator: the state after a call, and what the call returns. Filling and
      checking agree whatever the generator; the tester's own is XORSHIFT. */
  datatype Generator = Generator(next: nat -> nat, out: nat -> Word)

  const XORSHIFT := Generator(NextSeed, Output)

  /** Two 32-bit numbers as one of 64 bits. */
  function Wide(hi: nat, lo: nat): nat {
    hi * 0x1_0000_0000 + lo
  }

  class PRNG {
    const gen: Generator
    var seedVal: nat

    constructor (gen: Generator, seed: nat)
      ensures this.gen == gen && seedVal == seed
    {
      this.gen, seedVal := gen, seed;
    }

    method Rng32() returns (r: Word)
      modifies this
      ensures r == gen.out(old(seedVal)) && seedVal == gen.next(old(seedVal))
    {
      r := gen.out(seedVal);
      seedVal := gen.next(seedVal);
    }

    method Rng64() returns (r: nat)
      modifies this
      ensures r == Wide(gen.out(old(seedVal)), gen.out(gen.next(old(seedVal))))
      ensures seedVal == gen.next(gen.next(old(seedVal)))
    {
      var hi: nat := Rng32();
      var lo: nat := Rng32();
      r := Wide(hi, lo);
    }
  }

  /** The state after n calls. */
  function SeedAfter(gen: Generator, seed: nat, n: nat): nat {
    if n == 0 then seed else gen.next(SeedAfter(gen, seed, n - 1))
  }

  /** What call number n returns. */
  function RandomWord(gen: Generator, seed: nat, n: nat): Word {
    gen.out(SeedAfter(gen, seed, n))
  }

  /** Byte k of a word, least significant first. */
  function ByteOf(w: nat, k: nat): Byte {
    if k == 0 then w % 0x100 else ByteOf(w / 0x100, k - 1)
  }

  /** The number with these bytes. */
  function WordOf(b0: Byte, b1: Byte, b2: Byte, b3: Byte): nat {
    b0 + 0x100 * (b1 + 0x100 * (b2 + 0x100 * b3))
  }

  lemma Digit(x: nat, b: Byte, r: nat)
    ensures x == b + 0x100 * r <==> x % 0x100 == b && x / 0x100 == r
  {}

  /** Comparing words is comparing their bytes. */
  lemma WordOfExact(b0: Byte, b1: Byte, b2: Byte, b3: Byte, w: Word)
    ensures WordOf(b0, b1, b2, b3) == w <==>
              b0 == ByteOf(w, 0) && b1 == ByteOf(w, 1) && b2 == ByteOf(w, 2) && b3 == ByteOf(w, 3)
  {
    hide ByteOf;
    BytesOf(w);
    Digit(w, b0, b1 + 0x100 * (b2 + 0x100 * b3));
    Digit(w / 0x100, b1, b2 + 0x100 * b3);
    Digit(w / 0x100 / 0x100, b2, b3);
  }

  lemma BytesOf(w: Word)
    ensures ByteOf(w, 0) == w % 0x100 && ByteOf(w, 1) == w / 0x100 % 0x100
    ensures ByteOf(w, 2) == w / 0x100 / 0x100 % 0x100 && ByteOf(w, 3) == w / 0x100 / 0x100 / 0x100 < 0x100
  {
    var w1 := w / 0x100;
    var w2 := w1 / 0x100;
    assert ByteOf(w, 1) == ByteOf(w1, 0);
    assert ByteOf(w, 2) == ByteOf(w1, 1) == ByteOf(w2, 0);
    assert ByteOf(w, 3) == ByteOf(w1, 2) == ByteOf(w2, 1) == w2 / 0x100 % 0x100;
  }

  function SeedOf(ptr: nat, sz: nat, reincarnation: nat): nat {
    Xor(Xor(ptr, Word64(sz * 0x1_0000_0000)), reincarnation)
  }

  /** Byte k of the data for a segment: byte k % 4 of random word k / 4. */
  function PatternByte(gen: Generator, seed: nat, k: nat): Byte {
    ByteOf(RandomWord(gen, seed, k / 4), k % 4)
  }

  ghost predicate ByteHolds(gen: Generator, mem: Memory, ptr: nat, seed: nat, k: nat) {
    ptr + k in mem && mem[ptr + k] == PatternByte(gen, seed, k)
  }

  /** The segment holds its data, byte for byte. */
  ghost predicate HoldsPattern(gen: Generator, mem: Memory, ptr: nat, sz: nat, seed: nat) {
    forall k :: 0 <= k < sz ==> ByteHolds(gen, mem, ptr, seed, k)
  }

  /** A 32-bit word in memory, least significant byte first. */
  function StoreWord(mem: Memory, a: nat, w: Word): Memory {
    mem[a := ByteOf(w, 0)][a + 1 := ByteOf(w, 1)][a + 2 := ByteOf(w, 2)][a + 3 := ByteOf(w, 3)]
  }

  function LoadWord(mem: Memory, a: nat): nat
    requires forall k :: a <= k < a + 4 ==> k in mem
  {
    WordOf(mem[a], mem[a + 1], mem[a + 2], mem[a + 3])
  }

  /** w without its k lowest bytes. */
  function Shifted(w: nat, k: nat): nat {
    if k == 0 then w else Shifted(w / 0x100, k - 1)
  }

  lemma {:induction false} ShiftedBytes(w: nat, k: nat)
    ensures ByteOf(w, k) == Shifted(w, k) % 0x100 && Shifted(w, k + 1) == Shifted(w, k) / 0x100
  {
    if k > 0 { ShiftedBytes(w / 0x100, k - 1); }
  }

  lemma ZeroStays()
    ensures NextSeed(0) == 0 && Output(0) == 0
  {
    assert Xor(0, 0) == 0;
  }

  /** What the tester's rng32 returns with the default seed 0: nothing but zeros. */
  lemma {:induction false} DefaultSeedYieldsZeros(n: nat)
    ensures SeedAfter(XORSHIFT, 0, n) == 0 && RandomWord(XORSHIFT, 0, n) == 0
  {
    if n > 0 {
      DefaultSeedYieldsZeros(n - 1);
    }
    ZeroStays();
  }

  lemma PatternWord(gen: Generator, seed: nat, i: nat, r: nat)
    requires r < 4
    ensures PatternByte(gen, seed, 4 * i + r) == ByteOf(RandomWord(gen, seed, i), r)
  {
    assert (4 * i + r) / 4 == i && (4 * i + r) % 4 == r;
  }

  /** Memory outside the segment is as it was. */
  ghost predicate SameOutside(mem: Memory, mem': Memory, ptr: nat, sz: nat) {
    && mem'.Keys == mem.Keys
    && forall a :: a in mem && !(ptr <= a < ptr + sz) ==> mem'[a] == mem[a]
  }

  ghost predicate Mapped(mem: Memory, ptr: nat, sz: nat) {
    forall a :: ptr <= a < ptr + sz ==> a in mem
  }

  lemma FourMore(gen: Generator, mem: Memory, ptr: nat, seed: nat, n: nat)
    ensures HoldsPattern(gen, mem, ptr, n + 4, seed) <==>
            && HoldsPattern(gen, mem, ptr, n, seed) && ByteHolds(gen, mem, ptr, seed, n)
            && ByteHolds(gen, mem, ptr, seed, n + 1) && ByteHolds(gen, mem, ptr, seed, n + 2)
            && ByteHolds(gen, mem, ptr, seed, n + 3)
  {}

  /** mem' differs from mem at the address a at most, where it has v. */
  ghost predicate OneByte(mem: Memory, mem': Memory, a: nat, v: Byte) {
    a in mem && mem' == mem[a := v]
  }

  /** Writing the next byte of the data. */
  lemma StoreByteHolds(gen: Generator, mem: Memory, mem': Memory, ptr: nat, sz: nat, seed: nat, k: nat)
    requires Mapped(mem, ptr, sz) && k < sz && HoldsPattern(gen, mem, ptr, k, seed)
    requires OneByte(mem, mem', ptr + k, PatternByte(gen, seed, k))
    ensures HoldsPattern(gen, mem', ptr, k + 1, seed) && SameOutside(mem, mem', ptr, sz) && Mapped(mem', ptr, sz)
  {
    forall j | 0 <= j < k ensures ByteHolds(gen, mem', ptr, seed, j) {
      assert ByteHolds(gen, mem, ptr, seed, j);
    }
  }

  lemma StoreWordHolds(gen: Generator, mem: Memory, ptr: nat, sz: nat, seed: nat, i: nat)
    requires Mapped(mem, ptr, sz) && 4 * i + 4 <= sz && HoldsPattern(gen, mem, ptr, 4 * i, seed)
    ensures var mem' := StoreWord(mem, ptr + 4 * i, RandomWord(gen, seed, i));
            HoldsPattern(gen, mem', ptr, 4 * i + 4, seed) && SameOutside(mem, mem', ptr, sz)
  {
    hide PatternByte;
    var w := RandomWord(gen, seed, i);
    PatternWords(gen, seed, i);
    FourBytesHold(gen, mem, ptr, sz, seed, 4 * i, ByteOf(w, 0), ByteOf(w, 1), ByteOf(w, 2), ByteOf(w, 3));
  }

  lemma FourBytesHold(gen: Generator, mem: Memory, ptr: nat, sz: nat, seed: nat, k: nat, b0: Byte, b1: Byte, b2: Byte,
                      b3: Byte)
    requires Mapped(mem, ptr, sz) && k + 4 <= sz && HoldsPattern(gen, mem, ptr, k, seed)
    requires b0 == PatternByte(gen, seed, k) && b1 == PatternByte(gen, seed, k + 1)
    requires b2 == PatternByte(gen, seed, k + 2) && b3 == PatternByte(gen, seed, k + 3)
    ensures var mem' := mem[ptr + k := b0][ptr + k + 1 := b1][ptr + k + 2 := b2][ptr + k + 3 := b3];
            HoldsPattern(gen, mem', ptr, k + 4, seed) && SameOutside(mem, mem', ptr, sz)
  {
    hide PatternByte;
    var mem1 := mem[ptr + k := b0];
    var mem2 := mem1[ptr + k + 1 := b1];
    var mem3 := mem2[ptr + k + 2 := b2];
    StoreByteHolds(gen, mem, mem1, ptr, sz, seed, k);
    StoreByteHolds(gen, mem1, mem2, ptr, sz, seed, k + 1);
    StoreByteHolds(gen, mem2, mem3, ptr, sz, seed, k + 2);
    StoreByteHolds(gen, mem3, mem3[ptr + k + 3 := b3], ptr, sz, seed, k + 3);
  }

  lemma PatternWords(gen: Generator, seed: nat, i: nat)
    ensures var w := RandomWord(gen, seed, i);
            && PatternByte(gen, seed, 4 * i) == ByteOf(w, 0) && PatternByte(gen, seed, 4 * i + 1) == ByteOf(w, 1)
            && PatternByte(gen, seed, 4 * i + 2) == ByteOf(w, 2) && PatternByte(gen, seed, 4 * i + 3) == ByteOf(w, 3)
  {
    PatternWord(gen, seed, i, 0);
    PatternWord(gen, seed, i, 1);
    PatternWord(gen, seed, i, 2);
    PatternWord(gen, seed, i, 3);
  }

  /** The word at i has the right bytes exactly if it is the random word. */
  lemma LoadWordHolds(gen: Generator, mem: Memory, ptr: nat, sz: nat, seed: nat, i: nat)
    requires Mapped(mem, ptr, sz) && 4 * i + 4 <= sz && HoldsPattern(gen, mem, ptr, 4 * i, seed)
    ensures LoadWord(mem, ptr + 4 * i) == RandomWord(gen, seed, i) <==> HoldsPattern(gen, mem, ptr, 4 * i + 4, seed)
  {
    hide PatternByte;
    var a := ptr + 4 * i;
    WordOfExact(mem[a], mem[a + 1], mem[a + 2], mem[a + 3], RandomWord(gen, seed, i));
    PatternWords(gen, seed, i);
    FourMore(gen, mem, ptr, seed, 4 * i);
  }

  /** A check that was made: of what data, and how it went. */
  datatype Check = Check(sz: nat, reincarnation: nat, passed: bool)

  /** The bytes of the process, as far as blocks of memory are concerned. */
  class Ram {
    var bytes: Memory
    /** The checks made so far. */
    ghost var checks: seq<Check>

    constructor ()
      ensures bytes == map[] && checks == []
    {
      bytes, checks := map[], [];
    }
  }

  /** fillSegmentWithRandomData (lines 206-220): afterwards the segment holds its data, and nothing
      outside it has changed. */
  method FillSegmentWithRandomData(gen: Generator, ram: Ram, ptr: nat, sz: nat, reincarnation: nat)
    requires Mapped(ram.bytes, ptr, sz)
    modifies ram`bytes
    ensures HoldsPattern(gen, ram.bytes, ptr, sz, SeedOf(ptr, sz, reincarnation))
    ensures SameOutside(old(ram.bytes), ram.bytes, ptr, sz)
  {
    hide PatternByte, SeedOf;
    var seed := SeedOf(ptr, sz, reincarnation);
    var rng := new PRNG(gen, seed);
    for i := 0 to sz / 4
      invariant rng.seedVal == SeedAfter(gen, seed, i)
      invariant HoldsPattern(gen, ram.bytes, ptr, 4 * i, seed)
      invariant SameOutside(old(ram.bytes), ram.bytes, ptr, sz)
    {
      StoreWordHolds(gen, ram.bytes, ptr, sz, seed, i);
      var w := rng.Rng32();
      ram.bytes := StoreWord(ram.bytes, ptr + 4 * i, w);
    }
    var words := sz / 4;
    if sz % 4 != 0 {
      ghost var w := RandomWord(gen, seed, words);
      var last: nat := rng.Rng32();
      for i := 0 to sz % 4
        invariant last == Shifted(w, i)
        invariant HoldsPattern(gen, ram.bytes, ptr, 4 * words + i, seed)
        invariant SameOutside(old(ram.bytes), ram.bytes, ptr, sz)
      {
        ShiftedBytes(w, i);
        PatternWord(gen, seed, words, i);
        ghost var mem := ram.bytes;
        ram.bytes := ram.bytes[ptr + 4 * words + i := last % 0x100];
        StoreByteHolds(gen, mem, ram.bytes, ptr, sz, seed, 4 * words + i);
        last := last / 0x100;
      }
    }
  }

  /** checkSegment (lines 221-245) fails exactly if some byte of the segment is not what was filled
      in. */
  method CheckSegment(gen: Generator, ram: Ram, ptr: nat, sz: nat, reincarnation: nat) returns (ok: bool)
    requires Mapped(ram.bytes, ptr, sz)
    modifies ram`checks
    ensures ok <==> HoldsPattern(gen, ram.bytes, ptr, sz, SeedOf(ptr, sz, reincarnation))
    ensures ram.checks == old(ram.checks) + [Check(sz, reincarnation, ok)]
  {
    hide PatternByte;
    var seed := SeedOf(ptr, sz, reincarnation);
    var rng := new PRNG(gen, seed);
    for i := 0 to sz / 4
      invariant rng.seedVal == SeedAfter(gen, seed, i) && ram.checks == old(ram.checks)
      invariant HoldsPattern(gen, ram.bytes, ptr, 4 * i, seed)
    {
      LoadWordHolds(gen, ram.bytes, ptr, sz, seed, i);
      var w := rng.Rng32();
      if LoadWord(ram.bytes, ptr + 4 * i) != w {
        ShorterHolds(gen, ram.bytes, ptr, sz, seed, 4 * i + 4);
        ram.checks := ram.checks + [Check(sz, reincarnation, false)];
        return false;
      }
    }
    var words := sz / 4;
    if sz % 4 != 0 {
      ghost var w := RandomWord(gen, seed, words);
      var last: nat := rng.Rng32();
      for i := 0 to sz % 4
        invariant last == Shifted(w, i) && ram.checks == old(ram.checks)
        invariant HoldsPattern(gen, ram.bytes, ptr, 4 * words + i, seed)
      {
        ShiftedBytes(w, i);
        PatternWord(gen, seed, words, i);
        if ram.bytes[ptr + 4 * words + i] != last % 0x100 {
          assert !ByteHolds(gen, ram.bytes, ptr, seed, 4 * words + i);
          ram.checks := ram.checks + [Check(sz, reincarnation, false)];
          return false;
        }
        last := last / 0x100;
      }
    }
    ram.checks := ram.checks + [Check(sz, reincarnation, true)];
    return true;
  }

  lemma ShorterHolds(gen: Generator, mem: Memory, ptr: nat, sz: nat, seed: nat, n: nat)
    requires n <= sz
    ensures HoldsPattern(gen, mem, ptr, sz, seed) ==> HoldsPattern(gen, mem, ptr, n, seed)
  {}
}
