/** Arithmetic behind the shifts and masks of src/iibmalloc/iibmalloc_common.h.
    A left shift by `e` multiplies by Pow2(e), a right shift divides, and masking with
    2^e - 1 takes the remainder. */
module Arith {

  const PAGE_SIZE: nat := 4096
  const WORD: int := 0x1_0000_0000_0000_0000

  function Pow2(e: nat): (r: nat)
    ensures r >= 1
  {
    if e == 0 then 1 else 2 * Pow2(e - 1)
  }

  lemma {:induction false} Pow2Sum(a: nat, b: nat)
    ensures Pow2(a + b) == Pow2(a) * Pow2(b)
  {
    if a != 0 {
      Pow2Sum(a - 1, b);
      assert Pow2(a + b) == 2 * Pow2(a - 1 + b);
    }
  }

  lemma {:induction false} Pow2Mono(a: nat, b: nat)
    ensures a <= b ==> Pow2(a) <= Pow2(b)
    ensures a < b ==> 2 * Pow2(a) <= Pow2(b)
  {
    if a < b {
      Pow2Mono(a, b - 1);
    }
  }

  lemma SmallPowers()
    ensures Pow2(0) == 1 && Pow2(1) == 2 && Pow2(2) == 4 && Pow2(3) == 8 && Pow2(4) == 16 && Pow2(5) == 32
  {
    assert Pow2(2) == 4;
    assert Pow2(4) == 16;
  }

  lemma Pow2MultipleOf32(a: nat)
    ensures a >= 3 ==> Pow2(a) % 8 == 0
    ensures a >= 5 ==> Pow2(a) % 32 == 0
  {
    SmallPowers();
    hide Pow2;
    if a >= 3 {
      Pow2Sum(a - 3, 3);
      DivModUnique(Pow2(a), 8, Pow2(a - 3), 0);
    }
    if a >= 5 {
      Pow2Sum(a - 5, 5);
      DivModUnique(Pow2(a), 32, Pow2(a - 5), 0);
    }
  }

  lemma MulMono(a: int, b: int, m: int)
    requires m >= 0
    ensures a <= b ==> a * m <= b * m
  {}

  /** The quotient and remainder are the only ones. */
  lemma DivModUnique(x: int, d: int, q: int, r: int)
    requires d > 0 && 0 <= r < d
    requires x == q * d + r
    ensures x / d == q && x % d == r
  {
    var q', r' := x / d, x % d;
    assert x == q' * d + r';
    assert (q - q') * d == r' - r;
    MulMono(1, q - q', d);
    MulMono(1, q' - q, d);
  }

  /** Adding whole multiples of the divisor moves the quotient and keeps the remainder. */
  lemma DivModShift(x: int, d: int, m: int)
    requires d > 0
    ensures (x + m * d) / d == x / d + m
    ensures (x + m * d) % d == x % d
  {
    var q, r := x / d, x % d;
    assert x + m * d == (q + m) * d + r;
    DivModUnique(x + m * d, d, q + m, r);
  }

  /** Two different multiples of d are at least d apart. */
  lemma MultiplesApart(x: int, y: int, d: int)
    requires d > 0 && x % d == 0 && y % d == 0
    ensures x < y ==> x + d <= y
  {
    assert x == (x / d) * d && y == (y / d) * d;
    MulMono(y / d, x / d, d);
    MulMono(x / d + 1, y / d, d);
  }

  // ---------------------------------------------------------------------------------------
  // The helpers of iibmalloc_common.h on 64-bit words

  /** Unary minus of a 64-bit word. */
  function Neg64(x: nat): (r: nat)
    requires x < WORD
    ensures r < WORD && (x + r) % WORD == 0
  {
    if x == 0 then 0 else WORD - x
  }

  /** The value of a 64-bit word read as intptr_t. */
  function Signed64(x: nat): int
    requires x < WORD
  {
    if x < WORD / 2 then x else x - WORD
  }

  function Word64(x: int): nat {
    x % WORD
  }

  /** alignUpExp: negate, shift arithmetically, negate, shift back. */
  function AlignUpExp(sz: nat, e: nat): nat
    requires sz < WORD
  {
    AlignUpBy(Signed64(Neg64(sz)), Pow2(e))
  }

  /** The steps of alignUpExp after the first negation, for the divisor d = 2^e. */
  function AlignUpBy(negated: int, d: nat): nat
    requires d > 0
  {
    Word64(Word64(0 - negated / d) * d)
  }

  function AlignDownExp(sz: nat, e: nat): int {
    (sz / Pow2(e)) * Pow2(e)
  }

  predicate IsAlignedExp(sz: nat, e: nat) {
    AlignDownExp(sz, e) == sz
  }

  /** alignUpMask with the mask 2^e - 1. */
  function AlignUpMask(sz: nat, e: nat): nat {
    if sz % Pow2(e) == 0 then sz else sz - sz % Pow2(e) + (Pow2(e) - 1) + 1
  }

  lemma MulAssoc(a: int, b: int, c: int)
    ensures a * (b * c) == (a * b) * c
  {}

  lemma MulDistrib(a: int, b: int, c: int)
    ensures (a + b) * c == a * c + b * c
  {}

  /** Taking a number apart in a mixed base: `lap` laps of b groups of p. */
  lemma MixedBase(q: int, r: int, b: int, p: int, lap: int, idx: int, k: int)
    requires p > 0 && r == b * p && 0 <= idx < b && 0 <= k < p
    requires q == lap * r + (idx * p + k)
    ensures 0 <= idx * p + k < r
    ensures q / r == lap && q % r == idx * p + k
    ensures (idx * p + k) / p == idx
    ensures q % p == k
  {
    MulMono(idx + 1, b, p);
    MulDistrib(idx, 1, p);
    MulMono(0, idx, p);
    DivModUnique(q, r, lap, idx * p + k);
    DivModUnique(idx * p + k, p, idx, k);
    MulAssoc(lap, b, p);
    MulDistrib(lap * b, idx, p);
    DivModUnique(q, p, lap * b + idx, k);
  }

  /** The least multiple of d at or above x. */
  ghost predicate IsCeil(r: int, x: int, d: int)
    requires d > 0
  {
    r % d == 0 && x <= r < x + d
  }

  lemma CeilUnique(r: int, r': int, x: int, d: int)
    requires d > 0 && IsCeil(r, x, d) && IsCeil(r', x, d)
    ensures r == r'
  {
    MultiplesApart(r, r', d);
    MultiplesApart(r', r, d);
  }

  lemma FloorOfNegative(x: int, d: int)
    requires d > 0
    ensures IsCeil(-(-x / d) * d, x, d)
  {
    var q, r := -x / d, -x % d;
    assert -x == q * d + r;
    assert -q * d == -(q * d);
    DivModUnique(-q * d, d, -q, 0);
  }

  lemma FactorBounds(k: int, d: int)
    requires d > 0 && 0 <= k * d < WORD
    ensures 0 <= k < WORD
  {
    MulMono(k, -1, d);
    MulMono(WORD, k, d);
  }

  lemma Euclid(x: int, d: int)
    requires d > 0
    ensures x == (x / d) * d + x % d && 0 <= x % d < d
  {}

  /** MixedBase with the lap read off the quotient. */
  lemma MixedBaseOfRemainder(q: int, r: int, b: int, p: int, idx: int, k: int)
    requires p > 0 && r == b * p && r > 0 && 0 <= idx < b && 0 <= k < p
    requires q % r == idx * p + k
    ensures (q % r) / p == idx && q % p == k
  {
    Euclid(q, r);
    MixedBase(q, r, b, p, q / r, idx, k);
  }

  lemma SmallWord(x: int)
    requires 0 <= x < WORD
    ensures Word64(x) == x
  {}

  lemma NegSigned(x: nat)
    requires x <= WORD / 2
    ensures Signed64(Neg64(x)) + x == 0
  {}

  lemma RoundedUp(sz: int, q: int, d: int)
    requires d > 0 && q * d <= sz < (q + 1) * d
    ensures IsCeil(if sz == q * d then q * d else (q + 1) * d, sz, d)
  {
    MulDistrib(q, 1, d);
    DivModUnique(q * d, d, q, 0);
    DivModUnique((q + 1) * d, d, q + 1, 0);
  }

  lemma RoundedUpMask(sz: nat, e: nat)
    ensures IsCeil(AlignUpMask(sz, e), sz, Pow2(e))
  {
    hide Pow2;
    var d := Pow2(e);
    Euclid(sz, d);
    MulDistrib(sz / d, 1, d);
    RoundedUp(sz, sz / d, d);
  }

  /** alignUpExp rounds up to the next multiple of 2^e, for every word that has one. */
  lemma AlignUpExpIsCeil(sz: nat, e: nat)
    requires e <= 62 && sz + Pow2(e) <= WORD
    ensures IsCeil(AlignUpExp(sz, e), sz, Pow2(e))
    ensures AlignUpExp(sz, e) == AlignUpMask(sz, e)
  {
    if sz <= WORD / 2 {
      AlignUpOfNonNegative(sz, e);
    } else {
      AlignUpOfNegative(sz, e);
    }
    RoundedUpMask(sz, e);
    CeilUnique(AlignUpExp(sz, e), AlignUpMask(sz, e), sz, Pow2(e));
  }

  lemma AlignUpOfNonNegative(sz: nat, e: nat)
    requires sz + Pow2(e) <= WORD && sz <= WORD / 2
    ensures IsCeil(AlignUpExp(sz, e), sz, Pow2(e))
  {
    NegSigned(sz);
    FloorOfNegative(sz, Pow2(e));
    NoWrap(0 - (0 - sz) / Pow2(e), Pow2(e));
  }

  lemma NoWrap(k: int, d: int)
    requires d > 0 && 0 <= k * d < WORD
    ensures Word64(Word64(k) * d) == k * d
  {
    FactorBounds(k, d);
    SmallWord(k);
    SmallWord(k * d);
  }

  /** The sizes that read as negative when cast to intptr_t. */
  lemma AlignUpOfNegative(sz: nat, e: nat)
    requires e <= 62 && WORD / 2 < sz && sz + Pow2(e) <= WORD
    ensures IsCeil(AlignUpExp(sz, e), sz, Pow2(e))
  {
    Pow2Sum(64 - e, e);
    WordIsPow2();
    assert Signed64(Neg64(sz)) == WORD - sz;
    AlignUpByPositive(WORD - sz, Pow2(e), Pow2(64 - e));
  }

  lemma AlignUpByPositive(n: int, d: nat, m: int)
    requires 0 < d <= n < WORD && m > 0 && m * d == WORD
    ensures IsCeil(AlignUpBy(n, d), WORD - n, d)
  {
    var q := n / d;
    Euclid(n, d);
    MulMono(q, 0, d);
    MulMono(WORD, q, d);
    MulDistrib(q, -q, d);
    WholeWords(-q, d, m);
  }

  lemma WordIsPow2()
    ensures Pow2(64) == WORD
  {
    hide Pow2;
    SmallPowers();
    Pow2Sum(4, 4);
    Pow2Sum(8, 8);
    Pow2Sum(16, 16);
    Pow2Sum(32, 32);
  }

  lemma WholeWords(k: int, d: int, m: int)
    requires d > 0 && m > 0 && m * d == WORD
    requires -WORD < k < 0 && -WORD < k * d < 0
    ensures Word64(Word64(k) * d) == WORD + k * d
    ensures (WORD + k * d) % d == 0
  {
    DivModUnique(k, WORD, -1, k + WORD);
    MulDistrib(k, WORD, d);
    DivModUnique((k + WORD) * d, WORD, d - 1, k * d + WORD);
    MulDistrib(m, k, d);
    DivModUnique((m + k) * d, d, m + k, 0);
  }

  /** isAlignedExp holds of exactly the multiples of 2^e. */
  lemma IsAlignedIffMultiple(sz: nat, e: nat)
    ensures IsAlignedExp(sz, e) <==> sz % Pow2(e) == 0
  {
    assert sz == (sz / Pow2(e)) * Pow2(e) + sz % Pow2(e);
  }

  lemma PageIs12()
    ensures Pow2(12) == PAGE_SIZE
  {
    hide Pow2;
    SmallPowers();
    Pow2Sum(4, 4);
    Pow2Sum(4, 8);
  }
}
