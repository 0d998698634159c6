/** calcSizeWithStatsAdjustment (src/allocator_tester.h:102-122): sizes spread evenly over the
    powers of two. */
module RandomSize {
  import opened Arith
  import opened SizeClasses

  function TrailingZeros(x: nat): nat
    requires x > 0
  {
    if x % 2 == 1 then 0 else 1 + TrailingZeros(x / 2)
  }

  function CalcSizeWithStatsAdjustment(randNum: nat, maxSizeExp: nat): nat
    requires maxSizeExp >= 3
  {
    var e := maxSizeExp - 3;
    var statClassBase := randNum % Pow2(e) + 1;
    var idx := TrailingZeros(statClassBase) + 2;
    randNum / Pow2(e) % Pow2(idx) + 1 + Pow2(idx)
  }

  lemma {:induction false} TrailingZerosBound(x: nat, e: nat)
    requires 0 < x <= Pow2(e)
    ensures TrailingZeros(x) <= e
    decreases e
  {
    if x % 2 == 0 { TrailingZerosBound(x / 2, e - 1); }
  }

  lemma {:induction false} TrailingZerosOfPow2(k: nat)
    ensures TrailingZeros(Pow2(k)) == k
  {
    if k > 0 {
      TrailingZerosOfPow2(k - 1);
      assert Pow2(k) == 2 * Pow2(k - 1);
    }
  }

  /** The assert on the class, and the range of the sizes. */
  lemma SizeInRange(randNum: nat, maxSizeExp: nat)
    requires maxSizeExp >= 3
    ensures TrailingZeros(randNum % Pow2(maxSizeExp - 3) + 1) <= maxSizeExp - 3
    ensures 5 <= CalcSizeWithStatsAdjustment(randNum, maxSizeExp) <= Pow2(maxSizeExp)
  {
    var e := maxSizeExp - 3;
    Euclid(randNum, Pow2(e));
    var base := randNum % Pow2(e) + 1;
    TrailingZerosBound(base, e);
    var idx := TrailingZeros(base) + 2;
    Euclid(randNum / Pow2(e), Pow2(idx));
    Pow2Mono(2, idx);
    Pow2Mono(idx + 1, maxSizeExp);
    assert Pow2(2) == 4 && Pow2(idx + 1) == 2 * Pow2(idx);
  }

  /** An odd multiple of 2^k. */
  predicate OddTimes(x: nat, k: nat) {
    x % Pow2(k) == 0 && x / Pow2(k) % 2 == 1
  }

  lemma {:induction false} TrailingZerosExactly(x: nat, k: nat)
    requires x > 0
    ensures TrailingZeros(x) == k <==> OddTimes(x, k)
  {
    if k > 0 && x % 2 == 0 {
      TrailingZerosExactly(x / 2, k - 1);
      Halved(x, Pow2(k - 1));
    } else if k > 0 {
      OddIsNoMultiple(x, Pow2(k - 1));
    }
  }

  lemma Halved(x: nat, q: nat)
    requires x % 2 == 0 && q > 0
    ensures x / (2 * q) == x / 2 / q && (x % (2 * q) == 0 <==> x / 2 % q == 0)
  {
    var a, r := x / 2 / q, x / 2 % q;
    Euclid(x / 2, q);
    MulAssoc(a, 2, q);
    DivModUnique(x, 2 * q, a, 2 * r);
  }

  lemma OddIsNoMultiple(x: nat, q: nat)
    requires x % 2 == 1 && q > 0
    ensures x % (2 * q) != 0
  {
    var a := x / (2 * q);
    Euclid(x, 2 * q);
    MulAssoc(a, 2, q);
    assert a * (2 * q) == 2 * (a * q);
  }

  lemma ClassesApart(v: nat, k: nat, l: nat)
    requires Pow2(k) < v <= Pow2(k) + Pow2(k)
    ensures Pow2(l) < v <= Pow2(l + 1) ==> k == l
  {
    Pow2Mono(k + 1, l);
    Pow2Mono(l + 1, k);
  }

  /** Which numbers give a size v with 2^l < v <= 2^(l+1): the lowest bits, plus 1, are an odd multiple of
      2^(l-2), which half as many numbers meet for every next l, and the bits above them are v. */
  lemma SizeExactly(randNum: nat, maxSizeExp: nat, v: nat, l: nat)
    requires maxSizeExp >= 3 && l >= 2 && Pow2(l) < v <= Pow2(l + 1)
    ensures CalcSizeWithStatsAdjustment(randNum, maxSizeExp) == v <==>
            && OddTimes(randNum % Pow2(maxSizeExp - 3) + 1, l - 2)
            && randNum / Pow2(maxSizeExp - 3) % Pow2(l) == v - Pow2(l) - 1
  {
    var base, rest := randNum % Pow2(maxSizeExp - 3) + 1, randNum / Pow2(maxSizeExp - 3);
    var idx := TrailingZeros(base) + 2;
    TrailingZerosExactly(base, l - 2);
    ClassesApart(rest % Pow2(idx) + 1 + Pow2(idx), idx, l) by { Euclid(rest, Pow2(idx)); }
    hide TrailingZeros, OddTimes, Pow2;
    if idx == l { assert TrailingZeros(base) == l - 2; }
  }

  /** A cast to uint32_t. */
  function Word32(x: nat): nat {
    x % 0x1_0000_0000
  }

  /** The sizes fit the 32-bit field the tester keeps them in. */
  lemma SizeFits32(randNum: nat, maxSizeExp: nat)
    requires 3 <= maxSizeExp < 32
    ensures Word32(CalcSizeWithStatsAdjustment(randNum, maxSizeExp)) == CalcSizeWithStatsAdjustment(randNum, maxSizeExp)
  {
    hide Pow2;
    SizeInRange(randNum, maxSizeExp);
    Pow2Mono(maxSizeExp, 31);
    Pow2Below32();
  }

  lemma Pow2Below32()
    ensures Pow2(31) == 0x8000_0000
  {
    hide Pow2;
    SmallPowers();
    Pow2Sum(3, 4);
    Pow2Sum(7, 8);
    Pow2Sum(15, 16);
    Pow2Sum(8, 8);
    Pow2Sum(4, 4);
  }

  /** The power of two below a size of at least 5. */
  lemma ClassOf(v: nat, maxSizeExp: nat) returns (l: nat)
    requires 5 <= v <= Pow2(maxSizeExp)
    ensures 2 <= l < maxSizeExp && Pow2(l) <= v - 1 < Pow2(l) + Pow2(l)
  {
    l := HighestBit(v - 1);
    assert Pow2(2) == 4;
    Pow2Mono(l + 1, 2);
    Pow2Mono(maxSizeExp, l);
  }

  lemma ChosenSize(l: nat, e: nat, r: nat)
    requires 2 <= l <= e + 2 && r < Pow2(l)
    ensures CalcSizeWithStatsAdjustment(r * Pow2(e) + (Pow2(l - 2) - 1), e + 3) == r + 1 + Pow2(l)
  {
    Pow2Mono(l - 2, e);
    DivModUnique(r * Pow2(e) + (Pow2(l - 2) - 1), Pow2(e), r, Pow2(l - 2) - 1);
    SizeOfParts(r * Pow2(e) + (Pow2(l - 2) - 1), l, e, r);
  }

  lemma SizeOfParts(randNum: nat, l: nat, e: nat, r: nat)
    requires l >= 2 && r < Pow2(l) && randNum / Pow2(e) == r && randNum % Pow2(e) + 1 == Pow2(l - 2)
    ensures CalcSizeWithStatsAdjustment(randNum, e + 3) == r + 1 + Pow2(l)
  {
    TrailingZerosOfPow2(l - 2);
    DivModUnique(r, Pow2(l), 0, r);
  }

  lemma Fits64(l: nat, e: nat, r: nat)
    requires 2 <= l <= e + 2 && l + e <= 64 && r < Pow2(l)
    ensures 0 <= r * Pow2(e) && r * Pow2(e) + (Pow2(l - 2) - 1) < WORD
  {
    MulMono(0, r, Pow2(e));
    Pow2Mono(l - 2, e);
    MulMono(r + 1, Pow2(l), Pow2(e));
    MulDistrib(r, 1, Pow2(e));
    Pow2Sum(l, e);
    Pow2Mono(l + e, 64);
    WordIsPow2();
  }

  /** Every size in that range can come up, from a 64-bit random number. */
  lemma EverySizeComesUp(v: nat, maxSizeExp: nat) returns (randNum: nat)
    requires 3 <= maxSizeExp < 32 && 5 <= v <= Pow2(maxSizeExp)
    ensures randNum < WORD && CalcSizeWithStatsAdjustment(randNum, maxSizeExp) == v
  {
    var l := ClassOf(v, maxSizeExp);
    var e, r := maxSizeExp - 3, v - 1 - Pow2(l);
    ChosenSize(l, e, r);
    Fits64(l, e, r);
    randNum := r * Pow2(e) + (Pow2(l - 2) - 1);
  }
}
