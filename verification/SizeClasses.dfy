/** The size classes of SerializableAllocatorBase (src/iibmalloc/iibmalloc.h:819-959). */
module SizeClasses {
  import opened Arith

  /** 63 - __builtin_clzll(x). */
  function HighestBit(x: nat): (r: nat)
    requires x >= 1
    ensures Pow2(r) <= x < Pow2(r + 1)
  {
    if x == 1 then 0 else 1 + HighestBit(x / 2)
  }

  lemma HighestBitAtLeast3(x: nat)
    requires x >= 8
    ensures HighestBit(x) >= 3
  {
    SmallPowers();
    Pow2Mono(HighestBit(x) + 1, 3);
  }

  // ---------------------------------------------------------------------------------------
  // The half-exponent scheme, the one compiled in

  /** The sum of the two shifted terms, before it is aligned to 8. */
  function RawHalfExp(ix: nat): nat {
    Pow2(ix / 2 + 3) + if ix % 2 == 1 then Pow2(ix / 2 + 2) else 0
  }

  const LAST_HALF_EXP := 121

  function IndexToBucketSizeHalfExp(ix: nat): nat
    requires RawHalfExp(ix) < WORD
  {
    AlignUpExp(RawHalfExp(ix), 3)
  }

  function SizeToIndexHalfExp(sz: nat): int {
    if sz <= 8 then 0
    else
      var ix := HighestBit(sz - 1);
      HighestBitAtLeast3(sz - 1);
      var addition := ((sz - 1) / Pow2(ix - 1)) % 2;
      (ix - 2) * 2 + addition - 1
  }

  lemma RawHalfExpGrows(ix: nat)
    ensures RawHalfExp(ix) < RawHalfExp(ix + 1) <= 2 * RawHalfExp(ix)
  {
    if ix % 2 == 0 {
      assert (ix + 1) / 2 == ix / 2;
    } else {
      assert (ix + 1) / 2 == ix / 2 + 1;
    }
  }

  lemma {:induction false} RawHalfExpMono(i: nat, j: nat)
    ensures i <= j ==> RawHalfExp(i) <= RawHalfExp(j)
    decreases if i <= j then j - i else 0
  {
    if i < j {
      RawHalfExpGrows(i);
      RawHalfExpMono(i + 1, j);
    }
  }

  lemma RawHalfExpBefore(i: nat, j: nat)
    ensures i < j ==> RawHalfExp(i) <= RawHalfExp(j - 1)
  {
    if j > 0 { RawHalfExpMono(i, j - 1); }
  }

  /** The digit below the highest bit. */
  lemma SecondBit(x: nat, l: nat)
    requires l >= 1 && Pow2(l) <= x < Pow2(l + 1)
    ensures (x / Pow2(l - 1)) % 2 == 0 ==> 2 * Pow2(l - 1) <= x < 3 * Pow2(l - 1)
    ensures (x / Pow2(l - 1)) % 2 == 1 ==> 3 * Pow2(l - 1) <= x < 4 * Pow2(l - 1)
  {
    var d := Pow2(l - 1);
    assert Pow2(l) == 2 * d && Pow2(l + 1) == 4 * d;
    if x < 3 * d {
      DivModUnique(x, d, 2, x - 2 * d);
    } else {
      DivModUnique(x, d, 3, x - 3 * d);
    }
  }

  /** The computed index is the least one whose raw size reaches sz. */
  lemma IndexHalfExpIsLeast(sz: nat)
    ensures var ix := SizeToIndexHalfExp(sz);
            && ix >= 0
            && sz <= RawHalfExp(ix)
            && (ix > 0 ==> RawHalfExp(ix - 1) < sz)
    ensures sz > 16 ==> 2 * RawHalfExp(SizeToIndexHalfExp(sz)) <= 3 * (sz - 1)
  {
    SmallHalfExp();
    if sz > 8 {
      var l, a := HalfExpDigits(sz);
      IndexHalfExpArithmetic(l, a);
    }
  }

  lemma HalfExpDigits(sz: nat) returns (l: nat, a: nat)
    requires sz > 8
    ensures l >= 3 && SizeToIndexHalfExp(sz) == (l - 2) * 2 + a - 1
    ensures (a == 0 && 2 * Pow2(l - 1) < sz <= 3 * Pow2(l - 1)) || (a == 1 && 3 * Pow2(l - 1) < sz <= 4 * Pow2(l - 1))
  {
    l := HighestBit(sz - 1);
    HighestBitAtLeast3(sz - 1);
    SecondBit(sz - 1, l);
    a := ((sz - 1) / Pow2(l - 1)) % 2;
  }

  lemma IndexHalfExpArithmetic(l: nat, addition: nat)
    requires l >= 3 && addition < 2
    ensures var ix := (l - 2) * 2 + addition - 1;
            && ix >= 1
            && RawHalfExp(ix) == (if addition == 0 then 3 * Pow2(l - 1) else 4 * Pow2(l - 1))
            && RawHalfExp(ix - 1) == (if addition == 0 then 2 * Pow2(l - 1) else 3 * Pow2(l - 1))
  {
    assert Pow2(l + 1) == 2 * Pow2(l) && Pow2(l) == 2 * Pow2(l - 1);
    if addition == 0 {
      var ix := (l - 3) * 2 + 1;
      assert ix / 2 == l - 3 && ix % 2 == 1 && (ix - 1) / 2 == l - 3 && (ix - 1) % 2 == 0;
    } else {
      var ix := (l - 2) * 2;
      assert ix / 2 == l - 2 && ix % 2 == 0 && (ix - 1) / 2 == l - 3 && (ix - 1) % 2 == 1;
    }
  }

  /** The alignment to 8 bytes touches only index 1, whose 12 becomes the 16 of index 2. */
  function AlignedHalfExp(ix: nat): nat {
    if ix == 1 then 2 else ix
  }

  lemma BucketSizeHalfExp(ix: nat)
    requires ix <= LAST_HALF_EXP
    ensures RawHalfExp(ix) + 8 <= WORD
    ensures IndexToBucketSizeHalfExp(ix) == RawHalfExp(AlignedHalfExp(ix))
    ensures IndexToBucketSizeHalfExp(ix) % 8 == 0
  {
    hide Pow2;
    RawHalfExpMono(ix, 121);
    LargestHalfExp();
    Pow2Of3();
    SmallHalfExp();
    AlignUpExpIsCeil(RawHalfExp(ix), 3);
    RawHalfExpMultiple(ix);
    CeilUnique(IndexToBucketSizeHalfExp(ix), RawHalfExp(AlignedHalfExp(ix)), RawHalfExp(ix), 8);
  }

  lemma Pow2Of3()
    ensures Pow2(3) == 8
  {}

  lemma SmallHalfExp()
    ensures RawHalfExp(0) == 8 && RawHalfExp(1) == 12 && RawHalfExp(2) == 16 && RawHalfExp(5) == 48
  {
    SmallPowers();
  }

  lemma RawHalfExpMultiple(ix: nat)
    ensures ix >= 2 ==> RawHalfExp(ix) % 8 == 0
    ensures ix >= 6 ==> RawHalfExp(ix) % 32 == 0
  {
    Pow2MultipleOf32(ix / 2 + 3);
    Pow2MultipleOf32(ix / 2 + 2);
    SumMultiple(Pow2(ix / 2 + 3), Pow2(ix / 2 + 2));
  }

  lemma SumMultiple(x: nat, y: nat)
    ensures x % 8 == 0 && y % 8 == 0 ==> (x + y) % 8 == 0
    ensures x % 32 == 0 && y % 32 == 0 ==> (x + y) % 32 == 0
  {
    SumOfMultiples(x, y, 8);
    SumOfMultiples(x, y, 32);
  }

  lemma SumOfMultiples(x: nat, y: nat, d: nat)
    requires d > 0
    ensures x % d == 0 && y % d == 0 ==> (x + y) % d == 0
  {
    Euclid(y, d);
    DivModShift(x, d, y / d);
  }

  lemma LargestHalfExp()
    ensures RawHalfExp(121) == 3 * Pow2(62) == WORD - Pow2(62)
    ensures Pow2(62) >= 8
  {
    WordIsPow2();
    assert Pow2(64) == 2 * Pow2(63) && Pow2(63) == 2 * Pow2(62);
    Pow2Mono(3, 62);
    assert Pow2(3) == 8;
  }

  /** For every size some 64-bit bucket fits, the bucket picked is the least that fits; above 16
      bytes it is at most one and a half times sz - 1. */
  lemma HalfExpLeastFit(sz: nat, j: nat)
    requires 1 <= sz <= 3 * Pow2(62) && j <= LAST_HALF_EXP
    ensures var ix := SizeToIndexHalfExp(sz);
            && 0 <= ix <= LAST_HALF_EXP
            && RawHalfExp(ix) < WORD && RawHalfExp(j) < WORD
            && sz <= IndexToBucketSizeHalfExp(ix)
            && (sz <= IndexToBucketSizeHalfExp(j) ==> IndexToBucketSizeHalfExp(ix) <= IndexToBucketSizeHalfExp(j))
            && (sz > 16 ==> 2 * IndexToBucketSizeHalfExp(ix) <= 3 * (sz - 1))
  {
    hide Pow2;
    IndexHalfExpIsLeast(sz);
    LargestHalfExp();
    var ix := SizeToIndexHalfExp(sz);
    RawHalfExpBefore(121, ix);
    BucketSizeHalfExp(ix);
    BucketSizeHalfExp(j);
    RawHalfExpMono(ix, AlignedHalfExp(ix));
    if sz <= IndexToBucketSizeHalfExp(j) {
      var j' := AlignedHalfExp(j);
      RawHalfExpBefore(j', ix);
      RawHalfExpMono(AlignedHalfExp(ix), j');
    }
    if sz > 16 { HalfExpAbove16(sz); }
  }

  lemma HalfExpAbove16(sz: nat)
    requires sz > 16
    ensures SizeToIndexHalfExp(sz) > 2
  {
    IndexHalfExpIsLeast(sz);
    assert Pow2(3) == 8 && Pow2(2) == 4 && Pow2(4) == 16;
    RawHalfExpMono(SizeToIndexHalfExp(sz), 2);
  }

  /** Beyond that no 64-bit bucket fits: the index is past the last representable one. */
  lemma HalfExpTooLarge(sz: nat)
    requires 3 * Pow2(62) < sz
    ensures SizeToIndexHalfExp(sz) > LAST_HALF_EXP
  {
    IndexHalfExpIsLeast(sz);
    LargestHalfExp();
    var ix := SizeToIndexHalfExp(sz);
    RawHalfExpMono(ix, 121);
  }

  lemma HalfExpMonotone(sz: nat, sz': nat)
    requires sz <= sz'
    ensures SizeToIndexHalfExp(sz) <= SizeToIndexHalfExp(sz')
  {
    IndexHalfExpIsLeast(sz);
    IndexHalfExpIsLeast(sz');
    var i, j := SizeToIndexHalfExp(sz), SizeToIndexHalfExp(sz');
    RawHalfExpBefore(j, i);
  }

  // ---------------------------------------------------------------------------------------
  // The quarter-exponent scheme

  /** 5 + r times d. */
  function QuarterSteps(r: nat, d: nat): nat {
    if r == 0 then 5 * d else if r == 1 then 6 * d else if r == 2 then 7 * d else 8 * d
  }

  /** With n = ix + 3: four fourths of 2^(n/4 + 2) and n % 4 + 1 more of them. */
  function RawQuarterExp(ix: nat): nat {
    QuarterSteps((ix + 3) % 4, Pow2((ix + 3) / 4))
  }

  lemma RawQuarterExpShifts(ix: nat)
    ensures RawQuarterExp(ix) == 4 * Pow2((ix + 3) / 4) + ((ix + 3) % 4 + 1) * Pow2((ix + 3) / 4)
  {
    var r, d := (ix + 3) % 4, Pow2((ix + 3) / 4);
    assert r == 0 || r == 1 || r == 2 || r == 3;
    assert QuarterSteps(r, d) == 4 * d + (r + 1) * d;
  }

  const LAST_QUARTER_EXP := 243

  function IndexToBucketSizeQuarterExp(ix: nat): nat
    requires RawQuarterExp(ix) < WORD
  {
    AlignUpExp(RawQuarterExp(ix), 3)
  }

  function SizeToIndexQuarterExp(sz: nat): int {
    if sz <= 8 then 0
    else
      var ix := HighestBit(sz - 1);
      HighestBitAtLeast3(sz - 1);
      var addition := ((sz - 1) / Pow2(ix - 2)) % 4;
      (ix - 2) * 4 + addition - 3
  }

  lemma RawQuarterExpForm(m: nat, r: nat)
    requires r < 4 && 4 * m + r >= 3
    ensures RawQuarterExp(4 * m + r - 3) == QuarterSteps(r, Pow2(m))
  {
    assert (4 * m + r) / 4 == m && (4 * m + r) % 4 == r;
  }

  lemma RawQuarterExpGrows(ix: nat)
    ensures RawQuarterExp(ix) < RawQuarterExp(ix + 1)
  {
    var n := ix + 3;
    RawQuarterExpForm(n / 4, n % 4);
    if n % 4 == 3 {
      RawQuarterExpForm(n / 4 + 1, 0);
    } else {
      RawQuarterExpForm(n / 4, n % 4 + 1);
    }
  }

  lemma {:induction false} RawQuarterExpMono(i: nat, j: nat)
    ensures i <= j ==> RawQuarterExp(i) <= RawQuarterExp(j)
    decreases if i <= j then j - i else 0
  {
    if i < j {
      RawQuarterExpGrows(i);
      RawQuarterExpMono(i + 1, j);
    }
  }

  lemma RawQuarterExpBefore(i: nat, j: nat)
    ensures i < j ==> RawQuarterExp(i) <= RawQuarterExp(j - 1)
  {
    if j > 0 { RawQuarterExpMono(i, j - 1); }
  }

  lemma TwoBitsBelow(x: nat, l: nat)
    requires l >= 2 && Pow2(l) <= x < Pow2(l + 1)
    ensures var d := Pow2(l - 2);
            var a := (x / d) % 4;
            QuarterSteps(a, d) - d <= x < QuarterSteps(a, d)
  {
    var d := Pow2(l - 2);
    assert Pow2(l - 1) == 2 * d && Pow2(l) == 4 * d && Pow2(l + 1) == 8 * d;
    if x < 5 * d {
      DivModUnique(x, d, 4, x - 4 * d);
    } else if x < 6 * d {
      DivModUnique(x, d, 5, x - 5 * d);
    } else if x < 7 * d {
      DivModUnique(x, d, 6, x - 6 * d);
    } else {
      DivModUnique(x, d, 7, x - 7 * d);
    }
  }

  lemma IndexQuarterExpIsLeast(sz: nat)
    ensures var ix := SizeToIndexQuarterExp(sz);
            && ix >= 0
            && sz <= RawQuarterExp(ix)
            && (ix > 0 ==> RawQuarterExp(ix - 1) < sz)
  {
    SmallQuarterExp();
    if sz > 8 {
      var l, a := QuarterExpDigits(sz);
      IndexQuarterExpArithmetic(l, a);
    }
  }

  lemma QuarterExpDigits(sz: nat) returns (l: nat, a: nat)
    requires sz > 8
    ensures l >= 3 && a < 4 && SizeToIndexQuarterExp(sz) == (l - 2) * 4 + a - 3
    ensures QuarterSteps(a, Pow2(l - 2)) - Pow2(l - 2) < sz <= QuarterSteps(a, Pow2(l - 2))
  {
    l := HighestBit(sz - 1);
    HighestBitAtLeast3(sz - 1);
    TwoBitsBelow(sz - 1, l);
    a := ((sz - 1) / Pow2(l - 2)) % 4;
  }

  lemma IndexQuarterExpArithmetic(l: nat, a: nat)
    requires l >= 3 && a < 4
    ensures var ix := (l - 2) * 4 + a - 3;
            && ix >= 1
            && RawQuarterExp(ix) == QuarterSteps(a, Pow2(l - 2))
            && RawQuarterExp(ix - 1) == QuarterSteps(a, Pow2(l - 2)) - Pow2(l - 2)
  {
    hide RawQuarterExp;
    RawQuarterExpForm(l - 2, a);
    if a > 0 {
      RawQuarterExpForm(l - 2, a - 1);
    } else {
      RawQuarterExpForm(l - 3, 3);
      assert Pow2(l - 2) == 2 * Pow2(l - 3);
    }
  }

  /** The alignment to 8 bytes carries an index to the next one whose raw size is a multiple
      of 8. */
  function AlignedQuarterExp(ix: nat): nat {
    if 1 <= ix <= 4 then 4 else if ix == 5 then 6 else if ix == 7 then 8 else ix
  }

  lemma LargestQuarterExp()
    ensures RawQuarterExp(243) == 7 * Pow2(61) == WORD - Pow2(61)
    ensures Pow2(61) >= 8
  {
    RawQuarterExpForm(61, 2);
    WordIsPow2();
    assert Pow2(64) == 2 * Pow2(63) && Pow2(63) == 2 * Pow2(62) && Pow2(62) == 2 * Pow2(61);
    Pow2Mono(3, 61);
    assert Pow2(3) == 8;
  }

  lemma BucketSizeQuarterExp(ix: nat)
    requires ix <= LAST_QUARTER_EXP
    ensures RawQuarterExp(ix) + 8 <= WORD
    ensures IndexToBucketSizeQuarterExp(ix) == RawQuarterExp(AlignedQuarterExp(ix))
    ensures IndexToBucketSizeQuarterExp(ix) % 8 == 0
  {
    RawQuarterExpMono(ix, 243);
    LargestQuarterExp();
    Pow2Of3();
    AlignUpExpIsCeil(RawQuarterExp(ix), 3);
    AlignedQuarterIsCeil(ix);
    CeilUnique(IndexToBucketSizeQuarterExp(ix), RawQuarterExp(AlignedQuarterExp(ix)), RawQuarterExp(ix), 8);
  }

  lemma SmallQuarterExp()
    ensures RawQuarterExp(0) == 8 && RawQuarterExp(1) == 10 && RawQuarterExp(2) == 12 && RawQuarterExp(3) == 14
    ensures RawQuarterExp(4) == 16 && RawQuarterExp(5) == 20 && RawQuarterExp(6) == 24 && RawQuarterExp(7) == 28
    ensures RawQuarterExp(8) == 32 && RawQuarterExp(16) == 128
  {
    SmallPowers();
  }

  lemma RawQuarterExpMultiple(ix: nat)
    ensures ix >= 9 ==> RawQuarterExp(ix) % 8 == 0
    ensures ix >= 17 ==> RawQuarterExp(ix) % 32 == 0
  {
    Pow2MultipleOf32((ix + 3) / 4);
    StepsMultiple((ix + 3) % 4, Pow2((ix + 3) / 4));
  }

  lemma StepsMultiple(r: nat, d: nat)
    ensures d % 8 == 0 ==> QuarterSteps(r, d) % 8 == 0
    ensures d % 32 == 0 ==> QuarterSteps(r, d) % 32 == 0
  {
    var n := QuarterSteps(r, 1);
    assert QuarterSteps(r, d) == n * d;
    MultipleOfMultiple(n, d, 8);
    MultipleOfMultiple(n, d, 32);
  }

  lemma MultipleOfMultiple(n: nat, d: nat, m: nat)
    requires m > 0
    ensures d % m == 0 ==> (n * d) % m == 0
  {
    if d % m == 0 {
      Euclid(d, m);
      MulAssoc(n, d / m, m);
      DivModUnique(n * d, m, n * (d / m), 0);
    }
  }

  lemma AlignedQuarterIsCeil(ix: nat)
    ensures IsCeil(RawQuarterExp(AlignedQuarterExp(ix)), RawQuarterExp(ix), 8)
  {
    SmallQuarterExp();
    RawQuarterExpMultiple(ix);
  }

  /** The quarter scheme too picks the least bucket that fits. */
  lemma QuarterExpLeastFit(sz: nat, j: nat)
    requires 1 <= sz <= 7 * Pow2(61) && j <= LAST_QUARTER_EXP
    ensures var ix := SizeToIndexQuarterExp(sz);
            && 0 <= ix <= LAST_QUARTER_EXP
            && RawQuarterExp(ix) < WORD && RawQuarterExp(j) < WORD
            && sz <= IndexToBucketSizeQuarterExp(ix)
            && (sz <= IndexToBucketSizeQuarterExp(j)
                ==> IndexToBucketSizeQuarterExp(ix) <= IndexToBucketSizeQuarterExp(j))
  {
    hide Pow2, RawQuarterExp;
    IndexQuarterExpIsLeast(sz);
    LargestQuarterExp();
    var ix := SizeToIndexQuarterExp(sz);
    RawQuarterExpBefore(243, ix);
    BucketSizeQuarterExp(ix);
    BucketSizeQuarterExp(j);
    RawQuarterExpMono(ix, AlignedQuarterExp(ix));
    if sz <= IndexToBucketSizeQuarterExp(j) {
      var j' := AlignedQuarterExp(j);
      RawQuarterExpBefore(j', ix);
      RawQuarterExpMono(AlignedQuarterExp(ix), j');
    }
  }

  lemma QuarterExpTooLarge(sz: nat)
    requires 7 * Pow2(61) < sz
    ensures SizeToIndexQuarterExp(sz) > LAST_QUARTER_EXP
  {
    IndexQuarterExpIsLeast(sz);
    LargestQuarterExp();
    var ix := SizeToIndexQuarterExp(sz);
    RawQuarterExpMono(ix, 243);
  }

  lemma QuarterExpMonotone(sz: nat, sz': nat)
    requires sz <= sz'
    ensures SizeToIndexQuarterExp(sz) <= SizeToIndexQuarterExp(sz')
  {
    IndexQuarterExpIsLeast(sz);
    IndexQuarterExpIsLeast(sz');
    var i, j := SizeToIndexQuarterExp(sz), SizeToIndexQuarterExp(sz');
    RawQuarterExpBefore(j, i);
  }

  // ---------------------------------------------------------------------------------------
  // The sizes the allocator really uses

  const MAX_BUCKET_SIZE := 2 * PAGE_SIZE

  /** Every size that goes to a bucket gets one of the first 21 of the 64 buckets (the assert at
      line 1124), with room for the request and at most MaxBucketSize bytes. */
  lemma BucketForRequest(sz: nat)
    requires sz <= MAX_BUCKET_SIZE
    ensures var ix := SizeToIndexHalfExp(sz);
            && 0 <= ix <= 20
            && RawHalfExp(ix) < WORD
            && sz <= IndexToBucketSizeHalfExp(ix) <= MAX_BUCKET_SIZE
            && 8 <= IndexToBucketSizeHalfExp(ix)
  {
    IndexHalfExpIsLeast(sz);
    var ix := SizeToIndexHalfExp(sz);
    assert Pow2(3) == 8;
    PageIs12();
    assert Pow2(13) == 2 * Pow2(12);
    assert RawHalfExp(20) == MAX_BUCKET_SIZE;
    RawHalfExpBefore(20, ix);
    BucketSizeHalfExp(ix);
    RawHalfExpMono(0, ix);
    RawHalfExpMono(ix, AlignedHalfExp(ix));
    RawHalfExpMono(AlignedHalfExp(ix), 20);
  }

  /** The sizes for which formatting must look out for the forbidden offset are the small ones. */
  lemma HalfExpMultipleOf32OrSmall(ix: nat)
    requires ix <= LAST_HALF_EXP
    ensures RawHalfExp(ix) < WORD
    ensures var b := IndexToBucketSizeHalfExp(ix); b % 32 == 0 || b <= 48
  {
    BucketSizeHalfExp(ix);
    RawHalfExpMultiple(ix);
    SmallHalfExp();
    RawHalfExpMono(AlignedHalfExp(ix), 5);
  }

  lemma QuarterExpMultipleOf32OrSmall(ix: nat)
    requires ix <= LAST_QUARTER_EXP
    ensures RawQuarterExp(ix) < WORD
    ensures var b := IndexToBucketSizeQuarterExp(ix); b % 32 == 0 || b <= 128
  {
    BucketSizeQuarterExp(ix);
    RawQuarterExpMultiple(ix);
    SmallQuarterExp();
    RawQuarterExpMono(AlignedQuarterExp(ix), 16);
  }
}
