/** What the tester does with its slots, as a function of the random numbers it draws
    (src/allocator_tester.h:295-432), and what follows for any such numbers. */
module TesterModel {
  import opened Arith
  import opened SegmentCheck
  import opened RandomSize

  /** A slot: free, or with a block of some size and the number it was filled with. */
  datatype Slot = Free | Used(sz: nat, reincarnation: nat)

  /** A round: the slot picked, and the random number for the size should a block be needed. */
  datatype Draw = Draw(slot: nat, randNum: nat)

  /** held: bytes outstanding; next: the number for the next block; fills: the bytes outstanding after
      each allocation; filled and checked: the blocks filled and checked so far, in order. */
  datatype Sim = Sim(slots: seq<Slot>, held: int, next: nat, fills: seq<int>, filled: seq<Check>, checked: seq<Check>)

  const CNT32 := 0x1_0000_0000

  /** Where the random numbers come from: the main generator, whose seed is 0, and the slot that two of
      its numbers stand for. */
  datatype Source = Source(gen: Generator, pick: (nat, nat) -> nat)

  ghost predicate PicksBelow(src: Source, n: nat) {
    forall a: nat, b: nat :: src.pick(a, b) < n
  }

  /** Random number k, and the 64-bit one made of it and the next. */
  function Number(src: Source, k: nat): Word {
    RandomWord(src.gen, 0, k)
  }

  function Number64(src: Source, k: nat): nat {
    Wide(Number(src, k), Number(src, k + 1))
  }

  function CheckOf(s: Slot): Check
    requires s.Used?
  {
    Check(s.sz, s.reincarnation, true)
  }

  /** Before anything is drawn. */
  function Start(n: nat, held: int): Sim {
    Sim(seq(n, i => Free), held, 0, [], [], [])
  }

  /** A free slot gets a block. */
  function Fill(s: Sim, d: Draw, maxSizeExp: nat): Sim
    requires d.slot < |s.slots| && maxSizeExp >= 3
  {
    var sz := CalcSizeWithStatsAdjustment(d.randNum, maxSizeExp);
    var slot := Used(sz, s.next);
    Sim(s.slots[d.slot := slot], s.held + sz, (s.next + 1) % CNT32, s.fills + [s.held + sz],
        s.filled + [CheckOf(slot)], s.checked)
  }

  /** The block of a slot is checked and given back. */
  function Clear(s: Sim, i: nat): Sim
    requires i < |s.slots| && s.slots[i].Used?
  {
    s.(slots := s.slots[i := Free], held := s.held - s.slots[i].sz, checked := s.checked + [CheckOf(s.slots[i])])
  }

  function SimRound(s: Sim, d: Draw, maxSizeExp: nat): (r: Sim)
    requires d.slot < |s.slots| && maxSizeExp >= 3
    ensures |r.slots| == |s.slots|
  {
    if s.slots[d.slot].Used? then Clear(s, d.slot) else Fill(s, d, maxSizeExp)
  }

  predicate InTable(draws: seq<Draw>, n: nat) {
    forall k :: 0 <= k < |draws| ==> draws[k].slot < n
  }

  function SimRounds(s: Sim, draws: seq<Draw>, maxSizeExp: nat): (r: Sim)
    requires InTable(draws, |s.slots|) && maxSizeExp >= 3
    ensures |r.slots| == |s.slots|
  {
    if draws == [] then s
    else SimRound(SimRounds(s, draws[..|draws| - 1], maxSizeExp), draws[|draws| - 1], maxSizeExp)
  }

  /** The checks of the blocks that are left, in slot order. */
  function Rest(slots: seq<Slot>): seq<Check> {
    if slots == [] then []
    else Rest(slots[..|slots| - 1]) + if slots[|slots| - 1].Used? then [CheckOf(slots[|slots| - 1])] else []
  }

  lemma SimSnoc(s: Sim, draws: seq<Draw>, d: Draw, maxSizeExp: nat)
    requires InTable(draws, |s.slots|) && d.slot < |s.slots| && maxSizeExp >= 3
    ensures InTable(draws + [d], |s.slots|)
    ensures SimRounds(s, draws + [d], maxSizeExp) == SimRound(SimRounds(s, draws, maxSizeExp), d, maxSizeExp)
  {
    assert (draws + [d])[..|draws|] == draws;
  }

  // ---------------------------------------------------------------------------------------
  // Any run of rounds

  /** How often slot i is picked. */
  function Picks(draws: seq<Draw>, i: nat): nat {
    if draws == [] then 0
    else Picks(draws[..|draws| - 1], i) + if draws[|draws| - 1].slot == i then 1 else 0
  }

  /** A round changes the use of the slot picked, and no other slot. */
  lemma RoundUse(s: Sim, d: Draw, maxSizeExp: nat, i: nat)
    requires d.slot < |s.slots| && maxSizeExp >= 3 && i < |s.slots|
    ensures var r := SimRound(s, d, maxSizeExp).slots[i];
            if i == d.slot then r.Used? <==> !s.slots[i].Used? else r == s.slots[i]
  {}

  /** A slot is in use afterwards exactly if it was in use and picked an even number of times, or free
      and picked an odd number of times. */
  lemma {:induction false} Parity(s: Sim, draws: seq<Draw>, maxSizeExp: nat, i: nat)
    requires InTable(draws, |s.slots|) && maxSizeExp >= 3 && i < |s.slots|
    ensures SimRounds(s, draws, maxSizeExp).slots[i].Used? <==> (s.slots[i].Used? <==> Picks(draws, i) % 2 == 0)
    ensures Picks(draws, i) == 0 ==> SimRounds(s, draws, maxSizeExp).slots[i] == s.slots[i]
  {
    hide SimRound;
    if draws != [] {
      Parity(s, draws[..|draws| - 1], maxSizeExp, i);
      RoundUse(SimRounds(s, draws[..|draws| - 1], maxSizeExp), draws[|draws| - 1], maxSizeExp, i);
    }
  }

  /** Every round fills a block or checks one, and every block has its own number. */
  lemma {:induction false} Counts(s: Sim, draws: seq<Draw>, maxSizeExp: nat)
    requires InTable(draws, |s.slots|) && maxSizeExp >= 3 && s.next < CNT32
    ensures var r := SimRounds(s, draws, maxSizeExp);
            && (|r.filled| - |s.filled|) + (|r.checked| - |s.checked|) == |draws|
            && |r.fills| - |s.fills| == |r.filled| - |s.filled| >= 0
            && r.next == (s.next + |r.filled| - |s.filled|) % CNT32
  {
    if draws != [] {
      Counts(s, draws[..|draws| - 1], maxSizeExp);
      var q := SimRounds(s, draws[..|draws| - 1], maxSizeExp);
      NextNumber(s.next, |q.filled| - |s.filled|);
    }
  }

  lemma NextNumber(a: nat, k: nat)
    ensures ((a + k) % CNT32 + 1) % CNT32 == (a + k + 1) % CNT32
  {}

  /** The size of a slot in use is that of the random number of its last round. */
  lemma {:induction false} SizeDrawn(s: Sim, draws: seq<Draw>, maxSizeExp: nat, k: nat)
    requires InTable(draws, |s.slots|) && maxSizeExp >= 3 && k < |draws|
    requires forall t :: k < t < |draws| ==> draws[t].slot != draws[k].slot
    ensures var r := SimRounds(s, draws, maxSizeExp).slots[draws[k].slot];
            r.Used? ==> r.sz == CalcSizeWithStatsAdjustment(draws[k].randNum, maxSizeExp)
    decreases |draws|
  {
    if k < |draws| - 1 {
      var front := draws[..|draws| - 1];
      assert front[k] == draws[k] && forall t :: k < t < |front| ==> front[t] == draws[t];
      SizeDrawn(s, front, maxSizeExp, k);
    }
  }

  function ChecksOf(s: Slot): multiset<Check> {
    if s.Used? then multiset{CheckOf(s)} else multiset{}
  }

  /** The checks still to be made. */
  function Pending(slots: seq<Slot>): multiset<Check> {
    if slots == [] then multiset{} else Pending(slots[..|slots| - 1]) + ChecksOf(slots[|slots| - 1])
  }

  lemma {:induction false} RestIsPending(slots: seq<Slot>)
    ensures multiset(Rest(slots)) == Pending(slots)
  {
    if slots != [] { RestIsPending(slots[..|slots| - 1]); }
  }

  lemma WithMore(a: multiset<Check>, b: multiset<Check>, u: multiset<Check>, v: multiset<Check>, w: multiset<Check>)
    requires a + u == b + v
    ensures a + w + u == b + w + v
  {
    assert a + w + u == a + u + w;
  }

  lemma {:induction false} PendingUpdate(slots: seq<Slot>, i: nat, x: Slot)
    requires i < |slots|
    ensures Pending(slots[i := x]) + ChecksOf(slots[i]) == Pending(slots) + ChecksOf(x)
    decreases |slots|
  {
    hide ChecksOf;
    var front, n := slots[..|slots| - 1], |slots| - 1;
    var all := slots[i := x];
    assert Pending(slots) == Pending(front) + ChecksOf(slots[n]);
    assert Pending(all) == Pending(all[..n]) + ChecksOf(all[n]);
    if i < n {
      PendingUpdate(front, i, x);
      assert all[..n] == front[i := x];
      WithMore(Pending(all[..n]), Pending(front), ChecksOf(slots[i]), ChecksOf(x), ChecksOf(slots[n]));
    } else {
      assert all[..n] == front;
    }
  }

  predicate Balanced(s: Sim) {
    multiset(s.filled) == multiset(s.checked) + Pending(s.slots)
  }

  lemma RoundChecks(s: Sim, d: Draw, maxSizeExp: nat)
    requires d.slot < |s.slots| && maxSizeExp >= 3 && Balanced(s)
    ensures Balanced(SimRound(s, d, maxSizeExp))
  {
    hide Pending, CalcSizeWithStatsAdjustment;
    var r := SimRound(s, d, maxSizeExp);
    PendingUpdate(s.slots, d.slot, r.slots[d.slot]);
    if s.slots[d.slot].Used? {
      assert multiset(r.checked) == multiset(s.checked) + ChecksOf(s.slots[d.slot]);
      assert Pending(s.slots) == Pending(r.slots) + ChecksOf(s.slots[d.slot]);
    } else {
      assert multiset(r.filled) == multiset(s.filled) + ChecksOf(r.slots[d.slot]);
      assert Pending(r.slots) == Pending(s.slots) + ChecksOf(r.slots[d.slot]);
    }
  }

  /** Every block filled is checked once or still in a slot. */
  lemma {:induction false} EachCheckedOnce(s: Sim, draws: seq<Draw>, maxSizeExp: nat)
    requires InTable(draws, |s.slots|) && maxSizeExp >= 3 && Balanced(s)
    ensures Balanced(SimRounds(s, draws, maxSizeExp))
  {
    hide Balanced, SimRound;
    if draws != [] {
      EachCheckedOnce(s, draws[..|draws| - 1], maxSizeExp);
      RoundChecks(SimRounds(s, draws[..|draws| - 1], maxSizeExp), draws[|draws| - 1], maxSizeExp);
    }
  }

  lemma {:induction false} NonePending(n: nat)
    ensures Rest(seq(n, i => Free)) == []
  {
    if n > 0 {
      assert seq(n, i => Free)[..n - 1] == seq(n - 1, i => Free);
      NonePending(n - 1);
    }
  }

  function SizeSum(slots: seq<Slot>): nat {
    if slots == [] then 0
    else SizeSum(slots[..|slots| - 1]) + if slots[|slots| - 1].Used? then slots[|slots| - 1].sz else 0
  }

  lemma {:induction false} SizeSumUpdate(slots: seq<Slot>, i: nat, x: Slot)
    requires i < |slots|
    ensures SizeSum(slots[i := x]) + (if slots[i].Used? then slots[i].sz else 0)
         == SizeSum(slots) + (if x.Used? then x.sz else 0)
    decreases |slots|
  {
    var front, n := slots[..|slots| - 1], |slots| - 1;
    if i < n {
      SizeSumUpdate(front, i, x);
      assert slots[i := x][..n] == front[i := x];
    } else {
      assert slots[i := x][..n] == front;
    }
  }

  /** The bytes counted are those of the blocks in the slots, on top of what was there before. */
  lemma {:induction false} HeldIsSum(s: Sim, draws: seq<Draw>, maxSizeExp: nat)
    requires InTable(draws, |s.slots|) && maxSizeExp >= 3
    ensures var r := SimRounds(s, draws, maxSizeExp); r.held - SizeSum(r.slots) == s.held - SizeSum(s.slots)
  {
    if draws != [] {
      HeldIsSum(s, draws[..|draws| - 1], maxSizeExp);
      var q, d := SimRounds(s, draws[..|draws| - 1], maxSizeExp), draws[|draws| - 1];
      SizeSumUpdate(q.slots, d.slot, SimRound(q, d, maxSizeExp).slots[d.slot]);
    }
  }

  // ---------------------------------------------------------------------------------------
  // Setup

  predicate Bit(w: nat, j: nat) {
    w / Pow2(j) % 2 == 1
  }

  /** The rounds for the lowest j bits of a word, the numbers for the sizes starting with number k. */
  function WordDraws(src: Source, w: nat, base: nat, j: nat, k: nat): (r: seq<Draw>)
    ensures InTable(r, base + j)
  {
    if j == 0 then [] else
      var before := WordDraws(src, w, base, j - 1, k);
      before + if Bit(w, j - 1) then [Draw(base + (j - 1), Number64(src, k + 2 * |before|))] else []
  }

  /** How many numbers were drawn for i words and these rounds. */
  function SetupPos(i: nat, draws: seq<Draw>): nat {
    i + 2 * |draws|
  }

  /** The rounds of setup for i times 32 slots: one word each, one bit for each slot. */
  function SetupDraws(src: Source, i: nat): (r: seq<Draw>)
    ensures InTable(r, 32 * i)
  {
    if i == 0 then [] else
      var before := SetupDraws(src, i - 1);
      var k := SetupPos(i - 1, before);
      before + WordDraws(src, Number(src, k), 32 * (i - 1), 32, k + 1)
  }

  lemma NothingDrawn(src: Source, s: Sim, maxSizeExp: nat)
    requires maxSizeExp >= 3
    ensures SetupDraws(src, 0) == [] && SimRounds(s, [], maxSizeExp) == s
  {}

  lemma NoBitsYet(src: Source, w: nat, base: nat, k: nat)
    ensures WordDraws(src, w, base, 0, k) == []
  {}

  lemma NextBit(src: Source, w: nat, base: nat, j: nat, k: nat)
    ensures var before := WordDraws(src, w, base, j, k);
            WordDraws(src, w, base, j + 1, k) ==
            before + if Bit(w, j) then [Draw(base + j, Number64(src, k + 2 * |before|))] else []
  {}

  lemma NextGroup(src: Source, i: nat)
    ensures var before := SetupDraws(src, i);
            var k := SetupPos(i, before);
            SetupDraws(src, i + 1) == before + WordDraws(src, Number(src, k), 32 * i, 32, k + 1)
  {}

  /** Filling a free slot is a round. */
  lemma FillFacts(s: Sim, d: Draw, maxSizeExp: nat)
    requires d.slot < |s.slots| && maxSizeExp >= 3 && s.slots[d.slot].Free?
    ensures var r := Fill(s, d, maxSizeExp);
            && r == SimRound(s, d, maxSizeExp) && r.next == (s.next + 1) % CNT32
            && r.fills == s.fills + [r.held]
  {}

  /** The words drawn. */
  function SetupWord(src: Source, i: nat): Word {
    Number(src, SetupPos(i, SetupDraws(src, i)))
  }

  /** The state after setup, `table` bytes being outstanding before it. */
  function AfterSetup(src: Source, n: nat, table: int, maxSizeExp: nat): Sim
    requires maxSizeExp >= 3
  {
    SimRounds(Start(n, table), SetupDraws(src, n / 32), maxSizeExp)
  }

  lemma {:induction false} PicksAppend(l: seq<Draw>, m: seq<Draw>, i: nat)
    ensures Picks(l + m, i) == Picks(l, i) + Picks(m, i)
  {
    if m == [] {
      assert l + m == l;
    } else {
      assert (l + m)[..|l + m| - 1] == l + m[..|m| - 1];
      PicksAppend(l, m[..|m| - 1], i);
    }
  }

  lemma {:induction false} WordPicks(src: Source, w: nat, base: nat, j: nat, k: nat, i: nat)
    ensures Picks(WordDraws(src, w, base, j, k), i) == if base <= i < base + j && Bit(w, i - base) then 1 else 0
  {
    hide Bit, Number64;
    if j > 0 {
      WordPicks(src, w, base, j - 1, k, i);
      var before := WordDraws(src, w, base, j - 1, k);
      var last := if Bit(w, j - 1) then [Draw(base + (j - 1), Number64(src, k + 2 * |before|))] else [];
      PicksAppend(before, last, i);
      if last != [] { assert last[..0] == []; }
    }
  }

  lemma {:induction false} SetupPicks(src: Source, n: nat, i: nat)
    ensures Picks(SetupDraws(src, n), i) == if i < 32 * n && Bit(SetupWord(src, i / 32), i % 32) then 1 else 0
  {
    hide Bit, SetupWord, WordDraws, Picks;
    if n == 0 {
      NoPicks(i);
    } else {
      SetupPicks(src, n - 1, i);
      GroupPicks(src, n - 1, i);
    }
  }

  lemma NoPicks(i: nat)
    ensures Picks([], i) == 0
  {}

  lemma GroupPicks(src: Source, n: nat, i: nat)
    ensures Picks(SetupDraws(src, n + 1), i) == Picks(SetupDraws(src, n), i)
         + if i / 32 == n && Bit(SetupWord(src, n), i % 32) then 1 else 0
  {
    hide Bit, Number;
    var before := SetupDraws(src, n);
    var k := SetupPos(n, before);
    WordPicks(src, Number(src, k), 32 * n, 32, k + 1, i);
    PicksAppend(before, WordDraws(src, Number(src, k), 32 * n, 32, k + 1), i);
    assert i / 32 == n <==> 32 * n <= i < 32 * n + 32;
    assert i / 32 == n ==> i % 32 == i - 32 * n;
  }

  /** After setup a slot is in use exactly if its bit was set; the slots behind the last whole 32 are
      free. */
  lemma SetupFills(src: Source, n: nat, table: int, maxSizeExp: nat, i: nat)
    requires maxSizeExp >= 3 && i < n
    ensures AfterSetup(src, n, table, maxSizeExp).slots[i].Used? <==>
            i < 32 * (n / 32) && Bit(SetupWord(src, i / 32), i % 32)
  {
    hide SimRounds, SetupDraws, Bit, Picks, SetupWord;
    Parity(Start(n, table), SetupDraws(src, n / 32), maxSizeExp, i);
    SetupPicks(src, n / 32, i);
  }

  // ---------------------------------------------------------------------------------------
  // Main loop

  /** A round that starts with number k. */
  function RoundDraw(src: Source, k: nat): Draw {
    Draw(src.pick(Number(src, k), Number(src, k + 1)), Number64(src, k + 2))
  }

  /** The number that round i + 1 starts with, q being the state after i: a round takes two numbers, and
      two more if its slot is free. */
  function MainPos(s: Sim, q: Sim, k: nat, i: nat): int {
    k + 2 * i + 2 * (|q.fills| - |s.fills|)
  }

  /** The first i rounds from state s on, with number k the first not drawn yet. */
  function MainDraws(src: Source, s: Sim, k: nat, i: nat, maxSizeExp: nat): (r: seq<Draw>)
    requires (i > 0 ==> PicksBelow(src, |s.slots|)) && maxSizeExp >= 3
    ensures InTable(r, |s.slots|) && |r| == i
  {
    if i == 0 then [] else
      var before := MainDraws(src, s, k, i - 1, maxSizeExp);
      MoreFills(s, before, maxSizeExp);
      before + [RoundDraw(src, MainPos(s, SimRounds(s, before, maxSizeExp), k, i - 1))]
  }

  lemma {:induction false} MoreFills(s: Sim, draws: seq<Draw>, maxSizeExp: nat)
    requires InTable(draws, |s.slots|) && maxSizeExp >= 3
    ensures |SimRounds(s, draws, maxSizeExp).fills| >= |s.fills|
  {
    if draws != [] { MoreFills(s, draws[..|draws| - 1], maxSizeExp); }
  }

  /** No round made, nothing drawn. */
  lemma NoRounds(src: Source, s: Sim, k: nat, maxSizeExp: nat)
    requires maxSizeExp >= 3
    ensures SimRounds(s, MainDraws(src, s, k, 0, maxSizeExp), maxSizeExp) == s
  {}

  lemma RoundAdvances(src: Source, s: Sim, k: nat, i: nat, maxSizeExp: nat)
    requires PicksBelow(src, |s.slots|) && maxSizeExp >= 3
    ensures var q := SimRounds(s, MainDraws(src, s, k, i, maxSizeExp), maxSizeExp);
            var pos := MainPos(s, q, k, i);
            && |q.fills| >= |s.fills| && pos >= 0
            && var d := RoundDraw(src, pos);
               d.slot < |q.slots| && var q' := SimRound(q, d, maxSizeExp);
            && q' == SimRounds(s, MainDraws(src, s, k, i + 1, maxSizeExp), maxSizeExp)
            && MainPos(s, q', k, i + 1) == if q.slots[d.slot].Used? then pos + 2 else pos + 4
  {
    hide SimRounds, CalcSizeWithStatsAdjustment, Number64;
    var draws := MainDraws(src, s, k, i, maxSizeExp);
    MoreFills(s, draws, maxSizeExp);
    SimSnoc(s, draws, RoundDraw(src, MainPos(s, SimRounds(s, draws, maxSizeExp), k, i)), maxSizeExp);
  }

  /** The state after setup and i rounds; `fills` are those of the rounds. */
  function AfterRounds(src: Source, n: nat, table: int, i: nat, maxSizeExp: nat): Sim
    requires (i > 0 ==> PicksBelow(src, n)) && maxSizeExp >= 3
  {
    var s := AfterSetup(src, n, table, maxSizeExp).(fills := []);
    SimRounds(s, MainDraws(src, s, SetupPos(n / 32, SetupDraws(src, n / 32)), i, maxSizeExp), maxSizeExp)
  }

  lemma FillsAside(s: Sim)
    ensures Balanced(s.(fills := [])) <==> Balanced(s)
  {}

  /** From an empty table to the end of the exit loop every block is checked exactly once: the checks are,
      in some order, those of the blocks filled. */
  lemma AllChecked(src: Source, n: nat, table: int, i: nat, maxSizeExp: nat)
    requires (i > 0 ==> PicksBelow(src, n)) && maxSizeExp >= 3
    ensures var r := AfterRounds(src, n, table, i, maxSizeExp);
            multiset(r.filled) == multiset(r.checked + Rest(r.slots))
  {
    hide SimRounds, MainDraws, SetupDraws;
    NonePending(n);
    RestIsPending(seq(n, i => Free));
    EachCheckedOnce(Start(n, table), SetupDraws(src, n / 32), maxSizeExp);
    var s := AfterSetup(src, n, table, maxSizeExp);
    FillsAside(s);
    EachCheckedOnce(s.(fills := []), MainDraws(src, s.(fills := []), SetupPos(n / 32, SetupDraws(src, n / 32)), i,
                                               maxSizeExp), maxSizeExp);
    RestIsPending(AfterRounds(src, n, table, i, maxSizeExp).slots);
  }

  // ---------------------------------------------------------------------------------------
  // The tester's own generator

  /** Where one slot was filled and emptied in turns, i times in all. */
  predicate Turns(r: Sim, n: nat, table: int, slot: nat, sz: nat, i: nat)
    requires i > 0 ==> slot < n
  {
    && r.slots == (if i % 2 == 0 then Start(n, table).slots
                   else Start(n, table).slots[slot := Used(sz, i / 2 % CNT32)])
    && r.held == (if i % 2 == 0 then table else table + sz)
    && r.fills == seq((i + 1) / 2, _ => table + sz) && r.next == (i + 1) / 2 % CNT32
  }

  lemma NextTurn(s: Sim, n: nat, table: int, d: Draw, i: nat, maxSizeExp: nat)
    requires d.slot < n && maxSizeExp >= 3
    requires Turns(s, n, table, d.slot, CalcSizeWithStatsAdjustment(d.randNum, maxSizeExp), i)
    ensures |s.slots| == n
    ensures Turns(SimRound(s, d, maxSizeExp), n, table, d.slot, CalcSizeWithStatsAdjustment(d.randNum, maxSizeExp),
                  i + 1)
  {
    hide CalcSizeWithStatsAdjustment;
    NextNumber(0, i / 2);
    var free := Start(n, table).slots;
    if i % 2 == 0 {
      assert (i + 1) / 2 == i / 2 && (i + 2) / 2 == i / 2 + 1;
    } else {
      assert (i + 1) / 2 == (i + 2) / 2 && free[d.slot := s.slots[d.slot]][d.slot := Free] == free;
    }
  }

  /** Rounds that all pick the same free slot fill it and empty it in turns. */
  lemma {:induction false} SameSlot(n: nat, table: int, d: Draw, i: nat, maxSizeExp: nat)
    requires d.slot < n && maxSizeExp >= 3
    ensures Turns(SimRounds(Start(n, table), seq(i, _ => d), maxSizeExp), n, table, d.slot,
                  CalcSizeWithStatsAdjustment(d.randNum, maxSizeExp), i)
  {
    hide CalcSizeWithStatsAdjustment, SimRound;
    if i > 0 {
      hide Turns;
      SameSlot(n, table, d, i - 1, maxSizeExp);
      assert seq(i, _ => d)[..i - 1] == seq(i - 1, _ => d);
      NextTurn(SimRounds(Start(n, table), seq(i - 1, _ => d), maxSizeExp), n, table, d, i - 1, maxSizeExp);
    }
  }

  lemma {:induction false} ZeroRounds(src: Source, s: Sim, k: nat, i: nat, maxSizeExp: nat)
    requires src.gen == XORSHIFT && (i > 0 ==> PicksBelow(src, |s.slots|)) && maxSizeExp >= 3
    ensures MainDraws(src, s, k, i, maxSizeExp) == seq(i, _ => Draw(src.pick(0, 0), 0))
  {
    hide SimRounds;
    if i > 0 {
      ZeroRounds(src, s, k, i - 1, maxSizeExp);
      var before := MainDraws(src, s, k, i - 1, maxSizeExp);
      MoreFills(s, before, maxSizeExp);
      var pos := MainPos(s, SimRounds(s, before, maxSizeExp), k, i - 1);
      ZeroDraw(src, pos);
    }
  }

  lemma ZeroDraw(src: Source, k: nat)
    requires src.gen == XORSHIFT
    ensures Number(src, k) == 0 && RoundDraw(src, k) == Draw(src.pick(0, 0), 0)
  {
    hide SeedAfter, RandomWord;
    DefaultSeedYieldsZeros(k);
    DefaultSeedYieldsZeros(k + 1);
    DefaultSeedYieldsZeros(k + 2);
    DefaultSeedYieldsZeros(k + 3);
  }

  lemma SmallestSize(maxSizeExp: nat)
    requires maxSizeExp >= 3
    ensures CalcSizeWithStatsAdjustment(0, maxSizeExp) == 5
  {
    var p := Pow2(maxSizeExp - 3);
    assert 0 % p == 0 && 0 / p == 0;
    assert Pow2(2) == 4;
  }

  /** With its seed of 0 the tester's generator gives zeros only: setup allocates nothing, and every
      round picks the same slot; odd rounds allocate 5 bytes for it, even rounds give them back. */
  lemma OwnGenerator(src: Source, n: nat, table: int, i: nat, maxSizeExp: nat)
    requires src.gen == XORSHIFT && (i > 0 ==> PicksBelow(src, n)) && maxSizeExp >= 3
    ensures AfterSetup(src, n, table, maxSizeExp) == Start(n, table)
    ensures var r := AfterRounds(src, n, table, i, maxSizeExp);
            && r.slots == (if i % 2 == 0 then Start(n, table).slots
                           else Start(n, table).slots[src.pick(0, 0) := Used(5, i / 2 % CNT32)])
            && r.held == (if i % 2 == 0 then table else table + 5)
            && r.fills == seq((i + 1) / 2, _ => table + 5)
  {
    hide SetupDraws, MainDraws, CalcSizeWithStatsAdjustment;
    ZeroSetup(src, n / 32);
    ZeroRounds(src, Start(n, table), SetupPos(n / 32, []), i, maxSizeExp);
    SmallestSize(maxSizeExp);
    if i > 0 { SameSlot(n, table, Draw(src.pick(0, 0), 0), i, maxSizeExp); }
  }

  lemma {:induction false} ZeroSetup(src: Source, i: nat)
    requires src.gen == XORSHIFT
    ensures SetupDraws(src, i) == []
  {
    hide Number, WordDraws;
    if i > 0 {
      ZeroSetup(src, i - 1);
      ZeroDraw(src, SetupPos(i - 1, []));
      NoBits(src, 32 * (i - 1), 32, SetupPos(i - 1, []) + 1);
    }
  }

  lemma {:induction false} NoBits(src: Source, base: nat, j: nat, k: nat)
    ensures WordDraws(src, 0, base, j, k) == []
  {
    hide Number64;
    if j > 0 { NoBits(src, base, j - 1, k); }
  }
}
