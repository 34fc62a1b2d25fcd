/** `LBARandGenLFSR`: pseudo-random LBAs, each at most once, then a final 0. */
module LbaGen {
  import opened Options
  import Ring
  import opened Bits
  import opened Lfsr
  import opened MaxPeriod
  import opened Orbits
  import opened SmallWidths

  /** The polynomial table, for 5 to 40 bits. The source subtracts each entry from the width. */
  function Poly(n: nat): (nat, nat, nat, nat)
    requires 5 <= n <= 40
  {
    match n
    case 5 => (5, 4, 3, 2)
    case 6 => (6, 5, 3, 2)
    case 7 => (7, 6, 5, 4)
    case 8 => (8, 6, 5, 4)
    case 9 => (9, 8, 6, 5)
    case 10 => (10, 9, 7, 6)
    case 11 => (11, 10, 9, 7)
    case 12 => (12, 11, 8, 6)
    case 13 => (13, 12, 10, 9)
    case 14 => (14, 13, 11, 9)
    case 15 => (15, 14, 13, 11)
    case 16 => (16, 14, 13, 11)
    case 17 => (17, 16, 15, 14)
    case 18 => (18, 17, 16, 13)
    case 19 => (19, 18, 17, 14)
    case 20 => (20, 19, 16, 14)
    case 21 => (21, 20, 19, 16)
    case 22 => (22, 19, 18, 17)
    case 23 => (23, 22, 20, 18)
    case 24 => (24, 23, 21, 20)
    case 25 => (25, 24, 23, 22)
    case 26 => (26, 25, 24, 20)
    case 27 => (27, 26, 25, 22)
    case 28 => (28, 27, 24, 22)
    case 29 => (29, 28, 27, 25)
    case 30 => (30, 29, 26, 24)
    case 31 => (31, 30, 29, 28)
    case 32 => (32, 30, 26, 25)
    case 33 => (33, 32, 29, 27)
    case 34 => (34, 31, 30, 26)
    case 35 => (35, 34, 28, 27)
    case 36 => (36, 35, 29, 28)
    case 37 => (37, 36, 33, 31)
    case 38 => (38, 37, 33, 32)
    case 39 => (39, 38, 35, 32)
    case 40 => (40, 37, 36, 35)
  }

  /** In every row the first tap is 0 and the others are distinct, growing and below the
      width: this is all the register theory needs of the table. */
  lemma PolyTaps(n: nat)
    requires 5 <= n <= 40
    ensures var (a, b, c, d) := Poly(n); n - a == 0 && 0 < n - b < n - c < n - d < n
  {
  }

  /** `self.max_value`, by floor division. */
  function MaxValue(maxLba: int, blocks: nat): int
    requires 0 < blocks
  {
    (maxLba - blocks) / blocks
  }

  lemma MaxValueBounds(maxLba: int, blocks: nat)
    requires 0 < blocks
    ensures var m := MaxValue(maxLba, blocks); (m + 1) * blocks <= maxLba < (m + 2) * blocks
  {
    var room := maxLba - blocks;
    assert room == (room / blocks) * blocks + room % blocks;
  }

  /** The constructor's assertions, for a range with room for an IO. They let negative seeds
      through. */
  predicate Accepts(maxLba: int, blocks: nat, initial: int)
    requires 0 < blocks
  {
    && initial < MaxValue(maxLba, blocks)
    && initial != 0
    && 0 <= MaxValue(maxLba, blocks)
    && 5 <= BitLength(MaxValue(maxLba, blocks)) <= 40
  }

  /** The taps are those of the row for the register's width. */
  ghost predicate FromRow(g: Gen) {
    5 <= g.n <= 40 && var (_, b, c, d) := Poly(g.n); g.p1 + b == g.p2 + c == g.p3 + d == g.n
  }

  /** The register of width n for states up to m. */
  function RowGen(n: nat, m: nat): (g: Gen)
    requires 5 <= n <= 40 && Pow2(n - 1) <= m < Pow2(n)
    ensures g.Valid() && FromRow(g) && g.max == m
  {
    PolyTaps(n);
    var (_, b, c, d) := Poly(n);
    Gen(n, n - b, n - c, n - d, m)
  }

  function GenFor(maxLba: int, blocks: nat, initial: int): (g: Gen)
    requires 0 < blocks && Accepts(maxLba, blocks, initial)
    ensures g.Valid() && Register(g).Valid() && (0 < initial ==> InRange(Register(g), initial))
    ensures g.max == MaxValue(maxLba, blocks)
  {
    var m := MaxValue(maxLba, blocks);
    BitLengthBounds(m);
    var g := RowGen(BitLength(m), m);
    RegisterValid(g);
    g
  }

  /** The generator for a range has the taps of the row for its width. */
  lemma GenForRow(maxLba: int, blocks: nat, initial: int)
    requires 0 < blocks && Accepts(maxLba, blocks, initial)
    ensures FromRow(GenFor(maxLba, blocks, initial))
  {
    var m := MaxValue(maxLba, blocks);
    BitLengthBounds(m);
    assert GenFor(maxLba, blocks, initial) == RowGen(BitLength(m), m);
  }

  /** Its largest state is the last multiple from which a whole IO fits. */
  lemma GenForRange(maxLba: int, blocks: nat, initial: int)
    requires 0 < blocks && Accepts(maxLba, blocks, initial)
    ensures var g := GenFor(maxLba, blocks, initial); (g.max + 1) * blocks <= maxLba < (g.max + 2) * blocks
  {
    MaxValueBounds(maxLba, blocks);
  }

  class LBARandGenLFSR {
    const gen: Gen
    const blocks: nat
    const initialState: nat
    var state: nat
    var period: nat
    var complete: bool
    /** Values `Next` has returned since construction or the last `Reset`. */
    ghost var yielded: nat

    ghost predicate Valid()
      reads this
    {
      && gen.Valid() && Register(gen).Valid() && InRange(Register(gen), initialState) && 0 < blocks
      && var p := Period(Register(gen), initialState);
      && yielded <= p + 1
      && (complete <==> yielded == p + 1)
      && state == Nth(Register(gen), initialState, if complete then p else yielded)
      && (period > 0 <==> yielded > 0)
    }

    constructor (maxLba: int, blocks: nat, initialState: nat)
      requires 0 < blocks && Accepts(maxLba, blocks, initialState)
      ensures Valid() && yielded == 0
      ensures gen == GenFor(maxLba, blocks, initialState)
      ensures this.blocks == blocks && this.initialState == initialState
    {
      gen := GenFor(maxLba, blocks, initialState);
      this.blocks, this.initialState := blocks, initialState;
      state, period, complete, yielded := initialState, 0, false, 0;
    }

    /** `reset` */
    method Reset()
      requires Valid()
      modifies this
      ensures Valid() && yielded == 0
    {
      state, period, complete := initialState, 0, false;
      yielded := 0;
    }

    /** The closure `f`, recursive on rejection. `k` counts the rejections so far: at most
        n + 1 shifts are made in all. */
    method Generate(ghost k: nat) returns (lba: nat)
      requires gen.Valid() && state < Pow2(gen.n) && TopOnes(gen, k, state)
      modifies this`state, this`period
      ensures state == FirstAccepted(gen, k, old(state)) && lba == state * blocks
      ensures old(period) + 1 <= period <= old(period) + gen.n + 1 - k
      ensures period == old(period) + Shifts(gen, k, old(state))
      decreases gen.n - k
    {
      FirstAcceptedStep(gen, k, state);
      state := Shift(gen, state);
      period := period + 1;
      if state > gen.max {
        lba := Generate(k + 1);
      } else {
        lba := state * blocks;
      }
    }

    /** `__next__`: the i-th call since the last reset yields element i of `Iteration`, and
        every call after the last element stops. */
    method Next() returns (r: Option<nat>)
      requires Valid()
      modifies this
      ensures Valid()
      ensures var xs := Iteration(Register(gen), initialState, blocks);
              if old(yielded) < |xs| then r == Some(xs[old(yielded)]) && yielded == old(yielded) + 1
              else r == None && yielded == old(yielded)
    {
      IterationAt(gen, initialState, blocks, yielded);
      if complete {
        return None;
      }
      if state == initialState && period > 0 {
        complete := true;
        r := Some(0);
      } else {
        FirstAcceptedIsSucc(gen, state);
        var lba := Generate(0);
        r := Some(lba);
      }
      yielded := yielded + 1;
    }
  }

  lemma IterationAt(g: Gen, initial: nat, blocks: nat, i: nat)
    requires g.Valid() && Register(g).Valid() && InRange(Register(g), initial)
    ensures var xs, p := Iteration(Register(g), initial, blocks), Period(Register(g), initial);
            && |xs| == p + 1
            && (i < p ==> xs[i] == Nth(Register(g), initial, i + 1) * blocks)
            && (i == p ==> xs[i] == 0)
  {
    IterationElement(Register(g), initial, blocks, i);
  }

  /** Every LBA an iteration yields leaves room for the whole IO below the caller's max_lba. */
  lemma WholeIoFits(maxLba: int, blocks: nat, initial: nat)
    requires 0 < blocks && Accepts(maxLba, blocks, initial)
    ensures var xs := Iteration(Register(GenFor(maxLba, blocks, initial)), initial, blocks);
            forall i :: 0 <= i < |xs| ==> xs[i] % blocks == 0 && xs[i] + blocks <= maxLba
  {
    AllFit(GenFor(maxLba, blocks, initial), maxLba - blocks, blocks, initial);
  }

  lemma AllFit(g: Gen, room: int, blocks: nat, initial: nat)
    requires 0 < blocks && g.Valid() && Register(g).Valid() && InRange(Register(g), initial) && g.max == room / blocks
    ensures var xs := Iteration(Register(g), initial, blocks);
            forall i :: 0 <= i < |xs| ==> xs[i] % blocks == 0 && xs[i] <= room
  {
    var xs := Iteration(Register(g), initial, blocks);
    forall i | 0 <= i < |xs|
      ensures xs[i] % blocks == 0 && xs[i] <= room
    {
      var t := ValueAt(g, initial, blocks, i);
      ScaledFits(t, room, blocks);
    }
  }

  lemma ValueAt(g: Gen, initial: nat, blocks: nat, i: nat) returns (t: nat)
    requires g.Valid() && Register(g).Valid() && InRange(Register(g), initial)
    requires i < |Iteration(Register(g), initial, blocks)|
    ensures t <= g.max && Iteration(Register(g), initial, blocks)[i] == t * blocks
  {
    var lap := Lap(Register(g), initial);
    t := if i < |lap| then lap[i] else 0;
  }

  lemma ScaledFits(s: nat, room: int, blocks: nat)
    requires 0 < blocks && s <= room / blocks
    ensures s * blocks <= room && (s * blocks) % blocks == 0
  {
    var m := room / blocks;
    assert room == m * blocks + room % blocks;
    assert (m - s) * blocks == m * blocks - s * blocks;
    Ring.DivModUnique(s * blocks, blocks, s, 0);
  }

  // ---- The range a caller gives, and the row of the table it picks ------------------

  lemma LengthAtLeast(m: nat, k: nat)
    requires 0 < k
    ensures k <= BitLength(m) <==> Pow2(k - 1) <= m
  {
    if m > 0 {
      var n := BitLength(m);
      BitLengthBounds(m);
      if k <= n {
        Pow2Mono(k - 1, n - 1);
      } else {
        Pow2Mono(n, k - 1);
      }
    }
  }

  lemma {:induction false} Pow2Sum(a: nat, b: nat)
    ensures Pow2(a + b) == Pow2(a) * Pow2(b)
  {
    if a > 0 {
      Pow2Sum(a - 1, b);
    }
  }

  lemma Pow2Forty()
    ensures Pow2(4) == 16 && Pow2(40) == 0x100_0000_0000
  {
    Pow2Sum(2, 2);
    Pow2Sum(5, 5);
    Pow2Sum(10, 10);
    Pow2Sum(20, 20);
    SmallPowers();
  }

  /** What is accepted, m being the number of the largest multiple: a nonzero seed below m, and
      m from 16 up to 2^40 - 1. */
  lemma AcceptsIff(maxLba: int, blocks: nat, initial: int, m: int)
    requires 0 < blocks && (m + 1) * blocks <= maxLba < (m + 2) * blocks
    ensures Accepts(maxLba, blocks, initial) <==> initial != 0 && initial < m && 16 <= m < 0x100_0000_0000
  {
    Ring.DivModUnique(maxLba - blocks, blocks, m, maxLba - (m + 1) * blocks);
    if 0 <= m {
      LengthAtLeast(m, 5);
      LengthAtLeast(m, 41);
      Pow2Forty();
    }
  }

  /** The bit a shift puts on top is the parity of bits 0, n - b, n - c and n - d, where b, c
      and d are those of the row; the other bits move down by one place. */
  lemma TopIsParity(g: Gen, s: nat, b: nat, c: nat, d: nat)
    requires g.Valid() && s < Pow2(g.n) && g.p1 + b == g.p2 + c == g.p3 + d == g.n
    ensures Shift(g, s) / Pow2(g.n - 1) == (Bit(s, 0) + Bit(s, g.n - b) + Bit(s, g.n - c) + Bit(s, g.n - d)) % 2
    ensures Shift(g, s) % Pow2(g.n - 1) == s / 2
  {
    ShiftIs(g, s);
    FeedbackIsParity(g, s);
    assert Bit(s, 0) == s % 2;
  }

  /** The rows for 5 to 8 bits have maximal period, whatever the range of that width. */
  lemma SmallWidthsMaximal(maxLba: int, blocks: nat, initial: int)
    requires 0 < blocks && Accepts(maxLba, blocks, initial) && GenFor(maxLba, blocks, initial).n <= 8
    ensures MaximalPeriod(GenFor(maxLba, blocks, initial))
  {
    GenForRow(maxLba, blocks, initial);
    TabledMaximal(GenFor(maxLba, blocks, initial));
  }

  lemma SmallWidth(g: Gen)
    requires g.Valid() && g.max < 256
    ensures g.n <= 8
  {
    SmallPowers();
    if g.n > 8 {
      Pow2Mono(8, g.n - 1);
    }
  }

  /** So on up to 256 multiples every seed's iteration yields each multiple of the IO size that
      leaves room for the whole IO. */
  lemma SmallRangesVisited(maxLba: int, blocks: nat, initial: nat)
    requires 0 < blocks && Accepts(maxLba, blocks, initial) && maxLba < 257 * blocks
    ensures var xs := Iteration(Register(GenFor(maxLba, blocks, initial)), initial, blocks);
            forall s: nat :: (s + 1) * blocks <= maxLba ==> s * blocks in xs
  {
    var g := GenFor(maxLba, blocks, initial);
    GenForRange(maxLba, blocks, initial);
    Ring.MulLess(g.max + 1, 257, blocks, maxLba);
    SmallWidth(g);
    SmallWidthsMaximal(maxLba, blocks, initial);
    MaximalPeriodVisitsEverything(g, g.max, initial, blocks);
    forall s: nat | (s + 1) * blocks <= maxLba
      ensures s * blocks in Iteration(Register(g), initial, blocks)
    {
      Ring.MulLess(s + 1, g.max + 2, blocks, maxLba);
    }
  }
}
