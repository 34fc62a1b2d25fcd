/** Taps of maximal period, and what they do for every range of that width. */
module MaxPeriod {
  import opened Bits
  import opened Orbits
  import opened Lfsr

  /** The state d shifts after s, rejection left aside. */
  ghost function Shifted(g: Gen, s: nat, d: nat): nat
    requires 0 < g.n
  {
    if d == 0 then s else Shift(g, Shifted(g, s, d - 1))
  }

  /** The register of that width and taps passes through all 2^n - 1 nonzero states: started
      at 1 it first returns after that many shifts. The largest accepted state plays no part. */
  ghost predicate MaximalPeriod(g: Gen)
    requires g.Valid()
  {
    && Shifted(g, 1, Pow2(g.n) - 1) == 1
    && forall d :: 0 < d < Pow2(g.n) - 1 ==> Shifted(g, 1, d) != 1
  }

  lemma {:induction false} ShiftedIsIter(g: Gen, s: nat, d: nat)
    requires g.Valid()
    ensures Shifted(g, s, d) == Iter(Register(g), s, d)
  {
    if d > 0 {
      ShiftedIsIter(g, s, d - 1);
    }
  }

  lemma {:induction false} ShiftedIgnoresMax(g: Gen, m: nat, s: nat, d: nat)
    requires 0 < g.n
    ensures Shifted(g.(max := m), s, d) == Shifted(g, s, d)
  {
    if d > 0 {
      ShiftedIgnoresMax(g, m, s, d - 1);
    }
  }

  lemma PeriodIgnoresMax(g: Gen, m: nat)
    requires g.Valid() && g.(max := m).Valid()
    ensures MaximalPeriod(g.(max := m)) <==> MaximalPeriod(g)
  {
    forall d: nat
      ensures Shifted(g.(max := m), 1, d) == Shifted(g, 1, d)
    {
      ShiftedIgnoresMax(g, m, 1, d);
    }
  }

  lemma WidthAtLeastTwo(g: Gen)
    requires g.Valid()
    ensures 2 < Pow2(g.n)
  {
    assert Pow2(2) == 4;
    Pow2Mono(2, g.n);
  }

  lemma MaximalIsFullCycle(g: Gen)
    requires g.Valid()
    ensures MaximalPeriod(g) <==> FullCycle(Register(g))
  {
    WidthAtLeastTwo(g);
    forall d: nat
      ensures Shifted(g, 1, d) == Iter(Register(g), 1, d)
    {
      ShiftedIsIter(g, 1, d);
    }
  }

  /** Taps of maximal period: whatever the range of that width, the seed and the IO size, one
      iteration is a permutation of all multiples up to the largest. */
  lemma MaximalPeriodVisitsEverything(g: Gen, m: nat, s0: nat, blocks: nat)
    requires g.Valid() && MaximalPeriod(g) && g.(max := m).Valid() && 0 < s0 <= m && 0 < blocks
    ensures Register(g.(max := m)).Valid()
    ensures |Iteration(Register(g.(max := m)), s0, blocks)| == m + 1
    ensures forall s: nat :: s <= m ==> s * blocks in Iteration(Register(g.(max := m)), s0, blocks)
  {
    var f := g.(max := m);
    PeriodIgnoresMax(g, m);
    RegisterValid(f);
    MaximalIsFullCycle(f);
    FullCycleVisits(Register(f), s0, blocks);
  }

  /** Maximal period is exactly what makes every iteration over every range of the width a
      permutation. */
  lemma MaximalPeriodIff(g: Gen, blocks: nat)
    requires g.Valid() && 0 < blocks
    ensures forall m: nat :: g.(max := m).Valid() ==> Register(g.(max := m)).Valid()
    ensures MaximalPeriod(g) <==>
              forall m: nat, s0: nat :: g.(max := m).Valid() && 0 < s0 <= m ==>
                |Iteration(Register(g.(max := m)), s0, blocks)| == m + 1
  {
    forall m: nat | g.(max := m).Valid()
      ensures Register(g.(max := m)).Valid()
    {
      RegisterValid(g.(max := m));
    }
    if MaximalPeriod(g) {
      forall m: nat, s0: nat | g.(max := m).Valid() && 0 < s0 <= m
        ensures |Iteration(Register(g.(max := m)), s0, blocks)| == m + 1
      {
        MaximalPeriodVisitsEverything(g, m, s0, blocks);
      }
    } else {
      var m := Pow2(g.n) - 1;
      FullMeansMaximal(g, m, blocks);
    }
  }

  lemma FullMeansMaximal(g: Gen, m: nat, blocks: nat)
    requires g.Valid() && m == Pow2(g.n) - 1 && Register(g.(max := m)).Valid()
    ensures g.(max := m).Valid() && 0 < 1 <= m
    ensures |Iteration(Register(g.(max := m)), 1, blocks)| == m + 1 ==> MaximalPeriod(g)
  {
    var f := g.(max := m);
    WidthAtLeastTwo(g);
    assert f.Valid() by {
      Pow2Mono(g.n - 1, g.n);
    }
    if |Iteration(Register(f), 1, blocks)| == m + 1 {
      FullMeansCycle(Register(f), blocks);
      MaximalIsFullCycle(f);
      PeriodIgnoresMax(g, m);
    }
  }
}
