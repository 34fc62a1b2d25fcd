/** What becomes of a negative seed, which the constructor of `LBARandGenLFSR` accepts: the
    register on integers of either sign. */
module NegativeSeeds {
  import Ring
  import opened Bits
  import opened Lfsr
  import opened LbaGen

  /** A right shift rounds down, for negative numbers too. */
  function Down(x: int, k: nat): int {
    x / Pow2(k)
  }

  /** The lowest bit of the xor of the four shifted states. */
  function FeedbackInt(g: Gen, s: int): int {
    (s % 2 + Down(s, g.p1) % 2 + Down(s, g.p2) % 2 + Down(s, g.p3) % 2) % 2
  }

  /** Or-ing in bit k of a number in two's complement. */
  function OrBit(x: int, k: nat): int {
    if Down(x, k) % 2 == 1 then x else x + Pow2(k)
  }

  function ShiftInt(g: Gen, s: int): int
    requires 0 < g.n
  {
    if FeedbackInt(g, s) == 1 then OrBit(s / 2, g.n - 1) else s / 2
  }

  /** On states in range it is the shift of the register. */
  lemma ShiftIntIsShift(g: Gen, s: nat)
    requires g.Valid() && s < Pow2(g.n)
    ensures ShiftInt(g, s) == Shift(g, s)
  {
    ShiftIs(g, s);
    FeedbackIsParity(g, s);
    Ring.DivModUnique(s / 2, Pow2(g.n - 1), 0, s / 2);
  }

  lemma DownNegative(x: int, k: nat)
    requires x < 0
    ensures Down(x, k) < 0 && (Down(x, k) <= -2 ==> x + Pow2(k) < 0)
  {
    var p, q := Pow2(k), Down(x, k);
    assert x == q * p + x % p;
    if 0 <= q {
      Ring.MulMono(0, q, p);
    } else if q <= -2 {
      Ring.MulMono(q, -2, p);
    }
  }

  /** A negative state stays negative and moves up, until it is -1 for good. */
  lemma NegativeStep(g: Gen, s: int)
    requires g.Valid() && s < 0
    ensures s / 2 <= ShiftInt(g, s) < 0
    ensures s < -1 ==> s < ShiftInt(g, s)
  {
    DownNegative(s / 2, g.n - 1);
  }

  lemma AllOnes(k: nat)
    ensures Down(-1, k) == -1
  {
    var p := Pow2(k);
    DownNegative(-1, k);
    assert -1 == Down(-1, k) * p + (-1) % p;
    if Down(-1, k) <= -2 {
      Ring.MulMono(Down(-1, k), -2, p);
    }
  }

  lemma MinusOneStays(g: Gen)
    requires g.Valid()
    ensures ShiftInt(g, -1) == -1
  {
    AllOnes(g.p1);
    AllOnes(g.p2);
    AllOnes(g.p3);
  }

  /** The state after d calls. No negative state is above max, so each call shifts once. */
  function After(g: Gen, s0: int, d: nat): int
    requires 0 < g.n
  {
    if d == 0 then s0 else ShiftInt(g, After(g, s0, d - 1))
  }

  lemma {:induction false} StaysNegative(g: Gen, s0: int, d: nat)
    requires g.Valid() && s0 < 0
    ensures s0 <= After(g, s0, d) < 0
    ensures s0 < -1 && 0 < d ==> s0 < After(g, s0, d)
  {
    if d > 0 {
      StaysNegative(g, s0, d - 1);
      NegativeStep(g, After(g, s0, d - 1));
    }
  }

  /** From a negative seed every value is negative, and the iteration comes back to the seed,
      which is what ends it, exactly for -1. */
  lemma NegativeSeed(maxLba: int, blocks: nat, initial: int)
    requires 0 < blocks && Accepts(maxLba, blocks, initial) && initial < 0
    ensures var g := GenFor(maxLba, blocks, initial);
            && (forall d: nat :: After(g, initial, d) * blocks < 0)
            && ((exists d: nat :: 0 < d && After(g, initial, d) == initial) <==> initial == -1)
  {
    var g := GenFor(maxLba, blocks, initial);
    forall d: nat
      ensures After(g, initial, d) * blocks < 0 && (initial < -1 && 0 < d ==> initial < After(g, initial, d))
    {
      StaysNegative(g, initial, d);
      Ring.MulMono(After(g, initial, d), -1, blocks);
    }
    if initial == -1 {
      MinusOneStays(g);
      assert After(g, initial, 1) == ShiftInt(g, After(g, initial, 0));
    }
  }
}
