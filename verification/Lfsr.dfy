/** The four-tap shift register behind `LBARandGenLFSR`. */
module Lfsr {
  import Ring
  import opened Bits
  import opened Orbits

  /** Register width, taps p1 < p2 < p3 (tap p0 is always 0) and the largest accepted state. */
  datatype Gen = Gen(n: nat, p1: nat, p2: nat, p3: nat, max: nat) {
    ghost predicate Valid() {
      0 < p1 < p2 < p3 < n && Pow2(n - 1) <= max < Pow2(n)
    }
  }

  // ---- One shift --------------------------------------------------------------------

  /** The bit fed back: the lowest one of the xor of the four shifted states. */
  function Feedback(g: Gen, s: nat): nat {
    Xor(Xor(Xor(s, Shr(s, g.p1)), Shr(s, g.p2)), Shr(s, g.p3)) % 2
  }

  function Shift(g: Gen, s: nat): nat
    requires 0 < g.n
  {
    Or(Shr(s, 1), Feedback(g, s) * Pow2(g.n - 1))
  }

  /** The state one shift ago: the dropped bit is recovered from the bit shifted in and the
      three upper taps, which survive one position lower. */
  function Unshift(g: Gen, t: nat): nat
    requires 0 < g.p1 < g.p2 < g.p3 < g.n
  {
    var low := t % Pow2(g.n - 1);
    var top := t / Pow2(g.n - 1);
    2 * low + (top + Bit(low, g.p1 - 1) + Bit(low, g.p2 - 1) + Bit(low, g.p3 - 1)) % 2
  }

  lemma XorParity(a: nat, b: nat, c: nat, d: nat)
    ensures Xor(Xor(Xor(a, b), c), d) % 2 == (a % 2 + b % 2 + c % 2 + d % 2) % 2
  {
    XorStep(a, b, a % 2);
    XorStep(Xor(a, b), c, a % 2 + b % 2);
    XorStep(Xor(Xor(a, b), c), d, a % 2 + b % 2 + c % 2);
  }

  lemma XorStep(x: nat, y: nat, p: nat)
    requires x % 2 == p % 2
    ensures Xor(x, y) % 2 == (p + y % 2) % 2
  {
    XorLow(x, y);
    ParitySum(p, x % 2, y % 2);
  }

  lemma ParitySum(x: nat, y: nat, z: nat)
    requires y == x % 2
    ensures (y + z) % 2 == (x + z) % 2
  {
  }

  lemma FeedbackIsParity(g: Gen, s: nat)
    ensures Feedback(g, s) == (s % 2 + Bit(s, g.p1) + Bit(s, g.p2) + Bit(s, g.p3)) % 2
  {
    XorParity(s, Shr(s, g.p1), Shr(s, g.p2), Shr(s, g.p3));
  }

  /** One shift in plain arithmetic. */
  lemma ShiftIs(g: Gen, s: nat)
    requires g.Valid() && s < Pow2(g.n)
    ensures Shift(g, s) == s / 2 + Feedback(g, s) * Pow2(g.n - 1)
    ensures Shift(g, s) < Pow2(g.n)
    ensures Shift(g, s) / Pow2(g.n - 1) == Feedback(g, s) && Shift(g, s) % Pow2(g.n - 1) == s / 2
  {
    assert Pow2(1) == 2 * Pow2(0);
    var h := Pow2(g.n - 1);
    OrAbove(s / 2, Feedback(g, s), g.n - 1);
    Ring.DivModUnique(s / 2 + Feedback(g, s) * h, h, Feedback(g, s), s / 2);
  }

  lemma TapsBelow(g: Gen, s: nat)
    requires 0 < g.p1 < g.p2 < g.p3 < g.n
    ensures Bit(s / 2, g.p1 - 1) == Bit(s, g.p1)
    ensures Bit(s / 2, g.p2 - 1) == Bit(s, g.p2)
    ensures Bit(s / 2, g.p3 - 1) == Bit(s, g.p3)
  {
    HalfBit(s, g.p1 - 1);
    HalfBit(s, g.p2 - 1);
    HalfBit(s, g.p3 - 1);
  }

  /** The dropped bit is recovered from what is left. */
  lemma LowBitBack(g: Gen, s: nat)
    requires 0 < g.p1 < g.p2 < g.p3 < g.n
    ensures (Feedback(g, s) + Bit(s / 2, g.p1 - 1) + Bit(s / 2, g.p2 - 1) + Bit(s / 2, g.p3 - 1)) % 2 == s % 2
  {
    FeedbackIsParity(g, s);
    TapsBelow(g, s);
    ParityBack(s % 2, Bit(s, g.p1), Bit(s, g.p2), Bit(s, g.p3));
  }

  /** The shift is a bijection on the n-bit states: `Unshift` undoes it on either side. */
  lemma UnshiftShift(g: Gen, s: nat)
    requires g.Valid() && s < Pow2(g.n)
    ensures Unshift(g, Shift(g, s)) == s
  {
    ShiftIs(g, s);
    LowBitBack(g, s);
  }

  lemma ShiftUnshift(g: Gen, t: nat)
    requires g.Valid() && t < Pow2(g.n)
    ensures Unshift(g, t) < Pow2(g.n) && Shift(g, Unshift(g, t)) == t
  {
    UnshiftHalves(g, t);
    ShiftIs(g, Unshift(g, t));
    TopBit(g, t);
    FeedbackOfUnshift(g, t);
  }

  lemma FeedbackOfUnshift(g: Gen, t: nat)
    requires g.Valid() && t < Pow2(g.n)
    ensures Feedback(g, Unshift(g, t)) == t / Pow2(g.n - 1)
  {
    UnshiftHalves(g, t);
    TopBit(g, t);
    FeedbackRecovers(g, Unshift(g, t), t / Pow2(g.n - 1));
  }

  lemma FeedbackRecovers(g: Gen, u: nat, top: nat)
    requires g.Valid() && top < 2
    requires u % 2 == (top + Bit(u / 2, g.p1 - 1) + Bit(u / 2, g.p2 - 1) + Bit(u / 2, g.p3 - 1)) % 2
    ensures Feedback(g, u) == top
  {
    FeedbackIsParity(g, u);
    TapsBelow(g, u);
    ParityBack(top, Bit(u, g.p1), Bit(u, g.p2), Bit(u, g.p3));
  }

  lemma UnshiftHalves(g: Gen, t: nat)
    requires g.Valid() && t < Pow2(g.n)
    ensures Unshift(g, t) < Pow2(g.n) && Unshift(g, t) / 2 == t % Pow2(g.n - 1)
    ensures var u := Unshift(g, t);
            u % 2 == (t / Pow2(g.n - 1) + Bit(u / 2, g.p1 - 1) + Bit(u / 2, g.p2 - 1) + Bit(u / 2, g.p3 - 1)) % 2
  {
  }

  lemma ParityBack(x: nat, a: nat, b: nat, c: nat)
    requires x < 2
    ensures ((x + a + b + c) % 2 + a + b + c) % 2 == x
  {
  }

  lemma TopBit(g: Gen, s: nat)
    requires g.Valid() && s < Pow2(g.n)
    ensures 0 <= s / Pow2(g.n - 1) < 2
    ensures s == s / Pow2(g.n - 1) * Pow2(g.n - 1) + s % Pow2(g.n - 1)
  {
    var h := Pow2(g.n - 1);
    if s < h {
      Ring.DivModUnique(s, h, 0, s);
    } else {
      Ring.DivModUnique(s, h, 1, s - h);
    }
  }

  /** 0 is fixed, and nothing else reaches it. */
  lemma ShiftZero(g: Gen, s: nat)
    requires g.Valid() && s < Pow2(g.n)
    ensures Shift(g, s) == 0 <==> s == 0
  {
    ShiftIs(g, s);
    FeedbackIsParity(g, s);
    if s == 0 {
      ZeroBits(g.p1);
      ZeroBits(g.p2);
      ZeroBits(g.p3);
    } else if s == 1 {
      OneBits(g.p1);
      OneBits(g.p2);
      OneBits(g.p3);
    }
  }

  lemma ZeroBits(k: nat)
    ensures Bit(0, k) == 0
  {
  }

  lemma OneBits(k: nat)
    requires 0 < k
    ensures Bit(1, k) == 0
  {
    HalfBit(1, k - 1);
    ZeroBits(k - 1);
  }

  // ---- Rejection --------------------------------------------------------------------

  /** The top k of the n bits of s are ones. */
  ghost predicate TopOnes(g: Gen, k: nat, s: nat) {
    k <= g.n && Pow2(g.n) <= s + Pow2(g.n - k)
  }

  lemma OnesFeedback(g: Gen)
    requires g.Valid()
    ensures Feedback(g, Pow2(g.n) - 1) == 0
  {
    var s := Pow2(g.n) - 1;
    FeedbackIsParity(g, s);
    OnesBit(g.n, g.p1);
    OnesBit(g.n, g.p2);
    OnesBit(g.n, g.p3);
    OnesBit(g.n, 0);
    LowBit(s);
    FourOnes(s % 2, Bit(s, g.p1), Bit(s, g.p2), Bit(s, g.p3));
  }

  lemma FourOnes(a: nat, b: nat, c: nat, d: nat)
    requires a == b == c == d == 1
    ensures (a + b + c + d) % 2 == 0
  {
  }

  lemma LowBit(s: nat)
    ensures Bit(s, 0) == s % 2
  {
  }

  lemma AllOnesAccepted(g: Gen)
    requires g.Valid()
    ensures Shift(g, Pow2(g.n) - 1) <= g.max
  {
    ShiftIs(g, Pow2(g.n) - 1);
    OnesFeedback(g);
  }

  /** A rejected state has one more leading one than the state it was shifted from, and the
      all-ones state shifts in a 0, so what follows it is accepted. */
  lemma RejectedGrows(g: Gen, k: nat, s: nat)
    requires g.Valid() && s < Pow2(g.n) && TopOnes(g, k, s) && Shift(g, s) > g.max
    ensures k < g.n && TopOnes(g, k + 1, Shift(g, s))
  {
    ShiftIs(g, s);
    if k == g.n {
      assert Pow2(0) == 1;
      AllOnesAccepted(g);
    } else {
      FeedbackIsParity(g, s);
      HalfTop(s, Pow2(g.n - k - 1), Pow2(g.n - 1), Feedback(g, s));
    }
  }

  lemma HalfTop(s: nat, m: nat, h: nat, bit: nat)
    requires 2 * h <= s + 2 * m && s < 2 * h && bit < 2 && s / 2 + bit * h >= h
    ensures 2 * h <= s / 2 + bit * h + m
  {
  }

  /** The recursive `f`: shift until the state is accepted. After k rejections the top k
      bits are ones, which bounds the recursion. */
  ghost function FirstAccepted(g: Gen, k: nat, s: nat): (t: nat)
    requires g.Valid() && s < Pow2(g.n) && TopOnes(g, k, s)
    ensures t <= g.max
    decreases g.n - k
  {
    ShiftIs(g, s);
    if Shift(g, s) > g.max then
      RejectedGrows(g, k, s);
      FirstAccepted(g, k + 1, Shift(g, s))
    else Shift(g, s)
  }

  /** How many shifts `f` makes, from a state reached after k rejections. */
  ghost function Shifts(g: Gen, k: nat, s: nat): (d: nat)
    requires g.Valid() && s < Pow2(g.n) && TopOnes(g, k, s)
    ensures 1 <= d <= g.n + 1 - k
    decreases g.n - k
  {
    ShiftIs(g, s);
    if Shift(g, s) > g.max then
      RejectedGrows(g, k, s);
      1 + Shifts(g, k + 1, Shift(g, s))
    else 1
  }

  /** One call of `f`, unfolded. */
  lemma FirstAcceptedStep(g: Gen, k: nat, s: nat)
    requires g.Valid() && s < Pow2(g.n) && TopOnes(g, k, s)
    ensures Shift(g, s) < Pow2(g.n)
    ensures Shift(g, s) > g.max ==>
              && k < g.n && TopOnes(g, k + 1, Shift(g, s))
              && FirstAccepted(g, k, s) == FirstAccepted(g, k + 1, Shift(g, s))
              && Shifts(g, k, s) == 1 + Shifts(g, k + 1, Shift(g, s))
    ensures Shift(g, s) <= g.max ==> FirstAccepted(g, k, s) == Shift(g, s) && Shifts(g, k, s) == 1
  {
    ShiftIs(g, s);
    if Shift(g, s) > g.max {
      RejectedGrows(g, k, s);
    }
  }

  // ---- The register as a filtered permutation ---------------------------------------

  ghost function Register(g: Gen): Reg
    requires g.Valid()
  {
    Reg((s: nat) => Shift(g, s), (t: nat) => Unshift(g, t), Pow2(g.n), g.max, g.n + 1)
  }

  lemma {:induction false} IterFirst(g: Gen, s: nat, d: nat)
    requires g.Valid()
    ensures Iter(Register(g), Shift(g, s), d) == Iter(Register(g), s, d + 1)
  {
    if d > 0 {
      IterFirst(g, s, d - 1);
    } else {
      assert Iter(Register(g), s, 1) == Register(g).f(Iter(Register(g), s, 0));
    }
  }

  /** `f` lands on the first accepted state of the orbit: everything strictly between was
      rejected. */
  lemma {:induction false} FirstAcceptedIsFirst(g: Gen, k: nat, s: nat)
    requires g.Valid() && s < Pow2(g.n) && TopOnes(g, k, s)
    ensures FirstAccepted(g, k, s) == Iter(Register(g), s, Shifts(g, k, s))
    ensures forall d :: 0 < d < Shifts(g, k, s) ==> Iter(Register(g), s, d) > g.max
    decreases g.n - k
  {
    FirstAcceptedStep(g, k, s);
    IterOne(g, s);
    if Shift(g, s) > g.max {
      var t := Shift(g, s);
      FirstAcceptedIsFirst(g, k + 1, t);
      IterFirst(g, s, Shifts(g, k + 1, t));
      OneLater(g, s, Shifts(g, k + 1, t));
    }
  }

  lemma IterOne(g: Gen, s: nat)
    requires g.Valid()
    ensures Iter(Register(g), s, 1) == Shift(g, s)
  {
    IterFirst(g, s, 0);
    assert Iter(Register(g), Shift(g, s), 0) == Shift(g, s);
  }

  lemma OneLater(g: Gen, s: nat, n: nat)
    requires g.Valid() && s < Pow2(g.n) && Shift(g, s) > g.max
    requires forall d :: 0 < d < n ==> Iter(Register(g), Shift(g, s), d) > g.max
    ensures forall d :: 0 < d < 1 + n ==> Iter(Register(g), s, d) > g.max
  {
    forall d | 0 < d < 1 + n
      ensures Iter(Register(g), s, d) > g.max
    {
      IterFirst(g, s, d - 1);
    }
  }

  lemma {:induction false} IterPositive(g: Gen, s: nat, d: nat)
    requires g.Valid() && 0 < s < Pow2(g.n)
    ensures 0 < Iter(Register(g), s, d) < Pow2(g.n)
  {
    if d > 0 {
      IterPositive(g, s, d - 1);
      ShiftZero(g, Iter(Register(g), s, d - 1));
      ShiftIs(g, Iter(Register(g), s, d - 1));
    }
  }

  lemma ShiftsIsGap(g: Gen, s: nat)
    requires g.Valid() && InRange(Register(g), s)
    ensures TopOnes(g, 0, s) && IsGap(Register(g), s, Shifts(g, 0, s))
  {
    FirstAcceptedIsFirst(g, 0, s);
    IterPositive(g, s, Shifts(g, 0, s));
  }

  /** The register meets every hypothesis of the orbit theory. */
  lemma RegisterValid(g: Gen)
    requires g.Valid()
    ensures Register(g).Valid()
  {
    var r := Register(g);
    forall s: nat | s < r.size
      ensures r.f(s) < r.size && r.back(r.f(s)) == s && (0 < s ==> 0 < r.f(s))
    {
      ShiftIs(g, s);
      ShiftZero(g, s);
      UnshiftShift(g, s);
    }
    forall s: nat | InRange(r, s)
      ensures HasGap(r, s)
    {
      ShiftsIsGap(g, s);
    }
  }

  /** One call of `f` from an accepted state makes exactly the shifts to its successor, at
      most n + 1 of them. */
  lemma FirstAcceptedIsSucc(g: Gen, s: nat)
    requires g.Valid() && InRange(Register(g), s)
    ensures Register(g).Valid() && TopOnes(g, 0, s)
    ensures FirstAccepted(g, 0, s) == Succ(Register(g), s)
    ensures Shifts(g, 0, s) == Gap(Register(g), s) <= g.n + 1
  {
    RegisterValid(g);
    ShiftsIsGap(g, s);
    FirstAcceptedIsFirst(g, 0, s);
    var d, e := Gap(Register(g), s), Shifts(g, 0, s);
    assert !(d < e) && !(e < d);
  }
}
