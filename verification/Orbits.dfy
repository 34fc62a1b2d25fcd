/** Orbits of a permutation of 0..size - 1 that fixes 0, seen through a filter that accepts
    the states up to max. */
module Orbits {

  /** f moves states below size, with `back` undoing it, and keeps positive ones positive;
      from every accepted state the next accepted one is at most `bound` moves away. */
  datatype Reg = Reg(f: nat -> nat, back: nat -> nat, size: nat, max: nat, bound: nat) {
    ghost predicate Valid() {
      && max < size
      && (forall s: nat :: s < size ==> f(s) < size)
      && (forall s: nat :: 0 < s < size ==> 0 < f(s))
      && (forall s: nat :: s < size ==> back(f(s)) == s)
      && (forall s: nat {:trigger HasGap(this, s)} :: InRange(this, s) ==> HasGap(this, s))
    }
  }

  ghost predicate InRange(r: Reg, s: nat) {
    0 < s <= r.max
  }

  ghost function Iter(r: Reg, s: nat, d: nat): nat {
    if d == 0 then s else r.f(Iter(r, s, d - 1))
  }

  /** d is the number of moves from s to the next accepted state. */
  ghost predicate IsGap(r: Reg, s: nat, d: nat) {
    && 1 <= d <= r.bound && InRange(r, Iter(r, s, d))
    && forall e: nat :: 0 < e < d ==> Iter(r, s, e) > r.max
  }

  ghost predicate HasGap(r: Reg, s: nat) {
    exists d: nat :: IsGap(r, s, d)
  }

  lemma {:induction false} IterBelow(r: Reg, s: nat, d: nat)
    requires r.Valid() && s < r.size
    ensures Iter(r, s, d) < r.size
  {
    if d > 0 {
      IterBelow(r, s, d - 1);
    }
  }

  lemma {:induction false} IterAdd(r: Reg, s: nat, d: nat, e: nat)
    ensures Iter(r, Iter(r, s, d), e) == Iter(r, s, d + e)
  {
    if e > 0 {
      IterAdd(r, s, d, e - 1);
    }
  }

  lemma {:induction false} IterInjective(r: Reg, s: nat, t: nat, d: nat)
    requires r.Valid() && s < r.size && t < r.size && Iter(r, s, d) == Iter(r, t, d)
    ensures s == t
  {
    if d > 0 {
      IterBelow(r, s, d - 1);
      IterBelow(r, t, d - 1);
      IterInjective(r, s, t, d - 1);
    }
  }

  ghost function Gap(r: Reg, s: nat): (d: nat)
    requires r.Valid() && InRange(r, s)
    ensures IsGap(r, s, d)
  {
    assert HasGap(r, s);
    var d: nat :| IsGap(r, s, d);
    d
  }

  /** The accepted state after s. */
  ghost function Succ(r: Reg, s: nat): (t: nat)
    requires r.Valid() && InRange(r, s)
    ensures InRange(r, t)
  {
    Iter(r, s, Gap(r, s))
  }

  lemma SuccInjective(r: Reg, s: nat, t: nat)
    requires r.Valid() && InRange(r, s) && InRange(r, t) && Succ(r, s) == Succ(r, t)
    ensures s == t
  {
    if Gap(r, s) <= Gap(r, t) {
      SameSucc(r, s, Gap(r, s), t, Gap(r, t));
    } else {
      SameSucc(r, t, Gap(r, t), s, Gap(r, s));
    }
  }

  lemma SameSucc(r: Reg, s: nat, d: nat, t: nat, e: nat)
    requires r.Valid() && InRange(r, s) && InRange(r, t) && IsGap(r, s, d) && IsGap(r, t, e)
    requires d <= e && Iter(r, s, d) == Iter(r, t, e)
    ensures s == t
  {
    IterBelow(r, t, e - d);
    IterAdd(r, t, e - d, d);
    IterInjective(r, s, Iter(r, t, e - d), d);
  }

  /** The accepted state i calls of `f` after s. */
  ghost function Nth(r: Reg, s: nat, i: nat): (t: nat)
    requires r.Valid() && InRange(r, s)
    ensures InRange(r, t)
  {
    if i == 0 then s else Succ(r, Nth(r, s, i - 1))
  }

  lemma {:induction false} NthBack(r: Reg, s: nat, i: nat, j: nat)
    requires r.Valid() && InRange(r, s) && i <= j && Nth(r, s, i) == Nth(r, s, j)
    ensures Nth(r, s, j - i) == s
  {
    if i > 0 {
      SuccInjective(r, Nth(r, s, i - 1), Nth(r, s, j - 1));
      NthBack(r, s, i - 1, j - 1);
    }
  }

  /** Among max + 1 values of 1..max two are equal. */
  lemma {:induction false} Pigeonhole(xs: seq<nat>, max: nat) returns (i: nat, j: nat)
    requires |xs| == max + 1 && forall k :: 0 <= k < |xs| ==> 0 < xs[k] <= max
    ensures i < j < |xs| && xs[i] == xs[j]
    decreases max
  {
    var last := xs[max];
    if last in xs[..max] {
      i :| 0 <= i < max && xs[i] == last;
      j := max;
    } else {
      // Close the gap `last` leaves among the others.
      var ys := seq(max, k requires 0 <= k < max => if xs[k] > last then xs[k] - 1 else xs[k]);
      assert forall k :: 0 <= k < max ==> xs[k] in xs[..max];
      i, j := Pigeonhole(ys, max - 1);
    }
  }

  ghost predicate Returns(r: Reg, s: nat, q: nat)
    requires r.Valid() && InRange(r, s)
  {
    0 < q && Nth(r, s, q) == s
  }

  lemma ReturnsWithin(r: Reg, s: nat) returns (q: nat)
    requires r.Valid() && InRange(r, s)
    ensures Returns(r, s, q) && q <= r.max
  {
    var xs := seq(r.max + 1, i requires 0 <= i => Nth(r, s, i));
    var i, j := Pigeonhole(xs, r.max);
    NthBack(r, s, i, j);
    q := j - i;
  }

  lemma {:induction false} LeastReturn(r: Reg, s: nat, q: nat) returns (p: nat)
    requires r.Valid() && InRange(r, s) && Returns(r, s, q)
    ensures p <= q && Returns(r, s, p) && forall i :: 0 < i < p ==> Nth(r, s, i) != s
  {
    if i: nat :| 0 < i < q && Nth(r, s, i) == s {
      p := LeastReturn(r, s, i);
    } else {
      p := q;
    }
  }

  ghost predicate IsPeriod(r: Reg, s: nat, p: nat)
    requires r.Valid() && InRange(r, s)
  {
    && 0 < p <= r.max && Nth(r, s, p) == s
    && (forall i :: 0 < i < p ==> Nth(r, s, i) != s)
  }

  /** The number of calls of `f` after which the state first returns to s. */
  ghost function Period(r: Reg, s: nat): (p: nat)
    requires r.Valid() && InRange(r, s)
    ensures IsPeriod(r, s, p)
  {
    PeriodExists(r, s);
    var p: nat :| IsPeriod(r, s, p);
    p
  }

  lemma PeriodExists(r: Reg, s: nat)
    requires r.Valid() && InRange(r, s)
    ensures exists p: nat :: IsPeriod(r, s, p)
  {
    var q := ReturnsWithin(r, s);
    var p := LeastReturn(r, s, q);
    assert IsPeriod(r, s, p);
  }

  /** The accepted states of one lap, in the order `f` visits them; the last is s. */
  ghost function Lap(r: Reg, s: nat): (xs: seq<nat>)
    requires r.Valid() && InRange(r, s)
    ensures forall i :: 0 <= i < |xs| ==> InRange(r, xs[i])
  {
    seq(Period(r, s), i requires 0 <= i => Nth(r, s, i + 1))
  }

  /** Everything one iteration yields: the states of one lap, scaled, then 0. */
  ghost function Iteration(r: Reg, s: nat, blocks: nat): seq<nat>
    requires r.Valid() && InRange(r, s)
  {
    var lap := Lap(r, s);
    seq(|lap|, i requires 0 <= i < |lap| => lap[i] * blocks) + [0]
  }

  lemma IterationElement(r: Reg, s: nat, blocks: nat, i: nat)
    requires r.Valid() && InRange(r, s)
    ensures var xs, p := Iteration(r, s, blocks), Period(r, s);
            |xs| == p + 1 && (i < p ==> xs[i] == Nth(r, s, i + 1) * blocks) && (i == p ==> xs[i] == 0)
  {
    assert |Lap(r, s)| == Period(r, s);
  }

  /** State s lies on the orbit of s0. */
  ghost predicate OnOrbit(r: Reg, s0: nat, s: nat)
    requires r.Valid() && InRange(r, s0)
  {
    exists d: nat :: Iter(r, s0, d) == s
  }

  /** One more move inside the gap after an accepted state ends, if at all, at its successor. */
  lemma IterInGap(r: Reg, s: nat, e: nat)
    requires r.Valid() && InRange(r, s) && e < Gap(r, s)
    ensures r.f(Iter(r, s, e)) == Iter(r, s, e + 1)
    ensures e + 1 == Gap(r, s) ==> Iter(r, s, e + 1) == Succ(r, s)
  {
  }

  /** Every state of the orbit lies in the gap after some state of the lap. */
  lemma {:induction false} OrbitIsLap(r: Reg, s0: nat, d: nat) returns (i: nat, e: nat)
    requires r.Valid() && InRange(r, s0)
    ensures e < Gap(r, Nth(r, s0, i)) && Iter(r, s0, d) == Iter(r, Nth(r, s0, i), e)
  {
    if d == 0 {
      i, e := 0, 0;
    } else {
      i, e := OrbitIsLap(r, s0, d - 1);
      IterInGap(r, Nth(r, s0, i), e);
      e := e + 1;
      if e == Gap(r, Nth(r, s0, i)) {
        i, e := i + 1, 0;
      }
    }
  }

  lemma {:induction false} LapIsOrbit(r: Reg, s0: nat, i: nat) returns (d: nat)
    requires r.Valid() && InRange(r, s0)
    ensures Iter(r, s0, d) == Nth(r, s0, i)
  {
    if i == 0 {
      d := 0;
    } else {
      var d' := LapIsOrbit(r, s0, i - 1);
      var gap := Gap(r, Nth(r, s0, i - 1));
      IterAdd(r, s0, d', gap);
      d := d' + gap;
    }
  }

  lemma {:induction false} NthAdd(r: Reg, s: nat, i: nat, j: nat)
    requires r.Valid() && InRange(r, s)
    ensures Nth(r, Nth(r, s, i), j) == Nth(r, s, i + j)
  {
    if j > 0 {
      NthAdd(r, s, i, j - 1);
    }
  }

  /** Every index falls into the first lap. */
  lemma {:induction false} NthInLap(r: Reg, s: nat, i: nat) returns (j: nat)
    requires r.Valid() && InRange(r, s)
    ensures j < Period(r, s) && Nth(r, s, j + 1) == Nth(r, s, i)
  {
    var p := Period(r, s);
    if i == 0 {
      j := p - 1;
    } else if i <= p {
      j := i - 1;
    } else {
      NthAdd(r, s, p, i - p);
      j := NthInLap(r, s, i - p);
    }
  }

  /** One lap visits each accepted state of the orbit of s0 exactly once, and no other. */
  lemma LapExact(r: Reg, s0: nat)
    requires r.Valid() && InRange(r, s0)
    ensures var xs := Lap(r, s0); 1 <= |xs| <= r.max && forall i, j :: 0 <= i < j < |xs| ==> xs[i] != xs[j]
    ensures forall s :: InRange(r, s) ==> (s in Lap(r, s0) <==> OnOrbit(r, s0, s))
  {
    var xs := Lap(r, s0);
    forall i, j | 0 <= i < j < |xs|
      ensures xs[i] != xs[j]
    {
      if Nth(r, s0, i + 1) == Nth(r, s0, j + 1) {
        NthBack(r, s0, i + 1, j + 1);
      }
    }
    forall s | InRange(r, s)
      ensures s in xs <==> OnOrbit(r, s0, s)
    {
      LapMeetsOrbit(r, s0, s);
    }
  }

  lemma LapMeetsOrbit(r: Reg, s0: nat, s: nat)
    requires r.Valid() && InRange(r, s0) && InRange(r, s)
    ensures s in Lap(r, s0) <==> OnOrbit(r, s0, s)
  {
    var xs := Lap(r, s0);
    if s in xs {
      var i: nat :| i < |xs| && xs[i] == s;
      var d := LapIsOrbit(r, s0, i + 1);
      assert Iter(r, s0, d) == s;
    }
    if OnOrbit(r, s0, s) {
      OrbitInLap(r, s0, s);
    }
  }

  lemma OrbitInLap(r: Reg, s0: nat, s: nat)
    requires r.Valid() && InRange(r, s0) && InRange(r, s) && OnOrbit(r, s0, s)
    ensures s in Lap(r, s0)
  {
    var d: nat :| Iter(r, s0, d) == s;
    var i, e := OrbitIsLap(r, s0, d);
    assert e == 0;
    var j := NthInLap(r, s0, i);
    assert Lap(r, s0)[j] == s;
  }

  /** Iteration is duplicate-free and finite: at most max + 1 values, the last of them 0. */
  lemma IterationIsDuplicateFree(r: Reg, s0: nat, blocks: nat)
    requires r.Valid() && InRange(r, s0) && 0 < blocks
    ensures var xs := Iteration(r, s0, blocks);
            && 2 <= |xs| <= r.max + 1 && xs[|xs| - 1] == 0
            && (forall i, j :: 0 <= i < j < |xs| ==> xs[i] != xs[j])
  {
    LapExact(r, s0);
    var lap, xs := Lap(r, s0), Iteration(r, s0, blocks);
    forall i, j | 0 <= i < j < |xs|
      ensures xs[i] != xs[j]
    {
      if j < |lap| {
        TimesInjective(lap[i], lap[j], blocks);
      } else {
        TimesPositive(lap[i], blocks);
      }
    }
  }

  /** What an iteration yields, as a set: 0 and the scaled accepted states of the orbit. */
  lemma IterationCovers(r: Reg, s0: nat, blocks: nat, s: nat)
    requires r.Valid() && InRange(r, s0) && 0 < blocks && s <= r.max
    ensures s * blocks in Iteration(r, s0, blocks) <==> s == 0 || OnOrbit(r, s0, s)
  {
    var lap, xs := Lap(r, s0), Iteration(r, s0, blocks);
    if s == 0 {
      assert xs[|lap|] == s * blocks;
    } else {
      LapMeetsOrbit(r, s0, s);
      TimesPositive(s, blocks);
      if s * blocks in xs {
        var i: nat :| i < |xs| && xs[i] == s * blocks;
        if lap[i] != s {
          TimesInjective(lap[i], s, blocks);
        }
      }
      if s in lap {
        var i: nat :| i < |lap| && lap[i] == s;
        assert xs[i] == s * blocks;
      }
    }
  }

  lemma TimesInjective(a: nat, b: nat, m: nat)
    requires 0 < m && a != b
    ensures a * m != b * m
  {
    var d := a - b;
    assert d * m == a * m - b * m;
    assert d * m != 0;
  }

  lemma TimesPositive(a: nat, m: nat)
    requires 0 < a && 0 < m
    ensures 0 < a * m
  {
  }

  /** On a cycle through a every state reaches every other. */
  lemma CycleMeets(r: Reg, a: nat, i: nat, j: nat, n: nat)
    requires r.Valid() && i <= n && Iter(r, a, n) == a && InRange(r, Iter(r, a, i))
    ensures OnOrbit(r, Iter(r, a, i), Iter(r, a, j))
  {
    IterAdd(r, a, n, j);
    IterAdd(r, a, i, n - i + j);
    assert Iter(r, Iter(r, a, i), n - i + j) == Iter(r, a, j);
  }

  /** One iteration is a permutation of all multiples of the IO size up to the largest if
      and only if the orbit of the initial state meets every accepted state. */
  lemma PermutationIffOrbitFull(r: Reg, s0: nat, blocks: nat)
    requires r.Valid() && InRange(r, s0) && 0 < blocks
    ensures |Iteration(r, s0, blocks)| == r.max + 1 <==> forall s :: InRange(r, s) ==> OnOrbit(r, s0, s)
    ensures (forall s :: InRange(r, s) ==> OnOrbit(r, s0, s)) ==>
              forall s: nat :: s <= r.max ==> s * blocks in Iteration(r, s0, blocks)
  {
    LapExact(r, s0);
    var lap := Lap(r, s0);
    if forall s :: InRange(r, s) ==> OnOrbit(r, s0, s) {
      FullWhenAllIn(lap, r.max);
      forall s: nat | s <= r.max
        ensures s * blocks in Iteration(r, s0, blocks)
      {
        IterationCovers(r, s0, blocks, s);
      }
    }
    if |lap| == r.max {
      forall s | InRange(r, s)
        ensures OnOrbit(r, s0, s)
      {
        AllInWhenFull(lap, r.max, s);
      }
    }
  }

  /** A duplicate-free list that contains all of 1..max has at least max elements. */
  lemma {:induction false} FullWhenAllIn(xs: seq<nat>, max: nat)
    requires forall s :: 0 < s <= max ==> s in xs
    ensures |xs| >= max
    decreases max
  {
    if max > 0 {
      assert max in xs;
      var i :| 0 <= i < |xs| && xs[i] == max;
      var ys := xs[..i] + xs[i + 1..];
      forall s | 0 < s <= max - 1
        ensures s in ys
      {
        assert s in xs;
        var j :| 0 <= j < |xs| && xs[j] == s;
        assert ys[if j < i then j else j - 1] == s;
      }
      FullWhenAllIn(ys, max - 1);
    }
  }

  /** A duplicate-free list of max elements of 1..max misses none of them. */
  lemma AllInWhenFull(xs: seq<nat>, max: nat, s: nat)
    requires |xs| == max && 0 < s <= max
    requires forall i :: 0 <= i < |xs| ==> 0 < xs[i] <= max
    requires forall i, j :: 0 <= i < j < |xs| ==> xs[i] != xs[j]
    ensures s in xs
  {
    if s !in xs {
      var i, j := Pigeonhole(xs + [s], max);
    }
  }

  // ---- Full cycles ------------------------------------------------------------------

  /** The moves from 1 pass through all positive states before they return to 1. */
  ghost predicate FullCycle(r: Reg) {
    && 1 < r.size && Iter(r, 1, r.size - 1) == 1
    && forall d :: 0 < d < r.size - 1 ==> Iter(r, 1, d) != 1
  }

  lemma {:induction false} IterStaysPositive(r: Reg, s: nat, d: nat)
    requires r.Valid() && 0 < s < r.size
    ensures 0 < Iter(r, s, d) < r.size
  {
    if d > 0 {
      IterStaysPositive(r, s, d - 1);
    }
  }

  lemma CycleDistinct(r: Reg, i: nat, j: nat)
    requires r.Valid() && FullCycle(r) && i < j < r.size - 1
    ensures Iter(r, 1, i) != Iter(r, 1, j)
  {
    IterAdd(r, 1, j - i, i);
    IterBelow(r, 1, j - i);
    if Iter(r, 1, i) == Iter(r, 1, j) {
      IterInjective(r, 1, Iter(r, 1, j - i), i);
    }
  }

  lemma CycleReaches(r: Reg, s: nat) returns (d: nat)
    requires r.Valid() && FullCycle(r) && 0 < s < r.size
    ensures d < r.size - 1 && Iter(r, 1, d) == s
  {
    var n := r.size - 1;
    var xs := seq(n, i requires 0 <= i => Iter(r, 1, i));
    forall i | 0 <= i < n
      ensures 0 < xs[i] <= n
    {
      IterStaysPositive(r, 1, i);
    }
    forall i, j | 0 <= i < j < n
      ensures xs[i] != xs[j]
    {
      CycleDistinct(r, i, j);
    }
    AllInWhenFull(xs, n, s);
    d :| 0 <= d < n && xs[d] == s;
  }

  /** On a full cycle every iteration is a permutation, from every seed and for every filter. */
  lemma FullCycleVisits(r: Reg, s0: nat, blocks: nat)
    requires r.Valid() && FullCycle(r) && InRange(r, s0) && 0 < blocks
    ensures |Iteration(r, s0, blocks)| == r.max + 1
    ensures forall s: nat :: s <= r.max ==> s * blocks in Iteration(r, s0, blocks)
  {
    forall s | InRange(r, s)
      ensures OnOrbit(r, s0, s)
    {
      var i := CycleReaches(r, s0);
      var j := CycleReaches(r, s);
      CycleMeets(r, 1, i, j, r.size - 1);
    }
    PermutationIffOrbitFull(r, s0, blocks);
  }

  /** With nothing to reject, a call is one move. */
  lemma {:induction false} NthIsIter(r: Reg, s: nat, i: nat)
    requires r.Valid() && r.max == r.size - 1 && InRange(r, s)
    ensures Nth(r, s, i) == Iter(r, s, i)
  {
    if i > 0 {
      NthIsIter(r, s, i - 1);
      SuccIsMove(r, Nth(r, s, i - 1));
    }
  }

  lemma SuccIsMove(r: Reg, t: nat)
    requires r.Valid() && r.max == r.size - 1 && InRange(r, t)
    ensures Succ(r, t) == r.f(t)
  {
    IterStaysPositive(r, t, 1);
    assert Iter(r, t, 1) == r.f(Iter(r, t, 0));
    assert !(1 < Gap(r, t));
  }

  /** Conversely one full iteration without a filter shows a full cycle. */
  lemma FullMeansCycle(r: Reg, blocks: nat)
    requires r.Valid() && r.max == r.size - 1 && 1 < r.size && |Iteration(r, 1, blocks)| == r.max + 1
    ensures FullCycle(r)
  {
    assert Period(r, 1) == r.max;
    forall d: nat
      ensures Nth(r, 1, d) == Iter(r, 1, d)
    {
      NthIsIter(r, 1, d);
    }
  }
}
