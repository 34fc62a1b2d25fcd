/** The taps of the table for 5 to 8 bits have maximal period, by computation on bit vectors. */
module SmallWidths {
  import opened Bits
  import opened Lfsr
  import opened MaxPeriod
  import opened ShiftBits

  // ---- One shift with the taps of the table, per width ------------------------------

  function Step5(s: bv8): bv8 {
    (s >> 1) | (((s ^ (s >> 1) ^ (s >> 2) ^ (s >> 3)) & 1) << 4)
  }

  function Step6(s: bv8): bv8 {
    (s >> 1) | (((s ^ (s >> 1) ^ (s >> 3) ^ (s >> 4)) & 1) << 5)
  }

  function Step7(s: bv8): bv8 {
    (s >> 1) | (((s ^ (s >> 1) ^ (s >> 2) ^ (s >> 3)) & 1) << 6)
  }

  function Step8(s: bv8): bv8 {
    (s >> 1) | (((s ^ (s >> 2) ^ (s >> 3) ^ (s >> 4)) & 1) << 7)
  }

  /** k shifts; 0 when state 1 comes up before the last of them. */
  function Walk(step: bv8 -> bv8, s: bv8, k: nat): bv8
    decreases k
  {
    if k == 0 then s else if s == 1 then 0 else Walk(step, step(s), k - 1)
  }

  // ---- Every eighth state of the orbit of 1, from its first shift on ----------------

  function Way5(i: nat): bv8 {
    match i
    case 0 => 16 case 1 => 10 case 2 => 27 case 3 => 4 case _ => 1
  }

  function Way6(i: nat): bv8 {
    match i
    case 0 => 32 case 1 => 31 case 2 => 10 case 3 => 57 case 4 => 23 case 5 => 50 case 6 => 17 case 7 => 48 case _ => 1
  }

  function Way7(i: nat): bv8 {
    match i
    case 0 => 64 case 1 => 124 case 2 => 89 case 3 => 116 case 4 => 118 case 5 => 127 case 6 => 40
    case 7 => 17 case 8 => 39 case 9 => 36 case 10 => 85 case 11 => 48 case 12 => 97 case 13 => 58
    case 14 => 71 case 15 => 102 case _ => 1
  }

  function Way8(i: nat): bv8 {
    match i
    case 0 => 128 case 1 => 56 case 2 => 210 case 3 => 129 case 4 => 73 case 5 => 118 case 6 => 130
    case 7 => 218 case 8 => 154 case 9 => 134 case 10 => 111 case 11 => 175 case 12 => 139 case 13 => 176
    case 14 => 241 case 15 => 156 case 16 => 209 case 17 => 18 case 18 => 165 case 19 => 114 case 20 => 55
    case 21 => 239 case 22 => 151 case 23 => 89 case 24 => 49 case 25 => 184 case 26 => 234 case 27 => 83
    case 28 => 200 case 29 => 63 case 30 => 244 case 31 => 88 case _ => 1
  }

  lemma Ways5(i: nat)
    requires i < 3
    ensures Walk(Step5, Way5(i), 8) == Way5(i + 1)
  {
  }

  lemma Ways6(i: nat)
    requires i < 7
    ensures Walk(Step6, Way6(i), 8) == Way6(i + 1)
  {
  }

  lemma Ways7(i: nat)
    requires i < 15
    ensures Walk(Step7, Way7(i), 8) == Way7(i + 1)
  {
  }

  lemma Ways8Low(i: nat)
    requires i < 11
    ensures Walk(Step8, Way8(i), 8) == Way8(i + 1)
  {
  }

  lemma Ways8Mid(i: nat)
    requires 11 <= i < 21
    ensures Walk(Step8, Way8(i), 8) == Way8(i + 1)
  {
  }

  lemma Ways8High(i: nat)
    requires 21 <= i < 31
    ensures Walk(Step8, Way8(i), 8) == Way8(i + 1)
  {
  }

  // ---- From the last of them it takes six more shifts to 1 --------------------------

  lemma LastWay5()
    ensures Walk(Step5, Way5(3), 6) == 1
  {
  }

  lemma LastWay6()
    ensures Walk(Step6, Way6(7), 6) == 1
  {
  }

  lemma LastWay7()
    ensures Walk(Step7, Way7(15), 6) == 1
  {
  }

  lemma LastWay8()
    ensures Walk(Step8, Way8(31), 6) == 1
  {
  }

  // ---- The whole lap ------------------------------------------------------------------

  lemma {:induction false} WalkOn(step: bv8 -> bv8, s: bv8, a: nat, b: nat)
    requires Walk(step, s, a) != 0
    ensures Walk(step, s, a + b) == Walk(step, Walk(step, s, a), b)
    decreases a
  {
    if a > 0 {
      WalkOn(step, step(s), a - 1, b);
    }
  }

  ghost function Orbit(step: bv8 -> bv8, s: bv8, d: nat): bv8
    decreases d
  {
    if d == 0 then s else Orbit(step, step(s), d - 1)
  }

  lemma {:induction false} OrbitSnoc(step: bv8 -> bv8, s: bv8, d: nat)
    ensures Orbit(step, s, d + 1) == step(Orbit(step, s, d))
    decreases d
  {
    if d > 0 {
      OrbitSnoc(step, step(s), d - 1);
    }
  }

  /** A walk that ends at 1 meets 1 nowhere before. */
  lemma {:induction false} WalkOrbit(step: bv8 -> bv8, s: bv8, k: nat, d: nat)
    requires Walk(step, s, k) == 1 && d <= k
    ensures Orbit(step, s, d) == 1 <==> d == k
    decreases k
  {
    if d > 0 {
      WalkOrbit(step, step(s), k - 1, d - 1);
    }
  }

  /** Strides from waypoint to waypoint make one walk, and so does the rest after them. */
  lemma {:induction false} WalkAlong(step: bv8 -> bv8, way: nat -> bv8, stride: nat, last: nat, i: nat, rest: nat)
    requires i <= last && way(i) != 0
    requires forall j: nat :: j < last ==> Walk(step, way(j), stride) == way(j + 1) && way(j) != 0
    ensures Walk(step, way(0), stride * i + rest) == Walk(step, way(i), rest)
  {
    if i > 0 {
      WalkAlong(step, way, stride, last, i - 1, stride + rest);
      assert stride * i + rest == stride * (i - 1) + (stride + rest);
      WalkOn(step, way(i - 1), stride, rest);
    }
  }

  lemma Lap5(lap: nat)
    requires lap == 31
    ensures Walk(Step5, Step5(1), lap - 1) == 1
  {
    forall i: nat | i < 3
      ensures Walk(Step5, Way5(i), 8) == Way5(i + 1) && Way5(i) != 0
    {
      Ways5(i);
    }
    LastWay5();
    WalkAlong(Step5, Way5, 8, 3, 3, 6);
  }

  lemma Lap6(lap: nat)
    requires lap == 63
    ensures Walk(Step6, Step6(1), lap - 1) == 1
  {
    forall i: nat | i < 7
      ensures Walk(Step6, Way6(i), 8) == Way6(i + 1) && Way6(i) != 0
    {
      Ways6(i);
    }
    LastWay6();
    WalkAlong(Step6, Way6, 8, 7, 7, 6);
  }

  lemma Lap7(lap: nat)
    requires lap == 127
    ensures Walk(Step7, Step7(1), lap - 1) == 1
  {
    forall i: nat | i < 15
      ensures Walk(Step7, Way7(i), 8) == Way7(i + 1) && Way7(i) != 0
    {
      Ways7(i);
    }
    LastWay7();
    WalkAlong(Step7, Way7, 8, 15, 15, 6);
  }

  lemma Lap8(lap: nat)
    requires lap == 255
    ensures Walk(Step8, Step8(1), lap - 1) == 1
  {
    forall i: nat | i < 31
      ensures Walk(Step8, Way8(i), 8) == Way8(i + 1) && Way8(i) != 0
    {
      if i < 11 {
        Ways8Low(i);
      } else if i < 21 {
        Ways8Mid(i);
      } else {
        Ways8High(i);
      }
    }
    LastWay8();
    WalkAlong(Step8, Way8, 8, 31, 31, 6);
  }

  // ---- The same register in bits and in numbers -------------------------------------

  predicate On(s: bv8, k: nat) {
    match k
    case 0 => s & 1 != 0
    case 1 => s & 2 != 0
    case 2 => s & 4 != 0
    case 3 => s & 8 != 0
    case 4 => s & 16 != 0
    case 5 => s & 32 != 0
    case 6 => s & 64 != 0
    case 7 => s & 128 != 0
    case _ => false
  }

  /** The n lowest bits, lowest first. */
  function Row(n: nat, s: bv8): seq<bool> {
    seq(n, k requires 0 <= k < n => On(s, k))
  }

  /** t is s with every bit one place lower and the parity of the tapped bits on top. */
  predicate Moves(n: nat, a: nat, b: nat, c: nat, s: bv8, t: bv8)
    requires 0 < n
  {
    && (forall k: nat :: k + 1 < n ==> On(t, k) == On(s, k + 1))
    && On(t, n - 1) == ((On(s, 0) != On(s, a)) != (On(s, b) != On(s, c)))
  }

  lemma Moves5(s: bv8)
    requires Narrow(5, s)
    ensures Moves(5, 1, 2, 3, s, Step5(s)) && Narrow(5, Step5(s))
  {
    assert !On(s, 5) && !On(s, 6) && !On(s, 7);
  }

  lemma Moves6(s: bv8)
    requires Narrow(6, s)
    ensures Moves(6, 1, 3, 4, s, Step6(s)) && Narrow(6, Step6(s))
  {
    assert !On(s, 6) && !On(s, 7);
  }

  lemma Moves7(s: bv8)
    requires Narrow(7, s)
    ensures Moves(7, 1, 2, 3, s, Step7(s)) && Narrow(7, Step7(s))
  {
    assert !On(s, 7);
  }

  lemma Moves8(s: bv8)
    requires Narrow(8, s)
    ensures Moves(8, 2, 3, 4, s, Step8(s)) && Narrow(8, Step8(s))
  {
  }

  lemma BitsMove(bits: seq<bool>, moved: seq<bool>, top: bool)
    requires |bits| == |moved| > 0 && moved[|moved| - 1] == top
    requires forall k: nat :: k + 1 < |bits| ==> moved[k] == bits[k + 1]
    ensures moved == bits[1..] + [top]
  {
  }

  lemma RowMoves(g: Gen, s: bv8, t: bv8)
    requires g.Valid() && Moves(g.n, g.p1, g.p2, g.p3, s, t)
    ensures Row(g.n, t) == Row(g.n, s)[1..] + [Parity(g, Row(g.n, s))]
  {
    BitsMove(Row(g.n, s), Row(g.n, t), Parity(g, Row(g.n, s)));
  }

  /** No bit is set from place n on. */
  predicate Narrow(n: nat, s: bv8) {
    forall k: nat :: n <= k < 8 ==> !On(s, k)
  }

  lemma SameBits(s: bv8, t: bv8)
    requires forall k: nat :: k < 8 ==> On(s, k) == On(t, k)
    ensures s == t
  {
    assert On(s, 0) == On(t, 0) && On(s, 1) == On(t, 1) && On(s, 2) == On(t, 2) && On(s, 3) == On(t, 3);
    assert On(s, 4) == On(t, 4) && On(s, 5) == On(t, 5) && On(s, 6) == On(t, 6) && On(s, 7) == On(t, 7);
  }

  lemma SameRow(n: nat, s: bv8, t: bv8)
    requires n <= 8 && Narrow(n, s) && Narrow(n, t) && Row(n, s) == Row(n, t)
    ensures s == t
  {
    forall k: nat | k < 8
      ensures On(s, k) == On(t, k)
    {
      if k < n {
        assert Row(n, s)[k] == Row(n, t)[k];
      }
    }
    SameBits(s, t);
  }

  lemma {:induction false} NoBits(bits: seq<bool>)
    requires forall k :: 0 <= k < |bits| ==> !bits[k]
    ensures Val(bits) == 0
  {
    if bits != [] {
      NoBits(bits[1..]);
    }
  }

  lemma RowOfOne(n: nat)
    requires 0 < n
    ensures Val(Row(n, 1)) == 1 && Narrow(n, 1)
  {
    NoBits(Row(n, 1)[1..]);
  }

  // ---- The lap in numbers -----------------------------------------------------------

  /** `step` is the register's shift, on the rows of bits. */
  ghost predicate Runs(g: Gen, step: bv8 -> bv8) {
    && g.Valid() && g.n <= 8
    && forall s: bv8 {:trigger step(s)} :: Narrow(g.n, s) ==>
         Narrow(g.n, step(s)) && Row(g.n, step(s)) == Row(g.n, s)[1..] + [Parity(g, Row(g.n, s))]
  }

  /** s is the state d shifts after 1. */
  ghost predicate Reaches(g: Gen, s: bv8, d: nat)
    requires g.Valid()
  {
    Narrow(g.n, s) && Shifted(g, 1, d) == Val(Row(g.n, s))
  }

  lemma ReachesNext(g: Gen, step: bv8 -> bv8, s: bv8, d: nat)
    requires Runs(g, step) && Reaches(g, s, d)
    ensures Reaches(g, step(s), d + 1)
  {
    ShiftsRow(g, Row(g.n, s));
  }

  lemma ReachesOne(g: Gen, s: bv8, d: nat)
    requires g.Valid() && g.n <= 8 && Reaches(g, s, d)
    ensures Shifted(g, 1, d) == 1 <==> s == 1
  {
    RowOfOne(g.n);
    if Val(Row(g.n, s)) == 1 {
      ValDiffers(Row(g.n, s), Row(g.n, 1));
      SameRow(g.n, s, 1);
    }
  }

  lemma {:induction false} OrbitReaches(g: Gen, step: bv8 -> bv8, d: nat)
    requires Runs(g, step)
    ensures Reaches(g, Orbit(step, 1, d), d)
  {
    if d == 0 {
      RowOfOne(g.n);
    } else {
      OrbitReaches(g, step, d - 1);
      ReachesNext(g, step, Orbit(step, 1, d - 1), d - 1);
      OrbitSnoc(step, 1, d - 1);
    }
  }

  lemma OrbitIs(g: Gen, step: bv8 -> bv8, d: nat)
    requires Runs(g, step)
    ensures Shifted(g, 1, d) == 1 <==> Orbit(step, 1, d) == 1
  {
    OrbitReaches(g, step, d);
    ReachesOne(g, Orbit(step, 1, d), d);
  }

  lemma LapOrbit(step: bv8 -> bv8, lap: nat, d: nat)
    requires 0 < d <= lap && Walk(step, step(1), lap - 1) == 1
    ensures Orbit(step, 1, d) == 1 <==> d == lap
  {
    WalkOrbit(step, step(1), lap - 1, d - 1);
    assert Orbit(step, 1, d) == Orbit(step, step(1), d - 1);
  }

  lemma LapIsMaximal(g: Gen, step: bv8 -> bv8, lap: nat)
    requires Runs(g, step) && lap == Pow2(g.n) - 1 && 1 < lap && Walk(step, step(1), lap - 1) == 1
    ensures MaximalPeriod(g)
  {
    forall d: nat | 0 < d <= lap
      ensures Shifted(g, 1, d) == 1 <==> d == lap
    {
      LapOrbit(step, lap, d);
      OrbitIs(g, step, d);
    }
  }

  lemma SmallPowers()
    ensures Pow2(5) == 32 && Pow2(6) == 64 && Pow2(7) == 128 && Pow2(8) == 256
  {
    assert Pow2(3) == 8;
    assert Pow2(5) == 4 * Pow2(3);
    assert Pow2(7) == 4 * Pow2(5);
  }

  lemma Runs5(g: Gen)
    requires g.Valid() && g.n == 5 && (g.p1, g.p2, g.p3) == (1, 2, 3)
    ensures Runs(g, Step5)
  {
    forall s: bv8 | Narrow(5, s)
      ensures Narrow(5, Step5(s)) && Row(5, Step5(s)) == Row(5, s)[1..] + [Parity(g, Row(5, s))]
    {
      Moves5(s);
      RowMoves(g, s, Step5(s));
    }
  }

  lemma Runs6(g: Gen)
    requires g.Valid() && g.n == 6 && (g.p1, g.p2, g.p3) == (1, 3, 4)
    ensures Runs(g, Step6)
  {
    forall s: bv8 | Narrow(6, s)
      ensures Narrow(6, Step6(s)) && Row(6, Step6(s)) == Row(6, s)[1..] + [Parity(g, Row(6, s))]
    {
      Moves6(s);
      RowMoves(g, s, Step6(s));
    }
  }

  lemma Runs7(g: Gen)
    requires g.Valid() && g.n == 7 && (g.p1, g.p2, g.p3) == (1, 2, 3)
    ensures Runs(g, Step7)
  {
    forall s: bv8 | Narrow(7, s)
      ensures Narrow(7, Step7(s)) && Row(7, Step7(s)) == Row(7, s)[1..] + [Parity(g, Row(7, s))]
    {
      Moves7(s);
      RowMoves(g, s, Step7(s));
    }
  }

  lemma Runs8(g: Gen)
    requires g.Valid() && g.n == 8 && (g.p1, g.p2, g.p3) == (2, 3, 4)
    ensures Runs(g, Step8)
  {
    forall s: bv8 | Narrow(8, s)
      ensures Narrow(8, Step8(s)) && Row(8, Step8(s)) == Row(8, s)[1..] + [Parity(g, Row(8, s))]
    {
      Moves8(s);
      RowMoves(g, s, Step8(s));
    }
  }

  /** A register with the taps of the table. */
  ghost predicate Tabled(g: Gen) {
    && g.Valid() && 5 <= g.n <= 8
    && (g.p1, g.p2, g.p3) == if g.n == 6 then (1, 3, 4) else if g.n == 8 then (2, 3, 4) else (1, 2, 3)
  }

  /** The taps of the table for 5, 6, 7 and 8 bits have maximal period. */
  lemma TabledMaximal(g: Gen)
    requires Tabled(g)
    ensures MaximalPeriod(g)
  {
    SmallPowers();
    var lap: nat := Pow2(g.n) - 1;
    match g.n
    case 5 =>
      Runs5(g);
      Lap5(lap);
      LapIsMaximal(g, Step5, lap);
    case 6 =>
      Runs6(g);
      Lap6(lap);
      LapIsMaximal(g, Step6, lap);
    case 7 =>
      Runs7(g);
      Lap7(lap);
      LapIsMaximal(g, Step7, lap);
    case 8 =>
      Runs8(g);
      Lap8(lap);
      LapIsMaximal(g, Step8, lap);
  }
}
