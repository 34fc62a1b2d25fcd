/** Shifts and bitwise operators on unbounded non-negative integers. */
module Bits {
  import Ring

  function Pow2(k: nat): (r: nat)
    ensures 0 < r
  {
    if k == 0 then 1 else 2 * Pow2(k - 1)
  }

  lemma DivNonNegative(x: nat, d: nat)
    requires 0 < d
    ensures 0 <= x / d
  {
    assert x == (x / d) * d + x % d;
    Ring.MulMono(x / d, -1, d);
  }

  function Shr(x: nat, k: nat): nat {
    DivNonNegative(x, Pow2(k));
    x / Pow2(k)
  }

  function Bit(x: nat, k: nat): nat {
    Shr(x, k) % 2
  }

  function Xor(a: nat, b: nat): nat {
    if a == 0 && b == 0 then 0 else (a % 2 + b % 2) % 2 + 2 * Xor(a / 2, b / 2)
  }

  function Or(a: nat, b: nat): nat {
    if a == 0 && b == 0 then 0
    else (if a % 2 == 1 || b % 2 == 1 then 1 else 0) + 2 * Or(a / 2, b / 2)
  }

  /** Number of binary digits. */
  function BitLength(x: nat): nat {
    if x == 0 then 0 else 1 + BitLength(x / 2)
  }

  lemma {:induction false} BitLengthBounds(x: nat)
    requires 0 < x
    ensures 0 < BitLength(x) && Pow2(BitLength(x) - 1) <= x < Pow2(BitLength(x))
  {
    if x > 1 {
      BitLengthBounds(x / 2);
    }
  }

  lemma XorLow(a: nat, b: nat)
    ensures Xor(a, b) % 2 == (a % 2 + b % 2) % 2
  {
  }

  lemma {:induction false} OrZero(a: nat)
    ensures Or(a, 0) == a
  {
    if a > 0 {
      OrZero(a / 2);
    }
  }

  /** Or-ing a bit in above all the bits of a adds its weight. */
  lemma {:induction false} OrAbove(a: nat, bit: nat, k: nat)
    requires a < Pow2(k) && bit < 2
    ensures Or(a, bit * Pow2(k)) == a + bit * Pow2(k)
  {
    if bit == 0 {
      OrZero(a);
    } else {
      OrTop(a, k);
    }
  }

  lemma {:induction false} OrTop(a: nat, k: nat)
    requires a < Pow2(k)
    ensures Or(a, Pow2(k)) == a + Pow2(k)
  {
    if k == 0 {
      assert Or(0, 1) == 1 + 2 * Or(0, 0);
    } else {
      var p := Pow2(k - 1);
      OrTop(a / 2, k - 1);
      assert Or(a, 2 * p) == a % 2 + 2 * Or(a / 2, p);
    }
  }

  lemma {:induction false} HalfBit(x: nat, k: nat)
    ensures Shr(x / 2, k) == Shr(x, k + 1) && Bit(x / 2, k) == Bit(x, k + 1)
  {
    assert Pow2(k + 1) == 2 * Pow2(k);
    DivDiv(x, Pow2(k));
  }

  lemma DivDiv(x: nat, d: nat)
    requires 0 < d
    ensures (x / 2) / d == x / (2 * d)
  {
    var q := x / (2 * d);
    var r := x % (2 * d);
    assert x == q * (2 * d) + r;
    assert q * (2 * d) == 2 * (q * d);
    assert x / 2 == q * d + r / 2;
    Ring.DivModUnique(x / 2, d, q, r / 2);
  }

  /** Bits below the top do not see the top bit. */
  lemma {:induction false} BitBelow(a: nat, bit: nat, k: nat, j: nat)
    requires a < Pow2(k) && j < k
    ensures Bit(a + bit * Pow2(k), j) == Bit(a, j)
    decreases k
  {
    assert bit * Pow2(k) == 2 * (bit * Pow2(k - 1));
    if j > 0 {
      BitBelow(a / 2, bit, k - 1, j - 1);
      HalfBit(a, j - 1);
      HalfBit(a + bit * Pow2(k), j - 1);
      assert (a + bit * Pow2(k)) / 2 == a / 2 + bit * Pow2(k - 1);
    }
  }

  lemma {:induction false} OnesBit(n: nat, j: nat)
    requires j < n
    ensures Bit(Pow2(n) - 1, j) == 1
  {
    if j > 0 {
      OnesBit(n - 1, j - 1);
      assert (Pow2(n) - 1) / 2 == Pow2(n - 1) - 1;
      HalfBit(Pow2(n) - 1, j - 1);
    }
  }

  lemma {:induction false} Pow2Mono(a: nat, b: nat)
    requires a <= b
    ensures Pow2(a) <= Pow2(b)
  {
    if a < b {
      Pow2Mono(a, b - 1);
    }
  }
}
