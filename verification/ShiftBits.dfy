/** The register as a row of bits, lowest first: a shift drops the lowest bit and puts the
    parity of the four tapped bits on top. */
module ShiftBits {
  import Ring
  import opened Bits
  import opened Lfsr

  /** The number whose binary digits these are. */
  function Val(bits: seq<bool>): nat {
    if bits == [] then 0 else (if bits[0] then 1 else 0) + 2 * Val(bits[1..])
  }

  lemma {:induction false} ValBelow(bits: seq<bool>)
    ensures Val(bits) < Pow2(|bits|)
  {
    if bits != [] {
      ValBelow(bits[1..]);
    }
  }

  lemma {:induction false} ValBit(bits: seq<bool>, k: nat)
    requires k < |bits|
    ensures Bit(Val(bits), k) == if bits[k] then 1 else 0
  {
    var rest := Val(bits[1..]);
    assert Val(bits) == (if bits[0] then 1 else 0) + 2 * rest;
    if k > 0 {
      ValBit(bits[1..], k - 1);
      HalfBit(Val(bits), k - 1);
      assert Val(bits) / 2 == rest;
    } else {
      assert Pow2(0) == 1;
    }
  }

  lemma {:induction false} ValSnoc(bits: seq<bool>, top: bool)
    ensures Val(bits + [top]) == Val(bits) + (if top then Pow2(|bits|) else 0)
  {
    if bits == [] {
      assert [top][1..] == [];
    } else {
      ValSnoc(bits[1..], top);
      assert (bits + [top])[1..] == bits[1..] + [top];
    }
  }

  lemma {:induction false} ValDiffers(a: seq<bool>, b: seq<bool>)
    requires |a| == |b| && Val(a) == Val(b)
    ensures a == b
  {
    if a != [] {
      ValDiffers(a[1..], b[1..]);
      assert a == [a[0]] + a[1..] && b == [b[0]] + b[1..];
    }
  }

  /** An odd number of the tapped bits is set. */
  predicate Parity(g: Gen, bits: seq<bool>)
    requires g.p1 < |bits| && g.p2 < |bits| && g.p3 < |bits|
  {
    (bits[0] != bits[g.p1]) != (bits[g.p2] != bits[g.p3])
  }

  lemma FeedbackBits(g: Gen, bits: seq<bool>)
    requires g.Valid() && |bits| == g.n
    ensures Feedback(g, Val(bits)) == if Parity(g, bits) then 1 else 0
  {
    FeedbackIsParity(g, Val(bits));
    ValBit(bits, g.p1);
    ValBit(bits, g.p2);
    ValBit(bits, g.p3);
    assert Val(bits) % 2 == if bits[0] then 1 else 0;
  }

  /** The arithmetic shift is a shift of the row of bits. */
  lemma ShiftsRow(g: Gen, bits: seq<bool>)
    requires g.Valid() && |bits| == g.n
    ensures Shift(g, Val(bits)) == Val(bits[1..] + [Parity(g, bits)])
  {
    ValBelow(bits);
    ShiftIs(g, Val(bits));
    FeedbackBits(g, bits);
    ValSnoc(bits[1..], Parity(g, bits));
    assert Val(bits) / 2 == Val(bits[1..]);
  }
}
