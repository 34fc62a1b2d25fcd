/** Bytes, little-endian words and Python slices over a flat memory. */
module Bytes {
  import Ring

  type byte = x: int | 0 <= x < 256

  function FromLe(b: seq<byte>): nat {
    if b == [] then 0 else b[0] + 256 * FromLe(b[1..])
  }

  function ToLe(n: nat, len: nat): (b: seq<byte>)
    ensures |b| == len
  {
    if len == 0 then [] else [n % 256] + ToLe(n / 256, len - 1)
  }

  function Pow256(len: nat): nat {
    if len == 0 then 1 else 256 * Pow256(len - 1)
  }

  lemma {:induction false} LeRoundTrip(n: nat, len: nat)
    requires n < Pow256(len)
    ensures FromLe(ToLe(n, len)) == n
  {
    if len > 0 {
      LeRoundTrip(n / 256, len - 1);
      assert ToLe(n, len)[1..] == ToLe(n / 256, len - 1);
    }
  }

  /** A memory holding only zero bytes there reads as the word 0. */
  lemma {:induction false} LeZero(b: seq<byte>)
    requires forall i :: 0 <= i < |b| ==> b[i] == 0
    ensures FromLe(b) == 0
  {
    if b != [] {
      LeZero(b[1..]);
    }
  }

  /** The c_uint64 at address a. */
  function Word(ram: seq<byte>, a: nat): nat
    requires a + 8 <= |ram|
  {
    FromLe(ram[a..a + 8])
  }

  lemma FromLeFront(b: seq<byte>, b0: int, b1: int, b2: int, b3: int)
    requires |b| >= 4 && b[0] == b0 && b[1] == b1 && b[2] == b2 && b[3] == b3
    ensures FromLe(b) == b0 + 0x100 * b1 + 0x1_0000 * b2 + 0x100_0000 * b3 + 0x1_0000_0000 * FromLe(b[4..])
  {
    assert b[1..][1..] == b[2..] && b[2..][1..] == b[3..] && b[3..][1..] == b[4..];
    assert FromLe(b[2..]) == b2 + 256 * FromLe(b[3..]);
  }

  /** Byte i of a word weighs 256^i. */
  lemma WordBytes(ram: seq<byte>, a: nat, b0: int, b1: int, b2: int, b3: int, b4: int, b5: int, b6: int, b7: int)
    requires a + 8 <= |ram| && ram[a..a + 8] == [b0, b1, b2, b3, b4, b5, b6, b7]
    ensures Word(ram, a) == b0 + 0x100 * b1 + 0x1_0000 * b2 + 0x100_0000 * b3
                            + 0x1_0000_0000 * (b4 + 0x100 * b5 + 0x1_0000 * b6 + 0x100_0000 * b7)
  {
    var b := ram[a..a + 8];
    FromLeFront(b, b0, b1, b2, b3);
    FromLeFront(b[4..], b4, b5, b6, b7);
    assert b[4..][4..] == [];
  }

  /** A page read as an array of c_uint64. */
  function Words(ram: seq<byte>, a: nat, mps: nat): (w: seq<nat>)
    requires a + mps <= |ram|
    ensures |w| == mps / 8
  {
    seq(mps / 8, i requires 0 <= i < mps / 8 => Word(ram, a + 8 * i))
  }

  /** Stores one 64-bit word of an array of them. */
  method StoreWord(ram: array<byte>, a: nat, w: nat)
    requires a + 8 <= ram.Length && w < Pow256(8)
    modifies ram
    ensures ram[a..a + 8] == ToLe(w, 8) && Word(ram[..], a) == w
    ensures forall k :: 0 <= k < ram.Length && !(a <= k < a + 8) ==> ram[k] == old(ram[k])
  {
    var le := ToLe(w, 8);
    forall k | 0 <= k < 8 {
      ram[a + k] := le[k];
    }
    assert ram[a..a + 8] == le;
    assert ram[..][a..a + 8] == le;
    LeRoundTrip(w, 8);
  }

  /** Where Python puts a slice bound: negative bounds count from the end, and both ends
      are clamped. */
  function Clamp(len: nat, bound: int): (k: nat)
    ensures k <= len
  {
    if bound < 0 then (if len + bound < 0 then 0 else len + bound)
    else if bound > len then len else bound
  }

  /** Python's slice: bounds count from the end when negative, and are clamped. */
  function Slice(s: seq<byte>, lo: int, hi: int): seq<byte> {
    if Clamp(|s|, lo) <= Clamp(|s|, hi) then s[Clamp(|s|, lo)..Clamp(|s|, hi)] else []
  }

  /** data laid over the front of prior. */
  function Over(data: seq<byte>, prior: seq<byte>): (r: seq<byte>)
    ensures |r| == |prior|
  {
    if |data| >= |prior| then data[..|prior|] else data + prior[|data|..]
  }

  /** Byte by byte: the data as far as it and the buffer reach, and behind it what was there. */
  ghost predicate Overlaid(data: seq<byte>, before: seq<byte>, after: seq<byte>) {
    && |after| == |before|
    && (forall k :: 0 <= k < |data| && k < |after| ==> after[k] == data[k])
    && (forall k :: |data| <= k < |after| ==> after[k] == before[k])
  }

  lemma OverIs(data: seq<byte>, prior: seq<byte>)
    ensures Overlaid(data, prior, Over(data, prior))
  {
  }
}
