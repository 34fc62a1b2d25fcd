/** Arithmetic of a circular queue: `NVMeHeadTail` and `NVMeQueue` on plain values.

    A head or tail register holds the position of an ever-growing index modulo the number
    of entries. The lemmas below say what the register tests of the source mean for those
    indices; every proof about the queues goes through them. */
module Ring {

  /** `NVMeHeadTail.peek`, and the value `advance` stores. */
  function Advance(value: nat, entries: nat): nat {
    if value + 1 == entries then 0 else value + 1
  }

  /** `NVMeQueue.is_full`. */
  predicate Full(head: nat, tail: nat, entries: nat) {
    Advance(tail, entries) == head
  }

  /** `NVMeQueue.num_entries`, branch by branch. */
  function NumEntries(head: nat, tail: nat, entries: nat): int {
    if Advance(tail, entries) == head then entries - 1
    else if tail == head then 0
    else if tail > head then tail - head
    else (entries - head) + tail
  }

  /** A product grows with its first factor. */
  lemma {:induction false} MulMono(a: int, b: int, m: nat)
    ensures a <= b ==> a * m <= b * m
    decreases b - a
  {
    if a < b {
      MulMono(a, b - 1, m);
      assert b * m == (b - 1) * m + m;
    }
  }

  lemma DivModUnique(n: int, e: int, q: int, r: int)
    requires 0 < e && 0 <= r < e && n == q * e + r
    ensures n / e == q && n % e == r
  {
    var d := n / e - q;
    assert n == (n / e) * e + n % e;
    assert d * e == r - n % e by {
      assert (n / e) * e - q * e == d * e;
    }
    assert -e < d * e < e;
    assert d == 0;
  }

  /** A register that follows index n follows n + 1 after one `advance`; the lap number
      grows exactly when the register wraps to 0. */
  lemma AdvanceFollows(n: nat, e: nat)
    requires 0 < e
    ensures Advance(n % e, e) == (n + 1) % e
    ensures (n + 1) / e == n / e + (if (n + 1) % e == 0 then 1 else 0)
  {
    var q, r := n / e, n % e;
    assert n == q * e + r;
    if r + 1 == e {
      assert n + 1 == (q + 1) * e + 0;
      DivModUnique(n + 1, e, q + 1, 0);
    } else {
      DivModUnique(n + 1, e, q, r + 1);
    }
  }

  /** Indices less than one lap apart sit in the same slot only when they are equal, and
      their slots are in ring order. */
  lemma Apart(i: nat, j: nat, e: nat)
    requires 0 < e && i <= j < i + e
    ensures i % e == j % e <==> i == j
    ensures j % e - i % e == j - i || j % e + e - i % e == j - i
    ensures j / e == i / e + (if i % e <= j % e then 0 else 1)
  {
    var q, r := i / e, i % e;
    assert i == q * e + r;
    if r + (j - i) < e {
      DivModUnique(j, e, q, r + (j - i));
    } else {
      assert j == (q + 1) * e + (r + (j - i) - e);
      DivModUnique(j, e, q + 1, r + (j - i) - e);
    }
  }

  /** For a head index `a` and a tail index `b` in ring order, the register tests compute
      the true occupancy, and the queue is full exactly at entries - 1 items. */
  lemma OccupancyExact(a: nat, b: nat, e: nat)
    requires 0 < e && a <= b < a + e
    ensures NumEntries(a % e, b % e, e) == b - a
    ensures Full(a % e, b % e, e) <==> b - a == e - 1
  {
    Apart(a, b, e);
    AdvanceFollows(b, e);
    if b + 1 < a + e {
      Apart(a, b + 1, e);
    } else {
      DivModUnique(a + e, e, a / e + 1, a % e);
    }
  }

  /** A quotient stays below the factor. */
  lemma MulLess(i: int, n: int, m: nat, d: int)
    requires i * m <= d < n * m
    ensures i < n
  {
    if n <= i {
      MulMono(n, i, m);
    }
  }
}
