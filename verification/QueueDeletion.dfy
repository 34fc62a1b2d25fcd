/** `delete_io_queues` on any table of pairs, ids shared or not: exactly when it succeeds. */
module QueueDeletion {
  import opened Options
  import opened QueueTable
  import opened QueueTeardown

  /** A table as creating pairs leaves it: the admin pair first, every queue alive, the id
      lists those of the pairs. */
  ghost predicate Intact(t: Table) {
    && t.queues != [] && t.queues[0].sqid == 0 == t.queues[0].cqid
    && (forall i :: 0 <= i < |t.queues| ==> t.queues[i].sq.Some? && t.queues[i].cq.Some?)
    && t.ioSqids == IoSqids(t.queues) && t.ioCqids == IoCqids(t.queues)
    && forall i :: 1 <= i < |t.queues| ==> t.queues[i].sqid != 0 || t.queues[i].cqid != 0
  }

  lemma {:induction false} PutKeeps(queues: seq<Entry>, e: Entry)
    requires e.sq.Some? && e.cq.Some? && (e.sqid != 0 || e.cqid != 0)
    requires forall i :: 0 <= i < |queues| ==> queues[i].sq.Some? && queues[i].cq.Some?
    ensures forall i :: 0 <= i < |Put(queues, e)| ==> Put(queues, e)[i].sq.Some? && Put(queues, e)[i].cq.Some?
    ensures forall f :: f in Put(queues, e) ==> f in queues || f == e
    ensures |queues| <= |Put(queues, e)|
    ensures forall i :: 0 <= i < |queues| ==>
            Put(queues, e)[i].sqid == queues[i].sqid && Put(queues, e)[i].cqid == queues[i].cqid
    ensures forall i :: |queues| <= i < |Put(queues, e)| ==> Put(queues, e)[i] == e
  {
    if queues != [] {
      PutKeeps(queues[1..], e);
    }
  }

  /** Creating a pair under any ids but those of the admin pair keeps it so. */
  lemma AddedIntact(t: Table, sq: Queue, cq: Queue)
    requires Intact(t) && (sq.qid != 0 || cq.qid != 0)
    ensures Intact(Added(t, sq, cq))
  {
    PutKeeps(t.queues, Entry(sq.qid, cq.qid, Some(sq), Some(cq)));
  }

  /** IO pairs with nonzero ids, no two on one SQ id. CQ ids may be shared. */
  predicate Deletable(queues: seq<Entry>) {
    && (forall i :: 1 <= i < |queues| ==> queues[i].sqid != 0 && queues[i].cqid != 0)
    && (forall i, j :: 1 <= i < j < |queues| ==> queues[i].sqid != queues[j].sqid)
  }

  // ---- The submission queues --------------------------------------------------------

  /** x is the SQ id of one of the pairs 1 to k - 1. */
  predicate Among(queues: seq<Entry>, k: nat, x: nat) {
    exists j :: 1 <= j < k && j < |queues| && queues[j].sqid == x
  }

  /** The pairs once the SQs of pairs 1 to k - 1 are deleted. */
  function SqGone(queues: seq<Entry>, k: nat): seq<Entry> {
    seq(|queues|, i requires 0 <= i < |queues| =>
      if Among(queues, k, queues[i].sqid) then queues[i].(sq := None) else queues[i])
  }

  /** The first k - 1 SQs of the table q are deleted. */
  ghost predicate SqsDeleted(q: Table, t: Table, k: nat) {
    && t.queues == SqGone(q.queues, k) && t.ioCqids == q.ioCqids
    && forall x: nat :: Copies(t.ioSqids, x) == if Among(q.queues, k, x) then 0 else Copies(q.ioSqids, x)
  }

  /** Pairs of SQ x that have CQ 0. */
  function OnCqZero(queues: seq<Entry>, x: nat, n: nat): nat
    requires n <= |queues|
  {
    if n == 0 then 0
    else OnCqZero(queues, x, n - 1) + (if queues[n - 1].sqid == x && queues[n - 1].cqid == 0 then 1 else 0)
  }

  lemma {:induction false} CopiesAppend(a: seq<nat>, b: seq<nat>, x: nat)
    ensures Copies(a + b, x) == Copies(a, x) + Copies(b, x)
  {
    if a == [] {
      assert a + b == b;
    } else {
      CopiesAppend(a[1..], b, x);
      assert (a + b)[1..] == a[1..] + b;
    }
  }

  lemma CopiesOne(y: nat, x: nat)
    ensures Copies([y], x) == (if y == x then 1 else 0) && Copies([], x) == 0
  {
    assert [y][1..] == [];
  }

  /** The id list names a nonzero id once for each of its pairs that is not on CQ 0. */
  lemma {:induction false} SqidCopies(queues: seq<Entry>, x: nat)
    requires x != 0
    ensures PairsOfSq(queues, x, |queues|) == Copies(IoSqids(queues), x) + OnCqZero(queues, x, |queues|)
  {
    if queues != [] {
      var n := |queues| - 1;
      SqidCopies(queues[..n], x);
      SamePairs(queues[..n], queues, x, n);
      var e := queues[n];
      CopiesAppend(IoSqids(queues[..n]), if e.sqid != 0 && e.cqid != 0 then [e.sqid] else [], x);
      CopiesOne(e.sqid, x);
    }
  }

  /** Counting looks at the ids of the pairs only. */
  lemma {:induction false} SamePairs(a: seq<Entry>, b: seq<Entry>, x: nat, n: nat)
    requires n <= |a| && n <= |b| && forall i :: 0 <= i < n ==> a[i].sqid == b[i].sqid && a[i].cqid == b[i].cqid
    ensures PairsOfSq(a, x, n) == PairsOfSq(b, x, n) && PairsOfCq(a, x, n) == PairsOfCq(b, x, n)
    ensures OnCqZero(a, x, n) == OnCqZero(b, x, n)
  {
    if n > 0 {
      SamePairs(a, b, x, n - 1);
    }
  }

  lemma {:induction false} NoneOnCqZero(queues: seq<Entry>, x: nat, n: nat)
    requires n <= |queues|
    ensures OnCqZero(queues, x, n) == 0 <==> forall i :: 0 <= i < n ==> queues[i].sqid != x || queues[i].cqid != 0
  {
    if n > 0 {
      NoneOnCqZero(queues, x, n - 1);
    }
  }

  lemma {:induction false} SomePairs(queues: seq<Entry>, x: nat, n: nat, k: nat)
    requires k < n <= |queues| && queues[k].sqid == x
    ensures PairsOfSq(queues, x, n) > 0
  {
    if k < n - 1 {
      SomePairs(queues, x, n - 1, k);
    }
  }

  lemma {:induction false} OtherCopies(a: seq<nat>, b: seq<nat>, x: nat, y: nat)
    requires Others(a, x) == Others(b, x) && x != y
    ensures Copies(a, y) == Copies(b, y)
  {
    CopiesOfOthers(a, x, y);
    CopiesOfOthers(b, x, y);
  }

  lemma {:induction false} CopiesOfOthers(a: seq<nat>, x: nat, y: nat)
    requires x != y
    ensures Copies(Others(a, x), y) == Copies(a, y)
  {
    if a != [] {
      CopiesOfOthers(a[1..], x, y);
      CopiesAppend(if a[0] == x then [] else [a[0]], Others(a[1..], x), y);
      CopiesOne(a[0], y);
    }
  }

  /** What is wrong with deleting the SQ of pair k after those before it. */
  predicate SqStuck(queues: seq<Entry>, k: nat)
    requires 1 <= k < |queues|
  {
    || queues[k].sqid == 0 || Among(queues, k, queues[k].sqid)
    || exists i :: 0 <= i < |queues| && queues[i].sqid == queues[k].sqid && queues[i].cqid == 0
  }

  /** When the removal of the next SQ goes through. */
  lemma SqStepOk(q: Table, t: Table, k: nat)
    requires Intact(q) && SqsDeleted(q, t, k) && 1 <= k < |q.queues| && q.queues[k].sqid != 0
    ensures RemovedSq(t, q.queues[k].sqid, |t.queues|).Some? <==> !SqStuck(q.queues, k)
  {
    var x, n := q.queues[k].sqid, |q.queues|;
    RemovedSqExact(t, x, n);
    SamePairs(t.queues, q.queues, x, n);
    SomePairs(q.queues, x, n, k);
    assert Copies(t.ioSqids, x) == if Among(q.queues, k, x) then 0 else Copies(q.ioSqids, x);
    StuckCounts(q, k);
  }

  lemma StuckCounts(q: Table, k: nat)
    requires Intact(q) && 1 <= k < |q.queues| && q.queues[k].sqid != 0
    ensures var x, n := q.queues[k].sqid, |q.queues|;
            SqStuck(q.queues, k) <==> Among(q.queues, k, x) || PairsOfSq(q.queues, x, n) > Copies(q.ioSqids, x)
  {
    SqidCopies(q.queues, q.queues[k].sqid);
    NoneOnCqZero(q.queues, q.queues[k].sqid, |q.queues|);
  }

  lemma AmongNext(queues: seq<Entry>, k: nat, y: nat)
    requires 1 <= k < |queues|
    ensures Among(queues, k + 1, y) <==> Among(queues, k, y) || y == queues[k].sqid
  {
    if y == queues[k].sqid {
      assert 1 <= k < k + 1 && queues[k].sqid == y;
    }
  }

  /** What it leaves. */
  lemma SqStepDone(q: Table, t: Table, k: nat)
    requires Intact(q) && SqsDeleted(q, t, k) && 1 <= k < |q.queues| && q.queues[k].sqid != 0 && !SqStuck(q.queues, k)
    ensures RemovedSq(t, q.queues[k].sqid, |t.queues|).Some?
    ensures SqsDeleted(q, RemovedSq(t, q.queues[k].sqid, |t.queues|).value, k + 1)
  {
    var x, n := q.queues[k].sqid, |q.queues|;
    SqStepOk(q, t, k);
    RemovedSqMeans(t, x);
    var t' := RemovedSq(t, x, n).value;
    forall y: nat
      ensures Copies(t'.ioSqids, y) == if Among(q.queues, k + 1, y) then 0 else Copies(q.ioSqids, y)
    {
      AmongNext(q.queues, k, y);
      if y == x {
        SamePairs(t.queues, q.queues, x, n);
        SqidCopies(q.queues, x);
        NoneOnCqZero(q.queues, x, n);
      } else {
        OtherCopies(t'.ioSqids, t.ioSqids, x, y);
      }
    }
    SqGoneNext(q.queues, t.queues, k);
  }

  lemma SqGoneNext(queues: seq<Entry>, now: seq<Entry>, k: nat)
    requires 1 <= k < |queues| && now == SqGone(queues, k)
    ensures WithoutSq(now, queues[k].sqid, |queues|) == SqGone(queues, k + 1)
  {
    forall i | 0 <= i < |queues|
      ensures WithoutSq(now, queues[k].sqid, |queues|)[i] == SqGone(queues, k + 1)[i]
    {
      AmongNext(queues, k, queues[i].sqid);
    }
  }

  /** Nothing gets stuck exactly for deletable pairs. */
  lemma StuckIff(queues: seq<Entry>)
    requires queues != [] && queues[0].sqid == 0
    ensures Deletable(queues) <==> forall k :: 1 <= k < |queues| ==> !SqStuck(queues, k)
  {
    if Deletable(queues) {
      forall k | 1 <= k < |queues|
        ensures !SqStuck(queues, k)
      {
        assert queues[k].sqid != 0;
      }
    } else {
      StuckSomewhere(queues);
    }
  }

  lemma StuckSomewhere(queues: seq<Entry>)
    requires queues != [] && queues[0].sqid == 0 && !Deletable(queues)
    ensures exists k :: 1 <= k < |queues| && SqStuck(queues, k)
  {
    if i :| 1 <= i < |queues| && (queues[i].sqid == 0 || queues[i].cqid == 0) {
      assert SqStuck(queues, i);
    } else {
      var i, j :| 1 <= i < j < |queues| && queues[i].sqid == queues[j].sqid;
      assert Among(queues, j, queues[j].sqid);
      assert SqStuck(queues, j);
    }
  }

  // ---- The completion queues --------------------------------------------------------

  /** The pairs that are not on CQ y. */
  function Minus(rest: seq<Entry>, y: nat): seq<Entry> {
    if rest == [] then [] else (if rest[0].cqid == y then [] else [rest[0]]) + Minus(rest[1..], y)
  }

  function CqidsOf(rest: seq<Entry>): (r: seq<nat>)
    ensures |r| == |rest|
  {
    seq(|rest|, i requires 0 <= i < |rest| => rest[i].cqid)
  }

  /** Pairs of which only the CQ is left. */
  ghost predicate CqsOnly(rest: seq<Entry>) {
    forall i :: 0 <= i < |rest| ==> rest[i].sq.None? && rest[i].cq.Some?
  }

  /** The admin pair and what is left of the others. */
  function Late(admin: Entry, rest: seq<Entry>): Table {
    Table([admin] + rest, [], CqidsOf(rest))
  }

  lemma {:induction false} MinusIs(rest: seq<Entry>, y: nat)
    ensures forall e :: e in Minus(rest, y) <==> e in rest && e.cqid != y
    ensures CqsOnly(rest) ==> CqsOnly(Minus(rest, y))
    ensures CqidsOf(Minus(rest, y)) == Others(CqidsOf(rest), y)
  {
    if rest != [] {
      MinusIs(rest[1..], y);
      assert rest == [rest[0]] + rest[1..];
      assert CqidsOf(rest)[1..] == CqidsOf(rest[1..]);
      assert CqsOnly(rest) ==> CqsOnly(rest[1..]);
      assert CqidsOf(Minus(rest, y)) == (if rest[0].cqid == y then [] else [rest[0].cqid])
        + CqidsOf(Minus(rest[1..], y));
    }
  }

  lemma {:induction false} NoCopies(xs: seq<nat>, x: nat)
    requires Copies(xs, x) == 0
    ensures Others(xs, x) == xs
  {
    if xs != [] {
      NoCopies(xs[1..], x);
    }
  }

  lemma {:induction false} NoneAtAll(xs: seq<nat>)
    requires forall x: nat :: Copies(xs, x) == 0
    ensures xs == []
  {
    if xs != [] {
      assert Copies(xs, xs[0]) > 0;
    }
  }

  lemma {:induction false} CqidCopies(admin: Entry, rest: seq<Entry>, y: nat)
    requires admin.cqid != y
    ensures PairsOfCq([admin] + rest, y, |rest| + 1) == Copies(CqidsOf(rest), y)
  {
    var all := [admin] + rest;
    if rest == [] {
      assert PairsOfCq(all, y, 0) == 0;
    } else {
      var n := |rest| - 1;
      CqidCopies(admin, rest[..n], y);
      SamePairs([admin] + rest[..n], all, y, n + 1);
      assert CqidsOf(rest) == CqidsOf(rest[..n]) + [rest[n].cqid];
      CopiesAppend(CqidsOf(rest[..n]), [rest[n].cqid], y);
      CopiesOne(rest[n].cqid, y);
    }
  }

  /** Marking CQ y as gone and purging leaves the pairs that are not on y. */
  lemma {:induction false} PurgeIs(rest: seq<Entry>, y: nat)
    requires CqsOnly(rest)
    ensures Alive(WithoutCq(rest, y, |rest|)) == Minus(rest, y)
  {
    if rest != [] {
      PurgeIs(rest[1..], y);
      var first := if rest[0].cqid == y then rest[0].(cq := None) else rest[0];
      assert WithoutCq(rest, y, |rest|) == [first] + WithoutCq(rest[1..], y, |rest| - 1);
      AliveAppend([first], WithoutCq(rest[1..], y, |rest| - 1));
      AliveOne(first);
    }
  }

  lemma AliveOne(e: Entry)
    ensures Alive([e]) == if e.sq.None? && e.cq.None? then [] else [e]
  {
    assert [e][..0] == [];
  }

  /** Removing a CQ drops all of its pairs at once. */
  lemma CqStep(admin: Entry, rest: seq<Entry>, y: nat)
    requires CqsOnly(rest) && admin.cqid == 0 && admin.sq.Some? && y != 0
    ensures RemovedCq(Late(admin, rest), y) == Some(Late(admin, Minus(rest, y)))
  {
    var t := Late(admin, rest);
    MarkedCqExact(t, y, |t.queues|);
    CqidCopies(admin, rest, y);
    var marked := MarkedCq(t, y, |t.queues|).value;
    CqStepQueues(admin, rest, y);
    NoCopies(marked.ioCqids, y);
    MinusIs(rest, y);
  }

  lemma CqStepQueues(admin: Entry, rest: seq<Entry>, y: nat)
    requires CqsOnly(rest) && admin.cqid != y && admin.sq.Some?
    ensures Alive(WithoutCq([admin] + rest, y, |rest| + 1)) == [admin] + Minus(rest, y)
  {
    assert WithoutCq([admin] + rest, y, |rest| + 1) == [admin] + WithoutCq(rest, y, |rest|);
    AliveAppend([admin], WithoutCq(rest, y, |rest|));
    AliveOne(admin);
    PurgeIs(rest, y);
  }

  lemma {:induction false} MinusSame(a: seq<Entry>, b: seq<Entry>, y: nat)
    requires SameItems(a, b)
    ensures SameItems(Minus(a, y), Minus(b, y))
  {
    if a != [] {
      assert SameItem(a[0], b[0]) && SameItems(a[1..], b[1..]);
      MinusSame(a[1..], b[1..], y);
    }
  }

  // ---- Both sides -------------------------------------------------------------------

  lemma SqGoneSame(a: seq<Entry>, b: seq<Entry>, k: nat)
    requires SameItems(a, b)
    ensures SameItems(SqGone(a, k), SqGone(b, k))
  {
    forall i | 0 <= i < |a|
      ensures SameItem(SqGone(a, k)[i], SqGone(b, k)[i])
    {
      assert SameItem(a[i], b[i]);
      AmongSame(a, b, k, a[i].sqid);
    }
  }

  lemma AmongSame(a: seq<Entry>, b: seq<Entry>, k: nat, x: nat)
    requires SameItems(a, b)
    ensures Among(a, k, x) <==> Among(b, k, x)
  {
    if j :| 1 <= j < k && j < |a| && a[j].sqid == x {
      assert SameItem(a[j], b[j]) && b[j].sqid == x;
    }
    if j :| 1 <= j < k && j < |b| && b[j].sqid == x {
      assert SameItem(a[j], b[j]) && a[j].sqid == x;
    }
  }

  /** Both tables have lost the same SQs. */
  ghost predicate BothSqs(q: Table, p: Table, host: Table, sim: Table, k: nat) {
    SqsDeleted(q, host, k) && SqsDeleted(p, sim, k) && SamePattern(host, sim)
  }

  /** Their id lists stay equal. */
  lemma SameRemoval(a: Table, b: Table, x: nat, n: nat)
    requires SamePattern(a, b) && n <= |a.queues|
    ensures RemovedSq(a, x, n).Some? <==> RemovedSq(b, x, n).Some?
    ensures RemovedSq(a, x, n).Some? ==>
              RemovedSq(a, x, n).value.ioSqids == RemovedSq(b, x, n).value.ioSqids
              && RemovedSq(a, x, n).value.ioCqids == RemovedSq(b, x, n).value.ioCqids
  {
    if n > 0 {
      SameRemoval(a, b, x, n - 1);
      assert SameItem(a.queues[n - 1], b.queues[n - 1]);
    }
  }

  lemma BothStep(q: Table, p: Table, host: Table, sim: Table, k: nat)
    requires Intact(q) && Intact(p) && SamePattern(q, p) && BothSqs(q, p, host, sim, k)
    requires 1 <= k < |q.queues| && q.queues[k].sqid != 0
    ensures var x, n := q.queues[k].sqid, |q.queues|;
            && |host.queues| == |sim.queues| == n
            && (RemovedSq(sim, x, n).Some? <==> !SqStuck(q.queues, k))
            && (RemovedSq(host, x, n).Some? <==> !SqStuck(q.queues, k))
            && (!SqStuck(q.queues, k) ==> BothSqs(q, p, RemovedSq(host, x, n).value, RemovedSq(sim, x, n).value, k + 1))
  {
    var x, n := q.queues[k].sqid, |q.queues|;
    SqStepOk(q, host, k);
    SameRemoval(host, sim, x, n);
    if !SqStuck(q.queues, k) {
      SqStepDone(q, host, k);
      StuckSame(q, p, k);
      SqStepDone(p, sim, k);
      SqGoneSame(q.queues, p.queues, k + 1);
    }
  }

  lemma StuckSame(q: Table, p: Table, k: nat)
    requires SamePattern(q, p) && 1 <= k < |q.queues|
    ensures p.queues[k].sqid == q.queues[k].sqid
    ensures SqStuck(p.queues, k) ==> SqStuck(q.queues, k)
  {
    assert SameItem(q.queues[k], p.queues[k]);
    AmongSame(q.queues, p.queues, k, q.queues[k].sqid);
    assert forall i :: 0 <= i < |q.queues| ==> SameItem(q.queues[i], p.queues[i]);
  }

  /** Once all SQs are deleted, only the CQs of the IO pairs are left. */
  lemma AllSqsDeleted(q: Table, t: Table)
    requires Intact(q) && Deletable(q.queues) && SqsDeleted(q, t, |q.queues|)
    ensures |t.queues| == |q.queues| && t.queues[0] == q.queues[0]
    ensures CqsOnly(t.queues[1..]) && t == Late(q.queues[0], t.queues[1..])
  {
    NoSqidsLeft(q, t);
    AllCqids(q.queues);
    OnlyCqsLeft(q, t);
    LateIs(q.queues, t);
  }

  lemma LateIs(queues: seq<Entry>, t: Table)
    requires |t.queues| == |queues| && queues != []
    requires forall i :: 0 <= i < |queues| ==> t.queues[i].cqid == queues[i].cqid
    requires t.ioSqids == [] && t.ioCqids == CqidsOf(queues[1..])
    ensures t == Late(t.queues[0], t.queues[1..])
  {
    assert t.queues == [t.queues[0]] + t.queues[1..];
    assert CqidsOf(t.queues[1..]) == CqidsOf(queues[1..]);
  }

  lemma NoSqidsLeft(q: Table, t: Table)
    requires Intact(q) && SqsDeleted(q, t, |q.queues|)
    ensures t.ioSqids == []
  {
    forall x: nat
      ensures Copies(t.ioSqids, x) == 0
    {
      ListedAmong(q.queues, x);
    }
    NoneAtAll(t.ioSqids);
  }

  lemma OnlyCqsLeft(q: Table, t: Table)
    requires Intact(q) && Deletable(q.queues) && SqsDeleted(q, t, |q.queues|)
    ensures |t.queues| == |q.queues| && t.queues[0] == q.queues[0] && CqsOnly(t.queues[1..])
    ensures forall i :: 0 <= i < |q.queues| ==> t.queues[i].cqid == q.queues[i].cqid
  {
    assert !Among(q.queues, |q.queues|, 0);
    forall i | 1 <= i < |q.queues|
      ensures Among(q.queues, |q.queues|, q.queues[i].sqid)
    {
    }
  }

  lemma ListedAmong(queues: seq<Entry>, x: nat)
    requires queues != [] && queues[0].sqid == 0
    ensures Among(queues, |queues|, x) || Copies(IoSqids(queues), x) == 0
    decreases |queues|
  {
    var n := |queues| - 1;
    var e := queues[n];
    CopiesAppend(if n == 0 then [] else IoSqids(queues[..n]), if e.sqid != 0 && e.cqid != 0 then [e.sqid] else [], x);
    CopiesOne(e.sqid, x);
    if n == 0 {
      assert queues[..0] == [];
    } else {
      ListedAmong(queues[..n], x);
      if e.sqid == x {
        assert Among(queues, n + 1, x) by {
          assert 1 <= n < n + 1 && queues[n].sqid == x;
        }
      }
      if j :| 1 <= j < n && j < |queues[..n]| && queues[..n][j].sqid == x {
        assert queues[j].sqid == x;
      }
    }
  }

  lemma {:induction false} AllCqids(queues: seq<Entry>)
    requires queues != [] && queues[0].cqid == 0
    requires forall i :: 1 <= i < |queues| ==> queues[i].sqid != 0 && queues[i].cqid != 0
    ensures IoCqids(queues) == CqidsOf(queues[1..])
    decreases |queues|
  {
    var n := |queues| - 1;
    if n == 0 {
      assert queues[..0] == [];
    } else {
      AllCqids(queues[..n]);
      assert CqidsOf(queues[1..]) == CqidsOf(queues[..n][1..]) + [queues[n].cqid];
    }
  }

  lemma SqsStart(q: Table)
    requires Intact(q)
    ensures SqsDeleted(q, q, 1)
  {
    assert SqGone(q.queues, 1) == q.queues;
  }

  /** One delete-SQ command and the host's `remove_sq` after it. */
  method DeleteSq(c: QueueController, ghost q: Table, ghost p: Table, sqid: nat, ghost k: nat) returns (ok: bool)
    requires c.host != c.sim && Intact(q) && Intact(p) && SamePattern(q, p) && 1 <= k < |q.queues|
             && sqid == q.queues[k].sqid
    requires BothSqs(q, p, c.host.View(), c.sim.View(), k)
    modifies c.host, c.sim
    ensures ok <==> !SqStuck(q.queues, k)
    ensures ok ==> BothSqs(q, p, c.host.View(), c.sim.View(), k + 1)
  {
    if sqid != 0 {
      BothStep(q, p, c.host.View(), c.sim.View(), k);
    }
    ok := c.HandleDeleteSq(sqid);
    if ok {
      ok := c.host.RemoveSq(sqid);
    }
  }

  /** The tables agree after each step so far. */
  ghost predicate InStep(steps: seq<(Table, Table)>) {
    forall i :: 0 <= i < |steps| ==> SamePattern(steps[i].0, steps[i].1)
  }

  lemma GoneKeys(q: Table, t: Table, k: nat)
    requires SqsDeleted(q, t, k)
    ensures |t.queues| == |q.queues| && forall i :: 0 <= i < |q.queues| ==> t.queues[i].sqid == q.queues[i].sqid
  {
  }

  /** The first loop: all SQs, in table order, the admin pair skipped. */
  method DeleteSqs(c: QueueController) returns (ok: bool, ghost steps: seq<(Table, Table)>)
    requires c.host != c.sim && Intact(c.host.View()) && Intact(c.sim.View())
             && SamePattern(c.host.View(), c.sim.View())
    modifies c.host, c.sim
    ensures (ok <==> Deletable(old(c.host.nvmeQueues))) && InStep(steps)
    ensures ok ==> BothSqs(old(c.host.View()), old(c.sim.View()), c.host.View(), c.sim.View(), |old(c.host.nvmeQueues)|)
    ensures ok ==> |steps| == |old(c.host.nvmeQueues)| - 1
  {
    ghost var q, p := c.host.View(), c.sim.View();
    SqsStart(q);
    SqsStart(p);
    var n := |c.host.nvmeQueues|;
    ghost var k;
    ok, steps, k := DeleteSqsFrom(c, n, q, p);
    DeletableOf(q.queues, ok, k);
  }

  lemma DeletableOf(queues: seq<Entry>, ok: bool, k: nat)
    requires queues != [] && queues[0].sqid == 0
    requires if ok then forall i :: 1 <= i < |queues| ==> !SqStuck(queues, i)
             else 1 <= k < |queues| && SqStuck(queues, k)
    ensures ok <==> Deletable(queues)
  {
    StuckIff(queues);
  }

  /** Where the first loop is: nothing got stuck before pair i. */
  ghost predicate SqLoop(q: Table, p: Table, host: Table, sim: Table, i: nat, steps: seq<(Table, Table)>) {
    && 1 <= i <= |q.queues| && BothSqs(q, p, host, sim, i) && InStep(steps) && |steps| == i - 1
    && forall k :: 1 <= k < i ==> !SqStuck(q.queues, k)
  }

  method SqTurn(c: QueueController, i: nat, ghost q: Table, ghost p: Table, ghost steps: seq<(Table, Table)>)
    returns (ok: bool, ghost steps': seq<(Table, Table)>)
    requires c.host != c.sim && Intact(q) && Intact(p) && SamePattern(q, p) && i < |q.queues|
    requires SqLoop(q, p, c.host.View(), c.sim.View(), i, steps)
    modifies c.host, c.sim
    ensures ok <==> !SqStuck(q.queues, i)
    ensures ok ==> SqLoop(q, p, c.host.View(), c.sim.View(), i + 1, steps')
    ensures !ok ==> steps' == steps
  {
    GoneKeys(q, c.host.View(), i);
    ok := DeleteSq(c, q, p, c.host.nvmeQueues[i].sqid, i);
    steps' := if ok then steps + [(c.host.View(), c.sim.View())] else steps;
  }

  method DeleteSqsFrom(c: QueueController, n: nat, ghost q: Table, ghost p: Table)
    returns (ok: bool, ghost steps: seq<(Table, Table)>, ghost k: nat)
    requires c.host != c.sim && Intact(q) && Intact(p) && SamePattern(q, p) && n == |q.queues|
    requires BothSqs(q, p, c.host.View(), c.sim.View(), 1)
    modifies c.host, c.sim
    ensures if ok then forall i :: 1 <= i < n ==> !SqStuck(q.queues, i) else 1 <= k < n && SqStuck(q.queues, k)
    ensures InStep(steps) && (ok ==> BothSqs(q, p, c.host.View(), c.sim.View(), n) && |steps| == n - 1)
  {
    steps, k := [], 0;
    for i := 1 to n
      invariant SqLoop(q, p, c.host.View(), c.sim.View(), i, steps)
    {
      k := i;
      ok, steps := SqTurn(c, i, q, p, steps);
      if !ok {
        return;
      }
    }
    ok := true;
  }

  /** What is left of both tables in the second loop. */
  ghost predicate BothLate(host: Table, sim: Table, a: Entry, b: Entry, rest: seq<Entry>, other: seq<Entry>) {
    && host == Late(a, rest) && sim == Late(b, other) && CqsOnly(rest) && CqsOnly(other)
    && SameItem(a, b) && SameItems(rest, other) && a.cqid == 0 == b.cqid && a.sq.Some? && b.sq.Some?
  }

  lemma LatePattern(host: Table, sim: Table, a: Entry, b: Entry, rest: seq<Entry>, other: seq<Entry>)
    requires BothLate(host, sim, a, b, rest, other)
    ensures SamePattern(host, sim)
  {
    forall i | 0 <= i < |rest|
      ensures rest[i].cqid == other[i].cqid
    {
      assert SameItem(rest[i], other[i]);
    }
    assert CqidsOf(rest) == CqidsOf(other);
  }

  /** One delete-CQ command and the host's `remove_cq` after it. */
  method DeleteCq(c: QueueController, cqid: nat, ghost a: Entry, ghost b: Entry, ghost rest: seq<Entry>,
                  ghost other: seq<Entry>)
    returns (ok: bool)
    requires c.host != c.sim && cqid != 0 && BothLate(c.host.View(), c.sim.View(), a, b, rest, other)
    modifies c.host, c.sim
    ensures ok && BothLate(c.host.View(), c.sim.View(), a, b, Minus(rest, cqid), Minus(other, cqid))
    ensures SamePattern(c.host.View(), c.sim.View())
  {
    CqStep(a, rest, cqid);
    CqStep(b, other, cqid);
    MinusSame(rest, other, cqid);
    MinusIs(rest, cqid);
    MinusIs(other, cqid);
    ok := c.HandleDeleteCq(cqid);
    if ok {
      ok := c.host.RemoveCq(cqid);
    }
    LatePattern(c.host.View(), c.sim.View(), a, b, Minus(rest, cqid), Minus(other, cqid));
  }

  /** Each pair left is on a CQ still to come, from pair i on. */
  ghost predicate ToCome(items: seq<Entry>, rest: seq<Entry>, i: nat) {
    forall e :: e in rest ==> exists j :: i <= j < |items| && items[j].cqid == e.cqid
  }

  lemma StillToCome(items: seq<Entry>, rest: seq<Entry>, i: nat)
    requires i < |items| && ToCome(items, rest, i)
    ensures ToCome(items, Minus(rest, items[i].cqid), i + 1)
  {
    MinusIs(rest, items[i].cqid);
    forall e | e in Minus(rest, items[i].cqid)
      ensures exists j :: i + 1 <= j < |items| && items[j].cqid == e.cqid
    {
      var j :| i <= j < |items| && items[j].cqid == e.cqid;
    }
  }

  /** Where the second loop is. */
  ghost predicate CqLoop(items: seq<Entry>, host: Table, sim: Table, a: Entry, b: Entry,
                         left: seq<Entry>, behind: seq<Entry>, i: nat, steps: seq<(Table, Table)>) {
    BothLate(host, sim, a, b, left, behind) && ToCome(items, left, i) && InStep(steps) && 1 <= i && |steps| == i - 1
  }

  method CqTurn(c: QueueController, items: seq<Entry>, i: nat, ghost a: Entry, ghost b: Entry,
                ghost left: seq<Entry>, ghost behind: seq<Entry>, ghost steps: seq<(Table, Table)>)
    returns (ok: bool, ghost left': seq<Entry>, ghost behind': seq<Entry>, ghost steps': seq<(Table, Table)>)
    requires c.host != c.sim && i < |items| && items[i].cqid != 0
    requires CqLoop(items, c.host.View(), c.sim.View(), a, b, left, behind, i, steps)
    modifies c.host, c.sim
    ensures ok && CqLoop(items, c.host.View(), c.sim.View(), a, b, left', behind', i + 1, steps')
  {
    StillToCome(items, left, i);
    ok := DeleteCq(c, items[i].cqid, a, b, left, behind);
    left', behind' := Minus(left, items[i].cqid), Minus(behind, items[i].cqid);
    steps' := steps + [(c.host.View(), c.sim.View())];
  }

  /** The second loop: all CQs of the pairs that were there when it started. */
  method DeleteCqs(c: QueueController, ghost a: Entry, ghost b: Entry, ghost rest: seq<Entry>, ghost other: seq<Entry>)
    returns (ok: bool, ghost steps: seq<(Table, Table)>)
    requires c.host != c.sim && BothLate(c.host.View(), c.sim.View(), a, b, rest, other)
    requires forall i :: 0 <= i < |rest| ==> rest[i].cqid != 0
    modifies c.host, c.sim
    ensures ok && InStep(steps) && |steps| == |rest|
    ensures c.host.View() == Late(a, []) && c.sim.View() == Late(b, [])
  {
    var items := c.host.nvmeQueues;
    ghost var left, behind := rest, other;
    ok, steps := true, [];
    ComesAll(items, rest);
    for i := 1 to |items|
      invariant ok && CqLoop(items, c.host.View(), c.sim.View(), a, b, left, behind, i, steps)
    {
      assert items[i] == rest[i - 1];
      ok, left, behind, steps := CqTurn(c, items, i, a, b, left, behind, steps);
    }
    NothingToCome(items, left);
  }

  lemma NothingToCome(items: seq<Entry>, rest: seq<Entry>)
    requires ToCome(items, rest, |items|)
    ensures rest == []
  {
    if rest != [] {
      FirstIn(rest);
    }
  }

  lemma FirstIn(rest: seq<Entry>)
    requires rest != []
    ensures rest[0] in rest
  {
  }

  lemma ComesAll(items: seq<Entry>, rest: seq<Entry>)
    requires items != [] && items[1..] == rest
    ensures ToCome(items, rest, 1)
  {
    forall e | e in rest
      ensures exists j :: 1 <= j < |items| && items[j].cqid == e.cqid
    {
      var i :| 0 <= i < |rest| && rest[i] == e;
      assert items[i + 1] == e;
    }
  }

  /** `delete_io_queues`, all SQs and then all CQs. It succeeds if and only if the IO pairs have
      nonzero ids and no two share an SQ; they may share CQs. The two tables agree after every
      step, and in the end only the admin pair is left. */
  method DeleteIoQueues(c: QueueController) returns (ok: bool, ghost steps: seq<(Table, Table)>)
    requires c.host != c.sim && Intact(c.host.View()) && Intact(c.sim.View())
             && SamePattern(c.host.View(), c.sim.View())
    modifies c.host, c.sim
    ensures (ok <==> Deletable(old(c.host.nvmeQueues))) && InStep(steps)
    ensures ok ==> c.host.View() == Table([old(c.host.nvmeQueues)[0]], [], [])
    ensures ok ==> c.sim.View() == Table([old(c.sim.nvmeQueues)[0]], [], [])
    ensures ok ==> |steps| == 2 * (|old(c.host.nvmeQueues)| - 1)
  {
    ghost var q, p := c.host.View(), c.sim.View();
    ok, steps := DeleteSqs(c);
    if !ok {
      return false, steps;
    }
    BothAllDeleted(q, p, c.host.View(), c.sim.View());
    ghost var more;
    ok, more := DeleteCqs(c, q.queues[0], p.queues[0], c.host.nvmeQueues[1..], c.sim.nvmeQueues[1..]);
    steps := steps + more;
    NothingLate(q.queues[0]);
    NothingLate(p.queues[0]);
  }

  lemma NothingLate(admin: Entry)
    ensures Late(admin, []) == Table([admin], [], [])
  {
    assert [admin] + [] == [admin];
  }

  lemma BothAllDeleted(q: Table, p: Table, host: Table, sim: Table)
    requires Intact(q) && Intact(p) && SamePattern(q, p) && Deletable(q.queues) && BothSqs(q, p, host, sim, |q.queues|)
    ensures |host.queues| == |sim.queues| == |q.queues|
    ensures BothLate(host, sim, q.queues[0], p.queues[0], host.queues[1..], sim.queues[1..])
    ensures forall i :: 0 <= i < |host.queues[1..]| ==> host.queues[1..][i].cqid != 0
  {
    assert forall i :: 0 <= i < |q.queues| ==> SameItem(q.queues[i], p.queues[i]);
    AllSqsDeleted(q, host);
    AllSqsDeleted(p, sim);
    assert forall i :: 0 <= i < |host.queues| ==> SameItem(host.queues[i], sim.queues[i]);
  }
}
