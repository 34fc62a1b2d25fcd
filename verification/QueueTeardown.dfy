/** Creating IO queue pairs, and what removing them does to a table step by step: the host's
    and the simulator's tables stay in step. */
module QueueTeardown {
  import opened Options
  import opened StatusCodes
  import opened QueueTable

  /** A queue pair: one SQ on one CQ. */
  datatype Pair = Pair(sq: Queue, cq: Queue)

  /** IO pairs with fresh ids: nonzero, no SQ id twice, no CQ id twice. */
  ghost predicate FreshIds(pairs: seq<Pair>) {
    && (forall i :: 0 <= i < |pairs| ==> pairs[i].sq.qid != 0 && pairs[i].cq.qid != 0)
    && (forall i, j :: 0 <= i < j < |pairs| ==>
          pairs[i].sq.qid != pairs[j].sq.qid && pairs[i].cq.qid != pairs[j].cq.qid)
  }

  function SqIds(pairs: seq<Pair>): (r: seq<nat>)
    ensures |r| == |pairs|
  {
    seq(|pairs|, i requires 0 <= i < |pairs| => pairs[i].sq.qid)
  }

  function CqIds(pairs: seq<Pair>): (r: seq<nat>)
    ensures |r| == |pairs|
  {
    seq(|pairs|, i requires 0 <= i < |pairs| => pairs[i].cq.qid)
  }

  function EntryOf(p: Pair, sqLive: bool): Entry {
    Entry(p.sq.qid, p.cq.qid, if sqLive then Some(p.sq) else None, Some(p.cq))
  }

  /** The admin pair followed by the IO pairs, the first k of them without their SQ. */
  function Items(admin: Pair, pairs: seq<Pair>, k: nat): (r: seq<Entry>)
    ensures |r| == |pairs| + 1
  {
    [EntryOf(admin, true)] + seq(|pairs|, i requires 0 <= i < |pairs| => EntryOf(pairs[i], k <= i))
  }

  /** The table once all pairs are created and the first k SQs are deleted. */
  function Stage(admin: Pair, pairs: seq<Pair>, k: nat): Table
    requires k <= |pairs|
  {
    Table(Items(admin, pairs, k), SqIds(pairs[k..]), CqIds(pairs))
  }

  /** The table once all SQs and the first m CQs are deleted: their items are gone. */
  function LateStage(admin: Pair, pairs: seq<Pair>, m: nat): Table
    requires m <= |pairs|
  {
    Table(Items(admin, pairs[m..], |pairs|), [], CqIds(pairs[m..]))
  }

  // ---- One operation on a table at a known stage ------------------------------------

  lemma {:induction false} PutFresh(queues: seq<Entry>, e: Entry)
    requires forall i :: 0 <= i < |queues| ==> queues[i].sqid != e.sqid
    ensures Put(queues, e) == queues + [e]
  {
    if queues != [] {
      PutFresh(queues[1..], e);
      assert queues == [queues[0]] + queues[1..];
    }
  }

  lemma {:induction false} ItemIds(admin: Pair, pairs: seq<Pair>)
    requires admin.sq.qid == 0 == admin.cq.qid && FreshIds(pairs)
    ensures IoSqids(Items(admin, pairs, 0)) == SqIds(pairs) && IoCqids(Items(admin, pairs, 0)) == CqIds(pairs)
    decreases |pairs|
  {
    var items := Items(admin, pairs, 0);
    if pairs == [] {
      assert items[..0] == [];
    } else {
      var n := |pairs| - 1;
      assert items[..n + 1] == Items(admin, pairs[..n], 0);
      ItemIds(admin, pairs[..n]);
      assert SqIds(pairs) == SqIds(pairs[..n]) + [pairs[n].sq.qid];
      assert CqIds(pairs) == CqIds(pairs[..n]) + [pairs[n].cq.qid];
    }
  }

  lemma StartStage(admin: Pair)
    requires admin.sq.qid == 0 == admin.cq.qid
    ensures Added(EMPTY, admin.sq, admin.cq) == Stage(admin, [], 0)
  {
    ItemIds(admin, []);
    assert Items(admin, [], 0) == [EntryOf(admin, true)];
    assert SqIds([]) == CqIds([]) == [];
  }

  lemma FreshIdsKept(pairs: seq<Pair>, p: Pair)
    requires FreshIds(pairs + [p])
    ensures forall i :: 0 <= i < |pairs| ==> pairs[i].sq.qid != p.sq.qid && pairs[i].cq.qid != p.cq.qid
  {
    var all := pairs + [p];
    assert all[|pairs|] == p;
    assert forall i :: 0 <= i < |pairs| ==> all[i] == pairs[i];
  }

  lemma AddStage(admin: Pair, pairs: seq<Pair>, p: Pair)
    requires admin.sq.qid == 0 == admin.cq.qid && FreshIds(pairs + [p])
    ensures Added(Stage(admin, pairs, 0), p.sq, p.cq) == Stage(admin, pairs + [p], 0)
  {
    var items := Items(admin, pairs, 0);
    FreshIdsKept(pairs, p);
    assert (pairs + [p])[|pairs|] == p;
    PutFresh(items, EntryOf(p, true));
    assert items + [EntryOf(p, true)] == Items(admin, pairs + [p], 0);
    ItemIds(admin, pairs + [p]);
    assert (pairs + [p])[0..] == pairs + [p];
  }

  /** `remove_sq` changes nothing before it reaches the one matching item, and takes the
      table to the next stage there. */
  lemma {:induction false} SqSteps(admin: Pair, pairs: seq<Pair>, k: nat, n: nat)
    requires admin.sq.qid == 0 && FreshIds(pairs) && k < |pairs| && n <= |pairs| + 1
    ensures RemovedSq(Stage(admin, pairs, k), pairs[k].sq.qid, n) ==
            Some(Stage(admin, pairs, if n <= k + 1 then k else k + 1))
  {
    if n > 0 {
      SqSteps(admin, pairs, k, n - 1);
      if n - 1 == k + 1 {
        NextStage(admin, pairs, k);
      }
    }
  }

  lemma NextStage(admin: Pair, pairs: seq<Pair>, k: nat)
    requires k < |pairs|
    ensures SqIds(pairs[k..]) != [] && SqIds(pairs[k..])[0] == pairs[k].sq.qid
    ensures SqIds(pairs[k..])[1..] == SqIds(pairs[k + 1..])
    ensures Items(admin, pairs, k)[k + 1].(sq := None) == EntryOf(pairs[k], false)
    ensures Items(admin, pairs, k)[k + 1 := EntryOf(pairs[k], false)] == Items(admin, pairs, k + 1)
  {
  }

  /** Items while the CQ of the first remaining pair is marked as deleted. */
  function HalfGone(admin: Pair, rest: seq<Pair>): Table
    requires rest != []
  {
    var items := Items(admin, rest, |rest|);
    Table(items[1 := items[1].(cq := None)], [], CqIds(rest[1..]))
  }

  lemma {:induction false} CqSteps(admin: Pair, rest: seq<Pair>, n: nat)
    requires admin.cq.qid == 0 && FreshIds(rest) && rest != [] && n <= |rest| + 1
    ensures var t := Table(Items(admin, rest, |rest|), [], CqIds(rest));
            MarkedCq(t, rest[0].cq.qid, n) == Some(if n <= 1 then t else HalfGone(admin, rest))
  {
    if n > 0 {
      CqSteps(admin, rest, n - 1);
      if n == 2 {
        assert CqIds(rest)[1..] == CqIds(rest[1..]);
      }
    }
  }

  lemma {:induction false} AliveAll(queues: seq<Entry>)
    requires forall i :: 0 <= i < |queues| ==> queues[i].sq.Some? || queues[i].cq.Some?
    ensures Alive(queues) == queues
  {
    if queues != [] {
      AliveAll(queues[..|queues| - 1]);
    }
  }

  lemma {:induction false} AliveAppend(a: seq<Entry>, b: seq<Entry>)
    ensures Alive(a + b) == Alive(a) + Alive(b)
  {
    if b == [] {
      assert a + b == a;
    } else {
      var n := |b| - 1;
      AliveAppend(a, b[..n]);
      assert (a + b)[..|a| + n] == a + b[..n];
    }
  }

  lemma AliveNone(dead: Entry)
    requires dead.sq.None? && dead.cq.None?
    ensures Alive([dead]) == []
  {
    assert [dead][..0] == [];
  }

  /** Purging drops the one item of which nothing is left. */
  lemma AliveAround(a: seq<Entry>, dead: Entry, b: seq<Entry>)
    requires dead.sq.None? && dead.cq.None?
    requires Alive(a) == a && Alive(b) == b
    ensures Alive(a + ([dead] + b)) == a + b
  {
    AliveNone(dead);
    calc {
      Alive(a + ([dead] + b));
      { AliveAppend(a, [dead] + b); }
      a + Alive([dead] + b);
      { AliveAppend([dead], b); }
      a + ([] + b);
      { assert [] + b == b; }
      a + b;
    }
  }

  /** Purging a half-deleted pair leaves the items of the remaining pairs. */
  lemma HalfGoneAlive(admin: Pair, rest: seq<Pair>)
    requires rest != []
    ensures Alive(HalfGone(admin, rest).queues) == Items(admin, rest[1..], |rest| - 1)
  {
    var left := Items(admin, rest[1..], |rest| - 1);
    var dead := EntryOf(rest[0], false).(cq := None);
    assert HalfGone(admin, rest).queues == left[..1] + ([dead] + left[1..]);
    AliveAll(left[..1]);
    AliveAll(left[1..]);
    AliveAround(left[..1], dead, left[1..]);
  }

  /** Once every SQ is deleted it does not matter which position that is counted from. */
  lemma AllDeleted(admin: Pair, rest: seq<Pair>, k: nat)
    requires |rest| <= k
    ensures Items(admin, rest, k) == Items(admin, rest, |rest|)
  {
  }

  /** `remove_cq` drops the pair whose SQ is already gone; its assertion does not fire. */
  lemma RemoveCqStage(admin: Pair, pairs: seq<Pair>, m: nat)
    requires admin.cq.qid == 0 && FreshIds(pairs) && m < |pairs|
    ensures RemovedCq(LateStage(admin, pairs, m), pairs[m].cq.qid) == Some(LateStage(admin, pairs, m + 1))
  {
    var rest := pairs[m..];
    AllDeleted(admin, rest, |pairs|);
    AllDeleted(admin, rest[1..], |pairs|);
    CqSteps(admin, rest, |rest| + 1);
    HalfGoneAlive(admin, rest);
    assert rest[1..] == pairs[m + 1..];
  }

  /** Deleting a CQ before its SQ is what trips the assertion of `remove_cq`. */
  lemma CqBeforeSq(admin: Pair, pairs: seq<Pair>, k: nat, m: nat)
    requires admin.cq.qid == 0 && FreshIds(pairs) && k <= m < |pairs|
    ensures RemovedCq(Stage(admin, pairs, k), pairs[m].cq.qid) == None
  {
    var t := Stage(admin, pairs, k);
    Untouched(admin, pairs, k, m, m + 1);
    assert MarkedCq(t, pairs[m].cq.qid, m + 2) == None;
    NoneStaysCq(t, pairs[m].cq.qid, m + 2, |t.queues|);
  }

  lemma {:induction false} Untouched(admin: Pair, pairs: seq<Pair>, k: nat, m: nat, n: nat)
    requires admin.cq.qid == 0 && FreshIds(pairs) && k <= m < |pairs| && n <= m + 1
    ensures var t := Stage(admin, pairs, k); MarkedCq(t, pairs[m].cq.qid, n) == Some(t)
  {
    if n > 0 {
      Untouched(admin, pairs, k, m, n - 1);
    }
  }

  // ---- Host and simulator -----------------------------------------------------------

  /** The same keys, and the same queues alive. */
  ghost predicate SamePattern(a: Table, b: Table) {
    SameItems(a.queues, b.queues) && a.ioSqids == b.ioSqids && a.ioCqids == b.ioCqids
  }

  ghost predicate SameItems(a: seq<Entry>, b: seq<Entry>) {
    |a| == |b| && forall i :: 0 <= i < |a| ==> SameItem(a[i], b[i])
  }

  ghost predicate SameItem(e: Entry, f: Entry) {
    e.sqid == f.sqid && e.cqid == f.cqid && (e.sq.Some? <==> f.sq.Some?) && (e.cq.Some? <==> f.cq.Some?)
  }

  lemma {:induction false} PutPattern(a: seq<Entry>, b: seq<Entry>, e: Entry, f: Entry)
    requires SameItems(a, b) && SameItem(e, f)
    ensures SameItems(Put(a, e), Put(b, f))
  {
    if a != [] {
      assert SameItem(a[0], b[0]);
      assert SameItems(a[1..], b[1..]);
      PutPattern(a[1..], b[1..], e, f);
    }
  }

  lemma {:induction false} SameIds(a: seq<Entry>, b: seq<Entry>)
    requires SameItems(a, b)
    ensures IoSqids(a) == IoSqids(b) && IoCqids(a) == IoCqids(b)
  {
    if a != [] {
      assert SameItem(a[|a| - 1], b[|b| - 1]);
      SameIds(a[..|a| - 1], b[..|b| - 1]);
    }
  }

  /** Adding pairs under the same ids keeps two tables in step, whatever the queues are. */
  lemma AddedPattern(a: Table, b: Table, sq: Queue, cq: Queue, other: Queue)
    requires SamePattern(a, b) && other.qid == cq.qid
    ensures SamePattern(Added(a, sq, cq), Added(b, sq, other))
  {
    var e, f := Entry(sq.qid, cq.qid, Some(sq), Some(cq)), Entry(sq.qid, cq.qid, Some(sq), Some(other));
    PutPattern(a.queues, b.queues, e, f);
    SameIds(Put(a.queues, e), Put(b.queues, f));
  }

  /** Where the first CQ of that id is. */
  lemma {:induction false} FirstCq(cqs: seq<Queue>, cqid: nat) returns (i: nat)
    requires exists j :: 0 <= j < |cqs| && cqs[j].qid == cqid
    ensures i < |cqs| && cqs[i].qid == cqid && forall j :: 0 <= j < i ==> cqs[j].qid != cqid
  {
    if cqs[0].qid == cqid {
      i := 0;
    } else {
      i := FirstCq(cqs[1..], cqid);
      i := i + 1;
    }
  }

  class QueueController {
    const host: QueueMgr
    const sim: QueueMgr
    /** CQs the simulator created, waiting for an SQ to use them; never pruned. */
    var completionQueues: seq<Queue>
    ghost const admin: Pair
    ghost var pairs: seq<Pair>
    /** Both tables after each pair created. */
    ghost var steps: seq<(Table, Table)>

    ghost predicate Valid()
      reads this, host, sim
    {
      && host != sim && admin.sq.qid == 0 == admin.cq.qid && FreshIds(pairs)
      && |completionQueues| == |pairs| && (forall i :: 0 <= i < |pairs| ==> completionQueues[i] == pairs[i].cq)
      && (forall i :: 0 <= i < |steps| ==> SamePattern(steps[i].0, steps[i].1))
    }

    /** Both sides know the admin queue pair. */
    constructor (asqEntries: nat, acqEntries: nat)
      ensures Valid() && pairs == [] && steps == [] && fresh(host) && fresh(sim)
      ensures host.View() == sim.View() == Stage(admin, [], 0)
    {
      host := new QueueMgr();
      sim := new QueueMgr();
      completionQueues := [];
      admin := Pair(Queue(0, asqEntries), Queue(0, acqEntries));
      pairs, steps := [], [];
      new;
      host.Add(Queue(0, asqEntries), Queue(0, acqEntries));
      sim.Add(Queue(0, asqEntries), Queue(0, acqEntries));
      StartStage(admin);
    }

    /** `NVSimCreateIOCompletionQueue`; a queue that is not physically contiguous is refused. */
    method HandleCreateCq(qsize: nat, qid: nat, pc: nat) returns (sc: nat)
      modifies this`completionQueues
      ensures pc == 1 ==>
                && sc == 0x00
                && completionQueues == old(completionQueues) + [Queue(qid, qsize + 1)]
      ensures pc != 1 ==> sc == 0x02 && completionQueues == old(completionQueues)
    {
      if pc != 1 {
        return INVALID_FIELD_IN_COMMAND;
      }
      completionQueues := completionQueues + [Queue(qid, qsize + 1)];
      sc := SUCCESSFUL_COMPLETION;
    }

    /** `NVSimCreateIOSubmissionQueue`: pairs the new SQ with the first CQ of that id. */
    method HandleCreateSq(qsize: nat, qid: nat, cqid: nat) returns (sc: nat)
      modifies sim
      ensures (forall i :: 0 <= i < |completionQueues| ==> completionQueues[i].qid != cqid) ==>
                sc == 0x02 && sim.View() == old(sim.View())
      ensures forall i :: 0 <= i < |completionQueues| && completionQueues[i].qid == cqid &&
                          (forall j :: 0 <= j < i ==> completionQueues[j].qid != cqid) ==>
                sc == 0x00 &&
                sim.View() == Added(old(sim.View()), Queue(qid, qsize + 1), completionQueues[i])
    {
      for i := 0 to |completionQueues|
        invariant forall j :: 0 <= j < i ==> completionQueues[j].qid != cqid
        invariant sim.View() == old(sim.View())
      {
        if completionQueues[i].qid == cqid {
          sim.Add(Queue(qid, qsize + 1), completionQueues[i]);
          return SUCCESSFUL_COMPLETION;
        }
      }
      sc := INVALID_FIELD_IN_COMMAND;
    }

    /** `NVSimDeleteIOSubmissionQueue`; false is one of its assertions or exceptions. */
    method HandleDeleteSq(qid: nat) returns (ok: bool)
      modifies sim
      ensures var r := RemovedSq(old(sim.View()), qid, |old(sim.nvmeQueues)|);
              (ok <==> qid != 0 && r.Some?) && (ok ==> sim.View() == r.value)
    {
      if qid == 0 {
        return false;
      }
      ok := sim.RemoveSq(qid);
    }

    /** `NVSimDeleteIOCompletionQueue`; false is one of its assertions or exceptions. */
    method HandleDeleteCq(qid: nat) returns (ok: bool)
      modifies sim
      ensures var r := RemovedCq(old(sim.View()), qid);
              (ok <==> qid != 0 && r.Some?) && (ok ==> sim.View() == r.value)
    {
      if qid == 0 {
        return false;
      }
      ok := sim.RemoveCq(qid);
    }

    /** `create_io_queue_pair`, whatever the ids: succeeds exactly for contiguous queue memory.
        The host's table gets the new CQ, the simulator's the first CQ ever created under that
        id, at index `at`; the two tables stay in step. */
    method CreateIoQueuePair(cqEntries: nat, cqId: nat, cqPc: nat, sqEntries: nat, sqId: nat)
      returns (ok: bool, ghost at: nat)
      requires host != sim && 0 < cqEntries && 0 < sqEntries
      modifies this`completionQueues, host, sim
      ensures ok <==> cqPc == 1
      ensures !ok ==>
                && host.View() == old(host.View()) && sim.View() == old(sim.View())
                && completionQueues == old(completionQueues)
      ensures ok ==> completionQueues == old(completionQueues) + [Queue(cqId, cqEntries)]
      ensures ok ==> at < |completionQueues| && completionQueues[at].qid == cqId
                     && forall j :: 0 <= j < at ==> completionQueues[j].qid != cqId
      ensures ok ==> host.View() == Added(old(host.View()), Queue(sqId, sqEntries), Queue(cqId, cqEntries))
                     && sim.View() == Added(old(sim.View()), Queue(sqId, sqEntries), completionQueues[at])
      ensures ok && SamePattern(old(host.View()), old(sim.View())) ==> SamePattern(host.View(), sim.View())
    {
      at := 0;
      var sc := HandleCreateCq(cqEntries - 1, cqId, cqPc);
      if sc != SUCCESSFUL_COMPLETION {
        return false, at;
      }
      assert completionQueues[|old(completionQueues)|].qid == cqId;
      at := FirstCq(completionQueues, cqId);
      sc := HandleCreateSq(sqEntries - 1, sqId, cqId);
      if sc != SUCCESSFUL_COMPLETION {
        return false, at;
      }
      host.Add(Queue(sqId, sqEntries), Queue(cqId, cqEntries));
      if SamePattern(old(host.View()), old(sim.View())) {
        AddedPattern(old(host.View()), old(sim.View()), Queue(sqId, sqEntries), Queue(cqId, cqEntries),
            completionQueues[at]);
      }
      ok := true;
    }

    /** The same with fresh ids: both tables gain the same pair. */
    method CreateFreshPair(cqEntries: nat, cqId: nat, cqPc: nat, sqEntries: nat, sqId: nat) returns (ok: bool)
      requires Valid() && 0 < cqEntries && 0 < sqEntries
      requires FreshIds(pairs + [Pair(Queue(sqId, sqEntries), Queue(cqId, cqEntries))])
      requires host.View() == sim.View() == Stage(admin, pairs, 0)
      modifies this, host, sim
      ensures Valid() && (ok <==> cqPc == 1)
      ensures pairs == if ok then old(pairs) + [Pair(Queue(sqId, sqEntries), Queue(cqId, cqEntries))] else old(pairs)
      ensures host.View() == sim.View() == Stage(admin, pairs, 0)
      ensures steps == if ok then old(steps) + [(host.View(), sim.View())] else old(steps)
    {
      ghost var p := Pair(Queue(sqId, sqEntries), Queue(cqId, cqEntries));
      AddStage(admin, pairs, p);
      FreshIdsKept(pairs, p);
      ghost var at;
      ok, at := CreateIoQueuePair(cqEntries, cqId, cqPc, sqEntries, sqId);
      if ok {
        assert at == |pairs|;
        pairs := pairs + [p];
        steps := steps + [(host.View(), sim.View())];
      }
    }
  }
}
