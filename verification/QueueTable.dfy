/** `QueueMgr`: the table of queue pairs that host and simulator each keep. */
module QueueTable {
  import opened Options

  /** A queue object, as far as the table looks at it. */
  datatype Queue = Queue(qid: nat, entries: nat)

  /** One item of the `nvme_queues` dictionary; None stands for a deleted queue. */
  datatype Entry = Entry(sqid: nat, cqid: nat, sq: Option<Queue>, cq: Option<Queue>)

  /** The dictionary in insertion order, and the two id lists. */
  datatype Table = Table(queues: seq<Entry>, ioSqids: seq<nat>, ioCqids: seq<nat>)

  const EMPTY := Table([], [], [])

  // ---- What the operations compute --------------------------------------------------

  /** Assignment to a dictionary key: replaces in place or appends. */
  function Put(queues: seq<Entry>, e: Entry): (r: seq<Entry>)
    ensures r != []
  {
    if queues == [] then [e]
    else if queues[0].sqid == e.sqid && queues[0].cqid == e.cqid then [e] + queues[1..]
    else [queues[0]] + Put(queues[1..], e)
  }

  predicate SameKey(a: Entry, b: Entry) {
    a.sqid == b.sqid && a.cqid == b.cqid
  }

  /** What a dictionary keeps: no key twice. */
  ghost predicate KeysDistinct(queues: seq<Entry>) {
    forall i, j :: 0 <= i < j < |queues| ==> !SameKey(queues[i], queues[j])
  }

  /** A new key is appended. A key that is there keeps its place and takes the new queues, and
      no other item changes. */
  lemma {:induction false} PutExact(queues: seq<Entry>, e: Entry)
    requires KeysDistinct(queues)
    ensures (forall i :: 0 <= i < |queues| ==> !SameKey(queues[i], e)) ==> Put(queues, e) == queues + [e]
    ensures forall k :: 0 <= k < |queues| && SameKey(queues[k], e) ==> Put(queues, e) == queues[k := e]
    ensures KeysDistinct(Put(queues, e))
  {
    if queues != [] && !SameKey(queues[0], e) {
      PutExact(queues[1..], e);
      forall k | 0 <= k < |queues| && SameKey(queues[k], e)
        ensures Put(queues, e) == queues[k := e]
      {
        assert queues[1..][k - 1] == queues[k];
        assert queues[k := e] == [queues[0]] + queues[1..][k - 1 := e];
      }
      assert forall i :: 0 <= i < |queues[1..]| ==> queues[1..][i] == queues[i + 1];
    }
  }

  /** SQ ids and CQ ids of the pairs with both ids nonzero. */
  function IoSqids(queues: seq<Entry>): seq<nat> {
    if queues == [] then []
    else
      var e := queues[|queues| - 1];
      IoSqids(queues[..|queues| - 1]) + (if e.sqid != 0 && e.cqid != 0 then [e.sqid] else [])
  }

  function IoCqids(queues: seq<Entry>): seq<nat> {
    if queues == [] then []
    else
      var e := queues[|queues| - 1];
      IoCqids(queues[..|queues| - 1]) + (if e.sqid != 0 && e.cqid != 0 then [e.cqid] else [])
  }

  function Added(t: Table, sq: Queue, cq: Queue): Table {
    var queues := Put(t.queues, Entry(sq.qid, cq.qid, Some(sq), Some(cq)));
    Table(queues, IoSqids(queues), IoCqids(queues))
  }

  /** `list.remove`; None is its ValueError. */
  function Remove(xs: seq<nat>, x: nat): Option<seq<nat>> {
    if xs == [] then None
    else if xs[0] == x then Some(xs[1..])
    else
      var r := Remove(xs[1..], x);
      if r.None? then None else Some([xs[0]] + r.value)
  }

  /** `remove_sq` over the first n items; None when an id is missing from the list. */
  function RemovedSq(t: Table, sqid: nat, n: nat): Option<Table>
    requires n <= |t.queues|
    ensures RemovedSq(t, sqid, n).Some? ==> |RemovedSq(t, sqid, n).value.queues| == |t.queues|
  {
    if n == 0 then Some(t)
    else
      var r := RemovedSq(t, sqid, n - 1);
      if r.None? || t.queues[n - 1].sqid != sqid then r
      else
        var marked := r.value.(queues := r.value.queues[n - 1 := t.queues[n - 1].(sq := None)]);
        if sqid == 0 then Some(marked)
        else
          var ids := Remove(marked.ioSqids, sqid);
          if ids.None? then None else Some(marked.(ioSqids := ids.value))
  }

  /** The marking loop of `remove_cq` over the first n items; None also when the SQ of a
      matching pair is still alive. */
  function MarkedCq(t: Table, cqid: nat, n: nat): Option<Table>
    requires n <= |t.queues|
    ensures MarkedCq(t, cqid, n).Some? ==> |MarkedCq(t, cqid, n).value.queues| == |t.queues|
  {
    if n == 0 then Some(t)
    else
      var r := MarkedCq(t, cqid, n - 1);
      if r.None? || t.queues[n - 1].cqid != cqid then r
      else if t.queues[n - 1].sq.Some? then None
      else
        var marked := r.value.(queues := r.value.queues[n - 1 := t.queues[n - 1].(cq := None)]);
        if cqid == 0 then Some(marked)
        else
          var ids := Remove(marked.ioCqids, cqid);
          if ids.None? then None else Some(marked.(ioCqids := ids.value))
  }

  /** Pairs of which at least one queue is left. */
  function Alive(queues: seq<Entry>): seq<Entry> {
    if queues == [] then []
    else Alive(queues[..|queues| - 1]) + (var e := queues[|queues| - 1]; if e.sq.None? && e.cq.None? then [] else [e])
  }

  function RemovedCq(t: Table, cqid: nat): Option<Table> {
    var r := MarkedCq(t, cqid, |t.queues|);
    if r.None? then None else Some(r.value.(queues := Alive(r.value.queues)))
  }

  // ---- What the removals come to ----------------------------------------------------

  /** How often x is listed. */
  function Copies(xs: seq<nat>, x: nat): nat {
    if xs == [] then 0 else (if xs[0] == x then 1 else 0) + Copies(xs[1..], x)
  }

  /** The list without x, order kept. */
  function Others(xs: seq<nat>, x: nat): seq<nat> {
    if xs == [] then [] else (if xs[0] == x then [] else [xs[0]]) + Others(xs[1..], x)
  }

  lemma {:induction false} RemoveExact(xs: seq<nat>, x: nat)
    ensures Remove(xs, x).Some? <==> Copies(xs, x) > 0
    ensures Remove(xs, x).Some? ==>
              var r := Remove(xs, x).value; Copies(r, x) == Copies(xs, x) - 1 && Others(r, x) == Others(xs, x)
  {
    if xs != [] && xs[0] != x {
      RemoveExact(xs[1..], x);
      var tail := Remove(xs[1..], x);
      if tail.Some? {
        assert ([xs[0]] + tail.value)[1..] == tail.value;
      }
    }
  }

  /** It is the first one listed that goes. */
  lemma {:induction false} RemoveFirst(xs: seq<nat>, x: nat, k: nat)
    requires k < |xs| && xs[k] == x && x !in xs[..k]
    ensures Remove(xs, x) == Some(xs[..k] + xs[k + 1..])
  {
    if k == 0 {
      assert xs[..0] + xs[1..] == xs[1..];
    } else {
      var rest := xs[1..];
      var front := rest[..k - 1];
      assert xs[..k] == [xs[0]] + front && rest[k..] == xs[k + 1..];
      RemoveFirst(rest, x, k - 1);
      assert xs[..k] + xs[k + 1..] == [xs[0]] + (front + xs[k + 1..]);
    }
  }

  /** A pair stays listed as long as one of its queues is left. */
  lemma {:induction false} AliveIs(queues: seq<Entry>, e: Entry)
    ensures e in Alive(queues) <==> e in queues && (e.sq.Some? || e.cq.Some?)
  {
    if queues != [] {
      var n := |queues| - 1;
      AliveIs(queues[..n], e);
      assert queues == queues[..n] + [queues[n]];
    }
  }

  /** The id lists are those of the IO pairs, one id a pair in table order. */
  lemma {:induction false} IoIdsAre(queues: seq<Entry>, k: nat)
    requires k < |queues|
    ensures var io, i := queues[k].sqid != 0 && queues[k].cqid != 0, |IoSqids(queues[..k])|;
            && |IoCqids(queues[..k])| == i
            && (io ==> i < |IoSqids(queues)| == |IoCqids(queues)|)
            && (io ==> IoSqids(queues)[i] == queues[k].sqid && IoCqids(queues)[i] == queues[k].cqid)
    ensures |IoSqids(queues[..k + 1])| == |IoSqids(queues[..k])|
            + (if queues[k].sqid != 0 && queues[k].cqid != 0 then 1 else 0)
    ensures |IoSqids([])| == 0
  {
    SameLengths(queues);
    SameLengths(queues[..k]);
    assert queues[..k + 1][..k] == queues[..k];
    if k < |queues| - 1 {
      IoIdsAre(queues[..|queues| - 1], k);
      assert queues[..|queues| - 1][..k] == queues[..k];
    }
  }

  lemma {:induction false} SameLengths(queues: seq<Entry>)
    ensures |IoSqids(queues)| == |IoCqids(queues)|
  {
    if queues != [] {
      SameLengths(queues[..|queues| - 1]);
    }
  }

  /** Pairs of the given SQ, or CQ, among the first n. */
  function PairsOfSq(queues: seq<Entry>, sqid: nat, n: nat): nat
    requires n <= |queues|
  {
    if n == 0 then 0 else PairsOfSq(queues, sqid, n - 1) + (if queues[n - 1].sqid == sqid then 1 else 0)
  }

  function PairsOfCq(queues: seq<Entry>, cqid: nat, n: nat): nat
    requires n <= |queues|
  {
    if n == 0 then 0 else PairsOfCq(queues, cqid, n - 1) + (if queues[n - 1].cqid == cqid then 1 else 0)
  }

  /** The pairs with the SQ, or the CQ, of that id gone among the first n; nothing else changes. */
  function WithoutSq(queues: seq<Entry>, sqid: nat, n: nat): seq<Entry> {
    seq(|queues|, i requires 0 <= i < |queues| =>
      if i < n && queues[i].sqid == sqid then queues[i].(sq := None) else queues[i])
  }

  function WithoutCq(queues: seq<Entry>, cqid: nat, n: nat): seq<Entry> {
    seq(|queues|, i requires 0 <= i < |queues| =>
      if i < n && queues[i].cqid == cqid then queues[i].(cq := None) else queues[i])
  }

  /** The id is listed k times less, and nothing else about the list changes. */
  predicate Dropped(before: seq<nat>, after: seq<nat>, x: nat, k: nat) {
    Copies(after, x) + k == Copies(before, x) && Others(after, x) == Others(before, x)
  }

  /** `remove_sq` takes the SQ out of every pair of that id and out of no other, and drops the
      id once per pair. It fails exactly when an IO id is listed less often than that. */
  lemma {:induction false} RemovedSqExact(t: Table, sqid: nat, n: nat)
    requires n <= |t.queues|
    ensures var r, k := RemovedSq(t, sqid, n), if sqid == 0 then 0 else PairsOfSq(t.queues, sqid, n);
            && (r.Some? <==> k <= Copies(t.ioSqids, sqid))
            && (r.Some? ==> r.value.queues == WithoutSq(t.queues, sqid, n) && r.value.ioCqids == t.ioCqids)
            && (r.Some? ==> Dropped(t.ioSqids, r.value.ioSqids, sqid, k))
  {
    if n > 0 {
      RemovedSqExact(t, sqid, n - 1);
      var r := RemovedSq(t, sqid, n - 1);
      if r.Some? && t.queues[n - 1].sqid == sqid {
        RemoveExact(r.value.ioSqids, sqid);
      }
      WithoutSqStep(t.queues, sqid, n);
    } else {
      assert WithoutSq(t.queues, sqid, 0) == t.queues;
    }
  }

  lemma WithoutSqStep(queues: seq<Entry>, sqid: nat, n: nat)
    requires 0 < n <= |queues|
    ensures WithoutSq(queues, sqid, n) ==
            if queues[n - 1].sqid == sqid then WithoutSq(queues, sqid, n - 1)[n - 1 := queues[n - 1].(sq := None)]
            else WithoutSq(queues, sqid, n - 1)
  {
  }

  /** The same for the marking loop of `remove_cq`, which also fails on any pair of that id
      whose SQ is alive. */
  lemma {:induction false} MarkedCqExact(t: Table, cqid: nat, n: nat)
    requires n <= |t.queues|
    ensures var r, k := MarkedCq(t, cqid, n), if cqid == 0 then 0 else PairsOfCq(t.queues, cqid, n);
            && (r.Some? <==> k <= Copies(t.ioCqids, cqid) && SqsGone(t.queues, cqid, n))
            && (r.Some? ==> r.value.queues == WithoutCq(t.queues, cqid, n) && r.value.ioSqids == t.ioSqids)
            && (r.Some? ==> Dropped(t.ioCqids, r.value.ioCqids, cqid, k))
  {
    if n > 0 {
      MarkedCqExact(t, cqid, n - 1);
      var r := MarkedCq(t, cqid, n - 1);
      if r.Some? && t.queues[n - 1].cqid == cqid {
        RemoveExact(r.value.ioCqids, cqid);
      }
      WithoutCqStep(t.queues, cqid, n);
    } else {
      assert WithoutCq(t.queues, cqid, 0) == t.queues;
    }
  }

  lemma WithoutCqStep(queues: seq<Entry>, cqid: nat, n: nat)
    requires 0 < n <= |queues|
    ensures WithoutCq(queues, cqid, n) ==
            if queues[n - 1].cqid == cqid then WithoutCq(queues, cqid, n - 1)[n - 1 := queues[n - 1].(cq := None)]
            else WithoutCq(queues, cqid, n - 1)
  {
  }

  /** What `remove_sq` does to the table, and when it fails. */
  predicate SqRemoved(t: Table, sqid: nat, ok: bool, t': Table) {
    var n := |t.queues|;
    var k := if sqid == 0 then 0 else PairsOfSq(t.queues, sqid, n);
    && (ok <==> k <= Copies(t.ioSqids, sqid))
    && (ok ==> t'.queues == WithoutSq(t.queues, sqid, n) && t'.ioCqids == t.ioCqids)
    && (ok ==> Dropped(t.ioSqids, t'.ioSqids, sqid, k))
  }

  lemma RemovedSqMeans(t: Table, sqid: nat)
    ensures var r := RemovedSq(t, sqid, |t.queues|);
            if r.Some? then SqRemoved(t, sqid, true, r.value) else forall t' :: SqRemoved(t, sqid, false, t')
  {
    RemovedSqExact(t, sqid, |t.queues|);
  }

  /** What `remove_cq` does to the table, and when it fails. */
  predicate CqRemoved(t: Table, cqid: nat, ok: bool, t': Table) {
    var n := |t.queues|;
    var k := if cqid == 0 then 0 else PairsOfCq(t.queues, cqid, n);
    && (ok <==> k <= Copies(t.ioCqids, cqid) && SqsGone(t.queues, cqid, n))
    && (ok ==> t'.queues == Alive(WithoutCq(t.queues, cqid, n)) && t'.ioSqids == t.ioSqids)
    && (ok ==> Dropped(t.ioCqids, t'.ioCqids, cqid, k))
  }

  lemma RemovedCqMeans(t: Table, cqid: nat)
    ensures var r := RemovedCq(t, cqid);
            if r.Some? then CqRemoved(t, cqid, true, r.value) else forall t' :: CqRemoved(t, cqid, false, t')
  {
    MarkedCqExact(t, cqid, |t.queues|);
  }

  /** No pair of that CQ has its SQ left, among the first n. */
  predicate SqsGone(queues: seq<Entry>, cqid: nat, n: nat)
    requires n <= |queues|
  {
    forall i :: 0 <= i < n && queues[i].cqid == cqid ==> queues[i].sq.None?
  }

  // ---- The object -------------------------------------------------------------------

  class QueueMgr {
    var nvmeQueues: seq<Entry>
    var ioSqids: seq<nat>
    var ioSqidIndex: nat
    var ioCqids: seq<nat>

    function View(): Table
      reads this
    {
      Table(nvmeQueues, ioSqids, ioCqids)
    }

    constructor ()
      ensures View() == EMPTY && ioSqidIndex == 0
    {
      nvmeQueues, ioSqids, ioSqidIndex, ioCqids := [], [], 0, [];
    }

    method Add(sq: Queue, cq: Queue)
      modifies this
      ensures View() == Added(old(View()), sq, cq) && ioSqidIndex == old(ioSqidIndex)
    {
      nvmeQueues := Put(nvmeQueues, Entry(sq.qid, cq.qid, Some(sq), Some(cq)));
      ioSqids, ioCqids := [], [];
      for i := 0 to |nvmeQueues|
        invariant nvmeQueues == old(Added(View(), sq, cq).queues) && ioSqidIndex == old(ioSqidIndex)
        invariant ioSqids == IoSqids(nvmeQueues[..i]) && ioCqids == IoCqids(nvmeQueues[..i])
      {
        var e := nvmeQueues[i];
        assert nvmeQueues[..i + 1][..i] == nvmeQueues[..i];
        if e.sqid != 0 && e.cqid != 0 {
          ioSqids := ioSqids + [e.sqid];
          ioCqids := ioCqids + [e.cqid];
        }
      }
      assert nvmeQueues[..|nvmeQueues|] == nvmeQueues;
    }

    /** `remove_sq`; false is an exception, which leaves the loop where it was. */
    method RemoveSq(sqid: nat) returns (ok: bool)
      modifies this
      ensures var r := RemovedSq(old(View()), sqid, |old(nvmeQueues)|);
              (ok <==> r.Some?) && (ok ==> View() == r.value)
      ensures SqRemoved(old(View()), sqid, ok, View())
      ensures ioSqidIndex == old(ioSqidIndex)
    {
      ghost var before := View();
      RemovedSqMeans(before, sqid);
      for i := 0 to |nvmeQueues|
        invariant ioSqidIndex == old(ioSqidIndex)
        invariant RemovedSq(before, sqid, i) == Some(View())
        invariant forall j :: i <= j < |nvmeQueues| ==> nvmeQueues[j] == before.queues[j]
      {
        ghost var next := RemovedSq(before, sqid, i + 1);
        if nvmeQueues[i].sqid == sqid {
          nvmeQueues := nvmeQueues[i := nvmeQueues[i].(sq := None)];
          if sqid != 0 {
            var ids := Remove(ioSqids, sqid);
            if ids.None? {
              assert next.None?;
              NoneStays(before, sqid, i + 1, |before.queues|);
              return false;
            }
            ioSqids := ids.value;
          }
        }
      }
      ok := true;
    }

    /** `remove_cq`; false is its assertion or an exception. */
    method RemoveCq(cqid: nat) returns (ok: bool)
      modifies this
      ensures var r := RemovedCq(old(View()), cqid);
              (ok <==> r.Some?) && (ok ==> View() == r.value)
      ensures CqRemoved(old(View()), cqid, ok, View())
      ensures ioSqidIndex == old(ioSqidIndex)
    {
      RemovedCqMeans(View(), cqid);
      ok := MarkCq(cqid);
      if ok {
        Purge();
      }
    }

    /** Its first loop, which marks the CQ of every matching pair as gone. */
    method MarkCq(cqid: nat) returns (ok: bool)
      modifies this
      ensures var r := MarkedCq(old(View()), cqid, |old(nvmeQueues)|);
              (ok <==> r.Some?) && (ok ==> View() == r.value)
      ensures ioSqidIndex == old(ioSqidIndex)
    {
      ghost var before := View();
      for i := 0 to |nvmeQueues|
        invariant ioSqidIndex == old(ioSqidIndex)
        invariant MarkedCq(before, cqid, i) == Some(View())
        invariant forall j :: i <= j < |nvmeQueues| ==> nvmeQueues[j] == before.queues[j]
      {
        if nvmeQueues[i].cqid == cqid {
          if nvmeQueues[i].sq.Some? {
            NoneStaysCq(before, cqid, i + 1, |before.queues|);
            return false;
          }
          nvmeQueues := nvmeQueues[i := nvmeQueues[i].(cq := None)];
          if cqid != 0 {
            var ids := Remove(ioCqids, cqid);
            if ids.None? {
              NoneStaysCq(before, cqid, i + 1, |before.queues|);
              return false;
            }
            ioCqids := ids.value;
          }
        }
      }
      ok := true;
    }

    /** Drops the pairs of which nothing is left. */
    method Purge()
      modifies this`nvmeQueues
      ensures nvmeQueues == Alive(old(nvmeQueues))
    {
      var left: seq<Entry> := [];
      for i := 0 to |nvmeQueues|
        invariant left == Alive(nvmeQueues[..i])
      {
        assert nvmeQueues[..i + 1][..i] == nvmeQueues[..i];
        if nvmeQueues[i].sq.Some? || nvmeQueues[i].cq.Some? {
          left := left + [nvmeQueues[i]];
        }
      }
      assert nvmeQueues[..|nvmeQueues|] == nvmeQueues;
      nvmeQueues := left;
    }

    /** `next_iosq_id`: round robin over the IO submission queues; false is an IndexError,
        possible only when queues were removed since the index was last moved. */
    method NextIosqId() returns (ok: bool, r: Option<nat>)
      modifies this`ioSqidIndex
      ensures ok <==> ioSqids == [] || old(ioSqidIndex) < |ioSqids|
      ensures ioSqids == [] || !ok ==> r == None && ioSqidIndex == old(ioSqidIndex)
      ensures ok && ioSqids != [] ==>
                r == Some(ioSqids[old(ioSqidIndex)]) && ioSqidIndex == (old(ioSqidIndex) + 1) % |ioSqids|
    {
      r := None;
      if |ioSqids| > 0 {
        if ioSqidIndex >= |ioSqids| {
          return false, None;
        }
        r := Some(ioSqids[ioSqidIndex]);
        ioSqidIndex := ioSqidIndex + 1;
        if ioSqidIndex + 1 > |ioSqids| {
          ioSqidIndex := 0;
        }
      }
      ok := true;
    }
  }

  lemma {:induction false} NoneStays(t: Table, sqid: nat, i: nat, n: nat)
    requires i <= n <= |t.queues| && RemovedSq(t, sqid, i).None?
    ensures RemovedSq(t, sqid, n).None?
  {
    if i < n {
      NoneStays(t, sqid, i, n - 1);
    }
  }

  lemma {:induction false} NoneStaysCq(t: Table, cqid: nat, i: nat, n: nat)
    requires i <= n <= |t.queues| && MarkedCq(t, cqid, i).None?
    ensures MarkedCq(t, cqid, n).None?
  {
    if i < n {
      NoneStaysCq(t, cqid, i, n - 1);
    }
  }
}
