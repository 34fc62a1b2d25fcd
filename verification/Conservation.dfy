/** What the queue-pair protocol guarantees, over every run and any interleaving of host
    posts, device fetches and completions, and host polls. */
module Conservation {
  import opened Ring
  import opened Protocol
  import opened ProtocolSafety

  // ---- Runs -------------------------------------------------------------------------

  datatype RunResult = Ended(s: State, h: Hist) | Crashed(fault: Fault) | NotLegal

  /** Any interleaving of host calls and device steps, up to the first crash. */
  ghost function Run(s: State, h: Hist, actions: seq<Action>): RunResult
    requires Wired(s) && Tracks(s, h)
    decreases |actions|
  {
    if actions == [] then Ended(s, h)
    else if !Legal(s, actions[0]) then NotLegal
    else
      var step := Step(s, actions[0]);
      if step.Crash? then Crashed(step.fault)
      else
        var h' := Record(s, h, actions[0]);
        StepWired(s, h, actions[0]);
        Run(step.s, h', actions[1..])
  }

  /** No post of the run goes through under a CID that its SQ has outstanding. */
  ghost predicate Fresh(s: State, h: Hist, actions: seq<Action>)
    requires Wired(s) && Tracks(s, h)
    decreases |actions|
  {
    if actions == [] || !Legal(s, actions[0]) then true
    else if !Allowed(s, actions[0]) then false
    else if Step(s, actions[0]).Crash? then true
    else
      StepWired(s, h, actions[0]);
      Fresh(Step(s, actions[0]).s, Record(s, h, actions[0]), actions[1..])
  }

  /** Freshly created queues: doorbells and private registers 0, phase bits zeroed, phase 1. */
  ghost predicate Started(s: State) {
    && Wired(s) && s.outstanding == map[] && s.flight.Idle?
    && s.cids.init == s.cids.value < s.cids.max
    && (forall q :: 0 <= q < |s.sqs| ==> s.sqs[q].tail == s.sqs[q].hostHead == s.sqs[q].devHead == 0)
    && (forall c :: 0 <= c < |s.cqs| ==> s.cqs[c].head == s.cqs[c].devTail == 0 && s.cqs[c].phase == 1)
    && (forall c, j :: 0 <= c < |s.cqs| && 0 <= j < s.cqs[c].entries ==> s.cqs[c].slots[j].p == 0)
  }

  ghost function NoHist(s: State): Hist {
    Hist(seq(|s.sqs|, _ => []), seq(|s.sqs|, _ => []), 0, seq(|s.cqs|, _ => []), seq(|s.cqs|, _ => 0))
  }

  lemma StartInv(s: State)
    requires Started(s)
    ensures QueuesInv(s, NoHist(s)) && OutInv(s, NoHist(s)) && CidInv(s, NoHist(s))
  {
    var h := NoHist(s);
    forall c | 0 <= c < |s.cqs|
      ensures CqInv(s.cqs[c], h.comps[c], h.consumed[c])
    {
      DivModUnique(0, s.cqs[c].entries, 0, 0);
    }
  }

  lemma {:induction false} RunSound(s: State, h: Hist, actions: seq<Action>)
    requires Sound(s, h)
    ensures var r := Run(s, h, actions);
            r != Crashed(CommandMismatch) && (r.Ended? ==> Sound(r.s, r.h))
    decreases |actions|
  {
    if actions != [] && Legal(s, actions[0]) {
      StepSound(s, h, actions[0]);
      if !Step(s, actions[0]).Crash? {
        RunSound(Step(s, actions[0]).s, Record(s, h, actions[0]), actions[1..]);
      }
    }
  }

  lemma {:induction false} RunRoom(s: State, h: Hist, actions: seq<Action>)
    requires Sound(s, h) && RoomInv(s)
    ensures var r := Run(s, h, actions);
            r != Crashed(CqFull) && (r.Ended? ==> Wired(r.s) && RoomInv(r.s))
    decreases |actions|
  {
    if actions != [] && Legal(s, actions[0]) {
      StepRoom(s, h, actions[0]);
      if !Step(s, actions[0]).Crash? {
        StepSound(s, h, actions[0]);
        RunRoom(Step(s, actions[0]).s, Record(s, h, actions[0]), actions[1..]);
      }
    }
  }

  lemma {:induction false} RunOut(s: State, h: Hist, actions: seq<Action>)
    requires Sound(s, h) && OutInv(s, h) && Fresh(s, h, actions)
    ensures var r := Run(s, h, actions);
            r != Crashed(UnknownCommand) && (r.Ended? ==> Wired(r.s) && Tracks(r.s, r.h) && OutInv(r.s, r.h))
    decreases |actions|
  {
    if actions != [] && Legal(s, actions[0]) {
      StepOut(s, h, actions[0]);
      if !Step(s, actions[0]).Crash? {
        StepSound(s, h, actions[0]);
        RunOut(Step(s, actions[0]).s, Record(s, h, actions[0]), actions[1..]);
      }
    }
  }

  /** Every run from fresh queues, of any sizes and under any CIDs, keeps the queue invariant
      and never mismatches a CID or SQID. With room in the CQs it never fires "CQ FULL";
      without CID reuse it never looks up an unknown command. */
  lemma RunsAreSafe(s: State, actions: seq<Action>)
    requires Started(s)
    ensures QueuesInv(s, NoHist(s))
    ensures var r := Run(s, NoHist(s), actions);
            && r != Crashed(CommandMismatch)
            && (r.Ended? ==> Sound(r.s, r.h))
            && (RoomInv(s) ==> r != Crashed(CqFull))
            && (Fresh(s, NoHist(s), actions) ==> r != Crashed(UnknownCommand) && (r.Ended? ==> OutInv(r.s, r.h)))
            && (RoomInv(s) && Fresh(s, NoHist(s), actions) && r.Ended? ==> Inv(r.s, r.h))
  {
    StartInv(s);
    OutKeys(s, NoHist(s));
    RunSound(s, NoHist(s), actions);
    if RoomInv(s) {
      RunRoom(s, NoHist(s), actions);
    }
    if Fresh(s, NoHist(s), actions) {
      RunOut(s, NoHist(s), actions);
    }
  }

  // ---- Exactly-once conservation ----------------------------------------------------

  /** CIDs of the next n entries of the completion ring from pos that carry SQID q. */
  function CqWalk(cq: Cq, pos: nat, n: nat, q: nat): seq<nat>
    requires CqWired(cq) && pos < cq.entries
    decreases n
  {
    if n == 0 then []
    else (if cq.slots[pos].sqid == q then [cq.slots[pos].cid] else []) + CqWalk(cq, Advance(pos, cq.entries), n - 1, q)
  }

  /** CIDs of the next n entries of the submission ring from pos. */
  function SqWalk(sq: Sq, pos: nat, n: nat): seq<nat>
    requires SqWired(sq) && pos < sq.entries
    decreases n
  {
    if n == 0 then [] else [sq.slots[pos].cid] + SqWalk(sq, Advance(pos, sq.entries), n - 1)
  }

  /** The command of q the device has fetched and not completed. */
  ghost function InFlight(s: State, q: nat): seq<nat>
    requires Wired(s) && q < |s.sqs|
  {
    if s.flight.Busy? && s.flight.q == q then [s.sqs[q].slots[s.flight.slot].cid] else []
  }

  ghost function CidsOf(posted: seq<Sqe>): seq<nat> {
    seq(|posted|, i requires 0 <= i < |posted| => posted[i].cid)
  }

  lemma {:induction false} SqWalkIsPosted(sq: Sq, posted: seq<Sqe>, fetched: nat, consumed: nat, i: nat)
    requires SqInv(sq, posted, fetched, consumed) && consumed <= i <= |posted|
    ensures SqWalk(sq, i % sq.entries, |posted| - i) == CidsOf(posted[i..])
    decreases |posted| - i
  {
    if i < |posted| {
      SqWalkIsPosted(sq, posted, fetched, consumed, i + 1);
      AdvanceFollows(i, sq.entries);
      assert sq.slots[i % sq.entries] == posted[i];
      assert posted[i..] == [posted[i]] + posted[i + 1..];
    }
  }

  lemma {:induction false} CqWalkIsCompleted(s: State, h: Hist, q: nat, k: nat)
    requires QueuesInv(s, h) && q < |s.sqs|
    requires h.consumed[s.cqOf[q]] <= k <= |h.comps[s.cqOf[q]]|
    ensures var c := s.cqOf[q];
            var n := Count(h.comps[c][..k], q);
            n <= Completed(s, h, q) <= |h.posted[q]| &&
            CqWalk(s.cqs[c], k % s.cqs[c].entries, |h.comps[c]| - k, q) == CidsOf(h.posted[q][n..Completed(s, h, q)])
    decreases |h.comps[s.cqOf[q]]| - k
  {
    var c := s.cqOf[q];
    var t, cq := h.comps[c], s.cqs[c];
    assert t[..|t|] == t;
    CountMono(t, k, |t|, q);
    assert Completed(s, h, q) <= |h.posted[q]| by {
      assert SqInv(s.sqs[q], h.posted[q], Fetched(s, h, q), Consumed(s, h, q));
    }
    if k < |t| {
      CqWalkIsCompleted(s, h, q, k + 1);
      CqWalkStep(s, h, c, k);
      CountPrefix(t, k, q);
      CidsOfHead(h.posted[q], Count(t[..k], q), Completed(s, h, q));
    }
  }

  lemma CidsOfHead(posted: seq<Sqe>, n: nat, m: nat)
    requires n <= m <= |posted|
    ensures n < m ==> CidsOf(posted[n..m]) == [posted[n].cid] + CidsOf(posted[n + 1..m])
  {
  }

  lemma CqWalkStep(s: State, h: Hist, c: nat, k: nat)
    requires QueuesInv(s, h) && c < |s.cqs| && h.consumed[c] <= k < |h.comps[c]|
    ensures var cq := s.cqs[c];
            && Advance(k % cq.entries, cq.entries) == (k + 1) % cq.entries
            && cq.slots[k % cq.entries].(p := 0) == h.comps[c][k]
    ensures CompInv(s, h, c, k)
  {
    assert CqInv(s.cqs[c], h.comps[c], h.consumed[c]);
    AdvanceFollows(k, s.cqs[c].entries);
    assert CompInv(s, h, c, k);
  }

  /** What the rings hold for q, read from the registers alone: the completions the host has
      not consumed, in CQ order, then the command in the device's hands, then the unfetched
      slots, in ring order. */
  ghost function RingCids(s: State, q: nat): seq<nat>
    requires Wired(s) && q < |s.sqs|
    requires var cq := s.cqs[s.cqOf[q]]; NumEntries(cq.head, cq.devTail, cq.entries) >= 0
    requires var sq := s.sqs[q]; NumEntries(sq.devHead, sq.tail, sq.entries) >= 0
  {
    var cq, sq := s.cqs[s.cqOf[q]], s.sqs[q];
    CqWalk(cq, cq.head, NumEntries(cq.head, cq.devTail, cq.entries), q)
    + InFlight(s, q)
    + SqWalk(sq, sq.devHead, NumEntries(sq.devHead, sq.tail, sq.entries))
  }

  ghost predicate NoRepeats(xs: seq<nat>) {
    forall i, j :: 0 <= i < j < |xs| ==> xs[i] != xs[j]
  }

  /** The CIDs of q's outstanding commands, in the order they were posted. */
  ghost function OutstandingCids(s: State, h: Hist, q: nat): seq<nat>
    requires Wired(s) && Tracks(s, h) && q < |s.sqs| && Consumed(s, h, q) <= |h.posted[q]|
  {
    CidsOf(h.posted[q][Consumed(s, h, q)..])
  }

  lemma RingsInOrder(s: State, h: Hist, q: nat)
    requires QueuesInv(s, h) && q < |s.sqs|
    ensures var cq := s.cqs[s.cqOf[q]];
            NumEntries(cq.head, cq.devTail, cq.entries) == |h.comps[s.cqOf[q]]| - h.consumed[s.cqOf[q]]
    ensures var sq := s.sqs[q]; NumEntries(sq.devHead, sq.tail, sq.entries) == |h.posted[q]| - Fetched(s, h, q)
    ensures Consumed(s, h, q) <= Completed(s, h, q) <= Fetched(s, h, q) <= |h.posted[q]|
  {
    var c := s.cqOf[q];
    assert SqInv(s.sqs[q], h.posted[q], Fetched(s, h, q), Consumed(s, h, q));
    assert CqInv(s.cqs[c], h.comps[c], h.consumed[c]);
    OccupancyExact(h.consumed[c], |h.comps[c]|, s.cqs[c].entries);
    OccupancyExact(Fetched(s, h, q), |h.posted[q]|, s.sqs[q].entries);
    CountMono(h.comps[c], h.consumed[c], |h.comps[c]|, q);
    assert h.comps[c][..|h.comps[c]|] == h.comps[c];
  }

  lemma CqHolds(s: State, h: Hist, q: nat)
    requires QueuesInv(s, h) && q < |s.sqs|
    ensures Consumed(s, h, q) <= Completed(s, h, q) <= |h.posted[q]|
    ensures var cq := s.cqs[s.cqOf[q]];
            var n := NumEntries(cq.head, cq.devTail, cq.entries);
            n >= 0 && CqWalk(cq, cq.head, n, q) == CidsOf(h.posted[q][Consumed(s, h, q)..Completed(s, h, q)])
  {
    RingsInOrder(s, h, q);
    CqWalkIsCompleted(s, h, q, h.consumed[s.cqOf[q]]);
    assert CqInv(s.cqs[s.cqOf[q]], h.comps[s.cqOf[q]], h.consumed[s.cqOf[q]]);
  }

  lemma SqHolds(s: State, h: Hist, q: nat)
    requires QueuesInv(s, h) && q < |s.sqs|
    ensures Fetched(s, h, q) <= |h.posted[q]|
    ensures var sq := s.sqs[q];
            var n := NumEntries(sq.devHead, sq.tail, sq.entries);
            n >= 0 && SqWalk(sq, sq.devHead, n) == CidsOf(h.posted[q][Fetched(s, h, q)..])
  {
    RingsInOrder(s, h, q);
    SqWalkIsPosted(s.sqs[q], h.posted[q], Fetched(s, h, q), Consumed(s, h, q), Fetched(s, h, q));
  }

  lemma FlightHolds(s: State, h: Hist, q: nat)
    requires QueuesInv(s, h) && q < |s.sqs|
    ensures Completed(s, h, q) <= Fetched(s, h, q) <= |h.posted[q]|
    ensures InFlight(s, q) == CidsOf(h.posted[q][Completed(s, h, q)..Fetched(s, h, q)])
  {
    RingsInOrder(s, h, q);
    if s.flight.Busy? && s.flight.q == q {
      FlightReadsFetched(s, h);
    }
  }

  lemma CidsOfParts(posted: seq<Sqe>, a: nat, b: nat, f: nat)
    requires a <= b <= f <= |posted|
    ensures CidsOf(posted[a..]) == CidsOf(posted[a..b]) + CidsOf(posted[b..f]) + CidsOf(posted[f..])
  {
  }

  /** Conservation: the rings hold q's outstanding commands in posting order, each once. */
  lemma RingsHoldOutstanding(s: State, h: Hist, q: nat)
    requires QueuesInv(s, h) && q < |s.sqs|
    ensures var cq := s.cqs[s.cqOf[q]]; NumEntries(cq.head, cq.devTail, cq.entries) >= 0
    ensures var sq := s.sqs[q]; NumEntries(sq.devHead, sq.tail, sq.entries) >= 0
    ensures Consumed(s, h, q) <= |h.posted[q]| && RingCids(s, q) == OutstandingCids(s, h, q)
  {
    CqHolds(s, h, q);
    SqHolds(s, h, q);
    FlightHolds(s, h, q);
    CidsOfParts(h.posted[q], Consumed(s, h, q), Completed(s, h, q), Fetched(s, h, q));
  }

  lemma CidListed(posted: seq<Sqe>, a: nat, cid: nat)
    requires a <= |posted|
    ensures cid in CidsOf(posted[a..]) <==> exists i: nat :: a <= i < |posted| && posted[i].cid == cid
  {
    var xs := CidsOf(posted[a..]);
    if cid in xs {
      var j :| 0 <= j < |xs| && xs[j] == cid;
      assert posted[a + j].cid == cid;
    }
    forall i: nat | a <= i < |posted| && posted[i].cid == cid
      ensures cid in xs
    {
      assert xs[i - a] == cid;
    }
  }

  lemma OutstandingIsListed(s: State, h: Hist, q: nat, cid: nat)
    requires Wired(s) && Tracks(s, h) && OutInv(s, h) && q < |s.sqs| && Consumed(s, h, q) <= |h.posted[q]|
    ensures (cid, q) in s.outstanding <==> cid in OutstandingCids(s, h, q)
  {
    CidListed(h.posted[q], Consumed(s, h, q), cid);
    if (cid, q) in s.outstanding {
      assert exists i: nat :: Pending(s, h, q, i) && h.posted[q][i].cid == cid;
    }
    forall i: nat | Consumed(s, h, q) <= i < |h.posted[q]| && h.posted[q][i].cid == cid
      ensures (cid, q) in s.outstanding
    {
      assert Pending(s, h, q, i);
    }
  }

  lemma OutstandingDiffer(s: State, h: Hist, q: nat)
    requires Wired(s) && Tracks(s, h) && OutInv(s, h) && q < |s.sqs| && Consumed(s, h, q) <= |h.posted[q]|
    ensures NoRepeats(OutstandingCids(s, h, q))
  {
    var a := Consumed(s, h, q);
    assert forall i: nat :: Pending(s, h, q, i) <==> a <= i < |h.posted[q]|;
    assert forall i: nat, j: nat :: a <= i < j < |h.posted[q]| ==> h.posted[q][i].cid != h.posted[q][j].cid;
    DifferentCids(h.posted[q], a);
  }

  lemma DifferentCids(posted: seq<Sqe>, a: nat)
    requires a <= |posted|
    requires forall i: nat, j: nat :: a <= i < j < |posted| ==> posted[i].cid != posted[j].cid
    ensures NoRepeats(CidsOf(posted[a..]))
  {
  }

  /** `outstanding_commands` holds exactly those commands: no CID twice, no entry missing,
      no entry left over. */
  lemma OutstandingExactlyOnce(s: State, h: Hist, q: nat)
    requires QueuesInv(s, h) && OutInv(s, h) && q < |s.sqs|
    ensures Consumed(s, h, q) <= |h.posted[q]|
    ensures NoRepeats(OutstandingCids(s, h, q))
    ensures forall cid: nat :: (cid, q) in s.outstanding <==> cid in OutstandingCids(s, h, q)
  {
    RingsInOrder(s, h, q);
    OutstandingDiffer(s, h, q);
    forall cid: nat
      ensures (cid, q) in s.outstanding <==> cid in OutstandingCids(s, h, q)
    {
      OutstandingIsListed(s, h, q, cid);
    }
  }

  /** A poll of c completes at most one command, and then the oldest outstanding one of its
      SQ: it receives the entry carrying its own CID and SQID, its key is the only one
      dropped, and its SQ's head becomes the device's head at completion time. */
  lemma PollDeliversOldest(s: State, h: Hist, c: nat)
    requires QueuesInv(s, h) && OutInv(s, h) && c < |s.cqs|
    ensures PollStep(s, c).Ok?
    ensures !Ready(s.cqs[c]) ==> PollStep(s, c).s == s
    ensures Ready(s.cqs[c]) ==>
              var cqe, s' := s.cqs[c].slots[s.cqs[c].head], PollStep(s, c).s;
              && cqe.sqid < |s.sqs| && s.cqOf[cqe.sqid] == c
              && Consumed(s, h, cqe.sqid) < |h.posted[cqe.sqid]|
              && var oldest := h.posted[cqe.sqid][Consumed(s, h, cqe.sqid)];
              && cqe.cid == oldest.cid
              && s.outstanding[(cqe.cid, cqe.sqid)] == Command(cqe.sqid, oldest)
              && s'.outstanding == s.outstanding - {(cqe.cid, cqe.sqid)}
              && s'.sqs == s.sqs[cqe.sqid :=
                   s.sqs[cqe.sqid].(hostHead := (Consumed(s, h, cqe.sqid) + 1) % s.sqs[cqe.sqid].entries)]
  {
    PollFinds(s, h, c);
    PollKnows(s, h, c);
    OutKeys(s, h);
    PollIsConsuming(s, h, c);
    if Ready(s.cqs[c]) {
      var q := h.comps[c][h.consumed[c]].sqid;
      assert Pending(s, h, q, Consumed(s, h, q));
    }
  }

  // ---- Phase tags and stale heads ---------------------------------------------------

  /** In every reachable state the host's ready test tells exactly whether the device has
      posted more completions than the host consumed, however often the ring has wrapped. */
  lemma PhaseTagExact(s: State, actions: seq<Action>, c: nat)
    requires Started(s) && c < |s.cqs|
    ensures QueuesInv(s, NoHist(s))
    ensures var r := Run(s, NoHist(s), actions);
            r.Ended? ==> |r.s.cqs| == |s.cqs| && Wired(r.s) && Tracks(r.s, r.h) &&
                         (Ready(r.s.cqs[c]) <==> r.h.consumed[c] < |r.h.comps[c]|)
  {
    RunsAreSafe(s, actions);
    var r := Run(s, NoHist(s), actions);
    if r.Ended? {
      RunKeepsShape(s, NoHist(s), actions);
      assert CqInv(r.s.cqs[c], r.h.comps[c], r.h.consumed[c]);
      ReadyIffUnconsumed(r.s.cqs[c], r.h.comps[c], r.h.consumed[c]);
    }
  }

  lemma {:induction false} RunKeepsShape(s: State, h: Hist, actions: seq<Action>)
    requires Wired(s) && Tracks(s, h)
    ensures var r := Run(s, h, actions); r.Ended? ==> SameShape(s, r.s)
    decreases |actions|
  {
    if actions != [] && Legal(s, actions[0]) && !Step(s, actions[0]).Crash? {
      StepWired(s, h, actions[0]);
      RunKeepsShape(Step(s, actions[0]).s, Record(s, h, actions[0]), actions[1..]);
    }
  }

  /** The host's stale head, the device's head and the shared tail stay in ring order, and
      the host's full test errs on the safe side only: it refuses exactly when the host has
      entries - 1 commands outstanding. */
  lemma HeadsInRingOrder(s: State, h: Hist, q: nat)
    requires QueuesInv(s, h) && q < |s.sqs|
    ensures var sq := s.sqs[q];
            && NumEntries(sq.hostHead, sq.tail, sq.entries) ==
                 NumEntries(sq.hostHead, sq.devHead, sq.entries) + NumEntries(sq.devHead, sq.tail, sq.entries)
            && NumEntries(sq.hostHead, sq.tail, sq.entries) == |h.posted[q]| - Consumed(s, h, q)
            && (Full(sq.hostHead, sq.tail, sq.entries) <==> |h.posted[q]| - Consumed(s, h, q) == sq.entries - 1)
  {
    var sq := s.sqs[q];
    assert SqInv(sq, h.posted[q], Fetched(s, h, q), Consumed(s, h, q));
    OccupancyExact(Consumed(s, h, q), |h.posted[q]|, sq.entries);
    OccupancyExact(Consumed(s, h, q), Fetched(s, h, q), sq.entries);
    OccupancyExact(Fetched(s, h, q), |h.posted[q]|, sq.entries);
  }

  /** An accepted post never overwrites a command that is unfetched, or fetched by
      reference and not completed. */
  lemma PostOverwritesNothing(s: State, h: Hist, q: nat, sqe: Sqe, i: nat)
    requires QueuesInv(s, h) && q < |s.sqs| && PostStep(s, q, sqe).Ok? && Pending(s, h, q, i)
    ensures var s' := PostStep(s, q, sqe).s;
            var slot := i % s.sqs[q].entries;
            slot != s.sqs[q].tail && s'.sqs[q].slots[slot] == s.sqs[q].slots[slot] == h.posted[q][i]
    ensures s.flight.Busy? && s.flight.q == q ==> s.flight.slot != s.sqs[q].tail
  {
    var sq := s.sqs[q];
    assert SqInv(sq, h.posted[q], Fetched(s, h, q), Consumed(s, h, q));
    Apart(i, |h.posted[q]|, sq.entries);
    if s.flight.Busy? && s.flight.q == q {
      RingsInOrder(s, h, q);
      Apart(Completed(s, h, q), |h.posted[q]|, sq.entries);
    }
  }
}
