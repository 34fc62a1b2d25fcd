/** IO commands on the simulated device, end to end: the storage handler's exceptions come out
    of the host's own call. */
module SimulatedIo {
  import opened Options
  import opened StatusCodes
  import opened Bytes
  import opened Prp
  import opened Storage
  import opened Protocol
  import opened ProtocolSafety
  import opened Conservation
  import opened Statuses
  import opened System
  import opened RoundRobin
  import opened Serving
  import opened Dispatch
  import opened Simulator

  const WRITE_OPC := 0x01

  /** The namespace and the memory a device works on. */
  datatype Device = Device(ram: seq<byte>, mps: nat, blockSize: nat, numLbas: nat)

  /** What the handlers of a device make of a command: Writes as the storage model says, other
      commands in any way. */
  function Handler(d: Device, other: Sqe -> Option<nat>): Sqe -> Option<nat> {
    (sqe: Sqe) =>
      if sqe.opc == WRITE_OPC
      then WriteStatus(d.ram, d.mps, d.blockSize, d.numLbas, sqe.slba, sqe.nlb, sqe.prp1, sqe.prp2)
      else other(sqe)
  }

  /** No command waits anywhere. */
  ghost predicate Quiet(s: State)
    requires Wired(s)
  {
    forall p :: 0 <= p < |s.sqs| ==> Waiting(s.sqs[p]) == 0
  }

  lemma {:induction false} TimesAll(xs: seq<nat>, q: nat)
    requires forall k :: 0 <= k < |xs| ==> xs[k] == q
    ensures Times(xs, q) == |xs|
  {
    if xs != [] {
      TimesAll(xs[..|xs| - 1], q);
    }
  }

  /** On a quiet device a dispatch call after a post serves that one command. */
  lemma LonePlan(s: State, h: Hist, gone: set<nat>, q: nat, sqe: Sqe, rounds: nat, served: seq<nat>)
    requires Inv(s, h) && s.flight.Idle? && q < |s.sqs| && q !in gone && Quiet(s) && PostStep(s, q, sqe).Ok?
    requires StartPlan(s, gone, q, sqe, rounds, served)
    ensures served == [q]
  {
    forall p | 0 <= p < |s.sqs|
      ensures Wired(PostStep(s, q, sqe).s) && Counts(PostStep(s, q, sqe).s, gone)[p] == if p == q then 1 else 0
    {
      PostWaits(s, h, q, sqe, p);
    }
    PlanOfOne(Counts(PostStep(s, q, sqe).s, gone), q, rounds, served);
  }

  lemma PlanOfOne(ns: seq<nat>, q: nat, rounds: nat, served: seq<nat>)
    requires q < |ns| && Dispatched(ns, rounds, served)
    requires forall p :: 0 <= p < |ns| ==> ns[p] == if p == q then 1 else 0
    requires AllBelow(served, |ns|)
    ensures served == [q]
  {
    forall k | 0 <= k < |served|
      ensures served[k] == q
    {
      ServedWaits(ns, rounds, served, k);
    }
    TimesAll(served, q);
    AtMostWaiting(ns, rounds, served, q);
    NoStarvation(ns, rounds, served, q);
  }

  lemma AtMostWaiting(ns: seq<nat>, rounds: nat, served: seq<nat>, q: nat)
    requires ns != [] && Dispatched(ns, rounds, served) && q < |ns|
    ensures Times(served, q) <= ns[q]
  {
    DispatchedExact(ns, rounds, served, q);
  }

  lemma ServedWaits(ns: seq<nat>, rounds: nat, served: seq<nat>, k: nat)
    requires ns != [] && Dispatched(ns, rounds, served) && AllBelow(served, |ns|) && k < |served|
    ensures ns[served[k]] > 0
  {
    TimesIn(served, served[k]);
    AtMostWaiting(ns, rounds, served, served[k]);
  }

  /** And that command is the one posted. */
  lemma LoneTakes(s: State, h: Hist, q: nat, sqe: Sqe, status: Sqe -> Option<nat>)
    requires Inv(s, h) && s.flight.Idle? && q < |s.sqs| && Quiet(s) && PostStep(s, q, sqe).Ok?
    ensures var posted, h1 := PostStep(s, q, sqe).s, Record(s, h, Post(q, sqe));
            && Resting(posted) && Tracks(posted, h1) && |posted.sqs| == |s.sqs| && AllBelow([q], |posted.sqs|)
            && (Handled(posted, h1, [q], status) <==> status(sqe.(cid := s.cids.value)).Some?)
  {
    PostQueues(s, h, q, sqe);
    WaitingExact(s, h, q);
    var posted, h1 := PostStep(s, q, sqe).s, Record(s, h, Post(q, sqe));
    assert [q][..0] == [];
    assert Handled(posted, h1, [q], status) <==> TurnHandled(posted, h1, [q], status, 0);
  }

  /** One turn on q appends the answer to q's next command. */
  lemma TurnAnswers(s: State, h: Hist, end: State, h': Hist, q: nat, status: Sqe -> Option<nat>)
    requires Wired(s) && Tracks(s, h) && q < |s.sqs| && Protocol.Completed(s, h, q) < |h.posted[q]|
    requires Effect(s, h, end, h', [q]) && CodedSince(h, h', status) && QueuesInv(end, h')
    ensures var c, n := s.cqOf[q], |h.comps[s.cqOf[q]]|;
            |h'.comps[c]| == n + 1 && Answers(h'.comps[c][n], q, Taken(s, h, q, 0), status)
  {
    var c, n := s.cqOf[q], |h.comps[s.cqOf[q]]|;
    OntoOne(s, q, c);
    var sqids := SqidsOf(h'.comps[c]);
    assert sqids == SqidsOf(h.comps[c]) + [q];
    assert sqids[n] == q && h'.comps[c][..n] == h.comps[c];
    assert Coded(h', c, n, status);
    assert CompInv(end, h', c, n);
  }

  lemma {:induction false} ServeKeepsCqSizes(s: State, served: seq<nat>, status: Sqe -> Option<nat>, c: nat)
    requires Resting(s) && AllBelow(served, |s.sqs|) && c < |s.cqs|
    ensures var s' := Serve(s, served, status).s; |s'.cqs| == |s.cqs| && s'.cqs[c].entries == s.cqs[c].entries
  {
    if served != [] {
      ServeKeepsCqSizes(s, served[..|served| - 1], status, c);
    }
  }

  /** The newest completion of c in the ring. */
  lemma NewestInRing(cq: Cq, comps: seq<Cqe>, consumed: nat, cq': Cq, comps': seq<Cqe>, consumed': nat)
    requires CqInv(cq, comps, consumed) && CqInv(cq', comps', consumed') && cq'.entries == cq.entries
    requires consumed' <= |comps| && |comps'| == |comps| + 1
    ensures cq'.slots[cq.devTail].(p := 0) == comps'[|comps|]
  {
    assert cq'.slots[|comps| % cq'.entries].(p := 0) == comps'[|comps|];
  }

  lemma PostedNext(s: State, h: Hist, q: nat, sqe: Sqe)
    requires Inv(s, h) && s.flight.Idle? && q < |s.sqs| && Quiet(s) && PostStep(s, q, sqe).Ok?
    ensures var posted, h1 := PostStep(s, q, sqe).s, Record(s, h, Post(q, sqe));
            && Wired(posted) && Tracks(posted, h1) && |posted.sqs| == |s.sqs|
            && Protocol.Completed(posted, h1, q) < |h1.posted[q]|
            && Taken(posted, h1, q, 0) == sqe.(cid := s.cids.value)
  {
    PostQueues(s, h, q, sqe);
    WaitingExact(s, h, q);
  }

  /** After a start on a quiet device that went through, the new entry of the CQ is that of the
      command, with its status. */
  lemma StartAnswers(s: State, h: Hist, gone: set<nat>, q: nat, sqe: Sqe, rounds: nat, served: seq<nat>,
                     status: Sqe -> Option<nat>, end: State, h': Hist, k: nat)
    requires Inv(s, h) && s.flight.Idle? && q < |s.sqs| && q !in gone && Quiet(s) && PostStep(s, q, sqe).Ok?
    requires StartEnds(s, h, gone, q, sqe, rounds, served, status, Done, end, h', k) && served == [q]
    ensures var c := s.cqOf[q];
            && c < |end.cqs| && s.cqs[c].devTail < |end.cqs[c].slots|
            && Answers(end.cqs[c].slots[s.cqs[c].devTail], q, sqe.(cid := s.cids.value), status)
  {
    var c := s.cqOf[q];
    var posted, h1 := PostStep(s, q, sqe).s, Record(s, h, Post(q, sqe));
    PostedNext(s, h, q, sqe);
    TurnAnswers(posted, h1, end, h', q, status);
    ServeKeepsCqSizes(posted, [q], status, c);
    assert CqInv(s.cqs[c], h.comps[c], h.consumed[c]) && CqInv(end.cqs[c], h'.comps[c], h'.consumed[c]);
    NewestInRing(s.cqs[c], h.comps[c], h.consumed[c], end.cqs[c], h'.comps[c], h'.consumed[c]);
  }

  /** How a start on a quiet device ends: with the answer in the CQ, or with the command lost. */
  ghost predicate QuietEnd(s: State, q: nat, sqe: Sqe, status: Sqe -> Option<nat>, r: Result, end: State)
    requires Wired(s) && q < |s.sqs|
  {
    var c, posted := s.cqOf[q], sqe.(cid := s.cids.value);
    && r == (if status(posted).Some? then Done else Result.Raised(HandlerRaised))
    && (r == Done ==>
          c < |end.cqs| && s.cqs[c].devTail < |end.cqs[c].slots|
          && Answers(end.cqs[c].slots[s.cqs[c].devTail], q, posted, status))
    && (r != Done ==> Lost(s, q, sqe, end))
  }

  lemma StartQuietEnd(s: State, h: Hist, gone: set<nat>, q: nat, sqe: Sqe, rounds: nat, served: seq<nat>,
                      status: Sqe -> Option<nat>, r: Result, end: State, h': Hist, k: nat)
    requires Inv(s, h) && s.flight.Idle? && q < |s.sqs| && q !in gone && Quiet(s) && PostStep(s, q, sqe).Ok?
    requires StartEnds(s, h, gone, q, sqe, rounds, served, status, r, end, h', k) && Resting(end)
    ensures QuietEnd(s, q, sqe, status, r, end)
  {
    LonePlan(s, h, gone, q, sqe, rounds, served);
    LoneTakes(s, h, q, sqe, status);
    if r == Done {
      StartAnswers(s, h, gone, q, sqe, rounds, served, status, end, h', k);
    } else {
      HaltedLost(s, h, q, sqe, status, k, end);
    }
  }

  /** On a quiet device a start goes through if and only if the handler does not raise on the
      command; the entry it leaves in the CQ then carries what the handler came to. If it
      raises, the command is fetched and lost: it waits nowhere, has no completion, and is not
      outstanding, but its CID and its slot are used up. */
  method QuietStart(sys: NVMeSystem, gone: set<nat>, q: nat, sqe: Sqe, status: Sqe -> Option<nat>, ghost h: Hist)
    returns (r: Result)
    requires sys.Valid() && Inv(sys.state, h) && sys.state.flight.Idle? && Quiet(sys.state) && 0 !in gone
    requires q < |sys.sqMem| && q !in gone && PostStep(sys.state, q, sqe).Ok? && FreshCid(sys.state, q)
    modifies sys, sys.doorbells, sys.cidMgr, sys.sqMem, sys.simSqs, sys.simCqs, sys.cqMem
    ensures sys.Valid() && sys.state.cids == old(sys.state).cids.Alloc()
    ensures QuietEnd(old(sys.state), q, sqe, status, r, sys.state)
  {
    ghost var s, rounds, served, h', k := sys.state, 0, [], h, 0;
    r, rounds, served, h', k := StartCmd(sys, gone, q, sqe, status, h);
    StartQuietEnd(s, h, gone, q, sqe, rounds, served, status, r, sys.state, h', k);
  }

  /** The state after the exception: that of the post, but with the command fetched and not
      outstanding. */
  ghost predicate Lost(s: State, q: nat, sqe: Sqe, end: State)
    requires Wired(s) && q < |s.sqs|
  {
    var posted := PostStep(s, q, sqe).s;
    && Resting(end) && Quiet(end) && end.outstanding == s.outstanding && end.cqs == s.cqs
    && Wired(posted) && LeftBehind(posted, q, end.(outstanding := posted.outstanding))
  }

  lemma HaltedLost(s: State, h: Hist, q: nat, sqe: Sqe, status: Sqe -> Option<nat>, k: nat, end: State)
    requires Inv(s, h) && s.flight.Idle? && q < |s.sqs| && Quiet(s) && PostStep(s, q, sqe).Ok?
    requires var posted, h1 := PostStep(s, q, sqe).s, Record(s, h, Post(q, sqe));
             && Resting(posted) && Tracks(posted, h1) && AllBelow([q], |posted.sqs|)
             && HaltedAt(posted, h1, [q], status, k, end.(outstanding := posted.outstanding))
    requires Resting(end) && end.outstanding == s.outstanding
    ensures Lost(s, q, sqe, end)
  {
    var posted := PostStep(s, q, sqe).s;
    assert k == 0 && [q][..0] == [];
    forall p | 0 <= p < |end.sqs|
      ensures Waiting(end.sqs[p]) == 0
    {
      PostWaits(s, h, q, sqe, p);
      FetchedAway(posted, q, p);
    }
  }

  lemma FetchedAway(s: State, q: nat, p: nat)
    requires Wired(s) && q < |s.sqs| && p < |s.sqs| && Waiting(s.sqs[q]) == 1
    ensures var sq := s.sqs[q].(devHead := Ring.Advance(s.sqs[q].devHead, s.sqs[q].entries));
            SqWired(sq) && Waiting(sq) == 0
  {
  }

  /** The state is then none that the history accounts for: a command was posted that neither
      waits nor was completed. */
  lemma LostBreaks(s: State, h: Hist, q: nat, sqe: Sqe, end: State)
    requires Inv(s, h) && s.flight.Idle? && q < |s.sqs| && Quiet(s) && PostStep(s, q, sqe).Ok?
    requires Lost(s, q, sqe, end)
    ensures !QueuesInv(end, Record(s, h, Post(q, sqe)))
  {
    WaitingExact(s, h, q);
    if QueuesInv(end, Record(s, h, Post(q, sqe))) {
      WaitingExact(end, Record(s, h, Post(q, sqe)), q);
    }
  }

  /** A Write in range of exactly two pages: `start_cmd` itself raises, and the command is
      lost. Any other size of a laid-out buffer goes through, and the entry left in the CQ says
      whether the Write was in range. */
  method WriteStart(sys: NVMeSystem, gone: set<nat>, q: nat, sqe: Sqe, d: Device, ghost mem: seq<Loc>,
                    other: Sqe -> Option<nat>, ghost h: Hist)
    returns (r: Result)
    requires sys.Valid() && Inv(sys.state, h) && sys.state.flight.Idle? && Quiet(sys.state) && 0 !in gone
    requires q < |sys.sqMem| && q !in gone && PostStep(sys.state, q, sqe).Ok? && FreshCid(sys.state, q)
    requires sqe.opc == 0x01 && Described(d.ram, d.mps, mem, (sqe.nlb + 1) * d.blockSize, sqe.prp1, sqe.prp2)
    modifies sys, sys.doorbells, sys.cidMgr, sys.sqMem, sys.simSqs, sys.simCqs, sys.cqMem
    ensures sys.Valid()
    ensures r == if |mem| == 2 && sqe.slba + sqe.nlb + 1 <= d.numLbas then Result.Raised(HandlerRaised) else Done
    ensures r != Done ==> Lost(old(sys.state), q, sqe, sys.state)
    ensures r == Done ==>
              var c := sys.cqOf[q];
              var cqe := sys.cqMem[c][old(sys.simCqs[c].tail)];
              && cqe.sqid == q && cqe.cid == old(sys.cidMgr.value)
              && cqe.sc == if sqe.slba + sqe.nlb + 1 <= d.numLbas then 0x00 else 0x80
  {
    DescribedStatus(d.ram, d.mps, mem, d.blockSize, d.numLbas, sqe.slba, sqe.nlb, sqe.prp1, sqe.prp2);
    r := QuietStart(sys, gone, q, sqe, Handler(d, other), h);
  }

  // ---- A sync_cmd whose assertion fails ---------------------------------------------

  lemma ServedQuiet(s: State, h: Hist, q: nat, sqe: Sqe, status: Sqe -> Option<nat>)
    requires Inv(s, h) && s.flight.Idle? && q < |s.sqs| && Quiet(s) && PostStep(s, q, sqe).Ok?
    requires var posted := PostStep(s, q, sqe).s;
             Resting(posted) && |posted.sqs| == |s.sqs| && Enough(posted, [q]) && Serve(posted, [q], status).Served?
    ensures Quiet(Serve(PostStep(s, q, sqe).s, [q], status).s)
  {
    var posted := PostStep(s, q, sqe).s;
    forall p | 0 <= p < |s.sqs|
      ensures Waiting(Serve(posted, [q], status).s.sqs[p]) == 0
    {
      PostWaits(s, h, q, sqe, p);
      ServeWaiting(posted, [q], status, p);
      TimesSnoc([], q, p);
    }
  }

  /** After a start on a quiet device nothing waits, and the completion is at the host. */
  lemma StartedState(s: State, h: Hist, gone: set<nat>, q: nat, sqe: Sqe, rounds: nat, served: seq<nat>,
                     status: Sqe -> Option<nat>, end: State, h': Hist, k: nat)
    requires Inv(s, h) && s.flight.Idle? && q < |s.sqs| && q !in gone && Quiet(s) && PostStep(s, q, sqe).Ok?
    requires StartEnds(s, h, gone, q, sqe, rounds, served, status, Done, end, h', k)
    ensures Resting(end) && Quiet(end) && Inv(end, h') && |end.sqs| == |s.sqs| && end.cqOf == s.cqOf
    ensures end.outstanding == PostStep(s, q, sqe).s.outstanding && end.sqs[q].entries == s.sqs[q].entries
    ensures |h'.posted[q]| == Consumed(end, h', q) + 1 + |h.posted[q]| - Consumed(s, h, q)
  {
    var posted := PostStep(s, q, sqe).s;
    LonePlan(s, h, gone, q, sqe, rounds, served);
    ServedQuiet(s, h, q, sqe, status);
    ServeLeavesHost(posted, served, status);
    ServeKeepsSizes(posted, served, status, q);
    StillPending(s, h, q, sqe, served, end, h');
  }

  lemma StartedReady(s: State, h: Hist, gone: set<nat>, q: nat, sqe: Sqe, rounds: nat, served: seq<nat>,
                     status: Sqe -> Option<nat>, end: State, h': Hist, k: nat)
    requires Inv(s, h) && s.flight.Idle? && q < |s.sqs| && q !in gone && PostStep(s, q, sqe).Ok?
    requires StartEnds(s, h, gone, q, sqe, rounds, served, status, Done, end, h', k)
    ensures Wired(end) && q < |end.sqs| && end.cqOf == s.cqOf && !NextInLine(end, gone, q)
  {
    StartedFinds(s, gone, h, q, sqe, rounds, served, end, h');
    PollFinds(end, h', s.cqOf[q]);
  }

  lemma {:induction false} ServeKeepsSizes(s: State, served: seq<nat>, status: Sqe -> Option<nat>, p: nat)
    requires Resting(s) && AllBelow(served, |s.sqs|) && p < |s.sqs|
    ensures Serve(s, served, status).s.sqs[p].entries == s.sqs[p].entries
  {
    if served != [] {
      ServeKeepsSizes(s, served[..|served| - 1], status, p);
    }
  }

  /** The next post to q is accepted, under a CID that is not outstanding. */
  lemma SecondPost(s: State, h: Hist, q: nat, cid: nat, command: Command, b: Sqe)
    requires Inv(s, h) && q < |s.sqs| && |h.posted[q]| == Consumed(s, h, q) + 1 && 3 <= s.sqs[q].entries
    requires s.outstanding == map[(cid, q) := command] && s.cids.value != cid
    ensures PostStep(s, q, b).Ok? && FreshCid(s, q)
  {
    HeadsInRingOrder(s, h, q);
  }

  /** A start and then a sync on the same queue, with no poll in between: the first poll of the
      sync finds the completion of the first command, so the second one is not complete and
      the assertion on it fails. */
  method StartThenSync(sys: NVMeSystem, q: nat, a: Sqe, b: Sqe, status: Sqe -> Option<nat>, ghost h: Hist)
    returns (r: Result, ghost cid: nat)
    requires sys.Valid() && Inv(sys.state, h) && sys.state.flight.Idle? && Quiet(sys.state)
    requires sys.state.outstanding == map[] && q < |sys.sqMem| && 3 <= sys.state.sqs[q].entries
    requires sys.state.cids.init + 1 < sys.state.cids.max && forall x :: status(x).Some?
    modifies sys, sys.doorbells, sys.cidMgr, sys.sqMem, sys.simSqs, sys.simCqs, sys.cqMem, sys.hostCqs, sys.hostSqs
    ensures sys.Valid() && r == Done && (cid, q) in sys.state.outstanding
    ensures cid == old(sys.state).cids.Alloc().value
  {
    ghost var s, rounds, served, h', k := sys.state, 0, [], h, 0;
    FirstPost(s, h, q, a);
    r, rounds, served, h', k := StartCmd(sys, {}, q, a, status, h);
    LonePlan(s, h, {}, q, a, rounds, served);
    LoneTakes(s, h, q, a, status);
    ghost var mid, g := sys.state, h';
    StartedState(s, h, {}, q, a, rounds, served, status, mid, g, k);
    StartedReady(s, h, {}, q, a, rounds, served, status, mid, g, k);
    SecondPost(mid, g, q, s.cids.value, Command(q, a.(cid := s.cids.value)), b);
    cid := mid.cids.value;
    r, rounds, served, h', k := SyncCmd(sys, {}, q, b, status, true, g);
    LonePlan(mid, g, {}, q, b, rounds, served);
    LoneTakes(mid, g, q, b, status);
  }

  lemma FirstPost(s: State, h: Hist, q: nat, a: Sqe)
    requires Inv(s, h) && s.flight.Idle? && q < |s.sqs| && s.outstanding == map[] && 3 <= s.sqs[q].entries
    requires s.cids.init + 1 < s.cids.max
    ensures PostStep(s, q, a).Ok? && FreshCid(s, q) && Consumed(s, h, q) == |h.posted[q]|
    ensures PostStep(s, q, a).s.outstanding == map[(s.cids.value, q) := Command(q, a.(cid := s.cids.value))]
    ensures s.cids.Alloc().value != s.cids.value && PostStep(s, q, a).s.sqs[q].entries == s.sqs[q].entries
  {
    HeadsInRingOrder(s, h, q);
    assert PendingListed(s, h) && !Pending(s, h, q, Consumed(s, h, q));
    assert SqInv(s.sqs[q], h.posted[q], Fetched(s, h, q), Consumed(s, h, q));
  }
}
