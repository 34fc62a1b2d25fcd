/** The simulated device: every post runs the dispatch loop before the host makes the
    command outstanding. Under the protocol's invariant only a handler can raise in it. */
module Simulator {
  import opened Options
  import opened Protocol
  import opened ProtocolSafety
  import opened Queues
  import opened Statuses
  import opened System
  import opened RoundRobin
  import opened Serving
  import opened Dispatch

  /** Where a schedule was cut short by an exception, and what that left: the turns before k
      went through, turn k's command is fetched and not completed, the rest still waits. */
  ghost predicate HaltedAt(s: State, h: Hist, served: seq<nat>, status: Sqe -> Option<nat>, k: nat, end: State)
    requires Resting(s) && Tracks(s, h) && AllBelow(served, |s.sqs|)
  {
    && k < |served| && Handled(s, h, served[..k], status) && !TurnHandled(s, h, served, status, k)
    && LeftBehind(Serve(s, served[..k], status).s, served[k], end)
  }

  /** `posted_command`: one call of the dispatch loop. It goes through if and only if no
      handler raises on a command of the round robin schedule. It then keeps the invariant;
      otherwise the exception gets out, with the schedule cut short at that command. */
  method PostedCommand(sys: NVMeSystem, gone: set<nat>, status: Sqe -> Option<nat>, ghost h: Hist)
    returns (r: Result, ghost rounds: nat, ghost served: seq<nat>, ghost h': Hist, ghost k: nat)
    requires sys.Valid() && Inv(sys.state, h) && sys.state.flight.Idle? && 0 < |sys.sqMem| && 0 !in gone
    modifies sys`state, sys.simSqs, sys.simCqs, sys.cqMem
    ensures Dispatched(Counts(old(sys.state), gone), rounds, served) && Ran(sys, r, old(sys.state), served, status)
    ensures r == if Handled(old(sys.state), h, served, status) then Done else Raised(HandlerRaised)
    ensures r == Done ==> Through(old(sys.state), h, served, status, sys.state, h')
    ensures r != Done ==> HaltedAt(old(sys.state), h, served, status, k, sys.state)
  {
    ghost var s := sys.state;
    r, rounds, served := CheckCommands(sys, gone, status);
    DispatchedEnough(s, gone, rounds, served);
    h', k := RunEnds(s, h, served, status);
  }

  /** How a schedule ends under the invariant. */
  lemma RunEnds(s: State, h: Hist, served: seq<nat>, status: Sqe -> Option<nat>) returns (h': Hist, k: nat)
    requires Inv(s, h) && s.flight.Idle? && Enough(s, served)
    ensures var o := Serve(s, served, status);
            && Reported(o) == (if Handled(s, h, served, status) then Done else Raised(HandlerRaised))
            && (o.Served? ==> Through(s, h, served, status, o.s, h'))
            && (o.Broken? ==> HaltedAt(s, h, served, status, k, o.s))
  {
    k := 0;
    h' := ServeKeeps(s, h, served, status);
    if !Handled(s, h, served, status) {
      k, h' := BreaksAt(s, h, served, status);
    }
  }

  /** Serving while the posted command is not yet outstanding comes to the same as serving
      after the whole post, but for the outstanding commands. */
  lemma ServeUnseen(s: State, q: nat, sqe: Sqe, served: seq<nat>, status: Sqe -> Option<nat>)
    requires Resting(s) && q < |s.sqs| && PostStep(s, q, sqe).Ok?
    requires Wired(Unseen(s, q, sqe)) && AllBelow(served, |s.sqs|)
    ensures Resting(PostStep(s, q, sqe).s) && |PostStep(s, q, sqe).s.sqs| == |s.sqs|
    ensures var o := Serve(PostStep(s, q, sqe).s, served, status);
            && Serve(Unseen(s, q, sqe), served, status) == o.(s := o.s.(outstanding := s.outstanding))
            && o.s.outstanding == PostStep(s, q, sqe).s.outstanding && o.s.cids == s.cids.Alloc()
  {
    PostWired(s, q, sqe);
    var posted := PostStep(s, q, sqe).s;
    ServeLeavesHost(posted, served, status);
    ServeIgnoresOutstanding(posted, served, status, s.outstanding);
  }

  /** What the dispatch call inside a start sees is what it would see after the whole post. */
  lemma UnseenPlan(s: State, gone: set<nat>, q: nat, sqe: Sqe, rounds: nat, served: seq<nat>)
    requires Resting(s) && q < |s.sqs| && PostStep(s, q, sqe).Ok?
    requires Wired(Unseen(s, q, sqe)) && AllBelow(served, |s.sqs|)
    requires Dispatched(Counts(Unseen(s, q, sqe), gone), rounds, served)
    ensures var posted := PostStep(s, q, sqe).s;
            && Wired(posted) && |posted.sqs| == |s.sqs| && Counts(posted, gone) == Counts(Unseen(s, q, sqe), gone)
            && Dispatched(Counts(posted, gone), rounds, served) && Enough(posted, served)
  {
    PostWired(s, q, sqe);
    DispatchedEnough(PostStep(s, q, sqe).s, gone, rounds, served);
  }

  /** `start_cmd` on the simulated device. Refused exactly when the queue looks full.
      Otherwise the command is posted and the dispatch loop runs, before the command is
      outstanding. If no handler raises on a command of the schedule, the outcome is that of a
      post followed by the schedule. If one does, the exception gets out: the CID is used up,
      the schedule is cut short at that command, and the command just posted, whether served
      or not, is never entered among the outstanding ones. */
  method StartCmd(sys: NVMeSystem, gone: set<nat>, q: nat, sqe: Sqe, status: Sqe -> Option<nat>, ghost h: Hist)
    returns (r: Result, ghost rounds: nat, ghost served: seq<nat>, ghost h': Hist, ghost k: nat)
    requires sys.Valid() && Inv(sys.state, h) && sys.state.flight.Idle? && 0 !in gone
    requires q < |sys.sqMem| && (PostStep(sys.state, q, sqe).Ok? ==> FreshCid(sys.state, q))
    modifies sys, sys.doorbells, sys.cidMgr, sys.sqMem, sys.simSqs, sys.simCqs, sys.cqMem
    ensures sys.Valid() && sys.state.cids == old(sys.state).cids.Alloc()
    ensures StartEnds(old(sys.state), h, gone, q, sqe, rounds, served, status, r, sys.state, h', k)
  {
    ghost var s := sys.state;
    PostWired(s, q, sqe);
    rounds, served, h', k := 0, [], Record(s, h, Post(q, sqe)), 0;
    var ok, command := sys.PostToQueue(q, sqe);
    if !ok {
      PostKeeps(s, h, q, sqe);
      return Refused, rounds, served, h', k;
    }
    r, rounds, served := CheckCommands(sys, gone, status);
    h', k := StartedEnds(s, h, gone, q, sqe, rounds, served, status);
    if r == Done {
      sys.Track(command);
    }
  }

  /** The ways a start can end. */
  ghost predicate StartEnds(s: State, h: Hist, gone: set<nat>, q: nat, sqe: Sqe, rounds: nat, served: seq<nat>,
                            status: Sqe -> Option<nat>, r: Result, end: State, h': Hist, k: nat)
    requires Wired(s) && Tracks(s, h) && q < |s.sqs|
  {
    if PostStep(s, q, sqe).SqFull? then
      r == Refused && end == PostStep(s, q, sqe).s && h' == Record(s, h, Post(q, sqe)) && Inv(end, h')
    else
      var posted, h1 := PostStep(s, q, sqe).s, Record(s, h, Post(q, sqe));
      && Resting(posted) && Tracks(posted, h1) && |posted.sqs| == |s.sqs| && Enough(posted, served)
      && Dispatched(Counts(posted, gone), rounds, served)
      && r == (if Handled(posted, h1, served, status) then Done else Raised(HandlerRaised))
      && (r == Done ==>
            && Inv(end, h') && Effect(posted, h1, end, h', served) && CodedSince(h1, h', status)
            && Serve(posted, served, status) == Service.Served(end))
      && (r != Done ==>
            && end.outstanding == s.outstanding
            && HaltedAt(posted, h1, served, status, k, end.(outstanding := posted.outstanding)))
  }

  lemma StartedEnds(s: State, h: Hist, gone: set<nat>, q: nat, sqe: Sqe, rounds: nat, served: seq<nat>,
                    status: Sqe -> Option<nat>) returns (h': Hist, k: nat)
    requires Inv(s, h) && s.flight.Idle? && q < |s.sqs| && FreshCid(s, q) && PostStep(s, q, sqe).Ok?
    requires Wired(Unseen(s, q, sqe)) && AllBelow(served, |s.sqs|)
    requires Dispatched(Counts(Unseen(s, q, sqe), gone), rounds, served)
    ensures var o := Serve(Unseen(s, q, sqe), served, status);
            var end := if o.Served? then Tracked(o.s, Command(q, sqe.(cid := s.cids.value))) else o.s;
            end.cids == s.cids.Alloc() && StartEnds(s, h, gone, q, sqe, rounds, served, status, Reported(o), end, h', k)
  {
    PostKeeps(s, h, q, sqe);
    UnseenPlan(s, gone, q, sqe, rounds, served);
    ServeUnseen(s, q, sqe, served, status);
    h', k := RunEnds(PostStep(s, q, sqe).s, Record(s, h, Post(q, sqe)), served, status);
  }

  /** `get_completion`: finds a completion exactly when one is waiting, and raises exactly when
      the data of the command it belongs to cannot be copied out. */
  method GetCompletion(sys: NVMeSystem, c: nat, copied: bool, ghost h: Hist) returns (r: Result, ghost h': Hist)
    requires sys.Valid() && Inv(sys.state, h) && c < |sys.cqMem|
    modifies sys, sys.doorbells, sys.hostCqs, sys.hostSqs
    ensures sys.Valid() && (Ready(old(sys.state).cqs[c]) <==> h.consumed[c] < |h.comps[c]|)
    ensures r == if h.consumed[c] == |h.comps[c]| then Refused else if copied then Done else Raised(CopyFailed)
    ensures r != Raised(CopyFailed) ==>
            PollStep(old(sys.state), c) == Ok(sys.state) && Inv(sys.state, h') && h'.posted == h.posted
    ensures r == Raised(CopyFailed) ==> sys.state == Unlisted(old(sys.state), PolledKey(old(sys.state), c))
  {
    ghost var s := sys.state;
    PollKeeps(s, h, c);
    assert CqInv(s.cqs[c], h.comps[c], h.consumed[c]);
    ReadyIffUnconsumed(s.cqs[c], h.comps[c], h.consumed[c]);
    r := sys.GetCompletion(c, copied);
    h' := Record(s, h, Poll(c));
  }

  // ---- Whose completion the first poll finds ----------------------------------------

  lemma {:induction false} FindFirstBusy(s: State, gone: set<nat>, c: nat, q: nat, n: nat) returns (p: nat)
    requires Wired(s) && n <= q < |s.sqs| && s.cqOf[q] == c && Counts(s, gone)[q] > 0
    requires forall i :: 0 <= i < n && s.cqOf[i] == c ==> Counts(s, gone)[i] == 0
    ensures p <= q && FirstBusy(s, Counts(s, gone), c, p)
    decreases q - n
  {
    p := n;
    if n < q && (s.cqOf[n] != c || Counts(s, gone)[n] == 0) {
      p := FindFirstBusy(s, gone, c, q, n + 1);
    }
  }

  lemma ServedHadCommands(s: State, gone: set<nat>, rounds: nat, served: seq<nat>)
    requires Wired(s) && 0 < |s.sqs| && AllBelow(served, |s.sqs|) && Dispatched(Counts(s, gone), rounds, served)
    ensures forall k :: 0 <= k < |served| ==> Counts(s, gone)[served[k]] > 0
  {
    forall k | 0 <= k < |served|
      ensures Counts(s, gone)[served[k]] > 0
    {
      TimesIn(served, served[k]);
      DispatchedExact(Counts(s, gone), rounds, served, served[k]);
    }
  }

  /** After a dispatch call with a command waiting on q, the host finds a completion on q's
      CQ: the one that waited there already, or else that of the first SQ in the table with a
      command waiting. */
  lemma ServedFinds(s: State, gone: set<nat>, h: Hist, q: nat, rounds: nat, served: seq<nat>, end: State, h': Hist)
    requires QueuesInv(s, h) && q < |s.sqs| && q !in gone && Waiting(s.sqs[q]) > 0 && Enough(s, served)
    requires Dispatched(Counts(s, gone), rounds, served) && Effect(s, h, end, h', served)
    ensures var c := s.cqOf[q];
            && h.consumed[c] < |h'.comps[c]|
            && (h.consumed[c] < |h.comps[c]| ==> h'.comps[c][h.consumed[c]] == h.comps[c][h.consumed[c]])
            && (h.consumed[c] == |h.comps[c]| ==> FirstBusy(s, Counts(s, gone), c, h'.comps[c][h.consumed[c]].sqid))
  {
    var c, ns := s.cqOf[q], Counts(s, gone);
    var p := FindFirstBusy(s, gone, c, q, 0);
    NoStarvation(ns, rounds, served, p);
    TimesIn(served, p);
    OntoHas(s, served, c, p);
    ServedHadCommands(s, gone, rounds, served);
    DispatchedInOrder(ns, rounds, served);
    FirstOnto(s, ns, served, c, p);
    var sqids, n := SqidsOf(h'.comps[c]), |h.comps[c]|;
    assert sqids == SqidsOf(h.comps[c]) + Onto(s, served, c);
    assert sqids[n] == p;
  }

  /** The next completion on q's CQ can only be that of the next command posted to q: none is
      ready, and no SQ that feeds the CQ and was not deleted has a command waiting, up to q in
      the table. */
  ghost predicate NextInLine(s: State, gone: set<nat>, q: nat)
    requires Wired(s) && q < |s.sqs|
  {
    && !Ready(s.cqs[s.cqOf[q]])
    && forall p :: 0 <= p <= q && p !in gone && s.cqOf[p] == s.cqOf[q] ==> Waiting(s.sqs[p]) == 0
  }

  /** A post adds one command to its own queue. */
  lemma PostWaits(s: State, h: Hist, q: nat, sqe: Sqe, p: nat)
    requires QueuesInv(s, h) && s.flight.Idle? && q < |s.sqs| && p < |s.sqs| && PostStep(s, q, sqe).Ok?
    ensures var s' := PostStep(s, q, sqe).s;
            Wired(s') && |s'.sqs| == |s.sqs| && Waiting(s'.sqs[p]) == Waiting(s.sqs[p]) + (if p == q then 1 else 0)
  {
    PostQueues(s, h, q, sqe);
    WaitingExact(s, h, p);
    WaitingExact(PostStep(s, q, sqe).s, Record(s, h, Post(q, sqe)), p);
  }

  /** With q's own commands all consumed and none waiting, nothing of q's is on its CQ. */
  lemma ReadyIsOther(s: State, h: Hist, q: nat)
    requires QueuesInv(s, h) && s.flight.Idle? && q < |s.sqs|
    ensures var c := s.cqOf[q];
            && (Consumed(s, h, q) == |h.posted[q]| ==> Waiting(s.sqs[q]) == 0)
            && (Waiting(s.sqs[q]) == 0 && !Ready(s.cqs[c]) ==> Consumed(s, h, q) == |h.posted[q]|)
            && (Ready(s.cqs[c]) ==> h.consumed[c] < |h.comps[c]|)
            && (Ready(s.cqs[c]) && Consumed(s, h, q) == |h.posted[q]| ==> h.comps[c][h.consumed[c]].sqid != q)
            && (!Ready(s.cqs[c]) ==> h.consumed[c] == |h.comps[c]|)
  {
    var c := s.cqOf[q];
    PollFinds(s, h, c);
    WaitingExact(s, h, q);
    assert SqInv(s.sqs[q], h.posted[q], Fetched(s, h, q), Consumed(s, h, q));
    assert h.comps[c][..|h.comps[c]|] == h.comps[c];
    assert CqInv(s.cqs[c], h.comps[c], h.consumed[c]);
  }

  /** With one command more on q, the first busy SQ is q exactly when none before it was. */
  lemma FirstIsOwn(s: State, s1: State, gone: set<nat>, q: nat, x: nat)
    requires Wired(s) && Wired(s1) && s1.cqOf == s.cqOf && |s1.sqs| == |s.sqs| && q < |s.sqs| && q !in gone
    requires forall p: nat :: p < |s.sqs| ==> Waiting(s1.sqs[p]) == Waiting(s.sqs[p]) + (if p == q then 1 else 0)
    requires FirstBusy(s1, Counts(s1, gone), s.cqOf[q], x)
    ensures x == q && Waiting(s.sqs[q]) == 0 <==>
            forall p :: 0 <= p <= q && p !in gone && s.cqOf[p] == s.cqOf[q] ==> Waiting(s.sqs[p]) == 0
  {
  }

  /** After a start, the completion the first poll finds is that of the command just posted
      if and only if the command was next in line. */
  lemma FindsOwnIff(s: State, gone: set<nat>, h: Hist, q: nat, sqe: Sqe, rounds: nat, served: seq<nat>, end: State,
                    h': Hist)
    requires QueuesInv(s, h) && s.flight.Idle? && q < |s.sqs| && q !in gone && PostStep(s, q, sqe).Ok?
    requires var s1, h1 := PostStep(s, q, sqe).s, Record(s, h, Post(q, sqe));
             Wired(s1) && Enough(s1, served) && Dispatched(Counts(s1, gone), rounds, served)
                 && Effect(s1, h1, end, h', served)
    ensures var c := s.cqOf[q];
            && h.consumed[c] < |h'.comps[c]|
            && (NextInLine(s, gone, q) <==> Consumed(s, h, q) == |h.posted[q]| && h'.comps[c][h.consumed[c]].sqid == q)
  {
    var s1, h1 := PostStep(s, q, sqe).s, Record(s, h, Post(q, sqe));
    PostQueues(s, h, q, sqe);
    forall p: nat | p < |s.sqs|
      ensures |s1.sqs| == |s.sqs| && Waiting(s1.sqs[p]) == Waiting(s.sqs[p]) + (if p == q then 1 else 0)
    {
      PostWaits(s, h, q, sqe, p);
    }
    ReadyIsOther(s, h, q);
    ServedFinds(s1, gone, h1, q, rounds, served, end, h');
    if !Ready(s.cqs[s.cqOf[q]]) {
      FirstIsOwn(s, s1, gone, q, h'.comps[s.cqOf[q]][h.consumed[s.cqOf[q]]].sqid);
    }
  }

  /** A poll takes the command n of q out of the outstanding ones if and only if it finds a
      completion of q with no older command pending. */
  lemma PollTakes(s: State, h: Hist, q: nat, n: nat)
    requires QueuesInv(s, h) && OutInv(s, h) && Pending(s, h, q, n) && Ready(s.cqs[s.cqOf[q]])
    requires PollStep(s, s.cqOf[q]).Ok?
    ensures var c, key := s.cqOf[q], (h.posted[q][n].cid, q);
            && h.consumed[c] < |h.comps[c]|
            && (key !in PollStep(s, c).s.outstanding <==> Consumed(s, h, q) == n && h.comps[c][h.consumed[c]].sqid == q)
  {
    var c := s.cqOf[q];
    OutKeys(s, h);
    PollIsConsuming(s, h, c);
    PollFinds(s, h, c);
    assert PendingListed(s, h) && PendingDistinct(s, h);
    assert (h.posted[q][n].cid, q) in s.outstanding;
  }

  /** The first poll after a start of a command that was next in line finds its answer. */
  lemma SyncDelivers(s: State, gone: set<nat>, h: Hist, q: nat, sqe: Sqe, rounds: nat, served: seq<nat>,
                     status: Sqe -> Option<nat>, end: State, g: Hist)
    requires Inv(s, h) && s.flight.Idle? && q < |s.sqs| && q !in gone && PostStep(s, q, sqe).Ok?
    requires StartPlan(s, gone, q, sqe, rounds, served) && NextInLine(s, gone, q) && Inv(end, g)
    requires Effect(PostStep(s, q, sqe).s, Record(s, h, Post(q, sqe)), end, g, served)
    requires CodedSince(Record(s, h, Post(q, sqe)), g, status)
    ensures var c := s.cqOf[q];
            && c < |end.cqs| && CqWired(end.cqs[c])
            && Answers(end.cqs[c].slots[end.cqs[c].head], q, sqe.(cid := s.cids.value), status)
  {
    var c := s.cqOf[q];
    OwnIsNew(s, gone, h, q, sqe, rounds, served, end, g);
    assert Coded(g, c, g.consumed[c], status);
    HeadAnswers(end, g, c, q, status);
  }

  lemma OwnIsNew(s: State, gone: set<nat>, h: Hist, q: nat, sqe: Sqe, rounds: nat, served: seq<nat>, end: State,
                 g: Hist)
    requires Inv(s, h) && s.flight.Idle? && q < |s.sqs| && q !in gone && PostStep(s, q, sqe).Ok?
    requires StartPlan(s, gone, q, sqe, rounds, served) && NextInLine(s, gone, q) && Inv(end, g)
    requires Effect(PostStep(s, q, sqe).s, Record(s, h, Post(q, sqe)), end, g, served)
    ensures var c := s.cqOf[q];
            && c < |end.cqs| && |g.comps| == |h.comps| && g.consumed[c] == |h.comps[c]| < |g.comps[c]|
            && g.comps[c][g.consumed[c]].sqid == q && Consumed(end, g, q) < |g.posted[q]|
            && g.posted[q][Consumed(end, g, q)] == sqe.(cid := s.cids.value)
  {
    FindsOwnIff(s, gone, h, q, sqe, rounds, served, end, g);
    PollFinds(s, h, s.cqOf[q]);
    StillPending(s, h, q, sqe, served, end, g);
  }

  lemma HeadAnswers(s: State, h: Hist, c: nat, q: nat, status: Sqe -> Option<nat>)
    requires QueuesInv(s, h) && c < |s.cqs| && h.consumed[c] < |h.comps[c]| && Coded(h, c, h.consumed[c], status)
    requires h.comps[c][h.consumed[c]].sqid == q
    ensures q < |s.sqs| && Consumed(s, h, q) < |h.posted[q]|
    ensures Answers(s.cqs[c].slots[s.cqs[c].head], q, h.posted[q][Consumed(s, h, q)], status)
  {
    PollFinds(s, h, c);
    PollFindsStatus(s, h, c, status);
  }

  /** When nothing is outstanding on the SQs that feed q's CQ, q's next command is next in
      line. */
  lemma QuietIsNext(s: State, gone: set<nat>, h: Hist, q: nat)
    requires Inv(s, h) && s.flight.Idle? && q < |s.sqs|
    requires forall k :: k in s.outstanding && k.1 < |s.sqs| ==> s.cqOf[k.1] != s.cqOf[q]
    ensures NextInLine(s, gone, q)
  {
    forall p | 0 <= p < |s.sqs| && s.cqOf[p] == s.cqOf[q]
      ensures Consumed(s, h, p) == |h.posted[p]| && Waiting(s.sqs[p]) == 0
    {
      assert SqInv(s.sqs[p], h.posted[p], Fetched(s, h, p), Consumed(s, h, p));
      assert PendingListed(s, h) && !Pending(s, h, p, Consumed(s, h, p));
      ReadyIsOther(s, h, p);
    }
    PollFinds(s, h, s.cqOf[q]);
  }

  /** `sync_cmd`: ends like its start when that is refused or raises. Otherwise the first poll
      after the start always finds a completion, and it completes the command just posted, so
      that the assertion on it holds, if and only if the command was next in line. */
  method SyncCmd(sys: NVMeSystem, gone: set<nat>, q: nat, sqe: Sqe, status: Sqe -> Option<nat>, copied: bool,
                 ghost h: Hist)
    returns (r: Result, ghost rounds: nat, ghost served: seq<nat>, ghost h': Hist, ghost k: nat)
    requires sys.Valid() && Inv(sys.state, h) && sys.state.flight.Idle? && 0 !in gone
    requires q < |sys.sqMem| && q !in gone && (PostStep(sys.state, q, sqe).Ok? ==> FreshCid(sys.state, q))
    modifies sys, sys.doorbells, sys.cidMgr, sys.sqMem, sys.simSqs, sys.simCqs, sys.cqMem, sys.hostCqs, sys.hostSqs
    ensures sys.Valid()
    ensures r == Refused || r == Raised(HandlerRaised) ==>
              StartEnds(old(sys.state), h, gone, q, sqe, rounds, served, status, r, sys.state, h', k)
    ensures PostStep(old(sys.state), q, sqe).Ok? ==>
              var h1 := Record(old(sys.state), h, Post(q, sqe));
              && StartPlan(old(sys.state), gone, q, sqe, rounds, served)
              && r == if !Handled(PostStep(old(sys.state), q, sqe).s, h1, served, status) then Raised(HandlerRaised)
                      else if copied then Done else Raised(CopyFailed)
    ensures PostStep(old(sys.state), q, sqe).SqFull? ==> r == Refused
    ensures r == Done ==>
              && Inv(sys.state, h')
              && h'.posted == h.posted[q := h.posted[q] + [sqe.(cid := old(sys.state).cids.value)]]
    ensures r == Done ==>
              (old(NextInLine(sys.state, gone, q)) <==> (old(sys.state).cids.value, q) !in sys.state.outstanding)
  {
    ghost var s := sys.state;
    r, rounds, served, h', k := StartCmd(sys, gone, q, sqe, status, h);
    if r == Done {
      ghost var end, g := sys.state, h';
      StartedFinds(s, gone, h, q, sqe, rounds, served, end, g);
      r, h' := GetCompletion(sys, sys.cqOf[q], copied, h');
    }
  }

  /** The schedule of the dispatch call inside a start. */
  ghost predicate StartPlan(s: State, gone: set<nat>, q: nat, sqe: Sqe, rounds: nat, served: seq<nat>)
    requires Wired(s) && q < |s.sqs|
  {
    var posted := PostStep(s, q, sqe).s;
    Resting(posted) && |posted.sqs| == |s.sqs| && Enough(posted, served)
        && Dispatched(Counts(posted, gone), rounds, served)
  }

  /** What the first poll after a start does. */
  lemma StartedFinds(s: State, gone: set<nat>, h: Hist, q: nat, sqe: Sqe, rounds: nat, served: seq<nat>, end: State,
                     g: Hist)
    requires Inv(s, h) && s.flight.Idle? && q < |s.sqs| && q !in gone && PostStep(s, q, sqe).Ok?
    requires StartPlan(s, gone, q, sqe, rounds, served)
    requires Effect(PostStep(s, q, sqe).s, Record(s, h, Post(q, sqe)), end, g, served) && Inv(end, g)
    ensures end.cqOf == s.cqOf && g.consumed[s.cqOf[q]] < |g.comps[s.cqOf[q]]|
    ensures g.posted == h.posted[q := h.posted[q] + [sqe.(cid := s.cids.value)]]
    ensures PollStep(end, s.cqOf[q]).Ok?
    ensures NextInLine(s, gone, q) <==> (s.cids.value, q) !in PollStep(end, s.cqOf[q]).s.outstanding
  {
    var c, n := s.cqOf[q], |h.posted[q]|;
    FindsOwnIff(s, gone, h, q, sqe, rounds, served, end, g);
    StillPending(s, h, q, sqe, served, end, g);
    PollKnows(end, g, c);
    PollFinds(end, g, c);
    PollTakes(end, g, q, n);
  }

  /** The dispatch call leaves the command just posted pending, as its queue's newest. */
  lemma StillPending(s: State, h: Hist, q: nat, sqe: Sqe, served: seq<nat>, end: State, g: Hist)
    requires QueuesInv(s, h) && q < |s.sqs| && PostStep(s, q, sqe).Ok?
    requires var s1, h1 := PostStep(s, q, sqe).s, Record(s, h, Post(q, sqe));
             Wired(s1) && AllBelow(served, |s1.sqs|) && Effect(s1, h1, end, g, served)
    requires Wired(end) && Tracks(end, g)
    ensures Consumed(end, g, q) == Consumed(s, h, q) && Pending(end, g, q, |h.posted[q]|)
  {
    var c := s.cqOf[q];
    assert g.comps[c][..g.consumed[c]] == h.comps[c][..h.consumed[c]];
    assert SqInv(s.sqs[q], h.posted[q], Fetched(s, h, q), Consumed(s, h, q));
  }
}
