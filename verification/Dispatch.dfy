/** `check_commands`: the simulator's dispatch loop. */
module Dispatch {
  import opened Options
  import opened Protocol
  import opened Queues
  import opened System
  import opened RoundRobin
  import opened Serving

  /** How turns are reported. */
  function Reported(o: Service): Result {
    if o.Served? then Done else Raised(o.fault)
  }

  /** The simulator has run the given turns since state s, up to the first exception. */
  ghost predicate Ran(sys: NVMeSystem, r: Result, s: State, served: seq<nat>, status: Sqe -> Option<nat>)
    reads sys, sys.doorbells, sys.sqMem, sys.cqMem, sys.hostSqs, sys.simSqs, sys.hostCqs, sys.simCqs, sys.cidMgr
  {
    && sys.Valid() && Resting(s) && |s.sqs| == |sys.sqMem| && AllBelow(served, |s.sqs|)
    && var o := Serve(s, served, status); sys.state == o.s && r == Reported(o)
  }

  /** It has run them all. */
  ghost predicate Reached(sys: NVMeSystem, s: State, served: seq<nat>, status: Sqe -> Option<nat>)
    reads sys, sys.doorbells, sys.sqMem, sys.cqMem, sys.hostSqs, sys.simSqs, sys.hostCqs, sys.simCqs, sys.cidMgr
  {
    Ran(sys, Done, s, served, status)
  }

  /** `get_command`, and the handler of the command if there is one. */
  method HandleOne(sys: NVMeSystem, q: nat, status: Sqe -> Option<nat>) returns (r: Result, got: bool)
    requires sys.Valid() && sys.state.flight.Idle? && q < |sys.sqMem|
    modifies sys`state, sys.simSqs, sys.simCqs, sys.cqMem
    ensures got <==> Waiting(old(sys.state).sqs[q]) > 0
    ensures var o := ServeOne(old(sys.state), q, status); sys.Valid() && sys.state == o.s && r == Reported(o)
  {
    var slot := sys.Fetch(q);
    got := slot.Some?;
    if !got {
      return Done, false;
    }
    var sc := status(sys.simSqs[q].memory[slot.value]);
    if sc.None? {
      sys.GiveUp();
      return Raised(HandlerRaised), true;
    }
    r := sys.Complete(q, slot.value, sc.value);
    if r != Done {
      sys.GiveUp();
    }
  }

  /** The same turn as part of a schedule. */
  method TakeTurn(sys: NVMeSystem, q: nat, status: Sqe -> Option<nat>, ghost s: State, ghost served: seq<nat>)
    returns (r: Result, got: bool)
    requires Reached(sys, s, served, status) && q < |s.sqs| && Enough(s, served)
    modifies sys`state, sys.simSqs, sys.simCqs, sys.cqMem
    ensures got <==> Times(served, q) < Waiting(s.sqs[q])
    ensures !got ==> r == Done && Reached(sys, s, served, status)
    ensures got ==> Ran(sys, r, s, served + [q], status)
  {
    ghost var before := sys.state;
    ServeWaiting(s, served, status, q);
    ServeSnoc(s, served, q, status);
    ServeOneWaiting(before, q, status, q);
    r, got := HandleOne(sys, q, status);
  }

  /** Commands the dispatch loop sees: none in the queues that were deleted. */
  ghost function Counts(s: State, gone: set<nat>): (ns: seq<nat>)
    requires Wired(s)
    ensures |ns| == |s.sqs| && Fits(s, ns)
  {
    seq(|s.sqs|, q requires 0 <= q < |s.sqs| => if q in gone then 0 else Waiting(s.sqs[q]))
  }

  /** Each queue counts with all of its waiting commands or with none. */
  ghost predicate Fits(s: State, ns: seq<nat>)
    requires Wired(s)
  {
    |ns| == |s.sqs| && forall q :: 0 <= q < |ns| ==> ns[q] == 0 || ns[q] == Waiting(s.sqs[q])
  }

  lemma ZerosEnough(s: State, n: nat)
    requires Wired(s) && 0 < |s.sqs| && n <= Waiting(s.sqs[0])
    ensures Enough(s, Zeros(n))
  {
    forall q: nat
      ensures |Zeros(n)| == n && Times(Zeros(n), q) == if q == 0 then n else 0
    {
      ZerosTimes(n, q);
    }
    ZerosBelow(n);
  }

  /** One admin command, if any is left. */
  method AdminTurn(sys: NVMeSystem, status: Sqe -> Option<nat>, ghost s: State, ghost n: nat)
    returns (r: Result, got: bool)
    requires 0 < |s.sqs| && Reached(sys, s, Zeros(n), status) && n <= Waiting(s.sqs[0])
    modifies sys`state, sys.simSqs, sys.simCqs, sys.cqMem
    ensures got <==> n < Waiting(s.sqs[0])
    ensures Ran(sys, r, s, Zeros(if got then n + 1 else n), status) && (!got ==> r == Done)
  {
    ZerosEnough(s, n);
    ZerosTimes(n, 0);
    r, got := TakeTurn(sys, 0, status, s, Zeros(n));
  }

  /** All admin commands first. */
  method DrainAdmin(sys: NVMeSystem, status: Sqe -> Option<nat>, ghost s: State) returns (r: Result, ghost n: nat)
    requires 0 < |s.sqs| && Reached(sys, s, Zeros(0), status)
    modifies sys`state, sys.simSqs, sys.simCqs, sys.cqMem
    ensures n <= Waiting(s.sqs[0]) && Ran(sys, r, s, Zeros(n), status) && (r == Done ==> n == Waiting(s.sqs[0]))
  {
    n := 0;
    var got := true;
    while got
      invariant n <= Waiting(s.sqs[0]) && Reached(sys, s, Zeros(n), status)
      invariant !got ==> n == Waiting(s.sqs[0])
      decreases got, Waiting(s.sqs[0]) - n
    {
      r, got := AdminTurn(sys, status, s, n);
      n := if got then n + 1 else n;
      if r != Done {
        return;
      }
    }
    r := Done;
  }

  /** What the admin turns leave waiting in an IO queue. */
  lemma StillWaiting(sys: NVMeSystem, status: Sqe -> Option<nat>, s: State, n: nat, q: nat)
    requires Reached(sys, s, Zeros(n), status) && 0 < |s.sqs| && n <= Waiting(s.sqs[0]) && 0 < q < |s.sqs|
    ensures sys.state.sqs[q] == sys.SqView(q) && Waiting(sys.SqView(q)) == Waiting(s.sqs[q])
  {
    ZerosEnough(s, n);
    ServeWaiting(s, Zeros(n), status, q);
    ZerosTimes(n, q);
  }

  /** What the loop sees in one queue; the admin queue and deleted ones are passed over. */
  method WaitingAt(sys: NVMeSystem, gone: set<nat>, q: nat, ghost status: Sqe -> Option<nat>, ghost s: State,
                   ghost n: nat)
    returns (waiting: nat)
    requires Reached(sys, s, Zeros(n), status) && 0 < |s.sqs| && n <= Waiting(s.sqs[0]) && q < |s.sqs|
    ensures waiting == if q == 0 then 0 else Counts(s, gone)[q]
  {
    if q in gone || sys.simSqs[q].qid == 0 {
      return 0;
    }
    StillWaiting(sys, status, s, n, q);
    waiting := sys.simSqs[q].NumEntries();
  }

  /** IO queues with commands waiting, in table order, and how many that are. */
  method BusyQueues(sys: NVMeSystem, gone: set<nat>, ghost status: Sqe -> Option<nat>, ghost s: State, ghost n: nat)
    returns (busy: seq<nat>, total: nat)
    requires Reached(sys, s, Zeros(n), status) && 0 < |s.sqs| && n <= Waiting(s.sqs[0])
    ensures busy == BusyIds(Counts(s, gone), |s.sqs|) && Listed(busy, Counts(s, gone))
            && total == Total(busy, Counts(s, gone))
  {
    ghost var ns := Counts(s, gone);
    busy, total := [], 0;
    for q := 0 to |sys.simSqs|
      invariant busy == BusyIds(ns, q) && Listed(busy, ns) && total == Total(busy, ns)
    {
      BusyStep(ns, q);
      var waiting := WaitingAt(sys, gone, q, status, s, n);
      if waiting > 0 {
        busy := busy + [q];
        total := total + waiting;
      }
    }
  }

  lemma ScheduleEnough(s: State, ns: seq<nat>, busy: seq<nat>, a: nat, r: nat, i: nat)
    requires Wired(s) && Fits(s, ns) && Listed(busy, ns) && i <= |busy| && 0 !in busy
    requires ns != [] && a <= ns[0]
    ensures Enough(s, Schedule(busy, ns, a, r, i))
  {
    ScheduleBelow(busy, ns, a, r, i);
    forall q | 0 <= q < |s.sqs|
      ensures Times(Schedule(busy, ns, a, r, i), q) <= Waiting(s.sqs[q])
    {
      ScheduleBound(busy, ns, a, r, i, q);
    }
  }

  /** A batch in progress: the counts it started from and its busy queues. */
  ghost predicate Batch(s: State, ns: seq<nat>, busy: seq<nat>, a: nat) {
    Resting(s) && Fits(s, ns) && ns != [] && a <= ns[0] && Listed(busy, ns) && 0 !in busy
    && forall i :: 0 <= i < |busy| ==> ns[busy[i]] > 0
  }

  /** The turn of busy queue i in a pass. */
  method BusyTurn(sys: NVMeSystem, busy: seq<nat>, i: nat, status: Sqe -> Option<nat>,
                  ghost s: State, ghost ns: seq<nat>, ghost a: nat, ghost pass: nat)
    returns (r: Result, got: bool)
    requires Batch(s, ns, busy, a) && i < |busy|
    requires Reached(sys, s, Schedule(busy, ns, a, pass, i), status)
    modifies sys`state, sys.simSqs, sys.simCqs, sys.cqMem
    ensures got <==> ns[busy[i]] > pass
    ensures Ran(sys, r, s, Schedule(busy, ns, a, pass, i + 1), status)
  {
    ghost var before := Schedule(busy, ns, a, pass, i);
    ScheduleEnough(s, ns, busy, a, pass, i);
    ScheduleBound(busy, ns, a, pass, i, busy[i]);
    ScheduleStep(busy, ns, a, pass, i);
    assert before + [] == before;
    r, got := TakeTurn(sys, busy[i], status, s, before);
  }

  /** The same turn, counted. */
  method CountTurn(sys: NVMeSystem, busy: seq<nat>, i: nat, handled: nat, status: Sqe -> Option<nat>,
                   ghost s: State, ghost ns: seq<nat>, ghost a: nat, ghost pass: nat)
    returns (r: Result, handled': nat)
    requires Batch(s, ns, busy, a) && i < |busy| && handled == |Pass(busy[..i], ns, pass)|
    requires Reached(sys, s, Schedule(busy, ns, a, pass, i), status)
    modifies sys`state, sys.simSqs, sys.simCqs, sys.cqMem
    ensures handled' == |Pass(busy[..i + 1], ns, pass)|
    ensures Ran(sys, r, s, Schedule(busy, ns, a, pass, i + 1), status)
  {
    var got;
    PassStep(busy, ns, pass, i);
    r, got := BusyTurn(sys, busy, i, status, s, ns, a, pass);
    handled' := if got then handled + 1 else handled;
  }

  /** One pass over the busy queues. */
  method ServePass(sys: NVMeSystem, busy: seq<nat>, status: Sqe -> Option<nat>,
                   ghost s: State, ghost ns: seq<nat>, ghost a: nat, ghost pass: nat)
    returns (r: Result, handled: nat, at: nat)
    requires Batch(s, ns, busy, a) && Reached(sys, s, Schedule(busy, ns, a, pass, 0), status)
    modifies sys`state, sys.simSqs, sys.simCqs, sys.cqMem
    ensures at <= |busy| && Ran(sys, r, s, Schedule(busy, ns, a, pass, at), status)
    ensures r == Done ==> at == |busy| && handled == |Pass(busy, ns, pass)|
  {
    r, handled, at := Done, 0, 0;
    while at < |busy|
      invariant at <= |busy| && r == Done && handled == |Pass(busy[..at], ns, pass)|
      invariant Reached(sys, s, Schedule(busy, ns, a, pass, at), status)
    {
      r, handled := CountTurn(sys, busy, at, handled, status, s, ns, a, pass);
      at := at + 1;
      if r != Done {
        return;
      }
    }
    assert busy[..|busy|] == busy;
  }

  /** Whole passes until the batch is handled. */
  method ServeBatch(sys: NVMeSystem, busy: seq<nat>, total: nat, status: Sqe -> Option<nat>,
                    ghost s: State, ghost ns: seq<nat>, ghost a: nat)
    returns (r: Result, ghost rounds: nat, ghost at: nat)
    requires Batch(s, ns, busy, a) && total == Total(busy, ns)
    requires Reached(sys, s, Schedule(busy, ns, a, 0, 0), status)
    modifies sys`state, sys.simSqs, sys.simCqs, sys.cqMem
    ensures at <= |busy| && Ran(sys, r, s, Schedule(busy, ns, a, rounds, at), status)
    ensures r == Done ==> at == 0 && LeastPasses(busy, ns, Min(BATCH, total), rounds)
    ensures r != Done ==> |Passes(busy, ns, rounds)| < Min(BATCH, total)
  {
    ghost var target := Min(BATCH, total);
    r, rounds, at := Done, 0, 0;
    var left: int := Min(BATCH, total);
    BudgetStart(busy, ns, target);
    while left > 0
      invariant r == Done && at == 0 && Reached(sys, s, Schedule(busy, ns, a, rounds, 0), status)
      invariant Budget(busy, ns, target, rounds, left)
    {
      BudgetStep(busy, ns, target, rounds, left);
      var handled, stop;
      r, handled, stop := ServePass(sys, busy, status, s, ns, a, rounds);
      if r != Done {
        at := stop;
        return;
      }
      ScheduleNext(busy, ns, a, rounds);
      left := left - handled;
      rounds := rounds + 1;
    }
    BudgetSpent(busy, ns, target, rounds, left);
  }

  /** The IO half of `check_commands`, once the admin queue is empty. */
  method ServeIo(sys: NVMeSystem, gone: set<nat>, status: Sqe -> Option<nat>, ghost s: State,
                 ghost rounds: nat, ghost served: seq<nat>)
    returns (r: Result)
    requires Resting(s) && 0 < |s.sqs| && 0 !in gone && Reached(sys, s, Zeros(Waiting(s.sqs[0])), status)
    requires Dispatched(Counts(s, gone), rounds, served) && AllBelow(served, |s.sqs|)
    modifies sys`state, sys.simSqs, sys.simCqs, sys.cqMem
    ensures Ran(sys, r, s, served, status)
  {
    ghost var ns := Counts(s, gone);
    var busy, total := FindBatch(sys, gone, status, s);
    ghost var k, at;
    r, k, at := ServeBatch(sys, busy, total, status, s, ns, ns[0]);
    IoEnds(s, ns, busy, rounds, served, k, at, status);
    SameRun(sys, r, s, Schedule(busy, ns, ns[0], k, at), served, status);
  }

  /** The batch of a call, after the admin commands. */
  method FindBatch(sys: NVMeSystem, gone: set<nat>, ghost status: Sqe -> Option<nat>, ghost s: State)
    returns (busy: seq<nat>, total: nat)
    requires Resting(s) && 0 < |s.sqs| && 0 !in gone && Reached(sys, s, Zeros(Waiting(s.sqs[0])), status)
    ensures var ns := Counts(s, gone);
            && Batch(s, ns, busy, ns[0]) && busy == BusyIds(ns, |ns|) && total == Total(busy, ns)
            && Reached(sys, s, Schedule(busy, ns, ns[0], 0, 0), status)
  {
    ghost var ns := Counts(s, gone);
    busy, total := BusyQueues(sys, gone, status, s, ns[0]);
    BusyIdsExact(ns, |ns|);
    ScheduleZero(busy, ns, ns[0]);
  }

  lemma SameRun(sys: NVMeSystem, r: Result, s: State, run: seq<nat>, plan: seq<nat>, status: Sqe -> Option<nat>)
    requires Ran(sys, r, s, run, status) && AllBelow(plan, |s.sqs|) && Serve(s, plan, status) == Serve(s, run, status)
    ensures Ran(sys, r, s, plan, status)
  {
  }

  /** Wherever the IO half stops, that comes to the same as the whole plan. */
  lemma IoEnds(s: State, ns: seq<nat>, busy: seq<nat>, rounds: nat, served: seq<nat>, k: nat, at: nat,
               status: Sqe -> Option<nat>)
    requires Resting(s) && |ns| == |s.sqs| && ns != [] && busy == BusyIds(ns, |ns|) && Dispatched(ns, rounds, served)
    requires AllBelow(served, |s.sqs|) && at <= |busy| && AllBelow(Schedule(busy, ns, ns[0], k, at), |s.sqs|)
    requires var o := Serve(s, Schedule(busy, ns, ns[0], k, at), status);
             if o.Served? then at == 0 && LeastPasses(busy, ns, Min(BATCH, Total(busy, ns)), k)
             else |Passes(busy, ns, k)| < Min(BATCH, Total(busy, ns))
    ensures Serve(s, served, status) == Serve(s, Schedule(busy, ns, ns[0], k, at), status)
  {
    var now := Schedule(busy, ns, ns[0], k, at);
    if Serve(s, now, status).Served? {
      ScheduleDispatched(ns, busy, k);
      PlanUnique(ns, rounds, served, k, now);
    } else {
      StopsInPlan(ns, busy, rounds, served, k, at);
      BrokenStays(s, now, served, status);
    }
  }

  /** The plan of a call on the commands waiting in s. */
  lemma PlanFor(s: State, gone: set<nat>) returns (rounds: nat, served: seq<nat>)
    requires Wired(s) && 0 < |s.sqs|
    ensures Dispatched(Counts(s, gone), rounds, served) && AllBelow(served, |s.sqs|)
  {
    var ns := Counts(s, gone);
    rounds, served := PlanExists(ns);
    var busy := BusyIds(ns, |ns|);
    ScheduleBelow(busy, ns, ns[0], rounds, 0);
    assert busy[..0] == [];
    assert Schedule(busy, ns, ns[0], rounds, 0) == served;
  }

  lemma DispatchedEnough(s: State, gone: set<nat>, rounds: nat, served: seq<nat>)
    requires Wired(s) && 0 < |s.sqs| && AllBelow(served, |s.sqs|)
    requires Dispatched(Counts(s, gone), rounds, served)
    ensures Enough(s, served)
  {
    forall q | 0 <= q < |s.sqs|
      ensures Times(served, q) <= Waiting(s.sqs[q])
    {
      DispatchedExact(Counts(s, gone), rounds, served, q);
    }
  }

  /** The plan of a call takes all that waits in a queue when no more than 100 IO commands are
      waiting. */
  lemma AllTaken(s: State, gone: set<nat>, rounds: nat, served: seq<nat>, q: nat)
    requires Wired(s) && q < |s.sqs| && q !in gone && Dispatched(Counts(s, gone), rounds, served)
    requires IoWaiting(Counts(s, gone), |s.sqs|) <= 100
    ensures Times(served, q) == Waiting(s.sqs[q])
  {
    DispatchedExact(Counts(s, gone), rounds, served, q);
  }

  /** Nothing waits in the queues that are left. */
  ghost predicate NoneWaits(s: State, gone: set<nat>)
    requires Wired(s)
  {
    forall q :: 0 <= q < |s.sqs| && q !in gone ==> Waiting(s.sqs[q]) == 0
  }

  lemma AllHandled(s: State, gone: set<nat>, rounds: nat, served: seq<nat>, status: Sqe -> Option<nat>)
    requires Resting(s) && 0 < |s.sqs| && AllBelow(served, |s.sqs|) && Serve(s, served, status).Served?
    requires Dispatched(Counts(s, gone), rounds, served) && IoWaiting(Counts(s, gone), |s.sqs|) <= 100
    ensures NoneWaits(Serve(s, served, status).s, gone)
  {
    DispatchedEnough(s, gone, rounds, served);
    forall q | 0 <= q < |s.sqs| && q !in gone
      ensures Waiting(Serve(s, served, status).s.sqs[q]) == 0
    {
      AllTaken(s, gone, rounds, served, q);
      ServeWaiting(s, served, status, q);
    }
  }

  /** `check_commands`: drains the admin queue, then makes whole passes over the IO queues
      that had commands waiting, until at least 100 of them, or all, are handled. With up to
      100 waiting, nothing waits afterwards in any SQ that was not deleted. SQs that
      were deleted are passed over; without any queue pair the lookup of the admin pair
      raises. An exception in a handler ends the call where it is. */
  method CheckCommands(sys: NVMeSystem, gone: set<nat>, status: Sqe -> Option<nat>)
    returns (r: Result, ghost rounds: nat, ghost served: seq<nat>)
    requires sys.Valid() && sys.state.flight.Idle? && 0 !in gone
    modifies sys`state, sys.simSqs, sys.simCqs, sys.cqMem
    ensures |sys.sqMem| == 0 ==> r == Raised(NoAdminPair) && sys.Valid() && sys.state == old(sys.state)
    ensures 0 < |sys.sqMem| ==>
              && Dispatched(Counts(old(sys.state), gone), rounds, served)
              && Ran(sys, r, old(sys.state), served, status)
    ensures r == Done && IoWaiting(Counts(old(sys.state), gone), |sys.sqMem|) <= 100 ==>
              NoneWaits(sys.state, gone)
  {
    ghost var s := sys.state;
    ghost var n;
    if |sys.sqMem| == 0 {
      return Raised(NoAdminPair), 0, [];
    }
    rounds, served := PlanFor(s, gone);
    r, n := DrainAdmin(sys, status, s);
    if r == Done {
      r := ServeIo(sys, gone, status, s, rounds, served);
    } else {
      DrainIsFirst(s, gone, rounds, served, n);
      BrokenStays(s, Zeros(n), served, status);
    }
    if r == Done && IoWaiting(Counts(s, gone), |s.sqs|) <= 100 {
      AllHandled(s, gone, rounds, served, status);
    }
  }

  /** The plan starts with the admin commands. */
  lemma DrainIsFirst(s: State, gone: set<nat>, rounds: nat, served: seq<nat>, n: nat)
    requires Wired(s) && 0 < |s.sqs| && 0 !in gone && n <= Waiting(s.sqs[0])
    requires Dispatched(Counts(s, gone), rounds, served)
    ensures Zeros(n) <= served
  {
    ZerosPrefix(n, Waiting(s.sqs[0]));
  }
}
